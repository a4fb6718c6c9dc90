/** The pieces of JavaScript's number handling that the routes rely on:
    the global `parseInt` with no radix argument (section 19.2.5 of
    ECMA-262), the decimal rendering of a non-negative integer when a number
    is concatenated to a string, and `Math.round`. Numbers are exact here:
    see README for what double rounding would change. */
module JsNumbers {
  import opened Wrappers

  /** StrWhiteSpaceChar: the white space and line terminators that
      `parseInt` skips before the number. */
  predicate IsStrWhiteSpace(c: char) {
    var u := c as int;
    || (0x9 <= u <= 0xD) || u == 0x20 || u == 0xA0 || u == 0x1680
    || (0x2000 <= u <= 0x200A) || u == 0x2028 || u == 0x2029 || u == 0x202F
    || u == 0x205F || u == 0x3000 || u == 0xFEFF
  }

  /** The string without its leading white space. */
  function TrimStart(s: string): (r: string)
    ensures |r| <= |s| && r == s[|s| - |r|..]
    ensures r == [] || !IsStrWhiteSpace(r[0])
    ensures forall i :: 0 <= i < |s| - |r| ==> IsStrWhiteSpace(s[i])
  {
    if s != [] && IsStrWhiteSpace(s[0]) then TrimStart(s[1..]) else s
  }

  /** The value of a character as a digit in any radix up to 36; 36 for a
      character that is a digit in none. */
  function DigitValue(c: char): (v: nat)
    ensures v <= 36
  {
    if '0' <= c <= '9' then c as int - '0' as int
    else if 'a' <= c <= 'z' then c as int - 'a' as int + 10
    else if 'A' <= c <= 'Z' then c as int - 'A' as int + 10
    else 36
  }

  predicate IsDecimalDigit(c: char) {
    '0' <= c <= '9'
  }

  /** Length of the longest prefix of `s` made of radix-`radix` digits. */
  function DigitRun(s: string, radix: nat): (n: nat)
    ensures n <= |s|
    ensures forall i :: 0 <= i < n ==> DigitValue(s[i]) < radix
    ensures n < |s| ==> DigitValue(s[n]) >= radix
  {
    if s != [] && DigitValue(s[0]) < radix then 1 + DigitRun(s[1..], radix) else 0
  }

  /** The number a digit string denotes in radix 10 or 16, most significant
      digit first. */
  function DigitsValue(d: string, radix: nat): nat
    requires radix == 10 || radix == 16
  {
    if d == [] then 0
    else
      var high := DigitsValue(d[..|d| - 1], radix);
      (if radix == 16 then 16 * high else 10 * high) + DigitValue(d[|d| - 1])
  }

  /** `parseInt(input)`: skip white space, take an optional sign, then read
      an unsigned number. `None` is NaN. */
  function ParseInt(input: string): Option<int> {
    ParseSigned(TrimStart(input))
  }

  /** An optional sign, then an unsigned number. */
  function ParseSigned(s: string): Option<int> {
    var negative := s != [] && s[0] == '-';
    match ParseMagnitude(StripSign(s))
    case None => None
    case Some(m) => Some(if negative then -m else m)
  }

  /** The string after its leading `+` or `-`, if it has one. */
  function StripSign(s: string): string {
    if s != [] && (s[0] == '+' || s[0] == '-') then s[1..] else s
  }

  /** A `0x` or `0X` prefix makes the radix 16, otherwise it is 10; the
      value is that of the longest run of digits that follows, and NaN when
      that run is empty. */
  function ParseMagnitude(u: string): Option<int> {
    var hex := |u| >= 2 && u[0] == '0' && (u[1] == 'x' || u[1] == 'X');
    var radix := if hex then 16 else 10;
    var body := if hex then u[2..] else u;
    var n := DigitRun(body, radix);
    if n == 0 then None else Some(DigitsValue(body[..n], radix))
  }

  function DigitChar(d: nat): (c: char)
    requires d < 10
    ensures IsDecimalDigit(c) && DigitValue(c) == d
  {
    ('0' as int + d) as char
  }

  /** How a non-negative integer reads when JavaScript turns it into a
      string: decimal digits, no sign, no leading zero. */
  function DecimalString(n: nat): (s: string)
    ensures |s| >= 1
    ensures forall i :: 0 <= i < |s| ==> IsDecimalDigit(s[i])
    ensures s[0] == '0' ==> s == "0"
    ensures n == 0 ==> s == "0"
  {
    if n < 10 then [DigitChar(n)] else DecimalString(n / 10) + [DigitChar(n % 10)]
  }

  /** The digits of `DecimalString(n)` denote `n`. */
  lemma {:induction false} DecimalStringValue(n: nat)
    ensures DigitsValue(DecimalString(n), 10) == n
  {
    var s := DecimalString(n);
    if n >= 10 {
      DecimalStringValue(n / 10);
      assert s[..|s| - 1] == DecimalString(n / 10);
    }
  }

  /** Distinct integers render as distinct strings. */
  lemma DecimalStringInjective(a: nat, b: nat)
    requires DecimalString(a) == DecimalString(b)
    ensures a == b
  {
    DecimalStringValue(a);
    DecimalStringValue(b);
  }

  lemma {:induction false} TrimStartSkipsWhiteSpace(ws: string, t: string)
    requires forall i :: 0 <= i < |ws| ==> IsStrWhiteSpace(ws[i])
    requires t == [] || !IsStrWhiteSpace(t[0])
    ensures TrimStart(ws + t) == t
  {
    if ws != [] {
      assert (ws + t)[1..] == ws[1..] + t;
      TrimStartSkipsWhiteSpace(ws[1..], t);
    }
  }

  lemma {:induction false} DigitRunOfDigits(d: string, rest: string, radix: nat)
    requires forall i :: 0 <= i < |d| ==> DigitValue(d[i]) < radix
    requires rest == [] || DigitValue(rest[0]) >= radix
    ensures DigitRun(d + rest, radix) == |d|
  {
    if d != [] {
      assert (d + rest)[1..] == d[1..] + rest;
      DigitRunOfDigits(d[1..], rest, radix);
    }
  }

  /** Digits followed by anything that cannot continue them do not start a
      hexadecimal literal unless they are a lone "0" followed by `x`/`X`. */
  lemma DigitsNotHex(d: string, rest: string)
    requires d != [] && forall i :: 0 <= i < |d| ==> IsDecimalDigit(d[i])
    requires d == "0" && rest != [] ==> rest[0] != 'x' && rest[0] != 'X'
    ensures var u := d + rest; !(|u| >= 2 && u[0] == '0' && (u[1] == 'x' || u[1] == 'X'))
  {
    var u := d + rest;
    if |u| >= 2 && u[0] == '0' {
      if |d| >= 2 {
        assert u[1] == d[1] && IsDecimalDigit(d[1]);
      } else {
        assert d == "0" && u[1] == rest[0];
      }
    }
  }

  /** A non-empty run of decimal digits, leading zeros included, followed
      by anything that cannot continue it reads as the value of the digits;
      the one exception is an `x` or `X` right after a lone "0", which
      makes the input a hexadecimal literal. */
  lemma ParseMagnitudeDigits(d: string, rest: string)
    requires d != [] && forall i :: 0 <= i < |d| ==> IsDecimalDigit(d[i])
    requires rest == [] || !IsDecimalDigit(rest[0])
    requires d == "0" && rest != [] ==> rest[0] != 'x' && rest[0] != 'X'
    ensures ParseMagnitude(d + rest) == Some(DigitsValue(d, 10))
  {
    var u := d + rest;
    DigitsNotHex(d, rest);
    assert forall i :: 0 <= i < |d| ==> DigitValue(d[i]) < 10;
    assert rest == [] || DigitValue(rest[0]) >= 10;
    DigitRunOfDigits(d, rest, 10);
    assert u[..|d|] == d;
  }

  /** Leading white space does not change what `parseInt` reads. */
  lemma ParseIntSkipsWhiteSpace(ws: string, t: string)
    requires forall i :: 0 <= i < |ws| ==> IsStrWhiteSpace(ws[i])
    requires t == [] || !IsStrWhiteSpace(t[0])
    ensures ParseInt(ws + t) == ParseSigned(t)
  {
    TrimStartSkipsWhiteSpace(ws, t);
  }

  /** Stripping the sign off a signed unsigned number leaves the number. */
  lemma StripSignOf(sign: string, u: string)
    requires sign == "" || sign == "+" || sign == "-"
    requires u != [] && u[0] != '+' && u[0] != '-'
    ensures StripSign(sign + u) == u
    ensures sign + u != [] && ((sign + u)[0] == '-' <==> sign == "-")
  {
    if sign == "" {
      assert sign + u == u;
    } else {
      assert (sign + u)[0] == sign[0] && (sign + u)[1..] == u;
    }
  }

  /** A sign in front of an unsigned number applies to its magnitude, and
      NaN stays NaN. */
  lemma ParseSignedSign(sign: string, u: string, m: int)
    requires sign == "" || sign == "+" || sign == "-"
    requires u != [] && u[0] != '+' && u[0] != '-'
    requires ParseMagnitude(u) == Some(m)
    ensures ParseSigned(sign + u) == Some(if sign == "-" then -m else m)
  {
    StripSignOf(sign, u);
  }

  lemma ConcatAssociative(a: string, b: string, c: string, d: string)
    ensures a + b + c + d == a + (b + c + d)
    ensures b + c + d == b + (c + d)
  {
  }

  /** Digits followed by anything start with a digit, not a sign. */
  lemma FirstOfDigits(d: string, rest: string)
    requires d != [] && IsDecimalDigit(d[0])
    ensures (d + rest)[0] == d[0]
    ensures (d + rest)[0] != '+' && (d + rest)[0] != '-'
  {
  }

  /** A signed run of digits does not start with white space, so
      `parseInt` trims nothing off it. */
  lemma SignedDigitsStart(sign: string, d: string, rest: string)
    requires sign == "" || sign == "+" || sign == "-"
    requires d != [] && IsDecimalDigit(d[0])
    ensures sign + (d + rest) != []
    ensures !IsStrWhiteSpace((sign + (d + rest))[0])
  {
    var u := d + rest;
    assert u[0] == d[0];
    assert (sign + u)[0] == if sign == "" then u[0] else sign[0];
  }

  /** `parseInt` reads white space, an optional sign and a run of decimal
      digits, leading zeros included, and stops at the first character
      that cannot continue it: "007" is 7, " -3" is -3, "+7" is 7. */
  lemma ParseIntReadsDigits(ws: string, sign: string, d: string, rest: string, m: int)
    requires forall i :: 0 <= i < |ws| ==> IsStrWhiteSpace(ws[i])
    requires sign == "" || sign == "+" || sign == "-"
    requires d != [] && forall i :: 0 <= i < |d| ==> IsDecimalDigit(d[i])
    requires rest == [] || !IsDecimalDigit(rest[0])
    requires d == "0" && rest != [] ==> rest[0] != 'x' && rest[0] != 'X'
    requires m == DigitsValue(d, 10)
    ensures ParseInt(ws + sign + d + rest) == Some(if sign == "-" then -m else m)
  {
    var t := sign + (d + rest);
    ParseMagnitudeDigits(d, rest);
    FirstOfDigits(d, rest);
    ParseSignedSign(sign, d + rest, m);
    SignedDigitsStart(sign, d, rest);
    ParseIntSkipsWhiteSpace(ws, t);
    ConcatAssociative(ws, sign, d, rest);
  }

  /** The decimal text of a number, read by `parseInt` with white space,
      sign and a tail that cannot continue it: "12abc" is 12. */
  lemma ParseIntReadsDecimal(ws: string, sign: string, n: nat, rest: string)
    requires forall i :: 0 <= i < |ws| ==> IsStrWhiteSpace(ws[i])
    requires sign == "" || sign == "+" || sign == "-"
    requires rest == [] || !IsDecimalDigit(rest[0])
    requires n == 0 && rest != [] ==> rest[0] != 'x' && rest[0] != 'X'
    ensures ParseInt(ws + sign + DecimalString(n) + rest) == Some(if sign == "-" then -(n as int) else n as int)
  {
    var d := DecimalString(n);
    if d == "0" {
      DecimalStringInjective(n, 0);
    }
    DecimalStringValue(n);
    ParseIntReadsDigits(ws, sign, d, rest, n);
  }

  /** "007" reads as 7: leading zeros do not make the number octal. */
  lemma ParseIntLeadingZeros()
    ensures ParseInt("007") == Some(7)
  {
    assert DigitsValue("007", 10) == 7 by {
      assert "007"[..2] == "00" && "00"[..1] == "0" && "0"[..0] == [];
    }
    assert "" + "" + "007" + "" == "007";
    ParseIntReadsDigits("", "", "007", "", 7);
  }

  /** Reading back the decimal rendering of a non-negative integer gives
      that integer. */
  lemma ParseIntRoundTrip(n: nat)
    ensures ParseInt(DecimalString(n)) == Some(n as int)
  {
    ParseIntReadsDecimal("", "", n, "");
    ConcatAssociative("", "", DecimalString(n), "");
    assert "" + "" + DecimalString(n) + "" == DecimalString(n);
  }

  /** "12abc" reads as 12: the digit run stops at the first letter. */
  lemma ParseIntTrailingLetters()
    ensures ParseInt("12abc") == Some(12)
  {
    assert DecimalString(12) == "12" by {
      assert DecimalString(1) == "1";
    }
    assert "" + "" + "12" + "abc" == "12abc";
    ParseIntReadsDecimal("", "", 12, "abc");
  }

  /** "-3" reads as the negative number -3. */
  lemma ParseIntNegative()
    ensures ParseInt("-3") == Some(-3)
  {
    assert DecimalString(3) == "3";
    ParseIntReadsDecimal("", "-", 3, "");
    assert "" + "-" + "3" + "" == "-3";
  }

  /** The hexadecimal digits "1A" form one run of value 26. */
  lemma HexDigits1A()
    ensures DigitRun("1A", 16) == 2
    ensures DigitsValue("1A", 16) == 26
  {
    assert "1A"[1..] == "A" && "A"[1..] == [];
    assert "1A"[..1] == "1" && "1"[..0] == [];
  }

  /** "0x1A" reads as hexadecimal 26. */
  lemma ParseIntHexadecimal()
    ensures ParseInt("0x1A") == Some(26)
  {
    var h := "0x1A";
    assert TrimStart(h) == h;
    assert StripSign(h) == h;
    HexDigits1A();
    assert h[2..] == "1A" && "1A"[..2] == "1A";
    assert ParseMagnitude(h) == Some(26);
  }

  /** No digit where one is needed is NaN: "abc", a lone "-", and "0x"
      with no hexadecimal digit after the prefix. */
  lemma ParseIntNaNLetters()
    ensures ParseInt("abc") == None
  {
    assert TrimStart("abc") == "abc";
    assert StripSign("abc") == "abc";
    assert DigitRun("abc", 10) == 0;
  }

  /** NaN: a sign with nothing after it. */
  lemma ParseIntNaNSign()
    ensures ParseInt("-") == None
  {
    var h := "-";
    assert ParseSigned(h) == None by {
      assert StripSign(h) == [];
      assert DigitRun([], 10) == 0;
    }
    assert TrimStart(h) == h by {
      assert h[0] == '-';
    }
  }

  /** NaN: a hexadecimal prefix with no digit after it. */
  lemma ParseIntNaNHexPrefix()
    ensures ParseInt("0x") == None
  {
    var h := "0x";
    assert TrimStart(h) == h && StripSign(h) == h;
    assert h[2..] == [] && DigitRun([], 16) == 0;
    assert ParseMagnitude(h) == None;
    assert ParseSigned(h) == None;
  }

  /** `Math.round(x)`: the nearest integer, halves rounded up. */
  function MathRound(x: real): (r: int)
    ensures r as real - 0.5 <= x < r as real + 0.5
  {
    (x + 0.5).Floor
  }
}
