# Upload store and routes of the HackCrux disaster-analysis server

This project models, in Dafny, the server side of the upload lifecycle of the
HackCrux 2025 disaster-analysis demo:

- `MemStorage`, the in-memory record store. It has two JavaScript `Map` tables
  (users and uploads) and two auto-increment counters.
- The two API routes that drive it:
  - `POST /api/upload`: the multer middleware receives one image, and the
    handler records it.
  - `POST /api/analyze/:id`: reads the id with `parseInt`, looks the record up,
    and stores a random verdict with its fixed explanation.

Modules, one file each:

- `wrappers.dfy`: `Option` (for `undefined`, `null` and `NaN`) and `Result`.
- `js_maps.dfy`: JavaScript's `Map` as an insertion-ordered dictionary: `new Map()`,
  `get`, `set` (a re-set key keeps its place) and `Array.from(map.values())`.
- `js_numbers.dfy`: the global `parseInt` without a radix (section 19.2.5 of
  ECMA-262: white space, sign, `0x` prefix, leading digit run, NaN),
  the decimal text of a non-negative integer, and `Math.round`.
- `schema.dfy`: the `User` and `Upload` records and their insert subsets.
- `storage.dfy`: the class `MemStorage`. Its invariant `Valid()` says:
  - each table's keys are exactly the ids 1 .. counter-1, in creation order;
  - every record sits under its own id;
  - no upload has a verdict without its explanation, or the other way round.
- `routes.dfy`:
  - the multer rules: accepted field name, the `image/` file filter, the
    10 MiB limit and the stored-file-name builder;
  - the two handlers, as methods that drive a `MemStorage`.
- `scenarios.dfy`: request sequences on a fresh store whose outcomes follow
  from the contracts alone. Examples: upload 1 then analyze it, 404 for "999"
  and "-3", a text file refused, a blank file input answered 400, two users
  with the same name.

Clocks and randomness are parameters:

- `Date.now()` is `timestamp`.
- `new Date().toISOString()` is `createdAt` or `date`.
- `Math.random()` is `draw`, a real in [0, 1).
- `path.extname(originalname)` is `ext`.

Behaviour of the code that a reader might not expect, and that the model keeps:

- A wrong mime type or an oversize file never reaches the route handler.
  multer hands both errors to Express's error chain (`next(err)`), so the
  status comes from the application's error handler, which is not in these
  files. The model returns `IntakeFailed` with no status.
- A file part whose client file name is empty, which is what a browser sends
  for a file input left blank, is skipped by multer. `req.file` stays unset
  and the handler answers 400 "No file uploaded", whatever the part's type
  or size.
- The id in `/api/analyze/:id` is whatever `parseInt` reads: "12abc" is upload 12,
  "1.5" is upload 1, "007" is upload 7, "0x1A" is upload 26, and "-3" gets a 404.
  Only two kinds of input get a 400: input with no leading digit run, and a
  `0x`/`0X` prefix with no hexadecimal digit after it ("0x", "0xg", "-0x").
- `shared/schema.ts:7` declares the username column `.unique()`, but
  `createUser` does not check this, and `getUserByUsername` returns the
  earliest match.

## Model

| member | source | states |
|---|---|---|
| `JsMaps.Empty` | Disaster_Analysis_System_HackCrux_2025/server/storage.ts:22-24 | a new Map is well formed, has no keys, and `get` finds nothing |
| `JsMaps.Set` | Disaster_Analysis_System_HackCrux_2025/server/storage.ts:63-75 | `set` keeps the map well formed. `get` then finds the new value at that key and the old value at every other key. An existing key keeps its position; a new key goes last |
| `JsMaps.Values` | Disaster_Analysis_System_HackCrux_2025/server/storage.ts:77-79 | `Array.from(map.values())` has one element per key, and the i-th element is the value of the i-th inserted key |
| `JsMaps.ValuesAfterSetExisting` | Disaster_Analysis_System_HackCrux_2025/server/storage.ts:63-79 | re-setting an existing key replaces its value in place in the values list, and nothing else moves |
| `JsMaps.ValuesAfterSetNew` | Disaster_Analysis_System_HackCrux_2025/server/storage.ts:46-79 | setting a new key appends its value to the values list |
| `JsNumbers.TrimStart` | Disaster_Analysis_System_HackCrux_2025/server/routes.ts:88 | `parseInt` drops exactly the leading run of white-space and line-terminator characters |
| `JsNumbers.TrimStartSkipsWhiteSpace` | Disaster_Analysis_System_HackCrux_2025/server/routes.ts:88 | trimming a white-space prefix off text that does not start with white space leaves exactly that text |
| `JsNumbers.DigitRun` | Disaster_Analysis_System_HackCrux_2025/server/routes.ts:88 | the digit run `parseInt` reads is the longest prefix of radix digits: every character in it is a digit, and the next one is not |
| `JsNumbers.ParseIntSkipsWhiteSpace` | Disaster_Analysis_System_HackCrux_2025/server/routes.ts:88 | white space in front of the id does not change what `parseInt` reads |
| `JsNumbers.ParseSignedSign` | Disaster_Analysis_System_HackCrux_2025/server/routes.ts:88 | a leading `-` negates the magnitude; a leading `+` or no sign leaves it unchanged |
| `JsNumbers.DigitsNotHex` | Disaster_Analysis_System_HackCrux_2025/server/routes.ts:88 | a run of decimal digits switches `parseInt` to radix 16 only when it is a lone "0" followed by `x` or `X` |
| `JsNumbers.ParseMagnitudeDigits` | Disaster_Analysis_System_HackCrux_2025/server/routes.ts:88 | any non-empty run of decimal digits, leading zeros included, followed by a non-digit reads as the value of the digits. The exception is a lone "0" followed by `x`/`X`, which starts a hexadecimal literal |
| `JsNumbers.ParseIntReadsDigits` | Disaster_Analysis_System_HackCrux_2025/server/routes.ts:88-92 | white space, an optional sign, any run of decimal digits, then anything that cannot continue it: `parseInt` returns the signed value of the digits, not NaN |
| `JsNumbers.ParseIntReadsDecimal` | Disaster_Analysis_System_HackCrux_2025/server/routes.ts:88-92 | the same for the decimal text of a number: `parseInt` returns that number with the sign applied |
| `JsNumbers.ParseIntLeadingZeros` | Disaster_Analysis_System_HackCrux_2025/server/routes.ts:88-92 | "007" reads as 7: leading zeros do not make the number octal |
| `JsNumbers.ParseIntRoundTrip` | Disaster_Analysis_System_HackCrux_2025/server/routes.ts:88 | `parseInt` of a non-negative integer's decimal text gives that integer back |
| `JsNumbers.ParseIntTrailingLetters` | Disaster_Analysis_System_HackCrux_2025/server/routes.ts:88-92 | "12abc" reads as 12, so it passes the NaN check |
| `JsNumbers.ParseIntNegative` | Disaster_Analysis_System_HackCrux_2025/server/routes.ts:88-98 | "-3" reads as -3, a number, so it goes on to the store lookup |
| `JsNumbers.ParseIntHexadecimal` | Disaster_Analysis_System_HackCrux_2025/server/routes.ts:88 | "0x1A" reads as 26 (no radix given, so a `0x` prefix selects radix 16) |
| `JsNumbers.ParseIntNaNLetters` | Disaster_Analysis_System_HackCrux_2025/server/routes.ts:88-92 | "abc" is NaN |
| `JsNumbers.ParseIntNaNSign` | Disaster_Analysis_System_HackCrux_2025/server/routes.ts:88-92 | a lone "-" is NaN |
| `JsNumbers.ParseIntNaNHexPrefix` | Disaster_Analysis_System_HackCrux_2025/server/routes.ts:88-92 | "0x" with no hexadecimal digit after it is NaN, although it starts with the digit 0 |
| `JsNumbers.DecimalString` | Disaster_Analysis_System_HackCrux_2025/server/routes.ts:23 | a number concatenated to a string reads as one or more decimal digits, with no sign and no leading zero |
| `JsNumbers.DecimalStringValue` | Disaster_Analysis_System_HackCrux_2025/server/routes.ts:23 | the digits of that text denote the number itself |
| `JsNumbers.DecimalStringInjective` | Disaster_Analysis_System_HackCrux_2025/server/routes.ts:23 | distinct numbers give distinct texts |
| `JsNumbers.MathRound` | Disaster_Analysis_System_HackCrux_2025/server/routes.ts:23 | `Math.round` returns the integer within one half of its argument, rounding halves up |
| `Storage.IdsBelow` | Disaster_Analysis_System_HackCrux_2025/server/storage.ts:46-47 | a counter that starts at 1 and is post-incremented has handed out exactly the ids 1 .. next-1, in increasing order |
| `Storage.FirstWithUsername` | Disaster_Analysis_System_HackCrux_2025/server/storage.ts:34-36 | `find` stops at the first user with the name. Every user before that position has another name; if there is no match, no user has the name |
| `Storage.MemStorage.constructor` | Disaster_Analysis_System_HackCrux_2025/server/storage.ts:22-27 | a fresh store has two empty tables, both counters at 1, and satisfies the invariant |
| `Storage.MemStorage.GetUser` | Disaster_Analysis_System_HackCrux_2025/server/storage.ts:29-31 | a user is found exactly for an id already handed out, and that user carries the id |
| `Storage.MemStorage.GetUserByUsername` | Disaster_Analysis_System_HackCrux_2025/server/storage.ts:33-37 | it returns nothing exactly when no stored user has the name. Otherwise it returns a stored user with that name, and no user with a smaller id, that is no earlier-created user, has the name |
| `Storage.MemStorage.CreateUser` | Disaster_Analysis_System_HackCrux_2025/server/storage.ts:39-44 | the new user takes the old counter value, which no user had. The counter goes up by one and the user is stored under that id with the given name and password. A duplicate name is not rejected, and the upload table is untouched |
| `Storage.MemStorage.CreateUpload` | Disaster_Analysis_System_HackCrux_2025/server/storage.ts:46-57 | the new record takes the old counter value, which no record had, and the counter goes up by one. The record carries the five inserted fields unchanged, has no verdict and no explanation, and has the given creation time. A `getUpload` of its id then returns it. The invariant is kept |
| `Storage.MemStorage.GetUpload` | Disaster_Analysis_System_HackCrux_2025/server/storage.ts:59-61 | a record is found exactly for an id already handed out. It carries that id and has both analysis fields or neither |
| `Storage.MemStorage.UpdateUploadAnalysis` | Disaster_Analysis_System_HackCrux_2025/server/storage.ts:63-75 | a result is returned exactly when the id is stored; it has the given verdict and explanation and all other fields unchanged. Only that record is replaced, at its old position. For an unknown id, nothing changes and nothing is created. Counters and users are never touched |
| `Storage.MemStorage.GetAllUploads` | Disaster_Analysis_System_HackCrux_2025/server/storage.ts:77-79 | one record per id handed out, in creation order: the i-th has id i+1, is the stored record for it, and has both analysis fields or neither |
| `Routes.FileFilter` | Disaster_Analysis_System_HackCrux_2025/server/routes.ts:34-40 | a file is accepted exactly when its mime type is `image/` followed by anything. Otherwise the callback gets the error "Only image files are allowed" |
| `Routes.RandomSuffix` | Disaster_Analysis_System_HackCrux_2025/server/routes.ts:23 | `Math.round(Math.random() * 1e9)` is an integer from 0 to 10^9, within one half of the scaled draw |
| `Routes.StoredFilenameInjective` | Disaster_Analysis_System_HackCrux_2025/server/routes.ts:22-26 | for one field name and extension, the stored name `field-timestamp-suffix+ext` determines the timestamp and the suffix, so different clock readings or suffixes give different names |
| `Routes.ReceiveFile` | Disaster_Analysis_System_HackCrux_2025/server/routes.ts:29-41 | a file part is stored exactly when its field is `image`, its mime type starts with `image/`, and its size is at most 10485760 bytes. The errors are tried in that order: unexpected field, filter rejection, too large. A stored file keeps the client's name, type and size and gets the generated name |
| `Routes.MulterSingle` | Disaster_Analysis_System_HackCrux_2025/server/routes.ts:48-52 | no file part, or a part with an empty client file name, leaves `req.file` unset. Any other part succeeds exactly when `ReceiveFile` accepts it, fails with the same error when it does not, and `req.file` is then the stored file |
| `Routes.PostUpload` | Disaster_Analysis_System_HackCrux_2025/server/routes.ts:48-83 | no file, or a file part with an empty client name, gives 400. A refused file gives the middleware's error. Neither changes the store. An accepted file gives 201 with the new record's id, which is the old counter value, and its stored file name. The store gains exactly that pending record, which has no user, the client's name, type and size, and the creation time |
| `Routes.VerdictDetails` | Disaster_Analysis_System_HackCrux_2025/server/routes.ts:101-104 | the explanation is non-empty. It is the flood-alert text exactly for an alert and the normal-conditions text exactly otherwise |
| `Routes.PostAnalyze` | Disaster_Analysis_System_HackCrux_2025/server/routes.ts:86-121 | 400 exactly when `parseInt` gives NaN, and 404 exactly when the parsed id has no record; both leave the store unchanged. Otherwise, analyzed before or not, the record gets the verdict `draw > 0.5` and its explanation, and nothing else in the store changes. The 200 reply echoes the id, the record's file name and that same pair |

## Left out

- The `async`/`Promise` wrapping: every store method runs to completion without suspending, so the store is modelled with plain methods.
- Requests running concurrently: one request's handler runs between two store calls of another only at `await` points; the model runs requests one at a time.
- The `catch` branches that answer 500. Nothing in the modelled path throws.
- The `ZodError` branch that answers 400. The handler builds all five insert fields with the right types, so `insertUploadSchema.parse` returns them unchanged. It is modelled as that pass-through.
- The file bytes, the upload directory, the disk write and multer's removal of a partial file: this is file-system I/O.
- `GET /api/uploads/:filename`: it only checks that a file exists and sends it, which is file-system I/O.
- `createServer` and the Express app: no logic of their own.
- The application's error handler: it decides the status of a multer error, and it is not part of this model.
- `path.extname`: a library call whose result is the parameter `ext`.
- A second file under `image`, and non-file form fields: the model takes zero or one file part per request.
- The `IStorage` interface and the module-level `storage` singleton: the handlers take the store as a parameter.
- The client pages and `client/src/lib/utils.ts`: these are rendering, static sample data and timers.
- Storage.MemStorage.CreateUpload and Storage.MemStorage.CreateUser: the id counters are unbounded here. In JavaScript, `uploadCurrentId++` and `userCurrentId++` stop increasing at 2^53, because 2^53 + 1 rounds back to 2^53, so a store past that point would hand out the same id again and overwrite a record. The proved property that every new id is fresh holds only below 2^53 records, which no in-memory store reaches.
- JsNumbers.ParseInt: returns the exact integer. JavaScript rounds a digit run above 2^53 to the nearest double, which could only matter for a store with more than 2^53 records. `-0` and `0` are the same id here, as they are for a JavaScript `Map`.
- Routes.RandomSuffix: computed on exact reals, so double-precision rounding of `Math.random() * 1e9` is not modelled.
- Routes.PostAnalyze: the verdict is computed from a real `draw`, so the double-precision comparison `Math.random() > 0.5` is not modelled.
- JsNumbers.DecimalString: always gives plain digits. JavaScript switches to exponent notation from 10^21 on, which neither `Date.now()` nor the rounded suffix reaches.
