/** The two API routes that drive the record store: `POST /api/upload`,
    where the multer middleware receives one image before the handler
    records it, and `POST /api/analyze/:id`, which stores a verdict for a
    recorded upload. The clock, `Math.random()` and the file extension are
    parameters; the file bytes and the disk write are not modelled. */
module Routes {
  import opened Wrappers
  import opened Schema
  import opened JsNumbers
  import opened Storage
  import JsMaps

  /** The multer size limit for one file: 10 MiB. */
  const FileSizeLimit: nat := 10 * 1024 * 1024

  /** The only form field `upload.single` accepts a file under. */
  const UploadField: string := "image"

  const FileTypeMessage: string := "Only image files are allowed"

  const FloodAlertDetails: string :=
    "Our ML model has detected patterns consistent with a potential flood risk in the analyzed area. The satellite imagery shows signs of excessive water accumulation and terrain vulnerabilities."

  const NormalConditionsDetails: string :=
    "Our ML model analysis indicates normal conditions in the captured area. No signs of imminent natural disasters were detected in the satellite imagery."

  predicate StartsWith(s: string, prefix: string) {
    |prefix| <= |s| && s[..|prefix|] == prefix
  }

  /** The multer `fileFilter`: a file is taken exactly when its mime type
      is `image/` followed by anything; otherwise the callback gets an error. */
  function FileFilter(mimetype: string): (r: Result<bool, string>)
    ensures r.Success? <==> exists subtype :: mimetype == "image/" + subtype
    ensures r.Success? ==> r.value
    ensures r.Failure? ==> r.error == FileTypeMessage
  {
    if StartsWith(mimetype, "image/") then
      assert mimetype == "image/" + mimetype[6..];
      Success(true)
    else
      Failure(FileTypeMessage)
  }

  /** `Math.round(Math.random() * 1e9)` for a draw of `Math.random()`. */
  function RandomSuffix(draw: real): (n: nat)
    requires 0.0 <= draw < 1.0
    ensures n <= 1000000000
    ensures n as real - 0.5 <= draw * 1000000000.0 < n as real + 0.5
  {
    MathRound(draw * 1000000000.0)
  }

  /** The name the disk storage gives a file: field name, `-`, the
      millisecond clock, `-`, the random suffix, then the extension of the
      client's file name. */
  function StoredFilename(fieldname: string, timestamp: nat, suffix: nat, ext: string): string {
    fieldname + "-" + DecimalString(timestamp) + "-" + DecimalString(suffix) + ext
  }

  /** In a string free of `-`, followed by `-` and a tail, the first `-`
      is the one right after it. */
  lemma FirstDash(a: string, b: string)
    requires forall i :: 0 <= i < |a| ==> a[i] != '-'
    ensures (a + "-" + b)[|a|] == '-'
    ensures forall i :: 0 <= i < |a| ==> (a + "-" + b)[i] != '-'
  {
  }

  /** Two strings free of `-`, each followed by `-` and a tail: equal
      wholes have equal parts. */
  lemma SplitAtDash(a: string, b: string, c: string, d: string)
    requires forall i :: 0 <= i < |a| ==> a[i] != '-'
    requires forall i :: 0 <= i < |c| ==> c[i] != '-'
    requires a + "-" + b == c + "-" + d
    ensures a == c && b == d
  {
    var x := a + "-" + b;
    FirstDash(a, b);
    FirstDash(c, d);
    assert a == x[..|a|];
    assert b == x[|a| + 1..];
  }

  /** Stored file names for the same field and extension differ whenever
      the clock readings or the random suffixes differ. */
  lemma StoredFilenameInjective(fieldname: string, ext: string, t1: nat, s1: nat, t2: nat, s2: nat)
    requires StoredFilename(fieldname, t1, s1, ext) == StoredFilename(fieldname, t2, s2, ext)
    ensures t1 == t2 && s1 == s2
  {
    var head := fieldname + "-";
    var a1 := DecimalString(t1) + "-" + DecimalString(s1);
    var a2 := DecimalString(t2) + "-" + DecimalString(s2);
    var x := StoredFilename(fieldname, t1, s1, ext);
    assert x == head + a1 + ext;
    assert x == head + a2 + ext;
    assert a1 == x[|head|..|x| - |ext|];
    assert a2 == x[|head|..|x| - |ext|];
    SplitAtDash(DecimalString(t1), DecimalString(s1), DecimalString(t2), DecimalString(s2));
    DecimalStringInjective(t1, t2);
    DecimalStringInjective(s1, s2);
  }

  /** One file part of a multipart request, as multer sees it. */
  datatype FilePart = FilePart(fieldname: string, originalname: string, mimetype: string, size: nat)

  /** Why multer refused the request; it hands the error to the next
      error handler instead of to the route handler. */
  datatype IntakeError =
    | UnexpectedField(field: string)   // LIMIT_UNEXPECTED_FILE
    | FilterRejected(message: string)  // the error the fileFilter passes back
    | FileTooLarge                     // LIMIT_FILE_SIZE

  /** `req.file` once multer has stored a file on disk. */
  datatype StoredFile = StoredFile(
    fieldname: string, originalname: string, mimetype: string, filename: string, size: nat)

  /** `upload.single('image')` on one file part: the field name is checked
      first, then the fileFilter, then the size limit while the bytes are
      written; a file that passes is stored under a generated name. */
  function ReceiveFile(part: FilePart, timestamp: nat, draw: real, ext: string): (r: Result<StoredFile, IntakeError>)
    requires 0.0 <= draw < 1.0
    ensures r.Success? <==>
      part.fieldname == "image" && StartsWith(part.mimetype, "image/") && part.size <= 10485760
    ensures part.fieldname != "image" ==> r == Failure(UnexpectedField(part.fieldname))
    ensures part.fieldname == "image" && !StartsWith(part.mimetype, "image/") ==>
      r == Failure(FilterRejected("Only image files are allowed"))
    ensures part.fieldname == "image" && StartsWith(part.mimetype, "image/") && part.size > 10485760 ==>
      r == Failure(FileTooLarge)
    ensures r.Success? ==>
      && r.value.filename == StoredFilename("image", timestamp, RandomSuffix(draw), ext)
      && r.value.originalname == part.originalname && r.value.mimetype == part.mimetype
      && r.value.size == part.size && r.value.fieldname == "image"
  {
    if part.fieldname != UploadField then Failure(UnexpectedField(part.fieldname))
    else match FileFilter(part.mimetype)
      case Failure(message) => Failure(FilterRejected(message))
      case Success(_) =>
        if part.size > FileSizeLimit then Failure(FileTooLarge)
        else
          var filename := StoredFilename(part.fieldname, timestamp, RandomSuffix(draw), ext);
          Success(StoredFile(part.fieldname, part.originalname, part.mimetype, filename, part.size))
  }

  /** The middleware for a whole request. No file part, or a part whose
      client file name is empty (what a browser sends for a file input
      left blank), leaves `req.file` unset (`None`): multer drains such a
      part before any other check. Any other part goes through
      `ReceiveFile`. */
  function MulterSingle(part: Option<FilePart>, timestamp: nat, draw: real, ext: string): (r: Result<Option<StoredFile>, IntakeError>)
    requires 0.0 <= draw < 1.0
    ensures part.None? || part.value.originalname == "" ==> r == Success(None)
    ensures part.Some? && part.value.originalname != "" ==>
      && (r.Success? <==> ReceiveFile(part.value, timestamp, draw, ext).Success?)
      && (r.Failure? ==> r.error == ReceiveFile(part.value, timestamp, draw, ext).error)
    ensures r.Success? && r.value.Some? ==>
      && part.Some? && part.value.originalname != ""
      && r.value.value == ReceiveFile(part.value, timestamp, draw, ext).value
  {
    match part
    case None => Success(None)
    case Some(p) =>
      if p.originalname == "" then Success(None)
      else match ReceiveFile(p, timestamp, draw, ext)
        case Failure(e) => Failure(e)
        case Success(file) => Success(Some(file))
  }

  /** What `POST /api/upload` comes to. */
  datatype UploadReply =
    | IntakeFailed(error: IntakeError)
    | NoFileUploaded
    | Created(uploadId: int, filename: string)
  {
    /** The status this route answers with; an intake failure is answered
        by the application's error handler, which is not part of this model. */
    function Status(): Option<int> {
      match this
      case IntakeFailed(_) => None
      case NoFileUploaded => Some(400)
      case Created(_, _) => Some(201)
    }

    function Message(): Option<string> {
      match this
      case IntakeFailed(_) => None
      case NoFileUploaded => Some("No file uploaded")
      case Created(_, _) => Some("File uploaded successfully")
    }
  }

  /** `POST /api/upload`: multer first, then the handler, which records a
      received file in the store (its insert data passes validation
      unchanged, with no user) and answers 201 with the new id and the
      stored file name. `timestamp` is `Date.now()`, `draw` is
      `Math.random()`, `ext` is the extension of the client's file name and
      `createdAt` is the record's ISO creation time. */
  method PostUpload(store: MemStorage, part: Option<FilePart>, timestamp: nat, draw: real, ext: string, createdAt: string)
    returns (reply: UploadReply)
    requires store.Valid()
    requires 0.0 <= draw < 1.0
    modifies store
    ensures store.Valid()
    ensures part.None? || part.value.originalname == "" ==> reply == NoFileUploaded
    ensures MulterSingle(part, timestamp, draw, ext).Failure? ==>
      reply == IntakeFailed(MulterSingle(part, timestamp, draw, ext).error)
    ensures reply.Created? <==>
      part.Some? && part.value.originalname != "" && ReceiveFile(part.value, timestamp, draw, ext).Success?
    ensures !reply.Created? ==> unchanged(store)
    ensures reply.Created? ==>
      && reply.uploadId == old(store.uploadCurrentId)
      && reply.filename == StoredFilename("image", timestamp, RandomSuffix(draw), ext)
      && store.uploadCurrentId == old(store.uploadCurrentId) + 1
      && store.uploads == JsMaps.Set(old(store.uploads), reply.uploadId,
           Upload(reply.uploadId, reply.filename, part.value.originalname, part.value.mimetype,
                  part.value.size, None, None, None, createdAt))
      && store.users == old(store.users) && store.userCurrentId == old(store.userCurrentId)
  {
    var intake := MulterSingle(part, timestamp, draw, ext);
    if intake.Failure? {
      return IntakeFailed(intake.error);
    }
    if intake.value.None? {
      return NoFileUploaded;
    }
    var file := intake.value.value;
    var uploadData := InsertUpload(file.filename, file.originalname, file.mimetype, file.size, None);
    var record := store.CreateUpload(uploadData, createdAt);
    reply := Created(record.id, record.filename);
  }

  /** The explanation stored with a verdict: one fixed text for an alert,
      another for normal conditions. */
  function VerdictDetails(isAlert: bool): (details: string)
    ensures |details| > 0
    ensures (details == FloodAlertDetails) == isAlert
    ensures (details == NormalConditionsDetails) == !isAlert
  {
    if isAlert then FloodAlertDetails
    else
      assert |NormalConditionsDetails| != |FloodAlertDetails|;
      NormalConditionsDetails
  }

  /** What `POST /api/analyze/:id` comes to. */
  datatype AnalyzeReply =
    | InvalidUploadId
    | UploadNotFound
    | Analyzed(uploadId: int, filename: string, isAlert: bool, details: string, date: string)
  {
    function Status(): int {
      match this
      case InvalidUploadId => 400
      case UploadNotFound => 404
      case Analyzed(_, _, _, _, _) => 200
    }
  }

  /** `POST /api/analyze/:id`: an id that `parseInt` reads as NaN is a 400
      before the store is touched; an id with no record is a 404 and
      changes nothing; otherwise the verdict `draw > 0.5` (`draw` is
      `Math.random()`) and its fixed explanation overwrite the record's
      analysis fields, whether or not it was analyzed before, and the reply
      echoes the id, the stored file name and that pair. `date` is the
      reply's ISO time. */
  method PostAnalyze(store: MemStorage, idParam: string, draw: real, date: string) returns (reply: AnalyzeReply)
    requires store.Valid()
    modifies store
    ensures store.Valid()
    ensures reply.InvalidUploadId? <==> ParseInt(idParam).None?
    ensures reply.UploadNotFound? <==>
      ParseInt(idParam).Some? && JsMaps.Get(old(store.uploads), ParseInt(idParam).value).None?
    ensures !reply.Analyzed? ==> unchanged(store)
    ensures reply.Analyzed? ==>
      && ParseInt(idParam) == Some(reply.uploadId)
      && reply.uploadId in old(store.uploads.entries)
      && reply.filename == old(store.uploads.entries[reply.uploadId].filename)
      && reply.isAlert == (draw > 0.5)
      && reply.details == VerdictDetails(reply.isAlert)
      && reply.date == date
      && store.uploads == JsMaps.Set(old(store.uploads), reply.uploadId,
           old(store.uploads.entries[reply.uploadId]).(
             analysisResult := Some(reply.isAlert), analysisDetails := Some(reply.details)))
      && store.uploadCurrentId == old(store.uploadCurrentId)
      && store.users == old(store.users) && store.userCurrentId == old(store.userCurrentId)
  {
    var parsed := ParseInt(idParam);
    if parsed.None? {
      return InvalidUploadId;
    }
    var uploadId := parsed.value;
    var upload := store.GetUpload(uploadId);
    if upload.None? {
      return UploadNotFound;
    }
    var isAlert := draw > 0.5;
    var details := VerdictDetails(isAlert);
    var _ := store.UpdateUploadAnalysis(uploadId, isAlert, details);
    reply := Analyzed(uploadId, upload.value.filename, isAlert, details, date);
  }
}
