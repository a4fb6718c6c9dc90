/** The two record shapes the store keeps, as its table declarations give
    them, and the insert shapes the store is handed. */
module Schema {
  import opened Wrappers

  datatype User = User(id: int, username: string, password: string)

  /** The fields a caller supplies for a new user. */
  datatype InsertUser = InsertUser(username: string, password: string)

  /** One uploaded image and its analysis verdict. `None` stands for the
      null of a nullable column. */
  datatype Upload = Upload(
    id: int,
    filename: string,
    originalname: string,
    mimetype: string,
    size: int,
    userId: Option<int>,
    analysisResult: Option<bool>,
    analysisDetails: Option<string>,
    createdAt: string)

  /** The fields a caller supplies for a new upload. */
  datatype InsertUpload = InsertUpload(
    filename: string,
    originalname: string,
    mimetype: string,
    size: int,
    userId: Option<int>)

  /** The verdict and its explanation are both absent or both present. */
  predicate AnalysisPaired(u: Upload) {
    u.analysisResult.None? <==> u.analysisDetails.None?
  }

  /** Everything but the two analysis fields agrees. */
  predicate SameMetadata(a: Upload, b: Upload) {
    && a.id == b.id && a.filename == b.filename && a.originalname == b.originalname
    && a.mimetype == b.mimetype && a.size == b.size && a.userId == b.userId
    && a.createdAt == b.createdAt
  }

  /** The record carries the inserted fields unchanged. */
  predicate CarriesInsert(u: Upload, ins: InsertUpload) {
    && u.filename == ins.filename && u.originalname == ins.originalname
    && u.mimetype == ins.mimetype && u.size == ins.size && u.userId == ins.userId
  }
}
