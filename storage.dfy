/** The in-memory record store: two JavaScript `Map` tables keyed by id and
    two auto-increment counters. Nothing is ever deleted, so the keys of a
    table are always the ids handed out so far, 1 up to its counter - 1, in
    the order they were handed out. */
module Storage {
  import opened Wrappers
  import opened Schema
  import opened JsMaps

  /** The ids 1, 2, ..., next - 1 in increasing order: what a counter that
      started at 1 has handed out by the time it reads `next`. */
  function IdsBelow(next: nat): (ids: seq<int>)
    requires next >= 1
    ensures |ids| == next - 1
    ensures forall i :: 0 <= i < |ids| ==> ids[i] == i + 1
    ensures forall k :: k in ids <==> 1 <= k < next
  {
    if next == 1 then [] else IdsBelow(next - 1) + [next - 1]
  }

  /** `users.find(u => u.username === username)`, by position: the index of
      the first user with that name, or `|users|` when there is none. */
  function FirstWithUsername(users: seq<User>, username: string): (i: nat)
    ensures i <= |users|
    ensures i < |users| ==> users[i].username == username
    ensures forall j :: 0 <= j < i ==> users[j].username != username
  {
    if users == [] then 0
    else if users[0].username == username then 0
    else 1 + FirstWithUsername(users[1..], username)
  }

  class MemStorage {
    var users: OrderedMap<User>
    var uploads: OrderedMap<Upload>
    var userCurrentId: nat
    var uploadCurrentId: nat

    /** Each table holds exactly the ids its counter has handed out, in
        that order; every record sits under its own id; and no upload has a
        verdict without its explanation or the other way round. */
    ghost predicate Valid()
      reads this
    {
      && userCurrentId >= 1 && uploadCurrentId >= 1
      && WellFormed(users) && users.keys == IdsBelow(userCurrentId)
      && WellFormed(uploads) && uploads.keys == IdsBelow(uploadCurrentId)
      && (forall id :: id in users.entries <==> 1 <= id < userCurrentId)
      && (forall id :: id in uploads.entries <==> 1 <= id < uploadCurrentId)
      && (forall id :: id in users.entries ==> users.entries[id].id == id)
      && (forall id :: id in uploads.entries ==>
            uploads.entries[id].id == id && AnalysisPaired(uploads.entries[id]))
    }

    constructor ()
      ensures Valid()
      ensures users == Empty() && uploads == Empty()
      ensures userCurrentId == 1 && uploadCurrentId == 1
    {
      users := Empty();
      uploads := Empty();
      userCurrentId := 1;
      uploadCurrentId := 1;
    }

    /** `getUser(id)`: the user stored under `id`, present exactly for the
        ids handed out so far. */
    method GetUser(id: int) returns (r: Option<User>)
      requires Valid()
      ensures r == Get(users, id)
      ensures r.Some? <==> 1 <= id < userCurrentId
      ensures r.Some? ==> r.value.id == id
    {
      r := Get(users, id);
    }

    /** `getUserByUsername(username)`: the earliest-created user with that
        name, or none. Usernames are not unique in this store. */
    method GetUserByUsername(username: string) returns (r: Option<User>)
      requires Valid()
      ensures r.None? <==> forall id :: 1 <= id < userCurrentId ==> users.entries[id].username != username
      ensures r.Some? ==> r.value.username == username && Get(users, r.value.id) == Some(r.value)
      ensures r.Some? ==> forall id :: 1 <= id < r.value.id ==> users.entries[id].username != username
    {
      var all := Values(users);
      var i := FirstWithUsername(all, username);
      r := if i < |all| then Some(all[i]) else None;
      if r.None? {
        forall id | 1 <= id < userCurrentId
          ensures users.entries[id].username != username
        {
          assert all[id - 1] == users.entries[id];
        }
      } else {
        assert r.value == users.entries[i + 1];
        forall id | 1 <= id < r.value.id
          ensures users.entries[id].username != username
        {
          assert all[id - 1] == users.entries[id];
        }
      }
    }

    /** `createUser(insert)`: takes the next user id; a username already in
        use is not rejected. */
    method CreateUser(insert: InsertUser) returns (user: User)
      requires Valid()
      modifies this
      ensures Valid()
      ensures user.id == old(userCurrentId) && Get(old(users), user.id) == None
      ensures user.username == insert.username && user.password == insert.password
      ensures userCurrentId == old(userCurrentId) + 1
      ensures users == Set(old(users), user.id, user)
      ensures uploads == old(uploads) && uploadCurrentId == old(uploadCurrentId)
    {
      var id := userCurrentId;
      userCurrentId := userCurrentId + 1;
      user := User(id, insert.username, insert.password);
      users := Set(users, id, user);
    }

    /** `createUpload(insert)`: takes the next upload id, which no record
        has, and stores a pending record (no verdict) that carries the
        inserted fields. `createdAt` is the creation time as an ISO string. */
    method CreateUpload(insert: InsertUpload, createdAt: string) returns (upload: Upload)
      requires Valid()
      modifies this
      ensures Valid()
      ensures upload.id == old(uploadCurrentId) && Get(old(uploads), upload.id) == None
      ensures CarriesInsert(upload, insert) && upload.createdAt == createdAt
      ensures upload.analysisResult == None && upload.analysisDetails == None
      ensures uploadCurrentId == old(uploadCurrentId) + 1
      ensures uploads == Set(old(uploads), upload.id, upload)
      ensures Get(uploads, upload.id) == Some(upload)
      ensures users == old(users) && userCurrentId == old(userCurrentId)
    {
      var id := uploadCurrentId;
      uploadCurrentId := uploadCurrentId + 1;
      upload := Upload(id, insert.filename, insert.originalname, insert.mimetype, insert.size,
                       insert.userId, None, None, createdAt);
      uploads := Set(uploads, id, upload);
    }

    /** `getUpload(id)`: the record stored under `id`, present exactly for
        the ids handed out so far. */
    method GetUpload(id: int) returns (r: Option<Upload>)
      requires Valid()
      ensures r == Get(uploads, id)
      ensures r.Some? <==> 1 <= id < uploadCurrentId
      ensures r.Some? ==> r.value.id == id && AnalysisPaired(r.value)
    {
      r := Get(uploads, id);
    }

    /** `updateUploadAnalysis(id, result, details)`: for a stored id, sets
        both analysis fields, leaves every other field and every other record
        as it was, and returns the new record; for an unknown id, returns
        nothing and creates nothing. */
    method UpdateUploadAnalysis(id: int, result: bool, details: string) returns (r: Option<Upload>)
      requires Valid()
      modifies this
      ensures Valid()
      ensures r.Some? <==> id in old(uploads.entries)
      ensures r.Some? ==>
        && SameMetadata(r.value, old(uploads.entries[id]))
        && r.value.analysisResult == Some(result) && r.value.analysisDetails == Some(details)
        && uploads == Set(old(uploads), id, r.value)
      ensures r.None? ==> uploads == old(uploads)
      ensures uploads.keys == old(uploads.keys)
      ensures forall k :: k != id ==> Get(uploads, k) == Get(old(uploads), k)
      ensures uploadCurrentId == old(uploadCurrentId)
      ensures users == old(users) && userCurrentId == old(userCurrentId)
    {
      var upload := Get(uploads, id);
      if upload.Some? {
        var updated := upload.value.(analysisResult := Some(result), analysisDetails := Some(details));
        uploads := Set(uploads, id, updated);
        assert uploads.entries == old(uploads.entries)[id := updated];
        assert AnalysisPaired(updated);
        r := Some(updated);
      } else {
        r := None;
      }
    }

    /** `getAllUploads()`: every record, in creation order, which is
        increasing id order: one per id handed out. */
    method GetAllUploads() returns (all: seq<Upload>)
      requires Valid()
      ensures |all| == uploadCurrentId - 1
      ensures forall i :: 0 <= i < |all| ==> all[i].id == i + 1 && Get(uploads, i + 1) == Some(all[i])
      ensures forall i :: 0 <= i < |all| ==> AnalysisPaired(all[i])
    {
      all := Values(uploads);
    }
  }
}
