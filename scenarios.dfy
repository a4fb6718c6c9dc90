/** Request sequences against a fresh store, checked against the contracts
    of the routes and the store alone. */
module Scenarios {
  import opened Wrappers
  import opened Schema
  import opened JsNumbers
  import opened Storage
  import opened Routes
  import JsMaps

  /** A 2 KB PNG becomes upload 1, pending; analyzing it stores the verdict
      the reply reports. */
  method UploadThenAnalyze() {
    var store := new MemStorage();
    var png := FilePart("image", "test.png", "image/png", 2048);
    assert StartsWith("image/png", "image/");
    var up := PostUpload(store, Some(png), 1741000000000, 0.25, ".png", "2025-03-03T10:00:00.000Z");
    assert up.Created? && up.uploadId == 1;
    var record := store.GetUpload(1);
    assert record.Some? && record.value.analysisResult.None? && record.value.analysisDetails.None?;

    ParseIntOne();
    var reply := PostAnalyze(store, "1", 0.75, "2025-03-03T10:00:05.000Z");
    assert reply.Analyzed? && reply.uploadId == 1 && reply.isAlert;
    assert reply.details == FloodAlertDetails && reply.filename == up.filename;
    record := store.GetUpload(1);
    assert record.value.analysisResult == Some(true);
    assert record.value.analysisDetails == Some(FloodAlertDetails);
  }

  /** Analyzing an analyzed upload again overwrites its verdict; ids keep
      counting up and every upload is listed in creation order. */
  method AnalyzeTwice() {
    var store := new MemStorage();
    var insert := InsertUpload("image-1-2.png", "a.png", "image/png", 10, None);
    var first := store.CreateUpload(insert, "2025-03-03T10:00:00.000Z");
    ParseIntOne();
    var verdict := PostAnalyze(store, "1", 0.75, "2025-03-03T10:00:01.000Z");
    var again := PostAnalyze(store, "1", 0.25, "2025-03-03T10:00:02.000Z");
    assert again.Analyzed? && !again.isAlert && again.details == NormalConditionsDetails;
    var record := store.GetUpload(1);
    assert record.value.analysisResult == Some(false);
    var second := store.CreateUpload(insert, "2025-03-03T10:00:03.000Z");
    assert second.id == 2;
    var all := store.GetAllUploads();
    assert |all| == 2 && all[0].id == 1 && all[1].id == 2;
  }

  lemma ParseIntOne()
    ensures ParseInt("1") == Some(1)
  {
    assert DecimalString(1) == "1";
    ParseIntReadsDecimal("", "", 1, "");
    assert "" + "" + "1" + "" == "1";
  }

  lemma ParseInt999()
    ensures ParseInt("999") == Some(999)
  {
    assert DecimalString(999) == "999" by {
      assert DecimalString(99) == "99" by {
        assert DecimalString(9) == "9";
      }
    }
    ParseIntRoundTrip(999);
  }

  /** On an empty store, "999" and "-3" are ids with no record (404) and
      "abc" is not a number (400); none of them creates a record. */
  method AnalyzeUnknownIds() {
    var store := new MemStorage();
    ParseInt999();
    ParseIntNegative();
    ParseIntNaNLetters();
    var missing := PostAnalyze(store, "999", 0.9, "2025-03-03T10:00:00.000Z");
    assert missing == UploadNotFound && missing.Status() == 404;
    var negative := PostAnalyze(store, "-3", 0.9, "2025-03-03T10:00:01.000Z");
    assert negative == UploadNotFound && negative.Status() == 404;
    var garbage := PostAnalyze(store, "abc", 0.9, "2025-03-03T10:00:02.000Z");
    assert garbage == InvalidUploadId && garbage.Status() == 400;
    var all := store.GetAllUploads();
    assert |all| == 0;
  }

  /** A file input left blank arrives as a part with an empty file name;
      multer skips it, so the handler answers 400 whatever its type, and
      nothing is stored. */
  method BlankFileInput() {
    var store := new MemStorage();
    var blank := FilePart("image", "", "application/octet-stream", 0);
    var r1 := PostUpload(store, Some(blank), 1, 0.1, "", "t1");
    assert r1 == NoFileUploaded && r1.Status() == Some(400);
    var unnamed := FilePart("image", "", "image/png", 10);
    var r2 := PostUpload(store, Some(unnamed), 2, 0.2, "", "t2");
    assert r2 == NoFileUploaded;
    var all := store.GetAllUploads();
    assert |all| == 0;
  }

  /** A text file, an oversize image and an image under another field are
      refused by the middleware; a request with no file is a 400; none of
      them creates a record. An image of exactly 10 MiB is accepted. */
  method RejectedFiles() {
    var store := new MemStorage();
    var text := FilePart("image", "notes.txt", "text/plain", 100);
    assert !StartsWith("text/plain", "image/") by {
      assert "text/plain"[..6][0] != "image/"[0];
    }
    var r1 := PostUpload(store, Some(text), 1, 0.1, ".txt", "t1");
    assert r1 == IntakeFailed(FilterRejected("Only image files are allowed"));

    var huge := FilePart("image", "big.jpg", "image/jpeg", 10485761);
    assert StartsWith("image/jpeg", "image/");
    var r2 := PostUpload(store, Some(huge), 2, 0.2, ".jpg", "t2");
    assert r2 == IntakeFailed(FileTooLarge);

    var elsewhere := FilePart("photo", "a.png", "image/png", 10);
    var r3 := PostUpload(store, Some(elsewhere), 3, 0.3, ".png", "t3");
    assert r3 == IntakeFailed(UnexpectedField("photo"));

    var r4 := PostUpload(store, None, 4, 0.4, "", "t4");
    assert r4 == NoFileUploaded && r4.Status() == Some(400);

    var all := store.GetAllUploads();
    assert |all| == 0;

    var limit := FilePart("image", "edge.jpg", "image/jpeg", 10485760);
    var r5 := PostUpload(store, Some(limit), 5, 0.5, ".jpg", "t5");
    assert r5.Created? && r5.uploadId == 1 && r5.Status() == Some(201);
  }

  /** The store accepts a second user with a name already taken; looking
      the name up finds the first one. */
  method DuplicateUsernames() {
    var store := new MemStorage();
    var alice := store.CreateUser(InsertUser("alice", "pw1"));
    var other := store.CreateUser(InsertUser("alice", "pw2"));
    assert alice.id == 1 && other.id == 2;
    assert JsMaps.Get(store.users, 1) == Some(alice);
    assert store.users.entries[1].username == "alice";
    var found := store.GetUserByUsername("alice");
    assert found.Some? && found.value.id == 1 && found.value.password == "pw1";
    var nobody := store.GetUserByUsername("bob");
    assert nobody.None?;
  }
}
