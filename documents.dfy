/** The signature documents of src/controllers/user/documentController.js:
    each user has one record of numbered slots (src/models/UserDocuments.js);
    the listing shows a legacy "Pending" slot as "Sign Now", and an upload
    fills one slot, creating the six default slots on a first upload. */
module Documents {
  import opened Options
  import opened Records
  import JsText
  import Kyc
  import Store

  /** The six slots a first upload starts from, in their order. */
  const SlotNames: seq<string> := [
    "Loan Application Agreement",
    "KYC Declaration Form",
    "Consent for Credit Check (Canada)",
    "POF Verification Declaration",
    "Tuition Fee Guarantee Agreement",
    "Recruitment Partner Consent Form"]

  /** A new record's slots: all "Sign Now", no file, stamped with the
      record's creation time. */
  function DefaultSlots(nowMs: int): (r: seq<DocSlot>)
    ensures |r| == 6
    ensures forall j :: 0 <= j < 6 ==> r[j] == DocSlot(SlotNames[j], SignNow, None, None, nowMs)
  {
    seq(6, j requires 0 <= j < 6 => DocSlot(SlotNames[j], SignNow, None, None, nowMs))
  }

  /** A legacy Pending status is shown and saved as "Sign Now". */
  function ShownStatus(s: DocStatus): (r: DocStatus)
    ensures r != DocPending
    ensures s != DocPending ==> r == s
  {
    if s == DocPending then SignNow else s
  }

  /** The slots with every Pending status replaced by "Sign Now" and nothing
      else changed. */
  function Normalised(docs: seq<DocSlot>): (r: seq<DocSlot>)
    ensures |r| == |docs|
    ensures forall j :: 0 <= j < |r| ==> r[j] == docs[j].(status := ShownStatus(docs[j].status))
  {
    seq(|docs|, j requires 0 <= j < |docs| => docs[j].(status := ShownStatus(docs[j].status)))
  }

  /** Normalising twice is normalising once, and leaves no Pending slot. */
  lemma NormalisedIsIdempotent(docs: seq<DocSlot>)
    ensures Normalised(Normalised(docs)) == Normalised(docs)
    ensures forall j :: 0 <= j < |docs| ==> Normalised(docs)[j].status != DocPending
  {
  }

  /** `UserDocuments.findOne({ userId })`: the first record of the user. */
  function FindUserDocs(records: seq<UserDocs>, userId: Id): (r: Option<nat>)
    ensures r.Some? ==> r.value < |records| && records[r.value].userId == userId
    ensures r.Some? ==> forall j :: 0 <= j < r.value ==> records[j].userId != userId
    ensures r.None? ==> forall j :: 0 <= j < |records| ==> records[j].userId != userId
  {
    if |records| == 0 then None
    else if records[0].userId == userId then Some(0)
    else match FindUserDocs(records[1..], userId)
      case None => None
      case Some(k) => Some(k + 1)
  }

  /** getUserDocuments: the caller's slots as shown, or none without a
      record. */
  function GetUserDocuments(records: seq<UserDocs>, userId: Id): (r: seq<DocSlot>)
    ensures FindUserDocs(records, userId).None? ==> r == []
    ensures FindUserDocs(records, userId).Some? ==>
      r == Normalised(records[FindUserDocs(records, userId).value].documents)
  {
    match FindUserDocs(records, userId)
    case None => []
    case Some(i) => Normalised(records[i].documents)
  }

  /** `parseInt(docId) - 1`, None for NaN. */
  function SlotIndex(docId: string): (r: Option<int>)
    ensures r.Some? <==> JsText.ParseInt(docId).Some?
    ensures r.Some? ==> r.value == JsText.ParseInt(docId).value - 1
  {
    match JsText.ParseInt(docId)
    case None => None
    case Some(n) => Some(n - 1)
  }

  /** The slot numbered `k` by the client is index `k - 1`. */
  lemma SlotOfNumber(k: nat)
    ensures SlotIndex(JsText.NatToString(k)) == Some(k - 1)
  {
    var t := JsText.NatToString(k);
    assert JsText.IntToString(k) + "" == t;
    JsText.ParseIntOfIntToString(k, "");
    assert JsText.ParseInt(t) == Some(k as int);
  }

  /** The file multer stored: its name on disk and its MIME type. */
  datatype StoredFile = StoredFile(filename: string, mimetype: string)

  /** The slot after the upload of `file` into it. */
  function FilledSlot(d: DocSlot, file: StoredFile, nowMs: int): (r: DocSlot)
    ensures r.name == d.name && r.status == Uploaded && r.uploadedAt == nowMs
    ensures r.fileUrl == Some(Kyc.KycPath(file.filename)) && r.fileType == Some(file.mimetype)
  {
    d.(status := Uploaded, fileUrl := Some(Kyc.KycPath(file.filename)), fileType := Some(file.mimetype),
       uploadedAt := nowMs)
  }

  /** The slots saved by an upload into slot `i`: all normalised, slot `i`
      filled. */
  function AfterUpload(docs: seq<DocSlot>, i: nat, file: StoredFile, nowMs: int): (r: seq<DocSlot>)
    requires i < |docs|
    ensures |r| == |docs| && r[i] == FilledSlot(docs[i], file, nowMs)
    ensures forall j :: 0 <= j < |r| && j != i ==>
      r[j] == docs[j].(status := ShownStatus(docs[j].status))
  {
    Normalised(docs)[i := FilledSlot(docs[i], file, nowMs)]
  }

  /** An upload leaves the other slots' names and files alone, and what the
      listing then shows for the filled slot is Uploaded with the new file. */
  lemma UploadTouchesOnlyItsSlot(docs: seq<DocSlot>, i: nat, file: StoredFile, nowMs: int)
    requires i < |docs|
    ensures forall j :: 0 <= j < |docs| && j != i ==>
      AfterUpload(docs, i, file, nowMs)[j].name == docs[j].name &&
      AfterUpload(docs, i, file, nowMs)[j].fileUrl == docs[j].fileUrl &&
      AfterUpload(docs, i, file, nowMs)[j].fileType == docs[j].fileType
    ensures Normalised(AfterUpload(docs, i, file, nowMs))[i].status == Uploaded
    ensures Normalised(AfterUpload(docs, i, file, nowMs))[i].fileUrl == Some(Kyc.KycPath(file.filename))
  {
  }

  /** The slots a valid upload saves: the user's record, or the six default
      slots on a first upload. */
  function BaseSlots(records: seq<UserDocs>, userId: Id, nowMs: int): seq<DocSlot>
  {
    match FindUserDocs(records, userId)
    case None => DefaultSlots(nowMs)
    case Some(r) => records[r].documents
  }

  /** The `forEach` that turns every Pending status into "Sign Now", in
      place. */
  method NormalisePending(a: array<DocSlot>)
    modifies a
    ensures a[..] == Normalised(old(a[..]))
  {
    var k := 0;
    while k < a.Length
      invariant 0 <= k <= a.Length
      invariant a[..k] == Normalised(old(a[..]))[..k]
      invariant a[k..] == old(a[k..])
    {
      if a[k].status == DocPending {
        a[k] := a[k].(status := SignNow);
      }
      k := k + 1;
    }
  }

  /** uploadDocument: 400 without a file; 404 when `docId - 1` is not a
      slot of the record (or of the default slots), saving nothing;
      otherwise the record is saved with the slots of `AfterUpload`, a new
      record appended on a first upload. */
  method UploadDocument(db: Store.Db, userId: Id, docId: string, file: Option<StoredFile>, nowMs: int)
    returns (code: int)
    modifies db`userDocs
    ensures file.None? ==> code == 400 && db.userDocs == old(db.userDocs)
    ensures file.Some? ==>
      var base := BaseSlots(old(db.userDocs), userId, nowMs);
      var idx := SlotIndex(docId);
      if idx.None? || idx.value < 0 || idx.value >= |base| then
        code == 404 && db.userDocs == old(db.userDocs)
      else
        var saved := UserDocs(userId, AfterUpload(base, idx.value, file.value, nowMs));
        code == 200 &&
        match FindUserDocs(old(db.userDocs), userId)
        case None => db.userDocs == old(db.userDocs) + [saved]
        case Some(r) => db.userDocs == old(db.userDocs)[r := saved]
  {
    if file.None? {
      return 400;
    }
    var found := FindUserDocs(db.userDocs, userId);
    var docs := if found.Some? then db.userDocs[found.value].documents else DefaultSlots(nowMs);
    var idx := SlotIndex(docId);
    if idx.None? || idx.value < 0 || idx.value >= |docs| {
      return 404;
    }
    var i := idx.value;
    var a := new DocSlot[|docs|](j requires 0 <= j < |docs| => docs[j]);
    assert a[..] == docs;
    NormalisePending(a);
    a[i] := FilledSlot(a[i], file.value, nowMs);
    var saved := UserDocs(userId, a[..]);
    assert saved.documents == AfterUpload(docs, i, file.value, nowMs);
    if found.Some? {
      db.userDocs := db.userDocs[found.value := saved];
    } else {
      db.userDocs := db.userDocs + [saved];
    }
    code := 200;
  }
}
