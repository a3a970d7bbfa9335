/** The disk storage and file filter of src/middlewares/uploadMiddleware.js:
    which folder under `uploads/` a file goes to, the name it is stored
    under, and which MIME types are let through. The clock and
    `Math.random()` are parameters. */
module Uploads {
  import JsNum
  import JsText

  datatype Folder = KycFolder | Avatars | Signatures | DocumentsFolder

  /** The folder's name under `uploads/`. */
  function FolderName(f: Folder): string
  {
    match f
    case KycFolder => "kyc"
    case Avatars => "avatars"
    case Signatures => "signatures"
    case DocumentsFolder => "documents"
  }

  /** The URL a stored file is served under: its folder below `/uploads`. */
  function ServedUrl(f: Folder, filename: string): string
  {
    "/uploads/" + FolderName(f) + "/" + filename
  }

  /** The form fields whose files are KYC documents. */
  const KycUploadFields: seq<string> := ["front", "back", "loa", "passbook", "idFront", "idBack", "addressProof", "selfie"]

  /** A field the folder choice recognises by its name. */
  predicate NamedField(fieldname: string)
  {
    fieldname in KycUploadFields || fieldname == "avatar" || fieldname == "document" || fieldname == "signature"
  }

  /** The folder a request URL points at, for a field not recognised by
      name. */
  function UrlFolder(url: string): (r: Folder)
    ensures JsText.Contains(url, "signatures") ==> r == Signatures
    ensures !JsText.Contains(url, "signatures") && JsText.Contains(url, "kyc") ==> r == KycFolder
    ensures r == DocumentsFolder <==>
      !JsText.Contains(url, "signatures") && !JsText.Contains(url, "kyc") &&
      !JsText.Contains(url, "auth") && !JsText.Contains(url, "profile")
  {
    if JsText.Contains(url, "signatures") then Signatures
    else if JsText.Contains(url, "kyc") then KycFolder
    else if JsText.Contains(url, "auth") || JsText.Contains(url, "profile") then Avatars
    else DocumentsFolder
  }

  /** `destination`: the field name decides first (KYC fields, the avatar,
      signature documents), the request URL only for other fields. */
  function Destination(fieldname: string, url: string): (r: Folder)
    ensures fieldname in KycUploadFields ==> r == KycFolder
    ensures fieldname == "avatar" ==> r == Avatars
    ensures fieldname == "document" || fieldname == "signature" ==> r == Signatures
    ensures !NamedField(fieldname) ==> r == UrlFolder(url)
  {
    if fieldname in KycUploadFields then KycFolder
    else if fieldname == "avatar" then Avatars
    else if fieldname == "document" || fieldname == "signature" then Signatures
    else UrlFolder(url)
  }

  /** A field recognised by name lands in the same folder whatever URL it
      was posted to. */
  lemma FieldNameTakesPrecedence(fieldname: string, url1: string, url2: string)
    requires NamedField(fieldname)
    ensures Destination(fieldname, url1) == Destination(fieldname, url2)
  {
  }

  /** The fallback folder is used only when no rule matches. */
  lemma DocumentsOnlyAsFallback(fieldname: string, url: string)
    ensures Destination(fieldname, url) == DocumentsFolder <==>
      !NamedField(fieldname) && !JsText.Contains(url, "signatures") && !JsText.Contains(url, "kyc") &&
      !JsText.Contains(url, "auth") && !JsText.Contains(url, "profile")
  {
  }

  /** The filename prefix: "SIG" for signature documents or a signatures
      URL, otherwise the field name in upper case. */
  function Prefix(fieldname: string, url: string): (r: string)
    ensures fieldname == "document" || fieldname == "signature" || JsText.Contains(url, "signatures") ==> r == "SIG"
    ensures !(fieldname == "document" || fieldname == "signature" || JsText.Contains(url, "signatures")) ==>
      r == JsText.Upper(fieldname)
  {
    if fieldname == "document" || fieldname == "signature" || JsText.Contains(url, "signatures") then "SIG"
    else JsText.Upper(fieldname)
  }

  /** Every file stored in the signatures folder is named with the SIG
      prefix. */
  lemma SignaturesFolderMeansSigPrefix(fieldname: string, url: string)
    requires Destination(fieldname, url) == Signatures
    ensures Prefix(fieldname, url) == "SIG"
  {
  }

  /** The converse does not hold: a KYC field posted to a signatures URL is
      stored in the KYC folder, yet named with the SIG prefix. */
  lemma SigPrefixOutsideSignaturesFolder()
    ensures Destination("front", "signatures") == KycFolder
    ensures Prefix("front", "signatures") == "SIG"
  {
    assert JsText.StartsWith("signatures", "signatures");
  }

  /** `Math.round(Math.random() * 1e9)` for a draw `rand` of
      `Math.random()`, which lies in [0, 1). */
  function RandomSuffix(rand: real): (n: nat)
    requires 0.0 <= rand < 1.0
    ensures n <= 1000000000
  {
    var k := JsNum.Round(rand * 1000000000.0);
    assert 0.0 <= rand * 1000000000.0 < 1000000000.0;
    k
  }

  /** `filename`: prefix, clock, random suffix and the original name's
      extension in lower case, as `SIG-1700000000000-123456789.png`. */
  function StoredName(fieldname: string, url: string, nowMs: nat, rand: real, originalname: string): (r: string)
    requires 0.0 <= rand < 1.0
    ensures var p := Prefix(fieldname, url);
      |p| < |r| && r[..|p|] == p && r[|p|] == '-'
    ensures var ext := JsText.ExtName(originalname);
      |ext| <= |r| && r[|r| - |ext|..] == JsText.Lower(ext)
    ensures forall i :: |r| - |JsText.ExtName(originalname)| <= i < |r| ==> !JsText.IsUpperAscii(r[i])
    ensures r == Prefix(fieldname, url) + "-" + JsText.NatToString(nowMs) + "-" +
                 JsText.NatToString(RandomSuffix(rand)) + JsText.Lower(JsText.ExtName(originalname))
  {
    var p := Prefix(fieldname, url);
    var ext := JsText.Lower(JsText.ExtName(originalname));
    var r := p + "-" + JsText.NatToString(nowMs) + "-" + JsText.NatToString(RandomSuffix(rand)) + ext;
    assert r[..|p|] == p;
    assert r[|r| - |ext|..] == ext;
    r
  }

  /** The MIME types the filter lets through: PDF, JPEG, PNG and Word. */
  const AllowedTypes: seq<string> := [
    "application/pdf",
    "image/jpeg",
    "image/jpg",
    "image/png",
    "application/msword",
    "application/vnd.openxmlformats-officedocument.wordprocessingml.document"]

  /** `fileFilter`. */
  predicate Accepted(mimetype: string)
  {
    mimetype in AllowedTypes
  }

  /** The `fileSize` limit: 50 MB. */
  const MaxFileSize: nat := 50 * 1024 * 1024

  /** What multer does with one incoming file: refuse its type, abort it
      for its size, or store it in a folder under a name. */
  datatype Outcome = Refused | TooLarge | Stored(folder: Folder, filename: string)

  /** One file of `size` bytes through the filter, the size limit and then
      the disk storage. */
  function Receive(fieldname: string, url: string, mimetype: string, originalname: string, size: nat,
                   nowMs: nat, rand: real): (r: Outcome)
    requires 0.0 <= rand < 1.0
    ensures r.Refused? <==> !Accepted(mimetype)
    ensures r.TooLarge? <==> Accepted(mimetype) && size > MaxFileSize
    ensures r.Stored? <==> Accepted(mimetype) && size <= MaxFileSize
    ensures r.Stored? ==> r.folder == Destination(fieldname, url) &&
                          r.filename == StoredName(fieldname, url, nowMs, rand, originalname)
  {
    if !Accepted(mimetype) then Refused
    else if size > MaxFileSize then TooLarge
    else Stored(Destination(fieldname, url), StoredName(fieldname, url, nowMs, rand, originalname))
  }

  /** Every accepted type has one of five lengths, and the only one of
      nine characters is "image/jpg". */
  lemma AcceptedShape(mimetype: string)
    requires Accepted(mimetype)
    ensures |mimetype| in {9, 10, 15, 18, 71}
    ensures |mimetype| == 9 ==> mimetype[0] == 'i'
  {
    var i :| 0 <= i < |AllowedTypes| && AllowedTypes[i] == mimetype;
    if i == 2 {
      assert "image/jpg"[0] == 'i';
    }
  }

  /** Scripts and markup are refused, whatever field, URL or size they come
      with. */
  lemma ScriptsRefused(fieldname: string, url: string, originalname: string, size: nat, nowMs: nat, rand: real)
    requires 0.0 <= rand < 1.0
    ensures Receive(fieldname, url, "text/html", originalname, size, nowMs, rand) == Refused
    ensures Receive(fieldname, url, "application/javascript", originalname, size, nowMs, rand) == Refused
    ensures Receive(fieldname, url, "image/svg+xml", originalname, size, nowMs, rand) == Refused
  {
    if Accepted("text/html") {
      AcceptedShape("text/html");
    }
    if Accepted("application/javascript") {
      AcceptedShape("application/javascript");
    }
    if Accepted("image/svg+xml") {
      AcceptedShape("image/svg+xml");
    }
  }
}
