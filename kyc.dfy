/** The KYC steps of src/controllers/user/kycController.js: personal
    details with the three-part PIN, identity and bank documents, and the
    address proof, all kept in the user's `kycData`, and the status view of
    them. A text field a step writes as `undefined` is unset; a file path is
    replaced only by a new upload. */
module Kyc {
  import opened Options
  import opened Records
  import Store
  import Uploads

  /** Where an uploaded KYC file is served from. */
  function KycPath(filename: string): string
  {
    Uploads.ServedUrl(Uploads.KycFolder, filename)
  }

  /** `getPath(field)`: the served path of a new upload of `field`, otherwise
      the value already stored. `files` maps each uploaded field to the name
      the file was stored under. */
  function FilePath(files: map<string, string>, field: string, current: Option<string>): (r: Option<string>)
    ensures field in files ==> r == Some(KycPath(files[field]))
    ensures field !in files ==> r == current
  {
    if field in files then Some(KycPath(files[field])) else current
  }

  /** What getKycStatus returns for a user: the `kycData` fields, with the
      profile's date of birth, country, state and PIN beside them. */
  datatype KycView = KycView(
    kyc: KycData,
    dob: Option<string>,
    country: Option<string>,
    state: Option<string>,
    ssnPin: Option<string>,
    kycStatus: KycStatus)

  function ProfileField(u: User, name: string): (r: Option<string>)
    ensures r.Some? <==> name in u.profile
    ensures r.Some? ==> r.value == u.profile[name]
  {
    if name in u.profile then Some(u.profile[name]) else None
  }

  /** getKycStatus: 404 for an unknown caller, otherwise 200 and the
      caller's KYC data and status beside the profile's date of birth,
      country, state and PIN. */
  function GetKycStatus(users: seq<User>, userId: Id): (r: (int, Option<KycView>))
    ensures Store.FindUser(users, userId).None? <==> r.0 == 404
    ensures r.0 == 404 || r.0 == 200
    ensures r.0 == 404 <==> r.1.None?
    ensures r.1.Some? ==>
      var u := users[Store.FindUser(users, userId).value];
      r.1.value.kyc == u.kycData && r.1.value.kycStatus == u.kycStatus &&
      r.1.value.dob == ProfileField(u, "dob") && r.1.value.country == ProfileField(u, "country") &&
      r.1.value.state == ProfileField(u, "state") && r.1.value.ssnPin == ProfileField(u, "ssnPin")
  {
    match Store.FindUser(users, userId)
    case None => (404, None)
    case Some(i) =>
      var u := users[i];
      (200, Some(KycView(u.kycData, ProfileField(u, "dob"), ProfileField(u, "country"), ProfileField(u, "state"),
                         ProfileField(u, "ssnPin"), u.kycStatus)))
  }

  /** `pin1 && pin2 && pin3 ? pin1 + pin2 + pin3 : undefined`. */
  function FullPin(pin1: Option<string>, pin2: Option<string>, pin3: Option<string>): (r: Option<string>)
    ensures r.Some? <==> pin1.Some? && pin1.value != "" && pin2.Some? && pin2.value != "" && pin3.Some? && pin3.value != ""
    ensures r.Some? ==> r.value == pin1.value + pin2.value + pin3.value && |r.value| >= 3
  {
    if pin1.Some? && pin1.value != "" && pin2.Some? && pin2.value != "" && pin3.Some? && pin3.value != ""
    then Some(pin1.value + pin2.value + pin3.value)
    else None
  }

  /** Setting a field only when a value is given: an update leaves out the
      fields that are `undefined`. */
  function PutIfGiven(m: map<string, string>, k: string, v: Option<string>): (r: map<string, string>)
    ensures v.Some? ==> k in r && r[k] == v.value
    ensures v.None? ==> r == m
    ensures forall k' :: k' != k ==> (k' in r <==> k' in m) && (k' in m ==> r[k'] == m[k'])
  {
    if v.Some? then m[k := v.value] else m
  }

  /** The profile after updatePersonalInfo: the given `dob`, `country` and
      `state`, and the PIN only when all three parts are given. */
  function PersonalInfo(profile: map<string, string>, dob: Option<string>, country: Option<string>, state: Option<string>,
                        pin1: Option<string>, pin2: Option<string>, pin3: Option<string>): (r: map<string, string>)
    ensures FullPin(pin1, pin2, pin3).Some? ==> "ssnPin" in r && r["ssnPin"] == FullPin(pin1, pin2, pin3).value
    ensures FullPin(pin1, pin2, pin3).None? ==>
      ("ssnPin" in r <==> "ssnPin" in profile) && ("ssnPin" in profile ==> r["ssnPin"] == profile["ssnPin"])
    ensures dob.Some? ==> "dob" in r && r["dob"] == dob.value
    ensures country.Some? ==> "country" in r && r["country"] == country.value
    ensures state.Some? ==> "state" in r && r["state"] == state.value
    ensures forall k :: k != "dob" && k != "country" && k != "state" && k != "ssnPin" ==>
      (k in r <==> k in profile) && (k in profile ==> r[k] == profile[k])
  {
    var m := PutIfGiven(profile, "dob", dob);
    var m := PutIfGiven(m, "country", country);
    var m := PutIfGiven(m, "state", state);
    PutIfGiven(m, "ssnPin", FullPin(pin1, pin2, pin3))
  }

  /** A PIN with a missing or empty part leaves the stored PIN as it was,
      whatever else the request changes. */
  lemma PartialPinKeepsStoredPin(profile: map<string, string>, dob: Option<string>, country: Option<string>,
                                 state: Option<string>, pin1: Option<string>, pin2: Option<string>)
    ensures var r := PersonalInfo(profile, dob, country, state, pin1, pin2, Some(""));
      ("ssnPin" in r <==> "ssnPin" in profile) && ("ssnPin" in profile ==> r["ssnPin"] == profile["ssnPin"])
    ensures var r := PersonalInfo(profile, dob, country, state, pin1, pin2, None);
      ("ssnPin" in r <==> "ssnPin" in profile) && ("ssnPin" in profile ==> r["ssnPin"] == profile["ssnPin"])
  {
  }

  /** updatePersonalInfo: the caller's profile is updated as `PersonalInfo`
      says; an unknown caller still gets 200, with no user and no write. */
  method UpdatePersonalInfo(db: Store.Db, userId: Id, dob: Option<string>, country: Option<string>, state: Option<string>,
                            pin1: Option<string>, pin2: Option<string>, pin3: Option<string>)
    returns (code: int, updated: Option<User>)
    modifies db`users
    ensures code == 200
    ensures Store.FindUser(old(db.users), userId).None? ==> updated.None? && db.users == old(db.users)
    ensures Store.FindUser(old(db.users), userId).Some? ==>
      var i := Store.FindUser(old(db.users), userId).value;
      var u := old(db.users)[i].(profile := PersonalInfo(old(db.users)[i].profile, dob, country, state, pin1, pin2, pin3));
      updated == Some(u) && db.users == old(db.users)[i := u]
  {
    var found := Store.FindUser(db.users, userId);
    if found.None? {
      return 200, None;
    }
    var u := db.users[found.value];
    u := u.(profile := PersonalInfo(u.profile, dob, country, state, pin1, pin2, pin3));
    db.users := db.users[found.value := u];
    code, updated := 200, Some(u);
  }

  /** The document step's body: the five text fields. */
  datatype DocumentsBody = DocumentsBody(
    documentType: Option<string>,
    bankAccount: Option<string>,
    bankName: Option<string>,
    ifscCode: Option<string>,
    idType: Option<string>)

  /** The `kycData` the document step stores: the body's five text fields
      (an omitted one unset), each of the seven files new or kept, the
      submission time, and the address fields as they were. */
  function AfterDocuments(kyc: KycData, body: DocumentsBody, files: map<string, string>, nowMs: int): (r: KycData)
    ensures r.documentType == body.documentType && r.bankAccount == body.bankAccount &&
            r.bankName == body.bankName && r.ifscCode == body.ifscCode && r.idType == body.idType
    ensures r.front == FilePath(files, "front", kyc.front) && r.back == FilePath(files, "back", kyc.back)
    ensures r.loa == FilePath(files, "loa", kyc.loa) && r.passbook == FilePath(files, "passbook", kyc.passbook)
    ensures r.idFront == FilePath(files, "idFront", kyc.idFront) && r.idBack == FilePath(files, "idBack", kyc.idBack)
    ensures r.selfie == FilePath(files, "selfie", kyc.selfie)
    ensures r.submittedAt == Some(nowMs)
    ensures r.addressState == kyc.addressState && r.addressCity == kyc.addressCity &&
            r.postalCode == kyc.postalCode && r.addressDocType == kyc.addressDocType &&
            r.addressProofFile == kyc.addressProofFile
  {
    kyc.(documentType := body.documentType, bankAccount := body.bankAccount, bankName := body.bankName,
         ifscCode := body.ifscCode, idType := body.idType,
         front := FilePath(files, "front", kyc.front), back := FilePath(files, "back", kyc.back),
         loa := FilePath(files, "loa", kyc.loa), passbook := FilePath(files, "passbook", kyc.passbook),
         idFront := FilePath(files, "idFront", kyc.idFront), idBack := FilePath(files, "idBack", kyc.idBack),
         selfie := FilePath(files, "selfie", kyc.selfie),
         submittedAt := Some(nowMs))
  }

  /** Resubmitting the same details without new files changes nothing but
      the submission time. */
  lemma ResubmissionKeepsFiles(kyc: KycData, body: DocumentsBody, files: map<string, string>, nowMs: int, laterMs: int)
    ensures var once := AfterDocuments(kyc, body, files, nowMs);
      AfterDocuments(once, body, map[], laterMs) == once.(submittedAt := Some(laterMs))
  {
  }

  /** submitKycDocuments: 404 for an unknown caller, nothing written;
      otherwise `kycData` becomes `AfterDocuments` and the status Pending. */
  method SubmitKycDocuments(db: Store.Db, userId: Id, body: DocumentsBody, files: map<string, string>, nowMs: int)
    returns (code: int)
    modifies db`users
    ensures Store.FindUser(old(db.users), userId).None? ==> code == 404 && db.users == old(db.users)
    ensures Store.FindUser(old(db.users), userId).Some? ==>
      var i := Store.FindUser(old(db.users), userId).value;
      code == 200 &&
      db.users == old(db.users)[i := old(db.users)[i].(kycData := AfterDocuments(old(db.users)[i].kycData, body, files, nowMs),
                                                       kycStatus := KycPending)]
  {
    var found := Store.FindUser(db.users, userId);
    if found.None? {
      return 404;
    }
    var user := db.users[found.value];
    user := user.(kycData := AfterDocuments(user.kycData, body, files, nowMs), kycStatus := KycPending);
    db.users := db.users[found.value := user];
    code := 200;
  }

  /** The address step's body. */
  datatype AddressBody = AddressBody(state: Option<string>, city: Option<string>, postalCode: Option<string>, docType: Option<string>)

  /** The `kycData` the address step stores: the four address fields always
      written (an omitted one unset), the proof file replaced only by a new
      upload, everything else as it was (the submission time included). */
  function AfterAddress(kyc: KycData, body: AddressBody, file: Option<string>): (r: KycData)
    ensures r.addressState == body.state && r.addressCity == body.city &&
            r.postalCode == body.postalCode && r.addressDocType == body.docType
    ensures file.Some? ==> r.addressProofFile == Some(KycPath(file.value))
    ensures file.None? ==> r.addressProofFile == kyc.addressProofFile
    ensures r.(addressState := kyc.addressState, addressCity := kyc.addressCity, postalCode := kyc.postalCode,
               addressDocType := kyc.addressDocType, addressProofFile := kyc.addressProofFile) == kyc
  {
    var r := kyc.(addressState := body.state, addressCity := body.city, postalCode := body.postalCode,
                  addressDocType := body.docType);
    if file.Some? then r.(addressProofFile := Some(KycPath(file.value))) else r
  }

  /** submitAddressProof: 404 for an unknown caller, nothing written;
      otherwise `kycData` becomes `AfterAddress` and the status Pending. */
  method SubmitAddressProof(db: Store.Db, userId: Id, body: AddressBody, file: Option<string>)
    returns (code: int)
    modifies db`users
    ensures Store.FindUser(old(db.users), userId).None? ==> code == 404 && db.users == old(db.users)
    ensures Store.FindUser(old(db.users), userId).Some? ==>
      var i := Store.FindUser(old(db.users), userId).value;
      code == 200 &&
      db.users == old(db.users)[i := old(db.users)[i].(kycData := AfterAddress(old(db.users)[i].kycData, body, file),
                                                       kycStatus := KycPending)]
  {
    var found := Store.FindUser(db.users, userId);
    if found.None? {
      return 404;
    }
    var user := db.users[found.value];
    user := user.(kycData := AfterAddress(user.kycData, body, file), kycStatus := KycPending);
    db.users := db.users[found.value := user];
    code := 200;
  }

  /** The two submission steps write disjoint fields, so they commute: an
      address proof and a document submission give the same `kycData` in
      either order. */
  lemma StepsCommute(kyc: KycData, docs: DocumentsBody, files: map<string, string>, nowMs: int,
                     address: AddressBody, file: Option<string>)
    ensures AfterAddress(AfterDocuments(kyc, docs, files, nowMs), address, file) ==
            AfterDocuments(AfterAddress(kyc, address, file), docs, files, nowMs)
  {
  }
}
