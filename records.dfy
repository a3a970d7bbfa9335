/** The records other than loans and transactions that the handlers read and
    write: users (src/models/User.js), student applications
    (src/models/student.model.js), funds (src/models/fund.model.js) and the
    per-user signature documents (src/models/UserDocuments.js). Only the
    fields some handler reads or writes are kept. */
module Records {
  import opened Options

  type Id = string

  datatype KycStatus = KycPending | KycVerified | KycRejected

  /** The nested `kycData` object: the bank and identity details, the
      address proof, the served paths of the uploaded files and the time of
      the last document submission in milliseconds. A field that is not set
      is None. */
  datatype KycData = KycData(
    documentType: Option<string>,
    bankAccount: Option<string>,
    bankName: Option<string>,
    ifscCode: Option<string>,
    idType: Option<string>,
    addressState: Option<string>,
    addressCity: Option<string>,
    postalCode: Option<string>,
    addressDocType: Option<string>,
    addressProofFile: Option<string>,
    front: Option<string>,
    back: Option<string>,
    loa: Option<string>,
    passbook: Option<string>,
    idFront: Option<string>,
    idBack: Option<string>,
    selfie: Option<string>,
    submittedAt: Option<int>)

  /** `kycData` of a new user: only `submittedAt`, which defaults to the
      creation time. */
  function NewKycData(nowMs: int): (k: KycData)
    ensures k.submittedAt == Some(nowMs) && k.front.None? && k.documentType.None? && k.addressProofFile.None?
  {
    KycData(None, None, None, None, None, None, None, None, None, None, None, None, None, None, None, None, None, Some(nowMs))
  }

  /** A user account. `profile` holds the top-level text fields by their
      schema name ("fullName", "phone", "dob", "country", "state",
      "address", "education", "gender", "maritalStatus", "ssnPin", ...); a
      field that is not set has no key. OTP expiry is in milliseconds. */
  datatype User = User(
    key: Id,
    email: string,
    password: string,
    role: string,
    profile: map<string, string>,
    otpCode: Option<string>,
    otpExpires: Option<int>,
    isPhoneVerified: bool,
    kycData: KycData,
    kycStatus: KycStatus,
    referredStudents: seq<Id>)

  /** The values the `role` enum of the user schema admits. */
  predicate IsUserRole(role: string)
  {
    role == "Super Admin" || role == "Admin" || role == "Editor" || role == "User"
  }

  /** `password` has `minlength: 6`. */
  const MinPasswordLength: nat := 6

  /** A student application record. `status` and `loan` are kept as text:
      the partner views overwrite them with loan statuses. */
  datatype Student = Student(
    key: Id,
    userId: Option<Id>,
    referredBy: Option<Id>,
    name: string,
    email: string,
    phone: string,
    requestedAmount: real,
    status: string,
    kycStatus: KycStatus,
    loan: string)

  /** A fund document as it reaches the store. */
  datatype Fund = Fund(source: Option<string>, amount: real, status: string)

  /** The fund schema: `source` is required (a non-empty string) and the
      status is one of Available, Disbursed, Reserved. */
  predicate FundSchemaValid(f: Fund)
  {
    f.source.Some? && f.source.value != "" &&
    (f.status == "Available" || f.status == "Disbursed" || f.status == "Reserved")
  }

  datatype DocStatus = SignNow | Uploaded | DocPending | DocVerified | DocRejected

  /** One signature-document slot. `uploadedAt` is in milliseconds. */
  datatype DocSlot = DocSlot(
    name: string,
    status: DocStatus,
    fileUrl: Option<string>,
    fileType: Option<string>,
    uploadedAt: int)

  /** The signature documents of one user. */
  datatype UserDocs = UserDocs(userId: Id, documents: seq<DocSlot>)
}
