/** The recruitment partner's views and the one write of
    src/controllers/recruitment/authController.js: the pool of unlinked
    students, linking a student to the calling partner, the partner's
    students merged with their loans, the partner's statistics, and the
    access check and status filter on a student's signed documents. */
module Partners {
  import opened Options
  import opened Records
  import LoanModel
  import Seqs
  import Store

  /** No partner has claimed the student (`referredBy` absent or null). */
  function Unlinked(): Student -> bool
  {
    (s: Student) => s.referredBy.None?
  }

  /** The student is on this partner's panel. */
  function ReferredBy(partnerId: Id): Student -> bool
  {
    (s: Student) => s.referredBy == Some(partnerId)
  }

  /** getAvailableStudents: the students no partner has claimed. */
  function AvailableStudents(students: seq<Student>): (r: seq<Student>)
    ensures forall j :: 0 <= j < |r| ==> r[j].referredBy.None? && r[j] in students
    ensures forall j :: 0 <= j < |students| && students[j].referredBy.None? ==> students[j] in r
  {
    Seqs.Filter(students, Unlinked())
  }

  /** `Student.find({ referredBy: partnerId })`. */
  function Referred(students: seq<Student>, partnerId: Id): (r: seq<Student>)
    ensures forall j :: 0 <= j < |r| ==> r[j].referredBy == Some(partnerId) && r[j] in students
    ensures forall j :: 0 <= j < |students| && students[j].referredBy == Some(partnerId) ==> students[j] in r
  {
    Seqs.Filter(students, ReferredBy(partnerId))
  }

  /** `$addToSet`: the id is added once, at the end, when it is not there. */
  function AddToSet(ids: seq<Id>, x: Id): (r: seq<Id>)
    ensures x in r
    ensures forall y :: y in r <==> y in ids || y == x
    ensures x in ids ==> r == ids
    ensures x !in ids ==> r == ids + [x]
  {
    if x in ids then ids else ids + [x]
  }

  /** A sequence without repeated ids stays so under `AddToSet`. */
  lemma AddToSetKeepsDistinct(ids: seq<Id>, x: Id)
    requires forall i, j :: 0 <= i < j < |ids| ==> ids[i] != ids[j]
    ensures var r := AddToSet(ids, x); forall i, j :: 0 <= i < j < |r| ==> r[i] != r[j]
  {
    var r := AddToSet(ids, x);
    if x !in ids {
      forall i, j | 0 <= i < j < |r| ensures r[i] != r[j] {
        if j == |ids| {
          assert r[i] == ids[i];
        }
      }
    }
  }

  /** The students after `findByIdAndUpdate(studentId, { referredBy })`. */
  function Linked(students: seq<Student>, i: nat, partnerId: Id): (r: seq<Student>)
    requires i < |students|
    ensures |r| == |students| && r[i].referredBy == Some(partnerId)
    ensures r[i].(referredBy := students[i].referredBy) == students[i]
    ensures forall j :: 0 <= j < |r| && j != i ==> r[j] == students[j]
  {
    students[i := students[i].(referredBy := Some(partnerId))]
  }

  /** Linking does not check for an existing partner: a student on another
      partner's panel is moved to the caller's, and in any case leaves the
      pool of available students. */
  lemma LinkingMovesStudent(students: seq<Student>, i: nat, partnerId: Id, otherPartner: Id)
    requires i < |students| && otherPartner != partnerId
    requires forall j, k :: 0 <= j < k < |students| ==> students[j] != students[k]
    ensures Linked(students, i, partnerId)[i] in Referred(Linked(students, i, partnerId), partnerId)
    ensures Linked(students, i, partnerId)[i] !in Referred(Linked(students, i, partnerId), otherPartner)
    ensures Linked(students, i, partnerId)[i] !in AvailableStudents(Linked(students, i, partnerId))
  {
  }

  /** linkStudentToPartner as written: 400 without a student id, 404 for an
      unknown student; otherwise the student is put on the caller's panel
      (replacing any other partner). The `$addToSet` on the partner's
      `referredStudents` names a path the user schema does not declare, so
      Mongoose's strict mode strips it and no user changes. */
  method LinkStudentToPartnerAsWritten(db: Store.Db, partnerId: Id, studentId: Option<Id>) returns (code: int)
    modifies db`students
    ensures db.users == old(db.users)
    ensures studentId.None? || studentId.value == "" ==>
      code == 400 && db.students == old(db.students)
    ensures studentId.Some? && studentId.value != "" && Store.FindStudent(old(db.students), studentId.value).None? ==>
      code == 404 && db.students == old(db.students)
    ensures studentId.Some? && studentId.value != "" && Store.FindStudent(old(db.students), studentId.value).Some? ==>
      code == 200 && db.students == Linked(old(db.students), Store.FindStudent(old(db.students), studentId.value).value, partnerId)
  {
    if studentId.None? || studentId.value == "" {
      return 400;
    }
    var found := Store.FindStudent(db.students, studentId.value);
    if found.None? {
      return 404;
    }
    var i := found.value;
    db.students := db.students[i := db.students[i].(referredBy := Some(partnerId))];
    code := 200;
  }

  /** A student the partner did not list yet changes the partner account
      under the intended link, which the link as written never does. */
  lemma IntendedLinkChangesPartner(u: User, studentKey: Id)
    requires studentKey !in u.referredStudents
    ensures u.(referredStudents := AddToSet(u.referredStudents, studentKey)) != u
    ensures studentKey in u.(referredStudents := AddToSet(u.referredStudents, studentKey)).referredStudents
  {
  }

  /** linkStudentToPartner as intended: as written, and the partner account,
      when it exists, lists the student once. */
  method LinkStudentToPartner(db: Store.Db, partnerId: Id, studentId: Option<Id>) returns (code: int)
    modifies db`students, db`users
    ensures studentId.None? || studentId.value == "" ==>
      code == 400 && db.students == old(db.students) && db.users == old(db.users)
    ensures studentId.Some? && studentId.value != "" && Store.FindStudent(old(db.students), studentId.value).None? ==>
      code == 404 && db.students == old(db.students) && db.users == old(db.users)
    ensures studentId.Some? && studentId.value != "" && Store.FindStudent(old(db.students), studentId.value).Some? ==>
      var i := Store.FindStudent(old(db.students), studentId.value).value;
      code == 200 && db.students == Linked(old(db.students), i, partnerId) &&
      match Store.FindUser(old(db.users), partnerId)
      case None => db.users == old(db.users)
      case Some(u) => db.users == old(db.users)[u := old(db.users)[u].(referredStudents :=
                        AddToSet(old(db.users)[u].referredStudents, old(db.students)[i].key))]
  {
    if studentId.None? || studentId.value == "" {
      return 400;
    }
    var found := Store.FindStudent(db.students, studentId.value);
    if found.None? {
      return 404;
    }
    var i := found.value;
    var student := db.students[i];
    student := student.(referredBy := Some(partnerId));
    db.students := db.students[i := student];
    var partner := Store.FindUser(db.users, partnerId);
    if partner.Some? {
      var u := db.users[partner.value];
      db.users := db.users[partner.value := u.(referredStudents := AddToSet(u.referredStudents, student.key))];
    }
    code := 200;
  }

  /** The loan belongs to the student's account. */
  function OwnedBy(s: Student): LoanModel.Loan -> bool
  {
    (l: LoanModel.Loan) => s.userId.Some? && l.userId == s.userId.value
  }

  /** One merged row: the student's first loan, if any, supplies the
      requested amount (its live balance) and the status, and marks the
      student as having a loan; every other field is the student's own. */
  function Merged(s: Student, loans: seq<LoanModel.Loan>): (r: Student)
    ensures r.(requestedAmount := s.requestedAmount, status := s.status, loan := s.loan) == s
    ensures Seqs.IndexWhere(loans, OwnedBy(s)).None? ==> r == s
    ensures Seqs.IndexWhere(loans, OwnedBy(s)).Some? ==>
      var l := loans[Seqs.IndexWhere(loans, OwnedBy(s)).value];
      s.userId == Some(l.userId) &&
      r.requestedAmount == l.totalAmount && r.status == LoanModel.StatusName(l.status) && r.loan == "Yes" &&
      forall j :: 0 <= j < Seqs.IndexWhere(loans, OwnedBy(s)).value ==> loans[j].userId != l.userId
  {
    match Seqs.IndexWhere(loans, OwnedBy(s))
    case None => s
    case Some(k) =>
      s.(requestedAmount := loans[k].totalAmount, status := LoanModel.StatusName(loans[k].status), loan := "Yes")
  }

  /** getReferredStudents: the partner's students in stored order, each
      merged with its loan. */
  function ReferredStudents(students: seq<Student>, loans: seq<LoanModel.Loan>, partnerId: Id): (r: seq<Student>)
    ensures |r| == |Referred(students, partnerId)|
    ensures forall j :: 0 <= j < |r| ==> r[j] == Merged(Referred(students, partnerId)[j], loans)
    ensures forall j :: 0 <= j < |r| ==> r[j].key == Referred(students, partnerId)[j].key
  {
    var referred := Referred(students, partnerId);
    seq(|referred|, j requires 0 <= j < |referred| => Merged(referred[j], loans))
  }

  /** The loan belongs to one of the given students. */
  function ForAnyOf(referred: seq<Student>): LoanModel.Loan -> bool
  {
    (l: LoanModel.Loan) => exists j :: 0 <= j < |referred| && referred[j].userId == Some(l.userId)
  }

  function IsKycPending(): Student -> bool { (s: Student) => s.kycStatus == KycPending }

  function HasStatus(st: LoanModel.Status): LoanModel.Loan -> bool { (l: LoanModel.Loan) => l.status == st }

  /** A loan is never Approved and Pending at once, so the two counts
      together stay within the number of loans. */
  lemma StatusCountsDisjoint(ls: seq<LoanModel.Loan>)
    ensures Seqs.Count(ls, HasStatus(LoanModel.Approved)) + Seqs.Count(ls, HasStatus(LoanModel.Pending)) <= |ls|
  {
    Seqs.CountDisjoint(ls, HasStatus(LoanModel.Approved), HasStatus(LoanModel.Pending));
  }

  datatype Stats = Stats(
    activeStudents: nat,
    appsInProgress: nat,
    approvedLoans: nat,
    pendingLoans: nat,
    recentApplications: seq<LoanModel.Loan>)

  /** getDashboardStats: counts over the partner's students and their loans,
      and the five newest of those loans. */
  function DashboardStats(students: seq<Student>, loans: seq<LoanModel.Loan>, partnerId: Id): (r: Stats)
    ensures var referred := Referred(students, partnerId);
      var referredLoans := Seqs.Filter(loans, ForAnyOf(referred));
      r.activeStudents == |referred| &&
      r.appsInProgress == Seqs.Count(referred, IsKycPending()) &&
      r.approvedLoans == Seqs.Count(referredLoans, HasStatus(LoanModel.Approved)) &&
      r.pendingLoans == Seqs.Count(referredLoans, HasStatus(LoanModel.Pending)) &&
      |r.recentApplications| == (if |referredLoans| < 5 then |referredLoans| else 5) &&
      Seqs.LastFirst(r.recentApplications, referredLoans)
    ensures r.appsInProgress <= r.activeStudents
    ensures r.approvedLoans + r.pendingLoans <= |Seqs.Filter(loans, ForAnyOf(Referred(students, partnerId)))|
  {
    var referred := Referred(students, partnerId);
    var referredLoans := Seqs.Filter(loans, ForAnyOf(referred));
    StatusCountsDisjoint(referredLoans);
    Stats(
      |referred|,
      Seqs.Count(referred, IsKycPending()),
      Seqs.Count(referredLoans, HasStatus(LoanModel.Approved)),
      Seqs.Count(referredLoans, HasStatus(LoanModel.Pending)),
      Seqs.Newest(referredLoans, 5))
  }

  /** A document of a signature record; its status is free text. */
  datatype SignatureDoc = SignatureDoc(name: string, status: string)

  function IsSignedOrUploaded(): SignatureDoc -> bool
  {
    (d: SignatureDoc) => d.status == "Uploaded" || d.status == "Signed"
  }

  /** The documents shown to the partner: exactly those Uploaded or Signed. */
  function SignedDocuments(docs: seq<SignatureDoc>): (r: seq<SignatureDoc>)
    ensures forall j :: 0 <= j < |r| ==> (r[j].status == "Uploaded" || r[j].status == "Signed") && r[j] in docs
    ensures forall j :: 0 <= j < |docs| && (docs[j].status == "Uploaded" || docs[j].status == "Signed") ==> docs[j] in r
  {
    Seqs.Filter(docs, IsSignedOrUploaded())
  }

  /** The student lookup guarding the signatures: the student must exist
      and be on the caller's panel. */
  predicate MayViewSignatures(students: seq<Student>, partnerId: Id, studentId: Id)
  {
    exists j :: 0 <= j < |students| && students[j].key == studentId && students[j].referredBy == Some(partnerId)
  }

  /** getStudentSignaturesForPartner with the signature record given: 403
      unless the student is on the caller's panel; otherwise the Uploaded or
      Signed documents (none when there is no record). */
  function StudentSignatures(students: seq<Student>, partnerId: Id, studentId: Id, record: Option<seq<SignatureDoc>>)
    : (r: (int, seq<SignatureDoc>))
    ensures r.0 == 403 <==> !MayViewSignatures(students, partnerId, studentId)
    ensures r.0 == 403 || r.0 == 200
    ensures r.0 == 403 || record.None? ==> r.1 == []
    ensures r.0 == 200 && record.Some? ==> r.1 == SignedDocuments(record.value)
  {
    if !MayViewSignatures(students, partnerId, studentId) then (403, [])
    else if record.None? then (200, [])
    else (200, SignedDocuments(record.value))
  }

  /** getStudentSignaturesForPartner as written: past the 403 check the
      handler reads `Signature`, a name the file never imports (and no model
      of the repository defines), so the lookup throws and the catch answers
      500. */
  function StudentSignaturesAsWritten(students: seq<Student>, partnerId: Id, studentId: Id): (code: int)
    ensures code == 403 <==> !MayViewSignatures(students, partnerId, studentId)
    ensures code == 403 || code == 500
  {
    if !MayViewSignatures(students, partnerId, studentId) then 403 else 500
  }

  /** As written, a partner never receives any document: wherever the
      intended handler answers 200, the handler as written answers 500, and
      the two agree on every 403. */
  lemma SignaturesNeverReachPartner(students: seq<Student>, partnerId: Id, studentId: Id, record: Option<seq<SignatureDoc>>)
    ensures StudentSignatures(students, partnerId, studentId, record).0 == 200 <==>
            StudentSignaturesAsWritten(students, partnerId, studentId) == 500
    ensures StudentSignatures(students, partnerId, studentId, record).0 == 403 <==>
            StudentSignaturesAsWritten(students, partnerId, studentId) == 403
  {
  }

  /** A partner never sees the documents of a student linked to another
      partner. */
  lemma OtherPartnersStudentsDenied(students: seq<Student>, partnerId: Id, studentId: Id, record: Option<seq<SignatureDoc>>)
    requires forall j :: 0 <= j < |students| && students[j].key == studentId ==> students[j].referredBy != Some(partnerId)
    ensures StudentSignatures(students, partnerId, studentId, record) == (403, [])
  {
  }
}
