/** The database the handlers share: one sequence per collection, in
    insertion order, which is also creation-time order. `findOne` is the
    first match in that order; a `unique` index turns a second document with
    the same key into a failed write. */
module Store {
  import opened Options
  import opened Records
  import LoanModel
  import Ledger
  import Seqs

  class Db {
    var users: seq<User>
    var students: seq<Student>
    var loans: seq<LoanModel.Loan>
    var ledger: seq<Ledger.Entry>
    var funds: seq<Fund>
    var userDocs: seq<UserDocs>

    constructor ()
      ensures users == [] && students == [] && loans == []
      ensures ledger == [] && funds == [] && userDocs == []
    {
      users := [];
      students := [];
      loans := [];
      ledger := [];
      funds := [];
      userDocs := [];
    }

    /** `Transaction.create`: the entry is appended unless its `id` is
        already taken, in which case nothing is written. */
    method CreateTransaction(e: Ledger.Entry) returns (ok: bool)
      modifies this`ledger
      ensures ok <==> !Ledger.IdTaken(old(ledger), e.id)
      ensures ledger == if ok then old(ledger) + [e] else old(ledger)
    {
      ok := !Ledger.IdTaken(ledger, e.id);
      if ok {
        ledger := ledger + [e];
      }
    }
  }

  /** `findById` on the loans: the first loan with this `_id`. */
  function FindLoan(loans: seq<LoanModel.Loan>, key: Id): (r: Option<nat>)
    ensures r.Some? ==> r.value < |loans| && loans[r.value].key == key
    ensures r.Some? ==> forall j :: 0 <= j < r.value ==> loans[j].key != key
    ensures r.None? ==> forall j :: 0 <= j < |loans| ==> loans[j].key != key
  {
    Seqs.IndexWhere(loans, (l: LoanModel.Loan) => l.key == key)
  }

  /** `findById` on the users. */
  function FindUser(users: seq<User>, key: Id): (r: Option<nat>)
    ensures r.Some? ==> r.value < |users| && users[r.value].key == key
    ensures r.Some? ==> forall j :: 0 <= j < r.value ==> users[j].key != key
    ensures r.None? ==> forall j :: 0 <= j < |users| ==> users[j].key != key
  {
    Seqs.IndexWhere(users, (u: User) => u.key == key)
  }

  /** The test of `findOne({ email })`. */
  function HasEmail(email: string): User -> bool
  {
    (u: User) => u.email == email
  }

  /** `findOne({ email })` on the users: the first user with the address. */
  function FindUserByEmail(users: seq<User>, email: string): (r: Option<nat>)
    ensures r.Some? ==> r.value < |users| && users[r.value].email == email
    ensures r.Some? ==> forall j :: 0 <= j < r.value ==> users[j].email != email
    ensures r.None? ==> forall j :: 0 <= j < |users| ==> users[j].email != email
  {
    Seqs.IndexWhere(users, HasEmail(email))
  }

  /** `findById` on the student records. */
  function FindStudent(students: seq<Student>, key: Id): (r: Option<nat>)
    ensures r.Some? ==> r.value < |students| && students[r.value].key == key
    ensures r.Some? ==> forall j :: 0 <= j < r.value ==> students[j].key != key
    ensures r.None? ==> forall j :: 0 <= j < |students| ==> students[j].key != key
  {
    Seqs.IndexWhere(students, (s: Student) => s.key == key)
  }

  /** Whether some loan already carries this `loanId` (a unique index). */
  predicate LoanIdTaken(loans: seq<LoanModel.Loan>, loanId: string)
  {
    exists j :: 0 <= j < |loans| && loans[j].loanId == loanId
  }

  /** Whether a loan other than the one at `i` carries this `loanId`:
      setting it on loan `i` would break the unique index. */
  predicate LoanIdTakenByOther(loans: seq<LoanModel.Loan>, i: nat, loanId: string)
  {
    exists j :: 0 <= j < |loans| && j != i && loans[j].loanId == loanId
  }

  /** The unique index on `loanId` holds: no two loans share one. */
  predicate LoanIdsDistinct(loans: seq<LoanModel.Loan>)
  {
    forall j, k :: 0 <= j < k < |loans| ==> loans[j].loanId != loans[k].loanId
  }

  /** Inserting a loan keeps the index exactly when its `loanId` is free. */
  lemma InsertKeepsLoanIdsDistinct(loans: seq<LoanModel.Loan>, l: LoanModel.Loan)
    requires LoanIdsDistinct(loans)
    ensures LoanIdsDistinct(loans + [l]) <==> !LoanIdTaken(loans, l.loanId)
  {
    var loans' := loans + [l];
    if LoanIdTaken(loans, l.loanId) {
      var j :| 0 <= j < |loans| && loans[j].loanId == l.loanId;
      assert loans'[j].loanId == loans'[|loans|].loanId;
    }
  }

  /** Replacing loan `i` keeps the index exactly when no other loan carries
      the replacement's `loanId`. */
  lemma ReplaceKeepsLoanIdsDistinct(loans: seq<LoanModel.Loan>, i: nat, l: LoanModel.Loan)
    requires LoanIdsDistinct(loans) && i < |loans|
    ensures LoanIdsDistinct(loans[i := l]) <==> !LoanIdTakenByOther(loans, i, l.loanId)
  {
    var loans' := loans[i := l];
    if LoanIdTakenByOther(loans, i, l.loanId) {
      var j :| 0 <= j < |loans| && j != i && loans[j].loanId == l.loanId;
      assert loans'[j].loanId == loans'[i].loanId;
    }
  }
}
