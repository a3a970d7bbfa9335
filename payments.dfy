/** processPayment of src/controllers/user/paymentController.js: the second
    repayment path. It refuses a loan that is already Completed, settles a
    loan within half a unit of its total (clamping the paid amount to the
    total), never touches the live balance `totalAmount`, and writes the
    Debit before it saves the loan. */
module Payments {
  import opened Options
  import opened LoanModel
  import JsNum
  import JsText
  import Ledger
  import Store

  /** The margin under which a payment counts as settling the loan. */
  const Tolerance: real := 0.5

  /** The update processPayment makes to an open loan. */
  function Pay(l: Loan, payment: real): (r: Loan)
    ensures l.paidAmount + payment >= l.totalWithInterest - Tolerance ==>
      r.status == Completed && r.paidAmount == r.totalWithInterest
    ensures l.paidAmount + payment < l.totalWithInterest - Tolerance ==>
      r.status == l.status && r.paidAmount == l.paidAmount + payment
    ensures r.paidAmount <= r.totalWithInterest
    ensures r.(paidAmount := l.paidAmount, status := l.status) == l
  {
    var paid := l.paidAmount + payment;
    if paid >= l.totalWithInterest - Tolerance then l.(paidAmount := l.totalWithInterest, status := Completed)
    else l.(paidAmount := paid)
  }

  /** The `remaining` figure of the reply. */
  function Remaining(l: Loan): real
  {
    l.totalWithInterest - l.paidAmount
  }

  /** The reply reports nothing left on a settled loan and more than the
      tolerance on any loan the payment did not settle. */
  lemma RemainingAfterPay(l: Loan, payment: real)
    requires l.status != Completed
    ensures Pay(l, payment).status == Completed ==> Remaining(Pay(l, payment)) == 0.0
    ensures Pay(l, payment).status != Completed ==> Remaining(Pay(l, payment)) > Tolerance
  {
  }

  /** The filter `{ _id: loanId, userId }`: the caller's loan with this id.
      Mongoose drops an undefined filter key, so without a `loanId` every
      loan of the caller matches. */
  predicate OwnedMatch(l: Loan, key: Option<Id>, userId: Id)
  {
    l.userId == userId && (key.None? || l.key == key.value)
  }

  /** `findOne({ _id: loanId, userId })`: the first loan the filter
      matches. */
  function FindOwnedLoan(loans: seq<Loan>, key: Option<Id>, userId: Id): (r: Option<nat>)
    ensures r.Some? ==> r.value < |loans| && loans[r.value].userId == userId
    ensures r.Some? && key.Some? ==> loans[r.value].key == key.value
    ensures r.Some? ==> forall j :: 0 <= j < r.value ==> !OwnedMatch(loans[j], key, userId)
    ensures r.None? ==> forall j :: 0 <= j < |loans| ==> !OwnedMatch(loans[j], key, userId)
  {
    if |loans| == 0 then None
    else if OwnedMatch(loans[0], key, userId) then Some(0)
    else match FindOwnedLoan(loans[1..], key, userId)
      case None => None
      case Some(k) =>
        assert forall j :: 1 <= j < |loans| ==> loans[j] == loans[1..][j - 1];
        Some(k + 1)
  }

  /** A payment without a `loanId` goes to the caller's first loan, whatever
      loan the borrower meant to repay. */
  lemma {:induction false} MissingLoanIdPaysFirstLoan(loans: seq<Loan>, userId: Id, i: nat)
    requires i < |loans| && loans[i].userId == userId
    requires forall j :: 0 <= j < i ==> loans[j].userId != userId
    ensures FindOwnedLoan(loans, None, userId) == Some(i)
  {
    if i > 0 {
      assert forall j :: 0 <= j < i - 1 ==> loans[1..][j] == loans[j + 1];
      MissingLoanIdPaysFirstLoan(loans[1..], userId, i - 1);
    }
  }

  /** The Debit processPayment records. */
  function PaymentEntry(callerId: Id, l: Loan, payment: real, suffix: nat): (e: Ledger.Entry)
    ensures e.kind == Ledger.Debit && e.amount == payment && e.userId == Some(callerId)
  {
    Ledger.Entry("TXN-" + JsText.NatToString(suffix), Some(callerId), Ledger.Debit,
                 "EMI Payment - " + CategoryName(l.category), Some("Loan Ref: " + l.loanId),
                 payment, Ledger.Completed)
  }

  /** processPayment: 404 unless the caller owns a loan with this id (any
      loan of the caller when the body has no `loanId`), 400 if
      it is Completed. Otherwise the Debit is written first (500 and no write
      when its id is taken), then the loan is saved; when the save fails
      (the paid amount would be negative) the Debit stays and the loan does
      not change. `suffix` stands for the random six digits. An amount that
      is not a number makes `Number(amount)` NaN, which the Debit's amount
      refuses to cast: 500 and no write. */
  method ProcessPayment(db: Store.Db, callerId: Id, loanKey: Option<Id>, amount: JsNum.NumInput, suffix: nat)
    returns (code: int, remaining: Option<real>)
    modifies db`loans, db`ledger
    ensures FindOwnedLoan(old(db.loans), loanKey, callerId).None? ==>
      code == 404 && db.loans == old(db.loans) && db.ledger == old(db.ledger)
    ensures FindOwnedLoan(old(db.loans), loanKey, callerId).Some? ==>
      var i := FindOwnedLoan(old(db.loans), loanKey, callerId).value;
      var payment := if amount.Num? then amount.value else 0.0;
      var updated := Pay(old(db.loans)[i], payment);
      var entry := PaymentEntry(callerId, old(db.loans)[i], payment, suffix);
      if old(db.loans)[i].status == Completed then
        code == 400 && db.loans == old(db.loans) && db.ledger == old(db.ledger)
      else if !amount.Num? then
        code == 500 && db.loans == old(db.loans) && db.ledger == old(db.ledger)
      else if Ledger.IdTaken(old(db.ledger), entry.id) then
        code == 500 && db.loans == old(db.loans) && db.ledger == old(db.ledger)
      else if !SchemaValid(updated) then
        code == 500 && db.loans == old(db.loans) && db.ledger == old(db.ledger) + [entry]
      else
        code == 200 && db.loans == old(db.loans)[i := updated] &&
        db.ledger == old(db.ledger) + [entry] && remaining == Some(Remaining(updated))
  {
    remaining := None;
    var found := FindOwnedLoan(db.loans, loanKey, callerId);
    if found.None? {
      return 404, None;
    }
    var i := found.value;
    var loan := db.loans[i];
    if loan.status == Completed {
      return 400, None;
    }
    if !amount.Num? {
      return 500, None;
    }
    var payment := amount.value;
    var entry := PaymentEntry(callerId, loan, payment, suffix);
    loan := loan.(paidAmount := loan.paidAmount + payment);
    if loan.paidAmount >= loan.totalWithInterest - Tolerance {
      loan := loan.(status := Completed);
      loan := loan.(paidAmount := loan.totalWithInterest);
    }
    var ok := db.CreateTransaction(entry);
    if !ok {
      return 500, None;
    }
    if !SchemaValid(loan) {
      return 500, None;
    }
    db.loans := db.loans[i := loan];
    code, remaining := 200, Some(Remaining(loan));
  }
}
