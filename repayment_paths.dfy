/** The two repayment paths side by side: repayLoan
    (src/controllers/user/loanController.js) and processPayment
    (src/controllers/user/paymentController.js) applied to a run of
    payments, what each guarantees, and inputs on which they disagree. */
module RepaymentPaths {
  import opened Options
  import opened LoanModel
  import UserLoans
  import Payments

  /** The sum of a run of payments. */
  function Paid(ps: seq<real>): real
  {
    if |ps| == 0 then 0.0 else ps[0] + Paid(ps[1..])
  }

  /** repayLoan applied to each payment in turn. */
  function RepayAll(l: Loan, ps: seq<real>): Loan
    decreases |ps|
  {
    if |ps| == 0 then l else RepayAll(UserLoans.Repay(l, ps[0]), ps[1..])
  }

  /** processPayment applied to each payment in turn; once the loan is
      Completed every further payment is refused and changes nothing. */
  function PayAll(l: Loan, ps: seq<real>): Loan
    decreases |ps|
  {
    if |ps| == 0 || l.status == Completed then l else PayAll(Payments.Pay(l, ps[0]), ps[1..])
  }

  /** Along repayLoan the paid amount accumulates every payment, the
      snapshot fields stay put, and after any payment the live balance is
      the total minus what was paid. */
  lemma {:induction false} RepayAllAccumulates(l: Loan, ps: seq<real>)
    ensures RepayAll(l, ps).paidAmount == l.paidAmount + Paid(ps)
    ensures RepayAll(l, ps).totalWithInterest == l.totalWithInterest
    ensures RepayAll(l, ps).principalRequested == l.principalRequested
    ensures |ps| > 0 ==> LiveBalanceTracksSnapshot(RepayAll(l, ps))
    ensures l.status == Completed ==> RepayAll(l, ps).status == Completed
    decreases |ps|
  {
    if |ps| > 0 {
      RepayAllAccumulates(UserLoans.Repay(l, ps[0]), ps[1..]);
    }
  }

  /** Payments through repayLoan that add up to the debt complete the loan
      and bring the live balance to exactly zero. */
  lemma RepaymentsCoveringTheDebtComplete(l: Loan, ps: seq<real>)
    requires |ps| > 0
    requires l.paidAmount + Paid(ps) >= l.totalWithInterest
    ensures RepayAll(l, ps).totalAmount == 0.0
    ensures RepayAll(l, ps).status == Completed
  {
    RepayAllAccumulates(l, ps);
    var last := RepayAll(l, ps);
    assert RemainingBalance(last) == 0.0;
    RepayAllLastStep(l, ps);
  }

  /** The result of a non-empty run is one Repay step, so a zero balance
      means Completed. */
  lemma {:induction false} RepayAllLastStep(l: Loan, ps: seq<real>)
    requires |ps| > 0
    ensures RepayAll(l, ps).totalAmount == 0.0 ==> RepayAll(l, ps).status == Completed
    decreases |ps|
  {
    if |ps| > 1 {
      RepayAllLastStep(UserLoans.Repay(l, ps[0]), ps[1..]);
    }
  }

  /** Along processPayment the paid amount never passes the total, and the
      live balance `totalAmount` and the principal are never changed. */
  lemma {:induction false} PayAllKeepsBounds(l: Loan, ps: seq<real>)
    requires l.paidAmount <= l.totalWithInterest
    ensures PayAll(l, ps).paidAmount <= PayAll(l, ps).totalWithInterest
    ensures PayAll(l, ps).totalWithInterest == l.totalWithInterest
    ensures PayAll(l, ps).totalAmount == l.totalAmount
    ensures PayAll(l, ps).principalRequested == l.principalRequested
    decreases |ps|
  {
    if |ps| > 0 && l.status != Completed {
      PayAllKeepsBounds(Payments.Pay(l, ps[0]), ps[1..]);
    }
  }

  /** Non-negative payments through processPayment that come within the
      tolerance of the debt complete the loan with the paid amount clamped
      to exactly the total. */
  lemma {:induction false} PaymentsCoveringTheDebtComplete(l: Loan, ps: seq<real>)
    requires |ps| > 0 && l.status != Completed
    requires forall j :: 0 <= j < |ps| ==> ps[j] >= 0.0
    requires l.paidAmount + Paid(ps) >= l.totalWithInterest - Payments.Tolerance
    ensures PayAll(l, ps).status == Completed
    ensures PayAll(l, ps).paidAmount == l.totalWithInterest
    decreases |ps|
  {
    var next := Payments.Pay(l, ps[0]);
    if next.status != Completed {
      assert next.paidAmount == l.paidAmount + ps[0];
      if |ps| == 1 {
        assert false;
      }
      PaymentsCoveringTheDebtComplete(next, ps[1..]);
    } else {
      assert PayAll(next, ps[1..]) == next;
    }
  }

  /** On a loan whose live balance starts as its total, settling it through
      processPayment leaves that balance in place: the stored `totalAmount`
      still shows the full debt. */
  lemma PaymentsLeaveLiveBalanceStale(l: Loan, ps: seq<real>)
    requires l.totalWithInterest > 0.0 && l.paidAmount <= l.totalWithInterest
    requires l.totalAmount == l.totalWithInterest
    requires PayAll(l, ps).status == Completed && l.status != Completed
    ensures PayAll(l, ps).totalAmount == l.totalWithInterest
    ensures !LiveBalanceTracksSnapshot(PayAll(l, ps))
  {
    PayAllKeepsBounds(l, ps);
    PayAllSettles(l, ps);
  }

  /** A run that ends Completed from an open loan ends with the paid amount
      equal to the total. */
  lemma {:induction false} PayAllSettles(l: Loan, ps: seq<real>)
    requires l.status != Completed && PayAll(l, ps).status == Completed
    ensures PayAll(l, ps).paidAmount == l.totalWithInterest
    decreases |ps|
  {
    var next := Payments.Pay(l, ps[0]);
    if next.status != Completed {
      PayAllSettles(next, ps[1..]);
    }
  }

  /** A loan of 100 with 99 paid: a payment of 0.6 settles it through
      processPayment, which forgives the last 0.4, while repayLoan leaves 0.4
      owed and the loan open. */
  lemma ToleranceDivergence()
    ensures exists l: Loan ::
      Payments.Pay(l, 0.6).status == Completed && Payments.Pay(l, 0.6).paidAmount == 100.0 &&
      UserLoans.Repay(l, 0.6).status == Approved && UserLoans.Repay(l, 0.6).totalAmount == 0.4
  {
    var l := Loan("k", "u", None, None, "LN100000", DefaultTitle, Education,
                  90.0, 1.0, 100.0, 99.0, 10.0, 2.5, "10 Months", Date(0, 1, 0), None, "0000", Approved);
    assert Payments.Pay(l, 0.6).paidAmount == 100.0;
    assert UserLoans.Repay(l, 0.6).totalAmount == 0.4;
  }

  /** Paying 150 on a debt of 100: repayLoan records the full 150 as paid,
      processPayment records exactly 100. */
  lemma OverpaymentDivergence()
    ensures exists l: Loan ::
      UserLoans.Repay(l, 150.0).paidAmount == 150.0 && UserLoans.Repay(l, 150.0).status == Completed &&
      Payments.Pay(l, 150.0).paidAmount == 100.0
  {
    var l := Loan("k", "u", None, None, "LN100000", DefaultTitle, Education,
                  90.0, 100.0, 100.0, 0.0, 10.0, 2.5, "10 Months", Date(0, 1, 0), None, "0000", Approved);
    assert UserLoans.Repay(l, 150.0).paidAmount == 150.0;
    assert Payments.Pay(l, 150.0).paidAmount == 100.0;
  }
}
