/** getDashboardData of src/controllers/user/dashboardController.js: the
    borrower's overview, computed from the caller's Approved loans only. */
module Dashboard {
  import opened Options
  import opened LoanModel
  import JsNum
  import Seqs

  /** One entry of the `loans` list of the reply. */
  datatype LoanView = LoanView(key: Id, name: string, period: string, amount: real, progress: int)

  /** The reply. `payoffDate` is the furthest payoff date among the
      Approved loans, None where the reply says "N/A". */
  datatype Overview = Overview(
    totalLoanAmount: real,
    overallProgress: int,
    activeLoansCount: nat,
    payoffDate: Option<Date>,
    loans: seq<LoanView>)

  /** `Loan.find({ userId, status: "Approved" })`. */
  predicate Counted(userId: Id, l: Loan)
  {
    l.userId == userId && l.status == Approved
  }

  /** The caller's Approved loans, in stored order. */
  function ApprovedLoans(loans: seq<Loan>, userId: Id): (r: seq<Loan>)
    ensures forall j :: 0 <= j < |r| ==> Counted(userId, r[j]) && r[j] in loans
    ensures forall j :: 0 <= j < |loans| && Counted(userId, loans[j]) ==> loans[j] in r
  {
    Seqs.Filter(loans, l => Counted(userId, l))
  }

  function Amount(l: Loan): real { l.totalAmount }

  function PaidSoFar(l: Loan): real { l.paidAmount }

  /** The overall ring chart: paid over owed in whole percent, 0 when
      nothing is owed. Not capped. */
  function OverallProgress(totalLoanAmount: real, totalPaid: real): (r: int)
    ensures totalLoanAmount <= 0.0 ==> r == 0
    ensures totalLoanAmount > 0.0 && totalPaid >= 0.0 ==> r >= 0
    ensures totalLoanAmount > 0.0 && totalPaid >= totalLoanAmount ==> r >= 100
  {
    if totalLoanAmount > 0.0 then
      var percentage := totalPaid / totalLoanAmount * 100.0;
      assert totalPaid >= 0.0 ==> percentage >= 0.0;
      assert totalPaid >= totalLoanAmount ==> percentage >= 100.0;
      JsNum.Round(percentage)
    else 0
  }

  /** The progress shown for one loan: paid over the live balance, not over
      the total debt, and not capped. */
  function LoanProgress(l: Loan): (r: int)
    ensures l.totalAmount <= 0.0 ==> r == 0
    ensures l.totalAmount > 0.0 && l.paidAmount >= l.totalAmount ==> r >= 100
  {
    OverallProgress(l.totalAmount, l.paidAmount)
  }

  function View(l: Loan): (v: LoanView)
    ensures v.key == l.key && v.period == l.period && v.amount == l.totalAmount
    ensures v.name == if l.title != "" then l.title else DefaultTitle
  {
    LoanView(l.key, if l.title != "" then l.title else DefaultTitle, l.period, l.totalAmount, LoanProgress(l))
  }

  /** The payoff date of the first loan in `sort({ payoffDate: -1 })` order:
      the latest one. */
  function FurthestPayoff(ls: seq<Loan>): (r: Option<Date>)
    ensures r.None? <==> |ls| == 0
    ensures r.Some? ==> exists j :: 0 <= j < |ls| && ls[j].payoffDate == r.value
    ensures r.Some? ==> forall j :: 0 <= j < |ls| ==> NotAfter(ls[j].payoffDate, r.value)
  {
    if |ls| == 0 then None
    else match FurthestPayoff(ls[1..])
      case None => Some(ls[0].payoffDate)
      case Some(d) =>
        assert forall j :: 1 <= j < |ls| ==> ls[j] == ls[1..][j - 1];
        if NotAfter(ls[0].payoffDate, d) then Some(d) else Some(ls[0].payoffDate)
  }

  /** The `loans` list: one view per loan, in the same order. */
  function Listed(ls: seq<Loan>): (r: seq<LoanView>)
    ensures |r| == |ls|
    ensures forall j :: 0 <= j < |ls| ==> r[j] == View(ls[j])
  {
    seq(|ls|, j requires 0 <= j < |ls| => View(ls[j]))
  }

  /** The whole reply for the caller. */
  function GetDashboardData(loans: seq<Loan>, userId: Id): (r: Overview)
    ensures var approved := ApprovedLoans(loans, userId);
      r.activeLoansCount == |approved| && r.loans == Listed(approved) &&
      r.totalLoanAmount == Seqs.Sum(approved, Amount) &&
      r.overallProgress == OverallProgress(r.totalLoanAmount, Seqs.Sum(approved, PaidSoFar)) &&
      r.payoffDate == FurthestPayoff(approved) && (r.payoffDate.None? <==> |approved| == 0)
  {
    var approved := ApprovedLoans(loans, userId);
    Overview(
      Seqs.Sum(approved, Amount),
      OverallProgress(Seqs.Sum(approved, Amount), Seqs.Sum(approved, PaidSoFar)),
      |approved|,
      FurthestPayoff(approved),
      Listed(approved))
  }

  /** A loan that is not one of the caller's Approved loans changes nothing
      on the caller's dashboard. */
  lemma OtherLoansDoNotCount(loans: seq<Loan>, userId: Id, l: Loan)
    requires !Counted(userId, l)
    ensures GetDashboardData(loans + [l], userId) == GetDashboardData(loans, userId)
  {
    Seqs.FilterAppend(loans, l, l' => Counted(userId, l'));
  }

  /** A new Approved loan of the caller adds one to the count and its live
      balance to the total. */
  lemma ApprovedLoanCounts(loans: seq<Loan>, userId: Id, l: Loan)
    requires Counted(userId, l)
    ensures GetDashboardData(loans + [l], userId).activeLoansCount == GetDashboardData(loans, userId).activeLoansCount + 1
    ensures GetDashboardData(loans + [l], userId).totalLoanAmount == GetDashboardData(loans, userId).totalLoanAmount + l.totalAmount
  {
    var a := ApprovedLoans(loans, userId);
    ApprovedAppend(loans, userId, l);
    assert (a + [l])[..|a|] == a;
  }

  /** A new Approved loan of the caller is listed last, after the others
      unchanged. */
  lemma ApprovedLoanListedLast(loans: seq<Loan>, userId: Id, l: Loan)
    requires Counted(userId, l)
    ensures GetDashboardData(loans + [l], userId).loans == GetDashboardData(loans, userId).loans + [View(l)]
  {
    ApprovedAppend(loans, userId, l);
    var a := ApprovedLoans(loans, userId);
    assert Listed(a + [l]) == Listed(a) + [View(l)];
  }

  /** A counted loan stored last is listed last. */
  lemma ApprovedAppend(loans: seq<Loan>, userId: Id, l: Loan)
    requires Counted(userId, l)
    ensures ApprovedLoans(loans + [l], userId) == ApprovedLoans(loans, userId) + [l]
  {
    Seqs.FilterAppend(loans, l, l' => Counted(userId, l'));
  }

  /** Per-loan progress can pass 100 where the loan's own progress cannot:
      after repaying 60 of a 100 debt the live balance is 40, and the list
      shows 150% against the loan's 60%. */
  lemma ListedProgressExceedsHundred()
    ensures exists l: Loan :: LoanProgress(l) == 150 && Progress(l) == 60
  {
    var l := Loan("k", "u", None, None, "LN100000", DefaultTitle, Education,
                  100.0, 40.0, 100.0, 60.0, 10.0, 2.5, "10 Months", Date(0, 1, 0), None, "0000", Approved);
    assert 60.0 / 40.0 * 100.0 == 150.0;
    assert 60.0 / 100.0 * 100.0 == 60.0;
    assert LoanProgress(l) == 150;
    assert Progress(l) == 60;
  }
}
