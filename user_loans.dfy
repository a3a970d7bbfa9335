/** The borrower's side of src/controllers/user/loanController.js: a loan
    request builds the initial snapshot (principal, total with interest, live
    balance, nothing paid); a repayment moves the live balance and records a
    Debit in the ledger. */
module UserLoans {
  import opened Options
  import opened LoanModel
  import JsNum
  import JsText
  import Ledger
  import Store

  /** The annuity (EMI) formula: from principal, monthly rate and term in
      months to the monthly instalment. It is floating-point arithmetic and is
      taken as given. */
  type EmiFormula = (real, real, int) -> real

  /** The fields of a loan request body that the handler reads. */
  datatype LoanRequest = LoanRequest(
    title: Option<string>,
    category: Option<string>,
    totalAmount: JsNum.NumInput,
    period: Option<string>,
    interestRate: JsNum.NumInput,
    monthlyPayment: JsNum.NumInput,
    lastFourDigits: Option<string>)

  /** `parseInt(period) || 12`: the term in months. Never zero; 12 when the
      period is missing or does not start with a number. */
  function Term(period: Option<string>): (n: int)
    ensures n != 0
    ensures period.None? ==> n == 12
    ensures period.Some? && JsText.ParseInt(period.value).None? ==> n == 12
  {
    if period.None? then 12
    else match JsText.ParseInt(period.value)
      case None => 12
      case Some(v) => if v != 0 then v else 12
  }

  /** `${n} Months`, the text stored as the loan's period. */
  function PeriodText(n: int): string
  {
    JsText.IntToString(n) + " Months"
  }

  /** The stored period reads back as the term it was built from. */
  lemma TermOfPeriodText(n: int)
    requires n != 0
    ensures Term(Some(PeriodText(n))) == n
  {
    JsText.ParseIntOfIntToString(n, " Months");
  }

  /** A template literal `${x}`: an absent field prints as "undefined". */
  function Interpolate(x: Option<string>): string
  {
    if x.Some? then x.value else "undefined"
  }

  /** The monthly rate that goes into the formula: `(interestRate || 2.5) / 100`.
      A truthy rate is used as sent, so the text "0" gives a zero rate; None
      (NaN) for text that is not a number. */
  function MonthlyRate(rate: JsNum.NumInput): (r: Option<real>)
    ensures rate.Garbage? <==> r.None?
    ensures JsNum.Truthy(rate) && rate.Num? ==> r == Some(rate.value / 100.0)
    ensures !JsNum.Truthy(rate) ==> r == Some(DefaultInterestRate / 100.0)
  {
    match JsNum.OrNumber(rate, DefaultInterestRate)
    case Some(p) => Some(p / 100.0)
    case None => None
  }

  /** `emiFormula` at monthly rate `r`: at a zero rate both the numerator
      `P * r * (1 + r)^n` and the denominator `(1 + r)^n - 1` are zero, and
      0 / 0 is NaN (None); a NaN rate gives NaN as well. */
  function EmiValue(emi: EmiFormula, principal: real, r: Option<real>, n: int): (v: Option<real>)
    ensures v.None? <==> r.None? || r == Some(0.0)
  {
    if r.None? || r.value == 0.0 then None else Some(emi(principal, r.value, n))
  }

  /** `Math.round(frontendMonthlyPayment || emiFormula)`: a truthy instalment
      from the client wins, numeric text "0" included; None when the value
      rounded is NaN (text that is not a number, or a NaN formula), which the
      save refuses. */
  function MonthlyPayment(given: JsNum.NumInput, emiValue: Option<real>): (r: Option<int>)
    ensures JsNum.Truthy(given) && given.Num? ==> r == Some(JsNum.Round(given.value))
    ensures !JsNum.Truthy(given) && emiValue.Some? ==> r == Some(JsNum.Round(emiValue.value))
    ensures given.Garbage? || (!JsNum.Truthy(given) && emiValue.None?) <==> r.None?
  {
    if JsNum.Truthy(given) then
      (if given.Num? then Some(JsNum.Round(given.value)) else None)
    else if emiValue.Some? then Some(JsNum.Round(emiValue.value))
    else None
  }

  /** `Math.round(finalMonthlyPayment * n)`: the product of two whole numbers
      is already whole, so the total is exactly instalment times term. */
  function TotalDebt(monthly: int, n: int): (t: int)
    ensures t as real == Instalments(monthly as real, n)
  {
    var k := monthly * n;
    assert k as real == monthly as real * n as real;
    assert JsNum.Round(k as real) == k;
    JsNum.Round(k as real)
  }

  /** What `n` instalments of `monthly` add up to. */
  function Instalments(monthly: real, n: int): real
  {
    monthly * n as real
  }

  /** The loan document submitLoanRequest builds for a numeric principal, or
      None when one of its fields cannot be stored (a category outside the
      enum, a non-numeric rate or instalment, or the NaN instalment the
      formula gives at a zero rate when the client sends none). */
  function Snapshot(req: LoanRequest, userId: Id, key: Id, loanId: string, now: Date, emi: EmiFormula): (r: Option<Loan>)
    requires req.totalAmount.Num?
    ensures r.None? <==>
      CategoryOf(JsText.TextOr(req.category, "Education")).None? ||
      req.interestRate.Garbage? || req.monthlyPayment.Garbage? ||
      (!JsNum.Truthy(req.monthlyPayment) && MonthlyRate(req.interestRate) == Some(0.0))
    ensures r.Some? ==> r.value.category == CategoryOf(JsText.TextOr(req.category, "Education")).value
    ensures r.Some? ==> r.value.key == key && r.value.userId == userId && r.value.loanId == loanId
    ensures r.Some? ==> r.value.principalRequested == req.totalAmount.value
    ensures r.Some? ==> r.value.totalWithInterest == Instalments(r.value.monthlyPayment, Term(req.period))
    ensures r.Some? ==> r.value.totalAmount == r.value.totalWithInterest
    ensures r.Some? ==> r.value.paidAmount == 0.0 && r.value.status == Pending
    ensures r.Some? ==> r.value.disbursementDate.None?
    ensures r.Some? ==> r.value.payoffDate == AddMonths(now, Term(req.period))
    ensures r.Some? && JsNum.Truthy(req.monthlyPayment) ==>
      req.monthlyPayment.Num? && r.value.monthlyPayment == JsNum.Round(req.monthlyPayment.value) as real
    ensures r.Some? && !JsNum.Truthy(req.monthlyPayment) ==>
      MonthlyRate(req.interestRate).Some? &&
      r.value.monthlyPayment ==
        JsNum.Round(emi(req.totalAmount.value, MonthlyRate(req.interestRate).value, Term(req.period))) as real
    ensures r.Some? ==> Some(r.value.interestRate) == JsNum.OrNumber(req.interestRate, DefaultInterestRate)
    ensures r.Some? ==> r.value.title == JsText.TextOr(req.title, Interpolate(req.category) + " Loan Request")
    ensures r.Some? ==> r.value.lastFourDigits == JsText.TextOr(req.lastFourDigits, DefaultLastFourDigits)
    ensures r.Some? ==> r.value.period == PeriodText(Term(req.period))
    ensures r.Some? && r.value.totalWithInterest >= 0.0 ==> LiveBalanceTracksSnapshot(r.value)
  {
    var n := Term(req.period);
    var category := CategoryOf(JsText.TextOr(req.category, "Education"));
    var rate := JsNum.OrNumber(req.interestRate, DefaultInterestRate);
    var monthly := MonthlyPayment(req.monthlyPayment, EmiValue(emi, req.totalAmount.value, MonthlyRate(req.interestRate), n));
    if category.None? || rate.None? || monthly.None? then None
    else
      Some(Build(req, userId, key, loanId, now, category.value, monthly.value, rate.value, n))
  }

  /** The document itself, once term, category and instalment are known. */
  function Build(req: LoanRequest, userId: Id, key: Id, loanId: string, now: Date,
                 category: Category, monthly: int, rate: real, n: int): (l: Loan)
    requires req.totalAmount.Num? && n != 0
    ensures l.totalWithInterest == Instalments(l.monthlyPayment, n)
    ensures l.monthlyPayment == monthly as real
    ensures l.totalAmount == l.totalWithInterest && l.principalRequested == req.totalAmount.value
    ensures l.period == PeriodText(n) && l.category == category && l.interestRate == rate
  {
    var total := TotalDebt(monthly, n);
    Loan(
      key := key,
      userId := userId,
      studentId := None,
      partnerId := None,
      loanId := loanId,
      title := JsText.TextOr(req.title, Interpolate(req.category) + " Loan Request"),
      category := category,
      principalRequested := req.totalAmount.value,
      totalAmount := total as real,
      totalWithInterest := total as real,
      paidAmount := 0.0,
      monthlyPayment := monthly as real,
      interestRate := rate,
      period := PeriodText(n),
      payoffDate := AddMonths(now, n),
      disbursementDate := None,
      lastFourDigits := JsText.TextOr(req.lastFourDigits, DefaultLastFourDigits),
      status := Pending)
  }

  /** The category guard `findOne({ userId, category, status: "Pending" })`:
      the user already has a Pending loan in the named category. A request
      without a category leaves `category` undefined, and Mongoose drops an
      undefined filter key, so then any Pending loan of the user matches. */
  predicate HasPendingIn(loans: seq<Loan>, userId: Id, category: Option<string>)
  {
    exists j :: 0 <= j < |loans| && loans[j].userId == userId && loans[j].status == Pending &&
      (category.None? || CategoryName(loans[j].category) == category.value)
  }

  /** The HTTP status of a reply and the loan it created, if any. */
  datatype Reply = Reply(code: int, created: Option<Loan>)

  /** What submitLoanRequest answers and stores: 400 for a second Pending
      request in a category or a non-numeric principal, 500 when the save
      fails (a field that cannot be stored, a negative amount, a taken
      `loanId`), otherwise 201 with the snapshot. */
  function Submission(loans: seq<Loan>, userId: Id, req: LoanRequest, key: Id, loanId: string, now: Date, emi: EmiFormula): (r: Reply)
    ensures r.created.Some? <==> r.code == 201
    ensures r.code == 201 || r.code == 400 || r.code == 500
    ensures r.code == 400 <==> HasPendingIn(loans, userId, req.category) || !req.totalAmount.Num?
    ensures r.code == 201 ==>
      req.totalAmount.Num? &&
      r.created == Snapshot(req, userId, key, loanId, now, emi) &&
      SchemaValid(r.created.value) && !Store.LoanIdTaken(loans, loanId)
    ensures r.code == 500 ==>
      req.totalAmount.Num? &&
      (Snapshot(req, userId, key, loanId, now, emi).None? ||
       !SchemaValid(Snapshot(req, userId, key, loanId, now, emi).value) ||
       Store.LoanIdTaken(loans, loanId))
  {
    if HasPendingIn(loans, userId, req.category) then Reply(400, None)
    else if !req.totalAmount.Num? then Reply(400, None)
    else match Snapshot(req, userId, key, loanId, now, emi)
      case None => Reply(500, None)
      case Some(l) =>
        if SchemaValid(l) && !Store.LoanIdTaken(loans, l.loanId) then Reply(201, Some(l))
        else Reply(500, None)
  }

  /** A request that was granted blocks the next request of the same user in
      the same category until the first one leaves Pending. */
  lemma SecondRequestRejected(loans: seq<Loan>, userId: Id, req: LoanRequest, key: Id, loanId: string, now: Date, emi: EmiFormula,
                              req2: LoanRequest, key2: Id, loanId2: string, now2: Date)
    requires Submission(loans, userId, req, key, loanId, now, emi).code == 201
    requires req.category != Some("")
    requires req2.category == req.category
    ensures Submission(loans + [Submission(loans, userId, req, key, loanId, now, emi).created.value],
                       userId, req2, key2, loanId2, now2, emi).code == 400
  {
    var l := Submission(loans, userId, req, key, loanId, now, emi).created.value;
    var loans' := loans + [l];
    assert req.category.Some? ==> CategoryName(l.category) == req.category.value;
    assert loans'[|loans|] == l;
  }

  /** A request with an empty category is never blocked: the guard looks for
      the empty text, which no stored category has. */
  lemma EmptyCategoryNeverBlocked(loans: seq<Loan>, userId: Id)
    ensures !HasPendingIn(loans, userId, Some(""))
  {
    forall c: Category ensures CategoryName(c) != "" {
      assert |CategoryName(c)| > 0;
    }
  }

  /** A request without a category is blocked exactly when the user has a
      Pending loan of any category, and so is blocked by a Pending loan in a
      category it may not even be asking for. */
  lemma UncategorisedRequestBlockedByAnyPending(loans: seq<Loan>, userId: Id, c: string)
    ensures HasPendingIn(loans, userId, None) <==>
      exists j :: 0 <= j < |loans| && loans[j].userId == userId && loans[j].status == Pending
    ensures HasPendingIn(loans, userId, Some(c)) ==> HasPendingIn(loans, userId, None)
  {
  }

  /** The rate is read before `Number`, so the text "0" survives the `||`:
      without an instalment from the client the formula divides zero by zero
      and the request fails with 500. The number 0 falls back to 2.5%. */
  lemma ZeroRateTextFailsWithoutInstalment(loans: seq<Loan>, userId: Id, req: LoanRequest, key: Id, loanId: string,
                                           now: Date, emi: EmiFormula)
    requires req.interestRate == JsNum.Num(0.0, true) && !JsNum.Truthy(req.monthlyPayment)
    requires req.totalAmount.Num? && !HasPendingIn(loans, userId, req.category)
    ensures Submission(loans, userId, req, key, loanId, now, emi).code == 500
    ensures MonthlyRate(JsNum.Num(0.0, false)) == Some(DefaultInterestRate / 100.0)
  {
    assert MonthlyRate(req.interestRate) == Some(0.0);
  }

  /** An instalment sent as the text "0" is truthy, so it wins over the
      formula and the loan is stored owing nothing. */
  lemma ZeroInstalmentTextOwesNothing(req: LoanRequest, userId: Id, key: Id, loanId: string, now: Date, emi: EmiFormula)
    requires req.totalAmount.Num? && req.monthlyPayment == JsNum.Num(0.0, true)
    requires Snapshot(req, userId, key, loanId, now, emi).Some?
    ensures Snapshot(req, userId, key, loanId, now, emi).value.monthlyPayment == 0.0
    ensures Snapshot(req, userId, key, loanId, now, emi).value.totalWithInterest == 0.0
  {
    assert JsNum.Round(0.0) == 0;
  }

  /** submitLoanRequest: stores exactly the loan `Submission` creates. */
  method SubmitLoanRequest(db: Store.Db, userId: Id, req: LoanRequest, key: Id, loanId: string, now: Date, emi: EmiFormula)
    returns (code: int)
    modifies db`loans
    ensures code == Submission(old(db.loans), userId, req, key, loanId, now, emi).code
    ensures code == 201 ==> db.loans == old(db.loans) + [Submission(old(db.loans), userId, req, key, loanId, now, emi).created.value]
    ensures code != 201 ==> db.loans == old(db.loans)
    ensures Store.LoanIdsDistinct(old(db.loans)) ==> Store.LoanIdsDistinct(db.loans)
  {
    var reply := Submission(db.loans, userId, req, key, loanId, now, emi);
    code := reply.code;
    if reply.created.Some? {
      if Store.LoanIdsDistinct(db.loans) {
        Store.InsertKeepsLoanIdsDistinct(db.loans, reply.created.value);
      }
      db.loans := db.loans + [reply.created.value];
    }
  }

  /** The balance update of repayLoan on one loan: the payment is added to
      the paid amount, the live balance is recomputed from the permanent
      total, and a balance of zero completes the loan. */
  function Repay(l: Loan, payment: real): (r: Loan)
    ensures r.paidAmount == l.paidAmount + payment
    ensures r.totalAmount >= 0.0 && LiveBalanceTracksSnapshot(r)
    ensures r.status == Completed <==> r.totalAmount == 0.0 || l.status == Completed
    ensures r.totalAmount > 0.0 ==> r.status == l.status
    ensures r.(paidAmount := l.paidAmount, totalAmount := l.totalAmount, status := l.status) == l
  {
    var paid := l.paidAmount + payment;
    var balance := JsNum.Max(0.0, l.totalWithInterest - paid);
    l.(paidAmount := paid, totalAmount := balance, status := if balance <= 0.0 then Completed else l.status)
  }

  /** The Debit repayLoan records: owned by the caller, for the payment. */
  function RepayEntry(callerId: Id, category: Category, payment: real, suffix: nat): (e: Ledger.Entry)
    ensures e.kind == Ledger.Debit && e.amount == payment && e.userId == Some(callerId)
  {
    Ledger.Entry("TXN-PAY-" + JsText.NatToString(suffix), Some(callerId), Ledger.Debit,
                 "Repayment for " + CategoryName(category) + " Loan", None, payment, Ledger.Completed)
  }

  /** repayLoan: 404 for an unknown loan; otherwise the loan is updated in
      place and saved (500 and no write when the result breaks a `min: 0`
      bound), then the Debit is created (500 when its id is taken, with the
      loan already saved). The reply carries the new live balance. The loan's
      owner is not checked. `suffix` stands for the random six digits. An
      amount that is not a number makes `Number(amount)` NaN, which the save
      refuses to cast: 500 and no write. */
  method RepayLoan(db: Store.Db, callerId: Id, loanKey: Id, amount: JsNum.NumInput, suffix: nat)
    returns (code: int, remainingBalance: Option<real>)
    modifies db`loans, db`ledger
    ensures Store.FindLoan(old(db.loans), loanKey).None? ==>
      code == 404 && db.loans == old(db.loans) && db.ledger == old(db.ledger)
    ensures Store.FindLoan(old(db.loans), loanKey).Some? && !amount.Num? ==>
      code == 500 && db.loans == old(db.loans) && db.ledger == old(db.ledger)
    ensures Store.FindLoan(old(db.loans), loanKey).Some? && amount.Num? ==>
      var i := Store.FindLoan(old(db.loans), loanKey).value;
      var payment := amount.value;
      var updated := Repay(old(db.loans)[i], payment);
      var entry := RepayEntry(callerId, updated.category, payment, suffix);
      if !SchemaValid(updated) then
        code == 500 && db.loans == old(db.loans) && db.ledger == old(db.ledger)
      else if Ledger.IdTaken(old(db.ledger), entry.id) then
        code == 500 && db.loans == old(db.loans)[i := updated] && db.ledger == old(db.ledger)
      else
        code == 200 && db.loans == old(db.loans)[i := updated] &&
        db.ledger == old(db.ledger) + [entry] && remainingBalance == Some(updated.totalAmount)
  {
    remainingBalance := None;
    var found := Store.FindLoan(db.loans, loanKey);
    if found.None? {
      return 404, None;
    }
    if !amount.Num? {
      return 500, None;
    }
    var i, payment := found.value, amount.value;
    var loan := Repay(db.loans[i], payment);
    if !SchemaValid(loan) {
      return 500, None;
    }
    db.loans := db.loans[i := loan];
    var ok := db.CreateTransaction(RepayEntry(callerId, loan.category, payment, suffix));
    if !ok {
      return 500, None;
    }
    code, remainingBalance := 200, Some(loan.totalAmount);
  }
}
