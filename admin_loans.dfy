/** The administrator's side of src/controllers/admin/loanController.js:
    createLoan stores whatever the body carries over a few computed fields,
    and updateLoan applies a partial patch under the schema's validators,
    stamping a disbursement date when a loan is marked Disbursed. */
module AdminLoans {
  import opened Options
  import opened LoanModel
  import JsNum
  import JsText
  import Store
  import UserLoans

  /** The fields of a create or update body the model follows. An absent
      field is `None` / `Missing`; text that cannot be read as a number is
      `Garbage`. */
  datatype LoanBody = LoanBody(
    userId: Option<Id>,
    studentId: Option<Id>,
    partnerId: Option<Id>,
    loanId: Option<string>,
    title: Option<string>,
    category: Option<string>,
    totalAmount: JsNum.NumInput,
    requestedAmount: JsNum.NumInput,
    principalRequested: JsNum.NumInput,
    totalWithInterest: JsNum.NumInput,
    paidAmount: JsNum.NumInput,
    monthlyPayment: JsNum.NumInput,
    interestRate: JsNum.NumInput,
    period: Option<string>,
    payoffDate: Option<Date>,
    disbursementDate: Option<Date>,
    lastFourDigits: Option<string>,
    status: Option<string>)

  /** A body that sets nothing. */
  const EmptyBody: LoanBody := LoanBody(None, None, None, None, None, None, JsNum.Missing, JsNum.Missing,
    JsNum.Missing, JsNum.Missing, JsNum.Missing, JsNum.Missing, JsNum.Missing, None, None, None, None, None)

  /** Storing a request field into a Number path: an absent field keeps
      `current` (the default or the stored value), a number is stored, and
      text that is not a number fails the cast. */
  function CastNumber(x: JsNum.NumInput, current: real): (r: Option<real>)
    ensures x.Missing? ==> r == Some(current)
    ensures x.Garbage? <==> r.None?
    ensures x.Num? ==> r == Some(x.value)
  {
    match x
    case Missing => Some(current)
    case Garbage => None
    case Num(v, _) => Some(v)
  }

  /** Storing a request field into the category path: the enum validator
      refuses any text outside the enum. */
  function CastCategory(t: Option<string>, current: Category): (r: Option<Category>)
    ensures t.None? ==> r == Some(current)
    ensures t.Some? ==> (r.Some? <==> exists c :: CategoryName(c) == t.value)
    ensures t.Some? && r.Some? ==> CategoryName(r.value) == t.value
  {
    if t.None? then Some(current)
    else CategoryOf(t.value)
  }

  /** Storing a request field into the status path, under its enum. */
  function CastStatus(t: Option<string>, current: Status): (r: Option<Status>)
    ensures t.None? ==> r == Some(current)
    ensures t.Some? ==> (r.Some? <==> exists s :: StatusName(s) == t.value)
    ensures t.Some? && r.Some? ==> StatusName(r.value) == t.value
  {
    if t.None? then Some(current)
    else StatusOf(t.value)
  }

  /** `Number(totalAmount || requestedAmount)`: None stands for NaN. */
  function FinalAmount(b: LoanBody): (r: Option<real>)
    ensures JsNum.Truthy(b.totalAmount) ==> r == JsNum.ToNumber(b.totalAmount)
    ensures !JsNum.Truthy(b.totalAmount) ==> r == JsNum.ToNumber(b.requestedAmount)
  {
    JsNum.ToNumber(JsNum.Or(b.totalAmount, b.requestedAmount))
  }

  /** The 400 guard: no user, or a loan amount that is NaN or zero. */
  predicate MissingUserOrAmount(b: LoanBody)
  {
    b.userId.None? || b.userId.value == "" || FinalAmount(b).None? || FinalAmount(b).value == 0.0
  }

  /** `Math.round(emi * n)`: the administrator's total rounds the whole
      product once. */
  function AdminTotal(emiValue: real, n: int): (t: int)
    ensures t as real - 0.5 <= emiValue * n as real < t as real + 0.5
  {
    JsNum.Round(emiValue * n as real)
  }

  /** The monthly rate createLoan feeds the formula: `(Number(interestRate)
      || 2.5) / 100`. Unlike the borrower's `(interestRate || 2.5) / 100` it
      reads the number before the `||`, so it is never zero and never NaN. */
  function MonthlyRate(rate: JsNum.NumInput): (r: real)
    ensures r != 0.0
    ensures rate.Num? && rate.value != 0.0 ==> r == rate.value / 100.0
    ensures !(rate.Num? && rate.value != 0.0) ==> r == DefaultInterestRate / 100.0
  {
    JsNum.NumberOr(rate, DefaultInterestRate) / 100.0
  }

  /** The document createLoan builds for a body past the 400 guard, or None
      when the create fails: no period (a required path), a category or
      status outside its enum, a `loanId` that is empty, or a number path
      given text. */
  function Created(b: LoanBody, key: Id, loanId: string, now: Date, emi: UserLoans.EmiFormula): (r: Option<Loan>)
    requires !MissingUserOrAmount(b)
    ensures r.None? <==>
      b.period.None? || b.period.value == "" ||
      b.loanId.GetOr(loanId) == "" ||
      CastCategory(b.category, DefaultCategory).None? ||
      CastStatus(Some(JsText.TextOr(b.status, "Pending")), DefaultStatus).None? ||
      b.principalRequested.Garbage? || b.paidAmount.Garbage? ||
      b.totalWithInterest.Garbage? || b.monthlyPayment.Garbage?
    ensures r.Some? ==> r.value.key == key && r.value.userId == b.userId.value
    ensures r.Some? ==> r.value.category == CastCategory(b.category, DefaultCategory).value
    ensures r.Some? ==> r.value.studentId == b.studentId && r.value.partnerId == b.partnerId
    ensures r.Some? ==> r.value.totalAmount == FinalAmount(b).value
    ensures r.Some? ==> CastNumber(b.principalRequested, 0.0) == Some(r.value.principalRequested)
    ensures r.Some? ==> CastNumber(b.paidAmount, 0.0) == Some(r.value.paidAmount)
    ensures r.Some? ==> r.value.interestRate == JsNum.NumberOr(b.interestRate, DefaultInterestRate)
    ensures r.Some? && !JsNum.Truthy(b.totalWithInterest) ==>
      r.value.totalWithInterest ==
        AdminTotal(emi(FinalAmount(b).value, MonthlyRate(b.interestRate), UserLoans.Term(b.period)),
                   UserLoans.Term(b.period)) as real
    ensures r.Some? && JsNum.Truthy(b.totalWithInterest) ==> r.value.totalWithInterest == b.totalWithInterest.value
    ensures r.Some? && JsNum.Truthy(b.monthlyPayment) ==>
      b.monthlyPayment.Num? && r.value.monthlyPayment == b.monthlyPayment.value
    ensures r.Some? && !JsNum.Truthy(b.monthlyPayment) ==>
      r.value.monthlyPayment ==
        JsNum.Round(emi(FinalAmount(b).value, MonthlyRate(b.interestRate), UserLoans.Term(b.period))) as real
    ensures r.Some? && b.payoffDate.Some? ==> r.value.payoffDate == b.payoffDate.value
    ensures r.Some? && b.payoffDate.None? ==> r.value.payoffDate == AddMonths(now, UserLoans.Term(b.period))
    ensures r.Some? && b.status.Some? && b.status.value != "" ==> StatusName(r.value.status) == b.status.value
    ensures r.Some? && !(b.status.Some? && b.status.value != "") ==> r.value.status == Pending
    ensures r.Some? ==> r.value.loanId == b.loanId.GetOr(loanId)
    ensures r.Some? ==> r.value.title == b.title.GetOr(DefaultTitle)
    ensures r.Some? ==> r.value.lastFourDigits == b.lastFourDigits.GetOr(DefaultLastFourDigits)
    ensures r.Some? ==> r.value.period == b.period.value && r.value.disbursementDate == b.disbursementDate
  {
    var amount := FinalAmount(b).value;
    var n := UserLoans.Term(b.period);
    var e := emi(amount, MonthlyRate(b.interestRate), n);
    var category := CastCategory(b.category, DefaultCategory);
    var status := CastStatus(Some(JsText.TextOr(b.status, "Pending")), DefaultStatus);
    var principal := CastNumber(b.principalRequested, 0.0);
    var paid := CastNumber(b.paidAmount, 0.0);
    var total := CastNumber(JsNum.Or(b.totalWithInterest, JsNum.Num(AdminTotal(e, n) as real, false)), 0.0);
    var monthly := CastNumber(JsNum.Or(b.monthlyPayment, JsNum.Num(JsNum.Round(e) as real, false)), 0.0);
    var id := b.loanId.GetOr(loanId);
    if b.period.None? || b.period.value == "" || id == "" || category.None? || status.None? ||
       principal.None? || paid.None? || total.None? || monthly.None?
    then None
    else Some(Loan(
      key := key,
      userId := b.userId.value,
      studentId := b.studentId,
      partnerId := b.partnerId,
      loanId := id,
      title := b.title.GetOr(DefaultTitle),
      category := category.value,
      principalRequested := principal.value,
      totalAmount := amount,
      totalWithInterest := total.value,
      paidAmount := paid.value,
      monthlyPayment := monthly.value,
      interestRate := JsNum.NumberOr(b.interestRate, DefaultInterestRate),
      period := b.period.value,
      payoffDate := if b.payoffDate.Some? then b.payoffDate.value else AddMonths(now, n),
      disbursementDate := b.disbursementDate,
      lastFourDigits := b.lastFourDigits.GetOr(DefaultLastFourDigits),
      status := status.value))
  }

  /** What createLoan answers: 400 past the guard, 500 when the document
      cannot be stored (see `Created`, a `min: 0` bound, a taken `loanId`),
      otherwise 201 with the new loan. */
  function Creation(loans: seq<Loan>, b: LoanBody, key: Id, loanId: string, now: Date, emi: UserLoans.EmiFormula): (r: UserLoans.Reply)
    ensures r.created.Some? <==> r.code == 201
    ensures r.code == 400 <==> MissingUserOrAmount(b)
    ensures r.code == 201 || r.code == 400 || r.code == 500
    ensures r.code == 201 ==>
      r.created == Created(b, key, loanId, now, emi) && SchemaValid(r.created.value) &&
      !Store.LoanIdTaken(loans, r.created.value.loanId)
    ensures r.code == 500 ==>
      Created(b, key, loanId, now, emi).None? ||
      !SchemaValid(Created(b, key, loanId, now, emi).value) ||
      Store.LoanIdTaken(loans, Created(b, key, loanId, now, emi).value.loanId)
  {
    if MissingUserOrAmount(b) then UserLoans.Reply(400, None)
    else match Created(b, key, loanId, now, emi)
      case None => UserLoans.Reply(500, None)
      case Some(l) =>
        if SchemaValid(l) && !Store.LoanIdTaken(loans, l.loanId) then UserLoans.Reply(201, Some(l))
        else UserLoans.Reply(500, None)
  }

  /** A body that gives the total, the instalment and the payoff date
      overrides everything createLoan computes: the stored loan depends
      neither on the formula nor on the clock. */
  lemma BodyOverridesComputedFields(b: LoanBody, key: Id, loanId: string, now1: Date, now2: Date,
                                    emi1: UserLoans.EmiFormula, emi2: UserLoans.EmiFormula)
    requires !MissingUserOrAmount(b)
    requires JsNum.Truthy(b.totalWithInterest) && JsNum.Truthy(b.monthlyPayment) && b.payoffDate.Some?
    ensures Created(b, key, loanId, now1, emi1) == Created(b, key, loanId, now2, emi2)
  {
  }

  /** A body without a period never creates a loan, although the term
      silently falls back to 12 months in the arithmetic. */
  lemma CreateWithoutPeriodFails(loans: seq<Loan>, b: LoanBody, key: Id, loanId: string, now: Date, emi: UserLoans.EmiFormula)
    requires b.period.None?
    ensures Creation(loans, b, key, loanId, now, emi).created.None?
  {
  }

  /** A loan created here starts with the principal, not the total with
      interest, as its live balance; as soon as interest is charged the live
      balance does not match the snapshot. */
  lemma CreatedBalanceIsPrincipal(loans: seq<Loan>, b: LoanBody, key: Id, loanId: string, now: Date, emi: UserLoans.EmiFormula)
    requires Creation(loans, b, key, loanId, now, emi).code == 201
    requires b.paidAmount.Missing?
    requires Creation(loans, b, key, loanId, now, emi).created.value.totalWithInterest > FinalAmount(b).value
    ensures !LiveBalanceTracksSnapshot(Creation(loans, b, key, loanId, now, emi).created.value)
  {
    var l := Creation(loans, b, key, loanId, now, emi).created.value;
    assert RemainingBalance(l) == l.totalWithInterest;
  }

  /** The guard reads the amount after `||`: the text "0" is truthy, so
      `requestedAmount` is not consulted, and it reads as zero, so the body is
      refused; the number 0 falls through to `requestedAmount` instead. */
  lemma ZeroAmountTextRefused(b: LoanBody)
    requires b.totalAmount == JsNum.Num(0.0, true)
    requires b.userId.Some? && b.userId.value != ""
    requires b.requestedAmount.Num? && b.requestedAmount.value != 0.0
    ensures MissingUserOrAmount(b)
    ensures !MissingUserOrAmount(b.(totalAmount := JsNum.Num(0.0, false)))
  {
  }

  /** A total or instalment sent as the text "0" is truthy, so it is stored
      as zero in place of the computed value. */
  lemma ZeroTextOverridesComputedTotals(b: LoanBody, key: Id, loanId: string, now: Date, emi: UserLoans.EmiFormula)
    requires !MissingUserOrAmount(b)
    requires b.totalWithInterest == JsNum.Num(0.0, true) && b.monthlyPayment == JsNum.Num(0.0, true)
    requires Created(b, key, loanId, now, emi).Some?
    ensures Created(b, key, loanId, now, emi).value.totalWithInterest == 0.0
    ensures Created(b, key, loanId, now, emi).value.monthlyPayment == 0.0
  {
  }

  /** The two creation paths round differently: the borrower's path rounds
      the instalment and multiplies, this one rounds the product. With an
      instalment of 100.4 over 12 months the totals are 1200 and 1205. */
  lemma TotalsDivergeBetweenPaths()
    ensures exists emiValue: real, n: int ::
      n == 12 && UserLoans.TotalDebt(JsNum.Round(emiValue), n) != AdminTotal(emiValue, n)
  {
    var emiValue := 100.4;
    assert JsNum.Round(emiValue) == 100;
    assert AdminTotal(emiValue, 12) == 1205;
    assert UserLoans.TotalDebt(100, 12) == 1200;
  }

  /** `req.body.status === "Disbursed" && !req.body.disbursementDate`: the
      patch after the date stamp. */
  function Stamped(p: LoanBody, now: Date): (r: LoanBody)
    ensures p.status == Some("Disbursed") && p.disbursementDate.None? ==> r == p.(disbursementDate := Some(now))
    ensures !(p.status == Some("Disbursed") && p.disbursementDate.None?) ==> r == p
  {
    if p.status == Some("Disbursed") && p.disbursementDate.None? then p.(disbursementDate := Some(now)) else p
  }

  /** `$set` of a patch with `runValidators`: every field the patch names
      replaces the stored one; absent fields stay. None when a named field
      fails its cast or validator (enum, `min: 0`, a required text set
      empty); only the named paths are validated, so a stored value that
      already breaks a bound does not block the update. The
      `requestedAmount` field is not a path of the schema and is dropped. */
  function Patched(l: Loan, p: LoanBody): (r: Option<Loan>)
    ensures r.None? <==>
      (p.userId.Some? && p.userId.value == "") ||
      (p.loanId.Some? && p.loanId.value == "") ||
      (p.period.Some? && p.period.value == "") ||
      CastCategory(p.category, l.category).None? || CastStatus(p.status, l.status).None? ||
      p.principalRequested.Garbage? || p.totalAmount.Garbage? || p.totalWithInterest.Garbage? ||
      p.paidAmount.Garbage? || p.monthlyPayment.Garbage? || p.interestRate.Garbage? ||
      (p.principalRequested.Num? && p.principalRequested.value < 0.0) ||
      (p.totalAmount.Num? && p.totalAmount.value < 0.0) ||
      (p.paidAmount.Num? && p.paidAmount.value < 0.0)
    ensures r.Some? ==> r.value.key == l.key
    ensures r.Some? && p.status.Some? ==> StatusName(r.value.status) == p.status.value
    ensures r.Some? && p.status.None? ==> r.value.status == l.status
    ensures r.Some? && p.disbursementDate.Some? ==> r.value.disbursementDate == p.disbursementDate
    ensures r.Some? && p.disbursementDate.None? ==> r.value.disbursementDate == l.disbursementDate
    ensures r.Some? && p.paidAmount.Missing? && p.totalAmount.Missing? && p.totalWithInterest.Missing? ==>
      r.value.paidAmount == l.paidAmount && r.value.totalAmount == l.totalAmount &&
      r.value.totalWithInterest == l.totalWithInterest
  {
    var category := CastCategory(p.category, l.category);
    var status := CastStatus(p.status, l.status);
    var principal := CastNumber(p.principalRequested, l.principalRequested);
    var total := CastNumber(p.totalAmount, l.totalAmount);
    var twi := CastNumber(p.totalWithInterest, l.totalWithInterest);
    var paid := CastNumber(p.paidAmount, l.paidAmount);
    var monthly := CastNumber(p.monthlyPayment, l.monthlyPayment);
    var rate := CastNumber(p.interestRate, l.interestRate);
    if (p.userId.Some? && p.userId.value == "") || (p.loanId.Some? && p.loanId.value == "") ||
       (p.period.Some? && p.period.value == "") ||
       category.None? || status.None? || principal.None? || total.None? || twi.None? ||
       paid.None? || monthly.None? || rate.None? ||
       (p.principalRequested.Num? && principal.value < 0.0) ||
       (p.totalAmount.Num? && total.value < 0.0) || (p.paidAmount.Num? && paid.value < 0.0)
    then None
    else Some(l.(
      userId := p.userId.GetOr(l.userId),
      studentId := if p.studentId.Some? then p.studentId else l.studentId,
      partnerId := if p.partnerId.Some? then p.partnerId else l.partnerId,
      loanId := p.loanId.GetOr(l.loanId),
      title := p.title.GetOr(l.title),
      category := category.value,
      principalRequested := principal.value,
      totalAmount := total.value,
      totalWithInterest := twi.value,
      paidAmount := paid.value,
      monthlyPayment := monthly.value,
      interestRate := rate.value,
      period := p.period.GetOr(l.period),
      payoffDate := p.payoffDate.GetOr(l.payoffDate),
      disbursementDate := if p.disbursementDate.Some? then p.disbursementDate else l.disbursementDate,
      lastFourDigits := p.lastFourDigits.GetOr(l.lastFourDigits),
      status := status.value))
  }

  /** An empty patch changes nothing. */
  lemma EmptyPatchChangesNothing(l: Loan)
    ensures Patched(l, EmptyBody) == Some(l)
  {
  }

  /** A patch that validates sets exactly the fields it names, to the values
      it gives, and leaves every other field as it was. */
  lemma PatchSetsOnlyNamedFields(l: Loan, p: LoanBody)
    requires Patched(l, p).Some?
    ensures var u := Patched(l, p).value;
      u.key == l.key &&
      u.studentId == (if p.studentId.Some? then p.studentId else l.studentId) &&
      u.partnerId == (if p.partnerId.Some? then p.partnerId else l.partnerId) &&
      u.userId == p.userId.GetOr(l.userId) && u.loanId == p.loanId.GetOr(l.loanId) &&
      u.title == p.title.GetOr(l.title) && u.period == p.period.GetOr(l.period) &&
      u.payoffDate == p.payoffDate.GetOr(l.payoffDate) && u.lastFourDigits == p.lastFourDigits.GetOr(l.lastFourDigits)
    ensures var u := Patched(l, p).value;
      CastNumber(p.principalRequested, l.principalRequested) == Some(u.principalRequested) &&
      CastNumber(p.totalAmount, l.totalAmount) == Some(u.totalAmount) &&
      CastNumber(p.totalWithInterest, l.totalWithInterest) == Some(u.totalWithInterest) &&
      CastNumber(p.paidAmount, l.paidAmount) == Some(u.paidAmount) &&
      CastNumber(p.monthlyPayment, l.monthlyPayment) == Some(u.monthlyPayment) &&
      CastNumber(p.interestRate, l.interestRate) == Some(u.interestRate)
    ensures var u := Patched(l, p).value;
      (p.category.None? ==> u.category == l.category) &&
      (p.category.Some? ==> CategoryName(u.category) == p.category.value)
  {
  }

  /** A loan an update marks Disbursed has a next payment date: the date the
      patch gives, or else the moment of the update, plus one month. */
  lemma DisbursedUpdateSchedulesNextPayment(l: Loan, p: LoanBody, now: Date)
    requires p.status == Some("Disbursed")
    requires Patched(l, Stamped(p, now)).Some?
    ensures NextPaymentDate(Patched(l, Stamped(p, now)).value).Some?
    ensures p.disbursementDate.None? ==>
      NextPaymentDate(Patched(l, Stamped(p, now)).value) == Some(AddMonths(now, 1))
  {
    var u := Patched(l, Stamped(p, now)).value;
    assert StatusName(u.status) == "Disbursed";
  }

  /** updateLoan: 404 for an unknown loan, 500 when the patch fails
      validation or sets a `loanId` another loan carries (the unique index
      refuses it; nothing is written), otherwise 200 with the patched loan
      stored in place. `now` stands for the clock. */
  method UpdateLoan(db: Store.Db, loanKey: Id, patch: LoanBody, now: Date) returns (code: int, updated: Option<Loan>)
    modifies db`loans
    ensures Store.FindLoan(old(db.loans), loanKey).None? ==> code == 404 && updated.None? && db.loans == old(db.loans)
    ensures Store.FindLoan(old(db.loans), loanKey).Some? ==>
      var i := Store.FindLoan(old(db.loans), loanKey).value;
      var r := Patched(old(db.loans)[i], Stamped(patch, now));
      if r.None? || Store.LoanIdTakenByOther(old(db.loans), i, r.value.loanId) then
        code == 500 && updated.None? && db.loans == old(db.loans)
      else code == 200 && updated == r && db.loans == old(db.loans)[i := r.value]
    ensures Store.LoanIdsDistinct(old(db.loans)) ==> Store.LoanIdsDistinct(db.loans)
  {
    var found := Store.FindLoan(db.loans, loanKey);
    if found.None? {
      return 404, None;
    }
    var body := patch;
    if body.status == Some("Disbursed") && body.disbursementDate.None? {
      body := body.(disbursementDate := Some(now));
    }
    var r := Patched(db.loans[found.value], body);
    if r.None? || Store.LoanIdTakenByOther(db.loans, found.value, r.value.loanId) {
      return 500, None;
    }
    if Store.LoanIdsDistinct(db.loans) {
      Store.ReplaceKeepsLoanIdsDistinct(db.loans, found.value, r.value);
    }
    db.loans := db.loans[found.value := r.value];
    code, updated := 200, r;
  }
}
