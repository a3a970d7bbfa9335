/** The loan record of src/models/loan.js: its fields, its two enums, the
    schema's bounds and defaults, and its derived (virtual) values. */
module LoanModel {
  import opened Options
  import JsNum

  /** A database object id. */
  type Id = string

  datatype Category = Education | Primary | Business | RecruitByChoice | Car | Home | Personal | Other

  /** The text of a category, as stored and as spliced into messages. */
  function CategoryName(c: Category): string
  {
    match c
    case Education => "Education"
    case Primary => "Primary"
    case Business => "Business"
    case RecruitByChoice => "Recruit by Choice"
    case Car => "Car"
    case Home => "Home"
    case Personal => "Personal"
    case Other => "Other"
  }

  /** The category a request names, when it is one of the enum's values. */
  function CategoryOf(t: string): (r: Option<Category>)
    ensures r.Some? ==> CategoryName(r.value) == t
    ensures r.None? ==> forall c :: CategoryName(c) != t
  {
    if t == "Education" then Some(Education)
    else if t == "Primary" then Some(Primary)
    else if t == "Business" then Some(Business)
    else if t == "Recruit by Choice" then Some(RecruitByChoice)
    else if t == "Car" then Some(Car)
    else if t == "Home" then Some(Home)
    else if t == "Personal" then Some(Personal)
    else if t == "Other" then Some(Other)
    else None
  }

  /** Every category's text is read back as that category. */
  lemma CategoryOfName(c: Category)
    ensures CategoryOf(CategoryName(c)) == Some(c)
  {
  }

  datatype Status = Pending | Reviewing | Approved | Active | Rejected | Disbursed | Closed | Completed

  /** The text of a status, as stored and as sent to clients. */
  function StatusName(s: Status): string
  {
    match s
    case Pending => "Pending"
    case Reviewing => "Reviewing"
    case Approved => "Approved"
    case Active => "Active"
    case Rejected => "Rejected"
    case Disbursed => "Disbursed"
    case Closed => "Closed"
    case Completed => "Completed"
  }

  /** The status a request names, when it is one of the enum's values. */
  function StatusOf(t: string): (r: Option<Status>)
    ensures r.Some? ==> StatusName(r.value) == t
    ensures r.None? ==> forall s :: StatusName(s) != t
  {
    if t == "Pending" then Some(Pending)
    else if t == "Reviewing" then Some(Reviewing)
    else if t == "Approved" then Some(Approved)
    else if t == "Active" then Some(Active)
    else if t == "Rejected" then Some(Rejected)
    else if t == "Disbursed" then Some(Disbursed)
    else if t == "Closed" then Some(Closed)
    else if t == "Completed" then Some(Completed)
    else None
  }

  /** Every status's text is read back as that status. */
  lemma StatusOfName(s: Status)
    ensures StatusOf(StatusName(s)) == Some(s)
  {
  }

  const DefaultCategory: Category := Education
  const DefaultStatus: Status := Pending
  const DefaultInterestRate: real := 2.5
  const DefaultTitle: string := "New Loan Application"
  const DefaultLastFourDigits: string := "0000"

  /** Gregorian leap years. */
  predicate LeapYear(y: int)
  {
    (y % 4 == 0 && y % 100 != 0) || y % 400 == 0
  }

  /** The length of month `m`, counted in months from January 1970 (so
      `m % 12 == 0` is a January and `m % 12 == 1` a February). */
  function DaysInMonth(m: int): (r: nat)
    ensures 28 <= r <= 31
    ensures r == 28 <==> m % 12 == 1 && !LeapYear(1970 + m / 12)
  {
    var year, month := 1970 + m / 12, m % 12;
    if month == 1 then (if LeapYear(year) then 29 else 28)
    else if month == 3 || month == 5 || month == 8 || month == 10 then 30
    else 31
  }

  /** A calendar instant: the month (counted from January 1970), the day of
      that month from 1, and the milliseconds into that day. */
  datatype Moment = Date(month: int, day: nat, time: nat)

  /** Only days the month has: the dates a JavaScript `Date` can hold. */
  type Date = d: Moment | 1 <= d.day <= DaysInMonth(d.month) witness Date(0, 1, 0)

  /** `d` is no later than `e`. */
  predicate NotAfter(d: Date, e: Date)
  {
    d.month < e.month || (d.month == e.month && (d.day < e.day || (d.day == e.day && d.time <= e.time)))
  }

  /** `date.setMonth(date.getMonth() + k)`: the day of the month is kept,
      and a day the target month lacks runs over into the next month
      (January 31 plus one month is March 2 or 3). */
  function AddMonths(d: Date, k: int): (r: Date)
    ensures r.time == d.time
    ensures d.day <= DaysInMonth(d.month + k) ==> r.month == d.month + k && r.day == d.day
    ensures d.day > DaysInMonth(d.month + k) ==>
      r.month == d.month + k + 1 && r.day == d.day - DaysInMonth(d.month + k)
  {
    var target := d.month + k;
    if d.day <= DaysInMonth(target) then Date(target, d.day, d.time)
    else Date(target + 1, d.day - DaysInMonth(target), d.time)
  }

  /** One stored loan document. `key` is the document's `_id`; `loanId` is the
      human-readable "LN......" reference. */
  datatype Loan = Loan(
    key: Id,
    userId: Id,
    studentId: Option<Id>,
    partnerId: Option<Id>,
    loanId: string,
    title: string,
    category: Category,
    principalRequested: real,   // permanent: the amount borrowed
    totalAmount: real,          // live: the remaining debt
    totalWithInterest: real,    // permanent: what is to be paid back in all
    paidAmount: real,           // live: what has been paid so far
    monthlyPayment: real,
    interestRate: real,
    period: string,
    payoffDate: Date,
    disbursementDate: Option<Date>,
    lastFourDigits: string,
    status: Status)

  /** The `min: 0` validators of the schema: principal, live balance and paid
      amount may not be negative. Saving a document that breaks one fails. */
  predicate SchemaValid(l: Loan)
  {
    l.principalRequested >= 0.0 && l.totalAmount >= 0.0 && l.paidAmount >= 0.0
  }

  /** Virtual `progress`: the paid share of the total debt in whole percent,
      capped at 100, and 0 when there is no total. */
  function Progress(l: Loan): (r: int)
    ensures r <= 100
    ensures l.totalWithInterest == 0.0 ==> r == 0
    ensures l.totalWithInterest > 0.0 && l.paidAmount >= 0.0 ==> r >= 0
    ensures l.totalWithInterest > 0.0 && l.paidAmount >= l.totalWithInterest ==> r == 100
  {
    if l.totalWithInterest == 0.0 then 0
    else
      var percentage := l.paidAmount / l.totalWithInterest * 100.0;
      assert l.totalWithInterest > 0.0 && l.paidAmount >= 0.0 ==> percentage >= 0.0;
      assert l.totalWithInterest > 0.0 && l.paidAmount >= l.totalWithInterest ==> percentage >= 100.0;
      JsNum.MinInt(JsNum.Round(percentage), 100)
  }

  /** Virtual `remainingBalance`: what is still owed, never negative, and zero
      exactly when the payments cover the total. */
  function RemainingBalance(l: Loan): (r: real)
    ensures r >= 0.0
    ensures r == 0.0 <==> l.paidAmount >= l.totalWithInterest
    ensures r > 0.0 ==> r + l.paidAmount == l.totalWithInterest
  {
    JsNum.Max(0.0, l.totalWithInterest - l.paidAmount)
  }

  /** Virtual `requestedAmount`: the principal snapshot under its UI name. */
  function RequestedAmount(l: Loan): real
  {
    l.principalRequested
  }

  /** Virtual `totalInterestAmount`: the interest part of the total debt. */
  function TotalInterestAmount(l: Loan): (r: real)
    ensures RequestedAmount(l) + r == l.totalWithInterest
  {
    l.totalWithInterest - l.principalRequested
  }

  /** Virtual `nextPaymentDate`: absent until the loan has a disbursement
      date, then one month after it. */
  function NextPaymentDate(l: Loan): (r: Option<Date>)
    ensures r.Some? <==> l.disbursementDate.Some?
    ensures r.Some? ==> var d := l.disbursementDate.value;
      r.value.time == d.time &&
      ((r.value.month == d.month + 1 && r.value.day == d.day) ||
       (r.value.month == d.month + 2 && r.value.day <= 3 && d.day > 28))
  {
    match l.disbursementDate
    case None => None
    case Some(d) => Some(AddMonths(d, 1))
  }

  /** A day the target month has is kept: a loan disbursed on the 28th or
      earlier is next due on the same day of the following month. */
  lemma EarlyDayIsKept(d: Date, k: int)
    requires d.day <= 28
    ensures AddMonths(d, k) == Date(d.month + k, d.day, d.time)
  {
  }

  /** The day overflow of `setMonth`: January 31, 2025 plus one month is
      March 3, 2025, and in the leap year 2024 it is March 2. */
  lemma EndOfJanuaryRunsIntoMarch()
    ensures AddMonths(Date(660, 31, 0), 1) == Date(662, 3, 0)
    ensures AddMonths(Date(648, 31, 0), 1) == Date(650, 2, 0)
  {
    assert 661 / 12 == 55 && 661 % 12 == 1 && !LeapYear(2025);
    assert 649 / 12 == 54 && 649 % 12 == 1 && LeapYear(2024);
  }

  /** The invariant the repayment design intends: the live balance is the
      snapshot total minus what has been paid, never below zero. */
  predicate LiveBalanceTracksSnapshot(l: Loan)
  {
    l.totalAmount == RemainingBalance(l)
  }

  /** A loan that is fully paid shows full progress. */
  lemma PaidOffShowsFullProgress(l: Loan)
    requires l.totalWithInterest > 0.0
    requires RemainingBalance(l) == 0.0
    ensures Progress(l) == 100
  {
  }

  /** The converse fails: progress is rounded, so 99.5% paid already shows 100
      while a balance is still owed. */
  lemma FullProgressWithBalanceLeft()
    ensures exists l: Loan :: Progress(l) == 100 && RemainingBalance(l) > 0.0
  {
    var l := Loan("k", "u", None, None, "LN100000", DefaultTitle, Education,
                  1000.0, 5.0, 1000.0, 995.0, 0.0, 2.5, "12 Months", Date(0, 1, 0), None, "0000", Pending);
    assert 995.0 / 1000.0 * 100.0 == 99.5;
    assert Progress(l) == 100;
  }
}
