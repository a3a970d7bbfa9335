# Pilot Finance loan back end: repayment, ledger and decision rules

This project models the core of the Pilot Finance back end, an Express and
Mongoose service for student loans. The model covers:

- the loan record and its derived values: progress, remaining balance,
  interest and next payment date;
- the borrower's loan request, which builds the initial snapshot: principal,
  total with interest, live balance and nothing paid;
- the two repayment paths, `repayLoan` and `processPayment`, and the Debit
  each writes to the ledger;
- the administrator's loan creation and partial update;
- the finance ledger: its balance, its newest-first listing, withdrawals
  with and without a balance check, and capital inflows (funds);
- the borrower's dashboard and the recruitment partner's views, including
  linking a student to a partner;
- the signature documents, the KYC steps, the upload storage rules, the
  account handlers and the route guards.

The database is a class, `Store.Db`, with one sequence per collection in
insertion order, which is also creation order. Handlers that write are
methods on it. Each method's `ensures` states the whole new state in terms of
a specification function, and lemmas state the properties of those
functions.

Some inputs are parameters of the model rather than computed:

- the clock and the values of `Math.random()`;
- new document ids;
- what the JWT library makes of a token, and what a user lookup returns;
- whether the mail server accepts a message;
- the EMI (annuity) formula.

Money is `real`. `Math.round(x)` is `(x + 0.5).Floor`. A numeric request
field is `Missing`, `Garbage` (text that is not a number) or `Num(v, text)`,
where `text` says whether the number arrived as non-empty text such as "0",
which JavaScript's `||` treats as true although it reads as zero. That is
enough to follow `||`, `Number(...)` and comparisons in the handlers that
take such a field: a NaN reaching a Mongoose Number path fails the save. Dates are Gregorian calendar dates (month, day of the month, time
of day), so adding months follows `setMonth`, including its day overflow.

## Model

| member | source | states |
|---|---|---|
| LoanModel.CategoryOf | src/models/loan.js:35-48 | a category text is accepted exactly when it is one of the eight enum values, and is read as that value |
| LoanModel.CategoryOfName | src/models/loan.js:35-48 | every category's stored text reads back as the same category |
| LoanModel.StatusOf | src/models/loan.js:105-118 | a status text is accepted exactly when it is one of the eight enum values |
| LoanModel.StatusOfName | src/models/loan.js:105-118 | every status's stored text reads back as the same status |
| LoanModel.Progress | src/models/loan.js:132-136 | progress never exceeds 100, is 0 without a total, is not negative for a non-negative paid amount, and is exactly 100 once the payments cover the total |
| LoanModel.RemainingBalance | src/models/loan.js:139-142 | the remaining balance is never negative, is zero exactly when the paid amount reaches the total, and otherwise adds up with the paid amount to the total |
| LoanModel.TotalInterestAmount | src/models/loan.js:145-152 | requested amount (the principal) plus interest equals the total with interest |
| LoanModel.NextPaymentDate | src/models/loan.js:158-163 | there is a next payment date exactly when there is a disbursement date; it is the same day of the next month, or, for a day after the 28th that the next month lacks, one of the first three days of the month after, at the same time of day |
| LoanModel.AddMonths | src/controllers/user/loanController.js:60-61 | `setMonth(getMonth() + k)` keeps the time and the day of the month when the target month has that day, and otherwise runs the surplus days into the following month |
| LoanModel.DaysInMonth | src/controllers/admin/loanController.js:31-32 | every month has 28 to 31 days, and 28 exactly for a February outside a Gregorian leap year |
| LoanModel.EarlyDayIsKept | src/controllers/user/loanController.js:60-61 | a date on the 28th or earlier moves by exactly k months and keeps its day |
| LoanModel.EndOfJanuaryRunsIntoMarch | src/models/loan.js:158-163 | January 31 plus one month is March 3 in 2025 and March 2 in the leap year 2024 |
| LoanModel.PaidOffShowsFullProgress | src/models/loan.js:132-142 | a loan with a positive total and nothing remaining shows 100% progress |
| LoanModel.FullProgressWithBalanceLeft | src/models/loan.js:132-142 | the converse fails: rounding shows 100% while a balance is still owed (995 paid of 1000) |
| UserLoans.Term | src/controllers/user/loanController.js:44 | the term is never 0, and is 12 when the period is missing or does not start with a number |
| UserLoans.TermOfPeriodText | src/controllers/user/loanController.js:76 | the stored period text "n Months" parses back to the term n it was built from |
| UserLoans.MonthlyRate | src/controllers/user/loanController.js:46 | the rate is the one sent when it is truthy (so the text "0" gives a zero rate), 2.5% otherwise, and NaN exactly for text that is not a number |
| UserLoans.EmiValue | src/controllers/user/loanController.js:54 | the formula's value is NaN exactly when the rate is NaN or zero, where numerator and denominator are both zero |
| UserLoans.MonthlyPayment | src/controllers/user/loanController.js:55-57 | the instalment is the rounded client value when that is truthy (numeric text "0" included), otherwise the rounded formula value; it is NaN, and cannot be stored, exactly for text that is not a number or for a NaN formula with no truthy client value |
| UserLoans.TotalDebt | src/controllers/user/loanController.js:58 | the total with interest is exactly instalment times term |
| UserLoans.Snapshot | src/controllers/user/loanController.js:44-80 | the save fails exactly on a category outside the enum, a rate or instalment that is text but not a number, or a zero rate with no truthy instalment from the client; the stored category is the one sent, Education by default; a truthy client instalment is stored rounded, otherwise the rounded formula value at the borrower's rate; the stored rate is `interestRate || 2.5`; a new loan is Pending, and its principal is the requested amount, its total is instalment times term, its live balance equals that total and nothing is paid; title and last four digits follow their defaults; the payoff date is now plus n months by `setMonth`, day overflow included; a snapshot whose total is not negative keeps the live-balance invariant |
| UserLoans.Submission | src/controllers/user/loanController.js:30-93 | the answer is 400 exactly for a request the category guard matches (a Pending loan of the user in that category, or in any category when the request has none) or a non-numeric principal; 201 only with the snapshot, which passes the `min: 0` validators and has a free `loanId`; otherwise 500 |
| UserLoans.SecondRequestRejected | src/controllers/user/loanController.js:31-41 | once a request with a category, or with none, is granted, the same user's next request with the same category is refused with 400 |
| UserLoans.EmptyCategoryNeverBlocked | src/controllers/user/loanController.js:31-35 | a request whose category is the empty text is never blocked, since no stored loan has that category |
| UserLoans.UncategorisedRequestBlockedByAnyPending | src/controllers/user/loanController.js:31-35 | a request without a category is blocked exactly when the user has a Pending loan of any category, so whenever a request in some category would be |
| UserLoans.SubmitLoanRequest | src/controllers/user/loanController.js:63-82 | exactly the loan `Submission` creates is appended, and nothing is stored otherwise; no two stored loans come to share a `loanId` |
| UserLoans.ZeroRateTextFailsWithoutInstalment | src/controllers/user/loanController.js:46-57 | a rate sent as the text "0" with no instalment from the client makes the formula NaN and the request fail with 500, whereas the number 0 falls back to 2.5% |
| UserLoans.ZeroInstalmentTextOwesNothing | src/controllers/user/loanController.js:55-74 | an instalment sent as the text "0" wins over the formula, and the loan is stored with instalment and total zero |
| UserLoans.Repay | src/controllers/user/loanController.js:142-153 | the paid amount grows by exactly the payment, the live balance becomes the total minus paid and never negative, the status becomes Completed exactly when the balance reaches 0 (or stays Completed), and no other field changes |
| UserLoans.RepayEntry | src/controllers/user/loanController.js:158-165 | the recorded entry is a Debit of the payment owned by the caller |
| UserLoans.RepayLoan | src/controllers/user/loanController.js:131-178 | 404 and no write for an unknown loan; 500 and no write for an amount that is not a number (the NaN fails the save); otherwise the loan is updated in place (500 with no write if it breaks a bound), then one Debit is appended (500 if its id is taken) and the new balance is returned |
| Payments.Pay | src/controllers/user/paymentController.js:31-38 | a payment within 0.5 of the total completes the loan with the paid amount clamped to the total; otherwise the paid amount grows by the payment; only those two fields change, and paid never exceeds the total |
| Payments.RemainingAfterPay | src/controllers/user/paymentController.js:35-58 | the reported remainder is 0 on completion and more than 0.5 otherwise |
| Payments.FindOwnedLoan | src/controllers/user/paymentController.js:14 | the loan found is the first one of the caller with the id (with any id when none is given), or there is no such loan |
| Payments.MissingLoanIdPaysFirstLoan | src/controllers/user/paymentController.js:10-14 | a payment without a `loanId` is applied to the caller's first loan |
| Payments.PaymentEntry | src/controllers/user/paymentController.js:41-49 | the recorded entry is a Debit of the payment owned by the caller |
| Payments.ProcessPayment | src/controllers/user/paymentController.js:8-71 | 404 without a loan of the caller matching the id (any of its loans when none is given), 400 for a Completed loan, 500 for an amount that is not a number, all with no write; otherwise the Debit is appended before the loan is saved, so a failed save keeps the Debit |
| RepaymentPaths.RepayAllAccumulates | src/controllers/user/loanController.js:142-153 | across any run of repayments the paid amount accumulates every payment, principal and total are unchanged, and the live balance tracks the total minus paid |
| RepaymentPaths.RepaymentsCoveringTheDebtComplete | src/controllers/user/loanController.js:148-153 | repayments that add up to the debt bring the live balance to exactly 0 and complete the loan |
| RepaymentPaths.RepayAllLastStep | src/controllers/user/loanController.js:151-153 | after a non-empty run of repayments a zero balance means Completed |
| RepaymentPaths.PayAllKeepsBounds | src/controllers/user/paymentController.js:31-38 | across any run of payments paid never exceeds the total, and live balance, principal and total are never changed |
| RepaymentPaths.PaymentsCoveringTheDebtComplete | src/controllers/user/paymentController.js:35-38 | non-negative payments that come within 0.5 of the debt complete the loan with paid equal to the total |
| RepaymentPaths.PayAllSettles | src/controllers/user/paymentController.js:35-38 | a run of payments that completes an open loan ends with paid equal to the total |
| RepaymentPaths.PaymentsLeaveLiveBalanceStale | src/controllers/user/paymentController.js:31-51 | a loan settled through this path still stores its full debt as the live balance, breaking the invariant `repayLoan` keeps |
| RepaymentPaths.ToleranceDivergence | src/controllers/user/paymentController.js:35-38 | on 99 paid of 100, a payment of 0.6 completes the loan here, while `repayLoan` leaves 0.4 owed and the loan open |
| RepaymentPaths.OverpaymentDivergence | src/controllers/user/paymentController.js:35-38 | an overpayment is recorded in full by `repayLoan` and clamped to the total here |
| AdminLoans.CastNumber | src/controllers/admin/loanController.js:34-42 | a Number path keeps its current value when the field is absent, takes a given number, and fails on text that is not a number |
| AdminLoans.CastCategory | src/models/loan.js:35-48 | an update or create may set the category only to a value of the enum |
| AdminLoans.CastStatus | src/models/loan.js:105-118 | an update or create may set the status only to a value of the enum |
| AdminLoans.FinalAmount | src/controllers/admin/loanController.js:12 | the amount is `totalAmount` when truthy, else `requestedAmount`, as a number or NaN |
| AdminLoans.AdminTotal | src/controllers/admin/loanController.js:27-29 | the total is the product of formula value and term rounded once, within 0.5 of it |
| AdminLoans.MonthlyRate | src/controllers/admin/loanController.js:24 | the administrator's rate is the number sent when it is a non-zero number, 2.5% otherwise, and never zero |
| AdminLoans.ZeroAmountTextRefused | src/controllers/admin/loanController.js:12-19 | an amount sent as the text "0" is refused with 400 even with a positive `requestedAmount`, which the number 0 would fall through to |
| AdminLoans.ZeroTextOverridesComputedTotals | src/controllers/admin/loanController.js:35-36 | a total and an instalment sent as the text "0" are stored as zero in place of the computed values |
| AdminLoans.Created | src/controllers/admin/loanController.js:22-42 | the stored category is the body's, Education by default; the body's total, instalment, payoff date and status override the computed ones, which are used only where the body gives none (status falls back to Pending, the payoff date to now plus n months); the principal and paid amount are the body's numbers, the student and partner ids, `loanId`, title and last four digits are copied or defaulted; the live balance is the final amount; the create fails exactly on a missing period, an empty `loanId`, an enum violation or a number path given text |
| AdminLoans.Creation | src/controllers/admin/loanController.js:8-56 | 400 exactly when the user or a non-zero amount is missing; 201 only with a valid loan under a free `loanId`; otherwise 500 |
| AdminLoans.BodyOverridesComputedFields | src/controllers/admin/loanController.js:34-42 | a body giving the total, the instalment and the payoff date creates the same loan whatever the formula and the clock |
| AdminLoans.CreateWithoutPeriodFails | src/models/loan.js:82-85 | a body without a period never creates a loan, although the arithmetic falls back to 12 months |
| AdminLoans.CreatedBalanceIsPrincipal | src/controllers/admin/loanController.js:36 | a created loan's live balance is the principal, so with interest charged it does not match the snapshot |
| AdminLoans.TotalsDivergeBetweenPaths | src/controllers/admin/loanController.js:27-29 | the admin path rounds the product and the borrower path rounds the instalment first: 1205 against 1200 for an instalment of 100.4 over 12 months |
| AdminLoans.Stamped | src/controllers/admin/loanController.js:74-76 | a patch to Disbursed without a date gets the current date, and any other patch is unchanged |
| AdminLoans.Patched | src/controllers/admin/loanController.js:78-82 | the update fails exactly when a named field breaks its cast, enum, `min: 0` or required rule; otherwise the named status and date are set and absent amounts are kept |
| AdminLoans.EmptyPatchChangesNothing | src/controllers/admin/loanController.js:78-82 | an empty patch leaves the loan as it was |
| AdminLoans.PatchSetsOnlyNamedFields | src/controllers/admin/loanController.js:78-82 | a valid patch sets every field it names (the student and partner ids included) to the value it gives and leaves every other field unchanged |
| AdminLoans.DisbursedUpdateSchedulesNextPayment | src/controllers/admin/loanController.js:74-76 | a loan updated to Disbursed has a next payment date, one month after the update when no date was given |
| AdminLoans.UpdateLoan | src/controllers/admin/loanController.js:61-96 | 404 and no write for an unknown id; 500 and no write when the patch fails or sets a `loanId` another loan carries (the unique index of src/models/loan.js:23-29); otherwise the patched loan replaces the stored one; no two stored loans come to share a `loanId` |
| Store.InsertKeepsLoanIdsDistinct | src/models/loan.js:23-29 | adding a loan to loans with distinct `loanId`s keeps them distinct exactly when its `loanId` is not taken |
| Store.ReplaceKeepsLoanIdsDistinct | src/models/loan.js:23-29 | replacing one loan keeps the `loanId`s distinct exactly when no other loan carries the new `loanId` |
| Ledger.Balance | src/controllers/admin/financeController.js:16-19 | the balance of an empty ledger is 0 |
| Ledger.BalanceIsCreditsMinusDebits | src/controllers/admin/financeController.js:17-19 | the balance fold equals the sum of Credits minus the sum of Debits (the same fold is at src/controllers/finance.controller.js:16-18) |
| Ledger.BalanceAfterAppend | src/controllers/admin/financeController.js:17-19 | appending a Credit of a raises the balance by a, and appending a Debit of a lowers it by a |
| Ledger.Listing | src/controllers/admin/financeController.js:6 | the listing holds the same entries, newest first |
| Ledger.ListingAfterAppend | src/controllers/admin/financeController.js:6 | a new entry heads the listing, ahead of everything listed before |
| Ledger.BalanceOfListing | src/controllers/admin/financeController.js:6-19 | listing the ledger newest first does not change its balance |
| Store.Db.CreateTransaction | src/models/transaction.model.js:7-11 | an entry is appended exactly when its `id` is not taken, and nothing is written otherwise |
| Finance.WithdrawalId | src/controllers/admin/financeController.js:47 | the id starts with "TXN-" and is at most ten characters long, the clock's last digits after the prefix |
| Finance.WithdrawalEntry | src/controllers/admin/financeController.js:46-53 | a withdrawal is an unowned Completed Debit of the amount |
| Finance.CheckedWithdrawalNeverOverdraws | src/controllers/admin/financeController.js:39-53 | a withdrawal the check admits lowers the balance by exactly the amount and never below 0 |
| Finance.NegativeWithdrawalRaisesBalance | src/controllers/admin/financeController.js:39 | the check admits a negative amount, and that withdrawal raises the balance |
| Finance.UncheckedWithdrawalCanOverdraw | src/controllers/finance.controller.js:28-39 | without the check, one withdrawal from an empty ledger leaves a balance of -1 |
| Finance.WithdrawChecked | src/controllers/admin/financeController.js:29-58 | 400 and no write when the amount exceeds the balance; otherwise exactly one Debit (500 and no write for a missing amount or a taken id); after a 201 the balance is not negative |
| Finance.WithdrawUnchecked | src/controllers/finance.controller.js:28-44 | exactly one Debit of the amount, with no balance check, lowering the balance by the amount |
| Funds.GuardLetsThroughPositiveOrText | src/controllers/admin/fundController.js:27-31 | the guard admits exactly positive numbers and text that is not a number |
| Funds.FundAsWritten | src/controllers/admin/fundController.js:34-39 | the fund the handler creates carries the amount as given (with status "Active" and no source) |
| Funds.FundAsWrittenIsNeverValid | src/models/fund.model.js:7-14 | that fund always breaks the fund schema |
| Funds.AddFundAsWritten | src/controllers/admin/fundController.js:22-61 | as written, every request ends in 400 with neither a fund nor a Credit stored |
| Funds.FundEntryId | src/controllers/admin/fundController.js:44 | the id starts with "TXN-FUND-" and is at most thirteen characters long, the clock's last digits after the prefix |
| Funds.FundEntry | src/controllers/admin/fundController.js:43-50 | the inflow is an unowned Credit of the amount, described with the name or "New Fund" and the category or "General" |
| Funds.IntendedFund | src/models/fund.model.js:7-14 | the corrected fund passes the schema, with the name as its source |
| Funds.AddFund | src/controllers/admin/fundController.js:22-61 | a missing, non-positive or non-numeric amount is 400 with no write; otherwise the fund is stored, and one Credit of the amount raises the balance by it (400 with the fund kept when the entry id is taken) |
| Dashboard.ApprovedLoans | src/controllers/user/dashboardController.js:10 | the counted loans are exactly the caller's Approved loans, in stored order |
| Dashboard.OverallProgress | src/controllers/user/dashboardController.js:23-24 | overall progress is 0 when nothing is owed, not negative for non-negative payments, and at least 100 once the payments cover the amount |
| Dashboard.LoanProgress | src/controllers/user/dashboardController.js:51-54 | per-loan progress is paid over the live balance: 0 when nothing is owed, at least 100 once the payments cover the live balance, with no cap |
| Dashboard.View | src/controllers/user/dashboardController.js:46-55 | a listed loan shows its id, period and live balance, with the name defaulting to "New Loan Application" |
| Dashboard.FurthestPayoff | src/controllers/user/dashboardController.js:27-38 | the payoff date is absent exactly when there is no Approved loan, and is otherwise the latest payoff date among them |
| Dashboard.Listed | src/controllers/user/dashboardController.js:46-55 | the list has one view per loan, in the same order |
| Dashboard.GetDashboardData | src/controllers/user/dashboardController.js:5-56 | the count, the list, the total live balance, the overall progress and the payoff date are all computed from the Approved loans only; the payoff date is the latest one among them and is absent exactly when there are none |
| Dashboard.OtherLoansDoNotCount | src/controllers/user/dashboardController.js:10 | a loan that is not one of the caller's Approved loans changes nothing on the dashboard |
| Dashboard.ApprovedLoanCounts | src/controllers/user/dashboardController.js:13-44 | a new Approved loan adds one to the count and its live balance to the total |
| Dashboard.ApprovedLoanListedLast | src/controllers/user/dashboardController.js:46-55 | a new Approved loan is listed last, after the others unchanged |
| Dashboard.ListedProgressExceedsHundred | src/controllers/user/dashboardController.js:51-54 | the list shows 150% for a loan whose own progress is 60% |
| Partners.AvailableStudents | src/controllers/recruitment/authController.js:170-172 | the pool is exactly the students no partner has claimed |
| Partners.Referred | src/controllers/recruitment/authController.js:278 | the partner's students are exactly those referred by the partner |
| Partners.AddToSet | src/controllers/recruitment/authController.js:203-205 | the id is present afterwards, added at the end only when it was missing, and nothing else changes |
| Partners.AddToSetKeepsDistinct | src/controllers/recruitment/authController.js:203-205 | a list without duplicates stays without duplicates |
| Partners.Linked | src/controllers/recruitment/authController.js:195-199 | only the linked student's `referredBy` changes, to the partner |
| Partners.LinkingMovesStudent | src/controllers/recruitment/authController.js:195-199 | a linked student is on the caller's panel, on no other partner's panel, and out of the pool |
| Partners.LinkStudentToPartnerAsWritten | src/controllers/recruitment/authController.js:187-219 | as written: 400 without a student id and 404 for an unknown student, both with no write; otherwise the student is linked; no user ever changes, because strict mode strips the `$addToSet` on an undeclared path |
| Partners.IntendedLinkChangesPartner | src/controllers/recruitment/authController.js:203-205 | for a student the partner did not list, the intended link changes the partner account and lists the student |
| Partners.LinkStudentToPartner | src/controllers/recruitment/authController.js:187-219 | as intended: the same answers, and on success the partner account, when it exists, lists the student once |
| Partners.Merged | src/controllers/recruitment/authController.js:254-265 | the student's first loan supplies the amount (its live balance), the status and "Yes"; with no loan the student is unchanged; no other field changes |
| Partners.ReferredStudents | src/controllers/recruitment/authController.js:242-272 | the merged list has the same length and order as the partner's students |
| Partners.StatusCountsDisjoint | src/controllers/recruitment/authController.js:291-294 | the Approved and Pending counts together never exceed the number of loans |
| Partners.DashboardStats | src/controllers/recruitment/authController.js:275-297 | the counts are over the partner's students and their loans, and the recent list is the newest min(5, n) of those loans, newest first |
| Partners.SignedDocuments | src/controllers/recruitment/authController.js:418-420 | the documents shown are exactly those Uploaded or Signed |
| Partners.StudentSignatures | src/controllers/recruitment/authController.js:391-427 | with the signature lookup resolved: 403 exactly when the student is not on the caller's panel; otherwise 200 with the Uploaded or Signed documents of the record, none without a record |
| Partners.StudentSignaturesAsWritten | src/controllers/recruitment/authController.js:409-425 | as written, the lookup names a model that does not exist, so the handler answers 403 off the panel and 500 on it |
| Partners.SignaturesNeverReachPartner | src/controllers/recruitment/authController.js:391-427 | the handler as written answers 500 exactly where the intended one answers 200, and 403 where it answers 403 |
| Partners.OtherPartnersStudentsDenied | src/controllers/recruitment/authController.js:397-407 | a partner never sees the documents of a student on another panel |
| Documents.DefaultSlots | src/controllers/user/documentController.js:41-53 | a first upload starts from the six named slots, all "Sign Now" with no file |
| Documents.ShownStatus | src/controllers/user/documentController.js:15 | a Pending status is shown as "Sign Now", and every other status unchanged |
| Documents.Normalised | src/controllers/user/documentController.js:13-16 | the listing keeps length, order and every field except the Pending status |
| Documents.NormalisedIsIdempotent | src/controllers/user/documentController.js:13-16 | normalising twice is normalising once, and no Pending slot is left |
| Documents.FindUserDocs | src/controllers/user/documentController.js:6 | the record found is the first one of the user, or the user has none |
| Documents.GetUserDocuments | src/controllers/user/documentController.js:4-26 | no record gives an empty list; otherwise the record's slots as shown |
| Documents.SlotIndex | src/controllers/user/documentController.js:55 | the slot is the parsed number minus one, or none when it does not parse |
| Documents.SlotOfNumber | src/controllers/user/documentController.js:55 | the slot numbered k by the client is index k - 1 |
| Documents.FilledSlot | src/controllers/user/documentController.js:66-74 | the target slot becomes Uploaded with the KYC-folder URL of the file, its MIME type and the upload time, keeping its name |
| Documents.AfterUpload | src/controllers/user/documentController.js:57-74 | the length is unchanged, the target slot is filled and every other slot only normalised |
| Documents.UploadTouchesOnlyItsSlot | src/controllers/user/documentController.js:57-74 | other slots keep their names, URLs and types, and the filled slot lists as Uploaded with the new URL |
| Documents.NormalisePending | src/controllers/user/documentController.js:59-63 | the in-place loop leaves the slots exactly as `Normalised` gives them |
| Documents.UploadDocument | src/controllers/user/documentController.js:29-97 | 400 without a file and 404 for a slot outside the array, both with no write; otherwise the record (or a new one) is saved with the slots of `AfterUpload` |
| Kyc.FilePath | src/controllers/user/kycController.js:69-72 | a file field takes the KYC path of a new upload, otherwise its previous value |
| Kyc.GetKycStatus | src/controllers/user/kycController.js:5-29 | 404 exactly for an unknown user; otherwise the user's KYC data and status with the profile's date of birth, country, state and PIN beside them |
| Kyc.FullPin | src/controllers/user/kycController.js:35 | the PIN is the three parts joined exactly when all three are non-empty |
| Kyc.PutIfGiven | src/controllers/user/kycController.js:37-38 | a field given a value is set, an undefined one leaves the map as it was, and no other key changes |
| Kyc.PersonalInfo | src/controllers/user/kycController.js:34-44 | the given date of birth, country and state are set, the PIN only when complete, and every other profile field is kept |
| Kyc.PartialPinKeepsStoredPin | src/controllers/user/kycController.js:35-38 | a PIN with a missing or empty part leaves the stored PIN as it was |
| Kyc.UpdatePersonalInfo | src/controllers/user/kycController.js:32-54 | the caller's profile becomes `PersonalInfo`; an unknown caller still gets 200 with no write |
| Kyc.AfterDocuments | src/controllers/user/kycController.js:66-90 | the five text fields come from the body, each of the seven files is new or kept, the time is stamped, and the address fields are kept |
| Kyc.ResubmissionKeepsFiles | src/controllers/user/kycController.js:69-90 | resubmitting without files changes nothing but the submission time |
| Kyc.SubmitKycDocuments | src/controllers/user/kycController.js:57-105 | 404 and no write for an unknown user; otherwise `kycData` becomes `AfterDocuments` and the status Pending |
| Kyc.AfterAddress | src/controllers/user/kycController.js:115-124 | the four address fields are always written, the proof file is replaced only by a new upload, and nothing else changes |
| Kyc.SubmitAddressProof | src/controllers/user/kycController.js:108-136 | 404 and no write for an unknown user; otherwise `kycData` becomes `AfterAddress` and the status Pending |
| Kyc.StepsCommute | src/controllers/user/kycController.js:57-136 | the document and address steps write disjoint fields, so either order gives the same `kycData` |
| Uploads.UrlFolder | src/middlewares/uploadMiddleware.js:46-55 | the URL tests apply in order (signatures, kyc, auth or profile), and documents is the fallback |
| Uploads.Destination | src/middlewares/uploadMiddleware.js:19-62 | the eight KYC fields go to kyc, avatar to avatars, document and signature to signatures, and only other fields go by URL |
| Uploads.FieldNameTakesPrecedence | src/middlewares/uploadMiddleware.js:35-55 | a field recognised by name lands in the same folder whatever the URL |
| Uploads.DocumentsOnlyAsFallback | src/middlewares/uploadMiddleware.js:21-55 | the documents folder is used exactly when no rule matches |
| Uploads.Prefix | src/middlewares/uploadMiddleware.js:65-74 | the prefix is "SIG" for document or signature fields or a signatures URL, otherwise the field name in upper case |
| Uploads.SignaturesFolderMeansSigPrefix | src/middlewares/uploadMiddleware.js:39-74 | every file stored under signatures carries the SIG prefix |
| Uploads.SigPrefixOutsideSignaturesFolder | src/middlewares/uploadMiddleware.js:35-74 | a KYC field posted to a signatures URL is stored under kyc, yet named SIG |
| Uploads.RandomSuffix | src/middlewares/uploadMiddleware.js:77 | the random suffix is a whole number from 0 to 10^9 |
| Uploads.StoredName | src/middlewares/uploadMiddleware.js:63-84 | the name is the prefix, a dash, the upload time in milliseconds, a dash, the rounded random suffix (at most 1e9), and the original extension in lower case |
| Uploads.Receive | src/middlewares/uploadMiddleware.js:91-121 | a file is refused exactly when its MIME type is not one of the six allowed, rejected as too large exactly when it is allowed and over 50 MiB, and otherwise stored in `Destination` under `StoredName` |
| Uploads.AcceptedShape | src/middlewares/uploadMiddleware.js:92-99 | every allowed type has one of five lengths |
| Uploads.ScriptsRefused | src/middlewares/uploadMiddleware.js:91-111 | HTML, JavaScript and SVG are refused whatever the field or URL |
| JsNum.Round | src/controllers/user/loanController.js:55-58 | `Math.round` gives the integer within half a unit |
| JsText.Trim | src/controllers/user/authController.js:88 | trimming shortens, leaves no space at either end, and gives "" exactly for all-space text |
| JsText.NormalizeEmail | src/controllers/user/authController.js:88 | a cleaned address has no upper-case letter and no space at either end |
| JsText.NormalizeEmailIdempotent | src/controllers/user/authController.js:88 | cleaning a cleaned address changes nothing |
| JsText.SecondPiece | src/middlewares/authMiddleware.js:12 | the token is the space-free text after the first space, and is absent when there is no space |
| JsText.ParseIntOfIntToString | src/controllers/user/loanController.js:44 | `parseInt` reads back a written integer followed by non-digits |
| JsText.LastChars | src/controllers/admin/financeController.js:47 | `slice(-k)` keeps the last min(k, n) characters |
| JsText.ExtName | src/middlewares/uploadMiddleware.js:80 | the extension starts with its only dot and is a proper suffix of the base name |
| Store.FindLoan | src/controllers/user/loanController.js:136 | the loan found is the first one with the id, or no loan has it |
| Store.FindUser | src/controllers/user/kycController.js:62 | the user found is the first one with the id, or no user has it |
| Store.FindUserByEmail | src/controllers/user/authController.js:89 | the user found is the first one with the address, or no user has it |
| Store.FindStudent | src/controllers/recruitment/authController.js:195-199 | the student found is the first one with the id, or no student has it |
| Accounts.OtpNumber | src/controllers/user/authController.js:228 | the code's number lies in 100000..999999 |
| Accounts.OtpCode | src/controllers/user/authController.js:228 | the code is six decimal digits |
| Accounts.Issued | src/controllers/user/authController.js:229-230 | issuing stores the new code with an expiry ten minutes ahead and changes nothing else |
| Accounts.Cleared | src/controllers/user/authController.js:258-259 | a used code leaves neither code nor expiry, and nothing else changes |
| Accounts.ForgotPassword | src/controllers/user/authController.js:222-243 | 500 without an address and 404 for an unknown one, both with no write; otherwise a code is issued to the cleaned address, and a mail failure is 500 with the code kept |
| Accounts.SendOtp | src/controllers/user/authController.js:271-295 | the same new state as forgotPassword, returning the user's id on success |
| Accounts.TestsAgreeOnIssuedCodes | src/controllers/user/authController.js:303 | where a code was issued the as-written and the intended test agree |
| Accounts.VerifiedWithoutCode | src/controllers/user/authController.js:303 | as written, a user holding no code is verified by a request that omits the code |
| Accounts.IssuedCodeLifetime | src/controllers/user/authController.js:303 | an issued code is accepted up to and including ten minutes later and not after, and no other code is accepted |
| Accounts.CodeIsSingleUse | src/controllers/user/authController.js:310-311 | a cleared code accepts nothing under the intended test |
| Accounts.VerifyOtpAsWritten | src/controllers/user/authController.js:298-329 | 400 and no write for a missing or unknown user or a failed test; otherwise the phone is verified and the code cleared |
| Accounts.VerifyOtp | src/controllers/user/authController.js:298-329 | the same with the corrected test |
| Accounts.ExpiryInstantDiffers | src/controllers/user/authController.js:249-253 | at the instant of expiry a code still verifies but no longer resets a password |
| Accounts.ResetQueriesAgreeOnGivenCodes | src/controllers/user/authController.js:249-253 | for every request that carries a code, the query as written and the intended one match the same users |
| Accounts.ResetWithoutCode | src/controllers/user/authController.js:249-253 | as written, a reset request that omits the code matches any user whose code (issued by forgotPassword) is still live, while the intended query matches no request without a code |
| Accounts.ResetPasswordAsWritten | src/controllers/user/authController.js:246-268 | as written: 500 without an address; 400 without a user the query as written matches; 500 for a missing or short new password; otherwise the password is replaced and the code cleared |
| Accounts.ResetPassword | src/controllers/user/authController.js:246-268 | as intended: 500 without an address; 400 without a user whose code was given, matches and has not expired (so always without a code); 500 for a missing or short new password; otherwise the password is replaced and the code cleared, so the same request cannot reset again |
| Accounts.RoleAsWrittenIsRefused | src/models/User.js:18-22 | the role "student" is not in the user schema's role enum |
| Accounts.RegisterAsWritten | src/controllers/user/authController.js:82-129 | as written, past the 400 guards every registration ends in 500 with nothing stored |
| Accounts.NewProfile | src/controllers/user/authController.js:94-100 | the new profile has the trimmed name and phone and country "Canada" |
| Accounts.NewUser | src/controllers/user/authController.js:94-100 | the new user has the cleaned address, a role of the enum, unverified phone, no code, KYC Pending and no referred students |
| Accounts.NewStudent | src/controllers/user/authController.js:104-110 | the student record is linked to the user, unclaimed, Pending, with the phone or "Not Provided" |
| Accounts.Register | src/controllers/user/authController.js:82-129 | 400 for a missing field or a taken address; 500 for an address, name or password the schema refuses (blank after cleaning, blank, or short); otherwise the user and its student are appended and the user is found by the cleaned address |
| Accounts.Enrol | src/controllers/user/authController.js:101-110 | both records are appended and the new user is the one found by its address |
| Accounts.ProfileUpdate | src/controllers/user/authController.js:27-41 | the update holds exactly the whitelisted fields the request defines, trimmed where the schema trims |
| Accounts.UpdatedProfile | src/controllers/user/authController.js:43-47 | the copied fields are replaced and every other field is kept |
| Accounts.WhitelistGuardsOtherFields | src/controllers/user/authController.js:27-41 | no request can change the PIN or the country through a profile update |
| Accounts.SyncedStudent | src/controllers/user/authController.js:50-53 | the student record takes the trimmed new name and the phone exactly as sent, each only when the body sends it, and nothing else changes |
| Accounts.UpdateProfile | src/controllers/user/authController.js:25-61 | 500 and no write for a blank name; otherwise the caller's profile is updated with the trimmed values and the student record with the name trimmed and the phone as sent |
| AuthGuard.ExtractToken | src/middlewares/authMiddleware.js:8-15 | a "Bearer" header gives its second piece and hides `x-auth-token`; otherwise a non-empty `x-auth-token` is the token |
| AuthGuard.BearerRoundTrip | src/middlewares/authMiddleware.js:8-12 | a token sent as "Bearer token" is extracted as that token |
| AuthGuard.BareBearerHidesOtherHeader | src/middlewares/authMiddleware.js:8-15 | a bare "Bearer" header yields no token even beside a valid `x-auth-token` |
| AuthGuard.UserIdOf | src/middlewares/authMiddleware.js:30-34 | the user id is `id`, else `user.id`, and is never empty |
| AuthGuard.Caught | src/middlewares/authMiddleware.js:48-73 | connection errors are 500, an expired token is 401 "session expired", and anything else is 401 |
| AuthGuard.AfterLookup | src/middlewares/authMiddleware.js:38-45 | the request goes on exactly when the user exists, with that user; otherwise 401 or 500 |
| AuthGuard.AfterPayload | src/middlewares/authMiddleware.js:30-45 | the request goes on exactly when the payload has a user id and that user exists |
| AuthGuard.Protect | src/middlewares/authMiddleware.js:4-74 | no token is 401; the request goes on exactly when the token verifies, carries a user id and the user exists, and then with that user; every other outcome is 401 or 500 |
| AuthGuard.NoTokenNoWork | src/middlewares/authMiddleware.js:18-23 | a request without a token is refused whatever the token library and the database would say |
| AuthGuard.Guard | src/middlewares/authMiddleware.js:80-107 | a role guard lets the request on exactly when it admits the user, and answers 403 otherwise |
| AuthGuard.GuardsAreExclusive | src/middlewares/authMiddleware.js:80-107 | no user passes both guards, and a request without a user passes neither |

## Left out

- The EMI formula (src/controllers/user/loanController.js:54 and src/controllers/admin/loanController.js:27-29) is floating-point arithmetic with `Math.pow`. It is the parameter `UserLoans.EmiFormula`, and only what is built from its value is modelled.
- NaN, Infinity and JavaScript's coercion of arbitrary strings are not modelled beyond `JsNum.NumInput`. The empty text "" (falsy, `Number("")` is 0) is not a case of its own. The formula's NaN is modelled only at a zero rate, which the borrower path reaches from the text "0"; other NaN or infinite values of the formula (an overflowing `Math.pow`, or a negative rate with `(1 + r)^n` equal to 1) are not. Arithmetic is exact on reals, so float rounding of sums such as the ledger balance is not modelled.
- Persistence: each collection is a sequence in insertion order. `findOne` returns the first match; `sort({ createdAt: -1 })` is the reversed sequence; `populate`, `select` and date formatting are left out. Malformed ids that make Mongoose throw a cast error are not modelled.
- Atomicity and concurrency: the loan save and the transaction create are separate sequential writes. A crash between them and interleaved requests are not modelled.
- Foreign calls are left out: bcrypt hashing and comparison, JWT signing and verifying, nodemailer, the Google userinfo fetch, and multer's file system writes. `AuthGuard.Protect` takes the token check and the user lookup as parameters. The mail outcome is the parameter `mailOk`.
- The clock, `Math.random()` and new document ids are parameters. The random six-digit transaction suffixes are the parameter `suffix`.
- Five controllers default-import `transaction.model.js`, which exports only the named `Transaction`: src/controllers/admin/financeController.js, src/controllers/admin/fundController.js, src/controllers/user/loanController.js, src/controllers/user/paymentController.js and src/controllers/recruitment/authController.js. The model assumes the import resolves to that model.
- Partners.StudentSignatures: the signature record comes from `Signature`, which no file of the repository defines; the corrected member takes the record as the parameter `record`, and `Partners.StudentSignaturesAsWritten` models the handler as it stands.
- Mongoose strict mode drops writes to paths the schema lacks: `isEmailVerified` in `verifyOTP`, and the partner's `referredStudents` in `Partners.LinkStudentToPartnerAsWritten`.
- A filter key whose value is `undefined` is dropped from a query, as the Mongoose documentation of `findOne` states (`findOne({ _id: undefined })` behaves like `findOne({})`). `UserLoans.HasPendingIn`, `Payments.FindOwnedLoan` and `Accounts.ResetCandidateAsWritten` rest on that rule. The MongoDB driver's own behaviour, which would serialise the value as `null` and match nothing, is not what the model follows.
- `null` and `undefined` are one case (`None`); a request field sent as JSON `null` is therefore treated as absent, although in a query filter a `null` is kept and matches only documents without the field. The schema `trim` setter is modelled for the user's name and phone only; the loan title and `loanId` are stored as given.
- `JsText.Lower` and `JsText.Upper` map ASCII letters only, not full Unicode case mapping. (`JsText.Trim` covers the whole ECMAScript WhiteSpace and LineTerminator set.)
- Save validation is modelled only where it changes the outcome:
  - the loan `min: 0` bounds, enums and required period;
  - the user role enum, password length and required name;
  - the fund schema;
  - the unique `id` of transactions and `loanId` of loans.
- The partner activity log, `getMe`, `updateAvatar`, `login` and `googleLogin` are left out. They only read or copy records, and their checks are the token and password checks left out above.
- `Kyc.GetKycStatus` returns `kycData` and the profile fields side by side. In the model `kycData` has no `dob`, `country`, `state` or `ssnPin` key for them to override.
- The document-upload route in src/routes/user/documentRoutes.js configures its own disk storage. Routes are not part of this model, so where `uploadDocument`'s file lands on disk is not modelled; `Documents.UploadDocument` records the URL the handler builds.
- Time zones are not modelled: `setMonth` works on local time, and the model's dates are calendar dates in one zone. The reply status of multer's file-size and file-type errors depends on the Express error handler, which is not part of this model.

## Findings

| source | as written | input that shows it | evidently intended | confidence | as-written member | corrected member |
|---|---|---|---|---|---|---|
| src/controllers/admin/fundController.js:34-39 | the fund is created with status "Active" and no `source`, which src/models/fund.model.js requires and does not list, so the create throws and the catch answers 400 | any request with a positive amount, e.g. `{ name: "Seed", amount: 1000 }` | store a fund the schema accepts (source from the name, status Available) and record the Credit | not executed | Funds.AddFundAsWritten | Funds.AddFund |
| src/controllers/user/authController.js:94-101 | a new user is saved with role "student", which the role enum of src/models/User.js:18-22 does not list, so every registration ends in 500 | any complete registration with a free address | save the user with a role of the enum (the default "User") and create the student record | not executed | Accounts.RegisterAsWritten | Accounts.Register |
| src/controllers/recruitment/authController.js:411 | `Signature` is never imported and no model of the repository defines it, so the lookup throws and the catch answers 500 | any request for a student on the caller's panel | look up the student's signature record and return its Uploaded and Signed documents | not executed | Partners.StudentSignaturesAsWritten | Partners.StudentSignatures |
| src/controllers/user/authController.js:249-253 | a reset request without `otp` leaves `otpCode` undefined in the query, and Mongoose drops the key, so the query matches the user whenever a code is live; forgotPassword issues such a code to any address without authentication, so anyone who knows an address can set its password | `forgotPassword { email: "victim@x.com" }`, then `resetPassword { email: "victim@x.com", newPassword: "attacker1" }` within ten minutes | reset only on a request carrying the user's live code | not executed | Accounts.ResetPasswordAsWritten | Accounts.ResetPassword |
| src/controllers/recruitment/authController.js:203-205 | the `$addToSet` on the partner's `referredStudents` names a path src/models/User.js does not declare, so strict mode strips it and the partner account never lists a linked student | `{ studentId: <id of a stored student> }` from a partner | the partner account lists each linked student once | not executed | Partners.LinkStudentToPartnerAsWritten | Partners.LinkStudentToPartner |
| src/controllers/user/authController.js:303 | `user.otpCode !== otp` passes when both are undefined and `otpExpires < Date.now()` passes when the expiry is undefined, so a user with no pending code is verified by a request that omits `otp` | `{ userId: <any existing user without a code> }` | accept only a code that was issued, matches and has not expired | not executed | Accounts.VerifyOtpAsWritten | Accounts.VerifyOtp |
