/** addFund of src/controllers/admin/fundController.js: a capital inflow is
    stored as a fund and mirrored in the ledger as a Credit, so the finance
    balance rises by the amount. As written the handler builds a fund the
    fund schema (src/models/fund.model.js) refuses; `AddFundAsWritten`
    models that, `AddFund` the evidently intended handler. */
module Funds {
  import opened Options
  import opened Records
  import JsNum
  import JsText
  import Ledger
  import Store

  /** The 400 guard `!amount || amount <= 0`. Text that is not a number is
      truthy and compares false with 0, so it passes. */
  predicate AmountRejected(amount: JsNum.NumInput)
  {
    !JsNum.Truthy(amount) || (amount.Num? && amount.value <= 0.0)
  }

  /** What passes the guard is either a positive number or text that is not
      a number. */
  lemma GuardLetsThroughPositiveOrText(amount: JsNum.NumInput)
    ensures !AmountRejected(amount) <==> amount.Garbage? || (amount.Num? && amount.value > 0.0)
  {
  }

  /** The fund the handler asks to create: the schema has no `name` or
      `category` path, so both are dropped, no `source` is given, and the
      status "Active" is outside the status enum. */
  function FundAsWritten(amount: real): (f: Fund)
    ensures f.amount == amount
  {
    Fund(None, amount, "Active")
  }

  /** Whatever the request, the fund as written breaks the schema, so the
      create throws and the handler answers 400 from its catch. */
  lemma FundAsWrittenIsNeverValid(amount: real)
    ensures !FundSchemaValid(FundAsWritten(amount))
  {
  }

  /** `TXN-FUND-` and the last four digits of the clock in milliseconds. */
  function FundEntryId(nowMs: nat): (id: string)
    ensures 10 <= |id| <= 13 && id[..9] == "TXN-FUND-"
  {
    "TXN-FUND-" + JsText.LastChars(JsText.NatToString(nowMs), 4)
  }

  /** The Credit recorded for an inflow, labelled with the fund's name and
      category or "New Fund" / "General" when they are missing or empty. */
  function FundEntry(name: Option<string>, category: Option<string>, amount: real, nowMs: nat): (e: Ledger.Entry)
    ensures e.kind == Ledger.Credit && e.amount == amount && e.userId.None?
    ensures e.desc == "Capital Inflow: " + JsText.TextOr(name, "New Fund")
    ensures e.subDesc == Some("Category: " + JsText.TextOr(category, "General"))
  {
    Ledger.Entry(FundEntryId(nowMs), None, Ledger.Credit,
                 "Capital Inflow: " + JsText.TextOr(name, "New Fund"),
                 Some("Category: " + JsText.TextOr(category, "General")),
                 amount, Ledger.Completed)
  }

  /** The fund the corrected handler stores: the name as its `source`
      ("New Fund" when missing), status Available. */
  function IntendedFund(name: Option<string>, amount: real): (f: Fund)
    ensures FundSchemaValid(f) && f.amount == amount
    ensures f.source == Some(JsText.TextOr(name, "New Fund"))
  {
    Fund(Some(JsText.TextOr(name, "New Fund")), amount, "Available")
  }

  /** addFund as written: every request ends in 400 and nothing is stored,
      neither the fund nor the Credit. */
  method AddFundAsWritten(db: Store.Db, name: Option<string>, amount: JsNum.NumInput, category: Option<string>, nowMs: nat)
    returns (code: int)
    modifies db`funds, db`ledger
    ensures code == 400 && db.funds == old(db.funds) && db.ledger == old(db.ledger)
  {
    if AmountRejected(amount) {
      return 400;
    }
    if !amount.Num? {
      return 400;
    }
    // The fund FundAsWritten builds fails the schema, so Fund.create throws.
    FundAsWrittenIsNeverValid(amount.value);
    return 400;
  }

  /** addFund as intended: 400 for an amount that is missing, not positive
      or not a number; otherwise the fund is stored and one Credit of the
      amount is recorded (400 and the fund kept when the Credit's id is
      taken). A recorded inflow raises the balance by its amount. */
  method AddFund(db: Store.Db, name: Option<string>, amount: JsNum.NumInput, category: Option<string>, nowMs: nat)
    returns (code: int)
    modifies db`funds, db`ledger
    ensures AmountRejected(amount) || amount.Garbage? ==>
      code == 400 && db.funds == old(db.funds) && db.ledger == old(db.ledger)
    ensures !AmountRejected(amount) && amount.Num? ==>
      amount.value > 0.0 &&
      db.funds == old(db.funds) + [IntendedFund(name, amount.value)] &&
      if Ledger.IdTaken(old(db.ledger), FundEntryId(nowMs))
      then code == 400 && db.ledger == old(db.ledger)
      else code == 201 && db.ledger == old(db.ledger) + [FundEntry(name, category, amount.value, nowMs)] &&
           Ledger.Balance(db.ledger) == Ledger.Balance(old(db.ledger)) + amount.value
  {
    if AmountRejected(amount) || !amount.Num? {
      return 400;
    }
    db.funds := db.funds + [IntendedFund(name, amount.value)];
    var entry := FundEntry(name, category, amount.value, nowMs);
    Ledger.BalanceAfterAppend(db.ledger, entry);
    var ok := db.CreateTransaction(entry);
    code := if ok then 201 else 400;
  }
}
