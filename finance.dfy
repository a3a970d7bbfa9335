/** The finance handlers over the ledger: src/controllers/admin/financeController.js
    and src/controllers/finance.controller.js. Their ledger listing and
    balance are `Ledger.Listing` and `Ledger.Balance`; the first file guards
    a withdrawal by the balance, the second does not. */
module Finance {
  import opened Options
  import JsNum
  import JsText
  import Ledger
  import Store

  /** `TXN-` and the last six digits of the clock in milliseconds. */
  function WithdrawalId(nowMs: nat): (id: string)
    ensures 5 <= |id| <= 10 && id[..4] == "TXN-"
  {
    "TXN-" + JsText.LastChars(JsText.NatToString(nowMs), 6)
  }

  /** The Debit a withdrawal records: no owner, the requested amount. */
  function WithdrawalEntry(amount: real, nowMs: nat): (e: Ledger.Entry)
    ensures e.kind == Ledger.Debit && e.amount == amount && e.userId.None?
    ensures e.id == WithdrawalId(nowMs) && e.status == Ledger.Completed
  {
    Ledger.Entry(WithdrawalId(nowMs), None, Ledger.Debit, "Withdrawal to Bank",
                 Some("Admin initiated payout"), amount, Ledger.Completed)
  }

  /** The safety check `amount > currentBalance`. A missing amount or text
      that is not a number compares false and is let through. */
  predicate Refused(amount: JsNum.NumInput, balance: real)
  {
    amount.Num? && amount.value > balance
  }

  /** A withdrawal the check lets through never takes the balance below
      zero. */
  lemma CheckedWithdrawalNeverOverdraws(s: seq<Ledger.Entry>, amount: real, nowMs: nat)
    requires !Refused(JsNum.Num(amount, false), Ledger.Balance(s))
    ensures Ledger.Balance(s + [WithdrawalEntry(amount, nowMs)]) == Ledger.Balance(s) - amount
    ensures Ledger.Balance(s + [WithdrawalEntry(amount, nowMs)]) >= 0.0
  {
    Ledger.BalanceAfterAppend(s, WithdrawalEntry(amount, nowMs));
  }

  /** The check does not refuse a negative amount on a ledger in credit, and
      the "withdrawal" then raises the balance. */
  lemma NegativeWithdrawalRaisesBalance(s: seq<Ledger.Entry>, amount: real, nowMs: nat)
    requires amount < 0.0 && Ledger.Balance(s) >= 0.0
    ensures !Refused(JsNum.Num(amount, false), Ledger.Balance(s))
    ensures Ledger.Balance(s + [WithdrawalEntry(amount, nowMs)]) > Ledger.Balance(s)
  {
    Ledger.BalanceAfterAppend(s, WithdrawalEntry(amount, nowMs));
  }

  /** Without the check a withdrawal can overdraw: one withdrawal of 1 from
      an empty ledger leaves a balance of -1. */
  lemma UncheckedWithdrawalCanOverdraw(nowMs: nat)
    ensures Ledger.Balance([WithdrawalEntry(1.0, nowMs)]) == -1.0
  {
    Ledger.BalanceAfterAppend([], WithdrawalEntry(1.0, nowMs));
    assert [] + [WithdrawalEntry(1.0, nowMs)] == [WithdrawalEntry(1.0, nowMs)];
  }

  /** withdrawFunds of src/controllers/admin/financeController.js: 400 when
      the amount exceeds the balance; otherwise one Debit, unless the amount
      is missing or not a number or the id is taken (500, nothing written).
      `nowMs` stands for the clock. */
  method WithdrawChecked(db: Store.Db, amount: JsNum.NumInput, nowMs: nat) returns (code: int)
    modifies db`ledger
    ensures Refused(amount, Ledger.Balance(old(db.ledger))) ==> code == 400 && db.ledger == old(db.ledger)
    ensures !Refused(amount, Ledger.Balance(old(db.ledger))) ==>
      if amount.Num? && !Ledger.IdTaken(old(db.ledger), WithdrawalId(nowMs))
      then code == 201 && db.ledger == old(db.ledger) + [WithdrawalEntry(amount.value, nowMs)]
      else code == 500 && db.ledger == old(db.ledger)
    ensures code == 201 ==> Ledger.Balance(db.ledger) >= 0.0
  {
    var balance := Ledger.Balance(db.ledger);
    if Refused(amount, balance) {
      return 400;
    }
    if !amount.Num? {
      return 500;
    }
    CheckedWithdrawalNeverOverdraws(db.ledger, amount.value, nowMs);
    var ok := db.CreateTransaction(WithdrawalEntry(amount.value, nowMs));
    code := if ok then 201 else 500;
  }

  /** withdrawFunds of src/controllers/finance.controller.js: the same Debit
      with no balance check. */
  method WithdrawUnchecked(db: Store.Db, amount: JsNum.NumInput, nowMs: nat) returns (code: int)
    modifies db`ledger
    ensures if amount.Num? && !Ledger.IdTaken(old(db.ledger), WithdrawalId(nowMs))
      then code == 201 && db.ledger == old(db.ledger) + [WithdrawalEntry(amount.value, nowMs)] &&
           Ledger.Balance(db.ledger) == Ledger.Balance(old(db.ledger)) - amount.value
      else code == 500 && db.ledger == old(db.ledger)
  {
    if !amount.Num? {
      return 500;
    }
    Ledger.BalanceAfterAppend(db.ledger, WithdrawalEntry(amount.value, nowMs));
    var ok := db.CreateTransaction(WithdrawalEntry(amount.value, nowMs));
    code := if ok then 201 else 500;
  }
}
