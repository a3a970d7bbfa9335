/** The transaction collection of src/models/transaction.model.js seen as a
    ledger: an append-only sequence of Credit and Debit entries in insertion
    order, whose balance is credits minus debits. */
module Ledger {
  import opened Options
  import Seqs

  datatype TxType = Credit | Debit

  datatype TxStatus = Completed | Pending

  /** One transaction document. `id` is the unique human-readable reference
      ("TXN-..."), `userId` the optional owner. */
  datatype Entry = Entry(
    id: string,
    userId: Option<string>,
    kind: TxType,
    desc: string,
    subDesc: Option<string>,
    amount: real,
    status: TxStatus)

  /** What one entry contributes to the balance. */
  function Signed(e: Entry): real
  {
    if e.kind == Credit then e.amount else -e.amount
  }

  /** The `reduce` of getBalance: starting from 0, add each Credit and
      subtract each Debit, oldest entry first. */
  function Balance(s: seq<Entry>): (r: real)
    ensures s == [] ==> r == 0.0
  {
    Seqs.Sum(s, Signed)
  }

  /** The sum of all Credit amounts. */
  function CreditTotal(s: seq<Entry>): real
  {
    if |s| == 0 then 0.0
    else (if s[0].kind == Credit then s[0].amount else 0.0) + CreditTotal(s[1..])
  }

  /** The sum of all Debit amounts. */
  function DebitTotal(s: seq<Entry>): real
  {
    if |s| == 0 then 0.0
    else (if s[0].kind == Debit then s[0].amount else 0.0) + DebitTotal(s[1..])
  }

  /** The fold computes credits minus debits. */
  lemma {:induction false} BalanceIsCreditsMinusDebits(s: seq<Entry>)
    ensures Balance(s) == CreditTotal(s) - DebitTotal(s)
  {
    if |s| > 0 {
      Seqs.SumFront(s, Signed);
      BalanceIsCreditsMinusDebits(s[1..]);
    }
  }

  /** Appending a Credit raises the balance by its amount; appending a Debit
      lowers it by its amount. */
  lemma BalanceAfterAppend(s: seq<Entry>, e: Entry)
    ensures e.kind == Credit ==> Balance(s + [e]) == Balance(s) + e.amount
    ensures e.kind == Debit ==> Balance(s + [e]) == Balance(s) - e.amount
  {
    assert (s + [e])[..|s|] == s;
  }

  /** The ledger listing of getLedger: sorted by creation time, newest first.
      Entries are created in insertion order, so this is the reversed
      sequence. */
  function Listing(s: seq<Entry>): (r: seq<Entry>)
    ensures |r| == |s|
    ensures forall j :: 0 <= j < |s| ==> r[j] == s[|s| - 1 - j]
  {
    Seqs.Reverse(s)
  }

  /** A new entry heads the listing, ahead of everything listed before. */
  lemma ListingAfterAppend(s: seq<Entry>, e: Entry)
    ensures Listing(s + [e]) == [e] + Listing(s)
  {
    var l := Listing(s + [e]);
    assert l[0] == e;
    assert forall j :: 1 <= j < |l| ==> l[j] == Listing(s)[j - 1];
  }

  /** Listing the ledger newest first does not change its balance. */
  lemma BalanceOfListing(s: seq<Entry>)
    ensures Balance(Listing(s)) == Balance(s)
  {
    Seqs.SumReverse(s, Signed);
  }

  /** Whether some entry already carries this reference (the `unique` index
      on `id`). */
  predicate IdTaken(s: seq<Entry>, id: string)
  {
    exists j :: 0 <= j < |s| && s[j].id == id
  }
}
