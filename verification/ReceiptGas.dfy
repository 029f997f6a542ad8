/**
 Cumulative gas from the executor to the chain service: the receipts that a block's
 transactions leave (cita-executor/core/src/libexecutor/block.rs) are stored and looked
 up one by one (cita-chain/core/src/libchain/chain.rs), where the gas of a transaction
 is recovered by subtracting what the receipt before it says.
 */
module ReceiptGas {
  import opened Basics
  import opened Transactions
  import opened BlockExecution
  import MessageCalls
  import Blooms
  import LogIndex
  import opened LocalizedReceipts

  /** A receipt on its way between the services; `entry` converts log entries. */
  function Stored(entry: MessageCalls.LogEntry -> Blooms.LogEntry, r: Option<Receipt>): Option<LogIndex.Receipt> {
    match r
    case None => None
    case Some(x) => Some(LogIndex.Receipt(x.gasUsed, seq(|x.logs|, i requires 0 <= i < |x.logs| => entry(x.logs[i]))))
  }

  function StoredAll(entry: MessageCalls.LogEntry -> Blooms.LogEntry, rs: seq<Option<Receipt>>)
    : (r: seq<Option<LogIndex.Receipt>>)
    ensures |r| == |rs|
    ensures forall i :: 0 <= i < |rs| ==> r[i] == Stored(entry, rs[i])
  {
    seq(|rs|, i requires 0 <= i < |rs| => Stored(entry, rs[i]))
  }

  /** Cumulative gas of the last receipt that is present, or zero. */
  function LastPresent(rs: seq<Option<Receipt>>): nat {
    if rs == [] then 0
    else if rs[|rs| - 1].Some? then rs[|rs| - 1].value.gasUsed
    else LastPresent(rs[..|rs| - 1])
  }

  lemma {:induction false} LastStored(entry: MessageCalls.LogEntry -> Blooms.LogEntry, rs: seq<Option<Receipt>>)
    ensures LastGas(Retained(StoredAll(entry, rs))) == LastPresent(rs)
  {
    if rs != [] {
      var n := |rs| - 1;
      LastStored(entry, rs[..n]);
      assert StoredAll(entry, rs)[..n] == StoredAll(entry, rs[..n]);
    }
  }

  /** No receipt says more than the block's counter. */
  lemma {:induction false} LastPresentBounded(rules: Rules, limits: Limits, txs: seq<Transaction>, p: Progress, i: nat)
    requires (forall t :: t in txs ==> Runnable(rules, t)) && i <= |txs| && p.receipts == []
    ensures
      var q := ApplyAll(rules, limits, txs[..i], p);
      |q.receipts| == i && LastPresent(q.receipts) <= q.gasUsed
  {
    if i > 0 {
      var q := ApplyAll(rules, limits, txs[..i - 1], p);
      LastPresentBounded(rules, limits, txs, p, i - 1);
      ApplyOneMore(rules, limits, txs, p, i - 1);
      ChargeWithinQuota(rules, limits, txs[i - 1], q);
      var next := Apply(rules, limits, txs[i - 1], q);
      assert next.receipts[..i - 1] == q.receipts;
    }
  }

  /** Transaction `i` is refused before execution although the last receipt before it
      has cumulative gas. */
  predicate RefusedAfterGas(rules: Rules, limits: Limits, txs: seq<Transaction>, p: Progress, i: nat)
    requires (forall t :: t in txs ==> Runnable(rules, t)) && i < |txs|
  {
    var before := ApplyAll(rules, limits, txs[..i], p);
    Refusal(rules, InfoFor(limits, txs[i], before), txs[i]).Some? && LastPresent(before.receipts) > 0
  }

  /** A stored block whose receipts are those of its transactions. */
  ghost predicate HoldsReceipts(b: LogIndex.Block, entry: MessageCalls.LogEntry -> Blooms.LogEntry,
                                rs: seq<Option<Receipt>>)
  {
    LogIndex.Paired(b) && b.receipts == StoredAll(entry, rs)
  }

  lemma PriorReceipts(rules: Rules, limits: Limits, txs: seq<Transaction>, p: Progress, i: nat)
    requires (forall t :: t in txs ==> Runnable(rules, t)) && i < |txs| && p.receipts == []
    ensures
      var q, before := ApplyAll(rules, limits, txs, p), ApplyAll(rules, limits, txs[..i], p);
      && |q.receipts| == |txs|
      && q.receipts[..i] == before.receipts
      && q.receipts[i] == ReceiptOf(ResultOf(rules, limits, txs[i], before))
  {
    var q, before := ApplyAll(rules, limits, txs, p), ApplyAll(rules, limits, txs[..i], p);
    ReceiptsFollowTransactions(rules, limits, txs, p, i);
    OneReceiptEach(rules, limits, txs[..i], p);
    ApplyRest(rules, limits, txs, p, i);
    OneReceiptEach(rules, limits, txs[i..], before);
  }

  lemma {:induction false} ApplyRest(rules: Rules, limits: Limits, txs: seq<Transaction>, p: Progress, i: nat)
    requires (forall t :: t in txs ==> Runnable(rules, t)) && i <= |txs|
    ensures ApplyAll(rules, limits, txs, p) == ApplyAll(rules, limits, txs[i..], ApplyAll(rules, limits, txs[..i], p))
  {
    hide Apply;
    if i == 0 {
      assert txs[0..] == txs && txs[..0] == [];
    } else {
      assert txs[..i][1..] == txs[1..][..i - 1] && txs[1..][i - 1..] == txs[i..];
      ApplyRest(rules, limits, txs[1..], Apply(rules, limits, txs[0], p), i - 1);
    }
  }

  /** Looking a receipt up overflows exactly where its transaction was refused after a
      receipt with cumulative gas, whatever the transactions of the block are. */
  lemma LookupOverflowsIff(rules: Rules, limits: Limits, txs: seq<Transaction>, p: Progress,
                           entry: MessageCalls.LogEntry -> Blooms.LogEntry, number: nat, b: LogIndex.Block, i: nat)
    requires (forall t :: t in txs ==> Runnable(rules, t)) && p.receipts == []
    requires HoldsReceipts(b, entry, ApplyAll(rules, limits, txs, p).receipts)
    requires i < |txs| && i < |b.receipts|
    ensures LocalizedReceipt(number, b, i).Overflow? <==> RefusedAfterGas(rules, limits, txs, p, i)
  {
    hide ApplyAll;
    var q, before := ApplyAll(rules, limits, txs, p), ApplyAll(rules, limits, txs[..i], p);
    PriorReceipts(rules, limits, txs, p, i);
    LastPresentBounded(rules, limits, txs, p, i);
    assert b.receipts[..i] == StoredAll(entry, before.receipts);
    LastStored(entry, before.receipts);
    ChargeWithinQuota(rules, limits, txs[i], before);
  }

  /** Some receipt of a block cannot be looked up exactly if one of its transactions is
      refused while the last receipt before it has cumulative gas; if none is, the
      gas reported for the transactions adds up to that of the last receipt. */
  lemma BlockLookupsOverflowIff(rules: Rules, limits: Limits, txs: seq<Transaction>, p: Progress,
                                entry: MessageCalls.LogEntry -> Blooms.LogEntry, number: nat, b: LogIndex.Block)
    requires (forall t :: t in txs ==> Runnable(rules, t)) && p.receipts == []
    requires HoldsReceipts(b, entry, ApplyAll(rules, limits, txs, p).receipts)
    ensures |b.receipts| == |txs|
    ensures (exists i :: 0 <= i < |b.receipts| && LocalizedReceipt(number, b, i).Overflow?) <==>
            exists i :: 0 <= i < |txs| && RefusedAfterGas(rules, limits, txs, p, i)
    ensures (forall i :: 0 <= i < |txs| ==> !RefusedAfterGas(rules, limits, txs, p, i)) ==>
              ReportedGas(number, b, |b.receipts|) == LastPresent(ApplyAll(rules, limits, txs, p).receipts)
  {
    hide ApplyAll, RefusedAfterGas, LocalizedReceipt;
    OneReceiptEach(rules, limits, txs, p);
    forall i | 0 <= i < |txs|
      ensures LocalizedReceipt(number, b, i).Overflow? <==> RefusedAfterGas(rules, limits, txs, p, i)
    {
      LookupOverflowsIff(rules, limits, txs, p, entry, number, b, i);
    }
    GasTelescopes(number, b, |b.receipts|);
    LastStored(entry, ApplyAll(rules, limits, txs, p).receipts);
    assert b.receipts[..|b.receipts|] == b.receipts;
  }
}
