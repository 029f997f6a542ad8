/**
 The receipt of a transaction with its place in the chain
 (cita-chain/core/src/libchain/chain.rs, `localized_receipt`). It counts logs
 forwards from the receipts before it, where `logs` counts backwards from the end
 of the block, and recovers the transaction's own gas from cumulative values.
 */
module LocalizedReceipts {
  import opened Basics
  import opened LogIndex

  /** `Overflow` stands for the subtraction of a larger cumulative value. */
  datatype Lookup = Absent | Overflow | Found(gasUsed: nat, cumulativeGasUsed: nat, logs: seq<Located>)

  /** The receipts that are present. */
  function Retained(rs: seq<Option<Receipt>>): seq<Receipt> {
    if rs == [] then []
    else Retained(rs[..|rs| - 1]) + if rs[|rs| - 1].Some? then [rs[|rs| - 1].value] else []
  }

  function SumLogs(rs: seq<Receipt>): nat {
    if rs == [] then 0 else SumLogs(rs[..|rs| - 1]) + |rs[|rs| - 1].logs|
  }

  /** Cumulative gas of the last receipt present, or zero. */
  function LastGas(rs: seq<Receipt>): nat {
    if rs == [] then 0 else rs[|rs| - 1].gasUsed
  }

  function LocalizedReceipt(number: nat, b: Block, index: nat): Lookup
    requires Paired(b) && index < |b.receipts|
  {
    var prior := Retained(b.receipts[..index]);
    match b.receipts[index]
    case None => Absent
    case Some(last) =>
      if last.gasUsed < LastGas(prior) then Overflow
      else
        var before, logs := SumLogs(prior), last.logs;
        Found(last.gasUsed - LastGas(prior), last.gasUsed,
              seq(|logs|, i requires 0 <= i < |logs| =>
                Located(logs[i], b.hash, number, b.txHashes[index], index, i, before + i)))
  }

  lemma {:induction false} RetainedLogs(rs: seq<Option<Receipt>>)
    ensures SumLogs(Retained(rs)) == CountLogs(rs)
  {
    if rs != [] {
      var n := |rs| - 1;
      RetainedLogs(rs[..n]);
      if rs[n].Some? {
        assert (Retained(rs[..n]) + [rs[n].value])[..|Retained(rs[..n])|] == Retained(rs[..n]);
      } else {
        assert Retained(rs[..n]) + [] == Retained(rs[..n]);
      }
    }
  }

  /** The logs of all receipts of a block that can be looked up, in order. */
  function LookedUp(number: nat, b: Block, t: nat): seq<Located>
    requires Paired(b) && t <= |b.receipts|
  {
    if t == 0 then []
    else
      var r := LocalizedReceipt(number, b, t - 1);
      LookedUp(number, b, t - 1) + if r.Found? then r.logs else []
  }

  /** The cumulative gas of the receipts that are present never falls. */
  ghost predicate GasNeverFalls(rs: seq<Option<Receipt>>) {
    forall i :: 0 <= i < |rs| && rs[i].Some? ==> LastGas(Retained(rs[..i])) <= rs[i].value.gasUsed
  }

  lemma {:induction false} LookedUpIsScan(number: nat, b: Block, t: nat)
    requires Paired(b) && t <= |b.receipts| && GasNeverFalls(b.receipts)
    ensures LookedUp(number, b, t) == ScanUpTo(number, b, t)
  {
    if t > 0 {
      LookedUpIsScan(number, b, t - 1);
      RetainedLogs(b.receipts[..t - 1]);
      var r := LocalizedReceipt(number, b, t - 1);
      assert (if r.Found? then r.logs else []) == TxLogs(number, b, t - 1, t - 1);
    }
  }

  /** Receipt by receipt one finds what the backward walk of the block finds: the
      same logs with the same transaction hash and the same three indices. */
  lemma ReceiptsAgreeWithLogs(number: nat, b: Block)
    requires Paired(b) && GasNeverFalls(b.receipts) && GapFree(b)
    ensures LookedUp(number, b, |b.receipts|) == Reverse(WalkBlock(number, b))
  {
    LookedUpIsScan(number, b, |b.receipts|);
    WalkIsScanIffGapFree(number, b);
  }

  /** A receipt that is found reports the stored cumulative gas and its difference to that of
      the last receipt present before it. */
  lemma LookupGas(number: nat, b: Block, i: nat)
    requires Paired(b) && i < |b.receipts|
    ensures
      var r := LocalizedReceipt(number, b, i);
      && (r.Absent? <==> b.receipts[i].None?)
      && (r.Found? ==>
            && r.cumulativeGasUsed == b.receipts[i].value.gasUsed
            && r.gasUsed + LastGas(Retained(b.receipts[..i])) == r.cumulativeGasUsed)
  {
  }

  /** Sum of the gas the receipts report for their own transactions. */
  function ReportedGas(number: nat, b: Block, t: nat): nat
    requires Paired(b) && t <= |b.receipts|
  {
    if t == 0 then 0
    else
      var r := LocalizedReceipt(number, b, t - 1);
      ReportedGas(number, b, t - 1) + if r.Found? then r.gasUsed else 0
  }

  /** The reported gas adds up to the block's last cumulative value if cumulative
      gas never falls, that is if no lookup overflows. */
  lemma {:induction false} GasTelescopes(number: nat, b: Block, t: nat)
    requires Paired(b) && t <= |b.receipts|
    ensures GasNeverFalls(b.receipts) ==> ReportedGas(number, b, t) == LastGas(Retained(b.receipts[..t]))
    ensures GasNeverFalls(b.receipts) <==> forall i :: 0 <= i < |b.receipts| ==> !LocalizedReceipt(number, b, i).Overflow?
  {
    if t > 0 {
      GasTelescopes(number, b, t - 1);
      assert b.receipts[..t][..t - 1] == b.receipts[..t - 1];
    }
    if !GasNeverFalls(b.receipts) {
      var i :| 0 <= i < |b.receipts| && b.receipts[i].Some? && LastGas(Retained(b.receipts[..i])) > b.receipts[i].value.gasUsed;
      assert LocalizedReceipt(number, b, i).Overflow?;
    }
  }
}
