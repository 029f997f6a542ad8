/**
 Looking logs up (cita-chain/core/src/libchain/chain.rs, `logs`, `get_logs` and
 `localized_receipt`). The source preselects blocks by bloom, walks blocks,
 receipts and logs backwards with counters that run down, stops at a limit and
 reverses what it found. The simple reading is a forward scan.
 */
module LogIndex {
  import opened Basics
  import opened Blooms

  type Hash(==, !new)

  /** `gasUsed` is cumulative over the block. */
  datatype Receipt = Receipt(gasUsed: nat, logs: seq<LogEntry>)

  /** A stored block: `bloom` is the log bloom of its header. */
  datatype Block = Block(hash: Hash, bloom: Bloom, receipts: seq<Option<Receipt>>, txHashes: seq<Hash>)

  /** A log with its place in the chain. */
  datatype Located = Located(entry: LogEntry, blockHash: Hash, blockNumber: nat, txHash: Hash,
                             txIndex: int, txLogIndex: int, logIndex: int)

  /** The source insists on one receipt slot per transaction. */
  predicate Paired(b: Block) {
    |b.receipts| == |b.txHashes|
  }

  function LogsOf(r: Option<Receipt>): seq<LogEntry> {
    if r.Some? then r.value.logs else []
  }

  function CountLogs(rs: seq<Option<Receipt>>): nat {
    if rs == [] then 0 else CountLogs(rs[..|rs| - 1]) + |LogsOf(rs[|rs| - 1])|
  }

  // ---------------------------------------------------------------------
  // The forward scan of one block
  // ---------------------------------------------------------------------

  /** The logs of transaction `t`, reported as those of transaction `pos`. */
  function TxLogs(number: nat, b: Block, t: nat, pos: nat): (r: seq<Located>)
    requires Paired(b) && t < |b.receipts| && pos < |b.txHashes|
    ensures |r| == |LogsOf(b.receipts[t])|
  {
    var logs, first := LogsOf(b.receipts[t]), CountLogs(b.receipts[..t]);
    seq(|logs|, i requires 0 <= i < |logs| => Located(logs[i], b.hash, number, b.txHashes[pos], pos, i, first + i))
  }

  function ScanUpTo(number: nat, b: Block, t: nat): seq<Located>
    requires Paired(b) && t <= |b.receipts|
  {
    if t == 0 then [] else ScanUpTo(number, b, t - 1) + TxLogs(number, b, t - 1, t - 1)
  }

  /** Logs numbered forwards, transaction by transaction. */
  function ScanBlock(number: nat, b: Block): seq<Located>
    requires Paired(b)
  {
    ScanUpTo(number, b, |b.receipts|)
  }

  // ---------------------------------------------------------------------
  // The backward walk of the source
  // ---------------------------------------------------------------------

  /** The logs of the receipts that are present. */
  function Present(rs: seq<Option<Receipt>>): seq<seq<LogEntry>> {
    if rs == [] then [] else (if rs[0].Some? then [rs[0].value.logs] else []) + Present(rs[1..])
  }

  /** One transaction's logs, last one first; `current` is the counter. */
  function WalkTx(number: nat, hash: Hash, n: int, index: int, logs: seq<LogEntry>, txHash: Hash, current: int): seq<Located> {
    seq(|logs|, i requires 0 <= i < |logs| =>
      Located(logs[|logs| - 1 - i], hash, number, txHash, n - index - 1, |logs| - i - 1, current - i - 1))
  }

  /** The zipped lists of logs and hashes, with the index and the counter. */
  function Walk(number: nat, hash: Hash, n: int, logss: seq<seq<LogEntry>>, hashes: seq<Hash>,
                index: int, current: int): seq<Located>
    decreases |logss|
  {
    if logss == [] || hashes == [] then []
    else
      WalkTx(number, hash, n, index, logss[0], hashes[0], current)
      + Walk(number, hash, n, logss[1..], hashes[1..], index + 1, current - |logss[0]|)
  }

  function WalkBlock(number: nat, b: Block): seq<Located>
    requires Paired(b)
  {
    Walk(number, b.hash, |b.receipts|, Present(Reverse(b.receipts)), Reverse(b.txHashes), 0, CountLogs(b.receipts))
  }

  // ---------------------------------------------------------------------
  // What the backward walk reports, for every block
  // ---------------------------------------------------------------------

  function Missing(rs: seq<Option<Receipt>>): nat {
    if rs == [] then 0 else (if rs[0].None? then 1 else 0) + Missing(rs[1..])
  }

  lemma {:induction false} MissingBound(rs: seq<Option<Receipt>>)
    ensures Missing(rs) <= |rs|
  {
    if rs != [] {
      MissingBound(rs[1..]);
    }
  }

  /** Where the walk puts transaction `t`: too far back by the number of missing
      receipts behind it. */
  function WalkPos(b: Block, t: nat): (pos: nat)
    requires t < |b.receipts|
    ensures pos < |b.receipts|
  {
    MissingBound(b.receipts[t + 1..]);
    t + Missing(b.receipts[t + 1..])
  }

  function ReportUpTo(number: nat, b: Block, t: nat): seq<Located>
    requires Paired(b) && t <= |b.receipts|
  {
    if t == 0 then [] else ReportUpTo(number, b, t - 1) + TxLogs(number, b, t - 1, WalkPos(b, t - 1))
  }

  lemma WalkTxReversed(number: nat, b: Block, t: nat, pos: nat)
    requires Paired(b) && t < |b.receipts| && pos < |b.txHashes| && b.receipts[t].Some?
    ensures Reverse(WalkTx(number, b.hash, |b.receipts|, |b.receipts| - 1 - pos, b.receipts[t].value.logs, b.txHashes[pos],
                           CountLogs(b.receipts[..t + 1])))
            == TxLogs(number, b, t, pos)
  {
    var logs := b.receipts[t].value.logs;
    var w := WalkTx(number, b.hash, |b.receipts|, |b.receipts| - 1 - pos, logs, b.txHashes[pos], CountLogs(b.receipts[..t + 1]));
    assert b.receipts[..t + 1][..t] == b.receipts[..t];
    forall i | 0 <= i < |logs|
      ensures Reverse(w)[i] == TxLogs(number, b, t, pos)[i]
    {
      ReverseAt(w, i);
    }
  }

  lemma ReverseLast<T>(xs: seq<T>, t: nat)
    requires 0 < t <= |xs|
    ensures Reverse(xs[..t]) == [xs[t - 1]] + Reverse(xs[..t - 1])
  {
    assert xs[..t] == xs[..t - 1] + [xs[t - 1]];
    ReverseConcat(xs[..t - 1], [xs[t - 1]]);
  }

  /** The rest of the walk once it has passed the transactions from `t` on, with
      `lost` missing receipts among them: the hash list has been shortened only by
      the receipts that were present. */
  function WalkRest(number: nat, b: Block, t: nat, lost: nat): seq<Located>
    requires Paired(b) && t + lost <= |b.receipts|
  {
    Walk(number, b.hash, |b.receipts|, Present(Reverse(b.receipts[..t])), Reverse(b.txHashes[..t + lost]),
         |b.receipts| - t - lost, CountLogs(b.receipts[..t]))
  }

  lemma WalkPresent(number: nat, b: Block, t: nat, lost: nat)
    requires Paired(b) && 0 < t && t + lost <= |b.receipts| && b.receipts[t - 1].Some?
    ensures Reverse(WalkRest(number, b, t, lost)) ==
            Reverse(WalkRest(number, b, t - 1, lost)) + TxLogs(number, b, t - 1, t - 1 + lost)
  {
    hide Reverse, TxLogs, WalkTx;
    var n, u := |b.receipts|, t - 1;
    var logs, before, hashes := b.receipts[u].value.logs, Present(Reverse(b.receipts[..u])), Reverse(b.txHashes[..t + lost]);
    ReverseLast(b.receipts, t);
    assert Reverse(b.receipts[..t])[1..] == Reverse(b.receipts[..u]);
    assert Present(Reverse(b.receipts[..t])) == [logs] + before;
    ReverseLast(b.txHashes, t + lost);
    assert hashes[1..] == Reverse(b.txHashes[..u + lost]);
    assert b.receipts[..t][..u] == b.receipts[..u];
    assert ([logs] + before)[1..] == before;
    var first := WalkTx(number, b.hash, n, n - t - lost, logs, hashes[0], CountLogs(b.receipts[..t]));
    assert WalkRest(number, b, t, lost) == first + WalkRest(number, b, u, lost);
    ReverseConcat(first, WalkRest(number, b, u, lost));
    WalkTxReversed(number, b, u, u + lost);
  }

  lemma WalkMissing(number: nat, b: Block, t: nat, lost: nat)
    requires Paired(b) && 0 < t && t + lost <= |b.receipts| && b.receipts[t - 1].None?
    ensures WalkRest(number, b, t, lost) == WalkRest(number, b, t - 1, lost + 1)
  {
    ReverseLast(b.receipts, t);
    assert Reverse(b.receipts[..t])[1..] == Reverse(b.receipts[..t - 1]);
    assert Present(Reverse(b.receipts[..t])) == Present(Reverse(b.receipts[..t - 1]));
    assert b.receipts[..t][..t - 1] == b.receipts[..t - 1];
  }

  lemma {:induction false} WalkReports(number: nat, b: Block, t: nat)
    requires Paired(b) && t <= |b.receipts|
    ensures t + Missing(b.receipts[t..]) <= |b.receipts|
    ensures Reverse(WalkRest(number, b, t, Missing(b.receipts[t..]))) == ReportUpTo(number, b, t)
  {
    hide WalkRest, Reverse, TxLogs;
    MissingBound(b.receipts[t..]);
    if t == 0 {
      WalkNothing(number, b, Missing(b.receipts));
      assert b.receipts[0..] == b.receipts;
    } else {
      var u, lost := t - 1, Missing(b.receipts[t..]);
      WalkReports(number, b, u);
      assert b.receipts[u..][1..] == b.receipts[t..];
      if b.receipts[u].Some? {
        WalkPresent(number, b, t, lost);
      } else {
        WalkMissing(number, b, t, lost);
        assert |TxLogs(number, b, u, WalkPos(b, u))| == 0;
      }
    }
  }

  lemma WalkNothing(number: nat, b: Block, lost: nat)
    requires Paired(b) && lost <= |b.receipts|
    ensures WalkRest(number, b, 0, lost) == []
  {
  }

  /** What the source reports for a block: every log once, in order, but under the
      transaction that is too far back by the missing receipts behind it. */
  lemma WalkBlockReports(number: nat, b: Block)
    requires Paired(b)
    ensures Reverse(WalkBlock(number, b)) == ReportUpTo(number, b, |b.receipts|)
  {
    var n := |b.receipts|;
    WalkReports(number, b, n);
    assert b.receipts[..n] == b.receipts && b.txHashes[..n] == b.txHashes && b.receipts[n..] == [];
  }

  /** No receipt is missing behind one that has logs. */
  predicate GapFree(b: Block) {
    forall t :: 0 <= t < |b.receipts| && LogsOf(b.receipts[t]) != [] ==> Missing(b.receipts[t + 1..]) == 0
  }

  lemma {:induction false} ReportIsScan(number: nat, b: Block, t: nat)
    requires Paired(b) && t <= |b.receipts|
    ensures |ReportUpTo(number, b, t)| == |ScanUpTo(number, b, t)|
    ensures ReportUpTo(number, b, t) == ScanUpTo(number, b, t)
            <==> forall u :: 0 <= u < t && LogsOf(b.receipts[u]) != [] ==> Missing(b.receipts[u + 1..]) == 0
  {
    if t > 0 {
      var u := t - 1;
      ReportIsScan(number, b, u);
      var reported, scanned := TxLogs(number, b, u, WalkPos(b, u)), TxLogs(number, b, u, u);
      ConcatEqual(ReportUpTo(number, b, u), reported, ScanUpTo(number, b, u), scanned);
      if LogsOf(b.receipts[u]) != [] && Missing(b.receipts[u + 1..]) != 0 {
        assert reported[0].txIndex != scanned[0].txIndex;
      } else {
        assert reported == scanned;
      }
    }
  }

  lemma ConcatEqual<T>(a: seq<T>, b: seq<T>, c: seq<T>, d: seq<T>)
    requires |a| == |c|
    ensures a + b == c + d <==> a == c && b == d
  {
    assert (a + b)[..|a|] == a && (c + d)[..|a|] == c;
    assert (a + b)[|a|..] == b && (c + d)[|a|..] == d;
  }

  /** The backward walk of a block is the reverse of the forward scan - same
      transaction, log and in-transaction indices, same hashes - exactly when no
      receipt is missing behind one that has logs. */
  lemma WalkIsScanIffGapFree(number: nat, b: Block)
    requires Paired(b)
    ensures Reverse(WalkBlock(number, b)) == ScanBlock(number, b) <==> GapFree(b)
  {
    WalkBlockReports(number, b);
    ReportIsScan(number, b, |b.receipts|);
  }

  // ---------------------------------------------------------------------
  // Preselection by bloom
  // ---------------------------------------------------------------------

  /** The header's bloom combines the blooms of the receipts that are present. */
  function BlockBloom(h: Hashing, rs: seq<Option<Receipt>>): Bloom {
    if rs == [] then {} else BlockBloom(h, rs[..|rs| - 1]) + LogsBloom(h, LogsOf(rs[|rs| - 1]))
  }

  ghost predicate ValidBlock(h: Hashing, b: Block) {
    Paired(b) && GapFree(b) && b.bloom == BlockBloom(h, b.receipts)
  }

  ghost predicate ValidChain(h: Hashing, chain: seq<Block>) {
    Proper(h) && forall i :: 0 <= i < |chain| ==> ValidBlock(h, chain[i])
  }

  /** The bloom index: the heights in a range, both ends included, whose bloom is
      not empty and contains the one asked for. */
  predicate Indexed(chain: seq<Block>, bloom: Bloom, from: nat, to: nat, k: nat) {
    from <= k <= to && k < |chain| && chain[k].bloom != {} && bloom <= chain[k].bloom
  }

  predicate IndexedForSome(h: Hashing, chain: seq<Block>, f: Filter, from: nat, to: nat, k: nat) {
    exists p :: p in BloomPossibilities(h, f) && Indexed(chain, p, from, to, k)
  }

  /** The heights found for any of the filter's possibilities. */
  function Preselected(h: Hashing, chain: seq<Block>, f: Filter, from: nat, to: nat): set<nat> {
    set k: nat | k < |chain| && IndexedForSome(h, chain, f, from, to, k)
  }

  lemma {:induction false} ScannedAreLogged(number: nat, b: Block, t: nat, x: Located)
    requires Paired(b) && t <= |b.receipts| && x in ScanUpTo(number, b, t)
    ensures exists u :: 0 <= u < t && x.entry in LogsOf(b.receipts[u])
  {
    if x in ScanUpTo(number, b, t - 1) {
      ScannedAreLogged(number, b, t - 1, x);
    } else {
      var logs := TxLogs(number, b, t - 1, t - 1);
      var i :| 0 <= i < |logs| && logs[i] == x;
      assert x.entry == LogsOf(b.receipts[t - 1])[i];
    }
  }

  lemma {:induction false} BlockBloomContains(h: Hashing, rs: seq<Option<Receipt>>, u: nat, e: LogEntry)
    requires u < |rs| && e in LogsOf(rs[u])
    ensures EntryBloom(h, e) <= BlockBloom(h, rs)
  {
    var n := |rs| - 1;
    if u == n {
      FoldLogsContains(h, {}, LogsOf(rs[n]));
    } else {
      BlockBloomContains(h, rs[..n], u, e);
    }
  }

  /** A block in range that holds a log the filter matches is preselected. */
  lemma MatchIsPreselected(h: Hashing, chain: seq<Block>, f: Filter, from: nat, to: nat, k: nat, x: Located)
    requires ValidChain(h, chain) && NoEmptySlot(f.topics)
    requires from <= k <= to && k < |chain|
    requires x in ScanBlock(k, chain[k]) && Matches(f, x.entry)
    ensures k in Preselected(h, chain, f, from, to)
  {
    var b := chain[k];
    ScannedAreLogged(k, b, |b.receipts|, x);
    var u :| 0 <= u < |b.receipts| && x.entry in LogsOf(b.receipts[u]);
    BlockBloomContains(h, b.receipts, u, x.entry);
    NoFalseNegatives(h, f, x.entry);
    var p :| p in BloomPossibilities(h, f) && p <= EntryBloom(h, x.entry);
    FoldTopicsContains(h, h.ofAddress(x.entry.address), x.entry.topics);
    assert Indexed(chain, p, from, to, k);
  }

  lemma UnselectedHasNoMatch(h: Hashing, chain: seq<Block>, f: Filter, from: nat, to: nat, k: nat)
    requires ValidChain(h, chain) && NoEmptySlot(f.topics)
    requires from <= k <= to && k < |chain| && k !in Preselected(h, chain, f, from, to)
    ensures Keep(MatchesLocated(f), ScanBlock(k, chain[k])) == []
  {
    forall x | x in ScanBlock(k, chain[k])
      ensures !Matches(f, x.entry)
    {
      if Matches(f, x.entry) {
        MatchIsPreselected(h, chain, f, from, to, k, x);
      }
    }
    KeepNone(MatchesLocated(f), ScanBlock(k, chain[k]));
  }

  function MatchesLocated(f: Filter): Located -> bool {
    (x: Located) => Matches(f, x.entry)
  }

  // ---------------------------------------------------------------------
  // Sorting the preselected heights
  // ---------------------------------------------------------------------

  function InsertDescending(x: nat, xs: seq<nat>): seq<nat> {
    if xs == [] || x >= xs[0] then [x] + xs else [xs[0]] + InsertDescending(x, xs[1..])
  }

  function SortDescending(xs: seq<nat>): seq<nat> {
    if xs == [] then [] else InsertDescending(xs[0], SortDescending(xs[1..]))
  }

  ghost predicate Descending(xs: seq<nat>) {
    forall i, j :: 0 <= i < j < |xs| ==> xs[i] > xs[j]
  }

  ghost predicate Distinct(xs: seq<nat>) {
    forall i, j :: 0 <= i < j < |xs| ==> xs[i] != xs[j]
  }

  lemma {:induction false} InsertKeepsOrder(x: nat, xs: seq<nat>)
    requires Descending(xs) && x !in xs
    ensures Descending(InsertDescending(x, xs))
    ensures forall y :: y in InsertDescending(x, xs) <==> y == x || y in xs
  {
    if xs != [] && x < xs[0] {
      InsertKeepsOrder(x, xs[1..]);
      assert xs == [xs[0]] + xs[1..];
      var r := InsertDescending(x, xs[1..]);
      forall j | 0 <= j < |r|
        ensures r[j] < xs[0]
      {
        assert r[j] in r;
      }
    }
  }

  lemma {:induction false} SortSorts(xs: seq<nat>)
    requires Distinct(xs)
    ensures Descending(SortDescending(xs))
    ensures forall y :: y in SortDescending(xs) <==> y in xs
  {
    if xs != [] {
      SortSorts(xs[1..]);
      assert xs == [xs[0]] + xs[1..];
      InsertKeepsOrder(xs[0], SortDescending(xs[1..]));
    }
  }

  /** The members of `s` from just below `hi` down to `lo`. */
  function Downwards(s: set<nat>, lo: nat, hi: nat): seq<nat>
    decreases hi
  {
    if hi <= lo then [] else (if hi - 1 in s then [hi - 1] else []) + Downwards(s, lo, hi - 1)
  }

  lemma NonEmptyHasMember(xs: seq<nat>)
    ensures xs == [] || exists x :: x in xs
  {
    if xs != [] {
      assert xs[0] in xs;
    }
  }

  lemma {:induction false} OnlyOneOrder(xs: seq<nat>, s: set<nat>, lo: nat, hi: nat)
    requires Descending(xs)
    requires forall x :: x in xs <==> x in s && lo <= x < hi
    ensures xs == Downwards(s, lo, hi)
    decreases hi
  {
    if hi <= lo {
      NonEmptyHasMember(xs);
    } else if hi - 1 in s {
      assert hi - 1 in xs;
      assert xs[0] in xs;
      assert xs[0] == hi - 1;
      forall x
        ensures x in xs[1..] <==> x in s && lo <= x < hi - 1
      {
        if x in xs[1..] {
          assert x in xs && x < xs[0];
        }
        if x in s && lo <= x < hi - 1 {
          assert x in xs;
        }
      }
      OnlyOneOrder(xs[1..], s, lo, hi - 1);
    } else {
      OnlyOneOrder(xs, s, lo, hi - 1);
    }
  }

  // ---------------------------------------------------------------------
  // The query
  // ---------------------------------------------------------------------

  /** Walks the blocks in the order given. */
  function WalkAll(chain: seq<Block>, heights: seq<nat>): seq<Located>
    requires forall i :: 0 <= i < |chain| ==> Paired(chain[i])
  {
    if heights == [] then []
    else (if heights[0] < |chain| then WalkBlock(heights[0], chain[heights[0]]) else []) + WalkAll(chain, heights[1..])
  }

  function Limited<T>(limit: Option<nat>, xs: seq<T>): seq<T> {
    if limit.Some? then Take(limit.value, xs) else xs
  }

  /** `logs`: newest first, filtered, cut, turned round. */
  function Logs(chain: seq<Block>, blocks: seq<nat>, f: Filter, limit: Option<nat>): seq<Located>
    requires forall i :: 0 <= i < |chain| ==> Paired(chain[i])
  {
    Reverse(Limited(limit, Keep(MatchesLocated(f), WalkAll(chain, SortDescending(blocks)))))
  }

  /** The blocks from `lo` up to but excluding `hi`, oldest first. */
  function ScanRange(chain: seq<Block>, lo: nat, hi: nat): seq<Located>
    requires hi <= |chain| && forall i :: 0 <= i < |chain| ==> Paired(chain[i])
  {
    if hi <= lo then [] else ScanRange(chain, lo, hi - 1) + ScanBlock(hi - 1, chain[hi - 1])
  }

  /** Skipping the blocks that were not preselected loses nothing, and walking
      backwards finds what scanning forwards finds. */
  lemma {:induction false} WalkFindsScan(h: Hashing, chain: seq<Block>, f: Filter, from: nat, to: nat, hi: nat)
    requires ValidChain(h, chain) && NoEmptySlot(f.topics) && hi <= |chain| && hi <= to + 1
    ensures
      var s := Preselected(h, chain, f, from, to);
      Keep(MatchesLocated(f), WalkAll(chain, Downwards(s, from, hi)))
      == Reverse(Keep(MatchesLocated(f), ScanRange(chain, from, hi)))
    decreases hi
  {
    hide Preselected, ScanBlock, WalkBlock;
    var s, m := Preselected(h, chain, f, from, to), MatchesLocated(f);
    if hi > from {
      var k := hi - 1;
      var rest, scan := Downwards(s, from, k), ScanBlock(k, chain[k]);
      WalkFindsScan(h, chain, f, from, to, k);
      KeepConcat(m, ScanRange(chain, from, k), scan);
      ReverseConcat(Keep(m, ScanRange(chain, from, k)), Keep(m, scan));
      if k in s {
        assert Downwards(s, from, hi) == [k] + rest && ([k] + rest)[1..] == rest;
        KeepConcat(m, WalkBlock(k, chain[k]), WalkAll(chain, rest));
        KeptBackwards(h, chain, f, k);
      } else {
        assert Downwards(s, from, hi) == [] + rest == rest;
        UnselectedHasNoMatch(h, chain, f, from, to, k);
      }
    }
  }

  lemma KeptBackwards(h: Hashing, chain: seq<Block>, f: Filter, k: nat)
    requires ValidChain(h, chain) && k < |chain|
    ensures Keep(MatchesLocated(f), WalkBlock(k, chain[k])) == Reverse(Keep(MatchesLocated(f), ScanBlock(k, chain[k])))
  {
    assert ValidBlock(h, chain[k]);
    WalkIsScanIffGapFree(k, chain[k]);
    KeepReverse(MatchesLocated(f), WalkBlock(k, chain[k]));
    ReverseTwice(Keep(MatchesLocated(f), WalkBlock(k, chain[k])));
  }

  lemma {:induction false} ReverseTwice<T>(xs: seq<T>)
    ensures Reverse(Reverse(xs)) == xs
  {
    if xs != [] {
      ReverseConcat(Reverse(xs[1..]), [xs[0]]);
      ReverseTwice(xs[1..]);
    }
  }

  /** The query is the naive one: scan the blocks of the range from the oldest to
      the newest, number everything forwards, keep what the filter matches and
      return the last `limit` entries. `blocks` is the preselected set in
      whatever order a hash set yields it. */
  lemma GetLogsIsNaiveScan(h: Hashing, chain: seq<Block>, f: Filter, from: nat, to: nat, limit: Option<nat>, blocks: seq<nat>)
    requires ValidChain(h, chain) && NoEmptySlot(f.topics)
    requires Distinct(blocks) && forall k :: k in blocks <==> k in Preselected(h, chain, f, from, to)
    ensures
      var hi := if to < |chain| then to + 1 else |chain|;
      var found := Keep(MatchesLocated(f), ScanRange(chain, from, hi));
      Logs(chain, blocks, f, limit) == if limit.Some? then LastN(limit.value, found) else found
  {
    var s, m := Preselected(h, chain, f, from, to), MatchesLocated(f);
    var hi := if to < |chain| then to + 1 else |chain|;
    SortSorts(blocks);
    assert forall k :: k in s ==> from <= k < hi;
    OnlyOneOrder(SortDescending(blocks), s, from, hi);
    WalkFindsScan(h, chain, f, from, to, hi);
    var found := Keep(m, ScanRange(chain, from, hi));
    if limit.Some? {
      ReverseTake(limit.value, found);
    } else {
      ReverseTwice(found);
    }
  }

  /** A filter with an empty list of topics in a slot finds nothing, whatever the
      chain holds; so for it the query is the naive scan only if that is empty. */
  lemma EmptySlotFindsNothing(h: Hashing, chain: seq<Block>, f: Filter, from: nat, to: nat, limit: Option<nat>, blocks: seq<nat>)
    requires ValidChain(h, chain) && !NoEmptySlot(f.topics)
    requires Distinct(blocks) && forall k :: k in blocks <==> k in Preselected(h, chain, f, from, to)
    ensures Logs(chain, blocks, f, limit) == []
  {
    NoPossibilities(h, f);
    NonEmptyHasMember(blocks);
  }

  // ---------------------------------------------------------------------
  // What is found
  // ---------------------------------------------------------------------

  /** The k-th log of a block carries index k; its entry and its transaction's hash are
      those at its own transaction and in-transaction indices. */
  ghost predicate Locates(number: nat, b: Block, k: nat, x: Located) {
    && x.logIndex == k && x.blockNumber == number && x.blockHash == b.hash
    && 0 <= x.txIndex < |b.receipts| && x.txIndex < |b.txHashes|
    && x.txHash == b.txHashes[x.txIndex]
    && 0 <= x.txLogIndex < |LogsOf(b.receipts[x.txIndex])|
    && x.entry == LogsOf(b.receipts[x.txIndex])[x.txLogIndex]
  }

  lemma {:induction false} ScanLocates(number: nat, b: Block, t: nat)
    requires Paired(b) && t <= |b.receipts|
    ensures |ScanUpTo(number, b, t)| == CountLogs(b.receipts[..t])
    ensures forall k :: 0 <= k < |ScanUpTo(number, b, t)| ==> Locates(number, b, k, ScanUpTo(number, b, t)[k])
  {
    if t > 0 {
      ScanLocates(number, b, t - 1);
      assert b.receipts[..t][..t - 1] == b.receipts[..t - 1];
    }
  }

  /** The scan of a block holds every log of it: where transaction `t`'s logs begin is
      told by the logs before it. */
  lemma {:induction false} ScanHolds(number: nat, b: Block, n: nat, t: nat, i: nat)
    requires Paired(b) && t < n <= |b.receipts| && i < |LogsOf(b.receipts[t])|
    ensures
      var k := CountLogs(b.receipts[..t]) + i;
      k < |ScanUpTo(number, b, n)| && ScanUpTo(number, b, n)[k].txIndex == t && ScanUpTo(number, b, n)[k].txLogIndex == i
  {
    hide TxLogs, CountLogs, Locates, ScanUpTo;
    var before, k := ScanUpTo(number, b, n - 1), CountLogs(b.receipts[..t]) + i;
    var last := TxLogs(number, b, n - 1, n - 1);
    ScanGrows(number, b, n);
    if n - 1 > t {
      ScanHolds(number, b, n - 1, t, i);
      assert (before + last)[k] == before[k];
    } else {
      ScanLocates(number, b, t);
      TxLogAt(number, b, t, i);
      assert (before + last)[k] == last[i];
    }
  }

  lemma ScanGrows(number: nat, b: Block, n: nat)
    requires Paired(b) && 0 < n <= |b.receipts|
    ensures ScanUpTo(number, b, n) == ScanUpTo(number, b, n - 1) + TxLogs(number, b, n - 1, n - 1)
  {
  }

  lemma TxLogAt(number: nat, b: Block, t: nat, i: nat)
    requires Paired(b) && t < |b.receipts| && i < |LogsOf(b.receipts[t])|
    ensures TxLogs(number, b, t, t)[i].txIndex == t && TxLogs(number, b, t, t)[i].txLogIndex == i
  {
  }

  /** A log is found exactly if it is in a block of the range and the filter matches it. */
  ghost predicate FoundIn(chain: seq<Block>, f: Filter, from: nat, to: nat, x: Located)
    requires forall i :: 0 <= i < |chain| ==> Paired(chain[i])
  {
    exists k :: from <= k <= to && k < |chain| && x in ScanBlock(k, chain[k]) && Matches(f, x.entry)
  }

  lemma {:induction false} ScanRangeHolds(chain: seq<Block>, lo: nat, hi: nat, x: Located)
    requires hi <= |chain| && forall i :: 0 <= i < |chain| ==> Paired(chain[i])
    ensures x in ScanRange(chain, lo, hi) <==> exists k :: lo <= k < hi && x in ScanBlock(k, chain[k])
  {
    hide ScanBlock;
    if hi > lo {
      ScanRangeHolds(chain, lo, hi - 1, x);
      if x in ScanRange(chain, lo, hi - 1) {
        var k :| lo <= k < hi - 1 && x in ScanBlock(k, chain[k]);
      }
    }
  }

  lemma QueryFinds(h: Hashing, chain: seq<Block>, f: Filter, from: nat, to: nat, blocks: seq<nat>, x: Located)
    requires ValidChain(h, chain) && NoEmptySlot(f.topics)
    requires Distinct(blocks) && forall k :: k in blocks <==> k in Preselected(h, chain, f, from, to)
    ensures x in Logs(chain, blocks, f, None) <==> FoundIn(chain, f, from, to, x)
  {
    hide Preselected, Logs, ScanBlock;
    GetLogsIsNaiveScan(h, chain, f, from, to, None, blocks);
    var hi := if to < |chain| then to + 1 else |chain|;
    KeepMembers(MatchesLocated(f), ScanRange(chain, from, hi), x);
    ScanRangeHolds(chain, from, hi, x);
  }

  /** A query with alternatives in a slot finds a log exactly if the query with one half
      of them or the query with the other half finds it. */
  lemma AlternativesAreUnion(h: Hashing, chain: seq<Block>, f: Filter, i: nat, a: seq<Topic>, b: seq<Topic>,
                             from: nat, to: nat, x: Located, both: seq<nat>, left: seq<nat>, right: seq<nat>)
    requires ValidChain(h, chain) && NoEmptySlot(f.topics) && i < |f.topics| && a != [] && b != []
    requires Selects(h, chain, WithSlot(f, i, Some(a + b)), from, to, both)
    requires Selects(h, chain, WithSlot(f, i, Some(a)), from, to, left)
    requires Selects(h, chain, WithSlot(f, i, Some(b)), from, to, right)
    ensures x in Logs(chain, both, WithSlot(f, i, Some(a + b)), None) <==>
            || x in Logs(chain, left, WithSlot(f, i, Some(a)), None)
            || x in Logs(chain, right, WithSlot(f, i, Some(b)), None)
  {
    hide Preselected, Logs, Matches, ScanBlock;
    assert a + b != [];
    QueryFinds(h, chain, WithSlot(f, i, Some(a + b)), from, to, both, x);
    QueryFinds(h, chain, WithSlot(f, i, Some(a)), from, to, left, x);
    QueryFinds(h, chain, WithSlot(f, i, Some(b)), from, to, right, x);
    TopicLaws(f, i, a, b, a[0], x.entry);
  }

  /** A query for one topic finds what the query without it finds and that has it. */
  lemma OneTopicFilters(h: Hashing, chain: seq<Block>, f: Filter, i: nat, t: Topic,
                        from: nat, to: nat, x: Located, one: seq<nat>, any: seq<nat>)
    requires ValidChain(h, chain) && NoEmptySlot(f.topics) && i < |f.topics|
    requires Selects(h, chain, WithSlot(f, i, Some([t])), from, to, one)
    requires Selects(h, chain, WithSlot(f, i, None), from, to, any)
    ensures x in Logs(chain, one, WithSlot(f, i, Some([t])), None) <==>
            x in Logs(chain, any, WithSlot(f, i, None), None) && i < |x.entry.topics| && x.entry.topics[i] == t
  {
    hide Preselected, Logs, Matches, ScanBlock;
    QueryFinds(h, chain, WithSlot(f, i, Some([t])), from, to, one, x);
    QueryFinds(h, chain, WithSlot(f, i, None), from, to, any, x);
    TopicLaws(f, i, [t], [t], t, x.entry);
  }

  /** The same two for addresses. */
  lemma AddressQueries(h: Hashing, chain: seq<Block>, f: Filter, a: seq<Address>, b: seq<Address>, y: Address,
                       from: nat, to: nat, x: Located,
                       both: seq<nat>, left: seq<nat>, right: seq<nat>, one: seq<nat>, any: seq<nat>)
    requires ValidChain(h, chain) && NoEmptySlot(f.topics) && a != [] && b != []
    requires Selects(h, chain, WithAddresses(f, Some(a + b)), from, to, both)
    requires Selects(h, chain, WithAddresses(f, Some(a)), from, to, left)
    requires Selects(h, chain, WithAddresses(f, Some(b)), from, to, right)
    requires Selects(h, chain, WithAddresses(f, Some([y])), from, to, one)
    requires Selects(h, chain, WithAddresses(f, None), from, to, any)
    ensures x in Logs(chain, both, WithAddresses(f, Some(a + b)), None) <==>
            || x in Logs(chain, left, WithAddresses(f, Some(a)), None)
            || x in Logs(chain, right, WithAddresses(f, Some(b)), None)
    ensures x in Logs(chain, one, WithAddresses(f, Some([y])), None) <==>
            x in Logs(chain, any, WithAddresses(f, None), None) && x.entry.address == y
  {
    hide Preselected, Logs, Matches, ScanBlock;
    QueryFinds(h, chain, WithAddresses(f, Some(a + b)), from, to, both, x);
    QueryFinds(h, chain, WithAddresses(f, Some(a)), from, to, left, x);
    QueryFinds(h, chain, WithAddresses(f, Some(b)), from, to, right, x);
    QueryFinds(h, chain, WithAddresses(f, Some([y])), from, to, one, x);
    QueryFinds(h, chain, WithAddresses(f, None), from, to, any, x);
    AddressLaws(f, a, b, y, x.entry);
  }

  /** A filter that asks for nothing finds every log of the range. */
  lemma FreeFilterFindsAll(h: Hashing, chain: seq<Block>, f: Filter, from: nat, to: nat, x: Located, blocks: seq<nat>)
    requires ValidChain(h, chain) && f.addresses.None? && forall i :: 0 <= i < |f.topics| ==> f.topics[i].None?
    requires Selects(h, chain, f, from, to, blocks)
    ensures x in Logs(chain, blocks, f, None) <==>
            exists k :: from <= k <= to && k < |chain| && x in ScanBlock(k, chain[k])
  {
    hide Preselected, Logs, Matches, ScanBlock;
    QueryFinds(h, chain, f, from, to, blocks, x);
    FreeFilterMatches(f, x.entry);
  }

  /** `blocks` lists the preselected heights. */
  ghost predicate Selects(h: Hashing, chain: seq<Block>, f: Filter, from: nat, to: nat, blocks: seq<nat>) {
    Distinct(blocks) && forall k :: k in blocks <==> k in Preselected(h, chain, f, from, to)
  }
}
