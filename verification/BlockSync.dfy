/**
 Block synchronisation between nodes (cita-network/src/synchronizer.rs). The
 synchronizer learns the local height and the heights peers announce, asks one
 peer for the blocks that are missing, collects the blocks that arrive in any
 order and hands them on in batches. A block is proved by its follower, so a
 block of height 2^64 - 1 carries the proof of the last block of a chain.
 */
module BlockSync {
  import opened Basics

  type Content(==, !new)

  const SYNC_STEP: nat := 20
  const U64_MAX: nat := 0xFFFF_FFFF_FFFF_FFFF

  datatype Block = Block(height: nat, content: Content)

  datatype Request = Request(origin: nat, heights: seq<nat>)

  type Positive = n: nat | n > 0 witness 1

  /** A random number, whether the last request timed out and how many peers there are. */
  datatype Env = Env(pick: nat, expired: bool, peers: Positive)

  /** `sent` and `published` are the messages sent so far; `announced` is history. */
  datatype State = State(
    current: nat,
    global: nat,
    syncEnd: nat,
    syncing: bool,
    statuses: map<nat, seq<nat>>,
    blocks: map<nat, Block>,
    sent: seq<Request>,
    published: seq<seq<Block>>,
    announced: set<(nat, nat)>)

  datatype Event =
    | LocalStatus(height: nat, env: Env)
    | RemoteStatus(height: nat, origin: nat, env: Env)
    | Response(blocks: seq<Block>)

  const INIT := State(0, 0, 0, true, map[], map[], [], [], {})

  // ---------------------------------------------------------------------
  // Requests
  // ---------------------------------------------------------------------

  /** `SYNC_STEP` heights in each request, the rest in the last. */
  function Chunks(heights: seq<nat>): seq<seq<nat>> {
    if |heights| <= SYNC_STEP then [heights] else [heights[..SYNC_STEP]] + Chunks(heights[SYNC_STEP..])
  }

  function Range(first: nat, last: int): seq<nat>
    requires first <= last + 1
  {
    seq(last + 1 - first, i => first + i)
  }

  function AskAll(chunks: seq<seq<nat>>, origin: nat): (r: seq<Request>)
    ensures |r| == |chunks|
    ensures forall i :: 0 <= i < |r| ==> r[i] == Request(origin, chunks[i])
  {
    seq(|chunks|, i requires 0 <= i < |chunks| => Request(origin, chunks[i]))
  }

  /** `sync_strategy`. */
  function Strategy(current: nat, first: nat, last: nat, origin: nat): seq<Request> {
    if first >= current && first <= last then AskAll(Chunks(Range(first, last)), origin) else []
  }

  predicate Served(statuses: map<nat, seq<nat>>) {
    forall h :: h in statuses ==> statuses[h] != []
  }

  predicate IsGreatest(heights: set<nat>, h: nat) {
    h in heights && forall g :: g in heights ==> g <= h
  }

  lemma {:induction false} HasGreatest(heights: set<nat>)
    requires heights != {}
    ensures exists h :: IsGreatest(heights, h)
  {
    var h :| h in heights;
    var rest := heights - {h};
    assert heights == rest + {h};
    if rest == {} {
      assert IsGreatest(heights, h);
    } else {
      HasGreatest(rest);
      var m :| IsGreatest(rest, m);
      assert IsGreatest(heights, if m > h then m else h);
    }
  }

  function Greatest(heights: set<nat>): (h: nat)
    requires heights != {}
    ensures IsGreatest(heights, h)
  {
    HasGreatest(heights);
    var h :| h in heights && IsGreatest(heights, h);
    h
  }

  /** The heights that enough peers announced; the source's quotient is of integers. */
  function Candidates(statuses: map<nat, seq<nat>>, peers: Positive): set<nat> {
    set h | h in statuses && |statuses[h]| >= 2 / (3 * peers)
  }

  /** `start_sync_req`: one peer of the greatest height is asked. An end of 0 means that height. */
  function StartReq(statuses: map<nat, seq<nat>>, current: nat, first: nat, last: nat, env: Env): seq<Request>
    requires Served(statuses)
  {
    var heights := Candidates(statuses, env.peers);
    if heights == {} then []
    else
      var h := Greatest(heights);
      if h > current
      then Strategy(current, first, if last == 0 then h + 1 else last, statuses[h][env.pick % |statuses[h]|])
      else []
  }

  // ---------------------------------------------------------------------
  // Batches
  // ---------------------------------------------------------------------

  /** How many blocks follow each other from a height on, up to a limit. */
  function RunLength(blocks: map<nat, Block>, first: nat, limit: nat): (n: nat)
    ensures n <= limit
    ensures forall h :: first <= h < first + n ==> h in blocks
    ensures n < limit ==> first + n !in blocks
    decreases limit
  {
    if limit == 0 || first !in blocks then 0 else 1 + RunLength(blocks, first + 1, limit - 1)
  }

  function Consecutive(blocks: map<nat, Block>, first: nat, n: nat): (r: seq<Block>)
    requires forall h :: first <= h < first + n ==> h in blocks
    ensures |r| == n && forall i :: 0 <= i < n ==> r[i] == blocks[first + i]
  {
    seq(n, i requires 0 <= i < n => blocks[first + i])
  }

  function From(blocks: map<nat, Block>, first: nat): map<nat, Block> {
    map h | h in blocks && h >= first :: blocks[h]
  }

  function Without(blocks: map<nat, Block>, first: nat, n: nat): map<nat, Block> {
    map h | h in blocks && !(first <= h < first + n) :: blocks[h]
  }

  function Publish(s: State, batch: seq<Block>): State {
    if batch == [] then s
    else s.(syncEnd := s.current + |batch| - 1, published := s.published + [batch])
  }

  /** `submit_blocks`. */
  function Submit(s: State): (t: State)
    ensures t == s.(syncEnd := t.syncEnd, blocks := t.blocks, published := t.published)
    ensures t.syncEnd == s.syncEnd || t.syncEnd >= s.current
  {
    var first := s.current + 1;
    var kept := From(s.blocks, first);
    var n := RunLength(kept, first, SYNC_STEP + 1);
    var batch := Consecutive(kept, first, n);
    var rest := Without(kept, first, n);
    if rest.Keys == {U64_MAX} then Publish(s.(blocks := map[]), batch + [rest[U64_MAX]])
    else if n > 0 then Publish(s.(blocks := rest[batch[n - 1].height := batch[n - 1]]), batch)
    else s.(blocks := rest)
  }

  // ---------------------------------------------------------------------
  // Steps
  // ---------------------------------------------------------------------

  function Ask(s: State, first: nat, last: nat, env: Env): State
    requires Served(s.statuses)
  {
    s.(sent := s.sent + StartReq(s.statuses, s.current, first, last, env))
  }

  /** `update_current_status`. */
  function UpdateCurrent(s: State, height: nat, env: Env): State
    requires Served(s.statuses)
  {
    var before := s.current;
    var s1 := s.(statuses := map h | h in s.statuses && h >= height + 1 :: s.statuses[h], current := height);
    if height <= before then Ask(s1, height + 1, 0, env).(syncing := true)
    else if height < s1.syncEnd then Ask(s1, height + 1, s1.syncEnd + 1, env).(syncing := true)
    else if height == s1.syncEnd then
      var s2 := if height + 1 in s1.blocks && height + 2 in s1.blocks then Submit(s1)
                else Ask(s1, height + 1, 0, env);
      s2.(syncing := true)
    else s1.(syncEnd := height, syncing := false)
  }

  function Record(s: State, height: nat, origin: nat): State {
    var origins := if height in s.statuses then s.statuses[height] else [];
    s.(statuses := s.statuses[height := origins + [origin]])
  }

  /** `update_global_status`. */
  function UpdateGlobal(s: State, height: nat, origin: nat, env: Env): State
    requires Served(s.statuses)
  {
    var news := s.global < height;
    var s1 := s.(global := if news then height else s.global, announced := s.announced + {(origin, height)});
    if height < s.current + 1 then s1.(syncing := false)
    else
      var s2 := Record(s1, height, origin);
      if height == s.current + 1 then
        if news && s.syncing then Ask(s2, height, height, env) else s2.(syncing := false)
      else if env.expired || !s.syncing then Ask(s2, s.current + 1, height, env).(syncing := true)
      else if news then Ask(s2, height, height, env)
      else s2
  }

  function InsertAll(blocks: map<nat, Block>, arrived: seq<Block>): map<nat, Block> {
    if arrived == [] then blocks
    else
      var b := arrived[|arrived| - 1];
      InsertAll(blocks, arrived[..|arrived| - 1])[b.height := b]
  }

  function Step(s: State, e: Event): (t: State)
    requires Served(s.statuses)
    ensures Served(t.statuses)
  {
    match e
    case LocalStatus(height, env) => UpdateCurrent(s, height, env)
    case RemoteStatus(height, origin, env) => UpdateGlobal(s, height, origin, env)
    case Response(blocks) => Submit(s.(blocks := InsertAll(s.blocks, blocks)))
  }

  function Run(events: seq<Event>): (s: State)
    ensures Served(s.statuses)
  {
    if events == [] then INIT else Step(Run(events[..|events| - 1]), events[|events| - 1])
  }

  // ---------------------------------------------------------------------
  // What a request asks for
  // ---------------------------------------------------------------------

  function Concat(chunks: seq<seq<nat>>): seq<nat> {
    if chunks == [] then [] else chunks[0] + Concat(chunks[1..])
  }

  /** Nothing is left out or asked twice, and only the last request is short. */
  lemma {:induction false} ChunksCover(heights: seq<nat>)
    requires heights != []
    ensures
      var chunks := Chunks(heights);
      && Concat(chunks) == heights
      && chunks != []
      && (forall i :: 0 <= i < |chunks| - 1 ==> |chunks[i]| == 20)
      && 1 <= |chunks[|chunks| - 1]| <= 20
  {
    var chunks := Chunks(heights);
    if |heights| > SYNC_STEP {
      ChunksCover(heights[SYNC_STEP..]);
      assert chunks[1..] == Chunks(heights[SYNC_STEP..]);
      assert heights == heights[..SYNC_STEP] + heights[SYNC_STEP..];
    } else {
      assert chunks[1..] == [];
      assert Concat(chunks) == chunks[0] + [];
    }
  }

  lemma {:induction false} ChunksWithin(heights: seq<nat>, i: nat, h: nat)
    requires i < |Chunks(heights)| && h in Chunks(heights)[i]
    ensures h in heights
  {
    if |heights| > SYNC_STEP && i > 0 {
      assert Chunks(heights)[i] == Chunks(heights[SYNC_STEP..])[i - 1];
      ChunksWithin(heights[SYNC_STEP..], i - 1, h);
    }
  }

  lemma ChunkOff(first: nat, last: nat)
    requires first + SYNC_STEP <= last
    ensures Chunks(Range(first, last)) == [Range(first, first + SYNC_STEP - 1)] + Chunks(Range(first + SYNC_STEP, last))
  {
    assert Range(first, last)[..SYNC_STEP] == Range(first, first + SYNC_STEP - 1);
    assert Range(first, last)[SYNC_STEP..] == Range(first + SYNC_STEP, last);
  }

  lemma LastChunk(heights: seq<nat>)
    requires |heights| <= SYNC_STEP
    ensures Chunks(heights) == [heights]
  {
  }

  lemma AskOne(chunks: seq<seq<nat>>, chunk: seq<nat>, origin: nat)
    ensures AskAll(chunks + [chunk], origin) == AskAll(chunks, origin) + [Request(origin, chunk)]
  {
  }

  lemma SentOneMore(sent: seq<Request>, chunks: seq<seq<nat>>, chunk: seq<nat>, origin: nat)
    ensures (sent + AskAll(chunks, origin)) + [Request(origin, chunk)] == sent + AskAll(chunks + [chunk], origin)
  {
    AskOne(chunks, chunk, origin);
  }

  lemma OneChunk(sent: seq<Request>, done: seq<seq<nat>>, chunk: seq<nat>, origin: nat, first: nat, from: nat, last: nat)
    requires first <= from && from + SYNC_STEP <= last && chunk == Range(from, from + SYNC_STEP - 1)
    requires Chunks(Range(first, last)) == done + Chunks(Range(from, last))
    ensures Chunks(Range(first, last)) == (done + [chunk]) + Chunks(Range(from + SYNC_STEP, last))
    ensures (sent + AskAll(done, origin)) + [Request(origin, chunk)] == sent + AskAll(done + [chunk], origin)
  {
    ChunkOff(from, last);
    SentOneMore(sent, done, chunk, origin);
    hide Chunks, Range;
    var rest := Chunks(Range(from + SYNC_STEP, last));
    assert done + ([chunk] + rest) == (done + [chunk]) + rest;
  }

  /** With any peers at all the quotient is 0, so the greatest recorded height is asked. */
  lemma AllAreCandidates(statuses: map<nat, seq<nat>>, peers: Positive)
    ensures Candidates(statuses, peers) == statuses.Keys
  {
  }

  // ---------------------------------------------------------------------
  // What a batch holds
  // ---------------------------------------------------------------------

  /** Blocks are filed under their own heights. */
  ghost predicate Filed(blocks: map<nat, Block>) {
    forall h :: h in blocks ==> blocks[h].height == h
  }

  function Above(blocks: map<nat, Block>, height: nat): set<nat> {
    set h | h in blocks && h > height
  }

  /** The batch is the longest run of consecutive blocks above the current height, of
      at most 21; the proof carrier is added when nothing else is left. */
  lemma BatchIsLongestRun(s: State)
    requires Filed(s.blocks)
    ensures
      var t := Submit(s);
      var n := RunLength(s.blocks, s.current + 1, 21);
      var rest := Above(s.blocks, s.current + n);
      var run := Consecutive(s.blocks, s.current + 1, n);
      var batch := run + if rest == {0xFFFF_FFFF_FFFF_FFFF} then [s.blocks[0xFFFF_FFFF_FFFF_FFFF]] else [];
      && t.published == (if batch == [] then s.published else s.published + [batch])
      && t.syncEnd == (if batch == [] then s.syncEnd else s.current + |batch| - 1)
      && t.blocks.Keys == (if rest == {0xFFFF_FFFF_FFFF_FFFF} then {} else if n > 0 then rest + {s.current + n} else rest)
      && (forall h :: h in t.blocks ==> h in s.blocks && t.blocks[h] == s.blocks[h])
  {
    hide RunLength, From, Without, Consecutive;
    var first := s.current + 1;
    var kept := From(s.blocks, first);
    var n := RunLength(s.blocks, first, SYNC_STEP + 1);
    KeptAlike(s.blocks, first, SYNC_STEP + 1);
    var batch := Consecutive(s.blocks, first, n);
    assert batch + [] == batch;
    if Above(s.blocks, s.current + n) == {U64_MAX} {
      assert U64_MAX in Without(kept, first, n).Keys;
    }
  }

  /** Dropping the blocks below a height changes nothing above it. */
  lemma KeptAlike(blocks: map<nat, Block>, first: nat, limit: nat)
    requires first > 0
    ensures
      var kept, n := From(blocks, first), RunLength(blocks, first, limit);
      && RunLength(kept, first, limit) == n
      && Consecutive(kept, first, n) == Consecutive(blocks, first, n)
      && Without(kept, first, n).Keys == Above(blocks, first + n - 1)
      && forall h :: h in Without(kept, first, n) ==> h in blocks && Without(kept, first, n)[h] == blocks[h]
  {
    hide RunLength;
    SameRun(blocks, first, first, limit);
  }

  lemma {:induction false} SameRun(blocks: map<nat, Block>, cut: nat, first: nat, limit: nat)
    requires cut <= first
    ensures RunLength(From(blocks, cut), first, limit) == RunLength(blocks, first, limit)
    decreases limit
  {
    if limit > 0 && first in blocks {
      SameRun(blocks, cut, first + 1, limit - 1);
    }
  }

  /** The length of a run is told by its two ends. */
  lemma {:induction false} LongestRun(blocks: map<nat, Block>, first: nat, n: nat, limit: nat)
    requires n <= limit && (forall h :: first <= h < first + n ==> h in blocks)
    requires n < limit ==> first + n !in blocks
    ensures RunLength(blocks, first, limit) == n
    decreases limit
  {
    if n > 0 {
      LongestRun(blocks, first + 1, n - 1, limit - 1);
    }
  }

  /** A block of a batch is proved if its follower, or the proof carrier, is in the batch. */
  ghost predicate Proved(batch: seq<Block>, height: nat) {
    exists i :: 0 <= i < |batch| - 1 && batch[i].height == height
  }

  /** The end of synchronisation is the last height the batch proves, or the current one. */
  lemma EndIsLastProved(s: State)
    requires Filed(s.blocks) && Submit(s).published != s.published
    ensures
      var t := Submit(s);
      var batch := t.published[|t.published| - 1];
      && batch != []
      && (forall h: nat :: Proved(batch, h) <==> s.current < h <= t.syncEnd)
      && (batch[|batch| - 1].height == U64_MAX || t.syncEnd + 1 in t.blocks)
  {
    hide RunLength, Submit;
    BatchIsLongestRun(s);
    var t := Submit(s);
    var batch := t.published[|t.published| - 1];
    assert forall i :: 0 <= i < |batch| - 1 ==> batch[i].height == s.current + 1 + i;
    forall h: nat
      ensures Proved(batch, h) <==> s.current < h <= t.syncEnd
    {
      if s.current < h <= t.syncEnd {
        assert batch[h - s.current - 1].height == h;
      }
    }
  }

  /** Batches overlap in the block that was not proved yet: once the local chain has
      reached the end of one batch, the next begins with the last block of it. */
  lemma NextBatchOverlaps(s: State, env: Env)
    requires Filed(s.blocks) && Served(s.statuses) && s.current < s.syncEnd
    requires s.syncEnd + 1 in s.blocks && s.syncEnd + 2 in s.blocks
    ensures
      var t := UpdateCurrent(s, s.syncEnd, env);
      && |t.published| == |s.published| + 1
      && var batch := t.published[|s.published|];
         batch != [] && batch[0] == s.blocks[s.syncEnd + 1]
  {
    hide RunLength, Submit, StartReq;
    var s1 := s.(statuses := map h | h in s.statuses && h >= s.syncEnd + 1 :: s.statuses[h], current := s.syncEnd);
    BatchIsLongestRun(s1);
    var n := RunLength(s.blocks, s.syncEnd + 1, SYNC_STEP + 1);
    assert n > 0;
    assert UpdateCurrent(s, s.syncEnd, env).published == Submit(s1).published;
    assert Consecutive(s.blocks, s.syncEnd + 1, n)[0] == s.blocks[s.syncEnd + 1];
  }

  // ---------------------------------------------------------------------
  // Every reachable state
  // ---------------------------------------------------------------------

  ghost predicate Inv(s: State) {
    && s.current <= s.syncEnd
    && Served(s.statuses)
    && Filed(s.blocks)
    && (forall h :: h in s.statuses ==> h > s.current)
    && (forall h, o :: h in s.statuses && o in s.statuses[h] ==> (o, h) in s.announced)
    && (forall a :: a in s.announced ==> a.1 <= s.global)
  }

  lemma SubmitKeepsInv(s: State)
    requires Inv(s)
    ensures Inv(Submit(s))
  {
    hide RunLength;
  }

  lemma {:induction false} InsertKeepsFiled(blocks: map<nat, Block>, arrived: seq<Block>)
    requires Filed(blocks)
    ensures Filed(InsertAll(blocks, arrived))
  {
    if arrived != [] {
      InsertKeepsFiled(blocks, arrived[..|arrived| - 1]);
    }
  }

  lemma LocalStatusKeepsInv(s: State, height: nat, env: Env)
    requires Inv(s)
    ensures Inv(UpdateCurrent(s, height, env))
  {
    hide StartReq, Submit;
    var s1 := s.(statuses := map h | h in s.statuses && h >= height + 1 :: s.statuses[h], current := height);
    if s.current < height == s.syncEnd {
      SubmitKeepsInv(s1);
    }
  }

  lemma RemoteStatusKeepsInv(s: State, height: nat, origin: nat, env: Env)
    requires Inv(s)
    ensures Inv(UpdateGlobal(s, height, origin, env))
  {
    hide StartReq;
  }

  lemma StepKeepsInv(s: State, e: Event)
    requires Inv(s)
    ensures Inv(Step(s, e))
  {
    hide UpdateCurrent, UpdateGlobal, Submit, InsertAll;
    match e
    case LocalStatus(height, env) => LocalStatusKeepsInv(s, height, env);
    case RemoteStatus(height, origin, env) => RemoteStatusKeepsInv(s, height, origin, env);
    case Response(blocks) =>
      InsertKeepsFiled(s.blocks, blocks);
      SubmitKeepsInv(s.(blocks := InsertAll(s.blocks, blocks)));
  }

  /** In every reachable state the end of synchronisation is not below the current
      height, the recorded heights are above it and come from peers that announced
      them, and no announced height exceeds the global one. */
  lemma {:induction false} RunsKeepInv(events: seq<Event>)
    ensures Inv(Run(events))
  {
    if events != [] {
      RunsKeepInv(events[..|events| - 1]);
      StepKeepsInv(Run(events[..|events| - 1]), events[|events| - 1]);
    }
  }

  /** A request to a peer that announced a height above `current`, for heights above it. */
  ghost predicate WellAimed(r: Request, current: nat, announced: set<(nat, nat)>) {
    && (exists h :: h > current && (r.origin, h) in announced)
    && r.heights != []
    && |r.heights| <= SYNC_STEP
    && (forall h :: h in r.heights ==> h > current)
  }

  lemma StrategyAims(current: nat, first: nat, last: nat, origin: nat, announced: set<(nat, nat)>, h: nat, i: nat)
    requires first > current && h > current && (origin, h) in announced
    requires i < |Strategy(current, first, last, origin)|
    ensures WellAimed(Strategy(current, first, last, origin)[i], current, announced)
  {
    hide Chunks;
    var heights := Range(first, last);
    ChunksCover(heights);
    var r := Strategy(current, first, last, origin)[i];
    assert r == Request(origin, Chunks(heights)[i]);
    forall g | g in r.heights
      ensures g > current
    {
      ChunksWithin(heights, i, g);
    }
  }

  lemma StartReqAims(s: State, first: nat, last: nat, env: Env, i: nat)
    requires Inv(s) && first > s.current
    requires i < |StartReq(s.statuses, s.current, first, last, env)|
    ensures WellAimed(StartReq(s.statuses, s.current, first, last, env)[i], s.current, s.announced)
  {
    var h := Greatest(Candidates(s.statuses, env.peers));
    var origin := s.statuses[h][env.pick % |s.statuses[h]|];
    StrategyAims(s.current, first, if last == 0 then h + 1 else last, origin, s.announced, h, i);
  }

  lemma AskAims(s: State, first: nat, last: nat, env: Env)
    requires Inv(s) && first > s.current
    ensures
      var t := Ask(s, first, last, env);
      forall i :: |s.sent| <= i < |t.sent| ==> WellAimed(t.sent[i], s.current, s.announced)
  {
    var t := Ask(s, first, last, env);
    forall i | |s.sent| <= i < |t.sent|
      ensures WellAimed(t.sent[i], s.current, s.announced)
    {
      StartReqAims(s, first, last, env, i - |s.sent|);
    }
  }

  ghost predicate NewAreAimed(s: State, t: State) {
    && s.sent <= t.sent
    && forall i :: |s.sent| <= i < |t.sent| ==> WellAimed(t.sent[i], t.current, t.announced)
  }

  lemma LocalStatusAims(s: State, height: nat, env: Env)
    requires Inv(s)
    ensures NewAreAimed(s, UpdateCurrent(s, height, env))
  {
    hide StartReq, WellAimed, Submit;
    var s1 := s.(statuses := map h | h in s.statuses && h >= height + 1 :: s.statuses[h], current := height);
    if height <= s.current {
      AskAims(s1, height + 1, 0, env);
    } else if height < s.syncEnd {
      AskAims(s1, height + 1, s1.syncEnd + 1, env);
    } else if height == s.syncEnd {
      AskAims(s1, height + 1, 0, env);
    }
  }

  lemma RemoteStatusAims(s: State, height: nat, origin: nat, env: Env)
    requires Inv(s)
    ensures NewAreAimed(s, UpdateGlobal(s, height, origin, env))
  {
    hide StartReq, WellAimed;
    if height >= s.current + 1 {
      var s1 := s.(global := if s.global < height then height else s.global,
                   announced := s.announced + {(origin, height)});
      var s2 := Record(s1, height, origin);
      assert Inv(s2);
      AskAims(s2, height, height, env);
      AskAims(s2, s.current + 1, height, env);
    }
  }

  /** In every run, every request goes to a peer that announced a height above the
      current one, and asks for heights above the current one only. */
  lemma RequestsAreAimed(events: seq<Event>, e: Event)
    ensures NewAreAimed(Run(events), Step(Run(events), e))
  {
    hide WellAimed, Submit, UpdateCurrent, UpdateGlobal, InsertAll;
    RunsKeepInv(events);
    match e
    case LocalStatus(height, env) => LocalStatusAims(Run(events), height, env);
    case RemoteStatus(height, origin, env) => RemoteStatusAims(Run(events), height, origin, env);
    case Response(_) =>
  }

  // ---------------------------------------------------------------------
  // Which heights are asked for
  // ---------------------------------------------------------------------

  /** All heights of some requests, in order. */
  function HeightsOf(rs: seq<Request>): seq<nat> {
    if rs == [] then [] else rs[0].heights + HeightsOf(rs[1..])
  }

  lemma {:induction false} HeightsOfAskAll(chunks: seq<seq<nat>>, origin: nat)
    ensures HeightsOf(AskAll(chunks, origin)) == Concat(chunks)
  {
    if chunks != [] {
      assert AskAll(chunks, origin)[1..] == AskAll(chunks[1..], origin);
      HeightsOfAskAll(chunks[1..], origin);
    }
  }

  /** The requests sent by a step. */
  function NewRequests(s: State, t: State): seq<Request>
    requires s.sent <= t.sent
  {
    t.sent[|s.sent|..]
  }

  /** A step asks one peer that announced the greatest recorded height for exactly the
      heights from `first` to `last`. */
  ghost predicate AsksFor(s: State, t: State, statuses: map<nat, seq<nat>>, first: nat, last: nat) {
    && s.sent <= t.sent && statuses != map[] && first <= last
    && HeightsOf(NewRequests(s, t)) == Range(first, last)
    && forall i :: |s.sent| <= i < |t.sent| ==> t.sent[i].origin in statuses[Greatest(statuses.Keys)]
  }

  lemma AskCovers(s: State, first: nat, last: nat, env: Env)
    requires Served(s.statuses) && s.statuses != map[] && (forall h :: h in s.statuses ==> h > s.current)
    requires s.current < first <= if last == 0 then Greatest(s.statuses.Keys) + 1 else last
    ensures AsksFor(s, Ask(s, first, last, env), s.statuses, first, if last == 0 then Greatest(s.statuses.Keys) + 1 else last)
  {
    var t := Ask(s, first, last, env);
    AllAreCandidates(s.statuses, env.peers);
    var h := Greatest(s.statuses.Keys);
    var end, origin := if last == 0 then h + 1 else last, s.statuses[h][env.pick % |s.statuses[h]|];
    hide Chunks, Range, AskAll, HeightsOf;
    var chunks := Chunks(Range(first, end));
    assert NewRequests(s, t) == AskAll(chunks, origin);
    HeightsOfAskAll(chunks, origin);
    RangeNotEmpty(first, end);
    ChunksCover(Range(first, end));
    forall i | |s.sent| <= i < |t.sent|
      ensures t.sent[i].origin == origin
    {
      assert t.sent[i] == NewRequests(s, t)[i - |s.sent|];
    }
  }

  lemma RangeEnds(first: nat, next: nat)
    requires first <= next
    ensures Range(first, next - 1) + [next] == Range(first, next)
    ensures |Range(first, next - 1)| == next - first && Range(next, next - 1) == []
  {
  }

  lemma RangeNotEmpty(first: nat, last: nat)
    requires first <= last
    ensures Range(first, last) != []
  {
    assert |Range(first, last)| > 0;
  }

  lemma NothingToAsk(s: State, first: nat, last: nat, env: Env)
    requires s.statuses == map[]
    ensures Ask(s, first, last, env) == s
  {
    AllAreCandidates(s.statuses, env.peers);
    assert s.sent + [] == s.sent;
  }

  /** The heights a node has recorded above a height. */
  function Beyond(statuses: map<nat, seq<nat>>, height: nat): map<nat, seq<nat>> {
    map h | h in statuses && h > height :: statuses[h]
  }

  /** What the local status leads to. A node that fell back or stood still asks for all it
      knows of and one more; one behind the end of synchronisation for the rest and one
      more; one at the end goes on with the blocks it has, or asks for all it knows of; one
      beyond it has nothing to do. */
  lemma LocalStatusAsks(s: State, height: nat, env: Env)
    requires Inv(s)
    ensures
      var t, known := UpdateCurrent(s, height, env), Beyond(s.statuses, height);
      var goesOn := s.current < height == s.syncEnd && height + 1 in s.blocks && height + 2 in s.blocks;
      && t.current == height && t.statuses == known && t.global == s.global
      && (t.syncing <==> height <= s.current || height <= s.syncEnd)
      && (height > s.syncEnd && height > s.current ==> t.syncEnd == height)
      && (known == map[] || goesOn || (height > s.current && height > s.syncEnd) ==> t.sent == s.sent)
      && (known != map[] && !goesOn && (height <= s.current || height == s.syncEnd) ==>
            AsksFor(s, t, known, height + 1, Greatest(known.Keys) + 1))
      && (known != map[] && s.current < height < s.syncEnd ==> AsksFor(s, t, known, height + 1, s.syncEnd + 1))
  {
    hide StartReq, Submit, AsksFor;
    var known := Beyond(s.statuses, height);
    var s1 := s.(statuses := known, current := height);
    assert (map h | h in s.statuses && h >= height + 1 :: s.statuses[h]) == known;
    if known == map[] {
      NothingToAsk(s1, height + 1, 0, env);
      NothingToAsk(s1, height + 1, s.syncEnd + 1, env);
    } else {
      AskCovers(s1, height + 1, 0, env);
      if height < s.syncEnd {
        AskCovers(s1, height + 1, s.syncEnd + 1, env);
      }
      SameAsks(s, s1);
    }
  }

  lemma SameAsks(s: State, s1: State)
    requires s1.sent == s.sent
    ensures forall t: State, u: State, first: nat, last: nat ::
              u.sent == t.sent && AsksFor(s1, t, s1.statuses, first, last) ==> AsksFor(s, u, s1.statuses, first, last)
  {
  }

  /** What a peer's status leads to. An idle node that is more than one block behind asks
      for everything up to the announced height; one that is synchronising asks for the
      announced block only, and only if the height is news. */
  lemma RemoteStatusAsks(s: State, height: nat, origin: nat, env: Env)
    requires Inv(s)
    ensures
      var t, news := UpdateGlobal(s, height, origin, env), height > s.global;
      var far, next := height > s.current + 1, height == s.current + 1;
      && t.current == s.current && t.syncEnd == s.syncEnd && t.blocks == s.blocks && t.published == s.published
      && t.global == (if news then height else s.global)
      && (t.syncing <==> far || (next && news && s.syncing))
      && (if far && (env.expired || !s.syncing) then AsksFor(s, t, t.statuses, s.current + 1, height)
          else if (far || next) && news && s.syncing then AsksFor(s, t, t.statuses, height, height)
          else t.sent == s.sent)
  {
    hide StartReq, AsksFor;
    if height > s.current {
      var s1 := s.(global := if s.global < height then height else s.global,
                   announced := s.announced + {(origin, height)});
      var s2 := Record(s1, height, origin);
      assert height in s2.statuses && Served(s2.statuses);
      assert forall h :: h in s2.statuses ==> h > s2.current;
      AskCovers(s2, height, height, env);
      AskCovers(s2, s.current + 1, height, env);
      SameAsks(s, s2);
    }
  }

  /** Announcements above the current height stay recorded, each peer in its turn, until
      the height is reached. */
  lemma AnnouncementsAreKept(s: State, e: Event, h: nat)
    requires Served(s.statuses)
    ensures
      var t := Step(s, e);
      var before := if h in s.statuses then s.statuses[h] else [];
      && (e.RemoteStatus? && e.height == h > s.current ==> h in t.statuses && t.statuses[h] == before + [e.origin])
      && (!(e.RemoteStatus? && e.height == h) && !(e.LocalStatus? && h <= e.height) ==> Get(t.statuses, h) == Get(s.statuses, h))
  {
    hide StartReq, Submit, InsertAll;
  }

  /** Of the blocks that arrive for a height the last one is kept. */
  lemma {:induction false} ArrivedIsFiled(blocks: map<nat, Block>, arrived: seq<Block>, i: nat)
    requires i < |arrived| && forall j :: i < j < |arrived| ==> arrived[j].height != arrived[i].height
    ensures Get(InsertAll(blocks, arrived), arrived[i].height) == Some(arrived[i])
  {
    var n := |arrived| - 1;
    if i < n {
      ArrivedIsFiled(blocks, arrived[..n], i);
    }
  }

  lemma {:induction false} OthersStayFiled(blocks: map<nat, Block>, arrived: seq<Block>, h: nat)
    requires forall j :: 0 <= j < |arrived| ==> arrived[j].height != h
    ensures Get(InsertAll(blocks, arrived), h) == Get(blocks, h)
  {
    if arrived != [] {
      OthersStayFiled(blocks, arrived[..|arrived| - 1], h);
    }
  }

  /** Any of the peers that announced the greatest height may be asked. */
  lemma AnyPeerMayBeAsked(s: State, first: nat, last: nat, env: Env, i: nat)
    requires Inv(s) && s.statuses != map[] && s.current < first <= last
    requires i < |s.statuses[Greatest(s.statuses.Keys)]| && env.pick == i
    ensures
      var rs := StartReq(s.statuses, s.current, first, last, env);
      rs != [] && forall j :: 0 <= j < |rs| ==> rs[j].origin == s.statuses[Greatest(s.statuses.Keys)][i]
  {
    AllAreCandidates(s.statuses, env.peers);
    RangeNotEmpty(first, last);
    ChunksCover(Range(first, last));
    hide Chunks, Range, Concat, Candidates, Inv;
    var h := Greatest(s.statuses.Keys);
    assert env.pick % |s.statuses[h]| == i;
    assert StartReq(s.statuses, s.current, first, last, env) == AskAll(Chunks(Range(first, last)), s.statuses[h][i]);
  }

  // ---------------------------------------------------------------------
  // The synchronizer
  // ---------------------------------------------------------------------

  class Synchronizer {
    var current: nat
    var global: nat
    var syncEnd: nat
    var syncing: bool
    var statuses: map<nat, seq<nat>>
    var blocks: map<nat, Block>
    var sent: seq<Request>
    var published: seq<seq<Block>>
    ghost var announced: set<(nat, nat)>

    ghost function View(): State
      reads this
    {
      State(current, global, syncEnd, syncing, statuses, blocks, sent, published, announced)
    }

    constructor ()
      ensures View() == INIT
    {
      current, global, syncEnd, syncing := 0, 0, 0, true;
      statuses, blocks, sent, published, announced := map[], map[], [], [], {};
    }

    /** One request for every `SYNC_STEP` heights. */
    method SyncStrategy(first: nat, last: nat, origin: nat)
      modifies `sent
      ensures sent == old(sent) + Strategy(current, first, last, origin)
    {
      hide Chunks, AskAll, Range;
      RangeEnds(first, first);
      if first >= current && first <= last {
        ghost var done: seq<seq<nat>> := [];
        ghost var from := first;
        var next, step := first, SYNC_STEP;
        var heights: seq<nat> := [];
        while next <= last
          invariant first <= from <= next <= last + 1
          invariant next - from == |heights| == SYNC_STEP - step && 0 <= step
          invariant heights == Range(from, next - 1)
          invariant next > first ==> heights != []
          invariant Chunks(Range(first, last)) == done + Chunks(Range(from, last))
          invariant sent == old(sent) + AskAll(done, origin)
        {
          if step == 0 {
            step := SYNC_STEP;
            sent := sent + [Request(origin, heights)];
            OneChunk(old(sent), done, heights, origin, first, from, last);
            done, from := done + [heights], next;
            heights := [];
          }
          RangeEnds(from, next);
          heights := heights + [next];
          step := step - 1;
          next := next + 1;
        }
        sent := sent + [Request(origin, heights)];
        LastChunk(heights);
        SentOneMore(old(sent), done, heights, origin);
      }
    }

    method StartSyncReq(first: nat, last: nat, env: Env)
      requires Served(statuses)
      modifies `sent
      ensures sent == old(sent) + StartReq(statuses, current, first, last, env)
    {
      var heights := Candidates(statuses, env.peers);
      if heights != {} {
        var h := Greatest(heights);
        if h > current {
          var origin := statuses[h][env.pick % |statuses[h]|];
          SyncStrategy(first, if last == 0 then h + 1 else last, origin);
        }
      }
    }

    method PubBlocks(batch: seq<Block>)
      modifies `syncEnd, `published
      ensures View() == Publish(old(View()), batch)
    {
      if batch != [] {
        syncEnd := current + |batch| - 1;
        published := published + [batch];
      }
    }

    /** Takes the consecutive blocks out one by one. */
    method TakeRun() returns (batch: seq<Block>)
      modifies `blocks
      ensures
        var first := current + 1;
        var n := RunLength(old(blocks), first, SYNC_STEP + 1);
        && batch == Consecutive(old(blocks), first, n)
        && blocks == Without(old(blocks), first, n)
    {
      hide RunLength;
      var height, end := current + 1, current + 1 + SYNC_STEP;
      batch := [];
      ghost var was := blocks;
      while height <= end && height in blocks
        invariant current + 1 <= height <= end + 1
        invariant forall h :: current + 1 <= h < height ==> h in was
        invariant batch == Consecutive(was, current + 1, height - current - 1)
        invariant blocks == Without(was, current + 1, height - current - 1)
      {
        batch := batch + [blocks[height]];
        blocks := map h | h in blocks && h != height :: blocks[h];
        height := height + 1;
      }
      LongestRun(was, current + 1, height - current - 1, SYNC_STEP + 1);
    }

    method SubmitBlocks()
      modifies `blocks, `syncEnd, `published
      ensures View() == Submit(old(View()))
    {
      hide RunLength, Without, Consecutive;
      blocks := map h | h in blocks && h >= current + 1 :: blocks[h];
      var batch := TakeRun();
      if blocks.Keys == {U64_MAX} {
        batch := batch + [blocks[U64_MAX]];
        blocks := map[];
      } else if batch != [] {
        var b := batch[|batch| - 1];
        blocks := blocks[b.height := b];
      }
      PubBlocks(batch);
    }

    method UpdateCurrentStatus(height: nat, env: Env)
      requires Served(statuses)
      modifies this
      ensures View() == Step(old(View()), LocalStatus(height, env))
    {
      hide StartReq, Submit;
      var before := current;
      statuses := map h | h in statuses && h >= height + 1 :: statuses[h];
      current := height;
      if height <= before {
        syncing := true;
        StartSyncReq(height + 1, 0, env);
      } else if height < syncEnd {
        StartSyncReq(height + 1, syncEnd + 1, env);
        syncing := true;
      } else if height == syncEnd {
        if height + 1 in blocks && height + 2 in blocks {
          SubmitBlocks();
        } else {
          StartSyncReq(height + 1, 0, env);
        }
        syncing := true;
      } else {
        syncEnd := height;
        syncing := false;
      }
    }

    method AddLatestSyncLists(height: nat, origin: nat)
      modifies `statuses
      ensures View() == Record(old(View()), height, origin)
    {
      if height !in statuses {
        statuses := statuses[height := []];
      }
      statuses := statuses[height := statuses[height] + [origin]];
    }

    method UpdateGlobalStatus(height: nat, origin: nat, env: Env)
      requires Served(statuses)
      modifies this
      ensures View() == Step(old(View()), RemoteStatus(height, origin, env))
    {
      hide StartReq;
      var before := global;
      announced := announced + {(origin, height)};
      if global < height {
        global := height;
      }
      if height < current + 1 {
        syncing := false;
      } else if height == current + 1 {
        AddLatestSyncLists(height, origin);
        if global > before && syncing {
          StartSyncReq(height, height, env);
        } else {
          syncing := false;
        }
      } else {
        AddLatestSyncLists(height, origin);
        if env.expired || !syncing {
          StartSyncReq(current + 1, height, env);
        } else if global > before && syncing {
          StartSyncReq(height, height, env);
        }
        syncing := true;
      }
    }

    method ProcessSync(arrived: seq<Block>)
      requires Served(statuses)
      modifies this
      ensures View() == Step(old(View()), Response(arrived))
    {
      for i := 0 to |arrived|
        modifies `blocks
        invariant blocks == InsertAll(old(blocks), arrived[..i])
      {
        assert arrived[..i + 1][..i] == arrived[..i];
        blocks := blocks[arrived[i].height := arrived[i]];
      }
      assert arrived[..|arrived|] == arrived;
      SubmitBlocks();
    }
  }
}
