/**
 The stage machine of the executor (cita-executor/src/executor_instance.rs with
 cita-executor/core/src/libexecutor/executor.rs).

 Two threads share the executor: one enqueues proposals, consensus blocks and
 synchronised blocks as they arrive, the other takes heights from a channel and
 executes what is queued at them. A step of a run is one enqueue handler or one
 piece of the executing thread's work; execution of a proposal, of a block and
 of each synchronised block begins and ends in separate steps, so that enqueues
 can fall in between.
 */
module ExecutorStages {
  import opened Basics

  type Hash(==, !new)

  const U64_MAX: nat := 0xFFFF_FFFF_FFFF_FFFF

  datatype Proof = Proof(height: nat, votes: Hash)

  /** A block as received. */
  datatype Block = Block(number: nat, parent: Hash, txRoot: Hash, timestamp: nat, proof: Proof, txCount: nat)

  /** The header of an executed block; `roots` stands for its state and receipt roots. */
  datatype Header = Header(number: nat, parent: Hash, txRoot: Hash, timestamp: nat, proof: Proof, roots: Hash)

  datatype Queued = Proposal(block: Block) | ConsensusBlock(block: Block) | SyncBlock(block: Block, proof: Option<Proof>)

  datatype Stage = Idle | ExecutingProposal | WaitFinalized | ExecutingBlock

  /** What the executing thread is in the middle of. `OnBlock` will commit `header`
      unless it is interrupted and `interruptible`; `decided` is the block that
      consensus agreed on. */
  datatype Work =
    | Resting
    | OnProposal(block: Block)
    | OnBlock(header: Header, decided: Block, interruptible: bool)
    | OnSync(number: nat, todo: map<nat, Queued>)

  /** A committed header together with the block that called for the commit. */
  datatype Commit = Commit(header: Header, decided: Block)

  datatype State = State(
    head: Header,
    blockMap: map<nat, Queued>,
    stage: Stage,
    interrupted: bool,
    maxHeight: nat,
    closed: Option<Header>,
    channel: seq<nat>,
    work: Work,
    log: seq<Commit>)

  /** Functions of the outside world: block hashing and proof checking. */
  datatype World = World(hashOf: Header -> Hash, proofOk: (Block, Proof) -> bool)

  datatype Event =
    | ConsensusArrives(block: Block)
    | ProposalArrives(block: Block)
    | SyncArrives(block: Block)
    | SyncEnds
    | Take(roots: Hash)
    | FinishProposal(roots: Hash, noticed: bool)
    | FinishBlock
    | SyncNext(roots: Hash)

  function Init(head: Header): State {
    State(head, map[], Idle, false, head.number, None, [], Resting, [])
  }

  // ---------------------------------------------------------------------
  // Enqueue handlers
  // ---------------------------------------------------------------------

  /** `validate_height` and `validate_hash`. */
  predicate Extends(world: World, head: Header, number: nat, parent: Hash) {
    number == head.number + 1 && parent == world.hashOf(head)
  }

  predicate IsProposal(m: map<nat, Queued>, n: nat) {
    n in m && m[n].Proposal?
  }

  function SendBlock(s: State, b: Block): State {
    s.(blockMap := s.blockMap[b.number := ConsensusBlock(b)], maxHeight := b.number, channel := s.channel + [b.number])
  }

  function SendProposal(s: State, b: Block): State {
    s.(blockMap := s.blockMap[b.number := Proposal(b)], channel := s.channel + [b.number])
  }

  function ConsensusEnqueue(world: World, s: State, b: Block): State {
    if b.number <= s.head.number || !Extends(world, s.head, b.number, b.parent) then s
    else
      match s.stage
      case Idle => SendBlock(s, b)
      case ExecutingBlock => s
      case _ =>
        if !IsProposal(s.blockMap, b.number) then s
        else if s.blockMap[b.number].block.txRoot != b.txRoot then SendBlock(s.(interrupted := true), b)
        else SendBlock(s, b)
  }

  function ProposalEnqueue(world: World, s: State, b: Block): State {
    if s.work.OnSync? || !Extends(world, s.head, b.number, b.parent) then s
    else
      match s.stage
      case Idle => SendProposal(s, b)
      case ExecutingBlock => s
      case _ =>
        if IsProposal(s.blockMap, b.number) && s.blockMap[b.number].block.txRoot != b.txRoot
        then SendProposal(if s.stage.ExecutingProposal? then s.(interrupted := true) else s, b)
        else s
  }

  /** Gives a queued synchronised block its proof unless it has one. */
  function ProveQueued(m: map<nat, Queued>, n: nat, proof: Proof): map<nat, Queued> {
    if n in m && m[n].SyncBlock? && m[n].proof.None? then m[n := SyncBlock(m[n].block, Some(proof))] else m
  }

  function ProofHeight(proof: Proof): nat {
    if proof.height == U64_MAX then 0 else proof.height
  }

  function AddSyncBlock(s: State, b: Block): State {
    var height := ProofHeight(b.proof);
    if b.number < s.maxHeight || b.number <= s.head.number then s
    else if b.number != U64_MAX then
      if height == s.maxHeight
      then s.(blockMap := ProveQueued(s.blockMap, height, b.proof)[b.number := SyncBlock(b, None)], maxHeight := b.number)
      else s
    else if height > s.head.number then s.(blockMap := ProveQueued(s.blockMap, height, b.proof))
    else s
  }

  // ---------------------------------------------------------------------
  // The executing thread
  // ---------------------------------------------------------------------

  function Seal(b: Block, roots: Hash): Header {
    Header(b.number, b.parent, b.txRoot, b.timestamp, b.proof, roots)
  }

  /** `finalize_proposal` commits the closed proposal with the timestamp and proof of `b`. */
  function Settle(closed: Header, b: Block): Header {
    closed.(timestamp := b.timestamp, proof := b.proof)
  }

  /** `split_off` at the current height. */
  function Clean(s: State): State {
    s.(blockMap := map n | n in s.blockMap && n >= s.head.number :: s.blockMap[n])
  }

  function CommitHeader(s: State, header: Header, decided: Block): State {
    s.(head := header, log := s.log + [Commit(header, decided)])
  }

  /** Starts on what is queued at the next height of the channel. */
  function TakeNext(world: World, s: State, roots: Hash): State
    requires s.channel != []
  {
    var number, s1 := s.channel[0], s.(channel := s.channel[1..]);
    if number !in s.blockMap then s1
    else
      match s.blockMap[number]
      case ConsensusBlock(b) =>
        if !Extends(world, s.head, b.number, b.parent) then s1
        else if s.interrupted then s1.(interrupted := false, stage := ExecutingBlock, work := OnBlock(Seal(b, roots), b, true))
        else (match s.stage
              case WaitFinalized =>
                (match s.closed
                 case Some(c) => s1.(closed := None, stage := ExecutingBlock, work := OnBlock(Settle(c, b), b, false))
                 case None => s1.(stage := ExecutingBlock, work := OnBlock(Seal(b, roots), b, true)))
              case Idle => s1.(stage := ExecutingBlock, work := OnBlock(Seal(b, roots), b, true))
              case _ => Clean(s1.(stage := Idle)))
      case SyncBlock(_, proof) =>
        if proof.Some? && number == s.head.number + 1
        then s1.(stage := ExecutingBlock, work := OnSync(number, s.blockMap))
        else s1
      case Proposal(p) => s1.(interrupted := false, stage := ExecutingProposal, work := OnProposal(p))
  }

  /** `noticed`: execution saw the interrupt flag and gave up. */
  function EndProposal(s: State, roots: Hash, noticed: bool): State
    requires s.work.OnProposal?
  {
    var number, closed, s1 := s.work.block.number, Seal(s.work.block, roots), s.(work := Resting);
    if s.interrupted then (if noticed then s1 else s1.(interrupted := false))
    else if number !in s.blockMap then s1
    else
      match s.blockMap[number]
      case ConsensusBlock(b) =>
        if b.txRoot == closed.txRoot then CommitHeader(s1, Settle(closed, b), b).(stage := Idle) else s1
      case Proposal(_) => s1.(closed := Some(closed), stage := WaitFinalized)
      case SyncBlock(_, _) => s1
  }

  function EndBlock(s: State): State
    requires s.work.OnBlock?
  {
    var w := s.work;
    var stopped := w.interruptible && s.interrupted && w.decided.txCount > 0;
    var s1 := if stopped then s else CommitHeader(s, w.header, w.decided);
    Clean(s1.(stage := Idle, work := Resting))
  }

  /** One turn of the synchronisation loop over a copy of the block map. A block
      whose execution is interrupted is not committed, but the loop goes on. */
  function SyncTurn(world: World, s: State, roots: Hash): State
    requires s.work.OnSync?
  {
    var number, todo := s.work.number, s.work.todo;
    if number in todo && todo[number].SyncBlock? && todo[number].proof.Some? then
      var b := todo[number].block;
      if Extends(world, s.head, b.number, b.parent) && world.proofOk(b, todo[number].proof.value) then
        var s1 := if s.interrupted && b.txCount > 0 then s else CommitHeader(s, Seal(b, roots), b);
        s1.(work := OnSync(number + 1, todo - {number}))
      else
        s.(blockMap := map[], stage := Idle, work := Resting)
    else
      Clean(s.(stage := Idle, work := Resting))
  }

  predicate Enabled(s: State, e: Event) {
    match e
    case Take(_) => s.work.Resting? && s.channel != []
    case FinishProposal(_, _) => s.work.OnProposal?
    case FinishBlock => s.work.OnBlock?
    case SyncNext(_) => s.work.OnSync?
    case _ => true
  }

  function Step(world: World, s: State, e: Event): State
    requires Enabled(s, e)
  {
    match e
    case ConsensusArrives(b) => ConsensusEnqueue(world, s, b)
    case ProposalArrives(b) => ProposalEnqueue(world, s, b)
    case SyncArrives(b) => AddSyncBlock(s, b)
    case SyncEnds => if s.work.OnSync? then s else s.(channel := s.channel + [s.head.number + 1])
    case Take(roots) => TakeNext(world, s, roots)
    case FinishProposal(roots, noticed) => EndProposal(s, roots, noticed)
    case FinishBlock => EndBlock(s)
    case SyncNext(roots) => SyncTurn(world, s, roots)
  }

  /** A run: every event is enabled when it happens. */
  ghost predicate Runs(world: World, s: State, events: seq<Event>, t: State)
    decreases |events|
  {
    if events == [] then s == t
    else Enabled(s, events[0]) && Runs(world, Step(world, s, events[0]), events[1..], t)
  }

  // ---------------------------------------------------------------------
  // Commits form one chain
  // ---------------------------------------------------------------------

  ghost predicate HeaderExtends(world: World, head: Header, h: Header) {
    Extends(world, head, h.number, h.parent)
  }

  /** What every step keeps. */
  ghost predicate Inv(world: World, s: State) {
    && (forall n :: n in s.blockMap ==> s.blockMap[n].block.number == n)
    && (forall n :: n in s.blockMap && s.blockMap[n].Proposal? ==> Extends(world, s.head, n, s.blockMap[n].block.parent))
    && (s.stage.WaitFinalized? ==> s.closed.Some? && HeaderExtends(world, s.head, s.closed.value))
    && (s.stage.WaitFinalized? ==> s.work.Resting?)
    && (s.work.OnProposal? ==> s.stage.ExecutingProposal?)
    && (s.work.OnProposal? ==> Extends(world, s.head, s.work.block.number, s.work.block.parent))
    && (s.work.OnBlock? ==> HeaderExtends(world, s.head, s.work.header) && s.work.decided.number == s.work.header.number)
    && (s.work.OnBlock? || s.work.OnSync? ==> s.stage.ExecutingBlock? && forall n :: n in s.blockMap ==> !s.blockMap[n].Proposal?)
    && (s.work.OnSync? ==> forall n :: n in s.work.todo ==> s.work.todo[n].block.number == n)
  }

  /** The log extends `genesis` block by block and ends in the head. */
  ghost predicate Chained(world: World, genesis: Header, s: State) {
    && s.head == Before(genesis, s.log, |s.log|)
    && forall i :: 0 <= i < |s.log| ==> HeaderExtends(world, Before(genesis, s.log, i), s.log[i].header)
  }

  /** The header the i-th commit must extend. */
  function Before(genesis: Header, log: seq<Commit>, i: nat): Header
    requires i <= |log|
  {
    if i == 0 then genesis else log[i - 1].header
  }

  lemma InvEnqueue(world: World, s: State, e: Event)
    requires Inv(world, s) && (e.ConsensusArrives? || e.ProposalArrives?)
    ensures Inv(world, Step(world, s, e))
  {
  }

  lemma InvSync(world: World, s: State, b: Block)
    requires Inv(world, s)
    ensures Inv(world, AddSyncBlock(s, b))
  {
  }

  lemma InvTake(world: World, s: State, roots: Hash)
    requires Inv(world, s) && Enabled(s, Take(roots))
    ensures Inv(world, TakeNext(world, s, roots))
  {
  }

  lemma InvFinish(world: World, s: State, e: Event)
    requires Inv(world, s) && Enabled(s, e) && (e.FinishProposal? || e.FinishBlock?)
    ensures Inv(world, Step(world, s, e))
  {
  }

  lemma InvSyncTurn(world: World, s: State, roots: Hash)
    requires Inv(world, s) && s.work.OnSync?
    ensures Inv(world, SyncTurn(world, s, roots))
  {
  }

  lemma InvStep(world: World, s: State, e: Event)
    requires Inv(world, s) && Enabled(s, e)
    ensures Inv(world, Step(world, s, e))
  {
    match e
    case Take(roots) => InvTake(world, s, roots);
    case SyncNext(roots) => InvSyncTurn(world, s, roots);
    case SyncArrives(b) => InvSync(world, s, b);
    case SyncEnds =>
    case ConsensusArrives(_) => InvEnqueue(world, s, e);
    case ProposalArrives(_) => InvEnqueue(world, s, e);
    case _ => InvFinish(world, s, e);
  }

  /** While a proposal waits to be finalised there is one. */
  lemma WaitingIsClosed(world: World, s: State)
    requires Inv(world, s)
    ensures s.stage.WaitFinalized? ==> s.closed.Some?
  {
  }

  /** A step commits nothing, or one header that extends the head. */
  lemma CommitsExtendHead(world: World, s: State, e: Event)
    requires Inv(world, s) && Enabled(s, e)
    ensures
      var t := Step(world, s, e);
      || (t.head == s.head && t.log == s.log)
      || (HeaderExtends(world, s.head, t.head) && |t.log| == |s.log| + 1
          && t.log == s.log + [t.log[|s.log|]] && t.log[|s.log|].header == t.head)
  {
  }

  lemma ChainedStep(world: World, genesis: Header, s: State, t: State)
    requires Chained(world, genesis, s)
    requires
      || (t.head == s.head && t.log == s.log)
      || (HeaderExtends(world, s.head, t.head) && |t.log| == |s.log| + 1
          && t.log == s.log + [t.log[|s.log|]] && t.log[|s.log|].header == t.head)
    ensures Chained(world, genesis, t)
  {
    assert forall i :: 0 <= i <= |s.log| ==> Before(genesis, t.log, i) == Before(genesis, s.log, i);
  }

  lemma {:induction false} RunsKeepInv(world: World, genesis: Header, s: State, events: seq<Event>, t: State)
    requires Inv(world, s) && Chained(world, genesis, s) && Runs(world, s, events, t)
    ensures Inv(world, t) && Chained(world, genesis, t)
    decreases |events|
  {
    hide Inv, Step, Chained;
    if events != [] {
      var s1 := Step(world, s, events[0]);
      InvStep(world, s, events[0]);
      CommitsExtendHead(world, s, events[0]);
      ChainedStep(world, genesis, s, s1);
      RunsKeepInv(world, genesis, s1, events[1..], t);
    }
  }

  /** However enqueues and execution interleave, each committed block has the
      height after the head's and the head's hash as its parent: the commits of
      a run form one unbroken chain on top of the first head. */
  lemma CommitsFormOneChain(world: World, genesis: Header, events: seq<Event>, t: State)
    requires Runs(world, Init(genesis), events, t)
    ensures Chained(world, genesis, t)
    ensures forall i :: 0 <= i < |t.log| ==> t.log[i].header.number == genesis.number + 1 + i
  {
    RunsKeepInv(world, genesis, Init(genesis), events, t);
    ChainHeights(world, genesis, t, |t.log|);
  }

  lemma {:induction false} ChainHeights(world: World, genesis: Header, t: State, n: nat)
    requires Chained(world, genesis, t) && n <= |t.log|
    ensures forall i :: 0 <= i < n ==> t.log[i].header.number == genesis.number + 1 + i
  {
    if n > 0 {
      ChainHeights(world, genesis, t, n - 1);
      assert HeaderExtends(world, Before(genesis, t.log, n - 1), t.log[n - 1].header);
    }
  }

  // ---------------------------------------------------------------------
  // The committed block is the decided block
  // ---------------------------------------------------------------------

  /** The header commits to the transactions of the block decided on. */
  predicate Agrees(header: Header, decided: Block) {
    header.txRoot == decided.txRoot && header.timestamp == decided.timestamp && header.proof == decided.proof
  }

  ghost predicate AgreeInv(s: State) {
    && (forall i :: 0 <= i < |s.log| ==> Agrees(s.log[i].header, s.log[i].decided))
    && (s.work.OnBlock? ==> Agrees(s.work.header, s.work.decided))
    && (s.work.OnProposal? && !s.interrupted && IsProposal(s.blockMap, s.work.block.number) ==>
          s.blockMap[s.work.block.number].block.txRoot == s.work.block.txRoot)
    && (s.stage.WaitFinalized? && !s.interrupted && s.closed.Some? && s.closed.value.number in s.blockMap
        && !s.blockMap[s.closed.value.number].SyncBlock? ==>
          s.blockMap[s.closed.value.number].block.txRoot == s.closed.value.txRoot)
  }

  /** No proposal replaces the one whose execution is waiting to be finalised:
      the guard of the `WaitFinalized` branch of `proposal_enqueue` is not met. */
  predicate Undisturbed(s: State, e: Event) {
    e.ProposalArrives? && s.stage.WaitFinalized? && IsProposal(s.blockMap, e.block.number) ==>
      s.blockMap[e.block.number].block.txRoot == e.block.txRoot
  }

  ghost predicate UndisturbedRun(world: World, s: State, events: seq<Event>)
    decreases |events|
  {
    events != [] && Enabled(s, events[0]) ==>
      Undisturbed(s, events[0]) && UndisturbedRun(world, Step(world, s, events[0]), events[1..])
  }

  lemma AgreeEnqueue(world: World, s: State, e: Event)
    requires Inv(world, s) && AgreeInv(s) && Undisturbed(s, e)
    requires e.ConsensusArrives? || e.ProposalArrives? || e.SyncArrives?
    ensures AgreeInv(Step(world, s, e))
  {
  }

  lemma AgreeExecute(world: World, s: State, e: Event)
    requires Inv(world, s) && AgreeInv(s) && Enabled(s, e)
    requires !(e.ConsensusArrives? || e.ProposalArrives? || e.SyncArrives?)
    ensures AgreeInv(Step(world, s, e))
  {
  }

  lemma {:induction false} RunsKeepAgreement(world: World, s: State, events: seq<Event>, t: State)
    requires Inv(world, s) && AgreeInv(s) && Runs(world, s, events, t) && UndisturbedRun(world, s, events)
    ensures AgreeInv(t)
    decreases |events|
  {
    if events != [] {
      var e := events[0];
      InvStep(world, s, e);
      if e.ConsensusArrives? || e.ProposalArrives? || e.SyncArrives? {
        AgreeEnqueue(world, s, e);
      } else {
        AgreeExecute(world, s, e);
      }
      RunsKeepAgreement(world, Step(world, s, e), events[1..], t);
    }
  }

  /** In an undisturbed run every committed header has the transaction root, the
      timestamp and the proof of the block that was decided on. */
  lemma CommitsAgree(world: World, genesis: Header, events: seq<Event>, t: State)
    requires Runs(world, Init(genesis), events, t) && UndisturbedRun(world, Init(genesis), events)
    ensures forall i :: 0 <= i < |t.log| ==> Agrees(t.log[i].header, t.log[i].decided)
  {
    RunsKeepAgreement(world, Init(genesis), events, t);
  }

  /** Consensus decides on the queued proposal while a different one, executed before,
      waits to be finalised. */
  predicate Misleads(world: World, s: State, b: Block) {
    && Extends(world, s.head, b.number, b.parent)
    && s.stage.WaitFinalized? && !s.interrupted
    && IsProposal(s.blockMap, b.number)
    && s.closed.Some?
    && s.blockMap[b.number].block.txRoot == b.txRoot != s.closed.value.txRoot
  }

  /** When a decision arrives while a proposal waits, the header that is then taken for
      it agrees with it exactly if the decision is not on a different queued proposal. */
  lemma DecisionAgreesIff(world: World, s: State, b: Block, roots: Hash)
    requires Inv(world, s) && s.stage.WaitFinalized? && !s.interrupted && IsProposal(s.blockMap, b.number)
    requires Extends(world, s.head, b.number, b.parent) && (s.channel == [] || s.channel[0] == b.number)
    ensures
      var work := TakeNext(world, ConsensusEnqueue(world, s, b), roots).work;
      work.OnBlock? && work.decided == b && (Agrees(work.header, b) <==> !Misleads(world, s, b))
  {
  }

  /** A decided block is queued for the waiting one, or the waiting one is being
      committed for it. */
  predicate Pending(s: State) {
    || (s.stage.WaitFinalized? && !s.interrupted && s.closed.Some? && s.closed.value.number in s.blockMap
        && s.blockMap[s.closed.value.number].ConsensusBlock?)
    || (s.work.OnBlock? && !s.work.interruptible)
  }

  /** Whether the decision that is pending after an event is one that misled. */
  predicate Misled(world: World, s: State, e: Event, misled: bool)
    requires Enabled(s, e)
  {
    if e.ConsensusArrives? then misled || Misleads(world, s, e.block)
    else misled && Pending(Step(world, s, e))
  }

  /** No block is committed for a decision that misled. */
  ghost predicate NeverMisled(world: World, s: State, events: seq<Event>, misled: bool)
    decreases |events|
  {
    events != [] && Enabled(s, events[0]) ==>
      && !(events[0].FinishBlock? && misled)
      && NeverMisled(world, Step(world, s, events[0]), events[1..], Misled(world, s, events[0], misled))
  }

  /** The pending decision is not on the transactions of the block it will commit. */
  predicate Doomed(s: State) {
    || (s.work.OnBlock? && !Agrees(s.work.header, s.work.decided))
    || (s.stage.WaitFinalized? && !s.interrupted && s.closed.Some? && s.closed.value.number in s.blockMap
        && s.blockMap[s.closed.value.number].ConsensusBlock?
        && s.blockMap[s.closed.value.number].block.txRoot != s.closed.value.txRoot)
  }

  /** A block that is executed anew is the decided one. */
  predicate AnewAgrees(s: State) {
    s.work.OnBlock? && s.work.interruptible ==> Agrees(s.work.header, s.work.decided)
  }

  ghost predicate AllAgree(s: State) {
    forall i :: 0 <= i < |s.log| ==> Agrees(s.log[i].header, s.log[i].decided)
  }

  lemma DoomedIffMisled(world: World, s: State, e: Event)
    requires Inv(world, s) && AnewAgrees(s) && Enabled(s, e)
    ensures AnewAgrees(Step(world, s, e))
    ensures Doomed(Step(world, s, e)) <==> Misled(world, s, e, Doomed(s))
  {
    match e
    case ConsensusArrives(b) =>
    case ProposalArrives(b) =>
    case SyncArrives(b) =>
    case SyncEnds =>
    case Take(roots) =>
    case FinishProposal(roots, noticed) =>
    case FinishBlock =>
    case SyncNext(roots) =>
  }

  lemma CommitAgreesIff(world: World, s: State, e: Event)
    requires Inv(world, s) && AnewAgrees(s) && Enabled(s, e)
    ensures AllAgree(Step(world, s, e)) <==> AllAgree(s) && !(e.FinishBlock? && Doomed(s))
  {
    var t := Step(world, s, e);
    if t.log != s.log {
      var n := |s.log|;
      assert t.log == s.log + [t.log[n]];
      assert Agrees(t.log[n].header, t.log[n].decided) <==> !(e.FinishBlock? && Doomed(s));
      assert forall i :: 0 <= i < n ==> t.log[i] == s.log[i];
    }
  }

  lemma {:induction false} RunsAgreeIff(world: World, s: State, events: seq<Event>, t: State)
    requires Inv(world, s) && AnewAgrees(s) && Runs(world, s, events, t)
    ensures AllAgree(t) <==> AllAgree(s) && NeverMisled(world, s, events, Doomed(s))
    decreases |events|
  {
    hide Inv, AnewAgrees, Doomed, Misled, AllAgree, Step;
    if events != [] {
      InvStep(world, s, events[0]);
      DoomedIffMisled(world, s, events[0]);
      CommitAgreesIff(world, s, events[0]);
      RunsAgreeIff(world, Step(world, s, events[0]), events[1..], t);
    }
  }

  /** In every run, all committed headers have the transactions, timestamps and proofs of
      the decided blocks exactly if no block is committed for a decision that arrived
      while a different proposal was waiting. */
  lemma CommitsAgreeIff(world: World, genesis: Header, events: seq<Event>, t: State)
    requires Runs(world, Init(genesis), events, t)
    ensures AllAgree(t) <==> NeverMisled(world, Init(genesis), events, false)
  {
    RunsAgreeIff(world, Init(genesis), events, t);
  }

  /** Without that, they need not agree: a proposal `p` is executed and waits, a
      different proposal `q` arrives, consensus decides on `b` with the
      transactions of `q` - and the executor commits the transactions of `p`. */
  lemma LateProposalIsLost(world: World, genesis: Header, p: Block, q: Block, b: Block, roots: Hash)
    requires Extends(world, genesis, p.number, p.parent)
    requires Extends(world, genesis, q.number, q.parent)
    requires Extends(world, genesis, b.number, b.parent)
    requires p.txRoot != q.txRoot == b.txRoot
    ensures exists t ::
              && Runs(world, Init(genesis),
                      [ProposalArrives(p), Take(roots), FinishProposal(roots, false), ProposalArrives(q), ConsensusArrives(b),
                       Take(roots), FinishBlock], t)
              && t.log == [Commit(t.head, b)] && t.head.txRoot == p.txRoot != b.txRoot
  {
    hide Runs, Step;
    var s4 := LateProposal(genesis, p, q, roots);
    var t := LateCommit(world, genesis, p, q, b, roots);
    var tail := [ConsensusArrives(b), Take(roots), FinishBlock];
    AfterLateProposal(world, genesis, p, q, b, roots);
    BeforeLateProposal(world, genesis, p, q, roots, tail, t);
    assert [ProposalArrives(p), Take(roots), FinishProposal(roots, false), ProposalArrives(q)] + tail ==
           [ProposalArrives(p), Take(roots), FinishProposal(roots, false), ProposalArrives(q), ConsensusArrives(b), Take(roots),
            FinishBlock];
  }

  /** `p` has been executed and waits; `q` has taken its place in the map. */
  function LateProposal(genesis: Header, p: Block, q: Block, roots: Hash): State {
    Init(genesis).(stage := WaitFinalized, closed := Some(Seal(p, roots)),
                   blockMap := map[p.number := Proposal(q)], channel := [p.number])
  }

  /** Consensus has decided on `b` and the waiting block has been taken for it. */
  function LateDecision(genesis: Header, p: Block, q: Block, b: Block, roots: Hash): State {
    LateProposal(genesis, p, q, roots).(
      blockMap := map[p.number := ConsensusBlock(b)], channel := [p.number], maxHeight := p.number,
      stage := ExecutingBlock, closed := None, work := OnBlock(Settle(Seal(p, roots), b), b, false))
  }

  function LateCommit(world: World, genesis: Header, p: Block, q: Block, b: Block, roots: Hash): State {
    Step(world, LateDecision(genesis, p, q, b, roots), FinishBlock)
  }

  lemma BeforeLateProposal(world: World, genesis: Header, p: Block, q: Block, roots: Hash, rest: seq<Event>, t: State)
    requires Extends(world, genesis, p.number, p.parent) && Extends(world, genesis, q.number, q.parent)
    requires p.txRoot != q.txRoot && Runs(world, LateProposal(genesis, p, q, roots), rest, t)
    ensures Runs(world, Init(genesis),
                 [ProposalArrives(p), Take(roots), FinishProposal(roots, false), ProposalArrives(q)] + rest, t)
  {
    hide Runs;
    var n := p.number;
    var s1 := Init(genesis).(blockMap := map[n := Proposal(p)], channel := [n]);
    var s2 := s1.(channel := [], stage := ExecutingProposal, work := OnProposal(p));
    var s3 := s2.(stage := WaitFinalized, work := Resting, closed := Some(Seal(p, roots)));
    assert Step(world, s3, ProposalArrives(q)) == LateProposal(genesis, p, q, roots);
    RunStep(world, s3, ProposalArrives(q), rest, t);
    assert Step(world, s2, FinishProposal(roots, false)) == s3;
    RunStep(world, s2, FinishProposal(roots, false), [ProposalArrives(q)] + rest, t);
    assert Step(world, s1, Take(roots)) == s2;
    var e2 := [FinishProposal(roots, false)] + ([ProposalArrives(q)] + rest);
    RunStep(world, s1, Take(roots), e2, t);
    assert Step(world, Init(genesis), ProposalArrives(p)) == s1;
    RunStep(world, Init(genesis), ProposalArrives(p), [Take(roots)] + e2, t);
    assert [ProposalArrives(p)] + ([Take(roots)] + e2) ==
           [ProposalArrives(p), Take(roots), FinishProposal(roots, false), ProposalArrives(q)] + rest;
  }

  lemma AfterLateProposal(world: World, genesis: Header, p: Block, q: Block, b: Block, roots: Hash)
    requires Extends(world, genesis, p.number, p.parent) && Extends(world, genesis, b.number, b.parent)
    requires p.txRoot != q.txRoot == b.txRoot
    ensures
      var t := LateCommit(world, genesis, p, q, b, roots);
      && Runs(world, LateProposal(genesis, p, q, roots), [ConsensusArrives(b), Take(roots), FinishBlock], t)
      && t.log == [Commit(t.head, b)] && t.head.txRoot == p.txRoot
  {
    hide Runs;
    var s4, s6 := LateProposal(genesis, p, q, roots), LateDecision(genesis, p, q, b, roots);
    var n, t := p.number, LateCommit(world, genesis, p, q, b, roots);
    var s5 := s4.(blockMap := map[n := ConsensusBlock(b)], channel := [n, n], maxHeight := n);
    RunOfNothing(world, t);
    RunStep(world, s6, FinishBlock, [], t);
    assert Step(world, s5, Take(roots)) == s6;
    RunStep(world, s5, Take(roots), [FinishBlock] + [], t);
    assert Step(world, s4, ConsensusArrives(b)) == s5;
    RunStep(world, s4, ConsensusArrives(b), [Take(roots)] + ([FinishBlock] + []), t);
    assert [ConsensusArrives(b)] + ([Take(roots)] + ([FinishBlock] + [])) == [ConsensusArrives(b), Take(roots), FinishBlock];
  }

  lemma RunOfNothing(world: World, t: State)
    ensures Runs(world, t, [], t)
  {
  }

  lemma RunStep(world: World, s: State, e: Event, rest: seq<Event>, t: State)
    requires Enabled(s, e) && Runs(world, Step(world, s, e), rest, t)
    ensures Runs(world, s, [e] + rest, t)
  {
    assert ([e] + rest)[1..] == rest;
  }

  // ---------------------------------------------------------------------
  // Progress: what is decided gets committed
  // ---------------------------------------------------------------------

  /** Nothing is announced, under way or interrupted. */
  predicate Settled(s: State) {
    s.stage.Idle? && s.work.Resting? && s.channel == [] && !s.interrupted
  }

  /** `t` has committed `header` for `b` on top of what `s` had. */
  predicate CommittedFor(s: State, t: State, header: Header, b: Block) {
    t.head == header && t.log == s.log + [Commit(header, b)] && Agrees(header, b)
  }

  /** A decision that reaches an idle executor is announced, executed and committed, and
      leaves the executor idle again. */
  lemma IdleDecisionCommits(world: World, s: State, b: Block, roots: Hash)
    requires Settled(s) && Extends(world, s.head, b.number, b.parent)
    ensures
      var s1 := Step(world, s, ConsensusArrives(b));
      && s1.maxHeight == b.number
      && Enabled(s1, Take(roots))
      && var s2 := Step(world, s1, Take(roots));
         && Enabled(s2, FinishBlock)
         && var t := Step(world, s2, FinishBlock);
            CommittedFor(s, t, Seal(b, roots), b) && Settled(t)
  {
  }

  /** So every chain of decisions is committed as a whole. */
  ghost predicate Links(world: World, head: Header, blocks: seq<Block>, roots: seq<Hash>)
    requires |blocks| == |roots|
    decreases |blocks|
  {
    blocks != [] ==>
      Extends(world, head, blocks[0].number, blocks[0].parent) && Links(world, Seal(blocks[0], roots[0]), blocks[1..], roots[1..])
  }

  function DecisionEvents(blocks: seq<Block>, roots: seq<Hash>): seq<Event>
    requires |blocks| == |roots|
  {
    if blocks == [] then []
    else [ConsensusArrives(blocks[0])] + ([Take(roots[0])] + ([FinishBlock] + DecisionEvents(blocks[1..], roots[1..])))
  }

  function Commits(blocks: seq<Block>, roots: seq<Hash>): (r: seq<Commit>)
    requires |blocks| == |roots|
    ensures |r| == |blocks| && forall i :: 0 <= i < |r| ==> r[i] == Commit(Seal(blocks[i], roots[i]), blocks[i])
  {
    seq(|blocks|, i requires 0 <= i < |blocks| => Commit(Seal(blocks[i], roots[i]), blocks[i]))
  }

  lemma DecisionRuns(world: World, s: State, b: Block, r: Hash, rest: seq<Event>, t: State)
    requires Settled(s) && Extends(world, s.head, b.number, b.parent)
    requires Runs(world, Decided(world, s, b, r), rest, t)
    ensures Runs(world, s, [ConsensusArrives(b)] + ([Take(r)] + ([FinishBlock] + rest)), t)
  {
    hide Step, Settled, Runs;
    IdleDecisionCommits(world, s, b, r);
    var s1 := Step(world, s, ConsensusArrives(b));
    var s2 := Step(world, s1, Take(r));
    RunStep(world, s2, FinishBlock, rest, t);
    RunStep(world, s1, Take(r), [FinishBlock] + rest, t);
    RunStep(world, s, ConsensusArrives(b), [Take(r)] + ([FinishBlock] + rest), t);
  }

  /** The state in which a decision has been executed. */
  function Decided(world: World, s: State, b: Block, r: Hash): State
    requires Settled(s) && Extends(world, s.head, b.number, b.parent)
  {
    IdleDecisionCommits(world, s, b, r);
    Step(world, Step(world, Step(world, s, ConsensusArrives(b)), Take(r)), FinishBlock)
  }

  lemma {:induction false} DecisionsCommit(world: World, s: State, blocks: seq<Block>, roots: seq<Hash>) returns (t: State)
    requires Settled(s) && |blocks| == |roots| && Links(world, s.head, blocks, roots)
    ensures Runs(world, s, DecisionEvents(blocks, roots), t)
    ensures Settled(t) && t.log == s.log + Commits(blocks, roots)
    decreases |blocks|
  {
    hide Step, Settled;
    if blocks == [] {
      t := s;
      assert Commits(blocks, roots) == [];
    } else {
      var b, r := blocks[0], roots[0];
      IdleDecisionCommits(world, s, b, r);
      t := DecisionsCommit(world, Decided(world, s, b, r), blocks[1..], roots[1..]);
      hide Runs;
      DecisionRuns(world, s, b, r, DecisionEvents(blocks[1..], roots[1..]), t);
      CommitsFirst(s.log, blocks, roots);
    }
  }

  lemma CommitsFirst(log: seq<Commit>, blocks: seq<Block>, roots: seq<Hash>)
    requires |blocks| == |roots| > 0
    ensures log + Commits(blocks, roots) ==
            (log + [Commit(Seal(blocks[0], roots[0]), blocks[0])]) + Commits(blocks[1..], roots[1..])
  {
  }

  /** A proposal that reaches an idle executor is executed and then waits. */
  lemma IdleProposalWaits(world: World, s: State, p: Block, roots: Hash, roots': Hash)
    requires Settled(s) && Extends(world, s.head, p.number, p.parent)
    ensures
      var s1 := Step(world, s, ProposalArrives(p));
      && Enabled(s1, Take(roots))
      && var s2 := Step(world, s1, Take(roots));
         && Enabled(s2, FinishProposal(roots', false)) && s2.work == OnProposal(p)
         && var t := Step(world, s2, FinishProposal(roots', false));
            && t.stage.WaitFinalized? && t.closed == Some(Seal(p, roots')) && !t.interrupted && t.channel == []
            && Get(t.blockMap, p.number) == Some(Proposal(p)) && t.head == s.head && t.log == s.log
  {
  }

  /** A decision on the waiting proposal commits it as it was executed; a decision on
      another block interrupts, and that block is executed and committed instead. */
  lemma WaitingDecisionCommits(world: World, s: State, b: Block, roots: Hash)
    requires Inv(world, s) && s.stage.WaitFinalized? && !s.interrupted && IsProposal(s.blockMap, b.number)
    requires Extends(world, s.head, b.number, b.parent) && s.channel == [] && !Misleads(world, s, b)
    ensures
      var s1 := Step(world, s, ConsensusArrives(b));
      && Enabled(s1, Take(roots))
      && var s2 := Step(world, s1, Take(roots));
         && Enabled(s2, FinishBlock)
         && var t := Step(world, s2, FinishBlock);
            var same := s.blockMap[b.number].block.txRoot == b.txRoot;
            CommittedFor(s, t, if same then Settle(s.closed.value, b) else Seal(b, roots), b) && Settled(t)
  {
  }

  /** A decision on the proposal being executed is committed when its execution ends. */
  lemma ExecutingDecisionCommits(world: World, s: State, b: Block, roots: Hash)
    requires Inv(world, s) && s.work.OnProposal? && !s.interrupted && IsProposal(s.blockMap, b.number)
    requires Extends(world, s.head, b.number, b.parent)
    requires s.blockMap[b.number].block.txRoot == b.txRoot == s.work.block.txRoot
    ensures
      var s1 := Step(world, s, ConsensusArrives(b));
      && Enabled(s1, FinishProposal(roots, false))
      && var t := Step(world, s1, FinishProposal(roots, false));
         CommittedFor(s, t, Settle(Seal(s.work.block, roots), b), b) && t.stage.Idle? && t.work.Resting?
  {
  }

  /** A decision on another block interrupts the execution. If that notices, the decided
      block is executed and committed; if it does not, the decision is lost. */
  lemma InterruptingDecisionCommitsIffNoticed(world: World, s: State, b: Block, roots: Hash, roots': Hash, noticed: bool)
    requires Inv(world, s) && s.work.OnProposal? && !s.interrupted && IsProposal(s.blockMap, b.number) && s.channel == []
    requires Extends(world, s.head, b.number, b.parent) && s.blockMap[b.number].block.txRoot != b.txRoot
    ensures
      var s1 := Step(world, s, ConsensusArrives(b));
      && Enabled(s1, FinishProposal(roots', noticed))
      && var s2 := Step(world, s1, FinishProposal(roots', noticed));
         && Enabled(s2, Take(roots))
         && var s3 := Step(world, s2, Take(roots));
            if noticed then
              && Enabled(s3, FinishBlock)
              && var t := Step(world, s3, FinishBlock);
                 CommittedFor(s, t, Seal(b, roots), b) && Settled(t)
            else Settled(s3) && s3.head == s.head && s3.log == s.log
  {
  }

  /** A new proposal interrupts the one being executed if its transactions differ, and is
      executed next if that notices. */
  lemma NewProposalTakesOver(world: World, s: State, p: Block, roots: Hash, roots': Hash, noticed: bool)
    requires Inv(world, s) && s.work.OnProposal? && !s.interrupted && IsProposal(s.blockMap, p.number) && s.channel == []
    requires Extends(world, s.head, p.number, p.parent) && s.blockMap[p.number].block.txRoot != p.txRoot
    ensures
      var s1 := Step(world, s, ProposalArrives(p));
      && s1.interrupted && Enabled(s1, FinishProposal(roots', noticed))
      && var s2 := Step(world, s1, FinishProposal(roots', noticed));
         && Enabled(s2, Take(roots))
         && var s3 := Step(world, s2, Take(roots));
            s3.work == OnProposal(p) && !s3.interrupted && s3.log == s.log
  {
  }

  /** An interrupt stops the execution of a decided block that has transactions: then it is
      not committed. Otherwise it is. */
  lemma FinishBlockCommitsIff(world: World, s: State)
    requires s.work.OnBlock?
    ensures
      var t := Step(world, s, FinishBlock);
      && t.stage.Idle? && t.work.Resting?
      && t.log == (if s.interrupted && s.work.interruptible && s.work.decided.txCount > 0 then s.log
                   else s.log + [Commit(s.work.header, s.work.decided)])
      && (forall n :: n >= t.head.number ==> Get(t.blockMap, n) == Get(s.blockMap, n))
      && (forall n :: n in t.blockMap ==> n >= t.head.number)
  {
  }

  /** What is dropped: blocks and proposals that do not extend the head, those that come
      while a block is being executed, decisions with no proposal queued while one is executed
      or waits, and proposals of the same transactions or during synchronisation. */
  lemma OtherArrivalsAreDropped(world: World, s: State, b: Block)
    ensures !Extends(world, s.head, b.number, b.parent) || s.stage.ExecutingBlock? ==>
              Step(world, s, ConsensusArrives(b)) == s && Step(world, s, ProposalArrives(b)) == s
    ensures (s.stage.ExecutingProposal? || s.stage.WaitFinalized?) && !IsProposal(s.blockMap, b.number) ==>
              Step(world, s, ConsensusArrives(b)) == s && Step(world, s, ProposalArrives(b)) == s
    ensures (s.stage.ExecutingProposal? || s.stage.WaitFinalized?)
            && IsProposal(s.blockMap, b.number) && s.blockMap[b.number].block.txRoot == b.txRoot ==>
              Step(world, s, ProposalArrives(b)) == s
    ensures s.work.OnSync? ==> Step(world, s, ProposalArrives(b)) == s
  {
  }

  /** An announced height with nothing to execute is passed over: nothing queued there, a
      decision that does not extend the head, or a synchronised block without proof or not
      next. A decision that comes to the executor in the middle of a proposal is lost. */
  lemma OtherHeightsArePassedOver(world: World, s: State, roots: Hash)
    requires s.work.Resting? && s.channel != []
    ensures
      var n, t := s.channel[0], Step(world, s, Take(roots));
      && t.channel == s.channel[1..]
      && (n !in s.blockMap ==> t == s.(channel := s.channel[1..]))
      && (n in s.blockMap ==>
            var q := s.blockMap[n];
            var connects := Extends(world, s.head, q.block.number, q.block.parent);
            && (q.SyncBlock? && (q.proof.None? || n != s.head.number + 1) ==> t == s.(channel := s.channel[1..]))
            && (q.ConsensusBlock? && !connects ==> t == s.(channel := s.channel[1..]))
            && (q.ConsensusBlock? && connects && s.stage.ExecutingProposal? && !s.interrupted ==>
                  t.stage.Idle? && t.work.Resting? && t.log == s.log))
  {
  }

  /** The synchronisation loop stops without a commit at the first block that is missing,
      not proved, does not extend the head or has a bad proof; the last two empty the queue.
      Otherwise it goes on, and commits unless an interrupt stops the transactions. */
  lemma SyncTurnOutcome(world: World, s: State, roots: Hash)
    requires s.work.OnSync?
    ensures
      var n, todo, t := s.work.number, s.work.todo, Step(world, s, SyncNext(roots));
      var proved := n in todo && todo[n].SyncBlock? && todo[n].proof.Some?;
      && (!proved ==>
            && t.stage.Idle? && t.work.Resting? && t.log == s.log
            && forall k :: k >= s.head.number ==> Get(t.blockMap, k) == Get(s.blockMap, k))
      && (proved && !(Extends(world, s.head, todo[n].block.number, todo[n].block.parent)
                      && world.proofOk(todo[n].block, todo[n].proof.value)) ==>
            t.stage.Idle? && t.work.Resting? && t.log == s.log && t.blockMap == map[])
      && (proved && Extends(world, s.head, todo[n].block.number, todo[n].block.parent)
          && world.proofOk(todo[n].block, todo[n].proof.value) ==>
            && t.work == OnSync(n + 1, todo - {n})
            && t.log == s.log + (if s.interrupted && todo[n].block.txCount > 0 then []
                                 else [Commit(Seal(todo[n].block, roots), todo[n].block)]))
  {
  }

  /** Two synchronised blocks arrive, the second with the proof of the first: the first is
      executed and committed, the second waits for its own proof. */
  lemma SyncedBlockCommits(world: World, s: State, b: Block, c: Block, roots: Hash, roots': Hash)
    requires Settled(s) && s.maxHeight == s.head.number && s.head.number + 2 < U64_MAX
    requires Extends(world, s.head, b.number, b.parent) && b.proof.height == s.head.number
    requires c.number == b.number + 1 && c.proof.height == b.number && world.proofOk(b, c.proof)
    ensures
      var s1 := Step(world, s, SyncArrives(b));
      var s2 := Step(world, s1, SyncArrives(c));
      var s3 := Step(world, s2, SyncEnds);
      && Enabled(s3, Take(roots))
      && var s4 := Step(world, s3, Take(roots));
         && Enabled(s4, SyncNext(roots))
         && var s5 := Step(world, s4, SyncNext(roots));
            && CommittedFor(s, s5, Seal(b, roots), b)
            && Enabled(s5, SyncNext(roots'))
            && var t := Step(world, s5, SyncNext(roots'));
               Settled(t) && t.log == s5.log && Get(t.blockMap, c.number) == Some(SyncBlock(c, None))
  {
    var t1 := Step(world, s, SyncArrives(b));
    assert Get(t1.blockMap, b.number) == Some(SyncBlock(b, None)) && t1.maxHeight == b.number;
    var t2 := Step(world, t1, SyncArrives(c));
    assert Get(t2.blockMap, b.number) == Some(SyncBlock(b, Some(c.proof)));
    assert Get(t2.blockMap, c.number) == Some(SyncBlock(c, None));
  }

  /** A synchronised block that connects to the greatest height is queued, and its proof
      completes the block it is for, if that has none; one of height 2^64 - 1 only does the
      latter; any other is dropped. */
  lemma SyncArrivalQueues(world: World, s: State, b: Block)
    ensures
      var t, h := Step(world, s, SyncArrives(b)), if b.proof.height == U64_MAX then 0 else b.proof.height;
      var late := b.number < s.maxHeight || b.number <= s.head.number;
      var proves := h in s.blockMap && s.blockMap[h].SyncBlock? && s.blockMap[h].proof.None?;
      if !late && b.number != U64_MAX && h == s.maxHeight then
        && Get(t.blockMap, b.number) == Some(SyncBlock(b, None)) && t.maxHeight == b.number
        && (proves && h != b.number ==> Get(t.blockMap, h) == Some(SyncBlock(s.blockMap[h].block, Some(b.proof))))
        && (forall n :: n != b.number && !(proves && n == h) ==> Get(t.blockMap, n) == Get(s.blockMap, n))
      else if !late && b.number == U64_MAX && h > s.head.number && proves then
        && Get(t.blockMap, h) == Some(SyncBlock(s.blockMap[h].block, Some(b.proof))) && t.maxHeight == s.maxHeight
        && (forall n :: n != h ==> Get(t.blockMap, n) == Get(s.blockMap, n))
      else t == s
  {
  }

  // ---------------------------------------------------------------------
  // The synchronisation loop
  // ---------------------------------------------------------------------

  /** The loop of `sync_blocks` to its end, with no enqueue in between. */
  function SyncRun(world: World, s: State, roots: nat -> Hash): (t: State)
    requires s.work.OnSync?
    ensures !t.work.OnSync?
    decreases |s.work.todo|
  {
    var t := SyncTurn(world, s, roots(s.work.number));
    if t.work.OnSync? then
      assert s.work.todo.Keys == t.work.todo.Keys + {s.work.number};
      SyncRun(world, t, roots)
    else t
  }

  /** One turn goes on to the next height only by taking the queued block there. */
  lemma SyncTurnCommits(world: World, s: State, roots: Hash)
    requires Inv(world, s) && s.work.OnSync?
    ensures
      var n, t := s.work.number, SyncTurn(world, s, roots);
      && Inv(world, t)
      && (t.work.OnSync? ==> t.work.todo == s.work.todo - {n} && n in s.work.todo && t.work.number == n + 1)
      && (t.log != s.log ==>
            && t.work.OnSync?
            && n == t.head.number == s.head.number + 1
            && t.log == s.log + [Commit(t.head, s.work.todo[n].block)])
      && (t.log == s.log ==> t.head == s.head)
  {
    InvSyncTurn(world, s, roots);
  }

  /** It commits consecutive heights, each with the block queued there. */
  lemma {:induction false} SyncRunIsConsecutive(world: World, s: State, roots: nat -> Hash)
    requires Inv(world, s) && s.work.OnSync?
    ensures
      var t := SyncRun(world, s, roots);
      && s.log <= t.log
      && t.head.number == s.head.number + |t.log| - |s.log|
      && forall i :: |s.log| <= i < |t.log| ==>
           var header := t.log[i].header;
           && header.number == s.head.number + 1 + i - |s.log|
           && header.number in s.work.todo
           && t.log[i].decided == s.work.todo[header.number].block
    decreases |s.work.todo|
  {
    hide SyncTurn, Inv;
    var t := SyncTurn(world, s, roots(s.work.number));
    SyncTurnCommits(world, s, roots(s.work.number));
    if t.work.OnSync? {
      assert s.work.todo.Keys == t.work.todo.Keys + {s.work.number};
      SyncRunIsConsecutive(world, t, roots);
    }
  }

  /** From `head` on, `k` queued blocks have valid proofs and each extends the one before
      as it was executed. */
  ghost predicate Ready(world: World, head: Header, todo: map<nat, Queued>, number: nat, k: nat, roots: nat -> Hash)
    decreases k
  {
    k > 0 ==>
      && number in todo && todo[number].SyncBlock? && todo[number].proof.Some?
      && Extends(world, head, todo[number].block.number, todo[number].block.parent)
      && world.proofOk(todo[number].block, todo[number].proof.value)
      && Ready(world, Seal(todo[number].block, roots(number)), todo, number + 1, k - 1, roots)
  }

  /** The commits of those blocks. */
  function ReadyCommits(todo: map<nat, Queued>, number: nat, k: nat, roots: nat -> Hash): seq<Commit>
    decreases k
  {
    if k == 0 || number !in todo then []
    else
      [Commit(Seal(todo[number].block, roots(number)), todo[number].block)] + ReadyCommits(todo, number + 1, k - 1, roots)
  }

  /** It commits every queued block that is ready, as it was executed. */
  lemma {:induction false} SyncRunCommitsReady(world: World, s: State, k: nat, roots: nat -> Hash)
    requires s.work.OnSync? && !s.interrupted && Ready(world, s.head, s.work.todo, s.work.number, k, roots)
    ensures s.log + ReadyCommits(s.work.todo, s.work.number, k, roots) <= SyncRun(world, s, roots).log
    decreases |s.work.todo|
  {
    var n, todo := s.work.number, s.work.todo;
    var t := SyncTurn(world, s, roots(n));
    if k == 0 {
      LogGrows(world, s, roots);
      assert s.log + [] == s.log;
    } else {
      ReadyTurn(world, s, k, roots);
      hide SyncTurn, Ready;
      assert todo.Keys == t.work.todo.Keys + {n};
      ReadyWithout(world, t.head, todo, n, n + 1, k - 1, roots);
      SyncRunCommitsReady(world, t, k - 1, roots);
      var c, rest := t.log[|s.log|], ReadyCommits(todo, n + 1, k - 1, roots);
      assert s.log + ([c] + rest) == (s.log + [c]) + rest;
    }
  }

  lemma ReadyTurn(world: World, s: State, k: nat, roots: nat -> Hash)
    requires s.work.OnSync? && !s.interrupted && k > 0 && Ready(world, s.head, s.work.todo, s.work.number, k, roots)
    ensures
      var n, todo := s.work.number, s.work.todo;
      var t := SyncTurn(world, s, roots(n));
      && n in todo && t.head == Seal(todo[n].block, roots(n)) && !t.interrupted
      && t.log == s.log + [Commit(t.head, todo[n].block)]
      && t.work == OnSync(n + 1, todo - {n})
      && Ready(world, t.head, todo, n + 1, k - 1, roots)
  {
  }

  lemma {:induction false} LogGrows(world: World, s: State, roots: nat -> Hash)
    requires s.work.OnSync?
    ensures s.log <= SyncRun(world, s, roots).log
    decreases |s.work.todo|
  {
    var t := SyncTurn(world, s, roots(s.work.number));
    assert s.log <= t.log;
    if t.work.OnSync? {
      assert s.work.todo.Keys == t.work.todo.Keys + {s.work.number};
      LogGrows(world, t, roots);
    }
  }

  lemma {:induction false} ReadyWithout(world: World, head: Header, todo: map<nat, Queued>, m: nat, number: nat, k: nat,
                                        roots: nat -> Hash)
    requires m < number && Ready(world, head, todo, number, k, roots)
    ensures Ready(world, head, todo - {m}, number, k, roots)
    ensures ReadyCommits(todo - {m}, number, k, roots) == ReadyCommits(todo, number, k, roots)
    decreases k
  {
    if k > 0 {
      ReadyWithout(world, Seal(todo[number].block, roots(number)), todo, m, number + 1, k - 1, roots);
    }
  }
}
