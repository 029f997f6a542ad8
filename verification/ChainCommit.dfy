/**
 Storing bodies, committing executed blocks and finding transactions again
 (cita-chain/core/src/libchain/chain.rs, cita-chain/core/src/libchain/block.rs and
 cita-chain/src/forward.rs). A block's body is stored when the block arrives; its
 header, its hash and the addresses of its transactions follow when the executor
 reports its result.
 */
module ChainCommit {
  import opened Basics

  type Hash(==, !new)
  type Payload(==, !new)

  const U64_MAX: nat := 0xFFFF_FFFF_FFFF_FFFF

  /** `NoProof` is what the default block has. */
  datatype Proof = NoProof | Proof(height: nat, votes: Hash)

  datatype Tx = Tx(hash: Hash, payload: Payload)

  type Body = seq<Tx>

  datatype Block = Block(number: nat, parent: Hash, proof: Proof, body: Body)

  /** What the executor reports; `roots` stands for the header's other fields. */
  datatype Result = Result(number: nat, parent: Hash, roots: Hash)

  datatype Header = Header(number: nat, parent: Hash, proof: Proof, roots: Hash)

  datatype Queued = ConsensusBlock(block: Block) | SyncBlock(block: Block, proof: Option<Proof>)

  datatype Address = Address(blockHash: Hash, index: nat)

  datatype Committed = Committed(header: Header, body: Body)

  /** `log` is history: all blocks committed after the genesis block, oldest first. */
  datatype State = State(
    head: Header,
    maxStoreHeight: nat,
    blockMap: map<nat, Queued>,
    headers: map<nat, Header>,
    bodies: map<nat, Body>,
    heights: map<Hash, nat>,
    addresses: map<Hash, Address>,
    log: seq<Committed>)

  datatype Event = ConsensusArrives(block: Block) | SyncArrives(block: Block) | ResultArrives(result: Result)

  function Init(genesis: Header): State {
    State(genesis, 0, map[], map[], map[], map[], map[], [])
  }

  // ---------------------------------------------------------------------
  // Steps
  // ---------------------------------------------------------------------

  function SetBlockBody(s: State, b: Block): State {
    s.(bodies := s.bodies[b.number := b.body], maxStoreHeight := b.number)
  }

  function ConsensusEnqueue(s: State, b: Block): State {
    if b.number == s.maxStoreHeight + 1
    then SetBlockBody(s.(blockMap := s.blockMap[b.number := ConsensusBlock(b)]), b)
    else s
  }

  function ProofHeight(proof: Proof): nat {
    if proof.NoProof? || proof.height == U64_MAX then 0 else proof.height
  }

  function ProveQueued(m: map<nat, Queued>, n: nat, proof: Proof): map<nat, Queued> {
    if n in m && m[n].SyncBlock? && m[n].proof.None? then m[n := SyncBlock(m[n].block, Some(proof))] else m
  }

  /** The highest height in the block map is, in this service, the head's. */
  function AddSyncBlock(s: State, b: Block): State {
    var height := ProofHeight(b.proof);
    if b.number < s.head.number || b.proof.NoProof? then s
    else if b.number != U64_MAX then
      if height == s.head.number || height == s.maxStoreHeight
      then SetBlockBody(s.(blockMap := ProveQueued(s.blockMap, height, b.proof)[b.number := SyncBlock(b, None)]), b)
      else s
    else if height > s.head.number then s.(blockMap := ProveQueued(s.blockMap, height, b.proof))
    else s
  }

  predicate HasTx(body: Body, x: Hash) {
    exists i :: 0 <= i < |body| && body[i].hash == x
  }

  /** The position of the last transaction with a hash. */
  function LastIndex(body: Body, x: Hash): (i: nat)
    requires HasTx(body, x)
    ensures i < |body| && body[i].hash == x
    ensures forall j :: i < j < |body| ==> body[j].hash != x
  {
    if body[|body| - 1].hash == x then |body| - 1
    else
      assert forall j :: 0 <= j < |body| && body[j].hash == x ==> j < |body| - 1 && body[..|body| - 1][j].hash == x;
      LastIndex(body[..|body| - 1], x)
  }

  lemma OneMore(body: Body, i: nat, y: Hash)
    requires i < |body|
    ensures HasTx(body[..i + 1], y) <==> y == body[i].hash || HasTx(body[..i], y)
    ensures HasTx(body[..i + 1], y) ==>
              LastIndex(body[..i + 1], y) == if y == body[i].hash then i else LastIndex(body[..i], y)
  {
    var more := body[..i + 1];
    assert more[i] == body[i] && more[..i] == body[..i];
    if HasTx(body[..i], y) {
      var j :| 0 <= j < i && body[..i][j].hash == y;
      assert more[j].hash == y;
    }
    if j :| 0 <= j < i && more[j].hash == y {
      assert body[..i][j].hash == y;
    }
  }

  lemma AddressesAre(blockHash: Hash, body: Body, r: map<Hash, Address>)
    requires forall x :: x in r <==> HasTx(body, x)
    requires forall x :: x in r ==> r[x] == Address(blockHash, LastIndex(body, x))
    ensures r == Addresses(blockHash, body)
  {
    hide LastIndex;
    forall x
      ensures x in r <==> x in Addresses(blockHash, body)
    {
      if HasTx(body, x) {
        assert x in TxHashes(body);
      }
    }
  }

  function TxHashes(body: Body): set<Hash> {
    set i | 0 <= i < |body| :: body[i].hash
  }

  /** `Block::transaction_addresses`: later transactions win. */
  function Addresses(blockHash: Hash, body: Body): map<Hash, Address> {
    map x | x in TxHashes(body) && HasTx(body, x) :: Address(blockHash, LastIndex(body, x))
  }

  /** `set_db_result`. */
  function CommitBlock(hashOf: Header -> Hash, s: State, r: Result, b: Block): State {
    var header := Header(r.number, r.parent, b.proof, r.roots);
    var hash := hashOf(header);
    s.(head := header,
       headers := s.headers[r.number := header],
       bodies := if s.maxStoreHeight < r.number then s.bodies[r.number := b.body] else s.bodies,
       heights := s.heights[hash := r.number],
       addresses := s.addresses + Addresses(hash, b.body),
       log := s.log + [Committed(header, b.body)])
  }

  /** Whether a result commits the block queued at its height. A synchronised
      block is not checked against the head's hash here. */
  predicate Commits(hashOf: Header -> Hash, s: State, r: Result) {
    && r.number != s.head.number
    && r.number in s.blockMap
    && match s.blockMap[r.number]
       case ConsensusBlock(b) => b.number == s.head.number + 1 && b.parent == hashOf(s.head)
       case SyncBlock(_, _) => r.number == s.head.number + 1
  }

  /** `set_excuted_result`, for results of blocks after the genesis block. */
  function TakeResult(hashOf: Header -> Hash, s: State, r: Result): State {
    if r.number == s.head.number then s
    else
      var s1 := if Commits(hashOf, s, r) then CommitBlock(hashOf, s, r, s.blockMap[r.number].block) else s;
      s1.(blockMap := map n | n in s1.blockMap && n >= s1.head.number :: s1.blockMap[n])
  }

  /** `set_excuted_result_genesis`: the default block is committed whatever the head is. */
  function InstallGenesis(hashOf: Header -> Hash, s: State, r: Result): State {
    CommitBlock(hashOf, s, r, Block(0, r.parent, NoProof, [])).(log := s.log)
  }

  function Step(hashOf: Header -> Hash, s: State, e: Event): State {
    match e
    case ConsensusArrives(b) => ConsensusEnqueue(s, b)
    case SyncArrives(b) => AddSyncBlock(s, b)
    case ResultArrives(r) => if r.number == 0 then InstallGenesis(hashOf, s, r) else TakeResult(hashOf, s, r)
  }

  function Run(hashOf: Header -> Hash, genesis: Header, events: seq<Event>): State {
    if events == [] then Init(genesis)
    else Step(hashOf, Run(hashOf, genesis, events[..|events| - 1]), events[|events| - 1])
  }

  // ---------------------------------------------------------------------
  // Looking a transaction up
  // ---------------------------------------------------------------------

  /** `OutOfRange` stands for indexing past the end of a stored body. */
  datatype Lookup = NotFound | OutOfRange | Found(tx: Tx, blockNumber: nat, blockHash: Hash, index: nat)

  /** By address, block hash, height and stored body. */
  function FullTransaction(s: State, x: Hash): Lookup {
    if x !in s.addresses then NotFound
    else
      var a := s.addresses[x];
      if a.blockHash !in s.heights then NotFound
      else
        var n := s.heights[a.blockHash];
        if n !in s.headers || n !in s.bodies then NotFound
        else if a.index >= |s.bodies[n]| then OutOfRange
        else Found(s.bodies[n][a.index], s.headers[n].number, a.blockHash, a.index)
  }

  /** A transaction is found under its own hash, in the block it was committed in. */
  ghost predicate Resolves(hashOf: Header -> Hash, s: State, x: Hash) {
    var f := FullTransaction(s, x);
    && f.Found?
    && f.tx.hash == x
    && exists i :: 0 <= i < |s.log|
         && s.log[i].header.number == f.blockNumber
         && hashOf(s.log[i].header) == f.blockHash
         && f.index < |s.log[i].body| && s.log[i].body[f.index] == f.tx
  }

  // ---------------------------------------------------------------------
  // Right after the commit
  // ---------------------------------------------------------------------

  /** The body of every queued block is stored at its height. */
  ghost predicate QueueStored(s: State) {
    forall n :: n in s.blockMap ==>
      s.blockMap[n].block.number == n && n in s.bodies && s.bodies[n] == s.blockMap[n].block.body
  }

  lemma ConsensusKeepsQueue(s: State, b: Block)
    requires QueueStored(s)
    ensures QueueStored(ConsensusEnqueue(s, b))
  {
  }

  lemma SyncKeepsQueue(s: State, b: Block)
    requires QueueStored(s)
    ensures QueueStored(AddSyncBlock(s, b))
  {
    var m := ProveQueued(s.blockMap, ProofHeight(b.proof), b.proof);
    assert forall n :: n in m ==> n in s.blockMap && m[n].block == s.blockMap[n].block;
  }

  lemma ResultKeepsQueue(hashOf: Header -> Hash, s: State, r: Result)
    requires QueueStored(s)
    ensures QueueStored(TakeResult(hashOf, s, r))
  {
    hide Addresses;
  }

  lemma StepKeepsQueue(hashOf: Header -> Hash, s: State, e: Event)
    requires QueueStored(s)
    ensures QueueStored(Step(hashOf, s, e))
  {
    hide ConsensusEnqueue, AddSyncBlock, TakeResult, Addresses;
    match e
    case ConsensusArrives(b) => ConsensusKeepsQueue(s, b);
    case SyncArrives(b) => SyncKeepsQueue(s, b);
    case ResultArrives(r) =>
      if r.number > 0 {
        ResultKeepsQueue(hashOf, s, r);
      }
  }

  lemma {:induction false} RunKeepsQueue(hashOf: Header -> Hash, genesis: Header, events: seq<Event>)
    ensures QueueStored(Run(hashOf, genesis, events))
  {
    if events != [] {
      var n := |events| - 1;
      RunKeepsQueue(hashOf, genesis, events[..n]);
      StepKeepsQueue(hashOf, Run(hashOf, genesis, events[..n]), events[n]);
    }
  }

  /** In every run, right after a block is committed each of its transactions is
      found under its hash, at a position of the block that holds it. */
  lemma CommittedTransactionsResolve(hashOf: Header -> Hash, genesis: Header, events: seq<Event>, r: Result, i: nat)
    requires Commits(hashOf, Run(hashOf, genesis, events), r)
    requires i < |Run(hashOf, genesis, events).blockMap[r.number].block.body|
    ensures
      var s := Run(hashOf, genesis, events);
      var x := s.blockMap[r.number].block.body[i].hash;
      var t := Run(hashOf, genesis, events + [ResultArrives(r)]);
      Resolves(hashOf, t, x) && FullTransaction(t, x).blockNumber == r.number
  {
    hide Resolves, FullTransaction, TakeResult;
    assert (events + [ResultArrives(r)])[..|events|] == events;
    RunKeepsQueue(hashOf, genesis, events);
    ResolvesAfterCommit(hashOf, Run(hashOf, genesis, events), r, i);
  }

  lemma AddressOf(blockHash: Hash, body: Body, i: nat)
    requires i < |body|
    ensures
      var x := body[i].hash;
      && HasTx(body, x)
      && Get(Addresses(blockHash, body), x) == Some(Address(blockHash, LastIndex(body, x)))
  {
    assert body[i].hash in TxHashes(body);
  }

  lemma ResolvesAfterCommit(hashOf: Header -> Hash, s: State, r: Result, i: nat)
    requires QueueStored(s) && Commits(hashOf, s, r) && i < |s.blockMap[r.number].block.body|
    ensures
      var x, t := s.blockMap[r.number].block.body[i].hash, TakeResult(hashOf, s, r);
      r.number > 0 && Resolves(hashOf, t, x) && FullTransaction(t, x).blockNumber == r.number
  {
    var b, t := s.blockMap[r.number].block, TakeResult(hashOf, s, r);
    var c := Committed(t.head, b.body);
    AddressOf(hashOf(t.head), b.body, i);
    hide Addresses, LastIndex, HasTx;
    assert t.bodies[r.number] == b.body;
    assert t.log == s.log + [c];
    assert t.log[|s.log|] == c;
  }

  // ---------------------------------------------------------------------
  // For ever after
  // ---------------------------------------------------------------------

  /** Different headers have different hashes. */
  ghost predicate Injective(hashOf: Header -> Hash) {
    forall g, h :: hashOf(g) == hashOf(h) ==> g == h
  }

  /** The i-th committed block can be found by its hash and by its height. */
  ghost predicate BlockStored(hashOf: Header -> Hash, s: State, i: nat)
    requires i < |s.log|
  {
    var n, hash := s.log[i].header.number, hashOf(s.log[i].header);
    && n <= s.head.number
    && Get(s.heights, hash) == Some(n)
    && Get(s.headers, n) == Some(s.log[i].header)
    && Get(s.bodies, n) == Some(s.log[i].body)
  }

  /** `a` points at a committed transaction with hash `x`. */
  ghost predicate PointsAt(hashOf: Header -> Hash, log: seq<Committed>, a: Address, x: Hash) {
    exists i :: 0 <= i < |log| && hashOf(log[i].header) == a.blockHash
                && a.index < |log[i].body| && log[i].body[a.index].hash == x
  }

  ghost predicate LogStored(hashOf: Header -> Hash, s: State) {
    && (forall i :: 0 <= i < |s.log| ==> BlockStored(hashOf, s, i))
    && (forall i, x :: 0 <= i < |s.log| && HasTx(s.log[i].body, x) ==> x in s.addresses)
    && (forall x :: x in s.addresses ==> PointsAt(hashOf, s.log, s.addresses[x], x))
  }

  /** Whether an event stores a body, and of which height. */
  predicate Stores(s: State, e: Event) {
    match e
    case ConsensusArrives(b) => b.number == s.maxStoreHeight + 1
    case SyncArrives(b) =>
      b.number >= s.head.number && b.number != U64_MAX && b.proof.Proof?
      && (ProofHeight(b.proof) == s.head.number || ProofHeight(b.proof) == s.maxStoreHeight)
    case ResultArrives(_) => false
  }

  /** No body is stored at a height that is already committed, and the genesis block is
      not installed once there are others. */
  predicate Undisturbed(s: State, e: Event) {
    && (Stores(s, e) ==> e.block.number > s.head.number)
    && (e.ResultArrives? && e.result.number == 0 ==> s.log == [])
  }

  lemma LoggedResolve(hashOf: Header -> Hash, s: State, x: Hash)
    requires LogStored(hashOf, s) && x in s.addresses
    ensures Resolves(hashOf, s, x)
  {
    var a := s.addresses[x];
    assert PointsAt(hashOf, s.log, a, x);
    var i :| 0 <= i < |s.log| && hashOf(s.log[i].header) == a.blockHash
             && a.index < |s.log[i].body| && s.log[i].body[a.index].hash == x;
    assert BlockStored(hashOf, s, i);
  }

  /** Storing a body above the head leaves the committed blocks alone. */
  lemma EnqueueKeepsBlocks(hashOf: Header -> Hash, s: State, e: Event, i: nat)
    requires i < |s.log| && BlockStored(hashOf, s, i) && Undisturbed(s, e) && !e.ResultArrives?
    ensures Step(hashOf, s, e).log == s.log && BlockStored(hashOf, Step(hashOf, s, e), i)
  {
  }

  lemma EnqueueKeepsLog(hashOf: Header -> Hash, s: State, e: Event)
    requires LogStored(hashOf, s) && Undisturbed(s, e) && !e.ResultArrives?
    ensures LogStored(hashOf, Step(hashOf, s, e))
  {
    hide BlockStored, PointsAt, HasTx;
    var t := Step(hashOf, s, e);
    assert t.log == s.log && t.addresses == s.addresses;
    forall i | 0 <= i < |t.log|
      ensures BlockStored(hashOf, t, i)
    {
      EnqueueKeepsBlocks(hashOf, s, e, i);
    }
  }

  lemma CommitKeepsBlocks(hashOf: Header -> Hash, s: State, r: Result)
    requires Injective(hashOf) && QueueStored(s) && LogStored(hashOf, s) && Commits(hashOf, s, r)
    ensures
      var t := CommitBlock(hashOf, s, r, s.blockMap[r.number].block);
      forall i :: 0 <= i < |t.log| ==> BlockStored(hashOf, t, i)
  {
    var b := s.blockMap[r.number].block;
    var t := CommitBlock(hashOf, s, r, b);
    forall i | 0 <= i < |t.log|
      ensures BlockStored(hashOf, t, i)
    {
      if i < |s.log| {
        assert t.log[i] == s.log[i];
        assert BlockStored(hashOf, s, i);
      }
    }
  }

  lemma CommitKeepsAddresses(hashOf: Header -> Hash, s: State, r: Result)
    requires LogStored(hashOf, s) && Commits(hashOf, s, r)
    ensures
      var t := CommitBlock(hashOf, s, r, s.blockMap[r.number].block);
      && (forall i, x :: 0 <= i < |t.log| && HasTx(t.log[i].body, x) ==> x in t.addresses)
      && (forall x :: x in t.addresses ==> PointsAt(hashOf, t.log, t.addresses[x], x))
  {
    var b := s.blockMap[r.number].block;
    var t := CommitBlock(hashOf, s, r, b);
    var n := |s.log|;
    assert t.log[n].body == b.body;
    forall i, x | 0 <= i < |t.log| && HasTx(t.log[i].body, x)
      ensures x in t.addresses
    {
      if i < n {
        assert t.log[i] == s.log[i];
      } else {
        assert x in TxHashes(b.body);
      }
    }
    forall x | x in t.addresses
      ensures PointsAt(hashOf, t.log, t.addresses[x], x)
    {
      if x in Addresses(hashOf(t.head), b.body) {
        assert t.addresses[x] == Address(hashOf(t.log[n].header), LastIndex(b.body, x));
      } else {
        assert PointsAt(hashOf, s.log, s.addresses[x], x);
        var i :| 0 <= i < |s.log| && hashOf(s.log[i].header) == s.addresses[x].blockHash
                 && s.addresses[x].index < |s.log[i].body| && s.log[i].body[s.addresses[x].index].hash == x;
        assert t.log[i] == s.log[i];
      }
    }
  }

  ghost predicate UndisturbedRun(hashOf: Header -> Hash, genesis: Header, events: seq<Event>) {
    events != [] ==>
      var n := |events| - 1;
      UndisturbedRun(hashOf, genesis, events[..n]) && Undisturbed(Run(hashOf, genesis, events[..n]), events[n])
  }

  lemma {:induction false} RunKeepsLog(hashOf: Header -> Hash, genesis: Header, events: seq<Event>)
    requires Injective(hashOf) && UndisturbedRun(hashOf, genesis, events)
    ensures LogStored(hashOf, Run(hashOf, genesis, events))
  {
    if events != [] {
      var n := |events| - 1;
      var s, e := Run(hashOf, genesis, events[..n]), events[n];
      RunKeepsLog(hashOf, genesis, events[..n]);
      if !e.ResultArrives? {
        EnqueueKeepsLog(hashOf, s, e);
      } else {
        RunKeepsQueue(hashOf, genesis, events[..n]);
        if e.result.number > 0 {
          ResultKeepsLog(hashOf, s, e.result);
        } else {
          GenesisKeepsLog(hashOf, s, e.result);
        }
      }
    }
  }

  lemma GenesisKeepsLog(hashOf: Header -> Hash, s: State, r: Result)
    requires LogStored(hashOf, s) && s.log == []
    ensures LogStored(hashOf, InstallGenesis(hashOf, s, r))
  {
    var t := InstallGenesis(hashOf, s, r);
    forall x | x in t.addresses
      ensures PointsAt(hashOf, t.log, t.addresses[x], x)
    {
      assert x !in TxHashes([]);
      assert PointsAt(hashOf, s.log, s.addresses[x], x);
    }
  }

  lemma ResultKeepsLog(hashOf: Header -> Hash, s: State, r: Result)
    requires Injective(hashOf) && QueueStored(s) && LogStored(hashOf, s)
    ensures LogStored(hashOf, TakeResult(hashOf, s, r))
  {
    var t := TakeResult(hashOf, s, r);
    if Commits(hashOf, s, r) {
      var c := CommitBlock(hashOf, s, r, s.blockMap[r.number].block);
      CommitKeepsBlocks(hashOf, s, r);
      CommitKeepsAddresses(hashOf, s, r);
      assert t == c.(blockMap := t.blockMap);
      forall i | 0 <= i < |t.log|
        ensures BlockStored(hashOf, t, i)
      {
        assert BlockStored(hashOf, c, i);
      }
    } else {
      forall i | 0 <= i < |t.log|
        ensures BlockStored(hashOf, t, i)
      {
        assert BlockStored(hashOf, s, i);
      }
    }
  }

  /** As long as no body is stored at a committed height, every transaction of
      every block ever committed is found under its hash, at every later time. */
  lemma TransactionsResolveForEver(hashOf: Header -> Hash, genesis: Header, events: seq<Event>, i: nat, x: Hash)
    requires Injective(hashOf) && UndisturbedRun(hashOf, genesis, events)
    requires i < |Run(hashOf, genesis, events).log| && HasTx(Run(hashOf, genesis, events).log[i].body, x)
    ensures Resolves(hashOf, Run(hashOf, genesis, events), x)
  {
    RunKeepsLog(hashOf, genesis, events);
    LoggedResolve(hashOf, Run(hashOf, genesis, events), x);
  }

  /** The source also stores bodies at committed heights: a synchronised block of
      the head's own height is accepted, and a consensus block whenever the stored
      height lags behind. A committed transaction then keeps resolving exactly if
      its block is at another height or the new body has it in the same place. */
  lemma StoredBodyKeepsLookup(hashOf: Header -> Hash, s: State, e: Event, x: Hash)
    requires LogStored(hashOf, s) && Stores(s, e) && x in s.addresses
    ensures s.addresses[x].blockHash in s.heights
    ensures
      var a, body := s.addresses[x], e.block.body;
      var f := FullTransaction(Step(hashOf, s, e), x);
      f.Found? && f.tx.hash == x <==>
      (s.heights[a.blockHash] == e.block.number ==> a.index < |body| && body[a.index].hash == x)
  {
    var a := s.addresses[x];
    assert PointsAt(hashOf, s.log, a, x);
    var i :| 0 <= i < |s.log| && hashOf(s.log[i].header) == a.blockHash
             && a.index < |s.log[i].body| && s.log[i].body[a.index].hash == x;
    assert BlockStored(hashOf, s, i);
  }

  /** A height that is committed and yet accepted: the head's, with a proof of the head. */
  lemma HeadCanBeReplaced(hashOf: Header -> Hash, s: State, b: Block)
    requires b.number == s.head.number != U64_MAX && b.proof.Proof? && ProofHeight(b.proof) == s.head.number
    ensures !Undisturbed(s, SyncArrives(b))
    ensures Get(Step(hashOf, s, SyncArrives(b)).bodies, s.head.number) == Some(b.body)
  {
  }

  // ---------------------------------------------------------------------
  // Progress: what is executed gets committed
  // ---------------------------------------------------------------------

  /** `t` has committed the result `r` of block `b` on top of what `s` had. */
  ghost predicate CommitsResult(s: State, t: State, r: Result, b: Block) {
    && t.head == Header(b.number, r.parent, b.proof, r.roots)
    && t.log == s.log + [Committed(t.head, b.body)]
    && (forall n :: n >= t.head.number ==> Get(t.blockMap, n) == Get(s.blockMap, n))
    && (forall n :: n in t.blockMap ==> n >= t.head.number)
  }

  /** A decided block that extends the head is stored when it comes and committed with its
      result, which keeps what is queued above. */
  lemma DecidedBlockCommits(hashOf: Header -> Hash, s: State, b: Block, r: Result)
    requires b.number == s.maxStoreHeight + 1 == s.head.number + 1 && b.parent == hashOf(s.head) && r.number == b.number
    ensures
      var s1 := Step(hashOf, s, ConsensusArrives(b));
      && Get(s1.bodies, b.number) == Some(b.body) && s1.maxStoreHeight == b.number
      && Get(s1.blockMap, b.number) == Some(ConsensusBlock(b))
      && CommitsResult(s1, Step(hashOf, s1, ResultArrives(r)), r, b)
  {
  }

  /** So does a synchronised block whose proof is for the head or the last stored height. */
  lemma SyncedBlockCommits(hashOf: Header -> Hash, s: State, b: Block, r: Result)
    requires b.number == s.head.number + 1 == r.number && b.number < U64_MAX && b.proof.Proof?
    requires b.proof.height < U64_MAX && (b.proof.height == s.head.number || b.proof.height == s.maxStoreHeight)
    ensures
      var s1 := Step(hashOf, s, SyncArrives(b));
      && Get(s1.bodies, b.number) == Some(b.body) && s1.maxStoreHeight == b.number
      && Get(s1.blockMap, b.number) == Some(SyncBlock(b, None))
      && CommitsResult(s1, Step(hashOf, s1, ResultArrives(r)), r, b)
  {
  }

  /** The proof of a synchronised block, or of a carrier of height 2^64 - 1, completes the
      queued block it is for, once. */
  lemma ProofCompletes(hashOf: Header -> Hash, s: State, c: Block)
    requires c.number >= s.head.number && c.proof.Proof? && c.proof.height < U64_MAX && c.proof.height != c.number
    requires c.proof.height in s.blockMap && s.blockMap[c.proof.height].SyncBlock?
    requires if c.number == U64_MAX then c.proof.height > s.head.number
             else c.proof.height == s.head.number || c.proof.height == s.maxStoreHeight
    ensures
      var h, t := c.proof.height, Step(hashOf, s, SyncArrives(c));
      var before := s.blockMap[h];
      Get(t.blockMap, h) == Some(SyncBlock(before.block, if before.proof.Some? then before.proof else Some(c.proof)))
  {
  }

  /** Blocks that do not connect are dropped: decided ones other than the next to be stored;
      synchronised ones below the head, without a proof, or with a proof for neither the
      head nor the last stored height. */
  lemma OtherBlocksAreDropped(hashOf: Header -> Hash, s: State, b: Block)
    ensures b.number != s.maxStoreHeight + 1 ==> Step(hashOf, s, ConsensusArrives(b)) == s
    ensures b.number < s.head.number || b.proof.NoProof? ==> Step(hashOf, s, SyncArrives(b)) == s
    ensures b.proof.Proof? && b.proof.height < 0xFFFF_FFFF_FFFF_FFFF && b.number < 0xFFFF_FFFF_FFFF_FFFF
            && b.proof.height != s.head.number && b.proof.height != s.maxStoreHeight ==>
              Step(hashOf, s, SyncArrives(b)) == s
  {
  }

  /** A result for the head, or for a height that is not queued, commits nothing. */
  lemma OtherResultsCommitNothing(hashOf: Header -> Hash, s: State, r: Result)
    requires r.number > 0 && (r.number == s.head.number || r.number !in s.blockMap)
    ensures
      var t := Step(hashOf, s, ResultArrives(r));
      t.head == s.head && t.log == s.log && t.bodies == s.bodies && t.addresses == s.addresses
  {
  }

  // ---------------------------------------------------------------------
  // The chain service
  // ---------------------------------------------------------------------

  class Chain {
    const hashOf: Header -> Hash
    var head: Header
    var maxStoreHeight: nat
    var blockMap: map<nat, Queued>
    var headers: map<nat, Header>
    var bodies: map<nat, Body>
    var heights: map<Hash, nat>
    var addresses: map<Hash, Address>
    ghost var log: seq<Committed>

    ghost function View(): State
      reads this
    {
      State(head, maxStoreHeight, blockMap, headers, bodies, heights, addresses, log)
    }

    constructor (hashOf: Header -> Hash, genesis: Header)
      ensures View() == Init(genesis) && this.hashOf == hashOf
    {
      this.hashOf := hashOf;
      head, maxStoreHeight, blockMap := genesis, 0, map[];
      headers, bodies, heights, addresses := map[], map[], map[], map[];
      log := [];
    }

    /** One address per transaction hash; where a hash occurs twice, the later one. */
    static method TransactionAddresses(blockHash: Hash, body: Body) returns (r: map<Hash, Address>)
      ensures r == Addresses(blockHash, body)
    {
      hide LastIndex;
      r := map[];
      for i := 0 to |body|
        invariant forall x :: x in r <==> HasTx(body[..i], x)
        invariant forall x :: x in r ==> r[x] == Address(blockHash, LastIndex(body[..i], x))
      {
        var x := body[i].hash;
        forall y
          ensures HasTx(body[..i + 1], y) <==> y == x || HasTx(body[..i], y)
          ensures HasTx(body[..i + 1], y) ==>
                    LastIndex(body[..i + 1], y) == if y == x then i else LastIndex(body[..i], y)
        {
          OneMore(body, i, y);
        }
        r := r[x := Address(blockHash, i)];
      }
      assert body[..|body|] == body;
      AddressesAre(blockHash, body, r);
    }

    method SetBlockBody(height: nat, b: Block)
      modifies `bodies, `maxStoreHeight
      ensures bodies == old(bodies)[height := b.body] && maxStoreHeight == height
    {
      bodies := bodies[height := b.body];
      maxStoreHeight := height;
    }

    method ConsensusBlockEnqueue(b: Block)
      modifies this
      ensures View() == Step(hashOf, old(View()), ConsensusArrives(b))
    {
      if b.number == maxStoreHeight + 1 {
        blockMap := blockMap[b.number := ConsensusBlock(b)];
        SetBlockBody(b.number, b);
      }
    }

    method AddSyncBlock(b: Block)
      modifies this
      ensures View() == Step(hashOf, old(View()), SyncArrives(b))
    {
      if b.number < head.number || b.proof.NoProof? {
        return;
      }
      var height := if b.proof.height == U64_MAX then 0 else b.proof.height;
      if b.number != U64_MAX {
        if height == head.number || height == maxStoreHeight {
          SetProof(height, b.proof);
          SetBlockBody(b.number, b);
          blockMap := blockMap[b.number := SyncBlock(b, None)];
        }
      } else if height > head.number {
        SetProof(height, b.proof);
      }
    }

    method SetProof(n: nat, proof: Proof)
      modifies `blockMap
      ensures blockMap == ProveQueued(old(blockMap), n, proof)
    {
      if n in blockMap && blockMap[n].SyncBlock? && blockMap[n].proof.None? {
        blockMap := blockMap[n := SyncBlock(blockMap[n].block, Some(proof))];
      }
    }

    method SetDbResult(r: Result, b: Block)
      modifies this
      ensures View() == CommitBlock(hashOf, old(View()), r, b)
    {
      var header := Header(r.number, r.parent, b.proof, r.roots);
      var hash := hashOf(header);
      var blockAddresses := TransactionAddresses(hash, b.body);
      addresses := addresses + blockAddresses;
      headers := headers[r.number := header];
      if maxStoreHeight < r.number {
        bodies := bodies[r.number := b.body];
      }
      heights := heights[hash := r.number];
      head := header;
      log := log + [Committed(header, b.body)];
    }

    method SetExecutedResult(r: Result)
      modifies this
      ensures View() == Step(hashOf, old(View()), ResultArrives(r))
    {
      if r.number == 0 {
        ghost var before := log;
        SetDbResult(r, Block(0, r.parent, NoProof, []));
        log := before;
      }
      if r.number == head.number {
        return;
      }
      if r.number in blockMap {
        match blockMap[r.number] {
          case ConsensusBlock(b) =>
            if b.number == head.number + 1 && b.parent == hashOf(head) {
              SetDbResult(r, b);
            }
          case SyncBlock(b, _) =>
            if r.number == head.number + 1 {
              SetDbResult(r, b);
            }
        }
      }
      blockMap := map n | n in blockMap && n >= head.number :: blockMap[n];
    }
  }
}
