/**
 Message calls and contract creations (cita-executor/core/src/executive.rs and
 externalities.rs), running over the journalled `State`.

 The interpreter is replaced by an arbitrary tree: a frame is a list of actions,
 some of which are nested calls and creations, and a way to end. The `...Meaning`
 functions give the effect of a tree on plain worlds, with no checkpoint in
 sight; the methods of `Executive` make, discard and revert checkpoints as the
 source does and are proved to have exactly that effect.
 */
module MessageCalls {
  import opened Basics
  import opened StateJournal

  datatype LogEntry = LogEntry(address: Address, topics: seq<Word>, data: Bytes)

  datatype Substate = Substate(suicides: set<Address>, garbage: set<Address>, logs: seq<LogEntry>, clears: nat,
                               created: seq<Address>)

  const EMPTY_SUBSTATE: Substate := Substate({}, {}, [], 0, [])

  /** `Substate::accrue`. */
  function Accrue(s: Substate, t: Substate): Substate {
    Substate(s.suicides + t.suicides, s.garbage + t.garbage, s.logs + t.logs, s.clears + t.clears, s.created + t.created)
  }

  datatype EvmError = OutOfGas | BadJumpDestination | BadInstruction | StackUnderflow | OutOfStack | Internal

  datatype EvmResult = Ok(gasLeft: nat) | Err(error: EvmError)

  /** How a frame ends: with known gas, with data to return, or with an error. */
  datatype Ending = Known(gas: nat) | NeedsReturn(gas: nat, data: Bytes) | Fails(error: EvmError)

  datatype Frame = Frame(actions: seq<Action>, ending: Ending)

  datatype Action =
    | Store(key: Word, value: Word)
    | Emit(topics: seq<Word>, data: Bytes)
    | Suicide
    | ClearSlot
    | CallOut(receiver: Address, gas: nat, callee: Callee)
    | CreateOut(init: Frame)

  /** What lives at a code address: a native contract, a builtin with its cost, code. */
  datatype Callee = Callee(native: Option<Frame>, builtin: Option<nat>, code: Option<Frame>)

  /** What stays fixed while a transaction runs. */
  datatype Env = Env(db: Backend, startNonce: nat, contractAddress: (Address, nat) -> Address)

  const NATIVE_COST: nat := 100
  const CREATE_DATA_GAS: nat := 200

  datatype Outcome = Outcome(world: World, sub: Substate, result: EvmResult)

  // ---------------------------------------------------------------------
  // Meaning of a tree on plain worlds
  // ---------------------------------------------------------------------

  function NonceOf(env: Env, w: World, a: Address): nat {
    if a in w then w[a].nonce else env.startNonce
  }

  /** A failed frame leaves no trace; a finished one, or an internal error, hands
      its world and its substate on. */
  function Enact(w: World, sub: Substate, out: Outcome): Outcome {
    if out.result.Ok? || out.result.error.Internal?
    then Outcome(out.world, Accrue(sub, out.sub), out.result)
    else Outcome(w, sub, out.result)
  }

  function ActionsMeaning(env: Env, self: Address, actions: seq<Action>, w: World, sub: Substate): (World, Substate)
    decreases actions
  {
    if actions == [] then (w, sub)
    else
      var (w1, sub1) := ActionMeaning(env, self, actions[0], w, sub);
      ActionsMeaning(env, self, actions[1..], w1, sub1)
  }

  function ActionMeaning(env: Env, self: Address, action: Action, w: World, sub: Substate): (World, Substate)
    decreases action
  {
    match action
    case Store(key, value) => (WithStorage(env.db, w, self, key, value, env.startNonce), sub)
    case Emit(topics, data) => (w, sub.(logs := sub.logs + [LogEntry(self, topics, data)]))
    case Suicide => (w, sub.(suicides := sub.suicides + {self}))
    case ClearSlot => (w, sub.(clears := sub.clears + 1))
    case CallOut(receiver, gas, callee) =>
      var out := CallMeaning(env, receiver, gas, callee, w, sub);
      (out.world, out.sub)
    case CreateOut(init) =>
      var address := env.contractAddress(self, NonceOf(env, w, self));
      var out := CreateMeaning(env, address, init, WithNonceIncremented(w, self, env.startNonce), sub);
      (out.world, if out.result.Ok? then out.sub.(created := out.sub.created + [address]) else out.sub)
  }

  /** A frame runs with a substate of its own. Returned data becomes the code of
      a created contract if the deposit can be paid. */
  function FrameMeaning(env: Env, self: Address, frame: Frame, creating: bool, w: World): (out: Outcome)
    ensures out.result.Ok? ==> !frame.ending.Fails? && out.result.gasLeft <= frame.ending.gas
    decreases frame, 0
  {
    var (w1, sub1) := ActionsMeaning(env, self, frame.actions, w, EMPTY_SUBSTATE);
    match frame.ending
    case Known(gas) => Outcome(w1, sub1, Ok(gas))
    case Fails(error) => Outcome(w1, sub1, Err(error))
    case NeedsReturn(gas, data) =>
      var cost := |data| * CREATE_DATA_GAS;
      if !creating || cost > gas then Outcome(w1, sub1, Ok(gas))
      else Outcome(WithCode(w1, self, data, env.startNonce), sub1, Ok(gas - cost))
  }

  function CallMeaning(env: Env, receiver: Address, gas: nat, callee: Callee, w: World, sub: Substate): Outcome
    decreases callee
  {
    if callee.native.Some? && NATIVE_COST <= gas then
      Enact(w, sub, FrameMeaning(env, receiver, callee.native.value, false, w))
    else if callee.builtin.Some? then
      Outcome(w, sub, if callee.builtin.value <= gas then Ok(gas - callee.builtin.value) else Err(OutOfGas))
    else if callee.code.Some? then
      Enact(w, sub, FrameMeaning(env, receiver, callee.code.value, false, w))
    else
      Outcome(w, sub, Ok(gas))
  }

  function CreateMeaning(env: Env, address: Address, init: Frame, w: World, sub: Substate): Outcome
    decreases init, 1
  {
    Enact(w, sub, FrameMeaning(env, address, init, true, w[address := ToPlain(NewBasic(env.startNonce))]))
  }

  // ---------------------------------------------------------------------
  // Contracts are created where there is no account with a storage trie
  // ---------------------------------------------------------------------

  ghost predicate FreshActions(env: Env, self: Address, actions: seq<Action>, w: World, sub: Substate)
    decreases actions
  {
    actions != [] ==>
      && FreshAction(env, self, actions[0], w, sub)
      && var (w1, sub1) := ActionMeaning(env, self, actions[0], w, sub);
         FreshActions(env, self, actions[1..], w1, sub1)
  }

  ghost predicate FreshAction(env: Env, self: Address, action: Action, w: World, sub: Substate)
    decreases action
  {
    match action
    case CallOut(receiver, gas, callee) => FreshCall(env, receiver, gas, callee, w)
    case CreateOut(init) =>
      FreshCreate(env, env.contractAddress(self, NonceOf(env, w, self)), init, WithNonceIncremented(w, self, env.startNonce))
    case _ => true
  }

  ghost predicate FreshCall(env: Env, receiver: Address, gas: nat, callee: Callee, w: World)
    decreases callee
  {
    if callee.native.Some? && NATIVE_COST <= gas then
      FreshActions(env, receiver, callee.native.value.actions, w, EMPTY_SUBSTATE)
    else if callee.builtin.None? && callee.code.Some? then
      FreshActions(env, receiver, callee.code.value.actions, w, EMPTY_SUBSTATE)
    else true
  }

  ghost predicate FreshCreate(env: Env, address: Address, init: Frame, w: World)
    decreases init
  {
    && (address in w ==> w[address].root == NULL_ROOT)
    && FreshActions(env, address, init.actions, w[address := ToPlain(NewBasic(env.startNonce))], EMPTY_SUBSTATE)
  }

  // ---------------------------------------------------------------------
  // What a tree hands to its caller
  // ---------------------------------------------------------------------

  /** A failed call or creation: everything but an internal error. */
  predicate Undone(result: EvmResult) {
    result.Err? && !result.error.Internal?
  }

  /** The logs, suicides, refunds and contracts of a list of actions: its own and
      those of the calls and creations in it that were not undone, in the order in
      which they finished. */
  function Yield(env: Env, self: Address, actions: seq<Action>, w: World): Substate
    decreases actions
  {
    if actions == [] then EMPTY_SUBSTATE
    else
      var w1 := ActionMeaning(env, self, actions[0], w, EMPTY_SUBSTATE).0;
      Accrue(ActionYield(env, self, actions[0], w), Yield(env, self, actions[1..], w1))
  }

  function ActionYield(env: Env, self: Address, action: Action, w: World): Substate
    decreases action
  {
    match action
    case Store(_, _) => EMPTY_SUBSTATE
    case Emit(topics, data) => EMPTY_SUBSTATE.(logs := [LogEntry(self, topics, data)])
    case Suicide => EMPTY_SUBSTATE.(suicides := {self})
    case ClearSlot => EMPTY_SUBSTATE.(clears := 1)
    case CallOut(receiver, gas, callee) =>
      if Undone(CallMeaning(env, receiver, gas, callee, w, EMPTY_SUBSTATE).result) then EMPTY_SUBSTATE
      else if callee.native.Some? && NATIVE_COST <= gas then Yield(env, receiver, callee.native.value.actions, w)
      else if callee.builtin.None? && callee.code.Some? then Yield(env, receiver, callee.code.value.actions, w)
      else EMPTY_SUBSTATE
    case CreateOut(init) =>
      var address := env.contractAddress(self, NonceOf(env, w, self));
      var w1 := WithNonceIncremented(w, self, env.startNonce);
      var result := CreateMeaning(env, address, init, w1, EMPTY_SUBSTATE).result;
      if Undone(result) then EMPTY_SUBSTATE
      else
        var inner := Yield(env, address, init.actions, w1[address := ToPlain(NewBasic(env.startNonce))]);
        if result.Ok? then inner.(created := inner.created + [address]) else inner
  }

  lemma AccrueLaws(r: Substate, s: Substate, t: Substate)
    ensures Accrue(r, Accrue(s, t)) == Accrue(Accrue(r, s), t)
    ensures Accrue(s, EMPTY_SUBSTATE) == s == Accrue(EMPTY_SUBSTATE, s)
  {
    assert r.logs + (s.logs + t.logs) == r.logs + s.logs + t.logs;
    assert r.created + (s.created + t.created) == r.created + s.created + t.created;
    assert s.logs + [] == s.logs == [] + s.logs && s.created + [] == s.created == [] + s.created;
  }

  /** What the caller has gathered influences neither the world nor the results,
      and it stays in place: a tree only appends its yield. */
  lemma {:induction false} ActionsAppendYield(env: Env, self: Address, actions: seq<Action>, w: World, sub: Substate)
    ensures ActionsMeaning(env, self, actions, w, sub).0 == ActionsMeaning(env, self, actions, w, EMPTY_SUBSTATE).0
    ensures ActionsMeaning(env, self, actions, w, sub).1 == Accrue(sub, Yield(env, self, actions, w))
    decreases actions
  {
    AccrueLaws(sub, sub, EMPTY_SUBSTATE);
    if actions != [] {
      var first, rest := actions[0], actions[1..];
      var (w1, sub1) := ActionMeaning(env, self, first, w, sub);
      var (w0, sub0) := ActionMeaning(env, self, first, w, EMPTY_SUBSTATE);
      ActionAppendsYield(env, self, first, w, sub);
      ActionsAppendYield(env, self, rest, w1, sub1);
      ActionsAppendYield(env, self, rest, w1, sub0);
      AccrueLaws(sub, ActionYield(env, self, first, w), Yield(env, self, rest, w1));
    }
  }

  lemma {:induction false} ActionAppendsYield(env: Env, self: Address, action: Action, w: World, sub: Substate)
    ensures ActionMeaning(env, self, action, w, sub).0 == ActionMeaning(env, self, action, w, EMPTY_SUBSTATE).0
    ensures ActionMeaning(env, self, action, w, sub).1 == Accrue(sub, ActionYield(env, self, action, w))
    decreases action
  {
    AccrueLaws(sub, sub, sub);
    match action
    case CallOut(receiver, gas, callee) =>
      CallAppendsYield(env, self, receiver, gas, callee, w, sub);
    case CreateOut(init) =>
      CreateAppendsYield(env, self, init, w, sub);
    case _ =>
  }

  lemma {:induction false} CallAppendsYield(env: Env, self: Address, receiver: Address, gas: nat, callee: Callee,
                                            w: World, sub: Substate)
    ensures
      var out := CallMeaning(env, receiver, gas, callee, w, sub);
      var out0 := CallMeaning(env, receiver, gas, callee, w, EMPTY_SUBSTATE);
      && out.world == out0.world
      && out.sub == Accrue(sub, ActionYield(env, self, CallOut(receiver, gas, callee), w))
    decreases callee
  {
    AccrueLaws(sub, sub, sub);
    if callee.native.Some? && NATIVE_COST <= gas {
      FrameYields(env, receiver, callee.native.value, false, w);
    } else if callee.builtin.None? && callee.code.Some? {
      FrameYields(env, receiver, callee.code.value, false, w);
    }
  }

  lemma {:induction false} CreateAppendsYield(env: Env, self: Address, init: Frame, w: World, sub: Substate)
    ensures
      var (w1, sub1) := ActionMeaning(env, self, CreateOut(init), w, sub);
      && w1 == ActionMeaning(env, self, CreateOut(init), w, EMPTY_SUBSTATE).0
      && sub1 == Accrue(sub, ActionYield(env, self, CreateOut(init), w))
    decreases init, 1
  {
    var address := env.contractAddress(self, NonceOf(env, w, self));
    var w1 := WithNonceIncremented(w, self, env.startNonce);
    var w2 := w1[address := ToPlain(NewBasic(env.startNonce))];
    var inner := Yield(env, address, init.actions, w2);
    FrameYields(env, address, init, true, w2);
    var out := CreateMeaning(env, address, init, w1, sub);
    assert out.sub == if Undone(out.result) then sub else Accrue(sub, inner);
    AccrueLaws(sub, sub, sub);
    assert sub.created + inner.created + [address] == sub.created + (inner.created + [address]);
  }

  lemma {:induction false} FrameYields(env: Env, self: Address, frame: Frame, creating: bool, w: World)
    ensures FrameMeaning(env, self, frame, creating, w).sub == Yield(env, self, frame.actions, w)
    decreases frame, 0
  {
    assert FrameMeaning(env, self, frame, creating, w).sub == ActionsMeaning(env, self, frame.actions, w, EMPTY_SUBSTATE).1;
    ActionsAppendYield(env, self, frame.actions, w, EMPTY_SUBSTATE);
    AccrueLaws(EMPTY_SUBSTATE, Yield(env, self, frame.actions, w), EMPTY_SUBSTATE);
  }

  // ---------------------------------------------------------------------
  // What a tree does to the world
  // ---------------------------------------------------------------------

  /** A write by a frame is read back at its slot of its account; no other slot, nonce or
      code changes for any reader. */
  lemma StoreEffect(env: Env, self: Address, key: Word, value: Word, w: World, sub: Substate)
    requires EmptyNullTrie(env.db)
    ensures
      var (w', sub') := ActionMeaning(env, self, Store(key, value), w, sub);
      && sub' == sub
      && SlotAt(env.db, w', self, key) == value
      && (forall k :: k != key ==> SlotAt(env.db, w', self, k) == SlotAt(env.db, w, self, k))
      && NonceOf(env, w', self) == NonceOf(env, w, self) && CodeAt(w', self) == CodeAt(w, self)
      && (forall b :: b != self ==> Get(w', b) == Get(w, b))
  {
    StorageLaws(env.db, w, self, key, value, env.startNonce);
  }

  /** Logs, suicides and cleared slots are gathered and leave the world alone. */
  lemma GatheringEffects(env: Env, self: Address, topics: seq<Word>, data: Bytes, w: World, sub: Substate)
    ensures
      var (w', sub') := ActionMeaning(env, self, Emit(topics, data), w, sub);
      && w' == w && |sub'.logs| == |sub.logs| + 1 && sub'.logs[..|sub.logs|] == sub.logs
      && sub'.logs[|sub.logs|] == LogEntry(self, topics, data) && sub'.(logs := []) == sub.(logs := [])
    ensures
      var (w', sub') := ActionMeaning(env, self, Suicide, w, sub);
      && w' == w && (forall a :: a in sub'.suicides <==> a == self || a in sub.suicides)
      && sub'.(suicides := {}) == sub.(suicides := {})
    ensures
      var (w', sub') := ActionMeaning(env, self, ClearSlot, w, sub);
      w' == w && sub'.clears == sub.clears + 1 && sub'.(clears := 0) == sub.(clears := 0)
  {
  }

  /** The gas and the result of a call. */
  lemma CallGas(env: Env, receiver: Address, gas: nat, callee: Callee, w: World, sub: Substate)
    ensures
      var out := CallMeaning(env, receiver, gas, callee, w, sub);
      var native := callee.native.Some? && gas >= 100;
      && (!native && callee.builtin.Some? ==>
            out.world == w && out.sub == sub
            && (out.result.Ok? <==> callee.builtin.value <= gas)
            && (out.result.Ok? ==> out.result.gasLeft + callee.builtin.value == gas)
            && (out.result.Err? ==> out.result.error == OutOfGas))
      && (!native && callee.builtin.None? && callee.code.None? ==> out == Outcome(w, sub, Ok(gas)))
      && (native ==> EndsAs(callee.native.value.ending, out.result))
      && (!native && callee.builtin.None? && callee.code.Some? ==> EndsAs(callee.code.value.ending, out.result))
  {
  }

  /** The result of a frame that is called is how it ended. */
  predicate EndsAs(ending: Ending, result: EvmResult) {
    match ending
    case Known(gas) => result == Ok(gas)
    case NeedsReturn(gas, _) => result == Ok(gas)
    case Fails(error) => result == Err(error)
  }

  /** A call that was undone leaves world and substate as they were; any other has the
      world that the callee's actions make of the caller's. */
  lemma CallWorld(env: Env, receiver: Address, gas: nat, callee: Callee, w: World, sub: Substate)
    ensures
      var out := CallMeaning(env, receiver, gas, callee, w, sub);
      && (Undone(out.result) ==> out.world == w && out.sub == sub)
      && (!Undone(out.result) && callee.native.Some? && gas >= 100 ==>
            out.world == ActionsMeaning(env, receiver, callee.native.value.actions, w, EMPTY_SUBSTATE).0)
      && (!Undone(out.result) && !(callee.native.Some? && gas >= 100) && callee.builtin.None? && callee.code.Some? ==>
            out.world == ActionsMeaning(env, receiver, callee.code.value.actions, w, EMPTY_SUBSTATE).0)
  {
  }

  /** The world in which the frame of a creation ends, before its code is deposited. */
  function InitWorld(env: Env, address: Address, init: Frame, w: World): World {
    ActionsMeaning(env, address, init.actions, w[address := ToPlain(NewBasic(env.startNonce))], EMPTY_SUBSTATE).0
  }

  /** A creation runs its frame over an empty contract. If that returns data and 200 gas
      per byte can be paid, the data is the code at the new address; if they cannot, nothing
      is deposited and no gas is taken; an error other than an internal one undoes it all. */
  lemma CreationOutcome(env: Env, address: Address, init: Frame, w: World, sub: Substate)
    ensures
      var out, made := CreateMeaning(env, address, init, w, sub), InitWorld(env, address, init, w);
      match init.ending
      case Fails(error) =>
        out.result == Err(error) && out.world == (if error.Internal? then made else w)
      case Known(gas) =>
        out.result == Ok(gas) && out.world == made
      case NeedsReturn(gas, data) =>
        if gas < 200 * |data| then out.result == Ok(gas) && out.world == made
        else
          && out.result == Ok(gas - 200 * |data|)
          && CodeAt(out.world, address) == data
          && NonceOf(env, out.world, address) == NonceOf(env, made, address)
          && (forall b :: b != address ==> Get(out.world, b) == Get(made, b))
  {
  }

  /** The accounts whose frames act, in calls and creations that were not undone. */
  function Actors(env: Env, self: Address, actions: seq<Action>, w: World): set<Address>
    decreases actions
  {
    if actions == [] then {}
    else
      var w1 := ActionMeaning(env, self, actions[0], w, EMPTY_SUBSTATE).0;
      ActionActors(env, self, actions[0], w) + Actors(env, self, actions[1..], w1)
  }

  function ActionActors(env: Env, self: Address, action: Action, w: World): set<Address>
    decreases action
  {
    match action
    case Store(_, _) => {self}
    case CallOut(receiver, gas, callee) =>
      if Undone(CallMeaning(env, receiver, gas, callee, w, EMPTY_SUBSTATE).result) then {}
      else if callee.native.Some? && NATIVE_COST <= gas then Actors(env, receiver, callee.native.value.actions, w)
      else if callee.builtin.None? && callee.code.Some? then Actors(env, receiver, callee.code.value.actions, w)
      else {}
    case CreateOut(init) =>
      var address := env.contractAddress(self, NonceOf(env, w, self));
      var w1 := WithNonceIncremented(w, self, env.startNonce);
      if Undone(CreateMeaning(env, address, init, w1, EMPTY_SUBSTATE).result) then {self}
      else
        {self, address} + Actors(env, address, init.actions, w1[address := ToPlain(NewBasic(env.startNonce))])
    case _ => {}
  }

  /** A tree changes only the accounts whose frames act in it: those that write or create
      and were not undone, and the contracts created. */
  lemma {:induction false} ActionsTouchActors(env: Env, self: Address, actions: seq<Action>, w: World, a: Address)
    requires a !in Actors(env, self, actions, w)
    ensures Get(ActionsMeaning(env, self, actions, w, EMPTY_SUBSTATE).0, a) == Get(w, a)
    decreases actions
  {
    if actions != [] {
      var (w1, sub1) := ActionMeaning(env, self, actions[0], w, EMPTY_SUBSTATE);
      ActionTouchesActors(env, self, actions[0], w, a);
      ActionsAppendYield(env, self, actions[1..], w1, sub1);
      ActionsTouchActors(env, self, actions[1..], w1, a);
    }
  }

  lemma {:induction false} ActionTouchesActors(env: Env, self: Address, action: Action, w: World, a: Address)
    requires a !in ActionActors(env, self, action, w)
    ensures Get(ActionMeaning(env, self, action, w, EMPTY_SUBSTATE).0, a) == Get(w, a)
    decreases action
  {
    match action
    case CallOut(receiver, gas, callee) =>
      CallTouchesActors(env, self, receiver, gas, callee, w, a);
    case CreateOut(init) =>
      CreateTouchesActors(env, self, init, w, a);
    case _ =>
  }

  lemma {:induction false} CallTouchesActors(env: Env, self: Address, receiver: Address, gas: nat, callee: Callee,
                                             w: World, a: Address)
    requires a !in ActionActors(env, self, CallOut(receiver, gas, callee), w)
    ensures Get(CallMeaning(env, receiver, gas, callee, w, EMPTY_SUBSTATE).world, a) == Get(w, a)
    decreases callee
  {
    CallWorld(env, receiver, gas, callee, w, EMPTY_SUBSTATE);
    if !Undone(CallMeaning(env, receiver, gas, callee, w, EMPTY_SUBSTATE).result) {
      if callee.native.Some? && NATIVE_COST <= gas {
        ActionsTouchActors(env, receiver, callee.native.value.actions, w, a);
      } else if callee.builtin.None? && callee.code.Some? {
        ActionsTouchActors(env, receiver, callee.code.value.actions, w, a);
      }
    }
  }

  lemma {:induction false} CreateTouchesActors(env: Env, self: Address, init: Frame, w: World, a: Address)
    requires a !in ActionActors(env, self, CreateOut(init), w)
    ensures Get(ActionMeaning(env, self, CreateOut(init), w, EMPTY_SUBSTATE).0, a) == Get(w, a)
    decreases init
  {
    var address := env.contractAddress(self, NonceOf(env, w, self));
    var w1 := WithNonceIncremented(w, self, env.startNonce);
    var out := CreateMeaning(env, address, init, w1, EMPTY_SUBSTATE);
    CreationOutcome(env, address, init, w1, EMPTY_SUBSTATE);
    if !Undone(out.result) {
      ActionsTouchActors(env, address, init.actions, w1[address := ToPlain(NewBasic(env.startNonce))], a);
    }
  }

  /** The frame of a creation does not make its creator act. */
  predicate CreatorRests(env: Env, self: Address, address: Address, init: Frame, w: World) {
    self != address && self !in Actors(env, address, init.actions, w[address := ToPlain(NewBasic(env.startNonce))])
  }

  /** A creation raises its creator's nonce by one, also when it is undone, unless the new
      contract's own frame makes the creator act; the address comes from the nonce before. */
  lemma CreatorNonce(env: Env, self: Address, init: Frame, w: World, sub: Substate)
    ensures
      var address := env.contractAddress(self, NonceOf(env, w, self));
      var w1 := WithNonceIncremented(w, self, env.startNonce);
      var (w', sub') := ActionMeaning(env, self, CreateOut(init), w, sub);
      var out := CreateMeaning(env, address, init, w1, sub);
      && w' == out.world
      && (out.result.Ok? ==> sub'.created == out.sub.created + [address])
      && (!out.result.Ok? ==> sub' == out.sub)
      && (Undone(out.result) || CreatorRests(env, self, address, init, w1) ==>
            NonceOf(env, w', self) == NonceOf(env, w, self) + 1)
  {
    var address := env.contractAddress(self, NonceOf(env, w, self));
    var w1 := WithNonceIncremented(w, self, env.startNonce);
    var w2 := w1[address := ToPlain(NewBasic(env.startNonce))];
    CreationOutcome(env, address, init, w1, sub);
    if CreatorRests(env, self, address, init, w1) {
      ActionsTouchActors(env, address, init.actions, w2, self);
    }
  }

  // ---------------------------------------------------------------------
  // The executive
  // ---------------------------------------------------------------------

  class Executive {
    const state: State
    const env: Env

    constructor (state: State, contractAddress: (Address, nat) -> Address)
      ensures this.state == state && env == Env(state.db, state.startNonce, contractAddress)
    {
      this.state := state;
      this.env := Env(state.db, state.startNonce, contractAddress);
    }

    /** The executive and its state look at the same databases. */
    ghost predicate Ready()
      reads state
    {
      state.Valid() && env.db == state.db && env.startNonce == state.startNonce
    }

    /** Ends a frame: an error undoes it, anything else merges its checkpoint and substate. */
    method EnactResult(result: EvmResult, sub: Substate, unconfirmed: Substate) returns (sub': Substate)
      requires Ready() && state.saved != []
      modifies state
      ensures Ready() && state.saved == old(state.saved)[..|old(state.saved)| - 1]
      ensures Outcome(state.world, sub', result)
              == Enact(old(state.saved)[|old(state.saved)| - 1], sub, Outcome(old(state.world), unconfirmed, result))
    {
      match result {
        case Err(error) =>
          if error.Internal? {
            state.DiscardCheckpoint();
            sub' := Accrue(sub, unconfirmed);
          } else {
            state.RevertToCheckpoint();
            sub' := sub;
          }
        case Ok(_) =>
          state.DiscardCheckpoint();
          sub' := Accrue(sub, unconfirmed);
      }
    }

    method RunActions(self: Address, actions: seq<Action>, sub: Substate) returns (sub': Substate)
      requires Ready() && FreshActions(env, self, actions, state.world, sub)
      modifies state
      ensures Ready() && state.saved == old(state.saved)
      ensures (state.world, sub') == ActionsMeaning(env, self, actions, old(state.world), sub)
      decreases actions
    {
      sub' := sub;
      if actions != [] {
        sub' := RunAction(self, actions[0], sub');
        sub' := RunActions(self, actions[1..], sub');
      }
    }

    /** `Externalities`: what the interpreter may ask for. */
    method RunAction(self: Address, action: Action, sub: Substate) returns (sub': Substate)
      requires Ready() && FreshAction(env, self, action, state.world, sub)
      modifies state
      ensures Ready() && state.saved == old(state.saved)
      ensures (state.world, sub') == ActionMeaning(env, self, action, old(state.world), sub)
      decreases action
    {
      match action {
        case Store(key, value) =>
          state.SetStorage(self, key, value);
          sub' := sub;
        case Emit(topics, data) =>
          sub' := sub.(logs := sub.logs + [LogEntry(self, topics, data)]);
        case Suicide =>
          sub' := sub.(suicides := sub.suicides + {self});
        case ClearSlot =>
          sub' := sub.(clears := sub.clears + 1);
        case CallOut(receiver, gas, callee) =>
          var result;
          sub', result := Call(receiver, gas, callee, sub);
        case CreateOut(init) =>
          var nonce := state.Nonce(self);
          var address := env.contractAddress(self, nonce);
          state.IncNonce(self);
          var result;
          sub', result := Create(address, init, sub);
          if result.Ok? {
            sub' := sub'.(created := sub'.created + [address]);
          }
      }
    }

    /** Runs a frame with a substate of its own and ends it. */
    method ExecVm(self: Address, frame: Frame, creating: bool) returns (sub: Substate, result: EvmResult)
      requires Ready() && FreshActions(env, self, frame.actions, state.world, EMPTY_SUBSTATE)
      modifies state
      ensures Ready() && state.saved == old(state.saved)
      ensures Outcome(state.world, sub, result) == FrameMeaning(env, self, frame, creating, old(state.world))
      decreases frame, 0
    {
      sub := RunActions(self, frame.actions, EMPTY_SUBSTATE);
      match frame.ending {
        case Known(gas) => result := Ok(gas);
        case Fails(error) => result := Err(error);
        case NeedsReturn(gas, data) =>
          var cost := |data| * CREATE_DATA_GAS;
          if !creating || cost > gas {
            result := Ok(gas);
          } else {
            state.InitCode(self, data);
            result := Ok(gas - cost);
          }
      }
    }

    method Call(receiver: Address, gas: nat, callee: Callee, sub: Substate) returns (sub': Substate, result: EvmResult)
      requires Ready() && FreshCall(env, receiver, gas, callee, state.world)
      modifies state
      ensures Ready() && state.saved == old(state.saved)
      ensures Outcome(state.world, sub', result) == CallMeaning(env, receiver, gas, callee, old(state.world), sub)
      decreases callee
    {
      state.Checkpoint();
      if callee.native.Some? && NATIVE_COST <= gas {
        var unconfirmed;
        unconfirmed, result := ExecVm(receiver, callee.native.value, false);
        sub' := EnactResult(result, sub, unconfirmed);
        return;
      }
      sub' := sub;
      if callee.builtin.Some? {
        var cost := callee.builtin.value;
        if cost <= gas {
          state.DiscardCheckpoint();
          result := Ok(gas - cost);
        } else {
          state.RevertToCheckpoint();
          result := Err(OutOfGas);
        }
      } else if callee.code.Some? {
        var unconfirmed;
        unconfirmed, result := ExecVm(receiver, callee.code.value, false);
        sub' := EnactResult(result, sub, unconfirmed);
      } else {
        state.DiscardCheckpoint();
        result := Ok(gas);
      }
    }

    method Create(address: Address, init: Frame, sub: Substate) returns (sub': Substate, result: EvmResult)
      requires Ready() && FreshCreate(env, address, init, state.world)
      modifies state
      ensures Ready() && state.saved == old(state.saved)
      ensures Outcome(state.world, sub', result) == CreateMeaning(env, address, init, old(state.world), sub)
      decreases init, 1
    {
      state.Checkpoint();
      state.NewContract(address, 0);
      var unconfirmed;
      unconfirmed, result := ExecVm(address, init, true);
      sub' := EnactResult(result, sub, unconfirmed);
    }
  }
}
