/**
 Whole transactions: admission, execution, gas and refunds
 (cita-executor/core/src/executive.rs, `transact_with_tracer` and `finalize`).
 */
module Transactions {
  import opened Basics
  import opened StateJournal
  import opened MessageCalls

  datatype TxAction = StoreTx | CreateTx(init: Frame) | CallTx(to: Address, callee: Callee)

  datatype Transaction = Transaction(sender: Address, action: TxAction, gas: nat)

  /** Permissions and the address that is exempt from all checks. */
  datatype Rules = Rules(env: Env, zero: Address, senders: set<Address>, creators: set<Address>,
                         checkPermission: bool, checkQuota: bool)

  datatype EnvInfo = EnvInfo(gasUsed: nat, gasLimit: nat, accountGasLimit: int)

  datatype ExecutionError =
    | NoContractPermission | NoTransactionPermission | NotEnoughBaseGas
    | BlockGasLimitReached | AccountGasLimitReached | InternalError

  datatype Executed = Executed(exception: Option<EvmError>, gas: nat, gasUsed: nat, refunded: nat, cumulativeGasUsed: nat,
                               logs: seq<LogEntry>, created: seq<Address>)

  datatype TxResult = Done(executed: Executed) | Refused(error: ExecutionError)

  const BASE_GAS: nat := 100
  const SSTORE_REFUND_GAS: nat := 15_000
  const SUICIDE_REFUND_GAS: nat := 24_000

  // ---------------------------------------------------------------------
  // One transaction
  // ---------------------------------------------------------------------

  /** The checks before execution, in the order of the source. */
  function Refusal(rules: Rules, info: EnvInfo, t: Transaction): Option<ExecutionError> {
    var exempt := t.sender == rules.zero;
    if exempt then None
    else if rules.checkPermission && t.action.CreateTx? && t.sender !in rules.creators then Some(NoContractPermission)
    else if rules.checkPermission && !t.action.CreateTx? && t.sender !in rules.senders && t.sender !in rules.creators then
      Some(NoTransactionPermission)
    else if !t.action.StoreTx? && t.gas < BASE_GAS then Some(NotEnoughBaseGas)
    else if rules.checkQuota && info.gasUsed + t.gas > info.gasLimit then Some(BlockGasLimitReached)
    else if rules.checkQuota && t.gas > info.accountGasLimit then Some(AccountGasLimitReached)
    else None
  }

  /** The exempt sender must still be able to pay the base gas: the source
      subtracts it unchecked. */
  predicate CanPayBase(rules: Rules, t: Transaction) {
    t.sender == rules.zero && !t.action.StoreTx? ==> t.gas >= BASE_GAS
  }

  /** No frame leaves more gas than it was given: a duty of the interpreter. */
  predicate Metered(frame: Option<Frame>, gas: nat) {
    frame.None? || frame.value.ending.Fails? || frame.value.ending.gas <= gas
  }

  predicate WellMetered(t: Transaction) {
    t.action.StoreTx? || t.gas < BASE_GAS ||
    match t.action
    case CreateTx(init) => Metered(Some(init), t.gas - BASE_GAS)
    case CallTx(_, callee) => Metered(callee.native, t.gas - BASE_GAS) && Metered(callee.code, t.gas - BASE_GAS)
  }

  /** A transaction that can be run at all. */
  predicate Runnable(rules: Rules, t: Transaction) {
    CanPayBase(rules, t) && WellMetered(t)
  }

  /** Executes an admitted transaction; `nonce` is the sender's nonce before it
      was incremented. */
  function Execution(rules: Rules, t: Transaction, nonce: nat, w: World): (out: Outcome)
    requires t.action.StoreTx? || t.gas >= BASE_GAS
    requires WellMetered(t)
    ensures out.result.Ok? ==> out.result.gasLeft <= if t.action.StoreTx? then t.gas else t.gas - BASE_GAS
  {
    match t.action
    case StoreTx => Outcome(w, EMPTY_SUBSTATE, Ok(t.gas))
    case CreateTx(init) =>
      CreateMeaning(rules.env, rules.env.contractAddress(t.sender, nonce), init, w, EMPTY_SUBSTATE)
    case CallTx(to, callee) =>
      CallMeaning(rules.env, to, t.gas - BASE_GAS, callee, w, EMPTY_SUBSTATE)
  }

  function GasLeftBeforeRefund(result: EvmResult): nat {
    if result.Ok? then result.gasLeft else 0
  }

  function Refund(t: Transaction, sub: Substate, result: EvmResult): nat
    requires GasLeftBeforeRefund(result) <= t.gas
  {
    var bound := SSTORE_REFUND_GAS * sub.clears + SUICIDE_REFUND_GAS * |sub.suicides|;
    var half := (t.gas - GasLeftBeforeRefund(result)) / 2;
    if bound <= half then bound else half
  }

  /** Accounts tagged for garbage collection that have neither nonce nor code. */
  function Null(w: World, garbage: set<Address>): set<Address> {
    set a | a in garbage && a in w && w[a].nonce == 0 && w[a].code == []
  }

  /** Accounts that die with the transaction. */
  function Dead(w: World, sub: Substate): set<Address> {
    sub.suicides + Null(w, sub.garbage)
  }

  function Report(t: Transaction, info: EnvInfo, sub: Substate, result: EvmResult): TxResult
    requires GasLeftBeforeRefund(result) <= t.gas
  {
    match result
    case Err(error) =>
      if error.Internal? then Refused(InternalError)
      else Done(Executed(Some(error), t.gas, t.gas, 0, info.gasUsed + t.gas, [], []))
    case Ok(left) =>
      var refunded := Refund(t, sub, result);
      var gasUsed := t.gas - (left + refunded);
      Done(Executed(None, t.gas, gasUsed, refunded, info.gasUsed + gasUsed, sub.logs, sub.created))
  }

  /** World and result of a transaction. The nonce goes up even when it is refused. */
  function TransactMeaning(rules: Rules, info: EnvInfo, t: Transaction, w: World): (World, TxResult)
    requires Runnable(rules, t)
  {
    var w1 := WithNonceIncremented(w, t.sender, rules.env.startNonce);
    match Refusal(rules, info, t)
    case Some(error) => (w1, Refused(error))
    case None =>
      var out := Execution(rules, t, NonceOf(rules.env, w, t.sender), w1);
      (out.world - Dead(out.world, out.sub), Report(t, info, out.sub, out.result))
  }

  /** A transaction that ends in an exception changes nothing but its sender's
      nonce, kills nobody, leaves no logs and no contracts, and costs all its gas. */
  lemma FailedTransactionLeavesNoTrace(rules: Rules, info: EnvInfo, t: Transaction, w: World)
    requires Runnable(rules, t)
    ensures
      var (w', result) := TransactMeaning(rules, info, t, w);
      result.Done? && result.executed.exception.Some? ==>
        && w' == WithNonceIncremented(w, t.sender, rules.env.startNonce)
        && result.executed.gasUsed == t.gas
        && result.executed.refunded == 0
        && result.executed.logs == []
        && result.executed.created == []
  {
    var w1 := WithNonceIncremented(w, t.sender, rules.env.startNonce);
    if Refusal(rules, info, t).None? {
      var out := Execution(rules, t, NonceOf(rules.env, w, t.sender), w1);
      if out.result.Err? && !out.result.error.Internal? {
        assert Dead(out.world, out.sub) == {};
        assert w1 - {} == w1;
      }
    }
  }

  /** Gas of a transaction: what is used, refunded and left adds up, at most half
      of the gas spent is given back, and an admitted sender stays within quota. */
  lemma GasIsConserved(rules: Rules, info: EnvInfo, t: Transaction, w: World)
    requires Runnable(rules, t)
    ensures
      var w1 := WithNonceIncremented(w, t.sender, rules.env.startNonce);
      var (w', result) := TransactMeaning(rules, info, t, w);
      result.Done? ==>
        var e := result.executed;
        var left := GasLeftBeforeRefund(Execution(rules, t, NonceOf(rules.env, w, t.sender), w1).result);
        && e.gasUsed + e.refunded == t.gas - left
        && 2 * e.refunded <= t.gas - left
        && e.cumulativeGasUsed == info.gasUsed + e.gasUsed
        && (e.exception.None? && !t.action.StoreTx? ==> 2 * e.gasUsed >= BASE_GAS)
        && (rules.checkQuota && t.sender != rules.zero ==>
              e.cumulativeGasUsed <= info.gasLimit && e.gasUsed <= info.accountGasLimit)
  {
  }

  // ---------------------------------------------------------------------
  // What a transaction amounts to
  // ---------------------------------------------------------------------

  /** A sender is admitted if it is the zero address, or may send or create, offers the base
      gas, and its gas fits the block and its own quota. */
  lemma AdmittedIff(rules: Rules, info: EnvInfo, t: Transaction)
    ensures Refusal(rules, info, t).None? <==>
            || t.sender == rules.zero
            || (&& (rules.checkPermission ==> MaySend(rules, t))
                && (t.action.StoreTx? || t.gas >= 100)
                && (rules.checkQuota ==> info.gasUsed + t.gas <= info.gasLimit && t.gas <= info.accountGasLimit))
  {
  }

  predicate MaySend(rules: Rules, t: Transaction) {
    t.sender in rules.creators || (!t.action.CreateTx? && t.sender in rules.senders)
  }

  /** The reason given is the first that applies: permission, base gas, block, account. */
  lemma RefusalTellsWhy(rules: Rules, info: EnvInfo, t: Transaction)
    requires Refusal(rules, info, t).Some?
    ensures
      var permitted := !rules.checkPermission || MaySend(rules, t);
      var paysBase := t.action.StoreTx? || t.gas >= 100;
      match Refusal(rules, info, t).value
      case NoContractPermission => !permitted && t.action.CreateTx?
      case NoTransactionPermission => !permitted && !t.action.CreateTx?
      case NotEnoughBaseGas => permitted && !paysBase
      case BlockGasLimitReached => permitted && paysBase && rules.checkQuota && info.gasUsed + t.gas > info.gasLimit
      case AccountGasLimitReached =>
        permitted && paysBase && rules.checkQuota && info.gasUsed + t.gas <= info.gasLimit && t.gas > info.accountGasLimit
      case InternalError => false
  {
  }

  /** A refused transaction only raises its sender's nonce. */
  lemma RefusedChangesNonceOnly(rules: Rules, info: EnvInfo, t: Transaction, w: World)
    requires Runnable(rules, t) && Refusal(rules, info, t).Some? && EmptyNullTrie(rules.env.db)
    ensures
      var (w', result) := TransactMeaning(rules, info, t, w);
      && result == Refused(Refusal(rules, info, t).value)
      && NonceOf(rules.env, w', t.sender) == NonceOf(rules.env, w, t.sender) + 1
      && CodeAt(w', t.sender) == CodeAt(w, t.sender)
      && (forall k :: SlotAt(rules.env.db, w', t.sender, k) == SlotAt(rules.env.db, w, t.sender, k))
      && (forall a :: a != t.sender ==> Get(w', a) == Get(w, a))
  {
    NonceLaws(rules.env.db, w, t.sender, rules.env.startNonce);
  }

  /** What the tree of a transaction yields, if it is not undone. */
  function TreeYield(rules: Rules, t: Transaction, nonce: nat, w: World): Substate {
    match t.action
    case StoreTx => EMPTY_SUBSTATE
    case CreateTx(init) =>
      var address := rules.env.contractAddress(t.sender, nonce);
      Yield(rules.env, address, init.actions, w[address := ToPlain(NewBasic(rules.env.startNonce))])
    case CallTx(to, callee) =>
      if callee.native.Some? && t.gas >= BASE_GAS + NATIVE_COST then Yield(rules.env, to, callee.native.value.actions, w)
      else if callee.builtin.None? && callee.code.Some? then Yield(rules.env, to, callee.code.value.actions, w)
      else EMPTY_SUBSTATE
  }

  lemma CallYields(env: Env, self: Address, to: Address, gas: nat, callee: Callee, w: World)
    ensures CallMeaning(env, to, gas, callee, w, EMPTY_SUBSTATE).sub == ActionYield(env, self, CallOut(to, gas, callee), w)
  {
    CallAppendsYield(env, self, to, gas, callee, w, EMPTY_SUBSTATE);
    hide CallMeaning, ActionYield;
    AccrueLaws(EMPTY_SUBSTATE, ActionYield(env, self, CallOut(to, gas, callee), w), EMPTY_SUBSTATE);
  }

  lemma CreateYields(env: Env, address: Address, init: Frame, w: World)
    ensures
      var out := CreateMeaning(env, address, init, w, EMPTY_SUBSTATE);
      out.sub == if Undone(out.result) then EMPTY_SUBSTATE
                 else Yield(env, address, init.actions, w[address := ToPlain(NewBasic(env.startNonce))])
  {
    var w1 := w[address := ToPlain(NewBasic(env.startNonce))];
    FrameYields(env, address, init, true, w1);
    hide FrameMeaning, Yield;
    AccrueLaws(EMPTY_SUBSTATE, Yield(env, address, init.actions, w1), EMPTY_SUBSTATE);
  }

  lemma ExecutionYields(rules: Rules, t: Transaction, nonce: nat, w: World)
    requires (t.action.StoreTx? || t.gas >= BASE_GAS) && WellMetered(t)
    ensures
      var out := Execution(rules, t, nonce, w);
      out.sub == if Undone(out.result) then EMPTY_SUBSTATE else TreeYield(rules, t, nonce, w)
  {
    hide CallMeaning, CreateMeaning, Yield;
    match t.action
    case StoreTx =>
    case CreateTx(init) => CreateYields(rules.env, rules.env.contractAddress(t.sender, nonce), init, w);
    case CallTx(to, callee) => CallYields(rules.env, t.sender, to, t.gas - BASE_GAS, callee, w);
  }

  lemma {:induction false} NoGarbage(env: Env, self: Address, actions: seq<Action>, w: World)
    ensures Yield(env, self, actions, w).garbage == {}
    decreases actions
  {
    if actions != [] {
      NoGarbageOfAction(env, self, actions[0], w);
      NoGarbage(env, self, actions[1..], ActionMeaning(env, self, actions[0], w, EMPTY_SUBSTATE).0);
    }
  }

  lemma {:induction false} NoGarbageOfAction(env: Env, self: Address, action: Action, w: World)
    ensures ActionYield(env, self, action, w).garbage == {}
    decreases action
  {
    match action
    case CallOut(receiver, gas, callee) =>
      if callee.native.Some? {
        NoGarbage(env, receiver, callee.native.value.actions, w);
      }
      if callee.code.Some? {
        NoGarbage(env, receiver, callee.code.value.actions, w);
      }
    case CreateOut(init) =>
      var address := env.contractAddress(self, NonceOf(env, w, self));
      var w1 := WithNonceIncremented(w, self, env.startNonce);
      NoGarbage(env, address, init.actions, w1[address := ToPlain(NewBasic(env.startNonce))]);
    case _ =>
  }

  lemma TreeHasNoGarbage(rules: Rules, t: Transaction, nonce: nat, w: World)
    ensures TreeYield(rules, t, nonce, w).garbage == {}
  {
    match t.action
    case StoreTx =>
    case CreateTx(init) =>
      var address := rules.env.contractAddress(t.sender, nonce);
      NoGarbage(rules.env, address, init.actions, w[address := ToPlain(NewBasic(rules.env.startNonce))]);
    case CallTx(to, callee) =>
      if callee.native.Some? {
        NoGarbage(rules.env, to, callee.native.value.actions, w);
      }
      if callee.code.Some? {
        NoGarbage(rules.env, to, callee.code.value.actions, w);
      }
  }

  /** A transaction that succeeds reports the logs and contracts of its tree, in order. It
      is refunded 15000 for each slot its tree cleared and 24000 for each suicide, as long
      as that is not more than half of the gas spent, and then exactly half. Its suicides
      are gone and nobody else is. */
  lemma SuccessReport(rules: Rules, info: EnvInfo, t: Transaction, w: World)
    requires Runnable(rules, t) && Refusal(rules, info, t).None?
    ensures t.action.StoreTx? || t.gas >= BASE_GAS
    ensures
      var nonce, w1 := NonceOf(rules.env, w, t.sender), WithNonceIncremented(w, t.sender, rules.env.startNonce);
      var out, tree := Execution(rules, t, nonce, w1), TreeYield(rules, t, nonce, w1);
      var (w', result) := TransactMeaning(rules, info, t, w);
      out.result.Ok? ==>
        var spent, due := t.gas - out.result.gasLeft, 15_000 * tree.clears + 24_000 * |tree.suicides|;
        && result.Done? && result.executed.exception.None?
        && result.executed.logs == tree.logs && result.executed.created == tree.created
        && result.executed.refunded == (if 2 * due <= spent then due else spent / 2)
        && result.executed.gasUsed == spent - result.executed.refunded
        && result.executed.gas == t.gas
        && (forall a :: Get(w', a) == if a in tree.suicides then None else Get(out.world, a))
  {
    hide Execution, TreeYield;
    var nonce, w1 := NonceOf(rules.env, w, t.sender), WithNonceIncremented(w, t.sender, rules.env.startNonce);
    ExecutionYields(rules, t, nonce, w1);
    TreeHasNoGarbage(rules, t, nonce, w1);
  }

  /** The outcome of a failing transaction names its exception; an internal error is
      reported as such. */
  lemma FailureReport(rules: Rules, info: EnvInfo, t: Transaction, w: World)
    requires Runnable(rules, t) && Refusal(rules, info, t).None?
    ensures t.action.StoreTx? || t.gas >= BASE_GAS
    ensures
      var w1 := WithNonceIncremented(w, t.sender, rules.env.startNonce);
      var out := Execution(rules, t, NonceOf(rules.env, w, t.sender), w1);
      var result := TransactMeaning(rules, info, t, w).1;
      out.result.Err? ==>
        if out.result.error.Internal? then result == Refused(InternalError)
        else result.Done? && result.executed.exception == Some(out.result.error)
  {
  }

  /** What the simplest transactions cost: storing data nothing, calling an address without
      code the base gas; both change only the sender's nonce. */
  lemma SimpleCosts(rules: Rules, info: EnvInfo, t: Transaction, w: World)
    requires Runnable(rules, t) && Refusal(rules, info, t).None?
    requires t.action.StoreTx? || (t.action.CallTx? && t.action.callee == Callee(None, None, None))
    ensures
      var (w', result) := TransactMeaning(rules, info, t, w);
      && w' == WithNonceIncremented(w, t.sender, rules.env.startNonce)
      && result.Done? && result.executed.exception.None? && result.executed.refunded == 0
      && result.executed.gasUsed == (if t.action.StoreTx? then 0 else 100)
      && result.executed.logs == [] && result.executed.created == []
  {
    var w1 := WithNonceIncremented(w, t.sender, rules.env.startNonce);
    assert w1 - {} == w1;
    assert Dead(w1, EMPTY_SUBSTATE) == {};
  }

  /** The frames of an admitted transaction create contracts where there is no account
      with a storage trie. */
  ghost predicate FreshTransaction(rules: Rules, t: Transaction, w: World) {
    var w1 := WithNonceIncremented(w, t.sender, rules.env.startNonce);
    match t.action
    case StoreTx => true
    case CreateTx(init) => FreshCreate(rules.env, rules.env.contractAddress(t.sender, NonceOf(rules.env, w, t.sender)), init, w1)
    case CallTx(to, callee) => t.gas >= BASE_GAS ==> FreshCall(rules.env, to, t.gas - BASE_GAS, callee, w1)
  }

  /** `transact_with_tracer`. */
  method Transact(ex: Executive, rules: Rules, info: EnvInfo, t: Transaction) returns (result: TxResult)
    requires ex.Ready() && ex.env == rules.env && ex.state.saved == []
    requires Runnable(rules, t) && FreshTransaction(rules, t, ex.state.world)
    modifies ex.state
    ensures ex.Ready() && ex.state.saved == []
    ensures (ex.state.world, result) == TransactMeaning(rules, info, t, old(ex.state.world))
  {
    hide Execution, FreshTransaction, Report, Dead, WithNonceIncremented;
    var nonce := ex.state.Nonce(t.sender);
    ghost var w := ex.state.world;
    ex.state.IncNonce(t.sender);
    var refusal := Refusal(rules, info, t);
    if refusal.Some? {
      return Refused(refusal.value);
    }
    AdmittedPaysBase(rules, info, t);
    var sub, res := Execute(ex, rules, t, nonce, w);
    result := Finalize(ex, info, t, sub, res);
  }

  lemma AdmittedPaysBase(rules: Rules, info: EnvInfo, t: Transaction)
    requires Runnable(rules, t) && Refusal(rules, info, t).None?
    ensures t.action.StoreTx? || t.gas >= BASE_GAS
  {
  }

  /** Carries an admitted transaction out; `w` is the world before its nonce went up. */
  method Execute(ex: Executive, rules: Rules, t: Transaction, nonce: nat, ghost w: World)
    returns (sub: Substate, res: EvmResult)
    requires ex.Ready() && ex.env == rules.env && ex.state.saved == []
    requires WellMetered(t) && (t.action.StoreTx? || t.gas >= BASE_GAS)
    requires FreshTransaction(rules, t, w) && nonce == NonceOf(rules.env, w, t.sender)
    requires ex.state.world == WithNonceIncremented(w, t.sender, rules.env.startNonce)
    modifies ex.state
    ensures ex.Ready() && ex.state.saved == []
    ensures Outcome(ex.state.world, sub, res) == Execution(rules, t, nonce, old(ex.state.world))
  {
    hide CreateMeaning, CallMeaning, FreshCreate, FreshCall, WithNonceIncremented;
    sub, res := EMPTY_SUBSTATE, Ok(t.gas);
    match t.action {
      case StoreTx =>
      case CreateTx(init) =>
        sub, res := ex.Create(rules.env.contractAddress(t.sender, nonce), init, sub);
      case CallTx(to, callee) =>
        sub, res := ex.Call(to, t.gas - BASE_GAS, callee, sub);
    }
  }

  method KillSuicides(state: State, suicides: set<Address>)
    requires state.Valid() && state.saved == []
    modifies state
    ensures state.Valid() && state.saved == [] && state.world == old(state.world) - suicides
  {
    ghost var w := state.world;
    var rest := suicides;
    while rest != {}
      invariant state.Valid() && state.saved == []
      invariant rest <= suicides && state.world == w - (suicides - rest)
      decreases rest
    {
      var a :| a in rest;
      state.KillAccount(a);
      assert w - (suicides - (rest - {a})) == w - (suicides - rest) - {a};
      rest := rest - {a};
    }
  }

  method CollectGarbage(state: State, garbage: set<Address>)
    requires state.Valid() && state.saved == []
    modifies state
    ensures state.Valid() && state.saved == [] && state.world == old(state.world) - Null(old(state.world), garbage)
  {
    ghost var w := state.world;
    var rest := garbage;
    while rest != {}
      invariant state.Valid() && state.saved == []
      invariant rest <= garbage && state.world == w - Null(w, garbage - rest)
      decreases rest
    {
      var a :| a in rest;
      var present := state.Exists(a);
      var notNull := state.ExistsAndNotNull(a);
      assert Null(w, garbage - (rest - {a})) == Null(w, garbage - rest) + Null(w, {a});
      if present && !notNull {
        state.KillAccount(a);
        assert Null(w, {a}) == {a};
      } else {
        assert Null(w, {a}) == {};
      }
      rest := rest - {a};
    }
    assert garbage - {} == garbage;
  }

  /** Kills what must die and settles the gas. */
  method Finalize(ex: Executive, info: EnvInfo, t: Transaction, sub: Substate, res: EvmResult) returns (result: TxResult)
    requires ex.Ready() && ex.state.saved == [] && GasLeftBeforeRefund(res) <= t.gas
    modifies ex.state
    ensures ex.Ready() && ex.state.saved == []
    ensures ex.state.world == old(ex.state.world) - Dead(old(ex.state.world), sub)
    ensures result == Report(t, info, sub, res)
  {
    ghost var w := ex.state.world;
    KillSuicides(ex.state, sub.suicides);
    CollectGarbage(ex.state, sub.garbage);
    assert ex.state.world == w - Dead(w, sub);
    match res {
      case Err(error) =>
        if error.Internal? {
          result := Refused(InternalError);
        } else {
          result := Done(Executed(Some(error), t.gas, t.gas, 0, info.gasUsed + t.gas, [], []));
        }
      case Ok(left) =>
        var bound := SSTORE_REFUND_GAS * sub.clears + SUICIDE_REFUND_GAS * |sub.suicides|;
        var half := (t.gas - left) / 2;
        var refunded := if bound <= half then bound else half;
        var gasLeft := left + refunded;
        var gasUsed := t.gas - gasLeft;
        result := Done(Executed(None, t.gas, gasUsed, refunded, info.gasUsed + gasUsed, sub.logs, sub.created));
    }
  }
}
