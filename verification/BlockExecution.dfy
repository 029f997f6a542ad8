/**
 Executing the transactions of a block one after the other
 (cita-executor/core/src/libexecutor/block.rs, `apply_transactions`): every
 transaction sees the gas used before it, pays from the gas of its sender's
 account and leaves a receipt.
 */
module BlockExecution {
  import opened Basics
  import opened StateJournal
  import opened MessageCalls
  import opened Transactions

  /** `gasUsed` is cumulative over the block. */
  datatype Receipt = Receipt(gasUsed: nat, logs: seq<LogEntry>, failed: bool)

  datatype Limits = Limits(blockGas: nat, accountGas: nat)

  datatype Progress = Progress(world: World, gasUsed: nat, accountGas: map<Address, int>, receipts: seq<Option<Receipt>>)

  /** The interrupt flag is looked at once every 256 transactions. */
  const CHECK_EVERY: nat := 256

  /** Gas left to an account. Only the exempt sender can use more than it has: a negative
      value stands for the panic of the source's unsigned subtraction. */
  function AccountGas(limits: Limits, p: Progress, a: Address): int {
    if a in p.accountGas then p.accountGas[a] else limits.accountGas
  }

  /** What a transaction is told of the block. */
  function InfoFor(limits: Limits, t: Transaction, p: Progress): EnvInfo {
    EnvInfo(p.gasUsed, limits.blockGas, AccountGas(limits, p, t.sender))
  }

  function ResultOf(rules: Rules, limits: Limits, t: Transaction, p: Progress): TxResult
    requires Runnable(rules, t)
  {
    TransactMeaning(rules, InfoFor(limits, t, p), t, p.world).1
  }

  function ReceiptOf(result: TxResult): Option<Receipt> {
    match result
    case Done(e) => Some(Receipt(e.cumulativeGasUsed, e.logs, e.exception.Some?))
    case Refused(error) => if error.InternalError? then None else Some(Receipt(0, [], true))
  }

  /** What a transaction is charged. */
  function Charge(rules: Rules, limits: Limits, t: Transaction, p: Progress): nat
    requires Runnable(rules, t)
  {
    match ResultOf(rules, limits, t, p)
    case Done(e) => e.gasUsed
    case Refused(_) => 0
  }

  lemma ChargeWithinQuota(rules: Rules, limits: Limits, t: Transaction, p: Progress)
    requires Runnable(rules, t)
    ensures ResultOf(rules, limits, t, p).Done? ==>
              ResultOf(rules, limits, t, p).executed.cumulativeGasUsed == p.gasUsed + Charge(rules, limits, t, p)
    ensures rules.checkQuota && t.sender != rules.zero && Charge(rules, limits, t, p) > 0 ==>
              && Charge(rules, limits, t, p) <= AccountGas(limits, p, t.sender)
              && p.gasUsed + Charge(rules, limits, t, p) <= limits.blockGas
  {
    GasIsConserved(rules, InfoFor(limits, t, p), t, p.world);
  }

  /** Books the result of a transaction: counter, account and receipt. */
  function Book(rules: Rules, limits: Limits, sender: Address, result: TxResult, w: World, p: Progress): Progress
  {
    var account := AccountGas(limits, p, sender);
    var receipts := p.receipts + [ReceiptOf(result)];
    match result
    case Done(e) =>
      var left := if rules.checkQuota then account - (e.cumulativeGasUsed - p.gasUsed) else account;
      Progress(w, e.cumulativeGasUsed, p.accountGas[sender := left], receipts)
    case Refused(_) =>
      Progress(w, p.gasUsed, p.accountGas[sender := account], receipts)
  }

  function Apply(rules: Rules, limits: Limits, t: Transaction, p: Progress): Progress
    requires Runnable(rules, t)
  {
    var (w, result) := TransactMeaning(rules, InfoFor(limits, t, p), t, p.world);
    Book(rules, limits, t.sender, result, w, p)
  }

  function ApplyAll(rules: Rules, limits: Limits, txs: seq<Transaction>, p: Progress): Progress
    requires forall t :: t in txs ==> Runnable(rules, t)
  {
    if txs == [] then p else ApplyAll(rules, limits, txs[1..], Apply(rules, limits, txs[0], p))
  }

  lemma {:induction false} ApplyOneMore(rules: Rules, limits: Limits, txs: seq<Transaction>, p: Progress, i: nat)
    requires (forall t :: t in txs ==> Runnable(rules, t)) && i < |txs|
    ensures ApplyAll(rules, limits, txs[..i + 1], p) == Apply(rules, limits, txs[i], ApplyAll(rules, limits, txs[..i], p))
  {
    hide Apply;
    if i == 0 {
      assert txs[..1][1..] == [];
    } else {
      assert txs[..i + 1][1..] == txs[1..][..i] && txs[..i][1..] == txs[1..][..i - 1];
      ApplyOneMore(rules, limits, txs[1..], Apply(rules, limits, txs[0], p), i - 1);
    }
  }

  function TotalCharge(rules: Rules, limits: Limits, txs: seq<Transaction>, p: Progress): nat
    requires forall t :: t in txs ==> Runnable(rules, t)
  {
    if txs == [] then 0
    else Charge(rules, limits, txs[0], p) + TotalCharge(rules, limits, txs[1..], Apply(rules, limits, txs[0], p))
  }

  /** The part of the total that the transactions of one sender are charged. */
  function ChargeOf(rules: Rules, limits: Limits, a: Address, txs: seq<Transaction>, p: Progress): nat
    requires forall t :: t in txs ==> Runnable(rules, t)
  {
    if txs == [] then 0
    else
      (if txs[0].sender == a then Charge(rules, limits, txs[0], p) else 0)
      + ChargeOf(rules, limits, a, txs[1..], Apply(rules, limits, txs[0], p))
  }

  function Max(a: nat, b: nat): nat {
    if a >= b then a else b
  }

  /** Gas over any list of transactions: the block's counter is the sum of the
      charges; with quota checks on it goes over the block's limit by no more than what
      the exempt sender was charged, every account pays exactly what its own
      transactions were charged, and only the exempt sender's can be overdrawn. */
  lemma {:induction false} BlockGasAddsUp(rules: Rules, limits: Limits, txs: seq<Transaction>, p: Progress, a: Address)
    requires forall t :: t in txs ==> Runnable(rules, t)
    ensures
      var q := ApplyAll(rules, limits, txs, p);
      && q.gasUsed == p.gasUsed + TotalCharge(rules, limits, txs, p)
      && (rules.checkQuota ==> q.gasUsed <= Max(p.gasUsed, limits.blockGas) + ChargeOf(rules, limits, rules.zero, txs, p))
      && (rules.checkQuota ==> AccountGas(limits, q, a) == AccountGas(limits, p, a) - ChargeOf(rules, limits, a, txs, p))
      && (rules.checkQuota && a != rules.zero && AccountGas(limits, p, a) >= 0 ==> AccountGas(limits, q, a) >= 0)
  {
    hide TransactMeaning, Runnable;
    if txs != [] {
      ChargeWithinQuota(rules, limits, txs[0], p);
      BlockGasAddsUp(rules, limits, txs[1..], Apply(rules, limits, txs[0], p), a);
    }
  }

  /** There is one receipt per transaction, and the receipt of an executed
      transaction carries the gas charged up to and including it. */
  lemma {:induction false} ReceiptsFollowTransactions(rules: Rules, limits: Limits, txs: seq<Transaction>, p: Progress, i: nat)
    requires forall t :: t in txs ==> Runnable(rules, t)
    requires i < |txs|
    ensures
      var q := ApplyAll(rules, limits, txs, p);
      var before := ApplyAll(rules, limits, txs[..i], p);
      && |q.receipts| == |p.receipts| + |txs|
      && p.receipts <= q.receipts
      && q.receipts[|p.receipts| + i] == ReceiptOf(ResultOf(rules, limits, txs[i], before))
      && (ResultOf(rules, limits, txs[i], before).Done? ==>
            q.receipts[|p.receipts| + i].value.gasUsed == p.gasUsed + TotalCharge(rules, limits, txs[..i + 1], p))
  {
    hide TransactMeaning;
    var p1 := Apply(rules, limits, txs[0], p);
    ChargeWithinQuota(rules, limits, txs[0], p);
    if i == 0 {
      OneReceiptEach(rules, limits, txs[1..], p1);
      assert txs[..1] == [txs[0]];
      assert TotalCharge(rules, limits, [txs[0]], p) == Charge(rules, limits, txs[0], p);
    } else {
      ReceiptsFollowTransactions(rules, limits, txs[1..], p1, i - 1);
      assert txs[..i][1..] == txs[1..][..i - 1];
      assert txs[..i + 1][1..] == txs[1..][..i];
    }
  }

  lemma {:induction false} OneReceiptEach(rules: Rules, limits: Limits, txs: seq<Transaction>, p: Progress)
    requires forall t :: t in txs ==> Runnable(rules, t)
    ensures |ApplyAll(rules, limits, txs, p).receipts| == |p.receipts| + |txs|
    ensures p.receipts <= ApplyAll(rules, limits, txs, p).receipts
  {
    if txs != [] {
      OneReceiptEach(rules, limits, txs[1..], Apply(rules, limits, txs[0], p));
    }
  }

  /** A new receipt's cumulative gas falls behind the block's counter exactly when the
      checks before execution refuse the transaction after some gas has been used. */
  lemma RefusalResetsCumulativeGas(rules: Rules, limits: Limits, t: Transaction, p: Progress)
    requires Runnable(rules, t)
    ensures
      var r := ReceiptOf(ResultOf(rules, limits, t, p));
      r.Some? && r.value.gasUsed < p.gasUsed <==> p.gasUsed > 0 && Refusal(rules, InfoFor(limits, t, p), t).Some?
  {
    ChargeWithinQuota(rules, limits, t, p);
  }

  /** Logs of successful transactions are in their receipts, in the order of their trees;
      a failed or refused one has none and is marked; an internal error leaves no receipt. */
  lemma ReceiptTells(rules: Rules, limits: Limits, t: Transaction, p: Progress)
    requires Runnable(rules, t)
    ensures
      var info, nonce := InfoFor(limits, t, p), NonceOf(rules.env, p.world, t.sender);
      var w1, r := WithNonceIncremented(p.world, t.sender, rules.env.startNonce), ReceiptOf(ResultOf(rules, limits, t, p));
      if Refusal(rules, info, t).Some? then r.Some? && r.value.failed && r.value.logs == [] && r.value.gasUsed == 0
      else
        && (t.action.StoreTx? || t.gas >= BASE_GAS)
        && match Execution(rules, t, nonce, w1).result
           case Ok(_) => r.Some? && !r.value.failed && r.value.logs == TreeYield(rules, t, nonce, w1).logs
           case Err(error) =>
             if error.Internal? then r.None?
             else r.Some? && r.value.failed && r.value.logs == [] && r.value.gasUsed == p.gasUsed + t.gas
  {
    hide TreeYield, Execution, TransactMeaning;
    var info := InfoFor(limits, t, p);
    if Refusal(rules, info, t).None? {
      SuccessReport(rules, info, t, p.world);
      FailureReport(rules, info, t, p.world);
      FailedTransactionLeavesNoTrace(rules, info, t, p.world);
      GasIsConserved(rules, info, t, p.world);
    } else {
      RefusedIsRefused(rules, info, t, p.world);
    }
  }

  lemma RefusedIsRefused(rules: Rules, info: EnvInfo, t: Transaction, w: World)
    requires Runnable(rules, t) && Refusal(rules, info, t).Some?
    ensures TransactMeaning(rules, info, t, w).1 == Refused(Refusal(rules, info, t).value)
    ensures !Refusal(rules, info, t).value.InternalError?
  {
  }

  /** A sender the block has not seen has the default quota. */
  lemma NewSenderQuota(rules: Rules, limits: Limits, t: Transaction, p: Progress)
    requires rules.checkQuota && t.sender != rules.zero && t.sender !in p.accountGas && p.gasUsed + t.gas <= limits.blockGas
    requires (rules.checkPermission ==> MaySend(rules, t)) && (t.action.StoreTx? || t.gas >= BASE_GAS)
    ensures Refusal(rules, InfoFor(limits, t, p), t).None? <==> t.gas <= limits.accountGas
  {
  }

  /** Every transaction, as it comes to be executed, creates contracts where there is no
      account with a storage trie. */
  ghost predicate FreshBlock(rules: Rules, limits: Limits, txs: seq<Transaction>, p: Progress)
    requires forall t :: t in txs ==> Runnable(rules, t)
  {
    txs != [] ==>
      && FreshTransaction(rules, txs[0], p.world)
      && FreshBlock(rules, limits, txs[1..], Apply(rules, limits, txs[0], p))
  }

  class OpenBlock {
    const executive: Executive
    const rules: Rules
    const limits: Limits
    var currentGasUsed: nat
    var accountGas: map<Address, int>
    var receipts: seq<Option<Receipt>>

    ghost predicate Valid()
      reads this, executive.state
    {
      executive.Ready() && executive.env == rules.env && executive.state.saved == []
    }

    ghost function View(): Progress
      reads this, executive.state
    {
      Progress(executive.state.world, currentGasUsed, accountGas, receipts)
    }

    constructor (executive: Executive, rules: Rules, limits: Limits, specific: map<Address, int>)
      requires executive.Ready() && executive.env == rules.env && executive.state.saved == []
      ensures Valid() && this.executive == executive && this.rules == rules && this.limits == limits
      ensures View() == Progress(executive.state.world, 0, specific, [])
    {
      this.executive := executive;
      this.rules := rules;
      this.limits := limits;
      currentGasUsed := 0;
      accountGas := specific;
      receipts := [];
    }

    /** Books a result; the account is already entered. */
    method Record(sender: Address, result: TxResult)
      requires Valid() && sender in accountGas
      modifies this
      ensures Valid() && View() == Book(rules, limits, sender, result, old(View()).world, old(View()))
    {
      match result {
        case Done(e) =>
          var used := e.cumulativeGasUsed - currentGasUsed;
          currentGasUsed := e.cumulativeGasUsed;
          if rules.checkQuota {
            accountGas := accountGas[sender := accountGas[sender] - used];
          }
          receipts := receipts + [Some(Receipt(e.cumulativeGasUsed, e.logs, e.exception.Some?))];
        case Refused(error) =>
          receipts := receipts + [if error.InternalError? then None else Some(Receipt(0, [], true))];
      }
    }

    method ApplyTransaction(t: Transaction)
      requires Valid() && Runnable(rules, t) && FreshTransaction(rules, t, View().world)
      modifies this, executive.state
      ensures Valid() && View() == Apply(rules, limits, t, old(View()))
    {
      hide TransactMeaning, FreshTransaction;
      ghost var before := View();
      if t.sender !in accountGas {
        accountGas := accountGas[t.sender := limits.accountGas];
      }
      var info := EnvInfo(currentGasUsed, limits.blockGas, accountGas[t.sender]);
      var result := Transact(executive, rules, info, t);
      Record(t.sender, result);
      assert View().accountGas == Apply(rules, limits, t, before).accountGas;
    }

    /** Executes the transactions unless an interrupt is seen; `interrupted(i)` is
        the flag when transaction `i` is about to start. */
    method ApplyTransactions(txs: seq<Transaction>, interrupted: nat -> bool) returns (finished: bool)
      requires Valid() && forall t :: t in txs ==> Runnable(rules, t)
      requires FreshBlock(rules, limits, txs, View())
      modifies this, executive.state
      ensures Valid()
      ensures finished <==> forall i: nat :: i < |txs| && i % 256 == 0 ==> !interrupted(i)
      ensures finished ==> View() == ApplyAll(rules, limits, txs, old(View()))
      ensures !finished ==>
                exists i: nat :: i < |txs| && interrupted(i) && View() == ApplyAll(rules, limits, txs[..i], old(View()))
    {
      hide Apply;
      var index := 0;
      while index < |txs|
        invariant 0 <= index <= |txs| && Valid()
        invariant forall i: nat :: i < index && i % CHECK_EVERY == 0 ==> !interrupted(i)
        invariant FreshBlock(rules, limits, txs[index..], View())
        invariant View() == ApplyAll(rules, limits, txs[..index], old(View()))
      {
        if index % CHECK_EVERY == 0 && interrupted(index) {
          return false;
        }
        assert txs[index..][1..] == txs[index + 1..];
        ApplyOneMore(rules, limits, txs, old(View()), index);
        ApplyTransaction(txs[index]);
        index := index + 1;
      }
      finished := true;
      assert txs[..|txs|] == txs;
    }
  }
}
