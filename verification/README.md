# CITA verification

A Dafny model of the parts of CITA that are hardest to get right: how the executor
journals its state, executes nested calls and orders proposals, decided blocks and
synchronised blocks; how the authentication service keeps transactions from being
replayed and counts the replies of its workers; how the chain service stores blocks,
finds transactions and logs again and caches its database; and how the network
service synchronises blocks, frames messages and keeps its list of peers.

Every service that updates fields in place is a class whose methods are proved against
a step function over plain values. The theorems are about those functions: invariants of
every reachable state, properties of whole runs, progress from every state where it is
promised, what every reader sees of an operation, refinements of a simple form by the
form the program uses, and round trips. A run is any finite sequence of events, in any
order.

| file | models |
|---|---|
| `StateJournal.dfy` | account cache, checkpoints and reverts |
| `MessageCalls.dfy`, `Transactions.dfy`, `BlockExecution.dfy` | calls and creations, one transaction, the transactions of a block |
| `ReceiptGas.dfy` | cumulative gas from the executor's receipts to the chain service's lookups |
| `ExecutorStages.dfy`, `ExecutorInstance.dfy` | the executor's stages as a state machine, and the object that goes through them |
| `AuthWindow.dfy`, `AuthReplay.dfy`, `BlockVerification.dfy` | the window of recent hashes, replay protection, verification of proposed blocks |
| `Blooms.dfy`, `LogIndex.dfy`, `LocalizedReceipts.dfy` | filters and blooms, log queries, receipts |
| `StoreKeys.dfy`, `CachedStore.dfy`, `CacheManager.dfy` | database keys, cached database, eviction |
| `ChainCommit.dfy` | storing and committing blocks, looking transactions up |
| `BlockSync.dfy`, `FrameCodec.dfy`, `PeerList.dfy` | the network service |
| `Basics.dfy` | options and sequences |

Hashes, signatures, blooms of single items and the tries are uninterpreted. The virtual
machine is an arbitrary tree of writes, logs, suicides, refunds, calls and creations with
an arbitrary end. Random choices, clocks, the number of peers, worker verdicts and
interrupts are parameters, so every theorem holds for all of them.

Some properties one would expect do not hold of the program. For each there is a
statement of exactly when they do: `KillThenRevert`, `RecreateThenRevert` and
`RepresentsIffFollows` (reverts), `BlockLookupsOverflowIff` and
`RefusalResetsCumulativeGas` (cumulative gas), `CommitsAgreeIff` and `DecisionAgreesIff`
with the family `LateProposalIsLost`, and
`InterruptingDecisionCommitsIffNoticed` (proposals and decisions), `CleanIffNothingSlippedIn` with
`SlippedInIsAccepted`, and `VerificationAloneForgets` (replay protection),
`NoPossibilities`, `EmptySlotFindsNothing` and `WalkIsScanIffGapFree` (log queries),
`NumberKeyDropsHighBits` (keys), `StoredBodyKeepsLookup` (stored bodies),
`RoundTripIffFits` and `OneReadDeliversIff` (frames).

Two comments of the program do not describe its code, and the model follows the code:
frames start with eight bytes, not four (cita-network/src/citaprotocol.rs:38-43), and
replacing an entry by another one does not replace an absent account
(cita-executor/core/src/state/mod.rs:136-147).

## Model

| member | source | states |
|---|---|---|
| `StateJournal.RepresentsAfterRevert` | cita-executor/core/src/state/mod.rs:301-327 | reverting the newest checkpoint gives back exactly the accounts, nonces, code and slots of the moment it was taken, and leaves every older checkpoint revertible |
| `StateJournal.RepresentsAfterDiscard` | cita-executor/core/src/state/mod.rs:284-298 | merging the newest checkpoint into the one before loses no backup: the older ones still revert to what they saved |
| `StateJournal.RepresentsAfterCheckpoint` | cita-executor/core/src/state/mod.rs:279-281 | opening a checkpoint saves the present world and changes nothing a reader sees |
| `StateJournal.RepresentsAfterChange` | cita-executor/core/src/state/mod.rs:729-781 | backing an account up and changing it changes that account only, now and after every later revert |
| `StateJournal.RepresentsAfterRead` | cita-executor/core/src/state/mod.rs:682-715 | loading an account into the cache, or remembering a slot, changes nothing a reader sees now or after any revert |
| `StateJournal.RevertedAlike` | cita-executor/core/src/state/mod.rs:137-147 | an entry overwritten by its backup answers every read as the backup would |
| `StateJournal.KillThenRevert` | cita-executor/core/src/state/mod.rs:301-344 | on every sound journal, killing an account and reverting gives back what the checkpoint saved if and only if the backup is of no cached account: an uncached one is loaded again, a cached one is left absent |
| `StateJournal.RecreateThenRevert` | cita-executor/core/src/state/account.rs:439-453 | on every sound journal, creating a contract over an account, doing anything to it and reverting gives back nonce, code and changes, and a slot if and only if the backup is of no cached account or answers the slot itself, or the new contract does not remember it, or both tries agree |
| `StateJournal.RepresentsIffFollows` | cita-executor/core/src/state/mod.rs:329-344 | entering an account directly keeps the journal sound if and only if no checkpoint is open or the entry may take the place of the backup |
| `StateJournal.State.Checkpoint` | cita-executor/core/src/state/mod.rs:279-281 | the stack of saved worlds grows by the present one; the world stays |
| `StateJournal.State.DiscardCheckpoint` | cita-executor/core/src/state/mod.rs:284-298 | the newest saved world is dropped, the world stays; without a checkpoint nothing happens |
| `StateJournal.State.RevertToCheckpoint` | cita-executor/core/src/state/mod.rs:301-327 | the world becomes the newest saved one, which is dropped; without a checkpoint nothing happens |
| `StateJournal.State.InsertCache` | cita-executor/core/src/state/mod.rs:329-344 | a dirty entry is backed up by what it replaces, once per checkpoint |
| `StateJournal.State.NoteCache` | cita-executor/core/src/state/mod.rs:346-358 | a cached entry is backed up once per checkpoint, with its changes |
| `StateJournal.State.EnsureCached` | cita-executor/core/src/state/mod.rs:682-715 | the account is cached as the world has it; no checkpoint changes |
| `StateJournal.State.Exists` | cita-executor/core/src/state/mod.rs:392-398 | an account exists if and only if the world holds it |
| `StateJournal.State.ExistsAndNotNull` | cita-executor/core/src/state/mod.rs:401-405 | as the world says |
| `StateJournal.State.Nonce` | cita-executor/core/src/state/mod.rs:408-413 | the nonce of the world, or the start nonce |
| `StateJournal.State.StorageAt` | cita-executor/core/src/state/mod.rs:425-477 | the slot as the world has it, whichever of changes, remembered slots and trie answers |
| `StateJournal.State.RequireOrFrom` | cita-executor/core/src/state/mod.rs:729-781 | the account or the default is entered dirty in the world, with a backup in the newest checkpoint |
| `StateJournal.State.IncNonce` | cita-executor/core/src/state/mod.rs:501-503 | only the nonce of the account grows by one |
| `StateJournal.State.SetStorage` | cita-executor/core/src/state/mod.rs:506-512 | only that slot changes, and it is not written when it already has the value |
| `StateJournal.State.InitCode` | cita-executor/core/src/state/mod.rs:516-525 | only the code of the account changes |
| `StateJournal.State.NewContract` | cita-executor/core/src/state/mod.rs:376-383 | an empty contract replaces whatever was there; the journal stays sound if and only if no checkpoint is open or the backup is of no cached account or of one without a storage trie |
| `StateJournal.State.KillAccount` | cita-executor/core/src/state/mod.rs:386-388 | the account is gone; the journal stays sound if and only if no checkpoint is open or the backup is of no cached account |
| `StateJournal.StorageLaws` | cita-executor/core/src/state/mod.rs:506-512 | a write is read back at its slot, and no other slot, nonce, code or account changes for any reader |
| `StateJournal.NonceLaws` | cita-executor/core/src/state/mod.rs:501-503 | the nonce goes up by one, and nothing else changes for any reader |
| `StateJournal.CodeLaws` | cita-executor/core/src/state/mod.rs:516-525 | the code is what was set, and nothing else changes for any reader |
| `StateJournal.NewContractLaws` | cita-executor/core/src/state/mod.rs:376-383 | a new contract has the nonce it was given, no code and empty storage |
| `StateJournal.FirstWorld` | cita-executor/core/src/state/mod.rs:254-275 | at first a reader sees what the databases hold |
| `MessageCalls.AccrueLaws` | cita-executor/core/src/substate.rs:53-59 | accruing substates is associative and has the empty substate as unit |
| `MessageCalls.ActionsAppendYield` | cita-executor/core/src/externalities.rs:162-239 | for every tree of calls and creations, what the caller has gathered influences neither the world nor the results and stays in place: the tree appends its own yield, in order of completion |
| `MessageCalls.CallAppendsYield` | cita-executor/core/src/externalities.rs:203-239 | a call leaves the caller's substate in place and appends its own yield: nothing if it failed |
| `MessageCalls.CreateAppendsYield` | cita-executor/core/src/externalities.rs:162-201 | a creation leaves the creator's substate in place and appends its own yield: nothing if it failed |
| `MessageCalls.FrameYields` | cita-executor/core/src/executive.rs:229-255 | the substate of a frame is what its actions yield |
| `MessageCalls.StoreEffect` | cita-executor/core/src/externalities.rs:126-128 | a write by a frame is read back at its slot of its own account; no other slot, nonce, code or account changes |
| `MessageCalls.GatheringEffects` | cita-executor/core/src/externalities.rs:285-331 | a log, a suicide and a cleared slot are gathered, each exactly once, and leave the world alone |
| `MessageCalls.CallGas` | cita-executor/core/src/executive.rs:261-360 | a builtin costs its price or runs out of gas, an address without code costs nothing, and a frame's result is how it ended |
| `MessageCalls.CallWorld` | cita-executor/core/src/executive.rs:261-360 | an undone call leaves world and substate as they were; any other has the world the callee's actions make |
| `MessageCalls.CreationOutcome` | cita-executor/core/src/executive.rs:365-417 | returned data becomes the code of the new contract for 200 gas per byte; if that cannot be paid nothing is deposited or taken; an error undoes all |
| `MessageCalls.ActionsTouchActors` | cita-executor/core/src/executive.rs:261-417 | a tree changes only accounts whose frames write or create in it and were not undone, and the contracts created |
| `MessageCalls.CreatorNonce` | cita-executor/core/src/externalities.rs:162-201 | a creation raises its creator's nonce by one even if undone, unless its frame makes the creator act, and is listed if it succeeds |
| `MessageCalls.Executive.EnactResult` | cita-executor/core/src/executive.rs:502-517 | an error restores the world of the newest checkpoint and drops the frame's substate; anything else keeps the world and accrues it; the checkpoint depth drops by one |
| `MessageCalls.Executive.RunActions` | cita-executor/core/src/externalities.rs:126-315 | the journalled state carries out every tree as a plain interpreter over snapshots does, and returns at the checkpoint depth of entry |
| `MessageCalls.Executive.RunAction` | cita-executor/core/src/externalities.rs:126-331 | the same for one action: write, log, suicide, refund, call or creation |
| `MessageCalls.Executive.ExecVm` | cita-executor/core/src/executive.rs:229-255 | the same for a frame, with the code deposit of a creation |
| `MessageCalls.Executive.Call` | cita-executor/core/src/executive.rs:261-360 | the same for a call to a builtin, to code or to an account without code |
| `MessageCalls.Executive.Create` | cita-executor/core/src/executive.rs:365-417 | the same for a creation; on success the address is appended to the created contracts |
| `Transactions.FailedTransactionLeavesNoTrace` | cita-executor/core/src/executive.rs:420-517 | a transaction that ends in an exception changes only its sender's nonce, leaves no logs and no contracts and costs all its gas |
| `Transactions.GasIsConserved` | cita-executor/core/src/executive.rs:150-227 | gas used and refunded add up to what was spent before the refund, at most half of it is refunded, cumulative gas grows by the gas used, and with quota checks it stays within both limits |
| `Transactions.SuccessReport` | cita-executor/core/src/executive.rs:420-500 | a successful transaction reports the logs and contracts of its tree, is refunded 15000 per cleared slot and 24000 per suicide up to exactly half of the gas spent, and its suicides and nobody else are gone |
| `Transactions.FailureReport` | cita-executor/core/src/executive.rs:467-483 | a failing transaction names its exception |
| `Transactions.SimpleCosts` | cita-executor/core/src/executive.rs:150-227 | storing data costs nothing, calling an address without code the base gas |
| `Transactions.AdmittedIff` | cita-executor/core/src/executive.rs:135-179 | the exact condition for being admitted |
| `Transactions.RefusalTellsWhy` | cita-executor/core/src/executive.rs:135-179 | the reason given is the first that applies |
| `Transactions.RefusedChangesNonceOnly` | cita-executor/core/src/executive.rs:135-179 | a refused transaction only raises its sender's nonce |
| `Transactions.Transact` | cita-executor/core/src/executive.rs:123-227 | the journalled state and the result are those of the plain interpreter, for refused and executed transactions alike |
| `Transactions.Execute` | cita-executor/core/src/executive.rs:181-222 | carries an admitted transaction out as the plain interpreter does |
| `Transactions.Finalize` | cita-executor/core/src/executive.rs:420-500 | suicides and empty touched contracts are gone, nothing else; the report follows from the result |
| `Transactions.KillSuicides` | cita-executor/core/src/executive.rs:455-458 | exactly the suicides are removed, in whatever order |
| `Transactions.CollectGarbage` | cita-executor/core/src/executive.rs:460-465 | exactly the null accounts among the touched ones are removed, in whatever order |
| `BlockExecution.BlockGasAddsUp` | cita-executor/core/src/libexecutor/block.rs:379-484 | over any list of transactions the block's gas is the sum of the charges; with quota checks it exceeds the block limit by no more than the exempt sender's charges, every account pays exactly what its own transactions were charged, and only the exempt sender's can be overdrawn |
| `BlockExecution.ChargeWithinQuota` | cita-executor/core/src/libexecutor/block.rs:403-484 | a charge fits the account's quota and the block's limit unless the sender is exempt |
| `BlockExecution.ReceiptsFollowTransactions` | cita-executor/core/src/libexecutor/block.rs:403-484 | one receipt per transaction, in order; that of an executed transaction carries the gas charged up to and including it |
| `BlockExecution.RefusalResetsCumulativeGas` | cita-executor/core/src/libexecutor/block.rs:430-484 | a receipt's cumulative gas falls behind the block's counter if and only if gas has been used and the checks before execution refuse the transaction |
| `BlockExecution.ReceiptTells` | cita-executor/core/src/libexecutor/block.rs:414-484 | a receipt has the logs of the transaction's tree if it succeeded, none and a mark if it failed or was refused; an internal error leaves no receipt |
| `BlockExecution.NewSenderQuota` | cita-executor/core/src/libexecutor/block.rs:404-412 | a sender the block has not seen has the default quota |
| `BlockExecution.OpenBlock.Record` | cita-executor/core/src/libexecutor/block.rs:403-484 | booking a result keeps counter, account quotas and receipts in step |
| `BlockExecution.OpenBlock.ApplyTransaction` | cita-executor/core/src/libexecutor/block.rs:403-484 | the open block advances as the specification of one transaction says |
| `BlockExecution.OpenBlock.ApplyTransactions` | cita-executor/core/src/libexecutor/block.rs:379-400 | execution finishes if and only if no check sees the interrupt, and then all transactions are applied in order; otherwise those before the check that saw it |
| `ReceiptGas.BlockLookupsOverflowIff` | cita-chain/core/src/libchain/chain.rs:650-717 | for the receipts of any list of transactions, some lookup overflows if and only if a transaction is refused while the last receipt before it has cumulative gas; if none is, the reported gas adds up to that of the last receipt |
| `ReceiptGas.LookupOverflowsIff` | cita-chain/core/src/libchain/chain.rs:665-717 | the same for each receipt by itself |
| `ReceiptGas.LastPresentBounded` | cita-executor/core/src/libexecutor/block.rs:403-484 | no receipt carries more cumulative gas than the block has used |
| `ExecutorStages.CommitsFormOneChain` | cita-executor/src/executor_instance.rs:106-237 | however enqueues and the split execution steps interleave, the commits form one unbroken chain: each has the next height and the head's hash as parent |
| `ExecutorStages.CommitsExtendHead` | cita-executor/src/executor_instance.rs:106-237 | a step commits nothing or exactly one header that extends the head, on the proposal path too, which does not check again |
| `ExecutorStages.InvStep` | cita-executor/src/executor_instance.rs:106-599 | every step keeps the invariant of stage, closed block, queue and work in progress |
| `ExecutorStages.CommitsAgree` | cita-executor/src/executor_instance.rs:117-165 | if no proposal replaces the one waiting to be finalised, every committed header has the transaction root, timestamp and proof of the decided block |
| `ExecutorStages.CommitsAgreeIff` | cita-executor/src/executor_instance.rs:106-237 | in every run all committed headers have the transactions, timestamps and proofs of the decided blocks if and only if no block is committed for a decision that arrived on the queued proposal while a different one was waiting |
| `ExecutorStages.DecisionAgreesIff` | cita-executor/src/executor_instance.rs:319-384 | when a decision arrives while a proposal waits, the header then taken for it agrees if and only if the decision is not on a different queued proposal |
| `ExecutorStages.DoomedIffMisled` | cita-executor/src/executor_instance.rs:106-237 | every step keeps track: the pending decision is on other transactions than the block it will commit if and only if it misled when it arrived |
| `ExecutorStages.LateProposalIsLost` | cita-executor/src/executor_instance.rs:495-540 | otherwise not: a family of runs in which the transactions of the earlier proposal are committed for a decision on the later one |
| `ExecutorStages.SyncRun` | cita-executor/src/executor_instance.rs:565-599 | the synchronisation loop ends |
| `ExecutorStages.SyncRunIsConsecutive` | cita-executor/src/executor_instance.rs:565-599 | it commits consecutive heights from the head on, each with the block queued there |
| `ExecutorStages.SyncTurnCommits` | cita-executor/src/executor_instance.rs:542-599 | one turn commits at most the queued block of the next height, and goes on only if it took one |
| `ExecutorStages.IdleDecisionCommits` | cita-executor/src/executor_instance.rs:106-165 | a decision that reaches an idle executor is announced, executed and committed, and leaves it idle |
| `ExecutorStages.DecisionsCommit` | cita-executor/src/executor_instance.rs:106-165 | so every chain of decisions is committed as a whole |
| `ExecutorStages.IdleProposalWaits` | cita-executor/src/executor_instance.rs:173-226 | a proposal that reaches an idle executor is executed and waits |
| `ExecutorStages.WaitingDecisionCommits` | cita-executor/src/executor_instance.rs:116-165 | a decision on the waiting proposal commits it as executed; one on another block executes and commits that |
| `ExecutorStages.ExecutingDecisionCommits` | cita-executor/src/executor_instance.rs:183-210 | a decision on the proposal being executed is committed when its execution ends |
| `ExecutorStages.InterruptingDecisionCommitsIffNoticed` | cita-executor/src/executor_instance.rs:106-226 | a decision on another block during a proposal is committed if and only if the execution notices the interrupt; otherwise it is lost |
| `ExecutorStages.NewProposalTakesOver` | cita-executor/src/executor_instance.rs:495-540 | a proposal of other transactions interrupts the one being executed and is executed next |
| `ExecutorStages.FinishBlockCommitsIff` | cita-executor/src/executor_instance.rs:117-165 | an executed block is committed unless an interrupt stopped its transactions; what is queued from the head on stays |
| `ExecutorStages.SyncedBlockCommits` | cita-executor/src/executor_instance.rs:386-599 | a synchronised block followed by one with its proof is executed and committed, the second waits |
| `ExecutorStages.SyncArrivalQueues` | cita-executor/src/executor_instance.rs:431-493 | which synchronised blocks are queued, which proofs complete a queued block, and that nothing else changes |
| `ExecutorStages.SyncRunCommitsReady` | cita-executor/src/executor_instance.rs:565-599 | the synchronisation loop commits every queued block that is proved and links, as it was executed |
| `ExecutorStages.SyncTurnOutcome` | cita-executor/src/executor_instance.rs:542-599 | when a turn stops, empties the queue, skips or commits |
| `ExecutorStages.OtherArrivalsAreDropped` | cita-executor/src/executor_instance.rs:319-540 | which blocks and proposals are dropped without a trace |
| `ExecutorStages.OtherHeightsArePassedOver` | cita-executor/src/executor_instance.rs:106-237 | which announced heights are passed over |
| `ExecutorInstance.Instance.ConsensusBlockEnqueue` | cita-executor/src/executor_instance.rs:319-384 | a decided block is queued, interrupts a proposal of other transactions or takes the waiting one over, exactly as the step of the stage machine that keeps its invariant |
| `ExecutorInstance.Instance.ProposalEnqueue` | cita-executor/src/executor_instance.rs:495-540 | a proposal is queued, or interrupts the one being executed if its transactions differ, exactly as the step of the stage machine |
| `ExecutorInstance.Instance.SyncBlockEnqueue` | cita-executor/src/executor_instance.rs:386-493 | one block of a response is queued if its proof connects, and completes the proof of the one before, exactly as the step of the stage machine |
| `ExecutorInstance.Instance.WakeForSync` | cita-executor/src/executor_instance.rs:421-426 | announces the height after the head unless synchronisation is going on |
| `ExecutorInstance.Instance.SendBlock` | cita-executor/src/executor_instance.rs:601-612 | the block is queued under its height and the height is announced |
| `ExecutorInstance.Instance.SendProposal` | cita-executor/src/executor_instance.rs:614-622 | the proposal is queued under its height and the height is announced |
| `ExecutorInstance.Instance.BeginExecute` | cita-executor/src/executor_instance.rs:106-186 | what an announced height leads to, by what is queued there and the stage, up to where execution proper begins |
| `ExecutorInstance.Instance.EndProposal` | cita-executor/src/executor_instance.rs:187-226 | a finished proposal waits, is committed for the decided block or is dropped, by what arrived meanwhile |
| `ExecutorInstance.Instance.EndBlock` | cita-executor/src/executor_instance.rs:117-165 | the decided block becomes the head and the stage is idle |
| `ExecutorInstance.Instance.SyncOne` | cita-executor/src/executor_instance.rs:542-599 | one turn of the synchronisation loop commits or stops as the stage machine does |
| `ExecutorInstance.Instance.SyncBlocks` | cita-executor/src/executor_instance.rs:565-599 | the whole loop ends in the state the machine reaches when nothing is enqueued in between |
| `AuthWindow.DeliverKeepsInv` | cita-auth/src/verifier.rs:119-161 | every delivery keeps the heights within the last BLOCKLIMIT up to the newest, and a ready window full |
| `AuthWindow.FullByCount` | cita-auth/src/verifier.rs:157-160 | a set of heights of the window's size within the window is the whole window |
| `AuthWindow.WindowHoldsLastDelivered` | cita-auth/src/verifier.rs:119-161 | in every sequence of deliveries each height in the window holds what was delivered for it last |
| `AuthWindow.ReadyCovers` | cita-auth/src/verifier.rs:119-161 | a ready window holds a height if and only if it is among the last BLOCKLIMIT |
| `AuthWindow.ReadyForEver` | cita-auth/src/verifier.rs:119-161 | once ready, the window stays ready and exact whatever is delivered later |
| `AuthWindow.DeliverEffect` | cita-auth/src/verifier.rs:119-161 | a delivery is taken exactly if it is at most one ahead and not below the window; then it is held, what is still in the window stays and the rest goes |
| `AuthWindow.FullIsReady` | cita-auth/src/verifier.rs:157-160 | as soon as every height of the window has been taken, in whatever order, it is ready |
| `AuthWindow.NotReadyRefuses` | cita-auth/src/verifier.rs:163-215 | until then nothing is accepted |
| `AuthWindow.SignatureDecides` | cita-auth/src/verifier.rs:197-236 | once the hash is out of the way nonce, signature and claimed signer decide |
| `AuthWindow.Verifier.UpdateHashes` | cita-auth/src/verifier.rs:119-161 | the window after one delivery, and the heights that must be asked for |
| `AuthWindow.Verifier.CheckHashExist` | cita-auth/src/verifier.rs:163-178 | finds a hash if and only if some height of the window holds it |
| `AuthWindow.Verifier.VerifyTx` | cita-auth/src/verifier.rs:197-236 | the verdict of the checks in their order |
| `AuthReplay.ReplaySafety` | cita-auth/src/handler.rs:47-165 | in every run a transaction accepted before block b and contained in b is never accepted again once b has arrived |
| `AuthReplay.RefusedOnceIncluded` | cita-auth/src/verifier.rs:163-250 | between any two reachable states: either block b is still in the window or the transaction is past its valid-until height |
| `AuthReplay.NewIsAccepted` | cita-auth/src/handler.rs:47-118 | a well-formed request without a verdict, valid until one of the next 100 blocks and in none of the last 100, is accepted |
| `AuthReplay.ValidUntilDecides` | cita-auth/src/verifier.rs:238-250 | a request outside its valid-until range is refused as such, and no other is |
| `AuthReplay.StepKeepsInv` | cita-auth/src/handler.rs:47-165 | no cached OK survives for a hash in the window |
| `AuthReplay.VerificationAloneForgets` | cita-auth/src/verifier.rs:197-250 | without the valid-until check an acceptable request is OK if and only if every block that contains its hash is older than the last BLOCKLIMIT |
| `AuthReplay.CleanIffNothingSlippedIn` | cita-auth/src/handler.rs:147-165 | forgetting and entering hashes are two locked sections; with any requests verified in between the cache stays clean if and only if the block is not taken or no hash of it has a last request that the window as it was finds OK |
| `AuthReplay.SlippedInIsAccepted` | cita-auth/src/handler.rs:75-165 | such a transaction is accepted again within its valid-until height although its hash is in the window |
| `AuthReplay.PurgedDeliveryIsClean` | cita-auth/src/handler.rs:147-165 | with nothing in between a delivery leaves no cached OK for a hash in the window |
| `AuthReplay.Service.HandleBlockTxHashes` | cita-auth/src/handler.rs:147-191 | forgets the verdicts, enters the hashes, and forwards the block if and only if it is the newest |
| `AuthReplay.Service.ForgetVerdicts` | cita-auth/src/handler.rs:155-159 | exactly the verdicts of the block's hashes are dropped |
| `AuthReplay.Service.VerifyTxGroup` | cita-auth/src/handler.rs:47-73 | each request gets the verdict of the window and is cached, last request first |
| `AuthReplay.Service.Preprocess` | cita-auth/src/handler.rs:75-118 | answers from the valid-until check or the cache, and every reply is the verdict single verification gives |
| `BlockVerification.OkIsTrustworthy` | cita-auth/src/handler.rs:195-482 | in any order of requests, answers and deliveries OK is published at most once for a request, only when all its transactions were found OK, and never together with a failure |
| `BlockVerification.EveryRequestIsAnswered` | cita-auth/src/handler.rs:195-482 | when no reply to the current request is outstanding it has been answered by OK, exactly once, if and only if all its transactions were found OK, and by a failure if and only if one was not |
| `BlockVerification.FailuresAreFew` | cita-auth/src/handler.rs:195-482 | in every run at most two failures are published for a request, and at most one unless the cache knew one when it came |
| `BlockVerification.RequestAnswersAtOnce` | cita-auth/src/handler.rs:229-318 | a new request is answered at once by the first failure the cache knows, or by OK if it knows all to be OK |
| `BlockVerification.ReplyAnswers` | cita-auth/src/handler.rs:439-482 | a failure is published as the worker found it, once; a reply to an older request publishes nothing |
| `BlockVerification.RunsKeepInv` | cita-auth/src/handler.rs:195-482 | the counters count: captured replies are the transactions found OK, and every other one is in flight or has failed |
| `BlockVerification.StopAt` | cita-auth/src/handler.rs:229-284 | the scan stops at the first transaction the cache knows to be bad |
| `BlockVerification.Needed` | cita-auth/src/handler.rs:229-304 | exactly the transactions before it that the cache does not know are handed to workers, once each and in order |
| `BlockVerification.Handler.HandleVerifyBlockReq` | cita-auth/src/handler.rs:195-329 | status, jobs and published answers after a new request |
| `BlockVerification.Handler.Scan` | cita-auth/src/handler.rs:229-284 | the loop finds the stop, the hits and the jobs |
| `BlockVerification.Handler.HandleVerificationResult` | cita-auth/src/handler.rs:439-482 | status and published answers after a reply |
| `Blooms.NoFalseNegatives` | cita-chain/types/src/filter.rs:71-111 | if a filter without empty slots matches an entry, one of its possibilities is contained in the entry's bloom |
| `Blooms.NoPossibilities` | cita-chain/types/src/filter.rs:71-98 | a filter has no possibilities if and only if one of its slots is an empty list |
| `Blooms.SlotLaws` | cita-chain/types/src/filter.rs:100-111 | a free slot lets everything pass, one topic asks for itself at its place, alternatives are a disjunction |
| `Blooms.TopicLaws` | cita-chain/types/src/filter.rs:100-111 | the same for a slot within a whole filter |
| `Blooms.AddressLaws` | cita-chain/types/src/filter.rs:100-111 | the same for addresses |
| `Blooms.PossibilitiesSelect` | cita-chain/types/src/filter.rs:71-98 | every possibility asks for one of the addresses and one of the topics of each slot |
| `Blooms.FoldTopicsIsUnion` | cita-chain/types/src/log_entry.rs:69-74 | the bloom of an entry has the bits of its address and topics and no others |
| `Blooms.FoldLogsIsUnion` | cita-chain/types/src/receipt.rs:140-152 | the bloom of a receipt has the bits of its entries and no others |
| `Blooms.FoldTopicsContains` | cita-chain/types/src/log_entry.rs:69-74 | the bloom of an entry contains its address and all its topics |
| `Blooms.FoldLogsContains` | cita-chain/types/src/receipt.rs:140-152 | the bloom of a receipt contains that of each of its entries |
| `LogIndex.GetLogsIsNaiveScan` | cita-chain/core/src/libchain/chain.rs:760-864 | the query by blooms, sorting, backward walk and limit equals the naive scan from the oldest to the newest block, numbered forwards, filtered and cut to the last entries |
| `LogIndex.QueryFinds` | cita-chain/core/src/libchain/chain.rs:760-864 | without a limit a log is found if and only if it is in a block of the range and the filter matches it |
| `LogIndex.AlternativesAreUnion` | cita-chain/core/src/libchain/chain.rs:854-864 | a query with alternatives in a slot finds a log if and only if one of the queries with a part of them does |
| `LogIndex.OneTopicFilters` | cita-chain/core/src/libchain/chain.rs:854-864 | a query for one topic finds what the query without it finds and that has the topic there |
| `LogIndex.AddressQueries` | cita-chain/core/src/libchain/chain.rs:854-864 | the same two for addresses |
| `LogIndex.FreeFilterFindsAll` | cita-chain/core/src/libchain/chain.rs:854-864 | a filter that asks for nothing finds every log of the range |
| `LogIndex.ScanLocates` | cita-chain/core/src/libchain/chain.rs:780-822 | the k-th log of a block carries index k, and entry and hash are those at its own indices |
| `LogIndex.ScanHolds` | cita-chain/core/src/libchain/chain.rs:780-822 | every log of a block is there, where the logs before it say |
| `LogIndex.WalkIsScanIffGapFree` | cita-chain/core/src/libchain/chain.rs:780-822 | the backward walk of a block is the reverse of the forward scan if and only if no receipt is missing behind one that has logs |
| `LogIndex.WalkBlockReports` | cita-chain/core/src/libchain/chain.rs:780-822 | in every block each log is reported once and in order, under the transaction that is too far back by the missing receipts behind it |
| `LogIndex.MatchIsPreselected` | cita-chain/core/src/libchain/chain.rs:831-864 | a block in range that holds a matching log is preselected by the blooms |
| `LogIndex.WalkFindsScan` | cita-chain/core/src/libchain/chain.rs:760-829 | skipping blocks that were not preselected loses nothing |
| `LogIndex.SortSorts` | cita-chain/core/src/libchain/chain.rs:765-766 | the block numbers are in descending order and none is lost |
| `LogIndex.BlockBloomContains` | cita-executor/core/src/libexecutor/block.rs:487-504 | the bloom of a header contains that of each log of the block |
| `LogIndex.EmptySlotFindsNothing` | cita-chain/core/src/libchain/chain.rs:854-864 | a filter with an empty slot finds nothing whatever the chain holds |
| `LocalizedReceipts.ReceiptsAgreeWithLogs` | cita-chain/core/src/libchain/chain.rs:650-717 | receipt by receipt one finds the logs of the backward walk, with the same hash and the same three indices |
| `LocalizedReceipts.GasTelescopes` | cita-chain/core/src/libchain/chain.rs:650-717 | the reported gas adds up to the last cumulative value if no lookup overflows |
| `LocalizedReceipts.LookupGas` | cita-chain/core/src/libchain/chain.rs:650-717 | a receipt reports the stored cumulative gas and its difference to the last one before it |
| `LocalizedReceipts.LookedUpIsScan` | cita-chain/core/src/libchain/chain.rs:650-717 | the logs found receipt by receipt are those of the forward scan |
| `StoreKeys.KeysApart` | cita-chain/core/src/libchain/extras.rs:48-233 | within a column different keys have different bytes, given that no block hash is a reserved key |
| `StoreKeys.NumberKeyDropsHighBits` | cita-chain/core/src/libchain/extras.rs:158-170 | two block numbers share the five-byte key if and only if they agree modulo 2^32 |
| `StoreKeys.BytesRoundTrip` | cita-chain/core/src/libchain/extras.rs:118-156 | the bytes of a number give back the number modulo their range |
| `StoreKeys.MostSignificantFirst` | cita-chain/core/src/libchain/extras.rs:118-156 | the first byte is the most significant one |
| `StoreKeys.NumberKeyFormats` | cita-chain/core/src/libchain/extras.rs:122-170 | tags and lengths of the keys made of numbers |
| `StoreKeys.HashKeyFormats` | cita-chain/core/src/libchain/extras.rs:78-196 | tags of the keys made of hashes |
| `StoreKeys.BloomKeyFormat` | cita-chain/core/src/libchain/extras.rs:220-233 | the parts of a bloom group's key |
| `CachedStore.CachedReadsArePlainReads` | cita-chain/core/src/db.rs:106-225 | after every sequence of commits, cached reads and evictions a cached read, a database read and a plain map agree |
| `CachedStore.RunRefines` | cita-chain/core/src/db.rs:106-225 | the store of bytes and caches refines the plain map throughout |
| `CachedStore.LastWriteCounts` | cita-chain/core/src/db.rs:106-144 | of the writes of a batch the last one to a key counts |
| `CachedStore.RememberLaws` | cita-chain/core/src/db.rs:106-144 | a write remembers its value or forgets the key; the rest of the cache stays |
| `CachedStore.ReadRemembers` | cita-chain/core/src/db.rs:185-203 | a value read from the database is remembered, one that is not there is not |
| `CachedStore.Database.WriteWithCache` | cita-chain/core/src/db.rs:106-122 | the plain map gets the value; the cache gets it or forgets the key |
| `CachedStore.Database.ExtendWithCache` | cita-chain/core/src/db.rs:124-144 | the same for many values, in whatever order |
| `CachedStore.Database.ReadWithCache` | cita-chain/core/src/db.rs:185-203 | returns what the plain map holds, and may remember it |
| `CachedStore.Database.ExistsWithCache` | cita-chain/core/src/db.rs:211-225 | true if and only if the plain map has the key |
| `CachedStore.Database.Forget` | cita-chain/core/src/libchain/chain.rs:1051-1097 | evicting cached values changes nothing a reader sees |
| `CacheManager.Manager.CollectGarbage` | cita-chain/core/src/cache_manager.rs:57-75 | evicts the oldest k generations, k being the least count that brings the size under the maximum, or all eight; below the preferred size none |
| `CacheManager.EvictionSplits` | cita-chain/core/src/cache_manager.rs:57-75 | evicted and kept ids are disjoint and together all ids |
| `CacheManager.NotedLosesNothing` | cita-chain/core/src/cache_manager.rs:45-55 | a noted id is in the youngest generation and in no other, and no id is lost |
| `CacheManager.RotatedLosesNothing` | cita-chain/core/src/cache_manager.rs:77-87 | rotation keeps eight disjoint generations and loses no id |
| `CacheManager.RotatedAges` | cita-chain/core/src/cache_manager.rs:77-87 | rotation makes every generation one older and the oldest the youngest |
| `CacheManager.ShiftedAges` | cita-chain/core/src/cache_manager.rs:57-75 | the generations kept become older by as many as were evicted |
| `CacheManager.Manager.NoteUsed` | cita-chain/core/src/cache_manager.rs:45-55 | exactly this id moves to the youngest generation |
| `CacheManager.Manager.RotateCacheIfNeeded` | cita-chain/core/src/cache_manager.rs:77-87 | rotates if and only if the youngest generation is over its share |
| `ChainCommit.CommittedTransactionsResolve` | cita-chain/core/src/libchain/chain.rs:603-648 | in every run, right after a block is committed each of its transactions is found under its hash, at a position that holds it |
| `ChainCommit.TransactionsResolveForEver` | cita-chain/core/src/libchain/chain.rs:603-648 | if no body is stored at a committed height and the genesis block is not installed again, every transaction ever committed is found under its hash at every later time |
| `ChainCommit.StoredBodyKeepsLookup` | cita-chain/src/forward.rs:387-407 | storing any body keeps a committed transaction findable if and only if its block is at another height or the body has it in the same place |
| `ChainCommit.HeadCanBeReplaced` | cita-chain/src/forward.rs:387-407 | a synchronised block of the head's height with a proof of the head replaces the committed body |
| `ChainCommit.RunKeepsQueue` | cita-chain/core/src/libchain/chain.rs:283-412 | in every run the body of each queued block is the stored body of its height |
| `ChainCommit.RunKeepsLog` | cita-chain/core/src/libchain/chain.rs:283-412 | in such a run every committed block is found by hash and height, and every address points at a committed transaction |
| `ChainCommit.DecidedBlockCommits` | cita-chain/core/src/libchain/chain.rs:442-495 | a decided block that extends the head is stored when it comes and committed with its result; what is queued above stays |
| `ChainCommit.SyncedBlockCommits` | cita-chain/core/src/libchain/chain.rs:442-495 | so is a synchronised block whose proof is for the head or the last stored height |
| `ChainCommit.ProofCompletes` | cita-chain/src/forward.rs:387-431 | a proof completes the queued block it is for, once |
| `ChainCommit.OtherBlocksAreDropped` | cita-chain/src/forward.rs:256-431 | blocks that do not connect are dropped without a trace |
| `ChainCommit.OtherResultsCommitNothing` | cita-chain/core/src/libchain/chain.rs:442-495 | a result for the head or for a height not queued commits nothing |
| `ChainCommit.LastIndex` | cita-chain/core/src/libchain/block.rs:135-149 | of transactions with the same hash the last one is addressed |
| `ChainCommit.Chain.TransactionAddresses` | cita-chain/core/src/libchain/block.rs:135-149 | the loop gives each transaction hash the block and its last position |
| `ChainCommit.Chain.SetBlockBody` | cita-chain/core/src/libchain/chain.rs:1011-1028 | the body is stored under its height |
| `ChainCommit.Chain.ConsensusBlockEnqueue` | cita-chain/src/forward.rs:256-284 | queues and stores the next block, ignores any other |
| `ChainCommit.Chain.AddSyncBlock` | cita-chain/src/forward.rs:334-431 | queues and stores a synchronised block whose proof is for the head or the last stored height, and completes the proof of the one before |
| `ChainCommit.Chain.SetDbResult` | cita-chain/core/src/libchain/chain.rs:283-412 | header, body, hash and addresses of the committed block |
| `ChainCommit.Chain.SetExecutedResult` | cita-chain/core/src/libchain/chain.rs:442-495 | commits the queued block if it extends the head and drops what is below it; a result of height 0 installs the genesis block |
| `BlockSync.BatchIsLongestRun` | cita-network/src/synchronizer.rs:282-339 | the batch is the longest run of consecutive blocks above the current height, of at most 21, with the proof carrier if and only if nothing else remains; the last unproved block is kept |
| `BlockSync.EndIsLastProved` | cita-network/src/synchronizer.rs:321-339 | the heights the batch proves are exactly those above the current one up to the end of synchronisation |
| `BlockSync.NextBatchOverlaps` | cita-network/src/synchronizer.rs:47-96 | once the chain has reached that end, the next batch begins with the block kept |
| `BlockSync.RunsKeepInv` | cita-network/src/synchronizer.rs:47-155 | in every reachable state the current height is at most the end of synchronisation, recorded heights exceed it and come from peers that announced them, and the global height is at least every announced one |
| `BlockSync.RequestsAreAimed` | cita-network/src/synchronizer.rs:185-269 | in every run every request goes to a peer that announced a height above the current one and asks only for heights above it |
| `BlockSync.RemoteStatusAsks` | cita-network/src/synchronizer.rs:98-136 | an idle node more than one block behind asks for exactly the heights up to the announced one, one that is synchronising only for news, any other for nothing; and what becomes of the flags |
| `BlockSync.LocalStatusAsks` | cita-network/src/synchronizer.rs:47-96 | which heights are asked for when the node fell back, is behind, at or beyond the end of synchronisation; and what becomes of the flags |
| `BlockSync.AskCovers` | cita-network/src/synchronizer.rs:185-269 | the requests of one call together ask one peer of the greatest height for exactly the heights in order |
| `BlockSync.AnnouncementsAreKept` | cita-network/src/synchronizer.rs:341-354 | announcements above the current height stay recorded, each peer in turn, until the height is reached |
| `BlockSync.AnyPeerMayBeAsked` | cita-network/src/synchronizer.rs:204-211 | any of the peers that announced the greatest height may be asked |
| `BlockSync.ArrivedIsFiled` | cita-network/src/synchronizer.rs:142-155 | of the blocks that arrive for a height the last one is kept |
| `BlockSync.ChunksCover` | cita-network/src/synchronizer.rs:220-250 | the requests together ask for every height once, in order, twenty each except the last |
| `BlockSync.AllAreCandidates` | cita-network/src/synchronizer.rs:196-199 | with any peers at all the integer quotient admits every recorded height |
| `BlockSync.Greatest` | cita-network/src/synchronizer.rs:196-199 | the greatest recorded height is chosen |
| `BlockSync.RunLength` | cita-network/src/synchronizer.rs:298-309 | the count of consecutive blocks is maximal within its limit |
| `BlockSync.Synchronizer.SyncStrategy` | cita-network/src/synchronizer.rs:220-250 | the loop sends the requests of the specification |
| `BlockSync.Synchronizer.StartSyncReq` | cita-network/src/synchronizer.rs:185-218 | requests go to one peer of the greatest recorded height |
| `BlockSync.Synchronizer.TakeRun` | cita-network/src/synchronizer.rs:294-309 | the loop takes out exactly the longest run |
| `BlockSync.Synchronizer.SubmitBlocks` | cita-network/src/synchronizer.rs:282-319 | the state and the batch of the specification |
| `BlockSync.Synchronizer.PubBlocks` | cita-network/src/synchronizer.rs:321-339 | an empty batch is not published and changes nothing |
| `BlockSync.Synchronizer.UpdateCurrentStatus` | cita-network/src/synchronizer.rs:47-96 | the step for a local status |
| `BlockSync.Synchronizer.UpdateGlobalStatus` | cita-network/src/synchronizer.rs:98-136 | the step for a status announced by a peer |
| `BlockSync.Synchronizer.AddLatestSyncLists` | cita-network/src/synchronizer.rs:341-354 | the peer is appended to those of the height |
| `BlockSync.Synchronizer.ProcessSync` | cita-network/src/synchronizer.rs:142-155 | the step for a response: blocks are filed under their heights, then submitted |
| `FrameCodec.StreamRoundTrip` | cita-network/src/citaprotocol.rs:102-180 | frames of messages and heartbeats sent one after the other are decoded in order, with nothing left over |
| `FrameCodec.FrameRoundTrip` | cita-network/src/citaprotocol.rs:102-180 | a frame followed by anything is decoded to what was encoded and taken off |
| `FrameCodec.PartialFrameWaits` | cita-network/src/citaprotocol.rs:128-147 | a strict prefix of a frame is not decoded and stays in the buffer |
| `FrameCodec.RoundTripIffFits` | cita-network/src/citaprotocol.rs:102-126 | a message survives if and only if its key has 1 to 255 bytes and the payload is shorter than 2^32 |
| `FrameCodec.FrameLayout` | cita-network/src/citaprotocol.rs:46-61 | magic number, length, key length, key and body are where the format says |
| `FrameCodec.HeartbeatLayout` | cita-network/src/citaprotocol.rs:121-125 | the eight bytes of a heartbeat |
| `FrameCodec.BadFrameIsSkipped` | cita-network/src/citaprotocol.rs:153-174 | a frame whose key is empty, too long for it or no text is skipped as a whole |
| `FrameCodec.MalformedIsLeft` | cita-network/src/citaprotocol.rs:133-139 | a buffer that does not start with the magic number is left alone |
| `FrameCodec.TextIsUtf8` | cita-network/src/citaprotocol.rs:169-175 | the UTF-8 encoding of every text is accepted as a key |
| `FrameCodec.Utf8IsText` | cita-network/src/citaprotocol.rs:169-175 | and every key accepted is the encoding of a text |
| `FrameCodec.FragmentsKeepOrder` | cita-network/src/citaprotocol.rs:69-77 | however a stream is cut into reads, what has been delivered is always the messages of its first frames, and the rest is still in the buffer |
| `FrameCodec.FragmentsDeliverWholeFrames` | cita-network/src/citaprotocol.rs:69-77 | without heartbeats every whole frame that has arrived has been delivered, however the stream was cut; every cut of a whole stream delivers all of it and empties the buffer |
| `FrameCodec.OneReadDeliversIff` | cita-network/src/citaprotocol.rs:149-151 | one read of a whole stream delivers all of it if and only if no heartbeat is followed by another frame |
| `FrameCodec.Buffer.PutMessage` | cita-network/src/citaprotocol.rs:102-126 | appends exactly the frame |
| `FrameCodec.Buffer.TakeMessage` | cita-network/src/citaprotocol.rs:128-180 | returns the message and leaves the rest as the specification of decoding says |
| `PeerList.Connection.Update` | cita-network/src/connection.rs:65-103 | the peers still configured stay in order with their streams, then come the new addresses; without a list all go |
| `PeerList.Connection.AddNew` | cita-network/src/connection.rs:74-84 | each new address is appended once, in the order of the configuration, without a stream |
| `PeerList.Connection.RemoveStale` | cita-network/src/connection.rs:85-95 | the loop ends, keeps the two lists aligned and removes exactly the peers no longer configured |
| `PeerList.Connection.Position` | cita-network/src/connection.rs:86-88 | the first address that is not configured |
| `PeerList.UpdatedAddresses` | cita-network/src/connection.rs:65-103 | after an update the addresses are exactly the configured ones |
| `PeerList.UpdatedOnce` | cita-network/src/connection.rs:65-103 | a list without repeated addresses stays one |
| `PeerList.UpdateIsIdempotent` | cita-network/src/connection.rs:65-103 | updating again with the same configuration changes nothing |
| `PeerList.AddedOnce` | cita-network/src/connection.rs:74-84 | no new address is added twice |
| `PeerList.AddedFromConfig` | cita-network/src/connection.rs:74-84 | a new peer has the id of the first entry with its address and no stream |
| `PeerList.AddedInOrder` | cita-network/src/connection.rs:74-84 | new peers come in the order of the configuration |

## Left out

- `MessageCalls.Executive.Create`: stated for creations at addresses that hold no account with a storage trie, because a revert need not restore one that a creation replaced (`StateJournal.RecreateThenRevert`).
- `MessageCalls.Executive.Call`: likewise for the creations in the tree.
- `MessageCalls.Executive.RunActions`: likewise.
- `MessageCalls.Executive.RunAction`: likewise.
- `MessageCalls.Executive.ExecVm`: likewise.
- `Transactions.Transact`: likewise.
- `Transactions.Execute`: likewise.
- `BlockExecution.OpenBlock.ApplyTransaction`: likewise; a negative account quota, which only the exempt sender can reach, stands for the panic of the program's unsigned subtraction.
- `BlockExecution.OpenBlock.ApplyTransactions`: likewise.
- `Transactions.GasIsConserved`: the quota bounds are for senders other than the zero address, which the program exempts.
- `ExecutorStages.CommitsAgree`: one direction only, under a condition on proposals; `ExecutorStages.CommitsAgreeIff` is exact.
- `ChainCommit.Chain.AddSyncBlock`: blocks whose transaction root does not fit end the batch they came in before they get here.
- `ChainCommit.TransactionsResolveForEver`: assumes that different headers have different hashes.
- `BlockSync.AllAreCandidates`: with no peers at all the program divides by zero; at least one is assumed. A two-thirds quorum is not claimed, because the quotient is 0.
- `BlockSync.BatchIsLongestRun`: heights are unbounded; overflow near 2^64 is not modelled.
- `BlockVerification.FailuresAreFew`: two failures, not one, because a failure the cache knew is not recorded and a later reply may publish another.
- `CachedStore.CachedReadsArePlainReads`: does not say that every cached key is known to the cache manager, because one read does not note its key (cita-chain/core/src/libchain/chain.rs:416-417).
- `FrameCodec.FragmentsKeepOrder`: the loop that decodes until nothing is returned belongs to the tokio library and is modelled by its contract.
- Commit of the state to the trie, eviction of remembered slots, loading of code and tracing.
- Overflow of 256-bit gas and nonces; nonces are taken to be far below the bound.
- The bloom index over groups of blocks: the blocks preselected are taken to be those whose header bloom contains a possibility.
- Interleavings within a single locked section. Each thread of the executor has its own cell for the closed block, so clearing it in the enqueuing thread (cita-executor/src/executor_instance.rs:422) does not reach the executing one; the model has the latter only.
- Where permissions, quotas and other settings come from, precompiled and native contracts beyond their result and gas.
- Message queue, TCP, JSON-RPC, configuration files, RLP and protobuf encodings, and the error tags of receipts, whose encoding and decoding differ.
- Consensus, transaction pool, snapshot and tools.
- The executor's own copies of the cached database, cache manager and blooms, which repeat those of the chain service.
