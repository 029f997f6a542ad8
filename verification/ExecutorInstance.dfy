/**
 The executor instance as an object: handlers that update its fields in place
 (cita-executor/src/executor_instance.rs). Every method is one step of the
 machine in `ExecutorStages`, whose runs are what the theorems there are about.
 */
module ExecutorInstance {
  import opened Basics
  import opened ExecutorStages

  class Instance {
    const world: World
    var head: Header
    var blockMap: map<nat, Queued>
    var stage: Stage
    var isInterrupted: bool
    var isSync: bool
    var maxHeight: nat
    var closedBlock: Option<Header>
    var channel: seq<nat>
    /** What the executing thread is in the middle of. */
    var work: Work
    /** Everything committed so far. */
    ghost var log: seq<Commit>

    ghost function View(): State
      reads this
    {
      State(head, blockMap, stage, isInterrupted, maxHeight, closedBlock, channel, work, log)
    }

    ghost predicate Valid()
      reads this
    {
      Inv(world, View()) && isSync == work.OnSync?
    }

    constructor (world: World, head: Header)
      ensures Valid() && this.world == world && View() == Init(head)
    {
      this.world := world;
      this.head := head;
      blockMap := map[];
      stage := Idle;
      isInterrupted := false;
      isSync := false;
      maxHeight := head.number;
      closedBlock := None;
      channel := [];
      work := Resting;
      log := [];
    }

    method SendBlock(b: Block)
      modifies `blockMap, `maxHeight, `channel
      ensures View() == ExecutorStages.SendBlock(old(View()), b)
    {
      blockMap := blockMap[b.number := ConsensusBlock(b)];
      maxHeight := b.number;
      channel := channel + [b.number];
    }

    method SendProposal(b: Block)
      modifies `blockMap, `channel
      ensures View() == ExecutorStages.SendProposal(old(View()), b)
    {
      blockMap := blockMap[b.number := Proposal(b)];
      channel := channel + [b.number];
    }

    method ConsensusBlockEnqueue(b: Block)
      requires Valid()
      modifies this
      ensures Valid() && View() == Step(world, old(View()), ConsensusArrives(b))
    {
      InvStep(world, View(), ConsensusArrives(b));
      if b.number <= head.number {
        return;
      }
      var queued := Get(blockMap, b.number);
      if head.number + 1 == b.number && world.hashOf(head) == b.parent {
        match stage {
          case ExecutingProposal =>
            if queued.Some? && queued.value.Proposal? {
              if queued.value.block.txRoot != b.txRoot {
                if !isInterrupted {
                  isInterrupted := true;
                }
                SendBlock(b);
              } else {
                SendBlock(b);
              }
            }
          case WaitFinalized =>
            if queued.Some? && queued.value.Proposal? {
              if queued.value.block.txRoot != b.txRoot && !isInterrupted {
                isInterrupted := true;
              }
              SendBlock(b);
            }
          case Idle => SendBlock(b);
          case ExecutingBlock =>
        }
      }
    }

    method ProposalEnqueue(b: Block)
      requires Valid()
      modifies this
      ensures Valid() && View() == Step(world, old(View()), ProposalArrives(b))
    {
      InvStep(world, View(), ProposalArrives(b));
      if isSync {
        return;
      }
      var queued := Get(blockMap, b.number);
      if head.number + 1 == b.number && world.hashOf(head) == b.parent {
        match stage {
          case ExecutingProposal =>
            if queued.Some? && queued.value.Proposal? && queued.value.block.txRoot != b.txRoot {
              if !isInterrupted {
                isInterrupted := true;
              }
              SendProposal(b);
            }
          case WaitFinalized =>
            if queued.Some? && queued.value.Proposal? && queued.value.block.txRoot != b.txRoot {
              SendProposal(b);
            }
          case Idle => SendProposal(b);
          case ExecutingBlock =>
        }
      }
    }

    /** One block of a synchronisation response. */
    method SyncBlockEnqueue(b: Block)
      requires Valid()
      modifies this
      ensures Valid() && View() == Step(world, old(View()), SyncArrives(b))
    {
      InvStep(world, View(), SyncArrives(b));
      if b.number < maxHeight || b.number <= head.number {
        return;
      }
      var proofHeight := if b.proof.height == U64_MAX then 0 else b.proof.height;
      var prev := Get(blockMap, proofHeight);
      var unproved := prev.Some? && prev.value.SyncBlock? && prev.value.proof.None?;
      if b.number != U64_MAX {
        if proofHeight == maxHeight {
          if unproved {
            blockMap := blockMap[proofHeight := SyncBlock(prev.value.block, Some(b.proof))];
          }
          maxHeight := b.number;
          blockMap := blockMap[b.number := SyncBlock(b, None)];
        }
      } else if proofHeight > head.number {
        if unproved {
          blockMap := blockMap[proofHeight := SyncBlock(prev.value.block, Some(b.proof))];
        }
      }
    }

    /** After a synchronisation response: wake the executing thread. */
    method WakeForSync()
      requires Valid()
      modifies this
      ensures Valid() && View() == Step(world, old(View()), SyncEnds)
    {
      if !isSync {
        channel := channel + [head.number + 1];
      }
    }

    method CleanMap()
      modifies `blockMap
      ensures View() == Clean(old(View()))
    {
      blockMap := map n | n in blockMap && n >= head.number :: blockMap[n];
    }

    /** The head becomes `header`. */
    method CommitBlock(header: Header, ghost decided: Block)
      modifies `head, `log
      ensures View() == CommitHeader(old(View()), header, decided)
    {
      head := header;
      log := log + [Commit(header, decided)];
    }

    /** `execute_block` up to the point where execution proper begins. */
    method BeginExecute(roots: Hash)
      requires Valid() && work.Resting? && channel != []
      modifies this
      ensures Valid() && View() == Step(world, old(View()), Take(roots))
    {
      hide Inv;
      InvStep(world, View(), Take(roots));
      WaitingIsClosed(world, View());
      var number := channel[0];
      channel := channel[1..];
      if number in blockMap {
        match blockMap[number] {
          case ConsensusBlock(b) =>
            if head.number + 1 == b.number && world.hashOf(head) == b.parent {
              if isInterrupted {
                isInterrupted := false;
                stage := ExecutingBlock;
                work := OnBlock(Seal(b, roots), b, true);
              } else {
                match stage {
                  case WaitFinalized =>
                    stage := ExecutingBlock;
                    match closedBlock {
                      case Some(c) =>
                        closedBlock := None;
                        work := OnBlock(Settle(c, b), b, false);
                      case None =>
                        // The source warns here; the invariant rules it out.
                        assert false;
                    }
                  case Idle =>
                    stage := ExecutingBlock;
                    work := OnBlock(Seal(b, roots), b, true);
                  case _ =>
                    stage := Idle;
                    CleanMap();
                }
              }
            }
          case SyncBlock(_, proof) =>
            if proof.Some? && number == head.number + 1 {
              stage := ExecutingBlock;
              isSync := true;
              work := OnSync(number, blockMap);
            }
          case Proposal(p) =>
            if isInterrupted {
              isInterrupted := false;
            }
            stage := ExecutingProposal;
            work := OnProposal(p);
        }
      }
    }

    /** Execution of a proposal returns; `noticed` if it saw the interrupt. */
    method EndProposal(roots: Hash, noticed: bool)
      requires Valid() && work.OnProposal?
      modifies this
      ensures Valid() && View() == Step(world, old(View()), FinishProposal(roots, noticed))
    {
      InvStep(world, View(), FinishProposal(roots, noticed));
      var closed := Seal(work.block, roots);
      var number := work.block.number;
      work := Resting;
      if isInterrupted && noticed {
        return;
      }
      if isInterrupted {
        isInterrupted := false;
        return;
      }
      if number in blockMap {
        match blockMap[number] {
          case ConsensusBlock(b) =>
            if b.txRoot == closed.txRoot {
              CommitBlock(Settle(closed, b), b);
              stage := Idle;
            }
          case Proposal(_) =>
            closedBlock := Some(closed);
            stage := WaitFinalized;
          case SyncBlock(_, _) =>
        }
      }
    }

    /** Execution of a consensus block returns. */
    method EndBlock()
      requires Valid() && work.OnBlock?
      modifies this
      ensures Valid() && View() == Step(world, old(View()), FinishBlock)
    {
      InvStep(world, View(), FinishBlock);
      if !(work.interruptible && isInterrupted && work.decided.txCount > 0) {
        CommitBlock(work.header, work.decided);
      }
      stage := Idle;
      work := Resting;
      CleanMap();
    }

    /** One turn of the loop in `sync_blocks`. */
    method SyncOne(roots: Hash)
      requires Valid() && work.OnSync?
      modifies this
      ensures Valid() && View() == Step(world, old(View()), SyncNext(roots))
    {
      hide Inv;
      InvStep(world, View(), SyncNext(roots));
      var number, todo := work.number, work.todo;
      if number in todo && todo[number].SyncBlock? && todo[number].proof.Some? {
        var b, proof := todo[number].block, todo[number].proof.value;
        if head.number + 1 == b.number && world.hashOf(head) == b.parent && world.proofOk(b, proof) {
          if !(isInterrupted && b.txCount > 0) {
            CommitBlock(Seal(b, roots), b);
          }
          work := OnSync(number + 1, todo - {number});
        } else {
          blockMap := map[];
          isSync := false;
          stage := Idle;
          work := Resting;
        }
      } else {
        isSync := false;
        stage := Idle;
        work := Resting;
        CleanMap();
      }
    }

    /** `sync_blocks`: commits queued blocks with proofs, height after height. */
    method SyncBlocks(roots: nat -> Hash)
      requires Valid() && work.OnSync?
      modifies this
      ensures Valid() && View() == SyncRun(world, old(View()), roots)
    {
      hide Inv, SyncTurn;
      ghost var s := View();
      while work.OnSync?
        invariant Valid()
        invariant work.OnSync? ==> SyncRun(world, View(), roots) == SyncRun(world, s, roots)
        invariant !work.OnSync? ==> View() == SyncRun(world, s, roots)
        decreases work.OnSync?, if work.OnSync? then |work.todo| else 0
      {
        ghost var before := View();
        SyncTurnCommits(world, before, roots(work.number));
        SyncOne(roots(work.number));
        if work.OnSync? {
          assert before.work.todo.Keys == work.todo.Keys + {before.work.number};
        }
      }
    }
  }
}
