/**
 The runtime as the source writes it: closure variables that each piece of code between two
 `await`s updates in place.  Every method is proved to be one action of the state machine in
 JobRuntime and keeps the object in a reachable state of that machine, so everything proved there
 about runs holds after any sequence of these calls.
 */
module JobRuntimeObject {
  import opened Options
  import opened JobRuntime

  class Runtime {
    const notifies: bool
    var running: bool
    var generationCounter: nat
    var activeGeneration: nat
    var activeLoop: Option<nat>
    var processingSlot: nat
    var released: set<nat>
    var subscribed: bool
    var wakeupResolve: Option<nat>
    var wakeupNotified: bool
    var loops: map<nat, Loop>
    var stopping: multiset<nat>
    var pending: multiset<Job>

    ghost function View(): State
      reads this
    {
      State(notifies, running, generationCounter, activeGeneration, activeLoop, processingSlot, released, subscribed,
            wakeupResolve, wakeupNotified, loops, stopping, pending)
    }

    /** The object is always in a state that some run of the machine reaches. */
    ghost predicate Valid()
      reads this
    {
      Reachable(View())
    }

    lemma ValidMeansInv()
      requires Valid()
      ensures Inv(View())
    {
      ReachableInv(View());
    }

    constructor (notifies: bool, pending: multiset<Job>)
      ensures Valid()
      ensures Init(View()) && View().notifies == notifies && View().pending == pending
    {
      this.notifies := notifies;
      running, generationCounter, activeGeneration, activeLoop := false, 0, 0, None;
      processingSlot, released := 0, {0};
      subscribed, wakeupResolve, wakeupNotified := false, None, false;
      loops, stopping := map[], multiset{};
      this.pending := pending;
      new;
      InitReachable(View());
    }

    method Signal()
      modifies this`wakeupResolve, this`wakeupNotified, this`loops
      ensures View() == SignalWakeup(old(View()))
    {
      if wakeupResolve.Some? {
        var resolved := wakeupResolve.value;
        wakeupResolve := None;
        wakeupNotified := false;
        loops := loops[resolved := Woken];
      } else {
        wakeupNotified := true;
      }
    }

    method Start()
      requires Valid()
      modifies this`running
      ensures Valid()
      ensures View() == ApplyControl(old(View()), Control.Start)
    {
      running := true;
      ReachableStep(old(View()), Controls(Control.Start), View());
    }

    method Stop()
      requires Valid()
      modifies this`running, this`activeGeneration, this`subscribed, this`wakeupResolve, this`wakeupNotified, this`loops
      ensures Valid()
      ensures View() == DoStop(old(View()))
    {
      running := false;
      activeGeneration := 0;
      Signal();
      Detach();
      ReachableStep(old(View()), Controls(Control.Stop), View());
    }

    /** `for (;;)` up to the `await previous` inside `runAutomaticNext`. */
    method EnterLoop(g: nat)
      modifies this`processingSlot, this`loops
      ensures View() == TopOfLoop(old(View()), g)
    {
      if activeGeneration != g || !running {
        loops := loops[g := Exited];
        return;
      }
      var previous := processingSlot;
      var slot := processingSlot + 1;
      processingSlot := slot;
      loops := loops[g := AwaitingSlot(previous, slot)];
    }

    method StartAutoProcessing()
      requires Valid()
      modifies this`running, this`generationCounter, this`activeGeneration, this`activeLoop, this`wakeupNotified, this`subscribed, this`processingSlot, this`loops
      ensures Valid()
      ensures View() == DoStartAuto(old(View()))
    {
      running := true;
      if activeGeneration == 0 {
        MintGeneration();
        EnterLoop(generationCounter);
      }
      ReachableStep(old(View()), Controls(StartAuto), View());
    }

    method MintGeneration()
      requires running
      modifies this`generationCounter, this`activeGeneration, this`activeLoop, this`wakeupNotified, this`subscribed
      ensures View() == BeginGeneration(old(View()))
    {
      generationCounter := generationCounter + 1;
      activeGeneration := generationCounter;
      wakeupNotified := false;
      if !subscribed && notifies {
        subscribed := true;
      }
      // The source records the loop after calling it; nothing the loop does before its first `await` reads it.
      activeLoop := Some(generationCounter);
    }

    /** No generation is active any more, and a sleeping loop is woken to find that out. */
    method Invalidate()
      modifies this`activeGeneration, this`wakeupResolve, this`wakeupNotified, this`loops
      ensures View() == SignalWakeup(old(View()).(activeGeneration := 0))
    {
      activeGeneration := 0;
      Signal();
    }

    /** `stopAutoProcessing` up to its `await`, or to its end when no loop is known. */
    method StopAutoProcessing()
      requires Valid()
      modifies this`activeGeneration, this`stopping, this`subscribed, this`wakeupResolve, this`wakeupNotified, this`loops
      ensures Valid()
      ensures View() == DoStopAuto(old(View()))
    {
      var stopped := activeLoop;
      Invalidate();
      if stopped.Some? {
        stopping := stopping + multiset{stopped.value};
      } else {
        DetachUnlessRestarted();
      }
      ReachableStep(old(View()), Controls(StopAuto), View());
    }

    method Detach()
      modifies this`subscribed, this`wakeupResolve, this`wakeupNotified
      ensures View() == Detached(old(View()))
    {
      subscribed := false;
      wakeupResolve := None;
      wakeupNotified := false;
    }

    method DetachUnlessRestarted()
      modifies this`subscribed, this`wakeupResolve, this`wakeupNotified
      ensures View() == FinishStopAuto(old(View()))
    {
      if activeGeneration == 0 {
        Detach();
      }
    }

    method ResumeStopAutoProcessing(g: nat)
      requires Valid()
      requires Enabled(View(), Controls(StopAutoResumes(g)))
      modifies this`stopping, this`subscribed, this`wakeupResolve, this`wakeupNotified
      ensures Valid()
      ensures View() == ApplyControl(old(View()), StopAutoResumes(g))
    {
      stopping := stopping - multiset{g};
      DetachUnlessRestarted();
      ReachableStep(old(View()), Controls(StopAutoResumes(g)), View());
    }

    /** `runAutomaticNext` after `await previous`, up to the `await` of the dequeue. */
    method ResumeWithSlot(g: nat, found: Dequeued)
      requires Valid()
      requires Enabled(View(), Operates(g, SlotGranted(found)))
      modifies this`released, this`loops, this`pending
      ensures Valid()
      ensures View() == ApplyOperation(old(View()), g, SlotGranted(found))
      ensures forall h: nat :: h in loops && loops[h].Working? ==> h == g
    {
      ValidMeansInv();
      forall h: nat | h in loops ensures !loops[h].Working? {
        GrantedAlone(View(), g, found, h);
      }
      var slot := loops[g].slot;
      if activeGeneration != g || !running {
        released := released + {slot};
        loops := loops[g := Released(None)];
      } else {
        if found.Found? {
          pending := pending - multiset{found.job};
        }
        loops := loops[g := Working(slot, Dequeuing(found))];
      }
      ReachableStep(old(View()), Operates(g, SlotGranted(found)), View());
    }

    /** `processNext` after one of its own `await`s. */
    method ResumeProcessNext(g: nat, op: Operation)
      requires Valid()
      requires Enabled(View(), Operates(g, op)) && !op.SlotGranted? && !op.OperationReturns?
      modifies this`loops, this`pending
      ensures Valid()
      ensures View() == ApplyOperation(old(View()), g, op)
    {
      var slot, stage := loops[g].slot, loops[g].stage;
      match op {
        case DequeueReturns =>
          match stage.found {
            case Nothing => loops := loops[g := Working(slot, Returning(Returns(Idle)))];
            case DequeueThrew => loops := loops[g := Working(slot, Returning(Throws))];
            case Found(job) => loops := loops[g := Working(slot, Processing(job))];
          }
        case ProcessReturns(result, requeued) =>
          if result == Stored {
            loops := loops[g := Working(slot, Acknowledging(stage.job))];
          } else {
            loops := loops[g := Working(slot, Rejecting(stage.job, result == StoreThrew))];
            GiveBack(stage.job, requeued);
          }
        case AcknowledgeReturns(ok, requeued) =>
          if ok {
            loops := loops[g := Working(slot, Returning(Returns(Completed(stage.job))))];
          } else {
            loops := loops[g := Working(slot, Rejecting(stage.job, true))];
            GiveBack(stage.job, requeued);
          }
        case RejectReturns(ok) =>
          if ok && !stage.rethrow {
            loops := loops[g := Working(slot, Returning(Returns(Failed(stage.job))))];
          } else {
            loops := loops[g := Working(slot, Returning(Throws))];
          }
      }
      ReachableStep(old(View()), Operates(g, op), View());
    }

    method GiveBack(job: Job, requeued: bool)
      modifies this`pending
      ensures pending == if requeued then old(pending) + multiset{job} else old(pending)
    {
      if requeued {
        pending := pending + multiset{job};
      }
    }

    /** `finally { release(); }` */
    method ReleaseSlot(g: nat)
      requires Valid()
      requires Enabled(View(), Operates(g, OperationReturns))
      modifies this`released, this`loops
      ensures Valid()
      ensures View() == ApplyOperation(old(View()), g, OperationReturns)
    {
      released := released + {loops[g].slot};
      loops := loops[g := Released(Some(loops[g].stage.settled))];
      ReachableStep(old(View()), Operates(g, OperationReturns), View());
    }

    /** `runLoop` after `await runAutomaticNext`, or after its sleep. */
    method ResumeLoop(g: nat)
      requires Valid()
      requires Enabled(View(), Turns(g, LoopResumes))
      modifies this`processingSlot, this`loops, this`wakeupResolve, this`wakeupNotified
      ensures Valid()
      ensures View() == ApplyTurn(old(View()), g, LoopResumes)
    {
      if loops[g] == Released(None) {
        loops := loops[g := Exited];
      } else if loops[g] == Released(Some(Returns(Idle))) {
        FallAsleep(g);
      } else {
        EnterLoop(g);
      }
      ReachableStep(old(View()), Turns(g, LoopResumes), View());
    }

    /** After an empty queue: leave when invalidated, consume a noted wakeup, or install a resolver and wait. */
    method FallAsleep(g: nat)
      modifies this`loops, this`wakeupResolve, this`wakeupNotified
      ensures View() == GoIdle(old(View()), g)
    {
      if activeGeneration != g || !running {
        loops := loops[g := Exited];
      } else if subscribed && wakeupNotified {
        wakeupNotified := false;
        loops := loops[g := Woken];
      } else {
        wakeupResolve := Some(g);
        loops := loops[g := Blocked(!subscribed)];
      }
    }

    method ExpireDelay(g: nat)
      requires Valid()
      requires Enabled(View(), Turns(g, DelayExpires))
      modifies this`loops, this`wakeupResolve, this`wakeupNotified
      ensures Valid()
      ensures View() == ApplyTurn(old(View()), g, DelayExpires)
    {
      if wakeupResolve.Some? {
        wakeupResolve := None;
        wakeupNotified := false;
      }
      loops := loops[g := Woken];
      ReachableStep(old(View()), Turns(g, DelayExpires), View());
    }

    method JoinLoop(g: nat)
      requires Valid()
      requires Enabled(View(), Turns(g, LoopJoins))
      modifies this`loops, this`activeLoop
      ensures Valid()
      ensures View() == ApplyTurn(old(View()), g, LoopJoins)
    {
      if activeLoop == Some(g) {
        activeLoop := None;
      }
      loops := loops[g := Joined];
      ReachableStep(old(View()), Turns(g, LoopJoins), View());
    }

    method Enqueue(job: Job)
      requires Valid()
      modifies this`pending, this`loops, this`wakeupResolve, this`wakeupNotified
      ensures Valid()
      ensures View() == ApplyQueueing(old(View()), Queueing.Enqueue(job))
    {
      pending := pending + multiset{job};
      if subscribed {
        Signal();
      }
      ReachableStep(old(View()), Queues(Queueing.Enqueue(job)), View());
    }

    /** Automatic mode is on exactly while a loop of the newest generation, which is running, will go on consuming. */
    method IsAutoProcessing() returns (yes: bool)
      requires Valid()
      ensures yes <==> exists g: nat :: g in loops && g == activeGeneration && !loops[g].Exited? && !loops[g].Joined?
      ensures yes ==> running && activeGeneration == generationCounter && activeLoop == Some(activeGeneration)
    {
      ValidMeansInv();
      assert Generations(View());
      yes := activeGeneration != 0;
    }
  }
}
