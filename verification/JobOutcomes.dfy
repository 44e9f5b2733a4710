/**
 What an automatic operation does and answers, read off the steps it took: the laws of `processNext`
 over whole runs, the account of the queue's jobs, and what stopping and starting mean.
 */
module JobOutcomes {
  import opened Options
  import opened JobRuntime
  import opened JobProgress

  // ---------------------------------------------------------------- what an operation did

  /** The steps of a generation's operation since it was granted its slot, oldest first. */
  function StepsSince(actions: seq<Action>, g: nat): seq<Operation> {
    if actions == [] then []
    else
      var init, last := actions[..|actions| - 1], actions[|actions| - 1];
      if !last.Operates? || last.g != g then StepsSince(init, g)
      else if last.op.SlotGranted? then [last.op]
      else StepsSince(init, g) + [last.op]
  }

  ghost predicate FoundNothing(steps: seq<Operation>) {
    steps == [SlotGranted(Nothing), DequeueReturns]
  }

  /** The job was dequeued and handed to the processor, whose result was stored or not. */
  ghost predicate Processed(steps: seq<Operation>, job: Job, result: ProcessResult) {
    && |steps| >= 3 && steps[0] == SlotGranted(Found(job)) && steps[1] == DequeueReturns
    && steps[2].ProcessReturns? && steps[2].result == result
  }

  /** Processed, stored and acknowledged. */
  ghost predicate DidComplete(steps: seq<Operation>, job: Job) {
    |steps| == 4 && Processed(steps, job, Stored) && steps[3].AcknowledgeReturns? && steps[3].ok
  }

  /** The processor failed, and the job was given back. */
  ghost predicate DidFail(steps: seq<Operation>, job: Job) {
    |steps| == 4 && Processed(steps, job, ProcessorThrew) && steps[3] == RejectReturns(true)
  }

  /** Stored, but the acknowledgement failed. */
  ghost predicate NotAcknowledged(steps: seq<Operation>, job: Job) {
    |steps| >= 4 && Processed(steps, job, Stored) && steps[3].AcknowledgeReturns? && !steps[3].ok
  }

  /** The dequeue failed; or the store, the acknowledgement, or the giving back of a failed job did. */
  ghost predicate DidThrow(steps: seq<Operation>) {
    || steps == [SlotGranted(DequeueThrew), DequeueReturns]
    || (exists job :: |steps| == 4 && Processed(steps, job, StoreThrew) && steps[3].RejectReturns?)
    || (exists job :: |steps| == 4 && Processed(steps, job, ProcessorThrew) && steps[3] == RejectReturns(false))
    || (exists job :: |steps| == 5 && NotAcknowledged(steps, job) && steps[4].RejectReturns?)
  }

  ghost predicate Settles(settled: Settled, steps: seq<Operation>) {
    match settled
    case Returns(Idle) => FoundNothing(steps)
    case Returns(Completed(job)) => DidComplete(steps, job)
    case Returns(Failed(job)) => DidFail(steps, job)
    case Throws => DidThrow(steps)
  }

  /** The stage an operation is in tells what it has done so far. */
  ghost predicate Tells(stage: Stage, steps: seq<Operation>) {
    match stage
    case Dequeuing(found) => steps == [SlotGranted(found)]
    case Processing(job) => steps == [SlotGranted(Found(job)), DequeueReturns]
    case Acknowledging(job) => |steps| == 3 && Processed(steps, job, Stored)
    case Rejecting(job, rethrow) =>
      if rethrow then (|steps| == 3 && Processed(steps, job, StoreThrew)) || (|steps| == 4 && NotAcknowledged(steps, job))
      else |steps| == 3 && Processed(steps, job, ProcessorThrew)
    case Returning(settled) => Settles(settled, steps)
  }

  ghost predicate AllTell(s: State, actions: seq<Action>) {
    forall g :: g in s.loops && s.loops[g].Working? ==> Tells(s.loops[g].stage, StepsSince(actions, g))
  }

  lemma MoreSteps(steps: seq<Operation>, op: Operation, job: Job, result: ProcessResult)
    requires Processed(steps, job, result)
    ensures Processed(steps + [op], job, result)
    ensures NotAcknowledged(steps, job) ==> NotAcknowledged(steps + [op], job)
  {
  }

  lemma OwnStepTells(s: State, g: nat, op: Operation, steps: seq<Operation>)
    requires Enabled(s, Operates(g, op))
    requires !op.SlotGranted? ==> Tells(s.loops[g].stage, steps)
    ensures var next := ApplyOperation(s, g, op).loops[g];
      next.Working? ==> Tells(next.stage, if op.SlotGranted? then [op] else steps + [op])
  {
    match op
    case SlotGranted(_) =>
    case DequeueReturns =>
    case ProcessReturns(_, _) => assert Processed(steps + [op], s.loops[g].stage.job, op.result);
    case AcknowledgeReturns(_, _) => MoreSteps(steps, op, s.loops[g].stage.job, Stored);
    case RejectReturns(_) => RejectTells(s.loops[g].stage, op.ok, steps);
    case OperationReturns =>
  }

  lemma RejectTells(stage: Stage, ok: bool, steps: seq<Operation>)
    requires stage.Rejecting? && Tells(stage, steps)
    ensures Settles(if ok && !stage.rethrow then Returns(Failed(stage.job)) else Throws, steps + [RejectReturns(ok)])
  {
    var op := RejectReturns(ok);
    if !stage.rethrow {
      MoreSteps(steps, op, stage.job, ProcessorThrew);
    } else if |steps| == 3 {
      MoreSteps(steps, op, stage.job, StoreThrew);
    } else {
      MoreSteps(steps, op, stage.job, Stored);
    }
  }

  ghost predicate SameWork(s: State, t: State, g: nat) {
    g in t.loops && t.loops[g].Working? ==> g in s.loops && s.loops[g] == t.loops[g]
  }

  lemma ControlKeepsWork(s: State, c: Control, g: nat)
    ensures SameWork(s, ApplyControl(s, c), g)
  {
  }

  lemma TurnKeepsWork(s: State, h: nat, turn: Turn, g: nat)
    requires Enabled(s, Turns(h, turn))
    ensures SameWork(s, ApplyTurn(s, h, turn), g)
  {
  }

  /** Only its own steps change an operation under way. */
  lemma OthersKeepWork(s: State, a: Action, g: nat)
    requires Enabled(s, a) && !(a.Operates? && a.g == g)
    ensures SameWork(s, Apply(s, a), g)
  {
    match a
    case Controls(c) => ControlKeepsWork(s, c, g);
    case Operates(_, _) =>
    case Turns(h, turn) => TurnKeepsWork(s, h, turn, g);
    case Queues(_) =>
  }

  lemma StepKeepsTelling(s: State, a: Action, actions: seq<Action>)
    requires Enabled(s, a) && AllTell(s, actions)
    ensures AllTell(Apply(s, a), actions + [a])
  {
    var t := Apply(s, a);
    assert (actions + [a])[..|actions|] == actions;
    forall g | g in t.loops && t.loops[g].Working? ensures Tells(t.loops[g].stage, StepsSince(actions + [a], g)) {
      if a.Operates? && a.g == g {
        OwnStepTells(s, g, a.op, StepsSince(actions, g));
      } else {
        OthersKeepWork(s, a, g);
      }
    }
  }

  lemma {:induction false} TellsAlongRun(states: seq<State>, actions: seq<Action>, i: nat)
    requires Run(states, actions) && i < |states|
    ensures AllTell(states[i], actions[..i])
  {
    if i > 0 {
      TellsAlongRun(states, actions, i - 1);
      assert Step(states[i - 1], actions[i - 1], states[i]);
      StepKeepsTelling(states[i - 1], actions[i - 1], actions[..i - 1]);
      assert actions[..i] == actions[..i - 1] + [actions[i - 1]];
    }
  }

  lemma DidOneThing(steps: seq<Operation>, job: Job, other: Job)
    ensures DidComplete(steps, job) ==> !DidFail(steps, other) && !FoundNothing(steps) && !DidThrow(steps)
    ensures DidFail(steps, job) ==> !FoundNothing(steps) && !DidThrow(steps)
    ensures DidComplete(steps, job) && DidComplete(steps, other) ==> job == other
    ensures DidFail(steps, job) && DidFail(steps, other) ==> job == other
    ensures FoundNothing(steps) ==> !DidThrow(steps)
  {
  }

  /** What an operation did settles it in one way. */
  lemma SettlesExactly(settled: Settled, steps: seq<Operation>)
    requires Settles(settled, steps)
    ensures settled == Returns(Idle) <==> FoundNothing(steps)
    ensures forall job :: settled == Returns(Completed(job)) <==> DidComplete(steps, job)
    ensures forall job :: settled == Returns(Failed(job)) <==> DidFail(steps, job)
    ensures settled == Throws <==> DidThrow(steps)
  {
    var mine := if settled.Returns? && !settled.outcome.Idle? then settled.outcome.job else "";
    forall job
      ensures settled == Returns(Completed(job)) <==> DidComplete(steps, job)
      ensures settled == Returns(Failed(job)) <==> DidFail(steps, job)
    {
      DidOneThing(steps, mine, job);
      DidOneThing(steps, job, mine);
    }
    DidOneThing(steps, mine, mine);
  }

  /**
   How an operation settles, from its steps alone, in every run.  It completes a job exactly when it
   dequeued it, stored its result and acknowledged it; it fails a job exactly when the processor threw and the
   job was given back; it is idle exactly when the queue was empty; and it throws in all other cases.
   */
  lemma OperationSettles(states: seq<State>, actions: seq<Action>, i: nat, g: nat)
    requires Run(states, actions) && i < |actions| && actions[i] == Operates(g, OperationReturns)
    ensures g in states[i + 1].loops && states[i + 1].loops[g].Released? && states[i + 1].loops[g].next.Some?
    ensures var settled, steps := states[i + 1].loops[g].next.value, StepsSince(actions[..i], g);
      && (settled == Returns(Idle) <==> FoundNothing(steps))
      && (forall job :: settled == Returns(Completed(job)) <==> DidComplete(steps, job))
      && (forall job :: settled == Returns(Failed(job)) <==> DidFail(steps, job))
      && (settled == Throws <==> DidThrow(steps))
  {
    TellsAlongRun(states, actions, i);
    assert Step(states[i], actions[i], states[i + 1]);
    SettlesExactly(states[i].loops[g].stage.settled, StepsSince(actions[..i], g));
  }

  // ---------------------------------------------------------------- the account of the queue's jobs

  /** The job that the operation of a generation found. */
  function JobOf(steps: seq<Operation>): Option<Job> {
    if steps != [] && steps[0].SlotGranted? && steps[0].found.Found? then Some(steps[0].found.job) else None
  }

  function Only(job: Option<Job>): multiset<Job> {
    match job
    case Some(j) => multiset{j}
    case None => multiset{}
  }

  /** A grant to the active generation takes the job it finds; so does an explicit dequeue. */
  function Taken(s: State, a: Action): multiset<Job> {
    if a.GrantsSlot() && a.op.found.Found? && s.running && s.activeGeneration == a.g then multiset{a.op.found.job}
    else if a.Queues? && a.queueing.ExplicitDequeue? then multiset{a.queueing.job}
    else multiset{}
  }

  /** An enqueue adds a job; a `reject` that requeues gives back the one its operation found. */
  function Given(before: seq<Action>, a: Action): multiset<Job> {
    match a
    case Queues(Enqueue(job)) => multiset{job}
    case Queues(ExplicitRequeue(job)) => multiset{job}
    case Operates(g, ProcessReturns(result, requeued)) =>
      if requeued && result != Stored then Only(JobOf(StepsSince(before, g))) else multiset{}
    case Operates(g, AcknowledgeReturns(ok, requeued)) =>
      if requeued && !ok then Only(JobOf(StepsSince(before, g))) else multiset{}
    case _ => multiset{}
  }

  function AllTaken(states: seq<State>, actions: seq<Action>, n: nat): multiset<Job>
    requires n <= |actions| <= |states|
  {
    if n == 0 then multiset{} else AllTaken(states, actions, n - 1) + Taken(states[n - 1], actions[n - 1])
  }

  function AllGiven(actions: seq<Action>, n: nat): multiset<Job>
    requires n <= |actions|
  {
    if n == 0 then multiset{} else AllGiven(actions, n - 1) + Given(actions[..n - 1], actions[n - 1])
  }

  lemma ToldJob(stage: Stage, steps: seq<Operation>)
    requires (stage.Processing? || stage.Acknowledging?) && Tells(stage, steps)
    ensures JobOf(steps) == Some(stage.job)
  {
  }

  lemma OperationBalances(s: State, g: nat, op: Operation, before: seq<Action>)
    requires Enabled(s, Operates(g, op)) && AllTell(s, before)
    ensures ApplyOperation(s, g, op).pending + Taken(s, Operates(g, op)) == s.pending + Given(before, Operates(g, op))
  {
    var l := s.loops[g];
    if op.ProcessReturns? || op.AcknowledgeReturns? {
      ToldJob(l.stage, StepsSince(before, g));
    }
  }

  lemma OthersLeaveQueue(s: State, a: Action)
    requires Enabled(s, a) && (a.Controls? || a.Turns?)
    ensures Apply(s, a).pending == s.pending
  {
    match a
    case Controls(c) => ControlLeavesQueue(s, c);
    case Turns(_, _) =>
  }

  lemma ControlLeavesQueue(s: State, c: Control)
    ensures ApplyControl(s, c).pending == s.pending
  {
  }

  lemma QueueingBalances(s: State, q: Queueing, before: seq<Action>)
    requires Enabled(s, Queues(q))
    ensures ApplyQueueing(s, q).pending + Taken(s, Queues(q)) == s.pending + Given(before, Queues(q))
  {
  }

  lemma StepBalances(s: State, a: Action, before: seq<Action>)
    requires Enabled(s, a) && AllTell(s, before)
    ensures Apply(s, a).pending + Taken(s, a) == s.pending + Given(before, a)
  {
    match a
    case Operates(g, op) => OperationBalances(s, g, op, before);
    case Queues(q) => QueueingBalances(s, q, before);
    case _ => OthersLeaveQueue(s, a);
  }

  lemma Balance(was: multiset<Job>, now: multiset<Job>, taken: multiset<Job>, given: multiset<Job>,
                start: multiset<Job>, allTaken: multiset<Job>, allGiven: multiset<Job>)
    requires was + allTaken == start + allGiven && now + taken == was + given
    ensures now + (allTaken + taken) == start + (allGiven + given)
  {
    forall j ensures (now + (allTaken + taken))[j] == (start + (allGiven + given))[j] {
      assert (was + allTaken)[j] == (start + allGiven)[j] && (now + taken)[j] == (was + given)[j];
    }
  }

  lemma RunBalances(states: seq<State>, actions: seq<Action>, i: nat)
    requires Run(states, actions) && i < |actions|
    ensures states[i + 1].pending + Taken(states[i], actions[i]) == states[i].pending + Given(actions[..i], actions[i])
  {
    TellsAlongRun(states, actions, i);
    assert Step(states[i], actions[i], states[i + 1]);
    StepBalances(states[i], actions[i], actions[..i]);
  }

  /** At every moment of every run the pending jobs are those of the start and the given ones less the taken ones. */
  lemma {:induction false} JobsAccounted(states: seq<State>, actions: seq<Action>, n: nat)
    requires Run(states, actions) && n <= |actions|
    ensures states[n].pending + AllTaken(states, actions, n) == states[0].pending + AllGiven(actions, n)
  {
    if n > 0 {
      var i := n - 1;
      JobsAccounted(states, actions, i);
      RunBalances(states, actions, i);
      Balance(states[i].pending, states[n].pending, Taken(states[i], actions[i]), Given(actions[..i], actions[i]),
              states[0].pending, AllTaken(states, actions, i), AllGiven(actions, i));
    }
  }

  // ---------------------------------------------------------------- stopping and starting

  predicate IsStop(a: Action) {
    a == Controls(Control.Stop) || a == Controls(StopAuto)
  }

  lemma StaysStopped(s: State, a: Action)
    requires Enabled(s, a) && s.activeGeneration == 0 && a != Controls(StartAuto)
    ensures Apply(s, a).activeGeneration == 0
  {
    match a
    case Controls(c) => ControlStaysStopped(s, c);
    case Turns(_, _) =>
    case _ =>
  }

  lemma ControlStaysStopped(s: State, c: Control)
    requires s.activeGeneration == 0 && c != StartAuto
    ensures ApplyControl(s, c).activeGeneration == 0
  {
  }

  lemma StopInvalidates(s: State, a: Action)
    requires IsStop(a)
    ensures Apply(s, a).activeGeneration == 0
    ensures a == Controls(Control.Stop) ==> !Apply(s, a).running && !Apply(s, a).subscribed && Apply(s, a).wakeupResolve == None
  {
  }

  lemma {:induction false} StoppedUntilStarted(states: seq<State>, actions: seq<Action>, i: nat, j: nat)
    requires Run(states, actions) && i < j < |states| && IsStop(actions[i])
    requires forall k :: i < k < j ==> actions[k] != Controls(StartAuto)
    ensures states[j].activeGeneration == 0
    decreases j
  {
    if j == i + 1 {
      assert Step(states[i], actions[i], states[j]);
      StopInvalidates(states[i], actions[i]);
    } else {
      StoppedUntilStarted(states, actions, i, j - 1);
      assert Step(states[j - 1], actions[j - 1], states[j]);
      StaysStopped(states[j - 1], actions[j - 1]);
    }
  }

  /**
   After `stop` or `stopAutoProcessing`, until automatic mode is started again: no loop sleeps, and a slot
   granted to any loop leaves the queue as it is and makes the loop leave.
   */
  lemma NothingAfterStop(states: seq<State>, actions: seq<Action>, i: nat, j: nat)
    requires Run(states, actions) && i < j < |states| && IsStop(actions[i])
    requires forall k :: i < k < j ==> actions[k] != Controls(StartAuto)
    ensures states[j].activeGeneration == 0
    ensures forall g :: g in states[j].loops ==> !states[j].loops[g].Blocked?
    ensures j < |actions| && actions[j].GrantsSlot() ==>
      && states[j + 1].pending == states[j].pending
      && actions[j].g in states[j + 1].loops && states[j + 1].loops[actions[j].g] == Released(None)
  {
    StoppedUntilStarted(states, actions, i, j);
    InvAlongRun(states, actions, j);
    if j < |actions| && actions[j].GrantsSlot() {
      assert Step(states[j], actions[j], states[j + 1]);
      assert actions[j].g != 0 by {
        assert Generations(states[j]);
      }
    }
  }

  /** With a loop known `stopAutoProcessing` waits for it and keeps listening; without one it has detached at once. */
  lemma StopAwaitsLoop(states: seq<State>, actions: seq<Action>, i: nat)
    requires Run(states, actions) && i < |actions| && actions[i] == Controls(StopAuto)
    ensures states[i].activeLoop.Some? ==>
      var g := states[i].activeLoop.value;
      states[i + 1].stopping == states[i].stopping + multiset{g} && states[i + 1].subscribed == states[i].subscribed
    ensures states[i].activeLoop.None? ==>
      states[i + 1].stopping == states[i].stopping && !states[i + 1].subscribed && states[i + 1].wakeupResolve == None
  {
    assert Step(states[i], actions[i], states[i + 1]);
  }

  /** `stopAutoProcessing` resolves only once the loop it stopped has left, and then nothing listens any more. */
  lemma StopResolvesAfterLoop(states: seq<State>, actions: seq<Action>, i: nat, g: nat)
    requires Run(states, actions) && i < |actions| && actions[i] == Controls(StopAutoResumes(g))
    ensures g in states[i].loops && states[i].loops[g].Joined?
    ensures states[i].activeGeneration == 0 ==>
      !states[i + 1].subscribed && states[i + 1].wakeupResolve == None && !states[i + 1].wakeupNotified
    ensures states[i].activeGeneration != 0 ==> states[i + 1].subscribed == states[i].subscribed
  {
    assert Step(states[i], actions[i], states[i + 1]);
  }

  /** Started means working: whatever is pending is taken in every long enough run of the loops. */
  lemma StartTakesPending(states: seq<State>, actions: seq<Action>, i: nat, more: seq<State>, steps: seq<Action>)
    requires Run(states, actions) && i < |actions| && actions[i] == Controls(StartAuto) && AutomaticOnly(actions[..i])
    requires states[i].notifies && states[i].pending != multiset{}
    requires LoopRun(more, steps) && more[0] == states[i + 1] && |steps| > 10 * states[i + 1].generationCounter
    requires forall k :: 0 <= k < |steps| ==> !DequeueFails(states[i + 1], steps[k])
    ensures states[i + 1].running && states[i + 1].activeGeneration != 0
    ensures exists k :: 0 <= k < |steps| && TakesJob(states[i + 1], steps[k])
  {
    assert Step(states[i], actions[i], states[i + 1]);
    ControlLeavesQueue(states[i], StartAuto);
    StartActivates(states[i]);
    assert AutomaticOnly(actions[..i + 1]) by {
      assert forall k :: 0 <= k < i ==> actions[..i + 1][k] == actions[..i][k];
      assert actions[..i + 1][i] == actions[i];
    }
    JobTakenInEveryRun(states, actions, i + 1, more, steps);
  }

  lemma StartActivates(s: State)
    ensures DoStartAuto(s).running && DoStartAuto(s).activeGeneration != 0 && DoStartAuto(s).notifies == s.notifies
  {
  }
}
