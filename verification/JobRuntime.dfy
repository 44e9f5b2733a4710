/**
 The cooperative job runtime of apps/worker/src/runtime.ts as a state machine.

 Every action is the code that runs between two `await`s.  The nondeterminism of the
 environment (what the queue, the processor and the registry answer) is a parameter of the
 action, so a run is a sequence of actions and quantifying over runs covers every interleaving.
 The processing slot is a chain of promises: `processingSlot` is the number of the newest one,
 and a promise is resolved when its number is in `released`.
 */
module JobRuntime {
  import opened Options

  type Job = string

  datatype Outcome = Idle | Completed(job: Job) | Failed(job: Job)

  /** How `processNext` settles. */
  datatype Settled = Returns(outcome: Outcome) | Throws

  datatype Dequeued = Nothing | Found(job: Job) | DequeueThrew

  /** How far an operation that owns the processing slot has come: what it is awaiting. */
  datatype Stage =
    | Dequeuing(found: Dequeued)
    | Processing(job: Job)
    | Acknowledging(job: Job)
    | Rejecting(job: Job, rethrow: bool)
    | Returning(settled: Settled)

  /** Where one generation's loop is suspended. */
  datatype Loop =
    | AwaitingSlot(previous: nat, slot: nat)
    | Working(slot: nat, stage: Stage)
    | Released(next: Option<Settled>)  // None is the `null` of an invalidated generation
    | Blocked(timed: bool)
    | Woken
    | Exited
    | Joined
  {
    predicate HasSlot() {
      AwaitingSlot? || Working?
    }

    /** The queue has answered "empty" and the loop has not yet gone to sleep. */
    predicate FoundEmpty() {
      || (Working? && (stage == Dequeuing(Nothing) || stage == Returning(Returns(Idle))))
      || (Released? && next == Some(Returns(Idle)))
    }
  }

  datatype State = State(
    notifies: bool,               // the queue offers `onEnqueue`
    running: bool,
    generationCounter: nat,
    activeGeneration: nat,
    activeLoop: Option<nat>,
    processingSlot: nat,
    released: set<nat>,
    subscribed: bool,
    wakeupResolve: Option<nat>,   // the loop whose wait the stored resolver ends
    wakeupNotified: bool,
    loops: map<nat, Loop>,
    stopping: multiset<nat>,      // stopAutoProcessing calls awaiting that generation's loop
    pending: multiset<Job>)
  {
    predicate Invalidated(g: nat) {
      activeGeneration != g || !running
    }
  }

  ghost predicate Init(s: State) {
    exists notifies, pending ::
      s == State(notifies, false, 0, 0, None, 0, {0}, false, None, false, map[], multiset{}, pending)
  }

  datatype ProcessResult = Stored | ProcessorThrew | StoreThrew

  /** Calls of the public lifecycle methods. */
  datatype Control = Start | Stop | StartAuto | StopAuto | StopAutoResumes(g: nat)

  /** Resumptions inside `runAutomaticNext`; `requeued` is what a `reject` did to the queue. */
  datatype Operation =
    | SlotGranted(found: Dequeued)
    | DequeueReturns
    | ProcessReturns(result: ProcessResult, requeued: bool)
    | AcknowledgeReturns(ok: bool, requeued: bool)
    | RejectReturns(ok: bool)
    | OperationReturns

  /** Resumptions of `runLoop` itself. */
  datatype Turn = LoopResumes | DelayExpires | LoopJoins

  /** The queue as other code uses it; the explicit steps are `processNext` called by the application. */
  datatype Queueing = Enqueue(job: Job) | ExplicitDequeue(job: Job) | ExplicitRequeue(job: Job)

  datatype Action =
    | Controls(control: Control)
    | Operates(g: nat, op: Operation)
    | Turns(g: nat, turn: Turn)
    | Queues(queueing: Queueing)
  {
    predicate GrantsSlot() {
      Operates? && op.SlotGranted?
    }
  }

  // ---------------------------------------------------------------- specification functions

  function SignalWakeup(s: State): State {
    match s.wakeupResolve
    case Some(g) => s.(wakeupResolve := None, wakeupNotified := false, loops := s.loops[g := Woken])
    case None => s.(wakeupNotified := true)
  }

  /** The head of `for (;;)`: leave when invalidated, otherwise queue for the processing slot. */
  function TopOfLoop(s: State, g: nat): State {
    if s.Invalidated(g) then s.(loops := s.loops[g := Exited])
    else s.(processingSlot := s.processingSlot + 1,
            loops := s.loops[g := AwaitingSlot(s.processingSlot, s.processingSlot + 1)])
  }

  function BeginGeneration(s: State): State {
    var g := s.generationCounter + 1;
    s.(running := true, generationCounter := g, activeGeneration := g, activeLoop := Some(g),
       wakeupNotified := false, subscribed := s.subscribed || s.notifies)
  }

  function DoStartAuto(s: State): State {
    if s.activeGeneration != 0 then s.(running := true)
    else
      var begun := BeginGeneration(s);
      TopOfLoop(begun, begun.generationCounter)
  }

  function Detached(s: State): State {
    s.(subscribed := false, wakeupResolve := None, wakeupNotified := false)
  }

  function FinishStopAuto(s: State): State {
    if s.activeGeneration != 0 then s else Detached(s)
  }

  function DoStopAuto(s: State): State {
    var signalled := SignalWakeup(s.(activeGeneration := 0));
    match s.activeLoop
    case None => FinishStopAuto(signalled)
    case Some(g) => signalled.(stopping := s.stopping + multiset{g})
  }

  function DoStop(s: State): State {
    Detached(SignalWakeup(s.(running := false, activeGeneration := 0)))
  }

  function ApplyControl(s: State, c: Control): State {
    match c
    case Start => s.(running := true)
    case Stop => DoStop(s)
    case StartAuto => DoStartAuto(s)
    case StopAuto => DoStopAuto(s)
    case StopAutoResumes(g) => FinishStopAuto(s.(stopping := s.stopping - multiset{g}))
  }

  predicate Fits(l: Loop, op: Operation) {
    match op
    case SlotGranted(_) => l.AwaitingSlot?
    case DequeueReturns => l.Working? && l.stage.Dequeuing?
    case ProcessReturns(_, _) => l.Working? && l.stage.Processing?
    case AcknowledgeReturns(_, _) => l.Working? && l.stage.Acknowledging?
    case RejectReturns(_) => l.Working? && l.stage.Rejecting?
    case OperationReturns => l.Working? && l.stage.Returning?
  }

  function NextStage(stage: Stage, op: Operation): Stage
    requires Fits(Working(0, stage), op) && !op.OperationReturns?
  {
    match op
    case DequeueReturns =>
      (match stage.found
       case Nothing => Returning(Returns(Idle))
       case DequeueThrew => Returning(Throws)
       case Found(job) => Processing(job))
    case ProcessReturns(result, _) =>
      (match result
       case Stored => Acknowledging(stage.job)
       case ProcessorThrew => Rejecting(stage.job, false)
       case StoreThrew => Rejecting(stage.job, true))
    case AcknowledgeReturns(ok, _) =>
      if ok then Returning(Returns(Completed(stage.job))) else Rejecting(stage.job, true)
    case RejectReturns(ok) => Returning(if ok && !stage.rethrow then Returns(Failed(stage.job)) else Throws)
  }

  function NextLoop(l: Loop, op: Operation, invalidated: bool): Loop
    requires Fits(l, op)
  {
    match op
    case SlotGranted(found) => if invalidated then Released(None) else Working(l.slot, Dequeuing(found))
    case OperationReturns => Released(Some(l.stage.settled))
    case _ => Working(l.slot, NextStage(l.stage, op))
  }

  /** The queue after an operation step: a dequeue takes the job, a `reject` may give it back. */
  function PendingAfter(pending: multiset<Job>, l: Loop, op: Operation, invalidated: bool): multiset<Job>
    requires Fits(l, op)
  {
    match op
    case SlotGranted(found) => if found.Found? && !invalidated then pending - multiset{found.job} else pending
    case ProcessReturns(result, requeued) =>
      if requeued && result != Stored then pending + multiset{l.stage.job} else pending
    case AcknowledgeReturns(ok, requeued) => if requeued && !ok then pending + multiset{l.stage.job} else pending
    case _ => pending
  }

  function ApplyOperation(s: State, g: nat, op: Operation): State
    requires g in s.loops && Fits(s.loops[g], op)
  {
    var l := s.loops[g];
    var next := NextLoop(l, op, s.Invalidated(g));
    s.(loops := s.loops[g := next],
       released := if next.Released? then s.released + {l.slot} else s.released,
       pending := PendingAfter(s.pending, l, op, s.Invalidated(g)))
  }

  function GoIdle(s: State, g: nat): State {
    if s.Invalidated(g) then s.(loops := s.loops[g := Exited])
    else if s.subscribed && s.wakeupNotified then
      s.(wakeupNotified := false, loops := s.loops[g := Woken])
    else
      s.(wakeupResolve := Some(g), loops := s.loops[g := Blocked(!s.subscribed)])
  }

  function DoLoopResumes(s: State, g: nat): State
    requires g in s.loops
  {
    match s.loops[g]
    case Released(None) => s.(loops := s.loops[g := Exited])
    case Released(Some(Returns(Idle))) => GoIdle(s, g)
    case _ => TopOfLoop(s, g)
  }

  function DoDelayExpires(s: State, g: nat): State {
    var quiet := if s.wakeupResolve.Some? then s.(wakeupResolve := None, wakeupNotified := false) else s;
    quiet.(loops := s.loops[g := Woken])
  }

  function ApplyTurn(s: State, g: nat, turn: Turn): State
    requires g in s.loops
  {
    match turn
    case LoopResumes => DoLoopResumes(s, g)
    case DelayExpires => DoDelayExpires(s, g)
    case LoopJoins =>
      s.(loops := s.loops[g := Joined], activeLoop := if s.activeLoop == Some(g) then None else s.activeLoop)
  }

  function ApplyQueueing(s: State, q: Queueing): State {
    match q
    case Enqueue(job) =>
      var queued := s.(pending := s.pending + multiset{job});
      if s.subscribed then SignalWakeup(queued) else queued
    case ExplicitDequeue(job) => s.(pending := s.pending - multiset{job})
    case ExplicitRequeue(job) => s.(pending := s.pending + multiset{job})
  }

  // ---------------------------------------------------------------- the transition relation

  predicate Answers(s: State, found: Dequeued) {
    match found
    case Nothing => s.pending == multiset{}
    case Found(job) => job in s.pending
    case DequeueThrew => true
  }

  predicate Enabled(s: State, a: Action) {
    match a
    case Controls(c) => c.StopAutoResumes? ==> c.g in s.stopping && c.g in s.loops && s.loops[c.g].Joined?
    case Operates(g, op) =>
      && g in s.loops && Fits(s.loops[g], op)
      && (op.SlotGranted? ==> s.loops[g].previous in s.released && Answers(s, op.found))
    case Turns(g, turn) =>
      && g in s.loops
      && (match turn
          case LoopResumes => s.loops[g].Woken? || s.loops[g].Released?
          case DelayExpires => s.loops[g] == Blocked(true)
          case LoopJoins => s.loops[g].Exited?)
    case Queues(q) => q.ExplicitDequeue? ==> s.running && q.job in s.pending
  }

  function Apply(s: State, a: Action): State
    requires Enabled(s, a)
  {
    match a
    case Controls(c) => ApplyControl(s, c)
    case Operates(g, op) => ApplyOperation(s, g, op)
    case Turns(g, turn) => ApplyTurn(s, g, turn)
    case Queues(q) => ApplyQueueing(s, q)
  }

  predicate Step(s: State, a: Action, t: State) {
    Enabled(s, a) && t == Apply(s, a)
  }

  ghost predicate Run(states: seq<State>, actions: seq<Action>) {
    && |states| == |actions| + 1
    && Init(states[0])
    && forall i {:trigger actions[i]} :: 0 <= i < |actions| ==> Step(states[i], actions[i], states[i + 1])
  }

  // ---------------------------------------------------------------- the inductive invariant

  ghost predicate Generations(s: State) {
    && (forall g :: g in s.loops <==> 1 <= g <= s.generationCounter)
    && (s.subscribed ==> s.notifies)
    && (s.activeGeneration != 0 ==>
         && s.activeGeneration == s.generationCounter
         && s.running
         && s.activeLoop == Some(s.activeGeneration)
         && s.subscribed == s.notifies
         && var l := s.loops[s.activeGeneration];
            !l.Exited? && !l.Joined? && l != Released(None) && l != Blocked(s.notifies))
  }

  ghost predicate Slots(s: State) {
    && (forall t :: t in s.released ==> t <= s.processingSlot)
    && (forall t: nat, u: nat :: t in s.released && u <= t ==> u in s.released)
    && 0 in s.released
    && (forall g :: g in s.loops && s.loops[g].HasSlot() ==>
          1 <= s.loops[g].slot <= s.processingSlot && s.loops[g].slot !in s.released)
    && (forall g :: g in s.loops && s.loops[g].AwaitingSlot? ==> s.loops[g].previous + 1 == s.loops[g].slot)
    && (forall g :: g in s.loops && s.loops[g].Working? ==> s.loops[g].slot - 1 in s.released)
    && (forall g, h :: g in s.loops && h in s.loops && g != h && s.loops[g].HasSlot() && s.loops[h].HasSlot() ==>
          s.loops[g].slot != s.loops[h].slot)
  }

  /** Only the active generation takes slots, so it owns the newest one or nobody owns any. */
  ghost predicate NewestSlot(s: State) {
    s.activeGeneration != 0 && s.activeGeneration in s.loops ==>
      var l := s.loops[s.activeGeneration];
      if l.HasSlot() then l.slot == s.processingSlot else s.processingSlot in s.released
  }

  ghost predicate Wakeups(s: State) {
    && (s.wakeupResolve.Some? ==>
          && s.wakeupResolve.value == s.activeGeneration != 0
          && s.activeGeneration in s.loops && s.loops[s.activeGeneration].Blocked?)
    && (forall g :: g in s.loops && s.loops[g].Blocked? ==> s.wakeupResolve == Some(g))
  }

  ghost predicate Inv(s: State) {
    Generations(s) && Slots(s) && NewestSlot(s) && Wakeups(s)
  }

  /** No pending job waits for a sleeping loop, and none slips in while a loop falls asleep. */
  ghost predicate NoLostWakeup(s: State) {
    s.notifies && s.activeGeneration != 0 && s.activeGeneration in s.loops && s.pending != multiset{} ==>
      var l := s.loops[s.activeGeneration];
      !l.Blocked? && (l.FoundEmpty() ==> s.wakeupNotified)
  }

  // ---------------------------------------------------------------- the invariant holds

  lemma SignalKeepsInv(s: State)
    requires Inv(s)
    ensures Inv(SignalWakeup(s))
  {
    match s.wakeupResolve
    case None =>
    case Some(g) => assert g == s.activeGeneration && !s.loops[g].HasSlot();
  }

  lemma IrrelevantFieldsKeepInv(s: State, stopping: multiset<nat>, pending: multiset<Job>)
    requires Inv(s)
    ensures Inv(s.(stopping := stopping, pending := pending))
  {
  }

  /** With nobody asleep a generation can be invalidated without touching anything else. */
  lemma DeactivateKeepsInv(s: State, running: bool, subscribed: bool, notified: bool)
    requires Inv(s) && s.wakeupResolve == None && (subscribed ==> s.notifies)
    ensures Inv(s.(running := running, activeGeneration := 0, subscribed := subscribed, wakeupNotified := notified))
  {
  }

  lemma FinishStopAutoKeepsInv(s: State)
    requires Inv(s)
    ensures Inv(FinishStopAuto(s))
  {
  }

  lemma StartAutoKeepsInv(s: State)
    requires Inv(s)
    ensures Inv(DoStartAuto(s))
  {
  }

  lemma StopKeepsInv(s: State)
    requires Inv(s)
    ensures Inv(DoStop(s))
  {
    var woken := SignalWakeup(s);
    SignalKeepsInv(s);
    DeactivateKeepsInv(woken, false, false, false);
    assert DoStop(s) == woken.(running := false, activeGeneration := 0, subscribed := false, wakeupNotified := false);
  }

  lemma StopAutoKeepsInv(s: State)
    requires Inv(s)
    ensures Inv(DoStopAuto(s))
  {
    var woken := SignalWakeup(s);
    SignalKeepsInv(s);
    var signalled := SignalWakeup(s.(activeGeneration := 0));
    DeactivateKeepsInv(woken, woken.running, woken.subscribed, woken.wakeupNotified);
    assert signalled == woken.(running := woken.running, activeGeneration := 0, subscribed := woken.subscribed,
                               wakeupNotified := woken.wakeupNotified);
    FinishStopAutoKeepsInv(signalled);
    match s.activeLoop {
      case None =>
      case Some(g) => IrrelevantFieldsKeepInv(signalled, s.stopping + multiset{g}, signalled.pending);
    }
  }

  lemma ControlKeepsInv(s: State, c: Control)
    requires Inv(s)
    ensures Inv(ApplyControl(s, c))
  {
    match c
    case Start => assert ApplyControl(s, c).loops == s.loops;
    case Stop => StopKeepsInv(s);
    case StartAuto => StartAutoKeepsInv(s);
    case StopAuto => StopAutoKeepsInv(s);
    case StopAutoResumes(g) =>
      IrrelevantFieldsKeepInv(s, s.stopping - multiset{g}, s.pending);
      FinishStopAutoKeepsInv(s.(stopping := s.stopping - multiset{g}));
  }

  /** A move inside an operation keeps the slot, so every clause about slots survives. */
  lemma MoveWithinSlotKeepsInv(s: State, g: nat, next: Loop)
    requires Inv(s) && g in s.loops && s.loops[g].HasSlot() && next.Working?
    requires next.slot == s.loops[g].slot
    requires s.loops[g].AwaitingSlot? ==> s.loops[g].previous in s.released
    ensures Inv(s.(loops := s.loops[g := next]))
  {
  }

  lemma ReleaseKeepsInv(s: State, g: nat, r: Option<Settled>)
    requires Inv(s) && g in s.loops && s.loops[g].HasSlot()
    requires s.loops[g].AwaitingSlot? ==> s.loops[g].previous in s.released
    requires r == None ==> s.Invalidated(g)
    ensures Inv(s.(released := s.released + {s.loops[g].slot}, loops := s.loops[g := Released(r)]))
  {
    ReleaseKeepsSlots(s, g, r);
  }

  lemma ReleaseKeepsSlots(s: State, g: nat, r: Option<Settled>)
    requires Slots(s) && g in s.loops && s.loops[g].HasSlot()
    requires s.loops[g].AwaitingSlot? ==> s.loops[g].previous in s.released
    ensures Slots(s.(released := s.released + {s.loops[g].slot}, loops := s.loops[g := Released(r)]))
  {
  }

  lemma OperationKeepsInv(s: State, g: nat, op: Operation)
    requires Inv(s) && Enabled(s, Operates(g, op))
    ensures Inv(ApplyOperation(s, g, op))
  {
    var t := ApplyOperation(s, g, op);
    var next := t.loops[g];
    if next.Released? {
      ReleaseKeepsInv(s, g, next.next);
    } else {
      MoveWithinSlotKeepsInv(s, g, next);
    }
    var moved := s.(released := t.released, loops := t.loops);
    IrrelevantFieldsKeepInv(moved, s.stopping, t.pending);
    assert t == moved.(stopping := s.stopping, pending := t.pending);
  }

  lemma TakeSlotKeepsInv(s: State, g: nat)
    requires Inv(s) && g in s.loops && !s.loops[g].HasSlot() && !s.loops[g].Blocked? && !s.Invalidated(g)
    ensures Inv(TopOfLoop(s, g))
  {
  }

  lemma LoopExitKeepsInv(s: State, g: nat)
    requires Inv(s) && g in s.loops && !s.loops[g].HasSlot() && !s.loops[g].Blocked? && s.Invalidated(g)
    ensures Inv(s.(loops := s.loops[g := Exited]))
  {
  }

  lemma SleepKeepsInv(s: State, g: nat)
    requires Inv(s) && g in s.loops && s.loops[g].Released? && !s.Invalidated(g)
    ensures Inv(s.(wakeupResolve := Some(g), loops := s.loops[g := Blocked(!s.subscribed)]))
  {
  }

  lemma SkipSleepKeepsInv(s: State, g: nat)
    requires Inv(s) && g in s.loops && s.loops[g].Released? && !s.Invalidated(g)
    ensures Inv(s.(wakeupNotified := false, loops := s.loops[g := Woken]))
  {
  }

  lemma LoopResumesKeepsInv(s: State, g: nat)
    requires Inv(s) && Enabled(s, Turns(g, LoopResumes))
    ensures Inv(DoLoopResumes(s, g))
  {
    match s.loops[g]
    case Released(None) => LoopExitKeepsInv(s, g);
    case Released(Some(Returns(Idle))) =>
      if s.Invalidated(g) {
        LoopExitKeepsInv(s, g);
      } else if s.subscribed && s.wakeupNotified {
        SkipSleepKeepsInv(s, g);
      } else {
        SleepKeepsInv(s, g);
      }
    case _ =>
      if s.Invalidated(g) {
        LoopExitKeepsInv(s, g);
      } else {
        TakeSlotKeepsInv(s, g);
      }
  }

  lemma TurnKeepsInv(s: State, g: nat, turn: Turn)
    requires Inv(s) && Enabled(s, Turns(g, turn))
    ensures Inv(ApplyTurn(s, g, turn))
  {
    match turn
    case LoopResumes => LoopResumesKeepsInv(s, g);
    case DelayExpires =>
      assert DoDelayExpires(s, g) == SignalWakeup(s);
      SignalKeepsInv(s);
    case LoopJoins => JoinKeepsInv(s, g);
  }

  lemma JoinKeepsInv(s: State, g: nat)
    requires Inv(s) && g in s.loops && s.loops[g].Exited?
    ensures Inv(ApplyTurn(s, g, LoopJoins))
  {
  }

  lemma QueueingKeepsInv(s: State, q: Queueing)
    requires Inv(s)
    ensures Inv(ApplyQueueing(s, q))
  {
    IrrelevantFieldsKeepInv(s, s.stopping, ApplyQueueing(s, q).pending);
    if q.Enqueue? {
      SignalKeepsInv(s.(pending := s.pending + multiset{q.job}));
    }
  }

  lemma InvPreserved(s: State, a: Action, t: State)
    requires Inv(s) && Step(s, a, t)
    ensures Inv(t)
  {
    match a
    case Controls(c) => ControlKeepsInv(s, c);
    case Operates(g, op) => OperationKeepsInv(s, g, op);
    case Turns(g, turn) => TurnKeepsInv(s, g, turn);
    case Queues(q) => QueueingKeepsInv(s, q);
  }

  lemma {:induction false} InvAlongRun(states: seq<State>, actions: seq<Action>, i: nat)
    requires Run(states, actions) && i < |states|
    ensures Inv(states[i])
  {
    if i > 0 {
      InvAlongRun(states, actions, i - 1);
      InvPreserved(states[i - 1], actions[i - 1], states[i]);
    }
  }

  // ---------------------------------------------------------------- exclusion and slot order

  /** At no moment of any run do two dequeue-process-store operations of automatic loops overlap. */
  lemma AtMostOneOperationInFlight(states: seq<State>, actions: seq<Action>, i: nat, g: nat, h: nat)
    requires Run(states, actions) && i < |states|
    requires g in states[i].loops && states[i].loops[g].Working?
    requires h in states[i].loops && states[i].loops[h].Working?
    ensures g == h
  {
    InvAlongRun(states, actions, i);
  }

  /** Whoever is about to be granted the slot finds nobody at work. */
  lemma GrantedAlone(s: State, g: nat, found: Dequeued, h: nat)
    requires Inv(s) && Enabled(s, Operates(g, SlotGranted(found)))
    ensures h in s.loops ==> !s.loops[h].Working?
  {
    assert Slots(s);
  }

  // What one step may change, whoever takes it.

  ghost predicate OperationRuns(s: State, g: nat) {
    g in s.loops && s.loops[g].Working?
  }

  ghost predicate Frame(s: State, s': State, granted: Option<nat>) {
    && s.loops.Keys <= s'.loops.Keys
    && s.processingSlot <= s'.processingSlot
    && s.generationCounter <= s'.generationCounter
    && (s'.activeGeneration == s.activeGeneration || s'.activeGeneration == 0 || s'.activeGeneration > s.generationCounter)
    && (forall g :: g in s'.loops && s'.loops[g].HasSlot() ==>
          || (g in s.loops && s'.loops[g] == s.loops[g])
          || (s'.loops[g].AwaitingSlot? && s'.loops[g].slot > s.processingSlot)
          || (s'.loops[g].Working? && (OperationRuns(s, g) || (granted == Some(g) && !s.Invalidated(g)))))
  }

  lemma SignalFrame(s: State)
    ensures Frame(s, SignalWakeup(s), None)
  {
  }

  lemma StartAutoFrame(s: State)
    ensures Frame(s, DoStartAuto(s), None)
  {
  }

  lemma ControlFrame(s: State, c: Control)
    ensures Frame(s, ApplyControl(s, c), None)
  {
    match c
    case Start =>
    case Stop => SignalFrame(s.(running := false, activeGeneration := 0));
    case StartAuto => StartAutoFrame(s);
    case StopAuto => StopAutoFrame(s);
    case StopAutoResumes(_) =>
  }

  lemma StopAutoFrame(s: State)
    ensures Frame(s, DoStopAuto(s), None)
  {
    SignalFrame(s.(activeGeneration := 0));
  }

  lemma OperationFrame(s: State, g: nat, op: Operation)
    requires Enabled(s, Operates(g, op))
    ensures Frame(s, ApplyOperation(s, g, op), if op.SlotGranted? then Some(g) else None)
  {
  }

  lemma TopOfLoopFrame(s: State, g: nat)
    ensures Frame(s, TopOfLoop(s, g), None)
  {
  }

  lemma GoIdleFrame(s: State, g: nat)
    ensures Frame(s, GoIdle(s, g), None)
  {
  }

  lemma TurnFrame(s: State, g: nat, turn: Turn)
    requires Enabled(s, Turns(g, turn))
    ensures Frame(s, ApplyTurn(s, g, turn), None)
  {
    match turn
    case LoopResumes =>
      TopOfLoopFrame(s, g);
      GoIdleFrame(s, g);
    case DelayExpires =>
    case LoopJoins =>
  }

  lemma QueueingFrame(s: State, q: Queueing)
    ensures Frame(s, ApplyQueueing(s, q), None)
  {
  }

  lemma StepFrame(s: State, a: Action, s': State)
    requires Step(s, a, s')
    ensures Frame(s, s', if a.GrantsSlot() then Some(a.g) else None)
  {
    match a
    case Controls(c) => ControlFrame(s, c);
    case Operates(g, op) => OperationFrame(s, g, op);
    case Turns(g, turn) => TurnFrame(s, g, turn);
    case Queues(q) => QueueingFrame(s, q);
  }

  /** Every slot up to `t` has been served. */
  ghost predicate ServedUpTo(s: State, t: nat) {
    t <= s.processingSlot && forall g :: g in s.loops && s.loops[g].AwaitingSlot? ==> t < s.loops[g].slot
  }

  lemma {:induction false} ServedStaysServed(states: seq<State>, actions: seq<Action>, i: nat, j: nat, t: nat)
    requires Run(states, actions) && i <= j < |states| && ServedUpTo(states[i], t)
    ensures ServedUpTo(states[j], t)
  {
    if i < j {
      ServedStaysServed(states, actions, i, j - 1, t);
      StepFrame(states[j - 1], actions[j - 1], states[j]);
    }
  }

  lemma GrantServes(s: State, a: Action, s': State)
    requires Inv(s) && Step(s, a, s') && a.GrantsSlot()
    ensures ServedUpTo(s', s.loops[a.g].slot)
  {
  }

  /** Slots are served strictly in the order in which the loops took them, across generations. */
  lemma SlotsServedInOrder(states: seq<State>, actions: seq<Action>, i: nat, j: nat)
    requires Run(states, actions) && i < j < |actions|
    requires actions[i].GrantsSlot() && actions[j].GrantsSlot()
    ensures Enabled(states[i], actions[i]) && Enabled(states[j], actions[j])
    ensures states[i].loops[actions[i].g].slot < states[j].loops[actions[j].g].slot
  {
    InvAlongRun(states, actions, i);
    assert Step(states[i], actions[i], states[i + 1]) && Step(states[j], actions[j], states[j + 1]);
    GrantServes(states[i], actions[i], states[i + 1]);
    ServedStaysServed(states, actions, i + 1, j, states[i].loops[actions[i].g].slot);
  }

  lemma {:induction false} InvalidatedForGood(states: seq<State>, actions: seq<Action>, i: nat, j: nat, g: nat)
    requires Run(states, actions) && i <= j < |states|
    requires 0 < g <= states[i].generationCounter && states[i].activeGeneration != g
    ensures states[j].activeGeneration != g && g <= states[j].generationCounter
  {
    if i < j {
      InvalidatedForGood(states, actions, i, j - 1, g);
      StepFrame(states[j - 1], actions[j - 1], states[j]);
    }
  }

  /**
   Once a generation has been stopped it never takes a job again: a slot it is still granted
   later only makes its loop leave, with the queue untouched.
   */
  lemma StoppedGenerationNeverConsumes(states: seq<State>, actions: seq<Action>, i: nat, j: nat, g: nat)
    requires Run(states, actions) && i <= j < |actions|
    requires 0 < g <= states[i].generationCounter && states[i].activeGeneration != g
    requires actions[j].GrantsSlot() && actions[j].g == g
    ensures g in states[j + 1].loops && states[j + 1].loops[g] == Released(None)
    ensures states[j + 1].pending == states[j].pending
  {
    InvalidatedForGood(states, actions, i, j, g);
    assert Step(states[j], actions[j], states[j + 1]);
  }

  /**
   An automatic operation begins only by being granted its slot, while its generation is the
   active one of a running runtime and no other automatic operation is under way.
   */
  lemma OperationBeginsActiveAndAlone(states: seq<State>, actions: seq<Action>, i: nat, g: nat)
    requires Run(states, actions) && i < |actions|
    requires OperationRuns(states[i + 1], g) && !OperationRuns(states[i], g)
    ensures actions[i].GrantsSlot() && states[i].running && states[i].activeGeneration == g
    ensures forall h: nat :: !OperationRuns(states[i], h)
  {
    assert Step(states[i], actions[i], states[i + 1]);
    StepFrame(states[i], actions[i], states[i + 1]);
    forall h: nat ensures !OperationRuns(states[i], h) {
      if OperationRuns(states[i], h) {
        assert OperationRuns(states[i + 1], h);
        AtMostOneOperationInFlight(states, actions, i + 1, g, h);
      }
    }
  }

  // ---------------------------------------------------------------- wakeups

  /** A resolver is held exactly while the active generation's loop sleeps, and no other loop sleeps. */
  lemma ResolverHeldExactlyWhileActiveLoopSleeps(states: seq<State>, actions: seq<Action>, i: nat)
    requires Run(states, actions) && i < |states|
    ensures var s := states[i];
            && (s.wakeupResolve.Some? <==>
                  s.activeGeneration in s.loops && s.loops[s.activeGeneration].Blocked?)
            && (forall g :: g in s.loops && s.loops[g].Blocked? ==>
                  g == s.activeGeneration && s.wakeupResolve == Some(g) && s.running)
  {
    InvAlongRun(states, actions, i);
  }

  lemma ControlKeepsWakeups(s: State, c: Control)
    requires Inv(s) && NoLostWakeup(s)
    ensures NoLostWakeup(ApplyControl(s, c))
  {
  }

  lemma OtherOperationKeepsWakeups(s: State, g: nat, next: Loop, released: set<nat>, pending: multiset<Job>)
    requires Inv(s) && NoLostWakeup(s) && g in s.loops && g != s.activeGeneration
    requires s.loops[g].Working? || pending == s.pending
    ensures NoLostWakeup(s.(loops := s.loops[g := next], released := released, pending := pending))
  {
  }

  lemma ActiveGrantKeepsWakeups(s: State, found: Dequeued)
    requires s.running && NoLostWakeup(s) && s.activeGeneration != 0
    requires Enabled(s, Operates(s.activeGeneration, SlotGranted(found)))
    ensures NoLostWakeup(ApplyOperation(s, s.activeGeneration, SlotGranted(found)))
  {
    assert found == Nothing ==> s.pending == multiset{};
  }

  lemma ActiveOperationKeepsWakeups(s: State, op: Operation)
    requires s.running && NoLostWakeup(s) && s.activeGeneration != 0 && Enabled(s, Operates(s.activeGeneration, op))
    ensures NoLostWakeup(ApplyOperation(s, s.activeGeneration, op))
  {
    var l, t := s.loops[s.activeGeneration], ApplyOperation(s, s.activeGeneration, op);
    if op.SlotGranted? {
      ActiveGrantKeepsWakeups(s, op.found);
    } else {
      var next := t.loops[s.activeGeneration];
      assert next.FoundEmpty() ==> l.FoundEmpty() && t.pending == s.pending;
    }
  }

  lemma OperationKeepsWakeups(s: State, g: nat, op: Operation)
    requires Inv(s) && NoLostWakeup(s) && Enabled(s, Operates(g, op))
    ensures NoLostWakeup(ApplyOperation(s, g, op))
  {
    if g == s.activeGeneration {
      ActiveOperationKeepsWakeups(s, op);
    } else {
      var t := ApplyOperation(s, g, op);
      OtherOperationKeepsWakeups(s, g, t.loops[g], t.released, t.pending);
    }
  }

  lemma TurnKeepsWakeups(s: State, g: nat, turn: Turn)
    requires Inv(s) && NoLostWakeup(s) && Enabled(s, Turns(g, turn))
    ensures NoLostWakeup(ApplyTurn(s, g, turn))
  {
  }

  lemma QueueingKeepsWakeups(s: State, q: Queueing)
    requires Inv(s) && NoLostWakeup(s) && !q.ExplicitRequeue?
    ensures NoLostWakeup(ApplyQueueing(s, q))
  {
  }

  lemma WakeupKept(s: State, a: Action, s': State)
    requires Inv(s) && NoLostWakeup(s) && Step(s, a, s') && !(a.Queues? && a.queueing.ExplicitRequeue?)
    ensures NoLostWakeup(s')
  {
    match a
    case Controls(c) => ControlKeepsWakeups(s, c);
    case Operates(g, op) => OperationKeepsWakeups(s, g, op);
    case Turns(g, turn) => TurnKeepsWakeups(s, g, turn);
    case Queues(q) => QueueingKeepsWakeups(s, q);
  }

  ghost predicate AutomaticOnly(actions: seq<Action>) {
    forall i :: 0 <= i < |actions| ==> !(actions[i].Queues? && actions[i].queueing.ExplicitRequeue?)
  }

  lemma {:induction false} NoWakeupLost(states: seq<State>, actions: seq<Action>, i: nat)
    requires Run(states, actions) && i < |states| && AutomaticOnly(actions[..i])
    ensures NoLostWakeup(states[i])
  {
    if i > 0 {
      assert forall k :: 0 <= k < i ==> actions[..i][k] == actions[k];
      NoWakeupLost(states, actions, i - 1);
      InvAlongRun(states, actions, i - 1);
      assert !(actions[..i][i - 1].Queues? && actions[..i][i - 1].queueing.ExplicitRequeue?);
      WakeupKept(states[i - 1], actions[i - 1], states[i]);
    }
  }

  lemma NothingPending(s: State)
    requires Inv(s) && NoLostWakeup(s) && s.notifies
    ensures forall g :: g in s.loops && s.loops[g].Blocked? ==> s.pending == multiset{}
  {
  }

  /**
   No wakeup is lost: on a notifying queue, whatever the interleaving, no job is pending while the
   active loop sleeps (unless an explicit consumer gave a job back behind the loop's back).
   */
  lemma NoJobPendingWhileAsleep(states: seq<State>, actions: seq<Action>, i: nat)
    requires Run(states, actions) && i < |states| && AutomaticOnly(actions[..i])
    ensures forall g :: states[i].notifies && g in states[i].loops && states[i].loops[g].Blocked? ==>
              states[i].pending == multiset{}
  {
    InvAlongRun(states, actions, i);
    NoWakeupLost(states, actions, i);
    if states[i].notifies {
      NothingPending(states[i]);
    }
  }

  ghost predicate Reachable(s: State) {
    exists states: seq<State>, actions: seq<Action> :: Run(states, actions) && states[|actions|] == s
  }

  lemma InitReachable(s: State)
    requires Init(s)
    ensures Reachable(s)
  {
    var none: seq<Action> := [];
    assert Run([s], none) && [s][|none|] == s;
  }

  lemma ReachableStep(s: State, a: Action, t: State)
    requires Reachable(s) && Step(s, a, t)
    ensures Reachable(t)
  {
    var states: seq<State>, actions: seq<Action> :| Run(states, actions) && states[|actions|] == s;
    assert Run(states + [t], actions + [a]);
    assert (states + [t])[|actions + [a]|] == t;
  }

  lemma ReachableInv(s: State)
    requires Reachable(s)
    ensures Inv(s)
  {
    var states: seq<State>, actions: seq<Action> :| Run(states, actions) && states[|actions|] == s;
    InvAlongRun(states, actions, |actions|);
  }

  /** The first generation's loop, with the only job taken by an explicit consumer. */
  function FirstLoop(loop: Loop): State {
    State(true, true, 1, 1, Some(1), 1, if loop.HasSlot() then {0} else {0, 1}, true,
          if loop.Blocked? then Some(1) else None, false, map[1 := loop], multiset{}, multiset{})
  }

  lemma FirstLoopStarts()
    ensures Reachable(FirstLoop(AwaitingSlot(0, 1)))
  {
    var s0 := State(true, false, 0, 0, None, 0, {0}, false, None, false, map[], multiset{}, multiset{"job"});
    var s1 := s0.(running := true);
    var s2 := s1.(pending := multiset{});
    var none: seq<Action> := [];
    assert Run([s0], none) && [s0][|none|] == s0;
    ReachableStep(s0, Controls(Start), s1);
    ReachableStep(s1, Queues(ExplicitDequeue("job")), s2);
    ReachableStep(s2, Controls(StartAuto), FirstLoop(AwaitingSlot(0, 1)));
  }

  lemma FirstLoopSleeps()
    ensures Reachable(FirstLoop(Blocked(false)))
  {
    FirstLoopStarts();
    ReachableStep(FirstLoop(AwaitingSlot(0, 1)), Operates(1, SlotGranted(Nothing)), FirstLoop(Working(1, Dequeuing(Nothing))));
    ReachableStep(FirstLoop(Working(1, Dequeuing(Nothing))), Operates(1, DequeueReturns),
                  FirstLoop(Working(1, Returning(Returns(Idle)))));
    ReachableStep(FirstLoop(Working(1, Returning(Returns(Idle)))), Operates(1, OperationReturns),
                  FirstLoop(Released(Some(Returns(Idle)))));
    ReachableStep(FirstLoop(Released(Some(Returns(Idle)))), Turns(1, LoopResumes), FirstLoop(Blocked(false)));
  }

  /** If that consumer then rejects the job, the job stays pending and nothing wakes the loop. */
  lemma ExplicitRequeueCanStrandAJob()
    ensures exists s :: Reachable(s) && s.notifies && s.pending == multiset{"job"} && s.activeGeneration == 1
                        && 1 in s.loops && s.loops[1].Blocked?
  {
    FirstLoopSleeps();
    var asleep := FirstLoop(Blocked(false));
    ReachableStep(asleep, Queues(ExplicitRequeue("job")), asleep.(pending := multiset{"job"}));
  }

  // ---------------------------------------------------------------- the machine never gets stuck

  ghost predicate Owns(s: State, g: nat, t: nat) {
    g in s.loops && s.loops[g].HasSlot() && s.loops[g].slot == t
  }

  /** Every slot that is not released will be released by somebody. */
  ghost predicate SlotsOwned(s: State) {
    forall t: nat :: t <= s.processingSlot && t !in s.released ==> exists g: nat :: Owns(s, g, t)
  }

  ghost predicate OwnersKept(s: State, s': State) {
    && s.released <= s'.released
    && (forall g: nat, t: nat :: Owns(s, g, t) ==> Owns(s', g, t) || t in s'.released)
    && (s'.processingSlot == s.processingSlot
        || (s'.processingSlot == s.processingSlot + 1 && exists g: nat :: Owns(s', g, s'.processingSlot)))
  }

  lemma SignalKeepsOwners(s: State)
    requires s.wakeupResolve.Some? && s.wakeupResolve.value in s.loops ==> !s.loops[s.wakeupResolve.value].HasSlot()
    ensures OwnersKept(s, SignalWakeup(s))
  {
  }

  lemma ControlKeepsOwners(s: State, c: Control)
    requires Generations(s) && Wakeups(s)
    ensures OwnersKept(s, ApplyControl(s, c))
  {
    match c
    case Start =>
    case Stop => SignalKeepsOwners(s.(running := false, activeGeneration := 0));
    case StartAuto => StartAutoKeepsOwners(s);
    case StopAuto => StopAutoKeepsOwners(s);
    case StopAutoResumes(_) =>
  }

  lemma StopAutoKeepsOwners(s: State)
    requires Wakeups(s)
    ensures OwnersKept(s, DoStopAuto(s))
  {
  }

  lemma StartAutoKeepsOwners(s: State)
    requires Generations(s)
    ensures OwnersKept(s, DoStartAuto(s))
  {
    if s.activeGeneration == 0 {
      assert Owns(DoStartAuto(s), s.generationCounter + 1, s.processingSlot + 1);
    }
  }

  lemma TopOfLoopKeepsOwners(s: State, g: nat)
    requires g in s.loops && !s.loops[g].HasSlot()
    ensures OwnersKept(s, TopOfLoop(s, g))
  {
    if !s.Invalidated(g) {
      assert Owns(TopOfLoop(s, g), g, s.processingSlot + 1);
    }
  }

  lemma StepKeepsOwners(s: State, a: Action, s': State)
    requires Generations(s) && Wakeups(s) && Step(s, a, s')
    ensures OwnersKept(s, s')
  {
    match a
    case Controls(c) => ControlKeepsOwners(s, c);
    case Operates(g, op) => OperationKeepsOwners(s, g, op);
    case Turns(g, turn) => TurnKeepsOwners(s, g, turn);
    case Queues(q) =>
      if q.Enqueue? {
        SignalKeepsOwners(s.(pending := s.pending + multiset{q.job}));
      }
  }

  lemma OperationKeepsOwners(s: State, g: nat, op: Operation)
    requires Generations(s) && Wakeups(s) && Enabled(s, Operates(g, op))
    ensures OwnersKept(s, ApplyOperation(s, g, op))
  {
  }

  lemma TurnKeepsOwners(s: State, g: nat, turn: Turn)
    requires Enabled(s, Turns(g, turn))
    ensures OwnersKept(s, ApplyTurn(s, g, turn))
  {
    if turn.LoopResumes? {
      TopOfLoopKeepsOwners(s, g);
    }
  }

  lemma StepKeepsSlotsOwned(s: State, a: Action, s': State)
    requires Inv(s) && SlotsOwned(s) && Step(s, a, s')
    ensures SlotsOwned(s')
  {
    StepKeepsOwners(s, a, s');
    forall t: nat | t <= s'.processingSlot && t !in s'.released ensures exists g: nat :: Owns(s', g, t) {
      if t <= s.processingSlot {
        var g: nat :| Owns(s, g, t);
        assert Owns(s', g, t);
      }
    }
  }

  lemma {:induction false} SlotsAlwaysOwned(states: seq<State>, actions: seq<Action>, i: nat)
    requires Run(states, actions) && i < |states|
    ensures SlotsOwned(states[i])
  {
    if i > 0 {
      var s, s' := states[i - 1], states[i];
      SlotsAlwaysOwned(states, actions, i - 1);
      InvAlongRun(states, actions, i - 1);
      StepKeepsSlotsOwned(s, actions[i - 1], s');
    }
  }

  predicate IsLoopStep(a: Action) {
    a.Operates? || a.Turns?
  }

  /** Some loop has a resumption it can make without any outside call. */
  ghost predicate CanMove(s: State) {
    exists a: Action :: IsLoopStep(a) && Enabled(s, a)
  }

  lemma WorkingLoopCanMove(s: State, g: nat)
    requires g in s.loops && s.loops[g].Working?
    ensures CanMove(s)
  {
    var op := match s.loops[g].stage
              case Dequeuing(_) => DequeueReturns
              case Processing(_) => ProcessReturns(Stored, false)
              case Acknowledging(_) => AcknowledgeReturns(true, false)
              case Rejecting(_, _) => RejectReturns(true)
              case Returning(_) => OperationReturns;
    assert Enabled(s, Operates(g, op));
  }

  lemma GrantableLoopCanMove(s: State, g: nat)
    requires g in s.loops && s.loops[g].AwaitingSlot? && s.loops[g].previous in s.released
    ensures CanMove(s)
  {
    if s.pending == multiset{} {
      assert Enabled(s, Operates(g, SlotGranted(Nothing)));
    } else {
      var job :| job in s.pending;
      assert Enabled(s, Operates(g, SlotGranted(Found(job))));
    }
  }

  /** The oldest unreleased slot belongs to a loop that is not waiting for anybody. */
  lemma {:induction false} UnreleasedSlotCanMove(s: State, t: nat)
    requires Inv(s) && SlotsOwned(s) && t <= s.processingSlot && t !in s.released
    ensures CanMove(s)
    decreases t
  {
    var g: nat :| Owns(s, g, t);
    if s.loops[g].Working? {
      WorkingLoopCanMove(s, g);
    } else if s.loops[g].previous in s.released {
      GrantableLoopCanMove(s, g);
    } else {
      UnreleasedSlotCanMove(s, t - 1);
    }
  }

  /**
   No deadlock: in every run, as long as any loop has neither finished nor gone to sleep as the
   active one, some loop can move.  So a stopped generation can always leave.
   */
  lemma UnfinishedLoopsCanMove(states: seq<State>, actions: seq<Action>, i: nat, g: nat)
    requires Run(states, actions) && i < |states|
    requires g in states[i].loops && !states[i].loops[g].Joined?
    requires states[i].loops[g].Blocked? ==> g != states[i].activeGeneration
    ensures CanMove(states[i])
  {
    var s := states[i];
    InvAlongRun(states, actions, i);
    SlotsAlwaysOwned(states, actions, i);
    match s.loops[g]
    case AwaitingSlot(_, slot) => UnreleasedSlotCanMove(s, slot);
    case Working(_, _) => WorkingLoopCanMove(s, g);
    case Released(_) => assert Enabled(s, Turns(g, LoopResumes));
    case Woken => assert Enabled(s, Turns(g, LoopResumes));
    case Exited => assert Enabled(s, Turns(g, LoopJoins));
    case _ =>
  }
}
