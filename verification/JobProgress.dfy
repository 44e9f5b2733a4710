/**
 What the loops of the job runtime achieve by themselves: runs in which only loops move, with no
 enqueue, no start or stop and no explicit consumer.  From any state such a run either lets the
 active generation take a pending job, within a bounded number of steps, or leaves the job behind
 with the active loop asleep; which of the two is decided by the state it starts from.
 */
module JobProgress {
  import opened Options
  import opened JobRuntime

  ghost predicate LoopRun(states: seq<State>, actions: seq<Action>) {
    && |states| == |actions| + 1
    && forall i {:trigger actions[i]} :: 0 <= i < |actions| ==>
         IsLoopStep(actions[i]) && Step(states[i], actions[i], states[i + 1])
  }

  ghost predicate Leads(s: State, states: seq<State>, actions: seq<Action>, t: State) {
    LoopRun(states, actions) && states[0] == s && states[|actions|] == t
  }

  lemma Stay(s: State) returns (states: seq<State>, actions: seq<Action>)
    ensures Leads(s, states, actions, s) && |actions| == 0
  {
    states, actions := [s], [];
  }

  lemma OneStep(s: State, a: Action) returns (states: seq<State>, actions: seq<Action>)
    requires Enabled(s, a) && IsLoopStep(a)
    ensures Leads(s, states, actions, Apply(s, a)) && actions == [a]
  {
    states, actions := [s, Apply(s, a)], [a];
  }

  lemma Then(s: State, states: seq<State>, actions: seq<Action>, t: State,
             states': seq<State>, actions': seq<Action>, u: State)
    requires Leads(s, states, actions, t) && Leads(t, states', actions', u)
    ensures Leads(s, states + states'[1..], actions + actions', u)
  {
    var all, steps := states + states'[1..], actions + actions';
    forall i {:trigger steps[i]} | 0 <= i < |steps|
      ensures IsLoopStep(steps[i]) && Step(all[i], steps[i], all[i + 1])
    {
      if i >= |actions| {
        assert steps[i] == actions'[i - |actions|];
        assert all[i] == states'[i - |actions|];
      } else {
        assert steps[i] == actions[i];
      }
    }
  }

  lemma LoopStepKeepsFields(s: State, a: Action)
    requires IsLoopStep(a) && Enabled(s, a)
    ensures Apply(s, a).notifies == s.notifies && Apply(s, a).activeGeneration == s.activeGeneration
  {
  }

  /** Loop steps change neither the generation nor the kind of queue, and keep the invariant. */
  lemma {:induction false} LoopRunKeeps(states: seq<State>, actions: seq<Action>, i: nat)
    requires LoopRun(states, actions) && Inv(states[0]) && i < |states|
    ensures Inv(states[i])
    ensures states[i].notifies == states[0].notifies && states[i].activeGeneration == states[0].activeGeneration
  {
    if i > 0 {
      LoopRunKeeps(states, actions, i - 1);
      InvPreserved(states[i - 1], actions[i - 1], states[i]);
      LoopStepKeepsFields(states[i - 1], actions[i - 1]);
    }
  }

  lemma {:induction false} LoopRunKeepsSlotsOwned(states: seq<State>, actions: seq<Action>, i: nat)
    requires LoopRun(states, actions) && Inv(states[0]) && i < |states| && SlotsOwned(states[0])
    ensures SlotsOwned(states[i])
  {
    if i > 0 {
      LoopRunKeeps(states, actions, i - 1);
      LoopRunKeepsSlotsOwned(states, actions, i - 1);
      StepKeepsSlotsOwned(states[i - 1], actions[i - 1], states[i]);
    }
  }

  lemma {:induction false} LoopRunKeepsWakeups(states: seq<State>, actions: seq<Action>, i: nat)
    requires LoopRun(states, actions) && Inv(states[0]) && i < |states| && NoLostWakeup(states[0])
    ensures NoLostWakeup(states[i])
  {
    if i > 0 {
      LoopRunKeeps(states, actions, i - 1);
      LoopRunKeepsWakeups(states, actions, i - 1);
      WakeupKept(states[i - 1], actions[i - 1], states[i]);
    }
  }

  // ---------------------------------------------------------------- slots become free

  /** What the operation at this stage settles with when nothing more goes wrong. */
  function Settling(stage: Stage): Settled {
    match stage
    case Dequeuing(Nothing) => Returns(Idle)
    case Dequeuing(DequeueThrew) => Throws
    case Dequeuing(Found(job)) => Returns(Completed(job))
    case Processing(job) => Returns(Completed(job))
    case Acknowledging(job) => Returns(Completed(job))
    case Rejecting(job, rethrow) => if rethrow then Throws else Returns(Failed(job))
    case Returning(settled) => settled
  }

  function NextOperation(stage: Stage): Operation {
    match stage
    case Dequeuing(_) => DequeueReturns
    case Processing(_) => ProcessReturns(Stored, false)
    case Acknowledging(_) => AcknowledgeReturns(true, false)
    case Rejecting(_, _) => RejectReturns(true)
    case Returning(_) => OperationReturns
  }

  function StepsLeft(stage: Stage): nat {
    match stage
    case Dequeuing(Found(_)) => 4
    case Dequeuing(_) => 2
    case Processing(_) => 3
    case Acknowledging(_) => 2
    case Rejecting(_, _) => 2
    case Returning(_) => 1
  }

  function Freed(s: State, g: nat, slot: nat, next: Option<Settled>): State {
    s.(released := s.released + {slot}, loops := s.loops[g := Released(next)])
  }

  /** An operation under way can run to its end without touching the queue. */
  lemma {:induction false} WorkFinishes(s: State, g: nat) returns (states: seq<State>, actions: seq<Action>)
    requires g in s.loops && s.loops[g].Working?
    ensures Leads(s, states, actions, Freed(s, g, s.loops[g].slot, Some(Settling(s.loops[g].stage))))
    ensures |actions| <= 4
    ensures |actions| <= StepsLeft(s.loops[g].stage)
    decreases StepsLeft(s.loops[g].stage)
  {
    var l := s.loops[g];
    var op := NextOperation(l.stage);
    var t := ApplyOperation(s, g, op);
    states, actions := OneStep(s, Operates(g, op));
    if l.stage.Returning? {
      assert t == Freed(s, g, l.slot, Some(Settling(l.stage)));
    } else {
      assert t == s.(loops := s.loops[g := Working(l.slot, NextStage(l.stage, op))]);
      var more, steps := WorkFinishes(t, g);
      var u := Freed(s, g, l.slot, Some(Settling(l.stage)));
      assert Freed(t, g, l.slot, Some(Settling(t.loops[g].stage))) == u by {
        assert t.loops[g := Released(Some(Settling(l.stage)))] == s.loops[g := Released(Some(Settling(l.stage)))];
      }
      Then(s, states, actions, t, more, steps, u);
      states, actions := states + more[1..], actions + steps;
    }
  }

  function Unreleased(s: State, t: nat): set<nat> {
    set u: nat | u <= t && u !in s.released
  }

  /** The loop that holds the oldest slot lets go of it; a generation that is not active takes no job. */
  lemma OwnerLetsGo(s: State, g: nat) returns (states: seq<State>, actions: seq<Action>, next: Option<Settled>)
    requires g in s.loops && s.loops[g].HasSlot() && g != s.activeGeneration
    requires s.loops[g].AwaitingSlot? ==> s.loops[g].previous in s.released
    ensures Leads(s, states, actions, Freed(s, g, s.loops[g].slot, next)) && |actions| <= 4
  {
    if s.loops[g].Working? {
      next := Some(Settling(s.loops[g].stage));
      states, actions := WorkFinishes(s, g);
    } else {
      next := None;
      states, actions := OneStep(s, Operates(g, SlotGranted(DequeueThrew)));
      assert ApplyOperation(s, g, SlotGranted(DequeueThrew)) == Freed(s, g, s.loops[g].slot, None);
    }
  }

  /** Only slots and the loops of other generations differ. */
  ghost predicate SameForActive(s: State, t: State) {
    && t == s.(released := t.released, loops := t.loops)
    && s.loops.Keys == t.loops.Keys
    && (s.activeGeneration in s.loops ==> t.loops[s.activeGeneration] == s.loops[s.activeGeneration])
  }

  /** One more slot: its owner, if it still has one, is not waiting for anybody. */
  lemma NextSlotDrains(s: State, t: nat) returns (states: seq<State>, actions: seq<Action>, after: State)
    requires Inv(s) && SlotsOwned(s) && 0 < t <= s.processingSlot && t - 1 in s.released
    requires !Owns(s, s.activeGeneration, t)
    ensures Leads(s, states, actions, after) && t in after.released && SameForActive(s, after)
    ensures |actions| <= 4
  {
    if t in s.released {
      after := s;
      states, actions := Stay(s);
    } else {
      var g: nat :| Owns(s, g, t);
      var next;
      states, actions, next := OwnerLetsGo(s, g);
      after := Freed(s, g, t, next);
    }
  }

  lemma OneMoreUnreleased(s: State, t: nat)
    requires t !in s.released && t > 0
    ensures |Unreleased(s, t)| == |Unreleased(s, t - 1)| + 1
  {
    assert Unreleased(s, t) == Unreleased(s, t - 1) + {t};
  }

  /** Older generations hand on all slots up to `t` in at most four steps each. */
  lemma {:induction false} SlotsDrain(s: State, t: nat)
    returns (states: seq<State>, actions: seq<Action>, after: State)
    requires Inv(s) && SlotsOwned(s) && t <= s.processingSlot
    requires forall u: nat :: u <= t ==> !Owns(s, s.activeGeneration, u)
    ensures Leads(s, states, actions, after) && t in after.released && SameForActive(s, after)
    ensures |actions| <= 4 * |Unreleased(s, t)|
    decreases t
  {
    if t in s.released {
      after := s;
      states, actions := Stay(s);
    } else {
      assert t > 0 by {
        assert Slots(s);
      }
      var middle;
      states, actions, middle := SlotsDrain(s, t - 1);
      LoopRunKeeps(states, actions, |actions|);
      LoopRunKeepsSlotsOwned(states, actions, |actions|);
      OneMoreUnreleased(s, t);
      assert !Owns(middle, s.activeGeneration, t) by {
        assert !Owns(s, s.activeGeneration, t);
      }
      var more, steps;
      more, steps, after := NextSlotDrains(middle, t);
      Then(s, states, actions, middle, more, steps, after);
      states, actions := states + more[1..], actions + steps;
    }
  }

  // ---------------------------------------------------------------- a pending job is reached

  /** The active generation is granted its slot and takes a job. */
  predicate TakesJob(s: State, a: Action) {
    a.Operates? && a.g == s.activeGeneration && a.op.SlotGranted? && a.op.found.Found?
  }

  function ActiveRank(l: Loop): nat {
    if l.Working? then 3 else if l.Released? then 2 else if l.Woken? then 1 else 0
  }

  /** Four steps for every slot still held, and what the active loop needs to come to the next grant. */
  function Budget(s: State): int
    requires s.activeGeneration in s.loops
  {
    var l := s.loops[s.activeGeneration];
    4 * |Unreleased(s, s.processingSlot)| + (if l.AwaitingSlot? then -3 else if l.Woken? then 2 else 3)
  }

  ghost predicate JobAwaits(s: State) {
    Inv(s) && SlotsOwned(s) && s.notifies && s.activeGeneration != 0 && s.pending != multiset{}
  }

  lemma UnreleasedByActive(s: State)
    requires Inv(s) && s.activeGeneration != 0
    ensures var l := s.loops[s.activeGeneration];
      && (l.AwaitingSlot? ==>
            Unreleased(s, s.processingSlot) == Unreleased(s, l.previous) + {l.slot} && l.slot !in Unreleased(s, l.previous))
      && (l.Working? ==> Unreleased(s, s.processingSlot) == {l.slot})
      && (!l.HasSlot() ==> Unreleased(s, s.processingSlot) == {})
  {
    var l := s.loops[s.activeGeneration];
    assert Slots(s) && NewestSlot(s);
    if l.HasSlot() {
      assert l.slot == s.processingSlot;
    }
  }

  lemma RunKeepsAwaiting(states: seq<State>, actions: seq<Action>, i: nat)
    requires LoopRun(states, actions) && i < |states| && JobAwaits(states[0]) && NoLostWakeup(states[0])
    ensures NoLostWakeup(states[i]) && (states[i].pending != multiset{} ==> JobAwaits(states[i]))
    ensures states[i].activeGeneration == states[0].activeGeneration
  {
    LoopRunKeeps(states, actions, i);
    LoopRunKeepsSlotsOwned(states, actions, i);
    LoopRunKeepsWakeups(states, actions, i);
  }

  lemma BudgetMeans(s: State)
    requires Inv(s) && s.activeGeneration != 0 && !s.loops[s.activeGeneration].AwaitingSlot?
    ensures Budget(s) == var l := s.loops[s.activeGeneration]; if l.Working? then 7 else if l.Woken? then 2 else 3
  {
    UnreleasedByActive(s);
  }

  /** The active loop finishes its operation and is released with nothing else changed. */
  lemma WorkingLoopMoves(s: State) returns (states: seq<State>, actions: seq<Action>)
    requires JobAwaits(s) && NoLostWakeup(s) && s.loops[s.activeGeneration].Working?
    ensures LoopRun(states, actions) && states[0] == s && |actions| <= 4
    ensures var after := states[|actions|];
      JobAwaits(after) && NoLostWakeup(after) && after.activeGeneration == s.activeGeneration
      && after.loops[s.activeGeneration].Released?
  {
    states, actions := WorkFinishes(s, s.activeGeneration);
    RunKeepsAwaiting(states, actions, |actions|);
  }

  /** A released or woken loop resumes: it is woken, or queues for the next slot. */
  lemma ResumingLoopMoves(s: State) returns (after: State)
    requires JobAwaits(s) && NoLostWakeup(s) && !s.loops[s.activeGeneration].HasSlot()
    ensures Step(s, Turns(s.activeGeneration, LoopResumes), after)
    ensures after.pending == s.pending && after.activeGeneration == s.activeGeneration && s.activeGeneration in after.loops
    ensures var l := after.loops[s.activeGeneration];
      if l.Woken? then s.loops[s.activeGeneration].Released?
      else l == AwaitingSlot(s.processingSlot, s.processingSlot + 1) && after.processingSlot == s.processingSlot + 1
           && after.released == s.released
  {
    after := Apply(s, Turns(s.activeGeneration, LoopResumes));
  }

  lemma ActiveLoopMoves(s: State) returns (states: seq<State>, actions: seq<Action>, after: State)
    requires JobAwaits(s) && NoLostWakeup(s) && !s.loops[s.activeGeneration].AwaitingSlot?
    ensures Leads(s, states, actions, after) && JobAwaits(after) && NoLostWakeup(after)
    ensures after.activeGeneration == s.activeGeneration
    ensures ActiveRank(after.loops[s.activeGeneration]) < ActiveRank(s.loops[s.activeGeneration])
    ensures |actions| + Budget(after) <= Budget(s)
  {
    BudgetMeans(s);
    if s.loops[s.activeGeneration].Working? {
      states, actions := WorkingLoopMoves(s);
      after := states[|actions|];
      BudgetMeans(after);
    } else {
      after := ResumingLoopMoves(s);
      states, actions := OneStep(s, Turns(s.activeGeneration, LoopResumes));
      RunKeepsAwaiting(states, actions, 1);
      if after.loops[s.activeGeneration].Woken? {
        BudgetMeans(after);
      } else {
        UnreleasedByActive(s);
        assert Unreleased(after, after.processingSlot) == Unreleased(s, s.processingSlot) + {after.processingSlot};
      }
    }
  }

  /** Its slot is the newest one, so the active loop waits for older generations only, then takes a job. */
  lemma WaitingLoopTakesJob(s: State) returns (states: seq<State>, actions: seq<Action>)
    requires JobAwaits(s) && s.loops[s.activeGeneration].AwaitingSlot?
    ensures LoopRun(states, actions) && states[0] == s && 0 < |actions| <= Budget(s)
    ensures TakesJob(s, actions[|actions| - 1])
  {
    var g, l := s.activeGeneration, s.loops[s.activeGeneration];
    UnreleasedByActive(s);
    var drained;
    states, actions, drained := SlotsDrain(s, l.previous);
    var job :| job in s.pending;
    var grant := Operates(g, SlotGranted(Found(job)));
    var more, steps := OneStep(drained, grant);
    Then(s, states, actions, drained, more, steps, Apply(drained, grant));
    states, actions := states + more[1..], actions + steps;
  }

  /** Turn by turn the active loop comes to its slot and takes a job. */
  lemma {:induction false} ActiveLoopTakesJob(s: State) returns (states: seq<State>, actions: seq<Action>)
    requires JobAwaits(s) && NoLostWakeup(s)
    ensures LoopRun(states, actions) && states[0] == s && 0 < |actions| <= Budget(s)
    ensures TakesJob(s, actions[|actions| - 1])
    decreases ActiveRank(s.loops[s.activeGeneration])
  {
    if s.loops[s.activeGeneration].AwaitingSlot? {
      states, actions := WaitingLoopTakesJob(s);
    } else {
      var after;
      states, actions, after := ActiveLoopMoves(s);
      var more, steps := ActiveLoopTakesJob(after);
      Then(s, states, actions, after, more, steps, more[|steps|]);
      states, actions := states + more[1..], actions + steps;
    }
  }

  /**
   In every run without explicit requeues: whenever a job is pending on a notifying queue with an
   active generation, at most four loop steps for every slot still held, and three more, let that
   generation dequeue a job.
   */
  lemma PendingJobIsTaken(states: seq<State>, actions: seq<Action>, i: nat)
    returns (more: seq<State>, steps: seq<Action>)
    requires Run(states, actions) && i < |states| && AutomaticOnly(actions[..i])
    requires states[i].notifies && states[i].activeGeneration != 0 && states[i].pending != multiset{}
    ensures LoopRun(more, steps) && more[0] == states[i]
    ensures 0 < |steps| <= 4 * |Unreleased(states[i], states[i].processingSlot)| + 3
    ensures TakesJob(states[i], steps[|steps| - 1])
  {
    InvAlongRun(states, actions, i);
    SlotsAlwaysOwned(states, actions, i);
    NoWakeupLost(states, actions, i);
    more, steps := ActiveLoopTakesJob(states[i]);
  }

  // ---------------------------------------------------------------- no run of the loops can avoid it

  /** How far a loop is from having left; only a taken job or a failed dequeue sends it back up. */
  function Rank(l: Loop): nat {
    match l
    case Working(_, stage) =>
      (match stage
       case Dequeuing(_) => 10
       case Processing(_) => 9
       case Acknowledging(_) => 8
       case Rejecting(_, _) => 7
       case Returning(_) => 6)
    case Released(Some(_)) => 5
    case Woken => 4
    case AwaitingSlot(_, _) => 3
    case Released(None) => 2
    case Exited => 1
    case Joined => 0
    case Blocked(_) => 0
  }

  function TotalRank(loops: map<nat, Loop>, n: nat): nat {
    if n == 0 then 0 else (if n in loops then Rank(loops[n]) else 0) + TotalRank(loops, n - 1)
  }

  lemma {:induction false} OneLoopLower(loops: map<nat, Loop>, n: nat, g: nat, next: Loop)
    requires g in loops && Rank(next) < Rank(loops[g])
    ensures TotalRank(loops[g := next], n) <= TotalRank(loops, n)
    ensures 1 <= g <= n ==> TotalRank(loops[g := next], n) < TotalRank(loops, n)
  {
    if n > 0 {
      OneLoopLower(loops, n - 1, g, next);
    }
  }

  lemma {:induction false} RankBound(loops: map<nat, Loop>, n: nat)
    ensures TotalRank(loops, n) <= 10 * n
  {
    if n > 0 {
      RankBound(loops, n - 1);
    }
  }

  /** The active generation's dequeue fails: the queue answers with an error. */
  predicate DequeueFails(s: State, a: Action) {
    a.Operates? && a.g == s.activeGeneration && a.op.SlotGranted? && a.op.found.DequeueThrew?
  }

  lemma OperationLowersRank(s: State, g: nat, op: Operation)
    requires JobAwaits(s) && Enabled(s, Operates(g, op))
    requires !TakesJob(s, Operates(g, op)) && !DequeueFails(s, Operates(g, op))
    ensures var t := ApplyOperation(s, g, op); t.loops == s.loops[g := t.loops[g]] && Rank(t.loops[g]) < Rank(s.loops[g])
    ensures ApplyOperation(s, g, op).pending != multiset{}
  {
  }

  lemma TurnLowersRank(s: State, g: nat, turn: Turn)
    requires JobAwaits(s) && NoLostWakeup(s) && Enabled(s, Turns(g, turn))
    ensures var t := ApplyTurn(s, g, turn); t.loops == s.loops[g := t.loops[g]] && Rank(t.loops[g]) < Rank(s.loops[g])
    ensures ApplyTurn(s, g, turn).pending == s.pending
  {
  }

  /** While a job awaits, every loop step that neither takes one nor fails to dequeue brings some loop down. */
  lemma StepLowersTotal(s: State, a: Action)
    requires JobAwaits(s) && NoLostWakeup(s) && IsLoopStep(a) && Enabled(s, a) && !TakesJob(s, a) && !DequeueFails(s, a)
    ensures var t := Apply(s, a);
      && t.pending != multiset{} && t.generationCounter == s.generationCounter
      && TotalRank(t.loops, s.generationCounter) < TotalRank(s.loops, s.generationCounter)
  {
    match a {
      case Operates(g, op) => OperationLowersRank(s, g, op);
      case Turns(g, turn) => TurnLowersRank(s, g, turn);
    }
    assert Generations(s);
    OneLoopLower(s.loops, s.generationCounter, a.g, Apply(s, a).loops[a.g]);
  }

  lemma {:induction false} JobStillAwaits(states: seq<State>, actions: seq<Action>, n: nat)
    requires LoopRun(states, actions) && n < |states| && JobAwaits(states[0]) && NoLostWakeup(states[0])
    requires forall i :: 0 <= i < n ==> !TakesJob(states[0], actions[i]) && !DequeueFails(states[0], actions[i])
    ensures JobAwaits(states[n]) && NoLostWakeup(states[n]) && states[n].activeGeneration == states[0].activeGeneration
    ensures states[n].generationCounter == states[0].generationCounter
    ensures TotalRank(states[n].loops, states[0].generationCounter) + n <= TotalRank(states[0].loops, states[0].generationCounter)
  {
    if n > 0 {
      JobStillAwaits(states, actions, n - 1);
      StepLowersTotal(states[n - 1], actions[n - 1]);
      RunKeepsAwaiting(states, actions, n);
    }
  }

  /**
   A pending job is taken in the end, whichever loops move and whatever they are answered: in every run
   without explicit requeues, from a state with a job pending on a notifying queue and an active
   generation, any run of more than ten loop steps per generation ever started, in which the active
   generation's dequeue never fails, takes a job; and until one is taken some loop can move.
   */
  lemma JobTakenInEveryRun(states: seq<State>, actions: seq<Action>, i: nat, more: seq<State>, steps: seq<Action>)
    requires Run(states, actions) && i < |states| && AutomaticOnly(actions[..i])
    requires states[i].notifies && states[i].activeGeneration != 0 && states[i].pending != multiset{}
    requires LoopRun(more, steps) && more[0] == states[i]
    requires forall k :: 0 <= k < |steps| ==> !DequeueFails(states[i], steps[k])
    ensures |steps| > 10 * states[i].generationCounter ==> exists k :: 0 <= k < |steps| && TakesJob(states[i], steps[k])
    ensures (exists k :: 0 <= k < |steps| && TakesJob(states[i], steps[k])) || CanMove(more[|steps|])
  {
    InvAlongRun(states, actions, i);
    SlotsAlwaysOwned(states, actions, i);
    NoWakeupLost(states, actions, i);
    if forall k :: 0 <= k < |steps| ==> !TakesJob(states[i], steps[k]) {
      JobStillAwaits(more, steps, |steps|);
      RankBound(states[i].loops, states[i].generationCounter);
      AwaitingCanMove(more[|steps|]);
    }
  }

  lemma AwaitingCanMove(s: State)
    requires JobAwaits(s) && NoLostWakeup(s)
    ensures CanMove(s)
  {
    var states, actions := ActiveLoopTakesJob(s);
    assert Step(states[0], actions[0], states[1]);
  }

  // ---------------------------------------------------------------- a job left behind

  /** The active loop sleeps, or has found the queue empty and will sleep without looking again. */
  predicate TooLate(s: State)
    requires s.activeGeneration in s.loops
  {
    var l := s.loops[s.activeGeneration];
    l.Blocked? || (l.FoundEmpty() && !s.wakeupNotified)
  }

  ghost predicate Stranded(s: State) {
    s.activeGeneration in s.loops && s.loops[s.activeGeneration].Blocked? && s.pending != multiset{}
  }

  ghost predicate CanStrand(s: State) {
    exists states: seq<State>, actions: seq<Action> ::
      LoopRun(states, actions) && states[0] == s && Stranded(states[|actions|])
  }

  ghost predicate CanTake(s: State) {
    exists states: seq<State>, actions: seq<Action> ::
      LoopRun(states, actions) && states[0] == s && |actions| > 0 && TakesJob(s, actions[|actions| - 1])
  }

  /** A loop that is too late stays so, whatever the loops do. */
  lemma {:induction false} TooLateForGood(states: seq<State>, actions: seq<Action>, i: nat)
    requires LoopRun(states, actions) && i < |states| && Inv(states[0]) && states[0].notifies
    requires states[0].activeGeneration != 0 && TooLate(states[0])
    ensures states[i].activeGeneration in states[i].loops && TooLate(states[i])
  {
    if i > 0 {
      TooLateForGood(states, actions, i - 1);
      LoopRunKeeps(states, actions, i - 1);
      StepStaysTooLate(states[i - 1], actions[i - 1]);
    }
  }

  lemma StepStaysTooLate(s: State, a: Action)
    requires Inv(s) && s.notifies && s.activeGeneration != 0 && TooLate(s) && IsLoopStep(a) && Enabled(s, a)
    ensures var t := Apply(s, a); t.activeGeneration in t.loops && TooLate(t)
  {
  }

  lemma {:induction false} TooLateFallsAsleep(s: State) returns (states: seq<State>, actions: seq<Action>)
    requires Inv(s) && s.notifies && s.activeGeneration != 0 && TooLate(s) && s.pending != multiset{}
    ensures LoopRun(states, actions) && states[0] == s && Stranded(states[|actions|])
    decreases ActiveRank(s.loops[s.activeGeneration])
  {
    var g, l := s.activeGeneration, s.loops[s.activeGeneration];
    if l.Blocked? {
      states, actions := Stay(s);
    } else {
      if l.Working? {
        states, actions := WorkFinishes(s, g);
      } else {
        states, actions := OneStep(s, Turns(g, LoopResumes));
      }
      var middle := states[|actions|];
      LoopRunKeeps(states, actions, |actions|);
      TooLateForGood(states, actions, |actions|);
      var more, steps := TooLateFallsAsleep(middle);
      Then(s, states, actions, middle, more, steps, more[|steps|]);
      states, actions := states + more[1..], actions + steps;
    }
  }

  /** With a job pending, the loops left alone can strand it exactly when the active loop is too late. */
  lemma StrandsIff(s: State)
    requires Inv(s) && s.notifies && s.activeGeneration != 0 && s.pending != multiset{}
    ensures CanStrand(s) <==> TooLate(s)
  {
    if TooLate(s) {
      var states, actions := TooLateFallsAsleep(s);
    } else if CanStrand(s) {
      var states: seq<State>, actions: seq<Action> :|
        LoopRun(states, actions) && states[0] == s && Stranded(states[|actions|]);
      assert NoLostWakeup(s);
      LoopRunKeeps(states, actions, |actions|);
      LoopRunKeepsWakeups(states, actions, |actions|);
    }
  }

  lemma TooLateNeverTakes(states: seq<State>, actions: seq<Action>)
    requires LoopRun(states, actions) && |actions| > 0 && Inv(states[0]) && states[0].notifies
    requires states[0].activeGeneration != 0 && TooLate(states[0])
    ensures !TakesJob(states[0], actions[|actions| - 1])
  {
    var n := |actions| - 1;
    TooLateForGood(states, actions, n);
    LoopRunKeeps(states, actions, n);
    assert Enabled(states[n], actions[n]);
  }

  /** And they can take it exactly when it is not: being stranded and being taken exclude each other. */
  lemma TakenIff(s: State)
    requires JobAwaits(s)
    ensures CanTake(s) <==> !TooLate(s)
  {
    if !TooLate(s) {
      var states, actions := ActiveLoopTakesJob(s);
    } else if CanTake(s) {
      var states: seq<State>, actions: seq<Action> :|
        LoopRun(states, actions) && states[0] == s && |actions| > 0 && TakesJob(s, actions[|actions| - 1]);
      TooLateNeverTakes(states, actions);
    }
  }

  /**
   A job that an explicit consumer gives back is left behind by the loops exactly when, at that
   moment, the active loop sleeps or has found the queue empty with no wakeup noted; otherwise it, or
   another pending job, can be taken.
   */
  lemma ExplicitRequeueStrandsIff(s: State, job: Job)
    requires Inv(s) && SlotsOwned(s) && s.notifies && s.activeGeneration != 0
    ensures var t := ApplyQueueing(s, ExplicitRequeue(job));
      (CanStrand(t) <==> TooLate(s)) && (CanTake(t) <==> !TooLate(s))
  {
    var t := ApplyQueueing(s, ExplicitRequeue(job));
    assert job in t.pending;
    QueueingKeepsInv(s, ExplicitRequeue(job));
    StepKeepsSlotsOwned(s, Queues(ExplicitRequeue(job)), t);
    StrandsIff(t);
    TakenIff(t);
  }
}
