/**
 When the lock of an identity is given back (packages/engine/src/snapshot-composition.ts,
 `acquireCompositionLease`): exactly which leases keep it, which of them can still be released, and
 which are left behind for good.
 */
module SnapshotLeases {
  import opened Options
  import opened SnapshotComposition

  // ---------------------------------------------------------------- every lock has its lease

  ghost predicate SomeLive(leases: seq<Lease>, identity: Identity) {
    exists l :: 0 <= l < |leases| && Live(leases[l]) && leases[l].identity == identity
  }

  ghost predicate Backed(s: State) {
    forall identity :: identity in s.locks ==> SomeLive(s.leases, identity)
  }

  /** A lease that is held by a composition is the one it is working under, unless it has died. */
  predicate HolderWorks(s: State, l: nat)
    requires l < |s.leases|
  {
    var lease := s.leases[l];
    lease.status == Held && lease.holder.Some? ==>
      && lease.holder.value < |s.attempts|
      && var phase := s.attempts[lease.holder.value].phase;
         phase.Dead? || (Under(phase) && phase.lease == l)
  }

  ghost predicate HoldersWork(s: State) {
    forall l :: 0 <= l < |s.leases| ==> HolderWorks(s, l)
  }

  ghost predicate LockInv(s: State) {
    LeaseInv(s) && Backed(s) && HoldersWork(s)
  }

  lemma StillLive(leases: seq<Lease>, more: seq<Lease>, identity: Identity)
    requires SomeLive(leases, identity) && |leases| <= |more|
    requires forall l :: 0 <= l < |leases| && leases[l].identity == identity ==>
      more[l].identity == identity && (Live(leases[l]) ==> Live(more[l]))
    ensures SomeLive(more, identity)
  {
    var l :| 0 <= l < |leases| && Live(leases[l]) && leases[l].identity == identity;
    assert Live(more[l]);
  }

  /** A step changes a lease at most from held to removing to stuck or gone, and adds at most one lease. */
  lemma LeasesAfter(config: Config, s: State, action: Action)
    requires LeaseInv(s) && Enabled(s, action)
    ensures var t := Apply(config, s, action);
      && |s.leases| <= |t.leases| <= |s.leases| + 1
      && (forall l :: 0 <= l < |s.leases| ==> t.leases[l].identity == s.leases[l].identity && t.leases[l].holder == s.leases[l].holder)
      && (forall l :: 0 <= l < |s.leases| ==> t.leases[l] == s.leases[l] || s.leases[l].status in {Held, Removing})
      && (forall l :: 0 <= l < |s.leases| && action != RemovalDone(l) && Live(s.leases[l]) ==> Live(t.leases[l]))
  {
    if action.Step? {
      assert OwnsLease(s, action.attempt);
    }
  }

  lemma LocksAfter(config: Config, s: State, action: Action)
    requires LeaseInv(s) && Enabled(s, action)
    ensures var t := Apply(config, s, action);
      && (action.RemovalDone? ==> t.locks == s.locks - {s.leases[action.lease].identity})
      && (!action.RemovalDone? ==> s.locks <= t.locks)
      && (forall identity :: identity in t.locks && identity !in s.locks ==> SomeLive(t.leases, identity))
  {
    var t := Apply(config, s, action);
    if |t.leases| > |s.leases| {
      assert Live(t.leases[|s.leases|]);
    }
  }

  lemma ActionKeepsBacked(config: Config, s: State, action: Action)
    requires LockInv(s) && Enabled(s, action)
    ensures Backed(Apply(config, s, action))
  {
    var t := Apply(config, s, action);
    LeasesAfter(config, s, action);
    LocksAfter(config, s, action);
    forall identity | identity in t.locks ensures SomeLive(t.leases, identity) {
      if identity in s.locks {
        StillLive(s.leases, t.leases, identity);
      }
    }
  }

  lemma ActionKeepsHolders(config: Config, s: State, action: Action)
    requires LockInv(s) && Enabled(s, action)
    ensures HoldersWork(Apply(config, s, action))
  {
    var t := Apply(config, s, action);
    forall l | 0 <= l < |t.leases| ensures HolderWorks(t, l) {
      if l < |s.leases| {
        assert HolderWorks(s, l);
        if action.Step? {
          assert OwnsLease(s, action.attempt);
        }
      }
    }
  }

  lemma ActionKeepsLocks(config: Config, s: State, action: Action)
    requires LockInv(s) && Enabled(s, action)
    ensures LockInv(Apply(config, s, action))
  {
    ActionKeepsLeases(config, s, action);
    ActionKeepsBacked(config, s, action);
    ActionKeepsHolders(config, s, action);
  }

  lemma {:induction false} LocksAlongRun(config: Config, states: seq<State>, actions: seq<Action>, n: nat)
    requires Run(config, states, actions) && n < |states|
    ensures LockInv(states[n])
  {
    if n > 0 {
      LocksAlongRun(config, states, actions, n - 1);
      ActionKeepsLocks(config, states[n - 1], actions[n - 1]);
    }
  }

  /** In every run an identity is locked if and only if some lease of it has not been removed. */
  lemma LockedIff(config: Config, states: seq<State>, actions: seq<Action>, n: nat, identity: Identity)
    requires Run(config, states, actions) && n < |states|
    ensures identity in states[n].locks <==> SomeLive(states[n].leases, identity)
  {
    LocksAlongRun(config, states, actions, n);
  }

  /** So a waiting composition takes the lease exactly when every earlier lease of its identity is gone. */
  lemma TryLockSucceedsIff(config: Config, states: seq<State>, actions: seq<Action>, n: nat, i: nat)
    requires Run(config, states, actions) && n < |states| && i < |states[n].attempts|
    requires CanMove(states[n], i, TryLock)
    ensures Moved(config, states[n], i, TryLock).attempts[i].phase.Verifying? <==>
      forall l :: 0 <= l < |states[n].leases| && states[n].leases[l].identity == states[n].attempts[i].identity ==>
        states[n].leases[l].status == Gone
  {
    LockedIff(config, states, actions, n, states[n].attempts[i].identity);
  }

  // ---------------------------------------------------------------- locks left behind

  /** Nobody will remove this lease's lock: its removal failed, or its composition died holding it. */
  predicate Abandoned(s: State, l: nat)
    requires l < |s.leases|
  {
    var lease := s.leases[l];
    || lease.status == Stuck
    || (lease.status == Held && lease.holder.Some? && lease.holder.value < |s.attempts| && s.attempts[lease.holder.value].phase.Dead?)
  }

  lemma ActionKeepsAbandoned(config: Config, s: State, action: Action, l: nat)
    requires LeaseInv(s) && Enabled(s, action) && l < |s.leases| && Abandoned(s, l)
    ensures l < |Apply(config, s, action).leases| && Abandoned(Apply(config, s, action), l)
    ensures Apply(config, s, action).leases[l].identity == s.leases[l].identity
  {
    if action.Step? {
      assert OwnsLease(s, action.attempt);
    }
  }

  /** A lock left behind is never taken again: no later composition of that identity starts verifying. */
  lemma {:induction false} AbandonedLockBlocks(config: Config, states: seq<State>, actions: seq<Action>, k: nat, l: nat)
    requires Path(config, states, actions) && k < |states| && LeaseInv(states[0])
    requires l < |states[0].leases| && Abandoned(states[0], l)
    ensures l < |states[k].leases| && Abandoned(states[k], l) && states[k].leases[l].identity == states[0].leases[l].identity
    ensures LeaseInv(states[k]) && states[0].leases[l].identity in states[k].locks
    ensures forall i :: 0 <= i < |states[k].attempts| && states[k].attempts[i].identity == states[0].leases[l].identity ==>
      !Under(states[k].attempts[i].phase)
  {
    if k > 0 {
      AbandonedLockBlocks(config, states, actions, k - 1, l);
      ActionKeepsAbandoned(config, states[k - 1], actions[k - 1], l);
      ActionKeepsLeases(config, states[k - 1], actions[k - 1]);
    }
    forall i | 0 <= i < |states[k].attempts| && states[k].attempts[i].identity == states[0].leases[l].identity
      ensures !Under(states[k].attempts[i].phase)
    {
      assert OwnsLease(states[k], i);
    }
  }

  // ---------------------------------------------------------------- locks that are still going to be released

  /** What the holder of a lease does next when nothing goes wrong. */
  function OwnMove(phase: Phase): Move
    requires Under(phase)
  {
    match phase
    case Verifying(_) => Verify
    case Hashing(_) => HashTree
    case Looking(_) => Look
    case Renaming(_) => Rename
    case Comparing(_) => Compare
    case Finishing(_, _) => Release
  }

  function StepsLeft(phase: Phase): nat {
    match phase
    case Verifying(_) => 5
    case Hashing(_) => 4
    case Looking(_) => 3
    case Renaming(_) => 2
    case Comparing(_) => 1
    case _ => 0
  }

  /** An action of this lease's own: a step of its holder, its release function, or the removal asked for. */
  predicate OwnAction(s: State, l: nat, action: Action)
    requires l < |s.leases|
  {
    match action
    case Step(i, m) => s.leases[l].holder == Some(i) && !m.Die? && !m.Fail?
    case ReleaseAgain(k) => k == l
    case RemovalDone(k) => k == l
    case _ => false
  }

  function NextOwnAction(s: State, l: nat): Action
    requires l < |s.leases| && HolderWorks(s, l) && Live(s.leases[l]) && !Abandoned(s, l)
  {
    var lease := s.leases[l];
    if lease.status == Removing then RemovalDone(l)
    else if lease.holder.None? then ReleaseAgain(l)
    else Step(lease.holder.value, OwnMove(s.attempts[lease.holder.value].phase))
  }

  function OwnStepsLeft(s: State, l: nat): nat
    requires l < |s.leases|
  {
    var lease := s.leases[l];
    if lease.status != Held then 0
    else if lease.holder.None? || lease.holder.value >= |s.attempts| then 1
    else 1 + StepsLeft(s.attempts[lease.holder.value].phase)
  }

  lemma OwnActionAdvances(config: Config, s: State, l: nat)
    requires LockInv(s) && l < |s.leases| && Live(s.leases[l]) && HolderWorks(s, l) && !Abandoned(s, l)
    ensures var action := NextOwnAction(s, l);
      && Enabled(s, action) && OwnAction(s, l, action)
      && (action == RemovalDone(l) ==> s.leases[l].identity !in Apply(config, s, action).locks)
      && (action != RemovalDone(l) ==>
            && l < |Apply(config, s, action).leases| && Live(Apply(config, s, action).leases[l])
            && !Abandoned(Apply(config, s, action), l)
            && Apply(config, s, action).leases[l].holder == s.leases[l].holder
            && Apply(config, s, action).leases[l].identity == s.leases[l].identity
            && OwnStepsLeft(Apply(config, s, action), l) < OwnStepsLeft(s, l))
  {
    var lease := s.leases[l];
    if lease.holder.Some? && lease.status == Held {
      assert OwnsLease(s, lease.holder.value);
    }
  }

  /** A lease that is not abandoned can be carried to the removal of its lock by its own steps alone. */
  lemma {:induction false} OwnStepsRelease(config: Config, s: State, l: nat) returns (states: seq<State>, actions: seq<Action>)
    requires LockInv(s) && l < |s.leases| && Live(s.leases[l]) && !Abandoned(s, l)
    ensures Path(config, states, actions) && states[0] == s && |actions| <= 7
    ensures s.leases[l].identity !in states[|actions|].locks
    ensures forall a :: a in actions ==> OwnAction(s, l, a)
    ensures |actions| <= OwnStepsLeft(s, l) + 1
    decreases OwnStepsLeft(s, l)
  {
    assert HolderWorks(s, l);
    OwnActionAdvances(config, s, l);
    var action := NextOwnAction(s, l);
    var t := Apply(config, s, action);
    if action == RemovalDone(l) {
      states, actions := [s, t], [action];
    } else {
      ActionKeepsLocks(config, s, action);
      var later, more := OwnStepsRelease(config, t, l);
      states, actions := [s] + later, [action] + more;
      PathWithHead(config, s, action, later, more);
    }
  }

  lemma PathWithHead(config: Config, s: State, action: Action, states: seq<State>, actions: seq<Action>)
    requires Path(config, states, actions) && Enabled(s, action) && states[0] == Apply(config, s, action)
    ensures Path(config, [s] + states, [action] + actions)
  {
    var all, steps := [s] + states, [action] + actions;
    forall i {:trigger steps[i]} | 0 <= i < |steps|
      ensures Enabled(all[i], steps[i]) && all[i + 1] == Apply(config, all[i], steps[i])
    {
      if i > 0 {
        assert steps[i] == actions[i - 1] && all[i] == states[i - 1] && all[i + 1] == states[i];
      }
    }
  }

  ghost predicate CanBeFreed(config: Config, s: State, identity: Identity) {
    exists states: seq<State>, actions: seq<Action> :: Path(config, states, actions) && states[0] == s && identity !in states[|actions|].locks
  }

  /** In any run: the lock of a live lease can be freed at all if and only if the lease is not abandoned. */
  lemma FreedIff(config: Config, states: seq<State>, actions: seq<Action>, n: nat, l: nat)
    requires Run(config, states, actions) && n < |states| && l < |states[n].leases| && Live(states[n].leases[l])
    ensures CanBeFreed(config, states[n], states[n].leases[l].identity) <==> !Abandoned(states[n], l)
  {
    LocksAlongRun(config, states, actions, n);
    if Abandoned(states[n], l) {
      forall later: seq<State>, more: seq<Action> | Path(config, later, more) && later[0] == states[n]
        ensures states[n].leases[l].identity in later[|more|].locks
      {
        AbandonedLockBlocks(config, later, more, |more|, l);
      }
    } else {
      var later, more := OwnStepsRelease(config, states[n], l);
    }
  }

  // ---------------------------------------------------------------- and it does happen that one is left behind

  function OneAttempt(store: map<Identity, Tree>, identity: Identity, staging: Tree, placed: Option<Placed>,
                      phase: Phase, status: Status): State {
    State({identity}, [Lease(identity, Some(0), status)], [Attempt(identity, staging, placed, phase)], store)
  }

  /** A composition that dies while it holds the lease. */
  lemma DeathAbandons(config: Config, store: map<Identity, Tree>, identity: Identity, staging: Tree, placed: Option<Placed>)
    returns (states: seq<State>, actions: seq<Action>)
    ensures Run(config, states, actions) && states[0].store == store
    ensures states[|actions|] == OneAttempt(store, identity, staging, placed, Dead, Held) && Abandoned(states[|actions|], 0)
  {
    states := [Initial(store), State({}, [], [Attempt(identity, staging, placed, Waiting)], store),
               OneAttempt(store, identity, staging, placed, Verifying(0), Held),
               OneAttempt(store, identity, staging, placed, Dead, Held)];
    actions := [Start(identity, staging, placed), Step(0, TryLock), Step(0, Die)];
  }

  function FailingRemoval(store: map<Identity, Tree>, identity: Identity, staging: Tree, placed: Option<Placed>): seq<State> {
    [Initial(store), State({}, [], [Attempt(identity, staging, placed, Waiting)], store),
     OneAttempt(store, identity, staging, placed, Verifying(0), Held),
     OneAttempt(store, identity, staging, placed, Finishing(0, Failed), Held),
     OneAttempt(store, identity, staging, placed, Leaving(0, Failed), Removing),
     OneAttempt(store, identity, staging, placed, Leaving(0, Failed), Stuck),
     OneAttempt(store, identity, staging, placed, Done(Failed), Stuck)]
  }

  function FailingRemovalActions(identity: Identity, staging: Tree, placed: Option<Placed>): seq<Action> {
    [Start(identity, staging, placed), Step(0, TryLock), Step(0, Fail), Step(0, Release), RemovalFailed(0), Step(0, Finish)]
  }

  lemma FailingRemovalSteps(config: Config, store: map<Identity, Tree>, identity: Identity, staging: Tree,
                            placed: Option<Placed>, i: nat)
    requires i < 6
    ensures var states, action := FailingRemoval(store, identity, staging, placed), FailingRemovalActions(identity, staging, placed)[i];
      Enabled(states[i], action) && states[i + 1] == Apply(config, states[i], action)
  {
  }

  /** A composition that finishes, but whose lock directory cannot be removed. */
  lemma FailedRemovalAbandons(config: Config, store: map<Identity, Tree>, identity: Identity, staging: Tree, placed: Option<Placed>)
    returns (states: seq<State>, actions: seq<Action>)
    ensures Run(config, states, actions) && states[0].store == store
    ensures states[|actions|] == OneAttempt(store, identity, staging, placed, Done(Failed), Stuck) && Abandoned(states[|actions|], 0)
  {
    states := FailingRemoval(store, identity, staging, placed);
    actions := FailingRemovalActions(identity, staging, placed);
    forall i {:trigger actions[i]} | 0 <= i < |actions|
      ensures Enabled(states[i], actions[i]) && states[i + 1] == Apply(config, states[i], actions[i])
    {
      FailingRemovalSteps(config, store, identity, staging, placed, i);
    }
  }
}
