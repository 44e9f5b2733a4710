/**
 The composed-snapshot store (packages/engine/src/snapshot-composition.ts): many compositions, each
 waiting for the lease of its identity, verifying and hashing its private staging tree under the lease,
 and publishing it by a rename that the first writer wins.

 Steps are the effects on the file system: a `mkdir` that fails if the lock exists, an `rm` that takes
 effect some time after it is asked for or never, a `rename` that fails on an existing target.
 Compositions may die between any two steps, and other writers may publish without the lease.
 */
module SnapshotComposition {
  import opened Options
  import opened ArtifactTree

  type Identity = string

  type Tree = seq<Entry>

  type Hash = seq<Record>

  datatype Config = Config(less: (string, string) -> bool, limits: Limits)

  function HashOf(config: Config, tree: Tree): Result<Hash, Error> {
    Digest(tree, config.less, config.limits)
  }

  /** What the materializer recorded: the placed top-level entries and the hash they must have. */
  datatype Placed = Placed(entries: set<string>, contentHash: Hash)

  predicate DependencyHolds(config: Config, tree: Tree, placed: Option<Placed>) {
    placed.Some? ==>
      EntriesDigest(tree, placed.value.entries, config.less, config.limits) == Ok(placed.value.contentHash)
  }

  datatype Outcome = Published | Reused | Failed

  datatype Phase =
    | Waiting
    | Verifying(lease: nat)
    | Hashing(lease: nat)
    | Looking(lease: nat)
    | Renaming(lease: nat)
    | Comparing(lease: nat)
    | Finishing(lease: nat, outcome: Outcome)
    | Leaving(lease: nat, outcome: Outcome)
    | Done(outcome: Outcome)
    | Dead

  datatype Attempt = Attempt(identity: Identity, staging: Tree, placed: Option<Placed>, phase: Phase)

  /** `Stuck`: the removal of the lock failed, which the release ignores. */
  datatype Status = Held | Removing | Stuck | Gone

  datatype Lease = Lease(identity: Identity, holder: Option<nat>, status: Status)

  datatype State = State(locks: set<Identity>, leases: seq<Lease>, attempts: seq<Attempt>, store: map<Identity, Tree>)

  // ---------------------------------------------------------------- the lease

  /** `mkdir` of the lock directory. */
  function Acquire(s: State, identity: Identity, holder: Option<nat>): State {
    s.(locks := s.locks + {identity}, leases := s.leases + [Lease(identity, holder, Held)])
  }

  /** The release function returned with a lease: only its first call removes anything. */
  function CallRelease(s: State, l: nat): State
    requires l < |s.leases|
  {
    if s.leases[l].status == Held then s.(leases := s.leases[l := s.leases[l].(status := Removing)]) else s
  }

  /** The removal takes effect: whatever lock directory has that name is gone. */
  function Remove(s: State, l: nat): State
    requires l < |s.leases|
  {
    s.(locks := s.locks - {s.leases[l].identity}, leases := s.leases[l := s.leases[l].(status := Gone)])
  }

  function FailToRemove(s: State, l: nat): State
    requires l < |s.leases|
  {
    s.(leases := s.leases[l := s.leases[l].(status := Stuck)])
  }

  // ---------------------------------------------------------------- one composition

  datatype Move =
    | Tamper(tree: Tree)
    | TryLock
    | GiveUp
    | Verify
    | HashTree
    | Look
    | Rename
    | Compare
    | Fail
    | Release
    | Finish
    | Die

  predicate CanMove(s: State, i: nat, m: Move)
    requires i < |s.attempts|
  {
    var phase := s.attempts[i].phase;
    match m
    case Tamper(_) => phase.Waiting?
    case TryLock => phase.Waiting?
    case GiveUp => phase.Waiting?
    case Verify => phase.Verifying?
    case HashTree => phase.Hashing?
    case Look => phase.Looking?
    case Rename => phase.Renaming?
    case Compare => phase.Comparing?
    case Fail => phase.Looking? || phase.Renaming? || phase.Comparing? || phase.Hashing? || phase.Verifying?
    case Release => phase.Finishing?
    case Finish => phase.Leaving? && phase.lease < |s.leases| && (s.leases[phase.lease].status.Gone? || s.leases[phase.lease].status.Stuck?)
    case Die => !phase.Done?
  }

  function At(s: State, i: nat, phase: Phase): State
    requires i < |s.attempts|
  {
    s.(attempts := s.attempts[i := s.attempts[i].(phase := phase)])
  }

  function Lock(s: State, i: nat): State
    requires i < |s.attempts|
  {
    var identity := s.attempts[i].identity;
    if identity in s.locks then s else At(Acquire(s, identity, Some(i)), i, Verifying(|s.leases|))
  }

  function Publish(s: State, i: nat): State
    requires i < |s.attempts| && s.attempts[i].phase.Renaming?
  {
    var a := s.attempts[i];
    if a.identity in s.store then At(s, i, Comparing(a.phase.lease))
    else At(s.(store := s.store[a.identity := a.staging]), i, Finishing(a.phase.lease, Published))
  }

  predicate Identical(config: Config, s: State, a: Attempt) {
    a.identity in s.store && HashOf(config, s.store[a.identity]).Ok? && HashOf(config, s.store[a.identity]) == HashOf(config, a.staging)
  }

  function Moved(config: Config, s: State, i: nat, m: Move): State
    requires i < |s.attempts| && CanMove(s, i, m)
  {
    var a := s.attempts[i];
    match m
    case Tamper(tree) => s.(attempts := s.attempts[i := a.(staging := tree)])
    case TryLock => Lock(s, i)
    case GiveUp => At(s, i, Done(Failed))
    case Verify => At(s, i, if DependencyHolds(config, a.staging, a.placed) then Hashing(a.phase.lease) else Finishing(a.phase.lease, Failed))
    case HashTree => At(s, i, if HashOf(config, a.staging).Ok? then Looking(a.phase.lease) else Finishing(a.phase.lease, Failed))
    case Look => At(s, i, if a.identity in s.store then Comparing(a.phase.lease) else Renaming(a.phase.lease))
    case Rename => Publish(s, i)
    case Compare => At(s, i, Finishing(a.phase.lease, if Identical(config, s, a) then Reused else Failed))
    case Fail => At(s, i, Finishing(a.phase.lease, Failed))
    case Release => LeaveLease(s, i)
    case Finish => At(s, i, Done(a.phase.outcome))
    case Die => At(s, i, Dead)
  }

  function LeaveLease(s: State, i: nat): State
    requires i < |s.attempts| && s.attempts[i].phase.Finishing?
  {
    var phase := s.attempts[i].phase;
    var next := At(s, i, Leaving(phase.lease, phase.outcome));
    if phase.lease < |s.leases| then CallRelease(next, phase.lease) else next
  }

  // ---------------------------------------------------------------- all of them

  datatype Action =
    | Start(identity: Identity, staging: Tree, placed: Option<Placed>)
    | Step(attempt: nat, move: Move)
    | AcquireDirectly(identity: Identity)
    | ReleaseAgain(lease: nat)
    | RemovalDone(lease: nat)
    | RemovalFailed(lease: nat)
    | OtherWriter(identity: Identity, tree: Tree)

  /** A release function is called again only by someone who has it: a direct owner, or a composition that is leaving. */
  predicate MayRelease(s: State, l: nat)
    requires l < |s.leases|
  {
    var holder := s.leases[l].holder;
    holder.Some? ==>
      && holder.value < |s.attempts|
      && (s.attempts[holder.value].phase.Leaving? || s.attempts[holder.value].phase.Done?)
  }

  predicate Enabled(s: State, action: Action) {
    match action
    case Start(_, _, _) => true
    case Step(i, m) => i < |s.attempts| && CanMove(s, i, m)
    case AcquireDirectly(_) => true
    case ReleaseAgain(l) => l < |s.leases| && MayRelease(s, l)
    case RemovalDone(l) => l < |s.leases| && s.leases[l].status == Removing
    case RemovalFailed(l) => l < |s.leases| && s.leases[l].status == Removing
    case OtherWriter(identity, _) => identity !in s.store
  }

  function Apply(config: Config, s: State, action: Action): State
    requires Enabled(s, action)
  {
    match action
    case Start(identity, staging, placed) => s.(attempts := s.attempts + [Attempt(identity, staging, placed, Waiting)])
    case Step(i, m) => Moved(config, s, i, m)
    case AcquireDirectly(identity) => if identity in s.locks then s else Acquire(s, identity, None)
    case ReleaseAgain(l) => CallRelease(s, l)
    case RemovalDone(l) => Remove(s, l)
    case RemovalFailed(l) => FailToRemove(s, l)
    case OtherWriter(identity, tree) => s.(store := s.store[identity := tree])
  }

  function Initial(store: map<Identity, Tree>): State {
    State({}, [], [], store)
  }

  /** Consecutive steps from any state. */
  ghost predicate Path(config: Config, states: seq<State>, actions: seq<Action>) {
    && |states| == |actions| + 1
    && forall i {:trigger actions[i]} :: 0 <= i < |actions| ==>
         Enabled(states[i], actions[i]) && states[i + 1] == Apply(config, states[i], actions[i])
  }

  ghost predicate Run(config: Config, states: seq<State>, actions: seq<Action>) {
    Path(config, states, actions) && states[0] == Initial(states[0].store)
  }

  // ---------------------------------------------------------------- leases are exclusive

  predicate Live(lease: Lease) {
    !lease.status.Gone?
  }

  ghost predicate Exclusive(leases: seq<Lease>, locks: set<Identity>) {
    && (forall l :: 0 <= l < |leases| && Live(leases[l]) ==> leases[l].identity in locks)
    && (forall l, m :: 0 <= l < m < |leases| && Live(leases[l]) && Live(leases[m]) ==> leases[l].identity != leases[m].identity)
  }

  /** The phases between taking the lease and giving it back. */
  predicate Under(phase: Phase) {
    phase.Verifying? || phase.Hashing? || phase.Looking? || phase.Renaming? || phase.Comparing? || phase.Finishing?
  }

  predicate OwnsLease(s: State, i: nat)
    requires i < |s.attempts|
  {
    var a := s.attempts[i];
    Under(a.phase) ==> a.phase.lease < |s.leases| && s.leases[a.phase.lease] == Lease(a.identity, Some(i), Held)
  }

  ghost predicate Owned(s: State) {
    forall i :: 0 <= i < |s.attempts| ==> OwnsLease(s, i)
  }

  ghost predicate LeaseInv(s: State) {
    Exclusive(s.leases, s.locks) && Owned(s)
  }

  lemma MoveKeepsLeases(config: Config, s: State, i: nat, m: Move)
    requires LeaseInv(s) && i < |s.attempts| && CanMove(s, i, m)
    ensures LeaseInv(Moved(config, s, i, m))
  {
    var t := Moved(config, s, i, m);
    assert OwnsLease(s, i);
    forall j | 0 <= j < |t.attempts| ensures OwnsLease(t, j) {
      assert OwnsLease(s, j);
    }
  }

  lemma ActionKeepsLeases(config: Config, s: State, action: Action)
    requires LeaseInv(s) && Enabled(s, action)
    ensures LeaseInv(Apply(config, s, action))
  {
    var t := Apply(config, s, action);
    if action.Step? {
      MoveKeepsLeases(config, s, action.attempt, action.move);
    } else {
      forall j | 0 <= j < |t.attempts| ensures OwnsLease(t, j) {
        if j < |s.attempts| {
          assert OwnsLease(s, j);
        }
      }
    }
  }

  // ---------------------------------------------------------------- what outcomes mean

  function OutcomeOf(phase: Phase): Option<Outcome> {
    if phase.Finishing? || phase.Leaving? || phase.Done? then Some(phase.outcome) else None
  }

  predicate Verified(config: Config, a: Attempt) {
    DependencyHolds(config, a.staging, a.placed) && HashOf(config, a.staging).Ok?
  }

  /** What each composition knows of its staging tree and of the store. */
  predicate Knows(config: Config, a: Attempt, store: map<Identity, Tree>) {
    && (a.phase.Hashing? ==> DependencyHolds(config, a.staging, a.placed))
    && (a.phase.Looking? || a.phase.Renaming? || a.phase.Comparing? ==> Verified(config, a))
    && (OutcomeOf(a.phase) == Some(Published) ==>
          Verified(config, a) && a.identity in store && store[a.identity] == a.staging)
    && (OutcomeOf(a.phase) == Some(Reused) ==>
          Verified(config, a) && a.identity in store && HashOf(config, store[a.identity]) == HashOf(config, a.staging))
  }

  ghost predicate AllKnow(config: Config, s: State) {
    forall i :: 0 <= i < |s.attempts| ==> Knows(config, s.attempts[i], s.store)
  }

  predicate Won(a: Attempt) {
    OutcomeOf(a.phase) == Some(Published)
  }

  ghost predicate OneWinner(s: State) {
    forall i, j :: 0 <= i < j < |s.attempts| && Won(s.attempts[i]) && Won(s.attempts[j]) ==>
      s.attempts[i].identity != s.attempts[j].identity
  }

  /** The store only gains identities. */
  predicate Extends(before: map<Identity, Tree>, after: map<Identity, Tree>) {
    forall identity :: identity in before ==> identity in after && after[identity] == before[identity]
  }

  lemma ActionExtendsStore(config: Config, s: State, action: Action)
    requires Enabled(s, action)
    ensures Extends(s.store, Apply(config, s, action).store)
  {
  }

  lemma KnowsSurvives(config: Config, a: Attempt, before: map<Identity, Tree>, after: map<Identity, Tree>)
    requires Knows(config, a, before) && Extends(before, after)
    ensures Knows(config, a, after)
  {
  }

  lemma MoveKeepsKnowledge(config: Config, s: State, i: nat, m: Move)
    requires i < |s.attempts| && CanMove(s, i, m) && Knows(config, s.attempts[i], s.store)
    ensures Knows(config, Moved(config, s, i, m).attempts[i], Moved(config, s, i, m).store)
  {
  }

  lemma MoveOnlyItself(config: Config, s: State, i: nat, m: Move, j: nat)
    requires i < |s.attempts| && CanMove(s, i, m) && j < |s.attempts| && j != i
    ensures |Moved(config, s, i, m).attempts| == |s.attempts| && Moved(config, s, i, m).attempts[j] == s.attempts[j]
  {
  }

  lemma ActionKeepsKnowledge(config: Config, s: State, action: Action)
    requires AllKnow(config, s) && Enabled(s, action)
    ensures AllKnow(config, Apply(config, s, action))
  {
    var t := Apply(config, s, action);
    ActionExtendsStore(config, s, action);
    forall j | 0 <= j < |t.attempts| ensures Knows(config, t.attempts[j], t.store) {
      if j < |s.attempts| {
        assert Knows(config, s.attempts[j], s.store);
        if action.Step? && action.attempt == j {
          MoveKeepsKnowledge(config, s, j, action.move);
        } else {
          if action.Step? {
            MoveOnlyItself(config, s, action.attempt, action.move, j);
          }
          KnowsSurvives(config, t.attempts[j], s.store, t.store);
        }
      }
    }
  }

  /** Winning needs an identity that is not in the store yet. */
  lemma WinnerIsFirst(config: Config, s: State, i: nat, m: Move)
    requires i < |s.attempts| && CanMove(s, i, m)
    ensures Won(Moved(config, s, i, m).attempts[i]) ==> Won(s.attempts[i]) || s.attempts[i].identity !in s.store
    ensures Moved(config, s, i, m).attempts[i].identity == s.attempts[i].identity
  {
  }

  lemma ActionKeepsOneWinner(config: Config, s: State, action: Action)
    requires AllKnow(config, s) && OneWinner(s) && Enabled(s, action)
    ensures OneWinner(Apply(config, s, action))
  {
    var t := Apply(config, s, action);
    if action.Step? {
      var i := action.attempt;
      WinnerIsFirst(config, s, i, action.move);
      forall j, k | 0 <= j < k < |t.attempts| && Won(t.attempts[j]) && Won(t.attempts[k])
        ensures t.attempts[j].identity != t.attempts[k].identity
      {
        if j != i {
          MoveOnlyItself(config, s, i, action.move, j);
          assert Knows(config, s.attempts[j], s.store);
        }
        if k != i {
          MoveOnlyItself(config, s, i, action.move, k);
          assert Knows(config, s.attempts[k], s.store);
        }
      }
    }
  }

  // ---------------------------------------------------------------- runs

  ghost predicate Inv(config: Config, s: State) {
    LeaseInv(s) && AllKnow(config, s) && OneWinner(s)
  }

  lemma {:induction false} InvAlongRun(config: Config, states: seq<State>, actions: seq<Action>, n: nat)
    requires Run(config, states, actions) && n < |states|
    ensures Inv(config, states[n])
  {
    if n > 0 {
      InvAlongRun(config, states, actions, n - 1);
      var action := actions[n - 1];
      ActionKeepsLeases(config, states[n - 1], action);
      ActionKeepsKnowledge(config, states[n - 1], action);
      ActionKeepsOneWinner(config, states[n - 1], action);
    }
  }

  /**
   However often release functions are called, and whatever dies when, no two leases of one identity
   exist at once.
   */
  lemma AtMostOneLease(config: Config, states: seq<State>, actions: seq<Action>, n: nat, l: nat, m: nat)
    requires Run(config, states, actions) && n < |states| && l < m < |states[n].leases|
    requires states[n].leases[l].identity == states[n].leases[m].identity
    ensures states[n].leases[l].status == Gone || states[n].leases[m].status == Gone
  {
    InvAlongRun(config, states, actions, n);
  }

  /** No two compositions of one identity are between taking the lease and giving it back. */
  lemma AtMostOneComposes(config: Config, states: seq<State>, actions: seq<Action>, n: nat, i: nat, j: nat)
    requires Run(config, states, actions) && n < |states| && i < j < |states[n].attempts|
    requires Under(states[n].attempts[i].phase) && Under(states[n].attempts[j].phase)
    ensures states[n].attempts[i].identity != states[n].attempts[j].identity
  {
    InvAlongRun(config, states, actions, n);
    assert OwnsLease(states[n], i) && OwnsLease(states[n], j);
  }

  /** Once published, an identity keeps its contents through every later success and failure. */
  lemma {:induction false} PublishedIsImmutable(config: Config, states: seq<State>, actions: seq<Action>,
                                                n: nat, k: nat, identity: Identity)
    requires Run(config, states, actions) && n <= k < |states| && identity in states[n].store
    ensures identity in states[k].store && states[k].store[identity] == states[n].store[identity]
  {
    if n < k {
      PublishedIsImmutable(config, states, actions, n, k - 1, identity);
      ActionExtendsStore(config, states[k - 1], actions[k - 1]);
    }
  }

  /** At most one composition of an identity reports that it published. */
  lemma AtMostOnePublishes(config: Config, states: seq<State>, actions: seq<Action>, n: nat, i: nat, j: nat)
    requires Run(config, states, actions) && n < |states| && i < j < |states[n].attempts|
    requires Won(states[n].attempts[i]) && Won(states[n].attempts[j])
    ensures states[n].attempts[i].identity != states[n].attempts[j].identity
  {
    InvAlongRun(config, states, actions, n);
  }

  /**
   What success means.  Publishing: the store holds the very tree whose dependency entries and whole
   contents were hashed under the lease.  Reusing: it holds exactly the same files.
   */
  lemma SuccessMeansContents(config: Config, states: seq<State>, actions: seq<Action>, n: nat, i: nat)
    requires Run(config, states, actions) && n < |states| && i < |states[n].attempts|
    requires OutcomeOf(states[n].attempts[i].phase) in {Some(Published), Some(Reused)}
    ensures var a := states[n].attempts[i];
      && a.identity in states[n].store
      && DependencyHolds(config, a.staging, a.placed)
      && (OutcomeOf(a.phase) == Some(Published) ==> states[n].store[a.identity] == a.staging)
      && SameFiles(states[n].store[a.identity], a.staging)
  {
    InvAlongRun(config, states, actions, n);
    var a := states[n].attempts[i];
    assert Knows(config, a, states[n].store);
    SameDigestSameFiles(states[n].store[a.identity], a.staging, config.less, config.limits);
  }

  // ---------------------------------------------------------------- what the lease is for

  ghost predicate Clear(s: State) {
    forall i :: 0 <= i < |s.attempts| && s.attempts[i].phase.Renaming? ==> s.attempts[i].identity !in s.store
  }

  lemma ActionKeepsClear(config: Config, s: State, action: Action)
    requires LeaseInv(s) && Clear(s) && Enabled(s, action) && !action.OtherWriter?
    ensures Clear(Apply(config, s, action))
  {
    var t := Apply(config, s, action);
    forall j | 0 <= j < |t.attempts| && t.attempts[j].phase.Renaming? ensures t.attempts[j].identity !in t.store {
      if j < |s.attempts| {
        assert OwnsLease(s, j);
        if action.Step? && action.attempt != j {
          MoveOnlyItself(config, s, action.attempt, action.move, j);
          assert OwnsLease(s, action.attempt);
        }
      }
    }
  }

  lemma {:induction false} ClearAlongRun(config: Config, states: seq<State>, actions: seq<Action>, n: nat)
    requires Run(config, states, actions) && n < |states| && (forall a :: a in actions ==> !a.OtherWriter?)
    ensures Clear(states[n])
  {
    if n > 0 {
      ClearAlongRun(config, states, actions, n - 1);
      InvAlongRun(config, states, actions, n - 1);
      assert actions[n - 1] in actions;
      ActionKeepsClear(config, states[n - 1], actions[n - 1]);
    }
  }

  /** When everyone takes the lease, a rename never meets an existing target: it always publishes. */
  lemma RenameNeverConflicts(config: Config, states: seq<State>, actions: seq<Action>, n: nat)
    requires Run(config, states, actions) && n < |actions| && (forall a :: a in actions ==> !a.OtherWriter?)
    requires actions[n].Step? && actions[n].move.Rename?
    ensures Won(states[n + 1].attempts[actions[n].attempt])
  {
    ClearAlongRun(config, states, actions, n);
    assert Enabled(states[n], actions[n]);
  }

  // ---------------------------------------------------------------- what the outcome must be

  /** An accepted tree without tied siblings is told from what is published by its files alone. */
  lemma SameHashIff(config: Config, staging: Tree, held: Tree)
    requires WellFormed(staging) && WellFormed(held) && OrderFree(staging, config.less) && HashOf(config, staging).Ok?
    ensures HashOf(config, held) == HashOf(config, staging) <==> SameFiles(held, staging) && Supported(held)
  {
    AcceptedIff(staging, config.less, config.limits);
    AcceptedIff(held, config.less, config.limits);
    if SameFiles(held, staging) && Supported(held) {
      SameFilesSameDigest(staging, held, config.less, config.limits);
    }
    if HashOf(config, held) == HashOf(config, staging) {
      SameDigestSameFiles(held, staging, config.less, config.limits);
    }
  }

  /**
   The comparison decides by the files: it reuses what is published exactly when that holds the same files
   and nothing but files and directories, and fails exactly otherwise.
   */
  lemma CompareDecides(config: Config, s: State, i: nat)
    requires i < |s.attempts| && s.attempts[i].phase.Comparing? && s.attempts[i].identity in s.store
    requires var a := s.attempts[i];
      WellFormed(a.staging) && WellFormed(s.store[a.identity]) && OrderFree(a.staging, config.less) && HashOf(config, a.staging).Ok?
    ensures var a := s.attempts[i]; var after := Moved(config, s, i, Compare).attempts[i].phase;
      && (after == Finishing(a.phase.lease, Reused) <==>
            SameFiles(s.store[a.identity], a.staging) && Supported(s.store[a.identity]))
      && (after == Finishing(a.phase.lease, Failed) <==>
            !(SameFiles(s.store[a.identity], a.staging) && Supported(s.store[a.identity])))
  {
    SameHashIff(config, s.attempts[i].staging, s.store[s.attempts[i].identity]);
  }

  /** The four moves of a composition under the lease that nothing interrupts. */
  function Composed(config: Config, s: State, i: nat): State
    requires i < |s.attempts| && s.attempts[i].phase.Verifying?
  {
    var verified := Moved(config, s, i, Verify);
    if !verified.attempts[i].phase.Hashing? then verified
    else
      var hashed := Moved(config, verified, i, HashTree);
      if !hashed.attempts[i].phase.Looking? then hashed
      else
        var looked := Moved(config, hashed, i, Look);
        if looked.attempts[i].phase.Renaming? then Moved(config, looked, i, Rename) else Moved(config, looked, i, Compare)
  }

  /**
   And so a composition that nothing interrupts must end: published when its dependency entries hash to
   the trusted hash, its tree is accepted and its identity is free, and then the store holds its tree; reused
   when the identity holds the same files; failed in every other case, with the store as it was.
   */
  lemma ComposedOutcome(config: Config, s: State, i: nat)
    requires i < |s.attempts| && s.attempts[i].phase.Verifying?
    ensures var a, t := s.attempts[i], Composed(config, s, i);
      var verified := DependencyHolds(config, a.staging, a.placed) && HashOf(config, a.staging).Ok?;
      && (t.attempts[i].phase == Finishing(a.phase.lease, Published) <==> verified && a.identity !in s.store)
      && (verified && a.identity !in s.store ==> t.store == s.store[a.identity := a.staging])
      && (a.identity in s.store || !verified ==> t.store == s.store)
      && (t.attempts[i].phase != Finishing(a.phase.lease, Published) ==>
            t.attempts[i].phase in {Finishing(a.phase.lease, Reused), Finishing(a.phase.lease, Failed)})
      && (t.attempts[i].phase == Finishing(a.phase.lease, Reused) ==>
            verified && a.identity in s.store && SameFiles(s.store[a.identity], a.staging))
      && (verified && a.identity in s.store && WellFormed(a.staging) && WellFormed(s.store[a.identity]) && OrderFree(a.staging, config.less) ==>
            (t.attempts[i].phase == Finishing(a.phase.lease, Reused) <==>
               SameFiles(s.store[a.identity], a.staging) && Supported(s.store[a.identity])))
  {
    var a := s.attempts[i];
    if HashOf(config, a.staging).Ok? && a.identity in s.store {
      if HashOf(config, s.store[a.identity]) == HashOf(config, a.staging) {
        SameDigestSameFiles(s.store[a.identity], a.staging, config.less, config.limits);
      }
      if WellFormed(a.staging) && WellFormed(s.store[a.identity]) && OrderFree(a.staging, config.less) {
        SameHashIff(config, a.staging, s.store[a.identity]);
      }
    }
  }
}
