/**
 What a publication must do and how it must end: the decisions of the Check Run publisher in terms of the
 remote runs, and its outcomes in terms of the answers it got.  (CheckRunPublisher says what never happens.)
 */
module PublisherOutcomes {
  import opened Options
  import opened FreshnessMarker
  import opened FreshnessCache
  import opened CheckRunPublisher

  // ---------------------------------------------------------------- the decision, from what is on GitHub

  /** The marker on the newest owned run of the commit, when there is such a run. */
  ghost predicate NewestSays(s: State, commit: Commit, id: nat, marker: Option<Freshness>) {
    IsNewest(s, commit, id) && Parse(s.runs[id].externalId) == marker
  }

  lemma OneNewest(s: State, commit: Commit, id: nat, other: nat)
    requires IsNewest(s, commit, id) && IsNewest(s, commit, other)
    ensures id == other
  {
    assert id <= other && other <= id;
  }

  /** The lookup of the publication showed the newest run, as far as the run of the system has come. */
  ghost predicate SawNewest(states: seq<State>, actions: seq<Action>, n: nat, t: nat, commit: Commit)
    requires n <= |actions| <= |states|
  {
    forall k: nat :: k < n ==> !Misses(states[k], actions[k], t, commit)
  }

  lemma SightedIsSound(states: seq<State>, actions: seq<Action>, n: nat, t: nat)
    requires StepRun(states, actions) && n <= |actions| && t in states[n].tasks
    requires SawNewest(states, actions, n, t, states[n].tasks[t].commit)
    ensures SoundExcept(states[n], Blind(states, actions, n)) && TaskSound(states[n], states[n].tasks[t], false)
  {
    SoundExceptBlind(states, actions, n);
    if t in Blind(states, actions, n) {
      BlindMissed(states, actions, n, t);
    }
    assert TaskSound(states[n], states[n].tasks[t], t in Blind(states, actions, n));
  }

  lemma DecisionMeans(s: State, task: Task)
    requires task.phase.LookedUp? && TaskSound(s, task, false)
    ensures var next := Decision(task.ordering, task.phase.existing);
      && (next == Settled(Stale) <==> exists id: nat, m :: NewestSays(s, task.commit, id, Some(m)) && Compare(task.ordering, m) < 0)
      && (next == Settled(Refused) <==> exists id: nat :: NewestSays(s, task.commit, id, None))
      && (forall id: nat :: next == Patching(id) <==>
            exists m :: NewestSays(s, task.commit, id, Some(m)) && Compare(task.ordering, m) >= 0)
      && (next == Posting <==> NoneOwned(s, task.commit))
  {
    match task.phase.existing
    case None =>
      forall id: nat ensures !IsNewest(s, task.commit, id) {
      }
    case Some(l) =>
      var marker := Parse(l.run.externalId);
      assert NewestSays(s, task.commit, l.id, marker);
      forall id: nat, m | NewestSays(s, task.commit, id, m) ensures id == l.id && m == marker {
        OneNewest(s, task.commit, id, l.id);
      }
  }

  /**
   In every run, for a publication whose lookup showed the newest run: it goes stale exactly when that run's
   marker is newer than its own ordering, is refused exactly when that marker cannot be read, updates that very
   run exactly when its marker is equal or older, and creates a run exactly when there is none.
   */
  lemma DecidesByNewest(states: seq<State>, actions: seq<Action>, i: nat, t: nat)
    requires StepRun(states, actions) && i < |actions| && actions[i] == Advance(t, Decide)
    requires t in states[i].tasks && SawNewest(states, actions, i, t, states[i].tasks[t].commit)
    ensures t in states[i + 1].tasks
    ensures var s, task, next := states[i], states[i].tasks[t], states[i + 1].tasks[t].phase;
      && (next == Settled(Stale) <==> exists id: nat, m :: NewestSays(s, task.commit, id, Some(m)) && Compare(task.ordering, m) < 0)
      && (next == Settled(Refused) <==> exists id: nat :: NewestSays(s, task.commit, id, None))
      && (forall id: nat :: next == Patching(id) <==>
            exists m :: NewestSays(s, task.commit, id, Some(m)) && Compare(task.ordering, m) >= 0)
      && (next == Posting <==> NoneOwned(s, task.commit))
  {
    assert Step(states[i], actions[i], states[i + 1]);
    SightedIsSound(states, actions, i, t);
    DecisionMeans(states[i], states[i].tasks[t]);
  }

  // ---------------------------------------------------------------- the outcome, from the answers

  /** What a publication has received, oldest first; task numbers are never used twice. */
  function InputsOf(actions: seq<Action>, t: nat): seq<Input> {
    if actions == [] then []
    else
      var init, last := actions[..|actions| - 1], actions[|actions| - 1];
      InputsOf(init, t) + if last.Advance? && last.t == t then [last.input] else []
  }

  /** The last input before the one at the end. */
  predicate EndsWith(inputs: seq<Input>, before: Input, last: Input) {
    |inputs| >= 2 && inputs[|inputs| - 2] == before && inputs[|inputs| - 1] == last
  }

  predicate EndsIn(inputs: seq<Input>, last: Input) {
    inputs != [] && inputs[|inputs| - 1] == last
  }

  /** The answers that settle a publication in each way. */
  ghost predicate Earns(outcome: Outcome, inputs: seq<Input>) {
    match outcome
    case Published(created) =>
      if created then EndsWith(inputs, ServerPosts(true, Accepted), PostReturns)
      else EndsWith(inputs, ServerPatches(true, Accepted), PatchReturns)
    case Failed =>
      || EndsIn(inputs, Token(false)) || EndsIn(inputs, ListingFails)
      || (exists applied :: EndsWith(inputs, ServerPatches(applied, Failure), PatchReturns))
      || (exists applied :: EndsWith(inputs, ServerPosts(applied, Failure), PostReturns))
    case Stale => EndsIn(inputs, Begin) || EndsIn(inputs, Decide)
    case Refused => EndsIn(inputs, Decide)
  }

  ghost predicate TellsPhase(phase: Phase, inputs: seq<Input>) {
    match phase
    case Queued(_) => inputs == []
    case AcquiringToken => inputs == [Begin]
    case LookingUp => inputs == [Begin, Token(true)]
    case LookedUp(_) => |inputs| == 3 && inputs[2].Listing?
    case Patching(_) => |inputs| == 4 && inputs[3] == Decide
    case Patched(answer) => |inputs| == 5 && inputs[4].ServerPatches? && inputs[4].answer == answer && (answer == Accepted ==> inputs[4].applied)
    case Posting =>
      || (|inputs| == 4 && inputs[3] == Decide)
      || (|inputs| == 6 && inputs[4].ServerPatches? && inputs[4].answer == NotFound && inputs[5] == PatchReturns)
    case Posted(answer) =>
      && |inputs| > 0 && inputs[|inputs| - 1].ServerPosts? && inputs[|inputs| - 1].answer == answer
      && (answer == Accepted ==> inputs[|inputs| - 1].applied) && answer != NotFound
    case Settled(outcome) => Earns(outcome, inputs)
  }

  ghost predicate AllToldPhases(s: State, actions: seq<Action>) {
    && (forall t :: t in s.tasks ==> t < s.nextTask)
    && (forall t :: t in s.tasks ==> TellsPhase(s.tasks[t].phase, InputsOf(actions, t)))
    && (forall t: nat :: t >= s.nextTask ==> InputsOf(actions, t) == [])
  }

  lemma NextPhaseTold(s: State, task: Task, input: Input, inputs: seq<Input>)
    requires Fits(task.phase, input) && InputPossible(s, task, input) && TellsPhase(task.phase, inputs)
    ensures TellsPhase(NextPhase(s, task, input), inputs + [input])
  {
    var all := inputs + [input];
    match input
    case PatchReturns =>
      assert all[|all| - 2] == inputs[4];
      if task.phase.answer == Failure {
        assert EndsWith(all, ServerPatches(inputs[4].applied, Failure), PatchReturns);
      }
    case PostReturns =>
      assert all[|all| - 2] == inputs[|inputs| - 1];
      if task.phase.answer == Failure {
        assert EndsWith(all, ServerPosts(inputs[|inputs| - 1].applied, Failure), PostReturns);
      }
    case _ =>
  }

  lemma InputsAfter(actions: seq<Action>, a: Action, t: nat)
    ensures InputsOf(actions + [a], t) == InputsOf(actions, t) + if a.Advance? && a.t == t then [a.input] else []
  {
    assert (actions + [a])[..|actions|] == actions;
  }

  lemma TaskStaysTold(s: State, a: Action, actions: seq<Action>, t: nat)
    requires Enabled(s, a) && AllToldPhases(s, actions) && t in Apply(s, a).tasks
    ensures TellsPhase(Apply(s, a).tasks[t].phase, InputsOf(actions + [a], t))
  {
    InputsAfter(actions, a, t);
    if a.Advance? && a.t == t {
      NextPhaseTold(s, s.tasks[t], a.input, InputsOf(actions, t));
    } else {
      assert InputsOf(actions, t) + [] == InputsOf(actions, t);
      assert t in s.tasks || (a.Publish? && t == s.nextTask);
    }
  }

  lemma StepTellsPhases(s: State, a: Action, actions: seq<Action>)
    requires Enabled(s, a) && AllToldPhases(s, actions)
    ensures AllToldPhases(Apply(s, a), actions + [a])
  {
    var s' := Apply(s, a);
    forall t | t in s'.tasks ensures TellsPhase(s'.tasks[t].phase, InputsOf(actions + [a], t)) {
      TaskStaysTold(s, a, actions, t);
    }
    forall t: nat | t >= s'.nextTask ensures InputsOf(actions + [a], t) == [] {
      InputsAfter(actions, a, t);
    }
  }

  lemma {:induction false} PhasesTold(states: seq<State>, actions: seq<Action>, n: nat)
    requires StepRun(states, actions) && n < |states|
    ensures AllToldPhases(states[n], actions[..n])
  {
    if n > 0 {
      PhasesTold(states, actions, n - 1);
      assert Step(states[n - 1], actions[n - 1], states[n]);
      StepTellsPhases(states[n - 1], actions[n - 1], actions[..n - 1]);
      assert actions[..n] == actions[..n - 1] + [actions[n - 1]];
    } else {
      assert actions[..0] == [];
    }
  }

  lemma LastInputDecides(inputs: seq<Input>)
    ensures EndsWith(inputs, ServerPatches(true, Accepted), PatchReturns) ==>
      !Earns(Published(true), inputs) && !Earns(Failed, inputs) && !EndsIn(inputs, Begin) && !EndsIn(inputs, Decide)
    ensures EndsWith(inputs, ServerPosts(true, Accepted), PostReturns) ==>
      !Earns(Failed, inputs) && !EndsIn(inputs, Begin) && !EndsIn(inputs, Decide)
    ensures Earns(Failed, inputs) ==> !EndsIn(inputs, Begin) && !EndsIn(inputs, Decide)
  {
  }

  /**
   In every run a publication settles as its answers say: published exactly when its last request was accepted,
   as a creation or an update; failed exactly when the token, the lookup or the last request failed; anything
   else is a rejection, local or by the decision.  After a 404 to an update comes a creation.
   */
  lemma SettlesAsAnswered(states: seq<State>, actions: seq<Action>, n: nat, t: nat)
    requires StepRun(states, actions) && n <= |actions| && t in states[n].tasks && states[n].tasks[t].phase.Settled?
    ensures var outcome, inputs := states[n].tasks[t].phase.outcome, InputsOf(actions[..n], t);
      && (outcome == Published(false) <==> EndsWith(inputs, ServerPatches(true, Accepted), PatchReturns))
      && (outcome == Published(true) <==> EndsWith(inputs, ServerPosts(true, Accepted), PostReturns))
      && (outcome == Failed <==> Earns(Failed, inputs))
      && (outcome == Stale || outcome == Refused <==> EndsIn(inputs, Begin) || EndsIn(inputs, Decide))
  {
    PhasesTold(states, actions, n);
    EarnedExactly(states[n].tasks[t].phase.outcome, InputsOf(actions[..n], t));
  }

  lemma EarnedExactly(outcome: Outcome, inputs: seq<Input>)
    requires Earns(outcome, inputs)
    ensures outcome == Published(false) <==> EndsWith(inputs, ServerPatches(true, Accepted), PatchReturns)
    ensures outcome == Published(true) <==> EndsWith(inputs, ServerPosts(true, Accepted), PostReturns)
    ensures outcome == Failed <==> Earns(Failed, inputs)
    ensures outcome == Stale || outcome == Refused <==> EndsIn(inputs, Begin) || EndsIn(inputs, Decide)
  {
    LastInputDecides(inputs);
  }

  lemma NotFoundIsReplaced(states: seq<State>, actions: seq<Action>, i: nat, t: nat)
    requires StepRun(states, actions) && i < |actions| && actions[i] == Advance(t, PatchReturns)
    requires var inputs := InputsOf(actions[..i], t); inputs != [] && inputs[|inputs| - 1] == ServerPatches(false, NotFound)
    ensures t in states[i + 1].tasks && states[i + 1].tasks[t].phase == Posting
  {
    PhasesTold(states, actions, i);
    assert Step(states[i], actions[i], states[i + 1]);
    assert TellsPhase(states[i].tasks[t].phase, InputsOf(actions[..i], t));
  }

  // ---------------------------------------------------------------- a publication that nothing hinders

  function Advanced(s: State, t: nat, input: Input): State {
    if t in s.tasks && Fits(s.tasks[t].phase, input) then ApplyAdvance(s, t, input) else s
  }

  /** From its lookup on, with every request accepted. */
  function Accepting(s: State, t: nat, page: seq<Listed>): State {
    var decided := Advanced(Advanced(s, t, Listing(page)), t, Decide);
    if t in decided.tasks && decided.tasks[t].phase.Patching?
    then Advanced(Advanced(decided, t, ServerPatches(true, Accepted)), t, PatchReturns)
    else Advanced(Advanced(decided, t, ServerPosts(true, Accepted)), t, PostReturns)
  }

  ghost predicate EndsAt(s: State, t: nat, commit: Commit, created: bool, ordering: Freshness) {
    && t in s.tasks && s.tasks[t].phase == Settled(Published(created))
    && exists id: nat :: NewestSays(s, commit, id, Some(ordering))
  }

  lemma AcceptedUpdate(s: State, t: nat, id: nat)
    requires t in s.tasks && s.tasks[t].phase == Patching(id) && IsNewest(s, s.tasks[t].commit, id)
    requires Representable(s.tasks[t].ordering)
    ensures EndsAt(Advanced(Advanced(s, t, ServerPatches(true, Accepted)), t, PatchReturns), t, s.tasks[t].commit, false, s.tasks[t].ordering)
  {
    var task := s.tasks[t];
    MarkerOfParses(task.ordering);
    var s1 := Advanced(s, t, ServerPatches(true, Accepted));
    assert NewestSays(s1, task.commit, id, Some(task.ordering));
    assert NewestSays(Advanced(s1, t, PatchReturns), task.commit, id, Some(task.ordering));
  }

  lemma AcceptedCreation(s: State, t: nat)
    requires t in s.tasks && s.tasks[t].phase == Posting && forall id :: id in s.runs ==> id < s.nextId
    requires Representable(s.tasks[t].ordering)
    ensures EndsAt(Advanced(Advanced(s, t, ServerPosts(true, Accepted)), t, PostReturns), t, s.tasks[t].commit, true, s.tasks[t].ordering)
  {
    var task := s.tasks[t];
    MarkerOfParses(task.ordering);
    var s1 := Advanced(s, t, ServerPosts(true, Accepted));
    assert NewestSays(s1, task.commit, s.nextId, Some(task.ordering));
    assert NewestSays(Advanced(s1, t, PostReturns), task.commit, s.nextId, Some(task.ordering));
  }

  ghost predicate NothingNewer(s: State, task: Task) {
    forall id: nat, marker :: NewestSays(s, task.commit, id, marker) ==> marker.Some? && Compare(task.ordering, marker.value) >= 0
  }

  lemma DecisionWhenNothingNewer(s: State, task: Task, page: seq<Listed>)
    requires (forall id :: id in s.runs ==> id < s.nextId) && Complete(s, task.commit, page) && NothingNewer(s, task)
    requires forall l :: l in page ==> l.id in s.runs && s.runs[l.id] == l.run && l.run.commit == task.commit
    ensures var next := Decision(task.ordering, Latest(s.checkName, page));
      && (next == Posting <==> NoneOwned(s, task.commit))
      && (next != Posting ==> next.Patching? && IsNewest(s, task.commit, next.id))
  {
    var existing := Latest(s.checkName, page);
    CompletePageFindsNewest(s, task.commit, page);
    if existing.Some? {
      assert NewestSays(s, task.commit, existing.value.id, Parse(existing.value.run.externalId));
    }
  }

  lemma DecidedNext(s: State, t: nat, page: seq<Listed>)
    requires Enabled(s, Advance(t, Listing(page)))
    ensures Advanced(Advanced(s, t, Listing(page)), t, Decide) ==
      s.(tasks := s.tasks[t := s.tasks[t].(phase := Decision(s.tasks[t].ordering, Latest(s.checkName, page)))])
  {
  }

  /**
   A publication that is not older than the newest run, with a lookup that shows that run and every request
   accepted, ends published, with the newest marker at its own ordering, in a new run exactly when there was none.
   */
  lemma AcceptedEndsPublished(s: State, t: nat, page: seq<Listed>, blind: set<nat>)
    requires SoundExcept(s, blind) && Enabled(s, Advance(t, Listing(page))) && Complete(s, s.tasks[t].commit, page)
    requires NothingNewer(s, s.tasks[t])
    ensures EndsAt(Accepting(s, t, page), t, s.tasks[t].commit, NoneOwned(s, s.tasks[t].commit), s.tasks[t].ordering)
  {
    assert TaskSound(s, s.tasks[t], t in blind);
    DecisionWhenNothingNewer(s, s.tasks[t], page);
    DecidedNext(s, t, page);
    var decided := Advanced(Advanced(s, t, Listing(page)), t, Decide);
    if decided.tasks[t].phase.Patching? {
      AcceptedUpdate(decided, t, decided.tasks[t].phase.id);
    } else {
      AcceptedCreation(decided, t);
    }
  }

  // ---------------------------------------------------------------- what the fast path knows

  /** The successes since the last restart, oldest first. */
  function Successes(states: seq<State>, actions: seq<Action>, n: nat): seq<Entry>
    requires n <= |actions| <= |states|
  {
    if n == 0 then []
    else
      var s, a, before := states[n - 1], actions[n - 1], Successes(states, actions, n - 1);
      if a.Restart? then []
      else if a.Advance? && (a.input.PatchReturns? || a.input.PostReturns?) && a.t in s.tasks
              && (s.tasks[a.t].phase == Patched(Accepted) || s.tasks[a.t].phase == Posted(Accepted))
      then before + [Entry(s.tasks[a.t].commit, s.tasks[a.t].ordering)]
      else before
  }

  lemma {:induction false} CacheIsRecentSuccesses(states: seq<State>, actions: seq<Action>, n: nat)
    requires StepRun(states, actions) && n <= |actions|
    ensures states[n].useCache == states[0].useCache && states[n].maxEntries == states[0].maxEntries
    ensures states[0].useCache ==> states[n].latest == CacheAfter(Successes(states, actions, n), states[0].maxEntries)
  {
    if n > 0 {
      CacheIsRecentSuccesses(states, actions, n - 1);
      var s, a, before, after := states[n - 1], actions[n - 1], Successes(states, actions, n - 1), Successes(states, actions, n);
      assert Step(s, a, states[n]);
      if |after| > |before| {
        assert after[..|after| - 1] == before;
      }
    }
  }

  /**
   The fast path rejects exactly a publication older than the last success of its key among the most recently
   published keys since the last restart, as many as the cache holds.
   */
  lemma FastPathRejectsIff(states: seq<State>, actions: seq<Action>, i: nat, t: nat)
    requires StepRun(states, actions) && i < |actions| && actions[i] == Advance(t, Begin)
    ensures t in states[i].tasks && t in states[i + 1].tasks
    ensures states[i + 1].tasks[t].phase == Settled(Stale) <==>
      && states[0].useCache
      && exists e :: e in Newest(Recency(Successes(states, actions, i)), states[0].maxEntries)
           && e.key == states[i].tasks[t].commit && Compare(states[i].tasks[t].ordering, e.ordering) < 0
  {
    assert Step(states[i], actions[i], states[i + 1]);
    CacheIsRecentSuccesses(states, actions, i);
    if states[0].useCache {
      CacheHoldsMostRecent(Successes(states, actions, i), states[0].maxEntries);
      RecencyUnique(Successes(states, actions, i));
      NewestUnique(Recency(Successes(states, actions, i)), states[0].maxEntries);
      RememberedIff(states[i].latest, states[i].tasks[t].commit);
    }
  }

  lemma NewestUnique(entries: seq<Entry>, count: nat)
    requires UniqueKeys(entries)
    ensures UniqueKeys(Newest(entries, count))
  {
  }

  lemma RememberedIff(latest: seq<Entry>, key: string)
    requires UniqueKeys(latest)
    ensures Remembered(latest, key).Some? <==> exists e :: e in latest && e.key == key
    ensures forall e :: e in latest && e.key == key ==> Remembered(latest, key) == Some(e.ordering)
  {
    RememberedIsFound(latest, key);
  }
}
