/**
 The Check Run publisher of packages/adapters-source/src/github-checks.ts together with the GitHub
 state it writes to.

 A publication is a task that moves through the phases between its `await`s.  What the server does
 with a request is an action of its own, separate from the moment the answer is read, so requests of
 different publications interleave freely, and an answer may be lost after the request took effect.
 */
module CheckRunPublisher {
  import opened Options
  import opened FreshnessMarker
  import opened FreshnessCache

  /** Repository and exact head commit: with the publisher's check name, its serialization key. */
  type Commit = string

  datatype CheckRun = CheckRun(commit: Commit, name: string, owned: bool, externalId: string)

  datatype Listed = Listed(id: nat, run: CheckRun)

  datatype Answer = Accepted | NotFound | Failure

  datatype Outcome = Published(created: bool) | Stale | Refused | Failed

  datatype Phase =
    | Queued(previous: Option<nat>)
    | AcquiringToken
    | LookingUp
    | LookedUp(existing: Option<Listed>)
    | Patching(id: nat)
    | Patched(answer: Answer)
    | Posting
    | Posted(answer: Answer)
    | Settled(outcome: Outcome)
  {
    predicate Active() {
      !Queued? && !Settled?
    }
  }

  datatype Task = Task(commit: Commit, ordering: Freshness, phase: Phase)

  datatype State = State(
    useCache: bool,
    checkName: string,
    maxEntries: nat,
    runs: map<nat, CheckRun>,
    nextId: nat,
    tails: map<Commit, nat>,     // publicationChains: the newest task of the key
    tasks: map<nat, Task>,
    nextTask: nat,
    latest: seq<Entry>)          // latestByKey, least recently published first

  datatype Input =
    | Begin
    | Token(ok: bool)
    | Listing(page: seq<Listed>)       // the runs on the page GitHub answered with
    | ListingFails
    | Decide
    | ServerPatches(applied: bool, answer: Answer)
    | PatchReturns
    | ServerPosts(applied: bool, answer: Answer)
    | PostReturns

  datatype Action =
    | Publish(commit: Commit, ordering: Freshness)
    | DropTail(commit: Commit)
    | Restart
    | Foreign(id: nat, run: CheckRun)
    | Advance(t: nat, input: Input)

  // ---------------------------------------------------------------- the publisher

  predicate Mine(checkName: string, run: CheckRun, commit: Commit) {
    run.owned && run.name == checkName && run.commit == commit
  }

  /** `findExistingCheckRun`: the owned run with the largest id on the page. */
  function Latest(checkName: string, page: seq<Listed>): Option<Listed> {
    if page == [] then None
    else
      var before := Latest(checkName, page[..|page| - 1]);
      var listed := page[|page| - 1];
      if listed.run.name == checkName && listed.run.owned && (before.None? || listed.id > before.value.id)
      then Some(listed) else before
  }

  method FindExistingCheckRun(checkName: string, page: seq<Listed>) returns (latest: Option<Listed>)
    ensures latest == Latest(checkName, page)
    ensures forall l :: l in page && l.run.name == checkName && l.run.owned ==> latest.Some? && l.id <= latest.value.id
    ensures latest.Some? ==> latest.value in page && latest.value.run.name == checkName && latest.value.run.owned
  {
    latest := None;
    for i := 0 to |page|
      invariant latest == Latest(checkName, page[..i])
    {
      assert page[..i + 1][..i] == page[..i];
      var run := page[i].run;
      if run.name == checkName && run.owned {
        if latest.None? || page[i].id > latest.value.id {
          latest := Some(page[i]);
        }
      }
    }
    assert page[..|page|] == page;
    LatestIsLargest(checkName, page);
  }

  lemma {:induction false} LatestIsLargest(checkName: string, page: seq<Listed>)
    ensures var latest := Latest(checkName, page);
            && (forall l :: l in page && l.run.name == checkName && l.run.owned ==> latest.Some? && l.id <= latest.value.id)
            && (latest.Some? ==> latest.value in page && latest.value.run.name == checkName && latest.value.run.owned)
  {
    if page != [] {
      LatestIsLargest(checkName, page[..|page| - 1]);
      assert page == page[..|page| - 1] + [page[|page| - 1]];
    }
  }

  function MarkerOf(o: Freshness): string {
    if Representable(o) then Format(o).value else ""
  }

  function FastPathRejects(s: State, task: Task): bool {
    s.useCache
    && Remembered(s.latest, task.commit).Some?
    && Compare(task.ordering, Remembered(s.latest, task.commit).value) < 0
  }

  function Decision(ordering: Freshness, existing: Option<Listed>): Phase {
    match existing
    case None => Posting
    case Some(listed) =>
      match Parse(listed.run.externalId)
      case None => Settled(Refused)
      case Some(remote) => if Compare(ordering, remote) < 0 then Settled(Stale) else Patching(listed.id)
  }

  predicate Fits(phase: Phase, input: Input) {
    match input
    case Begin => phase.Queued?
    case Token(_) => phase.AcquiringToken?
    case Listing(_) => phase.LookingUp?
    case ListingFails => phase.LookingUp?
    case Decide => phase.LookedUp?
    case ServerPatches(_, _) => phase.Patching?
    case PatchReturns => phase.Patched?
    case ServerPosts(_, _) => phase.Posting?
    case PostReturns => phase.Posted?
  }

  function NextPhase(s: State, task: Task, input: Input): Phase
    requires Fits(task.phase, input)
  {
    match input
    case Begin => if FastPathRejects(s, task) then Settled(Stale) else AcquiringToken
    case Token(ok) => if ok then LookingUp else Settled(Failed)
    case Listing(page) => LookedUp(Latest(s.checkName, page))
    case ListingFails => Settled(Failed)
    case Decide => Decision(task.ordering, task.phase.existing)
    case ServerPatches(_, answer) => Patched(answer)
    case PatchReturns =>
      (match task.phase.answer
       case Accepted => Settled(Published(false))
       case NotFound => Posting
       case Failure => Settled(Failed))
    case ServerPosts(_, answer) => Posted(answer)
    case PostReturns => if task.phase.answer == Accepted then Settled(Published(true)) else Settled(Failed)
  }

  function RunsAfter(s: State, task: Task, input: Input): map<nat, CheckRun>
    requires Fits(task.phase, input)
  {
    match input
    case ServerPatches(applied, _) =>
      var id := task.phase.id;
      if applied && id in s.runs then s.runs[id := s.runs[id].(externalId := MarkerOf(task.ordering))] else s.runs
    case ServerPosts(applied, _) =>
      if applied then s.runs[s.nextId := CheckRun(task.commit, s.checkName, true, MarkerOf(task.ordering))] else s.runs
    case _ => s.runs
  }

  function LatestAfter(s: State, task: Task, input: Input): seq<Entry>
    requires Fits(task.phase, input)
  {
    if s.useCache && (input.PatchReturns? || input.PostReturns?) && task.phase.answer == Accepted
    then Remember(s.latest, s.maxEntries, task.commit, task.ordering)
    else s.latest
  }

  function ApplyAdvance(s: State, t: nat, input: Input): State
    requires t in s.tasks && Fits(s.tasks[t].phase, input)
  {
    var task := s.tasks[t];
    s.(tasks := s.tasks[t := task.(phase := NextPhase(s, task, input))],
       runs := RunsAfter(s, task, input),
       nextId := if input.ServerPosts? && input.applied then s.nextId + 1 else s.nextId,
       latest := LatestAfter(s, task, input))
  }

  predicate InputPossible(s: State, task: Task, input: Input)
    requires Fits(task.phase, input)
  {
    match input
    case Begin =>
      task.phase.previous.Some? ==>
        task.phase.previous.value in s.tasks && s.tasks[task.phase.previous.value].phase.Settled?
    case Listing(page) =>
      forall l :: l in page ==> l.id in s.runs && s.runs[l.id] == l.run && l.run.commit == task.commit
    case ServerPatches(applied, answer) =>
      (answer == Accepted ==> applied) && (answer == NotFound ==> !applied) && (applied ==> task.phase.id in s.runs)
    case ServerPosts(applied, answer) => (answer == Accepted ==> applied) && answer != NotFound
    case _ => true
  }

  predicate Enabled(s: State, a: Action) {
    match a
    case Publish(_, ordering) => Representable(ordering)
    case DropTail(commit) => commit in s.tails && s.tails[commit] in s.tasks && s.tasks[s.tails[commit]].phase.Settled?
    case Restart => true
    case Foreign(id, run) => !run.owned && (id in s.runs ==> !s.runs[id].owned) && (id in s.runs || id == s.nextId)
    case Advance(t, input) => t in s.tasks && Fits(s.tasks[t].phase, input) && InputPossible(s, s.tasks[t], input)
  }

  function Apply(s: State, a: Action): State
    requires Enabled(s, a)
  {
    match a
    case Publish(commit, ordering) =>
      var previous := if commit in s.tails then Some(s.tails[commit]) else None;
      s.(tasks := s.tasks[s.nextTask := Task(commit, ordering, Queued(previous))],
         tails := s.tails[commit := s.nextTask],
         nextTask := s.nextTask + 1)
    case DropTail(commit) => s.(tails := s.tails - {commit})
    case Restart => s.(tails := map[], tasks := map[], latest := [])
    case Foreign(id, run) =>
      s.(runs := s.runs[id := run], nextId := if id == s.nextId then s.nextId + 1 else s.nextId)
    case Advance(t, input) => ApplyAdvance(s, t, input)
  }

  predicate Step(s: State, a: Action, t: State) {
    Enabled(s, a) && t == Apply(s, a)
  }

  predicate Init(s: State) {
    s.tails == map[] && s.tasks == map[] && s.latest == [] && s.maxEntries > 0
    && forall id :: id in s.runs ==> id < s.nextId
  }

  // ---------------------------------------------------------------- what the remote state says

  ghost predicate IsNewest(s: State, commit: Commit, id: nat) {
    id in s.runs && Mine(s.checkName, s.runs[id], commit)
    && forall j :: j in s.runs && Mine(s.checkName, s.runs[j], commit) ==> j <= id
  }

  /** The page shows the newest owned run of the commit, when there is one. */
  ghost predicate Complete(s: State, commit: Commit, page: seq<Listed>) {
    forall id :: IsNewest(s, commit, id) ==> Listed(id, s.runs[id]) in page
  }

  /** From `s` to `t` the newest owned marker of the commit did not get older, nor did an unreadable one change. */
  ghost predicate NotOlder(s: State, t: State, commit: Commit) {
    forall id: nat :: IsNewest(s, commit, id) ==>
      exists id': nat :: IsNewest(t, commit, id') && MarkerNotOlder(s.runs[id], t.runs[id'])
  }

  predicate MarkerNotOlder(before: CheckRun, after: CheckRun) {
    match Parse(before.externalId)
    case None => after == before
    case Some(m) => Parse(after.externalId).Some? && Compare(m, Parse(after.externalId).value) <= 0
  }

  // ---------------------------------------------------------------- serialization per key

  ghost predicate Chains(s: State) {
    && (forall t :: t in s.tasks ==> t < s.nextTask)
    && Tails(s.tasks, s.tails)
    && (forall t :: t in s.tasks ==> BehindPrevious(s.tasks, t))
  }

  /** Each tail is the newest task of its key, and a key without a tail is at rest. */
  ghost predicate Tails(tasks: map<nat, Task>, tails: map<Commit, nat>) {
    && (forall c :: c in tails ==> tails[c] in tasks && tasks[tails[c]].commit == c)
    && (forall u :: u in tasks ==>
          if tasks[u].commit in tails then u <= tails[tasks[u].commit] else tasks[u].phase.Settled?)
  }

  /** A publication's `previous` is the one of its key just before it; one past the queue has all earlier ones behind it. */
  ghost predicate BehindPrevious(tasks: map<nat, Task>, t: nat)
    requires t in tasks
  {
    match tasks[t].phase
    case Queued(Some(p)) =>
      && p in tasks && tasks[p].commit == tasks[t].commit && p < t
      && forall u :: u in tasks && tasks[u].commit == tasks[t].commit ==> u <= p || t <= u
    case _ => EarlierSettled(tasks, t, tasks[t].commit)
  }

  ghost predicate EarlierSettled(tasks: map<nat, Task>, t: nat, commit: Commit) {
    forall u :: u in tasks && u < t && tasks[u].commit == commit ==> tasks[u].phase.Settled?
  }

  lemma NewTaskKeepsOthers(tasks: map<nat, Task>, id: nat, task: Task, t: nat)
    requires t in tasks && t < id && BehindPrevious(tasks, t)
    ensures BehindPrevious(tasks[id := task], t)
  {
  }

  lemma PublishKeepsChains(s: State, a: Action)
    requires Chains(s) && a.Publish? && Enabled(s, a)
    ensures Chains(Apply(s, a))
  {
    var s' := Apply(s, a);
    forall t | t in s'.tasks ensures BehindPrevious(s'.tasks, t) {
      if t in s.tasks {
        NewTaskKeepsOthers(s.tasks, s.nextTask, s'.tasks[s.nextTask], t);
      }
    }
  }

  /** A task that leaves the queue has every earlier task of its key behind it. */
  lemma LeavingQueueIsAlone(tasks: map<nat, Task>, t: nat)
    requires t in tasks && forall u :: u in tasks ==> BehindPrevious(tasks, u)
    requires tasks[t].phase.Queued? && tasks[t].phase.previous.Some? ==>
               tasks[t].phase.previous.value in tasks && tasks[tasks[t].phase.previous.value].phase.Settled?
    ensures EarlierSettled(tasks, t, tasks[t].commit)
  {
  }

  lemma PhaseMoveKeepsOrder(tasks: map<nat, Task>, t: nat, phase: Phase, u: nat)
    requires t in tasks && !tasks[t].phase.Settled? && u in tasks
    requires BehindPrevious(tasks, u) && !phase.Queued? && EarlierSettled(tasks, t, tasks[t].commit)
    ensures BehindPrevious(tasks[t := tasks[t].(phase := phase)], u)
  {
  }

  lemma AdvanceKeepsChains(s: State, t: nat, input: Input)
    requires Chains(s) && Enabled(s, Advance(t, input))
    ensures Chains(ApplyAdvance(s, t, input))
  {
    var s' := ApplyAdvance(s, t, input);
    LeavingQueueIsAlone(s.tasks, t);
    forall u | u in s'.tasks ensures BehindPrevious(s'.tasks, u) {
      PhaseMoveKeepsOrder(s.tasks, t, s'.tasks[t].phase, u);
    }
  }

  lemma DropTailKeepsChains(s: State, commit: Commit)
    requires Chains(s) && Enabled(s, DropTail(commit))
    ensures Chains(s.(tails := s.tails - {commit}))
  {
  }

  lemma StepKeepsChains(s: State, a: Action, s': State)
    requires Chains(s) && Step(s, a, s')
    ensures Chains(s')
  {
    match a
    case Publish(_, _) => PublishKeepsChains(s, a);
    case DropTail(c) => DropTailKeepsChains(s, c);
    case Restart =>
    case Foreign(_, _) => assert s'.tasks == s.tasks && s'.tails == s.tails;
    case Advance(t, input) => AdvanceKeepsChains(s, t, input);
  }

  /** Two publications of one key are never both past the queue. */
  lemma AtMostOneActivePerKey(s: State, t: nat, u: nat)
    requires Chains(s) && t in s.tasks && u in s.tasks && s.tasks[t].commit == s.tasks[u].commit
    requires s.tasks[t].phase.Active() && s.tasks[u].phase.Active()
    ensures t == u
  {
  }

  /** A publication that leaves the queue finds no other one of its key at work. */
  lemma BeginsAlone(s: State, t: nat, u: nat)
    requires Chains(s) && Enabled(s, Advance(t, Begin)) && u in s.tasks && u != t && s.tasks[u].commit == s.tasks[t].commit
    ensures !s.tasks[u].phase.Active()
  {
    LeavingQueueIsAlone(s.tasks, t);
    assert BehindPrevious(s.tasks, u);
  }

  // ---------------------------------------------------------------- the remote marker

  ghost predicate NoneOwned(s: State, commit: Commit) {
    forall id :: id in s.runs ==> !Mine(s.checkName, s.runs[id], commit)
  }

  ghost predicate MarkerAtMost(s: State, commit: Commit, o: Freshness) {
    forall id: nat :: IsNewest(s, commit, id) ==>
      Parse(s.runs[id].externalId).Some? && Compare(Parse(s.runs[id].externalId).value, o) <= 0
  }

  ghost predicate MarkerAtLeast(s: State, commit: Commit, o: Freshness) {
    exists id: nat :: IsNewest(s, commit, id)
      && Parse(s.runs[id].externalId).Some? && Compare(o, Parse(s.runs[id].externalId).value) <= 0
  }

  ghost predicate PhaseSound(s: State, task: Task) {
    match task.phase
    case LookedUp(None) => NoneOwned(s, task.commit)
    case LookedUp(Some(l)) => IsNewest(s, task.commit, l.id) && s.runs[l.id] == l.run
    case Patching(id) => IsNewest(s, task.commit, id) && MarkerAtMost(s, task.commit, task.ordering)
    case Patched(answer) =>
      MarkerAtMost(s, task.commit, task.ordering) && (answer == Accepted ==> MarkerAtLeast(s, task.commit, task.ordering))
    case Posting => MarkerAtMost(s, task.commit, task.ordering)
    case Posted(answer) => answer == Accepted ==> MarkerAtLeast(s, task.commit, task.ordering)
    case _ => true
  }

  ghost predicate CacheSound(s: State) {
    && s.maxEntries > 0 && |s.latest| <= s.maxEntries && UniqueKeys(s.latest)
    && forall e :: e in s.latest ==> MarkerAtLeast(s, e.key, e.ordering)
  }

  /** An owned run of the commit that a newer one has replaced. */
  ghost predicate Behind(s: State, commit: Commit, id: nat) {
    id in s.runs && Mine(s.checkName, s.runs[id], commit) && !IsNewest(s, commit, id)
  }

  /** What holds of a publication whose lookup did not show the newest run: it can only update an older one. */
  ghost predicate BlindSound(s: State, task: Task) {
    match task.phase
    case LookedUp(Some(l)) => Behind(s, task.commit, l.id)
    case Patching(id) => Behind(s, task.commit, id)
    case _ => true
  }

  ghost predicate TaskSound(s: State, task: Task, blind: bool) {
    Representable(task.ordering) && if blind then BlindSound(s, task) else PhaseSound(s, task)
  }

  /** The invariant when the publications in `blind` may have missed the newest run. */
  ghost predicate SoundExcept(s: State, blind: set<nat>) {
    && Chains(s)
    && (forall id :: id in s.runs ==> id < s.nextId)
    && (forall t :: t in s.tasks ==> TaskSound(s, s.tasks[t], t in blind))
  }

  ghost predicate Sound(s: State) {
    SoundExcept(s, {}) && CacheSound(s)
  }

  lemma NewestExists(s: State, commit: Commit, j: nat)
    requires forall id :: id in s.runs ==> id < s.nextId
    requires j in s.runs && Mine(s.checkName, s.runs[j], commit)
    ensures exists id: nat :: IsNewest(s, commit, id)
    decreases s.nextId - j
  {
    if k: nat :| k in s.runs && Mine(s.checkName, s.runs[k], commit) && k > j {
      NewestExists(s, commit, k);
    } else {
      assert IsNewest(s, commit, j);
    }
  }

  /** Nothing about the owned runs of the commit differs. */
  ghost predicate SameOwned(s: State, s': State, commit: Commit) {
    && s'.checkName == s.checkName
    && (forall id :: id in s.runs && Mine(s.checkName, s.runs[id], commit) ==> id in s'.runs && s'.runs[id] == s.runs[id])
    && (forall id :: id in s'.runs && Mine(s.checkName, s'.runs[id], commit) ==> id in s.runs && s'.runs[id] == s.runs[id])
  }

  lemma SameOwnedSameNewest(s: State, s': State, commit: Commit)
    requires SameOwned(s, s', commit)
    ensures forall id: nat :: IsNewest(s, commit, id) <==> IsNewest(s', commit, id)
    ensures NotOlder(s, s', commit)
  {
  }

  lemma SameOwnedKeepsTask(s: State, s': State, task: Task, blind: bool)
    requires SameOwned(s, s', task.commit) && TaskSound(s, task, blind)
    ensures TaskSound(s', task, blind)
  {
    SameOwnedSameNewest(s, s', task.commit);
  }

  lemma NotOlderKeepsAtLeast(s: State, s': State, commit: Commit, o: Freshness)
    requires NotOlder(s, s', commit) && MarkerAtLeast(s, commit, o)
    ensures MarkerAtLeast(s', commit, o)
  {
    var id: nat :| IsNewest(s, commit, id)
      && Parse(s.runs[id].externalId).Some? && Compare(o, Parse(s.runs[id].externalId).value) <= 0;
    var id': nat :| IsNewest(s', commit, id') && MarkerNotOlder(s.runs[id], s'.runs[id']);
    CompareTransitive(o, Parse(s.runs[id].externalId).value, Parse(s'.runs[id'].externalId).value);
  }

  lemma MarkerOfParses(o: Freshness)
    requires Representable(o)
    ensures Parse(MarkerOf(o)) == Some(o)
  {
    ParseFormat(o);
  }

  /** A write of an ordering that is at least the newest marker makes it the newest marker. */
  lemma WriteIsNotOlder(s: State, t: nat, input: Input)
    requires (forall id :: id in s.runs ==> id < s.nextId) && Enabled(s, Advance(t, input))
    requires TaskSound(s, s.tasks[t], false) && (input.ServerPatches? || input.ServerPosts?) && input.applied
    ensures var s' := ApplyAdvance(s, t, input); var task := s.tasks[t];
            && NotOlder(s, s', task.commit)
            && MarkerAtLeast(s', task.commit, task.ordering) && MarkerAtMost(s', task.commit, task.ordering)
  {
    var s', task := ApplyAdvance(s, t, input), s.tasks[t];
    var written := if input.ServerPatches? then task.phase.id else s.nextId;
    MarkerOfParses(task.ordering);
    CompareIsTotalOrder(task.ordering, task.ordering);
    assert IsNewest(s', task.commit, written);
    forall id: nat | IsNewest(s, task.commit, id)
      ensures IsNewest(s', task.commit, written) && MarkerNotOlder(s.runs[id], s'.runs[written])
    {
    }
  }

  lemma SameRunNotOlder(s: State, s': State, commit: Commit)
    requires forall id: nat :: IsNewest(s, commit, id) ==> IsNewest(s', commit, id) && s'.runs[id] == s.runs[id]
    ensures NotOlder(s, s', commit)
  {
    forall id: nat | IsNewest(s, commit, id)
      ensures IsNewest(s', commit, id) && MarkerNotOlder(s.runs[id], s'.runs[id])
    {
      if Parse(s.runs[id].externalId).Some? {
        var m := Parse(s.runs[id].externalId).value;
        CompareIsTotalOrder(m, m);
      }
    }
  }

  /** Updating a run that a newer one has replaced leaves the newest run as it is. */
  lemma UpdateBehindIsNotOlder(s: State, t: nat, answer: Answer)
    requires Enabled(s, Advance(t, ServerPatches(true, answer))) && BlindSound(s, s.tasks[t])
    ensures NotOlder(s, ApplyAdvance(s, t, ServerPatches(true, answer)), s.tasks[t].commit)
  {
    SameRunNotOlder(s, ApplyAdvance(s, t, ServerPatches(true, answer)), s.tasks[t].commit);
  }

  lemma AdvanceElsewhere(s: State, t: nat, input: Input, commit: Commit, blind: bool)
    requires (forall id :: id in s.runs ==> id < s.nextId) && Enabled(s, Advance(t, input))
    requires TaskSound(s, s.tasks[t], blind)
    requires commit != s.tasks[t].commit || !(input.ServerPatches? || input.ServerPosts?) || !input.applied
    ensures SameOwned(s, ApplyAdvance(s, t, input), commit)
  {
  }

  /** Only a creation by a publication that missed the newest run can make the newest marker older. */
  lemma AdvanceIsNotOlder(s: State, t: nat, input: Input, commit: Commit, blind: bool)
    requires (forall id :: id in s.runs ==> id < s.nextId) && Enabled(s, Advance(t, input))
    requires TaskSound(s, s.tasks[t], blind)
    requires blind && input.ServerPosts? && input.applied ==> commit != s.tasks[t].commit
    ensures NotOlder(s, ApplyAdvance(s, t, input), commit)
  {
    if commit == s.tasks[t].commit && (input.ServerPatches? || input.ServerPosts?) && input.applied {
      if blind {
        UpdateBehindIsNotOlder(s, t, input.answer);
      } else {
        WriteIsNotOlder(s, t, input);
      }
    } else {
      AdvanceElsewhere(s, t, input, commit, blind);
      SameOwnedSameNewest(s, ApplyAdvance(s, t, input), commit);
    }
  }

  lemma CompletePageFindsNewest(s: State, commit: Commit, page: seq<Listed>)
    requires forall id :: id in s.runs ==> id < s.nextId
    requires forall l :: l in page ==> l.id in s.runs && s.runs[l.id] == l.run && l.run.commit == commit
    requires Complete(s, commit, page)
    ensures match Latest(s.checkName, page)
            case None => NoneOwned(s, commit)
            case Some(l) => IsNewest(s, commit, l.id) && s.runs[l.id] == l.run
  {
    LatestIsLargest(s.checkName, page);
    var latest := Latest(s.checkName, page);
    if latest.None? {
      forall id | id in s.runs ensures !Mine(s.checkName, s.runs[id], commit) {
        if Mine(s.checkName, s.runs[id], commit) {
          NewestExists(s, commit, id);
        }
      }
    } else {
      NewestExists(s, commit, latest.value.id);
      var id: nat :| IsNewest(s, commit, id);
      assert Listed(id, s.runs[id]) in page;
    }
  }

  /** What a lookup that misses the newest run finds is a run behind it. */
  lemma IncompletePageFindsBehind(s: State, commit: Commit, page: seq<Listed>)
    requires forall l :: l in page ==> l.id in s.runs && s.runs[l.id] == l.run && l.run.commit == commit
    requires !Complete(s, commit, page)
    ensures var latest := Latest(s.checkName, page); latest.Some? ==> Behind(s, commit, latest.value.id)
  {
    LatestIsLargest(s.checkName, page);
    var id: nat :| IsNewest(s, commit, id) && Listed(id, s.runs[id]) !in page;
  }

  /** Owned runs are never removed and never change their commit, so what is behind stays behind. */
  lemma BehindStays(s: State, a: Action, commit: Commit, id: nat)
    requires (forall j :: j in s.runs ==> j < s.nextId) && Enabled(s, a) && Behind(s, commit, id)
    ensures Behind(Apply(s, a), commit, id)
  {
    var s' := Apply(s, a);
    var j: nat :| j in s.runs && Mine(s.checkName, s.runs[j], commit) && j > id;
    assert j in s'.runs && Mine(s'.checkName, s'.runs[j], commit);
  }

  lemma BlindStays(s: State, a: Action, task: Task)
    requires (forall j :: j in s.runs ==> j < s.nextId) && Enabled(s, a) && BlindSound(s, task)
    ensures BlindSound(Apply(s, a), task)
  {
    match task.phase
    case LookedUp(Some(l)) => BehindStays(s, a, task.commit, l.id);
    case Patching(id) => BehindStays(s, a, task.commit, id);
    case _ =>
  }

  /** The publications that have missed the newest run, after an action. */
  ghost function NextBlind(s: State, a: Action, blind: set<nat>): set<nat>
    requires Enabled(s, a)
  {
    if a.Advance? && a.input.Listing? then
      if Complete(s, s.tasks[a.t].commit, a.input.page) then blind - {a.t} else blind + {a.t}
    else blind
  }

  lemma DecisionIsSound(s: State, task: Task, blind: bool)
    requires task.phase.LookedUp? && TaskSound(s, task, blind)
    ensures TaskSound(s, task.(phase := Decision(task.ordering, task.phase.existing)), blind)
  {
    if task.phase.existing.Some? && Parse(task.phase.existing.value.run.externalId).Some? {
      CompareIsTotalOrder(task.ordering, Parse(task.phase.existing.value.run.externalId).value);
    }
  }

  lemma LookupIsSound(s: State, task: Task, page: seq<Listed>)
    requires (forall id :: id in s.runs ==> id < s.nextId) && Representable(task.ordering)
    requires forall l :: l in page ==> l.id in s.runs && s.runs[l.id] == l.run && l.run.commit == task.commit
    ensures TaskSound(s, task.(phase := LookedUp(Latest(s.checkName, page))), !Complete(s, task.commit, page))
  {
    if Complete(s, task.commit, page) {
      CompletePageFindsNewest(s, task.commit, page);
    } else {
      IncompletePageFindsBehind(s, task.commit, page);
    }
  }

  lemma OwnPhaseStaysSound(s: State, t: nat, input: Input, blind: bool)
    requires (forall id :: id in s.runs ==> id < s.nextId) && Enabled(s, Advance(t, input))
    requires TaskSound(s, s.tasks[t], blind)
    ensures var s' := ApplyAdvance(s, t, input);
      TaskSound(s', s'.tasks[t], if input.Listing? then !Complete(s, s.tasks[t].commit, input.page) else blind)
  {
    var s', task := ApplyAdvance(s, t, input), s.tasks[t];
    if (input.ServerPatches? || input.ServerPosts?) && input.applied {
      if !blind {
        WriteIsNotOlder(s, t, input);
      }
    } else {
      AdvanceElsewhere(s, t, input, task.commit, blind);
      if input.Listing? {
        LookupIsSound(s, task, input.page);
        SameOwnedKeepsTask(s, s', s'.tasks[t], !Complete(s, task.commit, input.page));
      } else if input.Decide? {
        DecisionIsSound(s, task, blind);
        SameOwnedKeepsTask(s, s', s'.tasks[t], blind);
      } else {
        SameOwnedKeepsTask(s, s', task, blind);
      }
    }
  }

  lemma OtherPhasesStaySound(s: State, t: nat, input: Input, u: nat, blind: set<nat>)
    requires SoundExcept(s, blind) && Enabled(s, Advance(t, input)) && u in s.tasks && u != t
    ensures TaskSound(ApplyAdvance(s, t, input), s.tasks[u], u in blind)
  {
    assert TaskSound(s, s.tasks[u], u in blind) && TaskSound(s, s.tasks[t], t in blind);
    if u in blind {
      BlindStays(s, Advance(t, input), s.tasks[u]);
    } else if s.tasks[u].phase.Active() {
      if s.tasks[t].phase.Active() && s.tasks[u].commit == s.tasks[t].commit {
        AtMostOneActivePerKey(s, t, u);
      }
      AdvanceElsewhere(s, t, input, s.tasks[u].commit, t in blind);
      SameOwnedKeepsTask(s, ApplyAdvance(s, t, input), s.tasks[u], false);
    }
  }

  lemma AdvanceKeepsTask(s: State, t: nat, input: Input, u: nat, blind: set<nat>)
    requires SoundExcept(s, blind) && Enabled(s, Advance(t, input)) && u in s.tasks
    ensures var s' := ApplyAdvance(s, t, input);
      TaskSound(s', s'.tasks[u], u in NextBlind(s, Advance(t, input), blind))
  {
    if u == t {
      assert TaskSound(s, s.tasks[t], t in blind);
      OwnPhaseStaysSound(s, t, input, t in blind);
    } else {
      OtherPhasesStaySound(s, t, input, u, blind);
    }
  }

  lemma AdvanceKeepsSound(s: State, t: nat, input: Input, blind: set<nat>)
    requires SoundExcept(s, blind) && Enabled(s, Advance(t, input))
    ensures SoundExcept(ApplyAdvance(s, t, input), NextBlind(s, Advance(t, input), blind))
  {
    var s', blind' := ApplyAdvance(s, t, input), NextBlind(s, Advance(t, input), blind);
    AdvanceKeepsChains(s, t, input);
    assert s'.tasks.Keys == s.tasks.Keys;
    forall u | u in s'.tasks ensures TaskSound(s', s'.tasks[u], u in blind') {
      AdvanceKeepsTask(s, t, input, u, blind);
    }
  }

  lemma QuietStepKeepsSound(s: State, a: Action, s': State, blind: set<nat>)
    requires SoundExcept(s, blind) && Step(s, a, s') && !a.Advance?
    ensures SoundExcept(s', blind)
    ensures forall commit :: SameOwned(s, s', commit)
  {
    StepKeepsChains(s, a, s');
    forall commit ensures SameOwned(s, s', commit) {
    }
    forall u | u in s'.tasks ensures TaskSound(s', s'.tasks[u], u in blind) {
      if u in s.tasks && !(a.Publish? && u == s.nextTask) {
        SameOwnedKeepsTask(s, s', s.tasks[u], u in blind);
      }
    }
  }

  /** One step, whatever a lookup answers, keeps the invariant about the publications that saw the newest run. */
  lemma StepKeepsSoundExcept(s: State, a: Action, s': State, blind: set<nat>)
    requires SoundExcept(s, blind) && Step(s, a, s')
    ensures SoundExcept(s', NextBlind(s, a, blind))
  {
    if a.Advance? {
      AdvanceKeepsSound(s, a.t, a.input, blind);
    } else {
      QuietStepKeepsSound(s, a, s', blind);
    }
  }

  /** The step creates a run for the commit. */
  predicate Creates(s: State, a: Action, commit: Commit) {
    a.Advance? && a.input.ServerPosts? && a.input.applied && a.t in s.tasks && s.tasks[a.t].commit == commit
  }

  lemma StepIsNotOlder(s: State, a: Action, s': State, blind: set<nat>, commit: Commit)
    requires SoundExcept(s, blind) && Step(s, a, s') && (Creates(s, a, commit) ==> a.t !in blind)
    ensures NotOlder(s, s', commit)
  {
    if a.Advance? {
      assert TaskSound(s, s.tasks[a.t], a.t in blind);
      AdvanceIsNotOlder(s, a.t, a.input, commit, a.t in blind);
    } else {
      QuietStepKeepsSound(s, a, s', blind);
      SameOwnedSameNewest(s, s', commit);
    }
  }

  /** A lookup answer is complete when it shows the newest owned run of its key. */
  ghost predicate CompleteAnswer(s: State, a: Action) {
    a.Advance? && a.input.Listing? && a.t in s.tasks ==> Complete(s, s.tasks[a.t].commit, a.input.page)
  }

  lemma CacheStaysSound(s: State, a: Action, s': State)
    requires Sound(s) && Step(s, a, s')
    ensures CacheSound(s')
  {
    if a.Advance? {
      var task := s.tasks[a.t];
      assert TaskSound(s, task, false);
      RememberKeepsBound(s.latest, s.maxEntries, task.commit, task.ordering);
    }
    forall e | e in s'.latest ensures MarkerAtLeast(s', e.key, e.ordering) {
      StepIsNotOlder(s, a, s', {}, e.key);
      NotOlderKeepsAtLeast(s, s', e.key, e.ordering);
    }
  }

  lemma StepKeepsSound(s: State, a: Action, s': State)
    requires Sound(s) && Step(s, a, s') && CompleteAnswer(s, a)
    ensures Sound(s')
  {
    StepKeepsSoundExcept(s, a, s', {});
    assert NextBlind(s, a, {}) == {};
    CacheStaysSound(s, a, s');
  }

  /** Creating a run keeps the marker from getting older exactly when the newest one, seen or not, was not newer. */
  lemma CreatingIsSafeIff(s: State, t: nat, answer: Answer)
    requires forall id :: id in s.runs ==> id < s.nextId
    requires t in s.tasks && Representable(s.tasks[t].ordering) && s.tasks[t].phase == Posting
    requires Enabled(s, Advance(t, ServerPosts(true, answer)))
    ensures NotOlder(s, ApplyAdvance(s, t, ServerPosts(true, answer)), s.tasks[t].commit) <==>
            MarkerAtMost(s, s.tasks[t].commit, s.tasks[t].ordering)
  {
    var s', task := ApplyAdvance(s, t, ServerPosts(true, answer)), s.tasks[t];
    MarkerOfParses(task.ordering);
    assert IsNewest(s', task.commit, s.nextId);
    forall id: nat | IsNewest(s, task.commit, id)
      ensures IsNewest(s', task.commit, s.nextId)
      ensures MarkerNotOlder(s.runs[id], s'.runs[s.nextId]) <==>
              Parse(s.runs[id].externalId).Some? && Compare(Parse(s.runs[id].externalId).value, task.ordering) <= 0
    {
    }
  }

  // ---------------------------------------------------------------- whole runs

  /** Any run: a lookup answers truthfully, but its page may miss runs. */
  ghost predicate StepRun(states: seq<State>, actions: seq<Action>) {
    && |states| == |actions| + 1
    && Init(states[0])
    && forall i {:trigger actions[i]} :: 0 <= i < |actions| ==> Step(states[i], actions[i], states[i + 1])
  }

  lemma {:induction false} ChainsAlongRun(states: seq<State>, actions: seq<Action>, i: nat)
    requires StepRun(states, actions) && i < |states|
    ensures Chains(states[i])
  {
    if i > 0 {
      ChainsAlongRun(states, actions, i - 1);
      StepKeepsChains(states[i - 1], actions[i - 1], states[i]);
    }
  }

  /** Publications of one key run one at a time, in every run and whatever lookups answer. */
  lemma PublicationsSerialized(states: seq<State>, actions: seq<Action>, i: nat, t: nat, u: nat)
    requires StepRun(states, actions) && i < |states|
    requires t in states[i].tasks && u in states[i].tasks && states[i].tasks[t].commit == states[i].tasks[u].commit
    requires states[i].tasks[t].phase.Active() && states[i].tasks[u].phase.Active()
    ensures t == u
  {
    ChainsAlongRun(states, actions, i);
    AtMostOneActivePerKey(states[i], t, u);
  }

  /** The publications whose lookup has missed the newest run, at a moment of a run. */
  ghost function Blind(states: seq<State>, actions: seq<Action>, i: nat): set<nat>
    requires StepRun(states, actions) && i < |states|
  {
    if i == 0 then {} else NextBlind(states[i - 1], actions[i - 1], Blind(states, actions, i - 1))
  }

  lemma {:induction false} SoundExceptBlind(states: seq<State>, actions: seq<Action>, i: nat)
    requires StepRun(states, actions) && i < |states|
    ensures SoundExcept(states[i], Blind(states, actions, i))
  {
    if i > 0 {
      SoundExceptBlind(states, actions, i - 1);
      StepKeepsSoundExcept(states[i - 1], actions[i - 1], states[i], Blind(states, actions, i - 1));
    }
  }

  /** The action is the answer to the publication's lookup for the commit, and misses the newest run. */
  ghost predicate Misses(s: State, a: Action, t: nat, commit: Commit) {
    && a.Advance? && a.t == t && a.input.Listing? && t in s.tasks && s.tasks[t].commit == commit
    && !Complete(s, commit, a.input.page)
  }

  lemma {:induction false} BlindMissed(states: seq<State>, actions: seq<Action>, i: nat, t: nat)
    requires StepRun(states, actions) && i < |states| && t in Blind(states, actions, i)
    ensures t < states[i].nextTask
    ensures t in states[i].tasks ==>
              exists k: nat :: k < i && Misses(states[k], actions[k], t, states[i].tasks[t].commit)
  {
    var s, a := states[i - 1], actions[i - 1];
    assert Step(s, a, states[i]);
    if t in Blind(states, actions, i - 1) {
      BlindMissed(states, actions, i - 1, t);
    } else {
      ChainsAlongRun(states, actions, i - 1);
      assert Misses(s, a, t, s.tasks[t].commit);
    }
  }

  /**
   Whatever pages the lookups see: a step makes the newest owned marker of a commit older, or replaces
   an unreadable one, exactly when it creates a run with an ordering older than that marker (or over an
   unreadable one), and then the lookup of that very publication had missed the newest run.
   */
  lemma OlderOnlyByBlindCreation(states: seq<State>, actions: seq<Action>, i: nat, commit: Commit)
    requires StepRun(states, actions) && i < |actions|
    ensures NotOlder(states[i], states[i + 1], commit) <==>
      (Creates(states[i], actions[i], commit) ==>
         MarkerAtMost(states[i], commit, states[i].tasks[actions[i].t].ordering))
    ensures !NotOlder(states[i], states[i + 1], commit) ==>
      Creates(states[i], actions[i], commit) && exists k: nat :: k < i && Misses(states[k], actions[k], actions[i].t, commit)
  {
    var s, a, s' := states[i], actions[i], states[i + 1];
    var blind := Blind(states, actions, i);
    assert Step(s, a, s');
    SoundExceptBlind(states, actions, i);
    if Creates(s, a, commit) {
      assert TaskSound(s, s.tasks[a.t], a.t in blind);
      CreatingIsSafeIff(s, a.t, a.input.answer);
      if a.t in blind {
        BlindMissed(states, actions, i, a.t);
      }
    } else {
      StepIsNotOlder(s, a, s', blind, commit);
    }
  }

  /** No lookup for the commit misses its newest run before the given moment. */
  ghost predicate NeverMissed(states: seq<State>, actions: seq<Action>, commit: Commit, n: nat)
    requires n <= |actions| <= |states|
  {
    forall k: nat, t: nat :: k < n ==> !Misses(states[k], actions[k], t, commit)
  }

  lemma NotOlderTransitive(s: State, t: State, u: State, commit: Commit)
    requires NotOlder(s, t, commit) && NotOlder(t, u, commit)
    ensures NotOlder(s, u, commit)
  {
    forall id: nat | IsNewest(s, commit, id)
      ensures exists id': nat :: IsNewest(u, commit, id') && MarkerNotOlder(s.runs[id], u.runs[id'])
    {
      var k: nat :| IsNewest(t, commit, k) && MarkerNotOlder(s.runs[id], t.runs[k]);
      var l: nat :| IsNewest(u, commit, l) && MarkerNotOlder(t.runs[k], u.runs[l]);
      if Parse(s.runs[id].externalId).Some? {
        CompareTransitive(Parse(s.runs[id].externalId).value, Parse(t.runs[k].externalId).value, Parse(u.runs[l].externalId).value);
      }
    }
  }

  /**
   For each commit whose lookups saw its newest run, over any run of concurrent publications, lost
   answers, 404s answered by a new run, evictions, foreign writers and restarts: the marker on the newest
   owned Check Run never gets older, and a newest run whose marker cannot be read is never overwritten.
   */
  lemma {:induction false} MarkerNeverDecreases(states: seq<State>, actions: seq<Action>, i: nat, j: nat, commit: Commit)
    requires StepRun(states, actions) && i <= j < |states| && NeverMissed(states, actions, commit, j)
    ensures NotOlder(states[i], states[j], commit)
  {
    if i == j {
      assert SameOwned(states[i], states[j], commit);
      SameOwnedSameNewest(states[i], states[j], commit);
    } else {
      MarkerNeverDecreases(states, actions, i, j - 1, commit);
      OlderOnlyByBlindCreation(states, actions, j - 1, commit);
      NotOlderTransitive(states[i], states[j - 1], states[j], commit);
    }
  }

  /** A publication reported as successful has left a marker at least as new as its own. */
  lemma PublishedMeansMarkerReached(states: seq<State>, actions: seq<Action>, i: nat, j: nat)
    requires StepRun(states, actions) && i < |actions| && i < j < |states|
    requires actions[i].Advance? && (actions[i].input.PatchReturns? || actions[i].input.PostReturns?)
    requires states[i + 1].tasks[actions[i].t].phase.Settled? && states[i + 1].tasks[actions[i].t].phase.outcome.Published?
    requires actions[i].t in states[i].tasks && NeverMissed(states, actions, states[i].tasks[actions[i].t].commit, j)
    ensures MarkerAtLeast(states[j], states[i].tasks[actions[i].t].commit, states[i].tasks[actions[i].t].ordering)
  {
    var t := actions[i].t;
    var task := states[i].tasks[t];
    assert Step(states[i], actions[i], states[i + 1]);
    SoundExceptBlind(states, actions, i);
    if t in Blind(states, actions, i) {
      BlindMissed(states, actions, i, t);
    }
    assert TaskSound(states[i], task, false);
    MarkerNeverDecreases(states, actions, i, j, task.commit);
    NotOlderKeepsAtLeast(states[i], states[j], task.commit, task.ordering);
  }

  /** A lookup in flight for a commit with one published Check Run. */
  function BlindLookup(commit: Commit, marker: string, ordering: Freshness, phase: Phase): State {
    State(true, "VerifyAgent", 1, map[0 := CheckRun(commit, "VerifyAgent", true, marker)], 1,
          map[commit := 0], map[0 := Task(commit, ordering, phase)], 1, [])
  }

  /** The same before anything is published by this process. */
  function Untouched(commit: Commit, marker: string): State {
    State(true, "VerifyAgent", 1, map[0 := CheckRun(commit, "VerifyAgent", true, marker)], 1, map[], map[], 0, [])
  }

  function BlindActions(commit: Commit, ordering: Freshness): seq<Action> {
    [Publish(commit, ordering), Advance(0, Begin), Advance(0, Token(true)), Advance(0, Listing([])), Advance(0, Decide)]
  }

  function BlindStates(commit: Commit, marker: string, ordering: Freshness): seq<State> {
    [Untouched(commit, marker), BlindLookup(commit, marker, ordering, Queued(None)),
     BlindLookup(commit, marker, ordering, AcquiringToken), BlindLookup(commit, marker, ordering, LookingUp),
     BlindLookup(commit, marker, ordering, LookedUp(None)), BlindLookup(commit, marker, ordering, Posting)]
  }

  lemma BlindLookupSteps(commit: Commit, marker: string, ordering: Freshness, i: nat)
    requires Representable(ordering) && i < 5
    ensures Step(BlindStates(commit, marker, ordering)[i], BlindActions(commit, ordering)[i], BlindStates(commit, marker, ordering)[i + 1])
  {
  }

  /**
   And so it happens: one publication whose lookup answers without any runs creates a Check Run that makes
   the newest marker older.
   */
  lemma IncompletePageCanDecrease(commit: Commit, marker: string, newer: Freshness, older: Freshness)
    requires Parse(marker) == Some(newer) && Representable(older) && Compare(older, newer) < 0
    ensures var states, actions := BlindStates(commit, marker, older), BlindActions(commit, older);
      && Init(states[0])
      && (forall i {:trigger actions[i]} :: 0 <= i < 5 ==> Step(states[i], actions[i], states[i + 1]))
      && Enabled(states[5], Advance(0, ServerPosts(true, Accepted)))
      && !NotOlder(states[5], ApplyAdvance(states[5], 0, ServerPosts(true, Accepted)), commit)
  {
    var actions, t := BlindActions(commit, older), BlindLookup(commit, marker, older, Posting);
    forall i {:trigger actions[i]} | 0 <= i < 5
      ensures Step(BlindStates(commit, marker, older)[i], actions[i], BlindStates(commit, marker, older)[i + 1])
    {
      BlindLookupSteps(commit, marker, older, i);
    }
    CompareIsTotalOrder(older, newer);
    assert IsNewest(t, commit, 0);
    CreatingIsSafeIff(t, 0, Accepted);
  }

  // ---------------------------------------------------------------- the cache is only a fast path

  /** Runs in which every lookup answer shows the newest owned run of its key. */
  ghost predicate Run(states: seq<State>, actions: seq<Action>) {
    && |states| == |actions| + 1
    && Init(states[0])
    && forall i {:trigger actions[i]} :: 0 <= i < |actions| ==>
         Step(states[i], actions[i], states[i + 1]) && CompleteAnswer(states[i], actions[i])
  }

  lemma {:induction false} SoundAlongRun(states: seq<State>, actions: seq<Action>, i: nat)
    requires Run(states, actions) && i < |states|
    ensures Sound(states[i])
  {
    if i > 0 {
      SoundAlongRun(states, actions, i - 1);
      StepKeepsSound(states[i - 1], actions[i - 1], states[i]);
    }
  }

  function Strip(s: State): State {
    s.(useCache := false, latest := [])
  }

  ghost predicate Reaches(s0: State, s: State) {
    exists states: seq<State>, actions: seq<Action> ::
      Run(states, actions) && states[0] == s0 && states[|actions|] == s
  }

  lemma ReachesStep(s0: State, s: State, a: Action, t: State)
    requires Reaches(s0, s) && Step(s, a, t) && CompleteAnswer(s, a)
    ensures Reaches(s0, t)
  {
    var states: seq<State>, actions: seq<Action> :|
      Run(states, actions) && states[0] == s0 && states[|actions|] == s;
    assert Run(states + [t], actions + [a]);
    assert (states + [t])[|actions + [a]|] == t;
  }

  predicate RejectsLocally(s: State, a: Action) {
    a.Advance? && a.input.Begin? && a.t in s.tasks && FastPathRejects(s, s.tasks[a.t])
  }

  lemma SameRunsSameNewest(s: State, u: State, commit: Commit)
    requires u.runs == s.runs && u.checkName == s.checkName
    ensures forall id: nat :: IsNewest(s, commit, id) <==> IsNewest(u, commit, id)
  {
  }

  /** Every step that is not a local rejection is a step of the publisher without the cache. */
  lemma PlainStepSimulated(s: State, a: Action, s': State)
    requires Step(s, a, s') && CompleteAnswer(s, a) && !RejectsLocally(s, a)
    ensures Step(Strip(s), a, Strip(s')) && CompleteAnswer(Strip(s), a)
  {
  }

  /** What the fast path rejects, the comparison with the remote marker rejects as well. */
  lemma LocalRejectionIsRemoteRejection(s: State, t: nat, page: seq<Listed>)
    requires Sound(s) && t in s.tasks && FastPathRejects(s, s.tasks[t])
    requires forall l :: l in page ==> l.id in s.runs && s.runs[l.id] == l.run && l.run.commit == s.tasks[t].commit
    requires Complete(s, s.tasks[t].commit, page)
    ensures Decision(s.tasks[t].ordering, Latest(s.checkName, page)) == Settled(Stale)
  {
    var task := s.tasks[t];
    var remembered := Remembered(s.latest, task.commit).value;
    RememberedIsFound(s.latest, task.commit);
    var e := Entry(task.commit, remembered);
    assert e in s.latest && MarkerAtLeast(s, e.key, e.ordering);
    CompletePageFindsNewest(s, task.commit, page);
    var id: nat :| IsNewest(s, task.commit, id)
      && Parse(s.runs[id].externalId).Some? && Compare(remembered, Parse(s.runs[id].externalId).value) <= 0;
    var remote := Parse(s.runs[id].externalId).value;
    CompareIsTotalOrder(task.ordering, remembered);
    CompareIsTotalOrder(remembered, remote);
    CompareIsTotalOrder(task.ordering, remote);
    CompareTransitive(task.ordering, remembered, remote);
  }

  lemma NewestPageIsComplete(s: State, commit: Commit) returns (page: seq<Listed>)
    ensures Complete(s, commit, page)
    ensures forall l :: l in page ==> l.id in s.runs && s.runs[l.id] == l.run && l.run.commit == commit
  {
    if id: nat :| IsNewest(s, commit, id) {
      page := [Listed(id, s.runs[id])];
    } else {
      page := [];
    }
  }

  lemma LookupStarts(s0: State, u: State, t: nat)
    requires Reaches(s0, u) && !u.useCache && Enabled(u, Advance(t, Begin))
    ensures Reaches(s0, u.(tasks := u.tasks[t := u.tasks[t].(phase := LookingUp)]))
  {
    var u1 := u.(tasks := u.tasks[t := u.tasks[t].(phase := AcquiringToken)]);
    ReachesStep(s0, u, Advance(t, Begin), u1);
    ReachesStep(s0, u1, Advance(t, Token(true)), u.(tasks := u.tasks[t := u.tasks[t].(phase := LookingUp)]));
  }

  lemma LookupRejects(s0: State, u: State, t: nat, page: seq<Listed>)
    requires Reaches(s0, u) && Enabled(u, Advance(t, Listing(page))) && Complete(u, u.tasks[t].commit, page)
    requires Decision(u.tasks[t].ordering, Latest(u.checkName, page)) == Settled(Stale)
    ensures Reaches(s0, u.(tasks := u.tasks[t := u.tasks[t].(phase := Settled(Stale))]))
  {
    var u1 := u.(tasks := u.tasks[t := u.tasks[t].(phase := LookedUp(Latest(u.checkName, page)))]);
    ReachesStep(s0, u, Advance(t, Listing(page)), u1);
    ReachesStep(s0, u1, Advance(t, Decide), u.(tasks := u.tasks[t := u.tasks[t].(phase := Settled(Stale))]));
  }

  lemma LocalRejectionSimulated(s0: State, s: State, t: nat, page: seq<Listed>)
    requires Enabled(s, Advance(t, Begin)) && FastPathRejects(s, s.tasks[t]) && Reaches(s0, Strip(s))
    requires forall l :: l in page ==> l.id in s.runs && s.runs[l.id] == l.run && l.run.commit == s.tasks[t].commit
    requires Complete(s, s.tasks[t].commit, page)
    requires Decision(s.tasks[t].ordering, Latest(s.checkName, page)) == Settled(Stale)
    ensures Reaches(s0, Strip(ApplyAdvance(s, t, Begin)))
  {
    var task := s.tasks[t];
    LookupStarts(s0, Strip(s), t);
    var u := Strip(s).(tasks := s.tasks[t := task.(phase := LookingUp)]);
    SameRunsSameNewest(s, u, task.commit);
    LookupRejects(s0, u, t, page);
    assert u.(tasks := u.tasks[t := u.tasks[t].(phase := Settled(Stale))]) == Strip(ApplyAdvance(s, t, Begin));
  }

  /**
   The fast path refines the memoryless publisher, for every capacity: whatever a run with the cache
   reaches, a run without it reaches with the same Check Runs and the same outcomes.
   */
  lemma {:induction false} CacheRefinesNoCache(states: seq<State>, actions: seq<Action>, i: nat)
    requires Run(states, actions) && i < |states|
    ensures Reaches(Strip(states[0]), Strip(states[i]))
  {
    if i == 0 {
      var start, none: seq<Action> := [Strip(states[0])], [];
      assert Run(start, none) && start[0] == Strip(states[0]) && start[|none|] == Strip(states[0]);
    } else {
      var s, a, s' := states[i - 1], actions[i - 1], states[i];
      CacheRefinesNoCache(states, actions, i - 1);
      SoundAlongRun(states, actions, i - 1);
      if RejectsLocally(s, a) {
        var page := NewestPageIsComplete(s, s.tasks[a.t].commit);
        LocalRejectionIsRemoteRejection(s, a.t, page);
        LocalRejectionSimulated(Strip(states[0]), s, a.t, page);
      } else {
        PlainStepSimulated(s, a, s');
        ReachesStep(Strip(states[0]), Strip(s), a, Strip(s'));
      }
    }
  }
}
