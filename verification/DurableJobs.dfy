/**
 The durable half of the worker: the SQLite job queue, the result registry, and consumers that take a
 job, store its result and acknowledge it, through any number of crashes and reopenings
 (apps/worker/src/sqlite-job-queue.ts, apps/worker/src/runtime.ts).
 */
module DurableJobs {
  import opened Options
  import opened Text
  import opened ResultRegistry

  datatype RowState = Pending | Processing

  datatype Row = Row(state: RowState, enqueuedAt: string)

  type Table = map<string, Row>

  /** `ORDER BY enqueued_at, job_id` */
  predicate Before(table: Table, a: string, b: string)
    requires a in table && b in table
  {
    Less(table[a].enqueuedAt, table[b].enqueuedAt) || (table[a].enqueuedAt == table[b].enqueuedAt && Less(a, b))
  }

  predicate IsPending(table: Table, job: string) {
    job in table && table[job].state == Pending
  }

  /** The row `selectNext` answers with. */
  predicate IsNext(table: Table, job: string) {
    IsPending(table, job) && forall other :: other in table && IsPending(table, other) && other != job ==> Before(table, job, other)
  }

  function Marked(table: Table, job: string, state: RowState): Table
    requires job in table
  {
    table[job := table[job].(state := state)]
  }

  /** `UPDATE ... SET state = 'pending' WHERE state = 'processing'` at open. */
  function Recovered(table: Table): Table {
    map job | job in table :: table[job].(state := Pending)
  }

  lemma BeforeIsStrictOrder(table: Table, a: string, b: string, c: string)
    requires a in table && b in table && c in table
    ensures a != b ==> Before(table, a, b) || Before(table, b, a)
    ensures !(Before(table, a, b) && Before(table, b, a))
    ensures Before(table, a, b) && Before(table, b, c) ==> Before(table, a, c)
  {
    LessIsStrictTotal(a, b);
    LessIsStrictTotal(table[a].enqueuedAt, table[b].enqueuedAt);
    if Less(table[a].enqueuedAt, table[b].enqueuedAt) && Less(table[b].enqueuedAt, table[c].enqueuedAt) {
      LessTransitive(table[a].enqueuedAt, table[b].enqueuedAt, table[c].enqueuedAt);
    }
    if Less(a, b) && Less(b, c) {
      LessTransitive(a, b, c);
    }
  }

  lemma {:induction false} NextExists(table: Table, among: set<string>)
    requires among != {} && forall j :: j in among ==> j in table
    ensures exists job :: job in among && forall other :: other in among && other != job ==> Before(table, job, other)
  {
    var j :| j in among;
    var rest := among - {j};
    if rest == {} {
      assert among == {j};
    } else {
      NextExists(table, rest);
      var least :| least in rest && forall other :: other in rest && other != least ==> Before(table, least, other);
      BeforeIsStrictOrder(table, j, least, least);
      if Before(table, j, least) {
        forall other | other in among && other != j ensures Before(table, j, other) {
          BeforeIsStrictOrder(table, j, least, other);
        }
      } else {
        forall other | other in among && other != least ensures Before(table, least, other) {
        }
      }
    }
  }

  ghost predicate SomeNext(table: Table) {
    exists job :: job in table && IsNext(table, job)
  }

  ghost predicate SomePending(table: Table) {
    exists job :: job in table && IsPending(table, job)
  }

  /** `dequeue` answers nothing exactly when no row is pending. */
  lemma NextExistsIffPending(table: Table)
    ensures SomeNext(table) <==> SomePending(table)
  {
    var pending := set j | j in table && IsPending(table, j);
    if SomePending(table) {
      var j :| j in table && IsPending(table, j);
      assert j in pending;
      NextExists(table, pending);
      var job :| job in pending && forall other :: other in pending && other != job ==> Before(table, job, other);
      assert IsNext(table, job);
    }
  }

  // ---------------------------------------------------------------- the queue in place

  class SqliteJobQueue {
    var table: Table

    /** Opening the database puts every unfinished job back, at its old place in the order. */
    constructor (persisted: Table)
      ensures table.Keys == persisted.Keys
      ensures forall job :: job in table ==> table[job] == Row(Pending, persisted[job].enqueuedAt)
    {
      table := Recovered(persisted);
    }

    method Enqueue(job: string, createdAt: string) returns (inserted: bool)
      modifies this
      ensures inserted <==> job !in old(table)
      ensures table == if inserted then old(table)[job := Row(Pending, createdAt)] else old(table)
    {
      inserted := job !in table;
      if inserted {
        table := table[job := Row(Pending, createdAt)];
      }
    }

    method Dequeue() returns (job: Option<string>)
      modifies this
      ensures job.None? ==> table == old(table) && forall j :: j in table ==> table[j].state == Processing
      ensures job.Some? ==> IsNext(old(table), job.value)
      ensures job.Some? ==> table == old(table)[job.value := Row(Processing, old(table)[job.value].enqueuedAt)]
    {
      NextExistsIffPending(table);
      if j :| j in table && IsPending(table, j) {
        assert SomeNext(table);
        var next :| next in table && IsNext(table, next);
        table := Marked(table, next, Processing);
        return Some(next);
      }
      return None;
    }

    method Acknowledge(job: string)
      modifies this
      ensures table == if job in old(table) && old(table)[job].state == Processing then old(table) - {job} else old(table)
    {
      if job in table && table[job].state == Processing {
        table := table - {job};
      }
    }

    method Reject(job: string)
      modifies this
      ensures table == if job in old(table) && old(table)[job].state == Processing
                       then old(table)[job := Row(Pending, old(table)[job].enqueuedAt)]
                       else old(table)
    {
      if job in table && table[job].state == Processing {
        table := Marked(table, job, Pending);
      }
    }
  }

  // ---------------------------------------------------------------- consumers and crashes

  /** One `processNext` that has dequeued `job`; `stored` once the registry has accepted its result. */
  datatype Claim = Claim(job: string, stored: bool)

  datatype Event = Enqueued(job: string) | ResultStored(job: string, verificationId: string) | Acknowledged(job: string)

  datatype State = State(
    table: Table,
    results: seq<Entry>,
    maxResults: nat,
    claims: map<nat, Claim>,
    log: seq<Event>)

  datatype Action =
    | Enqueue(job: string, createdAt: string)
    | Dequeue(claim: nat, job: string)
    | StoreResult(claim: nat, result: VerificationResult)
    | Acknowledge(claim: nat)
    | Reject(claim: nat)            // after a failed process, store or acknowledge
    | Abandon(claim: nat)           // the `reject` itself failed
    | CrashAndReopen

  predicate Init(s: State) {
    s.table == map[] && s.results == [] && s.maxResults > 0 && s.claims == map[] && s.log == []
  }

  predicate Enabled(s: State, a: Action) {
    match a
    case Enqueue(job, _) => job !in s.table
    case Dequeue(claim, job) => claim !in s.claims && IsNext(s.table, job)
    case StoreResult(claim, r) =>
      claim in s.claims && !s.claims[claim].stored && SqliteStore(s.results, s.maxResults, s.claims[claim].job, r).Ok?
    case Acknowledge(claim) => claim in s.claims && s.claims[claim].stored
    case Reject(claim) => claim in s.claims
    case Abandon(claim) => claim in s.claims
    case CrashAndReopen => true
  }

  function Apply(s: State, a: Action): State
    requires Enabled(s, a)
  {
    match a
    case Enqueue(job, createdAt) => s.(table := s.table[job := Row(Pending, createdAt)], log := s.log + [Enqueued(job)])
    case Dequeue(claim, job) =>
      s.(table := Marked(s.table, job, Processing), claims := s.claims[claim := Claim(job, false)])
    case StoreResult(claim, r) =>
      var job := s.claims[claim].job;
      s.(results := SqliteStore(s.results, s.maxResults, job, r).value,
         claims := s.claims[claim := Claim(job, true)],
         log := s.log + [ResultStored(job, r.id)])
    case Acknowledge(claim) =>
      var job := s.claims[claim].job;
      if job in s.table && s.table[job].state == Processing then
        s.(table := s.table - {job}, claims := s.claims - {claim}, log := s.log + [Acknowledged(job)])
      else s.(claims := s.claims - {claim})
    case Reject(claim) =>
      var job := s.claims[claim].job;
      s.(table := if job in s.table && s.table[job].state == Processing then Marked(s.table, job, Pending) else s.table,
         claims := s.claims - {claim})
    case Abandon(claim) => s.(claims := s.claims - {claim})
    case CrashAndReopen => s.(table := Recovered(s.table), claims := map[])
  }

  ghost predicate Run(states: seq<State>, actions: seq<Action>) {
    && |states| == |actions| + 1
    && Init(states[0])
    && forall i {:trigger actions[i]} :: 0 <= i < |actions| ==> Enabled(states[i], actions[i]) && states[i + 1] == Apply(states[i], actions[i])
  }

  // ---------------------------------------------------------------- what the log says about a job

  /** Not in the queue, or in the queue since some enqueue, with or without a stored result since then. */
  datatype Life = Absent | Live(stored: bool)

  function LifeAfter(life: Life, e: Event, job: string): Life {
    if e.job != job then life
    else match e
      case Enqueued(_) => Live(false)
      case ResultStored(_, _) => if life.Live? then Live(true) else Absent
      case Acknowledged(_) => Absent
  }

  function LifeOf(log: seq<Event>, job: string): Life {
    if log == [] then Absent else LifeAfter(LifeOf(log[..|log| - 1], job), log[|log| - 1], job)
  }

  /** What must have happened before an event. */
  predicate Allowed(before: seq<Event>, e: Event) {
    match e
    case Enqueued(job) => LifeOf(before, job) == Absent
    case ResultStored(job, _) => LifeOf(before, job).Live?
    case Acknowledged(job) => LifeOf(before, job) == Live(true)
  }

  /** A job is enqueued only when absent, and acknowledged only when its result has been stored since. */
  predicate Proper(log: seq<Event>) {
    forall i :: 0 <= i < |log| ==> Allowed(log[..i], log[i])
  }

  lemma LifeOfAppended(log: seq<Event>, e: Event, job: string)
    ensures LifeOf(log + [e], job) == LifeAfter(LifeOf(log, job), e, job)
  {
  }

  lemma ProperAppended(log: seq<Event>, e: Event)
    requires Proper(log) && Allowed(log, e)
    ensures Proper(log + [e])
  {
    var after := log + [e];
    forall i | 0 <= i < |after| ensures Allowed(after[..i], after[i]) {
      if i < |log| {
        assert after[..i] == log[..i];
      } else {
        assert after[..i] == log;
      }
    }
  }

  // ---------------------------------------------------------------- the invariant

  ghost predicate ClaimsHold(s: State) {
    && (forall c :: c in s.claims ==>
          s.claims[c].job in s.table && s.table[s.claims[c].job].state == Processing)
    && (forall c, d :: c in s.claims && d in s.claims && c != d ==> s.claims[c].job != s.claims[d].job)
  }

  ghost predicate LogHolds(s: State) {
    && Proper(s.log)
    && (forall job :: job in s.table <==> LifeOf(s.log, job).Live?)
    && (forall c :: c in s.claims && s.claims[c].stored ==> LifeOf(s.log, s.claims[c].job) == Live(true))
  }

  ghost predicate Inv(s: State) {
    && s.maxResults > 0 && Unique(s.results) && |s.results| <= s.maxResults
    && ClaimsHold(s) && LogHolds(s)
  }

  lemma ClaimsPreserved(s: State, a: Action)
    requires Inv(s) && Enabled(s, a)
    ensures ClaimsHold(Apply(s, a))
  {
  }

  lemma LoggedStepPreserves(s: State, a: Action, e: Event)
    requires Inv(s) && Enabled(s, a) && Apply(s, a).log == s.log + [e]
    ensures LogHolds(Apply(s, a))
  {
    var t := Apply(s, a);
    assert t.log[|s.log|] == e;
    ProperAppended(s.log, e);
    forall job ensures LifeOf(t.log, job) == LifeAfter(LifeOf(s.log, job), e, job) {
      LifeOfAppended(s.log, e, job);
    }
  }

  lemma InvPreserved(s: State, a: Action)
    requires Inv(s) && Enabled(s, a)
    ensures Inv(Apply(s, a))
  {
    ClaimsPreserved(s, a);
    match a
    case Enqueue(job, _) => LoggedStepPreserves(s, a, Enqueued(job));
    case StoreResult(claim, r) =>
      LoggedStepPreserves(s, a, ResultStored(s.claims[claim].job, r.id));
      SqliteStoreCorrect(s.results, s.maxResults, s.claims[claim].job, r);
    case Acknowledge(claim) => LoggedStepPreserves(s, a, Acknowledged(s.claims[claim].job));
    case _ => assert LogHolds(Apply(s, a));
  }

  lemma {:induction false} InvAlongRun(states: seq<State>, actions: seq<Action>, i: nat)
    requires Run(states, actions) && i < |states|
    ensures Inv(states[i])
  {
    if i > 0 {
      InvAlongRun(states, actions, i - 1);
      assert Enabled(states[i - 1], actions[i - 1]);
      InvPreserved(states[i - 1], actions[i - 1]);
    }
  }

  // ---------------------------------------------------------------- the guarantees

  /**
   Through every run of crashes and reopenings the history of each job is proper: a committed
   enqueue is either still a row, or was acknowledged, and then only after its result had been stored.
   */
  lemma NoJobLost(states: seq<State>, actions: seq<Action>, i: nat, job: string)
    requires Run(states, actions) && i < |states|
    ensures Proper(states[i].log)
    ensures job in states[i].table <==> LifeOf(states[i].log, job).Live?
  {
    InvAlongRun(states, actions, i);
  }

  /** At `j` a result of the job was stored, and the job was neither enqueued nor acknowledged from then on. */
  ghost predicate StoredSince(log: seq<Event>, job: string, j: nat) {
    && j < |log| && log[j].ResultStored? && log[j].job == job
    && forall m :: j < m < |log| ==> log[m] != Enqueued(job) && log[m] != Acknowledged(job)
  }

  lemma {:induction false} LiveMeansStored(log: seq<Event>, job: string)
    requires LifeOf(log, job) == Live(true)
    ensures exists j: nat :: StoredSince(log, job, j)
  {
    var init, last := log[..|log| - 1], log[|log| - 1];
    if last.job == job && last.ResultStored? {
      assert StoredSince(log, job, |log| - 1);
    } else {
      LiveMeansStored(init, job);
      var j: nat :| StoredSince(init, job, j);
      assert StoredSince(log, job, j);
    }
  }

  /** In every run a job is acknowledged only after its result has been stored since its last enqueue. */
  lemma AcknowledgedAfterStore(states: seq<State>, actions: seq<Action>, i: nat, k: nat, job: string)
    requires Run(states, actions) && i < |states| && k < |states[i].log| && states[i].log[k] == Acknowledged(job)
    ensures exists j: nat :: StoredSince(states[i].log[..k], job, j)
  {
    InvAlongRun(states, actions, i);
    assert Allowed(states[i].log[..k], states[i].log[k]);
    LiveMeansStored(states[i].log[..k], job);
  }

  function Count(log: seq<Event>, e: Event): nat {
    if log == [] then 0 else Count(log[..|log| - 1], e) + if log[|log| - 1] == e then 1 else 0
  }

  lemma {:induction false} ProperLogConserves(log: seq<Event>, job: string)
    requires Proper(log)
    ensures Count(log, Enqueued(job)) == Count(log, Acknowledged(job)) + if LifeOf(log, job).Live? then 1 else 0
  {
    if log != [] {
      var init := log[..|log| - 1];
      forall i | 0 <= i < |init| ensures Allowed(init[..i], init[i]) {
        assert log[..i] == init[..i];
      }
      assert Allowed(init, log[|log| - 1]);
      ProperLogConserves(init, job);
    }
  }

  /** Conservation: enqueues of a job equal acknowledgements plus the row it still has, at every moment. */
  lemma JobsConserved(states: seq<State>, actions: seq<Action>, i: nat, job: string)
    requires Run(states, actions) && i < |states|
    ensures Count(states[i].log, Enqueued(job)) ==
            Count(states[i].log, Acknowledged(job)) + if job in states[i].table then 1 else 0
  {
    InvAlongRun(states, actions, i);
    ProperLogConserves(states[i].log, job);
  }

  /** No job ever has two live claims, and no queue job ever has two retained results. */
  lemma OneClaimOneResult(states: seq<State>, actions: seq<Action>, i: nat)
    requires Run(states, actions) && i < |states|
    ensures forall c, d :: c in states[i].claims && d in states[i].claims && states[i].claims[c].job == states[i].claims[d].job ==> c == d
    ensures forall j, k :: 0 <= j < k < |states[i].results| ==>
              states[i].results[j].queueJobId != states[i].results[k].queueJobId
  {
    InvAlongRun(states, actions, i);
    forall j, k | 0 <= j < k < |states[i].results|
      ensures states[i].results[j].queueJobId != states[i].results[k].queueJobId
    {
      assert KeyOf(states[i].results[j], ByQueueJob) != KeyOf(states[i].results[k], ByQueueJob);
    }
  }

  lemma StoreRetains(s: State, claim: nat, r: VerificationResult)
    requires Inv(s) && Enabled(s, StoreResult(claim, r))
    ensures var t := Apply(s, StoreResult(claim, r));
      && Find(t.results, ByVerification, r.id) == Some(Entry(s.claims[claim].job, r)) && |t.results| <= s.maxResults
      && t.table == s.table && t.claims == s.claims[claim := Claim(s.claims[claim].job, true)]
  {
    var e := Entry(s.claims[claim].job, r);
    SqliteStoreCorrect(s.results, s.maxResults, s.claims[claim].job, r);
    assert KeyOf(e, ByVerification) == r.id;
  }

  /** A stored result is retained for its job at that moment, under its verification id. */
  lemma StoredIsRetained(states: seq<State>, actions: seq<Action>, i: nat, claim: nat, r: VerificationResult)
    requires Run(states, actions) && i < |actions| && actions[i] == StoreResult(claim, r)
    ensures claim in states[i].claims
    ensures Find(states[i + 1].results, ByVerification, r.id) == Some(Entry(states[i].claims[claim].job, r))
    ensures |states[i + 1].results| <= states[0].maxResults
  {
    InvAlongRun(states, actions, i);
    assert Enabled(states[i], actions[i]) && states[i + 1] == Apply(states[i], actions[i]);
    StoreRetains(states[i], claim, r);
    BoundKept(states, actions, i);
  }

  lemma {:induction false} BoundKept(states: seq<State>, actions: seq<Action>, i: nat)
    requires Run(states, actions) && i < |states|
    ensures states[i].maxResults == states[0].maxResults
  {
    if i > 0 {
      BoundKept(states, actions, i - 1);
      assert Enabled(states[i - 1], actions[i - 1]) && states[i] == Apply(states[i - 1], actions[i - 1]);
    }
  }

  /** A claim whose result is accepted can be finished: stored, then acknowledged, and the row is gone for good. */
  lemma ClaimFinishes(s: State, claim: nat, r: VerificationResult)
    requires Inv(s) && Enabled(s, StoreResult(claim, r))
    ensures var stored := Apply(s, StoreResult(claim, r));
      && Enabled(stored, Acknowledge(claim))
      && var done := Apply(stored, Acknowledge(claim));
         && done.table == s.table - {s.claims[claim].job} && done.claims == s.claims - {claim}
         && done.results == stored.results
         && Find(done.results, ByVerification, r.id) == Some(Entry(s.claims[claim].job, r))
  {
    StoreRetains(s, claim, r);
  }

  /** A rejected job is pending again at its old place, and nobody's. */
  lemma RejectedIsPending(s: State, claim: nat)
    requires Inv(s) && claim in s.claims
    ensures var job, after := s.claims[claim].job, Apply(s, Reject(claim));
      && job in after.table && after.table[job] == Row(Pending, s.table[job].enqueuedAt)
      && forall c :: c in after.claims ==> after.claims[c].job != job
  {
  }

  // ---------------------------------------------------------------- processing rows, and what a reopening does

  ghost predicate Claimed(s: State, job: string) {
    exists c :: c in s.claims && s.claims[c].job == job
  }

  /** At step `k` a claim on the job was given up with its row left behind. */
  ghost predicate GivesUp(s: State, a: Action, job: string) {
    a.Abandon? && a.claim in s.claims && s.claims[a.claim].job == job
  }

  ghost predicate GivenUpSinceReopening(states: seq<State>, actions: seq<Action>, n: nat, job: string)
    requires n <= |actions| <= |states|
  {
    exists k :: 0 <= k < n && GivesUp(states[k], actions[k], job) && forall m :: k < m < n ==> actions[m] != CrashAndReopen
  }

  lemma GivenUpLater(states: seq<State>, actions: seq<Action>, n: nat, job: string)
    requires n < |actions| <= |states|
    ensures GivenUpSinceReopening(states, actions, n + 1, job) <==>
      GivesUp(states[n], actions[n], job)
      || (GivenUpSinceReopening(states, actions, n, job) && actions[n] != CrashAndReopen)
  {
    if GivenUpSinceReopening(states, actions, n + 1, job) && !GivesUp(states[n], actions[n], job) {
      var k :| 0 <= k < n + 1 && GivesUp(states[k], actions[k], job) && forall m :: k < m < n + 1 ==> actions[m] != CrashAndReopen;
      assert k < n && actions[n] != CrashAndReopen;
    }
    if GivenUpSinceReopening(states, actions, n, job) && actions[n] != CrashAndReopen {
      var k :| 0 <= k < n && GivesUp(states[k], actions[k], job) && forall m :: k < m < n ==> actions[m] != CrashAndReopen;
      assert forall m :: k < m < n + 1 ==> actions[m] != CrashAndReopen;
    }
  }

  ghost predicate IsProcessing(s: State, job: string) {
    job in s.table && s.table[job].state == Processing
  }

  /** How one step changes whether a row is processing, and whether its job is claimed. */
  lemma ProcessingAfter(s: State, a: Action, job: string)
    requires ClaimsHold(s) && Enabled(s, a)
    ensures var t := Apply(s, a);
      IsProcessing(t, job) && !Claimed(t, job) <==>
      GivesUp(s, a, job) || (IsProcessing(s, job) && !Claimed(s, job) && a != CrashAndReopen)
  {
    var t := Apply(s, a);
    forall c | c in t.claims && t.claims[c].job == job && !(a.Dequeue? && a.claim == c)
      ensures c in s.claims && s.claims[c].job == job
    {
    }
    if a.Dequeue? {
      assert t.claims[a.claim].job == a.job;
      assert forall c :: c in s.claims ==> c in t.claims && t.claims[c] == s.claims[c];
    } else if a.StoreResult? {
      assert forall c :: c in s.claims ==> c in t.claims && t.claims[c].job == s.claims[c].job;
    } else if a.Acknowledge? || a.Reject? || a.Abandon? {
      assert forall c :: c in s.claims && c != a.claim ==> c in t.claims && t.claims[c] == s.claims[c];
    }
  }

  /**
   In every run a row is processing exactly when its job has a live claim, or a claim on it was given up
   since the database was last opened.
   */
  lemma {:induction false} ProcessingIff(states: seq<State>, actions: seq<Action>, n: nat, job: string)
    requires Run(states, actions) && n <= |actions|
    ensures IsProcessing(states[n], job) <==>
      Claimed(states[n], job) || GivenUpSinceReopening(states, actions, n, job)
    ensures !(Claimed(states[n], job) && GivenUpSinceReopening(states, actions, n, job))
  {
    InvAlongRun(states, actions, n);
    if n > 0 {
      ProcessingIff(states, actions, n - 1, job);
      InvAlongRun(states, actions, n - 1);
      assert Enabled(states[n - 1], actions[n - 1]);
      ProcessingAfter(states[n - 1], actions[n - 1], job);
      GivenUpLater(states, actions, n - 1, job);
    }
  }

  /** After a crash every row is there, unclaimed, pending and at its place in the order; the results are untouched. */
  lemma ReopenedRows(states: seq<State>, actions: seq<Action>, i: nat)
    requires Run(states, actions) && i < |actions| && actions[i] == CrashAndReopen
    ensures states[i + 1].table.Keys == states[i].table.Keys && states[i + 1].results == states[i].results
    ensures forall job :: job in states[i].table ==>
      states[i + 1].table[job] == Row(Pending, states[i].table[job].enqueuedAt) && !Claimed(states[i + 1], job)
  {
    assert states[i + 1] == Apply(states[i], actions[i]);
  }

  ghost predicate Path(states: seq<State>, actions: seq<Action>) {
    && |states| == |actions| + 1
    && forall i {:trigger actions[i]} :: 0 <= i < |actions| ==> Enabled(states[i], actions[i]) && states[i + 1] == Apply(states[i], actions[i])
  }

  function PendingRows(table: Table): set<string> {
    set j | j in table && table[j].state == Pending
  }

  lemma {:induction false} FreshClaim(used: set<nat>) returns (claim: nat)
    ensures forall c :: c in used ==> c < claim
  {
    claim := 0;
    if used != {} {
      var c :| c in used;
      var above := FreshClaim(used - {c});
      claim := if above > c then above else c + 1;
      assert forall d :: d in used ==> d == c || d in used - {c};
    }
  }

  /** So no job is stuck: whatever is pending is claimed after dequeues alone, no more than there are pending rows. */
  lemma {:induction false} PendingIsDequeued(s: State, job: string) returns (states: seq<State>, actions: seq<Action>)
    requires job in s.table && s.table[job].state == Pending
    ensures Path(states, actions) && states[0] == s && |actions| <= |PendingRows(s.table)|
    ensures (forall a :: a in actions ==> a.Dequeue?) && Claimed(states[|actions|], job)
    decreases |PendingRows(s.table)|
  {
    assert IsPending(s.table, job) && job in PendingRows(s.table);
    NextExistsIffPending(s.table);
    var next :| next in s.table && IsNext(s.table, next);
    var claim := FreshClaim(s.claims.Keys);
    var a := Dequeue(claim, next);
    var t := Apply(s, a);
    assert PendingRows(t.table) == PendingRows(s.table) - {next};
    if next == job {
      states, actions := [s, t], [a];
      assert t.claims[a.claim].job == job;
    } else {
      var more, rest := PendingIsDequeued(t, job);
      states, actions := [s] + more, [a] + rest;
      forall i {:trigger actions[i]} | 0 <= i < |actions|
        ensures Enabled(states[i], actions[i]) && states[i + 1] == Apply(states[i], actions[i])
      {
        if i > 0 {
          assert actions[i] == rest[i - 1];
        }
      }
    }
  }

  /**
   After a crash between store and acknowledge the job runs again; its new result is accepted exactly
   when it is the same verification of the same native job, while the first result is retained.
   */
  lemma RerunAcceptedIff(s: State, first: Entry, r: VerificationResult)
    requires Inv(s) && first in s.results && !Blank(first.queueJobId)
    ensures SqliteStore(s.results, s.maxResults, first.queueJobId, r).Ok? <==>
            r.id == first.result.id && r.jobId == first.result.jobId
  {
    SqliteStoreCorrect(s.results, s.maxResults, first.queueJobId, r);
    FindIff(s.results, ByQueueJob, first.queueJobId, first);
    FindIff(s.results, ByVerification, first.result.id, first);
    FindIff(s.results, ByNativeJob, first.result.jobId, first);
  }
}
