/**
 When a verification may be called a pass (packages/engine/src/aggregation.ts and
 packages/policy/src/default.ts): findings from results, coverage of the plan, the default policy, and
 the status computed from all three.
 */
module Verdict {
  import opened Options
  import opened Text

  datatype CheckStatus = Passed | Failed | Error | TimedOut | Cancelled | Skipped

  datatype Source = Real | Simulated | Fixture

  datatype CheckResult = CheckResult(id: string, checkId: string, status: CheckStatus, source: Source)

  datatype Applicability = Applicable | NotApplicable | Unsupported

  datatype PlanItem = PlanItem(checkId: string, applicability: Applicability, required: bool)

  // ---------------------------------------------------------------- looking results up

  /** `results.find(...)` */
  function FirstResult(results: seq<CheckResult>, checkId: string): Option<CheckResult> {
    if results == [] then None
    else if results[0].checkId == checkId then Some(results[0])
    else FirstResult(results[1..], checkId)
  }

  /** `new Map(results.map(...)).get(...)`: a later result replaces an earlier one. */
  function LastResult(results: seq<CheckResult>, checkId: string): Option<CheckResult> {
    if results == [] then None
    else
      var later := LastResult(results[1..], checkId);
      if later.Some? then later
      else if results[0].checkId == checkId then Some(results[0])
      else None
  }

  lemma {:induction false} LookupsFind(results: seq<CheckResult>, checkId: string)
    ensures FirstResult(results, checkId).Some? <==> exists r :: r in results && r.checkId == checkId
    ensures LastResult(results, checkId).Some? <==> FirstResult(results, checkId).Some?
    ensures FirstResult(results, checkId).Some? ==>
      FirstResult(results, checkId).value in results && FirstResult(results, checkId).value.checkId == checkId
    ensures LastResult(results, checkId).Some? ==>
      LastResult(results, checkId).value in results && LastResult(results, checkId).value.checkId == checkId
  {
    if results != [] {
      LookupsFind(results[1..], checkId);
      assert results == [results[0]] + results[1..];
    }
  }

  // ---------------------------------------------------------------- findings

  datatype Severity = High | Critical | Medium | Low

  datatype Finding = Finding(checkId: string, status: CheckStatus, severity: Severity)

  predicate Unsuccessful(status: CheckStatus) {
    status.Failed? || status.TimedOut? || status.Error? || status.Cancelled?
  }

  /** A finding for each unsuccessful result that has evidence; evidence is keyed by the result's id. */
  function FindingsFor(results: seq<CheckResult>, evidence: seq<string>): seq<Finding> {
    if results == [] then []
    else
      (if Unsuccessful(results[0].status) && results[0].id in evidence
       then [Finding(results[0].checkId, results[0].status, High)] else [])
      + FindingsFor(results[1..], evidence)
  }

  function EvidenceFor(results: seq<CheckResult>): seq<string> {
    if results == [] then [] else [results[0].id] + EvidenceFor(results[1..])
  }

  lemma {:induction false} EvidenceComplete(results: seq<CheckResult>)
    ensures forall r :: r in results ==> r.id in EvidenceFor(results)
  {
    if results != [] {
      EvidenceComplete(results[1..]);
      assert results == [results[0]] + results[1..];
    }
  }

  lemma {:induction false} FindingsMembers(results: seq<CheckResult>, evidence: seq<string>)
    requires forall r :: r in results ==> r.id in evidence
    ensures FindingsFor(results, evidence) == [] <==> forall r :: r in results ==> !Unsuccessful(r.status)
    ensures forall f :: f in FindingsFor(results, evidence) ==> f.severity == High
  {
    if results != [] {
      assert results == [results[0]] + results[1..];
      FindingsMembers(results[1..], evidence);
    }
  }

  // ---------------------------------------------------------------- coverage

  datatype Bucket = VerifiedBucket | PartialBucket | UnsupportedBucket | NotApplicableBucket | SimulatedBucket | FixtureBucket

  function BucketOf(item: PlanItem, results: seq<CheckResult>): Bucket {
    match item.applicability
    case Unsupported => UnsupportedBucket
    case NotApplicable => NotApplicableBucket
    case Applicable =>
      var result := LastResult(results, item.checkId);
      if result.Some? && result.value.status.Passed? then
        match result.value.source
        case Real => VerifiedBucket
        case Simulated => SimulatedBucket
        case Fixture => FixtureBucket
      else PartialBucket
  }

  /** The check ids that the plan puts in a bucket, in plan order. */
  function Collected(items: seq<PlanItem>, results: seq<CheckResult>, bucket: Bucket): seq<string> {
    if items == [] then []
    else (if BucketOf(items[0], results) == bucket then [items[0].checkId] else []) + Collected(items[1..], results, bucket)
  }

  function InsertUnique(s: string, sorted: seq<string>): seq<string> {
    if sorted == [] then [s]
    else if s == sorted[0] then sorted
    else if Less(s, sorted[0]) then [s] + sorted
    else [sorted[0]] + InsertUnique(s, sorted[1..])
  }

  /** `[...new Set(values)].sort()` */
  function SortedUnique(values: seq<string>): seq<string> {
    if values == [] then [] else InsertUnique(values[0], SortedUnique(values[1..]))
  }

  ghost predicate StrictlyAscending(values: seq<string>) {
    forall i, j :: 0 <= i < j < |values| ==> Less(values[i], values[j])
  }

  lemma {:induction false} InsertUniqueSorts(s: string, sorted: seq<string>)
    requires StrictlyAscending(sorted)
    ensures StrictlyAscending(InsertUnique(s, sorted))
    ensures forall x :: x in InsertUnique(s, sorted) <==> x == s || x in sorted
  {
    if sorted != [] {
      var first, rest := sorted[0], sorted[1..];
      assert sorted == [first] + rest;
      LessIsStrictTotal(s, first);
      if s != first {
        HeadAndTail(sorted);
        if Less(s, first) {
          forall x | x in sorted ensures Less(s, x) {
            if x != first {
              LessTransitive(s, first, x);
            }
          }
          AscendingWithHead(s, sorted);
        } else {
          InsertUniqueSorts(s, rest);
          AscendingWithHead(first, InsertUnique(s, rest));
        }
      }
    }
  }

  lemma HeadAndTail(sorted: seq<string>)
    requires sorted != [] && StrictlyAscending(sorted)
    ensures StrictlyAscending(sorted[1..]) && forall x :: x in sorted[1..] ==> Less(sorted[0], x)
  {
  }

  lemma AscendingWithHead(first: string, rest: seq<string>)
    requires StrictlyAscending(rest) && forall x :: x in rest ==> Less(first, x)
    ensures StrictlyAscending([first] + rest)
  {
  }

  lemma {:induction false} SortedUniqueSorts(values: seq<string>)
    ensures StrictlyAscending(SortedUnique(values))
    ensures forall x :: x in SortedUnique(values) <==> x in values
  {
    if values != [] {
      SortedUniqueSorts(values[1..]);
      InsertUniqueSorts(values[0], SortedUnique(values[1..]));
      assert values == [values[0]] + values[1..];
    }
  }

  datatype Coverage = Coverage(verified: seq<string>, partials: seq<string>, unsupported: seq<string>,
                               notApplicable: seq<string>, simulated: seq<string>, fixture: seq<string>)

  function InBucket(coverage: Coverage, bucket: Bucket): seq<string> {
    match bucket
    case VerifiedBucket => coverage.verified
    case PartialBucket => coverage.partials
    case UnsupportedBucket => coverage.unsupported
    case NotApplicableBucket => coverage.notApplicable
    case SimulatedBucket => coverage.simulated
    case FixtureBucket => coverage.fixture
  }

  lemma {:induction false} CollectedOneMore(items: seq<PlanItem>, item: PlanItem, results: seq<CheckResult>, bucket: Bucket)
    ensures Collected(items + [item], results, bucket)
      == Collected(items, results, bucket) + if BucketOf(item, results) == bucket then [item.checkId] else []
  {
    if items == [] {
      assert items + [item] == [item] && [item][1..] == [];
    } else {
      var head := if BucketOf(items[0], results) == bucket then [items[0].checkId] else [];
      var last := if BucketOf(item, results) == bucket then [item.checkId] else [];
      assert (items + [item])[0] == items[0] && (items + [item])[1..] == items[1..] + [item];
      CollectedOneMore(items[1..], item, results, bucket);
      assert head + (Collected(items[1..], results, bucket) + last) == (head + Collected(items[1..], results, bucket)) + last;
    }
  }

  /** The loop that pushes every planned check into a bucket. */
  method CoverageForPlan(items: seq<PlanItem>, results: seq<CheckResult>) returns (coverage: Coverage)
    ensures forall bucket :: InBucket(coverage, bucket) == SortedUnique(Collected(items, results, bucket))
  {
    var pushed := Coverage([], [], [], [], [], []);
    var k := 0;
    assert items[..0] == [];
    while k < |items|
      invariant 0 <= k <= |items|
      invariant forall bucket :: InBucket(pushed, bucket) == Collected(items[..k], results, bucket)
    {
      var item := items[k];
      ghost var was := pushed;
      if item.applicability.Unsupported? {
        pushed := pushed.(unsupported := pushed.unsupported + [item.checkId]);
      } else if item.applicability.NotApplicable? {
        pushed := pushed.(notApplicable := pushed.notApplicable + [item.checkId]);
      } else {
        var result := LastResult(results, item.checkId);
        if result.Some? && result.value.status.Passed? && result.value.source.Real? {
          pushed := pushed.(verified := pushed.verified + [item.checkId]);
        } else if result.Some? && result.value.status.Passed? && result.value.source.Simulated? {
          pushed := pushed.(simulated := pushed.simulated + [item.checkId]);
        } else if result.Some? && result.value.status.Passed? && result.value.source.Fixture? {
          pushed := pushed.(fixture := pushed.fixture + [item.checkId]);
        } else {
          pushed := pushed.(partials := pushed.partials + [item.checkId]);
        }
      }
      assert items[..k + 1] == items[..k] + [item];
      forall bucket ensures InBucket(pushed, bucket) == Collected(items[..k + 1], results, bucket) {
        CollectedOneMore(items[..k], item, results, bucket);
        assert InBucket(pushed, bucket) == InBucket(was, bucket) + if BucketOf(item, results) == bucket then [item.checkId] else [];
      }
      k := k + 1;
    }
    assert items[..k] == items;
    coverage := Coverage(SortedUnique(pushed.verified), SortedUnique(pushed.partials), SortedUnique(pushed.unsupported),
                         SortedUnique(pushed.notApplicable), SortedUnique(pushed.simulated), SortedUnique(pushed.fixture));
    forall bucket ensures InBucket(coverage, bucket) == SortedUnique(Collected(items, results, bucket)) {
      assert InBucket(coverage, bucket) == SortedUnique(InBucket(pushed, bucket));
    }
  }

  function CoverageOf(items: seq<PlanItem>, results: seq<CheckResult>): Coverage {
    Coverage(SortedUnique(Collected(items, results, VerifiedBucket)), SortedUnique(Collected(items, results, PartialBucket)),
             SortedUnique(Collected(items, results, UnsupportedBucket)), SortedUnique(Collected(items, results, NotApplicableBucket)),
             SortedUnique(Collected(items, results, SimulatedBucket)), SortedUnique(Collected(items, results, FixtureBucket)))
  }

  lemma {:induction false} CollectedMembers(items: seq<PlanItem>, results: seq<CheckResult>, bucket: Bucket)
    ensures forall id :: id in Collected(items, results, bucket) <==>
      exists item :: item in items && item.checkId == id && BucketOf(item, results) == bucket
  {
    if items != [] {
      CollectedMembers(items[1..], results, bucket);
      assert items == [items[0]] + items[1..];
    }
  }

  lemma BucketMembers(items: seq<PlanItem>, results: seq<CheckResult>, bucket: Bucket)
    ensures forall id :: id in InBucket(CoverageOf(items, results), bucket) <==>
      exists item :: item in items && item.checkId == id && BucketOf(item, results) == bucket
    ensures InBucket(CoverageOf(items, results), bucket) == [] <==>
      forall item :: item in items ==> BucketOf(item, results) != bucket
  {
    var ids := Collected(items, results, bucket);
    CollectedMembers(items, results, bucket);
    SortedUniqueSorts(ids);
    assert InBucket(CoverageOf(items, results), bucket) == SortedUnique(ids);
    if SortedUnique(ids) != [] {
      assert SortedUnique(ids)[0] in SortedUnique(ids);
    }
    forall item | item in items && BucketOf(item, results) == bucket ensures item.checkId in SortedUnique(ids) {
    }
  }

  ghost predicate DistinctChecks(items: seq<PlanItem>) {
    forall i, j :: 0 <= i < j < |items| ==> items[i].checkId != items[j].checkId
  }

  lemma BucketsDisjoint(items: seq<PlanItem>, results: seq<CheckResult>, b: Bucket, c: Bucket, id: string)
    requires DistinctChecks(items)
    requires id in InBucket(CoverageOf(items, results), b) && id in InBucket(CoverageOf(items, results), c)
    ensures b == c
  {
    BucketMembers(items, results, b);
    BucketMembers(items, results, c);
    var i :| 0 <= i < |items| && items[i].checkId == id && BucketOf(items[i], results) == b;
    var j :| 0 <= j < |items| && items[j].checkId == id && BucketOf(items[j], results) == c;
  }

  /** With distinct plan checks the six buckets are sorted, disjoint, and together exactly the plan's checks. */
  lemma BucketsPartitionPlan(items: seq<PlanItem>, results: seq<CheckResult>)
    requires DistinctChecks(items)
    ensures forall bucket :: StrictlyAscending(InBucket(CoverageOf(items, results), bucket))
    ensures forall item :: item in items ==> item.checkId in InBucket(CoverageOf(items, results), BucketOf(item, results))
    ensures forall bucket, id :: id in InBucket(CoverageOf(items, results), bucket) ==>
      exists item :: item in items && item.checkId == id
    ensures forall b, c, id :: id in InBucket(CoverageOf(items, results), b) && id in InBucket(CoverageOf(items, results), c) ==> b == c
  {
    forall bucket ensures StrictlyAscending(InBucket(CoverageOf(items, results), bucket)) {
      SortedUniqueSorts(Collected(items, results, bucket));
      assert InBucket(CoverageOf(items, results), bucket) == SortedUnique(Collected(items, results, bucket));
    }
    forall item | item in items ensures item.checkId in InBucket(CoverageOf(items, results), BucketOf(item, results)) {
      BucketMembers(items, results, BucketOf(item, results));
    }
    forall bucket, id | id in InBucket(CoverageOf(items, results), bucket) ensures exists item :: item in items && item.checkId == id {
      BucketMembers(items, results, bucket);
    }
    forall b, c, id | id in InBucket(CoverageOf(items, results), b) && id in InBucket(CoverageOf(items, results), c) ensures b == c {
      BucketsDisjoint(items, results, b, c, id);
    }
  }

  // ---------------------------------------------------------------- the default policy

  datatype PolicyOutcome = Allow | Block | NeedsChanges | NeedsReview

  datatype Rule = RequiredCheckFailure | HighFinding | NonRealRequiredExecution | UnsupportedRequiredCapability | MediumFinding

  datatype Context = Context(results: seq<CheckResult>, findings: seq<Finding>, required: set<string>,
                             unsupportedRequired: seq<string>, nonRealRequired: seq<string>)

  predicate FailsRequired(context: Context) {
    exists r :: r in context.results && r.checkId in context.required && Unsuccessful(r.status)
  }

  predicate Severe(context: Context) {
    exists f :: f in context.findings && (f.severity.High? || f.severity.Critical?)
  }

  predicate Medial(context: Context) {
    exists f :: f in context.findings && f.severity.Medium?
  }

  /** Block outranks needs-changes, which outranks needs-review; a rule that is outranked is not triggered. */
  method EvaluateDefaultPolicy(context: Context) returns (outcome: PolicyOutcome, triggered: set<Rule>)
    ensures outcome == OutcomeOf(context)
    ensures outcome == Block <==>
      || (exists r :: r in context.results && r.checkId in context.required && r.status in {Failed, TimedOut, Error, Cancelled})
      || (exists f :: f in context.findings && f.severity in {High, Critical})
    ensures outcome == NeedsChanges <==> outcome != Block && (context.nonRealRequired != [] || context.unsupportedRequired != [])
    ensures outcome == NeedsReview <==>
      outcome !in {Block, NeedsChanges} && exists f :: f in context.findings && f.severity == Medium
    ensures RequiredCheckFailure in triggered <==> FailsRequired(context)
    ensures HighFinding in triggered <==> Severe(context)
    ensures NonRealRequiredExecution in triggered <==> outcome != Block && context.nonRealRequired != []
    ensures UnsupportedRequiredCapability in triggered <==> outcome != Block && context.unsupportedRequired != []
    ensures MediumFinding in triggered <==> outcome == NeedsReview
    ensures outcome == Allow <==> triggered == {}
  {
    outcome, triggered := Allow, {};
    if FailsRequired(context) {
      outcome, triggered := Block, triggered + {RequiredCheckFailure};
    }
    if Severe(context) {
      outcome, triggered := Block, triggered + {HighFinding};
    }
    if outcome != Block && context.nonRealRequired != [] {
      outcome, triggered := NeedsChanges, triggered + {NonRealRequiredExecution};
    }
    if outcome != Block && context.unsupportedRequired != [] {
      outcome, triggered := NeedsChanges, triggered + {UnsupportedRequiredCapability};
    }
    if outcome == Allow && Medial(context) {
      outcome, triggered := NeedsReview, triggered + {MediumFinding};
    }
  }

  function OutcomeOf(context: Context): PolicyOutcome {
    if FailsRequired(context) || Severe(context) then Block
    else if context.nonRealRequired != [] || context.unsupportedRequired != [] then NeedsChanges
    else if Medial(context) then NeedsReview
    else Allow
  }

  // ---------------------------------------------------------------- the status

  datatype Status = StatusError | Blocked | ChangesNeeded | ReviewNeeded | Partial | Pass

  function StatusFor(outcome: PolicyOutcome, coverage: Coverage, results: seq<CheckResult>): Status {
    if exists r :: r in results && r.status.Error? then StatusError
    else
      match outcome
      case Block => Blocked
      case NeedsChanges => ChangesNeeded
      case NeedsReview => ReviewNeeded
      case Allow =>
        if coverage.partials != [] || coverage.unsupported != [] || coverage.simulated != [] || coverage.fixture != [] then Partial
        else Pass
  }

  function RequiredIds(items: seq<PlanItem>, applicability: Applicability): seq<string> {
    if items == [] then []
    else
      (if items[0].required && items[0].applicability == applicability then [items[0].checkId] else [])
      + RequiredIds(items[1..], applicability)
  }

  function NonReal(ids: seq<string>, results: seq<CheckResult>): seq<string> {
    if ids == [] then []
    else
      var result := FirstResult(results, ids[0]);
      (if result.Some? && !result.value.source.Real? then [ids[0]] else []) + NonReal(ids[1..], results)
  }

  function ContextFor(items: seq<PlanItem>, results: seq<CheckResult>): Context {
    var required := RequiredIds(items, Applicable);
    Context(results, FindingsFor(results, EvidenceFor(results)), (set id | id in required),
            RequiredIds(items, Unsupported), NonReal(required, results))
  }

  function StatusOf(items: seq<PlanItem>, results: seq<CheckResult>): Status {
    StatusFor(OutcomeOf(ContextFor(items, results)), CoverageOf(items, results), results)
  }

  /** `aggregateVerification`, the status. */
  method AggregateVerification(items: seq<PlanItem>, results: seq<CheckResult>) returns (status: Status)
    ensures status == StatusOf(items, results)
  {
    var coverage := CoverageForPlan(items, results);
    assert coverage == CoverageOf(items, results) by {
      forall bucket ensures InBucket(coverage, bucket) == InBucket(CoverageOf(items, results), bucket) {
      }
      SameBuckets(coverage, CoverageOf(items, results));
    }
    var outcome, triggered := EvaluateDefaultPolicy(ContextFor(items, results));
    status := StatusFor(outcome, coverage, results);
  }

  lemma SameBuckets(a: Coverage, b: Coverage)
    requires forall bucket :: InBucket(a, bucket) == InBucket(b, bucket)
    ensures a == b
  {
    assert InBucket(a, VerifiedBucket) == InBucket(b, VerifiedBucket) && InBucket(a, PartialBucket) == InBucket(b, PartialBucket);
    assert InBucket(a, UnsupportedBucket) == InBucket(b, UnsupportedBucket);
    assert InBucket(a, NotApplicableBucket) == InBucket(b, NotApplicableBucket);
    assert InBucket(a, SimulatedBucket) == InBucket(b, SimulatedBucket) && InBucket(a, FixtureBucket) == InBucket(b, FixtureBucket);
  }

  // ---------------------------------------------------------------- what the status means

  predicate NoneUnsuccessful(results: seq<CheckResult>) {
    forall r :: r in results ==> r.status.Passed? || r.status.Skipped?
  }

  /** A required check that was looked at but not really run, or that cannot be run. */
  predicate RequiredGap(item: PlanItem, results: seq<CheckResult>) {
    && item.required
    && (item.applicability.Unsupported?
        || (item.applicability.Applicable? && FirstResult(results, item.checkId).Some? && !FirstResult(results, item.checkId).value.source.Real?))
  }

  predicate ReallyPassed(item: PlanItem, results: seq<CheckResult>) {
    var result := LastResult(results, item.checkId);
    result.Some? && result.value.status.Passed? && result.value.source.Real?
  }

  lemma {:induction false} RequiredIdsMembers(items: seq<PlanItem>, applicability: Applicability)
    ensures forall id :: id in RequiredIds(items, applicability) <==>
      exists item :: item in items && item.checkId == id && item.required && item.applicability == applicability
  {
    if items != [] {
      RequiredIdsMembers(items[1..], applicability);
      assert items == [items[0]] + items[1..];
    }
  }

  predicate NotReal(id: string, results: seq<CheckResult>) {
    FirstResult(results, id).Some? && !FirstResult(results, id).value.source.Real?
  }

  lemma {:induction false} NonRealMembers(ids: seq<string>, results: seq<CheckResult>)
    ensures forall id :: id in NonReal(ids, results) <==> id in ids && NotReal(id, results)
  {
    if ids != [] {
      NonRealMembers(ids[1..], results);
      assert ids == [ids[0]] + ids[1..];
    }
  }

  lemma GapsMean(items: seq<PlanItem>, results: seq<CheckResult>)
    ensures NonReal(RequiredIds(items, Applicable), results) != [] || RequiredIds(items, Unsupported) != [] <==>
      exists item :: item in items && RequiredGap(item, results)
  {
    var unreal, unsupported := NonReal(RequiredIds(items, Applicable), results), RequiredIds(items, Unsupported);
    RequiredIdsMembers(items, Applicable);
    RequiredIdsMembers(items, Unsupported);
    NonRealMembers(RequiredIds(items, Applicable), results);
    if unreal != [] {
      assert unreal[0] in unreal;
      var item :| item in items && item.checkId == unreal[0] && item.required && item.applicability == Applicable;
      assert RequiredGap(item, results);
    }
    if unsupported != [] {
      assert unsupported[0] in unsupported;
      var item :| item in items && item.checkId == unsupported[0] && item.required && item.applicability == Unsupported;
      assert RequiredGap(item, results);
    }
    forall item | item in items && RequiredGap(item, results) ensures item.checkId in unreal || item.checkId in unsupported {
    }
  }

  lemma ContextMeans(items: seq<PlanItem>, results: seq<CheckResult>)
    ensures var context := ContextFor(items, results);
      && (FailsRequired(context) || Severe(context) <==> !NoneUnsuccessful(results))
      && !Medial(context)
      && (context.nonRealRequired != [] || context.unsupportedRequired != [] <==> exists item :: item in items && RequiredGap(item, results))
  {
    var context := ContextFor(items, results);
    EvidenceComplete(results);
    FindingsMembers(results, EvidenceFor(results));
    if context.findings != [] {
      assert context.findings[0] in context.findings;
    }
    GapsMean(items, results);
  }

  /**
   Every status, exactly.  The statuses are tried in this order: an error; any other unsuccessful
   result, required or not; a gap in a required check; anything applicable that did not really pass, or
   unsupported; and otherwise a pass.  `needs_review` cannot happen: every finding is of high severity.
   */
  lemma StatusMeans(items: seq<PlanItem>, results: seq<CheckResult>)
    ensures var status := StatusOf(items, results);
      var covered := forall item :: item in items ==> !item.applicability.Unsupported? && (item.applicability.Applicable? ==> ReallyPassed(item, results));
      var gap := exists item :: item in items && RequiredGap(item, results);
      && (status == StatusError <==> exists r :: r in results && r.status.Error?)
      && (status == Blocked <==> !NoneUnsuccessful(results) && !(exists r :: r in results && r.status.Error?))
      && (status == ChangesNeeded <==> NoneUnsuccessful(results) && gap)
      && status != ReviewNeeded
      && (status == Partial <==> NoneUnsuccessful(results) && !gap && !covered)
      && (status == Pass <==> NoneUnsuccessful(results) && !gap && covered)
  {
    ContextMeans(items, results);
    CoverageGaps(items, results);
  }

  lemma CoverageGaps(items: seq<PlanItem>, results: seq<CheckResult>)
    ensures var c := CoverageOf(items, results);
      (c.partials == [] && c.unsupported == [] && c.simulated == [] && c.fixture == []) <==>
        forall item :: item in items ==> !item.applicability.Unsupported? && (item.applicability.Applicable? ==> ReallyPassed(item, results))
  {
    var c := CoverageOf(items, results);
    assert InBucket(c, PartialBucket) == c.partials && InBucket(c, UnsupportedBucket) == c.unsupported;
    assert InBucket(c, SimulatedBucket) == c.simulated && InBucket(c, FixtureBucket) == c.fixture;
    BucketMembers(items, results, PartialBucket);
    BucketMembers(items, results, UnsupportedBucket);
    BucketMembers(items, results, SimulatedBucket);
    BucketMembers(items, results, FixtureBucket);
    forall item | item in items
      ensures (!item.applicability.Unsupported? && (item.applicability.Applicable? ==> ReallyPassed(item, results)))
        <==> BucketOf(item, results) !in {PartialBucket, UnsupportedBucket, SimulatedBucket, FixtureBucket}
    {
    }
  }

  ghost predicate DistinctResults(results: seq<CheckResult>) {
    forall i, j :: 0 <= i < j < |results| ==> results[i].checkId != results[j].checkId
  }

  predicate HasRealPass(results: seq<CheckResult>, checkId: string) {
    exists r :: r in results && r.checkId == checkId && r.status.Passed? && r.source.Real?
  }

  lemma OneResult(results: seq<CheckResult>, checkId: string)
    requires DistinctResults(results)
    ensures FirstResult(results, checkId) == LastResult(results, checkId)
    ensures HasRealPass(results, checkId) <==>
      var result := LastResult(results, checkId); result.Some? && result.value.status.Passed? && result.value.source.Real?
  {
    LookupsFind(results, checkId);
    forall r | r in results && r.checkId == checkId
      ensures Some(r) == FirstResult(results, checkId) == LastResult(results, checkId)
    {
      var i :| 0 <= i < |results| && results[i] == r;
      var j :| 0 <= j < |results| && results[j] == FirstResult(results, checkId).value;
      var k :| 0 <= k < |results| && results[k] == LastResult(results, checkId).value;
      assert i == j == k;
    }
  }

  /**
   With one result per check, a pass means exactly: every result passed or was skipped, no planned check
   is unsupported, and every applicable check has a passed result with real provenance.
   */
  lemma PassIff(items: seq<PlanItem>, results: seq<CheckResult>)
    requires DistinctResults(results)
    ensures StatusOf(items, results) == Pass <==>
      && NoneUnsuccessful(results)
      && (forall item :: item in items ==> !item.applicability.Unsupported?)
      && (forall item :: item in items && item.applicability.Applicable? ==> HasRealPass(results, item.checkId))
  {
    forall item | item in items
      ensures ReallyPassed(item, results) <==> HasRealPass(results, item.checkId)
      ensures item.applicability.Applicable? && ReallyPassed(item, results) ==> !RequiredGap(item, results)
    {
      OneResult(results, item.checkId);
    }
    StatusMeans(items, results);
  }

  // ---------------------------------------------------------------- the buckets, spelled out

  ghost predicate IsLast(results: seq<CheckResult>, checkId: string, r: CheckResult) {
    exists i :: 0 <= i < |results| && results[i] == r && r.checkId == checkId
                && forall j :: i < j < |results| ==> results[j].checkId != checkId
  }

  ghost predicate IsFirst(results: seq<CheckResult>, checkId: string, r: CheckResult) {
    exists i :: 0 <= i < |results| && results[i] == r && r.checkId == checkId
                && forall j :: 0 <= j < i ==> results[j].checkId != checkId
  }

  lemma {:induction false} LastResultIff(results: seq<CheckResult>, checkId: string, r: CheckResult)
    ensures LastResult(results, checkId) == Some(r) <==> IsLast(results, checkId, r)
  {
    if results != [] {
      var rest := results[1..];
      LastResultIff(rest, checkId, r);
      LookupsFind(rest, checkId);
      if IsLast(rest, checkId, r) {
        var i :| 0 <= i < |rest| && rest[i] == r && r.checkId == checkId
          && forall j :: i < j < |rest| ==> rest[j].checkId != checkId;
        assert results[i + 1] == r;
        assert forall j :: i + 1 < j < |results| ==> results[j] == rest[j - 1];
      }
      if IsLast(results, checkId, r) {
        var i :| 0 <= i < |results| && results[i] == r && r.checkId == checkId
          && forall j :: i < j < |results| ==> results[j].checkId != checkId;
        assert forall j :: 0 <= j < |rest| ==> rest[j] == results[j + 1];
        if i > 0 {
          assert rest[i - 1] == r;
        }
      }
    }
  }

  lemma {:induction false} FirstResultIff(results: seq<CheckResult>, checkId: string, r: CheckResult)
    ensures FirstResult(results, checkId) == Some(r) <==> IsFirst(results, checkId, r)
  {
    if results != [] {
      var rest := results[1..];
      FirstResultIff(rest, checkId, r);
      assert forall j :: 0 <= j < |rest| ==> rest[j] == results[j + 1];
      if IsFirst(rest, checkId, r) && results[0].checkId != checkId {
        var i :| 0 <= i < |rest| && rest[i] == r && r.checkId == checkId && forall j :: 0 <= j < i ==> rest[j].checkId != checkId;
        assert results[i + 1] == r;
        assert forall j :: 0 < j < i + 1 ==> results[j] == rest[j - 1];
      }
      if IsFirst(results, checkId, r) {
        var i :| 0 <= i < |results| && results[i] == r && r.checkId == checkId && forall j :: 0 <= j < i ==> results[j].checkId != checkId;
        if i > 0 {
          assert rest[i - 1] == r;
        }
      }
    }
  }

  ghost predicate Planned(items: seq<PlanItem>, id: string, applicability: Applicability) {
    exists item :: item in items && item.checkId == id && item.applicability == applicability
  }

  /** The check's last result passed, from this source. */
  ghost predicate LastPassed(results: seq<CheckResult>, id: string, source: Source) {
    exists r :: IsLast(results, id, r) && r.status == Passed && r.source == source
  }

  /** What it takes to be counted in a bucket. */
  ghost predicate Belongs(items: seq<PlanItem>, results: seq<CheckResult>, id: string, bucket: Bucket) {
    match bucket
    case UnsupportedBucket => Planned(items, id, Unsupported)
    case NotApplicableBucket => Planned(items, id, NotApplicable)
    case VerifiedBucket => Planned(items, id, Applicable) && LastPassed(results, id, Real)
    case SimulatedBucket => Planned(items, id, Applicable) && LastPassed(results, id, Simulated)
    case FixtureBucket => Planned(items, id, Applicable) && LastPassed(results, id, Fixture)
    case PartialBucket => Planned(items, id, Applicable) && forall source :: !LastPassed(results, id, source)
  }

  lemma OneItemBelongs(item: PlanItem, results: seq<CheckResult>, bucket: Bucket)
    ensures BucketOf(item, results) == bucket <==> Belongs([item], results, item.checkId, bucket)
  {
    var last := LastResult(results, item.checkId);
    LastPassedIff(results, item.checkId);
    if last.Some? && last.value.status.Passed? {
      assert LastPassed(results, item.checkId, last.value.source);
    }
    forall applicability ensures Planned([item], item.checkId, applicability) <==> item.applicability == applicability {
      assert item in [item];
    }
  }

  lemma BelongsThrough(items: seq<PlanItem>, results: seq<CheckResult>, id: string, bucket: Bucket)
    ensures Belongs(items, results, id, bucket) <==>
      exists item :: item in items && item.checkId == id && Belongs([item], results, id, bucket)
  {
    forall item: PlanItem, applicability | item.checkId == id
      ensures Planned([item], id, applicability) <==> item.applicability == applicability
    {
      assert item in [item];
    }
  }

  /**
   Where a planned check is counted: by its applicability, and an applicable one by the source of its last
   result if that passed, and as partial otherwise.
   */
  lemma CoverageMeans(items: seq<PlanItem>, results: seq<CheckResult>, id: string, bucket: Bucket)
    ensures id in InBucket(CoverageOf(items, results), bucket) <==> Belongs(items, results, id, bucket)
  {
    BucketMembers(items, results, bucket);
    BelongsThrough(items, results, id, bucket);
    forall item | item in items && item.checkId == id
      ensures BucketOf(item, results) == bucket <==> Belongs([item], results, id, bucket)
    {
      OneItemBelongs(item, results, bucket);
    }
  }

  lemma LastPassedIff(results: seq<CheckResult>, id: string)
    ensures forall source :: LastPassed(results, id, source) <==>
      var last := LastResult(results, id); last.Some? && last.value.status == Passed && last.value.source == source
  {
    forall source ensures LastPassed(results, id, source) <==>
      var last := LastResult(results, id); last.Some? && last.value.status == Passed && last.value.source == source
    {
      if LastResult(results, id).Some? {
        LastResultIff(results, id, LastResult(results, id).value);
      }
      if LastPassed(results, id, source) {
        var r :| IsLast(results, id, r) && r.status == Passed && r.source == source;
        LastResultIff(results, id, r);
      }
    }
  }
}
