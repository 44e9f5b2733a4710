/**
 From a plan to executed checks (packages/checks/src/selection.ts, packages/engine/src/pipeline.ts):
 choosing checks, the guards before execution, and execution in plan order.
 */
module Pipeline {
  import opened Options
  import opened Text
  import opened Verdict
  import opened Planner

  // ---------------------------------------------------------------- selection

  datatype Request = Request(selectedCheckIds: Option<seq<string>>, selectedCheckId: Option<string>, allApplicable: bool)

  function SelectApplicableExecutable(plan: seq<Item>, executable: set<string>): seq<string> {
    if plan == [] then []
    else
      (if plan[0].applicability.Applicable? && plan[0].checkId in executable then [plan[0].checkId] else [])
      + SelectApplicableExecutable(plan[1..], executable)
  }

  function ResolveCheckSelection(plan: seq<Item>, request: Request, executable: set<string>): Option<seq<string>> {
    if request.selectedCheckIds.Some? then request.selectedCheckIds
    else if request.selectedCheckId.Some? then Some([request.selectedCheckId.value])
    else if request.allApplicable then Some(SelectApplicableExecutable(plan, executable))
    else None
  }

  const DEFAULT_CHECK := "typescript.typecheck"

  function SelectionOf(plan: seq<Item>, request: Request, executable: set<string>): seq<string> {
    var resolved := ResolveCheckSelection(plan, request, executable);
    if resolved.Some? then resolved.value
    else [if request.selectedCheckId.Some? then request.selectedCheckId.value else DEFAULT_CHECK]
  }

  // ---------------------------------------------------------------- guards

  datatype Refusal = NothingSelected | DuplicateSelected | NotPlanned | NoDefinition

  function SelectedItems(plan: seq<Item>, selected: set<string>): seq<Item> {
    if plan == [] then []
    else (if plan[0].checkId in selected then [plan[0]] else []) + SelectedItems(plan[1..], selected)
  }

  /** The guards in order; on success the items to execute, in plan order. */
  function Guarded(plan: seq<Item>, selection: seq<string>, defined: set<string>): Result<seq<Item>, Refusal> {
    var selected := IdsOf(selection);
    var items := SelectedItems(plan, selected);
    if selection == [] then Err(NothingSelected)
    else if |selected| != |selection| then Err(DuplicateSelected)
    else if |items| != |selection| || (exists item :: item in items && !item.applicability.Applicable?) then Err(NotPlanned)
    else if exists item :: item in items && item.checkId !in defined then Err(NoDefinition)
    else Ok(items)
  }

  lemma {:induction false} SelectedMembers(plan: seq<Item>, selected: set<string>)
    ensures forall item :: item in SelectedItems(plan, selected) <==> item in plan && item.checkId in selected
    ensures Distinct(Ids(plan)) ==> Distinct(Ids(SelectedItems(plan, selected)))
  {
    if plan != [] {
      var rest := plan[1..];
      SelectedMembers(rest, selected);
      assert plan == [plan[0]] + rest;
      if Distinct(Ids(plan)) {
        OthersDiffer(plan);
        var more := SelectedItems(rest, selected);
        assert forall k :: 0 <= k < |more| ==> more[k] in more;
        DistinctWithHead(plan[0], more);
        assert [] + more == more;
      }
    }
  }

  lemma DistinctWithHead(first: Item, rest: seq<Item>)
    requires Distinct(Ids(rest)) && forall k :: 0 <= k < |rest| ==> rest[k].checkId != first.checkId
    ensures Distinct(Ids([first] + rest))
  {
  }

  lemma OthersDiffer(plan: seq<Item>)
    requires plan != [] && Distinct(Ids(plan))
    ensures Distinct(Ids(plan[1..])) && forall item :: item in plan[1..] ==> item.checkId != plan[0].checkId
  {
  }

  function IdsOf(ids: seq<string>): set<string> {
    set id | id in ids
  }

  lemma HeadDistinct(ids: seq<string>)
    requires ids != []
    ensures Distinct(ids) <==> Distinct(ids[1..]) && ids[0] !in ids[1..]
    ensures IdsOf(ids) == {ids[0]} + IdsOf(ids[1..])
  {
  }

  lemma {:induction false} SetSize(ids: seq<string>)
    ensures |IdsOf(ids)| <= |ids|
    ensures |IdsOf(ids)| == |ids| <==> Distinct(ids)
  {
    if ids != [] {
      SetSize(ids[1..]);
      HeadDistinct(ids);
      if ids[0] in ids[1..] {
        assert {ids[0]} + IdsOf(ids[1..]) == IdsOf(ids[1..]);
      }
    }
  }

  ghost predicate PlannedApplicable(plan: seq<Item>, id: string) {
    exists item :: item in plan && item.checkId == id && item.applicability.Applicable?
  }

  predicate Mentions(items: seq<Item>, id: string) {
    exists item :: item in items && item.checkId == id
  }

  function IdSet(items: seq<Item>): set<string> {
    set item | item in items :: item.checkId
  }

  lemma {:induction false} IdSetSize(items: seq<Item>)
    requires Distinct(Ids(items))
    ensures |IdSet(items)| == |items|
  {
    if items != [] {
      var rest := items[1..];
      OthersDiffer(items);
      IdSetSize(rest);
      assert items == [items[0]] + rest;
      assert IdSet(items) == {items[0].checkId} + IdSet(rest);
    }
  }

  lemma SubsetOfSameSize(small: set<string>, large: set<string>)
    requires small <= large
    ensures |small| == |large| <==> small == large
  {
    assert large == small + (large - small);
    if |small| == |large| {
      assert |large - small| == 0;
    }
  }

  /** As many items as selected ids means that every id is planned. */
  lemma CountMeansAll(plan: seq<Item>, selection: seq<string>)
    requires Distinct(Ids(plan)) && Distinct(selection)
    ensures var items := SelectedItems(plan, IdsOf(selection));
      |items| == |selection| <==> forall id :: id in selection ==> Mentions(items, id)
  {
    var selected := IdsOf(selection);
    var items := SelectedItems(plan, selected);
    SelectedMembers(plan, selected);
    SetSize(selection);
    IdSetSize(items);
    SubsetOfSameSize(IdSet(items), selected);
    forall id ensures id in IdSet(items) <==> Mentions(items, id) {
    }
    assert IdSet(items) == selected <==> forall id :: id in selection ==> Mentions(items, id);
  }

  /**
   The guards let a selection through exactly when it is not empty, names no check twice, and names only
   checks that are planned, applicable and defined; execution is then of exactly those, in plan order.
   */
  lemma GuardsPassIff(plan: seq<Item>, selection: seq<string>, defined: set<string>)
    requires Distinct(Ids(plan))
    ensures Guarded(plan, selection, defined).Ok? <==>
      selection != [] && Distinct(selection) && forall id :: id in selection ==> PlannedApplicable(plan, id) && id in defined
    ensures Guarded(plan, selection, defined).Ok? ==>
      Guarded(plan, selection, defined).value == SelectedItems(plan, IdsOf(selection))
  {
    var selected := IdsOf(selection);
    var items := SelectedItems(plan, selected);
    SelectedMembers(plan, selected);
    SetSize(selection);
    if selection != [] && Distinct(selection) {
      CountMeansAll(plan, selection);
      if Guarded(plan, selection, defined).Ok? {
        forall id | id in selection ensures PlannedApplicable(plan, id) && id in defined {
          assert Mentions(items, id);
        }
      }
      if forall id :: id in selection ==> PlannedApplicable(plan, id) && id in defined {
        AllPlanned(plan, selection, defined);
      }
    }
  }

  lemma AllPlanned(plan: seq<Item>, selection: seq<string>, defined: set<string>)
    requires Distinct(Ids(plan)) && forall id :: id in selection ==> PlannedApplicable(plan, id) && id in defined
    ensures var items := SelectedItems(plan, IdsOf(selection));
      && (forall id :: id in selection ==> Mentions(items, id))
      && (forall item :: item in items ==> item.applicability.Applicable? && item.checkId in defined)
  {
    var selected := IdsOf(selection);
    var items := SelectedItems(plan, selected);
    SelectedMembers(plan, selected);
    forall id | id in selection ensures Mentions(items, id) {
      var item :| item in plan && item.checkId == id && item.applicability.Applicable?;
      assert item in items;
    }
    forall item | item in items ensures item.applicability.Applicable? && item.checkId in defined {
      var other :| other in plan && other.checkId == item.checkId && other.applicability.Applicable?;
      SameItem(plan, item, other);
    }
  }

  lemma SameItem(plan: seq<Item>, a: Item, b: Item)
    requires Distinct(Ids(plan)) && a in plan && b in plan && a.checkId == b.checkId
    ensures a == b
  {
  }

  // ---------------------------------------------------------------- all applicable

  lemma {:induction false} ApplicableSelected(plan: seq<Item>, executable: set<string>)
    requires Distinct(Ids(plan))
    ensures var selection := SelectApplicableExecutable(plan, executable);
      && Distinct(selection)
      && (forall id :: id in selection <==> PlannedApplicable(plan, id) && id in executable)
  {
    if plan != [] {
      var rest := plan[1..];
      OthersDiffer(plan);
      ApplicableSelected(rest, executable);
      assert plan == [plan[0]] + rest;
      assert forall id :: PlannedApplicable(plan, id) <==> (plan[0].checkId == id && plan[0].applicability.Applicable?) || PlannedApplicable(rest, id);
    }
  }

  lemma {:induction false} SelectionInPlanOrder(plan: seq<Item>, executable: set<string>, selected: set<string>)
    requires forall item :: item in plan ==>
      (item.checkId in selected <==> item.applicability.Applicable? && item.checkId in executable)
    ensures Ids(SelectedItems(plan, selected)) == SelectApplicableExecutable(plan, executable)
  {
    if plan != [] {
      SelectionInPlanOrder(plan[1..], executable, selected);
      var more := SelectedItems(plan[1..], selected);
      assert plan[0] in plan;
      assert Ids([plan[0]] + more) == [plan[0].checkId] + Ids(more);
      assert Ids([] + more) == Ids(more);
    }
  }

  /** Asking for everything applicable passes every guard unless it selects nothing, and executes in the selected order. */
  lemma AllApplicablePasses(plan: seq<Item>, executable: set<string>, defined: set<string>)
    requires Distinct(Ids(plan)) && executable <= defined
    ensures var selection := SelectionOf(plan, Request(None, None, true), executable);
      && (forall id :: id in selection <==> PlannedApplicable(plan, id) && id in executable)
      && (selection == [] ==> Guarded(plan, selection, defined) == Err(NothingSelected))
      && (selection != [] ==> Guarded(plan, selection, defined).Ok? && Ids(Guarded(plan, selection, defined).value) == selection)
  {
    var selection := SelectApplicableExecutable(plan, executable);
    ApplicableSelected(plan, executable);
    GuardsPassIff(plan, selection, defined);
    forall item | item in plan
      ensures item.checkId in IdsOf(selection) <==> item.applicability.Applicable? && item.checkId in executable
    {
      if item.checkId in selection {
        var other :| other in plan && other.checkId == item.checkId && other.applicability.Applicable?;
        SameItem(plan, item, other);
      }
    }
    SelectionInPlanOrder(plan, executable, IdsOf(selection));
  }

  // ---------------------------------------------------------------- execution

  /** The first result keeps the base id; later ones get their index. */
  function ResultId(base: string, index: nat): string {
    if index == 0 then base else base + "-" + Show(index)
  }

  lemma ResultIdsDiffer(base: string, i: nat, j: nat)
    requires i < j
    ensures ResultId(base, i) != ResultId(base, j)
  {
    ValueShow(j);
    if i == 0 {
      assert |ResultId(base, j)| > |base|;
    } else {
      ValueShow(i);
      assert ResultId(base, i)[|base| + 1..] == Show(i) && ResultId(base, j)[|base| + 1..] == Show(j);
    }
  }

  /** What the executor answers for one item: a status and its provenance, or `None` when it throws. */
  type Executor = Item -> Option<(CheckStatus, Source)>

  predicate Answers(items: seq<Item>, execute: Executor) {
    forall item :: item in items ==> execute(item).Some?
  }

  /** Executes in order and stops at the first failure. */
  method ExecuteInOrder(items: seq<Item>, base: string, execute: Executor) returns (r: Result<seq<CheckResult>, string>)
    ensures r.Ok? <==> Answers(items, execute)
    ensures r.Ok? ==> |r.value| == |items|
    ensures r.Ok? ==> forall i :: 0 <= i < |items| ==>
      r.value[i] == CheckResult(ResultId(base, i), items[i].checkId, execute(items[i]).value.0, execute(items[i]).value.1)
    ensures r.Err? ==>
      exists i :: 0 <= i < |items| && items[i].checkId == r.error && execute(items[i]).None? && Answers(items[..i], execute)
  {
    var outcomes: seq<CheckResult>, index := [], 0;
    while index < |items|
      invariant 0 <= index <= |items| && |outcomes| == index
      invariant forall i :: 0 <= i < index ==> execute(items[i]).Some?
      invariant forall i :: 0 <= i < index ==>
        outcomes[i] == CheckResult(ResultId(base, i), items[i].checkId, execute(items[i]).value.0, execute(items[i]).value.1)
    {
      var outcome := execute(items[index]);
      if outcome.None? {
        assert Answers(items[..index], execute);
        return Err(items[index].checkId);
      }
      outcomes := outcomes + [CheckResult(ResultId(base, index), items[index].checkId, outcome.value.0, outcome.value.1)];
      index := index + 1;
    }
    r := Ok(outcomes);
  }

  /** The results of guarded items have distinct check ids and distinct result ids, as the verdict requires. */
  lemma ResultsAreDistinct(plan: seq<Item>, selection: seq<string>, defined: set<string>, base: string,
                           results: seq<CheckResult>)
    requires Distinct(Ids(plan)) && Guarded(plan, selection, defined).Ok?
    requires var items := Guarded(plan, selection, defined).value;
      |results| == |items| && forall i :: 0 <= i < |items| ==> results[i].id == ResultId(base, i) && results[i].checkId == items[i].checkId
    ensures DistinctResults(results)
    ensures forall i, j :: 0 <= i < j < |results| ==> results[i].id != results[j].id
  {
    var items := Guarded(plan, selection, defined).value;
    SelectedMembers(plan, IdsOf(selection));
    forall i, j | 0 <= i < j < |results| ensures results[i].checkId != results[j].checkId && results[i].id != results[j].id {
      assert Ids(items)[i] != Ids(items)[j];
      ResultIdsDiffer(base, i, j);
    }
  }

  // ---------------------------------------------------------------- what a request selects

  /** Explicit ids win, then an explicit id, then everything applicable; otherwise the type check alone. */
  lemma SelectionMeans(plan: seq<Item>, request: Request, executable: set<string>)
    requires Distinct(Ids(plan))
    ensures var selection := SelectionOf(plan, request, executable);
      && (request.selectedCheckIds.Some? ==> selection == request.selectedCheckIds.value)
      && (request.selectedCheckIds.None? && request.selectedCheckId.Some? ==> selection == [request.selectedCheckId.value])
      && (request.selectedCheckIds.None? && request.selectedCheckId.None? ==>
            if request.allApplicable
            then forall id :: id in selection <==> PlannedApplicable(plan, id) && id in executable
            else selection == ["typescript.typecheck"])
  {
    ApplicableMembers(plan, executable);
  }

  lemma {:induction false} ApplicableMembers(plan: seq<Item>, executable: set<string>)
    ensures forall id :: id in SelectApplicableExecutable(plan, executable) <==> PlannedApplicable(plan, id) && id in executable
  {
    if plan != [] {
      ApplicableMembers(plan[1..], executable);
      assert plan == [plan[0]] + plan[1..];
      forall id ensures PlannedApplicable(plan, id) <==>
        (plan[0].checkId == id && plan[0].applicability.Applicable?) || PlannedApplicable(plan[1..], id)
      {
        if plan[0].checkId == id && plan[0].applicability.Applicable? {
          assert plan[0] in plan;
        }
      }
    }
  }

  /**
   So an explicit request executes exactly what it names, in plan order, or nothing: when it names nothing, a
   check twice, or one that is not planned, not applicable or not defined.
   */
  lemma ExplicitRequestExecutes(plan: seq<Item>, ids: seq<string>, other: Option<string>, all: bool, executable: set<string>, defined: set<string>)
    requires Distinct(Ids(plan))
    ensures var guarded := Guarded(plan, SelectionOf(plan, Request(Some(ids), other, all), executable), defined);
      && (guarded.Ok? <==> ids != [] && Distinct(ids) && forall id :: id in ids ==> PlannedApplicable(plan, id) && id in defined)
      && (guarded.Ok? ==> forall item :: item in guarded.value <==> item in plan && item.checkId in ids)
  {
    GuardsPassIff(plan, ids, defined);
    SelectedMembers(plan, IdsOf(ids));
  }
}
