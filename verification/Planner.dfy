/**
 Planning checks (packages/checks/src/planner.ts, catalog.ts).  Plan order is by priority and then by
 check id, compared as the locale compares them: the comparison `less` is a parameter.
 */
module Planner {
  import opened NameOrder
  import opened Options
  import opened Verdict

  datatype Override = Override(required: Option<bool>, optional: Option<bool>, disabled: bool)

  datatype Config = Config(requiredChecks: seq<string>, optionalChecks: seq<string>, disabledChecks: seq<string>,
                           overrides: map<string, Override>)

  datatype Catalogue = Catalogue(definitions: seq<string>, priorities: map<string, nat>,
                                 dependencies: map<string, seq<string>>, requiredByDefault: set<string>)

  datatype Item = Item(checkId: string, applicability: Applicability, required: bool, priority: nat, dependencies: seq<string>)

  datatype Error = OverrideConflict(checkId: string) | ListConflict(checkId: string) | DependencyNotEarlier

  // ---------------------------------------------------------------- one definition

  predicate Configured(config: Config, id: string) {
    id in config.requiredChecks || id in config.optionalChecks || id in config.disabledChecks || id in config.overrides
  }

  predicate Disabled(config: Config, id: string) {
    id in config.disabledChecks || (id in config.overrides && config.overrides[id].disabled)
  }

  predicate Planned(capabilities: set<string>, config: Config, id: string) {
    id in capabilities || Configured(config, id)
  }

  function OverrideOf(config: Config, id: string): Override {
    if id in config.overrides then config.overrides[id] else Override(None, None, false)
  }

  function ConflictOf(config: Config, id: string): Option<Error> {
    if Disabled(config, id) then None
    else if OverrideOf(config, id).required.Some? && OverrideOf(config, id).optional.Some? then Some(OverrideConflict(id))
    else if id in config.requiredChecks && id in config.optionalChecks then Some(ListConflict(id))
    else None
  }

  function DependenciesOf(catalogue: Catalogue, id: string): seq<string> {
    if id in catalogue.dependencies then catalogue.dependencies[id] else []
  }

  function PriorityOf(catalogue: Catalogue, id: string): nat {
    if id in catalogue.priorities then catalogue.priorities[id] else 100
  }

  /** An override decides before a list, and a list before the default. */
  function RequiredOf(catalogue: Catalogue, capabilities: set<string>, config: Config, id: string): bool {
    if Disabled(config, id) then false
    else
      var override := OverrideOf(config, id);
      if override.required.Some? then override.required.value
      else if override.optional.Some? then !override.optional.value
      else if id in config.requiredChecks then true
      else if id in config.optionalChecks then false
      else id in capabilities && id in catalogue.requiredByDefault
  }

  function ItemOf(catalogue: Catalogue, capabilities: set<string>, config: Config, id: string): Item {
    Item(id,
         if Disabled(config, id) then NotApplicable else if id in capabilities then Applicable else Unsupported,
         RequiredOf(catalogue, capabilities, config, id),
         PriorityOf(catalogue, id),
         if Disabled(config, id) then [] else DependenciesOf(catalogue, id))
  }

  function ItemsOf(definitions: seq<string>, catalogue: Catalogue, capabilities: set<string>, config: Config): seq<Item> {
    if definitions == [] then []
    else
      (if Planned(capabilities, config, definitions[0]) then [ItemOf(catalogue, capabilities, config, definitions[0])] else [])
      + ItemsOf(definitions[1..], catalogue, capabilities, config)
  }

  function FirstConflict(definitions: seq<string>, capabilities: set<string>, config: Config): Option<Error> {
    if definitions == [] then None
    else if Planned(capabilities, config, definitions[0]) && ConflictOf(config, definitions[0]).Some? then ConflictOf(config, definitions[0])
    else FirstConflict(definitions[1..], capabilities, config)
  }

  // ---------------------------------------------------------------- order

  predicate Before(a: Item, b: Item, less: (string, string) -> bool) {
    a.priority < b.priority || (a.priority == b.priority && less(a.checkId, b.checkId))
  }

  function Insert(item: Item, sorted: seq<Item>, less: (string, string) -> bool): seq<Item> {
    if sorted == [] then [item]
    else if Before(sorted[0], item, less) then [sorted[0]] + Insert(item, sorted[1..], less)
    else [item] + sorted
  }

  /** A stable sort: an item is put before those it ties with that came after it. */
  function Sort(items: seq<Item>, less: (string, string) -> bool): seq<Item> {
    if items == [] then [] else Insert(items[0], Sort(items[1..], less), less)
  }

  function Position(ids: seq<string>, id: string): nat {
    if ids == [] || ids[0] == id then 0 else 1 + Position(ids[1..], id)
  }

  /** By priority, then as the comparison says, and where it does not decide as in the catalogue. */
  predicate Precedes(a: Item, b: Item, ids: seq<string>, less: (string, string) -> bool) {
    Before(a, b, less) || (!Before(b, a, less) && Position(ids, a.checkId) < Position(ids, b.checkId))
  }

  ghost predicate Ordered(items: seq<Item>, ids: seq<string>, less: (string, string) -> bool) {
    forall i, j :: 0 <= i < j < |items| ==> Precedes(items[i], items[j], ids, less)
  }

  /** The last position of a check in the plan. */
  function LastPosition(items: seq<Item>, id: string): Option<nat> {
    if items == [] then None
    else if items[|items| - 1].checkId == id then Some(|items| - 1)
    else LastPosition(items[..|items| - 1], id)
  }

  predicate Earlier(items: seq<Item>, dependency: string, i: nat) {
    LastPosition(items, dependency).Some? && LastPosition(items, dependency).value < i
  }

  predicate DependenciesEarlier(items: seq<Item>) {
    forall i :: 0 <= i < |items| ==> forall d :: d in items[i].dependencies ==> Earlier(items, d, i)
  }

  /** Planned at some earlier position and at no later one. */
  lemma {:induction false} EarlierMeans(items: seq<Item>, dependency: string, i: nat)
    ensures Earlier(items, dependency, i) <==>
      && (exists j :: 0 <= j < i && j < |items| && items[j].checkId == dependency)
      && (forall j :: i <= j < |items| ==> items[j].checkId != dependency)
  {
    if items != [] {
      var init, last := items[..|items| - 1], items[|items| - 1];
      EarlierMeans(init, dependency, i);
      assert forall j :: 0 <= j < |init| ==> init[j] == items[j];
      if last.checkId == dependency {
        assert items[|items| - 1].checkId == dependency;
      }
    }
  }

  /** `validatePlanDependencies`: every dependency is planned, at an earlier position. */
  method ValidatePlanDependencies(items: seq<Item>) returns (valid: bool)
    ensures valid <==> DependenciesEarlier(items)
  {
    var positions: map<string, nat> := map[];
    var k := 0;
    assert items[..0] == [];
    while k < |items|
      invariant 0 <= k <= |items|
      invariant forall id :: id in positions <==> LastPosition(items[..k], id).Some?
      invariant forall id :: id in positions ==> LastPosition(items[..k], id) == Some(positions[id])
    {
      assert items[..k + 1][..k] == items[..k];
      positions := positions[items[k].checkId := k];
      k := k + 1;
    }
    assert items[..k] == items;
    var i := 0;
    while i < |items|
      invariant 0 <= i <= |items|
      invariant forall j :: 0 <= j < i ==> forall d :: d in items[j].dependencies ==> Earlier(items, d, j)
    {
      var n := 0;
      var dependencies := items[i].dependencies;
      while n < |dependencies|
        invariant 0 <= n <= |dependencies|
        invariant forall m :: 0 <= m < n ==> Earlier(items, dependencies[m], i)
      {
        if dependencies[n] !in positions || positions[dependencies[n]] >= i {
          assert dependencies[n] in items[i].dependencies && !Earlier(items, dependencies[n], i);
          return false;
        }
        n := n + 1;
      }
      i := i + 1;
    }
    valid := true;
  }

  function PlanOf(catalogue: Catalogue, capabilities: set<string>, config: Config, less: (string, string) -> bool)
    : Result<seq<Item>, Error>
  {
    var conflict := FirstConflict(catalogue.definitions, capabilities, config);
    var items := Sort(ItemsOf(catalogue.definitions, catalogue, capabilities, config), less);
    if conflict.Some? then Err(conflict.value)
    else if DependenciesEarlier(items) then Ok(items)
    else Err(DependencyNotEarlier)
  }

  /** The loop of `plan`, which throws at the first conflict. */
  method Plan(catalogue: Catalogue, capabilities: set<string>, config: Config, less: (string, string) -> bool)
    returns (r: Result<seq<Item>, Error>)
    ensures r == PlanOf(catalogue, capabilities, config, less)
  {
    var definitions := catalogue.definitions;
    var items: seq<Item>, k := [], 0;
    ghost var all := ItemsOf(definitions, catalogue, capabilities, config);
    assert definitions[0..] == definitions && [] + all == all;
    while k < |definitions|
      invariant 0 <= k <= |definitions|
      invariant items + ItemsOf(definitions[k..], catalogue, capabilities, config) == all
      invariant FirstConflict(definitions[k..], capabilities, config) == FirstConflict(definitions, capabilities, config)
    {
      var id := definitions[k];
      assert definitions[k..][0] == id && definitions[k..][1..] == definitions[k + 1..];
      ghost var rest := ItemsOf(definitions[k + 1..], catalogue, capabilities, config);
      if id in capabilities || Configured(config, id) {
        var conflict := ConflictOf(config, id);
        if conflict.Some? {
          return Err(conflict.value);
        }
        assert items + ([ItemOf(catalogue, capabilities, config, id)] + rest)
          == (items + [ItemOf(catalogue, capabilities, config, id)]) + rest;
        items := items + [ItemOf(catalogue, capabilities, config, id)];
      }
      k := k + 1;
    }
    assert definitions[k..] == [] && items + [] == items;
    items := Sort(items, less);
    var valid := ValidatePlanDependencies(items);
    r := if valid then Ok(items) else Err(DependencyNotEarlier);
  }

  // ---------------------------------------------------------------- the plan is ordered and complete

  ghost predicate Distinct(ids: seq<string>) {
    forall i, j :: 0 <= i < j < |ids| ==> ids[i] != ids[j]
  }

  function Ids(items: seq<Item>): (ids: seq<string>)
    ensures |ids| == |items| && forall i :: 0 <= i < |ids| ==> ids[i] == items[i].checkId
  {
    seq(|items|, i requires 0 <= i < |items| => items[i].checkId)
  }

  lemma {:induction false} ItemsMembers(definitions: seq<string>, catalogue: Catalogue,
                                        capabilities: set<string>, config: Config)
    ensures forall item :: item in ItemsOf(definitions, catalogue, capabilities, config) <==>
      item.checkId in definitions && Planned(capabilities, config, item.checkId) && item == ItemOf(catalogue, capabilities, config, item.checkId)
    ensures Distinct(definitions) ==> Distinct(Ids(ItemsOf(definitions, catalogue, capabilities, config)))
  {
    if definitions != [] {
      var rest := definitions[1..];
      ItemsMembers(rest, catalogue, capabilities, config);
      assert definitions == [definitions[0]] + rest;
      if Distinct(definitions) {
        assert forall i :: 0 <= i < |rest| ==> rest[i] == definitions[i + 1];
        var more := ItemsOf(rest, catalogue, capabilities, config);
        forall i | 0 <= i < |more| ensures more[i].checkId != definitions[0] {
          assert more[i] in more;
        }
      }
    }
  }

  lemma BeforeIsWeak(a: Item, b: Item, c: Item, less: (string, string) -> bool)
    requires WeakOrder(less)
    ensures !(Before(a, b, less) && Before(b, a, less))
    ensures !Before(c, b, less) && !Before(b, a, less) ==> !Before(c, a, less)
  {
    assert less(a.checkId, b.checkId) && less(b.checkId, a.checkId) ==> less(a.checkId, a.checkId);
    if !less(c.checkId, b.checkId) && !less(b.checkId, a.checkId) {
      NotLessChain(a.checkId, b.checkId, c.checkId, less);
    }
  }

  /** A later definition is put in front only of what it is strictly before, so an earlier one stays in front of its ties. */
  lemma {:induction false} InsertOrders(item: Item, sorted: seq<Item>, ids: seq<string>, less: (string, string) -> bool)
    requires WeakOrder(less) && Ordered(sorted, ids, less)
    requires forall x :: x in sorted ==> Position(ids, item.checkId) < Position(ids, x.checkId)
    ensures Ordered(Insert(item, sorted, less), ids, less)
    ensures forall x :: x in Insert(item, sorted, less) <==> x == item || x in sorted
  {
    if sorted != [] {
      var first, rest := sorted[0], sorted[1..];
      assert sorted == [first] + rest && first in sorted;
      OrderedTail(sorted, ids, less);
      if Before(first, item, less) {
        InsertOrders(item, rest, ids, less);
        OrderedWithHead(first, Insert(item, rest, less), ids, less);
      } else {
        forall x | x in sorted ensures Precedes(item, x, ids, less) {
          BeforeIsWeak(x, first, item, less);
          BeforeIsWeak(item, first, x, less);
          BeforeIsWeak(first, x, item, less);
        }
        OrderedWithHead(item, sorted, ids, less);
      }
    }
  }

  lemma OrderedTail(sorted: seq<Item>, ids: seq<string>, less: (string, string) -> bool)
    requires sorted != [] && Ordered(sorted, ids, less)
    ensures Ordered(sorted[1..], ids, less) && forall x :: x in sorted[1..] ==> Precedes(sorted[0], x, ids, less)
  {
  }

  lemma OrderedWithHead(first: Item, rest: seq<Item>, ids: seq<string>, less: (string, string) -> bool)
    requires Ordered(rest, ids, less) && forall x :: x in rest ==> Precedes(first, x, ids, less)
    ensures Ordered([first] + rest, ids, less)
  {
  }

  lemma OrderedWithMoreIds(sorted: seq<Item>, ids: seq<string>, less: (string, string) -> bool)
    requires ids != [] && Ordered(sorted, ids[1..], less)
    requires forall x :: x in sorted ==> x.checkId != ids[0]
    ensures Ordered(sorted, ids, less)
  {
    forall i, j | 0 <= i < j < |sorted| ensures Precedes(sorted[i], sorted[j], ids, less) {
      assert sorted[i] in sorted && sorted[j] in sorted;
      assert Precedes(sorted[i], sorted[j], ids[1..], less);
    }
  }

  lemma {:induction false} SortOrders(definitions: seq<string>, catalogue: Catalogue, capabilities: set<string>,
                                      config: Config, less: (string, string) -> bool)
    requires WeakOrder(less) && Distinct(definitions)
    ensures var items := ItemsOf(definitions, catalogue, capabilities, config);
      Ordered(Sort(items, less), definitions, less) && forall x :: x in Sort(items, less) <==> x in items
  {
    if definitions != [] {
      var rest := definitions[1..];
      assert forall i :: 0 <= i < |rest| ==> rest[i] == definitions[i + 1];
      SortOrders(rest, catalogue, capabilities, config, less);
      ItemsMembers(rest, catalogue, capabilities, config);
      var items := ItemsOf(rest, catalogue, capabilities, config);
      var sorted := Sort(items, less);
      OrderedWithMoreIds(sorted, definitions, less);
      if Planned(capabilities, config, definitions[0]) {
        var item := ItemOf(catalogue, capabilities, config, definitions[0]);
        InsertOrders(item, sorted, definitions, less);
        assert ([item] + items)[1..] == items;
      } else {
        assert [] + items == items;
      }
    }
  }

  /**
   The checks of the catalogue that are applicable or configured, each once, by priority, then by id as
   the locale compares them, and in catalogue order where it does not tell two ids apart.
   */
  lemma PlanContents(catalogue: Catalogue, capabilities: set<string>, config: Config, less: (string, string) -> bool)
    requires WeakOrder(less) && Distinct(catalogue.definitions) && PlanOf(catalogue, capabilities, config, less).Ok?
    ensures var items := PlanOf(catalogue, capabilities, config, less).value;
      && Ordered(items, catalogue.definitions, less) && Distinct(Ids(items))
      && (forall item :: item in items <==>
            item.checkId in catalogue.definitions && Planned(capabilities, config, item.checkId)
            && item == ItemOf(catalogue, capabilities, config, item.checkId))
  {
    ItemsMembers(catalogue.definitions, catalogue, capabilities, config);
    SortOrders(catalogue.definitions, catalogue, capabilities, config, less);
    OrderedDistinct(PlanOf(catalogue, capabilities, config, less).value, catalogue.definitions, less);
  }

  lemma OrderedDistinct(sorted: seq<Item>, ids: seq<string>, less: (string, string) -> bool)
    requires WeakOrder(less) && Ordered(sorted, ids, less)
    requires forall a, b :: a in sorted && b in sorted && a.checkId == b.checkId ==> a == b
    ensures Distinct(Ids(sorted))
  {
    forall i, j | 0 <= i < j < |sorted| ensures Ids(sorted)[i] != Ids(sorted)[j] {
      assert Precedes(sorted[i], sorted[j], ids, less) && sorted[i] in sorted && sorted[j] in sorted;
      BeforeIsWeak(sorted[i], sorted[i], sorted[i], less);
    }
  }

  // ---------------------------------------------------------------- when a plan is returned

  /** Every dependency has a lower priority number than what depends on it. */
  ghost predicate Layered(catalogue: Catalogue) {
    forall id, d :: id in catalogue.definitions && d in DependenciesOf(catalogue, id) ==>
      PriorityOf(catalogue, d) < PriorityOf(catalogue, id)
  }

  lemma {:induction false} NoConflictIff(definitions: seq<string>, capabilities: set<string>, config: Config)
    ensures FirstConflict(definitions, capabilities, config).None? <==>
      forall id :: id in definitions && Planned(capabilities, config, id) ==> ConflictOf(config, id).None?
  {
    if definitions != [] {
      NoConflictIff(definitions[1..], capabilities, config);
      assert definitions == [definitions[0]] + definitions[1..];
    }
  }

  lemma {:induction false} LastPositionFinds(items: seq<Item>, id: string)
    ensures LastPosition(items, id).Some? <==> exists item :: item in items && item.checkId == id
    ensures LastPosition(items, id).Some? ==>
      LastPosition(items, id).value < |items| && items[LastPosition(items, id).value].checkId == id
  {
    if items != [] {
      var init := items[..|items| - 1];
      LastPositionFinds(init, id);
      assert items == init + [items[|items| - 1]];
    }
  }

  /** In an ordered plan a dependency that is planned at all is planned earlier. */
  lemma EarlierIff(items: seq<Item>, i: nat, d: string, ids: seq<string>, less: (string, string) -> bool)
    requires Ordered(items, ids, less) && i < |items|
    requires forall item :: item in items && item.checkId == d ==> item.priority < items[i].priority
    ensures Earlier(items, d, i) <==> exists item :: item in items && item.checkId == d
  {
    LastPositionFinds(items, d);
    if LastPosition(items, d).Some? {
      var k := LastPosition(items, d).value;
      assert items[k] in items;
    }
  }

  predicate Enabled(capabilities: set<string>, config: Config, id: string) {
    Planned(capabilities, config, id) && !Disabled(config, id)
  }

  ghost predicate DependenciesPlanned(catalogue: Catalogue, capabilities: set<string>, config: Config) {
    forall id, d ::
      id in catalogue.definitions && Enabled(capabilities, config, id) && d in DependenciesOf(catalogue, id) ==>
      d in catalogue.definitions && Planned(capabilities, config, d)
  }

  ghost predicate NoConflict(catalogue: Catalogue, capabilities: set<string>, config: Config) {
    forall id :: id in catalogue.definitions && Planned(capabilities, config, id) ==> ConflictOf(config, id).None?
  }

  /**
   A plan is returned exactly when no planned check is both required and optional, and the dependencies
   of every enabled planned check are planned too; then every dependency comes earlier.
   */
  lemma PlanReturnsIff(catalogue: Catalogue, capabilities: set<string>, config: Config, less: (string, string) -> bool)
    requires WeakOrder(less) && Distinct(catalogue.definitions) && Layered(catalogue)
    ensures PlanOf(catalogue, capabilities, config, less).Ok? <==>
      NoConflict(catalogue, capabilities, config) && DependenciesPlanned(catalogue, capabilities, config)
    ensures PlanOf(catalogue, capabilities, config, less).Ok? ==>
      DependenciesEarlier(PlanOf(catalogue, capabilities, config, less).value)
  {
    NoConflictIff(catalogue.definitions, capabilities, config);
    var unsorted := ItemsOf(catalogue.definitions, catalogue, capabilities, config);
    var items := Sort(unsorted, less);
    ItemsMembers(catalogue.definitions, catalogue, capabilities, config);
    SortOrders(catalogue.definitions, catalogue, capabilities, config, less);
    forall i, d | 0 <= i < |items| && d in items[i].dependencies
      ensures Earlier(items, d, i) <==> d in catalogue.definitions && Planned(capabilities, config, d)
    {
      assert items[i] in items;
      EarlierIff(items, i, d, catalogue.definitions, less);
      var dependency := ItemOf(catalogue, capabilities, config, d);
      assert dependency.checkId == d;
    }
    if DependenciesEarlier(items) {
      forall id, d | id in catalogue.definitions && Enabled(capabilities, config, id) && d in DependenciesOf(catalogue, id)
        ensures d in catalogue.definitions && Planned(capabilities, config, d)
      {
        var item := ItemOf(catalogue, capabilities, config, id);
        assert item in items && item.checkId == id;
        var i :| 0 <= i < |items| && items[i] == item;
        assert d in items[i].dependencies;
      }
    }
  }

  // ---------------------------------------------------------------- the shipped catalogue

  const SHIPPED := Catalogue(
    ["typescript.typecheck", "typescript.lint", "typescript.test", "typescript.build", "rust.check", "rust.test",
     "rust.clippy", "soroban.contract-test", "dependency.audit", "security.analysis", "license.analysis"],
    map["typescript.typecheck" := 10, "rust.check" := 10, "typescript.lint" := 20, "rust.clippy" := 20,
        "typescript.test" := 30, "rust.test" := 30, "typescript.build" := 40, "dependency.audit" := 50,
        "security.analysis" := 60, "license.analysis" := 70, "soroban.contract-test" := 80],
    map["typescript.build" := ["typescript.typecheck"], "soroban.contract-test" := ["rust.test"]],
    {"typescript.typecheck", "typescript.lint", "typescript.test", "typescript.build", "rust.check", "rust.test",
     "rust.clippy", "soroban.contract-test"})

  lemma ShippedDistinct()
    ensures Distinct(SHIPPED.definitions)
  {
  }

  lemma ShippedDependencies(id: string)
    ensures DependenciesOf(SHIPPED, id) ==
      if id == "typescript.build" then ["typescript.typecheck"]
      else if id == "soroban.contract-test" then ["rust.test"]
      else []
  {
  }

  lemma ShippedIsLayered()
    ensures Layered(SHIPPED)
  {
    assert PriorityOf(SHIPPED, "typescript.typecheck") == 10 && PriorityOf(SHIPPED, "rust.test") == 30;
    assert PriorityOf(SHIPPED, "typescript.build") == 40 && PriorityOf(SHIPPED, "soroban.contract-test") == 80;
    forall id, d | id in SHIPPED.definitions && d in DependenciesOf(SHIPPED, id)
      ensures PriorityOf(SHIPPED, d) < PriorityOf(SHIPPED, id)
    {
      ShippedDependencies(id);
    }
  }

  lemma ShippedPairs()
    ensures SHIPPED.definitions[0] == "typescript.typecheck" && SHIPPED.definitions[3] == "typescript.build"
    ensures SHIPPED.definitions[5] == "rust.test" && SHIPPED.definitions[7] == "soroban.contract-test"
    ensures |SHIPPED.definitions| == 11
  {
  }

  lemma ShippedPair(id: string, d: string)
    ensures id in SHIPPED.definitions && d in DependenciesOf(SHIPPED, id) <==>
      (id == "typescript.build" && d == "typescript.typecheck") || (id == "soroban.contract-test" && d == "rust.test")
  {
  }

  lemma ShippedDependenciesPlanned(capabilities: set<string>, config: Config)
    ensures DependenciesPlanned(SHIPPED, capabilities, config) <==>
      && (Enabled(capabilities, config, "typescript.build") ==> Planned(capabilities, config, "typescript.typecheck"))
      && (Enabled(capabilities, config, "soroban.contract-test") ==> Planned(capabilities, config, "rust.test"))
  {
    ShippedPairs();
    assert SHIPPED.definitions[0] in SHIPPED.definitions && SHIPPED.definitions[5] in SHIPPED.definitions;
    ShippedPair("typescript.build", "typescript.typecheck");
    ShippedPair("soroban.contract-test", "rust.test");
    forall id, d | id in SHIPPED.definitions && d in DependenciesOf(SHIPPED, id)
      ensures (id == "typescript.build" && d == "typescript.typecheck") || (id == "soroban.contract-test" && d == "rust.test")
    {
      ShippedPair(id, d);
    }
  }

  /** For the shipped catalogue the conditions are about two pairs of checks. */
  lemma ShippedPlanReturnsIff(capabilities: set<string>, config: Config, less: (string, string) -> bool)
    requires WeakOrder(less)
    ensures PlanOf(SHIPPED, capabilities, config, less).Ok? <==>
      && NoConflict(SHIPPED, capabilities, config)
      && (Enabled(capabilities, config, "typescript.build") ==> Planned(capabilities, config, "typescript.typecheck"))
      && (Enabled(capabilities, config, "soroban.contract-test") ==> Planned(capabilities, config, "rust.test"))
  {
    ShippedDistinct();
    ShippedIsLayered();
    PlanReturnsIff(SHIPPED, capabilities, config, less);
    ShippedDependenciesPlanned(capabilities, config);
  }

  // ---------------------------------------------------------------- the shipped plan order

  const PLAN_ORDER := ["rust.check", "typescript.typecheck", "rust.clippy", "typescript.lint", "rust.test", "typescript.test",
                       "typescript.build", "dependency.audit", "security.analysis", "license.analysis", "soroban.contract-test"]

  lemma PlanOrderPriorities()
    ensures |PLAN_ORDER| == 11
    ensures PriorityOf(SHIPPED, PLAN_ORDER[0]) == 10 && PriorityOf(SHIPPED, PLAN_ORDER[1]) == 10
    ensures PriorityOf(SHIPPED, PLAN_ORDER[2]) == 20 && PriorityOf(SHIPPED, PLAN_ORDER[3]) == 20
    ensures PriorityOf(SHIPPED, PLAN_ORDER[4]) == 30 && PriorityOf(SHIPPED, PLAN_ORDER[5]) == 30
    ensures PriorityOf(SHIPPED, PLAN_ORDER[6]) == 40 && PriorityOf(SHIPPED, PLAN_ORDER[7]) == 50
    ensures PriorityOf(SHIPPED, PLAN_ORDER[8]) == 60 && PriorityOf(SHIPPED, PLAN_ORDER[9]) == 70
    ensures PriorityOf(SHIPPED, PLAN_ORDER[10]) == 80
  {
  }

  /** The three pairs of equal priority: the comparison puts "rust" before "typescript". */
  predicate RustFirst(less: (string, string) -> bool) {
    && less("rust.check", "typescript.typecheck")
    && less("rust.clippy", "typescript.lint")
    && less("rust.test", "typescript.test")
  }

  /** `ids` is in plan order. */
  ghost predicate InOrder(catalogue: Catalogue, ids: seq<string>, less: (string, string) -> bool) {
    forall i, j :: 0 <= i < j < |ids| ==>
      || PriorityOf(catalogue, ids[i]) < PriorityOf(catalogue, ids[j])
      || (PriorityOf(catalogue, ids[i]) == PriorityOf(catalogue, ids[j]) && less(ids[i], ids[j]))
  }

  lemma PlanOrderInOrder(less: (string, string) -> bool)
    requires RustFirst(less)
    ensures InOrder(SHIPPED, PLAN_ORDER, less)
  {
    PlanOrderPriorities();
  }

  lemma PlanOrderMembers(id: string)
    ensures id in PLAN_ORDER <==> id in SHIPPED.definitions
  {
  }

  lemma {:induction false} ItemsInOrder(ids: seq<string>, catalogue: Catalogue, capabilities: set<string>, config: Config,
                                        order: seq<string>, less: (string, string) -> bool)
    requires InOrder(catalogue, ids, less)
    ensures Ordered(ItemsOf(ids, catalogue, capabilities, config), order, less)
  {
    if ids != [] {
      var rest := ids[1..];
      assert forall i :: 0 <= i < |rest| ==> rest[i] == ids[i + 1];
      ItemsInOrder(rest, catalogue, capabilities, config, order, less);
      ItemsMembers(rest, catalogue, capabilities, config);
      var first := ItemOf(catalogue, capabilities, config, ids[0]);
      forall x | x in ItemsOf(rest, catalogue, capabilities, config) ensures Precedes(first, x, order, less) {
        var k :| 0 <= k < |rest| && rest[k] == x.checkId;
        assert ids[k + 1] == x.checkId;
      }
      OrderedWithHead(first, ItemsOf(rest, catalogue, capabilities, config), order, less);
    }
  }

  lemma PrecedesIsStrict(a: Item, b: Item, ids: seq<string>, less: (string, string) -> bool)
    requires WeakOrder(less)
    ensures !(Precedes(a, b, ids, less) && Precedes(b, a, ids, less))
  {
    BeforeIsWeak(a, b, a, less);
  }

  /** An ordered plan is determined by its items. */
  lemma {:induction false} OrderedUnique(a: seq<Item>, b: seq<Item>, ids: seq<string>, less: (string, string) -> bool)
    requires WeakOrder(less) && Ordered(a, ids, less) && Ordered(b, ids, less) && forall x :: x in a <==> x in b
    ensures a == b
  {
    assert |b| > 0 ==> b[0] in b;
    if a != [] {
      assert a[0] in b && b != [] && b[0] in a;
      OrderedTail(a, ids, less);
      OrderedTail(b, ids, less);
      assert a == [a[0]] + a[1..] && b == [b[0]] + b[1..];
      PrecedesIsStrict(a[0], b[0], ids, less);
      assert a[0] == b[0];
      PrecedesIsStrict(a[0], a[0], ids, less);
      forall x: Item ensures x in a[1..] <==> x in b[1..] {
        assert x in a <==> x == a[0] || x in a[1..];
        assert x in b <==> x == b[0] || x in b[1..];
        assert a[0] !in a[1..] && b[0] !in b[1..];
      }
      OrderedUnique(a[1..], b[1..], ids, less);
    }
  }

  /** A shipped plan is the planned checks of one fixed order, whatever the configuration and the locale. */
  lemma ShippedPlanOrder(capabilities: set<string>, config: Config, less: (string, string) -> bool)
    requires WeakOrder(less) && RustFirst(less) && PlanOf(SHIPPED, capabilities, config, less).Ok?
    ensures PlanOf(SHIPPED, capabilities, config, less).value == ItemsOf(PLAN_ORDER, SHIPPED, capabilities, config)
  {
    ShippedDistinct();
    PlanContents(SHIPPED, capabilities, config, less);
    PlanOrderInOrder(less);
    ItemsInOrder(PLAN_ORDER, SHIPPED, capabilities, config, SHIPPED.definitions, less);
    ItemsMembers(PLAN_ORDER, SHIPPED, capabilities, config);
    forall item: Item ensures item.checkId in PLAN_ORDER <==> item.checkId in SHIPPED.definitions {
      PlanOrderMembers(item.checkId);
    }
    OrderedUnique(PlanOf(SHIPPED, capabilities, config, less).value, ItemsOf(PLAN_ORDER, SHIPPED, capabilities, config),
                  SHIPPED.definitions, less);
  }

  // ---------------------------------------------------------------- a plan item, spelled out

  ghost predicate Off(config: Config, id: string) {
    id in config.disabledChecks || (id in config.overrides && config.overrides[id].disabled)
  }

  /** What the override says of being required, when it says anything. */
  ghost predicate OverrideSays(config: Config, id: string, required: bool) {
    && id in config.overrides
    && (config.overrides[id].required == Some(required)
        || (config.overrides[id].required.None? && config.overrides[id].optional == Some(!required)))
  }

  ghost predicate OverrideSilent(config: Config, id: string) {
    id in config.overrides ==> config.overrides[id].required.None? && config.overrides[id].optional.None?
  }

  /** Listed as required, or in no list and required by default. */
  ghost predicate ListsSay(catalogue: Catalogue, capabilities: set<string>, config: Config, id: string) {
    id in config.requiredChecks || (id !in config.optionalChecks && id in capabilities && id in catalogue.requiredByDefault)
  }

  /** What a planned check looks like, in terms of the configuration, the capabilities and the catalogue. */
  lemma ItemMeans(catalogue: Catalogue, capabilities: set<string>, config: Config, id: string)
    ensures var item := ItemOf(catalogue, capabilities, config, id);
      && item.checkId == id
      && (item.applicability == NotApplicable <==> Off(config, id))
      && (item.applicability == Applicable <==> !Off(config, id) && id in capabilities)
      && (item.applicability == Unsupported <==> !Off(config, id) && id !in capabilities)
      && (item.required <==> (!Off(config, id) && (OverrideSays(config, id, true) || (OverrideSilent(config, id) && ListsSay(catalogue, capabilities, config, id)))))
      && item.priority == (if id in catalogue.priorities then catalogue.priorities[id] else 100)
      && (forall d :: d in item.dependencies <==> !Off(config, id) && id in catalogue.dependencies && d in catalogue.dependencies[id])
  {
  }

  /** Planned: something can run it, or the configuration mentions it. */
  lemma PlannedMeans(capabilities: set<string>, config: Config, id: string)
    ensures Planned(capabilities, config, id) <==>
      id in capabilities || id in config.requiredChecks || id in config.optionalChecks || id in config.disabledChecks || id in config.overrides
  {
  }

  ghost predicate BothOverridden(config: Config, id: string) {
    !Off(config, id) && id in config.overrides && config.overrides[id].required.Some? && config.overrides[id].optional.Some?
  }

  ghost predicate BothListed(config: Config, id: string) {
    !Off(config, id) && id in config.requiredChecks && id in config.optionalChecks
  }

  /** The planned definition at `k` is the first that is both required and optional, and `e` says how. */
  ghost predicate ConflictsFirst(definitions: seq<string>, capabilities: set<string>, config: Config, e: Error, k: nat) {
    && k < |definitions| && Planned(capabilities, config, definitions[k])
    && (if BothOverridden(config, definitions[k]) then e == OverrideConflict(definitions[k])
        else BothListed(config, definitions[k]) && e == ListConflict(definitions[k]))
    && forall j :: 0 <= j < k && Planned(capabilities, config, definitions[j]) ==>
         !BothOverridden(config, definitions[j]) && !BothListed(config, definitions[j])
  }

  lemma ConflictsLater(definitions: seq<string>, capabilities: set<string>, config: Config, e: Error, k: nat)
    requires definitions != [] && ConflictsFirst(definitions[1..], capabilities, config, e, k)
    requires Planned(capabilities, config, definitions[0]) ==>
      !BothOverridden(config, definitions[0]) && !BothListed(config, definitions[0])
    ensures ConflictsFirst(definitions, capabilities, config, e, k + 1)
  {
    assert forall j :: 0 < j < |definitions| ==> definitions[j] == definitions[1..][j - 1];
  }

  /** A plan is refused for a conflict exactly when there is one, with the error of the first. */
  lemma {:induction false} ConflictMeans(definitions: seq<string>, capabilities: set<string>, config: Config)
    ensures FirstConflict(definitions, capabilities, config).None? <==>
      forall id :: id in definitions && Planned(capabilities, config, id) ==> !BothOverridden(config, id) && !BothListed(config, id)
    ensures FirstConflict(definitions, capabilities, config).Some? ==>
      exists k: nat :: ConflictsFirst(definitions, capabilities, config, FirstConflict(definitions, capabilities, config).value, k)
  {
    if definitions != [] {
      var first, rest := definitions[0], definitions[1..];
      ConflictMeans(rest, capabilities, config);
      assert definitions == [first] + rest;
      if Planned(capabilities, config, first) && ConflictOf(config, first).Some? {
        assert ConflictsFirst(definitions, capabilities, config, ConflictOf(config, first).value, 0);
      } else if FirstConflict(rest, capabilities, config).Some? {
        var e := FirstConflict(rest, capabilities, config).value;
        var k: nat :| ConflictsFirst(rest, capabilities, config, e, k);
        ConflictsLater(definitions, capabilities, config, e, k);
      }
    }
  }
}
