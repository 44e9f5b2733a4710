/**
 The CI verdict over a commit's Check Runs (apps/api/src/github-pr-comment.ts, `evaluateMvpCheckRuns`).
 An id that is not a number is `None`; numbers are integers.  `link` is the rendered link, if any.
 */
module CheckRunEvaluation {
  import opened Options
  import opened Text

  datatype Category = Build | Lint | Tests | Typecheck

  datatype Run = Run(id: Option<int>, name: string, headSha: Option<string>, status: Option<string>,
                     conclusion: Option<string>, link: string)

  // ---------------------------------------------------------------- which runs count

  predicate Contains(s: string, part: string) {
    part <= s || (s != "" && Contains(s[1..], part))
  }

  function CheckCategory(name: string): Option<Category> {
    var lower := Lower(name);
    if Contains(lower, "type") && Contains(lower, "check") then Some(Typecheck)
    else if Contains(lower, "lint") then Some(Lint)
    else if Contains(lower, "test") then Some(Tests)
    else if Contains(lower, "build") then Some(Build)
    else None
  }

  predicate OfCommit(run: Run, commit: string) {
    run.headSha.Some? ==> Lower(run.headSha.value) == Lower(commit)
  }

  /** The category a run counts for, if it is of this commit. */
  function CountsFor(run: Run, commit: string): Option<Category> {
    if OfCommit(run, commit) then CheckCategory(run.name) else None
  }

  // ---------------------------------------------------------------- selection

  type Selection = map<Category, Run>

  predicate Replaces(run: Run, prior: Run) {
    var id, priorId := if run.id.Some? then run.id.value else 0, if prior.id.Some? then prior.id.value else -1;
    id >= priorId
  }

  function Consider(selected: Selection, run: Run, commit: string): Selection {
    var category := CountsFor(run, commit);
    if category.None? then selected
    else if category.value in selected && !Replaces(run, selected[category.value]) then selected
    else selected[category.value := run]
  }

  function Selected(runs: seq<Run>, commit: string): Selection {
    if runs == [] then map[] else Consider(Selected(runs[..|runs| - 1], commit), runs[|runs| - 1], commit)
  }

  // ---------------------------------------------------------------- evaluation of a selection

  const IN_ORDER := [Build, Lint, Tests, Typecheck]

  function Label(category: Category): string {
    match category
    case Build => "Build"
    case Lint => "Lint"
    case Tests => "Tests"
    case Typecheck => "Typecheck"
  }

  function Dedup(categories: seq<Category>): seq<Category> {
    if categories == [] then []
    else
      var init, last := Dedup(categories[..|categories| - 1]), categories[|categories| - 1];
      if last in init then init else init + [last]
  }

  /** The selected categories in the order of their names. */
  function InNameOrder(selected: Selection, categories: seq<Category>): seq<Category> {
    if categories == [] then []
    else (if categories[0] in selected then [categories[0]] else []) + InNameOrder(selected, categories[1..])
  }

  function Missing(selected: Selection, required: seq<Category>): seq<Category> {
    if required == [] then []
    else (if required[0] in selected then [] else [required[0]]) + Missing(selected, required[1..])
  }

  predicate Completed(run: Run) {
    run.status == Some("completed")
  }

  predicate Successful(run: Run) {
    run.conclusion == Some("success")
  }

  function UpperChar(c: char): char {
    if 'a' <= c <= 'z' then c - 'a' + 'A' else c
  }

  function Upper(s: string): string {
    seq(|s|, i requires 0 <= i < |s| => UpperChar(s[i]))
  }

  function LineFor(category: Category, run: Run): string {
    if !Completed(run) then "⏳ " + Label(category) + " (PENDING)" + run.link
    else if Successful(run) then "✅ " + Label(category) + run.link
    else
      "❌ " + Label(category) + " ("
      + Upper(if run.conclusion.Some? then run.conclusion.value else "ERROR") + ")" + run.link
  }

  function LinesFor(selected: Selection, categories: seq<Category>): seq<string>
    requires forall c :: c in categories ==> c in selected
  {
    if categories == [] then [] else [LineFor(categories[0], selected[categories[0]])] + LinesFor(selected, categories[1..])
  }

  function MissingLines(categories: seq<Category>): seq<string> {
    if categories == [] then [] else ["⏳ " + Label(categories[0]) + " (MISSING)"] + MissingLines(categories[1..])
  }

  datatype Evidence = Evidence(id: int, category: Category, run: Run)

  predicate SafeId(id: Option<int>) {
    id.Some? && 0 < id.value < 0x20_0000_0000_0000
  }

  function EvidenceFor(selected: Selection, categories: seq<Category>): seq<Evidence>
    requires forall c :: c in categories ==> c in selected
  {
    if categories == [] then []
    else
      var run := selected[categories[0]];
      (if SafeId(run.id) then [Evidence(run.id.value, categories[0], run)] else []) + EvidenceFor(selected, categories[1..])
  }

  lemma {:induction false} NameOrderSelected(selected: Selection, categories: seq<Category>)
    ensures forall c :: c in InNameOrder(selected, categories) <==> c in categories && c in selected
  {
    if categories != [] {
      NameOrderSelected(selected, categories[1..]);
      assert categories == [categories[0]] + categories[1..];
    }
  }

  lemma AllInNameOrder()
    ensures forall c: Category :: c in IN_ORDER
  {
    forall c: Category ensures c in IN_ORDER {
      match c
      case Build => assert IN_ORDER[0] == c;
      case Lint => assert IN_ORDER[1] == c;
      case Tests => assert IN_ORDER[2] == c;
      case Typecheck => assert IN_ORDER[3] == c;
    }
  }

  function Ordered(selected: Selection): (categories: seq<Category>)
    ensures forall c :: c in categories <==> c in selected
  {
    NameOrderSelected(selected, IN_ORDER);
    AllInNameOrder();
    InNameOrder(selected, IN_ORDER)
  }

  datatype State = PASS | FAIL | PENDING

  datatype Evaluation = Evaluation(state: State, lines: seq<string>, evidence: seq<Evidence>)

  const NO_CHECKS := "⏳ CI/check results pending (no relevant checks found)"

  function EvaluationOf(selected: Selection, required: seq<Category>): Evaluation {
    var missing := Missing(selected, Dedup(required));
    var categories := Ordered(selected);
    var lines := LinesFor(selected, categories) + MissingLines(missing);
    var evidence := EvidenceFor(selected, categories);
    if lines == [] then Evaluation(PENDING, [NO_CHECKS], evidence)
    else if missing != [] || (exists c :: c in selected && !Completed(selected[c])) then Evaluation(PENDING, lines, evidence)
    else if exists c :: c in selected && !Successful(selected[c]) then Evaluation(FAIL, lines, evidence)
    else Evaluation(PASS, lines, evidence)
  }

  /** The loop that keeps one run per category, and the evaluation of what it kept. */
  method EvaluateMvpCheckRuns(commit: string, runs: seq<Run>, required: seq<Category>) returns (evaluation: Evaluation)
    ensures evaluation == EvaluationOf(Selected(runs, commit), required)
  {
    var selected: Selection, k := map[], 0;
    assert runs[..0] == [];
    while k < |runs|
      invariant 0 <= k <= |runs|
      invariant selected == Selected(runs[..k], commit)
    {
      var run := runs[k];
      assert runs[..k + 1][..k] == runs[..k];
      if OfCommit(run, commit) {
        var category := CheckCategory(run.name);
        if category.Some? {
          if category.value !in selected || Replaces(run, selected[category.value]) {
            selected := selected[category.value := run];
          }
        }
      }
      k := k + 1;
    }
    assert runs[..k] == runs;
    evaluation := EvaluationOf(selected, required);
  }

  // ---------------------------------------------------------------- the highest id wins

  /** Counting runs have numeric ids. */
  ghost predicate Numbered(runs: seq<Run>, commit: string) {
    forall r :: r in runs && CountsFor(r, commit).Some? ==> r.id.Some?
  }

  predicate CountsAs(run: Run, commit: string, category: Category) {
    CountsFor(run, commit) == Some(category)
  }

  ghost predicate HighestOf(runs: seq<Run>, commit: string, category: Category, run: Run) {
    && run in runs && CountsAs(run, commit, category) && run.id.Some?
    && forall r :: r in runs && CountsAs(r, commit, category) ==> r.id.Some? && r.id.value <= run.id.value
  }

  /** For each category, the run kept is the one with the highest id; none is kept only if there is none. */
  lemma {:induction false} SelectedIsHighest(runs: seq<Run>, commit: string, category: Category)
    requires Numbered(runs, commit)
    ensures category in Selected(runs, commit) <==> exists r :: r in runs && CountsAs(r, commit, category)
    ensures category in Selected(runs, commit) ==> HighestOf(runs, commit, category, Selected(runs, commit)[category])
  {
    if runs != [] {
      var init, last := runs[..|runs| - 1], runs[|runs| - 1];
      assert runs == init + [last];
      SelectedIsHighest(init, commit, category);
      var was := Selected(init, commit);
      assert forall r :: r in runs <==> r in init || r == last;
      if !CountsAs(last, commit, category) {
        assert category in Selected(runs, commit) <==> category in was;
      }
    }
  }

  /** In no category do two different runs share the highest id. */
  ghost predicate HighestIsUnique(runs: seq<Run>, commit: string) {
    forall c: Category, r: Run, t: Run :: HighestOf(runs, commit, c, r) && HighestOf(runs, commit, c, t) ==> r == t
  }

  lemma SameRuns(a: seq<Run>, b: seq<Run>)
    requires multiset(a) == multiset(b)
    ensures forall r :: r in a <==> r in b
  {
    forall r ensures r in a <==> r in b {
      assert r in a <==> r in multiset(a);
      assert r in b <==> r in multiset(b);
    }
  }

  lemma OrderDoesNotMatterFor(a: seq<Run>, b: seq<Run>, commit: string)
    requires multiset(a) == multiset(b) && Numbered(a, commit) && HighestIsUnique(a, commit)
    ensures Selected(a, commit) == Selected(b, commit)
  {
    SameRuns(a, b);
    var s, t := Selected(a, commit), Selected(b, commit);
    forall c ensures (c in s <==> c in t) && (c in s ==> s[c] == t[c]) {
      SelectedIsHighest(a, commit, c);
      SelectedIsHighest(b, commit, c);
      if c in s {
        assert HighestOf(a, commit, c, s[c]) && HighestOf(a, commit, c, t[c]);
      }
    }
    assert s == t;
  }

  /** A run with the highest id of its category is kept when it is listed last. */
  lemma ListedLastIsKept(runs: seq<Run>, commit: string, category: Category, run: Run) returns (b: seq<Run>)
    requires Numbered(runs, commit) && HighestOf(runs, commit, category, run)
    ensures multiset(b) == multiset(runs)
    ensures category in Selected(b, commit) && Selected(b, commit)[category] == run
  {
    var i :| 0 <= i < |runs| && runs[i] == run;
    var others := runs[..i] + runs[i + 1..];
    b := others + [run];
    assert runs == runs[..i] + [run] + runs[i + 1..];
    assert b[..|b| - 1] == others && b[|b| - 1] == run;
    assert forall r :: r in others ==> r in runs;
    SelectedIsHighest(others, commit, category);
    assert category in Selected(others, commit) ==> Replaces(run, Selected(others, commit)[category]);
  }

  /**
   Whatever order the runs are listed in the same ones are kept, and so the whole evaluation is the same,
   if and only if in each category the run with the highest id is unique.
   */
  lemma OrderDoesNotMatterIff(runs: seq<Run>, commit: string)
    requires Numbered(runs, commit)
    ensures (forall b: seq<Run> :: multiset(b) == multiset(runs) ==> Selected(b, commit) == Selected(runs, commit)) <==>
      HighestIsUnique(runs, commit)
  {
    if HighestIsUnique(runs, commit) {
      forall b: seq<Run> | multiset(b) == multiset(runs) ensures Selected(b, commit) == Selected(runs, commit) {
        OrderDoesNotMatterFor(runs, b, commit);
      }
    } else {
      var c: Category, r: Run, t: Run :| HighestOf(runs, commit, c, r) && HighestOf(runs, commit, c, t) && r != t;
      var first := ListedLastIsKept(runs, commit, c, r);
      var second := ListedLastIsKept(runs, commit, c, t);
      assert Selected(first, commit) != Selected(second, commit);
    }
  }

  /** Two different runs of one category with the same id: the later one listed is kept, so the order matters. */
  lemma EqualIdsDependOnOrder(a: Run, b: Run, commit: string, category: Category)
    requires CountsAs(a, commit, category) && CountsAs(b, commit, category) && a.id == b.id && a.id.Some?
    ensures Selected([a, b], commit) == map[category := b]
    ensures Selected([b, a], commit) == map[category := a]
  {
    SelectedPair(a, b, commit, category);
    SelectedPair(b, a, commit, category);
  }

  lemma SelectedPair(a: Run, b: Run, commit: string, category: Category)
    requires CountsAs(a, commit, category) && CountsAs(b, commit, category) && Replaces(b, a)
    ensures Selected([a, b], commit) == map[category := b]
  {
    assert [a, b][..1] == [a] && [a][..0] == [];
    assert Selected([a], commit) == map[category := a];
    assert Selected([a, b], commit) == map[category := a][category := b];
  }

  // ---------------------------------------------------------------- what the states mean

  lemma {:induction false} MissingIff(selected: Selection, required: seq<Category>)
    ensures Missing(selected, required) == [] <==> forall c :: c in required ==> c in selected
  {
    if required != [] {
      MissingIff(selected, required[1..]);
      assert required == [required[0]] + required[1..];
    }
  }

  lemma {:induction false} DedupMembers(categories: seq<Category>)
    ensures forall c :: c in Dedup(categories) <==> c in categories
  {
    if categories != [] {
      DedupMembers(categories[..|categories| - 1]);
      assert categories == categories[..|categories| - 1] + [categories[|categories| - 1]];
    }
  }

  /** Pass, fail and pending, exactly, for any selection. */
  lemma StateMeans(selected: Selection, required: seq<Category>)
    ensures var state := EvaluationOf(selected, required).state;
      var ready := selected != map[] && (forall c :: c in required ==> c in selected) && (forall c :: c in selected ==> Completed(selected[c]));
      && (state == PASS <==> ready && forall c :: c in selected ==> Successful(selected[c]))
      && (state == FAIL <==> ready && exists c :: c in selected && !Successful(selected[c]))
  {
    DedupMembers(required);
    var missing := Missing(selected, Dedup(required));
    MissingIff(selected, Dedup(required));
    var categories := Ordered(selected);
    if selected != map[] {
      var c :| c in selected;
      assert c in categories;
    }
    if categories != [] {
      assert categories[0] in categories;
      assert LinesFor(selected, categories) != [];
    }
    if missing != [] {
      assert MissingLines(missing) != [];
    }
  }

  /** The selection holds exactly the highest run of every category that has one. */
  lemma {:induction false} SelectedAreHighest(commit: string, runs: seq<Run>)
    requires Numbered(runs, commit) && HighestIsUnique(runs, commit)
    ensures forall c :: c in Selected(runs, commit) <==> exists r :: r in runs && CountsAs(r, commit, c)
    ensures forall c, r :: HighestOf(runs, commit, c, r) <==> c in Selected(runs, commit) && Selected(runs, commit)[c] == r
  {
    var selected := Selected(runs, commit);
    forall c
      ensures c in selected <==> exists r :: r in runs && CountsAs(r, commit, c)
      ensures c in selected ==> HighestOf(runs, commit, c, selected[c])
    {
      SelectedIsHighest(runs, commit, c);
    }
  }

  lemma {:induction false} SomeRunSelected(commit: string, runs: seq<Run>)
    requires Numbered(runs, commit) && HighestIsUnique(runs, commit)
    ensures Selected(runs, commit) != map[] <==> exists r :: r in runs && CountsFor(r, commit).Some?
  {
    var selected := Selected(runs, commit);
    SelectedAreHighest(commit, runs);
    if r :| r in runs && CountsFor(r, commit).Some? {
      assert CountsAs(r, commit, CountsFor(r, commit).value);
      assert CountsFor(r, commit).value in selected;
    }
    if selected != map[] {
      var c :| c in selected;
      assert HighestOf(runs, commit, c, selected[c]);
    }
  }

  /** All selected runs are completed with success exactly when all highest ones are. */
  lemma HighestSucceedIff(commit: string, runs: seq<Run>, selected: Selection)
    requires forall c, r :: HighestOf(runs, commit, c, r) <==> c in selected && selected[c] == r
    ensures (forall c :: c in selected ==> Completed(selected[c]) && Successful(selected[c])) <==>
      forall c, r :: HighestOf(runs, commit, c, r) ==> Completed(r) && Successful(r)
  {
    if c :| c in selected && !(Completed(selected[c]) && Successful(selected[c])) {
      assert HighestOf(runs, commit, c, selected[c]);
    }
  }

  lemma PassMeans(selected: Selection, required: seq<Category>)
    ensures EvaluationOf(selected, required).state == PASS <==>
      && selected != map[] && (forall c :: c in required ==> c in selected)
      && (forall c :: c in selected ==> Completed(selected[c]) && Successful(selected[c]))
  {
    StateMeans(selected, required);
  }

  /**
   A commit passes exactly when some run counts, every required category has one, and in every category
   the run with the highest id is completed with success.
   */
  lemma {:induction false} CommitPassesIff(commit: string, runs: seq<Run>, required: seq<Category>)
    requires Numbered(runs, commit) && HighestIsUnique(runs, commit)
    ensures EvaluationOf(Selected(runs, commit), required).state == PASS <==>
      && (exists r :: r in runs && CountsFor(r, commit).Some?)
      && (forall c :: c in required ==> exists r :: r in runs && CountsAs(r, commit, c))
      && (forall c, r :: HighestOf(runs, commit, c, r) ==> r.status == Some("completed") && r.conclusion == Some("success"))
  {
    var selected := Selected(runs, commit);
    PassMeans(selected, required);
    SomeRunSelected(commit, runs);
    SelectedAreHighest(commit, runs);
    HighestSucceedIff(commit, runs, selected);
  }

  // ---------------------------------------------------------------- which runs count, in terms of their texts

  predicate TextAt(s: string, part: string, i: int) {
    0 <= i <= |s| - |part| && s[i..i + |part|] == part
  }

  ghost predicate HasText(s: string, part: string) {
    exists i :: TextAt(s, part, i)
  }

  lemma {:induction false} ContainsIff(s: string, part: string)
    ensures Contains(s, part) <==> HasText(s, part)
  {
    if part <= s {
      assert TextAt(s, part, 0);
    } else if s != "" {
      ContainsIff(s[1..], part);
      if HasText(s[1..], part) {
        var i :| TextAt(s[1..], part, i);
        assert TextAt(s, part, i + 1);
      }
      if HasText(s, part) {
        var i :| TextAt(s, part, i);
        assert i > 0;
        assert TextAt(s[1..], part, i - 1);
      }
    }
  }

  /** The category a name stands for: the first of these texts, in any letter case, that it holds. */
  lemma CategoryByText(name: string)
    ensures var typecheck := HasText(Lower(name), "type") && HasText(Lower(name), "check");
      var lint, test, build := HasText(Lower(name), "lint"), HasText(Lower(name), "test"), HasText(Lower(name), "build");
      && (CheckCategory(name) == Some(Typecheck) <==> typecheck)
      && (CheckCategory(name) == Some(Lint) <==> !typecheck && lint)
      && (CheckCategory(name) == Some(Tests) <==> !typecheck && !lint && test)
      && (CheckCategory(name) == Some(Build) <==> !typecheck && !lint && !test && build)
      && (CheckCategory(name) == None <==> !typecheck && !lint && !test && !build)
  {
    ContainsIff(Lower(name), "type");
    ContainsIff(Lower(name), "check");
    ContainsIff(Lower(name), "lint");
    ContainsIff(Lower(name), "test");
    ContainsIff(Lower(name), "build");
  }

  /** The run says it belongs to another commit. */
  predicate OfAnother(run: Run, commit: string) {
    run.headSha.Some? && Lower(run.headSha.value) != Lower(commit)
  }

  lemma {:induction false} SelectedSnoc(runs: seq<Run>, run: Run, commit: string)
    ensures Selected(runs + [run], commit) == Consider(Selected(runs, commit), run, commit)
  {
    assert (runs + [run])[..|runs|] == runs;
  }

  lemma {:induction false} SelectedWithout(before: seq<Run>, run: Run, after: seq<Run>, commit: string)
    requires CountsFor(run, commit).None?
    ensures Selected(before + [run] + after, commit) == Selected(before + after, commit)
    decreases |after|
  {
    if after == [] {
      assert before + [run] + after == before + [run] && before + after == before;
      SelectedSnoc(before, run, commit);
    } else {
      var init, last := after[..|after| - 1], after[|after| - 1];
      assert before + [run] + after == (before + [run] + init) + [last];
      assert before + after == (before + init) + [last];
      SelectedSnoc(before + [run] + init, last, commit);
      SelectedSnoc(before + init, last, commit);
      SelectedWithout(before, run, init, commit);
    }
  }

  /**
   A run of another commit, or one whose name stands for nothing, makes no difference to the evaluation,
   wherever it is listed.
   */
  lemma OthersMakeNoDifference(before: seq<Run>, run: Run, after: seq<Run>, commit: string, required: seq<Category>)
    requires OfAnother(run, commit) || CheckCategory(run.name) == None
    ensures Selected(before + [run] + after, commit) == Selected(before + after, commit)
    ensures EvaluationOf(Selected(before + [run] + after, commit), required) == EvaluationOf(Selected(before + after, commit), required)
  {
    SelectedWithout(before, run, after, commit);
  }

  /** Another run that may stand for the category: it must be older. */
  ghost predicate HighestNamed(runs: seq<Run>, commit: string, category: Category, run: Run) {
    && run.id.Some?
    && forall r :: r in runs && !OfAnother(r, commit) && CheckCategory(r.name) == Some(category) ==>
         r == run || (r.id.Some? && r.id.value < run.id.value)
  }

  /**
   The run that is kept: of this commit in any letter case, or of no stated commit, with a name that stands
   for the category, and with the highest id of all such runs.
   */
  lemma {:induction false} HighestNamedIsKept(runs: seq<Run>, commit: string, category: Category, run: Run)
    requires HighestNamed(runs, commit, category, run)
    requires !OfAnother(run, commit) && CheckCategory(run.name) == Some(category)
    ensures category in Selected(runs, commit) ==>
      var kept := Selected(runs, commit)[category];
      kept in runs && !OfAnother(kept, commit) && CheckCategory(kept.name) == Some(category)
    ensures run in runs ==> category in Selected(runs, commit) && Selected(runs, commit)[category] == run
  {
    if runs != [] {
      var init, last := runs[..|runs| - 1], runs[|runs| - 1];
      assert runs == init + [last];
      assert forall r :: r in init ==> r in runs;
      HighestNamedIsKept(init, commit, category, run);
      var was := Selected(init, commit);
      if category in was {
        assert was[category] in runs;
        assert was[category] == run || was[category].id.value < run.id.value;
      }
    }
  }

  // ---------------------------------------------------------------- what the lines and the evidence say

  /** A line's first character says whether its run succeeded, failed or is not completed; its link comes last. */
  lemma LineSays(category: Category, run: Run)
    ensures var line := LineFor(category, run);
      && line != "" && |run.link| <= |line| && line[|line| - |run.link|..] == run.link
      && (line[0] == '✅' <==> Completed(run) && Successful(run))
      && (line[0] == '❌' <==> Completed(run) && !Successful(run))
      && (line[0] == '⏳' <==> !Completed(run))
      && |line| >= 2 + |Label(category)| && line[2..2 + |Label(category)|] == Label(category)
  {
    var line, icon := LineFor(category, run), if !Completed(run) then "⏳ " else if Successful(run) then "✅ " else "❌ ";
    var rest := line[2 + |Label(category)|..];
    assert line == icon + Label(category) + rest;
  }

  lemma {:induction false} LinesForEach(selected: Selection, categories: seq<Category>)
    requires forall c :: c in categories ==> c in selected
    ensures |LinesFor(selected, categories)| == |categories|
    ensures forall k :: 0 <= k < |categories| ==> LinesFor(selected, categories)[k] == LineFor(categories[k], selected[categories[k]])
  {
    if categories != [] {
      LinesForEach(selected, categories[1..]);
    }
  }

  lemma {:induction false} MissingLinesEach(categories: seq<Category>)
    ensures |MissingLines(categories)| == |categories|
    ensures forall k :: 0 <= k < |categories| ==> MissingLines(categories)[k] == "⏳ " + Label(categories[k]) + " (MISSING)"
  {
    if categories != [] {
      MissingLinesEach(categories[1..]);
    }
  }

  lemma {:induction false} NameOrderAscends(selected: Selection, categories: seq<Category>)
    requires forall i, j :: 0 <= i < j < |categories| ==> Less(Label(categories[i]), Label(categories[j]))
    ensures forall i, j :: 0 <= i < j < |InNameOrder(selected, categories)| ==>
      Less(Label(InNameOrder(selected, categories)[i]), Label(InNameOrder(selected, categories)[j]))
  {
    if categories != [] {
      var rest := categories[1..];
      assert forall i :: 0 <= i < |rest| ==> rest[i] == categories[i + 1];
      NameOrderAscends(selected, rest);
      NameOrderSelected(selected, rest);
      var more := InNameOrder(selected, rest);
      forall j | 0 <= j < |more| ensures Less(Label(categories[0]), Label(more[j])) {
        assert more[j] in more;
      }
    }
  }

  lemma LabelsAscend()
    ensures forall i, j :: 0 <= i < j < |IN_ORDER| ==> Less(Label(IN_ORDER[i]), Label(IN_ORDER[j]))
  {
    assert Label(Build)[0] < Label(Lint)[0] && Label(Lint)[0] < Label(Tests)[0];
    assert Label(Tests)[0] == Label(Typecheck)[0] && Label(Tests)[1..][0] < Label(Typecheck)[1..][0];
  }

  lemma {:induction false} MissingMembers(selected: Selection, required: seq<Category>)
    ensures forall c :: c in Missing(selected, required) <==> c in required && c !in selected
  {
    if required != [] {
      MissingMembers(selected, required[1..]);
      assert required == [required[0]] + required[1..];
    }
  }

  /**
   The lines: one for every selected category, in the order of their names, then one for every required
   category that has no run; or the one line that says there is nothing.
   */
  lemma LinesMean(selected: Selection, required: seq<Category>) returns (shown: seq<Category>, missing: seq<Category>)
    ensures forall c :: c in shown <==> c in selected
    ensures forall i, j :: 0 <= i < j < |shown| ==> Less(Label(shown[i]), Label(shown[j]))
    ensures forall c :: c in missing <==> c in required && c !in selected
    ensures forall i, j :: 0 <= i < j < |missing| ==> missing[i] != missing[j]
    ensures var lines := EvaluationOf(selected, required).lines;
      if |shown| + |missing| == 0 then lines == [NO_CHECKS]
      else
        && |lines| == |shown| + |missing|
        && (forall k :: 0 <= k < |shown| ==> lines[k] == LineFor(shown[k], selected[shown[k]]))
        && (forall k :: 0 <= k < |missing| ==> lines[|shown| + k] == "⏳ " + Label(missing[k]) + " (MISSING)")
  {
    shown, missing := Ordered(selected), Missing(selected, Dedup(required));
    LabelsAscend();
    NameOrderAscends(selected, IN_ORDER);
    LinesForEach(selected, shown);
    MissingLinesEach(missing);
    DedupMembers(required);
    DedupDistinct(required);
    MissingMembers(selected, Dedup(required));
    MissingDistinct(selected, Dedup(required));
  }

  ghost predicate DistinctCategories(categories: seq<Category>) {
    forall i, j :: 0 <= i < j < |categories| ==> categories[i] != categories[j]
  }

  lemma {:induction false} DedupDistinct(categories: seq<Category>)
    ensures DistinctCategories(Dedup(categories))
  {
    if categories != [] {
      DedupDistinct(categories[..|categories| - 1]);
    }
  }

  lemma {:induction false} MissingDistinct(selected: Selection, required: seq<Category>)
    requires DistinctCategories(required)
    ensures DistinctCategories(Missing(selected, required))
  {
    if required != [] {
      var rest := required[1..];
      assert forall i :: 0 <= i < |rest| ==> rest[i] == required[i + 1];
      MissingDistinct(selected, rest);
      MissingMembers(selected, rest);
      var more := Missing(selected, rest);
      forall j | 0 <= j < |more| ensures more[j] != required[0] {
        assert more[j] in more;
      }
    }
  }

  /** Evidence is given for exactly the selected runs whose id is a positive safe integer. */
  lemma {:induction false} EvidenceMeans(selected: Selection, categories: seq<Category>)
    requires forall c :: c in categories ==> c in selected
    ensures forall e :: e in EvidenceFor(selected, categories) <==>
      && e.category in categories && e.run == selected[e.category] && e.run.id == Some(e.id)
      && 1 <= e.id <= 9007199254740991
  {
    if categories != [] {
      EvidenceMeans(selected, categories[1..]);
      assert categories == [categories[0]] + categories[1..];
    }
  }
}
