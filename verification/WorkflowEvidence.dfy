/**
 The two workflow checks that read parsed patch lines (apps/api/src/pr-requirements.ts,
 `actionEvidence` and `checkoutEvidence`).  Their regular expressions are parameters: what they say of
 one line's text.  A patch that is missing or empty is the empty string.
 */
module WorkflowEvidence {
  import opened Options
  import opened Text
  import opened PatchLines

  datatype Status = Passed | Failed | Unknown

  function LinesOf(patch: string): seq<Line> {
    Parse(SplitLines(patch), None)
  }

  predicate Complete(patches: seq<string>) {
    patches != [] && "" !in patches
  }

  // ---------------------------------------------------------------- pinned actions

  /** The references added by some lines, in order. */
  function References(lines: seq<Line>, reference: string -> Option<string>): seq<string> {
    if lines == [] then []
    else
      (if lines[0].kind.Added? && reference(lines[0].text).Some? then [reference(lines[0].text).value] else [])
      + References(lines[1..], reference)
  }

  function AllReferences(files: seq<seq<Line>>, reference: string -> Option<string>): seq<string> {
    if files == [] then [] else References(files[0], reference) + AllReferences(files[1..], reference)
  }

  function Parsed(patches: seq<string>): seq<seq<Line>> {
    if patches == [] then [] else [LinesOf(patches[0])] + Parsed(patches[1..])
  }

  method ReadPatch(patch: string) returns (lines: seq<Line>)
    ensures lines == LinesOf(patch)
  {
    lines := ParsePatchLines(patch);
  }

  lemma ParsedHead(patches: seq<string>, i: nat, files: seq<seq<Line>>, lines: seq<Line>)
    requires i < |patches| && lines == LinesOf(patches[i])
    ensures files + Parsed(patches[i..]) == (files + [lines]) + Parsed(patches[i + 1..])
  {
  }

  method ParseAll(patches: seq<string>) returns (files: seq<seq<Line>>)
    ensures files == Parsed(patches)
  {
    files := [];
    ghost var all := Parsed(patches);
    var i := 0;
    assert patches[0..] == patches && [] + all == all;
    while i < |patches|
      invariant 0 <= i <= |patches|
      invariant files + Parsed(patches[i..]) == all
    {
      var lines := ReadPatch(patches[i]);
      ParsedHead(patches, i, files, lines);
      files := files + [lines];
      i := i + 1;
    }
    assert patches[i..] == [] && files + [] == files;
  }

  lemma {:induction false} ParsedMembers(patches: seq<string>)
    ensures forall f :: f in Parsed(patches) <==> exists p :: p in patches && LinesOf(p) == f
  {
    if patches != [] {
      ParsedMembers(patches[1..]);
      assert patches == [patches[0]] + patches[1..];
    }
  }

  function FirstUnpinned(observed: seq<string>, pinned: string -> bool): Option<string> {
    if observed == [] then None
    else if !pinned(observed[0]) then Some(observed[0])
    else FirstUnpinned(observed[1..], pinned)
  }

  lemma {:induction false} FirstUnpinnedGrows(observed: seq<string>, next: string, pinned: string -> bool)
    ensures FirstUnpinned(observed + [next], pinned) ==
      if FirstUnpinned(observed, pinned).Some? then FirstUnpinned(observed, pinned)
      else if pinned(next) then None else Some(next)
  {
    if observed == [] {
      assert [] + [next] == [next] && [next][1..] == [];
    } else {
      assert (observed + [next])[1..] == observed[1..] + [next];
      FirstUnpinnedGrows(observed[1..], next, pinned);
    }
  }

  lemma ReferencesHead(first: Line, rest: seq<Line>, reference: string -> Option<string>, seen: seq<string>)
    ensures seen + References([first] + rest, reference) ==
      (if first.kind.Added? && reference(first.text).Some? then seen + [reference(first.text).value] else seen) + References(rest, reference)
  {
  }

  /** One file's lines. */
  method ScanActions(lines: seq<Line>, seen: seq<string>, first: Option<string>,
                     reference: string -> Option<string>, pinned: string -> bool)
    returns (observed: seq<string>, unpinned: Option<string>)
    requires first == FirstUnpinned(seen, pinned)
    ensures observed == seen + References(lines, reference)
    ensures unpinned == FirstUnpinned(observed, pinned)
  {
    ghost var all := seen + References(lines, reference);
    observed, unpinned := seen, first;
    var i := 0;
    assert lines[0..] == lines;
    while i < |lines|
      invariant 0 <= i <= |lines|
      invariant observed + References(lines[i..], reference) == all
      invariant unpinned == FirstUnpinned(observed, pinned)
    {
      assert lines[i..] == [lines[i]] + lines[i + 1..];
      ReferencesHead(lines[i], lines[i + 1..], reference, observed);
      if lines[i].kind.Added? && reference(lines[i].text).Some? {
        var found := reference(lines[i].text).value;
        FirstUnpinnedGrows(observed, found, pinned);
        if !pinned(found) && unpinned.None? {
          unpinned := Some(found);
        }
        observed := observed + [found];
      }
      i := i + 1;
    }
    assert lines[i..] == [] && observed + [] == observed;
  }

  lemma AllReferencesHead(files: seq<seq<Line>>, i: nat, reference: string -> Option<string>, seen: seq<string>)
    requires i < |files|
    ensures seen + AllReferences(files[i..], reference)
      == (seen + References(files[i], reference)) + AllReferences(files[i + 1..], reference)
  {
  }

  method ScanAllActions(files: seq<seq<Line>>, reference: string -> Option<string>, pinned: string -> bool)
    returns (observed: seq<string>, unpinned: Option<string>)
    ensures observed == AllReferences(files, reference) && unpinned == FirstUnpinned(observed, pinned)
  {
    observed, unpinned := [], None;
    ghost var all := AllReferences(files, reference);
    var i := 0;
    assert files[0..] == files && [] + all == all;
    while i < |files|
      invariant 0 <= i <= |files|
      invariant observed + AllReferences(files[i..], reference) == all
      invariant unpinned == FirstUnpinned(observed, pinned)
    {
      AllReferencesHead(files, i, reference, observed);
      observed, unpinned := ScanActions(files[i], observed, unpinned, reference, pinned);
      i := i + 1;
    }
    assert files[i..] == [] && observed + [] == observed;
  }

  /** Every reference in order, and the first that is not pinned to a full commit. */
  method ActionEvidence(patches: seq<string>, reference: string -> Option<string>, pinned: string -> bool)
    returns (status: Status, unpinned: Option<string>, observed: seq<string>)
    ensures patches == [] || "" in patches ==> status == Unknown && observed == []
    ensures patches != [] && "" !in patches ==>
      observed == AllReferences(Parsed(patches), reference) && unpinned == FirstUnpinned(observed, pinned)
    ensures patches != [] && "" !in patches ==>
      status == if observed == [] then Unknown else if unpinned.None? then Passed else Failed
  {
    if patches == [] || "" in patches {
      return Unknown, None, [];
    }
    var files := ParseAll(patches);
    observed, unpinned := ScanAllActions(files, reference, pinned);
    status := if observed == [] then Unknown else if unpinned.None? then Passed else Failed;
  }

  predicate AddsLine(lines: seq<Line>, text: string) {
    exists l :: l in lines && l.kind.Added? && l.text == text
  }

  predicate Adds(patch: string, text: string) {
    AddsLine(LinesOf(patch), text)
  }

  lemma {:induction false} ReferenceMembers(lines: seq<Line>, reference: string -> Option<string>, r: string)
    ensures r in References(lines, reference) <==>
      exists l :: l in lines && l.kind.Added? && reference(l.text) == Some(r)
  {
    if lines != [] {
      ReferenceMembers(lines[1..], reference, r);
      assert lines == [lines[0]] + lines[1..];
    }
  }

  lemma {:induction false} AllReferenceMembers(files: seq<seq<Line>>, reference: string -> Option<string>, r: string)
    ensures r in AllReferences(files, reference) <==>
      exists f, text :: f in files && AddsLine(f, text) && reference(text) == Some(r)
  {
    if files != [] {
      var f, rest := files[0], files[1..];
      AllReferenceMembers(rest, reference, r);
      ReferenceMembers(f, reference, r);
      assert files == [f] + rest;
      if r in References(f, reference) {
        var l :| l in f && l.kind.Added? && reference(l.text) == Some(r);
        assert f in files && AddsLine(f, l.text);
      }
      if r in AllReferences(rest, reference) {
        var g, text :| g in rest && AddsLine(g, text) && reference(text) == Some(r);
        assert g in files;
      }
    }
  }

  lemma {:induction false} AllPinned(observed: seq<string>, pinned: string -> bool)
    ensures FirstUnpinned(observed, pinned).None? <==> forall r :: r in observed ==> pinned(r)
  {
    if observed != [] {
      AllPinned(observed[1..], pinned);
      assert observed == [observed[0]] + observed[1..];
    }
  }

  lemma AllPinnedIff(files: seq<seq<Line>>, reference: string -> Option<string>, pinned: string -> bool)
    ensures var observed := AllReferences(files, reference);
      (observed != [] && FirstUnpinned(observed, pinned).None?) <==>
        && (exists f, text :: f in files && AddsLine(f, text) && reference(text).Some?)
        && (forall f, text :: f in files && AddsLine(f, text) && reference(text).Some? ==> pinned(reference(text).value))
  {
    var observed := AllReferences(files, reference);
    AllPinned(observed, pinned);
    forall f, text | f in files && AddsLine(f, text) && reference(text).Some?
      ensures reference(text).value in observed
    {
      AllReferenceMembers(files, reference, reference(text).value);
    }
    forall r | r in observed ensures exists f, text :: f in files && AddsLine(f, text) && reference(text) == Some(r) {
      AllReferenceMembers(files, reference, r);
    }
    if observed != [] {
      assert observed[0] in observed;
    }
  }

  /** Passed means: at least one reference is added somewhere, and every added reference is pinned. */
  lemma ActionPassesIff(patches: seq<string>, reference: string -> Option<string>, pinned: string -> bool)
    ensures var observed := AllReferences(Parsed(patches), reference);
      (observed != [] && FirstUnpinned(observed, pinned).None?) <==>
        && (exists p, text :: p in patches && Adds(p, text) && reference(text).Some?)
        && (forall p, text :: p in patches && Adds(p, text) && reference(text).Some? ==> pinned(reference(text).value))
  {
    var files := Parsed(patches);
    AllPinnedIff(files, reference, pinned);
    ParsedMembers(patches);
    forall f, text | f in files && AddsLine(f, text) ensures exists p :: p in patches && Adds(p, text) && LinesOf(p) == f {
      var p :| p in patches && LinesOf(p) == f;
      assert Adds(p, text);
    }
    forall p, text | p in patches && Adds(p, text) ensures LinesOf(p) in files && AddsLine(LinesOf(p), text) {
    }
  }

  // ---------------------------------------------------------------- what a rendered diff adds

  lemma {:induction false} AddedChanges(changes: seq<Change>, at: Cursor, text: string)
    ensures (exists l :: l in NumberedChanges(changes, at) && l.kind.Added? && l.text == text)
      <==> Change(Added, text) in changes
  {
    if changes != [] {
      AddedChanges(changes[1..], Next(at, changes[0]), text);
      assert changes == [changes[0]] + changes[1..];
      assert changes[0] == Change(Added, text) <==> Numbered(changes[0], at).kind.Added? && Numbered(changes[0], at).text == text;
    }
  }

  ghost predicate HunksAdd(hunks: seq<Hunk>, text: string) {
    exists h :: h in hunks && Change(Added, text) in h.changes
  }

  lemma {:induction false} AddedHunks(hunks: seq<Hunk>, text: string)
    ensures (exists l :: l in NumberedHunks(hunks) && l.kind.Added? && l.text == text) <==> HunksAdd(hunks, text)
  {
    if hunks != [] {
      var h, rest := hunks[0], hunks[1..];
      var at := Cursor(h.oldStart, h.newStart);
      AddedChanges(h.changes, at, text);
      AddedHunks(rest, text);
      assert hunks == [h] + rest;
      assert forall l :: l in NumberedHunks(hunks) <==> l in NumberedChanges(h.changes, at) || l in NumberedHunks(rest);
    }
  }

  /** The lines the checks look at are exactly the lines the diff adds. */
  lemma AddsIff(hunks: seq<Hunk>, text: string)
    requires SingleLines(hunks) && NothingHidden(hunks)
    ensures Adds(Render(hunks), text) <==> HunksAdd(hunks, text)
  {
    RoundTripIff(hunks);
    AddedHunks(hunks, text);
  }

  // ---------------------------------------------------------------- checkout credentials

  function FirstSetting(block: seq<Line>, isSetting: string -> bool): Option<Line> {
    if block == [] then None
    else if isSetting(block[0].text) then Some(block[0])
    else FirstSetting(block[1..], isSetting)
  }

  function Block(lines: seq<Line>, i: nat): seq<Line>
    requires i < |lines|
  {
    lines[i..if i + 12 <= |lines| then i + 12 else |lines|]
  }

  datatype Checkout = Checkout(isCheckout: string -> bool, isSetting: string -> bool, isDisabled: string -> bool)

  predicate ChecksOut(lines: seq<Line>, i: nat, re: Checkout) {
    i < |lines| && lines[i].kind.Added? && re.isCheckout(lines[i].text)
  }

  predicate Disabled(lines: seq<Line>, i: nat, re: Checkout)
    requires i < |lines|
  {
    var setting := FirstSetting(Block(lines, i), re.isSetting);
    setting.Some? && re.isDisabled(setting.value.text)
  }

  /** The first line with the setting, counted from this one. */
  ghost predicate FirstSettingAt(lines: seq<Line>, i: nat, j: nat, re: Checkout) {
    i <= j < |lines| && re.isSetting(lines[j].text) && forall k :: i <= k < j ==> !re.isSetting(lines[k].text)
  }

  lemma {:induction false} FirstSettingIs(block: seq<Line>, isSetting: string -> bool)
    ensures var first := FirstSetting(block, isSetting);
      && (first.None? <==> forall k :: 0 <= k < |block| ==> !isSetting(block[k].text))
      && (first.Some? ==> exists k :: 0 <= k < |block| && block[k] == first.value && isSetting(block[k].text)
                                      && forall m :: 0 <= m < k ==> !isSetting(block[m].text))
  {
    if block != [] && !isSetting(block[0].text) {
      var rest := block[1..];
      FirstSettingIs(rest, isSetting);
      assert forall k :: 0 <= k < |rest| ==> rest[k] == block[k + 1];
      if FirstSetting(rest, isSetting).Some? {
        var k :| 0 <= k < |rest| && rest[k] == FirstSetting(rest, isSetting).value && isSetting(rest[k].text)
          && forall m :: 0 <= m < k ==> !isSetting(rest[m].text);
        assert block[k + 1] == rest[k];
        assert forall m :: 0 < m < k + 1 ==> block[m] == rest[m - 1];
      }
      if forall k :: 0 <= k < |rest| ==> !isSetting(rest[k].text) {
        assert forall k :: 0 < k < |block| ==> block[k] == rest[k - 1];
      }
    }
  }

  /** Disabled means: the first setting is on the checkout's line or one of the eleven after it, and says so. */
  lemma DisabledIff(lines: seq<Line>, i: nat, re: Checkout)
    requires i < |lines|
    ensures Disabled(lines, i, re) <==> exists j: nat :: FirstSettingAt(lines, i, j, re) && j <= i + 11 && re.isDisabled(lines[j].text)
  {
    var block := Block(lines, i);
    FirstSettingIs(block, re.isSetting);
    assert forall k :: 0 <= k < |block| ==> block[k] == lines[i + k];
    if FirstSetting(block, re.isSetting).Some? {
      var k :| 0 <= k < |block| && block[k] == FirstSetting(block, re.isSetting).value && re.isSetting(block[k].text)
        && forall m :: 0 <= m < k ==> !re.isSetting(block[m].text);
      assert forall m :: i <= m < i + k ==> lines[m] == block[m - i];
      assert FirstSettingAt(lines, i, i + k, re);
    }
    forall j: nat | FirstSettingAt(lines, i, j, re) && j <= i + 11
      ensures FirstSetting(block, re.isSetting) == Some(lines[j])
    {
      assert block[j - i] == lines[j];
    }
  }

  ghost predicate SomeIn(lines: seq<Line>, re: Checkout) {
    exists i :: 0 <= i < |lines| && ChecksOut(lines, i, re)
  }

  ghost predicate AllIn(lines: seq<Line>, re: Checkout) {
    forall i :: 0 <= i < |lines| && ChecksOut(lines, i, re) ==> Disabled(lines, i, re)
  }

  method ScanCheckouts(lines: seq<Line>, re: Checkout) returns (found: bool, missing: bool)
    ensures found <==> SomeIn(lines, re)
    ensures missing <==> !AllIn(lines, re)
  {
    found, missing := false, false;
    var index := 0;
    while index < |lines|
      invariant 0 <= index <= |lines|
      invariant found <==> exists i :: 0 <= i < index && ChecksOut(lines, i, re)
      invariant missing <==> exists i :: 0 <= i < index && ChecksOut(lines, i, re) && !Disabled(lines, i, re)
    {
      if lines[index].kind.Added? && re.isCheckout(lines[index].text) {
        assert ChecksOut(lines, index, re);
        found := true;
        var setting := FirstSetting(Block(lines, index), re.isSetting);
        if setting.None? || !re.isDisabled(setting.value.text) {
          missing := true;
        }
      }
      index := index + 1;
    }
  }

  ghost predicate SomeCheckout(patches: seq<string>, re: Checkout) {
    exists p :: p in patches && SomeIn(LinesOf(p), re)
  }

  ghost predicate AllDisabled(patches: seq<string>, re: Checkout) {
    forall p :: p in patches ==> AllIn(LinesOf(p), re)
  }

  /** What the check answers. */
  ghost function CheckoutStatus(patches: seq<string>, re: Checkout): Status {
    if !Complete(patches) then Unknown else if SomeCheckout(patches, re) && AllDisabled(patches, re) then Passed else Failed
  }

  /** Passed means: something is checked out, and every added checkout finds the setting disabled within twelve lines. */
  method CheckoutEvidence(patches: seq<string>, re: Checkout) returns (status: Status)
    ensures status == CheckoutStatus(patches, re)
    ensures status == Unknown <==> patches == [] || "" in patches
  {
    if patches == [] || "" in patches {
      return Unknown;
    }
    var some, missing := false, false;
    var k := 0;
    while k < |patches|
      invariant 0 <= k <= |patches|
      invariant some <==> SomeCheckout(patches[..k], re)
      invariant missing <==> !AllDisabled(patches[..k], re)
    {
      var lines := ParsePatchLines(patches[k]);
      var found, absent := ScanCheckouts(lines, re);
      OnePatchMore(patches[..k], patches[k], re);
      assert patches[..k + 1] == patches[..k] + [patches[k]];
      some, missing := some || found, missing || absent;
      k := k + 1;
    }
    assert patches[..k] == patches;
    status := if some && !missing then Passed else Failed;
  }

  lemma OnePatchMore(patches: seq<string>, p: string, re: Checkout)
    ensures SomeCheckout(patches + [p], re) <==> SomeCheckout(patches, re) || SomeIn(LinesOf(p), re)
    ensures AllDisabled(patches + [p], re) <==> AllDisabled(patches, re) && AllIn(LinesOf(p), re)
  {
  }

  /** The lines of a block that the new file has. */
  function Kept(block: seq<Line>): seq<Line> {
    if block == [] then []
    else (if block[0].kind.Removed? then [] else [block[0]]) + Kept(block[1..])
  }

  /** What the window says when only lines of the new file are read. */
  predicate DisabledNow(lines: seq<Line>, i: nat, re: Checkout)
    requires i < |lines|
  {
    var setting := FirstSetting(Kept(Block(lines, i)), re.isSetting);
    setting.Some? && re.isDisabled(setting.value.text)
  }

  lemma {:induction false} KeptSettingIsFirst(block: seq<Line>, isSetting: string -> bool)
    ensures var first := FirstSetting(block, isSetting);
      first.None? || !first.value.kind.Removed? ==> FirstSetting(Kept(block), isSetting) == first
  {
    if block != [] {
      KeptSettingIsFirst(block[1..], isSetting);
      assert [block[0]] + Kept(block[1..]) != [] && ([block[0]] + Kept(block[1..]))[1..] == Kept(block[1..]);
      assert [] + Kept(block[1..]) == Kept(block[1..]);
    }
  }

  /** The first setting of the window is deleted. */
  predicate DeletedFirst(lines: seq<Line>, i: nat, re: Checkout)
    requires i < |lines|
  {
    var first := FirstSetting(Block(lines, i), re.isSetting);
    first.Some? && first.value.kind.Removed?
  }

  /** Only a deleted setting that comes first can make the two readings of a window differ. */
  lemma KeptFirstDecides(lines: seq<Line>, i: nat, re: Checkout)
    requires i < |lines| && !DeletedFirst(lines, i, re)
    ensures Disabled(lines, i, re) <==> DisabledNow(lines, i, re)
  {
    KeptSettingIsFirst(Block(lines, i), re.isSetting);
  }

  ghost predicate AllDisabledNow(patches: seq<string>, re: Checkout) {
    forall p, i :: p in patches && 0 <= i < |LinesOf(p)| && ChecksOut(LinesOf(p), i, re) ==> DisabledNow(LinesOf(p), i, re)
  }

  /** What it would answer if it read only the lines the new files have. */
  ghost function StatusNow(patches: seq<string>, re: Checkout): Status {
    if !Complete(patches) then Unknown else if SomeCheckout(patches, re) && AllDisabledNow(patches, re) then Passed else Failed
  }

  /** Some added checkout whose first setting is deleted and says `disabled`, with nothing kept that says so. */
  ghost predicate DeletedHelps(patches: seq<string>, re: Checkout) {
    exists p, i :: p in patches && 0 <= i < |LinesOf(p)| && ChecksOut(LinesOf(p), i, re)
      && DeletedFirst(LinesOf(p), i, re) && !DisabledNow(LinesOf(p), i, re)
  }

  /** Some added checkout whose first setting is deleted and does not say `disabled`. */
  ghost predicate DeletedHurts(patches: seq<string>, re: Checkout) {
    exists p, i :: p in patches && 0 <= i < |LinesOf(p)| && ChecksOut(LinesOf(p), i, re)
      && DeletedFirst(LinesOf(p), i, re) && !Disabled(LinesOf(p), i, re)
  }

  lemma DisabledPatches(patches: seq<string>, re: Checkout)
    ensures AllDisabled(patches, re) <==>
      forall p, i :: p in patches && 0 <= i < |LinesOf(p)| && ChecksOut(LinesOf(p), i, re) ==> Disabled(LinesOf(p), i, re)
  {
    forall p | p in patches && !AllIn(LinesOf(p), re)
      ensures exists i :: 0 <= i < |LinesOf(p)| && ChecksOut(LinesOf(p), i, re) && !Disabled(LinesOf(p), i, re)
    {
    }
  }

  /**
   The setting may be on a line of any kind, so a deleted one can decide the whole check.  It passes where
   the new files would fail exactly when every added checkout finds `disabled` and for some of them that
   is on a deleted line with nothing kept to say so; it fails where they would pass exactly when they say
   `disabled` for every added checkout and some window starts with a deleted setting that does not.
   */
  lemma RemovedSettingDecidesIff(patches: seq<string>, re: Checkout)
    requires Complete(patches)
    ensures CheckoutStatus(patches, re) == Passed && StatusNow(patches, re) == Failed <==>
      SomeCheckout(patches, re) && AllDisabled(patches, re) && DeletedHelps(patches, re)
    ensures CheckoutStatus(patches, re) == Failed && StatusNow(patches, re) == Passed <==>
      SomeCheckout(patches, re) && AllDisabledNow(patches, re) && DeletedHurts(patches, re)
  {
    DisabledPatches(patches, re);
    forall p, i | p in patches && 0 <= i < |LinesOf(p)| && !DeletedFirst(LinesOf(p), i, re)
      ensures Disabled(LinesOf(p), i, re) <==> DisabledNow(LinesOf(p), i, re)
    {
      KeptFirstDecides(LinesOf(p), i, re);
    }
  }

  /** And it happens: a patch whose only setting is a deleted one passes, though the new file has none. */
  lemma RemovedSettingCounts(checkout: Line, setting: Line, re: Checkout)
    requires checkout.kind.Added? && re.isCheckout(checkout.text) && !re.isSetting(checkout.text)
    requires setting.kind.Removed? && re.isSetting(setting.text) && re.isDisabled(setting.text)
    ensures SomeIn([checkout, setting], re) && AllIn([checkout, setting], re)
    ensures !DisabledNow([checkout, setting], 0, re)
  {
    var lines := [checkout, setting];
    assert ChecksOut(lines, 0, re);
    assert Block(lines, 0) == lines && lines[1..] == [setting];
    assert FirstSetting([setting], re.isSetting) == Some(setting);
    assert FirstSetting(lines, re.isSetting) == Some(setting);
    assert [setting][1..] == [] && Kept([setting]) == [];
    assert Kept(lines) == [checkout] + Kept(lines[1..]) == [checkout];
    assert [checkout][1..] == [] && FirstSetting([checkout], re.isSetting) == None;
  }
}
