/**
 Reading the lines of a unified diff (apps/api/src/pr-requirements.ts, `parsePatchLines`).
 Line numbers are unbounded; the source's numbers are exact below 2^53.
 */
module PatchLines {
  import opened Options
  import opened Text

  datatype Kind = Context | Added | Removed

  datatype Line = Line(kind: Kind, text: string, oldLine: Option<nat>, newLine: Option<nat>)

  /** The line numbers that the next line of the current hunk would have. */
  datatype Cursor = Cursor(oldLine: nat, newLine: nat)

  // ---------------------------------------------------------------- lines and hunk headers

  /** `split(/\r?\n/)`: one carriage return before each line feed goes with it. */
  function SplitLines(patch: string): seq<string> {
    var parts := Split(patch, '\n');
    seq(|parts|, i requires 0 <= i < |parts| => if i < |parts| - 1 then Chomp(parts[i]) else parts[i])
  }

  function Chomp(s: string): string {
    if s != "" && s[|s| - 1] == '\r' then s[..|s| - 1] else s
  }

  /** The longest run of digits at the start. */
  function DigitsOf(s: string): (digits: string)
    ensures AllDigits(digits) && digits <= s
  {
    if s != "" && IsDigit(s[0]) then [s[0]] + DigitsOf(s[1..]) else ""
  }

  function After(s: string, prefix: string): Option<string> {
    if prefix <= s then Some(s[|prefix|..]) else None
  }

  /** `(?:,\d+)?` */
  function SkipCount(s: string): Option<string> {
    if s == "" || s[0] != ',' then Some(s)
    else if DigitsOf(s[1..]) == "" then None
    else Some(s[1 + |DigitsOf(s[1..])|..])
  }

  /** `(\d+)(?:,\d+)?` */
  function TakeRange(s: string): Option<(nat, string)> {
    var digits := DigitsOf(s);
    if digits == "" then None
    else
      match SkipCount(s[|digits|..])
      case None => None
      case Some(rest) => Some((Value(digits), rest))
  }

  /** `/^@@ -(\d+)(?:,\d+)? \+(\d+)(?:,\d+)? @@/` */
  function HunkHeader(raw: string): Option<Cursor> {
    match After(raw, "@@ -")
    case None => None
    case Some(a) =>
      match TakeRange(a)
      case None => None
      case Some((oldLine, b)) =>
        match After(b, " +")
        case None => None
        case Some(c) =>
          match TakeRange(c)
          case None => None
          case Some((newLine, d)) => if After(d, " @@").Some? then Some(Cursor(oldLine, newLine)) else None
  }

  // ---------------------------------------------------------------- parsing

  function LinesAt(raw: string, at: Cursor): seq<Line> {
    if "+++" <= raw || "---" <= raw then []
    else if "+" <= raw then [Line(Added, raw[1..], None, Some(at.newLine))]
    else if "-" <= raw then [Line(Removed, raw[1..], Some(at.oldLine), None)]
    else if " " <= raw then [Line(Context, raw[1..], Some(at.oldLine), Some(at.newLine))]
    else []
  }

  function Advance(at: Cursor, lines: seq<Line>): Cursor
    decreases lines
  {
    if lines == [] then at
    else
      Advance(Cursor(at.oldLine + (if lines[0].oldLine.Some? then 1 else 0),
                     at.newLine + (if lines[0].newLine.Some? then 1 else 0)), lines[1..])
  }

  /** What one line of the patch contributes; before the first hunk header, nothing. */
  function Emitted(raw: string, at: Option<Cursor>): seq<Line> {
    if at.None? || HunkHeader(raw).Some? then [] else LinesAt(raw, at.value)
  }

  function CursorAfter(raw: string, at: Option<Cursor>): Option<Cursor> {
    if HunkHeader(raw).Some? then HunkHeader(raw)
    else if at.None? then None
    else Some(Advance(at.value, LinesAt(raw, at.value)))
  }

  function Parse(raws: seq<string>, at: Option<Cursor>): seq<Line> {
    if raws == [] then [] else Emitted(raws[0], at) + Parse(raws[1..], CursorAfter(raws[0], at))
  }

  /** The body of the loop, on the two counters. */
  method ReadLine(raw: string, lines: seq<Line>, oldLine: Option<nat>, newLine: Option<nat>)
    returns (more: seq<Line>, oldNext: Option<nat>, newNext: Option<nat>)
    requires oldLine.Some? <==> newLine.Some?
    ensures more == lines + Emitted(raw, At(oldLine, newLine))
    ensures oldNext.Some? <==> newNext.Some?
    ensures At(oldNext, newNext) == CursorAfter(raw, At(oldLine, newLine))
  {
    more, oldNext, newNext := lines, oldLine, newLine;
    var hunk := HunkHeader(raw);
    if hunk.Some? {
      oldNext, newNext := Some(hunk.value.oldLine), Some(hunk.value.newLine);
      return;
    }
    if oldLine.None? || newLine.None? {
      return;
    }
    LineRead(raw, Cursor(oldLine.value, newLine.value));
    if "+++" <= raw || "---" <= raw {
      return;
    }
    if "+" <= raw {
      more := lines + [Line(Added, raw[1..], None, newLine)];
      newNext := Some(newLine.value + 1);
    } else if "-" <= raw {
      more := lines + [Line(Removed, raw[1..], oldLine, None)];
      oldNext := Some(oldLine.value + 1);
    } else if " " <= raw {
      more := lines + [Line(Context, raw[1..], oldLine, newLine)];
      oldNext, newNext := Some(oldLine.value + 1), Some(newLine.value + 1);
    }
  }

  /** The loop of the program, with its two counters. */
  method ParsePatchLines(patch: string) returns (lines: seq<Line>)
    ensures lines == Parse(SplitLines(patch), None)
  {
    var raws := SplitLines(patch);
    ghost var all := Parse(raws, None);
    var oldLine: Option<nat>, newLine: Option<nat> := None, None;
    lines := [];
    var i := 0;
    assert raws[0..] == raws && [] + all == all;
    while i < |raws|
      invariant 0 <= i <= |raws|
      invariant oldLine.Some? <==> newLine.Some?
      invariant lines + Parse(raws[i..], At(oldLine, newLine)) == all
    {
      ParseOne(raws, i, At(oldLine, newLine), lines);
      lines, oldLine, newLine := ReadLine(raws[i], lines, oldLine, newLine);
      i := i + 1;
    }
    assert raws[i..] == [] && lines + [] == lines;
  }

  lemma ParseOne(raws: seq<string>, i: nat, at: Option<Cursor>, was: seq<Line>)
    requires i < |raws|
    ensures was + Parse(raws[i..], at) == (was + Emitted(raws[i], at)) + Parse(raws[i + 1..], CursorAfter(raws[i], at))
  {
    assert raws[i..][0] == raws[i] && raws[i..][1..] == raws[i + 1..];
  }

  lemma LineRead(raw: string, at: Cursor)
    ensures Advance(at, LinesAt(raw, at)) ==
      if LinesAt(raw, at) == [] then at
      else if "+" <= raw then Cursor(at.oldLine, at.newLine + 1)
      else if "-" <= raw then Cursor(at.oldLine + 1, at.newLine)
      else Cursor(at.oldLine + 1, at.newLine + 1)
  {
  }

  function At(oldLine: Option<nat>, newLine: Option<nat>): Option<Cursor> {
    if oldLine.Some? && newLine.Some? then Some(Cursor(oldLine.value, newLine.value)) else None
  }

  // ---------------------------------------------------------------- rendering

  datatype Change = Change(kind: Kind, text: string)

  /** `oldCount` and `newCount` may be left out of a header; `heading` follows its closing `@@`. */
  datatype Hunk = Hunk(oldStart: nat, oldCount: Option<nat>, newStart: nat, newCount: Option<nat>, heading: string, changes: seq<Change>)

  function Mark(kind: Kind): char {
    match kind
    case Context => ' '
    case Added => '+'
    case Removed => '-'
  }

  function RenderChange(c: Change): string {
    [Mark(c.kind)] + c.text
  }

  function RenderCount(count: Option<nat>): string {
    if count.Some? then "," + Show(count.value) else ""
  }

  function RenderRange(start: nat, count: Option<nat>): string {
    Show(start) + RenderCount(count)
  }

  function RenderHeader(h: Hunk): string {
    "@@ -" + (RenderRange(h.oldStart, h.oldCount) + (" +" + (RenderRange(h.newStart, h.newCount) + (" @@" + h.heading))))
  }

  function RenderChanges(changes: seq<Change>): seq<string> {
    if changes == [] then [] else [RenderChange(changes[0])] + RenderChanges(changes[1..])
  }

  function RenderHunks(hunks: seq<Hunk>): seq<string> {
    if hunks == [] then [] else [RenderHeader(hunks[0])] + RenderChanges(hunks[0].changes) + RenderHunks(hunks[1..])
  }

  function Render(hunks: seq<Hunk>): string {
    if hunks == [] then "" else Join(RenderHunks(hunks), '\n')
  }

  predicate OneLine(s: string) {
    '\n' !in s && (s != "" ==> s[|s| - 1] != '\r')
  }

  predicate SingleLines(hunks: seq<Hunk>) {
    forall h :: h in hunks ==> OneLine(h.heading) && forall c :: c in h.changes ==> OneLine(c.text)
  }

  /** A line that the parser takes for a file header. */
  predicate Hidden(c: Change) {
    (c.kind.Added? && "++" <= c.text) || (c.kind.Removed? && "--" <= c.text)
  }

  // ---------------------------------------------------------------- what a hunk's lines are

  function Numbered(c: Change, at: Cursor): Line {
    Line(c.kind, c.text, if c.kind.Added? then None else Some(at.oldLine), if c.kind.Removed? then None else Some(at.newLine))
  }

  function Next(at: Cursor, c: Change): Cursor {
    Cursor(if c.kind.Added? then at.oldLine else at.oldLine + 1, if c.kind.Removed? then at.newLine else at.newLine + 1)
  }

  function NumberedChanges(changes: seq<Change>, at: Cursor): seq<Line> {
    if changes == [] then [] else [Numbered(changes[0], at)] + NumberedChanges(changes[1..], Next(at, changes[0]))
  }

  function NumberedHunks(hunks: seq<Hunk>): seq<Line> {
    if hunks == [] then []
    else NumberedChanges(hunks[0].changes, Cursor(hunks[0].oldStart, hunks[0].newStart)) + NumberedHunks(hunks[1..])
  }

  function Shown(changes: seq<Change>): seq<Change> {
    if changes == [] then []
    else if Hidden(changes[0]) then Shown(changes[1..])
    else [changes[0]] + Shown(changes[1..])
  }

  function ShownHunks(hunks: seq<Hunk>): seq<Hunk> {
    if hunks == [] then [] else [hunks[0].(changes := Shown(hunks[0].changes))] + ShownHunks(hunks[1..])
  }

  // ---------------------------------------------------------------- headers round-trip

  lemma {:induction false} DigitsThenOther(digits: string, rest: string)
    requires AllDigits(digits) && (rest != "" ==> !IsDigit(rest[0]))
    ensures DigitsOf(digits + rest) == digits
  {
    if digits == "" {
      assert digits + rest == rest;
    } else {
      assert (digits + rest)[1..] == digits[1..] + rest;
      DigitsThenOther(digits[1..], rest);
    }
  }

  /** What `(?:,\d+)?` matches. */
  predicate IsCount(s: string) {
    s == "" || (|s| > 1 && s[0] == ',' && AllDigits(s[1..]))
  }

  /** The parts of a hunk header as they are written: a start may have leading zeros. */
  datatype HeaderText = HeaderText(oldStart: string, oldCount: string, newStart: string, newCount: string, heading: string)

  predicate Spells(t: HeaderText, raw: string) {
    && raw == "@@ -" + (t.oldStart + t.oldCount + (" +" + (t.newStart + t.newCount + (" @@" + t.heading))))
    && t.oldStart != "" && AllDigits(t.oldStart) && IsCount(t.oldCount)
    && t.newStart != "" && AllDigits(t.newStart) && IsCount(t.newCount)
  }

  lemma CountIsSkipped(count: string, rest: string)
    requires IsCount(count) && rest != "" && !IsDigit(rest[0]) && rest[0] != ','
    ensures SkipCount(count + rest) == Some(rest)
  {
    var s := count + rest;
    if count == "" {
      assert s == rest;
    } else {
      assert s[1..] == count[1..] + rest;
      DigitsThenOther(count[1..], rest);
      assert s[|count|..] == rest;
    }
  }

  lemma SkippedIsCount(s: string) returns (count: string)
    requires SkipCount(s).Some?
    ensures IsCount(count) && s == count + SkipCount(s).value
  {
    if s == "" || s[0] != ',' {
      count := "";
    } else {
      count := s[..1 + |DigitsOf(s[1..])|];
      assert count[1..] == DigitsOf(s[1..]);
    }
  }

  lemma RangeIsRead(start: string, count: string, rest: string)
    requires start != "" && AllDigits(start) && IsCount(count)
    requires rest != "" && !IsDigit(rest[0]) && rest[0] != ','
    ensures TakeRange(start + count + rest) == Some((Value(start), rest))
  {
    var tail := count + rest;
    assert start + count + rest == start + tail;
    DigitsThenOther(start, tail);
    assert (start + tail)[|start|..] == tail;
    CountIsSkipped(count, rest);
  }

  lemma RangeIsSpelled(s: string) returns (start: string, count: string)
    requires TakeRange(s).Some?
    ensures start != "" && AllDigits(start) && IsCount(count)
    ensures s == start + count + TakeRange(s).value.1 && TakeRange(s).value.0 == Value(start)
  {
    start := DigitsOf(s);
    var tail := s[|start|..];
    count := SkippedIsCount(tail);
    var rest := SkipCount(tail).value;
    assert TakeRange(s) == Some((Value(start), rest));
    assert s == start + tail;
    assert start + (count + rest) == start + count + rest;
  }

  lemma AfterPrefix(prefix: string, rest: string)
    ensures After(prefix + rest, prefix) == Some(rest)
  {
    assert (prefix + rest)[|prefix|..] == rest;
  }

  lemma AfterIsRest(s: string, prefix: string)
    requires After(s, prefix).Some?
    ensures s == prefix + After(s, prefix).value
  {
  }

  lemma HeaderIsRead(t: HeaderText, raw: string)
    requires Spells(t, raw)
    ensures HunkHeader(raw) == Some(Cursor(Value(t.oldStart), Value(t.newStart)))
  {
    var d := " @@" + t.heading;
    var c := t.newStart + t.newCount + d;
    var b := " +" + c;
    var a := t.oldStart + t.oldCount + b;
    RangeIsRead(t.newStart, t.newCount, d);
    RangeIsRead(t.oldStart, t.oldCount, b);
    AfterPrefix("@@ -", a);
    AfterPrefix(" +", c);
    AfterPrefix(" @@", t.heading);
  }

  lemma HeaderIsSpelled(raw: string) returns (t: HeaderText)
    requires HunkHeader(raw).Some?
    ensures Spells(t, raw) && HunkHeader(raw) == Some(Cursor(Value(t.oldStart), Value(t.newStart)))
  {
    var a := After(raw, "@@ -").value;
    var oldStart, oldCount := RangeIsSpelled(a);
    var b := TakeRange(a).value.1;
    var c := After(b, " +").value;
    var newStart, newCount := RangeIsSpelled(c);
    var d := TakeRange(c).value.1;
    t := HeaderText(oldStart, oldCount, newStart, newCount, After(d, " @@").value);
    AfterIsRest(d, " @@");
    AfterIsRest(b, " +");
    AfterIsRest(raw, "@@ -");
  }

  /** A line is a hunk header exactly when it can be split into these parts, and it gives their two starts. */
  lemma HeaderMeans(raw: string, at: Cursor)
    ensures HunkHeader(raw) == Some(at) <==>
            exists t: HeaderText :: Spells(t, raw) && at == Cursor(Value(t.oldStart), Value(t.newStart))
  {
    if HunkHeader(raw) == Some(at) {
      var t := HeaderIsSpelled(raw);
      assert Spells(t, raw);
    }
    forall t: HeaderText | Spells(t, raw) ensures HunkHeader(raw) == Some(Cursor(Value(t.oldStart), Value(t.newStart))) {
      HeaderIsRead(t, raw);
    }
  }

  lemma HeaderRoundTrip(h: Hunk)
    ensures HunkHeader(RenderHeader(h)) == Some(Cursor(h.oldStart, h.newStart))
  {
    var t := HeaderText(Show(h.oldStart), RenderCount(h.oldCount), Show(h.newStart), RenderCount(h.newCount), h.heading);
    HeaderIsRead(t, RenderHeader(h));
    ValueShow(h.oldStart);
    ValueShow(h.newStart);
  }

  // ---------------------------------------------------------------- lines round-trip

  /** A change line is read back with its number, unless it looks like a file header: then it vanishes. */
  lemma ChangeRoundTrip(c: Change, at: Cursor)
    ensures HunkHeader(RenderChange(c)).None?
    ensures LinesAt(RenderChange(c), at) == if Hidden(c) then [] else [Numbered(c, at)]
    ensures Advance(at, LinesAt(RenderChange(c), at)) == if Hidden(c) then at else Next(at, c)
  {
    var raw := RenderChange(c);
    assert raw[0] == Mark(c.kind) && raw[1..] == c.text;
    assert "@@ -"[0] == '@';
    assert "+++" == ['+'] + "++" && "---" == ['-'] + "--";
    HiddenIff(c);
    var lines := LinesAt(raw, at);
    assert Advance(Next(at, c), []) == Next(at, c);
    if !Hidden(c) {
      assert lines[1..] == [];
    }
  }

  lemma HiddenIff(c: Change)
    ensures Hidden(c) <==> "+++" <= RenderChange(c) || "---" <= RenderChange(c)
  {
    var raw := RenderChange(c);
    assert raw[1..] == c.text;
    assert "++" <= c.text && c.kind.Added? ==> raw[..3] == "+++";
    assert "--" <= c.text && c.kind.Removed? ==> raw[..3] == "---";
    if "+++" <= raw {
      assert raw[0] == '+' && c.text[..2] == raw[1..3] == "++";
    }
    if "---" <= raw {
      assert raw[0] == '-' && c.text[..2] == raw[1..3] == "--";
    }
  }

  lemma ParseHead(raw: string, rest: seq<string>, at: Cursor, lines: seq<Line>, next: Cursor)
    requires Emitted(raw, Some(at)) == lines && CursorAfter(raw, Some(at)) == Some(next)
    ensures Parse([raw] + rest, Some(at)) == lines + Parse(rest, Some(next))
  {
  }

  lemma EmittedChange(c: Change, at: Cursor)
    ensures Emitted(RenderChange(c), Some(at)) == if Hidden(c) then [] else [Numbered(c, at)]
    ensures CursorAfter(RenderChange(c), Some(at)) == Some(if Hidden(c) then at else Next(at, c))
  {
    ChangeRoundTrip(c, at);
  }

  /** A hunk header ends the hunk before it. */
  lemma ParseNextHunk(rest: seq<string>, at: Cursor)
    requires rest != [] ==> HunkHeader(rest[0]).Some?
    ensures Parse(rest, Some(at)) == Parse(rest, None)
  {
  }

  lemma ShownHead(c: Change, more: seq<Change>, at: Cursor)
    ensures NumberedChanges(Shown([c] + more), at) ==
      if Hidden(c) then NumberedChanges(Shown(more), at)
      else [Numbered(c, at)] + NumberedChanges(Shown(more), Next(at, c))
  {
  }

  lemma {:induction false} ChangesRoundTrip(changes: seq<Change>, at: Cursor, rest: seq<string>)
    requires rest != [] ==> HunkHeader(rest[0]).Some?
    ensures Parse(RenderChanges(changes) + rest, Some(at)) == NumberedChanges(Shown(changes), at) + Parse(rest, None)
  {
    if changes == [] {
      assert RenderChanges(changes) + rest == rest;
      ParseNextHunk(rest, at);
    } else {
      var c, more := changes[0], changes[1..];
      var next := if Hidden(c) then at else Next(at, c);
      var lines := if Hidden(c) then [] else [Numbered(c, at)];
      ChangesRoundTrip(more, next, rest);
      EmittedChange(c, at);
      ParseHead(RenderChange(c), RenderChanges(more) + rest, at, lines, next);
      assert changes == [c] + more;
      ShownHead(c, more, at);
      Rearranged(RenderChange(c), RenderChanges(more), rest, lines, NumberedChanges(Shown(more), next), Parse(rest, None));
    }
  }

  lemma Rearranged(raw: string, raws: seq<string>, rest: seq<string>, lines: seq<Line>, more: seq<Line>, tail: seq<Line>)
    ensures [raw] + (raws + rest) == ([raw] + raws) + rest
    ensures lines + (more + tail) == (lines + more) + tail
    ensures [] + more == more
  {
  }

  lemma {:induction false} HunksRoundTrip(hunks: seq<Hunk>)
    ensures Parse(RenderHunks(hunks), None) == NumberedHunks(ShownHunks(hunks))
    ensures hunks != [] ==> RenderHunks(hunks) != [] && HunkHeader(RenderHunks(hunks)[0]).Some?
  {
    if hunks != [] {
      var h, rest := hunks[0], RenderHunks(hunks[1..]);
      HunksRoundTrip(hunks[1..]);
      HeaderRoundTrip(h);
      ChangesRoundTrip(h.changes, Cursor(h.oldStart, h.newStart), rest);
      assert RenderHunks(hunks) == [RenderHeader(h)] + (RenderChanges(h.changes) + rest);
      assert ShownHunks(hunks)[1..] == ShownHunks(hunks[1..]);
    }
  }

  // ---------------------------------------------------------------- the text of the patch

  lemma {:induction false} RenderedAreOneLine(hunks: seq<Hunk>)
    requires SingleLines(hunks)
    ensures forall raw :: raw in RenderHunks(hunks) ==> OneLine(raw)
  {
    if hunks != [] {
      assert hunks[0] in hunks && forall h :: h in hunks[1..] ==> h in hunks;
      RenderedAreOneLine(hunks[1..]);
      ChangesAreOneLine(hunks[0].changes);
      HeaderIsOneLine(hunks[0]);
    }
  }

  lemma {:induction false} ChangesAreOneLine(changes: seq<Change>)
    requires forall c :: c in changes ==> OneLine(c.text)
    ensures forall raw :: raw in RenderChanges(changes) ==> OneLine(raw)
  {
    if changes != [] {
      assert changes[0] in changes && forall c :: c in changes[1..] ==> c in changes;
      ChangesAreOneLine(changes[1..]);
      var raw := RenderChange(changes[0]);
      assert raw[1..] == changes[0].text;
    }
  }

  lemma HeaderIsOneLine(h: Hunk)
    requires OneLine(h.heading)
    ensures OneLine(RenderHeader(h))
  {
  }

  lemma SplitRendered(hunks: seq<Hunk>)
    requires SingleLines(hunks) && hunks != []
    ensures SplitLines(Render(hunks)) == RenderHunks(hunks)
  {
    RenderedAreOneLine(hunks);
    SplitJoined(RenderHunks(hunks));
  }

  lemma SplitJoined(parts: seq<string>)
    requires parts != [] && forall p :: p in parts ==> OneLine(p)
    ensures SplitLines(Join(parts, '\n')) == parts
  {
    SplitJoin(parts, '\n');
    forall i | 0 <= i < |parts| ensures Chomp(parts[i]) == parts[i] {
      assert parts[i] in parts;
    }
  }

  /** Parsing a rendered diff gives the hunk lines that do not look like file headers, and only those. */
  lemma ParseRender(hunks: seq<Hunk>)
    requires SingleLines(hunks)
    ensures Parse(SplitLines(Render(hunks)), None) == NumberedHunks(ShownHunks(hunks))
  {
    if hunks == [] {
      assert SplitLines("") == [""];
    } else {
      SplitRendered(hunks);
      HunksRoundTrip(hunks);
    }
  }

  // ---------------------------------------------------------------- when nothing is lost

  predicate NothingHidden(hunks: seq<Hunk>) {
    forall h :: h in hunks ==> forall c :: c in h.changes ==> !Hidden(c)
  }

  lemma {:induction false} ShownShorter(changes: seq<Change>)
    ensures |Shown(changes)| <= |changes|
    ensures (|Shown(changes)| == |changes|) <==> (forall c :: c in changes ==> !Hidden(c))
    ensures (forall c :: c in changes ==> !Hidden(c)) ==> Shown(changes) == changes
  {
    if changes != [] {
      ShownShorter(changes[1..]);
      assert changes == [changes[0]] + changes[1..];
    }
  }

  lemma {:induction false} NumberedLength(changes: seq<Change>, at: Cursor)
    ensures |NumberedChanges(changes, at)| == |changes|
  {
    if changes != [] {
      NumberedLength(changes[1..], Next(at, changes[0]));
    }
  }

  lemma {:induction false} HunksLength(hunks: seq<Hunk>)
    ensures |NumberedHunks(ShownHunks(hunks))| <= |NumberedHunks(hunks)|
    ensures |NumberedHunks(ShownHunks(hunks))| == |NumberedHunks(hunks)| <==> NothingHidden(hunks)
    ensures NothingHidden(hunks) ==> ShownHunks(hunks) == hunks
  {
    if hunks != [] {
      var h, rest := hunks[0], hunks[1..];
      HunksLength(rest);
      ShownShorter(h.changes);
      NumberedLength(h.changes, Cursor(h.oldStart, h.newStart));
      NumberedLength(Shown(h.changes), Cursor(h.oldStart, h.newStart));
      assert ShownHunks(hunks)[1..] == ShownHunks(rest);
      assert hunks == [h] + rest;
    }
  }

  /**
   Rendering any hunks and parsing them returns exactly the hunk lines with their numbers if and only if
   no added line's text starts with "++" and no removed line's text starts with "--".
   */
  lemma RoundTripIff(hunks: seq<Hunk>)
    requires SingleLines(hunks)
    ensures Parse(SplitLines(Render(hunks)), None) == NumberedHunks(hunks) <==> NothingHidden(hunks)
  {
    ParseRender(hunks);
    HunksLength(hunks);
  }

  // ---------------------------------------------------------------- where the lines are

  type File = seq<string>

  function OldSide(changes: seq<Change>): File {
    if changes == [] then []
    else (if changes[0].kind.Added? then [] else [changes[0].text]) + OldSide(changes[1..])
  }

  function NewSide(changes: seq<Change>): File {
    if changes == [] then []
    else (if changes[0].kind.Removed? then [] else [changes[0].text]) + NewSide(changes[1..])
  }

  /** A range's start counts from 1; the start of an empty range is the number of lines before it. */
  function LinesBefore(start: nat, side: File): int {
    if side == [] then start else start - 1
  }

  predicate Holds(file: File, at: int, part: File) {
    0 <= at <= at + |part| <= |file| && file[at..at + |part|] == part
  }

  /** The hunks turn lines `o` on of the old file into lines `n` on of the new file. */
  predicate Edits(hunks: seq<Hunk>, before: File, after: File, o: nat, n: nat)
    requires o <= |before| && n <= |after|
    decreases hunks
  {
    if hunks == [] then before[o..] == after[n..]
    else
      var was, now := OldSide(hunks[0].changes), NewSide(hunks[0].changes);
      var o', n' := LinesBefore(hunks[0].oldStart, was), LinesBefore(hunks[0].newStart, now);
      && o <= o' <= |before| && n <= n' <= |after|
      && before[o..o'] == after[n..n']
      && Holds(before, o', was) && Holds(after, n', now)
      && Edits(hunks[1..], before, after, o' + |was|, n' + |now|)
  }

  predicate Sits(file: File, line: Option<nat>, text: string) {
    line.Some? ==> 1 <= line.value <= |file| && file[line.value - 1] == text
  }

  ghost predicate AllSit(lines: seq<Line>, before: File, after: File) {
    forall l :: l in lines ==> Sits(before, l.oldLine, l.text) && Sits(after, l.newLine, l.text)
  }

  /** One side of the remaining changes starts at this line. */
  predicate StartsAt(file: File, line: nat, side: File) {
    side != [] ==> line >= 1 && Holds(file, line - 1, side)
  }

  lemma SideOf(file: File, line: nat, absent: bool, text: string, rest: File)
    requires StartsAt(file, line, (if absent then [] else [text]) + rest)
    ensures !absent ==> Sits(file, Some(line), text)
    ensures StartsAt(file, if absent then line else line + 1, rest)
  {
  }

  lemma {:induction false} ChangesSit(changes: seq<Change>, before: File, after: File, at: Cursor)
    requires StartsAt(before, at.oldLine, OldSide(changes)) && StartsAt(after, at.newLine, NewSide(changes))
    ensures AllSit(NumberedChanges(changes, at), before, after)
  {
    if changes != [] {
      var c, rest := changes[0], changes[1..];
      SideOf(before, at.oldLine, c.kind.Added?, c.text, OldSide(rest));
      SideOf(after, at.newLine, c.kind.Removed?, c.text, NewSide(rest));
      ChangesSit(rest, before, after, Next(at, c));
    }
  }

  lemma {:induction false} HunksSit(hunks: seq<Hunk>, before: File, after: File, o: nat, n: nat)
    requires o <= |before| && n <= |after| && Edits(hunks, before, after, o, n)
    ensures AllSit(NumberedHunks(hunks), before, after)
    decreases hunks
  {
    if hunks != [] {
      var h := hunks[0];
      var was, now := OldSide(h.changes), NewSide(h.changes);
      HunksSit(hunks[1..], before, after, LinesBefore(h.oldStart, was) + |was|, LinesBefore(h.newStart, now) + |now|);
      ChangesSit(h.changes, before, after, Cursor(h.oldStart, h.newStart));
    }
  }

  /** If the hunks are an edit, every number the parser reports is where that text is in that file. */
  lemma ReportedLinesSit(hunks: seq<Hunk>, before: File, after: File)
    requires SingleLines(hunks) && NothingHidden(hunks) && Edits(hunks, before, after, 0, 0)
    ensures AllSit(Parse(SplitLines(Render(hunks)), None), before, after)
  {
    RoundTripIff(hunks);
    HunksSit(hunks, before, after, 0, 0);
  }

  // ---------------------------------------------------------------- lines that are not part of the diff

  /** A line such as "\\ No newline at end of file": no header, and none of the three marks in front. */
  predicate Noise(raw: string) {
    HunkHeader(raw).None? && (raw == "" || (raw[0] != '+' && raw[0] != '-' && raw[0] != ' '))
  }

  lemma {:induction false} ParseCons(raw: string, rest: seq<string>, at: Option<Cursor>)
    ensures Parse([raw] + rest, at) == Emitted(raw, at) + Parse(rest, CursorAfter(raw, at))
  {
    assert ([raw] + rest)[1..] == rest;
  }

  lemma NoiseEmitsNothing(raw: string, at: Option<Cursor>)
    requires Noise(raw)
    ensures Emitted(raw, at) == [] && CursorAfter(raw, at) == at
  {
  }

  /** Such lines are skipped wherever they stand, and count for no line number. */
  lemma {:induction false} NoiseIsSkipped(before: seq<string>, raw: string, after: seq<string>, at: Option<Cursor>)
    requires Noise(raw)
    ensures Parse(before + [raw] + after, at) == Parse(before + after, at)
  {
    if before == [] {
      assert before + [raw] + after == [raw] + after && before + after == after;
      ParseCons(raw, after, at);
      NoiseEmitsNothing(raw, at);
    } else {
      var rest, next := before[1..], CursorAfter(before[0], at);
      assert before + [raw] + after == [before[0]] + (rest + [raw] + after) && before + after == [before[0]] + (rest + after);
      ParseCons(before[0], rest + [raw] + after, at);
      ParseCons(before[0], rest + after, at);
      NoiseIsSkipped(rest, raw, after, next);
    }
  }

  lemma NoNewlineIsNoise()
    ensures Noise("\\ No newline at end of file")
  {
  }
}
