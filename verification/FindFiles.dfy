/**
 The recursive file search of project detection over a flat map of paths
 (packages/adapters-lang/src/detectors.ts `findFiles`, context.ts `createMemoryDetectionContext`).
 The map's keys are paths that `safeRelativePath` leaves unchanged.
 */
module FindFiles {
  import opened Text
  import opened Verdict

  type Files = map<string, string>

  const MAX_DETECTION_DEPTH := 8
  const SKIPPED_DETECTION_DIRECTORIES := [".git", "node_modules", "target", ".next", "dist", "build", "coverage"]

  // ---------------------------------------------------------------- segments

  function Segments(path: string): (segments: seq<string>)
    ensures |segments| >= 1
  {
    Split(path, '/')
  }

  /** The repository root is the empty path and has no segments. */
  function DirectorySegments(directory: string): seq<string> {
    if directory == "" then [] else Segments(directory)
  }

  predicate WellFormedPath(path: string) {
    forall s :: s in Segments(path) ==> s != ""
  }

  ghost predicate WellFormedFiles(files: Files) {
    forall path :: path in files ==> WellFormedPath(path)
  }

  predicate Below(directory: string, path: string) {
    var d := DirectorySegments(directory);
    |Segments(path)| > |d| && Segments(path)[..|d|] == d
  }

  function Start(directory: string): string {
    if directory == "" then "" else directory + "/"
  }

  function Child(directory: string, entry: string): string {
    if directory == "" then entry else directory + "/" + entry
  }

  /** The entry of `directory` through which a path below it goes. */
  function EntryOf(directory: string, path: string): string
    requires Below(directory, path)
  {
    Segments(path)[|DirectorySegments(directory)|]
  }

  lemma {:induction false} SplitConcat(a: string, b: string)
    ensures Split(a + "/" + b, '/') == Split(a, '/') + Split(b, '/')
  {
    if a == "" {
      assert ("" + "/" + b)[1..] == b;
      assert [""] + Split(b, '/') == Split("", '/') + Split(b, '/');
    } else {
      var rest := Split(a[1..], '/');
      assert (a + "/" + b)[1..] == a[1..] + "/" + b;
      SplitConcat(a[1..], b);
      if a[0] == '/' {
        assert [""] + (rest + Split(b, '/')) == ([""] + rest) + Split(b, '/');
      } else {
        assert [[a[0]] + rest[0]] + (rest + Split(b, '/'))[1..] == ([[a[0]] + rest[0]] + rest[1..]) + Split(b, '/');
      }
    }
  }

  lemma {:induction false} JoinConcat(a: seq<string>, b: seq<string>)
    requires a != [] && b != []
    ensures Join(a + b, '/') == Join(a, '/') + "/" + Join(b, '/')
  {
    if |a| == 1 {
      assert (a + b)[1..] == b;
    } else {
      assert (a + b)[1..] == a[1..] + b;
      JoinConcat(a[1..], b);
    }
  }

  /** A path starts with the directory and a slash exactly when it is below it, and what follows is its remaining segments. */
  lemma StartsBelow(directory: string, path: string)
    ensures Start(directory) <= path <==> Below(directory, path)
    ensures Below(directory, path) ==>
      Segments(path[|Start(directory)|..]) == Segments(path)[|DirectorySegments(directory)|..]
  {
    if directory == "" {
      assert path[0..] == path && Segments(path)[0..] == Segments(path);
    } else {
      var d := Segments(directory);
      if Start(directory) <= path {
        var rest := path[|Start(directory)|..];
        assert path == directory + "/" + rest;
        SplitConcat(directory, rest);
        assert (d + Segments(rest))[..|d|] == d && (d + Segments(rest))[|d|..] == Segments(rest);
      }
      if Below(directory, path) {
        var rest := Segments(path)[|d|..];
        assert Segments(path) == d + rest;
        JoinSplit(path, '/');
        JoinSplit(directory, '/');
        JoinConcat(d, rest);
        assert path == Start(directory) + Join(rest, '/');
      }
    }
  }

  lemma ChildSegments(directory: string, entry: string)
    requires entry != "" && '/' !in entry
    ensures DirectorySegments(Child(directory, entry)) == DirectorySegments(directory) + [entry]
    ensures Child(directory, entry) != ""
  {
    SplitPlain(entry, '/');
    if directory != "" {
      SplitConcat(directory, entry);
    }
  }

  lemma EntryIsPlain(files: Files, directory: string, path: string)
    requires WellFormedFiles(files) && path in files && Below(directory, path)
    ensures EntryOf(directory, path) != "" && '/' !in EntryOf(directory, path)
  {
    JoinSplit(path, '/');
    assert EntryOf(directory, path) in Segments(path);
  }

  // ---------------------------------------------------------------- listing

  ghost predicate IsEntry(files: Files, directory: string, entry: string) {
    exists path :: path in files && Below(directory, path) && EntryOf(directory, path) == entry
  }

  /** The sorted names of what is directly below a directory, each once. */
  method ListDirectory(files: Files, directory: string) returns (entries: seq<string>)
    ensures StrictlyAscending(entries)
    ensures forall e :: e in entries <==> IsEntry(files, directory, e)
  {
    var start := Start(directory);
    var keys := files.Keys;
    entries := [];
    while keys != {}
      invariant keys <= files.Keys && StrictlyAscending(entries)
      invariant forall e :: e in entries <==>
        exists path :: path in files && path !in keys && Below(directory, path) && EntryOf(directory, path) == e
      decreases |keys|
    {
      var file :| file in keys;
      ghost var was, before := entries, keys;
      keys := keys - {file};
      StartsBelow(directory, file);
      if start <= file {
        var entry := Split(file[|start|..], '/')[0];
        assert entry == EntryOf(directory, file);
        InsertUniqueSorts(entry, entries);
        entries := InsertUnique(entry, entries);
      }
      forall e ensures e in entries <==>
        exists path :: path in files && path !in keys && Below(directory, path) && EntryOf(directory, path) == e
      {
        if e in entries && !(e in was) {
          assert file in files && file !in keys && Below(directory, file) && EntryOf(directory, file) == e;
        }
      }
    }
  }

  // ---------------------------------------------------------------- searching

  /** What the search below a directory is for, at some depth. */
  predicate Wanted(files: Files, names: seq<string>, directory: string, depth: nat, path: string) {
    var d := |DirectorySegments(directory)|;
    var s := Segments(path);
    && path in files && Below(directory, path)
    && s[|s| - 1] in names
    && (forall k :: d <= k < |s| ==> s[k] !in SKIPPED_DETECTION_DIRECTORIES)
    && |s| - d + depth <= MAX_DETECTION_DEPTH + 1
  }

  /** A wanted path is the entry itself, or is wanted one level down. */
  lemma WantedStep(files: Files, names: seq<string>, directory: string, depth: nat, path: string)
    requires WellFormedFiles(files) && path in files && Below(directory, path) && depth <= MAX_DETECTION_DEPTH
    ensures var entry := EntryOf(directory, path);
      Wanted(files, names, directory, depth, path) <==>
        && entry !in SKIPPED_DETECTION_DIRECTORIES
        && ((path == Child(directory, entry) && entry in names)
            || (path != Child(directory, entry) && depth < MAX_DETECTION_DEPTH && Wanted(files, names, Child(directory, entry), depth + 1, path)))
  {
    var d, s, entry := DirectorySegments(directory), Segments(path), EntryOf(directory, path);
    EntryIsPlain(files, directory, path);
    ChildSegments(directory, entry);
    if |s| == |d| + 1 {
      assert s == d + [entry];
      SamePath(path, directory, entry);
    } else {
      assert s[..|d| + 1] == d + [entry];
      assert path != Child(directory, entry);
    }
  }

  lemma SamePath(path: string, directory: string, entry: string)
    requires entry != "" && '/' !in entry && Segments(path) == DirectorySegments(directory) + [entry]
    ensures path == Child(directory, entry)
  {
    ChildSegments(directory, entry);
    JoinSplit(path, '/');
    JoinSplit(Child(directory, entry), '/');
  }

  ghost predicate NoRepeats(paths: seq<string>) {
    forall i, j :: 0 <= i < j < |paths| ==> paths[i] != paths[j]
  }

  /** Sorting paths without repeats loses none. */
  lemma {:induction false} SortKeepsAll(paths: seq<string>)
    requires NoRepeats(paths)
    ensures |SortedUnique(paths)| == |paths|
  {
    if paths != [] {
      var rest := paths[1..];
      assert forall i :: 0 <= i < |rest| ==> rest[i] == paths[i + 1];
      SortKeepsAll(rest);
      SortedUniqueSorts(rest);
      InsertGrows(paths[0], SortedUnique(rest));
    }
  }

  lemma {:induction false} InsertGrows(s: string, sorted: seq<string>)
    requires s !in sorted
    ensures |InsertUnique(s, sorted)| == |sorted| + 1
  {
    if sorted != [] {
      assert sorted == [sorted[0]] + sorted[1..];
      InsertGrows(s, sorted[1..]);
    }
  }

  /** What has been found through the first `k` entries. */
  ghost predicate FoundThrough(files: Files, names: seq<string>, directory: string, depth: nat,
                               entries: seq<string>, k: nat, matches: seq<string>) {
    && NoRepeats(matches)
    && forall path :: path in matches <==>
         Wanted(files, names, directory, depth, path) && exists i :: 0 <= i < k && i < |entries| && entries[i] == EntryOf(directory, path)
  }

  /** The paths found through one entry. */
  ghost predicate FoundAt(files: Files, names: seq<string>, directory: string, depth: nat, entry: string,
                          more: seq<string>) {
    && NoRepeats(more)
    && forall path :: path in more <==> Wanted(files, names, directory, depth, path) && EntryOf(directory, path) == entry
  }

  lemma OneEntryMore(files: Files, names: seq<string>, directory: string, depth: nat, entries: seq<string>, k: nat,
                     matches: seq<string>, more: seq<string>)
    requires k < |entries| && StrictlyAscending(entries)
    requires FoundThrough(files, names, directory, depth, entries, k, matches)
    requires FoundAt(files, names, directory, depth, entries[k], more)
    ensures FoundThrough(files, names, directory, depth, entries, k + 1, matches + more)
  {
    var all := matches + more;
    forall path | path in matches ensures path !in more {
      var i :| 0 <= i < k && entries[i] == EntryOf(directory, path);
      LessIsStrictTotal(entries[i], entries[k]);
    }
    forall i, j | 0 <= i < j < |all| ensures all[i] != all[j] {
      if i < |matches| <= j {
        assert all[i] in matches && all[j] == more[j - |matches|] && all[j] in more;
      }
    }
    forall path ensures path in all <==>
      Wanted(files, names, directory, depth, path) && exists i :: 0 <= i < k + 1 && i < |entries| && entries[i] == EntryOf(directory, path)
    {
      assert path in all <==> path in matches || path in more;
    }
  }

  /** One entry: itself if it is a wanted file, and what is below it if the search may go deeper. */
  method FindThrough(files: Files, names: seq<string>, directory: string, depth: nat,
                     entry: string) returns (more: seq<string>)
    requires WellFormedFiles(files) && depth <= MAX_DETECTION_DEPTH && IsEntry(files, directory, entry)
    ensures FoundAt(files, names, directory, depth, entry, more)
    decreases MAX_DETECTION_DEPTH - depth, 0
  {
    if entry in SKIPPED_DETECTION_DIRECTORIES {
      SkippedFindsNothing(files, names, directory, depth, entry);
      return [];
    }
    var path := Child(directory, entry);
    var self := if entry in names && path in files then [path] else [];
    var deeper: seq<string> := [];
    var below := ListDirectory(files, path);
    if depth < MAX_DETECTION_DEPTH && |below| > 0 {
      deeper := Search(files, names, path, depth + 1);
    }
    WantedNeedsEntry(files, names, path, depth + 1, below);
    Combine(files, names, directory, depth, entry, self, deeper);
    more := self + deeper;
  }

  lemma SkippedFindsNothing(files: Files, names: seq<string>, directory: string, depth: nat, entry: string)
    requires WellFormedFiles(files) && depth <= MAX_DETECTION_DEPTH && entry in SKIPPED_DETECTION_DIRECTORIES
    ensures FoundAt(files, names, directory, depth, entry, [])
  {
  }

  lemma AscendingHasNoRepeats(paths: seq<string>)
    requires StrictlyAscending(paths)
    ensures NoRepeats(paths)
  {
    forall i, j | 0 <= i < j < |paths| ensures paths[i] != paths[j] {
      LessIsStrictTotal(paths[i], paths[j]);
    }
  }

  /** The file itself and the files below it are all that is wanted through an entry. */
  lemma Combine(files: Files, names: seq<string>, directory: string, depth: nat, entry: string,
                self: seq<string>, deeper: seq<string>)
    requires WellFormedFiles(files) && depth <= MAX_DETECTION_DEPTH && IsEntry(files, directory, entry)
    requires entry !in SKIPPED_DETECTION_DIRECTORIES
    requires self == if entry in names && Child(directory, entry) in files then [Child(directory, entry)] else []
    requires StrictlyAscending(deeper)
    requires forall path :: path in deeper <==>
      depth < MAX_DETECTION_DEPTH && Wanted(files, names, Child(directory, entry), depth + 1, path)
    ensures FoundAt(files, names, directory, depth, entry, self + deeper)
  {
    var some :| some in files && Below(directory, some) && EntryOf(directory, some) == entry;
    EntryIsPlain(files, directory, some);
    ChildIsBelow(directory, entry);
    WantedBelowChild(files, names, directory, depth, entry);
    AscendingHasNoRepeats(deeper);
    var more := self + deeper;
    forall i, j | 0 <= i < j < |more| ensures more[i] != more[j] {
      if i < |self| {
        assert more[j] == deeper[j - |self|] && more[j] in deeper;
      }
    }
    forall path ensures path in more <==> Wanted(files, names, directory, depth, path) && EntryOf(directory, path) == entry {
      assert path in more <==> path in self || path in deeper;
      if path in files && Below(directory, path) {
        WantedStep(files, names, directory, depth, path);
      }
    }
  }

  lemma ChildIsBelow(directory: string, entry: string)
    requires entry != "" && '/' !in entry
    ensures Below(directory, Child(directory, entry)) && EntryOf(directory, Child(directory, entry)) == entry
    ensures !Below(Child(directory, entry), Child(directory, entry))
  {
    ChildSegments(directory, entry);
    var d := DirectorySegments(directory);
    assert Segments(Child(directory, entry)) == d + [entry];
    assert (d + [entry])[..|d|] == d;
  }

  /** Whatever is wanted below a child goes through that child. */
  lemma WantedBelowChild(files: Files, names: seq<string>, directory: string, depth: nat, entry: string)
    requires entry != "" && '/' !in entry
    ensures forall path :: Wanted(files, names, Child(directory, entry), depth + 1, path) ==>
      Below(directory, path) && EntryOf(directory, path) == entry && path != Child(directory, entry)
  {
    ChildSegments(directory, entry);
    ChildIsBelow(directory, entry);
    var d := DirectorySegments(directory);
    forall path | Wanted(files, names, Child(directory, entry), depth + 1, path)
      ensures Below(directory, path) && EntryOf(directory, path) == entry && path != Child(directory, entry)
    {
      var s := Segments(path);
      assert s[..|d| + 1] == d + [entry];
      assert s[..|d|] == s[..|d| + 1][..|d|] == d;
      assert s[|d|] == s[..|d| + 1][|d|] == entry;
    }
  }

  lemma WantedNeedsEntry(files: Files, names: seq<string>, directory: string, depth: nat, entries: seq<string>)
    requires forall e :: e in entries <==> IsEntry(files, directory, e)
    ensures forall path :: Wanted(files, names, directory, depth, path) ==> entries != []
  {
  }

  /**
   The walk terminates and returns exactly, once each and sorted, the files whose name is wanted, with no
   skipped segment on the way and within the depth.
   */
  method Search(files: Files, names: seq<string>, directory: string, depth: nat) returns (matches: seq<string>)
    requires WellFormedFiles(files) && depth <= MAX_DETECTION_DEPTH
    ensures StrictlyAscending(matches)
    ensures forall path :: path in matches <==> Wanted(files, names, directory, depth, path)
    decreases MAX_DETECTION_DEPTH - depth, 1
  {
    var entries := ListDirectory(files, directory);
    var found: seq<string>, k := [], 0;
    while k < |entries|
      invariant 0 <= k <= |entries|
      invariant FoundThrough(files, names, directory, depth, entries, k, found)
    {
      assert entries[k] in entries;
      var more := FindThrough(files, names, directory, depth, entries[k]);
      OneEntryMore(files, names, directory, depth, entries, k, found, more);
      found := found + more;
      k := k + 1;
    }
    forall path | Wanted(files, names, directory, depth, path) ensures path in found {
      assert IsEntry(files, directory, EntryOf(directory, path));
      var i :| 0 <= i < |entries| && entries[i] == EntryOf(directory, path);
    }
    SortKeepsAll(found);
    SortedUniqueSorts(found);
    matches := SortedUnique(found);
  }

  /** From the root: at most one segment more than the maximum depth, and no segment skipped. */
  lemma WantedFromRoot(files: Files, names: seq<string>, path: string)
    ensures Wanted(files, names, "", 0, path) <==>
      && path in files
      && Segments(path)[|Segments(path)| - 1] in names
      && (forall s :: s in Segments(path) ==> s !in SKIPPED_DETECTION_DIRECTORIES)
      && |Segments(path)| <= MAX_DETECTION_DEPTH + 1
  {
  }

  /** As every detector calls it: the wanted files of the whole repository, sorted and once each. */
  method FindFromRoot(files: Files, names: seq<string>) returns (matches: seq<string>)
    requires WellFormedFiles(files)
    ensures StrictlyAscending(matches)
    ensures forall path :: path in matches <==>
      && path in files
      && Segments(path)[|Segments(path)| - 1] in names
      && (forall s :: s in Segments(path) ==> s !in SKIPPED_DETECTION_DIRECTORIES)
      && |Segments(path)| <= MAX_DETECTION_DEPTH + 1
  {
    matches := Search(files, names, "", 0);
    forall path {
      WantedFromRoot(files, names, path);
    }
  }
}
