/**
 The verified transfer of a dependency artifact into a composed tree, and the composition of a source
 tree with it (packages/engine/src/dependency-provisioning.ts, environment-materializer.ts).

 The order in which the file system reports a directory is a parameter, and may be different every time
 a directory is read, at every level of a tree: nothing is assumed of it except that every entry is
 reported once.
 */
module DependencyTransfer {
  import opened NameOrder
  import opened Options
  import opened ArtifactTree
  import opened ArtifactListing

  const DEFAULT_LIMITS := Limits(0x8000_0000, 100_000)

  // ---------------------------------------------------------------- the hash, computed by one walk

  function CanonEach(entries: seq<Entry>, less: (string, string) -> bool): seq<Entry> {
    if entries == [] then []
    else [Entry(entries[0].name, Canon(entries[0].node, less))] + CanonEach(entries[1..], less)
  }

  lemma {:induction false} CanonEachOfInserted(e: Entry, sorted: seq<Entry>, less: (string, string) -> bool)
    ensures CanonEach(Insert(e, sorted, less), less)
      == Insert(Entry(e.name, Canon(e.node, less)), CanonEach(sorted, less), less)
  {
    var l := Insert(e, sorted, less);
    if sorted != [] && less(sorted[0].name, e.name) {
      CanonEachOfInserted(e, sorted[1..], less);
      assert l[1..] == Insert(e, sorted[1..], less);
      assert CanonEach(sorted, less)[1..] == CanonEach(sorted[1..], less);
    } else {
      assert l[1..] == sorted;
    }
  }

  /** Sorting a directory before or after its subdirectories gives the same tree. */
  lemma {:induction false} CanonAfterSort(entries: seq<Entry>, less: (string, string) -> bool)
    ensures CanonEntries(entries, less) == CanonEach(Sort(entries, less), less)
  {
    if entries != [] {
      CanonAfterSort(entries[1..], less);
      CanonEachOfInserted(entries[0], Sort(entries[1..], less), less);
    }
  }

  lemma {:induction false} SortMembers(entries: seq<Entry>, less: (string, string) -> bool)
    ensures multiset(Sort(entries, less)) == multiset(entries)
  {
    if entries != [] {
      SortMembers(entries[1..], less);
      InsertMembers(entries[0], Sort(entries[1..], less), less);
      assert entries == [entries[0]] + entries[1..];
    }
  }

  lemma SortKeepsSupport(entries: seq<Entry>, less: (string, string) -> bool)
    ensures Supported(Sort(entries, less)) <==> Supported(entries)
  {
    SortMembers(entries, less);
    SameMembers(Sort(entries, less), entries);
    SupportedIff(entries);
    SupportedIff(Sort(entries, less));
  }

  /** The files of one entry, its directories visited in sorted order. */
  function Mine(e: Entry, prefix: Path, less: (string, string) -> bool): seq<Record> {
    FilesOf(Entry(e.name, Canon(e.node, less)), prefix)
  }

  /** The files of entries visited in the order given. */
  function Walked(entries: seq<Entry>, prefix: Path, less: (string, string) -> bool): seq<Record> {
    if entries == [] then [] else Mine(entries[0], prefix, less) + Walked(entries[1..], prefix, less)
  }

  lemma {:induction false} WalkedIsCanonical(entries: seq<Entry>, prefix: Path, less: (string, string) -> bool)
    ensures Walked(entries, prefix, less) == Files(CanonEach(entries, less), prefix)
  {
    if entries != [] {
      WalkedIsCanonical(entries[1..], prefix, less);
      assert CanonEach(entries, less)[1..] == CanonEach(entries[1..], less);
    }
  }

  predicate Within(files: seq<Record>, more: seq<Record>, limits: Limits) {
    Size(files) + Size(more) <= limits.maxBytes && |files| + |more| <= limits.maxFiles
  }

  /** `readEntry`, or the recursive visit of a subdirectory. */
  method VisitEntry(e: Entry, prefix: Path, files: seq<Record>, totalBytes: nat,
                    less: (string, string) -> bool, limits: Limits)
    returns (ok: bool, found: seq<Record>, bytes: nat)
    requires totalBytes == Size(files) <= limits.maxBytes && |files| <= limits.maxFiles
    ensures ok <==> Supported([e]) && Within(files, Mine(e, prefix, less), limits)
    ensures ok ==> found == files + Mine(e, prefix, less)
    ensures ok ==> bytes == Size(found) <= limits.maxBytes && |found| <= limits.maxFiles
    decreases e
  {
    assert [e][1..] == [] && Supported([]);
    if e.node.Unsupported? {
      return false, files, totalBytes;
    } else if e.node.Directory? {
      ok, found, bytes := Visit(e.node.entries, prefix + [e.name], files, totalBytes, less, limits);
    } else {
      var r := Record(prefix + [e.name], e.node.content);
      SizeOfOne(files, r);
      bytes := totalBytes + |e.node.content|;
      if bytes > limits.maxBytes || |files| >= limits.maxFiles {
        return false, files, bytes;
      }
      ok, found := true, files + [r];
    }
  }

  /** The loop over one directory's sorted entries, all of which are entries of `directory`. */
  method VisitAll(sorted: seq<Entry>, ghost directory: seq<Entry>, prefix: Path, files: seq<Record>, totalBytes: nat,
                  less: (string, string) -> bool, limits: Limits)
    returns (ok: bool, found: seq<Record>, bytes: nat)
    requires totalBytes == Size(files) <= limits.maxBytes && |files| <= limits.maxFiles
    requires forall e :: e in sorted ==> e in directory
    ensures ok <==> Supported(sorted) && Within(files, Walked(sorted, prefix, less), limits)
    ensures ok ==> found == files + Walked(sorted, prefix, less)
    ensures ok ==> bytes == Size(found) <= limits.maxBytes && |found| <= limits.maxFiles
    decreases directory, 0
  {
    ghost var all := Walked(sorted, prefix, less);
    ok, found, bytes := true, files, totalBytes;
    var i := 0;
    assert sorted[0..] == sorted;
    while i < |sorted|
      invariant 0 <= i <= |sorted|
      invariant bytes == Size(found) <= limits.maxBytes && |found| <= limits.maxFiles
      invariant found + Walked(sorted[i..], prefix, less) == files + all
      invariant Supported(sorted) <==> Supported(sorted[i..])
    {
      ghost var was, rest := found, Walked(sorted[i + 1..], prefix, less);
      assert sorted[i..] == [sorted[i]] + sorted[i + 1..];
      Remaining(sorted[i], sorted[i + 1..], files, all, was, prefix, less, limits);
      assert sorted[i] in directory;
      ok, found, bytes := VisitEntry(sorted[i], prefix, found, bytes, less, limits);
      if !ok {
        return;
      }
      assert found + rest == was + (Mine(sorted[i], prefix, less) + rest);
      i := i + 1;
    }
    assert sorted[i..] == [] && found + [] == found;
    SizeOfParts(files, all);
    ok := true;
  }

  /**
   The walk: entries in sorted order, subdirectories before the next entry, stopping at the first
   entry that is not a file or directory and at the first file over a limit.
   */
  method Visit(entries: seq<Entry>, prefix: Path, files: seq<Record>, totalBytes: nat,
               less: (string, string) -> bool, limits: Limits)
    returns (ok: bool, found: seq<Record>, bytes: nat)
    requires totalBytes == Size(files) <= limits.maxBytes && |files| <= limits.maxFiles
    ensures ok <==> Supported(entries) && Within(files, Files(CanonEntries(entries, less), prefix), limits)
    ensures ok ==> found == files + Files(CanonEntries(entries, less), prefix)
    ensures ok ==> bytes == Size(found) <= limits.maxBytes && |found| <= limits.maxFiles
    decreases entries, 1
  {
    var sorted := Sort(entries, less);
    SortMembers(entries, less);
    SameMembers(sorted, entries);
    SortKeepsSupport(entries, less);
    CanonAfterSort(entries, less);
    WalkedIsCanonical(sorted, prefix, less);
    ok, found, bytes := VisitAll(sorted, entries, prefix, files, totalBytes, less, limits);
  }

  /** If the next entry is refused, so is everything. */
  lemma Remaining(e: Entry, rest: seq<Entry>, files: seq<Record>, all: seq<Record>, found: seq<Record>,
                  prefix: Path, less: (string, string) -> bool, limits: Limits)
    requires found + Walked([e] + rest, prefix, less) == files + all
    ensures Walked([e] + rest, prefix, less) == Mine(e, prefix, less) + Walked(rest, prefix, less)
    ensures Supported([e] + rest) <==> Supported([e]) && Supported(rest)
    ensures Within(files, all, limits) ==> Within(found, Mine(e, prefix, less), limits)
  {
    assert ([e] + rest)[1..] == rest && [e][1..] == [] && Supported([]);
    SizeOfParts(files, all);
    SizeOfParts(found, Walked([e] + rest, prefix, less));
    SizeOfParts(Mine(e, prefix, less), Walked(rest, prefix, less));
    assert |files| + |all| == |files + all| == |found + Walked([e] + rest, prefix, less)|;
  }

  lemma SizeOfOne(files: seq<Record>, r: Record)
    ensures Size([r]) == |r.content| && Size(files + [r]) == Size(files) + |r.content|
  {
    assert [r][1..] == [];
    SizeOfParts(files, [r]);
  }

  /** `artifactDirectoryContentHash`: the walk computes the digest. */
  method HashArtifactTree(entries: seq<Entry>, less: (string, string) -> bool, limits: Limits)
    returns (r: Result<seq<Record>, Error>)
    ensures r == Digest(entries, less, limits)
  {
    var ok, files, bytes := Visit(entries, [], [], 0, less, limits);
    assert [] + Files(CanonEntries(entries, less), []) == Files(CanonEntries(entries, less), []);
    r := if ok then Ok(files) else Err(Rejected);
  }

  // ---------------------------------------------------------------- what depends only on the members of a directory

  lemma FewerMembers(a: seq<Entry>, b: seq<Entry>, prefix: Path)
    requires forall e :: e in a ==> e in b
    ensures forall r :: r in Files(a, prefix) ==> r in Files(b, prefix)
  {
    forall r | r in Files(a, prefix) ensures r in Files(b, prefix) {
      FilesMember(a, prefix, r);
      FilesMember(b, prefix, r);
    }
  }

  lemma {:induction false} NamedMembers(entries: seq<Entry>, names: set<string>)
    ensures forall e :: e in Named(entries, names) <==> e in entries && e.name in names
    ensures UniqueNames(entries) ==> UniqueNames(Named(entries, names))
  {
    if entries != [] {
      var rest := entries[1..];
      NamedMembers(rest, names);
      assert entries == [entries[0]] + rest;
      if UniqueNames(entries) {
        assert UniqueNames(rest) by {
          forall i, j | 0 <= i < j < |rest| ensures rest[i].name != rest[j].name {
            assert rest[i] == entries[i + 1] && rest[j] == entries[j + 1];
          }
        }
        forall e | e in Named(rest, names) ensures e.name != entries[0].name {
          var k :| 0 <= k < |rest| && rest[k] == e;
          assert entries[k + 1] == e;
        }
        UniqueWithHead(entries[0], Named(rest, names));
      }
    }
  }

  /** Some top-level name is in both. */
  predicate Conflicts(part: seq<Entry>, base: seq<Entry>) {
    TopNames(part) * TopNames(base) != {}
  }

  /** `whole` holds the entries of `base` and of `part`, in any order. */
  ghost predicate Union(whole: seq<Entry>, base: seq<Entry>, part: seq<Entry>) {
    multiset(whole) == multiset(base) + multiset(part)
  }

  lemma UnionMembers(whole: seq<Entry>, base: seq<Entry>, part: seq<Entry>)
    requires Union(whole, base, part)
    ensures forall e :: e in whole <==> e in base || e in part
  {
    forall e ensures e in whole <==> e in base || e in part {
      assert e in whole <==> e in multiset(whole);
      assert e in base <==> e in multiset(base);
      assert e in part <==> e in multiset(part);
    }
  }

  /** What is seen of the artifact in a relisted whole is a relisting of the artifact. */
  lemma NamedRelisted(whole: seq<Entry>, seen: seq<Entry>, base: seq<Entry>, part: seq<Entry>)
    requires Relisted(whole, seen) && Union(whole, base, part)
    ensures Relisted(part, Named(seen, TopNames(part)))
  {
    var named := Named(seen, TopNames(part));
    UnionMembers(whole, base, part);
    NamedMembers(seen, TopNames(part));
    forall n ensures n in TopNames(named) <==> n in TopNames(part) {
      if n in TopNames(part) {
        var e :| e in part && e.name == n;
        var f := Counterpart(whole, seen, e);
        assert f in named;
      }
    }
  }

  /**
   Hashing the artifact's entries where they lie in the composed tree is hashing a directory that
   holds only them, however the directories of either are listed when they are read.
   */
  lemma EntriesHashInPlace(whole: seq<Entry>, wholeSeen: seq<Entry>, base: seq<Entry>, part: seq<Entry>,
                           partSeen: seq<Entry>, less: (string, string) -> bool, limits: Limits)
    requires WellFormed(whole) && WellFormed(part) && Union(whole, base, part) && !Conflicts(part, base)
    requires Relisted(whole, wholeSeen) && Relisted(part, partSeen)
    requires OrderFree(part, less)
    ensures EntriesDigest(wholeSeen, TopNames(part), less, limits) == Digest(partSeen, less, limits) == Digest(part, less, limits)
  {
    NamedRelisted(whole, wholeSeen, base, part);
    RelistedDigest(part, Named(wholeSeen, TopNames(part)), less, limits);
    RelistedDigest(part, partSeen, less, limits);
  }

  /** The files of the union are the files of both, unchanged, and nothing else; no path is in both. */
  lemma UnionFiles(whole: seq<Entry>, base: seq<Entry>, part: seq<Entry>)
    requires Union(whole, base, part) && !Conflicts(part, base)
    ensures forall r :: r in Files(whole, []) <==> r in Files(base, []) || r in Files(part, [])
    ensures forall r, t :: r in Files(base, []) && t in Files(part, []) ==> r.path != t.path
  {
    FilesAreBelow(base, []);
    FilesAreBelow(part, []);
    forall n | n in TopNames(base) ensures n !in TopNames(part) {
      assert n in TopNames(part) ==> n in TopNames(part) * TopNames(base);
    }
    forall r, t | r in Files(base, []) && t in Files(part, []) ensures r.path != t.path {
      assert r.path[0] in TopNames(base) && t.path[0] in TopNames(part);
    }
    UnionMembers(whole, base, part);
    FewerMembers(base, whole, []);
    FewerMembers(part, whole, []);
    FilesOfMembers(whole, base, part);
  }

  lemma FilesOfMembers(some: seq<Entry>, base: seq<Entry>, part: seq<Entry>)
    requires forall e :: e in some ==> e in base || e in part
    ensures forall r :: r in Files(some, []) ==> r in Files(base, []) || r in Files(part, [])
  {
    forall r | r in Files(some, []) ensures r in Files(base, []) || r in Files(part, []) {
      FilesMember(some, [], r);
      FilesMember(base, [], r);
      FilesMember(part, [], r);
    }
  }

  lemma AddedEntry(entries: seq<Entry>, e: Entry)
    requires WellFormed(entries) && e.name !in TopNames(entries) && (e.node.Directory? ==> WellFormed(e.node.entries))
    ensures WellFormed(entries + [e])
  {
    var l := entries + [e];
    WellFormedIff(entries);
    WellFormedIff(l);
    forall i, j | 0 <= i < j < |l| ensures l[i].name != l[j].name {
      assert l[i] == entries[i] && entries[i] in entries;
      assert entries[i].name in TopNames(entries);
    }
  }

  lemma {:induction false} CanonEachNames(entries: seq<Entry>, less: (string, string) -> bool)
    ensures |CanonEach(entries, less)| == |entries|
    ensures forall i :: 0 <= i < |entries| ==> CanonEach(entries, less)[i].name == entries[i].name
  {
    if entries != [] {
      CanonEachNames(entries[1..], less);
      forall i | 0 < i < |entries| ensures CanonEach(entries, less)[i].name == entries[i].name {
        assert entries[i] == entries[1..][i - 1];
        assert CanonEach(entries, less)[i] == CanonEach(entries[1..], less)[i - 1];
      }
    }
  }

  lemma {:induction false} SortWeakly(entries: seq<Entry>, less: (string, string) -> bool)
    requires WeakOrder(less)
    ensures WeaklyAscending(Sort(entries, less), less)
  {
    if entries != [] {
      SortWeakly(entries[1..], less);
      InsertWeakly(entries[0], Sort(entries[1..], less), less);
    }
  }

  // ---------------------------------------------------------------- the transfer

  /**
   How the file system lists directories: `readdir` one directory, `walk` all directories of a tree that
   is hashed; the number tells the readings of one composition apart.
   */
  datatype Listing = Listing(readdir: (nat, seq<Entry>) -> seq<Entry>, walk: (nat, seq<Entry>) -> seq<Entry>)

  /** Every entry is listed once, in any order, which may be another one at every reading. */
  ghost predicate Lists(listing: Listing) {
    && (forall k, entries :: multiset(listing.readdir(k, entries)) == multiset(entries))
    && (forall k, entries :: WellFormed(entries) ==> Relisted(entries, listing.walk(k, entries)))
  }

  function Labels(entries: seq<Entry>): (names: seq<string>)
    ensures |names| == |entries| && forall i :: 0 <= i < |entries| ==> names[i] == entries[i].name
  {
    seq(|entries|, i requires 0 <= i < |entries| => entries[i].name)
  }

  ghost predicate Keeps(before: seq<Entry>, after: seq<Entry>) {
    multiset(before) <= multiset(after)
  }

  ghost predicate SameEntries(a: seq<Entry>, b: seq<Entry>) {
    multiset(a) == multiset(b) && TopNames(a) == TopNames(b)
  }

  function CopyFailure(copied: seq<Entry>, trusted: seq<Record>, less: (string, string) -> bool): Option<Error> {
    var copy := Digest(copied, less, DEFAULT_LIMITS);
    if copy.Err? then Some(copy.error) else if copy.value != trusted then Some(CopyMismatch) else None
  }

  /** What the transfer answers: the copy must hash to the trusted hash, and share no name with the tree. */
  function Outcome(copied: seq<Entry>, destination: seq<Entry>, trusted: seq<Record>,
                   less: (string, string) -> bool): Option<Error> {
    var copyFailure := CopyFailure(copied, trusted, less);
    if copyFailure.None? && Conflicts(copied, destination) then Some(PathConflict) else copyFailure
  }

  lemma PermutedWellFormed(a: seq<Entry>, b: seq<Entry>)
    requires multiset(a) == multiset(b) && WellFormed(a)
    ensures WellFormed(b) && TopNames(a) == TopNames(b)
  {
    SameMembers(a, b);
    WellFormedIff(a);
    WellFormedIff(b);
    forall i, j | 0 <= i < j < |b| ensures b[i].name != b[j].name {
      TwiceInList(b, i, j);
      OnceInUnique(a, b[i]);
      DifferentNames(a, b[i], b[j]);
    }
  }

  lemma DifferentNames(a: seq<Entry>, e: Entry, f: Entry)
    requires UniqueNames(a) && e in a && f in a && e != f
    ensures e.name != f.name
  {
  }

  function IndexOf(a: seq<Entry>, e: Entry): (k: nat)
    requires e in a
    ensures k < |a| && a[k] == e
  {
    if a[0] == e then 0 else 1 + IndexOf(a[1..], e)
  }

  lemma TwiceInList(b: seq<Entry>, i: nat, j: nat)
    requires i < j < |b|
    ensures b[i] == b[j] ==> multiset(b)[b[i]] >= 2
  {
    assert b == b[..j] + [b[j]] + b[j + 1..];
    assert b[i] == b[..j][i] && b[i] in b[..j];
    assert multiset(b) == multiset(b[..j]) + multiset{b[j]} + multiset(b[j + 1..]);
  }

  lemma {:induction false} OnceInUnique(a: seq<Entry>, e: Entry)
    requires UniqueNames(a)
    ensures multiset(a)[e] <= 1
  {
    if a != [] {
      var rest := a[1..];
      assert a == [a[0]] + rest;
      assert multiset(a) == multiset{a[0]} + multiset(rest);
      forall i, j | 0 <= i < j < |rest| ensures rest[i].name != rest[j].name {
        assert rest[i] == a[i + 1] && rest[j] == a[j + 1];
      }
      forall i | 0 <= i < |rest| ensures rest[i] != a[0] {
        assert rest[i] == a[i + 1];
      }
      OnceInUnique(rest, e);
      assert e !in rest ==> multiset(rest)[e] == 0;
    }
  }

  /** The private directories of one composition: the tree being composed and the copied artifact. */
  class Staging {
    var scratch: seq<Entry>
    var destination: seq<Entry>

    constructor ()
      ensures scratch == [] && destination == []
    {
      scratch, destination := [], [];
    }

    /** Moves every entry, in sorted order, unless the tree already has one of that name. */
    method MoveAll(sorted: seq<Entry>, ghost part: seq<Entry>) returns (moved: bool)
      requires WellFormed(destination) && WellFormed(sorted) && SameEntries(sorted, part)
      modifies this
      ensures WellFormed(destination) && Keeps(old(destination), destination)
      ensures moved <==> !Conflicts(part, old(destination))
      ensures moved ==> Union(destination, old(destination), part) && scratch == []
    {
      ghost var before := destination;
      var i := 0;
      assert destination + sorted[..0] == destination;
      while i < |sorted|
        invariant 0 <= i <= |sorted|
        invariant destination == before + sorted[..i]
        invariant WellFormed(destination)
        invariant forall k :: 0 <= k < i ==> sorted[k].name !in TopNames(before)
      {
        if sorted[i].name in TopNames(destination) {
          ConflictFound(before, sorted, part, i);
          return false;
        }
        OneMore(before, sorted, i);
        destination := destination + [sorted[i]];
        scratch := sorted[i + 1..];
        i := i + 1;
      }
      AppendedUnion(before, sorted, part);
      NothingConflicts(before, sorted, part);
      assert sorted[..i] == sorted;
      scratch := [];
      moved := true;
    }

    /** The copied bytes against the trusted hash; when no tie can show, however they are listed. */
    method VerifyCopy(copied: seq<Entry>, trusted: seq<Record>, less: (string, string) -> bool,
                      listing: Listing)
      returns (failure: Option<Error>)
      requires WellFormed(copied) && Lists(listing)
      ensures failure == CopyFailure(listing.walk(0, copied), trusted, less)
      ensures OrderFree(copied, less) ==> failure == CopyFailure(copied, trusted, less)
    {
      var copy := HashArtifactTree(listing.walk(0, copied), less, DEFAULT_LIMITS);
      if OrderFree(copied, less) {
        RelistedDigest(copied, listing.walk(0, copied), less, DEFAULT_LIMITS);
      }
      failure := if copy.Err? then Some(copy.error) else if copy.value != trusted then Some(CopyMismatch) else None;
    }

    /**
     Verify the copied bytes, move them, verify them again where they lie.  Success always means a disjoint
     union whose placed entries hash to the trusted hash; when no tie can show in the hash the answer does
     not depend on listings, and the second verification never fails, as nothing but the move happens
     between the two.
     */
    method TransferVerified(copied: seq<Entry>, trusted: seq<Record>, less: (string, string) -> bool,
                            listing: Listing)
      returns (failure: Option<Error>)
      requires WellFormed(copied) && WellFormed(destination) && Lists(listing)
      modifies this
      ensures WellFormed(destination) && scratch == [] && Keeps(old(destination), destination)
      ensures failure.None? ==> Union(destination, old(destination), copied) && !Conflicts(copied, old(destination))
      ensures failure.None? ==> EntriesDigest(listing.walk(2, destination), TopNames(copied), less, DEFAULT_LIMITS) == Ok(trusted)
      ensures OrderFree(copied, less) ==> failure == Outcome(copied, old(destination), trusted, less)
      ensures OrderFree(copied, less) ==> (failure.None? <==> Digest(copied, less, DEFAULT_LIMITS) == Ok(trusted) && !Conflicts(copied, old(destination)))
      ensures OrderFree(copied, less) ==>
        (failure == Some(PathConflict) <==> Digest(copied, less, DEFAULT_LIMITS) == Ok(trusted) && Conflicts(copied, old(destination)))
      ensures OrderFree(copied, less) && failure.None? ==>
        EntriesDigest(destination, TopNames(copied), less, DEFAULT_LIMITS) == Ok(trusted)
    {
      scratch := copied;
      failure := VerifyCopy(scratch, trusted, less, listing);
      if failure.Some? {
        scratch := [];
        return;
      }
      var sorted := SortedListing(scratch, less, listing);
      var moved := MoveAll(sorted, copied);
      if !moved {
        scratch := [];
        return Some(PathConflict);
      }
      ghost var whole, base := destination, old(destination);
      if OrderFree(copied, less) {
        PlacedHash(whole, listing.walk(2, whole), base, copied, less);
      }
      failure := VerifyPlaced(copied, listing.walk(2, destination), trusted, less);
    }

    /** The entries placed in the tree, as it is listed now, against the trusted hash. */
    method VerifyPlaced(copied: seq<Entry>, seen: seq<Entry>, trusted: seq<Record>, less: (string, string) -> bool)
      returns (failure: Option<Error>)
      ensures failure == if EntriesDigest(seen, TopNames(copied), less, DEFAULT_LIMITS) == Ok(trusted) then None else Some(PlacedMismatch)
    {
      var placed := HashArtifactTree(Named(seen, TopNames(copied)), less, DEFAULT_LIMITS);
      failure := if placed != Ok(trusted) then Some(PlacedMismatch) else None;
    }

    /**
     `materialize` with a dependency artifact and no generated ones: check the source, copy it, provision,
     and record the top-level entries that appeared.
     */
    method Materialize(source: seq<Entry>, copied: seq<Entry>, trusted: seq<Record>, less: (string, string) -> bool,
                       listing: Listing)
      returns (r: Result<seq<string>, Error>)
      requires destination == [] && WellFormed(source) && WellFormed(copied) && Lists(listing)
      modifies this
      ensures r.Ok? ==> WellFormed(destination) && Union(destination, source, copied) && !Conflicts(copied, source)
      ensures r.Ok? ==> Records(r.value, copied) && (WeakOrder(less) ==> InOrder(r.value, less))
      ensures OrderFree(copied, less) ==>
        && (r.Ok? <==> Digest(source, less, DEFAULT_LIMITS).Ok? && Outcome(copied, source, trusted, less).None?)
        && (r.Err? && Digest(source, less, DEFAULT_LIMITS).Ok? ==> Outcome(copied, source, trusted, less) == Some(r.error))
        && (r.Err? && Digest(source, less, DEFAULT_LIMITS).Err? ==> r.error == Rejected && destination == [])
        && (r.Ok? ==> EntriesDigest(destination, TopNames(copied), less, DEFAULT_LIMITS) == Ok(trusted))
    {
      var safe := HashArtifactTree(listing.walk(3, source), less, DEFAULT_LIMITS);
      RelistedAccepted(source, listing.walk(3, source), less, DEFAULT_LIMITS);
      if safe.Err? {
        return Err(safe.error);
      }
      destination := source;
      var before := TopNames(listing.readdir(4, destination));
      ListedNames(source, listing);
      var failure := TransferVerified(copied, trusted, less, listing);
      if failure.Some? {
        return Err(failure.value);
      }
      var placed := Sort(Unnamed(listing.readdir(5, destination), before), less);
      RecordsPlaced(destination, source, copied, less, listing);
      r := Ok(Labels(placed));
    }
  }

  lemma AppendedUnion(base: seq<Entry>, sorted: seq<Entry>, part: seq<Entry>)
    requires SameEntries(sorted, part)
    ensures Union(base + sorted, base, part)
  {
  }

  method SortedListing(entries: seq<Entry>, less: (string, string) -> bool, listing: Listing)
    returns (sorted: seq<Entry>)
    requires WellFormed(entries) && Lists(listing)
    ensures WellFormed(sorted) && SameEntries(sorted, entries)
  {
    sorted := Sort(listing.readdir(1, entries), less);
    SortMembers(listing.readdir(1, entries), less);
    PermutedWellFormed(entries, sorted);
  }

  lemma ConflictFound(before: seq<Entry>, sorted: seq<Entry>, part: seq<Entry>, i: nat)
    requires UniqueNames(sorted) && i < |sorted| && sorted[i].name in TopNames(before + sorted[..i])
    requires SameEntries(sorted, part)
    ensures Conflicts(part, before)
  {
    var f :| f in before + sorted[..i] && f.name == sorted[i].name;
    forall k | 0 <= k < i ensures sorted[..i][k] != f {
      assert sorted[k].name != sorted[i].name;
    }
    assert f in before;
    assert sorted[i] in sorted;
    assert sorted[i].name in TopNames(part) * TopNames(before);
  }

  lemma OneMore(before: seq<Entry>, sorted: seq<Entry>, i: nat)
    requires i < |sorted| && WellFormed(sorted) && WellFormed(before + sorted[..i])
    requires sorted[i].name !in TopNames(before + sorted[..i])
    ensures before + sorted[..i] + [sorted[i]] == before + sorted[..i + 1]
    ensures WellFormed(before + sorted[..i + 1]) && sorted[i].name !in TopNames(before)
  {
    WellFormedIff(sorted);
    assert sorted[i] in sorted;
    AddedEntry(before + sorted[..i], sorted[i]);
    assert before + sorted[..i] + [sorted[i]] == before + sorted[..i + 1];
    assert forall f :: f in before ==> f in before + sorted[..i];
  }

  lemma NothingConflicts(before: seq<Entry>, sorted: seq<Entry>, part: seq<Entry>)
    requires SameEntries(sorted, part)
    requires forall k :: 0 <= k < |sorted| ==> sorted[k].name !in TopNames(before)
    ensures !Conflicts(part, before)
  {
  }

  /** The placed entries hash to the artifact's own hash, whether the tree is read as recorded or relisted. */
  lemma PlacedHash(whole: seq<Entry>, seen: seq<Entry>, base: seq<Entry>, part: seq<Entry>, less: (string, string) -> bool)
    requires WellFormed(whole) && WellFormed(part) && Union(whole, base, part) && !Conflicts(part, base)
    requires Relisted(whole, seen) && OrderFree(part, less)
    ensures EntriesDigest(whole, TopNames(part), less, DEFAULT_LIMITS) == Digest(part, less, DEFAULT_LIMITS)
    ensures EntriesDigest(seen, TopNames(part), less, DEFAULT_LIMITS) == Digest(part, less, DEFAULT_LIMITS)
  {
    RelistedItself(whole);
    RelistedItself(part);
    EntriesHashInPlace(whole, whole, base, part, part, less, DEFAULT_LIMITS);
    EntriesHashInPlace(whole, seen, base, part, part, less, DEFAULT_LIMITS);
  }

  function WithoutEntry(entries: seq<Entry>, e: Entry): seq<Entry>
    requires e in entries
  {
    if entries[0] == e then entries[1..] else [entries[0]] + WithoutEntry(entries[1..], e)
  }

  lemma {:induction false} WithoutOneEntry(entries: seq<Entry>, e: Entry, prefix: Path)
    requires e in entries
    ensures multiset(entries) == multiset(WithoutEntry(entries, e)) + multiset{e}
    ensures multiset(Files(entries, prefix)) == multiset(Files(WithoutEntry(entries, e), prefix)) + multiset(FilesOf(e, prefix))
  {
    var first, rest := entries[0], entries[1..];
    assert multiset(entries) == multiset{first} + multiset(rest) by {
      assert entries == [first] + rest;
    }
    if first != e {
      WithoutOneEntry(rest, e, prefix);
      var less := WithoutEntry(rest, e);
      assert WithoutEntry(entries, e) == [first] + less && ([first] + less)[1..] == less;
    }
  }

  lemma SameRest<T>(all: multiset<T>, left: multiset<T>, right: multiset<T>, e: T)
    requires all == left + multiset{e} && all == right + multiset{e}
    ensures left == right
  {
    assert left == all - multiset{e} && right == all - multiset{e};
  }

  lemma {:induction false} PermutedFiles(a: seq<Entry>, b: seq<Entry>, prefix: Path)
    requires multiset(a) == multiset(b)
    ensures multiset(Files(a, prefix)) == multiset(Files(b, prefix))
  {
    if a == [] {
      assert |b| == |multiset(b)| == 0;
    } else {
      var rest := WithoutFirst(a, b);
      WithoutOneEntry(b, a[0], prefix);
      PermutedFiles(a[1..], rest, prefix);
    }
  }

  lemma WithoutFirst(a: seq<Entry>, b: seq<Entry>) returns (rest: seq<Entry>)
    requires multiset(a) == multiset(b) && a != []
    ensures a[0] in b && rest == WithoutEntry(b, a[0]) && multiset(a[1..]) == multiset(rest)
  {
    assert a[0] in multiset(a);
    assert a[0] in multiset(b);
    rest := WithoutEntry(b, a[0]);
    WithoutOneEntry(b, a[0], []);
    assert multiset(a) == multiset(a[1..]) + multiset{a[0]} by {
      assert a == [a[0]] + a[1..];
    }
    SameRest(multiset(a), multiset(a[1..]), multiset(rest), a[0]);
  }

  // ---------------------------------------------------------------- the entries recorded

  function Unnamed(entries: seq<Entry>, names: set<string>): seq<Entry> {
    if entries == [] then []
    else (if entries[0].name in names then [] else [entries[0]]) + Unnamed(entries[1..], names)
  }

  lemma {:induction false} UnnamedIsNamed(entries: seq<Entry>, names: set<string>, others: set<string>)
    requires forall e :: e in entries ==> (e.name in names <==> e.name !in others)
    ensures Unnamed(entries, names) == Named(entries, others)
  {
    if entries != [] {
      UnnamedIsNamed(entries[1..], names, others);
    }
  }

  /** The recorded names are exactly the artifact's, each once. */
  ghost predicate Records(names: seq<string>, part: seq<Entry>) {
    && (forall n :: n in names <==> n in TopNames(part))
    && (forall i, j :: 0 <= i < j < |names| ==> names[i] != names[j])
  }

  /** No recorded name comes after one it is less than. */
  ghost predicate InOrder(names: seq<string>, less: (string, string) -> bool) {
    forall i, j :: 0 <= i < j < |names| ==> !less(names[j], names[i])
  }

  lemma ListedNames(entries: seq<Entry>, listing: Listing)
    requires WellFormed(entries) && Lists(listing)
    ensures TopNames(listing.readdir(4, entries)) == TopNames(entries)
  {
    assert multiset(listing.readdir(4, entries)) == multiset(entries);
    PermutedWellFormed(entries, listing.readdir(4, entries));
  }

  lemma RecordsPlaced(whole: seq<Entry>, base: seq<Entry>, part: seq<Entry>, less: (string, string) -> bool,
                      listing: Listing)
    requires WellFormed(whole) && Union(whole, base, part) && !Conflicts(part, base) && Lists(listing)
    ensures Records(Labels(Sort(Unnamed(listing.readdir(5, whole), TopNames(base)), less)), part)
    ensures WeakOrder(less) ==> InOrder(Labels(Sort(Unnamed(listing.readdir(5, whole), TopNames(base)), less)), less)
  {
    var listed := listing.readdir(5, whole);
    assert multiset(listed) == multiset(whole);
    PermutedWellFormed(whole, listed);
    UnionMembers(listed, base, part);
    PartMembers(listed, base, part);
    var named := Named(listed, TopNames(part));
    NamedMembers(listed, TopNames(part));
    SortMembers(named, less);
    SameMembers(named, Sort(named, less));
    LabelsOf(Sort(named, less), part);
    SortUnique(named, less);
    if WeakOrder(less) {
      SortWeakly(named, less);
    }
  }

  lemma {:induction false} SortUnique(entries: seq<Entry>, less: (string, string) -> bool)
    requires UniqueNames(entries)
    ensures UniqueNames(Sort(entries, less))
  {
    if entries != [] {
      var rest := entries[1..];
      assert forall k :: 0 <= k < |rest| ==> rest[k] == entries[k + 1];
      SortUnique(rest, less);
      SortMembers(rest, less);
      SameMembers(Sort(rest, less), rest);
      InsertUnique(entries[0], Sort(rest, less), less);
    }
  }

  lemma PartMembers(listed: seq<Entry>, base: seq<Entry>, part: seq<Entry>)
    requires (forall e :: e in listed <==> e in base || e in part) && !Conflicts(part, base)
    ensures Unnamed(listed, TopNames(base)) == Named(listed, TopNames(part))
    ensures forall e :: e in part <==> e in listed && e.name in TopNames(part)
  {
    forall e | e in listed
      ensures (e.name in TopNames(base) <==> e.name !in TopNames(part)) && (e in part <==> e.name in TopNames(part))
    {
      assert e in base ==> e.name in TopNames(base);
      assert e in part ==> e.name in TopNames(part);
      assert e.name in TopNames(base) && e.name in TopNames(part) ==> e.name in TopNames(part) * TopNames(base);
    }
    UnnamedIsNamed(listed, TopNames(base), TopNames(part));
  }

  lemma LabelsOf(entries: seq<Entry>, part: seq<Entry>)
    requires forall e :: e in entries <==> e in part
    ensures forall n :: n in Labels(entries) <==> n in TopNames(part)
  {
  }
}
