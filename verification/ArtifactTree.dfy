/**
 Directory trees, their canonical content hash, and the composition of a source tree with a
 dependency artifact (packages/engine/src/dependency-provisioning.ts, environment-materializer.ts).

 A directory is the list of its entries in whatever order the file system reports them.  Digests are
 represented by what is hashed, the list of file paths and contents, so equal digests means equal
 lists.  `less(a, b)` stands for `a.localeCompare(b) < 0`.
 */
module ArtifactTree {
  import opened NameOrder
  import opened Options

  datatype Node = File(content: string) | Directory(entries: seq<Entry>) | Unsupported

  datatype Entry = Entry(name: string, node: Node)

  type Path = seq<string>

  datatype Record = Record(path: Path, content: string)

  // ---------------------------------------------------------------- visiting in sorted order

  /** Insertion keeps the order of entries that the comparison cannot tell apart, as a stable sort does. */
  function Insert(e: Entry, sorted: seq<Entry>, less: (string, string) -> bool): seq<Entry> {
    if sorted == [] then [e]
    else if less(sorted[0].name, e.name) then [sorted[0]] + Insert(e, sorted[1..], less)
    else [e] + sorted
  }

  function Sort(entries: seq<Entry>, less: (string, string) -> bool): seq<Entry> {
    if entries == [] then [] else Insert(entries[0], Sort(entries[1..], less), less)
  }

  /** Every directory of the tree put in sorted order. */
  function Canon(node: Node, less: (string, string) -> bool): Node
    decreases node, 1
  {
    if node.Directory? then Directory(CanonEntries(node.entries, less)) else node
  }

  function CanonEntries(entries: seq<Entry>, less: (string, string) -> bool): seq<Entry>
    decreases entries, 0
  {
    if entries == [] then []
    else Insert(Entry(entries[0].name, Canon(entries[0].node, less)), CanonEntries(entries[1..], less), less)
  }

  /** The files below some entries, in the order of the listing. */
  function Files(entries: seq<Entry>, prefix: Path): seq<Record>
    decreases entries
  {
    if entries == [] then [] else FilesOf(entries[0], prefix) + Files(entries[1..], prefix)
  }

  function FilesOf(e: Entry, prefix: Path): seq<Record>
    decreases e
  {
    match e.node
    case File(content) => [Record(prefix + [e.name], content)]
    case Directory(entries) => Files(entries, prefix + [e.name])
    case Unsupported => []
  }

  predicate Supported(entries: seq<Entry>)
    decreases entries
  {
    entries != [] ==>
      && !entries[0].node.Unsupported?
      && (entries[0].node.Directory? ==> Supported(entries[0].node.entries))
      && Supported(entries[1..])
  }

  function Size(files: seq<Record>): nat {
    if files == [] then 0 else |files[0].content| + Size(files[1..])
  }

  datatype Limits = Limits(maxBytes: nat, maxFiles: nat)

  datatype Error = Rejected | CopyMismatch | PathConflict | PlacedMismatch

  /** `artifactDirectoryContentHash`, as the list of what is hashed. */
  function Digest(entries: seq<Entry>, less: (string, string) -> bool, limits: Limits): Result<seq<Record>, Error> {
    var files := Files(CanonEntries(entries, less), []);
    if !Supported(entries) || Size(files) > limits.maxBytes || |files| > limits.maxFiles then Err(Rejected) else Ok(files)
  }

  function Named(entries: seq<Entry>, names: set<string>): seq<Entry> {
    if entries == [] then []
    else (if entries[0].name in names then [entries[0]] else []) + Named(entries[1..], names)
  }

  /** `artifactEntriesContentHash`: the same over the named entries of a larger directory. */
  function EntriesDigest(entries: seq<Entry>, names: set<string>, less: (string, string) -> bool, limits: Limits)
    : Result<seq<Record>, Error>
  {
    Digest(Named(entries, names), less, limits)
  }

  // ---------------------------------------------------------------- well-formed trees

  predicate UniqueNames(entries: seq<Entry>) {
    forall i, j :: 0 <= i < j < |entries| ==> entries[i].name != entries[j].name
  }

  predicate WellFormed(entries: seq<Entry>)
    decreases entries
  {
    && UniqueNames(entries)
    && (entries != [] ==>
          && (entries[0].node.Directory? ==> WellFormed(entries[0].node.entries))
          && WellFormed(entries[1..]))
  }

  function TopNames(entries: seq<Entry>): set<string> {
    set e | e in entries :: e.name
  }

  /** Some file lies somewhere below. */
  predicate HoldsFile(e: Entry)
    decreases e
  {
    match e.node
    case File(_) => true
    case Directory(entries) => SomeHoldsFile(entries)
    case Unsupported => false
  }

  predicate SomeHoldsFile(entries: seq<Entry>)
    decreases entries
  {
    entries != [] && (HoldsFile(entries[0]) || SomeHoldsFile(entries[1..]))
  }

  /** No directory holds two tied entries that both contain a file. */
  predicate SiblingsApart(entries: seq<Entry>, less: (string, string) -> bool)
    decreases entries
  {
    && ApartHere(entries, less)
    && (entries != [] ==>
          && (entries[0].node.Directory? ==> SiblingsApart(entries[0].node.entries, less))
          && SiblingsApart(entries[1..], less))
  }

  predicate ApartHere(entries: seq<Entry>, less: (string, string) -> bool) {
    forall i, j :: 0 <= i < j < |entries| && HoldsFile(entries[i]) && HoldsFile(entries[j]) ==>
      !Tied(entries[i].name, entries[j].name, less)
  }

  /** The order in which this tree's directories are listed does not show in its hash. */
  ghost predicate OrderFree(entries: seq<Entry>, less: (string, string) -> bool) {
    WeakOrder(less) && SiblingsApart(entries, less)
  }

  // ---------------------------------------------------------------- what depends only on the members of a directory

  lemma {:induction false} WellFormedIff(entries: seq<Entry>)
    ensures WellFormed(entries) <==>
      UniqueNames(entries) && forall e :: e in entries && e.node.Directory? ==> WellFormed(e.node.entries)
  {
    if entries != [] {
      WellFormedIff(entries[1..]);
      assert entries == [entries[0]] + entries[1..];
      if UniqueNames(entries) {
        forall i, j | 0 <= i < j < |entries[1..]| ensures entries[1..][i].name != entries[1..][j].name {
          assert entries[1..][i] == entries[i + 1] && entries[1..][j] == entries[j + 1];
        }
      }
    }
  }

  lemma {:induction false} SupportedIff(entries: seq<Entry>)
    ensures Supported(entries) <==>
      forall e :: e in entries ==> !e.node.Unsupported? && (e.node.Directory? ==> Supported(e.node.entries))
  {
    if entries != [] {
      SupportedIff(entries[1..]);
      assert entries == [entries[0]] + entries[1..];
    }
  }

  lemma {:induction false} SiblingsApartIff(entries: seq<Entry>, less: (string, string) -> bool)
    ensures SiblingsApart(entries, less) <==>
      ApartHere(entries, less) && forall e :: e in entries && e.node.Directory? ==> SiblingsApart(e.node.entries, less)
  {
    if entries != [] {
      SiblingsApartIff(entries[1..], less);
      assert entries == [entries[0]] + entries[1..];
      if ApartHere(entries, less) {
        var rest := entries[1..];
        assert forall i :: 0 <= i < |rest| ==> rest[i] == entries[i + 1];
      }
    }
  }

  lemma {:induction false} FilesMember(entries: seq<Entry>, prefix: Path, r: Record)
    ensures r in Files(entries, prefix) <==> exists e :: e in entries && r in FilesOf(e, prefix)
  {
    if entries != [] {
      FilesMember(entries[1..], prefix, r);
      assert forall e :: e in entries <==> e == entries[0] || e in entries[1..];
      if r in FilesOf(entries[0], prefix) {
        assert entries[0] in entries;
      }
    }
  }

  lemma {:induction false} HoldsFileIff(entries: seq<Entry>, prefix: Path)
    ensures SomeHoldsFile(entries) <==> Files(entries, prefix) != []
    ensures SomeHoldsFile(entries) <==> exists e :: e in entries && HoldsFile(e)
    ensures forall e :: e in entries ==> (HoldsFile(e) <==> FilesOf(e, prefix) != [])
    decreases entries
  {
    if entries != [] {
      var e := entries[0];
      HoldsFileIff(entries[1..], prefix);
      if e.node.Directory? {
        HoldsFileIff(e.node.entries, prefix + [e.name]);
      }
      assert forall f :: f in entries <==> f == e || f in entries[1..];
      assert HoldsFile(e) ==> e in entries;
    }
  }

  // ---------------------------------------------------------------- sorting changes the order only

  lemma {:induction false} InsertMembers(e: Entry, sorted: seq<Entry>, less: (string, string) -> bool)
    ensures multiset(Insert(e, sorted, less)) == multiset(sorted) + multiset{e}
    ensures forall f :: f in Insert(e, sorted, less) <==> f == e || f in sorted
  {
    if sorted != [] {
      assert sorted == [sorted[0]] + sorted[1..];
      InsertMembers(e, sorted[1..], less);
    }
  }

  lemma {:induction false} FilesOfInserted(e: Entry, sorted: seq<Entry>, less: (string, string) -> bool, prefix: Path)
    ensures multiset(Files(Insert(e, sorted, less), prefix)) == multiset(FilesOf(e, prefix)) + multiset(Files(sorted, prefix))
  {
    var l := Insert(e, sorted, less);
    if sorted != [] && less(sorted[0].name, e.name) {
      FilesOfInserted(e, sorted[1..], less, prefix);
      assert l[1..] == Insert(e, sorted[1..], less);
    } else {
      assert l[1..] == sorted;
    }
  }

  /** The canonical tree has exactly the same files. */
  lemma {:induction false} CanonKeepsFiles(entries: seq<Entry>, less: (string, string) -> bool, prefix: Path)
    ensures multiset(Files(CanonEntries(entries, less), prefix)) == multiset(Files(entries, prefix))
    decreases entries
  {
    if entries != [] {
      var first := Entry(entries[0].name, Canon(entries[0].node, less));
      FilesOfInserted(first, CanonEntries(entries[1..], less), less, prefix);
      CanonKeepsFiles(entries[1..], less, prefix);
      if entries[0].node.Directory? {
        CanonKeepsFiles(entries[0].node.entries, less, prefix + [entries[0].name]);
      }
    }
  }

  lemma {:induction false} SizeOfParts(a: seq<Record>, b: seq<Record>)
    ensures Size(a + b) == Size(a) + Size(b)
  {
    if a == [] {
      assert a + b == b;
    } else {
      assert (a + b)[1..] == a[1..] + b;
      SizeOfParts(a[1..], b);
    }
  }

  function Without(files: seq<Record>, r: Record): seq<Record>
    requires r in files
  {
    if files[0] == r then files[1..] else [files[0]] + Without(files[1..], r)
  }

  lemma {:induction false} WithoutOne(files: seq<Record>, r: Record)
    requires r in files
    ensures multiset(files) == multiset(Without(files, r)) + multiset{r}
    ensures Size(files) == Size(Without(files, r)) + |r.content|
  {
    assert files == [files[0]] + files[1..];
    if files[0] != r {
      WithoutOne(files[1..], r);
    }
  }

  lemma {:induction false} SizeIsOrderless(a: seq<Record>, b: seq<Record>)
    requires multiset(a) == multiset(b)
    ensures Size(a) == Size(b) && |a| == |b|
  {
    assert |a| == |multiset(a)| == |multiset(b)| == |b|;
    if a != [] {
      assert a == [a[0]] + a[1..];
      assert a[0] in multiset(b);
      WithoutOne(b, a[0]);
      var one, left, right := multiset{a[0]}, multiset(a[1..]), multiset(Without(b, a[0]));
      assert multiset(a) == one + left;
      assert left == (one + left) - one && right == (right + one) - one;
      SizeIsOrderless(a[1..], Without(b, a[0]));
    }
  }

  // ---------------------------------------------------------------- the canonical order of paths

  predicate PathLess(p: Path, q: Path, less: (string, string) -> bool) {
    p != [] && q != [] && (if p[0] == q[0] then PathLess(p[1..], q[1..], less) else less(p[0], q[0]))
  }

  ghost predicate Increasing(files: seq<Record>, less: (string, string) -> bool) {
    forall i, j :: 0 <= i < j < |files| ==> PathLess(files[i].path, files[j].path, less)
  }

  lemma {:induction false} PathLessAsymmetric(p: Path, q: Path, less: (string, string) -> bool)
    requires WeakOrder(less)
    ensures !(PathLess(p, q, less) && PathLess(q, p, less))
  {
    if p != [] && q != [] {
      PathLessAsymmetric(p[1..], q[1..], less);
    }
  }

  lemma {:induction false} PathLessAfterPrefix(prefix: Path, p: Path, q: Path, less: (string, string) -> bool)
    ensures PathLess(prefix + p, prefix + q, less) <==> PathLess(p, q, less)
  {
    if prefix == [] {
      assert prefix + p == p && prefix + q == q;
    } else {
      assert (prefix + p)[1..] == prefix[1..] + p && (prefix + q)[1..] == prefix[1..] + q;
      PathLessAfterPrefix(prefix[1..], p, q, less);
    }
  }

  /** Two strictly increasing lists with the same members are the same list. */
  lemma {:induction false} IncreasingUnique(a: seq<Record>, b: seq<Record>, less: (string, string) -> bool)
    requires WeakOrder(less) && Increasing(a, less) && Increasing(b, less)
    requires forall r :: r in a <==> r in b
    ensures a == b
  {
    assert |b| > 0 ==> b[0] in b;
    if a != [] {
      assert a[0] in b && b != [] && b[0] in a;
      if a[0] != b[0] {
        var i :| 0 <= i < |b| && b[i] == a[0];
        var j :| 0 <= j < |a| && a[j] == b[0];
        assert PathLess(b[0].path, a[0].path, less) && PathLess(a[0].path, b[0].path, less);
        PathLessAsymmetric(a[0].path, b[0].path, less);
      }
      TailMembers(a, b, less);
      IncreasingUnique(a[1..], b[1..], less);
      assert a == [a[0]] + a[1..] && b == [b[0]] + b[1..];
    }
  }

  lemma HeadNotRepeated(a: seq<Record>, less: (string, string) -> bool)
    requires WeakOrder(less) && Increasing(a, less) && a != []
    ensures a[0] !in a[1..]
  {
    if a[0] in a[1..] {
      var i :| 0 <= i < |a[1..]| && a[1..][i] == a[0];
      assert PathLess(a[0].path, a[i + 1].path, less);
      PathLessAsymmetric(a[0].path, a[0].path, less);
    }
  }

  lemma TailMembers(a: seq<Record>, b: seq<Record>, less: (string, string) -> bool)
    requires WeakOrder(less) && Increasing(a, less) && Increasing(b, less) && a != [] && b != [] && a[0] == b[0]
    requires forall r :: r in a <==> r in b
    ensures forall r :: r in a[1..] <==> r in b[1..]
  {
    HeadNotRepeated(a, less);
    HeadNotRepeated(b, less);
    assert forall r :: r in a <==> r == a[0] || r in a[1..];
    assert forall r :: r in b <==> r == b[0] || r in b[1..];
  }

  // ---------------------------------------------------------------- a sorted tree lists its files in increasing order

  /** The entries that contain files come in increasing order of their names. */
  ghost predicate Ascending(entries: seq<Entry>, less: (string, string) -> bool) {
    forall i, j :: 0 <= i < j < |entries| && HoldsFile(entries[i]) && HoldsFile(entries[j]) ==>
      less(entries[i].name, entries[j].name)
  }

  ghost predicate SortedTree(entries: seq<Entry>, less: (string, string) -> bool)
    decreases entries
  {
    && Ascending(entries, less)
    && (entries != [] ==>
          && (entries[0].node.Directory? ==> SortedTree(entries[0].node.entries, less))
          && SortedTree(entries[1..], less))
  }

  lemma {:induction false} SortedTreeFrom(entries: seq<Entry>, less: (string, string) -> bool)
    requires Ascending(entries, less) && forall e :: e in entries && e.node.Directory? ==> SortedTree(e.node.entries, less)
    ensures SortedTree(entries, less)
  {
    if entries != [] {
      var rest := entries[1..];
      assert forall i :: 0 <= i < |rest| ==> rest[i] == entries[i + 1];
      assert entries[0] in entries && forall e :: e in rest ==> e in entries;
      SortedTreeFrom(rest, less);
    }
  }

  function FileNames(entries: seq<Entry>): set<string> {
    set e | e in entries && HoldsFile(e) :: e.name
  }

  lemma {:induction false} FilesAreBelow(entries: seq<Entry>, prefix: Path)
    ensures forall r :: r in Files(entries, prefix) ==>
      |r.path| > |prefix| && prefix == r.path[..|prefix|] && r.path[|prefix|] in TopNames(entries)
    ensures forall r :: r in Files(entries, prefix) ==> r.path[|prefix|] in FileNames(entries)
    decreases entries
  {
    if entries != [] {
      var e := entries[0];
      assert e in entries && (forall f :: f in entries[1..] ==> f in entries);
      FilesAreBelow(entries[1..], prefix);
      HoldsFileIff(entries, prefix);
      if e.node.Directory? {
        var inner := prefix + [e.name];
        FilesAreBelow(e.node.entries, inner);
        forall r | r in FilesOf(e, prefix)
          ensures |r.path| > |prefix| && prefix == r.path[..|prefix|] && r.path[|prefix|] == e.name
        {
          assert inner == r.path[..|inner|];
          assert r.path[|prefix|] == inner[|prefix|];
          assert r.path[..|prefix|] == inner[..|prefix|];
        }
      }
    }
  }

  lemma FilesOfAreBelow(e: Entry, prefix: Path)
    ensures forall r :: r in FilesOf(e, prefix) ==>
      |r.path| > |prefix| && prefix == r.path[..|prefix|] && r.path[|prefix|] == e.name
  {
    FilesAreBelow([e], prefix);
    assert Files([e], prefix) == FilesOf(e, prefix) + Files([], prefix);
    assert TopNames([e]) == {e.name};
  }

  lemma BranchesInOrder(p: Path, q: Path, prefix: Path, less: (string, string) -> bool)
    requires |p| > |prefix| && prefix == p[..|prefix|] && |q| > |prefix| && prefix == q[..|prefix|]
    requires p[|prefix|] != q[|prefix|] && less(p[|prefix|], q[|prefix|])
    ensures PathLess(p, q, less)
  {
    PathLessAfterPrefix(prefix, p[|prefix|..], q[|prefix|..], less);
    assert prefix + p[|prefix|..] == p && prefix + q[|prefix|..] == q;
  }

  lemma IncreasingParts(a: seq<Record>, b: seq<Record>, less: (string, string) -> bool)
    requires Increasing(a, less) && Increasing(b, less)
    requires forall r, t :: r in a && t in b ==> PathLess(r.path, t.path, less)
    ensures Increasing(a + b, less)
  {
  }

  lemma {:induction false} SortedTreeListsIncreasing(entries: seq<Entry>, prefix: Path, less: (string, string) -> bool)
    requires WeakOrder(less) && SortedTree(entries, less)
    ensures Increasing(Files(entries, prefix), less)
    decreases entries
  {
    if entries != [] {
      var e, rest := entries[0], entries[1..];
      SortedTreeListsIncreasing(rest, prefix, less);
      if e.node.Directory? {
        SortedTreeListsIncreasing(e.node.entries, prefix + [e.name], less);
      }
      HoldsFileIff(entries, prefix);
      FilesOfAreBelow(e, prefix);
      FilesAreBelow(rest, prefix);
      forall r, t | r in FilesOf(e, prefix) && t in Files(rest, prefix) ensures PathLess(r.path, t.path, less) {
        var i :| 0 <= i < |rest| && HoldsFile(rest[i]) && rest[i].name == t.path[|prefix|];
        assert entries[i + 1] == rest[i] && entries[0] == e && HoldsFile(e) && less(e.name, rest[i].name);
        BranchesInOrder(r.path, t.path, prefix, less);
      }
      IncreasingParts(FilesOf(e, prefix), Files(rest, prefix), less);
    }
  }

  // ---------------------------------------------------------------- the canonical tree is sorted

  function CanonEntry(e: Entry, less: (string, string) -> bool): Entry {
    Entry(e.name, Canon(e.node, less))
  }

  /** Nothing comes after something it is less than. */
  ghost predicate WeaklyAscending(entries: seq<Entry>, less: (string, string) -> bool) {
    forall i, j :: 0 <= i < j < |entries| ==> !less(entries[j].name, entries[i].name)
  }

  lemma WeaklyWithHead(e: Entry, rest: seq<Entry>, less: (string, string) -> bool)
    requires WeaklyAscending(rest, less) && forall f :: f in rest ==> !less(f.name, e.name)
    ensures WeaklyAscending([e] + rest, less)
  {
    var l := [e] + rest;
    assert forall k :: 0 < k < |l| ==> l[k] == rest[k - 1] && l[k] in rest;
  }

  lemma {:induction false} InsertWeakly(e: Entry, sorted: seq<Entry>, less: (string, string) -> bool)
    requires WeakOrder(less) && WeaklyAscending(sorted, less)
    ensures WeaklyAscending(Insert(e, sorted, less), less)
  {
    if sorted != [] {
      var first, rest := sorted[0], sorted[1..];
      assert forall k :: 0 <= k < |rest| ==> rest[k] == sorted[k + 1];
      if less(first.name, e.name) {
        InsertWeakly(e, rest, less);
        InsertMembers(e, rest, less);
        WeaklyWithHead(first, Insert(e, rest, less), less);
      } else {
        forall f | f in sorted ensures !less(f.name, e.name) {
          if f != first {
            NotLessChain(e.name, first.name, f.name, less);
          }
        }
        WeaklyWithHead(e, sorted, less);
      }
    }
  }

  lemma UniqueWithHead(e: Entry, rest: seq<Entry>)
    requires UniqueNames(rest) && forall f :: f in rest ==> f.name != e.name
    ensures UniqueNames([e] + rest)
  {
    var l := [e] + rest;
    assert forall k :: 0 < k < |l| ==> l[k] == rest[k - 1] && l[k] in rest;
  }

  lemma {:induction false} InsertUnique(e: Entry, sorted: seq<Entry>, less: (string, string) -> bool)
    requires UniqueNames(sorted) && forall f :: f in sorted ==> f.name != e.name
    ensures UniqueNames(Insert(e, sorted, less))
  {
    if sorted == [] {
    } else if less(sorted[0].name, e.name) {
      var first, rest := sorted[0], sorted[1..];
      assert forall k :: 0 <= k < |rest| ==> rest[k] == sorted[k + 1];
      assert first in sorted && forall f :: f in rest ==> f in sorted;
      InsertUnique(e, rest, less);
      InsertMembers(e, rest, less);
      UniqueWithHead(first, Insert(e, rest, less));
    } else {
      UniqueWithHead(e, sorted);
    }
  }

  lemma {:induction false} CanonMembers(entries: seq<Entry>, less: (string, string) -> bool)
    ensures forall f :: f in CanonEntries(entries, less) <==> exists e :: e in entries && CanonEntry(e, less) == f
  {
    if entries != [] {
      CanonMembers(entries[1..], less);
      InsertMembers(CanonEntry(entries[0], less), CanonEntries(entries[1..], less), less);
      assert entries == [entries[0]] + entries[1..];
    }
  }

  lemma {:induction false} CanonUnique(entries: seq<Entry>, less: (string, string) -> bool)
    requires UniqueNames(entries)
    ensures UniqueNames(CanonEntries(entries, less))
  {
    if entries != [] {
      var rest := entries[1..];
      assert forall k :: 0 <= k < |rest| ==> rest[k] == entries[k + 1];
      CanonUnique(rest, less);
      CanonMembers(rest, less);
      forall f | f in CanonEntries(rest, less) ensures f.name != entries[0].name {
        var e :| e in rest && CanonEntry(e, less) == f;
      }
      InsertUnique(CanonEntry(entries[0], less), CanonEntries(rest, less), less);
    }
  }

  lemma {:induction false} CanonWeakly(entries: seq<Entry>, less: (string, string) -> bool)
    requires WeakOrder(less)
    ensures WeaklyAscending(CanonEntries(entries, less), less)
  {
    if entries != [] {
      CanonWeakly(entries[1..], less);
      InsertWeakly(CanonEntry(entries[0], less), CanonEntries(entries[1..], less), less);
    }
  }

  lemma CanonHoldsFile(e: Entry, less: (string, string) -> bool)
    ensures HoldsFile(CanonEntry(e, less)) <==> HoldsFile(e)
  {
    if e.node.Directory? {
      var sub := e.node.entries;
      CanonKeepsFiles(sub, less, []);
      HoldsFileIff(sub, []);
      HoldsFileIff(CanonEntries(sub, less), []);
      assert |multiset(Files(sub, []))| == |Files(sub, [])|;
      assert |multiset(Files(CanonEntries(sub, less), []))| == |Files(CanonEntries(sub, less), [])|;
    }
  }

  lemma CanonAscends(entries: seq<Entry>, less: (string, string) -> bool)
    requires UniqueNames(entries) && WeakOrder(less) && ApartHere(entries, less)
    ensures Ascending(CanonEntries(entries, less), less)
  {
    var sorted := CanonEntries(entries, less);
    CanonWeakly(entries, less);
    CanonUnique(entries, less);
    CanonMembers(entries, less);
    forall i, j | 0 <= i < j < |sorted| && HoldsFile(sorted[i]) && HoldsFile(sorted[j])
      ensures less(sorted[i].name, sorted[j].name)
    {
      assert sorted[i] in sorted && sorted[j] in sorted;
      var e :| e in entries && CanonEntry(e, less) == sorted[i];
      var f :| f in entries && CanonEntry(f, less) == sorted[j];
      CanonHoldsFile(e, less);
      CanonHoldsFile(f, less);
      var k :| 0 <= k < |entries| && entries[k] == e;
      var m :| 0 <= m < |entries| && entries[m] == f;
      assert k != m && !Tied(entries[k].name, entries[m].name, less);
    }
  }

  lemma {:induction false} CanonIsSorted(entries: seq<Entry>, less: (string, string) -> bool)
    requires WellFormed(entries) && WeakOrder(less) && SiblingsApart(entries, less)
    ensures SortedTree(CanonEntries(entries, less), less)
    decreases entries
  {
    WellFormedIff(entries);
    SiblingsApartIff(entries, less);
    CanonAscends(entries, less);
    CanonMembers(entries, less);
    var sorted := CanonEntries(entries, less);
    forall f | f in sorted && f.node.Directory? ensures SortedTree(f.node.entries, less) {
      var e :| e in entries && CanonEntry(e, less) == f;
      var k :| 0 <= k < |entries| && entries[k] == e;
      assert entries[k].node.Directory?;
      CanonIsSorted(entries[k].node.entries, less);
    }
    SortedTreeFrom(sorted, less);
  }

  // ---------------------------------------------------------------- what a digest determines

  ghost predicate SameFiles(a: seq<Entry>, b: seq<Entry>) {
    forall r :: r in Files(a, []) <==> r in Files(b, [])
  }

  lemma SameMembers<T>(a: seq<T>, b: seq<T>)
    requires multiset(a) == multiset(b)
    ensures forall x :: x in a <==> x in b
  {
    forall x ensures x in a <==> x in b {
      assert x in a <==> x in multiset(a);
      assert x in b <==> x in multiset(b);
    }
  }

  /** The files of the canonical tree are those of the tree. */
  lemma CanonSameFiles(entries: seq<Entry>, less: (string, string) -> bool)
    ensures forall r :: r in Files(CanonEntries(entries, less), []) <==> r in Files(entries, [])
  {
    CanonKeepsFiles(entries, less, []);
    SameMembers(Files(CanonEntries(entries, less), []), Files(entries, []));
  }

  /** Equal digests mean the same files with the same contents, for any trees and any comparison. */
  lemma SameDigestSameFiles(a: seq<Entry>, b: seq<Entry>, less: (string, string) -> bool, limits: Limits)
    requires Digest(a, less, limits).Ok? && Digest(a, less, limits) == Digest(b, less, limits)
    ensures SameFiles(a, b)
  {
    CanonSameFiles(a, less);
    CanonSameFiles(b, less);
  }

  // ---------------------------------------------------------------- tied siblings, seen from the paths

  /** Any two different paths are told apart where they first differ. */
  ghost predicate Distinguished(files: seq<Record>, less: (string, string) -> bool) {
    forall r, t :: r in files && t in files && r.path != t.path ==>
      PathLess(r.path, t.path, less) || PathLess(t.path, r.path, less)
  }

  lemma BranchesTied(p: Path, q: Path, prefix: Path, less: (string, string) -> bool)
    requires |p| > |prefix| && prefix == p[..|prefix|] && |q| > |prefix| && prefix == q[..|prefix|]
    requires p[|prefix|] != q[|prefix|]
    ensures PathLess(p, q, less) <==> less(p[|prefix|], q[|prefix|])
  {
    PathLessAfterPrefix(prefix, p[|prefix|..], q[|prefix|..], less);
    assert prefix + p[|prefix|..] == p && prefix + q[|prefix|..] == q;
  }

  lemma {:induction false} ApartDistinguishes(entries: seq<Entry>, prefix: Path, less: (string, string) -> bool)
    requires WellFormed(entries) && SiblingsApart(entries, less)
    ensures Distinguished(Files(entries, prefix), less)
    decreases entries
  {
    var files := Files(entries, prefix);
    WellFormedIff(entries);
    SiblingsApartIff(entries, less);
    HoldsFileIff(entries, prefix);
    forall r, t | r in files && t in files && r.path != t.path
      ensures PathLess(r.path, t.path, less) || PathLess(t.path, r.path, less)
    {
      FilesMember(entries, prefix, r);
      FilesMember(entries, prefix, t);
      var e :| e in entries && r in FilesOf(e, prefix);
      var f :| f in entries && t in FilesOf(f, prefix);
      var k :| 0 <= k < |entries| && entries[k] == e;
      var m :| 0 <= m < |entries| && entries[m] == f;
      FilesOfAreBelow(e, prefix);
      FilesOfAreBelow(f, prefix);
      if k == m {
        if entries[k].node.Directory? {
          ApartDistinguishes(entries[k].node.entries, prefix + [e.name], less);
        }
      } else {
        BranchesTied(r.path, t.path, prefix, less);
        BranchesTied(t.path, r.path, prefix, less);
        assert !Tied(entries[k].name, entries[m].name, less);
      }
    }
  }

  lemma {:induction false} DistinguishedApart(entries: seq<Entry>, prefix: Path, less: (string, string) -> bool)
    requires WellFormed(entries) && Distinguished(Files(entries, prefix), less)
    ensures SiblingsApart(entries, less)
    decreases entries
  {
    WellFormedIff(entries);
    HoldsFileIff(entries, prefix);
    forall i, j | 0 <= i < j < |entries| && HoldsFile(entries[i]) && HoldsFile(entries[j])
      ensures !Tied(entries[i].name, entries[j].name, less)
    {
      var e, f := entries[i], entries[j];
      var r, t := FilesOf(e, prefix)[0], FilesOf(f, prefix)[0];
      FilesOfAreBelow(e, prefix);
      FilesOfAreBelow(f, prefix);
      assert e in entries && f in entries && r in FilesOf(e, prefix) && t in FilesOf(f, prefix);
      FilesMember(entries, prefix, r);
      FilesMember(entries, prefix, t);
      assert r.path[|prefix|] == e.name != f.name == t.path[|prefix|];
      BranchesTied(r.path, t.path, prefix, less);
      BranchesTied(t.path, r.path, prefix, less);
    }
    forall e | e in entries && e.node.Directory? ensures SiblingsApart(e.node.entries, less) {
      var k :| 0 <= k < |entries| && entries[k] == e;
      forall r | r in Files(e.node.entries, prefix + [e.name]) ensures r in Files(entries, prefix) {
        assert r in FilesOf(e, prefix);
        FilesMember(entries, prefix, r);
      }
      DistinguishedApart(entries[k].node.entries, prefix + [e.name], less);
    }
    SiblingsApartIff(entries, less);
  }

  /** If tied siblings never both contain files, the same files have the same digest, however they are listed. */
  lemma SameFilesSameDigest(a: seq<Entry>, b: seq<Entry>, less: (string, string) -> bool, limits: Limits)
    requires WellFormed(a) && WellFormed(b) && WeakOrder(less) && SiblingsApart(a, less)
    requires SameFiles(a, b) && (Supported(a) <==> Supported(b))
    ensures Digest(a, less, limits) == Digest(b, less, limits)
  {
    ApartDistinguishes(a, [], less);
    DistinguishedApart(b, [], less);
    CanonSameFiles(a, less);
    CanonSameFiles(b, less);
    CanonIsSorted(a, less);
    CanonIsSorted(b, less);
    SortedTreeListsIncreasing(CanonEntries(a, less), [], less);
    SortedTreeListsIncreasing(CanonEntries(b, less), [], less);
    IncreasingUnique(Files(CanonEntries(a, less), []), Files(CanonEntries(b, less), []), less);
  }

  /**
   The hash means exactly the set of files: whatever order the directories are listed in and whatever
   empty directories there are, two accepted trees have the same digest if and only if they hold the
   same files with the same contents.
   */
  lemma DigestMeansFiles(a: seq<Entry>, b: seq<Entry>, less: (string, string) -> bool, limits: Limits)
    requires WellFormed(a) && WellFormed(b) && WeakOrder(less) && SiblingsApart(a, less)
    requires Digest(a, less, limits).Ok? && Digest(b, less, limits).Ok?
    ensures Digest(a, less, limits) == Digest(b, less, limits) <==> SameFiles(a, b)
  {
    if SameFiles(a, b) {
      SameFilesSameDigest(a, b, less, limits);
    } else if Digest(a, less, limits) == Digest(b, less, limits) {
      SameDigestSameFiles(a, b, less, limits);
    }
  }

  /** Which trees are accepted does not depend on the listing order or on the comparison. */
  lemma AcceptedIff(entries: seq<Entry>, less: (string, string) -> bool, limits: Limits)
    ensures Digest(entries, less, limits).Ok? <==>
      Supported(entries) && Size(Files(entries, [])) <= limits.maxBytes && |Files(entries, [])| <= limits.maxFiles
  {
    CanonKeepsFiles(entries, less, []);
    SizeIsOrderless(Files(CanonEntries(entries, less), []), Files(entries, []));
  }
}
