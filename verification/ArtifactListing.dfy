/**
 When the hash of a tree depends on how its directories are listed
 (packages/engine/src/dependency-provisioning.ts, `hashArtifactTree`).
 */
module ArtifactListing {
  import opened NameOrder
  import opened Options
  import opened ArtifactTree

  // ---------------------------------------------------------------- the same tree, listed differently

  ghost predicate NodeRelisted(x: Node, y: Node)
    decreases x, 0
  {
    if x.Directory? then y.Directory? && Relisted(x.entries, y.entries) else y == x
  }

  /** The same names in any order, at every level; names being unique, `b` is a permutation of `a`. */
  ghost predicate Relisted(a: seq<Entry>, b: seq<Entry>)
    decreases a, 1
  {
    && UniqueNames(b)
    && TopNames(a) == TopNames(b)
    && (forall e, f :: e in a && f in b && e.name == f.name ==> NodeRelisted(e.node, f.node))
  }

  lemma {:induction false} RelistedItself(a: seq<Entry>)
    requires WellFormed(a)
    ensures Relisted(a, a) && forall e :: e in a ==> NodeRelisted(e.node, e.node)
    decreases a
  {
    WellFormedIff(a);
    forall e, f | e in a && f in a && e.name == f.name ensures NodeRelisted(e.node, f.node) {
      var k :| 0 <= k < |a| && a[k] == e;
      var m :| 0 <= m < |a| && a[m] == f;
      assert k == m;
      if a[k].node.Directory? {
        RelistedItself(a[k].node.entries);
      }
    }
  }

  /** What entries of one name have in common. */
  ghost predicate Alike(e: Entry, f: Entry, prefix: Path) {
    && (if e.node.Directory?
        then f.node.Directory? && WellFormed(f.node.entries) && (Supported(e.node.entries) <==> Supported(f.node.entries))
        else f.node == e.node)
    && (forall r :: r in FilesOf(e, prefix) <==> r in FilesOf(f, prefix))
  }

  ghost predicate AllAlike(a: seq<Entry>, b: seq<Entry>, prefix: Path) {
    forall e, f :: e in a && f in b && e.name == f.name ==> Alike(e, f, prefix)
  }

  lemma Counterpart(a: seq<Entry>, b: seq<Entry>, e: Entry) returns (f: Entry)
    requires TopNames(a) <= TopNames(b) && e in a
    ensures f in b && f.name == e.name
  {
    assert e.name in TopNames(a);
    f :| f in b && f.name == e.name;
  }

  predicate Stands(e: Entry) {
    !e.node.Unsupported? && (e.node.Directory? ==> Supported(e.node.entries))
  }

  lemma AlikeSupported(a: seq<Entry>, b: seq<Entry>, prefix: Path)
    requires AllAlike(a, b, prefix) && TopNames(a) == TopNames(b)
    ensures Supported(a) <==> Supported(b)
  {
    SupportedIff(a);
    SupportedIff(b);
    if Supported(a) {
      forall f | f in b ensures Stands(f) {
        var e := Counterpart(b, a, f);
        assert Stands(e) && Alike(e, f, prefix);
      }
    }
    if Supported(b) {
      forall e | e in a ensures Stands(e) {
        var f := Counterpart(a, b, e);
        assert Stands(f) && Alike(e, f, prefix);
      }
    }
  }

  lemma AlikeFiles(a: seq<Entry>, b: seq<Entry>, prefix: Path)
    requires AllAlike(a, b, prefix) && TopNames(a) == TopNames(b)
    ensures forall r :: r in Files(a, prefix) <==> r in Files(b, prefix)
  {
    forall r ensures r in Files(a, prefix) <==> r in Files(b, prefix) {
      FilesMember(a, prefix, r);
      FilesMember(b, prefix, r);
      if r in Files(a, prefix) {
        var e :| e in a && r in FilesOf(e, prefix);
        var f := Counterpart(a, b, e);
        assert Alike(e, f, prefix);
      }
      if r in Files(b, prefix) {
        var f :| f in b && r in FilesOf(f, prefix);
        var e := Counterpart(b, a, f);
        assert Alike(e, f, prefix);
      }
    }
  }

  /** A relisting is a well-formed tree with the same files, and supported when the other is. */
  lemma {:induction false} RelistedKeeps(a: seq<Entry>, b: seq<Entry>, prefix: Path)
    requires WellFormed(a) && Relisted(a, b)
    ensures WellFormed(b) && (Supported(a) <==> Supported(b))
    ensures forall r :: r in Files(a, prefix) <==> r in Files(b, prefix)
    decreases a, 1
  {
    RelistedAlike(a, b, prefix);
    AlikeSupported(a, b, prefix);
    AlikeFiles(a, b, prefix);
    WellFormedIff(b);
    forall f | f in b && f.node.Directory? ensures WellFormed(f.node.entries) {
      var e := Counterpart(b, a, f);
      assert Alike(e, f, prefix);
    }
  }

  lemma RelistedAlike(a: seq<Entry>, b: seq<Entry>, prefix: Path)
    requires WellFormed(a) && Relisted(a, b)
    ensures AllAlike(a, b, prefix)
    decreases a, 0
  {
    WellFormedIff(a);
    forall e, f | e in a && f in b && e.name == f.name ensures Alike(e, f, prefix) {
      assert NodeRelisted(e.node, f.node);
      var k :| 0 <= k < |a| && a[k] == e;
      if a[k].node.Directory? {
        RelistedKeeps(a[k].node.entries, f.node.entries, prefix + [e.name]);
      }
    }
  }

  // ---------------------------------------------------------------- a stable sort keeps tied entries in listing order

  ghost predicate Precedes<T>(l: seq<T>, x: T, y: T) {
    exists i, j :: 0 <= i < j < |l| && l[i] == x && l[j] == y
  }

  lemma PrecedesAt<T>(l: seq<T>, i: nat, j: nat)
    requires i < j < |l|
    ensures Precedes(l, l[i], l[j])
  {
  }

  lemma PrecedesInParts<T>(a: seq<T>, b: seq<T>, x: T, y: T)
    requires Precedes(a, x, y) || Precedes(b, x, y) || (x in a && y in b)
    ensures Precedes(a + b, x, y)
  {
    var l := a + b;
    if Precedes(a, x, y) {
      var i, j :| 0 <= i < j < |a| && a[i] == x && a[j] == y;
      assert l[i] == x && l[j] == y;
    } else if Precedes(b, x, y) {
      var i, j :| 0 <= i < j < |b| && b[i] == x && b[j] == y;
      assert l[|a| + i] == x && l[|a| + j] == y;
    } else {
      var i :| 0 <= i < |a| && a[i] == x;
      var j :| 0 <= j < |b| && b[j] == y;
      assert l[i] == x && l[|a| + j] == y;
    }
  }

  lemma {:induction false} InsertKeepsOrder(e: Entry, sorted: seq<Entry>, less: (string, string) -> bool, x: Entry, y: Entry)
    requires Precedes(sorted, x, y)
    ensures Precedes(Insert(e, sorted, less), x, y)
  {
    if sorted != [] && less(sorted[0].name, e.name) {
      var rest := sorted[1..];
      var i, j :| 0 <= i < j < |sorted| && sorted[i] == x && sorted[j] == y;
      InsertMembers(e, rest, less);
      if i == 0 {
        assert y == rest[j - 1] && y in rest;
        assert x in [sorted[0]];
      } else {
        assert rest[i - 1] == x && rest[j - 1] == y;
        PrecedesAt(rest, i - 1, j - 1);
        InsertKeepsOrder(e, rest, less, x, y);
      }
      PrecedesInParts([sorted[0]], Insert(e, rest, less), x, y);
    } else {
      PrecedesInParts([e], sorted, x, y);
    }
  }

  /** An entry goes in front of everything that is not less than it. */
  lemma {:induction false} InsertedBefore(e: Entry, sorted: seq<Entry>, less: (string, string) -> bool, f: Entry)
    requires f in sorted && !less(f.name, e.name)
    ensures Precedes(Insert(e, sorted, less), e, f)
  {
    if less(sorted[0].name, e.name) {
      assert f in sorted[1..];
      InsertedBefore(e, sorted[1..], less, f);
      PrecedesInParts([sorted[0]], Insert(e, sorted[1..], less), e, f);
    } else {
      PrecedesInParts([e], sorted, e, f);
    }
  }

  lemma {:induction false} CanonStable(entries: seq<Entry>, less: (string, string) -> bool, i: nat, j: nat)
    requires i < j < |entries| && !less(entries[j].name, entries[i].name)
    ensures Precedes(CanonEntries(entries, less), CanonEntry(entries[i], less), CanonEntry(entries[j], less))
  {
    var e, rest := CanonEntry(entries[0], less), entries[1..];
    var sorted := CanonEntries(rest, less);
    CanonMembers(rest, less);
    if i == 0 {
      assert rest[j - 1] == entries[j] && entries[j] in rest;
      InsertedBefore(e, sorted, less, CanonEntry(entries[j], less));
    } else {
      assert rest[i - 1] == entries[i] && rest[j - 1] == entries[j];
      CanonStable(rest, less, i - 1, j - 1);
      InsertKeepsOrder(e, sorted, less, CanonEntry(entries[i], less), CanonEntry(entries[j], less));
    }
  }

  // ---------------------------------------------------------------- and with them their files

  lemma {:induction false} FilesPrecede(l: seq<Entry>, i: nat, j: nat, prefix: Path, r: Record, t: Record)
    requires i < j < |l| && r in FilesOf(l[i], prefix) && t in FilesOf(l[j], prefix)
    ensures Precedes(Files(l, prefix), r, t)
  {
    var rest := l[1..];
    if i == 0 {
      assert rest[j - 1] == l[j] && l[j] in rest;
      FilesMember(rest, prefix, t);
    } else {
      assert rest[i - 1] == l[i] && rest[j - 1] == l[j];
      FilesPrecede(rest, i - 1, j - 1, prefix, r, t);
    }
    PrecedesInParts(FilesOf(l[0], prefix), Files(rest, prefix), r, t);
  }

  lemma {:induction false} FilesPrecedeWithin(l: seq<Entry>, e: Entry, prefix: Path, r: Record, t: Record)
    requires e in l && Precedes(FilesOf(e, prefix), r, t)
    ensures Precedes(Files(l, prefix), r, t)
  {
    if e != l[0] {
      assert e in l[1..];
      FilesPrecedeWithin(l[1..], e, prefix, r, t);
    }
    PrecedesInParts(FilesOf(l[0], prefix), Files(l[1..], prefix), r, t);
  }

  lemma TiedFilesPrecede(entries: seq<Entry>, less: (string, string) -> bool, i: nat, j: nat, prefix: Path, r: Record, t: Record)
    requires i < j < |entries| && !less(entries[j].name, entries[i].name)
    requires r in FilesOf(entries[i], prefix) && t in FilesOf(entries[j], prefix)
    ensures Precedes(Files(CanonEntries(entries, less), prefix), r, t)
  {
    var sorted, e, f := CanonEntries(entries, less), CanonEntry(entries[i], less), CanonEntry(entries[j], less);
    CanonStable(entries, less, i, j);
    var p, q :| 0 <= p < q < |sorted| && sorted[p] == e && sorted[q] == f;
    CanonEntryFiles(entries[i], less, prefix);
    CanonEntryFiles(entries[j], less, prefix);
    FilesPrecede(sorted, p, q, prefix, r, t);
  }

  lemma CanonEntryFiles(e: Entry, less: (string, string) -> bool, prefix: Path)
    ensures forall r :: r in FilesOf(CanonEntry(e, less), prefix) <==> r in FilesOf(e, prefix)
  {
    if e.node.Directory? {
      var inner := prefix + [e.name];
      CanonKeepsFiles(e.node.entries, less, inner);
      SameMembers(Files(CanonEntries(e.node.entries, less), inner), Files(e.node.entries, inner));
    }
  }

  // ---------------------------------------------------------------- a relisting that reverses two files

  function Swapped(a: seq<Entry>, i: nat, j: nat): seq<Entry>
    requires i < j < |a|
  {
    a[i := a[j]][j := a[i]]
  }

  lemma SwappedRelists(a: seq<Entry>, i: nat, j: nat)
    requires WellFormed(a) && i < j < |a|
    ensures Relisted(a, Swapped(a, i, j))
  {
    RelistedItself(a);
    SwappedMembers(a, i, j);
    assert TopNames(a) == TopNames(Swapped(a, i, j));
  }

  lemma SwappedMembers(a: seq<Entry>, i: nat, j: nat)
    requires UniqueNames(a) && i < j < |a|
    ensures UniqueNames(Swapped(a, i, j)) && forall e :: e in Swapped(a, i, j) <==> e in a
  {
    var b := Swapped(a, i, j);
    forall e | e in a ensures e in b {
      var k :| 0 <= k < |a| && a[k] == e;
      assert e == b[if k == i then j else if k == j then i else k];
    }
    forall e | e in b ensures e in a {
      var k :| 0 <= k < |b| && b[k] == e;
      assert e == a[if k == i then j else if k == j then i else k];
    }
    forall p, q | 0 <= p < q < |b| ensures b[p].name != b[q].name {
      var p', q' := if p == i then j else if p == j then i else p, if q == i then j else if q == j then i else q;
      assert b[p] == a[p'] && b[q] == a[q'] && p' != q';
      assert p' < q' || q' < p';
    }
  }

  lemma SameNames(a: seq<Entry>, b: seq<Entry>)
    requires |a| == |b| && forall m :: 0 <= m < |a| ==> b[m].name == a[m].name
    ensures TopNames(a) == TopNames(b)
  {
    forall n ensures n in TopNames(a) <==> n in TopNames(b) {
      if n in TopNames(a) {
        var m :| 0 <= m < |a| && a[m].name == n;
        assert b[m] in b && b[m].name == n;
      }
      if n in TopNames(b) {
        var m :| 0 <= m < |b| && b[m].name == n;
        assert a[m] in a && a[m].name == n;
      }
    }
  }

  lemma ReplacedRelists(a: seq<Entry>, k: nat, inner: seq<Entry>)
    requires WellFormed(a) && k < |a| && a[k].node.Directory? && Relisted(a[k].node.entries, inner)
    ensures Relisted(a, a[k := Entry(a[k].name, Directory(inner))])
  {
    var b := a[k := Entry(a[k].name, Directory(inner))];
    assert forall m :: 0 <= m < |a| ==> b[m].name == a[m].name;
    RelistedItself(a);
    SameNames(a, b);
    forall e, f | e in a && f in b && e.name == f.name ensures NodeRelisted(e.node, f.node) {
      var m :| 0 <= m < |a| && a[m] == e;
      var p :| 0 <= p < |b| && b[p] == f;
      assert a[m].name == a[p].name && m == p;
    }
  }

  /** Some relisting reverses the canonical order of these two files. */
  ghost predicate Reverses(a: seq<Entry>, b: seq<Entry>, less: (string, string) -> bool, prefix: Path, r: Record, t: Record) {
    && Relisted(a, b)
    && Precedes(Files(CanonEntries(a, less), prefix), r, t)
    && Precedes(Files(CanonEntries(b, less), prefix), t, r)
  }

  lemma ReversingHere(a: seq<Entry>, less: (string, string) -> bool, prefix: Path)
    returns (b: seq<Entry>, r: Record, t: Record)
    requires WellFormed(a) && !ApartHere(a, less)
    ensures Reverses(a, b, less, prefix, r, t)
  {
    var i, j :| 0 <= i < j < |a| && HoldsFile(a[i]) && HoldsFile(a[j]) && Tied(a[i].name, a[j].name, less);
    HoldsFileIff(a, prefix);
    assert a[i] in a && a[j] in a;
    r, t := FilesOf(a[i], prefix)[0], FilesOf(a[j], prefix)[0];
    b := Swapped(a, i, j);
    SwappedRelists(a, i, j);
    TiedFilesPrecede(a, less, i, j, prefix, r, t);
    TiedFilesPrecede(b, less, i, j, prefix, t, r);
  }

  lemma CanonFilesWithin(a: seq<Entry>, k: nat, less: (string, string) -> bool, prefix: Path, r: Record, t: Record)
    requires k < |a| && a[k].node.Directory?
    requires Precedes(Files(CanonEntries(a[k].node.entries, less), prefix + [a[k].name]), r, t)
    ensures Precedes(Files(CanonEntries(a, less), prefix), r, t)
  {
    CanonMembers(a, less);
    assert a[k] in a;
    FilesPrecedeWithin(CanonEntries(a, less), CanonEntry(a[k], less), prefix, r, t);
  }

  lemma ReversingWithin(a: seq<Entry>, k: nat, inner: seq<Entry>, less: (string, string) -> bool, prefix: Path, r: Record, t: Record)
    requires WellFormed(a) && k < |a| && a[k].node.Directory?
    requires Reverses(a[k].node.entries, inner, less, prefix + [a[k].name], r, t)
    ensures Reverses(a, a[k := Entry(a[k].name, Directory(inner))], less, prefix, r, t)
  {
    var b := a[k := Entry(a[k].name, Directory(inner))];
    ReplacedRelists(a, k, inner);
    CanonFilesWithin(a, k, less, prefix, r, t);
    CanonFilesWithin(b, k, less, prefix, t, r);
  }

  /** Two tied siblings that both contain a file can be listed the other way round. */
  lemma {:induction false} Reversing(a: seq<Entry>, less: (string, string) -> bool, prefix: Path)
    returns (b: seq<Entry>, r: Record, t: Record)
    requires WellFormed(a) && !SiblingsApart(a, less)
    ensures Reverses(a, b, less, prefix, r, t)
    decreases a
  {
    SiblingsApartIff(a, less);
    if ApartHere(a, less) {
      WellFormedIff(a);
      var e :| e in a && e.node.Directory? && !SiblingsApart(e.node.entries, less);
      var k :| 0 <= k < |a| && a[k] == e;
      var inner: seq<Entry>;
      inner, r, t := Reversing(a[k].node.entries, less, prefix + [e.name]);
      b := a[k := Entry(e.name, Directory(inner))];
      ReversingWithin(a, k, inner, less, prefix, r, t);
    } else {
      b, r, t := ReversingHere(a, less, prefix);
    }
  }

  // ---------------------------------------------------------------- no path is listed twice

  ghost predicate NoRepeats<T>(l: seq<T>) {
    forall i, j :: 0 <= i < j < |l| ==> l[i] != l[j]
  }

  lemma NoRepeatsInParts<T>(a: seq<T>, b: seq<T>)
    requires NoRepeats(a) && NoRepeats(b) && forall x :: x in a ==> x !in b
    ensures NoRepeats(a + b)
  {
    var l := a + b;
    forall i, j | 0 <= i < j < |l| ensures l[i] != l[j] {
      if i < |a| <= j {
        assert l[i] in a && l[j] == b[j - |a|] && l[j] in b;
      }
    }
  }

  lemma {:induction false} FilesNoRepeats(entries: seq<Entry>, prefix: Path)
    requires WellFormed(entries)
    ensures NoRepeats(Files(entries, prefix))
    decreases entries
  {
    if entries != [] {
      var e, rest := entries[0], entries[1..];
      FilesNoRepeats(rest, prefix);
      if e.node.Directory? {
        FilesNoRepeats(e.node.entries, prefix + [e.name]);
      }
      FilesOfAreBelow(e, prefix);
      FilesAreBelow(rest, prefix);
      forall r | r in FilesOf(e, prefix) ensures r !in Files(rest, prefix) {
        forall f | f in rest ensures f.name != e.name {
          var k :| 0 <= k < |rest| && rest[k] == f;
          assert entries[k + 1] == f;
        }
        assert e.name !in TopNames(rest);
      }
      NoRepeatsInParts(FilesOf(e, prefix), Files(rest, prefix));
    }
  }

  lemma {:induction false} OnceEach<T>(l: seq<T>, x: T)
    requires NoRepeats(l)
    ensures multiset(l)[x] <= 1
  {
    if l != [] {
      var rest := l[1..];
      assert multiset(l) == multiset{l[0]} + multiset(rest) by {
        assert l == [l[0]] + rest;
      }
      assert forall k :: 0 <= k < |rest| ==> rest[k] == l[k + 1];
      assert l[0] !in rest;
      OnceEach(rest, x);
    }
  }

  lemma TwiceCounts<T>(l: seq<T>, i: nat, j: nat)
    requires i < j < |l| && l[i] == l[j]
    ensures multiset(l)[l[i]] >= 2
  {
    assert l == l[..j] + [l[j]] + l[j + 1..];
    assert l[..j][i] == l[i] && l[i] in l[..j];
    assert multiset(l) == multiset(l[..j]) + multiset{l[j]} + multiset(l[j + 1..]);
  }

  lemma PermutedNoRepeats<T>(a: seq<T>, b: seq<T>)
    requires NoRepeats(a) && multiset(a) == multiset(b)
    ensures NoRepeats(b)
  {
    forall i, j | 0 <= i < j < |b| ensures b[i] != b[j] {
      OnceEach(a, b[i]);
      if b[i] == b[j] {
        TwiceCounts(b, i, j);
      }
    }
  }

  lemma NotBothWays<T>(l: seq<T>, x: T, y: T)
    requires NoRepeats(l) && Precedes(l, x, y)
    ensures !Precedes(l, y, x)
  {
    var i, j :| 0 <= i < j < |l| && l[i] == x && l[j] == y;
    forall k | 0 <= k < |l| ensures (l[k] == y ==> k == j) && (l[k] == x ==> k == i) {
    }
  }

  // ---------------------------------------------------------------- what a relisting cannot change

  lemma SameOnce<T>(a: seq<T>, b: seq<T>)
    requires NoRepeats(a) && NoRepeats(b) && forall x :: x in a <==> x in b
    ensures multiset(a) == multiset(b)
  {
    forall x ensures multiset(a)[x] == multiset(b)[x] {
      OnceEach(a, x);
      OnceEach(b, x);
      assert x in a <==> multiset(a)[x] > 0;
      assert x in b <==> multiset(b)[x] > 0;
    }
  }

  /** Whether a tree is accepted does not depend on how it is listed, ties or not. */
  lemma RelistedAccepted(a: seq<Entry>, b: seq<Entry>, less: (string, string) -> bool, limits: Limits)
    requires WellFormed(a) && Relisted(a, b)
    ensures Digest(b, less, limits).Ok? <==> Digest(a, less, limits).Ok?
  {
    RelistedKeeps(a, b, []);
    FilesNoRepeats(a, []);
    FilesNoRepeats(b, []);
    SameOnce(Files(a, []), Files(b, []));
    SizeIsOrderless(Files(a, []), Files(b, []));
    AcceptedIff(a, less, limits);
    AcceptedIff(b, less, limits);
  }

  /** Without tied siblings that both contain a file its digest does not either. */
  lemma RelistedDigest(a: seq<Entry>, b: seq<Entry>, less: (string, string) -> bool, limits: Limits)
    requires WellFormed(a) && OrderFree(a, less) && Relisted(a, b)
    ensures Digest(b, less, limits) == Digest(a, less, limits)
  {
    RelistedKeeps(a, b, []);
    SameFilesSameDigest(a, b, less, limits);
  }

  // ---------------------------------------------------------------- exactly when the listing order does not matter

  /**
   Under any comparison that is an order, every relisting of a well-formed accepted tree has the same
   digest if and only if no directory holds two tied entries that both contain a file.
   */
  lemma ListingIrrelevantIff(a: seq<Entry>, less: (string, string) -> bool, limits: Limits)
    requires WellFormed(a) && Digest(a, less, limits).Ok? && WeakOrder(less)
    ensures (forall b :: Relisted(a, b) ==> Digest(b, less, limits) == Digest(a, less, limits)) <==> SiblingsApart(a, less)
  {
    if SiblingsApart(a, less) {
      forall b | Relisted(a, b) ensures Digest(b, less, limits) == Digest(a, less, limits) {
        RelistedDigest(a, b, less, limits);
      }
    } else {
      var b, r, t := Reversing(a, less, []);
      var files := Files(CanonEntries(a, less), []);
      FilesNoRepeats(a, []);
      CanonKeepsFiles(a, less, []);
      PermutedNoRepeats(Files(a, []), files);
      NotBothWays(files, r, t);
      assert Files(CanonEntries(b, less), []) != files;
      assert Digest(b, less, limits) != Digest(a, less, limits);
    }
  }
}
