/**
 The lease and the publication as the program writes them: objects updated in place
 (packages/engine/src/snapshot-composition.ts, packages/adapters-source/src/snapshot-store-publisher.ts).

 What other processes do between two of our steps comes in as a parameter: the locks they leave in the
 lock directory by each poll, and the snapshots they publish between our look and our rename.
 */
module SnapshotStoreObjects {
  import opened Options
  import opened ArtifactTree
  import opened SnapshotComposition

  class LockDirectory {
    var locks: set<Identity>

    constructor ()
      ensures locks == {}
    {
      locks := {};
    }

    /** Atomic `mkdir`: exactly one of several callers creates the directory. */
    method Mkdir(identity: Identity) returns (created: bool)
      modifies this
      ensures created <==> identity !in old(locks)
      ensures locks == old(locks) + {identity}
    {
      created := identity !in locks;
      locks := locks + {identity};
    }
  }

  class LeaseHandle {
    const directory: LockDirectory
    const identity: Identity
    var released: bool

    constructor (directory: LockDirectory, identity: Identity)
      ensures this.directory == directory && this.identity == identity && !released
    {
      this.directory, this.identity, released := directory, identity, false;
    }

    /** Only the first call tries to remove the lock directory; a removal that fails is ignored, and never tried again. */
    method Release(removalFails: bool)
      modifies this, directory
      ensures released
      ensures directory.locks ==
        if old(released) || removalFails then old(directory.locks) else old(directory.locks) - {identity}
    {
      if released {
        return;
      }
      released := true;
      if !removalFails {
        directory.locks := directory.locks - {identity};
      }
    }
  }

  /** Releasing twice does not take away a lock that someone else took in between. */
  method ReleaseTwice(lease: LeaseHandle, firstFails: bool, secondFails: bool, others: set<Identity>)
    requires !lease.released
    modifies lease, lease.directory
    ensures lease.directory.locks == others
  {
    lease.Release(firstFails);
    lease.directory.locks := others;
    lease.Release(secondFails);
  }

  predicate Free(polls: seq<set<Identity>>, identity: Identity) {
    exists k :: 0 <= k < |polls| && identity !in polls[k]
  }

  predicate FirstFree(polls: seq<set<Identity>>, identity: Identity, k: int) {
    0 <= k < |polls| && identity !in polls[k] && forall j :: 0 <= j < k ==> identity in polls[j]
  }

  /**
   Polls until the lock is free or the deadline has passed, which it is at the last poll.
   `polls[k]` is the lock directory that the other processes leave at poll `k`.
   */
  method AcquireCompositionLease(directory: LockDirectory, identity: Identity, polls: seq<set<Identity>>)
    returns (lease: Option<LeaseHandle>)
    requires polls != []
    modifies directory
    ensures lease.Some? <==> Free(polls, identity)
    ensures lease.None? ==> directory.locks == polls[|polls| - 1]
    ensures lease.Some? ==> fresh(lease.value) && !lease.value.released
    ensures lease.Some? ==> lease.value.identity == identity && lease.value.directory == directory
    ensures lease.Some? ==> exists k :: FirstFree(polls, identity, k) && directory.locks == polls[k] + {identity}
  {
    var k := 0;
    while k < |polls|
      invariant 0 <= k <= |polls|
      invariant forall j :: 0 <= j < k ==> identity in polls[j]
      invariant k > 0 ==> directory.locks == polls[k - 1]
    {
      directory.locks := polls[k];
      var created := directory.Mkdir(identity);
      if created {
        var handle := new LeaseHandle(directory, identity);
        return Some(handle);
      }
      assert directory.locks == polls[k];
      k := k + 1;
    }
    lease := None;
  }

  datatype Answer = Answered(published: bool) | Refused

  /** The first writer publishes; a later one is answered by comparing the hashes. */
  function PublishAnswer(identity: Identity, staging: Tree, config: Config, raced: map<Identity, Tree>): Answer {
    if identity !in raced then Answered(true)
    else if HashOf(config, staging).Ok? && HashOf(config, staging) == HashOf(config, raced[identity]) then Answered(false)
    else Refused
  }

  /**
   What an answer means.  Published: the identity was free.  Accepted without publishing: it holds the same
   files, which for a tree without tied siblings is all it takes; refused in every other case.
   */
  ghost predicate MeansFiles(answer: Answer, identity: Identity, staging: Tree, config: Config, raced: map<Identity, Tree>) {
    && (answer == Answered(true) <==> identity !in raced)
    && (answer == Answered(false) ==> identity in raced && SameFiles(raced[identity], staging))
    && (identity in raced && HashOf(config, staging).Ok? && WellFormed(staging) && WellFormed(raced[identity])
        && OrderFree(staging, config.less) ==>
          (answer == Answered(false) <==> SameFiles(raced[identity], staging) && Supported(raced[identity])))
  }

  lemma AnswerMeansFiles(identity: Identity, staging: Tree, config: Config, raced: map<Identity, Tree>)
    ensures MeansFiles(PublishAnswer(identity, staging, config, raced), identity, staging, config, raced)
  {
    if identity in raced && HashOf(config, staging).Ok? {
      var held := raced[identity];
      if HashOf(config, held) == HashOf(config, staging) {
        SameDigestSameFiles(held, staging, config.less, config.limits);
      }
      if WellFormed(staging) && WellFormed(held) && OrderFree(staging, config.less) {
        SameHashIff(config, staging, held);
      }
    }
  }

  class ComposedSnapshotStore {
    var store: map<Identity, Tree>

    constructor ()
      ensures store == map[]
    {
      store := map[];
    }

    /** Publishes by a rename that the first writer wins, or accepts an identical publication. */
    method PublishAtomically(identity: Identity, staging: Tree, config: Config, raced: map<Identity, Tree>)
      returns (answer: Answer)
      requires Extends(store, raced)
      modifies this
      ensures answer == PublishAnswer(identity, staging, config, raced)
      ensures MeansFiles(answer, identity, staging, config, raced)
      ensures answer == Answered(true) ==> store == raced[identity := staging]
      ensures store == if identity in old(store) then old(store) else if identity in raced then raced else raced[identity := staging]
      ensures Extends(old(store), store)
    {
      AnswerMeansFiles(identity, staging, config, raced);
      if identity !in store {
        store := raced;
        if identity !in store {
          store := store[identity := staging];
          return Answered(true);
        }
      }
      var composed, existing := HashOf(config, staging), HashOf(config, store[identity]);
      answer := if composed.Ok? && composed == existing then Answered(false) else Refused;
    }

    /**
     The whole interval under the lease, which is given back on every path, also when the hook before
     the publication throws.  The lock stays only if its removal fails.
     */
    method VerifyAndPublish(directory: LockDirectory, polls: seq<set<Identity>>, identity: Identity, staging: Tree,
                            placed: Option<Placed>, config: Config, hookThrows: bool, raced: map<Identity, Tree>,
                            removalFails: bool)
      returns (answer: Answer)
      requires polls != [] && Extends(store, raced)
      modifies this, directory
      ensures var publishes :=
          Free(polls, identity) && DependencyHolds(config, staging, placed) && HashOf(config, staging).Ok? && !hookThrows;
        if publishes then
          && MeansFiles(answer, identity, staging, config, raced)
          && answer == PublishAnswer(identity, staging, config, raced)
          && store == if identity in old(store) then old(store) else if identity in raced then raced else raced[identity := staging]
        else answer == Refused && store == old(store)
      ensures Free(polls, identity) ==> (identity in directory.locks <==> removalFails)
      ensures !Free(polls, identity) ==> directory.locks == polls[|polls| - 1]
    {
      var lease := AcquireCompositionLease(directory, identity, polls);
      if lease.None? {
        return Refused;
      }
      if !DependencyHolds(config, staging, placed) || HashOf(config, staging).Err? {
        answer := Refused;
      } else if hookThrows {
        answer := Refused;
      } else {
        answer := PublishAtomically(identity, staging, config, raced);
      }
      lease.value.Release(removalFails);
    }
  }

  // ---------------------------------------------------------------- the source publisher's comparison

  const PROVISIONED_TREE_PREFIXES := ["node_modules/", ".next/", "generated/"]

  predicate IsProvisionedTreePath(path: string) {
    exists k :: 0 <= k < |PROVISIONED_TREE_PREFIXES| && PROVISIONED_TREE_PREFIXES[k] <= path
  }

  lemma ProvisionedMeans(path: string)
    ensures IsProvisionedTreePath(path) <==> "node_modules/" <= path || ".next/" <= path || "generated/" <= path
  {
    assert PROVISIONED_TREE_PREFIXES[0] == "node_modules/" && PROVISIONED_TREE_PREFIXES[1] == ".next/";
    assert PROVISIONED_TREE_PREFIXES[2] == "generated/";
  }

  predicate Distinct(expected: seq<(string, string)>) {
    forall i, j :: 0 <= i < j < |expected| ==> expected[i].0 != expected[j].0
  }

  /** Every expected file with its text, and no other file except under a provisioned prefix. */
  predicate Compatible(published: map<string, string>, expected: seq<(string, string)>) {
    && (forall e :: e in expected ==> e.0 in published && published[e.0] == e.1)
    && (forall path :: path in published ==> (exists e :: e in expected && e.0 == path) || IsProvisionedTreePath(path))
  }

  /**
   The comparison, as the program makes it.  The early answer on equal sizes is sound because there is
   then no other file.
   */
  method TreesEqual(published: map<string, string>, expected: seq<(string, string)>) returns (equal: bool)
    requires Distinct(expected)
    ensures equal <==> Compatible(published, expected)
  {
    var i := 0;
    while i < |expected|
      invariant 0 <= i <= |expected|
      invariant forall e :: e in expected[..i] ==> e.0 in published && published[e.0] == e.1
    {
      if expected[i].0 !in published || published[expected[i].0] != expected[i].1 {
        assert expected[i] in expected;
        return false;
      }
      assert expected[..i + 1] == expected[..i] + [expected[i]];
      i := i + 1;
    }
    assert expected[..i] == expected;
    var expectedPaths := set e | e in expected :: e.0;
    PathsAreDistinct(expected, expectedPaths);
    if |published| == |expected| {
      SameSize(expectedPaths, published.Keys);
      return true;
    }
    var rest := published.Keys;
    while rest != {}
      invariant rest <= published.Keys
      invariant forall path :: path in published && path !in rest ==> path in expectedPaths || IsProvisionedTreePath(path)
      decreases |rest|
    {
      var path :| path in rest;
      rest := rest - {path};
      if path !in expectedPaths && !IsProvisionedTreePath(path) {
        return false;
      }
    }
    equal := true;
  }

  lemma {:induction false} PathsAreDistinct(expected: seq<(string, string)>, paths: set<string>)
    requires Distinct(expected)
    requires paths == set e | e in expected :: e.0
    ensures |paths| == |expected|
  {
    if expected != [] {
      var rest := expected[1..];
      var fewer := set e | e in rest :: e.0;
      assert expected == [expected[0]] + rest;
      forall k | 0 <= k < |rest| ensures rest[k].0 != expected[0].0 {
        assert rest[k] == expected[k + 1];
      }
      assert expected[0].0 !in fewer;
      assert paths == fewer + {expected[0].0} by {
        assert expected[0] in expected;
        forall e | e in rest ensures e.0 in paths {
          assert e in expected;
        }
      }
      PathsAreDistinct(rest, fewer);
    }
  }

  lemma SameSize(small: set<string>, large: set<string>)
    requires small <= large && |small| == |large|
    ensures small == large
  {
    assert large == small + (large - small);
    assert |large - small| == 0;
  }

  // ---------------------------------------------------------------- the source publisher

  /** A published directory: its files, or `None` when something in it is not a regular file. */
  type Published = Option<map<string, string>>

  function Written(expected: seq<(string, string)>): map<string, string> {
    if expected == [] then map[] else Written(expected[..|expected| - 1])[expected[|expected| - 1].0 := expected[|expected| - 1].1]
  }

  class SourceStore {
    var store: map<Identity, Published>

    constructor ()
      ensures store == map[]
    {
      store := map[];
    }

    /** Stage, rename, and on a lost race accept only a compatible tree: nothing published is ever overwritten. */
    method Publish(identity: Identity, expected: seq<(string, string)>, raced: map<Identity,
                   Published>) returns (accepted: bool)
      requires Distinct(expected)
      requires forall id :: id in store ==> id in raced && raced[id] == store[id]
      modifies this
      ensures accepted <==> identity !in raced || (raced[identity].Some? && Compatible(raced[identity].value, expected))
      ensures identity in store && forall id :: id in raced && id in store ==> store[id] == raced[id]
      ensures identity !in raced ==> store == raced[identity := Some(Written(expected))]
      ensures identity in raced ==> store == old(store) || store == raced
    {
      if identity in store && store[identity].Some? {
        accepted := TreesEqual(store[identity].value, expected);
        return;
      }
      var staged := WriteAll(expected);
      store := raced;
      if identity !in store {
        store := store[identity := Some(staged)];
        return true;
      }
      if store[identity].None? {
        return false;
      }
      accepted := TreesEqual(store[identity].value, expected);
    }
  }

  method WriteAll(expected: seq<(string, string)>) returns (staged: map<string, string>)
    ensures staged == Written(expected)
  {
    staged := map[];
    var k := 0;
    assert expected[..0] == [];
    while k < |expected|
      invariant 0 <= k <= |expected| && staged == Written(expected[..k])
    {
      assert expected[..k + 1][..k] == expected[..k];
      staged := staged[expected[k].0 := expected[k].1];
      k := k + 1;
    }
    assert expected[..k] == expected;
  }

  lemma {:induction false} WrittenHasAll(expected: seq<(string, string)>, k: nat)
    requires Distinct(expected) && k < |expected|
    ensures expected[k].0 in Written(expected) && Written(expected)[expected[k].0] == expected[k].1
  {
    if k < |expected| - 1 {
      var init := expected[..|expected| - 1];
      assert init[k] == expected[k] && expected[k].0 != expected[|expected| - 1].0;
      WrittenHasAll(init, k);
    }
  }

  lemma {:induction false} WrittenHasNoOther(expected: seq<(string, string)>, path: string) returns (k: nat)
    requires path in Written(expected)
    ensures k < |expected| && expected[k].0 == path
  {
    k := |expected| - 1;
    if path != expected[k].0 {
      k := WrittenHasNoOther(expected[..k], path);
    }
  }

  /** What was published from some contents is accepted whenever the same contents are published again. */
  lemma WrittenIsCompatible(expected: seq<(string, string)>)
    requires Distinct(expected)
    ensures Compatible(Written(expected), expected)
  {
    var published := Written(expected);
    forall e | e in expected ensures e.0 in published && published[e.0] == e.1 {
      var k :| 0 <= k < |expected| && expected[k] == e;
      WrittenHasAll(expected, k);
    }
    forall path | path in published ensures exists e :: e in expected && e.0 == path {
      var k := WrittenHasNoOther(expected, path);
      assert expected[k] in expected;
    }
  }
}
