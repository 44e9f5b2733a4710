/**
 From materialized staging trees to published snapshots: what the materializer guarantees of a staging
 tree (DependencyTransfer) carried through the protocol that publishes it (SnapshotComposition).
 */
module PublishedComposition {
  import opened Options
  import opened ArtifactTree
  import opened DependencyTransfer
  import opened SnapshotComposition

  /** What `Staging.Materialize` leaves behind whenever it succeeds. */
  ghost predicate Materialized(tree: Tree, source: Tree, copied: Tree) {
    Union(tree, source, copied) && !Conflicts(copied, source)
  }

  /**
   A materialized tree that nobody touched passes the verification under the lease exactly when the
   artifact is within the store's own limits, whatever they are.
   */
  lemma MaterializedVerifiesIff(config: Config, s: State, i: nat, source: Tree, copied: Tree, trusted: Hash)
    requires i < |s.attempts| && s.attempts[i].phase.Verifying?
    requires Materialized(s.attempts[i].staging, source, copied)
    requires EntriesDigest(s.attempts[i].staging, TopNames(copied), config.less, DEFAULT_LIMITS) == Ok(trusted)
    requires s.attempts[i].placed == Some(Placed(TopNames(copied), trusted))
    ensures CanMove(s, i, Verify)
    ensures Moved(config, s, i, Verify).attempts[i].phase == Hashing(s.attempts[i].phase.lease) <==>
      Size(Files(copied, [])) <= config.limits.maxBytes && |Files(copied, [])| <= config.limits.maxFiles
  {
    var named := Named(s.attempts[i].staging, TopNames(copied));
    NamedPart(s.attempts[i].staging, source, copied);
    AcceptedIff(named, config.less, config.limits);
    AcceptedIff(named, config.less, DEFAULT_LIMITS);
    PermutedFiles(named, copied, []);
    SizeIsOrderless(Files(named, []), Files(copied, []));
  }

  /**
   And a staging tree in whose place for the artifact there are other files than the artifact's, whatever was
   changed, added or removed, never gets past the verification.
   */
  lemma TamperedFails(config: Config, s: State, i: nat, copied: Tree, trusted: Hash)
    requires i < |s.attempts| && s.attempts[i].phase.Verifying?
    requires Digest(copied, config.less, DEFAULT_LIMITS) == Ok(trusted)
    requires s.attempts[i].placed == Some(Placed(TopNames(copied), trusted))
    requires !SameFiles(Named(s.attempts[i].staging, TopNames(copied)), copied)
    ensures Moved(config, s, i, Verify).attempts[i].phase == Finishing(s.attempts[i].phase.lease, Failed)
  {
    CanonSameFiles(copied, config.less);
    CanonSameFiles(Named(s.attempts[i].staging, TopNames(copied)), config.less);
  }

  /**
   End to end: when the composition of a source with an artifact reports that it published, or that it
   reused what was there, the store holds under its identity exactly the source's files and the
   artifact's files, and no path belongs to both.
   */
  lemma StoreHoldsDisjointUnion(config: Config, states: seq<State>, actions: seq<Action>, n: nat, i: nat,
                                source: Tree, copied: Tree)
    requires Run(config, states, actions) && n < |states| && i < |states[n].attempts|
    requires OutcomeOf(states[n].attempts[i].phase) in {Some(Published), Some(Reused)}
    requires Materialized(states[n].attempts[i].staging, source, copied)
    ensures var a := states[n].attempts[i];
      && a.identity in states[n].store
      && (forall r :: r in Files(states[n].store[a.identity], []) <==> r in Files(source, []) || r in Files(copied, []))
      && (forall r, t :: r in Files(source, []) && t in Files(copied, []) ==> r.path != t.path)
  {
    SuccessMeansContents(config, states, actions, n, i);
    UnionFiles(states[n].attempts[i].staging, source, copied);
  }

  /** And that stays so in every later state of the run, whatever other compositions do. */
  lemma StoreKeepsDisjointUnion(config: Config, states: seq<State>, actions: seq<Action>, n: nat, k: nat, i: nat,
                                source: Tree, copied: Tree)
    requires Run(config, states, actions) && n <= k < |states| && i < |states[n].attempts|
    requires OutcomeOf(states[n].attempts[i].phase) in {Some(Published), Some(Reused)}
    requires Materialized(states[n].attempts[i].staging, source, copied)
    ensures var identity := states[n].attempts[i].identity;
      && identity in states[k].store
      && (forall r :: r in Files(states[k].store[identity], []) <==> r in Files(source, []) || r in Files(copied, []))
  {
    SuccessMeansContents(config, states, actions, n, i);
    PublishedIsImmutable(config, states, actions, n, k, states[n].attempts[i].identity);
    UnionFiles(states[n].attempts[i].staging, source, copied);
  }

  /** The named entries of a union are the part's, in some order. */
  lemma NamedPart(whole: Tree, base: Tree, part: Tree)
    requires Union(whole, base, part) && !Conflicts(part, base)
    ensures multiset(Named(whole, TopNames(part))) == multiset(part)
  {
    var names := TopNames(part);
    NamedCounts(whole, names);
    forall e ensures multiset(Named(whole, names))[e] == multiset(part)[e] {
      assert multiset(whole)[e] == multiset(base)[e] + multiset(part)[e];
      assert e in part <==> multiset(part)[e] > 0;
      assert e in base <==> multiset(base)[e] > 0;
      assert e in part ==> e.name in names;
      assert e in base ==> e.name in TopNames(base);
      assert e.name in names && e.name in TopNames(base) ==> e.name in names * TopNames(base);
    }
  }

  lemma {:induction false} NamedCounts(entries: Tree, names: set<string>)
    ensures forall e :: multiset(Named(entries, names))[e] == if e.name in names then multiset(entries)[e] else 0
  {
    if entries != [] {
      var first, rest := entries[0], entries[1..];
      NamedCounts(rest, names);
      assert entries == [first] + rest;
      assert multiset(entries) == multiset{first} + multiset(rest);
    }
  }
}
