/**
 The bounded `latestByKey` of the Check Run publisher: an insertion-ordered map kept in
 publication order, so that its first key is the least recently published one.
 */
module FreshnessCache {
  import opened Options
  import opened FreshnessMarker

  datatype Entry = Entry(key: string, ordering: Freshness)

  function Remembered(latest: seq<Entry>, key: string): Option<Freshness> {
    if latest == [] then None
    else if latest[0].key == key then Some(latest[0].ordering)
    else Remembered(latest[1..], key)
  }

  function Without(latest: seq<Entry>, key: string): seq<Entry> {
    if latest == [] then []
    else if latest[0].key == key then latest[1..]
    else [latest[0]] + Without(latest[1..], key)
  }

  function Newest(latest: seq<Entry>, count: nat): seq<Entry> {
    if |latest| <= count then latest else latest[|latest| - count..]
  }

  function Remember(latest: seq<Entry>, maxEntries: nat, key: string, ordering: Freshness): seq<Entry> {
    if Remembered(latest, key).Some? then Without(latest, key) + [Entry(key, ordering)]
    else Newest(latest, if maxEntries == 0 then 0 else maxEntries - 1) + [Entry(key, ordering)]
  }

  predicate UniqueKeys(latest: seq<Entry>) {
    forall i, j :: 0 <= i < j < |latest| ==> latest[i].key != latest[j].key
  }

  lemma {:induction false} RememberedIsFound(latest: seq<Entry>, key: string)
    ensures Remembered(latest, key).Some? ==> Entry(key, Remembered(latest, key).value) in latest
    ensures Remembered(latest, key).None? ==> forall e :: e in latest ==> e.key != key
  {
    if latest != [] {
      RememberedIsFound(latest[1..], key);
    }
  }

  lemma {:induction false} WithoutDropsOne(latest: seq<Entry>, key: string)
    requires UniqueKeys(latest)
    ensures UniqueKeys(Without(latest, key))
    ensures forall e :: e in Without(latest, key) <==> e in latest && e.key != key
    ensures |Without(latest, key)| == |latest| - if Remembered(latest, key).Some? then 1 else 0
  {
    if latest != [] {
      assert latest == [latest[0]] + latest[1..];
      if latest[0].key != key {
        WithoutDropsOne(latest[1..], key);
      }
    }
  }

  lemma NewestMembers(latest: seq<Entry>, count: nat)
    requires UniqueKeys(latest)
    ensures UniqueKeys(Newest(latest, count)) && |Newest(latest, count)| <= count
    ensures forall e :: e in Newest(latest, count) ==> e in latest
    ensures forall i :: 0 <= i < |latest| && i >= |latest| - count ==> latest[i] in Newest(latest, count)
  {
  }

  lemma AppendUnique(latest: seq<Entry>, last: Entry)
    requires UniqueKeys(latest) && forall e :: e in latest ==> e.key != last.key
    ensures UniqueKeys(latest + [last])
  {
  }

  /** Remembering keeps the map well formed and bounded, and forgets nothing but at most the oldest key. */
  lemma RememberKeepsBound(latest: seq<Entry>, maxEntries: nat, key: string, ordering: Freshness)
    requires UniqueKeys(latest) && |latest| <= maxEntries && maxEntries > 0
    ensures var after := Remember(latest, maxEntries, key, ordering);
            && UniqueKeys(after) && |after| <= maxEntries
            && (forall e :: e in after ==> e == Entry(key, ordering) || (e in latest && e.key != key))
            && (forall i :: 1 <= i < |latest| && latest[i].key != key ==> latest[i] in after)
  {
    WithoutDropsOne(latest, key);
    RememberedIsFound(latest, key);
    NewestMembers(latest, maxEntries - 1);
    var kept := if Remembered(latest, key).Some? then Without(latest, key) else Newest(latest, maxEntries - 1);
    AppendUnique(kept, Entry(key, ordering));
    forall i | 1 <= i < |latest| && latest[i].key != key ensures latest[i] in kept {
      assert latest[i] in latest;
    }
  }

  // ---------------------------------------------------------------- least recently published

  /** Every key ever published, ordered by its last publication. */
  function Recency(history: seq<Entry>): seq<Entry> {
    if history == [] then []
    else
      var last := history[|history| - 1];
      Without(Recency(history[..|history| - 1]), last.key) + [last]
  }

  function CacheAfter(history: seq<Entry>, maxEntries: nat): seq<Entry> {
    if history == [] then []
    else
      var last := history[|history| - 1];
      Remember(CacheAfter(history[..|history| - 1], maxEntries), maxEntries, last.key, last.ordering)
  }

  lemma {:induction false} RecencyUnique(history: seq<Entry>)
    ensures UniqueKeys(Recency(history))
  {
    if history != [] {
      var before := Recency(history[..|history| - 1]);
      RecencyUnique(history[..|history| - 1]);
      WithoutDropsOne(before, history[|history| - 1].key);
    }
  }

  /** What the suffix of the newest `count` becomes without the key, and what is left in front of it. */
  function SuffixWithout(all: seq<Entry>, count: nat, key: string): seq<Entry>
    requires count > 0
  {
    if Remembered(Newest(all, count), key).Some? then Without(Newest(all, count), key)
    else Newest(Newest(all, count), count - 1)
  }

  lemma {:induction false} WithoutInSuffix(all: seq<Entry>, count: nat, key: string)
    requires UniqueKeys(all) && count > 0
    ensures Newest(Without(all, key), count - 1) == SuffixWithout(all, count, key)
    decreases |all|
  {
    if |all| <= count {
      WithoutInShort(all, count, key);
    } else if all[0].key == key {
      HeadWithout(all, count, key);
    } else {
      WithoutInSuffix(all[1..], count, key);
      TailWithout(all, count, key);
    }
  }

  /** An entry of another key in front of the suffix changes neither side. */
  lemma TailWithout(all: seq<Entry>, count: nat, key: string)
    requires UniqueKeys(all) && 0 < count < |all| && all[0].key != key
    ensures Newest(Without(all, key), count - 1) == Newest(Without(all[1..], key), count - 1)
    ensures SuffixWithout(all, count, key) == SuffixWithout(all[1..], count, key)
  {
    WithoutDropsOne(all[1..], key);
    assert all == [all[0]] + all[1..];
    NewestOfTail(all[0], all[1..], count);
    NewestOfTail(all[0], Without(all[1..], key), count - 1);
  }

  lemma NewestOfTail(first: Entry, rest: seq<Entry>, count: nat)
    requires count <= |rest|
    ensures Newest([first] + rest, count) == Newest(rest, count)
  {
  }

  lemma WithoutInShort(all: seq<Entry>, count: nat, key: string)
    requires UniqueKeys(all) && count > 0 && |all| <= count
    ensures Newest(Without(all, key), count - 1) == SuffixWithout(all, count, key)
  {
    WithoutDropsOne(all, key);
    if Remembered(all, key).None? {
      WithoutAbsent(all, key);
    }
  }

  lemma HeadWithout(all: seq<Entry>, count: nat, key: string)
    requires UniqueKeys(all) && count > 0 && |all| > count && all[0].key == key
    ensures Newest(Without(all, key), count - 1) == SuffixWithout(all, count, key)
  {
    var newest := Newest(all, count);
    forall e | e in newest ensures e.key != key {
      var i :| 0 <= i < |newest| && newest[i] == e;
      assert all[i + |all| - count] == e;
    }
    RememberedIsFound(newest, key);
    assert Newest(newest, count - 1) == Newest(all[1..], count - 1);
  }

  lemma {:induction false} WithoutAbsent(latest: seq<Entry>, key: string)
    requires Remembered(latest, key).None?
    ensures Without(latest, key) == latest
  {
    if latest != [] {
      WithoutAbsent(latest[1..], key);
    }
  }

  lemma RememberInSuffix(all: seq<Entry>, maxEntries: nat, last: Entry)
    requires UniqueKeys(all) && maxEntries > 0
    ensures Remember(Newest(all, maxEntries), maxEntries, last.key, last.ordering) ==
            Newest(Without(all, last.key) + [last], maxEntries)
  {
    WithoutInSuffix(all, maxEntries, last.key);
    var kept := Without(all, last.key);
    assert Newest(kept + [last], maxEntries) == Newest(kept, maxEntries - 1) + [last];
  }

  /** After any history of successful publications the cache holds exactly the most recent distinct keys. */
  lemma {:induction false} CacheHoldsMostRecent(history: seq<Entry>, maxEntries: nat)
    requires maxEntries > 0
    ensures CacheAfter(history, maxEntries) == Newest(Recency(history), maxEntries)
  {
    if history != [] {
      var init := history[..|history| - 1];
      CacheHoldsMostRecent(init, maxEntries);
      RecencyUnique(init);
      RememberInSuffix(Recency(init), maxEntries, history[|history| - 1]);
    }
  }
}
