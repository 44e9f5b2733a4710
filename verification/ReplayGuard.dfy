/**
 The webhook replay guard (apps/github-bot/src/webhook.ts).

 The guard's `Map` is the list of its entries in insertion order.  The clock is whatever `Date.now()`
 says at each call; it is not assumed to advance.
 */
module ReplayGuard {
  import opened Options

  datatype Mark = Reserved | Until(time: int)

  datatype Entry = Entry(id: string, mark: Mark)

  type Entries = seq<Entry>

  datatype Settings = Settings(maxEntries: nat, ttl: int)

  // ---------------------------------------------------------------- the map

  predicate Has(entries: Entries, id: string) {
    exists k :: 0 <= k < |entries| && entries[k].id == id
  }

  ghost predicate UniqueIds(entries: Entries) {
    forall j, k :: 0 <= j < k < |entries| ==> entries[j].id != entries[k].id
  }

  function Position(entries: Entries, id: string): (k: nat)
    requires Has(entries, id)
    ensures k < |entries| && entries[k].id == id && forall j :: 0 <= j < k ==> entries[j].id != id
  {
    if entries[0].id == id then 0 else 1 + Position(entries[1..], id)
  }

  function MarkOf(entries: Entries, id: string): Option<Mark> {
    if Has(entries, id) then Some(entries[Position(entries, id)].mark) else None
  }

  function Delete(entries: Entries, id: string): Entries {
    if entries == [] then [] else if entries[0].id == id then entries[1..] else [entries[0]] + Delete(entries[1..], id)
  }

  /** `Map.set` of an existing key, which keeps its place. */
  function Put(entries: Entries, id: string, mark: Mark): Entries
    requires Has(entries, id)
  {
    entries[Position(entries, id) := Entry(id, mark)]
  }

  // ---------------------------------------------------------------- the operations

  predicate Current(e: Entry, now: int) {
    e.mark.Reserved? || e.mark.time > now
  }

  function Unexpired(entries: Entries, now: int): Entries {
    if entries == [] then []
    else (if Current(entries[0], now) then [entries[0]] else []) + Unexpired(entries[1..], now)
  }

  function Newest(entries: Entries, count: nat): Entries {
    if |entries| <= count then entries else entries[|entries| - count..]
  }

  function Pruned(entries: Entries, now: int, settings: Settings): Entries {
    Newest(Unexpired(entries, now), settings.maxEntries)
  }

  datatype Operation =
    | Reserve(id: string, now: int)
    | CheckAndRemember(id: string, now: int)
    | Look(now: int)
    | Commit(id: string, now: int)
    | Rollback(id: string)

  /** What is left when expired, evicted and rolled back entries are gone. */
  function Kept(entries: Entries, op: Operation, settings: Settings): Entries {
    match op
    case Commit(_, _) => entries
    case Rollback(id) => if MarkOf(entries, id) == Some(Reserved) then Delete(entries, id) else entries
    case _ => Pruned(entries, op.now, settings)
  }

  /** The delivery is accepted: it was not in the map, and now is. */
  predicate Accepts(entries: Entries, op: Operation, settings: Settings) {
    (op.Reserve? || op.CheckAndRemember?) && !Has(Kept(entries, op, settings), op.id)
  }

  function Apply(entries: Entries, op: Operation, settings: Settings): Entries {
    var kept := Kept(entries, op, settings);
    match op
    case Reserve(id, _) => if Has(kept, id) then kept else kept + [Entry(id, Reserved)]
    case CheckAndRemember(id, now) => if Has(kept, id) then kept else kept + [Entry(id, Until(now + settings.ttl))]
    case Look(_) => kept
    case Commit(id, now) => if MarkOf(kept, id) == Some(Reserved) then Put(kept, id, Until(now + settings.ttl)) else kept
    case Rollback(_) => kept
  }

  ghost predicate Run(states: seq<Entries>, ops: seq<Operation>, settings: Settings) {
    && |states| == |ops| + 1
    && states[0] == []
    && forall k {:trigger ops[k]} :: 0 <= k < |ops| ==> states[k + 1] == Apply(states[k], ops[k], settings)
  }

  // ---------------------------------------------------------------- order and uniqueness

  lemma {:induction false} UnexpiredMembers(entries: Entries, now: int)
    requires UniqueIds(entries)
    ensures UniqueIds(Unexpired(entries, now)) && |Unexpired(entries, now)| <= |entries|
    ensures forall e :: e in Unexpired(entries, now) <==> e in entries && Current(e, now)
  {
    if entries != [] {
      var rest := entries[1..];
      TailUnique(entries);
      UnexpiredMembers(rest, now);
      assert entries == [entries[0]] + rest;
      forall e | e in Unexpired(rest, now) ensures e.id != entries[0].id {
        var k :| 0 <= k < |rest| && rest[k] == e;
        assert entries[k + 1] == e;
      }
    }
  }

  lemma TailUnique(entries: Entries)
    requires entries != [] && UniqueIds(entries)
    ensures UniqueIds(entries[1..]) && !Has(entries[1..], entries[0].id)
  {
  }

  /** The number of entries inserted after this one and still there. */
  function Later(entries: Entries, id: string): nat
    requires Has(entries, id)
  {
    |entries| - 1 - Position(entries, id)
  }

  /** Dropping expired entries drops this one only if it expired, and puts nothing behind it. */
  lemma {:induction false} UnexpiredKeeps(entries: Entries, id: string, now: int)
    requires UniqueIds(entries) && Has(entries, id)
    ensures var e := entries[Position(entries, id)];
      && (Has(Unexpired(entries, now), id) <==> Current(e, now))
      && (Current(e, now) ==>
            && MarkOf(Unexpired(entries, now), id) == Some(e.mark)
            && Later(Unexpired(entries, now), id) <= Later(entries, id))
  {
    var rest, left := entries[1..], Unexpired(entries, now);
    var tail := Unexpired(rest, now);
    TailUnique(entries);
    UnexpiredMembers(rest, now);
    if entries[0].id == id {
      forall k | 0 <= k < |tail| ensures tail[k].id != id {
        assert tail[k] in rest;
      }
      if Current(entries[0], now) {
        assert left[0] == entries[0];
      } else {
        assert left == tail;
      }
    } else {
      assert rest[Position(entries, id) - 1].id == id;
      UnexpiredKeeps(rest, id, now);
      if Current(entries[0], now) {
        assert left == [entries[0]] + tail;
        BehindAnother(entries[0], tail, id);
      } else {
        assert left == tail;
      }
    }
  }

  lemma BehindAnother(first: Entry, rest: Entries, id: string)
    requires first.id != id
    ensures Has([first] + rest, id) <==> Has(rest, id)
    ensures Has(rest, id) ==> MarkOf([first] + rest, id) == MarkOf(rest, id) && Later([first] + rest, id) == Later(rest, id)
  {
  }

  /** Keeping the newest drops an entry only when at least that many were inserted after it. */
  lemma NewestKeeps(entries: Entries, id: string, count: nat)
    requires UniqueIds(entries) && Has(entries, id)
    ensures Has(Newest(entries, count), id) <==> Later(entries, id) < count
    ensures Later(entries, id) < count ==>
      && MarkOf(Newest(entries, count), id) == MarkOf(entries, id)
      && Later(Newest(entries, count), id) == Later(entries, id)
    ensures UniqueIds(Newest(entries, count))
  {
  }

  lemma PrunedUnique(entries: Entries, now: int, settings: Settings)
    requires UniqueIds(entries)
    ensures UniqueIds(Pruned(entries, now, settings)) && |Pruned(entries, now, settings)| <= settings.maxEntries
  {
    UnexpiredMembers(entries, now);
  }

  lemma {:induction false} DeleteMembers(entries: Entries, id: string)
    requires UniqueIds(entries)
    ensures UniqueIds(Delete(entries, id)) && |Delete(entries, id)| <= |entries| && !Has(Delete(entries, id), id)
    ensures forall e :: e in Delete(entries, id) <==> e in entries && e.id != id
  {
    if entries != [] {
      var rest := entries[1..];
      TailUnique(entries);
      DeleteMembers(rest, id);
      assert entries == [entries[0]] + rest;
      if entries[0].id == id {
        forall e | e in rest ensures e.id != id {
          var k :| 0 <= k < |rest| && rest[k] == e;
        }
      } else {
        forall e | e in Delete(rest, id) ensures e.id != entries[0].id {
          var k :| 0 <= k < |rest| && rest[k] == e;
        }
        UniqueWithHead(entries[0], Delete(rest, id));
      }
    }
  }

  lemma UniqueWithHead(e: Entry, rest: Entries)
    requires UniqueIds(rest) && forall f :: f in rest ==> f.id != e.id
    ensures UniqueIds([e] + rest)
    ensures forall id :: Has([e] + rest, id) ==> e.id == id || Has(rest, id)
  {
  }

  lemma {:induction false} DeleteKeeps(entries: Entries, gone: string, id: string)
    requires UniqueIds(entries) && Has(entries, id) && gone != id
    ensures Has(Delete(entries, gone), id) && MarkOf(Delete(entries, gone), id) == MarkOf(entries, id)
    ensures Later(Delete(entries, gone), id) <= Later(entries, id)
  {
    var rest, left := entries[1..], Delete(entries, gone);
    TailUnique(entries);
    if entries[0].id == id {
      assert left[0] == entries[0];
      DeleteMembers(rest, gone);
    } else {
      assert rest[Position(entries, id) - 1].id == id;
      if entries[0].id != gone {
        DeleteKeeps(rest, gone, id);
        assert left[1..] == Delete(rest, gone);
        assert left[Position(Delete(rest, gone), id) + 1].id == id;
      }
    }
  }

  /** One operation keeps ids unique and never holds more than one entry above the maximum. */
  lemma ApplyKeepsUnique(entries: Entries, op: Operation, settings: Settings)
    requires UniqueIds(entries) && |entries| <= settings.maxEntries + 1
    ensures UniqueIds(Apply(entries, op, settings)) && |Apply(entries, op, settings)| <= settings.maxEntries + 1
  {
    if op.Rollback? {
      DeleteMembers(entries, op.id);
    } else if !op.Commit? {
      PrunedUnique(entries, op.now, settings);
    }
  }

  lemma {:induction false} UniqueAlongRun(states: seq<Entries>, ops: seq<Operation>, settings: Settings, n: nat)
    requires Run(states, ops, settings) && n < |states|
    ensures UniqueIds(states[n]) && |states[n]| <= settings.maxEntries + 1
  {
    if n > 0 {
      UniqueAlongRun(states, ops, settings, n - 1);
      ApplyKeepsUnique(states[n - 1], ops[n - 1], settings);
    }
  }

  /** The map can exceed the maximum by one entry, never more; every prune brings it back within. */
  lemma SizeBound(states: seq<Entries>, ops: seq<Operation>, settings: Settings, n: nat)
    requires Run(states, ops, settings) && n < |ops|
    ensures |states[n]| <= settings.maxEntries + 1
    ensures ops[n].Look? ==> |states[n + 1]| <= settings.maxEntries
  {
    UniqueAlongRun(states, ops, settings, n);
    if ops[n].Look? {
      PrunedUnique(states[n], ops[n].now, settings);
    }
  }

  // ---------------------------------------------------------------- why an entry goes

  predicate Dropped(entries: Entries, op: Operation, id: string, settings: Settings) {
    Has(entries, id) && !Has(Kept(entries, op, settings), id)
  }

  /** Rolled back while reserved, expired, or evicted with enough entries behind it: there is no other way. */
  lemma DropIsExplained(entries: Entries, op: Operation, id: string, settings: Settings)
    requires UniqueIds(entries) && Dropped(entries, op, id, settings)
    ensures
      || (MarkOf(entries, id) == Some(Reserved) && op == Rollback(id))
      || (!op.Commit? && !op.Rollback? && MarkOf(entries, id).value.Until? && MarkOf(entries, id).value.time <= op.now)
      || (!op.Commit? && !op.Rollback? && Later(entries, id) >= settings.maxEntries)
  {
    if op.Rollback? {
      if op.id != id {
        DeleteKeeps(entries, op.id, id);
      }
    } else if !op.Commit? {
      UnexpiredKeeps(entries, id, op.now);
      UnexpiredMembers(entries, op.now);
      if Has(Unexpired(entries, op.now), id) {
        NewestKeeps(Unexpired(entries, op.now), id, settings.maxEntries);
      }
    }
  }

  /** An entry that stays keeps its mark unless committed, and at most one entry is put behind it. */
  lemma StayIsQuiet(entries: Entries, op: Operation, id: string, settings: Settings)
    requires UniqueIds(entries) && Has(entries, id) && !Dropped(entries, op, id, settings)
    ensures var next := Apply(entries, op, settings);
      && Has(next, id)
      && Later(next, id) <= Later(entries, id) + (if Accepts(entries, op, settings) then 1 else 0)
      && (MarkOf(next, id) == MarkOf(entries, id)
          || (MarkOf(entries, id) == Some(Reserved) && op.Commit? && op.id == id && MarkOf(next, id) == Some(Until(op.now + settings.ttl))))
  {
    var kept, next := Kept(entries, op, settings), Apply(entries, op, settings);
    KeptIsQuiet(entries, op, id, settings);
    var p := Position(kept, id);
    assert next[p].id == id;
    assert forall k :: 0 <= k < p ==> next[k].id == kept[k].id;
    assert Position(next, id) == p;
  }

  lemma KeptIsQuiet(entries: Entries, op: Operation, id: string, settings: Settings)
    requires UniqueIds(entries) && Has(entries, id) && !Dropped(entries, op, id, settings)
    ensures var kept := Kept(entries, op, settings);
      Has(kept, id) && MarkOf(kept, id) == MarkOf(entries, id) && Later(kept, id) <= Later(entries, id)
  {
    if op.Rollback? {
      if MarkOf(entries, op.id) == Some(Reserved) {
        DeleteMembers(entries, op.id);
        DeleteKeeps(entries, op.id, id);
      }
    } else if !op.Commit? {
      UnexpiredKeeps(entries, id, op.now);
      UnexpiredMembers(entries, op.now);
      NewestHas(Unexpired(entries, op.now), id, settings.maxEntries);
      NewestKeeps(Unexpired(entries, op.now), id, settings.maxEntries);
    }
  }

  lemma NewestHas(entries: Entries, id: string, count: nat)
    requires Has(Newest(entries, count), id)
    ensures Has(entries, id)
  {
  }

  // ---------------------------------------------------------------- between two acceptances

  function Acceptances(states: seq<Entries>, ops: seq<Operation>, first: nat, second: nat, settings: Settings): nat
    requires first <= second <= |ops| == |states| - 1
  {
    if first == second then 0
    else Acceptances(states, ops, first, second - 1, settings) + (if Accepts(states[second - 1], ops[second - 1], settings) then 1 else 0)
  }

  function AcceptedSteps(states: seq<Entries>, ops: seq<Operation>, first: nat, second: nat, settings: Settings): set<nat>
    requires first <= second <= |ops| == |states| - 1
  {
    set k: nat | first <= k < second && AcceptsAt(states, ops, k, settings)
  }

  predicate AcceptsAt(states: seq<Entries>, ops: seq<Operation>, k: nat, settings: Settings)
    requires k < |ops| == |states| - 1
  {
    Accepts(states[k], ops[k], settings)
  }

  lemma {:induction false} AcceptancesAreCounted(states: seq<Entries>, ops: seq<Operation>, first: nat, second: nat, settings: Settings)
    requires first <= second <= |ops| == |states| - 1
    ensures Acceptances(states, ops, first, second, settings) == |AcceptedSteps(states, ops, first, second, settings)|
  {
    if first < second {
      AcceptancesAreCounted(states, ops, first, second - 1, settings);
      OneMoreStep(states, ops, first, second, settings);
    } else {
      assert AcceptedSteps(states, ops, first, second, settings) == {};
    }
  }

  lemma OneMoreStep(states: seq<Entries>, ops: seq<Operation>, first: nat, second: nat, settings: Settings)
    requires first < second <= |ops| == |states| - 1
    ensures |AcceptedSteps(states, ops, first, second, settings)| ==
            |AcceptedSteps(states, ops, first, second - 1, settings)| + (if AcceptsAt(states, ops, second - 1, settings) then 1 else 0)
  {
    var before := AcceptedSteps(states, ops, first, second - 1, settings);
    assert AcceptedSteps(states, ops, first, second, settings) ==
           if AcceptsAt(states, ops, second - 1, settings) then before + {second - 1} else before;
  }

  /** A mark with an expiry was put there by a commit, or by the acceptance itself, that long before. */
  ghost predicate Dated(ops: seq<Operation>, first: nat, second: nat, id: string, mark: Mark, settings: Settings)
    requires first < second <= |ops|
  {
    mark.Until? ==> exists c :: first <= c < second && Dates(ops, first, c, id, mark.time, settings)
  }

  predicate Dates(ops: seq<Operation>, first: nat, c: nat, id: string, time: int, settings: Settings)
    requires first <= c < |ops|
  {
    (ops[c].Commit? || (c == first && ops[c].CheckAndRemember?)) && ops[c].id == id && time == ops[c].now + settings.ttl
  }

  /** A rollback of the delivery, its expiry after a commit, or at least `maxEntries` later acceptances. */
  ghost predicate Explained(states: seq<Entries>, ops: seq<Operation>, first: nat, j: nat, id: string, settings: Settings)
    requires first < j < |ops| == |states| - 1
  {
    || (ops[j] == Rollback(id) && MarkOf(states[j], id) == Some(Reserved))
    || (!ops[j].Rollback? && !ops[j].Commit? && exists c, time :: first <= c < j && Dates(ops, first, c, id, time, settings) && time <= ops[j].now)
    || Acceptances(states, ops, first + 1, j, settings) >= settings.maxEntries
  }

  /** What is known of the accepted entry just before operation `m`. */
  ghost predicate Tracked(states: seq<Entries>, ops: seq<Operation>, first: nat, m: nat, id: string, settings: Settings)
    requires first < m <= |ops| == |states| - 1
  {
    && UniqueIds(states[m])
    && Has(states[m], id)
    && Later(states[m], id) <= Acceptances(states, ops, first + 1, m, settings)
    && Dated(ops, first, m, id, MarkOf(states[m], id).value, settings)
  }

  lemma TrackedDropExplained(states: seq<Entries>, ops: seq<Operation>, first: nat, m: nat, id: string, settings: Settings)
    requires first < m < |ops| == |states| - 1 && Tracked(states, ops, first, m, id, settings)
    requires Dropped(states[m], ops[m], id, settings)
    ensures Explained(states, ops, first, m, id, settings)
  {
    DropIsExplained(states[m], ops[m], id, settings);
  }

  lemma TrackedStays(states: seq<Entries>, ops: seq<Operation>, first: nat, m: nat, id: string, settings: Settings)
    requires first < m < |ops| == |states| - 1 && Tracked(states, ops, first, m, id, settings)
    requires !Dropped(states[m], ops[m], id, settings) && states[m + 1] == Apply(states[m], ops[m], settings)
    requires UniqueIds(states[m + 1])
    ensures Tracked(states, ops, first, m + 1, id, settings)
  {
    StayIsQuiet(states[m], ops[m], id, settings);
    var mark := MarkOf(states[m + 1], id).value;
    if mark.Until? {
      if MarkOf(states[m], id) == Some(mark) {
        var c :| first <= c < m && Dates(ops, first, c, id, mark.time, settings);
        assert Dates(ops, first, c, id, mark.time, settings);
      } else {
        assert Dates(ops, first, m, id, mark.time, settings);
      }
    }
  }

  ghost predicate StepAt(states: seq<Entries>, ops: seq<Operation>, k: nat, settings: Settings)
    requires k < |ops| == |states| - 1
  {
    states[k + 1] == Apply(states[k], ops[k], settings) && UniqueIds(states[k + 1])
  }

  lemma TrackedOneStep(states: seq<Entries>, ops: seq<Operation>, first: nat, m: nat, id: string, settings: Settings)
    requires first < m < |ops| == |states| - 1 && StepAt(states, ops, m, settings) && Tracked(states, ops, first, m, id, settings)
    ensures Dropped(states[m], ops[m], id, settings) || Tracked(states, ops, first, m + 1, id, settings)
    ensures !Dropped(states[m], ops[m], id, settings) ==> !(Accepts(states[m], ops[m], settings) && ops[m].id == id)
  {
    if !Dropped(states[m], ops[m], id, settings) {
      TrackedStays(states, ops, first, m, id, settings);
    }
  }

  lemma {:induction false} FindDrop(states: seq<Entries>, ops: seq<Operation>, first: nat, m: nat, second: nat,
                                    id: string, settings: Settings)
    returns (j: nat)
    requires first < m <= second < |ops| == |states| - 1
    requires forall k :: 0 <= k < |ops| ==> StepAt(states, ops, k, settings)
    requires Accepts(states[second], ops[second], settings) && ops[second].id == id
    requires Tracked(states, ops, first, m, id, settings)
    ensures first < j <= second && Dropped(states[j], ops[j], id, settings) && Tracked(states, ops, first, j, id, settings)
    decreases second - m
  {
    assert StepAt(states, ops, m, settings);
    TrackedOneStep(states, ops, first, m, id, settings);
    if Dropped(states[m], ops[m], id, settings) {
      j := m;
    } else {
      j := FindDrop(states, ops, first, m + 1, second, id, settings);
    }
  }

  lemma TrackedFromAcceptance(states: seq<Entries>, ops: seq<Operation>, first: nat, id: string, settings: Settings)
    requires first < |ops| == |states| - 1 && StepAt(states, ops, first, settings)
    requires Accepts(states[first], ops[first], settings) && ops[first].id == id
    ensures Tracked(states, ops, first, first + 1, id, settings)
  {
    var kept, next := Kept(states[first], ops[first], settings), states[first + 1];
    assert next[|kept|].id == id && (forall k :: 0 <= k < |kept| ==> next[k].id == kept[k].id);
    assert Position(next, id) == |kept|;
    if ops[first].CheckAndRemember? {
      assert Dates(ops, first, first, id, MarkOf(next, id).value.time, settings);
    }
  }

  /**
   Over every interleaving of calls: between two acceptances of one delivery its entry was dropped, by a
   rollback while it was reserved, because the time to live had passed since it was committed, or after
   at least `maxEntries` other acceptances.
   */
  lemma SecondAcceptanceIsExplained(states: seq<Entries>, ops: seq<Operation>, first: nat, second: nat,
                                    id: string, settings: Settings)
    requires Run(states, ops, settings) && first < second < |ops|
    requires Accepts(states[first], ops[first], settings) && ops[first].id == id
    requires Accepts(states[second], ops[second], settings) && ops[second].id == id
    ensures exists j :: first < j <= second && Dropped(states[j], ops[j], id, settings) && Explained(states, ops, first, j, id, settings)
  {
    forall k | 0 <= k < |ops| ensures StepAt(states, ops, k, settings) {
      UniqueAlongRun(states, ops, settings, k + 1);
    }
    var j := ExplainedDrop(states, ops, first, second, id, settings);
  }

  lemma ExplainedDrop(states: seq<Entries>, ops: seq<Operation>, first: nat, second: nat, id: string, settings: Settings)
    returns (j: nat)
    requires first < second < |ops| == |states| - 1
    requires forall k :: 0 <= k < |ops| ==> StepAt(states, ops, k, settings)
    requires Accepts(states[first], ops[first], settings) && ops[first].id == id
    requires Accepts(states[second], ops[second], settings) && ops[second].id == id
    ensures first < j <= second && Dropped(states[j], ops[j], id, settings) && Explained(states, ops, first, j, id, settings)
  {
    TrackedFromAcceptance(states, ops, first, id, settings);
    j := FindDrop(states, ops, first, first + 1, second, id, settings);
    TrackedDropExplained(states, ops, first, j, id, settings);
  }

  /** Once committed, a rollback changes nothing; and a commit moves no entry. */
  lemma RollbackAfterCommit(entries: Entries, id: string, now: int, settings: Settings)
    requires UniqueIds(entries)
    ensures var committed := Apply(entries, Commit(id, now), settings);
      && Apply(committed, Rollback(id), settings) == committed
      && |committed| == |entries|
      && forall k :: 0 <= k < |entries| ==> committed[k].id == entries[k].id && (entries[k].id != id ==> committed[k] == entries[k])
  {
  }

  // ---------------------------------------------------------------- what an operation means for the next delivery

  /** A dated entry refuses its delivery exactly before its date, while fewer than `maxEntries` unexpired ones follow it. */
  lemma DatedRefusesIff(entries: Entries, id: string, until: int, now: int, settings: Settings)
    requires UniqueIds(entries) && MarkOf(entries, id) == Some(Until(until))
    ensures !Accepts(entries, Reserve(id, now), settings) <==>
      now < until && Has(Unexpired(entries, now), id) && Later(Unexpired(entries, now), id) < settings.maxEntries
  {
    UnexpiredKeeps(entries, id, now);
    UnexpiredMembers(entries, now);
    if Has(Unexpired(entries, now), id) {
      NewestKeeps(Unexpired(entries, now), id, settings.maxEntries);
    } else if Has(Pruned(entries, now, settings), id) {
      NewestHas(Unexpired(entries, now), id, settings.maxEntries);
    }
  }

  lemma CommitDates(entries: Entries, id: string, committed: int, settings: Settings)
    requires UniqueIds(entries) && MarkOf(entries, id) == Some(Reserved)
    ensures var after := Apply(entries, Commit(id, committed), settings);
      UniqueIds(after) && MarkOf(after, id) == Some(Until(committed + settings.ttl))
  {
    var k := Position(entries, id);
    var after := Apply(entries, Commit(id, committed), settings);
    assert after[k].id == id;
    assert forall i :: 0 <= i < |after| && i != k ==> after[i].id != id;
  }

  /** A committed delivery is refused for exactly the time to live, while there is room for its entry. */
  lemma CommittedRefusedIff(entries: Entries, id: string, committed: int, now: int, settings: Settings)
    requires UniqueIds(entries) && MarkOf(entries, id) == Some(Reserved)
    ensures var after := Apply(entries, Commit(id, committed), settings);
      !Accepts(after, Reserve(id, now), settings) <==>
        now < committed + settings.ttl && Has(Unexpired(after, now), id) && Later(Unexpired(after, now), id) < settings.maxEntries
  {
    CommitDates(entries, id, committed, settings);
    DatedRefusesIff(Apply(entries, Commit(id, committed), settings), id, committed + settings.ttl, now, settings);
  }

  /** A reservation that was rolled back leaves no trace: its delivery is accepted again at once. */
  lemma RolledBackIsAccepted(entries: Entries, id: string, now: int, settings: Settings)
    requires UniqueIds(entries) && MarkOf(entries, id) == Some(Reserved)
    ensures Accepts(Apply(entries, Rollback(id), settings), Reserve(id, now), settings)
  {
    var after := Apply(entries, Rollback(id), settings);
    DeleteMembers(entries, id);
    UnexpiredMembers(after, now);
    forall e | e in Unexpired(after, now) ensures e.id != id {
    }
    if Has(Pruned(after, now, settings), id) {
      NewestHas(Unexpired(after, now), id, settings.maxEntries);
    }
  }
}
