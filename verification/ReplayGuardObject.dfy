/** The replay guard as an object updated in place (apps/github-bot/src/webhook.ts). */
module ReplayGuardObject {
  import opened Options
  import opened ReplayGuard

  class Guard {
    const settings: Settings
    var entries: Entries

    constructor (settings: Settings)
      ensures this.settings == settings && entries == []
    {
      this.settings, entries := settings, [];
    }

    /** Deletes the expired entries, then the oldest ones above the maximum. */
    method Prune(now: int)
      modifies this`entries
      ensures entries == Pruned(old(entries), now, settings)
    {
      ghost var before := entries;
      var kept: Entries, k := [], 0;
      assert [] + Unexpired(before[0..], now) == Unexpired(before, now);
      while k < |entries|
        invariant 0 <= k <= |entries| && entries == before
        invariant kept + Unexpired(before[k..], now) == Unexpired(before, now)
      {
        assert before[k..][1..] == before[k + 1..];
        if entries[k].mark == Reserved || entries[k].mark.time > now {
          kept := kept + [entries[k]];
        }
        k := k + 1;
      }
      assert before[k..] == [] && kept + [] == kept;
      entries := kept;
      while |entries| > settings.maxEntries
        invariant Newest(entries, settings.maxEntries) == Pruned(before, now, settings)
        decreases |entries|
      {
        entries := entries[1..];
      }
    }

    method Reserve(id: string, now: int) returns (reserved: bool)
      modifies this`entries
      ensures entries == ReplayGuard.Apply(old(entries), ReplayGuard.Operation.Reserve(id, now), settings)
      ensures reserved <==> Accepts(old(entries), ReplayGuard.Operation.Reserve(id, now), settings)
    {
      Prune(now);
      if Has(entries, id) {
        return false;
      }
      entries := entries + [Entry(id, Reserved)];
      reserved := true;
    }

    /** Only a reservation is committed; the entry keeps its place. */
    method Commit(id: string, now: int)
      modifies this`entries
      ensures entries == ReplayGuard.Apply(old(entries), ReplayGuard.Operation.Commit(id, now), settings)
    {
      var mark := MarkOf(entries, id);
      if mark == Some(Reserved) {
        entries := Put(entries, id, Until(now + settings.ttl));
      }
    }

    /** Only a reservation is rolled back. */
    method Rollback(id: string)
      modifies this`entries
      ensures entries == ReplayGuard.Apply(old(entries), ReplayGuard.Operation.Rollback(id), settings)
    {
      var mark := MarkOf(entries, id);
      if mark == Some(Reserved) {
        entries := Delete(entries, id);
      }
    }

    /** One-phase use: after the prune an entry that is still there is always a replay. */
    method CheckAndRemember(id: string, now: int) returns (replay: bool)
      requires UniqueIds(entries)
      modifies this`entries
      ensures entries == ReplayGuard.Apply(old(entries), ReplayGuard.Operation.CheckAndRemember(id, now), settings)
      ensures replay <==> !Accepts(old(entries), ReplayGuard.Operation.CheckAndRemember(id, now), settings)
    {
      Prune(now);
      if Has(entries, id) {
        var mark := MarkOf(entries, id).value;
        StillCurrent(old(entries), id, now, settings);
        if mark.Reserved? || mark.time > now {
          return true;
        }
        // The deletion of an expired entry here is unreachable.
        assert false;
      }
      entries := entries + [Entry(id, Until(now + settings.ttl))];
      replay := false;
    }

    method IsReplay(id: string, now: int) returns (replay: bool)
      requires UniqueIds(entries)
      modifies this`entries
      ensures entries == ReplayGuard.Apply(old(entries), Look(now), settings)
      ensures replay <==> Has(entries, id)
    {
      Prune(now);
      var mark := MarkOf(entries, id);
      if mark.None? {
        return false;
      }
      StillCurrent(old(entries), id, now, settings);
      replay := mark.value.Reserved? || mark.value.time > now;
    }

    method Size(now: int) returns (size: nat)
      requires UniqueIds(entries)
      modifies this`entries
      ensures entries == ReplayGuard.Apply(old(entries), Look(now), settings)
      ensures size == |entries| <= settings.maxEntries
    {
      PrunedUnique(entries, now, settings);
      Prune(now);
      size := |entries|;
    }
  }

  /** Nothing expired survives a prune, so the expiry is never the reason to accept an entry that is there. */
  lemma StillCurrent(entries: Entries, id: string, now: int, settings: Settings)
    requires UniqueIds(entries) && Has(Pruned(entries, now, settings), id)
    ensures var mark := MarkOf(Pruned(entries, now, settings), id).value;
      mark.Reserved? || mark.time > now
  {
    var left := Pruned(entries, now, settings);
    UnexpiredMembers(entries, now);
    var e := left[Position(left, id)];
    assert e in Unexpired(entries, now);
  }
}
