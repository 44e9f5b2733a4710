/**
 The registries as the source keeps them: three maps updated in place, and a table changed by
 deletes, an insert and a trimming loop.  Both are proved to be the lists of ResultRegistry.
 */
module ResultRegistryObjects {
  import opened Options
  import opened Text
  import opened ResultRegistry

  /** A secondary index names, for each key in use, the verification that is retained under it. */
  ghost predicate Indexes(es: seq<Entry>, index: map<string, string>, ix: Index) {
    forall k :: (k in index <==> Find(es, ix, k).Some?) && (k in index ==> index[k] == Find(es, ix, k).value.result.id)
  }

  function Purged(index: map<string, string>, verificationId: string): map<string, string> {
    map k | k in index && index[k] != verificationId :: index[k]
  }

  function Ids(es: seq<Entry>): seq<string> {
    seq(|es|, i requires 0 <= i < |es| => es[i].result.id)
  }

  class InMemoryRegistry {
    const maxResults: nat
    var byVerificationId: map<string, VerificationResult>
    var insertionOrder: seq<string>                        // the keys of byVerificationId, oldest first
    var verificationIdByJobId: map<string, string>
    var verificationIdByQueueJobId: map<string, string>
    ghost var entries: seq<Entry>

    ghost predicate Valid()
      reads this
    {
      && maxResults > 0
      && |entries| <= maxResults
      && Consistent()
    }

    /** The three maps tell the same story as the list. */
    ghost predicate Consistent()
      reads this
    {
      && Unique(entries)
      && insertionOrder == Ids(entries)
      && (forall k :: k in byVerificationId <==> Find(entries, ByVerification, k).Some?)
      && (forall k :: k in byVerificationId ==> byVerificationId[k] == Find(entries, ByVerification, k).value.result)
      && Indexes(entries, verificationIdByJobId, ByNativeJob)
      && Indexes(entries, verificationIdByQueueJobId, ByQueueJob)
    }

    constructor (maxResults: nat)
      requires maxResults > 0
      ensures Valid() && entries == [] && this.maxResults == maxResults
    {
      this.maxResults := maxResults;
      byVerificationId, insertionOrder := map[], [];
      verificationIdByJobId, verificationIdByQueueJobId := map[], map[];
      entries := [];
    }

    method ClearSecondaryMappings(verificationId: string)
      modifies this`verificationIdByJobId, this`verificationIdByQueueJobId
      ensures verificationIdByJobId == Purged(old(verificationIdByJobId), verificationId)
      ensures verificationIdByQueueJobId == Purged(old(verificationIdByQueueJobId), verificationId)
    {
      verificationIdByJobId := PurgeLoop(verificationIdByJobId, verificationId);
      verificationIdByQueueJobId := PurgeLoop(verificationIdByQueueJobId, verificationId);
    }

    static method PurgeLoop(index: map<string, string>, verificationId: string) returns (left: map<string, string>)
      ensures left == Purged(index, verificationId)
    {
      left := index;
      var keys := index.Keys;
      while keys != {}
        invariant keys <= left.Keys <= index.Keys
        invariant forall k :: k in index && k !in keys ==> (k in left <==> index[k] != verificationId)
        invariant forall k :: k in left ==> left[k] == index[k]
      {
        var k :| k in keys;
        keys := keys - {k};
        if left[k] == verificationId {
          left := left - {k};
        }
      }
    }

    method EvictOldest()
      requires Consistent() && |entries| > 0
      modifies this
      ensures Consistent() && entries == old(entries)[1..]
    {
      var oldest := insertionOrder[0];
      EvictionIsExact(entries, verificationIdByJobId, ByNativeJob);
      EvictionIsExact(entries, verificationIdByQueueJobId, ByQueueJob);
      EvictionDropsOne(entries);
      byVerificationId := byVerificationId - {oldest};
      insertionOrder := insertionOrder[1..];
      ClearSecondaryMappings(oldest);
      entries := entries[1..];
      assert insertionOrder == Ids(entries);
    }

    method Store(queueJobId: string, result: VerificationResult) returns (stored: Result<VerificationResult, Error>)
      requires Valid()
      modifies this
      ensures Valid()
      ensures entries == After(MemoryStore(old(entries), maxResults, queueJobId, result), old(entries))
      ensures stored == match MemoryStore(old(entries), maxResults, queueJobId, result)
                        case Ok(_) => Ok(result)
                        case Err(e) => Err(e)
      ensures stored.Err? ==> unchanged(this)
    {
      if Blank(queueJobId) {
        return Err(BlankQueueJobId);
      }
      if result.jobId in verificationIdByJobId && verificationIdByJobId[result.jobId] != result.id {
        return Err(NativeJobTaken);
      }
      if queueJobId in verificationIdByQueueJobId && verificationIdByQueueJobId[queueJobId] != result.id {
        return Err(QueueJobTaken);
      }
      assert MemoryConflict(entries, queueJobId, result).None?;
      if result.id in byVerificationId {
        Replace(queueJobId, result);
      } else {
        Append(queueJobId, result);
      }
      EvictExcess();
      return Ok(result);
    }

    method EvictExcess()
      requires Consistent()
      modifies this
      ensures Consistent() && entries == Newest(old(entries), maxResults)
    {
      while |insertionOrder| > maxResults
        invariant Consistent() && |entries| <= |old(entries)| && entries == old(entries)[|old(entries)| - |entries|..]
        invariant |entries| == |old(entries)| || |entries| >= maxResults
      {
        EvictOldest();
      }
    }

    /** The three `set` calls of a verification already retained: every Map keeps its position. */
    method Replace(queueJobId: string, result: VerificationResult)
      requires Consistent() && MemoryConflict(entries, queueJobId, result).None? && result.id in byVerificationId
      modifies this
      ensures Consistent() && entries == Replaced(old(entries), Entry(queueJobId, result))
    {
      ReplacementIsExact(entries, queueJobId, result, verificationIdByJobId, ByNativeJob);
      ReplacementIsExact(entries, queueJobId, result, verificationIdByQueueJobId, ByQueueJob);
      ReplacedUnique(entries, queueJobId, result);
      ReplacedFinds(entries, queueJobId, result);
      FindsUnderOwnId(entries);
      ClearSecondaryMappings(result.id);
      byVerificationId := byVerificationId[result.id := result];
      verificationIdByJobId := verificationIdByJobId[result.jobId := result.id];
      verificationIdByQueueJobId := verificationIdByQueueJobId[queueJobId := result.id];
      entries := Replaced(entries, Entry(queueJobId, result));
    }

    /** The same calls for a new verification. */
    method Append(queueJobId: string, result: VerificationResult)
      requires Consistent() && MemoryConflict(entries, queueJobId, result).None? && result.id !in byVerificationId
      modifies this
      ensures Consistent() && entries == old(entries) + [Entry(queueJobId, result)]
    {
      MemoryAppends(entries, queueJobId, result);
      AppendIsExact(entries, Entry(queueJobId, result));
      insertionOrder := insertionOrder + [result.id];
      byVerificationId := byVerificationId[result.id := result];
      verificationIdByJobId := verificationIdByJobId[result.jobId := result.id];
      verificationIdByQueueJobId := verificationIdByQueueJobId[queueJobId := result.id];
      entries := entries + [Entry(queueJobId, result)];
      assert insertionOrder == Ids(entries);
    }

    method GetByVerificationId(id: string) returns (found: Option<VerificationResult>)
      requires Valid()
      ensures found == ResultOf(Find(entries, ByVerification, id))
    {
      found := if id in byVerificationId then Some(byVerificationId[id]) else None;
    }

    method GetByJobId(jobId: string) returns (found: Option<VerificationResult>)
      requires Valid()
      ensures found == ResultOf(Find(entries, ByNativeJob, jobId))
    {
      found := Lookup(verificationIdByJobId, jobId, ByNativeJob);
    }

    method GetByQueueJobId(queueJobId: string) returns (found: Option<VerificationResult>)
      requires Valid()
      ensures found == ResultOf(Find(entries, ByQueueJob, queueJobId))
    {
      found := Lookup(verificationIdByQueueJobId, queueJobId, ByQueueJob);
    }

    method Lookup(index: map<string, string>, key: string, ghost ix: Index) returns (found: Option<VerificationResult>)
      requires Valid() && Indexes(entries, index, ix)
      ensures found == ResultOf(Find(entries, ix, key))
    {
      if key !in index {
        return None;
      }
      FindFinds(entries, ix, key);
      FindIff(entries, ByVerification, index[key], Find(entries, ix, key).value);
      found := if index[key] in byVerificationId then Some(byVerificationId[index[key]]) else None;
    }
  }

  function ResultOf(e: Option<Entry>): Option<VerificationResult> {
    if e.Some? then Some(e.value.result) else None
  }

  // ---------------------------------------------------------------- the index updates are exact

  lemma FindsUnderOwnId(es: seq<Entry>)
    ensures forall k :: Find(es, ByVerification, k).Some? ==> Find(es, ByVerification, k).value.result.id == k
  {
    forall k | Find(es, ByVerification, k).Some? ensures Find(es, ByVerification, k).value.result.id == k {
      FindFinds(es, ByVerification, k);
    }
  }

  lemma EvictionDropsOne(es: seq<Entry>)
    requires Unique(es) && |es| > 0
    ensures Unique(es[1..])
    ensures forall k, ix :: Find(es[1..], ix, k) == if k == KeyOf(es[0], ix) then None else Find(es, ix, k)
  {
    forall i, j, ix | 0 <= i < j < |es[1..]| ensures KeyOf(es[1..][i], ix) != KeyOf(es[1..][j], ix) {
      assert KeyOf(es[i + 1], ix) != KeyOf(es[j + 1], ix);
    }
    forall ix: Index ensures Find(es[1..], ix, KeyOf(es[0], ix)) == None {
      FindFinds(es[1..], ix, KeyOf(es[0], ix));
    }
  }

  lemma EvictionIsExact(es: seq<Entry>, index: map<string, string>, ix: Index)
    requires Unique(es) && |es| > 0 && Indexes(es, index, ix)
    ensures Indexes(es[1..], Purged(index, es[0].result.id), ix)
  {
    EvictionDropsOne(es);
    forall k | k in index ensures index[k] == es[0].result.id <==> k == KeyOf(es[0], ix) {
      PurgeHitsOnlyOne(es, index, ix, k, es[0]);
    }
  }

  /** Within an index only one key belongs to a given verification: the key its entry is retained under. */
  lemma PurgeHitsOnlyOne(es: seq<Entry>, index: map<string, string>, ix: Index, k: string, e: Entry)
    requires Unique(es) && Indexes(es, index, ix) && k in index && e in es
    ensures index[k] == e.result.id <==> k == KeyOf(e, ix)
  {
    FindFinds(es, ix, k);
    var f := Find(es, ix, k).value;
    FindIff(es, ix, k, e);
    FindIff(es, ByVerification, e.result.id, e);
    FindIff(es, ByVerification, e.result.id, f);
  }

  lemma ReplacedFinds(es: seq<Entry>, queueJobId: string, r: VerificationResult)
    requires Unique(es) && MemoryConflict(es, queueJobId, r).None? && Find(es, ByVerification, r.id).Some?
    ensures var e, after := Entry(queueJobId, r), Replaced(es, Entry(queueJobId, r));
            && Ids(after) == Ids(es)
            && forall k, ix :: Find(after, ix, k) ==
                 if k == KeyOf(e, ix) then Some(e)
                 else if Find(es, ix, k).Some? && Find(es, ix, k).value.result.id != r.id then Find(es, ix, k) else None
  {
    var e, after := Entry(queueJobId, r), Replaced(es, Entry(queueJobId, r));
    ReplacedUnique(es, queueJobId, r);
    FindFinds(es, ByVerification, r.id);
    var at :| 0 <= at < |es| && es[at].result.id == r.id;
    assert after[at] == e;
    assert Ids(after) == Ids(es);
    forall f: Entry ensures f in after <==> f == e || (f in es && f.result.id != r.id) {
      if f in es && f.result.id != r.id {
        var i :| 0 <= i < |es| && es[i] == f;
        assert after[i] == f;
      }
    }
    forall k, ix: Index
      ensures Find(after, ix, k) ==
              if k == KeyOf(e, ix) then Some(e)
              else if Find(es, ix, k).Some? && Find(es, ix, k).value.result.id != r.id then Find(es, ix, k) else None
    {
      FindFinds(after, ix, k);
      FindFinds(es, ix, k);
      if k == KeyOf(e, ix) {
        FindIff(after, ix, k, e);
      } else if Find(es, ix, k).Some? {
        FindIff(after, ix, k, Find(es, ix, k).value);
      }
      if Find(after, ix, k).Some? {
        FindIff(es, ix, k, Find(after, ix, k).value);
      }
    }
  }

  lemma ReplacementIsExact(es: seq<Entry>, queueJobId: string, r: VerificationResult, index: map<string, string>, ix: Index)
    requires Unique(es) && MemoryConflict(es, queueJobId, r).None? && Find(es, ByVerification, r.id).Some?
    requires Indexes(es, index, ix)
    ensures Indexes(Replaced(es, Entry(queueJobId, r)), Purged(index, r.id)[KeyOf(Entry(queueJobId, r), ix) := r.id], ix)
  {
    ReplacedFinds(es, queueJobId, r);
  }

  lemma {:induction false} FindInAppended(es: seq<Entry>, e: Entry, ix: Index, k: string)
    ensures Find(es + [e], ix, k) ==
            if Find(es, ix, k).Some? then Find(es, ix, k) else if KeyOf(e, ix) == k then Some(e) else None
  {
    if es != [] {
      assert (es + [e])[1..] == es[1..] + [e];
      FindInAppended(es[1..], e, ix, k);
    }
  }

  lemma AppendIsExact(es: seq<Entry>, e: Entry)
    requires Unique(es + [e])
    ensures forall k, ix :: Find(es + [e], ix, k) == if KeyOf(e, ix) == k then Some(e) else Find(es, ix, k)
  {
    forall k, ix: Index ensures Find(es + [e], ix, k) == if KeyOf(e, ix) == k then Some(e) else Find(es, ix, k) {
      FindInAppended(es, e, ix, k);
      FindIff(es + [e], ix, KeyOf(e, ix), e);
    }
  }

  // ---------------------------------------------------------------- the table

  class SqliteRegistry {
    const maxResults: nat
    var rows: seq<Entry>      // in rowid order

    ghost predicate Valid()
      reads this
    {
      maxResults > 0 && Unique(rows)
    }

    constructor (maxResults: nat, rows: seq<Entry>)
      requires maxResults > 0 && Unique(rows)
      ensures Valid() && this.rows == rows && this.maxResults == maxResults
    {
      this.maxResults := maxResults;
      this.rows := rows;
    }

    method TrimRetention()
      requires Valid()
      modifies this`rows
      ensures Valid() && rows == Newest(old(rows), maxResults)
    {
      while |rows| > maxResults
        invariant Valid() && |rows| <= |old(rows)| && rows == old(rows)[|old(rows)| - |rows|..]
        invariant |rows| == |old(rows)| || |rows| >= maxResults
      {
        DeletingTheOldest(rows);
        rows := Delete(rows, ByQueueJob, rows[0].queueJobId);
      }
    }

    /** The INSERT; its precondition is what the table's three uniqueness constraints demand. */
    method Insert(e: Entry)
      requires Valid() && Insertable(rows, e)
      modifies this`rows
      ensures Valid() && rows == old(rows) + [e]
    {
      AppendUnique(rows, e);
      rows := rows + [e];
    }

    method Store(queueJobId: string, result: VerificationResult) returns (stored: Result<VerificationResult, Error>)
      requires Valid()
      modifies this`rows
      ensures Valid()
      ensures rows == After(SqliteStore(old(rows), maxResults, queueJobId, result), old(rows))
      ensures stored.Ok? <==> SqliteConflict(old(rows), queueJobId, result).None?
      ensures stored.Ok? ==> stored.value == result && |rows| <= maxResults
      ensures stored.Err? ==> rows == old(rows) && stored.error != ConstraintViolation
    {
      if Blank(queueJobId) {
        return Err(BlankQueueJobId);
      }
      var existingQueue := Find(rows, ByQueueJob, queueJobId);
      var existingVerification := Find(rows, ByVerification, result.id);
      var existingJob := Find(rows, ByNativeJob, result.jobId);
      if existingQueue.Some? && existingQueue.value.result.id != result.id {
        return Err(QueueJobTaken);
      }
      if existingJob.Some? && existingJob.value.result.id != result.id {
        return Err(NativeJobTaken);
      }
      if existingVerification.Some? && existingVerification.value.result.jobId != result.jobId {
        return Err(DifferentJob);
      }
      SqliteInsertNeverViolates(rows, queueJobId, result);
      rows := Delete(rows, ByQueueJob, queueJobId);
      rows := Delete(rows, ByVerification, result.id);
      Insert(Entry(queueJobId, result));
      TrimRetention();
      return Ok(result);
    }

    method Get(ix: Index, key: string) returns (found: Option<VerificationResult>)
      requires Valid()
      ensures found == ResultOf(Find(rows, ix, key))
    {
      found := ResultOf(Find(rows, ix, key));
    }
  }

  lemma DeletingTheOldest(rows: seq<Entry>)
    requires Unique(rows) && |rows| > 0
    ensures Delete(rows, ByQueueJob, rows[0].queueJobId) == rows[1..] && Unique(rows[1..])
  {
    EvictionDropsOne(rows);
    DeleteAbsent(rows[1..], ByQueueJob, rows[0].queueJobId);
  }
}
