/**
 The two verification result registries of apps/worker/src: the in-memory one with its three maps and
 the SQLite one with its table, both against the same picture, a bounded list of entries from the
 oldest to the newest.
 */
module ResultRegistry {
  import opened Options
  import opened Text

  datatype VerificationResult = VerificationResult(id: string, jobId: string, content: string)

  datatype Entry = Entry(queueJobId: string, result: VerificationResult)

  datatype Error = BlankQueueJobId | NativeJobTaken | QueueJobTaken | DifferentJob | ConstraintViolation

  /** The three identities a result can be looked up by. */
  datatype Index = ByVerification | ByNativeJob | ByQueueJob

  function KeyOf(e: Entry, ix: Index): string {
    match ix
    case ByVerification => e.result.id
    case ByNativeJob => e.result.jobId
    case ByQueueJob => e.queueJobId
  }

  function Find(es: seq<Entry>, ix: Index, key: string): Option<Entry> {
    if es == [] then None else if KeyOf(es[0], ix) == key then Some(es[0]) else Find(es[1..], ix, key)
  }

  /** No two retained entries share an identity of any kind. */
  ghost predicate Unique(es: seq<Entry>) {
    forall i, j, ix :: 0 <= i < j < |es| ==> KeyOf(es[i], ix) != KeyOf(es[j], ix)
  }

  function Newest(es: seq<Entry>, count: nat): seq<Entry> {
    if |es| <= count then es else es[|es| - count..]
  }

  // ---------------------------------------------------------------- the in-memory rule

  function MemoryConflict(es: seq<Entry>, queueJobId: string, r: VerificationResult): Option<Error> {
    var native, queue := Find(es, ByNativeJob, r.jobId), Find(es, ByQueueJob, queueJobId);
    if Blank(queueJobId) then Some(BlankQueueJobId)
    else if native.Some? && native.value.result.id != r.id then Some(NativeJobTaken)
    else if queue.Some? && queue.value.result.id != r.id then Some(QueueJobTaken)
    else None
  }

  function Replaced(es: seq<Entry>, e: Entry): seq<Entry> {
    seq(|es|, i requires 0 <= i < |es| => if es[i].result.id == e.result.id then e else es[i])
  }

  /** A retained verification is replaced where it stands; a new one goes to the end and may evict the oldest. */
  function MemoryStore(es: seq<Entry>, maxResults: nat, queueJobId: string,
                       r: VerificationResult): Result<seq<Entry>, Error> {
    if MemoryConflict(es, queueJobId, r).Some? then Err(MemoryConflict(es, queueJobId, r).value)
    else if Find(es, ByVerification, r.id).Some? then Ok(Replaced(es, Entry(queueJobId, r)))
    else Ok(Newest(es + [Entry(queueJobId, r)], maxResults))
  }

  // ---------------------------------------------------------------- the SQLite rule

  function SqliteConflict(es: seq<Entry>, queueJobId: string, r: VerificationResult): Option<Error> {
    var queue, native := Find(es, ByQueueJob, queueJobId), Find(es, ByNativeJob, r.jobId);
    var verification := Find(es, ByVerification, r.id);
    if Blank(queueJobId) then Some(BlankQueueJobId)
    else if queue.Some? && queue.value.result.id != r.id then Some(QueueJobTaken)
    else if native.Some? && native.value.result.id != r.id then Some(NativeJobTaken)
    else if verification.Some? && verification.value.result.jobId != r.jobId then Some(DifferentJob)
    else None
  }

  /** `DELETE ... WHERE key = ?` */
  function Delete(es: seq<Entry>, ix: Index, key: string): seq<Entry> {
    if es == [] then []
    else if KeyOf(es[0], ix) == key then Delete(es[1..], ix, key)
    else [es[0]] + Delete(es[1..], ix, key)
  }

  /** What the PRIMARY KEY and the two UNIQUE columns demand of an INSERT. */
  predicate Insertable(es: seq<Entry>, e: Entry) {
    && Find(es, ByQueueJob, e.queueJobId).None?
    && Find(es, ByVerification, e.result.id).None?
    && Find(es, ByNativeJob, e.result.jobId).None?
  }

  function SqliteCleared(es: seq<Entry>, queueJobId: string, r: VerificationResult): seq<Entry> {
    Delete(Delete(es, ByQueueJob, queueJobId), ByVerification, r.id)
  }

  function SqliteStore(es: seq<Entry>, maxResults: nat, queueJobId: string,
                       r: VerificationResult): Result<seq<Entry>, Error> {
    var cleared := SqliteCleared(es, queueJobId, r);
    if SqliteConflict(es, queueJobId, r).Some? then Err(SqliteConflict(es, queueJobId, r).value)
    else if !Insertable(cleared, Entry(queueJobId, r)) then Err(ConstraintViolation)
    else Ok(Newest(cleared + [Entry(queueJobId, r)], maxResults))
  }

  // ---------------------------------------------------------------- lists with unique identities

  lemma {:induction false} FindFinds(es: seq<Entry>, ix: Index, key: string)
    ensures Find(es, ix, key).Some? ==> Find(es, ix, key).value in es && KeyOf(Find(es, ix, key).value, ix) == key
    ensures Find(es, ix, key).None? ==> forall e :: e in es ==> KeyOf(e, ix) != key
  {
    if es != [] {
      FindFinds(es[1..], ix, key);
    }
  }

  /** With unique identities a lookup answers `e` exactly when `e` is retained under that key. */
  lemma FindIff(es: seq<Entry>, ix: Index, key: string, e: Entry)
    requires Unique(es)
    ensures Find(es, ix, key) == Some(e) <==> e in es && KeyOf(e, ix) == key
  {
  }

  lemma TailUnique(es: seq<Entry>)
    requires es != [] && Unique(es)
    ensures Unique(es[1..])
  {
  }

  lemma {:induction false} DeleteMembers(es: seq<Entry>, ix: Index, key: string)
    ensures |Delete(es, ix, key)| <= |es|
    ensures forall e :: e in Delete(es, ix, key) <==> e in es && KeyOf(e, ix) != key
  {
    if es != [] {
      DeleteMembers(es[1..], ix, key);
      assert es == [es[0]] + es[1..];
    }
  }

  lemma {:induction false} DeleteDrops(es: seq<Entry>, ix: Index, key: string)
    requires Unique(es)
    ensures Unique(Delete(es, ix, key)) && |Delete(es, ix, key)| <= |es|
    ensures forall e :: e in Delete(es, ix, key) <==> e in es && KeyOf(e, ix) != key
  {
    DeleteMembers(es, ix, key);
    if es != [] {
      TailUnique(es);
      DeleteDrops(es[1..], ix, key);
      if KeyOf(es[0], ix) != key {
        ConsUnique(es[0], Delete(es[1..], ix, key), es);
      }
    }
  }

  lemma ConsUnique(e: Entry, rest: seq<Entry>, es: seq<Entry>)
    requires Unique(rest) && Unique(es) && es != [] && es[0] == e && forall f :: f in rest ==> f in es[1..]
    ensures Unique([e] + rest)
  {
    var l := [e] + rest;
    forall i, j, ix | 0 <= i < j < |l| ensures KeyOf(l[i], ix) != KeyOf(l[j], ix) {
      if i == 0 {
        assert l[j] in es[1..];
        var k :| 0 <= k < |es[1..]| && es[1..][k] == l[j];
        assert KeyOf(es[0], ix) != KeyOf(es[k + 1], ix);
      } else {
        assert KeyOf(rest[i - 1], ix) != KeyOf(rest[j - 1], ix);
      }
    }
  }

  lemma AppendUnique(es: seq<Entry>, e: Entry)
    requires Unique(es) && Insertable(es, e)
    ensures Unique(es + [e])
  {
    forall ix: Index ensures forall f :: f in es ==> KeyOf(f, ix) != KeyOf(e, ix) {
      FindFinds(es, ix, KeyOf(e, ix));
      match ix
      case ByVerification => case ByNativeJob => case ByQueueJob =>
    }
  }

  lemma NewestUnique(es: seq<Entry>, count: nat)
    requires Unique(es)
    ensures Unique(Newest(es, count)) && |Newest(es, count)| <= count
  {
  }

  // ---------------------------------------------------------------- what a store achieves

  lemma ReplacedUnique(es: seq<Entry>, queueJobId: string, r: VerificationResult)
    requires Unique(es) && MemoryConflict(es, queueJobId, r).None?
    ensures Unique(Replaced(es, Entry(queueJobId, r)))
  {
    var e := Entry(queueJobId, r);
    var l := Replaced(es, e);
    forall i, j, ix | 0 <= i < j < |l| ensures KeyOf(l[i], ix) != KeyOf(l[j], ix) {
      assert KeyOf(es[i], ix) != KeyOf(es[j], ix) && KeyOf(es[i], ByVerification) != KeyOf(es[j], ByVerification);
      if es[i].result.id != r.id {
        NoOtherHolder(es, queueJobId, r, es[i], ix);
      }
      if es[j].result.id != r.id {
        NoOtherHolder(es, queueJobId, r, es[j], ix);
      }
    }
  }

  /** Without a conflict only the verification itself can hold an identity of the new entry. */
  lemma NoOtherHolder(es: seq<Entry>, queueJobId: string, r: VerificationResult, f: Entry, ix: Index)
    requires Unique(es) && MemoryConflict(es, queueJobId, r).None? && f in es && f.result.id != r.id
    ensures KeyOf(f, ix) != KeyOf(Entry(queueJobId, r), ix)
  {
    FindIff(es, ix, KeyOf(Entry(queueJobId, r), ix), f);
    match ix
    case ByVerification => case ByNativeJob => case ByQueueJob =>
  }

  lemma MemoryAppends(es: seq<Entry>, queueJobId: string, r: VerificationResult)
    requires Unique(es) && MemoryConflict(es, queueJobId, r).None? && Find(es, ByVerification, r.id).None?
    ensures Unique(es + [Entry(queueJobId, r)])
  {
    var e := Entry(queueJobId, r);
    FindFinds(es, ByVerification, r.id);
    forall ix: Index ensures Find(es, ix, KeyOf(e, ix)).None? {
      FindFinds(es, ix, KeyOf(e, ix));
      if Find(es, ix, KeyOf(e, ix)).Some? {
        NoOtherHolder(es, queueJobId, r, Find(es, ix, KeyOf(e, ix)).value, ix);
      }
    }
    assert Find(es, ByNativeJob, KeyOf(e, ByNativeJob)).None? && Find(es, ByQueueJob, KeyOf(e, ByQueueJob)).None?;
    AppendUnique(es, e);
  }

  lemma ReplacedMembers(es: seq<Entry>, e: Entry)
    requires Find(es, ByVerification, e.result.id).Some?
    ensures e in Replaced(es, e)
    ensures forall f :: f in Replaced(es, e) ==> f == e || (f in es && f.result.id != e.result.id)
    ensures forall f :: f in es && f.result.id != e.result.id ==> f in Replaced(es, e)
  {
    var after := Replaced(es, e);
    FindFinds(es, ByVerification, e.result.id);
    var i :| 0 <= i < |es| && es[i].result.id == e.result.id;
    assert after[i] == e;
    forall f | f in es && f.result.id != e.result.id ensures f in after {
      var j :| 0 <= j < |es| && es[j] == f;
      assert after[j] == f;
    }
  }

  lemma AppendedMembers(es: seq<Entry>, e: Entry, count: nat)
    requires |es| <= count && count > 0
    ensures var after := Newest(es + [e], count);
      && e in after && (forall f :: f in after ==> f == e || f in es)
      && (forall f :: f in es && !(f == es[0] && |es| == count) ==> f in after)
  {
    var after := Newest(es + [e], count);
    assert after[|after| - 1] == e;
    forall f | f in es && !(f == es[0] && |es| == count) ensures f in after {
      var j :| 0 <= j < |es| && es[j] == f;
      assert after[j - (|es| + 1 - |after|)] == f;
    }
  }

  /**
   A store of the in-memory registry keeps identities unique and the bound, makes the result visible
   under all three of its keys, and touches no other entry except by dropping the oldest.
   */
  lemma MemoryStoreCorrect(es: seq<Entry>, maxResults: nat, queueJobId: string, r: VerificationResult)
    requires Unique(es) && |es| <= maxResults && maxResults > 0 && MemoryStore(es, maxResults, queueJobId, r).Ok?
    ensures var after := MemoryStore(es, maxResults, queueJobId, r).value;
            && Unique(after) && |after| <= maxResults
            && (forall ix :: Find(after, ix, KeyOf(Entry(queueJobId, r), ix)) == Some(Entry(queueJobId, r)))
            && (forall f :: f in after ==> f == Entry(queueJobId, r) || (f in es && f.result.id != r.id))
            && (forall f :: f in es && f.result.id != r.id ==>
                  f in after || (f == es[0] && |es| == maxResults && Find(es, ByVerification, r.id).None?))
  {
    var e := Entry(queueJobId, r);
    var after := MemoryStore(es, maxResults, queueJobId, r).value;
    if Find(es, ByVerification, r.id).Some? {
      ReplacedUnique(es, queueJobId, r);
      ReplacedMembers(es, e);
    } else {
      FindFinds(es, ByVerification, r.id);
      MemoryAppends(es, queueJobId, r);
      NewestUnique(es + [e], maxResults);
      AppendedMembers(es, e, maxResults);
    }
    forall ix: Index ensures Find(after, ix, KeyOf(e, ix)) == Some(e) {
      FindIff(after, ix, KeyOf(e, ix), e);
    }
  }

  /** After its conflict checks and its two deletes, the SQLite insert can never violate a constraint. */
  lemma SqliteInsertNeverViolates(es: seq<Entry>, queueJobId: string, r: VerificationResult)
    requires Unique(es) && SqliteConflict(es, queueJobId, r).None?
    ensures Unique(SqliteCleared(es, queueJobId, r)) && Insertable(SqliteCleared(es, queueJobId, r), Entry(queueJobId, r))
    ensures forall f :: f in SqliteCleared(es, queueJobId, r) <==> f in es && f.result.id != r.id
  {
    var e, once := Entry(queueJobId, r), Delete(es, ByQueueJob, queueJobId);
    DeleteDrops(es, ByQueueJob, queueJobId);
    DeleteDrops(once, ByVerification, r.id);
    var cleared := SqliteCleared(es, queueJobId, r);
    assert MemoryConflict(es, queueJobId, r).None?;
    forall f | f in es && f.result.id != r.id ensures forall ix :: KeyOf(f, ix) != KeyOf(e, ix) {
      forall ix: Index ensures KeyOf(f, ix) != KeyOf(e, ix) {
        NoOtherHolder(es, queueJobId, r, f, ix);
      }
    }
    forall f | f in es && f.result.id != r.id ensures f in cleared {
      assert KeyOf(f, ByQueueJob) != KeyOf(e, ByQueueJob);
    }
    FindFinds(cleared, ByQueueJob, KeyOf(e, ByQueueJob));
    FindFinds(cleared, ByVerification, KeyOf(e, ByVerification));
    FindFinds(cleared, ByNativeJob, KeyOf(e, ByNativeJob));
  }

  /** So the SQLite store fails only for a named conflict, keeps the table within its bound, and is visible under all keys. */
  lemma SqliteStoreCorrect(es: seq<Entry>, maxResults: nat, queueJobId: string, r: VerificationResult)
    requires Unique(es) && maxResults > 0
    ensures SqliteStore(es, maxResults, queueJobId, r).Ok? <==> SqliteConflict(es, queueJobId, r).None?
    ensures SqliteStore(es, maxResults, queueJobId, r).Ok? ==>
              var after := SqliteStore(es, maxResults, queueJobId, r).value;
              && Unique(after) && |after| <= maxResults
              && (forall ix :: Find(after, ix, KeyOf(Entry(queueJobId, r), ix)) == Some(Entry(queueJobId, r)))
              && (forall f :: f in after ==> f == Entry(queueJobId, r) || (f in es && f.result.id != r.id))
  {
    if SqliteConflict(es, queueJobId, r).None? {
      var e, cleared := Entry(queueJobId, r), SqliteCleared(es, queueJobId, r);
      SqliteInsertNeverViolates(es, queueJobId, r);
      AppendUnique(cleared, e);
      NewestUnique(cleared + [e], maxResults);
      var after := Newest(cleared + [e], maxResults);
      assert after[|after| - 1] == e;
      forall ix: Index ensures Find(after, ix, KeyOf(e, ix)) == Some(e) {
        FindIff(after, ix, KeyOf(e, ix), e);
      }
    }
  }

  // ---------------------------------------------------------------- when the two registries agree

  /** Both reject, or both accept and retain the same entries in the same order. */
  predicate SameEffect(a: Result<seq<Entry>, Error>, b: Result<seq<Entry>, Error>) {
    (a.Ok? <==> b.Ok?) && (a.Ok? && b.Ok? ==> a.value == b.value)
  }

  lemma {:induction false} DeleteAbsent(es: seq<Entry>, ix: Index, key: string)
    requires Find(es, ix, key).None?
    ensures Delete(es, ix, key) == es
  {
    if es != [] {
      DeleteAbsent(es[1..], ix, key);
    }
  }

  lemma {:induction false} DeleteFromPrefix(es: seq<Entry>, e: Entry, ix: Index, key: string)
    ensures Delete(es + [e], ix, key) == Delete(es, ix, key) + if KeyOf(e, ix) == key then [] else [e]
  {
    if es != [] {
      assert (es + [e])[1..] == es[1..] + [e];
      DeleteFromPrefix(es[1..], e, ix, key);
    }
  }

  /** When the only entry the deletes can hit is the last one, exactly that one goes. */
  lemma ClearsLast(init: seq<Entry>, last: Entry, queueJobId: string, r: VerificationResult)
    requires Find(init, ByQueueJob, queueJobId).None? && Find(init, ByVerification, r.id).None? && last.result.id == r.id
    ensures SqliteCleared(init + [last], queueJobId, r) == init
  {
    DeleteAbsent(init, ByQueueJob, queueJobId);
    DeleteAbsent(init, ByVerification, r.id);
    DeleteFromPrefix(init, last, ByQueueJob, queueJobId);
    DeleteFromPrefix(init, last, ByVerification, r.id);
    assert init + [] == init;
  }

  lemma StoreOverLast(es: seq<Entry>, maxResults: nat, queueJobId: string, r: VerificationResult)
    requires Unique(es) && 0 < |es| <= maxResults && SqliteConflict(es, queueJobId, r).None?
    requires es[|es| - 1].result.id == r.id
    ensures SqliteStore(es, maxResults, queueJobId, r) == MemoryStore(es, maxResults, queueJobId, r)
  {
    var n, e := |es| - 1, Entry(queueJobId, r);
    var init := es[..n];
    assert es == init + [es[n]];
    FindIff(es, ByVerification, r.id, es[n]);
    forall i | 0 <= i < n ensures KeyOf(init[i], ByQueueJob) != queueJobId && KeyOf(init[i], ByVerification) != r.id {
      assert KeyOf(es[i], ByVerification) != KeyOf(es[n], ByVerification);
      NoOtherHolder(es, queueJobId, r, es[i], ByQueueJob);
    }
    FindFinds(init, ByQueueJob, queueJobId);
    FindFinds(init, ByVerification, r.id);
    ClearsLast(init, es[n], queueJobId, r);
    SqliteInsertNeverViolates(es, queueJobId, r);
    assert Replaced(es, e) == init + [e];
  }

  lemma StoreOfNew(es: seq<Entry>, maxResults: nat, queueJobId: string, r: VerificationResult)
    requires Unique(es) && Find(es, ByVerification, r.id).None? && MemoryConflict(es, queueJobId, r).None?
    ensures SqliteStore(es, maxResults, queueJobId, r) == MemoryStore(es, maxResults, queueJobId, r)
  {
    FindFinds(es, ByVerification, r.id);
    FindFinds(es, ByQueueJob, queueJobId);
    DeleteAbsent(es, ByQueueJob, queueJobId);
    DeleteAbsent(es, ByVerification, r.id);
    SqliteInsertNeverViolates(es, queueJobId, r);
  }

  lemma StoreMovesToEnd(es: seq<Entry>, maxResults: nat, queueJobId: string, r: VerificationResult)
    returns (sqlite: seq<Entry>, memory: seq<Entry>)
    requires Unique(es) && 0 < |es| <= maxResults && SqliteConflict(es, queueJobId, r).None?
    requires Find(es, ByVerification, r.id).Some? && es[|es| - 1].result.id != r.id
    ensures SqliteStore(es, maxResults, queueJobId, r) == Ok(sqlite) && MemoryStore(es, maxResults, queueJobId, r) == Ok(memory)
    ensures sqlite != memory
  {
    SqliteStored(es, maxResults, queueJobId, r);
    MemoryReplaced(es, maxResults, queueJobId, r);
    sqlite, memory := SqliteStore(es, maxResults, queueJobId, r).value, MemoryStore(es, maxResults, queueJobId, r).value;
    LastDiffers(sqlite, memory);
  }

  lemma SqliteStored(es: seq<Entry>, maxResults: nat, queueJobId: string, r: VerificationResult)
    requires Unique(es) && maxResults > 0 && SqliteConflict(es, queueJobId, r).None?
    ensures var l := Newest(SqliteCleared(es, queueJobId, r) + [Entry(queueJobId, r)], maxResults);
      SqliteStore(es, maxResults, queueJobId, r) == Ok(l) && l != [] && l[|l| - 1] == Entry(queueJobId, r)
  {
    SqliteInsertNeverViolates(es, queueJobId, r);
  }

  lemma MemoryReplaced(es: seq<Entry>, maxResults: nat, queueJobId: string, r: VerificationResult)
    requires SqliteConflict(es, queueJobId, r).None? && Find(es, ByVerification, r.id).Some?
    ensures MemoryStore(es, maxResults, queueJobId, r) == Ok(Replaced(es, Entry(queueJobId, r)))
    ensures es != [] && es[|es| - 1].result.id != r.id ==> Replaced(es, Entry(queueJobId, r))[|es| - 1] == es[|es| - 1]
  {
    ConflictsCompared(es, queueJobId, r);
  }

  lemma LastDiffers(a: seq<Entry>, b: seq<Entry>)
    requires a != [] && b != [] && a[|a| - 1] != b[|b| - 1]
    ensures a != b
  {
  }

  lemma ConflictsCompared(es: seq<Entry>, queueJobId: string, r: VerificationResult)
    ensures SqliteConflict(es, queueJobId, r).None? <==>
            MemoryConflict(es, queueJobId, r).None?
            && (Find(es, ByVerification, r.id).Some? ==> Find(es, ByVerification, r.id).value.result.jobId == r.jobId)
  {
  }

  lemma AgreeOnRetained(es: seq<Entry>, maxResults: nat, queueJobId: string, r: VerificationResult)
    requires Unique(es) && 0 < |es| <= maxResults && MemoryConflict(es, queueJobId, r).None?
    requires Find(es, ByVerification, r.id).Some?
    ensures SameEffect(MemoryStore(es, maxResults, queueJobId, r), SqliteStore(es, maxResults, queueJobId, r)) <==>
            es[|es| - 1].result.id == r.id && es[|es| - 1].result.jobId == r.jobId
  {
    ConflictsCompared(es, queueJobId, r);
    FindFinds(es, ByVerification, r.id);
    FindIff(es, ByVerification, r.id, es[|es| - 1]);
    if SqliteConflict(es, queueJobId, r).None? {
      if es[|es| - 1].result.id == r.id {
        StoreOverLast(es, maxResults, queueJobId, r);
      } else {
        var sqlite, memory := StoreMovesToEnd(es, maxResults, queueJobId, r);
      }
    }
  }

  /**
   The two registries treat a store alike exactly when the verification is not retained yet, or is
   the newest entry and keeps its native job, or when the store is refused by a uniqueness check.
   */
  lemma RegistriesAgreeIff(es: seq<Entry>, maxResults: nat, queueJobId: string, r: VerificationResult)
    requires Unique(es) && |es| <= maxResults && maxResults > 0
    ensures SameEffect(MemoryStore(es, maxResults, queueJobId, r), SqliteStore(es, maxResults, queueJobId, r)) <==>
            || MemoryConflict(es, queueJobId, r).Some?
            || Find(es, ByVerification, r.id).None?
            || (es[|es| - 1].result.id == r.id && es[|es| - 1].result.jobId == r.jobId)
  {
    ConflictsCompared(es, queueJobId, r);
    if MemoryConflict(es, queueJobId, r).None? {
      if Find(es, ByVerification, r.id).None? {
        StoreOfNew(es, maxResults, queueJobId, r);
      } else {
        AgreeOnRetained(es, maxResults, queueJobId, r);
      }
    }
  }

  datatype Store = Store(queueJobId: string, result: VerificationResult)

  function After(outcome: Result<seq<Entry>, Error>, es: seq<Entry>): seq<Entry> {
    if outcome.Ok? then outcome.value else es
  }

  function MemoryRun(stores: seq<Store>, maxResults: nat): seq<Entry> {
    if stores == [] then []
    else
      var es, s := MemoryRun(stores[..|stores| - 1], maxResults), stores[|stores| - 1];
      After(MemoryStore(es, maxResults, s.queueJobId, s.result), es)
  }

  function SqliteRun(stores: seq<Store>, maxResults: nat): seq<Entry> {
    if stores == [] then []
    else
      var es, s := SqliteRun(stores[..|stores| - 1], maxResults), stores[|stores| - 1];
      After(SqliteStore(es, maxResults, s.queueJobId, s.result), es)
  }

  /** No store of the run names a verification retained at that moment. */
  predicate NeverRestores(stores: seq<Store>, maxResults: nat) {
    forall i :: 0 <= i < |stores| ==> Find(MemoryRun(stores[..i], maxResults), ByVerification, stores[i].result.id).None?
  }

  lemma {:induction false} MemoryRunUnique(stores: seq<Store>, maxResults: nat)
    requires maxResults > 0
    ensures Unique(MemoryRun(stores, maxResults)) && |MemoryRun(stores, maxResults)| <= maxResults
  {
    if stores != [] {
      var init, s := stores[..|stores| - 1], stores[|stores| - 1];
      MemoryRunUnique(init, maxResults);
      if MemoryStore(MemoryRun(init, maxResults), maxResults, s.queueJobId, s.result).Ok? {
        MemoryStoreCorrect(MemoryRun(init, maxResults), maxResults, s.queueJobId, s.result);
      }
    }
  }

  /** On such runs both registries accept, evict and answer exactly alike, at every moment. */
  lemma {:induction false} RegistriesAgreeAlongRun(stores: seq<Store>, maxResults: nat)
    requires maxResults > 0 && NeverRestores(stores, maxResults)
    ensures SqliteRun(stores, maxResults) == MemoryRun(stores, maxResults)
    ensures forall ix, key :: Find(SqliteRun(stores, maxResults), ix, key) == Find(MemoryRun(stores, maxResults), ix, key)
  {
    if stores != [] {
      var n := |stores| - 1;
      var init, s := stores[..n], stores[n];
      forall i | 0 <= i < n ensures Find(MemoryRun(init[..i], maxResults), ByVerification, init[i].result.id).None? {
        assert init[..i] == stores[..i] && init[i] == stores[i];
      }
      RegistriesAgreeAlongRun(init, maxResults);
      MemoryRunUnique(init, maxResults);
      assert stores[..n] == init && Find(MemoryRun(stores[..n], maxResults), ByVerification, stores[n].result.id).None?;
      RegistriesAgreeIff(MemoryRun(init, maxResults), maxResults, s.queueJobId, s.result);
    }
  }
}
