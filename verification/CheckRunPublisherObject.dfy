/**
 The publisher as the source writes it: two maps and the remote runs, updated in place by the code
 between two `await`s.  Every method is proved to be one action of the state machine in
 CheckRunPublisher, so everything proved there about runs holds of any sequence of these calls.
 */
module CheckRunPublisherObject {
  import opened Options
  import opened FreshnessMarker
  import opened FreshnessCache
  import opened CheckRunPublisher

  class Publisher {
    const useCache: bool
    const checkName: string
    const maxEntries: nat
    var runs: map<nat, CheckRun>
    var nextId: nat
    var publicationChains: map<Commit, nat>
    var tasks: map<nat, Task>
    var nextTask: nat
    var latestByKey: seq<Entry>

    ghost function View(): State
      reads this
    {
      State(useCache, checkName, maxEntries, runs, nextId, publicationChains, tasks, nextTask, latestByKey)
    }

    /** The chains of the publisher are well formed: publications of one key run one at a time. */
    ghost predicate Valid()
      reads this
    {
      Chains(View())
    }

    constructor (useCache: bool, checkName: string, maxEntries: nat, runs: map<nat, CheckRun>, nextId: nat)
      requires maxEntries > 0 && forall id :: id in runs ==> id < nextId
      ensures Valid()
      ensures Init(View()) && View().runs == runs && View().useCache == useCache
    {
      this.useCache, this.checkName, this.maxEntries := useCache, checkName, maxEntries;
      this.runs, this.nextId := runs, nextId;
      publicationChains, tasks, nextTask, latestByKey := map[], map[], 0, [];
    }

    /** `runSerialized` up to `publicationChains.set`: chain behind the newest task of the key. */
    method Publish(commit: Commit, ordering: Freshness) returns (task: nat)
      requires Valid()
      requires Representable(ordering)
      modifies this`publicationChains, this`tasks, this`nextTask
      ensures Valid()
      ensures task == old(nextTask)
      ensures View() == Apply(old(View()), Action.Publish(commit, ordering))
    {
      var previous := if commit in publicationChains then Some(publicationChains[commit]) else None;
      task := nextTask;
      nextTask := nextTask + 1;
      tasks := tasks[task := Task(commit, ordering, Queued(previous))];
      publicationChains := publicationChains[commit := task];
      StepKeepsChains(old(View()), Action.Publish(commit, ordering), View());
    }

    /** `tail.finally`: forget the chain only if nobody has queued behind the settled tail. */
    method Leave(settled: nat)
      requires Valid() && settled in tasks && tasks[settled].phase.Settled?
      modifies this`publicationChains
      ensures Valid()
      ensures var commit := old(tasks)[settled].commit;
        if commit in old(publicationChains) && old(publicationChains)[commit] == settled
        then View() == Apply(old(View()), DropTail(commit)) && publicationChains == old(publicationChains) - {commit}
        else View() == old(View())
    {
      var commit := tasks[settled].commit;
      if commit in publicationChains && publicationChains[commit] == settled {
        publicationChains := publicationChains - {commit};
        StepKeepsChains(old(View()), DropTail(commit), View());
      }
    }

    method Move(t: nat, phase: Phase)
      requires t in tasks
      modifies this`tasks
      ensures tasks == old(tasks)[t := old(tasks)[t].(phase := phase)]
    {
      tasks := tasks[t := tasks[t].(phase := phase)];
    }

    /** The fast path: what is older than the last success remembered is stale, without a request. */
    method Begin(t: nat)
      requires Valid()
      requires Enabled(View(), Advance(t, Input.Begin))
      modifies this`tasks
      ensures Valid()
      ensures View() == Apply(old(View()), Advance(t, Input.Begin))
      ensures forall u :: u in tasks && u != t && tasks[u].commit == tasks[t].commit ==> !tasks[u].phase.Active()
    {
      forall u | u in tasks && u != t && tasks[u].commit == tasks[t].commit ensures !tasks[u].phase.Active() {
        BeginsAlone(View(), t, u);
      }
      var remembered := Remembered(latestByKey, tasks[t].commit);
      if useCache && remembered.Some? && Compare(tasks[t].ordering, remembered.value) < 0 {
        Move(t, Settled(Stale));
      } else {
        Move(t, AcquiringToken);
      }
      StepKeepsChains(old(View()), Advance(t, Input.Begin), View());
    }

    /** The lookup's answer, reduced to the owned run with the largest id. */
    method ReceiveListing(t: nat, page: seq<Listed>)
      requires Valid()
      requires Enabled(View(), Advance(t, Listing(page)))
      modifies this`tasks
      ensures Valid()
      ensures View() == Apply(old(View()), Advance(t, Listing(page)))
    {
      var existing := FindExistingCheckRun(checkName, page);
      Move(t, LookedUp(existing));
      StepKeepsChains(old(View()), Advance(t, Listing(page)), View());
    }

    /** Create when nothing exists; refuse an unreadable marker and an older result; otherwise update. */
    method Decide(t: nat)
      requires Valid()
      requires Enabled(View(), Advance(t, Input.Decide))
      modifies this`tasks
      ensures Valid()
      ensures View() == Apply(old(View()), Advance(t, Input.Decide))
    {
      var existing := tasks[t].phase.existing;
      if existing.None? {
        Move(t, Posting);
      } else {
        var remote := Parse(existing.value.run.externalId);
        if remote.None? {
          Move(t, Settled(Refused));
        } else if Compare(tasks[t].ordering, remote.value) < 0 {
          Move(t, Settled(Stale));
        } else {
          Move(t, Patching(existing.value.id));
        }
      }
      StepKeepsChains(old(View()), Advance(t, Input.Decide), View());
    }

    /** After the update: success is remembered, a run that is gone is replaced by a new one. */
    method PatchReturns(t: nat)
      requires Valid()
      requires Enabled(View(), Advance(t, Input.PatchReturns)) && maxEntries > 0
      modifies this`tasks, this`latestByKey
      ensures Valid()
      ensures View() == Apply(old(View()), Advance(t, Input.PatchReturns))
    {
      match tasks[t].phase.answer {
        case Accepted =>
          RememberSuccess(t);
          Move(t, Settled(Published(false)));
        case NotFound => Move(t, Posting);
        case Failure => Move(t, Settled(Failed));
      }
      StepKeepsChains(old(View()), Advance(t, Input.PatchReturns), View());
    }

    method PostReturns(t: nat)
      requires Valid()
      requires Enabled(View(), Advance(t, Input.PostReturns)) && maxEntries > 0
      modifies this`tasks, this`latestByKey
      ensures Valid()
      ensures View() == Apply(old(View()), Advance(t, Input.PostReturns))
    {
      if tasks[t].phase.answer == Accepted {
        RememberSuccess(t);
        Move(t, Settled(Published(true)));
      } else {
        Move(t, Settled(Failed));
      }
      StepKeepsChains(old(View()), Advance(t, Input.PostReturns), View());
    }

    /** The bounded map: refresh the key's recency, or evict from the front until there is room. */
    method RememberSuccess(t: nat)
      requires t in tasks && maxEntries > 0
      modifies this`latestByKey
      ensures latestByKey ==
        if useCache then Remember(old(latestByKey), maxEntries, tasks[t].commit, tasks[t].ordering) else old(latestByKey)
    {
      if !useCache {
        return;
      }
      var key := tasks[t].commit;
      if Remembered(latestByKey, key).Some? {
        latestByKey := Without(latestByKey, key);
      } else {
        while |latestByKey| >= maxEntries
          invariant Newest(latestByKey, maxEntries - 1) == Newest(old(latestByKey), maxEntries - 1)
        {
          latestByKey := latestByKey[1..];
        }
      }
      latestByKey := latestByKey + [Entry(key, tasks[t].ordering)];
    }

    /** GitHub's side of an update: the marker is replaced, or nothing happens. */
    method ServerPatches(t: nat, applied: bool, answer: Answer)
      requires Valid()
      requires Enabled(View(), Advance(t, Input.ServerPatches(applied, answer)))
      modifies this`runs, this`tasks
      ensures Valid()
      ensures View() == Apply(old(View()), Advance(t, Input.ServerPatches(applied, answer)))
    {
      var id := tasks[t].phase.id;
      if applied {
        runs := runs[id := runs[id].(externalId := MarkerOf(tasks[t].ordering))];
      }
      Move(t, Patched(answer));
      StepKeepsChains(old(View()), Advance(t, Input.ServerPatches(applied, answer)), View());
    }

    /** GitHub's side of a creation: a new run with an id above all others. */
    method ServerPosts(t: nat, applied: bool, answer: Answer)
      requires Valid()
      requires Enabled(View(), Advance(t, Input.ServerPosts(applied, answer)))
      modifies this`runs, this`nextId, this`tasks
      ensures Valid()
      ensures View() == Apply(old(View()), Advance(t, Input.ServerPosts(applied, answer)))
    {
      if applied {
        runs := runs[nextId := CheckRun(tasks[t].commit, checkName, true, MarkerOf(tasks[t].ordering))];
        nextId := nextId + 1;
      }
      Move(t, Posted(answer));
      StepKeepsChains(old(View()), Advance(t, Input.ServerPosts(applied, answer)), View());
    }
  }
}
