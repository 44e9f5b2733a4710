/**
 Concurrent webhook handlers sharing one replay guard: the reserve, handle, commit or roll back part of
 `handleGitHubWebhookHttpRequest` (apps/github-bot/src/webhook.ts).

 A handler reserves in one step and later, after the orchestrator has answered, commits or rolls back in
 another; any number of other steps may come in between.
 */
module WebhookHandlers {
  import opened Options
  import opened ReplayGuard

  datatype Phase = Handling | Accepted | Unsent | Failed | Refused

  datatype Handler = Handler(id: string, phase: Phase)

  datatype State = State(entries: Entries, handlers: seq<Handler>)

  /** `Unsent` is a handler whose response could not be sent after the commit: it rolls back as well. */
  datatype Event =
    | Deliver(id: string, now: int)
    | Succeed(handler: nat, now: int)
    | SucceedUnsent(handler: nat, now: int)
    | Fail(handler: nat)
    | Elsewhere(op: Operation)

  predicate Enabled(s: State, event: Event) {
    match event
    case Deliver(_, _) => true
    case Elsewhere(op) => op.Look? || op.CheckAndRemember?
    case _ => event.handler < |s.handlers| && s.handlers[event.handler].phase.Handling?
  }

  function OperationOf(s: State, event: Event): Operation
    requires Enabled(s, event)
  {
    match event
    case Deliver(id, now) => Reserve(id, now)
    case Succeed(h, now) => Commit(s.handlers[h].id, now)
    case SucceedUnsent(h, now) => Commit(s.handlers[h].id, now)
    case Fail(h) => Rollback(s.handlers[h].id)
    case Elsewhere(op) => op
  }

  function Next(s: State, event: Event, settings: Settings): State
    requires Enabled(s, event)
  {
    var op := OperationOf(s, event);
    var entries := ReplayGuard.Apply(s.entries, op, settings);
    match event
    case Deliver(id, _) =>
      State(entries, s.handlers + [Handler(id, if Accepts(s.entries, op, settings) then Handling else Refused)])
    case Succeed(h, _) => State(entries, s.handlers[h := s.handlers[h].(phase := Accepted)])
    case SucceedUnsent(h, _) =>
      State(ReplayGuard.Apply(entries, Rollback(s.handlers[h].id), settings), s.handlers[h := s.handlers[h].(phase := Unsent)])
    case Fail(h) => State(entries, s.handlers[h := s.handlers[h].(phase := Failed)])
    case Elsewhere(_) => State(entries, s.handlers)
  }

  ghost predicate Run(states: seq<State>, events: seq<Event>, settings: Settings) {
    && |states| == |events| + 1
    && states[0] == State([], [])
    && forall k {:trigger events[k]} :: 0 <= k < |events| ==>
         Enabled(states[k], events[k]) && states[k + 1] == Next(states[k], events[k], settings)
  }

  // ---------------------------------------------------------------- when a reservation is evicted

  /** A call that prunes, while at least `maxEntries` unexpired entries were inserted after this reservation. */
  predicate Crowded(entries: Entries, op: Operation, id: string, settings: Settings) {
    && !op.Commit? && !op.Rollback?
    && MarkOf(entries, id) == Some(Reserved)
    && Has(Unexpired(entries, op.now), id)
    && Later(Unexpired(entries, op.now), id) >= settings.maxEntries
  }

  /** A pruning call drops a reservation exactly when it is crowded out; nothing else evicts it. */
  lemma EvictedIff(entries: Entries, op: Operation, id: string, settings: Settings)
    requires UniqueIds(entries) && MarkOf(entries, id) == Some(Reserved) && !op.Commit? && !op.Rollback?
    ensures Dropped(entries, op, id, settings) <==> Crowded(entries, op, id, settings)
  {
    UnexpiredKeeps(entries, id, op.now);
    UnexpiredMembers(entries, op.now);
    NewestKeeps(Unexpired(entries, op.now), id, settings.maxEntries);
  }

  /** Nothing is crowded out while the unexpired entries are no more than the maximum. */
  lemma RoomWhenSmall(entries: Entries, op: Operation, id: string, settings: Settings)
    requires !op.Commit? && !op.Rollback? && |Unexpired(entries, op.now)| <= settings.maxEntries
    ensures !Crowded(entries, op, id, settings)
  {
  }

  // ---------------------------------------------------------------- one handler at a time, for one delivery

  predicate IsHandling(s: State, h: nat, id: string) {
    h < |s.handlers| && s.handlers[h] == Handler(id, Handling)
  }

  /** Whoever handles this delivery has its reservation in the map, and nobody else handles it. */
  ghost predicate Exclusive(s: State, id: string) {
    && UniqueIds(s.entries)
    && (forall h: nat :: IsHandling(s, h, id) ==> MarkOf(s.entries, id) == Some(Reserved))
    && (forall h: nat, k: nat :: IsHandling(s, h, id) && IsHandling(s, k, id) ==> h == k)
  }

  lemma NewReservation(entries: Entries, op: Operation, settings: Settings)
    requires op.Reserve? && Accepts(entries, op, settings)
    ensures MarkOf(ReplayGuard.Apply(entries, op, settings), op.id) == Some(Reserved)
  {
    var kept, next := Kept(entries, op, settings), ReplayGuard.Apply(entries, op, settings);
    assert next[|kept|] == Entry(op.id, Reserved) && (forall k :: 0 <= k < |kept| ==> next[k] == kept[k]);
    assert Position(next, op.id) == |kept|;
  }

  lemma OperationKeepsUnique(entries: Entries, op: Operation, settings: Settings)
    requires UniqueIds(entries)
    ensures UniqueIds(ReplayGuard.Apply(entries, op, settings))
  {
    if op.Rollback? {
      DeleteMembers(entries, op.id);
    } else if !op.Commit? {
      PrunedUnique(entries, op.now, settings);
    }
  }

  /** The entries after an event are those after its operation: an unsent response changes nothing more. */
  lemma EntriesAfter(s: State, event: Event, settings: Settings)
    requires Enabled(s, event) && UniqueIds(s.entries)
    ensures Next(s, event, settings).entries == ReplayGuard.Apply(s.entries, OperationOf(s, event), settings)
  {
    if event.SucceedUnsent? {
      RollbackAfterCommit(s.entries, s.handlers[event.handler].id, event.now, settings);
    }
  }

  /** A reservation that is not crowded out stays until its own handler commits or rolls it back. */
  lemma ReservationStays(entries: Entries, op: Operation, id: string, settings: Settings)
    requires UniqueIds(entries) && MarkOf(entries, id) == Some(Reserved) && !Crowded(entries, op, id, settings)
    requires op.Commit? || op.Rollback? ==> op.id != id
    ensures MarkOf(ReplayGuard.Apply(entries, op, settings), id) == Some(Reserved)
    ensures !(Accepts(entries, op, settings) && op.id == id)
  {
    if op.Commit? || op.Rollback? {
      if Dropped(entries, op, id, settings) {
        DropIsExplained(entries, op, id, settings);
      }
    } else {
      EvictedIff(entries, op, id, settings);
    }
    StayIsQuiet(entries, op, id, settings);
  }

  /** A handler still handling the delivery was handling it, and keeps its reservation. */
  lemma HandlerStays(s: State, event: Event, id: string, settings: Settings, h: nat)
    requires Exclusive(s, id) && Enabled(s, event) && !Crowded(s.entries, OperationOf(s, event), id, settings)
    requires h < |s.handlers| && IsHandling(Next(s, event, settings), h, id)
    ensures IsHandling(s, h, id) && MarkOf(Next(s, event, settings).entries, id) == Some(Reserved)
    ensures !(event.Deliver? && Accepts(s.entries, OperationOf(s, event), settings) && event.id == id)
  {
    assert IsHandling(s, h, id);
    EntriesAfter(s, event, settings);
    if event.Succeed? || event.SucceedUnsent? || event.Fail? {
      assert IsHandling(s, event.handler, s.handlers[event.handler].id) && event.handler != h;
    }
    ReservationStays(s.entries, OperationOf(s, event), id, settings);
  }

  lemma NextKeepsExclusive(s: State, event: Event, id: string, settings: Settings)
    requires Exclusive(s, id) && Enabled(s, event) && !Crowded(s.entries, OperationOf(s, event), id, settings)
    ensures Exclusive(Next(s, event, settings), id)
  {
    var op, t := OperationOf(s, event), Next(s, event, settings);
    EntriesAfter(s, event, settings);
    OperationKeepsUnique(s.entries, op, settings);
    if event.Deliver? && Accepts(s.entries, op, settings) && event.id == id {
      NewReservation(s.entries, op, settings);
      forall h: nat | IsHandling(t, h, id) ensures h == |s.handlers| {
        if h < |s.handlers| {
          HandlerStays(s, event, id, settings, h);
        }
      }
    } else {
      forall h: nat | IsHandling(t, h, id) ensures IsHandling(s, h, id) && MarkOf(t.entries, id) == Some(Reserved) {
        assert h < |s.handlers|;
        HandlerStays(s, event, id, settings, h);
      }
    }
  }

  lemma {:induction false} ExclusiveAlongRun(states: seq<State>, events: seq<Event>, id: string, settings: Settings, n: nat)
    requires Run(states, events, settings) && n < |states|
    requires forall k :: 0 <= k < n ==> !Crowded(states[k].entries, OperationOf(states[k], events[k]), id, settings)
    ensures Exclusive(states[n], id)
  {
    if n > 0 {
      ExclusiveAlongRun(states, events, id, settings, n - 1);
      assert Enabled(states[n - 1], events[n - 1]);
      NextKeepsExclusive(states[n - 1], events[n - 1], id, settings);
    }
  }

  /**
   As long as this delivery's own reservation has not been crowded out, whatever happens to others, at
   most one handler at a time is handling it, and its reservation is in the map.
   */
  lemma HandledByOneAtATime(states: seq<State>, events: seq<Event>, id: string, settings: Settings, n: nat, h: nat, k: nat)
    requires Run(states, events, settings) && n < |states|
    requires forall i :: 0 <= i < n ==> !Crowded(states[i].entries, OperationOf(states[i], events[i]), id, settings)
    requires IsHandling(states[n], h, id) && IsHandling(states[n], k, id)
    ensures h == k && MarkOf(states[n].entries, id) == Some(Reserved)
  {
    ExclusiveAlongRun(states, events, id, settings, n);
  }

  // ---------------------------------------------------------------- exactly when a second handler starts

  /** The entry is still there after the prune of a call at this time. */
  predicate Remembered(entries: Entries, id: string, now: int, settings: Settings) {
    Has(Unexpired(entries, now), id) && Later(Unexpired(entries, now), id) < settings.maxEntries
  }

  lemma RememberedIff(entries: Entries, id: string, now: int, settings: Settings)
    requires UniqueIds(entries)
    ensures Has(Pruned(entries, now, settings), id) <==> Remembered(entries, id, now, settings)
  {
    UnexpiredMembers(entries, now);
    if Has(Unexpired(entries, now), id) {
      NewestKeeps(Unexpired(entries, now), id, settings.maxEntries);
    }
    if Has(Pruned(entries, now, settings), id) {
      NewestHas(Unexpired(entries, now), id, settings.maxEntries);
    }
  }

  lemma {:induction false} UniqueAlongRun(states: seq<State>, events: seq<Event>, settings: Settings, n: nat)
    requires Run(states, events, settings) && n < |states|
    ensures UniqueIds(states[n].entries)
  {
    if n > 0 {
      UniqueAlongRun(states, events, settings, n - 1);
      assert Enabled(states[n - 1], events[n - 1]);
      EntriesAfter(states[n - 1], events[n - 1], settings);
      OperationKeepsUnique(states[n - 1].entries, OperationOf(states[n - 1], events[n - 1]), settings);
    }
  }

  /**
   In every state of every run: a delivered copy is handled if and only if no entry of its id is
   remembered, that is, unexpired with fewer than `maxEntries` unexpired entries inserted after it; otherwise
   it is refused.  Whether another handler is at work on the same delivery plays no part.
   */
  lemma CopyHandledIff(states: seq<State>, events: seq<Event>, id: string, settings: Settings, n: nat, now: int)
    requires Run(states, events, settings) && n < |states|
    ensures var s := states[n]; var t := Next(s, Deliver(id, now), settings);
      && (IsHandling(t, |s.handlers|, id) <==> !Remembered(s.entries, id, now, settings))
      && (t.handlers[|s.handlers|] == Handler(id, Refused) <==> Remembered(s.entries, id, now, settings))
  {
    UniqueAlongRun(states, events, settings, n);
    RememberedIff(states[n].entries, id, now, settings);
  }

  ghost predicate HandledTwice(s: State, id: string) {
    exists h: nat, k: nat :: h != k && IsHandling(s, h, id) && IsHandling(s, k, id)
  }

  /**
   So in every run, exactly when a step makes two handlers work on one delivery that had at most one:
   a copy is delivered while a handler is at work on it and its entry is not remembered, whatever removed
   that entry and when.
   */
  lemma SecondHandlerIff(states: seq<State>, events: seq<Event>, id: string, settings: Settings, n: nat)
    requires Run(states, events, settings) && n < |events| && !HandledTwice(states[n], id)
    ensures HandledTwice(states[n + 1], id) <==>
      && events[n].Deliver? && events[n].id == id && (exists h: nat :: IsHandling(states[n], h, id))
      && !Remembered(states[n].entries, id, events[n].now, settings)
  {
    var s, event, t := states[n], events[n], states[n + 1];
    assert Enabled(s, event) && t == Next(s, event, settings);
    forall h: nat | h < |s.handlers| && IsHandling(t, h, id) ensures IsHandling(s, h, id) {
    }
    if event.Deliver? {
      CopyHandledIff(states, events, event.id, settings, n, event.now);
      if h: nat :| IsHandling(s, h, id) {
        assert IsHandling(t, h, id) && h != |s.handlers|;
      }
    }
  }

  // ---------------------------------------------------------------- what a handler's end means for the next copy

  /** A response that could not be sent after the commit changes the handler's end and nothing in the map. */
  lemma UnsentStaysCommitted(s: State, h: nat, done: int, settings: Settings)
    requires UniqueIds(s.entries) && h < |s.handlers| && s.handlers[h].phase == Handling
    ensures Next(s, SucceedUnsent(h, done), settings).entries == Next(s, Succeed(h, done), settings).entries
    ensures Next(s, SucceedUnsent(h, done), settings).handlers[h] == Handler(s.handlers[h].id, Unsent)
  {
    RollbackAfterCommit(s.entries, s.handlers[h].id, done, settings);
  }

  /** After a failure the delivery is handled again at once. */
  lemma FailureAllowsRetry(s: State, h: nat, id: string, now: int, settings: Settings)
    requires Exclusive(s, id) && IsHandling(s, h, id)
    ensures Next(s, Fail(h), settings).handlers[h] == Handler(id, Failed)
    ensures IsHandling(Next(Next(s, Fail(h), settings), Deliver(id, now), settings), |s.handlers|, id)
  {
    RolledBackIsAccepted(s.entries, id, now, settings);
  }

  /** After a success the delivery is refused for exactly the time to live, while there is room for its entry. */
  lemma SuccessRefusesIff(s: State, h: nat, id: string, done: int, now: int, settings: Settings)
    requires Exclusive(s, id) && IsHandling(s, h, id)
    ensures Next(s, Succeed(h, done), settings).handlers[h] == Handler(id, Accepted)
    ensures var after := Next(s, Succeed(h, done), settings);
      Next(after, Deliver(id, now), settings).handlers[|s.handlers|] == Handler(id, Refused) <==>
        now < done + settings.ttl && Remembered(after.entries, id, now, settings)
  {
    CommittedRefusedIff(s.entries, id, done, now, settings);
  }

  lemma {:induction false} ReservedStay(entries: Entries, now: int)
    requires forall i :: 0 <= i < |entries| ==> entries[i].mark == Reserved
    ensures Unexpired(entries, now) == entries
  {
    if entries != [] {
      ReservedStay(entries[1..], now);
      assert [entries[0]] + entries[1..] == entries;
    }
  }

  function Reservations(ids: seq<string>): Entries {
    seq(|ids|, i requires 0 <= i < |ids| => Entry(ids[i], Reserved))
  }

  function Last(ids: seq<string>): seq<string> {
    if ids == [] then [] else [ids[|ids| - 1]]
  }

  /** With room for one, a delivery evicts all reservations but the last; unless that is its own, it is handled. */
  lemma DeliveryEvicts(ids: seq<string>, handlers: seq<Handler>, id: string)
    requires id !in Last(ids)
    ensures Next(State(Reservations(ids), handlers), Deliver(id, 0), Settings(1, 1000)) ==
      State(Reservations(Last(ids) + [id]), handlers + [Handler(id, Handling)])
  {
    ReservedStay(Reservations(ids), 0);
    assert Newest(Reservations(ids), 1) == Reservations(Last(ids));
    assert Reservations(Last(ids)) + [Entry(id, Reserved)] == Reservations(Last(ids) + [id]);
  }

  function Crowding(x: string, y: string): seq<State> {
    [State(Reservations([]), []), State(Reservations([x]), [Handler(x, Handling)]),
     State(Reservations([x, y]), [Handler(x, Handling), Handler(y, Handling)]),
     State(Reservations([y, x]), [Handler(x, Handling), Handler(y, Handling), Handler(x, Handling)])]
  }

  lemma CrowdingDeliveries(x: string, y: string, i: nat)
    requires x != y && i < 3
    ensures Crowding(x, y)[i + 1] == Next(Crowding(x, y)[i], Deliver([x, y, x][i], 0), Settings(1, 1000))
  {
    var ids := if i == 0 then [] else if i == 1 then [x] else [x, y];
    DeliveryEvicts(ids, Crowding(x, y)[i].handlers, [x, y, x][i]);
    assert Last(ids) + [[x, y, x][i]] == if i == 0 then [x] else if i == 1 then [x, y] else [y, x];
  }

  /** Without room it can happen: the third delivery evicts the first reservation and is handled as well. */
  lemma EvictionAllowsTwo(x: string, y: string) returns (states: seq<State>, events: seq<Event>)
    requires x != y
    ensures Run(states, events, Settings(1, 1000)) && |events| == 3
    ensures states[3].handlers == [Handler(x, Handling), Handler(y, Handling), Handler(x, Handling)]
  {
    states, events := Crowding(x, y), [Deliver(x, 0), Deliver(y, 0), Deliver(x, 0)];
    forall i {:trigger events[i]} | 0 <= i < 3 ensures states[i + 1] == Next(states[i], events[i], Settings(1, 1000)) {
      CrowdingDeliveries(x, y, i);
    }
  }

  /** The six deliveries and failures of a reservation evicted early, after which nothing is left in the map. */
  function Forgotten(x: string, y: string, z: string): seq<State> {
    var a, b, c := Handler(x, Handling), Handler(y, Handling), Handler(z, Handling);
    [State(Reservations([]), []), State(Reservations([x]), [a]), State(Reservations([x, y]), [a, b]),
     State(Reservations([y, z]), [a, b, c]), State(Reservations([z]), [a, Handler(y, Failed), c]),
     State(Reservations([]), [a, Handler(y, Failed), Handler(z, Failed)]),
     State(Reservations([x]), [a, Handler(y, Failed), Handler(z, Failed), a])]
  }

  function ForgottenEvents(x: string, y: string, z: string): seq<Event> {
    [Deliver(x, 0), Deliver(y, 0), Deliver(z, 0), Fail(1), Fail(2), Deliver(x, 0)]
  }

  lemma OldestRolledBack(ids: seq<string>, id: string)
    requires id !in ids
    ensures Delete(Reservations([id] + ids), id) == Reservations(ids)
  {
    DeleteAbsent(Reservations(ids), id);
    assert Reservations([id] + ids)[1..] == Reservations(ids);
  }

  lemma {:induction false} DeleteAbsent(entries: Entries, id: string)
    requires forall i :: 0 <= i < |entries| ==> entries[i].id != id
    ensures Delete(entries, id) == entries
  {
    if entries != [] {
      DeleteAbsent(entries[1..], id);
      assert [entries[0]] + entries[1..] == entries;
    }
  }

  lemma ForgottenDeliveries(x: string, y: string, z: string, i: nat)
    requires x != y && y != z && x != z && i in {0, 1, 2, 5}
    ensures var s, e := Forgotten(x, y, z), ForgottenEvents(x, y, z);
      Enabled(s[i], e[i]) && s[i + 1] == Next(s[i], e[i], Settings(1, 1000))
  {
    var s := Forgotten(x, y, z);
    var ids := if i == 1 then [x] else if i == 2 then [x, y] else [];
    var id := if i == 1 then y else if i == 2 then z else x;
    DeliveryEvicts(ids, s[i].handlers, id);
    assert Last(ids) + [id] == if i == 1 then [x, y] else if i == 2 then [y, z] else [x];
  }

  lemma ForgottenFailures(x: string, y: string, z: string, i: nat)
    requires x != y && y != z && x != z && i in {3, 4}
    ensures var s, e := Forgotten(x, y, z), ForgottenEvents(x, y, z);
      Enabled(s[i], e[i]) && s[i + 1] == Next(s[i], e[i], Settings(1, 1000))
  {
    var s := Forgotten(x, y, z);
    if i == 3 {
      OldestRolledBack([z], y);
      assert [y] + [z] == [y, z];
      assert s[4].handlers == s[3].handlers[1 := Handler(y, Failed)];
    } else {
      OldestRolledBack([], z);
      assert [z] + [] == [z];
      assert s[5].handlers == s[4].handlers[2 := Handler(z, Failed)];
    }
  }

  /**
   Nor need anything be left behind the evicted reservation: it is evicted by others, which then fail and
   leave the map empty, and the next copy is handled beside the first.
   */
  lemma EvictedEarlierAllowsTwo(x: string, y: string, z: string) returns (states: seq<State>, events: seq<Event>)
    requires x != y && y != z && x != z
    ensures Run(states, events, Settings(1, 1000)) && |events| == 6
    ensures states[5].entries == [] && IsHandling(states[6], 0, x) && IsHandling(states[6], 3, x)
  {
    states, events := Forgotten(x, y, z), ForgottenEvents(x, y, z);
    forall i {:trigger events[i]} | 0 <= i < 6
      ensures Enabled(states[i], events[i]) && states[i + 1] == Next(states[i], events[i], Settings(1, 1000))
    {
      if i in {3, 4} {
        ForgottenFailures(x, y, z, i);
      } else {
        ForgottenDeliveries(x, y, z, i);
      }
    }
  }
}
