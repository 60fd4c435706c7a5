/**
 * The outbox of domain events: the tables `domain_events` and `event_deliveries`, and every statement that writes
 * them (src/platform/events/event-outbox.ts, event-deliveries.ts and delivered-event-cleanup.ts). Identifiers are
 * UUIDs, kept here as numbers: only their order and their being new matter.
 */
module EventOutbox {
  import opened Collections
  import opened EventRetries
  import opened Wrappers

  type EventId = nat
  type DeliveryId = nat
  type Handler = string

  datatype Event = Event(id: EventId, eventType: string, occurredAt: Time)

  datatype Status = Pending | Delivered | Failed

  datatype Delivery = Delivery(
    eventId: EventId,
    handler: Handler,
    status: Status,
    attempts: nat,
    nextAttemptAt: Time,
    lockedUntil: Option<Time>,
    deliveredAt: Option<Time>,
    lastError: Option<string>)

  datatype Database = Database(events: map<EventId, Event>, deliveries: map<DeliveryId, Delivery>)

  /** An event to store, with the handlers that get a delivery. */
  datatype EventToStore = EventToStore(event: Event, handlers: seq<Handler>)

  datatype ClaimedDelivery = ClaimedDelivery(id: DeliveryId, handler: Handler, attempts: nat, event: Event)

  datatype OutboxError = UniqueViolation | NotFound | InvalidTransition(from: Status)

  /** Both deliver one event to one handler. */
  predicate SamePair(a: Delivery, b: Delivery) {
    a.eventId == b.eventId && a.handler == b.handler
  }

  /** The foreign key and the unique index of `event_deliveries`. */
  ghost predicate Constraints(db: Database) {
    && (forall id <- db.deliveries :: db.deliveries[id].eventId in db.events)
    && (forall a <- db.deliveries, b <- db.deliveries ::
          SamePair(db.deliveries[a], db.deliveries[b]) ==> a == b)
    && (forall e <- db.events :: db.events[e].id == e)
  }

  const DAY: Time := 86400000

  /** The cutoff of a retention of some days (src/shared-kernel/cleanup.ts:28-31). */
  function DaysBefore(now: Time, days: nat): Time { now - days * DAY }

  /** The names of the handlers of an event type, in the order they were registered. */
  type Registry = map<string, seq<Handler>>

  function HandlersFor(registry: Registry, eventType: string): seq<Handler> {
    if eventType in registry then registry[eventType] else []
  }

  // ---- What each statement selects and writes ----

  /** Nobody holds the delivery at `now`. */
  predicate Free(d: Delivery, now: Time) {
    d.lockedUntil.None? || d.lockedUntil.value <= now
  }

  predicate Claimable(d: Delivery, now: Time) {
    d.status == Pending && d.attempts < MAX_DELIVERY_ATTEMPTS && Free(d, now)
  }

  predicate Due(d: Delivery, now: Time) {
    Claimable(d, now) && d.nextAttemptAt <= now
  }

  predicate Abandoned(d: Delivery, now: Time) {
    && d.status == Pending
    && d.attempts >= MAX_DELIVERY_ATTEMPTS
    && d.lockedUntil.Some? && d.lockedUntil.value <= now
  }

  function NewDelivery(event: EventId, handler: Handler, now: Time): Delivery {
    Delivery(event, handler, Pending, 0, now + Delay(0), None, None, None)
  }

  function Held(d: Delivery, now: Time): Delivery {
    d.(attempts := d.attempts + 1, lockedUntil := Some(now + DELIVERY_LEASE))
  }

  function Settled(d: Delivery, now: Time): Delivery {
    d.(status := Delivered, deliveredAt := Some(now), lockedUntil := None, lastError := None)
  }

  function AfterFailure(d: Delivery, attempts: nat, now: Time, error: string): Delivery {
    match NextAttemptAt(attempts, now)
    case None => d.(status := Failed, lockedUntil := None, lastError := Some(error))
    case Some(retryAt) => d.(nextAttemptAt := retryAt, lockedUntil := None, lastError := Some(error))
  }

  function GivenUp(d: Delivery): Delivery {
    d.(status := Failed, lockedUntil := None, lastError := Some("The last attempt did not finish"))
  }

  function PendingAgain(d: Delivery, now: Time): Delivery {
    d.(status := Pending, attempts := 0, nextAttemptAt := now, lockedUntil := None)
  }

  // ---- The effect of each statement on the tables ----

  function Take(db: Database, ids: set<DeliveryId>, now: Time): Database {
    db.(deliveries := map id | id in db.deliveries ::
      if id in ids then Held(db.deliveries[id], now) else db.deliveries[id])
  }

  function Rewrite(db: Database, id: DeliveryId, d: Delivery): Database {
    db.(deliveries := db.deliveries[id := d])
  }

  function AbandonedIds(db: Database, now: Time): set<DeliveryId> {
    set id | id in db.deliveries && Abandoned(db.deliveries[id], now)
  }

  function GiveUp(db: Database, now: Time): Database {
    db.(deliveries := map id | id in db.deliveries ::
      if Abandoned(db.deliveries[id], now) then GivenUp(db.deliveries[id]) else db.deliveries[id])
  }

  function Reset(db: Database, ids: set<DeliveryId>, now: Time): Database {
    db.(deliveries := map id | id in db.deliveries ::
      if id in ids then PendingAgain(db.deliveries[id], now) else db.deliveries[id])
  }

  function DueIds(db: Database, now: Time): set<DeliveryId> {
    set id | id in db.deliveries && Due(db.deliveries[id], now)
  }

  /** Every delivery of the event succeeded before the cutoff, so the cleanup may delete it. */
  predicate Removable(db: Database, event: EventId, cutoff: Time) {
    forall id <- db.deliveries :: db.deliveries[id].eventId == event ==>
      && db.deliveries[id].status == Delivered
      && (db.deliveries[id].deliveredAt.Some? ==> db.deliveries[id].deliveredAt.value < cutoff)
  }

  /** Deletes events; their deliveries go with them. */
  function Delete(db: Database, events: set<EventId>): Database {
    Database(
      db.events - events,
      map id | id in db.deliveries && db.deliveries[id].eventId !in events :: db.deliveries[id])
  }

  /** The order of `ORDER BY key, id`. */
  predicate Precedes(key: map<nat, Time>, a: nat, b: nat) {
    a in key && b in key && (key[a] < key[b] || (key[a] == key[b] && a < b))
  }

  function NextAttempts(db: Database): map<DeliveryId, Time> {
    map id | id in db.deliveries :: db.deliveries[id].nextAttemptAt
  }

  /**
   * The deliveries one `claimDue` takes: due, not locked by another statement at that instant (`skipped`), at most
   * `limit`, all of them when they fit, and otherwise those that waited longest.
   */
  ghost predicate TakesDue(db: Database, now: Time, limit: nat, skipped: set<DeliveryId>, taken: set<DeliveryId>) {
    var candidates := DueIds(db, now) - skipped;
    && taken <= candidates
    && |taken| == (if |candidates| <= limit then |candidates| else limit)
    && (forall a <- taken, b <- candidates - taken :: Precedes(NextAttempts(db), a, b))
  }

  lemma {:induction false} TakesAllThatFit(db: Database, now: Time, limit: nat, taken: set<DeliveryId>)
    requires TakesDue(db, now, limit, {}, taken)
    requires |DueIds(db, now)| <= limit
    ensures taken == DueIds(db, now)
  {
    var due := DueIds(db, now);
    assert due - {} == due;
    if taken != due {
      var id :| id in due && id !in taken;
      SubsetIsSmaller(taken, due - {id});
    }
  }

  predicate Wanted(toStore: seq<EventToStore>, event: EventId, handler: Handler) {
    exists i | 0 <= i < |toStore| :: toStore[i].event.id == event && handler in toStore[i].handlers
  }

  function HandledIds(toStore: seq<EventToStore>): set<EventId> {
    set i | 0 <= i < |toStore| && toStore[i].handlers != [] :: toStore[i].event.id
  }

  /**
   * `after` is `before` with the events that have handlers, and exactly one new pending delivery of each to each of
   * its handlers.
   */
  ghost predicate Saved(before: Database, after: Database, toStore: seq<EventToStore>, now: Time) {
    && HandledIds(toStore) !! before.events.Keys
    && after.events.Keys == before.events.Keys + HandledIds(toStore)
    && (forall e <- before.events :: after.events[e] == before.events[e])
    && (forall i | 0 <= i < |toStore| && toStore[i].handlers != [] ::
          after.events[toStore[i].event.id] == toStore[i].event)
    && before.deliveries.Keys <= after.deliveries.Keys
    && (forall id <- before.deliveries :: after.deliveries[id] == before.deliveries[id])
    && (forall id <- after.deliveries.Keys - before.deliveries.Keys ::
          var d := after.deliveries[id];
          Wanted(toStore, d.eventId, d.handler) && d == NewDelivery(d.eventId, d.handler, now))
    && (forall e, h | Wanted(toStore, e, h) ::
          exists id <- after.deliveries.Keys - before.deliveries.Keys ::
            after.deliveries[id].eventId == e && after.deliveries[id].handler == h)
    && (forall a <- after.deliveries.Keys - before.deliveries.Keys,
               b <- after.deliveries.Keys - before.deliveries.Keys ::
          SamePair(after.deliveries[a], after.deliveries[b]) ==> a == b)
  }

  lemma {:induction false} SavingKeepsConstraints(before: Database, after: Database, toStore: seq<EventToStore>,
                                                  now: Time)
    requires Constraints(before) && Saved(before, after, toStore, now)
    ensures Constraints(after)
  {
    forall id <- after.deliveries
      ensures after.deliveries[id].eventId in after.events
      ensures id !in before.deliveries ==> after.deliveries[id].eventId !in before.events
    {
      if id !in before.deliveries {
        var d := after.deliveries[id];
        var i :| 0 <= i < |toStore| && toStore[i].event.id == d.eventId && d.handler in toStore[i].handlers;
        assert d.eventId in HandledIds(toStore);
      }
    }
  }

  // ---- Rows to insert ----

  /** One pair of event and handler per delivery, in the order they are inserted. */
  function Pairs(toStore: seq<EventToStore>): seq<(EventId, Handler)> {
    if toStore == [] then []
    else seq(|toStore[0].handlers|, j requires 0 <= j < |toStore[0].handlers| =>
             (toStore[0].event.id, toStore[0].handlers[j])) + Pairs(toStore[1..])
  }

  lemma {:induction false} PairsAreWanted(toStore: seq<EventToStore>, e: EventId, h: Handler)
    ensures (e, h) in Pairs(toStore) <==> Wanted(toStore, e, h)
  {
    if toStore == [] {
    } else {
      PairsAreWanted(toStore[1..], e, h);
      var first := toStore[0];
      var rest := toStore[1..];
      var heads := seq(|first.handlers|, j requires 0 <= j < |first.handlers| => (first.event.id, first.handlers[j]));
      assert Pairs(toStore) == heads + Pairs(rest);
      if Wanted(toStore, e, h) {
        var i :| 0 <= i < |toStore| && toStore[i].event.id == e && h in toStore[i].handlers;
        if i == 0 {
          var j :| 0 <= j < |first.handlers| && first.handlers[j] == h;
          assert heads[j] == (e, h);
        } else {
          assert rest[i - 1] == toStore[i];
        }
      }
      if Wanted(rest, e, h) {
        var i :| 0 <= i < |rest| && rest[i].event.id == e && h in rest[i].handlers;
        assert toStore[i + 1] == rest[i];
      }
    }
  }

  /** Handled events whose identifiers are new, each once. */
  predicate NewEvents(db: Database, toStore: seq<EventToStore>) {
    && (forall i | 0 <= i < |toStore| && toStore[i].handlers != [] :: toStore[i].event.id !in db.events)
    && (forall i, j | 0 <= i < j < |toStore| ::
          toStore[i].handlers != [] && toStore[j].handlers != [] ==> toStore[i].event.id != toStore[j].event.id)
  }

  /** The rows of `domain_events` to insert. */
  function EventRows(toStore: seq<EventToStore>): (rows: map<EventId, Event>)
    requires NewEvents(Database(map[], map[]), toStore)
    ensures rows.Keys == HandledIds(toStore)
    ensures forall i | 0 <= i < |toStore| && toStore[i].handlers != [] :: rows[toStore[i].event.id] == toStore[i].event
  {
    map i | 0 <= i < |toStore| && toStore[i].handlers != [] :: toStore[i].event.id := toStore[i].event
  }

  /** The rows of `event_deliveries` to insert. */
  function DeliveryRows(pairs: seq<(EventId, Handler)>, ids: seq<DeliveryId>, now: Time)
    : (rows: map<DeliveryId, Delivery>)
    requires |ids| == |pairs| && Distinct(ids)
    ensures forall i | 0 <= i < |ids| :: ids[i] in rows && rows[ids[i]] == NewDelivery(pairs[i].0, pairs[i].1, now)
    ensures forall id <- rows :: exists i | 0 <= i < |ids| :: ids[i] == id
  {
    map i | 0 <= i < |ids| :: ids[i] := NewDelivery(pairs[i].0, pairs[i].1, now)
  }

  /** The tables with the rows of both inserts. */
  function Inserted(db: Database, toStore: seq<EventToStore>, ids: seq<DeliveryId>, now: Time): Database
    requires NewEvents(db, toStore)
    requires |ids| == |Pairs(toStore)| && Distinct(ids)
  {
    Database(db.events + EventRows(toStore), db.deliveries + DeliveryRows(Pairs(toStore), ids, now))
  }

  lemma {:induction false} InsertedIsSaved(db: Database, toStore: seq<EventToStore>, ids: seq<DeliveryId>, now: Time)
    requires NewEvents(db, toStore)
    requires |ids| == |Pairs(toStore)| && Distinct(ids) && Distinct(Pairs(toStore))
    requires forall i | 0 <= i < |ids| :: ids[i] !in db.deliveries
    ensures Saved(db, Inserted(db, toStore, ids, now), toStore, now)
  {
    var after := Inserted(db, toStore, ids, now);
    var rows := DeliveryRows(Pairs(toStore), ids, now);
    assert after.deliveries.Keys - db.deliveries.Keys == rows.Keys;
    RowsAreExact(toStore, ids, now);
  }

  lemma {:induction false} RowOfPair(pairs: seq<(EventId, Handler)>, ids: seq<DeliveryId>, now: Time, id: DeliveryId)
    returns (i: nat)
    requires |ids| == |pairs| && Distinct(ids) && id in DeliveryRows(pairs, ids, now)
    ensures i < |ids| && ids[i] == id && DeliveryRows(pairs, ids, now)[id] == NewDelivery(pairs[i].0, pairs[i].1, now)
  {
    i :| 0 <= i < |ids| && ids[i] == id;
  }

  lemma {:induction false} RowsAreWanted(toStore: seq<EventToStore>, ids: seq<DeliveryId>, now: Time, id: DeliveryId)
    requires |ids| == |Pairs(toStore)| && Distinct(ids) && id in DeliveryRows(Pairs(toStore), ids, now)
    ensures var row := DeliveryRows(Pairs(toStore), ids, now)[id];
            Wanted(toStore, row.eventId, row.handler) && row == NewDelivery(row.eventId, row.handler, now)
  {
    var pairs := Pairs(toStore);
    var i := RowOfPair(pairs, ids, now, id);
    assert pairs[i] in pairs;
    PairsAreWanted(toStore, pairs[i].0, pairs[i].1);
  }

  lemma {:induction false} WantedHasRow(toStore: seq<EventToStore>, ids: seq<DeliveryId>, now: Time, e: EventId,
                                        h: Handler)
    requires |ids| == |Pairs(toStore)| && Distinct(ids) && Wanted(toStore, e, h)
    ensures var rows := DeliveryRows(Pairs(toStore), ids, now);
            exists id <- rows :: rows[id].eventId == e && rows[id].handler == h
  {
    var pairs := Pairs(toStore);
    PairsAreWanted(toStore, e, h);
    var i :| 0 <= i < |pairs| && pairs[i] == (e, h);
    assert DeliveryRows(pairs, ids, now)[ids[i]].eventId == e;
  }

  lemma {:induction false} OneRowPerPair(pairs: seq<(EventId, Handler)>, ids: seq<DeliveryId>, now: Time,
                                         a: DeliveryId, b: DeliveryId)
    requires |ids| == |pairs| && Distinct(ids) && Distinct(pairs)
    requires var rows := DeliveryRows(pairs, ids, now); a in rows && b in rows && SamePair(rows[a], rows[b])
    ensures a == b
  {
    var i := RowOfPair(pairs, ids, now, a);
    var j := RowOfPair(pairs, ids, now, b);
    assert pairs[i] == pairs[j];
  }

  lemma {:induction false} RowsAreExact(toStore: seq<EventToStore>, ids: seq<DeliveryId>, now: Time)
    requires |ids| == |Pairs(toStore)| && Distinct(ids) && Distinct(Pairs(toStore))
    ensures var rows := DeliveryRows(Pairs(toStore), ids, now);
      && (forall id <- rows :: Wanted(toStore, rows[id].eventId, rows[id].handler)
                            && rows[id] == NewDelivery(rows[id].eventId, rows[id].handler, now))
      && (forall e, h | Wanted(toStore, e, h) :: exists id <- rows :: rows[id].eventId == e && rows[id].handler == h)
      && (forall a <- rows, b <- rows :: SamePair(rows[a], rows[b]) ==> a == b)
  {
    var pairs := Pairs(toStore);
    var rows := DeliveryRows(pairs, ids, now);
    forall id <- rows
      ensures Wanted(toStore, rows[id].eventId, rows[id].handler)
      ensures rows[id] == NewDelivery(rows[id].eventId, rows[id].handler, now)
    {
      RowsAreWanted(toStore, ids, now, id);
    }
    forall e, h | Wanted(toStore, e, h)
      ensures exists id <- rows :: rows[id].eventId == e && rows[id].handler == h
    {
      WantedHasRow(toStore, ids, now, e, h);
    }
    forall a <- rows, b <- rows | SamePair(rows[a], rows[b])
      ensures a == b
    {
      OneRowPerPair(pairs, ids, now, a, b);
    }
  }

  lemma {:induction false} TakingKeepsConstraints(db: Database, ids: set<DeliveryId>, now: Time)
    requires Constraints(db)
    ensures Constraints(Take(db, ids, now))
  {
  }

  lemma {:induction false} GivingUpKeepsConstraints(db: Database, now: Time)
    requires Constraints(db)
    ensures Constraints(GiveUp(db, now))
  {
  }

  predicate Distinct<T(==)>(s: seq<T>) {
    forall i, j | 0 <= i < j < |s| :: s[i] != s[j]
  }

  /** A finite non-empty set has a first element. */
  lemma {:induction false} HasFirst(ids: set<nat>, key: map<nat, Time>)
    requires ids != {} && ids <= key.Keys
    ensures exists first <- ids :: forall other <- ids - {first} :: Precedes(key, first, other)
  {
    var id :| id in ids;
    if ids == {id} {
      assert forall other <- ids - {id} :: Precedes(key, id, other);
    } else {
      HasFirst(ids - {id}, key);
      var first :| first in ids - {id} && forall other <- ids - {id} - {first} :: Precedes(key, first, other);
      var least := if Precedes(key, id, first) then id else first;
      forall other <- ids - {least}
        ensures Precedes(key, least, other)
      {
        if other != first && other != id {
          assert Precedes(key, first, other);
        }
      }
    }
  }

  /** Somebody may take the row: it is pending, seven attempts were made at most, and no lease of it runs. */
  ghost predicate IsFree(d: Delivery, now: Time) {
    d.status == Pending && d.attempts <= 7 && (d.lockedUntil == None || d.lockedUntil.value <= now)
  }

  /** One more attempt under a lease of five minutes, and nothing else. */
  ghost predicate IsLeased(before: Delivery, after: Delivery, now: Time) {
    && after.attempts == before.attempts + 1 && after.lockedUntil == Some(now + 5 * 60_000)
    && after == before.(attempts := after.attempts, lockedUntil := after.lockedUntil)
  }

  /** Its next attempt is earlier, or it has the lower identifier of two at one instant. */
  ghost predicate WaitedLonger(db: Database, a: DeliveryId, b: DeliveryId)
    requires a in db.deliveries && b in db.deliveries
  {
    var first, second := db.deliveries[a].nextAttemptAt, db.deliveries[b].nextAttemptAt;
    first < second || (first == second && a < b)
  }

  /** Whoever is taken is free and due and gets a lease, and who is not, though free and due, did not fit. */
  ghost predicate LeasesDue(before: Database, after: Database, now: Time, limit: nat, skipped: set<DeliveryId>,
                            taken: set<DeliveryId>) {
    && taken <= before.deliveries.Keys && after.deliveries.Keys == before.deliveries.Keys
    && (forall id <- taken ::
          && id !in skipped && IsFree(before.deliveries[id], now) && before.deliveries[id].nextAttemptAt <= now
          && IsLeased(before.deliveries[id], after.deliveries[id], now))
    && (forall id <- before.deliveries | id !in taken ::
          && after.deliveries[id] == before.deliveries[id]
          && (id !in skipped && IsFree(before.deliveries[id], now) && before.deliveries[id].nextAttemptAt <= now ==>
                |taken| == limit && forall a <- taken :: WaitedLonger(before, a, id)))
  }

  lemma {:induction false} TakenAreDue(db: Database, now: Time, limit: nat, skipped: set<DeliveryId>,
                                       taken: set<DeliveryId>)
    requires TakesDue(db, now, limit, skipped, taken)
    ensures LeasesDue(db, Take(db, taken, now), now, limit, skipped, taken)
  {
    var candidates := DueIds(db, now) - skipped;
    forall id <- db.deliveries
      | id !in taken && id !in skipped && IsFree(db.deliveries[id], now) && db.deliveries[id].nextAttemptAt <= now
      ensures |taken| == limit && forall a <- taken :: WaitedLonger(db, a, id)
    {
      assert id in candidates;
      SubsetIsSmaller(taken, candidates - {id});
      forall a <- taken ensures WaitedLonger(db, a, id) {
        assert Precedes(NextAttempts(db), a, id);
      }
    }
  }

  /** Pending without attempts and due at that instant, as the staff leaves a row. */
  ghost predicate IsReset(before: Delivery, after: Delivery, now: Time) {
    && after.status == Pending && after.attempts == 0 && after.nextAttemptAt == now && after.lockedUntil == None
    && SamePair(before, after) && after.deliveredAt == before.deliveredAt && after.lastError == before.lastError
  }

  function IdsOf(claimed: seq<ClaimedDelivery>): set<DeliveryId> {
    set i | 0 <= i < |claimed| :: claimed[i].id
  }

  /** The instant each claimed delivery's event happened. */
  function OccurredAt(db: Database): map<DeliveryId, Time>
    requires forall id <- db.deliveries :: db.deliveries[id].eventId in db.events
  {
    map id | id in db.deliveries :: db.events[db.deliveries[id].eventId].occurredAt
  }

  function ClaimedRow(db: Database, id: DeliveryId): ClaimedDelivery
    requires id in db.deliveries && db.deliveries[id].eventId in db.events
  {
    var d := db.deliveries[id];
    ClaimedDelivery(id, d.handler, d.attempts, db.events[d.eventId])
  }

  /** The tables of the outbox, and its statements: each runs atomically. */
  class EventOutbox {
    var db: Database

    constructor ()
      ensures db == Database(map[], map[])
    {
      db := Database(map[], map[]);
    }

    /** Stores the events that have handlers; `ids` are the new identifiers of their deliveries. */
    method Save(toStore: seq<EventToStore>, ids: seq<DeliveryId>, now: Time) returns (r: Result<(), OutboxError>)
      requires |ids| == |Pairs(toStore)| && Distinct(ids)
      requires forall i | 0 <= i < |ids| :: ids[i] !in db.deliveries
      modifies this
      ensures r.Ok? ==> Saved(old(db), db, toStore, now)
      ensures r.Err? ==> db == old(db) && r.error == UniqueViolation
      ensures r.Ok? <==> NewEvents(old(db), toStore) && Distinct(Pairs(toStore))
    {
      if !NewEvents(db, toStore) || !Distinct(Pairs(toStore)) {
        return Err(UniqueViolation);
      }
      db := Inserted(db, toStore, ids, now);
      InsertedIsSaved(old(db), toStore, ids, now);
      return Ok(());
    }

    /** Leases the one delivery of the pair, when it is pending, has attempts left and is free. */
    method Claim(event: EventId, handler: Handler, now: Time) returns (r: Option<(DeliveryId, nat)>)
      requires Constraints(db)
      modifies this
      ensures Constraints(db)
      ensures r.Some? ==>
        var d := old(db).deliveries;
        && r.value.0 in d && d[r.value.0].eventId == event && d[r.value.0].handler == handler
        && Claimable(d[r.value.0], now) && IsFree(d[r.value.0], now)
        && r.value.1 == d[r.value.0].attempts + 1
        && db == Take(old(db), {r.value.0}, now) && IsLeased(d[r.value.0], db.deliveries[r.value.0], now)
      ensures r.None? ==>
        && db == old(db)
        && forall id <- db.deliveries :: db.deliveries[id].eventId == event && db.deliveries[id].handler == handler
             ==> !IsFree(db.deliveries[id], now)
    {
      if exists id <- db.deliveries ::
          && db.deliveries[id].eventId == event && db.deliveries[id].handler == handler
          && Claimable(db.deliveries[id], now)
      {
        var id :| id in db.deliveries && db.deliveries[id].eventId == event && db.deliveries[id].handler == handler
                  && Claimable(db.deliveries[id], now);
        TakingKeepsConstraints(db, {id}, now);
        db := Take(db, {id}, now);
        return Some((id, db.deliveries[id].attempts));
      }
      return None;
    }

    /** Takes up to `limit` due deliveries, and answers them oldest event first. */
    method ClaimDue(now: Time, limit: nat, skipped: set<DeliveryId>) returns (claimed: seq<ClaimedDelivery>)
      requires Constraints(db)
      modifies this
      ensures Constraints(db)
      ensures TakesDue(old(db), now, limit, skipped, IdsOf(claimed))
      ensures db == Take(old(db), IdsOf(claimed), now)
      ensures LeasesDue(old(db), db, now, limit, skipped, IdsOf(claimed))
      ensures forall i | 0 <= i < |claimed| ::
                claimed[i].id in db.deliveries && claimed[i] == ClaimedRow(db, claimed[i].id)
      ensures forall i, j | 0 <= i < j < |claimed| :: Precedes(OccurredAt(db), claimed[i].id, claimed[j].id)
      ensures forall i, j | 0 <= i < j < |claimed| ::
                || claimed[i].event.occurredAt < claimed[j].event.occurredAt
                || (claimed[i].event.occurredAt == claimed[j].event.occurredAt && claimed[i].id < claimed[j].id)
    {
      var taken := FirstDue(DueIds(db, now) - skipped, NextAttempts(db), limit);
      TakenAreDue(db, now, limit, skipped, taken);
      TakingKeepsConstraints(db, taken, now);
      db := Take(db, taken, now);
      claimed := SortedClaims(db, taken);
    }

    static method First(ids: set<DeliveryId>, key: map<DeliveryId, Time>) returns (first: DeliveryId)
      requires ids != {} && ids <= key.Keys
      ensures first in ids && forall other <- ids - {first} :: Precedes(key, first, other)
    {
      HasFirst(ids, key);
      first :| first in ids && forall other <- ids - {first} :: Precedes(key, first, other);
    }

    /** The first ones by next attempt, up to `limit`. */
    static method FirstDue(candidates: set<DeliveryId>, waiting: map<DeliveryId, Time>, limit: nat)
      returns (taken: set<DeliveryId>)
      requires candidates <= waiting.Keys
      ensures taken <= candidates && |taken| == (if |candidates| <= limit then |candidates| else limit)
      ensures forall a <- taken, b <- candidates - taken :: Precedes(waiting, a, b)
    {
      var rest := candidates;
      taken := {};
      while |taken| < limit && rest != {}
        invariant taken + rest == candidates && taken !! rest && |taken| <= limit
        invariant forall a <- taken, b <- rest :: Precedes(waiting, a, b)
        decreases rest
      {
        var first := First(rest, waiting);
        taken, rest := taken + {first}, rest - {first};
      }
      assert candidates - taken == rest;
      SubsetIsSmaller(taken, candidates);
      assert |candidates| == |taken| + |rest|;
    }

    static lemma {:induction false} IdsOfMore(claimed: seq<ClaimedDelivery>, next: ClaimedDelivery)
      ensures IdsOf(claimed + [next]) == IdsOf(claimed) + {next.id}
    {
      assert (claimed + [next])[|claimed|].id == next.id;
      forall i | 0 <= i < |claimed| ensures claimed[i].id in IdsOf(claimed + [next]) {
        assert (claimed + [next])[i] == claimed[i];
      }
    }

    /** Rows as they are answered, oldest event first, and before those left. */
    static ghost predicate ClaimedFirst(db: Database, taken: set<DeliveryId>, claimed: seq<ClaimedDelivery>,
                                        left: set<DeliveryId>)
      requires Constraints(db)
    {
      && left <= taken && IdsOf(claimed) == taken - left
      && (forall i | 0 <= i < |claimed| ::
            claimed[i].id in db.deliveries && claimed[i] == ClaimedRow(db, claimed[i].id))
      && (forall i, j | 0 <= i < j < |claimed| :: Precedes(OccurredAt(db), claimed[i].id, claimed[j].id))
      && (forall i | 0 <= i < |claimed| :: forall b <- left :: Precedes(OccurredAt(db), claimed[i].id, b))
    }

    static lemma {:induction false} OneMoreClaimed(
      db: Database, taken: set<DeliveryId>, claimed: seq<ClaimedDelivery>, left: set<DeliveryId>, first: DeliveryId,
      row: ClaimedDelivery)
      requires Constraints(db) && ClaimedFirst(db, taken, claimed, left)
      requires first in left && first in db.deliveries && row == ClaimedRow(db, first)
      requires forall other <- left - {first} :: Precedes(OccurredAt(db), first, other)
      ensures ClaimedFirst(db, taken, claimed + [row], left - {first})
    {
      IdsOfMore(claimed, row);
    }

    /** The taken rows as `claimDue` answers them. */
    static method SortedClaims(db: Database, taken: set<DeliveryId>) returns (claimed: seq<ClaimedDelivery>)
      requires Constraints(db) && taken <= db.deliveries.Keys
      ensures IdsOf(claimed) == taken
      ensures forall i | 0 <= i < |claimed| ::
                claimed[i].id in db.deliveries && claimed[i] == ClaimedRow(db, claimed[i].id)
      ensures forall i, j | 0 <= i < j < |claimed| :: Precedes(OccurredAt(db), claimed[i].id, claimed[j].id)
    {
      claimed := [];
      var left := taken;
      while left != {}
        invariant ClaimedFirst(db, taken, claimed, left)
        decreases left
      {
        var first := First(left, OccurredAt(db));
        OneMoreClaimed(db, taken, claimed, left, first, ClaimedRow(db, first));
        claimed := claimed + [ClaimedRow(db, first)];
        left := left - {first};
      }
    }

    method MarkDelivered(id: DeliveryId, now: Time) returns (r: Result<(), OutboxError>)
      modifies this
      ensures r.Ok? <==> id in old(db).deliveries
      ensures r.Ok? ==> db == Rewrite(old(db), id, Settled(old(db).deliveries[id], now))
      ensures r.Ok? ==>
        var d := db.deliveries[id];
        d.status == Delivered && d.deliveredAt == Some(now) && d.lockedUntil == None && d.lastError == None
      ensures r.Err? ==> db == old(db) && r.error == NotFound
    {
      if id !in db.deliveries {
        return Err(NotFound);
      }
      db := Rewrite(db, id, Settled(db.deliveries[id], now));
      return Ok(());
    }

    /** Records a failed attempt, and answers when it is retried, or `None` when it failed for good. */
    method MarkFailedAttempt(id: DeliveryId, attempts: nat, now: Time, error: string)
      returns (r: Result<Option<Time>, OutboxError>)
      modifies this
      ensures r.Ok? <==> id in old(db).deliveries
      ensures r.Ok? ==> db == Rewrite(old(db), id, AfterFailure(old(db).deliveries[id], attempts, now, error))
      ensures r.Ok? && r.value.Some? ==>
        db.deliveries[id].nextAttemptAt == r.value.value > now
        && db.deliveries[id].status == old(db).deliveries[id].status
      ensures r.Ok? && r.value.None? ==> db.deliveries[id].status == Failed
      ensures r.Ok? ==> db.deliveries[id].lockedUntil == None && db.deliveries[id].lastError == Some(error)
      ensures r.Err? ==> db == old(db) && r.error == NotFound
    {
      if id !in db.deliveries {
        return Err(NotFound);
      }
      db := Rewrite(db, id, AfterFailure(db.deliveries[id], attempts, now, error));
      return Ok(NextAttemptAt(attempts, now));
    }

    /** Gives up the pending rows without attempts left whose lease is over. */
    method FailAbandoned(now: Time) returns (count: nat)
      modifies this
      ensures db == GiveUp(old(db), now)
      ensures count == |AbandonedIds(old(db), now)|
      ensures AbandonedIds(db, now) == {}
      ensures forall id <- db.deliveries ::
                var d := db.deliveries[id];
                d.status == Pending && d.attempts >= 8 ==> d.lockedUntil == None || d.lockedUntil.value > now
      ensures forall id <- db.deliveries | db.deliveries[id] != old(db).deliveries[id] ::
                var d := old(db).deliveries[id];
                && d.status == Pending && d.attempts >= 8 && d.lockedUntil.Some? && d.lockedUntil.value <= now
                && db.deliveries[id].status == Failed && db.deliveries[id].lockedUntil == None
    {
      count := |AbandonedIds(db, now)|;
      db := GiveUp(db, now);
    }

    /** The staff retries one failed delivery. */
    method Retry(id: DeliveryId, now: Time) returns (r: Result<(), OutboxError>)
      modifies this
      ensures r.Ok? <==> id in old(db).deliveries && old(db).deliveries[id].status == Failed
      ensures r.Ok? ==> db == Reset(old(db), {id}, now) && IsReset(old(db).deliveries[id], db.deliveries[id], now)
      ensures r.Err? ==> db == old(db)
      ensures r.Err? && id !in db.deliveries ==> r.error == NotFound
      ensures r.Err? && id in db.deliveries ==> r.error == InvalidTransition(db.deliveries[id].status)
    {
      if id in db.deliveries && db.deliveries[id].status == Failed {
        db := Reset(db, {id}, now);
        return Ok(());
      }
      return Err(if id !in db.deliveries then NotFound else InvalidTransition(db.deliveries[id].status));
    }

    /** The staff resets the failed deliveries that a filter by event type and handler leaves; without a filter, all. */
    method RetryAll(eventType: Option<string>, handler: Option<Handler>, now: Time) returns (count: nat)
      requires Constraints(db)
      modifies this
      ensures Constraints(db)
      ensures var ids := set id | id in old(db).deliveries && Matches(old(db), id, eventType, handler);
              db == Reset(old(db), ids, now) && count == |ids|
      ensures forall id <- old(db).deliveries ::
                var d := old(db).deliveries[id];
                if d.status == Failed
                   && (eventType == None || eventType == Some(old(db).events[d.eventId].eventType))
                   && (handler == None || handler == Some(d.handler))
                then IsReset(d, db.deliveries[id], now) else db.deliveries[id] == d
    {
      var ids := set id | id in db.deliveries && Matches(db, id, eventType, handler);
      db := Reset(db, ids, now);
      count := |ids|;
    }

    static predicate Matches(db: Database, id: DeliveryId, eventType: Option<string>, handler: Option<Handler>)
      requires id in db.deliveries && db.deliveries[id].eventId in db.events
    {
      var d := db.deliveries[id];
      && d.status == Failed
      && (eventType.Some? ==> db.events[d.eventId].eventType == eventType.value)
      && (handler.Some? ==> d.handler == handler.value)
    }

    /** One statement of the cleanup: deletes up to `limit` removable events. */
    method DeleteBatch(cutoff: Time, limit: nat) returns (count: nat, ghost deleted: set<EventId>)
      requires Constraints(db)
      modifies this
      ensures Constraints(db)
      ensures deleted <= old(db).events.Keys && |deleted| == count <= limit
      ensures forall e <- deleted :: Removable(old(db), e, cutoff)
      ensures db == Delete(old(db), deleted)
      ensures count < limit ==> forall e <- db.events :: !Removable(db, e, cutoff)
    {
      var rest := set e | e in db.events && Removable(db, e, cutoff);
      ghost var all := rest;
      var batch := {};
      while |batch| < limit && rest != {}
        invariant batch + rest == all && batch !! rest && |batch| <= limit
        decreases rest
      {
        var e :| e in rest;
        batch, rest := batch + {e}, rest - {e};
      }
      ghost var before := db;
      db := Delete(db, batch);
      forall e <- db.events
        ensures Removable(db, e, cutoff) <==> Removable(before, e, cutoff)
      {
        DeletingKeepsTheRest(before, batch, e, cutoff);
      }
      count, deleted := |batch|, batch;
    }

    /**
     * The cleanup of the events delivered longer ago than the retention: batch after batch, until one comes back short
     * or `maxBatches` were made.
     */
    method Cleanup(now: Time, days: nat, batchSize: nat, maxBatches: nat) returns (deleted: nat)
      requires Constraints(db)
      modifies this
      ensures Constraints(db)
      ensures db == Delete(old(db), old(db).events.Keys - db.events.Keys)
      ensures deleted == |old(db).events.Keys - db.events.Keys| <= batchSize * maxBatches
      ensures forall e <- old(db).events.Keys - db.events.Keys :: Removable(old(db), e, DaysBefore(now, days))
      ensures deleted < batchSize * maxBatches ==> forall e <- db.events :: !Removable(db, e, DaysBefore(now, days))
    {
      var cutoff := DaysBefore(now, days);
      deleted := 0;
      var batch := 0;
      ghost var start := db;
      ghost var gone: set<EventId> := {};
      assert start == Delete(start, {});
      while batch < maxBatches
        invariant 0 <= batch <= maxBatches && Constraints(db)
        invariant gone <= start.events.Keys && |gone| == deleted
        invariant deleted == batchSize * batch
        invariant db == Delete(start, gone)
        invariant forall e <- gone :: Removable(start, e, cutoff)
      {
        var count, removed := DeleteBatch(cutoff, batchSize);
        DeletingAgain(start, gone, removed, cutoff);
        MultiplyIsMonotone(batchSize, batch + 1, maxBatches);
        deleted := deleted + count;
        gone := gone + removed;
        batch := batch + 1;
        if count < batchSize {
          DeletedExactly(start, gone);
          return;
        }
      }
      DeletedExactly(start, gone);
    }
  }

  lemma {:induction false} DeletingAgain(db: Database, gone: set<EventId>, removed: set<EventId>, cutoff: Time)
    requires removed <= Delete(db, gone).events.Keys
    requires forall e <- removed :: Removable(Delete(db, gone), e, cutoff)
    ensures gone !! removed && |gone + removed| == |gone| + |removed|
    ensures Delete(Delete(db, gone), removed) == Delete(db, gone + removed)
    ensures forall e <- removed :: Removable(db, e, cutoff)
  {
    forall e <- removed
      ensures Removable(db, e, cutoff)
    {
      DeletingKeepsTheRest(db, gone, e, cutoff);
    }
  }

  lemma {:induction false} MultiplyIsMonotone(a: nat, b: nat, c: nat)
    requires 0 < b <= c
    ensures a * (b - 1) + a == a * b <= a * c
  {
    assert a * c == a * b + a * (c - b);
  }

  lemma {:induction false} DeletedExactly(db: Database, gone: set<EventId>)
    requires gone <= db.events.Keys
    ensures db.events.Keys - Delete(db, gone).events.Keys == gone
  {
  }

  /** Deleting other events does not change whether an event may be deleted. */
  lemma {:induction false} DeletingKeepsTheRest(db: Database, gone: set<EventId>, e: EventId, cutoff: Time)
    requires e !in gone
    ensures Removable(Delete(db, gone), e, cutoff) <==> Removable(db, e, cutoff)
  {
    var after := Delete(db, gone);
    forall id <- db.deliveries | db.deliveries[id].eventId == e
      ensures id in after.deliveries && after.deliveries[id] == db.deliveries[id]
    {
    }
  }
}
