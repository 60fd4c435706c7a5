/**
 * The delivery protocol: instances of the application take deliveries, run handlers and settle what they took, while
 * the retry job, the staff and the cleanup work on the same tables. Every step is one atomic statement or one event
 * outside the database (a handler ends, a process dies, time passes), and a run is any interleaving of steps.
 *
 * A statement may carry an instant `t` read from the clock some time before it ran. `MarkDelivered` and
 * `MarkFailedAttempt` update by id only, so the protocol is safe under one hypothesis: a holder settles strictly
 * before its lease ends, or never. `LateSettlements` says exactly when a settlement without it breaks something.
 */
module DeliveryProtocol {
  import opened Wrappers
  import opened EventRetries
  import opened EventOutbox

  /** What the handler run of a holder did so far. */
  datatype Phase = Running | Returned | Threw

  /** Who took a delivery, and for which attempt: the `number`-th claim of the run. */
  datatype Token = Token(id: DeliveryId, number: nat)

  datatype Holder = Holder(attempts: nat, until: Time, phase: Phase)

  /**
   * The tables, the handlers of each event type in the version deployed, the clock and the holders, with three records
   * of the past: the handlers each stored event was saved with, the handler runs that ended well, and when
   * `failAbandoned` and `claimDue` last looked.
   */
  datatype System = System(
    db: Database,
    registry: Registry,
    clock: Time,
    holders: map<Token, Holder>,
    claims: nat,
    wanted: map<EventId, set<Handler>>,
    completed: set<(EventId, Handler)>,
    lastFail: Time,
    lastClaim: Time)

  datatype Step =
    | Tick(to: Time)
    | Deploy(registry: Registry)
    | Save(toStore: seq<EventToStore>, t: Time)
    | Claim(id: DeliveryId, t: Time)
    | ClaimDue(limit: nat, skipped: set<DeliveryId>, taken: set<DeliveryId>, t: Time)
    | HandlerReturns(token: Token)
    | HandlerThrows(token: Token)
    | MarkDelivered(token: Token, t: Time)
    | MarkFailed(token: Token, t: Time, error: string)
    | RejectUnregistered(token: Token, t: Time, error: string)
    | Die(token: Token)
    | FailAbandoned(t: Time)
    | Retry(ids: set<DeliveryId>, t: Time)
    | Cleanup(t: Time, days: nat, events: set<EventId>)

  function Max(a: Time, b: Time): Time { if a > b then a else b }

  ghost predicate Start(s: System) {
    && s.db == Database(map[], map[]) && s.holders == map[] && s.wanted == map[] && s.completed == {}
    && s.lastFail <= s.clock && s.lastClaim <= s.clock
  }

  function HandlersOf(toStore: seq<EventToStore>, event: EventId): set<Handler> {
    set i, h | 0 <= i < |toStore| && toStore[i].event.id == event && h in toStore[i].handlers :: h
  }

  /** The handlers of the stored events, past and present. */
  function Wanting(wanted: map<EventId, set<Handler>>, toStore: seq<EventToStore>): map<EventId, set<Handler>> {
    map e | e in wanted.Keys + HandledIds(toStore) :: if e in wanted then wanted[e] else HandlersOf(toStore, e)
  }

  /** Someone takes `ids`: one more attempt of each, under a lease of its own. */
  function Taking(s: System, ids: set<DeliveryId>, t: Time): System
    requires ids <= s.db.deliveries.Keys
  {
    s.(db := Take(s.db, ids, t),
       claims := s.claims + 1,
       holders := map k | k in s.holders.Keys + (set id | id in ids :: Token(id, s.claims)) ::
         if k in s.holders then s.holders[k]
         else Holder(s.db.deliveries[k.id].attempts + 1, t + DELIVERY_LEASE, Running))
  }

  function Ending(s: System, token: Token, phase: Phase): System
    requires token in s.holders
  {
    s.(holders := s.holders[token := s.holders[token].(phase := phase)])
  }

  /** The handler run that a holder of the delivery completes. */
  function Completing(s: System, id: DeliveryId): set<(EventId, Handler)> {
    if id in s.db.deliveries then {(s.db.deliveries[id].eventId, s.db.deliveries[id].handler)} else {}
  }

  /** The holder writes the row of its delivery, and holds it no longer. */
  function Settling(s: System, token: Token, row: Delivery): System {
    s.(db := Rewrite(s.db, token.id, row), holders := s.holders - {token})
  }

  /** Each event goes to the handlers registered for its type. */
  ghost predicate ForRegistered(registry: Registry, toStore: seq<EventToStore>) {
    forall i | 0 <= i < |toStore| :: toStore[i].handlers == HandlersFor(registry, toStore[i].event.eventType)
  }

  ghost predicate Enabled(s: System, step: Step) {
    match step
    case Tick(to) => s.clock <= to
    case Deploy(_) => true
    case Save(toStore, t) =>
      // Event identifiers are new: no stored event, past or present, has them.
      t <= s.clock && HandledIds(toStore) !! s.wanted.Keys && ForRegistered(s.registry, toStore)
    case Claim(id, t) => t <= s.clock && id in s.db.deliveries && Claimable(s.db.deliveries[id], t)
    case ClaimDue(limit, skipped, taken, t) => t <= s.clock && TakesDue(s.db, t, limit, skipped, taken)
    case HandlerReturns(token) => token in s.holders && s.holders[token].phase == Running
    case HandlerThrows(token) => token in s.holders && s.holders[token].phase == Running
    case MarkDelivered(token, t) => t <= s.clock && InTime(s, token) && s.holders[token].phase == Returned
    case MarkFailed(token, t, _) => t <= s.clock && InTime(s, token) && s.holders[token].phase == Threw
    case RejectUnregistered(token, t, _) => t <= s.clock && InTime(s, token) && s.holders[token].phase == Running
    case Die(token) => token in s.holders
    case FailAbandoned(t) => t <= s.clock
    case Retry(ids, t) =>
      t <= s.clock && ids <= s.db.deliveries.Keys && (forall id <- ids :: s.db.deliveries[id].status == Failed)
    case Cleanup(t, days, events) =>
      t <= s.clock && events <= s.db.events.Keys && (forall e <- events :: Removable(s.db, e, DaysBefore(t, days)))
  }

  /** The hypothesis on settlements: the lease of the holder has not ended, and its row is still there. */
  ghost predicate InTime(s: System, token: Token) {
    token in s.holders && s.clock < s.holders[token].until && token.id in s.db.deliveries
  }

  /** Identifiers of new deliveries are new: nobody holds one. */
  ghost predicate NewToHolders(s: System, after: Database) {
    forall k <- s.holders :: k.id in after.deliveries ==> k.id in s.db.deliveries
  }

  ghost predicate Next(s: System, step: Step, s': System) {
    && Enabled(s, step)
    && match step
       case Tick(to) => s' == s.(clock := to)
       case Deploy(registry) => s' == s.(registry := registry)
       case Save(toStore, t) =>
         && Saved(s.db, s'.db, toStore, t) && NewToHolders(s, s'.db)
         && s' == s.(db := s'.db, wanted := Wanting(s.wanted, toStore))
       case Claim(id, t) => s' == Taking(s, {id}, t)
       case ClaimDue(_, _, taken, t) => s' == Taking(s, taken, t).(lastClaim := Max(s.lastClaim, t))
       case HandlerReturns(token) =>
         s' == Ending(s, token, Returned).(completed := s.completed + Completing(s, token.id))
       case HandlerThrows(token) => s' == Ending(s, token, Threw)
       case MarkDelivered(token, t) => s' == Settling(s, token, Settled(s.db.deliveries[token.id], t))
       case MarkFailed(token, t, error) =>
         s' == Settling(s, token, AfterFailure(s.db.deliveries[token.id], s.holders[token].attempts, t, error))
       case RejectUnregistered(token, t, error) =>
         s' == Settling(s, token, AfterFailure(s.db.deliveries[token.id], MAX_DELIVERY_ATTEMPTS, t, error))
       case Die(token) => s' == s.(holders := s.holders - {token})
       case FailAbandoned(t) => s' == s.(db := GiveUp(s.db, t), lastFail := Max(s.lastFail, t))
       case Retry(ids, t) => s' == s.(db := Reset(s.db, ids, t))
       case Cleanup(_, _, events) => s' == s.(db := Delete(s.db, events))
  }

  // ---- The invariant ----

  /** The holder may still settle. */
  ghost predicate Live(s: System, token: Token) {
    token in s.holders && s.clock < s.holders[token].until
  }

  ghost predicate RowOk(d: Delivery) {
    && d.attempts <= MAX_DELIVERY_ATTEMPTS
    && (d.status == Pending && d.attempts == MAX_DELIVERY_ATTEMPTS ==> d.lockedUntil.Some?)
    && (d.status != Pending ==> d.lockedUntil.None?)
    && (d.status == Delivered ==> d.deliveredAt.Some?)
  }

  /** A live holder still has the lock it took, for the attempt it counted. */
  ghost predicate Holds(s: System, token: Token) {
    && token in s.holders && token.id in s.db.deliveries
    && var d := s.db.deliveries[token.id];
       && d.status == Pending
       && d.lockedUntil == Some(s.holders[token].until)
       && d.attempts == s.holders[token].attempts
  }

  ghost predicate OneHolder(s: System) {
    && (forall k <- s.holders :: k.number < s.claims)
    && (forall k <- s.holders :: Live(s, k) ==> Holds(s, k))
    && (forall a <- s.holders, b <- s.holders :: Live(s, a) && Live(s, b) && a.id == b.id ==> a == b)
  }

  ghost predicate Ran(s: System, id: DeliveryId)
    requires id in s.db.deliveries
  {
    (s.db.deliveries[id].eventId, s.db.deliveries[id].handler) in s.completed
  }

  /** A delivered row, and a holder whose handler returned, come after a completed run of the handler. */
  ghost predicate RunsAreRecorded(s: System) {
    && (forall id <- s.db.deliveries :: s.db.deliveries[id].status == Delivered ==> Ran(s, id))
    && (forall k <- s.holders :: s.holders[k].phase == Returned && k.id in s.db.deliveries ==> Ran(s, k.id))
  }

  ghost predicate HasRow(db: Database, e: EventId, h: Handler) {
    exists id <- db.deliveries :: db.deliveries[id].eventId == e && db.deliveries[id].handler == h
  }

  /** Each stored event has its deliveries, and an event left only once every handler ran. */
  ghost predicate NothingLost(s: System) {
    && s.db.events.Keys <= s.wanted.Keys
    && (forall id <- s.db.deliveries ::
          var d := s.db.deliveries[id];
          d.eventId in s.wanted && d.handler in s.wanted[d.eventId])
    && (forall e <- s.wanted, h <- s.wanted[e] ::
          if e in s.db.events then HasRow(s.db, e, h) else (e, h) in s.completed)
  }

  ghost predicate Inv(s: System) {
    && Constraints(s.db)
    && (forall id <- s.db.deliveries :: RowOk(s.db.deliveries[id]))
    && OneHolder(s)
    && RunsAreRecorded(s)
    && NothingLost(s)
    && s.lastFail <= s.clock && s.lastClaim <= s.clock
  }

  // ---- Every step keeps it ----

  lemma {:induction false} StartIsSafe(s: System)
    requires Start(s)
    ensures Inv(s)
  {
  }

  /** The same events and deliveries, whatever the state of each delivery. */
  ghost predicate SameRows(before: Database, after: Database) {
    && after.events == before.events
    && after.deliveries.Keys == before.deliveries.Keys
    && (forall i <- before.deliveries :: SamePair(before.deliveries[i], after.deliveries[i]))
  }

  lemma {:induction false} SameRowsKeepTables(before: Database, after: Database)
    requires Constraints(before) && SameRows(before, after)
    ensures Constraints(after)
  {
    forall a <- after.deliveries, b <- after.deliveries | SamePair(after.deliveries[a], after.deliveries[b])
      ensures a == b
    {
      assert SamePair(before.deliveries[a], before.deliveries[b]);
    }
  }

  lemma {:induction false} SameRowsLoseNothing(s: System, s': System)
    requires NothingLost(s) && SameRows(s.db, s'.db) && s'.wanted == s.wanted && s'.completed >= s.completed
    ensures NothingLost(s')
  {
    forall e <- s.wanted, h <- s.wanted[e] | e in s.db.events
      ensures HasRow(s'.db, e, h)
    {
      var i :| i in s.db.deliveries && s.db.deliveries[i].eventId == e && s.db.deliveries[i].handler == h;
      assert s'.db.deliveries[i].eventId == e;
    }
  }

  lemma {:induction false} TakingKeepsHolders(s: System, ids: set<DeliveryId>, t: Time)
    requires OneHolder(s) && t <= s.clock && ids <= s.db.deliveries.Keys
    requires forall id <- ids :: Claimable(s.db.deliveries[id], t)
    ensures OneHolder(Taking(s, ids, t))
  {
    var s' := Taking(s, ids, t);
    forall k <- s'.holders | Live(s', k)
      ensures Holds(s', k) && (k in s.holders <==> k.id !in ids)
    {
      if k in s.holders {
        assert Live(s, k) && Holds(s, k);
      }
    }
    forall a <- s'.holders, b <- s'.holders | Live(s', a) && Live(s', b) && a.id == b.id
      ensures a == b
    {
      if a in s.holders {
        assert Live(s, a) && Live(s, b);
      }
    }
  }

  /** Runs stay recorded when rows that become delivered ran, and no holder that returned is new. */
  lemma {:induction false} RunsStayRecorded(s: System, s': System)
    requires RunsAreRecorded(s) && SameRows(s.db, s'.db) && s'.completed >= s.completed && s'.clock == s.clock
    requires forall id <- s.db.deliveries ::
               s'.db.deliveries[id].status == Delivered && s.db.deliveries[id].status != Delivered ==> Ran(s', id)
    requires forall k <- s'.holders :: s'.holders[k].phase == Returned ==>
               (k in s.holders && s.holders[k] == s'.holders[k]) || (k.id in s'.db.deliveries && Ran(s', k.id))
    ensures RunsAreRecorded(s')
  {
  }

  lemma {:induction false} TakingIsSafe(s: System, ids: set<DeliveryId>, t: Time)
    requires Inv(s) && t <= s.clock && ids <= s.db.deliveries.Keys
    requires forall id <- ids :: Claimable(s.db.deliveries[id], t)
    ensures Inv(Taking(s, ids, t))
  {
    TakenIsSafe(s, ids, t, Taking(s, ids, t));
  }

  lemma {:induction false} TakenRowsAreOk(db: Database, after: Database, ids: set<DeliveryId>, t: Time)
    requires ids <= db.deliveries.Keys && after == Take(db, ids, t)
    requires forall id <- ids :: Claimable(db.deliveries[id], t)
    requires forall id <- db.deliveries :: RowOk(db.deliveries[id])
    ensures SameRows(db, after) && forall id <- after.deliveries :: RowOk(after.deliveries[id])
    ensures forall id <- after.deliveries :: after.deliveries[id].status == Delivered ==>
            db.deliveries[id].status == Delivered
  {
  }

  lemma {:induction false} TakenIsSafe(s: System, ids: set<DeliveryId>, t: Time, s': System)
    requires Inv(s) && t <= s.clock && ids <= s.db.deliveries.Keys
    requires forall id <- ids :: Claimable(s.db.deliveries[id], t)
    requires s' == Taking(s, ids, t)
    ensures Inv(s')
  {
    TakenRowsAreOk(s.db, s'.db, ids, t);
    SameRowsKeepTables(s.db, s'.db);
    SameRowsLoseNothing(s, s');
    TakingKeepsHolders(s, ids, t);
    RunsStayRecorded(s, s');
  }

  /** Without the holder that settles, whoever is left holds another delivery. */
  lemma {:induction false} SettlingKeepsHolders(s: System, token: Token, row: Delivery)
    requires OneHolder(s) && token.id in s.db.deliveries
    requires forall k <- s.holders | Live(s, k) && k.id == token.id :: k == token
    ensures OneHolder(Settling(s, token, row))
  {
    var s' := Settling(s, token, row);
    forall k <- s'.holders | Live(s', k)
      ensures k.id != token.id && Holds(s', k)
    {
      assert Live(s, k) && Holds(s, k);
    }
    forall a <- s'.holders, b <- s'.holders | Live(s', a) && Live(s', b) && a.id == b.id
      ensures a == b
    {
      assert Live(s, a) && Live(s, b);
    }
  }

  lemma {:induction false} SettlingIsSafe(s: System, token: Token, row: Delivery)
    requires Inv(s) && token.id in s.db.deliveries
    requires forall k <- s.holders | Live(s, k) && k.id == token.id :: k == token
    requires SamePair(row, s.db.deliveries[token.id]) && RowOk(row)
    requires row.status == Delivered ==> Ran(s, token.id)
    ensures Inv(Settling(s, token, row))
  {
    var s' := Settling(s, token, row);
    assert SameRows(s.db, s'.db);
    SameRowsKeepTables(s.db, s'.db);
    SameRowsLoseNothing(s, s');
    SettlingKeepsHolders(s, token, row);
    RunsStayRecorded(s, s');
  }

  /** A statement that changes only rows nobody holds keeps every holder. */
  lemma {:induction false} IdleRowsAreFree(s: System, s': System)
    requires OneHolder(s) && s'.holders == s.holders && s'.claims == s.claims && s'.clock == s.clock
    requires forall id <- s.db.deliveries :: id !in s'.db.deliveries || s'.db.deliveries[id] != s.db.deliveries[id] ==>
               s.db.deliveries[id].status != Pending || Free(s.db.deliveries[id], s.clock)
    ensures OneHolder(s')
  {
    forall k <- s'.holders | Live(s', k)
      ensures Holds(s', k)
    {
      assert Live(s, k) && Holds(s, k);
    }
    forall a <- s'.holders, b <- s'.holders | Live(s', a) && Live(s', b) && a.id == b.id
      ensures a == b
    {
      assert Live(s, a) && Live(s, b);
    }
  }

  /** The rows after a save: as they were, or new and pending. */
  lemma {:induction false} SavedRows(before: Database, after: Database, toStore: seq<EventToStore>, t: Time,
                                     id: DeliveryId)
    requires Saved(before, after, toStore, t) && id in after.deliveries
    ensures if id in before.deliveries then after.deliveries[id] == before.deliveries[id]
            else
              var d := after.deliveries[id];
              && d == NewDelivery(d.eventId, d.handler, t) && Wanted(toStore, d.eventId, d.handler)
              && d.eventId in HandledIds(toStore) && d.handler in HandlersOf(toStore, d.eventId)
  {
    if id !in before.deliveries {
      var d := after.deliveries[id];
      var i :| 0 <= i < |toStore| && toStore[i].event.id == d.eventId && d.handler in toStore[i].handlers;
    }
  }

  lemma {:induction false} SavingLosesNothing(s: System, toStore: seq<EventToStore>, t: Time, s': System)
    requires NothingLost(s) && HandledIds(toStore) !! s.wanted.Keys && Saved(s.db, s'.db, toStore, t)
    requires s' == s.(db := s'.db, wanted := Wanting(s.wanted, toStore))
    ensures NothingLost(s')
  {
    forall id <- s'.db.deliveries
      ensures var d := s'.db.deliveries[id]; d.eventId in s'.wanted && d.handler in s'.wanted[d.eventId]
    {
      SavedRows(s.db, s'.db, toStore, t, id);
    }
    forall e <- s'.wanted, h <- s'.wanted[e]
      ensures if e in s'.db.events then HasRow(s'.db, e, h) else (e, h) in s'.completed
    {
      if e in s.wanted {
        assert e !in HandledIds(toStore);
        if e in s.db.events {
          var id :| id in s.db.deliveries && s.db.deliveries[id].eventId == e && s.db.deliveries[id].handler == h;
          assert s'.db.deliveries[id].eventId == e;
        }
      } else {
        assert Wanted(toStore, e, h);
      }
    }
  }

  lemma {:induction false} SavingIsSafe(s: System, toStore: seq<EventToStore>, t: Time, s': System)
    requires Inv(s) && HandledIds(toStore) !! s.wanted.Keys && Saved(s.db, s'.db, toStore, t) && NewToHolders(s, s'.db)
    requires s' == s.(db := s'.db, wanted := Wanting(s.wanted, toStore))
    ensures Inv(s')
  {
    SavingKeepsConstraints(s.db, s'.db, toStore, t);
    SavingLosesNothing(s, toStore, t, s');
    IdleRowsAreFree(s, s');
    forall id <- s'.db.deliveries
      ensures RowOk(s'.db.deliveries[id]) && (s'.db.deliveries[id].status == Delivered ==> Ran(s', id))
    {
      SavedRows(s.db, s'.db, toStore, t, id);
    }
  }

  lemma {:induction false} GivingUpRows(db: Database, t: Time)
    requires forall id <- db.deliveries :: RowOk(db.deliveries[id])
    ensures SameRows(db, GiveUp(db, t))
    ensures forall id <- db.deliveries :: RowOk(GiveUp(db, t).deliveries[id])
    ensures forall id <- db.deliveries :: GiveUp(db, t).deliveries[id] != db.deliveries[id] ==>
              Free(db.deliveries[id], t) && GiveUp(db, t).deliveries[id].status == Failed
  {
  }

  lemma {:induction false} GivingUpIsSafe(s: System, t: Time, s': System)
    requires Inv(s) && t <= s.clock && s' == s.(db := GiveUp(s.db, t), lastFail := Max(s.lastFail, t))
    ensures Inv(s')
  {
    GivingUpRows(s.db, t);
    SameRowsKeepTables(s.db, s'.db);
    SameRowsLoseNothing(s, s');
    IdleRowsAreFree(s, s');
    RunsStayRecorded(s, s');
  }

  lemma {:induction false} ResettingRows(db: Database, ids: set<DeliveryId>, t: Time)
    requires forall id <- db.deliveries :: RowOk(db.deliveries[id])
    requires forall id <- ids :: id in db.deliveries && db.deliveries[id].status == Failed
    ensures SameRows(db, Reset(db, ids, t))
    ensures forall id <- db.deliveries :: RowOk(Reset(db, ids, t).deliveries[id])
    ensures forall id <- db.deliveries :: Reset(db, ids, t).deliveries[id] != db.deliveries[id] ==>
              db.deliveries[id].status == Failed && Reset(db, ids, t).deliveries[id].status == Pending
  {
  }

  lemma {:induction false} ResettingIsSafe(s: System, ids: set<DeliveryId>, t: Time, s': System)
    requires Inv(s) && t <= s.clock && ids <= s.db.deliveries.Keys && s' == s.(db := Reset(s.db, ids, t))
    requires forall id <- ids :: s.db.deliveries[id].status == Failed
    ensures Inv(s')
  {
    ResettingRows(s.db, ids, t);
    SameRowsKeepTables(s.db, s'.db);
    SameRowsLoseNothing(s, s');
    IdleRowsAreFree(s, s');
    RunsStayRecorded(s, s');
  }

  lemma {:induction false} CleaningIsSafe(s: System, cutoff: Time, events: set<EventId>, s': System)
    requires Inv(s) && events <= s.db.events.Keys && s' == s.(db := Delete(s.db, events))
    requires forall e <- events :: Removable(s.db, e, cutoff)
    ensures Inv(s')
  {
    IdleRowsAreFree(s, s');
    forall e <- s.wanted, h <- s.wanted[e]
      ensures if e in s'.db.events then HasRow(s'.db, e, h) else (e, h) in s'.completed
    {
      if e in s.db.events {
        var id :| id in s.db.deliveries && s.db.deliveries[id].eventId == e && s.db.deliveries[id].handler == h;
        if e in events {
          assert s.db.deliveries[id].status == Delivered;
          assert Ran(s, id);
        } else {
          assert id in s'.db.deliveries;
        }
      }
    }
  }

  lemma {:induction false} TickingIsSafe(s: System, to: Time)
    requires Inv(s) && s.clock <= to
    ensures Inv(s.(clock := to))
  {
    var s' := s.(clock := to);
    assert forall k :: Live(s', k) ==> Live(s, k);
    assert OneHolder(s');
    assert RunsAreRecorded(s');
  }

  lemma {:induction false} DeployingIsSafe(s: System, registry: Registry)
    requires Inv(s)
    ensures Inv(s.(registry := registry))
  {
    var s' := s.(registry := registry);
    assert OneHolder(s') && RunsAreRecorded(s') && NothingLost(s');
  }

  lemma {:induction false} DyingIsSafe(s: System, token: Token)
    requires Inv(s)
    ensures Inv(s.(holders := s.holders - {token}))
  {
    var s' := s.(holders := s.holders - {token});
    assert forall k :: Live(s', k) ==> Live(s, k);
    assert OneHolder(s');
    assert RunsAreRecorded(s');
  }

  lemma {:induction false} MarkingIsSafe(s: System, step: Step, s': System)
    requires Inv(s) && Next(s, step, s')
    requires step.MarkDelivered? || step.MarkFailed? || step.RejectUnregistered?
    ensures Inv(s')
  {
    var token := step.token;
    var d := s.db.deliveries[token.id];
    assert Live(s, token) && Holds(s, token);
    match step
    case MarkDelivered(_, t) => SettlingIsSafe(s, token, Settled(d, t));
    case MarkFailed(_, t, error) => SettlingIsSafe(s, token, AfterFailure(d, s.holders[token].attempts, t, error));
    case RejectUnregistered(_, t, error) => SettlingIsSafe(s, token, AfterFailure(d, MAX_DELIVERY_ATTEMPTS, t, error));
  }

  lemma {:induction false} DueAreClaimable(db: Database, t: Time, limit: nat, skipped: set<DeliveryId>,
                                           taken: set<DeliveryId>)
    requires TakesDue(db, t, limit, skipped, taken)
    ensures taken <= db.deliveries.Keys
    ensures forall id <- taken :: Due(db.deliveries[id], t) && Claimable(db.deliveries[id], t)
  {
  }

  lemma {:induction false} LookingIsSafe(s: System, lastClaim: Time)
    requires Inv(s) && lastClaim <= s.clock
    ensures Inv(s.(lastClaim := lastClaim))
  {
    var s' := s.(lastClaim := lastClaim);
    assert OneHolder(s') && RunsAreRecorded(s') && NothingLost(s');
  }

  lemma {:induction false} ClaimingIsSafe(s: System, step: Step, s': System)
    requires Inv(s) && Next(s, step, s')
    requires step.Claim? || step.ClaimDue?
    ensures Inv(s')
  {
    match step
    case Claim(id, t) => TakingIsSafe(s, {id}, t);
    case ClaimDue(limit, skipped, taken, t) =>
      DueAreClaimable(s.db, t, limit, skipped, taken);
      TakingIsSafe(s, taken, t);
      LookingIsSafe(Taking(s, taken, t), Max(s.lastClaim, t));
  }

  lemma {:induction false} HandlingIsSafe(s: System, step: Step, s': System)
    requires Inv(s) && Next(s, step, s')
    requires step.HandlerReturns? || step.HandlerThrows?
    ensures Inv(s')
  {
    EndingIsSafe(s, step.token, if step.HandlerReturns? then Returned else Threw, s');
  }

  lemma {:induction false} StepIsSafe(s: System, step: Step, s': System)
    requires Inv(s) && Next(s, step, s')
    ensures Inv(s')
  {
    match step
    case Tick(to) => TickingIsSafe(s, to);
    case Deploy(registry) => DeployingIsSafe(s, registry);
    case Save(toStore, t) => SavingIsSafe(s, toStore, t, s');
    case Claim(_, _) => ClaimingIsSafe(s, step, s');
    case ClaimDue(_, _, _, _) => ClaimingIsSafe(s, step, s');
    case HandlerReturns(_) => HandlingIsSafe(s, step, s');
    case HandlerThrows(_) => HandlingIsSafe(s, step, s');
    case MarkDelivered(_, _) => MarkingIsSafe(s, step, s');
    case MarkFailed(_, _, _) => MarkingIsSafe(s, step, s');
    case RejectUnregistered(_, _, _) => MarkingIsSafe(s, step, s');
    case Die(token) => DyingIsSafe(s, token);
    case FailAbandoned(t) => GivingUpIsSafe(s, t, s');
    case Retry(ids, t) => ResettingIsSafe(s, ids, t, s');
    case Cleanup(t, days, events) => CleaningIsSafe(s, DaysBefore(t, days), events, s');
  }

  lemma {:induction false} EndingIsSafe(s: System, token: Token, phase: Phase, s': System)
    requires Inv(s) && token in s.holders
    requires s' == Ending(s, token, phase).(completed := s'.completed)
    requires s.completed <= s'.completed
    requires phase == Returned && token.id in s.db.deliveries ==> Ran(s', token.id)
    requires phase != Running
    ensures Inv(s')
  {
    forall k <- s'.holders | Live(s', k)
      ensures Live(s, k) && Holds(s', k)
    {
      assert Live(s, k) && Holds(s, k);
    }
  }

  // ---- Runs ----

  ghost predicate Goes(states: seq<System>, steps: seq<Step>, i: nat)
    requires i < |steps| && |states| == |steps| + 1
  {
    Next(states[i], steps[i], states[i + 1])
  }

  ghost predicate Run(states: seq<System>, steps: seq<Step>) {
    && |states| == |steps| + 1
    && Start(states[0])
    && (forall i | 0 <= i < |steps| :: Goes(states, steps, i))
  }

  lemma {:induction false} RunGoesOn(states: seq<System>, steps: seq<Step>, step: Step, s': System)
    requires Run(states, steps) && Next(states[|steps|], step, s')
    ensures Run(states + [s'], steps + [step])
  {
    var longer, more := states + [s'], steps + [step];
    forall i | 0 <= i < |more|
      ensures Goes(longer, more, i)
    {
      if i < |steps| {
        assert Goes(states, steps, i);
      }
    }
  }

  lemma {:induction false} StepOf(states: seq<System>, steps: seq<Step>, i: nat, s: System, step: Step, s': System)
    requires Run(states, steps) && i < |steps| && s == states[i] && step == steps[i] && s' == states[i + 1]
    ensures Next(s, step, s')
  {
    assert Goes(states, steps, i);
  }

  /** Every state of every run satisfies the invariant. */
  lemma {:induction false} RunIsSafe(states: seq<System>, steps: seq<Step>, i: nat)
    requires Run(states, steps) && i < |states|
    ensures Inv(states[i])
  {
    if i == 0 {
      StartIsSafe(states[0]);
    } else {
      RunIsSafe(states, steps, i - 1);
      StepOf(states, steps, i - 1, states[i - 1], steps[i - 1], states[i]);
      StepIsSafe(states[i - 1], steps[i - 1], states[i]);
    }
  }

  /**
   * What a run promises in each of its states: one live holder at most per delivery, never more than eight attempts,
   * a lease on whoever spent the last one, and a completed handler run behind each delivered row.
   */
  lemma {:induction false} Exclusion(states: seq<System>, steps: seq<Step>, i: nat)
    requires Run(states, steps) && i < |states|
    ensures var s := states[i];
      && (forall a, b | Live(s, a) && Live(s, b) && a.id == b.id :: a == b)
      && (forall id <- s.db.deliveries ::
            var d := s.db.deliveries[id];
            && d.attempts <= 8
            && (d.status == Pending && d.attempts == 8 ==> d.lockedUntil.Some?)
            && (d.status == Delivered ==> (d.eventId, d.handler) in s.completed))
  {
    RunIsSafe(states, steps, i);
  }

  /** Nobody who may still settle holds a delivered delivery. */
  lemma {:induction false} DeliveredIsFree(s: System, id: DeliveryId, token: Token)
    requires OneHolder(s) && InTime(s, token)
    requires id in s.db.deliveries && s.db.deliveries[id].status == Delivered
    ensures token.id != id
  {
    assert Live(s, token) && Holds(s, token);
  }

  /** Only the cleanup deletes rows. */
  lemma {:induction false} OnlyCleanupDeletes(s: System, step: Step, s': System, id: DeliveryId)
    requires Next(s, step, s') && id in s.db.deliveries && id !in s'.db.deliveries
    ensures step.Cleanup? && s.db.deliveries[id].eventId in step.events
  {
  }

  lemma {:induction false} DeliveredUnchanged(s: System, step: Step, s': System, id: DeliveryId)
    requires OneHolder(s) && Next(s, step, s')
    requires id in s.db.deliveries && s.db.deliveries[id].status == Delivered && id in s'.db.deliveries
    ensures s'.db.deliveries[id] == s.db.deliveries[id]
  {
    match step
    case MarkDelivered(token, _) => DeliveredIsFree(s, id, token);
    case MarkFailed(token, _, _) => DeliveredIsFree(s, id, token);
    case RejectUnregistered(token, _, _) => DeliveredIsFree(s, id, token);
    case Claim(_, _) =>
    case ClaimDue(_, _, _, _) =>
    case Save(_, _) =>
    case FailAbandoned(_) =>
    case Retry(_, _) =>
    case Cleanup(_, _, _) =>
    case _ => assert s'.db == s.db;
  }

  /** One step never leaves DELIVERED: the row stays as it is, or goes with its event once the cleanup may take it. */
  lemma {:induction false} DeliveredStays(s: System, step: Step, s': System, id: DeliveryId)
    requires Inv(s) && Next(s, step, s')
    requires id in s.db.deliveries && s.db.deliveries[id].status == Delivered
    ensures id in s'.db.deliveries ==> s'.db.deliveries[id] == s.db.deliveries[id]
    ensures id !in s'.db.deliveries ==>
      step.Cleanup? && s.db.deliveries[id].eventId in step.events
      && Removable(s.db, s.db.deliveries[id].eventId, DaysBefore(step.t, step.days))
  {
    if id in s'.db.deliveries {
      DeliveredUnchanged(s, step, s', id);
    } else {
      OnlyCleanupDeletes(s, step, s', id);
    }
  }

  /**
   * No committed event is lost: as long as it is stored it has exactly one delivery to each handler it was saved with,
   * and it left only after each of those handlers ran to completion.
   */
  lemma {:induction false} NoEventIsLost(states: seq<System>, steps: seq<Step>, i: nat, e: EventId)
    requires Run(states, steps) && i < |states| && e in states[i].wanted
    ensures var s := states[i];
      && (e in s.db.events ==>
            && (forall h <- s.wanted[e] :: HasRow(s.db, e, h))
            && (forall a <- s.db.deliveries | s.db.deliveries[a].eventId == e ::
                s.db.deliveries[a].handler in s.wanted[e])
            && (forall a <- s.db.deliveries, b <- s.db.deliveries |
                  && s.db.deliveries[a].eventId == s.db.deliveries[b].eventId == e
                  && s.db.deliveries[a].handler == s.db.deliveries[b].handler :: a == b))
      && (e !in s.db.events ==> forall h <- s.wanted[e] :: (e, h) in s.completed)
  {
    RunIsSafe(states, steps, i);
  }

  /** What was saved is remembered for the rest of the run, so `NoEventIsLost` speaks of every event ever committed. */
  lemma {:induction false} WantedGrows(states: seq<System>, steps: seq<Step>, i: nat, j: nat, e: EventId)
    requires Run(states, steps) && i <= j < |states| && e in states[i].wanted
    ensures e in states[j].wanted && states[j].wanted[e] == states[i].wanted[e]
  {
    if i == j {
    } else {
      WantedGrows(states, steps, i, j - 1, e);
      var s, step, s' := states[j - 1], steps[j - 1], states[j];
      StepOf(states, steps, j - 1, s, step, s');
      WantedStays(s, step, s', e);
    }
  }

  /** An event stored in a run was saved by one of its steps, for the handlers then registered for its type. */
  lemma {:induction false} StoredForRegistered(states: seq<System>, steps: seq<Step>, i: nat, e: EventId)
    returns (j: nat)
    requires Run(states, steps) && i < |states| && e in states[i].db.events
    ensures j < i && steps[j].Save? && e !in states[j].wanted && e in states[i].wanted
    ensures states[i].wanted[e] == Elements(HandlersFor(states[j].registry, states[i].db.events[e].eventType))
  {
    RunIsSafe(states, steps, i - 1);
    var before, step, after := states[i - 1], steps[i - 1], states[i];
    StepOf(states, steps, i - 1, before, step, after);
    if e in before.db.events {
      j := StoredForRegistered(states, steps, i - 1, e);
      EventStays(before, step, after, e);
      WantedStays(before, step, after, e);
    } else {
      j := i - 1;
      SavedForRegistered(before, step, after, e);
    }
  }

  /** No other step adds or deletes rows. */
  lemma {:induction false} OnlySaveAndCleanup(s: System, step: Step, s': System)
    requires Next(s, step, s') && !step.Save? && !step.Cleanup?
    ensures s'.db.events == s.db.events && s'.wanted == s.wanted
  {
    match step
    case Claim(_, _) =>
    case ClaimDue(_, _, _, _) =>
    case MarkDelivered(_, _) =>
    case MarkFailed(_, _, _) =>
    case RejectUnregistered(_, _, _) =>
    case FailAbandoned(_) =>
    case Retry(_, _) =>
    case _ =>
  }

  lemma {:induction false} WantedStays(s: System, step: Step, s': System, e: EventId)
    requires Next(s, step, s') && e in s.wanted
    ensures e in s'.wanted && s'.wanted[e] == s.wanted[e]
  {
    match step
    case Save(_, _) =>
    case Cleanup(_, _, _) =>
    case _ => OnlySaveAndCleanup(s, step, s');
  }

  /** As long as it is stored, an event stays as it is. */
  lemma {:induction false} EventStays(s: System, step: Step, s': System, e: EventId)
    requires Next(s, step, s') && e in s.db.events && e in s'.db.events
    ensures s'.db.events[e] == s.db.events[e]
  {
    match step
    case Save(_, _) =>
    case Cleanup(_, _, _) =>
    case _ => OnlySaveAndCleanup(s, step, s');
  }

  function Elements(handlers: seq<Handler>): set<Handler> { set h | h in handlers }

  lemma {:induction false} SavedForRegistered(s: System, step: Step, s': System, e: EventId)
    requires Next(s, step, s') && s.db.events.Keys <= s.wanted.Keys && e !in s.db.events && e in s'.db.events
    ensures step.Save? && e !in s.wanted && e in s'.wanted
    ensures s'.wanted[e] == Elements(HandlersFor(s.registry, s'.db.events[e].eventType))
  {
    match step
    case Save(toStore, t) => HandlersAreRegistered(s.registry, toStore, s'.db.events, e);
    case Cleanup(_, _, _) =>
    case _ => OnlySaveAndCleanup(s, step, s');
  }

  lemma {:induction false} HandlersAreRegistered(
    registry: Registry, toStore: seq<EventToStore>, events: map<EventId, Event>, e: EventId)
    requires ForRegistered(registry, toStore) && e in HandledIds(toStore) && e in events
    requires forall i | 0 <= i < |toStore| && toStore[i].handlers != [] && toStore[i].event.id == e ::
             toStore[i].event == events[e]
    ensures HandlersOf(toStore, e) == Elements(HandlersFor(registry, events[e].eventType))
  {
    var names := HandlersFor(registry, events[e].eventType);
    var k :| 0 <= k < |toStore| && toStore[k].handlers != [] && toStore[k].event.id == e;
    assert toStore[k].handlers == names;
    forall h ensures h in HandlersOf(toStore, e) <==> h in names {
      if h in HandlersOf(toStore, e) {
        var i :| 0 <= i < |toStore| && toStore[i].event.id == e && h in toStore[i].handlers;
        assert toStore[i].event == events[e];
      }
    }
  }

  /** The event had its row for the handler, delivered before that instant. */
  ghost predicate DeliveredBefore(db: Database, e: EventId, h: Handler, t: Time) {
    exists id <- db.deliveries ::
      var d := db.deliveries[id];
      d.eventId == e && d.handler == h && d.status == Delivered && d.deliveredAt.Some? && d.deliveredAt.value < t
  }

  lemma {:induction false} RemovableIsDelivered(s: System, e: EventId, cutoff: Time, t: Time)
    requires Inv(s) && e in s.db.events && Removable(s.db, e, cutoff) && cutoff <= t
    ensures forall id <- s.db.deliveries | s.db.deliveries[id].eventId == e ::
              DeliveredBefore(s.db, e, s.db.deliveries[id].handler, t)
    ensures forall h <- s.wanted[e] :: DeliveredBefore(s.db, e, h, t)
  {
    forall id <- s.db.deliveries | s.db.deliveries[id].eventId == e
      ensures DeliveredBefore(s.db, e, s.db.deliveries[id].handler, t)
    {
      assert RowOk(s.db.deliveries[id]);
    }
    forall h <- s.wanted[e] ensures DeliveredBefore(s.db, e, h, t) {
      var id :| id in s.db.deliveries && s.db.deliveries[id].eventId == e && s.db.deliveries[id].handler == h;
    }
  }

  /**
   * The step that deletes an event is a cleanup, and each of its deliveries has been delivered longer than the
   * retention.
   */
  lemma {:induction false} LeavesAfterRetention(s: System, step: Step, s': System, e: EventId)
    requires Inv(s) && Next(s, step, s') && e in s.db.events && e !in s'.db.events
    ensures step.Cleanup? && forall h <- s.wanted[e] :: DeliveredBefore(s.db, e, h, DaysBefore(s.clock, step.days))
    ensures forall id <- s.db.deliveries | s.db.deliveries[id].eventId == e ::
              DeliveredBefore(s.db, e, s.db.deliveries[id].handler, DaysBefore(s.clock, step.days))
  {
    match step
    case Save(_, _) =>
    case Cleanup(t, days, _) => RemovableIsDelivered(s, e, DaysBefore(t, days), DaysBefore(s.clock, days));
    case _ => OnlySaveAndCleanup(s, step, s');
  }

  lemma {:induction false} GoneStays(s: System, step: Step, s': System, e: EventId)
    requires Next(s, step, s') && e in s'.wanted && e !in s.db.events && e !in s'.db.events
    ensures e in s.wanted && s'.wanted[e] == s.wanted[e]
  {
    match step
    case Save(_, _) =>
    case Cleanup(_, _, _) =>
    case _ => OnlySaveAndCleanup(s, step, s');
  }

  /**
   * An event that is gone was there until a cleanup, to which all its handlers had been delivered for the retention.
   */
  lemma {:induction false} GoneAfterRetention(states: seq<System>, steps: seq<Step>, i: nat, e: EventId)
    returns (j: nat)
    requires Run(states, steps) && i < |states| && e in states[i].wanted && e !in states[i].db.events
    ensures j < i && steps[j].Cleanup? && e in states[j].db.events && e !in states[j + 1].db.events
    ensures forall h <- states[i].wanted[e] ::
              DeliveredBefore(states[j].db, e, h, DaysBefore(states[j].clock, steps[j].days))
  {
    RunIsSafe(states, steps, i - 1);
    var before, step, after := states[i - 1], steps[i - 1], states[i];
    StepOf(states, steps, i - 1, before, step, after);
    if e in before.db.events {
      j := i - 1;
      LeavesAfterRetention(before, step, after, e);
      WantedStays(before, step, after, e);
    } else {
      GoneStays(before, step, after, e);
      j := GoneAfterRetention(states, steps, i - 1, e);
    }
  }
}
