/**
 * One run of the retry job, and one delivery after a commit, as the dispatcher does them
 * (src/platform/events/domain-event-dispatcher.ts). What a handler does, when it ends, whether the statement that
 * settles it gets through, and what others write meanwhile are parameters.
 */
module DomainEventDispatcher {
  import opened Wrappers
  import opened EventRetries
  import opened EventOutbox

  /** How the handler run of a delivery ended, when, and whether its settlement reached the database. */
  datatype Attempt = Attempt(failure: Option<string>, endedAt: Time, recorded: bool)

  /** What settling attempt number `attempts` writes over a row, whatever became of the row meanwhile. */
  function After(d: Delivery, attempts: nat, a: Attempt): Delivery {
    if a.failure.None? then Settled(d, a.endedAt) else AfterFailure(d, attempts, a.endedAt, a.failure.value)
  }

  /** The delivery fails for good: no handler has its name any more. */
  function Rejected(d: Delivery, handler: Handler, endedAt: Time): Delivery {
    AfterFailure(d, MAX_DELIVERY_ATTEMPTS, endedAt, "Handler " + handler + " is not registered")
  }

  // ---- The taken deliveries, one after another ----

  /** The tables and the counters of a run, and whether the error of a statement of its own ended it. */
  datatype Progress = Progress(db: Database, delivered: nat, failed: nat, ended: bool)

  /** What happens around the attempts: how each one ends, and what others write before each turn. */
  datatype Course = Course(attempts: DeliveryId -> Attempt, others: (nat, Database) -> Database)

  /** The row of an attempt, if it is still there and the statement gets through, is settled by its identifier. */
  function Attempted(db: Database, id: DeliveryId, attempts: nat, a: Attempt): Database {
    if id in db.deliveries && a.recorded then Rewrite(db, id, After(db.deliveries[id], attempts, a)) else db
  }

  lemma {:induction false} AttemptKeepsConstraints(db: Database, id: DeliveryId, attempts: nat, a: Attempt)
    requires Constraints(db)
    ensures Constraints(Attempted(db, id, attempts, a))
  {
    var after := Attempted(db, id, attempts, a);
    forall i <- after.deliveries ensures i in db.deliveries && SamePair(after.deliveries[i], db.deliveries[i]) {
    }
  }

  /** The turn of one delivery. */
  function Turn(p: Progress, next: ClaimedDelivery, a: Attempt, names: set<Handler>): Progress {
    var there := next.id in p.db.deliveries;
    if next.handler !in names then
      if !there || !a.recorded then p.(ended := true)
      else
        var d := Rejected(p.db.deliveries[next.id], next.handler, a.endedAt);
        p.(db := Rewrite(p.db, next.id, d), failed := p.failed + 1)
    else
      var db := Attempted(p.db, next.id, next.attempts, a);
      if a.failure.None? then p.(db := db, delivered := p.delivered + 1) else p.(db := db, failed := p.failed + 1)
  }

  function Turns(start: Progress, claimed: seq<ClaimedDelivery>, course: Course, names: set<Handler>): Progress {
    if claimed == [] then start
    else
      var last := claimed[|claimed| - 1];
      var p := Turns(start, claimed[..|claimed| - 1], course, names);
      if p.ended then p
      else Turn(p.(db := course.others(|claimed|, p.db)), last, course.attempts(last.id), names)
  }

  /** Others write none of these rows. */
  ghost predicate LeaveAlone(others: (nat, Database) -> Database, ids: set<DeliveryId>) {
    forall i: nat, db: Database, id | id in ids && id in db.deliveries ::
      id in others(i, db).deliveries && others(i, db).deliveries[id] == db.deliveries[id]
  }

  /** The row of a delivery after its turn, when nobody else wrote it. */
  function Alone(d: Delivery, a: Attempt, names: set<Handler>): Delivery {
    if d.handler !in names then Rejected(d, d.handler, a.endedAt)
    else if a.recorded then After(d, d.attempts, a) else d
  }

  /** The claims are of rows as they are. */
  ghost predicate Claims(db: Database, claimed: seq<ClaimedDelivery>) {
    forall i | 0 <= i < |claimed| ::
      && claimed[i].id in db.deliveries
      && claimed[i].handler == db.deliveries[claimed[i].id].handler
      && claimed[i].attempts == db.deliveries[claimed[i].id].attempts
  }

  /** No statement that fails a delivery without a handler gets an error. */
  predicate Rejects(claimed: seq<ClaimedDelivery>, course: Course, names: set<Handler>) {
    forall i | 0 <= i < |claimed| :: claimed[i].handler in names || course.attempts(claimed[i].id).recorded
  }

  /**
   * Attempts of different deliveries do not meddle: as long as others leave them alone, each one ends as if it were the
   * only one, and the other rows nobody else writes stay as they were.
   */
  lemma {:induction false} EachAttempted(start: Progress, claimed: seq<ClaimedDelivery>, course: Course,
                                         names: set<Handler>, quiet: set<DeliveryId>)
    requires !start.ended && Distinct(Ids(claimed)) && Claims(start.db, claimed) && Rejects(claimed, course, names)
    requires quiet <= start.db.deliveries.Keys && Elements(Ids(claimed)) <= quiet && LeaveAlone(course.others, quiet)
    ensures var p := Turns(start, claimed, course, names);
      && !p.ended && quiet <= p.db.deliveries.Keys
      && p.delivered == start.delivered + Returned(claimed, course, names)
      && p.delivered + p.failed == start.delivered + start.failed + |claimed|
      && (forall id <- quiet :: p.db.deliveries[id] ==
            if id in Ids(claimed) then Alone(start.db.deliveries[id], course.attempts(id), names)
            else start.db.deliveries[id])
  {
    if claimed == [] {
    } else {
      var front, last := claimed[..|claimed| - 1], claimed[|claimed| - 1];
      assert Ids(claimed) == Ids(front) + [last.id];
      EachAttempted(start, front, course, names, quiet);
      OneTurn(start, Turns(start, front, course, names), front, last, course, names, quiet);
    }
  }

  lemma {:induction false} OneTurn(start: Progress, p: Progress, front: seq<ClaimedDelivery>, last: ClaimedDelivery,
                                   course: Course, names: set<Handler>, quiet: set<DeliveryId>)
    requires quiet <= start.db.deliveries.Keys && quiet <= p.db.deliveries.Keys && LeaveAlone(course.others, quiet)
    requires last.id in quiet && last.id !in Ids(front) && Claims(start.db, [last]) && Rejects([last], course, names)
    requires forall id <- quiet :: p.db.deliveries[id] ==
               if id in Ids(front) then Alone(start.db.deliveries[id], course.attempts(id), names)
               else start.db.deliveries[id]
    ensures var a := course.attempts(last.id);
      var t := Turn(p.(db := course.others(|front| + 1, p.db)), last, a, names);
      && t.ended == p.ended && quiet <= t.db.deliveries.Keys
      && t.delivered == p.delivered + (if last.handler in names && a.failure.None? then 1 else 0)
      && t.delivered + t.failed == p.delivered + p.failed + 1
      && (forall id <- quiet :: t.db.deliveries[id] ==
            if id in Ids(front) + [last.id] then Alone(start.db.deliveries[id], course.attempts(id), names)
            else start.db.deliveries[id])
  {
    assert [last][0] == last;
    var db := course.others(|front| + 1, p.db);
    assert forall id <- quiet :: id in db.deliveries && db.deliveries[id] == p.db.deliveries[id];
  }

  /** How many of the deliveries have a registered handler that returned. */
  function Returned(claimed: seq<ClaimedDelivery>, course: Course, names: set<Handler>): nat {
    if claimed == [] then 0
    else
      var last := claimed[|claimed| - 1];
      Returned(claimed[..|claimed| - 1], course, names)
      + if last.handler in names && course.attempts(last.id).failure.None? then 1 else 0
  }

  function Ids(claimed: seq<ClaimedDelivery>): (ids: seq<DeliveryId>)
    ensures |ids| == |claimed|
    ensures forall i | 0 <= i < |ids| :: ids[i] == claimed[i].id
    ensures forall id :: id in ids <==> id in IdsOf(claimed)
  {
    seq(|claimed|, i requires 0 <= i < |claimed| => claimed[i].id)
  }

  function Elements(ids: seq<DeliveryId>): set<DeliveryId> {
    set id | id in ids
  }

  // ---- One event, to each of its handlers ----

  /** What a delivery becomes when its handler tries to take it. */
  function Handed(d: Delivery, t: Time, a: Attempt): Delivery {
    if !Claimable(d, t) then d
    else if a.recorded then After(Held(d, t), d.attempts + 1, a) else Held(d, t)
  }

  /** The delivery of the event to the handler can be taken, and this is its claim. */
  ghost predicate IsTaken(db: Database, next: ClaimedDelivery, event: Event, handler: Handler, now: Time) {
    && next.id in db.deliveries && next.handler == handler && next.event == event
    && var d := db.deliveries[next.id];
       && d.eventId == event.id && d.handler == handler && Claimable(d, now)
       && next.attempts == d.attempts + 1
  }

  class DomainEventDispatcher {
    const outbox: EventOutbox
    /** The names of the handlers of each event type, in the order they were registered. */
    var handlers: Registry
    var handlersByName: set<Handler>

    constructor (outbox: EventOutbox)
      ensures this.outbox == outbox && handlers == map[] && handlersByName == {}
      ensures Valid()
    {
      this.outbox := outbox;
      handlers := map[];
      handlersByName := {};
    }

    /** A handler is found by its name exactly when some event type has it. */
    ghost predicate Valid()
      reads this
    {
      forall h :: h in handlersByName <==> exists t <- handlers :: h in handlers[t]
    }

    function HandlerNames(eventType: string): seq<Handler>
      reads this
    {
      HandlersFor(handlers, eventType)
    }

    method Register(eventType: string, handler: Handler)
      requires Valid()
      modifies this
      ensures Valid()
      ensures HandlerNames(eventType) == old(HandlerNames(eventType)) + [handler]
      ensures forall t | t != eventType :: HandlerNames(t) == old(HandlerNames(t))
      ensures handlersByName == old(handlersByName) + {handler}
    {
      ghost var before := handlers;
      handlers := handlers[eventType := HandlerNames(eventType) + [handler]];
      handlersByName := handlersByName + {handler};
      assert handler in handlers[eventType];
      forall h, t | t in before && h in before[t]
        ensures t in handlers && h in handlers[t]
      {
      }
    }

    /**
     * Runs one attempt of a taken delivery and settles it; answers whether the handler returned. An error of the
     * settlement, such as that of a row that is gone, is only logged.
     */
    method Attempt(id: DeliveryId, attempts: nat, a: Attempt) returns (delivered: bool)
      modifies outbox
      ensures delivered <==> a.failure.None?
      ensures outbox.db == Attempted(old(outbox.db), id, attempts, a)
    {
      if a.recorded {
        if a.failure.None? {
          var _ := outbox.MarkDelivered(id, a.endedAt);
        } else {
          var _ := outbox.MarkFailedAttempt(id, attempts, a.endedAt, a.failure.value);
        }
      }
      delivered := a.failure.None?;
    }

    /**
     * One run of the retry job: gives up the abandoned deliveries, takes up to a batch of the due ones, and runs each,
     * whatever others write before each of its statements.
     */
    method DeliverDue(now: Time, skipped: set<DeliveryId>, course: Course)
      returns (p: Progress, abandoned: nat, ghost due: Database, ghost claimed: seq<ClaimedDelivery>)
      requires Constraints(outbox.db) && forall db: Database | Constraints(db) :: Constraints(course.others(0, db))
      modifies outbox
      ensures abandoned == |AbandonedIds(old(outbox.db), now)|
      ensures due == course.others(0, GiveUp(old(outbox.db), now)) && Constraints(due)
      ensures TakesDue(due, now, DELIVERY_BATCH_SIZE, skipped, IdsOf(claimed))
      ensures Distinct(Ids(claimed)) && Claims(Take(due, IdsOf(claimed), now), claimed)
      ensures p.db == outbox.db
      ensures p == Turns(Progress(Take(due, IdsOf(claimed), now), 0, 0, false), claimed, course, handlersByName)
    {
      GivingUpKeepsConstraints(outbox.db, now);
      abandoned := outbox.FailAbandoned(now);
      outbox.db := course.others(0, outbox.db);
      due := outbox.db;
      claimed, p := TakeAndRun(now, skipped, course);
    }

    /**
     * When others leave what it took alone and its own statements get through, every delivery taken ends delivered,
     * failed, waiting for its next attempt, or still held when its settlement was lost, and no row changed that nobody
     * else wrote.
     */
    static lemma {:induction false} QuietRun(due: Database, claimed: seq<ClaimedDelivery>, now: Time, course: Course,
                                             names: set<Handler>, quiet: set<DeliveryId>)
      requires Distinct(Ids(claimed)) && Claims(Take(due, IdsOf(claimed), now), claimed)
      requires Rejects(claimed, course, names)
      requires IdsOf(claimed) <= quiet <= due.deliveries.Keys && LeaveAlone(course.others, quiet)
      ensures var p := Turns(Progress(Take(due, IdsOf(claimed), now), 0, 0, false), claimed, course, names);
        && !p.ended && p.delivered == Returned(claimed, course, names) && p.delivered + p.failed == |claimed|
        && quiet <= p.db.deliveries.Keys
        && (forall id <- quiet ::
              var d := due.deliveries[id];
              p.db.deliveries[id] ==
                if id in IdsOf(claimed) then Alone(Held(d, now), course.attempts(id), names) else d)
    {
      var start := Progress(Take(due, IdsOf(claimed), now), 0, 0, false);
      assert Elements(Ids(claimed)) == IdsOf(claimed);
      EachAttempted(start, claimed, course, names, quiet);
    }

    /** Takes a batch of the due deliveries and runs it. */
    method TakeAndRun(now: Time, skipped: set<DeliveryId>, course: Course)
      returns (ghost taken: seq<ClaimedDelivery>, p: Progress)
      requires Constraints(outbox.db)
      modifies outbox
      ensures TakesDue(old(outbox.db), now, DELIVERY_BATCH_SIZE, skipped, IdsOf(taken))
      ensures Distinct(Ids(taken)) && Claims(Take(old(outbox.db), IdsOf(taken), now), taken)
      ensures p.db == outbox.db
      ensures p == Turns(Progress(Take(old(outbox.db), IdsOf(taken), now), 0, 0, false), taken, course, handlersByName)
    {
      var claimed := outbox.ClaimDue(now, DELIVERY_BATCH_SIZE, skipped);
      taken := claimed;
      p := AttemptEach(claimed, course);
    }

    /** Runs one of the deliveries taken, or fails it for good when its handler is not registered any more. */
    method AttemptOne(next: ClaimedDelivery, a: Attempt, ghost p: Progress) returns (delivered: bool, error: bool)
      requires p.db == outbox.db && !p.ended
      modifies outbox
      ensures Turn(p, next, a, handlersByName) ==
                Progress(outbox.db, if delivered then p.delivered + 1 else p.delivered,
                         if delivered || error then p.failed else p.failed + 1, error)
    {
      delivered, error := false, false;
      if next.handler in handlersByName {
        delivered := Attempt(next.id, next.attempts, a);
      } else if a.recorded {
        var r := outbox.MarkFailedAttempt(next.id, MAX_DELIVERY_ATTEMPTS, a.endedAt,
                                          "Handler " + next.handler + " is not registered");
        error := r.Err?;
      } else {
        error := true;
      }
    }

    /** Runs the deliveries taken, in their order, until one gets an error of the run itself. */
    method AttemptEach(claimed: seq<ClaimedDelivery>, course: Course) returns (p: Progress)
      modifies outbox
      ensures p.db == outbox.db
      ensures p == Turns(Progress(old(outbox.db), 0, 0, false), claimed, course, handlersByName)
    {
      ghost var start := Progress(outbox.db, 0, 0, false);
      var delivered, failed := 0, 0;
      for i := 0 to |claimed|
        invariant Progress(outbox.db, delivered, failed, false) == Turns(start, claimed[..i], course, handlersByName)
      {
        assert claimed[..i + 1][..i] == claimed[..i];
        outbox.db := course.others(i + 1, outbox.db);
        ghost var sofar := Progress(outbox.db, delivered, failed, false);
        var ok, error := AttemptOne(claimed[i], course.attempts(claimed[i].id), sofar);
        if error {
          EndedStays(start, claimed, course, handlersByName, i + 1);
          return Progress(outbox.db, delivered, failed, true);
        }
        delivered, failed := if ok then delivered + 1 else delivered, if ok then failed else failed + 1;
      }
      assert claimed[..|claimed|] == claimed;
      p := Progress(outbox.db, delivered, failed, false);
    }

    static lemma {:induction false} EndedStays(start: Progress, claimed: seq<ClaimedDelivery>, course: Course,
                                               names: set<Handler>, i: nat)
      requires i <= |claimed| && Turns(start, claimed[..i], course, names).ended
      ensures Turns(start, claimed, course, names) == Turns(start, claimed[..i], course, names)
      decreases |claimed| - i
    {
      if i == |claimed| {
        assert claimed[..i] == claimed;
      } else {
        assert claimed[..i + 1][..i] == claimed[..i];
        EndedStays(start, claimed, course, names, i + 1);
      }
    }

    /**
     * One handler takes its pending delivery of the event, and runs only when it got it; others may write before it is
     * settled.
     */
    method DeliverTo(event: Event, handler: Handler, now: Time, course: Course) returns (taken: Option<ClaimedDelivery>)
      requires Constraints(outbox.db) && forall db: Database | Constraints(db) :: Constraints(course.others(1, db))
      modifies outbox
      ensures Constraints(outbox.db)
      ensures taken.None? ==> outbox.db == old(outbox.db)
      ensures taken.Some? <==> exists id <- old(outbox.db).deliveries ::
                var d := old(outbox.db).deliveries[id];
                d.eventId == event.id && d.handler == handler && Claimable(d, now)
      ensures taken.Some? ==>
        var next, before := taken.value, old(outbox.db);
        && IsTaken(before, next, event, handler, now)
        && outbox.db == Turns(Progress(Take(before, {next.id}, now), 0, 0, false), [next], course, {handler}).db
    {
      var claimed := outbox.Claim(event.id, handler, now);
      taken := None;
      if claimed.Some? {
        ghost var start := Progress(outbox.db, 0, 0, false);
        var next := ClaimedDelivery(claimed.value.0, handler, claimed.value.1, event);
        outbox.db := course.others(1, outbox.db);
        AttemptKeepsConstraints(outbox.db, next.id, next.attempts, course.attempts(next.id));
        var _ := Attempt(next.id, next.attempts, course.attempts(next.id));
        assert [next][..0] == [] && Turns(start, [], course, {handler}) == start;
        taken := Some(next);
      }
    }

    /** When others leave the rows alone meanwhile, the delivery of the pair is as its attempt leaves it. */
    static lemma {:induction false} QuietDelivery(before: Database, next: ClaimedDelivery, event: Event,
                                                  handler: Handler, now: Time, course: Course, quiet: set<DeliveryId>)
      requires Constraints(before) && IsTaken(before, next, event, handler, now)
      requires next.id in quiet && quiet <= before.deliveries.Keys && LeaveAlone(course.others, quiet)
      ensures var p := Turns(Progress(Take(before, {next.id}, now), 0, 0, false), [next], course, {handler});
        && quiet <= p.db.deliveries.Keys
        && (forall id <- quiet ::
              var d := before.deliveries[id];
              p.db.deliveries[id] ==
                if d.eventId == event.id && d.handler == handler then Handed(d, now, course.attempts(id)) else d)
    {
      assert IdsOf([next]) == {next.id};
      QuietRun(before, [next], now, course, {handler}, quiet);
      forall id <- quiet | SamePair(before.deliveries[id], before.deliveries[next.id]) ensures id == next.id {
      }
    }
  }
}
