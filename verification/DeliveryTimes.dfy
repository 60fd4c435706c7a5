/** When things happen in a run of the delivery protocol: retries, resets, settlements and the end of the retention. */
module DeliveryTimes {
  import opened Wrappers
  import opened EventRetries
  import opened EventOutbox
  import opened DeliveryProtocol

  // ---- Retries ----

  /** The minutes to wait after a failed attempt. */
  function WaitMinutes(attempt: nat): nat {
    if attempt <= 1 then 1
    else if attempt == 2 then 5
    else if attempt == 3 then 15
    else if attempt == 4 then 60
    else if attempt == 5 then 180
    else if attempt == 6 then 360
    else 720
  }

  /** A step that gives the delivery another next attempt. */
  ghost predicate Reschedules(step: Step, id: DeliveryId) {
    (step.MarkFailed? && step.token.id == id) || (step.Retry? && id in step.ids)
  }

  /** From state `from` to state `later` the delivery is there, and no step gives it another next attempt. */
  ghost predicate Scheduled(states: seq<System>, steps: seq<Step>, from: nat, later: nat, id: DeliveryId)
    requires from <= later < |states| == |steps| + 1
  {
    && (forall k | from <= k < later :: !Reschedules(steps[k], id))
    && (forall k | from <= k <= later :: id in states[k].db.deliveries)
  }

  lemma {:induction false} ScheduleStays(s: System, step: Step, s': System, id: DeliveryId)
    requires Next(s, step, s') && !Reschedules(step, id) && id in s.db.deliveries && id in s'.db.deliveries
    ensures s'.db.deliveries[id].nextAttemptAt == s.db.deliveries[id].nextAttemptAt
  {
    match step
    case Save(_, _) =>
    case Claim(_, _) =>
    case ClaimDue(_, _, _, _) =>
    case MarkDelivered(_, _) =>
    case MarkFailed(_, _, _) =>
    case RejectUnregistered(_, _, _) =>
    case FailAbandoned(_) =>
    case Retry(_, _) =>
    case Cleanup(_, _, _) =>
    case _ => assert s'.db == s.db;
  }

  lemma {:induction false} FailedStays(s: System, step: Step, s': System, id: DeliveryId)
    requires Next(s, step, s') && !Reschedules(step, id) && id in s.db.deliveries && id in s'.db.deliveries
    requires s.db.deliveries[id].status == Failed && !(step.MarkDelivered? && step.token.id == id)
    ensures s'.db.deliveries[id].status == Failed
  {
    match step
    case Save(_, _) =>
    case Claim(_, _) =>
    case ClaimDue(_, _, _, _) =>
    case MarkDelivered(_, _) =>
    case MarkFailed(_, _, _) =>
    case RejectUnregistered(_, _, _) =>
    case FailAbandoned(_) =>
    case Retry(_, _) =>
    case Cleanup(_, _, _) =>
    case _ => assert s'.db == s.db;
  }

  lemma {:induction false} SettlesPending(s: System, token: Token)
    requires Inv(s) && InTime(s, token)
    ensures s.db.deliveries[token.id].status == Pending
  {
    assert Holds(s, token);
  }

  lemma {:induction false} ScheduleKept(states: seq<System>, steps: seq<Step>, from: nat, later: nat, id: DeliveryId)
    requires Run(states, steps) && from <= later < |states| && Scheduled(states, steps, from, later, id)
    ensures states[later].db.deliveries[id].nextAttemptAt == states[from].db.deliveries[id].nextAttemptAt
    ensures states[from].db.deliveries[id].status == Failed ==> states[later].db.deliveries[id].status == Failed
    decreases later
  {
    if from == later {
    } else {
      ScheduleKept(states, steps, from, later - 1, id);
      RunIsSafe(states, steps, later - 1);
      StepOf(states, steps, later - 1, states[later - 1], steps[later - 1], states[later]);
      ScheduleStays(states[later - 1], steps[later - 1], states[later], id);
      if states[later - 1].db.deliveries[id].status == Failed {
        if steps[later - 1].MarkDelivered? {
          SettlesPending(states[later - 1], steps[later - 1].token);
        }
        FailedStays(states[later - 1], steps[later - 1], states[later], id);
      }
    }
  }

  lemma {:induction false} FailureSchedules(s: System, step: Step, s': System)
    requires Next(s, step, s') && step.MarkFailed?
    ensures var attempt := s.holders[step.token].attempts;
      && step.token.id in s'.db.deliveries
      && (if attempt <= 7 then
            s'.db.deliveries[step.token.id].nextAttemptAt == step.t + WaitMinutes(attempt) * 60_000
          else s'.db.deliveries[step.token.id].status == Failed)
  {
    var attempt := s.holders[step.token].attempts;
    assert RETRY_DELAY_MINUTES == [1, 5, 15, 60, 180, 360, 720];
    assert attempt <= 7 ==> Delay(attempt) == WaitMinutes(attempt) * 60_000;
  }

  /**
   * The retry job never takes a delivery sooner after its last recorded failure than the minutes of that attempt: 1, 5,
   * 15, 60, 180, 360 and 720; after the eighth, never, unless the staff resets it.
   */
  lemma {:induction false} RetriesWait(states: seq<System>, steps: seq<Step>, failed: nat, taken: nat, id: DeliveryId)
    requires Run(states, steps) && failed < taken < |steps|
    requires steps[failed].MarkFailed? && steps[failed].token.id == id
    requires steps[taken].ClaimDue? && id in steps[taken].taken
    requires Scheduled(states, steps, failed + 1, taken, id)
    ensures steps[failed].token in states[failed].holders
    ensures var attempt := states[failed].holders[steps[failed].token].attempts;
            attempt <= 7 && steps[taken].t >= steps[failed].t + WaitMinutes(attempt) * 60_000
  {
    StepOf(states, steps, failed, states[failed], steps[failed], states[failed + 1]);
    FailureSchedules(states[failed], steps[failed], states[failed + 1]);
    ScheduleKept(states, steps, failed + 1, taken, id);
    TakenWhenDue(states, steps, taken, id);
  }

  lemma {:induction false} TakenWhenDue(states: seq<System>, steps: seq<Step>, taken: nat, id: DeliveryId)
    requires Run(states, steps) && taken < |steps| && steps[taken].ClaimDue? && id in steps[taken].taken
    ensures id in states[taken].db.deliveries
    ensures states[taken].db.deliveries[id].status == Pending
    ensures states[taken].db.deliveries[id].nextAttemptAt <= steps[taken].t
  {
    var s, step := states[taken], steps[taken];
    StepOf(states, steps, taken, s, step, states[taken + 1]);
    TakenAreDue(s.db, step.t, step.limit, step.skipped, step.taken);
  }

  /** It never takes a new one within a minute either. */
  lemma {:induction false} NewOnesWait(states: seq<System>, steps: seq<Step>, saved: nat, taken: nat, id: DeliveryId)
    requires Run(states, steps) && saved < taken < |steps|
    requires steps[saved].Save? && id !in states[saved].db.deliveries
    requires steps[taken].ClaimDue? && id in steps[taken].taken
    requires Scheduled(states, steps, saved + 1, taken, id)
    ensures steps[taken].t >= steps[saved].t + 60_000
  {
    StepOf(states, steps, saved, states[saved], steps[saved], states[saved + 1]);
    SavedRows(states[saved].db, states[saved + 1].db, steps[saved].toStore, steps[saved].t, id);
    ScheduleKept(states, steps, saved + 1, taken, id);
    TakenWhenDue(states, steps, taken, id);
  }

  /** What the staff resets is due at once: the job takes it at its next look, unless its batch is full. */
  lemma {:induction false} ResetIsDue(s: System, step: Step, s': System, id: DeliveryId, t: Time, limit: nat,
                                      skipped: set<DeliveryId>, taken: set<DeliveryId>)
    requires Next(s, step, s') && step.Retry? && id in step.ids && step.t <= t
    requires TakesDue(s'.db, t, limit, skipped, taken) && id !in skipped
    ensures id in s'.db.deliveries && s'.db.deliveries[id].attempts == 0
    ensures id in taken || |taken| == limit
  {
    TakenAreDue(s'.db, t, limit, skipped, taken);
    assert IsFree(s'.db.deliveries[id], t) && s'.db.deliveries[id].nextAttemptAt <= t;
  }

  // ---- Settlements and retention ----

  /** No other step makes a row delivered. */
  lemma {:induction false} OnlyMarkingDelivers(s: System, step: Step, s': System, id: DeliveryId)
    requires Next(s, step, s') && id in s'.db.deliveries && s'.db.deliveries[id].status == Delivered
    requires !(step.MarkDelivered? && step.token.id == id)
    ensures id in s.db.deliveries && s.db.deliveries[id].status == Delivered
  {
    match step
    case Save(toStore, t) => SavedRows(s.db, s'.db, toStore, t, id);
    case Claim(_, _) =>
    case ClaimDue(_, _, _, _) =>
    case MarkDelivered(_, _) =>
    case MarkFailed(_, _, _) =>
    case RejectUnregistered(_, _, _) =>
    case FailAbandoned(_) =>
    case Retry(_, _) =>
    case Cleanup(_, _, _) =>
    case _ =>
  }

  lemma {:induction false} BecomesDelivered(s: System, step: Step, s': System, id: DeliveryId)
    requires Next(s, step, s') && id in s'.db.deliveries && s'.db.deliveries[id].status == Delivered
    requires id !in s.db.deliveries || s.db.deliveries[id].status != Delivered
    ensures step.MarkDelivered? && step.token.id == id && s'.db.deliveries[id].deliveredAt == Some(step.t)
    ensures step.token in s.holders && s.holders[step.token].phase == Returned
  {
    if !(step.MarkDelivered? && step.token.id == id) {
      OnlyMarkingDelivers(s, step, s', id);
    }
  }

  /** A delivered row says when the step that settled it read the clock, once its handler had returned. */
  lemma {:induction false} DeliveredWhenSettled(states: seq<System>, steps: seq<Step>, i: nat, id: DeliveryId)
    returns (j: nat)
    requires Run(states, steps) && i < |states|
    requires id in states[i].db.deliveries && states[i].db.deliveries[id].status == Delivered
    ensures j < i && steps[j].MarkDelivered? && steps[j].token.id == id
    ensures states[i].db.deliveries[id].deliveredAt == Some(steps[j].t)
    ensures steps[j].token in states[j].holders && states[j].holders[steps[j].token].phase == Returned
  {
    var before, step, after := states[i - 1], steps[i - 1], states[i];
    RunIsSafe(states, steps, i - 1);
    StepOf(states, steps, i - 1, before, step, after);
    if id in before.db.deliveries && before.db.deliveries[id].status == Delivered {
      j := DeliveredWhenSettled(states, steps, i - 1, id);
      DeliveredUnchanged(before, step, after, id);
    } else {
      j := i - 1;
      BecomesDelivered(before, step, after, id);
    }
  }

  /**
   * An event that is gone was delivered to each of its handlers by a step of the run, and deleted by a later one, more
   * than the days of the retention, of 86,400,000 milliseconds each, after that.
   */
  lemma {:induction false} GoneDaysAfter(states: seq<System>, steps: seq<Step>, i: nat, e: EventId, h: Handler)
    returns (settled: nat, deleted: nat)
    requires Run(states, steps) && i < |states| && e in states[i].wanted && e !in states[i].db.events
    requires h in states[i].wanted[e]
    ensures settled < deleted < i && steps[settled].MarkDelivered? && steps[deleted].Cleanup?
    ensures e in states[deleted].db.events && e !in states[deleted + 1].db.events
    ensures steps[settled].t + steps[deleted].days * 86_400_000 < states[deleted].clock
    ensures var id := steps[settled].token.id;
            id in states[deleted].db.deliveries && states[deleted].db.deliveries[id].eventId == e
            && states[deleted].db.deliveries[id].handler == h
  {
    deleted := GoneAfterRetention(states, steps, i, e);
    var db := states[deleted].db;
    var t := DaysBefore(states[deleted].clock, steps[deleted].days);
    assert DeliveredBefore(db, e, h, t);
    var id :| id in db.deliveries && db.deliveries[id].eventId == e && db.deliveries[id].handler == h
              && db.deliveries[id].status == Delivered && db.deliveries[id].deliveredAt.Some?
              && db.deliveries[id].deliveredAt.value < t;
    settled := DeliveredWhenSettled(states, steps, deleted, id);
  }
}
