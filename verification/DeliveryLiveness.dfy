/**
 * How long a delivery stays pending. When the retry job looks at least every `gap` and what is due fits its batch,
 * every stored delivery that the staff does not reset is settled within a bound that only the delay table, the lease
 * and `gap` decide, whatever handlers fail and whatever processes die.
 */
module DeliveryLiveness {
  import opened EventRetries
  import opened EventOutbox
  import opened DeliveryProtocol

  /**
   * The retry job keeps its pace: time never goes further than `gap` past its last look, each look takes everything
   * due, and a statement runs within a minute of reading the clock.
   */
  ghost predicate OnPace(s: System, step: Step, gap: Time) {
    match step
    case Tick(to) => to <= s.lastFail + gap && to <= s.lastClaim + gap
    case Save(_, t) => s.clock < t + MINUTE
    case Claim(_, t) => s.clock < t + MINUTE
    case ClaimDue(limit, skipped, _, t) => s.clock < t + MINUTE && skipped == {} && |DueIds(s.db, t)| <= limit
    case MarkFailed(_, t, _) => s.clock < t + MINUTE
    case FailAbandoned(t) => s.clock < t + MINUTE
    case _ => true
  }

  /** When the retry job may act on a pending delivery. */
  function Ready(d: Delivery): Time {
    if d.lockedUntil.Some? then Max(d.nextAttemptAt, d.lockedUntil.value) else d.nextAttemptAt
  }

  /** The wait after attempt `attempts` fails; none after the last one. */
  function Wait(attempts: nat): Time {
    if attempts >= MAX_DELIVERY_ATTEMPTS then 0 else Delay(attempts)
  }

  /** The longest a delivery may still take once it is ready with `attempts` made: per attempt, one gap until the job
   * takes it, its lease, and the wait after it fails; and a last gap until the job gives up. */
  function Rest(attempts: nat, gap: Time): (time: Time)
    requires attempts <= MAX_DELIVERY_ATTEMPTS && 0 <= gap
    ensures gap <= time
    decreases MAX_DELIVERY_ATTEMPTS - attempts
  {
    if attempts == MAX_DELIVERY_ATTEMPTS then gap
    else gap + DELIVERY_LEASE + Wait(attempts + 1) + Rest(attempts + 1, gap)
  }

  /** By when a pending delivery is settled at the latest: a held one may still fail, and wait for its next attempt. */
  function Deadline(d: Delivery, gap: Time): Time
    requires d.attempts <= MAX_DELIVERY_ATTEMPTS && 0 <= gap
  {
    Ready(d) + (if d.lockedUntil.Some? then Wait(d.attempts) else 0) + Rest(d.attempts, gap)
  }

  /** The bound of a new delivery: 1341 minutes of waits, the initial minute, eight leases and nine gaps. */
  lemma {:induction false} BoundOfNew(gap: Time)
    requires 0 <= gap
    ensures MINUTE + Rest(0, gap) == (1341 + 1 + 8 * 5) * MINUTE + 9 * gap
  {
    assert Rest(8, gap) == gap;
    assert Rest(7, gap) == gap + DELIVERY_LEASE + Rest(8, gap);
    assert Rest(6, gap) == gap + DELIVERY_LEASE + 720 * MINUTE + Rest(7, gap);
    assert Rest(5, gap) == gap + DELIVERY_LEASE + 360 * MINUTE + Rest(6, gap);
    assert Rest(4, gap) == gap + DELIVERY_LEASE + 180 * MINUTE + Rest(5, gap);
    assert Rest(3, gap) == gap + DELIVERY_LEASE + 60 * MINUTE + Rest(4, gap);
    assert Rest(2, gap) == gap + DELIVERY_LEASE + 15 * MINUTE + Rest(3, gap);
    assert Rest(1, gap) == gap + DELIVERY_LEASE + 5 * MINUTE + Rest(2, gap);
    assert Rest(0, gap) == gap + DELIVERY_LEASE + 1 * MINUTE + Rest(1, gap);
  }

  /** While the delivery is pending, the job has not looked since it became ready, and its deadline holds. */
  ghost predicate RowWaits(d: Delivery, lastFail: Time, lastClaim: Time, gap: Time, deadline: Time) {
    && 0 <= gap
    && (d.status == Pending ==>
          && RowOk(d)
          && Deadline(d, gap) <= deadline
          && (if d.attempts == MAX_DELIVERY_ATTEMPTS then lastFail < Ready(d) else lastClaim < Ready(d)))
  }

  ghost predicate InPace(s: System, gap: Time) {
    && s.lastFail <= s.clock <= s.lastFail + gap
    && s.lastClaim <= s.clock <= s.lastClaim + gap
  }

  ghost predicate Waiting(s: System, id: DeliveryId, gap: Time, deadline: Time) {
    && InPace(s, gap)
    && (id in s.db.deliveries ==> RowWaits(s.db.deliveries[id], s.lastFail, s.lastClaim, gap, deadline))
  }

  /** Being taken while the job may take it does not move the deadline. */
  lemma {:induction false} TakenRowWaits(d: Delivery, s: System, t: Time, lastClaim: Time, gap: Time, deadline: Time)
    requires RowWaits(d, s.lastFail, s.lastClaim, gap, deadline) && InPace(s, gap) && Claimable(d, t)
    requires t <= s.clock < t + MINUTE && lastClaim <= s.clock
    ensures RowWaits(Held(d, t), s.lastFail, lastClaim, gap, deadline)
  {
  }

  /** A failure before the lease ends does not either. */
  lemma {:induction false} FailedRowWaits(d: Delivery, s: System, t: Time, error: string, gap: Time, deadline: Time)
    requires RowWaits(d, s.lastFail, s.lastClaim, gap, deadline) && InPace(s, gap) && d.status == Pending
    requires d.lockedUntil.Some? && t <= s.clock < d.lockedUntil.value && s.clock < t + MINUTE
    ensures RowWaits(AfterFailure(d, d.attempts, t, error), s.lastFail, s.lastClaim, gap, deadline)
  {
  }

  /** A delivery that was not due when the job looked is not ready yet. */
  lemma {:induction false} SkippedRowWaits(d: Delivery, s: System, t: Time, gap: Time, deadline: Time)
    requires RowWaits(d, s.lastFail, s.lastClaim, gap, deadline) && !Due(d, t)
    ensures RowWaits(d, s.lastFail, Max(s.lastClaim, t), gap, deadline)
  {
  }

  lemma {:induction false} GivenUpRowWaits(d: Delivery, s: System, t: Time, gap: Time, deadline: Time)
    requires RowWaits(d, s.lastFail, s.lastClaim, gap, deadline)
    ensures RowWaits(if Abandoned(d, t) then GivenUp(d) else d, Max(s.lastFail, t), s.lastClaim, gap, deadline)
  {
  }

  ghost predicate Resets(step: Step, id: DeliveryId) {
    step.Retry? && id in step.ids
  }

  lemma {:induction false} ClaimKeepsWaiting(s: System, taken: DeliveryId, t: Time, id: DeliveryId, gap: Time,
                                             deadline: Time)
    requires Waiting(s, id, gap, deadline) && t <= s.clock < t + MINUTE
    requires taken in s.db.deliveries && Claimable(s.db.deliveries[taken], t)
    ensures Waiting(Taking(s, {taken}, t), id, gap, deadline)
  {
    if id == taken {
      TakenRowWaits(s.db.deliveries[id], s, t, s.lastClaim, gap, deadline);
    }
  }

  lemma {:induction false} ClaimDueKeepsWaiting(s: System, limit: nat, taken: set<DeliveryId>, t: Time,
                                                id: DeliveryId, gap: Time, deadline: Time)
    requires Waiting(s, id, gap, deadline) && t <= s.clock < t + MINUTE
    requires TakesDue(s.db, t, limit, {}, taken) && |DueIds(s.db, t)| <= limit && taken <= s.db.deliveries.Keys
    ensures Waiting(Taking(s, taken, t).(lastClaim := Max(s.lastClaim, t)), id, gap, deadline)
  {
    TakesAllThatFit(s.db, t, limit, taken);
    if id in s.db.deliveries {
      var d := s.db.deliveries[id];
      if id in taken {
        TakenRowWaits(d, s, t, Max(s.lastClaim, t), gap, deadline);
      } else {
        SkippedRowWaits(d, s, t, gap, deadline);
      }
    }
  }

  lemma {:induction false} SettlingKeepsWaiting(s: System, step: Step, s': System, id: DeliveryId, gap: Time,
                                                deadline: Time)
    requires Waiting(s, id, gap, deadline) && Next(s, step, s') && OnPace(s, step, gap)
    requires step.MarkDelivered? || step.MarkFailed? || step.RejectUnregistered?
    requires Holds(s, step.token)
    ensures Waiting(s', id, gap, deadline)
  {
    if step.token.id == id && step.MarkFailed? {
      FailedRowWaits(s.db.deliveries[id], s, step.t, step.error, gap, deadline);
    }
  }

  lemma {:induction false} FailAbandonedKeepsWaiting(s: System, t: Time, id: DeliveryId, gap: Time, deadline: Time)
    requires Waiting(s, id, gap, deadline) && t <= s.clock
    ensures Waiting(s.(db := GiveUp(s.db, t), lastFail := Max(s.lastFail, t)), id, gap, deadline)
  {
    if id in s.db.deliveries {
      GivenUpRowWaits(s.db.deliveries[id], s, t, gap, deadline);
    }
  }

  /** One step on pace keeps the deadline of a stored delivery, unless the staff resets it. */
  lemma {:induction false} StepKeepsWaiting(s: System, step: Step, s': System, id: DeliveryId, gap: Time,
                                            deadline: Time)
    requires Inv(s) && Waiting(s, id, gap, deadline) && Next(s, step, s') && OnPace(s, step, gap)
    requires id in s.db.deliveries && !Resets(step, id)
    ensures Waiting(s', id, gap, deadline)
  {
    match step
    case Claim(taken, t) => ClaimKeepsWaiting(s, taken, t, id, gap, deadline);
    case ClaimDue(limit, skipped, taken, t) =>
      DueAreClaimable(s.db, t, limit, skipped, taken);
      ClaimDueKeepsWaiting(s, limit, taken, t, id, gap, deadline);
    case FailAbandoned(t) => FailAbandonedKeepsWaiting(s, t, id, gap, deadline);
    case MarkDelivered(token, _) => HolderHolds(s, token); SettlingKeepsWaiting(s, step, s', id, gap, deadline);
    case MarkFailed(token, _, _) => HolderHolds(s, token); SettlingKeepsWaiting(s, step, s', id, gap, deadline);
    case RejectUnregistered(token, _, _) => HolderHolds(s, token); SettlingKeepsWaiting(s, step, s', id, gap, deadline);
    case _ => assert id in s'.db.deliveries ==> s'.db.deliveries[id] == s.db.deliveries[id];
  }

  lemma {:induction false} HolderHolds(s: System, token: Token)
    requires OneHolder(s) && Live(s, token)
    ensures Holds(s, token)
  {
  }

  /** The staff leaves the delivery alone from state `from` to state `to`. */
  ghost predicate NotReset(steps: seq<Step>, from: nat, to: nat, id: DeliveryId)
    requires from <= to <= |steps|
  {
    forall i | from <= i < to :: !Resets(steps[i], id)
  }

  ghost predicate RunOnPace(states: seq<System>, steps: seq<Step>, gap: Time)
    requires Run(states, steps)
  {
    && InPace(states[0], gap)
    && forall i | 0 <= i < |steps| :: OnPace(states[i], steps[i], gap)
  }

  /** The three steps of a look of the retry job, after which the clock goes on. */
  function Look(s: System, gap: Time): seq<Step> {
    [FailAbandoned(s.clock),
     ClaimDue(|DueIds(GiveUp(s.db, s.clock), s.clock)|, {}, DueIds(GiveUp(s.db, s.clock), s.clock), s.clock),
     Tick(s.clock + gap)]
  }

  /**
   * The pace never blocks a run: from any state on it, the job looks, with a batch large enough, and then the clock may
   * go on by the whole gap.
   */
  lemma {:induction false} PaceNeverBlocks(s: System, gap: Time) returns (looked: System, taken: System, later: System)
    requires InPace(s, gap) && 0 <= gap
    ensures var steps := Look(s, gap);
      && Next(s, steps[0], looked) && OnPace(s, steps[0], gap)
      && Next(looked, steps[1], taken) && OnPace(looked, steps[1], gap)
      && Next(taken, steps[2], later) && OnPace(taken, steps[2], gap)
    ensures InPace(later, gap) && later.clock == s.clock + gap
  {
    var t := s.clock;
    looked := s.(db := GiveUp(s.db, t), lastFail := Max(s.lastFail, t));
    var due := DueIds(looked.db, t);
    assert due - {} == due;
    taken := Taking(looked, due, t).(lastClaim := Max(looked.lastClaim, t));
    later := taken.(clock := t + gap);
  }

  lemma {:induction false} PaceHolds(states: seq<System>, steps: seq<Step>, i: nat, gap: Time)
    requires Run(states, steps) && RunOnPace(states, steps, gap) && i < |states|
    ensures InPace(states[i], gap)
  {
    if i == 0 {
    } else {
      PaceHolds(states, steps, i - 1, gap);
      StepOf(states, steps, i - 1, states[i - 1], steps[i - 1], states[i]);
    }
  }

  /** The run goes on pace from state `i` to the next one, and both are safe. */
  lemma {:induction false} StepOfRun(states: seq<System>, steps: seq<Step>, i: nat, gap: Time, s: System, step: Step,
                                     s': System)
    requires Run(states, steps) && RunOnPace(states, steps, gap) && i < |steps|
    requires s == states[i] && step == steps[i] && s' == states[i + 1]
    ensures Inv(s) && Next(s, step, s') && OnPace(s, step, gap)
  {
    RunIsSafe(states, steps, i);
    StepOf(states, steps, i, s, step, s');
  }

  lemma {:induction false} WaitsNext(states: seq<System>, steps: seq<Step>, i: nat, id: DeliveryId, gap: Time,
                                     deadline: Time)
    requires Run(states, steps) && RunOnPace(states, steps, gap) && i < |steps|
    requires Waiting(states[i], id, gap, deadline) && !Resets(steps[i], id) && id in states[i].db.deliveries
    ensures Waiting(states[i + 1], id, gap, deadline)
  {
    StepOfRun(states, steps, i, gap, states[i], steps[i], states[i + 1]);
    StepKeepsWaiting(states[i], steps[i], states[i + 1], id, gap, deadline);
  }

  /** From state `from` to state `to` the delivery is there, and the staff leaves it alone. */
  ghost predicate Untouched(states: seq<System>, steps: seq<Step>, from: nat, to: nat, id: DeliveryId)
    requires from <= to <= |steps| && to <= |states|
  {
    forall i | from <= i < to :: !Resets(steps[i], id) && id in states[i].db.deliveries
  }

  lemma {:induction false} WaitsFrom(
    states: seq<System>, steps: seq<Step>, from: nat, now: nat, id: DeliveryId, gap: Time, deadline: Time)
    requires Run(states, steps) && RunOnPace(states, steps, gap) && from <= now <= |steps|
    requires Waiting(states[from], id, gap, deadline) && Untouched(states, steps, from, now, id)
    ensures Waiting(states[now], id, gap, deadline)
    decreases now
  {
    if from == now {
    } else {
      var before := now - 1;
      assert !Resets(steps[before], id) && id in states[before].db.deliveries;
      assert Untouched(states, steps, from, before, id);
      WaitsFrom(states, steps, from, before, id, gap, deadline);
      WaitsNext(states, steps, before, id, gap, deadline);
    }
  }

  /**
   * Every delivery stored at `t` is DELIVERED or FAILED by `t` + 1382 minutes + 9 gaps: in no state of the run, as long
   * as the staff does not reset it, is it pending at that time or later.
   */
  lemma {:induction false} SettledInTime(states: seq<System>, steps: seq<Step>, saved: nat, now: nat, id: DeliveryId,
                                         gap: Time)
    requires Run(states, steps) && 0 <= gap && RunOnPace(states, steps, gap) && saved < now < |states|
    requires steps[saved].Save? && id !in states[saved].db.deliveries
    requires forall i | saved < i <= now :: id in states[i].db.deliveries
    requires NotReset(steps, saved, now, id)
    ensures states[now].clock >= steps[saved].t + 1382 * MINUTE + 9 * gap ==>
              states[now].db.deliveries[id].status in {Delivered, Failed}
  {
    var deadline := steps[saved].t + 1382 * MINUTE + 9 * gap;
    BoundOfNew(gap);
    PaceHolds(states, steps, saved, gap);
    StepOf(states, steps, saved, states[saved], steps[saved], states[saved + 1]);
    WaitsFrom(states, steps, saved + 1, now, id, gap, deadline);
  }
}
