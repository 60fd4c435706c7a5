/**
 * What `MarkDelivered` and `MarkFailedAttempt` do at any instant, in time or late: when they keep the invariant of the
 * protocol, what goes wrong when they do not, and a check of the row that lets a holder settle whenever it wants.
 */
module LateSettlements {
  import opened Wrappers
  import opened EventRetries
  import opened EventOutbox
  import opened DeliveryProtocol

  // ---- One settlement ----

  /** Another holder of the same delivery may still settle. */
  ghost predicate HeldByAnother(s: System, token: Token) {
    exists k <- s.holders :: k != token && Live(s, k) && k.id == token.id
  }

  /**
   * A settlement as delivered at any instant, in time or late, keeps the invariant exactly when nobody else holds the
   * delivery then.
   */
  lemma {:induction false} LateDelivered(s: System, token: Token, t: Time)
    requires Inv(s) && token in s.holders && token.id in s.db.deliveries && s.holders[token].phase == Returned
    ensures Inv(Settling(s, token, Settled(s.db.deliveries[token.id], t))) <==> !HeldByAnother(s, token)
  {
    var row := Settled(s.db.deliveries[token.id], t);
    LateRewrite(s, token, row);
  }

  /**
   * A failed attempt recorded at any instant keeps the invariant exactly when nobody else holds the delivery and it
   * does not free the lock of a pending row that has no attempts left; and it leaves DELIVERED exactly when it was the
   * last attempt and someone delivered it meanwhile.
   */
  lemma {:induction false} LateFailure(s: System, token: Token, t: Time, error: string)
    requires Inv(s) && token in s.holders && token.id in s.db.deliveries
    ensures var d := s.db.deliveries[token.id];
      var row := AfterFailure(d, s.holders[token].attempts, t, error);
      var last := s.holders[token].attempts >= MAX_DELIVERY_ATTEMPTS;
      && (Inv(Settling(s, token, row)) <==>
            && !HeldByAnother(s, token)
            && !(d.status == Pending && d.attempts == MAX_DELIVERY_ATTEMPTS && !last))
      && (d.status == Delivered && row.status != Delivered <==> d.status == Delivered && last)
  {
    var row := AfterFailure(s.db.deliveries[token.id], s.holders[token].attempts, t, error);
    LateRewrite(s, token, row);
  }

  lemma {:induction false} LateRewrite(s: System, token: Token, row: Delivery)
    requires Inv(s) && token in s.holders && token.id in s.db.deliveries
    requires SamePair(row, s.db.deliveries[token.id]) && row.lockedUntil.None?
    requires row.status == Delivered ==> Ran(s, token.id)
    ensures Inv(Settling(s, token, row)) <==> RowOk(row) && !HeldByAnother(s, token)
  {
    var s' := Settling(s, token, row);
    assert s'.db.deliveries[token.id] == row;
    if HeldByAnother(s, token) {
      var k :| k in s.holders && k != token && Live(s, k) && k.id == token.id;
      assert Live(s', k) && !Holds(s', k);
    } else if RowOk(row) {
      SettlingIsSafe(s, token, row);
    }
  }

  /**
   * What the row itself tells: free, or with the lease of this holder, nobody else holds the delivery. A settlement
   * that checked its lease would need no hypothesis.
   */
  lemma {:induction false} TheRowTells(s: System, token: Token)
    requires Inv(s) && token in s.holders && token.id in s.db.deliveries
    requires var d := s.db.deliveries[token.id];
             d.status != Pending || Free(d, s.clock) || d.lockedUntil == Some(s.holders[token].until)
    ensures !HeldByAnother(s, token)
  {
  }

  // ---- What follows a settlement outside the condition ----

  /** Two holders of one delivery may both still settle. */
  ghost predicate TwoHold(s: System, id: DeliveryId) {
    exists a <- s.holders, b <- s.holders :: a != b && Live(s, a) && Live(s, b) && a.id == id && b.id == id
  }

  /** A pending delivery without attempts left, without a lock and without a holder who may still settle. */
  ghost predicate Stranded(s: System, id: DeliveryId) {
    && id in s.db.deliveries
    && s.db.deliveries[id].status == Pending && s.db.deliveries[id].attempts == MAX_DELIVERY_ATTEMPTS
    && s.db.deliveries[id].lockedUntil.None?
    && forall k <- s.holders :: Live(s, k) ==> k.id != id
  }

  /** A delivery that can be taken is taken while somebody holds it. */
  lemma {:induction false} TakenTwice(s: System, other: Token) returns (after: System)
    requires Live(s, other) && Token(other.id, s.claims) !in s.holders
    requires other.id in s.db.deliveries && Claimable(s.db.deliveries[other.id], s.clock)
    ensures Next(s, Claim(other.id, s.clock), after) && TwoHold(after, other.id)
  {
    after := Taking(s, {other.id}, s.clock);
    var third := Token(other.id, s.claims);
    assert Live(after, other) && Live(after, third) && other != third;
  }

  /**
   * Wherever a failure recorded late breaks the invariant, at most two more steps end with two holders of the delivery
   * who may both settle, or leave it stranded.
   */
  lemma {:induction false} LateFailureHarms(s: System, token: Token, t: Time, error: string, late: System)
    returns (first: Step, between: System, second: Step, after: System)
    requires Inv(s) && token in s.holders && token.id in s.db.deliveries && t <= s.clock
    requires late ==
             Settling(s, token, AfterFailure(s.db.deliveries[token.id], s.holders[token].attempts, t, error))
    requires !Inv(late)
    ensures Next(late, first, between) && Next(between, second, after)
    ensures TwoHold(after, token.id) || Stranded(after, token.id)
  {
    LateFailure(s, token, t, error);
    var last := s.holders[token].attempts >= MAX_DELIVERY_ATTEMPTS;
    if s.db.deliveries[token.id].attempts == MAX_DELIVERY_ATTEMPTS && !last {
      first, between, second, after := LateFailureStrands(s, token, late);
    } else {
      var other :| other in s.holders && other != token && Live(s, other) && other.id == token.id;
      assert Holds(s, other);
      first, between, second, after := FreedIsTaken(late, other);
    }
  }

  /** The row lost its lock beside a holder: it is taken as it is, or once the staff reset it. */
  lemma {:induction false} FreedIsTaken(s: System, other: Token)
    returns (first: Step, between: System, second: Step, after: System)
    requires Live(s, other) && Token(other.id, s.claims) !in s.holders && other.id in s.db.deliveries
    requires s.db.deliveries[other.id].status == Failed || Claimable(s.db.deliveries[other.id], s.clock)
    ensures Next(s, first, between) && Next(between, second, after) && TwoHold(after, other.id)
  {
    first, between := Tick(s.clock), s;
    if s.db.deliveries[other.id].status == Failed {
      first, between := Retry({other.id}, s.clock), s.(db := Reset(s.db, {other.id}, s.clock));
    }
    second := Claim(other.id, s.clock);
    after := TakenTwice(between, other);
  }

  /** The row has no attempts left and lost its lock: once whoever held it dies, it is stranded. */
  lemma {:induction false} LateFailureStrands(s: System, token: Token, late: System)
    returns (first: Step, between: System, second: Step, after: System)
    requires OneHolder(s) && token.id in late.db.deliveries
    requires late.clock == s.clock && late.holders == s.holders - {token}
    requires var d := late.db.deliveries[token.id];
             d.status == Pending && d.attempts == MAX_DELIVERY_ATTEMPTS && d.lockedUntil.None?
    ensures Next(late, first, between) && Next(between, second, after) && Stranded(after, token.id)
  {
    first, between := Tick(late.clock), late;
    second, after := first, late;
    if other :| other in late.holders && Live(late, other) && other.id == token.id {
      second, after := Die(other), late.(holders := late.holders - {other});
      forall k <- after.holders | Live(after, k) ensures k.id != token.id {
        assert Live(s, k) && Live(s, other);
      }
    }
  }

  /** What ends the run of a holder that did not return yet, and records its failure. */
  lemma {:induction false} FailsAfter(s: System, other: Token, error: string)
    returns (first: Step, between: System, second: Step, after: System)
    requires Live(s, other) && other.id in s.db.deliveries && s.holders[other].phase != Returned
    ensures Next(s, first, between) && Next(between, second, after) && second == MarkFailed(other, s.clock, error)
    ensures after.db == Rewrite(s.db, other.id,
              AfterFailure(s.db.deliveries[other.id], s.holders[other].attempts, s.clock, error))
  {
    first, between := Tick(s.clock), s;
    if s.holders[other].phase == Running {
      first, between := HandlerThrows(other), Ending(s, other, Threw);
    }
    second := MarkFailed(other, s.clock, error);
    after := Settling(between, other,
      AfterFailure(s.db.deliveries[other.id], s.holders[other].attempts, s.clock, error));
  }

  /**
   * Wherever a success recorded late breaks the invariant, somebody else holds the delivery, and the settlement of that
   * one, in time, changes the delivered row: to FAILED exactly when its handler did not return and it has the last
   * attempt.
   */
  lemma {:induction false} LateSuccessHarms(s: System, token: Token, t: Time, late: System)
    returns (other: Token, first: Step, between: System, second: Step, after: System)
    requires Inv(s) && token in s.holders && token.id in s.db.deliveries && s.holders[token].phase == Returned
    requires late == Settling(s, token, Settled(s.db.deliveries[token.id], t)) && !Inv(late)
    ensures other != token && Live(s, other) && other.id == token.id
    ensures Next(late, first, between) && Next(between, second, after)
    ensures late.db.deliveries[token.id].status == Delivered
    ensures token.id in after.db.deliveries && after.db.deliveries[token.id] != late.db.deliveries[token.id]
    ensures after.db.deliveries[token.id].status == Failed <==>
              s.holders[other].phase != Returned && s.holders[other].attempts == MAX_DELIVERY_ATTEMPTS
  {
    LateDelivered(s, token, t);
    other :| other in s.holders && other != token && Live(s, other) && other.id == token.id;
    assert Holds(s, other);
    if s.holders[other].phase == Returned {
      first, between, second, after := ReturnsAfter(late, other);
    } else {
      first, between, second, after := FailsAfter(late, other, "It failed");
    }
  }

  /** What records the success of a holder that returned, at another instant than the one in the row. */
  lemma {:induction false} ReturnsAfter(s: System, other: Token)
    returns (first: Step, between: System, second: Step, after: System)
    requires Live(s, other) && other.id in s.db.deliveries && s.holders[other].phase == Returned
    requires s.db.deliveries[other.id].deliveredAt.Some?
    ensures Next(s, first, between) && Next(between, second, after)
    ensures other.id in after.db.deliveries && after.db.deliveries[other.id] != s.db.deliveries[other.id]
    ensures after.db.deliveries[other.id].status == Delivered
  {
    var t := s.db.deliveries[other.id].deliveredAt.value;
    var now := if t > s.clock then s.clock else t - 1;
    first, between := Tick(s.clock), s;
    second := MarkDelivered(other, now);
    after := Settling(s, other, Settled(s.db.deliveries[other.id], now));
  }

  // ---- Settlements that check the row ----

  /** The row still has the lease and the attempt of the holder. */
  ghost predicate RowIsOwn(s: System, token: Token) {
    && token in s.holders && token.id in s.db.deliveries
    && var d := s.db.deliveries[token.id];
       && d.status == Pending && d.attempts == s.holders[token].attempts
       && d.lockedUntil == Some(s.holders[token].until)
  }

  /** A failed attempt recorded only where the row still has the lease and the attempt of the holder does no harm. */
  lemma {:induction false} CheckedFailureIsSafe(s: System, token: Token, t: Time, error: string)
    requires Inv(s) && RowIsOwn(s, token)
    ensures Inv(Settling(s, token, AfterFailure(s.db.deliveries[token.id], s.holders[token].attempts, t, error)))
  {
    TheRowTells(s, token);
    LateFailure(s, token, t, error);
  }

  /** A settlement at any instant, in time or late, that goes through only where the row is still the holder's. */
  ghost predicate SettlesChecked(s: System, step: Step, s': System) {
    match step
    case MarkDelivered(token, t) =>
      && RowIsOwn(s, token) && s.holders[token].phase == Returned
      && s' == Settling(s, token, Settled(s.db.deliveries[token.id], t))
    case MarkFailed(token, t, error) =>
      && RowIsOwn(s, token) && s.holders[token].phase == Threw
      && s' == Settling(s, token, AfterFailure(s.db.deliveries[token.id], s.holders[token].attempts, t, error))
    case RejectUnregistered(token, t, error) =>
      && RowIsOwn(s, token) && s.holders[token].phase == Running
      && s' == Settling(s, token, AfterFailure(s.db.deliveries[token.id], MAX_DELIVERY_ATTEMPTS, t, error))
    case _ => false
  }

  /** In time, the row is always the holder's: the check refuses nothing that the protocol lets through. */
  lemma {:induction false} InTimeIsOwn(s: System, token: Token)
    requires Inv(s) && InTime(s, token)
    ensures RowIsOwn(s, token)
  {
    assert Holds(s, token);
  }

  lemma {:induction false} CheckedSettlementIsSafe(s: System, step: Step, s': System)
    requires Inv(s) && SettlesChecked(s, step, s')
    ensures Inv(s')
  {
    TheRowTells(s, step.token);
    match step
    case MarkDelivered(token, t) => LateDelivered(s, token, t);
    case MarkFailed(token, t, error) => CheckedFailureIsSafe(s, token, t, error);
    case RejectUnregistered(token, t, error) =>
      LateRewrite(s, token, AfterFailure(s.db.deliveries[token.id], MAX_DELIVERY_ATTEMPTS, t, error));
  }

  /** A run whose settlements check the row instead of being in time. */
  ghost predicate CheckedRun(states: seq<System>, steps: seq<Step>) {
    && |states| == |steps| + 1 && Start(states[0])
    && forall i | 0 <= i < |steps| :: GoesChecked(states, steps, i)
  }

  ghost predicate GoesChecked(states: seq<System>, steps: seq<Step>, i: nat)
    requires i < |steps| && |states| == |steps| + 1
  {
    Goes(states, steps, i) || SettlesChecked(states[i], steps[i], states[i + 1])
  }

  /** With the check there is no hypothesis: every state of every such run satisfies the invariant. */
  lemma {:induction false} CheckedRunIsSafe(states: seq<System>, steps: seq<Step>, i: nat)
    requires CheckedRun(states, steps) && i < |states|
    ensures Inv(states[i])
  {
    if i == 0 {
      StartIsSafe(states[0]);
    } else {
      CheckedRunIsSafe(states, steps, i - 1);
      assert GoesChecked(states, steps, i - 1);
      CheckedStepIsSafe(states[i - 1], steps[i - 1], states[i]);
    }
  }

  lemma {:induction false} CheckedStepIsSafe(s: System, step: Step, s': System)
    requires Inv(s) && (Next(s, step, s') || SettlesChecked(s, step, s'))
    ensures Inv(s')
  {
    if Next(s, step, s') {
      StepIsSafe(s, step, s');
    } else {
      CheckedSettlementIsSafe(s, step, s');
    }
  }

  // ---- Runs in which a late settlement does harm ----

  /** Some run ends in this state. */
  ghost predicate Reachable(s: System) {
    exists states, steps :: Run(states, steps) && states[|steps|] == s
  }

  lemma {:induction false} ReachesOn(s: System, step: Step, s': System)
    requires Reachable(s) && Next(s, step, s')
    ensures Reachable(s')
  {
    var states, steps :| Run(states, steps) && states[|steps|] == s;
    RunGoesOn(states, steps, step, s');
    assert (states + [s'])[|steps + [step]|] == s';
  }

  const ONE_EVENT: seq<EventToStore> := [EventToStore(Event(3, "OrderPlaced", 0), ["Mail.send"])]

  /** A state whose only delivery is number 7. */
  ghost predicate One(s: System, row: Delivery, tokens: set<Token>) {
    && s.db.deliveries.Keys == {7} && s.db.deliveries[7] == row
    && s.holders.Keys == tokens
  }

  lemma {:induction false} OneEventIsSaved(before: Database, after: Database, row: Delivery)
    requires before == Database(map[], map[]) && row == NewDelivery(3, "Mail.send", 0)
    requires after == Database(map[3 := ONE_EVENT[0].event], map[7 := row])
    ensures Saved(before, after, ONE_EVENT, 0)
  {
    assert ONE_EVENT[0].handlers == ["Mail.send"] && ONE_EVENT[0].handlers[0] == "Mail.send";
    assert HandledIds(ONE_EVENT) == {3};
    assert forall e, h :: Wanted(ONE_EVENT, e, h) <==> e == 3 && h == "Mail.send";
    assert before.deliveries.Keys == {} && after.deliveries.Keys == {7};
  }

  /** The event is stored at instant 0. */
  lemma {:induction false} SavingOneEvent() returns (s: System)
    ensures Reachable(s) && One(s, NewDelivery(3, "Mail.send", 0), {}) && s.clock == 0 && s.claims == 0
  {
    var row := NewDelivery(3, "Mail.send", 0);
    var s0 := System(Database(map[], map[]), map["OrderPlaced" := ["Mail.send"]], 0, map[], 0, map[], {}, 0, 0);
    var db := Database(map[3 := ONE_EVENT[0].event], map[7 := row]);
    s := s0.(db := db, wanted := Wanting(s0.wanted, ONE_EVENT));
    OneEventIsSaved(s0.db, db, row);
    var none: seq<Step> := [];
    assert Run([s0], none) && [s0][|none|] == s0;
    ReachesOn(s0, Save(ONE_EVENT, 0), s);
  }

  /** Someone takes the only delivery. */
  lemma {:induction false} TakingOne(s: System, row: Delivery, tokens: set<Token>) returns (s': System)
    requires One(s, row, tokens) && Claimable(row, s.clock)
    requires Token(7, s.claims) !in tokens
    ensures Next(s, Claim(7, s.clock), s') && s' == Taking(s, {7}, s.clock)
    ensures One(s', Held(row, s.clock), tokens + {Token(7, s.claims)})
    ensures s'.clock == s.clock && s'.claims == s.claims + 1
    ensures s'.holders[Token(7, s.claims)] == Holder(row.attempts + 1, s.clock + DELIVERY_LEASE, Running)
    ensures forall k <- tokens :: s'.holders[k] == s.holders[k]
  {
    s' := Taking(s, {7}, s.clock);
    assert (set id | id in {7} :: Token(id, s.claims)) == {Token(7, s.claims)};
  }

  /** The same in a run; then its handler throws. */
  lemma {:induction false} TakenAndThrown(s: System, row: Delivery) returns (s': System, token: Token)
    requires Reachable(s) && One(s, row, {}) && Claimable(row, s.clock)
    ensures Reachable(s') && One(s', Held(row, s.clock), {token}) && token == Token(7, s.claims)
    ensures s'.clock == s.clock && s'.claims == s.claims + 1
    ensures s'.holders[token] == Holder(row.attempts + 1, s.clock + DELIVERY_LEASE, Threw)
  {
    token := Token(7, s.claims);
    var taken := TakingOne(s, row, {});
    ReachesOn(s, Claim(7, s.clock), taken);
    s' := Ending(taken, token, Threw);
    ReachesOn(taken, HandlerThrows(token), s');
  }

  /** A delivery that failed its first `n` attempts, each in time, and that nobody holds. */
  lemma {:induction false} FailsInTurn(n: nat) returns (s: System, row: Delivery)
    requires n < MAX_DELIVERY_ATTEMPTS
    ensures Reachable(s) && One(s, row, {}) && s.clock == 0
    ensures row.status == Pending && row.attempts == n && row.lockedUntil == None
    ensures row.eventId == 3 && row.handler == "Mail.send"
  {
    if n == 0 {
      s := SavingOneEvent();
      row := NewDelivery(3, "Mail.send", 0);
    } else {
      var before, waiting := FailsInTurn(n - 1);
      var held, token := TakenAndThrown(before, waiting);
      row := AfterFailure(Held(waiting, 0), n, 0, "It failed");
      s := Settling(held, token, row);
      ReachesOn(held, MarkFailed(token, 0, "It failed"), s);
    }
  }

  /** The lease of the only holder ends. */
  lemma {:induction false} LeaseEnds(s: System, token: Token) returns (s': System)
    requires Reachable(s) && token in s.holders && s.clock <= s.holders[token].until
    ensures Reachable(s') && s' == s.(clock := s.holders[token].until)
  {
    s' := s.(clock := s.holders[token].until);
    ReachesOn(s, Tick(s.holders[token].until), s');
  }

  /** The holder of attempt `n`, whose handler threw, is late by nothing: its lease just ended. */
  lemma {:induction false} LateAt(n: nat) returns (s: System, row: Delivery, token: Token)
    requires 0 < n <= MAX_DELIVERY_ATTEMPTS
    ensures Reachable(s) && One(s, row, {token}) && token.id == 7 && token.number < s.claims
    ensures s.clock == DELIVERY_LEASE
    ensures s.holders[token] == Holder(n, DELIVERY_LEASE, Threw)
    ensures row.status == Pending && row.attempts == n && row.lockedUntil == Some(DELIVERY_LEASE)
    ensures row.eventId == 3 && row.handler == "Mail.send"
  {
    var free, waiting := FailsInTurn(n - 1);
    var held;
    held, token := TakenAndThrown(free, waiting);
    row := Held(waiting, 0);
    s := LeaseEnds(held, token);
  }

  /** Another one takes it then, while the late one may still write. */
  lemma {:induction false} TakenOver(n: nat) returns (s: System, row: Delivery, token: Token, other: Token)
    requires 0 < n < MAX_DELIVERY_ATTEMPTS
    ensures Reachable(s) && One(s, row, {token, other}) && token != other && s.clock == DELIVERY_LEASE
    ensures token.id == other.id == 7 && token.number < s.claims && other.number < s.claims
    ensures s.holders[token] == Holder(n, DELIVERY_LEASE, Threw)
    ensures s.holders[other] == Holder(n + 1, DELIVERY_LEASE + DELIVERY_LEASE, Running)
    ensures row.status == Pending && row.attempts == n + 1 && row.lockedUntil == Some(DELIVERY_LEASE + DELIVERY_LEASE)
  {
    var before, held;
    before, held, token := LateAt(n);
    other := Token(7, before.claims);
    s := TakingOne(before, held, {token});
    ReachesOn(before, Claim(7, before.clock), s);
    row := Held(held, before.clock);
  }

  /**
   * The hypothesis is needed: a run in which one holder settles the moment its lease ends, after another took the
   * delivery, and then a third one takes it while the second still holds it.
   */
  lemma {:induction false} LateSettlementBreaksExclusion()
    returns (s: System, token: Token, second: Token, third: Token, late: System, after: System)
    ensures Reachable(s) && token in s.holders && 7 in s.db.deliveries && s.clock == s.holders[token].until
    ensures late == Settling(s, token, AfterFailure(s.db.deliveries[7], 1, s.clock, "late"))
    ensures Next(late, Claim(7, s.clock), after)
    ensures second != third && second.id == third.id == 7 && Live(after, second) && Live(after, third)
  {
    var row;
    s, row, token, second := TakenOver(1);
    late := Settling(s, token, AfterFailure(s.db.deliveries[7], 1, s.clock, "late"));
    third := Token(7, late.claims);
    after := TakingOne(late, late.db.deliveries[7], {second});
  }

  /**
   * A late settlement of the seventh attempt, after the process that took the eighth died, leaves the delivery
   * stranded.
   */
  lemma {:induction false} LateSettlementStrandsARow() returns (s: System, token: Token, late: System)
    ensures Reachable(s) && token in s.holders && 7 in s.db.deliveries && s.clock == s.holders[token].until
    ensures late == Settling(s, token, AfterFailure(s.db.deliveries[7], 7, s.clock, "late")) && Stranded(late, 7)
    ensures late.holders == map[]
  {
    var held, row, other;
    held, row, token, other := TakenOver(7);
    s := held.(holders := held.holders - {other});
    ReachesOn(held, Die(other), s);
    late := Settling(s, token, AfterFailure(s.db.deliveries[7], 7, s.clock, "late"));
  }

  /** No step takes it, fails it, resets it or deletes it. */
  lemma {:induction false} StrandedStays(s: System, step: Step, s': System, id: DeliveryId)
    requires Stranded(s, id) && Next(s, step, s')
    ensures Stranded(s', id) && s'.db.deliveries[id] == s.db.deliveries[id]
  {
    match step
    case Save(_, _) =>
    case Claim(_, _) =>
    case ClaimDue(limit, skipped, taken, t) => DueAreClaimable(s.db, t, limit, skipped, taken);
    case MarkDelivered(token, _) =>
    case MarkFailed(token, _, _) =>
    case RejectUnregistered(token, _, _) =>
    case FailAbandoned(_) =>
    case Retry(_, _) =>
    case Cleanup(_, _, _) =>
    case _ =>
  }

  /** So it is pending for ever, however the run goes on. */
  lemma {:induction false} StrandedForEver(states: seq<System>, steps: seq<Step>, i: nat, id: DeliveryId)
    requires |states| == |steps| + 1 && (forall j | 0 <= j < |steps| :: Goes(states, steps, j)) && i < |states|
    requires Stranded(states[0], id)
    ensures Stranded(states[i], id)
  {
    if i == 0 {
    } else {
      StrandedForEver(states, steps, i - 1, id);
      assert Goes(states, steps, i - 1);
      StrandedStays(states[i - 1], steps[i - 1], states[i], id);
    }
  }

  /** The staff resets a delivery whose last attempt was abandoned, and it is delivered. */
  lemma {:induction false} DeliveredAgain(s: System, row: Delivery, token: Token) returns (s': System)
    requires Reachable(s) && One(s, row, {token}) && token.id == 7 && token.number < s.claims && Abandoned(row, s.clock)
    ensures Reachable(s') && s'.holders.Keys == {token} && s'.holders[token] == s.holders[token] && s'.clock == s.clock
    ensures 7 in s'.db.deliveries && s'.db.deliveries[7].status == Delivered
  {
    var t := s.clock;
    var failed := s.(db := GiveUp(s.db, t), lastFail := Max(s.lastFail, t));
    ReachesOn(s, FailAbandoned(t), failed);
    var reset := failed.(db := Reset(failed.db, {7}, t));
    ReachesOn(failed, Retry({7}, t), reset);
    var again := PendingAgain(GivenUp(row), t);
    var taken := TakingOne(reset, again, {token});
    ReachesOn(reset, Claim(7, t), taken);
    s' := DeliversNow(taken, Held(again, t), token, Token(7, reset.claims));
  }

  lemma {:induction false} DeliversNow(s: System, row: Delivery, token: Token, other: Token) returns (s': System)
    requires Reachable(s) && One(s, row, {token, other}) && token != other && other.id == 7
    requires s.holders[other].phase == Running && s.clock < s.holders[other].until
    ensures Reachable(s') && s'.holders.Keys == {token} && s'.holders[token] == s.holders[token] && s'.clock == s.clock
    ensures 7 in s'.db.deliveries && s'.db.deliveries[7].status == Delivered
  {
    var ran := Ending(s, other, Returned).(completed := s.completed + Completing(s, 7));
    ReachesOn(s, HandlerReturns(other), ran);
    s' := Settling(ran, other, Settled(row, s.clock));
    ReachesOn(ran, MarkDelivered(other, s.clock), s');
  }

  /** A late settlement of the last attempt fails a delivery that the staff reset and that was delivered meanwhile. */
  lemma {:induction false} LateSettlementFailsADelivered() returns (s: System, token: Token, late: System)
    ensures Reachable(s) && token in s.holders && s.clock == s.holders[token].until
    ensures 7 in s.db.deliveries && s.db.deliveries[7].status == Delivered
    ensures late == Settling(s, token, AfterFailure(s.db.deliveries[7], MAX_DELIVERY_ATTEMPTS, s.clock, "late"))
    ensures late.db.deliveries[7].status == Failed
  {
    var before, row;
    before, row, token := LateAt(MAX_DELIVERY_ATTEMPTS);
    s := DeliveredAgain(before, row, token);
    late := Settling(s, token, AfterFailure(s.db.deliveries[7], MAX_DELIVERY_ATTEMPTS, s.clock, "late"));
  }
}
