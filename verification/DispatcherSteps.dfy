/**
 * What the dispatcher does on its own, as steps of the delivery protocol: a run of the retry job, or a delivery after a
 * commit, whose attempts end before their leases do, while others take steps of the protocol in between.
 */
module DispatcherSteps {
  import opened EventRetries
  import opened EventOutbox
  import opened DeliveryProtocol
  import Dispatcher = DomainEventDispatcher

  // ---- What the steps lead to ----

  ghost predicate LeadsTo(s: System, t: System) {
    exists states, steps :: Path(states, steps) && states[0] == s && states[|steps|] == t
  }

  ghost predicate Path(states: seq<System>, steps: seq<Step>) {
    && |states| == |steps| + 1
    && forall i | 0 <= i < |steps| :: Goes(states, steps, i)
  }

  /** Safe states of the protocol, with all that its steps lead to from them. */
  ghost predicate Closed(reached: System -> bool) {
    && (forall s | reached(s) :: Inv(s))
    && forall s, step, s' {:trigger Next(s, step, s')} | reached(s) && Next(s, step, s') :: reached(s')
  }

  lemma {:induction false} LeadsOn(s: System, t: System, step: Step, t': System)
    requires LeadsTo(s, t) && Next(t, step, t')
    ensures LeadsTo(s, t')
  {
    var states, steps :| Path(states, steps) && states[0] == s && states[|steps|] == t;
    var longer, more := states + [t'], steps + [step];
    forall i | 0 <= i < |more| ensures Goes(longer, more, i) {
      if i < |steps| {
        assert Goes(states, steps, i);
      }
    }
    assert Path(longer, more) && longer[|more|] == t';
  }

  lemma {:induction false} LeadsToIsClosed(s: System)
    requires Inv(s)
    ensures LeadsTo(s, s) && Closed(t => LeadsTo(s, t) && Inv(t))
  {
    var none: seq<Step> := [];
    assert Path([s], none) && [s][|none|] == s;
    forall t, step, t' {:trigger Next(t, step, t')} | LeadsTo(s, t) && Inv(t) && Next(t, step, t')
      ensures LeadsTo(s, t') && Inv(t')
    {
      LeadsOn(s, t, step, t');
      StepIsSafe(t, step, t');
    }
  }

  lemma {:induction false} Reaches(reached: System -> bool, s: System, step: Step, s': System)
    requires reached(s) && Closed(reached) && Next(s, step, s')
    ensures reached(s') && Inv(s')
  {
  }

  // ---- One turn ----

  /** The holder runs the handler of the claim. */
  ghost predicate Holding(s: System, token: Token, next: ClaimedDelivery, until: Time) {
    && token.id == next.id && token in s.holders
    && s.holders[token] == Holder(next.attempts, until, Running)
  }

  /** The state after a turn of the dispatcher. */
  function Played(s: System, token: Token, next: ClaimedDelivery, a: Dispatcher.Attempt, names: set<Handler>): System {
    var handled := next.handler in names;
    var phase := if a.failure.None? then Returned else Threw;
    s.(clock := Max(s.clock, a.endedAt),
       db := Dispatcher.Turn(Dispatcher.Progress(s.db, 0, 0, false), next, a, names).db,
       completed := if handled && phase == Returned then s.completed + Completing(s, token.id) else s.completed,
       holders := if a.recorded then s.holders - {token}
                  else if handled && token in s.holders then Ending(s, token, phase).holders
                  else s.holders)
  }

  /** The handler ends, at an instant within the lease. */
  lemma {:induction false} HandlerLeads(reached: System -> bool, s: System, token: Token, a: Dispatcher.Attempt)
    returns (ran: System)
    requires reached(s) && Closed(reached) && token in s.holders && s.holders[token].phase == Running
    ensures reached(ran)
    ensures var phase := if a.failure.None? then Returned else Threw;
            ran == Ending(s, token, phase).(
              clock := Max(s.clock, a.endedAt),
              completed := if phase == Returned then s.completed + Completing(s, token.id) else s.completed)
  {
    var late := s.(clock := Max(s.clock, a.endedAt));
    Reaches(reached, s, Tick(late.clock), late);
    if a.failure.None? {
      ran := Ending(late, token, Returned).(completed := late.completed + Completing(late, token.id));
      Reaches(reached, late, HandlerReturns(token), ran);
    } else {
      ran := Ending(late, token, Threw);
      Reaches(reached, late, HandlerThrows(token), ran);
    }
  }

  /** A live holder has the row and the attempt it took. */
  lemma {:induction false} RowIsThere(s: System, token: Token)
    requires Inv(s) && Live(s, token)
    ensures InTime(s, token) && s.db.deliveries[token.id].attempts == s.holders[token].attempts
  {
    assert Holds(s, token);
  }

  /** The attempt is recorded. */
  lemma {:induction false} RecordLeads(reached: System -> bool, s: System, token: Token, a: Dispatcher.Attempt)
    returns (t: System)
    requires reached(s) && Closed(reached) && Live(s, token) && a.endedAt <= s.clock
    requires s.holders[token].phase == if a.failure.None? then Returned else Threw
    ensures reached(t) && token.id in s.db.deliveries
    ensures t == Settling(s, token, Dispatcher.After(s.db.deliveries[token.id], s.holders[token].attempts, a))
  {
    RowIsThere(s, token);
    t := Settling(s, token, Dispatcher.After(s.db.deliveries[token.id], s.holders[token].attempts, a));
    var step := if a.failure.None? then MarkDelivered(token, a.endedAt)
                else MarkFailed(token, a.endedAt, a.failure.value);
    Reaches(reached, s, step, t);
  }

  /** Nobody has the handler: the delivery fails for good. */
  lemma {:induction false} RejectLeads(reached: System -> bool, s: System, token: Token, handler: Handler,
                                       endedAt: Time, clock: Time) returns (t: System)
    requires reached(s) && Closed(reached) && clock == Max(s.clock, endedAt)
    requires token in s.holders && clock < s.holders[token].until && s.holders[token].phase == Running
    ensures reached(t) && token.id in s.db.deliveries
    ensures t == Settling(s.(clock := clock), token,
                          Dispatcher.Rejected(s.db.deliveries[token.id], handler, endedAt))
  {
    var late := s.(clock := clock);
    Reaches(reached, s, Tick(clock), late);
    RowIsThere(late, token);
    t := Settling(late, token, Dispatcher.Rejected(s.db.deliveries[token.id], handler, endedAt));
    Reaches(reached, late,
            RejectUnregistered(token, endedAt, "Handler " + handler + " is not registered"), t);
  }

  /** Ending a run and forgetting its holder forgets the holder. */
  lemma {:induction false} ForgetsEnded(holders: map<Token, Holder>, token: Token, ended: Holder)
    requires token in holders
    ensures holders[token := ended] - {token} == holders - {token}
  {
  }

  lemma {:induction false} HandledTurnLeads(reached: System -> bool, s: System, token: Token, next: ClaimedDelivery,
                                            a: Dispatcher.Attempt, names: set<Handler>)
    requires reached(s) && Closed(reached) && token.id == next.id && token in s.holders && next.handler in names
    requires s.holders[token].phase == Running && s.holders[token].attempts == next.attempts
    requires s.clock < s.holders[token].until && a.endedAt < s.holders[token].until
    ensures reached(Played(s, token, next, a, names))
  {
    var t := Played(s, token, next, a, names);
    var ran := HandlerLeads(reached, s, token, a);
    if a.recorded {
      var settled := RecordLeads(reached, ran, token, a);
      ForgetsEnded(s.holders, token, ran.holders[token]);
      assert settled == t;
    } else {
      assert ran == t;
    }
  }

  lemma {:induction false} RejectedTurnLeads(reached: System -> bool, s: System, token: Token, next: ClaimedDelivery,
                                             a: Dispatcher.Attempt, names: set<Handler>)
    requires reached(s) && Closed(reached) && token.id == next.id && token in s.holders && next.handler !in names
    requires s.holders[token].phase == Running
    requires s.clock < s.holders[token].until && a.endedAt < s.holders[token].until
    ensures reached(Played(s, token, next, a, names))
  {
    var t := Played(s, token, next, a, names);
    if a.recorded {
      var rejected := RejectLeads(reached, s, token, next.handler, a.endedAt, t.clock);
      assert rejected == t;
    } else {
      Reaches(reached, s, Tick(t.clock), t);
    }
  }

  /** A turn that ends within the lease is steps of the protocol. */
  lemma {:induction false} TurnLeads(reached: System -> bool, s: System, token: Token, next: ClaimedDelivery,
                                     a: Dispatcher.Attempt, names: set<Handler>, until: Time)
    requires reached(s) && Closed(reached) && Holding(s, token, next, until)
    requires s.clock < until && a.endedAt < until
    ensures reached(Played(s, token, next, a, names))
  {
    if next.handler in names {
      HandledTurnLeads(reached, s, token, next, a, names);
    } else {
      RejectedTurnLeads(reached, s, token, next, a, names);
    }
  }

  // ---- The turns of a run ----

  /**
   * A run of the dispatcher: what it took, under which number and lease; the state in which it took it, and the one
   * before each turn, once others wrote.
   */
  datatype Play = Play(
    claimed: seq<ClaimedDelivery>,
    course: Dispatcher.Course,
    names: set<Handler>,
    number: nat,
    until: Time,
    taken: System,
    between: seq<System>)

  /** The tables and counters after some turns. */
  function After(play: Play, turns: nat): Dispatcher.Progress
    requires turns <= |play.claimed|
  {
    Dispatcher.Turns(Dispatcher.Progress(play.taken.db, 0, 0, false), play.claimed[..turns], play.course, play.names)
  }

  /** The state after some turns, all of them played. */
  function StateAfter(play: Play, turns: nat): System
    requires turns <= |play.claimed| == |play.between|
  {
    if turns == 0 then play.taken
    else
      var next := play.claimed[turns - 1];
      Played(play.between[turns - 1], Token(next.id, play.number), next, play.course.attempts(next.id), play.names)
  }

  /** Others go from one state to another by steps of the protocol, none of which settles what this run took. */
  ghost predicate OthersGo(reached: System -> bool, s: System, t: System, number: nat, until: Time) {
    && (reached(s) ==> reached(t))
    && s.clock <= t.clock < until
    && forall k <- s.holders | k.number == number :: k in t.holders && t.holders[k] == s.holders[k]
  }

  /** As long as the run goes on, others write what its course says, and each attempt ends within its lease. */
  ghost predicate InLease(play: Play, reached: System -> bool) {
    && |play.between| == |play.claimed|
    && (forall i | 0 <= i < |play.claimed| :: play.course.attempts(play.claimed[i].id).endedAt < play.until)
    && forall i: nat | i < |play.claimed| && !After(play, i).ended :: GoesOn(play, reached, i)
  }

  ghost predicate GoesOn(play: Play, reached: System -> bool, i: nat)
    requires i < |play.claimed| == |play.between|
  {
    && OthersGo(reached, StateAfter(play, i), play.between[i], play.number, play.until)
    && play.between[i].db == play.course.others(i + 1, StateAfter(play, i).db)
  }

  /** From some turn on, the run still holds what it took. */
  ghost predicate HoldsFrom(play: Play, s: System, turn: nat) {
    forall i | turn <= i < |play.claimed| ::
      Holding(s, Token(play.claimed[i].id, play.number), play.claimed[i], play.until)
  }

  lemma {:induction false} TurnIsNext(play: Play, turns: nat)
    requires turns < |play.claimed|
    ensures var p, next := After(play, turns), play.claimed[turns];
      After(play, turns + 1) ==
        if p.ended then p
        else Dispatcher.Turn(p.(db := play.course.others(turns + 1, p.db)), next, play.course.attempts(next.id),
                             play.names)
  {
    assert play.claimed[..turns + 1][..turns] == play.claimed[..turns];
  }

  /** A turn leaves the other holders as they are. */
  lemma {:induction false} StillHolds(play: Play, s: System, turn: nat)
    requires turn < |play.claimed| && Distinct(Dispatcher.Ids(play.claimed)) && HoldsFrom(play, s, turn)
    ensures var next := play.claimed[turn];
      HoldsFrom(play, Played(s, Token(next.id, play.number), next, play.course.attempts(next.id), play.names),
                turn + 1)
  {
    forall i | turn < i < |play.claimed| ensures play.claimed[i].id != play.claimed[turn].id {
      assert Dispatcher.Ids(play.claimed)[i] != Dispatcher.Ids(play.claimed)[turn];
    }
  }

  /** The protocol got to the tables of so many turns, and unless an error ended the run, to the state after them. */
  ghost predicate Got(play: Play, reached: System -> bool, turns: nat, t: System)
    requires turns <= |play.claimed| == |play.between|
  {
    && reached(t) && t.db == After(play, turns).db
    && (!After(play, turns).ended ==> t == StateAfter(play, turns) && HoldsFrom(play, t, turns))
  }

  /** The turns of a run lead, by steps of the protocol, to the tables they leave. */
  lemma {:induction false} TurnsLead(play: Play, reached: System -> bool, turns: nat) returns (t: System)
    requires Closed(reached) && reached(play.taken) && InLease(play, reached) && turns <= |play.claimed|
    requires Distinct(Dispatcher.Ids(play.claimed)) && HoldsFrom(play, play.taken, 0)
    ensures Got(play, reached, turns, t)
  {
    if turns == 0 {
      t := play.taken;
    } else {
      var before := TurnsLead(play, reached, turns - 1);
      t := OneMoreLeads(play, reached, turns - 1, before);
    }
  }

  lemma {:induction false} OneMoreLeads(play: Play, reached: System -> bool, turn: nat, before: System)
    returns (t: System)
    requires Closed(reached) && InLease(play, reached) && turn < |play.claimed|
    requires Distinct(Dispatcher.Ids(play.claimed)) && Got(play, reached, turn, before)
    ensures Got(play, reached, turn + 1, t)
  {
    if After(play, turn).ended {
      TurnIsNext(play, turn);
      t := before;
    } else {
      t := NextTurnLeads(play, reached, turn, before);
    }
  }

  lemma {:induction false} OthersKeep(play: Play, reached: System -> bool, s: System, t: System, turn: nat)
    requires OthersGo(reached, s, t, play.number, play.until) && HoldsFrom(play, s, turn)
    ensures HoldsFrom(play, t, turn)
  {
  }

  lemma {:induction false} NextTurnLeads(play: Play, reached: System -> bool, turn: nat, before: System)
    returns (t: System)
    requires Closed(reached) && InLease(play, reached) && turn < |play.claimed| && !After(play, turn).ended
    requires Distinct(Dispatcher.Ids(play.claimed))
    requires reached(before) && before == StateAfter(play, turn) && HoldsFrom(play, before, turn)
    requires before.db == After(play, turn).db
    ensures reached(t) && t == StateAfter(play, turn + 1) && HoldsFrom(play, t, turn + 1)
    ensures t.db == After(play, turn + 1).db
  {
    assert GoesOn(play, reached, turn);
    var s := play.between[turn];
    OthersKeep(play, reached, before, s, turn);
    TurnIsNext(play, turn);
    t := HeldTurnLeads(play, reached, turn, s, After(play, turn).(db := s.db));
  }

  lemma {:induction false} HeldTurnLeads(play: Play, reached: System -> bool, turn: nat, s: System,
                                         p: Dispatcher.Progress) returns (t: System)
    requires Closed(reached) && turn < |play.claimed| && p.db == s.db
    requires Distinct(Dispatcher.Ids(play.claimed)) && reached(s) && HoldsFrom(play, s, turn)
    requires s.clock < play.until && play.course.attempts(play.claimed[turn].id).endedAt < play.until
    ensures var next := play.claimed[turn];
      && t == Played(s, Token(next.id, play.number), next, play.course.attempts(next.id), play.names)
      && t.db == Dispatcher.Turn(p, next, play.course.attempts(next.id), play.names).db
    ensures reached(t) && HoldsFrom(play, t, turn + 1)
  {
    var next := play.claimed[turn];
    var token, a := Token(next.id, play.number), play.course.attempts(next.id);
    assert Holding(s, token, next, play.until);
    TurnLeads(reached, s, token, next, a, play.names, play.until);
    StillHolds(play, s, turn);
    t := Played(s, token, next, a, play.names);
  }

  // ---- Whole runs ----

  /** What the dispatcher just took, it holds. */
  lemma {:induction false} HoldsWhatItTook(play: Play, s: System, now: Time)
    requires OneHolder(s) && IdsOf(play.claimed) <= s.db.deliveries.Keys
    requires play.number == s.claims && play.until == now + DELIVERY_LEASE
    requires play.taken.holders == Taking(s, IdsOf(play.claimed), now).holders
    requires Dispatcher.Claims(Take(s.db, IdsOf(play.claimed), now), play.claimed)
    ensures HoldsFrom(play, play.taken, 0)
  {
    forall i | 0 <= i < |play.claimed|
      ensures Holding(play.taken, Token(play.claimed[i].id, play.number), play.claimed[i], play.until)
    {
      var id := play.claimed[i].id;
      assert id in IdsOf(play.claimed);
      assert Token(id, s.claims) !in s.holders;
    }
  }

  lemma {:induction false} AfterAll(play: Play)
    ensures After(play, |play.claimed|) ==
      Dispatcher.Turns(Dispatcher.Progress(play.taken.db, 0, 0, false), play.claimed, play.course, play.names)
  {
    assert play.claimed[..|play.claimed|] == play.claimed;
  }

  lemma {:induction false} AllTurnsLead(play: Play, reached: System -> bool, s: System, now: Time)
    returns (t: System)
    requires Closed(reached) && reached(play.taken) && InLease(play, reached)
    requires Distinct(Dispatcher.Ids(play.claimed)) && OneHolder(s) && IdsOf(play.claimed) <= s.db.deliveries.Keys
    requires play.number == s.claims && play.until == now + DELIVERY_LEASE
    requires play.taken.holders == Taking(s, IdsOf(play.claimed), now).holders
    requires Dispatcher.Claims(Take(s.db, IdsOf(play.claimed), now), play.claimed)
    ensures reached(t)
    ensures t.db == Dispatcher.Turns(Dispatcher.Progress(play.taken.db, 0, 0, false), play.claimed, play.course,
                                     play.names).db
  {
    HoldsWhatItTook(play, s, now);
    t := TurnsLead(play, reached, |play.claimed|);
    AfterAll(play);
  }

  /** The state in which the retry job gave up what was abandoned. */
  function GaveUp(s: System, now: Time): System { s.(db := GiveUp(s.db, now), lastFail := Max(s.lastFail, now)) }

  /** The state in which the retry job took its batch. */
  function TookDue(s: System, claimed: seq<ClaimedDelivery>, now: Time): System
    requires IdsOf(claimed) <= s.db.deliveries.Keys
  {
    Taking(s, IdsOf(claimed), now).(lastClaim := Max(s.lastClaim, now))
  }

  /**
   * A run of the retry job is steps of the protocol: from any safe state, over whatever steps of others before each of
   * its statements, steps lead to a state with just the tables that the run leaves.
   */
  lemma {:induction false} JobLeads(s: System, due: System, now: Time, skipped: set<DeliveryId>, play: Play)
    returns (t: System)
    requires Inv(s) && now <= s.clock <= due.clock && LeadsTo(GaveUp(s, now), due)
    requires TakesDue(due.db, now, DELIVERY_BATCH_SIZE, skipped, IdsOf(play.claimed))
    requires Distinct(Dispatcher.Ids(play.claimed))
    requires Dispatcher.Claims(Take(due.db, IdsOf(play.claimed), now), play.claimed)
    requires play.number == due.claims && play.until == now + DELIVERY_LEASE
    requires play.taken == TookDue(due, play.claimed, now) && InLease(play, t => LeadsTo(s, t) && Inv(t))
    ensures LeadsTo(s, t)
    ensures t.db == Dispatcher.Turns(Dispatcher.Progress(Take(due.db, IdsOf(play.claimed), now), 0, 0, false),
                                     play.claimed, play.course, play.names).db
  {
    ghost var reached := t => LeadsTo(s, t) && Inv(t);
    LeadsToIsClosed(s);
    Reaches(reached, s, FailAbandoned(now), GaveUp(s, now));
    LeadsThrough(s, GaveUp(s, now), due);
    DueAreClaimable(due.db, now, DELIVERY_BATCH_SIZE, skipped, IdsOf(play.claimed));
    Reaches(reached, due, ClaimDue(DELIVERY_BATCH_SIZE, skipped, IdsOf(play.claimed), now), play.taken);
    t := AllTurnsLead(play, reached, due, now);
  }

  lemma {:induction false} LeadsThrough(s: System, t: System, u: System)
    requires LeadsTo(s, t) && LeadsTo(t, u) && Inv(t)
    ensures LeadsTo(s, u) && Inv(u)
  {
    var states, steps :| Path(states, steps) && states[0] == t && states[|steps|] == u;
    LeadsAlong(s, states, steps, |steps|);
  }

  lemma {:induction false} LeadsAlong(s: System, states: seq<System>, steps: seq<Step>, i: nat)
    requires Path(states, steps) && i <= |steps| && LeadsTo(s, states[0]) && Inv(states[0])
    ensures LeadsTo(s, states[i]) && Inv(states[i])
  {
    if i == 0 {
    } else {
      LeadsAlong(s, states, steps, i - 1);
      assert Goes(states, steps, i - 1);
      LeadsOn(s, states[i - 1], steps[i - 1], states[i]);
      StepIsSafe(states[i - 1], steps[i - 1], states[i]);
    }
  }

  lemma {:induction false} ClaimsOne(db: Database, claimed: seq<ClaimedDelivery>, event: Event, handler: Handler,
                                     now: Time)
    requires |claimed| == 1 && Dispatcher.IsTaken(db, claimed[0], event, handler, now)
    ensures IdsOf(claimed) == {claimed[0].id} && Distinct(Dispatcher.Ids(claimed))
    ensures Dispatcher.Claims(Take(db, IdsOf(claimed), now), claimed)
  {
    assert IdsOf(claimed) == {claimed[0].id};
  }

  /** So is a delivery after a commit. */
  lemma {:induction false} DeliveryLeads(s: System, event: Event, handler: Handler, now: Time, play: Play)
    returns (t: System)
    requires Inv(s) && now <= s.clock && |play.claimed| == 1
    requires Dispatcher.IsTaken(s.db, play.claimed[0], event, handler, now)
    requires play.number == s.claims && play.until == now + DELIVERY_LEASE
    requires play.taken == Taking(s, {play.claimed[0].id}, now) && InLease(play, t => LeadsTo(s, t) && Inv(t))
    ensures LeadsTo(s, t)
    ensures t.db == Dispatcher.Turns(Dispatcher.Progress(Take(s.db, {play.claimed[0].id}, now), 0, 0, false),
                                     play.claimed, play.course, play.names).db
  {
    ghost var reached := t => LeadsTo(s, t) && Inv(t);
    LeadsToIsClosed(s);
    Reaches(reached, s, Claim(play.claimed[0].id, now), play.taken);
    ClaimsOne(s.db, play.claimed, event, handler, now);
    t := AllTurnsLead(play, reached, s, now);
  }
}
