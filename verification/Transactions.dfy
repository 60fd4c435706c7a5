/**
 * Events published inside a transaction: callbacks collected by the scope of the outermost transaction, nested steps
 * undone by marks and truncation, and one batch dispatched after the commit (src/platform/persistence/
 * transaction-scope.ts, cls-transaction-manager.ts and src/platform/events/cls-domain-event-publisher.ts).
 */
module Transactions {
  import opened Collections
  import opened Wrappers

  type Event = nat
  type Row = nat

  /** An event with its kind, stored or volatile, on its way to the dispatcher. */
  datatype PendingEvent = PendingEvent(event: Event, stored: bool)

  /** The events of one call of `publish` or `publishVolatile`. */
  datatype Publication = Publication(events: seq<Event>, stored: bool)

  /** What a use case does inside a transaction. */
  datatype Work =
    | Done
    | Publish(publication: Publication)
    | Write(row: Row)
    | Fail
    | Then(first: Work, second: Work)
    | Caught(body: Work)
    | Joined(body: Work)
    | Nested(body: Work, released: bool)

  // ---- The tree semantics: no marks, no arrays ----

  datatype Outcome = Outcome(ok: bool, published: seq<Publication>, rows: seq<Row>)

  /**
   * What a piece of work leaves: a failed nested step leaves nothing, whatever it did; a failure caught without a
   * nested step leaves what was done before it.
   */
  function Effect(w: Work): Outcome {
    match w
    case Done => Outcome(true, [], [])
    case Publish(p) => Outcome(true, [p], [])
    case Write(row) => Outcome(true, [], [row])
    case Fail => Outcome(false, [], [])
    case Then(first, second) =>
      var a := Effect(first);
      if !a.ok then a
      else
        var b := Effect(second);
        Outcome(b.ok, a.published + b.published, a.rows + b.rows)
    case Caught(body) => Effect(body).(ok := true)
    case Joined(body) => Effect(body)
    case Nested(body, released) => if Effect(body).ok && released then Effect(body) else Outcome(false, [], [])
  }

  // ---- What fails and what stays, by the points of the work ----

  /** The way from a piece of work to one of its parts. */
  datatype Branch = First | Second | Body

  type Point = seq<Branch>

  function Part(w: Work, branch: Branch): (part: Option<Work>)
    ensures part.Some? ==> part.value < w
  {
    match w
    case Then(first, second) =>
      if branch == First then Some(first) else if branch == Second then Some(second) else None
    case Caught(body) => if branch == Body then Some(body) else None
    case Joined(body) => if branch == Body then Some(body) else None
    case Nested(body, _) => if branch == Body then Some(body) else None
    case _ => None
  }

  /** The part of the work at a point. */
  function At(w: Work, point: Point): Option<Work>
    decreases |point|
  {
    if point == [] then Some(w)
    else if Part(w, point[0]).Some? then At(Part(w, point[0]).value, point[1..])
    else None
  }

  /** The work itself throws there, or the release of its savepoint does. */
  predicate Raises(w: Work) { w.Fail? || (w.Nested? && !w.released) }

  /** Nothing on the way to the point catches what comes from there. */
  predicate Uncaught(w: Work, point: Point)
    decreases |point|
  {
    point == [] || (!w.Caught? && (Part(w, point[0]).Some? ==> Uncaught(Part(w, point[0]).value, point[1..])))
  }

  /** The work gets to the point: no step before it fails. */
  ghost predicate Reached(w: Work, point: Point)
    decreases w, 0
  {
    point == []
    || (&& Part(w, point[0]).Some?
        && (point[0] == Second ==> !Fails(w.first))
        && Reached(Part(w, point[0]).value, point[1..]))
  }

  /** An error is raised at a point that the work gets to, and nothing catches it. */
  ghost predicate Fails(w: Work)
    decreases w, 2
  {
    exists point :: FailsAt(w, point)
  }

  ghost predicate FailsAt(w: Work, point: Point)
    decreases w, 1
  {
    Reached(w, point) && Uncaught(w, point) && At(w, point).Some? && Raises(At(w, point).value)
  }

  /** A nested step around the point fails. */
  ghost predicate Undone(w: Work, point: Point)
    decreases |point|
  {
    point != []
    && ((w.Nested? && Fails(w)) || (Part(w, point[0]).Some? && Undone(Part(w, point[0]).value, point[1..])))
  }

  /** What fails at a point of a part fails at that point of the whole. */
  lemma {:induction false} FailsInside(w: Work, branch: Branch)
    requires Part(w, branch).Some? && Fails(Part(w, branch).value) && !w.Caught?
    requires branch == Second ==> !Fails(w.first)
    ensures Fails(w)
  {
    var part := Part(w, branch).value;
    var point :| FailsAt(part, point);
    var longer := [branch] + point;
    assert longer[1..] == point && At(w, longer) == At(part, point);
    assert FailsAt(w, longer);
  }

  /** Work that fails raises the error itself, or one of its parts does that it gets to. */
  lemma {:induction false} FailsOutside(w: Work)
    requires Fails(w) && !Raises(w)
    ensures !w.Caught?
    ensures exists branch ::
              Part(w, branch).Some? && Fails(Part(w, branch).value) && (branch == Second ==> !Fails(w.first))
  {
    var point :| FailsAt(w, point);
    assert Reached(w, point) && At(w, point).Some?;
    assert FailsAt(Part(w, point[0]).value, point[1..]);
  }

  lemma {:induction false} FailsItself(w: Work)
    requires Raises(w)
    ensures Fails(w)
  {
    assert FailsAt(w, []);
  }

  /** The work is done exactly when no error goes uncaught. */
  lemma {:induction false} FailsExactly(w: Work)
    ensures Effect(w).ok <==> !Fails(w)
  {
    if Raises(w) {
      FailsItself(w);
    } else if Fails(w) {
      FailsOutside(w);
    }
    match w
    case Then(first, second) =>
      FailsExactly(first);
      FailsExactly(second);
      if Fails(first) { FailsInside(w, First); } else if Fails(second) { FailsInside(w, Second); }
    case Joined(body) =>
      FailsExactly(body);
      if Fails(body) { FailsInside(w, Body); }
    case Nested(body, _) =>
      FailsExactly(body);
      if Fails(body) { FailsInside(w, Body); }
    case _ =>
  }

  /** Something done at a point of the work, and whether a nested step around it fails. */
  datatype Occurrence = Occurrence(point: Point, leaf: Work, undone: bool)

  function Inside(branch: Branch, occurrences: seq<Occurrence>, undone: bool): (inside: seq<Occurrence>)
    ensures |inside| == |occurrences|
  {
    seq(|occurrences|, i requires 0 <= i < |occurrences| =>
      var o := occurrences[i];
      Occurrence([branch] + o.point, o.leaf, o.undone || undone))
  }

  /** Every publication and every write that happens, in the order it happens. */
  ghost function Occurrences(w: Work): seq<Occurrence> {
    match w
    case Publish(_) => [Occurrence([], w, false)]
    case Write(_) => [Occurrence([], w, false)]
    case Then(first, second) =>
      Inside(First, Occurrences(first), false)
      + if Fails(first) then [] else Inside(Second, Occurrences(second), false)
    case Caught(body) => Inside(Body, Occurrences(body), false)
    case Joined(body) => Inside(Body, Occurrences(body), false)
    case Nested(body, _) => Inside(Body, Occurrences(body), Fails(w))
    case _ => []
  }

  /** Something is published or written there, and the work gets to it. */
  ghost predicate Happens(w: Work, point: Point) {
    At(w, point).Some? && (At(w, point).value.Publish? || At(w, point).value.Write?) && Reached(w, point)
  }

  /** The first of two different ways is taken first. */
  predicate Earlier(a: Point, b: Point) {
    a != [] && b != [] && ((a[0] == First && b[0] == Second) || (a[0] == b[0] && Earlier(a[1..], b[1..])))
  }

  predicate InOrder(occurrences: seq<Occurrence>) {
    forall i, j | 0 <= i < j < |occurrences| :: Earlier(occurrences[i].point, occurrences[j].point)
  }

  ghost predicate IsOccurrence(w: Work, o: Occurrence) {
    Happens(w, o.point) && At(w, o.point) == Some(o.leaf) && (o.undone <==> Undone(w, o.point))
  }

  lemma {:induction false} InsideIsExact(w: Work, branch: Branch, part: Work, occurrences: seq<Occurrence>)
    requires Part(w, branch) == Some(part) && (branch == Second ==> !Fails(w.first))
    requires forall o | o in occurrences :: IsOccurrence(part, o)
    requires InOrder(occurrences)
    ensures var inside := Inside(branch, occurrences, w.Nested? && Fails(w));
      && (forall o | o in inside :: IsOccurrence(w, o) && o.point != [] && o.point[0] == branch)
      && InOrder(inside)
  {
    var undone := w.Nested? && Fails(w);
    var inside := Inside(branch, occurrences, undone);
    forall i | 0 <= i < |inside| ensures IsOccurrence(w, inside[i]) && inside[i].point[1..] == occurrences[i].point {
      assert IsOccurrence(part, occurrences[i]);
      assert inside[i].point[1..] == occurrences[i].point;
    }
  }

  /** The occurrences are exactly the points that the work gets to, in their order, undone or not. */
  lemma {:induction false} OccurrencesAreExact(w: Work)
    ensures forall o | o in Occurrences(w) :: IsOccurrence(w, o)
    ensures InOrder(Occurrences(w))
  {
    match w
    case Then(first, second) =>
      OccurrencesAreExact(first);
      OccurrencesAreExact(second);
      InsideIsExact(w, First, first, Occurrences(first));
      if !Fails(first) {
        InsideIsExact(w, Second, second, Occurrences(second));
      }
    case Caught(body) => OccurrencesAreExact(body); InsideIsExact(w, Body, body, Occurrences(body));
    case Joined(body) => OccurrencesAreExact(body); InsideIsExact(w, Body, body, Occurrences(body));
    case Nested(body, _) => OccurrencesAreExact(body); InsideIsExact(w, Body, body, Occurrences(body));
    case _ =>
  }

  lemma {:induction false} EachOccurs(w: Work, point: Point)
    requires Happens(w, point)
    ensures exists o | o in Occurrences(w) :: o.point == point
    decreases |point|
  {
    if point == [] {
      assert Occurrences(w)[0].point == [];
    } else {
      var part, rest := Part(w, point[0]).value, point[1..];
      EachOccurs(part, rest);
      var i :| 0 <= i < |Occurrences(part)| && Occurrences(part)[i].point == rest;
      var inside := Inside(point[0], Occurrences(part), w.Nested? && Fails(w));
      assert inside[i].point == [point[0]] + rest == point;
      assert inside[i] in Occurrences(w);
    }
  }

  /** What happened and no failed nested step undid. */
  function Survivors(occurrences: seq<Occurrence>): seq<Work> {
    if occurrences == [] then []
    else (if occurrences[0].undone then [] else [occurrences[0].leaf]) + Survivors(occurrences[1..])
  }

  function PublicationsOf(leaves: seq<Work>): seq<Publication> {
    if leaves == [] then []
    else (if leaves[0].Publish? then [leaves[0].publication] else []) + PublicationsOf(leaves[1..])
  }

  function RowsOf(leaves: seq<Work>): seq<Row> {
    if leaves == [] then [] else (if leaves[0].Write? then [leaves[0].row] else []) + RowsOf(leaves[1..])
  }

  lemma {:induction false} SurvivorsOfBoth(a: seq<Occurrence>, b: seq<Occurrence>)
    ensures Survivors(a + b) == Survivors(a) + Survivors(b)
  {
    if a == [] {
      assert a + b == b;
    } else {
      SurvivorsOfBoth(a[1..], b);
      var first := if a[0].undone then [] else [a[0].leaf];
      assert (a + b)[1..] == a[1..] + b && (a + b)[0] == a[0];
      Regrouped(first, Survivors(a[1..]), Survivors(b));
    }
  }

  lemma {:induction false} SurvivorsInside(branch: Branch, occurrences: seq<Occurrence>, undone: bool)
    ensures Survivors(Inside(branch, occurrences, undone)) == if undone then [] else Survivors(occurrences)
  {
    if occurrences == [] {
    } else {
      SurvivorsInside(branch, occurrences[1..], undone);
      assert Inside(branch, occurrences, undone)[1..] == Inside(branch, occurrences[1..], undone);
    }
  }

  lemma {:induction false} PublicationsOfBoth(a: seq<Work>, b: seq<Work>)
    ensures PublicationsOf(a + b) == PublicationsOf(a) + PublicationsOf(b)
  {
    if a == [] {
      assert a + b == b;
    } else {
      PublicationsOfBoth(a[1..], b);
      var first := if a[0].Publish? then [a[0].publication] else [];
      assert (a + b)[1..] == a[1..] + b && (a + b)[0] == a[0];
      Regrouped(first, PublicationsOf(a[1..]), PublicationsOf(b));
    }
  }

  lemma {:induction false} RowsOfBoth(a: seq<Work>, b: seq<Work>)
    ensures RowsOf(a + b) == RowsOf(a) + RowsOf(b)
  {
    if a == [] {
      assert a + b == b;
    } else {
      RowsOfBoth(a[1..], b);
      var first := if a[0].Write? then [a[0].row] else [];
      assert (a + b)[1..] == a[1..] + b && (a + b)[0] == a[0];
      Regrouped(first, RowsOf(a[1..]), RowsOf(b));
    }
  }

  ghost function Left(w: Work): seq<Work> { Survivors(Occurrences(w)) }

  lemma {:induction false} LeftByBoth(first: Work, second: Work)
    ensures Left(Then(first, second)) == Left(first) + if Fails(first) then [] else Left(second)
  {
    var a, b := Inside(First, Occurrences(first), false), Inside(Second, Occurrences(second), false);
    SurvivorsInside(First, Occurrences(first), false);
    SurvivorsInside(Second, Occurrences(second), false);
    SurvivorsOfBoth(a, b);
    assert a + [] == a;
  }

  /**
   * What the work leaves published and written is what happened, in the order it happened, without what a failed nested
   * step undid.
   */
  lemma {:induction false} PublishedIsWhatSurvives(w: Work)
    ensures Effect(w).published == PublicationsOf(Left(w)) && Effect(w).rows == RowsOf(Left(w))
  {
    match w
    case Then(first, second) =>
      PublishedIsWhatSurvives(first);
      PublishedIsWhatSurvives(second);
      BothSurvive(first, second);
    case Caught(body) => PublishedIsWhatSurvives(body); SurvivorsInside(Body, Occurrences(body), false);
    case Joined(body) => PublishedIsWhatSurvives(body); SurvivorsInside(Body, Occurrences(body), false);
    case Nested(body, _) => PublishedIsWhatSurvives(body); NestedSurvives(w);
    case _ => OneSurvives(w);
  }

  lemma {:induction false} OneSurvives(w: Work)
    requires w.Done? || w.Fail? || w.Publish? || w.Write?
    ensures Effect(w).published == PublicationsOf(Left(w)) && Effect(w).rows == RowsOf(Left(w))
  {
    var here := Occurrence([], w, false);
    assert Survivors([here]) == [w] + Survivors([here][1..]);
    assert PublicationsOf([w]) == (if w.Publish? then [w.publication] else []) + PublicationsOf([w][1..]);
    assert RowsOf([w]) == (if w.Write? then [w.row] else []) + RowsOf([w][1..]);
  }

  lemma {:induction false} BothSurvive(first: Work, second: Work)
    requires Effect(first).published == PublicationsOf(Left(first)) && Effect(first).rows == RowsOf(Left(first))
    requires Effect(second).published == PublicationsOf(Left(second)) && Effect(second).rows == RowsOf(Left(second))
    ensures Effect(Then(first, second)).published == PublicationsOf(Left(Then(first, second)))
    ensures Effect(Then(first, second)).rows == RowsOf(Left(Then(first, second)))
  {
    var a, b := Left(first), Left(second);
    FailsExactly(first);
    LeftByBoth(first, second);
    PublicationsOfBoth(a, b);
    RowsOfBoth(a, b);
    assert a + [] == a;
  }

  lemma {:induction false} NestedSurvives(w: Work)
    requires w.Nested?
    requires Effect(w.body).published == PublicationsOf(Left(w.body)) && Effect(w.body).rows == RowsOf(Left(w.body))
    ensures Effect(w).published == PublicationsOf(Left(w)) && Effect(w).rows == RowsOf(Left(w))
  {
    FailsExactly(w);
    SurvivorsInside(Body, Occurrences(w.body), Fails(w));
  }

  /** The events of some publications, in order, each with its kind. */
  function Flatten(published: seq<Publication>): seq<PendingEvent> {
    if published == [] then []
    else Flatten(published[..|published| - 1]) + Tagged(published[|published| - 1])
  }

  function Tagged(p: Publication): (pending: seq<PendingEvent>)
    ensures |pending| == |p.events|
    ensures forall i | 0 <= i < |pending| :: pending[i] == PendingEvent(p.events[i], p.stored)
  {
    seq(|p.events|, i requires 0 <= i < |p.events| => PendingEvent(p.events[i], p.stored))
  }

  /** The events that a list of pending ones stores, in order. */
  function StoredEvents(pending: seq<PendingEvent>): seq<Event> {
    if pending == [] then []
    else
      var last := pending[|pending| - 1];
      StoredEvents(pending[..|pending| - 1]) + if last.stored then [last.event] else []
  }

  lemma {:induction false} StoredOfBoth(a: seq<PendingEvent>, b: seq<PendingEvent>)
    ensures StoredEvents(a + b) == StoredEvents(a) + StoredEvents(b)
  {
    if b == [] {
      assert a + b == a;
    } else {
      StoredOfBoth(a, b[..|b| - 1]);
      assert (a + b)[..|a + b| - 1] == a + b[..|b| - 1];
    }
  }

  lemma {:induction false} TaggedMore(events: seq<Event>, event: Event, stored: bool)
    ensures Tagged(Publication(events + [event], stored)) ==
              Tagged(Publication(events, stored)) + [PendingEvent(event, stored)]
  {
  }

  lemma {:induction false} StoredOfMore(front: seq<PendingEvent>, last: PendingEvent, pending: seq<PendingEvent>)
    requires pending == front + [last]
    ensures StoredEvents(pending) == StoredEvents(front) + if last.stored then [last.event] else []
  {
    assert pending[..|pending| - 1] == front;
  }

  lemma {:induction false} StoredOfKind(events: seq<Event>, stored: bool)
    ensures StoredEvents(Tagged(Publication(events, stored))) == if stored then events else []
  {
    if events == [] {
    } else {
      var front, last := events[..|events| - 1], events[|events| - 1];
      assert front + [last] == events;
      StoredOfKind(front, stored);
      TaggedMore(front, last, stored);
      StoredOfMore(Tagged(Publication(front, stored)), PendingEvent(last, stored), Tagged(Publication(events, stored)));
    }
  }

  lemma {:induction false} StoredOfOne(p: Publication)
    ensures StoredEvents(Tagged(p)) == if p.stored then p.events else []
  {
    StoredOfKind(p.events, p.stored);
  }

  // ---- The scope: callbacks pushed to arrays, and arrays cut ----

  /** The lengths of both arrays at some instant. */
  datatype ScopeMark = ScopeMark(beforeCommit: nat, afterCommit: nat)

  function Min(a: nat, b: nat): nat { if a < b then a else b }

  class TransactionScope {
    /** Each stores some events before the commit. */
    var beforeCommitCallbacks: seq<seq<Event>>
    /** Each adds some events to the batch after the commit. */
    var afterCommitCallbacks: seq<seq<PendingEvent>>

    constructor ()
      ensures beforeCommitCallbacks == [] && afterCommitCallbacks == []
    {
      beforeCommitCallbacks, afterCommitCallbacks := [], [];
    }

    method BeforeCommit(events: seq<Event>)
      modifies this
      ensures beforeCommitCallbacks == old(beforeCommitCallbacks) + [events]
      ensures afterCommitCallbacks == old(afterCommitCallbacks)
    {
      beforeCommitCallbacks := beforeCommitCallbacks + [events];
    }

    method AfterCommit(pending: seq<PendingEvent>)
      modifies this
      ensures afterCommitCallbacks == old(afterCommitCallbacks) + [pending]
      ensures beforeCommitCallbacks == old(beforeCommitCallbacks)
    {
      afterCommitCallbacks := afterCommitCallbacks + [pending];
    }

    function Mark(): ScopeMark
      reads this
    {
      ScopeMark(|beforeCommitCallbacks|, |afterCommitCallbacks|)
    }

    /** Forgets the callbacks registered since the mark; a mark of an earlier, longer state forgets none. */
    method DiscardSince(mark: ScopeMark)
      modifies this
      ensures beforeCommitCallbacks ==
                old(beforeCommitCallbacks)[..Min(mark.beforeCommit, |old(beforeCommitCallbacks)|)]
      ensures afterCommitCallbacks == old(afterCommitCallbacks)[..Min(mark.afterCommit, |old(afterCommitCallbacks)|)]
    {
      beforeCommitCallbacks := beforeCommitCallbacks[..Min(mark.beforeCommit, |beforeCommitCallbacks|)];
      afterCommitCallbacks := afterCommitCallbacks[..Min(mark.afterCommit, |afterCommitCallbacks|)];
    }

    /** The callbacks are those that some publications register. */
    ghost predicate Collected(published: seq<Publication>)
      reads this
    {
      && beforeCommitCallbacks == Saves(published)
      && |afterCommitCallbacks| == |published|
      && forall i | 0 <= i < |published| :: afterCommitCallbacks[i] == Tagged(published[i])
    }
  }

  /** One save per stored publication. */
  function Saves(published: seq<Publication>): seq<seq<Event>> {
    if published == [] then []
    else
      var last := published[|published| - 1];
      Saves(published[..|published| - 1]) + if last.stored then [last.events] else []
  }

  /** The saves of a prefix are a prefix of the saves. */
  lemma {:induction false} SavesOfPrefix(published: seq<Publication>, n: nat)
    requires n <= |published|
    ensures Saves(published[..n]) <= Saves(published)
  {
    if n < |published| {
      var front := published[..|published| - 1];
      SavesOfPrefix(front, n);
      assert front[..n] == published[..n];
    } else {
      assert published[..n] == published;
    }
  }

  /** Cutting the callbacks back to the mark of an earlier state gives the callbacks of that state. */
  lemma {:induction false} CutBack(before: seq<Publication>, more: seq<Publication>)
    ensures |Saves(before)| <= |Saves(before + more)|
    ensures Saves(before + more)[..|Saves(before)|] == Saves(before)
  {
    assert (before + more)[..|before|] == before;
    SavesOfPrefix(before + more, |before|);
  }

  /** The rows of the open transaction, and what they were at each savepoint. */
  class Connection {
    var rows: seq<Row>
    var savepoints: map<nat, seq<Row>>

    constructor ()
      ensures rows == [] && savepoints == map[]
    {
      rows, savepoints := [], map[];
    }

    method Insert(row: Row)
      modifies this`rows
      ensures rows == old(rows) + [row]
    {
      rows := rows + [row];
    }

    method Savepoint(name: nat)
      modifies this`savepoints
      ensures savepoints == old(savepoints)[name := rows]
    {
      savepoints := savepoints[name := rows];
    }

    method RollbackTo(name: nat)
      requires name in savepoints
      modifies this`rows
      ensures rows == savepoints[name]
    {
      rows := savepoints[name];
    }
  }

  class ClsTransactionManager {
    /** Numbers the savepoints. */
    var savepoints: nat

    constructor ()
      ensures savepoints == 0
    {
      savepoints := 0;
    }

    /** The savepoints with a number up to `n` are as they were. */
    twostate predicate KeepsSavepoints(conn: Connection, n: nat)
      reads conn
    {
      forall k | k in old(conn.savepoints) && k <= n ::
        k in conn.savepoints && conn.savepoints[k] == old(conn.savepoints)[k]
    }

    /**
     * Runs a piece of work in the open transaction. Pushing, marking and cutting the callback arrays, and rolling back
     * to numbered savepoints, leave exactly what the tree semantics says on top of what was there.
     */
    method Execute(w: Work, scope: TransactionScope, conn: Connection, ghost before: seq<Publication>)
      returns (ok: bool)
      requires scope.Collected(before)
      modifies this, scope, conn
      ensures savepoints >= old(savepoints)
      ensures KeepsSavepoints(conn, old(savepoints))
      ensures ok == Effect(w).ok
      ensures scope.Collected(before + Effect(w).published)
      ensures conn.rows == old(conn.rows) + Effect(w).rows
      decreases w, 1
    {
      ok := true;
      match w {
        case Done =>
          assert before + [] == before;
        case Publish(p) =>
          Register(p, scope, before);
        case Write(row) =>
          conn.Insert(row);
          assert before + [] == before;
        case Fail =>
          ok := false;
          assert before + [] == before;
        case Then(first, second) =>
          ok := ExecuteBoth(first, second, scope, conn, before, w);
        case Caught(body) =>
          var _ := Execute(body, scope, conn, before);
        case Joined(body) =>
          ok := Execute(body, scope, conn, before);
        case Nested(body, released) =>
          ok := RunNested(body, released, scope, conn, before);
          assert before + [] == before;
      }
    }

    /** The callbacks of one publication. */
    method Register(p: Publication, scope: TransactionScope, ghost before: seq<Publication>)
      requires scope.Collected(before)
      modifies scope
      ensures scope.Collected(before + [p])
    {
      if p.stored {
        scope.BeforeCommit(p.events);
      }
      scope.AfterCommit(Tagged(p));
      assert (before + [p])[..|before|] == before;
    }

    /** A step after another, unless the first one fails. */
    method ExecuteBoth(first: Work, second: Work, scope: TransactionScope, conn: Connection,
                       ghost before: seq<Publication>, ghost w: Work)
      returns (ok: bool)
      requires scope.Collected(before) && w == Then(first, second)
      modifies this, scope, conn
      ensures savepoints >= old(savepoints)
      ensures KeepsSavepoints(conn, old(savepoints))
      ensures ok == Effect(w).ok
      ensures scope.Collected(before + Effect(w).published)
      ensures conn.rows == old(conn.rows) + Effect(w).rows
      decreases w, 0
    {
      ghost var published := Effect(first).published;
      ok := Execute(first, scope, conn, before);
      if ok {
        ok := Execute(second, scope, conn, before + published);
        Regrouped(before, published, Effect(second).published);
        Regrouped(old(conn.rows), Effect(first).rows, Effect(second).rows);
      }
    }

    /** A savepoint around a step: when the step fails, its rows and its callbacks go with it. */
    method RunNested(body: Work, released: bool, scope: TransactionScope, conn: Connection,
                     ghost before: seq<Publication>)
      returns (ok: bool)
      requires scope.Collected(before)
      modifies this, scope, conn
      ensures savepoints >= old(savepoints)
      ensures KeepsSavepoints(conn, old(savepoints))
      ensures ok <==> Effect(body).ok && released
      ensures ok ==> scope.Collected(before + Effect(body).published) && conn.rows == old(conn.rows) + Effect(body).rows
      ensures !ok ==> scope.Collected(before) && conn.rows == old(conn.rows)
      decreases body, 2
    {
      savepoints := savepoints + 1;
      var name := savepoints;
      var mark := scope.Mark();
      conn.Savepoint(name);
      ok := Execute(body, scope, conn, before);
      if !ok || !released {
        conn.RollbackTo(name);
        CutBack(before, Effect(body).published);
        scope.DiscardSince(mark);
        ok := false;
      }
    }

    /** The saves before the commit, one after another, up to the one that fails. */
    method StoreBeforeCommit(saves: seq<seq<Event>>, failing: Option<nat>) returns (ok: bool, stored: seq<Event>)
      ensures ok <==> !(failing.Some? && failing.value < |saves|)
      ensures ok ==> stored == Concat(saves)
    {
      ok, stored := true, [];
      for i := 0 to |saves|
        invariant ok && stored == Concat(saves[..i])
        invariant failing.Some? ==> failing.value >= i
      {
        if failing == Some(i) {
          ok := false;
          return;
        }
        assert saves[..i + 1][..i] == saves[..i];
        stored := stored + saves[i];
      }
      assert saves[..|saves|] == saves;
    }

    /**
     * The outermost transaction: runs the work, then the saves, then commits, and only then hands the events to the
     * batch. `failing` is the save that fails, if any. All of it happens, or nothing does.
     */
    method Run(w: Work, failing: Option<nat>, db: Committed, publisher: ClsDomainEventPublisher)
      returns (ok: bool, scope: TransactionScope, ghost effect: Outcome)
      modifies this, db, publisher
      ensures fresh(scope) && effect == Effect(w)
      ensures ok <==> !Fails(w) && !(failing.Some? && failing.value < |Saves(effect.published)|)
      ensures ok ==>
        && db.rows == old(db.rows) + effect.rows
        && db.events == old(db.events) + StoredEvents(Flatten(effect.published))
        && publisher.Batched(scope, effect.published)
      ensures !ok ==>
        && db.rows == old(db.rows) && db.events == old(db.events)
        && publisher.batches == old(publisher.batches) && publisher.background == old(publisher.background)
    {
      effect := Effect(w);
      FailsExactly(w);
      var conn;
      ok, scope, conn := Begin(w, effect);
      if !ok {
        return;
      }
      ok := Commit(scope, conn, failing, db, effect);
      if ok {
        publisher.RunAfterCommitCallbacks(scope, effect.published);
      }
    }

    /** The saves and then the commit. */
    method Commit(scope: TransactionScope, conn: Connection, failing: Option<nat>, db: Committed, ghost effect: Outcome)
      returns (ok: bool)
      requires scope.Collected(effect.published) && conn.rows == effect.rows
      modifies db
      ensures ok <==> !(failing.Some? && failing.value < |Saves(effect.published)|)
      ensures db.rows == old(db.rows) + if ok then effect.rows else []
      ensures db.events == old(db.events) + if ok then StoredEvents(Flatten(effect.published)) else []
    {
      var stored;
      ok, stored := StoreBeforeCommit(scope.beforeCommitCallbacks, failing);
      if ok {
        SavesAreStored(effect.published);
        db.rows, db.events := db.rows + conn.rows, db.events + stored;
      }
    }

    /** The work, in a scope and a connection of its own. */
    method Begin(w: Work, ghost effect: Outcome) returns (ok: bool, scope: TransactionScope, conn: Connection)
      requires effect == Effect(w)
      modifies this
      ensures fresh(scope) && fresh(conn)
      ensures ok == effect.ok && scope.Collected(effect.published) && conn.rows == effect.rows
    {
      scope := new TransactionScope();
      conn := new Connection();
      ok := Execute(w, scope, conn, []);
      assert [] + effect.published == effect.published && [] + effect.rows == effect.rows;
    }
  }

  function Concat<T>(parts: seq<seq<T>>): seq<T> {
    if parts == [] then [] else Concat(parts[..|parts| - 1]) + parts[|parts| - 1]
  }

  /** The saves store the stored events, in publish order. */
  lemma {:induction false} SavesAreStored(published: seq<Publication>)
    ensures Concat(Saves(published)) == StoredEvents(Flatten(published))
  {
    if published == [] {
    } else {
      var front, last := published[..|published| - 1], published[|published| - 1];
      SavesAreStored(front);
      StoredOfBoth(Flatten(front), Tagged(last));
      StoredOfOne(last);
      if last.stored {
        assert Saves(published)[..|Saves(published)| - 1] == Saves(front);
      } else {
        assert Saves(published) == Saves(front);
      }
    }
  }

  /** What committed transactions left. */
  class Committed {
    var rows: seq<Row>
    var events: seq<Event>
  }

  /** A call of the dispatcher: `deliver` for stored events, `dispatch` for volatile ones. */
  datatype Call = Call(stored: bool, events: seq<Event>)

  function CallEvents(calls: seq<Call>): seq<PendingEvent> {
    if calls == [] then []
    else
      var last := calls[|calls| - 1];
      CallEvents(calls[..|calls| - 1]) + Tagged(Publication(last.events, last.stored))
  }

  class ClsDomainEventPublisher {
    var batches: map<TransactionScope, seq<PendingEvent>>
    /** Tasks queued, each for the batch of one scope. */
    var background: seq<TransactionScope>

    constructor ()
      ensures batches == map[] && background == []
    {
      batches, background := map[], [];
    }

    /** One new task, for one batch with the events of the publications; none when nothing was published. */
    twostate predicate Batched(new scope: TransactionScope, published: seq<Publication>)
      reads this
    {
      if published == [] then batches == old(batches) && background == old(background)
      else batches == old(batches)[scope := Flatten(published)] && background == old(background) + [scope]
    }

    /** The after-commit callbacks, one after another: the first starts the batch and the others add to it. */
    method RunAfterCommitCallbacks(scope: TransactionScope, ghost published: seq<Publication>)
      requires scope.Collected(published) && scope !in batches
      modifies this
      ensures Batched(scope, published)
    {
      for i := 0 to |scope.afterCommitCallbacks|
        invariant Batched(scope, published[..i])
      {
        assert published[..i + 1][..i] == published[..i];
        var pending := scope.afterCommitCallbacks[i];
        if scope in batches {
          batches := batches[scope := batches[scope] + pending];
        } else {
          assert i == 0 && Flatten(published[..0]) == [] && [] + pending == pending;
          batches := batches[scope := pending];
          background := background + [scope];
        }
      }
      assert published[..|published|] == published;
    }

    /** The end of the events of one kind from `start` on. */
    static method EndOfKind(batch: seq<PendingEvent>, start: nat) returns (end: nat)
      requires start < |batch|
      ensures start < end <= |batch|
      ensures forall i | start <= i < end :: batch[i].stored == batch[start].stored
      ensures end < |batch| ==> batch[end].stored != batch[start].stored
    {
      end := start + 1;
      while end < |batch| && batch[end].stored == batch[start].stored
        invariant start < end <= |batch|
        invariant forall i | start <= i < end :: batch[i].stored == batch[start].stored
      {
        end := end + 1;
      }
    }

    /** The events of a stretch of the batch of one kind. */
    static function EventsOf(batch: seq<PendingEvent>, start: nat, end: nat): seq<Event>
      requires start <= end <= |batch|
    {
      seq<Event>(end - start, i requires 0 <= i < end - start => batch[start + i].event)
    }

    /** No call without events, and no two in a row of the same kind. */
    static predicate Alternate(calls: seq<Call>) {
      && (forall i | 0 <= i < |calls| :: calls[i].events != [])
      && forall i | 0 < i < |calls| :: calls[i].stored != calls[i - 1].stored
    }

    static lemma {:induction false} OneMoreCall(calls: seq<Call>, batch: seq<PendingEvent>, start: nat, end: nat,
                                                call: Call)
      requires start < end <= |batch| && CallEvents(calls) == batch[..start] && Alternate(calls)
      requires call.events == EventsOf(batch, start, end)
      requires forall i | start <= i < end :: batch[i].stored == call.stored
      requires calls != [] ==> call.stored != calls[|calls| - 1].stored
      ensures CallEvents(calls + [call]) == batch[..end] && Alternate(calls + [call])
    {
      assert (calls + [call])[..|calls|] == calls;
      assert Tagged(Publication(call.events, call.stored)) == batch[start..end];
      assert batch[..start] + batch[start..end] == batch[..end];
    }

    /**
     * Splits the batch by kind: the calls hold every event of the batch once, in order and by its own kind, and no two
     * calls in a row are of the same kind.
     */
    method Dispatch(batch: seq<PendingEvent>) returns (calls: seq<Call>)
      ensures CallEvents(calls) == batch && Alternate(calls)
    {
      calls := [];
      var start := 0;
      while start < |batch|
        invariant 0 <= start <= |batch|
        invariant CallEvents(calls) == batch[..start] && Alternate(calls)
        invariant calls != [] && start < |batch| ==> batch[start].stored != calls[|calls| - 1].stored
      {
        var end := EndOfKind(batch, start);
        var call := Call(batch[start].stored, EventsOf(batch, start, end));
        OneMoreCall(calls, batch, start, end, call);
        calls := calls + [call];
        start := end;
      }
      assert batch[..start] == batch;
    }
  }

  /** The events stored, in order, are those of the calls of `deliver`. */
  lemma {:induction false} StoredIsDelivered(calls: seq<Call>, batch: seq<PendingEvent>)
    requires CallEvents(calls) == batch
    ensures StoredEvents(batch) == Concat(Delivered(calls))
  {
    if calls == [] {
    } else {
      var front, last := calls[..|calls| - 1], calls[|calls| - 1];
      StoredIsDelivered(front, CallEvents(front));
      var p := Publication(last.events, last.stored);
      StoredOfBoth(CallEvents(front), Tagged(p));
      StoredOfOne(p);
      if last.stored {
        assert Delivered(calls)[..|Delivered(calls)| - 1] == Delivered(front);
      } else {
        assert Delivered(calls) == Delivered(front);
      }
    }
  }

  /** The events of each call of `deliver`. */
  function Delivered(calls: seq<Call>): seq<seq<Event>> {
    if calls == [] then []
    else
      var last := calls[|calls| - 1];
      Delivered(calls[..|calls| - 1]) + if last.stored then [last.events] else []
  }

  /**
   * End to end: a transaction and the turn of the event loop after it. When it commits, the dispatcher gets what ran
   * and was not undone, once and in the order it was published, and `deliver` gets just the events that were stored.
   */
  method RunAndDispatch(w: Work, failing: Option<nat>, manager: ClsTransactionManager, db: Committed,
                        publisher: ClsDomainEventPublisher)
    returns (ok: bool, calls: seq<Call>)
    modifies manager, db, publisher
    ensures ok <==> !Fails(w) && !(failing.Some? && failing.value < |Saves(PublicationsOf(Left(w)))|)
    ensures ok ==> CallEvents(calls) == Flatten(PublicationsOf(Left(w))) && publisher.Alternate(calls)
    ensures ok ==>
      db.events == old(db.events) + Concat(Delivered(calls)) && db.rows == old(db.rows) + RowsOf(Left(w))
    ensures !ok ==> calls == [] && db.events == old(db.events) && db.rows == old(db.rows)
  {
    var scope;
    ghost var effect;
    ok, scope, effect := manager.Run(w, failing, db, publisher);
    calls := [];
    FailsExactly(w);
    PublishedIsWhatSurvives(w);
    if ok {
      if scope in publisher.batches {
        calls := publisher.Dispatch(publisher.batches[scope]);
      }
      StoredIsDelivered(calls, Flatten(effect.published));
    }
  }
}
