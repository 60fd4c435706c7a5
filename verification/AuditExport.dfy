/** Reading a day of the audit trail page by page, while other transactions write it. */
module AuditExport {
  import opened Calendar
  import opened Collections
  import opened Wrappers

  /** A record of the audit trail: it never changes once it is written. */
  datatype Record = Record(id: nat, at: Instant)

  const ARCHIVE_BATCH_SIZE: nat := 1000
  const MAX_DAYS_PER_RUN: nat := 31

  /** The order of the index `(occurred_at, id)`. */
  predicate Precedes(a: Record, b: Record) { Earlier(a.at, b.at) || (a.at == b.at && a.id < b.id) }

  /** The earlier record comes first, by the milliseconds of its instant, and of two at one instant the lower ID. */
  lemma {:induction false} EarlierComesFirst(a: Record, b: Record)
    requires Exists(a.at.day) && Exists(b.at.day) && a.at.time < 86400000 && b.at.time < 86400000
    ensures Millis(a.at) < Millis(b.at) ==> Precedes(a, b)
    ensures a.at == b.at && a.id < b.id ==> Precedes(a, b)
    ensures !(Precedes(a, b) && Precedes(b, a))
    ensures a.id != b.id ==> Precedes(a, b) || Precedes(b, a)
  {
    EarlierCounts(a.at, b.at);
    EarlierCounts(b.at, a.at);
  }

  predicate Increasing(s: seq<Record>) {
    forall i, j | 0 <= i < j < |s| :: Precedes(s[i], s[j])
  }

  lemma {:induction false} HasOldest(s: set<Record>)
    requires s != {}
    ensures exists r :: r in s && forall q | q in s && q != r :: Precedes(r, q)
  {
    var r :| r in s;
    if s - {r} == {} {
      assert s == {r};
    } else {
      HasOldest(s - {r});
      var o :| o in s - {r} && forall q | q in s - {r} && q != o :: Precedes(o, q);
      if Precedes(o, r) {
        assert forall q | q in s && q != o :: Precedes(o, q);
      } else {
        forall q | q in s && q != r ensures Precedes(r, q) {
          assert q in s - {r};
        }
      }
    }
  }

  function Oldest(s: set<Record>): (r: Record)
    requires s != {}
    ensures r in s && forall q | q in s && q != r :: Precedes(r, q)
  {
    HasOldest(s);
    var r :| r in s && forall q | q in s && q != r :: Precedes(r, q);
    r
  }

  /** The records in the order of the index, the first `limit` of them at most. */
  function Select(s: set<Record>, limit: nat): (page: seq<Record>)
    ensures Increasing(page) && |page| == (if |s| < limit then |s| else limit)
    ensures forall i | 0 <= i < |page| :: page[i] in s
    decreases limit
  {
    if s == {} || limit == 0 then []
    else
      var first := Oldest(s);
      [first] + Select(s - {first}, limit - 1)
  }

  /** The records of the day. */
  function OfDay(db: set<Record>, day: Day): set<Record> {
    set r | r in db && r.at.day == day
  }

  /** What is left of the day after a position, or the whole day without one. */
  function After(db: set<Record>, day: Day, position: Option<Record>): set<Record> {
    set r | r in OfDay(db, day) && (position.None? || Precedes(position.value, r))
  }

  function EntriesOf(db: set<Record>, day: Day, position: Option<Record>, limit: nat): seq<Record> {
    Select(After(db, day, position), limit)
  }

  /** The position after the records exported so far. */
  function PositionAfter(exported: seq<Record>): Option<Record> {
    if exported == [] then None else Some(exported[|exported| - 1])
  }

  lemma {:induction false} LeavesOutLater(s: set<Record>, limit: nat, r: Record)
    requires r in s && r !in Select(s, limit)
    ensures |Select(s, limit)| == limit && forall i | 0 <= i < limit :: Precedes(Select(s, limit)[i], r)
    decreases limit
  {
    if limit == 0 {
    } else {
      var first := Oldest(s);
      var page := Select(s, limit);
      assert page == [first] + Select(s - {first}, limit - 1);
      assert page[0] == first && r != first;
      LeavesOutLater(s - {first}, limit - 1, r);
      forall i | 0 <= i < limit ensures Precedes(page[i], r) {
        assert i > 0 ==> page[i] == Select(s - {first}, limit - 1)[i - 1];
      }
    }
  }

  /** A page leaves out only later records, and none when it comes back short. */
  lemma {:induction false} SelectsTheOldest(s: set<Record>, limit: nat)
    ensures var page := Select(s, limit);
            forall r | r in s && r !in page :: |page| == limit && forall i | 0 <= i < |page| :: Precedes(page[i], r)
  {
    forall r | r in s && r !in Select(s, limit)
      ensures |Select(s, limit)| == limit && forall i | 0 <= i < limit :: Precedes(Select(s, limit)[i], r)
    {
      LeavesOutLater(s, limit, r);
    }
  }

  /** Two increasing sequences of the same records are the same. */
  lemma {:induction false} IncreasingIsUnique(a: seq<Record>, b: seq<Record>)
    requires Increasing(a) && Increasing(b) && multiset(a) == multiset(b)
    ensures a == b
  {
    assert |multiset(a)| == |a| && |multiset(b)| == |b|;
    if a != [] {
      SameFirst(a, b);
      SameTail(a, b);
      IncreasingIsUnique(a[1..], b[1..]);
      assert a == [a[0]] + a[1..] && b == [b[0]] + b[1..];
    }
  }

  lemma {:induction false} SameFirst(a: seq<Record>, b: seq<Record>)
    requires a != [] && b != [] && Increasing(a) && Increasing(b) && multiset(a) == multiset(b)
    ensures a[0] == b[0]
  {
    assert a[0] in multiset(b) && b[0] in multiset(a);
    assert a[0] in b && b[0] in a;
  }

  /** Two increasing sequences with the same records are equal. */
  lemma {:induction false} SameRecords(a: seq<Record>, b: seq<Record>)
    requires Increasing(a) && Increasing(b) && (forall r :: r in a <==> r in b)
    ensures a == b
  {
    forall r ensures multiset(a)[r] == multiset(b)[r] {
      OnceAtMost(a, r);
      OnceAtMost(b, r);
    }
    IncreasingIsUnique(a, b);
  }

  lemma {:induction false} OnceAtMost(a: seq<Record>, r: Record)
    requires Increasing(a)
    ensures multiset(a)[r] == if r in a then 1 else 0
  {
    if a == [] {
    } else {
      OnceAtMost(a[1..], r);
      assert a == [a[0]] + a[1..];
    }
  }

  /** The whole day, in the order of the index. */
  function Sorted(s: set<Record>): seq<Record> { Select(s, |s|) }

  lemma {:induction false} SortedHoldsAll(s: set<Record>)
    ensures forall r :: r in Sorted(s) <==> r in s
  {
    SelectsTheOldest(s, |s|);
    var page := Sorted(s);
    forall r | r in s ensures r in page {
      if r !in page {
        MembersOf(page);
        var held := set i | 0 <= i < |page| :: page[i];
        assert held <= s - {r};
        SubsetIsSmaller(held, s - {r});
      }
    }
  }

  lemma {:induction false} MembersOf(page: seq<Record>)
    requires Increasing(page)
    ensures |set i | 0 <= i < |page| :: page[i]| == |page|
  {
    if page == [] {
    } else {
      var init, last := page[..|page| - 1], page[|page| - 1];
      MembersOf(init);
      var held := set i | 0 <= i < |init| :: init[i];
      assert (set i | 0 <= i < |page| :: page[i]) == held + {last};
    }
  }

  /** Exported in the order of the index, from records of the day. */
  predicate Exported(exported: seq<Record>, day: Day, seen: set<Record>) {
    && Increasing(exported)
    && forall i | 0 <= i < |exported| :: exported[i] in seen && exported[i].at.day == day
  }

  lemma {:induction false} PageGoesOn(exported: seq<Record>, db: set<Record>, day: Day, limit: nat, seen: set<Record>)
    requires Exported(exported, day, seen) && db <= seen
    ensures Exported(exported + EntriesOf(db, day, PositionAfter(exported), limit), day, seen)
  {
    var page := EntriesOf(db, day, PositionAfter(exported), limit);
    assert forall i | 0 <= i < |page| :: page[i] in After(db, day, PositionAfter(exported));
  }

  /** What is still to read of a fixed set gets smaller with every page that is not empty. */
  lemma {:induction false} LessIsLeft(exported: seq<Record>, page: seq<Record>, day: Day, seen: set<Record>)
    requires Exported(exported + page, day, seen) && page != []
    ensures |After(seen, day, PositionAfter(exported + page))| < |After(seen, day, PositionAfter(exported))|
  {
    var all := exported + page;
    var last := all[|all| - 1];
    var left, now := After(seen, day, PositionAfter(exported)), After(seen, day, PositionAfter(all));
    assert last in left by {
      assert exported != [] ==> Precedes(all[|exported| - 1], all[|all| - 1]);
    }
    assert now <= left - {last} by {
      assert exported != [] ==> all[|exported| - 1] == exported[|exported| - 1];
    }
    SubsetIsSmaller(now, left - {last});
  }

  /** Everything of the day up to the position was exported. */
  ghost predicate Covers(exported: seq<Record>, db: set<Record>, day: Day) {
    forall r | r in OfDay(db, day) && r !in exported :: r in After(db, day, PositionAfter(exported))
  }

  lemma {:induction false} PageCovers(exported: seq<Record>, db: set<Record>, day: Day, limit: nat)
    requires Exported(exported, day, db) && Covers(exported, db, day)
    ensures var page := EntriesOf(db, day, PositionAfter(exported), limit);
            && Covers(exported + page, db, day)
            && (|page| < limit ==> forall r | r in OfDay(db, day) :: r in exported + page)
  {
    SelectsTheOldest(After(db, day, PositionAfter(exported)), limit);
  }

  /**
   * The pages of a day, one after the other: `db(k)` is what the k-th query sees, of records `ever` written. Whatever
   * other transactions do meanwhile, the loop ends and exports records of the day in the order of the index, each once;
   * on a day nobody touches, exactly its records.
   */
  method ReadDay(db: nat -> set<Record>, ghost ever: set<Record>, day: Day, limit: nat) returns (exported: seq<Record>)
    requires limit >= 1 && forall k :: db(k) <= ever
    ensures Exported(exported, day, ever)
    ensures (forall k :: db(k) == ever) ==> exported == Sorted(OfDay(ever, day))
  {
    exported := [];
    ghost var quiet := forall k :: db(k) == ever;
    var position, query := None, 0;
    while true
      invariant Exported(exported, day, ever) && position == PositionAfter(exported)
      invariant quiet ==> Covers(exported, ever, day)
      decreases |After(ever, day, position)|
    {
      var batch := EntriesOf(db(query), day, position, limit);
      PageGoesOn(exported, db(query), day, limit, ever);
      if quiet {
        PageCovers(exported, ever, day, limit);
      }
      if |batch| > 0 {
        LessIsLeft(exported, batch, day, ever);
        exported := exported + batch;
        position := Some(batch[|batch| - 1]);
      } else {
        assert exported + batch == exported;
      }
      if |batch| < limit { break; }
      query := query + 1;
    }
    if quiet {
      SortedHoldsAll(OfDay(ever, day));
      SameRecords(exported, Sorted(OfDay(ever, day)));
    }
  }

  // ---- Comparing what was deleted with what was exported ----

  function Ids(records: seq<Record>): (ids: seq<nat>)
    ensures |ids| == |records| && forall i | 0 <= i < |records| :: ids[i] == records[i].id
  {
    seq(|records|, i requires 0 <= i < |records| => records[i].id)
  }

  function InsertId(id: nat, ids: seq<nat>): (r: seq<nat>)
    ensures multiset(r) == multiset(ids) + multiset{id}
  {
    if ids == [] || id <= ids[0] then [id] + ids
    else
      assert ids == [ids[0]] + ids[1..];
      [ids[0]] + InsertId(id, ids[1..])
  }

  /** The IDs in ascending order. */
  function Sort(ids: seq<nat>): (r: seq<nat>)
    ensures multiset(r) == multiset(ids)
  {
    if ids == [] then []
    else
      assert ids == [ids[0]] + ids[1..];
      InsertId(ids[0], Sort(ids[1..]))
  }

  predicate Ascending(ids: seq<nat>) { forall i, j | 0 <= i < j < |ids| :: ids[i] <= ids[j] }

  lemma {:induction false} InsertsAbove(id: nat, ids: seq<nat>, low: nat)
    requires low <= id && forall i | 0 <= i < |ids| :: low <= ids[i]
    ensures forall i | 0 <= i < |InsertId(id, ids)| :: low <= InsertId(id, ids)[i]
  {
    if ids != [] && id > ids[0] {
      InsertsAbove(id, ids[1..], low);
    }
  }

  lemma {:induction false} InsertsInOrder(id: nat, ids: seq<nat>)
    requires Ascending(ids)
    ensures Ascending(InsertId(id, ids))
  {
    if ids != [] && id > ids[0] {
      InsertsInOrder(id, ids[1..]);
      InsertsAbove(id, ids[1..], ids[0]);
    }
  }

  lemma {:induction false} SortsInOrder(ids: seq<nat>)
    ensures Ascending(Sort(ids))
  {
    if ids == [] {
    } else {
      SortsInOrder(ids[1..]);
      InsertsInOrder(ids[0], Sort(ids[1..]));
    }
  }

  lemma {:induction false} SameHead(a: seq<nat>, b: seq<nat>)
    requires a != [] && b != [] && Ascending(a) && Ascending(b) && multiset(a) == multiset(b)
    ensures a[0] == b[0]
  {
    assert a[0] in multiset(b) && b[0] in multiset(a);
  }

  lemma {:induction false} SameTail<T>(a: seq<T>, b: seq<T>)
    requires a != [] && b != [] && a[0] == b[0] && multiset(a) == multiset(b)
    ensures multiset(a[1..]) == multiset(b[1..])
  {
    assert a == [a[0]] + a[1..] && b == [b[0]] + b[1..];
    assert multiset(a[1..]) == multiset(a) - multiset{a[0]};
  }

  lemma {:induction false} AscendingIsUnique(a: seq<nat>, b: seq<nat>)
    requires Ascending(a) && Ascending(b) && multiset(a) == multiset(b)
    ensures a == b
  {
    assert |multiset(a)| == |a| && |multiset(b)| == |b|;
    if a != [] {
      SameHead(a, b);
      SameTail(a, b);
      AscendingIsUnique(a[1..], b[1..]);
      assert a == [a[0]] + a[1..] && b == [b[0]] + b[1..];
    }
  }

  /** Sorted, two lists of IDs are the same exactly when each ID is as often in both. */
  lemma {:induction false} SortedComparesAll(a: seq<nat>, b: seq<nat>)
    ensures Sort(a) == Sort(b) <==> multiset(a) == multiset(b)
  {
    SortsInOrder(a);
    SortsInOrder(b);
    if multiset(a) == multiset(b) {
      AscendingIsUnique(Sort(a), Sort(b));
    }
  }

  /** The ID of each record, once. */
  function IdsOf(records: set<Record>): set<nat> { set r | r in records :: r.id }

  predicate DistinctIds(db: set<Record>) { forall a, b | a in db && b in db && a.id == b.id :: a == b }

  /** The IDs the statement answers for a day: once each, in any order. */
  lemma {:induction false} SortedIdsOfDay(records: set<Record>, deleted: seq<nat>)
    requires DistinctIds(records) && multiset(deleted) == multiset(IdsOf(records))
    ensures Sort(deleted) == Sort(Ids(Sorted(records)))
  {
    var ids := Ids(Sorted(records));
    SortedHoldsAll(records);
    IdsOnce(Sorted(records));
    forall id ensures multiset(ids)[id] == multiset(IdsOf(records))[id] {
      if id in ids {
        var i :| 0 <= i < |ids| && ids[i] == id;
        assert Sorted(records)[i] in records;
      }
      if id in IdsOf(records) {
        var r :| r in records && r.id == id;
        assert r in Sorted(records);
        var i :| 0 <= i < |ids| && Sorted(records)[i] == r;
        assert ids[i] == id;
      }
    }
    SortedComparesAll(deleted, ids);
  }

  lemma {:induction false} IdsOnce(records: seq<Record>)
    requires Increasing(records)
    requires forall i, j | 0 <= i < |records| && 0 <= j < |records| && records[i].id == records[j].id ::
               records[i] == records[j]
    ensures forall id | id in Ids(records) :: multiset(Ids(records))[id] == 1
  {
    if records == [] {
    } else {
      var rest := records[1..];
      IdsOnce(rest);
      assert Ids(records) == [records[0].id] + Ids(rest);
      assert records[0].id !in Ids(rest);
    }
  }

  /** The comparison of the transaction finds out whether the day got other records. */
  lemma {:induction false} FindsArrivals(db: set<Record>, arrivals: set<Record>, day: Day, deleted: seq<nat>)
    requires DistinctIds(db + arrivals) && db !! arrivals
    requires multiset(deleted) == multiset(IdsOf(OfDay(db + arrivals, day)))
    ensures Sort(deleted) == Sort(Ids(Sorted(OfDay(db, day)))) <==> OfDay(arrivals, day) == {}
  {
    var before, now := OfDay(db, day), OfDay(db + arrivals, day);
    SortedIdsOfDay(now, deleted);
    assert now == before + OfDay(arrivals, day) && before !! OfDay(arrivals, day);
    assert |Sort(deleted)| == |Ids(Sorted(now))| by {
      SameSize(Ids(Sorted(now)));
    }
    SameSize(Ids(Sorted(before)));
  }

  lemma {:induction false} LeavesTheRest(db: set<Record>, arrivals: set<Record>, day: Day)
    requires OfDay(arrivals, day) == {}
    ensures db + arrivals - OfDay(db + arrivals, day) == db + arrivals - OfDay(db, day)
  {
    assert OfDay(db + arrivals, day) == OfDay(db, day) + OfDay(arrivals, day);
  }

  lemma {:induction false} SameSize(ids: seq<nat>)
    ensures |Sort(ids)| == |ids|
  {
    assert |multiset(Sort(ids))| == |Sort(ids)|;
  }
}
