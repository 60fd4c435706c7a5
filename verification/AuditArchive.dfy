/** One run of the archive on its own: the folder of the files, a day of the archive, and the loop over the days. */
module AuditArchive {
  import opened ArchiveProtocol
  import opened ArchiveSteps
  import opened AuditExport
  import opened Calendar
  import opened Collections
  import opened Wrappers

  datatype ArchiveError = NotReadBack | OtherRecords | NoFile

  /** The copies of a day from a number on. */
  function CopiesFrom(files: map<Name, seq<nat>>, day: Day, copy: nat): set<Name> {
    set n | n in files && n.day == day && n.copy >= copy
  }

  /** The first name of the day that no file has. */
  predicate IsFirstFree(files: map<Name, seq<nat>>, name: Name) {
    name.copy >= 1 && name !in files && forall c | 1 <= c < name.copy :: Name(name.day, c) in files
  }

  function Outdated(files: map<Name, seq<nat>>, day: Day): set<Name> {
    set n | n in files && Before(n.day, day)
  }

  /** The archive folder on the disk, with the file being written, if any. */
  class LocalDiskAuditArchiveFiles {
    var files: map<Name, seq<nat>>
    var writing: Option<seq<nat>>

    constructor ()
      ensures files == map[] && writing == None
    {
      files, writing := map[], None;
    }

    method DiscardUnfinished()
      modifies this`writing
      ensures writing == None
    {
      writing := None;
    }

    /** Links the file being written under the first free name of its day. */
    method Keep(day: Day) returns (r: Result<Name, ArchiveError>)
      modifies this
      ensures writing == None
      ensures old(writing) == None ==> r == Err(NoFile) && files == old(files)
      ensures old(writing).Some? ==>
        && r.Ok? && r.value.day == day && files == old(files)[r.value := old(writing).value]
        && r.value.copy >= 1 && r.value !in old(files)
        && forall c | 1 <= c < r.value.copy :: Name(day, c) in old(files)
    {
      if writing.None? { return Err(NoFile); }
      var copy := 1;
      while Name(day, copy) in files
        invariant copy >= 1 && writing == old(writing) && files == old(files)
        invariant forall c | 1 <= c < copy :: Name(day, c) in files
        decreases |CopiesFrom(files, day, copy)|
      {
        assert CopiesFrom(files, day, copy + 1) <= CopiesFrom(files, day, copy) - {Name(day, copy)};
        SubsetIsSmaller(CopiesFrom(files, day, copy + 1), CopiesFrom(files, day, copy) - {Name(day, copy)});
        copy := copy + 1;
      }
      files := files[Name(day, copy) := writing.value];
      writing := None;
      r := Ok(Name(day, copy));
    }

    static lemma {:induction false} OneLess(files: map<Name, seq<nat>>, gone: set<Name>, name: Name)
      ensures files - gone - {name} == files - (gone + {name})
    {
    }

    method DeleteBefore(day: Day) returns (deleted: nat)
      modifies this`files
      ensures files == old(files) - Outdated(old(files), day)
      ensures forall n | n in old(files) :: n in files <==> !Before(n.day, day)
      ensures deleted == |Outdated(old(files), day)|
    {
      var names := files.Keys;
      ghost var gone: set<Name> := {};
      deleted := 0;
      while names != {}
        invariant names <= old(files).Keys && gone <= Outdated(old(files), day) && gone !! names
        invariant Outdated(old(files), day) <= gone + names
        invariant files == old(files) - gone && deleted == |gone|
        decreases |names|
      {
        var name :| name in names;
        names := names - {name};
        if Before(name.day, day) {
          OneLess(old(files), gone, name);
          files := files - {name};
          deleted := deleted + 1;
          gone := gone + {name};
        }
      }
      assert gone == Outdated(old(files), day);
    }
  }

  /** The days of records in the order of the index, each once. */
  function DaysOf(records: seq<Record>): (days: seq<Day>)
    ensures days == [] <==> records == []
    ensures records != [] ==> days[0] == records[0].at.day
  {
    if records == [] then []
    else
      var later := DaysOf(records[1..]);
      if later != [] && later[0] == records[0].at.day then later else [records[0].at.day] + later
  }

  function BeforeCutoff(db: set<Record>, cutoff: Day): set<Record> {
    set r | r in db && Earlier(r.at, StartOf(cutoff))
  }

  function DaysBefore(db: set<Record>, cutoff: Day, limit: nat): seq<Day> {
    var days := DaysOf(Sorted(BeforeCutoff(db, cutoff)));
    if |days| <= limit then days else days[..limit]
  }

  predicate DaysInOrder(days: seq<Day>) { forall i, j | 0 <= i < j < |days| :: Before(days[i], days[j]) }

  /** The oldest days with records before the cutoff: in order, and none is left out but for later ones. */
  lemma {:induction false} DaysAreExact(records: seq<Record>)
    requires Increasing(records)
    ensures DaysInOrder(DaysOf(records))
    ensures forall d :: d in DaysOf(records) <==> exists i :: 0 <= i < |records| && records[i].at.day == d
  {
    if records == [] {
    } else {
      var rest, days := records[1..], DaysOf(records);
      DaysAreExact(rest);
      forall d ensures d in days <==> exists i :: 0 <= i < |records| && records[i].at.day == d {
        if d in days && d != records[0].at.day {
          assert d in DaysOf(rest);
          var i :| 0 <= i < |rest| && rest[i].at.day == d;
          assert records[i + 1].at.day == d;
        }
        if i :| 0 <= i < |records| && records[i].at.day == d {
          if i > 0 {
            assert rest[i - 1].at.day == d;
            assert d in DaysOf(rest);
          } else {
            assert days[0] == d;
          }
        }
      }
    }
  }

  /** Whether the disk gives back a day's file as it was written. */
  predicate ReadsBack(disk: (Day, seq<nat>) -> seq<nat>, db: set<Record>, day: Day) {
    disk(day, Ids(Sorted(OfDay(db, day)))) == Ids(Sorted(OfDay(db, day)))
  }

  /** The records whose day is in a set of days. */
  function OfDays(db: set<Record>, days: set<Day>): set<Record> {
    set r | r in db && r.at.day in days
  }

  /** The days among these whose file reads back. */
  function Healthy(disk: (Day, seq<nat>) -> seq<nat>, db: set<Record>, days: seq<Day>): set<Day> {
    Those(d => ReadsBack(disk, db, d), days)
  }

  function Those(p: Day -> bool, days: seq<Day>): set<Day> { set d | d in days && p(d) }

  lemma {:induction false} OneMore(p: Day -> bool, days: seq<Day>, i: nat)
    requires i < |days| && DaysInOrder(days)
    ensures days[i] !in Those(p, days[..i])
    ensures Those(p, days[..i + 1]) == if p(days[i]) then Those(p, days[..i]) + {days[i]} else Those(p, days[..i])
  {
    assert days[..i + 1] == days[..i] + [days[i]];
    assert forall j | 0 <= j < i :: days[j] != days[i];
  }

  /** Files are only added. */
  predicate Extends(after: map<Name, seq<nat>>, before: map<Name, seq<nat>>) {
    forall name | name in before :: name in after && after[name] == before[name]
  }

  /** A new file, under the first free name of the day, holds the records of the day in order. */
  ghost predicate Filed(before: map<Name, seq<nat>>, after: map<Name, seq<nat>>, db: set<Record>, day: Day) {
    exists name :: IsFiled(before, after, db, day, name)
  }

  ghost predicate IsFiled(before: map<Name, seq<nat>>, after: map<Name, seq<nat>>, db: set<Record>, day: Day,
                          name: Name) {
    name.day == day && IsFirstFree(before, name) && after == before[name := Ids(Sorted(OfDay(db, day)))]
  }

  /** Each of these days has a new file of its own with its records, in order, and no other file is new. */
  ghost predicate FilesOfTheirOwn(before: map<Name, seq<nat>>, after: map<Name, seq<nat>>, db: set<Record>,
                                  days: set<Day>) {
    && Extends(after, before)
    && (forall n | n in after && n !in before :: n.day in days && after[n] == Ids(Sorted(OfDay(db, n.day))))
    && (forall d | d in days :: exists n :: n in after && n !in before && n.day == d)
    && (forall a, b | a in after && a !in before && b in after && b !in before && a.day == b.day :: a == b)
  }

  lemma {:induction false} OneMoreFile(before: map<Name, seq<nat>>, held: map<Name, seq<nat>>,
                                       after: map<Name, seq<nat>>, db: set<Record>, days: set<Day>, day: Day)
    requires FilesOfTheirOwn(before, held, db, days) && day !in days && Filed(held, after, db, day)
    ensures FilesOfTheirOwn(before, after, db, days + {day})
  {
    var name :| IsFiled(held, after, db, day, name);
    forall d | d in days + {day} ensures exists n :: n in after && n !in before && n.day == d {
      if d == day {
        assert name in after;
      } else {
        var n :| n in held && n !in before && n.day == d;
        assert n in after;
      }
    }
  }

  lemma {:induction false} FiledOfSameDay(before: map<Name, seq<nat>>, after: map<Name, seq<nat>>, a: set<Record>,
                                          b: set<Record>, day: Day)
    requires Filed(before, after, a, day) && OfDay(a, day) == OfDay(b, day)
    ensures Filed(before, after, b, day)
  {
    var name :| IsFiled(before, after, a, day, name);
    assert IsFiled(before, after, b, day, name);
  }

  /** The days of a run have records, are distinct, and lie before the cutoff. */
  lemma {:induction false} DaysBeforeAreDays(db: set<Record>, cutoff: Day, limit: nat)
    ensures var days := DaysBefore(db, cutoff, limit);
            DaysInOrder(days) && forall i | 0 <= i < |days| :: OfDay(db, days[i]) != {} && Before(days[i], cutoff)
  {
    var records := Sorted(BeforeCutoff(db, cutoff));
    var days := DaysBefore(db, cutoff, limit);
    DaysAreExact(records);
    forall i | 0 <= i < |days| ensures OfDay(db, days[i]) != {} && Before(days[i], cutoff) {
      assert days[i] == DaysOf(records)[i] && days[i] in DaysOf(records);
      var k :| 0 <= k < |records| && records[k].at.day == days[i];
      assert records[k] in BeforeCutoff(db, cutoff);
      assert records[k] in OfDay(db, days[i]);
    }
  }

  /** A day with records before the cutoff is left out only for as many earlier days as a run takes. */
  ghost predicate TakesOldest(db: set<Record>, cutoff: Day, limit: nat, days: seq<Day>) {
    && DaysInOrder(days) && |days| <= limit
    && (forall d | d in days :: Before(d, cutoff) && exists r :: r in db && r.at.day == d)
    && (forall r | r in db && Before(r.at.day, cutoff) && r.at.day !in days ::
          |days| == limit && forall d | d in days :: Before(d, r.at.day))
  }

  lemma {:induction false} DayOfRecord(db: set<Record>, cutoff: Day, r: Record)
    requires r in db && Before(r.at.day, cutoff)
    ensures r.at.day in DaysOf(Sorted(BeforeCutoff(db, cutoff)))
  {
    var before := BeforeCutoff(db, cutoff);
    var records := Sorted(before);
    SortedHoldsAll(before);
    DaysAreExact(records);
    assert r in before && r in records;
    var k :| 0 <= k < |records| && records[k] == r;
    assert records[k].at.day == r.at.day;
  }

  lemma {:induction false} DaysBeforeAreOldest(db: set<Record>, cutoff: Day, limit: nat)
    ensures TakesOldest(db, cutoff, limit, DaysBefore(db, cutoff, limit))
  {
    var all, days := DaysOf(Sorted(BeforeCutoff(db, cutoff))), DaysBefore(db, cutoff, limit);
    DaysBeforeAreDays(db, cutoff, limit);
    DaysAreExact(Sorted(BeforeCutoff(db, cutoff)));
    forall d | d in days ensures exists r :: r in db && r.at.day == d {
      var r :| r in OfDay(db, d);
    }
    forall r | r in db && Before(r.at.day, cutoff) && r.at.day !in days
      ensures |days| == limit && forall d | d in days :: Before(d, r.at.day)
    {
      DayOfRecord(db, cutoff, r);
      var k :| 0 <= k < |all| && all[k] == r.at.day;
      assert k >= |days| ==> forall i | 0 <= i < |days| :: days[i] == all[i] && Before(all[i], all[k]);
    }
  }

  /** What a run has left after some days, and what one more day takes. */
  lemma {:induction false} OneMoreDay(db: set<Record>, days: set<Day>, day: Day)
    requires day !in days
    ensures var left := db - OfDays(db, days);
            && OfDay(left, day) == OfDay(db, day)
            && left - OfDay(db, day) == db - OfDays(db, days + {day})
            && |OfDays(db, days + {day})| == |OfDays(db, days)| + |OfDay(db, day)|
  {
    assert OfDays(db, days + {day}) == OfDays(db, days) + OfDay(db, day);
    assert OfDays(db, days) !! OfDay(db, day);
  }

  lemma {:induction false} OneMoreId(gone: set<Record>, r: Record)
    requires forall q | q in gone :: q.id != r.id
    ensures multiset(IdsOf(gone + {r})) == multiset(IdsOf(gone)) + multiset{r.id}
  {
    assert IdsOf(gone + {r}) == IdsOf(gone) + {r.id};
  }

  datatype ArchiveRun = ArchiveRun(archivedDays: nat, archivedEntries: nat, failedDays: nat, deletedFiles: nat)

  /** One more day in the counters: days left without records count as nothing. */
  function Counted(r: ArchiveRun, archived: Result<nat, ArchiveError>): ArchiveRun {
    match archived
    case Ok(n) =>
      if n > 0 then r.(archivedEntries := r.archivedEntries + n, archivedDays := r.archivedDays + 1) else r
    case Err(_) => r.(failedDays := r.failedDays + 1)
  }

  /** The counters of a run that archived these days. */
  predicate Counts(r: ArchiveRun, all: set<Record>, days: set<Day>) {
    r.archivedDays == |days| && r.archivedEntries == |OfDays(all, days)|
  }

  lemma {:induction false} CountsOneMore(r: ArchiveRun, archived: Result<nat, ArchiveError>, all: set<Record>,
                                         done: set<Day>, next: set<Day>, day: Day)
    requires Counts(r, all, done) && day !in done
    requires archived.Err? ==> next == done
    requires archived.Ok? ==> archived.value > 0 && next == done + {day}
    requires archived.Ok? ==> |OfDays(all, next)| == |OfDays(all, done)| + archived.value
    ensures Counts(Counted(r, archived), all, next)
    ensures Counted(r, archived).failedDays == r.failedDays + (if archived.Err? then 1 else 0)
  {
  }

  class AuditArchive {
    var db: set<Record>
    const files: LocalDiskAuditArchiveFiles
    const retention: Retention

    constructor (records: set<Record>, folder: LocalDiskAuditArchiveFiles, months: Retention)
      ensures db == records && files == folder && retention == months
    {
      db, files, retention := records, folder, months;
    }

    /** Deletes the records of a day, and answers their IDs in any order. */
    method DeleteDay(day: Day) returns (deleted: seq<nat>)
      requires DistinctIds(db)
      modifies this`db
      ensures db == old(db) - OfDay(old(db), day)
      ensures multiset(deleted) == multiset(IdsOf(OfDay(old(db), day)))
    {
      var left := OfDay(db, day);
      deleted := [];
      ghost var gone: set<Record> := {};
      while left != {}
        invariant left + gone == OfDay(db, day) && left !! gone && db == old(db)
        invariant multiset(deleted) == multiset(IdsOf(gone)) && gone <= db
        decreases |left|
      {
        var r :| r in left;
        OneMoreId(gone, r);
        left, gone, deleted := left - {r}, gone + {r}, deleted + [r.id];
      }
      assert gone == OfDay(db, day);
      db := db - OfDay(db, day);
    }

    /**
     * Exports the day to a file and keeps it, once it reads back what was exported. `disk` says what a file holds when
     * it is read back.
     */
    method KeepDay(day: Day, disk: (Day, seq<nat>) -> seq<nat>) returns (r: Result<seq<Record>, ArchiveError>)
      modifies files
      ensures files.writing == None
      ensures var written := Ids(Sorted(OfDay(db, day)));
              r == if OfDay(db, day) == {} || disk(day, written) == written then Ok(Sorted(OfDay(db, day)))
                   else Err(NotReadBack)
      ensures if r.Ok? && r.value != [] then Filed(old(files.files), files.files, db, day)
              else files.files == old(files.files)
    {
      var snapshot := db;
      var exported := ReadDay(_ => snapshot, snapshot, day, ARCHIVE_BATCH_SIZE);
      if |exported| == 0 {
        files.DiscardUnfinished();
        return Ok([]);
      }
      files.writing := Some(disk(day, Ids(exported)));
      if files.writing.value != Ids(exported) {
        files.DiscardUnfinished();
        return Err(NotReadBack);
      }
      var kept := files.Keep(day);
      assert IsFiled(old(files.files), files.files, db, day, kept.value);
      r := Ok(exported);
    }

    /**
     * The transaction: `arrivals` are the records that others inserted since the export. With one of the day, it rolls
     * back and nothing is deleted.
     */
    method DeleteExported(day: Day, exported: seq<Record>, arrivals: set<Record>) returns (r: Result<nat, ArchiveError>)
      requires DistinctIds(db + arrivals) && db !! arrivals && exported == Sorted(OfDay(db, day))
      modifies this`db
      ensures r == if OfDay(arrivals, day) == {} then Ok(|exported|) else Err(OtherRecords)
      ensures db == old(db) + arrivals - (if r.Ok? then OfDay(old(db), day) else {})
    {
      var snapshot := db + arrivals;
      db := snapshot;
      var deleted := DeleteDay(day);
      FindsArrivals(old(db), arrivals, day, deleted);
      if Sort(deleted) == Sort(Ids(exported)) {
        LeavesTheRest(old(db), arrivals, day);
        return Ok(|exported|);
      }
      db := snapshot;
      r := Err(OtherRecords);
    }

    /** The class is in the state of the view. */
    ghost predicate Sees(v: View)
      reads this, files
    {
      IsView(v) && v.state.db == db && v.state.files == files.files && v.retention == retention
    }

    /**
     * A whole day, from the database to its file. Answers how many records left the database. Each thing it does is a
     * step of the protocol.
     */
    method ArchiveDay(day: Day, disk: (Day, seq<nat>) -> seq<nat>, arrivals: set<Record>, ghost v: View)
      returns (r: Result<nat, ArchiveError>, ghost w: View)
      requires DistinctIds(db + arrivals) && db !! arrivals
      requires forall a, q | a in arrivals && q in v.state.ever :: q.id != a.id
      requires Sees(v) && Before(day, Cutoff(v.now, retention.databaseMonths))
      modifies this`db, files
      ensures r == if OfDay(old(db), day) == {} then Ok(0)
                   else if !ReadsBack(disk, old(db), day) then Err(NotReadBack)
                   else if OfDay(arrivals, day) != {} then Err(OtherRecords)
                   else Ok(|OfDay(old(db), day)|)
      ensures var kept := OfDay(old(db), day) != {} && ReadsBack(disk, old(db), day);
              && (if kept then Filed(old(files.files), files.files, old(db), day) else files.files == old(files.files))
              && db == old(db) + (if kept then arrivals else {}) - (if r.Ok? then OfDay(old(db), day) else {})
      ensures Sees(w) && w == v.(state := w.state)
    {
      ghost var before := files.files;
      var exported := KeepDay(day, disk);
      if exported.Err? || exported.value == [] {
        SortedHoldsAll(OfDay(db, day));
        DroppedDayLeads(v, day, disk(day, Ids(Sorted(OfDay(db, day)))));
        w := Dropped(v);
        r := if exported.Err? then Err(exported.error) else Ok(0);
        return;
      }
      ghost var name :| IsFiled(before, files.files, db, day, name);
      ArchivedDayLeads(v, name, arrivals);
      w := AfterArchiving(v, name, arrivals);
      r := DeleteExported(day, exported.value, arrivals);
    }

    /** Some days left the database for files of their own, and nothing else did. */
    ghost predicate HasArchived(all: set<Record>, kept: map<Name, seq<nat>>, days: set<Day>)
      reads this, files
    {
      db == all - OfDays(all, days) && FilesOfTheirOwn(kept, files.files, all, days)
    }

    /** One day of a run that has already archived others. */
    method ArchiveNext(day: Day, disk: (Day, seq<nat>) -> seq<nat>, ghost v: View, ghost all: set<Record>,
                       ghost kept: map<Name, seq<nat>>, ghost done: set<Day>, ghost good: bool)
      returns (r: Result<nat, ArchiveError>, ghost next: set<Day>, ghost w: View)
      requires DistinctIds(all) && HasArchived(all, kept, done) && day !in done && OfDay(all, day) != {}
      requires good == ReadsBack(disk, all, day)
      requires Sees(v) && Before(day, Cutoff(v.now, retention.databaseMonths))
      modifies this`db, files
      ensures next == (if good then done + {day} else done) && HasArchived(all, kept, next)
      ensures if good then r.Ok? && r.value > 0 && |OfDays(all, next)| == |OfDays(all, done)| + r.value else r.Err?
      ensures Sees(w) && w == v.(state := w.state)
    {
      OneMoreDay(all, done, day);
      ghost var left, held := db, files.files;
      r, w := ArchiveDay(day, disk, {}, v);
      next := if good then done + {day} else done;
      if good {
        FiledOfSameDay(held, files.files, left, all, day);
        OneMoreFile(kept, held, files.files, all, done, day);
      }
    }

    /** A run has archived some days, with these counters, and its steps of the protocol lead as far. */
    ghost predicate Progresses(v: View, w: View, all: set<Record>, kept: map<Name, seq<nat>>, done: set<Day>,
                               r: ArchiveRun)
      reads this, files
    {
      HasArchived(all, kept, done) && Counts(r, all, done) && Sees(w) && w == v.(state := w.state)
    }

    /** One day of a run, and its counters. */
    method CountNext(day: Day, disk: (Day, seq<nat>) -> seq<nat>, counters: ArchiveRun, ghost v: View, ghost w: View,
                     ghost all: set<Record>, ghost kept: map<Name, seq<nat>>, ghost done: set<Day>, ghost good: bool)
      returns (r: ArchiveRun, ghost next: set<Day>, ghost x: View)
      requires DistinctIds(all) && Progresses(v, w, all, kept, done, counters)
      requires day !in done && OfDay(all, day) != {} && Before(day, Cutoff(v.now, retention.databaseMonths))
      requires good == ReadsBack(disk, all, day)
      modifies this`db, files
      ensures next == (if good then done + {day} else done) && Progresses(v, x, all, kept, next, r)
      ensures r.failedDays == counters.failedDays + (if good then 0 else 1)
    {
      var archived;
      archived, next, x := ArchiveNext(day, disk, w, all, kept, done, good);
      r := Counted(counters, archived);
      CountsOneMore(counters, archived, all, done, next, day);
    }

    /** Each day in turn, when nothing else writes: a day that fails stays in the database. */
    method ArchiveDays(days: seq<Day>, disk: (Day, seq<nat>) -> seq<nat>, ghost v: View, ghost good: Day -> bool)
      returns (r: ArchiveRun, ghost healthy: set<Day>, ghost w: View)
      requires DistinctIds(db) && DaysInOrder(days) && forall i | 0 <= i < |days| :: OfDay(db, days[i]) != {}
      requires Sees(v) && forall i | 0 <= i < |days| :: Before(days[i], Cutoff(v.now, retention.databaseMonths))
      requires forall d :: good(d) == ReadsBack(disk, db, d)
      modifies this`db, files
      ensures healthy == Those(good, days)
      ensures Progresses(v, w, old(db), old(files.files), healthy, r) && r.failedDays == |days| - |healthy|
    {
      ghost var all, kept := db, files.files;
      r, healthy, w := ArchiveRun(0, 0, 0, 0), {}, v;
      for i := 0 to |days|
        invariant Progresses(v, w, all, kept, healthy, r) && r.failedDays == i - |healthy|
        invariant healthy == Those(good, days[..i])
      {
        OneMore(good, days, i);
        r, healthy, w := CountNext(days[i], disk, r, v, w, all, kept, healthy, good(days[i]));
      }
      assert days[..|days|] == days;
    }

    /**
     * The daily run, when nothing else writes: up to `MAX_DAYS_PER_RUN` days leave the database for new files of their
     * own, the oldest ones with records before the cutoff and all but those whose file does not read back; then the
     * files older than the archive retention go. From any
     * state of the protocol with this database and folder, its steps lead to one with what the run leaves.
     */
    method Run(now: Instant, disk: (Day, seq<nat>) -> seq<nat>, ghost s: Archive, ghost run: RunId)
      returns (r: ArchiveRun, ghost days: seq<Day>, ghost full: map<Name, seq<nat>>, ghost t: Archive)
      requires DistinctIds(db) && Exists(now.day)
      requires s.db == db && s.files == files.files && s.clock == now && run !in s.runs && run !in s.writing
      modifies this`db, files
      ensures TakesOldest(old(db), Cutoff(now, retention.databaseMonths), 31, days)
      ensures var healthy := Healthy(disk, old(db), days);
              && db == old(db) - OfDays(old(db), healthy)
              && r.archivedEntries == |OfDays(old(db), healthy)|
              && r.archivedDays == |healthy| && r.failedDays == |days| - |healthy|
              && FilesOfTheirOwn(old(files.files), full, old(db), healthy)
      ensures forall a | a in db && Before(a.at.day, Cutoff(now, retention.databaseMonths)) ::
                !ReadsBack(disk, old(db), a.at.day) || (|days| == 31 && forall d | d in days :: Before(d, a.at.day))
      ensures var oldest := Cutoff(now, retention.archiveMonths);
              && files.files == full - Outdated(full, oldest) && r.deletedFiles == |Outdated(full, oldest)|
              && forall n | n in full :: n in files.files <==> !Before(n.day, oldest)
      ensures Reaches(s, t, retention) && t.db == db && t.files == files.files && run !in t.runs
    {
      ghost var v := BeginLeads(s, run, retention);
      files.DiscardUnfinished();
      var cutoff := Cutoff(now, retention.databaseMonths);
      var taken := DaysBefore(db, cutoff, MAX_DAYS_PER_RUN);
      days := taken;
      DaysBeforeAreDays(db, cutoff, MAX_DAYS_PER_RUN);
      DaysBeforeAreOldest(db, cutoff, MAX_DAYS_PER_RUN);
      ghost var healthy;
      r, healthy, v := ArchiveDays(taken, disk, v, d => ReadsBack(disk, old(db), d));
      full := files.files;
      var oldest := Cutoff(now, retention.archiveMonths);
      var deletedFiles := files.DeleteBefore(oldest);
      r := r.(deletedFiles := deletedFiles);
      v := DeletionsLead(v, Outdated(full, oldest));
      t := EndLeads(v);
    }
  }
}
