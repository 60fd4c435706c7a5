/** What one run does on its own, as steps of the protocol of the archive. */
module ArchiveSteps {
  import opened ArchiveProtocol
  import opened AuditExport
  import opened Calendar

  /** Some steps of the protocol lead from one state to the other. */
  ghost predicate Reaches(s: Archive, t: Archive, retention: Retention) {
    exists steps :: Leads(s, steps, retention, t)
  }

  /** States of the protocol, with all that its steps lead to from them. */
  ghost predicate Closed(reached: Archive -> bool, retention: Retention) {
    forall s, step {:trigger Apply(s, step, retention)} |
      reached(s) && Enabled(s, step, retention) :: reached(Apply(s, step, retention))
  }

  /** How far a run got, between two days, in a state that is among those reached. */
  datatype View = View(reached: Archive -> bool, state: Archive, run: RunId, now: Instant, retention: Retention)

  /** The protocol got as far, and the run works on no day. */
  ghost predicate IsView(v: View) {
    && v.reached(v.state) && Closed(v.reached, v.retention) && Exists(v.now.day)
    && v.run in v.state.runs && v.state.runs[v.run] == Run(v.now, Idle)
  }

  lemma {:induction false} LeadsOn(s: Archive, steps: seq<Step>, t: Archive, step: Step, retention: Retention)
    requires Leads(s, steps, retention, t) && Enabled(t, step, retention)
    ensures Leads(s, steps + [step], retention, Apply(t, step, retention))
    decreases steps
  {
    var after := Apply(t, step, retention);
    if steps == [] {
      assert [] + [step] == [step] && [step][1..] == [];
      assert Leads(after, [], retention, after);
    } else {
      LeadsOn(Apply(s, steps[0], retention), steps[1..], t, step, retention);
      assert (steps + [step])[1..] == steps[1..] + [step];
    }
  }

  lemma {:induction false} ReachableIsClosed(s: Archive, retention: Retention)
    ensures Reaches(s, s, retention) && Closed(t => Reaches(s, t, retention), retention)
  {
    assert Leads(s, [], retention, s);
    forall t, step | Reaches(s, t, retention) && Enabled(t, step, retention)
      ensures Reaches(s, Apply(t, step, retention), retention)
    {
      var steps :| Leads(s, steps, retention, t);
      LeadsOn(s, steps, t, step, retention);
    }
  }

  lemma {:induction false} ReachesOn(reached: Archive -> bool, s: Archive, step: Step, retention: Retention)
    returns (t: Archive)
    requires reached(s) && Closed(reached, retention) && Enabled(s, step, retention)
    ensures t == Apply(s, step, retention) && reached(t)
  {
    t := Apply(s, step, retention);
  }

  function Staged(s: Archive, run: RunId, now: Instant, stage: Stage): Archive {
    s.(runs := s.runs[run := Run(now, stage)])
  }

  /** A short page completes the day, and any other leaves less to read. */
  lemma {:induction false} PageGets(exported: seq<Record>, db: set<Record>, day: Day, limit: nat, page: seq<Record>,
                                    all: seq<Record>)
    requires limit >= 1 && page == EntriesOf(db, day, PositionAfter(exported), limit) && all == exported + page
    requires Exported(exported, day, db) && Covers(exported, db, day)
    ensures |page| < limit ==> all == Sorted(OfDay(db, day))
    ensures |page| >= limit ==>
      && Exported(all, day, db) && Covers(all, db, day)
      && |After(db, day, PositionAfter(all))| < |After(db, day, PositionAfter(exported))|
  {
    PageGoesOn(exported, db, day, limit, db);
    PageCovers(exported, db, day, limit);
    if |page| < limit {
      SortedHoldsAll(OfDay(db, day));
      SameRecords(all, Sorted(OfDay(db, day)));
    } else {
      LessIsLeft(exported, page, day, db);
    }
  }

  /** One page: it completes the day, or leaves less to read. */
  lemma {:induction false} PageLeads(reached: Archive -> bool, s: Archive, run: RunId, now: Instant, day: Day,
                                     exported: seq<Record>, retention: Retention)
    returns (t: Archive, all: seq<Record>, whole: bool)
    requires reached(s) && Closed(reached, retention)
    requires run in s.runs && s.runs[run] == Run(now, Exporting(day, exported, false))
    requires Exported(exported, day, s.db) && Covers(exported, s.db, day)
    ensures reached(t) && t == Staged(s, run, now, Exporting(day, all, whole))
    ensures whole ==> all == Sorted(OfDay(s.db, day))
    ensures !whole ==>
      && Exported(all, day, s.db) && Covers(all, s.db, day)
      && |After(s.db, day, PositionAfter(all))| < |After(s.db, day, PositionAfter(exported))|
  {
    var page := EntriesOf(s.db, day, PositionAfter(exported), ARCHIVE_BATCH_SIZE);
    all, whole := exported + page, |page| < ARCHIVE_BATCH_SIZE;
    t := ReachesOn(reached, s, ReadPage(run), retention);
    PageGets(exported, s.db, day, ARCHIVE_BATCH_SIZE, page, all);
  }

  /** On a day nobody touches, the pages lead to the whole day. */
  lemma {:induction false} PagesLead(reached: Archive -> bool, s: Archive, run: RunId, now: Instant, day: Day,
                                     exported: seq<Record>, retention: Retention)
    returns (t: Archive)
    requires reached(s) && Closed(reached, retention)
    requires run in s.runs && s.runs[run] == Run(now, Exporting(day, exported, false))
    requires Exported(exported, day, s.db) && Covers(exported, s.db, day)
    ensures reached(t) && t == Staged(s, run, now, Exporting(day, Sorted(OfDay(s.db, day)), true))
    decreases |After(s.db, day, PositionAfter(exported))|
  {
    var read, all, whole := PageLeads(reached, s, run, now, day, exported, retention);
    if whole {
      t := read;
    } else {
      t := PagesLead(reached, read, run, now, day, all, retention);
    }
  }

  lemma {:induction false} ExportLeads(v: View, day: Day) returns (t: Archive)
    requires IsView(v) && Before(day, Cutoff(v.now, v.retention.databaseMonths))
    ensures v.reached(t)
    ensures var s := v.state;
            t == Staged(s, v.run, v.now,
                Exporting(day, Sorted(OfDay(s.db, day)), true)).(writing := s.writing[v.run := []])
  {
    var begun := ReachesOn(v.reached, v.state, Start(v.run, day), v.retention);
    assert begun == Staged(v.state, v.run, v.now, Exporting(day, [], false)).(writing := v.state.writing[v.run := []]);
    t := PagesLead(v.reached, begun, v.run, v.now, day, [], v.retention);
  }

  /** The run is done with the day, and its unfinished file is gone. */
  function Dropped(v: View): View { v.(state := v.state.(writing := v.state.writing - {v.run})) }

  /** A day without records, or whose file does not read back. */
  lemma {:induction false} DroppedDayLeads(v: View, day: Day, readBack: seq<nat>)
    requires IsView(v) && Before(day, Cutoff(v.now, v.retention.databaseMonths))
    requires OfDay(v.state.db, day) == {} || readBack != Ids(Sorted(OfDay(v.state.db, day)))
    ensures IsView(Dropped(v))
  {
    var whole := ExportLeads(v, day);
    SortedHoldsAll(OfDay(v.state.db, day));
    var step := if Sorted(OfDay(v.state.db, day)) == [] then Fail(v.run) else Close(v.run, readBack);
    var t := ReachesOn(v.reached, whole, step, v.retention);
    assert t.runs == v.state.runs && t.writing == v.state.writing - {v.run};
    assert t == Dropped(v).state;
  }

  lemma {:induction false} CloseLeads(reached: Archive -> bool, s: Archive, run: RunId, now: Instant, day: Day,
                                      exported: seq<Record>, retention: Retention)
    returns (t: Archive)
    requires reached(s) && Closed(reached, retention) && run in s.runs
    requires s.runs[run] == Run(now, Exporting(day, exported, true))
    requires run in s.writing && exported != []
    ensures reached(t)
    ensures t == Staged(s, run, now, Compared(day, exported)).(writing := s.writing[run := Ids(exported)])
  {
    t := ReachesOn(reached, s, Close(run, Ids(exported)), retention);
  }

  lemma {:induction false} LinkLeads(reached: Archive -> bool, s: Archive, run: RunId, now: Instant, name: Name,
                                     exported: seq<Record>, retention: Retention)
    returns (t: Archive)
    requires reached(s) && Closed(reached, retention) && run in s.runs
    requires s.runs[run] == Run(now, Compared(name.day, exported))
    requires run in s.writing && name.copy >= 1 && name !in s.files
    ensures reached(t)
    ensures t == Staged(s, run, now, Linked(name.day, name, exported)).(files := s.files[name := s.writing[run]])
  {
    t := ReachesOn(reached, s, Link(run, name.copy), retention);
  }

  lemma {:induction false} SyncLeads(reached: Archive -> bool, s: Archive, run: RunId, now: Instant, name: Name,
                                     exported: seq<Record>, retention: Retention)
    returns (t: Archive)
    requires reached(s) && Closed(reached, retention) && run in s.runs
    requires s.runs[run] == Run(now, Linked(name.day, name, exported))
    requires name in s.files
    ensures reached(t)
    ensures t == Staged(s, run, now, Kept(name.day, name, exported)).(
              writing := s.writing - {run}, synced := s.synced + {name})
  {
    t := ReachesOn(reached, s, Sync(run), retention);
  }

  /** A file that reads back is linked under a free name, and stays. */
  lemma {:induction false} KeptDayLeads(v: View, name: Name) returns (t: Archive)
    requires IsView(v) && Before(name.day, Cutoff(v.now, v.retention.databaseMonths))
    requires OfDay(v.state.db, name.day) != {}
    requires name.copy >= 1 && name !in v.state.files
    ensures v.reached(t)
    ensures var exported := Sorted(OfDay(v.state.db, name.day));
            t == Staged(v.state, v.run, v.now, Kept(name.day, name, exported)).(
              files := v.state.files[name := Ids(exported)], synced := v.state.synced + {name},
              writing := v.state.writing - {v.run})
  {
    var exported := Sorted(OfDay(v.state.db, name.day));
    var whole := ExportLeads(v, name.day);
    SortedHoldsAll(OfDay(v.state.db, name.day));
    var closed := CloseLeads(v.reached, whole, v.run, v.now, name.day, exported, v.retention);
    var linked := LinkLeads(v.reached, closed, v.run, v.now, name, exported, v.retention);
    t := SyncLeads(v.reached, linked, v.run, v.now, name, exported, v.retention);
  }

  /** Others insert some records. */
  lemma {:induction false} ArrivalsLead(reached: Archive -> bool, s: Archive, arrivals: set<Record>,
                                        retention: Retention) returns (t: Archive)
    requires reached(s) && Closed(reached, retention) && DistinctIds(arrivals)
    requires forall r, q | r in arrivals && q in s.ever :: q.id != r.id
    ensures reached(t) && t == s.(db := s.db + arrivals, ever := s.ever + arrivals)
    decreases arrivals
  {
    if arrivals == {} {
      assert s.db + arrivals == s.db && s.ever + arrivals == s.ever;
      t := s;
    } else {
      var r :| r in arrivals;
      var inserted := ReachesOn(reached, s, Insert(r), retention);
      t := ArrivalsLead(reached, inserted, arrivals - {r}, retention);
      assert s.db + {r} + (arrivals - {r}) == s.db + arrivals;
      assert s.ever + {r} + (arrivals - {r}) == s.ever + arrivals;
    }
  }

  lemma {:induction false} Listed(ids: set<nat>) returns (list: seq<nat>)
    ensures multiset(list) == multiset(ids)
  {
    if ids == {} {
      list := [];
    } else {
      var id :| id in ids;
      var rest := Listed(ids - {id});
      list := rest + [id];
      assert multiset(ids) == multiset(ids - {id}) + multiset{id};
    }
  }

  /** The transaction of the day. */
  lemma {:induction false} DeleteLeads(reached: Archive -> bool, s: Archive, run: RunId, now: Instant, name: Name,
                                       exported: seq<Record>, deleted: seq<nat>, retention: Retention)
    returns (t: Archive)
    requires reached(s) && Closed(reached, retention) && run in s.runs
    requires s.runs[run] == Run(now, Kept(name.day, name, exported))
    requires multiset(deleted) == multiset(IdsOf(OfDay(s.db, name.day)))
    ensures reached(t)
    ensures var same := Sort(deleted) == Sort(Ids(exported));
            t == Staged(s, run, now, Idle).(db := if same then s.db - OfDay(s.db, name.day) else s.db)
  {
    t := ReachesOn(reached, s, DeleteDay(run, deleted), retention);
  }

  /** What a day leaves that was kept in a file, while some records arrived. */
  function AfterArchiving(v: View, name: Name, arrivals: set<Record>): View {
    var s := v.state;
    v.(state := s.(
      db := s.db + arrivals - (if OfDay(arrivals, name.day) == {} then OfDay(s.db, name.day) else {}),
      ever := s.ever + arrivals,
      files := s.files[name := Ids(Sorted(OfDay(s.db, name.day)))],
      synced := s.synced + {name},
      writing := s.writing - {v.run}))
  }

  /** What the transaction leaves in the database. */
  lemma {:induction false} DeletesUnlessArrived(db: set<Record>, arrivals: set<Record>, day: Day, deleted: seq<nat>)
    requires DistinctIds(db + arrivals) && db !! arrivals
    requires multiset(deleted) == multiset(IdsOf(OfDay(db + arrivals, day)))
    ensures var same := Sort(deleted) == Sort(Ids(Sorted(OfDay(db, day))));
            (if same then db + arrivals - OfDay(db + arrivals, day) else db + arrivals)
            == db + arrivals - (if OfDay(arrivals, day) == {} then OfDay(db, day) else {})
  {
    FindsArrivals(db, arrivals, day, deleted);
    if OfDay(arrivals, day) == {} {
      LeavesTheRest(db, arrivals, day);
    }
  }

  /** The transaction of a day that is in its file, while some records arrived. */
  lemma {:induction false} ArrivedDayLeads(reached: Archive -> bool, s: Archive, run: RunId, now: Instant, name: Name,
                                           exported: seq<Record>, arrivals: set<Record>, retention: Retention)
    returns (t: Archive)
    requires reached(s) && Closed(reached, retention) && run in s.runs
    requires s.runs[run] == Run(now, Kept(name.day, name, exported))
    requires exported == Sorted(OfDay(s.db, name.day)) && DistinctIds(s.db + arrivals) && s.db !! arrivals
    requires forall r, q | r in arrivals && q in s.ever :: q.id != r.id
    ensures reached(t)
    ensures t == Staged(s, run, now, Idle).(
              db := s.db + arrivals - (if OfDay(arrivals, name.day) == {} then OfDay(s.db, name.day) else {}),
              ever := s.ever + arrivals)
  {
    var grown := ArrivalsLead(reached, s, arrivals, retention);
    var deleted := Listed(IdsOf(OfDay(s.db + arrivals, name.day)));
    t := DeleteLeads(reached, grown, run, now, name, exported, deleted, retention);
    DeletesUnlessArrived(s.db, arrivals, name.day, deleted);
  }

  /** A day whose file reads back: it leaves the database in the end, unless others inserted records of it. */
  lemma {:induction false} ArchivedDayLeads(v: View, name: Name, arrivals: set<Record>)
    requires IsView(v) && Before(name.day, Cutoff(v.now, v.retention.databaseMonths))
    requires OfDay(v.state.db, name.day) != {}
    requires name.copy >= 1 && name !in v.state.files
    requires DistinctIds(v.state.db + arrivals) && v.state.db !! arrivals
    requires forall r, q | r in arrivals && q in v.state.ever :: q.id != r.id
    ensures IsView(AfterArchiving(v, name, arrivals))
  {
    var exported := Sorted(OfDay(v.state.db, name.day));
    var kept := KeptDayLeads(v, name);
    var t := ArrivedDayLeads(v.reached, kept, v.run, v.now, name, exported, arrivals, v.retention);
    assert t.runs == v.state.runs;
  }

  /** A run begins, and clears the folder of unfinished files. */
  lemma {:induction false} BeginLeads(s: Archive, run: RunId, retention: Retention) returns (v: View)
    requires run !in s.runs && run !in s.writing && Exists(s.clock.day)
    ensures v.reached == (t => Reaches(s, t, retention)) && v.run == run && v.now == s.clock && v.retention == retention
    ensures IsView(v) && v.state == s.(runs := s.runs[run := Run(s.clock, Idle)], writing := map[])
  {
    ghost var reached := t => Reaches(s, t, retention);
    ReachableIsClosed(s, retention);
    var begun := ReachesOn(reached, s, Begin(run), retention);
    var cleared := ReachesOn(reached, begun, DiscardUnfinished(run), retention);
    v := View(reached, cleared, run, s.clock, retention);
  }

  /** Retention deletes some of the files it may. */
  lemma {:induction false} DeletionsLead(v: View, names: set<Name>) returns (w: View)
    requires IsView(v) && names <= v.state.files.Keys
    requires forall n | n in names :: Before(n.day, Cutoff(v.now, v.retention.archiveMonths))
    ensures IsView(w) && w == v.(state := w.state) && w.state.db == v.state.db && w.state.files == v.state.files - names
    decreases names
  {
    if names == {} {
      w := v;
    } else {
      var n :| n in names;
      var t := ReachesOn(v.reached, v.state, DeleteFile(v.run, n), v.retention);
      w := DeletionsLead(v.(state := t), names - {n});
      assert v.state.files - {n} - (names - {n}) == v.state.files - names;
    }
  }

  /** The run ends. */
  lemma {:induction false} EndLeads(v: View) returns (t: Archive)
    requires IsView(v)
    ensures v.reached(t) && t.db == v.state.db && t.files == v.state.files && v.run !in t.runs
  {
    t := ReachesOn(v.reached, v.state, End(v.run), v.retention);
  }
}
