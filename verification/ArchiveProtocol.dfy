/**
 * The archive of the audit trail as a protocol: runs that overlap, crash or lose power between any two steps, while
 * other transactions insert records. No record is lost on the way from the database to the files.
 */
module ArchiveProtocol {
  import opened AuditExport
  import opened Calendar

  type RunId = nat

  /** `audit-<day>.jsonl.gz` is copy 1 of the day; the next ones carry their number. */
  datatype Name = Name(day: Day, copy: nat)

  datatype Retention = Retention(databaseMonths: nat, archiveMonths: nat)

  /** What a run does with the day at hand. */
  datatype Stage =
    | Idle
    | Exporting(day: Day, exported: seq<Record>, whole: bool)
    | Compared(day: Day, exported: seq<Record>)
    | Linked(day: Day, name: Name, exported: seq<Record>)
    | Kept(day: Day, name: Name, exported: seq<Record>)

  datatype Run = Run(now: Instant, stage: Stage)

  /**
   * The database, the folder with the names that survive a power cut (`synced`), the file each run is writing, and the
   * history: every record ever inserted and every file deleted by retention.
   */
  datatype Archive = Archive(
    clock: Instant,
    db: set<Record>,
    files: map<Name, seq<nat>>,
    synced: set<Name>,
    writing: map<RunId, seq<nat>>,
    runs: map<RunId, Run>,
    ever: set<Record>,
    removed: set<(Name, seq<nat>)>)

  datatype Step =
    | Insert(record: Record)
    | Tick(now: Instant)
    | Begin(run: RunId)
    | DiscardUnfinished(run: RunId)
    | Start(run: RunId, day: Day)
    | ReadPage(run: RunId)
    | Close(run: RunId, readBack: seq<nat>)
    | Fail(run: RunId)
    | Link(run: RunId, copy: nat)
    | Sync(run: RunId)
    | DeleteDay(run: RunId, deleted: seq<nat>)
    | DeleteFile(run: RunId, name: Name)
    | End(run: RunId)
    | Crash(lost: set<Name>)

  /** The settings of the environment: a record stays longer in the files than in the database. */
  predicate Valid(retention: Retention) { retention.databaseMonths < retention.archiveMonths }

  predicate Working(s: Archive, run: RunId) { run in s.runs }

  /** When each step can be taken. */
  predicate Enabled(s: Archive, step: Step, retention: Retention) {
    match step
    case Insert(r) => forall q | q in s.ever :: q.id != r.id
    case Tick(now) => Exists(now.day) && !Earlier(now, s.clock)
    case Begin(run) => run !in s.runs && run !in s.writing
    case DiscardUnfinished(run) => Working(s, run) && s.runs[run].stage == Idle
    case Start(run, day) =>
      Working(s, run) && s.runs[run].stage == Idle && Exists(s.runs[run].now.day)
      && Before(day, Cutoff(s.runs[run].now, retention.databaseMonths))
    case ReadPage(run) => Working(s, run) && s.runs[run].stage.Exporting? && !s.runs[run].stage.whole
    case Close(run, _) =>
      Working(s, run) && s.runs[run].stage.Exporting? && s.runs[run].stage.whole && s.runs[run].stage.exported != []
      && run in s.writing
    case Fail(run) => Working(s, run)
    case Link(run, copy) =>
      Working(s, run) && s.runs[run].stage.Compared? && run in s.writing
      && copy >= 1 && Name(s.runs[run].stage.day, copy) !in s.files
    case Sync(run) => Working(s, run) && s.runs[run].stage.Linked?
    case DeleteDay(run, deleted) =>
      Working(s, run) && s.runs[run].stage.Kept?
      && multiset(deleted) == multiset(IdsOf(OfDay(s.db, s.runs[run].stage.day)))
    case DeleteFile(run, name) =>
      Working(s, run) && s.runs[run].stage == Idle && Exists(s.runs[run].now.day) && name in s.files
      && Before(name.day, Cutoff(s.runs[run].now, retention.archiveMonths))
    case End(run) => Working(s, run) && s.runs[run].stage == Idle
    case Crash(lost) => lost !! s.synced
  }

  /** Where a step leaves the run that takes it. */
  function NextStage(s: Archive, step: Step, retention: Retention): Stage
    requires Enabled(s, step, retention)
    requires step.Start? || step.ReadPage? || step.Close? || step.Fail? || step.Link? || step.Sync? || step.DeleteDay?
  {
    var stage := s.runs[step.run].stage;
    match step
    case Start(_, day) => Exporting(day, [], false)
    case ReadPage(_) =>
      var page := EntriesOf(s.db, stage.day, PositionAfter(stage.exported), ARCHIVE_BATCH_SIZE);
      Exporting(stage.day, stage.exported + page, |page| < ARCHIVE_BATCH_SIZE)
    case Close(_, readBack) => if readBack == Ids(stage.exported) then Compared(stage.day, stage.exported) else Idle
    case Link(_, copy) => Linked(stage.day, Name(stage.day, copy), stage.exported)
    case Sync(_) => Kept(stage.day, stage.name, stage.exported)
    case _ => Idle
  }

  function NextRuns(s: Archive, step: Step, retention: Retention): map<RunId, Run>
    requires Enabled(s, step, retention)
  {
    match step
    case Insert(_) => s.runs
    case Tick(_) => s.runs
    case DiscardUnfinished(_) => s.runs
    case DeleteFile(_, _) => s.runs
    case Begin(run) => s.runs[run := Run(s.clock, Idle)]
    case End(run) => s.runs - {run}
    case Crash(_) => map[]
    case _ => s.runs[step.run := s.runs[step.run].(stage := NextStage(s, step, retention))]
  }

  /** What a step does to the database and the folder. */
  function Apply(s: Archive, step: Step, retention: Retention): Archive
    requires Enabled(s, step, retention)
  {
    var t := s.(runs := NextRuns(s, step, retention));
    match step
    case Insert(r) => t.(db := s.db + {r}, ever := s.ever + {r})
    case Tick(now) => t.(clock := now)
    case Begin(_) => t
    case DiscardUnfinished(_) => t.(writing := map[])
    case Start(run, _) => t.(writing := s.writing[run := []])
    case ReadPage(_) => t
    case Close(run, readBack) =>
      t.(writing :=
           if readBack == Ids(s.runs[run].stage.exported) then s.writing[run := readBack] else s.writing - {run})
    case Fail(run) => t.(writing := s.writing - {run})
    case Link(run, copy) => t.(files := s.files[Name(s.runs[run].stage.day, copy) := s.writing[run]])
    case Sync(run) =>
      var name := s.runs[run].stage.name;
      t.(writing := s.writing - {run}, synced := if name in s.files then s.synced + {name} else s.synced)
    case DeleteDay(run, deleted) =>
      var stage := s.runs[run].stage;
      if Sort(deleted) == Sort(Ids(stage.exported)) then t.(db := s.db - OfDay(s.db, stage.day)) else t
    case DeleteFile(_, name) =>
      t.(files := s.files - {name}, synced := s.synced - {name}, removed := s.removed + {(name, s.files[name])})
    case End(run) => t.(writing := s.writing - {run})
    case Crash(lost) => t.(files := s.files - lost)
  }

  // ---- The invariant ----

  /** The file is there for good, or retention deleted it. */
  predicate Stored(s: Archive, name: Name, ids: seq<nat>) {
    (name in s.files && s.files[name] == ids && name in s.synced) || (name, ids) in s.removed
  }

  /** The file has its name, which a power cut may still take away. */
  predicate Named(s: Archive, name: Name, ids: seq<nat>) {
    (name in s.files && s.files[name] == ids) || (name, ids) in s.removed
  }

  ghost predicate Archived(s: Archive, r: Record) {
    exists name, ids :: Stored(s, name, ids) && name.day == r.at.day && r.id in ids
  }

  /** No record is lost. */
  ghost predicate NothingLost(s: Archive) { forall r | r in s.ever && r !in s.db :: Archived(s, r) }

  ghost predicate RecordsAreTheirIds(s: Archive) {
    && s.db <= s.ever
    && forall a, b | a in s.ever && b in s.ever && a.id == b.id :: a == b
  }

  /** What a run holds is true of the folder. */
  predicate StageHolds(s: Archive, run: RunId)
    requires Working(s, run)
  {
    var stage := s.runs[run].stage;
    match stage
    case Idle => true
    case Exporting(day, exported, _) => Exported(exported, day, s.ever)
    case Compared(day, exported) =>
      Exported(exported, day, s.ever) && (run in s.writing ==> s.writing[run] == Ids(exported))
    case Linked(day, name, exported) =>
      Exported(exported, day, s.ever) && name.day == day && Named(s, name, Ids(exported))
    case Kept(day, name, exported) =>
      Exported(exported, day, s.ever) && name.day == day && Stored(s, name, Ids(exported))
  }

  ghost predicate TimesHold(s: Archive) {
    && Exists(s.clock.day)
    && forall run | Working(s, run) :: Exists(s.runs[run].now.day) && !Earlier(s.clock, s.runs[run].now)
  }

  predicate AllBefore(removed: set<(Name, seq<nat>)>, cutoff: Day) {
    forall f | f in removed :: Before(f.0.day, cutoff)
  }

  /** Retention only deletes files of days that already left the database retention. */
  predicate RemovedInTime(s: Archive, retention: Retention)
    requires Exists(s.clock.day)
  {
    AllBefore(s.removed, Cutoff(s.clock, retention.databaseMonths))
  }

  ghost predicate Inv(s: Archive, retention: Retention) {
    && RecordsAreTheirIds(s) && TimesHold(s) && RemovedInTime(s, retention)
    && s.synced <= s.files.Keys
    && (forall run | Working(s, run) :: StageHolds(s, run))
    && NothingLost(s)
  }

  /** Whatever is stored stays stored. */
  lemma {:induction false} StoredStays(s: Archive, step: Step, retention: Retention, name: Name, ids: seq<nat>)
    requires Enabled(s, step, retention) && s.synced <= s.files.Keys && Stored(s, name, ids)
    ensures Stored(Apply(s, step, retention), name, ids)
  {
  }

  /** A step leaves the runs that `NextRuns` says. */
  lemma {:induction false} RunsAfter(s: Archive, step: Step, retention: Retention, runs: map<RunId, Run>)
    requires Enabled(s, step, retention) && runs == NextRuns(s, step, retention)
    ensures Apply(s, step, retention).runs == runs
  {
    match step
    case Insert(_) =>
    case Tick(_) =>
    case Begin(_) =>
    case DiscardUnfinished(_) =>
    case Start(_, _) =>
    case ReadPage(_) =>
    case Close(_, _) =>
    case Fail(_) =>
    case Link(_, _) =>
    case Sync(_) =>
    case DeleteDay(_, _) =>
    case DeleteFile(_, _) =>
    case End(_) =>
    case Crash(_) =>
  }

  /** The instant of a run is the one it began with. */
  lemma {:induction false} RunsKeepNow(s: Archive, step: Step, retention: Retention, run: RunId)
    requires Enabled(s, step, retention) && run in NextRuns(s, step, retention)
    ensures NextRuns(s, step, retention)[run].now == if Working(s, run) then s.runs[run].now else s.clock
    ensures step.Tick? ==> Working(s, run)
  {
  }

  lemma {:induction false} NotLaterThan(now: Instant, clock: Instant, later: Instant)
    requires !Earlier(clock, now) && !Earlier(later, clock)
    ensures !Earlier(later, now)
  {
  }

  lemma {:induction false} TimesStay(s: Archive, step: Step, retention: Retention)
    requires Enabled(s, step, retention) && TimesHold(s)
    ensures TimesHold(Apply(s, step, retention))
  {
    var t := Apply(s, step, retention);
    assert Exists(t.clock.day) && !Earlier(t.clock, s.clock);
    forall run | Working(t, run) ensures Exists(t.runs[run].now.day) && !Earlier(t.clock, t.runs[run].now) {
      RunsKeepNow(s, step, retention, run);
      if Working(s, run) {
        NotLaterThan(s.runs[run].now, s.clock, t.clock);
      }
    }
  }

  lemma {:induction false} RemovedStayInTime(s: Archive, step: Step, retention: Retention)
    requires Enabled(s, step, retention) && Valid(retention) && TimesHold(s) && RemovedInTime(s, retention)
    ensures Exists(Apply(s, step, retention).clock.day) && RemovedInTime(Apply(s, step, retention), retention)
  {
    var months := retention.databaseMonths;
    if step.Tick? {
      CutoffAdvances(s.clock, step.now, months);
    } else if step.DeleteFile? {
      var now := s.runs[step.run].now;
      LongerEndsEarlier(now, months, retention.archiveMonths);
      CutoffAdvances(now, s.clock, months);
    }
  }

  lemma {:induction false} NamedStays(s: Archive, step: Step, retention: Retention, name: Name, ids: seq<nat>)
    requires Enabled(s, step, retention) && !step.Crash? && Named(s, name, ids)
    ensures Named(Apply(s, step, retention), name, ids)
  {
  }

  /** A run that does not take the step keeps what it knew. */
  lemma {:induction false} OthersStay(s: Archive, step: Step, retention: Retention, run: RunId)
    requires Enabled(s, step, retention) && s.synced <= s.files.Keys && Working(s, run) && StageHolds(s, run)
    requires var t := Apply(s, step, retention); Working(t, run) && t.runs[run] == s.runs[run]
    requires step.Start? || step.Close? ==> step.run != run
    ensures StageHolds(Apply(s, step, retention), run)
  {
    match s.runs[run].stage
    case Linked(_, name, exported) => NamedStays(s, step, retention, name, Ids(exported));
    case Kept(_, name, exported) => StoredStays(s, step, retention, name, Ids(exported));
    case _ =>
  }

  /** A run that takes a step knows what its next stage needs. */
  lemma {:induction false} OwnStageHolds(s: Archive, step: Step, retention: Retention, run: RunId)
    requires Enabled(s, step, retention) && s.db <= s.ever && Working(s, run) && StageHolds(s, run)
    requires Advances(step, run)
    ensures StageHolds(Apply(s, step, retention), run)
  {
    if step.ReadPage? {
      var stage := s.runs[run].stage;
      PageGoesOn(stage.exported, s.db, stage.day, ARCHIVE_BATCH_SIZE, s.ever);
    }
  }

  /** The steps that move a run from one stage to another that holds something. */
  predicate Advances(step: Step, run: RunId) {
    (step.ReadPage? || step.Close? || step.Link? || step.Sync?) && step.run == run
  }

  /** Any other step leaves a run that holds something where it was, or begins its export. */
  lemma {:induction false} OnlyOwnSteps(s: Archive, step: Step, retention: Retention, run: RunId)
    requires Enabled(s, step, retention) && run in NextRuns(s, step, retention) && !Advances(step, run)
    ensures var stage := NextRuns(s, step, retention)[run].stage;
            || stage == Idle || (step.Start? && step.run == run && stage == Exporting(step.day, [], false))
            || (Working(s, run) && s.runs[run] == NextRuns(s, step, retention)[run]
                && !(step.Start? && step.run == run))
  {
  }

  lemma {:induction false} StageStays(s: Archive, step: Step, retention: Retention, run: RunId)
    requires Enabled(s, step, retention) && s.db <= s.ever && s.synced <= s.files.Keys
    requires Working(Apply(s, step, retention), run) && (Working(s, run) ==> StageHolds(s, run))
    ensures StageHolds(Apply(s, step, retention), run)
  {
    if Advances(step, run) {
      OwnStageHolds(s, step, retention, run);
    } else {
      RunsAfter(s, step, retention, NextRuns(s, step, retention));
      OnlyOwnSteps(s, step, retention, run);
      var t := Apply(s, step, retention);
      if t.runs[run].stage != Idle && Working(s, run) && t.runs[run] == s.runs[run]
          && !(step.Start? && step.run == run) {
        OthersStay(s, step, retention, run);
      }
    }
  }

  lemma {:induction false} StagesStay(s: Archive, step: Step, retention: Retention)
    requires Enabled(s, step, retention) && s.db <= s.ever && s.synced <= s.files.Keys
    requires forall run | Working(s, run) :: StageHolds(s, run)
    ensures forall run | Working(Apply(s, step, retention), run) :: StageHolds(Apply(s, step, retention), run)
  {
    forall run | Working(Apply(s, step, retention), run) ensures StageHolds(Apply(s, step, retention), run) {
      StageStays(s, step, retention, run);
    }
  }

  /** What a day's transaction deletes is exactly what its file holds. */
  lemma {:induction false} DeletesWhatWasExported(s: Archive, day: Day, exported: seq<Record>, deleted: seq<nat>)
    requires RecordsAreTheirIds(s) && Exported(exported, day, s.ever)
    requires multiset(deleted) == multiset(IdsOf(OfDay(s.db, day)))
    requires Sort(deleted) == Sort(Ids(exported))
    ensures forall r :: r in exported <==> r in OfDay(s.db, day)
  {
    SortedComparesAll(deleted, Ids(exported));
    var ids := IdsOf(OfDay(s.db, day));
    forall r ensures r in exported <==> r in OfDay(s.db, day) {
      if r in exported {
        var i :| 0 <= i < |exported| && exported[i] == r;
        assert Ids(exported)[i] == r.id && r.id in multiset(Ids(exported));
        assert r.id in multiset(ids);
        assert r.id in ids;
      }
      if r in OfDay(s.db, day) {
        assert r.id in ids;
        assert r.id in multiset(deleted);
        assert r.id in Ids(exported);
        var i :| 0 <= i < |exported| && Ids(exported)[i] == r.id;
        assert exported[i] == r;
      }
    }
  }

  lemma {:induction false} RecordStaysArchived(s: Archive, step: Step, retention: Retention, r: Record)
    requires Enabled(s, step, retention) && s.synced <= s.files.Keys && Archived(s, r)
    ensures Archived(Apply(s, step, retention), r)
  {
    var name, ids :| Stored(s, name, ids) && name.day == r.at.day && r.id in ids;
    StoredStays(s, step, retention, name, ids);
  }

  lemma {:induction false} NothingIsLost(s: Archive, step: Step, retention: Retention)
    requires Enabled(s, step, retention) && RecordsAreTheirIds(s) && s.synced <= s.files.Keys && NothingLost(s)
    requires forall run | Working(s, run) :: StageHolds(s, run)
    ensures NothingLost(Apply(s, step, retention))
  {
    var t := Apply(s, step, retention);
    forall r | r in t.ever && r !in t.db ensures Archived(t, r) {
      if r in s.db {
        assert step.DeleteDay?;
        var stage := s.runs[step.run].stage;
        DeletesWhatWasExported(s, stage.day, stage.exported, step.deleted);
        var i :| 0 <= i < |stage.exported| && stage.exported[i] == r;
        assert Ids(stage.exported)[i] == r.id;
        assert Stored(t, stage.name, Ids(stage.exported));
      } else {
        RecordStaysArchived(s, step, retention, r);
      }
    }
  }

  /** Every step keeps the invariant. */
  lemma {:induction false} StepIsSafe(s: Archive, step: Step, retention: Retention)
    requires Enabled(s, step, retention) && Valid(retention) && Inv(s, retention)
    ensures Inv(Apply(s, step, retention), retention)
  {
    TimesStay(s, step, retention);
    RemovedStayInTime(s, step, retention);
    StagesStay(s, step, retention);
    NothingIsLost(s, step, retention);
  }

  // ---- Whole runs ----

  /** The steps can be taken one after the other, from `s` to `t`. */
  ghost predicate Leads(s: Archive, steps: seq<Step>, retention: Retention, t: Archive)
    decreases steps
  {
    if steps == [] then s == t
    else Enabled(s, steps[0], retention) && Leads(Apply(s, steps[0], retention), steps[1..], retention, t)
  }

  predicate Initial(s: Archive) {
    && Exists(s.clock.day) && s.files == map[] && s.synced == {} && s.writing == map[] && s.runs == map[]
    && s.db == {} && s.ever == {} && s.removed == {}
  }

  lemma {:induction false} KeepsInv(s: Archive, steps: seq<Step>, retention: Retention, t: Archive)
    requires Valid(retention) && Inv(s, retention) && Leads(s, steps, retention, t)
    ensures Inv(t, retention)
    decreases steps
  {
    if steps == [] {
    } else {
      StepIsSafe(s, steps[0], retention);
      KeepsInv(Apply(s, steps[0], retention), steps[1..], retention, t);
    }
  }

  /**
   * Whatever overlaps, fails or crashes: every record ever inserted is in the database, in a file of its day that
   * survives power cuts, or in one that retention deleted after the day had left the retention of the database.
   */
  lemma {:induction false} NoRecordIsLost(s: Archive, steps: seq<Step>, retention: Retention, t: Archive, r: Record)
    requires Valid(retention) && Initial(s) && Leads(s, steps, retention, t) && r in t.ever
    ensures r in t.db || exists name, ids :: Stored(t, name, ids) && name.day == r.at.day && r.id in ids
    ensures Exists(t.clock.day)
    ensures forall f | f in t.removed :: Before(f.0.day, Cutoff(t.clock, retention.databaseMonths))
  {
    KeepsInv(s, steps, retention, t);
    if r !in t.db {
      assert Archived(t, r);
    }
  }

  /** A kept file never changes: to the end of any run it is there with what it held, unless retention deleted it so. */
  lemma {:induction false} KeptFilesNeverChange(
      s: Archive, steps: seq<Step>, retention: Retention, t: Archive, name: Name, ids: seq<nat>)
    requires Valid(retention) && Inv(s, retention) && Leads(s, steps, retention, t) && Stored(s, name, ids)
    ensures Stored(t, name, ids)
    decreases steps
  {
    if steps == [] {
    } else {
      StepIsSafe(s, steps[0], retention);
      StoredStays(s, steps[0], retention, name, ids);
      KeptFilesNeverChange(Apply(s, steps[0], retention), steps[1..], retention, t, name, ids);
    }
  }

  /** Records leave the database only by a day's transaction, all those of the day at once, each of them in its file. */
  lemma {:induction false} LeavesByItsFile(s: Archive, step: Step, retention: Retention, r: Record)
    requires Enabled(s, step, retention) && Valid(retention) && Inv(s, retention)
    requires r in s.db && r !in Apply(s, step, retention).db
    ensures step.DeleteDay? && OfDay(Apply(s, step, retention).db, r.at.day) == {}
    ensures var stage := s.runs[step.run].stage;
            stage.Kept? && Stored(s, stage.name, Ids(stage.exported)) && stage.name.day == r.at.day
            && forall q :: q in stage.exported <==> q in OfDay(s.db, r.at.day)
  {
    assert StageHolds(s, step.run);
    var stage := s.runs[step.run].stage;
    DeletesWhatWasExported(s, stage.day, stage.exported, step.deleted);
  }
}
