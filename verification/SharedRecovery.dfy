/**
 The writer that rolls an interrupted transaction back, as a step machine that continues from any
 crash point of SharedWriter: for each applied entry the rolling_back checkpoint becomes durable
 first, then the file is put back, then rolled_back becomes durable. It may crash in its turn
 between any two steps of any interleaving of the entries.
 */
module SharedRecovery {
  import opened Common
  import opened FileSystem
  import opened Evidence
  import opened Operation
  import opened SharedJournal
  import opened SharedRollback
  import opened SharedWriter
  import opened UndoJobs
  import BudgetSoundness

  /** Each entry's stage: 0 as the crash left it, 1 rolling_back recorded, 2 file put back, 3 rolled_back recorded. */
  datatype Recovery = Recovery(disk: Disk, stages: seq<nat>)

  function WordIn(rank: nat, stage: nat): Word {
    if stage == 0 then WordAt(rank) else if stage < 3 then ROLLING_BACK else ROLLED_BACK
  }

  function EntryIn(task: Task, style: Style, rank: nat, stage: nat): Entry {
    var left := EntryLeft(task, style, rank);
    left.(state := WordIn(rank, stage))
  }

  function JournalIn(setup: Setup, style: Style, w: World, r: Recovery, state: Word): (journal: Journal)
    ensures |journal.entries| == |setup.tasks|
  {
    Journal(true, state, Decodes(setup.approvedSourceRoot), Decodes(setup.backupRoot),
      seq(|setup.tasks|, i requires 0 <= i < |setup.tasks| =>
        EntryIn(setup.tasks[i], style,
          if i < |w.durable| then w.durable[i] else 0, if i < |r.stages| then r.stages[i] else 0)))
  }

  /** Only entries that were applied are rolled back; the file effect is undo as SharedRollback defines it. */
  ghost predicate Recovers(setup: Setup, style: Style, w: World, r: Recovery, next: Recovery, i: nat) {
    i < |setup.tasks| && |w.durable| == |w.ahead| == |r.stages| == |setup.tasks| &&
    Level(w, i) >= 4 && r.stages[i] < 3 &&
    next == Recovery(
      if r.stages[i] == 1 then UndoEntry(r.disk, EntryIn(setup.tasks[i], style, w.durable[i], 1), StillApplied)
      else r.disk,
      r.stages[i := r.stages[i] + 1])
  }

  ghost predicate RecoveryStep(setup: Setup, style: Style, w: World, r: Recovery, next: Recovery) {
    exists i: nat :: Recovers(setup, style, w, r, next, i)
  }

  ghost predicate IsRecovery(setup: Setup, style: Style, w: World, run: seq<Recovery>) {
    run != [] && run[0] == Recovery(w.disk, seq(|setup.tasks|, _ => 0)) &&
    forall k | 0 <= k < |run| - 1 :: RecoveryStep(setup, style, w, run[k], run[k + 1])
  }

  // ----- the invariant: each destination is as its entry's stage says

  ghost predicate IsStage(level: nat, stage: nat) {
    level <= LAST && stage <= 3 && (stage > 0 ==> level >= 4)
  }

  ghost predicate TaskRecovers(disk: Disk, task: Task, level: nat, stage: nat) {
    && ObjectAt(disk, DestinationOf(task)) == (if level >= 4 && stage < 2 then Some(task.incoming) else task.previous)
    && ObjectAt(disk, task.backup.parts) == (if level >= 2 then task.previous else None)
    && ObjectAt(disk, task.temporary.parts) == (if level == 3 then Some(task.incoming) else None)
  }

  ghost predicate RecoveryAgrees(start: Disk, setup: Setup, w: World, r: Recovery) {
    && SameSkeleton(start, r.disk) && |w.durable| == |w.ahead| == |r.stages| == |setup.tasks|
    && forall i | 0 <= i < |setup.tasks| ::
      IsStage(Level(w, i), r.stages[i]) && TaskRecovers(r.disk, setup.tasks[i], Level(w, i), r.stages[i])
  }

  /** The undo step finds destination and backup where the task put them. */
  lemma PutBack(start: Disk, setup: Setup, style: Style, disk: Disk, task: Task, rank: nat, level: nat)
    requires GoodTask(start, setup, task) && SameSkeleton(start, disk) && TaskRecovers(disk, task, level, 1)
    requires 4 <= level <= rank + 1
    ensures var next := UndoEntry(disk, EntryIn(task, style, rank, 1), StillApplied); var at := DestinationOf(task);
      next == disk.(objects :=
        if task.previous.Some? then disk.objects[at := task.previous.value] else disk.objects - {at})
  {
    TargetIn(disk, task, style, rank, 1);
    ReachableOnSkeleton(start, disk, DestinationOf(task));
    PlaceLeft(disk, Path(true, DestinationOf(task)));
    if task.previous.Some? {
      ReachableOnSkeleton(start, disk, task.backup.parts);
      PlainLookup(disk, task.backup.parts, true);
    }
  }

  lemma TargetIn(disk: Disk, task: Task, style: Style, rank: nat, stage: nat)
    requires task.root.absolute && !task.relative.absolute && !HasParentStep(task.relative)
    ensures TargetOf(disk, EntryIn(task, style, rank, stage)) ==
      Target(Some(Path(true, DestinationOf(task))), Some(task.root), false)
  {
    TargetLeft(disk, task, style, rank);
  }

  lemma PutBackSparesOther(disk: Disk, next: Disk, task: Task, other: Task, level: nat, stage: nat)
    requires SeparateTasks(task, other) && TaskRecovers(disk, other, level, stage)
    requires forall at | at != DestinationOf(task) :: SameAt(disk, next, at)
    ensures TaskRecovers(next, other, level, stage)
  {
    var mine := {DestinationOf(task), task.backup.parts, task.temporary.parts};
    assert DestinationOf(other) !in mine && other.backup.parts !in mine && other.temporary.parts !in mine;
    assert SameAt(disk, next, DestinationOf(other));
    assert SameAt(disk, next, other.backup.parts) && SameAt(disk, next, other.temporary.parts);
  }

  /** One entry is put back: its own task advances a stage, and the others do not notice. */
  lemma PutBackAdvances(start: Disk, setup: Setup, style: Style, disk: Disk, task: Task, rank: nat, level: nat)
    requires GoodTask(start, setup, task) && SameSkeleton(start, disk) && TaskRecovers(disk, task, level, 1)
    requires 4 <= level <= rank + 1
    ensures var next := UndoEntry(disk, EntryIn(task, style, rank, 1), StillApplied);
      SameSkeleton(start, next) && TaskRecovers(next, task, level, 2) &&
      forall at | at != DestinationOf(task) :: SameAt(disk, next, at)
  {
    PutBack(start, setup, style, disk, task, rank, level);
  }

  lemma PutBackKeepsAgreement(start: Disk, setup: Setup, style: Style, w: World, r: Recovery, next: Recovery, i: nat)
    requires GoodSetup(start, setup) && RecoveryAgrees(start, setup, w, r)
    requires Recovers(setup, style, w, r, next, i) && r.stages[i] == 1
    ensures RecoveryAgrees(start, setup, w, next)
  {
    var task := setup.tasks[i];
    assert GoodTask(start, setup, task) && TaskRecovers(r.disk, task, Level(w, i), r.stages[i]);
    PutBackAdvances(start, setup, style, r.disk, task, w.durable[i], Level(w, i));
    forall j | 0 <= j < |setup.tasks|
      ensures IsStage(Level(w, j), next.stages[j]) &&
        TaskRecovers(next.disk, setup.tasks[j], Level(w, j), next.stages[j])
    {
      assert IsStage(Level(w, j), r.stages[j]) && TaskRecovers(r.disk, setup.tasks[j], Level(w, j), r.stages[j]);
      if j != i {
        assert SeparateTasks(task, setup.tasks[j]);
        PutBackSparesOther(r.disk, next.disk, task, setup.tasks[j], Level(w, j), r.stages[j]);
      }
    }
  }

  lemma RecoveryStepKeepsAgreement(start: Disk, setup: Setup, style: Style, w: World, r: Recovery, next: Recovery)
    requires GoodSetup(start, setup) && RecoveryAgrees(start, setup, w, r)
    requires RecoveryStep(setup, style, w, r, next)
    ensures RecoveryAgrees(start, setup, w, next)
  {
    var i: nat :| Recovers(setup, style, w, r, next, i);
    if r.stages[i] == 1 {
      PutBackKeepsAgreement(start, setup, style, w, r, next, i);
    } else {
      forall j | 0 <= j < |setup.tasks|
        ensures IsStage(Level(w, j), next.stages[j]) &&
          TaskRecovers(next.disk, setup.tasks[j], Level(w, j), next.stages[j])
      {
        assert TaskRecovers(r.disk, setup.tasks[j], Level(w, j), r.stages[j]);
      }
    }
  }

  lemma RecoveryBegins(start: Disk, setup: Setup, w: World)
    requires GoodSetup(start, setup) && Agrees(start, setup, w)
    ensures RecoveryAgrees(start, setup, w, Recovery(w.disk, seq(|setup.tasks|, _ => 0)))
  {
    forall i | 0 <= i < |setup.tasks|
      ensures IsStage(Level(w, i), 0) && TaskRecovers(w.disk, setup.tasks[i], Level(w, i), 0)
    {
      assert TaskAgrees(w.disk, setup.tasks[i], Level(w, i));
    }
  }

  /** At every point of every interleaving the disk is as far back as the stages say. */
  lemma {:induction false} RecoveryRunAgrees(start: Disk, setup: Setup, style: Style, w: World, run: seq<Recovery>,
      k: nat)
    requires GoodSetup(start, setup) && Agrees(start, setup, w) && IsRecovery(setup, style, w, run) && k < |run|
    ensures RecoveryAgrees(start, setup, w, run[k])
  {
    if k == 0 {
      RecoveryBegins(start, setup, w);
    } else {
      RecoveryRunAgrees(start, setup, style, w, run, k - 1);
      RecoveryStepKeepsAgreement(start, setup, style, w, run[k - 1], run[k]);
    }
  }

  // ----- what the inspector makes of it

  function MarkIn(rank: nat, level: nat, stage: nat): Mark {
    if stage == 0 then MarkLeft(rank, level)
    else if stage == 1 then StillApplied
    else if stage == 2 then RolledBackAfterGap
    else RolledBackMark
  }

  lemma ProbesIn(start: Disk, setup: Setup, style: Style, disk: Disk, journal: Journal, task: Task, rank: nat,
      level: nat, stage: nat)
    requires GoodTask(start, setup, task) && SameSkeleton(start, disk) && TaskRecovers(disk, task, level, stage)
    requires IsStage(level, stage) && 4 <= level <= rank + 1 && stage > 0
    requires journal.approvedSourceRoot == Decodes(setup.approvedSourceRoot) &&
      journal.backupRoot == Decodes(setup.backupRoot)
    ensures var entry := EntryIn(task, style, rank, stage); var g := Gather(disk, Unlimited, journal, entry);
      g.limits == Unlimited && g.probes.destination.problem.None? && g.probes.destination.safePath &&
      (g.probes.backup.Some? ==> g.probes.backup.value.problem.None?) &&
      (g.probes.temporary.Some? ==> g.probes.temporary.value.problem.None?) &&
      (NewMatches(g.probes) <==> stage < 2) && (PreStateMatches(entry, g.probes) <==> stage >= 2) &&
      (g.probes.destination.exists_ <==> stage < 2 || task.previous.Some?) &&
      (g.probes.rolledBack.Some? <==> stage == 3 && task.previous.Some?) &&
      (g.probes.rolledBack.Some? ==> g.probes.rolledBack.value.identityMatches == Some(true)) &&
      (task.previous.Some? ==> BackupMatches(g.probes))
  {
    var entry := EntryIn(task, style, rank, stage);
    var destination := Path(true, DestinationOf(task));
    TargetIn(disk, task, style, rank, stage);
    ReachableOnSkeleton(start, disk, destination.parts);
    ReachableOnSkeleton(start, disk, task.backup.parts);
    ReachableOnSkeleton(start, disk, task.temporary.parts);
    PlainEvidence(disk, destination, Some(task.root), NewDigest(entry));
    PlainEvidence(disk, task.backup, Some(setup.backupRoot), BackupExpected(entry));
    PlainEvidence(disk, task.temporary, Some(task.root), None);
    PlainEvidence(disk, destination, Some(task.root), PreDigest(entry));
  }

  lemma EntryInReconciles(start: Disk, setup: Setup, style: Style, disk: Disk, journal: Journal, task: Task,
      rank: nat, level: nat, stage: nat)
    requires GoodTask(start, setup, task) && SameSkeleton(start, disk) && TaskRecovers(disk, task, level, stage)
    requires IsStage(level, stage) && rank <= level <= rank + 1
    requires journal.approvedSourceRoot == Decodes(setup.approvedSourceRoot) &&
      journal.backupRoot == Decodes(setup.backupRoot)
    ensures JudgeEntry(disk, Unlimited, journal, EntryIn(task, style, rank, stage)) ==
      (CleanFinding(MarkIn(rank, level, stage)), Unlimited)
  {
    if stage == 0 {
      EntryReconciles(start, setup, style, disk, journal, task, rank, level);
      assert EntryIn(task, style, rank, 0) == EntryLeft(task, style, rank);
    } else {
      var entry := EntryIn(task, style, rank, stage);
      TargetIn(disk, task, style, rank, stage);
      ProbesIn(start, setup, style, disk, journal, task, rank, level, stage);
      var probes := Gather(disk, Unlimited, journal, entry).probes;
      assert IsWithin(disk, task.source, setup.approvedSourceRoot);
      assert SourceIsBound(disk, journal, entry);
      assert MarkOf(entry, probes) == MarkIn(rank, level, stage);
      assert !LacksBackup(entry, probes);
      assert !PathsUnproven(disk, journal, entry, probes);
    }
  }

  ghost predicate AllCleanIn(setup: Setup, w: World, r: Recovery, each: seq<Finding>)
    requires |w.durable| == |w.ahead| == |r.stages| == |setup.tasks|
  {
    |each| <= |setup.tasks| &&
    forall i | 0 <= i < |each| :: each[i] == CleanFinding(MarkIn(w.durable[i], Level(w, i), r.stages[i]))
  }

  lemma EntryOfJournalInReconciles(start: Disk, setup: Setup, style: Style, w: World, r: Recovery, state: Word, i: nat)
    requires GoodSetup(start, setup) && RecoveryAgrees(start, setup, w, r) && i < |setup.tasks|
    ensures var journal := JournalIn(setup, style, w, r, state);
      JudgeEntry(r.disk, Unlimited, journal, journal.entries[i]) ==
        (CleanFinding(MarkIn(w.durable[i], Level(w, i), r.stages[i])), Unlimited)
  {
    var journal, task := JournalIn(setup, style, w, r, state), setup.tasks[i];
    var rank, level, stage := w.durable[i], Level(w, i), r.stages[i];
    assert GoodTask(start, setup, task) && IsStage(level, stage) && TaskRecovers(r.disk, task, level, stage);
    assert journal.entries[i] == EntryIn(task, style, rank, stage);
    EntryInReconciles(start, setup, style, r.disk, journal, task, rank, level, stage);
  }

  lemma {:induction false} FindingsInAreClean(
    start: Disk, setup: Setup, style: Style, w: World, r: Recovery, state: Word, n: nat)
    requires GoodSetup(start, setup) && RecoveryAgrees(start, setup, w, r) && n <= |setup.tasks|
    ensures var f := JudgeFirst(r.disk, Unlimited, JournalIn(setup, style, w, r, state), n);
      f.limits == Unlimited && AllCleanIn(setup, w, r, f.each)
  {
    if n > 0 {
      FindingsInAreClean(start, setup, style, w, r, state, n - 1);
      EntryOfJournalInReconciles(start, setup, style, w, r, state, n - 1);
    }
  }

  lemma MarkInCounts(start: Disk, setup: Setup, w: World, r: Recovery, n: nat)
    requires GoodSetup(start, setup) && Agrees(start, setup, w) && RecoveryAgrees(start, setup, w, r) &&
      n < |setup.tasks|
    ensures CountsCompleted(MarkIn(w.durable[n], Level(w, n), r.stages[n])) <==> HoldsNew(w.disk, setup.tasks[n])
  {
    MarkCountsNew(start, setup, w, n);
    assert IsStage(Level(w, n), r.stages[n]);
  }

  /** Whatever its stage, an entry counts as completed exactly when the crashed writer had replaced its file. */
  lemma {:induction false} TallyIn(start: Disk, setup: Setup, w: World, r: Recovery, each: seq<Finding>)
    requires GoodSetup(start, setup) && Agrees(start, setup, w) && RecoveryAgrees(start, setup, w, r)
    requires AllCleanIn(setup, w, r, each)
    ensures TallyOf(each) == Tally(false, false, false, CountNew(w.disk, setup.tasks[..|each|]))
  {
    if each != [] {
      var n := |each| - 1;
      TallyIn(start, setup, w, r, each[..n]);
      MarkInCounts(start, setup, w, r, n);
      CleanStep(each, MarkIn(w.durable[n], Level(w, n), r.stages[n]), CountNew(w.disk, setup.tasks[..n]));
      CountStep(w.disk, setup.tasks, n);
    }
  }

  // ----- a budget that covers the files

  lemma UndoKeepsSizes(disk: Disk, entry: Entry, mark: Mark, bound: nat)
    requires entry.Entry? && FilesWithin(disk, bound)
    ensures FilesWithin(UndoEntry(disk, entry, mark), bound)
  {
    var next := UndoEntry(disk, entry, mark);
    forall at | IsRegular(next, at) ensures next.objects[at].size <= bound {
      var backup := OptionalPath(entry.backupPath);
      if backup.Some? && Stat(disk, backup.value).Found? &&
        next.objects[at] == disk.objects[Stat(disk, backup.value).at] {
        assert IsRegular(disk, Stat(disk, backup.value).at);
      } else {
        assert IsRegular(disk, at);
      }
    }
  }

  lemma {:induction false} RecoveryKeepsSizes(setup: Setup, style: Style, w: World, run: seq<Recovery>, k: nat,
      bound: nat)
    requires IsRecovery(setup, style, w, run) && k < |run| && FilesWithin(w.disk, bound)
    ensures FilesWithin(run[k].disk, bound)
  {
    if k > 0 {
      RecoveryKeepsSizes(setup, style, w, run, k - 1, bound);
      assert RecoveryStep(setup, style, w, run[k - 1], run[k]);
      var i: nat :| Recovers(setup, style, w, run[k - 1], run[k], i);
      UndoKeepsSizes(run[k - 1].disk, EntryIn(setup.tasks[i], style, w.durable[i], 1), StillApplied, bound);
    }
  }

  /** A point of a recovery from a point of a run of a sound writer, inspected with a budget that covers the files. */
  ghost predicate IsRecoveryPoint(
    start: Disk, setup: Setup, style: Style, writing: seq<World>, m: nat, run: seq<Recovery>, k: nat, limits: Limits,
      bound: nat)
  {
    GoodSetup(start, setup) && IsRun(setup, start, writing) && m < |writing| && Covers(limits, bound, start, setup) &&
    IsRecovery(setup, style, writing[m], run) && k < |run|
  }

  lemma FindingsAtPoint(
    start: Disk, setup: Setup, style: Style, writing: seq<World>, m: nat, run: seq<Recovery>, k: nat, state: Word,
    limits: Limits, bound: nat)
    requires IsRecoveryPoint(start, setup, style, writing, m, run, k, limits, bound)
    ensures Agrees(start, setup, writing[m]) && RecoveryAgrees(start, setup, writing[m], run[k])
    ensures var each := JudgeAll(run[k].disk, limits, JournalIn(setup, style, writing[m], run[k], state)).each;
      AllCleanIn(setup, writing[m], run[k], each) &&
      TallyOf(each) == Tally(false, false, false, CountNew(writing[m].disk, setup.tasks))
  {
    var w, r := writing[m], run[k];
    var journal := JournalIn(setup, style, w, r, state);
    RunAgrees(start, setup, writing, m);
    RecoveryRunAgrees(start, setup, style, w, run, k);
    FindingsInAreClean(start, setup, style, w, r, state, |setup.tasks|);
    TallyIn(start, setup, w, r, JudgeAll(r.disk, Unlimited, journal).each);
    assert setup.tasks[..|setup.tasks|] == setup.tasks;
    if limits.Limits? {
      RunKeepsSizes(start, setup, writing, m, bound);
      RecoveryKeepsSizes(setup, style, w, run, k, bound);
      BudgetSoundness.AmpleSharedBudget(r.disk, limits, bound, journal, |setup.tasks|);
    }
  }

  // ----- the theorems

  /** The mark of an entry says whether its destination is back in its pre-state. */
  ghost predicate MarkTellsPreState(disk: Disk, entry: Entry, mark: Mark)
    requires entry.Entry?
  {
    IsUndone(mark) <==> !HoldsPreState(disk, entry)
  }

  lemma MarkInTells(start: Disk, setup: Setup, style: Style, disk: Disk, task: Task, rank: nat, level: nat, stage: nat)
    requires GoodTask(start, setup, task) && SameSkeleton(start, disk) && TaskRecovers(disk, task, level, stage)
    requires IsStage(level, stage) && rank <= level <= rank + 1
    ensures MarkTellsPreState(disk, EntryIn(task, style, rank, stage), MarkIn(rank, level, stage))
  {
    TargetIn(disk, task, style, rank, stage);
    ReachableOnSkeleton(start, disk, DestinationOf(task));
    PlaceLeft(disk, Path(true, DestinationOf(task)));
  }

  lemma MarksTell(start: Disk, setup: Setup, style: Style, w: World, r: Recovery, state: Word, i: nat)
    requires GoodSetup(start, setup) && RecoveryAgrees(start, setup, w, r) && i < |setup.tasks|
    ensures var entry := JournalIn(setup, style, w, r, state).entries[i];
      entry.Entry? && MarkTellsPreState(r.disk, entry, MarkIn(w.durable[i], Level(w, i), r.stages[i]))
  {
    assert GoodTask(start, setup, setup.tasks[i]);
    assert IsStage(Level(w, i), r.stages[i]) && TaskRecovers(r.disk, setup.tasks[i], Level(w, i), r.stages[i]);
    MarkInTells(start, setup, style, r.disk, setup.tasks[i], w.durable[i], Level(w, i), r.stages[i]);
  }

  /** The entries' findings are clean, and their marks true of the disk. */
  ghost predicate AllCleanAndTrue(disk: Disk, limits: Limits, journal: Journal) {
    var marks := MarksOf(disk, limits, journal);
    AllDecoded(journal) &&
    (forall i | 0 <= i < |marks| :: JudgeAll(disk, limits, journal).each[i] == CleanFinding(marks[i])) &&
    forall i | 0 <= i < |marks| :: MarkTellsPreState(disk, journal.entries[i], marks[i])
  }

  lemma CleanAndTrue(
    start: Disk, setup: Setup, style: Style, w: World, r: Recovery, state: Word, limits: Limits)
    requires GoodSetup(start, setup) && RecoveryAgrees(start, setup, w, r)
    requires AllCleanIn(setup, w, r, JudgeAll(r.disk, limits, JournalIn(setup, style, w, r, state)).each)
    ensures AllCleanAndTrue(r.disk, limits, JournalIn(setup, style, w, r, state))
  {
    var journal := JournalIn(setup, style, w, r, state);
    var marks := MarksOf(r.disk, limits, journal);
    forall i | 0 <= i < |marks|
      ensures journal.entries[i].Entry? && MarkTellsPreState(r.disk, journal.entries[i], marks[i])
      ensures JudgeAll(r.disk, limits, journal).each[i] == CleanFinding(marks[i])
    {
      MarksTell(start, setup, style, w, r, state, i);
    }
  }

  /**
   At every crash point of every recovery no entry is ambiguous or unsafe, each mark says whether its
   destination is back in its pre-state, and entries_completed is what it was before the recovery.
   */
  lemma EveryRecoveryPointReconciles(
    start: Disk, setup: Setup, style: Style, writing: seq<World>, m: nat, run: seq<Recovery>, k: nat, state: Word,
    limits: Limits, bound: nat)
    requires IsRecoveryPoint(start, setup, style, writing, m, run, k, limits, bound)
    ensures var journal := JournalIn(setup, style, writing[m], run[k], state);
      var op := InspectShared(run[k].disk, limits, journal).0;
      AllCleanAndTrue(run[k].disk, limits, journal) && op.completed == CountNew(writing[m].disk, setup.tasks) &&
      (MayRollBack(state) ==> (op.suggested == SafeRollback <==> CountNew(writing[m].disk, setup.tasks) > 0))
  {
    var w, r := writing[m], run[k];
    var journal := JournalIn(setup, style, w, r, state);
    FindingsAtPoint(start, setup, style, writing, m, run, k, state, limits, bound);
    CleanVerdict(journal, CountNew(w.disk, setup.tasks));
    CleanAndTrue(start, setup, style, w, r, state, limits);
  }

  lemma PlacesOfEntry(start: Disk, setup: Setup, disk: Disk, task: Task, style: Style, rank: nat, level: nat,
      stage: nat)
    requires GoodTask(start, setup, task) && SameSkeleton(start, disk) && TaskRecovers(disk, task, level, stage)
    ensures var entry := EntryIn(task, style, rank, stage);
      (Destination(disk, entry) == Found(DestinationOf(task)) || Destination(disk, entry).Missing?) &&
      (BackupPlace(disk, entry).Found? ==> BackupPlace(disk, entry) == Found(task.backup.parts))
  {
    TargetIn(disk, task, style, rank, stage);
    ReachableOnSkeleton(start, disk, DestinationOf(task));
    ReachableOnSkeleton(start, disk, task.backup.parts);
    PlaceLeft(disk, Path(true, DestinationOf(task)));
    PlaceLeft(disk, task.backup);
  }

  lemma RecordIn(disk: Disk, task: Task, style: Style, rank: nat, stage: nat)
    requires task.root.absolute && !task.relative.absolute && !HasParentStep(task.relative)
    requires !HasParentStep(Path(true, DestinationOf(task))) && (task.previous.Some? ==> GoodFile(task.previous.value))
    requires !Destination(disk, EntryIn(task, style, rank, stage)).Failed? && stage <= 3
    ensures RecordsPreState(EntryIn(task, style, rank, stage)) && Observable(disk, EntryIn(task, style, rank, stage))
  {
    TargetIn(disk, task, style, rank, stage);
  }

  lemma PlacesIn(start: Disk, setup: Setup, style: Style, w: World, r: Recovery, state: Word, i: nat)
    requires GoodSetup(start, setup) && RecoveryAgrees(start, setup, w, r) && i < |setup.tasks|
    ensures var entry := JournalIn(setup, style, w, r, state).entries[i]; var task := setup.tasks[i];
      RecordsPreState(entry) && Observable(r.disk, entry) &&
      (Destination(r.disk, entry).Found? ==> Destination(r.disk, entry) == Found(DestinationOf(task))) &&
      (BackupPlace(r.disk, entry).Found? ==> BackupPlace(r.disk, entry) == Found(task.backup.parts))
  {
    var task, level, stage := setup.tasks[i], Level(w, i), r.stages[i];
    assert GoodTask(start, setup, task) && IsStage(level, stage) && TaskRecovers(r.disk, task, level, stage);
    PlacesOfEntry(start, setup, r.disk, task, style, w.durable[i], level, stage);
    RecordIn(r.disk, task, style, w.durable[i], stage);
  }

  lemma RecoveryJournalIsWellRecorded(start: Disk, setup: Setup, style: Style, w: World, r: Recovery, state: Word)
    requires GoodSetup(start, setup) && RecoveryAgrees(start, setup, w, r)
    ensures WellRecorded(r.disk, JournalIn(setup, style, w, r, state))
  {
    var journal := JournalIn(setup, style, w, r, state);
    forall i | 0 <= i < |setup.tasks|
      ensures RecordsPreState(journal.entries[i]) && Observable(r.disk, journal.entries[i])
    {
      PlacesIn(start, setup, style, w, r, state, i);
    }
    forall i, j | 0 <= i < |journal.entries| && 0 <= j < |journal.entries| && i != j &&
        Destination(r.disk, journal.entries[j]).Found?
      ensures Destination(r.disk, journal.entries[i]) != Destination(r.disk, journal.entries[j])
      ensures BackupPlace(r.disk, journal.entries[i]) != Destination(r.disk, journal.entries[j])
    {
      PlacesIn(start, setup, style, w, r, state, i);
      PlacesIn(start, setup, style, w, r, state, j);
      assert SeparateTasks(setup.tasks[i], setup.tasks[j]);
    }
  }

  lemma BackupIn(task: Task, style: Style, rank: nat, level: nat, stage: nat)
    requires level <= rank + 1 && IsStage(level, stage) && IsUndone(MarkIn(rank, level, stage))
    requires task.previous.Some? && task.previous.value.Regular?
    ensures BackupIsPreState(EntryIn(task, style, rank, stage))
  {
  }

  lemma BackupsInArePreStates(
    start: Disk, setup: Setup, style: Style, w: World, r: Recovery, state: Word, marks: seq<Mark>)
    requires GoodSetup(start, setup) && RecoveryAgrees(start, setup, w, r) && |marks| == |setup.tasks|
    requires forall i | 0 <= i < |marks| :: marks[i] == MarkIn(w.durable[i], Level(w, i), r.stages[i])
    ensures AllDecoded(JournalIn(setup, style, w, r, state))
    ensures BackupsArePreStates(JournalIn(setup, style, w, r, state), marks)
  {
    var journal := JournalIn(setup, style, w, r, state);
    forall i | 0 <= i < |marks| && IsUndone(marks[i]) && journal.entries[i].existed == Some(true)
      ensures BackupIsPreState(journal.entries[i])
    {
      assert GoodTask(start, setup, setup.tasks[i]) && IsStage(Level(w, i), r.stages[i]);
      BackupIn(setup.tasks[i], style, w.durable[i], Level(w, i), r.stages[i]);
    }
  }

  lemma SafeAtPoint(journal: Journal, each: seq<Finding>, disk: Disk, limits: Limits, completed: nat)
    requires journal.knownSchema && MayRollBack(journal.state) && completed > 0
    requires each == JudgeAll(disk, limits, journal).each && TallyOf(each) == Tally(false, false, false, completed)
    ensures InspectShared(disk, limits, journal).0.suggested == SafeRollback
  {
  }

  lemma SafeIsRestored(disk: Disk, limits: Limits, journal: Journal, order: seq<nat>)
    requires InspectShared(disk, limits, journal).0.suggested == SafeRollback && WellRecorded(disk, journal)
    requires BackupsArePreStates(journal, MarksOf(disk, limits, journal))
    requires IsOrder(order, |journal.entries|) && InRange(order, |journal.entries|)
    ensures AllRestored(UndoAll(disk, journal, MarksOf(disk, limits, journal), order), journal)
  {
    WellRecordedRestores(disk, limits, journal, order);
  }

  /**
   A recovery that crashed can be taken up again: undo from there, in any order, restores every
   recorded pre-state.
   */
  lemma InterruptedRecoveryRestores(
    start: Disk, setup: Setup, style: Style, writing: seq<World>, m: nat, run: seq<Recovery>, k: nat, state: Word,
    limits: Limits, bound: nat, order: seq<nat>)
    requires IsRecoveryPoint(start, setup, style, writing, m, run, k, limits, bound)
    requires MayRollBack(state) && CountNew(writing[m].disk, setup.tasks) > 0
    requires IsOrder(order, |setup.tasks|) && InRange(order, |setup.tasks|)
    ensures var journal := JournalIn(setup, style, writing[m], run[k], state);
      AllDecoded(journal) &&
      AllRestored(UndoAll(run[k].disk, journal, MarksOf(run[k].disk, limits, journal), order), journal)
  {
    var w, r := writing[m], run[k];
    var journal := JournalIn(setup, style, w, r, state);
    FindingsAtPoint(start, setup, style, writing, m, run, k, state, limits, bound);
    var each := JudgeAll(r.disk, limits, journal).each;
    SafeAtPoint(journal, each, r.disk, limits, CountNew(w.disk, setup.tasks));
    RecoveryJournalIsWellRecorded(start, setup, style, w, r, state);
    BackupsInArePreStates(start, setup, style, w, r, state, MarksOf(r.disk, limits, journal));
    SafeIsRestored(r.disk, limits, journal, order);
  }

  // ----- recoveries that are carried through

  /** All applied entries are put back. */
  ghost predicate IsFinished(setup: Setup, w: World, r: Recovery)
    requires |w.durable| == |w.ahead| == |setup.tasks|
  {
    |r.stages| == |setup.tasks| && forall i | 0 <= i < |setup.tasks| && Level(w, i) >= 4 :: r.stages[i] == 3
  }

  /** A finished recovery has restored every recorded pre-state. */
  lemma FinishedRecoveryRestores(
    start: Disk, setup: Setup, style: Style, writing: seq<World>, m: nat, run: seq<Recovery>, k: nat, state: Word,
    limits: Limits, bound: nat)
    requires IsRecoveryPoint(start, setup, style, writing, m, run, k, limits, bound)
    requires |writing[m].durable| == |writing[m].ahead| == |setup.tasks| && IsFinished(setup, writing[m], run[k])
    ensures var journal := JournalIn(setup, style, writing[m], run[k], state);
      AllDecoded(journal) && AllRestored(run[k].disk, journal)
  {
    var w, r := writing[m], run[k];
    RunAgrees(start, setup, writing, m);
    RecoveryRunAgrees(start, setup, style, w, run, k);
    forall i | 0 <= i < |setup.tasks|
      ensures var entry := JournalIn(setup, style, w, r, state).entries[i]; entry.Entry? && HoldsPreState(r.disk, entry)
    {
      MarksTell(start, setup, style, w, r, state, i);
    }
  }

  lemma TakeStep(setup: Setup, style: Style, w: World, run: seq<Recovery>, i: nat) returns (longer: seq<Recovery>)
    requires IsRecovery(setup, style, w, run) && |w.durable| == |w.ahead| == |setup.tasks|
    requires var r := run[|run| - 1];
      |r.stages| == |setup.tasks| && i < |setup.tasks| && Level(w, i) >= 4 && r.stages[i] < 3
    ensures IsRecovery(setup, style, w, longer)
    ensures var r, last := run[|run| - 1], longer[|longer| - 1]; last.stages == r.stages[i := r.stages[i] + 1]
  {
    var r := run[|run| - 1];
    var next := Recovery(
      if r.stages[i] == 1 then UndoEntry(r.disk, EntryIn(setup.tasks[i], style, w.durable[i], 1), StillApplied)
      else r.disk,
      r.stages[i := r.stages[i] + 1]);
    assert Recovers(setup, style, w, r, next, i);
    longer := run + [next];
    forall k | 0 <= k < |longer| - 1 ensures RecoveryStep(setup, style, w, longer[k], longer[k + 1]) {
      assert longer[k] == run[k];
      if k + 1 < |run| { assert longer[k + 1] == run[k + 1] && RecoveryStep(setup, style, w, run[k], run[k + 1]); }
    }
  }

  /** The applied entries before `i` are put back, and the others untouched. */
  ghost predicate IsThrough(setup: Setup, w: World, stages: seq<nat>, i: nat)
    requires |w.durable| == |w.ahead| == |setup.tasks|
  {
    |stages| == |setup.tasks| &&
    forall j | 0 <= j < |stages| :: stages[j] == if j < i && Level(w, j) >= 4 then 3 else 0
  }

  lemma ThroughNext(setup: Setup, w: World, before: seq<nat>, after: seq<nat>, i: nat)
    requires |w.durable| == |w.ahead| == |setup.tasks| && i < |setup.tasks| && IsThrough(setup, w, before, i)
    requires after == if Level(w, i) >= 4 then before[i := 3] else before
    ensures IsThrough(setup, w, after, i + 1)
  {
  }

  /** From every crash point a recovery can be carried through. */
  lemma EveryRecoveryCanFinish(setup: Setup, style: Style, w: World) returns (run: seq<Recovery>)
    requires |w.durable| == |w.ahead| == |setup.tasks|
    ensures IsRecovery(setup, style, w, run) && IsFinished(setup, w, run[|run| - 1])
  {
    run := [Recovery(w.disk, seq(|setup.tasks|, _ => 0))];
    for i := 0 to |setup.tasks|
      invariant IsRecovery(setup, style, w, run) && IsThrough(setup, w, run[|run| - 1].stages, i)
    {
      var before := run[|run| - 1].stages;
      if Level(w, i) >= 4 {
        run := TakeStep(setup, style, w, run, i);
        run := TakeStep(setup, style, w, run, i);
        run := TakeStep(setup, style, w, run, i);
        assert run[|run| - 1].stages == before[i := 3];
      }
      ThroughNext(setup, w, before, run[|run| - 1].stages, i);
    }
  }
}
