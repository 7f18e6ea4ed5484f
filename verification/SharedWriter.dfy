/**
 The transaction writer whose journals inspect_shared_durable reads, as a step machine: each
 file effect happens first and its checkpoint becomes durable one step later, and a crash may
 fall between any two steps of any interleaving of the entries.
 */
module SharedWriter {
  import opened Common
  import opened FileSystem
  import opened Evidence
  import opened Operation
  import opened SharedJournal
  import opened SharedRollback
  import opened UndoJobs
  import BudgetSoundness

  /** One file to install: where it goes, what was there, and the names the writer uses on the way. */
  datatype Task = Task(
    root: Path, relative: Path, source: Path, backup: Path, temporary: Path,
    incoming: Object, previous: Option<Object>, backupRequired: bool)

  datatype Setup = Setup(approvedSourceRoot: Path, backupRoot: Path, tasks: seq<Task>)

  /** Writers may name the backup and temporary paths before they need them. */
  datatype Style = Style(namesPathsEarly: bool, recordsBackupDigest: bool)

  datatype World = World(disk: Disk, durable: seq<nat>, ahead: seq<bool>)

  const LAST: nat := 6

  function WordAt(rank: nat): Word {
    if rank == 0 then PLANNED else if rank == 1 then APPLYING else if rank == 2 then BACKUP_CREATED
    else if rank == 3 then DESTINATION_TEMP_WRITTEN else if rank == 4 then DESTINATION_REPLACED
    else if rank == 5 then DESTINATION_VERIFIED else APPLIED
  }

  function DestinationOf(task: Task): Location {
    task.root.parts + task.relative.parts
  }

  /** The file effect that precedes the checkpoint of rank `rank`. */
  function Effect(disk: Disk, task: Task, rank: nat): Disk {
    var at := DestinationOf(task);
    if rank == 2 && at in disk.objects then disk.(objects := disk.objects[task.backup.parts := disk.objects[at]])
    else if rank == 3 then disk.(objects := disk.objects[task.temporary.parts := task.incoming])
    else if rank == 4 && task.temporary.parts in disk.objects then
      disk.(objects := disk.objects[at := disk.objects[task.temporary.parts]] - {task.temporary.parts})
    else disk
  }

  // ----- runs

  ghost predicate Acts(setup: Setup, w: World, next: World, i: nat) {
    i < |setup.tasks| && |w.ahead| == |w.durable| == |setup.tasks| &&
    !w.ahead[i] && w.durable[i] < LAST &&
    next == World(Effect(w.disk, setup.tasks[i], w.durable[i] + 1), w.durable, w.ahead[i := true])
  }

  ghost predicate Records(setup: Setup, w: World, next: World, i: nat) {
    i < |setup.tasks| && |w.ahead| == |w.durable| == |setup.tasks| &&
    w.ahead[i] && next == World(w.disk, w.durable[i := w.durable[i] + 1], w.ahead[i := false])
  }

  ghost predicate Step(setup: Setup, w: World, next: World) {
    exists i: nat :: Acts(setup, w, next, i) || Records(setup, w, next, i)
  }

  ghost predicate Starts(setup: Setup, start: Disk, w: World) {
    w.disk == start && |w.durable| == |w.ahead| == |setup.tasks| &&
    forall i | 0 <= i < |setup.tasks| :: w.durable[i] == 0 && !w.ahead[i]
  }

  ghost predicate IsRun(setup: Setup, start: Disk, run: seq<World>) {
    run != [] && Starts(setup, start, run[0]) &&
    forall k | 0 <= k < |run| - 1 :: Step(setup, run[k], run[k + 1])
  }

  // ----- a sound setup

  ghost predicate GoodPath(disk: Disk, path: Path, root: Path) {
    path.absolute && !HasParentStep(path) && IsWithin(disk, path, root) && Reachable(disk, path.parts)
  }

  ghost predicate GoodTask(start: Disk, setup: Setup, task: Task) {
    && task.root.absolute && !task.relative.absolute && !HasParentStep(Path(true, DestinationOf(task)))
    && !HasParentStep(task.relative)
    && Reachable(start, DestinationOf(task))
    && IsWithin(start, task.source, setup.approvedSourceRoot)
    && GoodPath(start, task.backup, setup.backupRoot) && GoodPath(start, task.temporary, task.root)
    && GoodFile(task.incoming) && task.backup.parts !in start.objects && task.temporary.parts !in start.objects
    && ObjectAt(start, DestinationOf(task)) == task.previous
    && (task.previous.Some? ==>
      GoodFile(task.previous.value) && !SameHex(task.previous.value.sha256, task.incoming.sha256))
    && (task.backupRequired ==> task.previous.Some?)
    && DestinationOf(task) != task.backup.parts && DestinationOf(task) != task.temporary.parts
    && task.backup.parts != task.temporary.parts
  }

  ghost predicate SeparateTasks(a: Task, b: Task) {
    var mine := {DestinationOf(a), a.backup.parts, a.temporary.parts};
    var theirs := {DestinationOf(b), b.backup.parts, b.temporary.parts};
    mine !! theirs
  }

  ghost predicate GoodSetup(start: Disk, setup: Setup) {
    (forall i | 0 <= i < |setup.tasks| :: GoodTask(start, setup, setup.tasks[i])) &&
    forall i, j | 0 <= i < |setup.tasks| && 0 <= j < |setup.tasks| && i != j ::
      SeparateTasks(setup.tasks[i], setup.tasks[j])
  }

  ghost function ObjectAt(disk: Disk, at: Location): Option<Object> {
    if at in disk.objects then Some(disk.objects[at]) else None
  }

  // ----- the invariant: the disk is exactly as far as the effects

  ghost function Level(w: World, i: nat): nat
    requires i < |w.durable| == |w.ahead|
  {
    w.durable[i] + if w.ahead[i] then 1 else 0
  }

  ghost predicate TaskAgrees(disk: Disk, task: Task, level: nat) {
    && ObjectAt(disk, DestinationOf(task)) == (if level >= 4 then Some(task.incoming) else task.previous)
    && ObjectAt(disk, task.backup.parts) == (if level >= 2 then task.previous else None)
    && ObjectAt(disk, task.temporary.parts) == (if level == 3 then Some(task.incoming) else None)
  }

  ghost predicate Agrees(start: Disk, setup: Setup, w: World) {
    && SameSkeleton(start, w.disk) && |w.durable| == |w.ahead| == |setup.tasks|
    && forall i | 0 <= i < |setup.tasks| :: Level(w, i) <= LAST && TaskAgrees(w.disk, setup.tasks[i], Level(w, i))
  }

  lemma EffectAdvancesTask(start: Disk, setup: Setup, disk: Disk, task: Task, rank: nat)
    requires GoodTask(start, setup, task) && 1 <= rank <= LAST && TaskAgrees(disk, task, rank - 1) &&
      SameSkeleton(start, disk)
    ensures TaskAgrees(Effect(disk, task, rank), task, rank) && SameSkeleton(start, Effect(disk, task, rank))
  {
  }

  lemma EffectSparesOther(disk: Disk, task: Task, rank: nat, other: Task, level: nat)
    requires SeparateTasks(task, other) && TaskAgrees(disk, other, level)
    ensures TaskAgrees(Effect(disk, task, rank), other, level)
  {
    var mine := {DestinationOf(task), task.backup.parts, task.temporary.parts};
    assert DestinationOf(other) !in mine && other.backup.parts !in mine && other.temporary.parts !in mine;
  }

  lemma StepKeepsAgreement(start: Disk, setup: Setup, w: World, next: World)
    requires GoodSetup(start, setup) && Agrees(start, setup, w) && Step(setup, w, next)
    ensures Agrees(start, setup, next)
  {
    var i: nat :| Acts(setup, w, next, i) || Records(setup, w, next, i);
    if Acts(setup, w, next, i) {
      ActKeepsAgreement(start, setup, w, next, i);
    } else {
      forall j | 0 <= j < |setup.tasks| ensures Level(next, j) == Level(w, j) {}
    }
  }

  lemma ActKeepsAgreement(start: Disk, setup: Setup, w: World, next: World, i: nat)
    requires GoodSetup(start, setup) && Agrees(start, setup, w) && Acts(setup, w, next, i)
    ensures Agrees(start, setup, next)
  {
    var task, rank := setup.tasks[i], w.durable[i] + 1;
    assert GoodTask(start, setup, task) && TaskAgrees(w.disk, task, Level(w, i));
    EffectAdvancesTask(start, setup, w.disk, task, rank);
    forall j | 0 <= j < |setup.tasks|
      ensures Level(next, j) <= LAST && TaskAgrees(next.disk, setup.tasks[j], Level(next, j))
    {
      if j != i {
        assert SeparateTasks(task, setup.tasks[j]) && TaskAgrees(w.disk, setup.tasks[j], Level(w, j));
        EffectSparesOther(w.disk, task, rank, setup.tasks[j], Level(w, j));
      }
    }
  }

  lemma {:induction false} RunAgrees(start: Disk, setup: Setup, run: seq<World>, k: nat)
    requires GoodSetup(start, setup) && IsRun(setup, start, run) && k < |run|
    ensures Agrees(start, setup, run[k])
  {
    if k == 0 {
      forall i | 0 <= i < |setup.tasks| ensures TaskAgrees(start, setup.tasks[i], 0) {
        assert GoodTask(start, setup, setup.tasks[i]);
      }
    } else {
      RunAgrees(start, setup, run, k - 1);
      StepKeepsAgreement(start, setup, run[k - 1], run[k]);
    }
  }

  // ----- the journal a crash leaves behind

  function PreviousDigest(task: Task): Option<string> {
    if task.previous.Some? && task.previous.value.Regular? then Some(task.previous.value.sha256) else None
  }

  function IncomingDigest(task: Task): Option<string> {
    if task.incoming.Regular? then Some(task.incoming.sha256) else None
  }

  function EntryLeft(task: Task, style: Style, rank: nat): (entry: Entry)
    ensures entry.Entry?
  {
    var backedUp := task.previous.Some? && (rank >= 2 || style.namesPathsEarly);
    Entry(
      Some(Plan(Decodes(task.root), Decodes(task.relative), Decodes(task.source), IncomingDigest(task),
        PreviousDigest(task), task.backupRequired)),
      WordAt(rank),
      Some(task.previous.Some?),
      if backedUp then Some(Decodes(task.backup)) else None,
      if backedUp && style.recordsBackupDigest then PreviousDigest(task) else None,
      if rank >= 3 || style.namesPathsEarly then Some(Decodes(task.temporary)) else None)
  }

  function JournalLeft(setup: Setup, style: Style, w: World, state: Word): (journal: Journal)
    ensures |journal.entries| == |setup.tasks|
  {
    Journal(true, state, Decodes(setup.approvedSourceRoot), Decodes(setup.backupRoot),
      seq(|setup.tasks|, i requires 0 <= i < |setup.tasks| =>
        EntryLeft(setup.tasks[i], style, if i < |w.durable| then w.durable[i] else 0)))
  }

  // ----- crash coverage

  lemma ReachableOnSkeleton(before: Disk, after: Disk, at: Location)
    requires SameSkeleton(before, after) && Reachable(before, at)
    ensures Reachable(after, at)
  {
  }

  function MarkLeft(rank: nat, level: nat): Mark {
    if rank >= 4 then AppliedMark else if level >= 4 then AppliedAfterGap else NotApplied
  }

  lemma TargetLeft(disk: Disk, task: Task, style: Style, rank: nat)
    requires task.root.absolute && !task.relative.absolute && !HasParentStep(task.relative)
    ensures TargetOf(disk, EntryLeft(task, style, rank)) ==
      Target(Some(Path(true, DestinationOf(task))), Some(task.root), false)
  {
  }

  /** What the inspector sees of one entry when effects are at `level` and checkpoints at `rank`. */
  lemma ProbesLeft(start: Disk, setup: Setup, style: Style, disk: Disk, journal: Journal, task: Task, rank: nat,
      level: nat)
    requires GoodTask(start, setup, task) && SameSkeleton(start, disk) && TaskAgrees(disk, task, level)
    requires rank <= level <= rank + 1 && level <= LAST
    requires journal.approvedSourceRoot == Decodes(setup.approvedSourceRoot) &&
      journal.backupRoot == Decodes(setup.backupRoot)
    ensures var entry := EntryLeft(task, style, rank); var g := Gather(disk, Unlimited, journal, entry);
      g.limits == Unlimited && g.probes.destination.problem.None? && g.probes.destination.safePath &&
      (g.probes.backup.Some? ==> g.probes.backup.value.problem.None?) &&
      (g.probes.temporary.Some? ==> g.probes.temporary.value.problem.None?) &&
      (NewMatches(g.probes) <==> level >= 4) &&
      (level < 4 ==> PreStateMatches(entry, g.probes)) &&
      (rank >= 2 && task.previous.Some? ==> BackupMatches(g.probes))
  {
    var entry := EntryLeft(task, style, rank);
    var destination := Path(true, DestinationOf(task));
    TargetLeft(disk, task, style, rank);
    ReachableOnSkeleton(start, disk, destination.parts);
    ReachableOnSkeleton(start, disk, task.backup.parts);
    ReachableOnSkeleton(start, disk, task.temporary.parts);
    PlainEvidence(disk, destination, Some(task.root), NewDigest(entry));
    PlainEvidence(disk, task.backup, Some(setup.backupRoot), BackupExpected(entry));
    PlainEvidence(disk, task.temporary, Some(task.root), None);
  }

  /** Whatever the crash gap, the entry is reconciled to what really happened to its destination. */
  lemma EntryReconciles(start: Disk, setup: Setup, style: Style, disk: Disk, journal: Journal, task: Task, rank: nat,
      level: nat)
    requires GoodTask(start, setup, task) && SameSkeleton(start, disk) && TaskAgrees(disk, task, level)
    requires rank <= level <= rank + 1 && level <= LAST
    requires journal.approvedSourceRoot == Decodes(setup.approvedSourceRoot) &&
      journal.backupRoot == Decodes(setup.backupRoot)
    ensures JudgeEntry(disk, Unlimited, journal, EntryLeft(task, style, rank)) ==
      (Finding(MarkLeft(rank, level), false, false, false), Unlimited)
  {
    var entry := EntryLeft(task, style, rank);
    TargetLeft(disk, task, style, rank);
    ProbesLeft(start, setup, style, disk, journal, task, rank, level);
    var probes := Gather(disk, Unlimited, journal, entry).probes;
    assert IsWithin(disk, task.source, setup.approvedSourceRoot);
    assert SourceIsBound(disk, journal, entry);
    assert MarkOf(entry, probes) == MarkLeft(rank, level);
    assert !LacksBackup(entry, probes);
    assert !PathsUnproven(disk, journal, entry, probes);
  }

  /** The destination really holds the new bytes. */
  ghost predicate HoldsNew(disk: Disk, task: Task) {
    IsRegular(disk, DestinationOf(task)) && task.incoming.Regular? &&
    SameHex(disk.objects[DestinationOf(task)].sha256, task.incoming.sha256)
  }

  ghost function CountNew(disk: Disk, tasks: seq<Task>): nat {
    if tasks == [] then 0
    else CountNew(disk, tasks[..|tasks| - 1]) + if HoldsNew(disk, tasks[|tasks| - 1]) then 1 else 0
  }

  function CleanFinding(mark: Mark): Finding {
    Finding(mark, false, false, false)
  }

  ghost predicate AllClean(setup: Setup, w: World, each: seq<Finding>)
    requires |w.durable| == |w.ahead| == |setup.tasks|
  {
    |each| <= |setup.tasks| &&
    forall i | 0 <= i < |each| :: each[i] == CleanFinding(MarkLeft(w.durable[i], Level(w, i)))
  }

  lemma EntryOfJournalReconciles(start: Disk, setup: Setup, style: Style, w: World, state: Word, i: nat)
    requires GoodSetup(start, setup) && Agrees(start, setup, w) && i < |setup.tasks|
    ensures var journal := JournalLeft(setup, style, w, state);
      JudgeEntry(w.disk, Unlimited, journal, journal.entries[i]) ==
        (CleanFinding(MarkLeft(w.durable[i], Level(w, i))), Unlimited)
  {
    var journal := JournalLeft(setup, style, w, state);
    var task, rank, level := setup.tasks[i], w.durable[i], Level(w, i);
    assert GoodTask(start, setup, task) && TaskAgrees(w.disk, task, level);
    assert journal.entries[i] == EntryLeft(task, style, rank);
    EntryReconciles(start, setup, style, w.disk, journal, task, rank, level);
  }

  lemma {:induction false} FindingsAreClean(start: Disk, setup: Setup, style: Style, w: World, state: Word, n: nat)
    requires GoodSetup(start, setup) && Agrees(start, setup, w) && n <= |setup.tasks|
    ensures var f := JudgeFirst(w.disk, Unlimited, JournalLeft(setup, style, w, state), n);
      f.limits == Unlimited && AllClean(setup, w, f.each)
  {
    if n > 0 {
      FindingsAreClean(start, setup, style, w, state, n - 1);
      EntryOfJournalReconciles(start, setup, style, w, state, n - 1);
    }
  }

  lemma CleanStep(each: seq<Finding>, mark: Mark, completed: nat)
    requires each != [] && each[|each| - 1] == CleanFinding(mark)
    requires TallyOf(each[..|each| - 1]) == Tally(false, false, false, completed)
    ensures TallyOf(each) == Tally(false, false, false, completed + if CountsCompleted(mark) then 1 else 0)
  {
  }

  lemma CountStep(disk: Disk, tasks: seq<Task>, n: nat)
    requires n < |tasks|
    ensures CountNew(disk, tasks[..n + 1]) == CountNew(disk, tasks[..n]) + if HoldsNew(disk, tasks[n]) then 1 else 0
  {
    assert tasks[..n + 1][..n] == tasks[..n];
  }

  lemma MarkCountsNew(start: Disk, setup: Setup, w: World, n: nat)
    requires GoodSetup(start, setup) && Agrees(start, setup, w) && n < |setup.tasks|
    ensures CountsCompleted(MarkLeft(w.durable[n], Level(w, n))) <==> HoldsNew(w.disk, setup.tasks[n])
  {
    assert GoodTask(start, setup, setup.tasks[n]) && TaskAgrees(w.disk, setup.tasks[n], Level(w, n));
    HoldsNewAtLevel(start, setup, w.disk, setup.tasks[n], Level(w, n));
  }

  lemma {:induction false} CleanTally(start: Disk, setup: Setup, w: World, each: seq<Finding>)
    requires GoodSetup(start, setup) && Agrees(start, setup, w) && AllClean(setup, w, each)
    ensures TallyOf(each) == Tally(false, false, false, CountNew(w.disk, setup.tasks[..|each|]))
  {
    if each != [] {
      var n := |each| - 1;
      CleanTally(start, setup, w, each[..n]);
      MarkCountsNew(start, setup, w, n);
      CleanStep(each, MarkLeft(w.durable[n], Level(w, n)), CountNew(w.disk, setup.tasks[..n]));
      CountStep(w.disk, setup.tasks, n);
    }
  }

  lemma JournalReconciles(start: Disk, setup: Setup, style: Style, w: World, state: Word)
    requires GoodSetup(start, setup) && Agrees(start, setup, w)
    ensures var each := JudgeAll(w.disk, Unlimited, JournalLeft(setup, style, w, state)).each;
      AllClean(setup, w, each) && TallyOf(each) == Tally(false, false, false, CountNew(w.disk, setup.tasks))
  {
    FindingsAreClean(start, setup, style, w, state, |setup.tasks|);
    CleanTally(start, setup, w, JudgeAll(w.disk, Unlimited, JournalLeft(setup, style, w, state)).each);
    assert setup.tasks[..|setup.tasks|] == setup.tasks;
  }

  lemma HoldsNewAtLevel(start: Disk, setup: Setup, disk: Disk, task: Task, level: nat)
    requires GoodTask(start, setup, task) && TaskAgrees(disk, task, level)
    ensures HoldsNew(disk, task) <==> level >= 4
  {
  }

  // ----- a budget that covers the files

  /**
   No file on the starting disk or among the incoming ones exceeds `bound`, and the budget has room for
   four such files per task.
   */
  ghost predicate Covers(limits: Limits, bound: nat, start: Disk, setup: Setup) {
    limits.Limits? ==>
      FilesWithin(start, bound) && (forall i | 0 <= i < |setup.tasks| :: SizeOf(setup.tasks[i].incoming) <= bound) &&
      limits.perFile >= bound && limits.remaining >= 4 * bound * |setup.tasks|
  }

  lemma EffectKeepsSizes(disk: Disk, task: Task, rank: nat, bound: nat)
    requires FilesWithin(disk, bound) && SizeOf(task.incoming) <= bound
    ensures FilesWithin(Effect(disk, task, rank), bound)
  {
    var next := Effect(disk, task, rank);
    forall at | IsRegular(next, at) ensures next.objects[at].size <= bound {
      if rank == 2 && DestinationOf(task) in disk.objects { assert IsRegular(disk, at) || at == task.backup.parts; }
    }
  }

  lemma {:induction false} RunKeepsSizes(start: Disk, setup: Setup, run: seq<World>, k: nat, bound: nat)
    requires IsRun(setup, start, run) && k < |run| && FilesWithin(start, bound)
    requires forall i | 0 <= i < |setup.tasks| :: SizeOf(setup.tasks[i].incoming) <= bound
    ensures FilesWithin(run[k].disk, bound)
  {
    if k > 0 {
      RunKeepsSizes(start, setup, run, k - 1, bound);
      assert Step(setup, run[k - 1], run[k]);
      var i: nat :| Acts(setup, run[k - 1], run[k], i) || Records(setup, run[k - 1], run[k], i);
      if Acts(setup, run[k - 1], run[k], i) {
        EffectKeepsSizes(run[k - 1].disk, setup.tasks[i], run[k - 1].durable[i] + 1, bound);
      }
    }
  }

  lemma CoveredFindings(start: Disk, setup: Setup, style: Style, run: seq<World>, k: nat, state: Word, limits: Limits,
      bound: nat)
    requires IsRun(setup, start, run) && k < |run| && Covers(limits, bound, start, setup)
    ensures var journal := JournalLeft(setup, style, run[k], state);
      JudgeAll(run[k].disk, limits, journal).each == JudgeAll(run[k].disk, Unlimited, journal).each
  {
    if limits.Limits? {
      RunKeepsSizes(start, setup, run, k, bound);
      BudgetSoundness.AmpleSharedBudget(run[k].disk, limits, bound, JournalLeft(setup, style, run[k], state),
        |setup.tasks|);
    }
  }

  lemma CleanVerdict(journal: Journal, completed: nat)
    requires journal.knownSchema
    ensures var op := Verdict(journal, Tally(false, false, false, completed));
      op.completed == completed && (MayRollBack(journal.state) ==> (op.suggested == SafeRollback <==> completed > 0))
  {
  }

  /**
   Crash coverage: at every crash point, with no budget or one that covers the files, no entry is
   ambiguous or unsafe, the completed count is the number of destinations that really hold the new
   bytes, and an interrupted transaction is a rollback candidate exactly when that number is positive.
   */
  lemma EveryCrashPointReconciles(start: Disk, setup: Setup, style: Style, run: seq<World>, k: nat, state: Word,
      limits: Limits, bound: nat)
    requires GoodSetup(start, setup) && IsRun(setup, start, run) && k < |run| && Covers(limits, bound, start, setup)
    ensures Agrees(start, setup, run[k])
    ensures var journal := JournalLeft(setup, style, run[k], state);
      var op := InspectShared(run[k].disk, limits, journal).0;
      AllClean(setup, run[k], JudgeAll(run[k].disk, limits, journal).each) &&
      op.completed == CountNew(run[k].disk, setup.tasks) &&
      (MayRollBack(state) ==> (op.suggested == SafeRollback <==> CountNew(run[k].disk, setup.tasks) > 0))
  {
    RunAgrees(start, setup, run, k);
    JournalReconciles(start, setup, style, run[k], state);
    CleanVerdict(JournalLeft(setup, style, run[k], state), CountNew(run[k].disk, setup.tasks));
    CoveredFindings(start, setup, style, run, k, state, limits, bound);
  }

  // ----- crash, then undo

  lemma PlaceLeft(disk: Disk, path: Path)
    requires path.absolute && !HasParentStep(path) && Reachable(disk, path.parts)
    requires path.parts in disk.objects ==> disk.objects[path.parts].Regular?
    ensures Lstat(disk, path) == if path.parts in disk.objects then Found(path.parts) else Missing
    ensures Stat(disk, path).Found? ==> Stat(disk, path) == Found(path.parts)
  {
    LiteralHasNoLink(disk, path);
    if path.parts in disk.objects { PlainLookup(disk, path.parts, true); }
    else if path.parts != [] { PlainMissing(disk, path.parts, true); }
  }

  lemma PlacesOfTask(start: Disk, setup: Setup, disk: Disk, task: Task, style: Style, rank: nat, level: nat)
    requires GoodTask(start, setup, task) && SameSkeleton(start, disk) && TaskAgrees(disk, task, level)
    ensures var entry := EntryLeft(task, style, rank);
      (Destination(disk, entry) == Found(DestinationOf(task)) || Destination(disk, entry).Missing?) &&
      (BackupPlace(disk, entry).Found? ==> BackupPlace(disk, entry) == Found(task.backup.parts))
  {
    TargetLeft(disk, task, style, rank);
    ReachableOnSkeleton(start, disk, DestinationOf(task));
    ReachableOnSkeleton(start, disk, task.backup.parts);
    PlaceLeft(disk, Path(true, DestinationOf(task)));
    PlaceLeft(disk, task.backup);
  }

  lemma PlacesLeft(start: Disk, setup: Setup, style: Style, w: World, state: Word, i: nat)
    requires GoodSetup(start, setup) && Agrees(start, setup, w) && i < |setup.tasks|
    ensures var entry := JournalLeft(setup, style, w, state).entries[i]; var task := setup.tasks[i];
      RecordsPreState(entry) && Observable(w.disk, entry) &&
      (Destination(w.disk, entry).Found? ==> Destination(w.disk, entry) == Found(DestinationOf(task))) &&
      (BackupPlace(w.disk, entry).Found? ==> BackupPlace(w.disk, entry) == Found(task.backup.parts))
  {
    var task := setup.tasks[i];
    assert GoodTask(start, setup, task) && TaskAgrees(w.disk, task, Level(w, i));
    PlacesOfTask(start, setup, w.disk, task, style, w.durable[i], Level(w, i));
  }

  lemma CrashJournalIsWellRecorded(start: Disk, setup: Setup, style: Style, w: World, state: Word)
    requires GoodSetup(start, setup) && Agrees(start, setup, w)
    ensures WellRecorded(w.disk, JournalLeft(setup, style, w, state))
  {
    var journal := JournalLeft(setup, style, w, state);
    forall i | 0 <= i < |setup.tasks|
      ensures RecordsPreState(journal.entries[i]) && Observable(w.disk, journal.entries[i])
    {
      PlacesLeft(start, setup, style, w, state, i);
    }
    forall i, j | 0 <= i < |journal.entries| && 0 <= j < |journal.entries| && i != j &&
      Destination(w.disk, journal.entries[j]).Found?
      ensures Destination(w.disk, journal.entries[i]) != Destination(w.disk, journal.entries[j])
      ensures BackupPlace(w.disk, journal.entries[i]) != Destination(w.disk, journal.entries[j])
    {
      PlacesLeft(start, setup, style, w, state, i);
      PlacesLeft(start, setup, style, w, state, j);
      assert SeparateTasks(setup.tasks[i], setup.tasks[j]);
    }
  }

  lemma UndoneEntriesHaveBackups(start: Disk, setup: Setup, style: Style, w: World, state: Word, limits: Limits)
    requires GoodSetup(start, setup) && Agrees(start, setup, w)
    requires AllClean(setup, w, JudgeAll(w.disk, limits, JournalLeft(setup, style, w, state)).each)
    ensures BackupsArePreStates(JournalLeft(setup, style, w, state),
      MarksOf(w.disk, limits, JournalLeft(setup, style, w, state)))
  {
    var journal := JournalLeft(setup, style, w, state);
    var marks := MarksOf(w.disk, limits, journal);
    forall i | 0 <= i < |marks| && IsUndone(marks[i]) && journal.entries[i].existed == Some(true)
      ensures BackupIsPreState(journal.entries[i])
    {
      assert marks[i] == MarkLeft(w.durable[i], Level(w, i));
      assert GoodTask(start, setup, setup.tasks[i]);
      BackupLeft(setup.tasks[i], style, w.durable[i], Level(w, i));
    }
  }

  lemma BackupLeft(task: Task, style: Style, rank: nat, level: nat)
    requires level <= rank + 1 && IsUndone(MarkLeft(rank, level)) && task.previous.Some? && task.previous.value.Regular?
    ensures BackupIsPreState(EntryLeft(task, style, rank))
  {
  }

  /** From any crash point with something applied, undo in any order leads back to every recorded pre-state. */
  lemma CrashThenUndoRestores(
    start: Disk, setup: Setup, style: Style, run: seq<World>, k: nat, state: Word, limits: Limits, bound: nat,
      order: seq<nat>)
    requires GoodSetup(start, setup) && IsRun(setup, start, run) && k < |run| && MayRollBack(state)
    requires Covers(limits, bound, start, setup) && CountNew(run[k].disk, setup.tasks) > 0
    requires IsOrder(order, |setup.tasks|) && InRange(order, |setup.tasks|)
    ensures var journal := JournalLeft(setup, style, run[k], state);
      AllDecoded(journal) &&
      AllRestored(UndoAll(run[k].disk, journal, MarksOf(run[k].disk, limits, journal), order), journal)
  {
    EveryCrashPointReconciles(start, setup, style, run, k, state, limits, bound);
    CrashJournalIsWellRecorded(start, setup, style, run[k], state);
    UndoneEntriesHaveBackups(start, setup, style, run[k], state, limits);
    WellRecordedRestores(run[k].disk, limits, JournalLeft(setup, style, run[k], state), order);
  }
}
