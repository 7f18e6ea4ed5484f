/**
 A hash budget is conservative: withheld hashes can turn a safe verdict into a review, never the
 other way round. Each inspector is run twice, under any budget and under none, and compared.
 */
module BudgetSoundness {
  import opened Common
  import opened FileSystem
  import opened Evidence
  import Operation
  import Shared = SharedJournal
  import Rename = RenameJournal
  import Patch = PatchOutput
  import Restore = DatabaseRestore
  import EsDe = EsDeRecovery

  predicate DimsOption(dim: Option<Evidence>, full: Option<Evidence>) {
    (dim.None? && full.None?) || (dim.Some? && full.Some? && Dims(dim.value, full.value))
  }

  lemma OptionalOnlyHides(disk: Disk, limits: Limits, path: Option<Path>, root: Option<Path>, digest: Option<string>,
      wanted: bool)
    ensures DimsOption(InspectOptional(disk, limits, path, root, digest, wanted).0,
      InspectOptional(disk, Unlimited, path, root, digest, wanted).0)
    ensures InspectOptional(disk, Unlimited, path, root, digest, wanted).1 == Unlimited
  {
  }

  // ----- shared journals

  predicate SharedDims(dim: Shared.Probes, full: Shared.Probes) {
    Dims(dim.destination, full.destination) && DimsOption(dim.backup, full.backup) &&
    dim.temporary == full.temporary && DimsOption(dim.rolledBack, full.rolledBack)
  }

  lemma SharedGatherHides(disk: Disk, limits: Limits, journal: Shared.Journal, entry: Shared.Entry)
    requires entry.Entry?
    ensures var full := Shared.Gather(disk, Unlimited, journal, entry);
      full.limits == Unlimited && SharedDims(Shared.Gather(disk, limits, journal, entry).probes, full.probes)
  {
    var lb := EarlierOnlyHide(disk, limits, journal, entry);
    LaterOnlyHide(disk, lb, Shared.TargetOf(disk, entry), entry);
  }

  /** The destination's and the backup's inspection, and the budget they leave. */
  lemma EarlierOnlyHide(disk: Disk, limits: Limits, journal: Shared.Journal, entry: Shared.Entry) returns (lb: Limits)
    requires entry.Entry?
    ensures var target := Shared.TargetOf(disk, entry);
      var backup, root := Shared.OptionalPath(entry.backupPath), Operation.PathOf(journal.backupRoot);
      var d := Inspect(disk, limits, target.path, target.root, Shared.NewDigest(entry));
      var full := Inspect(disk, Unlimited, target.path, target.root, Shared.NewDigest(entry));
      var b := InspectOptional(disk, d.limits, backup, root, Shared.BackupExpected(entry), backup.Some?);
      var fullB := InspectOptional(disk, Unlimited, backup, root, Shared.BackupExpected(entry), backup.Some?);
      full.limits == Unlimited && Dims(d.evidence, full.evidence) &&
      lb == b.1 && fullB.1 == Unlimited && DimsOption(b.0, fullB.0)
  {
    var target := Shared.TargetOf(disk, entry);
    var backup, root := Shared.OptionalPath(entry.backupPath), Operation.PathOf(journal.backupRoot);
    BudgetOnlyHides(disk, limits, target.path, target.root, Shared.NewDigest(entry));
    Restore.BudgetStaysUnlimited(disk, target.path, target.root, Shared.NewDigest(entry));
    var d := Inspect(disk, limits, target.path, target.root, Shared.NewDigest(entry));
    OptionalOnlyHides(disk, d.limits, backup, root, Shared.BackupExpected(entry), backup.Some?);
    lb := InspectOptional(disk, d.limits, backup, root, Shared.BackupExpected(entry), backup.Some?).1;
  }

  /** The two inspections after the backup's. */
  lemma LaterOnlyHide(disk: Disk, lb: Limits, target: Shared.Target, entry: Shared.Entry)
    requires entry.Entry?
    ensures var temporary := Shared.OptionalPath(entry.temporaryPath);
      var (t, lt) := InspectOptional(disk, lb, temporary, target.root, None, temporary.Some?);
      InspectOptional(disk, Unlimited, temporary, target.root, None, temporary.Some?) == (t, Unlimited) &&
      var r := InspectOptional(disk, lt, target.path, target.root, Shared.PreDigest(entry),
        Shared.RehashesOld(entry)).0;
      var full := InspectOptional(disk, Unlimited, target.path, target.root, Shared.PreDigest(entry),
        Shared.RehashesOld(entry));
      full.1 == Unlimited && DimsOption(r, full.0)
  {
    var temporary := Shared.OptionalPath(entry.temporaryPath);
    OptionalOnlyHides(disk, lb, temporary, target.root, None, temporary.Some?);
    var lt := InspectOptional(disk, lb, temporary, target.root, None, temporary.Some?).1;
    OptionalOnlyHides(disk, lt, target.path, target.root, Shared.PreDigest(entry), Shared.RehashesOld(entry));
  }

  lemma CleanMarkSurvives(entry: Shared.Entry, dim: Shared.Probes, full: Shared.Probes)
    requires entry.Entry? && SharedDims(dim, full)
    requires !Shared.MarkOf(entry, dim).Unreconciled?
    ensures Shared.MarkOf(entry, full) == Shared.MarkOf(entry, dim)
    ensures Shared.LacksBackup(entry, full) ==> Shared.LacksBackup(entry, dim)
  {
  }

  /**
   A file that cannot be opened and whose path contains the word "symlink": the error text quotes
   the path, and the inspector takes it for a link. Only a budget that skips the file hides this.
   */
  predicate Misleads(disk: Disk, path: Option<Path>, root: Option<Path>, digest: Option<string>) {
    path.Some? && NameMentionsSymlink(path.value.parts) &&
    Inspect(disk, Unlimited, path, root, digest).evidence.problem == Some(CannotHash(path.value))
  }

  predicate EntryMisleads(disk: Disk, journal: Shared.Journal, entry: Shared.Entry) {
    entry.Entry? &&
    var target := Shared.TargetOf(disk, entry);
    var backup := Shared.OptionalPath(entry.backupPath);
    Misleads(disk, target.path, target.root, Shared.NewDigest(entry)) ||
    Misleads(disk, backup, Operation.PathOf(journal.backupRoot), Shared.BackupExpected(entry))
  }

  /** A hash the budget withheld can only have hidden an unreadable file. */
  lemma HiddenProblem(disk: Disk, limits: Limits, path: Option<Path>, root: Option<Path>, digest: Option<string>)
    ensures var dim, full := Inspect(disk, limits, path, root, digest).evidence,
      Inspect(disk, Unlimited, path, root, digest).evidence;
      Shared.ReportsLink(full) <==> Shared.ReportsLink(dim) || Misleads(disk, path, root, digest)
  {
    BudgetOnlyHides(disk, limits, path, root, digest);
  }

  lemma SharedJudgementSurvives(disk: Disk, journal: Shared.Journal, entry: Shared.Entry, dim: Shared.Probes,
      full: Shared.Probes)
    requires entry.Entry? && SharedDims(dim, full)
    requires var f := Shared.Judge(disk, journal, entry, dim); !f.unsafe && !f.ambiguous
    ensures var links := Shared.ReportsLink(full.destination) ||
      (full.backup.Some? && Shared.ReportsLink(full.backup.value));
      if links then Shared.Judge(disk, journal, entry, full).unsafe
      else Shared.Judge(disk, journal, entry, full) == Shared.Judge(disk, journal, entry, dim)
  {
    CleanMarkSurvives(entry, dim, full);
  }

  lemma SharedEntrySurvives(disk: Disk, limits: Limits, journal: Shared.Journal, entry: Shared.Entry)
    requires var f := Shared.JudgeEntry(disk, limits, journal, entry).0; !f.unsafe && !f.ambiguous
    ensures Shared.JudgeEntry(disk, Unlimited, journal, entry).1 == Unlimited
    ensures Carries(EntryMisleads(disk, journal, entry), Shared.JudgeEntry(disk, Unlimited, journal, entry).0,
      Shared.JudgeEntry(disk, limits, journal, entry).0)
  {
    if entry.Entry? {
      SharedGatherHides(disk, limits, journal, entry);
      var dim, full := Shared.Gather(disk, limits, journal, entry).probes,
        Shared.Gather(disk, Unlimited, journal, entry).probes;
      SharedJudgementSurvives(disk, journal, entry, dim, full);
      LinksSeen(disk, limits, journal, entry);
    }
  }

  lemma LinksSeen(disk: Disk, limits: Limits, journal: Shared.Journal, entry: Shared.Entry)
    requires entry.Entry?
    requires var dim := Shared.Gather(disk, limits, journal, entry).probes;
      !Shared.ReportsLink(dim.destination) && (dim.backup.Some? ==> !Shared.ReportsLink(dim.backup.value))
    ensures var full := Shared.Gather(disk, Unlimited, journal, entry).probes;
      EntryMisleads(disk, journal, entry) <==>
        Shared.ReportsLink(full.destination) || (full.backup.Some? && Shared.ReportsLink(full.backup.value))
  {
    var target := Shared.TargetOf(disk, entry);
    var backup := Shared.OptionalPath(entry.backupPath);
    HiddenProblem(disk, limits, target.path, target.root, Shared.NewDigest(entry));
    var d := Inspect(disk, limits, target.path, target.root, Shared.NewDigest(entry));
    HiddenProblem(disk, d.limits, backup, Operation.PathOf(journal.backupRoot), Shared.BackupExpected(entry));
    Restore.BudgetStaysUnlimited(disk, target.path, target.root, Shared.NewDigest(entry));
  }

  predicate Carries(misleads: bool, full: Shared.Finding, dim: Shared.Finding) {
    if misleads then full.unsafe else full == dim
  }

  predicate IsClean(f: Shared.Finding) { !f.unsafe && !f.ambiguous }

  lemma EntryKeepsUnlimited(disk: Disk, journal: Shared.Journal, entry: Shared.Entry)
    ensures Shared.JudgeEntry(disk, Unlimited, journal, entry).1 == Unlimited
  {
    if entry.Entry? { SharedGatherHides(disk, Unlimited, journal, entry); }
  }

  lemma {:induction false} UnlimitedFindings(disk: Disk, journal: Shared.Journal, n: nat, i: nat)
    requires i < n <= |journal.entries|
    ensures Shared.JudgeFirst(disk, Unlimited, journal, n).limits == Unlimited
    ensures Shared.JudgeFirst(disk, Unlimited, journal, n).each[i] ==
      Shared.JudgeEntry(disk, Unlimited, journal, journal.entries[i]).0
  {
    EntryKeepsUnlimited(disk, journal, journal.entries[n - 1]);
    if n > 1 { UnlimitedFindings(disk, journal, n - 1, if i == n - 1 then 0 else i); }
  }

  lemma SharedFindingsSurvive(disk: Disk, limits: Limits, journal: Shared.Journal)
    requires forall i | 0 <= i < |journal.entries| :: IsClean(Shared.JudgeAll(disk, limits, journal).each[i])
    ensures var full, dim := Shared.JudgeAll(disk, Unlimited, journal).each,
      Shared.JudgeAll(disk, limits, journal).each;
      forall i | 0 <= i < |journal.entries| ::
        Carries(EntryMisleads(disk, journal, journal.entries[i]), full[i], dim[i])
  {
    var n := |journal.entries|;
    forall i | 0 <= i < n
      ensures Carries(EntryMisleads(disk, journal, journal.entries[i]),
        Shared.JudgeAll(disk, Unlimited, journal).each[i], Shared.JudgeAll(disk, limits, journal).each[i])
    {
      assert IsClean(Shared.JudgeAll(disk, limits, journal).each[i]);
      var before := Shared.FindingOfEntry(disk, limits, journal, n, i);
      UnlimitedFindings(disk, journal, n, i);
      SharedEntrySurvives(disk, before, journal, journal.entries[i]);
    }
  }

  predicate JournalMisleads(disk: Disk, journal: Shared.Journal) {
    exists i | 0 <= i < |journal.entries| :: EntryMisleads(disk, journal, journal.entries[i])
  }

  /**
   A safe verdict of inspect_shared_durable under some budget is the verdict without a budget,
   exactly when no unreadable file on the way has a misleading name.
   */
  lemma SharedSafeSurvives(disk: Disk, limits: Limits, journal: Shared.Journal)
    requires Operation.IsSafe(Shared.InspectShared(disk, limits, journal).0.suggested)
    ensures Shared.InspectShared(disk, Unlimited, journal).0 == Shared.InspectShared(disk, limits, journal).0
      <==> !JournalMisleads(disk, journal)
  {
    var dim, full := Shared.JudgeAll(disk, limits, journal).each, Shared.JudgeAll(disk, Unlimited, journal).each;
    SafeFindingsAreClean(disk, limits, journal);
    SharedFindingsSurvive(disk, limits, journal);
    if JournalMisleads(disk, journal) {
      var i :| 0 <= i < |journal.entries| && EntryMisleads(disk, journal, journal.entries[i]);
      UnsafeShows(disk, journal, i);
    } else {
      assert full == dim;
      SameFindings(disk, limits, journal);
    }
  }

  lemma SafeFindingsAreClean(disk: Disk, limits: Limits, journal: Shared.Journal)
    requires Operation.IsSafe(Shared.InspectShared(disk, limits, journal).0.suggested)
    ensures journal.knownSchema
    ensures forall i | 0 <= i < |journal.entries| :: IsClean(Shared.JudgeAll(disk, limits, journal).each[i])
  {
    Shared.TallyFlags(Shared.JudgeAll(disk, limits, journal).each);
  }

  lemma UnsafeShows(disk: Disk, journal: Shared.Journal, i: nat)
    requires journal.knownSchema && i < |journal.entries| && Shared.JudgeAll(disk, Unlimited, journal).each[i].unsafe
    ensures !Operation.IsSafe(Shared.InspectShared(disk, Unlimited, journal).0.suggested)
  {
    Shared.TallyFlags(Shared.JudgeAll(disk, Unlimited, journal).each);
  }

  lemma SameFindings(disk: Disk, limits: Limits, journal: Shared.Journal)
    requires Shared.JudgeAll(disk, Unlimited, journal).each == Shared.JudgeAll(disk, limits, journal).each
    ensures Shared.InspectShared(disk, Unlimited, journal).0 == Shared.InspectShared(disk, limits, journal).0
  {
  }

  // ----- enough budget changes nothing

  lemma {:induction false} AmpleSharedBudget(disk: Disk, limits: Limits, bound: nat, journal: Shared.Journal, n: nat)
    requires n <= |journal.entries| && FilesWithin(disk, bound)
    requires limits.Limits? && limits.perFile >= bound && limits.remaining >= 4 * bound * n
    ensures var f := Shared.JudgeFirst(disk, limits, journal, n);
      Shared.JudgeFirst(disk, Unlimited, journal, n) == Shared.Findings(f.each, Unlimited) &&
      f.limits.Limits? && f.limits.perFile == limits.perFile && f.limits.remaining >= limits.remaining - 4 * bound * n
  {
    if n > 0 {
      assert 4 * bound * n == 4 * bound * (n - 1) + 4 * bound;
      AmpleSharedBudget(disk, limits, bound, journal, n - 1);
      var before := Shared.JudgeFirst(disk, limits, journal, n - 1);
      AmpleEntryBudget(disk, before.limits, bound, journal, journal.entries[n - 1]);
    }
  }

  lemma AmpleOptional(disk: Disk, limits: Limits, bound: nat, path: Option<Path>, root: Option<Path>,
      digest: Option<string>, wanted: bool)
    requires limits.Limits? && limits.perFile >= bound && limits.remaining >= bound && FilesWithin(disk, bound)
    ensures var (e, left) := InspectOptional(disk, limits, path, root, digest, wanted);
      InspectOptional(disk, Unlimited, path, root, digest, wanted) == (e, Unlimited) &&
      left.Limits? && left.perFile == limits.perFile && left.remaining >= limits.remaining - bound
  {
    AmpleBudgetHidesNothing(disk, limits, bound, path, root, digest);
  }

  /** One entry costs at most four of the largest file. */
  lemma AmpleEntryBudget(disk: Disk, limits: Limits, bound: nat, journal: Shared.Journal, entry: Shared.Entry)
    requires limits.Limits? && limits.perFile >= bound && limits.remaining >= 4 * bound && FilesWithin(disk, bound)
    ensures var (f, left) := Shared.JudgeEntry(disk, limits, journal, entry);
      Shared.JudgeEntry(disk, Unlimited, journal, entry) == (f, Unlimited) &&
      left.Limits? && left.perFile == limits.perFile && left.remaining >= limits.remaining - 4 * bound
  {
    if entry.Entry? { AmpleGather(disk, limits, bound, journal, entry); }
  }

  lemma AmpleGather(disk: Disk, limits: Limits, bound: nat, journal: Shared.Journal, entry: Shared.Entry)
    requires entry.Entry?
    requires limits.Limits? && limits.perFile >= bound && limits.remaining >= 4 * bound && FilesWithin(disk, bound)
    ensures var g := Shared.Gather(disk, limits, journal, entry);
      Shared.Gather(disk, Unlimited, journal, entry) == Shared.Gathered(g.probes, Unlimited) &&
      g.limits.Limits? && g.limits.perFile == limits.perFile && g.limits.remaining >= limits.remaining - 4 * bound
  {
    var lb := AmpleEarlier(disk, limits, bound, journal, entry);
    AmpleLater(disk, lb, bound, Shared.TargetOf(disk, entry), entry);
  }

  lemma AmpleEarlier(disk: Disk, limits: Limits, bound: nat, journal: Shared.Journal, entry: Shared.Entry)
    returns (lb: Limits)
    requires entry.Entry?
    requires limits.Limits? && limits.perFile >= bound && limits.remaining >= 4 * bound && FilesWithin(disk, bound)
    ensures var target := Shared.TargetOf(disk, entry);
      var backup, root := Shared.OptionalPath(entry.backupPath), Operation.PathOf(journal.backupRoot);
      var d := Inspect(disk, limits, target.path, target.root, Shared.NewDigest(entry));
      var b := InspectOptional(disk, d.limits, backup, root, Shared.BackupExpected(entry), backup.Some?);
      Inspect(disk, Unlimited, target.path, target.root, Shared.NewDigest(entry)) == Probe(d.evidence, Unlimited) &&
      InspectOptional(disk, Unlimited, backup, root, Shared.BackupExpected(entry), backup.Some?) == (b.0, Unlimited) &&
      lb == b.1 && lb.Limits? && lb.perFile == limits.perFile && lb.remaining >= limits.remaining - 2 * bound
  {
    var target := Shared.TargetOf(disk, entry);
    var backup, root := Shared.OptionalPath(entry.backupPath), Operation.PathOf(journal.backupRoot);
    AmpleBudgetHidesNothing(disk, limits, bound, target.path, target.root, Shared.NewDigest(entry));
    Restore.BudgetStaysUnlimited(disk, target.path, target.root, Shared.NewDigest(entry));
    var d := Inspect(disk, limits, target.path, target.root, Shared.NewDigest(entry));
    AmpleOptional(disk, d.limits, bound, backup, root, Shared.BackupExpected(entry), backup.Some?);
    lb := InspectOptional(disk, d.limits, backup, root, Shared.BackupExpected(entry), backup.Some?).1;
  }

  lemma AmpleLater(disk: Disk, lb: Limits, bound: nat, target: Shared.Target, entry: Shared.Entry)
    requires entry.Entry?
    requires lb.Limits? && lb.perFile >= bound && lb.remaining >= 2 * bound && FilesWithin(disk, bound)
    ensures var temporary := Shared.OptionalPath(entry.temporaryPath);
      var (t, lt) := InspectOptional(disk, lb, temporary, target.root, None, temporary.Some?);
      InspectOptional(disk, Unlimited, temporary, target.root, None, temporary.Some?) == (t, Unlimited) &&
      var (r, lr) := InspectOptional(disk, lt, target.path, target.root, Shared.PreDigest(entry),
        Shared.RehashesOld(entry));
      InspectOptional(disk, Unlimited, target.path, target.root, Shared.PreDigest(entry),
        Shared.RehashesOld(entry)) == (r, Unlimited) &&
      lr.Limits? && lr.perFile == lb.perFile && lr.remaining >= lb.remaining - 2 * bound
  {
    var temporary := Shared.OptionalPath(entry.temporaryPath);
    AmpleOptional(disk, lb, bound, temporary, target.root, None, temporary.Some?);
    var lt := InspectOptional(disk, lb, temporary, target.root, None, temporary.Some?).1;
    AmpleOptional(disk, lt, bound, target.path, target.root, Shared.PreDigest(entry), Shared.RehashesOld(entry));
  }

  /** With room for four of the largest file per entry, the budget decides nothing. */
  lemma EnoughBudgetIsUnlimited(disk: Disk, limits: Limits, bound: nat, journal: Shared.Journal)
    requires FilesWithin(disk, bound) && limits.Limits? && limits.perFile >= bound
    requires limits.remaining >= 4 * bound * |journal.entries|
    ensures Shared.InspectShared(disk, limits, journal).0 == Shared.InspectShared(disk, Unlimited, journal).0
  {
    AmpleSharedBudget(disk, limits, bound, journal, |journal.entries|);
  }

  // ----- rename journals

  lemma ExactSurvives(disk: Disk, limits: Limits, path: Option<Path>, identity: Rename.Identity)
    ensures Rename.ExactIdentity(disk, limits, path, identity).valid ==>
      Rename.ExactIdentity(disk, Unlimited, path, identity).valid
    ensures Rename.ExactIdentity(disk, Unlimited, path, identity).limits == Unlimited
  {
    BudgetOnlyHides(disk, limits, path, None, identity.digest);
  }

  lemma RenameEntrySurvives(disk: Disk, limits: Limits, journal: Rename.Journal, entry: Rename.Entry)
    requires var f := Rename.JudgeEntry(disk, limits, journal, entry).0; !f.unsafe && !f.ambiguous
    ensures Rename.JudgeEntry(disk, Unlimited, journal, entry) ==
      (Rename.JudgeEntry(disk, limits, journal, entry).0, Unlimited)
  {
    if entry.Entry? && !Rename.IsSettled(journal.state) && entry.state == Operation.APPLIED && entry.destination.Some? {
      match entry.action
      case CreateSymlink(root, _) => BudgetOnlyHides(disk, limits, entry.destination, root, None);
      case CreateHardlink(root) =>
        BudgetOnlyHides(disk, limits, entry.destination, root, entry.identity.digest);
        ExactSurvives(disk, Inspect(disk, limits, entry.destination, root, entry.identity.digest).limits,
          entry.source, entry.identity);
      case RenameMove =>
        ExactSurvives(disk, limits, entry.destination, entry.identity);
        BudgetOnlyHides(disk, Rename.ExactIdentity(disk, limits, entry.destination, entry.identity).limits,
          entry.source, journal.sourceRoot, None);
    }
  }

  lemma {:induction false} RenameTallyMeaning(findings: seq<Rename.Finding>)
    ensures Rename.TallyOf(findings).unsafe <==> exists i | 0 <= i < |findings| :: findings[i].unsafe
    ensures Rename.TallyOf(findings).ambiguous <==> exists i | 0 <= i < |findings| :: findings[i].ambiguous
  {
    if findings != [] {
      var n := |findings| - 1;
      RenameTallyMeaning(findings[..n]);
      assert forall i | 0 <= i < n :: findings[..n][i] == findings[i];
    }
  }

  lemma RenameStepSurvives(disk: Disk, limits: Limits, journal: Rename.Journal, n: nat)
    requires n < |journal.entries|
    requires Rename.JudgeFirst(disk, Unlimited, journal, n) ==
      Rename.Findings(Rename.JudgeFirst(disk, limits, journal, n).each, Unlimited)
    requires var f := Rename.JudgeFirst(disk, limits, journal, n + 1).each[n]; !f.unsafe && !f.ambiguous
    ensures Rename.JudgeFirst(disk, Unlimited, journal, n + 1) ==
      Rename.Findings(Rename.JudgeFirst(disk, limits, journal, n + 1).each, Unlimited)
  {
    Rename.JudgeStep(disk, limits, journal, n);
    Rename.JudgeStep(disk, Unlimited, journal, n);
    RenameEntrySurvives(disk, Rename.JudgeFirst(disk, limits, journal, n).limits, journal, journal.entries[n]);
  }

  lemma {:induction false} RenameFindingsSurvive(disk: Disk, limits: Limits, journal: Rename.Journal, n: nat)
    requires n <= |journal.entries|
    requires forall i | 0 <= i < n :: var f := Rename.JudgeFirst(disk, limits, journal, n).each[i];
      !f.unsafe && !f.ambiguous
    ensures Rename.JudgeFirst(disk, Unlimited, journal, n) ==
      Rename.Findings(Rename.JudgeFirst(disk, limits, journal, n).each, Unlimited)
  {
    if n > 0 {
      var now, before := Rename.JudgeFirst(disk, limits, journal, n), Rename.JudgeFirst(disk, limits, journal, n - 1);
      forall i | 0 <= i < n - 1 ensures !before.each[i].unsafe && !before.each[i].ambiguous {
        assert before.each[i] == now.each[i];
      }
      RenameFindingsSurvive(disk, limits, journal, n - 1);
      RenameStepSurvives(disk, limits, journal, n - 1);
    }
  }

  /** A safe verdict of inspect_rename under some budget is the verdict without a budget. */
  lemma RenameSafeSurvives(disk: Disk, limits: Limits, journal: Rename.Journal)
    requires Operation.IsSafe(Rename.InspectRenames(disk, limits, journal).0.suggested)
    ensures Rename.InspectRenames(disk, Unlimited, journal).0 == Rename.InspectRenames(disk, limits, journal).0
  {
    RenameTallyMeaning(Rename.JudgeFirst(disk, limits, journal, |journal.entries|).each);
    RenameFindingsSurvive(disk, limits, journal, |journal.entries|);
  }

  // ----- single-file journals

  lemma PatchGatherHides(disk: Disk, limits: Limits, journal: Patch.Journal)
    requires journal.Journal?
    ensures var dim, full := Patch.Gather(disk, limits, journal).probes, Patch.Gather(disk, Unlimited, journal).probes;
      DimsOption(dim.source, full.source) && DimsOption(dim.patch, full.patch) &&
      DimsOption(dim.temporary, full.temporary) &&
      DimsOption(dim.destination, full.destination) && DimsOption(dim.provenance, full.provenance)
  {
    var root := Patch.OutputRoot(journal);
    OptionalOnlyHides(disk, limits, journal.source, None, journal.sourceSha256, journal.source.Some?);
    var (_, l1) := InspectOptional(disk, limits, journal.source, None, journal.sourceSha256, journal.source.Some?);
    OptionalOnlyHides(disk, l1, journal.patch, None, journal.patchSha256, journal.patch.Some?);
    var (_, l2) := InspectOptional(disk, l1, journal.patch, None, journal.patchSha256, journal.patch.Some?);
    OptionalOnlyHides(disk, l2, journal.temporary, root, journal.outputSha256, journal.temporary.Some?);
    var (_, l3) := InspectOptional(disk, l2, journal.temporary, root, journal.outputSha256, journal.temporary.Some?);
    OptionalOnlyHides(disk, l3, journal.destination, root, journal.outputSha256, journal.destination.Some?);
    var (_, l4) := InspectOptional(disk, l3, journal.destination, root, journal.outputSha256,
      journal.destination.Some?);
    OptionalOnlyHides(disk, l4, journal.provenance, root, journal.provenanceSha256, journal.provenance.Some?);
  }

  /** A safe verdict of inspect_patch_output under some budget is the verdict without a budget. */
  lemma PatchSafeSurvives(disk: Disk, limits: Limits, journal: Patch.Journal)
    requires var op := Patch.InspectPatch(disk, limits, journal).0; op.Some? && Operation.IsSafe(op.value.suggested)
    ensures Patch.InspectPatch(disk, Unlimited, journal).0 == Patch.InspectPatch(disk, limits, journal).0
  {
    PatchGatherHides(disk, limits, journal);
  }

  /** A safe verdict of inspect_database_restore under some budget is the verdict without a budget. */
  lemma RestoreSafeSurvives(disk: Disk, limits: Limits, path: Path, dataRoot: Path, receipt: Restore.Receipt)
    requires var op := Restore.InspectRestore(disk, limits, path, dataRoot, receipt).0;
      op.Some? && Operation.IsSafe(op.value.suggested)
    ensures Restore.InspectRestore(disk, Unlimited, path, dataRoot, receipt).0 ==
      Restore.InspectRestore(disk, limits, path, dataRoot, receipt).0
  {
    BudgetOnlyHides(disk, limits, receipt.selected, None, receipt.selectedSha256);
    var s := Inspect(disk, limits, receipt.selected, None, receipt.selectedSha256);
    BudgetOnlyHides(disk, s.limits, receipt.live, Some(dataRoot), Restore.LiveExpected(receipt));
    var l := Inspect(disk, s.limits, receipt.live, Some(dataRoot), Restore.LiveExpected(receipt));
    OptionalOnlyHides(disk, l.limits, receipt.emergency, Some(dataRoot), receipt.emergencySha256,
      receipt.emergency.Some?);
    Restore.BudgetStaysUnlimited(disk, receipt.selected, None, receipt.selectedSha256);
    Restore.BudgetStaysUnlimited(disk, receipt.live, Some(dataRoot), Restore.LiveExpected(receipt));
  }

  /** A safe verdict of inspect_es_de_recovery under some budget is the verdict without a budget. */
  lemma EsDeSafeSurvives(disk: Disk, limits: Limits, path: Path, root: Path, record: EsDe.Record)
    requires var op := EsDe.InspectRecord(disk, limits, path, root, record).0;
      op.Some? && Operation.IsSafe(op.value.suggested)
    ensures EsDe.InspectRecord(disk, Unlimited, path, root, record).0 ==
      EsDe.InspectRecord(disk, limits, path, root, record).0
  {
    BudgetOnlyHides(disk, limits, Some(record.gamelist), Some(root), record.previous);
  }
}
