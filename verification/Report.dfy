/** The whole inspection run: every journal in turn, the summary counts and the exit code (inspect_all, exit_code). */
module Report {
  import opened Common
  import opened FileSystem
  import opened Evidence
  import opened Operation
  import Shared = SharedJournal
  import Rename = RenameJournal
  import Patch = PatchOutput
  import Restore = DatabaseRestore
  import EsDe = EsDeRecovery
  import History = HistoryJournals
  import Budget = BudgetSoundness

  /** One file found in a journal root, as far as it could be read and decoded. */
  datatype File =
    | Unparsed
    | RenameFile(rename: Rename.Journal)
    | SharedFile(shared: Shared.Journal)
    | LegacyFile(legacyKnown: bool, status: Word, entries: nat)
    | ReceiptFile(receiptKnown: bool, outcomes: seq<History.ReceiptEntry>)
    | CheatFile(run: History.CheatRun)
    | LibraryFile(libraryKnown: bool, planned: nat)
    | PatchFile(patch: Patch.Journal)
    | RestoreFile(path: Path, receipt: Restore.Receipt)
    | EsDeFile(recordPath: Path, root: Path, record: EsDe.Record)
    | SidecarFile(archived: nat)

  const UNREADABLE := FRESH.(state := Unreadable)

  // ----- what depends on the journal alone

  /** The inspector raises, so the file is reported as unreadable. */
  predicate Fails(file: File) {
    match file
    case Unparsed => true
    case PatchFile(patch) => patch.MissingFields?
    case RestoreFile(_, receipt) => receipt.Malformed?
    case EsDeFile(path, _, record) => record.Malformed? ||
      (record.knownSchema && EsDe.WithoutSuffix(BaseName(path)) == "")
    case _ => false
  }

  /** The journal records a finished operation. */
  predicate Settles(disk: Disk, dataRoot: Path, file: File) {
    match file
    case RenameFile(journal) => Rename.IsSettled(journal.state)
    case SharedFile(journal) => journal.knownSchema && Shared.IsTerminal(journal.state)
    case LegacyFile(known, _, _) => known
    case ReceiptFile(known, outcomes) => History.ReceiptCategory(known, outcomes) == CompletedHistory
    case CheatFile(run) => run.knownSchema && run.finished
    case LibraryFile(known, _) => known
    case PatchFile(patch) => patch.Journal? && Patch.IsSettled(patch.state)
    case RestoreFile(path, receipt) =>
      receipt.Receipt? && receipt.knownSchema && Restore.BoundToRoot(disk, path, dataRoot, receipt) &&
      Restore.IsDone(receipt.stage)
    case SidecarFile(_) => true
    case _ => false
  }

  predicate IsListed(disk: Disk, dataRoot: Path, includeHistory: bool, file: File) {
    includeHistory || !Settles(disk, dataRoot, file)
  }

  predicate IsUsable(includeHistory: bool, file: File) {
    !Fails(file) && (file.SidecarFile? ==> includeHistory)
  }

  /** The verdict one inspector reaches on its own, with no budget to run out of. */
  function Unbudgeted(disk: Disk, dataRoot: Path, file: File): Option<Operation> {
    match file
    case RenameFile(journal) => Some(Rename.InspectRenames(disk, Unlimited, journal).0)
    case SharedFile(journal) => Some(Shared.InspectShared(disk, Unlimited, journal).0)
    case PatchFile(patch) => Patch.InspectPatch(disk, Unlimited, patch).0
    case RestoreFile(path, receipt) => Restore.InspectRestore(disk, Unlimited, path, dataRoot, receipt).0
    case EsDeFile(path, root, record) => EsDe.InspectRecord(disk, Unlimited, path, root, record).0
    case _ => None
  }

  predicate HasMisleadingName(disk: Disk, file: File) {
    file.SharedFile? && Budget.JournalMisleads(disk, file.shared)
  }

  /** An operation says about its file what its file and the disk justify. */
  ghost predicate Justified(disk: Disk, dataRoot: Path, file: File, op: Operation) {
    Lockstep(op) &&
    (op.category == CompletedHistory <==> Settles(disk, dataRoot, file)) &&
    (Fails(file) ==> op == UNREADABLE) &&
    (IsSafe(op.suggested) && !HasMisleadingName(disk, file) ==> Unbudgeted(disk, dataRoot, file) == Some(op))
  }

  // ----- inspecting one file

  lemma RenameJustified(disk: Disk, limits: Limits, dataRoot: Path, journal: Rename.Journal)
    ensures Justified(disk, dataRoot, RenameFile(journal), Rename.InspectRenames(disk, limits, journal).0)
  {
    if IsSafe(Rename.InspectRenames(disk, limits, journal).0.suggested) {
      Budget.RenameSafeSurvives(disk, limits, journal);
    }
  }

  lemma SharedJustified(disk: Disk, limits: Limits, dataRoot: Path, journal: Shared.Journal)
    ensures Justified(disk, dataRoot, SharedFile(journal), Shared.InspectShared(disk, limits, journal).0)
  {
    SharedVerdictSettles(journal, Shared.TallyOf(Shared.JudgeAll(disk, limits, journal).each));
    SharedVerdictSettles(journal, Shared.TallyOf([]));
    if IsSafe(Shared.InspectShared(disk, limits, journal).0.suggested) {
      Budget.SharedSafeSurvives(disk, limits, journal);
    }
  }

  lemma SharedVerdictSettles(journal: Shared.Journal, tally: Shared.Tally)
    ensures var op := Shared.Verdict(journal, tally);
      Lockstep(op) && (op.category == CompletedHistory <==> journal.knownSchema && Shared.IsTerminal(journal.state))
  {
  }

  lemma PatchJustified(disk: Disk, limits: Limits, dataRoot: Path, patch: Patch.Journal)
    ensures var op := Patch.InspectPatch(disk, limits, patch).0;
      (op.None? <==> Fails(PatchFile(patch))) && (op.Some? ==> Justified(disk, dataRoot, PatchFile(patch), op.value))
  {
    var op := Patch.InspectPatch(disk, limits, patch).0;
    if op.Some? && IsSafe(op.value.suggested) { Budget.PatchSafeSurvives(disk, limits, patch); }
  }

  lemma RestoreJustified(disk: Disk, limits: Limits, dataRoot: Path, path: Path, receipt: Restore.Receipt)
    ensures var op := Restore.InspectRestore(disk, limits, path, dataRoot, receipt).0;
      (op.None? <==> Fails(RestoreFile(path, receipt))) &&
      (op.Some? ==> Justified(disk, dataRoot, RestoreFile(path, receipt), op.value))
  {
    var op := Restore.InspectRestore(disk, limits, path, dataRoot, receipt).0;
    if op.Some? && IsSafe(op.value.suggested) { Budget.RestoreSafeSurvives(disk, limits, path, dataRoot, receipt); }
  }

  lemma EsDeJustified(disk: Disk, limits: Limits, dataRoot: Path, path: Path, root: Path, record: EsDe.Record)
    ensures var op := EsDe.InspectRecord(disk, limits, path, root, record).0;
      (op.None? <==> Fails(EsDeFile(path, root, record))) &&
      (op.Some? ==> Justified(disk, dataRoot, EsDeFile(path, root, record), op.value))
  {
    var op := EsDe.InspectRecord(disk, limits, path, root, record).0;
    if op.Some? && IsSafe(op.value.suggested) { Budget.EsDeSafeSurvives(disk, limits, path, root, record); }
  }

  method InspectFile(disk: Disk, dataRoot: Path, file: File, budget: HashBudget) returns (operation: Option<Operation>)
    requires budget.Valid()
    modifies budget
    ensures budget.Valid() && old(budget.hashed) <= budget.hashed
    ensures operation.None? <==> Fails(file)
    ensures operation.Some? ==> Justified(disk, dataRoot, file, operation.value)
  {
    ghost var limits := budget.Left();
    match file {
      case Unparsed => operation := None;
      case RenameFile(journal) =>
        RenameJustified(disk, limits, dataRoot, journal);
        var op := Rename.InspectRename(disk, journal, budget);
        operation := Some(op);
      case SharedFile(journal) =>
        SharedJustified(disk, limits, dataRoot, journal);
        var op, _ := Shared.InspectSharedDurable(disk, journal, budget);
        operation := Some(op);
      case LegacyFile(known, status, entries) => operation := Some(History.LegacyVerdict(known, status, entries));
      case ReceiptFile(known, outcomes) =>
        var op := History.InspectReceipt(known, outcomes);
        operation := Some(op);
      case CheatFile(run) =>
        var op := History.InspectCheat(disk, run, budget);
        operation := Some(op);
      case LibraryFile(known, planned) => operation := Some(History.LibraryViewVerdict(known, planned));
      case PatchFile(patch) =>
        PatchJustified(disk, limits, dataRoot, patch);
        operation := Patch.InspectPatchOutput(disk, patch, budget);
      case RestoreFile(path, receipt) =>
        RestoreJustified(disk, limits, dataRoot, path, receipt);
        operation := Restore.InspectDatabaseRestore(disk, path, dataRoot, receipt, budget);
      case EsDeFile(path, root, record) =>
        EsDeJustified(disk, limits, dataRoot, path, root, record);
        operation := EsDe.InspectEsDeRecovery(disk, path, root, record, budget);
      case SidecarFile(archived) => operation :=
        Some(History.HISTORY.(state := Completed, total := archived, completed := archived));
    }
  }

  // ----- the run

  datatype Report = Report(operations: seq<Operation>, usable: nat, errors: nat)

  function CountUsable(includeHistory: bool, files: seq<File>): nat {
    if files == [] then 0
    else
      CountUsable(includeHistory, files[..|files| - 1]) + if IsUsable(includeHistory, files[|files| - 1]) then 1 else 0
  }

  function CountFailed(files: seq<File>): nat {
    if files == [] then 0 else CountFailed(files[..|files| - 1]) + if Fails(files[|files| - 1]) then 1 else 0
  }

  function Listed(disk: Disk, dataRoot: Path, includeHistory: bool, files: seq<File>): seq<File> {
    if files == [] then []
    else
      var before := Listed(disk, dataRoot, includeHistory, files[..|files| - 1]);
      if IsListed(disk, dataRoot, includeHistory, files[|files| - 1]) then before + [files[|files| - 1]] else before
  }

  /** inspect_all over the files found, after `problems` journal roots could not be listed in full. */
  method InspectAll(disk: Disk, dataRoot: Path, includeHistory: bool, problems: nat, files: seq<File>,
      budget: HashBudget)
    returns (report: Report)
    requires budget.Valid()
    modifies budget
    ensures budget.Valid() && old(budget.hashed) <= budget.hashed
    ensures report.usable == CountUsable(includeHistory, files) && report.errors == problems + CountFailed(files)
    ensures var listed := Listed(disk, dataRoot, includeHistory, files);
      |report.operations| == |listed| &&
      forall k | 0 <= k < |listed| :: Justified(disk, dataRoot, listed[k], report.operations[k])
  {
    report := Report([], 0, problems);
    for i := 0 to |files|
      invariant budget.Valid() && old(budget.hashed) <= budget.hashed
      invariant report.usable == CountUsable(includeHistory, files[..i]) &&
        report.errors == problems + CountFailed(files[..i])
      invariant |report.operations| == |Listed(disk, dataRoot, includeHistory, files[..i])|
      invariant forall k | 0 <= k < |report.operations| ::
        Justified(disk, dataRoot, Listed(disk, dataRoot, includeHistory, files[..i])[k], report.operations[k])
    {
      var file := files[i];
      assert files[..i + 1][..i] == files[..i];
      var operation := InspectFile(disk, dataRoot, file, budget);
      if operation.None? {
        report := report.(errors := report.errors + 1);
        operation := Some(UNREADABLE);
      } else if file.SidecarFile? ==> includeHistory {
        report := report.(usable := report.usable + 1);
      }
      assert Justified(disk, dataRoot, file, operation.value);
      if includeHistory || operation.value.category != CompletedHistory {
        report := report.(operations := report.operations + [operation.value]);
      }
    }
    assert files[..|files|] == files;
  }

  // ----- summary and exit code

  function CountStatus(ops: seq<Operation>, status: Status): (n: nat) {
    if ops == [] then 0 else CountStatus(ops[..|ops| - 1], status) + if ops[|ops| - 1].suggested == status then 1 else 0
  }

  function CountCategory(ops: seq<Operation>, category: Category): (n: nat) {
    if ops == [] then 0
    else CountCategory(ops[..|ops| - 1], category) + if ops[|ops| - 1].category == category then 1 else 0
  }

  /** The number of operations that are not completed history. */
  function CountPending(ops: seq<Operation>): (n: nat) {
    if ops == [] then 0
    else CountPending(ops[..|ops| - 1]) + if ops[|ops| - 1].category != CompletedHistory then 1 else 0
  }

  function ExitCode(report: Report): int {
    if report.errors > 0 && report.usable == 0 then 3
    else if CountStatus(report.operations, Review) > 0 || CountStatus(report.operations, DoNotTouch) > 0 then 2
    else if CountPending(report.operations) > 0 then 1
    else 0
  }

  ghost predicate AllLockstep(ops: seq<Operation>) {
    forall k | 0 <= k < |ops| :: Lockstep(ops[k])
  }

  /** Pending is the sum of the four status counts, and history is the rest. */
  lemma {:induction false} SummaryAddsUp(ops: seq<Operation>)
    requires AllLockstep(ops)
    ensures CountPending(ops) ==
      CountStatus(ops, SafeRollback) + CountStatus(ops, SafeResume) + CountStatus(ops, Review) +
        CountStatus(ops, DoNotTouch)
    ensures CountPending(ops) + CountCategory(ops, CompletedHistory) == |ops|
    ensures CountCategory(ops, Recoverable) == CountStatus(ops, SafeRollback) + CountStatus(ops, SafeResume)
    ensures CountCategory(ops, Pending) == 0
  {
    if ops != [] {
      SummaryAddsUp(ops[..|ops| - 1]);
      assert Lockstep(ops[|ops| - 1]);
    }
  }

  lemma {:induction false} StatusPresent(ops: seq<Operation>, status: Status)
    ensures CountStatus(ops, status) > 0 <==> exists k | 0 <= k < |ops| :: ops[k].suggested == status
  {
    if ops != [] {
      var n := |ops| - 1;
      StatusPresent(ops[..n], status);
      assert forall k | 0 <= k < n :: ops[..n][k] == ops[k];
    }
  }

  lemma {:induction false} PendingPresent(ops: seq<Operation>)
    ensures CountPending(ops) > 0 <==> exists k | 0 <= k < |ops| :: ops[k].category != CompletedHistory
  {
    if ops != [] {
      var n := |ops| - 1;
      PendingPresent(ops[..n]);
      assert forall k | 0 <= k < n :: ops[..n][k] == ops[k];
    }
  }

  ghost predicate AllSafe(ops: seq<Operation>) {
    forall k | 0 <= k < |ops| :: ops[k].category != CompletedHistory ==> IsSafe(ops[k].suggested)
  }

  /** What each exit code means about the report. */
  lemma ExitCodeMeaning(report: Report)
    requires AllLockstep(report.operations)
    ensures ExitCode(report) == 3 <==> report.errors > 0 && report.usable == 0
    ensures ExitCode(report) == 0 ==> CountPending(report.operations) == 0
    ensures ExitCode(report) == 1 ==> CountPending(report.operations) > 0 && AllSafe(report.operations)
    ensures ExitCode(report) == 2 ==> !AllSafe(report.operations)
    ensures ExitCode(report) != 3 ==>
      ExitCode(report) == 
        (if !AllSafe(report.operations) then 2 else if CountPending(report.operations) > 0 then 1 else 0)
  {
    var ops := report.operations;
    StatusPresent(ops, Review);
    StatusPresent(ops, DoNotTouch);
    PendingPresent(ops);
    assert forall k | 0 <= k < |ops| :: Lockstep(ops[k]);
    if CountStatus(ops, Review) > 0 {
      var k :| 0 <= k < |ops| && ops[k].suggested == Review;
      assert Lockstep(ops[k]) && !AllSafe(ops);
    }
    if CountStatus(ops, DoNotTouch) > 0 {
      var k :| 0 <= k < |ops| && ops[k].suggested == DoNotTouch;
      assert Lockstep(ops[k]) && !AllSafe(ops);
    }
  }

  lemma {:induction false} FailureIsListed(disk: Disk, dataRoot: Path, includeHistory: bool, files: seq<File>, i: nat)
    returns (k: nat)
    requires i < |files| && Fails(files[i])
    ensures k < |Listed(disk, dataRoot, includeHistory, files)| &&
      Listed(disk, dataRoot, includeHistory, files)[k] == files[i]
  {
    var n := |files| - 1;
    if i == n {
      FailureIsActive(disk, dataRoot, files[i]);
      k := |Listed(disk, dataRoot, includeHistory, files[..n])|;
    } else {
      k := FailureIsListed(disk, dataRoot, includeHistory, files[..n], i);
    }
  }

  lemma FailureIsActive(disk: Disk, dataRoot: Path, file: File)
    requires Fails(file)
    ensures !Settles(disk, dataRoot, file)
  {
  }

  /** A report as InspectAll produces it. */
  ghost predicate IsReportOf(disk: Disk, dataRoot: Path, includeHistory: bool, problems: nat, files: seq<File>,
      report: Report)
  {
    var listed := Listed(disk, dataRoot, includeHistory, files);
    report.usable == CountUsable(includeHistory, files) && report.errors == problems + CountFailed(files) &&
    |report.operations| == |listed| &&
    forall k | 0 <= k < |listed| :: Justified(disk, dataRoot, listed[k], report.operations[k])
  }

  lemma ReportIsLockstep(disk: Disk, dataRoot: Path, includeHistory: bool, problems: nat, files: seq<File>,
      report: Report)
    requires IsReportOf(disk, dataRoot, includeHistory, problems, files, report)
    ensures AllLockstep(report.operations)
  {
    var listed := Listed(disk, dataRoot, includeHistory, files);
    forall k | 0 <= k < |report.operations| ensures Lockstep(report.operations[k]) {
      assert Justified(disk, dataRoot, listed[k], report.operations[k]);
    }
  }

  /** One unreadable journal among any number of others forces exit code 2 or 3. */
  lemma UnreadableForcesAttention(disk: Disk, dataRoot: Path, includeHistory: bool, problems: nat, files: seq<File>,
      report: Report, i: nat)
    requires IsReportOf(disk, dataRoot, includeHistory, problems, files, report) && i < |files| && Fails(files[i])
    ensures ExitCode(report) == 2 || ExitCode(report) == 3
  {
    var k := FailureIsListed(disk, dataRoot, includeHistory, files, i);
    assert Justified(disk, dataRoot, files[i], report.operations[k]);
    StatusPresent(report.operations, DoNotTouch);
  }

  /** Exit code 1 promises: every active operation is a safe candidate its own inspector confirms without any budget. */
  lemma ExitOneIsTrustworthy(disk: Disk, dataRoot: Path, includeHistory: bool, problems: nat, files: seq<File>,
      report: Report)
    requires IsReportOf(disk, dataRoot, includeHistory, problems, files, report) && ExitCode(report) == 1
    ensures var listed := Listed(disk, dataRoot, includeHistory, files);
      forall k | 0 <= k < |listed| && !Settles(disk, dataRoot, listed[k]) && !HasMisleadingName(disk, listed[k]) ::
        Unbudgeted(disk, dataRoot, listed[k]) == Some(report.operations[k]) && IsSafe(report.operations[k].suggested)
  {
    ReportIsLockstep(disk, dataRoot, includeHistory, problems, files, report);
    ExitCodeMeaning(report);
    var listed := Listed(disk, dataRoot, includeHistory, files);
    forall k | 0 <= k < |listed| && !Settles(disk, dataRoot, listed[k]) && !HasMisleadingName(disk, listed[k])
      ensures Unbudgeted(disk, dataRoot, listed[k]) == Some(report.operations[k]) &&
        IsSafe(report.operations[k].suggested)
    {
      assert Justified(disk, dataRoot, listed[k], report.operations[k]);
    }
  }

  /** The inspector cannot make anything of the file, kind by kind. */
  predicate CannotBeRead(file: File) {
    match file
    case Unparsed => true
    case PatchFile(MissingFields) => true
    case RestoreFile(_, Malformed) => true
    case EsDeFile(_, _, Malformed) => true
    case EsDeFile(path, _, Record(known, _, _)) => known && BaseName(path) in {"", ".es-de-publish-recovery.json"}
    case _ => false
  }

  function Unread(files: seq<File>): set<nat> {
    set i: nat | i < |files| && CannotBeRead(files[i])
  }

  /** What counts as usable: whatever could be read, but archived sidecars only when history is asked for. */
  function Usable(includeHistory: bool, files: seq<File>): set<nat> {
    set i: nat | i < |files| && !CannotBeRead(files[i]) && (includeHistory || !files[i].SidecarFile?)
  }

  lemma ReadingCompared(file: File)
    ensures Fails(file) <==> CannotBeRead(file)
  {
    if file.EsDeFile? {
      var name := BaseName(file.recordPath);
      var bare := EsDe.WithoutSuffix(name);
      if bare == "" && name != "" {
        assert name == bare + name[|name| - |EsDe.SUFFIX|..];
        assert name == EsDe.SUFFIX;
      }
      if name == EsDe.SUFFIX { assert name[|name| - |EsDe.SUFFIX|..] == EsDe.SUFFIX; }
    }
  }

  lemma FilesGrow(includeHistory: bool, files: seq<File>, file: File)
    ensures Unread(files + [file]) == Unread(files) + if CannotBeRead(file) then {|files|} else {}
    ensures Usable(includeHistory, files + [file]) ==
      Usable(includeHistory, files) +
      if !CannotBeRead(file) && (includeHistory || !file.SidecarFile?) then {|files|} else {}
  {
    var more := files + [file];
    assert more[|files|] == file && forall i | 0 <= i < |files| :: more[i] == files[i];
  }

  /** The two counters of a run count the files that could not be read, and the others. */
  lemma {:induction false} CountersAreExact(includeHistory: bool, files: seq<File>)
    ensures CountFailed(files) == |Unread(files)|
    ensures CountUsable(includeHistory, files) == |Usable(includeHistory, files)|
  {
    if files != [] {
      var init, last := files[..|files| - 1], files[|files| - 1];
      CountersAreExact(includeHistory, init);
      FilesGrow(includeHistory, init, last);
      ReadingCompared(last);
      assert init + [last] == files;
    }
  }

  lemma {:induction false} FailedPresent(files: seq<File>)
    ensures CountFailed(files) > 0 <==> exists i | 0 <= i < |files| :: Fails(files[i])
  {
    if files != [] {
      var n := |files| - 1;
      FailedPresent(files[..n]);
      assert forall i | 0 <= i < n :: files[..n][i] == files[i];
    }
  }

  /** With exit code 0 nothing went wrong, exactly when every journal root could be listed. */
  lemma ExitZeroExactly(disk: Disk, dataRoot: Path, includeHistory: bool, problems: nat, files: seq<File>,
      report: Report)
    requires IsReportOf(disk, dataRoot, includeHistory, problems, files, report) && ExitCode(report) == 0
    ensures report.errors == 0 <==> problems == 0
  {
    FailedPresent(files);
    if i :| 0 <= i < |files| && Fails(files[i]) {
      UnreadableForcesAttention(disk, dataRoot, includeHistory, problems, files, report, i);
    }
  }

  /** An unlistable root is an error but not an operation, so exit code 0 does not mean nothing went wrong. */
  lemma ExitZeroMayHideErrors() returns (report: Report)
    ensures report.errors > 0 && ExitCode(report) == 0
    ensures forall disk: Disk, dataRoot: Path ::
      IsReportOf(disk, dataRoot, false, 1, [SidecarFile(0), LibraryFile(true, 0)], report)
  {
    report := Report([], 1, 1);
    var files := [SidecarFile(0), LibraryFile(true, 0)];
    var first := [SidecarFile(0)];
    assert first[..0] == [] && CountUsable(false, first) == 0 && CountFailed(first) == 0;
    assert files[..1] == first && CountUsable(false, files) == 1 && CountFailed(files) == 0;
    forall disk: Disk, dataRoot: Path ensures IsReportOf(disk, dataRoot, false, 1, files, report) {
      assert Listed(disk, dataRoot, false, first) == [];
      assert Listed(disk, dataRoot, false, files) == [];
    }
  }
}
