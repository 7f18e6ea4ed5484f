/**
 The verdicts on patch outputs, database restores, gamelist publications and cheat runs, read off the
 disk and the record alone.
 */
module SingleFileVerdicts {
  import opened Common
  import opened FileSystem
  import opened Evidence
  import opened Operation
  import opened DiskFacts
  import Patch = PatchOutput
  import Restore = DatabaseRestore
  import EsDe = EsDeRecovery
  import Cheat = HistoryJournals

  function Folder(path: Option<Path>): Option<Path> {
    if path.None? then None
    else if path.value.parts == [] then path
    else Some(path.value.(parts := path.value.parts[..|path.value.parts| - 1]))
  }

  // ----- patch outputs

  /** Anything but a link, at the end of a row of folders. */
  ghost predicate Stands(disk: Disk, path: Option<Path>, root: Option<Path>) {
    Askable(disk, path, root) &&
    (forall k | 0 <= k < |path.value.parts| ::
      path.value.parts[..k] in disk.objects && disk.objects[path.value.parts[..k]] == Directory(true)) &&
    path.value.parts in disk.objects && !disk.objects[path.value.parts].Symlink?
  }

  /** The patched file is out, and its provenance stands beside it. */
  ghost predicate IsPublished(disk: Disk, journal: Patch.Journal)
    requires journal.Journal?
  {
    journal.state in {Patch.Publishing, Patch.Published, Patch.VerifyingPublished} &&
    Holds(disk, journal.destination, Folder(journal.destination), journal.outputSha256) &&
    Stands(disk, journal.provenance, Folder(journal.destination))
  }

  /** The patched file is complete in its temporary place, and nothing can be seen at the destination. */
  ghost predicate IsStaged(disk: Disk, journal: Patch.Journal)
    requires journal.Journal?
  {
    journal.state in {Patch.Prepared, Patch.VerifyingTemporary, Patch.Publishing} &&
    Holds(disk, journal.temporary, Folder(journal.destination), journal.outputSha256) &&
    journal.destination.Some? && !Seen(disk, journal.destination, None)
  }

  lemma FoldersCompared(journal: Patch.Journal)
    requires journal.Journal?
    ensures Patch.OutputRoot(journal) == Folder(journal.destination)
  {
  }

  lemma ObjectsCompared(disk: Disk, path: Option<Path>, root: Option<Path>)
    ensures Patch.StandsIn(disk, path, root) <==> Stands(disk, path, root)
  {
    RootsCompared(disk, path, root);
  }

  lemma AbsenceCompared(disk: Disk, path: Option<Path>)
    ensures Patch.LooksAbsent(disk, path) <==> path.Some? && !Seen(disk, path, None)
  {
  }

  lemma PublishedCompared(disk: Disk, journal: Patch.Journal)
    requires journal.Journal?
    ensures Patch.OutputPublished(disk, journal) <==> IsPublished(disk, journal)
    ensures Patch.OutputStaged(disk, journal) <==> IsStaged(disk, journal)
  {
    var root := Folder(journal.destination);
    FoldersCompared(journal);
    HoldingCompared(disk, journal.destination, root, journal.outputSha256);
    HoldingCompared(disk, journal.temporary, root, journal.outputSha256);
    ObjectsCompared(disk, journal.provenance, root);
    AbsenceCompared(disk, journal.destination);
  }

  function PatchState(state: Patch.State): NormalState {
    match state
    case Planned | Preparing | Prepared | VerifyingTemporary | Publishing | Published | VerifyingPublished => Applying
    case Completed => NormalState.Completed
    case Failed => ApplyFailed
    case RollingBack => NormalState.RollingBack
    case RolledBack => NormalState.RolledBack
    case RollbackFailed => NormalState.RollbackFailed
    case NeedsReview => NormalState.NeedsReview
    case UnsafeToResume => NormalState.UnsafeToResume
    case Unlisted => UnknownSchema
  }

  lemma PatchVerdictIsExact(disk: Disk, journal: Patch.Journal)
    requires journal.Journal? && journal.state != Patch.Unlisted
    ensures var op := Patch.InspectPatch(disk, Unlimited, journal).0.value;
      var over := journal.state == Patch.Completed || journal.state == Patch.RolledBack;
      var kept := Holds(disk, journal.source, None, journal.sourceSha256) &&
        Holds(disk, journal.patch, None, journal.patchSha256);
      op.suggested == (
        if over then NoAction
        else if !kept then DoNotTouch
        else if IsPublished(disk, journal) then if journal.preexisting then SafeResume else SafeRollback
        else if IsStaged(disk, journal) then SafeResume
        else Review) &&
      (op.resumePossible <==> IsSafe(op.suggested)) && (op.rollbackPossible <==> op.suggested == SafeRollback) &&
      op.total == 1 && op.completed == (if over then 1 else 0) && op.pending == 1 - op.completed &&
      op.state == (if op.suggested == DoNotTouch then NormalState.UnsafeToResume else PatchState(journal.state))
  {
    PatchProbesCompared(disk, journal);
    PublishedCompared(disk, journal);
  }

  lemma PatchProbesCompared(disk: Disk, journal: Patch.Journal)
    requires journal.Journal?
    ensures var p := Patch.Gather(disk, Unlimited, journal).probes;
      (Patch.Matches(p.source) <==> Holds(disk, journal.source, None, journal.sourceSha256)) &&
      (Patch.Matches(p.patch) <==> Holds(disk, journal.patch, None, journal.patchSha256)) &&
      (Patch.IsPublishing(journal.state) && Patch.Matches(p.destination) && Patch.IsPresent(p.provenance) <==>
        Patch.OutputPublished(disk, journal)) &&
      (Patch.HasTemporary(journal.state) && Patch.Matches(p.temporary) && Patch.IsAbsent(p.destination) <==>
        Patch.OutputStaged(disk, journal))
  {
    var root := Patch.OutputRoot(journal);
    Patch.MatchesIsHolding(disk, journal.source, None, journal.sourceSha256);
    Patch.MatchesIsHolding(disk, journal.patch, None, journal.patchSha256);
    Patch.MatchesIsHolding(disk, journal.temporary, root, journal.outputSha256);
    Patch.MatchesIsHolding(disk, journal.destination, root, journal.outputSha256);
    Patch.MatchesIsHolding(disk, journal.provenance, root, journal.provenanceSha256);
    Patch.AbsentIsLookingAbsent(disk, journal);
    HoldingCompared(disk, journal.source, None, journal.sourceSha256);
    HoldingCompared(disk, journal.patch, None, journal.patchSha256);
  }

  // ----- database restores

  /**
   The live database lies directly below the data root, and the receipt beside it carries its name and
   the operation.
   */
  predicate IsOwnReceipt(path: Path, dataRoot: Path, receipt: Restore.Receipt, name: Name)
    requires receipt.Receipt?
  {
    dataRoot.absolute && receipt.live.Some? &&
    (receipt.live.value == dataRoot.(parts := dataRoot.parts + [name]) ||
     (name == "" && dataRoot.parts == [] && receipt.live.value == dataRoot)) &&
    path == dataRoot.(parts := dataRoot.parts + [name + ".restore-" + receipt.operationId + ".json"]) &&
    forall i | 0 <= i < |receipt.operationId| :: receipt.operationId[i] as int != 47
  }

  lemma SplitsAtName(path: Path)
    requires path.parts != []
    ensures path == PathParent(path).(parts := PathParent(path).parts + [BaseName(path)])
  {
  }

  lemma JoinsAtName(folder: Path, name: Name)
    ensures var path := folder.(parts := folder.parts + [name]); PathParent(path) == folder && BaseName(path) == name
  {
  }

  lemma NoSlash(text: string)
    ensures '/' !in text <==> forall i | 0 <= i < |text| :: text[i] as int != 47
  {
  }

  lemma OwnReceiptIsBound(disk: Disk, path: Path, dataRoot: Path, receipt: Restore.Receipt, name: Name)
    requires receipt.Receipt? && IsOwnReceipt(path, dataRoot, receipt, name)
    ensures Restore.BoundToRoot(disk, path, dataRoot, receipt) && BaseName(receipt.live.value) == name
  {
    NoSlash(receipt.operationId);
    JoinsAtName(dataRoot, name);
    JoinsAtName(dataRoot, name + ".restore-" + receipt.operationId + ".json");
  }

  lemma BoundIsOwnReceipt(disk: Disk, path: Path, dataRoot: Path, receipt: Restore.Receipt)
    requires receipt.Receipt? && Restore.BoundToRoot(disk, path, dataRoot, receipt)
    ensures IsOwnReceipt(path, dataRoot, receipt, BaseName(receipt.live.value))
  {
    var live := receipt.live.value;
    NoSlash(receipt.operationId);
    assert BaseName(path) != "";
    SplitsAtName(path);
    if live.parts != [] { SplitsAtName(live); }
  }

  lemma ReceiptCompared(disk: Disk, path: Path, dataRoot: Path, receipt: Restore.Receipt)
    requires receipt.Receipt?
    ensures Restore.BoundToRoot(disk, path, dataRoot, receipt) <==>
      exists name: Name :: IsOwnReceipt(path, dataRoot, receipt, name)
  {
    if Restore.BoundToRoot(disk, path, dataRoot, receipt) {
      BoundIsOwnReceipt(disk, path, dataRoot, receipt);
    }
    if name: Name :| IsOwnReceipt(path, dataRoot, receipt, name) {
      OwnReceiptIsBound(disk, path, dataRoot, receipt, name);
    }
  }

  /** A log of the live database stands beside it. */
  predicate HasLog(disk: Disk, dataRoot: Path, name: Name) {
    Walk(disk, [], dataRoot.parts + [name + "-wal"], true, MAX_LINKS).Found? ||
    Walk(disk, [], dataRoot.parts + [name + "-shm"], true, MAX_LINKS).Found?
  }

  lemma LogsCompared(disk: Disk, path: Path, dataRoot: Path, receipt: Restore.Receipt, name: Name)
    requires receipt.Receipt? && IsOwnReceipt(path, dataRoot, receipt, name)
    ensures Restore.HasSidecar(disk, receipt.live.value) <==> HasLog(disk, dataRoot, name)
  {
    OwnReceiptIsBound(disk, path, dataRoot, receipt, name);
  }

  /** Stage by stage: which files must be in place, and which way the restore may then go. */
  function RestoreStatus(stage: Restore.Stage, selected: bool, before: bool, after: bool, rescued: bool, logged: bool)
    : Status
  {
    match stage
    case Finished | Reverted => NoAction
    case Planning | Validating => if selected && before && !logged then SafeResume else Review
    case EmergencyBackupCreated | RestoreStaged | Broken =>
      if selected && before && rescued && !logged then SafeResume else Review
    case RestoreApplied | Verification | RollbackAttempted =>
      if after && rescued && !logged then SafeRollback else Review
    case RollbackBroken | OtherStage => Review
  }

  /** The state each stage stands for, and whether the database was written and the restore is over. */
  predicate RestoreIsCounted(op: Operation, stage: Restore.Stage) {
    op.total == 1 &&
    match stage
    case Planning | Validating | EmergencyBackupCreated | RestoreStaged =>
      op.state == Applying && op.completed == 0 && op.pending == 1
    case RestoreApplied | Verification => op.state == Applying && op.completed == 1 && op.pending == 1
    case Broken => op.state == ApplyFailed && op.completed == 0 && op.pending == 1
    case RollbackAttempted => op.state == NormalState.RollingBack && op.completed == 1 && op.pending == 1
    case RollbackBroken => op.state == NormalState.RollbackFailed && op.completed == 1 && op.pending == 1
    case Finished => op.state == NormalState.Completed && op.completed == 1 && op.pending == 0
    case Reverted => op.state == NormalState.RolledBack && op.completed == 1 && op.pending == 0
    case OtherStage => op.state == NormalState.NeedsReview && op.completed == 0 && op.pending == 1
  }

  /** The selected backup, the live database before or after the restore, and the emergency backup, by their digests. */
  lemma RestoreVerdictIsExact(disk: Disk, path: Path, dataRoot: Path, receipt: Restore.Receipt, name: Name)
    requires receipt.Receipt? && receipt.knownSchema && IsOwnReceipt(path, dataRoot, receipt, name)
    ensures var op := Restore.InspectRestore(disk, Unlimited, path, dataRoot, receipt).0;
      op.Some? &&
      op.value.suggested == RestoreStatus(receipt.stage,
        Holds(disk, receipt.selected, None, receipt.selectedSha256),
        Holds(disk, receipt.live, Some(dataRoot), receipt.liveSha256),
        Holds(disk, receipt.live, Some(dataRoot), receipt.appliedSha256),
        Holds(disk, receipt.emergency, Some(dataRoot), receipt.emergencySha256),
        HasLog(disk, dataRoot, name)) &&
      (op.value.resumePossible <==> op.value.suggested == SafeResume) &&
      (op.value.rollbackPossible <==> op.value.suggested == SafeRollback) &&
      RestoreIsCounted(op.value, receipt.stage)
  {
    var seen := RestoreIsSeen(disk, path, dataRoot, receipt, name);
    LogsCompared(disk, path, dataRoot, receipt, name);
    RestoreProbesCompared(disk, dataRoot, receipt);
    VerdictOnSeen(disk, receipt, seen);
    EitherWay(receipt, seen.live.identityMatches == Some(true),
      Holds(disk, receipt.live, Some(dataRoot), receipt.liveSha256),
      Holds(disk, receipt.live, Some(dataRoot), receipt.appliedSha256));
  }

  /** The live database is compared with one digest only, which the stage picks. */
  lemma EitherWay(receipt: Restore.Receipt, live: bool, before: bool, after: bool)
    requires receipt.Receipt?
    requires !receipt.stage.Finished? && !receipt.stage.Reverted? ==>
      (Restore.LiveExpected(receipt) == receipt.liveSha256 ==> live == before) &&
      (Restore.LiveExpected(receipt) == receipt.appliedSha256 ==> live == after)
    ensures forall selected, rescued, logged ::
      RestoreStatus(receipt.stage, selected, live, live, rescued, logged) ==
      RestoreStatus(receipt.stage, selected, before, after, rescued, logged)
  {
  }

  lemma RestoreIsSeen(disk: Disk, path: Path, dataRoot: Path, receipt: Restore.Receipt, name: Name)
    returns (seen: Restore.Seen)
    requires receipt.Receipt? && receipt.knownSchema && IsOwnReceipt(path, dataRoot, receipt, name)
    ensures Restore.InspectRestore(disk, Unlimited, path, dataRoot, receipt).0 ==
      Some(Restore.Verdict(disk, receipt, seen))
    ensures !receipt.stage.Finished? && !receipt.stage.Reverted? ==>
      seen == Restore.Gather(disk, Unlimited, dataRoot, receipt)
  {
    OwnReceiptIsBound(disk, path, dataRoot, receipt, name);
    seen := if receipt.stage.Finished? || receipt.stage.Reverted? then Restore.NOTHING_SEEN
      else Restore.Gather(disk, Unlimited, dataRoot, receipt);
  }

  lemma VerdictOnSeen(disk: Disk, receipt: Restore.Receipt, seen: Restore.Seen)
    requires receipt.Receipt? && receipt.live.Some?
    ensures var op := Restore.Verdict(disk, receipt, seen);
      var live := seen.live.identityMatches == Some(true);
      op.suggested == RestoreStatus(receipt.stage, seen.selected.identityMatches == Some(true), live, live,
        Patch.Matches(seen.emergency), Restore.HasSidecar(disk, receipt.live.value)) &&
      (op.resumePossible <==> op.suggested == SafeResume) && (op.rollbackPossible <==> op.suggested == SafeRollback) &&
      RestoreIsCounted(op, receipt.stage)
  {
  }

  lemma RestoreProbesCompared(disk: Disk, dataRoot: Path, receipt: Restore.Receipt)
    requires receipt.Receipt?
    ensures var seen := Restore.Gather(disk, Unlimited, dataRoot, receipt);
      (seen.selected.identityMatches == Some(true) <==>
        Holds(disk, receipt.selected, None, receipt.selectedSha256)) &&
      (seen.live.identityMatches == Some(true) <==>
        Holds(disk, receipt.live, Some(dataRoot), Restore.LiveExpected(receipt))) &&
      (Patch.Matches(seen.emergency) <==> Holds(disk, receipt.emergency, Some(dataRoot), receipt.emergencySha256))
  {
    EvidenceIsExact(disk, receipt.selected, None, receipt.selectedSha256);
    EvidenceIsExact(disk, receipt.live, Some(dataRoot), Restore.LiveExpected(receipt));
    Patch.MatchesIsHolding(disk, receipt.emergency, Some(dataRoot), receipt.emergencySha256);
    HoldingCompared(disk, receipt.emergency, Some(dataRoot), receipt.emergencySha256);
  }

  /** Any other receipt is not to be touched, whatever the budget. */
  lemma ForeignReceiptIsRefused(disk: Disk, limits: Limits, path: Path, dataRoot: Path, receipt: Restore.Receipt)
    requires receipt.Receipt? && forall name: Name :: !IsOwnReceipt(path, dataRoot, receipt, name)
    ensures var op := Restore.InspectRestore(disk, limits, path, dataRoot, receipt).0;
      op.Some? && op.value.suggested == DoNotTouch && !op.value.resumePossible && !op.value.rollbackPossible
  {
    ReceiptCompared(disk, path, dataRoot, receipt);
  }

  // ----- gamelist publications

  /** The record lies beside the gamelist under its name and a suffix, or under its name alone; both below the root. */
  predicate IsOwnRecord(disk: Disk, path: Path, root: Path, record: EsDe.Record)
    requires record.Record?
  {
    var folder, name := ParentOf(path.parts), BaseName(path);
    record.gamelist.absolute && path.absolute && ".." !in record.gamelist.parts &&
    Absolute(disk, root) <= record.gamelist.parts && Absolute(disk, root) <= path.parts &&
    |record.gamelist.parts| == |folder| + 1 && record.gamelist.parts[..|folder|] == folder &&
    (name == record.gamelist.parts[|folder|] + ".es-de-publish-recovery.json" ||
     (name == record.gamelist.parts[|folder|] && !EndsWith(name, ".es-de-publish-recovery.json")))
  }

  lemma SuffixTaken(name: Name, bare: Name)
    ensures EsDe.WithoutSuffix(name) == bare <==>
      name == bare + ".es-de-publish-recovery.json" ||
      (name == bare && !EndsWith(name, ".es-de-publish-recovery.json"))
  {
    if EndsWith(name, EsDe.SUFFIX) {
      assert name == name[..|name| - |EsDe.SUFFIX|] + EsDe.SUFFIX;
    }
    var whole := bare + EsDe.SUFFIX;
    assert whole[|whole| - |EsDe.SUFFIX|..] == EsDe.SUFFIX && whole[..|whole| - |EsDe.SUFFIX|] == bare;
  }

  lemma RecordCompared(disk: Disk, path: Path, root: Path, record: EsDe.Record)
    requires record.Record?
    ensures EsDe.BoundToRoot(disk, path, root, record) <==> IsOwnRecord(disk, path, root, record)
  {
    var folder, name := ParentOf(path.parts), BaseName(path);
    var list := record.gamelist.parts;
    var bare := EsDe.WithoutSuffix(name);
    if list == folder + [bare] {
      SuffixTaken(name, bare);
    }
    if |list| == |folder| + 1 && list[..|folder|] == folder {
      SuffixTaken(name, list[|folder|]);
      assert list == folder + [list[|folder|]];
    }
  }

  lemma EsDeVerdictIsExact(disk: Disk, path: Path, root: Path, record: EsDe.Record)
    requires record.Record? && record.knownSchema && BaseName(path) !in {"", ".es-de-publish-recovery.json"}
    ensures var op := EsDe.InspectRecord(disk, Unlimited, path, root, record).0;
      var list := Some(record.gamelist);
      op.Some? &&
      op.value.suggested == (
        if !IsOwnRecord(disk, path, root, record) then DoNotTouch
        else if LooksLinked(disk, list, Some(root), record.previous) then DoNotTouch
        else if (if record.previous.None? then Vacant(disk, list, Some(root))
                 else Holds(disk, list, Some(root), record.previous)) then SafeRollback
        else Review) &&
      (op.value.rollbackPossible <==> op.value.suggested == SafeRollback) && !op.value.resumePossible &&
      op.value.state == (if op.value.suggested == DoNotTouch then NormalState.UnsafeToResume else Applying)
  {
    RecordCompared(disk, path, root, record);
    SuffixTaken(BaseName(path), "");
    EvidenceIsExact(disk, Some(record.gamelist), Some(root), record.previous);
  }

  // ----- cheat runs

  function Recorded(decoded: Option<Decoded>): Option<Path> {
    if decoded.Some? && decoded.value.Decodes? then Some(decoded.value.path) else None
  }

  /** The entry's paths can be read; if it was applied, its file is as installed and what it replaced is kept. */
  ghost predicate IsUndoable(disk: Disk, run: Cheat.CheatRun, entry: Cheat.CheatEntry) {
    entry.CheatEntry? && entry.destination != Some(Undecodable) && entry.backup != Some(Undecodable) &&
    (entry.applied ==>
      Holds(disk, Recorded(entry.destination), Recorded(run.root), entry.expected) &&
      (entry.replacedDifferent ==> Holds(disk, Recorded(entry.backup), None, entry.previous)))
  }

  /** A finished install run claims that it can be undone exactly when it can. */
  lemma CheatClaimIsExact(disk: Disk, run: Cheat.CheatRun)
    ensures Cheat.MayClaimRollback(run) && Cheat.CheatClear(disk, Unlimited, run, |run.entries|).0 <==>
      run.knownSchema && run.finished && !run.rollback && Recorded(run.root).Some? &&
      (exists i | 0 <= i < |run.entries| :: run.entries[i].CheatEntry? && run.entries[i].applied) &&
      forall i | 0 <= i < |run.entries| :: IsUndoable(disk, run, run.entries[i])
  {
    Cheat.ClearMeansUndoable(disk, Unlimited, run, |run.entries|);
    forall i | 0 <= i < |run.entries| && !run.rollback
      ensures Cheat.CanBeUndone(disk, run, run.entries[i]) <==> IsUndoable(disk, run, run.entries[i]) {
      var entry := run.entries[i];
      if entry.CheatEntry? {
        HoldingCompared(disk, Recorded(entry.destination), Recorded(run.root), entry.expected);
        HoldingCompared(disk, Recorded(entry.backup), None, entry.previous);
      }
    }
  }
}
