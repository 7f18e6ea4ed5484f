/** Inspection of database-restore receipts (inspect_database_restore). */
module DatabaseRestore {
  import opened Common
  import opened FileSystem
  import opened Evidence
  import Operation
  import opened PatchOutput

  datatype Stage =
    | Planning | Validating | EmergencyBackupCreated | RestoreStaged | RestoreApplied | Verification
    | Finished | Broken | RollbackAttempted | Reverted | RollbackBroken | OtherStage

  datatype Receipt =
    | Malformed
    | Receipt(
        knownSchema: bool, operationId: string, stage: Stage,
        live: Option<Path>, liveSha256: Option<string>, appliedSha256: Option<string>,
        selected: Option<Path>, selectedSha256: Option<string>,
        emergency: Option<Path>, emergencySha256: Option<string>)

  function Normalized(stage: Stage): Operation.NormalState {
    match stage
    case Finished => Operation.Completed
    case Broken => Operation.ApplyFailed
    case RollbackAttempted => Operation.RollingBack
    case Reverted => Operation.RolledBack
    case RollbackBroken => Operation.RollbackFailed
    case OtherStage => Operation.NeedsReview
    case _ => Operation.Applying
  }

  /** The receipt's own name binds it to the live database, directly below the data root. */
  predicate BoundToRoot(disk: Disk, path: Path, dataRoot: Path, receipt: Receipt)
    requires receipt.Receipt?
  {
    receipt.live.Some? &&
    var live := receipt.live.value;
    live.absolute && IsWithin(disk, live, dataRoot) && PathParent(live) == dataRoot && PathParent(path) == dataRoot &&
    BaseName(path) == BaseName(live) + ".restore-" + receipt.operationId + ".json" && '/' !in receipt.operationId
  }

  predicate IsDone(stage: Stage) { stage == Finished || stage == Reverted }

  predicate BeforeApply(stage: Stage) {
    stage == Planning || stage == Validating || stage == EmergencyBackupCreated || stage == RestoreStaged ||
    stage == Broken
  }

  predicate AfterApply(stage: Stage) {
    stage == RestoreApplied || stage == Verification || stage == RollbackAttempted
  }

  predicate WasPublished(stage: Stage) {
    AfterApply(stage) || stage == Finished || stage == Reverted || stage == RollbackBroken
  }

  predicate NeedsEmergency(stage: Stage) { stage != Planning && stage != Validating }

  function LiveExpected(receipt: Receipt): Option<string>
    requires receipt.Receipt?
  {
    if AfterApply(receipt.stage) || receipt.stage == RollbackBroken then receipt.appliedSha256 else receipt.liveSha256
  }

  /** A write-ahead log or shared-memory file stands beside the live database. */
  predicate HasSidecar(disk: Disk, live: Path) {
    Stat(disk, WithName(live, BaseName(live) + "-wal")).Found? ||
    Stat(disk, WithName(live, BaseName(live) + "-shm")).Found?
  }

  datatype Seen = Seen(selected: Evidence, live: Evidence, emergency: Option<Evidence>, limits: Limits)

  function Gather(disk: Disk, limits: Limits, dataRoot: Path, receipt: Receipt): Seen
    requires receipt.Receipt?
  {
    var s := Inspect(disk, limits, receipt.selected, None, receipt.selectedSha256);
    var l := Inspect(disk, s.limits, receipt.live, Some(dataRoot), LiveExpected(receipt));
    var (e, left) := InspectOptional(disk, l.limits, receipt.emergency, Some(dataRoot), receipt.emergencySha256,
      receipt.emergency.Some?);
    Seen(s.evidence, l.evidence, e, left)
  }

  function Verdict(disk: Disk, receipt: Receipt, seen: Seen): Operation.Operation
    requires receipt.Receipt? && receipt.live.Some?
  {
    var op := Operation.FRESH.(state := Normalized(receipt.stage), total := 1,
      completed := if WasPublished(receipt.stage) then 1 else 0, pending := if IsDone(receipt.stage) then 0 else 1);
    var selectedValid := seen.selected.identityMatches == Some(true);
    var liveValid := seen.live.identityMatches == Some(true);
    var emergencyValid := NeedsEmergency(receipt.stage) ==> Matches(seen.emergency);
    var quiet := !HasSidecar(disk, receipt.live.value);
    if IsDone(receipt.stage) then op.(category := Operation.CompletedHistory, suggested := Operation.NoAction)
    else if BeforeApply(receipt.stage) && selectedValid && liveValid && emergencyValid && quiet then
      op.(category := Operation.Recoverable, resumePossible := true, suggested := Operation.SafeResume)
    else if AfterApply(receipt.stage) && liveValid && emergencyValid && quiet then
      op.(category := Operation.Recoverable, rollbackPossible := true, suggested := Operation.SafeRollback)
    else op.(suggested := Operation.Review)
  }

  const NOTHING_SEEN := Seen(BLANK, BLANK, None, Unlimited)

  function InspectRestore(disk: Disk, limits: Limits, path: Path, dataRoot: Path, receipt: Receipt)
    : (Option<Operation.Operation>, Limits)
  {
    if receipt.Malformed? then (None, limits)
    else if !receipt.knownSchema then (Some(Operation.FRESH.(state := Operation.UnknownSchema, total := 1)), limits)
    else if !BoundToRoot(disk, path, dataRoot, receipt) then
      (Some(Operation.FRESH.(state := Operation.UnsafeToResume, total := 1)), limits)
    else if IsDone(receipt.stage) then (Some(Verdict(disk, receipt, NOTHING_SEEN)), limits)
    else
      var seen := Gather(disk, limits, dataRoot, receipt);
      (Some(Verdict(disk, receipt, seen)), seen.limits)
  }

  method InspectDatabaseRestore(disk: Disk, path: Path, dataRoot: Path, receipt: Receipt, budget: HashBudget)
    returns (operation: Option<Operation.Operation>)
    requires budget.Valid()
    modifies budget
    ensures budget.Valid() && old(budget.hashed) <= budget.hashed
    ensures (operation, budget.Left()) == InspectRestore(disk, old(budget.Left()), path, dataRoot, receipt)
  {
    if receipt.Malformed? {
      return None;
    }
    var op := Operation.FRESH.(total := 1);
    if !receipt.knownSchema {
      return Some(op.(state := Operation.UnknownSchema));
    }
    op := op.(state := Normalized(receipt.stage));
    if !BoundToRoot(disk, path, dataRoot, receipt) {
      return Some(op.(state := Operation.UnsafeToResume));
    }
    op := op.(completed := if WasPublished(receipt.stage) then 1 else 0);
    op := op.(pending := if IsDone(receipt.stage) then 0 else 1);
    if IsDone(receipt.stage) {
      return Some(op.(category := Operation.CompletedHistory, suggested := Operation.NoAction));
    }
    var selected := InspectPath(disk, receipt.selected, budget, None, receipt.selectedSha256);
    var live := InspectPath(disk, receipt.live, budget, Some(dataRoot), LiveExpected(receipt));
    var emergency := InspectWanted(disk, receipt.emergency, budget, Some(dataRoot), receipt.emergencySha256,
      receipt.emergency.Some?);
    var present := HasSidecar(disk, receipt.live.value);
    var selectedValid := selected.identityMatches == Some(true);
    var liveValid := live.identityMatches == Some(true);
    var emergencyValid := !NeedsEmergency(receipt.stage) || Matches(emergency);
    if BeforeApply(receipt.stage) && selectedValid && liveValid && emergencyValid && !present {
      op := op.(category := Operation.Recoverable, resumePossible := true, suggested := Operation.SafeResume);
    } else if AfterApply(receipt.stage) && liveValid && emergencyValid && !present {
      op := op.(category := Operation.Recoverable, rollbackPossible := true, suggested := Operation.SafeRollback);
    } else {
      op := op.(suggested := Operation.Review);
    }
    operation := Some(op);
  }

  /** Exactly when a restore may be resumed, and exactly when it may be rolled back. */
  lemma SafeVerdictsAreExact(disk: Disk, path: Path, dataRoot: Path, receipt: Receipt)
    requires receipt.Receipt? && receipt.knownSchema && BoundToRoot(disk, path, dataRoot, receipt)
    ensures var op := InspectRestore(disk, Unlimited, path, dataRoot, receipt).0.value;
      var liveHolds := ReadablyHolds(disk, receipt.live, Some(dataRoot), LiveExpected(receipt));
      var emergencyHolds := NeedsEmergency(receipt.stage) ==>
        ReadablyHolds(disk, receipt.emergency, Some(dataRoot), receipt.emergencySha256);
      var quiet := !HasSidecar(disk, receipt.live.value);
      (op.suggested == Operation.SafeResume <==>
        BeforeApply(receipt.stage) && ReadablyHolds(disk, receipt.selected, None, receipt.selectedSha256) &&
        liveHolds && emergencyHolds && quiet) &&
      (op.suggested == Operation.SafeRollback <==> AfterApply(receipt.stage) && liveHolds && emergencyHolds && quiet)
  {
    if receipt.selected.Some? { IdentityIsExact(disk, receipt.selected.value, None, receipt.selectedSha256); }
    IdentityIsExact(disk, receipt.live.value, Some(dataRoot), LiveExpected(receipt));
    BudgetStaysUnlimited(disk, receipt.selected, None, receipt.selectedSha256);
    BudgetStaysUnlimited(disk, receipt.live, Some(dataRoot), LiveExpected(receipt));
    MatchesIsHolding(disk, receipt.emergency, Some(dataRoot), receipt.emergencySha256);
  }

  lemma BudgetStaysUnlimited(disk: Disk, path: Option<Path>, root: Option<Path>, digest: Option<string>)
    ensures Inspect(disk, Unlimited, path, root, digest).limits == Unlimited
  {
  }
}
