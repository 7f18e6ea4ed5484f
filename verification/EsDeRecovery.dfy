/** Inspection of ES-DE gamelist publication records (inspect_es_de_recovery). */
module EsDeRecovery {
  import opened Common
  import opened FileSystem
  import opened Evidence
  import Operation

  const SUFFIX := ".es-de-publish-recovery.json"

  /** `previous` is the digest of the recorded prior content, None when there was no file. */
  datatype Record = Malformed | Record(knownSchema: bool, gamelist: Path, previous: Option<string>)

  function WithoutSuffix(name: Name): Name {
    if EndsWith(name, SUFFIX) then name[..|name| - |SUFFIX|] else name
  }

  predicate BoundToRoot(disk: Disk, path: Path, root: Path, record: Record)
    requires record.Record?
  {
    record.gamelist.absolute && record.gamelist == WithName(path, WithoutSuffix(BaseName(path))) &&
    IsWithin(disk, record.gamelist, root) && IsWithin(disk, path, root) && !HasParentStep(record.gamelist)
  }

  function Verdict(record: Record, current: Evidence): Operation.Operation
    requires record.Record?
  {
    var op := Operation.FRESH.(state := Operation.Applying, total := 1, pending := 1);
    if current.problem.Some? && MentionsSymlink(current.problem.value) then op.(state := Operation.UnsafeToResume)
    else if (record.previous.None? && !current.exists_ && current.safePath) ||
            (record.previous.Some? && current.identityMatches == Some(true)) then
      op.(category := Operation.Recoverable, rollbackPossible := true, suggested := Operation.SafeRollback)
    else op.(suggested := Operation.Review)
  }

  function InspectRecord(disk: Disk, limits: Limits, path: Path, root: Path, record: Record)
    : (Option<Operation.Operation>, Limits)
  {
    var op := Operation.FRESH.(total := 1, pending := 1);
    match record
    case Malformed => (None, limits)
    case Record(knownSchema, gamelist, previous) =>
      if !knownSchema then (Some(op.(state := Operation.UnknownSchema)), limits)
      else if WithoutSuffix(BaseName(path)) == "" then (None, limits)
      else if !BoundToRoot(disk, path, root, record) then (Some(op.(state := Operation.UnsafeToResume)), limits)
      else
        var p := Inspect(disk, limits, Some(gamelist), Some(root), previous);
        (Some(Verdict(record, p.evidence)), p.limits)
  }

  method InspectEsDeRecovery(disk: Disk, path: Path, root: Path, record: Record, budget: HashBudget)
    returns (operation: Option<Operation.Operation>)
    requires budget.Valid()
    modifies budget
    ensures budget.Valid() && old(budget.hashed) <= budget.hashed
    ensures (operation, budget.Left()) == InspectRecord(disk, old(budget.Left()), path, root, record)
  {
    if record.Malformed? {
      return None;
    }
    var op := Operation.FRESH.(state := Operation.Applying, total := 1, pending := 1);
    if !record.knownSchema {
      return Some(op.(state := Operation.UnknownSchema));
    }
    if WithoutSuffix(BaseName(path)) == "" {
      return None;
    }
    if !BoundToRoot(disk, path, root, record) {
      return Some(op.(state := Operation.UnsafeToResume));
    }
    var current := InspectPath(disk, Some(record.gamelist), budget, Some(root), record.previous);
    if current.problem.Some? && MentionsSymlink(current.problem.value) {
      op := op.(state := Operation.UnsafeToResume);
    } else if (record.previous.None? && !current.exists_ && current.safePath) ||
      (record.previous.Some? && current.identityMatches == Some(true)) {
      op := op.(category := Operation.Recoverable, rollbackPossible := true, suggested := Operation.SafeRollback);
    } else {
      op := op.(suggested := Operation.Review);
    }
    operation := Some(op);
  }

  /** Nothing at the path, and no link or unreadable component on the way. */
  ghost predicate VacantSafely(disk: Disk, path: Path) {
    Lstat(disk, path).Missing? && LinkProblem(disk, path, false).None?
  }

  /** A record is a rollback candidate exactly when the gamelist already is in the recorded prior state. */
  lemma SafeVerdictIsExact(disk: Disk, path: Path, root: Path, record: Record)
    requires record.Record? && record.knownSchema && WithoutSuffix(BaseName(path)) != "" &&
      BoundToRoot(disk, path, root, record)
    ensures InspectRecord(disk, Unlimited, path, root, record).0.value.suggested == Operation.SafeRollback <==>
      if record.previous.None? then VacantSafely(disk, record.gamelist)
      else ReadablyHolds(disk, Some(record.gamelist), Some(root), record.previous)
  {
    IdentityIsExact(disk, record.gamelist, Some(root), record.previous);
  }
}
