/** The normalised record every journal inspector produces, and the agreement its fields must keep. */
module Operation {
  import opened Common
  import opened FileSystem

  datatype NormalState =
    | Completed | RolledBack | Applying | ApplyFailed | RollingBack
    | RollbackFailed | NeedsReview | UnsafeToResume | UnknownSchema | Unreadable

  datatype Category = Pending | Recoverable | ReviewRequired | CompletedHistory

  datatype Status = NoAction | SafeRollback | SafeResume | Review | DoNotTouch

  datatype Operation = Operation(
    state: NormalState,
    category: Category,
    suggested: Status,
    rollbackPossible: bool,
    resumePossible: bool,
    total: nat,
    completed: int,
    pending: int)

  /** new_operation: nothing is proven until an inspector proves it. */
  const FRESH := Operation(NeedsReview, ReviewRequired, DoNotTouch, false, false, 0, 0, 0)

  predicate IsSafe(status: Status) {
    status == SafeRollback || status == SafeResume
  }

  /** Category, suggested status and possible-flags of one operation tell the same story. */
  predicate Lockstep(op: Operation) {
    && op.category != Pending
    && (op.category == CompletedHistory <==> op.suggested == NoAction)
    && (op.category == Recoverable <==> IsSafe(op.suggested))
    && (op.suggested == SafeRollback ==> op.rollbackPossible)
    && (op.suggested == SafeResume ==> op.resumePossible)
  }

  /** The words journals use for transaction and entry states; `UNLISTED` is any other text. */
  datatype Word =
    | PLANNED | APPLYING | BACKUP_CREATED | DESTINATION_TEMP_WRITTEN | DESTINATION_REPLACED
    | DESTINATION_VERIFIED | APPLIED | SUCCESS | LEGACY_COMPLETE | APPLY_FAILED | PARTIAL_FAILURE
    | FAILED | ROLLING_BACK | ROLLED_BACK | ROLLBACK_FAILED | NEEDS_REVIEW | UNSAFE_TO_RESUME
    | UNLISTED(mapped: NormalState)

  /** map_state: an unlisted spelling keeps whatever normal state its folded text maps to. */
  function MapState(original: Word): NormalState {
    match original
    case APPLIED | SUCCESS | LEGACY_COMPLETE => Completed
    case ROLLED_BACK => RolledBack
    case APPLYING | PLANNED => Applying
    case APPLY_FAILED | PARTIAL_FAILURE | FAILED => ApplyFailed
    case ROLLING_BACK => RollingBack
    case ROLLBACK_FAILED => RollbackFailed
    case UNSAFE_TO_RESUME => UnsafeToResume
    case UNLISTED(mapped) => mapped
    case _ => NeedsReview
  }

  /** A recorded path either decodes losslessly or cannot be used. */
  datatype Decoded = Decodes(path: Path) | Undecodable

  function PathOf(decoded: Decoded): Option<Path> {
    if decoded.Decodes? then Some(decoded.path) else None
  }
}
