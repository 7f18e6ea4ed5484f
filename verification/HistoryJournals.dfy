/** The inspectors of final-result records: legacy shared journals, rollback receipts, cheat runs and library views. */
module HistoryJournals {
  import opened Common
  import opened FileSystem
  import opened Evidence
  import opened Operation

  const HISTORY := FRESH.(category := CompletedHistory, suggested := NoAction)
  const UNKNOWN := FRESH.(state := UnknownSchema)

  // ----- legacy shared journals and library views are history, or an unknown schema

  function LegacyVerdict(knownSchema: bool, status: Word, entries: nat): Operation {
    if knownSchema then HISTORY.(state := MapState(status), total := entries, completed := entries)
    else UNKNOWN.(total := entries, completed := entries)
  }

  function LibraryViewVerdict(knownSchema: bool, planned: nat): Operation {
    if knownSchema then HISTORY.(state := Completed, total := planned, completed := planned)
    else UNKNOWN.(total := planned)
  }

  // ----- rollback receipts

  datatype ReceiptEntry = MalformedEntry | ReceiptEntry(decoded: bool, successful: bool)

  predicate FullySuccessful(entry: ReceiptEntry) {
    entry.ReceiptEntry? && entry.decoded && entry.successful
  }

  method InspectReceipt(knownSchema: bool, entries: seq<ReceiptEntry>) returns (operation: Operation)
    ensures operation.category == CompletedHistory <==>
      knownSchema && forall i | 0 <= i < |entries| :: entries[i] == ReceiptEntry(true, true)
    ensures operation.category == ReceiptCategory(knownSchema, entries)
    ensures operation.total == |entries| && operation.completed == |entries| && operation.pending == 0
    ensures operation.category == CompletedHistory ||
      (operation.category == ReviewRequired && operation.suggested == DoNotTouch)
    ensures Lockstep(operation)
  {
    operation := HISTORY.(state := RolledBack, total := |entries|, completed := |entries|);
    if !knownSchema {
      return UNKNOWN.(total := |entries|, completed := |entries|);
    }
    for i := 0 to |entries|
      invariant operation.category == CompletedHistory <==> forall j | 0 <= j < i :: FullySuccessful(entries[j])
      invariant operation.category == CompletedHistory <==> operation.suggested == NoAction
      invariant operation.total == |entries| && operation.completed == |entries| && operation.pending == 0
      invariant operation.category == CompletedHistory ||
        (operation.category == ReviewRequired && operation.suggested == DoNotTouch)
    {
      var entry := entries[i];
      if entry.MalformedEntry? {
        operation := operation.(state := Unreadable, category := ReviewRequired, suggested := DoNotTouch);
        continue;
      }
      if !entry.decoded || !entry.successful {
        operation := operation.(state := NeedsReview, category := ReviewRequired, suggested := DoNotTouch);
      }
    }
  }

  function ReceiptCategory(knownSchema: bool, entries: seq<ReceiptEntry>): Category {
    if knownSchema && forall i | 0 <= i < |entries| :: FullySuccessful(entries[i]) then CompletedHistory
    else ReviewRequired
  }

  // ----- cheat install and cheat rollback runs

  datatype CheatEntry =
    | MalformedCheat
    | CheatEntry(
        destination: Option<Decoded>, expected: Option<string>,
        backup: Option<Decoded>, previous: Option<string>,
        applied: bool, replacedDifferent: bool, counted: bool)

  datatype CheatRun = CheatRun(
    knownSchema: bool, rollback: bool, finished: bool, state: Word, root: Option<Decoded>, entries: seq<CheatEntry>)

  function RootPath(run: CheatRun): Option<Path> {
    if run.root.Some? then PathOf(run.root.value) else None
  }

  function CheatPath(decoded: Option<Decoded>): Option<Path> {
    if decoded.Some? then PathOf(decoded.value) else None
  }

  /** The entry keeps a finished install run from claiming that it could be undone. */
  predicate Blocks(run: CheatRun, entry: CheatEntry, destination: Option<Evidence>, backup: Option<Evidence>)
    requires entry.CheatEntry?
  {
    entry.destination == Some(Undecodable) || entry.backup == Some(Undecodable) ||
    (!run.rollback && entry.applied &&
      (destination.None? || destination.value.identityMatches != Some(true) ||
       (entry.replacedDifferent && (backup.None? || backup.value.identityMatches != Some(true)))))
  }

  predicate AnyApplied(entries: seq<CheatEntry>) {
    exists i | 0 <= i < |entries| :: entries[i].CheatEntry? && entries[i].applied
  }

  datatype CheatProbes = CheatProbes(destination: Option<Evidence>, backup: Option<Evidence>, limits: Limits)

  function ProbeCheat(disk: Disk, limits: Limits, run: CheatRun, entry: CheatEntry): CheatProbes
    requires entry.CheatEntry?
  {
    var destination, backup := CheatPath(entry.destination), CheatPath(entry.backup);
    var (d, ld) := InspectOptional(disk, limits, destination, RootPath(run), entry.expected, destination.Some?);
    var (b, lb) := InspectOptional(disk, ld, backup, None, entry.previous, backup.Some?);
    CheatProbes(d, b, lb)
  }

  /** Whether none of the first `n` entries blocks, and the budget left after them. */
  function CheatClear(disk: Disk, limits: Limits, run: CheatRun, n: nat): (bool, Limits)
    requires n <= |run.entries|
  {
    if n == 0 then (true, limits)
    else
      var (clear, left) := CheatClear(disk, limits, run, n - 1);
      var entry := run.entries[n - 1];
      if entry.MalformedCheat? then (false, left)
      else
        var p := ProbeCheat(disk, left, run, entry);
        (clear && !Blocks(run, entry, p.destination, p.backup), p.limits)
  }

  predicate MayClaimRollback(run: CheatRun) {
    run.knownSchema && run.finished && !run.rollback && run.root.Some? && run.root.value.Decodes? &&
    AnyApplied(run.entries)
  }

  /** The entries that were applied, wrote something or had nothing to do. */
  function CountedIn(entries: seq<CheatEntry>): set<nat> {
    set i: nat | i < |entries| && entries[i].CheatEntry? && entries[i].counted
  }

  lemma OneMoreCounted(entries: seq<CheatEntry>, i: nat)
    requires i < |entries|
    ensures |CountedIn(entries[..i + 1])| ==
      |CountedIn(entries[..i])| + if entries[i].CheatEntry? && entries[i].counted then 1 else 0
  {
    assert forall j | 0 <= j < i :: entries[..i + 1][j] == entries[..i][j];
    assert CountedIn(entries[..i + 1]) ==
      CountedIn(entries[..i]) + if entries[i].CheatEntry? && entries[i].counted then {i} else {};
  }

  method CountEntries(entries: seq<CheatEntry>) returns (counted: nat)
    ensures counted == |CountedIn(entries)|
  {
    counted := 0;
    for i := 0 to |entries|
      invariant counted == |CountedIn(entries[..i])|
    {
      OneMoreCounted(entries, i);
      if entries[i].CheatEntry? && entries[i].counted { counted := counted + 1; }
    }
    assert entries[..|entries|] == entries;
  }

  method InspectCheat(disk: Disk, run: CheatRun, budget: HashBudget) returns (operation: Operation)
    requires budget.Valid()
    modifies budget
    ensures budget.Valid() && old(budget.hashed) <= budget.hashed
    ensures Lockstep(operation) && !IsSafe(operation.suggested)
    ensures operation.category == CompletedHistory <==> run.knownSchema && run.finished
    ensures operation.total == |run.entries|
    ensures run.knownSchema ==>
      operation.completed == |CountedIn(run.entries)| && operation.pending == operation.total - operation.completed
    ensures operation.state ==
      if !run.knownSchema then UnknownSchema
      else if run.finished then MapState(run.state)
      else if run.rollback then RollingBack else Applying
    ensures operation.rollbackPossible <==>
      MayClaimRollback(run) && CheatClear(disk, old(budget.Left()), run, |run.entries|).0
    ensures budget.Left() ==
      if run.knownSchema then CheatClear(disk, old(budget.Left()), run, |run.entries|).1 else old(budget.Left())
  {
    operation := FRESH.(state := MapState(run.state), total := |run.entries|);
    if !run.knownSchema {
      return operation.(state := UnknownSchema);
    }
    var counted := CountEntries(run.entries);
    operation := operation.(completed := counted, pending := |run.entries| - counted);
    if !run.finished {
      operation := operation.(state := if run.rollback then RollingBack else Applying, suggested := Review);
    } else {
      operation := operation.(category := CompletedHistory, suggested := NoAction);
    }
    var mayClaim := run.finished && run.root.Some? && run.root.value.Decodes?;
    var safeRollback := mayClaim;
    for i := 0 to |run.entries|
      invariant budget.Valid() && old(budget.hashed) <= budget.hashed
      invariant safeRollback == (mayClaim && CheatClear(disk, old(budget.Left()), run, i).0)
      invariant budget.Left() == CheatClear(disk, old(budget.Left()), run, i).1
    {
      var blocks := CheatEntryBlocks(disk, run, run.entries[i], budget);
      if blocks { safeRollback := false; }
    }
    operation := operation.(rollbackPossible := safeRollback && !run.rollback && AnyApplied(run.entries));
  }

  /** One pass of the entry loop. */
  method CheatEntryBlocks(disk: Disk, run: CheatRun, entry: CheatEntry, budget: HashBudget) returns (blocks: bool)
    requires budget.Valid()
    modifies budget
    ensures budget.Valid() && old(budget.hashed) <= budget.hashed
    ensures if entry.MalformedCheat? then blocks && budget.Left() == old(budget.Left())
      else var p := ProbeCheat(disk, old(budget.Left()), run, entry);
        blocks == Blocks(run, entry, p.destination, p.backup) && budget.Left() == p.limits
  {
    if entry.MalformedCheat? {
      return true;
    }
    var destinationPath := CheatPath(entry.destination);
    var destination := InspectWanted(disk, destinationPath, budget, RootPath(run), entry.expected,
      destinationPath.Some?);
    var backupPath := CheatPath(entry.backup);
    var backup := InspectWanted(disk, backupPath, budget, None, entry.previous, backupPath.Some?);
    blocks := entry.destination == Some(Undecodable) || entry.backup == Some(Undecodable);
    if !run.rollback && entry.applied {
      if destination.None? || destination.value.identityMatches != Some(true) { blocks := true; }
      if entry.replacedDifferent && (backup.None? || backup.value.identityMatches != Some(true)) { blocks := true; }
    }
  }

  // ----- what a claim of possible rollback means for the disk

  /** An applied entry's file is as installed, and the different file it replaced is kept as its backup. */
  ghost predicate CanBeUndone(disk: Disk, run: CheatRun, entry: CheatEntry) {
    entry.CheatEntry? && entry.destination != Some(Undecodable) && entry.backup != Some(Undecodable) &&
    (!run.rollback && entry.applied ==>
      ReadablyHolds(disk, CheatPath(entry.destination), RootPath(run), entry.expected) &&
      (entry.replacedDifferent ==> ReadablyHolds(disk, CheatPath(entry.backup), None, entry.previous)))
  }

  lemma MatchIsHolding(disk: Disk, limits: Limits, path: Option<Path>, root: Option<Path>, digest: Option<string>)
    ensures var e := InspectOptional(disk, limits, path, root, digest, path.Some?).0;
      (e.Some? && e.value.identityMatches == Some(true) ==> ReadablyHolds(disk, path, root, digest)) &&
      (limits.Unlimited? && ReadablyHolds(disk, path, root, digest) ==>
        e.Some? && e.value.identityMatches == Some(true))
  {
    if path.Some? {
      IdentityIsExact(disk, path.value, root, digest);
      BudgetOnlyHides(disk, limits, path, root, digest);
    }
  }

  lemma CheatEntryHolds(disk: Disk, limits: Limits, run: CheatRun, entry: CheatEntry)
    requires entry.CheatEntry?
    ensures var p := ProbeCheat(disk, limits, run, entry);
      (!Blocks(run, entry, p.destination, p.backup) ==> CanBeUndone(disk, run, entry)) &&
      (limits.Unlimited? ==>
        p.limits.Unlimited? && (CanBeUndone(disk, run, entry) ==> !Blocks(run, entry, p.destination, p.backup)))
  {
    var destination, backup := CheatPath(entry.destination), CheatPath(entry.backup);
    var ld := InspectOptional(disk, limits, destination, RootPath(run), entry.expected, destination.Some?).1;
    MatchIsHolding(disk, limits, destination, RootPath(run), entry.expected);
    MatchIsHolding(disk, ld, backup, None, entry.previous);
  }

  /** Nothing blocks only if every entry can be undone; without a budget, exactly then. */
  lemma {:induction false} ClearMeansUndoable(disk: Disk, limits: Limits, run: CheatRun, n: nat)
    requires n <= |run.entries|
    ensures CheatClear(disk, limits, run, n).0 ==> forall i | 0 <= i < n :: CanBeUndone(disk, run, run.entries[i])
    ensures limits.Unlimited? ==> CheatClear(disk, limits, run, n).1.Unlimited?
    ensures limits.Unlimited? ==>
      (CheatClear(disk, limits, run, n).0 <==> forall i | 0 <= i < n :: CanBeUndone(disk, run, run.entries[i]))
  {
    if n > 0 {
      ClearMeansUndoable(disk, limits, run, n - 1);
      var left, entry := CheatClear(disk, limits, run, n - 1).1, run.entries[n - 1];
      if entry.CheatEntry? { CheatEntryHolds(disk, left, run, entry); }
    }
  }
}
