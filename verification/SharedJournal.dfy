/** Inspection of durable shared-transaction journals (inspect_shared_durable). */
module SharedJournal {
  import opened Common
  import opened FileSystem
  import opened Evidence
  import opened Operation

  datatype Plan = Plan(
    destinationRoot: Decoded,
    destinationRelative: Decoded,
    sourcePath: Decoded,
    sourceDigest: Option<string>,
    preDigest: Option<string>,
    backupRequired: bool)

  datatype Entry =
    | Malformed
    | Entry(
        plan: Option<Plan>,
        state: Word,
        existed: Option<bool>,
        backupPath: Option<Decoded>,
        backupDigest: Option<string>,
        temporaryPath: Option<Decoded>)

  datatype Journal = Journal(
    knownSchema: bool,
    state: Word,
    approvedSourceRoot: Decoded,
    backupRoot: Decoded,
    entries: seq<Entry>)

  // ----- where an entry writes

  datatype Target = Target(path: Option<Path>, root: Option<Path>, failed: bool)

  /** shared_destination. */
  function TargetOf(disk: Disk, entry: Entry): Target
    requires entry.Entry?
  {
    if entry.plan.None? then Target(None, None, true)
    else
      var root, relative := entry.plan.value.destinationRoot, entry.plan.value.destinationRelative;
      if root.Undecodable? || relative.Undecodable? then Target(None, PathOf(root), true)
      else if relative.path.absolute || HasParentStep(relative.path) then Target(None, Some(root.path), true)
      else
        var destination := Join(root.path, relative.path);
        if !IsWithin(disk, destination, root.path) then Target(None, Some(root.path), true)
        else Target(Some(destination), Some(root.path), false)
  }

  function NewDigest(entry: Entry): Option<string>
    requires entry.Entry?
  {
    if entry.plan.Some? then entry.plan.value.sourceDigest else None
  }

  function PreDigest(entry: Entry): Option<string>
    requires entry.Entry?
  {
    if entry.plan.Some? then entry.plan.value.preDigest else None
  }

  function BackupExpected(entry: Entry): Option<string>
    requires entry.Entry?
  {
    if entry.backupDigest.Some? then entry.backupDigest else PreDigest(entry)
  }

  predicate BackupNeeded(entry: Entry)
    requires entry.Entry?
  {
    entry.existed == Some(true) || (entry.plan.Some? && entry.plan.value.backupRequired)
  }

  // ----- gathering evidence for one entry

  datatype Probes = Probes(
    destination: Evidence, backup: Option<Evidence>, temporary: Option<Evidence>, rolledBack: Option<Evidence>)

  datatype Gathered = Gathered(probes: Probes, limits: Limits)

  function OptionalPath(decoded: Option<Decoded>): Option<Path> {
    if decoded.Some? then PathOf(decoded.value) else None
  }

  /** Only a rolled-back entry that pre-existed is hashed again, against the old digest. */
  predicate RehashesOld(entry: Entry)
    requires entry.Entry?
  {
    entry.state == ROLLED_BACK && entry.existed != Some(false) && IsRecorded(PreDigest(entry))
  }

  function Gather(disk: Disk, limits: Limits, journal: Journal, entry: Entry): Gathered
    requires entry.Entry?
  {
    var target := TargetOf(disk, entry);
    var d := Inspect(disk, limits, target.path, target.root, NewDigest(entry));
    var backup := OptionalPath(entry.backupPath);
    var (b, lb) := InspectOptional(disk, d.limits, backup, PathOf(journal.backupRoot), BackupExpected(entry),
      backup.Some?);
    var temporary := OptionalPath(entry.temporaryPath);
    var (t, lt) := InspectOptional(disk, lb, temporary, target.root, None, temporary.Some?);
    var (r, lr) := InspectOptional(disk, lt, target.path, target.root, PreDigest(entry), RehashesOld(entry));
    Gathered(Probes(d.evidence, b, t, r), lr)
  }

  // ----- judging one entry

  /** What an entry's checkpoint is reconciled to; `Silent` when the code draws no conclusion at all. */
  datatype Mark =
    | Silent | Unreconciled
    | AppliedMark | AppliedAfterGap | NotApplied | RolledBackAfterGap | StillApplied | RolledBackMark

  datatype Finding = Finding(mark: Mark, unsafe: bool, ambiguous: bool, unproven: bool)

  predicate CountsCompleted(mark: Mark) {
    mark.AppliedMark? || mark.AppliedAfterGap? || mark.RolledBackAfterGap? || mark.StillApplied? || mark.RolledBackMark?
  }

  predicate Mutated(state: Word) {
    state == DESTINATION_REPLACED || state == DESTINATION_VERIFIED || state == APPLIED
  }

  predicate NotYetMutated(state: Word) {
    state == PLANNED || state == APPLYING || state == BACKUP_CREATED || state == DESTINATION_TEMP_WRITTEN
  }

  predicate NewMatches(probes: Probes) {
    probes.destination.identityMatches == Some(true)
  }

  predicate OldMatches(entry: Entry, probes: Probes)
    requires entry.Entry?
  {
    entry.existed == Some(true) && IsRecorded(PreDigest(entry)) &&
    probes.destination.observedSha256.Some? && SameHex(probes.destination.observedSha256.value, PreDigest(entry).value)
  }

  predicate AbsentMatches(entry: Entry, probes: Probes)
    requires entry.Entry?
  {
    entry.existed == Some(false) && !probes.destination.exists_ && probes.destination.safePath
  }

  predicate PreStateMatches(entry: Entry, probes: Probes)
    requires entry.Entry?
  {
    OldMatches(entry, probes) || AbsentMatches(entry, probes)
  }

  predicate BackupMatches(probes: Probes) {
    probes.backup.Some? && probes.backup.value.identityMatches == Some(true)
  }

  function MarkOf(entry: Entry, probes: Probes): Mark
    requires entry.Entry?
  {
    if Mutated(entry.state) then
      if NewMatches(probes) then AppliedMark else Unreconciled
    else if NotYetMutated(entry.state) then
      if NewMatches(probes) then AppliedAfterGap else if PreStateMatches(entry, probes) then NotApplied
      else Unreconciled
    else if entry.state == ROLLING_BACK then
      if PreStateMatches(entry, probes) then RolledBackAfterGap else if NewMatches(probes) then StillApplied
      else Unreconciled
    else if entry.state == ROLLED_BACK then
      if entry.existed == Some(false) then
        if probes.destination.exists_ then Unreconciled else RolledBackMark
      else if probes.rolledBack.Some? then
        if probes.rolledBack.value.identityMatches == Some(true) then RolledBackMark else Unreconciled
      else Silent
    else if entry.state == NEEDS_REVIEW || entry.state == UNSAFE_TO_RESUME then Unreconciled
    else Silent
  }

  /** A backup the undo would need, or that a checkpoint claims, is not proven. */
  predicate LacksBackup(entry: Entry, probes: Probes)
    requires entry.Entry?
  {
    var mark := MarkOf(entry, probes);
    BackupNeeded(entry) && !BackupMatches(probes) &&
    (Mutated(entry.state) || mark.AppliedAfterGap? || mark.StillApplied? ||
     (mark.NotApplied? && (entry.state == BACKUP_CREATED || entry.state == DESTINATION_TEMP_WRITTEN)))
  }

  predicate ReportsLink(evidence: Evidence) {
    evidence.problem.Some? && MentionsSymlink(evidence.problem.value)
  }

  predicate SourceIsBound(disk: Disk, journal: Journal, entry: Entry)
    requires entry.Entry?
  {
    entry.plan.Some? && entry.plan.value.sourcePath.Decodes? && journal.approvedSourceRoot.Decodes? &&
    IsWithin(disk, entry.plan.value.sourcePath.path, journal.approvedSourceRoot.path)
  }

  predicate BackupUnreadable(journal: Journal, entry: Entry)
    requires entry.Entry?
  {
    entry.backupPath == Some(Undecodable) || journal.backupRoot.Undecodable?
  }

  predicate PathsUnproven(disk: Disk, journal: Journal, entry: Entry, probes: Probes)
    requires entry.Entry?
  {
    TargetOf(disk, entry).failed || ReportsLink(probes.destination) ||
    (probes.backup.Some? && ReportsLink(probes.backup.value)) || BackupUnreadable(journal, entry)
  }

  function Judge(disk: Disk, journal: Journal, entry: Entry, probes: Probes): Finding
    requires entry.Entry?
  {
    var mark := MarkOf(entry, probes);
    var lacks := LacksBackup(entry, probes);
    var paths := PathsUnproven(disk, journal, entry, probes);
    Finding(
      mark,
      paths || !SourceIsBound(disk, journal, entry) ||
        (probes.temporary.Some? && ReportsLink(probes.temporary.value)) || entry.temporaryPath == Some(Undecodable),
      mark.Unreconciled? || lacks,
      paths || lacks || (mark.Unreconciled? &&
        (Mutated(entry.state) || NotYetMutated(entry.state) || entry.state == ROLLING_BACK)))
  }

  // ----- the whole journal

  datatype Findings = Findings(each: seq<Finding>, limits: Limits)

  function JudgeEntry(disk: Disk, limits: Limits, journal: Journal, entry: Entry): (Finding, Limits) {
    if entry.Malformed? then (Finding(Silent, true, false, true), limits)
    else
      var g := Gather(disk, limits, journal, entry);
      (Judge(disk, journal, entry, g.probes), g.limits)
  }

  /** The findings of the first `n` entries, the budget threaded through them. */
  function JudgeFirst(disk: Disk, limits: Limits, journal: Journal, n: nat): (f: Findings)
    requires n <= |journal.entries|
    ensures |f.each| == n
  {
    if n == 0 then Findings([], limits)
    else
      var before := JudgeFirst(disk, limits, journal, n - 1);
      var (finding, left) := JudgeEntry(disk, before.limits, journal, journal.entries[n - 1]);
      Findings(before.each + [finding], left)
  }

  function JudgeAll(disk: Disk, limits: Limits, journal: Journal): (f: Findings)
    ensures |f.each| == |journal.entries|
  {
    JudgeFirst(disk, limits, journal, |journal.entries|)
  }

  lemma StepEach(disk: Disk, limits: Limits, journal: Journal, n: nat)
    requires 0 < n <= |journal.entries|
    ensures var before := JudgeFirst(disk, limits, journal, n - 1);
      var each := JudgeFirst(disk, limits, journal, n).each;
      each[..n - 1] == before.each && each[n - 1] == JudgeEntry(disk, before.limits, journal, journal.entries[n - 1]).0
  {
  }

  /** Every finding is the judgement of its entry under whatever budget was then left. */
  lemma {:induction false} FindingOfEntry(disk: Disk, limits: Limits, journal: Journal, n: nat, i: nat)
    returns (before: Limits)
    requires i < n <= |journal.entries|
    ensures JudgeFirst(disk, limits, journal, n).each[i] == JudgeEntry(disk, before, journal, journal.entries[i]).0
  {
    StepEach(disk, limits, journal, n);
    if i < n - 1 {
      before := FindingOfEntry(disk, limits, journal, n - 1, i);
      assert JudgeFirst(disk, limits, journal, n).each[..n - 1][i] == JudgeFirst(disk, limits, journal, n).each[i];
    } else {
      before := JudgeFirst(disk, limits, journal, n - 1).limits;
    }
  }

  function MarksIn(each: seq<Finding>): (marks: seq<Mark>)
    ensures |marks| == |each| && forall i | 0 <= i < |each| :: marks[i] == each[i].mark
  {
    seq(|each|, i requires 0 <= i < |each| => each[i].mark)
  }

  /** The flags and the counter the entry loop accumulates. */
  datatype Tally = Tally(unsafe: bool, ambiguous: bool, unproven: bool, completed: nat)

  function TallyOf(findings: seq<Finding>): (t: Tally)
    ensures t.completed <= |findings|
  {
    if findings == [] then Tally(false, false, false, 0)
    else AddTo(TallyOf(findings[..|findings| - 1]), findings[|findings| - 1])
  }

  function AddTo(t: Tally, f: Finding): Tally {
    Tally(t.unsafe || f.unsafe, t.ambiguous || f.ambiguous, t.unproven || f.unproven,
          t.completed + if CountsCompleted(f.mark) then 1 else 0)
  }

  /** The places of the entries that count as completed. */
  function Counting(findings: seq<Finding>): set<nat> {
    set i: nat | i < |findings| && CountsCompleted(findings[i].mark)
  }

  /** A flag is up exactly when some entry raised it, and the counter is positive when some entry counts. */
  lemma {:induction false} TallyFlags(findings: seq<Finding>)
    ensures TallyOf(findings).unsafe <==> exists i | 0 <= i < |findings| :: findings[i].unsafe
    ensures TallyOf(findings).ambiguous <==> exists i | 0 <= i < |findings| :: findings[i].ambiguous
    ensures TallyOf(findings).unproven <==> exists i | 0 <= i < |findings| :: findings[i].unproven
    ensures TallyOf(findings).completed > 0 <==> exists i | 0 <= i < |findings| :: CountsCompleted(findings[i].mark)
  {
    if findings != [] {
      var n := |findings| - 1;
      TallyFlags(findings[..n]);
      assert forall i | 0 <= i < n :: findings[..n][i] == findings[i];
    }
  }

  /** The counter is the number of entries that count. */
  lemma {:induction false} TallyCounts(findings: seq<Finding>)
    ensures TallyOf(findings).completed == |Counting(findings)|
  {
    if findings != [] {
      var n := |findings| - 1;
      TallyCounts(findings[..n]);
      CountingGrows(findings[..n], findings[n]);
      assert findings[..n] + [findings[n]] == findings;
    }
  }

  lemma CountingGrows(findings: seq<Finding>, f: Finding)
    ensures Counting(findings + [f]) == Counting(findings) + if CountsCompleted(f.mark) then {|findings|} else {}
  {
    var more := findings + [f];
    assert forall i | 0 <= i < |findings| :: more[i] == findings[i];
  }

  lemma TallyStep(findings: seq<Finding>, f: Finding)
    ensures TallyOf(findings + [f]) == AddTo(TallyOf(findings), f)
  {
    assert (findings + [f])[..|findings|] == findings;
  }

  predicate IsTerminal(state: Word) {
    state == APPLIED || state == ROLLED_BACK || state == LEGACY_COMPLETE
  }

  predicate MayRollBack(state: Word) {
    state == APPLYING || state == APPLY_FAILED || state == NEEDS_REVIEW
  }

  function Verdict(journal: Journal, tally: Tally): Operation {
    var done := tally.completed;
    var op := FRESH.(state := MapState(journal.state), total := |journal.entries|);
    if !journal.knownSchema then op.(state := UnknownSchema)
    else
      var counted := op.(completed := done, pending := |journal.entries| - done);
      if IsTerminal(journal.state) then counted.(category := CompletedHistory, suggested := NoAction)
      else if tally.unsafe then counted.(state := UnsafeToResume)
      else if !tally.unproven && done > 0 && !tally.ambiguous && MayRollBack(journal.state) then
        counted.(category := Recoverable, rollbackPossible := true, suggested := SafeRollback)
      else counted.(suggested := Review)
  }

  /** inspect_shared_durable as a function: the verdict, and the budget left afterwards. */
  function InspectShared(disk: Disk, limits: Limits, journal: Journal): (Operation, Limits) {
    if !journal.knownSchema then (Verdict(journal, TallyOf([])), limits)
    else
      var f := JudgeAll(disk, limits, journal);
      (Verdict(journal, TallyOf(f.each)), f.limits)
  }

  // ----- the inspector itself

  method GatherEntry(disk: Disk, journal: Journal, entry: Entry, budget: HashBudget) returns (probes: Probes)
    requires entry.Entry? && budget.Valid()
    modifies budget
    ensures budget.Valid() && old(budget.hashed) <= budget.hashed
    ensures Gathered(probes, budget.Left()) == Gather(disk, old(budget.Left()), journal, entry)
  {
    var target := TargetOf(disk, entry);
    var destination := InspectPath(disk, target.path, budget, target.root, NewDigest(entry));
    var backupPath := OptionalPath(entry.backupPath);
    var backup := InspectWanted(disk, backupPath, budget, PathOf(journal.backupRoot), BackupExpected(entry),
      backupPath.Some?);
    var temporaryPath := OptionalPath(entry.temporaryPath);
    var temporary := InspectWanted(disk, temporaryPath, budget, target.root, None, temporaryPath.Some?);
    var rolledBack := InspectWanted(disk, target.path, budget, target.root, PreDigest(entry), RehashesOld(entry));
    probes := Probes(destination, backup, temporary, rolledBack);
  }

  /** The branch of the entry loop that compares the checkpoint with the disk. */
  method Reconcile(entry: Entry, probes: Probes) returns (mark: Mark, ambiguous: bool, unproven: bool)
    requires entry.Entry?
    ensures mark == MarkOf(entry, probes)
    ensures ambiguous == (mark.Unreconciled? || LacksBackup(entry, probes))
    ensures unproven == (LacksBackup(entry, probes) ||
      (mark.Unreconciled? && (Mutated(entry.state) || NotYetMutated(entry.state) || entry.state == ROLLING_BACK)))
  {
    var state := entry.state;
    mark, ambiguous, unproven := Silent, false, false;
    var newMatches := probes.destination.identityMatches == Some(true);
    var preStateMatches := OldMatches(entry, probes) || AbsentMatches(entry, probes);
    var backupMatches := BackupMatches(probes);
    var backupNeeded := BackupNeeded(entry);
    if Mutated(state) {
      if newMatches {
        mark := AppliedMark;
      } else {
        ambiguous, unproven, mark := true, true, Unreconciled;
      }
      if backupNeeded && !backupMatches { ambiguous, unproven := true, true; }
    } else if NotYetMutated(state) {
      if newMatches {
        mark := AppliedAfterGap;
        if backupNeeded && !backupMatches { ambiguous, unproven := true, true; }
      } else if preStateMatches {
        mark := NotApplied;
        if (state == BACKUP_CREATED || state == DESTINATION_TEMP_WRITTEN) && backupNeeded && !backupMatches {
          ambiguous, unproven := true, true;
        }
      } else {
        ambiguous, unproven, mark := true, true, Unreconciled;
      }
    } else if state == ROLLING_BACK {
      if preStateMatches {
        mark := RolledBackAfterGap;
      } else if newMatches {
        mark := StillApplied;
        if backupNeeded && !backupMatches { ambiguous, unproven := true, true; }
      } else {
        ambiguous, unproven, mark := true, true, Unreconciled;
      }
    } else if state == ROLLED_BACK {
      if entry.existed == Some(false) {
        if probes.destination.exists_ { ambiguous, mark := true, Unreconciled; }
        else { mark := RolledBackMark; }
      } else if probes.rolledBack.Some? {
        if probes.rolledBack.value.identityMatches != Some(true) { ambiguous, mark := true, Unreconciled; }
        else { mark := RolledBackMark; }
      }
    } else if state == NEEDS_REVIEW || state == UNSAFE_TO_RESUME {
      ambiguous, mark := true, Unreconciled;
    }
  }

  /** One pass of the entry loop. */
  method InspectEntry(disk: Disk, journal: Journal, entry: Entry, budget: HashBudget) returns (finding: Finding)
    requires budget.Valid()
    modifies budget
    ensures budget.Valid() && old(budget.hashed) <= budget.hashed
    ensures (finding, budget.Left()) == JudgeEntry(disk, old(budget.Left()), journal, entry)
  {
    if entry.Malformed? {
      return Finding(Silent, true, false, true);
    }
    var unsafe, ambiguous, rollbackProven := false, false, true;
    var target := TargetOf(disk, entry);
    if target.failed { unsafe, rollbackProven := true, false; }
    if !SourceIsBound(disk, journal, entry) { unsafe := true; }
    var probes := GatherEntry(disk, journal, entry, budget);
    if ReportsLink(probes.destination) { unsafe, rollbackProven := true, false; }
    if probes.backup.Some? && ReportsLink(probes.backup.value) { unsafe, rollbackProven := true, false; }
    if BackupUnreadable(journal, entry) { unsafe, rollbackProven := true, false; }
    if probes.temporary.Some? && ReportsLink(probes.temporary.value) { unsafe := true; }
    if entry.temporaryPath == Some(Undecodable) { unsafe := true; }
    var mark, doubtful, unprovable := Reconcile(entry, probes);
    if doubtful { ambiguous := true; }
    if unprovable { rollbackProven := false; }
    finding := Finding(mark, unsafe, ambiguous, !rollbackProven);
  }

  /** The decision after the loop. */
  method Conclude(journal: Journal, unsafe: bool, ambiguous: bool, rollbackProven: bool, completed: nat)
    returns (operation: Operation)
    requires journal.knownSchema
    ensures operation == Verdict(journal, Tally(unsafe, ambiguous, !rollbackProven, completed))
  {
    operation := FRESH.(state := MapState(journal.state), total := |journal.entries|);
    operation := operation.(completed := completed, pending := |journal.entries| - completed);
    if IsTerminal(journal.state) {
      operation := operation.(category := CompletedHistory, suggested := NoAction);
    } else if unsafe {
      operation := operation.(state := UnsafeToResume, category := ReviewRequired, suggested := DoNotTouch);
    } else if rollbackProven && completed > 0 && !ambiguous && MayRollBack(journal.state) {
      operation := operation.(category := Recoverable, rollbackPossible := true, suggested := SafeRollback);
    } else {
      operation := operation.(category := ReviewRequired, suggested := Review);
    }
    operation := operation.(resumePossible := false);
  }

  method InspectSharedDurable(disk: Disk, journal: Journal, budget: HashBudget)
    returns (operation: Operation, marks: seq<Mark>)
    requires budget.Valid()
    modifies budget
    ensures budget.Valid() && old(budget.hashed) <= budget.hashed
    ensures (operation, budget.Left()) == InspectShared(disk, old(budget.Left()), journal)
    ensures journal.knownSchema ==> marks == MarksIn(JudgeAll(disk, old(budget.Left()), journal).each)
  {
    marks := [];
    operation := FRESH.(state := MapState(journal.state), total := |journal.entries|);
    if !journal.knownSchema {
      operation := operation.(state := UnknownSchema, category := ReviewRequired, suggested := DoNotTouch);
      return;
    }
    var unsafe, ambiguous, rollbackProven, completed;
    ghost var each;
    unsafe, ambiguous, rollbackProven, completed, marks, each := JudgeEntries(disk, journal, budget);
    operation := Conclude(journal, unsafe, ambiguous, rollbackProven, completed);
  }

  lemma JudgeStep(disk: Disk, limits: Limits, journal: Journal, i: nat)
    requires i < |journal.entries|
    ensures var before := JudgeFirst(disk, limits, journal, i);
      var (finding, left) := JudgeEntry(disk, before.limits, journal, journal.entries[i]);
      JudgeFirst(disk, limits, journal, i + 1) == Findings(before.each + [finding], left)
  {
  }

  lemma MarksStep(each: seq<Finding>, f: Finding)
    ensures MarksIn(each + [f]) == MarksIn(each) + [f.mark]
  {
  }

  /** The loop over the entries. */
  method JudgeEntries(disk: Disk, journal: Journal, budget: HashBudget)
    returns (unsafe: bool, ambiguous: bool, rollbackProven: bool, completed: nat, marks: seq<Mark>,
      ghost each: seq<Finding>)
    requires budget.Valid()
    modifies budget
    ensures budget.Valid() && old(budget.hashed) <= budget.hashed
    ensures Findings(each, budget.Left()) == JudgeAll(disk, old(budget.Left()), journal)
    ensures Tally(unsafe, ambiguous, !rollbackProven, completed) == TallyOf(each)
    ensures marks == MarksIn(each)
  {
    unsafe, ambiguous, rollbackProven, completed, marks, each := false, false, true, 0, [], [];
    for i := 0 to |journal.entries|
      invariant budget.Valid() && old(budget.hashed) <= budget.hashed
      invariant Findings(each, budget.Left()) == JudgeFirst(disk, old(budget.Left()), journal, i)
      invariant marks == MarksIn(each)
      invariant Tally(unsafe, ambiguous, !rollbackProven, completed) == TallyOf(each)
    {
      JudgeStep(disk, old(budget.Left()), journal, i);
      var finding := InspectEntry(disk, journal, journal.entries[i], budget);
      unsafe, ambiguous := unsafe || finding.unsafe, ambiguous || finding.ambiguous;
      rollbackProven := rollbackProven && !finding.unproven;
      if CountsCompleted(finding.mark) { completed := completed + 1; }
      marks := marks + [finding.mark];
      TallyStep(each, finding);
      MarksStep(each, finding);
      each := each + [finding];
    }
  }
}
