/** Inspection of rename, link and quarantine journals (inspect_rename). */
module RenameJournal {
  import opened Common
  import opened FileSystem
  import opened Evidence
  import opened Operation

  /** A captured source identity; `digest` is the decoded freshness digest, if any. */
  datatype Identity = Identity(
    isRegular: bool, size: Option<int>, mtime: Option<int>, ino: Option<int>, dev: Option<int>, digest: Option<string>)

  datatype Action =
    | RenameMove
    | CreateSymlink(root: Option<Path>, expectedTarget: Option<string>)
    | CreateHardlink(root: Option<Path>)

  datatype Entry =
    | Malformed
    | Entry(source: Option<Path>, destination: Option<Path>, action: Action, identity: Identity, state: Word)

  datatype Journal = Journal(state: Word, sourceRoot: Option<Path>, entries: seq<Entry>)

  predicate IsSettled(state: Word) { state == APPLIED || state == ROLLED_BACK }

  predicate IsActive(state: Word) {
    state == PLANNED || state == APPLYING || state == APPLY_FAILED || state == ROLLING_BACK || state == ROLLBACK_FAILED
  }

  predicate IsApplied(entry: Entry) { entry.Entry? && entry.state == APPLIED }

  // ----- exact identity

  /** The file on disk is the captured one: kind, size, time, inode and digest. */
  predicate MatchesIdentity(file: Object, identity: Identity) {
    && file.Regular? && identity.isRegular
    && identity.size == Some(file.size)
    && identity.mtime == Some(file.mtime)
    && (identity.ino.Some? ==> identity.ino.value == file.ino)
    && (identity.dev.Some? ==> identity.dev.value == file.dev)
    && identity.digest.Some? && SameHex(file.sha256, identity.digest.value)
  }

  datatype Exact = Exact(valid: bool, evidence: Evidence, limits: Limits)

  /** exact_stat_identity as a function. */
  function ExactIdentity(disk: Disk, limits: Limits, path: Option<Path>, identity: Identity): Exact {
    var p := Inspect(disk, limits, path, None, identity.digest);
    var e := p.evidence;
    if !e.safePath || e.kind != RegularKind || identity.digest.None? then Exact(false, e, p.limits)
    else
      var found := Lstat(disk, path.value);
      if !found.Found? then Exact(false, e, p.limits)
      else
        var valid := MatchesIdentity(disk.objects[found.at], identity) && e.identityMatches == Some(true);
        Exact(valid, e.(identityMatches := Some(valid)), p.limits)
  }

  method ExactStatIdentity(disk: Disk, path: Option<Path>, identity: Identity, budget: HashBudget)
    returns (valid: bool, evidence: Evidence)
    requires budget.Valid()
    modifies budget
    ensures budget.Valid() && old(budget.hashed) <= budget.hashed
    ensures Exact(valid, evidence, budget.Left()) == ExactIdentity(disk, old(budget.Left()), path, identity)
  {
    evidence := InspectPath(disk, path, budget, None, identity.digest);
    if !evidence.safePath || evidence.kind != RegularKind || identity.digest.None? {
      return false, evidence;
    }
    var info := Lstat(disk, path.value);
    if !info.Found? {
      return false, evidence;
    }
    valid := MatchesIdentity(disk.objects[info.at], identity) && evidence.identityMatches == Some(true);
    evidence := evidence.(identityMatches := Some(valid));
  }

  // ----- judging one entry

  datatype Finding = Finding(safe: bool, ambiguous: bool, unsafe: bool)

  const QUIET := Finding(false, false, false)

  /** Two paths name one file object. */
  predicate SameObject(disk: Disk, a: Option<Path>, b: Path) {
    a.Some? &&
    var x, y := Lstat(disk, a.value), Lstat(disk, b);
    x.Found? && y.Found? && IsRegular(disk, x.at) && IsRegular(disk, y.at) &&
    disk.objects[x.at].ino == disk.objects[y.at].ino && disk.objects[x.at].dev == disk.objects[y.at].dev
  }

  predicate LinkIsExpected(evidence: Evidence, expected: Option<string>) {
    evidence.kind == SymlinkKind && evidence.symlinkText == expected && evidence.problem == Some(LeafIsSymlink)
  }

  /** The destination lies under the source scan root, the only root the journal binds it to. */
  predicate IsRootBound(disk: Disk, journal: Journal, destination: Path) {
    journal.sourceRoot.Some? && IsWithin(disk, destination, journal.sourceRoot.value)
  }

  function JudgeApplied(disk: Disk, limits: Limits, journal: Journal, entry: Entry): (Finding, Limits)
    requires entry.Entry? && entry.destination.Some?
  {
    match entry.action
    case CreateSymlink(root, expected) =>
      var p := Inspect(disk, limits, entry.destination, root, None);
      if LinkIsExpected(p.evidence, expected) then (Finding(true, false, false), p.limits)
      else (Finding(false, true, p.evidence.problem.Some? && p.evidence.problem != Some(LeafIsSymlink)), p.limits)
    case CreateHardlink(root) =>
      var p := Inspect(disk, limits, entry.destination, root, entry.identity.digest);
      var x := ExactIdentity(disk, p.limits, entry.source, entry.identity);
      var safe := x.valid && p.evidence.safePath && p.evidence.identityMatches == Some(true) &&
        SameObject(disk, entry.source, entry.destination.value);
      (Finding(safe, !safe, false), x.limits)
    case RenameMove =>
      var bound := IsRootBound(disk, journal, entry.destination.value);
      var x := ExactIdentity(disk, limits, entry.destination, entry.identity);
      var s := Inspect(disk, x.limits, entry.source, journal.sourceRoot, None);
      var safe := x.valid && !s.evidence.exists_ && bound;
      (Finding(safe, !safe, false), s.limits)
  }

  function JudgeEntry(disk: Disk, limits: Limits, journal: Journal, entry: Entry): (Finding, Limits) {
    if entry.Malformed? then (Finding(false, false, true), limits)
    else if !IsSettled(journal.state) && entry.state == APPLIED && entry.destination.Some? then
      JudgeApplied(disk, limits, journal, entry)
    else
      var open := entry.state == APPLYING || entry.state == ROLLING_BACK || entry.state == ROLLBACK_FAILED;
      (Finding(false, open, false), limits)
  }

  // ----- the whole journal

  datatype Findings = Findings(each: seq<Finding>, limits: Limits)

  function JudgeFirst(disk: Disk, limits: Limits, journal: Journal, n: nat): (f: Findings)
    requires n <= |journal.entries|
    ensures |f.each| == n
  {
    if n == 0 then Findings([], limits)
    else
      var before := JudgeFirst(disk, limits, journal, n - 1);
      var (finding, left) := JudgeEntry(disk, before.limits, journal, journal.entries[n - 1]);
      Findings(before.each + [finding], left)
  }

  datatype Tally = Tally(safe: nat, ambiguous: bool, unsafe: bool)

  function TallyOf(findings: seq<Finding>): Tally {
    if findings == [] then Tally(0, false, false)
    else AddTo(TallyOf(findings[..|findings| - 1]), findings[|findings| - 1])
  }

  function AddTo(t: Tally, f: Finding): Tally {
    Tally(t.safe + if f.safe then 1 else 0, t.ambiguous || f.ambiguous, t.unsafe || f.unsafe)
  }

  lemma TallyStep(findings: seq<Finding>, f: Finding)
    ensures TallyOf(findings + [f]) == AddTo(TallyOf(findings), f)
  {
    assert (findings + [f])[..|findings|] == findings;
  }

  function CountApplied(entries: seq<Entry>): nat {
    if entries == [] then 0
    else CountApplied(entries[..|entries| - 1]) + if IsApplied(entries[|entries| - 1]) then 1 else 0
  }

  predicate CountsCompleted(entry: Entry) {
    entry.Entry? && (entry.state == APPLIED || entry.state == ROLLED_BACK)
  }

  function CountCompleted(entries: seq<Entry>): nat {
    if entries == [] then 0
    else CountCompleted(entries[..|entries| - 1]) + if CountsCompleted(entries[|entries| - 1]) then 1 else 0
  }

  function Verdict(journal: Journal, tally: Tally): Operation {
    var done := CountCompleted(journal.entries);
    var op := FRESH.(state := MapState(journal.state), total := |journal.entries|, completed := done,
      pending := |journal.entries| - done);
    if IsSettled(journal.state) then op.(category := CompletedHistory, suggested := NoAction)
    else if tally.unsafe then op.(state := UnsafeToResume)
    else if IsActive(journal.state) && tally.safe > 0 && tally.safe == CountApplied(journal.entries) &&
      !tally.ambiguous then
      op.(category := Recoverable, rollbackPossible := true, suggested := SafeRollback)
    else if IsActive(journal.state) then op.(suggested := Review)
    else op
  }

  function InspectRenames(disk: Disk, limits: Limits, journal: Journal): (Operation, Limits) {
    var f := JudgeFirst(disk, limits, journal, |journal.entries|);
    (Verdict(journal, TallyOf(f.each)), f.limits)
  }

  // ----- the inspector itself

  method InspectApplied(disk: Disk, journal: Journal, entry: Entry, budget: HashBudget) returns (finding: Finding)
    requires entry.Entry? && entry.destination.Some? && budget.Valid()
    modifies budget
    ensures budget.Valid() && old(budget.hashed) <= budget.hashed
    ensures (finding, budget.Left()) == JudgeApplied(disk, old(budget.Left()), journal, entry)
  {
    var safe, ambiguous, unsafe := false, false, false;
    match entry.action {
      case CreateSymlink(root, expected) =>
        var evidence := InspectPath(disk, entry.destination, budget, root, None);
        if LinkIsExpected(evidence, expected) {
          safe := true;
        } else {
          unsafe := evidence.problem.Some? && evidence.problem != Some(LeafIsSymlink);
          ambiguous := true;
        }
      case CreateHardlink(root) =>
        var evidence := InspectPath(disk, entry.destination, budget, root, entry.identity.digest);
        var sourceValid, _ := ExactStatIdentity(disk, entry.source, entry.identity, budget);
        if sourceValid && evidence.safePath && evidence.identityMatches == Some(true) &&
          SameObject(disk, entry.source, entry.destination.value) {
          safe := true;
        } else {
          ambiguous := true;
        }
      case RenameMove =>
        var rootBound := IsRootBound(disk, journal, entry.destination.value);
        if !rootBound { ambiguous := true; }
        var valid, _ := ExactStatIdentity(disk, entry.destination, entry.identity, budget);
        var sourceEvidence := InspectPath(disk, entry.source, budget, journal.sourceRoot, None);
        if valid && !sourceEvidence.exists_ && rootBound {
          safe := true;
        } else {
          ambiguous := true;
        }
    }
    finding := Finding(safe, ambiguous, unsafe);
  }

  /** One pass of the entry loop. */
  method InspectEntry(disk: Disk, journal: Journal, entry: Entry, budget: HashBudget) returns (finding: Finding)
    requires budget.Valid()
    modifies budget
    ensures budget.Valid() && old(budget.hashed) <= budget.hashed
    ensures (finding, budget.Left()) == JudgeEntry(disk, old(budget.Left()), journal, entry)
  {
    finding := QUIET;
    if entry.Malformed? {
      finding := finding.(unsafe := true);
    } else if !IsSettled(journal.state) && entry.state == APPLIED && entry.destination.Some? {
      finding := InspectApplied(disk, journal, entry, budget);
    } else if entry.state == APPLYING || entry.state == ROLLING_BACK || entry.state == ROLLBACK_FAILED {
      finding := finding.(ambiguous := true);
    }
  }

  lemma JudgeStep(disk: Disk, limits: Limits, journal: Journal, i: nat)
    requires i < |journal.entries|
    ensures var before := JudgeFirst(disk, limits, journal, i);
      var (finding, left) := JudgeEntry(disk, before.limits, journal, journal.entries[i]);
      JudgeFirst(disk, limits, journal, i + 1) == Findings(before.each + [finding], left)
  {
  }

  lemma CountStep(entries: seq<Entry>, i: nat)
    requires i < |entries|
    ensures CountCompleted(entries[..i + 1]) == CountCompleted(entries[..i]) +
      if CountsCompleted(entries[i]) then 1 else 0
    ensures CountApplied(entries[..i + 1]) == CountApplied(entries[..i]) + if IsApplied(entries[i]) then 1 else 0
  {
    assert entries[..i + 1][..i] == entries[..i];
  }

  /** The loop over the entries. */
  method JudgeEntries(disk: Disk, journal: Journal, budget: HashBudget)
    returns (safeApplied: nat, completed: nat, applied: nat, ambiguous: bool, unsafe: bool)
    requires budget.Valid()
    modifies budget
    ensures budget.Valid() && old(budget.hashed) <= budget.hashed
    ensures var f := JudgeFirst(disk, old(budget.Left()), journal, |journal.entries|);
      budget.Left() == f.limits && Tally(safeApplied, ambiguous, unsafe) == TallyOf(f.each)
    ensures completed == CountCompleted(journal.entries) && applied == CountApplied(journal.entries)
  {
    safeApplied, completed, applied, ambiguous, unsafe := 0, 0, 0, false, false;
    ghost var each: seq<Finding> := [];
    for i := 0 to |journal.entries|
      invariant budget.Valid() && old(budget.hashed) <= budget.hashed
      invariant Findings(each, budget.Left()) == JudgeFirst(disk, old(budget.Left()), journal, i)
      invariant Tally(safeApplied, ambiguous, unsafe) == TallyOf(each)
      invariant completed == CountCompleted(journal.entries[..i]) && applied == CountApplied(journal.entries[..i])
    {
      JudgeStep(disk, old(budget.Left()), journal, i);
      CountStep(journal.entries, i);
      var finding := InspectEntry(disk, journal, journal.entries[i], budget);
      if CountsCompleted(journal.entries[i]) { completed := completed + 1; }
      if IsApplied(journal.entries[i]) { applied := applied + 1; }
      if finding.safe { safeApplied := safeApplied + 1; }
      if finding.ambiguous { ambiguous := true; }
      if finding.unsafe { unsafe := true; }
      TallyStep(each, finding);
      each := each + [finding];
    }
    assert journal.entries[..|journal.entries|] == journal.entries;
  }

  method InspectRename(disk: Disk, journal: Journal, budget: HashBudget) returns (operation: Operation)
    requires budget.Valid()
    modifies budget
    ensures budget.Valid() && old(budget.hashed) <= budget.hashed
    ensures (operation, budget.Left()) == InspectRenames(disk, old(budget.Left()), journal)
  {
    var safeApplied, completed, applied, ambiguous, unsafe := JudgeEntries(disk, journal, budget);
    operation := Conclude(journal, safeApplied, completed, applied, ambiguous, unsafe);
  }

  method Conclude(journal: Journal, safeApplied: nat, completed: nat, applied: nat, ambiguous: bool, unsafe: bool)
    returns (operation: Operation)
    requires completed == CountCompleted(journal.entries) && applied == CountApplied(journal.entries)
    ensures operation == Verdict(journal, Tally(safeApplied, ambiguous, unsafe))
  {
    operation := FRESH.(state := MapState(journal.state), total := |journal.entries|);
    operation := operation.(completed := completed, pending := |journal.entries| - completed);
    if IsSettled(journal.state) {
      operation := operation.(category := CompletedHistory, suggested := NoAction);
    } else if unsafe {
      operation := operation.(state := UnsafeToResume, category := ReviewRequired, suggested := DoNotTouch);
    } else if IsActive(journal.state) && safeApplied > 0 && safeApplied == applied && !ambiguous {
      operation := operation.(category := Recoverable, rollbackPossible := true, suggested := SafeRollback);
    } else if IsActive(journal.state) {
      operation := operation.(category := ReviewRequired, suggested := Review);
    }
    operation := operation.(resumePossible := false);
  }
}
