/**
 The verdict on a rename journal, read off the disk and the journal alone: which files, links and
 identities the applied entries must find in place.
 */
module RenameVerdict {
  import opened Common
  import opened FileSystem
  import opened Evidence
  import opened Operation
  import opened RenameJournal
  import opened DiskFacts
  import Undo = RenameRollback
  import Budget = BudgetSoundness

  // ----- one applied entry on the disk

  /** The captured file stands literally at the path, with its digest, size and time, and its inode where recorded. */
  ghost predicate IsCaptured(disk: Disk, path: Option<Path>, identity: Identity) {
    Holds(disk, path, None, identity.digest) && identity.isRegular &&
    var file := disk.objects[path.value.parts];
    identity.size == Some(file.size) && identity.mtime == Some(file.mtime) &&
    identity.ino in {None, Some(file.ino as int)} && identity.dev in {None, Some(file.dev as int)}
  }

  /** The created link is a link with the recorded text, and nothing before it on the way is. */
  ghost predicate LinkStands(disk: Disk, path: Option<Path>, root: Option<Path>, expected: Option<string>) {
    Seen(disk, path, root) && PlainWay(disk, path.value.parts) &&
    var item := disk.objects[At(disk, path.value.parts).at];
    item.Symlink? && expected == Some(item.text)
  }

  /** The place of a created link cannot be trusted: outside its root, behind a link, or not to be looked up. */
  ghost predicate LinkIsCutOff(disk: Disk, path: Option<Path>, root: Option<Path>) {
    !Askable(disk, path, root) || !PlainWay(disk, path.value.parts) || At(disk, path.value.parts).Failed?
  }

  /** What each kind of applied entry must find. */
  ghost predicate InPlace(disk: Disk, journal: Journal, entry: Entry)
    requires entry.Entry?
  {
    entry.destination.Some? &&
    match entry.action
    case CreateSymlink(root, expected) => LinkStands(disk, entry.destination, root, expected)
    case CreateHardlink(root) =>
      IsCaptured(disk, entry.source, entry.identity) &&
      Holds(disk, entry.destination, root, entry.identity.digest) &&
      var a, b := disk.objects[entry.source.value.parts], disk.objects[entry.destination.value.parts];
      a.ino == b.ino && a.dev == b.dev
    case RenameMove =>
      IsCaptured(disk, entry.destination, entry.identity) && !Seen(disk, entry.source, journal.sourceRoot) &&
      journal.sourceRoot.Some? && Absolute(disk, journal.sourceRoot.value) <= Absolute(disk, entry.destination.value)
  }

  // ----- the inspector asks just that

  lemma CaptureCompared(disk: Disk, path: Option<Path>, identity: Identity)
    ensures ExactIdentity(disk, Unlimited, path, identity).valid <==> IsCaptured(disk, path, identity)
    ensures ExactIdentity(disk, Unlimited, path, identity).limits == Unlimited
  {
    EvidenceIsExact(disk, path, None, identity.digest);
    if Holds(disk, path, None, identity.digest) {
      HoldingCompared(disk, path, None, identity.digest);
      LiteralHasNoLink(disk, path.value);
    }
  }

  lemma LinkCompared(disk: Disk, path: Option<Path>, root: Option<Path>, expected: Option<string>)
    ensures var p := Inspect(disk, Unlimited, path, root, None);
      p.limits == Unlimited && (LinkIsExpected(p.evidence, expected) <==> LinkStands(disk, path, root, expected)) &&
      (p.evidence.problem.Some? && p.evidence.problem != Some(LeafIsSymlink) <==> LinkIsCutOff(disk, path, root))
  {
    RootsCompared(disk, path, root);
    if path.Some? && path.value.absolute { WaysCompared(disk, path.value); }
  }

  lemma HardlinkCompared(disk: Disk, source: Option<Path>, destination: Path, root: Option<Path>, identity: Identity)
    requires IsCaptured(disk, source, identity) && Holds(disk, Some(destination), root, identity.digest)
    ensures var a, b := disk.objects[source.value.parts], disk.objects[destination.parts];
      SameObject(disk, source, destination) <==> a.ino == b.ino && a.dev == b.dev
  {
    HoldingCompared(disk, source, None, identity.digest);
    HoldingCompared(disk, Some(destination), root, identity.digest);
    LiteralHasNoLink(disk, source.value);
    LiteralHasNoLink(disk, destination);
  }

  ghost predicate Agrees(disk: Disk, journal: Journal, entry: Entry, judged: (Finding, Limits))
    requires entry.Entry?
  {
    judged.1 == Unlimited && (judged.0.safe <==> InPlace(disk, journal, entry)) &&
    judged.0.ambiguous != judged.0.safe &&
    (judged.0.unsafe <==>
      entry.action.CreateSymlink? && LinkIsCutOff(disk, entry.destination, entry.action.root))
  }

  lemma AppliedIsJudged(disk: Disk, journal: Journal, entry: Entry)
    requires entry.Entry? && entry.destination.Some?
    ensures Agrees(disk, journal, entry, JudgeApplied(disk, Unlimited, journal, entry))
  {
    match entry.action
    case CreateSymlink(root, expected) => LinkCompared(disk, entry.destination, root, expected);
    case CreateHardlink(root) => HardlinkIsJudged(disk, journal, entry, root);
    case RenameMove =>
      CaptureCompared(disk, entry.destination, entry.identity);
      EvidenceIsExact(disk, entry.source, journal.sourceRoot, None);
  }

  lemma HardlinkIsJudged(disk: Disk, journal: Journal, entry: Entry, root: Option<Path>)
    requires entry.Entry? && entry.destination.Some? && entry.action == CreateHardlink(root)
    ensures Agrees(disk, journal, entry, JudgeApplied(disk, Unlimited, journal, entry))
  {
    EvidenceIsExact(disk, entry.destination, root, entry.identity.digest);
    CaptureCompared(disk, entry.source, entry.identity);
    MatchIsSafe(disk, entry.destination, root, entry.identity.digest);
    if IsCaptured(disk, entry.source, entry.identity) &&
      Holds(disk, entry.destination, root, entry.identity.digest) {
      HardlinkCompared(disk, entry.source, entry.destination.value, root, entry.identity);
    }
  }

  lemma MatchIsSafe(disk: Disk, path: Option<Path>, root: Option<Path>, digest: Option<string>)
    ensures var e := Inspect(disk, Unlimited, path, root, digest).evidence;
      e.identityMatches == Some(true) ==> e.safePath
  {
  }

  // ----- the whole journal

  predicate IsApplying(state: Word) {
    state == PLANNED || state == APPLYING || state == APPLY_FAILED || state == ROLLING_BACK || state == ROLLBACK_FAILED
  }

  predicate IsOver(state: Word) {
    state == APPLIED || state == ROLLED_BACK
  }

  /** The entry claims to be applied. */
  predicate Claims(journal: Journal, i: nat) {
    i < |journal.entries| && journal.entries[i].Entry? && journal.entries[i].state == APPLIED
  }

  /** The entry was caught between two states. */
  predicate IsOpen(journal: Journal, i: nat) {
    i < |journal.entries| && journal.entries[i].Entry? &&
    (journal.entries[i].state == APPLYING || journal.entries[i].state == ROLLING_BACK ||
     journal.entries[i].state == ROLLBACK_FAILED)
  }

  ghost predicate IsDangerous(disk: Disk, journal: Journal, i: nat) {
    i < |journal.entries| &&
    var entry := journal.entries[i];
    entry.Malformed? ||
    (entry.state == APPLIED && entry.destination.Some? && entry.action.CreateSymlink? &&
     LinkIsCutOff(disk, entry.destination, entry.action.root))
  }

  ghost predicate EveryClaimHolds(disk: Disk, journal: Journal) {
    forall i: nat | Claims(journal, i) :: InPlace(disk, journal, journal.entries[i])
  }

  lemma EntryIsJudged(disk: Disk, journal: Journal, i: nat)
    requires i < |journal.entries| && !IsOver(journal.state)
    ensures var (f, left) := JudgeEntry(disk, Unlimited, journal, journal.entries[i]);
      left == Unlimited && (f.safe <==> Claims(journal, i) && InPlace(disk, journal, journal.entries[i])) &&
      (f.unsafe <==> IsDangerous(disk, journal, i)) &&
      (f.ambiguous <==> IsOpen(journal, i) || (Claims(journal, i) && journal.entries[i].destination.Some? && !f.safe))
  {
    var entry := journal.entries[i];
    if entry.Entry? && entry.destination.Some? { AppliedIsJudged(disk, journal, entry); }
  }

  lemma {:induction false} UnlimitedFindings(disk: Disk, journal: Journal, n: nat, i: nat)
    requires i < n <= |journal.entries| && !IsOver(journal.state)
    ensures JudgeFirst(disk, Unlimited, journal, n).limits == Unlimited
    ensures JudgeFirst(disk, Unlimited, journal, n).each[i] ==
      JudgeEntry(disk, Unlimited, journal, journal.entries[i]).0
  {
    EntryIsJudged(disk, journal, n - 1);
    if n > 1 { UnlimitedFindings(disk, journal, n - 1, if i == n - 1 then 0 else i); }
  }

  lemma {:induction false} CountsOfSafe(entries: seq<Entry>, each: seq<Finding>)
    requires |entries| == |each| && forall i | 0 <= i < |each| :: each[i].safe <==> IsApplied(entries[i])
    ensures TallyOf(each).safe == CountApplied(entries)
  {
    if each != [] { CountsOfSafe(entries[..|each| - 1], each[..|each| - 1]); }
  }

  lemma {:induction false} SafeIsPositive(each: seq<Finding>)
    ensures TallyOf(each).safe > 0 <==> exists i | 0 <= i < |each| :: each[i].safe
  {
    if each != [] {
      SafeIsPositive(each[..|each| - 1]);
      assert forall i | 0 <= i < |each| - 1 :: each[..|each| - 1][i] == each[i];
    }
  }

  ghost predicate Judged(disk: Disk, journal: Journal, f: Finding, i: nat) {
    i < |journal.entries| &&
    (f.safe <==> Claims(journal, i) && InPlace(disk, journal, journal.entries[i])) &&
    (f.unsafe <==> IsDangerous(disk, journal, i)) &&
    (f.ambiguous <==> IsOpen(journal, i) || (Claims(journal, i) && journal.entries[i].destination.Some? && !f.safe))
  }

  /** The counters agree exactly when every entry that claims to be applied is in place. */
  lemma CountersAgree(disk: Disk, journal: Journal, each: seq<Finding>)
    requires |each| == |journal.entries| && forall i | 0 <= i < |each| :: Judged(disk, journal, each[i], i)
    ensures TallyOf(each).safe == CountApplied(journal.entries) <==> EveryClaimHolds(disk, journal)
    ensures TallyOf(each).safe > 0 <==>
      exists i: nat :: Claims(journal, i) && InPlace(disk, journal, journal.entries[i])
    ensures EveryClaimHolds(disk, journal) ==> (TallyOf(each).ambiguous <==> exists i: nat :: IsOpen(journal, i))
  {
    Undo.CountsForceSafe(journal.entries, each);
    SafeIsPositive(each);
    Budget.RenameTallyMeaning(each);
    forall i: nat | Claims(journal, i) ensures Judged(disk, journal, each[i], i) {
    }
    forall i: nat | IsOpen(journal, i) ensures Judged(disk, journal, each[i], i) {
    }
    if EveryClaimHolds(disk, journal) {
      forall i | 0 <= i < |each| ensures each[i].safe <==> IsApplied(journal.entries[i]) {
        assert Judged(disk, journal, each[i], i);
        assert Claims(journal, i) <==> IsApplied(journal.entries[i]);
      }
      CountsOfSafe(journal.entries, each);
    }
  }

  /** The entries that count as completed. */
  function Completed(entries: seq<Entry>): set<nat> {
    set i: nat | i < |entries| && entries[i].Entry? && (entries[i].state == APPLIED || entries[i].state == ROLLED_BACK)
  }

  lemma CompletedGrow(entries: seq<Entry>, entry: Entry)
    ensures Completed(entries + [entry]) == Completed(entries) + if CountsCompleted(entry) then {|entries|} else {}
  {
    var more := entries + [entry];
    assert forall i | 0 <= i < |entries| :: more[i] == entries[i];
  }

  lemma {:induction false} CompletedCounts(entries: seq<Entry>)
    ensures CountCompleted(entries) == |Completed(entries)|
  {
    if entries != [] {
      var init := entries[..|entries| - 1];
      CompletedCounts(init);
      CompletedGrow(init, entries[|entries| - 1]);
      assert init + [entries[|entries| - 1]] == entries;
    }
  }

  /** Without a budget the verdict is what disk and journal say. */
  lemma VerdictIsExact(disk: Disk, journal: Journal)
    ensures var op := InspectRenames(disk, Unlimited, journal).0;
      var danger := exists i: nat :: IsDangerous(disk, journal, i);
      (op.suggested == NoAction <==> IsOver(journal.state)) &&
      (op.suggested == DoNotTouch <==> !IsOver(journal.state) && (danger || !IsApplying(journal.state))) &&
      (op.suggested == SafeRollback <==>
        IsApplying(journal.state) && !danger && EveryClaimHolds(disk, journal) &&
        (exists i: nat :: Claims(journal, i)) && !exists i: nat :: IsOpen(journal, i)) &&
      op.suggested != SafeResume && (op.rollbackPossible <==> op.suggested == SafeRollback) && !op.resumePossible &&
      op.state == (if !IsOver(journal.state) && danger then NormalState.UnsafeToResume else MapState(journal.state)) &&
      op.category == (if op.suggested == NoAction then CompletedHistory
        else if op.suggested == SafeRollback then Recoverable
        else ReviewRequired)
  {
    if !IsOver(journal.state) {
      var each := JudgeFirst(disk, Unlimited, journal, |journal.entries|).each;
      forall i | 0 <= i < |each| ensures Judged(disk, journal, each[i], i) {
        UnlimitedFindings(disk, journal, |each|, i);
        EntryIsJudged(disk, journal, i);
      }
      CountersAgree(disk, journal, each);
      Budget.RenameTallyMeaning(each);
      forall i: nat | IsDangerous(disk, journal, i) ensures Judged(disk, journal, each[i], i) {
      }
    }
  }

  /** And so are its counters, under any budget. */
  lemma CountersAreExact(disk: Disk, limits: Limits, journal: Journal)
    ensures var op := InspectRenames(disk, limits, journal).0;
      op.total == |journal.entries| && op.completed == |Completed(journal.entries)| &&
      op.pending == |journal.entries| - |Completed(journal.entries)|
  {
    CompletedCounts(journal.entries);
  }

  /** Whatever the budget, a safe verdict means the same as without one. */
  lemma SafeVerdictHolds(disk: Disk, limits: Limits, journal: Journal)
    requires InspectRenames(disk, limits, journal).0.suggested == SafeRollback
    ensures IsApplying(journal.state) && EveryClaimHolds(disk, journal) && (exists i: nat :: Claims(journal, i)) &&
      forall i: nat :: !IsOpen(journal, i) && !IsDangerous(disk, journal, i)
  {
    Budget.RenameSafeSurvives(disk, limits, journal);
    VerdictIsExact(disk, journal);
  }

  /** And an entry that cannot be read, or a created link cut off from its root, is refused under every budget. */
  lemma DangerIsRefused(disk: Disk, limits: Limits, journal: Journal, i: nat)
    requires !IsOver(journal.state) && IsDangerous(disk, journal, i)
    ensures var op := InspectRenames(disk, limits, journal).0;
      op.suggested == DoNotTouch && op.state == NormalState.UnsafeToResume
  {
    var n := |journal.entries|;
    Budget.RenameTallyMeaning(JudgeFirst(disk, limits, journal, n).each);
    var before := Undo.FindingOfEntry(disk, limits, journal, n, i);
    var entry := journal.entries[i];
    if entry.Entry? {
      LinkCompared(disk, entry.destination, entry.action.root, None);
      SameWithoutDigest(disk, before, entry.destination, entry.action.root);
    }
  }

  lemma SameWithoutDigest(disk: Disk, limits: Limits, path: Option<Path>, root: Option<Path>)
    ensures Inspect(disk, limits, path, root, None).evidence == Inspect(disk, Unlimited, path, root, None).evidence
  {
  }
}
