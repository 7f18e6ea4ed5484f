/**
 The verdict on a durable shared journal, read off the disk and the journal alone: what stands where
 the plan says, which word each checkpoint has, and nothing of the inspector's own vocabulary.
 */
module SharedVerdict {
  import opened Common
  import opened FileSystem
  import opened Evidence
  import opened Operation
  import opened SharedJournal
  import opened DiskFacts
  import Budget = BudgetSoundness

  // ----- one entry on the disk

  /** Where the entry writes: an absolute or climbing relative path is no destination. */
  function Destination(entry: Entry): Option<Path>
    requires entry.Entry?
  {
    if entry.plan.None? then None
    else match (entry.plan.value.destinationRoot, entry.plan.value.destinationRelative)
      case (Decodes(root), Decodes(relative)) =>
        if relative.absolute || ".." in relative.parts then None
        else Some(Path(root.absolute, root.parts + relative.parts))
      case _ => None
  }

  function DestinationRoot(entry: Entry): Option<Path>
    requires entry.Entry?
  {
    if entry.plan.Some? && entry.plan.value.destinationRoot.Decodes? then Some(entry.plan.value.destinationRoot.path)
    else None
  }

  function RecordedPath(decoded: Option<Decoded>): Option<Path> {
    if decoded.Some? && decoded.value.Decodes? then Some(decoded.value.path) else None
  }

  function Planned(entry: Entry): Option<string>
    requires entry.Entry?
  {
    if entry.plan.Some? then entry.plan.value.sourceDigest else None
  }

  function Previous(entry: Entry): Option<string>
    requires entry.Entry?
  {
    if entry.plan.Some? then entry.plan.value.preDigest else None
  }

  /** The planned bytes are at the destination. */
  ghost predicate IsNew(disk: Disk, entry: Entry)
    requires entry.Entry?
  {
    Holds(disk, Destination(entry), DestinationRoot(entry), Planned(entry))
  }

  /** The bytes from before are; they are recognised only if the plan has a digest, for the file is hashed for that. */
  ghost predicate IsOld(disk: Disk, entry: Entry)
    requires entry.Entry?
  {
    entry.existed == Some(true) && Planned(entry).Some? && Planned(entry).value != "" &&
    Holds(disk, Destination(entry), DestinationRoot(entry), Previous(entry))
  }

  /** There was nothing before and there is nothing now. */
  ghost predicate IsGone(disk: Disk, entry: Entry)
    requires entry.Entry?
  {
    entry.existed == Some(false) && Vacant(disk, Destination(entry), DestinationRoot(entry))
  }

  /** If a backup is needed, it is there with its own digest, or with that of the bytes from before. */
  ghost predicate IsProtected(disk: Disk, journal: Journal, entry: Entry)
    requires entry.Entry?
  {
    entry.existed == Some(true) || (entry.plan.Some? && entry.plan.value.backupRequired) ==>
      Holds(disk, RecordedPath(entry.backupPath), RecordedPath(Some(journal.backupRoot)),
        if entry.backupDigest.Some? then entry.backupDigest else Previous(entry))
  }

  /** The disk bears the entry's checkpoint out, or shows which side of it the crash was. */
  ghost predicate IsSettled(disk: Disk, journal: Journal, entry: Entry) {
    entry.Malformed? ||
    match entry.state
    case DESTINATION_REPLACED | DESTINATION_VERIFIED | APPLIED =>
      IsNew(disk, entry) && IsProtected(disk, journal, entry)
    case PLANNED | APPLYING =>
      if IsNew(disk, entry) then IsProtected(disk, journal, entry) else IsOld(disk, entry) || IsGone(disk, entry)
    case BACKUP_CREATED | DESTINATION_TEMP_WRITTEN =>
      (IsNew(disk, entry) || IsOld(disk, entry) || IsGone(disk, entry)) && IsProtected(disk, journal, entry)
    case ROLLING_BACK =>
      IsOld(disk, entry) || IsGone(disk, entry) || (IsNew(disk, entry) && IsProtected(disk, journal, entry))
    case ROLLED_BACK =>
      (if entry.existed == Some(false) then !Seen(disk, Destination(entry), DestinationRoot(entry))
       else Previous(entry).Some? && Previous(entry).value != "" ==>
         Holds(disk, Destination(entry), DestinationRoot(entry), Previous(entry)))
    case NEEDS_REVIEW | UNSAFE_TO_RESUME => false
    case _ => true
  }

  /** The entry was applied or taken back. */
  ghost predicate IsDone(disk: Disk, entry: Entry) {
    entry.Entry? &&
    match entry.state
    case DESTINATION_REPLACED | DESTINATION_VERIFIED | APPLIED | PLANNED | APPLYING | BACKUP_CREATED
      | DESTINATION_TEMP_WRITTEN => IsNew(disk, entry)
    case ROLLING_BACK => IsNew(disk, entry) || IsOld(disk, entry) || IsGone(disk, entry)
    case ROLLED_BACK =>
      if entry.existed == Some(false) then !Seen(disk, Destination(entry), DestinationRoot(entry))
      else Holds(disk, Destination(entry), DestinationRoot(entry), Previous(entry))
    case _ => false
  }

  /** The source is recorded and is spelt below the approved root. */
  predicate HasBoundSource(disk: Disk, journal: Journal, entry: Entry) {
    entry.Entry? && entry.plan.Some? &&
    match (journal.approvedSourceRoot, entry.plan.value.sourcePath)
    case (Decodes(root), Decodes(source)) => Absolute(disk, root) <= Absolute(disk, source)
    case _ => false
  }

  /** Whatever the disk holds, the record itself cannot be trusted. */
  predicate IsMisrecorded(disk: Disk, journal: Journal, entry: Entry) {
    !HasBoundSource(disk, journal, entry) || Destination(entry).None? ||
    journal.backupRoot.Undecodable? || entry.backupPath == Some(Undecodable) || entry.temporaryPath == Some(Undecodable)
  }

  /** A link, or what looks like one, is on the way to the destination, the backup or the temporary file. */
  ghost predicate IsTangled(disk: Disk, journal: Journal, entry: Entry) {
    entry.Entry? &&
    (LooksLinked(disk, Destination(entry), DestinationRoot(entry), Planned(entry)) ||
     LooksLinked(disk, RecordedPath(entry.backupPath), RecordedPath(Some(journal.backupRoot)),
       if entry.backupDigest.Some? then entry.backupDigest else Previous(entry)) ||
     LooksLinked(disk, RecordedPath(entry.temporaryPath), DestinationRoot(entry), None))
  }

  // ----- the inspector asks just that

  lemma TargetsCompared(disk: Disk, entry: Entry)
    requires entry.Entry?
    ensures TargetOf(disk, entry) == Target(Destination(entry), DestinationRoot(entry), Destination(entry).None?)
  {
    if Destination(entry).Some? {
      var root, relative := entry.plan.value.destinationRoot.path, entry.plan.value.destinationRelative.path;
      assert disk.cwd + (root.parts + relative.parts) == (disk.cwd + root.parts) + relative.parts;
    }
  }

  lemma DestinationProbed(disk: Disk, journal: Journal, entry: Entry)
    requires entry.Entry?
    ensures var g := Gather(disk, Unlimited, journal, entry);
      g.probes.destination ==
        Inspect(disk, Unlimited, Destination(entry), DestinationRoot(entry), Planned(entry)).evidence &&
      g.probes.backup == InspectOptional(disk, Unlimited, RecordedPath(entry.backupPath),
        RecordedPath(Some(journal.backupRoot)), BackupExpected(entry), RecordedPath(entry.backupPath).Some?).0 &&
      g.probes.temporary == InspectOptional(disk, Unlimited, RecordedPath(entry.temporaryPath),
        DestinationRoot(entry), None, RecordedPath(entry.temporaryPath).Some?).0 &&
      g.probes.rolledBack == InspectOptional(disk, Unlimited, Destination(entry), DestinationRoot(entry),
        Previous(entry), RehashesOld(entry)).0 &&
      g.limits == Unlimited
  {
    TargetsCompared(disk, entry);
    EvidenceIsExact(disk, Destination(entry), DestinationRoot(entry), Planned(entry));
    Budget.OptionalOnlyHides(disk, Unlimited, RecordedPath(entry.backupPath), RecordedPath(Some(journal.backupRoot)),
      BackupExpected(entry), RecordedPath(entry.backupPath).Some?);
    Budget.OptionalOnlyHides(disk, Unlimited, RecordedPath(entry.temporaryPath), DestinationRoot(entry), None,
      RecordedPath(entry.temporaryPath).Some?);
    Budget.OptionalOnlyHides(disk, Unlimited, Destination(entry), DestinationRoot(entry), Previous(entry),
      RehashesOld(entry));
  }

  ghost predicate ContentsAgree(disk: Disk, entry: Entry, p: Probes)
    requires entry.Entry?
  {
    (NewMatches(p) <==> IsNew(disk, entry)) && (OldMatches(entry, p) <==> IsOld(disk, entry)) &&
    (AbsentMatches(entry, p) <==> IsGone(disk, entry)) &&
    (p.destination.exists_ <==> Seen(disk, Destination(entry), DestinationRoot(entry)))
  }

  ghost predicate RehashAgrees(disk: Disk, entry: Entry, p: Probes)
    requires entry.Entry?
  {
    (p.rolledBack.Some? <==>
      entry.state == ROLLED_BACK && entry.existed != Some(false) &&
      Previous(entry).Some? && Previous(entry).value != "") &&
    (p.rolledBack.Some? ==>
      (p.rolledBack.value.identityMatches == Some(true) <==>
       Holds(disk, Destination(entry), DestinationRoot(entry), Previous(entry))))
  }

  ghost predicate BackupsAgree(disk: Disk, journal: Journal, entry: Entry, p: Probes)
    requires entry.Entry?
  {
    (BackupNeeded(entry) && !BackupMatches(p) <==> !IsProtected(disk, journal, entry)) &&
    RehashAgrees(disk, entry, p)
  }

  lemma ContentsCompared(disk: Disk, journal: Journal, entry: Entry)
    requires entry.Entry?
    ensures ContentsAgree(disk, entry, Gather(disk, Unlimited, journal, entry).probes)
  {
    DestinationProbed(disk, journal, entry);
    EvidenceIsExact(disk, Destination(entry), DestinationRoot(entry), Planned(entry));
    if Previous(entry).Some? && Previous(entry).value != "" {
      ObservedIsHeld(disk, Destination(entry), DestinationRoot(entry), Planned(entry), Previous(entry));
    }
  }

  lemma BackupCompared(disk: Disk, journal: Journal, entry: Entry)
    requires entry.Entry?
    ensures BackupsAgree(disk, journal, entry, Gather(disk, Unlimited, journal, entry).probes)
  {
    DestinationProbed(disk, journal, entry);
    EvidenceIsExact(disk, RecordedPath(entry.backupPath), RecordedPath(Some(journal.backupRoot)),
      BackupExpected(entry));
    EvidenceIsExact(disk, Destination(entry), DestinationRoot(entry), Previous(entry));
  }

  lemma MarksCompared(disk: Disk, journal: Journal, entry: Entry)
    requires entry.Entry?
    ensures var p := Gather(disk, Unlimited, journal, entry).probes;
      (!MarkOf(entry, p).Unreconciled? && !LacksBackup(entry, p) <==> IsSettled(disk, journal, entry)) &&
      (CountsCompleted(MarkOf(entry, p)) <==> IsDone(disk, entry))
  {
    ContentsCompared(disk, journal, entry);
    BackupCompared(disk, journal, entry);
    var p := Gather(disk, Unlimited, journal, entry).probes;
    SettledCompared(disk, journal, entry, p);
    DoneCompared(disk, entry, p);
  }

  lemma SettledCompared(disk: Disk, journal: Journal, entry: Entry, p: Probes)
    requires entry.Entry? && ContentsAgree(disk, entry, p) && BackupsAgree(disk, journal, entry, p)
    ensures !MarkOf(entry, p).Unreconciled? && !LacksBackup(entry, p) <==> IsSettled(disk, journal, entry)
  {
  }

  lemma DoneCompared(disk: Disk, entry: Entry, p: Probes)
    requires entry.Entry? && ContentsAgree(disk, entry, p) && RehashAgrees(disk, entry, p)
    ensures CountsCompleted(MarkOf(entry, p)) <==> IsDone(disk, entry)
  {
  }

  lemma LinksFound(disk: Disk, journal: Journal, entry: Entry)
    requires entry.Entry?
    ensures var p := Gather(disk, Unlimited, journal, entry).probes;
      IsTangled(disk, journal, entry) <==>
        ReportsLink(p.destination) || (p.backup.Some? && ReportsLink(p.backup.value)) ||
        (p.temporary.Some? && ReportsLink(p.temporary.value))
  {
    DestinationProbed(disk, journal, entry);
    EvidenceIsExact(disk, Destination(entry), DestinationRoot(entry), Planned(entry));
    EvidenceIsExact(disk, RecordedPath(entry.backupPath), RecordedPath(Some(journal.backupRoot)),
      BackupExpected(entry));
    EvidenceIsExact(disk, RecordedPath(entry.temporaryPath), DestinationRoot(entry), None);
  }

  /** Under any budget a record that cannot be trusted is unsafe. */
  lemma MisrecordedIsUnsafe(disk: Disk, limits: Limits, journal: Journal, entry: Entry)
    ensures IsMisrecorded(disk, journal, entry) ==> JudgeEntry(disk, limits, journal, entry).0.unsafe
  {
    if entry.Entry? { TargetsCompared(disk, entry); }
  }

  lemma EntryIsJudged(disk: Disk, journal: Journal, entry: Entry)
    ensures var f := JudgeEntry(disk, Unlimited, journal, entry).0;
      (f.unsafe <==> IsMisrecorded(disk, journal, entry) || IsTangled(disk, journal, entry)) &&
      (!f.ambiguous <==> IsSettled(disk, journal, entry)) &&
      (CountsCompleted(f.mark) <==> IsDone(disk, entry)) &&
      (f.unproven ==> f.unsafe || f.ambiguous)
  {
    if entry.Entry? {
      TargetsCompared(disk, entry);
      MarksCompared(disk, journal, entry);
      LinksFound(disk, journal, entry);
    }
  }

  // ----- the whole journal

  /** The journal as a whole is known, unfinished and in a state that may be rolled back. */
  predicate MayBeUndone(journal: Journal) {
    journal.knownSchema && (journal.state == APPLYING || journal.state == APPLY_FAILED || journal.state == NEEDS_REVIEW)
  }

  predicate IsUnfinished(journal: Journal) {
    journal.knownSchema && journal.state != APPLIED && journal.state != ROLLED_BACK && journal.state != LEGACY_COMPLETE
  }

  ghost predicate AnyUnsafe(disk: Disk, journal: Journal) {
    exists i | 0 <= i < |journal.entries| ::
      IsMisrecorded(disk, journal, journal.entries[i]) || IsTangled(disk, journal, journal.entries[i])
  }

  ghost predicate AllSettled(disk: Disk, journal: Journal) {
    forall i | 0 <= i < |journal.entries| :: IsSettled(disk, journal, journal.entries[i])
  }

  ghost function DoneEntries(disk: Disk, journal: Journal): set<nat> {
    set i: nat | i < |journal.entries| && IsDone(disk, journal.entries[i])
  }

  lemma FindingsAreJudged(disk: Disk, journal: Journal)
    ensures var each := JudgeAll(disk, Unlimited, journal).each;
      ((exists i | 0 <= i < |each| :: each[i].unsafe) <==> AnyUnsafe(disk, journal)) &&
      ((exists i | 0 <= i < |each| :: each[i].ambiguous) <==> !AllSettled(disk, journal)) &&
      Counting(each) == DoneEntries(disk, journal) &&
      ((exists i | 0 <= i < |each| :: each[i].unproven) ==> AnyUnsafe(disk, journal) || !AllSettled(disk, journal))
  {
    var each := JudgeAll(disk, Unlimited, journal).each;
    forall i | 0 <= i < |each|
      ensures (each[i].unsafe <==>
        IsMisrecorded(disk, journal, journal.entries[i]) || IsTangled(disk, journal, journal.entries[i])) &&
        (!each[i].ambiguous <==> IsSettled(disk, journal, journal.entries[i])) &&
        (CountsCompleted(each[i].mark) <==> IsDone(disk, journal.entries[i])) &&
        (each[i].unproven ==> each[i].unsafe || each[i].ambiguous)
    {
      Budget.UnlimitedFindings(disk, journal, |each|, i);
      EntryIsJudged(disk, journal, journal.entries[i]);
    }
  }

  /** What the flags and the counter come to, in each field of the verdict. */
  lemma FlagsDecide(journal: Journal, t: Tally)
    requires t.unproven ==> t.unsafe || t.ambiguous
    ensures var op := Verdict(journal, t);
      (op.suggested == NoAction <==> journal.knownSchema && !IsUnfinished(journal)) &&
      (op.suggested == DoNotTouch <==> !journal.knownSchema || (IsUnfinished(journal) && t.unsafe)) &&
      (op.suggested == SafeRollback <==>
        MayBeUndone(journal) && !t.unsafe && !t.ambiguous && t.completed > 0) &&
      op.suggested != SafeResume &&
      op.state == (if !journal.knownSchema then NormalState.UnknownSchema
        else if op.suggested == DoNotTouch then NormalState.UnsafeToResume
        else MapState(journal.state)) &&
      op.category == (if op.suggested == NoAction then CompletedHistory
        else if op.suggested == SafeRollback then Recoverable
        else ReviewRequired) &&
      (op.rollbackPossible <==> op.suggested == SafeRollback) && !op.resumePossible &&
      op.total == |journal.entries| &&
      (journal.knownSchema ==> op.completed == t.completed && op.pending == |journal.entries| - op.completed)
  {
  }

  /** Without a budget the verdict is what disk and journal say, in each of its fields. */
  lemma VerdictIsExact(disk: Disk, journal: Journal)
    ensures var op := InspectShared(disk, Unlimited, journal).0;
      (op.suggested == NoAction <==> journal.knownSchema && !IsUnfinished(journal)) &&
      (op.suggested == DoNotTouch <==> !journal.knownSchema || (IsUnfinished(journal) && AnyUnsafe(disk, journal))) &&
      (op.suggested == SafeRollback <==>
        MayBeUndone(journal) && !AnyUnsafe(disk, journal) && AllSettled(disk, journal) &&
        DoneEntries(disk, journal) != {}) &&
      op.suggested != SafeResume &&
      op.state == (if !journal.knownSchema then NormalState.UnknownSchema
        else if op.suggested == DoNotTouch then NormalState.UnsafeToResume
        else MapState(journal.state)) &&
      op.category == (if op.suggested == NoAction then CompletedHistory
        else if op.suggested == SafeRollback then Recoverable
        else ReviewRequired) &&
      (op.rollbackPossible <==> op.suggested == SafeRollback) && !op.resumePossible &&
      op.total == |journal.entries| &&
      (journal.knownSchema ==>
        op.completed == |DoneEntries(disk, journal)| && op.pending == |journal.entries| - op.completed)
  {
    TallyIs(disk, journal);
    var t := TallyOf(JudgeAll(disk, Unlimited, journal).each);
    if journal.knownSchema { FlagsDecide(journal, t); }
  }

  lemma TallyIs(disk: Disk, journal: Journal)
    ensures var t := TallyOf(JudgeAll(disk, Unlimited, journal).each);
      (t.unsafe <==> AnyUnsafe(disk, journal)) && (t.ambiguous <==> !AllSettled(disk, journal)) &&
      (t.unproven ==> t.unsafe || t.ambiguous) && t.completed == |DoneEntries(disk, journal)|
  {
    var each := JudgeAll(disk, Unlimited, journal).each;
    TallyFlags(each);
    TallyCounts(each);
    FindingsAreJudged(disk, journal);
  }

  /** The normal state of each word that journals use; any other keeps what its folded text maps to. */
  lemma StatesAreNamed(word: Word)
    ensures var state := MapState(word);
      (state == NormalState.Completed <==> word in {APPLIED, SUCCESS, LEGACY_COMPLETE, UNLISTED(Completed)}) &&
      (state == NormalState.RolledBack <==> word in {ROLLED_BACK, UNLISTED(RolledBack)}) &&
      (state == Applying <==> word in {APPLYING, PLANNED, UNLISTED(Applying)}) &&
      (state == ApplyFailed <==> word in {APPLY_FAILED, PARTIAL_FAILURE, FAILED, UNLISTED(ApplyFailed)}) &&
      (state == RollingBack <==> word in {ROLLING_BACK, UNLISTED(RollingBack)}) &&
      (state == RollbackFailed <==> word in {ROLLBACK_FAILED, UNLISTED(RollbackFailed)}) &&
      (state == NormalState.UnsafeToResume <==> word in {UNSAFE_TO_RESUME, UNLISTED(NormalState.UnsafeToResume)}) &&
      (word.UNLISTED? ==> state == word.mapped)
  {
  }

  // ----- under any budget

  lemma FlagShows(disk: Disk, limits: Limits, journal: Journal, i: nat)
    requires i < |journal.entries| && IsMisrecorded(disk, journal, journal.entries[i])
    ensures TallyOf(JudgeAll(disk, limits, journal).each).unsafe
  {
    TallyFlags(JudgeAll(disk, limits, journal).each);
    var before := FindingOfEntry(disk, limits, journal, |journal.entries|, i);
    MisrecordedIsUnsafe(disk, before, journal, journal.entries[i]);
  }

  /** One entry that is not bound to the approved source root is enough, whatever the budget. */
  lemma MisrecordedIsRefused(disk: Disk, limits: Limits, journal: Journal, i: nat)
    requires IsUnfinished(journal) && i < |journal.entries| && IsMisrecorded(disk, journal, journal.entries[i])
    ensures var op := InspectShared(disk, limits, journal).0;
      op.suggested == DoNotTouch && op.state == NormalState.UnsafeToResume && op.category == ReviewRequired
  {
    FlagShows(disk, limits, journal, i);
  }

  /** So a safe verdict binds every source to the approved root, and every entry is settled on the disk. */
  lemma SafeVerdictBinds(disk: Disk, limits: Limits, journal: Journal)
    requires InspectShared(disk, limits, journal).0.suggested == SafeRollback
    ensures MayBeUndone(journal) && DoneEntries(disk, journal) != {} && AllSettled(disk, journal)
    ensures forall i | 0 <= i < |journal.entries| ::
      var entry := journal.entries[i];
      entry.Entry? && entry.plan.Some? && entry.plan.value.sourcePath.Decodes? &&
      journal.approvedSourceRoot.Decodes? &&
      Absolute(disk, journal.approvedSourceRoot.path) <= Absolute(disk, entry.plan.value.sourcePath.path) &&
      !IsMisrecorded(disk, journal, entry)
  {
    forall i | 0 <= i < |journal.entries| ensures !IsMisrecorded(disk, journal, journal.entries[i]) {
      if IsMisrecorded(disk, journal, journal.entries[i]) { FlagShows(disk, limits, journal, i); }
    }
    SafeIsSettled(disk, limits, journal);
  }

  lemma SafeIsSettled(disk: Disk, limits: Limits, journal: Journal)
    requires InspectShared(disk, limits, journal).0.suggested == SafeRollback
    ensures DoneEntries(disk, journal) != {} && AllSettled(disk, journal)
  {
    var each := JudgeAll(disk, limits, journal).each;
    TallyFlags(each);
    forall i | 0 <= i < |each|
      ensures IsSettled(disk, journal, journal.entries[i]) &&
        (CountsCompleted(each[i].mark) ==> IsDone(disk, journal.entries[i]))
    {
      var before := FindingOfEntry(disk, limits, journal, |each|, i);
      CleanIsSettled(disk, before, journal, journal.entries[i]);
    }
    var i :| 0 <= i < |each| && CountsCompleted(each[i].mark);
    assert i in DoneEntries(disk, journal);
  }

  /** A hash that the budget withheld would have left the entry in doubt. */
  lemma CleanIsSettled(disk: Disk, limits: Limits, journal: Journal, entry: Entry)
    requires var f := JudgeEntry(disk, limits, journal, entry).0; !f.unsafe && !f.ambiguous
    ensures IsSettled(disk, journal, entry)
    ensures CountsCompleted(JudgeEntry(disk, limits, journal, entry).0.mark) <==> IsDone(disk, entry)
  {
    if entry.Entry? {
      Budget.SharedGatherHides(disk, limits, journal, entry);
      Budget.CleanMarkSurvives(entry, Gather(disk, limits, journal, entry).probes,
        Gather(disk, Unlimited, journal, entry).probes);
      MarksCompared(disk, journal, entry);
    }
  }
}
