/**
 What a SAFE_ROLLBACK verdict on a shared journal is worth: undoing exactly the entries the
 inspector marked as applied brings every destination back to its recorded pre-state, in one
 order or in every order, under conditions that are exact.
 */
module SharedRollback {
  import opened Common
  import opened FileSystem
  import opened Evidence
  import opened Operation
  import opened SharedJournal
  import opened UndoJobs

  // ----- the plain meaning of undo

  predicate IsUndone(mark: Mark) {
    mark.AppliedMark? || mark.AppliedAfterGap? || mark.StillApplied?
  }

  /** Restore the backup over a destination that pre-existed, delete one that did not, leave the rest alone. */
  function UndoEntry(disk: Disk, entry: Entry, mark: Mark): Disk
    requires entry.Entry?
  {
    var target := TargetOf(disk, entry).path;
    if !IsUndone(mark) || target.None? || !Lstat(disk, target.value).Found? then disk
    else
      var at := Lstat(disk, target.value).at;
      if entry.existed != Some(true) then disk.(objects := disk.objects - {at})
      else
        var backup := OptionalPath(entry.backupPath);
        if backup.None? || !Stat(disk, backup.value).Found? then disk
        else disk.(objects := disk.objects[at := disk.objects[Stat(disk, backup.value).at]])
  }

  predicate AllDecoded(journal: Journal) {
    forall i | 0 <= i < |journal.entries| :: journal.entries[i].Entry?
  }

  function UndoAll(disk: Disk, journal: Journal, marks: seq<Mark>, order: seq<nat>): Disk
    requires AllDecoded(journal) && |marks| == |journal.entries|
    requires InRange(order, |marks|)
    decreases |order|
  {
    if order == [] then disk
    else UndoAll(UndoEntry(disk, journal.entries[order[0]], marks[order[0]]), journal, marks, order[1..])
  }

  // ----- what the journal records

  /** The destination is in the state the journal recorded before the transaction began. */
  ghost predicate HoldsPreState(disk: Disk, entry: Entry)
    requires entry.Entry?
  {
    var target := TargetOf(disk, entry).path;
    target.Some? &&
    match entry.existed
    case Some(true) =>
      var found := Lstat(disk, target.value);
      found.Found? && IsRegular(disk, found.at) && PreDigest(entry).Some? &&
      SameHex(disk.objects[found.at].sha256, PreDigest(entry).value)
    case Some(false) => Lstat(disk, target.value).Missing?
    case None => false
  }

  ghost predicate AllRestored(disk: Disk, journal: Journal)
    requires AllDecoded(journal)
  {
    forall i | 0 <= i < |journal.entries| :: HoldsPreState(disk, journal.entries[i])
  }

  function MarksOf(disk: Disk, limits: Limits, journal: Journal): (marks: seq<Mark>)
    ensures |marks| == |journal.entries|
  {
    MarksIn(JudgeAll(disk, limits, journal).each)
  }

  /** The digest the backup was proven against is the digest of the pre-state. */
  predicate BackupIsPreState(entry: Entry)
    requires entry.Entry?
  {
    BackupExpected(entry).Some? && PreDigest(entry).Some? &&
    SameHex(BackupExpected(entry).value, PreDigest(entry).value)
  }

  // ----- what a safe verdict establishes about the entries it would undo

  ghost predicate LiterallyFile(disk: Disk, path: Option<Path>) {
    path.Some? && path.value.absolute && IsRegular(disk, path.value.parts) &&
    Lstat(disk, path.value) == Found(path.value.parts) && Stat(disk, path.value) == Found(path.value.parts)
  }

  /** The file to undo, and the backup that undo would put back, are where the entry says, with the recorded digests. */
  ghost predicate Ready(disk: Disk, entry: Entry, mark: Mark)
    requires entry.Entry?
  {
    var target, backup := TargetOf(disk, entry).path, OptionalPath(entry.backupPath);
    IsUndone(mark) ==>
      LiterallyFile(disk, target) && NewDigest(entry).Some? &&
      SameHex(disk.objects[target.value.parts].sha256, NewDigest(entry).value) &&
      (entry.existed == Some(true) ==>
        LiterallyFile(disk, backup) && BackupExpected(entry).Some? &&
        SameHex(disk.objects[backup.value.parts].sha256, BackupExpected(entry).value))
  }

  ghost predicate AllReady(disk: Disk, journal: Journal, marks: seq<Mark>)
    requires AllDecoded(journal) && |marks| == |journal.entries|
  {
    forall i | 0 <= i < |marks| :: Ready(disk, journal.entries[i], marks[i])
  }

  lemma MatchIsLiteral(disk: Disk, limits: Limits, path: Option<Path>, root: Option<Path>, digest: Option<string>)
    requires Inspect(disk, limits, path, root, digest).evidence.observedSha256.Some?
    ensures LiterallyFile(disk, path)
    ensures disk.objects[path.value.parts].sha256 ==
      Inspect(disk, limits, path, root, digest).evidence.observedSha256.value
  {
    SafePathNamesObject(disk, limits, path.value, root, digest);
  }

  lemma AbsenceIsMissing(disk: Disk, limits: Limits, path: Option<Path>, root: Option<Path>, digest: Option<string>)
    requires var e := Inspect(disk, limits, path, root, digest).evidence; !e.exists_ && e.safePath
    ensures path.Some? && Lstat(disk, path.value).Missing?
  {
  }

  lemma TargetIsWithin(disk: Disk, entry: Entry)
    requires entry.Entry? && TargetOf(disk, entry).path.Some?
    ensures TargetOf(disk, entry).root.Some? &&
      IsWithin(disk, TargetOf(disk, entry).path.value, TargetOf(disk, entry).root.value)
  {
  }

  /** No vocabulary, journal field or path is assumed: the checks the inspector made are enough. */
  lemma CleanFindingIsReady(disk: Disk, limits: Limits, journal: Journal, entry: Entry)
    requires entry.Entry?
    requires var f := JudgeEntry(disk, limits, journal, entry).0; !f.unsafe && !f.ambiguous
    ensures Ready(disk, entry, JudgeEntry(disk, limits, journal, entry).0.mark)
  {
    var target := TargetOf(disk, entry);
    var g := Gather(disk, limits, journal, entry);
    var d := Inspect(disk, limits, target.path, target.root, NewDigest(entry));
    var backup := OptionalPath(entry.backupPath);
    if NewMatches(g.probes) {
      MatchIsLiteral(disk, limits, target.path, target.root, NewDigest(entry));
      IdentityIsSound(disk, limits, target.path.value, target.root, NewDigest(entry));
    }
    if BackupMatches(g.probes) {
      MatchIsLiteral(disk, d.limits, backup, PathOf(journal.backupRoot), BackupExpected(entry));
      IdentityIsSound(disk, d.limits, backup.value, PathOf(journal.backupRoot), BackupExpected(entry));
    }
  }

  lemma SafeVerdictIsClean(disk: Disk, limits: Limits, journal: Journal)
    requires InspectShared(disk, limits, journal).0.suggested == SafeRollback
    ensures forall i | 0 <= i < |journal.entries| ::
      var f := JudgeAll(disk, limits, journal).each[i]; !f.unsafe && !f.ambiguous && !f.unproven
  {
    TallyFlags(JudgeAll(disk, limits, journal).each);
  }

  lemma SafeVerdictIsReady(disk: Disk, limits: Limits, journal: Journal)
    requires InspectShared(disk, limits, journal).0.suggested == SafeRollback
    ensures AllDecoded(journal) && AllReady(disk, journal, MarksOf(disk, limits, journal))
  {
    var marks := MarksOf(disk, limits, journal);
    SafeVerdictIsClean(disk, limits, journal);
    forall i | 0 <= i < |marks| ensures journal.entries[i].Entry? && Ready(disk, journal.entries[i], marks[i]) {
      var before := FindingOfEntry(disk, limits, journal, |marks|, i);
      if journal.entries[i].Entry? { CleanFindingIsReady(disk, before, journal, journal.entries[i]); }
    }
  }

  // ----- undo as jobs on places

  function Destination(disk: Disk, entry: Entry): Lookup
    requires entry.Entry?
  {
    var target := TargetOf(disk, entry).path;
    if target.Some? then Lstat(disk, target.value) else Failed
  }

  function BackupPlace(disk: Disk, entry: Entry): Lookup
    requires entry.Entry?
  {
    var backup := OptionalPath(entry.backupPath);
    if backup.Some? then Stat(disk, backup.value) else Failed
  }

  function JobOf(disk: Disk, entry: Entry, mark: Mark): Job
    requires entry.Entry?
  {
    var destination, backup := Destination(disk, entry), BackupPlace(disk, entry);
    if !IsUndone(mark) || !destination.Found? then Keep
    else if entry.existed != Some(true) then Delete(destination.at)
    else if !backup.Found? then Keep
    else Restore(destination.at, backup.at)
  }

  function JobsOf(disk: Disk, journal: Journal, marks: seq<Mark>): (jobs: seq<Job>)
    requires AllDecoded(journal) && |marks| == |journal.entries|
    ensures |jobs| == |journal.entries|
  {
    seq(|marks|, i requires 0 <= i < |marks| => JobOf(disk, journal.entries[i], marks[i]))
  }

  /** The digests the journal recorded for the replaced files. */
  function WantedOf(journal: Journal): (wanted: seq<string>)
    requires AllDecoded(journal)
    ensures |wanted| == |journal.entries|
  {
    seq(|journal.entries|, i requires 0 <= i < |journal.entries| =>
      if PreDigest(journal.entries[i]).Some? then PreDigest(journal.entries[i]).value else "")
  }

  lemma JobsAreOnFiles(disk: Disk, journal: Journal, marks: seq<Mark>)
    requires AllDecoded(journal) && |marks| == |journal.entries| && AllReady(disk, journal, marks)
    ensures OnFiles(disk, JobsOf(disk, journal, marks))
  {
    var jobs := JobsOf(disk, journal, marks);
    forall k | 0 <= k < |jobs| && !jobs[k].Keep?
      ensures IsRegular(disk, jobs[k].at) && (jobs[k].Restore? ==> IsRegular(disk, jobs[k].source))
    {
      assert Ready(disk, journal.entries[k], marks[k]);
    }
  }

  /** After other undo steps a path leads where it led on the inspected disk, or to nothing. */
  lemma LaterLookup(disk: Disk, now: Disk, path: Path, follow: bool)
    requires OnlyShrunk(disk, now)
    ensures var then_ := Walk(disk, StartOf(disk, path), path.parts, follow, MAX_LINKS);
      var now_ := Walk(now, StartOf(now, path), path.parts, follow, MAX_LINKS);
      if then_.Found? && then_.at in now.objects then now_ == then_ else !now_.Found?
    ensures Walk(disk, StartOf(disk, path), path.parts, follow, MAX_LINKS).Found? ==>
      !Walk(now, StartOf(now, path), path.parts, follow, MAX_LINKS).Failed?
    ensures Walk(disk, StartOf(disk, path), path.parts, follow, MAX_LINKS).Missing? ==>
      Walk(now, StartOf(now, path), path.parts, follow, MAX_LINKS).Missing?
  {
    WalkAfterShrink(disk, now, StartOf(disk, path), path.parts, follow, MAX_LINKS);
    if Walk(now, StartOf(disk, path), path.parts, follow, MAX_LINKS).Found? {
      FoundBefore(disk, now, StartOf(disk, path), path.parts, follow, MAX_LINKS);
    }
  }

  /** An undo step, whatever steps came before it, is the job read off the inspected disk. */
  lemma UndoIsJob(disk: Disk, now: Disk, entry: Entry, mark: Mark)
    requires entry.Entry? && OnlyShrunk(disk, now)
    ensures UndoEntry(now, entry, mark) == Perform(now, JobOf(disk, entry, mark))
  {
    var target, backup := TargetOf(disk, entry).path, OptionalPath(entry.backupPath);
    assert TargetOf(now, entry) == TargetOf(disk, entry);
    if target.Some? { LaterLookup(disk, now, target.value, false); }
    if backup.Some? { LaterLookup(disk, now, backup.value, true); }
  }

  lemma {:induction false} UndoAllIsJobs(disk: Disk, now: Disk, journal: Journal, marks: seq<Mark>, order: seq<nat>)
    requires AllDecoded(journal) && |marks| == |journal.entries| && InRange(order, |marks|)
    requires OnlyShrunk(disk, now) && OnFiles(disk, JobsOf(disk, journal, marks))
    ensures UndoAll(now, journal, marks, order) == PerformAll(now, JobsOf(disk, journal, marks), order)
    decreases |order|
  {
    if order != [] {
      var jobs := JobsOf(disk, journal, marks);
      UndoIsJob(disk, now, journal.entries[order[0]], marks[order[0]]);
      OneShrinks(disk, now, jobs[order[0]]);
      UndoAllIsJobs(disk, Perform(now, jobs[order[0]]), journal, marks, order[1..]);
    }
  }

  // ----- pre-states and digests

  lemma PreStateByDigests(a: Disk, b: Disk, entry: Entry)
    requires entry.Entry? && SameDigests(a, b) && HoldsPreState(a, entry)
    ensures HoldsPreState(b, entry)
  {
    var target := TargetOf(a, entry).path;
    assert TargetOf(b, entry) == TargetOf(a, entry);
    WalkOnShape(a, b, StartOf(a, target.value), target.value.parts, false, MAX_LINKS);
  }

  /** Where every pre-state holds, every restored file is as wanted. */
  lemma RestoredIsWanted(disk: Disk, now: Disk, journal: Journal, marks: seq<Mark>)
    requires AllDecoded(journal) && |marks| == |journal.entries|
    requires OnlyShrunk(disk, now) && AllRestored(now, journal)
    ensures AllAsWanted(now, JobsOf(disk, journal, marks), WantedOf(journal))
  {
    var jobs, wanted := JobsOf(disk, journal, marks), WantedOf(journal);
    forall j | 0 <= j < |jobs| && jobs[j].Restore? ensures HasDigest(now, jobs[j].at, wanted[j]) {
      var entry := journal.entries[j];
      assert HoldsPreState(now, entry) && TargetOf(now, entry) == TargetOf(disk, entry);
      LaterLookup(disk, now, TargetOf(disk, entry).path.value, false);
    }
  }

  lemma AimIsRestored(disk: Disk, end: Disk, journal: Journal, marks: seq<Mark>)
    requires AllDecoded(journal) && |marks| == |journal.entries|
    requires SameDigests(end, Aim(disk, JobsOf(disk, journal, marks), WantedOf(journal)))
    ensures AllRestored(end, journal) <==>
      AllRestored(Aim(disk, JobsOf(disk, journal, marks), WantedOf(journal)), journal)
  {
    var aim := Aim(disk, JobsOf(disk, journal, marks), WantedOf(journal));
    forall i | 0 <= i < |journal.entries|
      ensures HoldsPreState(end, journal.entries[i]) <==> HoldsPreState(aim, journal.entries[i])
    {
      if HoldsPreState(end, journal.entries[i]) { PreStateByDigests(end, aim, journal.entries[i]); }
      if HoldsPreState(aim, journal.entries[i]) { PreStateByDigests(aim, end, journal.entries[i]); }
    }
  }

  // ----- every order

  ghost predicate EveryOrderRestores(disk: Disk, journal: Journal, marks: seq<Mark>)
    requires AllDecoded(journal) && |marks| == |journal.entries|
  {
    forall order | InRange(order, |marks|) && IsOrder(order, |marks|) ::
      AllRestored(UndoAll(disk, journal, marks, order), journal)
  }

  /** The recorded pre-states are those of one disk: no created file left, the recorded digest in each replaced one. */
  ghost predicate PreStatesFit(disk: Disk, journal: Journal, marks: seq<Mark>)
    requires AllDecoded(journal) && |marks| == |journal.entries|
  {
    AllRestored(Aim(disk, JobsOf(disk, journal, marks), WantedOf(journal)), journal)
  }

  /** Backups hold the recorded digests, and keep or regain them whatever else is undone first. */
  predicate BackupsServe(disk: Disk, journal: Journal, marks: seq<Mark>)
    requires AllDecoded(journal) && |marks| == |journal.entries|
  {
    var jobs, wanted := JobsOf(disk, journal, marks), WantedOf(journal);
    SourcesHold(disk, jobs, wanted) && SourcesAgree(jobs, wanted) && SourcesLast(disk, jobs, wanted)
  }

  lemma EndOfOrder(disk: Disk, journal: Journal, marks: seq<Mark>, order: seq<nat>)
    requires AllDecoded(journal) && |marks| == |journal.entries| && AllReady(disk, journal, marks)
    requires InRange(order, |marks|) && IsOrder(order, |marks|)
    ensures var jobs, wanted := JobsOf(disk, journal, marks), WantedOf(journal);
      var end := UndoAll(disk, journal, marks, order);
      OnFiles(disk, jobs) && end == PerformAll(disk, jobs, order) &&
      (AllRestored(end, journal) <==> AllAsWanted(end, jobs, wanted) && PreStatesFit(disk, journal, marks))
  {
    var jobs, wanted := JobsOf(disk, journal, marks), WantedOf(journal);
    JobsAreOnFiles(disk, journal, marks);
    UndoAllIsJobs(disk, disk, journal, marks, order);
    var end := PerformAll(disk, jobs, order);
    AllShrink(disk, disk, jobs, order);
    if AllRestored(end, journal) { RestoredIsWanted(disk, end, journal, marks); }
    if AllAsWanted(end, jobs, wanted) {
      AimIsMet(disk, jobs, wanted, order);
      AimIsRestored(disk, end, journal, marks);
    }
  }

  /**
   After a safe verdict on any journal, every order of undo restores every recorded pre-state,
   exactly when the pre-states fit together and the backups serve.
   */
  lemma EveryOrderRestoresExactly(disk: Disk, limits: Limits, journal: Journal)
    requires InspectShared(disk, limits, journal).0.suggested == SafeRollback
    ensures AllDecoded(journal)
    ensures var marks := MarksOf(disk, limits, journal);
      EveryOrderRestores(disk, journal, marks) <==>
        PreStatesFit(disk, journal, marks) && BackupsServe(disk, journal, marks)
  {
    SafeVerdictIsReady(disk, limits, journal);
    var marks := MarksOf(disk, limits, journal);
    EveryOrderOfReady(disk, journal, marks);
  }

  lemma EveryOrderOfReady(disk: Disk, journal: Journal, marks: seq<Mark>)
    requires AllDecoded(journal) && |marks| == |journal.entries| && AllReady(disk, journal, marks)
    ensures EveryOrderRestores(disk, journal, marks) <==>
      PreStatesFit(disk, journal, marks) && BackupsServe(disk, journal, marks)
  {
    var jobs, wanted := JobsOf(disk, journal, marks), WantedOf(journal);
    JobsAreOnFiles(disk, journal, marks);
    EveryOrderWorksExactly(disk, jobs, wanted);
    if EveryOrderRestores(disk, journal, marks) {
      var some := CompleteOrder(|marks|, []);
      EndOfOrder(disk, journal, marks, some);
      forall order | InRange(order, |jobs|) && IsOrder(order, |jobs|)
        ensures AllAsWanted(PerformAll(disk, jobs, order), jobs, wanted)
      {
        EndOfOrder(disk, journal, marks, order);
        assert AllRestored(UndoAll(disk, journal, marks, order), journal);
      }
    }
    if PreStatesFit(disk, journal, marks) && BackupsServe(disk, journal, marks) {
      AimShape(disk, jobs, wanted);
      RestoredIsWanted(disk, Aim(disk, jobs, wanted), journal, marks);
      AimAgrees(disk, jobs, wanted);
      forall order | InRange(order, |marks|) && IsOrder(order, |marks|)
        ensures AllRestored(UndoAll(disk, journal, marks, order), journal)
      {
        EndOfOrder(disk, journal, marks, order);
        assert AllAsWanted(PerformAll(disk, jobs, order), jobs, wanted);
      }
    }
  }

  // ----- one order, when the undone entries keep apart

  /** No other undone entry writes where a replaced file or its backup is. */
  ghost predicate Apart(disk: Disk, journal: Journal, marks: seq<Mark>)
    requires AllDecoded(journal) && |marks| == |journal.entries|
  {
    forall i, j | 0 <= i < |marks| && 0 <= j < |marks| && i != j && IsUndone(marks[i]) && IsUndone(marks[j]) ::
      journal.entries[i].existed == Some(true) ==>
        Destination(disk, journal.entries[j]) != Destination(disk, journal.entries[i]) &&
        Destination(disk, journal.entries[j]) != BackupPlace(disk, journal.entries[i])
  }

  /** Each backup that undo puts back was recorded with the pre-state's digest. */
  ghost predicate BackupsArePreStates(journal: Journal, marks: seq<Mark>)
    requires AllDecoded(journal) && |marks| == |journal.entries|
  {
    forall i | 0 <= i < |marks| && IsUndone(marks[i]) && journal.entries[i].existed == Some(true) ::
      BackupIsPreState(journal.entries[i])
  }

  lemma BackupHasDigest(disk: Disk, entry: Entry, mark: Mark)
    requires entry.Entry? && Ready(disk, entry, mark) && IsUndone(mark) && entry.existed == Some(true) &&
      PreDigest(entry).Some?
    ensures JobOf(disk, entry, mark).Restore?
    ensures HasDigest(disk, JobOf(disk, entry, mark).source, PreDigest(entry).value) <==> BackupIsPreState(entry)
  {
  }

  lemma EndWhenApart(disk: Disk, journal: Journal, marks: seq<Mark>, order: seq<nat>, j: nat)
    requires AllDecoded(journal) && |marks| == |journal.entries| && AllReady(disk, journal, marks) &&
      Apart(disk, journal, marks)
    requires InRange(order, |marks|) && IsOrder(order, |marks|) && j < |marks|
    ensures var jobs := JobsOf(disk, journal, marks); var end := PerformAll(disk, jobs, order);
      jobs[j].Restore? ==> jobs[j].at in end.objects && end.objects[jobs[j].at] == disk.objects[jobs[j].source]
  {
    var jobs := JobsOf(disk, journal, marks);
    JobsAreOnFiles(disk, journal, marks);
    if jobs[j].Restore? {
      forall i, m | 0 <= i < |jobs| && 0 <= m < |jobs| && i != m && jobs[i].Restore?
        ensures !Touches(jobs[m], jobs[i].at) && !Touches(jobs[m], jobs[i].source)
      {
        assert IsUndone(marks[m]) ==> Destination(disk, journal.entries[m]) != Destination(disk, journal.entries[i]);
      }
      assert j in order;
      var k :| 0 <= k < |order| && order[k] == j;
      RestoredFromSource(disk, jobs, order, k);
    }
  }

  lemma WantedWhenApart(disk: Disk, journal: Journal, marks: seq<Mark>, order: seq<nat>)
    requires AllDecoded(journal) && |marks| == |journal.entries| && AllReady(disk, journal, marks) &&
      Apart(disk, journal, marks)
    requires InRange(order, |marks|) && IsOrder(order, |marks|)
    requires forall i | 0 <= i < |marks| && journal.entries[i].existed == Some(true) && IsUndone(marks[i]) ::
      PreDigest(journal.entries[i]).Some?
    ensures AllAsWanted(PerformAll(disk, JobsOf(disk, journal, marks), order), JobsOf(disk, journal, marks),
      WantedOf(journal))
      <==> BackupsArePreStates(journal, marks)
  {
    var jobs, wanted := JobsOf(disk, journal, marks), WantedOf(journal);
    var end := PerformAll(disk, jobs, order);
    JobsAreOnFiles(disk, journal, marks);
    forall j | 0 <= j < |marks|
      ensures jobs[j].Restore? <==> IsUndone(marks[j]) && journal.entries[j].existed == Some(true)
      ensures jobs[j].Restore? ==> (HasDigest(end, jobs[j].at, wanted[j]) <==> BackupIsPreState(journal.entries[j]))
    {
      assert Ready(disk, journal.entries[j], marks[j]);
      if jobs[j].Restore? {
        EndWhenApart(disk, journal, marks, order, j);
        BackupHasDigest(disk, journal.entries[j], marks[j]);
      }
    }
  }

  /**
   Where undone entries keep apart, one order restores exactly when the pre-states fit and each backup
   is its pre-state.
   */
  lemma AnyOneOrder(disk: Disk, journal: Journal, marks: seq<Mark>, order: seq<nat>)
    requires AllDecoded(journal) && |marks| == |journal.entries| && AllReady(disk, journal, marks) &&
      Apart(disk, journal, marks)
    requires InRange(order, |marks|) && IsOrder(order, |marks|)
    ensures AllRestored(UndoAll(disk, journal, marks, order), journal) <==>
      PreStatesFit(disk, journal, marks) && BackupsArePreStates(journal, marks)
  {
    EndOfOrder(disk, journal, marks, order);
    if PreStatesFit(disk, journal, marks) {
      forall i | 0 <= i < |marks| && journal.entries[i].existed == Some(true)
        ensures PreDigest(journal.entries[i]).Some?
      {
        assert HoldsPreState(Aim(disk, JobsOf(disk, journal, marks), WantedOf(journal)), journal.entries[i]);
      }
      WantedWhenApart(disk, journal, marks, order);
    }
  }

  // ----- the same, read off the inspected disk

  /** No entry's destination is where another's destination or backup is. */
  ghost predicate Separate(disk: Disk, journal: Journal)
    requires AllDecoded(journal)
  {
    forall i, j | 0 <= i < |journal.entries| && 0 <= j < |journal.entries| && i != j &&
      Destination(disk, journal.entries[j]).Found? ::
      Destination(disk, journal.entries[i]) != Destination(disk, journal.entries[j]) &&
      BackupPlace(disk, journal.entries[i]) != Destination(disk, journal.entries[j])
  }

  /** The destinations that are left alone can be looked at. */
  ghost predicate OthersVisible(disk: Disk, journal: Journal, marks: seq<Mark>)
    requires AllDecoded(journal) && |marks| == |journal.entries|
  {
    forall i | 0 <= i < |marks| && !IsUndone(marks[i]) :: !Destination(disk, journal.entries[i]).Failed?
  }

  /** What the caller checks of one entry: its recorded fields if it is undone, the disk as it is if not. */
  ghost predicate Restorable(disk: Disk, entry: Entry, mark: Mark)
    requires entry.Entry?
  {
    if IsUndone(mark) then entry.existed.Some? && (entry.existed == Some(true) ==> BackupIsPreState(entry))
    else HoldsPreState(disk, entry)
  }

  /** The entry says whether its file existed, and if so names a digest. */
  predicate SaysPreState(entry: Entry)
    requires entry.Entry?
  {
    entry.existed.Some? && (entry.existed == Some(true) ==> PreDigest(entry).Some?)
  }

  lemma OtherOnAim(disk: Disk, journal: Journal, marks: seq<Mark>, i: nat)
    requires AllDecoded(journal) && |marks| == |journal.entries| && AllReady(disk, journal, marks) &&
      Separate(disk, journal)
    requires i < |marks| && !IsUndone(marks[i]) && !Destination(disk, journal.entries[i]).Failed?
    ensures HoldsPreState(Aim(disk, JobsOf(disk, journal, marks), WantedOf(journal)), journal.entries[i])
      <==> HoldsPreState(disk, journal.entries[i])
  {
    var jobs, wanted, entry := JobsOf(disk, journal, marks), WantedOf(journal), journal.entries[i];
    var aim := Aim(disk, jobs, wanted);
    JobsAreOnFiles(disk, journal, marks);
    AimShape(disk, jobs, wanted);
    assert TargetOf(aim, entry) == TargetOf(disk, entry);
    LaterLookup(disk, aim, TargetOf(disk, entry).path.value, false);
    if Destination(disk, entry).Found? {
      var at := Destination(disk, entry).at;
      forall k | 0 <= k < |jobs| ensures !Touches(jobs[k], at) {
        assert k != i ==> Destination(disk, journal.entries[k]) != Destination(disk, entry);
      }
      if disk.objects[at].Regular? { AimAtMeaning(disk.objects[at], jobs, wanted, at); }
    }
  }

  lemma UndoneOnAim(disk: Disk, journal: Journal, marks: seq<Mark>, i: nat)
    requires AllDecoded(journal) && |marks| == |journal.entries| && AllReady(disk, journal, marks) &&
      Separate(disk, journal)
    requires i < |marks| && IsUndone(marks[i])
    ensures HoldsPreState(Aim(disk, JobsOf(disk, journal, marks), WantedOf(journal)), journal.entries[i])
      <==> SaysPreState(journal.entries[i])
  {
    var jobs, wanted, entry := JobsOf(disk, journal, marks), WantedOf(journal), journal.entries[i];
    var aim := Aim(disk, jobs, wanted);
    JobsAreOnFiles(disk, journal, marks);
    AimShape(disk, jobs, wanted);
    assert Ready(disk, entry, marks[i]) && TargetOf(aim, entry) == TargetOf(disk, entry);
    LaterLookup(disk, aim, TargetOf(disk, entry).path.value, false);
    var at := Destination(disk, entry).at;
    forall k | 0 <= k < |jobs| && k != i ensures !Touches(jobs[k], at) {
      assert Destination(disk, journal.entries[k]) != Destination(disk, entry);
    }
    AimAtMeaning(disk.objects[at], jobs, wanted, at);
    if entry.existed != Some(true) {
      assert jobs[i] == Delete(at);
      assert IsDeleted(jobs, at);
    } else {
      assert Restores(jobs[i], at);
    }
  }

  /**
   After a safe verdict on a journal whose destinations and backups keep to places of their own,
   any order of undo restores every recorded pre-state, exactly when each undone entry has its
   pre-state for a backup and each entry left alone is in its pre-state already.
   */
  lemma RollbackRestores(disk: Disk, limits: Limits, journal: Journal, order: seq<nat>)
    requires InspectShared(disk, limits, journal).0.suggested == SafeRollback
    requires AllDecoded(journal) && Separate(disk, journal) &&
      OthersVisible(disk, journal, MarksOf(disk, limits, journal))
    requires IsOrder(order, |journal.entries|) && InRange(order, |journal.entries|)
    ensures var marks := MarksOf(disk, limits, journal);
      AllRestored(UndoAll(disk, journal, marks, order), journal) <==>
      forall i | 0 <= i < |marks| :: Restorable(disk, journal.entries[i], marks[i])
  {
    var marks := MarksOf(disk, limits, journal);
    SafeVerdictIsReady(disk, limits, journal);
    SeparateIsApart(disk, journal, marks);
    AnyOneOrder(disk, journal, marks, order);
    forall i | 0 <= i < |marks|
      ensures IsUndone(marks[i]) ==>
        (HoldsPreState(Aim(disk, JobsOf(disk, journal, marks), WantedOf(journal)), journal.entries[i])
        <==> SaysPreState(journal.entries[i]))
      ensures !IsUndone(marks[i]) ==>
        (HoldsPreState(Aim(disk, JobsOf(disk, journal, marks), WantedOf(journal)), journal.entries[i]) <==>
          HoldsPreState(disk, journal.entries[i]))
    {
      if IsUndone(marks[i]) { UndoneOnAim(disk, journal, marks, i); } else { OtherOnAim(disk, journal, marks, i); }
    }
  }

  lemma SeparateIsApart(disk: Disk, journal: Journal, marks: seq<Mark>)
    requires AllDecoded(journal) && |marks| == |journal.entries| && AllReady(disk, journal, marks) &&
      Separate(disk, journal)
    ensures Apart(disk, journal, marks)
  {
    forall j | 0 <= j < |marks| && IsUndone(marks[j]) ensures Destination(disk, journal.entries[j]).Found? {
      assert Ready(disk, journal.entries[j], marks[j]);
    }
  }

  // ----- what the journal's own fields guarantee

  predicate InVocabulary(state: Word) {
    Mutated(state) || NotYetMutated(state) || state == ROLLING_BACK || state == ROLLED_BACK ||
    state == NEEDS_REVIEW || state == UNSAFE_TO_RESUME
  }

  /** The entry is in the code's vocabulary, says whether its file existed, and a rolled-back one says what it was. */
  predicate RecordsPreState(entry: Entry)
    requires entry.Entry?
  {
    InVocabulary(entry.state) && entry.existed.Some? &&
    (entry.state == ROLLED_BACK && entry.existed == Some(true) ==> IsRecorded(PreDigest(entry)))
  }

  /** A destination that claims to be deleted again can be looked at: absolute, normalised, no lookup error. */
  predicate Observable(disk: Disk, entry: Entry)
    requires entry.Entry?
  {
    var target := TargetOf(disk, entry).path;
    entry.state == ROLLED_BACK && entry.existed == Some(false) && target.Some? ==>
      target.value.absolute && !HasParentStep(target.value) && !Lstat(disk, target.value).Failed?
  }

  ghost predicate WellRecorded(disk: Disk, journal: Journal) {
    AllDecoded(journal) && Separate(disk, journal) &&
    forall i | 0 <= i < |journal.entries| :: RecordsPreState(journal.entries[i]) && Observable(disk, journal.entries[i])
  }

  /** Undo finds what it needs, and what it leaves alone is in its pre-state. */
  ghost predicate Established(disk: Disk, entry: Entry, mark: Mark)
    requires entry.Entry?
  {
    Ready(disk, entry, mark) && (!IsUndone(mark) ==> HoldsPreState(disk, entry))
  }

  /** Each mark's claim about the disk is true. */
  lemma CleanFindingEstablishes(disk: Disk, limits: Limits, journal: Journal, entry: Entry)
    requires entry.Entry? && RecordsPreState(entry) && Observable(disk, entry)
    requires var f := JudgeEntry(disk, limits, journal, entry).0; !f.unsafe && !f.ambiguous
    ensures Established(disk, entry, JudgeEntry(disk, limits, journal, entry).0.mark)
  {
    CleanFindingIsReady(disk, limits, journal, entry);
    if !IsUndone(JudgeEntry(disk, limits, journal, entry).0.mark) {
      CleanFindingLeavesPreState(disk, limits, journal, entry);
    }
  }

  lemma CleanFindingLeavesPreState(disk: Disk, limits: Limits, journal: Journal, entry: Entry)
    requires entry.Entry? && RecordsPreState(entry) && Observable(disk, entry)
    requires var f := JudgeEntry(disk, limits, journal, entry).0; !f.unsafe && !f.ambiguous && !IsUndone(f.mark)
    ensures HoldsPreState(disk, entry)
  {
    var target := TargetOf(disk, entry);
    var g := Gather(disk, limits, journal, entry);
    TargetIsWithin(disk, entry);
    if OldMatches(entry, g.probes) {
      MatchIsLiteral(disk, limits, target.path, target.root, NewDigest(entry));
    } else if AbsentMatches(entry, g.probes) {
      AbsenceIsMissing(disk, limits, target.path, target.root, NewDigest(entry));
    } else if g.probes.rolledBack.Some? {
      RolledBackIsLiteral(disk, limits, journal, entry);
    }
  }

  lemma RolledBackIsLiteral(disk: Disk, limits: Limits, journal: Journal, entry: Entry)
    requires entry.Entry? && RehashesOld(entry)
    requires Gather(disk, limits, journal, entry).probes.rolledBack.value.identityMatches == Some(true)
    ensures var target := TargetOf(disk, entry).path;
      LiterallyFile(disk, target) && SameHex(disk.objects[target.value.parts].sha256, PreDigest(entry).value)
  {
    var target := TargetOf(disk, entry);
    var d := Inspect(disk, limits, target.path, target.root, NewDigest(entry));
    var backup := OptionalPath(entry.backupPath);
    var (_, lb) := InspectOptional(disk, d.limits, backup, PathOf(journal.backupRoot), BackupExpected(entry),
      backup.Some?);
    var temporary := OptionalPath(entry.temporaryPath);
    var (_, lt) := InspectOptional(disk, lb, temporary, target.root, None, temporary.Some?);
    MatchIsLiteral(disk, lt, target.path, target.root, PreDigest(entry));
    IdentityIsSound(disk, lt, target.path.value, target.root, PreDigest(entry));
  }

  /** With well-recorded entries a safe verdict means that whatever is left alone is in its pre-state. */
  lemma SafeVerdictEstablishes(disk: Disk, limits: Limits, journal: Journal)
    requires InspectShared(disk, limits, journal).0.suggested == SafeRollback && WellRecorded(disk, journal)
    ensures var marks := MarksOf(disk, limits, journal);
      OthersVisible(disk, journal, marks) &&
      forall i | 0 <= i < |marks| :: Established(disk, journal.entries[i], marks[i])
  {
    var marks := MarksOf(disk, limits, journal);
    SafeVerdictIsClean(disk, limits, journal);
    forall i | 0 <= i < |marks|
      ensures Established(disk, journal.entries[i], marks[i])
      ensures !IsUndone(marks[i]) ==> !Destination(disk, journal.entries[i]).Failed?
    {
      var before := FindingOfEntry(disk, limits, journal, |marks|, i);
      CleanFindingEstablishes(disk, before, journal, journal.entries[i]);
    }
  }

  /** After a safe verdict on a well-recorded journal only the backups' digests are left to compare. */
  lemma WellRecordedRestores(disk: Disk, limits: Limits, journal: Journal, order: seq<nat>)
    requires InspectShared(disk, limits, journal).0.suggested == SafeRollback && WellRecorded(disk, journal)
    requires IsOrder(order, |journal.entries|) && InRange(order, |journal.entries|)
    ensures var marks := MarksOf(disk, limits, journal);
      AllRestored(UndoAll(disk, journal, marks, order), journal) <==> BackupsArePreStates(journal, marks)
  {
    var marks := MarksOf(disk, limits, journal);
    SafeVerdictEstablishes(disk, limits, journal);
    RollbackRestores(disk, limits, journal, order);
    forall i | 0 <= i < |marks|
      ensures Restorable(disk, journal.entries[i], marks[i]) <==>
        (IsUndone(marks[i]) && journal.entries[i].existed == Some(true) ==> BackupIsPreState(journal.entries[i]))
    {
      assert Established(disk, journal.entries[i], marks[i]) && RecordsPreState(journal.entries[i]);
    }
  }
}
