/**
 Journals the inspector calls SAFE_ROLLBACK although no order of undo, or not every order, restores
 the recorded pre-states, each with the condition of the rollback theorems that it fails.
 */
module SharedBlindSpots {
  import opened Common
  import opened FileSystem
  import opened Evidence
  import opened Operation
  import opened SharedJournal
  import opened SharedRollback
  import opened UndoJobs
  import BudgetSoundness

  const TOP := Decodes(Path(true, []))

  function FileNamed(sha256: string): Object {
    Regular(sha256, 1, 0, 0, 0, true)
  }

  function DiskWith(files: map<Location, Object>): Disk {
    Disk(map[[] := Directory(true)] + files, [])
  }

  function EntryAt(root: Decoded, name: Name, state: Word, existed: bool, newDigest: string,
      oldDigest: Option<string>, backup: Option<Decoded>)
    : Entry
  {
    Entry(Some(Plan(root, Decodes(Path(false, [name])), TOP, Some(newDigest), oldDigest, false)), state,
      Some(existed), backup, None, None)
  }

  function JournalOf(entries: seq<Entry>): Journal {
    Journal(true, APPLYING, TOP, TOP, entries)
  }

  lemma RootChildLookup(disk: Disk, name: Name, follow: bool)
    requires name != ".." && [] in disk.objects && disk.objects[[]] == Directory(true)
    requires [name] in disk.objects ==> !disk.objects[[name]].Symlink?
    ensures Walk(disk, [], [name], follow, MAX_LINKS) == if [name] in disk.objects then Found([name]) else Missing
    ensures LinkProblem(disk, Path(true, [name]), false).None?
  {
    assert [] + [name] == [name] && [name][1..] == [];
  }

  lemma VerdictOfOne(disk: Disk, limits: Limits, journal: Journal, f: Finding)
    requires |journal.entries| == 1 && JudgeEntry(disk, limits, journal, journal.entries[0]).0 == f
    requires !f.unsafe && !f.ambiguous && !f.unproven && CountsCompleted(f.mark)
    requires journal.knownSchema && MayRollBack(journal.state) && !IsTerminal(journal.state)
    ensures InspectShared(disk, limits, journal).0.suggested == SafeRollback
    ensures MarksOf(disk, limits, journal) == [f.mark]
  {
    OneJudged(disk, limits, journal, f);
    SingleTally(f);
    VerdictFollows(disk, limits, journal, [f]);
    MarksFollow(disk, limits, journal, [f], [f.mark]);
  }

  lemma SingleTally(f: Finding)
    ensures TallyOf([f]) == AddTo(Tally(false, false, false, 0), f)
  {
    assert [f][..0] == [];
  }

  lemma MarksFollow(disk: Disk, limits: Limits, journal: Journal, each: seq<Finding>, marks: seq<Mark>)
    requires JudgeAll(disk, limits, journal).each == each && |marks| == |each|
    requires forall k | 0 <= k < |each| :: marks[k] == each[k].mark
    ensures MarksOf(disk, limits, journal) == marks
  {
  }

  lemma OneJudged(disk: Disk, limits: Limits, journal: Journal, f: Finding)
    requires |journal.entries| == 1 && JudgeEntry(disk, limits, journal, journal.entries[0]).0 == f
    ensures JudgeAll(disk, limits, journal).each == [f]
  {
    assert JudgeFirst(disk, limits, journal, 0) == Findings([], limits);
    assert JudgeFirst(disk, limits, journal, 1).each == [] + [f];
  }

  lemma VerdictFollows(disk: Disk, limits: Limits, journal: Journal, each: seq<Finding>)
    requires JudgeAll(disk, limits, journal).each == each && each != []
    requires var t := TallyOf(each); !t.unsafe && !t.ambiguous && !t.unproven && t.completed > 0
    requires journal.knownSchema && MayRollBack(journal.state) && !IsTerminal(journal.state)
    ensures InspectShared(disk, limits, journal).0.suggested == SafeRollback
  {
  }

  function Clean(mark: Mark): Finding {
    Finding(mark, false, false, false)
  }

  lemma VerdictOfTwo(disk: Disk, journal: Journal, m: Mark, n: Mark)
    requires |journal.entries| == 2
    requires JudgeEntry(disk, Unlimited, journal, journal.entries[0]) == (Clean(m), Unlimited)
    requires JudgeEntry(disk, Unlimited, journal, journal.entries[1]) == (Clean(n), Unlimited)
    requires CountsCompleted(m) && journal.knownSchema && MayRollBack(journal.state) && !IsTerminal(journal.state)
    ensures InspectShared(disk, Unlimited, journal).0.suggested == SafeRollback
    ensures MarksOf(disk, Unlimited, journal) == [m, n]
  {
    TwoJudged(disk, journal, Clean(m), Clean(n));
    PairTally(Clean(m), Clean(n));
    VerdictFollows(disk, Unlimited, journal, [Clean(m), Clean(n)]);
    MarksFollow(disk, Unlimited, journal, [Clean(m), Clean(n)], [m, n]);
  }

  lemma TwoJudged(disk: Disk, journal: Journal, f: Finding, g: Finding)
    requires |journal.entries| == 2
    requires JudgeEntry(disk, Unlimited, journal, journal.entries[0]) == (f, Unlimited)
    requires JudgeEntry(disk, Unlimited, journal, journal.entries[1]) == (g, Unlimited)
    ensures JudgeAll(disk, Unlimited, journal).each == [f, g]
  {
    assert JudgeFirst(disk, Unlimited, journal, 0) == Findings([], Unlimited);
    assert JudgeFirst(disk, Unlimited, journal, 1) == Findings([] + [f], Unlimited);
    assert JudgeFirst(disk, Unlimited, journal, 2) == Findings([] + [f] + [g], Unlimited);
  }

  lemma PairTally(f: Finding, g: Finding)
    ensures TallyOf([f, g]) == AddTo(AddTo(Tally(false, false, false, 0), f), g)
  {
    SingleTally(f);
    assert [f, g][..1] == [f];
  }

  // ----- evidence about a file directly below the root

  lemma ChildEvidence(disk: Disk, name: Name, digest: Option<string>)
    requires name != ".." && [] in disk.objects && disk.objects[[]] == Directory(true)
    requires [name] in disk.objects ==> disk.objects[[name]].Regular? && disk.objects[[name]].readable
    ensures var p := Inspect(disk, Unlimited, Some(Path(true, [name])), Some(Path(true, [])), digest);
      p.limits == Unlimited && p.evidence.safePath && p.evidence.problem.None? &&
      (p.evidence.exists_ <==> [name] in disk.objects) &&
      (IsRecorded(digest) && [name] in disk.objects ==>
        p.evidence.identityMatches == Some(SameHex(disk.objects[[name]].sha256, digest.value)))
  {
    RootChildLookup(disk, name, false);
  }

  lemma ChildTarget(disk: Disk, name: Name, state: Word, existed: bool, newDigest: string, oldDigest: Option<string>,
      backup: Option<Decoded>)
    requires name != ".."
    ensures TargetOf(disk, EntryAt(TOP, name, state, existed, newDigest, oldDigest, backup)) ==
      Target(Some(Path(true, [name])), Some(Path(true, [])), false)
  {
    assert [] + [name] == [name];
  }

  /** A created file whose bytes are the new bytes is judged applied. */
  lemma CreatedFileFinding(disk: Disk, journal: Journal, name: Name, digest: string)
    requires name != ".." && [] in disk.objects && disk.objects[[]] == Directory(true) && digest != ""
    requires [name] in disk.objects && disk.objects[[name]] == FileNamed(digest)
    requires journal.approvedSourceRoot == TOP == journal.backupRoot
    ensures JudgeEntry(disk, Unlimited, journal, EntryAt(TOP, name, APPLIED, false, digest, None, None)) ==
      (Finding(AppliedMark, false, false, false), Unlimited)
  {
    ChildTarget(disk, name, APPLIED, false, digest, None, None);
    ChildEvidence(disk, name, Some(digest));
  }

  /** A replaced file with the new bytes and a matching backup is judged applied. */
  lemma ReplacedFileFinding(disk: Disk, journal: Journal, name: Name, digest: string, old_: string, backup: Name)
    requires name != ".." && backup != ".." && [] in disk.objects && disk.objects[[]] == Directory(true) &&
      digest != "" && old_ != ""
    requires [name] in disk.objects && disk.objects[[name]] == FileNamed(digest)
    requires [backup] in disk.objects && disk.objects[[backup]] == FileNamed(old_)
    requires journal.approvedSourceRoot == TOP == journal.backupRoot
    ensures JudgeEntry(disk, Unlimited, journal,
      EntryAt(TOP, name, APPLIED, true, digest, Some(old_), Some(Decodes(Path(true, [backup]))))) ==
      (Finding(AppliedMark, false, false, false), Unlimited)
  {
    ChildTarget(disk, name, APPLIED, true, digest, Some(old_), Some(Decodes(Path(true, [backup]))));
    ChildEvidence(disk, name, Some(digest));
    ChildEvidence(disk, backup, Some(old_));
  }

  /** Nothing at the destination of a rolled-back creation is judged rolled back. */
  lemma GoneFileFinding(disk: Disk, journal: Journal, name: Name)
    requires name != ".." && [] in disk.objects && disk.objects[[]] == Directory(true) && [name] !in disk.objects
    requires journal.approvedSourceRoot == TOP == journal.backupRoot
    ensures JudgeEntry(disk, Unlimited, journal, EntryAt(TOP, name, ROLLED_BACK, false, "n", None, None)) ==
      (Finding(RolledBackMark, false, false, false), Unlimited)
  {
    ChildTarget(disk, name, ROLLED_BACK, false, "n", None, None);
    ChildEvidence(disk, name, Some("n"));
  }

  lemma UnlistedIsSilent(disk: Disk, journal: Journal, name: Name, probes: Probes)
    requires name != ".." && journal.approvedSourceRoot == TOP == journal.backupRoot
    requires probes.backup.None? && probes.temporary.None? && !ReportsLink(probes.destination)
    ensures Judge(disk, journal, EntryAt(TOP, name, UNLISTED(NeedsReview), false, "n", None, None), probes) ==
      Finding(Silent, false, false, false)
  {
    ChildTarget(disk, name, UNLISTED(NeedsReview), false, "n", None, None);
  }

  lemma UnlistedFinding(disk: Disk, journal: Journal, name: Name)
    requires name != ".." && [] in disk.objects && disk.objects[[]] == Directory(true) && [name] in disk.objects
    requires disk.objects[[name]].Regular? && disk.objects[[name]].readable
    requires journal.approvedSourceRoot == TOP == journal.backupRoot
    ensures JudgeEntry(disk, Unlimited, journal, EntryAt(TOP, name, UNLISTED(NeedsReview), false, "n", None, None)) ==
      (Finding(Silent, false, false, false), Unlimited)
  {
    var entry := EntryAt(TOP, name, UNLISTED(NeedsReview), false, "n", None, None);
    ChildTarget(disk, name, UNLISTED(NeedsReview), false, "n", None, None);
    ChildEvidence(disk, name, Some("n"));
    var g := Gather(disk, Unlimited, journal, entry);
    assert g.limits == Unlimited && g.probes.backup.None? && g.probes.temporary.None? &&
      !ReportsLink(g.probes.destination);
    UnlistedIsSilent(disk, journal, name, g.probes);
  }

  lemma ParentStepFinding(disk: Disk, journal: Journal, name: Name)
    requires journal.approvedSourceRoot == TOP == journal.backupRoot && name != ".."
    ensures var entry := EntryAt(Decodes(Path(true, [".."])), name, ROLLED_BACK, false, "n", None, None);
      TargetOf(disk, entry).path == Some(Path(true, ["..", name])) && HasParentStep(Path(true, ["..", name])) &&
      JudgeEntry(disk, Unlimited, journal, entry) == (Finding(RolledBackMark, false, false, false), Unlimited)
  {
    assert [".."] + [name] == ["..", name] && ["..", name][0] == "..";
  }

  // ----- safe verdicts after which no order restores

  ghost predicate NoOrderRestores(disk: Disk, journal: Journal, marks: seq<Mark>)
    requires AllDecoded(journal) && |marks| == |journal.entries|
  {
    forall order | InRange(order, |marks|) && IsOrder(order, |marks|) ::
      !AllRestored(UndoAll(disk, journal, marks, order), journal)
  }

  /** A safe verdict on entries at places of their own, one of which is not restorable; and no order restores. */
  ghost predicate IsBlindSpot(disk: Disk, journal: Journal, i: nat) {
    var marks := MarksOf(disk, Unlimited, journal);
    InspectShared(disk, Unlimited, journal).0.suggested == SafeRollback && AllDecoded(journal) &&
    Separate(disk, journal) &&
    i < |journal.entries| && !Restorable(disk, journal.entries[i], marks[i]) && NoOrderRestores(disk, journal, marks)
  }

  lemma NothingRestores(disk: Disk, journal: Journal, i: nat)
    requires InspectShared(disk, Unlimited, journal).0.suggested == SafeRollback
    requires AllDecoded(journal) && Separate(disk, journal) &&
      OthersVisible(disk, journal, MarksOf(disk, Unlimited, journal))
    requires i < |journal.entries| && !Restorable(disk, journal.entries[i], MarksOf(disk, Unlimited, journal)[i])
    ensures IsBlindSpot(disk, journal, i)
  {
    var marks := MarksOf(disk, Unlimited, journal);
    forall order | InRange(order, |marks|) && IsOrder(order, |marks|)
      ensures !AllRestored(UndoAll(disk, journal, marks, order), journal)
    {
      RollbackRestores(disk, Unlimited, journal, order);
    }
  }

  lemma ChildPlaces(disk: Disk, entry: Entry, name: Name, state: Word, existed: bool, newDigest: string,
      oldDigest: Option<string>)
    requires entry == EntryAt(TOP, name, state, existed, newDigest, oldDigest, None)
    requires name != ".." && [] in disk.objects && disk.objects[[]] == Directory(true)
    requires [name] in disk.objects ==> disk.objects[[name]].Regular?
    ensures Destination(disk, entry) == if [name] in disk.objects then Found([name]) else Missing
    ensures BackupPlace(disk, entry).Failed?
  {
    ChildTarget(disk, name, state, existed, newDigest, oldDigest, None);
    RootChildLookup(disk, name, false);
  }

  const FILE_X := DiskWith(map[["x"] := FileNamed("n")])
  const HIDDEN_X := EntryAt(Decodes(Path(true, [".."])), "x", ROLLED_BACK, false, "n", None, None)

  lemma HiddenVerdict()
    ensures InspectShared(FILE_X, Unlimited, JournalOf([HIDDEN_X])).0.suggested == SafeRollback
    ensures MarksOf(FILE_X, Unlimited, JournalOf([HIDDEN_X])) == [RolledBackMark]
  {
    var journal := JournalOf([HIDDEN_X]);
    ParentStepFinding(FILE_X, journal, "x");
    VerdictOfOne(FILE_X, Unlimited, journal, Clean(RolledBackMark));
  }

  lemma HiddenPlace(disk: Disk)
    requires [] in disk.objects && disk.objects[[]] == Directory(true) && ["x"] in disk.objects &&
      disk.objects[["x"]].Regular?
    ensures Destination(disk, HIDDEN_X) == Found(["x"]) && RecordsPreState(HIDDEN_X)
    ensures !Observable(disk, HIDDEN_X) && !HoldsPreState(disk, HIDDEN_X)
  {
    var target := Path(true, ["..", "x"]);
    ParentStepFinding(disk, JournalOf([HIDDEN_X]), "x");
    assert target.parts[0] == ".." && target.parts[1..] == ["x"];
    RootChildLookup(disk, "x", false);
    assert Lstat(disk, target) == Found(["x"]);
  }

  lemma OneIsSeparate(disk: Disk, journal: Journal, mark: Mark)
    requires AllDecoded(journal) && |journal.entries| == 1 && !Destination(disk, journal.entries[0]).Failed?
    ensures Separate(disk, journal) && OthersVisible(disk, journal, [mark])
  {
  }

  /** A destination recorded through a parent step is never looked at, so a file left behind counts as rolled back. */
  lemma UnobservedDestination()
    ensures IsBlindSpot(FILE_X, JournalOf([HIDDEN_X]), 0) && RecordsPreState(HIDDEN_X) && !Observable(FILE_X, HIDDEN_X)
  {
    HiddenVerdict();
    HiddenPlace(FILE_X);
    OneIsSeparate(FILE_X, JournalOf([HIDDEN_X]), RolledBackMark);
    NothingRestores(FILE_X, JournalOf([HIDDEN_X]), 0);
  }

  const GONE_Y := EntryAt(TOP, "y", ROLLED_BACK, false, "n", None, None)
  const ODD_X := EntryAt(TOP, "x", UNLISTED(NeedsReview), false, "n", None, None)

  lemma UnlistedVerdict()
    ensures InspectShared(FILE_X, Unlimited, JournalOf([GONE_Y, ODD_X])).0.suggested == SafeRollback
    ensures MarksOf(FILE_X, Unlimited, JournalOf([GONE_Y, ODD_X])) == [RolledBackMark, Silent]
  {
    var journal := JournalOf([GONE_Y, ODD_X]);
    assert ["y"][0] == "y" && ["x"][0] == "x" && "x"[0] == 'x' && "y"[0] == 'y';
    GoneFileFinding(FILE_X, journal, "y");
    UnlistedFinding(FILE_X, journal, "x");
    VerdictOfTwo(FILE_X, journal, RolledBackMark, Silent);
  }

  lemma UnlistedPlaces()
    ensures Destination(FILE_X, GONE_Y).Missing? && Destination(FILE_X, ODD_X) == Found(["x"])
    ensures Separate(FILE_X, JournalOf([GONE_Y, ODD_X]))
  {
    assert ["y"][0] == "y" && ["x"][0] == "x" && "x"[0] == 'x' && "y"[0] == 'y';
    ChildPlaces(FILE_X, GONE_Y, "y", ROLLED_BACK, false, "n", None);
    ChildPlaces(FILE_X, ODD_X, "x", UNLISTED(NeedsReview), false, "n", None);
    var entries := JournalOf([GONE_Y, ODD_X]).entries;
    assert forall i | 0 <= i < |entries| && i != 1 :: entries[i] == GONE_Y;
    assert forall i | 0 <= i < |entries| && i != 0 :: entries[i] == ODD_X;
  }

  /** An entry state outside the vocabulary is passed over in silence. */
  lemma UnlistedState()
    ensures IsBlindSpot(FILE_X, JournalOf([GONE_Y, ODD_X]), 1) && RecordsPreState(GONE_Y)
    ensures !InVocabulary(ODD_X.state) && ODD_X.existed == Some(false)
  {
    UnlistedVerdict();
    UnlistedPlaces();
    NothingRestores(FILE_X, JournalOf([GONE_Y, ODD_X]), 1);
  }

  // ----- a safe verdict after which some orders restore

  const FILES_AB := DiskWith(map[["a"] := FileNamed("n"), ["b"] := FileNamed("o")])
  const REPLACED_A := EntryAt(TOP, "a", APPLIED, true, "n", Some("o"), Some(Decodes(Path(true, ["b"]))))
  const CREATED_B := EntryAt(TOP, "b", APPLIED, false, "o", None, None)

  lemma FilesAB()
    ensures ["a"] != ["b"] && [] in FILES_AB.objects && FILES_AB.objects[[]] == Directory(true)
    ensures ["a"] in FILES_AB.objects && FILES_AB.objects[["a"]] == FileNamed("n")
    ensures ["b"] in FILES_AB.objects && FILES_AB.objects[["b"]] == FileNamed("o")
  {
    assert ["a"][0] == "a" && ["b"][0] == "b" && "a"[0] == 'a' && "b"[0] == 'b';
  }

  lemma SharedBackupVerdict()
    ensures InspectShared(FILES_AB, Unlimited, JournalOf([REPLACED_A, CREATED_B])).0.suggested == SafeRollback
    ensures MarksOf(FILES_AB, Unlimited, JournalOf([REPLACED_A, CREATED_B])) == [AppliedMark, AppliedMark]
  {
    var journal := JournalOf([REPLACED_A, CREATED_B]);
    FilesAB();
    ReplacedFileFinding(FILES_AB, journal, "a", "n", "o", "b");
    CreatedFileFinding(FILES_AB, journal, "b", "o");
    VerdictOfTwo(FILES_AB, journal, AppliedMark, AppliedMark);
  }

  /** A safe verdict on pre-states that fit and backups that hold them; and still not every order restores. */
  ghost predicate DependsOnOrder(disk: Disk, journal: Journal) {
    var marks := MarksOf(disk, Unlimited, journal);
    InspectShared(disk, Unlimited, journal).0.suggested == SafeRollback && AllDecoded(journal) &&
    BackupsArePreStates(journal, marks) && PreStatesFit(disk, journal, marks) &&
    !BackupsServe(disk, journal, marks) && !EveryOrderRestores(disk, journal, marks)
  }

  ghost predicate FailsInOrder(disk: Disk, journal: Journal, order: seq<nat>, i: nat) {
    AllDecoded(journal) && InRange(order, |journal.entries|) && i < |journal.entries| &&
    !HoldsPreState(UndoAll(disk, journal, MarksOf(disk, Unlimited, journal), order), journal.entries[i])
  }

  lemma OrderMatters(disk: Disk, journal: Journal, marks: seq<Mark>)
    requires InspectShared(disk, Unlimited, journal).0.suggested == SafeRollback && AllDecoded(journal)
    requires marks == MarksOf(disk, Unlimited, journal) && BackupsArePreStates(journal, marks)
    requires PreStatesFit(disk, journal, marks) && !BackupsServe(disk, journal, marks)
    ensures DependsOnOrder(disk, journal)
  {
    EveryOrderRestoresExactly(disk, Unlimited, journal);
  }

  /** When one entry's backup is another entry's destination, undoing the other first destroys the backup. */
  lemma SharedBackup()
    ensures DependsOnOrder(FILES_AB, JournalOf([REPLACED_A, CREATED_B])) && RecordsPreState(REPLACED_A) &&
      RecordsPreState(CREATED_B)
    ensures FailsInOrder(FILES_AB, JournalOf([REPLACED_A, CREATED_B]), [1, 0], 0)
  {
    SharedBackupVerdict();
    OtherOrderFails();
    PreStatesFitAB();
    BackupIsLost();
    OrderMatters(FILES_AB, JournalOf([REPLACED_A, CREATED_B]), [AppliedMark, AppliedMark]);
  }

  lemma JobsOnAB()
    ensures JobsOf(FILES_AB, JournalOf([REPLACED_A, CREATED_B]), [AppliedMark, AppliedMark]) ==
      [Restore(["a"], ["b"]), Delete(["b"])]
    ensures WantedOf(JournalOf([REPLACED_A, CREATED_B])) == ["o", ""]
    ensures TargetOf(FILES_AB, REPLACED_A).path == Some(Path(true, ["a"])) &&
      TargetOf(FILES_AB, CREATED_B).path == Some(Path(true, ["b"]))
  {
    FilesAB();
    ChildTarget(FILES_AB, "a", APPLIED, true, "n", Some("o"), Some(Decodes(Path(true, ["b"]))));
    ChildTarget(FILES_AB, "b", APPLIED, false, "o", None, None);
    RootChildLookup(FILES_AB, "a", false);
    RootChildLookup(FILES_AB, "b", false);
    RootChildLookup(FILES_AB, "b", true);
    assert JobOf(FILES_AB, REPLACED_A, AppliedMark) == Restore(["a"], ["b"]);
    assert JobOf(FILES_AB, CREATED_B, AppliedMark) == Delete(["b"]);
  }

  lemma AimOnAB(aim: Disk)
    requires aim == Aim(FILES_AB, [Restore(["a"], ["b"]), Delete(["b"])], ["o", ""])
    ensures [] in aim.objects && aim.objects[[]] == Directory(true) && aim.cwd == []
    ensures ["a"] in aim.objects && aim.objects[["a"]] == FileNamed("o") && ["b"] !in aim.objects
  {
    FilesAB();
    var jobs := [Restore(["a"], ["b"]), Delete(["b"])];
    assert jobs[1] == Delete(["b"]) && Restores(jobs[0], ["a"]);
  }

  lemma HeldOnAB(aim: Disk)
    requires [] in aim.objects && aim.objects[[]] == Directory(true) && aim.cwd == []
    requires ["a"] in aim.objects && aim.objects[["a"]] == FileNamed("o") && ["b"] !in aim.objects
    ensures HoldsPreState(aim, REPLACED_A) && HoldsPreState(aim, CREATED_B)
  {
    ChildTarget(aim, "a", APPLIED, true, "n", Some("o"), Some(Decodes(Path(true, ["b"]))));
    ChildTarget(aim, "b", APPLIED, false, "o", None, None);
    RootChildLookup(aim, "a", false);
    RootChildLookup(aim, "b", false);
  }

  lemma PairRestored(disk: Disk, journal: Journal)
    requires |journal.entries| == 2 && AllDecoded(journal)
    requires HoldsPreState(disk, journal.entries[0]) && HoldsPreState(disk, journal.entries[1])
    ensures AllRestored(disk, journal)
  {
    forall i | 0 <= i < 2 ensures HoldsPreState(disk, journal.entries[i]) {
      assert i == 0 || i == 1;
    }
  }

  /** The two pre-states are those of one disk: `a` as it was, and no `b`. */
  lemma PreStatesFitAB()
    ensures PreStatesFit(FILES_AB, JournalOf([REPLACED_A, CREATED_B]), [AppliedMark, AppliedMark])
  {
    var journal, marks := JournalOf([REPLACED_A, CREATED_B]), [AppliedMark, AppliedMark];
    JobsOnAB();
    var aim := Aim(FILES_AB, JobsOf(FILES_AB, journal, marks), WantedOf(journal));
    AimOnAB(aim);
    HeldOnAB(aim);
    PairRestored(aim, journal);
  }

  lemma BackupIsLost()
    ensures !BackupsServe(FILES_AB, JournalOf([REPLACED_A, CREATED_B]), [AppliedMark, AppliedMark])
  {
    JobsOnAB();
    LostSource([Restore(["a"], ["b"]), Delete(["b"])], ["o", ""]);
  }

  lemma LostSource(jobs: seq<Job>, wanted: seq<string>)
    requires jobs == [Restore(["a"], ["b"]), Delete(["b"])] && wanted == ["o", ""]
    ensures !SourcesLast(FILES_AB, jobs, wanted)
  {
    FilesAB();
    assert jobs[1] == Delete(["b"]) && IsDeleted(jobs, ["b"]);
    assert Lower("n")[0] == 'n' && Lower("o")[0] == 'o';
    assert jobs[0].Restore? && !HasDigest(FILES_AB, ["a"], wanted[0]);
    assert !Lasts(jobs, jobs[0]) && !Lasts(jobs, jobs[1]);
  }

  lemma DeletedFirst(jobs: seq<Job>)
    requires jobs == [Restore(["a"], ["b"]), Delete(["b"])]
    ensures PerformAll(FILES_AB, jobs, [1, 0]) == FILES_AB.(objects := FILES_AB.objects - {["b"]})
  {
    var mid := Perform(FILES_AB, jobs[1]);
    assert [1, 0][1..] == [0] && [0][1..] == [];
    assert PerformAll(mid, jobs, [0]) == PerformAll(mid, jobs, []);
  }

  lemma OtherOrderFails()
    requires InspectShared(FILES_AB, Unlimited, JournalOf([REPLACED_A, CREATED_B])).0.suggested == SafeRollback
    requires MarksOf(FILES_AB, Unlimited, JournalOf([REPLACED_A, CREATED_B])) == [AppliedMark, AppliedMark]
    ensures !HoldsPreState(UndoAll(FILES_AB, JournalOf([REPLACED_A, CREATED_B]), [AppliedMark, AppliedMark], [1, 0]),
      REPLACED_A)
  {
    var journal, marks := JournalOf([REPLACED_A, CREATED_B]), [AppliedMark, AppliedMark];
    SafeVerdictIsReady(FILES_AB, Unlimited, journal);
    JobsOnAB();
    JobsAreOnFiles(FILES_AB, journal, marks);
    UndoAllIsJobs(FILES_AB, FILES_AB, journal, marks, [1, 0]);
    DeletedFirst(JobsOf(FILES_AB, journal, marks));
    NotHeldWithoutB(FILES_AB.(objects := FILES_AB.objects - {["b"]}));
  }

  lemma NotHeldWithoutB(end: Disk)
    requires end == FILES_AB.(objects := FILES_AB.objects - {["b"]})
    ensures !HoldsPreState(end, REPLACED_A)
  {
    FilesAB();
    ChildTarget(end, "a", APPLIED, true, "n", Some("o"), Some(Decodes(Path(true, ["b"]))));
    RootChildLookup(end, "a", false);
    assert Lower("n")[0] == 'n' && Lower("o")[0] == 'o';
  }

  const CREATED_X := EntryAt(TOP, "x", APPLIED, false, "n", None, None)

  lemma CreatedTwiceVerdict()
    ensures InspectShared(FILE_X, Unlimited, JournalOf([CREATED_X, CREATED_X])).0.suggested == SafeRollback
    ensures MarksOf(FILE_X, Unlimited, JournalOf([CREATED_X, CREATED_X])) == [AppliedMark, AppliedMark]
  {
    var journal := JournalOf([CREATED_X, CREATED_X]);
    assert ["x"][0] == "x" && "x"[0] == 'x';
    CreatedFileFinding(FILE_X, journal, "x", "n");
    VerdictOfTwo(FILE_X, journal, AppliedMark, AppliedMark);
  }

  lemma CreatedTwiceJobs()
    ensures Destination(FILE_X, CREATED_X) == Found(["x"])
    ensures JobsOf(FILE_X, JournalOf([CREATED_X, CREATED_X]), [AppliedMark, AppliedMark]) ==
      [Delete(["x"]), Delete(["x"])]
  {
    assert ["x"][0] == "x" && "x"[0] == 'x';
    ChildPlaces(FILE_X, CREATED_X, "x", APPLIED, false, "n", None);
    assert JobOf(FILE_X, CREATED_X, AppliedMark) == Delete(["x"]);
  }

  lemma GoneOnAim(aim: Disk, wanted: seq<string>)
    requires |wanted| == 2 && aim == Aim(FILE_X, [Delete(["x"]), Delete(["x"])], wanted)
    ensures HoldsPreState(aim, CREATED_X)
  {
    var jobs := [Delete(["x"]), Delete(["x"])];
    assert jobs[0] == Delete(["x"]) && ["x"] !in aim.objects && [] in aim.objects && aim.objects[[]] == Directory(true);
    ChildTarget(aim, "x", APPLIED, false, "n", None, None);
    RootChildLookup(aim, "x", false);
  }

  lemma CreatedTwiceFits(journal: Journal, marks: seq<Mark>)
    requires journal == JournalOf([CREATED_X, CREATED_X]) && marks == [AppliedMark, AppliedMark]
    ensures !Separate(FILE_X, journal) && PreStatesFit(FILE_X, journal, marks) && BackupsServe(FILE_X, journal, marks)
  {
    CreatedTwiceJobs();
    var aim := Aim(FILE_X, JobsOf(FILE_X, journal, marks), WantedOf(journal));
    GoneOnAim(aim, WantedOf(journal));
    assert journal.entries[0] == CREATED_X && journal.entries[1] == CREATED_X;
    PairRestored(aim, journal);
  }

  /** One created file recorded twice: the entries share a destination, and still every order restores. */
  lemma CreatedTwice()
    ensures var journal := JournalOf([CREATED_X, CREATED_X]); var marks := MarksOf(FILE_X, Unlimited, journal);
      InspectShared(FILE_X, Unlimited, journal).0.suggested == SafeRollback &&
      !Separate(FILE_X, journal) && PreStatesFit(FILE_X, journal, marks) && BackupsServe(FILE_X, journal, marks) &&
      EveryOrderRestores(FILE_X, journal, marks)
  {
    var journal, marks := JournalOf([CREATED_X, CREATED_X]), [AppliedMark, AppliedMark];
    CreatedTwiceVerdict();
    CreatedTwiceFits(journal, marks);
    EveryOrderRestoresExactly(FILE_X, Unlimited, journal);
  }

  // ----- a backup that is not the pre-state

  const OTHER_BACKUP := Entry(
    Some(Plan(TOP, Decodes(Path(false, ["a"])), TOP, Some("n"), Some("p"), false)),
    APPLIED, Some(true), Some(Decodes(Path(true, ["b"]))), Some("o"), None)

  lemma OtherBackupFinding(journal: Journal)
    requires journal.approvedSourceRoot == TOP == journal.backupRoot
    ensures JudgeEntry(FILES_AB, Unlimited, journal, OTHER_BACKUP) ==
      (Finding(AppliedMark, false, false, false), Unlimited)
  {
    FilesAB();
    ChildTarget(FILES_AB, "a", APPLIED, true, "n", Some("p"), Some(Decodes(Path(true, ["b"]))));
    ChildEvidence(FILES_AB, "a", Some("n"));
    ChildEvidence(FILES_AB, "b", Some("o"));
  }

  lemma OtherBackupVerdict()
    ensures InspectShared(FILES_AB, Unlimited, JournalOf([OTHER_BACKUP])).0.suggested == SafeRollback
    ensures MarksOf(FILES_AB, Unlimited, JournalOf([OTHER_BACKUP])) == [AppliedMark]
  {
    OtherBackupFinding(JournalOf([OTHER_BACKUP]));
    VerdictOfOne(FILES_AB, Unlimited, JournalOf([OTHER_BACKUP]), Clean(AppliedMark));
  }

  lemma OtherBackupPlace()
    ensures Destination(FILES_AB, OTHER_BACKUP) == Found(["a"]) && !BackupIsPreState(OTHER_BACKUP)
    ensures RecordsPreState(OTHER_BACKUP) && Observable(FILES_AB, OTHER_BACKUP)
  {
    FilesAB();
    assert [] + ["a"] == ["a"];
    RootChildLookup(FILES_AB, "a", false);
    assert Lower("o")[0] == 'o' && Lower("p")[0] == 'p';
  }

  /** A backup that matches its own recorded digest, but not the recorded pre-state. */
  lemma OtherBackup()
    ensures IsBlindSpot(FILES_AB, JournalOf([OTHER_BACKUP]), 0) && WellRecorded(FILES_AB, JournalOf([OTHER_BACKUP]))
  {
    OtherBackupVerdict();
    OtherBackupPlace();
    OneIsSeparate(FILES_AB, JournalOf([OTHER_BACKUP]), AppliedMark);
    NothingRestores(FILES_AB, JournalOf([OTHER_BACKUP]), 0);
  }

  // ----- a budget that hides more than a hash

  const UNREADABLE := Regular("o", 100, 0, 0, 0, false)
  const MISLEADING := DiskWith(map[["a"] := FileNamed("n"), ["symlink"] := UNREADABLE])
  const SMALL := Limits(10, 10)
  const NAMED_BACKUP := EntryAt(TOP, "a", APPLIED, false, "n", Some("o"), Some(Decodes(Path(true, ["symlink"]))))

  lemma MisleadingDisk()
    ensures [] in MISLEADING.objects && MISLEADING.objects[[]] == Directory(true)
    ensures ["a"] in MISLEADING.objects && MISLEADING.objects[["a"]] == FileNamed("n")
    ensures ["symlink"] in MISLEADING.objects && MISLEADING.objects[["symlink"]] == UNREADABLE
  {
    assert |"a"| == 1 && |"symlink"| == 7;
    assert ["a"][0] == "a" && ["symlink"][0] == "symlink";
  }

  lemma SmallBudgetEvidence(limits: Limits)
    requires limits.Limits? && limits.perFile == 10 && limits.remaining >= 1
    ensures var p := Inspect(MISLEADING, limits, Some(Path(true, ["a"])), Some(Path(true, [])), Some("n"));
      p.limits == Limits(10, limits.remaining - 1) && p.evidence.identityMatches == Some(true) &&
      p.evidence.problem.None?
    ensures var q := Inspect(MISLEADING, limits, Some(Path(true, ["symlink"])), Some(Path(true, [])), Some("o"));
      q.limits == limits && q.evidence.identityMatches.None? && q.evidence.problem == Some(OverFileLimit)
    ensures Inspect(MISLEADING, Unlimited, Some(Path(true, ["symlink"])), Some(Path(true, [])),
      Some("o")).evidence.problem ==
      Some(CannotHash(Path(true, ["symlink"])))
  {
    MisleadingDisk();
    RootChildLookup(MISLEADING, "a", false);
    RootChildLookup(MISLEADING, "symlink", false);
  }

  lemma SmallBudgetFinding()
    ensures JudgeEntry(MISLEADING, SMALL, JournalOf([NAMED_BACKUP]), NAMED_BACKUP).0 == Clean(AppliedMark)
  {
    ChildTarget(MISLEADING, "a", APPLIED, false, "n", Some("o"), Some(Decodes(Path(true, ["symlink"]))));
    SmallBudgetEvidence(SMALL);
    SmallBudgetEvidence(Limits(10, 9));
  }

  /** A backup too large to hash hides that it cannot be read; without a budget its name alone blocks the rollback. */
  lemma MisleadingName()
    ensures InspectShared(MISLEADING, SMALL, JournalOf([NAMED_BACKUP])).0.suggested == SafeRollback
    ensures InspectShared(MISLEADING, Unlimited, JournalOf([NAMED_BACKUP])).0 !=
      InspectShared(MISLEADING, SMALL, JournalOf([NAMED_BACKUP])).0
  {
    var journal := JournalOf([NAMED_BACKUP]);
    SmallBudgetFinding();
    VerdictOfOne(MISLEADING, SMALL, journal, Clean(AppliedMark));
    SmallBudgetEvidence(SMALL);
    assert StandsAt("symlink", "symlink", 0) && Occurs("symlink", ["symlink"][0]);
    assert BudgetSoundness.EntryMisleads(MISLEADING, journal, journal.entries[0]);
    BudgetSoundness.SharedSafeSurvives(MISLEADING, SMALL, journal);
  }
}
