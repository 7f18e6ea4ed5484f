/**
 SAFE_ROLLBACK rename journals that no order of undo can roll back, one for each condition that the
 verdict leaves open: two sources with one place, a source that is absent, a source whose place is
 taken, and one destination recorded twice.
 */
module RenameBlindSpots {
  import opened Common
  import opened FileSystem
  import opened Evidence
  import opened Operation
  import opened RenameJournal
  import opened RenameRollback

  const FILE_P := Regular("p", 1, 0, 1, 1, true)
  const FILE_Q := Regular("q", 1, 0, 2, 1, true)

  function IdentityOf(file: Object): Identity
    requires file.Regular?
  {
    Identity(true, Some(file.size), Some(file.mtime), None, None, Some(file.sha256))
  }

  /** `/l` is a link to the directory `/d`, so `/l/x` and `/d/x` are one place. */
  const DISK := Disk(map[
    [] := Directory(true), ["d"] := Directory(true), ["l"] := Symlink("/d", Path(true, ["d"])),
    ["p"] := FILE_P, ["q"] := FILE_Q], [])

  const VIA_DIRECTORY :=
    Entry(Some(Path(true, ["d", "x"])), Some(Path(true, ["p"])), RenameMove, IdentityOf(FILE_P), APPLIED)
  const VIA_LINK := Entry(Some(Path(true, ["l", "x"])), Some(Path(true, ["q"])), RenameMove, IdentityOf(FILE_Q),
    APPLIED)
  const JOURNAL := Journal(APPLY_FAILED, Some(Path(true, [])), [VIA_DIRECTORY, VIA_LINK])

  lemma Names()
    ensures "d" != ".." && "l" != ".." && "p" != ".." && "q" != ".." && "x" != ".."
    ensures ["d"] != ["l"] && ["d"] != ["p"] && ["d"] != ["q"] && ["l"] != ["p"] && ["l"] != ["q"] && ["p"] != ["q"]
    ensures [] in DISK.objects && DISK.objects[[]] == Directory(true)
    ensures ["d"] in DISK.objects && DISK.objects[["d"]] == Directory(true)
    ensures ["l"] in DISK.objects && DISK.objects[["l"]] == Symlink("/d", Path(true, ["d"]))
    ensures ["p"] in DISK.objects && DISK.objects[["p"]] == FILE_P
    ensures ["q"] in DISK.objects && DISK.objects[["q"]] == FILE_Q
    ensures ["d", "x"] !in DISK.objects
  {
    assert |["d", "x"]| == 2;
    assert "d"[0] == 'd' && "l"[0] == 'l' && "p"[0] == 'p' && "q"[0] == 'q';
    assert ["d"][0] == "d" && ["l"][0] == "l" && ["p"][0] == "p" && ["q"][0] == "q";
  }

  lemma Lookups()
    ensures Walk(DISK, ["d"], ["x"], false, MAX_LINKS) == Missing &&
      Walk(DISK, ["d"], ["x"], false, MAX_LINKS - 1) == Missing
    ensures Lstat(DISK, Path(true, ["d", "x"])) == Missing && Lstat(DISK, Path(true, ["l", "x"])) == Missing
    ensures Walk(DISK, [], ["d"], true, MAX_LINKS) == Found(["d"]) &&
      Walk(DISK, [], ["l"], true, MAX_LINKS) == Found(["d"])
  {
    Names();
    assert ["d"] + ["x"] == ["d", "x"] && [] + ["d"] == ["d"] && [] + ["l"] == ["l"];
    assert ["d", "x"][1..] == ["x"] && ["l", "x"][1..] == ["x"] && ["d"][1..] == [] && ["l"][1..] == [] &&
      ["x"][1..] == [];
    assert Walk(DISK, [], ["d", "x"], false, MAX_LINKS - 1) == Walk(DISK, ["d"], ["x"], false, MAX_LINKS - 1);
    assert Walk(DISK, [], ["d"], true, MAX_LINKS - 1) == Walk(DISK, ["d"], [], true, MAX_LINKS - 1);
    assert ["d"] + [] == ["d"];
  }

  /** A move is counted as safe whenever the inspector sees nothing at its source, or does not look. */
  lemma FileFinding(journal: Journal, name: Name, source: Option<Path>, file: Object, entry: Entry)
    requires journal.state == APPLY_FAILED && journal.sourceRoot == Some(Path(true, []))
    requires name != ".." && [name] in DISK.objects && DISK.objects[[name]] == file
    requires file.Regular? && file.readable && file.sha256 != ""
    requires [] in DISK.objects && DISK.objects[[]] == Directory(true)
    requires entry == Entry(source, Some(Path(true, [name])), RenameMove, IdentityOf(file), APPLIED)
    requires !Inspect(DISK, Unlimited, source, journal.sourceRoot, None).evidence.exists_
    ensures JudgeEntry(DISK, Unlimited, journal, entry) == (Finding(true, false, false), Unlimited)
  {
    PlainEvidence(DISK, Path(true, [name]), None, Some(file.sha256));
    PlainLookup(DISK, [name], false);
    assert IsRootBound(DISK, journal, Path(true, [name]));
  }

  lemma MissingIsUnseen(source: Path, root: Option<Path>)
    requires Lstat(DISK, source) == Missing
    ensures !Inspect(DISK, Unlimited, Some(source), root, None).evidence.exists_
  {
  }

  lemma BothFindings()
    ensures JudgeEntry(DISK, Unlimited, JOURNAL, VIA_DIRECTORY) == (Finding(true, false, false), Unlimited)
    ensures JudgeEntry(DISK, Unlimited, JOURNAL, VIA_LINK) == (Finding(true, false, false), Unlimited)
  {
    Names();
    Lookups();
    MissingIsUnseen(Path(true, ["d", "x"]), JOURNAL.sourceRoot);
    MissingIsUnseen(Path(true, ["l", "x"]), JOURNAL.sourceRoot);
    FileFinding(JOURNAL, "p", Some(Path(true, ["d", "x"])), FILE_P, VIA_DIRECTORY);
    FileFinding(JOURNAL, "q", Some(Path(true, ["l", "x"])), FILE_Q, VIA_LINK);
  }

  lemma VerdictIsSafe()
    ensures InspectRenames(DISK, Unlimited, JOURNAL).0.suggested == SafeRollback
  {
    BothFindings();
    AppliedCountIsTwo();
    TwoSafeMoves(DISK, JOURNAL, Finding(true, false, false));
  }

  lemma TwoSafeMoves(disk: Disk, journal: Journal, ok: Finding)
    requires |journal.entries| == 2 && ok == Finding(true, false, false)
    requires JudgeEntry(disk, Unlimited, journal, journal.entries[0]) == (ok, Unlimited)
    requires JudgeEntry(disk, Unlimited, journal, journal.entries[1]) == (ok, Unlimited)
    requires IsActive(journal.state) && !IsSettled(journal.state) && CountApplied(journal.entries) == 2
    ensures InspectRenames(disk, Unlimited, journal).0.suggested == SafeRollback
  {
    assert JudgeFirst(disk, Unlimited, journal, 0) == Findings([], Unlimited);
    assert JudgeFirst(disk, Unlimited, journal, 1) == Findings([] + [ok], Unlimited);
    assert JudgeFirst(disk, Unlimited, journal, 2) == Findings([] + [ok] + [ok], Unlimited);
    TallyStep([], ok);
    TallyStep([] + [ok], ok);
  }

  lemma AppliedCountIsTwo()
    ensures CountApplied(JOURNAL.entries) == 2
  {
    assert JOURNAL.entries[..1] == [VIA_DIRECTORY] && [VIA_DIRECTORY][..0] == [];
    assert CountApplied([VIA_DIRECTORY]) == 1;
  }

  lemma NoLinksCreated()
    ensures Bare(DISK, JOURNAL) == DISK
  {
    forall at | at in DISK.objects ensures !CreatesLinkAt(JOURNAL, at) {}
    assert Bare(DISK, JOURNAL).objects == DISK.objects;
  }

  lemma SourcePlaces()
    ensures PlaceOf(DISK, Path(true, ["d", "x"])) == PlaceOf(DISK, Path(true, ["l", "x"])) == Some(["d", "x"])
  {
    Names();
    Lookups();
    assert ["d", "x"][..1] == ["d"] && ["l", "x"][..1] == ["l"];
    assert ["d", "x"][1] == "x" && ["l", "x"][1] == "x" && ["d"] + ["x"] == ["d", "x"];
  }

  lemma SourcesCollide()
    ensures MovedAt(JOURNAL, 0) && MovedAt(JOURNAL, 1) && HasPlace(DISK, JOURNAL, 0) && HasPlace(DISK, JOURNAL, 1)
    ensures Return(DISK, JOURNAL, 0) == Return(DISK, JOURNAL, 1)
  {
    NoLinksCreated();
    SourcePlaces();
  }

  lemma JournalIsWellRecorded()
    ensures WellRecorded(DISK, JOURNAL) && VIA_DIRECTORY.source != VIA_LINK.source
  {
    Names();
    Lookups();
    assert ["d", "x"][0] == "d" && ["l", "x"][0] == "l" && ["d", "x"][1] == "x" && ["l", "x"][1] == "x";
    assert [] <= ["d", "x"] && [] <= ["l", "x"];
    assert !HasParentStep(Path(true, ["d", "x"])) && !HasParentStep(Path(true, ["l", "x"]));
  }

  // ----- the orders of small journals

  lemma OrderOfOne(journal: Journal, order: seq<nat>)
    requires |journal.entries| == 1 && AppliedAt(journal, 0) && IsOrder(journal, order)
    ensures order == [0]
  {
    forall k | 0 <= k < |order| ensures order[k] == 0 { assert AppliedAt(journal, order[k]); }
    SameContents(order, [0]);
  }

  lemma OrderOfTwo(journal: Journal, order: seq<nat>)
    requires |journal.entries| == 2 && AppliedAt(journal, 0) && AppliedAt(journal, 1) && IsOrder(journal, order)
    ensures order == [0, 1] || order == [1, 0]
  {
    forall k | 0 <= k < |order| ensures order[k] < 2 { assert AppliedAt(journal, order[k]); }
    assert 0 in order && 1 in order;
    SameContents(order, [0, 1]);
    assert order[0] != order[1];
  }

  /** A safe verdict on a journal that no order of undo can roll back. */
  ghost predicate IsBlindSpot(journal: Journal) {
    InspectRenames(DISK, Unlimited, journal).0.suggested == SafeRollback &&
    forall order | IsOrder(journal, order) :: UndoAll(DISK, journal, order).None?
  }

  lemma OneFails(journal: Journal)
    requires InspectRenames(DISK, Unlimited, journal).0.suggested == SafeRollback
    requires |journal.entries| == 1 && AppliedAt(journal, 0)
    requires OrderOf(journal, [0]) ==> UndoAll(DISK, journal, [0]).None?
    ensures IsBlindSpot(journal)
  {
    forall order | IsOrder(journal, order) ensures UndoAll(DISK, journal, order).None? { OrderOfOne(journal, order); }
  }

  lemma TwoFail(journal: Journal)
    requires InspectRenames(DISK, Unlimited, journal).0.suggested == SafeRollback
    requires |journal.entries| == 2 && AppliedAt(journal, 0) && AppliedAt(journal, 1)
    requires OrderOf(journal, [0, 1]) ==> UndoAll(DISK, journal, [0, 1]).None?
    requires OrderOf(journal, [1, 0]) ==> UndoAll(DISK, journal, [1, 0]).None?
    ensures IsBlindSpot(journal)
  {
    forall order | IsOrder(journal, order) ensures UndoAll(DISK, journal, order).None? { OrderOfTwo(journal, order); }
  }

  /** Two different source paths share one place through a link, so the second move back is always blocked. */
  lemma AliasedSources()
    ensures IsBlindSpot(JOURNAL) && WellRecorded(DISK, JOURNAL) && VIA_DIRECTORY.source != VIA_LINK.source
    ensures !SourcesReturn(DISK, JOURNAL)
  {
    VerdictIsSafe();
    JournalIsWellRecorded();
    SourcesCollide();
    SafeVerdictProves(DISK, Unlimited, JOURNAL);
    SharedPlaceFails(DISK, JOURNAL, 0, 1);
    SharedPlaceFails(DISK, JOURNAL, 1, 0);
    TwoFail(JOURNAL);
  }

  // ----- with a place to return to, the same kind of journal can be undone

  const MOVED := Entry(Some(Path(true, ["y"])), Some(Path(true, ["p"])), RenameMove, IdentityOf(FILE_P), APPLIED)
  const ONE_MOVE := Journal(APPLY_FAILED, Some(Path(true, [])), [MOVED])

  lemma YIsAbsent()
    ensures ["y"] !in DISK.objects && !HasParentStep(Path(true, ["y"])) && Reachable(DISK, ["y"])
  {
    Names();
    assert "y"[0] == 'y' && ".."[0] == '.' && ["y"][0] == "y" && ["y"][..0] == [];
    assert "d"[0] == 'd' && "l"[0] == 'l' && "p"[0] == 'p' && "q"[0] == 'q';
    assert ["d"][0] == "d" && ["l"][0] == "l" && ["p"][0] == "p" && ["q"][0] == "q";
  }

  lemma PlaceBelowTop(disk: Disk, name: Name)
    requires [] in disk.objects && disk.objects[[]] == Directory(true) && name != ".."
    ensures PlaceOf(disk, Path(true, [name])) == Some([name])
  {
    assert [name][..0] == [] && [] + [name] == [name];
    assert Walk(disk, [], [], true, MAX_LINKS) == Found([]);
  }

  lemma YIsFree()
    ensures ["y"] !in DISK.objects && Lstat(DISK, Path(true, ["y"])) == Missing
    ensures PlaceOf(DISK, Path(true, ["y"])) == Some(["y"])
  {
    YIsAbsent();
    LiteralHasNoLink(DISK, Path(true, ["y"]));
    Names();
    assert "y"[0] == 'y' && ".."[0] == '.';
    PlaceBelowTop(DISK, "y");
  }

  lemma OneMoveIsSafe()
    ensures InspectRenames(DISK, Unlimited, ONE_MOVE).0.suggested == SafeRollback
  {
    Names();
    YIsFree();
    var ok := Finding(true, false, false);
    FileFinding(ONE_MOVE, "p", Some(Path(true, ["y"])), FILE_P, MOVED);
    assert ONE_MOVE.entries[..0] == [];
    assert CountApplied(ONE_MOVE.entries) == 1;
    OneSafeMove(DISK, ONE_MOVE, ok);
  }

  lemma OneSafeMove(disk: Disk, journal: Journal, ok: Finding)
    requires |journal.entries| == 1 && ok == Finding(true, false, false)
    requires JudgeEntry(disk, Unlimited, journal, journal.entries[0]) == (ok, Unlimited)
    requires IsActive(journal.state) && !IsSettled(journal.state) && CountApplied(journal.entries) == 1
    ensures InspectRenames(disk, Unlimited, journal).0.suggested == SafeRollback
  {
    assert JudgeFirst(disk, Unlimited, journal, 0) == Findings([], Unlimited);
    assert JudgeFirst(disk, Unlimited, journal, 1) == Findings([] + [ok], Unlimited);
    TallyStep([], ok);
  }

  lemma OneMoveIsRecorded()
    ensures WellRecorded(DISK, ONE_MOVE) && IsOrder(ONE_MOVE, [0]) && SourcesReturn(DISK, ONE_MOVE)
  {
    YIsFree();
    YIsAbsent();
    assert [] <= ["y"] && [0][0] in [0];
    forall at | at in DISK.objects ensures !CreatesLinkAt(ONE_MOVE, at) {}
    assert Bare(DISK, ONE_MOVE).objects == DISK.objects;
    assert Bare(DISK, ONE_MOVE) == DISK;
  }

  /** A well-recorded journal with a safe verdict and a place for its source: undo succeeds. */
  lemma OneMoveReturns()
    ensures InspectRenames(DISK, Unlimited, ONE_MOVE).0.suggested == SafeRollback
    ensures WellRecorded(DISK, ONE_MOVE) && CanReturn(DISK, ONE_MOVE)
    ensures IsOrder(ONE_MOVE, [0]) && UndoAll(DISK, ONE_MOVE, [0]).Some?
  {
    OneMoveIsSafe();
    OneMoveIsRecorded();
    ReturnIsVacant(DISK, Unlimited, ONE_MOVE);
    AnyOrderRestores(DISK, Unlimited, ONE_MOVE, [0]);
  }

  // ----- a source that is absent

  const SOURCELESS := Entry(None, Some(Path(true, ["p"])), RenameMove, IdentityOf(FILE_P), APPLIED)
  const NO_SOURCE := Journal(APPLY_FAILED, Some(Path(true, [])), [SOURCELESS])

  lemma OneIsApplied(journal: Journal)
    requires |journal.entries| == 1 && IsApplied(journal.entries[0])
    ensures CountApplied(journal.entries) == 1 && AppliedAt(journal, 0)
  {
    assert journal.entries[..0] == [];
  }

  lemma SourcelessIsSafe()
    ensures InspectRenames(DISK, Unlimited, NO_SOURCE).0.suggested == SafeRollback
  {
    Names();
    FileFinding(NO_SOURCE, "p", None, FILE_P, SOURCELESS);
    OneIsApplied(NO_SOURCE);
    OneSafeMove(DISK, NO_SOURCE, Finding(true, false, false));
  }

  /** A move without a source is never looked at, and cannot be moved back. */
  lemma MissingSource()
    ensures IsBlindSpot(NO_SOURCE) && !SourcesReturn(DISK, NO_SOURCE)
    ensures DestinationsDiffer(NO_SOURCE) && PlacesVacant(DISK, NO_SOURCE)
  {
    SourcelessIsSafe();
    OneIsApplied(NO_SOURCE);
    MissingSourceFails(DISK, NO_SOURCE, 0);
    OneFails(NO_SOURCE);
    assert AppliedAt(NO_SOURCE, 0) && !MovedAt(NO_SOURCE, 0);
  }

  // ----- a source that is not looked at, and taken

  const STEPPED := Entry(Some(Path(true, ["d", "..", "q"])), Some(Path(true, ["p"])), RenameMove, IdentityOf(FILE_P),
    APPLIED)
  const TAKEN := Journal(APPLY_FAILED, Some(Path(true, [])), [STEPPED])

  lemma SteppedPlace()
    ensures PlaceOf(DISK, Path(true, ["d", "..", "q"])) == Some(["q"])
    ensures !Inspect(DISK, Unlimited, STEPPED.source, TAKEN.sourceRoot, None).evidence.exists_
  {
    Names();
    var path := Path(true, ["d", "..", "q"]);
    assert path.parts[1] == ".." && HasParentStep(path);
    assert path.parts[..2] == ["d", ".."] && ["d", ".."][1..] == [".."] && [".."][1..] == [] && [] + ["d"] == ["d"];
    assert Walk(DISK, ["d"], [".."], true, MAX_LINKS) == Walk(DISK, ParentOf(["d"]), [], true, MAX_LINKS);
    assert ParentOf(["d"]) == [] && BaseName(path) == "q" && [] + ["q"] == ["q"];
  }

  lemma TakenPlace()
    ensures MovedAt(TAKEN, 0) && HasPlace(DISK, TAKEN, 0) && Return(DISK, TAKEN, 0) == ["q"]
  {
    SteppedPlace();
    OneIsApplied(TAKEN);
    forall at | at in DISK.objects ensures !CreatesLinkAt(TAKEN, at) {}
    assert Bare(DISK, TAKEN).objects == DISK.objects;
    assert Bare(DISK, TAKEN) == DISK;
  }

  lemma TakenIsSafe()
    ensures InspectRenames(DISK, Unlimited, TAKEN).0.suggested == SafeRollback
  {
    Names();
    SteppedPlace();
    FileFinding(TAKEN, "p", STEPPED.source, FILE_P, STEPPED);
    OneIsApplied(TAKEN);
    OneSafeMove(DISK, TAKEN, Finding(true, false, false));
  }

  /** A source spelled with a parent step counts as vacant without a look; another file sits at its place. */
  lemma UnobservedSource()
    ensures IsBlindSpot(TAKEN) && !PlacesVacant(DISK, TAKEN) && DestinationsDiffer(TAKEN) && SourcesReturn(DISK, TAKEN)
  {
    TakenIsSafe();
    TakenPlace();
    Names();
    OccupiedPlaceFails(DISK, TAKEN, 0);
    OneFails(TAKEN);
  }

  // ----- one move recorded twice

  const TWICE := Journal(APPLY_FAILED, Some(Path(true, [])), [MOVED, MOVED])

  lemma TwiceIsSafe()
    ensures InspectRenames(DISK, Unlimited, TWICE).0.suggested == SafeRollback
  {
    Names();
    YIsFree();
    FileFinding(TWICE, "p", Some(Path(true, ["y"])), FILE_P, MOVED);
    assert TWICE.entries[..1] == [MOVED] && [MOVED][..0] == [] && CountApplied([MOVED]) == 1;
    TwoSafeMoves(DISK, TWICE, Finding(true, false, false));
  }

  /** Both entries are safe, and the second finds its destination gone. */
  lemma RecordedTwice()
    ensures IsBlindSpot(TWICE) && AppliedAt(TWICE, 0) && AppliedAt(TWICE, 1)
    ensures DestinationAt(TWICE, 0) == DestinationAt(TWICE, 1) && !DestinationsDiffer(TWICE)
  {
    TwiceIsSafe();
    SafeVerdictProves(DISK, Unlimited, TWICE);
    assert AppliedAt(TWICE, 0) && AppliedAt(TWICE, 1);
    SharedDestinationFails(DISK, TWICE, 0, 1);
    SharedDestinationFails(DISK, TWICE, 1, 0);
    TwoFail(TWICE);
  }
}
