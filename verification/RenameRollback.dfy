/**
 What a SAFE_ROLLBACK verdict on a rename journal is worth: moving every applied file back and
 removing every created link succeeds in every order exactly when no two entries share a
 destination and each source has a free place of its own to return to.
 */
module RenameRollback {
  import opened Common
  import opened FileSystem
  import opened Evidence
  import opened Operation
  import opened RenameJournal
  import UndoJobs

  // ----- the plain meaning of undo

  /** Move the file back, refusing an occupied source or a missing destination; links are removed. */
  function UndoEntry(disk: Disk, entry: Entry): Option<Disk>
    requires entry.Entry?
  {
    if entry.destination.None? || !Lstat(disk, entry.destination.value).Found? then None
    else
      var from := Lstat(disk, entry.destination.value).at;
      if !entry.action.RenameMove? then Some(disk.(objects := disk.objects - {from}))
      else if entry.source.None? || PlaceOf(disk, entry.source.value).None? then None
      else
        var to := PlaceOf(disk, entry.source.value).value;
        if to in disk.objects then None
        else Some(disk.(objects := (disk.objects - {from})[to := disk.objects[from]]))
  }

  ghost predicate AppliedAt(journal: Journal, i: nat) {
    i < |journal.entries| && IsApplied(journal.entries[i])
  }

  ghost predicate OrderOf(journal: Journal, order: seq<nat>) {
    Distinct(order) && forall k | 0 <= k < |order| :: AppliedAt(journal, order[k])
  }

  /** Every applied entry exactly once. */
  ghost predicate IsOrder(journal: Journal, order: seq<nat>) {
    OrderOf(journal, order) && forall i: nat | AppliedAt(journal, i) :: i in order
  }

  ghost function UndoAll(disk: Disk, journal: Journal, order: seq<nat>): Option<Disk>
    requires OrderOf(journal, order)
    decreases |order|
  {
    if order == [] then Some(disk)
    else
      var next := UndoEntry(disk, journal.entries[order[0]]);
      if next.None? then None else UndoAll(next.value, journal, order[1..])
  }

  // ----- what the verdict establishes

  /** The entry's destination is there, literally at its path, and is what the entry made it. */
  ghost predicate Proven(disk: Disk, entry: Entry) {
    entry.Entry? && entry.destination.Some? &&
    var d := entry.destination.value;
    d.absolute && !HasParentStep(d) && Reachable(disk, d.parts) && d.parts in disk.objects &&
    match entry.action
    case RenameMove => MatchesIdentity(disk.objects[d.parts], entry.identity)
    case CreateHardlink(_) => disk.objects[d.parts].Regular?
    case CreateSymlink(_, expected) => disk.objects[d.parts].Symlink? && expected == Some(disk.objects[d.parts].text)
  }

  ghost predicate AllProven(disk: Disk, journal: Journal) {
    forall i: nat | AppliedAt(journal, i) :: Proven(disk, journal.entries[i])
  }

  /** Whatever the source, a finding counted as safe has its destination in place. */
  lemma SafeFindingProves(disk: Disk, limits: Limits, journal: Journal, entry: Entry)
    requires entry.Entry? && JudgeEntry(disk, limits, journal, entry).0.safe
    ensures Proven(disk, entry)
  {
    match entry.action
    case CreateSymlink(root, expected) => NoLinkMeansLiteral(disk, entry.destination.value);
    case CreateHardlink(root) =>
      IdentityIsSound(disk, limits, entry.destination.value, root, entry.identity.digest);
    case RenameMove =>
      IdentityIsSound(disk, limits, entry.destination.value, None, entry.identity.digest);
      SafePathNamesObject(disk, limits, entry.destination.value, None, entry.identity.digest);
  }

  lemma OnlyAppliedIsSafe(disk: Disk, limits: Limits, journal: Journal, entry: Entry)
    ensures JudgeEntry(disk, limits, journal, entry).0.safe ==> IsApplied(entry)
  {
  }

  /** When as many findings are safe as entries are applied, every applied entry is safe. */
  lemma {:induction false} CountsForceSafe(entries: seq<Entry>, each: seq<Finding>)
    requires |entries| == |each| && forall i | 0 <= i < |each| :: each[i].safe ==> IsApplied(entries[i])
    ensures TallyOf(each).safe <= CountApplied(entries)
    ensures TallyOf(each).safe == CountApplied(entries) ==>
      forall i | 0 <= i < |each| :: IsApplied(entries[i]) ==> each[i].safe
  {
    if each != [] {
      var n := |each| - 1;
      CountsForceSafe(entries[..n], each[..n]);
      if TallyOf(each).safe == CountApplied(entries) {
        forall i | 0 <= i < |each| && IsApplied(entries[i]) ensures each[i].safe {
          if i < n { assert entries[..n][i] == entries[i] && each[..n][i] == each[i]; }
        }
      }
    }
  }

  lemma {:induction false} FindingOfEntry(disk: Disk, limits: Limits, journal: Journal, n: nat, i: nat)
    returns (before: Limits)
    requires i < n <= |journal.entries|
    ensures JudgeFirst(disk, limits, journal, n).each[i] == JudgeEntry(disk, before, journal, journal.entries[i]).0
  {
    if i == n - 1 {
      before := JudgeFirst(disk, limits, journal, n - 1).limits;
    } else {
      before := FindingOfEntry(disk, limits, journal, n - 1, i);
    }
  }

  /** After a safe verdict the finding of every applied entry is safe. */
  lemma SafeVerdictIsSafe(disk: Disk, limits: Limits, journal: Journal, i: nat) returns (before: Limits)
    requires InspectRenames(disk, limits, journal).0.suggested == SafeRollback && AppliedAt(journal, i)
    ensures JudgeEntry(disk, before, journal, journal.entries[i]).0.safe
  {
    var n := |journal.entries|;
    var each := JudgeFirst(disk, limits, journal, n).each;
    forall k | 0 <= k < n ensures each[k].safe ==> IsApplied(journal.entries[k]) {
      var then_ := FindingOfEntry(disk, limits, journal, n, k);
      OnlyAppliedIsSafe(disk, then_, journal, journal.entries[k]);
    }
    CountsForceSafe(journal.entries, each);
    before := FindingOfEntry(disk, limits, journal, n, i);
    assert each[i].safe;
  }

  lemma SafeVerdictProves(disk: Disk, limits: Limits, journal: Journal)
    requires InspectRenames(disk, limits, journal).0.suggested == SafeRollback
    ensures AllProven(disk, journal)
  {
    forall i: nat | AppliedAt(journal, i) ensures Proven(disk, journal.entries[i]) {
      var before := SafeVerdictIsSafe(disk, limits, journal, i);
      SafeFindingProves(disk, before, journal, journal.entries[i]);
    }
  }

  // ----- where the files can return to

  predicate CreatesLinkAt(journal: Journal, at: Location) {
    exists i | 0 <= i < |journal.entries| ::
      IsApplied(journal.entries[i]) && journal.entries[i].action.CreateSymlink? &&
      journal.entries[i].destination == Some(Path(true, at))
  }

  /** The disk without the links this transaction created: what every source must be reachable on. */
  function Bare(disk: Disk, journal: Journal): Disk {
    disk.(objects := map at | at in disk.objects && !CreatesLinkAt(journal, at) :: disk.objects[at])
  }

  ghost predicate MovedAt(journal: Journal, i: nat) {
    AppliedAt(journal, i) && journal.entries[i].action.RenameMove? && journal.entries[i].source.Some?
  }

  ghost predicate HasPlace(disk: Disk, journal: Journal, i: nat)
    requires MovedAt(journal, i)
  {
    PlaceOf(Bare(disk, journal), journal.entries[i].source.value).Some?
  }

  ghost function Return(disk: Disk, journal: Journal, i: nat): Location
    requires MovedAt(journal, i) && HasPlace(disk, journal, i)
  {
    PlaceOf(Bare(disk, journal), journal.entries[i].source.value).value
  }

  /** Every moved file has a source with a parent directory to return to, and no two return to one place. */
  ghost predicate SourcesReturn(disk: Disk, journal: Journal) {
    (forall i: nat | AppliedAt(journal, i) && journal.entries[i].action.RenameMove? ::
      MovedAt(journal, i) && HasPlace(disk, journal, i)) &&
    forall i: nat, j: nat | MovedAt(journal, i) && MovedAt(journal, j) && i != j &&
        HasPlace(disk, journal, i) && HasPlace(disk, journal, j) ::
      Return(disk, journal, i) != Return(disk, journal, j)
  }

  /** No source has something else at the place it would return to. */
  ghost predicate PlacesVacant(disk: Disk, journal: Journal) {
    forall i: nat | MovedAt(journal, i) && HasPlace(disk, journal, i) :: Return(disk, journal, i) !in disk.objects
  }

  ghost function DestinationAt(journal: Journal, i: nat): Location
    requires AppliedAt(journal, i)
  {
    if journal.entries[i].destination.Some? then journal.entries[i].destination.value.parts else []
  }

  ghost predicate DestinationsDiffer(journal: Journal) {
    forall i: nat, j: nat | AppliedAt(journal, i) && AppliedAt(journal, j) && i != j ::
      DestinationAt(journal, i) != DestinationAt(journal, j)
  }

  /** What a caller checks before undoing: destinations differ, and each source has a free place of its own. */
  ghost predicate CanReturn(disk: Disk, journal: Journal) {
    DestinationsDiffer(journal) && PlacesVacant(disk, journal) && SourcesReturn(disk, journal)
  }

  lemma ReturnIsPlace(disk: Disk, journal: Journal, i: nat)
    requires MovedAt(journal, i) && HasPlace(disk, journal, i)
    ensures PlaceOf(disk, journal.entries[i].source.value) == Some(Return(disk, journal, i))
  {
    PlaceKept(Bare(disk, journal), disk, journal.entries[i].source.value);
  }

  // ----- sufficiency: any order works

  /** Entry `i` can still be undone on `now`. */
  ghost predicate StillReady(disk: Disk, now: Disk, journal: Journal, i: nat) {
    AppliedAt(journal, i) &&
    DestinationAt(journal, i) in now.objects && DestinationAt(journal, i) in disk.objects &&
    now.objects[DestinationAt(journal, i)] == disk.objects[DestinationAt(journal, i)] &&
    (MovedAt(journal, i) && HasPlace(disk, journal, i) ==> Return(disk, journal, i) !in now.objects)
  }

  lemma CreatedLinkIsLink(disk: Disk, journal: Journal, at: Location)
    requires AllProven(disk, journal) && CreatesLinkAt(journal, at)
    ensures at in disk.objects && disk.objects[at].Symlink?
  {
    var i: nat :| i < |journal.entries| && IsApplied(journal.entries[i]) && journal.entries[i].action.CreateSymlink? &&
      journal.entries[i].destination == Some(Path(true, at));
    assert AppliedAt(journal, i);
    assert Proven(disk, journal.entries[i]);
  }

  lemma DestinationFound(disk: Disk, now: Disk, journal: Journal, i: nat)
    requires AllProven(disk, journal) && KeepsSkeleton(Bare(disk, journal), now) && AppliedAt(journal, i)
    requires DestinationAt(journal, i) in now.objects
    ensures journal.entries[i].destination.Some? &&
      Lstat(now, journal.entries[i].destination.value) == Found(DestinationAt(journal, i))
  {
    assert Proven(disk, journal.entries[i]);
    var at := DestinationAt(journal, i);
    forall k | 0 <= k < |at| ensures at[..k] in now.objects && now.objects[at[..k]] == Directory(true) {
      assert at[..k] in disk.objects && disk.objects[at[..k]] == Directory(true);
      assert !CreatesLinkAt(journal, at[..k]) by {
        if CreatesLinkAt(journal, at[..k]) { CreatedLinkIsLink(disk, journal, at[..k]); }
      }
      assert at[..k] in Bare(disk, journal).objects;
    }
    PlainLookup(now, at, false);
  }

  /** What one undo step writes: the returned file, if any, and the vacated destination. */
  lemma UndoStep(disk: Disk, now: Disk, journal: Journal, i: nat)
    requires AllProven(disk, journal) && CanReturn(disk, journal)
    requires KeepsSkeleton(Bare(disk, journal), now) && StillReady(disk, now, journal, i)
    ensures UndoEntry(now, journal.entries[i]).Some?
    ensures var next := UndoEntry(now, journal.entries[i]).value; var from := DestinationAt(journal, i);
      KeepsSkeleton(Bare(disk, journal), next) &&
      next.objects ==
        if MovedAt(journal, i) then (now.objects - {from})[Return(disk, journal, i) := disk.objects[from]]
        else now.objects - {from}
  {
    DestinationFound(disk, now, journal, i);
    assert Proven(disk, journal.entries[i]);
    var entry := journal.entries[i];
    var from := DestinationAt(journal, i);
    var bare := Bare(disk, journal);
    if entry.action.RenameMove? {
      assert MovedAt(journal, i);
      PlaceKept(bare, now, entry.source.value);
    } else if entry.action.CreateSymlink? {
      assert entry.destination == Some(Path(true, from));
      assert CreatesLinkAt(journal, from);
    }
    assert from in bare.objects ==> bare.objects[from].Regular?;
  }

  lemma StepKeepsReady(disk: Disk, now: Disk, journal: Journal, i: nat, j: nat)
    requires AllProven(disk, journal) && CanReturn(disk, journal)
    requires KeepsSkeleton(Bare(disk, journal), now) && i != j
    requires StillReady(disk, now, journal, i) && StillReady(disk, now, journal, j)
    ensures UndoEntry(now, journal.entries[i]).Some? &&
      StillReady(disk, UndoEntry(now, journal.entries[i]).value, journal, j)
  {
    UndoStep(disk, now, journal, i);
    assert Proven(disk, journal.entries[j]);
  }

  ghost predicate AllReady(disk: Disk, now: Disk, journal: Journal, order: seq<nat>) {
    KeepsSkeleton(Bare(disk, journal), now) && OrderOf(journal, order) &&
    forall k | 0 <= k < |order| :: StillReady(disk, now, journal, order[k])
  }

  lemma Advance(disk: Disk, now: Disk, journal: Journal, order: seq<nat>)
    requires AllProven(disk, journal) && CanReturn(disk, journal)
    requires order != [] && AllReady(disk, now, journal, order)
    ensures UndoEntry(now, journal.entries[order[0]]).Some?
    ensures AllReady(disk, UndoEntry(now, journal.entries[order[0]]).value, journal, order[1..])
  {
    UndoStep(disk, now, journal, order[0]);
    var next := UndoEntry(now, journal.entries[order[0]]).value;
    var rest := order[1..];
    forall k | 0 <= k < |rest| ensures StillReady(disk, next, journal, rest[k]) {
      assert rest[k] == order[k + 1];
      StepKeepsReady(disk, now, journal, order[0], order[k + 1]);
    }
    OrderTail(journal, order);
  }

  lemma OrderTail(journal: Journal, order: seq<nat>)
    requires order != [] && OrderOf(journal, order)
    ensures OrderOf(journal, order[1..])
  {
    forall k | 0 <= k < |order[1..]| ensures AppliedAt(journal, order[1..][k]) { assert order[1..][k] == order[k + 1]; }
  }

  lemma {:induction false} AnyOrderSucceeds(disk: Disk, now: Disk, journal: Journal, order: seq<nat>)
    requires AllProven(disk, journal) && CanReturn(disk, journal)
    requires AllReady(disk, now, journal, order)
    ensures UndoAll(now, journal, order).Some?
    ensures KeepsSkeleton(Bare(disk, journal), UndoAll(now, journal, order).value)
    decreases |order|
  {
    if order != [] {
      Advance(disk, now, journal, order);
      AnyOrderSucceeds(disk, UndoEntry(now, journal.entries[order[0]]).value, journal, order[1..]);
    }
  }

  /** A place that is neither vacated nor returned to by the order keeps its content. */
  lemma {:induction false} UndoLeaves(disk: Disk, now: Disk, journal: Journal, order: seq<nat>, at: Location)
    requires AllProven(disk, journal) && CanReturn(disk, journal)
    requires AllReady(disk, now, journal, order)
    requires forall k | 0 <= k < |order| ::
      DestinationAt(journal, order[k]) != at && (MovedAt(journal, order[k]) ==> Return(disk, journal, order[k]) != at)
    ensures UndoAll(now, journal, order).Some?
    ensures var end := UndoAll(now, journal, order).value;
      (at in end.objects <==> at in now.objects) && (at in now.objects ==> end.objects[at] == now.objects[at])
    decreases |order|
  {
    if order != [] {
      Advance(disk, now, journal, order);
      UndoStep(disk, now, journal, order[0]);
      UndoLeaves(disk, UndoEntry(now, journal.entries[order[0]]).value, journal, order[1..], at);
    }
  }

  /** Entry `order[k]` has left its destination, and a moved file is back at its source. */
  ghost predicate Undone(disk: Disk, end: Disk, journal: Journal, i: nat)
    requires AppliedAt(journal, i)
  {
    DestinationAt(journal, i) !in end.objects &&
    (MovedAt(journal, i) ==>
      var found := Lstat(end, journal.entries[i].source.value);
      found.Found? && MatchesIdentity(end.objects[found.at], journal.entries[i].identity))
  }

  lemma {:induction false} UndoReaches(disk: Disk, now: Disk, journal: Journal, order: seq<nat>, k: nat)
    requires AllProven(disk, journal) && CanReturn(disk, journal)
    requires AllReady(disk, now, journal, order) && k < |order|
    ensures UndoAll(now, journal, order).Some?
    ensures var end := UndoAll(now, journal, order).value; var from := DestinationAt(journal, order[k]);
      from !in end.objects && (MovedAt(journal, order[k]) ==>
        Return(disk, journal, order[k]) in end.objects &&
        end.objects[Return(disk, journal, order[k])] == disk.objects[from])
    decreases |order|
  {
    Advance(disk, now, journal, order);
    var next := UndoEntry(now, journal.entries[order[0]]).value;
    if k > 0 {
      assert order[1..][k - 1] == order[k];
      UndoReaches(disk, next, journal, order[1..], k - 1);
    } else {
      UndoStep(disk, now, journal, order[0]);
      RestLeavesFirst(disk, next, journal, order);
    }
  }

  lemma RestLeavesFirst(disk: Disk, next: Disk, journal: Journal, order: seq<nat>)
    requires AllProven(disk, journal) && CanReturn(disk, journal)
    requires order != [] && OrderOf(journal, order) && AllReady(disk, next, journal, order[1..])
    requires var from := DestinationAt(journal, order[0]); from !in next.objects && from in disk.objects
    requires MovedAt(journal, order[0]) ==> Return(disk, journal, order[0]) in next.objects
    ensures UndoAll(next, journal, order[1..]).Some?
    ensures var end := UndoAll(next, journal, order[1..]).value;
      DestinationAt(journal, order[0]) !in end.objects &&
      (MovedAt(journal, order[0]) ==> var to := Return(disk, journal, order[0]);
        to in end.objects && end.objects[to] == next.objects[to])
  {
    var i, rest := order[0], order[1..];
    var from := DestinationAt(journal, i);
    forall k | 0 <= k < |rest|
      ensures DestinationAt(journal, rest[k]) != from &&
        (MovedAt(journal, rest[k]) ==> Return(disk, journal, rest[k]) != from)
      ensures MovedAt(journal, i) ==> DestinationAt(journal, rest[k]) != Return(disk, journal, i)
      ensures MovedAt(journal, i) && MovedAt(journal, rest[k]) ==>
        Return(disk, journal, rest[k]) != Return(disk, journal, i)
    {
      assert rest[k] == order[k + 1];
      assert Proven(disk, journal.entries[rest[k]]);
    }
    UndoLeaves(disk, next, journal, rest, from);
    if MovedAt(journal, i) { UndoLeaves(disk, next, journal, rest, Return(disk, journal, i)); }
  }

  lemma StartsReady(disk: Disk, journal: Journal, order: seq<nat>)
    requires AllProven(disk, journal) && CanReturn(disk, journal) && OrderOf(journal, order)
    ensures AllReady(disk, disk, journal, order)
  {
    forall k | 0 <= k < |order| ensures StillReady(disk, disk, journal, order[k]) {
      assert Proven(disk, journal.entries[order[k]]);
    }
  }

  /** What the order neither vacates nor returns to is as it was. */
  ghost predicate OthersKept(disk: Disk, end: Disk, journal: Journal) {
    forall at | forall i: nat | AppliedAt(journal, i) ::
        DestinationAt(journal, i) != at &&
        (MovedAt(journal, i) && HasPlace(disk, journal, i) ==> Return(disk, journal, i) != at) ::
      UndoJobs.SameAt(disk, end, at)
  }

  ghost predicate AllUndone(disk: Disk, end: Disk, journal: Journal) {
    forall i: nat | AppliedAt(journal, i) :: Undone(disk, end, journal, i)
  }

  /** Any order meets no occupied source and no missing destination, and puts everything back. */
  lemma ProvenOrderRestores(disk: Disk, journal: Journal, order: seq<nat>)
    requires AllProven(disk, journal) && CanReturn(disk, journal) && IsOrder(journal, order)
    ensures UndoAll(disk, journal, order).Some?
    ensures var end := UndoAll(disk, journal, order).value;
      AllUndone(disk, end, journal) && OthersKept(disk, end, journal)
  {
    StartsReady(disk, journal, order);
    AnyOrderSucceeds(disk, disk, journal, order);
    var end := UndoAll(disk, journal, order).value;
    forall i: nat | AppliedAt(journal, i) ensures Undone(disk, end, journal, i) {
      var k :| 0 <= k < |order| && order[k] == i;
      UndoReaches(disk, disk, journal, order, k);
      if MovedAt(journal, i) {
        assert Proven(disk, journal.entries[i]);
        PlaceKept(Bare(disk, journal), end, journal.entries[i].source.value);
        LstatAtPlace(end, journal.entries[i].source.value);
      }
    }
    forall at | forall i: nat | AppliedAt(journal, i) ::
        DestinationAt(journal, i) != at &&
        (MovedAt(journal, i) && HasPlace(disk, journal, i) ==> Return(disk, journal, i) != at)
      ensures UndoJobs.SameAt(disk, end, at)
    {
      UndoLeaves(disk, disk, journal, order, at);
    }
  }

  // ----- necessity: removing the created links first needs exactly those places

  ghost predicate Untouched(disk: Disk, now: Disk, journal: Journal, i: nat) {
    AppliedAt(journal, i) &&
    var at := DestinationAt(journal, i);
    at in now.objects && at in disk.objects && now.objects[at] == disk.objects[at]
  }

  /** On a disk with the bare skeleton, a successful undo shows that each source had its own place. */
  lemma {:induction false} SuccessShowsPlaces(disk: Disk, now: Disk, journal: Journal, order: seq<nat>)
    requires AllProven(disk, journal) && DestinationsDiffer(journal) && PlacesVacant(disk, journal) &&
      OrderOf(journal, order)
    requires forall k | 0 <= k < |order| :: !journal.entries[order[k]].action.CreateSymlink?
    requires forall k | 0 <= k < |order| :: Untouched(disk, now, journal, order[k])
    requires SameSkeleton(Bare(disk, journal), now) && UndoAll(now, journal, order).Some?
    ensures forall k | 0 <= k < |order| && journal.entries[order[k]].action.RenameMove? :: MovedAt(journal, order[k])
    ensures forall k | 0 <= k < |order| && MovedAt(journal, order[k]) ::
      HasPlace(disk, journal, order[k]) && Return(disk, journal, order[k]) !in now.objects
    ensures forall k, m | 0 <= k < m < |order| && MovedAt(journal, order[k]) && MovedAt(journal, order[m]) ::
      Return(disk, journal, order[k]) != Return(disk, journal, order[m])
    decreases |order|
  {
    if order != [] {
      var i, rest := order[0], order[1..];
      var next := UndoEntry(now, journal.entries[i]).value;
      FirstStepSucceeded(disk, now, journal, order);
      OrderTail(journal, order);
      forall k | 0 <= k < |rest|
        ensures !journal.entries[rest[k]].action.CreateSymlink?
        ensures Untouched(disk, next, journal, rest[k])
      {
        assert rest[k] == order[k + 1];
        assert Proven(disk, journal.entries[rest[k]]);
      }
      SuccessShowsPlaces(disk, next, journal, rest);
      forall k | 0 < k < |order| && journal.entries[order[k]].action.RenameMove? ensures MovedAt(journal, order[k]) {
        assert order[k] == rest[k - 1];
      }
      forall k | 0 < k < |order| && MovedAt(journal, order[k])
        ensures HasPlace(disk, journal, order[k]) && Return(disk, journal, order[k]) !in now.objects
        ensures MovedAt(journal, i) ==> Return(disk, journal, order[k]) != Return(disk, journal, i)
      {
        assert order[k] == rest[k - 1];
        assert Proven(disk, journal.entries[i]);
      }
      forall k, m | 0 <= k < m < |order| && MovedAt(journal, order[k]) && MovedAt(journal, order[m])
        ensures Return(disk, journal, order[k]) != Return(disk, journal, order[m])
      {
        if k > 0 { assert order[k] == rest[k - 1] && order[m] == rest[m - 1]; }
      }
    }
  }

  lemma FirstStepSucceeded(disk: Disk, now: Disk, journal: Journal, order: seq<nat>)
    requires AllProven(disk, journal) && PlacesVacant(disk, journal) && OrderOf(journal, order) && order != []
    requires !journal.entries[order[0]].action.CreateSymlink?
    requires Untouched(disk, now, journal, order[0])
    requires SameSkeleton(Bare(disk, journal), now) && UndoEntry(now, journal.entries[order[0]]).Some?
    ensures var i := order[0]; var next := UndoEntry(now, journal.entries[i]).value;
      var from := DestinationAt(journal, i);
      SameSkeleton(Bare(disk, journal), next) && (journal.entries[i].action.RenameMove? ==> MovedAt(journal, i)) &&
      if MovedAt(journal, i) then
        HasPlace(disk, journal, i) && Return(disk, journal, i) !in now.objects &&
        Return(disk, journal, i) !in disk.objects &&
        next.objects == (now.objects - {from})[Return(disk, journal, i) := disk.objects[from]]
      else next.objects == now.objects - {from}
  {
    var i := order[0];
    var entry := journal.entries[i];
    assert Proven(disk, entry);
    DestinationFound(disk, now, journal, i);
    if entry.action.RenameMove? {
      PlaceKept(now, Bare(disk, journal), entry.source.value);
    }
  }

  lemma OrderSplit(journal: Journal, a: seq<nat>, b: seq<nat>)
    requires OrderOf(journal, a + b)
    ensures OrderOf(journal, a) && OrderOf(journal, b)
  {
    forall k | 0 <= k < |a| ensures AppliedAt(journal, a[k]) { assert a[k] == (a + b)[k]; }
    forall k | 0 <= k < |b| ensures AppliedAt(journal, b[k]) { assert b[k] == (a + b)[|a| + k]; }
    forall k, m | 0 <= k < m < |a| ensures a[k] != a[m] { assert a[k] == (a + b)[k] && a[m] == (a + b)[m]; }
    forall k, m | 0 <= k < m < |b| ensures b[k] != b[m] { assert b[k] == (a + b)[|a| + k] && b[m] == (a + b)[|a| + m]; }
  }

  lemma {:induction false} UndoInParts(disk: Disk, journal: Journal, a: seq<nat>, b: seq<nat>)
    requires OrderOf(journal, a + b) && OrderOf(journal, a) && OrderOf(journal, b)
    ensures UndoAll(disk, journal, a + b) ==
      if UndoAll(disk, journal, a).None? then None else UndoAll(UndoAll(disk, journal, a).value, journal, b)
    decreases |a|
  {
    if a == [] {
      assert a + b == b;
    } else {
      assert (a + b)[0] == a[0] && (a + b)[1..] == a[1..] + b;
      OrderTail(journal, a + b);
      OrderTail(journal, a);
      var next := UndoEntry(disk, journal.entries[a[0]]);
      if next.Some? { UndoInParts(next.value, journal, a[1..], b); }
    }
  }

  ghost predicate Vacates(journal: Journal, order: seq<nat>, at: Location)
    requires OrderOf(journal, order)
  {
    exists k | 0 <= k < |order| :: DestinationAt(journal, order[k]) == at
  }

  lemma VacatesFirst(journal: Journal, order: seq<nat>, at: Location)
    requires OrderOf(journal, order) && order != [] && OrderOf(journal, order[1..])
    ensures Vacates(journal, order, at) <==> at == DestinationAt(journal, order[0]) || Vacates(journal, order[1..], at)
  {
    if at == DestinationAt(journal, order[0]) { assert DestinationAt(journal, order[0]) == at; }
    if k :| 0 <= k < |order[1..]| && DestinationAt(journal, order[1..][k]) == at {
      assert order[k + 1] == order[1..][k];
    }
    if k :| 0 < k < |order| && DestinationAt(journal, order[k]) == at { assert order[1..][k - 1] == order[k]; }
  }

  /** Removing one created link leaves the others. */
  lemma LinkIsRemoved(disk: Disk, now: Disk, journal: Journal, links: seq<nat>)
    requires AllProven(disk, journal) && DestinationsDiffer(journal) && OrderOf(journal, links) && links != []
    requires forall k | 0 <= k < |links| ::
      journal.entries[links[k]].action.CreateSymlink? && Untouched(disk, now, journal, links[k])
    requires KeepsSkeleton(Bare(disk, journal), now)
    ensures var next := now.(objects := now.objects - {DestinationAt(journal, links[0])});
      UndoEntry(now, journal.entries[links[0]]) == Some(next) && KeepsSkeleton(Bare(disk, journal), next) &&
      forall k | 0 <= k < |links[1..]| ::
        journal.entries[links[1..][k]].action.CreateSymlink? && Untouched(disk, next, journal, links[1..][k])
  {
    var i, rest := links[0], links[1..];
    var from := DestinationAt(journal, i);
    DestinationFound(disk, now, journal, i);
    assert Proven(disk, journal.entries[i]) && journal.entries[i].destination == Some(Path(true, from));
    assert CreatesLinkAt(journal, from);
    forall k | 0 <= k < |rest|
      ensures journal.entries[rest[k]].action.CreateSymlink? && AppliedAt(journal, rest[k])
      ensures Untouched(disk, now, journal, rest[k]) && DestinationAt(journal, rest[k]) != from
    {
      assert rest[k] == links[k + 1];
    }
  }

  /** Removing created links takes exactly those links away. */
  lemma {:induction false} LinksAreRemoved(disk: Disk, now: Disk, journal: Journal, links: seq<nat>)
    requires AllProven(disk, journal) && DestinationsDiffer(journal) && OrderOf(journal, links)
    requires forall k | 0 <= k < |links| ::
      journal.entries[links[k]].action.CreateSymlink? && Untouched(disk, now, journal, links[k])
    requires KeepsSkeleton(Bare(disk, journal), now)
    ensures UndoAll(now, journal, links).Some?
    ensures var end := UndoAll(now, journal, links).value;
      end.cwd == now.cwd && end.objects == map at | at in now.objects && !Vacates(journal, links, at) :: now.objects[at]
    decreases |links|
  {
    if links != [] {
      var next := now.(objects := now.objects - {DestinationAt(journal, links[0])});
      OrderTail(journal, links);
      LinkIsRemoved(disk, now, journal, links);
      LinksAreRemoved(disk, next, journal, links[1..]);
      forall at
        ensures Vacates(journal, links, at) <==>
          at == DestinationAt(journal, links[0]) || Vacates(journal, links[1..], at)
      {
        VacatesFirst(journal, links, at);
      }
    }
  }

  ghost predicate IsLinkAt(journal: Journal, i: nat) {
    AppliedAt(journal, i) && journal.entries[i].action.CreateSymlink?
  }

  /** The order takes away all created links, and does nothing else. */
  ghost predicate RemovesLinks(journal: Journal, links: seq<nat>) {
    OrderOf(journal, links) && (forall k | 0 <= k < |links| :: IsLinkAt(journal, links[k])) &&
    forall i: nat | IsLinkAt(journal, i) :: i in links
  }

  lemma BareAfterLinks(disk: Disk, journal: Journal, links: seq<nat>)
    requires AllProven(disk, journal) && DestinationsDiffer(journal) && RemovesLinks(journal, links)
    ensures UndoAll(disk, journal, links) == Some(Bare(disk, journal))
  {
    forall k | 0 <= k < |links|
      ensures journal.entries[links[k]].action.CreateSymlink? && Untouched(disk, disk, journal, links[k])
    {
      assert IsLinkAt(journal, links[k]) && Proven(disk, journal.entries[links[k]]);
    }
    LinksAreRemoved(disk, disk, journal, links);
    forall at ensures Vacates(journal, links, at) <==> CreatesLinkAt(journal, at) {
      if Vacates(journal, links, at) {
        var k :| 0 <= k < |links| && DestinationAt(journal, links[k]) == at;
        assert IsLinkAt(journal, links[k]) && Proven(disk, journal.entries[links[k]]);
        assert journal.entries[links[k]].destination == Some(Path(true, at));
      }
      if CreatesLinkAt(journal, at) {
        var i: nat :| i < |journal.entries| && IsApplied(journal.entries[i]) &&
          journal.entries[i].action.CreateSymlink? && journal.entries[i].destination == Some(Path(true, at));
        assert IsLinkAt(journal, i);
        var k :| 0 <= k < |links| && links[k] == i;
        assert DestinationAt(journal, links[k]) == at;
      }
    }
    assert UndoAll(disk, journal, links).value.objects == Bare(disk, journal).objects;
  }

  lemma NonLinkSurvives(disk: Disk, journal: Journal, i: nat)
    requires AllProven(disk, journal) && AppliedAt(journal, i) && !journal.entries[i].action.CreateSymlink?
    ensures Untouched(disk, Bare(disk, journal), journal, i)
  {
    assert Proven(disk, journal.entries[i]);
    if CreatesLinkAt(journal, DestinationAt(journal, i)) {
      CreatedLinkIsLink(disk, journal, DestinationAt(journal, i));
    }
  }

  /**
   Where destinations differ and places are vacant, removing the links first succeeds exactly when the
   sources can return.
   */
  lemma LinksFirstShowsPlaces(disk: Disk, journal: Journal, links: seq<nat>, others: seq<nat>)
    requires AllProven(disk, journal) && DestinationsDiffer(journal) && PlacesVacant(disk, journal)
    requires IsOrder(journal, links + others) && RemovesLinks(journal, links)
    requires UndoAll(disk, journal, links + others).Some?
    ensures SourcesReturn(disk, journal)
  {
    OrderSplit(journal, links, others);
    UndoInParts(disk, journal, links, others);
    BareAfterLinks(disk, journal, links);
    var bare := Bare(disk, journal);
    forall k | 0 <= k < |others|
      ensures !journal.entries[others[k]].action.CreateSymlink? && Untouched(disk, bare, journal, others[k])
    {
      forall m | 0 <= m < |links| ensures links[m] != others[k] {
        assert (links + others)[m] == links[m] && (links + others)[|links| + k] == others[k];
      }
      assert others[k] !in links && !IsLinkAt(journal, others[k]);
      NonLinkSurvives(disk, journal, others[k]);
    }
    SuccessShowsPlaces(disk, bare, journal, others);
    forall i: nat | AppliedAt(journal, i) && journal.entries[i].action.RenameMove?
      ensures i in others && MovedAt(journal, i) && HasPlace(disk, journal, i)
    {
      assert i in links + others;
      assert forall k | 0 <= k < |links| :: IsLinkAt(journal, links[k]);
      var k :| 0 <= k < |others| && others[k] == i;
    }
  }

  // ----- necessity on any journal: one order fails for each condition that does not hold

  ghost predicate EveryOrderSucceeds(disk: Disk, journal: Journal) {
    forall order | IsOrder(journal, order) :: UndoAll(disk, journal, order).Some?
  }

  ghost predicate EveryOrderRestores(disk: Disk, journal: Journal) {
    forall order | IsOrder(journal, order) ::
      UndoAll(disk, journal, order).Some? &&
      AllUndone(disk, UndoAll(disk, journal, order).value, journal) &&
      OthersKept(disk, UndoAll(disk, journal, order).value, journal)
  }

  /** Any start can be completed to an order. */
  lemma CompleteOrder(journal: Journal, start: seq<nat>) returns (rest: seq<nat>)
    requires OrderOf(journal, start)
    ensures IsOrder(journal, start + rest)
  {
    rest := [];
    for m := 0 to |journal.entries|
      invariant OrderOf(journal, start + rest)
      invariant forall i: nat | AppliedAt(journal, i) && i < m :: i in start + rest
    {
      if IsApplied(journal.entries[m]) && m !in start + rest {
        AppendToOrder(journal, start + rest, m);
        assert start + (rest + [m]) == (start + rest) + [m];
        rest := rest + [m];
      }
    }
  }

  lemma AppendToOrder(journal: Journal, order: seq<nat>, m: nat)
    requires OrderOf(journal, order) && AppliedAt(journal, m) && m !in order
    ensures OrderOf(journal, order + [m])
  {
    var more := order + [m];
    forall k | 0 <= k < |more| ensures AppliedAt(journal, more[k]) { if k < |order| { assert more[k] == order[k]; } }
  }

  lemma FailingStart(disk: Disk, journal: Journal, start: seq<nat>)
    requires OrderOf(journal, start) && UndoAll(disk, journal, start).None?
    ensures !EveryOrderSucceeds(disk, journal)
  {
    var rest := CompleteOrder(journal, start);
    OrderSplit(journal, start, rest);
    UndoInParts(disk, journal, start, rest);
  }

  lemma OneStep(disk: Disk, journal: Journal, i: nat)
    requires AppliedAt(journal, i)
    ensures OrderOf(journal, [i]) && UndoAll(disk, journal, [i]) == UndoEntry(disk, journal.entries[i])
  {
    assert [i][1..] == [];
  }

  lemma FirstOfTwo(disk: Disk, journal: Journal, i: nat, j: nat)
    requires AppliedAt(journal, i) && AppliedAt(journal, j) && i != j
    ensures OrderOf(journal, [i]) && OrderOf(journal, [i, j])
    ensures UndoAll(disk, journal, [i]) == UndoEntry(disk, journal.entries[i])
    ensures UndoAll(disk, journal, [i, j]) ==
      if UndoEntry(disk, journal.entries[i]).None? then None
      else UndoEntry(UndoEntry(disk, journal.entries[i]).value, journal.entries[j])
  {
    OneStep(disk, journal, i);
    var next := UndoEntry(disk, journal.entries[i]);
    assert [i, j][1..] == [j];
    if next.Some? { OneStep(next.value, journal, j); }
  }

  /** What the first undo step leaves, if it succeeds. */
  lemma FirstStep(disk: Disk, journal: Journal, i: nat)
    requires AllProven(disk, journal) && AppliedAt(journal, i) && UndoEntry(disk, journal.entries[i]).Some?
    ensures var next := UndoEntry(disk, journal.entries[i]).value; var from := DestinationAt(journal, i);
      next.cwd == disk.cwd && from in disk.objects && !disk.objects[from].Directory? &&
      if journal.entries[i].action.RenameMove? then
        MovedAt(journal, i) && PlaceOf(disk, journal.entries[i].source.value).Some? &&
        var to := PlaceOf(disk, journal.entries[i].source.value).value;
        to !in disk.objects && next.objects == (disk.objects - {from})[to := disk.objects[from]]
      else next.objects == disk.objects - {from}
  {
    assert Proven(disk, journal.entries[i]);
    PlainLookup(disk, DestinationAt(journal, i), false);
  }

  /** Undone one right after the other, two entries with one destination fail. */
  lemma SharedDestinationFails(disk: Disk, journal: Journal, i: nat, j: nat)
    requires AllProven(disk, journal) && AppliedAt(journal, i) && AppliedAt(journal, j) && i != j
    requires DestinationAt(journal, i) == DestinationAt(journal, j)
    ensures OrderOf(journal, [i, j]) && UndoAll(disk, journal, [i, j]).None?
  {
    FirstOfTwo(disk, journal, i, j);
    if UndoEntry(disk, journal.entries[i]).Some? {
      var next, at := UndoEntry(disk, journal.entries[i]).value, DestinationAt(journal, i);
      FirstStep(disk, journal, i);
      assert Proven(disk, journal.entries[j]);
      forall k | 0 <= k < |at| ensures at[..k] in next.objects && next.objects[at[..k]] == Directory(true) {
        assert at[..k] in disk.objects && disk.objects[at[..k]] == Directory(true);
      }
      if at == [] { assert Lstat(next, Path(true, [])) == Missing; } else { PlainMissing(next, at, false); }
    }
  }

  /** The first of all orders meets something at the place it returns to. */
  lemma OccupiedPlaceFails(disk: Disk, journal: Journal, i: nat)
    requires MovedAt(journal, i) && HasPlace(disk, journal, i) && Return(disk, journal, i) in disk.objects
    ensures OrderOf(journal, [i]) && UndoAll(disk, journal, [i]).None?
  {
    ReturnIsPlace(disk, journal, i);
    OneStep(disk, journal, i);
  }

  lemma MissingSourceFails(disk: Disk, journal: Journal, i: nat)
    requires AppliedAt(journal, i) && journal.entries[i].action.RenameMove? && journal.entries[i].source.None?
    ensures OrderOf(journal, [i]) && UndoAll(disk, journal, [i]).None?
  {
    OneStep(disk, journal, i);
  }

  /** Undone one right after the other, the second of two entries with one place finds the first's file there. */
  lemma SharedPlaceFails(disk: Disk, journal: Journal, i: nat, j: nat)
    requires AllProven(disk, journal) && MovedAt(journal, i) && MovedAt(journal, j) && i != j
    requires HasPlace(disk, journal, i) && HasPlace(disk, journal, j)
    requires Return(disk, journal, i) == Return(disk, journal, j)
    ensures OrderOf(journal, [i, j]) && UndoAll(disk, journal, [i, j]).None?
  {
    FirstOfTwo(disk, journal, i, j);
    if UndoEntry(disk, journal.entries[i]).Some? {
      FirstStep(disk, journal, i);
      ReturnIsPlace(disk, journal, i);
      assert Proven(disk, journal.entries[i]);
      PlaceKept(Bare(disk, journal), UndoEntry(disk, journal.entries[i]).value, journal.entries[j].source.value);
    }
  }

  /** Without the created links the source has no place: removing them first and then moving the file back fails. */
  lemma LostPlaceFails(disk: Disk, journal: Journal, i: nat) returns (start: seq<nat>)
    requires AllProven(disk, journal) && DestinationsDiffer(journal) && MovedAt(journal, i) &&
      !HasPlace(disk, journal, i)
    ensures OrderOf(journal, start) && UndoAll(disk, journal, start).None?
  {
    var links := AllLinks(journal);
    start := links + [i];
    AppendToOrder(journal, links, i);
    BareAfterLinks(disk, journal, links);
    OneStep(Bare(disk, journal), journal, i);
    UndoInParts(disk, journal, links, [i]);
  }

  lemma AllLinks(journal: Journal) returns (links: seq<nat>)
    ensures RemovesLinks(journal, links)
  {
    links := [];
    for m := 0 to |journal.entries|
      invariant OrderOf(journal, links) && forall k | 0 <= k < |links| :: links[k] < m && IsLinkAt(journal, links[k])
      invariant forall i: nat | IsLinkAt(journal, i) && i < m :: i in links
    {
      if IsLinkAt(journal, m) {
        AppendToOrder(journal, links, m);
        links := links + [m];
      }
    }
  }

  lemma SuccessShowsReturn(disk: Disk, journal: Journal)
    requires AllProven(disk, journal) && EveryOrderSucceeds(disk, journal)
    ensures CanReturn(disk, journal)
  {
    forall i: nat, j: nat | AppliedAt(journal, i) && AppliedAt(journal, j) && i != j
      ensures DestinationAt(journal, i) != DestinationAt(journal, j)
    {
      if DestinationAt(journal, i) == DestinationAt(journal, j) {
        SharedDestinationFails(disk, journal, i, j);
        FailingStart(disk, journal, [i, j]);
      }
    }
    forall i: nat | MovedAt(journal, i) && HasPlace(disk, journal, i)
      ensures Return(disk, journal, i) !in disk.objects
    {
      if Return(disk, journal, i) in disk.objects {
        OccupiedPlaceFails(disk, journal, i);
        FailingStart(disk, journal, [i]);
      }
    }
    SuccessShowsSources(disk, journal);
  }

  lemma SuccessShowsSources(disk: Disk, journal: Journal)
    requires AllProven(disk, journal) && DestinationsDiffer(journal) && EveryOrderSucceeds(disk, journal)
    ensures SourcesReturn(disk, journal)
  {
    forall i: nat | AppliedAt(journal, i) && journal.entries[i].action.RenameMove?
      ensures MovedAt(journal, i) && HasPlace(disk, journal, i)
    {
      if journal.entries[i].source.None? {
        MissingSourceFails(disk, journal, i);
        FailingStart(disk, journal, [i]);
      } else if !HasPlace(disk, journal, i) {
        var start := LostPlaceFails(disk, journal, i);
        FailingStart(disk, journal, start);
      }
    }
    forall i: nat, j: nat | MovedAt(journal, i) && MovedAt(journal, j) && i != j &&
        HasPlace(disk, journal, i) && HasPlace(disk, journal, j)
      ensures Return(disk, journal, i) != Return(disk, journal, j)
    {
      if Return(disk, journal, i) == Return(disk, journal, j) {
        SharedPlaceFails(disk, journal, i, j);
        FailingStart(disk, journal, [i, j]);
      }
    }
  }

  // ----- the theorems

  /**
   After a safe verdict on any journal, every order of undo succeeds, and then restores, exactly when
   destinations differ and each moved file has a source with a free place of its own to return to.
   */
  lemma EveryOrderRestoresExactly(disk: Disk, limits: Limits, journal: Journal)
    requires InspectRenames(disk, limits, journal).0.suggested == SafeRollback
    ensures EveryOrderSucceeds(disk, journal) <==> CanReturn(disk, journal)
    ensures EveryOrderRestores(disk, journal) <==> CanReturn(disk, journal)
  {
    SafeVerdictProves(disk, limits, journal);
    if CanReturn(disk, journal) {
      forall order | IsOrder(journal, order)
        ensures UndoAll(disk, journal, order).Some?
        ensures AllUndone(disk, UndoAll(disk, journal, order).value, journal)
        ensures OthersKept(disk, UndoAll(disk, journal, order).value, journal)
      {
        ProvenOrderRestores(disk, journal, order);
      }
    }
    if EveryOrderSucceeds(disk, journal) { SuccessShowsReturn(disk, journal); }
    if EveryOrderRestores(disk, journal) { assert EveryOrderSucceeds(disk, journal); }
  }

  /** Each order on its own then meets no occupied source and no missing destination. */
  lemma AnyOrderRestores(disk: Disk, limits: Limits, journal: Journal, order: seq<nat>)
    requires InspectRenames(disk, limits, journal).0.suggested == SafeRollback
    requires CanReturn(disk, journal) && IsOrder(journal, order)
    ensures UndoAll(disk, journal, order).Some?
    ensures var end := UndoAll(disk, journal, order).value;
      AllUndone(disk, end, journal) && OthersKept(disk, end, journal)
  {
    SafeVerdictProves(disk, limits, journal);
    ProvenOrderRestores(disk, journal, order);
  }

  /** After a safe verdict two applied entries share a destination on disk exactly when they record the same path. */
  lemma DestinationsApart(disk: Disk, limits: Limits, journal: Journal, i: nat, j: nat)
    requires InspectRenames(disk, limits, journal).0.suggested == SafeRollback
    requires AppliedAt(journal, i) && AppliedAt(journal, j)
    ensures DestinationAt(journal, i) == DestinationAt(journal, j) <==>
      journal.entries[i].destination == journal.entries[j].destination
  {
    SafeVerdictProves(disk, limits, journal);
    assert Proven(disk, journal.entries[i]) && Proven(disk, journal.entries[j]);
  }

  // ----- what the journal's own fields guarantee

  /** A rename's source can be looked up at all: absolute, normalised, inside the scan root, no lookup error. */
  ghost predicate SourceLookable(disk: Disk, journal: Journal, entry: Entry)
    requires entry.Entry?
  {
    entry.action.RenameMove? ==>
      entry.source.Some? && entry.source.value.absolute && !HasParentStep(entry.source.value) &&
      (journal.sourceRoot.Some? ==> IsWithin(disk, entry.source.value, journal.sourceRoot.value)) &&
      !Lstat(disk, entry.source.value).Failed?
  }

  ghost predicate WellRecorded(disk: Disk, journal: Journal) {
    (forall i: nat | AppliedAt(journal, i) :: SourceLookable(disk, journal, journal.entries[i])) &&
    forall i: nat, j: nat | AppliedAt(journal, i) && AppliedAt(journal, j) && i != j ::
      journal.entries[i].destination != journal.entries[j].destination
  }

  lemma SafeMoveIsVacant(disk: Disk, limits: Limits, journal: Journal, entry: Entry)
    requires entry.Entry? && entry.action.RenameMove? && SourceLookable(disk, journal, entry)
    requires JudgeEntry(disk, limits, journal, entry).0.safe
    ensures Lstat(disk, entry.source.value).Missing?
  {
  }

  /** With well-recorded entries the verdict itself shows that destinations differ and places are vacant. */
  lemma ReturnIsVacant(disk: Disk, limits: Limits, journal: Journal)
    requires InspectRenames(disk, limits, journal).0.suggested == SafeRollback && WellRecorded(disk, journal)
    ensures DestinationsDiffer(journal) && PlacesVacant(disk, journal)
  {
    forall i: nat, j: nat | AppliedAt(journal, i) && AppliedAt(journal, j) && i != j
      ensures DestinationAt(journal, i) != DestinationAt(journal, j)
    {
      DestinationsApart(disk, limits, journal, i, j);
    }
    forall i: nat | MovedAt(journal, i) && HasPlace(disk, journal, i)
      ensures Return(disk, journal, i) !in disk.objects
    {
      var before := SafeVerdictIsSafe(disk, limits, journal, i);
      assert SourceLookable(disk, journal, journal.entries[i]);
      SafeMoveIsVacant(disk, before, journal, journal.entries[i]);
      ReturnIsPlace(disk, journal, i);
      LstatAtPlace(disk, journal.entries[i].source.value);
    }
  }

  /** So only distinct places to return to are left to check. */
  lemma WellRecordedRestores(disk: Disk, limits: Limits, journal: Journal)
    requires InspectRenames(disk, limits, journal).0.suggested == SafeRollback && WellRecorded(disk, journal)
    ensures EveryOrderRestores(disk, journal) <==> SourcesReturn(disk, journal)
  {
    ReturnIsVacant(disk, limits, journal);
    EveryOrderRestoresExactly(disk, limits, journal);
  }

  /** One order that removes the created links first succeeds only if they all would. */
  lemma PlacesAreNeeded(disk: Disk, limits: Limits, journal: Journal, links: seq<nat>, others: seq<nat>)
    requires InspectRenames(disk, limits, journal).0.suggested == SafeRollback
    requires DestinationsDiffer(journal) && PlacesVacant(disk, journal)
    requires IsOrder(journal, links + others) && RemovesLinks(journal, links)
    ensures UndoAll(disk, journal, links + others).Some? <==> SourcesReturn(disk, journal)
  {
    SafeVerdictProves(disk, limits, journal);
    if SourcesReturn(disk, journal) {
      ProvenOrderRestores(disk, journal, links + others);
    }
    if UndoAll(disk, journal, links + others).Some? {
      LinksFirstShowsPlaces(disk, journal, links, others);
    }
  }
}
