/**
 The inspector's evidence about one recorded path: bounded hashing, link detection and
 the staged evidence record.
 */
module Evidence {
  import opened Common
  import opened FileSystem

  datatype Problem =
    | PathUnavailable
    | NotAbsoluteNormalized
    | EscapesRoot
    | ComponentNotAbsolute
    | ComponentUnreadable(component: Location)
    | SymlinkComponent(component: Location)
    | CannotInspect(path: Path)
    | LeafIsSymlink
    | CannotStat(path: Path)
    | NotRegularFile
    | OverFileLimit
    | BudgetExhausted
    | CannotHash(path: Path)

  /** Whether the problem's text contains the word "symlink"; an OSError text quotes its path. */
  predicate MentionsSymlink(problem: Problem) {
    match problem
    case SymlinkComponent(_) => true
    case LeafIsSymlink => true
    case ComponentUnreadable(component) => NameMentionsSymlink(component)
    case CannotInspect(path) => NameMentionsSymlink(path.parts)
    case CannotStat(path) => NameMentionsSymlink(path.parts)
    case CannotHash(path) => NameMentionsSymlink(path.parts)
    case _ => false
  }

  predicate NameMentionsSymlink(parts: seq<Name>) {
    exists i | 0 <= i < |parts| :: Occurs("symlink", parts[i])
  }

  datatype Kind = MissingKind | RegularKind | DirectoryKind | SymlinkKind | SpecialKind

  datatype Evidence = Evidence(
    exists_: bool,
    kind: Kind,
    symlinkText: Option<string>,
    size: Option<nat>,
    observedSha256: Option<string>,
    identityMatches: Option<bool>,
    safePath: bool,
    problem: Option<Problem>)

  const BLANK := Evidence(false, MissingKind, None, None, None, None, false, None)

  // ----- hashing under a budget

  /** The budget as a value; `Unlimited` is the yardstick for what a budget may cost. */
  datatype Limits = Limits(perFile: int, remaining: int) | Unlimited

  function Spend(limits: Limits, size: nat): Limits {
    if limits.Limits? then limits.(remaining := limits.remaining - size) else limits
  }

  datatype Hashing = Hashing(digest: Option<string>, problem: Option<Problem>, limits: Limits)

  function HashOutcome(disk: Disk, limits: Limits, path: Path): Hashing {
    match Lstat(disk, path)
    case Found(at) =>
      (match disk.objects[at]
       case Regular(sha256, size, _, _, _, readable) =>
         if limits.Limits? && size > limits.perFile then Hashing(None, Some(OverFileLimit), limits)
         else if limits.Limits? && size > limits.remaining then Hashing(None, Some(BudgetExhausted), limits)
         else if !readable then Hashing(None, Some(CannotHash(path)), limits)
         else Hashing(Some(sha256), None, Spend(limits, size))
       case _ => Hashing(None, Some(NotRegularFile), limits))
    case _ => Hashing(None, Some(CannotStat(path)), limits)
  }

  ghost function Sum(sizes: seq<nat>): nat {
    if sizes == [] then 0 else Sum(sizes[..|sizes| - 1]) + sizes[|sizes| - 1]
  }

  class HashBudget {
    const perFile: int
    var remaining: int
    ghost const total: int
    ghost var hashed: seq<nat>  // sizes of the files hashed so far

    /** Bytes hashed plus bytes remaining is the starting total, and the budget is never overdrawn. */
    ghost predicate Valid()
      reads this
    {
      remaining + Sum(hashed) == total && (total >= 0 ==> remaining >= 0)
    }

    function Left(): Limits
      reads this
    {
      Limits(perFile, remaining)
    }

    constructor (perFile: int, remaining: int)
      ensures Valid() && this.perFile == perFile && this.remaining == remaining == total && hashed == []
    {
      this.perFile, this.remaining, this.total, this.hashed := perFile, remaining, remaining, [];
    }

    method HashFile(disk: Disk, path: Path) returns (digest: Option<string>, problem: Option<Problem>)
      requires Valid()
      modifies this
      ensures Valid()
      ensures Hashing(digest, problem, Left()) == HashOutcome(disk, old(Left()), path)
      ensures digest.Some? <==> problem.None?
      ensures digest.Some? ==>
        var found := Lstat(disk, path);
        found.Found? && IsRegular(disk, found.at) && disk.objects[found.at].sha256 == digest.value &&
        hashed == old(hashed) + [disk.objects[found.at].size]
      ensures digest.None? ==> hashed == old(hashed)
    {
      var info := Lstat(disk, path);
      if !info.Found? {
        return None, Some(CannotStat(path));
      }
      var item := disk.objects[info.at];
      if !item.Regular? {
        return None, Some(NotRegularFile);
      }
      if item.size > perFile {
        return None, Some(OverFileLimit);
      }
      if item.size > remaining {
        return None, Some(BudgetExhausted);
      }
      if !item.readable {
        return None, Some(CannotHash(path));
      }
      remaining := remaining - item.size;
      hashed := hashed + [item.size];
      assert hashed[..|hashed| - 1] == old(hashed);
      digest, problem := Some(item.sha256), None;
    }
  }

  // ----- link detection

  /** Nothing there, or something that is not a link: this component keeps the path's meaning. */
  predicate ClearComponent(disk: Disk, at: Location) {
    var found := Lstat(disk, Path(true, at));
    found.Missing? || (found.Found? && !disk.objects[found.at].Symlink?)
  }

  function ComponentProblem(disk: Disk, at: Location): Option<Problem> {
    match Lstat(disk, Path(true, at))
    case Missing => None
    case Failed => Some(ComponentUnreadable(at))
    case Found(place) => if disk.objects[place].Symlink? then Some(SymlinkComponent(at)) else None
  }

  /** The problem of the first bad prefix among lengths k..n. */
  function FirstProblem(disk: Disk, parts: seq<Name>, k: nat, n: nat): (first: Option<Problem>)
    requires n <= |parts|
    ensures first.None? <==> forall j | k <= j <= n :: ClearComponent(disk, parts[..j])
    ensures first.Some? ==> first.value.ComponentUnreadable? || first.value.SymlinkComponent?
    decreases n + 1 - k
  {
    if k > n then None
    else
      var here := ComponentProblem(disk, parts[..k]);
      if here.Some? then assert !ClearComponent(disk, parts[..k]); here else FirstProblem(disk, parts, k + 1, n)
  }

  /** symlink_component: the first link or unreadable component on the way to `path`. */
  function LinkProblem(disk: Disk, path: Path, includeLeaf: bool): Option<Problem> {
    if !path.absolute then Some(ComponentNotAbsolute)
    else FirstProblem(disk, path.parts, 1, if includeLeaf || path.parts == [] then |path.parts| else |path.parts| - 1)
  }

  method FindLinkProblem(disk: Disk, path: Path, includeLeaf: bool) returns (problem: Option<Problem>)
    ensures problem == LinkProblem(disk, path, includeLeaf)
  {
    if !path.absolute {
      return Some(ComponentNotAbsolute);
    }
    var count := if includeLeaf || path.parts == [] then |path.parts| else |path.parts| - 1;
    var start: seq<Name> := [];
    var i := 0;
    while i < count
      invariant 0 <= i <= count && start == path.parts[..i]
      invariant FirstProblem(disk, path.parts, 1, count) == FirstProblem(disk, path.parts, i + 1, count)
    {
      start := start + [path.parts[i]];
      i := i + 1;
      assert start == path.parts[..i];
      var info := Lstat(disk, Path(true, start));
      if info.Failed? {
        return Some(ComponentUnreadable(start));
      }
      if info.Found? && disk.objects[info.at].Symlink? {
        return Some(SymlinkComponent(start));
      }
    }
    problem := None;
  }

  // ----- the evidence record

  datatype Probe = Probe(evidence: Evidence, limits: Limits)

  predicate IsRecorded(digest: Option<string>) {
    digest.Some? && digest.value != ""
  }

  function KindOf(item: Object): Kind {
    match item
    case Regular(_, _, _, _, _, _) => RegularKind
    case Directory(_) => DirectoryKind
    case Symlink(_, _) => SymlinkKind
    case Special => SpecialKind
  }

  function SizeOf(item: Object): nat {
    if item.Regular? then item.size else 0
  }

  /** inspect_path as a function of the disk and the budget. */
  function Inspect(disk: Disk, limits: Limits, path: Option<Path>, root: Option<Path>, digest: Option<string>): Probe {
    if path.None? then Probe(BLANK.(problem := Some(PathUnavailable)), limits)
    else if !path.value.absolute || HasParentStep(path.value) then
      Probe(BLANK.(problem := Some(NotAbsoluteNormalized)), limits)
    else if root.Some? && !IsWithin(disk, path.value, root.value) then
      Probe(BLANK.(problem := Some(EscapesRoot)), limits)
    else
      var link := LinkProblem(disk, path.value, false);
      match Lstat(disk, path.value)
      case Missing => Probe(BLANK.(safePath := link.None?, problem := link), limits)
      case Failed => Probe(BLANK.(problem := Some(CannotInspect(path.value))), limits)
      case Found(at) =>
        var item := disk.objects[at];
        var seen := BLANK.(exists_ := true, kind := KindOf(item), size := Some(SizeOf(item)));
        if item.Symlink? then
          Probe(seen.(symlinkText := Some(item.text), problem := if link.Some? then link else Some(LeafIsSymlink)),
            limits)
        else if link.Some? then Probe(seen.(problem := link), limits)
        else if item.Regular? && IsRecorded(digest) then
          var h := HashOutcome(disk, limits, path.value);
          Probe(seen.(safePath := true, observedSha256 := h.digest, problem := h.problem,
                      identityMatches := if h.digest.Some? then Some(SameHex(h.digest.value, digest.value)) else None),
                h.limits)
        else Probe(seen.(safePath := true), limits)
  }

  method InspectPath(disk: Disk, path: Option<Path>, budget: HashBudget, root: Option<Path>, digest: Option<string>)
    returns (evidence: Evidence)
    requires budget.Valid()
    modifies budget
    ensures budget.Valid()
    ensures Probe(evidence, budget.Left()) == Inspect(disk, old(budget.Left()), path, root, digest)
    ensures if evidence.observedSha256.Some? then
      |budget.hashed| == |old(budget.hashed)| + 1 && old(budget.hashed) < budget.hashed
            else budget.hashed == old(budget.hashed)
  {
    evidence := BLANK;
    if path.None? {
      evidence := evidence.(problem := Some(PathUnavailable));
      return;
    }
    var p := path.value;
    if !p.absolute || HasParentStep(p) {
      evidence := evidence.(problem := Some(NotAbsoluteNormalized));
      return;
    }
    if root.Some? && !IsWithin(disk, p, root.value) {
      evidence := evidence.(problem := Some(EscapesRoot));
      return;
    }
    var link := FindLinkProblem(disk, p, false);
    var info := Lstat(disk, p);
    if info.Missing? {
      evidence := evidence.(safePath := link.None?);
      if link.Some? {
        evidence := evidence.(problem := link);
      }
      return;
    }
    if info.Failed? {
      evidence := evidence.(problem := Some(CannotInspect(p)));
      return;
    }
    var item := disk.objects[info.at];
    evidence := evidence.(exists_ := true, size := Some(SizeOf(item)), kind := KindOf(item));
    if item.Symlink? {
      evidence := evidence.(
        symlinkText := Some(item.text),
        problem := if link.Some? then link else Some(LeafIsSymlink));
      return;
    }
    if link.Some? {
      evidence := evidence.(problem := link);
      return;
    }
    evidence := evidence.(safePath := true);
    if item.Regular? && IsRecorded(digest) {
      var observed, problem := budget.HashFile(disk, p);
      evidence := evidence.(observedSha256 := observed);
      if problem.Some? {
        evidence := evidence.(problem := problem);
      }
      if observed.Some? {
        evidence := evidence.(identityMatches := Some(SameHex(observed.value, digest.value)));
      }
    }
  }

  // ----- evidence that is only gathered when there is something to look at

  function InspectOptional(disk: Disk, limits: Limits, path: Option<Path>, root: Option<Path>, digest: Option<string>,
      wanted: bool)
    : (Option<Evidence>, Limits)
  {
    if wanted then
      var p := Inspect(disk, limits, path, root, digest);
      (Some(p.evidence), p.limits)
    else (None, limits)
  }

  method InspectWanted(disk: Disk, path: Option<Path>, budget: HashBudget, root: Option<Path>, digest: Option<string>,
      wanted: bool)
    returns (evidence: Option<Evidence>)
    requires budget.Valid()
    modifies budget
    ensures budget.Valid() && old(budget.hashed) <= budget.hashed
    ensures (evidence, budget.Left()) == InspectOptional(disk, old(budget.Left()), path, root, digest, wanted)
  {
    evidence := None;
    if wanted {
      var seen := InspectPath(disk, path, budget, root, digest);
      evidence := Some(seen);
    }
  }

  // ----- safe-path evidence means what it names

  lemma {:induction false} DescendWithoutLinks(disk: Disk, parts: seq<Name>, k: nat)
    requires k <= |parts| && ".." !in parts
    requires forall j | 1 <= j < |parts| :: ClearComponent(disk, parts[..j])
    requires Reachable(disk, parts[..k]) && Walk(disk, parts[..k], parts[k..], false, MAX_LINKS).Found?
    ensures Reachable(disk, parts) && Walk(disk, parts[..k], parts[k..], false, MAX_LINKS) == Found(parts)
    decreases |parts| - k
  {
    if k == |parts| {
      assert parts[..k] == parts;
    } else {
      assert parts[..k] + [parts[k..][0]] == parts[..k + 1] && parts[k..][1..] == parts[k + 1..];
      ReachableChild(disk, parts[..k], parts[k]);
      if k + 1 < |parts| {
        PlainLookup(disk, parts[..k + 1], false);
        assert ClearComponent(disk, parts[..k + 1]);
      }
      DescendWithoutLinks(disk, parts, k + 1);
    }
  }

  /** Without a link on the way, an existing path is its own location. */
  lemma NoLinkMeansLiteral(disk: Disk, path: Path)
    requires path.absolute && !HasParentStep(path) && LinkProblem(disk, path, false).None? && Lstat(disk, path).Found?
    ensures Reachable(disk, path.parts) && Lstat(disk, path) == Found(path.parts)
  {
    var parts := path.parts;
    assert parts[..0] == [] && parts[0..] == parts;
    DescendWithoutLinks(disk, parts, 0);
  }

  lemma LiteralHasNoLink(disk: Disk, path: Path)
    requires path.absolute && !HasParentStep(path) && Reachable(disk, path.parts)
    ensures LinkProblem(disk, path, false).None?
    ensures Lstat(disk, path) == if path.parts in disk.objects then Found(path.parts) else Missing
  {
    var parts := path.parts;
    forall j | 1 <= j < |parts| ensures ClearComponent(disk, parts[..j]) {
      ReachableParent(disk, parts, j);
      PlainLookup(disk, parts[..j], false);
    }
    if parts in disk.objects {
      PlainLookup(disk, parts, false);
    } else if parts != [] {
      PlainMissing(disk, parts, false);
    }
  }

  /** A regular file with the recorded digest sits literally at the path, reached through no link, inside the root. */
  ghost predicate SafelyHolds(disk: Disk, path: Path, root: Option<Path>, digest: Option<string>) {
    && path.absolute && !HasParentStep(path)
    && (root.Some? ==> IsWithin(disk, path, root.value))
    && Reachable(disk, path.parts) && IsRegular(disk, path.parts)
    && IsRecorded(digest) && SameHex(disk.objects[path.parts].sha256, digest.value)
  }

  ghost predicate ReadablyHolds(disk: Disk, path: Option<Path>, root: Option<Path>, digest: Option<string>) {
    path.Some? && SafelyHolds(disk, path.value, root, digest) && disk.objects[path.value.parts].readable
  }

  /** Following links or not, a safe existing path names one object, and that object lies under the root. */
  lemma SafePathNamesObject(disk: Disk, limits: Limits, path: Path, root: Option<Path>, digest: Option<string>)
    requires var e := Inspect(disk, limits, Some(path), root, digest).evidence; e.safePath && e.exists_
    ensures Stat(disk, path) == Found(path.parts) && Lstat(disk, path) == Found(path.parts)
    ensures KindOf(disk.objects[path.parts]) == Inspect(disk, limits, Some(path), root, digest).evidence.kind
    ensures root.Some? ==>
      Absolute(disk, root.value) <= path.parts && Stat(disk, root.value) == Found(Absolute(disk, root.value))
  {
    NoLinkMeansLiteral(disk, path);
    var parts := path.parts;
    PlainLookup(disk, parts, true);
    if root.Some? {
      var top := Absolute(disk, root.value);
      var k := |StartOf(disk, root.value)|;
      assert top[..k] == StartOf(disk, root.value) && top[k..] == root.value.parts;
      assert top == parts[..|top|];
      ReachableParent(disk, parts, |top|);
      if |top| == |parts| { assert top == parts; }
      WalkPlain(disk, top, k, true, MAX_LINKS);
    }
  }

  /** identity_matches is sound under any budget. */
  lemma IdentityIsSound(disk: Disk, limits: Limits, path: Path, root: Option<Path>, digest: Option<string>)
    requires Inspect(disk, limits, Some(path), root, digest).evidence.identityMatches == Some(true)
    ensures SafelyHolds(disk, path, root, digest)
  {
    NoLinkMeansLiteral(disk, path);
  }

  /** Without a budget, identity_matches is exact on readable files. */
  lemma IdentityIsExact(disk: Disk, path: Path, root: Option<Path>, digest: Option<string>)
    ensures Inspect(disk, Unlimited, Some(path), root, digest).evidence.identityMatches == Some(true)
        <==> SafelyHolds(disk, path, root, digest) && disk.objects[path.parts].readable
  {
    if Inspect(disk, Unlimited, Some(path), root, digest).evidence.identityMatches == Some(true) {
      NoLinkMeansLiteral(disk, path);
    }
    if SafelyHolds(disk, path, root, digest) {
      LiteralHasNoLink(disk, path);
    }
  }

  /** A file that can be read and has a digest. */
  ghost predicate GoodFile(file: Object) {
    file.Regular? && file.readable && file.sha256 != ""
  }

  /** Evidence about a link-free path holding a readable file, or nothing. */
  lemma PlainEvidence(disk: Disk, path: Path, root: Option<Path>, digest: Option<string>)
    requires path.absolute && !HasParentStep(path) && Reachable(disk, path.parts)
    requires root.Some? ==> IsWithin(disk, path, root.value)
    requires path.parts in disk.objects ==> GoodFile(disk.objects[path.parts])
    ensures var p := Inspect(disk, Unlimited, Some(path), root, digest);
      p.limits == Unlimited && p.evidence.safePath && p.evidence.problem.None? &&
      (p.evidence.exists_ <==> path.parts in disk.objects) &&
      p.evidence.identityMatches == (if path.parts in disk.objects && IsRecorded(digest)
        then Some(SameHex(disk.objects[path.parts].sha256, digest.value)) else None) &&
      p.evidence.observedSha256 ==
        (if path.parts in disk.objects && IsRecorded(digest) then Some(disk.objects[path.parts].sha256) else None)
  {
    LiteralHasNoLink(disk, path);
  }

  // ----- a budget only hides, it never invents

  predicate IsSkip(problem: Option<Problem>) {
    problem == Some(OverFileLimit) || problem == Some(BudgetExhausted)
  }

  /** `dim` is `full` with its hash withheld by the budget, or `full` itself. */
  predicate Dims(dim: Evidence, full: Evidence) {
    dim == full ||
    (full.exists_ && full.safePath && full.kind == RegularKind && IsSkip(dim.problem) &&
     dim == full.(observedSha256 := None, identityMatches := None, problem := dim.problem))
  }

  lemma BudgetOnlyHides(disk: Disk, limits: Limits, path: Option<Path>, root: Option<Path>, digest: Option<string>)
    ensures Dims(Inspect(disk, limits, path, root, digest).evidence,
      Inspect(disk, Unlimited, path, root, digest).evidence)
  {
  }

  /** What one inspection costs is the size of the file whose digest it reports, and nothing otherwise. */
  lemma InspectionCost(disk: Disk, limits: Limits, path: Option<Path>, root: Option<Path>, digest: Option<string>)
    requires limits.Limits? && limits.remaining >= 0
    ensures var p := Inspect(disk, limits, path, root, digest);
      p.limits.Limits? && p.limits.perFile == limits.perFile && p.limits.remaining >= 0 &&
      p.limits.remaining == limits.remaining - (if p.evidence.observedSha256.Some? then p.evidence.size.value else 0)
  {
  }

  /** No file is larger than `bound`. */
  ghost predicate FilesWithin(disk: Disk, bound: nat) {
    forall at | IsRegular(disk, at) :: disk.objects[at].size <= bound
  }

  /** A budget that covers the largest file changes nothing, and pays at most that file. */
  lemma AmpleBudgetHidesNothing(disk: Disk, limits: Limits, bound: nat, path: Option<Path>, root: Option<Path>,
      digest: Option<string>)
    requires limits.Limits? && limits.perFile >= bound && limits.remaining >= bound && FilesWithin(disk, bound)
    ensures var p := Inspect(disk, limits, path, root, digest);
      p.evidence == Inspect(disk, Unlimited, path, root, digest).evidence &&
      p.limits.Limits? && p.limits.perFile == limits.perFile && p.limits.remaining >= limits.remaining - bound
  {
    if path.Some? {
      var found := Lstat(disk, path.value);
      if found.Found? && IsRegular(disk, found.at) { assert disk.objects[found.at].size <= bound; }
    }
  }
}
