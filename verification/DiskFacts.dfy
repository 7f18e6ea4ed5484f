/**
 What the inspector asks of a disk, in the disk's own terms: no evidence record, no budget. The
 evidence answers exactly these questions.
 */
module DiskFacts {
  import opened Common
  import opened FileSystem
  import opened Evidence

  // ----- the questions

  /** Two digests are the same text, or differ only in the case of ASCII letters. */
  predicate SameDigest(a: string, b: string) {
    |a| == |b| && forall i | 0 <= i < |a| :: SameLetter(a[i] as int, b[i] as int)
  }

  predicate SameLetter(m: int, n: int) {
    m == n || (65 <= m <= 90 && n == m + 32) || (65 <= n <= 90 && m == n + 32)
  }

  /** The path is absolute, takes no parent step and is spelt below its root. */
  predicate Askable(disk: Disk, path: Option<Path>, root: Option<Path>) {
    path.Some? && path.value.absolute && ".." !in path.value.parts &&
    (root.Some? ==> (if root.value.absolute then [] else disk.cwd) + root.value.parts <= path.value.parts)
  }

  function At(disk: Disk, parts: seq<Name>): (found: Lookup)
    ensures found.Found? ==> found.at in disk.objects
  {
    Walk(disk, [], parts, false, MAX_LINKS)
  }

  /** No component before the last is a link or cannot be looked up. */
  ghost predicate PlainWay(disk: Disk, parts: seq<Name>) {
    forall j | 1 <= j < |parts| :: IsPlainStep(disk, At(disk, parts[..j]))
  }

  predicate IsPlainStep(disk: Disk, step: Lookup) {
    step.Missing? || (step.Found? && step.at in disk.objects && !disk.objects[step.at].Symlink?)
  }

  ghost predicate Seen(disk: Disk, path: Option<Path>, root: Option<Path>) {
    Askable(disk, path, root) && At(disk, path.value.parts).Found?
  }

  ghost predicate Vacant(disk: Disk, path: Option<Path>, root: Option<Path>) {
    Askable(disk, path, root) && PlainWay(disk, path.value.parts) && At(disk, path.value.parts).Missing?
  }

  /** Folders all the way lead to a file. */
  ghost predicate HasFile(disk: Disk, path: Option<Path>, root: Option<Path>) {
    Askable(disk, path, root) &&
    (forall k | 0 <= k < |path.value.parts| ::
      path.value.parts[..k] in disk.objects && disk.objects[path.value.parts[..k]] == Directory(true)) &&
    path.value.parts in disk.objects && disk.objects[path.value.parts].Regular?
  }

  /** That file can be read and has the digest. */
  ghost predicate Holds(disk: Disk, path: Option<Path>, root: Option<Path>, digest: Option<string>) {
    HasFile(disk, path, root) && disk.objects[path.value.parts].readable &&
    digest.Some? && digest.value != "" && SameDigest(disk.objects[path.value.parts].sha256, digest.value)
  }

  ghost predicate SaysLink(parts: seq<Name>) {
    exists i | 0 <= i < |parts| :: HoldsWord(parts[i])
  }

  ghost predicate HoldsWord(name: Name) {
    exists before: string, after: string :: name == before + "symlink" + after
  }

  /** The first bad component is a link, or one that cannot be looked up and has a misleading name. */
  ghost predicate LinkOnWay(disk: Disk, parts: seq<Name>) {
    exists j | 1 <= j < |parts| :: PlainWay(disk, parts[..j]) && IsLinkStep(disk, parts[..j])
  }

  ghost predicate IsLinkStep(disk: Disk, parts: seq<Name>) {
    match At(disk, parts)
    case Found(at) => disk.objects[at].Symlink?
    case Failed => SaysLink(parts)
    case Missing => false
  }

  /** There is a link in the path, or a failure whose text looks like one. */
  ghost predicate LooksLinked(disk: Disk, path: Option<Path>, root: Option<Path>, digest: Option<string>) {
    Askable(disk, path, root) &&
    match At(disk, path.value.parts)
    case Failed => SaysLink(path.value.parts)
    case Missing => LinkOnWay(disk, path.value.parts)
    case Found(at) =>
      LinkOnWay(disk, path.value.parts) ||
      (PlainWay(disk, path.value.parts) &&
        (disk.objects[at].Symlink? ||
         (disk.objects[at].Regular? && !disk.objects[at].readable && digest.Some? && digest.value != "" &&
          SaysLink(path.value.parts))))
  }

  // ----- the model's tests are these

  lemma DigestsCompared(a: string, b: string)
    ensures SameHex(a, b) <==> SameDigest(a, b)
  {
    if SameHex(a, b) {
      forall i | 0 <= i < |a| ensures SameLetter(a[i] as int, b[i] as int) { assert Lower(a)[i] == Lower(b)[i]; }
    }
    if SameDigest(a, b) {
      forall i | 0 <= i < |a| ensures LowerChar(a[i]) == LowerChar(b[i]) {
        assert SameLetter(a[i] as int, b[i] as int);
      }
    }
  }

  lemma WordsCompared(name: Name)
    ensures Occurs("symlink", name) <==> HoldsWord(name)
  {
    if Occurs("symlink", name) {
      var k :| 0 <= k <= |name| && StandsAt("symlink", name, k);
      assert name == name[..k] + "symlink" + name[k + 7..];
    }
    if before: string, after: string :| name == before + "symlink" + after {
      assert StandsAt("symlink", name, |before|);
    }
  }

  lemma NamesCompared(parts: seq<Name>)
    ensures NameMentionsSymlink(parts) <==> SaysLink(parts)
  {
    forall i | 0 <= i < |parts| ensures Occurs("symlink", parts[i]) <==> HoldsWord(parts[i]) {
      WordsCompared(parts[i]);
    }
  }

  lemma StepsCompared(disk: Disk, parts: seq<Name>)
    ensures ClearComponent(disk, parts) <==> IsPlainStep(disk, At(disk, parts))
  {
  }

  lemma WaysCompared(disk: Disk, path: Path)
    requires path.absolute
    ensures LinkProblem(disk, path, false).None? <==> PlainWay(disk, path.parts)
  {
    forall j | 1 <= j < |path.parts|
      ensures ClearComponent(disk, path.parts[..j]) <==> IsPlainStep(disk, At(disk, path.parts[..j])) {
      StepsCompared(disk, path.parts[..j]);
    }
  }

  ghost predicate Mentions(problem: Option<Problem>) {
    problem.Some? && MentionsSymlink(problem.value)
  }

  lemma {:induction false} FirstIsLink(disk: Disk, parts: seq<Name>, k: nat, n: nat)
    requires 1 <= k <= n + 1 && n < |parts| && PlainWay(disk, parts[..k])
    ensures Mentions(FirstProblem(disk, parts, k, n)) <==>
      exists j | k <= j <= n :: PlainWay(disk, parts[..j]) && IsLinkStep(disk, parts[..j])
    decreases n + 1 - k
  {
    if k <= n {
      StepsCompared(disk, parts[..k]);
      NamesCompared(parts[..k]);
      if IsPlainStep(disk, At(disk, parts[..k])) {
        WayGrows(disk, parts, k);
        FirstIsLink(disk, parts, k + 1, n);
      } else {
        forall j | k < j <= n ensures !PlainWay(disk, parts[..j]) {
          assert parts[..j][..k] == parts[..k];
        }
      }
    }
  }

  lemma WayGrows(disk: Disk, parts: seq<Name>, k: nat)
    requires 1 <= k < |parts| && PlainWay(disk, parts[..k]) && IsPlainStep(disk, At(disk, parts[..k]))
    ensures PlainWay(disk, parts[..k + 1])
  {
    var longer := parts[..k + 1];
    forall j | 1 <= j < |longer| ensures IsPlainStep(disk, At(disk, longer[..j])) {
      assert longer[..j] == parts[..j];
      if j < k { assert parts[..k][..j] == parts[..j]; }
    }
  }

  lemma LinksCompared(disk: Disk, path: Path)
    requires path.absolute
    ensures Mentions(LinkProblem(disk, path, false)) <==> LinkOnWay(disk, path.parts)
  {
    if |path.parts| > 1 {
      FirstIsLink(disk, path.parts, 1, |path.parts| - 1);
    }
  }

  lemma HoldingCompared(disk: Disk, path: Option<Path>, root: Option<Path>, digest: Option<string>)
    ensures ReadablyHolds(disk, path, root, digest) <==> Holds(disk, path, root, digest)
  {
    if path.Some? && digest.Some? && path.value.parts in disk.objects && disk.objects[path.value.parts].Regular? {
      DigestsCompared(disk.objects[path.value.parts].sha256, digest.value);
    }
    RootsCompared(disk, path, root);
  }

  lemma RootsCompared(disk: Disk, path: Option<Path>, root: Option<Path>)
    ensures Askable(disk, path, root) <==>
      path.Some? && path.value.absolute && !HasParentStep(path.value) &&
      (root.Some? ==> IsWithin(disk, path.value, root.value))
  {
    if root.Some? && root.value.absolute { assert [] + root.value.parts == root.value.parts; }
  }

  // ----- the evidence answers them

  lemma PlacesCompared(disk: Disk, path: Option<Path>, root: Option<Path>, digest: Option<string>)
    ensures var e := Inspect(disk, Unlimited, path, root, digest).evidence;
      (e.exists_ <==> Seen(disk, path, root)) && (!e.exists_ && e.safePath <==> Vacant(disk, path, root))
    ensures Inspect(disk, Unlimited, path, root, digest).limits == Unlimited
  {
    RootsCompared(disk, path, root);
    if path.Some? && path.value.absolute { WaysCompared(disk, path.value); }
  }

  lemma ProblemsCompared(disk: Disk, path: Option<Path>, root: Option<Path>, digest: Option<string>)
    ensures Mentions(Inspect(disk, Unlimited, path, root, digest).evidence.problem) <==>
      LooksLinked(disk, path, root, digest)
  {
    RootsCompared(disk, path, root);
    if path.Some? && path.value.absolute {
      WaysCompared(disk, path.value);
      LinksCompared(disk, path.value);
      NamesCompared(path.value.parts);
    }
  }

  /** Without a budget the evidence says what is there, and nothing else. */
  lemma EvidenceIsExact(disk: Disk, path: Option<Path>, root: Option<Path>, digest: Option<string>)
    ensures var e := Inspect(disk, Unlimited, path, root, digest).evidence;
      (e.exists_ <==> Seen(disk, path, root)) &&
      (!e.exists_ && e.safePath <==> Vacant(disk, path, root)) &&
      (e.identityMatches == Some(true) <==> Holds(disk, path, root, digest)) &&
      (Mentions(e.problem) <==> LooksLinked(disk, path, root, digest))
    ensures Inspect(disk, Unlimited, path, root, digest).limits == Unlimited
  {
    PlacesCompared(disk, path, root, digest);
    ProblemsCompared(disk, path, root, digest);
    HoldingCompared(disk, path, root, digest);
    if path.Some? { IdentityIsExact(disk, path.value, root, digest); }
  }

  /** The digest is read whenever the other one is recorded, and then it is the file's. */
  lemma ObservedIsHeld(disk: Disk, path: Option<Path>, root: Option<Path>, asked: Option<string>, held: Option<string>)
    requires held.Some? && held.value != ""
    ensures var e := Inspect(disk, Unlimited, path, root, asked).evidence;
      e.observedSha256.Some? && SameHex(e.observedSha256.value, held.value) <==>
      asked.Some? && asked.value != "" && Holds(disk, path, root, held)
  {
    HoldingCompared(disk, path, root, held);
    RootsCompared(disk, path, root);
    if path.Some? {
      IdentityIsExact(disk, path.value, root, held);
      IdentityIsExact(disk, path.value, root, asked);
    }
  }

  /** A file's digest is reported exactly when the file fits the limit for one file and what is left of the budget. */
  lemma ReportedWhenItFits(disk: Disk, limits: Limits, path: Option<Path>, root: Option<Path>, digest: Option<string>)
    requires limits.Limits? && digest.Some? && digest.value != "" && HasFile(disk, path, root)
    ensures var p := Inspect(disk, limits, path, root, digest);
      var file := disk.objects[path.value.parts];
      p.evidence.exists_ && p.evidence.safePath && p.evidence.size == Some(file.size) &&
      if file.size <= limits.perFile && file.size <= limits.remaining && file.readable then
        p.evidence.observedSha256 == Some(file.sha256) && p.evidence.problem == None &&
        p.evidence.identityMatches == Some(SameDigest(file.sha256, digest.value)) &&
        p.limits == Limits(limits.perFile, limits.remaining - file.size)
      else
        p.evidence.observedSha256 == None && p.evidence.identityMatches == None && p.limits == limits &&
        p.evidence.problem == Some(
          if file.size > limits.perFile then OverFileLimit
          else if file.size > limits.remaining then BudgetExhausted
          else CannotHash(path.value))
  {
    RootsCompared(disk, path, root);
    LiteralHasNoLink(disk, path.value);
    DigestsCompared(disk.objects[path.value.parts].sha256, digest.value);
  }
}
