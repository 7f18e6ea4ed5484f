/** Inspection of standalone patch-output journals (inspect_patch_output). */
module PatchOutput {
  import opened Common
  import opened FileSystem
  import opened Evidence
  import Operation

  datatype State =
    | Planned | Preparing | Prepared | VerifyingTemporary | Publishing | Published | VerifyingPublished
    | Completed | Failed | RollingBack | RolledBack | RollbackFailed | NeedsReview | UnsafeToResume | Unlisted

  datatype Journal =
    | UnknownSchema
    | MissingFields
    | Journal(
        state: State,
        source: Option<Path>, sourceSha256: Option<string>,
        patch: Option<Path>, patchSha256: Option<string>,
        destination: Option<Path>, temporary: Option<Path>, outputSha256: Option<string>,
        provenance: Option<Path>, provenanceSha256: Option<string>,
        preexisting: bool)

  /** PATCH_STATES. */
  function Normalized(state: State): Operation.NormalState {
    match state
    case Completed => Operation.Completed
    case Failed => Operation.ApplyFailed
    case RollingBack => Operation.RollingBack
    case RolledBack => Operation.RolledBack
    case RollbackFailed => Operation.RollbackFailed
    case NeedsReview => Operation.NeedsReview
    case UnsafeToResume => Operation.UnsafeToResume
    case Unlisted => Operation.UnknownSchema
    case _ => Operation.Applying
  }

  predicate IsSettled(state: State) { state == Completed || state == RolledBack }
  predicate IsPublishing(state: State) { state == Publishing || state == Published || state == VerifyingPublished }
  predicate HasTemporary(state: State) { state == Prepared || state == VerifyingTemporary || state == Publishing }

  function OutputRoot(journal: Journal): Option<Path>
    requires journal.Journal?
  {
    if journal.destination.Some? then Some(PathParent(journal.destination.value)) else None
  }

  datatype Probes = Probes(
    source: Option<Evidence>, patch: Option<Evidence>, temporary: Option<Evidence>,
    destination: Option<Evidence>, provenance: Option<Evidence>)

  datatype Gathered = Gathered(probes: Probes, limits: Limits)

  function Gather(disk: Disk, limits: Limits, journal: Journal): Gathered
    requires journal.Journal?
  {
    var root := OutputRoot(journal);
    var (s, l1) := InspectOptional(disk, limits, journal.source, None, journal.sourceSha256, journal.source.Some?);
    var (p, l2) := InspectOptional(disk, l1, journal.patch, None, journal.patchSha256, journal.patch.Some?);
    var (t, l3) := InspectOptional(disk, l2, journal.temporary, root, journal.outputSha256, journal.temporary.Some?);
    var (d, l4) := InspectOptional(disk, l3, journal.destination, root, journal.outputSha256,
      journal.destination.Some?);
    var (v, l5) := InspectOptional(disk, l4, journal.provenance, root, journal.provenanceSha256,
      journal.provenance.Some?);
    Gathered(Probes(s, p, t, d, v), l5)
  }

  predicate Matches(evidence: Option<Evidence>) {
    evidence.Some? && evidence.value.identityMatches == Some(true)
  }

  predicate IsPresent(evidence: Option<Evidence>) {
    evidence.Some? && evidence.value.exists_ && evidence.value.safePath
  }

  predicate IsAbsent(evidence: Option<Evidence>) {
    evidence.Some? && !evidence.value.exists_
  }

  function Verdict(journal: Journal, probes: Probes): Operation.Operation
    requires journal.Journal?
  {
    var settled := IsSettled(journal.state);
    var op := Operation.FRESH.(state := Normalized(journal.state));
    if journal.state == Unlisted then op
    else
      var counted := op.(total := 1, completed := if settled then 1 else 0, pending := if settled then 0 else 1);
      if settled then counted.(category := Operation.CompletedHistory, suggested := Operation.NoAction)
      else if !Matches(probes.source) || !Matches(probes.patch) then counted.(state := Operation.UnsafeToResume)
      else if IsPublishing(journal.state) && Matches(probes.destination) && IsPresent(probes.provenance) then
        counted.(category := Operation.Recoverable, resumePossible := true, rollbackPossible := !journal.preexisting,
                 suggested := if journal.preexisting then Operation.SafeResume else Operation.SafeRollback)
      else if HasTemporary(journal.state) && Matches(probes.temporary) && IsAbsent(probes.destination) then
        counted.(category := Operation.Recoverable, resumePossible := true, suggested := Operation.SafeResume)
      else counted.(suggested := Operation.Review)
  }

  /** The verdict, or None when the inspector refuses the journal as unreadable. */
  function InspectPatch(disk: Disk, limits: Limits, journal: Journal): (Option<Operation.Operation>, Limits) {
    match journal
    case UnknownSchema => (Some(Operation.FRESH.(state := Operation.UnknownSchema)), limits)
    case MissingFields => (None, limits)
    case Journal(state, _, _, _, _, _, _, _, _, _, _) =>
      if state == Unlisted then (Some(Verdict(journal, Probes(None, None, None, None, None))), limits)
      else
        var g := Gather(disk, limits, journal);
        (Some(Verdict(journal, g.probes)), g.limits)
  }

  method GatherEvidence(disk: Disk, journal: Journal, budget: HashBudget) returns (probes: Probes)
    requires journal.Journal? && budget.Valid()
    modifies budget
    ensures budget.Valid() && old(budget.hashed) <= budget.hashed
    ensures Gathered(probes, budget.Left()) == Gather(disk, old(budget.Left()), journal)
  {
    var root := OutputRoot(journal);
    var source := InspectWanted(disk, journal.source, budget, None, journal.sourceSha256, journal.source.Some?);
    var patch := InspectWanted(disk, journal.patch, budget, None, journal.patchSha256, journal.patch.Some?);
    var temporary := InspectWanted(disk, journal.temporary, budget, root, journal.outputSha256,
      journal.temporary.Some?);
    var destination := InspectWanted(disk, journal.destination, budget, root, journal.outputSha256,
      journal.destination.Some?);
    var provenance := InspectWanted(disk, journal.provenance, budget, root, journal.provenanceSha256,
      journal.provenance.Some?);
    probes := Probes(source, patch, temporary, destination, provenance);
  }

  method InspectPatchOutput(disk: Disk, journal: Journal, budget: HashBudget)
    returns (operation: Option<Operation.Operation>)
    requires budget.Valid()
    modifies budget
    ensures budget.Valid() && old(budget.hashed) <= budget.hashed
    ensures (operation, budget.Left()) == InspectPatch(disk, old(budget.Left()), journal)
  {
    if journal.UnknownSchema? {
      return Some(Operation.FRESH.(state := Operation.UnknownSchema));
    }
    if journal.MissingFields? {
      return None;
    }
    var op := Operation.FRESH;
    if journal.state == Unlisted {
      op := op.(state := Operation.UnknownSchema);
      return Some(op);
    }
    op := op.(state := Normalized(journal.state), total := 1);
    if IsSettled(journal.state) {
      op := op.(completed := 1, pending := 0);
    } else {
      op := op.(completed := 0, pending := 1);
    }
    var probes := GatherEvidence(disk, journal, budget);
    if IsSettled(journal.state) {
      op := op.(category := Operation.CompletedHistory, suggested := Operation.NoAction);
    } else if !Matches(probes.source) || !Matches(probes.patch) {
      op := op.(state := Operation.UnsafeToResume);
    } else if IsPublishing(journal.state) && Matches(probes.destination) && IsPresent(probes.provenance) {
      op := op.(category := Operation.Recoverable, resumePossible := true, rollbackPossible := !journal.preexisting);
      op := op.(suggested := if !journal.preexisting then Operation.SafeRollback else Operation.SafeResume);
    } else if HasTemporary(journal.state) && Matches(probes.temporary) && IsAbsent(probes.destination) {
      op := op.(category := Operation.Recoverable, resumePossible := true, suggested := Operation.SafeResume);
    } else {
      op := op.(suggested := Operation.Review);
    }
    operation := Some(op);
  }

  // ----- what the safe verdicts say about the disk

  /** A link-free object that is not itself a link. */
  ghost predicate StandsIn(disk: Disk, path: Option<Path>, root: Option<Path>) {
    path.Some? && path.value.absolute && !HasParentStep(path.value) && Reachable(disk, path.value.parts) &&
    (root.Some? ==> IsWithin(disk, path.value, root.value)) &&
    path.value.parts in disk.objects && !disk.objects[path.value.parts].Symlink?
  }

  lemma MatchesIsHolding(disk: Disk, path: Option<Path>, root: Option<Path>, digest: Option<string>)
    ensures Matches(InspectOptional(disk, Unlimited, path, root, digest, path.Some?).0) <==>
      ReadablyHolds(disk, path, root, digest)
    ensures IsPresent(InspectOptional(disk, Unlimited, path, root, digest, path.Some?).0) <==>
      StandsIn(disk, path, root)
    ensures InspectOptional(disk, Unlimited, path, root, digest, path.Some?).1 == Unlimited
  {
    if path.Some? {
      IdentityIsExact(disk, path.value, root, digest);
      var e := Inspect(disk, Unlimited, path, root, digest).evidence;
      if e.exists_ && e.safePath { NoLinkMeansLiteral(disk, path.value); }
      if StandsIn(disk, path, root) { LiteralHasNoLink(disk, path.value); }
    }
  }

  /** The destination cannot be observed, or a lookup finds nothing. */
  ghost predicate LooksAbsent(disk: Disk, path: Option<Path>) {
    path.Some? && (!path.value.absolute || HasParentStep(path.value) || !Lstat(disk, path.value).Found?)
  }

  lemma AbsentIsLookingAbsent(disk: Disk, journal: Journal)
    requires journal.Journal?
    ensures IsAbsent(Gather(disk, Unlimited, journal).probes.destination) <==> LooksAbsent(disk, journal.destination)
  {
    var root := OutputRoot(journal);
    MatchesIsHolding(disk, journal.source, None, journal.sourceSha256);
    MatchesIsHolding(disk, journal.patch, None, journal.patchSha256);
    MatchesIsHolding(disk, journal.temporary, root, journal.outputSha256);
    if journal.destination.Some? {
      var d := journal.destination.value;
      assert Absolute(disk, PathParent(d)) <= Absolute(disk, d) || d.parts == [];
    }
  }

  /** Source and patch are unchanged since the durable plan. */
  ghost predicate InputsUnchanged(disk: Disk, journal: Journal)
    requires journal.Journal?
  {
    ReadablyHolds(disk, journal.source, None, journal.sourceSha256) &&
    ReadablyHolds(disk, journal.patch, None, journal.patchSha256)
  }

  ghost predicate OutputPublished(disk: Disk, journal: Journal)
    requires journal.Journal?
  {
    IsPublishing(journal.state) &&
    ReadablyHolds(disk, journal.destination, OutputRoot(journal), journal.outputSha256) &&
    StandsIn(disk, journal.provenance, OutputRoot(journal))
  }

  ghost predicate OutputStaged(disk: Disk, journal: Journal)
    requires journal.Journal?
  {
    HasTemporary(journal.state) && ReadablyHolds(disk, journal.temporary, OutputRoot(journal), journal.outputSha256) &&
    LooksAbsent(disk, journal.destination)
  }

  /** Exactly when a patch output may be rolled back, and exactly when it may be resumed. */
  lemma SafeVerdictsAreExact(disk: Disk, journal: Journal)
    requires journal.Journal? && journal.state != Unlisted
    ensures var op := InspectPatch(disk, Unlimited, journal).0.value;
      (op.suggested == Operation.SafeRollback <==>
        InputsUnchanged(disk, journal) && OutputPublished(disk, journal) && !journal.preexisting) &&
      (op.suggested == Operation.SafeResume <==>
        InputsUnchanged(disk, journal) &&
        if OutputPublished(disk, journal) then journal.preexisting else OutputStaged(disk, journal))
  {
    var root := OutputRoot(journal);
    MatchesIsHolding(disk, journal.source, None, journal.sourceSha256);
    MatchesIsHolding(disk, journal.patch, None, journal.patchSha256);
    MatchesIsHolding(disk, journal.temporary, root, journal.outputSha256);
    MatchesIsHolding(disk, journal.destination, root, journal.outputSha256);
    MatchesIsHolding(disk, journal.provenance, root, journal.provenanceSha256);
    AbsentIsLookingAbsent(disk, journal);
  }
}
