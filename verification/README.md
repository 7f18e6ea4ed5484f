# Verified models of the recovery, release and quality tools

EmuWiz changes files that people care about, and its own tools decide whether an interrupted
change can be taken back, whether a release is what it says it is, and whether every test has
run. This project restates those decisions in Dafny and proves what they promise. Nothing here
runs the tools: `dafny verify dfyconfig.toml` checks every statement for all inputs.

Six components are modelled, each in the form its source has. Loops and objects that update
fields are methods and classes proved against a specification function; theorems are then proved
about that function.

1. **Recovery inspector** (`tools/pending_recovery/inspector.py`). The file system is a map from
   locations to files, directories and links with real lookup (`FileSystem`). Evidence and the
   hash budget are in `Evidence`, and `DiskFacts` puts the same questions to the disk itself. The
   inspectors are `SharedJournal`, `RenameJournal`, `PatchOutput`, `DatabaseRestore`,
   `EsDeRecovery` and `HistoryJournals`; `Report` puts them together, and `JournalWalk` finds the
   patch-output journals. `SharedRollback` and
   `RenameRollback` define undo plainly (put the backup back, delete what was created, move back)
   and prove when a safe verdict can be acted on; `UndoJobs` holds the deletions and copies that
   undo comes down to. `SharedWriter` is the interrupted writer as a
   step machine: each file effect happens first and its checkpoint becomes durable one step later,
   for any number of entries in any interleaving, and a crash may fall between any two steps
   (`SharedWriterProgress` shows that such runs exist and end); `SharedRecovery` continues it as the
   writer that rolls back.
   `BudgetSoundness` compares every verdict under a budget with the one without. `SharedVerdict`,
   `RenameVerdict` and `SingleFileVerdicts` tell each verdict from the disk and the record alone.
2. **Process sandbox** (`scripts/qa/gui_sandbox.py`): `GuiSandbox`, a process table that others
   change between any two steps of the sandbox, with PIDs reused.
3. **SBOM generator and verifier** (`scripts/release/generate_sbom.py`): `SpdxExpression`,
   `SpdxSpelling`, `LicenceClass`, `DependencyGraph`, `SbomBundle`, `SbomAgreement` and
   `SbomPinning`.
4. **Release packager** (`scripts/release/package_release.py`): `MarkerScan`, `ReleaseTree`,
   `ReleaseVerify`, `ReleaseAcceptance`, `ReleasePinning` and `ReleaseRecords`.
5. **Test sharding** (`scripts/ci_test_shards.py`): `TestShards` and `ShardCounts`.
6. **Warning ratchet** (`scripts/clippy_ratchet.py`): `BaselineText`, `BaselineSpelling` and
   `WarningRatchet`.

`Common`, `TextOrder` and `TextLines` hold the vocabulary they share.

## Main results

- After a safe verdict on any shared journal, every order of undo restores every recorded pre-state
  exactly when the pre-states fit on one disk and the backups serve
  (`SharedRollback.EveryOrderRestoresExactly`); with destinations and backups at places of their own
  this comes down to checks on each entry (`SharedRollback.RollbackRestores`). Every crash
  point of a well-behaved writer is reconciled, and undo from there leads back to every recorded
  pre-state (`SharedWriter.EveryCrashPointReconciles`, `SharedWriter.CrashThenUndoRestores`).
  The writer that rolls back may crash as well: every such point is reconciled, and undo can be taken
  up again from it (`SharedRecovery.EveryRecoveryPointReconciles`,
  `SharedRecovery.InterruptedRecoveryRestores`).
- After a safe verdict on any rename journal, every order of undo restores exactly when no two applied
  entries share a destination and each move has a source with a free place of its own to return to
  (`RenameRollback.EveryOrderRestoresExactly`). When the journal lets the inspector look at every
  source, and its destination paths differ, only the existence and the distinctness of those places
  are left to check (`RenameRollback.WellRecordedRestores`).
- Without a budget the verdicts on shared, rename, patch-output, restore and gamelist journals are
  settled by the disk and the record alone, state by state: which files with which digests stand
  where, which roots bind which paths (`SharedVerdict.VerdictIsExact`,
  `RenameVerdict.VerdictIsExact`, `SingleFileVerdicts`); a source outside the approved root is
  refused under every budget (`SharedVerdict.MisrecordedIsRefused`).
- A safe verdict under a hash budget is the verdict without one, but for one kind of misleading name
  (`BudgetSoundness`), and exit code 1 means what it says (`Report.ExitOneIsTrustworthy`).
- Every delivered signal reaches a process the sandbox started or a descendant of one, under every
  interleaving, and every process that shows the token at its turn and stays is reached
  (`GuiSandbox.Sandbox.Signal`, `GuiSandbox.Sandbox.Stop`, `GuiSandbox.SendsAreExact`).
- The accepted licence expressions are exactly those spelt as tokens that derive, character by
  character (`SpdxSpelling.ExpressionIsSpelt`); the resolver is exact; a generated bundle passes the
  independent recounts exactly when keys, references and ids are distinct and the lockfile resolves
  (`SbomAgreement.GeneratedIsAccepted`), and any bundle exactly when each of its records is what the
  lockfile says (`SbomPinning.AcceptedExactlyWhenFaithful`).
- The chunked search equals the whole-file search; a release is accepted exactly when every record
  is true of its file (`ReleaseAcceptance.VerifiedExactlyWhenTrue`), and strict acceptance pins its
  payload and nothing else (`ReleasePinning.AcceptedExactlyWhenSame`).
- The shard checker accepts exactly when the lines add up (`ShardCounts.ExactlyWhenLinesAddUp`), and
  the baseline ratchet never lets a warning in (`WarningRatchet`).

## Where the code does less than one might expect

Each of these is proved with a concrete input, next to the exact condition under which the code
does meet the expectation.

- A budget can hide that a backup is unreadable; without a budget a path with the word "symlink" in
  it is then taken for a link, because the error text quotes the path. So a safe verdict can depend
  on the budget (`SharedBlindSpots.MisleadingName`; condition in `BudgetSoundness.SharedSafeSurvives`).
- A safe verdict on a shared journal does not mean that undo restores: a destination recorded
  through a parent step is never looked at, an entry state outside the vocabulary is passed over, a
  backup may match its own digest but not the pre-state's, and one entry's backup may be another's
  destination (four journals in `SharedBlindSpots`; conditions in
  `SharedRollback.RollbackRestores` and `SharedRollback.EveryOrderRestoresExactly`).
- Nor does one on a rename journal: two source paths may be one place through a linked folder, a
  source may be absent, a source recorded through a parent step is never looked at, and one move may
  be recorded twice (four journals in `RenameBlindSpots`; condition in
  `RenameRollback.EveryOrderRestoresExactly`).
- Exit code 0 does not mean that nothing went wrong (`Report.ExitZeroMayHideErrors`; condition in
  `Report.ExitZeroExactly`).
- One licence whose identifier spells out an operator, such as `A-OR-B`, is counted as several
  (`LicenceClass.OneLicenceAsSeveral`; exact statement in `LicenceClass.OperatorsSeen`).
- A version in brackets and a source with a space and a bracket do not survive the trip through a
  package id (`DependencyGraph.BracketedVersionIsLost`, `DependencyGraph.NestedSourceIsLost`;
  condition in `DependencyGraph.ParseInvertsId`).
- An AppImage whose kept name does not end in `.AppImage` is packaged and refused only at the end
  (`ReleaseRecords.ToolIsRefused`; condition in `ReleaseRecords.PackageAcceptsItsOwn`).
- A baseline entry with a bare Unicode line break makes the baseline unreadable for good
  (`BaselineText.LineSeparatorIsLost`, `WarningRatchet.UnreadableStays`; condition in
  `BaselineText.ReadInvertsWrite`).
- The usage text of the shard checker speaks of disjoint enumerations; the code compares multisets,
  so a test listed twice may run in two shards (`TestShards.TwoShardsOneTest`; condition in
  `TestShards.DisjointExactly`).

## Model

| member | source | states |
|---|---|---|
| `FileSystem.WalkKeepsSkeleton` | tools/pending_recovery/inspector.py:113-129 | a lookup that ends at a directory or link gives the same answer after any change that touches only regular files |
| `FileSystem.WalkAfterShrink` | tools/pending_recovery/inspector.py:147-160 | when objects only vanish or are overwritten, a lookup still finds its place if something is left there, and nothing otherwise |
| `Evidence.HashBudget.constructor` | tools/pending_recovery/inspector.py:47-50 | a new budget has hashed nothing and has its whole allowance left |
| `Evidence.HashBudget.HashFile` | tools/pending_recovery/inspector.py:52-71 | bytes hashed plus bytes left stay the starting total and what is left is never negative (Valid); a digest comes back exactly when nothing was wrong, and then that file's size is what was spent |
| `Evidence.FindLinkProblem` | tools/pending_recovery/inspector.py:113-129 | the first component, from the root down, that is a link or cannot be looked at; none exactly when every prefix is clear |
| `Evidence.InspectPath` | tools/pending_recovery/inspector.py:132-204 | the staged evidence record equals its specification, and the budget pays once exactly when a digest is reported |
| `Evidence.NoLinkMeansLiteral` | tools/pending_recovery/inspector.py:113-129 | a path without parent steps and without a link on the way that exists is its own location |
| `Evidence.LiteralHasNoLink` | tools/pending_recovery/inspector.py:113-129 | conversely a path whose every parent is a plain directory is reported free of links |
| `Evidence.SafePathNamesObject` | tools/pending_recovery/inspector.py:132-204 | safe_path for an existing object: following links or not, the path names that very object, of the reported kind, and it lies under expected_root when one is given |
| `Evidence.IdentityIsSound` | tools/pending_recovery/inspector.py:183-204 | identity_matches true means, under any budget, a regular file with the expected digest at a safe path |
| `Evidence.IdentityIsExact` | tools/pending_recovery/inspector.py:183-204 | without a budget identity_matches is true exactly for readable such files |
| `Evidence.BudgetOnlyHides` | tools/pending_recovery/inspector.py:52-71 | a budget can only withhold a digest: everything else in the record is as without one |
| `Evidence.InspectionCost` | tools/pending_recovery/inspector.py:52-71 | one inspection costs exactly the size of the file whose digest it reports, and nothing if it reports none |
| `Evidence.AmpleBudgetHidesNothing` | tools/pending_recovery/inspector.py:52-71 | a budget that covers the largest file gives the unlimited evidence |
| `Evidence.PlainEvidence` | tools/pending_recovery/inspector.py:132-204 | what the record says of a link-free path that holds a readable file or nothing |
| `DiskFacts.DigestsCompared` | tools/pending_recovery/inspector.py:201-203 | digests match exactly when they have equal length and each two characters are equal or one ASCII letter in two cases |
| `DiskFacts.EvidenceIsExact` | tools/pending_recovery/inspector.py:132-204 | without a budget the record answers exactly four questions asked of the disk itself: whether a lookup finds something, whether the place is vacant behind no link, whether a readable file with the digest stands behind plain folders, and whether a link or a text that looks like one is on the way |
| `DiskFacts.ObservedIsHeld` | tools/pending_recovery/inspector.py:183-204 | the digest read for one comparison is that of the file, so it serves for another recorded digest |
| `DiskFacts.ReportedWhenItFits` | tools/pending_recovery/inspector.py:52-71 | a readable file's digest is reported and its size spent exactly when it fits the limit for one file and what is left of the budget; otherwise nothing is spent and the problem says which of the three it was |
| `SharedJournal.GatherEntry` | tools/pending_recovery/inspector.py:488-523 | the evidence for destination, backup, temporary file and rolled-back destination, in that order, from one budget |
| `SharedJournal.Reconcile` | tools/pending_recovery/inspector.py:528-591 | one checkpoint against the disk: which conclusion is drawn, and when it is ambiguous or unproven |
| `SharedJournal.InspectEntry` | tools/pending_recovery/inspector.py:484-592 | the whole entry branch gives the specified finding and budget |
| `SharedJournal.JudgeEntries` | tools/pending_recovery/inspector.py:483-593 | the loop's flags and counter are the tally of the entries' findings, taken in order from one budget |
| `SharedJournal.TallyFlags` | tools/pending_recovery/inspector.py:483-593 | each flag of the loop is up exactly when some entry raised it, and completed is positive exactly when some entry counts |
| `SharedJournal.TallyCounts` | tools/pending_recovery/inspector.py:483-593 | completed is the number of entries that count |
| `SharedJournal.InspectSharedDurable` | tools/pending_recovery/inspector.py:469-611 | verdict and remaining budget equal the specification, for every journal, disk and starting budget |
| `SharedVerdict.EntryIsJudged` | tools/pending_recovery/inspector.py:484-592 | one entry by the disk alone, each checkpoint word spelled out: unsafe exactly when its record cannot be trusted or a link is on the way, ambiguous exactly when the disk does not bear its checkpoint out, counted exactly when it was applied or taken back |
| `SharedVerdict.VerdictIsExact` | tools/pending_recovery/inspector.py:469-611 | the whole verdict without a budget, each field told from disk and journal alone: when history, when not to be touched, when a rollback candidate, and entries_completed as the number of entries that the disk shows applied or taken back |
| `SharedVerdict.MisrecordedIsRefused` | tools/pending_recovery/inspector.py:486-497 | under every budget one entry whose source is missing, undecodable or not below the approved root, or whose other paths cannot be used, makes an unfinished journal not to be touched |
| `SharedVerdict.SafeVerdictBinds` | tools/pending_recovery/inspector.py:469-611 | so under every budget a safe verdict means that in each entry plan, source and approved root decode, the source is spelt below that root, and the disk bears each checkpoint out |
| `SharedVerdict.CleanIsSettled` | tools/pending_recovery/inspector.py:528-591 | a finding that is neither unsafe nor ambiguous under some budget is borne out by the disk, and counts exactly when the disk shows it applied or taken back |
| `UndoJobs.EveryOrderWorksExactly` | tools/pending_recovery/inspector.py:454-611 | deleting created files and restoring replaced ones from their backups: every order leaves each restored file with its wanted digest if and only if no restored file is deleted or wanted otherwise, backups hold the wanted digests, a backup that is itself restored is wanted alike, and each file has its digest already or a backup that nothing deletes |
| `SharedRollback.CleanFindingIsReady` | tools/pending_recovery/inspector.py:528-591 | a finding that is neither unsafe nor ambiguous, whatever the journal records: an entry to undo has its new bytes, and the backup undo needs, literally in place with the recorded digests |
| `SharedRollback.CleanFindingEstablishes` | tools/pending_recovery/inspector.py:528-591 | for an entry in the vocabulary that records its pre-state, moreover, what is left alone is in that pre-state |
| `SharedRollback.SafeVerdictIsClean` | tools/pending_recovery/inspector.py:597-602 | after a safe verdict no entry is unsafe, ambiguous or unproven |
| `SharedRollback.SafeVerdictIsReady` | tools/pending_recovery/inspector.py:469-611 | after a safe verdict on any journal every entry is decoded and whatever undo needs is in place |
| `SharedRollback.SafeVerdictEstablishes` | tools/pending_recovery/inspector.py:469-611 | after a safe verdict on a well-recorded journal every mark is true of the disk |
| `SharedRollback.UndoAllIsJobs` | tools/pending_recovery/inspector.py:454-466 | undo, which looks paths up again at every step, does what the deletions and copies read off the inspected disk do |
| `SharedRollback.EveryOrderRestoresExactly` | tools/pending_recovery/inspector.py:454-611 | after a safe verdict on any journal, every order of undo puts every destination back to its recorded pre-state if and only if the pre-states are those of one disk (created files gone, recorded digests in replaced ones) and the backups hold their digests whatever else is undone first |
| `SharedRollback.AnyOneOrder` | tools/pending_recovery/inspector.py:454-611 | with whatever undo needs in place (what a safe verdict establishes), and no undone entry writing to another's replaced file or backup, one order restores all if and only if the pre-states fit and each backup was recorded with its pre-state's digest |
| `SharedRollback.RollbackRestores` | tools/pending_recovery/inspector.py:454-611 | after a safe verdict, with destinations and backups at places of their own and no look-up error on what is left alone, any order of undo restores all if and only if each undone entry has its pre-state for a backup and each entry left alone is in its pre-state on the inspected disk |
| `SharedRollback.WellRecordedRestores` | tools/pending_recovery/inspector.py:454-611 | with entries in the vocabulary that record their pre-states and destinations that can be looked at, only the backups' digests decide |
| `SharedBlindSpots.UnobservedDestination` | tools/pending_recovery/inspector.py:454-466 | a journal with a safe verdict whose destination holds a parent step: it is never looked at, a file is left behind, and no order of undo restores |
| `SharedBlindSpots.UnlistedState` | tools/pending_recovery/inspector.py:540-591 | a journal with a safe verdict and an entry state outside the vocabulary, which is passed over; a file is left behind, and no order of undo restores |
| `SharedBlindSpots.OtherBackup` | tools/pending_recovery/inspector.py:509-514 | a well-recorded journal with a safe verdict whose backup matches its own digest but not the pre-state's: no order of undo restores |
| `SharedBlindSpots.SharedBackup` | tools/pending_recovery/inspector.py:538-549 | a journal with a safe verdict whose pre-states fit and whose backups hold them, where one entry's backup is another's destination: undoing that one first loses it |
| `SharedBlindSpots.CreatedTwice` | tools/pending_recovery/inspector.py:538-549 | a journal with a safe verdict that records one created file twice: the entries share a destination, and still every order of undo restores |
| `SharedBlindSpots.MisleadingName` | tools/pending_recovery/inspector.py:500-514 | a safe verdict under a small budget that is not the unlimited verdict, because an unreadable backup's name contains the word symlink |
| `SharedWriter.EffectAdvancesTask` | tools/pending_recovery/inspector.py:540-541 | one file effect takes a task from one level to the next and leaves links and directories alone |
| `SharedWriter.StepKeepsAgreement` | tools/pending_recovery/inspector.py:550-556 | every step of the writer, effect or checkpoint, of any task, keeps disk and levels in agreement for all tasks |
| `SharedWriter.RunAgrees` | tools/pending_recovery/inspector.py:550-556 | so does every run, in any interleaving of the tasks |
| `SharedWriter.EntryReconciles` | tools/pending_recovery/inspector.py:540-565 | at any crash point of one task, with its checkpoint durable or one step behind, the entry is reconciled without ambiguity |
| `SharedWriter.EveryCrashPointReconciles` | tools/pending_recovery/inspector.py:484-607 | crash coverage, without a budget or with one that covers four of the largest file per task: at every crash point of every run no entry is ambiguous or unsafe, entries_completed is the number of destinations that really hold the new bytes, and an interrupted transaction is a rollback candidate exactly when that number is positive |
| `SharedWriter.CrashJournalIsWellRecorded` | tools/pending_recovery/inspector.py:484-607 | the journal a crash leaves behind meets every assumption of the rollback theorem |
| `SharedWriter.CrashThenUndoRestores` | tools/pending_recovery/inspector.py:454-611 | from any crash point with something applied, under any such budget, undo in any order leads back to every recorded pre-state |
| `SharedWriterProgress.EveryWriterCanFinish` | tools/pending_recovery/inspector.py:540-541 | any number of tasks can be carried through: a run to the last checkpoint of every task exists |
| `SharedWriterProgress.OneInstall` | tools/pending_recovery/inspector.py:469-611 | a concrete sound setup whose finished run leaves a well-recorded journal with a safe verdict under a budget of four bytes, so the recovery theorems speak of something |
| `SharedRecovery.PutBack` | tools/pending_recovery/inspector.py:566-577 | undo as SharedRollback defines it puts exactly the previous file back, or removes the created one, wherever the crash left the entry |
| `SharedRecovery.RecoveryStepKeepsAgreement` | tools/pending_recovery/inspector.py:566-586 | every step of the writer that rolls back, checkpoint or file effect, of any entry, keeps the disk and the stages of all entries in agreement |
| `SharedRecovery.RecoveryRunAgrees` | tools/pending_recovery/inspector.py:566-586 | so does every recovery from every crash point, in any interleaving of the entries |
| `SharedRecovery.EntryInReconciles` | tools/pending_recovery/inspector.py:528-591 | at any crash point of the rollback of one entry its finding is clean: still applied, rolled back after a gap, or rolled back |
| `SharedRecovery.EveryRecoveryPointReconciles` | tools/pending_recovery/inspector.py:484-607 | crash coverage of the rollback, without a budget or with one that covers the files: at every point of every recovery from every crash point no entry is ambiguous or unsafe, each mark says whether its destination is back in its pre-state, and entries_completed is what it was before the recovery |
| `SharedRecovery.InterruptedRecoveryRestores` | tools/pending_recovery/inspector.py:454-611 | from any such point undo can be taken up again: in any order it leads back to every recorded pre-state |
| `SharedRecovery.FinishedRecoveryRestores` | tools/pending_recovery/inspector.py:566-586 | a recovery that ran to its end has restored every recorded pre-state |
| `SharedRecovery.EveryRecoveryCanFinish` | tools/pending_recovery/inspector.py:566-586 | from every crash point a recovery can be carried through |
| `RenameJournal.ExactStatIdentity` | tools/pending_recovery/inspector.py:315-334 | the exact-identity comparison of kind, size, time, inode and digest equals its specification |
| `RenameJournal.InspectApplied` | tools/pending_recovery/inspector.py:388-421 | the branch for an applied entry gives the specified finding |
| `RenameJournal.InspectEntry` | tools/pending_recovery/inspector.py:368-423 | every entry branch gives the specified finding and budget |
| `RenameJournal.InspectRename` | tools/pending_recovery/inspector.py:337-443 | verdict and remaining budget equal the specification, for every journal, disk and starting budget |
| `RenameVerdict.AppliedIsJudged` | tools/pending_recovery/inspector.py:388-421 | each kind of applied entry by the disk alone: safe exactly when the link with its text, the hard link with its captured source, or the moved file stands in place and its source is gone; unsafe only for a created link cut off from its root |
| `RenameVerdict.VerdictIsExact` | tools/pending_recovery/inspector.py:337-443 | the whole verdict without a budget from disk and journal alone: a rollback candidate exactly when the transaction is active, some entry claims to be applied, every claim holds, none is open and none is dangerous |
| `RenameVerdict.CountersAreExact` | tools/pending_recovery/inspector.py:368-427 | under every budget entries_completed is the number of entries recorded as applied or rolled back |
| `RenameVerdict.SafeVerdictHolds` | tools/pending_recovery/inspector.py:337-443 | under every budget a safe verdict means the same as without one |
| `RenameVerdict.DangerIsRefused` | tools/pending_recovery/inspector.py:369-443 | under every budget an entry that is no record, or a created link cut off from its root, makes an unsettled journal not to be touched |
| `RenameRollback.SafeFindingProves` | tools/pending_recovery/inspector.py:388-421 | an entry counted as safe, whatever its source, has its destination literally in place and as recorded |
| `RenameRollback.SafeVerdictProves` | tools/pending_recovery/inspector.py:337-443 | after a safe verdict on any journal that holds of every applied entry |
| `RenameRollback.EveryOrderRestoresExactly` | tools/pending_recovery/inspector.py:337-443 | after a safe verdict on any journal, every order of undoing the applied entries succeeds, and every order puts each file back and leaves the rest alone, if and only if no two entries share a destination, each move has a source with a place to return to once the created links are gone, nothing is at that place, and no two share one |
| `RenameRollback.DestinationsApart` | tools/pending_recovery/inspector.py:388-421 | after a safe verdict two applied entries share a destination on disk exactly when they record the same path |
| `RenameRollback.ReturnIsVacant` | tools/pending_recovery/inspector.py:411-421 | with sources that the inspector can look up (absolute, normalised, under the scan root) and pairwise different destination paths, a safe verdict itself shows that destinations differ and that nothing is at the places to return to |
| `RenameRollback.WellRecordedRestores` | tools/pending_recovery/inspector.py:337-443 | for such journals every order of undo restores if and only if each source has a place to return to and no two share one |
| `RenameRollback.AnyOrderRestores` | tools/pending_recovery/inspector.py:337-443 | after a safe verdict, under the exact condition, any one order meets no occupied source and no missing destination, leaves each source holding its recorded file and each destination vacant, and changes nothing else |
| `RenameRollback.PlacesAreNeeded` | tools/pending_recovery/inspector.py:337-443 | where destinations differ and nothing is at the places to return to, one order that removes the created links first succeeds if and only if each move has a source with a place and no two share one |
| `RenameBlindSpots.AliasedSources` | tools/pending_recovery/inspector.py:411-421 | a well-recorded journal with a safe verdict whose two distinct source paths are one place through a linked folder: no order of undo succeeds |
| `RenameBlindSpots.MissingSource` | tools/pending_recovery/inspector.py:416-420 | a journal with a safe verdict and a move without a source: no order of undo succeeds |
| `RenameBlindSpots.UnobservedSource` | tools/pending_recovery/inspector.py:416-420 | a journal with a safe verdict whose source holds a parent step: it is never looked at, another file is at its place, and no order of undo succeeds |
| `RenameBlindSpots.RecordedTwice` | tools/pending_recovery/inspector.py:411-421 | a journal with a safe verdict that records one move twice: no order of undo succeeds |
| `RenameBlindSpots.OneMoveReturns` | tools/pending_recovery/inspector.py:337-443 | a concrete well-recorded journal with a safe verdict and a place to return to, whose undo succeeds |
| `PatchOutput.GatherEvidence` | tools/pending_recovery/inspector.py:795-814 | the five inspections of a patch output, in order, from one budget |
| `PatchOutput.InspectPatchOutput` | tools/pending_recovery/inspector.py:759-839 | verdict and remaining budget equal the specification |
| `PatchOutput.MatchesIsHolding` | tools/pending_recovery/inspector.py:815-819 | an observed match is the recorded file at a safe path |
| `PatchOutput.SafeVerdictsAreExact` | tools/pending_recovery/inspector.py:820-839 | exactly when a patch output is a rollback candidate and exactly when it is a resume candidate, in terms of the disk alone |
| `DatabaseRestore.InspectDatabaseRestore` | tools/pending_recovery/inspector.py:842-966 | verdict and remaining budget equal the specification |
| `DatabaseRestore.SafeVerdictsAreExact` | tools/pending_recovery/inspector.py:842-966 | exactly when a restore is a resume candidate and exactly when it is a rollback candidate, in terms of the disk alone |
| `EsDeRecovery.InspectEsDeRecovery` | tools/pending_recovery/inspector.py:969-1042 | verdict and remaining budget equal the specification |
| `EsDeRecovery.SafeVerdictIsExact` | tools/pending_recovery/inspector.py:969-1042 | a record is a rollback candidate exactly when the gamelist already is in the recorded prior state |
| `SingleFileVerdicts.PatchVerdictIsExact` | tools/pending_recovery/inspector.py:759-839 | the whole verdict on a patch output from disk and journal alone, with the states that publish and those that stage spelled out |
| `SingleFileVerdicts.RestoreVerdictIsExact` | tools/pending_recovery/inspector.py:842-966 | the whole verdict on a database restore stage by stage: which files with which digests must be in place, when an emergency backup is needed, and that no log stands beside the database |
| `SingleFileVerdicts.ForeignReceiptIsRefused` | tools/pending_recovery/inspector.py:870-892 | under every budget a receipt whose own name and place do not bind it to a database directly below the data root is not to be touched |
| `SingleFileVerdicts.EsDeVerdictIsExact` | tools/pending_recovery/inspector.py:969-1042 | the whole verdict on a gamelist publication: not to be touched when the record does not lie beside its gamelist below the root or a link is on the way, a rollback candidate exactly when the gamelist is in its prior state |
| `SingleFileVerdicts.CheatClaimIsExact` | tools/pending_recovery/inspector.py:719-746 | a finished install run claims that it can be undone exactly when something was applied and every entry's file, and the different file it replaced, are in place on the disk |
| `BudgetSoundness.SharedSafeSurvives` | tools/pending_recovery/inspector.py:469-611 | a safe verdict of a shared journal under a budget is the unlimited verdict if and only if no unreadable file on the way has a name with symlink in it |
| `BudgetSoundness.RenameSafeSurvives` | tools/pending_recovery/inspector.py:337-443 | a safe verdict under any budget is the verdict without one |
| `BudgetSoundness.PatchSafeSurvives` | tools/pending_recovery/inspector.py:759-839 | a safe verdict under any budget is the verdict without one |
| `BudgetSoundness.RestoreSafeSurvives` | tools/pending_recovery/inspector.py:842-966 | a safe verdict under any budget is the verdict without one |
| `BudgetSoundness.EsDeSafeSurvives` | tools/pending_recovery/inspector.py:969-1042 | a safe verdict under any budget is the verdict without one |
| `BudgetSoundness.EnoughBudgetIsUnlimited` | tools/pending_recovery/inspector.py:469-611 | with room for four of the largest file per entry the budget decides nothing |
| `HistoryJournals.InspectReceipt` | tools/pending_recovery/inspector.py:641-689 | a rollback receipt is completed history exactly when its schema is known and every entry decoded and succeeded; otherwise it is not to be touched |
| `HistoryJournals.InspectCheat` | tools/pending_recovery/inspector.py:692-747 | a cheat run is completed history exactly when finished and never a safe candidate; possible rollback is claimed exactly for a finished install run with a decoded root, something applied and no blocking entry under the budget |
| `HistoryJournals.ClearMeansUndoable` | tools/pending_recovery/inspector.py:724-746 | no entry blocks only if each applied one has its file in place as installed and the different file it replaced in its backup; without a budget, exactly then |
| `Report.InspectFile` | tools/pending_recovery/inspector.py:1232-1340 | each file gives an operation its file and disk justify: lockstep of category and status, history exactly for settled journals, a safe status confirmed without a budget |
| `Report.InspectAll` | tools/pending_recovery/inspector.py:1232-1363 | the report lists one justified operation per listed file, and counts usable journals and errors |
| `Report.CountersAreExact` | tools/pending_recovery/inspector.py:1232-1340 | errors among the files are those that cannot be read, kind by kind, and usable journals are the others, archived sidecars only when history is asked for |
| `Report.SummaryAddsUp` | tools/pending_recovery/inspector.py:1344-1356 | pending is the sum of the four status counts, history is the rest, recoverable is the safe ones |
| `Report.ExitCodeMeaning` | tools/pending_recovery/inspector.py:1366-1373 | what each exit code says of the operations: 0 none active, 1 all active ones safe candidates, 2 some not, 3 errors and nothing usable |
| `Report.ReportIsLockstep` | tools/pending_recovery/inspector.py:1190-1363 | every operation of every report keeps category and status in lockstep |
| `Report.UnreadableForcesAttention` | tools/pending_recovery/inspector.py:1045-1049 | one unreadable journal among any others forces exit code 2 or 3 |
| `Report.ExitOneIsTrustworthy` | tools/pending_recovery/inspector.py:1366-1373 | exit code 1: every active operation is a safe candidate that its own inspector confirms without any budget |
| `Report.ExitZeroMayHideErrors` | tools/pending_recovery/inspector.py:1366-1373 | a report with an error and exit code 0, from a root that could not be listed |
| `Report.ExitZeroExactly` | tools/pending_recovery/inspector.py:1366-1373 | a report with exit code 0 has no error if and only if every root could be listed |
| `JournalWalk.VisitFolder` | tools/pending_recovery/inspector.py:1086-1094 | one folder's children become journals and further worklist items, with nothing lost and the work left strictly smaller |
| `JournalWalk.WalkAll` | tools/pending_recovery/inspector.py:1074-1096 | the worklist ends with all journals of the recursive meaning in some order, or fails exactly when a visited folder cannot be listed in full |
| `JournalWalk.PatchOutputFiles` | tools/pending_recovery/inspector.py:1074-1100 | the result is the sorted recursive meaning, cut to the first 512 with a warning exactly when there are more |
| `JournalWalk.JournalsAreReached` | tools/pending_recovery/inspector.py:1074-1100 | the recursive meaning lists exactly the journals that a path of at most four real folders leads to |
| `JournalWalk.ListedWithinFive` | tools/pending_recovery/inspector.py:1074-1100 | a text is listed exactly when at most five steps from child to child, all but the last through folders, lead to a regular file with the prefix and the suffix |
| `JournalWalk.BlockedWithinFour` | tools/pending_recovery/inspector.py:1081-1096 | the walk gives up exactly when at most four steps lead to a folder that cannot be listed or has more than 4096 entries |
| `TextOrder.SortTextsSorts` | tools/pending_recovery/inspector.py:1097-1097 | sorting gives an ascending list of the same texts |
| `TextOrder.SortedIsUnique` | tools/pending_recovery/inspector.py:1097-1097 | an ascending list is determined by its contents, so the order of discovery does not show |
| `TextOrder.OrderIsLexical` | tools/pending_recovery/inspector.py:1097-1097 | one text comes no later than another exactly when it opens it or has the smaller character where they first differ |
| `GuiSandbox.ApplyKeepsValid` | scripts/qa/gui_sandbox.py:190-210 | every step of other processes keeps the process table sound: token bearers descend from a sandbox process, PIDs name one incarnation, histories only grow |
| `GuiSandbox.RunKeepsValid` | scripts/qa/gui_sandbox.py:190-210 | so does any number of their steps between two of the sandbox's own |
| `GuiSandbox.OpenedIsChecked` | scripts/qa/gui_sandbox.py:194-207 | pidfd first: if the process held by the pidfd still exists when signalled, it is the process whose token was checked |
| `GuiSandbox.CheckFirstIsUnsafe` | scripts/qa/gui_sandbox.py:194-207 | checking before opening would not do: a run in which the PID is reused by a foreign process in between |
| `GuiSandbox.Sandbox.constructor` | scripts/qa/gui_sandbox.py:96-106 | a new sandbox has signalled nobody and has snapshotted the desktop |
| `GuiSandbox.Sandbox.Signal` | scripts/qa/gui_sandbox.py:194-210 | each outcome exactly, under any interference: delivered if and only if the PID is above 1, not the sandbox's own, taken when the pidfd is opened, shows the token at the check, and its holder is still there at the send; gone if and only if it was free or its holder left; refused otherwise. The log grows by just that delivery, and its target descends from a process the sandbox started |
| `GuiSandbox.SendsAreExact` | scripts/qa/gui_sandbox.py:216-225 | a delivery is in a round's log if and only if some listed process shows the token at its own turn and stays, and then it carries that process, signal and check |
| `GuiSandbox.QuietSendsReachAll` | scripts/qa/gui_sandbox.py:216-225 | when nobody interferes every listed process that shows the token is reached, but for PIDs 0 and 1 and the sandbox itself |
| `GuiSandbox.DesktopIsCompared` | scripts/qa/gui_sandbox.py:83-93 | the two desktop snapshots are equal exactly when every watched process that is not the sandbox's own is as it was |
| `GuiSandbox.Sandbox.Owned` | scripts/qa/gui_sandbox.py:190-192 | lists exactly the PIDs that showed the token, each at its own moment between the start of the pass and its end |
| `GuiSandbox.Sandbox.Poll` | scripts/qa/gui_sandbox.py:212-214 | a child is reaped once, when it has exited; its status is remembered, so a stale PID never reaps another process |
| `GuiSandbox.Sandbox.ReapChildren` | scripts/qa/gui_sandbox.py:212-214 | only exited processes that the sandbox itself started leave the table |
| `GuiSandbox.Sandbox.AwaitGone` | scripts/qa/gui_sandbox.py:226-233 | what is left is exactly what shows the token in a pass made after the polling |
| `GuiSandbox.Sandbox.SignalAll` | scripts/qa/gui_sandbox.py:217-225 | exactly the processes that showed the token in the pass are asked to be signalled, once each and one right after the other; the log grows by exactly those that show the token at their turn and stay, and only own processes are reached |
| `GuiSandbox.Sandbox.Stop` | scripts/qa/gui_sandbox.py:216-240 | SIGTERM is asked for exactly those that show the token at first, SIGKILL for exactly those that show it later if any still did when the first round ended, and nothing else; in each round exactly those that show the token at their turn and stay are reached; all deliveries come before the last pass, whose findings are the leftovers; success means none and an unchanged desktop |
| `GuiSandbox.Sandbox.AwaitToken` | scripts/qa/gui_sandbox.py:145-153 | returns ready only if the child shows the token or has exited, and otherwise reports a child that is still the sandbox's own |
| `GuiSandbox.Sandbox.Spawn` | scripts/qa/gui_sandbox.py:132-143 | the child is a started process from birth and is handed out only once provably own or gone |
| `GuiSandbox.ChildIsNotReaped` | scripts/qa/gui_sandbox.py:132-153 | nobody else reaps a started child, so its PID cannot be reused while it is awaited |
| `GuiSandbox.ForeignIsNeverSignalled` | scripts/qa/gui_sandbox.py:194-210 | whatever happens later, no process that neither was started by the sandbox nor descends from one that was is among the targets so far |
| `SpdxExpression.Recogniser.ParseAtom` | scripts/release/generate_sbom.py:484-502 | atom() on the shared index accepts and advances as specified |
| `SpdxExpression.Recogniser.ParseExpression` | scripts/release/generate_sbom.py:504-512 | expression() on the shared index accepts and advances as specified |
| `SpdxExpression.Recognise` | scripts/release/generate_sbom.py:480-514 | a token list is accepted exactly when it derives from E = A ((AND|OR) A)*, A = id | id WITH id | ( E ) |
| `SpdxExpression.RecognisedIsDerived` | scripts/release/generate_sbom.py:480-514 | the recogniser is exact: sound and complete for the grammar of Annex D |
| `SpdxExpression.ValidSpdxExpression` | scripts/release/generate_sbom.py:468-514 | a text is accepted exactly when it tokenises to a list that derives from the grammar |
| `SpdxExpression.PrintedTreeIsAccepted` | scripts/release/generate_sbom.py:468-514 | a tree printed with single spaces is accepted exactly when no identifier is a keyword or starts with one followed by a full stop, plus or minus |
| `SpdxExpression.DerivedBalance` | scripts/release/generate_sbom.py:484-514 | whatever derives has exactly one more identifier than operators |
| `SpdxSpelling.ExpressionIsSpelt` | scripts/release/generate_sbom.py:464-514 | a text is accepted if and only if it is spelt as a list of tokens that derives, with characters given by code points: an identifier is a letter or digit and then letters, digits, full stops, plus or minus signs, no keyword and not a keyword with a sign after it; white space may stand before each token and may be missing only beside a parenthesis |
| `SpdxSpelling.AcceptedCharacters` | scripts/release/generate_sbom.py:464-475 | every character of an accepted text is white space, a parenthesis, an ASCII letter or digit, a full stop, a plus or a minus |
| `SpdxSpelling.SlashIsRefused` | scripts/release/generate_sbom.py:464-475 | a text with a slash is refused, as MIT/Apache-2.0 is |
| `LicenceClass.Classify` | scripts/release/generate_sbom.py:547-560 | a declared expression is ambiguous exactly when it is no expression, and otherwise declared as several exactly when AND or OR stands in its text as a word; without one the licence file, then availability, decide |
| `LicenceClass.OperatorsSeen` | scripts/release/generate_sbom.py:554-554 | in a spelt text that search sees exactly its operators and the operators spelt inside identifiers |
| `LicenceClass.SeveralExactly` | scripts/release/generate_sbom.py:547-560 | an accepted expression, however it is spaced, is classified as several licences exactly when some token is an operator or an identifier that spells one out |
| `LicenceClass.StrippedIsBare` | scripts/release/generate_sbom.py:547-548 | what is stripped off a declared expression is white space, and what is left neither starts nor ends with any |
| `LicenceClass.OneLicenceAsSeveral` | scripts/release/generate_sbom.py:554-554 | a single licence that is classified as several |
| `DependencyGraph.ParseInvertsId` | scripts/release/generate_sbom.py:229-238 | parse_dependency inverts package_id exactly for keys without a source whose version is not bracketed and for keys whose source is not empty and holds no space and bracket |
| `DependencyGraph.BracketedVersionIsLost` | scripts/release/generate_sbom.py:229-238 | a key whose version is in brackets reads back with that version as its source |
| `DependencyGraph.NestedSourceIsLost` | scripts/release/generate_sbom.py:229-238 | a key whose source holds a space and a bracket does not read back |
| `DependencyGraph.ResolvesUniquely` | scripts/release/generate_sbom.py:254-263 | a record resolves exactly when one entry of the lockfile fits it, and then to that entry |
| `DependencyGraph.IndexByName` | scripts/release/generate_sbom.py:242-245 | the index gives for every name the locked keys of that name in order |
| `DependencyGraph.ResolvePackage` | scripts/release/generate_sbom.py:249-263 | one package's records: their distinct targets and one error for each that does not resolve |
| `DependencyGraph.ResolveGraph` | scripts/release/generate_sbom.py:241-265 | graph and errors equal their specification, and the resolver raises exactly when some record holds no name |
| `DependencyGraph.NoErrorsMeansUnique` | scripts/release/generate_sbom.py:241-265 | no errors if and only if every record of every package matches exactly one locked package |
| `DependencyGraph.GraphIsClosed` | scripts/release/generate_sbom.py:241-265 | the graph's nodes are the locked keys and it never leads out of them, errors or not |
| `DependencyGraph.NodeIsOwnTargets` | scripts/release/generate_sbom.py:264-264 | with distinct keys each node holds exactly what that package's own records resolve to |
| `DependencyGraph.NodeIsMeant` | scripts/release/generate_sbom.py:241-265 | with distinct keys a package leads exactly to those packages that some record of it means: the only one with the record's name, and its version and source where given |
| `DependencyGraph.NameReadsBack` | scripts/release/generate_sbom.py:229-238 | a record that is a bare name asks for nothing but the name |
| `DependencyGraph.FullRecordResolves` | scripts/release/generate_sbom.py:229-265 | a full record with a source resolves to the very key it spells |
| `DependencyGraph.ShortRecordResolves` | scripts/release/generate_sbom.py:229-265 | a record without a source resolves to its key exactly when no other key has that name and version |
| `SbomBundle.NoteTexts` | scripts/release/generate_sbom.py:653-662 | one package's licence texts are filed under their digests, with the package noted at each and nothing lost |
| `SbomBundle.Generate` | scripts/release/generate_sbom.py:608-757 | the accumulation loop writes one component and relation per key, one licence record per third-party key, and one text record per digest naming exactly the packages that carry it |
| `SbomBundle.CountAll` | scripts/release/generate_sbom.py:747-752 | the counts, taken in the lockfile's own order, are those of the sorted inventory |
| `SbomBundle.CheckRefs` | scripts/release/generate_sbom.py:1007-1014 | the reference checks hold exactly when sizes agree, references are distinct and every relationship stays within them |
| `SbomBundle.Observe` | scripts/release/generate_sbom.py:1015-1034 | one pass gathers ids, references and both counters; it passes exactly when ids are the lockfile's and checksums agree |
| `SbomBundle.CheckRelations` | scripts/release/generate_sbom.py:1035-1046 | passes exactly when the lockfile resolves without error and the relationships are those it resolves to |
| `SbomBundle.CheckLicences` | scripts/release/generate_sbom.py:1067-1106 | passes exactly when inventory, counts and the cross-references between texts and packages all agree |
| `SbomBundle.Verify` | scripts/release/generate_sbom.py:1003-1106 | a bundle is accepted exactly when all recounts agree |
| `SbomAgreement.SharedIdIsNoticed` | scripts/release/generate_sbom.py:1038-1046 | in a generated bundle two packages that share an id cannot pass the relationship check |
| `SbomAgreement.SameRelationships` | scripts/release/generate_sbom.py:1038-1046 | with distinct references and ids the written relationships are the expected ones |
| `SbomAgreement.ScopesCounted` | scripts/release/generate_sbom.py:1050-1055 | the recounted scopes are the sizes of the workspace, the direct dependencies and the rest |
| `SbomAgreement.LicencesAgree` | scripts/release/generate_sbom.py:1067-1106 | licence inventory, licence counts and text cross-references of a generated bundle always pass |
| `SbomAgreement.GeneratedIsAccepted` | scripts/release/generate_sbom.py:576-838 | producer and verifier agree: a generated bundle passes every recount if and only if keys, references and ids are distinct and every dependency record resolves |
| `SbomAgreement.OrdinaryLockfilesVerify` | scripts/release/generate_sbom.py:52-66 | for distinct keys with ordinary names, versions and sources, a generated bundle passes if and only if the lockfile resolves completely |
| `SbomPinning.AcceptedExactlyWhenFaithful` | scripts/release/generate_sbom.py:1003-1106 | for a lockfile whose package ids differ, any bundle at all is accepted if and only if, record by record: each package has its one component under a reference of its own, which lists the locked checksum, and one relationship, which leads to just the components of what the lockfile resolves; counts are the numbers of records; licences cover the third-party components; and each text has its digest and the packages that name it |
| `SbomPinning.AcceptedListsChecksum` | scripts/release/generate_sbom.py:1028-1032 | in an accepted bundle every component of a package with a recorded checksum lists that very checksum |
| `SbomPinning.OtherChecksumIsRefused` | scripts/release/generate_sbom.py:1028-1032 | with any other checksums in one such component a bundle is refused |
| `SbomPinning.AcceptedIsPinned` | scripts/release/generate_sbom.py:1003-1106 | two accepted bundles with the same components and licences have the same counts, relationships, texts up to their digests, and packages at each text |
| `MarkerScan.WindowSuffices` | scripts/release/package_release.py:314-319 | a marker of what was read so far is in what was read before or in the window that overlaps it |
| `MarkerScan.BinaryContains` | scripts/release/package_release.py:310-320 | for every way of splitting a file into non-empty chunks and every set of markers, exactly the markers of the whole file are found; an empty marker in every file that is not empty |
| `ReleaseTree.PosixReadsBack` | scripts/release/package_release.py:574-576 | the text of a payload path leads back to its parts |
| `ReleaseTree.PayloadFiles` | scripts/release/package_release.py:460-472 | all regular files, each once, exactly when the tree holds no denied name, link or special file; otherwise the first offence of the walk |
| `ReleaseTree.ParseChecksumFile` | scripts/release/package_release.py:643-652 | the record-by-record parse equals its specification, refusing bad and repeated records |
| `ReleaseTree.NamedPathsAreUnbroken` | scripts/release/package_release.py:647-651 | no path that a checksum file names holds a line break |
| `ReleaseTree.SumsReadBack` | scripts/release/package_release.py:1139-1142 | a written checksum text with distinct unbroken paths is read back to exactly those paths and digests |
| `ReleaseVerify.ListEntries` | scripts/release/package_release.py:758-765 | the records are indexed by path exactly when all are well formed, relative, without parent steps and distinct |
| `ReleaseVerify.CheckRecords` | scripts/release/package_release.py:758-786 | passes exactly when listing, checksum file and tree agree on paths, sizes, modes and digests, and executables are allowed ones |
| `ReleaseVerify.CheckArtifacts` | scripts/release/package_release.py:787-801 | passes exactly when every artifact is a listed file of its digest, size and architecture and the GUI's digest is the first GUI artifact's |
| `ReleaseVerify.VerifyDirectory` | scripts/release/package_release.py:720-816 | a directory is accepted exactly when manifest, checksums, canonical files, test hooks, records, artifacts, payload and, in strict mode, extras are all in order |
| `ReleaseAcceptance.VerifiedExactlyWhenTrue` | scripts/release/package_release.py:643-816 | a directory is accepted if and only if it is true, told file by file: the canonical files are there and neither program holds the marker's bytes, every record has its file's size, digest, mode and sum, every artifact its file's architecture, digest and size, the first GUI artifact the manifest's digest, the checksum lines are well formed and name just the records, and nothing forbidden or, in strict mode, unlisted is there |
| `ReleaseAcceptance.AcceptedArtifactsAreTrue` | scripts/release/package_release.py:787-801 | every artifact of an accepted release names a file with its architecture, digest and size |
| `ReleaseAcceptance.OtherArtifactIsRefused` | scripts/release/package_release.py:787-801 | a manifest that gives one artifact another architecture, digest or size than its file has is refused, whatever else it says |
| `ReleaseAcceptance.HookIsMarker` | scripts/release/package_release.py:736-742 | a program counts as hooked exactly when the marker's characters stand in its bytes, one after the other |
| `ReleasePinning.AcceptancePinsTree` | scripts/release/package_release.py:720-816 | strict acceptance pins the tree: two accepted directories with the same manifest have the same files, each payload file with the same size, digest and executable flag, and the same checksums |
| `ReleasePinning.AcceptedExactlyWhenSame` | scripts/release/package_release.py:720-816 | given one accepted directory, another with the same manifest is accepted if and only if its payload is the same, its checksum file names the same digests and it holds nothing a payload may not hold |
| `ReleaseRecords.WrittenRecordsPass` | scripts/release/package_release.py:1069-1142 | the records package writes pass the record checks if and only if no path holds a line break and every executable is canonical or an .AppImage under bin |
| `ReleaseRecords.PackagedIsVerified` | scripts/release/package_release.py:1069-1154 | a packaged directory is verified strictly if and only if its paths are packable and canonical files, artifacts and payload are in order: records and checksums add no further condition |
| `ReleaseRecords.OutputNameMayExecute` | scripts/release/package_release.py:976-984 | an AppImage may be executable exactly when its name is not kept or ends in .AppImage |
| `ReleaseRecords.PackageAcceptsItsOwn` | scripts/release/package_release.py:960-1142 | package accepts its own records exactly when every AppImage it was given ends in .AppImage or has a name it does not keep |
| `ReleaseRecords.ToolIsRefused` | scripts/release/package_release.py:960-1142 | a concrete release with an AppImage named tool.sh, correctly written, whose records are refused |
| `TestShards.ArgumentsReadBack` | scripts/ci_test_shards.py:65-78 | own filters and skips are read back from the argument list as they were |
| `TestShards.ShardRuns` | scripts/ci_test_shards.py:65-78 | a shard runs what one of its filters matches, all if it has none, less what any earlier group matches |
| `TestShards.ExactlyOneShardRuns` | scripts/ci_test_shards.py:65-78 | exact partition: with only the last group empty, every shard gets arguments and exactly the first matching shard, or the last, runs a test |
| `TestShards.UnmatchedTestNeedsTheGuard` | scripts/ci_test_shards.py:74-75 | without the guard a test that nothing matches would run in every shard without filters |
| `TestShards.ShippedPartitionsAreExact` | scripts/ci_test_shards.py:31-78 | both shipped partitions are exact, and a shard's name alone leads to its own arguments |
| `TestShards.RefusedListing` | scripts/ci_test_shards.py:81-96 | a listing is refused exactly when a test stands before every header |
| `TestShards.ParseListing` | scripts/ci_test_shards.py:81-96 | the line-by-line parse equals the multiset of listed tests, each under its binary |
| `TestShards.CheckShard` | scripts/ci_test_shards.py:117-128 | one shard's lists are refused exactly when no non-empty whole that agrees with the reference fits them |
| `TestShards.Check` | scripts/ci_test_shards.py:99-136 | accepts if and only if planned, complete and selected shards coincide, all complete enumerations are one non-empty multiset, every selection is within it and the selections sum to it; an empty plan crashes |
| `TestShards.AcceptedRunsEachOnce` | scripts/ci_test_shards.py:131-136 | accepted enumerations leave no test out, and one listed m times is selected by between one and m shards, so one listed once by exactly one |
| `TestShards.DisjointExactly` | scripts/ci_test_shards.py:99-136 | with two shards or more, every accepted capture of a suite selects each test in exactly one shard if and only if the suite lists no test twice |
| `TestShards.TwoShardsOneTest` | scripts/ci_test_shards.py:99-136 | an accepted capture in which two shards select the one test, which the suite lists twice |
| `TestShards.UnionAnyOrder` | scripts/ci_test_shards.py:117-129 | the union does not depend on the order in which shards are read |
| `TestShards.SelectionsAreAccepted` | scripts/ci_test_shards.py:65-136 | listings that the selections themselves produce over any non-empty suite are always accepted |
| `ShardCounts.ListingCounts` | scripts/ci_test_shards.py:81-96 | a listing is read exactly when each test stands below some header, and each key is counted as often as a line lists that test under the header above it |
| `ShardCounts.UnionCounts` | scripts/ci_test_shards.py:117-129 | the union counts each test as often as lines list it in all selections together |
| `ShardCounts.ExactlyWhenLinesAddUp` | scripts/ci_test_shards.py:99-136 | told by counting lines alone: a partition is accepted if and only if the shards are the planned ones, every listing can be read, something is listed, and each test is listed equally often in every full listing and in all selections together |
| `WarningRatchet.CopiesArePlaces` | scripts/clippy_ratchet.py:33-50 | a fingerprint has as many copies as distinct places report it, however often each is repeated |
| `WarningRatchet.CopiesAreReports` | scripts/clippy_ratchet.py:33-50 | a fingerprint has as many copies as there are lines and columns at which a compiler message of level warning reports it, at its first primary span or, if none is primary, its first span |
| `WarningRatchet.Warnings` | scripts/clippy_ratchet.py:33-50 | the two loops compute that multiset |
| `BaselineText.ReadBaseline` | scripts/clippy_ratchet.py:53-62 | the line-by-line read equals its specification, failing on the first line that is no entry |
| `BaselineText.TextIgnoresOrder` | scripts/clippy_ratchet.py:65-67 | the written file is the same to the byte in whatever order entries are enumerated |
| `BaselineText.WriteBaseline` | scripts/clippy_ratchet.py:65-67 | the text written is that canonical text |
| `BaselineText.EntryReads` | scripts/clippy_ratchet.py:58-66 | one dumped entry is read back as itself, whatever characters it holds |
| `BaselineSpelling.EntryIsSpelt` | scripts/clippy_ratchet.py:58-61 | a line reads as an entry if and only if it is the JSON array of its three strings, told by code points: literals of bare characters, short escapes and four-digit escapes, with gaps anywhere between the parts |
| `BaselineSpelling.BaselineIsSpelt` | scripts/clippy_ratchet.py:53-62 | a baseline is read exactly when each line is white space, a comment or such an entry, and then allows each entry as often as lines say it |
| `TextLines.LinesAreWoven` | scripts/clippy_ratchet.py:55-55 | the lines of a text are exactly those without line ends that, each with its end, make the text up again: a carriage return and line feed count as one end, and only the last line may lack one |
| `BaselineText.ReadInvertsWrite` | scripts/clippy_ratchet.py:53-67 | reading inverts writing if and only if every entry is free of U+0085, U+2028 and U+2029; otherwise reading fails, and never gives different entries |
| `BaselineText.LineSeparatorIsLost` | scripts/clippy_ratchet.py:53-67 | a baseline written with one warning whose message holds U+2028 cannot be read |
| `WarningRatchet.Ratchet.constructor` | scripts/clippy_ratchet.py:87-87 | the baseline file before any command |
| `WarningRatchet.Ratchet.Run` | scripts/clippy_ratchet.py:87-115 | check and write on the file: exit and new file are as specified, including the refusal of --initial and crashes on an unreadable baseline |
| `WarningRatchet.StepRefines` | scripts/clippy_ratchet.py:88-115 | the commands on the text of the file do what they do on the multiset it stands for |
| `WarningRatchet.RunRefines` | scripts/clippy_ratchet.py:88-115 | so do whole histories |
| `WarningRatchet.AllowanceNeverGrows` | scripts/clippy_ratchet.py:88-115 | once the file exists, no later point of any history allows any fingerprint more copies |
| `WarningRatchet.PassingIsInsideFirst` | scripts/clippy_ratchet.py:88-115 | in any history from no file on, a check that passes comes after the command that created the baseline and has its warnings, copy for copy, inside that first baseline |
| `WarningRatchet.WriteLocksIn` | scripts/clippy_ratchet.py:94-115 | through every history after a successful write, a command that succeeds has only warnings that were written; and until the next successful write exactly those succeed, unless an entry holds a bare line break and none does |
| `WarningRatchet.UnreadableStays` | scripts/clippy_ratchet.py:88-115 | an unreadable baseline stays so under every history |
| `WarningRatchet.NoTradingOff` | scripts/clippy_ratchet.py:104-111 | at any later point of any history, a command with more copies of one fingerprint than the file once allowed fails and leaves the file alone, whatever the total |

## Left out

- The Rust transaction engine, planner and provider adapters: not part of this model; undo is the plain specification above.
- JSON and TOML decoding: journals, manifests and lockfiles are decoded records, with an unreadable or malformed case where the source has one; recorded state words are an enumeration with an explicit value for any other word.
- SHA-256: a regular file carries its digest, or hashing is a function parameter; no theorem assumes it has no collisions except where it says so (`ReleasePinning.IsTold`).
- The clock: timestamps are absent and time-outs are numbers of polls.
- Report texts: blockers, evidence lists and reasons, and the order in which operations are printed.
- SharedJournal.InspectSharedDurable: an entry that is not an object keeps a placeholder mark; the source lists no checkpoint for it.
- Evidence.InspectPath: `hash_when_unrecorded` is never used by a caller and a link's text is always readable.
- Evidence.IdentityIsExact: digests are compared with ASCII case folding, which is all that hexadecimal text needs.
- FileSystem: paths that begin with exactly two slashes, and permission errors other than an unreadable directory or file.
- SharedRollback.RollbackRestores: undo is a function of the recorded marks; the engine's own re-checks before each step are not modelled.
- RenameRollback.EveryOrderRestoresExactly: likewise for moving files back and removing links.
- SharedRecovery.EveryRecoveryPointReconciles: the writer that rolls back takes the steps that the inspector's states name; its code is not part of this model.
- Report.InspectAll: which directories are listed, and in what order files are found, are inputs; finalize_operation's guard against an unknown state cannot fire because the state is an enumeration.
- HistoryJournals: legacy records and library-view history are plain functions of two fields, without a theorem of their own.
- GuiSandbox.Sandbox.Stop: reads of /proc are atomic per PID; desktop processes are told apart by incarnation, which the source approximates by start time.
- Xvfb, the window manager and the environment passed to children.
- SpdxExpression.ValidSpdxExpression: letters beyond ASCII count as word characters, which never changes the result because no token holds them.
- source_type: a small table that case analysis settles; reviewed licences and supplements are part of the given material.
- DependencyGraph.ResolveGraph: a node is a set, not a sorted list; Python cannot sort two keys that share name and version when just one has a source, and raises instead.
- SbomBundle.Verify: provenance fields, the inventory hash, the notice text and strict mode; a dependency that one relationship names twice and a repeated licence digest cannot be represented, because targets are sets and texts are kept by digest.
- SbomPinning.AcceptedExactlyWhenFaithful: lockfiles in which two packages share an id, which takes an empty source beside an absent one; for generated bundles `SbomAgreement.GeneratedIsAccepted` covers them.
- SbomBundle.Generate: the sorted order is an input, and relationships are sets because references are checked to be distinct first.
- ReleaseVerify.VerifyDirectory: lookups through a linked folder count as missing, since such a tree is refused in any case; the packaged SBOM's own verification, ELF inspection and UTF-8 decoding are given functions.
- ReleaseTree.PayloadFiles: the result is not sorted, because both callers use it as a set or sort it again.
- ReleaseRecords.WrittenRecordsPass: the manifest's JSON text and its sorted order are inputs; copying files, signing and archives are absent.
- TestShards.ParseListing: a line is already recognised as header, test or neither; colour codes and the hash in a binary's name are stripped before.
- BaselineText.ReadBaseline: a `\u` escape of a lone surrogate counts as unreadable, and pairs of them are not joined.
- WarningRatchet.Ratchet.Run: `count`, messages and argument errors, none of which touch the file.
- scripts/ci_gate.py, command-line parsing, human-readable rendering, smoke drivers and remote probes: plumbing.
