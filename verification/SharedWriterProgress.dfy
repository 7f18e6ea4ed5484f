/** The writer's runs are there: every setup can be carried through to the end, and setups exist. */
module SharedWriterProgress {
  import opened Common
  import opened FileSystem
  import opened Evidence
  import opened Operation
  import opened SharedJournal
  import opened SharedRollback
  import opened SharedWriter

  /** No effect is ahead of its checkpoint; tasks before `i` are done, task `i` is at `rank`, the others wait. */
  predicate IsAt(setup: Setup, w: World, i: nat, rank: nat) {
    |w.durable| == |w.ahead| == |setup.tasks| && i <= |setup.tasks| && rank <= LAST &&
    forall j | 0 <= j < |setup.tasks| ::
      !w.ahead[j] && w.durable[j] == if j < i then LAST else if j == i then rank else 0
  }

  lemma Extend(setup: Setup, start: Disk, run: seq<World>, next: World)
    requires IsRun(setup, start, run) && Step(setup, run[|run| - 1], next)
    ensures IsRun(setup, start, run + [next])
  {
    var more := run + [next];
    forall k | 0 <= k < |more| - 1 ensures Step(setup, more[k], more[k + 1]) {
      assert more[k] == run[k];
      if k + 1 < |run| { assert more[k + 1] == run[k + 1] && Step(setup, run[k], run[k + 1]); }
    }
  }

  /** One effect and its checkpoint. */
  lemma Advance(setup: Setup, start: Disk, run: seq<World>, i: nat, rank: nat) returns (longer: seq<World>)
    requires IsRun(setup, start, run) && IsAt(setup, run[|run| - 1], i, rank) && i < |setup.tasks| && rank < LAST
    ensures IsRun(setup, start, longer) && IsAt(setup, longer[|longer| - 1], i, rank + 1)
  {
    var w := run[|run| - 1];
    var acted := World(Effect(w.disk, setup.tasks[i], rank + 1), w.durable, w.ahead[i := true]);
    var recorded := World(acted.disk, acted.durable[i := rank + 1], acted.ahead[i := false]);
    assert Acts(setup, w, acted, i);
    Extend(setup, start, run, acted);
    assert Records(setup, acted, recorded, i);
    Extend(setup, start, run + [acted], recorded);
    longer := run + [acted] + [recorded];
  }

  /** Any number of tasks can be carried through one after the other. */
  lemma EveryWriterCanFinish(setup: Setup, start: Disk) returns (run: seq<World>)
    ensures IsRun(setup, start, run)
    ensures var w := run[|run| - 1];
      |w.durable| == |w.ahead| == |setup.tasks| && forall i | 0 <= i < |setup.tasks| ::
        w.durable[i] == LAST && !w.ahead[i]
  {
    var n := |setup.tasks|;
    run := [World(start, seq(n, k => 0), seq(n, k => false))];
    for i := 0 to n
      invariant IsRun(setup, start, run) && IsAt(setup, run[|run| - 1], i, 0)
    {
      for rank := 0 to LAST
        invariant IsRun(setup, start, run) && IsAt(setup, run[|run| - 1], i, rank)
      {
        run := Advance(setup, start, run, i, rank);
      }
    }
  }

  /** A finished sound writer holds the new bytes everywhere, so the recovery theorems speak of it. */
  lemma FinishedHoldsNew(setup: Setup, start: Disk, run: seq<World>, i: nat)
    requires GoodSetup(start, setup) && IsRun(setup, start, run) && i < |setup.tasks|
    requires var w := run[|run| - 1]; |w.durable| == |w.ahead| == |setup.tasks| && w.durable[i] == LAST && !w.ahead[i]
    ensures HoldsNew(run[|run| - 1].disk, setup.tasks[i])
  {
    var w := run[|run| - 1];
    RunAgrees(start, setup, run, |run| - 1);
    assert GoodTask(start, setup, setup.tasks[i]) && TaskAgrees(w.disk, setup.tasks[i], Level(w, i));
    HoldsNewAtLevel(start, setup, w.disk, setup.tasks[i], Level(w, i));
  }

  const BYTES := Regular("n", 1, 0, 0, 0, true)
  const EMPTY := Disk(map[[] := Directory(true)], [])
  const INSTALL := Task(
    Path(true, []), Path(false, ["x"]), Path(true, ["s"]), Path(true, ["b"]), Path(true, ["t"]), BYTES, None, false)
  const ROOM := Limits(1, 4)
  const SETUP := Setup(Path(true, []), Path(true, []), [INSTALL])

  /** A sound setup, its run to the end, and the safe verdict that a small budget gives on the journal left there. */
  lemma OneInstall(style: Style) returns (run: seq<World>)
    ensures GoodSetup(EMPTY, SETUP) && IsRun(SETUP, EMPTY, run)
    ensures var w := run[|run| - 1];
      var journal := JournalLeft(SETUP, style, w, APPLYING);
      InspectShared(w.disk, ROOM, journal).0.suggested == SafeRollback && WellRecorded(w.disk, journal)
  {
    SetupIsGood();
    run := EveryWriterCanFinish(SETUP, EMPTY);
    var w := run[|run| - 1];
    FinishedHoldsNew(SETUP, EMPTY, run, 0);
    assert SETUP.tasks[..0] == [] && CountNew(w.disk, SETUP.tasks) == 1;
    EveryCrashPointReconciles(EMPTY, SETUP, style, run, |run| - 1, APPLYING, ROOM, 1);
    CrashJournalIsWellRecorded(EMPTY, SETUP, style, w, APPLYING);
  }

  lemma SetupIsGood()
    ensures GoodSetup(EMPTY, SETUP)
  {
    assert "x"[0] == 'x' && "b"[0] == 'b' && "t"[0] == 't' && ".."[0] == '.';
    assert ["x"][0] == "x" && ["b"][0] == "b" && ["t"][0] == "t";
    assert DestinationOf(INSTALL) == [] + ["x"] == ["x"];
    assert ["x"][..0] == [] && ["b"][..0] == [] && ["t"][..0] == [];
    assert |["x"]| == 1 && |["b"]| == 1 && |["t"]| == 1 && |["s"]| == 1;
    assert GoodTask(EMPTY, SETUP, INSTALL);
  }
}
