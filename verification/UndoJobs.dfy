/**
 Undo as jobs on places: delete a file, or put another file's content over it. When does every
 order of the jobs leave the same contents behind?
 */
module UndoJobs {
  import opened Common
  import opened FileSystem

  datatype Job = Keep | Delete(at: Location) | Restore(at: Location, source: Location)

  predicate Touches(job: Job, at: Location) {
    !job.Keep? && job.at == at
  }

  /** A file that is gone is not restored, and nothing is restored from a file that is gone. */
  function Perform(disk: Disk, job: Job): Disk {
    match job
    case Keep => disk
    case Delete(at) => disk.(objects := disk.objects - {at})
    case Restore(at, source) =>
      if at in disk.objects && source in disk.objects then disk.(objects := disk.objects[at := disk.objects[source]])
      else disk
  }

  predicate InRange(order: seq<nat>, n: nat) {
    forall k | 0 <= k < |order| :: order[k] < n
  }

  function PerformAll(disk: Disk, jobs: seq<Job>, order: seq<nat>): Disk
    requires InRange(order, |jobs|)
    decreases |order|
  {
    if order == [] then disk else PerformAll(Perform(disk, jobs[order[0]]), jobs, order[1..])
  }

  /** Every job exactly once, in any order. */
  ghost predicate IsOrder(order: seq<nat>, n: nat) {
    Distinct(order) && forall j: nat :: j in order <==> j < n
  }

  /** All places are those of regular files. */
  predicate OnFiles(disk: Disk, jobs: seq<Job>) {
    forall k | 0 <= k < |jobs| && !jobs[k].Keep? ::
      IsRegular(disk, jobs[k].at) && (jobs[k].Restore? ==> IsRegular(disk, jobs[k].source))
  }

  /** No other job touches a file that one job restores. */
  predicate NoneShared(jobs: seq<Job>) {
    forall i, j | 0 <= i < |jobs| && 0 <= j < |jobs| && i != j && jobs[i].Restore? :: !Touches(jobs[j], jobs[i].at)
  }

  predicate IsDeleted(jobs: seq<Job>, at: Location) {
    exists k | 0 <= k < |jobs| :: jobs[k] == Delete(at)
  }

  /** The disk without the files that the jobs delete. */
  function Without(disk: Disk, jobs: seq<Job>): Disk {
    disk.(objects := map at | at in disk.objects && !IsDeleted(jobs, at) :: disk.objects[at])
  }

  // ----- what one order does to one place

  ghost predicate SameAt(a: Disk, b: Disk, at: Location) {
    (at in a.objects <==> at in b.objects) && (at in a.objects ==> a.objects[at] == b.objects[at])
  }

  lemma {:induction false} AllShrink(disk: Disk, now: Disk, jobs: seq<Job>, order: seq<nat>)
    requires InRange(order, |jobs|) && OnFiles(disk, jobs) && OnlyShrunk(disk, now)
    ensures OnlyShrunk(disk, PerformAll(now, jobs, order))
    decreases |order|
  {
    if order != [] {
      OneShrinks(disk, now, jobs[order[0]]);
      AllShrink(disk, Perform(now, jobs[order[0]]), jobs, order[1..]);
    }
  }

  lemma OneShrinks(disk: Disk, now: Disk, job: Job)
    requires OnlyShrunk(disk, now)
    requires !job.Keep? ==> IsRegular(disk, job.at) && (job.Restore? ==> IsRegular(disk, job.source))
    ensures OnlyShrunk(disk, Perform(now, job))
  {
    if job.Restore? && job.source in now.objects { assert now.objects[job.source].Regular?; }
  }

  lemma {:induction false} KeptAt(now: Disk, jobs: seq<Job>, order: seq<nat>, at: Location)
    requires InRange(order, |jobs|) && forall k | 0 <= k < |order| :: !Touches(jobs[order[k]], at)
    ensures SameAt(now, PerformAll(now, jobs, order), at)
    decreases |order|
  {
    if order != [] { KeptAt(Perform(now, jobs[order[0]]), jobs, order[1..], at); }
  }

  lemma {:induction false} StaysGone(now: Disk, jobs: seq<Job>, order: seq<nat>, at: Location)
    requires InRange(order, |jobs|) && at !in now.objects
    ensures at !in PerformAll(now, jobs, order).objects
    decreases |order|
  {
    if order != [] { StaysGone(Perform(now, jobs[order[0]]), jobs, order[1..], at); }
  }

  lemma {:induction false} GoneOnceDeleted(now: Disk, jobs: seq<Job>, order: seq<nat>, k: nat, at: Location)
    requires InRange(order, |jobs|) && k < |order| && jobs[order[k]] == Delete(at)
    ensures at !in PerformAll(now, jobs, order).objects
    decreases |order|
  {
    var next := Perform(now, jobs[order[0]]);
    if k == 0 {
      StaysGone(next, jobs, order[1..], at);
    } else {
      assert order[1..][k - 1] == order[k];
      GoneOnceDeleted(next, jobs, order[1..], k - 1, at);
    }
  }

  lemma {:induction false} StaysUnlessDeleted(now: Disk, jobs: seq<Job>, order: seq<nat>, at: Location)
    requires InRange(order, |jobs|) && at in now.objects && forall k | 0 <= k < |order| :: jobs[order[k]] != Delete(at)
    ensures at in PerformAll(now, jobs, order).objects
    decreases |order|
  {
    if order != [] { StaysUnlessDeleted(Perform(now, jobs[order[0]]), jobs, order[1..], at); }
  }

  lemma {:induction false} KeptOrGone(now: Disk, jobs: seq<Job>, order: seq<nat>, at: Location)
    requires InRange(order, |jobs|) && forall k | 0 <= k < |order| && jobs[order[k]].Restore? :: jobs[order[k]].at != at
    ensures var end := PerformAll(now, jobs, order);
      at in end.objects ==> at in now.objects && end.objects[at] == now.objects[at]
    decreases |order|
  {
    if order != [] { KeptOrGone(Perform(now, jobs[order[0]]), jobs, order[1..], at); }
  }

  /** In the end exactly the deleted files are missing. */
  lemma EndShape(disk: Disk, jobs: seq<Job>, order: seq<nat>)
    requires IsOrder(order, |jobs|) && InRange(order, |jobs|) && OnFiles(disk, jobs)
    ensures SameShape(PerformAll(disk, jobs, order), Without(disk, jobs))
  {
    var end := PerformAll(disk, jobs, order);
    AllShrink(disk, disk, jobs, order);
    forall at
      ensures at in end.objects <==> at in disk.objects && !IsDeleted(jobs, at)
    {
      EndKey(disk, jobs, order, at);
    }
  }

  lemma EndKey(disk: Disk, jobs: seq<Job>, order: seq<nat>, at: Location)
    requires IsOrder(order, |jobs|) && InRange(order, |jobs|)
    ensures at in PerformAll(disk, jobs, order).objects <==> at in disk.objects && !IsDeleted(jobs, at)
  {
    if at !in disk.objects {
      StaysGone(disk, jobs, order, at);
    } else if IsDeleted(jobs, at) {
      var j: nat :| j < |jobs| && jobs[j] == Delete(at);
      assert j in order;
      var k :| 0 <= k < |order| && order[k] == j;
      GoneOnceDeleted(disk, jobs, order, k, at);
    } else {
      StaysUnlessDeleted(disk, jobs, order, at);
    }
  }

  // ----- what a restored file ends up with

  lemma {:induction false} Split(now: Disk, jobs: seq<Job>, a: seq<nat>, b: seq<nat>)
    requires InRange(a, |jobs|) && InRange(b, |jobs|)
    ensures InRange(a + b, |jobs|)
    ensures PerformAll(now, jobs, a + b) == PerformAll(PerformAll(now, jobs, a), jobs, b)
    decreases |a|
  {
    if a == [] {
      assert a + b == b;
    } else {
      assert (a + b)[1..] == a[1..] + b;
      Split(Perform(now, jobs[a[0]]), jobs, a[1..], b);
    }
  }

  lemma OthersKeep(jobs: seq<Job>, order: seq<nat>, j: nat, k: nat)
    requires InRange(order, |jobs|) && Distinct(order) && NoneShared(jobs)
    requires k < |order| && order[k] == j && j < |jobs| && jobs[j].Restore?
    ensures forall m | 0 <= m < |order| && m != k :: !Touches(jobs[order[m]], jobs[j].at)
  {
    forall m | 0 <= m < |order| && m != k ensures order[m] != j {
      if m < k { assert order[m] != order[k]; } else { assert order[k] != order[m]; }
    }
  }

  /** The content of its source at its turn, or its own if the source is gone by then. */
  lemma RestoredTo(now: Disk, jobs: seq<Job>, order: seq<nat>, k: nat)
    requires InRange(order, |jobs|) && Distinct(order) && NoneShared(jobs) && k < |order|
    requires jobs[order[k]].Restore? && jobs[order[k]].at in now.objects
    ensures var job := jobs[order[k]]; var mid := PerformAll(now, jobs, order[..k]);
      var end := PerformAll(now, jobs, order);
      job.at in end.objects &&
      end.objects[job.at] == if job.source in mid.objects then mid.objects[job.source] else now.objects[job.at]
  {
    var job := jobs[order[k]];
    var a, b := order[..k], order[k + 1..];
    OthersKeep(jobs, order, order[k], k);
    var mid := PerformAll(now, jobs, a);
    forall m | 0 <= m < |a| ensures !Touches(jobs[a[m]], job.at) { assert a[m] == order[m]; }
    forall m | 0 <= m < |b| ensures !Touches(jobs[b[m]], job.at) { assert b[m] == order[k + 1 + m]; }
    KeptAt(now, jobs, a, job.at);
    KeptAt(Perform(mid, job), jobs, b, job.at);
    EndAround(now, jobs, order, k);
  }

  lemma EndAround(now: Disk, jobs: seq<Job>, order: seq<nat>, k: nat)
    requires InRange(order, |jobs|) && k < |order|
    ensures PerformAll(now, jobs, order) ==
      PerformAll(Perform(PerformAll(now, jobs, order[..k]), jobs[order[k]]), jobs, order[k + 1..])
  {
    var a, b := order[..k], order[k + 1..];
    assert order == a + ([order[k]] + b);
    Split(now, jobs, a, [order[k]] + b);
    assert ([order[k]] + b)[1..] == b;
  }

  /** When no source is touched by another job, every restored file ends up with its source. */
  lemma RestoredFromSource(disk: Disk, jobs: seq<Job>, order: seq<nat>, k: nat)
    requires InRange(order, |jobs|) && Distinct(order) && NoneShared(jobs) && OnFiles(disk, jobs)
    requires k < |order| && jobs[order[k]].Restore?
    requires forall i | 0 <= i < |jobs| && i != order[k] :: !Touches(jobs[i], jobs[order[k]].source)
    ensures var job := jobs[order[k]]; var end := PerformAll(disk, jobs, order);
      job.at in end.objects && end.objects[job.at] == disk.objects[job.source]
  {
    var a := order[..k];
    RestoredTo(disk, jobs, order, k);
    forall m | 0 <= m < |a| ensures !Touches(jobs[a[m]], jobs[order[k]].source) {
      assert a[m] == order[m] && order[m] != order[k];
    }
    KeptAt(disk, jobs, a, jobs[order[k]].source);
  }

  /** Any start can be completed to an order. */
  lemma CompleteOrder(n: nat, start: seq<nat>) returns (order: seq<nat>)
    requires Distinct(start) && InRange(start, n)
    ensures IsOrder(order, n) && InRange(order, n) && start <= order
  {
    order := start;
    for m := 0 to n
      invariant Distinct(order) && InRange(order, n) && start <= order
      invariant forall j: nat | j < m :: j in order
    {
      if m !in order { order := order + [m]; }
    }
    forall j: nat ensures j in order <==> j < n {
      if j in order {
        var k :| 0 <= k < |order| && order[k] == j;
      }
    }
  }

  // ----- the conditions under which every order restores what is wanted

  predicate HasDigest(disk: Disk, at: Location, digest: string) {
    IsRegular(disk, at) && SameHex(disk.objects[at].sha256, digest)
  }

  predicate Restores(job: Job, at: Location) {
    job.Restore? && job.at == at
  }

  /** A restored file is not deleted, and all who restore it want the same content. */
  predicate Agree(jobs: seq<Job>, wanted: seq<string>)
    requires |wanted| == |jobs|
  {
    forall i, j | 0 <= i < |jobs| && 0 <= j < |jobs| && jobs[i].Restore? && Touches(jobs[j], jobs[i].at) ::
      jobs[j].Restore? && SameHex(wanted[i], wanted[j])
  }

  /** What is restored from another file finds the wanted digest there to begin with. */
  predicate SourcesHold(disk: Disk, jobs: seq<Job>, wanted: seq<string>)
    requires |wanted| == |jobs|
  {
    forall j | 0 <= j < |jobs| && jobs[j].Restore? && jobs[j].source != jobs[j].at ::
      HasDigest(disk, jobs[j].source, wanted[j])
  }

  /** A source that is itself restored is given the content its users want. */
  predicate SourcesAgree(jobs: seq<Job>, wanted: seq<string>)
    requires |wanted| == |jobs|
  {
    forall i, j | 0 <= i < |jobs| && 0 <= j < |jobs| && jobs[j].Restore? && Restores(jobs[i], jobs[j].source) ::
      SameHex(wanted[i], wanted[j])
  }

  /** The job brings in another file's content, and no job deletes that file. */
  predicate Lasts(jobs: seq<Job>, job: Job) {
    job.Restore? && job.source != job.at && !IsDeleted(jobs, job.source)
  }

  /** A restored file has its wanted digest from the start, or one job that always succeeds. */
  predicate SourcesLast(disk: Disk, jobs: seq<Job>, wanted: seq<string>)
    requires |wanted| == |jobs|
  {
    forall j | 0 <= j < |jobs| && jobs[j].Restore? ::
      HasDigest(disk, jobs[j].at, wanted[j]) || exists k | 0 <= k < |jobs| ::
        Restores(jobs[k], jobs[j].at) && Lasts(jobs, jobs[k])
  }

  predicate AllAsWanted(disk: Disk, jobs: seq<Job>, wanted: seq<string>)
    requires |wanted| == |jobs|
  {
    forall j | 0 <= j < |jobs| && jobs[j].Restore? :: HasDigest(disk, jobs[j].at, wanted[j])
  }

  ghost predicate EveryOrderWorks(disk: Disk, jobs: seq<Job>, wanted: seq<string>)
    requires |wanted| == |jobs|
  {
    forall order | InRange(order, |jobs|) && IsOrder(order, |jobs|) ::
      AllAsWanted(PerformAll(disk, jobs, order), jobs, wanted)
  }

  // ----- they suffice

  ghost predicate AsWanted(now: Disk, jobs: seq<Job>, wanted: seq<string>, at: Location)
    requires |wanted| == |jobs|
  {
    (exists i | 0 <= i < |jobs| :: Restores(jobs[i], at)) &&
    forall j | 0 <= j < |jobs| && Restores(jobs[j], at) :: HasDigest(now, at, wanted[j])
  }

  /** On the way every file is as it was, or as wanted, or deleted. */
  ghost predicate OnTheWay(disk: Disk, now: Disk, jobs: seq<Job>, wanted: seq<string>)
    requires |wanted| == |jobs|
  {
    (forall at | at in disk.objects && at !in now.objects :: IsDeleted(jobs, at)) &&
    forall at | at in now.objects :: SameAt(disk, now, at) || AsWanted(now, jobs, wanted, at)
  }

  lemma StepOnTheWay(disk: Disk, now: Disk, jobs: seq<Job>, wanted: seq<string>, m: nat)
    requires |wanted| == |jobs| && m < |jobs| && OnTheWay(disk, now, jobs, wanted)
    requires Agree(jobs, wanted) && SourcesHold(disk, jobs, wanted) && SourcesAgree(jobs, wanted)
    ensures OnTheWay(disk, Perform(now, jobs[m]), jobs, wanted)
    ensures Lasts(jobs, jobs[m]) && jobs[m].source in disk.objects && jobs[m].at in now.objects ==>
      AsWanted(Perform(now, jobs[m]), jobs, wanted, jobs[m].at)
  {
    var job, next := jobs[m], Perform(now, jobs[m]);
    if job.Restore? && job.source != job.at && job.at in now.objects && job.source in now.objects {
      CopyIsWanted(disk, now, jobs, wanted, m);
    }
    forall at | at in next.objects ensures SameAt(disk, next, at) || AsWanted(next, jobs, wanted, at) {
      assert SameAt(disk, now, at) || AsWanted(now, jobs, wanted, at);
      if AsWanted(now, jobs, wanted, at) { StepKeepsWanted(disk, now, jobs, wanted, m, at); }
    }
  }

  lemma StepKeepsWanted(disk: Disk, now: Disk, jobs: seq<Job>, wanted: seq<string>, m: nat, at: Location)
    requires |wanted| == |jobs| && m < |jobs| && OnTheWay(disk, now, jobs, wanted)
    requires Agree(jobs, wanted) && SourcesHold(disk, jobs, wanted) && SourcesAgree(jobs, wanted)
    requires AsWanted(now, jobs, wanted, at)
    ensures AsWanted(Perform(now, jobs[m]), jobs, wanted, at)
  {
    var job := jobs[m];
    var i :| 0 <= i < |jobs| && Restores(jobs[i], at);
    if Touches(job, at) {
      assert job.Restore? && HasDigest(now, at, wanted[i]);
      if job.source != at && job.source in now.objects {
        CopyIsWanted(disk, now, jobs, wanted, m);
      } else {
        WantedIfSame(now, Perform(now, job), jobs, wanted, at);
      }
    } else {
      WantedIfSame(now, Perform(now, job), jobs, wanted, at);
    }
  }

  lemma WantedIfSame(now: Disk, next: Disk, jobs: seq<Job>, wanted: seq<string>, at: Location)
    requires |wanted| == |jobs| && AsWanted(now, jobs, wanted, at) && SameAt(now, next, at)
    ensures AsWanted(next, jobs, wanted, at)
  {
    forall j | 0 <= j < |jobs| && Restores(jobs[j], at) ensures HasDigest(next, at, wanted[j]) {
      assert HasDigest(now, at, wanted[j]);
    }
  }

  lemma CopyIsWanted(disk: Disk, now: Disk, jobs: seq<Job>, wanted: seq<string>, m: nat)
    requires |wanted| == |jobs| && m < |jobs| && OnTheWay(disk, now, jobs, wanted)
    requires Agree(jobs, wanted) && SourcesHold(disk, jobs, wanted) && SourcesAgree(jobs, wanted)
    requires jobs[m].Restore? && jobs[m].source != jobs[m].at && jobs[m].at in now.objects &&
      jobs[m].source in now.objects
    ensures AsWanted(Perform(now, jobs[m]), jobs, wanted, jobs[m].at)
  {
    var job, next := jobs[m], Perform(now, jobs[m]);
    if AsWanted(now, jobs, wanted, job.source) {
      var i :| 0 <= i < |jobs| && Restores(jobs[i], job.source);
      assert HasDigest(now, job.source, wanted[i]) && SameHex(wanted[i], wanted[m]);
    } else {
      assert SameAt(disk, now, job.source);
    }
    assert Restores(jobs[m], job.at) && HasDigest(next, job.at, wanted[m]);
    forall j | 0 <= j < |jobs| && Restores(jobs[j], job.at) ensures HasDigest(next, job.at, wanted[j]) {
      assert Touches(jobs[j], jobs[m].at);
    }
  }

  lemma {:induction false} AllOnTheWay(disk: Disk, now: Disk, jobs: seq<Job>, wanted: seq<string>, order: seq<nat>,
      at: Location)
    requires |wanted| == |jobs| && InRange(order, |jobs|) && OnTheWay(disk, now, jobs, wanted)
    requires Agree(jobs, wanted) && SourcesHold(disk, jobs, wanted) && SourcesAgree(jobs, wanted)
    ensures OnTheWay(disk, PerformAll(now, jobs, order), jobs, wanted)
    ensures AsWanted(now, jobs, wanted, at) ==> AsWanted(PerformAll(now, jobs, order), jobs, wanted, at)
    decreases |order|
  {
    if order != [] {
      StepOnTheWay(disk, now, jobs, wanted, order[0]);
      if AsWanted(now, jobs, wanted, at) { StepKeepsWanted(disk, now, jobs, wanted, order[0], at); }
      AllOnTheWay(disk, Perform(now, jobs[order[0]]), jobs, wanted, order[1..], at);
    }
  }

  /** Once a lasting job had its turn, the file stays as wanted. */
  lemma LastingJobWorks(disk: Disk, jobs: seq<Job>, wanted: seq<string>, order: seq<nat>, k: nat)
    requires |wanted| == |jobs| && InRange(order, |jobs|) && OnFiles(disk, jobs)
    requires Agree(jobs, wanted) && SourcesHold(disk, jobs, wanted) && SourcesAgree(jobs, wanted)
    requires k < |order| && Lasts(jobs, jobs[order[k]])
    ensures AsWanted(PerformAll(disk, jobs, order), jobs, wanted, jobs[order[k]].at)
  {
    var job, a := jobs[order[k]], order[..k];
    var mid := PerformAll(disk, jobs, a);
    AllOnTheWay(disk, disk, jobs, wanted, a, job.at);
    RestoredStays(disk, jobs, wanted, a, order[k]);
    StepOnTheWay(disk, mid, jobs, wanted, order[k]);
    AllOnTheWay(disk, Perform(mid, job), jobs, wanted, order[k + 1..], job.at);
    EndAround(disk, jobs, order, k);
  }

  lemma RestoredStays(disk: Disk, jobs: seq<Job>, wanted: seq<string>, order: seq<nat>, j: nat)
    requires |wanted| == |jobs| && InRange(order, |jobs|) && OnFiles(disk, jobs) && Agree(jobs, wanted)
    requires j < |jobs| && jobs[j].Restore?
    ensures jobs[j].at in PerformAll(disk, jobs, order).objects
  {
    forall m | 0 <= m < |order| ensures jobs[order[m]] != Delete(jobs[j].at) {
      if Touches(jobs[order[m]], jobs[j].at) { assert jobs[order[m]].Restore?; }
    }
    StaysUnlessDeleted(disk, jobs, order, jobs[j].at);
  }

  lemma ConditionsSuffice(disk: Disk, jobs: seq<Job>, wanted: seq<string>, order: seq<nat>)
    requires |wanted| == |jobs| && InRange(order, |jobs|) && IsOrder(order, |jobs|) && OnFiles(disk, jobs)
    requires Agree(jobs, wanted) && SourcesHold(disk, jobs, wanted) && SourcesAgree(jobs, wanted) &&
      SourcesLast(disk, jobs, wanted)
    ensures AllAsWanted(PerformAll(disk, jobs, order), jobs, wanted)
  {
    var end := PerformAll(disk, jobs, order);
    forall j | 0 <= j < |jobs| && jobs[j].Restore? ensures HasDigest(end, jobs[j].at, wanted[j]) {
      assert Restores(jobs[j], jobs[j].at);
      RestoredStays(disk, jobs, wanted, order, j);
      AllOnTheWay(disk, disk, jobs, wanted, order, jobs[j].at);
      assert SameAt(disk, end, jobs[j].at) || AsWanted(end, jobs, wanted, jobs[j].at);
      if !HasDigest(disk, jobs[j].at, wanted[j]) {
        var m: nat :| m < |jobs| && Restores(jobs[m], jobs[j].at) && Lasts(jobs, jobs[m]);
        assert m in order;
        var k :| 0 <= k < |order| && order[k] == m;
        LastingJobWorks(disk, jobs, wanted, order, k);
      }
    }
  }

  // ----- they are needed

  /** The jobs of one kind, and then all others. */
  lemma Leading(n: nat, kind: nat -> bool) returns (start: seq<nat>, order: seq<nat>)
    ensures Distinct(start) && InRange(start, n) && forall k | 0 <= k < |start| :: kind(start[k])
    ensures forall m: nat | m < n && kind(m) :: m in start
    ensures IsOrder(order, n) && InRange(order, n) && start <= order
  {
    start := [];
    for m := 0 to n
      invariant Distinct(start) && InRange(start, m) && forall k | 0 <= k < |start| :: kind(start[k])
      invariant forall j: nat | j < m && kind(j) :: j in start
    {
      if kind(m) { start := start + [m]; }
    }
    order := CompleteOrder(n, start);
  }

  lemma NotLeading(start: seq<nat>, order: seq<nat>, k: nat)
    requires start <= order && Distinct(order) && |start| <= k < |order|
    ensures forall m | m in start :: m != order[k]
  {
    forall i | 0 <= i < |start| ensures start[i] != order[k] { assert start[i] == order[i]; }
  }

  lemma AgreementNeeded(disk: Disk, jobs: seq<Job>, wanted: seq<string>)
    requires |wanted| == |jobs| && OnFiles(disk, jobs) && EveryOrderWorks(disk, jobs, wanted)
    ensures Agree(jobs, wanted)
  {
    var order := CompleteOrder(|jobs|, []);
    var end := PerformAll(disk, jobs, order);
    forall i, j | 0 <= i < |jobs| && 0 <= j < |jobs| && jobs[i].Restore? && Touches(jobs[j], jobs[i].at)
      ensures jobs[j].Restore? && SameHex(wanted[i], wanted[j])
    {
      assert HasDigest(end, jobs[i].at, wanted[i]);
      EndKey(disk, jobs, order, jobs[i].at);
      if jobs[j].Restore? { assert HasDigest(end, jobs[j].at, wanted[j]); }
    }
  }

  /** A job that comes right after the others on its file decides that file's content. */
  lemma LastOnFile(disk: Disk, jobs: seq<Job>, j: nat) returns (order: seq<nat>)
    requires OnFiles(disk, jobs) && j < |jobs| && jobs[j].Restore? && jobs[j].source != jobs[j].at &&
      !IsDeleted(jobs, jobs[j].at)
    ensures IsOrder(order, |jobs|) && InRange(order, |jobs|)
    ensures var end := PerformAll(disk, jobs, order);
      jobs[j].at in end.objects && end.objects[jobs[j].at] == disk.objects[jobs[j].source]
  {
    var job := jobs[j];
    var others, _ := Leading(|jobs|, (m: nat) => m < |jobs| && m != j && Touches(jobs[m], job.at));
    var k := |others|;
    assert (others + [j])[k] == j;
    order := CompleteOrder(|jobs|, others + [j]);
    assert order[..k] == others && order[k] == j;
    forall m | 0 <= m < |others| ensures !Touches(jobs[others[m]], job.source) {}
    KeptAt(disk, jobs, others, job.source);
    StaysUnlessDeleted(disk, jobs, others, job.at);
    var next := Perform(PerformAll(disk, jobs, others), job);
    var rest := order[k + 1..];
    forall m | 0 <= m < |rest| ensures !Touches(jobs[rest[m]], job.at) {
      NotLeading(others + [j], order, k + 1 + m);
      assert (others + [j])[k] in others + [j] && rest[m] !in others + [j];
      assert forall i | 0 <= i < k :: (others + [j])[i] == others[i];
    }
    KeptAt(next, jobs, rest, job.at);
    EndAround(disk, jobs, order, k);
  }

  lemma HoldingNeeded(disk: Disk, jobs: seq<Job>, wanted: seq<string>)
    requires |wanted| == |jobs| && OnFiles(disk, jobs) && EveryOrderWorks(disk, jobs, wanted)
    ensures SourcesHold(disk, jobs, wanted)
  {
    AgreementNeeded(disk, jobs, wanted);
    forall j | 0 <= j < |jobs| && jobs[j].Restore? && jobs[j].source != jobs[j].at
      ensures HasDigest(disk, jobs[j].source, wanted[j])
    {
      if k :| 0 <= k < |jobs| && jobs[k] == Delete(jobs[j].at) { assert Touches(jobs[k], jobs[j].at); }
      var order := LastOnFile(disk, jobs, j);
      assert HasDigest(PerformAll(disk, jobs, order), jobs[j].at, wanted[j]);
    }
  }

  /** The last job of all copies what its source holds in the end. */
  lemma LastCopies(disk: Disk, jobs: seq<Job>, j: nat) returns (order: seq<nat>)
    requires j < |jobs| && jobs[j].Restore?
    ensures IsOrder(order, |jobs|) && InRange(order, |jobs|)
    ensures var end := PerformAll(disk, jobs, order);
      jobs[j].source in end.objects && jobs[j].at in end.objects ==>
        end.objects[jobs[j].at] == end.objects[jobs[j].source]
  {
    var others, whole := Leading(|jobs|, (m: nat) => m != j);
    order := others + [j];
    assert forall k | 0 <= k < |others| :: order[k] == others[k];
    forall m: nat ensures m in order <==> m < |jobs| {
      assert m in order <==> m in others || m == j;
    }
    Split(disk, jobs, others, [j]);
    assert [j][1..] == [];
    assert PerformAll(disk, jobs, order) == Perform(PerformAll(disk, jobs, others), jobs[j]);
  }

  lemma SourceAgreementNeeded(disk: Disk, jobs: seq<Job>, wanted: seq<string>)
    requires |wanted| == |jobs| && OnFiles(disk, jobs) && EveryOrderWorks(disk, jobs, wanted)
    ensures SourcesAgree(jobs, wanted)
  {
    forall i, j | 0 <= i < |jobs| && 0 <= j < |jobs| && jobs[j].Restore? && Restores(jobs[i], jobs[j].source)
      ensures SameHex(wanted[i], wanted[j])
    {
      var order := LastCopies(disk, jobs, j);
      var end := PerformAll(disk, jobs, order);
      assert HasDigest(end, jobs[i].at, wanted[i]) && HasDigest(end, jobs[j].at, wanted[j]);
    }
  }

  /** With the deleted files gone, a job that would have used one of them changes nothing. */
  lemma {:induction false} NothingToCopy(now: Disk, jobs: seq<Job>, order: seq<nat>, at: Location)
    requires InRange(order, |jobs|) && (forall p | IsDeleted(jobs, p) :: p !in now.objects)
    requires !IsDeleted(jobs, at) && forall k | 0 <= k < |jobs| && Restores(jobs[k], at) :: !Lasts(jobs, jobs[k])
    ensures SameAt(now, PerformAll(now, jobs, order), at)
    decreases |order|
  {
    if order != [] {
      NothingToCopy(Perform(now, jobs[order[0]]), jobs, order[1..], at);
    }
  }

  lemma DeletionsFirst(disk: Disk, jobs: seq<Job>, at: Location) returns (order: seq<nat>)
    requires !IsDeleted(jobs, at) && forall k | 0 <= k < |jobs| && Restores(jobs[k], at) :: !Lasts(jobs, jobs[k])
    ensures IsOrder(order, |jobs|) && InRange(order, |jobs|) && SameAt(disk, PerformAll(disk, jobs, order), at)
  {
    var deletions;
    deletions, order := Leading(|jobs|, (m: nat) => m < |jobs| && jobs[m].Delete?);
    var rest := order[|deletions|..];
    assert order == deletions + rest;
    var mid := PerformAll(disk, jobs, deletions);
    forall m | 0 <= m < |deletions| ensures !Touches(jobs[deletions[m]], at) {
      assert jobs[deletions[m]].Delete?;
    }
    KeptAt(disk, jobs, deletions, at);
    forall p | IsDeleted(jobs, p) ensures p !in mid.objects {
      var m: nat :| m < |jobs| && jobs[m] == Delete(p);
      assert m in deletions;
      var k :| 0 <= k < |deletions| && deletions[k] == m;
      GoneOnceDeleted(disk, jobs, deletions, k, p);
    }
    NothingToCopy(mid, jobs, rest, at);
    Split(disk, jobs, deletions, rest);
  }

  lemma LastingNeeded(disk: Disk, jobs: seq<Job>, wanted: seq<string>)
    requires |wanted| == |jobs| && OnFiles(disk, jobs) && EveryOrderWorks(disk, jobs, wanted)
    ensures SourcesLast(disk, jobs, wanted)
  {
    AgreementNeeded(disk, jobs, wanted);
    forall j | 0 <= j < |jobs| && jobs[j].Restore?
      ensures HasDigest(disk, jobs[j].at, wanted[j]) || exists k | 0 <= k < |jobs| ::
        Restores(jobs[k], jobs[j].at) && Lasts(jobs, jobs[k])
    {
      if k :| 0 <= k < |jobs| && jobs[k] == Delete(jobs[j].at) { assert Touches(jobs[k], jobs[j].at); }
      if forall k | 0 <= k < |jobs| && Restores(jobs[k], jobs[j].at) :: !Lasts(jobs, jobs[k]) {
        var order := DeletionsFirst(disk, jobs, jobs[j].at);
        assert HasDigest(PerformAll(disk, jobs, order), jobs[j].at, wanted[j]);
      }
    }
  }

  /** Every order restores what is wanted, exactly when the jobs agree and their sources hold, agree and last. */
  lemma EveryOrderWorksExactly(disk: Disk, jobs: seq<Job>, wanted: seq<string>)
    requires |wanted| == |jobs| && OnFiles(disk, jobs)
    ensures EveryOrderWorks(disk, jobs, wanted) <==>
      Agree(jobs, wanted) && SourcesHold(disk, jobs, wanted) && SourcesAgree(jobs, wanted) &&
      SourcesLast(disk, jobs, wanted)
  {
    if EveryOrderWorks(disk, jobs, wanted) {
      AgreementNeeded(disk, jobs, wanted);
      HoldingNeeded(disk, jobs, wanted);
      SourceAgreementNeeded(disk, jobs, wanted);
      LastingNeeded(disk, jobs, wanted);
    }
    if Agree(jobs, wanted) && SourcesHold(disk, jobs, wanted) && SourcesAgree(jobs, wanted) &&
      SourcesLast(disk, jobs, wanted) {
      forall order | InRange(order, |jobs|) && IsOrder(order, |jobs|)
        ensures AllAsWanted(PerformAll(disk, jobs, order), jobs, wanted)
      {
        ConditionsSuffice(disk, jobs, wanted, order);
      }
    }
  }

  // ----- the disk that the jobs aim at

  /** Without the deleted files, and with the wanted digest in each restored one. */
  function Aim(disk: Disk, jobs: seq<Job>, wanted: seq<string>): Disk
    requires |wanted| == |jobs|
  {
    disk.(objects := map at | at in disk.objects && !IsDeleted(jobs, at) :: AimAt(disk.objects[at], jobs, wanted, at))
  }

  function AimAt(item: Object, jobs: seq<Job>, wanted: seq<string>, at: Location): Object
    requires |wanted| == |jobs|
  {
    if jobs == [] || !item.Regular? then item
    else if Restores(jobs[0], at) then item.(sha256 := wanted[0])
    else AimAt(item, jobs[1..], wanted[1..], at)
  }

  lemma {:induction false} AimAtMeaning(item: Object, jobs: seq<Job>, wanted: seq<string>, at: Location)
    requires |wanted| == |jobs| && item.Regular?
    ensures (exists j | 0 <= j < |jobs| ::
      Restores(jobs[j], at) && AimAt(item, jobs, wanted, at) == item.(sha256 := wanted[j])) ||
      ((forall j | 0 <= j < |jobs| :: !Restores(jobs[j], at)) && AimAt(item, jobs, wanted, at) == item)
  {
    if jobs != [] && !Restores(jobs[0], at) {
      AimAtMeaning(item, jobs[1..], wanted[1..], at);
      var aim := AimAt(item, jobs[1..], wanted[1..], at);
      if j :| 0 <= j < |jobs[1..]| && Restores(jobs[1..][j], at) && aim == item.(sha256 := wanted[1..][j]) {
        assert Restores(jobs[j + 1], at) && wanted[1..][j] == wanted[j + 1];
      } else {
        forall j | 0 <= j < |jobs| ensures !Restores(jobs[j], at) {
          if j > 0 { assert jobs[1..][j - 1] == jobs[j]; }
        }
      }
    }
  }

  /** The same shape, and equal digests. */
  ghost predicate SameDigests(a: Disk, b: Disk) {
    SameShape(a, b) &&
    forall at | IsRegular(a, at) :: IsRegular(b, at) && SameHex(a.objects[at].sha256, b.objects[at].sha256)
  }

  lemma AimShape(disk: Disk, jobs: seq<Job>, wanted: seq<string>)
    requires |wanted| == |jobs| && OnFiles(disk, jobs)
    ensures SameShape(Aim(disk, jobs, wanted), Without(disk, jobs)) && OnlyShrunk(disk, Aim(disk, jobs, wanted))
  {
    var aim := Aim(disk, jobs, wanted);
    forall at | at in aim.objects
      ensures aim.objects[at].Regular? <==> disk.objects[at].Regular?
      ensures !disk.objects[at].Regular? ==> aim.objects[at] == disk.objects[at]
    {
      if disk.objects[at].Regular? { AimAtMeaning(disk.objects[at], jobs, wanted, at); }
    }
  }

  /** When every restored file ends as wanted, the end is the aim. */
  lemma AimIsMet(disk: Disk, jobs: seq<Job>, wanted: seq<string>, order: seq<nat>)
    requires |wanted| == |jobs| && OnFiles(disk, jobs) && InRange(order, |jobs|) && IsOrder(order, |jobs|)
    requires AllAsWanted(PerformAll(disk, jobs, order), jobs, wanted)
    ensures SameDigests(PerformAll(disk, jobs, order), Aim(disk, jobs, wanted))
  {
    var end, aim := PerformAll(disk, jobs, order), Aim(disk, jobs, wanted);
    EndShape(disk, jobs, order);
    AimShape(disk, jobs, wanted);
    forall at | IsRegular(end, at)
      ensures IsRegular(aim, at) && SameHex(end.objects[at].sha256, aim.objects[at].sha256)
    {
      assert at in aim.objects && IsRegular(disk, at);
      AimAtMeaning(disk.objects[at], jobs, wanted, at);
      if j :| 0 <= j < |jobs| && Restores(jobs[j], at) && aim.objects[at] == disk.objects[at].(sha256 := wanted[j]) {
        assert HasDigest(end, jobs[j].at, wanted[j]);
      } else {
        KeptOrGone(disk, jobs, order, at);
      }
    }
  }

  /** If the aim itself is as wanted, the jobs agree. */
  lemma AimAgrees(disk: Disk, jobs: seq<Job>, wanted: seq<string>)
    requires |wanted| == |jobs| && AllAsWanted(Aim(disk, jobs, wanted), jobs, wanted)
    ensures Agree(jobs, wanted)
  {
    var aim := Aim(disk, jobs, wanted);
    forall i, j | 0 <= i < |jobs| && 0 <= j < |jobs| && jobs[i].Restore? && Touches(jobs[j], jobs[i].at)
      ensures jobs[j].Restore? && SameHex(wanted[i], wanted[j])
    {
      assert HasDigest(aim, jobs[i].at, wanted[i]);
      if jobs[j].Restore? { assert HasDigest(aim, jobs[j].at, wanted[j]); }
    }
  }
}
