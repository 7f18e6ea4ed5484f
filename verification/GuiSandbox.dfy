/**
 A sandbox that may only signal its own processes, on a process table that changes under its
 feet: other processes fork, exec, exit and are reaped between any two of its steps, and PIDs
 are reused.
 */
module GuiSandbox {
  import opened Common

  // ----- the process table

  /** A running or exited process. `uid` tells incarnations of one PID apart; the code never sees it. */
  datatype Process = Process(uid: nat, carriesToken: bool, exited: bool)

  /** How an incarnation came to be. */
  datatype Origin = Started | Child(parent: nat) | Foreign

  datatype Kernel = Kernel(table: map<nat, Process>, origins: seq<Origin>)

  /** What processes other than the sandbox may do. */
  datatype Action =
    | Fork(parent: nat, child: nat, inherits: bool)
    | Arrive(pid: nat)
    | Exec(pid: nat, token: bool)
    | Exit(pid: nat)
    | Reap(pid: nat)

  /** Started by the sandbox, or a descendant of a process it started. */
  predicate Descends(origins: seq<Origin>, uid: nat)
    decreases uid
  {
    uid < |origins| &&
    match origins[uid]
    case Started => true
    case Child(parent) => parent < uid && Descends(origins, parent)
    case Foreign => false
  }

  predicate IsAlive(k: Kernel, pid: nat) {
    pid in k.table && !k.table[pid].exited
  }

  /** The process shows the token in its environment; an exited process shows nothing. */
  predicate Shows(k: Kernel, pid: nat) {
    IsAlive(k, pid) && k.table[pid].carriesToken
  }

  /**
   A fork takes a free PID and shows its parent's environment or, briefly, none; only processes of
   this sandbox know the token to exec with; the sandbox's own children wait for it to reap them.
   */
  predicate Enabled(k: Kernel, a: Action) {
    match a
    case Fork(parent, child, inherits) => IsAlive(k, parent) && child !in k.table &&
      (inherits ==> k.table[parent].carriesToken)
    case Arrive(pid) => pid !in k.table
    case Exec(pid, token) => IsAlive(k, pid) && (token ==> Descends(k.origins, k.table[pid].uid))
    case Exit(pid) => IsAlive(k, pid)
    case Reap(pid) =>
      pid in k.table && k.table[pid].exited &&
      (k.table[pid].uid < |k.origins| ==> k.origins[k.table[pid].uid] != Started)
  }

  function Apply(k: Kernel, a: Action): Kernel {
    if !Enabled(k, a) then k
    else match a
      case Fork(parent, child, inherits) =>
        Kernel(k.table[child := Process(|k.origins|, inherits, false)], k.origins + [Child(k.table[parent].uid)])
      case Arrive(pid) => Kernel(k.table[pid := Process(|k.origins|, false, false)], k.origins + [Foreign])
      case Exec(pid, token) => k.(table := k.table[pid := k.table[pid].(carriesToken := token)])
      case Exit(pid) => k.(table := k.table[pid := k.table[pid].(exited := true)])
      case Reap(pid) => k.(table := k.table - {pid})
  }

  function Run(k: Kernel, actions: seq<Action>): Kernel
    decreases |actions|
  {
    if actions == [] then k else Run(Apply(k, actions[0]), actions[1..])
  }

  // ----- what every interleaving keeps

  ghost predicate IsSound(k: Kernel, pid: nat) {
    pid in k.table ==>
      k.table[pid].uid < |k.origins| && (k.table[pid].carriesToken ==> Descends(k.origins, k.table[pid].uid))
  }

  ghost predicate AreApart(k: Kernel, p: nat, q: nat) {
    p in k.table && q in k.table && p != q ==> k.table[p].uid != k.table[q].uid
  }

  ghost predicate IsRooted(k: Kernel, uid: nat) {
    uid < |k.origins| && k.origins[uid].Child? ==> k.origins[uid].parent < uid
  }

  ghost predicate Valid(k: Kernel) {
    && (forall pid {:trigger IsSound(k, pid)} :: IsSound(k, pid))
    && (forall p, q {:trigger AreApart(k, p, q)} :: AreApart(k, p, q))
    && (forall uid {:trigger IsRooted(k, uid)} :: IsRooted(k, uid))
  }

  ghost predicate KeepsPid(k: Kernel, later: Kernel, pid: nat) {
    pid in later.table && later.table[pid].uid < |k.origins| ==>
      pid in k.table && k.table[pid].uid == later.table[pid].uid
  }

  /**
   `later` may follow `k`: histories only grow, and whoever is in the table now and was born then has
   kept its PID.
   */
  ghost predicate Follows(k: Kernel, later: Kernel) {
    k.origins <= later.origins && forall pid {:trigger KeepsPid(k, later, pid)} :: KeepsPid(k, later, pid)
  }

  lemma {:induction false} DescentGrows(before: seq<Origin>, after: seq<Origin>, uid: nat)
    requires before <= after && uid < |before|
    ensures Descends(before, uid) <==> Descends(after, uid)
    decreases uid
  {
    assert before[uid] == after[uid];
    if before[uid].Child? && before[uid].parent < uid { DescentGrows(before, after, before[uid].parent); }
  }

  lemma ApplyKeepsSound(k: Kernel, a: Action, pid: nat)
    requires Valid(k)
    ensures IsSound(Apply(k, a), pid) && KeepsPid(k, Apply(k, a), pid)
  {
    var next := Apply(k, a);
    assert IsSound(k, pid);
    if pid in k.table { DescentGrows(k.origins, next.origins, k.table[pid].uid); }
    if a.Fork? && Enabled(k, a) {
      assert IsSound(k, a.parent);
      DescentGrows(k.origins, next.origins, k.table[a.parent].uid);
      if a.inherits { assert Descends(next.origins, |k.origins|); }
    }
  }

  lemma ApplyKeepsApart(k: Kernel, a: Action, p: nat, q: nat)
    requires Valid(k)
    ensures AreApart(Apply(k, a), p, q)
  {
    assert AreApart(k, p, q) && IsSound(k, p) && IsSound(k, q);
  }

  lemma ApplyKeepsRooted(k: Kernel, a: Action, uid: nat)
    requires Valid(k)
    ensures IsRooted(Apply(k, a), uid)
  {
    assert IsRooted(k, uid);
    if a.Fork? { assert IsSound(k, a.parent); }
  }

  lemma ApplyKeepsValid(k: Kernel, a: Action)
    requires Valid(k)
    ensures Valid(Apply(k, a)) && Follows(k, Apply(k, a))
  {
    var next := Apply(k, a);
    forall pid: nat ensures IsSound(next, pid) && KeepsPid(k, next, pid) { ApplyKeepsSound(k, a, pid); }
    forall p: nat, q: nat ensures AreApart(next, p, q) { ApplyKeepsApart(k, a, p, q); }
    forall uid: nat ensures IsRooted(next, uid) { ApplyKeepsRooted(k, a, uid); }
  }

  lemma FollowsIsTransitive(a: Kernel, b: Kernel, c: Kernel)
    requires Follows(a, b) && Follows(b, c)
    ensures Follows(a, c)
  {
    forall pid: nat ensures KeepsPid(a, c, pid) { assert KeepsPid(a, b, pid) && KeepsPid(b, c, pid); }
  }

  lemma {:induction false} RunKeepsValid(k: Kernel, actions: seq<Action>)
    requires Valid(k)
    ensures Valid(Run(k, actions)) && Follows(k, Run(k, actions))
    decreases |actions|
  {
    if actions != [] {
      ApplyKeepsValid(k, actions[0]);
      RunKeepsValid(Apply(k, actions[0]), actions[1..]);
      FollowsIsTransitive(k, Apply(k, actions[0]), Run(k, actions));
    }
  }

  /**
   The heart of pidfd-first: if the incarnation that held `pid` when the pidfd was held still
   exists when the signal is sent, it held `pid` at every moment in between.
   */
  lemma OpenedIsChecked(held: Kernel, checked: Kernel, sent: Kernel, pid: nat, holder: nat)
    requires Valid(held) && Valid(checked) && Valid(sent) && Follows(held, checked) && Follows(checked, sent)
    requires pid in held.table && pid in checked.table
    requires holder in sent.table && sent.table[holder].uid == held.table[pid].uid
    ensures holder == pid && checked.table[pid].uid == held.table[pid].uid
  {
    assert IsSound(held, pid) && KeepsPid(checked, sent, holder) && KeepsPid(held, checked, holder);
    assert AreApart(held, pid, holder) && KeepsPid(held, checked, pid);
  }

  // ----- the sandbox

  datatype SignalNumber = SIGTERM | SIGKILL

  /** A delivered signal: who got it, and the process table at the moment ownership was checked. */
  datatype Delivery = Delivery(target: nat, number: SignalNumber, pid: nat, checked: Kernel)

  /** The target carried this sandbox's token when checked, and so descends from a process it started. */
  ghost predicate IsOwnDelivery(d: Delivery) {
    Valid(d.checked) && Shows(d.checked, d.pid) && d.checked.table[d.pid].uid == d.target &&
    Descends(d.checked.origins, d.target)
  }

  /** Every delivery so far reached an own process, and was checked before the present `k`. */
  ghost predicate OnlyOwn(log: seq<Delivery>, k: Kernel) {
    forall i | 0 <= i < |log| :: IsOwnDelivery(log[i]) && Follows(log[i].checked, k)
  }

  lemma OnlyOwnLater(log: seq<Delivery>, k: Kernel, later: Kernel)
    requires OnlyOwn(log, k) && Follows(k, later)
    ensures OnlyOwn(log, later)
  {
    forall i | 0 <= i < |log| ensures Follows(log[i].checked, later) { FollowsIsTransitive(log[i].checked, k, later); }
  }

  lemma OwnDelivery(d: Delivery)
    requires Valid(d.checked) && Shows(d.checked, d.pid) && d.checked.table[d.pid].uid == d.target
    ensures IsOwnDelivery(d)
  {
    assert IsSound(d.checked, d.pid);
  }

  datatype Outcome = Delivered | Gone | Refused

  datatype Verdict = Stopped | StillRunning(left: seq<nat>) | DesktopChanged

  datatype StartResult = Ready(pid: nat) | NeverShowed(pid: nat)

  // ----- moments of a run, and what one signal meets

  /** The process table, and how many steps the sandbox has made. */
  datatype Moment = Moment(kernel: Kernel, tick: nat)

  /** The moment `n` rounds of interference later. */
  function Later(schedule: nat -> seq<Action>, m: Moment, n: nat): (later: Moment)
    ensures later.tick == m.tick + n
  {
    if n == 0 then m
    else
      var before := Later(schedule, m, n - 1);
      Moment(Run(before.kernel, schedule(before.tick)), before.tick + 1)
  }

  predicate ShowsToken(k: Kernel, pid: nat) {
    pid in k.table && k.table[pid].carriesToken && !k.table[pid].exited
  }

  /** Somebody has the PID one round on, and still has it, as the same incarnation, three rounds on. */
  predicate Stays(schedule: nat -> seq<Action>, m: Moment, pid: nat) {
    var held, sent := Later(schedule, m, 1).kernel, Later(schedule, m, 3).kernel;
    pid in held.table && pid in sent.table && sent.table[pid].uid == held.table[pid].uid
  }

  /** A signal that is asked for at `m` must go out: the PID is taken, shows the token and stays. */
  predicate MustReach(self: nat, schedule: nat -> seq<Action>, m: Moment, pid: nat) {
    pid > 1 && pid != self && Stays(schedule, m, pid) && ShowsToken(Later(schedule, m, 2).kernel, pid)
  }

  /** The PID is free when the pidfd is opened, or its holder leaves before the signal is sent. */
  predicate HasLeft(self: nat, schedule: nat -> seq<Action>, m: Moment, pid: nat) {
    pid > 1 && pid != self && !Stays(schedule, m, pid) &&
    (pid in Later(schedule, m, 1).kernel.table ==> ShowsToken(Later(schedule, m, 2).kernel, pid))
  }

  /** How many rounds a request takes: each outcome ends it at its own step. */
  function Rounds(self: nat, schedule: nat -> seq<Action>, m: Moment, pid: nat): nat {
    if pid <= 1 || pid == self then 0
    else if pid !in Later(schedule, m, 1).kernel.table then 1
    else if !ShowsToken(Later(schedule, m, 2).kernel, pid) then 2
    else 3
  }

  /** The signals that must go out when each PID is asked for at its own moment. */
  ghost function Sends(self: nat, schedule: nat -> seq<Action>, turns: seq<Moment>, pids: seq<nat>,
      number: SignalNumber): seq<Delivery>
    requires |pids| <= |turns|
  {
    if pids == [] then []
    else
      var n := |pids| - 1;
      Sends(self, schedule, turns, pids[..n], number) + SendAt(self, schedule, turns[n], pids[n], number)
  }

  ghost function SendAt(self: nat, schedule: nat -> seq<Action>, m: Moment, pid: nat, number: SignalNumber)
    : seq<Delivery>
  {
    if MustReach(self, schedule, m, pid) then
      [Delivery(Later(schedule, m, 1).kernel.table[pid].uid, number, pid, Later(schedule, m, 2).kernel)]
    else []
  }

  /** Each request is made right after the one before it. */
  ghost predicate AreTurns(self: nat, schedule: nat -> seq<Action>, turns: seq<Moment>, pids: seq<nat>) {
    |turns| == |pids| + 1 &&
    forall i | 0 <= i < |pids| ::
      turns[i + 1] == Later(schedule, turns[i], Rounds(self, schedule, turns[i], pids[i]))
  }

  lemma OneMoreTurn(self: nat, schedule: nat -> seq<Action>, turns: seq<Moment>, pids: seq<nat>, i: nat, m: Moment)
    requires i < |pids| && AreTurns(self, schedule, turns, pids[..i])
    requires m == Later(schedule, turns[i], Rounds(self, schedule, turns[i], pids[i]))
    ensures AreTurns(self, schedule, turns + [m], pids[..i + 1])
  {
  }

  lemma OneMoreSend(self: nat, schedule: nat -> seq<Action>, turns: seq<Moment>, pids: seq<nat>, i: nat,
      number: SignalNumber, m: Moment)
    requires i < |pids| && |turns| == i + 1
    ensures Sends(self, schedule, turns + [m], pids[..i + 1], number) ==
      Sends(self, schedule, turns, pids[..i], number) + SendAt(self, schedule, turns[i], pids[i], number)
  {
    assert pids[..i + 1][..i] == pids[..i];
    SendsIgnoreLater(self, schedule, turns, pids[..i], number, m);
  }

  lemma {:induction false} SendsIgnoreLater(self: nat, schedule: nat -> seq<Action>, turns: seq<Moment>,
      pids: seq<nat>, number: SignalNumber, m: Moment)
    requires |pids| <= |turns|
    ensures Sends(self, schedule, turns + [m], pids, number) == Sends(self, schedule, turns, pids, number)
  {
    if pids != [] { SendsIgnoreLater(self, schedule, turns, pids[..|pids| - 1], number, m); }
  }

  /** Exactly the listed processes that show the token at their turn and stay are reached. */
  lemma {:induction false} SendsAreExact(self: nat, schedule: nat -> seq<Action>, turns: seq<Moment>, pids: seq<nat>,
      number: SignalNumber, d: Delivery)
    requires |pids| <= |turns|
    ensures d in Sends(self, schedule, turns, pids, number) <==>
      exists i | 0 <= i < |pids| ::
        d.pid == pids[i] && d.number == number && MustReach(self, schedule, turns[i], pids[i]) &&
        d.target == Later(schedule, turns[i], 1).kernel.table[pids[i]].uid &&
        d.checked == Later(schedule, turns[i], 2).kernel
  {
    if pids != [] {
      var n := |pids| - 1;
      var init := pids[..n];
      SendsAreExact(self, schedule, turns, init, number, d);
      assert forall i | 0 <= i < n :: init[i] == pids[i];
      assert d in SendAt(self, schedule, turns[n], pids[n], number) <==>
        d.pid == pids[n] && d.number == number && MustReach(self, schedule, turns[n], pids[n]) &&
        d.target == Later(schedule, turns[n], 1).kernel.table[pids[n]].uid &&
        d.checked == Later(schedule, turns[n], 2).kernel;
    }
  }

  /** When nobody interferes, every listed process that shows the token is reached, but for 0, 1 and the sandbox. */
  lemma QuietSendsReachAll(self: nat, schedule: nat -> seq<Action>, turns: seq<Moment>, pids: seq<nat>, i: nat)
    requires i < |pids| <= |turns| && (forall n :: schedule(n) == [])
    requires pids[i] > 1 && pids[i] != self && ShowsToken(turns[i].kernel, pids[i])
    ensures MustReach(self, schedule, turns[i], pids[i])
  {
    var m := turns[i];
    assert Later(schedule, m, 1) == Moment(m.kernel, m.tick + 1);
    assert Later(schedule, m, 2) == Moment(m.kernel, m.tick + 2);
    assert Later(schedule, m, 3) == Moment(m.kernel, m.tick + 3);
  }

  lemma LaterRounds(schedule: nat -> seq<Action>, m: Moment, n: nat)
    ensures var before := Later(schedule, m, n);
      Later(schedule, m, n + 1) == Moment(Run(before.kernel, schedule(before.tick)), before.tick + 1)
  {
  }

  // ----- children and listings

  /** Every child not reaped yet is a started process of its own, still in the table. */
  ghost predicate ChildrenPresent(k: Kernel, children: seq<nat>, reaped: set<nat>, uids: seq<nat>) {
    |uids| == |children| && Distinct(uids) && (forall i | 0 <= i < |uids| :: uids[i] < |k.origins|) &&
    (forall i | i in reaped :: i < |children|) &&
    forall i | 0 <= i < |children| && i !in reaped :: IsStarted(k, children[i], uids[i])
  }

  lemma ChildrenStay(k: Kernel, actions: seq<Action>, children: seq<nat>, reaped: set<nat>, uids: seq<nat>)
    requires Valid(k) && ChildrenPresent(k, children, reaped, uids)
    ensures ChildrenPresent(Run(k, actions), children, reaped, uids)
  {
    RunKeepsValid(k, actions);
    forall i | 0 <= i < |children| && i !in reaped ensures IsStarted(Run(k, actions), children[i], uids[i]) {
      ChildIsNotReaped(k, actions, children[i], uids[i]);
    }
  }

  /** A pass over the process table that began at `at`: what was listed, and the moment at which each PID was read. */
  datatype Listing = Listing(at: Kernel, pids: seq<nat>, seen: map<nat, Kernel>)

  /**
   Each PID of the table is read at a moment of its own before `end`; exactly those that showed the
   token then are listed.
   */
  ghost predicate IsListing(l: Listing, end: Kernel) {
    Follows(l.at, end) && l.seen.Keys == l.at.table.Keys && (forall i | 0 <= i < |l.pids| :: l.pids[i] in l.seen) &&
    forall pid | pid in l.seen ::
      Follows(l.at, l.seen[pid]) && Follows(l.seen[pid], end) && (pid in l.pids <==> Shows(l.seen[pid], pid))
  }

  /** The pass is under way: the PIDs in `seen` are read. */
  ghost predicate IsReading(at: Kernel, pids: seq<nat>, seen: map<nat, Kernel>, now: Kernel) {
    Follows(at, now) && (forall i | 0 <= i < |pids| :: pids[i] in seen) &&
    forall pid | pid in seen ::
      Follows(at, seen[pid]) && Follows(seen[pid], now) && (pid in pids <==> Shows(seen[pid], pid))
  }

  /** Each PID is read or left to read, and so many are read. */
  ghost predicate IsSplit(at: Kernel, seen: map<nat, Kernel>, left: set<nat>, rounds: nat) {
    seen.Keys + left == at.table.Keys && seen.Keys !! left && rounds + |left| == |at.table.Keys|
  }

  lemma SplitOneMore(at: Kernel, seen: map<nat, Kernel>, left: set<nat>, rounds: nat, pid: nat, now: Kernel)
    requires IsSplit(at, seen, left, rounds) && pid in left
    ensures IsSplit(at, seen[pid := now], left - {pid}, rounds + 1) && pid !in seen && rounds < |at.table.Keys|
  {
    assert seen[pid := now].Keys == seen.Keys + {pid};
  }

  lemma AllRead(at: Kernel, pids: seq<nat>, seen: map<nat, Kernel>, rounds: nat, now: Kernel)
    requires IsReading(at, pids, seen, now) && IsSplit(at, seen, {}, rounds)
    ensures IsListing(Listing(at, pids, seen), now) && rounds == |at.table.Keys|
  {
  }

  lemma NothingRead(at: Kernel)
    ensures IsReading(at, [], map[], at) && IsSplit(at, map[], at.table.Keys, 0)
  {
    FollowsItself(at);
  }

  lemma ReadOneMore(at: Kernel, pids: seq<nat>, seen: map<nat, Kernel>, before: Kernel, pid: nat, now: Kernel)
    requires IsReading(at, pids, seen, before) && Follows(before, now) && pid !in seen
    ensures IsReading(at, if Shows(now, pid) then pids + [pid] else pids, seen[pid := now], now)
  {
    FollowsIsTransitive(at, before, now);
    FollowsItself(now);
    forall p | p in seen ensures Follows(seen[p], now) { FollowsIsTransitive(seen[p], before, now); }
  }

  lemma ListingLater(l: Listing, end: Kernel, later: Kernel)
    requires IsListing(l, end) && Follows(end, later)
    ensures IsListing(l, later)
  {
    FollowsIsTransitive(l.at, end, later);
    forall pid | pid in l.seen ensures Follows(l.seen[pid], later) { FollowsIsTransitive(l.seen[pid], end, later); }
  }

  /** All deliveries from the `n`-th on carry this signal and were checked after `start`. */
  ghost predicate SentAfter(log: seq<Delivery>, n: nat, number: SignalNumber, start: Kernel) {
    forall i | n <= i < |log| :: log[i].number == number && Follows(start, log[i].checked)
  }

  lemma SentOneMore(before: seq<Delivery>, log: seq<Delivery>, n: nat, number: SignalNumber, start: Kernel)
    requires SentAfter(before, n, number, start) && before <= log && |log| <= |before| + 1
    requires |log| > |before| ==> log[|log| - 1].number == number && Follows(start, log[|log| - 1].checked)
    ensures SentAfter(log, n, number, start)
  {
    assert forall i | 0 <= i < |before| :: log[i] == before[i];
  }

  lemma SentAfterEarlier(log: seq<Delivery>, n: nat, number: SignalNumber, start: Kernel, earlier: Kernel)
    requires SentAfter(log, n, number, start) && Follows(earlier, start)
    ensures SentAfter(log, n, number, earlier)
  {
    forall i | n <= i < |log| ensures Follows(earlier, log[i].checked) {
      FollowsIsTransitive(earlier, start, log[i].checked);
    }
  }

  /**
   From the `n`-th on: SIGTERM after `first` and before `between`, SIGKILL only in a second round and
   after it began.
   */
  ghost predicate AreRounds(log: seq<Delivery>, n: nat, first: Kernel, between: Kernel, twice: bool, second: Kernel) {
    forall i | n <= i < |log| ::
      if log[i].number == SIGTERM then Follows(first, log[i].checked) && Follows(log[i].checked, between)
      else twice && Follows(second, log[i].checked)
  }

  lemma BothRounds(sent: seq<Delivery>, log: seq<Delivery>, n: nat, first: Kernel, between: Kernel, twice: bool,
      second: Kernel)
    requires sent <= log && n <= |sent| && SentAfter(sent, n, SIGTERM, first) && OnlyOwn(sent, between)
    requires if twice then SentAfter(log, |sent|, SIGKILL, second) else log == sent
    ensures AreRounds(log, n, first, between, twice, second)
  {
    assert forall i | 0 <= i < |sent| :: log[i] == sent[i];
  }

  /** One request for each PID, in order. */
  function Requests(pids: seq<nat>, number: SignalNumber): (requests: seq<(nat, SignalNumber)>)
    ensures |requests| == |pids| && forall i | 0 <= i < |pids| :: requests[i] == (pids[i], number)
  {
    seq(|pids|, i requires 0 <= i < |pids| => (pids[i], number))
  }

  lemma RequestOneMore(before: seq<(nat, SignalNumber)>, pids: seq<nat>, i: nat, number: SignalNumber)
    requires i < |pids|
    ensures before + Requests(pids[..i + 1], number) == before + Requests(pids[..i], number) + [(pids[i], number)]
  {
    assert Requests(pids[..i + 1], number) == Requests(pids[..i], number) + [(pids[i], number)];
  }

  class Sandbox {
    const self: nat
    const schedule: nat -> seq<Action>  // what the others do before the sandbox's n-th step
    const desktopCommands: nat -> bool  // which incarnations run a watched desktop command
    var tick: nat
    var kernel: Kernel
    var children: seq<nat>  // the PIDs the sandbox started
    var reaped: set<nat>  // the children whose exit status is known
    var desktop: set<(nat, nat)>
    ghost var uids: seq<nat>  // the children's incarnations
    ghost var log: seq<Delivery>
    ghost var attempts: seq<(nat, SignalNumber)>  // every PID _signal was asked to signal

    ghost predicate Invariant()
      reads this
    {
      Valid(kernel) && OnlyOwn(log, kernel) && ChildrenPresent(kernel, children, reaped, uids)
    }

    constructor (self: nat, schedule: nat -> seq<Action>, desktopCommands: nat -> bool, kernel: Kernel)
      requires Valid(kernel)
      ensures Invariant() && log == [] && children == [] && this.kernel == kernel && this.self == self
      ensures desktop == Watched(desktopCommands, kernel, false)
    {
      this.self, this.schedule, this.desktopCommands, this.kernel, this.tick := self, schedule, desktopCommands,
        kernel, 0;
      this.children, this.reaped, this.uids, this.log, this.attempts := [], {}, [], [], [];
      this.desktop := Watched(desktopCommands, kernel, false);
    }

    /** Everyone else runs for a while. */
    method Interfere()
      requires Invariant()
      modifies this`kernel, this`tick
      ensures Invariant() && Follows(old(kernel), kernel)
      ensures kernel == Run(old(kernel), schedule(old(tick))) && tick == old(tick) + 1
    {
      RunKeepsValid(kernel, schedule(tick));
      OnlyOwnLater(log, kernel, Run(kernel, schedule(tick)));
      ChildrenStay(kernel, schedule(tick), children, reaped, uids);
      kernel, tick := Run(kernel, schedule(tick)), tick + 1;
    }

    /** Interference counted from an earlier moment. */
    method Wait(ghost start: Moment, ghost rounds: nat)
      requires Invariant() && Now() == Later(schedule, start, rounds)
      modifies this`kernel, this`tick
      ensures Invariant() && Follows(old(kernel), kernel)
      ensures Now() == Later(schedule, start, rounds + 1)
    {
      LaterRounds(schedule, start, rounds);
      Interfere();
    }

    ghost function Now(): Moment
      reads this
    {
      Moment(kernel, tick)
    }

    /** _signal: pidfd first, ownership second; what comes of it is settled by who holds the PID meanwhile. */
    method Signal(pid: nat, number: SignalNumber) returns (outcome: Outcome)
      requires Invariant()
      modifies this`kernel, this`tick, this`log, this`attempts
      ensures Invariant() && Follows(old(kernel), kernel)
      ensures attempts == old(attempts) + [(pid, number)]
      ensures outcome == Delivered <==> MustReach(self, schedule, old(Now()), pid)
      ensures outcome == Gone <==> HasLeft(self, schedule, old(Now()), pid)
      ensures Now() == Later(schedule, old(Now()), Rounds(self, schedule, old(Now()), pid))
      ensures log == old(log) + SendAt(self, schedule, old(Now()), pid, number)
      ensures outcome == Delivered ==> Follows(old(kernel), log[|log| - 1].checked)
    {
      attempts := attempts + [(pid, number)];
      FollowsItself(kernel);
      if pid <= 1 || pid == self {
        return Refused;
      }
      ghost var entry := Now();
      Wait(entry, 0);
      if pid !in kernel.table {
        return Gone;
      }
      var pidfd := kernel.table[pid].uid;
      ghost var held := kernel;
      Wait(entry, 1);
      FollowsIsTransitive(entry.kernel, held, kernel);
      if !Shows(kernel, pid) {
        return Refused;
      }
      ghost var checked := kernel;
      Wait(entry, 2);
      FollowsIsTransitive(entry.kernel, checked, kernel);
      outcome := SendTo(pidfd, number, pid, held, checked);
    }

    /** pidfd_send_signal: whoever the pidfd was opened on gets the signal, if it is still there. */
    method SendTo(pidfd: nat, number: SignalNumber, ghost pid: nat, ghost held: Kernel, ghost checked: Kernel)
      returns (outcome: Outcome)
      requires Invariant() && Valid(held) && Valid(checked) && Follows(held, checked) && Follows(checked, kernel)
      requires pid in held.table && held.table[pid].uid == pidfd && ShowsToken(checked, pid)
      modifies this`log
      ensures Invariant()
      ensures if pid in kernel.table && kernel.table[pid].uid == pidfd then
        outcome == Delivered && log == old(log) + [Delivery(pidfd, number, pid, checked)]
        else outcome == Gone && log == old(log)
    {
      if holder: nat :| holder in kernel.table && kernel.table[holder].uid == pidfd {
        OpenedIsChecked(held, checked, kernel, pid, holder);
        log := log + [Delivery(pidfd, number, pid, checked)];
        OwnDelivery(log[|log| - 1]);
        outcome := Delivered;
      } else {
        outcome := Gone;
      }
    }

    /** One round later, whether the process shows the token. */
    method ReadEnvironment(pid: nat, ghost start: Moment, ghost rounds: nat) returns (shows: bool)
      requires Invariant() && Now() == Later(schedule, start, rounds)
      modifies this`kernel, this`tick
      ensures Invariant() && Follows(old(kernel), kernel)
      ensures Now() == Later(schedule, start, rounds + 1)
      ensures shows == Shows(kernel, pid)
    {
      Wait(start, rounds);
      shows := Shows(kernel, pid);
    }

    /** One pass of the loop over the process table. */
    method ReadNext(pids: seq<nat>, left: set<nat>, ghost seen: map<nat, Kernel>, ghost start: Moment,
        ghost rounds: nat)
      returns (more: seq<nat>, less: set<nat>, ghost seenToo: map<nat, Kernel>)
      requires Invariant() && Now() == Later(schedule, start, rounds) && left != {}
      requires IsReading(start.kernel, pids, seen, kernel) && IsSplit(start.kernel, seen, left, rounds)
      modifies this`kernel, this`tick
      ensures Invariant() && Now() == Later(schedule, start, rounds + 1) && rounds < |start.kernel.table.Keys|
      ensures IsReading(start.kernel, more, seenToo, kernel) && IsSplit(start.kernel, seenToo, less, rounds + 1)
    {
      var pid :| pid in left;
      ghost var before := kernel;
      var shows := ReadEnvironment(pid, start, rounds);
      SplitOneMore(start.kernel, seen, left, rounds, pid, kernel);
      ReadOneMore(start.kernel, pids, seen, before, pid, kernel);
      more := if shows then pids + [pid] else pids;
      less, seenToo := left - {pid}, seen[pid := kernel];
    }

    /** The loop over the process table. */
    method ReadAll(start: Moment) returns (pids: seq<nat>, ghost seen: map<nat, Kernel>, ghost rounds: nat)
      requires Invariant() && Now() == start
      modifies this`kernel, this`tick
      ensures Invariant() && Now() == Later(schedule, start, rounds)
      ensures IsReading(start.kernel, pids, seen, kernel) && IsSplit(start.kernel, seen, {}, rounds)
    {
      var left := kernel.table.Keys;
      pids, seen, rounds := [], map[], 0;
      NothingRead(kernel);
      while left != {}
        invariant Invariant() && Now() == Later(schedule, start, rounds)
        invariant IsReading(start.kernel, pids, seen, kernel) && IsSplit(start.kernel, seen, left, rounds)
        decreases |start.kernel.table.Keys| - rounds
      {
        pids, left, seen := ReadNext(pids, left, seen, start, rounds);
        rounds := rounds + 1;
      }
    }

    /** owned: exactly the PIDs that showed the token, each at the moment it was read. */
    method Owned() returns (pids: seq<nat>, ghost seen: map<nat, Kernel>)
      requires Invariant()
      modifies this`kernel, this`tick
      ensures Invariant() && Follows(old(kernel), kernel)
      ensures IsListing(Listing(old(kernel), pids, seen), kernel)
      ensures Now() == Later(schedule, old(Now()), |old(kernel).table.Keys|)
    {
      ghost var rounds;
      pids, seen, rounds := ReadAll(Moment(kernel, tick));
      AllRead(old(kernel), pids, seen, rounds, kernel);
    }

    /** poll of one child: reap it if it has exited, once; its status is remembered. */
    method Poll(child: nat) returns (exited: bool)
      requires Invariant() && child < |children|
      modifies this`kernel, this`reaped
      ensures Invariant() && Follows(old(kernel), kernel)
      ensures child !in old(reaped) ==> children[child] in old(kernel).table
      ensures exited <==> child in old(reaped) || old(kernel).table[children[child]].exited
      ensures reaped == if exited then old(reaped) + {child} else old(reaped)
      ensures if exited && child !in old(reaped) then
        kernel == old(kernel).(table := old(kernel).table - {children[child]})
        else kernel == old(kernel)
    {
      FollowsItself(kernel);
      if child in reaped {
        return true;
      }
      exited := kernel.table[children[child]].exited;
      if exited {
        ReapedIsValid(kernel, children[child]);
        OnlyOwnLater(log, kernel, kernel.(table := kernel.table - {children[child]}));
        OtherChildrenPresent(kernel, children, reaped, uids, child);
        kernel, reaped := kernel.(table := kernel.table - {children[child]}), reaped + {child};
      }
    }

    /** Only exited processes that the sandbox itself started leave the table. */
    method ReapChildren()
      requires Invariant()
      modifies this`kernel, this`reaped
      ensures Invariant() && Follows(old(kernel), kernel) && kernel.origins == old(kernel).origins
      ensures forall pid | pid in old(kernel).table ::
        (pid in kernel.table && kernel.table[pid] == old(kernel).table[pid]) ||
        (pid !in kernel.table && old(kernel).table[pid].exited &&
          IsStarted(old(kernel), pid, old(kernel).table[pid].uid))
    {
      FollowsItself(kernel);
      for i := 0 to |children|
        invariant Invariant() && Follows(old(kernel), kernel) && kernel.origins == old(kernel).origins
        invariant forall pid | pid in old(kernel).table ::
          (pid in kernel.table && kernel.table[pid] == old(kernel).table[pid]) ||
          (pid !in kernel.table && old(kernel).table[pid].exited &&
            IsStarted(old(kernel), pid, old(kernel).table[pid].uid))
      {
        ghost var before := kernel;
        var _ := Poll(i);
        FollowsIsTransitive(old(kernel), before, kernel);
      }
    }

    /** Signal each of these; a refusal is skipped. */
    method SignalEach(pids: seq<nat>, number: SignalNumber) returns (ghost turns: seq<Moment>)
      requires Invariant()
      modifies this`kernel, this`tick, this`log, this`attempts
      ensures Invariant() && Follows(old(kernel), kernel)
      ensures AreTurns(self, schedule, turns, pids) && turns[0] == old(Now()) && turns[|pids|] == Now()
      ensures attempts == old(attempts) + Requests(pids, number)
      ensures log == old(log) + Sends(self, schedule, turns, pids, number)
      ensures SentAfter(log, |old(log)|, number, old(kernel))
    {
      turns := [Now()];
      FollowsItself(kernel);
      for i := 0 to |pids|
        invariant Invariant() && Follows(old(kernel), kernel)
        invariant AreTurns(self, schedule, turns, pids[..i]) && turns[0] == old(Now()) && turns[i] == Now()
        invariant attempts == old(attempts) + Requests(pids[..i], number)
        invariant log == old(log) + Sends(self, schedule, turns, pids[..i], number)
        invariant SentAfter(log, |old(log)|, number, old(kernel))
      {
        turns := SignalNext(pids, i, number, turns, old(kernel), old(attempts), old(log));
      }
      assert pids[..|pids|] == pids;
    }

    /** One pass of that loop. */
    method SignalNext(pids: seq<nat>, i: nat, number: SignalNumber, ghost turns: seq<Moment>, ghost start: Kernel,
        ghost asked: seq<(nat, SignalNumber)>, ghost sent: seq<Delivery>)
      returns (ghost more: seq<Moment>)
      requires Invariant() && i < |pids| && Follows(start, kernel)
      requires AreTurns(self, schedule, turns, pids[..i]) && turns[i] == Now()
      requires attempts == asked + Requests(pids[..i], number)
      requires log == sent + Sends(self, schedule, turns, pids[..i], number)
      requires SentAfter(log, |sent|, number, start)
      modifies this`kernel, this`tick, this`log, this`attempts
      ensures Invariant() && Follows(start, kernel)
      ensures AreTurns(self, schedule, more, pids[..i + 1]) && turns <= more && more[i + 1] == Now()
      ensures attempts == asked + Requests(pids[..i + 1], number)
      ensures log == sent + Sends(self, schedule, more, pids[..i + 1], number)
      ensures SentAfter(log, |sent|, number, start)
    {
      ghost var before, earlier := kernel, log;
      var outcome := Signal(pids[i], number);
      FollowsIsTransitive(start, before, kernel);
      RequestOneMore(asked, pids, i, number);
      if outcome == Delivered { FollowsIsTransitive(start, before, log[|log| - 1].checked); }
      SentOneMore(earlier, log, |sent|, number, start);
      OneMoreTurn(self, schedule, turns, pids, i, Now());
      OneMoreSend(self, schedule, turns, pids, i, number, Now());
      more := turns + [Now()];
    }

    /** Signal every process that showed the token when it was listed. */
    method SignalAll(number: SignalNumber) returns (ghost listing: Listing, ghost turns: seq<Moment>)
      requires Invariant()
      modifies this`kernel, this`tick, this`log, this`attempts
      ensures Invariant() && Follows(old(kernel), kernel)
      ensures listing.at == old(kernel) && IsListing(listing, kernel)
      ensures AreTurns(self, schedule, turns, listing.pids)
      ensures turns[0] == Later(schedule, old(Now()), |listing.at.table.Keys|)
      ensures attempts == old(attempts) + Requests(listing.pids, number)
      ensures log == old(log) + Sends(self, schedule, turns, listing.pids, number)
      ensures SentAfter(log, |old(log)|, number, listing.at)
    {
      var pids;
      ghost var seen;
      pids, seen := Owned();
      listing := Listing(old(kernel), pids, seen);
      ghost var before := kernel;
      turns := SignalEach(pids, number);
      FollowsIsTransitive(old(kernel), before, kernel);
      ListingLater(listing, before, kernel);
      SentAfterEarlier(log, |old(log)|, number, before, old(kernel));
    }

    /** Poll until nothing shows the token or the deadline passes, then look once more. */
    method AwaitGone(polls: nat) returns (left: seq<nat>, ghost listing: Listing)
      requires Invariant()
      modifies this`kernel, this`tick, this`reaped
      ensures Invariant() && Follows(old(kernel), kernel)
      ensures listing.pids == left && Follows(old(kernel), listing.at) && IsListing(listing, kernel)
    {
      ghost var seen;
      FollowsItself(kernel);
      for n := 0 to polls
        invariant Invariant() && Follows(old(kernel), kernel)
      {
        ghost var before := kernel;
        ReapChildren();
        FollowsIsTransitive(old(kernel), before, kernel);
        before := kernel;
        left, seen := Owned();
        FollowsIsTransitive(old(kernel), before, kernel);
        if left == [] { break; }
      }
      ghost var before := kernel;
      left, seen := Owned();
      FollowsIsTransitive(old(kernel), before, kernel);
      listing := Listing(before, left, seen);
    }

    /** One of stop's two rounds: who is asked to end, and who still shows the token afterwards. */
    method Round(number: SignalNumber, polls: nat)
      returns (left: seq<nat>, ghost asked: Listing, ghost after: Listing, ghost turns: seq<Moment>)
      requires Invariant()
      modifies this`kernel, this`tick, this`reaped, this`log, this`attempts
      ensures Invariant() && Follows(old(kernel), kernel)
      ensures asked.at == old(kernel) && IsListing(asked, kernel)
      ensures AreTurns(self, schedule, turns, asked.pids)
      ensures turns[0] == Later(schedule, old(Now()), |asked.at.table.Keys|)
      ensures attempts == old(attempts) + Requests(asked.pids, number)
      ensures log == old(log) + Sends(self, schedule, turns, asked.pids, number)
      ensures SentAfter(log, |old(log)|, number, asked.at)
      ensures after.pids == left && IsListing(after, kernel) && Follows(old(kernel), after.at) && OnlyOwn(log, after.at)
    {
      asked, turns := SignalAll(number);
      ghost var before := kernel;
      left, after := AwaitGone(polls);
      FollowsIsTransitive(old(kernel), before, kernel);
      FollowsIsTransitive(old(kernel), before, after.at);
      ListingLater(asked, before, kernel);
      OnlyOwnLater(log, before, after.at);
    }

    /** The two rounds of stop: SIGTERM to all that show the token, then SIGKILL if any still did at the end. */
    method EndAll(polls: nat)
      returns (ghost first: Listing, ghost between: Listing, ghost second: Listing, ghost terms: seq<Moment>,
        ghost kills: seq<Moment>)
      requires Invariant()
      modifies this`kernel, this`tick, this`reaped, this`log, this`attempts
      ensures Invariant() && Follows(old(kernel), kernel)
      ensures first.at == old(kernel) && IsListing(first, kernel)
      ensures IsListing(between, kernel) && Follows(first.at, between.at)
      ensures between.pids != [] ==> IsListing(second, kernel) && Follows(between.at, second.at)
      ensures attempts == old(attempts) + Requests(first.pids, SIGTERM) +
        if between.pids == [] then [] else Requests(second.pids, SIGKILL)
      ensures AreTurns(self, schedule, terms, first.pids) &&
        terms[0] == Later(schedule, old(Now()), |first.at.table.Keys|)
      ensures between.pids != [] ==> AreTurns(self, schedule, kills, second.pids)
      ensures log == old(log) + Sends(self, schedule, terms, first.pids, SIGTERM) +
        if between.pids == [] then [] else Sends(self, schedule, kills, second.pids, SIGKILL)
      ensures AreRounds(log, |old(log)|, first.at, between.at, between.pids != [], second.at)
    {
      ghost var start := kernel;
      var left;
      left, first, between, terms := Round(SIGTERM, polls);
      second, kills := between, [];
      ghost var termed, sent := kernel, log;
      BothRounds(log, log, |old(log)|, first.at, between.at, false, second.at);
      if left != [] {
        ghost var after;
        left, second, after, kills := Round(SIGKILL, polls);
        FollowsIsTransitive(start, termed, kernel);
        ListingLater(first, termed, kernel);
        ListingLater(between, termed, kernel);
        BothRounds(sent, log, |old(log)|, first.at, between.at, true, second.at);
      }
    }

    /**
     stop: both rounds, a last look once they and their deliveries are over, and a comparison of the
     desktop with the one the sandbox found when it started.
     */
    method Stop(polls: nat)
      returns (verdict: Verdict, ghost first: Listing, ghost between: Listing, ghost second: Listing,
        ghost last: Listing, ghost terms: seq<Moment>, ghost kills: seq<Moment>)
      requires Invariant()
      modifies this`kernel, this`tick, this`reaped, this`log, this`attempts
      ensures Invariant() && Follows(old(kernel), kernel)
      ensures first.at == old(kernel) && IsListing(first, kernel)
      ensures IsListing(between, kernel) && Follows(first.at, between.at)
      ensures between.pids != [] ==> IsListing(second, kernel) && Follows(between.at, second.at)
      ensures attempts == old(attempts) + Requests(first.pids, SIGTERM) +
        if between.pids == [] then [] else Requests(second.pids, SIGKILL)
      ensures AreTurns(self, schedule, terms, first.pids) &&
        terms[0] == Later(schedule, old(Now()), |first.at.table.Keys|)
      ensures between.pids != [] ==> AreTurns(self, schedule, kills, second.pids)
      ensures log == old(log) + Sends(self, schedule, terms, first.pids, SIGTERM) +
        if between.pids == [] then [] else Sends(self, schedule, kills, second.pids, SIGKILL)
      ensures AreRounds(log, |old(log)|, first.at, between.at, between.pids != [], second.at)
      ensures IsListing(last, kernel) && Follows(between.at, last.at) && OnlyOwn(log, last.at)
      ensures verdict == if last.pids != [] then StillRunning(last.pids)
        else if Watched(desktopCommands, kernel, true) != desktop then DesktopChanged else Stopped
    {
      first, between, second, terms, kills := EndAll(polls);
      ghost var ended := kernel;
      var left;
      left, last := LastLook();
      FollowsIsTransitive(first.at, ended, kernel);
      FollowsIsTransitive(between.at, ended, last.at);
      ListingLater(first, ended, kernel);
      ListingLater(between, ended, kernel);
      if between.pids != [] { ListingLater(second, ended, kernel); }
      if left != [] {
        verdict := StillRunning(left);
      } else if Watched(desktopCommands, kernel, true) != desktop {
        verdict := DesktopChanged;
      } else {
        verdict := Stopped;
      }
    }

    method LastLook() returns (left: seq<nat>, ghost last: Listing)
      requires Invariant()
      modifies this`kernel, this`tick, this`reaped
      ensures Invariant() && Follows(old(kernel), kernel) && Follows(old(kernel), last.at)
      ensures last.pids == left && IsListing(last, kernel) && OnlyOwn(log, last.at)
    {
      ReapChildren();
      ghost var before := kernel;
      ghost var seen;
      left, seen := Owned();
      last := Listing(before, left, seen);
      FollowsIsTransitive(old(kernel), before, kernel);
    }

    /** _await_token: wait until the child is provably ours, or has already exited. */
    method AwaitToken(child: nat, patience: nat) returns (result: StartResult)
      requires Invariant() && child < |children| && child !in reaped
      modifies this`kernel, this`tick, this`reaped
      ensures Invariant() && Follows(old(kernel), kernel)
      ensures result == Ready(children[child]) || result == NeverShowed(children[child])
      ensures result == Ready(children[child]) ==> child in reaped || Shows(kernel, children[child])
      ensures result == NeverShowed(children[child]) ==> child !in reaped
      ensures reaped == old(reaped) || reaped == old(reaped) + {child}
    {
      FollowsItself(kernel);
      for n := 0 to patience
        invariant Invariant() && Follows(old(kernel), kernel) && reaped == old(reaped)
      {
        ghost var before := kernel;
        Interfere();
        FollowsIsTransitive(old(kernel), before, kernel);
        if Shows(kernel, children[child]) {
          return Ready(children[child]);
        }
        ghost var unpolled := kernel;
        var exited := Poll(child);
        FollowsIsTransitive(old(kernel), unpolled, kernel);
        if exited {
          return Ready(children[child]);
        }
      }
      result := NeverShowed(children[child]);
    }

    /** spawn: the child is the sandbox's own from birth, and is handed out only once it shows the token or is gone. */
    method Spawn(pid: nat, patience: nat) returns (result: StartResult)
      requires Invariant() && pid !in kernel.table
      modifies this`kernel, this`tick, this`children, this`reaped, this`uids
      ensures Invariant() && Follows(old(kernel), kernel)
      ensures children == old(children) + [pid] && uids == old(uids) + [|old(kernel).origins|]
      ensures |old(kernel).origins| < |kernel.origins| && kernel.origins[|old(kernel).origins|] == Started
      ensures result == Ready(pid) ==> |old(children)| in reaped || Shows(kernel, pid)
      ensures result != Ready(pid) ==> result == NeverShowed(pid) && |old(children)| !in reaped
    {
      ghost var start := kernel;
      StartedIsValid(kernel, Born(kernel, pid), pid);
      OnlyOwnLater(log, kernel, Born(kernel, pid));
      NewChildPresent(kernel, pid, children, reaped, uids);
      var child := |children|;
      kernel, children, uids := Born(kernel, pid), children + [pid], uids + [|kernel.origins|];
      ghost var born := kernel;
      result := AwaitToken(child, patience);
      FollowsIsTransitive(start, born, kernel);
    }
  }

  function Born(k: Kernel, pid: nat): Kernel {
    Kernel(k.table[pid := Process(|k.origins|, false, false)], k.origins + [Started])
  }

  lemma NewChildPresent(k: Kernel, pid: nat, children: seq<nat>, reaped: set<nat>, uids: seq<nat>)
    requires pid !in k.table && ChildrenPresent(k, children, reaped, uids)
    ensures ChildrenPresent(Born(k, pid), children + [pid], reaped, uids + [|k.origins|])
  {
    var k', more := Born(k, pid), uids + [|k.origins|];
    forall i | 0 <= i < |children| && i !in reaped ensures IsStarted(k', (children + [pid])[i], more[i]) {
      assert IsStarted(k, children[i], uids[i]);
    }
  }

  lemma OtherChildrenPresent(k: Kernel, children: seq<nat>, reaped: set<nat>, uids: seq<nat>, child: nat)
    requires ChildrenPresent(k, children, reaped, uids) && child < |children| && child !in reaped
    ensures ChildrenPresent(k.(table := k.table - {children[child]}), children, reaped + {child}, uids)
  {
    assert IsStarted(k, children[child], uids[child]);
    forall i | 0 <= i < |children| && i !in reaped + {child}
      ensures IsStarted(k.(table := k.table - {children[child]}), children[i], uids[i])
    {
      assert IsStarted(k, children[i], uids[i]) && uids[i] != uids[child];
    }
  }

  lemma FollowsItself(k: Kernel)
    ensures Follows(k, k)
  {
    forall pid: nat ensures KeepsPid(k, k, pid) { }
  }

  lemma ReapedIsValid(k: Kernel, pid: nat)
    requires Valid(k)
    ensures var next := k.(table := k.table - {pid}); Valid(next) && Follows(k, next)
  {
    var next := k.(table := k.table - {pid});
    forall p: nat ensures IsSound(next, p) && KeepsPid(k, next, p) { assert IsSound(k, p); }
    forall p: nat, q: nat ensures AreApart(next, p, q) { assert AreApart(k, p, q); }
    forall uid: nat ensures IsRooted(next, uid) { assert IsRooted(k, uid); }
  }

  lemma StartedIsValid(before: Kernel, after: Kernel, pid: nat)
    requires Valid(before) && pid !in before.table
    requires after == Kernel(before.table[pid := Process(|before.origins|, false, false)], before.origins + [Started])
    ensures Valid(after) && Follows(before, after)
  {
    forall p: nat ensures IsSound(after, p) && KeepsPid(before, after, p) {
      assert IsSound(before, p);
      if p in before.table { DescentGrows(before.origins, after.origins, before.table[p].uid); }
    }
    forall p: nat, q: nat ensures AreApart(after, p, q) {
      assert AreApart(before, p, q) && IsSound(before, p) && IsSound(before, q);
    }
    forall uid: nat ensures IsRooted(after, uid) { assert IsRooted(before, uid); }
  }

  /** Nobody else reaps a process the sandbox started, so its PID cannot be reused. */
  predicate IsStarted(k: Kernel, pid: nat, uid: nat) {
    pid in k.table && k.table[pid].uid == uid && uid < |k.origins| && k.origins[uid] == Started
  }

  lemma {:induction false} ChildIsNotReaped(k: Kernel, actions: seq<Action>, pid: nat, uid: nat)
    requires IsStarted(k, pid, uid)
    ensures IsStarted(Run(k, actions), pid, uid)
    decreases |actions|
  {
    if actions != [] {
      assert IsStarted(Apply(k, actions[0]), pid, uid);
      ChildIsNotReaped(Apply(k, actions[0]), actions[1..], pid, uid);
    }
  }

  /** desktop_snapshot: the watched desktop processes, those the sandbox owns left out once it has a token. */
  function Watched(commands: nat -> bool, k: Kernel, exceptOwn: bool): set<(nat, nat)> {
    set pid | pid in k.table && commands(k.table[pid].uid) && !(exceptOwn && Shows(k, pid)) :: (pid, k.table[pid].uid)
  }

  /** The desktop counts as unchanged exactly when every watched process that is not the sandbox's own is as it was. */
  lemma DesktopIsCompared(commands: nat -> bool, before: Kernel, after: Kernel)
    ensures Watched(commands, before, false) == Watched(commands, after, true) <==>
      forall pid: nat, uid: nat | commands(uid) ::
        (pid in before.table && before.table[pid].uid == uid) <==>
        (pid in after.table && after.table[pid].uid == uid && !ShowsToken(after, pid))
  {
    var then_, now := Watched(commands, before, false), Watched(commands, after, true);
    if then_ == now {
      forall pid: nat, uid: nat | commands(uid)
        ensures (pid in before.table && before.table[pid].uid == uid) <==>
          (pid in after.table && after.table[pid].uid == uid && !ShowsToken(after, pid))
      {
        assert (pid, uid) in then_ <==> (pid, uid) in now;
      }
    } else {
      var x :| (x in then_ && x !in now) || (x !in then_ && x in now);
      assert commands(x.1);
    }
  }

  /**
   A process that neither was started by the sandbox nor descends from one that was, however late it
   came, was never signalled.
   */
  lemma ForeignIsNeverSignalled(log: seq<Delivery>, k: Kernel, uid: nat)
    requires OnlyOwn(log, k) && uid < |k.origins| && !Descends(k.origins, uid)
    ensures forall i | 0 <= i < |log| :: log[i].target != uid
  {
    forall i | 0 <= i < |log| ensures log[i].target != uid {
      DescentGrows(log[i].checked.origins, k.origins, log[i].target);
    }
  }

  // ----- why the pidfd comes first

  /** Checking ownership before opening the pidfd would let a reused PID take the signal. */
  lemma CheckFirstIsUnsafe() returns (checked: Kernel, actions: seq<Action>, pid: nat)
    ensures Valid(checked) && Shows(checked, pid)
    ensures var held := Run(checked, actions);
      pid in held.table && !Descends(held.origins, held.table[pid].uid)
  {
    pid := 7;
    checked := Kernel(map[6 := Process(0, false, false), 7 := Process(2, true, false)], [Foreign, Started, Child(1)]);
    assert Descends(checked.origins, 1) && Descends(checked.origins, 2);
    actions := [Exit(7), Reap(7), Arrive(7)];
    var exited := Apply(checked, Exit(7));
    var reaped := Apply(exited, Reap(7));
    var reused := Apply(reaped, Arrive(7));
    assert actions[1..] == [Reap(7), Arrive(7)] && [Reap(7), Arrive(7)][1..] == [Arrive(7)] && [Arrive(7)][1..] == [];
    assert Run(reused, []) == reused && Run(reaped, [Arrive(7)]) == reused &&
      Run(exited, [Reap(7), Arrive(7)]) == reused;
    assert Run(checked, actions) == reused;
  }
}
