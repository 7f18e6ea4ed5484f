/**
 Finding patch-output journals below the data root: a bounded worklist walk that must agree with
 its recursive meaning (patch_output_files).
 */
module JournalWalk {
  import opened Common
  import opened TextOrder

  datatype Node = FileNode | FolderNode(readable: bool, children: seq<Child>) | LinkNode | OtherNode
  datatype Child = Child(name: string, node: Node)

  const MAX_DEPTH: nat := 4
  const MAX_DIRECTORY_ENTRIES: nat := 4096
  const MAX_PATCH_OUTPUT_JOURNALS: nat := 512
  const PREFIX := ".emuwiz-patch-output-"
  const SUFFIX := ".json"

  predicate IsJournalName(name: string) {
    StartsWith(name, PREFIX) && EndsWith(name, SUFFIX)
  }

  predicate IsJournal(child: Child) {
    child.node.FileNode? && IsJournalName(child.name)
  }

  predicate IsDescended(child: Child, depth: nat) {
    depth < MAX_DEPTH && child.node.FolderNode?
  }

  function Below(text: string, name: string): string {
    text + "/" + name
  }

  // ----- the recursive meaning

  /** Every journal in the folder `node` spelled `text` and in the folders it leads to. */
  function Journals(node: Node, text: string, depth: nat): seq<string>
    decreases node, 1, 0
  {
    if node.FolderNode? then JournalsOf(node, text, depth, |node.children|) else []
  }

  /** The part of Journals that comes from the first `n` children. */
  function JournalsOf(node: Node, text: string, depth: nat, n: nat): seq<string>
    requires node.FolderNode? && n <= |node.children|
    decreases node, 0, n
  {
    if n == 0 then []
    else
      var child := node.children[n - 1];
      JournalsOf(node, text, depth, n - 1) +
      if IsJournal(child) then [Below(text, child.name)]
      else if IsDescended(child, depth) then Journals(child.node, Below(text, child.name), depth + 1)
      else []
  }

  /** Some folder the walk visits cannot be listed, or lists too many entries. */
  predicate Blocked(node: Node, depth: nat)
    decreases node
  {
    node.FolderNode? &&
    (!node.readable || |node.children| > MAX_DIRECTORY_ENTRIES ||
     exists i | 0 <= i < |node.children| ::
       IsDescended(node.children[i], depth) && Blocked(node.children[i].node, depth + 1))
  }

  // ----- the worklist

  datatype Pending = Pending(node: Node, text: string, depth: nat)

  ghost function SizeOf(node: Node): nat
    decreases node, 0
  {
    if node.FolderNode? then 1 + SizeOfFirst(node, |node.children|) else 1
  }

  ghost function SizeOfFirst(node: Node, n: nat): nat
    requires node.FolderNode? && n <= |node.children|
    decreases node, 0, n
  {
    if n == 0 then 0 else SizeOfFirst(node, n - 1) + SizeOf(node.children[n - 1].node)
  }

  ghost function PendingSize(pending: seq<Pending>): nat {
    if pending == [] then 0 else PendingSize(pending[..|pending| - 1]) + SizeOf(pending[|pending| - 1].node)
  }

  ghost function PendingJournals(pending: seq<Pending>): multiset<string> {
    if pending == [] then multiset{}
    else
      var last := pending[|pending| - 1];
      PendingJournals(pending[..|pending| - 1]) + multiset(Journals(last.node, last.text, last.depth))
  }

  ghost predicate PendingBlocked(pending: seq<Pending>) {
    exists i | 0 <= i < |pending| :: Blocked(pending[i].node, pending[i].depth)
  }

  lemma PushOne(pending: seq<Pending>, item: Pending)
    ensures PendingSize(pending + [item]) == PendingSize(pending) + SizeOf(item.node)
    ensures PendingJournals(pending + [item]) ==
      PendingJournals(pending) + multiset(Journals(item.node, item.text, item.depth))
    ensures PendingBlocked(pending + [item]) <==> PendingBlocked(pending) || Blocked(item.node, item.depth)
  {
    var more := pending + [item];
    assert more[..|more| - 1] == pending && more[|pending|] == item;
    forall i | 0 <= i < |pending| ensures more[i] == pending[i] {}
  }

  datatype WalkProblem = TooManyEntries(folder: string) | CannotEnumerate | Truncated
  datatype Listing = Listing(found: seq<string>, problem: Option<WalkProblem>)

  /** The children that the walk descends into, among the first `n`. */
  ghost predicate ChildBlocked(node: Node, depth: nat, n: nat)
    requires node.FolderNode? && n <= |node.children|
  {
    exists i | 0 <= i < n :: IsDescended(node.children[i], depth) && Blocked(node.children[i].node, depth + 1)
  }

  lemma ChildBlockedStep(node: Node, depth: nat, n: nat)
    requires node.FolderNode? && n < |node.children|
    ensures ChildBlocked(node, depth, n + 1) <==>
      ChildBlocked(node, depth, n) ||
      (IsDescended(node.children[n], depth) && Blocked(node.children[n].node, depth + 1))
  {
  }

  /** One child: a journal, a further folder to visit, or neither. */
  method VisitChild(child: Child, text: string, depth: nat, given: seq<Pending>)
    returns (journals: seq<string>, pending: seq<Pending>)
    ensures PendingSize(pending) <= PendingSize(given) + SizeOf(child.node)
    ensures multiset(journals) + PendingJournals(pending) == PendingJournals(given) + Contribution(child, text, depth)
    ensures PendingBlocked(pending) <==>
      PendingBlocked(given) || (IsDescended(child, depth) && Blocked(child.node, depth + 1))
  {
    journals, pending := [], given;
    if IsJournal(child) {
      journals := [Below(text, child.name)];
    } else if IsDescended(child, depth) {
      var next := Pending(child.node, Below(text, child.name), depth + 1);
      PushOne(pending, next);
      pending := pending + [next];
    }
  }

  /** The inner loop: sort one folder's children into journals and further folders. */
  method VisitFolder(item: Pending, rest: seq<Pending>) returns (journals: seq<string>, pending: seq<Pending>)
    requires item.node.FolderNode?
    ensures PendingSize(pending) < PendingSize(rest) + SizeOf(item.node)
    ensures multiset(journals) + PendingJournals(pending) ==
      PendingJournals(rest) + multiset(Journals(item.node, item.text, item.depth))
    ensures PendingBlocked(pending) <==>
      PendingBlocked(rest) || ChildBlocked(item.node, item.depth, |item.node.children|)
  {
    journals, pending := [], rest;
    ghost var done: multiset<string> := multiset{};
    for i := 0 to |item.node.children|
      invariant PendingSize(pending) <= PendingSize(rest) + SizeOfFirst(item.node, i)
      invariant done == multiset(JournalsOf(item.node, item.text, item.depth, i))
      invariant multiset(journals) + PendingJournals(pending) == PendingJournals(rest) + done
      invariant PendingBlocked(pending) <==> PendingBlocked(rest) || ChildBlocked(item.node, item.depth, i)
    {
      ChildBlockedStep(item.node, item.depth, i);
      JournalsStep(item.node, item.text, item.depth, i);
      ghost var more := Contribution(item.node.children[i], item.text, item.depth);
      ghost var waiting := PendingJournals(pending);
      var own, next := VisitChild(item.node.children[i], item.text, item.depth, pending);
      BalanceKept(multiset(journals), waiting, PendingJournals(rest), done, more, multiset(own), PendingJournals(next));
      journals, pending := journals + own, next;
      done := done + more;
    }
  }

  lemma BalanceKept(found: multiset<string>, waiting: multiset<string>, rest: multiset<string>, done: multiset<string>,
      more: multiset<string>, own: multiset<string>, next: multiset<string>)
    requires found + waiting == rest + done && own + next == waiting + more
    ensures (found + own) + next == rest + (done + more)
  {
    assert (found + own) + next == found + (own + next);
    assert found + (waiting + more) == (found + waiting) + more;
    assert (rest + done) + more == rest + (done + more);
  }

  /** What child `n` adds to its folder's journals. */
  ghost function Contribution(child: Child, text: string, depth: nat): multiset<string> {
    if IsJournal(child) then multiset{Below(text, child.name)}
    else if IsDescended(child, depth) then multiset(Journals(child.node, Below(text, child.name), depth + 1))
    else multiset{}
  }

  lemma JournalsStep(node: Node, text: string, depth: nat, n: nat)
    requires node.FolderNode? && n < |node.children|
    ensures multiset(JournalsOf(node, text, depth, n + 1)) ==
      multiset(JournalsOf(node, text, depth, n)) + Contribution(node.children[n], text, depth)
  {
    var child := node.children[n];
    var before := JournalsOf(node, text, depth, n);
    if IsJournal(child) {
      assert JournalsOf(node, text, depth, n + 1) == before + [Below(text, child.name)];
    } else if IsDescended(child, depth) {
      assert JournalsOf(node, text, depth, n + 1) == before + Journals(child.node, Below(text, child.name), depth + 1);
    } else {
      assert JournalsOf(node, text, depth, n + 1) == before + [] == before;
    }
  }

  lemma Visited(found: multiset<string>, rest: multiset<string>, item: multiset<string>, all: multiset<string>,
      own: multiset<string>, next: multiset<string>)
    requires found + (rest + item) == all && own + next == rest + item
    ensures (found + own) + next == all
  {
    assert (found + own) + next == found + (own + next);
  }

  /** One item off the worklist: what it holds, what is to visit next, or why the walk ends. */
  method WalkOne(item: Pending, rest: seq<Pending>)
    returns (journals: seq<string>, pending: seq<Pending>, problem: Option<WalkProblem>)
    ensures problem != Some(Truncated)
    ensures problem.Some? ==> Blocked(item.node, item.depth)
    ensures problem.None? ==>
      PendingSize(pending) < PendingSize(rest) + SizeOf(item.node) &&
      multiset(journals) + PendingJournals(pending) ==
        PendingJournals(rest) + multiset(Journals(item.node, item.text, item.depth)) &&
      (PendingBlocked(pending) <==> PendingBlocked(rest) || Blocked(item.node, item.depth))
  {
    journals, pending, problem := [], rest, None;
    if item.node.FolderNode? {
      if !item.node.readable {
        problem := Some(CannotEnumerate);
      } else if |item.node.children| > MAX_DIRECTORY_ENTRIES {
        problem := Some(TooManyEntries(item.text));
      } else {
        journals, pending := VisitFolder(item, rest);
      }
    }
  }

  /** The worklist itself: all journals in some order, or why there is no saying. */
  method WalkAll(root: Node, text: string) returns (found: seq<string>, problem: Option<WalkProblem>)
    ensures problem.Some? <==> Blocked(root, 0)
    ensures problem != Some(Truncated)
    ensures problem.None? ==> multiset(found) == multiset(Journals(root, text, 0))
  {
    found := [];
    var pending := [Pending(root, text, 0)];
    PushOne([], pending[0]);
    assert [] + [pending[0]] == pending;
    ghost var all := multiset(Journals(root, text, 0));
    while pending != []
      invariant multiset(found) + PendingJournals(pending) == all
      invariant PendingBlocked(pending) <==> Blocked(root, 0)
      decreases PendingSize(pending)
    {
      var item := pending[|pending| - 1];
      var rest := pending[..|pending| - 1];
      assert pending == rest + [item];
      PushOne(rest, item);
      var journals;
      journals, pending, problem := WalkOne(item, rest);
      if problem.Some? {
        return [], problem;
      }
      Visited(multiset(found), PendingJournals(rest), multiset(Journals(item.node, item.text, item.depth)), all,
        multiset(journals), PendingJournals(pending));
      found := found + journals;
    }
    problem := None;
  }

  /**
   patch_output_files: when every visited folder can be listed, the sorted list of all journals at
   depth at most four, cut to the first 512 with a warning exactly when there are more; otherwise
   nothing, with the reason. A missing root holds nothing.
   */
  method PatchOutputFiles(root: Option<Node>, text: string) returns (listing: Listing)
    ensures root.None? ==> listing == Listing([], None)
    ensures root.Some? && Blocked(root.value, 0) ==>
      listing.found == [] && listing.problem.Some? && listing.problem != Some(Truncated)
    ensures root.Some? && !Blocked(root.value, 0) ==>
      var all := SortTexts(Journals(root.value, text, 0));
      listing == if |all| > 512 then Listing(all[..512], Some(Truncated)) else Listing(all, None)
  {
    if root.None? {
      return Listing([], None);
    }
    var found, problem := WalkAll(root.value, text);
    if problem.Some? {
      return Listing([], problem);
    }
    SortIgnoresOrder(found, Journals(root.value, text, 0));
    SortTextsSorts(Journals(root.value, text, 0));
    found := SortTexts(found);
    if |found| > MAX_PATCH_OUTPUT_JOURNALS {
      return Listing(found[..MAX_PATCH_OUTPUT_JOURNALS], Some(Truncated));
    }
    listing := Listing(found, None);
  }

  // ----- what the recursive meaning contains

  /** `text` is reached from a folder through descended folders and ends at a journal. */
  ghost predicate Reaches(node: Node, text: string, depth: nat, journal: string)
    decreases node
  {
    node.FolderNode? &&
    exists i | 0 <= i < |node.children| ::
      (IsJournal(node.children[i]) && journal == Below(text, node.children[i].name)) ||
      (IsDescended(node.children[i], depth) &&
        Reaches(node.children[i].node, Below(text, node.children[i].name), depth + 1, journal))
  }

  /** The recursive meaning lists exactly the journals a path of at most four folders leads to. */
  lemma {:induction false} JournalsAreReached(node: Node, text: string, depth: nat, journal: string)
    ensures journal in Journals(node, text, depth) <==> Reaches(node, text, depth, journal)
    decreases node, 1, 0
  {
    if node.FolderNode? { JournalsOfAreReached(node, text, depth, |node.children|, journal); }
  }

  lemma {:induction false} JournalsOfAreReached(node: Node, text: string, depth: nat, n: nat, journal: string)
    requires node.FolderNode? && n <= |node.children|
    ensures journal in JournalsOf(node, text, depth, n) <==>
      exists i | 0 <= i < n ::
        (IsJournal(node.children[i]) && journal == Below(text, node.children[i].name)) ||
        (IsDescended(node.children[i], depth) &&
          Reaches(node.children[i].node, Below(text, node.children[i].name), depth + 1, journal))
    decreases node, 0, n
  {
    if n > 0 {
      JournalsOfAreReached(node, text, depth, n - 1, journal);
      var child := node.children[n - 1];
      if IsDescended(child, depth) {
        JournalsAreReached(child.node, Below(text, child.name), depth + 1, journal);
      }
    }
  }

  // ----- the same by the steps from the root, each the place of a child in its folder

  predicate IsJournalFile(child: Child) {
    child.node.FileNode? && ".emuwiz-patch-output-" <= child.name &&
    |child.name| >= 5 && child.name[|child.name| - 5..] == ".json"
  }

  /** The steps lead through folders to a journal, spelled by the names on the way. */
  predicate LeadsTo(node: Node, text: string, steps: seq<nat>, journal: string)
    decreases |steps|
  {
    steps != [] && node.FolderNode? && steps[0] < |node.children| &&
    var child := node.children[steps[0]];
    var here := text + "/" + child.name;
    if |steps| == 1 then IsJournalFile(child) && journal == here
    else LeadsTo(child.node, here, steps[1..], journal)
  }

  /** The steps lead through folders to one that cannot be listed. */
  predicate LeadsToBlocked(node: Node, steps: seq<nat>)
    decreases |steps|
  {
    node.FolderNode? &&
    if steps == [] then !node.readable || |node.children| > 4096
    else steps[0] < |node.children| && LeadsToBlocked(node.children[steps[0]].node, steps[1..])
  }

  lemma NamesCompared(child: Child)
    ensures IsJournal(child) <==> IsJournalFile(child)
  {
  }

  lemma {:induction false} StepsTo(node: Node, text: string, depth: nat, journal: string) returns (steps: seq<nat>)
    requires depth <= 4 && Reaches(node, text, depth, journal)
    ensures |steps| <= 5 - depth && LeadsTo(node, text, steps, journal)
    decreases node
  {
    var i: nat :| i < |node.children| && ReachesThrough(node.children[i], text, depth, journal);
    var child := node.children[i];
    if IsJournal(child) && journal == Below(text, child.name) {
      NamesCompared(child);
      steps := [i];
    } else {
      assert ReachesThrough(child, text, depth, journal);
      assert IsDescended(child, depth) && Reaches(child.node, Below(text, child.name), depth + 1, journal);
      var rest := StepsTo(child.node, Below(text, child.name), depth + 1, journal);
      steps := [i] + rest;
      assert steps[1..] == rest;
    }
  }

  ghost predicate ReachesThrough(child: Child, text: string, depth: nat, journal: string) {
    (IsJournal(child) && journal == Below(text, child.name)) ||
    (IsDescended(child, depth) && Reaches(child.node, Below(text, child.name), depth + 1, journal))
  }

  lemma {:induction false} StepsReach(node: Node, text: string, depth: nat, steps: seq<nat>, journal: string)
    requires |steps| <= 5 - depth && LeadsTo(node, text, steps, journal)
    ensures Reaches(node, text, depth, journal)
    decreases node
  {
    var child := node.children[steps[0]];
    NamesCompared(child);
    if |steps| > 1 {
      assert child.node.FolderNode? by { assert LeadsTo(child.node, text + "/" + child.name, steps[1..], journal); }
      StepsReach(child.node, Below(text, child.name), depth + 1, steps[1..], journal);
    }
    assert ReachesThrough(child, text, depth, journal);
  }

  lemma {:induction false} BlockedBySteps(node: Node, depth: nat)
    requires depth <= 4
    ensures Blocked(node, depth) <==> exists steps :: |steps| <= 4 - depth && LeadsToBlocked(node, steps)
    decreases node
  {
    if Blocked(node, depth) {
      if !node.readable || |node.children| > MAX_DIRECTORY_ENTRIES {
        assert LeadsToBlocked(node, []);
      } else {
        var i: nat :| i < |node.children| && IsDescended(node.children[i], depth) &&
          Blocked(node.children[i].node, depth + 1);
        BlockedBySteps(node.children[i].node, depth + 1);
        var steps :| |steps| <= 3 - depth && LeadsToBlocked(node.children[i].node, steps);
        assert ([i] + steps)[1..] == steps;
        assert LeadsToBlocked(node, [i] + steps);
      }
    }
    if steps :| |steps| <= 4 - depth && LeadsToBlocked(node, steps) {
      if steps != [] {
        var child := node.children[steps[0]];
        BlockedBySteps(child.node, depth + 1);
        assert LeadsToBlocked(child.node, steps[1..]);
        assert IsDescended(child, depth);
      }
    }
  }

  /** A journal is listed exactly when at most five steps lead to it, four of them through folders. */
  lemma ListedWithinFive(root: Node, text: string, journal: string)
    ensures journal in Journals(root, text, 0) <==> exists steps :: |steps| <= 5 && LeadsTo(root, text, steps, journal)
  {
    JournalsAreReached(root, text, 0, journal);
    if Reaches(root, text, 0, journal) {
      var steps := StepsTo(root, text, 0, journal);
    }
    if steps :| |steps| <= 5 && LeadsTo(root, text, steps, journal) { StepsReach(root, text, 0, steps, journal); }
  }

  /** The walk gives up exactly when at most four steps lead to a folder that cannot be listed or lists too much. */
  lemma BlockedWithinFour(root: Node)
    ensures Blocked(root, 0) <==> exists steps :: |steps| <= 4 && LeadsToBlocked(root, steps)
  {
    BlockedBySteps(root, 0);
  }
}
