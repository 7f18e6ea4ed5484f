/**
 Partitioning one tier's test run into shards by ordered filter groups, and the checker that proves
 the partition exact from what every shard enumerated.
 */
module TestShards {
  import opened Common

  // ----- filter groups and the test arguments each shard gets

  datatype Group = Group(name: string, filters: seq<string>)

  const SHARDS: seq<Group> := [
    Group("recovery", ["interrupted_apply_tests::", "memory_card_inventory::"]),
    Group("dat", ["dat::"]),
    Group("gui-v2", ["gui_v2::"]),
    Group("rest", [])
  ]

  const GUI_TIER_SHARDS: seq<Group> := [
    Group("gui-tier-v2", ["gui_v2::"]),
    Group("gui-tier-other", [])
  ]

  const SKIP := "--skip"

  function IndexOf(partition: seq<Group>, shard: string): (index: Option<nat>)
    ensures index.Some? ==> index.value < |partition| && partition[index.value].name == shard
    ensures index.None? ==> forall k | 0 <= k < |partition| :: partition[k].name != shard
  {
    if partition == [] then None
    else if partition[0].name == shard then Some(0)
    else
      var rest := IndexOf(partition[1..], shard);
      if rest.None? then None else Some(rest.value + 1)
  }

  function AllFilters(groups: seq<Group>): seq<string> {
    if groups == [] then [] else AllFilters(groups[..|groups| - 1]) + groups[|groups| - 1].filters
  }

  function SkipArguments(filters: seq<string>): seq<string> {
    if filters == [] then [] else [SKIP, filters[0]] + SkipArguments(filters[1..])
  }

  /** The arguments of one shard; refused unless exactly the last group has no filters. */
  function SelectionAt(partition: seq<Group>, index: nat): Option<seq<string>>
    requires index < |partition|
  {
    var own := partition[index].filters;
    if (index == |partition| - 1) != (own == []) then None
    else Some(own + SkipArguments(AllFilters(partition[..index])))
  }

  /** `selection`: the first partition that names the shard decides. */
  function Selection(shard: string): Option<seq<string>> {
    var tier := IndexOf(SHARDS, shard);
    var gui := IndexOf(GUI_TIER_SHARDS, shard);
    if tier.Some? then SelectionAt(SHARDS, tier.value)
    else if gui.Some? then SelectionAt(GUI_TIER_SHARDS, gui.value)
    else None
  }

  // ----- what the test harness makes of the arguments: a test runs if one of the plain arguments is
  // part of its name, or there are none, and no skipped text is

  datatype Picked = Picked(keep: seq<string>, skip: seq<string>)

  function ReadArguments(args: seq<string>): Picked {
    if args == [] then Picked([], [])
    else if args[0] == SKIP && |args| > 1 then
      var rest := ReadArguments(args[2..]);
      Picked(rest.keep, [args[1]] + rest.skip)
    else
      var rest := ReadArguments(args[1..]);
      Picked([args[0]] + rest.keep, rest.skip)
  }

  predicate AnyOccurs(filters: seq<string>, test: string) {
    exists k | 0 <= k < |filters| :: Occurs(filters[k], test)
  }

  predicate Runs(args: seq<string>, test: string) {
    var picked := ReadArguments(args);
    (picked.keep == [] || AnyOccurs(picked.keep, test)) && !AnyOccurs(picked.skip, test)
  }

  predicate NoOptions(filters: seq<string>) {
    forall k | 0 <= k < |filters| :: filters[k] == "" || filters[k][0] != '-'
  }

  /** Only the last group is empty, and no filter reads as an option. */
  predicate WellFormed(partition: seq<Group>) {
    partition != [] && (forall k | 0 <= k < |partition| :: partition[k].filters == [] <==> k == |partition| - 1) &&
    forall k | 0 <= k < |partition| :: NoOptions(partition[k].filters)
  }

  lemma {:induction false} SkipsReadBack(filters: seq<string>)
    ensures ReadArguments(SkipArguments(filters)) == Picked([], filters)
  {
    if filters != [] {
      assert ([SKIP, filters[0]] + SkipArguments(filters[1..]))[2..] == SkipArguments(filters[1..]);
      SkipsReadBack(filters[1..]);
      assert [filters[0]] + filters[1..] == filters;
    }
  }

  lemma {:induction false} ArgumentsReadBack(own: seq<string>, skips: seq<string>)
    requires NoOptions(own)
    ensures ReadArguments(own + SkipArguments(skips)) == Picked(own, skips)
  {
    var args := own + SkipArguments(skips);
    if own == [] {
      assert args == SkipArguments(skips);
      SkipsReadBack(skips);
    } else {
      assert args[1..] == own[1..] + SkipArguments(skips);
      assert args[0] == own[0] && SKIP[0] == '-';
      ArgumentsReadBack(own[1..], skips);
      assert [own[0]] + own[1..] == own;
    }
  }

  lemma {:induction false} EarlierMatch(groups: seq<Group>, test: string)
    ensures AnyOccurs(AllFilters(groups), test) <==>
      exists k | 0 <= k < |groups| :: AnyOccurs(groups[k].filters, test)
  {
    if groups != [] {
      var init, last := groups[..|groups| - 1], groups[|groups| - 1].filters;
      EarlierMatch(init, test);
      var before := AllFilters(init);
      assert AllFilters(groups) == before + last;
      if k :| 0 <= k < |before| && Occurs(before[k], test) { assert AllFilters(groups)[k] == before[k]; }
      if k :| 0 <= k < |last| && Occurs(last[k], test) { assert AllFilters(groups)[|before| + k] == last[k]; }
      if k :| 0 <= k < |init| && AnyOccurs(init[k].filters, test) { assert AnyOccurs(groups[k].filters, test); }
      if k :| 0 <= k < |groups| && AnyOccurs(groups[k].filters, test) {
        if k < |init| { assert AnyOccurs(init[k].filters, test); }
      }
    }
  }

  /** A shard runs what a filter of its own matches, all if it has none, less what an earlier group matches. */
  lemma ShardRuns(partition: seq<Group>, index: nat, test: string)
    requires index < |partition| && NoOptions(partition[index].filters) && SelectionAt(partition, index).Some?
    ensures Runs(SelectionAt(partition, index).value, test) <==>
      (partition[index].filters == [] || AnyOccurs(partition[index].filters, test)) &&
      forall k | 0 <= k < index :: !AnyOccurs(partition[k].filters, test)
  {
    var earlier := partition[..index];
    ArgumentsReadBack(partition[index].filters, AllFilters(earlier));
    EarlierMatch(earlier, test);
    assert forall k | 0 <= k < index :: earlier[k] == partition[k];
  }

  /** The first group a test matches, or the last group. */
  function ShardOf(partition: seq<Group>, test: string): (index: nat)
    requires partition != []
    ensures index < |partition|
    ensures forall k | 0 <= k < index :: !AnyOccurs(partition[k].filters, test)
    ensures index == |partition| - 1 || AnyOccurs(partition[index].filters, test)
  {
    if |partition| == 1 || AnyOccurs(partition[0].filters, test) then 0
    else 1 + ShardOf(partition[1..], test)
  }

  /** Exact partition: every shard gets its arguments, and exactly the first matching one runs a test. */
  lemma ExactlyOneShardRuns(partition: seq<Group>, index: nat, test: string)
    requires WellFormed(partition) && index < |partition|
    ensures SelectionAt(partition, index).Some?
    ensures Runs(SelectionAt(partition, index).value, test) <==> index == ShardOf(partition, test)
  {
    ShardRuns(partition, index, test);
    assert AnyOccurs([], test) == false;
    assert index < |partition| - 1 ==> partition[index].filters != [];
  }

  /**
   Why the guard is there: a test that no filter matches is run by just the shards without filters,
   so two such shards would run it twice and none would lose it.
   */
  lemma UnmatchedTestNeedsTheGuard(partition: seq<Group>, index: nat, test: string)
    requires index < |partition| && NoOptions(partition[index].filters)
    requires forall k | 0 <= k < |partition| :: !AnyOccurs(partition[k].filters, test)
    ensures var args := partition[index].filters + SkipArguments(AllFilters(partition[..index]));
      Runs(args, test) <==> partition[index].filters == []
  {
    var earlier := partition[..index];
    ArgumentsReadBack(partition[index].filters, AllFilters(earlier));
    EarlierMatch(earlier, test);
    assert forall k | 0 <= k < index :: earlier[k] == partition[k];
  }

  /** Both shipped partitions are well formed, and a shard's name alone leads to its own arguments. */
  lemma ShippedPartitionsAreExact(partition: seq<Group>, index: nat, test: string)
    requires partition == SHARDS || partition == GUI_TIER_SHARDS
    requires index < |partition|
    ensures WellFormed(partition) && Selection(partition[index].name) == SelectionAt(partition, index)
    ensures Runs(Selection(partition[index].name).value, test) <==> index == ShardOf(partition, test)
  {
    assert NoOptions(["interrupted_apply_tests::", "memory_card_inventory::"]) && NoOptions(["dat::"]);
    assert NoOptions(["gui_v2::"]) && NoOptions([]);
    ExactlyOneShardRuns(partition, index, test);
    SameIndex(partition, index);
  }

  lemma SameIndex(partition: seq<Group>, index: nat)
    requires partition == SHARDS || partition == GUI_TIER_SHARDS
    requires index < |partition|
    ensures Selection(partition[index].name) == SelectionAt(partition, index)
  {
    var tier := IndexOf(SHARDS, partition[index].name);
    var gui := IndexOf(GUI_TIER_SHARDS, partition[index].name);
    if partition == SHARDS {
      assert tier == Some(index);
    } else {
      assert tier.None? && gui == Some(index);
    }
  }

  // ----- enumerations: headers name the test binary, the lines below it its tests

  datatype Line = Header(binary: string) | Listed(test: string) | Other

  function Key(binary: string, test: string): string {
    binary + " :: " + test
  }

  /** The tests listed from here on, when `binary` is the one named last; None if one comes first. */
  function Tests(lines: seq<Line>, binary: Option<string>): Option<multiset<string>> {
    if lines == [] then Some(multiset{})
    else
      match lines[0]
      case Header(name) => Tests(lines[1..], Some(name))
      case Other => Tests(lines[1..], binary)
      case Listed(test) =>
        if binary.None? then None
        else
          var rest := Tests(lines[1..], binary);
          if rest.None? then None else Some(multiset{Key(binary.value, test)} + rest.value)
  }

  /** A listing is refused exactly when some test stands before every header. */
  lemma {:induction false} RefusedListing(lines: seq<Line>, binary: Option<string>)
    ensures Tests(lines, binary).None? <==>
      binary.None? && exists k | 0 <= k < |lines| :: lines[k].Listed? && forall j | 0 <= j < k :: !lines[j].Header?
  {
    if lines != [] {
      var next := if lines[0].Header? then Some(lines[0].binary) else binary;
      var rest := lines[1..];
      RefusedListing(rest, next);
      if k :| 0 <= k < |rest| && rest[k].Listed? && forall j | 0 <= j < k :: !rest[j].Header? {
        assert lines[k + 1].Listed?;
        assert !lines[0].Header? ==> forall j | 0 <= j < k + 1 :: !lines[j].Header?
          by { assert forall j | 1 <= j < k + 1 :: lines[j] == rest[j - 1]; }
      }
      if k :| 0 <= k < |lines| && lines[k].Listed? && forall j | 0 <= j < k :: !lines[j].Header? {
        if k > 0 {
          assert rest[k - 1].Listed? && forall j | 0 <= j < k - 1 :: !rest[j].Header?
            by { assert forall j | 0 <= j < k - 1 :: rest[j] == lines[j + 1]; }
        }
      }
    }
  }

  /** Tests counted so far, and all that the remaining lines list. */
  function AndMore(counted: multiset<string>, rest: Option<multiset<string>>): Option<multiset<string>> {
    if rest.None? then None else Some(counted + rest.value)
  }

  lemma OneMore(counted: multiset<string>, key: string, rest: Option<multiset<string>>)
    ensures AndMore(counted, AndMore(multiset{key}, rest)) == AndMore(counted + multiset{key}, rest)
  {
    if rest.Some? { assert counted + (multiset{key} + rest.value) == counted + multiset{key} + rest.value; }
  }

  method ParseListing(lines: seq<Line>) returns (tests: Option<multiset<string>>)
    ensures tests == Tests(lines, None)
  {
    var counted: multiset<string> := multiset{};
    var binary: Option<string> := None;
    assert lines[0..] == lines;
    ghost var all := Tests(lines, None);
    assert AndMore(multiset{}, all) == all by { if all.Some? { assert multiset{} + all.value == all.value; } }
    for k := 0 to |lines|
      invariant AndMore(counted, Tests(lines[k..], binary)) == Tests(lines, None)
    {
      assert lines[k..][1..] == lines[k + 1..];
      match lines[k]
      case Header(name) => binary := Some(name);
      case Listed(test) =>
        if binary.None? {
          return None;
        }
        OneMore(counted, Key(binary.value, test), Tests(lines[k + 1..], binary));
        assert Tests(lines[k..], binary) == AndMore(multiset{Key(binary.value, test)}, Tests(lines[k + 1..], binary));
        counted := counted + multiset{Key(binary.value, test)};
      case Other =>
    }
    assert counted + multiset{} == counted;
    tests := Some(counted);
  }

  // ----- the checker

  datatype Outcome =
    | Exact(tests: nat)
    | NoEnumeration(absent: set<string>)
    | Unpaired(shards: set<string>)
    | Unplanned(shards: set<string>)
    | Unreadable(shard: string)
    | NoTests(shard: string)
    | Differs(shard: string)
    | NotItsOwn(shard: string)
    | Uneven(missing: set<string>, duplicated: set<string>)
    | Crash

  /** The enumerations captured by every shard: `complete` from .all, `selected` from .selected. */
  datatype Captured = Captured(complete: map<string, seq<Line>>, selected: map<string, seq<Line>>)

  predicate IsOrderOf(order: seq<string>, names: set<string>) {
    Distinct(order) && (forall k | 0 <= k < |order| :: order[k] in names) && forall n | n in names :: n in order
  }

  predicate AllRead(order: seq<string>, selected: map<string, seq<Line>>) {
    forall k | 0 <= k < |order| :: order[k] in selected && Tests(selected[order[k]], None).Some?
  }

  /** All the tests that the shards of `order` selected, with repetition. */
  function Union(order: seq<string>, selected: map<string, seq<Line>>): multiset<string>
    requires AllRead(order, selected)
  {
    if order == [] then multiset{}
    else Union(order[..|order| - 1], selected) + Tests(selected[order[|order| - 1]], None).value
  }

  /** One shard's own two lists are in order. */
  predicate ShardFits(shard: string, captured: Captured, whole: multiset<string>) {
    shard in captured.complete && shard in captured.selected &&
    Tests(captured.complete[shard], None) == Some(whole) &&
    Tests(captured.selected[shard], None).Some? && Tests(captured.selected[shard], None).value <= whole
  }

  predicate Fits(order: seq<string>, captured: Captured, whole: multiset<string>) {
    forall k | 0 <= k < |order| :: ShardFits(order[k], captured, whole)
  }

  /** The partition is proved exact: same shards, one non-empty test multiset, selections summing to it. */
  predicate IsExactPartition(order: seq<string>, captured: Captured, planned: set<string>, whole: multiset<string>) {
    planned == captured.complete.Keys == captured.selected.Keys && order != [] && whole != multiset{} &&
    Fits(order, captured, whole) && Union(order, captured.selected) == whole
  }

  /** Each shard is in order, and the tests named are just those selected too seldom or too often. */
  predicate IsUneven(order: seq<string>, captured: Captured, whole: multiset<string>, outcome: Outcome) {
    Fits(order, captured, whole) && outcome.Uneven? &&
    var union := Union(order, captured.selected);
    outcome.missing == (set name | name in whole && whole[name] > union[name]) &&
    outcome.duplicated == set name | name in union && union[name] > whole[name]
  }

  method CheckShard(shard: string, captured: Captured, reference: Option<multiset<string>>)
    returns (fault: Option<Outcome>, complete: multiset<string>, chosen: multiset<string>)
    requires shard in captured.complete && shard in captured.selected
    ensures fault.Some? ==>
      fault.value.Unreadable? || fault.value.NoTests? || fault.value.Differs? || fault.value.NotItsOwn?
    ensures fault.None? ==> ShardFits(shard, captured, complete) && complete != multiset{}
    ensures fault.None? ==> Tests(captured.selected[shard], None) == Some(chosen)
    ensures fault.None? && reference.Some? ==> reference.value == complete
    ensures fault.Some? ==> forall whole: multiset<string> ::
      whole == multiset{} || !ShardFits(shard, captured, whole) || (reference.Some? && reference.value != whole)
  {
    complete, chosen := multiset{}, multiset{};
    var all := ParseListing(captured.complete[shard]);
    if all.None? {
      return Some(Unreadable(shard)), complete, chosen;
    }
    complete := all.value;
    if complete == multiset{} {
      return Some(NoTests(shard)), complete, chosen;
    }
    if reference.Some? && reference.value != complete {
      return Some(Differs(shard)), complete, chosen;
    }
    var own := ParseListing(captured.selected[shard]);
    if own.None? {
      return Some(Unreadable(shard)), complete, chosen;
    }
    chosen := own.value;
    if !(chosen <= complete) {
      return Some(NotItsOwn(shard)), complete, chosen;
    }
    fault := None;
  }

  method Check(order: seq<string>, captured: Captured, planned: set<string>) returns (outcome: Outcome)
    requires IsOrderOf(order, captured.complete.Keys)
    ensures outcome.Exact? <==> exists whole :: IsExactPartition(order, captured, planned, whole)
    ensures forall whole | IsExactPartition(order, captured, planned, whole) :: outcome == Exact(|whole|)
    ensures outcome.Crash? <==> planned == captured.complete.Keys == captured.selected.Keys == {}
    ensures outcome.NoEnumeration? <==> !(planned <= captured.complete.Keys)
    ensures outcome.Unpaired? <==> planned <= captured.complete.Keys != captured.selected.Keys
    ensures outcome.Unplanned? <==> planned < captured.complete.Keys == captured.selected.Keys
    ensures outcome.Uneven? ==> exists whole :: IsUneven(order, captured, whole, outcome)
  {
    var names := captured.complete.Keys;
    assert planned - names == {} <==> planned <= names by {
      if planned - names == {} { assert forall n | n in planned :: n !in planned - names; }
    }
    if planned - names != {} {
      return NoEnumeration(planned - names);
    }
    if names != captured.selected.Keys {
      return Unpaired((names - captured.selected.Keys) + (captured.selected.Keys - names));
    }
    if names != planned {
      return Unplanned(names - planned);
    }
    if order == [] {
      assert forall n | n in planned :: n in order;
      return Crash;
    }
    assert order[0] in planned;
    outcome := CheckEach(order, captured, planned);
  }

  /** The loop over the shards, and the comparison of what they selected with the whole. */
  method CheckEach(order: seq<string>, captured: Captured, planned: set<string>) returns (outcome: Outcome)
    requires order != [] && planned == captured.complete.Keys == captured.selected.Keys
    requires forall k | 0 <= k < |order| :: order[k] in planned
    ensures outcome.Exact? <==> exists whole :: IsExactPartition(order, captured, planned, whole)
    ensures forall whole | IsExactPartition(order, captured, planned, whole) :: outcome == Exact(|whole|)
    ensures !outcome.Crash? && !outcome.NoEnumeration? && !outcome.Unpaired? && !outcome.Unplanned?
    ensures outcome.Uneven? ==> exists whole :: IsUneven(order, captured, whole, outcome)
  {
    var reference: Option<multiset<string>> := None;
    var union: multiset<string> := multiset{};
    for k := 0 to |order|
      invariant reference.None? <==> k == 0
      invariant reference.Some? ==> reference.value != multiset{} && Fits(order[..k], captured, reference.value)
      invariant AllRead(order[..k], captured.selected) && union == Union(order[..k], captured.selected)
    {
      assert order[..k + 1][..k] == order[..k] && order[k] in planned;
      var fault, complete, chosen := CheckShard(order[k], captured, reference);
      if fault.Some? {
        FaultRefutes(order, k, captured, reference);
        assert forall whole :: IsExactPartition(order, captured, planned, whole) ==> Fits(order, captured, whole);
        return fault.value;
      }
      reference := Some(complete);
      union := union + chosen;
    }
    assert order[..|order|] == order;
    var whole := reference.value;
    var duplicated := set name | name in union && union[name] > whole[name];
    var missing := set name | name in whole && whole[name] > union[name];
    EvenMeansEqual(union, whole, missing, duplicated);
    OneWhole(order, captured, whole);
    assert forall other :: IsExactPartition(order, captured, planned, other) ==> Fits(order, captured, other);
    if duplicated != {} || missing != {} {
      outcome := Uneven(missing, duplicated);
      assert IsUneven(order, captured, whole, outcome);
      return;
    }
    assert IsExactPartition(order, captured, planned, whole);
    outcome := Exact(|whole|);
  }

  lemma FaultRefutes(order: seq<string>, k: nat, captured: Captured, reference: Option<multiset<string>>)
    requires k < |order| && (reference.None? <==> k == 0)
    requires reference.Some? ==> Fits(order[..k], captured, reference.value)
    requires forall whole: multiset<string> ::
      whole == multiset{} || !ShardFits(order[k], captured, whole) || (reference.Some? && reference.value != whole)
    ensures forall whole :: Fits(order, captured, whole) ==> whole == multiset{}
  {
    forall whole | Fits(order, captured, whole) ensures whole == multiset{} {
      assert ShardFits(order[k], captured, whole);
      SameReference(order, k, captured, reference, whole);
    }
  }

  lemma SameReference(order: seq<string>, k: nat, captured: Captured, reference: Option<multiset<string>>,
      whole: multiset<string>)
    requires k < |order| && (reference.None? <==> k == 0)
    requires reference.Some? ==> Fits(order[..k], captured, reference.value)
    requires Fits(order, captured, whole)
    ensures reference.Some? ==> reference.value == whole
  {
    if reference.Some? {
      assert ShardFits(order[0], captured, whole);
      assert order[..k][0] == order[0] && ShardFits(order[..k][0], captured, reference.value);
    }
  }

  lemma OneWhole(order: seq<string>, captured: Captured, whole: multiset<string>)
    requires order != [] && Fits(order, captured, whole)
    ensures forall other | Fits(order, captured, other) :: other == whole
  {
    assert ShardFits(order[0], captured, whole);
    forall other | Fits(order, captured, other) ensures other == whole { assert ShardFits(order[0], captured, other); }
  }

  lemma EvenMeansEqual(union: multiset<string>, whole: multiset<string>, missing: set<string>, duplicated: set<string>)
    requires duplicated == set name | name in union && union[name] > whole[name]
    requires missing == set name | name in whole && whole[name] > union[name]
    ensures missing == {} && duplicated == {} <==> union == whole
  {
    if missing == {} && duplicated == {} {
      forall name ensures union[name] == whole[name] {
        assert name !in missing && name !in duplicated;
      }
    }
  }

  // ----- what acceptance means for one test

  /** How many shards select the test at all. */
  function Selectors(order: seq<string>, selected: map<string, seq<Line>>, test: string): nat
    requires AllRead(order, selected)
  {
    if order == [] then 0
    else
      var last := Tests(selected[order[|order| - 1]], None).value;
      Selectors(order[..|order| - 1], selected, test) + (if test in last then 1 else 0)
  }

  lemma {:induction false} SelectorsBound(order: seq<string>, selected: map<string, seq<Line>>, test: string)
    requires AllRead(order, selected)
    ensures Selectors(order, selected, test) <= Union(order, selected)[test]
    ensures Selectors(order, selected, test) == 0 <==> Union(order, selected)[test] == 0
  {
    if order != [] { SelectorsBound(order[..|order| - 1], selected, test); }
  }

  /**
   Accepted enumerations leave no test out, and a test that is listed once runs in exactly one shard.
   One listed m times is selected by between one and m shards: the comparison is by multiset.
   */
  lemma AcceptedRunsEachOnce(order: seq<string>, captured: Captured, planned: set<string>, whole: multiset<string>,
      test: string)
    requires IsExactPartition(order, captured, planned, whole) && test in whole
    ensures AllRead(order, captured.selected)
    ensures 1 <= Selectors(order, captured.selected, test) <= whole[test]
  {
    assert forall k | 0 <= k < |order| :: ShardFits(order[k], captured, whole);
    SelectorsBound(order, captured.selected, test);
  }

  // ----- when does every accepted capture run each test in exactly one shard?

  predicate EachOnce(order: seq<string>, captured: Captured, whole: multiset<string>) {
    AllRead(order, captured.selected) && forall test | test in whole :: Selectors(order, captured.selected, test) == 1
  }

  predicate ListedOnce(whole: multiset<string>) {
    forall test | test in whole :: whole[test] == 1
  }

  /** One listing of the test alone, and one of all the others. */
  lemma {:induction false} TakeOne(lines: seq<Line>, binary: Option<string>, test: string)
    returns (one: seq<Line>, rest: seq<Line>)
    requires Tests(lines, binary).Some? && test in Tests(lines, binary).value
    ensures Tests(one, binary) == Some(multiset{test}) && Tests(rest, binary).Some?
    ensures Tests(lines, binary).value == multiset{test} + Tests(rest, binary).value
  {
    var head := lines[0];
    var next := if head.Header? then Some(head.binary) else binary;
    if head.Listed? && Key(binary.value, head.test) == test {
      one, rest := [head], [Other] + lines[1..];
      assert Tests(one[1..], binary) == Some(multiset{}) && multiset{test} + multiset{} == multiset{test};
      assert rest[1..] == lines[1..];
    } else {
      one, rest := TakeOne(lines[1..], next, test);
      var others := Tests(rest, next).value;
      one, rest := [if head.Listed? then Other else head] + one, [head] + rest;
      assert one[1..] + [] == one[1..] && rest[1..] + [] == rest[1..];
      if head.Listed? {
        var key := multiset{Key(binary.value, head.test)};
        assert key + (multiset{test} + others) == multiset{test} + (key + others);
      }
    }
  }

  /** The first shard lists `one`, the second `rest`, and the others nothing. */
  function Divided(order: seq<string>, lines: seq<Line>, one: seq<Line>, rest: seq<Line>): Captured
    requires |order| > 1
  {
    var names := set n | n in order;
    Captured(
      map n | n in names :: lines,
      map n | n in names :: if n == order[0] then one else if n == order[1] then rest else [])
  }

  lemma {:induction false} DividedUnion(order: seq<string>, selected: map<string, seq<Line>>, k: nat, test: string)
    requires Distinct(order) && AllRead(order, selected) && 2 <= k <= |order|
    requires forall m | 2 <= m < |order| :: selected[order[m]] == []
    requires test in Tests(selected[order[0]], None).value && test in Tests(selected[order[1]], None).value
    ensures AllRead(order[..k], selected) && Selectors(order[..k], selected, test) == 2
    ensures Union(order[..k], selected) == Tests(selected[order[0]], None).value + Tests(selected[order[1]], None).value
  {
    var one, two := Tests(selected[order[0]], None).value, Tests(selected[order[1]], None).value;
    assert order[..k][..k - 1] == order[..k - 1];
    if k > 2 {
      DividedUnion(order, selected, k - 1, test);
      assert one + two + multiset{} == one + two;
    } else {
      assert order[..1][..0] == [] && order[..2][..1] == order[..1];
      assert Selectors(order[..1], selected, test) == 1;
      assert Union(order[..1], selected) == multiset{} + one == one;
    }
  }

  lemma DividedReads(order: seq<string>, lines: seq<Line>, one: seq<Line>, rest: seq<Line>)
    requires Distinct(order) && |order| > 1 && Tests(one, None).Some? && Tests(rest, None).Some?
    ensures var captured := Divided(order, lines, one, rest);
      captured.complete.Keys == captured.selected.Keys == (set n | n in order) &&
      (forall k | 0 <= k < |order| :: captured.complete[order[k]] == lines) && AllRead(order, captured.selected) &&
      captured.selected[order[0]] == one && captured.selected[order[1]] == rest &&
      forall m | 2 <= m < |order| :: captured.selected[order[m]] == []
  {
    var captured := Divided(order, lines, one, rest);
    assert order[0] != order[1];
    forall k | 0 <= k < |order| ensures order[k] in captured.selected &&
      Tests(captured.selected[order[k]], None).Some? {}
  }

  lemma DividedFits(order: seq<string>, captured: Captured, lines: seq<Line>, whole: multiset<string>,
      one: multiset<string>, rest: multiset<string>)
    requires AllRead(order, captured.selected) && |order| > 1 && Tests(lines, None) == Some(whole) &&
      whole == one + rest
    requires forall k | 0 <= k < |order| :: order[k] in captured.complete && captured.complete[order[k]] == lines
    requires Tests(captured.selected[order[0]], None) == Some(one) &&
      Tests(captured.selected[order[1]], None) == Some(rest)
    requires forall m | 2 <= m < |order| :: captured.selected[order[m]] == []
    ensures Fits(order, captured, whole)
  {
    forall k | 0 <= k < |order| ensures ShardFits(order[k], captured, whole) {
      if k == 0 {
        assert one <= whole;
      } else if k == 1 {
        assert rest <= whole;
      } else {
        assert Tests([], None) == Some(multiset{});
      }
    }
  }

  /** A test listed twice can be selected by two shards, and the partition is still accepted. */
  lemma ListedTwice(order: seq<string>, planned: set<string>, whole: multiset<string>, lines: seq<Line>, test: string)
    returns (captured: Captured)
    requires IsOrderOf(order, planned) && |order| > 1 && Tests(lines, None) == Some(whole) && whole[test] > 1
    ensures IsExactPartition(order, captured, planned, whole) && Selectors(order, captured.selected, test) == 2
  {
    var one, rest := TakeOne(lines, None, test);
    captured := Divided(order, lines, one, rest);
    DividedReads(order, lines, one, rest);
    var others := Tests(rest, None).value;
    assert whole == multiset{test} + others && others[test] > 0;
    DividedUnion(order, captured.selected, |order|, test);
    assert order[..|order|] == order;
    DividedFits(order, captured, lines, whole, multiset{test}, others);
    assert planned == set n | n in order;
  }

  /**
   With two shards or more, every accepted capture of a suite runs each of its tests in exactly one
   shard, exactly when the suite lists no test twice.
   */
  lemma DisjointExactly(order: seq<string>, planned: set<string>, whole: multiset<string>, lines: seq<Line>)
    requires IsOrderOf(order, planned) && |order| > 1 && Tests(lines, None) == Some(whole)
    ensures (forall captured | IsExactPartition(order, captured, planned, whole) ::
      EachOnce(order, captured, whole)) <==> ListedOnce(whole)
  {
    if ListedOnce(whole) {
      forall captured | IsExactPartition(order, captured, planned, whole) ensures EachOnce(order, captured, whole) {
        assert forall k | 0 <= k < |order| :: ShardFits(order[k], captured, whole);
        forall test | test in whole ensures Selectors(order, captured.selected, test) == 1 {
          AcceptedRunsEachOnce(order, captured, planned, whole, test);
        }
      }
    } else {
      var test :| test in whole && whole[test] != 1;
      var captured := ListedTwice(order, planned, whole, lines, test);
      assert !EachOnce(order, captured, whole);
    }
  }

  const TWICE := [Header("b"), Listed("t"), Listed("t")]
  const ONCE := [Header("b"), Listed("t")]

  /** Both shards select the one test, which the suite lists twice; nothing is missing or over. */
  lemma TwoShardsOneTest()
    ensures var captured := Captured(map["p" := TWICE, "q" := TWICE], map["p" := ONCE, "q" := ONCE]);
      var key := Key("b", "t");
      IsExactPartition(["p", "q"], captured, {"p", "q"}, multiset{key, key}) &&
      Selectors(["p", "q"], captured.selected, key) == 2
  {
    var captured := Captured(map["p" := TWICE, "q" := TWICE], map["p" := ONCE, "q" := ONCE]);
    var key := Key("b", "t");
    ConcreteListings();
    assert ["p", "q"][..1] == ["p"] && ["p"][..0] == [];
    assert Union(["p"], captured.selected) == multiset{} + multiset{key} == multiset{key};
    assert Union(["p", "q"], captured.selected) == multiset{key} + multiset{key} == multiset{key, key};
    assert Selectors(["p"], captured.selected, key) == 1;
  }

  lemma ConcreteListings()
    ensures Tests(TWICE, None) == Some(multiset{Key("b", "t"), Key("b", "t")}) &&
      Tests(ONCE, None) == Some(multiset{Key("b", "t")})
  {
    var key := multiset{Key("b", "t")};
    assert ONCE[1..] == [Listed("t")] && [Listed("t")][1..] == [];
    assert TWICE[1..] == [Listed("t"), Listed("t")] && [Listed("t"), Listed("t")][1..] == [Listed("t")];
    assert Tests([], Some("b")) == Some(multiset{}) && key + multiset{} == key;
    assert Tests([Listed("t")], Some("b")) == Some(key);
    assert key + key == multiset{Key("b", "t"), Key("b", "t")};
  }

  // ----- enumerations produced by the selections themselves are always accepted

  datatype Binary = Binary(name: string, tests: seq<string>)

  function ListTests(tests: seq<string>, args: seq<string>): seq<Line> {
    if tests == [] then []
    else (if Runs(args, tests[0]) then [Listed(tests[0])] else [Other]) + ListTests(tests[1..], args)
  }

  /** What listing the suite with the given test arguments shows; no arguments, the whole suite. */
  function Listing(suite: seq<Binary>, args: seq<string>): seq<Line> {
    if suite == [] then []
    else [Header(suite[0].name)] + (ListTests(suite[0].tests, args) + Listing(suite[1..], args))
  }

  function Picks(binary: string, tests: seq<string>, args: seq<string>): multiset<string> {
    if tests == [] then multiset{}
    else
      var first := if Runs(args, tests[0]) then multiset{Key(binary, tests[0])} else multiset{};
      first + Picks(binary, tests[1..], args)
  }

  function SuitePicks(suite: seq<Binary>, args: seq<string>): multiset<string> {
    if suite == [] then multiset{} else Picks(suite[0].name, suite[0].tests, args) + SuitePicks(suite[1..], args)
  }

  lemma {:induction false} TestsReadBack(tests: seq<string>, args: seq<string>, binary: string, more: seq<Line>)
    requires Tests(more, Some(binary)).Some?
    ensures Tests(ListTests(tests, args) + more, Some(binary)) ==
      Some(Picks(binary, tests, args) + Tests(more, Some(binary)).value)
  {
    var lines := ListTests(tests, args) + more;
    if tests == [] {
      assert lines == more;
      var all := Tests(more, Some(binary)).value;
      assert multiset{} + all == all;
    } else {
      assert lines[1..] == ListTests(tests[1..], args) + more;
      TestsReadBack(tests[1..], args, binary, more);
      var rest, all := Picks(binary, tests[1..], args), Tests(more, Some(binary)).value;
      if Runs(args, tests[0]) {
        assert lines[0] == Listed(tests[0]);
        assert multiset{Key(binary, tests[0])} + (rest + all) == multiset{Key(binary, tests[0])} + rest + all;
      } else {
        assert lines[0] == Other;
        assert multiset{} + rest == rest;
      }
    }
  }

  lemma {:induction false} ListingReadBack(suite: seq<Binary>, args: seq<string>, binary: Option<string>)
    ensures Tests(Listing(suite, args), binary) == Some(SuitePicks(suite, args))
  {
    if suite != [] {
      var lines := Listing(suite, args);
      assert lines[1..] == ListTests(suite[0].tests, args) + Listing(suite[1..], args);
      ListingReadBack(suite[1..], args, Some(suite[0].name));
      TestsReadBack(suite[0].tests, args, suite[0].name, Listing(suite[1..], args));
    }
  }

  function Arguments(partition: seq<Group>, index: nat): seq<string>
    requires WellFormed(partition) && index < |partition|
  {
    ExactlyOneShardRuns(partition, index, "");
    SelectionAt(partition, index).value
  }

  /** The tests whose shard comes before `n`. */
  function PicksBelow(binary: string, tests: seq<string>, partition: seq<Group>, n: nat): multiset<string>
    requires partition != []
  {
    if tests == [] then multiset{}
    else
      var first := if ShardOf(partition, tests[0]) < n then multiset{Key(binary, tests[0])} else multiset{};
      first + PicksBelow(binary, tests[1..], partition, n)
  }

  function SuiteBelow(suite: seq<Binary>, partition: seq<Group>, n: nat): multiset<string>
    requires partition != []
  {
    if suite == [] then multiset{}
    else PicksBelow(suite[0].name, suite[0].tests, partition, n) + SuiteBelow(suite[1..], partition, n)
  }

  lemma {:induction false} PicksStep(binary: string, tests: seq<string>, partition: seq<Group>, n: nat)
    requires WellFormed(partition) && n < |partition|
    ensures PicksBelow(binary, tests, partition, n + 1) ==
      PicksBelow(binary, tests, partition, n) + Picks(binary, tests, Arguments(partition, n))
  {
    if tests != [] {
      PicksStep(binary, tests[1..], partition, n);
      ExactlyOneShardRuns(partition, n, tests[0]);
    }
  }

  lemma {:induction false} SuiteStep(suite: seq<Binary>, partition: seq<Group>, n: nat)
    requires WellFormed(partition) && n < |partition|
    ensures SuiteBelow(suite, partition, n + 1) ==
      SuiteBelow(suite, partition, n) + SuitePicks(suite, Arguments(partition, n))
  {
    if suite != [] {
      SuiteStep(suite[1..], partition, n);
      PicksStep(suite[0].name, suite[0].tests, partition, n);
    }
  }

  lemma {:induction false} PicksEnds(binary: string, tests: seq<string>, partition: seq<Group>)
    requires partition != []
    ensures PicksBelow(binary, tests, partition, 0) == multiset{}
    ensures PicksBelow(binary, tests, partition, |partition|) == Picks(binary, tests, [])
  {
    if tests != [] {
      PicksEnds(binary, tests[1..], partition);
      assert Runs([], tests[0]);
    }
  }

  lemma {:induction false} SuiteEnds(suite: seq<Binary>, partition: seq<Group>)
    requires partition != []
    ensures SuiteBelow(suite, partition, 0) == multiset{}
    ensures SuiteBelow(suite, partition, |partition|) == SuitePicks(suite, [])
  {
    if suite != [] {
      SuiteEnds(suite[1..], partition);
      PicksEnds(suite[0].name, suite[0].tests, partition);
    }
  }

  function Names(partition: seq<Group>): (names: seq<string>)
    ensures |names| == |partition| && forall k | 0 <= k < |names| :: names[k] == partition[k].name
  {
    seq(|partition|, k requires 0 <= k < |partition| => partition[k].name)
  }

  /** Every shard of the partition captured its two listings of the suite. */
  predicate CapturedBySelection(captured: Captured, partition: seq<Group>, suite: seq<Binary>)
    requires WellFormed(partition)
  {
    captured.complete.Keys == captured.selected.Keys == (set n | n in Names(partition)) &&
    forall k | 0 <= k < |partition| ::
      captured.complete[Names(partition)[k]] == Listing(suite, []) &&
      captured.selected[Names(partition)[k]] == Listing(suite, Arguments(partition, k))
  }

  lemma {:induction false} UnionOfShards(captured: Captured, partition: seq<Group>, suite: seq<Binary>, n: nat)
    requires WellFormed(partition) && CapturedBySelection(captured, partition, suite) && n <= |partition|
    ensures AllRead(Names(partition)[..n], captured.selected)
    ensures Union(Names(partition)[..n], captured.selected) == SuiteBelow(suite, partition, n)
  {
    if n == 0 {
      SuiteEnds(suite, partition);
    } else {
      UnionOfShards(captured, partition, suite, n - 1);
      ShardRead(captured, partition, suite, n - 1);
      var own := SuitePicks(suite, Arguments(partition, n - 1));
      assert SuiteBelow(suite, partition, n) == SuiteBelow(suite, partition, n - 1) + own by {
        SuiteStep(suite, partition, n - 1);
      }
      UnionStep(Names(partition), captured.selected, n - 1, SuiteBelow(suite, partition, n - 1), own);
    }
  }

  lemma ShardRead(captured: Captured, partition: seq<Group>, suite: seq<Binary>, k: nat)
    requires WellFormed(partition) && CapturedBySelection(captured, partition, suite) && k < |partition|
    ensures var shard := Names(partition)[k];
      shard in captured.complete && Tests(captured.complete[shard], None) == Some(SuitePicks(suite, [])) &&
      shard in captured.selected &&
      Tests(captured.selected[shard], None) == Some(SuitePicks(suite, Arguments(partition, k)))
  {
    assert Names(partition)[k] in captured.selected.Keys;
    ListingReadBack(suite, [], None);
    ListingReadBack(suite, Arguments(partition, k), None);
  }

  lemma UnionStep(order: seq<string>, selected: map<string, seq<Line>>, k: nat, before: multiset<string>,
      own: multiset<string>)
    requires k < |order| && AllRead(order[..k], selected) && order[k] in selected &&
      Tests(selected[order[k]], None) == Some(own)
    requires Union(order[..k], selected) == before
    ensures AllRead(order[..k + 1], selected) && Union(order[..k + 1], selected) == before + own
  {
    assert order[..k + 1][..k] == order[..k];
  }

  lemma {:induction false} UnionWithout(order: seq<string>, selected: map<string, seq<Line>>, j: nat)
    requires AllRead(order, selected)
    requires j < |order|
    ensures Union(order, selected) ==
      Union(order[..j] + order[j + 1..], selected) + Tests(selected[order[j]], None).value
  {
    var n := |order| - 1;
    var less := order[..j] + order[j + 1..];
    if j == n {
      assert less == order[..n];
    } else {
      assert less[..n - 1] == order[..n][..j] + order[..n][j + 1..];
      assert less[n - 1] == order[n];
      UnionWithout(order[..n], selected, j);
    }
  }

  lemma UnionWithoutLast(order: seq<string>, selected: map<string, seq<Line>>)
    requires AllRead(order, selected) && order != []
    ensures Union(order, selected) ==
      Union(order[..|order| - 1], selected) + Tests(selected[order[|order| - 1]], None).value
  {
  }

  lemma SameWithoutOne(a: seq<string>, b: seq<string>, j: nat)
    requires a != [] && multiset(a) == multiset(b) && j < |b| && b[j] == a[|a| - 1]
    ensures multiset(a[..|a| - 1]) == multiset(b[..j] + b[j + 1..])
  {
    assert a[..|a| - 1] + a[|a| - 1 + 1..] == a[..|a| - 1];
    Removed(a, |a| - 1);
    Removed(b, j);
  }

  /** The union does not depend on the order the shards are visited in. */
  lemma {:induction false} UnionAnyOrder(a: seq<string>, b: seq<string>, selected: map<string, seq<Line>>)
    requires AllRead(a, selected) && AllRead(b, selected)
    requires multiset(a) == multiset(b)
    ensures Union(a, selected) == Union(b, selected)
    decreases |a|
  {
    if a == [] {
      assert |multiset(b)| == |b|;
    } else {
      assert a[|a| - 1] in multiset(b) by { assert a[|a| - 1] in multiset(a); }
      var j :| 0 <= j < |b| && b[j] == a[|a| - 1];
      SameWithoutOne(a, b, j);
      UnionAnyOrder(a[..|a| - 1], b[..j] + b[j + 1..], selected);
      UnionWithout(b, selected, j);
      UnionWithoutLast(a, selected);
    }
  }

  /** A suite with at least one test, listed whole and by selection in every shard, is accepted. */
  lemma SelectionsAreAccepted(order: seq<string>, captured: Captured, partition: seq<Group>, suite: seq<Binary>)
    requires WellFormed(partition) && Distinct(Names(partition)) && CapturedBySelection(captured, partition, suite)
    requires IsOrderOf(order, captured.complete.Keys)
    requires SuitePicks(suite, []) != multiset{}
    ensures IsExactPartition(order, captured, captured.complete.Keys, SuitePicks(suite, []))
  {
    var names, whole, planned := Names(partition), SuitePicks(suite, []), captured.complete.Keys;
    UnionOfShards(captured, partition, suite, |partition|);
    assert names[..|partition|] == names;
    SuiteEnds(suite, partition);
    forall j | 0 <= j < |names| ensures ShardFits(names[j], captured, whole) {
      ShardRead(captured, partition, suite, j);
      UnionWithout(names, captured.selected, j);
    }
    assert names[0] in planned && names[0] in order;
    forall k | 0 <= k < |order| ensures ShardFits(order[k], captured, whole) {
      assert order[k] in planned;
      var j :| 0 <= j < |names| && names[j] == order[k];
    }
    assert forall n :: n in order <==> n in names by { assert forall n :: n in planned <==> n in names; }
    SameContents(order, names);
    UnionAnyOrder(order, names, captured.selected);
  }
}
