/**
 What the shard checker accepts, told by counting lines: how often each test is listed in full, and how
 often in all selections together.
 */
module ShardCounts {
  import opened Common
  import opened TestShards

  // ----- lines and the binaries they stand under

  /** The last header before line `k` names the binary. */
  predicate IsUnder(lines: seq<Line>, k: int, binary: string) {
    exists h | 0 <= h < k && h < |lines| ::
      lines[h] == Header(binary) && forall j | h < j < k && j < |lines| :: !lines[j].Header?
  }

  predicate HasHeaderBefore(lines: seq<Line>, k: int) {
    exists h | 0 <= h < k && h < |lines| :: lines[h].Header?
  }

  /** Line `k` lists the test that the key stands for. */
  ghost predicate Lists(lines: seq<Line>, k: int, key: string) {
    0 <= k < |lines| && lines[k].Listed? &&
    exists binary: string :: IsUnder(lines, k, binary) && key == binary + " :: " + lines[k].test
  }

  ghost function PlacesOf(lines: seq<Line>, key: string): set<nat> {
    set k: nat | k < |lines| && Lists(lines, k, key)
  }

  predicate IsReadable(lines: seq<Line>) {
    forall k | 0 <= k < |lines| && lines[k].Listed? :: HasHeaderBefore(lines, k)
  }

  ghost function PlacesFrom(lines: seq<Line>, start: nat, key: string): set<nat> {
    set k: nat | start <= k < |lines| && Lists(lines, k, key)
  }

  /** The binary named last before line `k`. */
  function BinaryAt(lines: seq<Line>, k: nat): (binary: Option<string>)
    requires k <= |lines|
    ensures binary.None? <==> !HasHeaderBefore(lines, k)
    ensures forall name: string :: binary == Some(name) <==> IsUnder(lines, k, name)
  {
    if k == 0 then None
    else if lines[k - 1].Header? then
      assert IsUnder(lines, k, lines[k - 1].binary);
      Some(lines[k - 1].binary)
    else
      var before := BinaryAt(lines, k - 1);
      assert forall name: string :: IsUnder(lines, k, name) <==> IsUnder(lines, k - 1, name) by {
        SameBinary(lines, k);
      }
      assert HasHeaderBefore(lines, k) <==> HasHeaderBefore(lines, k - 1);
      before
  }

  lemma SameBinary(lines: seq<Line>, k: nat)
    requires 0 < k <= |lines| && !lines[k - 1].Header?
    ensures forall name: string :: IsUnder(lines, k, name) <==> IsUnder(lines, k - 1, name)
  {
    forall name: string ensures IsUnder(lines, k, name) <==> IsUnder(lines, k - 1, name) {
      if IsUnder(lines, k, name) {
        var h :| 0 <= h < k && lines[h] == Header(name) && forall j | h < j < k :: !lines[j].Header?;
        assert h < k - 1;
      }
    }
  }

  lemma ListedKey(lines: seq<Line>, k: nat, key: string)
    requires k < |lines| && lines[k].Listed?
    ensures Lists(lines, k, key) <==> BinaryAt(lines, k).Some? && key == Key(BinaryAt(lines, k).value, lines[k].test)
  {
    var binary := BinaryAt(lines, k);
    if Lists(lines, k, key) {
      var name: string :| IsUnder(lines, k, name) && key == name + " :: " + lines[k].test;
      assert binary == Some(name);
    }
    if binary.Some? { assert IsUnder(lines, k, binary.value); }
  }

  lemma OnePlace(all: set<nat>, rest: set<nat>, start: nat, here: bool)
    requires forall k: nat :: k in all <==> (k == start && here) || k in rest
    requires start !in rest
    ensures |all| == |rest| + if here then 1 else 0
  {
    if here { assert all == rest + {start}; } else { assert all == rest; }
  }

  lemma PlacesStep(lines: seq<Line>, start: nat, key: string)
    requires start < |lines|
    ensures |PlacesFrom(lines, start, key)| ==
      |PlacesFrom(lines, start + 1, key)| + if Lists(lines, start, key) then 1 else 0
  {
    OnePlace(PlacesFrom(lines, start, key), PlacesFrom(lines, start + 1, key), start, Lists(lines, start, key));
  }

  lemma {:induction false} TestsCountFrom(lines: seq<Line>, start: nat, key: string)
    requires start <= |lines|
    ensures Tests(lines[start..], BinaryAt(lines, start)).Some? <==>
      forall k | start <= k < |lines| && lines[k].Listed? :: HasHeaderBefore(lines, k)
    ensures Tests(lines[start..], BinaryAt(lines, start)).Some? ==>
      Tests(lines[start..], BinaryAt(lines, start)).value[key] == |PlacesFrom(lines, start, key)|
    decreases |lines| - start
  {
    if start < |lines| {
      TestsCountFrom(lines, start + 1, key);
      assert lines[start..][1..] == lines[start + 1..];
      PlacesStep(lines, start, key);
      if lines[start].Listed? { ListedKey(lines, start, key); }
    } else {
      assert PlacesFrom(lines, start, key) == {};
    }
  }

  /** A listing is read when each test stands below some header, and each key is counted as often as it is listed. */
  lemma ListingCounts(lines: seq<Line>, key: string)
    ensures Tests(lines, None).Some? <==> IsReadable(lines)
    ensures IsReadable(lines) ==> Tests(lines, None).value[key] == |PlacesOf(lines, key)|
  {
    TestsCountFrom(lines, 0, key);
    assert lines[0..] == lines && BinaryAt(lines, 0) == None;
    assert PlacesFrom(lines, 0, key) == PlacesOf(lines, key);
  }

  // ----- all selections together

  /** The lines of all selections that list the test: the shard's place in the order, and the line's in its listing. */
  ghost function Selected(order: seq<string>, selected: map<string, seq<Line>>, key: string): set<(nat, nat)> {
    set n: nat, k: nat | n < |order| && order[n] in selected && k < |selected[order[n]]| &&
      Lists(selected[order[n]], k, key) :: (n, k)
  }

  ghost function Pairs(n: nat, places: set<nat>): set<(nat, nat)> {
    set k | k in places :: (n, k)
  }

  lemma {:induction false} PairsCount(n: nat, places: set<nat>)
    ensures |Pairs(n, places)| == |places|
    decreases |places|
  {
    if places != {} {
      var one :| one in places;
      PairsCount(n, places - {one});
      assert Pairs(n, places) == Pairs(n, places - {one}) + {(n, one)};
    }
  }

  lemma SelectedSplits(order: seq<string>, selected: map<string, seq<Line>>, key: string, pair: (nat, nat))
    requires order != [] && order[|order| - 1] in selected
    ensures var n := |order| - 1;
      pair in Selected(order, selected, key) <==>
      pair in Selected(order[..n], selected, key) || pair in Pairs(n, PlacesOf(selected[order[n]], key))
  {
    var n := |order| - 1;
    if pair.0 < n { assert order[..n][pair.0] == order[pair.0]; }
  }

  lemma SelectedStep(order: seq<string>, selected: map<string, seq<Line>>, key: string)
    requires order != [] && order[|order| - 1] in selected
    ensures var n := |order| - 1;
      |Selected(order, selected, key)| ==
        |Selected(order[..n], selected, key)| + |PlacesOf(selected[order[n]], key)|
  {
    var n := |order| - 1;
    var before, own := Selected(order[..n], selected, key), Pairs(n, PlacesOf(selected[order[n]], key));
    PairsCount(n, PlacesOf(selected[order[n]], key));
    forall pair ensures pair in Selected(order, selected, key) <==> pair in before || pair in own {
      SelectedSplits(order, selected, key, pair);
    }
    assert Selected(order, selected, key) == before + own;
    assert before !! own;
  }

  lemma {:induction false} UnionCounts(order: seq<string>, selected: map<string, seq<Line>>, key: string)
    requires AllRead(order, selected)
    ensures Union(order, selected)[key] == |Selected(order, selected, key)|
  {
    if order == [] {
      assert Selected(order, selected, key) == {};
    } else {
      UnionCounts(order[..|order| - 1], selected, key);
      SelectedStep(order, selected, key);
      ListingCounts(selected[order[|order| - 1]], key);
    }
  }

  // ----- the theorem

  /** Every listing can be read, the full ones agree and list something, and the selections add up to them. */
  ghost predicate AddsUp(order: seq<string>, captured: Captured, planned: set<string>) {
    order != [] && planned == captured.complete.Keys && planned == captured.selected.Keys &&
    (forall n | 0 <= n < |order| ::
      order[n] in planned && IsReadable(captured.complete[order[n]]) && IsReadable(captured.selected[order[n]])) &&
    (exists k | 0 <= k < |captured.complete[order[0]]| :: captured.complete[order[0]][k].Listed?) &&
    forall key: string :: IsEven(order, captured, key)
  }

  /** The test is listed equally often in every full listing, and as often in all selections together. */
  ghost predicate IsEven(order: seq<string>, captured: Captured, key: string) {
    order != [] && order[0] in captured.complete &&
    var times := |PlacesOf(captured.complete[order[0]], key)|;
    |Selected(order, captured.selected, key)| == times &&
    forall n | 0 <= n < |order| ::
      order[n] in captured.complete && |PlacesOf(captured.complete[order[n]], key)| == times
  }

  lemma SomethingListed(lines: seq<Line>)
    requires IsReadable(lines)
    ensures Tests(lines, None).Some?
    ensures Tests(lines, None).value != multiset{} <==> exists k | 0 <= k < |lines| :: lines[k].Listed?
  {
    ListingCounts(lines, "");
    var tests := Tests(lines, None).value;
    if tests != multiset{} {
      var key :| key in tests;
      ListingCounts(lines, key);
      var k :| k in PlacesOf(lines, key);
    }
    if k :| 0 <= k < |lines| && lines[k].Listed? {
      assert HasHeaderBefore(lines, k);
      var key := Key(BinaryAt(lines, k).value, lines[k].test);
      ListedKey(lines, k, key);
      ListingCounts(lines, key);
      assert k in PlacesOf(lines, key);
    }
  }

  lemma ExactAddsUp(order: seq<string>, captured: Captured, planned: set<string>, whole: multiset<string>)
    requires IsOrderOf(order, captured.complete.Keys) && IsExactPartition(order, captured, planned, whole)
    ensures AddsUp(order, captured, planned)
  {
    forall n | 0 <= n < |order|
      ensures order[n] in planned && Tests(captured.complete[order[n]], None) == Some(whole) &&
        IsReadable(captured.complete[order[n]]) && IsReadable(captured.selected[order[n]]) {
      assert ShardFits(order[n], captured, whole);
      ListingCounts(captured.complete[order[n]], "");
      ListingCounts(captured.selected[order[n]], "");
    }
    SomethingListed(captured.complete[order[0]]);
    forall key: string ensures IsEven(order, captured, key) {
      UnionCounts(order, captured.selected, key);
      forall n | 0 <= n < |order| ensures |PlacesOf(captured.complete[order[n]], key)| == whole[key] {
        ListingCounts(captured.complete[order[n]], key);
      }
    }
  }

  lemma AddedUpIsExact(order: seq<string>, captured: Captured, planned: set<string>) returns (whole: multiset<string>)
    requires IsOrderOf(order, captured.complete.Keys) && AddsUp(order, captured, planned)
    ensures IsExactPartition(order, captured, planned, whole)
  {
    SomethingListed(captured.complete[order[0]]);
    whole := Tests(captured.complete[order[0]], None).value;
    forall n | 0 <= n < |order| ensures Tests(captured.selected[order[n]], None).Some? {
      ListingCounts(captured.selected[order[n]], "");
    }
    forall key: string ensures Union(order, captured.selected)[key] == whole[key] {
      assert IsEven(order, captured, key);
      UnionCounts(order, captured.selected, key);
      ListingCounts(captured.complete[order[0]], key);
    }
    assert Union(order, captured.selected) == whole;
    forall n | 0 <= n < |order| ensures ShardFits(order[n], captured, whole) {
      SameWhole(order, captured, planned, n, whole);
      PartOfUnion(order, captured.selected, n);
    }
  }

  lemma SameWhole(order: seq<string>, captured: Captured, planned: set<string>, n: nat, whole: multiset<string>)
    requires AddsUp(order, captured, planned) && n < |order|
    requires Tests(captured.complete[order[0]], None) == Some(whole)
    ensures Tests(captured.complete[order[n]], None) == Some(whole)
  {
    ListingCounts(captured.complete[order[n]], "");
    var other := Tests(captured.complete[order[n]], None).value;
    forall key: string ensures other[key] == whole[key] {
      assert IsEven(order, captured, key);
      ListingCounts(captured.complete[order[n]], key);
      ListingCounts(captured.complete[order[0]], key);
    }
    assert other == whole;
  }

  lemma {:induction false} PartOfUnion(order: seq<string>, selected: map<string, seq<Line>>, n: nat)
    requires AllRead(order, selected) && n < |order|
    ensures Tests(selected[order[n]], None).value <= Union(order, selected)
  {
    if n < |order| - 1 {
      assert order[..|order| - 1][n] == order[n];
      PartOfUnion(order[..|order| - 1], selected, n);
    }
  }

  /** The checker proves a partition exact just when the lines add up. */
  lemma ExactlyWhenLinesAddUp(order: seq<string>, captured: Captured, planned: set<string>)
    requires IsOrderOf(order, captured.complete.Keys)
    ensures (exists whole :: IsExactPartition(order, captured, planned, whole)) <==> AddsUp(order, captured, planned)
  {
    if whole :| IsExactPartition(order, captured, planned, whole) { ExactAddsUp(order, captured, planned, whole); }
    if AddsUp(order, captured, planned) {
      var whole := AddedUpIsExact(order, captured, planned);
    }
  }
}
