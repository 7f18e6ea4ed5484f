/** Producer against verifier: exactly which generated bundles pass the independent recounts. */
module SbomAgreement {
  import opened Common
  import opened DependencyGraph
  import opened SbomBundle

  predicate IsOrderOf(order: seq<PackageKey>, keys: seq<PackageKey>) {
    Distinct(order) && (forall k | 0 <= k < |order| :: order[k] in keys) && forall k | 0 <= k < |keys| ::
      keys[k] in order
  }

  function NodeOf(graph: Graph, key: PackageKey): set<PackageKey> {
    if key in graph then graph[key] else {}
  }

  /** The last entry of that very key. */
  function KeyChecksum(packages: seq<Package>, key: PackageKey): Option<string> {
    if packages == [] then None
    else
      var last := packages[|packages| - 1];
      if last.key == key then last.checksum else KeyChecksum(packages[..|packages| - 1], key)
  }

  function AsHashes(checksum: Option<string>): set<string> {
    if checksum.Some? && checksum.value != "" then {checksum.value} else {}
  }

  function WorkspaceOf(keys: seq<PackageKey>, members: set<(string, string)>): set<PackageKey> {
    set key | key in keys && key.source.None? && (key.name, key.version) in members
  }

  function DirectOf(graph: Graph, workspace: set<PackageKey>): set<PackageKey> {
    set owner, key | owner in workspace && key in NodeOf(graph, owner) && key !in workspace :: key
  }

  /** The view that generate builds of a lockfile, of the workspace's members and of the licence material. */
  predicate IsViewOf(v: View, packages: seq<Package>, members: set<(string, string)>) {
    var keys, graph := KeysOf(packages), LockGraph(packages);
    v.workspace == WorkspaceOf(keys, members) && v.direct == DirectOf(graph, v.workspace) &&
    forall k | 0 <= k < |keys| ::
      v.ref(keys[k]) == BomRef(keys[k]) && v.id(keys[k]) == PackageId(keys[k]) &&
      v.source(keys[k]) == SourceType(keys[k], v.workspace) && v.targets(keys[k]) == NodeOf(graph, keys[k]) &&
      v.checksums(keys[k]) == AsHashes(KeyChecksum(packages, keys[k]))
  }

  // ----- references and ids

  function Refs(v: View, keys: seq<PackageKey>): seq<string> {
    Mapped(v.ref, keys)
  }

  function Ids(v: View, keys: seq<PackageKey>): seq<string> {
    Mapped(v.id, keys)
  }

  lemma ComponentRefs(v: View, order: seq<PackageKey>)
    ensures RefsIn(Components(v, order)) == set r | r in Refs(v, order)
    ensures |RefsIn(Components(v, order))| == |order| <==> Distinct(Refs(v, order))
    ensures |Components(v, order)| == |order| == |Relations(v, order)|
  {
    var components, refs := Components(v, order), Refs(v, order);
    assert forall k | 0 <= k < |order| :: components[k].ref == refs[k];
    forall r | r in refs ensures r in RefsIn(components) {
      var k :| 0 <= k < |refs| && refs[k] == r;
      assert components[k].ref == r;
    }
    DistinctByCount(refs);
  }

  lemma ComponentIds(v: View, order: seq<PackageKey>)
    ensures IdsIn(Components(v, order)) == set id | id in Ids(v, order)
    ensures |IdsIn(Components(v, order))| >= |order| ==> Distinct(Ids(v, order))
  {
    var components, ids := Components(v, order), Ids(v, order);
    assert forall k | 0 <= k < |order| :: components[k].id == ids[k];
    forall id | id in ids ensures id in IdsIn(components) {
      var k :| 0 <= k < |ids| && ids[k] == id;
      assert components[k].id == id;
    }
    DistinctByCount(ids);
  }

  lemma SameLength(order: seq<PackageKey>, keys: seq<PackageKey>)
    requires IsOrderOf(order, keys)
    ensures |order| == |keys| <==> Distinct(keys)
  {
    assert (set key | key in order) == (set key | key in keys);
    DistinctByCount(order);
    DistinctByCount(keys);
  }

  predicate IsClosed(v: View, order: seq<PackageKey>) {
    forall k | 0 <= k < |order| :: forall target | target in v.targets(order[k]) :: target in order
  }

  lemma RelationRefs(v: View, order: seq<PackageKey>, k: nat)
    requires IsClosed(v, order) && k < |order|
    ensures var one, refs := RelationOf(v, order[k]), set r | r in Refs(v, order);
      one.ref in refs && one.dependsOn <= refs
  {
    assert Refs(v, order)[k] == v.ref(order[k]);
    forall target | target in v.targets(order[k]) ensures v.ref(target) in Refs(v, order) {
      var j :| 0 <= j < |order| && order[j] == target;
      assert Refs(v, order)[j] == v.ref(target);
    }
  }

  lemma SoundRefs(v: View, order: seq<PackageKey>, b: Bundle, packages: seq<Package>)
    requires b.components == Components(v, order) && b.relations == Relations(v, order)
    requires IsClosed(v, order)
    ensures RefsAreSound(b, packages) <==> |order| == |packages| && Distinct(Refs(v, order))
  {
    ComponentRefs(v, order);
    forall k | 0 <= k < |b.relations|
      ensures b.relations[k].ref in RefsIn(b.components) && b.relations[k].dependsOn <= RefsIn(b.components)
    {
      RelationRefs(v, order, k);
    }
  }

  // ----- checksums

  lemma {:induction false} ChecksumById(packages: seq<Package>, key: PackageKey)
    requires forall k | 0 <= k < |packages| :: PackageId(packages[k].key) == PackageId(key) ==> packages[k].key == key
    ensures LockedChecksum(packages, PackageId(key)) == KeyChecksum(packages, key)
  {
    if packages != [] {
      assert packages[|packages| - 1].key == key || PackageId(packages[|packages| - 1].key) != PackageId(key);
      ChecksumById(packages[..|packages| - 1], key);
    }
  }

  // ----- relationships, once references and ids are told apart

  lemma {:induction false} RelationMapAt(v: View, order: seq<PackageKey>)
    requires Distinct(Refs(v, order))
    ensures RelationMap(Relations(v, order)).Keys == set r | r in Refs(v, order)
    ensures forall k | 0 <= k < |order| ::
      v.ref(order[k]) in RelationMap(Relations(v, order)) &&
      RelationMap(Relations(v, order))[v.ref(order[k])] == RelationOf(v, order[k]).dependsOn
  {
    if order != [] {
      var n := |order| - 1;
      var init := order[..n];
      RelationInit(v, order);
      RelationMapAt(v, init);
      assert forall k | 0 <= k < n :: init[k] == order[k] && Refs(v, order)[k] == v.ref(order[k]);
      assert Refs(v, order)[n] == v.ref(order[n]);
    }
  }

  lemma RelationInit(v: View, order: seq<PackageKey>)
    requires order != []
    ensures var n := |order| - 1;
      Refs(v, order) == Refs(v, order[..n]) + [v.ref(order[n])] &&
      RelationMap(Relations(v, order)) ==
        RelationMap(Relations(v, order[..n]))[v.ref(order[n]) := RelationOf(v, order[n]).dependsOn]
  {
    var n := |order| - 1;
    assert Relations(v, order)[..n] == Relations(v, order[..n]);
  }

  lemma {:induction false} RefByIdAt(v: View, order: seq<PackageKey>)
    requires Distinct(Ids(v, order))
    ensures forall id :: id in RefById(Components(v, order)) <==> id in Ids(v, order)
    ensures forall k | 0 <= k < |order| :: At(RefById(Components(v, order)), v.id(order[k])) == v.ref(order[k])
  {
    if order != [] {
      var n := |order| - 1;
      var init := order[..n];
      assert Components(v, order)[..n] == Components(v, init);
      assert Ids(v, order) == Ids(v, init) + [v.id(order[n])];
      RefByIdAt(v, init);
      assert forall k | 0 <= k < n :: init[k] == order[k] && Ids(v, order)[k] == v.id(order[k]) == Ids(v, init)[k];
      assert Ids(v, order)[n] == v.id(order[n]);
    }
  }

  /** Adding one key's references to the expected relationships. */
  lemma ExpectedStep(refs: map<string, string>, ref: PackageKey -> string, keys: seq<PackageKey>, graph: Graph)
    requires keys != [] && At(refs, PackageId(keys[|keys| - 1])) == ref(keys[|keys| - 1])
    ensures var n := |keys| - 1;
      ExpectedMap(refs, keys, graph) ==
        ExpectedMap(refs, keys[..n], graph)[ref(keys[n]) := RefsAt(refs, NodeOf(graph, keys[n]))]
  {
  }

  lemma {:induction false} ExpectedMapKeys(
    refs: map<string, string>, ref: PackageKey -> string, keys: seq<PackageKey>, graph: Graph)
    requires forall k | 0 <= k < |keys| :: At(refs, PackageId(keys[k])) == ref(keys[k])
    ensures ExpectedMap(refs, keys, graph).Keys == set r | r in Mapped(ref, keys)
  {
    if keys != [] {
      var n := |keys| - 1;
      ExpectedMapKeys(refs, ref, keys[..n], graph);
      ExpectedStep(refs, ref, keys, graph);
      assert Mapped(ref, keys) == Mapped(ref, keys[..n]) + [ref(keys[n])];
    }
  }

  /** The expected relationships, when looking a reference up by id gives the key's own. */
  lemma {:induction false} ExpectedMapAt(
    refs: map<string, string>, ref: PackageKey -> string, keys: seq<PackageKey>, graph: Graph)
    requires Distinct(Mapped(ref, keys)) && forall k | 0 <= k < |keys| :: At(refs, PackageId(keys[k])) == ref(keys[k])
    ensures forall k | 0 <= k < |keys| ::
      ref(keys[k]) in ExpectedMap(refs, keys, graph) &&
      ExpectedMap(refs, keys, graph)[ref(keys[k])] == RefsAt(refs, NodeOf(graph, keys[k]))
  {
    if keys != [] {
      var n := |keys| - 1;
      var init := keys[..n];
      ImagesInit(ref, keys);
      ExpectedMapAt(refs, ref, init, graph);
      ExpectedStep(refs, ref, keys, graph);
      forall k | 0 <= k < n ensures ref(keys[k]) in ExpectedMap(refs, init, graph) && ref(keys[k]) != ref(keys[n]) {
        assert init[k] == keys[k];
        assert Mapped(ref, keys)[k] != Mapped(ref, keys)[n];
      }
    }
  }

  lemma ImagesInit(ref: PackageKey -> string, keys: seq<PackageKey>)
    requires keys != [] && Distinct(Mapped(ref, keys))
    ensures var n := |keys| - 1;
      Mapped(ref, keys) == Mapped(ref, keys[..n]) + [ref(keys[n])] && Distinct(Mapped(ref, keys[..n]))
  {
    var n := |keys| - 1;
    assert forall k | 0 <= k < n :: Mapped(ref, keys[..n])[k] == Mapped(ref, keys)[k];
  }

  lemma KeysLookUp(v: View, order: seq<PackageKey>, keys: seq<PackageKey>)
    requires IsOrderOf(order, keys) && Distinct(Ids(v, order))
    requires forall k | 0 <= k < |keys| :: v.id(keys[k]) == PackageId(keys[k])
    ensures forall key | key in keys :: At(RefById(Components(v, order)), PackageId(key)) == v.ref(key)
  {
    RefByIdAt(v, order);
    forall key | key in keys ensures At(RefById(Components(v, order)), PackageId(key)) == v.ref(key) {
      var k :| 0 <= k < |order| && order[k] == key;
      var j :| 0 <= j < |keys| && keys[j] == key;
      assert v.id(keys[j]) == PackageId(keys[j]);
    }
  }

  lemma EqualMaps(v: View, order: seq<PackageKey>, a: map<string, set<string>>, b: map<string, set<string>>)
    requires a.Keys == (set r | r in Refs(v, order)) && b.Keys == set r | r in Refs(v, order)
    requires forall k | 0 <= k < |order| ::
      v.ref(order[k]) in a && v.ref(order[k]) in b && a[v.ref(order[k])] == b[v.ref(order[k])]
    ensures a == b
  {
    forall r | r in a ensures a[r] == b[r] {
      var k :| 0 <= k < |order| && Refs(v, order)[k] == r;
    }
  }

  lemma SameRelationships(v: View, order: seq<PackageKey>, keys: seq<PackageKey>, graph: Graph)
    requires IsOrderOf(order, keys) && Distinct(keys) && IsClosed(v, order)
    requires Distinct(Refs(v, order)) && Distinct(Ids(v, order))
    requires forall k | 0 <= k < |keys| ::
      v.id(keys[k]) == PackageId(keys[k]) && v.targets(keys[k]) == NodeOf(graph, keys[k])
    ensures RelationMap(Relations(v, order)) == ExpectedMap(RefById(Components(v, order)), keys, graph)
  {
    var refs := RefById(Components(v, order));
    KeysLookUp(v, order, keys);
    RelationMapAt(v, order);
    SameExpected(v, order, keys, graph, refs, RelationMap(Relations(v, order)));
  }

  lemma SameExpected(
    v: View, order: seq<PackageKey>, keys: seq<PackageKey>, graph: Graph, refs: map<string, string>,
      observed: map<string, set<string>>)
    requires IsOrderOf(order, keys) && Distinct(keys) && IsClosed(v, order) && Distinct(Refs(v, order))
    requires forall key | key in keys :: At(refs, PackageId(key)) == v.ref(key)
    requires forall k | 0 <= k < |keys| :: v.targets(keys[k]) == NodeOf(graph, keys[k])
    requires observed.Keys == set r | r in Refs(v, order)
    requires forall k | 0 <= k < |order| ::
      v.ref(order[k]) in observed && observed[v.ref(order[k])] == RelationOf(v, order[k]).dependsOn
    ensures observed == ExpectedMap(refs, keys, graph)
  {
    DistinctImages(v.ref, order, keys);
    ExpectedMapKeys(refs, v.ref, keys, graph);
    ExpectedMapAt(refs, v.ref, keys, graph);
    SameImageSet(v.ref, order, keys);
    var expected := ExpectedMap(refs, keys, graph);
    forall k | 0 <= k < |order|
      ensures v.ref(order[k]) in expected && observed[v.ref(order[k])] == expected[v.ref(order[k])]
    {
      SameTargets(v, order, keys, graph, refs, k);
      assert order[k] in keys;
      var j :| 0 <= j < |keys| && keys[j] == order[k];
      assert v.ref(keys[j]) in expected;
    }
    EqualMaps(v, order, observed, expected);
  }

  lemma SameTargets(v: View, order: seq<PackageKey>, keys: seq<PackageKey>, graph: Graph, refs: map<string, string>,
      k: nat)
    requires IsOrderOf(order, keys) && IsClosed(v, order) && k < |order|
    requires forall key | key in keys :: At(refs, PackageId(key)) == v.ref(key)
    requires forall k | 0 <= k < |keys| :: v.targets(keys[k]) == NodeOf(graph, keys[k])
    ensures RelationOf(v, order[k]).dependsOn == RefsAt(refs, NodeOf(graph, order[k]))
  {
    assert order[k] in keys;
    var j :| 0 <= j < |keys| && keys[j] == order[k];
    assert v.targets(keys[j]) == NodeOf(graph, keys[j]);
    forall target | target in NodeOf(graph, order[k]) ensures At(refs, PackageId(target)) == v.ref(target) {
      assert target in order;
    }
  }

  lemma SameImageSet(f: PackageKey -> string, a: seq<PackageKey>, b: seq<PackageKey>)
    requires IsOrderOf(a, b)
    ensures (set y | y in Mapped(f, a)) == (set y | y in Mapped(f, b))
  {
    forall y | y in Mapped(f, a) ensures y in Mapped(f, b) {
      var k :| 0 <= k < |a| && f(a[k]) == y;
      var j :| 0 <= j < |b| && b[j] == a[k];
      assert Mapped(f, b)[j] == y;
    }
    forall y | y in Mapped(f, b) ensures y in Mapped(f, a) {
      var k :| 0 <= k < |b| && f(b[k]) == y;
      var j :| 0 <= j < |a| && a[j] == b[k];
      assert Mapped(f, a)[j] == y;
    }
  }

  lemma DistinctImages(f: PackageKey -> string, a: seq<PackageKey>, b: seq<PackageKey>)
    requires IsOrderOf(a, b) && Distinct(b) && Distinct(Mapped(f, a))
    ensures Distinct(Mapped(f, b))
  {
    SameImageSet(f, a, b);
    SameLength(a, b);
    DistinctByCount(Mapped(f, a));
    DistinctByCount(Mapped(f, b));
  }

  // ----- ids that two packages share are noticed

  lemma {:induction false} ImageNotLarger(refs: map<string, string>, ids: set<string>)
    ensures |set id | id in ids :: At(refs, id)| <= |ids|
    decreases |ids|
  {
    if ids != {} {
      var one :| one in ids;
      ImageNotLarger(refs, ids - {one});
      assert (set id | id in ids :: At(refs, id)) == (set id | id in ids - {one} :: At(refs, id)) + {At(refs, one)};
    }
  }

  lemma {:induction false} ExpectedKeys(refs: map<string, string>, keys: seq<PackageKey>, graph: Graph,
      ids: set<string>)
    requires forall k | 0 <= k < |keys| :: PackageId(keys[k]) in ids
    ensures ExpectedMap(refs, keys, graph).Keys <= set id | id in ids :: At(refs, id)
  {
    if keys != [] {
      assert PackageId(keys[|keys| - 1]) in ids;
      ExpectedKeys(refs, keys[..|keys| - 1], graph, ids);
    }
  }

  lemma SharedIdIsNoticed(v: View, order: seq<PackageKey>, packages: seq<Package>)
    requires Distinct(Refs(v, order))
    requires IdsIn(Components(v, order)) == LockedIds(packages)
    requires RelationMap(Relations(v, order)) ==
      ExpectedMap(RefById(Components(v, order)), KeysOf(packages), LockGraph(packages))
    ensures Distinct(Ids(v, order))
  {
    var refs, ids := RefById(Components(v, order)), LockedIds(packages);
    RelationMapAt(v, order);
    DistinctByCount(Refs(v, order));
    assert |RelationMap(Relations(v, order)).Keys| == |order|;
    forall k | 0 <= k < |packages| ensures PackageId(KeysOf(packages)[k]) in ids { }
    ExpectedKeys(refs, KeysOf(packages), LockGraph(packages), ids);
    ImageNotLarger(refs, ids);
    NotLarger(ExpectedMap(refs, KeysOf(packages), LockGraph(packages)).Keys, set id | id in ids :: At(refs, id));
    ComponentIds(v, order);
  }

  lemma {:induction false} NotLarger(a: set<string>, b: set<string>)
    requires a <= b
    ensures |a| <= |b|
  {
    assert b == a + (b - a);
  }

  // ----- the counts

  lemma ScopeCount(v: View, order: seq<PackageKey>, scope: string)
    requires Distinct(order)
    ensures multiset(Mapped(ScopeIn, Components(v, order)))[scope] == |Scoped(v, order, scope)|
  {
    var f := (key: PackageKey) => ScopeOf(v, key);
    assert Mapped(ScopeIn, Components(v, order)) == Mapped(f, order);
    ImageCount(f, order, scope);
    assert Preimage(f, order, scope) == Scoped(v, order, scope);
  }

  lemma ScopesCounted(v: View, order: seq<PackageKey>)
    requires Distinct(order) && v.workspace * v.direct == {}
    requires (forall key | key in v.workspace :: key in order) && forall key | key in v.direct :: key in order
    ensures var scopes := multiset(Mapped(ScopeIn, Components(v, order)));
      scopes["workspace"] == |v.workspace| && scopes["direct"] == |v.direct| &&
      scopes["transitive"] == |order| - |v.workspace| - |v.direct|
  {
    ScopeCount(v, order, "workspace");
    ScopeCount(v, order, "direct");
    ScopeCount(v, order, "transitive");
    ScopeSets(v, order);
  }

  function Scoped(v: View, order: seq<PackageKey>, scope: string): set<PackageKey> {
    set key | key in order && ScopeOf(v, key) == scope
  }

  lemma ScopeMeans(v: View, key: PackageKey)
    requires v.workspace * v.direct == {}
    ensures ScopeOf(v, key) == "workspace" <==> key in v.workspace
    ensures ScopeOf(v, key) == "direct" <==> key in v.direct
    ensures ScopeOf(v, key) == "transitive" <==> key !in v.workspace && key !in v.direct
  {
    assert key in v.workspace && key in v.direct ==> key in v.workspace * v.direct;
    assert "workspace"[0] == 'w' && "direct"[0] == 'd' && "transitive"[0] == 't';
  }

  lemma ScopeSets(v: View, order: seq<PackageKey>)
    requires Distinct(order) && v.workspace * v.direct == {}
    requires (forall key | key in v.workspace :: key in order) && forall key | key in v.direct :: key in order
    ensures Scoped(v, order, "workspace") == v.workspace && Scoped(v, order, "direct") == v.direct
    ensures |Scoped(v, order, "transitive")| == |order| - |v.workspace| - |v.direct|
  {
    var all := set key | key in order;
    forall key ensures ScopeOf(v, key) == "workspace" <==> key in v.workspace { ScopeMeans(v, key); }
    forall key ensures ScopeOf(v, key) == "direct" <==> key in v.direct { ScopeMeans(v, key); }
    forall key
      ensures ScopeOf(v, key) == "transitive" <==> key !in v.workspace && key !in v.direct
    {
      ScopeMeans(v, key);
    }
    assert Scoped(v, order, "workspace") == v.workspace;
    assert Scoped(v, order, "direct") == v.direct;
    assert Scoped(v, order, "transitive") == all - v.workspace - v.direct;
    DistinctByCount(order);
    Parts(all, v.workspace, v.direct);
  }

  lemma Parts(all: set<PackageKey>, a: set<PackageKey>, b: set<PackageKey>)
    requires a <= all && b <= all && a * b == {}
    ensures |all - a - b| == |all| - |a| - |b|
  {
    assert all == (all - a - b) + (a + b);
    assert |a + b| == |a| + |b|;
  }

  lemma CountsAgree(v: View, order: seq<PackageKey>, b: Bundle, packages: seq<Package>)
    requires b.components == Components(v, order) && b.counts == CountsOf(v, order) && |order| == |packages|
    requires Distinct(order) && v.workspace * v.direct == {}
    requires (forall key | key in v.workspace :: key in order) && forall key | key in v.direct :: key in order
    ensures CountsMatch(b, packages)
  {
    ScopesCounted(v, order);
    assert Mapped(SourceIn, b.components) == Mapped(v.source, order);
  }

  // ----- licences and their texts

  lemma LicencesAgree(v: View, order: seq<PackageKey>, b: Bundle)
    requires IsAssembled(v, order, b)
    ensures LicencesMatch(b, v.hash)
  {
    var third := ThirdParty(v, order);
    assert Mapped(ClassIn, b.licences) == Mapped(v.classify, third);
    ThirdPartyAgree(v, order);
    PairsAgree(v, third);
    forall digest | digest in b.texts ensures b.texts[digest].packages <= ThirdPartyIds(b.components) {
      CarriersAreListed(v, third, digest);
    }
  }

  lemma CarriersAreListed(v: View, keys: seq<PackageKey>, digest: string)
    ensures CarriersOf(PairsOf(v, keys), digest) <= LicenceIds(LicencesOf(v, keys))
  {
    forall id | id in CarriersOf(PairsOf(v, keys), digest) ensures id in LicenceIds(LicencesOf(v, keys)) {
      var key :| key in keys && digest in HashesOf(v, key) && v.id(key) == id;
      var k :| 0 <= k < |keys| && keys[k] == key;
      assert LicencesOf(v, keys)[k].id == id;
    }
  }

  lemma PairsAgree(v: View, keys: seq<PackageKey>)
    ensures PairsIn(LicencesOf(v, keys)) == PairsOf(v, keys)
  {
    var licences := LicencesOf(v, keys);
    assert forall k | 0 <= k < |keys| :: licences[k] == LicenceOf(v, keys[k]);
    forall pair | pair in PairsIn(licences) ensures pair in PairsOf(v, keys) {
      var k :| 0 <= k < |licences| && pair.0 in licences[k].hashes && pair.1 == licences[k].id;
      assert keys[k] in keys;
    }
    forall pair | pair in PairsOf(v, keys) ensures pair in PairsIn(licences) {
      var key :| key in keys && pair.0 in HashesOf(v, key) && pair.1 == v.id(key);
      var k :| 0 <= k < |keys| && keys[k] == key;
      assert pair.0 in licences[k].hashes;
    }
  }

  lemma ThirdPartyAgree(v: View, order: seq<PackageKey>)
    ensures LicenceIds(LicencesOf(v, ThirdParty(v, order))) == ThirdPartyIds(Components(v, order))
  {
    var third, components := ThirdParty(v, order), Components(v, order);
    var licences := LicencesOf(v, third);
    forall id | id in LicenceIds(licences) ensures id in ThirdPartyIds(components) {
      var k :| 0 <= k < |licences| && licences[k].id == id;
      assert third[k] in third;
      var j :| 0 <= j < |order| && order[j] == third[k];
      assert components[j].id == id && components[j].scope != "workspace";
    }
    forall id | id in ThirdPartyIds(components) ensures id in LicenceIds(licences) {
      var j :| 0 <= j < |components| && components[j].scope != "workspace" && components[j].id == id;
      assert order[j] in third;
      var k :| 0 <= k < |third| && third[k] == order[j];
      assert licences[k].id == id;
    }
  }

  // ----- the agreement

  lemma ViewIsClosed(v: View, packages: seq<Package>, members: set<(string, string)>, order: seq<PackageKey>)
    requires IsViewOf(v, packages, members) && IsOrderOf(order, KeysOf(packages))
    ensures IsClosed(v, order) && v.workspace * v.direct == {}
    ensures forall key | key in v.workspace :: key in order
    ensures forall key | key in v.direct :: key in order
  {
    var keys, graph := KeysOf(packages), LockGraph(packages);
    GraphIsClosed(packages);
    forall key | key in keys ensures key in order { }
    forall k, target | 0 <= k < |order| && target in v.targets(order[k]) ensures target in order {
      assert order[k] in keys;
      var j :| 0 <= j < |keys| && keys[j] == order[k];
      assert v.targets(keys[j]) == NodeOf(graph, keys[j]);
    }
    forall key | key in v.direct ensures key in order {
      var owner :| owner in v.workspace && key in NodeOf(graph, owner);
    }
  }

  lemma ChecksumsFit(v: View, packages: seq<Package>, members: set<(string, string)>, order: seq<PackageKey>)
    requires IsViewOf(v, packages, members) && IsOrderOf(order, KeysOf(packages)) && Distinct(Ids(v, order))
    ensures forall k | 0 <= k < |order| :: ChecksumFits(Components(v, order)[k], packages)
  {
    var keys := KeysOf(packages);
    forall k | 0 <= k < |order| ensures ChecksumFits(Components(v, order)[k], packages) {
      assert order[k] in keys;
      var j :| 0 <= j < |keys| && keys[j] == order[k];
      assert v.id(keys[j]) == PackageId(keys[j]) && v.checksums(keys[j]) == AsHashes(KeyChecksum(packages, keys[j]));
      forall i | 0 <= i < |packages|
        ensures PackageId(packages[i].key) == PackageId(order[k]) ==> packages[i].key == order[k]
      {
        assert keys[i] in order && v.id(keys[i]) == PackageId(keys[i]);
        SameIdSameKey(v, order, keys[i], order[k]);
      }
      ChecksumById(packages, order[k]);
    }
  }

  lemma SameIdSameKey(v: View, order: seq<PackageKey>, a: PackageKey, b: PackageKey)
    requires Distinct(Ids(v, order)) && a in order && b in order
    ensures v.id(a) == v.id(b) ==> a == b
  {
    var i :| 0 <= i < |order| && order[i] == a;
    var j :| 0 <= j < |order| && order[j] == b;
    assert Ids(v, order)[i] == v.id(a) && Ids(v, order)[j] == v.id(b);
  }

  lemma IdsAgree(v: View, packages: seq<Package>, members: set<(string, string)>, order: seq<PackageKey>)
    requires IsViewOf(v, packages, members) && IsOrderOf(order, KeysOf(packages))
    ensures IdsIn(Components(v, order)) == LockedIds(packages)
  {
    var keys := KeysOf(packages);
    ComponentIds(v, order);
    SameImageSet(v.id, order, keys);
    forall id | id in LockedIds(packages) ensures id in Mapped(v.id, keys) {
      var k :| 0 <= k < |packages| && PackageId(packages[k].key) == id;
      assert v.id(keys[k]) == PackageId(keys[k]);
      assert Mapped(v.id, keys)[k] == id;
    }
    forall id | id in Mapped(v.id, keys) ensures id in LockedIds(packages) {
      var k :| 0 <= k < |keys| && Mapped(v.id, keys)[k] == id;
      assert v.id(keys[k]) == PackageId(packages[k].key);
    }
  }

  /** What a lockfile has to observe for its bundle to be verifiable at all. */
  ghost predicate IsVerifiable(packages: seq<Package>, v: View, order: seq<PackageKey>) {
    Distinct(KeysOf(packages)) && Distinct(Refs(v, order)) && Distinct(Ids(v, order)) && IsFullyResolved(packages)
  }

  lemma VerifiableIsAccepted(
    v: View, packages: seq<Package>, members: set<(string, string)>, order: seq<PackageKey>, b: Bundle)
    requires IsViewOf(v, packages, members) && IsOrderOf(order, KeysOf(packages)) && IsAssembled(v, order, b)
    requires IsVerifiable(packages, v, order)
    ensures IsAccepted(b, packages, v.hash)
  {
    ViewIsClosed(v, packages, members, order);
    SameLength(order, KeysOf(packages));
    SoundRefs(v, order, b, packages);
    IdsAgree(v, packages, members, order);
    ChecksumsFit(v, packages, members, order);
    NoErrorsMeansUnique(packages);
    SameRelationships(v, order, KeysOf(packages), LockGraph(packages));
    CountsAgree(v, order, b, packages);
    LicencesAgree(v, order, b);
  }

  /**
   Producer and verifier agree: what generate writes for a lockfile passes every recount exactly when
   keys, component references and package ids are all distinct and every dependency record resolves.
   */
  lemma GeneratedIsAccepted(
    v: View, packages: seq<Package>, members: set<(string, string)>, order: seq<PackageKey>, b: Bundle)
    requires IsViewOf(v, packages, members) && IsOrderOf(order, KeysOf(packages)) && IsAssembled(v, order, b)
    ensures IsAccepted(b, packages, v.hash) <==> IsVerifiable(packages, v, order)
  {
    if IsAccepted(b, packages, v.hash) {
      ViewIsClosed(v, packages, members, order);
      SoundRefs(v, order, b, packages);
      SameLength(order, KeysOf(packages));
      SharedIdIsNoticed(v, order, packages);
      NoErrorsMeansUnique(packages);
    } else if IsVerifiable(packages, v, order) {
      VerifiableIsAccepted(v, packages, members, order, b);
    }
  }

  // ----- names that tell packages apart

  /** As crates are named and versioned: nothing that the spellings use to separate their parts. */
  predicate IsOrdinary(key: PackageKey) {
    ' ' !in key.name && '@' !in key.name && ' ' !in key.version && '|' !in key.version &&
    (key.source.Some? ==> key.source.value != "" && key.source.value != "workspace")
  }

  function Find(text: string, mark: char): nat {
    if text == "" || text[0] == mark then 0 else 1 + Find(text[1..], mark)
  }

  lemma {:induction false} FindAfter(a: string, mark: char, rest: string)
    requires mark !in a && (rest != "" ==> rest[0] == mark)
    ensures Find(a + rest, mark) == |a|
  {
    if a == "" {
      assert a + rest == rest;
    } else {
      assert (a + rest)[1..] == a[1..] + rest && (a + rest)[0] == a[0];
      FindAfter(a[1..], mark, rest);
    }
  }

  /** Two texts split alike at their first mark, or at the end. */
  lemma SplitAlike(a: string, b: string, mark: char, x: string, y: string)
    requires mark !in a && mark !in b && a + x == b + y
    requires (x != "" ==> x[0] == mark) && (y != "" ==> y[0] == mark)
    ensures a == b && x == y
  {
    FindAfter(a, mark, x);
    FindAfter(b, mark, y);
    assert (a + x)[..|a|] == a && (b + y)[..|b|] == b;
    assert (a + x)[|a|..] == x && (b + y)[|b|..] == y;
  }

  lemma SplitAt(a: string, b: string, mark: char, x: string, y: string)
    requires mark !in a && mark !in b && a + ([mark] + x) == b + ([mark] + y)
    ensures a == b && x == y
  {
    SplitAlike(a, b, mark, [mark] + x, [mark] + y);
    SameTail([mark], x, y);
  }

  lemma SameTail(lead: string, x: string, y: string)
    requires lead + x == lead + y
    ensures x == y
  {
    assert (lead + x)[|lead|..] == x && (lead + y)[|lead|..] == y;
  }

  lemma RefTellsApart(a: PackageKey, b: PackageKey)
    requires IsOrdinary(a) && IsOrdinary(b) && BomRef(a) == BomRef(b)
    ensures a == b
  {
    var s := if a.source.Some? && a.source.value != "" then a.source.value else "workspace";
    var t := if b.source.Some? && b.source.value != "" then b.source.value else "workspace";
    SameTail("cargo:", a.name + ("@" + (a.version + ("|" + s))), b.name + ("@" + (b.version + ("|" + t))));
    SplitAt(a.name, b.name, '@', a.version + ("|" + s), b.version + ("|" + t));
    SplitAt(a.version, b.version, '|', s, t);
  }

  function Suffix(key: PackageKey): string {
    if key.source.Some? && key.source.value != "" then " (" + (key.source.value + ")") else ""
  }

  lemma IdTellsApart(a: PackageKey, b: PackageKey)
    requires IsOrdinary(a) && IsOrdinary(b) && PackageId(a) == PackageId(b)
    ensures a == b
  {
    var s, t := Suffix(a), Suffix(b);
    SplitAt(a.name, b.name, ' ', a.version + s, b.version + t);
    SplitAlike(a.version, b.version, ' ', s, t);
    SuffixTellsApart(a, b);
  }

  lemma SuffixTellsApart(a: PackageKey, b: PackageKey)
    requires IsOrdinary(a) && IsOrdinary(b) && Suffix(a) == Suffix(b)
    ensures a.source == b.source
  {
    assert |Suffix(a)| == if a.source.Some? then |a.source.value| + 3 else 0;
    assert |Suffix(b)| == if b.source.Some? then |b.source.value| + 3 else 0;
    if a.source.Some? && b.source.Some? {
      var x, y := a.source.value, b.source.value;
      SameTail(" (", x + ")", y + ")");
      assert (x + ")")[..|x|] == x && (y + ")")[..|y|] == y;
    }
  }

  lemma OrdinaryAreTold(v: View, order: seq<PackageKey>)
    requires Distinct(order)
    requires forall k | 0 <= k < |order| ::
      IsOrdinary(order[k]) && v.ref(order[k]) == BomRef(order[k]) && v.id(order[k]) == PackageId(order[k])
    ensures Distinct(Refs(v, order)) && Distinct(Ids(v, order))
  {
    forall i, j | 0 <= i < j < |order|
      ensures Refs(v, order)[i] != Refs(v, order)[j] && Ids(v, order)[i] != Ids(v, order)[j]
    {
      ToldApart(order[i], order[j]);
    }
  }

  lemma ToldApart(a: PackageKey, b: PackageKey)
    requires IsOrdinary(a) && IsOrdinary(b) && a != b
    ensures BomRef(a) != BomRef(b) && PackageId(a) != PackageId(b)
  {
    if BomRef(a) == BomRef(b) { RefTellsApart(a, b); }
    if PackageId(a) == PackageId(b) { IdTellsApart(a, b); }
  }

  /** Ordinary, distinct keys: the bundle is verifiable exactly when the lockfile resolves completely. */
  lemma OrdinaryLockfilesVerify(
    v: View, packages: seq<Package>, members: set<(string, string)>, order: seq<PackageKey>, b: Bundle)
    requires IsViewOf(v, packages, members) && IsOrderOf(order, KeysOf(packages)) && IsAssembled(v, order, b)
    requires Distinct(KeysOf(packages)) && forall k | 0 <= k < |packages| :: IsOrdinary(packages[k].key)
    ensures IsAccepted(b, packages, v.hash) <==> IsFullyResolved(packages)
  {
    GeneratedIsAccepted(v, packages, members, order, b);
    var keys := KeysOf(packages);
    forall k | 0 <= k < |order|
      ensures IsOrdinary(order[k]) && v.ref(order[k]) == BomRef(order[k]) && v.id(order[k]) == PackageId(order[k])
    {
      assert order[k] in keys;
      var j :| 0 <= j < |keys| && keys[j] == order[k];
      assert v.ref(keys[j]) == BomRef(keys[j]);
    }
    OrdinaryAreTold(v, order);
  }
}
