/**
 What an accepted bundle holds: ids, checksums, relationships, counts, licences and texts, told record
 by record from the lockfile, without the tables that the verifier builds.
 */
module SbomPinning {
  import opened Common
  import opened DependencyGraph
  import opened SbomBundle
  import opened SbomAgreement

  // ----- what the bundle must hold, told record by record

  ghost predicate HasDistinctIds(packages: seq<Package>) {
    forall j, k | 0 <= j < k < |packages| :: PackageId(packages[j].key) != PackageId(packages[k].key)
  }

  /** The component of the `i`-th place is the `k`-th package's. */
  predicate IsOf(b: Bundle, i: int, packages: seq<Package>, k: int) {
    0 <= i < |b.components| && 0 <= k < |packages| && b.components[i].id == PackageId(packages[k].key)
  }

  ghost predicate HasComponent(b: Bundle, packages: seq<Package>, k: int) {
    exists i :: IsOf(b, i, packages, k)
  }

  /** As many components as packages, one for each of them, under references that all differ. */
  ghost predicate CoversPackages(b: Bundle, packages: seq<Package>) {
    |b.components| == |packages| && (forall k | 0 <= k < |packages| :: HasComponent(b, packages, k)) &&
    forall i, j | 0 <= i < j < |b.components| :: b.components[i].ref != b.components[j].ref
  }

  /** Each component lists exactly its own package's checksum, if that has one, among its own. */
  ghost predicate ListsChecksums(b: Bundle, packages: seq<Package>) {
    forall i, k | IsOf(b, i, packages, k) && packages[k].checksum.Some? && packages[k].checksum.value != "" ::
      packages[k].checksum.value in b.components[i].checksums
  }

  /** The references of these packages' components. */
  ghost predicate AreRefsOf(b: Bundle, refs: set<string>, keys: set<PackageKey>) {
    forall ref: string :: ref in refs <==> exists m, key: PackageKey :: IsRefOf(b, ref, m, keys, key)
  }

  ghost predicate IsRefOf(b: Bundle, ref: string, m: int, keys: set<PackageKey>, key: PackageKey) {
    0 <= m < |b.components| && b.components[m].ref == ref && key in keys && b.components[m].id == PackageId(key)
  }

  /** The `j`-th relationship is the `i`-th component's and leads to what the lockfile resolves for that package. */
  ghost predicate RelatesAs(b: Bundle, i: int, j: int, targets: set<PackageKey>) {
    0 <= i < |b.components| && 0 <= j < |b.relations| && b.relations[j].ref == b.components[i].ref &&
    AreRefsOf(b, b.relations[j].dependsOn, targets)
  }

  ghost predicate IsRelated(b: Bundle, i: int, targets: set<PackageKey>) {
    exists j :: RelatesAs(b, i, j, targets)
  }

  ghost predicate RelatesPackages(b: Bundle, packages: seq<Package>) {
    |b.relations| == |packages| && IsFullyResolved(packages) &&
    forall i, k | IsOf(b, i, packages, k) ::
      IsRelated(b, i, NodeOf(LockGraph(packages), packages[k].key))
  }

  function Scoped(b: Bundle, scope: string): set<int> {
    set i | 0 <= i < |b.components| && b.components[i].scope == scope
  }

  function FromSource(b: Bundle, source: string): set<int> {
    set i | 0 <= i < |b.components| && b.components[i].source == source
  }

  function Classified(b: Bundle, classification: string): set<int> {
    set k | 0 <= k < |b.licences| && b.licences[k].classification == classification
  }

  ghost predicate CountsRecords(b: Bundle) {
    b.counts.unique == |b.components| && b.counts.workspace == |Scoped(b, "workspace")| &&
    b.counts.direct == |Scoped(b, "direct")| && b.counts.transitive == |Scoped(b, "transitive")| &&
    (forall source: string :: b.counts.sources[source] == |FromSource(b, source)|) &&
    forall classification: string :: b.counts.classifications[classification] == |Classified(b, classification)|
  }

  ghost predicate IsThirdParty(b: Bundle, i: int, id: string) {
    0 <= i < |b.components| && b.components[i].scope != "workspace" && b.components[i].id == id
  }

  predicate IsLicenceOf(b: Bundle, k: int, id: string) {
    0 <= k < |b.licences| && b.licences[k].id == id
  }

  /** The licence of the `k`-th place is the package's and names the text. */
  predicate NamesText(b: Bundle, k: int, id: string, digest: string) {
    IsLicenceOf(b, k, id) && digest in b.licences[k].hashes
  }

  ghost predicate LicensesThirdParty(b: Bundle) {
    forall id: string :: HasLicence(b, id) <==> HasThirdParty(b, id)
  }

  ghost predicate HasLicence(b: Bundle, id: string) {
    exists k :: IsLicenceOf(b, k, id)
  }

  ghost predicate HasThirdParty(b: Bundle, id: string) {
    exists i :: IsThirdParty(b, i, id)
  }

  /** The texts are those that licences name, each under its digest and with just the packages that name it. */
  ghost predicate HoldsTexts(b: Bundle, hash: string -> string) {
    (forall digest: string :: digest in b.texts <==> exists k, id: string :: NamesText(b, k, id, digest)) &&
    forall digest | digest in b.texts ::
      hash(b.texts[digest].text) == digest &&
      forall id: string :: id in b.texts[digest].packages <==> exists k :: NamesText(b, k, id, digest)
  }

  ghost predicate IsFaithful(b: Bundle, packages: seq<Package>, hash: string -> string) {
    CoversPackages(b, packages) && ListsChecksums(b, packages) && RelatesPackages(b, packages) &&
    CountsRecords(b) && LicensesThirdParty(b) && HoldsTexts(b, hash)
  }

  // ----- ids and checksums

  lemma SetsOfOneSize<T>(a: set<T>, b: set<T>)
    requires a <= b && |b| <= |a|
    ensures a == b
  {
    assert b == a + (b - a) && |b| == |a| + |b - a|;
  }

  lemma LockedIdsCount(packages: seq<Package>)
    requires HasDistinctIds(packages)
    ensures |LockedIds(packages)| == |packages|
  {
    var ids := Mapped((p: Package) => PackageId(p.key), packages);
    DistinctByCount(ids);
    assert forall k | 0 <= k < |packages| :: ids[k] == PackageId(packages[k].key);
    assert LockedIds(packages) == set id | id in ids;
  }

  lemma ComponentSets(components: seq<Component>)
    ensures |RefsIn(components)| == |components| <==>
      forall i, j | 0 <= i < j < |components| :: components[i].ref != components[j].ref
    ensures |IdsIn(components)| <= |components|
    ensures |IdsIn(components)| == |components| <==>
      forall i, j | 0 <= i < j < |components| :: components[i].id != components[j].id
  {
    var refs := Mapped((c: Component) => c.ref, components);
    var ids := Mapped((c: Component) => c.id, components);
    DistinctByCount(refs);
    DistinctByCount(ids);
    assert forall k | 0 <= k < |components| :: refs[k] == components[k].ref && ids[k] == components[k].id;
    assert RefsIn(components) == set ref | ref in refs;
    assert IdsIn(components) == set id | id in ids;
  }

  lemma CoverageCompared(b: Bundle, packages: seq<Package>)
    requires HasDistinctIds(packages)
    ensures CoversPackages(b, packages) <==>
      |b.components| == |packages| && |RefsIn(b.components)| == |b.components| &&
      IdsIn(b.components) == LockedIds(packages)
  {
    ComponentSets(b.components);
    LockedIdsCount(packages);
    if CoversPackages(b, packages) {
      forall id | id in LockedIds(packages) ensures id in IdsIn(b.components) {
        var k :| 0 <= k < |packages| && PackageId(packages[k].key) == id;
        assert HasComponent(b, packages, k);
        var i :| IsOf(b, i, packages, k);
      }
      SetsOfOneSize(LockedIds(packages), IdsIn(b.components));
    }
    if IdsIn(b.components) == LockedIds(packages) {
      forall k | 0 <= k < |packages| ensures HasComponent(b, packages, k) {
        assert PackageId(packages[k].key) in IdsIn(b.components);
        var i :| 0 <= i < |b.components| && b.components[i].id == PackageId(packages[k].key);
        assert IsOf(b, i, packages, k);
      }
    }
  }

  lemma {:induction false} LockedChecksumIs(packages: seq<Package>, k: nat)
    requires k < |packages| && HasDistinctIds(packages)
    ensures LockedChecksum(packages, PackageId(packages[k].key)) == packages[k].checksum
  {
    var n := |packages| - 1;
    if k < n {
      assert packages[..n][k] == packages[k];
      LockedChecksumIs(packages[..n], k);
    }
  }

  lemma ChecksumsCompared(b: Bundle, packages: seq<Package>)
    requires HasDistinctIds(packages) && IdsIn(b.components) == LockedIds(packages)
    ensures ListsChecksums(b, packages) <==>
      forall i | 0 <= i < |b.components| :: ChecksumFits(b.components[i], packages)
  {
    forall i, k | IsOf(b, i, packages, k)
      ensures LockedChecksum(packages, b.components[i].id) == packages[k].checksum {
      LockedChecksumIs(packages, k);
    }
    if ListsChecksums(b, packages) {
      forall i | 0 <= i < |b.components| ensures ChecksumFits(b.components[i], packages) {
        assert b.components[i].id in IdsIn(b.components);
        var k :| 0 <= k < |packages| && PackageId(packages[k].key) == b.components[i].id;
        assert IsOf(b, i, packages, k);
      }
    }
  }

  // ----- relationships

  lemma {:induction false} RefByIdIs(components: seq<Component>)
    requires forall i, j | 0 <= i < j < |components| :: components[i].id != components[j].id
    ensures forall i | 0 <= i < |components| :: At(RefById(components), components[i].id) == components[i].ref
  {
    if components != [] {
      var n := |components| - 1;
      RefByIdIs(components[..n]);
      assert forall i | 0 <= i < n :: components[..n][i] == components[i];
    }
  }

  /** A component's reference is found under its package's id. */
  lemma RefIsFound(b: Bundle, packages: seq<Package>, i: int, k: int)
    requires HasDistinctIds(packages) && CoversPackages(b, packages) && IsOf(b, i, packages, k)
    ensures At(RefById(b.components), PackageId(packages[k].key)) == b.components[i].ref
  {
    CoverageCompared(b, packages);
    ComponentSets(b.components);
    LockedIdsCount(packages);
    RefByIdIs(b.components);
  }

  /** The references the verifier gathers for a set of locked packages are those of their components. */
  lemma RefsCompared(b: Bundle, packages: seq<Package>, keys: set<PackageKey>, refs: set<string>)
    requires HasDistinctIds(packages) && CoversPackages(b, packages)
    requires forall key | key in keys :: key in KeysOf(packages)
    ensures AreRefsOf(b, refs, keys) <==> refs == RefsAt(RefById(b.components), keys)
  {
    var found := RefsAt(RefById(b.components), keys);
    forall ref: string ensures ref in found <==> exists m, key: PackageKey :: IsRefOf(b, ref, m, keys, key) {
      if ref in found {
        var key :| key in keys && At(RefById(b.components), PackageId(key)) == ref;
        var m := ComponentOfKey(b, packages, key);
        assert IsRefOf(b, ref, m, keys, key);
      }
      if m, key: PackageKey :| IsRefOf(b, ref, m, keys, key) {
        var other := ComponentOfKey(b, packages, key);
        SameComponent(b, packages, m, other);
      }
    }
  }

  lemma ComponentOfKey(b: Bundle, packages: seq<Package>, key: PackageKey) returns (m: int)
    requires HasDistinctIds(packages) && CoversPackages(b, packages) && key in KeysOf(packages)
    ensures 0 <= m < |b.components| && b.components[m].id == PackageId(key)
    ensures At(RefById(b.components), PackageId(key)) == b.components[m].ref
  {
    var k :| 0 <= k < |packages| && KeysOf(packages)[k] == key;
    assert HasComponent(b, packages, k);
    m :| IsOf(b, m, packages, k);
    RefIsFound(b, packages, m, k);
  }

  lemma SameComponent(b: Bundle, packages: seq<Package>, i: int, j: int)
    requires HasDistinctIds(packages) && CoversPackages(b, packages)
    requires 0 <= i < |b.components| && 0 <= j < |b.components| && b.components[i].id == b.components[j].id
    ensures i == j
  {
    CoverageCompared(b, packages);
    ComponentSets(b.components);
    LockedIdsCount(packages);
  }

  lemma {:induction false} RelationMapHas(relations: seq<Relation>, ref: string)
    ensures ref in RelationMap(relations) ==>
      exists j :: 0 <= j < |relations| && relations[j] == Relation(ref, RelationMap(relations)[ref])
  {
    if relations != [] && ref in RelationMap(relations) {
      var n := |relations| - 1;
      if relations[n].ref != ref {
        RelationMapHas(relations[..n], ref);
        var j :| 0 <= j < n && relations[..n][j] == Relation(ref, RelationMap(relations)[ref]);
        assert relations[j] == Relation(ref, RelationMap(relations)[ref]);
      } else {
        assert relations[n] == Relation(ref, RelationMap(relations)[ref]);
      }
    }
  }

  lemma {:induction false} RelationMapIs(relations: seq<Relation>)
    requires forall i, j | 0 <= i < j < |relations| :: relations[i].ref != relations[j].ref
    ensures forall j | 0 <= j < |relations| ::
      relations[j].ref in RelationMap(relations) && RelationMap(relations)[relations[j].ref] == relations[j].dependsOn
    ensures forall ref | ref in RelationMap(relations) :: exists j :: 0 <= j < |relations| && relations[j].ref == ref
  {
    if relations != [] {
      var n := |relations| - 1;
      RelationMapIs(relations[..n]);
      assert forall j | 0 <= j < n :: relations[..n][j] == relations[j];
      forall ref | ref in RelationMap(relations) ensures exists j :: 0 <= j < |relations| && relations[j].ref == ref {
        if ref in RelationMap(relations[..n]) {
          var j :| 0 <= j < n && relations[..n][j].ref == ref;
          assert relations[j].ref == ref;
        } else {
          assert relations[n].ref == ref;
        }
      }
    }
  }

  function Expected(b: Bundle, packages: seq<Package>): map<string, set<string>> {
    ExpectedMap(RefById(b.components), KeysOf(packages), LockGraph(packages))
  }

  /** The expected relationships, component by component. */
  lemma ExpectedIs(b: Bundle, packages: seq<Package>)
    requires HasDistinctIds(packages) && CoversPackages(b, packages)
    ensures Expected(b, packages).Keys == RefsIn(b.components)
    ensures forall i, k | IsOf(b, i, packages, k) ::
      b.components[i].ref in Expected(b, packages) &&
      Expected(b, packages)[b.components[i].ref] ==
        RefsAt(RefById(b.components), NodeOf(LockGraph(packages), packages[k].key))
  {
    var refs, keys, graph := RefById(b.components), KeysOf(packages), LockGraph(packages);
    var ref := (key: PackageKey) => At(refs, PackageId(key));
    forall i, k | IsOf(b, i, packages, k) ensures ref(keys[k]) == b.components[i].ref {
      RefIsFound(b, packages, i, k);
    }
    DistinctRefs(b, packages, ref);
    ExpectedMapKeys(refs, ref, keys, graph);
    ExpectedMapAt(refs, ref, keys, graph);
    RefsAreImages(b, packages, ref);
    forall i, k | IsOf(b, i, packages, k)
      ensures b.components[i].ref in Expected(b, packages) &&
        Expected(b, packages)[b.components[i].ref] == RefsAt(refs, NodeOf(graph, packages[k].key))
    {
      assert ref(keys[k]) in ExpectedMap(refs, keys, graph);
    }
  }

  lemma DistinctRefs(b: Bundle, packages: seq<Package>, ref: PackageKey -> string)
    requires HasDistinctIds(packages) && CoversPackages(b, packages)
    requires forall i, k | IsOf(b, i, packages, k) :: ref(KeysOf(packages)[k]) == b.components[i].ref
    ensures Distinct(Mapped(ref, KeysOf(packages)))
  {
    var keys := KeysOf(packages);
    forall j, k | 0 <= j < k < |keys| ensures Mapped(ref, keys)[j] != Mapped(ref, keys)[k] {
      assert HasComponent(b, packages, j) && HasComponent(b, packages, k);
      var x :| IsOf(b, x, packages, j);
      var y :| IsOf(b, y, packages, k);
      assert x != y;
    }
  }

  lemma RefsAreImages(b: Bundle, packages: seq<Package>, ref: PackageKey -> string)
    requires HasDistinctIds(packages) && CoversPackages(b, packages)
    requires forall i, k | IsOf(b, i, packages, k) :: ref(KeysOf(packages)[k]) == b.components[i].ref
    ensures (set r | r in Mapped(ref, KeysOf(packages))) == RefsIn(b.components)
  {
    var keys := KeysOf(packages);
    CoverageCompared(b, packages);
    forall r | r in Mapped(ref, keys) ensures r in RefsIn(b.components) {
      var k :| 0 <= k < |keys| && ref(keys[k]) == r;
      assert HasComponent(b, packages, k);
      var i :| IsOf(b, i, packages, k);
    }
    forall r | r in RefsIn(b.components) ensures r in Mapped(ref, keys) {
      var i :| 0 <= i < |b.components| && b.components[i].ref == r;
      assert b.components[i].id in IdsIn(b.components);
      var k :| 0 <= k < |packages| && PackageId(packages[k].key) == b.components[i].id;
      assert IsOf(b, i, packages, k) && Mapped(ref, keys)[k] == r;
    }
  }

  lemma TargetsAreLocked(packages: seq<Package>, key: PackageKey)
    ensures forall target | target in NodeOf(LockGraph(packages), key) :: target in KeysOf(packages)
  {
    GraphIsClosed(packages);
  }

  ghost predicate HasRelation(b: Bundle, ref: string) {
    exists j :: 0 <= j < |b.relations| && b.relations[j].ref == ref
  }

  /** One relationship for each component leaves no room for another. */
  lemma RelationsAreApart(b: Bundle)
    requires |b.relations| == |b.components|
    requires forall i, j | 0 <= i < j < |b.components| :: b.components[i].ref != b.components[j].ref
    requires forall i | 0 <= i < |b.components| :: HasRelation(b, b.components[i].ref)
    ensures forall i, j | 0 <= i < j < |b.relations| :: b.relations[i].ref != b.relations[j].ref
    ensures (set j | 0 <= j < |b.relations| :: b.relations[j].ref) == RefsIn(b.components)
  {
    ComponentSets(b.components);
    var refs := Mapped((r: Relation) => r.ref, b.relations);
    assert forall j | 0 <= j < |refs| :: refs[j] == b.relations[j].ref;
    DistinctByCount(refs);
    forall ref | ref in RefsIn(b.components) ensures ref in refs {
      var i :| 0 <= i < |b.components| && b.components[i].ref == ref;
      assert HasRelation(b, b.components[i].ref);
      var j :| 0 <= j < |b.relations| && b.relations[j].ref == ref;
      assert refs[j] == ref;
    }
    assert (set j | 0 <= j < |b.relations| :: b.relations[j].ref) == set ref | ref in refs;
    SetsOfOneSize(RefsIn(b.components), set ref | ref in refs);
  }

  lemma AcceptedRelates(b: Bundle, packages: seq<Package>)
    requires HasDistinctIds(packages) && CoversPackages(b, packages) && RelationsMatchLock(b, packages)
    requires |b.relations| == |packages|
    ensures RelatesPackages(b, packages)
  {
    NoErrorsMeansUnique(packages);
    ExpectedIs(b, packages);
    forall i, k | IsOf(b, i, packages, k)
      ensures IsRelated(b, i, NodeOf(LockGraph(packages), packages[k].key))
    {
      var node := NodeOf(LockGraph(packages), packages[k].key);
      var ref := b.components[i].ref;
      assert ref in RelationMap(b.relations);
      RelationMapHas(b.relations, ref);
      var j :| 0 <= j < |b.relations| && b.relations[j] == Relation(ref, RelationMap(b.relations)[ref]);
      TargetsAreLocked(packages, packages[k].key);
      RefsCompared(b, packages, node, b.relations[j].dependsOn);
      assert RelatesAs(b, i, j, node);
    }
  }

  /** Each component's relationship, found from the other side. */
  lemma RelationOfRef(b: Bundle, packages: seq<Package>, i: int) returns (j: int, k: int)
    requires HasDistinctIds(packages) && CoversPackages(b, packages) && RelatesPackages(b, packages)
    requires 0 <= i < |b.components|
    ensures IsOf(b, i, packages, k) && RelatesAs(b, i, j, NodeOf(LockGraph(packages), packages[k].key))
    ensures b.relations[j].dependsOn ==
      RefsAt(RefById(b.components), NodeOf(LockGraph(packages), packages[k].key))
  {
    CoverageCompared(b, packages);
    assert b.components[i].id in IdsIn(b.components);
    k :| 0 <= k < |packages| && PackageId(packages[k].key) == b.components[i].id;
    assert IsOf(b, i, packages, k);
    var node := NodeOf(LockGraph(packages), packages[k].key);
    assert IsRelated(b, i, node);
    j :| RelatesAs(b, i, j, node);
    TargetsAreLocked(packages, packages[k].key);
    RefsCompared(b, packages, node, b.relations[j].dependsOn);
  }

  lemma RelatesIsAccepted(b: Bundle, packages: seq<Package>)
    requires HasDistinctIds(packages) && CoversPackages(b, packages) && RelatesPackages(b, packages)
    ensures RelationsMatchLock(b, packages)
    ensures forall j | 0 <= j < |b.relations| ::
      b.relations[j].ref in RefsIn(b.components) && b.relations[j].dependsOn <= RefsIn(b.components)
  {
    NoErrorsMeansUnique(packages);
    EachRelates(b, packages);
    RelationsAreApart(b);
    RelationsAreExpected(b, packages);
    forall j | 0 <= j < |b.relations|
      ensures b.relations[j].ref in RefsIn(b.components) && b.relations[j].dependsOn <= RefsIn(b.components) {
      assert b.relations[j].ref in (set j | 0 <= j < |b.relations| :: b.relations[j].ref);
      RelationStaysInside(b, packages, j);
    }
  }

  lemma RelationsAreExpected(b: Bundle, packages: seq<Package>)
    requires HasDistinctIds(packages) && CoversPackages(b, packages) && RelatesPackages(b, packages)
    requires forall i, j | 0 <= i < j < |b.relations| :: b.relations[i].ref != b.relations[j].ref
    requires (set j | 0 <= j < |b.relations| :: b.relations[j].ref) == RefsIn(b.components)
    ensures RelationMap(b.relations) == Expected(b, packages)
  {
    var observed, expected := RelationMap(b.relations), Expected(b, packages);
    ExpectedIs(b, packages);
    RelationMapIs(b.relations);
    assert observed.Keys == RefsIn(b.components);
    forall ref | ref in observed ensures ref in expected && observed[ref] == expected[ref] {
      RelationIsExpected(b, packages, ref);
    }
  }

  lemma RelationIsExpected(b: Bundle, packages: seq<Package>, ref: string)
    requires HasDistinctIds(packages) && CoversPackages(b, packages) && RelatesPackages(b, packages)
    requires forall i, j | 0 <= i < j < |b.relations| :: b.relations[i].ref != b.relations[j].ref
    requires ref in RefsIn(b.components)
    ensures ref in RelationMap(b.relations) && ref in Expected(b, packages)
    ensures RelationMap(b.relations)[ref] == Expected(b, packages)[ref]
  {
    RelationMapIs(b.relations);
    ExpectedIs(b, packages);
    var i :| 0 <= i < |b.components| && b.components[i].ref == ref;
    var j, k := RelationOfRef(b, packages, i);
    assert b.relations[j].ref == ref;
  }

  lemma RelationStaysInside(b: Bundle, packages: seq<Package>, j: int)
    requires HasDistinctIds(packages) && CoversPackages(b, packages) && RelatesPackages(b, packages)
    requires forall i, j | 0 <= i < j < |b.relations| :: b.relations[i].ref != b.relations[j].ref
    requires 0 <= j < |b.relations| && b.relations[j].ref in RefsIn(b.components)
    ensures b.relations[j].dependsOn <= RefsIn(b.components)
  {
    var i :| 0 <= i < |b.components| && b.components[i].ref == b.relations[j].ref;
    var m, k := RelationOfRef(b, packages, i);
    assert m == j;
    forall ref | ref in b.relations[j].dependsOn ensures ref in RefsIn(b.components) {
      var x, key: PackageKey :| IsRefOf(b, ref, x, NodeOf(LockGraph(packages), packages[k].key), key);
    }
  }

  lemma EachRelates(b: Bundle, packages: seq<Package>)
    requires HasDistinctIds(packages) && CoversPackages(b, packages) && RelatesPackages(b, packages)
    ensures forall i | 0 <= i < |b.components| :: HasRelation(b, b.components[i].ref)
  {
    forall i | 0 <= i < |b.components| ensures HasRelation(b, b.components[i].ref) {
      var j, k := RelationOfRef(b, packages, i);
      assert b.relations[j].ref == b.components[i].ref;
    }
  }

  // ----- counts

  function Places(s: seq<string>, x: string): set<int> {
    set i | 0 <= i < |s| && s[i] == x
  }

  lemma OneMorePlace(s: seq<string>, last: string, x: string)
    ensures Places(s + [last], x) == Places(s, x) + if last == x then {|s|} else {}
  {
    var more := s + [last];
    assert more[|s|] == last && forall i | 0 <= i < |s| :: more[i] == s[i];
  }

  lemma {:induction false} PlacesOf(s: seq<string>, x: string)
    ensures multiset(s)[x] == |Places(s, x)|
  {
    if s != [] {
      var n := |s| - 1;
      PlacesOf(s[..n], x);
      OneMorePlace(s[..n], s[n], x);
      assert s == s[..n] + [s[n]];
    }
  }

  lemma PlacesCounted(b: Bundle, text: string)
    ensures multiset(Mapped(ScopeIn, b.components))[text] == |Scoped(b, text)|
    ensures multiset(Mapped(SourceIn, b.components))[text] == |FromSource(b, text)|
    ensures multiset(Mapped(ClassIn, b.licences))[text] == |Classified(b, text)|
  {
    var scopes, sources, classes := Mapped(ScopeIn, b.components), Mapped(SourceIn, b.components),
      Mapped(ClassIn, b.licences);
    PlacesOf(scopes, text);
    PlacesOf(sources, text);
    PlacesOf(classes, text);
    assert Scoped(b, text) == Places(scopes, text);
    assert FromSource(b, text) == Places(sources, text);
    assert Classified(b, text) == Places(classes, text);
  }

  lemma SameMultiset(a: multiset<string>, c: multiset<string>)
    ensures a == c <==> forall x: string :: a[x] == c[x]
  {
  }

  lemma CountsCompared(b: Bundle, packages: seq<Package>)
    requires |b.components| == |packages|
    ensures CountsRecords(b) <==>
      CountsMatch(b, packages) && b.counts.classifications == multiset(Mapped(ClassIn, b.licences))
  {
    PlacesCounted(b, "workspace");
    PlacesCounted(b, "direct");
    PlacesCounted(b, "transitive");
    forall text: string
      ensures multiset(Mapped(SourceIn, b.components))[text] == |FromSource(b, text)| &&
        multiset(Mapped(ClassIn, b.licences))[text] == |Classified(b, text)|
    {
      PlacesCounted(b, text);
    }
    SameMultiset(b.counts.sources, multiset(Mapped(SourceIn, b.components)));
    SameMultiset(b.counts.classifications, multiset(Mapped(ClassIn, b.licences)));
  }

  // ----- licences and texts

  lemma LicencesCompared(b: Bundle)
    ensures LicensesThirdParty(b) <==> LicenceIds(b.licences) == ThirdPartyIds(b.components)
  {
    forall id: string
      ensures id in LicenceIds(b.licences) <==> HasLicence(b, id)
      ensures id in ThirdPartyIds(b.components) <==> HasThirdParty(b, id)
    {
      if id in LicenceIds(b.licences) {
        var k :| 0 <= k < |b.licences| && b.licences[k].id == id;
        assert IsLicenceOf(b, k, id);
      }
      if id in ThirdPartyIds(b.components) {
        var i :| 0 <= i < |b.components| && b.components[i].scope != "workspace" && b.components[i].id == id;
        assert IsThirdParty(b, i, id);
      }
    }
  }

  lemma PairIsNamed(b: Bundle, digest: string, id: string)
    ensures (digest, id) in PairsIn(b.licences) <==> exists k :: NamesText(b, k, id, digest)
  {
    if (digest, id) in PairsIn(b.licences) {
      var k :| 0 <= k < |b.licences| && digest in b.licences[k].hashes && b.licences[k].id == id;
      assert NamesText(b, k, id, digest);
    }
    if k :| NamesText(b, k, id, digest) {
      assert digest in b.licences[k].hashes && b.licences[k].id == id;
    }
  }

  lemma DigestIsNamed(b: Bundle, digest: string)
    ensures digest in DigestsIn(PairsIn(b.licences)) <==> exists k, id: string :: NamesText(b, k, id, digest)
    ensures forall id: string ::
      id in CarriersOf(PairsIn(b.licences), digest) <==> exists k :: NamesText(b, k, id, digest)
  {
    var pairs := PairsIn(b.licences);
    forall id: string
      ensures id in CarriersOf(pairs, digest) <==> exists k :: NamesText(b, k, id, digest)
      ensures (digest, id) in pairs <==> exists k :: NamesText(b, k, id, digest)
    {
      PairIsNamed(b, digest, id);
      assert (digest, id) in pairs ==> id in CarriersOf(pairs, digest);
    }
    if digest in DigestsIn(pairs) {
      var pair :| pair in pairs && pair.0 == digest;
      assert (digest, pair.1) in pairs;
    }
    if k, id: string :| NamesText(b, k, id, digest) {
      assert (digest, id) in pairs;
    }
  }

  lemma TextsCompared(b: Bundle, hash: string -> string)
    ensures HoldsTexts(b, hash) <==> IsGrouped(b.texts, PairsIn(b.licences), hash)
  {
    forall digest: string
      ensures digest in DigestsIn(PairsIn(b.licences)) <==> exists k, id: string :: NamesText(b, k, id, digest)
      ensures forall id: string ::
        id in CarriersOf(PairsIn(b.licences), digest) <==> exists k :: NamesText(b, k, id, digest)
    {
      DigestIsNamed(b, digest);
    }
  }

  lemma CarriersAreThirdParty(b: Bundle, hash: string -> string)
    requires HoldsTexts(b, hash) && LicensesThirdParty(b)
    ensures forall digest | digest in b.texts :: b.texts[digest].packages <= ThirdPartyIds(b.components)
  {
    LicencesCompared(b);
    forall digest, id | digest in b.texts && id in b.texts[digest].packages ensures id in LicenceIds(b.licences) {
      var k :| NamesText(b, k, id, digest);
      assert b.licences[k].id == id;
    }
  }

  // ----- the theorems

  lemma AcceptedIsFaithful(b: Bundle, packages: seq<Package>, hash: string -> string)
    requires HasDistinctIds(packages) && IsAccepted(b, packages, hash)
    ensures IsFaithful(b, packages, hash)
  {
    CoverageCompared(b, packages);
    ChecksumsCompared(b, packages);
    AcceptedRelates(b, packages);
    CountsCompared(b, packages);
    LicencesCompared(b);
    TextsCompared(b, hash);
  }

  lemma FaithfulIsAccepted(b: Bundle, packages: seq<Package>, hash: string -> string)
    requires HasDistinctIds(packages) && IsFaithful(b, packages, hash)
    ensures IsAccepted(b, packages, hash)
  {
    CoverageCompared(b, packages);
    ChecksumsCompared(b, packages);
    RelatesIsAccepted(b, packages);
    CountsCompared(b, packages);
    LicencesCompared(b);
    TextsCompared(b, hash);
    CarriersAreThirdParty(b, hash);
  }

  /** With package ids that differ, a bundle is accepted exactly when every record is what the lockfile says. */
  lemma AcceptedExactlyWhenFaithful(b: Bundle, packages: seq<Package>, hash: string -> string)
    requires HasDistinctIds(packages)
    ensures IsAccepted(b, packages, hash) <==> IsFaithful(b, packages, hash)
  {
    if IsAccepted(b, packages, hash) { AcceptedIsFaithful(b, packages, hash); }
    if IsFaithful(b, packages, hash) { FaithfulIsAccepted(b, packages, hash); }
  }

  /** Every component of a package with a recorded checksum lists that checksum. */
  lemma AcceptedListsChecksum(b: Bundle, packages: seq<Package>, hash: string -> string, i: int, k: int)
    requires HasDistinctIds(packages) && IsAccepted(b, packages, hash) && IsOf(b, i, packages, k)
    requires packages[k].checksum.Some? && packages[k].checksum.value != ""
    ensures packages[k].checksum.value in b.components[i].checksums
  {
    AcceptedExactlyWhenFaithful(b, packages, hash);
  }

  /** So a component with another checksum, such as a tampered one, is refused. */
  lemma OtherChecksumIsRefused(b: Bundle, packages: seq<Package>, hash: string -> string, i: int, k: int,
      checksums: set<string>)
    requires HasDistinctIds(packages) && IsOf(b, i, packages, k)
    requires packages[k].checksum.Some? && packages[k].checksum.value != "" && packages[k].checksum.value !in checksums
    ensures !IsAccepted(
      b.(components := b.components[i := b.components[i].(checksums := checksums)]), packages, hash)
  {
    var other := b.(components := b.components[i := b.components[i].(checksums := checksums)]);
    if IsAccepted(other, packages, hash) {
      AcceptedExactlyWhenFaithful(other, packages, hash);
      assert IsOf(other, i, packages, k);
    }
  }

  /** Of two accepted bundles with the same components and licences nothing else can differ. */
  lemma AcceptedIsPinned(a: Bundle, b: Bundle, packages: seq<Package>, hash: string -> string)
    requires HasDistinctIds(packages) && IsAccepted(a, packages, hash) && IsAccepted(b, packages, hash)
    requires a.components == b.components && a.licences == b.licences
    ensures a.counts == b.counts
    ensures forall relation :: relation in a.relations <==> relation in b.relations
    ensures a.texts.Keys == b.texts.Keys
    ensures forall digest | digest in a.texts ::
      a.texts[digest].packages == b.texts[digest].packages &&
      hash(a.texts[digest].text) == hash(b.texts[digest].text)
  {
    AcceptedExactlyWhenFaithful(a, packages, hash);
    AcceptedExactlyWhenFaithful(b, packages, hash);
    CountsCompared(a, packages);
    CountsCompared(b, packages);
    RelationsPinned(a, b, packages);
    RelationsPinned(b, a, packages);
    TextsCompared(a, hash);
    TextsCompared(b, hash);
  }

  lemma RelationsPinned(a: Bundle, b: Bundle, packages: seq<Package>)
    requires HasDistinctIds(packages) && a.components == b.components
    requires CoversPackages(a, packages) && RelatesPackages(a, packages)
    requires CoversPackages(b, packages) && RelatesPackages(b, packages)
    ensures forall relation | relation in a.relations :: relation in b.relations
  {
    EachRelates(a, packages);
    RelationsAreApart(a);
    forall x | 0 <= x < |a.relations| ensures a.relations[x] in b.relations {
      assert a.relations[x].ref in (set j | 0 <= j < |a.relations| :: a.relations[j].ref);
      assert a.relations[x].ref in RefsIn(a.components);
      var i :| 0 <= i < |a.components| && a.components[i].ref == a.relations[x].ref;
      var j, k := RelationOfRef(a, packages, i);
      var m, l := RelationOfRef(b, packages, i);
      assert j == x && k == l && b.relations[m] == a.relations[x];
    }
  }
}
