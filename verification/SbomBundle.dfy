/**
 The dependency bundle: what the generator accumulates over the lockfile, and the recounts by which
 the verifier checks it independently.
 */
module SbomBundle {
  import opened Common
  import opened DependencyGraph

  /** An empty source counts as none. */
  function BomRef(key: PackageKey): string {
    var source := if key.source.Some? && key.source.value != "" then key.source.value else "workspace";
    "cargo:" + (key.name + ("@" + (key.version + ("|" + source))))
  }

  const CRATES_IO_SOURCES: set<string> := {
    "registry+https://github.com/rust-lang/crates.io-index", "sparse+https://index.crates.io/"
  }

  function SourceType(key: PackageKey, workspace: set<PackageKey>): string {
    if key in workspace then "workspace"
    else if key.source.None? then "path-outside-workspace"
    else if key.source.value in CRATES_IO_SOURCES then "crates.io-registry"
    else if StartsWith(key.source.value, "git+") then "git"
    else if StartsWith(key.source.value, "registry+") || StartsWith(key.source.value, "sparse+") then "other-registry"
    else "unknown"
  }

  datatype Component = Component(ref: string, id: string, scope: string, source: string, checksums: set<string>)
  datatype Relation = Relation(ref: string, dependsOn: set<string>)
  datatype Licence = Licence(id: string, classification: string, hashes: set<string>)
  datatype LicenceText = LicenceText(text: string, packages: set<string>)

  /** Licence texts by their digests. */
  type Texts = map<string, LicenceText>

  datatype Counts = Counts(
    unique: int, workspace: int, direct: int, transitive: int, classifications: multiset<string>,
      sources: multiset<string>)

  datatype Bundle = Bundle(
    components: seq<Component>, relations: seq<Relation>, licences: seq<Licence>, texts: Texts, counts: Counts)

  /** All that the generator knows of each package when it writes the records. */
  datatype View = View(
    ref: PackageKey -> string,
    id: PackageKey -> string,
    workspace: set<PackageKey>,
    direct: set<PackageKey>,
    source: PackageKey -> string,
    checksums: PackageKey -> set<string>,
    targets: PackageKey -> set<PackageKey>,
    classify: PackageKey -> string,
    texts: PackageKey -> seq<string>,
    hash: string -> string)

  // ----- what the generator writes

  function ScopeOf(v: View, key: PackageKey): string {
    if key in v.workspace then "workspace" else if key in v.direct then "direct" else "transitive"
  }

  function ComponentOf(v: View, key: PackageKey): Component {
    Component(v.ref(key), v.id(key), ScopeOf(v, key), v.source(key), v.checksums(key))
  }

  function RelationOf(v: View, key: PackageKey): Relation {
    Relation(v.ref(key), set target | target in v.targets(key) :: v.ref(target))
  }

  function HashesOf(v: View, key: PackageKey): set<string> {
    set k | 0 <= k < |v.texts(key)| :: v.hash(v.texts(key)[k])
  }

  function LicenceOf(v: View, key: PackageKey): Licence {
    Licence(v.id(key), v.classify(key), HashesOf(v, key))
  }

  function ThirdParty(v: View, order: seq<PackageKey>): (keys: seq<PackageKey>)
    ensures forall key :: key in keys <==> key in order && key !in v.workspace
  {
    if order == [] then []
    else
      var init, last := ThirdParty(v, order[..|order| - 1]), order[|order| - 1];
      assert order == order[..|order| - 1] + [last];
      if last in v.workspace then init else init + [last]
  }

  function Components(v: View, order: seq<PackageKey>): seq<Component> {
    Mapped((key: PackageKey) => ComponentOf(v, key), order)
  }

  function Relations(v: View, order: seq<PackageKey>): seq<Relation> {
    Mapped((key: PackageKey) => RelationOf(v, key), order)
  }

  function LicencesOf(v: View, keys: seq<PackageKey>): seq<Licence> {
    Mapped((key: PackageKey) => LicenceOf(v, key), keys)
  }

  /** Which package carries a text of which digest. */
  type Pairs = set<(string, string)>

  function PairsOf(v: View, keys: seq<PackageKey>): Pairs {
    set key, digest | key in keys && digest in HashesOf(v, key) :: (digest, v.id(key))
  }

  function DigestsIn(pairs: Pairs): set<string> {
    set pair | pair in pairs :: pair.0
  }

  function CarriersOf(pairs: Pairs, digest: string): set<string> {
    set pair | pair in pairs && pair.0 == digest :: pair.1
  }

  function PairsFor(digests: set<string>, id: string): Pairs {
    set digest | digest in digests :: (digest, id)
  }

  /** One record for each digest that occurs, with a text of that digest and all packages that carry one. */
  predicate IsGrouped(texts: Texts, pairs: Pairs, hash: string -> string) {
    texts.Keys == DigestsIn(pairs) &&
    forall digest | digest in texts ::
      hash(texts[digest].text) == digest && texts[digest].packages == CarriersOf(pairs, digest)
  }

  function CountsOf(v: View, order: seq<PackageKey>): Counts {
    Counts(
      |order|, |v.workspace|, |v.direct|, |order| - |v.workspace| - |v.direct|,
      multiset(Mapped(v.classify, ThirdParty(v, order))), multiset(Mapped(v.source, order)))
  }

  predicate IsAssembled(v: View, order: seq<PackageKey>, b: Bundle) {
    b.components == Components(v, order) && b.relations == Relations(v, order) &&
    b.licences == LicencesOf(v, ThirdParty(v, order)) &&
    IsGrouped(b.texts, PairsOf(v, ThirdParty(v, order)), v.hash) &&
    b.counts == CountsOf(v, order)
  }

  // ----- the generator

  lemma OneMorePair(texts: Texts, pairs: Pairs, hash: string -> string, text: string, id: string)
    requires IsGrouped(texts, pairs, hash)
    ensures var digest := hash(text);
      var before := if digest in texts then texts[digest] else LicenceText(text, {});
      IsGrouped(texts[digest := LicenceText(before.text, before.packages + {id})], pairs + {(digest, id)}, hash)
  {
    var digest := hash(text);
    var before := if digest in texts then texts[digest] else LicenceText(text, {});
    var after, more := texts[digest := LicenceText(before.text, before.packages + {id})], pairs + {(digest, id)};
    assert (digest, id) in more;
    assert after.Keys == DigestsIn(more);
    forall d | d in after ensures hash(after[d].text) == d && after[d].packages == CarriersOf(more, d) {
      if d == digest {
        assert before.packages == CarriersOf(pairs, d);
      } else {
        assert CarriersOf(more, d) == CarriersOf(pairs, d);
      }
    }
  }

  method NoteTexts(v: View, key: PackageKey, given: Texts, ghost pairs: Pairs)
    returns (texts: Texts, hashes: set<string>)
    requires IsGrouped(given, pairs, v.hash)
    ensures hashes == HashesOf(v, key)
    ensures IsGrouped(texts, pairs + PairsFor(HashesOf(v, key), v.id(key)), v.hash)
  {
    var carried := v.texts(key);
    texts, hashes := given, {};
    assert pairs + PairsFor({}, v.id(key)) == pairs;
    for k := 0 to |carried|
      invariant hashes == set j | 0 <= j < k :: v.hash(carried[j])
      invariant IsGrouped(texts, pairs + PairsFor(hashes, v.id(key)), v.hash)
    {
      var digest := v.hash(carried[k]);
      ghost var some := PairsFor(hashes, v.id(key));
      OneMorePair(texts, pairs + some, v.hash, carried[k], v.id(key));
      var before := if digest in texts then texts[digest] else LicenceText(carried[k], {});
      texts := texts[digest := LicenceText(before.text, before.packages + {v.id(key)})];
      hashes := hashes + {digest};
      assert pairs + some + {(digest, v.id(key))} == pairs + PairsFor(hashes, v.id(key));
    }
  }

  lemma PairsAdd(v: View, keys: seq<PackageKey>, key: PackageKey)
    ensures PairsOf(v, keys + [key]) == PairsOf(v, keys) + PairsFor(HashesOf(v, key), v.id(key))
  {
    var more := keys + [key];
    assert more[|keys|] == key;
    assert forall k | 0 <= k < |keys| :: more[k] == keys[k];
  }

  lemma RecordsAdd(v: View, order: seq<PackageKey>, k: nat)
    requires k < |order|
    ensures Components(v, order[..k + 1]) == Components(v, order[..k]) + [ComponentOf(v, order[k])]
    ensures Relations(v, order[..k + 1]) == Relations(v, order[..k]) + [RelationOf(v, order[k])]
    ensures ThirdParty(v, order[..k + 1]) == ThirdParty(v, order[..k]) +
      if order[k] in v.workspace then [] else [order[k]]
  {
    assert order[..k + 1][..k] == order[..k] && order[..k + 1][k] == order[k];
  }

  lemma LicencesAdd(v: View, keys: seq<PackageKey>, key: PackageKey)
    ensures LicencesOf(v, keys + [key]) == LicencesOf(v, keys) + [LicenceOf(v, key)]
  {
  }

  /** The accumulation loop over the sorted keys, and the counts after it. */
  method Generate(v: View, order: seq<PackageKey>, inserted: seq<PackageKey>) returns (b: Bundle)
    requires multiset(inserted) == multiset(order)
    ensures IsAssembled(v, order, b)
  {
    var components: seq<Component>, relations: seq<Relation>, licences: seq<Licence> := [], [], [];
    var texts: Texts := map[];
    for k := 0 to |order|
      invariant components == Components(v, order[..k]) && relations == Relations(v, order[..k])
      invariant licences == LicencesOf(v, ThirdParty(v, order[..k]))
      invariant IsGrouped(texts, PairsOf(v, ThirdParty(v, order[..k])), v.hash)
    {
      RecordsAdd(v, order, k);
      ghost var third := ThirdParty(v, order[..k]);
      components := components + [ComponentOf(v, order[k])];
      relations := relations + [RelationOf(v, order[k])];
      if order[k] !in v.workspace {
        PairsAdd(v, third, order[k]);
        LicencesAdd(v, third, order[k]);
        var hashes;
        texts, hashes := NoteTexts(v, order[k], texts, PairsOf(v, third));
        licences := licences + [Licence(v.id(order[k]), v.classify(order[k]), hashes)];
      }
    }
    assert order[..|order|] == order;
    var counts := CountAll(v, order, inserted);
    b := Bundle(components, relations, licences, texts, counts);
  }

  /** The counts are taken over the keys as the lockfile lists them, not as they are sorted. */
  method CountAll(v: View, order: seq<PackageKey>, inserted: seq<PackageKey>) returns (counts: Counts)
    requires multiset(inserted) == multiset(order)
    ensures counts == CountsOf(v, order)
  {
    var sources: multiset<string> := multiset{};
    for k := 0 to |inserted|
      invariant sources == multiset(Mapped(v.source, inserted[..k]))
    {
      assert Mapped(v.source, inserted[..k + 1]) == Mapped(v.source, inserted[..k]) + [v.source(inserted[k])];
      sources := sources + multiset{v.source(inserted[k])};
    }
    assert inserted[..|inserted|] == inserted;
    MappedIgnoresOrder(v.source, inserted, order);
    var third := ThirdParty(v, order);
    var classifications: multiset<string> := multiset{};
    for k := 0 to |third|
      invariant classifications == multiset(Mapped(v.classify, third[..k]))
    {
      assert Mapped(v.classify, third[..k + 1]) == Mapped(v.classify, third[..k]) + [v.classify(third[k])];
      classifications := classifications + multiset{v.classify(third[k])};
    }
    assert third[..|third|] == third;
    assert |inserted| == |multiset(inserted)| == |multiset(order)| == |order|;
    counts := Counts(
      |inserted|, |v.workspace|, |v.direct|, |inserted| - |v.workspace| - |v.direct|, classifications, sources);
  }

  // ----- the verifier's recounts

  function RefsIn(components: seq<Component>): set<string> {
    set k | 0 <= k < |components| :: components[k].ref
  }

  function IdsIn(components: seq<Component>): set<string> {
    set k | 0 <= k < |components| :: components[k].id
  }

  /** The components that are not the workspace's own. */
  function ThirdPartyIds(components: seq<Component>): set<string> {
    set k | 0 <= k < |components| && components[k].scope != "workspace" :: components[k].id
  }

  function LicenceIds(licences: seq<Licence>): set<string> {
    set k | 0 <= k < |licences| :: licences[k].id
  }

  function LockedIds(packages: seq<Package>): set<string> {
    set k | 0 <= k < |packages| :: PackageId(packages[k].key)
  }

  /** The lockfile's checksum under a package id: the last package of that id has its say. */
  function LockedChecksum(packages: seq<Package>, id: string): Option<string> {
    if packages == [] then None
    else
      var last := packages[|packages| - 1];
      if PackageId(last.key) == id then last.checksum else LockedChecksum(packages[..|packages| - 1], id)
  }

  predicate ChecksumFits(component: Component, packages: seq<Package>) {
    var expected := LockedChecksum(packages, component.id);
    expected.Some? && expected.value != "" ==> expected.value in component.checksums
  }

  /** Built record by record: of two with the same reference, the later stands. */
  function RelationMap(relations: seq<Relation>): map<string, set<string>> {
    if relations == [] then map[]
    else
      var last := relations[|relations| - 1];
      RelationMap(relations[..|relations| - 1])[last.ref := last.dependsOn]
  }

  function RefById(components: seq<Component>): map<string, string> {
    if components == [] then map[]
    else
      var last := components[|components| - 1];
      RefById(components[..|components| - 1])[last.id := last.ref]
  }

  function At(refs: map<string, string>, id: string): string {
    if id in refs then refs[id] else ""
  }

  function RefsAt(refs: map<string, string>, keys: set<PackageKey>): set<string> {
    set key | key in keys :: At(refs, PackageId(key))
  }

  /** The relationships that the lockfile itself resolves to. */
  function ExpectedMap(refs: map<string, string>, keys: seq<PackageKey>, graph: Graph): map<string, set<string>> {
    if keys == [] then map[]
    else
      var last := keys[|keys| - 1];
      ExpectedMap(refs, keys[..|keys| - 1], graph)[
        At(refs, PackageId(last)) := RefsAt(refs, if last in graph then graph[last] else {})]
  }

  function ScopeIn(component: Component): string {
    component.scope
  }

  function SourceIn(component: Component): string {
    component.source
  }

  function ClassIn(licence: Licence): string {
    licence.classification
  }

  function PairsIn(licences: seq<Licence>): Pairs {
    set k, digest | 0 <= k < |licences| && digest in licences[k].hashes :: (digest, licences[k].id)
  }

  predicate RefsAreSound(b: Bundle, packages: seq<Package>) {
    |b.components| == |packages| && |b.relations| == |packages| && |RefsIn(b.components)| == |b.components| &&
    forall k | 0 <= k < |b.relations| ::
      b.relations[k].ref in RefsIn(b.components) && b.relations[k].dependsOn <= RefsIn(b.components)
  }

  predicate ComponentsMatchLock(b: Bundle, packages: seq<Package>) {
    IdsIn(b.components) == LockedIds(packages) &&
    forall k | 0 <= k < |b.components| :: ChecksumFits(b.components[k], packages)
  }

  predicate RelationsMatchLock(b: Bundle, packages: seq<Package>) {
    AreReadable(packages) && LockErrors(packages) == [] &&
    RelationMap(b.relations) == ExpectedMap(RefById(b.components), KeysOf(packages), LockGraph(packages))
  }

  predicate CountsMatch(b: Bundle, packages: seq<Package>) {
    var scopes := multiset(Mapped(ScopeIn, b.components));
    b.counts.unique == |packages| && b.counts.workspace == scopes["workspace"] && b.counts.direct == scopes["direct"] &&
    b.counts.transitive == scopes["transitive"] && b.counts.sources == multiset(Mapped(SourceIn, b.components))
  }

  predicate LicencesMatch(b: Bundle, hash: string -> string) {
    LicenceIds(b.licences) == ThirdPartyIds(b.components) &&
    b.counts.classifications == multiset(Mapped(ClassIn, b.licences)) &&
    (forall digest | digest in b.texts :: b.texts[digest].packages <= ThirdPartyIds(b.components)) &&
    IsGrouped(b.texts, PairsIn(b.licences), hash)
  }

  predicate IsAccepted(b: Bundle, packages: seq<Package>, hash: string -> string) {
    RefsAreSound(b, packages) && ComponentsMatchLock(b, packages) && RelationsMatchLock(b, packages) &&
    CountsMatch(b, packages) && LicencesMatch(b, hash)
  }

  datatype Fault =
    | GraphIncomplete | RefsInvalid | UnknownReference | UnknownPackage | ChecksumDiffers(id: string) | PackagesDiffer
    | LockUnresolved | RelationsDiffer | CountsDiffer | LicencesDiffer | LicenceCountsDiffer | BadText(digest: string)
    | TextsDiffer

  method CheckRefs(b: Bundle, packages: seq<Package>) returns (fault: Option<Fault>)
    ensures fault.None? <==> RefsAreSound(b, packages)
  {
    if |b.components| != |packages| || |b.relations| != |packages| {
      return Some(GraphIncomplete);
    }
    var refs := RefsIn(b.components);
    if |refs| != |b.components| {
      return Some(RefsInvalid);
    }
    for k := 0 to |b.relations|
      invariant forall j | 0 <= j < k :: b.relations[j].ref in refs && b.relations[j].dependsOn <= refs
    {
      if b.relations[k].ref !in refs || !(b.relations[k].dependsOn <= refs) {
        return Some(UnknownReference);
      }
    }
    fault := None;
  }

  lemma OneMoreComponent(components: seq<Component>, k: nat)
    requires k < |components|
    ensures IdsIn(components[..k + 1]) == IdsIn(components[..k]) + {components[k].id}
    ensures RefById(components[..k + 1]) == RefById(components[..k])[components[k].id := components[k].ref]
    ensures IdsIn(components[..k + 1]) <= IdsIn(components)
  {
    assert components[..k + 1][..k] == components[..k] && components[..k + 1][k] == components[k];
    assert forall j | 0 <= j < k :: components[..k][j] == components[j] == components[..k + 1][j];
  }

  lemma OneMoreCount(components: seq<Component>, k: nat)
    requires k < |components|
    ensures multiset(Mapped(ScopeIn, components[..k + 1])) ==
      multiset(Mapped(ScopeIn, components[..k])) + multiset{components[k].scope}
    ensures multiset(Mapped(SourceIn, components[..k + 1])) ==
      multiset(Mapped(SourceIn, components[..k])) + multiset{components[k].source}
  {
    assert components[..k + 1] == components[..k] + [components[k]];
    assert Mapped(ScopeIn, components[..k + 1]) == Mapped(ScopeIn, components[..k]) + [components[k].scope];
    assert Mapped(SourceIn, components[..k + 1]) == Mapped(SourceIn, components[..k]) + [components[k].source];
  }

  /** One pass over the components gathers ids, references and both counters. */
  method Observe(components: seq<Component>, packages: seq<Package>)
    returns (fault: Option<Fault>, refById: map<string, string>, scopes: multiset<string>, sources: multiset<string>)
    ensures fault.None? <==>
      IdsIn(components) == LockedIds(packages) &&
      forall k | 0 <= k < |components| :: ChecksumFits(components[k], packages)
    ensures fault.None? ==> refById == RefById(components)
    ensures fault.None? ==>
      scopes == multiset(Mapped(ScopeIn, components)) && sources == multiset(Mapped(SourceIn, components))
  {
    var locked := LockedIds(packages);
    var ids: set<string> := {};
    refById, scopes, sources := map[], multiset{}, multiset{};
    for k := 0 to |components|
      invariant ids == IdsIn(components[..k]) && ids <= locked && refById == RefById(components[..k])
      invariant forall j | 0 <= j < k :: ChecksumFits(components[j], packages)
      invariant scopes == multiset(Mapped(ScopeIn, components[..k])) &&
        sources == multiset(Mapped(SourceIn, components[..k]))
    {
      var component := components[k];
      OneMoreComponent(components, k);
      OneMoreCount(components, k);
      if component.id !in locked {
        return Some(UnknownPackage), refById, scopes, sources;
      }
      ids := ids + {component.id};
      refById := refById[component.id := component.ref];
      scopes := scopes + multiset{component.scope};
      sources := sources + multiset{component.source};
      if !ChecksumFits(component, packages) {
        return Some(ChecksumDiffers(component.id)), refById, scopes, sources;
      }
    }
    assert components[..|components|] == components;
    fault := if ids == locked then None else Some(PackagesDiffer);
  }

  method Expect(packages: seq<Package>, graph: Graph, refById: map<string, string>)
    returns (expected: map<string, set<string>>)
    ensures expected == ExpectedMap(refById, KeysOf(packages), graph)
  {
    var keys := KeysOf(packages);
    expected := map[];
    for k := 0 to |keys|
      invariant expected == ExpectedMap(refById, keys[..k], graph)
    {
      assert keys[..k + 1][..k] == keys[..k] && keys[..k + 1][k] == keys[k];
      var targets := if keys[k] in graph then graph[keys[k]] else {};
      expected := expected[At(refById, PackageId(keys[k])) := RefsAt(refById, targets)];
    }
    assert keys[..|keys|] == keys;
  }

  method ObserveRelations(relations: seq<Relation>) returns (observed: map<string, set<string>>)
    ensures observed == RelationMap(relations)
  {
    observed := map[];
    for k := 0 to |relations|
      invariant observed == RelationMap(relations[..k])
    {
      assert relations[..k + 1][..k] == relations[..k] && relations[..k + 1][k] == relations[k];
      observed := observed[relations[k].ref := relations[k].dependsOn];
    }
    assert relations[..|relations|] == relations;
  }

  method CheckRelations(b: Bundle, packages: seq<Package>, refById: map<string, string>) returns (fault: Option<Fault>)
    requires refById == RefById(b.components)
    ensures fault.None? <==> RelationsMatchLock(b, packages)
  {
    var resolution := ResolveGraph(packages);
    if resolution.EmptyRecord? || resolution.errors != [] {
      return Some(LockUnresolved);
    }
    var expected := Expect(packages, resolution.graph, refById);
    var observed := ObserveRelations(b.relations);
    fault := if observed == expected then None else Some(RelationsDiffer);
  }

  /** The reverse references: which packages name which text. */
  method Reverse(licences: seq<Licence>) returns (reverse: map<string, set<string>>)
    ensures reverse.Keys == DigestsIn(PairsIn(licences))
    ensures forall digest | digest in reverse :: reverse[digest] == CarriersOf(PairsIn(licences), digest)
  {
    reverse := map[];
    for k := 0 to |licences|
      invariant reverse.Keys == DigestsIn(PairsIn(licences[..k]))
      invariant forall digest | digest in reverse :: reverse[digest] == CarriersOf(PairsIn(licences[..k]), digest)
    {
      var one := licences[k];
      ghost var pairs := PairsIn(licences[..k]);
      PairsAddLicence(licences, k);
      ghost var before := reverse;
      reverse := map digest | digest in reverse.Keys + one.hashes ::
        (if digest in reverse then reverse[digest] else {}) + (if digest in one.hashes then {one.id} else {});
      ReverseStep(before, pairs, one, reverse);
    }
    assert licences[..|licences|] == licences;
  }

  lemma PairsAddLicence(licences: seq<Licence>, k: nat)
    requires k < |licences|
    ensures PairsIn(licences[..k + 1]) == PairsIn(licences[..k]) + PairsFor(licences[k].hashes, licences[k].id)
  {
    var some, more := licences[..k], licences[..k + 1];
    assert more[k] == licences[k];
    assert forall j | 0 <= j < k :: some[j] == more[j];
  }

  lemma ReverseStep(before: map<string, set<string>>, pairs: Pairs, one: Licence, after: map<string, set<string>>)
    requires before.Keys == DigestsIn(pairs)
    requires forall digest | digest in before :: before[digest] == CarriersOf(pairs, digest)
    requires after == map digest | digest in before.Keys + one.hashes ::
      (if digest in before then before[digest] else {}) + (if digest in one.hashes then {one.id} else {})
    ensures var more := pairs + PairsFor(one.hashes, one.id);
      after.Keys == DigestsIn(more) && forall digest | digest in after :: after[digest] == CarriersOf(more, digest)
  {
    var more := pairs + PairsFor(one.hashes, one.id);
    forall digest | digest in one.hashes ensures (digest, one.id) in more { }
    forall pair | pair in pairs ensures pair in more { }
    assert after.Keys == DigestsIn(more);
    forall digest | digest in after ensures after[digest] == CarriersOf(more, digest) {
      CarriersAdd(pairs, one, digest);
      if digest !in before { assert CarriersOf(pairs, digest) == {}; }
    }
  }

  lemma CarriersAdd(pairs: Pairs, one: Licence, digest: string)
    ensures CarriersOf(pairs + PairsFor(one.hashes, one.id), digest) ==
      CarriersOf(pairs, digest) + if digest in one.hashes then {one.id} else {}
  {
    var more := pairs + PairsFor(one.hashes, one.id);
    assert digest in one.hashes ==> (digest, one.id) in more;
  }

  method CheckLicences(b: Bundle, hash: string -> string) returns (fault: Option<Fault>)
    ensures fault.None? <==> LicencesMatch(b, hash)
  {
    var third := ThirdPartyIds(b.components);
    if LicenceIds(b.licences) != third {
      return Some(LicencesDiffer);
    }
    if b.counts.classifications != multiset(Mapped(ClassIn, b.licences)) {
      return Some(LicenceCountsDiffer);
    }
    var left := b.texts.Keys;
    while left != {}
      invariant left <= b.texts.Keys
      invariant forall digest | digest in b.texts.Keys - left ::
        hash(b.texts[digest].text) == digest && b.texts[digest].packages <= third
      decreases |left|
    {
      var digest :| digest in left;
      if hash(b.texts[digest].text) != digest || !(b.texts[digest].packages <= third) {
        return Some(BadText(digest));
      }
      left := left - {digest};
    }
    var reverse := Reverse(b.licences);
    var known := map digest | digest in b.texts :: b.texts[digest].packages;
    assert reverse == known <==> IsGrouped(b.texts, PairsIn(b.licences), hash) by {
      if reverse == known { assert reverse.Keys == b.texts.Keys; }
    }
    fault := if reverse == known then None else Some(TextsDiffer);
  }

  method Verify(b: Bundle, packages: seq<Package>, hash: string -> string) returns (fault: Option<Fault>)
    ensures fault.None? <==> IsAccepted(b, packages, hash)
  {
    fault := CheckRefs(b, packages);
    if fault.Some? {
      return;
    }
    var refById, scopes, sources;
    fault, refById, scopes, sources := Observe(b.components, packages);
    if fault.Some? {
      return;
    }
    fault := CheckRelations(b, packages, refById);
    if fault.Some? {
      return;
    }
    if b.counts.unique != |packages| || b.counts.workspace != scopes["workspace"] ||
      b.counts.direct != scopes["direct"] ||
      b.counts.transitive != scopes["transitive"] || b.counts.sources != sources {
      return Some(CountsDiffer);
    }
    fault := CheckLicences(b, hash);
  }
}
