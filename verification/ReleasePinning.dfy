/**
 What strict acceptance says about a release directory: the manifest pins its files exactly. And
 which of the trees that package assembles it then accepts.
 */
module ReleasePinning {
  import opened Common
  import opened ReleaseTree
  import opened ReleaseVerify

  predicate IsMetadata(path: Parts) {
    path == [MANIFEST] || path == [CHECKSUMS]
  }

  // ----- any two strictly accepted directories with the same manifest

  predicate SameManifest(a: Tree, b: Tree) {
    HasFile(a, [MANIFEST]) && HasFile(b, [MANIFEST]) && a[[MANIFEST]].content == b[[MANIFEST]].content
  }

  lemma MetadataIsPlain()
    ensures IsPlainPath([MANIFEST]) && IsPlainPath([CHECKSUMS]) && Posix([MANIFEST]) == MANIFEST &&
      Posix([CHECKSUMS]) == CHECKSUMS
  {
    assert '/' !in MANIFEST && '/' !in CHECKSUMS;
  }

  /** A payload file of an accepted directory has a record of its own under its own text. */
  lemma FileHasEntry(tree: Tree, entries: seq<Entry>, path: Parts) returns (k: nat)
    requires IsTree(tree) && ExtrasOf(tree, entries) == {} && path in FilesOf(tree) && !IsMetadata(path)
    ensures k < |entries| && entries[k].Entry? && entries[k].path == Posix(path) && PartsOf(entries[k].path) == path
  {
    PosixReadsBack(path);
    MetadataIsPlain();
    if Posix(path) == MANIFEST { PosixIsInjective(path, [MANIFEST]); }
    if Posix(path) == CHECKSUMS { PosixIsInjective(path, [CHECKSUMS]); }
    assert Posix(path) in Actual(tree);
    assert Posix(path) in PathsIn(entries) || Posix(path) in ExtrasOf(tree, entries);
    k :| 0 <= k < |entries| && entries[k].Entry? && entries[k].path == Posix(path);
  }

  predicate Matches(a: Node, b: Node, hash: Bytes -> string) {
    a.File? && b.File? && |a.content| == |b.content| && hash(a.content) == hash(b.content) &&
    a.executable == b.executable
  }

  lemma FileIsPinned(
    a: Tree, b: Tree, entries: seq<Entry>, s: map<string, string>, t: map<string, string>, hash: Bytes -> string,
      path: Parts)
    requires IsTree(a) && EntriesFit(a, entries, s, hash) && EntriesFit(b, entries, t, hash) &&
      ExtrasOf(a, entries) == {}
    requires path in FilesOf(a) && !IsMetadata(path)
    ensures path in FilesOf(b) && Matches(a[path], b[path], hash)
  {
    var k := FileHasEntry(a, entries, path);
    assert EntryFits(a, entries[k], s, hash);
    assert EntryFits(b, entries[k], t, hash);
  }

  lemma FilesArePinned(
    a: Tree, b: Tree, entries: seq<Entry>, s: map<string, string>, t: map<string, string>, hash: Bytes -> string)
    requires IsTree(a) && EntriesFit(a, entries, s, hash) && EntriesFit(b, entries, t, hash) &&
      ExtrasOf(a, entries) == {}
    ensures forall path | path in FilesOf(a) && !IsMetadata(path) ::
      path in FilesOf(b) && Matches(a[path], b[path], hash)
  {
    forall path | path in FilesOf(a) && !IsMetadata(path)
      ensures path in FilesOf(b) && Matches(a[path], b[path], hash)
    {
      FileIsPinned(a, b, entries, s, t, hash, path);
    }
  }

  predicate HasMetadata(tree: Tree) {
    HasFile(tree, [MANIFEST]) && HasFile(tree, [CHECKSUMS])
  }

  /**
   Strict verification pins the tree: two accepted directories with the same manifest have the same
   files, each payload file with the same size, digest and executable flag, and the same checksums.
   */
  lemma AcceptancePinsTree(a: Tree, b: Tree, tools: Tools)
    requires IsTree(a) && IsTree(b) && IsVerified(a, true, tools) && IsVerified(b, true, tools) && SameManifest(a, b)
    ensures FilesOf(a) == FilesOf(b) && SumsOf(a, tools) == SumsOf(b, tools)
    ensures forall path | path in FilesOf(a) && !IsMetadata(path) ::
      path in FilesOf(b) && Matches(a[path], b[path], tools.hash)
  {
    var entries := ManifestOf(a, tools).value.files.value;
    var s, t := SumsOf(a, tools).value, SumsOf(b, tools).value;
    assert ManifestOf(b, tools) == ManifestOf(a, tools);
    assert EntriesFit(a, entries, s, tools.hash) && EntriesFit(b, entries, t, tools.hash);
    FilesArePinned(a, b, entries, s, t, tools.hash);
    FilesArePinned(b, a, entries, t, s, tools.hash);
    assert HasMetadata(a) && HasMetadata(b);
    SameFileSet(a, b);
    EqualSums(a, b, entries, s, t, tools.hash);
  }

  lemma SameFileSet(a: Tree, b: Tree)
    requires HasMetadata(a) && HasMetadata(b)
    requires forall path | path in FilesOf(a) && !IsMetadata(path) :: path in FilesOf(b)
    requires forall path | path in FilesOf(b) && !IsMetadata(path) :: path in FilesOf(a)
    ensures FilesOf(a) == FilesOf(b)
  {
  }

  lemma SumIsPinned(tree: Tree, entries: seq<Entry>, sums: map<string, string>, hash: Bytes -> string, k: nat)
    requires EntriesFit(tree, entries, sums, hash) && k < |entries|
    ensures entries[k].Entry? && entries[k].path in sums && entries[k].digest == Some(sums[entries[k].path])
  {
    assert EntryFits(tree, entries[k], sums, hash);
  }

  lemma EqualSums(a: Tree, b: Tree, entries: seq<Entry>, s: map<string, string>, t: map<string, string>,
      hash: Bytes -> string)
    requires RecordsFit(a, entries, s, hash) && RecordsFit(b, entries, t, hash) && SameManifest(a, b)
    ensures s == t
  {
    forall path | path in PathsIn(entries) ensures path in s && path in t && s[path] == t[path] {
      SameSum(a, b, entries, s, t, hash, path);
    }
  }

  lemma SameSum(
    a: Tree, b: Tree, entries: seq<Entry>, s: map<string, string>, t: map<string, string>, hash: Bytes -> string,
      path: string)
    requires EntriesFit(a, entries, s, hash) && EntriesFit(b, entries, t, hash) && path in PathsIn(entries)
    ensures path in s && path in t && s[path] == t[path]
  {
    var k :| 0 <= k < |entries| && entries[k].Entry? && entries[k].path == path;
    SumIsPinned(a, entries, s, hash, k);
    SumIsPinned(b, entries, t, hash, k);
  }

  // ----- and no more than that: exactly which other directories are accepted

  /** Two trees agree on all that a manifest can speak of. */
  predicate SamePayload(a: Tree, b: Tree) {
    FilesOf(a) == FilesOf(b) && SameManifest(a, b) &&
    forall path | path in FilesOf(a) && !IsMetadata(path) :: path in b && a[path] == b[path]
  }

  /** The hash tells apart the contents that the two trees hold at the same path. */
  predicate IsTold(a: Tree, b: Tree, hash: Bytes -> string) {
    forall path | path in FilesOf(a) && path in FilesOf(b) && hash(a[path].content) == hash(b[path].content) ::
      a[path].content == b[path].content
  }

  /** As package writes it, the manifest lists neither itself nor the checksum file. */
  predicate ListsPayloadOnly(entries: seq<Entry>) {
    forall k | 0 <= k < |entries| && entries[k].Entry? :: !IsMetadata(PartsOf(entries[k].path))
  }

  lemma CanonicalOnSamePayload(a: Tree, b: Tree)
    requires SamePayload(a, b) && IsCanonical(a)
    ensures IsCanonical(b)
  {
    forall p | p in REQUIRED ensures HasFile(b, p) {
      assert HasFile(a, p) && p in FilesOf(a);
      assert p in FilesOf(b);
    }
    HookOnSamePayload(a, b, ["bin", "emuwiz"]);
    HookOnSamePayload(a, b, ["bin", "emuwiz-cli"]);
    var p :| p in a && |p| == 3 && p[..2] == ["docs", "licenses"] && a[p].File?;
    assert p in FilesOf(a);
  }

  lemma HookOnSamePayload(a: Tree, b: Tree, path: Parts)
    requires SamePayload(a, b) && |path| == 2
    ensures HasHook(b, path) ==> HasHook(a, path)
  {
    if HasHook(b, path) { assert path in FilesOf(b); }
  }

  lemma ArtifactOnSamePayload(a: Tree, b: Tree, artifact: Artifact, entries: seq<Entry>, arch: Bytes -> Option<string>)
    requires SamePayload(a, b) && ListsPayloadOnly(entries) && ArtifactFits(a, artifact, entries, arch)
    ensures ArtifactFits(b, artifact, entries, arch)
  {
    var j :| 0 <= j < |entries| && entries[j].Entry? && entries[j].path == artifact.path.value &&
      entries[j].digest == artifact.digest && entries[j].size == artifact.size &&
      HasFile(a, PartsOf(entries[j].path)) && arch(a[PartsOf(entries[j].path)].content) == artifact.arch;
    assert PartsOf(entries[j].path) in FilesOf(a);
  }

  lemma EntryOnSamePayload(a: Tree, b: Tree, entry: Entry, sums: map<string, string>, hash: Bytes -> string)
    requires SamePayload(a, b) && EntryFits(a, entry, sums, hash) && !IsMetadata(PartsOf(entry.path))
    ensures EntryFits(b, entry, sums, hash)
  {
    assert PartsOf(entry.path) in FilesOf(a);
  }

  lemma RecordsOnSamePayload(a: Tree, b: Tree, entries: seq<Entry>, sums: map<string, string>, hash: Bytes -> string)
    requires SamePayload(a, b) && ListsPayloadOnly(entries) && RecordsFit(a, entries, sums, hash)
    ensures RecordsFit(b, entries, sums, hash)
  {
    forall k | 0 <= k < |entries| ensures EntryFits(b, entries[k], sums, hash) {
      assert EntryFits(a, entries[k], sums, hash);
      EntryOnSamePayload(a, b, entries[k], sums, hash);
    }
  }

  lemma PayloadSuffices(a: Tree, b: Tree, tools: Tools)
    requires IsVerified(a, true, tools) && SamePayload(a, b) && SumsOf(a, tools) == SumsOf(b, tools)
    requires ListsPayloadOnly(ManifestOf(a, tools).value.files.value)
    requires PayloadFits(b, ManifestOf(a, tools).value, true, tools)
    ensures IsVerified(b, true, tools)
  {
    var manifest, sums := ManifestOf(a, tools).value, SumsOf(a, tools).value;
    CanonicalOnSamePayload(a, b);
    RecordsOnSamePayload(a, b, manifest.files.value, sums, tools.hash);
    forall k | 0 <= k < |manifest.artifacts.value|
      ensures ArtifactFits(b, manifest.artifacts.value[k], manifest.files.value, tools.arch)
    {
      ArtifactOnSamePayload(a, b, manifest.artifacts.value[k], manifest.files.value, tools.arch);
    }
    assert Actual(b) == Actual(a);
  }

  /**
   The manifest of one accepted directory decides which others are accepted: those with the very
   same payload, whose checksum file names the same digests, and that hold nothing a payload may
   not hold. Empty folders, line order in SHA256SUMS and the mode of the two metadata files are free.
   */
  lemma AcceptedExactlyWhenSame(a: Tree, b: Tree, tools: Tools)
    requires IsTree(a) && IsTree(b) && IsVerified(a, true, tools) && SameManifest(a, b) && IsTold(a, b, tools.hash)
    requires ListsPayloadOnly(ManifestOf(a, tools).value.files.value)
    ensures IsVerified(b, true, tools) <==>
      SamePayload(a, b) && SumsOf(b, tools) == SumsOf(a, tools) &&
      PayloadFits(b, ManifestOf(a, tools).value, true, tools)
  {
    if IsVerified(b, true, tools) {
      AcceptancePinsTree(a, b, tools);
      forall path | path in FilesOf(a) && !IsMetadata(path) ensures path in b && a[path] == b[path] {
        assert Matches(a[path], b[path], tools.hash);
      }
    } else if SamePayload(a, b) && SumsOf(b, tools) == SumsOf(a, tools) &&
      PayloadFits(b, ManifestOf(a, tools).value, true, tools) {
      PayloadSuffices(a, b, tools);
    }
  }
}
