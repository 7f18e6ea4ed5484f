/**
 verify_directory: a release directory against its manifest and checksum file, and the records that
 package writes for it.
 */
module ReleaseVerify {
  import opened Common
  import opened ReleaseTree
  import MarkerScan

  datatype Entry = Malformed | Entry(path: string, size: Option<nat>, digest: Option<string>, executable: Option<bool>)

  datatype Artifact =
    | Malformed
    | Artifact(path: Option<string>, arch: Option<string>, size: Option<nat>, digest: Option<string>)

  datatype Gui = Gui(target: string, generation: string, entrypoint: string, digest: Option<string>)

  datatype Manifest = Manifest(
    schema: int, files: Option<seq<Entry>>, artifacts: Option<seq<Artifact>>, gui: Option<Gui>, hasSbom: bool)

  /** What the verifier gets from outside: hashing, decoding, ELF inspection, the SBOM's own checks. */
  datatype Tools = Tools(
    hash: Bytes -> string,
    text: Bytes -> Option<string>,
    manifest: Bytes -> Option<Manifest>,
    arch: Bytes -> Option<string>,
    sbomFits: Tree -> bool)

  const MANIFEST := "manifest.json"
  const CHECKSUMS := "SHA256SUMS"
  const GUI_PATH := "bin/emuwiz"
  const CLI_PATH := "bin/emuwiz-cli"
  const CANONICAL_EXECUTABLES := {GUI_PATH, CLI_PATH, "install.sh"}
  const ENTRYPOINT := "crates/archivefs-gui/src/bin/emuwiz.rs"
  const HOOK := "EMUWIZ_WRITER_GATE_PROC_ROOT"

  const REQUIRED: set<Parts> := {
    ["bin", "emuwiz"], ["bin", "emuwiz-cli"], ["install.sh"], ["config.toml.example"],
    ["assets", "linux", "io.github.kiehntre.emuwiz.desktop.in"],
    ["assets", "branding", "emuwiz-logo-32.png"], ["assets", "branding", "emuwiz-logo-64.png"],
    ["assets", "branding", "emuwiz-logo-128.png"], ["assets", "branding", "emuwiz-logo-256.png"],
    ["assets", "branding", "emuwiz-logo-512.png"],
    ["docs", "README.txt"], ["docs", "LICENSES.txt"], ["BUILD_INFO.txt"], ["VERIFY.txt"]
  }

  datatype Fault =
    | BadManifest | BadChecksums | MissingCanonical | TestHook(binary: Parts) | NoLicence | BadLists | BadGui
    | BadEntry | UnsafeEntry(path: string) | ChecksumSetDiffers
    | NoFile(path: string) | SizeDiffers(path: string) | ModeDiffers(path: string) | DigestDiffers(path: string)
    | UnexpectedExecutable(path: string) | ManifestDigestDiffers
    | UnlistedArtifact | ArchDiffers(path: string) | ArtifactDigestDiffers(path: string)
    | ArtifactSizeDiffers(path: string)
    | GuiDigestDiffers | BadPayload(payload: Payload) | SbomFails | UndeclaredSbom | Extras(paths: set<string>)

  datatype Verdict = Verified(extras: set<string>) | Refused(fault: Fault)

  // ----- what acceptance asks for, one part at a time

  predicate IsSafe(entry: Entry) {
    entry.Entry? && !IsUnsafe(entry.path)
  }

  predicate NoPathTwice(entries: seq<Entry>) {
    forall i, j | 0 <= i < j < |entries| && entries[i].Entry? && entries[j].Entry? :: entries[i].path != entries[j].path
  }

  /** Distinct relative paths without parent steps. */
  predicate IsListing(entries: seq<Entry>) {
    (forall k | 0 <= k < |entries| :: IsSafe(entries[k])) && NoPathTwice(entries)
  }

  function PathsIn(entries: seq<Entry>): set<string> {
    set k | 0 <= k < |entries| && entries[k].Entry? :: entries[k].path
  }

  predicate MayExecute(path: string) {
    path in CANONICAL_EXECUTABLES || (StartsWith(path, "bin/") && EndsWith(path, ".AppImage"))
  }

  predicate EntryFits(tree: Tree, entry: Entry, sums: map<string, string>, hash: Bytes -> string) {
    entry.Entry? && HasFile(tree, PartsOf(entry.path)) &&
    var node := tree[PartsOf(entry.path)];
    entry.size == Some(|node.content|) && entry.executable == Some(node.executable) &&
    entry.digest == Some(hash(node.content)) && entry.path in sums && sums[entry.path] == hash(node.content) &&
    (node.executable ==> MayExecute(entry.path))
  }

  predicate EntriesFit(tree: Tree, entries: seq<Entry>, sums: map<string, string>, hash: Bytes -> string) {
    forall k | 0 <= k < |entries| :: EntryFits(tree, entries[k], sums, hash)
  }

  predicate ArtifactFits(tree: Tree, artifact: Artifact, entries: seq<Entry>, arch: Bytes -> Option<string>) {
    artifact.Artifact? && artifact.path.Some? &&
    exists k | 0 <= k < |entries| ::
      entries[k].Entry? && entries[k].path == artifact.path.value &&
      entries[k].digest == artifact.digest && entries[k].size == artifact.size &&
      HasFile(tree, PartsOf(entries[k].path)) && arch(tree[PartsOf(entries[k].path)].content) == artifact.arch
  }

  /** The first artifact of that path. */
  function FirstArtifact(artifacts: seq<Artifact>, path: string): (found: Option<Artifact>)
    ensures found.Some? ==> found.value.Artifact? && found.value in artifacts
  {
    if artifacts == [] then None
    else if artifacts[0].Artifact? && artifacts[0].path == Some(path) then Some(artifacts[0])
    else FirstArtifact(artifacts[1..], path)
  }

  predicate GuiNamed(gui: Option<Gui>) {
    gui.Some? && gui.value.target == "emuwiz" && gui.value.generation in {"native-v2", "fixture"} &&
    gui.value.entrypoint == ENTRYPOINT
  }

  predicate GuiFits(gui: Gui, artifacts: seq<Artifact>) {
    var found := FirstArtifact(artifacts, GUI_PATH);
    found.Some? && gui.digest == found.value.digest
  }

  predicate HasLicence(tree: Tree) {
    exists p | p in tree :: |p| == 3 && p[..2] == ["docs", "licenses"] && tree[p].File?
  }

  function Ascii(text: string): Bytes {
    seq(|text|, k requires 0 <= k < |text| => (text[k] as int % 256) as bv8)
  }

  predicate HasHook(tree: Tree, path: Parts) {
    HasFile(tree, path) && MarkerScan.Holds(tree[path].content, Ascii(HOOK))
  }

  /** The parts of the payload that every release has, with no test hook in its binaries. */
  predicate IsCanonical(tree: Tree) {
    (forall p | p in REQUIRED :: HasFile(tree, p)) &&
    !HasHook(tree, ["bin", "emuwiz"]) && !HasHook(tree, ["bin", "emuwiz-cli"]) && HasLicence(tree)
  }

  function Actual(tree: Tree): set<string> {
    set p | p in FilesOf(tree) :: Posix(p)
  }

  function ExtrasOf(tree: Tree, entries: seq<Entry>): set<string> {
    Actual(tree) - PathsIn(entries) - {MANIFEST, CHECKSUMS}
  }

  /** The checksum file and the records, against each other and against the tree. */
  predicate RecordsFit(tree: Tree, entries: seq<Entry>, sums: map<string, string>, hash: Bytes -> string) {
    HasFile(tree, [MANIFEST]) && IsListing(entries) && sums.Keys == PathsIn(entries) + {MANIFEST} &&
    EntriesFit(tree, entries, sums, hash) && sums[MANIFEST] == hash(tree[[MANIFEST]].content)
  }

  function SumsOf(tree: Tree, tools: Tools): Option<map<string, string>> {
    if !HasFile(tree, [CHECKSUMS]) then None
    else
      var text := tools.text(tree[[CHECKSUMS]].content);
      if text.None? then None else Sums(text.value)
  }

  function ManifestOf(tree: Tree, tools: Tools): Option<Manifest> {
    if !HasFile(tree, [MANIFEST]) then None
    else
      var manifest := tools.manifest(tree[[MANIFEST]].content);
      if manifest.Some? && manifest.value.schema == 1 then manifest else None
  }

  /** The manifest's own statements, and the lists it must have. */
  predicate IsComplete(manifest: Manifest) {
    manifest.files.Some? && manifest.artifacts.Some? && GuiNamed(manifest.gui)
  }

  predicate PayloadFits(tree: Tree, manifest: Manifest, strict: bool, tools: Tools) {
    IsClean(tree) && (if manifest.hasSbom then tools.sbomFits(tree) else strict ==> ["SBOM"] !in tree)
  }

  predicate ArtifactsFit(tree: Tree, manifest: Manifest, tools: Tools)
    requires IsComplete(manifest)
  {
    (forall k | 0 <= k < |manifest.artifacts.value| ::
      ArtifactFits(tree, manifest.artifacts.value[k], manifest.files.value, tools.arch)) &&
    GuiFits(manifest.gui.value, manifest.artifacts.value)
  }

  predicate IsVerified(tree: Tree, strict: bool, tools: Tools) {
    ManifestOf(tree, tools).Some? && SumsOf(tree, tools).Some? &&
    var manifest, sums := ManifestOf(tree, tools).value, SumsOf(tree, tools).value;
    IsCanonical(tree) && IsComplete(manifest) && RecordsFit(tree, manifest.files.value, sums, tools.hash) &&
    ArtifactsFit(tree, manifest, tools) && PayloadFits(tree, manifest, strict, tools) &&
    (strict ==> ExtrasOf(tree, manifest.files.value) == {})
  }

  // ----- the verifier

  method CheckHook(tree: Tree, path: Parts) returns (found: bool)
    requires HasFile(tree, path)
    ensures found == HasHook(tree, path)
  {
    var content := tree[path].content;
    var chunks := if content == [] then [] else [content];
    assert MarkerScan.Concat(chunks) == content by {
      if content != [] { assert chunks[..0] == [] && [] + content == content; }
    }
    var marker := Ascii(HOOK);
    var markers := [marker];
    var hooks := MarkerScan.BinaryContains(chunks, markers);
    assert markers[0] in markers;
    assert forall m | m in hooks :: m == marker;
    found := hooks != {};
    assert found <==> marker in hooks by { if found { var m :| m in hooks; } }
  }

  method CheckCanonical(tree: Tree) returns (fault: Option<Fault>)
    ensures fault.None? <==> IsCanonical(tree)
  {
    if exists p :: p in REQUIRED && !HasFile(tree, p) {
      return Some(MissingCanonical);
    }
    assert ["bin", "emuwiz"] in REQUIRED && ["bin", "emuwiz-cli"] in REQUIRED;
    var hook := CheckHook(tree, ["bin", "emuwiz"]);
    if hook {
      return Some(TestHook(["bin", "emuwiz"]));
    }
    hook := CheckHook(tree, ["bin", "emuwiz-cli"]);
    if hook {
      return Some(TestHook(["bin", "emuwiz-cli"]));
    }
    fault := if HasLicence(tree) then None else Some(NoLicence);
  }

  /** The records by their paths. */
  predicate IsIndexOf(expected: map<string, Entry>, entries: seq<Entry>) {
    expected.Keys == PathsIn(entries) &&
    forall k | 0 <= k < |entries| && entries[k].Entry? ::
      entries[k].path in expected && expected[entries[k].path] == entries[k]
  }

  lemma PathsAdd(entries: seq<Entry>, k: nat)
    requires k < |entries| && entries[k].Entry?
    ensures PathsIn(entries[..k + 1]) == PathsIn(entries[..k]) + {entries[k].path}
  {
    var some, more := entries[..k], entries[..k + 1];
    assert more[k] == entries[k];
    assert forall j | 0 <= j < k :: some[j] == more[j];
  }

  lemma ApartAdds(entries: seq<Entry>, k: nat)
    requires k < |entries| && entries[k].Entry? && NoPathTwice(entries[..k])
    ensures NoPathTwice(entries[..k + 1]) <==> entries[k].path !in PathsIn(entries[..k])
  {
    var some, more := entries[..k], entries[..k + 1];
    assert more[k] == entries[k];
    assert forall j | 0 <= j < k :: some[j] == more[j];
    if entries[k].path in PathsIn(some) {
      var j :| 0 <= j < k && some[j].Entry? && some[j].path == entries[k].path;
      assert more[j].path == more[k].path;
    } else {
      assert forall j | 0 <= j < k && some[j].Entry? :: some[j].path in PathsIn(some);
    }
  }

  lemma ListingAdds(entries: seq<Entry>, k: nat)
    requires k < |entries| && IsListing(entries[..k])
    ensures IsListing(entries[..k + 1]) <==> IsSafe(entries[k]) && entries[k].path !in PathsIn(entries[..k])
  {
    assert entries[..k + 1][k] == entries[k];
    assert forall j | 0 <= j < k :: entries[..k][j] == entries[..k + 1][j];
    if entries[k].Entry? { ApartAdds(entries, k); }
  }

  lemma ListingOfAll(entries: seq<Entry>, k: nat)
    requires k <= |entries| && IsListing(entries)
    ensures IsListing(entries[..k])
  {
    assert forall j | 0 <= j < k :: entries[..k][j] == entries[j];
  }

  lemma IndexAdds(entries: seq<Entry>, k: nat, expected: map<string, Entry>)
    requires k < |entries| && IsIndexOf(expected, entries[..k]) && entries[k].Entry? && entries[k].path !in expected
    ensures IsIndexOf(expected[entries[k].path := entries[k]], entries[..k + 1])
  {
    PathsAdd(entries, k);
    assert entries[..k + 1][k] == entries[k];
    assert forall j | 0 <= j < k :: entries[..k][j] == entries[..k + 1][j];
  }

  method ListEntries(entries: seq<Entry>) returns (fault: Option<Fault>, expected: map<string, Entry>)
    ensures fault.None? <==> IsListing(entries)
    ensures fault.None? ==> IsIndexOf(expected, entries)
  {
    expected := map[];
    for k := 0 to |entries|
      invariant IsListing(entries[..k]) && IsIndexOf(expected, entries[..k])
    {
      var entry := entries[k];
      ListingAdds(entries, k);
      if entry.Malformed? || IsUnsafe(entry.path) || entry.path in expected {
        assert !IsListing(entries) by { if IsListing(entries) { ListingOfAll(entries, k + 1); } }
        return Some(if entry.Malformed? then BadEntry else UnsafeEntry(entry.path)), expected;
      }
      IndexAdds(entries, k, expected);
      expected := expected[entry.path := entry];
    }
    assert entries[..|entries|] == entries;
    fault := None;
  }

  method CheckEntry(tree: Tree, entry: Entry, sums: map<string, string>, hash: Bytes -> string)
    returns (fault: Option<Fault>)
    requires entry.Entry?
    ensures fault.None? <==> EntryFits(tree, entry, sums, hash)
  {
    var path := PartsOf(entry.path);
    if !HasFile(tree, path) {
      return Some(NoFile(entry.path));
    }
    var node := tree[path];
    if entry.size != Some(|node.content|) {
      return Some(SizeDiffers(entry.path));
    }
    if entry.executable != Some(node.executable) {
      return Some(ModeDiffers(entry.path));
    }
    var digest := hash(node.content);
    if entry.digest != Some(digest) || entry.path !in sums || sums[entry.path] != digest {
      return Some(DigestDiffers(entry.path));
    }
    if node.executable && !MayExecute(entry.path) {
      return Some(UnexpectedExecutable(entry.path));
    }
    fault := None;
  }

  method CheckEntries(tree: Tree, entries: seq<Entry>, sums: map<string, string>, hash: Bytes -> string)
    returns (fault: Option<Fault>)
    requires forall k | 0 <= k < |entries| :: entries[k].Entry?
    ensures fault.None? <==> EntriesFit(tree, entries, sums, hash)
  {
    for k := 0 to |entries|
      invariant forall j | 0 <= j < k :: EntryFits(tree, entries[j], sums, hash)
    {
      fault := CheckEntry(tree, entries[k], sums, hash);
      if fault.Some? {
        return;
      }
    }
    fault := None;
  }

  method CheckRecords(tree: Tree, entries: seq<Entry>, sums: map<string, string>, hash: Bytes -> string)
    returns (fault: Option<Fault>, expected: map<string, Entry>)
    requires HasFile(tree, [MANIFEST])
    ensures fault.None? <==> RecordsFit(tree, entries, sums, hash)
    ensures fault.None? ==> IsIndexOf(expected, entries)
  {
    fault, expected := ListEntries(entries);
    if fault.Some? {
      return;
    }
    if sums.Keys != expected.Keys + {MANIFEST} {
      return Some(ChecksumSetDiffers), expected;
    }
    fault := CheckEntries(tree, entries, sums, hash);
    if fault.Some? {
      return;
    }
    fault := if sums[MANIFEST] == hash(tree[[MANIFEST]].content) then None else Some(ManifestDigestDiffers);
  }

  method CheckArtifact(
    tree: Tree, artifact: Artifact, entries: seq<Entry>, expected: map<string, Entry>, arch: Bytes -> Option<string>)
    returns (fault: Option<Fault>)
    requires IsListing(entries) && IsIndexOf(expected, entries)
    requires forall k | 0 <= k < |entries| :: HasFile(tree, PartsOf(entries[k].path))
    ensures fault.None? <==> ArtifactFits(tree, artifact, entries, arch)
  {
    if artifact.Malformed? || artifact.path.None? || artifact.path.value !in expected {
      return Some(UnlistedArtifact);
    }
    var path := artifact.path.value;
    ghost var k :| 0 <= k < |entries| && entries[k].Entry? && entries[k].path == path;
    assert expected[path] == entries[k];
    assert forall j | 0 <= j < |entries| && entries[j].path == path :: entries[j] == expected[path];
    if arch(tree[PartsOf(path)].content) != artifact.arch {
      return Some(ArchDiffers(path));
    }
    if artifact.digest != expected[path].digest {
      return Some(ArtifactDigestDiffers(path));
    }
    if artifact.size != expected[path].size {
      return Some(ArtifactSizeDiffers(path));
    }
    fault := None;
  }

  method CheckArtifacts(tree: Tree, manifest: Manifest, expected: map<string, Entry>, tools: Tools)
    returns (fault: Option<Fault>)
    requires IsComplete(manifest)
    requires IsListing(manifest.files.value) && IsIndexOf(expected, manifest.files.value)
    requires forall k | 0 <= k < |manifest.files.value| :: HasFile(tree, PartsOf(manifest.files.value[k].path))
    ensures fault.None? <==> ArtifactsFit(tree, manifest, tools)
  {
    var artifacts := manifest.artifacts.value;
    for k := 0 to |artifacts|
      invariant forall j | 0 <= j < k :: ArtifactFits(tree, artifacts[j], manifest.files.value, tools.arch)
    {
      fault := CheckArtifact(tree, artifacts[k], manifest.files.value, expected, tools.arch);
      if fault.Some? {
        return;
      }
    }
    fault := if GuiFits(manifest.gui.value, artifacts) then None else Some(GuiDigestDiffers);
  }

  method CheckPayload(tree: Tree, order: seq<Parts>, manifest: Manifest, strict: bool, tools: Tools)
    returns (fault: Option<Fault>, extras: set<string>)
    requires IsWalkOf(order, tree) && IsComplete(manifest)
    ensures fault.None? <==> PayloadFits(tree, manifest, strict, tools) && (strict ==> extras == {})
    ensures IsClean(tree) ==> extras == ExtrasOf(tree, manifest.files.value)
  {
    extras := {};
    var payload := PayloadFiles(tree, order);
    if !payload.Payload? {
      return Some(BadPayload(payload)), extras;
    }
    var actual := set p | p in payload.files :: Posix(p);
    assert actual == Actual(tree) by {
      assert forall p :: p in payload.files <==> p in (set q | q in payload.files);
    }
    extras := actual - PathsIn(manifest.files.value) - {MANIFEST, CHECKSUMS};
    if manifest.hasSbom {
      if !tools.sbomFits(tree) {
        return Some(SbomFails), extras;
      }
    } else if strict && ["SBOM"] in tree {
      return Some(UndeclaredSbom), extras;
    }
    fault := if extras != {} && strict then Some(Extras(extras)) else None;
  }

  method ReadSums(tree: Tree, tools: Tools) returns (sums: Option<map<string, string>>)
    ensures sums == SumsOf(tree, tools)
  {
    if !HasFile(tree, [CHECKSUMS]) {
      return None;
    }
    var text := tools.text(tree[[CHECKSUMS]].content);
    if text.None? {
      return None;
    }
    sums := ParseChecksumFile(text.value);
  }

  method VerifyDirectory(tree: Tree, order: seq<Parts>, strict: bool, tools: Tools) returns (verdict: Verdict)
    requires IsWalkOf(order, tree)
    ensures verdict.Verified? <==> IsVerified(tree, strict, tools)
    ensures verdict.Verified? ==> verdict.extras == ExtrasOf(tree, ManifestOf(tree, tools).value.files.value)
  {
    var manifest := ManifestOf(tree, tools);
    if manifest.None? {
      return Refused(BadManifest);
    }
    var sums := ReadSums(tree, tools);
    if sums.None? {
      return Refused(BadChecksums);
    }
    var fault := CheckCanonical(tree);
    if fault.Some? {
      return Refused(fault.value);
    }
    if manifest.value.files.None? || manifest.value.artifacts.None? {
      return Refused(BadLists);
    }
    if !GuiNamed(manifest.value.gui) {
      return Refused(BadGui);
    }
    verdict := VerifyRecords(tree, order, manifest.value, sums.value, strict, tools);
  }

  method VerifyRecords(tree: Tree, order: seq<Parts>, manifest: Manifest, sums: map<string, string>, strict: bool,
      tools: Tools)
    returns (verdict: Verdict)
    requires IsWalkOf(order, tree) && IsComplete(manifest) && HasFile(tree, [MANIFEST])
    ensures verdict.Verified? <==>
      RecordsFit(tree, manifest.files.value, sums, tools.hash) && ArtifactsFit(tree, manifest, tools) &&
      PayloadFits(tree, manifest, strict, tools) && (strict ==> ExtrasOf(tree, manifest.files.value) == {})
    ensures verdict.Verified? ==> verdict.extras == ExtrasOf(tree, manifest.files.value)
  {
    var fault, expected := CheckRecords(tree, manifest.files.value, sums, tools.hash);
    if fault.Some? {
      return Refused(fault.value);
    }
    assert forall k | 0 <= k < |manifest.files.value| :: EntryFits(tree, manifest.files.value[k], sums, tools.hash);
    fault := CheckArtifacts(tree, manifest, expected, tools);
    if fault.Some? {
      return Refused(fault.value);
    }
    var extras;
    fault, extras := CheckPayload(tree, order, manifest, strict, tools);
    if fault.Some? {
      return Refused(fault.value);
    }
    verdict := Verified(extras);
  }
}
