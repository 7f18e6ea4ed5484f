/**
 What an accepted release directory holds, told file by file and record by record: every digest, size,
 mode and architecture, the texts that must be there and the bytes that must not.
 */
module ReleaseAcceptance {
  import opened Common
  import opened TextLines
  import opened ReleaseTree
  import opened ReleaseVerify
  import DiskFacts
  import MarkerScan

  // ----- the tree

  predicate FileAt(tree: Tree, path: Parts) {
    path in tree && tree[path].File?
  }

  function ContentAt(tree: Tree, path: Parts): Bytes
    requires FileAt(tree, path)
  {
    tree[path].content
  }

  const MARKER := "EMUWIZ_WRITER_GATE_PROC_ROOT"

  ghost predicate HoldsMarker(content: Bytes) {
    exists i: nat :: MarkerAt(content, i)
  }

  predicate MarkerAt(content: Bytes, i: nat) {
    i + |MARKER| <= |content| && forall k | 0 <= k < |MARKER| :: content[i + k] as int == MARKER[k] as int
  }

  predicate HasSupport(tree: Tree) {
    FileAt(tree, ["install.sh"]) && FileAt(tree, ["config.toml.example"]) && FileAt(tree, ["BUILD_INFO.txt"]) &&
    FileAt(tree, ["VERIFY.txt"]) && FileAt(tree, ["docs", "README.txt"]) && FileAt(tree, ["docs", "LICENSES.txt"])
  }

  predicate HasLogos(tree: Tree) {
    FileAt(tree, ["assets", "linux", "io.github.kiehntre.emuwiz.desktop.in"]) &&
    FileAt(tree, ["assets", "branding", "emuwiz-logo-32.png"]) &&
    FileAt(tree, ["assets", "branding", "emuwiz-logo-64.png"]) &&
    FileAt(tree, ["assets", "branding", "emuwiz-logo-128.png"]) &&
    FileAt(tree, ["assets", "branding", "emuwiz-logo-256.png"]) &&
    FileAt(tree, ["assets", "branding", "emuwiz-logo-512.png"])
  }

  ghost predicate HasCanonicalFiles(tree: Tree) {
    HasSupport(tree) && HasLogos(tree) &&
    (exists name: string :: FileAt(tree, ["docs", "licenses", name])) &&
    FileAt(tree, ["bin", "emuwiz"]) && !HoldsMarker(ContentAt(tree, ["bin", "emuwiz"])) &&
    FileAt(tree, ["bin", "emuwiz-cli"]) && !HoldsMarker(ContentAt(tree, ["bin", "emuwiz-cli"]))
  }

  /** Names that a user's own state goes by. */
  const FORBIDDEN: set<string> := {
    ".config", ".local", "library.sqlite3", "config.toml", "rename-transactions", "rename-transactions-sealed-v1",
    "undo-seals.sqlite3", "sealed-writers", "identity", "managed-dats", "roms", "bios", "saves", "journals"
  }

  predicate IsForbidden(path: Parts) {
    exists k, name | 0 <= k < |path| && name in FORBIDDEN :: DiskFacts.SameDigest(path[k], name)
  }

  /** Files and folders only, and none by a forbidden name in any spelling. */
  predicate HoldsOnlyPayload(tree: Tree) {
    forall path | path in tree :: (tree[path].File? || tree[path].Folder?) && !IsForbidden(path)
  }

  // ----- the manifest and the checksum file

  /** The line is 64 lower-case hexadecimal digits, two spaces and a path without line ends. */
  predicate IsSumLine(line: string, path: string, digest: string) {
    line == digest + ("  " + path) && |digest| == 64 && path != "" &&
    (forall k | 0 <= k < |digest| :: 48 <= digest[k] as int <= 57 || 97 <= digest[k] as int <= 102) &&
    forall k | 0 <= k < |path| :: path[k] as int != 10 && path[k] as int != 13
  }

  /** Each line gives one path its digest, no path comes twice, and nothing else is in `sums`. */
  ghost predicate AreSums(lines: seq<string>, sums: map<string, string>) {
    (forall k | 0 <= k < |lines| :: SaysSum(lines[k], sums)) &&
    (forall path | path in sums :: IsSaid(lines, path, sums[path])) &&
    forall j, k, path: string, digest: string, other: string | 0 <= j < k < |lines| ::
      !(IsSumLine(lines[j], path, digest) && IsSumLine(lines[k], path, other))
  }

  ghost predicate SaysSum(line: string, sums: map<string, string>) {
    exists path | path in sums :: IsSumLine(line, path, sums[path])
  }

  ghost predicate IsSaid(lines: seq<string>, path: string, digest: string) {
    exists k | 0 <= k < |lines| :: IsSumLine(lines[k], path, digest)
  }

  /** A path text that stays inside the release. */
  predicate StaysInside(path: string) {
    (path == "" || path[0] as int != 47) && ".." !in PartsOf(path)
  }

  /** An AppImage among the programs. */
  predicate IsImage(path: string) {
    |path| >= 9 && path[..4] == "bin/" && path[|path| - 9..] == ".AppImage"
  }

  predicate IsExecutablePath(path: string) {
    path == "bin/emuwiz" || path == "bin/emuwiz-cli" || path == "install.sh" || IsImage(path)
  }

  /** The record is true of the file it names. */
  predicate IsTrueOf(tree: Tree, entry: Entry, hash: Bytes -> string) {
    entry.Entry? && StaysInside(entry.path) && FileAt(tree, PartsOf(entry.path)) &&
    var content := ContentAt(tree, PartsOf(entry.path));
    entry.size == Some(|content|) && entry.digest == Some(hash(content)) &&
    entry.executable == Some(tree[PartsOf(entry.path)].executable) &&
    (entry.executable == Some(true) ==> IsExecutablePath(entry.path))
  }

  predicate IsListed(entries: seq<Entry>, path: string) {
    exists k | 0 <= k < |entries| :: entries[k].Entry? && entries[k].path == path
  }

  ghost predicate RecordsAreTrue(tree: Tree, entries: seq<Entry>, sums: map<string, string>, hash: Bytes -> string) {
    (forall k | 0 <= k < |entries| :: IsTrueOf(tree, entries[k], hash)) &&
    (forall j, k | 0 <= j < k < |entries| && entries[j].Entry? && entries[k].Entry? ::
      entries[j].path != entries[k].path) &&
    (forall path: string :: path in sums <==> path == "manifest.json" || IsListed(entries, path)) &&
    (forall k | 0 <= k < |entries| && entries[k].Entry? ::
      entries[k].path in sums && entries[k].digest == Some(sums[entries[k].path])) &&
    FileAt(tree, ["manifest.json"]) && "manifest.json" in sums &&
    sums["manifest.json"] == hash(ContentAt(tree, ["manifest.json"]))
  }

  /** The artifact's path is listed, and its architecture, digest and size are those of the file there. */
  ghost predicate IsTrueArtifact(tree: Tree, artifact: Artifact, entries: seq<Entry>, tools: Tools) {
    artifact.Artifact? && artifact.path.Some? && IsListed(entries, artifact.path.value) &&
    FileAt(tree, PartsOf(artifact.path.value)) &&
    var content := ContentAt(tree, PartsOf(artifact.path.value));
    artifact.arch == tools.arch(content) && artifact.digest == Some(tools.hash(content)) &&
    artifact.size == Some(|content|)
  }

  /** The first artifact under the program's path has the digest that the manifest gives for the program. */
  ghost predicate GuiIsArtifact(gui: Gui, artifacts: seq<Artifact>) {
    exists k :: IsFirstProgram(artifacts, k) && artifacts[k].digest == gui.digest
  }

  predicate IsFirstProgram(artifacts: seq<Artifact>, k: int) {
    0 <= k < |artifacts| && IsProgram(artifacts[k]) && forall j | 0 <= j < k :: !IsProgram(artifacts[j])
  }

  predicate IsProgram(artifact: Artifact) {
    artifact.Artifact? && artifact.path == Some("bin/emuwiz")
  }

  predicate NamesNativeGui(gui: Option<Gui>) {
    gui.Some? && gui.value.target == "emuwiz" &&
    (gui.value.generation == "native-v2" || gui.value.generation == "fixture") &&
    gui.value.entrypoint == "crates/archivefs-gui/src/bin/emuwiz.rs"
  }

  predicate IsManifestOf(tree: Tree, manifest: Manifest, tools: Tools) {
    FileAt(tree, ["manifest.json"]) && tools.manifest(ContentAt(tree, ["manifest.json"])) == Some(manifest) &&
    manifest.schema == 1
  }

  ghost predicate AreSumsOf(tree: Tree, sums: map<string, string>, tools: Tools) {
    FileAt(tree, ["SHA256SUMS"]) && tools.text(ContentAt(tree, ["SHA256SUMS"])).Some? &&
    AreSums(SplitLines(tools.text(ContentAt(tree, ["SHA256SUMS"])).value), sums)
  }

  ghost predicate ArtifactsAreTrue(tree: Tree, manifest: Manifest, tools: Tools) {
    manifest.files.Some? && manifest.artifacts.Some? && manifest.gui.Some? &&
    GuiIsArtifact(manifest.gui.value, manifest.artifacts.value) &&
    forall k | 0 <= k < |manifest.artifacts.value| ::
      IsTrueArtifact(tree, manifest.artifacts.value[k], manifest.files.value, tools)
  }

  ghost predicate HoldsOnlyListed(tree: Tree, entries: seq<Entry>) {
    forall path | FileAt(tree, path) ::
      Posix(path) == "manifest.json" || Posix(path) == "SHA256SUMS" || IsListed(entries, Posix(path))
  }

  /** A declared SBOM passes its own checks; under the strict rules there is no other, and no file goes unlisted. */
  ghost predicate HoldsWhatItDeclares(tree: Tree, strict: bool, tools: Tools, manifest: Manifest) {
    manifest.files.Some? && (manifest.hasSbom ==> tools.sbomFits(tree)) &&
    (strict ==> (manifest.hasSbom || ["SBOM"] !in tree) && HoldsOnlyListed(tree, manifest.files.value))
  }

  ghost predicate IsTrueRelease(tree: Tree, strict: bool, tools: Tools, manifest: Manifest, sums: map<string, string>) {
    IsManifestOf(tree, manifest, tools) && AreSumsOf(tree, sums, tools) && HasCanonicalFiles(tree) &&
    HoldsOnlyPayload(tree) && NamesNativeGui(manifest.gui) && manifest.files.Some? &&
    RecordsAreTrue(tree, manifest.files.value, sums, tools.hash) && ArtifactsAreTrue(tree, manifest, tools) &&
    HoldsWhatItDeclares(tree, strict, tools, manifest)
  }

  // ----- required files and hooks

  lemma HookIsMarker(tree: Tree, path: Parts)
    ensures HasHook(tree, path) <==> FileAt(tree, path) && HoldsMarker(ContentAt(tree, path))
  {
    if FileAt(tree, path) {
      var content := ContentAt(tree, path);
      forall i: nat ensures StandsAt(Ascii(HOOK), content, i) <==> MarkerAt(content, i) {
        BytesCompared(content, i);
      }
      if HoldsMarker(content) {
        var i: nat :| MarkerAt(content, i);
        assert StandsAt(Ascii(HOOK), content, i);
      }
    }
  }

  lemma MarkerIsAscii(k: nat)
    requires k < |MARKER|
    ensures MARKER[k] as int < 128
  {
  }

  lemma ByteOfCharacter(byte: bv8, c: char)
    requires c as int < 128
    ensures (c as int % 256) as bv8 == byte <==> byte as int == c as int
  {
    var n := c as int;
    assert n % 256 == n;
    assert (n as bv8) as int == n;
  }

  lemma BytesOfText(text: string, content: Bytes, i: nat)
    requires forall k | 0 <= k < |text| :: text[k] as int < 128
    ensures StandsAt(Ascii(text), content, i) <==>
      i + |text| <= |content| && forall k | 0 <= k < |text| :: content[i + k] as int == text[k] as int
  {
    MarkerScan.StandsByByte(Ascii(text), content, i);
    if i + |text| <= |content| {
      forall k | 0 <= k < |text|
        ensures Ascii(text)[k] == content[i + k] <==> content[i + k] as int == text[k] as int {
        ByteOfCharacter(content[i + k], text[k]);
      }
    }
  }

  lemma BytesCompared(content: Bytes, i: nat)
    ensures StandsAt(Ascii(HOOK), content, i) <==> MarkerAt(content, i)
  {
    forall k | 0 <= k < |MARKER| ensures MARKER[k] as int < 128 { MarkerIsAscii(k); }
    BytesOfText(MARKER, content, i);
  }

  lemma LicenceCompared(tree: Tree)
    ensures HasLicence(tree) <==> exists name: string :: FileAt(tree, ["docs", "licenses", name])
  {
    if HasLicence(tree) {
      var p :| p in tree && |p| == 3 && p[..2] == ["docs", "licenses"] && tree[p].File?;
      assert p[0] == p[..2][0] && p[1] == p[..2][1];
      assert p == ["docs", "licenses", p[2]];
      assert FileAt(tree, ["docs", "licenses", p[2]]);
    }
    if name: string :| FileAt(tree, ["docs", "licenses", name]) {
      var p := ["docs", "licenses", name];
      assert p[..2] == ["docs", "licenses"];
    }
  }

  lemma CanonicalCompared(tree: Tree)
    ensures IsCanonical(tree) <==> HasCanonicalFiles(tree)
  {
    HookIsMarker(tree, ["bin", "emuwiz"]);
    HookIsMarker(tree, ["bin", "emuwiz-cli"]);
    LicenceCompared(tree);
    RequiredAreThere(tree);
  }

  lemma RequiredAreThere(tree: Tree)
    ensures (forall p | p in REQUIRED :: HasFile(tree, p)) <==>
      HasSupport(tree) && HasLogos(tree) && FileAt(tree, ["bin", "emuwiz"]) && FileAt(tree, ["bin", "emuwiz-cli"])
  {
    if forall p | p in REQUIRED :: HasFile(tree, p) {
      assert ["bin", "emuwiz"] in REQUIRED && ["bin", "emuwiz-cli"] in REQUIRED;
      assert ["install.sh"] in REQUIRED && ["config.toml.example"] in REQUIRED && ["BUILD_INFO.txt"] in REQUIRED;
      assert ["VERIFY.txt"] in REQUIRED && ["docs", "README.txt"] in REQUIRED && ["docs", "LICENSES.txt"] in REQUIRED;
      LogosAreRequired();
    }
  }

  lemma LogosAreRequired()
    ensures ["assets", "linux", "io.github.kiehntre.emuwiz.desktop.in"] in REQUIRED
    ensures ["assets", "branding", "emuwiz-logo-32.png"] in REQUIRED
    ensures ["assets", "branding", "emuwiz-logo-64.png"] in REQUIRED
    ensures ["assets", "branding", "emuwiz-logo-128.png"] in REQUIRED
    ensures ["assets", "branding", "emuwiz-logo-256.png"] in REQUIRED
    ensures ["assets", "branding", "emuwiz-logo-512.png"] in REQUIRED
  {
  }

  // ----- what no payload may hold

  predicate IsLow(name: string) {
    forall i | 0 <= i < |name| :: !(65 <= name[i] as int <= 90)
  }

  lemma ForbiddenIsLow(name: string)
    requires name in FORBIDDEN
    ensures IsLow(name)
  {
  }

  lemma LowIsLower(name: string)
    requires IsLow(name)
    ensures Lower(name) == name
  {
  }

  lemma ForbiddenCompared(path: Parts)
    ensures IsDenied(path) <==> IsForbidden(path)
  {
    forall k, name | 0 <= k < |path| && name in FORBIDDEN
      ensures Lower(path[k]) == name <==> DiskFacts.SameDigest(path[k], name) {
      ForbiddenIsLow(name);
      LowIsLower(name);
      DiskFacts.DigestsCompared(path[k], name);
    }
    if IsDenied(path) {
      var k :| 0 <= k < |path| && Lower(path[k]) in DENIED_PAYLOAD_NAMES;
      assert Lower(path[k]) in FORBIDDEN;
    }
    if IsForbidden(path) {
      var k, name :| 0 <= k < |path| && name in FORBIDDEN && DiskFacts.SameDigest(path[k], name);
      assert Lower(path[k]) == name;
    }
  }

  lemma PayloadCompared(tree: Tree)
    ensures IsClean(tree) <==> HoldsOnlyPayload(tree)
  {
    forall path | path in tree
      ensures FaultAt(tree, path).None? <==> (tree[path].File? || tree[path].Folder?) && !IsForbidden(path) {
      ForbiddenCompared(path);
    }
  }

  // ----- the checksum file

  lemma LineIsSum(line: string, path: string, digest: string)
    ensures ParseLine(line) == Some(Sum(path, digest)) <==> IsSumLine(line, path, digest)
  {
    if IsSumLine(line, path, digest) {
      assert line[..64] == digest && line[64..66] == "  " && line[66..] == path;
    }
    if ParseLine(line) == Some(Sum(path, digest)) {
      assert line == line[..64] + (line[64..66] + line[66..]);
    }
  }

  /** The lines' records are in `sums` next to those in `sofar`, and nothing else is. */
  predicate AddUp(lines: seq<string>, sofar: map<string, string>, sums: map<string, string>) {
    (forall k | 0 <= k < |lines| ::
      var sum := ParseLine(lines[k]);
      sum.Some? && sum.value.path !in sofar && sum.value.path in sums && sums[sum.value.path] == sum.value.digest) &&
    (forall path | path in sofar :: path in sums && sums[path] == sofar[path]) &&
    (forall path | path in sums && path !in sofar :: IsParsed(lines, path)) &&
    forall j, k | 0 <= j < k < |lines| && ParseLine(lines[j]).Some? && ParseLine(lines[k]).Some? ::
      ParseLine(lines[j]).value.path != ParseLine(lines[k]).value.path
  }

  predicate IsParsed(lines: seq<string>, path: string) {
    exists k | 0 <= k < |lines| :: ParseLine(lines[k]).Some? && ParseLine(lines[k]).value.path == path
  }

  lemma AddUpStep(lines: seq<string>, sofar: map<string, string>, sums: map<string, string>)
    requires lines != []
    ensures var sum := ParseLine(lines[0]);
      AddUp(lines, sofar, sums) <==>
      sum.Some? && sum.value.path !in sofar && AddUp(lines[1..], sofar[sum.value.path := sum.value.digest], sums)
  {
    var rest, sum := lines[1..], ParseLine(lines[0]);
    assert forall k | 0 <= k < |rest| :: rest[k] == lines[k + 1];
    if sum.Some? && sum.value.path !in sofar {
      var more := sofar[sum.value.path := sum.value.digest];
      if AddUp(lines, sofar, sums) { TailAddsUp(lines, sofar, sums); }
      if AddUp(rest, more, sums) { HeadAddsUp(lines, sofar, sums); }
    }
  }

  lemma TailAddsUp(lines: seq<string>, sofar: map<string, string>, sums: map<string, string>)
    requires lines != [] && AddUp(lines, sofar, sums)
    ensures var sum := ParseLine(lines[0]).value; AddUp(lines[1..], sofar[sum.path := sum.digest], sums)
  {
    var rest, sum := lines[1..], ParseLine(lines[0]).value;
    assert forall k | 0 <= k < |rest| :: rest[k] == lines[k + 1];
    forall path | path in sums && path !in sofar[sum.path := sum.digest] ensures IsParsed(rest, path) {
      assert IsParsed(lines, path);
      var k :| 0 <= k < |lines| && ParseLine(lines[k]).Some? && ParseLine(lines[k]).value.path == path;
      assert rest[k - 1] == lines[k];
    }
  }

  lemma HeadAddsUp(lines: seq<string>, sofar: map<string, string>, sums: map<string, string>)
    requires lines != [] && ParseLine(lines[0]).Some? && ParseLine(lines[0]).value.path !in sofar
    requires var sum := ParseLine(lines[0]).value; AddUp(lines[1..], sofar[sum.path := sum.digest], sums)
    ensures AddUp(lines, sofar, sums)
  {
    var rest, sum := lines[1..], ParseLine(lines[0]).value;
    assert forall k | 0 < k < |lines| :: lines[k] == rest[k - 1];
    forall path | path in sums && path !in sofar ensures IsParsed(lines, path) {
      if path != sum.path {
        assert IsParsed(rest, path);
        var k :| 0 <= k < |rest| && ParseLine(rest[k]).Some? && ParseLine(rest[k]).value.path == path;
        assert lines[k + 1] == rest[k];
      }
    }
  }

  lemma {:induction false} SumsAddUp(lines: seq<string>, sofar: map<string, string>, sums: map<string, string>)
    ensures SumsFrom(lines, sofar) == Some(sums) <==> AddUp(lines, sofar, sums)
  {
    if lines == [] {
      if AddUp(lines, sofar, sums) {
        forall path | path in sums ensures path in sofar { assert path !in sofar ==> IsParsed(lines, path); }
        assert sofar == sums;
      }
    } else {
      AddUpStep(lines, sofar, sums);
      var sum := ParseLine(lines[0]);
      if sum.Some? && sum.value.path !in sofar {
        SumsAddUp(lines[1..], sofar[sum.value.path := sum.value.digest], sums);
      }
    }
  }

  lemma SumsCompared(lines: seq<string>, sums: map<string, string>)
    ensures AddUp(lines, map[], sums) <==> AreSums(lines, sums)
  {
    forall k, path: string, digest: string | 0 <= k < |lines|
      ensures ParseLine(lines[k]) == Some(Sum(path, digest)) <==> IsSumLine(lines[k], path, digest) {
      LineIsSum(lines[k], path, digest);
    }
    if AddUp(lines, map[], sums) { SumsAreSaid(lines, sums); }
    if AreSums(lines, sums) { SaidAddsUp(lines, sums); }
  }

  lemma SumsAreSaid(lines: seq<string>, sums: map<string, string>)
    requires AddUp(lines, map[], sums)
    requires forall k, path: string, digest: string | 0 <= k < |lines| ::
      ParseLine(lines[k]) == Some(Sum(path, digest)) <==> IsSumLine(lines[k], path, digest)
    ensures AreSums(lines, sums)
  {
    forall k | 0 <= k < |lines| ensures SaysSum(lines[k], sums) {
      var sum := ParseLine(lines[k]).value;
      assert IsSumLine(lines[k], sum.path, sums[sum.path]);
    }
    forall path | path in sums ensures IsSaid(lines, path, sums[path]) {
      assert IsParsed(lines, path);
      var k :| 0 <= k < |lines| && ParseLine(lines[k]).Some? && ParseLine(lines[k]).value.path == path;
      assert IsSumLine(lines[k], path, sums[path]);
    }
    forall j, k, path: string, digest: string, other: string | 0 <= j < k < |lines|
      ensures !(IsSumLine(lines[j], path, digest) && IsSumLine(lines[k], path, other)) {
      SaidOnce(lines[j], lines[k], path, digest, other);
      assert ParseLine(lines[j]).value.path != ParseLine(lines[k]).value.path;
    }
  }

  lemma SaidOnce(a: string, b: string, path: string, digest: string, other: string)
    requires ParseLine(a).Some? && ParseLine(b).Some?
    ensures IsSumLine(a, path, digest) && IsSumLine(b, path, other) ==>
      ParseLine(a).value.path == ParseLine(b).value.path
  {
    LineIsSum(a, path, digest);
    LineIsSum(b, path, other);
  }

  lemma SaidAddsUp(lines: seq<string>, sums: map<string, string>)
    requires AreSums(lines, sums)
    requires forall k, path: string, digest: string | 0 <= k < |lines| ::
      ParseLine(lines[k]) == Some(Sum(path, digest)) <==> IsSumLine(lines[k], path, digest)
    ensures AddUp(lines, map[], sums)
  {
    forall k | 0 <= k < |lines|
      ensures var sum := ParseLine(lines[k]);
        sum.Some? && sum.value.path in sums && sums[sum.value.path] == sum.value.digest {
      assert SaysSum(lines[k], sums);
      var path :| path in sums && IsSumLine(lines[k], path, sums[path]);
      assert ParseLine(lines[k]) == Some(Sum(path, sums[path]));
    }
    forall path | path in sums ensures IsParsed(lines, path) {
      assert IsSaid(lines, path, sums[path]);
      var k :| 0 <= k < |lines| && IsSumLine(lines[k], path, sums[path]);
      assert ParseLine(lines[k]) == Some(Sum(path, sums[path]));
    }
    forall j, k | 0 <= j < k < |lines| && ParseLine(lines[j]).Some? && ParseLine(lines[k]).Some?
      ensures ParseLine(lines[j]).value.path != ParseLine(lines[k]).value.path {
      var a, b := ParseLine(lines[j]).value, ParseLine(lines[k]).value;
      assert IsSumLine(lines[j], a.path, a.digest) && IsSumLine(lines[k], b.path, b.digest);
    }
  }

  lemma SumsOfCompared(tree: Tree, sums: map<string, string>, tools: Tools)
    ensures SumsOf(tree, tools) == Some(sums) <==> AreSumsOf(tree, sums, tools)
  {
    if FileAt(tree, ["SHA256SUMS"]) && tools.text(ContentAt(tree, ["SHA256SUMS"])).Some? {
      var lines := SplitLines(tools.text(ContentAt(tree, ["SHA256SUMS"])).value);
      SumsAddUp(lines, map[], sums);
      SumsCompared(lines, sums);
    }
  }

  // ----- records, artifacts and the program

  lemma EntryCompared(tree: Tree, entry: Entry, sums: map<string, string>, hash: Bytes -> string)
    ensures IsSafe(entry) && EntryFits(tree, entry, sums, hash) <==>
      IsTrueOf(tree, entry, hash) && entry.path in sums && entry.digest == Some(sums[entry.path])
  {
    if entry.Entry? {
      SafetyCompared(entry.path);
      ModesCompared(entry.path);
    }
  }

  lemma SafetyCompared(path: string)
    ensures !IsUnsafe(path) <==> StaysInside(path)
  {
    if path != "" { assert path[..1] == [path[0]]; }
  }

  lemma FrameCompared(path: string, lead: string, tail: string)
    requires |lead| <= |tail|
    ensures StartsWith(path, lead) && EndsWith(path, tail) <==>
      |path| >= |tail| && path[..|lead|] == lead && path[|path| - |tail|..] == tail
  {
  }

  lemma NamesCompared(path: string)
    ensures path in CANONICAL_EXECUTABLES <==> path == "bin/emuwiz" || path == "bin/emuwiz-cli" || path == "install.sh"
  {
  }

  lemma ImagesCompared(path: string)
    ensures StartsWith(path, "bin/") && EndsWith(path, ".AppImage") <==> IsImage(path)
  {
    FrameCompared(path, "bin/", ".AppImage");
  }

  lemma ModesCompared(path: string)
    ensures MayExecute(path) <==> IsExecutablePath(path)
  {
    NamesCompared(path);
    ImagesCompared(path);
  }

  lemma ListedCompared(entries: seq<Entry>, path: string)
    ensures path in PathsIn(entries) <==> IsListed(entries, path)
  {
  }

  predicate IsRight(tree: Tree, entry: Entry, sums: map<string, string>, hash: Bytes -> string) {
    IsTrueOf(tree, entry, hash) && entry.path in sums && entry.digest == Some(sums[entry.path])
  }

  lemma EntriesCompared(tree: Tree, entries: seq<Entry>, sums: map<string, string>, hash: Bytes -> string)
    ensures IsListing(entries) && EntriesFit(tree, entries, sums, hash) <==>
      NoPathTwice(entries) && forall k | 0 <= k < |entries| :: IsRight(tree, entries[k], sums, hash)
  {
    forall k | 0 <= k < |entries|
      ensures IsSafe(entries[k]) && EntryFits(tree, entries[k], sums, hash) <==>
        IsRight(tree, entries[k], sums, hash) {
      EntryCompared(tree, entries[k], sums, hash);
    }
  }

  lemma PathsCompared(entries: seq<Entry>, sums: map<string, string>)
    ensures sums.Keys == PathsIn(entries) + {MANIFEST} <==>
      forall path: string :: path in sums <==> path == "manifest.json" || IsListed(entries, path)
  {
    forall path: string ensures path in PathsIn(entries) <==> IsListed(entries, path) {
      ListedCompared(entries, path);
    }
  }

  lemma RecordsCompared(tree: Tree, entries: seq<Entry>, sums: map<string, string>, hash: Bytes -> string)
    ensures RecordsFit(tree, entries, sums, hash) <==> RecordsAreTrue(tree, entries, sums, hash)
  {
    EntriesCompared(tree, entries, sums, hash);
    PathsCompared(entries, sums);
  }

  lemma ArtifactCompared(tree: Tree, artifact: Artifact, entries: seq<Entry>, tools: Tools)
    requires forall k | 0 <= k < |entries| :: IsTrueOf(tree, entries[k], tools.hash)
    ensures ArtifactFits(tree, artifact, entries, tools.arch) <==> IsTrueArtifact(tree, artifact, entries, tools)
  {
    if ArtifactFits(tree, artifact, entries, tools.arch) {
      var k :| 0 <= k < |entries| && entries[k].Entry? && entries[k].path == artifact.path.value &&
        entries[k].digest == artifact.digest && entries[k].size == artifact.size &&
        HasFile(tree, PartsOf(entries[k].path)) && tools.arch(tree[PartsOf(entries[k].path)].content) == artifact.arch;
      assert IsTrueOf(tree, entries[k], tools.hash);
    }
    if IsTrueArtifact(tree, artifact, entries, tools) {
      var k :| 0 <= k < |entries| && entries[k].Entry? && entries[k].path == artifact.path.value;
      assert IsTrueOf(tree, entries[k], tools.hash);
    }
  }

  lemma FirstOfRest(artifacts: seq<Artifact>, k: int)
    requires artifacts != [] && !IsProgram(artifacts[0])
    ensures IsFirstProgram(artifacts[1..], k) <==> IsFirstProgram(artifacts, k + 1)
  {
    var rest := artifacts[1..];
    assert forall j | 0 <= j < |rest| :: rest[j] == artifacts[j + 1];
    if IsFirstProgram(artifacts, k + 1) {
      forall j | 0 <= j < k ensures !IsProgram(rest[j]) { assert !IsProgram(artifacts[j + 1]); }
    }
    if IsFirstProgram(rest, k) {
      forall j | 0 <= j < k + 1 ensures !IsProgram(artifacts[j]) { if j > 0 { assert !IsProgram(rest[j - 1]); } }
    }
  }

  lemma {:induction false} FirstIsProgram(artifacts: seq<Artifact>) returns (k: int)
    ensures FirstArtifact(artifacts, "bin/emuwiz").Some? <==> IsFirstProgram(artifacts, k)
    ensures IsFirstProgram(artifacts, k) ==> FirstArtifact(artifacts, "bin/emuwiz").value == artifacts[k]
    ensures forall j | IsFirstProgram(artifacts, j) :: j == k
  {
    k := 0;
    if artifacts != [] && !IsProgram(artifacts[0]) {
      var rest := FirstIsProgram(artifacts[1..]);
      k := rest + 1;
      forall j | IsFirstProgram(artifacts, j) ensures j == k { FirstOfRest(artifacts, j - 1); }
      FirstOfRest(artifacts, rest);
    }
  }

  lemma ProgramCompared(gui: Gui, artifacts: seq<Artifact>)
    ensures GuiFits(gui, artifacts) <==> GuiIsArtifact(gui, artifacts)
  {
    var k := FirstIsProgram(artifacts);
  }

  lemma ArtifactsCompared(tree: Tree, manifest: Manifest, tools: Tools)
    requires IsComplete(manifest)
    requires forall k | 0 <= k < |manifest.files.value| :: IsTrueOf(tree, manifest.files.value[k], tools.hash)
    ensures ArtifactsFit(tree, manifest, tools) <==> ArtifactsAreTrue(tree, manifest, tools)
  {
    var entries, artifacts := manifest.files.value, manifest.artifacts.value;
    ProgramCompared(manifest.gui.value, artifacts);
    forall k | 0 <= k < |artifacts|
      ensures ArtifactFits(tree, artifacts[k], entries, tools.arch) <==>
        IsTrueArtifact(tree, artifacts[k], entries, tools) {
      ArtifactCompared(tree, artifacts[k], entries, tools);
    }
  }

  lemma ExtrasCompared(tree: Tree, entries: seq<Entry>)
    ensures ExtrasOf(tree, entries) == {} <==> HoldsOnlyListed(tree, entries)
  {
    if ExtrasOf(tree, entries) == {} {
      forall path | FileAt(tree, path)
        ensures Posix(path) == "manifest.json" || Posix(path) == "SHA256SUMS" || IsListed(entries, Posix(path)) {
        assert path in FilesOf(tree) && Posix(path) in Actual(tree);
        assert Posix(path) !in ExtrasOf(tree, entries);
        ListedCompared(entries, Posix(path));
      }
    }
    if text :| text in ExtrasOf(tree, entries) {
      var path :| path in FilesOf(tree) && Posix(path) == text;
      ListedCompared(entries, text);
      assert FileAt(tree, path);
    }
  }

  // ----- the theorems

  lemma DeclaredCompared(tree: Tree, strict: bool, tools: Tools, manifest: Manifest)
    requires manifest.files.Some?
    ensures PayloadFits(tree, manifest, strict, tools) && (strict ==> ExtrasOf(tree, manifest.files.value) == {}) <==>
      HoldsOnlyPayload(tree) && HoldsWhatItDeclares(tree, strict, tools, manifest)
  {
    PayloadCompared(tree);
    ExtrasCompared(tree, manifest.files.value);
  }

  lemma ListsCompared(tree: Tree, sums: map<string, string>, tools: Tools, manifest: Manifest)
    requires IsComplete(manifest)
    ensures RecordsFit(tree, manifest.files.value, sums, tools.hash) && ArtifactsFit(tree, manifest, tools) <==>
      RecordsAreTrue(tree, manifest.files.value, sums, tools.hash) && ArtifactsAreTrue(tree, manifest, tools)
  {
    RecordsCompared(tree, manifest.files.value, sums, tools.hash);
    if RecordsAreTrue(tree, manifest.files.value, sums, tools.hash) { ArtifactsCompared(tree, manifest, tools); }
  }

  lemma ReleaseCompared(tree: Tree, strict: bool, tools: Tools, manifest: Manifest, sums: map<string, string>)
    requires ManifestOf(tree, tools) == Some(manifest) && SumsOf(tree, tools) == Some(sums)
    ensures IsVerified(tree, strict, tools) <==> IsTrueRelease(tree, strict, tools, manifest, sums)
  {
    SumsOfCompared(tree, sums, tools);
    CanonicalCompared(tree);
    GuiCompared(manifest.gui);
    if IsComplete(manifest) {
      ListsCompared(tree, sums, tools, manifest);
      DeclaredCompared(tree, strict, tools, manifest);
    }
  }

  lemma GuiCompared(gui: Option<Gui>)
    ensures GuiNamed(gui) <==> NamesNativeGui(gui)
  {
  }

  /** A release is accepted exactly when every record is true of the tree, and the tree holds what it must and may. */
  lemma VerifiedExactlyWhenTrue(tree: Tree, strict: bool, tools: Tools)
    ensures IsVerified(tree, strict, tools) <==>
      exists manifest: Manifest, sums: map<string, string> :: IsTrueRelease(tree, strict, tools, manifest, sums)
  {
    if IsVerified(tree, strict, tools) {
      ReleaseCompared(tree, strict, tools, ManifestOf(tree, tools).value, SumsOf(tree, tools).value);
    }
    if manifest: Manifest, sums: map<string, string> :| IsTrueRelease(tree, strict, tools, manifest, sums) {
      SumsOfCompared(tree, sums, tools);
      ReleaseCompared(tree, strict, tools, manifest, sums);
    }
  }

  /** Every artifact of an accepted release is the file it names: of that architecture, digest and size. */
  lemma AcceptedArtifactsAreTrue(tree: Tree, strict: bool, tools: Tools, manifest: Manifest, k: int)
    requires IsVerified(tree, strict, tools) && IsManifestOf(tree, manifest, tools)
    requires manifest.artifacts.Some? && 0 <= k < |manifest.artifacts.value|
    ensures var artifact := manifest.artifacts.value[k];
      artifact.Artifact? && artifact.path.Some? && FileAt(tree, PartsOf(artifact.path.value)) &&
      artifact.arch == tools.arch(ContentAt(tree, PartsOf(artifact.path.value))) &&
      artifact.digest == Some(tools.hash(ContentAt(tree, PartsOf(artifact.path.value)))) &&
      artifact.size == Some(|ContentAt(tree, PartsOf(artifact.path.value))|)
  {
    ReleaseCompared(tree, strict, tools, manifest, SumsOf(tree, tools).value);
  }

  /** So a manifest that gives one artifact another architecture, digest or size is refused, whatever else it says. */
  lemma OtherArtifactIsRefused(tree: Tree, strict: bool, tools: Tools, manifest: Manifest, k: int)
    requires IsManifestOf(tree, manifest, tools)
    requires manifest.artifacts.Some? && 0 <= k < |manifest.artifacts.value|
    requires var artifact := manifest.artifacts.value[k];
      artifact.Artifact? && artifact.path.Some? && FileAt(tree, PartsOf(artifact.path.value)) &&
      var content := ContentAt(tree, PartsOf(artifact.path.value));
      artifact.arch != tools.arch(content) || artifact.digest != Some(tools.hash(content)) ||
      artifact.size != Some(|content|)
    ensures !IsVerified(tree, strict, tools)
  {
    if IsVerified(tree, strict, tools) { AcceptedArtifactsAreTrue(tree, strict, tools, manifest, k); }
  }
}
