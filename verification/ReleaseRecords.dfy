/**
 The manifest and checksum records that package writes for the tree it has assembled, and exactly
 when the verifier's record checks pass on them.
 */
module ReleaseRecords {
  import opened Common
  import opened ReleaseTree
  import opened ReleaseVerify

  function RecordOf(tree: Tree, hash: Bytes -> string, path: Parts): Entry
    requires HasFile(tree, path)
  {
    var node := tree[path];
    Entry(Posix(path), Some(|node.content|), Some(hash(node.content)), Some(node.executable))
  }

  /** `files` enumerates the files of the tree. */
  predicate IsListOf(files: seq<Parts>, tree: Tree) {
    Distinct(files) && (forall k | 0 <= k < |files| :: HasFile(tree, files[k])) && forall p | p in FilesOf(tree) ::
      p in files
  }

  function RecordsOf(tree: Tree, hash: Bytes -> string, files: seq<Parts>): (entries: seq<Entry>)
    requires forall k | 0 <= k < |files| :: HasFile(tree, files[k])
    ensures |entries| == |files| && forall k | 0 <= k < |files| :: entries[k] == RecordOf(tree, hash, files[k])
  {
    seq(|files|, k requires 0 <= k < |files| => RecordOf(tree, hash, files[k]))
  }

  function SumsFor(entries: seq<Entry>, manifestDigest: string): (sums: seq<Sum>)
    requires forall k | 0 <= k < |entries| :: entries[k].Entry? && entries[k].digest.Some?
  {
    seq(|entries|, k requires 0 <= k < |entries| => Sum(entries[k].path, entries[k].digest.value)) +
      [Sum(MANIFEST, manifestDigest)]
  }

  /** The tree once the manifest and the checksum file are written into it. */
  function Completed(tree: Tree, manifest: Bytes, checksums: Bytes): Tree {
    tree[[MANIFEST] := File(manifest, false)][[CHECKSUMS] := File(checksums, false)]
  }

  /** The record checks of the strict verifier. */
  predicate RecordChecksPass(tree: Tree, entries: seq<Entry>, checksumText: string, hash: Bytes -> string) {
    Sums(checksumText).Some? && RecordsFit(tree, entries, Sums(checksumText).value, hash) &&
    ExtrasOf(tree, entries) == {}
  }

  /** What an assembled tree has to observe. */
  predicate IsPackable(tree: Tree) {
    forall path | path in FilesOf(tree) ::
      IsUnbroken(Posix(path)) && (tree[path].executable ==> MayExecute(Posix(path)))
  }

  /** Written by package: records of all files, and their sums with the manifest's in any order. */
  datatype Written = Written(tree: Tree, files: seq<Parts>, manifest: Bytes, checksums: Bytes, sums: seq<Sum>)

  predicate IsWritten(w: Written, hash: Bytes -> string) {
    IsTree(w.tree) && IsListOf(w.files, w.tree) && [MANIFEST] !in w.tree && [CHECKSUMS] !in w.tree &&
    (forall k | 0 <= k < |w.files| :: IsDigest(hash(w.tree[w.files[k]].content))) && IsDigest(hash(w.manifest)) &&
    multiset(w.sums) == multiset(SumsFor(RecordsOf(w.tree, hash, w.files), hash(w.manifest)))
  }

  lemma RecordsAreListed(tree: Tree, hash: Bytes -> string, files: seq<Parts>)
    requires IsTree(tree) && IsListOf(files, tree)
    ensures IsListing(RecordsOf(tree, hash, files))
  {
    var entries := RecordsOf(tree, hash, files);
    forall k | 0 <= k < |files| ensures !IsUnsafe(entries[k].path) { PlainIsSafe(files[k]); }
    forall i, j | 0 <= i < j < |files| ensures entries[i].path != entries[j].path {
      if entries[i].path == entries[j].path { PosixIsInjective(files[i], files[j]); }
    }
  }

  lemma PathsOfRecords(tree: Tree, hash: Bytes -> string, files: seq<Parts>)
    requires IsListOf(files, tree)
    ensures PathsIn(RecordsOf(tree, hash, files)) == Actual(tree)
  {
    var entries := RecordsOf(tree, hash, files);
    forall text | text in PathsIn(entries) ensures text in Actual(tree) {
      var k :| 0 <= k < |entries| && entries[k].path == text;
      assert files[k] in FilesOf(tree);
    }
    forall text | text in Actual(tree) ensures text in PathsIn(entries) {
      var p :| p in FilesOf(tree) && Posix(p) == text;
      var k :| 0 <= k < |files| && files[k] == p;
      assert entries[k].path == text;
    }
  }

  lemma MetadataIsNew(tree: Tree)
    requires IsTree(tree) && [MANIFEST] !in tree && [CHECKSUMS] !in tree
    ensures MANIFEST !in Actual(tree) && CHECKSUMS !in Actual(tree)
  {
    assert '/' !in MANIFEST && '/' !in CHECKSUMS;
    assert IsPlainPath([MANIFEST]) && IsPlainPath([CHECKSUMS]) && Posix([MANIFEST]) == MANIFEST &&
      Posix([CHECKSUMS]) == CHECKSUMS;
    forall p | p in FilesOf(tree) ensures Posix(p) != MANIFEST && Posix(p) != CHECKSUMS {
      if Posix(p) == MANIFEST { PosixIsInjective(p, [MANIFEST]); }
      if Posix(p) == CHECKSUMS { PosixIsInjective(p, [CHECKSUMS]); }
    }
  }

  /** Nothing in the completed tree lacks a record. */
  lemma NothingIsExtra(w: Written, hash: Bytes -> string)
    requires IsWritten(w, hash)
    ensures ExtrasOf(Completed(w.tree, w.manifest, w.checksums), RecordsOf(w.tree, hash, w.files)) == {}
  {
    PathsOfRecords(w.tree, hash, w.files);
    var full := Completed(w.tree, w.manifest, w.checksums);
    forall text | text in Actual(full) ensures text in Actual(w.tree) || text == MANIFEST || text == CHECKSUMS {
      var p :| p in FilesOf(full) && Posix(p) == text;
      if p != [MANIFEST] && p != [CHECKSUMS] { assert p in FilesOf(w.tree); }
    }
  }

  // ----- the sums that are written, in whatever order

  lemma SumsAreDistinct(entries: seq<Entry>, digest: string)
    requires IsListing(entries) && MANIFEST !in PathsIn(entries)
    requires forall k | 0 <= k < |entries| :: entries[k].digest.Some?
    ensures DistinctPaths(SumsFor(entries, digest))
  {
    var sums := SumsFor(entries, digest);
    forall i, j | 0 <= i < j < |sums| ensures sums[i].path != sums[j].path {
      assert sums[i].path == entries[i].path && entries[i].path in PathsIn(entries);
    }
  }

  /** Distinctness does not depend on the order. */
  lemma DistinctInAnyOrder(a: seq<Sum>, b: seq<Sum>)
    requires DistinctPaths(a) && multiset(a) == multiset(b)
    ensures DistinctPaths(b)
  {
    forall i, j | 0 <= i < j < |b| ensures b[i].path != b[j].path { OneOfPath(a, b, i, j); }
  }

  lemma OneOfPath(a: seq<Sum>, b: seq<Sum>, i: nat, j: nat)
    requires DistinctPaths(a) && multiset(a) == multiset(b) && i < j < |b|
    ensures b[i].path != b[j].path
  {
    MemberInAnyOrder(a, b, b[i]);
    MemberInAnyOrder(a, b, b[j]);
    var k :| 0 <= k < |a| && a[k] == b[i];
    var l :| 0 <= l < |a| && a[l] == b[j];
    assert Distinct(a);
    OnceOnly(a, b[i]);
    assert b[i] != b[j] by { if b[i] == b[j] { AtLeastTwice(b, i, j); } }
  }

  lemma MemberInAnyOrder(a: seq<Sum>, b: seq<Sum>, sum: Sum)
    requires multiset(a) == multiset(b)
    ensures sum in a <==> sum in b
  {
    assert sum in a <==> sum in multiset(a);
    assert sum in b <==> sum in multiset(b);
  }

  lemma SumsReadBackInAnyOrder(given: seq<Sum>, written: seq<Sum>)
    requires DistinctPaths(given) && (forall k | 0 <= k < |given| :: IsWritable(given[k])) &&
      multiset(given) == multiset(written)
    ensures Sums(SumText(written)).Some?
    ensures Sums(SumText(written)).value.Keys == set k | 0 <= k < |given| :: given[k].path
    ensures forall k | 0 <= k < |given| :: Sums(SumText(written)).value[given[k].path] == given[k].digest
  {
    DistinctInAnyOrder(given, written);
    forall j | 0 <= j < |written|
      ensures IsWritable(written[j]) && written[j].path in set k | 0 <= k < |given| :: given[k].path
    {
      MemberInAnyOrder(given, written, written[j]);
      var k :| 0 <= k < |given| && given[k] == written[j];
    }
    SumsReadBack(written);
    forall k | 0 <= k < |given|
      ensures given[k].path in Sums(SumText(written)).value &&
        Sums(SumText(written)).value[given[k].path] == given[k].digest
    {
      MemberInAnyOrder(given, written, given[k]);
      var j :| 0 <= j < |written| && written[j] == given[k];
    }
  }

  // ----- both directions

  lemma RecordFits(w: Written, hash: Bytes -> string, k: nat, sums: map<string, string>)
    requires IsWritten(w, hash) && k < |w.files|
    requires var entry := RecordOf(w.tree, hash, w.files[k]);
      entry.path in sums && Some(sums[entry.path]) == entry.digest
    ensures var path := w.files[k];
      EntryFits(Completed(w.tree, w.manifest, w.checksums), RecordOf(w.tree, hash, path), sums, hash) <==>
      (w.tree[path].executable ==> MayExecute(Posix(path)))
  {
    PosixReadsBack(w.files[k]);
  }

  lemma SumAt(entries: seq<Entry>, digest: string, k: nat)
    requires forall j | 0 <= j < |entries| :: entries[j].Entry? && entries[j].digest.Some?
    requires k <= |entries|
    ensures |SumsFor(entries, digest)| == |entries| + 1
    ensures SumsFor(entries, digest)[k] ==
      if k < |entries| then Sum(entries[k].path, entries[k].digest.value) else Sum(MANIFEST, digest)
  {
  }

  lemma PathsOfSums(entries: seq<Entry>, digest: string)
    requires forall j | 0 <= j < |entries| :: entries[j].Entry? && entries[j].digest.Some?
    ensures var given := SumsFor(entries, digest);
      (set k | 0 <= k < |given| :: given[k].path) == PathsIn(entries) + {MANIFEST}
  {
    var given := SumsFor(entries, digest);
    forall k | 0 <= k < |given| ensures given[k].path in PathsIn(entries) + {MANIFEST} { SumAt(entries, digest, k); }
    forall text | text in PathsIn(entries) + {MANIFEST} ensures exists k | 0 <= k < |given| :: given[k].path == text {
      if text == MANIFEST {
        SumAt(entries, digest, |entries|);
      } else {
        var k :| 0 <= k < |entries| && entries[k].path == text;
        SumAt(entries, digest, k);
      }
    }
  }

  lemma SumsAreWritable(w: Written, hash: Bytes -> string)
    requires IsWritten(w, hash) && forall path | path in FilesOf(w.tree) :: IsUnbroken(Posix(path))
    ensures var given := SumsFor(RecordsOf(w.tree, hash, w.files), hash(w.manifest));
      forall k | 0 <= k < |given| :: IsWritable(given[k])
  {
    var entries := RecordsOf(w.tree, hash, w.files);
    var given := SumsFor(entries, hash(w.manifest));
    forall k | 0 <= k < |given| ensures IsWritable(given[k]) {
      SumAt(entries, hash(w.manifest), k);
      if k < |entries| {
        PlainIsSafe(w.files[k]);
        assert w.files[k] in FilesOf(w.tree);
      }
    }
  }

  lemma PackableSums(w: Written, hash: Bytes -> string) returns (sums: map<string, string>)
    requires IsWritten(w, hash) && IsPackable(w.tree)
    ensures Sums(SumText(w.sums)) == Some(sums)
    ensures var entries := RecordsOf(w.tree, hash, w.files);
      sums.Keys == PathsIn(entries) + {MANIFEST} && sums[MANIFEST] == hash(w.manifest) &&
      forall k | 0 <= k < |entries| ::
        entries[k].Entry? && entries[k].path in sums && entries[k].digest == Some(sums[entries[k].path])
  {
    var entries := RecordsOf(w.tree, hash, w.files);
    var given := SumsFor(entries, hash(w.manifest));
    RecordsAreListed(w.tree, hash, w.files);
    PathsOfRecords(w.tree, hash, w.files);
    MetadataIsNew(w.tree);
    SumsAreDistinct(entries, hash(w.manifest));
    SumsAreWritable(w, hash);
    SumsReadBackInAnyOrder(given, w.sums);
    PathsOfSums(entries, hash(w.manifest));
    sums := Sums(SumText(w.sums)).value;
    forall k | 0 <= k <= |entries|
      ensures given[k].path in sums && sums[given[k].path] == given[k].digest && given[k] == (
        if k < |entries| then Sum(entries[k].path, entries[k].digest.value) else Sum(MANIFEST, hash(w.manifest)))
    {
      SumAt(entries, hash(w.manifest), k);
    }
    assert given[|entries|] == Sum(MANIFEST, hash(w.manifest));
  }

  lemma PackableRecordsPass(w: Written, hash: Bytes -> string)
    requires IsWritten(w, hash) && IsPackable(w.tree)
    ensures RecordChecksPass(Completed(w.tree, w.manifest, w.checksums), RecordsOf(w.tree, hash, w.files),
      SumText(w.sums), hash)
  {
    var entries := RecordsOf(w.tree, hash, w.files);
    var sums := PackableSums(w, hash);
    RecordsAreListed(w.tree, hash, w.files);
    forall k | 0 <= k < |entries|
      ensures EntryFits(Completed(w.tree, w.manifest, w.checksums), entries[k], sums, hash)
    {
      assert w.files[k] in FilesOf(w.tree);
      RecordFits(w, hash, k, sums);
    }
    NothingIsExtra(w, hash);
  }

  lemma PassingIsPackable(w: Written, hash: Bytes -> string, path: Parts)
    requires IsWritten(w, hash) && path in FilesOf(w.tree)
    requires RecordChecksPass(Completed(w.tree, w.manifest, w.checksums), RecordsOf(w.tree, hash, w.files),
      SumText(w.sums), hash)
    ensures IsUnbroken(Posix(path)) && (w.tree[path].executable ==> MayExecute(Posix(path)))
  {
    var entries, sums := RecordsOf(w.tree, hash, w.files), Sums(SumText(w.sums)).value;
    var k :| 0 <= k < |w.files| && w.files[k] == path;
    assert entries[k].path in PathsIn(entries);
    NamedPathsAreUnbroken(SumText(w.sums));
    assert EntryFits(Completed(w.tree, w.manifest, w.checksums), entries[k], sums, hash);
    RecordFits(w, hash, k, sums);
  }

  /**
   The records that package writes pass the record checks exactly when no path holds a line break
   and every executable is one of the three canonical ones or an .AppImage under bin/.
   */
  lemma WrittenRecordsPass(w: Written, hash: Bytes -> string)
    requires IsWritten(w, hash)
    ensures RecordChecksPass(
        Completed(w.tree, w.manifest, w.checksums), RecordsOf(w.tree, hash, w.files), SumText(w.sums), hash) <==>
      IsPackable(w.tree)
  {
    var passes := RecordChecksPass(
      Completed(w.tree, w.manifest, w.checksums), RecordsOf(w.tree, hash, w.files), SumText(w.sums), hash);
    if passes {
      forall path | path in FilesOf(w.tree)
        ensures IsUnbroken(Posix(path)) && (w.tree[path].executable ==> MayExecute(Posix(path)))
      {
        PassingIsPackable(w, hash, path);
      }
    } else if IsPackable(w.tree) {
      PackableRecordsPass(w, hash);
    }
  }

  /**
   The packaged directory as a whole: with its records written by package, strict verification is
   down to packable paths, the canonical files, the artifacts and a clean payload.
   */
  lemma PackagedIsVerified(w: Written, tools: Tools, manifest: Manifest)
    requires IsWritten(w, tools.hash) && tools.text(w.checksums) == Some(SumText(w.sums))
    requires tools.manifest(w.manifest) == Some(manifest) && manifest.schema == 1 && IsComplete(manifest)
    requires manifest.files == Some(RecordsOf(w.tree, tools.hash, w.files))
    ensures var full := Completed(w.tree, w.manifest, w.checksums);
      IsVerified(full, true, tools) <==>
      IsPackable(w.tree) && IsCanonical(full) && ArtifactsFit(full, manifest, tools) &&
      PayloadFits(full, manifest, true, tools)
  {
    CompletedMetadata(w, tools, manifest);
    WrittenRecordsPass(w, tools.hash);
    VerifiedParts(Completed(w.tree, w.manifest, w.checksums), tools, manifest);
  }

  lemma CompletedMetadata(w: Written, tools: Tools, manifest: Manifest)
    requires tools.text(w.checksums) == Some(SumText(w.sums))
    requires tools.manifest(w.manifest) == Some(manifest) && manifest.schema == 1
    ensures var full := Completed(w.tree, w.manifest, w.checksums);
      ManifestOf(full, tools) == Some(manifest) && SumsOf(full, tools) == Sums(SumText(w.sums))
  {
    var full := Completed(w.tree, w.manifest, w.checksums);
    assert [MANIFEST] != [CHECKSUMS] by {
      assert [MANIFEST][0] == MANIFEST && [CHECKSUMS][0] == CHECKSUMS && MANIFEST[0] == 'm';
    }
    assert full[[MANIFEST]] == File(w.manifest, false) && full[[CHECKSUMS]] == File(w.checksums, false);
  }

  lemma VerifiedParts(full: Tree, tools: Tools, manifest: Manifest)
    requires ManifestOf(full, tools) == Some(manifest) && IsComplete(manifest)
    ensures IsVerified(full, true, tools) <==>
      SumsOf(full, tools).Some? && IsCanonical(full) &&
      RecordsFit(full, manifest.files.value, SumsOf(full, tools).value, tools.hash) &&
      ArtifactsFit(full, manifest, tools) && PayloadFits(full, manifest, true, tools) &&
      ExtrasOf(full, manifest.files.value) == {}
  {
  }

  // ----- the names that AppImages get

  predicate IsNameChar(c: char) {
    'A' <= c <= 'Z' || 'a' <= c <= 'z' || '0' <= c <= '9' || c == '.' || c == '_' || c == '+' || c == '-'
  }

  predicate IsKept(name: string) {
    name != "" && name != "emuwiz" && name != "emuwiz-cli" && forall k | 0 <= k < |name| :: IsNameChar(name[k])
  }

  function Decimal(n: nat): (text: string)
    ensures text != "" && forall k | 0 <= k < |text| :: '0' <= text[k] <= '9'
  {
    (if n < 10 then "" else Decimal(n / 10)) + [(n % 10 + '0' as int) as char]
  }

  /** The file name under bin/ of the AppImage at that position, counted from one. */
  function OutputName(name: string, position: nat): string {
    if IsKept(name) then name else "emuwiz-" + (Decimal(position) + ".AppImage")
  }

  lemma EndsAfter(lead: string, suffix: string)
    ensures EndsWith(lead + suffix, suffix)
  {
  }

  lemma EndsUnder(name: string, suffix: string)
    requires |suffix| > 4
    ensures EndsWith("bin/" + name, suffix) && |name| >= |suffix| <==> EndsWith(name, suffix)
  {
    var text := "bin/" + name;
    if |name| >= |suffix| { assert text[|text| - |suffix|..] == name[|name| - |suffix|..]; }
  }

  /** A name shorter than the suffix cannot borrow from the folder's. */
  lemma ShortNameFails(name: string)
    requires |name| < 9
    ensures !EndsWith("bin/" + name, ".AppImage")
  {
    var text := "bin/" + name;
    if |text| >= 9 {
      var at := |text| - 9;
      assert text[at] == "bin/"[at];
      assert text[at..][0] == text[at];
    }
  }

  /** The verifier lets an AppImage be executable exactly when its given name is not kept or ends in .AppImage. */
  lemma OutputNameMayExecute(name: string, position: nat)
    ensures MayExecute("bin/" + OutputName(name, position)) <==> !IsKept(name) || EndsWith(name, ".AppImage")
  {
    var output := OutputName(name, position);
    var text := "bin/" + output;
    assert StartsWith(text, "bin/") && text[0] == 'b' && text[4..] == output;
    assert GUI_PATH[4..] == "emuwiz" && CLI_PATH[4..] == "emuwiz-cli" && "install.sh"[0] == 'i';
    if IsKept(name) {
      assert text !in CANONICAL_EXECUTABLES;
      if |name| < 9 { ShortNameFails(name); } else { EndsUnder(name, ".AppImage"); }
    } else {
      var lead := "emuwiz-" + Decimal(position);
      assert output == lead + ".AppImage";
      assert text == "bin/" + lead + ".AppImage";
      EndsAfter("bin/" + lead, ".AppImage");
    }
  }

  /** Where package puts the executables: both binaries, the installer, and the AppImages given to it. */
  function ExecutablePaths(names: seq<string>): set<Parts> {
    {["bin", "emuwiz"], ["bin", "emuwiz-cli"], ["install.sh"]} +
    set k | 0 <= k < |names| :: ["bin", OutputName(names[k], k + 1)]
  }

  predicate IsPassedName(name: string) {
    !IsKept(name) || EndsWith(name, ".AppImage")
  }

  lemma ExecutablesMayExecute(names: seq<string>)
    ensures (forall path | path in ExecutablePaths(names) :: MayExecute(Posix(path))) <==>
      forall k | 0 <= k < |names| :: IsPassedName(names[k])
  {
    forall k | 0 <= k < |names|
      ensures var path := ["bin", OutputName(names[k], k + 1)];
        path in ExecutablePaths(names) && (MayExecute(Posix(path)) <==> IsPassedName(names[k]))
    {
      var path := ["bin", OutputName(names[k], k + 1)];
      assert Posix(path) == "bin/" + OutputName(names[k], k + 1) by {
        assert path[1..] == [OutputName(names[k], k + 1)];
        assert "bin" + ("/" + OutputName(names[k], k + 1)) == "bin/" + OutputName(names[k], k + 1);
      }
      OutputNameMayExecute(names[k], k + 1);
    }
    CanonicalMayExecute();
  }

  lemma CanonicalMayExecute()
    ensures MayExecute(Posix(["bin", "emuwiz"])) && MayExecute(Posix(["bin", "emuwiz-cli"])) &&
      MayExecute(Posix(["install.sh"]))
  {
    assert ["bin", "emuwiz"][1..] == ["emuwiz"] && ["bin", "emuwiz-cli"][1..] == ["emuwiz-cli"];
    assert "bin" + ("/" + "emuwiz") == GUI_PATH && "bin" + ("/" + "emuwiz-cli") == CLI_PATH;
  }

  /**
   Package accepts the records of its own output exactly when every AppImage it was given either ends
   in .AppImage or has a name it does not keep; a kept name such as tool.sh fails only here, at the end.
   */
  lemma PackageAcceptsItsOwn(w: Written, hash: Bytes -> string, names: seq<string>)
    requires IsWritten(w, hash) && forall path | path in FilesOf(w.tree) :: IsUnbroken(Posix(path))
    requires (set path | path in FilesOf(w.tree) && w.tree[path].executable) == ExecutablePaths(names)
    ensures RecordChecksPass(
        Completed(w.tree, w.manifest, w.checksums), RecordsOf(w.tree, hash, w.files), SumText(w.sums), hash) <==>
      forall k | 0 <= k < |names| :: IsPassedName(names[k])
  {
    WrittenRecordsPass(w, hash);
    ExecutablesMayExecute(names);
    SameExecutables(w.tree, ExecutablePaths(names));
  }

  lemma SameExecutables(tree: Tree, paths: set<Parts>)
    requires (set path | path in FilesOf(tree) && tree[path].executable) == paths
    requires forall path | path in FilesOf(tree) :: IsUnbroken(Posix(path))
    ensures IsPackable(tree) <==> forall path | path in paths :: MayExecute(Posix(path))
  {
    assert forall path | path in FilesOf(tree) && tree[path].executable :: path in paths;
  }

  // ----- an AppImage that is packaged and refused

  const RUNNABLE := File([], true)
  const TOOL_FILES: seq<Parts> := [["bin", "emuwiz"], ["bin", "emuwiz-cli"], ["install.sh"], ["bin", "tool.sh"]]
  const TOOL_TREE: Tree := map[["bin"] := Folder] + map p | p in TOOL_FILES :: RUNNABLE

  function Zeros(content: Bytes): string {
    seq(64, _ => '0')
  }

  const TOOL := Written(TOOL_TREE, TOOL_FILES, [], [], SumsFor(RecordsOf(TOOL_TREE, Zeros, TOOL_FILES), Zeros([])))

  lemma ToolPaths()
    ensures Distinct(TOOL_FILES) && [MANIFEST] !in TOOL_TREE && [CHECKSUMS] !in TOOL_TREE && ["bin"] !in TOOL_FILES
    ensures forall k | 0 <= k < |TOOL_FILES| :: IsPlainPath(TOOL_FILES[k]) && IsUnbroken(Posix(TOOL_FILES[k]))
    ensures forall k | 0 <= k < |TOOL_FILES| :: |TOOL_FILES[k]| > 1 ==> TOOL_FILES[k][..|TOOL_FILES[k]| - 1] == ["bin"]
  {
    ToolNames();
    assert forall k | 0 <= k < |TOOL_FILES| :: |TOOL_FILES[k]| == if k == 2 then 1 else 2;
    assert TOOL_FILES[0][1] == "emuwiz" && TOOL_FILES[1][1] == "emuwiz-cli" && TOOL_FILES[2][0] == "install.sh" &&
      TOOL_FILES[3][1] == "tool.sh";
    ToolTexts();
    assert [MANIFEST][0] == MANIFEST && [CHECKSUMS][0] == CHECKSUMS && ["bin"][0] == "bin";
  }

  lemma ToolNames()
    ensures forall name | name in {"bin", "emuwiz", "emuwiz-cli", "install.sh", "tool.sh"} ::
      IsPlainName(name) && name != MANIFEST && name != CHECKSUMS
    ensures "emuwiz" != "emuwiz-cli" && "emuwiz" != "tool.sh" && "emuwiz-cli" != "tool.sh"
  {
    assert |"emuwiz"| == 6 && |"emuwiz-cli"| == 10 && |"tool.sh"| == 7;
    assert MANIFEST[0] == 'm' && CHECKSUMS[0] == 'S';
  }

  lemma ToolTexts()
    ensures IsUnbroken(Posix(["bin", "emuwiz"])) && IsUnbroken(Posix(["bin", "emuwiz-cli"]))
    ensures IsUnbroken(Posix(["install.sh"])) && IsUnbroken(Posix(["bin", "tool.sh"]))
  {
    assert ["bin", "emuwiz"][1..] == ["emuwiz"] && ["bin", "emuwiz-cli"][1..] == ["emuwiz-cli"] &&
      ["bin", "tool.sh"][1..] == ["tool.sh"];
    assert "bin" + ("/" + "emuwiz") == "bin/emuwiz" && "bin" + ("/" + "emuwiz-cli") == "bin/emuwiz-cli" &&
      "bin" + ("/" + "tool.sh") == "bin/tool.sh";
  }

  lemma ToolNodes()
    ensures TOOL_TREE.Keys == {["bin"]} + (set p | p in TOOL_FILES) && TOOL_TREE[["bin"]] == Folder
    ensures forall k | 0 <= k < |TOOL_FILES| :: TOOL_FILES[k] in TOOL_TREE && TOOL_TREE[TOOL_FILES[k]] == RUNNABLE
    ensures FilesOf(TOOL_TREE) == set p | p in TOOL_FILES
    ensures (set p | p in FilesOf(TOOL_TREE) && TOOL_TREE[p].executable) == set p | p in TOOL_FILES
  {
    ToolPaths();
  }

  lemma ToolIsTree(tree: Tree, files: seq<Parts>)
    requires tree.Keys == {["bin"]} + (set p | p in files) && tree[["bin"]] == Folder && IsPlainName("bin")
    requires forall k | 0 <= k < |files| ::
      IsPlainPath(files[k]) && (|files[k]| > 1 ==> files[k][..|files[k]| - 1] == ["bin"])
    ensures IsTree(tree)
  {
  }

  lemma SumsAreWritten(tree: Tree, files: seq<Parts>)
    requires IsTree(tree) && IsListOf(files, tree) && [MANIFEST] !in tree && [CHECKSUMS] !in tree
    ensures IsWritten(Written(tree, files, [], [], SumsFor(RecordsOf(tree, Zeros, files), Zeros([]))), Zeros)
  {
  }

  lemma ToolIsWritten()
    ensures IsWritten(TOOL, Zeros) && forall path | path in FilesOf(TOOL.tree) :: IsUnbroken(Posix(path))
  {
    ToolPaths();
    ToolNodes();
    ToolNames();
    ToolIsTree(TOOL_TREE, TOOL_FILES);
    SumsAreWritten(TOOL_TREE, TOOL_FILES);
  }

  lemma ToolExecutables()
    ensures (set p | p in TOOL_FILES) == ExecutablePaths(["tool.sh"]) && !IsPassedName("tool.sh")
  {
    var names := ["tool.sh"];
    assert |"tool.sh"| == 7 && |"emuwiz"| == 6 && IsKept("tool.sh") && !EndsWith("tool.sh", ".AppImage");
    assert ["bin", OutputName(names[0], 1)] == TOOL_FILES[3];
    assert (set k | 0 <= k < |names| :: ["bin", OutputName(names[k], k + 1)]) == {TOOL_FILES[3]};
  }

  /** A tool.sh given as an AppImage is written into the release with records that do not pass. */
  lemma ToolIsRefused()
    ensures IsWritten(TOOL, Zeros) && (forall path | path in FilesOf(TOOL.tree) :: IsUnbroken(Posix(path)))
    ensures (set path | path in FilesOf(TOOL.tree) && TOOL.tree[path].executable) == ExecutablePaths(["tool.sh"])
    ensures !RecordChecksPass(
      Completed(TOOL.tree, TOOL.manifest, TOOL.checksums), RecordsOf(TOOL.tree, Zeros, TOOL.files),
        SumText(TOOL.sums), Zeros)
  {
    ToolIsWritten();
    ToolNodes();
    ToolExecutables();
    PackageAcceptsItsOwn(TOOL, Zeros, ["tool.sh"]);
    assert !IsPassedName(["tool.sh"][0]);
  }
}
