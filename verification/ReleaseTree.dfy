/**
 The tree of a packaged release: POSIX path texts and their parts, the payload walk, and the
 checksum file.
 */
module ReleaseTree {
  import opened Common
  import opened TextLines

  type Bytes = seq<bv8>
  type Parts = seq<string>

  datatype Node = File(content: Bytes, executable: bool) | Folder | Link | Special

  /** Everything below the release directory, by its parts relative to it. */
  type Tree = map<Parts, Node>

  predicate IsPlainName(name: string) {
    name != "" && name != "." && name != ".." && '/' !in name
  }

  predicate IsPlainPath(path: Parts) {
    path != [] && forall k | 0 <= k < |path| :: IsPlainName(path[k])
  }

  predicate IsTree(tree: Tree) {
    forall p | p in tree :: IsPlainPath(p) && (|p| > 1 ==> p[..|p| - 1] in tree && tree[p[..|p| - 1]].Folder?)
  }

  // ----- path texts

  function Pieces(text: string): (pieces: seq<string>)
    ensures pieces != []
  {
    if text == "" then [""]
    else
      var rest := Pieces(text[1..]);
      if text[0] == '/' then [""] + rest else [[text[0]] + rest[0]] + rest[1..]
  }

  function Named(pieces: seq<string>): Parts {
    if pieces == [] then []
    else (if pieces[0] == "" || pieces[0] == "." then [] else [pieces[0]]) + Named(pieces[1..])
  }

  /** The parts of a path text: empty pieces and single dots do not count. */
  function PartsOf(text: string): Parts {
    Named(Pieces(text))
  }

  function Posix(path: Parts): string {
    if path == [] then "" else if |path| == 1 then path[0] else path[0] + ("/" + Posix(path[1..]))
  }

  lemma {:induction false} PieceOff(name: string, more: string)
    requires '/' !in name
    ensures Pieces(name + ("/" + more)) == [name] + Pieces(more)
    ensures Pieces(name) == [name]
  {
    if name == "" {
      assert name + ("/" + more) == "/" + more && ("/" + more)[1..] == more;
    } else {
      PieceOff(name[1..], more);
      assert (name + ("/" + more))[1..] == name[1..] + ("/" + more);
      assert [name[0]] + name[1..] == name;
    }
  }

  /** The text of a path leads back to its parts. */
  lemma {:induction false} PosixReadsBack(path: Parts)
    requires IsPlainPath(path)
    ensures PartsOf(Posix(path)) == path && Pieces(Posix(path)) == path
  {
    assert IsPlainName(path[0]);
    if |path| == 1 {
      PieceOff(path[0], "");
      assert Named(path[1..]) == [];
    } else {
      var rest := path[1..];
      assert forall k | 0 <= k < |rest| :: rest[k] == path[k + 1];
      PosixReadsBack(rest);
      PieceOff(path[0], Posix(rest));
      assert path == [path[0]] + rest;
    }
  }

  predicate IsAbsolute(text: string) {
    StartsWith(text, "/")
  }

  predicate IsUnsafe(text: string) {
    IsAbsolute(text) || ".." in PartsOf(text)
  }

  lemma PlainIsSafe(path: Parts)
    requires IsPlainPath(path)
    ensures !IsUnsafe(Posix(path)) && Posix(path) != ""
  {
    PosixReadsBack(path);
    var text := Posix(path);
    assert path[0] != "" && '/' !in path[0];
    assert text[0] == path[0][0];
  }

  lemma PosixIsInjective(a: Parts, b: Parts)
    requires IsPlainPath(a) && IsPlainPath(b) && Posix(a) == Posix(b)
    ensures a == b
  {
    PosixReadsBack(a);
    PosixReadsBack(b);
  }

  predicate HasFile(tree: Tree, path: Parts) {
    path in tree && tree[path].File?
  }

  function FilesOf(tree: Tree): set<Parts> {
    set p | p in tree && tree[p].File?
  }

  // ----- the payload walk

  const DENIED_PAYLOAD_NAMES: set<string> := {
    ".config", ".local", "library.sqlite3", "config.toml", "rename-transactions", "rename-transactions-sealed-v1",
    "undo-seals.sqlite3", "sealed-writers", "identity", "managed-dats", "roms", "bios", "saves", "journals"
  }

  datatype Payload =
    | Payload(files: seq<Parts>)
    | Forbidden(path: Parts)
    | Symlinked(path: Parts)
    | NoPlainFile(path: Parts)

  predicate IsDenied(path: Parts) {
    exists k | 0 <= k < |path| :: Lower(path[k]) in DENIED_PAYLOAD_NAMES
  }

  function FaultAt(tree: Tree, path: Parts): Option<Payload>
    requires path in tree
  {
    if IsDenied(path) then Some(Forbidden(path))
    else if tree[path].Link? then Some(Symlinked(path))
    else if tree[path].Special? then Some(NoPlainFile(path))
    else None
  }

  predicate IsClean(tree: Tree) {
    forall p | p in tree :: FaultAt(tree, p).None?
  }

  predicate IsWalkOf(order: seq<Parts>, tree: Tree) {
    Distinct(order) && (forall k | 0 <= k < |order| :: order[k] in tree) && forall p | p in tree :: p in order
  }

  /** payload_files: all regular files, unless the walk meets something that no payload may hold. */
  method PayloadFiles(tree: Tree, order: seq<Parts>) returns (payload: Payload)
    requires IsWalkOf(order, tree)
    ensures payload.Payload? <==> IsClean(tree)
    ensures payload.Payload? ==> Distinct(payload.files) && (set p | p in payload.files) == FilesOf(tree)
    ensures !payload.Payload? ==> exists k | 0 <= k < |order| ::
      FaultAt(tree, order[k]) == Some(payload) && forall j | 0 <= j < k :: FaultAt(tree, order[j]).None?
  {
    var files: seq<Parts> := [];
    for k := 0 to |order|
      invariant forall j | 0 <= j < k :: FaultAt(tree, order[j]).None?
      invariant Distinct(files)
      invariant forall p :: p in files <==> p in order[..k] && tree[p].File?
    {
      assert order[k] !in order[..k];
      if IsDenied(order[k]) {
        return Forbidden(order[k]);
      }
      if tree[order[k]].Link? {
        return Symlinked(order[k]);
      }
      if tree[order[k]].File? {
        files := files + [order[k]];
      } else if !tree[order[k]].Folder? {
        return NoPlainFile(order[k]);
      }
      assert order[..k + 1] == order[..k] + [order[k]];
    }
    assert order[..|order|] == order;
    payload := Payload(files);
  }

  // ----- the checksum file

  datatype Sum = Sum(path: string, digest: string)

  predicate IsHexDigit(c: char) {
    '0' <= c <= '9' || 'a' <= c <= 'f'
  }

  predicate IsDigest(text: string) {
    |text| == 64 && forall k | 0 <= k < 64 :: IsHexDigit(text[k])
  }

  predicate IsUnbroken(text: string) {
    forall k | 0 <= k < |text| :: !IsBreak(text[k])
  }

  function SumLine(sum: Sum): string {
    sum.digest + ("  " + sum.path)
  }

  function ParseLine(line: string): Option<Sum> {
    if |line| < 67 || !IsDigest(line[..64]) || line[64..66] != "  " || '\r' in line[66..] ||
      '\n' in line[66..] then None
    else Some(Sum(line[66..], line[..64]))
  }

  /** What the remaining lines make of the records read so far; None for a bad or repeated record. */
  function SumsFrom(lines: seq<string>, sums: map<string, string>): Option<map<string, string>> {
    if lines == [] then Some(sums)
    else
      var sum := ParseLine(lines[0]);
      if sum.None? || sum.value.path in sums then None
      else SumsFrom(lines[1..], sums[sum.value.path := sum.value.digest])
  }

  function Sums(text: string): Option<map<string, string>> {
    SumsFrom(SplitLines(text), map[])
  }

  method ParseChecksumFile(text: string) returns (sums: Option<map<string, string>>)
    ensures sums == Sums(text)
  {
    var lines := SplitLines(text);
    var read: map<string, string> := map[];
    assert lines[0..] == lines;
    for k := 0 to |lines|
      invariant SumsFrom(lines[k..], read) == Sums(text)
    {
      assert lines[k..][1..] == lines[k + 1..];
      var sum := ParseLine(lines[k]);
      if sum.None? || sum.value.path in read {
        return None;
      }
      read := read[sum.value.path := sum.value.digest];
    }
    sums := Some(read);
  }

  lemma {:induction false} LinesAreUnbroken(text: string)
    ensures forall line | line in SplitLines(text) :: IsUnbroken(line)
    decreases |text|
  {
    if text != "" {
      var n := FirstBreak(text);
      if n == |text| {
      } else if text[n] == '\r' && n + 1 < |text| && text[n + 1] == '\n' {
        LinesAreUnbroken(text[n + 2..]);
      } else {
        LinesAreUnbroken(text[n + 1..]);
      }
    }
  }

  lemma {:induction false} PathsAreUnbroken(lines: seq<string>, sums: map<string, string>)
    requires forall line | line in lines :: IsUnbroken(line)
    requires forall path | path in sums :: IsUnbroken(path)
    ensures SumsFrom(lines, sums).Some? ==> forall path | path in SumsFrom(lines, sums).value :: IsUnbroken(path)
  {
    if lines != [] {
      var sum := ParseLine(lines[0]);
      if sum.Some? && sum.value.path !in sums {
        assert lines[0] in lines;
        assert forall k | 0 <= k < |lines[0]| - 66 :: lines[0][66..][k] == lines[0][66 + k];
        PathsAreUnbroken(lines[1..], sums[sum.value.path := sum.value.digest]);
      }
    }
  }

  /** No path that a checksum file names holds a line break. */
  lemma NamedPathsAreUnbroken(text: string)
    ensures Sums(text).Some? ==> forall path | path in Sums(text).value :: IsUnbroken(path)
  {
    LinesAreUnbroken(text);
    PathsAreUnbroken(SplitLines(text), map[]);
  }

  function SumText(sums: seq<Sum>): string {
    JoinLines(Mapped(SumLine, sums))
  }

  predicate IsWritable(sum: Sum) {
    IsDigest(sum.digest) && sum.path != "" && IsUnbroken(sum.path)
  }

  lemma HexIsUnbroken(text: string)
    requires IsDigest(text)
    ensures IsUnbroken(text)
  {
  }

  lemma UnbrokenLineOff(line: string, more: string)
    requires IsUnbroken(line)
    ensures SplitLines(line + ("\n" + more)) == [line] + SplitLines(more)
  {
    CutPast(line, "\n" + more);
    assert Cut("\n" + more) == "";
    LineOff(line, more);
  }

  lemma LineIsParsed(sum: Sum)
    requires IsWritable(sum)
    ensures ParseLine(SumLine(sum)) == Some(sum) && IsUnbroken(SumLine(sum))
  {
    var line := SumLine(sum);
    HexIsUnbroken(sum.digest);
    assert line[..64] == sum.digest && line[64..66] == "  " && line[66..] == sum.path;
  }

  lemma LineReadsBack(sum: Sum, more: string)
    requires IsWritable(sum)
    ensures SplitLines(SumLine(sum) + ("\n" + more)) == [SumLine(sum)] + SplitLines(more)
    ensures ParseLine(SumLine(sum)) == Some(sum)
  {
    LineIsParsed(sum);
    UnbrokenLineOff(SumLine(sum), more);
  }

  lemma SumsHead(sum: Sum, more: string, sofar: map<string, string>)
    requires IsWritable(sum) && sum.path !in sofar
    ensures SumsFrom(SplitLines(SumLine(sum) + ("\n" + more)), sofar) ==
      SumsFrom(SplitLines(more), sofar[sum.path := sum.digest])
  {
    LineReadsBack(sum, more);
  }

  predicate DistinctPaths(sums: seq<Sum>) {
    forall i, j | 0 <= i < j < |sums| :: sums[i].path != sums[j].path
  }

  function AsMap(sums: seq<Sum>, sofar: map<string, string>): map<string, string> {
    if sums == [] then sofar else AsMap(sums[1..], sofar[sums[0].path := sums[0].digest])
  }

  lemma {:induction false} SumsReadBackFrom(sums: seq<Sum>, sofar: map<string, string>)
    requires DistinctPaths(sums) && forall k | 0 <= k < |sums| :: IsWritable(sums[k]) && sums[k].path !in sofar
    ensures SumsFrom(SplitLines(SumText(sums)), sofar) == Some(AsMap(sums, sofar))
  {
    if sums != [] {
      assert Mapped(SumLine, sums)[1..] == Mapped(SumLine, sums[1..]);
      SumsHead(sums[0], SumText(sums[1..]), sofar);
      SumsReadBackFrom(sums[1..], sofar[sums[0].path := sums[0].digest]);
    }
  }

  lemma {:induction false} AsMapHolds(sums: seq<Sum>, sofar: map<string, string>)
    requires DistinctPaths(sums) && forall k | 0 <= k < |sums| :: sums[k].path !in sofar
    ensures AsMap(sums, sofar).Keys == sofar.Keys + set k | 0 <= k < |sums| :: sums[k].path
    ensures forall path | path in sofar :: AsMap(sums, sofar)[path] == sofar[path]
    ensures forall k | 0 <= k < |sums| :: AsMap(sums, sofar)[sums[k].path] == sums[k].digest
  {
    if sums != [] {
      var rest, more := sums[1..], sofar[sums[0].path := sums[0].digest];
      AsMapHolds(rest, more);
      assert forall k | 1 <= k < |sums| :: sums[k] == rest[k - 1];
      assert forall k | 0 <= k < |rest| :: rest[k] == sums[k + 1];
      assert (set k | 0 <= k < |sums| :: sums[k].path) == {sums[0].path} + set k | 0 <= k < |rest| :: rest[k].path;
    }
  }

  /** A checksum text with distinct, unbroken paths names exactly those paths with their digests. */
  lemma SumsReadBack(sums: seq<Sum>)
    requires DistinctPaths(sums) && forall k | 0 <= k < |sums| :: IsWritable(sums[k])
    ensures Sums(SumText(sums)).Some? && Sums(SumText(sums)).value.Keys == set k | 0 <= k < |sums| :: sums[k].path
    ensures forall k | 0 <= k < |sums| :: Sums(SumText(sums)).value[sums[k].path] == sums[k].digest
  {
    SumsReadBackFrom(sums, map[]);
    AsMapHolds(sums, map[]);
  }
}
