/**
 A POSIX file system as the inspector sees it: a map from locations to objects, path
 lookup with symbolic links, and the lexical path operations of Python's pathlib.
 */
module FileSystem {
  import opened Common

  type Name = string

  /** A normalised pathlib path: an optional leading slash and its parts. */
  datatype Path = Path(absolute: bool, parts: seq<Name>)

  /** A place in the tree, spelled from the root without links or parent steps. */
  type Location = seq<Name>

  /** A regular file is known by its digest, so equal digests stand for equal bytes. */
  datatype Object =
    | Regular(sha256: string, size: nat, mtime: int, ino: nat, dev: nat, readable: bool)
    | Directory(searchable: bool)
    | Symlink(text: string, target: Path)
    | Special

  datatype Disk = Disk(objects: map<Location, Object>, cwd: Location)

  /** Found, ENOENT, or any other OSError. */
  datatype Lookup = Found(at: Location) | Missing | Failed

  /** The kernel follows this many links in one lookup before it gives up. */
  const MAX_LINKS: nat := 40

  /** Kernel path lookup from directory `at` along `rest`; `follow` also follows the leaf. */
  function Walk(disk: Disk, at: Location, rest: seq<Name>, follow: bool, links: nat): (found: Lookup)
    ensures found.Found? ==> found.at in disk.objects
    decreases links, |rest|
  {
    if at !in disk.objects then Missing
    else if rest == [] then Found(at)
    else match disk.objects[at]
      case Directory(searchable) =>
        if !searchable then Failed
        else if rest[0] == ".." then Walk(disk, ParentOf(at), rest[1..], follow, links)
        else
          var child := at + [rest[0]];
          if child !in disk.objects then Missing
          else if disk.objects[child].Symlink? && (follow || |rest| > 1) then
            if links == 0 then Failed
            else
              var target := disk.objects[child].target;
              Walk(disk, if target.absolute then [] else at, target.parts + rest[1..], follow, links - 1)
          else Walk(disk, child, rest[1..], follow, links)
      case _ => Failed
  }

  function ParentOf(at: Location): Location {
    if at == [] then [] else at[..|at| - 1]
  }

  function StartOf(disk: Disk, path: Path): Location {
    if path.absolute then [] else disk.cwd
  }

  function Lstat(disk: Disk, path: Path): Lookup {
    Walk(disk, StartOf(disk, path), path.parts, false, MAX_LINKS)
  }

  /** Lookup that follows a link at the leaf as well. */
  function Stat(disk: Disk, path: Path): Lookup {
    Walk(disk, StartOf(disk, path), path.parts, true, MAX_LINKS)
  }

  // ----- lexical path operations

  function Absolute(disk: Disk, path: Path): seq<Name> {
    if path.absolute then path.parts else disk.cwd + path.parts
  }

  /** path_is_within: purely lexical, so parent steps are not interpreted. */
  predicate IsWithin(disk: Disk, path: Path, root: Path) {
    Absolute(disk, root) <= Absolute(disk, path)
  }

  predicate HasParentStep(path: Path) {
    ".." in path.parts
  }

  /** The `/` operator of pathlib. */
  function Join(root: Path, relative: Path): Path {
    if relative.absolute then relative else Path(root.absolute, root.parts + relative.parts)
  }

  function PathParent(path: Path): Path {
    Path(path.absolute, ParentOf(path.parts))
  }

  function BaseName(path: Path): Name {
    if path.parts == [] then "" else path.parts[|path.parts| - 1]
  }

  function WithName(path: Path, name: Name): Path {
    Path(path.absolute, ParentOf(path.parts) + [name])
  }

  // ----- what file changes cannot disturb

  predicate IsRegular(disk: Disk, at: Location) {
    at in disk.objects && disk.objects[at].Regular?
  }

  /** Directories, links and special files are the same; regular files may come and go. */
  ghost predicate SameSkeleton(before: Disk, after: Disk) {
    before.cwd == after.cwd &&
    forall at :: (at in before.objects && !before.objects[at].Regular?) ||
      (at in after.objects && !after.objects[at].Regular?)
      ==> at in before.objects && at in after.objects && before.objects[at] == after.objects[at]
  }

  /** Every directory, link and special file of `before` is still in place. */
  ghost predicate KeepsSkeleton(before: Disk, after: Disk) {
    before.cwd == after.cwd &&
    forall at :: at in before.objects && !before.objects[at].Regular? ==>
      at in after.objects && before.objects[at] == after.objects[at]
  }

  /** As SameSkeleton, and no new file appeared. */
  ghost predicate OnlyShrunk(before: Disk, after: Disk) {
    SameSkeleton(before, after) && after.objects.Keys <= before.objects.Keys
  }

  /** A lookup that ends at a directory or link never passed through a regular file. */
  lemma {:induction false} WalkKeepsSkeleton(before: Disk, after: Disk, at: Location, rest: seq<Name>, follow: bool,
      links: nat)
    requires KeepsSkeleton(before, after)
    requires var w := Walk(before, at, rest, follow, links); w.Found? && !before.objects[w.at].Regular?
    ensures Walk(after, at, rest, follow, links) == Walk(before, at, rest, follow, links)
    decreases links, |rest|
  {
    if rest != [] {
      assert at in after.objects && after.objects[at] == before.objects[at];
      if rest[0] == ".." {
        WalkKeepsSkeleton(before, after, ParentOf(at), rest[1..], follow, links);
      } else {
        var child := at + [rest[0]];
        if before.objects[child].Symlink? && (follow || |rest| > 1) {
          var target := before.objects[child].target;
          var from := if target.absolute then [] else at;
          WalkKeepsSkeleton(before, after, from, target.parts + rest[1..], follow, links - 1);
        } else {
          WalkKeepsSkeleton(before, after, child, rest[1..], follow, links);
        }
      }
    }
  }

  /** When files only disappear or are overwritten, a lookup finds the same place or nothing. */
  lemma {:induction false} WalkAfterShrink(before: Disk, after: Disk, at: Location, rest: seq<Name>, follow: bool,
      links: nat)
    requires OnlyShrunk(before, after)
    ensures Walk(before, at, rest, follow, links).Missing? ==> Walk(after, at, rest, follow, links).Missing?
    ensures var w := Walk(before, at, rest, follow, links);
            w.Found? ==> Walk(after, at, rest, follow, links) == if w.at in after.objects then w else Missing
    decreases links, |rest|
  {
    if at in before.objects && rest != [] && before.objects[at].Directory? && before.objects[at].searchable {
      assert after.objects[at] == before.objects[at];
      if rest[0] == ".." {
        WalkAfterShrink(before, after, ParentOf(at), rest[1..], follow, links);
      } else {
        var child := at + [rest[0]];
        if child in before.objects {
          if before.objects[child].Symlink? && (follow || |rest| > 1) {
            if links > 0 {
              var target := before.objects[child].target;
              var from := if target.absolute then [] else at;
              WalkAfterShrink(before, after, from, target.parts + rest[1..], follow, links - 1);
            }
          } else {
            WalkAfterShrink(before, after, child, rest[1..], follow, links);
          }
        }
      }
    }
  }

  /** What is still found was found there before. */
  lemma {:induction false} FoundBefore(before: Disk, after: Disk, at: Location, rest: seq<Name>, follow: bool,
      links: nat)
    requires OnlyShrunk(before, after) && Walk(after, at, rest, follow, links).Found?
    ensures Walk(before, at, rest, follow, links) == Walk(after, at, rest, follow, links)
    decreases links, |rest|
  {
    if rest != [] {
      assert after.objects[at] == before.objects[at];
      if rest[0] == ".." {
        FoundBefore(before, after, ParentOf(at), rest[1..], follow, links);
      } else {
        var child := at + [rest[0]];
        if after.objects[child].Symlink? && (follow || |rest| > 1) {
          var target := after.objects[child].target;
          FoundBefore(before, after, if target.absolute then [] else at, target.parts + rest[1..], follow, links - 1);
        } else {
          FoundBefore(before, after, child, rest[1..], follow, links);
        }
      }
    }
  }

  /** The same places are taken, and by the same objects up to the contents of regular files. */
  ghost predicate SameShape(a: Disk, b: Disk) {
    SameSkeleton(a, b) && a.objects.Keys == b.objects.Keys
  }

  /** A lookup never reads a file. */
  lemma {:induction false} WalkOnShape(a: Disk, b: Disk, at: Location, rest: seq<Name>, follow: bool, links: nat)
    requires SameShape(a, b)
    ensures Walk(a, at, rest, follow, links) == Walk(b, at, rest, follow, links)
    decreases links, |rest|
  {
    if at in a.objects && rest != [] && a.objects[at].Directory? && a.objects[at].searchable {
      if rest[0] == ".." {
        WalkOnShape(a, b, ParentOf(at), rest[1..], follow, links);
      } else {
        var child := at + [rest[0]];
        if child in a.objects {
          if a.objects[child].Symlink? && (follow || |rest| > 1) {
            if links > 0 {
              var target := a.objects[child].target;
              WalkOnShape(a, b, if target.absolute then [] else at, target.parts + rest[1..], follow, links - 1);
            }
          } else {
            WalkOnShape(a, b, child, rest[1..], follow, links);
          }
        }
      }
    }
  }

  // ----- plain paths: no link on the way

  /** Every proper ancestor of `at` is a searchable directory. */
  ghost predicate Reachable(disk: Disk, at: Location) {
    forall k | 0 <= k < |at| :: at[..k] in disk.objects && disk.objects[at[..k]] == Directory(true)
  }

  lemma ReachableParent(disk: Disk, at: Location, k: nat)
    requires k <= |at| && Reachable(disk, at)
    ensures Reachable(disk, at[..k])
    ensures k < |at| ==> at[..k] in disk.objects && disk.objects[at[..k]] == Directory(true)
  {
    forall j | 0 <= j < k ensures at[..k][..j] in disk.objects && disk.objects[at[..k][..j]] == Directory(true) {
      assert at[..k][..j] == at[..j];
    }
  }

  lemma ReachableChild(disk: Disk, at: Location, name: Name)
    requires Reachable(disk, at) && at in disk.objects && disk.objects[at] == Directory(true)
    ensures Reachable(disk, at + [name])
  {
    var child := at + [name];
    forall j | 0 <= j < |child| ensures child[..j] in disk.objects && disk.objects[child[..j]] == Directory(true) {
      assert child[..j] == if j < |at| then at[..j] else at;
    }
  }

  lemma {:induction false} WalkPlain(disk: Disk, at: Location, k: nat, follow: bool, links: nat)
    requires k <= |at| && ".." !in at && Reachable(disk, at)
    requires at in disk.objects && (follow ==> !disk.objects[at].Symlink?)
    ensures Walk(disk, at[..k], at[k..], follow, links) == Found(at)
    decreases |at| - k
  {
    if k == |at| {
      assert at[..k] == at;
    } else {
      WalkPlain(disk, at, k + 1, follow, links);
      assert at[..k] + [at[k..][0]] == at[..k + 1];
      assert at[k..][1..] == at[k + 1..];
      if k + 1 < |at| { assert disk.objects[at[..k + 1]] == Directory(true); } else { assert at[..k + 1] == at; }
    }
  }

  /** A link-free path to an existing object is looked up literally. */
  lemma PlainLookup(disk: Disk, at: Location, follow: bool)
    requires ".." !in at && Reachable(disk, at)
    requires at in disk.objects && (follow ==> !disk.objects[at].Symlink?)
    ensures Walk(disk, [], at, follow, MAX_LINKS) == Found(at)
  {
    WalkPlain(disk, at, 0, follow, MAX_LINKS);
    assert at[..0] == [] && at[0..] == at;
  }

  lemma {:induction false} WalkPlainMissing(disk: Disk, at: Location, k: nat, follow: bool, links: nat)
    requires k < |at| && ".." !in at && Reachable(disk, at) && at !in disk.objects
    ensures Walk(disk, at[..k], at[k..], follow, links) == Missing
    decreases |at| - k
  {
    assert at[..k] + [at[k..][0]] == at[..k + 1];
    assert at[k..][1..] == at[k + 1..];
    if k + 1 == |at| { assert at[..k + 1] == at; }
    else { WalkPlainMissing(disk, at, k + 1, follow, links); }
  }

  lemma PlainMissing(disk: Disk, at: Location, follow: bool)
    requires ".." !in at && Reachable(disk, at) && at !in disk.objects && at != []
    ensures Walk(disk, [], at, follow, MAX_LINKS) == Missing
  {
    WalkPlainMissing(disk, at, 0, follow, MAX_LINKS);
    assert at[..0] == [] && at[0..] == at;
  }

  // ----- the place a path names, whether or not something is there

  /** Where a rename onto `path` would put its file: the parent directory, links followed, plus the name. */
  function PlaceOf(disk: Disk, path: Path): Option<Location> {
    if path.parts == [] || BaseName(path) == ".." then None
    else
      var parent := Walk(disk, StartOf(disk, path), ParentOf(path.parts), true, MAX_LINKS);
      if parent.Found? && disk.objects[parent.at] == Directory(true) then Some(parent.at + [BaseName(path)]) else None
  }

  lemma {:induction false} WalkToLeaf(disk: Disk, at: Location, rest: seq<Name>, leaf: Name, links: nat)
    requires leaf != ".."
    requires var w := Walk(disk, at, rest, true, links); w.Found? && disk.objects[w.at] == Directory(true)
    ensures var place := Walk(disk, at, rest, true, links).at + [leaf];
      Walk(disk, at, rest + [leaf], false, links) == if place in disk.objects then Found(place) else Missing
    decreases links, |rest|
  {
    var whole := rest + [leaf];
    if rest == [] {
      assert whole == [leaf] && whole[1..] == [];
    } else {
      assert whole[0] == rest[0] && whole[1..] == rest[1..] + [leaf];
      if rest[0] == ".." {
        WalkToLeaf(disk, ParentOf(at), rest[1..], leaf, links);
      } else {
        var child := at + [rest[0]];
        if disk.objects[child].Symlink? {
          var target := disk.objects[child].target;
          assert target.parts + whole[1..] == (target.parts + rest[1..]) + [leaf];
          WalkToLeaf(disk, if target.absolute then [] else at, target.parts + rest[1..], leaf, links - 1);
        } else {
          WalkToLeaf(disk, child, rest[1..], leaf, links);
        }
      }
    }
  }

  /** A path with a place is looked up at that place. */
  lemma LstatAtPlace(disk: Disk, path: Path)
    requires PlaceOf(disk, path).Some?
    ensures Lstat(disk, path) ==
      if PlaceOf(disk, path).value in disk.objects then Found(PlaceOf(disk, path).value) else Missing
  {
    assert path.parts == ParentOf(path.parts) + [BaseName(path)];
    WalkToLeaf(disk, StartOf(disk, path), ParentOf(path.parts), BaseName(path), MAX_LINKS);
  }

  lemma PlaceKept(before: Disk, after: Disk, path: Path)
    requires KeepsSkeleton(before, after) && PlaceOf(before, path).Some?
    ensures PlaceOf(after, path) == PlaceOf(before, path)
  {
    WalkKeepsSkeleton(before, after, StartOf(before, path), ParentOf(path.parts), true, MAX_LINKS);
  }
}
