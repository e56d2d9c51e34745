/** Where the supervisor's operation records lie: the join of a state directory, its operations folder and
    an operation id, with the dots of the id taken as a file system takes them. */
module RecordPaths {
  import opened Prelude
  import opened Text

  /** An absolute path in normal form, by its segments. */
  type Path = seq<string>

  /** One segment further: an empty one and a dot stay, two dots go up, and the root has no parent. */
  function Into(base: Path, segment: string): Path {
    if segment == "" || segment == "." then base
    else if segment == ".." then (if base == [] then [] else base[..|base| - 1])
    else base + [segment]
  }

  function Walk(base: Path, segments: seq<string>): Path
    decreases |segments|
  {
    if segments == [] then base else Walk(Into(base, segments[0]), segments[1..])
  }

  function Folder(dir: Path): Path {
    dir + ["operations"]
  }

  /** The path of the record that is read or written for an id. */
  function RecordPath(dir: Path, id: string): Path {
    Walk(Folder(dir), Split(id + ".json"))
  }

  /** The path names a file directly in the operations folder of the directory. */
  predicate InFolder(dir: Path, p: Path) {
    |p| == |dir| + 2 && p[..|dir| + 1] == Folder(dir)
  }

  /** A file lies in the operations folder of one directory only. */
  lemma FoldersAreDisjoint(dir: Path, dir': Path, p: Path)
    requires InFolder(dir, p)
    ensures InFolder(dir', p) <==> dir' == dir
  {
    assert p[..|dir| + 1][..|dir|] == Folder(dir)[..|dir|] == dir;
    if InFolder(dir', p) {
      assert p[..|dir'| + 1][..|dir'|] == Folder(dir')[..|dir'|] == dir';
    }
  }

  /** The record of an id without slashes, whatever else it holds, is its own file in the folder. */
  lemma PlainIdStaysInFolder(dir: Path, id: string)
    requires SlashFree(id)
    ensures RecordPath(dir, id) == Folder(dir) + [id + ".json"] && InFolder(dir, RecordPath(dir, id))
  {
    var name := id + ".json";
    assert SlashFree(name) by {
      assert forall c :: c in name ==> c in id || c in ".json";
    }
    SplitOfSegment(name);
    assert |name| >= 5 && name != "" && name != "." && name != "..";
    assert [name][1..] == [];
    assert Walk(Folder(dir), [name]) == Walk(Folder(dir) + [name], []);
  }

  /** An id whose path never goes up leads somewhere below the folder. */
  lemma {:induction false} DescendingStaysBelow(base: Path, segments: seq<string>)
    requires ".." !in segments
    ensures base <= Walk(base, segments)
    decreases |segments|
  {
    if segments != [] {
      assert forall s :: s in segments[1..] ==> s in segments;
      DescendingStaysBelow(Into(base, segments[0]), segments[1..]);
    }
  }

  lemma {:induction false} JoinExtendsLast(segments: seq<string>, x: string, y: string)
    ensures Join(segments + [x]) + y == Join(segments + [x + y])
  {
    if segments != [] {
      JoinExtendsLast(segments[1..], x, y);
      assert (segments + [x])[1..] == segments[1..] + [x];
      assert (segments + [x + y])[1..] == segments[1..] + [x + y];
    }
  }

  /** The id that climbs from one directory's folder to a record in the folder of another beside it. */
  function SiblingId(sibling: string, state: string, name: string): string {
    Join(["..", "..", "..", sibling, state, "operations"] + [name])
  }

  predicate IsName(segment: string) {
    segment !in {"", ".", ".."} && SlashFree(segment)
  }

  lemma SiblingIdLeavesFolder(parent: Path, own: string, sibling: string, state: string, name: string)
    requires IsName(sibling) && IsName(state) && SlashFree(name)
    ensures RecordPath(parent + [own, state], SiblingId(sibling, state, name)) ==
              Folder(parent + [sibling, state]) + [name + ".json"]
  {
    var file := name + ".json";
    var segments := ["..", "..", "..", sibling, state, "operations", file];
    JoinExtendsLast(["..", "..", "..", sibling, state, "operations"], name, ".json");
    assert ["..", "..", "..", sibling, state, "operations"] + [file] == segments;
    assert SlashFree("..") && SlashFree("operations");
    assert SlashFree(file) by {
      assert forall c :: c in file ==> c in name || c in ".json";
    }
    SplitInvertsJoin(segments);
    WalkToSibling(parent, own, sibling, state, file);
  }

  lemma WalkStep(base: Path, segment: string, rest: seq<string>)
    ensures Walk(base, [segment] + rest) == Walk(Into(base, segment), rest)
  {
    assert ([segment] + rest)[1..] == rest;
  }

  lemma WalkUp(base: Path, last: string, rest: seq<string>)
    ensures Walk(base + [last], [".."] + rest) == Walk(base, rest)
  {
    assert (base + [last])[..|base|] == base;
    WalkStep(base + [last], "..", rest);
  }

  lemma {:induction false} WalkDown(base: Path, names: seq<string>)
    requires forall name :: name in names ==> IsName(name)
    ensures Walk(base, names) == base + names
    decreases |names|
  {
    if names != [] {
      assert names[0] in names && forall name :: name in names[1..] ==> name in names;
      WalkDown(base + [names[0]], names[1..]);
      assert names == [names[0]] + names[1..];
    } else {
      assert base + names == base;
    }
  }

  lemma ClimbAndDescend(parent: Path, own: string, state: string, down: seq<string>)
    requires forall name :: name in down ==> IsName(name)
    ensures Walk(((parent + [own]) + [state]) + ["operations"], [".."] + ([".."] + ([".."] + down))) == parent + down
  {
    WalkUp((parent + [own]) + [state], "operations", [".."] + ([".."] + down));
    WalkUp(parent + [own], state, [".."] + down);
    WalkUp(parent, own, down);
    WalkDown(parent, down);
  }

  lemma WalkToSibling(parent: Path, own: string, sibling: string, state: string, file: string)
    requires IsName(sibling) && IsName(state) && IsName(file)
    ensures Walk(Folder(parent + [own, state]), ["..", "..", "..", sibling, state, "operations", file]) ==
              Folder(parent + [sibling, state]) + [file]
  {
    var down := [sibling, state, "operations", file];
    assert IsName("operations");
    ClimbAndDescend(parent, own, state, down);
    assert Folder(parent + [own, state]) == ((parent + [own]) + [state]) + ["operations"];
    assert ["..", "..", "..", sibling, state, "operations", file] == [".."] + ([".."] + ([".."] + down));
    assert parent + down == Folder(parent + [sibling, state]) + [file];
  }
}
