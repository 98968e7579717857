/** The slice of `pathlib` the library uses, with POSIX semantics: a path
    is an absolute flag and a sequence of name segments. The filesystem is
    an explicit input: the sets of existing files and directories and, for
    each directory, its entry names in whatever order `iterdir` yields. */
module Paths {
  import opened Text

  datatype Path = Path(absolute: bool, parts: seq<string>)

  /** A segment as `pathlib` stores it: non-empty, not ".", no "/". */
  predicate IsPart(s: string) {
    s != "" && s != "." && '/' !in s
  }

  predicate WellFormedPath(p: Path) {
    forall i :: 0 <= i < |p.parts| ==> IsPart(p.parts[i])
  }

  /** Drops the empty and "." segments a path string may contain. */
  function CleanParts(parts: seq<string>): (r: seq<string>)
    ensures |r| <= |parts|
    ensures forall i :: 0 <= i < |r| ==> r[i] in parts && r[i] != "" && r[i] != "."
  {
    if parts == [] then []
    else if parts[0] == "" || parts[0] == "." then CleanParts(parts[1..])
    else [parts[0]] + CleanParts(parts[1..])
  }

  /** `Path(s)`. */
  function Parse(s: string): (r: Path)
    ensures WellFormedPath(r)
    ensures r.absolute <==> (s != [] && s[0] == '/')
  {
    var pieces := Split(s, "/");
    assert forall i :: 0 <= i < |pieces| ==> '/' !in pieces[i] by {
      SplitPiecesFree(s, '/');
    }
    Path(s != [] && s[0] == '/', CleanParts(pieces))
  }

  lemma {:induction false} SplitPiecesFree(s: string, c: char)
    ensures forall i :: 0 <= i < |Split(s, [c])| ==> c !in Split(s, [c])[i]
    decreases |s|
  {
    var i := Find(s, [c]);
    if i == -1 {
      forall j | 0 <= j < |s| ensures s[j] != c {
        assert !OccursAt(s, [c], j);
      }
    } else {
      SplitPiecesFree(s[i + 1..], c);
      forall j | 0 <= j < i ensures s[j] != c {
        assert !OccursAt(s, [c], j);
      }
    }
  }

  /** `Path("")` is the current directory, `Path(".")`. */
  lemma ParseEmpty()
    ensures Parse("") == Path(false, [])
  {
    assert Find("", "/") == -1;
    assert Split("", "/") == [""];
  }

  /** `str(p)`. */
  function Render(p: Path): string {
    if p.absolute then "/" + Join(p.parts, "/")
    else if p.parts == [] then "."
    else Join(p.parts, "/")
  }

  lemma {:induction false} CleanKeeps(parts: seq<string>)
    requires forall i :: 0 <= i < |parts| ==> parts[i] != "" && parts[i] != "."
    ensures CleanParts(parts) == parts
    decreases |parts|
  {
    if parts != [] {
      CleanKeeps(parts[1..]);
    }
  }

  /** Printing a path and parsing it back gives the same path. */
  lemma RenderParse(p: Path)
    requires WellFormedPath(p)
    ensures Parse(Render(p)) == p
  {
    var s := Render(p);
    if p.parts == [] {
      if p.absolute {
        assert s == "/" && Find(s, "/") == 0;
        assert Split(s, "/") == ["", ""];
      } else {
        assert Find(s, "/") == -1 by {
          assert !OccursAt(s, "/", 0);
        }
      }
    } else {
      SplitJoin(p.parts, '/');
      CleanKeeps(p.parts);
      if p.absolute {
        assert s == [] + ['/'] + Join(p.parts, "/");
        SplitCons([], Join(p.parts, "/"), '/');
        assert CleanParts([""] + p.parts) == CleanParts(p.parts);
      }
    }
  }

  /** `p / q`: an absolute right operand replaces the left one. */
  function JoinPath(p: Path, q: Path): (r: Path)
    ensures WellFormedPath(p) && WellFormedPath(q) ==> WellFormedPath(r)
  {
    if q.absolute then q else Path(p.absolute, p.parts + q.parts)
  }

  /** `p / s` for a string operand. */
  function Div(p: Path, s: string): (r: Path)
    ensures WellFormedPath(p) ==> WellFormedPath(r)
  {
    JoinPath(p, Parse(s))
  }

  /** Joining a plain name appends exactly that segment. */
  lemma DivName(p: Path, name: string)
    requires IsPart(name)
    ensures Div(p, name) == Path(p.absolute, p.parts + [name]) == Child(p, name)
  {
    SplitSingle(name, '/');
  }

  /** `p / name` for a name that is one segment, such as ".env". */
  function Child(p: Path, name: string): Path {
    Path(p.absolute, p.parts + [name])
  }

  /** `d / name` for each directory `d`. */
  function EachChild(dirs: seq<Path>, name: string): (r: seq<Path>)
    ensures |r| == |dirs|
    ensures forall i :: 0 <= i < |dirs| ==> r[i] == Child(dirs[i], name)
  {
    if dirs == [] then [] else [Child(dirs[0], name)] + EachChild(dirs[1..], name)
  }

  /** `p.name`. */
  function Name(p: Path): string {
    if p.parts == [] then "" else p.parts[|p.parts| - 1]
  }

  /** Index of the last "." in `s`, or -1. */
  function LastDot(s: string): (r: int)
    ensures -1 <= r < |s|
    ensures r >= 0 ==> s[r] == '.' && '.' !in s[r + 1..]
    ensures r == -1 ==> '.' !in s
  {
    if s == [] then -1
    else if s[|s| - 1] == '.' then |s| - 1
    else
      var r := LastDot(s[..|s| - 1]);
      assert s == s[..|s| - 1] + [s[|s| - 1]];
      r
  }

  /** `PurePath.suffix` of a name: from its last dot on, provided that dot
      is neither the first nor the last character; otherwise "". */
  function Suffix(name: string): (r: string)
    ensures r == "" || (r[0] == '.' && EndsWith(name, r) && |r| < |name| && '.' !in r[1..])
  {
    var i := LastDot(name);
    if 0 < i < |name| - 1 then name[i..] else ""
  }

  /** A stem followed by "." and a dot-free extension has that extension
      as its suffix; a leading-dot name such as ".env" has none. */
  lemma SuffixOf(stem: string, ext: string)
    requires stem != "" && ext != "" && '.' !in ext
    ensures Suffix(stem + "." + ext) == "." + ext
    ensures '.' !in stem ==> Suffix("." + stem) == ""
  {
    var name := stem + "." + ext;
    assert name[|stem|] == '.' && name[|stem| + 1..] == ext;
    assert LastDot(name) == |stem| by {
      LastDotAfter(stem + ".", ext);
    }
    assert name[|stem|..] == "." + ext;
    if '.' !in stem {
      assert LastDot("." + stem) == 0 by {
        LastDotAfter(".", stem);
      }
    }
  }

  lemma {:induction false} LastDotAfter(s: string, t: string)
    requires s != [] && s[|s| - 1] == '.' && '.' !in t
    ensures LastDot(s + t) == |s| - 1
    decreases |t|
  {
    if t == [] {
      assert s + t == s;
    } else {
      assert (s + t)[..|s + t| - 1] == s + t[..|t| - 1];
      LastDotAfter(s, t[..|t| - 1]);
    }
  }

  /** `p.parent`. */
  function Parent(p: Path): Path {
    if p.parts == [] then p else Path(p.absolute, p.parts[..|p.parts| - 1])
  }

  /** `[p, *p.parents]`: the path itself, then each ancestor up to the
      root (or up to "." for a relative path). */
  function SelfAndParents(p: Path): (r: seq<Path>)
    ensures |r| == |p.parts| + 1
    ensures forall i :: 0 <= i < |r| ==> r[i] == Path(p.absolute, p.parts[..|p.parts| - i])
    decreases |p.parts|
  {
    if p.parts == [] then [p]
    else
      assert p.parts[..|p.parts| - 0] == p.parts;
      var rest := SelfAndParents(Parent(p));
      [p] + rest
  }

  /** The ancestors are pairwise distinct, each one segment shorter than
      the one before. */
  lemma SelfAndParentsDistinct(p: Path)
    ensures forall i, j :: 0 <= i < j < |SelfAndParents(p)| ==> SelfAndParents(p)[i] != SelfAndParents(p)[j]
  {
    forall i, j | 0 <= i < j < |SelfAndParents(p)| ensures SelfAndParents(p)[i] != SelfAndParents(p)[j] {
      assert |SelfAndParents(p)[i].parts| != |SelfAndParents(p)[j].parts|;
    }
  }

  /** The filesystem as seen at one moment. `listing[d]` holds the entry
      names of directory `d` in `iterdir` order. */
  datatype FileSystem = FileSystem(files: set<Path>, dirs: set<Path>, listing: map<Path, seq<string>>)

  predicate IsFile(fs: FileSystem, p: Path) {
    p in fs.files
  }

  predicate IsDir(fs: FileSystem, p: Path) {
    p in fs.dirs
  }

  /** `p.exists()`. */
  predicate Exists(fs: FileSystem, p: Path) {
    p in fs.files || p in fs.dirs
  }

  /** The entry names of `d`, or none when it is not listed. */
  function Entries(fs: FileSystem, d: Path): seq<string> {
    if d in fs.listing then fs.listing[d] else []
  }
}
