/**
  The `pathlib` operations the pipeline uses, on POSIX paths seen as their
  sequence of components, as `PurePath.parts` gives them: an absolute path
  begins with the anchor "/" as a component of its own.
 */
module Paths {
  import opened Wrappers
  import opened Strings

  datatype Path = Path(parts: seq<string>)

  /**
    The components of `p` below `root` hold no separator, as every component
    `pathlib` appends to a directory does. The components of `root` itself,
    such as the anchor "/", are not constrained.
   */
  predicate ValidBelow(p: Path, root: Path)
  {
    forall k :: |root.parts| <= k < |p.parts| ==> '/' !in p.parts[k]
  }

  /** `p` lies below `root` and is not `root` itself. */
  predicate StrictlyUnder(p: Path, root: Path)
  {
    |root.parts| < |p.parts| && p.parts[..|root.parts|] == root.parts
  }

  /** `PurePath.name`: the final component, or "" when there is none. */
  function Name(p: Path): (r: string)
    ensures |p.parts| == 0 ==> r == ""
    ensures |p.parts| >= 1 ==> p.parts == p.parts[..|p.parts| - 1] + [r]
  {
    if |p.parts| == 0 then "" else p.parts[|p.parts| - 1]
  }

  /** `str.rfind(c)`: the position of the last `c` in `s`, or -1. */
  function LastIndexOf(s: string, c: char): (i: int)
    ensures -1 <= i < |s|
    ensures 0 <= i ==> s[i] == c
    ensures forall k :: i < k < |s| ==> s[k] != c
  {
    if |s| == 0 then -1
    else if s[|s| - 1] == c then |s| - 1
    else LastIndexOf(s[..|s| - 1], c)
  }

  /**
    `PurePath.suffix`: from the last dot of the name on, provided the dot is
    neither the first nor the last character of the name.
   */
  function Suffix(p: Path): (r: string)
    ensures r == "" || (|r| < |Name(p)| && r == Name(p)[|Name(p)| - |r|..])
    ensures r != "" ==> 2 <= |r| && r[0] == '.' && '.' !in r[1..]
  {
    var name := Name(p);
    var i := LastIndexOf(name, '.');
    if 0 < i < |name| - 1 then name[i..] else ""
  }

  /** The test `file_path.suffix == ".py"` that selects files for minification. */
  predicate IsPythonSource(p: Path)
    ensures IsPythonSource(p) ==> 3 < |Name(p)| && Name(p)[|Name(p)| - 3..] == ".py"
  {
    Suffix(p) == ".py"
  }

  /**
    A path is minified exactly when its name is longer than three characters
    and ends in ".py"; so a file named ".py" alone is passed through.
   */
  lemma PythonSourceByName(p: Path)
    ensures IsPythonSource(p) <==>
      |Name(p)| > 3 && Name(p)[|Name(p)| - 3..] == ".py"
  {
    var name := Name(p);
    var i := LastIndexOf(name, '.');
    if |name| > 3 && name[|name| - 3..] == ".py" {
      assert name[|name| - 3] == '.' && name[|name| - 2] == 'p' && name[|name| - 1] == 'y';
      assert i == |name| - 3;
    }
    if IsPythonSource(p) {
      assert |name[i..]| == 3;
    }
  }

  /** `p.relative_to(root)`: `None` where Python raises `ValueError`. */
  function RelativeTo(p: Path, root: Path): (r: Option<Path>)
    ensures r.Some? <==> |root.parts| <= |p.parts| && p.parts[..|root.parts|] == root.parts
    ensures r.Some? ==> root.parts + r.value.parts == p.parts
  {
    if |root.parts| <= |p.parts| && p.parts[..|root.parts|] == root.parts
    then Some(Path(p.parts[|root.parts|..]))
    else None
  }

  /** `PurePath.as_posix()` of a relative path: "." for the empty path. */
  function AsPosix(p: Path): (r: string)
    ensures |p.parts| == 0 ==> r == "."
    ensures |p.parts| >= 1 && (forall k :: 0 <= k < |p.parts| ==> '/' !in p.parts[k]) ==>
      Split(r, '/') == p.parts
  {
    if |p.parts| == 0 then "."
    else
      assert (forall k :: 0 <= k < |p.parts| ==> '/' !in p.parts[k]) ==>
             Split(Join(p.parts, '/'), '/') == p.parts by {
        if forall k :: 0 <= k < |p.parts| ==> '/' !in p.parts[k] {
          SplitJoin(p.parts, '/');
        }
      }
      Join(p.parts, '/')
  }

  /** `p.relative_to(root).as_posix()`, the label of a file in the prompt. */
  function RelName(root: Path, p: Path): (r: Option<string>)
    ensures r.Some? <==> |root.parts| <= |p.parts| && p.parts[..|root.parts|] == root.parts
    ensures r.Some? && StrictlyUnder(p, root) && ValidBelow(p, root) ==>
      Split(r.value, '/') == p.parts[|root.parts|..]
  {
    match RelativeTo(p, root)
    case None => None
    case Some(rel) =>
      assert forall k :: 0 <= k < |rel.parts| ==> rel.parts[k] == p.parts[|root.parts| + k];
      Some(AsPosix(rel))
  }

  /** Every path strictly below the root has a label. */
  lemma RelNameUnder(root: Path, p: Path)
    requires StrictlyUnder(p, root)
    ensures RelName(root, p).Some?
  {
  }

  /** The labels of two distinct paths strictly below the same root differ. */
  lemma RelNameInjective(root: Path, p: Path, q: Path)
    requires ValidBelow(p, root) && ValidBelow(q, root)
    requires StrictlyUnder(p, root) && StrictlyUnder(q, root)
    ensures RelName(root, p) == RelName(root, q) ==> p == q
  {
    if RelName(root, p) == RelName(root, q) {
      assert RelName(root, p).value == Join(p.parts[|root.parts|..], '/');
      assert RelName(root, q).value == Join(q.parts[|root.parts|..], '/');
      JoinInjective(p.parts[|root.parts|..], q.parts[|root.parts|..], '/');
      assert p.parts == root.parts + p.parts[|root.parts|..];
      assert q.parts == root.parts + q.parts[|root.parts|..];
    }
  }
}
