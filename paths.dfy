/** The `pathlib` operations the core uses, on absolute POSIX paths. A path is
    the sequence of its components below `/`; the filesystem root is `[]`. */
module Paths {
  import opened Wrappers
  import opened Text

  type Path = seq<string>

  /** Components as `pathlib` keeps them: non-empty, without `/`, never `.`. */
  ghost predicate WellFormedPath(p: Path)
  {
    forall i :: 0 <= i < |p| ==> p[i] != "" && p[i] != "." && '/' !in p[i]
  }

  /** `str(p)`. */
  function PathText(p: Path): string
  {
    "/" + Join(p, "/")
  }

  /** `p` is `root` or lies below it, component by component. */
  predicate IsUnder(p: Path, root: Path)
  {
    |root| <= |p| && p[..|root|] == root
  }

  /** `p.relative_to(root)`; `None` stands for the `ValueError` it raises. */
  function RelativeTo(p: Path, root: Path): (r: Option<Path>)
    ensures r.Some? <==> IsUnder(p, root)
    ensures r.Some? ==> root + r.value == p
  {
    if IsUnder(p, root) then
      assert p == p[..|root|] + p[|root|..];
      Some(p[|root|..])
    else None
  }

  /** `rel.as_posix()` for a relative path. */
  function AsPosix(rel: Path): string
  {
    if rel == [] then "." else Join(rel, "/")
  }

  /** `p.name`. */
  function Name(p: Path): string
  {
    if p == [] then "" else p[|p| - 1]
  }

  /** `p.parent`; the root is its own parent. */
  function Parent(p: Path): (r: Path)
    ensures |p| > 0 ==> |r| == |p| - 1 && IsUnder(p, r)
    ensures |p| == 0 ==> r == p
  {
    if p == [] then p else p[..|p| - 1]
  }

  /** `s.rfind(c)`: the last position of `c`, or -1. */
  function RFind(s: string, c: char): (i: int)
    ensures -1 <= i < |s|
    ensures i >= 0 ==> s[i] == c
    ensures forall j :: i < j < |s| ==> s[j] != c
  {
    if s == [] then -1
    else if s[|s| - 1] == c then |s| - 1
    else RFind(s[..|s| - 1], c)
  }

  /** `PurePath(name).suffix`: from the last dot, provided the dot is neither
      the first nor the last character of the name; otherwise empty. */
  function Suffix(name: string): string
  {
    var i := RFind(name, '.');
    if 0 < i < |name| - 1 then name[i..] else ""
  }

  /** A suffix is a dot followed by a non-empty run without dots. */
  predicate IsExtension(ext: string)
  {
    |ext| >= 2 && ext[0] == '.' && '.' !in ext[1..]
  }

  /** A name has the suffix `ext` exactly when it ends with `ext` and is longer
      than it (so `.py` alone has no suffix). */
  lemma SuffixIs(name: string, ext: string)
    requires IsExtension(ext)
    ensures Suffix(name) == ext <==> EndsWith(name, ext) && |name| > |ext|
  {
    var i := RFind(name, '.');
    if EndsWith(name, ext) && |name| > |ext| {
      var k := |name| - |ext|;
      assert name[k] == ext[0];
      forall j | k < j < |name|
        ensures name[j] != '.'
      {
        assert name[j] == ext[1..][j - k - 1];
      }
      assert i == k;
    }
    if Suffix(name) == ext {
      assert 0 < i < |name| - 1 && name[i..] == ext;
    }
  }

  /** The components of `Path(line)` for a relative or absolute line: empty
      components and `.` are dropped. */
  function LineComponents(line: string): (r: Path)
    ensures forall i :: 0 <= i < |r| ==> r[i] != "" && r[i] != "." && '/' !in r[i]
  {
    Kept(Split(line, '/'))
  }

  function Kept(parts: seq<string>): (r: seq<string>)
    ensures forall i :: 0 <= i < |r| ==> r[i] in parts && r[i] != "" && r[i] != "."
  {
    if parts == [] then []
    else
      var rest := Kept(parts[1..]);
      if parts[0] == "" || parts[0] == "." then rest else [parts[0]] + rest
  }

  /** Well-formed components are all kept. */
  lemma {:induction false} KeptWellFormed(parts: seq<string>)
    requires WellFormedPath(parts)
    ensures Kept(parts) == parts
    decreases |parts|
  {
    if parts != [] {
      KeptWellFormed(parts[1..]);
      assert parts == [parts[0]] + parts[1..];
    }
  }

  /** `root / line`: a relative line is appended below `root`, an absolute one
      replaces it. */
  function JoinLine(root: Path, line: string): Path
  {
    if StartsWith(line, "/") then LineComponents(line) else root + LineComponents(line)
  }

  lemma {:induction false} JoinAppend(a: seq<string>, b: seq<string>, sep: string)
    requires a != [] && b != []
    ensures Join(a + b, sep) == Join(a, sep) + sep + Join(b, sep)
    decreases |a|
  {
    if |a| == 1 {
      assert (a + b)[1..] == b;
    } else {
      JoinAppend(a[1..], b, sep);
      assert (a + b)[1..] == a[1..] + b;
    }
  }

  /** A path below `root` has a text that starts with the text of `root`
      (the converse fails for sibling names such as `/proj` and `/proj2`). */
  lemma UnderHasTextPrefix(p: Path, root: Path)
    requires IsUnder(p, root)
    ensures StartsWith(PathText(p), PathText(root))
  {
    var rest := p[|root|..];
    assert p == root + rest;
    if root != [] && rest != [] {
      JoinAppend(root, rest, "/");
      assert PathText(p) == PathText(root) + "/" + Join(rest, "/");
    } else if rest == [] {
      assert p == root;
    }
  }
}
