/** File discovery (src/dependency_mapper/walkers.py). Directory listings and
    the output of `git ls-files` are inputs: `entries` is what `rglob` walks
    below the root, in the order it walks them, and the git output is the
    command's standard output, or `None` when the command fails or git is
    missing. */
module Walkers {
  import opened Wrappers
  import opened Text
  import opened Paths
  import opened Fnmatch

  const DefaultIgnorePatterns: seq<string> :=
    [".*", "__pycache__", "build", "dist", "*.egg-info", "venv", ".venv", "node_modules"]

  const SupportedExtensions: set<string> := {".py", ".js", ".ts", ".jsx", ".tsx"}

  /** `pattern` matches the whole relative path, the file's name, or one
      component of the relative path. */
  predicate PatternHits(pattern: string, rel: Path, name: string)
  {
    || Match(AsPosix(rel), pattern)
    || Match(name, pattern)
    || exists i :: 0 <= i < |rel| && Match(rel[i], pattern)
  }

  /** Some pattern hits the path. */
  predicate Ignored(patterns: seq<string>, rel: Path, name: string)
    ensures patterns == [] ==> !Ignored(patterns, rel, name)
  {
    exists k :: 0 <= k < |patterns| && PatternHits(patterns[k], rel, name)
  }

  /** Only the set of patterns matters: neither their order nor repeats change
      what is ignored. */
  lemma IgnoredBySet(ps: seq<string>, qs: seq<string>, rel: Path, name: string)
    requires forall p :: p in ps <==> p in qs
    ensures Ignored(ps, rel, name) == Ignored(qs, rel, name)
  {
    if Ignored(ps, rel, name) {
      var k :| 0 <= k < |ps| && PatternHits(ps[k], rel, name);
      assert ps[k] in qs;
      var j :| 0 <= j < |qs| && qs[j] == ps[k];
      assert PatternHits(qs[j], rel, name);
    }
    if Ignored(qs, rel, name) {
      var k :| 0 <= k < |qs| && PatternHits(qs[k], rel, name);
      assert qs[k] in ps;
      var j :| 0 <= j < |ps| && ps[j] == qs[k];
      assert PatternHits(ps[j], rel, name);
    }
  }

  /** `extensionOrder` is one order in which the extension set may be iterated. */
  ghost predicate IsExtensionOrder(extensionOrder: seq<string>)
  {
    && (forall x :: x in extensionOrder <==> x in SupportedExtensions)
    && (forall i, j :: 0 <= i < j < |extensionOrder| ==> extensionOrder[i] != extensionOrder[j])
  }

  datatype FileSystemWalker = FileSystemWalker(rootPath: Path, ignorePatterns: seq<string>)
  {
    /** `_is_ignored(path)`: some pattern hits the path relative to the root,
        its name, or a component. */
    method IsIgnored(path: Path) returns (b: bool)
      requires IsUnder(path, rootPath)
      ensures b == Ignored(ignorePatterns, RelativeTo(path, rootPath).value, Name(path))
    {
      var rel := RelativeTo(path, rootPath).value;
      var k := 0;
      while k < |ignorePatterns|
        invariant 0 <= k <= |ignorePatterns|
        invariant forall q :: 0 <= q < k ==> !PatternHits(ignorePatterns[q], rel, Name(path))
      {
        var pattern := ignorePatterns[k];
        if Match(AsPosix(rel), pattern) || Match(Name(path), pattern) {
          return true;
        }
        var i := 0;
        while i < |rel|
          invariant 0 <= i <= |rel|
          invariant forall j :: 0 <= j < i ==> !Match(rel[j], pattern)
        {
          if Match(rel[i], pattern) {
            return true;
          }
          i := i + 1;
        }
        k := k + 1;
      }
      return false;
    }

    /** An entry that `rglob("*" + ext)` yields and the walker keeps. */
    predicate Keeps(e: Path, ext: string)
      requires IsUnder(e, rootPath)
    {
      Match(Name(e), "*" + ext) && !Ignored(ignorePatterns, RelativeTo(e, rootPath).value, Name(e))
    }

    /** The kept entries for one extension, in walk order. */
    function KeptFor(entries: seq<Path>, ext: string): seq<Path>
      requires forall i :: 0 <= i < |entries| ==> IsUnder(entries[i], rootPath)
    {
      if entries == [] then []
      else
        var e := entries[|entries| - 1];
        KeptFor(entries[..|entries| - 1], ext) + (if Keeps(e, ext) then [e] else [])
    }

    /** What `walk` yields: one `rglob` pass per extension, in the set's iteration order. */
    function Walked(extensionOrder: seq<string>, entries: seq<Path>): seq<Path>
      requires forall i :: 0 <= i < |entries| ==> IsUnder(entries[i], rootPath)
    {
      if extensionOrder == [] then []
      else
        Walked(extensionOrder[..|extensionOrder| - 1], entries)
          + KeptFor(entries, extensionOrder[|extensionOrder| - 1])
    }

    /** One `rglob("*" + ext)` pass: the matching entries that are not ignored. */
    method WalkFor(ext: string, entries: seq<Path>) returns (r: seq<Path>)
      requires forall i :: 0 <= i < |entries| ==> IsUnder(entries[i], rootPath)
      ensures r == KeptFor(entries, ext)
    {
      r := [];
      var i := 0;
      while i < |entries|
        invariant 0 <= i <= |entries|
        invariant r == KeptFor(entries[..i], ext)
      {
        var e := entries[i];
        assert entries[..i + 1][..i] == entries[..i];
        if Match(Name(e), "*" + ext) {
          var ignored := IsIgnored(e);
          if !ignored {
            r := r + [e];
          }
        }
        i := i + 1;
      }
      assert entries[..i] == entries;
    }

    /** `walk()`. */
    method Walk(extensionOrder: seq<string>, entries: seq<Path>) returns (r: seq<Path>)
      requires IsExtensionOrder(extensionOrder)
      requires forall i :: 0 <= i < |entries| ==> IsUnder(entries[i], rootPath)
      ensures r == Walked(extensionOrder, entries)
    {
      r := [];
      var k := 0;
      while k < |extensionOrder|
        invariant 0 <= k <= |extensionOrder|
        invariant r == Walked(extensionOrder[..k], entries)
      {
        var kept := WalkFor(extensionOrder[k], entries);
        assert extensionOrder[..k + 1][..k] == extensionOrder[..k];
        r := r + kept;
        k := k + 1;
      }
      assert extensionOrder[..k] == extensionOrder;
    }
  }

  /** `FileSystemWalker(root_path, ignore_patterns)`: an absent or empty list
      falls back to the defaults, so a walker never runs without patterns. */
  function NewFileSystemWalker(rootPath: Path, ignorePatterns: Option<seq<string>>): (w: FileSystemWalker)
    ensures w.rootPath == rootPath && w.ignorePatterns != []
    ensures ignorePatterns.Some? && ignorePatterns.value != [] ==> w.ignorePatterns == ignorePatterns.value
    ensures ignorePatterns.None? || ignorePatterns.value == [] ==> w.ignorePatterns == DefaultIgnorePatterns
  {
    if ignorePatterns.Some? && ignorePatterns.value != [] then FileSystemWalker(rootPath, ignorePatterns.value)
    else FileSystemWalker(rootPath, DefaultIgnorePatterns)
  }

  /** A git output line that the git walker keeps: non-empty, with a
      supported suffix on its last component. */
  predicate GitKeeps(line: string)
  {
    line != "" && Suffix(Name(LineComponents(line))) in SupportedExtensions
  }

  /** `root_path / line` for each kept line, in output order. */
  function GitPaths(rootPath: Path, lines: seq<string>): seq<Path>
  {
    if lines == [] then []
    else
      var line := lines[|lines| - 1];
      GitPaths(rootPath, lines[..|lines| - 1]) + (if GitKeeps(line) then [JoinLine(rootPath, line)] else [])
  }

  datatype GitFileWalker = GitFileWalker(rootPath: Path)
  {
    /** `walk()`: the lines of the stripped git output, filtered by suffix and
        joined below the root, with no ignore pattern applied; when git fails,
        exactly what a default filesystem walker yields. */
    method Walk(gitStdout: Option<string>, extensionOrder: seq<string>, entries: seq<Path>) returns (r: seq<Path>)
      requires IsExtensionOrder(extensionOrder)
      requires forall i :: 0 <= i < |entries| ==> IsUnder(entries[i], rootPath)
      ensures gitStdout.Some? ==> r == GitPaths(rootPath, Split(Strip(gitStdout.value), '\n'))
      ensures gitStdout.None? ==> r == NewFileSystemWalker(rootPath, None).Walked(extensionOrder, entries)
    {
      if gitStdout.None? {
        r := NewFileSystemWalker(rootPath, None).Walk(extensionOrder, entries);
        return;
      }
      var lines := Split(Strip(gitStdout.value), '\n');
      r := [];
      var i := 0;
      while i < |lines|
        invariant 0 <= i <= |lines|
        invariant r == GitPaths(rootPath, lines[..i])
      {
        var line := lines[i];
        assert lines[..i + 1][..i] == lines[..i];
        if line != "" && Suffix(Name(LineComponents(line))) in SupportedExtensions {
          r := r + [JoinLine(rootPath, line)];
        }
        i := i + 1;
      }
      assert lines[..i] == lines;
    }
  }

  datatype FileWalker = Git(git: GitFileWalker) | FileSystem(fs: FileSystemWalker)

  /** `get_file_walker(root_path)`, given whether `root_path / ".git"` is a directory. */
  function GetFileWalker(rootPath: Path, gitIsDir: bool): (w: FileWalker)
    ensures w.Git? <==> gitIsDir
    ensures w.Git? ==> w.git.rootPath == rootPath
    ensures w.FileSystem? ==> w.fs.rootPath == rootPath && w.fs.ignorePatterns == DefaultIgnorePatterns
  {
    if gitIsDir then Git(GitFileWalker(rootPath)) else FileSystem(NewFileSystemWalker(rootPath, None))
  }

  /* ---- Properties of the filesystem walk ---- */

  lemma {:induction false} KeptForMember(w: FileSystemWalker, entries: seq<Path>, ext: string, p: Path)
    requires forall i :: 0 <= i < |entries| ==> IsUnder(entries[i], w.rootPath)
    ensures p in w.KeptFor(entries, ext) <==> p in entries && w.Keeps(p, ext)
    decreases |entries|
  {
    if entries != [] {
      var init := entries[..|entries| - 1];
      KeptForMember(w, init, ext, p);
      assert entries == init + [entries[|entries| - 1]];
    }
  }

  lemma {:induction false} WalkedMember(w: FileSystemWalker, order: seq<string>, entries: seq<Path>, p: Path)
    requires forall i :: 0 <= i < |entries| ==> IsUnder(entries[i], w.rootPath)
    ensures p in w.Walked(order, entries) <==> exists k :: 0 <= k < |order| && p in w.KeptFor(entries, order[k])
    decreases |order|
  {
    if order != [] {
      var init := order[..|order| - 1];
      WalkedMember(w, init, entries, p);
      if exists k :: 0 <= k < |order| && p in w.KeptFor(entries, order[k]) {
        var k :| 0 <= k < |order| && p in w.KeptFor(entries, order[k]);
        if k < |init| {
          assert init[k] == order[k];
        }
      }
      if exists k :: 0 <= k < |init| && p in w.KeptFor(entries, init[k]) {
        var k :| 0 <= k < |init| && p in w.KeptFor(entries, init[k]);
        assert order[k] == init[k];
      }
    }
  }

  lemma SupportedAreLiteral(ext: string)
    requires ext in SupportedExtensions
    ensures Literal(ext) && IsExtension(ext)
  {
  }

  /** The filesystem walker yields exactly the walked entries that are not
      ignored and whose name ends with a supported extension. */
  lemma WalkMember(w: FileSystemWalker, order: seq<string>, entries: seq<Path>, p: Path)
    requires IsExtensionOrder(order)
    requires forall i :: 0 <= i < |entries| ==> IsUnder(entries[i], w.rootPath)
    ensures p in w.Walked(order, entries) <==>
      && p in entries
      && !Ignored(w.ignorePatterns, RelativeTo(p, w.rootPath).value, Name(p))
      && exists ext :: ext in SupportedExtensions && EndsWith(Name(p), ext)
  {
    WalkedMember(w, order, entries, p);
    if p in w.Walked(order, entries) {
      var k :| 0 <= k < |order| && p in w.KeptFor(entries, order[k]);
      KeptForMember(w, entries, order[k], p);
      SupportedAreLiteral(order[k]);
      SuffixPattern(Name(p), order[k]);
    }
    if p in entries && !Ignored(w.ignorePatterns, RelativeTo(p, w.rootPath).value, Name(p))
       && exists ext :: ext in SupportedExtensions && EndsWith(Name(p), ext) {
      var ext :| ext in SupportedExtensions && EndsWith(Name(p), ext);
      var k :| 0 <= k < |order| && order[k] == ext;
      SupportedAreLiteral(ext);
      SuffixPattern(Name(p), ext);
      KeptForMember(w, entries, ext, p);
    }
  }

  /* ---- Properties of the git walk ---- */

  lemma {:induction false} GitPathsAppend(rootPath: Path, a: seq<string>, b: seq<string>)
    ensures GitPaths(rootPath, a + b) == GitPaths(rootPath, a) + GitPaths(rootPath, b)
    decreases |b|
  {
    if b != [] {
      var init := b[..|b| - 1];
      GitPathsAppend(rootPath, a, init);
      assert (a + b)[..|a + b| - 1] == a + init;
      assert (a + b)[|a + b| - 1] == b[|b| - 1];
    } else {
      assert a + b == a;
    }
  }

  /** Each line is kept or dropped on its own, so the output keeps the order
      of the lines. */
  lemma GitPathsPerLine(rootPath: Path, a: seq<string>, line: string, b: seq<string>)
    ensures GitPaths(rootPath, a + [line] + b) ==
      GitPaths(rootPath, a) + (if GitKeeps(line) then [JoinLine(rootPath, line)] else []) + GitPaths(rootPath, b)
  {
    GitPathsAppend(rootPath, a + [line], b);
    GitPathsAppend(rootPath, a, [line]);
    assert [line][..0] == [];
    assert GitPaths(rootPath, [line]) == (if GitKeeps(line) then [JoinLine(rootPath, line)] else []);
  }

  /** A line yields a path exactly when it is non-empty and its last component
      is longer than, and ends with, a supported extension. */
  lemma GitKeepsIff(line: string)
    ensures GitKeeps(line) <==>
      line != "" &&
      (exists ext :: ext in SupportedExtensions &&
         EndsWith(Name(LineComponents(line)), ext) && |Name(LineComponents(line))| > |ext|)
  {
    var name := Name(LineComponents(line));
    if GitKeeps(line) {
      var ext := Suffix(name);
      SupportedAreLiteral(ext);
      SuffixIs(name, ext);
    }
    if line != "" && exists ext :: ext in SupportedExtensions && EndsWith(name, ext) && |name| > |ext| {
      var ext :| ext in SupportedExtensions && EndsWith(name, ext) && |name| > |ext|;
      SupportedAreLiteral(ext);
      SuffixIs(name, ext);
    }
  }

  /** The text of a relative path does not start with a separator. */
  lemma RelativeLine(rel: Path)
    requires rel != [] && WellFormedPath(rel)
    ensures LineComponents(Join(rel, "/")) == rel
    ensures !StartsWith(Join(rel, "/"), "/")
  {
    SplitJoin(rel, '/');
    KeptWellFormed(rel);
    JoinStartsWithFirst(rel);
    assert Join(rel, "/")[0] == rel[0][0];
    assert rel[0][0] != '/' by {
      assert rel[0][0] in rel[0];
    }
  }

  /** No ignore pattern applies to tracked files: a tracked relative path with
      a supported suffix is yielded below the root whatever its components
      (`build`, `.venv` and `node_modules` included). */
  lemma GitYieldsTrackedPath(rootPath: Path, rel: Path)
    requires rel != [] && WellFormedPath(rel) && Suffix(Name(rel)) in SupportedExtensions
    ensures GitPaths(rootPath, [Join(rel, "/")]) == [rootPath + rel]
  {
    var lines := [Join(rel, "/")];
    RelativeLine(rel);
    assert Join(rel, "/") != "" by {
      JoinStartsWithFirst(rel);
    }
    assert GitKeeps(lines[0]);
    assert lines[..0] == [];
  }

  /* ---- The default patterns ---- */

  /** A component the default patterns reject. */
  predicate DefaultRejects(c: string)
  {
    || StartsWith(c, ".")
    || c in {"__pycache__", "build", "dist", "venv", "node_modules"}
    || EndsWith(c, ".egg-info")
  }

  /** A component hit by some default pattern. */
  predicate DefaultHit(c: string)
  {
    exists k :: 0 <= k < |DefaultIgnorePatterns| && Match(c, DefaultIgnorePatterns[k])
  }

  lemma DefaultHitCases(c: string)
    ensures DefaultHit(c) <==>
      Match(c, ".*") || Match(c, "__pycache__") || Match(c, "build") || Match(c, "dist") ||
      Match(c, "*.egg-info") || Match(c, "venv") || Match(c, ".venv") || Match(c, "node_modules")
  {
    var d := DefaultIgnorePatterns;
    assert d[0] == ".*" && d[1] == "__pycache__" && d[2] == "build" && d[3] == "dist";
    assert d[4] == "*.egg-info" && d[5] == "venv" && d[6] == ".venv" && d[7] == "node_modules";
  }

  lemma WildDefaults(c: string)
    ensures Match(c, ".*") <==> StartsWith(c, ".")
    ensures Match(c, "*.egg-info") <==> EndsWith(c, ".egg-info")
  {
    assert ".*" == "." + "*";
    PrefixPattern(c, ".");
    assert "*.egg-info" == "*" + ".egg-info";
    SuffixPattern(c, ".egg-info");
  }

  lemma LiteralDefaults(c: string)
    ensures Match(c, "__pycache__") <==> c == "__pycache__"
    ensures Match(c, "build") <==> c == "build"
    ensures Match(c, "dist") <==> c == "dist"
    ensures Match(c, "venv") <==> c == "venv"
    ensures Match(c, ".venv") <==> c == ".venv"
    ensures Match(c, "node_modules") <==> c == "node_modules"
  {
    LiteralMatch(c, "__pycache__");
    LiteralMatch(c, "build");
    LiteralMatch(c, "dist");
    LiteralMatch(c, "venv");
    LiteralMatch(c, ".venv");
    LiteralMatch(c, "node_modules");
  }

  lemma DefaultPatternOnComponent(c: string)
    ensures DefaultRejects(c) <==> DefaultHit(c)
  {
    DefaultHitCases(c);
    WildDefaults(c);
    LiteralDefaults(c);
    if c == ".venv" {
      assert c[..1] == ".";
    }
  }

  lemma JoinStartsWithFirst(rel: Path)
    requires rel != []
    ensures StartsWith(Join(rel, "/"), rel[0])
  {
    if |rel| > 1 {
      assert Join(rel, "/") == rel[0] + ("/" + Join(rel[1..], "/"));
    }
  }

  lemma JoinHasSeparator(rel: Path)
    requires |rel| >= 2
    ensures '/' in Join(rel, "/")
  {
    assert Join(rel, "/")[|rel[0]|] == '/';
  }

  /** A suffix free of the separator that ends `head/last` ends `last`. */
  lemma EndsWithPastSeparator(head: string, c: char, last: string, lit: string)
    requires c !in lit && EndsWith(head + [c] + last, lit)
    ensures EndsWith(last, lit)
  {
    var j := head + [c] + last;
    assert j[|head|] == c;
    if |lit| > |last| {
      assert false;
    }
    assert j[|j| - |lit|..] == last[|last| - |lit|..];
  }

  lemma JoinEndsWithin(rel: Path, lit: string)
    requires |rel| >= 1 && '/' !in lit
    requires EndsWith(Join(rel, "/"), lit)
    ensures EndsWith(rel[|rel| - 1], lit)
  {
    if |rel| >= 2 {
      var init := rel[..|rel| - 1];
      var last := rel[|rel| - 1];
      assert rel == init + [last];
      JoinAppend(init, [last], "/");
      assert Join(rel, "/") == Join(init, "/") + ['/'] + last;
      EndsWithPastSeparator(Join(init, "/"), '/', last, lit);
    }
  }

  /** On a relative path of well-formed components, the whole-path and name
      checks of a default pattern add nothing to the per-component check. */
  lemma SingleComponent(rel: Path)
    requires rel != [] && '/' !in Join(rel, "/")
    ensures |rel| == 1 && Join(rel, "/") == rel[0]
  {
    if |rel| >= 2 {
      JoinHasSeparator(rel);
    }
  }

  /** The literal default patterns hold no separator. */
  lemma LiteralDefaultsHaveNoSeparator(j: string)
    requires '/' in j
    ensures !Match(j, "__pycache__") && !Match(j, "build") && !Match(j, "dist")
    ensures !Match(j, "venv") && !Match(j, ".venv") && !Match(j, "node_modules")
  {
    LiteralDefaults(j);
  }

  lemma DefaultWholePathHit(rel: Path)
    requires rel != [] && WellFormedPath(rel)
    requires DefaultHit(AsPosix(rel))
    ensures DefaultRejects(rel[0]) || DefaultRejects(rel[|rel| - 1])
  {
    var j := Join(rel, "/");
    if '/' in j {
      DefaultHitCases(j);
      LiteralDefaultsHaveNoSeparator(j);
      WildDefaults(j);
      if StartsWith(j, ".") {
        JoinStartsWithFirst(rel);
        assert rel[0] != "";
        assert j[0] == rel[0][0];
        assert rel[0][..1] == ".";
      } else {
        JoinEndsWithin(rel, ".egg-info");
      }
    } else {
      SingleComponent(rel);
      DefaultPatternOnComponent(rel[0]);
    }
  }

  /** With the default patterns, a path is ignored exactly when one of its
      components starts with a dot, is one of the listed names, or ends in
      `.egg-info`. */
  lemma DefaultIgnoredIff(rel: Path)
    requires rel != [] && WellFormedPath(rel)
    ensures Ignored(DefaultIgnorePatterns, rel, rel[|rel| - 1]) <==>
      exists i :: 0 <= i < |rel| && DefaultRejects(rel[i])
  {
    var name := rel[|rel| - 1];
    if Ignored(DefaultIgnorePatterns, rel, name) {
      var k :| 0 <= k < |DefaultIgnorePatterns| && PatternHits(DefaultIgnorePatterns[k], rel, name);
      var pattern := DefaultIgnorePatterns[k];
      if Match(AsPosix(rel), pattern) {
        assert DefaultHit(AsPosix(rel));
        DefaultWholePathHit(rel);
      } else if Match(name, pattern) {
        DefaultPatternOnComponent(name);
      } else {
        var i :| 0 <= i < |rel| && Match(rel[i], pattern);
        DefaultPatternOnComponent(rel[i]);
      }
    }
    if exists i :: 0 <= i < |rel| && DefaultRejects(rel[i]) {
      var i :| 0 <= i < |rel| && DefaultRejects(rel[i]);
      DefaultPatternOnComponent(rel[i]);
      var k :| 0 <= k < |DefaultIgnorePatterns| && Match(rel[i], DefaultIgnorePatterns[k]);
      assert PatternHits(DefaultIgnorePatterns[k], rel, name);
    }
  }
}
