/** Dispatch and aggregation (src/dependency_mapper/orchestrator.py). The
    parsers themselves are a parameter here: `parse(kind, path)` is what the
    parser of that kind returns (or that it raised) when run while the import
    search path is `path`. The worker pool is replaced by the order in which the
    per-file results come back. */
module Orchestrator {
  import opened Wrappers
  import opened Paths
  import opened Models
  import Walkers

  datatype ParserKind = PythonParser | TypeScriptParser

  /** `PARSER_MAPPING.get(suffix)`: an exact, case-sensitive lookup. */
  function ParserFor(suffix: string): (r: Option<ParserKind>)
    ensures r == Some(PythonParser) <==> suffix == ".py"
    ensures r == Some(TypeScriptParser) <==> suffix in {".ts", ".tsx", ".js", ".jsx"}
  {
    if suffix == ".py" then Some(PythonParser)
    else if suffix == ".ts" || suffix == ".tsx" || suffix == ".js" || suffix == ".jsx" then Some(TypeScriptParser)
    else None
  }

  /** The extensions with a parser are exactly the ones the walkers look for. */
  lemma MappingCoversSupportedExtensions(suffix: string)
    ensures ParserFor(suffix).Some? <==> suffix in Walkers.SupportedExtensions
  {
  }

  lemma MappingIsCaseSensitive()
    ensures ParserFor(".PY").None? && ParserFor(".Ts").None?
  {
    assert ".PY" != ".py";
    assert ".Ts"[1] != ".ts"[1] && ".Ts"[1] != ".tsx"[1];
  }

  /** What a parse produced: its lists, or an exception that escaped it. */
  datatype ParseOutcome = Parsed(nodes: seq<Node>, edges: seq<Edge>) | Raised

  /** The interpreter's module search list, a global that parsing may read. */
  class SysPath {
    var entries: seq<string>

    constructor (entries: seq<string>)
      ensures this.entries == entries
    {
      this.entries := entries;
    }
  }

  /** The search list while a parser of `kind` runs: for the Python parser the
      root's text is put in front unless it is already listed. */
  function PathDuringParse(entries: seq<string>, kind: ParserKind, root: Path): (r: seq<string>)
    ensures kind == PythonParser ==> PathText(root) in r
    ensures kind == TypeScriptParser || PathText(root) in entries ==> r == entries
    ensures kind == PythonParser && PathText(root) !in entries ==> r == [PathText(root)] + entries
  {
    if kind == PythonParser && PathText(root) !in entries then [PathText(root)] + entries else entries
  }

  /** `_parse_file_worker(file_path, root_path)`: an unknown suffix gives empty
      lists without running any parser; otherwise the parser runs with the
      search list adjusted, and the list is restored whether it returns or raises. */
  method ParseFileWorker(sys: SysPath, file: Path, root: Path, parse: (ParserKind, seq<string>) -> ParseOutcome)
    returns (r: ParseOutcome)
    modifies sys
    ensures sys.entries == old(sys.entries)
    ensures ParserFor(Suffix(Name(file))).None? ==> r == Parsed([], [])
    ensures ParserFor(Suffix(Name(file))).Some? ==>
      r == parse(ParserFor(Suffix(Name(file))).value, PathDuringParse(old(sys.entries), ParserFor(Suffix(Name(file))).value, root))
  {
    var kind := ParserFor(Suffix(Name(file)));
    if kind.None? {
      return Parsed([], []);
    }
    var original := sys.entries;
    if kind.value == PythonParser {
      if PathText(root) !in sys.entries {
        sys.entries := [PathText(root)] + sys.entries;
      }
    }
    r := parse(kind.value, sys.entries);
    sys.entries := original;
  }

  /** The lists one result contributes: none when its worker raised. */
  function NodesOf(x: ParseOutcome): seq<Node>
  {
    if x.Parsed? then x.nodes else []
  }

  function EdgesOf(x: ParseOutcome): seq<Edge>
  {
    if x.Parsed? then x.edges else []
  }

  /** The nodes of the first `k` results, one result after the other. */
  function NodesUpTo(results: seq<ParseOutcome>, k: nat): seq<Node>
    requires k <= |results|
  {
    if k == 0 then [] else NodesUpTo(results, k - 1) + NodesOf(results[k - 1])
  }

  function EdgesUpTo(results: seq<ParseOutcome>, k: nat): seq<Edge>
    requires k <= |results|
  {
    if k == 0 then [] else EdgesUpTo(results, k - 1) + EdgesOf(results[k - 1])
  }

  function AllNodes(results: seq<ParseOutcome>): seq<Node>
  {
    NodesUpTo(results, |results|)
  }

  function AllEdges(results: seq<ParseOutcome>): seq<Edge>
  {
    EdgesUpTo(results, |results|)
  }

  datatype WorkerError = WorkerError

  /** `run_parallel_parsing`: the per-file results, in the order the pool
      hands them back, are appended one after the other; an exception from a
      worker escapes and no lists are returned. */
  method RunParallelParsing(completed: seq<ParseOutcome>) returns (r: Result<(seq<Node>, seq<Edge>), WorkerError>)
    ensures r.Ok? <==> forall x :: x in completed ==> x.Parsed?
    ensures r.Ok? ==> r.value == (AllNodes(completed), AllEdges(completed))
  {
    var allNodes: seq<Node> := [];
    var allEdges: seq<Edge> := [];
    var i := 0;
    while i < |completed|
      invariant 0 <= i <= |completed|
      invariant forall j :: 0 <= j < i ==> completed[j].Parsed?
      invariant allNodes == NodesUpTo(completed, i) && allEdges == EdgesUpTo(completed, i)
    {
      if completed[i].Raised? {
        assert completed[i] in completed;
        return Err(WorkerError);
      }
      allNodes := allNodes + completed[i].nodes;
      allEdges := allEdges + completed[i].edges;
      i := i + 1;
    }
    return Ok((allNodes, allEdges));
  }

  /** The first `k` results of `a + b`, for `k` within `a`, are those of `a`. */
  lemma {:induction false} UpToPrefix(a: seq<ParseOutcome>, b: seq<ParseOutcome>, k: nat)
    requires k <= |a|
    ensures NodesUpTo(a + b, k) == NodesUpTo(a, k) && EdgesUpTo(a + b, k) == EdgesUpTo(a, k)
  {
    if k > 0 {
      UpToPrefix(a, b, k - 1);
      assert (a + b)[k - 1] == a[k - 1];
    }
  }

  /** Past `a`, the results of `a + b` contribute what `b`'s do. */
  lemma {:induction false} NodesPastPrefix(a: seq<ParseOutcome>, b: seq<ParseOutcome>, k: nat)
    requires k <= |b|
    ensures NodesUpTo(a + b, |a| + k) == AllNodes(a) + NodesUpTo(b, k)
  {
    if k == 0 {
      UpToPrefix(a, b, |a|);
    } else {
      NodesPastPrefix(a, b, k - 1);
      var x := b[k - 1];
      assert (a + b)[|a| + k - 1] == x;
      var front, middle := AllNodes(a), NodesUpTo(b, k - 1);
      assert NodesUpTo(a + b, |a| + k) == (front + middle) + NodesOf(x);
      assert (front + middle) + NodesOf(x) == front + (middle + NodesOf(x));
    }
  }

  lemma {:induction false} EdgesPastPrefix(a: seq<ParseOutcome>, b: seq<ParseOutcome>, k: nat)
    requires k <= |b|
    ensures EdgesUpTo(a + b, |a| + k) == AllEdges(a) + EdgesUpTo(b, k)
  {
    if k == 0 {
      UpToPrefix(a, b, |a|);
    } else {
      EdgesPastPrefix(a, b, k - 1);
      var x := b[k - 1];
      assert (a + b)[|a| + k - 1] == x;
      var front, middle := AllEdges(a), EdgesUpTo(b, k - 1);
      assert EdgesUpTo(a + b, |a| + k) == (front + middle) + EdgesOf(x);
      assert (front + middle) + EdgesOf(x) == front + (middle + EdgesOf(x));
    }
  }

  /** Aggregating two completion orders one after the other. */
  lemma NodesAppend(a: seq<ParseOutcome>, b: seq<ParseOutcome>)
    ensures AllNodes(a + b) == AllNodes(a) + AllNodes(b)
  {
    NodesPastPrefix(a, b, |b|);
  }

  lemma EdgesAppend(a: seq<ParseOutcome>, b: seq<ParseOutcome>)
    ensures AllEdges(a + b) == AllEdges(a) + AllEdges(b)
  {
    EdgesPastPrefix(a, b, |b|);
  }

  lemma Single(x: ParseOutcome)
    ensures AllNodes([x]) == NodesOf(x) && AllEdges([x]) == EdgesOf(x)
  {
    assert NodesUpTo([x], 1) == [] + NodesOf(x);
    assert EdgesUpTo([x], 1) == [] + EdgesOf(x);
  }

  /** Taking one result out of the middle of a completion order. */
  lemma WithoutNodes(u: seq<ParseOutcome>, x: ParseOutcome, v: seq<ParseOutcome>)
    ensures multiset(AllNodes(u + [x] + v)) == multiset(NodesOf(x)) + multiset(AllNodes(u + v))
  {
    NodesAppend(u, [x]);
    NodesAppend(u + [x], v);
    NodesAppend(u, v);
    Single(x);
  }

  lemma WithoutEdges(u: seq<ParseOutcome>, x: ParseOutcome, v: seq<ParseOutcome>)
    ensures multiset(AllEdges(u + [x] + v)) == multiset(EdgesOf(x)) + multiset(AllEdges(u + v))
  {
    EdgesAppend(u, [x]);
    EdgesAppend(u + [x], v);
    EdgesAppend(u, v);
    Single(x);
  }

  lemma RemoveOne(init: seq<ParseOutcome>, last: ParseOutcome, u: seq<ParseOutcome>, v: seq<ParseOutcome>)
    requires multiset(init + [last]) == multiset(u + [last] + v)
    ensures multiset(init) == multiset(u + v)
  {
    assert multiset(init) == multiset(init + [last]) - multiset{last};
    assert multiset(u + v) == multiset(u + [last] + v) - multiset{last};
  }

  /** Putting the same result back at the end of one order and in the middle
      of the other keeps the aggregates equal as multisets. */
  lemma ReinsertNodes(init: seq<ParseOutcome>, last: ParseOutcome, u: seq<ParseOutcome>, v: seq<ParseOutcome>)
    requires multiset(AllNodes(init)) == multiset(AllNodes(u + v))
    ensures multiset(AllNodes(init + [last])) == multiset(AllNodes(u + [last] + v))
  {
    WithoutNodes(u, last, v);
    NodesAppend(init, [last]);
    Single(last);
  }

  lemma ReinsertEdges(init: seq<ParseOutcome>, last: ParseOutcome, u: seq<ParseOutcome>, v: seq<ParseOutcome>)
    requires multiset(AllEdges(init)) == multiset(AllEdges(u + v))
    ensures multiset(AllEdges(init + [last])) == multiset(AllEdges(u + [last] + v))
  {
    WithoutEdges(u, last, v);
    EdgesAppend(init, [last]);
    Single(last);
  }

  /** However the pool orders the per-file results, the aggregated node and
      edge lists hold the same elements the same number of times. */
  lemma {:induction false} CompletionOrderIrrelevant(a: seq<ParseOutcome>, b: seq<ParseOutcome>)
    requires multiset(a) == multiset(b)
    ensures multiset(AllNodes(a)) == multiset(AllNodes(b))
    ensures multiset(AllEdges(a)) == multiset(AllEdges(b))
    decreases |a|
  {
    if a != [] {
      var last := a[|a| - 1];
      var init := a[..|a| - 1];
      assert a == init + [last];
      assert last in multiset(b);
      var k :| 0 <= k < |b| && b[k] == last;
      var u, v := b[..k], b[k + 1..];
      assert b == u + [last] + v;
      RemoveOne(init, last, u, v);
      CompletionOrderIrrelevant(init, u + v);
      ReinsertNodes(init, last, u, v);
      ReinsertEdges(init, last, u, v);
    }
  }
}
