/** The Python side of the TypeScript parser
    (src/dependency_mapper/parsers/typescript_parser.py): the search for the
    tsconfig that governs a file, and the decoding of the external parser's
    JSON output. Whether a path is an existing file, and what the external
    `node` process prints for a given tsconfig, are parameters. */
module TypeScriptParser {
  import opened Wrappers
  import opened JsonValue
  import opened Models
  import opened Paths

  const TsconfigNames: seq<string> := ["tsconfig.app.json", "tsconfig.node.json", "tsconfig.json"]

  /** The first configuration file of `dir`, in priority order. */
  function FirstConfigIn(dir: Path, isFile: Path -> bool): (r: Option<Path>)
    ensures r.None? <==> forall i :: 0 <= i < |TsconfigNames| ==> !isFile(dir + [TsconfigNames[i]])
    ensures r.Some? ==>
      exists i :: (0 <= i < |TsconfigNames| && r.value == dir + [TsconfigNames[i]] && isFile(r.value) &&
                   forall j :: 0 <= j < i ==> !isFile(dir + [TsconfigNames[j]]))
  {
    if isFile(dir + [TsconfigNames[0]]) then Some(dir + [TsconfigNames[0]])
    else if isFile(dir + [TsconfigNames[1]]) then Some(dir + [TsconfigNames[1]])
    else if isFile(dir + [TsconfigNames[2]]) then Some(dir + [TsconfigNames[2]])
    else None
  }

  /** The configuration of the nearest directory, from `dir` upwards, that has
      one; the filesystem root itself is not searched. */
  function NearestConfig(dir: Path, isFile: Path -> bool): (r: Option<Path>)
    ensures r.Some? ==> isFile(r.value) && |r.value| >= 2 && Name(r.value) in TsconfigNames
    ensures r.Some? ==> IsUnder(dir, Parent(r.value))
    decreases |dir|
  {
    if dir == [] then None
    else
      var here := FirstConfigIn(dir, isFile);
      if here.Some? then
        assert Parent(here.value) == dir;
        here
      else
        var up := NearestConfig(Parent(dir), isFile);
        if up.Some? then
          assert dir[..|Parent(up.value)|] == Parent(dir)[..|Parent(up.value)|];
          up
        else
          up
  }

  /** `_find_tsconfig(start_path)`. */
  method FindTsconfig(startPath: Path, isFile: Path -> bool) returns (r: Option<Path>)
    ensures r == NearestConfig(Parent(startPath), isFile)
  {
    var current := Parent(startPath);
    while current != Parent(current)
      invariant NearestConfig(current, isFile) == NearestConfig(Parent(startPath), isFile)
      decreases |current|
    {
      var i := 0;
      while i < |TsconfigNames|
        invariant 0 <= i <= |TsconfigNames|
        invariant forall j :: 0 <= j < i ==> !isFile(current + [TsconfigNames[j]])
      {
        var candidate := current + [TsconfigNames[i]];
        if isFile(candidate) {
          assert FirstConfigIn(current, isFile) == Some(candidate);
          return Some(candidate);
        }
        i := i + 1;
      }
      current := Parent(current);
    }
    return None;
  }

  /** No configuration is found exactly when no directory from `dir` up to,
      but excluding, the root has one. */
  lemma {:induction false} NoConfigAnywhere(dir: Path, isFile: Path -> bool)
    ensures NearestConfig(dir, isFile).None? <==>
      forall k :: 0 < k <= |dir| ==> FirstConfigIn(dir[..k], isFile).None?
    decreases |dir|
  {
    if dir != [] {
      var up := Parent(dir);
      NoConfigAnywhere(up, isFile);
      assert dir[..|dir|] == dir;
      assert forall k :: 0 <= k <= |up| ==> up[..k] == dir[..k];
    }
  }

  /** The depth of the directory whose configuration `NearestConfig` finds;
      0 when there is none. */
  function ConfigDepth(dir: Path, isFile: Path -> bool): (k: nat)
    ensures k <= |dir|
    decreases |dir|
  {
    if dir == [] then 0
    else if FirstConfigIn(dir, isFile).Some? then |dir|
    else ConfigDepth(Parent(dir), isFile)
  }

  /** A configuration that is found belongs to the deepest ancestor that has
      one, and is the first of that directory in priority order. */
  lemma {:induction false} ConfigIsNearest(dir: Path, isFile: Path -> bool)
    requires NearestConfig(dir, isFile).Some?
    ensures 0 < ConfigDepth(dir, isFile)
    ensures NearestConfig(dir, isFile) == FirstConfigIn(dir[..ConfigDepth(dir, isFile)], isFile)
    ensures forall m :: ConfigDepth(dir, isFile) < m <= |dir| ==> FirstConfigIn(dir[..m], isFile).None?
    decreases |dir|
  {
    assert dir[..|dir|] == dir;
    if FirstConfigIn(dir, isFile).None? {
      var up := Parent(dir);
      ConfigIsNearest(up, isFile);
      assert forall m :: 0 <= m <= |up| ==> up[..m] == dir[..m];
    }
  }

  /** Files directly in the filesystem root never influence the search. */
  lemma {:induction false} RootNeverExamined(dir: Path, f: Path -> bool, g: Path -> bool)
    requires forall p :: |p| >= 2 ==> f(p) == g(p)
    ensures NearestConfig(dir, f) == NearestConfig(dir, g)
    decreases |dir|
  {
    if dir != [] {
      assert forall i :: 0 <= i < |TsconfigNames| ==> |dir + [TsconfigNames[i]]| >= 2;
      assert FirstConfigIn(dir, f) == FirstConfigIn(dir, g);
      RootNeverExamined(Parent(dir), f, g);
    }
  }

  /* ---- Decoding the external parser's output ---- */

  /** What running the external parser gave: a failed process (a non-zero
      exit, or `node` missing), or its output, `None` when it is not JSON. */
  datatype ProcessOutcome = ProcessFailed | Finished(output: Option<Json>)

  /** `[T(**d) for d in items]` for a validating constructor `decode`,
      failing as a whole if one item fails. */
  function DecodeAll<T>(items: seq<Json>, decode: Json -> Option<T>): (r: Option<seq<T>>)
    ensures r.Some? <==> forall i :: 0 <= i < |items| ==> decode(items[i]).Some?
    ensures r.Some? ==> |r.value| == |items|
    ensures r.Some? ==> forall i :: 0 <= i < |items| ==> Some(r.value[i]) == decode(items[i])
  {
    if items == [] then Some([])
    else
      var first := decode(items[0]);
      var rest := DecodeAll(items[1..], decode);
      if first.None? || rest.None? then
        assert rest.None? ==> exists i :: 1 <= i < |items| && decode(items[i]).None? by {
          if rest.None? {
            var i :| 0 <= i < |items[1..]| && decode(items[1..][i]).None?;
            assert items[1..][i] == items[i + 1];
          }
        }
        None
      else Some([first.value] + rest.value)
  }

  /** `[Node(**d) for d in items]`. */
  function DecodeNodes(items: seq<Json>): (r: Option<seq<Node>>)
    ensures r.Some? <==> forall i :: 0 <= i < |items| ==> NodeFromJson(items[i]).Some?
    ensures r.Some? ==> |r.value| == |items|
    ensures r.Some? ==> forall i :: 0 <= i < |items| ==> Some(r.value[i]) == NodeFromJson(items[i])
  {
    DecodeAll(items, NodeFromJson)
  }

  /** `[Edge(**d) for d in items]`. */
  function DecodeEdges(items: seq<Json>): (r: Option<seq<Edge>>)
    ensures r.Some? <==> forall i :: 0 <= i < |items| ==> EdgeFromJson(items[i]).Some?
    ensures r.Some? ==> |r.value| == |items|
    ensures r.Some? ==> forall i :: 0 <= i < |items| ==> Some(r.value[i]) == EdgeFromJson(items[i])
  {
    DecodeAll(items, EdgeFromJson)
  }

  /** Iterating a JSON value for `Node(**d)`/`Edge(**d)`: an array gives its
      items; an empty string or object gives nothing; a non-empty string or
      object gives items that are not mappings, and any other value is not
      iterable, so both fail. */
  function Iterable(v: Json): Option<seq<Json>>
  {
    match v
    case JArr(items) => Some(items)
    case JStr(s) => if s == "" then Some([]) else None
    case JObj(f) => if f == map[] then Some([]) else None
    case _ => None
  }

  /** A JSON value that Python can hash (arrays and objects cannot). */
  predicate Hashable(v: Json)
  {
    !v.JArr? && !v.JObj?
  }

  /** `set(v)` restricted to the strings in it (only strings can equal an id). */
  function IdSet(v: Json): (r: Option<set<string>>)
    ensures v.JArr? ==> (r.Some? <==> forall i :: 0 <= i < |v.items| ==> Hashable(v.items[i]))
    ensures v.JArr? && r.Some? ==> r.value == set i | 0 <= i < |v.items| && v.items[i].JStr? :: v.items[i].s
  {
    match v
    case JArr(items) =>
      if forall i :: 0 <= i < |items| ==> Hashable(items[i])
      then Some(set i | 0 <= i < |items| && items[i].JStr? :: items[i].s)
      else None
    case JStr(s) => Some(set i | 0 <= i < |s| :: [s[i]])
    case JObj(f) => Some(f.Keys)
    case _ => None
  }

  /** The decoded `nodes`, `edges` and `dynamicScopeIds` of the output, each
      missing key read as an empty list; `None` when anything fails. */
  function DecodeOutput(j: Json): Option<(seq<Node>, seq<Edge>, set<string>)>
  {
    if !j.JObj? then None
    else
      var f := j.fields;
      var nodeItems := Iterable(FieldOr(f, "nodes", JArr([])));
      var edgeItems := Iterable(FieldOr(f, "edges", JArr([])));
      var ids := IdSet(FieldOr(f, "dynamicScopeIds", JArr([])));
      if nodeItems.None? || edgeItems.None? || ids.None? then None
      else
        var nodes := DecodeNodes(nodeItems.value);
        var edges := DecodeEdges(edgeItems.value);
        if nodes.None? || edges.None? then None
        else Some((nodes.value, edges.value, ids.value))
  }

  /** The decoded result of a process outcome; a failure of any kind is `None`. */
  function Decoded(outcome: ProcessOutcome): Option<(seq<Node>, seq<Edge>, set<string>)>
  {
    if outcome.ProcessFailed? || outcome.output.None? then None else DecodeOutput(outcome.output.value)
  }

  /** `TypeScriptParser.parse(file_path, root_path)`: empty lists when no
      tsconfig is found (the parser is then never run) or when running or
      decoding fails; otherwise the decoded lists with the dynamic-code flags
      applied. */
  method Parse(filePath: Path, isFile: Path -> bool, runParser: Path -> ProcessOutcome)
    returns (nodes: seq<Node>, edges: seq<Edge>)
    ensures NearestConfig(Parent(filePath), isFile).None? ==> nodes == [] && edges == []
    ensures NearestConfig(Parent(filePath), isFile).Some? ==>
      var d := Decoded(runParser(NearestConfig(Parent(filePath), isFile).value));
      && (d.None? ==> nodes == [] && edges == [])
      && (d.Some? ==> edges == d.value.1 && FlagsApplied(d.value.0, nodes, d.value.2))
  {
    var tsconfig := FindTsconfig(filePath, isFile);
    if tsconfig.None? {
      return [], [];
    }
    var d := Decoded(runParser(tsconfig.value));
    if d.None? {
      return [], [];
    }
    var (decodedNodes, decodedEdges, ids) := d.value;
    nodes, edges := decodedNodes, decodedEdges;
    if ids != {} {
      nodes := MarkDynamicScopes(nodes, ids);
    } else {
      assert FlagsApplied(decodedNodes, nodes, ids);
    }
  }

  /** An output object without any of the three keys decodes to empty lists. */
  lemma MissingKeysAreEmpty()
    ensures DecodeOutput(JObj(map[])) == Some(([], [], {}))
  {
    var none: seq<Json> := [];
    assert (set i | 0 <= i < |none| && none[i].JStr? :: none[i].s) == {};
  }

  /** Output that is not a JSON object makes the parse fail. */
  lemma NonObjectOutputFails(j: Json)
    requires !j.JObj?
    ensures DecodeOutput(j).None?
  {
  }

  /** Dumped nodes and edges decode to themselves. */
  lemma DumpsDecode(ns: seq<Node>, es: seq<Edge>)
    ensures DecodeNodes(seq(|ns|, i requires 0 <= i < |ns| => JObj(NodeFields(ns[i])))) == Some(ns)
    ensures DecodeEdges(seq(|es|, i requires 0 <= i < |es| => JObj(EdgeFields(es[i])))) == Some(es)
  {
    var nj := seq(|ns|, i requires 0 <= i < |ns| => JObj(NodeFields(ns[i])));
    forall i | 0 <= i < |ns|
      ensures NodeFromJson(nj[i]) == Some(ns[i])
    {
      NodeJsonRoundTrip(ns[i]);
    }
    assert DecodeNodes(nj).Some?;
    assert DecodeNodes(nj).value == ns;
    var ej := seq(|es|, i requires 0 <= i < |es| => JObj(EdgeFields(es[i])));
    forall i | 0 <= i < |es|
      ensures EdgeFromJson(ej[i]) == Some(es[i])
    {
      EdgeJsonRoundTrip(es[i]);
    }
    assert DecodeEdges(ej).Some?;
    assert DecodeEdges(ej).value == es;
  }

  /** An output listing one node and its id as dynamic decodes to that node
      and that id. */
  lemma ListedIdDecodes(n: Node)
    ensures var out := JObj(map["nodes" := JArr([JObj(NodeFields(n))]), "dynamicScopeIds" := JArr([JStr(n.id)])]);
      DecodeOutput(out) == Some(([n], [], {n.id}))
  {
    NodeJsonRoundTrip(n);
    var items := [JStr(n.id)];
    assert Hashable(items[0]);
    assert (set i | 0 <= i < |items| && items[i].JStr? :: items[i].s) == {n.id} by {
      assert items[0].s == n.id;
    }
    var f := map["nodes" := JArr([JObj(NodeFields(n))]), "dynamicScopeIds" := JArr(items)];
    assert "edges"[0] != "nodes"[0] && |"edges"| != |"dynamicScopeIds"|;
    assert "edges" !in f;
    assert Iterable(FieldOr(f, "nodes", JArr([]))) == Some([JObj(NodeFields(n))]);
    var d := DecodeNodes([JObj(NodeFields(n))]);
    assert d.Some? && |d.value| == 1 && Some(d.value[0]) == NodeFromJson(JObj(NodeFields(n)));
    assert d.value == [n];
    assert IdSet(FieldOr(f, "dynamicScopeIds", JArr([]))) == Some({n.id});
  }
}
