/** The Python parser (src/dependency_mapper/parsers/python_parser.py): node
    ids, the internal-symbol test, the scope-stack visitor that turns an
    astroid tree into nodes and edges, and the dynamic-code flag pass.
    astroid itself (parsing, `infer()`, `lookup()`, `import_module()`,
    `qname()`) is not modelled: what it answers is part of the tree given to
    the visitor. An inference that raises `InferenceError` part-way is given
    as the values it yielded before raising, since the visitor swallows the
    error at the end of that loop. */
module PythonParser {
  import opened Wrappers
  import opened Text
  import opened Models
  import opened Paths

  const DynamicFunctionNames: set<string> := {"eval", "exec", "getattr", "importlib.import_module"}

  /* ---- What astroid answers, as data ---- */

  /** The node classes the visitor tells apart among inferred values. */
  datatype SymbolKind = ModuleSymbol | AssignNameSymbol | AssignAttrSymbol | ConstSymbol | OtherSymbol

  /** One value yielded by `infer()`: `Uninferable`, or a node with its class,
      its `qname()` (None when it has none), its `as_string()`, and the `name`
      and `file` of its root module (None when absent; an empty `file` is
      absent too). */
  datatype Inferred =
    | Uninferable
    | Symbol(kind: SymbolKind, qname: Option<string>, text: string, rootName: Option<string>, rootFile: Option<Path>)

  /** `fromlineno` and `tolineno`. */
  datatype Span = Span(fromLine: Option<int>, toLine: Option<int>)

  /** An assignment target: one with a `name` attribute, or one without
      (tuple unpacking, attribute or subscript targets). */
  datatype Target =
    | Named(name: string, qname: Option<string>, text: string, span: Span)
    | Unnamed

  /** `node.root().import_module(...)`: raised an import error, or gave a
      module whose `file` may be absent. */
  datatype ImportOutcome = ImportFailed | Imported(file: Option<Path>)

  /** The astroid tree. `children` is what `get_children()` yields; the other
      fields are what the visitor reads or infers. */
  datatype Ast =
    | Module(name: string, span: Span, children: seq<Ast>)
    | ClassDef(name: string, qname: Option<string>, text: string, span: Span,
               bases: seq<seq<Inferred>>, children: seq<Ast>)
    | FunctionDef(name: string, qname: Option<string>, text: string, span: Span,
                  decorators: seq<seq<Inferred>>, annotations: seq<Option<Ast>>, returnAnnotation: Option<Ast>,
                  children: seq<Ast>)
    | Call(func: seq<Inferred>, children: seq<Ast>)
    | Import(names: seq<ImportOutcome>)
    | ImportFrom(outcome: ImportOutcome)
    | Assign(targets: seq<Target>, children: seq<Ast>)
    | AnnAssign(target: Target, annotation: Ast, children: seq<Ast>)
    | Attribute(inferred: seq<Inferred>, children: seq<Ast>)
    | Name(lookup: Option<SymbolKind>, inferred: seq<Inferred>)  // lookup: class of the first assignment found
    | Subscript(value: Ast, slice: Ast)
    | Tuple(elts: seq<Ast>)
    | BinOp(op: string, left: Ast, right: Ast)
    | Other(children: seq<Ast>)

  /** `node.get_children()`. */
  function Children(n: Ast): (r: seq<Ast>)
    ensures forall c :: c in r ==> c < n
  {
    match n
    case Import(_) => []
    case ImportFrom(_) => []
    case Name(_, _) => []
    case Subscript(value, slice) => [value, slice]
    case Tuple(elts) => elts
    case BinOp(_, left, right) => [left, right]
    case _ => n.children
  }

  /* ---- Node ids ---- */

  function QualifiedOrText(qname: Option<string>, text: string): string
  {
    if qname.Some? then qname.value else text
  }

  /** `_get_node_id`: a module is named by its root-relative path `rel`,
      anything else by `rel__qname`, or `rel__source` when it has no qname. */
  function NodeId(rel: string, isModule: bool, qname: Option<string>, text: string): (r: string)
    ensures StartsWith(r, rel)
    ensures isModule <==> r == rel
    ensures !isModule ==> r[|rel|..] == "__" + QualifiedOrText(qname, text)
  {
    if isModule then rel
    else
      var id := rel + "__" + QualifiedOrText(qname, text);
      assert id[..|rel|] == rel && id[|rel|..] == "__" + QualifiedOrText(qname, text);
      id
  }

  /** The id of the file `file` (`relative_to(root).as_posix()`). */
  function FileId(file: Path, root: Path): (r: string)
    requires IsUnder(file, root)
    ensures file == root ==> r == "."
    ensures file != root ==> PathText(file) == (if root == [] then "/" else PathText(root) + "/") + r
  {
    var rest := RelativeTo(file, root).value;
    if rest != [] && root != [] then
      JoinAppend(root, rest, "/");
      AsPosix(rest)
    else
      AsPosix(rest)
  }

  lemma NodeIdStartsWithPath(rel: string, isModule: bool, qname: Option<string>, text: string)
    ensures StartsWith(NodeId(rel, isModule, qname, text), rel)
  {
    if !isModule {
      assert (rel + "__" + QualifiedOrText(qname, text))[..|rel|] == rel;
    }
  }

  /** Within one file, entity ids never clash with the module id, and two
      entities share an id exactly when their qualified names (or source
      texts) agree. */
  lemma EntityIdsOfOneFile(rel: string, q1: Option<string>, t1: string, q2: Option<string>, t2: string)
    ensures NodeId(rel, false, q1, t1) != NodeId(rel, true, q2, t2)
    ensures NodeId(rel, false, q1, t1) == NodeId(rel, false, q2, t2) <==> QualifiedOrText(q1, t1) == QualifiedOrText(q2, t2)
  {
    var a, b := QualifiedOrText(q1, t1), QualifiedOrText(q2, t2);
    assert |NodeId(rel, false, q1, t1)| > |rel|;
    if rel + "__" + a == rel + "__" + b {
      assert a == (rel + "__" + a)[|rel| + 2..];
      assert b == (rel + "__" + b)[|rel| + 2..];
    }
  }

  /* ---- The internal-symbol test ---- */

  /** The built-in filters of `_is_internal_project_symbol`. */
  predicate NotBuiltin(x: Inferred)
  {
    && x.Symbol?
    && !(x.qname.Some? && StartsWith(x.qname.value, "builtins."))
    && x.rootName.Some? && x.rootName.value != "builtins"
  }

  /** `_is_internal_project_symbol` as written: the file counts as inside the
      project when its path text starts with the root's path text. */
  predicate IsInternalAsWritten(x: Inferred, root: Path)
    ensures IsInternalAsWritten(x, root) ==> x.Symbol? && x.rootFile.Some?
    ensures x.Symbol? && x.qname.Some? && StartsWith(x.qname.value, "builtins.") ==> !IsInternalAsWritten(x, root)
    ensures x.Symbol? && x.rootName == Some("builtins") ==> !IsInternalAsWritten(x, root)
  {
    NotBuiltin(x) && x.rootFile.Some? && StartsWith(PathText(x.rootFile.value), PathText(root))
  }

  /** `_get_node_id(inferred, Path(inferred.root().file), root_path)` after the
      test as written; `None` stands for the `ValueError` of `relative_to`,
      which no handler of the visitor catches. */
  function TargetIdAsWritten(x: Inferred, root: Path): (r: Option<string>)
    requires IsInternalAsWritten(x, root)
    ensures r.None? <==> RelativeTo(x.rootFile.value, root).None?
    ensures r.Some? ==> StartsWith(r.value, FileId(x.rootFile.value, root))
  {
    if IsUnder(x.rootFile.value, root)
    then Some(NodeId(FileId(x.rootFile.value, root), x.kind == ModuleSymbol, x.qname, x.text))
    else None
  }

  /** The internal-symbol test the visitor relies on: the file lies below the
      root, component by component. */
  predicate IsInternal(x: Inferred, root: Path)
    ensures IsInternal(x, root) ==> IsInternalAsWritten(x, root) && RelativeTo(x.rootFile.value, root).Some?
  {
    if NotBuiltin(x) && x.rootFile.Some? && IsUnder(x.rootFile.value, root) then
      UnderHasTextPrefix(x.rootFile.value, root);
      true
    else
      false
  }

  /** `_get_node_id` for an internal symbol: a module is named by its file id,
      anything else by an id that starts with it. */
  function TargetId(x: Inferred, root: Path): (r: string)
    requires IsInternal(x, root)
    ensures StartsWith(r, FileId(x.rootFile.value, root))
    ensures x.kind == ModuleSymbol <==> r == FileId(x.rootFile.value, root)
  {
    NodeId(FileId(x.rootFile.value, root), x.kind == ModuleSymbol, x.qname, x.text)
  }

  /** The component test accepts exactly the symbols the text test accepts
      without `relative_to` then raising, and gives them the same id. */
  lemma InternalIsAsWrittenWithoutRaising(x: Inferred, root: Path)
    ensures IsInternal(x, root) ==> IsInternalAsWritten(x, root) && TargetIdAsWritten(x, root) == Some(TargetId(x, root))
    ensures IsInternalAsWritten(x, root) ==> (IsInternal(x, root) <==> TargetIdAsWritten(x, root).Some?)
  {
    if IsInternal(x, root) {
      UnderHasTextPrefix(x.rootFile.value, root);
    }
  }

  lemma ProjText()
    ensures PathText(["proj"]) == "/proj"
    ensures PathText(["proj2", "m.py"]) == "/proj2/m.py"
  {
    assert Join(["proj2", "m.py"], "/") == "proj2" + "/" + Join(["m.py"], "/");
  }

  /** A symbol from the sibling directory `/proj2` passes the test as written
      for the root `/proj`, and computing its id then raises. */
  lemma SiblingDirectorySymbolRaises()
    ensures var x := Symbol(OtherSymbol, Some("m.f"), "f", Some("m"), Some(["proj2", "m.py"]));
      IsInternalAsWritten(x, ["proj"]) && TargetIdAsWritten(x, ["proj"]).None? && !IsInternal(x, ["proj"])
  {
    ProjText();
    assert "/proj2/m.py"[..5] == "/proj";
    assert ["proj2", "m.py"][..1] != ["proj"] by {
      assert ["proj2", "m.py"][..1][0] == "proj2" != "proj";
    }
  }

  /* ---- Import targets ---- */

  datatype Escaped = ValueError

  /** One resolved module of `_visit_import`/`_visit_importfrom` as written:
      `Ok(Some(t))` adds an IMPORTS edge to `t`, `Ok(None)` adds nothing, and
      `Err` is the `ValueError` that escapes the `except` clause. */
  function ImportTargetAsWritten(o: ImportOutcome, root: Path): (r: Result<Option<string>, Escaped>)
    ensures o.ImportFailed? || o.file.None? ==> r == Ok(None)
    ensures r.Err? ==> o.Imported? && o.file.Some? && RelativeTo(o.file.value, root).None?
    ensures r.Ok? && r.value.Some? ==>
      o.Imported? && o.file.Some? && IsUnder(o.file.value, root) && r.value.value == FileId(o.file.value, root)
  {
    if o.ImportFailed? || o.file.None? || !StartsWith(PathText(o.file.value), PathText(root)) then Ok(None)
    else if IsUnder(o.file.value, root) then Ok(Some(FileId(o.file.value, root)))
    else Err(ValueError)
  }

  /** The import target the visitor relies on: the module's file id when the
      file lies below the root. */
  function ImportTarget(o: ImportOutcome, root: Path): (r: Option<string>)
    ensures r.Some? <==> o.Imported? && o.file.Some? && RelativeTo(o.file.value, root).Some?
    ensures r.Some? ==> r.value == FileId(o.file.value, root)
  {
    if o.Imported? && o.file.Some? && IsUnder(o.file.value, root) then Some(FileId(o.file.value, root)) else None
  }

  /** Wherever the code as written does not raise it agrees with the
      corrected target, and every corrected edge is one it also adds. */
  lemma ImportTargetAgrees(o: ImportOutcome, root: Path)
    ensures ImportTargetAsWritten(o, root).Ok? ==> ImportTargetAsWritten(o, root).value == ImportTarget(o, root)
    ensures ImportTarget(o, root).Some? ==> ImportTargetAsWritten(o, root) == Ok(ImportTarget(o, root))
  {
    if o.Imported? && o.file.Some? && IsUnder(o.file.value, root) {
      UnderHasTextPrefix(o.file.value, root);
    }
  }

  lemma SiblingDirectoryImportRaises()
    ensures ImportTargetAsWritten(Imported(Some(["proj2", "m.py"])), ["proj"]) == Err(ValueError)
    ensures ImportTarget(Imported(Some(["proj2", "m.py"])), ["proj"]) == None
  {
    ProjText();
    assert "/proj2/m.py"[..5] == "/proj";
    assert ["proj2", "m.py"][..1][0] == "proj2" != "proj";
  }

  /* ---- The visitor's state and what each step does to it ---- */

  /** The visitor's fields; `failed` records that an exception escaped, after
      which nothing more runs. */
  datatype Scan = Scan(nodes: seq<Node>, edges: seq<Edge>, stack: seq<string>, dyn: set<string>, failed: bool)

  const Fresh := Scan([], [], [], {}, false)

  /** The file being parsed (`rel`) and the project root. */
  datatype Ctx = Ctx(rel: string, root: Path)

  function Top(stack: seq<string>): string
    requires stack != []
  {
    stack[|stack| - 1]
  }

  function Fail(s: Scan): Scan
  {
    s.(failed := true)
  }

  /** `_add_node` for an entity of this file. */
  function WithNode(s: Scan, rel: string, id: string, t: NodeType, name: string, span: Span): Scan
  {
    s.(nodes := s.nodes + [Node(id, t, name, NodeMetadata(rel, span.fromLine, span.toLine, false))])
  }

  function WithEdge(s: Scan, source: string, target: string, t: EdgeType): Scan
  {
    s.(edges := s.edges + [Edge(source, target, t)])
  }

  function Pop(s: Scan): Scan
    requires s.failed || s.stack != []
  {
    if s.failed then s else s.(stack := s.stack[..|s.stack| - 1])
  }

  /** `r` is `s` with edges of kind `t` from `source` appended, and nothing else changed. */
  predicate EdgesAdded(s: Scan, r: Scan, source: string, t: EdgeType)
  {
    && r.nodes == s.nodes && r.stack == s.stack && r.dyn == s.dyn && r.failed == s.failed
    && |s.edges| <= |r.edges| && r.edges[..|s.edges|] == s.edges
    && forall i :: |s.edges| <= i < |r.edges| ==> r.edges[i].source == source && r.edges[i].edgeType == t
  }

  /** The edges of kind `t` from `source` to every internal symbol among `xs`
      (a loop over `infer()` results). */
  function SymbolEdges(s: Scan, root: Path, source: string, xs: seq<Inferred>, t: EdgeType): (r: Scan)
    ensures EdgesAdded(s, r, source, t)
  {
    if xs == [] then s
    else
      var p := SymbolEdges(s, root, source, xs[..|xs| - 1], t);
      var x := xs[|xs| - 1];
      if IsInternal(x, root) then WithEdge(p, source, TargetId(x, root), t) else p
  }

  /** The same, over several inferred expressions (bases, decorators). */
  function GroupEdges(s: Scan, root: Path, source: string, groups: seq<seq<Inferred>>, t: EdgeType): (r: Scan)
    ensures EdgesAdded(s, r, source, t)
  {
    if groups == [] then s
    else SymbolEdges(GroupEdges(s, root, source, groups[..|groups| - 1], t), root, source, groups[|groups| - 1], t)
  }

  /** `_handle_annotation(source, a)`. */
  function Annotation(s: Scan, root: Path, source: string, a: Ast): (r: Scan)
    ensures EdgesAdded(s, r, source, UsesType)
    decreases a, 1
  {
    match a
    case Name(_, xs) => SymbolEdges(s, root, source, xs, UsesType)
    case Attribute(xs, _) => SymbolEdges(s, root, source, xs, UsesType)
    case Subscript(value, slice) => Annotation(Annotation(s, root, source, value), root, source, slice)
    case Tuple(elts) => Elements(s, root, source, a, |elts|)
    case BinOp(op, left, right) =>
      if op == "|" then Annotation(Annotation(s, root, source, left), root, source, right) else s
    case _ => s
  }

  /** The annotation walk over the first `k` elements of a tuple. */
  function Elements(s: Scan, root: Path, source: string, tuple: Ast, k: nat): (r: Scan)
    requires tuple.Tuple? && k <= |tuple.elts|
    ensures EdgesAdded(s, r, source, UsesType)
    decreases tuple, 0, k
  {
    if k == 0 then s else Annotation(Elements(s, root, source, tuple, k - 1), root, source, tuple.elts[k - 1])
  }

  /** The annotation walk over the annotations that are present. */
  function Annotations(s: Scan, root: Path, source: string, anns: seq<Option<Ast>>): (r: Scan)
    ensures EdgesAdded(s, r, source, UsesType)
  {
    if anns == [] then s
    else
      var p := Annotations(s, root, source, anns[..|anns| - 1]);
      var a := anns[|anns| - 1];
      if a.Some? then Annotation(p, root, source, a.value) else p
  }

  predicate IsDynamicCall(x: Inferred)
  {
    x.Symbol? && x.qname.Some? && x.qname.value in DynamicFunctionNames
  }

  /** The loop of `_visit_call` for the innermost scope `caller`. */
  function CallEffects(s: Scan, root: Path, caller: string, xs: seq<Inferred>): (r: Scan)
    ensures r.nodes == s.nodes && r.stack == s.stack && r.failed == s.failed
    ensures s.dyn <= r.dyn <= s.dyn + {caller}
    ensures |s.edges| <= |r.edges| && r.edges[..|s.edges|] == s.edges
    ensures forall i :: |s.edges| <= i < |r.edges| ==>
      r.edges[i].source == caller && r.edges[i].edgeType == Calls && r.edges[i].target != caller
  {
    if xs == [] then s
    else
      var p := CallEffects(s, root, caller, xs[..|xs| - 1]);
      var x := xs[|xs| - 1];
      if x.Uninferable? then p
      else
        var q := if IsDynamicCall(x) then p.(dyn := p.dyn + {caller}) else p;
        if IsInternal(x, root) && TargetId(x, root) != caller then WithEdge(q, caller, TargetId(x, root), Calls) else q
  }

  /** The classes `_visit_attribute` (without constants) and `_visit_name`
      (with them) link to. */
  predicate IsVariable(x: Inferred, withConst: bool)
  {
    x.Symbol? && (x.kind == AssignNameSymbol || x.kind == AssignAttrSymbol || (withConst && x.kind == ConstSymbol))
  }

  /** The loop shared by `_visit_attribute` and `_visit_name`: a USES_VARIABLE
      edge from the innermost scope to every internal variable other than
      that scope; reading the scope of an empty stack raises. */
  function VariableUses(s: Scan, root: Path, xs: seq<Inferred>, withConst: bool): (r: Scan)
    ensures r.nodes == s.nodes && r.stack == s.stack && r.dyn == s.dyn
    ensures s.failed ==> r == s
    ensures |s.edges| <= |r.edges| && r.edges[..|s.edges|] == s.edges
    ensures forall i :: |s.edges| <= i < |r.edges| ==>
      s.stack != [] && r.edges[i].source == Top(s.stack) && r.edges[i].edgeType == UsesVariable &&
      r.edges[i].target != r.edges[i].source
  {
    if xs == [] then s
    else
      var p := VariableUses(s, root, xs[..|xs| - 1], withConst);
      var x := xs[|xs| - 1];
      if p.failed || !IsVariable(x, withConst) || !IsInternal(x, root) then p
      else if p.stack == [] then Fail(p)
      else if Top(p.stack) != TargetId(x, root) then WithEdge(p, Top(p.stack), TargetId(x, root), UsesVariable)
      else p
  }

  /** The loop of `_handle_assign`: a variable node and a CONTAINS edge from
      `scope` for each target with a name. */
  function Declare(s: Scan, rel: string, scope: string, targets: seq<Target>): (r: Scan)
    ensures r.stack == s.stack && r.dyn == s.dyn && r.failed == s.failed
    ensures |s.nodes| <= |r.nodes| && r.nodes[..|s.nodes|] == s.nodes
    ensures |s.edges| <= |r.edges| && r.edges[..|s.edges|] == s.edges
    ensures forall i :: |s.nodes| <= i < |r.nodes| ==>
      r.nodes[i].metadata.filePath == rel && !r.nodes[i].metadata.containsDynamicCode && StartsWith(r.nodes[i].id, rel)
    ensures |r.nodes| - |s.nodes| == |r.edges| - |s.edges|
    ensures forall i :: |s.edges| <= i < |r.edges| ==>
      r.edges[i].source == scope && r.edges[i].edgeType == Contains &&
      r.edges[i].target == r.nodes[|s.nodes| + (i - |s.edges|)].id
  {
    if targets == [] then s
    else
      var p := Declare(s, rel, scope, targets[..|targets| - 1]);
      var t := targets[|targets| - 1];
      if t.Named? then
        var id := NodeId(rel, false, t.qname, t.text);
        NodeIdStartsWithPath(rel, false, t.qname, t.text);
        var r := WithEdge(WithNode(p, rel, id, Variable, t.name, t.span), scope, id, Contains);
        assert r.nodes[|p.nodes|].id == id;
        assert forall j :: |s.nodes| <= j < |p.nodes| ==> r.nodes[j] == p.nodes[j];
        assert forall i :: |s.edges| <= i < |p.edges| ==> r.edges[i] == p.edges[i];
        r
      else p
  }

  /** `_handle_assign(node)`. */
  function AssignStep(s: Scan, rel: string, n: Ast): (r: Scan)
    requires n.Assign? || n.AnnAssign?
    ensures s.stack == [] ==> r.failed && r.nodes == s.nodes && r.edges == s.edges
    ensures s.stack != [] ==> r.failed == s.failed && r.stack == s.stack && r.dyn == s.dyn
    ensures s.stack != [] ==> |r.nodes| - |s.nodes| == |r.edges| - |s.edges|
    ensures s.stack != [] ==> forall i :: |s.edges| <= i < |r.edges| ==>
      r.edges[i].source == Top(s.stack) && r.edges[i].edgeType == Contains
  {
    if s.stack == [] then Fail(s)
    else Declare(s, rel, Top(s.stack), if n.Assign? then n.targets else [n.target])
  }

  /** The IMPORTS edges from this file for the resolved modules. */
  function ImportEdges(s: Scan, ctx: Ctx, os: seq<ImportOutcome>): (r: Scan)
    ensures EdgesAdded(s, r, ctx.rel, Imports)
  {
    if os == [] then s
    else
      var p := ImportEdges(s, ctx, os[..|os| - 1]);
      var t := ImportTarget(os[|os| - 1], ctx.root);
      if t.Some? then WithEdge(p, ctx.rel, t.value, Imports) else p
  }

  lemma PrefixTrans<T>(a: seq<T>, b: seq<T>, c: seq<T>)
    requires |a| <= |b| && b[..|a|] == a
    requires |b| <= |c| && c[..|b|] == b
    ensures |a| <= |c| && c[..|a|] == a
  {
    assert c[..|a|] == c[..|b|][..|a|];
  }

  /** `r` follows `s`: the lists and the flagged ids only grow, an escaped
      exception stops everything, and otherwise the scope stack is as it was. */
  predicate Follows(s: Scan, r: Scan)
  {
    && |s.nodes| <= |r.nodes| && r.nodes[..|s.nodes|] == s.nodes
    && |s.edges| <= |r.edges| && r.edges[..|s.edges|] == s.edges
    && s.dyn <= r.dyn
    && (s.failed ==> r == s)
    && (!r.failed ==> r.stack == s.stack)
  }

  /** `visit_module`: the file node, then the body in the file's scope. */
  function ModuleVisited(s: Scan, ctx: Ctx, n: Ast): (r: Scan)
    requires n.Module? && !s.failed
    ensures Follows(s, r)
    decreases n, 1, 0
  {
    var s1 := WithNode(s, ctx.rel, ctx.rel, File, n.name, n.span);
    Pop(ChildrenVisited(s1.(stack := s1.stack + [ctx.rel]), ctx, n, |Children(n)|))
  }

  /** `visit_classdef`: the class node, its CONTAINS and INHERITS edges, then
      the body in the class's scope. */
  function ClassVisited(s: Scan, ctx: Ctx, n: Ast): (r: Scan)
    requires n.ClassDef? && !s.failed
    ensures Follows(s, r)
    decreases n, 1, 0
  {
    var id := NodeId(ctx.rel, false, n.qname, n.text);
    var s1 := WithNode(s, ctx.rel, id, Class, n.name, n.span);
    if s1.stack == [] then Fail(s1)
    else
      var s2 := GroupEdges(WithEdge(s1, Top(s1.stack), id, Contains), ctx.root, id, n.bases, Inherits);
      Pop(ChildrenVisited(s2.(stack := s2.stack + [id]), ctx, n, |Children(n)|))
  }

  /** `visit_functiondef`: the function node, its CONTAINS, DECORATES and
      annotation edges, then the body in the function's scope. */
  function FunctionVisited(s: Scan, ctx: Ctx, n: Ast): (r: Scan)
    requires n.FunctionDef? && !s.failed
    ensures Follows(s, r)
    decreases n, 1, 0
  {
    var id := NodeId(ctx.rel, false, n.qname, n.text);
    var s1 := WithNode(s, ctx.rel, id, Function, n.name, n.span);
    if s1.stack == [] then Fail(s1)
    else
      var s4 := FunctionHeader(WithEdge(s1, Top(s1.stack), id, Contains), ctx.root, id, n);
      Pop(ChildrenVisited(s4.(stack := s4.stack + [id]), ctx, n, |Children(n)|))
  }

  /** The DECORATES edges, then the USES_TYPE edges of the argument and
      return annotations, all from the function `id`. */
  function FunctionHeader(s: Scan, root: Path, id: string, n: Ast): (r: Scan)
    requires n.FunctionDef?
    ensures r.nodes == s.nodes && r.stack == s.stack && r.dyn == s.dyn && r.failed == s.failed
    ensures |s.edges| <= |r.edges| && r.edges[..|s.edges|] == s.edges
    ensures forall i :: |s.edges| <= i < |r.edges| ==> r.edges[i].source == id
  {
    var s2 := GroupEdges(s, root, id, n.decorators, Decorates);
    var s3 := Annotations(s2, root, id, n.annotations);
    var s4 := if n.returnAnnotation.Some? then Annotation(s3, root, id, n.returnAnnotation.value) else s3;
    PrefixTrans(s.edges, s2.edges, s4.edges);
    assert forall i :: |s.edges| <= i < |s2.edges| ==> s4.edges[i] == s2.edges[i];
    s4
  }

  /** `_visit_recursive(n)`: what visiting `n` does to the visitor. */
  function Visited(s: Scan, ctx: Ctx, n: Ast): (r: Scan)
    ensures Follows(s, r)
    decreases n, 1
  {
    if s.failed then s
    else match n
      case Module(_, _, _) => ModuleVisited(s, ctx, n)
      case ClassDef(_, _, _, _, _, _) => ClassVisited(s, ctx, n)
      case FunctionDef(_, _, _, _, _, _, _, _) => FunctionVisited(s, ctx, n)
      case Call(func, _) =>
        if s.stack == [] then Fail(s)
        else ChildrenVisited(CallEffects(s, ctx.root, Top(s.stack), func), ctx, n, |Children(n)|)
      case Import(names) => ImportEdges(s, ctx, names)
      case ImportFrom(outcome) => ImportEdges(s, ctx, [outcome])
      case Assign(_, _) => ChildrenVisited(AssignStep(s, ctx.rel, n), ctx, n, |Children(n)|)
      case AnnAssign(_, annotation, _) =>
        var s1 := AssignStep(s, ctx.rel, n);
        var s2 := if s1.failed then s1 else Annotation(s1, ctx.root, Top(s1.stack), annotation);
        ChildrenVisited(s2, ctx, n, |Children(n)|)
      case Attribute(xs, _) => ChildrenVisited(VariableUses(s, ctx.root, xs, false), ctx, n, |Children(n)|)
      case Name(lookup, xs) =>
        if lookup.None? then Fail(s)
        else if lookup.value == AssignNameSymbol || lookup.value == AssignAttrSymbol then VariableUses(s, ctx.root, xs, true)
        else s
      case _ => ChildrenVisited(s, ctx, n, |Children(n)|)
  }

  /** `_default_visit(n)` over the first `k` children. */
  function ChildrenVisited(s: Scan, ctx: Ctx, n: Ast, k: nat): (r: Scan)
    requires k <= |Children(n)|
    ensures Follows(s, r)
    decreases n, 0, k
  {
    if k == 0 then s else Visited(ChildrenVisited(s, ctx, n, k - 1), ctx, Children(n)[k - 1])
  }

  /* ---- The visitor ---- */

  /** `AstroidVisitor`: its lists, scope stack and flagged ids are fields the
      visit methods update in place. */
  class AstroidVisitor {
    const rel: string
    const rootPath: Path
    var nodes: seq<Node>
    var edges: seq<Edge>
    var scopeStack: seq<string>
    var dynamicScopeIds: set<string>
    var failed: bool

    function State(): Scan
      reads this
    {
      Scan(nodes, edges, scopeStack, dynamicScopeIds, failed)
    }

    function Context(): Ctx
    {
      Ctx(rel, rootPath)
    }

    /** The file must lie below the root: otherwise the first `_add_node`
        raises, which `PythonParser.Parse` states directly. */
    constructor (filePath: Path, rootPath: Path)
      requires IsUnder(filePath, rootPath)
      ensures rel == FileId(filePath, rootPath) && this.rootPath == rootPath
      ensures State() == Fresh
    {
      rel := FileId(filePath, rootPath);
      this.rootPath := rootPath;
      nodes, edges, scopeStack, dynamicScopeIds, failed := [], [], [], {}, false;
    }

    /** `visit(module)`. */
    method Visit(tree: Ast) returns (ns: seq<Node>, es: seq<Edge>, ids: set<string>)
      modifies this
      ensures State() == Visited(old(State()), Context(), tree)
      ensures ns == nodes && es == edges && ids == dynamicScopeIds
    {
      VisitRecursive(tree);
      return nodes, edges, dynamicScopeIds;
    }

    method VisitRecursive(n: Ast)
      modifies this
      ensures State() == Visited(old(State()), Context(), n)
      decreases n, 2
    {
      if failed {
        return;
      }
      match n {
        case Module(_, _, _) => VisitModule(n);
        case ClassDef(_, _, _, _, _, _) => VisitClassDef(n);
        case FunctionDef(_, _, _, _, _, _, _, _) => VisitFunctionDef(n);
        case Call(_, _) => VisitCall(n);
        case Import(_) => VisitImport(n);
        case ImportFrom(_) => VisitImportFrom(n);
        case Assign(_, _) => VisitAssign(n);
        case AnnAssign(_, _, _) => VisitAnnAssign(n);
        case Attribute(_, _) => VisitAttribute(n);
        case Name(_, _) => VisitName(n);
        case Subscript(_, _) => DefaultVisit(n);
        case Tuple(_) => DefaultVisit(n);
        case BinOp(_, _, _) => DefaultVisit(n);
        case Other(_) => DefaultVisit(n);
      }
    }

    method DefaultVisit(n: Ast)
      modifies this
      ensures State() == ChildrenVisited(old(State()), Context(), n, |Children(n)|)
      decreases n, 0
    {
      var s0, ctx := State(), Context();
      var children := Children(n);
      var i := 0;
      while i < |children|
        invariant 0 <= i <= |children|
        invariant State() == ChildrenVisited(s0, ctx, n, i)
      {
        assert children[i] in children;
        VisitRecursive(children[i]);
        i := i + 1;
      }
    }

    /** `_add_node`: appends the node and returns its id. */
    method AddNode(isModule: bool, qname: Option<string>, text: string, t: NodeType, name: string, span: Span)
      returns (id: string)
      modifies this
      ensures id == NodeId(rel, isModule, qname, text)
      ensures State() == WithNode(old(State()), rel, id, t, name, span)
    {
      id := NodeId(rel, isModule, qname, text);
      nodes := nodes + [Node(id, t, name, NodeMetadata(rel, span.fromLine, span.toLine, false))];
    }

    method AddEdge(source: string, target: string, t: EdgeType)
      modifies this
      ensures State() == WithEdge(old(State()), source, target, t)
    {
      edges := edges + [Edge(source, target, t)];
    }

    /** A loop over one `infer()`: an edge to each internal symbol. */
    method AddSymbolEdges(source: string, xs: seq<Inferred>, t: EdgeType)
      modifies this
      ensures State() == SymbolEdges(old(State()), rootPath, source, xs, t)
    {
      var i := 0;
      while i < |xs|
        invariant 0 <= i <= |xs|
        invariant State() == SymbolEdges(old(State()), rootPath, source, xs[..i], t)
      {
        assert xs[..i + 1][..i] == xs[..i];
        if IsInternal(xs[i], rootPath) {
          var targetId := TargetId(xs[i], rootPath);
          AddEdge(source, targetId, t);
        }
        i := i + 1;
      }
      assert xs[..i] == xs;
    }

    method AddGroupEdges(source: string, groups: seq<seq<Inferred>>, t: EdgeType)
      modifies this
      ensures State() == GroupEdges(old(State()), rootPath, source, groups, t)
    {
      var i := 0;
      while i < |groups|
        invariant 0 <= i <= |groups|
        invariant State() == GroupEdges(old(State()), rootPath, source, groups[..i], t)
      {
        assert groups[..i + 1][..i] == groups[..i];
        AddSymbolEdges(source, groups[i], t);
        i := i + 1;
      }
      assert groups[..i] == groups;
    }

    /** The end of each definition visit: push `id`, visit the children,
        and pop it again unless an exception escaped. */
    method VisitInScope(id: string, n: Ast)
      modifies this
      ensures State() == Pop(ChildrenVisited(old(State()).(stack := old(scopeStack) + [id]), Context(), n, |Children(n)|))
      decreases n, 1, 0
    {
      scopeStack := scopeStack + [id];
      DefaultVisit(n);
      if !failed {
        scopeStack := scopeStack[..|scopeStack| - 1];
      }
    }

    method VisitModule(n: Ast)
      requires n.Module? && !failed
      modifies this
      ensures State() == ModuleVisited(old(State()), Context(), n)
      decreases n, 1
    {
      var moduleId := AddNode(true, None, "", File, n.name, n.span);
      VisitInScope(moduleId, n);
    }

    method VisitClassDef(n: Ast)
      requires n.ClassDef? && !failed
      modifies this
      ensures State() == ClassVisited(old(State()), Context(), n)
      decreases n, 1
    {
      var classId := AddNode(false, n.qname, n.text, Class, n.name, n.span);
      if scopeStack == [] {
        failed := true;
        return;
      }
      AddEdge(scopeStack[|scopeStack| - 1], classId, Contains);
      AddGroupEdges(classId, n.bases, Inherits);
      VisitInScope(classId, n);
    }

    /** The loop of `visit_functiondef` over the argument annotations. */
    method HandleArgumentAnnotations(funcId: string, anns: seq<Option<Ast>>)
      modifies this
      ensures State() == Annotations(old(State()), rootPath, funcId, anns)
    {
      ghost var before := State();
      var i := 0;
      while i < |anns|
        invariant 0 <= i <= |anns|
        invariant State() == Annotations(before, rootPath, funcId, anns[..i])
      {
        assert anns[..i + 1][..i] == anns[..i];
        if anns[i].Some? {
          HandleAnnotation(funcId, anns[i].value);
        }
        i := i + 1;
      }
      assert anns[..i] == anns;
    }

    /** The decorator and annotation edges of `visit_functiondef`. */
    method HandleFunctionHeader(funcId: string, n: Ast)
      requires n.FunctionDef?
      modifies this
      ensures State() == FunctionHeader(old(State()), rootPath, funcId, n)
    {
      AddGroupEdges(funcId, n.decorators, Decorates);
      HandleArgumentAnnotations(funcId, n.annotations);
      if n.returnAnnotation.Some? {
        HandleAnnotation(funcId, n.returnAnnotation.value);
      }
    }

    method VisitFunctionDef(n: Ast)
      requires n.FunctionDef? && !failed
      modifies this
      ensures State() == FunctionVisited(old(State()), Context(), n)
      decreases n, 1
    {
      var funcId := AddNode(false, n.qname, n.text, Function, n.name, n.span);
      if scopeStack == [] {
        failed := true;
        return;
      }
      AddEdge(scopeStack[|scopeStack| - 1], funcId, Contains);
      HandleFunctionHeader(funcId, n);
      VisitInScope(funcId, n);
    }

    method VisitCall(n: Ast)
      requires n.Call? && !failed
      modifies this
      ensures State() == Visited(old(State()), Context(), n)
      decreases n, 1
    {
      if scopeStack == [] {
        failed := true;
        return;
      }
      var callerId := scopeStack[|scopeStack| - 1];
      var xs := n.func;
      var i := 0;
      while i < |xs|
        invariant 0 <= i <= |xs|
        invariant State() == CallEffects(old(State()), rootPath, callerId, xs[..i])
      {
        assert xs[..i + 1][..i] == xs[..i];
        var x := xs[i];
        if !x.Uninferable? {
          if x.qname.Some? && x.qname.value in DynamicFunctionNames {
            dynamicScopeIds := dynamicScopeIds + {callerId};
          }
          if IsInternal(x, rootPath) {
            var targetId := TargetId(x, rootPath);
            if callerId != targetId {
              AddEdge(callerId, targetId, Calls);
            }
          }
        }
        i := i + 1;
      }
      assert xs[..i] == xs;
      DefaultVisit(n);
    }

    method VisitImport(n: Ast)
      requires n.Import? && !failed
      modifies this
      ensures State() == Visited(old(State()), Context(), n)
      decreases n, 1
    {
      var currentFileId := rel;
      var names := n.names;
      var i := 0;
      while i < |names|
        invariant 0 <= i <= |names|
        invariant State() == ImportEdges(old(State()), Context(), names[..i])
      {
        assert names[..i + 1][..i] == names[..i];
        var target := ImportTarget(names[i], rootPath);
        if target.Some? {
          AddEdge(currentFileId, target.value, Imports);
        }
        i := i + 1;
      }
      assert names[..i] == names;
    }

    method VisitImportFrom(n: Ast)
      requires n.ImportFrom? && !failed
      modifies this
      ensures State() == Visited(old(State()), Context(), n)
      decreases n, 1
    {
      assert [n.outcome][..0] == [];
      assert ImportEdges(State(), Context(), []) == State();
      var currentFileId := rel;
      var target := ImportTarget(n.outcome, rootPath);
      if target.Some? {
        AddEdge(currentFileId, target.value, Imports);
      }
    }

    /** `_handle_assign(node)`. */
    method HandleAssign(n: Ast)
      requires n.Assign? || n.AnnAssign?
      modifies this
      ensures State() == AssignStep(old(State()), rel, n)
    {
      if scopeStack == [] {
        failed := true;
        return;
      }
      var scopeId := scopeStack[|scopeStack| - 1];
      var targets := if n.Assign? then n.targets else [n.target];
      var i := 0;
      while i < |targets|
        invariant 0 <= i <= |targets|
        invariant State() == Declare(old(State()), rel, scopeId, targets[..i])
      {
        assert targets[..i + 1][..i] == targets[..i];
        var target := targets[i];
        if target.Named? {
          var varId := AddNode(false, target.qname, target.text, Variable, target.name, target.span);
          AddEdge(scopeId, varId, Contains);
        }
        i := i + 1;
      }
      assert targets[..i] == targets;
    }

    method VisitAssign(n: Ast)
      requires n.Assign? && !failed
      modifies this
      ensures State() == Visited(old(State()), Context(), n)
      decreases n, 1
    {
      HandleAssign(n);
      DefaultVisit(n);
    }

    method VisitAnnAssign(n: Ast)
      requires n.AnnAssign? && !failed
      modifies this
      ensures State() == Visited(old(State()), Context(), n)
      decreases n, 1
    {
      HandleAssign(n);
      if !failed {
        HandleAnnotation(scopeStack[|scopeStack| - 1], n.annotation);
      }
      DefaultVisit(n);
    }

    /** `_handle_annotation(source, a)`. */
    method HandleAnnotation(source: string, a: Ast)
      modifies this
      ensures State() == Annotation(old(State()), rootPath, source, a)
      decreases a
    {
      match a {
        case Name(_, xs) => AddSymbolEdges(source, xs, UsesType);
        case Attribute(xs, _) => AddSymbolEdges(source, xs, UsesType);
        case Subscript(value, slice) =>
          HandleAnnotation(source, value);
          HandleAnnotation(source, slice);
        case Tuple(elts) => HandleElements(source, a);
        case BinOp(op, left, right) =>
          if op == "|" {
            HandleAnnotation(source, left);
            HandleAnnotation(source, right);
          }
        case _ =>
      }
    }

    /** The loop of `_handle_annotation` over the elements of a tuple. */
    method HandleElements(source: string, tuple: Ast)
      requires tuple.Tuple?
      modifies this
      ensures State() == Elements(old(State()), rootPath, source, tuple, |tuple.elts|)
      decreases tuple, 0
    {
      ghost var s0 := State();
      var elts := tuple.elts;
      var i := 0;
      while i < |elts|
        invariant 0 <= i <= |elts|
        invariant State() == Elements(s0, rootPath, source, tuple, i)
      {
        HandleAnnotation(source, elts[i]);
        i := i + 1;
      }
    }

    /** The loop of `_visit_attribute` and `_visit_name`. */
    method AddVariableUses(xs: seq<Inferred>, withConst: bool)
      modifies this
      ensures State() == VariableUses(old(State()), rootPath, xs, withConst)
    {
      var i := 0;
      while i < |xs|
        invariant 0 <= i <= |xs|
        invariant State() == VariableUses(old(State()), rootPath, xs[..i], withConst)
      {
        assert xs[..i + 1][..i] == xs[..i];
        var x := xs[i];
        if !failed && IsVariable(x, withConst) && IsInternal(x, rootPath) {
          if scopeStack == [] {
            failed := true;
          } else {
            var targetId := TargetId(x, rootPath);
            var sourceId := scopeStack[|scopeStack| - 1];
            if sourceId != targetId {
              AddEdge(sourceId, targetId, UsesVariable);
            }
          }
        }
        i := i + 1;
      }
      assert xs[..i] == xs;
    }

    method VisitAttribute(n: Ast)
      requires n.Attribute? && !failed
      modifies this
      ensures State() == Visited(old(State()), Context(), n)
      decreases n, 1
    {
      AddVariableUses(n.inferred, false);
      DefaultVisit(n);
    }

    method VisitName(n: Ast)
      requires n.Name? && !failed
      modifies this
      ensures State() == Visited(old(State()), Context(), n)
      decreases n, 1
    {
      if n.lookup.None? {
        failed := true;
        return;
      }
      if n.lookup.value == AssignNameSymbol || n.lookup.value == AssignAttrSymbol {
        AddVariableUses(n.inferred, true);
      }
      DefaultVisit(n);
    }
  }

  /** `PythonParser.parse(file_path, root_path)`: `tree` is what
      `ast_from_file` returned (`None` when it raised). Any exception gives
      empty lists; otherwise the visitor's lists with the dynamic-code flags
      applied. */
  method Parse(filePath: Path, rootPath: Path, tree: Option<Ast>) returns (nodes: seq<Node>, edges: seq<Edge>)
    requires tree.Some? ==> tree.value.Module?
    ensures tree.None? || !IsUnder(filePath, rootPath) ==> nodes == [] && edges == []
    ensures tree.Some? && IsUnder(filePath, rootPath) ==>
      var r := Visited(Fresh, Ctx(FileId(filePath, rootPath), rootPath), tree.value);
      && (r.failed ==> nodes == [] && edges == [])
      && (!r.failed ==> edges == r.edges && FlagsApplied(r.nodes, nodes, r.dyn))
  {
    if tree.None? || !IsUnder(filePath, rootPath) {
      return [], [];
    }
    var visitor := new AstroidVisitor(filePath, rootPath);
    var found, ids;
    found, edges, ids := visitor.Visit(tree.value);
    if visitor.failed {
      return [], [];
    }
    nodes := MarkDynamicScopes(found, ids);
  }
}

/** What the Python parser's visitor is proved to do: the graph a file yields
    is closed over its own nodes, the dynamic-code flags mark exactly the
    callers of dynamic functions, and the annotation, call and assignment
    steps link exactly what they should. */
module PythonParserProofs {
  import opened Wrappers
  import opened Text
  import opened Models
  import opened Paths
  import opened PythonParser

  function NodeIds(nodes: seq<Node>): set<string>
  {
    set i | 0 <= i < |nodes| :: nodes[i].id
  }

  lemma IdsGrow(a: seq<Node>, b: seq<Node>)
    requires |a| <= |b| && b[..|a|] == a
    ensures NodeIds(a) <= NodeIds(b)
  {
    forall id | id in NodeIds(a)
      ensures id in NodeIds(b)
    {
      var i :| 0 <= i < |a| && a[i].id == id;
      assert b[i] == a[i];
    }
  }

  lemma LastId(nodes: seq<Node>, n: Node)
    ensures n.id in NodeIds(nodes + [n]) && NodeIds(nodes) <= NodeIds(nodes + [n])
  {
    IdsGrow(nodes, nodes + [n]);
    assert (nodes + [n])[|nodes|] == n;
  }

  /** A node that comes from the file `rel` and is not yet flagged. */
  predicate FromFile(n: Node, rel: string)
  {
    n.metadata.filePath == rel && !n.metadata.containsDynamicCode && StartsWith(n.id, rel)
  }

  /** An edge leaves a declared node; a CONTAINS edge also ends at one; a
      CALLS or USES_VARIABLE edge is never a self-loop. */
  predicate EdgeOk(e: Edge, ids: set<string>)
  {
    && e.source in ids
    && (e.edgeType == Contains ==> e.target in ids)
    && (e.edgeType == Calls || e.edgeType == UsesVariable ==> e.source != e.target)
  }

  /** What the visitor's state satisfies throughout a visit of the file `rel`:
      every scope on the stack, every edge source and every flagged id is a
      node of this file, and the file's own node exists once a scope is open. */
  ghost predicate Valid(s: Scan, rel: string)
  {
    && (forall i :: 0 <= i < |s.nodes| ==> FromFile(s.nodes[i], rel))
    && (forall i :: 0 <= i < |s.edges| ==> EdgeOk(s.edges[i], NodeIds(s.nodes)))
    && (forall i :: 0 <= i < |s.stack| ==> s.stack[i] in NodeIds(s.nodes))
    && (s.stack != [] ==> rel in NodeIds(s.nodes))
    && s.dyn <= NodeIds(s.nodes)
  }

  lemma GrowValid(s: Scan, r: Scan, rel: string)
    requires Valid(s, rel)
    requires |s.nodes| <= |r.nodes| && r.nodes[..|s.nodes|] == s.nodes
    requires |s.edges| <= |r.edges| && r.edges[..|s.edges|] == s.edges
    requires r.stack == s.stack && r.dyn <= NodeIds(r.nodes)
    requires forall i :: |s.nodes| <= i < |r.nodes| ==> FromFile(r.nodes[i], rel)
    requires forall i :: |s.edges| <= i < |r.edges| ==> EdgeOk(r.edges[i], NodeIds(r.nodes))
    ensures Valid(r, rel)
  {
    IdsGrow(s.nodes, r.nodes);
    assert forall i :: 0 <= i < |s.nodes| ==> r.nodes[i] == s.nodes[i];
    assert forall i :: 0 <= i < |s.edges| ==> r.edges[i] == s.edges[i];
  }

  lemma EdgesAddedValid(s: Scan, r: Scan, rel: string, source: string, t: EdgeType)
    requires Valid(s, rel) && EdgesAdded(s, r, source, t) && source in NodeIds(s.nodes)
    requires t != Contains && t != Calls && t != UsesVariable
    ensures Valid(r, rel)
  {
    GrowValid(s, r, rel);
  }

  lemma NodeAddedValid(s: Scan, rel: string, id: string, t: NodeType, name: string, span: Span)
    requires Valid(s, rel) && StartsWith(id, rel)
    ensures Valid(WithNode(s, rel, id, t, name, span), rel)
    ensures id in NodeIds(WithNode(s, rel, id, t, name, span).nodes)
  {
    var r := WithNode(s, rel, id, t, name, span);
    LastId(s.nodes, r.nodes[|s.nodes|]);
    assert r.nodes == s.nodes + [r.nodes[|s.nodes|]];
    GrowValid(s, r, rel);
  }

  lemma PushValid(s: Scan, rel: string, id: string)
    requires Valid(s, rel) && id in NodeIds(s.nodes) && (s.stack != [] || id == rel)
    ensures Valid(s.(stack := s.stack + [id]), rel)
  {
  }

  lemma PopValid(s: Scan, rel: string)
    requires Valid(s, rel) && s.stack != [] && !s.failed
    ensures Valid(Pop(s), rel)
  {
  }

  lemma {:induction false} VisitedValid(s: Scan, ctx: Ctx, n: Ast)
    requires Valid(s, ctx.rel) && (s.stack != [] || n.Module?)
    ensures !Visited(s, ctx, n).failed ==> Valid(Visited(s, ctx, n), ctx.rel)
    decreases n, 2
  {
    if !s.failed {
      match n
      case Module(_, _, _) => ModuleValid(s, ctx, n);
      case ClassDef(_, _, _, _, _, _) => ScopeValid(s, ctx, n);
      case FunctionDef(_, _, _, _, _, _, _, _) => ScopeValid(s, ctx, n);
      case Call(_, _) => CallValid(s, ctx, n);
      case Import(names) => EdgesAddedValid(s, Visited(s, ctx, n), ctx.rel, ctx.rel, Imports);
      case ImportFrom(_) => EdgesAddedValid(s, Visited(s, ctx, n), ctx.rel, ctx.rel, Imports);
      case Assign(_, _) => AssignValid(s, ctx, n);
      case AnnAssign(_, _, _) => AssignValid(s, ctx, n);
      case Attribute(_, _) => VariableUsesValid(s, ctx, n);
      case Name(_, _) => VariableUsesValid(s, ctx, n);
      case Subscript(_, _) => ChildrenValid(s, ctx, n, |Children(n)|);
      case Tuple(_) => ChildrenValid(s, ctx, n, |Children(n)|);
      case BinOp(_, _, _) => ChildrenValid(s, ctx, n, |Children(n)|);
      case Other(_) => ChildrenValid(s, ctx, n, |Children(n)|);
    }
  }

  lemma {:induction false} ChildrenValid(s: Scan, ctx: Ctx, n: Ast, k: nat)
    requires k <= |Children(n)| && Valid(s, ctx.rel) && s.stack != []
    ensures !ChildrenVisited(s, ctx, n, k).failed ==> Valid(ChildrenVisited(s, ctx, n, k), ctx.rel)
    decreases n, 0, k
  {
    if k > 0 {
      ChildrenValid(s, ctx, n, k - 1);
      var p := ChildrenVisited(s, ctx, n, k - 1);
      if !p.failed {
        assert Children(n)[k - 1] in Children(n);
        VisitedValid(p, ctx, Children(n)[k - 1]);
      }
    }
  }

  lemma {:induction false} ModuleValid(s: Scan, ctx: Ctx, n: Ast)
    requires n.Module? && !s.failed && Valid(s, ctx.rel)
    ensures !Visited(s, ctx, n).failed ==> Valid(Visited(s, ctx, n), ctx.rel)
    decreases n, 1
  {
    NodeIdStartsWithPath(ctx.rel, true, None, "");
    var s1 := WithNode(s, ctx.rel, ctx.rel, File, n.name, n.span);
    NodeAddedValid(s, ctx.rel, ctx.rel, File, n.name, n.span);
    var s2 := s1.(stack := s1.stack + [ctx.rel]);
    PushValid(s1, ctx.rel, ctx.rel);
    ChildrenValid(s2, ctx, n, |Children(n)|);
    var s3 := ChildrenVisited(s2, ctx, n, |Children(n)|);
    if !s3.failed {
      PopValid(s3, ctx.rel);
    }
  }

  /** Class and function definitions: one node, a CONTAINS edge from the
      enclosing scope, edges from the new node, and a nested scope. */
  lemma {:induction false} ScopeValid(s: Scan, ctx: Ctx, n: Ast)
    requires (n.ClassDef? || n.FunctionDef?) && !s.failed && Valid(s, ctx.rel) && s.stack != []
    ensures !Visited(s, ctx, n).failed ==> Valid(Visited(s, ctx, n), ctx.rel)
    decreases n, 1
  {
    var id := NodeId(ctx.rel, false, n.qname, n.text);
    NodeIdStartsWithPath(ctx.rel, false, n.qname, n.text);
    var t := if n.ClassDef? then Class else Function;
    var s1 := WithNode(s, ctx.rel, id, t, n.name, n.span);
    NodeAddedValid(s, ctx.rel, id, t, n.name, n.span);
    IdsGrow(s.nodes, s1.nodes);
    var e := WithEdge(s1, Top(s1.stack), id, Contains);
    GrowValid(s1, e, ctx.rel);
    var s4;
    if n.ClassDef? {
      s4 := GroupEdges(e, ctx.root, id, n.bases, Inherits);
      EdgesAddedValid(e, s4, ctx.rel, id, Inherits);
    } else {
      var s2 := GroupEdges(e, ctx.root, id, n.decorators, Decorates);
      EdgesAddedValid(e, s2, ctx.rel, id, Decorates);
      var s3 := Annotations(s2, ctx.root, id, n.annotations);
      EdgesAddedValid(s2, s3, ctx.rel, id, UsesType);
      s4 := if n.returnAnnotation.Some? then Annotation(s3, ctx.root, id, n.returnAnnotation.value) else s3;
      if n.returnAnnotation.Some? {
        EdgesAddedValid(s3, s4, ctx.rel, id, UsesType);
      }
    }
    var pushed := s4.(stack := s4.stack + [id]);
    PushValid(s4, ctx.rel, id);
    ChildrenValid(pushed, ctx, n, |Children(n)|);
    var s5 := ChildrenVisited(pushed, ctx, n, |Children(n)|);
    if !s5.failed {
      PopValid(s5, ctx.rel);
    }
  }

  lemma {:induction false} CallValid(s: Scan, ctx: Ctx, n: Ast)
    requires n.Call? && !s.failed && Valid(s, ctx.rel) && s.stack != []
    ensures !Visited(s, ctx, n).failed ==> Valid(Visited(s, ctx, n), ctx.rel)
    decreases n, 1
  {
    var caller := Top(s.stack);
    var s1 := CallEffects(s, ctx.root, caller, n.func);
    GrowValid(s, s1, ctx.rel);
    ChildrenValid(s1, ctx, n, |Children(n)|);
  }

  /** The declarations of an assignment keep the state valid. */
  lemma AssignStepValid(s: Scan, ctx: Ctx, n: Ast)
    requires (n.Assign? || n.AnnAssign?) && !s.failed && Valid(s, ctx.rel) && s.stack != []
    ensures var s1 := AssignStep(s, ctx.rel, n); Valid(s1, ctx.rel) && !s1.failed && s1.stack == s.stack
  {
    var s1 := Declare(s, ctx.rel, Top(s.stack), if n.Assign? then n.targets else [n.target]);
    assert s1 == AssignStep(s, ctx.rel, n);
    forall i | |s.edges| <= i < |s1.edges|
      ensures s1.edges[i].target in NodeIds(s1.nodes)
    {
      var j := |s.nodes| + (i - |s.edges|);
      assert s1.edges[i].target == s1.nodes[j].id;
    }
    IdsGrow(s.nodes, s1.nodes);
    GrowValid(s, s1, ctx.rel);
  }

  lemma {:induction false} AssignValid(s: Scan, ctx: Ctx, n: Ast)
    requires (n.Assign? || n.AnnAssign?) && !s.failed && Valid(s, ctx.rel) && s.stack != []
    ensures !Visited(s, ctx, n).failed ==> Valid(Visited(s, ctx, n), ctx.rel)
    decreases n, 1
  {
    var s1 := AssignStep(s, ctx.rel, n);
    AssignStepValid(s, ctx, n);
    if n.Assign? {
      assert Visited(s, ctx, n) == ChildrenVisited(s1, ctx, n, |Children(n)|);
      ChildrenValid(s1, ctx, n, |Children(n)|);
    } else {
      var scope := Top(s.stack);
      var s2 := Annotation(s1, ctx.root, scope, n.annotation);
      EdgesAddedValid(s1, s2, ctx.rel, scope, UsesType);
      assert Visited(s, ctx, n) == ChildrenVisited(s2, ctx, n, |Children(n)|);
      ChildrenValid(s2, ctx, n, |Children(n)|);
    }
  }

  lemma {:induction false} VariableUsesValid(s: Scan, ctx: Ctx, n: Ast)
    requires (n.Attribute? || n.Name?) && !s.failed && Valid(s, ctx.rel) && s.stack != []
    ensures !Visited(s, ctx, n).failed ==> Valid(Visited(s, ctx, n), ctx.rel)
    decreases n, 1
  {
    var s1 := VariableUses(s, ctx.root, n.inferred, n.Name?);
    if !s1.failed {
      GrowValid(s, s1, ctx.rel);
    }
    if n.Attribute? {
      if !s1.failed {
        ChildrenValid(s1, ctx, n, |Children(n)|);
      }
    }
  }

  /** The lists a parsed file yields: every node comes from the file and its
      id starts with the file's path, every edge leaves one of the file's
      nodes, CONTAINS edges stay inside the file, no CALLS or USES_VARIABLE
      edge is a self-loop, and a node is flagged exactly when its id is among
      the scopes that called a dynamic function. */
  lemma ParsedFileIsClosed(filePath: Path, rootPath: Path, tree: Ast, nodes: seq<Node>)
    requires tree.Module? && IsUnder(filePath, rootPath)
    requires var r := Visited(Fresh, Ctx(FileId(filePath, rootPath), rootPath), tree);
      !r.failed && FlagsApplied(r.nodes, nodes, r.dyn)
    ensures var rel := FileId(filePath, rootPath);
      var r := Visited(Fresh, Ctx(rel, rootPath), tree);
      && NodeIds(nodes) == NodeIds(r.nodes)
      && r.dyn <= NodeIds(nodes)
      && (forall i :: 0 <= i < |r.edges| ==> EdgeOk(r.edges[i], NodeIds(nodes)))
      && (forall i :: 0 <= i < |nodes| ==> nodes[i].metadata.filePath == rel && StartsWith(nodes[i].id, rel))
      && (forall i :: 0 <= i < |nodes| ==> (nodes[i].metadata.containsDynamicCode <==> nodes[i].id in r.dyn))
  {
    var rel := FileId(filePath, rootPath);
    var ctx := Ctx(rel, rootPath);
    var r := Visited(Fresh, ctx, tree);
    VisitedValid(Fresh, ctx, tree);
    assert forall i :: 0 <= i < |nodes| ==> nodes[i].id == r.nodes[i].id;
    assert NodeIds(nodes) == NodeIds(r.nodes) by {
      forall id | id in NodeIds(r.nodes)
        ensures id in NodeIds(nodes)
      {
        var i :| 0 <= i < |r.nodes| && r.nodes[i].id == id;
        assert nodes[i].id == id;
      }
    }
  }

  /** A class or function inside an open scope is declared first: its node is
      the next node and a CONTAINS edge from the innermost scope is the next
      edge. */
  lemma DefinitionDeclared(s: Scan, ctx: Ctx, n: Ast)
    requires (n.ClassDef? || n.FunctionDef?) && !s.failed && s.stack != []
    ensures var r := Visited(s, ctx, n);
      var id := NodeId(ctx.rel, false, n.qname, n.text);
      && |s.nodes| < |r.nodes| && |s.edges| < |r.edges|
      && r.nodes[|s.nodes|] == Node(id, if n.ClassDef? then Class else Function, n.name,
                                    NodeMetadata(ctx.rel, n.span.fromLine, n.span.toLine, false))
      && r.edges[|s.edges|] == Edge(Top(s.stack), id, Contains)
  {
    var id := NodeId(ctx.rel, false, n.qname, n.text);
    var e1 := WithEdge(WithNode(s, ctx.rel, id, if n.ClassDef? then Class else Function, n.name, n.span), Top(s.stack), id, Contains);
    var s4;
    if n.ClassDef? {
      s4 := GroupEdges(e1, ctx.root, id, n.bases, Inherits);
    } else {
      var s2 := GroupEdges(e1, ctx.root, id, n.decorators, Decorates);
      var s3 := Annotations(s2, ctx.root, id, n.annotations);
      s4 := if n.returnAnnotation.Some? then Annotation(s3, ctx.root, id, n.returnAnnotation.value) else s3;
      PrefixTrans(e1.edges, s2.edges, s3.edges);
      PrefixTrans(e1.edges, s3.edges, s4.edges);
    }
    var c := ChildrenVisited(s4.(stack := s4.stack + [id]), ctx, n, |Children(n)|);
    assert Visited(s, ctx, n) == Pop(c);
    PrefixTrans(e1.edges, s4.edges, c.edges);
    assert c.nodes[|s.nodes|] == e1.nodes[|s.nodes|];
    assert c.edges[|s.edges|] == e1.edges[|s.edges|];
  }

  /* ---- Dynamic-code flags ---- */

  /** The loop of `_visit_call` flags the caller exactly when the `qname()` of
      one of the inferred callees is one of the strings `eval`, `exec`,
      `getattr` or `importlib.import_module`. */
  lemma {:induction false} CallEffectsFlags(s: Scan, root: Path, caller: string, xs: seq<Inferred>)
    ensures CallEffects(s, root, caller, xs).dyn ==
      if exists i :: 0 <= i < |xs| && IsDynamicCall(xs[i]) then s.dyn + {caller} else s.dyn
    decreases |xs|
  {
    if xs != [] {
      var init := xs[..|xs| - 1];
      CallEffectsFlags(s, root, caller, init);
      if exists i :: 0 <= i < |init| && IsDynamicCall(init[i]) {
        var i :| 0 <= i < |init| && IsDynamicCall(init[i]);
        assert xs[i] == init[i];
      }
      if exists i :: 0 <= i < |xs| && IsDynamicCall(xs[i]) {
        var i :| 0 <= i < |xs| && IsDynamicCall(xs[i]);
        if i < |init| {
          assert init[i] == xs[i];
        }
      }
    }
  }

  /** A call of a dynamic function flags the scope it is made in. */
  lemma DynamicCallFlagsCaller(s: Scan, ctx: Ctx, n: Ast)
    requires n.Call? && !s.failed && s.stack != []
    requires exists i :: 0 <= i < |n.func| && IsDynamicCall(n.func[i])
    ensures Top(s.stack) in Visited(s, ctx, n).dyn
  {
    CallEffectsFlags(s, ctx.root, Top(s.stack), n.func);
  }

  /** Some call in the tree may reach a dynamic function. */
  ghost predicate CallsDynamic(n: Ast)
    decreases n
  {
    || (n.Call? && exists i :: 0 <= i < |n.func| && IsDynamicCall(n.func[i]))
    || exists c :: c in Children(n) && CallsDynamic(c)
  }

  /** Only calls flag scopes: a tree without a dynamic call flags nothing. */
  lemma {:induction false} StaticTreeFlagsNothing(s: Scan, ctx: Ctx, n: Ast)
    requires !CallsDynamic(n)
    ensures Visited(s, ctx, n).dyn == s.dyn
    decreases n, 1
  {
    StaticChildrenFlagNothing(ctx, n, |Children(n)|);
    if !s.failed && n.Call? && s.stack != [] {
      CallEffectsFlags(s, ctx.root, Top(s.stack), n.func);
    } else if !s.failed && n.Module? {
      assert Visited(s, ctx, n) == ModuleVisited(s, ctx, n);
    } else if !s.failed && n.ClassDef? {
      assert Visited(s, ctx, n) == ClassVisited(s, ctx, n);
    } else if !s.failed && n.FunctionDef? {
      assert Visited(s, ctx, n) == FunctionVisited(s, ctx, n);
    }
  }

  lemma {:induction false} StaticChildrenFlagNothing(ctx: Ctx, n: Ast, k: nat)
    requires k <= |Children(n)| && !CallsDynamic(n)
    ensures forall s :: ChildrenVisited(s, ctx, n, k).dyn == s.dyn
    decreases n, 0, k
  {
    if k > 0 {
      StaticChildrenFlagNothing(ctx, n, k - 1);
      forall s
        ensures ChildrenVisited(s, ctx, n, k).dyn == s.dyn
      {
        var c := Children(n)[k - 1];
        assert c in Children(n);
        StaticTreeFlagsNothing(ChildrenVisited(s, ctx, n, k - 1), ctx, c);
      }
    }
  }

  /** A parsed file without dynamic calls has no flagged node. */
  lemma StaticFileHasNoFlags(filePath: Path, rootPath: Path, tree: Ast, nodes: seq<Node>)
    requires tree.Module? && IsUnder(filePath, rootPath) && !CallsDynamic(tree)
    requires var r := Visited(Fresh, Ctx(FileId(filePath, rootPath), rootPath), tree);
      !r.failed && FlagsApplied(r.nodes, nodes, r.dyn)
    ensures forall i :: 0 <= i < |nodes| ==> !nodes[i].metadata.containsDynamicCode
  {
    StaticTreeFlagsNothing(Fresh, Ctx(FileId(filePath, rootPath), rootPath), tree);
    ParsedFileIsClosed(filePath, rootPath, tree, nodes);
  }

  /* ---- Which symbols a step links to ---- */

  /** The targets of the edges `r` appended to `s`. */
  ghost function NewTargets(s: Scan, r: Scan): set<string>
    requires |s.edges| <= |r.edges|
  {
    set i | |s.edges| <= i < |r.edges| :: r.edges[i].target
  }

  /** The ids of the internal symbols among `xs`. */
  ghost function Linked(xs: seq<Inferred>, root: Path): set<string>
  {
    set x | x in xs && IsInternal(x, root) :: TargetId(x, root)
  }

  lemma NewTargetsSplit(a: Scan, b: Scan, c: Scan)
    requires |a.edges| <= |b.edges| <= |c.edges| && c.edges[..|b.edges|] == b.edges
    ensures NewTargets(a, c) == NewTargets(a, b) + NewTargets(b, c)
  {
    forall t | t in NewTargets(a, c)
      ensures t in NewTargets(a, b) + NewTargets(b, c)
    {
      var i :| |a.edges| <= i < |c.edges| && c.edges[i].target == t;
      if i < |b.edges| {
        assert b.edges[i] == c.edges[i];
      }
    }
    forall t | t in NewTargets(a, b)
      ensures t in NewTargets(a, c)
    {
      var i :| |a.edges| <= i < |b.edges| && b.edges[i].target == t;
      assert c.edges[i] == b.edges[i];
    }
  }

  lemma LinkedAppend(a: seq<Inferred>, b: seq<Inferred>, root: Path)
    ensures Linked(a + b, root) == Linked(a, root) + Linked(b, root)
  {
    assert forall x :: x in a + b <==> x in a || x in b;
  }

  /** The first appended edge, if any, has a new target. */
  lemma FirstNewTarget(s: Scan, r: Scan)
    requires |s.edges| <= |r.edges|
    ensures |r.edges| > |s.edges| ==> r.edges[|s.edges|].target in NewTargets(s, r)
  {
  }

  lemma NothingNew(s: Scan)
    ensures NewTargets(s, s) == {}
  {
  }

  /** A loop over `infer()` links exactly the internal symbols it yields. */
  lemma {:induction false} SymbolEdgesTargets(s: Scan, root: Path, source: string, xs: seq<Inferred>, t: EdgeType)
    ensures NewTargets(s, SymbolEdges(s, root, source, xs, t)) == Linked(xs, root)
    decreases |xs|
  {
    if xs == [] {
      NothingNew(s);
      assert Linked(xs, root) == {};
    } else {
      var init, x := xs[..|xs| - 1], xs[|xs| - 1];
      SymbolEdgesTargets(s, root, source, init, t);
      var p := SymbolEdges(s, root, source, init, t);
      var r := SymbolEdges(s, root, source, xs, t);
      NewTargetsSplit(s, p, r);
      assert xs == init + [x];
      LinkedAppend(init, [x], root);
      SymbolStepTargets(p, r, root, source, t, x);
    }
  }

  lemma SymbolStepTargets(p: Scan, r: Scan, root: Path, source: string, t: EdgeType, x: Inferred)
    requires |p.edges| <= |r.edges|
    requires !IsInternal(x, root) ==> r.edges == p.edges
    requires IsInternal(x, root) ==> r.edges == p.edges + [Edge(source, TargetId(x, root), t)]
    ensures NewTargets(p, r) == Linked([x], root)
  {
    if IsInternal(x, root) {
      assert Linked([x], root) == {TargetId(x, root)};
      assert r.edges[|p.edges|].target == TargetId(x, root);
      assert NewTargets(p, r) == {TargetId(x, root)};
    } else {
      assert Linked([x], root) == {};
      assert NewTargets(p, r) == {};
    }
  }

  /** The loop of `_visit_call` adds a CALLS edge to every internal callee
      except the calling scope itself. */
  lemma {:induction false} CallTargets(s: Scan, root: Path, caller: string, xs: seq<Inferred>)
    ensures NewTargets(s, CallEffects(s, root, caller, xs)) == Linked(xs, root) - {caller}
    decreases |xs|
  {
    if xs == [] {
      NothingNew(s);
      assert Linked(xs, root) == {};
    } else {
      var init, x := xs[..|xs| - 1], xs[|xs| - 1];
      CallTargets(s, root, caller, init);
      var p := CallEffects(s, root, caller, init);
      var r := CallEffects(s, root, caller, xs);
      NewTargetsSplit(s, p, r);
      assert xs == init + [x];
      LinkedAppend(init, [x], root);
      CallStepTargets(p, r, root, caller, x);
    }
  }

  lemma CallStepTargets(p: Scan, r: Scan, root: Path, caller: string, x: Inferred)
    requires |p.edges| <= |r.edges|
    requires x.Uninferable? || !IsInternal(x, root) || TargetId(x, root) == caller ==> r.edges == p.edges
    requires IsInternal(x, root) && TargetId(x, root) != caller ==>
      r.edges == p.edges + [Edge(caller, TargetId(x, root), Calls)]
    ensures NewTargets(p, r) == Linked([x], root) - {caller}
  {
    if IsInternal(x, root) {
      assert Linked([x], root) == {TargetId(x, root)};
      if TargetId(x, root) != caller {
        assert r.edges[|p.edges|].target == TargetId(x, root);
        assert NewTargets(p, r) == {TargetId(x, root)};
      } else {
        assert NewTargets(p, r) == {};
      }
    } else {
      assert Linked([x], root) == {};
      assert NewTargets(p, r) == {};
    }
  }

  /** The names an annotation mentions: a name or attribute, and inside a
      generic (`X[...]`), a tuple of type arguments, or a `|` union, the names
      of its parts. Any other expression mentions none. */
  function AnnotationSymbols(a: Ast): seq<Inferred>
    decreases a, 1
  {
    match a
    case Name(_, xs) => xs
    case Attribute(xs, _) => xs
    case Subscript(value, slice) => AnnotationSymbols(value) + AnnotationSymbols(slice)
    case Tuple(elts) => ElementSymbols(a, |elts|)
    case BinOp(op, left, right) => if op == "|" then AnnotationSymbols(left) + AnnotationSymbols(right) else []
    case _ => []
  }

  function ElementSymbols(tuple: Ast, k: nat): seq<Inferred>
    requires tuple.Tuple? && k <= |tuple.elts|
    decreases tuple, 0, k
  {
    if k == 0 then [] else ElementSymbols(tuple, k - 1) + AnnotationSymbols(tuple.elts[k - 1])
  }

  /** `_handle_annotation` adds a USES_TYPE edge to exactly the internal
      symbols the annotation mentions; when it mentions none, nothing changes. */
  lemma {:induction false} AnnotationTargets(s: Scan, root: Path, source: string, a: Ast)
    ensures NewTargets(s, Annotation(s, root, source, a)) == Linked(AnnotationSymbols(a), root)
    ensures Linked(AnnotationSymbols(a), root) == {} ==> Annotation(s, root, source, a) == s
    decreases a, 1
  {
    match a {
    case Name(_, xs) => SymbolEdgesTargets(s, root, source, xs, UsesType);
    case Attribute(xs, _) => SymbolEdgesTargets(s, root, source, xs, UsesType);
    case Subscript(value, slice) => PairTargets(s, root, source, a, value, slice);
    case Tuple(elts) => ElementsTargets(s, root, source, a, |elts|);
    case BinOp(op, left, right) =>
      if op == "|" {
        PairTargets(s, root, source, a, left, right);
      } else {
        NothingNew(s);
        assert Linked([], root) == {};
      }
    case _ =>
      NothingNew(s);
      assert Linked([], root) == {};
    }
    if Linked(AnnotationSymbols(a), root) == {} {
      NoTargetsNoChange(s, Annotation(s, root, source, a), source, UsesType);
    }
  }

  /** The walk of two sub-annotations in turn links the symbols of both. */
  lemma {:induction false} PairTargets(s: Scan, root: Path, source: string, a: Ast, x: Ast, y: Ast)
    requires x < a && y < a
    ensures NewTargets(s, Annotation(Annotation(s, root, source, x), root, source, y))
      == Linked(AnnotationSymbols(x) + AnnotationSymbols(y), root)
    decreases a, 0
  {
    var p := Annotation(s, root, source, x);
    AnnotationTargets(s, root, source, x);
    AnnotationTargets(p, root, source, y);
    NewTargetsSplit(s, p, Annotation(p, root, source, y));
    LinkedAppend(AnnotationSymbols(x), AnnotationSymbols(y), root);
  }

  /** Appending edges with no targets appends nothing. */
  lemma NoTargetsNoChange(s: Scan, r: Scan, source: string, t: EdgeType)
    requires EdgesAdded(s, r, source, t) && NewTargets(s, r) == {}
    ensures r == s
  {
    FirstNewTarget(s, r);
    assert r.edges == s.edges;
  }

  lemma {:induction false} ElementsTargets(s: Scan, root: Path, source: string, tuple: Ast, k: nat)
    requires tuple.Tuple? && k <= |tuple.elts|
    ensures NewTargets(s, Elements(s, root, source, tuple, k)) == Linked(ElementSymbols(tuple, k), root)
    decreases tuple, 0, k
  {
    if k == 0 {
      NothingNew(s);
      assert Linked([], root) == {};
    } else {
      var p := Elements(s, root, source, tuple, k - 1);
      var e := tuple.elts[k - 1];
      ElementsTargets(s, root, source, tuple, k - 1);
      AnnotationTargets(p, root, source, e);
      NewTargetsSplit(s, p, Elements(s, root, source, tuple, k));
      LinkedAppend(ElementSymbols(tuple, k - 1), AnnotationSymbols(e), root);
    }
  }

  /* ---- Assignments ---- */

  function NamedCount(targets: seq<Target>): nat
  {
    if targets == [] then 0
    else NamedCount(targets[..|targets| - 1]) + (if targets[|targets| - 1].Named? then 1 else 0)
  }

  /** `_handle_assign` adds one variable node and one CONTAINS edge per target
      that has a name, and nothing for the others. */
  lemma {:induction false} DeclareCounts(s: Scan, rel: string, scope: string, targets: seq<Target>)
    ensures var r := Declare(s, rel, scope, targets);
      && |r.nodes| == |s.nodes| + NamedCount(targets)
      && |r.edges| == |s.edges| + NamedCount(targets)
      && (forall i :: |s.nodes| <= i < |r.nodes| ==> r.nodes[i].nodeType == Variable)
      && (NamedCount(targets) == 0 ==> r == s)
    decreases |targets|
  {
    if targets != [] {
      var init := targets[..|targets| - 1];
      DeclareCounts(s, rel, scope, init);
      var p := Declare(s, rel, scope, init);
      var r := Declare(s, rel, scope, targets);
      assert forall i :: |s.nodes| <= i < |p.nodes| ==> r.nodes[i] == p.nodes[i];
    }
  }
}
