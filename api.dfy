/** Topological layering (src/dependency_mapper/api.py, `get_analysis_layers`):
    the topological generations of the assembled graph, or a
    `CircularDependencyError` whose message spells out one cycle of the graph. */
module Api {
  import opened Wrappers
  import opened Text
  import opened DiGraph

  datatype CircularDependencyError = CircularDependencyError(message: string)

  /** The nodes of `remaining` with no incoming edge from a node of `remaining`. */
  function Sources(g: Graph, remaining: set<string>): set<string>
  {
    set v | v in remaining && forall u :: u in remaining ==> (u, v) !in g.edges
  }

  /** The nodes of all the given layers. */
  function UnionOf(layers: seq<set<string>>): set<string>
  {
    if layers == [] then {} else UnionOf(layers[..|layers| - 1]) + layers[|layers| - 1]
  }

  /** `layers` are the topological generations of `g`: layer k is non-empty and
      holds exactly the nodes not in earlier layers all of whose predecessors are
      in earlier layers, and together the layers hold every node. */
  ghost predicate IsGenerations(g: Graph, layers: seq<set<string>>)
    ensures IsGenerations(g, layers) ==> forall k :: 0 <= k < |layers| ==> layers[k] != {} && layers[k] <= g.nodes.Keys
    ensures IsGenerations(g, layers) ==> (layers == [] <==> g.nodes == map[])
  {
    && (forall k :: 0 <= k < |layers| ==>
          layers[k] != {} && layers[k] == Sources(g, g.nodes.Keys - UnionOf(layers[..k])))
    && UnionOf(layers) == g.nodes.Keys
  }

  /** A simple closed directed path: no node repeats, each node has an edge to
      the next, and the last to the first. */
  ghost predicate IsCycle(g: Graph, c: seq<string>)
  {
    && |c| > 0
    && (forall i, j :: 0 <= i < j < |c| ==> c[i] != c[j])
    && (forall i :: 0 <= i < |c| - 1 ==> (c[i], c[i + 1]) in g.edges)
    && (c[|c| - 1], c[0]) in g.edges
  }

  const CyclePrefix: string := "A circular dependency was detected: "

  function Quoted(id: string): string
  {
    "'" + id + "'"
  }

  function QuotedAll(ids: seq<string>): (r: seq<string>)
    ensures |r| == |ids| && forall i :: 0 <= i < |ids| ==> r[i] == Quoted(ids[i])
  {
    if ids == [] then [] else [Quoted(ids[0])] + QuotedAll(ids[1..])
  }

  /** The error message for the cycle u0 -> u1 -> ... -> uk -> u0: each node
      quoted, joined by " -> ", closed by the first node again. */
  function CycleMessage(cycle: seq<string>): (m: string)
    requires |cycle| > 0
    ensures StartsWith(m, CyclePrefix)
    ensures EndsWith(m, " -> " + Quoted(cycle[0]))
  {
    var tail := " -> " + Quoted(cycle[0]);
    var m := CyclePrefix + Join(QuotedAll(cycle), " -> ") + tail;
    assert m[..|CyclePrefix|] == CyclePrefix;
    assert m[|m| - |tail|..] == tail;
    m
  }

  /** `list(nx.topological_generations(graph))`, peeling the nodes without
      incoming edges from the nodes not yet placed; when some nodes remain but
      none can be peeled, the graph has a cycle and the error reports one. */
  method GetAnalysisLayers(g: Graph) returns (r: Result<seq<set<string>>, CircularDependencyError>)
    ensures r.Ok? ==> IsGenerations(g, r.value)
    ensures r.Err? ==> exists c :: IsCycle(g, c) && r.error.message == CycleMessage(c)
  {
    var remaining := g.nodes.Keys;
    var layers: seq<set<string>> := [];
    while remaining != {}
      invariant UnionOf(layers) <= g.nodes.Keys
      invariant remaining == g.nodes.Keys - UnionOf(layers)
      invariant forall k :: 0 <= k < |layers| ==>
        layers[k] != {} && layers[k] == Sources(g, g.nodes.Keys - UnionOf(layers[..k]))
      decreases remaining
    {
      var layer := Sources(g, remaining);
      if layer == {} {
        var cycle := FindCycle(g, remaining);
        return Err(CircularDependencyError(CycleMessage(cycle)));
      }
      var next := layers + [layer];
      assert next[..|layers|] == layers;
      assert forall k :: 0 <= k < |layers| ==> next[..k] == layers[..k];
      layers := next;
      remaining := remaining - layer;
    }
    return Ok(layers);
  }

  /** Walks backwards from a node of `stuck` (every node of which has a
      predecessor in `stuck`) until a node repeats; the repeated stretch, read
      forwards, is a cycle. */
  method FindCycle(g: Graph, stuck: set<string>) returns (cycle: seq<string>)
    requires stuck != {} && Sources(g, stuck) == {}
    ensures IsCycle(g, cycle)
    ensures forall i :: 0 <= i < |cycle| ==> cycle[i] in stuck
  {
    var x :| x in stuck;
    var path := [x];
    DistinctBound(path, stuck);
    while true
      invariant 1 <= |path| <= |stuck|
      invariant forall i :: 0 <= i < |path| ==> path[i] in stuck
      invariant forall i, j :: 0 <= i < j < |path| ==> path[i] != path[j]
      invariant forall i :: 0 <= i < |path| - 1 ==> (path[i + 1], path[i]) in g.edges
      decreases |stuck| - |path|
    {
      var last := path[|path| - 1];
      assert last !in Sources(g, stuck);
      var p :| p in stuck && (p, last) in g.edges;
      if p in path {
        var j :| 0 <= j < |path| && path[j] == p;
        cycle := seq(|path| - j, i requires 0 <= i < |path| - j => path[|path| - 1 - i]);
        return;
      }
      path := path + [p];
      DistinctBound(path, stuck);
    }
  }

  lemma {:induction false} DistinctBound(s: seq<string>, bound: set<string>)
    requires forall i :: 0 <= i < |s| ==> s[i] in bound
    requires forall i, j :: 0 <= i < j < |s| ==> s[i] != s[j]
    ensures |s| <= |bound|
  {
    if s != [] {
      var rest := s[1..];
      DistinctBound(rest, bound - {s[0]});
    }
  }

  lemma {:induction false} UnionMember(layers: seq<set<string>>, v: string)
    ensures v in UnionOf(layers) <==> exists k :: 0 <= k < |layers| && v in layers[k]
    decreases |layers|
  {
    if layers != [] {
      var init := layers[..|layers| - 1];
      UnionMember(init, v);
      if v in UnionOf(init) {
        var k :| 0 <= k < |init| && v in init[k];
        assert layers[k] == init[k];
      }
      if exists k :: 0 <= k < |layers| && v in layers[k] {
        var k :| 0 <= k < |layers| && v in layers[k];
        if k < |init| {
          assert init[k] == layers[k];
        }
      }
    }
  }

  /** The generations are pairwise disjoint: every node is in exactly one layer. */
  lemma GenerationsDisjoint(g: Graph, layers: seq<set<string>>, j: nat, k: nat)
    requires IsGenerations(g, layers)
    requires j < k < |layers|
    ensures layers[j] !! layers[k]
  {
    forall v | v in layers[j]
      ensures v !in layers[k]
    {
      assert layers[..k][j] == layers[j];
      UnionMember(layers[..k], v);
    }
  }

  /** The index of the layer holding `v`. */
  ghost function LayerOf(layers: seq<set<string>>, v: string): (k: nat)
    requires v in UnionOf(layers)
    ensures k < |layers| && v in layers[k]
  {
    UnionMember(layers, v);
    var k :| 0 <= k < |layers| && v in layers[k];
    k
  }

  /** Every edge goes from an earlier layer to a strictly later one, so no edge
      joins two nodes of one layer. */
  lemma EdgeGoesForward(g: Graph, layers: seq<set<string>>, u: string, v: string)
    requires WellFormed(g) && IsGenerations(g, layers)
    requires (u, v) in g.edges
    ensures LayerOf(layers, u) < LayerOf(layers, v)
  {
    var kv := LayerOf(layers, v);
    var ku := LayerOf(layers, u);
    var before := UnionOf(layers[..kv]);
    assert v in Sources(g, g.nodes.Keys - before);
    assert u in before;
    UnionMember(layers[..kv], u);
    var j :| 0 <= j < kv && u in layers[..kv][j];
    if ku != j {
      if ku < j {
        GenerationsDisjoint(g, layers, ku, j);
      } else {
        GenerationsDisjoint(g, layers, j, ku);
      }
    }
  }

  /** Layer 0 is exactly the set of nodes without incoming edges. */
  lemma FirstLayerHasNoIncomingEdges(g: Graph, layers: seq<set<string>>)
    requires WellFormed(g) && IsGenerations(g, layers) && |layers| > 0
    ensures layers[0] == set v | v in g.nodes && forall u :: (u, v) !in g.edges
  {
    assert layers[..0] == [];
  }

  lemma {:induction false} CycleClimbs(g: Graph, layers: seq<set<string>>, c: seq<string>, i: nat)
    requires WellFormed(g) && IsGenerations(g, layers) && IsCycle(g, c)
    requires i < |c|
    ensures c[i] in g.nodes && c[0] in g.nodes
    ensures LayerOf(layers, c[i]) >= LayerOf(layers, c[0]) + i
  {
    if i > 0 {
      CycleClimbs(g, layers, c, i - 1);
      EdgeGoesForward(g, layers, c[i - 1], c[i]);
    }
  }

  /** A graph that has generations has no cycle (so `GetAnalysisLayers` succeeds
      exactly on the acyclic graphs). */
  lemma GenerationsAcyclic(g: Graph, layers: seq<set<string>>, c: seq<string>)
    requires WellFormed(g) && IsGenerations(g, layers)
    ensures !IsCycle(g, c)
  {
    if IsCycle(g, c) {
      CycleClimbs(g, layers, c, |c| - 1);
      EdgeGoesForward(g, layers, c[|c| - 1], c[0]);
    }
  }

  /** Layer k is determined by the layers before it. */
  lemma LayerDetermined(g: Graph, a: seq<set<string>>, b: seq<set<string>>, k: nat)
    requires IsGenerations(g, a) && IsGenerations(g, b)
    requires k < |a| && k < |b| && a[..k] == b[..k]
    ensures a[k] == b[k]
  {
    assert a[k] == Sources(g, g.nodes.Keys - UnionOf(a[..k]));
    assert b[k] == Sources(g, g.nodes.Keys - UnionOf(b[..k]));
  }

  lemma PrefixStep(a: seq<set<string>>, b: seq<set<string>>, k: nat)
    requires 0 < k <= |a| && k <= |b|
    requires a[..k - 1] == b[..k - 1] && a[k - 1] == b[k - 1]
    ensures a[..k] == b[..k]
  {
    assert a[..k] == a[..k - 1] + [a[k - 1]];
    assert b[..k] == b[..k - 1] + [b[k - 1]];
  }

  lemma {:induction false} GenerationsAgreeUpTo(g: Graph, a: seq<set<string>>, b: seq<set<string>>, k: nat)
    requires IsGenerations(g, a) && IsGenerations(g, b)
    requires k <= |a| && k <= |b|
    ensures a[..k] == b[..k]
  {
    if k > 0 {
      GenerationsAgreeUpTo(g, a, b, k - 1);
      LayerDetermined(g, a, b, k - 1);
      PrefixStep(a, b, k);
    }
  }

  /** Layers stop exactly when every node has been placed. */
  lemma NoLayerAfterAll(g: Graph, layers: seq<set<string>>, n: nat)
    requires IsGenerations(g, layers) && n <= |layers|
    ensures UnionOf(layers[..n]) == g.nodes.Keys ==> n == |layers|
  {
    if n < |layers| {
      assert layers[n] != {} && layers[n] == Sources(g, g.nodes.Keys - UnionOf(layers[..n]));
      var v :| v in layers[n];
      assert v in g.nodes.Keys && v !in UnionOf(layers[..n]);
    }
  }

  /** The generations of a graph are unique: the layering does not depend on
      the order in which nodes and edges were inserted. */
  lemma GenerationsUnique(g: Graph, a: seq<set<string>>, b: seq<set<string>>)
    requires IsGenerations(g, a) && IsGenerations(g, b)
    ensures a == b
  {
    var n := if |a| < |b| then |a| else |b|;
    GenerationsAgreeUpTo(g, a, b, n);
    assert a[..|a|] == a && b[..|b|] == b;
    NoLayerAfterAll(g, a, n);
    NoLayerAfterAll(g, b, n);
  }
}
