/** Graph assembly (src/dependency_mapper/graph_builder.py): a builder object
    whose `graph` field is folded over the node list, then the edge list. */
module Builder {
  import opened JsonValue
  import opened Models
  import opened DiGraph

  function Ids(ns: seq<Node>): set<string>
  {
    set n | n in ns :: n.id
  }

  function Endpoints(es: seq<Edge>): set<string>
  {
    (set e | e in es :: e.source) + (set e | e in es :: e.target)
  }

  function Pairs(es: seq<Edge>): set<(string, string)>
  {
    set e | e in es :: (e.source, e.target)
  }

  /** The first loop of `build`: `add_node(node.id, **node.model_dump(mode='json'))` for each node in turn. */
  function AddNodes(g: Graph, ns: seq<Node>): Graph
    decreases |ns|
  {
    if ns == [] then g
    else
      var last := ns[|ns| - 1];
      AddNode(AddNodes(g, ns[..|ns| - 1]), last.id, NodeFields(last))
  }

  /** The second loop of `build`: `add_edge(edge.source, edge.target, type=edge.type.value)` for each edge in turn. */
  function AddEdges(g: Graph, es: seq<Edge>): Graph
    decreases |es|
  {
    if es == [] then g
    else
      var last := es[|es| - 1];
      AddEdge(AddEdges(g, es[..|es| - 1]), last.source, last.target, last.edgeType)
  }

  /** What `build` leaves in the graph: all nodes first, then all edges. */
  function Built(g: Graph, ns: seq<Node>, es: seq<Edge>): Graph
  {
    AddEdges(AddNodes(g, ns), es)
  }

  class GraphBuilder {
    var graph: Graph

    constructor ()
      ensures graph == EmptyGraph
    {
      graph := EmptyGraph;
    }

    /** Extends `graph` (it is never reset) and returns it. */
    method Build(nodes: seq<Node>, edges: seq<Edge>) returns (g: Graph)
      modifies this
      ensures graph == Built(old(graph), nodes, edges)
      ensures g == graph
    {
      AddNodeLoop(nodes);
      AddEdgeLoop(edges);
      g := graph;
    }

    /** The first loop of `build`. */
    method AddNodeLoop(nodes: seq<Node>)
      modifies this
      ensures graph == AddNodes(old(graph), nodes)
    {
      ghost var g0 := graph;
      var i := 0;
      while i < |nodes|
        invariant 0 <= i <= |nodes|
        invariant graph == AddNodes(g0, nodes[..i])
      {
        assert nodes[..i + 1][..i] == nodes[..i];
        graph := AddNode(graph, nodes[i].id, NodeFields(nodes[i]));
        i := i + 1;
      }
      assert nodes[..i] == nodes;
    }

    /** The second loop of `build`. */
    method AddEdgeLoop(edges: seq<Edge>)
      modifies this
      ensures graph == AddEdges(old(graph), edges)
    {
      ghost var g0 := graph;
      var j := 0;
      while j < |edges|
        invariant 0 <= j <= |edges|
        invariant graph == AddEdges(g0, edges[..j])
      {
        assert edges[..j + 1][..j] == edges[..j];
        graph := AddEdge(graph, edges[j].source, edges[j].target, edges[j].edgeType);
        j := j + 1;
      }
      assert edges[..j] == edges;
    }
  }

  /** The last position of `id` in the node list. */
  function LastIndexOf(ns: seq<Node>, id: string): (i: nat)
    requires id in Ids(ns)
    ensures i < |ns| && ns[i].id == id
    ensures forall j :: i < j < |ns| ==> ns[j].id != id
    decreases |ns|
  {
    if ns[|ns| - 1].id == id then |ns| - 1
    else
      assert id in Ids(ns[..|ns| - 1]) by {
        var k :| 0 <= k < |ns| && ns[k].id == id;
        assert ns[..|ns| - 1][k] == ns[k];
      }
      LastIndexOf(ns[..|ns| - 1], id)
  }

  /** The last position of the ordered pair `(s, t)` in the edge list. */
  function LastEdgeIndexOf(es: seq<Edge>, s: string, t: string): (i: nat)
    requires (s, t) in Pairs(es)
    ensures i < |es| && es[i].source == s && es[i].target == t
    ensures forall j :: i < j < |es| ==> (es[j].source, es[j].target) != (s, t)
    decreases |es|
  {
    var last := es[|es| - 1];
    if last.source == s && last.target == t then |es| - 1
    else
      assert (s, t) in Pairs(es[..|es| - 1]) by {
        var k :| 0 <= k < |es| && (es[k].source, es[k].target) == (s, t);
        assert es[..|es| - 1][k] == es[k];
      }
      LastEdgeIndexOf(es[..|es| - 1], s, t)
  }

  /** Every attribute dictionary holds only keys of a node dump (a placeholder holds none). */
  ghost predicate DumpShaped(g: Graph)
  {
    forall v :: v in g.nodes ==> g.nodes[v].Keys <= NodeKeys
  }

  lemma AddNodesShape(g: Graph, ns: seq<Node>)
    ensures AddNodes(g, ns).nodes.Keys == g.nodes.Keys + Ids(ns)
    ensures AddNodes(g, ns).edges == g.edges
    ensures DumpShaped(g) ==> DumpShaped(AddNodes(g, ns))
    ensures WellFormed(g) ==> WellFormed(AddNodes(g, ns))
  {
    AddNodesKeys(g, ns);
    if DumpShaped(g) {
      AddNodesShaped(g, ns);
    }
    if WellFormed(g) {
      AddNodesWellFormed(g, ns);
    }
  }

  lemma {:induction false} AddNodesKeys(g: Graph, ns: seq<Node>)
    ensures AddNodes(g, ns).nodes.Keys == g.nodes.Keys + Ids(ns)
    ensures AddNodes(g, ns).edges == g.edges
    decreases |ns|
  {
    if ns != [] {
      var init := ns[..|ns| - 1];
      var last := ns[|ns| - 1];
      AddNodesKeys(g, init);
      assert ns == init + [last];
      IdsSnoc(init, last);
    }
  }

  lemma {:induction false} AddNodesShaped(g: Graph, ns: seq<Node>)
    requires DumpShaped(g)
    ensures DumpShaped(AddNodes(g, ns))
    decreases |ns|
  {
    if ns != [] {
      var init := ns[..|ns| - 1];
      AddNodesShaped(g, init);
      NodeAddedShaped(AddNodes(g, init), ns[|ns| - 1]);
    }
  }

  lemma {:induction false} AddNodesWellFormed(g: Graph, ns: seq<Node>)
    requires WellFormed(g)
    ensures WellFormed(AddNodes(g, ns))
    decreases |ns|
  {
    if ns != [] {
      AddNodesWellFormed(g, ns[..|ns| - 1]);
    }
  }

  lemma IdsSnoc(init: seq<Node>, last: Node)
    ensures Ids(init + [last]) == Ids(init) + {last.id}
  {
    var ns := init + [last];
    assert forall n :: n in ns <==> n in init || n == last;
  }

  /** Adding a node's dump keeps every dictionary a dump or a placeholder. */
  lemma NodeAddedShaped(g: Graph, n: Node)
    requires DumpShaped(g)
    ensures DumpShaped(AddNode(g, n.id, NodeFields(n)))
  {
    var r := AddNode(g, n.id, NodeFields(n));
    forall v | v in r.nodes
      ensures r.nodes[v].Keys <= NodeKeys
    {
      if v != n.id {
        assert r.nodes[v] == g.nodes[v];
      }
    }
  }

  lemma EndpointsSnoc(init: seq<Edge>, last: Edge)
    ensures Endpoints(init + [last]) == Endpoints(init) + {last.source, last.target}
  {
    var es := init + [last];
    assert forall e :: e in es <==> e in init || e == last;
  }

  lemma PairsSnoc(init: seq<Edge>, last: Edge)
    ensures Pairs(init + [last]) == Pairs(init) + {(last.source, last.target)}
  {
    var es := init + [last];
    assert forall e :: e in es <==> e in init || e == last;
  }

  lemma AddEdgesShape(g: Graph, es: seq<Edge>)
    ensures AddEdges(g, es).nodes.Keys == g.nodes.Keys + Endpoints(es)
    ensures AddEdges(g, es).edges.Keys == g.edges.Keys + Pairs(es)
    ensures WellFormed(g) ==> WellFormed(AddEdges(g, es))
  {
    AddEdgesKeys(g, es);
    if WellFormed(g) {
      AddEdgesWellFormed(g, es);
    }
  }

  lemma AddEdgesKeys(g: Graph, es: seq<Edge>)
    ensures AddEdges(g, es).nodes.Keys == g.nodes.Keys + Endpoints(es)
    ensures AddEdges(g, es).edges.Keys == g.edges.Keys + Pairs(es)
  {
    AddEdgesNodeKeys(g, es);
    AddEdgesPairKeys(g, es);
  }

  lemma {:induction false} AddEdgesNodeKeys(g: Graph, es: seq<Edge>)
    ensures AddEdges(g, es).nodes.Keys == g.nodes.Keys + Endpoints(es)
    decreases |es|
  {
    if es != [] {
      var init := es[..|es| - 1];
      var last := es[|es| - 1];
      AddEdgesNodeKeys(g, init);
      assert es == init + [last];
      EndpointsSnoc(init, last);
    }
  }

  lemma {:induction false} AddEdgesPairKeys(g: Graph, es: seq<Edge>)
    ensures AddEdges(g, es).edges.Keys == g.edges.Keys + Pairs(es)
    decreases |es|
  {
    if es != [] {
      var init := es[..|es| - 1];
      var last := es[|es| - 1];
      AddEdgesPairKeys(g, init);
      assert es == init + [last];
      PairsSnoc(init, last);
    }
  }

  lemma {:induction false} AddEdgesWellFormed(g: Graph, es: seq<Edge>)
    requires WellFormed(g)
    ensures WellFormed(AddEdges(g, es))
    decreases |es|
  {
    if es != [] {
      AddEdgesWellFormed(g, es[..|es| - 1]);
    }
  }

  lemma {:induction false} AddEdgesKeepsAttrs(g: Graph, es: seq<Edge>)
    ensures forall v :: v in g.nodes ==> v in AddEdges(g, es).nodes && AddEdges(g, es).nodes[v] == g.nodes[v]
    ensures forall v :: v in AddEdges(g, es).nodes && v !in g.nodes ==> AddEdges(g, es).nodes[v] == map[]
    decreases |es|
  {
    if es != [] {
      var init := es[..|es| - 1];
      var last := es[|es| - 1];
      AddEdgesKeepsAttrs(g, init);
      var prev := AddEdges(g, init);
      var r := AddEdges(g, es);
      assert r == AddEdge(prev, last.source, last.target, last.edgeType);
      forall v | v in r.nodes && v !in g.nodes
        ensures r.nodes[v] == map[]
      {
        if v in prev.nodes {
          assert r.nodes[v] == prev.nodes[v];
        }
      }
    }
  }

  /** On a fresh builder, the node set is exactly the declared ids plus every edge endpoint. */
  lemma BuildNodeSet(ns: seq<Node>, es: seq<Edge>)
    ensures Built(EmptyGraph, ns, es).nodes.Keys == Ids(ns) + Endpoints(es)
  {
    AddNodesShape(EmptyGraph, ns);
    AddEdgesShape(AddNodes(EmptyGraph, ns), es);
  }

  /** Updating a dictionary with one that has every key it has replaces it. */
  lemma Overwritten(a: Attrs, b: Attrs)
    requires a.Keys <= b.Keys
    ensures a + b == b
  {
  }

  /** An id declared several times carries the dump of its last occurrence. */
  lemma {:induction false} AddNodesLastWins(g: Graph, ns: seq<Node>, i: nat)
    requires DumpShaped(g)
    requires i < |ns| && forall j :: i < j < |ns| ==> ns[j].id != ns[i].id
    ensures ns[i].id in AddNodes(g, ns).nodes
    ensures AddNodes(g, ns).nodes[ns[i].id] == NodeFields(ns[i])
    decreases |ns|
  {
    var init := ns[..|ns| - 1];
    var last := ns[|ns| - 1];
    var before := AddNodes(g, init);
    var after := AddNodes(g, ns);
    assert after == AddNode(before, last.id, NodeFields(last));
    if i == |ns| - 1 {
      AddNodesShape(g, init);
      if last.id in before.nodes {
        assert before.nodes[last.id].Keys <= NodeKeys;
        Overwritten(before.nodes[last.id], NodeFields(last));
      }
    } else {
      assert init[i] == ns[i];
      AddNodesLastWins(g, init, i);
      assert ns[i].id != last.id;
    }
  }

  /** A declared node's attributes are the JSON dump of its last declaration:
      edges added afterwards never replace them with a placeholder. */
  lemma DeclaredNodeLastWins(g: Graph, ns: seq<Node>, es: seq<Edge>, id: string)
    requires DumpShaped(g) && id in Ids(ns)
    ensures id in Built(g, ns, es).nodes
    ensures Built(g, ns, es).nodes[id] == NodeFields(ns[LastIndexOf(ns, id)])
  {
    AddNodesLastWins(g, ns, LastIndexOf(ns, id));
    AddEdgesKeepsAttrs(AddNodes(g, ns), es);
  }

  /** An edge endpoint that was neither declared nor already present becomes a
      node with an empty attribute dictionary; no edge is rejected. */
  lemma PlaceholderNodes(g: Graph, ns: seq<Node>, es: seq<Edge>, v: string)
    requires v in Endpoints(es) && v !in Ids(ns) && v !in g.nodes
    ensures v in Built(g, ns, es).nodes && Built(g, ns, es).nodes[v] == map[]
  {
    AddNodesShape(g, ns);
    AddEdgesShape(AddNodes(g, ns), es);
    AddEdgesKeepsAttrs(AddNodes(g, ns), es);
  }

  lemma {:induction false} AddEdgesLastWins(g: Graph, es: seq<Edge>, i: nat)
    requires i < |es|
    requires forall j :: i < j < |es| ==> (es[j].source, es[j].target) != (es[i].source, es[i].target)
    ensures (es[i].source, es[i].target) in AddEdges(g, es).edges
    ensures AddEdges(g, es).edges[(es[i].source, es[i].target)] == es[i].edgeType
    decreases |es|
  {
    if i < |es| - 1 {
      var init := es[..|es| - 1];
      assert init[i] == es[i];
      AddEdgesLastWins(g, init, i);
    }
  }

  /** There is one edge per ordered pair that occurs in the list, and its type
      is that of the last edge with that pair: different-typed parallel edges collapse. */
  lemma EdgeLastWins(g: Graph, ns: seq<Node>, es: seq<Edge>, s: string, t: string)
    requires (s, t) in Pairs(es)
    ensures (s, t) in Built(g, ns, es).edges
    ensures Built(g, ns, es).edges[(s, t)] == es[LastEdgeIndexOf(es, s, t)].edgeType
  {
    AddEdgesLastWins(AddNodes(g, ns), es, LastEdgeIndexOf(es, s, t));
  }

  /** `build` never drops what the graph already held, keeps it a well-formed
      graph whose dictionaries are dumps or placeholders, and adds an edge for
      exactly the listed pairs. */
  lemma BuildExtends(g: Graph, ns: seq<Node>, es: seq<Edge>)
    ensures Built(g, ns, es).nodes.Keys == g.nodes.Keys + Ids(ns) + Endpoints(es)
    ensures Built(g, ns, es).edges.Keys == g.edges.Keys + Pairs(es)
    ensures DumpShaped(g) ==> DumpShaped(Built(g, ns, es))
    ensures WellFormed(g) ==> WellFormed(Built(g, ns, es))
  {
    var mid := AddNodes(g, ns);
    AddNodesShape(g, ns);
    AddEdgesShape(mid, es);
    AddEdgesKeepsAttrs(mid, es);
    if DumpShaped(g) {
      var r := Built(g, ns, es);
      forall v | v in r.nodes
        ensures r.nodes[v].Keys <= NodeKeys
      {
        if v in mid.nodes {
          assert r.nodes[v] == mid.nodes[v];
        }
      }
    }
  }
}
