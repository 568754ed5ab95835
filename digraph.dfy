/** The part of a networkx `DiGraph` the core uses: a node map from id to
    attribute dictionary and a simple edge map keyed by the ordered
    (source, target) pair. The only edge attribute the core ever stores is
    `type`, so an edge's attribute dictionary is represented by its kind. */
module DiGraph {
  import opened JsonValue
  import opened Models

  type Attrs = map<string, Json>

  datatype Graph = Graph(nodes: map<string, Attrs>, edges: map<(string, string), EdgeType>)

  const EmptyGraph: Graph := Graph(map[], map[])

  /** Both endpoints of every edge are nodes, as in any networkx graph. */
  ghost predicate WellFormed(g: Graph)
  {
    forall e :: e in g.edges ==> e.0 in g.nodes && e.1 in g.nodes
  }

  /** `G.add_node(id, **attrs)`: a new id gets `attrs`; an existing id keeps its
      dictionary and has it updated with `attrs`. */
  function AddNode(g: Graph, id: string, attrs: Attrs): (r: Graph)
    ensures r.nodes.Keys == g.nodes.Keys + {id} && r.edges == g.edges
    ensures r.nodes[id].Keys == attrs.Keys + (if id in g.nodes then g.nodes[id].Keys else {})
    ensures forall k :: k in attrs ==> r.nodes[id][k] == attrs[k]
    ensures id in g.nodes ==> forall k :: k in g.nodes[id] && k !in attrs ==> r.nodes[id][k] == g.nodes[id][k]
    ensures forall v :: v in g.nodes && v != id ==> r.nodes[v] == g.nodes[v]
    ensures WellFormed(g) ==> WellFormed(r)
  {
    Graph(g.nodes[id := if id in g.nodes then g.nodes[id] + attrs else attrs], g.edges)
  }

  /** `G.add_edge(u, v, type=t)`: an endpoint that is not yet a node becomes one
      with an empty attribute dictionary, and the edge's `type` is set, replacing
      the type of an earlier edge between the same ordered pair. */
  function AddEdge(g: Graph, u: string, v: string, t: EdgeType): (r: Graph)
    ensures r.nodes.Keys == g.nodes.Keys + {u, v}
    ensures forall w :: w in g.nodes ==> r.nodes[w] == g.nodes[w]
    ensures forall w :: w in r.nodes && w !in g.nodes ==> r.nodes[w] == map[]
    ensures r.edges == g.edges[(u, v) := t]
    ensures WellFormed(g) ==> WellFormed(r)
  {
    var withU := if u in g.nodes then g.nodes else g.nodes[u := map[]];
    var withV := if v in withU then withU else withU[v := map[]];
    Graph(withV, g.edges[(u, v) := t])
  }
}
