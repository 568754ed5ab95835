/** The label rewrite of `DotSerializer.serialize`
    (src/dependency_mapper/serializers.py): on a copy of the graph, every node
    gets a `label` attribute, the text after the last `:` of its `name` (or of
    its id when it has none), and loses its `name` attribute. The DOT text that
    pydot prints from the rewritten graph is not part of this model. */
module Serializers {
  import opened Wrappers
  import opened Text
  import opened JsonValue
  import opened DiGraph

  const MissingPydotMessage: string :=
    "DOT serialization requires pydot. Please install it using: pip install pydot"

  datatype DotError =
    | MissingLibrary(message: string)  // the ImportError raised when pydot is absent
    | NameNotText(node: string)        // `.split` on a `name` that is not a string

  /** `data.get('name', node)`: the text the label is cut from, if it is text. */
  function LabelSource(id: string, attrs: Attrs): Option<string>
  {
    if "name" !in attrs then Some(id)
    else if attrs["name"].JStr? then Some(attrs["name"].s)
    else None
  }

  /** `text.split(':')[-1]`. */
  function Label(text: string): (r: string)
    ensures ':' !in r && EndsWith(text, r)
  {
    LastPieceIsTail(text, ':');
    LastPiece(text, ':')
  }

  /** One node's dictionary after the loop body: `name` gone, `label` set,
      every other key kept with its value. */
  function Relabel(id: string, attrs: Attrs): (r: Attrs)
    requires LabelSource(id, attrs).Some?
    ensures "name" !in r && "label" in r
    ensures r["label"] == JStr(Label(LabelSource(id, attrs).value))
    ensures forall k :: k != "name" && k != "label" ==> (k in r <==> k in attrs) && (k in attrs ==> r[k] == attrs[k])
  {
    attrs["label" := JStr(Label(LabelSource(id, attrs).value))] - {"name"}
  }

  ghost predicate NamesAreText(g: Graph)
  {
    forall id :: id in g.nodes ==> LabelSource(id, g.nodes[id]).Some?
  }

  /** The graph that is handed to pydot. */
  function Relabelled(g: Graph): Graph
    requires NamesAreText(g)
  {
    Graph(map id | id in g.nodes :: Relabel(id, g.nodes[id]), g.edges)
  }

  /** A graph whose every node carries its rewritten dictionary is the rewritten graph. */
  lemma AllRelabelled(g: Graph, viz: Graph)
    requires viz.edges == g.edges && viz.nodes.Keys == g.nodes.Keys
    requires forall id :: id in g.nodes ==>
      LabelSource(id, g.nodes[id]).Some? && viz.nodes[id] == Relabel(id, g.nodes[id])
    ensures NamesAreText(g) && viz == Relabelled(g)
  {
    assert viz.nodes == Relabelled(g).nodes;
  }

  datatype DotSerializer = DotSerializer
  {
    /** `serialize(graph)` up to the DOT text: the missing library is reported
        before anything else; otherwise the rewritten copy, or the error of
        the first node whose `name` is not text. The argument is a value, so
        the caller's graph is never changed. */
    method Serialize(g: Graph, pydotAvailable: bool) returns (r: Result<Graph, DotError>)
      ensures !pydotAvailable ==> r == Err(MissingLibrary(MissingPydotMessage))
      ensures pydotAvailable && NamesAreText(g) ==> r == Ok(Relabelled(g))
      ensures pydotAvailable && !NamesAreText(g) ==>
        r.Err? && r.error.NameNotText? && r.error.node in g.nodes &&
        LabelSource(r.error.node, g.nodes[r.error.node]).None?
    {
      if !pydotAvailable {
        return Err(MissingLibrary(MissingPydotMessage));
      }
      var viz := g;
      var todo := g.nodes.Keys;
      while todo != {}
        invariant todo <= g.nodes.Keys
        invariant viz.edges == g.edges && viz.nodes.Keys == g.nodes.Keys
        invariant forall id :: id in todo ==> viz.nodes[id] == g.nodes[id]
        invariant forall id :: id in g.nodes && id !in todo ==>
          LabelSource(id, g.nodes[id]).Some? && viz.nodes[id] == Relabel(id, g.nodes[id])
        decreases todo
      {
        var id :| id in todo;
        var data := viz.nodes[id];
        var source := if "name" in data then data["name"] else JStr(id);
        if !source.JStr? {
          return Err(NameNotText(id));
        }
        data := data["label" := JStr(Label(source.s))];
        if "name" in data {
          data := data - {"name"};
        }
        assert data == Relabel(id, g.nodes[id]);
        viz := viz.(nodes := viz.nodes[id := data]);
        todo := todo - {id};
      }
      AllRelabelled(g, viz);
      return Ok(viz);
    }
  }

  /** After the rewrite no node has a `name`, every node has its label, and the
      node set, the edges and every other attribute are unchanged. */
  lemma RelabelledShape(g: Graph)
    requires NamesAreText(g)
    ensures Relabelled(g).nodes.Keys == g.nodes.Keys && Relabelled(g).edges == g.edges
    ensures forall id :: id in g.nodes ==>
      && "name" !in Relabelled(g).nodes[id]
      && "label" in Relabelled(g).nodes[id]
      && Relabelled(g).nodes[id]["label"] == JStr(Label(LabelSource(id, g.nodes[id]).value))
    ensures forall id, k :: id in g.nodes && k != "name" && k != "label" ==>
      (k in Relabelled(g).nodes[id] <==> k in g.nodes[id]) &&
      (k in g.nodes[id] ==> Relabelled(g).nodes[id][k] == g.nodes[id][k])
  {
    var r := Relabelled(g);
    assert r.nodes.Keys == g.nodes.Keys;
    forall id | id in g.nodes
      ensures "name" !in r.nodes[id] && "label" in r.nodes[id]
      ensures r.nodes[id]["label"] == JStr(Label(LabelSource(id, g.nodes[id]).value))
      ensures forall k :: k != "name" && k != "label" ==>
        (k in r.nodes[id] <==> k in g.nodes[id]) &&
        (k in g.nodes[id] ==> r.nodes[id][k] == g.nodes[id][k])
    {
      assert r.nodes[id] == Relabel(id, g.nodes[id]);
    }
  }

  /** The label is the text after the last `:`: it holds no `:`, ends the
      text, and is either the whole text or preceded by a `:`. */
  lemma LabelIsLastSegment(text: string)
    ensures ':' !in Label(text) && EndsWith(text, Label(text))
    ensures Label(text) == text || text[|text| - |Label(text)| - 1] == ':'
  {
    LastPieceIsTail(text, ':');
  }

  /** A name without `:` (such as "Foo") is its own label. */
  lemma PlainNameIsLabel(text: string)
    requires ':' !in text
    ensures Label(text) == text
  {
    LastPieceIsTail(text, ':');
  }

  /** A qualified name `prefix:simple` is labelled `simple`. */
  lemma QualifiedNameLabel(prefix: string, simple: string)
    requires ':' !in simple
    ensures Label(prefix + ":" + simple) == simple
  {
    assert prefix + ":" + simple == prefix + [':'] + simple;
    SplitAtSeparator(prefix, simple, ':');
    var tail := Split(simple, ':');
    assert |tail| == 1;
    JoinSplit(simple, ':');
  }

  /** A placeholder node (no `name`) is labelled from its id. */
  lemma PlaceholderLabel(id: string)
    ensures Relabel(id, map[]) == map["label" := JStr(Label(id))]
  {
  }
}
