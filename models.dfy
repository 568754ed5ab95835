/** The node/edge data model (src/dependency_mapper/models.py): the two closed
    kind enumerations with their string values, the three pydantic records with
    their defaults, their JSON dump (`model_dump(mode='json')`) and their
    construction from JSON (`Node(**data)`, `Edge(**data)`). */
module Models {
  import opened Wrappers
  import opened JsonValue

  datatype NodeType = File | Class | Function | Variable | Interface | Type | Enum | Namespace

  datatype EdgeType = Contains | Imports | Calls | Inherits | Implements | Decorates | UsesType | UsesVariable

  /** `NodeType.X.value`. */
  function NodeTypeValue(t: NodeType): string
  {
    match t
    case File => "file"
    case Class => "class"
    case Function => "function"
    case Variable => "variable"
    case Interface => "interface"
    case Type => "type"
    case Enum => "enum"
    case Namespace => "namespace"
  }

  /** `EdgeType.X.value`. */
  function EdgeTypeValue(t: EdgeType): string
  {
    match t
    case Contains => "contains"
    case Imports => "imports"
    case Calls => "calls"
    case Inherits => "inherits"
    case Implements => "implements"
    case Decorates => "decorates"
    case UsesType => "uses_type"
    case UsesVariable => "uses_variable"
  }

  const NodeTypeValues: set<string> :=
    {"file", "class", "function", "variable", "interface", "type", "enum", "namespace"}

  const EdgeTypeValues: set<string> :=
    {"contains", "imports", "calls", "inherits", "implements", "decorates", "uses_type", "uses_variable"}

  /** `NodeType(s)`: the kind whose value is `s`; any other string is rejected. */
  function ParseNodeType(s: string): (r: Option<NodeType>)
    ensures r.Some? <==> s in NodeTypeValues
    ensures r.Some? ==> NodeTypeValue(r.value) == s
  {
    if s == "file" then Some(File)
    else if s == "class" then Some(Class)
    else if s == "function" then Some(Function)
    else if s == "variable" then Some(Variable)
    else if s == "interface" then Some(Interface)
    else if s == "type" then Some(Type)
    else if s == "enum" then Some(Enum)
    else if s == "namespace" then Some(Namespace)
    else None
  }

  /** `EdgeType(s)`: the kind whose value is `s`; any other string is rejected. */
  function ParseEdgeType(s: string): (r: Option<EdgeType>)
    ensures r.Some? <==> s in EdgeTypeValues
    ensures r.Some? ==> EdgeTypeValue(r.value) == s
  {
    if s == "contains" then Some(Contains)
    else if s == "imports" then Some(Imports)
    else if s == "calls" then Some(Calls)
    else if s == "inherits" then Some(Inherits)
    else if s == "implements" then Some(Implements)
    else if s == "decorates" then Some(Decorates)
    else if s == "uses_type" then Some(UsesType)
    else if s == "uses_variable" then Some(UsesVariable)
    else None
  }

  /** Decoding a kind's value gives the kind back, so no two kinds share a value
      and the eight values are exactly the listed ones. */
  lemma NodeTypeRoundTrip(t: NodeType)
    ensures NodeTypeValue(t) in NodeTypeValues
    ensures ParseNodeType(NodeTypeValue(t)) == Some(t)
  {
  }

  lemma EdgeTypeRoundTrip(t: EdgeType)
    ensures EdgeTypeValue(t) in EdgeTypeValues
    ensures ParseEdgeType(EdgeTypeValue(t)) == Some(t)
  {
  }

  lemma KindValuesDistinct(a: NodeType, b: NodeType, c: EdgeType, d: EdgeType)
    ensures NodeTypeValue(a) == NodeTypeValue(b) ==> a == b
    ensures EdgeTypeValue(c) == EdgeTypeValue(d) ==> c == d
  {
    NodeTypeRoundTrip(a);
    NodeTypeRoundTrip(b);
    EdgeTypeRoundTrip(c);
    EdgeTypeRoundTrip(d);
  }

  lemma ExactlyEightKinds()
    ensures |NodeTypeValues| == 8 && |EdgeTypeValues| == 8
  {
  }

  /** `file_path` is kept as the text pydantic dumps for it. */
  datatype NodeMetadata = NodeMetadata(
    filePath: string,
    startLine: Option<int>,
    endLine: Option<int>,
    containsDynamicCode: bool)

  datatype Node = Node(id: string, nodeType: NodeType, name: string, metadata: NodeMetadata)

  datatype Edge = Edge(source: string, target: string, edgeType: EdgeType)

  /** `NodeMetadata(file_path=p)`: no line numbers and not dynamic. */
  function DefaultMetadata(filePath: string): (m: NodeMetadata)
    ensures m.filePath == filePath
    ensures m.startLine.None? && m.endLine.None? && !m.containsDynamicCode
  {
    NodeMetadata(filePath, None, None, false)
  }

  function OptionalIntJson(v: Option<int>): Json
  {
    if v.Some? then JInt(v.value) else JNull
  }

  function MetadataJson(m: NodeMetadata): Json
  {
    JObj(map[
      "file_path" := JStr(m.filePath),
      "start_line" := OptionalIntJson(m.startLine),
      "end_line" := OptionalIntJson(m.endLine),
      "contains_dynamic_code" := JBool(m.containsDynamicCode)])
  }

  /** The keys of a node's dump: the graph builder stores these as the node's attributes. */
  const NodeKeys: set<string> := {"id", "type", "name", "metadata"}

  /** `node.model_dump(mode='json')`, as a map from field name to value. */
  function NodeFields(n: Node): (f: map<string, Json>)
    ensures f.Keys == NodeKeys
  {
    map[
      "id" := JStr(n.id),
      "type" := JStr(NodeTypeValue(n.nodeType)),
      "name" := JStr(n.name),
      "metadata" := MetadataJson(n.metadata)]
  }

  function EdgeFields(e: Edge): map<string, Json>
  {
    map["source" := JStr(e.source), "target" := JStr(e.target), "type" := JStr(EdgeTypeValue(e.edgeType))]
  }

  /** The value of an optional field: absent means `default`. */
  function FieldOr(fields: map<string, Json>, key: string, default: Json): Json
  {
    if key in fields then fields[key] else default
  }

  function StringField(fields: map<string, Json>, key: string): Option<string>
  {
    if key in fields && fields[key].JStr? then Some(fields[key].s) else None
  }

  function OptionalIntField(v: Json): Option<Option<int>>
  {
    match v
    case JNull => Some(None)
    case JInt(i) => Some(Some(i))
    case _ => None
  }

  /** `NodeMetadata(**data)` on JSON data: `file_path` required, line numbers
      optional (null or absent), the flag optional with default false; unknown
      keys are ignored. `None` stands for pydantic's ValidationError or the
      TypeError of `**` on a non-mapping. */
  function MetadataFromJson(j: Json): Option<NodeMetadata>
  {
    if !j.JObj? then None
    else
      var f := j.fields;
      var path := StringField(f, "file_path");
      var start := OptionalIntField(FieldOr(f, "start_line", JNull));
      var end := OptionalIntField(FieldOr(f, "end_line", JNull));
      var dynamic := FieldOr(f, "contains_dynamic_code", JBool(false));
      if path.None? || start.None? || end.None? || !dynamic.JBool? then None
      else Some(NodeMetadata(path.value, start.value, end.value, dynamic.b))
  }

  /** `Node(**data)` on JSON data. */
  function NodeFromJson(j: Json): (r: Option<Node>)
    ensures !j.JObj? ==> r.None?
    ensures r.Some? ==>
      && StringField(j.fields, "id") == Some(r.value.id)
      && StringField(j.fields, "name") == Some(r.value.name)
      && StringField(j.fields, "type") == Some(NodeTypeValue(r.value.nodeType))
      && "metadata" in j.fields && MetadataFromJson(j.fields["metadata"]) == Some(r.value.metadata)
  {
    if !j.JObj? then None
    else
      var f := j.fields;
      var id := StringField(f, "id");
      var kind := StringField(f, "type");
      var name := StringField(f, "name");
      var meta := if "metadata" in f then MetadataFromJson(f["metadata"]) else None;
      if id.None? || kind.None? || name.None? || meta.None? then None
      else
        var t := ParseNodeType(kind.value);
        if t.None? then None else Some(Node(id.value, t.value, name.value, meta.value))
  }

  /** `Edge(**data)` on JSON data. */
  function EdgeFromJson(j: Json): (r: Option<Edge>)
    ensures !j.JObj? ==> r.None?
    ensures r.Some? ==>
      && StringField(j.fields, "source") == Some(r.value.source)
      && StringField(j.fields, "target") == Some(r.value.target)
      && StringField(j.fields, "type") == Some(EdgeTypeValue(r.value.edgeType))
  {
    if !j.JObj? then None
    else
      var f := j.fields;
      var source := StringField(f, "source");
      var target := StringField(f, "target");
      var kind := StringField(f, "type");
      if source.None? || target.None? || kind.None? then None
      else
        var t := ParseEdgeType(kind.value);
        if t.None? then None else Some(Edge(source.value, target.value, t.value))
  }

  /** Validating a dumped node gives the node back. */
  lemma NodeJsonRoundTrip(n: Node)
    ensures NodeFromJson(JObj(NodeFields(n))) == Some(n)
  {
    NodeTypeRoundTrip(n.nodeType);
    assert MetadataFromJson(MetadataJson(n.metadata)) == Some(n.metadata);
  }

  lemma EdgeJsonRoundTrip(e: Edge)
    ensures EdgeFromJson(JObj(EdgeFields(e))) == Some(e)
  {
    EdgeTypeRoundTrip(e.edgeType);
  }

  /** A node whose `type` string is not one of the eight values is rejected. */
  lemma UnknownNodeTypeRejected(j: Json)
    requires j.JObj? && StringField(j.fields, "type").Some?
    requires StringField(j.fields, "type").value !in NodeTypeValues
    ensures NodeFromJson(j).None?
  {
  }

  /** A metadata object that only carries `file_path` decodes to the defaults. */
  lemma MetadataDefaults(path: string)
    ensures MetadataFromJson(JObj(map["file_path" := JStr(path)])) == Some(DefaultMetadata(path))
  {
  }

  predicate HasId(n: Node, ids: set<string>)
  {
    n.id in ids
  }

  /** `after` is `before` with `contains_dynamic_code` set on the nodes whose
      id is in `ids`, and nothing else changed. */
  ghost predicate FlagsApplied(before: seq<Node>, after: seq<Node>, ids: set<string>)
  {
    && |after| == |before|
    && (forall i :: 0 <= i < |before| ==>
          after[i].metadata.containsDynamicCode == (before[i].metadata.containsDynamicCode || HasId(before[i], ids)))
    && (forall i :: 0 <= i < |before| ==>
          after[i] == before[i].(metadata := before[i].metadata.(containsDynamicCode := after[i].metadata.containsDynamicCode)))
  }

  /** The flag pass has exactly one possible outcome. */
  lemma FlagsAppliedUnique(before: seq<Node>, a: seq<Node>, b: seq<Node>, ids: set<string>)
    requires FlagsApplied(before, a, ids) && FlagsApplied(before, b, ids)
    ensures a == b
  {
  }

  /** With no ids the flag pass changes nothing. */
  lemma NoIdsNoFlags(before: seq<Node>, after: seq<Node>)
    requires FlagsApplied(before, after, {})
    ensures after == before
  {
    assert forall i :: 0 <= i < |before| ==> after[i] == before[i];
  }

  /** The post-pass both parsers run: `node.metadata.contains_dynamic_code = True`
      for every node whose id is in `ids`. The list's nodes are distinct objects,
      so updating them in place is the same as producing the updated list. */
  method MarkDynamicScopes(nodes: seq<Node>, ids: set<string>) returns (r: seq<Node>)
    ensures FlagsApplied(nodes, r, ids)
  {
    r := nodes;
    var i := 0;
    while i < |r|
      invariant 0 <= i <= |r| == |nodes|
      invariant forall k :: 0 <= k < i ==>
        r[k] == nodes[k].(metadata := nodes[k].metadata.(containsDynamicCode := nodes[k].metadata.containsDynamicCode || HasId(nodes[k], ids)))
      invariant forall k :: i <= k < |r| ==> r[k] == nodes[k]
    {
      if r[i].id in ids {
        r := r[i := r[i].(metadata := r[i].metadata.(containsDynamicCode := true))];
      }
      i := i + 1;
    }
  }
}
