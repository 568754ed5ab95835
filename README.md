# dependency_mapper in Dafny

A model of the core of `dependency_mapper`, a tool that turns a Python and
TypeScript code base into a dependency graph. It finds the source files
(`walkers.py`) and dispatches each one to a parser by its suffix
(`orchestrator.py`). The Python parser walks an astroid syntax tree
(`parsers/python_parser.py`). The TypeScript parser finds the governing
`tsconfig` and decodes the JSON an external Node.js script prints
(`parsers/typescript_parser.py`). The per-file node and edge lists
(`models.py`) are folded into a networkx `DiGraph` (`graph_builder.py`). That
graph is cut into topological layers or reported as cyclic (`api.py`), and it
is relabelled for DOT output (`serializers.py`).

Every source file is one module; a few helper modules hold what the code
borrows from Python's libraries:

- `Wrappers`: `Option` and `Result`, which stand for `None` and for raised exceptions.
- `Text`: `str.startswith`, `split`, `join`, `strip`.
- `Paths`: `pathlib` on absolute POSIX paths, as component sequences.
- `Fnmatch`: `fnmatch.fnmatch` with `*` and `?`.
- `JsonValue`: JSON values.
- `DiGraph`: the two networkx operations used, `add_node` and `add_edge`.

Inputs from the outside world become parameters:

- directory listings and the output of `git ls-files`;
- the `is_file` test;
- what the external TypeScript parser printed;
- what astroid inferred. Each syntax-tree node carries the sequence of
  symbols its `infer()` yields, each symbol with its kind, `qname()`, root
  module name and root file.

Where state is changed in place, the model is imperative and proved against a
specification function:

- `GraphBuilder` is a class whose `graph` field `Build` extends.
- `AstroidVisitor` is a class whose lists, scope stack and flag set the visit
  methods update. Each method is proved to leave the state that `Visited`
  computes from the old state.
- The loops of the walkers, the orchestrator, the layering, the DOT rewrite
  and the tsconfig search are loops with invariants.

An exception that escapes the Python visitor is a `failed` flag: once it is
set, every later step does nothing. `PythonParser.Parse` then returns empty
lists, as the `except Exception` of `parse` does.

The model follows the code:

- Entity ids are `rel__qname`, or `rel__<source text>` when the node has no `qname()` (assignment targets, for instance).
- The DOT label is the text after the last `:`. A placeholder is labelled
  with the text after the last `:` of its id.
- The internal-symbol test is corrected (see Findings): the visitor is modelled
  with the component-wise test. The text-prefix test as written is modelled
  beside it, and the lemmas named in Findings state where the two differ.

## Model

| member | source | states |
|---|---|---|
| Models.ParseNodeType | src/dependency_mapper/models.py:8-16 | a string names a node kind exactly when it is one of the eight values, and the kind found has that value |
| Models.ParseEdgeType | src/dependency_mapper/models.py:19-27 | a string names an edge kind exactly when it is one of the eight values, and the kind found has that value |
| Models.NodeTypeRoundTrip | src/dependency_mapper/models.py:8-16 | decoding a node kind's value gives the kind back |
| Models.EdgeTypeRoundTrip | src/dependency_mapper/models.py:19-27 | decoding an edge kind's value gives the kind back |
| Models.KindValuesDistinct | src/dependency_mapper/models.py:8-27 | within each enumeration no two kinds share a value |
| Models.ExactlyEightKinds | src/dependency_mapper/models.py:8-27 | there are eight node values and eight edge values |
| Models.DefaultMetadata | src/dependency_mapper/models.py:30-34 | metadata built from a path alone has no line numbers and is not flagged dynamic |
| Models.MetadataDefaults | src/dependency_mapper/models.py:30-34 | metadata JSON carrying only `file_path` validates to those defaults |
| Models.NodeFields | src/dependency_mapper/models.py:37-41 | a node's JSON dump has exactly the keys `id`, `type`, `name`, `metadata` |
| Models.NodeJsonRoundTrip | src/dependency_mapper/models.py:37-41 | validating a node's dump gives the node back |
| Models.EdgeJsonRoundTrip | src/dependency_mapper/models.py:44-47 | validating an edge's dump gives the edge back |
| Models.UnknownNodeTypeRejected | src/dependency_mapper/models.py:37-41 | node JSON whose `type` is not one of the eight values is rejected |
| Models.NodeFromJson | src/dependency_mapper/models.py:37-41 | only a JSON object can validate; a validated node carries the object's `id` and `name`, the kind whose value is its `type`, and its validated `metadata` |
| Models.EdgeFromJson | src/dependency_mapper/models.py:44-47 | only a JSON object can validate; a validated edge carries the object's `source` and `target` and the kind whose value is its `type` |
| Models.MarkDynamicScopes | src/dependency_mapper/parsers/python_parser.py:300-303 | the result is the input list, node for node, with the dynamic flag set on exactly the nodes whose id is listed and nothing else changed |
| Models.FlagsAppliedUnique | src/dependency_mapper/parsers/python_parser.py:300-303 | the flag pass has exactly one possible outcome |
| Models.NoIdsNoFlags | src/dependency_mapper/parsers/typescript_parser.py:76-79 | with no listed ids the flag pass changes nothing |
| DiGraph.AddNode | src/dependency_mapper/graph_builder.py:14 | a new id gets the attributes; an existing id keeps its other attributes and takes the new values; other nodes and all edges are unchanged |
| DiGraph.AddEdge | src/dependency_mapper/graph_builder.py:16 | missing endpoints become nodes with empty attributes, existing nodes keep theirs, and the pair's type is set, replacing any earlier one |
| Builder.GraphBuilder.constructor | src/dependency_mapper/graph_builder.py:9-10 | a new builder holds the empty graph |
| Builder.GraphBuilder.Build | src/dependency_mapper/graph_builder.py:12-17 | the field becomes the old graph with all nodes and then all edges added in list order, and it is returned; the graph is never reset |
| Builder.GraphBuilder.AddNodeLoop | src/dependency_mapper/graph_builder.py:13-14 | the loop over the nodes leaves the graph `AddNodes` gives: each id added or overwritten with its dump, in list order |
| Builder.GraphBuilder.AddEdgeLoop | src/dependency_mapper/graph_builder.py:15-16 | the loop over the edges leaves the graph `AddEdges` gives: each pair added or overwritten with its type, endpoints added when missing |
| Builder.BuildNodeSet | src/dependency_mapper/graph_builder.py:13-16 | on a fresh builder the node set is exactly the declared ids plus every edge endpoint |
| Builder.DeclaredNodeLastWins | src/dependency_mapper/graph_builder.py:13-16 | a declared id carries the dump of its last declaration, even when edges touching it come later |
| Builder.PlaceholderNodes | src/dependency_mapper/graph_builder.py:15-16 | an endpoint that was never declared becomes a node with an empty attribute map |
| Builder.EdgeLastWins | src/dependency_mapper/graph_builder.py:15-16 | each listed ordered pair has one edge, typed as the last edge in the list with that pair |
| Builder.BuildExtends | src/dependency_mapper/graph_builder.py:12-17 | a build adds exactly the declared ids, endpoints and pairs to what the graph already held, and keeps it a well-formed graph of dumps and placeholders |
| Api.IsGenerations | src/dependency_mapper/api.py:62 | every layer of a layering is a non-empty set of nodes, and there are no layers exactly when the graph has no nodes |
| Api.GetAnalysisLayers | src/dependency_mapper/api.py:46-67 | success gives the topological generations (non-empty layers, each the unplaced nodes whose predecessors are all placed, covering every node); failure carries the message for a cycle of the graph |
| Api.FindCycle | src/dependency_mapper/api.py:65 | from a non-empty set of nodes that all have a predecessor in it, a simple cycle of the graph (no node repeats) inside that set |
| Api.CycleMessage | src/dependency_mapper/api.py:66-67 | the message starts with the fixed prefix and ends by quoting the first node again |
| Api.QuotedAll | src/dependency_mapper/api.py:66 | every node id is wrapped in single quotes, in order |
| Api.GenerationsDisjoint | src/dependency_mapper/api.py:62 | no node is in two layers |
| Api.EdgeGoesForward | src/dependency_mapper/api.py:62 | every edge goes from a strictly earlier layer to a later one |
| Api.FirstLayerHasNoIncomingEdges | src/dependency_mapper/api.py:62 | layer 0 is exactly the nodes without incoming edges |
| Api.GenerationsAcyclic | src/dependency_mapper/api.py:57-67 | a graph that has generations has no cycle, so the error is raised exactly on cyclic graphs |
| Api.GenerationsUnique | src/dependency_mapper/api.py:62 | the generations of a graph are unique |
| Serializers.DotSerializer.Serialize | src/dependency_mapper/serializers.py:15-34 | without pydot the install-hint error; otherwise the relabelled copy, or an error naming a node whose `name` is not text; the caller's graph is a value and stays unchanged |
| Serializers.RelabelledShape | src/dependency_mapper/serializers.py:25-31 | after the rewrite no node has `name`, every node has its label, and nodes, edges and all other attributes are unchanged |
| Serializers.Relabel | src/dependency_mapper/serializers.py:28-31 | one node loses `name`, gains the label of its name (or of its id), and keeps every other attribute |
| Serializers.Label | src/dependency_mapper/serializers.py:29 | the label holds no `:` and ends the text |
| Serializers.LabelIsLastSegment | src/dependency_mapper/serializers.py:29 | the label holds no `:`, ends the text, and is the whole text or follows a `:` |
| Serializers.PlainNameIsLabel | src/dependency_mapper/serializers.py:29 | a name without `:` is its own label |
| Serializers.QualifiedNameLabel | src/dependency_mapper/serializers.py:29 | `prefix:simple` is labelled `simple` |
| Serializers.PlaceholderLabel | src/dependency_mapper/serializers.py:29 | a placeholder node gets its id's label and nothing else |
| Walkers.Ignored | src/dependency_mapper/walkers.py:45-53 | with no patterns nothing is ignored |
| Walkers.IgnoredBySet | src/dependency_mapper/walkers.py:47-52 | only the set of patterns matters: two pattern lists with the same members ignore the same paths, whatever their order or repeats |
| Walkers.FileSystemWalker.IsIgnored | src/dependency_mapper/walkers.py:45-53 | true exactly when some pattern matches the relative path, the name, or a component of the relative path |
| Walkers.FileSystemWalker.WalkFor | src/dependency_mapper/walkers.py:40-43 | one pass yields the entries, in walk order, whose name matches `*ext` and that are not ignored |
| Walkers.FileSystemWalker.Walk | src/dependency_mapper/walkers.py:38-43 | the passes for every extension, one after another in the set's iteration order |
| Walkers.WalkMember | src/dependency_mapper/walkers.py:38-43 | a path is yielded exactly when it is an entry, is not ignored, and its name ends with a supported extension |
| Walkers.NewFileSystemWalker | src/dependency_mapper/walkers.py:34-36 | an absent or empty pattern list falls back to the defaults; a given non-empty list is kept |
| Walkers.DefaultIgnoredIff | src/dependency_mapper/walkers.py:45-53 | with the default patterns a path is ignored exactly when a component starts with `.`, is one of the listed names, or ends in `.egg-info` |
| Walkers.DefaultPatternOnComponent | src/dependency_mapper/walkers.py:6 | a component matches a default pattern exactly when it starts with `.`, is a listed name, or ends in `.egg-info` |
| Walkers.GitFileWalker.Walk | src/dependency_mapper/walkers.py:14-30 | with git output, the kept lines of the stripped output joined below the root, in order; without it, exactly what a default filesystem walker yields |
| Walkers.GitPathsPerLine | src/dependency_mapper/walkers.py:25-27 | each line is kept or dropped on its own, so output order follows line order |
| Walkers.GitKeepsIff | src/dependency_mapper/walkers.py:26 | a line is kept exactly when it is non-empty and its last component ends with, and is longer than, a supported extension |
| Walkers.GitYieldsTrackedPath | src/dependency_mapper/walkers.py:25-27 | no ignore pattern applies: a tracked relative path with a supported suffix is yielded below the root whatever its components, `build` or `.venv` included |
| Walkers.GetFileWalker | src/dependency_mapper/walkers.py:56-59 | the git walker exactly when `.git` is a directory, otherwise a filesystem walker with the defaults |
| Orchestrator.ParserFor | src/dependency_mapper/orchestrator.py:15-21 | `.py` selects the Python parser and `.ts`, `.tsx`, `.js`, `.jsx` the TypeScript parser, by exact suffix |
| Orchestrator.MappingCoversSupportedExtensions | src/dependency_mapper/orchestrator.py:15-21 | the suffixes with a parser are exactly the walkers' supported extensions |
| Orchestrator.MappingIsCaseSensitive | src/dependency_mapper/orchestrator.py:29 | `.PY` and `.Ts` have no parser |
| Orchestrator.PathDuringParse | src/dependency_mapper/orchestrator.py:37-40 | for Python the root is on the search list, put in front only when absent; for TypeScript the list is unchanged |
| Orchestrator.ParseFileWorker | src/dependency_mapper/orchestrator.py:24-46 | an unknown suffix gives empty lists; otherwise what the parser gives under the adjusted search list; afterwards the list is exactly what it was |
| Orchestrator.RunParallelParsing | src/dependency_mapper/orchestrator.py:49-72 | succeeds exactly when no worker raised, and then gives the per-file lists concatenated in completion order |
| Orchestrator.NodesAppend | src/dependency_mapper/orchestrator.py:66-70 | aggregating two batches of results one after the other gives the concatenation of their node lists |
| Orchestrator.EdgesAppend | src/dependency_mapper/orchestrator.py:66-70 | the same for the edge lists |
| Orchestrator.CompletionOrderIrrelevant | src/dependency_mapper/orchestrator.py:66-70 | any reordering of the per-file results gives the same node and edge multisets |
| TypeScriptParser.FirstConfigIn | src/dependency_mapper/parsers/typescript_parser.py:24-27 | none exactly when no candidate exists; otherwise the first existing name in priority order |
| TypeScriptParser.NearestConfig | src/dependency_mapper/parsers/typescript_parser.py:18-29 | a configuration found is an existing file with one of the three names, in a directory that is the start directory or above it, never the filesystem root |
| TypeScriptParser.FindTsconfig | src/dependency_mapper/parsers/typescript_parser.py:18-29 | the result is the nearest configuration from the file's parent upwards |
| TypeScriptParser.NoConfigAnywhere | src/dependency_mapper/parsers/typescript_parser.py:22-29 | nothing is found exactly when no directory from the start up to, but excluding, the root has a candidate |
| TypeScriptParser.ConfigIsNearest | src/dependency_mapper/parsers/typescript_parser.py:22-28 | what is found is the first candidate of the deepest directory that has one, and no deeper directory has one |
| TypeScriptParser.RootNeverExamined | src/dependency_mapper/parsers/typescript_parser.py:23 | files directly in the filesystem root never change the result |
| TypeScriptParser.DecodeNodes | src/dependency_mapper/parsers/typescript_parser.py:71 | the nodes decode exactly when every item validates, one node per item in order |
| TypeScriptParser.DecodeEdges | src/dependency_mapper/parsers/typescript_parser.py:72 | the edges decode exactly when every item validates, one edge per item in order |
| TypeScriptParser.DecodeAll | src/dependency_mapper/parsers/typescript_parser.py:71-72 | a list decodes exactly when every item does, to one value per item in order |
| TypeScriptParser.IdSet | src/dependency_mapper/parsers/typescript_parser.py:75 | a list of ids gives a set exactly when every item is hashable, and the set holds its strings |
| TypeScriptParser.Parse | src/dependency_mapper/parsers/typescript_parser.py:38-95 | no configuration, a failed process, output that is not JSON, or output that does not decode all give empty lists; otherwise the decoded edges and the decoded nodes with exactly the listed ids flagged |
| TypeScriptParser.MissingKeysAreEmpty | src/dependency_mapper/parsers/typescript_parser.py:71-75 | an object without the three keys decodes to empty lists and no ids |
| TypeScriptParser.NonObjectOutputFails | src/dependency_mapper/parsers/typescript_parser.py:69-75 | output that is not a JSON object makes the parse fail |
| TypeScriptParser.DumpsDecode | src/dependency_mapper/parsers/typescript_parser.py:71-72 | dumped nodes and edges decode to themselves |
| TypeScriptParser.ListedIdDecodes | src/dependency_mapper/parsers/typescript_parser.py:74-79 | a node together with its id in `dynamicScopeIds` decodes to that node and that id |
| PythonParser.NodeId | src/dependency_mapper/parsers/python_parser.py:16-24 | an id starts with the relative path; it is the path alone exactly for a module, and otherwise continues with `__` and the qualified name (or source text) |
| PythonParser.FileId | src/dependency_mapper/parsers/python_parser.py:17 | the root itself is `.`; any other file's path text is the root's text, a `/`, and the id |
| PythonParser.NodeIdStartsWithPath | src/dependency_mapper/parsers/python_parser.py:16-24 | every id starts with its file's relative path |
| PythonParser.EntityIdsOfOneFile | src/dependency_mapper/parsers/python_parser.py:16-24 | in one file no entity id equals the module id, and two entity ids agree exactly when their qualified names (or texts) agree |
| PythonParser.IsInternalAsWritten | src/dependency_mapper/parsers/python_parser.py:69-96 | only an inferred symbol with a file can count; a `builtins.` qualified name or the `builtins` root never counts |
| PythonParser.TargetIdAsWritten | src/dependency_mapper/parsers/python_parser.py:111-113 | after the test as written, computing the id raises exactly when `relative_to` does; otherwise the id starts with the file id |
| PythonParser.IsInternal | src/dependency_mapper/parsers/python_parser.py:69-96 | every symbol the corrected test accepts is accepted as written too, and `relative_to` succeeds on its file |
| PythonParser.TargetId | src/dependency_mapper/parsers/python_parser.py:111-113 | the id starts with the file id, and equals it exactly for a module |
| PythonParser.InternalIsAsWrittenWithoutRaising | src/dependency_mapper/parsers/python_parser.py:69-96 | the component test accepts exactly the symbols the text test accepts without `relative_to` then raising, and gives them the same id |
| PythonParser.SiblingDirectorySymbolRaises | src/dependency_mapper/parsers/python_parser.py:90-94 | a symbol from `/proj2/m.py` passes the text test for the root `/proj`, and computing its id raises |
| PythonParser.ImportTargetAsWritten | src/dependency_mapper/parsers/python_parser.py:180-184 | a failed import or a module without a file adds nothing; raising happens only when `relative_to` fails; an edge goes to the file id of a module below the root |
| PythonParser.ImportTarget | src/dependency_mapper/parsers/python_parser.py:193-197 | an edge target exactly when the import resolved to a file that `relative_to` accepts, and then it is that file's id |
| PythonParser.ImportTargetAgrees | src/dependency_mapper/parsers/python_parser.py:175-199 | wherever the import code as written does not raise it links the corrected target, and every corrected import edge is one it also adds |
| PythonParser.SiblingDirectoryImportRaises | src/dependency_mapper/parsers/python_parser.py:180-184 | importing a module resolved to `/proj2/m.py` under the root `/proj` raises as written and links nothing once corrected |
| PythonParser.SymbolEdges | src/dependency_mapper/parsers/python_parser.py:110-114 | a loop over inferred symbols only appends edges of the given kind from the given source |
| PythonParser.GroupEdges | src/dependency_mapper/parsers/python_parser.py:108-116 | the same over the bases or decorators, one after another |
| PythonParser.Annotation | src/dependency_mapper/parsers/python_parser.py:224-249 | the annotation walk only appends USES_TYPE edges from the annotated scope |
| PythonParser.Annotations | src/dependency_mapper/parsers/python_parser.py:138-141 | the same over the argument annotations that are present |
| PythonParser.CallEffects | src/dependency_mapper/parsers/python_parser.py:150-172 | it may only flag the caller, and appends CALLS edges from the caller that never point back to it |
| PythonParser.VariableUses | src/dependency_mapper/parsers/python_parser.py:251-286 | it only appends USES_VARIABLE edges from the innermost scope, never to that scope, and appends none on an empty stack |
| PythonParser.AssignStep | src/dependency_mapper/parsers/python_parser.py:201-212 | an empty scope stack raises and adds nothing; otherwise one node per CONTAINS edge, all edges from the innermost scope, stack and flags unchanged |
| PythonParser.Declare | src/dependency_mapper/parsers/python_parser.py:201-212 | it appends unflagged nodes of this file and CONTAINS edges from the scope, each to one of the new nodes |
| PythonParser.ImportEdges | src/dependency_mapper/parsers/python_parser.py:175-199 | it only appends IMPORTS edges from the current file |
| PythonParser.Visited | src/dependency_mapper/parsers/python_parser.py:40-47 | the lists and the flags only grow, an escaped exception stops everything, and otherwise the scope stack is as before (push and pop balance) |
| PythonParser.ChildrenVisited | src/dependency_mapper/parsers/python_parser.py:45-47 | the same for visiting the children in order |
| PythonParser.FunctionHeader | src/dependency_mapper/parsers/python_parser.py:126-144 | the decorator and annotation steps only append edges, all leaving the function, and change nothing else |
| PythonParser.AstroidVisitor.constructor | src/dependency_mapper/parsers/python_parser.py:28-34 | empty lists, stack and flag set, for the file's relative path |
| PythonParser.AstroidVisitor.Visit | src/dependency_mapper/parsers/python_parser.py:36-38 | the state becomes the visit of the tree, and the fields are returned |
| PythonParser.AstroidVisitor.VisitRecursive | src/dependency_mapper/parsers/python_parser.py:40-43 | dispatch by node kind leaves the state `Visited` gives |
| PythonParser.AstroidVisitor.DefaultVisit | src/dependency_mapper/parsers/python_parser.py:45-47 | visiting the children in order leaves the state `ChildrenVisited` gives |
| PythonParser.AstroidVisitor.AddNode | src/dependency_mapper/parsers/python_parser.py:49-64 | appends one node of this file, unflagged, and returns its id |
| PythonParser.AstroidVisitor.AddEdge | src/dependency_mapper/parsers/python_parser.py:66-67 | appends one edge |
| PythonParser.AstroidVisitor.AddSymbolEdges | src/dependency_mapper/parsers/python_parser.py:110-114 | the loop over one `infer()` leaves the state `SymbolEdges` gives |
| PythonParser.AstroidVisitor.AddGroupEdges | src/dependency_mapper/parsers/python_parser.py:108-116 | the loop over bases or decorators leaves the state `GroupEdges` gives |
| PythonParser.AstroidVisitor.VisitModule | src/dependency_mapper/parsers/python_parser.py:98-102 | leaves the state `Visited` gives for a module |
| PythonParser.AstroidVisitor.VisitInScope | src/dependency_mapper/parsers/python_parser.py:146-148 | push the scope, visit the children, and pop unless an exception escaped |
| PythonParser.AstroidVisitor.VisitClassDef | src/dependency_mapper/parsers/python_parser.py:104-120 | leaves the state `Visited` gives for a class |
| PythonParser.AstroidVisitor.VisitFunctionDef | src/dependency_mapper/parsers/python_parser.py:122-148 | leaves the state `Visited` gives for a function |
| PythonParser.AstroidVisitor.HandleFunctionHeader | src/dependency_mapper/parsers/python_parser.py:126-144 | leaves the state `FunctionHeader` gives |
| PythonParser.AstroidVisitor.HandleArgumentAnnotations | src/dependency_mapper/parsers/python_parser.py:137-141 | the loop over the argument annotations leaves the state `Annotations` gives |
| PythonParser.AstroidVisitor.VisitCall | src/dependency_mapper/parsers/python_parser.py:150-173 | leaves the state `Visited` gives for a call |
| PythonParser.AstroidVisitor.VisitImport | src/dependency_mapper/parsers/python_parser.py:175-186 | leaves the state `Visited` gives for an import |
| PythonParser.AstroidVisitor.VisitImportFrom | src/dependency_mapper/parsers/python_parser.py:188-199 | leaves the state `Visited` gives for a from-import |
| PythonParser.AstroidVisitor.HandleAssign | src/dependency_mapper/parsers/python_parser.py:201-212 | leaves the state `AssignStep` gives |
| PythonParser.AstroidVisitor.VisitAssign | src/dependency_mapper/parsers/python_parser.py:214-216 | leaves the state `Visited` gives for an assignment |
| PythonParser.AstroidVisitor.VisitAnnAssign | src/dependency_mapper/parsers/python_parser.py:218-222 | leaves the state `Visited` gives for an annotated assignment |
| PythonParser.AstroidVisitor.HandleAnnotation | src/dependency_mapper/parsers/python_parser.py:224-249 | leaves the state `Annotation` gives |
| PythonParser.AstroidVisitor.HandleElements | src/dependency_mapper/parsers/python_parser.py:244-245 | the loop over the elements of a tuple annotation leaves the state `Elements` gives |
| PythonParser.AstroidVisitor.AddVariableUses | src/dependency_mapper/parsers/python_parser.py:253-266 | leaves the state `VariableUses` gives |
| PythonParser.AstroidVisitor.VisitAttribute | src/dependency_mapper/parsers/python_parser.py:251-267 | leaves the state `Visited` gives for an attribute |
| PythonParser.AstroidVisitor.VisitName | src/dependency_mapper/parsers/python_parser.py:269-286 | leaves the state `Visited` gives for a name |
| PythonParser.Parse | src/dependency_mapper/parsers/python_parser.py:294-308 | no tree, a file outside the root, or an escaped exception give empty lists; otherwise the visitor's edges and its nodes with exactly the flagged scopes flagged |
| PythonParserProofs.VisitedValid | src/dependency_mapper/parsers/python_parser.py:98-148 | a visit keeps the invariant: every node is of this file, every edge leaves a declared node, CONTAINS edges end at one, no CALLS or USES_VARIABLE self-loop, every scope on the stack and every flagged id is a declared node |
| PythonParserProofs.ParsedFileIsClosed | src/dependency_mapper/parsers/python_parser.py:294-305 | a parsed file's edges all leave its own nodes, nodes carry its path and an id starting with it, and a node is flagged exactly when its id was flagged |
| PythonParserProofs.DefinitionDeclared | src/dependency_mapper/parsers/python_parser.py:104-124 | a class or function yields its node next and, next, a CONTAINS edge from the innermost scope |
| PythonParserProofs.DeclareCounts | src/dependency_mapper/parsers/python_parser.py:209-212 | one variable node and one CONTAINS edge per named target; unnamed targets add nothing |
| PythonParserProofs.CallEffectsFlags | src/dependency_mapper/parsers/python_parser.py:157-160 | a call flags its caller exactly when the `qname()` of some inferred callee is one of the four strings `eval`, `exec`, `getattr`, `importlib.import_module` |
| PythonParserProofs.DynamicCallFlagsCaller | src/dependency_mapper/parsers/python_parser.py:150-160 | a dynamic call inside an open scope flags that scope |
| PythonParserProofs.StaticTreeFlagsNothing | src/dependency_mapper/parsers/python_parser.py:157-160 | a tree without dynamic calls flags nothing |
| PythonParserProofs.StaticFileHasNoFlags | src/dependency_mapper/parsers/python_parser.py:300-303 | a parsed file without dynamic calls has no flagged node |
| PythonParserProofs.SymbolEdgesTargets | src/dependency_mapper/parsers/python_parser.py:110-114 | the loop links exactly the internal symbols it is given |
| PythonParserProofs.CallTargets | src/dependency_mapper/parsers/python_parser.py:165-170 | a call links exactly its internal callees other than the calling scope |
| PythonParserProofs.AnnotationTargets | src/dependency_mapper/parsers/python_parser.py:224-249 | the annotation walk links exactly the internal symbols of the names inside generics, tuples and `|` unions, and changes nothing when there are none |
| PythonParserProofs.ElementsTargets | src/dependency_mapper/parsers/python_parser.py:243-245 | a tuple links exactly what its elements link |
| Paths.RelativeTo | src/dependency_mapper/parsers/python_parser.py:17 | `relative_to` succeeds exactly when the path is below the root, and the result appended to the root gives the path back |
| Paths.UnderHasTextPrefix | src/dependency_mapper/parsers/python_parser.py:93 | a path below the root has a text that starts with the root's text (the converse fails, see Findings) |

## Left out

- `cli.py`, `main.py`, `utils.py` and `parsers/base.py`: argument parsing, printing, file writing, the `PATH` lookup and an abstract interface, with no logic to verify.
- `generate_graph` in `api.py`: glue that calls the walker, the tool check, the pool and the builder.
- `JsonSerializer` and the DOT text that pydot prints: library encodings.
- The worker pool of `run_parallel_parsing`: it is concurrent. The model takes the per-file results in the order the pool hands them back, and proves that the multisets of aggregated nodes and edges do not depend on that order. The aggregated lists themselves follow the completion order, and so does the builder's last-write-wins on repeated ids and pairs.
- `git ls-files`, `rglob`, `is_file`, `is_dir` and the external Node.js parser: they are I/O. Their results are inputs.
- The Node.js script itself is not part of this model.
- astroid is a foreign library, so its parsing, inference, `lookup` and import resolution are data in the syntax tree. An `InferenceError` part-way through an `infer()` is modelled by the shorter sequence of symbols yielded before it.
- Node kinds without a `_visit_` method, such as async functions, are default-visited (`Other`).
- Logging, and the platform case folding of `fnmatch`'s `normcase` (the identity on POSIX).
- Fnmatch.Match: bracket classes (`[...]`) are not modelled, because no default pattern uses them. A user pattern containing a bracket is matched literally.
- Api.GetAnalysisLayers: layers are sets. The order of nodes inside a layer comes from networkx's insertion order and is not modelled.
- Api.FindCycle: it returns one particular cycle. Which cycle `nx.find_cycle` chooses is not modelled; only that it is a simple cycle and the message format are.
- Walkers.FileSystemWalker.Walk: the iteration order of the extension set is a parameter. It may be any order of the five extensions.
- Paths: paths are absolute POSIX component sequences. Windows paths, `..`, symbolic links and the root's `//` form are not modelled.
- Models.NodeFromJson: pydantic's lax coercions (numeric strings to integers, integers to booleans) and floats are not modelled. pydantic validates `file_path` into a `Path`, which normalises the text (`src//a.ts` and `./a.ts/` become `src/a.ts` and `a.ts`, the empty text becomes `.`); the model keeps the JSON text as it is.
- PythonParserProofs.CallEffectsFlags: a callee counts as dynamic when its `qname()` string is one of the four names. What astroid returns as the qualified name of a builtin (it names builtins with a `builtins.` prefix) is data in the model's syntax tree, so the model does not decide whether `eval`, `exec` or `getattr` can ever match.
- Models.MarkDynamicScopes: the source sets the flag on the node objects in place. The model returns the updated list, so aliasing between the visitor's list and the returned list is not captured.
- PythonParser.AstroidVisitor.constructor: requires the file to lie below the root. In the source the first `_add_node` raises instead, and `PythonParser.Parse` states that case (empty lists).
- PythonParser.Parse: `parse` ignores its `root_path` argument and uses the root given to the parser's constructor. The orchestrator passes the same root to both, so the model has one root. The `AstroidManager` cache is not modelled. Because the visitor uses the corrected internal test, a file with a symbol or import that resolves into a sibling directory of the root (`/proj2/m.py` for the root `/proj`) keeps its nodes and edges in the model, where the source returns `([], [])`.
- TypeScriptParser.Parse: the command line and the warnings written to stderr are not modelled. The external parser is a function of the tsconfig path that was found.

## Findings

| source | as written | input that shows it | evidently intended | confidence | as-written member | corrected member |
|---|---|---|---|---|---|---|
| src/dependency_mapper/parsers/python_parser.py:93 | `str(inferred_file).startswith(str(self.root_path))` accepts a file whose path only shares a text prefix with the root. `_get_node_id` then calls `relative_to`, whose `ValueError` no handler of the visitor catches, so `parse` returns empty lists for the whole file | root `/proj`; a base class, decorator, callee, annotation or variable inferred from `/proj2/m.py` | the symbol counts as internal only when its file lies inside the root directory; otherwise it is skipped as external | not executed | PythonParser.SiblingDirectorySymbolRaises | PythonParser.InternalIsAsWrittenWithoutRaising |
| src/dependency_mapper/parsers/python_parser.py:182 | the same text test guards `relative_to` in `_visit_import` (and at line 195 in `_visit_importfrom`). The `ValueError` is not an `AstroidError` or `ImportError`, so it escapes and the file yields empty lists | root `/proj`; `import m` resolved to `/proj2/m.py` | a module outside the root adds no IMPORTS edge and the rest of the file is still parsed | not executed | PythonParser.SiblingDirectoryImportRaises | PythonParser.ImportTargetAgrees |
