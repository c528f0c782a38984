# A Dafny model of the `dot` graph document library

This project models the in-memory document model of the Go package
`github.com/emicklei/dot`, which builds Graphviz DOT graphs, and proves the
properties its code and comments promise. It covers:

- **Graphs, nodes, edges and attributes.** A `Graph` is a class with an
  attribute map, an id, a strict flag, a graph type, a sequence counter,
  maps of nodes, edge buckets (keyed by the source node's id), subgraphs and
  same-rank groups, and a parent link. `Node` and `Edge` are values that
  share one `AttributesMap` object with every copy, exactly as Go's struct
  copies share one Go map. Graph options (`ClusterOption`, the `Strict`,
  `Undirected`, `Directed` and `Sub` type options) change the header.
  - Node lookup walks up the parent chain (`findNode`).
  - New nodes and subgraphs are numbered by the root's counter.
  - An edge is kept by the graph whose `Edge` is called when both
    endpoints belong to that one graph, and otherwise by the root of the
    from-node's graph.
- **Tree invariant.** A root graph records, in ghost state, every graph of
  its tree. Every mutator proves that it keeps the invariant of every graph.
- **The DOT writer.** `IndentedWrite` and `appendSortedMap` emit text in
  this order: subgraphs, the graph's attributes, nodes by sorted key, edges
  by sorted source key in bucket order, then rank groups. Attribute lists
  are sorted by key.
- **The Mermaid writer.** It builds the header and orientation, the shape
  delimiters, HTML-escaped labels, the connector with its `link` override,
  inline edge labels, and the direct subgraphs. A failed Go type assertion
  is an explicit `Panics` outcome.
- **The record label builder.** Fields, fields with a port id, `mrecord`,
  nesting through a LIFO stack of partial labels, and the recursive
  `a|{b|c}|d` printer.
- **The legacy `Digraph`** of `grammar.go`, with its own attribute map,
  node and edge types.
- **The `dotx` wrappers.** `Composite` and `Subsystem` decide whether an
  input or output edge goes on the inner or the outer graph, derive the
  `.svg` href and `.dot` file name, and refuse `ExportFile` for an embedded
  composite.

The modules follow the source files:

| file | module | models |
|---|---|---|
| text.dfy | `Text` | the Go library behaviour the core relies on: `%d`, `strings.Join`, `strings.ReplaceAll(_, " ", "_")`, `%q`, `html.EscapeString`, sorted string keys |
| outcome.dfy | `Outcomes` | `Option` and `Outcome` (a value or a Go panic) |
| attr.dfy | `Attributes` | attribute values and the shared `AttributesMap` of attr.go |
| dot.dfy | `Dot` | graph_options.go, node.go, edge.go and the state of graph.go |
| views.dfy | `Views` | a value snapshot of a graph tree, read by the writers |
| dot_writer.dfy | `DotWriter` | `String`, `IndentedWrite` and `appendSortedMap` |
| mermaid.dfy | `Mermaid` | mermaid.go |
| record.dfy | `Records` | record.go |
| grammar.dfy | `Grammar` | grammar.go |
| composite.dfy | `Composites` | dotx/composite.go |
| subsystem.dfy | `Subsystems` | dotx/subsystem.go |

The two writers do not walk the heap themselves. `Views.View(g)` freezes
the graph tree into a `GraphView` value. `DotWriter.String(g)` is proved to
return `DotText(View(g))` of the graph as it was before the call, and the
Mermaid entry points likewise. Nothing in the graph changes while Go writes
it, so this is the same text.

In Go, graph.go sets `fromPort` and `toPort` on an edge (graph.go:231-236),
but the `Edge` struct of edge.go:4-8 has no such fields. The model follows
graph.go and gives every edge two port strings.

## Model

| member | source | states |
|---|---|---|
| Text.NatToString | graph.go:128 | the `%d` numeral of a counter: decimal digits, no leading zero, one digit exactly below 10 |
| Text.ParseNatToString | graph.go:304 | reading the numeral back gives the number, so "n<seq>" names identify their node |
| Text.NatToStringInjective | graph.go:304 | two different sequence numbers never render as the same name |
| Text.Join | graph.go:238 | `strings.Join`: no parts give "", one part gives itself |
| Text.JoinPair | graph.go:238 | two labels are joined as first + "," + second |
| Text.JoinLength | graph.go:238 | the joined length is the sum of the parts plus one separator between each two |
| Text.JoinSnoc | graph.go:238 | joining one more part appends the separator and the part |
| Text.SpacesToUnderscores | dotx/composite.go:67-68 | same length; every space becomes "_", every other character is kept; no space is left |
| Text.Quote | graph.go:372 | `%q` output starts and ends with a double quote |
| Text.QuotePlain | graph.go:372 | a string of printable characters other than quote and backslash is quoted as itself |
| Text.QuoteBodyHasNoBareQuote | graph.go:372 | inside the quotes, every double quote is escaped by a preceding backslash |
| Text.HtmlEscape | mermaid.go:46-48 | the escaped text has no `<`, `>`, `"` or `'` and is never shorter |
| Text.HtmlEscapePlain | mermaid.go:46-48 | text without `< > & ' "` is left as it is |
| Text.HtmlEscapeRoundTrip | mermaid.go:46-48 | unescaping the entities `&lt; &gt; &amp; &#39; &#34;` gives back the original text |
| Text.LessTransitive | graph.go:357 | the string order used by `sort.Strings` is transitive |
| Text.LessTotal | graph.go:357 | any two different strings are ordered one way or the other |
| Text.MinimumExists | graph.go:357 | a non-empty key set has a smallest key |
| Text.Sorted | graph.go:353-357 | the sorted keys are strictly ascending and hold each key once |
| Text.SortedUnique | graph.go:353-357 | there is only one strictly ascending sequence of a key set |
| Text.Insert | graph.go:353-357 | inserting a new key into an ascending sequence keeps it ascending, with one more key |
| Text.SortedKeys | graph.go:353-357 | the loop that collects and sorts map keys returns exactly `Sorted(keys)` |
| Attributes.Put | attr.go:9-14 | an empty name changes nothing; otherwise the value is stored under the name, replacing the old one, and every other key is untouched |
| Attributes.AttributesMap.Attr | attr.go:9-14 | the shared map becomes `Put(old map, name, value)`; an empty value is stored like any other |
| Attributes.AttributesMap.GetAttributes | graph.go:437-444 | returns a copy equal to the map and changes nothing |
| Dot.GraphOption.Apply | graph_options.go:9-30 | applying an option changes the graph header exactly as `Applied` says, and nothing else |
| Dot.Applied | graph_options.go:24-30 | a cluster option prefixes the id with "cluster_"; "strict" sets the flag only; any other type option sets the graph type only |
| Dot.AppliedAllStrict | graph_options.go:25-28 | after a list of options the graph is strict iff it was strict or `Strict` was among them |
| Dot.AppliedAllLastTypeWins | graph.go:39-41 | the last option that names a type other than "strict" decides the graph type |
| Dot.AppliedAllKeepsType | graph_options.go:25-28 | options that name no type leave the graph type as it was |
| Dot.AppliedAllClusterPrefix | graph.go:80-82 | each cluster option adds one more "cluster_" prefix, so the option is not idempotent |
| Dot.Bucket | graph.go:243 | a missing key of the edge map reads as the empty bucket, as a nil Go slice does |
| Dot.Node.Attr | node.go:12-15 | sets the attribute in the map shared by every copy of the node and returns the same node |
| Dot.Node.Box | node.go:18-20 | exactly `Attr("shape", "box")` |
| Dot.Node.Edge | node.go:23-25 | the edge its graph's `Edge(n, to, labels)` makes: it starts at this node and is appended to its owner's bucket |
| Dot.Edge.Attr | edge.go:11-14 | sets the attribute in the map shared with the copy in the owner's bucket and returns the same edge |
| Dot.Edge.Label | edge.go:18-21 | exactly `Attr("label", value)` |
| Dot.Edge.Edge | edge.go:24-26 | a new edge from this edge's head to the argument, kept by the owner `Graph.Edge` picks |
| Dot.EdgeLabel | graph.go:237-239 | a new edge has no attributes, or only "label" holding the labels joined by "," when there are any |
| Dot.NewEdgeAttributes | graph.go:229-239 | the attribute map of a new edge is a fresh map holding `EdgeLabel(labels)` |
| Dot.EdgesToMembers | graph.go:255-261 | the filter used by `FindEdges` keeps exactly the edges whose head has the id |
| Dot.FirstIndexTo | graph.go:199-203 | the inner loop of `DeleteNode` stops at the first edge to the id, or at the end when there is none |
| Dot.RemoveFirstToAt | graph.go:199-203 | a bucket loses exactly the edge at that first index, so it is one shorter |
| Dot.RemoveFirstToNone | graph.go:199-203 | a bucket without an edge to the id is left as it is |
| Dot.RemoveFirstToKeepsOthers | graph.go:198-205 | no edge to another node is lost and no edge is added |
| Dot.RemoveIncoming | graph.go:198-205 | every bucket of the graph is visited, and only the first edge to the id is removed from each |
| Dot.Graph.Chain | graph.go:139-147 | the parent chain holds the graph and its parent's chain |
| Dot.Graph.Root | graph.go:85-90 | a parentless graph is its own root; otherwise the root is the parent's root, which has no parent |
| Dot.Graph.Header | graph.go:14-16 | the id, strict flag and graph type that the options change |
| Dot.Graph.NewGraph | graph.go:29-43 | a non-strict "digraph" with empty maps and counter 0, then the options applied in order; a valid tree of its own |
| Dot.Graph.Child | graph.go:126-132 | a new subgraph: type "subgraph", label = key, the options applied to id "s<k>", parent link set |
| Dot.Graph.ApplyAll | graph.go:39-41 | applying the options in order gives `AppliedAll(options, old header)` |
| Dot.Graph.ID | graph.go:66-72 | panics with Go's message, keeping the id, when the id is non-empty; otherwise sets it and returns the graph |
| Dot.Graph.BeCluster | graph.go:80-82 | prefixes the id with "cluster_" |
| Dot.Graph.FindSubgraph | graph.go:109-117 | a local subgraph wins; otherwise the parent's answer; found iff some graph of the chain has the key |
| Dot.Graph.FindNode | graph.go:139-147 | a local node wins; otherwise the parent's answer; none at a root that lacks it |
| Dot.Graph.FindNodeInChain | graph.go:139-147 | a node is found iff some graph of the parent chain holds the id, and it is that graph's node |
| Dot.Graph.FoundNodeOwned | graph.go:170-173 | in a valid tree the node found has the id and a graph of the chain in the same tree |
| Dot.Graph.NextSeq | graph.go:150-154 | increments the root's counter by exactly 1 and returns the new value; nothing else changes |
| Dot.Graph.Node | graph.go:170-187 | a node `findNode` finds is returned unchanged, and the counter stays; otherwise a new local node gets id, label = id and seq = old root counter + 1 |
| Dot.NodeTwice | graph.go:170-173 | asking twice for one id gives the same node, and the counter moves at most once |
| Dot.Graph.Subgraph | graph.go:121-137 | an existing key returns its subgraph and ignores the options; otherwise stores a new child under the key, numbered by the shared counter |
| Dot.Graph.Link | graph.go:132-135 | storing a new child keeps every graph of the tree valid |
| Dot.Graph.Enroll | graph.go:132 | the root records the new child as a member of its tree |
| Dot.Graph.Attach | graph.go:135 | the child is stored under its key and nothing else is changed |
| Dot.Graph.DeleteNode | graph.go:191-209 | false with no change when `findNode` misses; otherwise true, the local node and its bucket removed, and the first edge to the id removed from every other local bucket |
| Dot.Graph.RemoveFirstEdgesTo | graph.go:198-205 | the loop over the buckets leaves exactly `RemoveIncoming(old buckets, id)` |
| Dot.Graph.EdgeOwner | graph.go:222-225 | this graph when both endpoints share a graph, else the root of the first endpoint's graph |
| Dot.Graph.CommonParentOf | graph.go:265-268 | the root of the first graph |
| Dot.Graph.EdgeWithPorts | graph.go:220-245 | appends exactly one edge at the end of the owner's bucket of `from.id`; the other buckets are kept; ports and label as given |
| Dot.Graph.Edge | graph.go:214-216 | as `EdgeWithPorts` with no ports |
| Dot.Graph.FindEdges | graph.go:249-263 | exactly the edges of the owner's `from.id` bucket whose head has `to.id`, in bucket order, none when there is no bucket |
| Dot.Graph.AddToSameRank | graph.go:271-273 | appends the nodes to the named group, creating it when missing |
| Dot.Graph.HasNode | graph.go:433-435 | true iff the node's owning graph is this one; the three rows below tie that to where the node is stored |
| Dot.Graph.StoredNodeHasNode | graph.go:432-435 | in a valid tree, every node a graph stores itself is reported as its own |
| Dot.Graph.OtherGraphNodeNotHere | graph.go:432-435 | in a valid tree, a node stored by any other graph of the tree (a subgraph, an ancestor, a sibling) is not reported as this graph's |
| Dot.Graph.FoundNodeHereIffStored | graph.go:432-435 | the node `findNode` finds is this graph's own iff this graph, not an ancestor, stores it |
| Dot.NodeOwnership | graph.go:170-187 | after `Node(id)` the node is the graph's own iff the graph stored it already or no graph of the chain had the id and it was made here |
| Views.Freeze | graph.go:287-342 | the snapshot of a graph has its header, attributes, and the same keys of each map |
| Views.FindNodeById | graph.go:386-410 | true iff some graph of the tree holds a node with that id, though a hit among a graph's own nodes ends that graph's walk before its subgraphs |
| Views.VisitOwnNodes | graph.go:386-392 | the scan of one graph's nodes finds the id iff a node there has it |
| Views.LocalNodeFound | graph.go:399-410 | a node held by the graph itself is always found |
| DotWriter.AttrEntry | graph.go:367-375 | every entry is "key=" followed by the value as HTML, literal, quoted string or "%v" |
| DotWriter.AppendSortedMap | graph.go:344-383 | nothing for an empty map; otherwise the entries in ascending key order, in brackets with "," or with ";" after each |
| DotWriter.WriteEntries | graph.go:359-377 | the loop writes the entries of the given keys joined by the separator |
| DotWriter.AttrListSingle | graph.go:344-383 | one attribute is "[k=v]" bracketed and "k=v;" unbracketed |
| DotWriter.AttrListPair | graph.go:344-383 | two attributes appear in ascending key order separated by "," |
| DotWriter.Connector | graph.go:310-313 | "--" exactly for type "graph", "->" for every other type, subgraphs included |
| DotWriter.PortText | graph.go:317-324 | an empty port writes nothing, any other port ":" + port |
| DotWriter.IndentedWrite | graph.go:287-342 | the writer emits exactly `DotText`: header, subgraphs, attributes, sorted nodes, sorted buckets, rank groups, "}" |
| DotWriter.WriteSubgraphs | graph.go:294-297 | each subgraph of the given keys is written in turn |
| DotWriter.WriteNodes | graph.go:302-308 | each node is "n<seq>" with its bracketed attributes and ";" |
| DotWriter.WriteEdges | graph.go:314-330 | the buckets of the given keys are written in turn |
| DotWriter.WriteBucket | graph.go:316-329 | each edge is "n<a>[:p]<conn>n<b>[:q]" with its bracketed attributes and ";", in bucket order |
| DotWriter.WriteRanks | graph.go:331-338 | each group is "{rank=same; n<a>;n<b>;...};" |
| DotWriter.EmptyGraphText | graph.go:288-291 | an empty graph is "[strict ]<type> <id> {}", with "strict " only for strict non-subgraphs |
| DotWriter.EmptyGraphExamples | graph.go:288-291 | "digraph  {}", "strict graph  {}", and "subgraph s1 {}" for a strict subgraph |
| DotWriter.FlatText | graph.go:291-308 | a graph without subgraphs, attributes or ranks writes its header, nodes and edges |
| DotWriter.OneNodeText | graph.go:302-308 | one node writes "digraph  {n<seq>[attributes];}" |
| DotWriter.RecordNodeText | record_test.go:15 | the record test's golden text `digraph  {n1[label="a",shape="record"];}` |
| DotWriter.OneEdgeText | graph.go:310-325 | two nodes and one edge write "n1;n2;n1->n2;" for a digraph and "n1;n2;n1--n2;" for a graph |
| DotWriter.TwoNodesText | graph.go:302-308 | two nodes are written in ascending key order |
| DotWriter.String | graph.go:276-280 | the text of the graph as it was at the call, and the graph is not changed |
| Mermaid.OrientationCode | mermaid.go:54-65 | one of "TD", "BT", "RL", "LR" |
| Mermaid.OrientationCodes | mermaid.go:9-15 | "TD" exactly for orientations that are not BottomToTop, RightToLeft or LeftToRight, which give "BT", "RL", "LR" |
| Mermaid.Escape | mermaid.go:46-48 | a quoted string with no double quote inside |
| Mermaid.EscapeRoundTrip | mermaid.go:46-48 | unescaping between the quotes gives the original label |
| Mermaid.Then | mermaid.go:50-75 | writing two parts succeeds iff both do, and the first panic wins |
| Mermaid.ThenUnit | mermaid.go:50-75 | writing nothing before or after a part changes nothing |
| Mermaid.ThenAssociative | mermaid.go:50-75 | the grouping of sequential writes does not matter |
| Mermaid.NodeShape | mermaid.go:80-84 | round "(" ")" without a shape; a shape value's delimiters; a panic iff the attribute is not a shape |
| Mermaid.StringAttr | mermaid.go:85-88 | the default when missing, the string when a string, a panic iff the value is not a string |
| Mermaid.NodeText | mermaid.go:79-93 | a node line panics iff its shape, label or style has the wrong type; a style line follows when there is a style |
| Mermaid.PlainNodeText | mermaid.go:85-89 | a node without shape or style is round and shows its escaped label, or "?" without a label |
| Mermaid.DenoteEdge | mermaid.go:96-99 | "---" exactly for type "graph", "-->" otherwise |
| Mermaid.EdgeLabelText | mermaid.go:108-117 | no label iff it is missing or the empty string; a string label as it is; any other value by `%v` |
| Mermaid.EdgeText | mermaid.go:102-120 | an edge line panics iff its "link" is not a string |
| Mermaid.EdgeConnector | mermaid.go:103-107 | without a label the line is "\tn<a><conn>n<b>;\n", and a "link" string replaces the connector |
| Mermaid.Pruned | mermaid.go:68-73 | the view with its grandchildren removed keeps the same direct subgraphs |
| Mermaid.GrandchildrenIgnored | mermaid.go:68-73 | the diagram is the same with every grandchild subgraph removed |
| Mermaid.SubgraphsPartPruned | mermaid.go:77-122 | `diagramGraph` reads no subgraph of the graph it writes |
| Mermaid.SampleDiagram | mermaid.go:50-122 | a two-node, one-labelled-edge graph gives `graph TD;`, both round nodes in id order, and `n1-->|"what"|n2;` |
| Mermaid.WriteNodes | mermaid.go:79-93 | the loop writes the node lines of the given keys in order, stopping at the first panic |
| Mermaid.WriteBucket | mermaid.go:102-120 | the loop writes the edge lines of one bucket in order |
| Mermaid.WriteEdges | mermaid.go:100-121 | the loop writes the buckets of the given keys in order |
| Mermaid.DiagramGraph | mermaid.go:77-122 | emits exactly the nodes part and then the edges part of one graph |
| Mermaid.Diagram | mermaid.go:50-75 | header, then the graph, then each direct subgraph as "subgraph <key> [<label>];\n...end;\n" in key order, where the label is `LabelText`: the `%s` of the "label" attribute, or Go's `%!s(<nil>)` when there is none |
| Mermaid.MermaidGraph | mermaid.go:38-40 | the diagram of type "graph" of the graph as it was at the call |
| Mermaid.MermaidFlowchart | mermaid.go:42-44 | the diagram of type "flowchart" of the graph as it was at the call |
| Records.LeafText | record.go:57-62 | a field without an id is its content; with an id it is "<id> content" |
| Records.FieldTexts | record.go:27-34 | one text per field, in order |
| Records.LabelIsJoin | record.go:27-34 | a label is its field texts joined by "|"; an empty label is "" |
| Records.LabelTextSnoc | record.go:27-34 | one more field appends "|" and its text, or is the whole label when it is the first |
| Records.CountAppend | record.go:42-50 | brace counts add up over concatenation |
| Records.FieldBraces | record.go:42-50 | a nested field writes one "{" and one "}" per nesting, so braces balance |
| Records.LabelBraces | record.go:42-50 | a label of brace-free fields has exactly as many "{" and "}" as nestings |
| Records.Stack.constructor | record.go:127-128 | the stack starts empty |
| Records.Stack.Push | record.go:130-132 | the label goes on top |
| Records.Stack.Pop | record.go:133-137 | a non-empty stack returns its top and loses it |
| Records.PushPushPopPop | record.go:130-137 | push a, push b, then pop gives b, then a, and the stack is as before |
| Records.BuiltAppends | record.go:94-106 | the fields a block adds are appended after the fields already there |
| Records.ShapeAfter | record.go:65-68 | the shape is "mrecord" iff a step called `MRecord`, else unchanged |
| Records.RecordBuilder.constructor | record.go:17-23 | targets the node, shape "record", empty label and empty stack |
| Records.RecordBuilder.MRecord | record.go:65-68 | sets the shape to "mrecord" and keeps the label |
| Records.RecordBuilder.Field | record.go:71-79 | appends one field with an empty id |
| Records.RecordBuilder.FieldWithId | record.go:82-91 | appends one field with that id |
| Records.RecordBuilder.Nesting | record.go:94-106 | the stack depth is kept; exactly one nested field holding what the block built is appended |
| Records.RecordBuilder.Run | record.go:97 | running a block's steps gives `Built(steps, old label)` and leaves the stack as it was |
| Records.RecordBuilder.Label | record.go:116-125 | the label text of the current fields, with no state changed |
| Records.RecordBuilder.Build | record.go:109-113 | the target's map gets "shape" and then "label" |
| Records.TwoColumns | record_test.go:33-43 | `Field("a").Field("b")` gives "a|b" |
| Records.FieldWithPort | record_test.go:20-31 | `FieldWithId("a", "a1")` gives "<a1> a" |
| Records.NestedColumns | record_test.go:45-60 | a, nest(b, c), d gives "a|{b|c}|d" |
| Records.NestedRecord | record_test.go:45-60 | building that record sets label "a|{b|c}|d" and shape "record" |
| Records.PortRecord | record_test.go:20-31 | an mrecord with one port field sets label "<a1> a" and shape "mrecord" |
| Records.CallsMRecordSnoc | record.go:65-68 | a block calls `MRecord` iff its first steps or its last step do |
| Grammar.AttributesMap.constructor | grammar.go:83-84 | the map holds the initial attributes |
| Grammar.AttributesMap.Attr | grammar.go:15-20 | an empty name changes nothing; otherwise the value is stored under it |
| Grammar.Node.Attr | grammar.go:30-33 | sets the attribute in the shared map and returns the same node |
| Grammar.Node.Box | grammar.go:36-38 | exactly `Attr("shape", "box")` |
| Grammar.Node.Edge | grammar.go:41-43 | the digraph's `Edge(n, o, labels)`: appended to the bucket of this node |
| Grammar.Edge.Attr | grammar.go:53-56 | sets the attribute in the shared map and returns the same edge |
| Grammar.LabelsAttribute | grammar.go:100-102 | no attribute without labels, else "label" holding their join by "," |
| Grammar.QuoteValue | grammar.go:119 | `%q` writes a string, HTML, literal or other value between double quotes, and a shape struct between braces with its first and last field quoted |
| Grammar.EmptyDigraphText | grammar.go:109-144 | an empty digraph is "digraph {\n}" |
| Grammar.TwoConnectedNodesText | grammar_test.go:13-26 | nodes A, B and the edge A->B write the two node lines and "\tn1 -> n2;\n" |
| Grammar.SingleAttrText | grammar.go:112-123 | one attribute is written " [k=v]" |
| Grammar.LabelLine | grammar.go:110-125 | a labelled node line is "\tnode [label="txt"]; n<seq>;\n" |
| Grammar.Digraph.constructor | grammar.go:64-69 | counter 0 and empty maps |
| Grammar.Digraph.Node | grammar.go:73-89 | an existing node is returned unchanged; otherwise one with seq = counter + 1 and label = id is stored |
| Grammar.Digraph.Edge | grammar.go:93-104 | appends one edge to the bucket of `n1.id`; the label set afterwards shows through the shared map |
| Grammar.Digraph.String | grammar.go:107-146 | writes "digraph {\n", the node lines, the edge lines and "}" of the digraph as it was |
| Grammar.WriteNodes | grammar.go:110-125 | each node line is "\tnode[ [attrs]]; n<seq>;\n" |
| Grammar.WriteBucket | grammar.go:127-142 | each edge line is "\tn<a> -> n<b>[ [attrs]];\n" |
| Grammar.WriteEdges | grammar.go:126-143 | the buckets are written in turn |
| Grammar.WriteAttributes | grammar.go:112-123 | nothing without attributes, else " [" entries joined by ", " "]" |
| Grammar.EmptyDigraph | grammar_test.go:5-11 | a new digraph writes "digraph {\n}" |
| Grammar.TwoConnectedNodes | grammar_test.go:13-26 | nodes A and B with an edge write the expected four lines |
| Grammar.NodeTwice | grammar.go:73-77 | asking twice for one id gives the same node, and the counter moves at most once |
| Composites.ExportFilesShareBase | dotx/composite.go:66-71 | href and file name share one base, the name with spaces as "_", ending ".svg" and ".dot", with no space |
| Composites.ExportFilesPlain | dotx/composite.go:67-68 | a name without spaces gives name + ".svg" and name + ".dot" |
| Composites.ExportFilesOneSpace | dotx/composite.go:64-65 | "my example" becomes "my_example.svg" and "my_example.dot" |
| Composites.ShapedNode | dotx/composite.go:46 | `g.Node(id)` with "shape" set on its shared map |
| Composites.LabelledEdge | dotx/composite.go:92 | the edge from `from` to `to` with label = id, appended to its owner's bucket |
| Composites.ClusterGraph | dotx/composite.go:40 | `g.Subgraph(id, ClusterOption)`: the stored subgraph, a new one with id "cluster_s<k>" |
| Composites.DirectedGraph | dotx/composite.go:42 | a new empty non-strict root digraph |
| Composites.NewComposite | dotx/composite.go:37-52 | the inner graph is a cluster subgraph or a new root by kind; the outer node is `g.Node(id)` with shape "box3d" and href "<id>.svg"; the file is "<id>.dot" |
| Composites.Composite.ExportFilename | dotx/composite.go:54-57 | the recorded `.dot` file name: `DotFile(name)` after `ExportName(name)` (its ensures), and the name `ExportFile` writes (its `r.filename == dotFilename`) |
| Composites.Composite.ExportName | dotx/composite.go:66-71 | sets the outer node's href and the file name from the one base |
| Composites.Composite.Attr | dotx/composite.go:60-62 | sets the attribute on the outer node and returns it |
| Composites.Composite.ExportFile | dotx/composite.go:129-134 | refused with the source's message iff the kind is not ExternalGraph; otherwise the file name and the inner graph's text |
| Composites.Composite.Connect | dotx/composite.go:117-126 | a "point" port node and an edge port->node (input) or node->port (output) with ports "s"/"n" and "taillabel"/"headlabel" = port name |
| Composites.Composite.Input | dotx/composite.go:76-93 | an inner-graph node (by `StoredNodeHasNode` and `OtherGraphNodeNotHere`, in a valid tree one stored in the inner graph's own nodes) gets a port edge; any other source gets an inner "point" node and an outer edge to the outer node labelled id; a composite source stands for its outer node |
| Composites.Composite.Output | dotx/composite.go:98-115 | symmetric to Input: an inner edge to a port, or an outer edge from the outer node labelled id |
| Subsystems.NewSubsystem | dotx/subsystem.go:29-43 | a cluster subgraph or a new root by kind; the outer node has shape "box3d", the href and the file name |
| Subsystems.Subsystem.Attr | dotx/subsystem.go:46-48 | sets the attribute on the outer node and returns it |
| Subsystems.Subsystem.ExportName | dotx/subsystem.go:52-57 | the same href and file name derivation as a composite |
| Subsystems.Subsystem.Input | dotx/subsystem.go:62-69 | the inner route iff a node with that id is anywhere in the inner tree; the outer route makes no port node |
| Subsystems.Subsystem.Output | dotx/subsystem.go:74-81 | symmetric to Input |
| Subsystems.Subsystem.Connect | dotx/subsystem.go:83-91 | a "point" port node and an edge with ports "s"/"n" labelled "taillabel" or "headlabel" |
| Subsystems.Subsystem.ExportFile | dotx/subsystem.go:94-96 | returns the file name and the inner graph's text |
| Dot.RemoveAllTo | graph.go:197-205 | (corrected) the bucket without the edges to the id; its contract is the lemma in the next row |
| Dot.RemoveAllToMembers | graph.go:197-205 | (corrected) an edge is kept iff it was there and does not go to the id, so none to the id is left |
| Dot.RemoveAllIncoming | graph.go:197-205 | (corrected) every bucket loses every edge to the id |
| Dot.FilterEdgesTo | graph.go:199-203 | (corrected) the loop leaves `RemoveAllTo(bucket, id)` |
| Dot.Graph.RemoveAllEdgesTo | graph.go:198-205 | (corrected) the loop over the buckets leaves `RemoveAllIncoming(old buckets, id)` |
| Dot.Graph.DeleteNodeAndEdges | graph.go:189-209 | (corrected) `DeleteNode` with every incoming local edge removed |
| Dot.DeleteNodeKeepsParallelEdge | graph.go:198-205 | two parallel edges to the deleted node: one survives `DeleteNode`, none survives the corrected removal |

## Left out

- `xparser/parser.go` is a stub that returns an empty graph, so there is nothing to model.
- File and stream I/O are not modelled. `ExportFile` returns the file name and the text, not an `os.WriteFile` call (dotx/composite.go:133, dotx/subsystem.go:95).
- `Composite.Export` is not modelled: its logging and its build callback are I/O and a higher-order call (dotx/composite.go:139-145).
- The `bytes.Buffer` and `io.Writer` plumbing of `String`/`Write` is not modelled.
- DotWriter.IndentedWrite: DOT text is modelled without the tabs and newlines that `IndentWriter` adds. That writer is not part of this model.
- Node and edge initializer callbacks are not modelled. They are arbitrary Go functions, so the model behaves as if they are unset (graph.go:133-134, 181-183, 240-242).
- `WalkEdges`, `FindNodes` and `FindNodeWithLabel` are not modelled: their results depend on Go map iteration order.
- Views.FindNodeById states only whether a node with the id exists. Which node Go returns depends on map order.
- DotWriter.WriteRanks writes rank groups in ascending key order, one of the orders Go's map range can produce (graph.go:331).
- Grammar.Digraph.String writes nodes, buckets and attributes in ascending key order. Go iterates its maps in an unspecified order.
- Text.Quote: `%q` escapes quotes, backslashes and ASCII control characters as Go does and copies every other character. Go also escapes non-printable Unicode characters with `\u`, which is not modelled.
- Attributes.Format: `%v` of an arbitrary Go value is carried as text in the `Other` value variant.
- Grammar.QuoteValue, Mermaid.LabelText: an `Other` value is written as its plain `%v` text (for a number, its decimal digits), quoted by QuoteValue and bare by LabelText. For a Go `int`, `%q` gives a quoted rune literal and `%s` gives `%!s(int=…)`; neither is modelled.
- Go `nil` attribute values are not modelled. A missing key stands for nil.
- `DeepCopy` is not modelled: it clones the heap and rebuilds edge endpoints by id lookup, which leaves zero-value nodes for endpoints from other scopes.
- `Graph.Label`, `GetID`, `IsDirected`, `EdgesMap`, `NodeInitializer` and `EdgeInitializer` are not modelled. They are accessors and the callback setters above.
- DotWriter.String and the Mermaid entry points work on a value snapshot of the graph tree. They do not read the heap while writing.
- Mermaid.NodeText names a Go panic but does not reproduce the runtime's panic message.
- Records.RecordBuilder.Nesting takes its block as a sequence of builder steps (`Field`, `FieldWithId`, `MRecord`, a nested block), not as an arbitrary Go closure.
- Records.RecordBuilder.Build returns no value. The Go method always returns a nil error.
- Composites.Composite.Input, Composites.Composite.Output accept only a node or a composite, the two kinds the `Connectable` interface is documented for (dotx/composite.go:14). Any other type with an `Attr` method, such as `*Subsystem` (dotx/subsystem.go:46), also satisfies the interface. Given one, Go keeps a zero `dot.Node`, and both methods still add the inner "point" node (dotx/composite.go:90, 112). Input then panics in `Root()` on the zero node's nil graph (graph.go:86, 224, 267). Output does not panic: it adds to the outer root an edge whose head is the zero node, with an empty id and sequence number 0. Neither path is modelled.
- Composites.Composite.Input returns its port node as a ghost out-parameter: it is used only to state the result.
- Subsystems.Subsystem.Input returns its route choice as a ghost out-parameter, for the same reason.
- Subsystems.Subsystem.Input decides the route by `ContainsId` on a snapshot of the inner tree. `Views.FindNodeById` is proved to compute exactly that.
- Go `int` overflow of the sequence counters is not modelled: counters are unbounded naturals.
- graph_test.go, mermaid_test.go and ext/subsystem_test.go target other API versions and are not used as examples.

## Findings

| source | as written | input that shows it | evidently intended | confidence | as-written member | corrected member |
|---|---|---|---|---|---|---|
| graph.go:197-205 | for each bucket, the loop removes the first edge whose head is the deleted id and then `break`s | a bucket holding two edges "a"->"b"; `DeleteNode("b")` leaves one "a"->"b" edge to a node that no longer exists | the comment says "Remove all the edges to the Node": every such edge is removed | not executed | Dot.DeleteNodeKeepsParallelEdge | Dot.Graph.DeleteNodeAndEdges |
