/** The `Composite` wrapper of package dotx (dotx/composite.go): a graph that
    its outer graph shows as one box3d node, with edges that enter and leave
    it through point-shaped port nodes. */
module Composites {
  import opened Text
  import opened Attributes
  import opened Outcomes
  import opened Dot
  import opened Views
  import DotWriter

  /** `compositeGraphKind`: where the inner graph lives. */
  datatype Kind = SameGraph | ExternalGraph

  // ---------------------------------------------------------------------
  // Export names
  // ---------------------------------------------------------------------

  /** The link `ExportName` puts on the outer node: the name with every
      space replaced by an underscore, then ".svg". */
  function HrefFile(name: string): string {
    SpacesToUnderscores(name) + ".svg"
  }

  /** The file name `ExportName` records: the same base, then ".dot". */
  function DotFile(name: string): string {
    SpacesToUnderscores(name) + ".dot"
  }

  /** Both names keep the length of the name, share its base, in which
      every space has become an underscore and nothing else has changed,
      and differ only in the extension. */
  lemma ExportFilesShareBase(name: string)
    ensures |HrefFile(name)| == |name| + 4 && |DotFile(name)| == |name| + 4
    ensures HrefFile(name)[..|name|] == DotFile(name)[..|name|]
    ensures HrefFile(name)[|name|..] == ".svg" && DotFile(name)[|name|..] == ".dot"
    ensures forall i :: 0 <= i < |name| ==>
      HrefFile(name)[i] == if name[i] == ' ' then '_' else name[i]
    ensures forall i :: 0 <= i < |HrefFile(name)| ==> HrefFile(name)[i] != ' ' && DotFile(name)[i] != ' '
  {
    var base := SpacesToUnderscores(name);
    assert HrefFile(name)[..|name|] == base;
    assert DotFile(name)[..|name|] == base;
    assert HrefFile(name)[|name|..] == ".svg";
    assert DotFile(name)[|name|..] == ".dot";
  }

  /** A name without spaces is used as it is. */
  lemma {:induction false} ExportFilesPlain(name: string)
    requires forall i :: 0 <= i < |name| ==> name[i] != ' '
    ensures HrefFile(name) == name + ".svg" && DotFile(name) == name + ".dot"
  {
    assert SpacesToUnderscores(name) == name;
  }

  /** Two words joined by one space are joined by an underscore: "my
      example" is linked as "my_example.svg" and exported as
      "my_example.dot". */
  lemma ExportFilesOneSpace(a: string, b: string)
    requires forall i :: 0 <= i < |a| ==> a[i] != ' '
    requires forall i :: 0 <= i < |b| ==> b[i] != ' '
    ensures HrefFile(a + " " + b) == a + "_" + b + ".svg"
    ensures DotFile(a + " " + b) == a + "_" + b + ".dot"
  {
    var name := a + " " + b;
    var base := SpacesToUnderscores(name);
    assert base == a + "_" + b by {
      forall i | 0 <= i < |name| ensures base[i] == (a + "_" + b)[i] {
        if i < |a| { assert name[i] == a[i]; }
        else if i > |a| { assert name[i] == b[i - |a| - 1]; }
      }
    }
  }

  // ---------------------------------------------------------------------
  // Composites
  // ---------------------------------------------------------------------

  /** A `Connectable`: a node, or a composite that stands for its outer
      node. */
  datatype Connectable = NodeEnd(node: Node) | CompositeEnd(composite: Composite)

  /** The node an edge to or from a `Connectable` attaches to. */
  function EndNode(c: Connectable): Node {
    match c
    case NodeEnd(n) => n
    case CompositeEnd(x) => x.outerNode
  }

  /** The attribute map of a node that may be missing: besides a new
      node's own, the only map `Node(id).Attr(...)` changes. */
  function FoundMaps(o: Option<Node>): set<AttributesMap> {
    if o.Some? then {o.value.attributes} else {}
  }

  /** The buckets of the graph that keeps `e` after `e` was added: the
      edge is appended to the bucket of its tail's id, and every other
      bucket is as it was. */
  predicate Appended(before: map<string, seq<Edge>>, after: map<string, seq<Edge>>, e: Edge) {
    after == before[e.from.id := Bucket(before, e.from.id) + [e]]
  }

  /** What `ExportFile` does: refuses, or writes the DOT text of the inner
      graph to a file. */
  datatype ExportResult = Refused(message: string) | Written(filename: string, content: string)

  /** The attributes of a node that may be missing. */
  ghost function AttrsOf(o: Option<Node>): map<string, Value>
    reads if o.Some? then {o.value.attributes} else {}
  {
    if o.Some? then o.value.attributes.attributes else map[]
  }

  /** What `Node(id).Attr("shape", shape)` leaves in a graph that had the
      node map `nodesBefore` and the counter `seqBefore`, when `FindNode`
      had answered `found`: the node found, with the shape set on top of its
      attributes, and no other change; or else a new node of the graph,
      stored under its id, numbered by the counter and with only its label
      and the shape. */
  ghost predicate Shaped(g: Graph, id: string, shape: string, found: Option<Node>,
                         nodesBefore: map<string, Node>, seqBefore: nat, attrsBefore: map<string, Value>,
                         nodesAfter: map<string, Node>, seqAfter: nat, n: Node, attrsAfter: map<string, Value>)
  {
    match found
    case Some(m) =>
      && n == m && nodesAfter == nodesBefore && seqAfter == seqBefore
      && attrsAfter == Put(attrsBefore, "shape", Str(shape))
    case None =>
      && n.graph == g && n.id == id && n.seqNo == seqBefore + 1 && seqAfter == n.seqNo
      && nodesAfter == nodesBefore[id := n]
      && attrsAfter == map["label" := Str(id), "shape" := Str(shape)]
  }

  /** `g.Node(id).Attr("shape", shape)`: the node of the tree with that id,
      made in `g` when there is none, with the shape set. */
  method ShapedNode(g: Graph, id: string, shape: string) returns (n: Node)
    requires g.Rooted() && g.Valid()
    modifies g`nodes, g.Root()`seqNo, FoundMaps(g.FindNode(id))`attributes
    ensures Shaped(g, id, shape, old(g.FindNode(id)),
                   old(g.nodes), old(g.Root().seqNo), old(AttrsOf(g.FindNode(id))),
                   g.nodes, g.Root().seqNo, n, n.attributes.attributes)
    ensures n.id == id && n.graph.Rooted() && n.graph.Valid() && n.graph.Root() == g.Root()
    ensures fresh(n.attributes) || n.attributes in old(FoundMaps(g.FindNode(id)))
    ensures forall r: Graph {:trigger r.Valid()} {:trigger old(r.Valid())} :: old(allocated(r)) && r.Rooted() && old(r.Valid()) ==> r.Valid()
  {
    g.RootAllocated();
    ghost var before := g.FindNode(id);
    ghost var attrs := AttrsOf(before);
    if before.Some? {
      g.FoundNodeOwned(id);
    }
    n := g.Node(id);
    ghost var nodes, seqNo := g.nodes, g.Root().seqNo;
    assert before.Some? ==> n.attributes.attributes == attrs;
    n := n.Attr("shape", Str(shape));
    assert g.nodes == nodes && g.Root().seqNo == seqNo;
  }

  /** `from.Edge(to).Label(id)`: the edge between two composites or a
      composite and a node of the outer graph. */
  method LabelledEdge(from: Node, to: Node, id: string) returns (e: Edge)
    requires from.graph.Rooted() && from.graph.Valid() && to.graph.Rooted()
    modifies from.graph.EdgeOwner(from, to)`edgesFrom
    ensures e.graph == from.graph.EdgeOwner(from, to)
    ensures e.from == from && e.to == to && e.fromPort == "" && e.toPort == ""
    ensures fresh(e.attributes) && e.attributes.attributes == map["label" := Str(id)]
    ensures Appended(old(from.graph.EdgeOwner(from, to).edgesFrom), from.graph.EdgeOwner(from, to).edgesFrom, e)
    ensures forall r: Graph {:trigger r.Valid()} {:trigger old(r.Valid())} :: old(allocated(r)) && r.Rooted() && old(r.Valid()) ==> r.Valid()
  {
    e := from.Edge(to, []);
    e := e.Label(Str(id));
  }

  /** The chain of an existing graph exists. */
  lemma {:induction false} ChainAllocated(g: Graph)
    requires g.Rooted()
    ensures allocated(g.Chain())
    decreases g.depth
  {
    if g.parent != null {
      ChainAllocated(g.parent);
    }
  }

  /** Looking a node up depends only on the node maps along the chain. */
  twostate lemma {:induction false} FindNodeKept(g: Graph)
    requires g.Rooted() && old(allocated(g.Chain()))
    requires forall a :: a in g.Chain() ==> a.nodes == old(a.nodes)
    ensures forall name :: g.FindNode(name) == old(g.FindNode(name))
    decreases g.depth
  {
    if g.parent != null {
      assert g.parent.Chain() <= g.Chain();
      FindNodeKept(g.parent);
    }
  }

  /** The graph of a new composite in the same graph: the cluster
      subgraph `id` of `g`, made when it does not exist yet. */
  method ClusterGraph(id: string, g: Graph) returns (inner: Graph)
    requires g.Rooted() && g.Valid()
    modifies g`subgraphs, g.Root()`seqNo, g.Root()`members, g.Root()`height
    ensures inner.Rooted() && inner.Valid() && inner.Root() == g.Root()
    ensures id in g.subgraphs && g.subgraphs[id] == inner
    ensures g.FindNode(id) == old(g.FindNode(id))
    ensures id in old(g.subgraphs) ==>
      inner == old(g.subgraphs[id]) && g.subgraphs == old(g.subgraphs) && g.Root().seqNo == old(g.Root().seqNo)
    ensures id !in old(g.subgraphs) ==>
      && fresh(inner) && inner.parent == g && g.subgraphs == old(g.subgraphs)[id := inner]
      && g.Root().seqNo == old(g.Root().seqNo) + 1
      && inner.Header() == Head("cluster_s" + NatToString(g.Root().seqNo), false, "subgraph")
      && inner.attributes.attributes == map["label" := Str(id)]
      && inner.nodes == map[] && inner.edgesFrom == map[] && inner.subgraphs == map[]
    ensures forall r: Graph {:trigger r.Valid()} {:trigger old(r.Valid())} :: old(allocated(r)) && r.Rooted() && old(r.Valid()) ==> r.Valid()
  {
    ChainAllocated(g);
    g.RootAllocated();
    inner := g.Subgraph(id, [ClusterOption]);
    ClusterHead(g.Root().seqNo);
    FindNodeKept(g);
  }

  /** The header `ClusterOption` gives a subgraph numbered `k`. */
  lemma ClusterHead(k: nat)
    ensures AppliedAll([ClusterOption], Head("s" + NatToString(k), false, Sub.name))
         == Head("cluster_s" + NatToString(k), false, "subgraph")
  {
    assert [ClusterOption][..0] == [];
  }

  /** The graph of a new composite on its own: a new directed graph. */
  method DirectedGraph() returns (inner: Graph)
    ensures fresh(inner) && inner.Rooted() && inner.Valid() && inner.parent == null
    ensures inner.Header() == Head("", false, "digraph") && inner.attributes.attributes == map[]
    ensures inner.nodes == map[] && inner.edgesFrom == map[] && inner.subgraphs == map[]
    ensures forall r: Graph {:trigger r.Valid()} {:trigger old(r.Valid())} :: old(allocated(r)) && r.Rooted() && old(r.Valid()) ==> r.Valid()
  {
    inner := new Graph.NewGraph([Directed]);
    assert [Directed][..0] == [];
    StructureKept();
  }

  /** The outer node of a new composite, shaped "box3d", and the composite
      around it, linked to the export of the name. `shaped` are the node's
      attributes before the link. */
  method OuterComposite(id: string, g: Graph, inner: Graph, kind: Kind,
                        ghost found: Option<Node>, ghost nodes: map<string, Node>, ghost seqNo: nat,
                        ghost attrs: map<string, Value>)
    returns (c: Composite, ghost shaped: map<string, Value>)
    requires g.Rooted() && g.Valid()
    requires inner.Rooted() && inner.Valid()
    requires found == g.FindNode(id) && nodes == g.nodes && seqNo == g.Root().seqNo && attrs == AttrsOf(found)
    modifies g`nodes, g.Root()`seqNo, FoundMaps(found)`attributes
    ensures fresh(c) && c.inner == inner && c.kind == kind && c.outerGraph == g
    ensures inner.Valid()
    ensures Shaped(g, id, "box3d", found, nodes, seqNo, attrs, g.nodes, g.Root().seqNo, c.outerNode, shaped)
    ensures c.outerNode.attributes.attributes == Put(shaped, "href", Str(HrefFile(id)))
    ensures c.outerNode.id == id && c.outerNode.graph.Rooted() && c.outerNode.graph.Valid()
    ensures c.dotFilename == DotFile(id)
    ensures forall r: Graph {:trigger r.Valid()} {:trigger old(r.Valid())} :: old(allocated(r)) && r.Rooted() && old(r.Valid()) ==> r.Valid()
  {
    g.RootAllocated();
    var n := ShapedNode(g, id, "box3d");
    shaped := n.attributes.attributes;
    ghost var nodesAfter, seqAfter := g.nodes, g.Root().seqNo;
    c := new Composite.Make(inner, n, g, kind);
    c.ExportName(id);
    assert g.nodes == nodesAfter && g.Root().seqNo == seqAfter;
  }

  /** `NewComposite(id, g, kind)`: the inner graph, and the node `id` of
      `g` shaped "box3d" that stands for it, linked to the export of the
      name. */
  method NewComposite(id: string, g: Graph, kind: Kind) returns (c: Composite, ghost shaped: map<string, Value>)
    requires g.Rooted() && g.Valid()
    modifies g`subgraphs, g.Root()`seqNo, g.Root()`members, g.Root()`height, g`nodes, FoundMaps(g.FindNode(id))`attributes
    ensures fresh(c) && c.kind == kind && c.outerGraph == g
    ensures c.inner.Rooted() && c.inner.Valid()
    ensures kind == SameGraph ==>
      c.inner.Root() == g.Root() && id in g.subgraphs && g.subgraphs[id] == c.inner && (id !in old(g.subgraphs) ==> fresh(c.inner))
    ensures kind == ExternalGraph ==>
      fresh(c.inner) && c.inner.parent == null && c.inner.Header() == Head("", false, "digraph")
    ensures Shaped(g, id, "box3d", old(g.FindNode(id)),
                   old(g.nodes), old(g.Root().seqNo) + (if kind == SameGraph && id !in old(g.subgraphs) then 1 else 0),
                   old(AttrsOf(g.FindNode(id))),
                   g.nodes, g.Root().seqNo, c.outerNode, shaped)
    ensures c.outerNode.attributes.attributes == Put(shaped, "href", Str(HrefFile(id)))
    ensures c.outerNode.id == id && c.outerNode.graph.Rooted() && c.outerNode.graph.Valid()
    ensures c.dotFilename == DotFile(id)
    ensures forall r: Graph {:trigger r.Valid()} {:trigger old(r.Valid())} :: old(allocated(r)) && r.Rooted() && old(r.Valid()) ==> r.Valid()
  {
    if kind == SameGraph {
      c, shaped := SameGraphComposite(id, g);
    } else {
      c, shaped := ExternalComposite(id, g);
    }
  }

  /** `NewComposite` for the same graph. */
  method SameGraphComposite(id: string, g: Graph) returns (c: Composite, ghost shaped: map<string, Value>)
    requires g.Rooted() && g.Valid()
    modifies g`subgraphs, g.Root()`seqNo, g.Root()`members, g.Root()`height, g`nodes, FoundMaps(g.FindNode(id))`attributes
    ensures fresh(c) && c.kind == SameGraph && c.outerGraph == g
    ensures c.inner.Rooted() && c.inner.Valid()
    ensures c.inner.Root() == g.Root() && id in g.subgraphs && g.subgraphs[id] == c.inner && (id !in old(g.subgraphs) ==> fresh(c.inner))
    ensures Shaped(g, id, "box3d", old(g.FindNode(id)),
                   old(g.nodes), old(g.Root().seqNo) + (if id !in old(g.subgraphs) then 1 else 0),
                   old(AttrsOf(g.FindNode(id))),
                   g.nodes, g.Root().seqNo, c.outerNode, shaped)
    ensures c.outerNode.attributes.attributes == Put(shaped, "href", Str(HrefFile(id)))
    ensures c.outerNode.id == id && c.outerNode.graph.Rooted() && c.outerNode.graph.Valid()
    ensures c.dotFilename == DotFile(id)
    ensures forall r: Graph {:trigger r.Valid()} {:trigger old(r.Valid())} :: old(allocated(r)) && r.Rooted() && old(r.Valid()) ==> r.Valid()
  {
    ghost var found, nodes, attrs := g.FindNode(id), g.nodes, AttrsOf(g.FindNode(id));
    var inner := ClusterGraph(id, g);
    c, shaped := OuterComposite(id, g, inner, SameGraph, found, nodes, g.Root().seqNo, attrs);
  }

  /** `NewComposite` for an external graph. */
  method ExternalComposite(id: string, g: Graph) returns (c: Composite, ghost shaped: map<string, Value>)
    requires g.Rooted() && g.Valid()
    modifies g`nodes, g.Root()`seqNo, FoundMaps(g.FindNode(id))`attributes
    ensures fresh(c) && c.kind == ExternalGraph && c.outerGraph == g
    ensures c.inner.Rooted() && c.inner.Valid()
    ensures fresh(c.inner) && c.inner.parent == null && c.inner.Header() == Head("", false, "digraph")
    ensures Shaped(g, id, "box3d", old(g.FindNode(id)), old(g.nodes), old(g.Root().seqNo),
                   old(AttrsOf(g.FindNode(id))), g.nodes, g.Root().seqNo, c.outerNode, shaped)
    ensures c.outerNode.attributes.attributes == Put(shaped, "href", Str(HrefFile(id)))
    ensures c.outerNode.id == id && c.outerNode.graph.Rooted() && c.outerNode.graph.Valid()
    ensures c.dotFilename == DotFile(id)
    ensures forall r: Graph {:trigger r.Valid()} {:trigger old(r.Valid())} :: old(allocated(r)) && r.Rooted() && old(r.Valid()) ==> r.Valid()
  {
    ghost var found, nodes, attrs := g.FindNode(id), g.nodes, AttrsOf(g.FindNode(id));
    ChainAllocated(g);
    g.RootAllocated();
    var inner := DirectedGraph();
    c, shaped := OuterComposite(id, g, inner, ExternalGraph, found, nodes, g.Root().seqNo, attrs);
  }

  class Composite {
    /** The embedded `*dot.Graph`. */
    const inner: Graph
    const outerNode: Node
    const outerGraph: Graph
    const kind: Kind
    var dotFilename: string

    constructor Make(inner: Graph, outerNode: Node, outerGraph: Graph, kind: Kind)
      ensures this.inner == inner && this.outerNode == outerNode
      ensures this.outerGraph == outerGraph && this.kind == kind
      ensures dotFilename == ""
      ensures forall r: Graph {:trigger r.Valid()} {:trigger old(r.Valid())} :: old(allocated(r)) && r.Rooted() && old(r.Valid()) ==> r.Valid()
    {
      this.inner := inner;
      this.outerNode := outerNode;
      this.outerGraph := outerGraph;
      this.kind := kind;
      dotFilename := "";
      new;
      StructureKept();
    }

    /** `ExportFilename()`. */
    function ExportFilename(): string
      reads this
    {
      dotFilename
    }

    /** `ExportName(name)`: links the outer node to the ".svg" of the name
        and records the ".dot" file name. */
    method ExportName(name: string)
      modifies this`dotFilename, outerNode.attributes`attributes
      ensures outerNode.attributes.attributes == Put(old(outerNode.attributes.attributes), "href", Str(HrefFile(name)))
      ensures dotFilename == DotFile(name)
      ensures forall r: Graph {:trigger r.Valid()} {:trigger old(r.Valid())} :: old(allocated(r)) && r.Rooted() && old(r.Valid()) ==> r.Valid()
    {
      var _ := outerNode.Attr("href", Str(HrefFile(name)));
      dotFilename := DotFile(name);
    }

    /** `Attr(label, value)`: sets the attribute on the outer node and
        returns that node. */
    method Attr(name: string, value: Value) returns (n: Node)
      modifies outerNode.attributes`attributes
      ensures n == outerNode
      ensures outerNode.attributes.attributes == Put(old(outerNode.attributes.attributes), name, value)
      ensures forall r: Graph {:trigger r.Valid()} {:trigger old(r.Valid())} :: old(allocated(r)) && r.Rooted() && old(r.Valid()) ==> r.Valid()
    {
      n := outerNode.Attr(name, value);
    }

    /** `ExportFile()`: only a composite with an external graph is written,
        to its export file name; the write itself is not modelled. */
    method ExportFile() returns (r: ExportResult)
      requires kind == ExternalGraph ==> inner.Rooted() && inner.Valid()
      ensures r.Refused? <==> kind != ExternalGraph
      ensures r.Refused? ==> r.message == "ExportFile is only applicable to a ExternalGraph Composite"
      ensures r.Written? ==> r.filename == dotFilename && r.content == DotWriter.DotText(old(View(inner)))
    {
      if kind != ExternalGraph {
        return Refused("ExportFile is only applicable to a ExternalGraph Composite");
      }
      var text := DotWriter.String(inner);
      return Written(ExportFilename(), text);
    }

    /** `connect(portName, isInput, inner)`: the point node named after the
        port, and an edge between it and the node with the ports "s" and
        "n": from the port for an input, labelled "taillabel", and to the
        port for an output, labelled "headlabel". */
    method Connect(portName: string, isInput: bool, n: Node) returns (e: Edge)
      requires inner.Rooted() && inner.Valid() && n.graph == inner
      modifies inner`nodes, inner.Root()`seqNo, FoundMaps(inner.FindNode(portName))`attributes
      modifies inner`edgesFrom, inner.Root()`edgesFrom
      ensures Shaped(inner, portName, "point", old(inner.FindNode(portName)),
                       old(inner.nodes), old(inner.Root().seqNo), old(AttrsOf(inner.FindNode(portName))),
                       inner.nodes, inner.Root().seqNo, (if isInput then e.from else e.to), (if isInput then e.from else e.to).attributes.attributes)
      ensures (if isInput then e.to else e.from) == n
      ensures e.graph == (if (if isInput then e.from else e.to).graph == inner then inner else inner.Root())
      ensures e.fromPort == "s" && e.toPort == "n"
      ensures fresh(e.attributes)
      ensures e.attributes.attributes == map[(if isInput then "taillabel" else "headlabel") := Str(portName)]
      ensures e.graph == inner ==> Appended(old(inner.edgesFrom), inner.edgesFrom, e)
      ensures e.graph == inner.Root() ==> Appended(old(inner.Root().edgesFrom), inner.Root().edgesFrom, e)
      ensures forall r: Graph {:trigger r.Valid()} {:trigger old(r.Valid())} :: old(allocated(r)) && r.Rooted() && old(r.Valid()) ==> r.Valid()
    {
      inner.RootAllocated();
      var port := ShapedNode(inner, portName, "point");
      ghost var nodes, seqNo, attrs := inner.nodes, inner.Root().seqNo, port.attributes.attributes;
      e := PortEdge(portName, isInput, port, n);
      assert inner.nodes == nodes && inner.Root().seqNo == seqNo && port.attributes.attributes == attrs;
    }

    /** The edge `connect` adds once the port exists. */
    method PortEdge(portName: string, isInput: bool, port: Node, n: Node) returns (e: Edge)
      requires inner.Rooted() && inner.Valid() && n.graph == inner
      requires port.graph.Rooted() && port.graph.Root() == inner.Root()
      modifies inner`edgesFrom, inner.Root()`edgesFrom
      ensures (if isInput then e.from else e.to) == port && (if isInput then e.to else e.from) == n
      ensures e.graph == (if port.graph == inner then inner else inner.Root())
      ensures e.fromPort == "s" && e.toPort == "n"
      ensures fresh(e.attributes)
      ensures e.attributes.attributes == map[(if isInput then "taillabel" else "headlabel") := Str(portName)]
      ensures e.graph == inner ==> Appended(old(inner.edgesFrom), inner.edgesFrom, e)
      ensures e.graph == inner.Root() ==> Appended(old(inner.Root().edgesFrom), inner.Root().edgesFrom, e)
      ensures forall r: Graph {:trigger r.Valid()} {:trigger old(r.Valid())} :: old(allocated(r)) && r.Rooted() && old(r.Valid()) ==> r.Valid()
    {
      if isInput {
        e := inner.EdgeWithPorts(port, n, "s", "n", []);
        e := e.Attr("taillabel", Str(portName));
      } else {
        e := inner.EdgeWithPorts(n, port, "s", "n", []);
        e := e.Attr("headlabel", Str(portName));
      }
    }

    /** `Input(id, from)`: when the inner graph itself made the node `from`
        stands for, an inner edge from the port `id` to that node; otherwise
        the point node `id` in the inner graph, and an edge from that node to
        the outer node labelled `id`. `port` is the point node either way. */
    method Input(id: string, from: Connectable) returns (e: Edge, ghost port: Node)
      requires inner.Rooted() && inner.Valid()
      requires outerNode.graph.Rooted()
      requires EndNode(from).graph.Rooted() && EndNode(from).graph.Valid()
      modifies inner`nodes, inner.Root()`seqNo, FoundMaps(inner.FindNode(id))`attributes
      modifies inner`edgesFrom, inner.Root()`edgesFrom
      modifies EndNode(from).graph`edgesFrom, EndNode(from).graph.Root()`edgesFrom
      ensures Shaped(inner, id, "point", old(inner.FindNode(id)),
                       old(inner.nodes), old(inner.Root().seqNo), old(AttrsOf(inner.FindNode(id))),
                       inner.nodes, inner.Root().seqNo, port, port.attributes.attributes)
      ensures inner.HasNode(EndNode(from)) ==>
        && e.from == port && e.to == EndNode(from)
        && e.fromPort == "s" && e.toPort == "n"
        && e.attributes.attributes == map["taillabel" := Str(id)]
        && e.graph == (if port.graph == inner then inner else inner.Root())
      ensures !inner.HasNode(EndNode(from)) ==>
        && e.from == EndNode(from) && e.to == outerNode
        && e.fromPort == "" && e.toPort == ""
        && e.attributes.attributes == map["label" := Str(id)]
        && e.graph == EndNode(from).graph.EdgeOwner(EndNode(from), outerNode)
      ensures fresh(e.attributes)
      ensures inner.HasNode(EndNode(from)) && port.graph == inner ==> Appended(old(inner.edgesFrom), inner.edgesFrom, e)
      ensures inner.HasNode(EndNode(from)) && port.graph != inner ==> Appended(old(inner.Root().edgesFrom), inner.Root().edgesFrom, e)
      ensures !inner.HasNode(EndNode(from)) ==> Appended(old(EndNode(from).graph.EdgeOwner(EndNode(from), outerNode).edgesFrom), EndNode(from).graph.EdgeOwner(EndNode(from), outerNode).edgesFrom, e)
      ensures forall r: Graph {:trigger r.Valid()} {:trigger old(r.Valid())} :: old(allocated(r)) && r.Rooted() && old(r.Valid()) ==> r.Valid()
    {
      var fromNode := EndNode(from);
      inner.RootAllocated();
      fromNode.graph.RootAllocated();
      if inner.HasNode(fromNode) {
        e := Connect(id, true, fromNode);
        port := e.from;
        return;
      }
      port := ShapedNode(inner, id, "point");
      ghost var nodes, seqNo, attrs := inner.nodes, inner.Root().seqNo, port.attributes.attributes;
      e := LabelledEdge(fromNode, outerNode, id);
      assert inner.nodes == nodes && inner.Root().seqNo == seqNo && port.attributes.attributes == attrs;
    }

    /** `Output(id, to)`: when the inner graph itself made the node `to`
        stands for, an inner edge from that node to the port `id`;
        otherwise the point node `id` in the inner graph, and an edge from
        the outer node to that node labelled `id`. `port` is the point node
        either way. */
    method Output(id: string, to: Connectable) returns (e: Edge, ghost port: Node)
      requires inner.Rooted() && inner.Valid()
      requires outerNode.graph.Rooted() && outerNode.graph.Valid()
      requires EndNode(to).graph.Rooted()
      modifies inner`nodes, inner.Root()`seqNo, FoundMaps(inner.FindNode(id))`attributes
      modifies inner`edgesFrom, inner.Root()`edgesFrom
      modifies outerNode.graph`edgesFrom, outerNode.graph.Root()`edgesFrom
      ensures Shaped(inner, id, "point", old(inner.FindNode(id)),
                       old(inner.nodes), old(inner.Root().seqNo), old(AttrsOf(inner.FindNode(id))),
                       inner.nodes, inner.Root().seqNo, port, port.attributes.attributes)
      ensures inner.HasNode(EndNode(to)) ==>
        && e.from == EndNode(to) && e.to == port
        && e.fromPort == "s" && e.toPort == "n"
        && e.attributes.attributes == map["headlabel" := Str(id)]
        && e.graph == (if port.graph == inner then inner else inner.Root())
      ensures !inner.HasNode(EndNode(to)) ==>
        && e.from == outerNode && e.to == EndNode(to)
        && e.fromPort == "" && e.toPort == ""
        && e.attributes.attributes == map["label" := Str(id)]
        && e.graph == outerNode.graph.EdgeOwner(outerNode, EndNode(to))
      ensures fresh(e.attributes)
      ensures inner.HasNode(EndNode(to)) && port.graph == inner ==> Appended(old(inner.edgesFrom), inner.edgesFrom, e)
      ensures inner.HasNode(EndNode(to)) && port.graph != inner ==> Appended(old(inner.Root().edgesFrom), inner.Root().edgesFrom, e)
      ensures !inner.HasNode(EndNode(to)) ==> Appended(old(outerNode.graph.EdgeOwner(outerNode, EndNode(to)).edgesFrom), outerNode.graph.EdgeOwner(outerNode, EndNode(to)).edgesFrom, e)
      ensures forall r: Graph {:trigger r.Valid()} {:trigger old(r.Valid())} :: old(allocated(r)) && r.Rooted() && old(r.Valid()) ==> r.Valid()
    {
      var toNode := EndNode(to);
      inner.RootAllocated();
      outerNode.graph.RootAllocated();
      if inner.HasNode(toNode) {
        e := Connect(id, false, toNode);
        port := e.to;
        return;
      }
      port := ShapedNode(inner, id, "point");
      ghost var nodes, seqNo, attrs := inner.nodes, inner.Root().seqNo, port.attributes.attributes;
      e := LabelledEdge(outerNode, toNode, id);
      assert inner.nodes == nodes && inner.Root().seqNo == seqNo && port.attributes.attributes == attrs;
    }
  }
}
