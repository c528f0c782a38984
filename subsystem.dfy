/** The `Subsystem` wrapper of package dotx (dotx/subsystem.go): like a
    composite, a graph that its outer graph shows as one box3d node, but an
    edge takes the inner route whenever a node with the same id exists
    anywhere in the inner graph tree, and the export is never refused. */
module Subsystems {
  import opened Attributes
  import opened Outcomes
  import opened Dot
  import opened Views
  import DotWriter
  import Composites

  /** `subsystemKind`: where the inner graph lives. */
  datatype Kind = SameGraph | ExternalGraph

  /** The outer node of a new subsystem, shaped "box3d", and the subsystem
      around it, linked to the export of the name. `shaped` are the node's
      attributes before the link. */
  method OuterSubsystem(id: string, g: Graph, inner: Graph,
                        ghost found: Option<Node>, ghost nodes: map<string, Node>, ghost seqNo: nat,
                        ghost attrs: map<string, Value>)
    returns (s: Subsystem, ghost shaped: map<string, Value>)
    requires g.Rooted() && g.Valid()
    requires inner.Rooted() && inner.Valid()
    requires found == g.FindNode(id) && nodes == g.nodes && seqNo == g.Root().seqNo && attrs == Composites.AttrsOf(found)
    modifies g`nodes, g.Root()`seqNo, Composites.FoundMaps(found)`attributes
    ensures fresh(s) && s.inner == inner && s.outerGraph == g
    ensures inner.Valid()
    ensures Composites.Shaped(g, id, "box3d", found, nodes, seqNo, attrs, g.nodes, g.Root().seqNo, s.outerNode, shaped)
    ensures s.outerNode.attributes.attributes == Put(shaped, "href", Str(Composites.HrefFile(id)))
    ensures s.outerNode.id == id && s.outerNode.graph.Rooted() && s.outerNode.graph.Valid()
    ensures s.dotFilename == Composites.DotFile(id)
    ensures forall r: Graph {:trigger r.Valid()} {:trigger old(r.Valid())} :: old(allocated(r)) && r.Rooted() && old(r.Valid()) ==> r.Valid()
  {
    g.RootAllocated();
    var n := Composites.ShapedNode(g, id, "box3d");
    shaped := n.attributes.attributes;
    ghost var nodesAfter, seqAfter := g.nodes, g.Root().seqNo;
    s := new Subsystem.Make(inner, n, g);
    s.ExportName(id);
    assert g.nodes == nodesAfter && g.Root().seqNo == seqAfter;
  }

  /** `NewSubsystem(id, g, kind)`: the inner graph (the cluster subgraph
      `id` of `g`, or a new directed graph), and the node `id` of `g`
      shaped "box3d" that stands for it, linked to the export of the
      name. */
  method NewSubsystem(id: string, g: Graph, kind: Kind) returns (s: Subsystem, ghost shaped: map<string, Value>)
    requires g.Rooted() && g.Valid()
    modifies g`subgraphs, g.Root()`seqNo, g.Root()`members, g.Root()`height, g`nodes
    modifies Composites.FoundMaps(g.FindNode(id))`attributes
    ensures fresh(s) && s.outerGraph == g
    ensures s.inner.Rooted() && s.inner.Valid()
    ensures kind == SameGraph ==>
      s.inner.Root() == g.Root() && id in g.subgraphs && g.subgraphs[id] == s.inner && (id !in old(g.subgraphs) ==> fresh(s.inner))
    ensures kind == ExternalGraph ==>
      fresh(s.inner) && s.inner.parent == null && s.inner.Header() == Head("", false, "digraph")
    ensures Composites.Shaped(g, id, "box3d", old(g.FindNode(id)),
                   old(g.nodes), old(g.Root().seqNo) + (if kind == SameGraph && id !in old(g.subgraphs) then 1 else 0),
                   old(Composites.AttrsOf(g.FindNode(id))),
                   g.nodes, g.Root().seqNo, s.outerNode, shaped)
    ensures s.outerNode.attributes.attributes == Put(shaped, "href", Str(Composites.HrefFile(id)))
    ensures s.outerNode.id == id && s.outerNode.graph.Rooted() && s.outerNode.graph.Valid()
    ensures s.dotFilename == Composites.DotFile(id)
    ensures forall r: Graph {:trigger r.Valid()} {:trigger old(r.Valid())} :: old(allocated(r)) && r.Rooted() && old(r.Valid()) ==> r.Valid()
  {
    if kind == SameGraph {
      s, shaped := SameGraphSubsystem(id, g);
    } else {
      s, shaped := ExternalSubsystem(id, g);
    }
  }

  /** `NewSubsystem` for the same graph. */
  method SameGraphSubsystem(id: string, g: Graph) returns (s: Subsystem, ghost shaped: map<string, Value>)
    requires g.Rooted() && g.Valid()
    modifies g`subgraphs, g.Root()`seqNo, g.Root()`members, g.Root()`height, g`nodes
    modifies Composites.FoundMaps(g.FindNode(id))`attributes
    ensures fresh(s) && s.outerGraph == g
    ensures s.inner.Rooted() && s.inner.Valid()
    ensures s.inner.Root() == g.Root() && id in g.subgraphs && g.subgraphs[id] == s.inner && (id !in old(g.subgraphs) ==> fresh(s.inner))
    ensures Composites.Shaped(g, id, "box3d", old(g.FindNode(id)),
                   old(g.nodes), old(g.Root().seqNo) + (if id !in old(g.subgraphs) then 1 else 0),
                   old(Composites.AttrsOf(g.FindNode(id))),
                   g.nodes, g.Root().seqNo, s.outerNode, shaped)
    ensures s.outerNode.attributes.attributes == Put(shaped, "href", Str(Composites.HrefFile(id)))
    ensures s.outerNode.id == id && s.outerNode.graph.Rooted() && s.outerNode.graph.Valid()
    ensures s.dotFilename == Composites.DotFile(id)
    ensures forall r: Graph {:trigger r.Valid()} {:trigger old(r.Valid())} :: old(allocated(r)) && r.Rooted() && old(r.Valid()) ==> r.Valid()
  {
    ghost var found, nodes, attrs := g.FindNode(id), g.nodes, Composites.AttrsOf(g.FindNode(id));
    var inner := Composites.ClusterGraph(id, g);
    s, shaped := OuterSubsystem(id, g, inner, found, nodes, g.Root().seqNo, attrs);
  }

  /** `NewSubsystem` for an external graph. */
  method ExternalSubsystem(id: string, g: Graph) returns (s: Subsystem, ghost shaped: map<string, Value>)
    requires g.Rooted() && g.Valid()
    modifies g`nodes, g.Root()`seqNo, Composites.FoundMaps(g.FindNode(id))`attributes
    ensures fresh(s) && s.outerGraph == g
    ensures s.inner.Rooted() && s.inner.Valid()
    ensures fresh(s.inner) && s.inner.parent == null && s.inner.Header() == Head("", false, "digraph")
    ensures Composites.Shaped(g, id, "box3d", old(g.FindNode(id)), old(g.nodes), old(g.Root().seqNo),
                   old(Composites.AttrsOf(g.FindNode(id))), g.nodes, g.Root().seqNo, s.outerNode, shaped)
    ensures s.outerNode.attributes.attributes == Put(shaped, "href", Str(Composites.HrefFile(id)))
    ensures s.outerNode.id == id && s.outerNode.graph.Rooted() && s.outerNode.graph.Valid()
    ensures s.dotFilename == Composites.DotFile(id)
    ensures forall r: Graph {:trigger r.Valid()} {:trigger old(r.Valid())} :: old(allocated(r)) && r.Rooted() && old(r.Valid()) ==> r.Valid()
  {
    ghost var found, nodes, attrs := g.FindNode(id), g.nodes, Composites.AttrsOf(g.FindNode(id));
    Composites.ChainAllocated(g);
    g.RootAllocated();
    var inner := Composites.DirectedGraph();
    s, shaped := OuterSubsystem(id, g, inner, found, nodes, g.Root().seqNo, attrs);
  }

  class Subsystem {
    /** The embedded `*dot.Graph`. */
    const inner: Graph
    const outerNode: Node
    const outerGraph: Graph
    var dotFilename: string

    constructor Make(inner: Graph, outerNode: Node, outerGraph: Graph)
      ensures this.inner == inner && this.outerNode == outerNode && this.outerGraph == outerGraph
      ensures dotFilename == ""
      ensures forall r: Graph {:trigger r.Valid()} {:trigger old(r.Valid())} :: old(allocated(r)) && r.Rooted() && old(r.Valid()) ==> r.Valid()
    {
      this.inner := inner;
      this.outerNode := outerNode;
      this.outerGraph := outerGraph;
      dotFilename := "";
      new;
      StructureKept();
    }

    /** `ExportName(name)`: links the outer node to the ".svg" of the name
        and records the ".dot" file name. */
    method ExportName(name: string)
      modifies this`dotFilename, outerNode.attributes`attributes
      ensures outerNode.attributes.attributes == Put(old(outerNode.attributes.attributes), "href", Str(Composites.HrefFile(name)))
      ensures dotFilename == Composites.DotFile(name)
      ensures forall r: Graph {:trigger r.Valid()} {:trigger old(r.Valid())} :: old(allocated(r)) && r.Rooted() && old(r.Valid()) ==> r.Valid()
    {
      var _ := outerNode.Attr("href", Str(Composites.HrefFile(name)));
      dotFilename := Composites.DotFile(name);
    }

    /** `Attr(label, value)`: sets the attribute on the outer node and
        returns that node. */
    method Attr(name: string, value: Value) returns (n: Node)
      modifies outerNode.attributes`attributes
      ensures n == outerNode
      ensures outerNode.attributes.attributes == Put(old(outerNode.attributes.attributes), name, value)
      ensures forall r: Graph {:trigger r.Valid()} {:trigger old(r.Valid())} :: old(allocated(r)) && r.Rooted() && old(r.Valid()) ==> r.Valid()
    {
      n := outerNode.Attr(name, value);
    }

    /** `ExportFile()`: the DOT text of the inner graph, for the export file
        name; the write itself is not modelled. */
    method ExportFile() returns (r: Composites.ExportResult)
      requires inner.Rooted() && inner.Valid()
      ensures r.Written? && r.filename == dotFilename && r.content == DotWriter.DotText(old(View(inner)))
    {
      var text := DotWriter.String(inner);
      return Composites.Written(dotFilename, text);
    }

    /** `connect(portName, isInput, inner)`: the point node named after the
        port, and an edge between it and the node with the ports "s" and
        "n": from the port for an input, labelled "taillabel", and to the
        port for an output, labelled "headlabel". The node may belong to any
        graph: only its id was looked up in the inner tree. */
    method Connect(portName: string, isInput: bool, n: Node) returns (e: Edge)
      requires inner.Rooted() && inner.Valid() && n.graph.Rooted()
      modifies inner`nodes, inner.Root()`seqNo, Composites.FoundMaps(inner.FindNode(portName))`attributes
      modifies inner`edgesFrom, inner.Root()`edgesFrom, n.graph.Root()`edgesFrom
      ensures Composites.Shaped(inner, portName, "point", old(inner.FindNode(portName)),
                       old(inner.nodes), old(inner.Root().seqNo), old(Composites.AttrsOf(inner.FindNode(portName))),
                       inner.nodes, inner.Root().seqNo, (if isInput then e.from else e.to), (if isInput then e.from else e.to).attributes.attributes)
      ensures (if isInput then e.to else e.from) == n
      ensures e.graph == (if e.from.graph == e.to.graph then inner else if isInput then inner.Root() else n.graph.Root())
      ensures e.fromPort == "s" && e.toPort == "n"
      ensures fresh(e.attributes)
      ensures e.attributes.attributes == map[(if isInput then "taillabel" else "headlabel") := Str(portName)]
      ensures e.graph == inner ==> Composites.Appended(old(inner.edgesFrom), inner.edgesFrom, e)
      ensures e.graph != inner && isInput ==>
        e.graph == inner.Root() && Composites.Appended(old(inner.Root().edgesFrom), inner.Root().edgesFrom, e)
      ensures e.graph != inner && !isInput ==>
        e.graph == n.graph.Root() && Composites.Appended(old(n.graph.Root().edgesFrom), n.graph.Root().edgesFrom, e)
      ensures forall r: Graph {:trigger r.Valid()} {:trigger old(r.Valid())} :: old(allocated(r)) && r.Rooted() && old(r.Valid()) ==> r.Valid()
    {
      inner.RootAllocated();
      n.graph.RootAllocated();
      var port := Composites.ShapedNode(inner, portName, "point");
      ghost var nodes, seqNo, attrs := inner.nodes, inner.Root().seqNo, port.attributes.attributes;
      e := PortEdge(portName, isInput, port, n);
      assert inner.nodes == nodes && inner.Root().seqNo == seqNo && port.attributes.attributes == attrs;
    }

    /** The edge `connect` adds once the port exists. */
    method PortEdge(portName: string, isInput: bool, port: Node, n: Node) returns (e: Edge)
      requires inner.Rooted() && inner.Valid() && n.graph.Rooted()
      requires port.graph.Rooted() && port.graph.Root() == inner.Root()
      modifies inner`edgesFrom, inner.Root()`edgesFrom, n.graph.Root()`edgesFrom
      ensures (if isInput then e.from else e.to) == port && (if isInput then e.to else e.from) == n
      ensures e.graph == (if e.from.graph == e.to.graph then inner else if isInput then inner.Root() else n.graph.Root())
      ensures e.fromPort == "s" && e.toPort == "n"
      ensures fresh(e.attributes)
      ensures e.attributes.attributes == map[(if isInput then "taillabel" else "headlabel") := Str(portName)]
      ensures e.graph == inner ==> Composites.Appended(old(inner.edgesFrom), inner.edgesFrom, e)
      ensures e.graph != inner && isInput ==>
        e.graph == inner.Root() && Composites.Appended(old(inner.Root().edgesFrom), inner.Root().edgesFrom, e)
      ensures e.graph != inner && !isInput ==>
        e.graph == n.graph.Root() && Composites.Appended(old(n.graph.Root().edgesFrom), n.graph.Root().edgesFrom, e)
      ensures forall r: Graph {:trigger r.Valid()} {:trigger old(r.Valid())} :: old(allocated(r)) && r.Rooted() && old(r.Valid()) ==> r.Valid()
    {
      if isInput {
        e := inner.EdgeWithPorts(port, n, "s", "n", []);
        e := e.Attr("taillabel", Str(portName));
      } else {
        e := inner.EdgeWithPorts(n, port, "s", "n", []);
        e := e.Attr("headlabel", Str(portName));
      }
    }

    /** `Input(id, from)`: when `FindNodeById` finds the id of `from` in the
        inner graph tree, the port `id` and an inner edge from it to `from`;
        otherwise only an edge from `from` to the outer node labelled `id`.
        `inward` tells which route was taken. */
    method Input(id: string, from: Node) returns (e: Edge, ghost inward: bool)
      requires inner.Rooted() && inner.Valid()
      requires outerNode.graph.Rooted()
      requires from.graph.Rooted() && from.graph.Valid()
      modifies inner`nodes, inner.Root()`seqNo, Composites.FoundMaps(inner.FindNode(id))`attributes
      modifies inner`edgesFrom, inner.Root()`edgesFrom, from.graph.Root()`edgesFrom
      modifies from.graph.EdgeOwner(from, outerNode)`edgesFrom
      ensures inward <==> ContainsId(old(View(inner)), from.id)
      ensures inward ==>
        && Composites.Shaped(inner, id, "point", old(inner.FindNode(id)),
                             old(inner.nodes), old(inner.Root().seqNo), old(Composites.AttrsOf(inner.FindNode(id))),
                             inner.nodes, inner.Root().seqNo, e.from, e.from.attributes.attributes)
        && e.to == from && e.fromPort == "s" && e.toPort == "n"
        && e.attributes.attributes == map["taillabel" := Str(id)]
        && e.graph == (if e.from.graph == from.graph then inner else inner.Root())
      ensures !inward ==>
        && inner.nodes == old(inner.nodes) && inner.Root().seqNo == old(inner.Root().seqNo)
        && e.from == from && e.to == outerNode && e.fromPort == "" && e.toPort == ""
        && e.attributes.attributes == map["label" := Str(id)]
        && e.graph == from.graph.EdgeOwner(from, outerNode)
      ensures fresh(e.attributes)
      ensures inward && e.graph == inner ==> Composites.Appended(old(inner.edgesFrom), inner.edgesFrom, e)
      ensures inward && e.graph != inner ==>
        e.graph == inner.Root() && Composites.Appended(old(inner.Root().edgesFrom), inner.Root().edgesFrom, e)
      ensures !inward ==>
        Composites.Appended(old(from.graph.EdgeOwner(from, outerNode).edgesFrom), from.graph.EdgeOwner(from, outerNode).edgesFrom, e)
      ensures forall r: Graph {:trigger r.Valid()} {:trigger old(r.Valid())} :: old(allocated(r)) && r.Rooted() && old(r.Valid()) ==> r.Valid()
    {
      inner.RootAllocated();
      from.graph.RootAllocated();
      var found := ContainsId(View(inner), from.id);
      inward := found;
      if found {
        e := Connect(id, true, from);
      } else {
        e := Composites.LabelledEdge(from, outerNode, id);
      }
    }

    /** `Output(id, to)`: when `FindNodeById` finds the id of `to` in the
        inner graph tree, the port `id` and an inner edge from `to` to it;
        otherwise only an edge from the outer node to `to` labelled `id`.
        `inward` tells which route was taken. */
    method Output(id: string, to: Node) returns (e: Edge, ghost inward: bool)
      requires inner.Rooted() && inner.Valid()
      requires outerNode.graph.Rooted() && outerNode.graph.Valid()
      requires to.graph.Rooted()
      modifies inner`nodes, inner.Root()`seqNo, Composites.FoundMaps(inner.FindNode(id))`attributes
      modifies inner`edgesFrom, inner.Root()`edgesFrom, to.graph.Root()`edgesFrom
      modifies outerNode.graph.EdgeOwner(outerNode, to)`edgesFrom
      ensures inward <==> ContainsId(old(View(inner)), to.id)
      ensures inward ==>
        && Composites.Shaped(inner, id, "point", old(inner.FindNode(id)),
                             old(inner.nodes), old(inner.Root().seqNo), old(Composites.AttrsOf(inner.FindNode(id))),
                             inner.nodes, inner.Root().seqNo, e.to, e.to.attributes.attributes)
        && e.from == to && e.fromPort == "s" && e.toPort == "n"
        && e.attributes.attributes == map["headlabel" := Str(id)]
        && e.graph == (if to.graph == e.to.graph then inner else to.graph.Root())
      ensures !inward ==>
        && inner.nodes == old(inner.nodes) && inner.Root().seqNo == old(inner.Root().seqNo)
        && e.from == outerNode && e.to == to && e.fromPort == "" && e.toPort == ""
        && e.attributes.attributes == map["label" := Str(id)]
        && e.graph == outerNode.graph.EdgeOwner(outerNode, to)
      ensures fresh(e.attributes)
      ensures inward && e.graph == inner ==> Composites.Appended(old(inner.edgesFrom), inner.edgesFrom, e)
      ensures inward && e.graph != inner ==>
        e.graph == to.graph.Root() && Composites.Appended(old(to.graph.Root().edgesFrom), to.graph.Root().edgesFrom, e)
      ensures !inward ==>
        Composites.Appended(old(outerNode.graph.EdgeOwner(outerNode, to).edgesFrom), outerNode.graph.EdgeOwner(outerNode, to).edgesFrom, e)
      ensures forall r: Graph {:trigger r.Valid()} {:trigger old(r.Valid())} :: old(allocated(r)) && r.Rooted() && old(r.Valid()) ==> r.Valid()
    {
      inner.RootAllocated();
      outerNode.graph.RootAllocated();
      to.graph.RootAllocated();
      var found := ContainsId(View(inner), to.id);
      inward := found;
      if found {
        e := Connect(id, false, to);
      } else {
        e := Composites.LabelledEdge(outerNode, to, id);
      }
    }
  }
}
