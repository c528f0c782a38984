/** The state of a graph tree as plain values. The writers (DOT and Mermaid)
    only read a tree; they are modelled over this snapshot of it, taken in
    one step, so that their loops reason about values and not about the
    heap. */
module Views {
  import opened Text
  import opened Attributes
  import opened Dot

  /** What a writer reads of a node: its id, sequence number and attributes. */
  datatype NodeView = NodeView(id: string, seqNo: nat, attrs: map<string, Value>)

  /** What a writer reads of an edge: the sequence numbers of its ends, its
      ports and its attributes. */
  datatype EdgeView = EdgeView(fromSeq: nat, fromPort: string, toSeq: nat, toPort: string,
                               attrs: map<string, Value>)

  /** What a writer reads of a graph, subgraphs included. */
  datatype GraphView = GraphView(
    id: string, isStrict: bool, graphType: string,
    attrs: map<string, Value>,
    nodes: map<string, NodeView>,
    edgesFrom: map<string, seq<EdgeView>>,
    subgraphs: map<string, GraphView>,
    sameRank: map<string, seq<nat>>)

  /** How both writers name a node: "n" and its sequence number. */
  function Seq(k: nat): string {
    "n" + NatToString(k)
  }

  lemma SeqOne()
    ensures Seq(1) == "n1" && Seq(2) == "n2"
  {
  }

  /** `fp` holds the graph, its attribute map and the attribute maps of its
      nodes and edges. */
  ghost predicate Covers(g: Graph, fp: set<object>)
    reads g
  {
    && g in fp && g.attributes in fp
    && (forall k :: k in g.nodes ==> g.nodes[k].attributes in fp)
    && (forall k, i :: k in g.edgesFrom && 0 <= i < |g.edgesFrom[k]| ==> g.edgesFrom[k][i].attributes in fp)
  }

  /** `fp` covers `g` and, to `n` levels, its subgraphs; below `n` levels
      there are none. */
  ghost predicate Framed(g: Graph, fp: set<object>, n: nat)
    reads fp
    decreases n
  {
    && g in fp && Covers(g, fp)
    && forall k :: k in g.subgraphs ==> n > 0 && Framed(g.subgraphs[k], fp, n - 1)
  }

  function NodeOf(n: Node, ghost fp: set<object>): (r: NodeView)
    requires n.attributes in fp
    reads fp
    ensures r.id == n.id && r.seqNo == n.seqNo && r.attrs == n.attributes.attributes
  {
    NodeView(n.id, n.seqNo, n.attributes.attributes)
  }

  function EdgeOf(e: Edge, ghost fp: set<object>): (r: EdgeView)
    requires e.attributes in fp
    reads fp
    ensures r.fromSeq == e.from.seqNo && r.toSeq == e.to.seqNo
    ensures r.fromPort == e.fromPort && r.toPort == e.toPort && r.attrs == e.attributes.attributes
  {
    EdgeView(e.from.seqNo, e.fromPort, e.to.seqNo, e.toPort, e.attributes.attributes)
  }

  /** The edges of one bucket, in order. */
  function EdgesOf(edges: seq<Edge>, ghost fp: set<object>): (r: seq<EdgeView>)
    requires forall i :: 0 <= i < |edges| ==> edges[i].attributes in fp
    reads fp
    ensures |r| == |edges|
    ensures forall i :: 0 <= i < |edges| ==> r[i] == EdgeOf(edges[i], fp)
    decreases |edges|
  {
    if edges == [] then [] else [EdgeOf(edges[0], fp)] + EdgesOf(edges[1..], fp)
  }

  /** The sequence numbers of a rank group, in order. */
  function SeqNos(ns: seq<Node>): (r: seq<nat>)
    ensures |r| == |ns|
    ensures forall i :: 0 <= i < |ns| ==> r[i] == ns[i].seqNo
  {
    seq(|ns|, i requires 0 <= i < |ns| => ns[i].seqNo)
  }

  /** The snapshot of a graph and its subgraphs. */
  function Freeze(g: Graph, ghost fp: set<object>, ghost n: nat): (v: GraphView)
    requires Framed(g, fp, n)
    reads fp
    ensures v.id == g.id && v.isStrict == g.isStrict && v.graphType == g.graphType
    ensures v.attrs == g.attributes.attributes
    ensures v.nodes.Keys == g.nodes.Keys && v.edgesFrom.Keys == g.edgesFrom.Keys
    ensures v.subgraphs.Keys == g.subgraphs.Keys && v.sameRank.Keys == g.sameRank.Keys
    decreases n
  {
    GraphView(
      g.id, g.isStrict, g.graphType, g.attributes.attributes,
      map k | k in g.nodes :: NodeOf(g.nodes[k], fp),
      map k | k in g.edgesFrom :: EdgesOf(g.edgesFrom[k], fp),
      map k | k in g.subgraphs :: Freeze(g.subgraphs[k], fp, n - 1),
      map k | k in g.sameRank :: SeqNos(g.sameRank[k]))
  }

  /** Every object a tree's snapshot depends on. */
  ghost function TreeObjects(root: Graph): set<object>
    reads root, root.members
  {
    root.members
    + (set g | g in root.members :: g.attributes)
    + (set g, k | g in root.members && k in g.nodes :: g.nodes[k].attributes)
    + (set g, k, i | g in root.members && k in g.edgesFrom && 0 <= i < |g.edgesFrom[k]| :: g.edgesFrom[k][i].attributes)
  }

  /** The objects of a tree cover each of its members. */
  lemma TreeObjectsCover(root: Graph, h: Graph)
    requires h in root.members
    ensures Covers(h, TreeObjects(root))
  {
    var fp := TreeObjects(root);
    forall k | k in h.nodes
      ensures h.nodes[k].attributes in fp
    {
    }
    forall k, i | k in h.edgesFrom && 0 <= i < |h.edgesFrom[k]|
      ensures h.edgesFrom[k][i].attributes in fp
    {
    }
  }

  /** In a valid tree, each member is framed by the tree's objects to the
      depth that remains below it. */
  lemma {:induction false} TreeFramed(root: Graph, h: Graph, n: nat)
    requires root.Tree() && h in root.members && n == root.height - h.depth
    ensures Framed(h, TreeObjects(root), n)
    decreases n
  {
    TreeObjectsCover(root, h);
    forall k | k in h.subgraphs
      ensures n > 0 && Framed(h.subgraphs[k], TreeObjects(root), n - 1)
    {
      var sub := h.subgraphs[k];
      assert sub in root.members && sub.parent == h;
      TreeFramed(root, sub, n - 1);
    }
  }

  /** The snapshot of a graph of a valid tree. */
  function View(g: Graph): GraphView
    requires g.Rooted() && g.Valid()
    reads g.Root(), g.Root().members, TreeObjects(g.Root())
  {
    TreeFramed(g.Root(), g, g.Root().height - g.depth);
    Freeze(g, TreeObjects(g.Root()), g.Root().height - g.depth)
  }

  /** What `FindNodeById(id)` reports as found: a node with this id in the
      graph or, at any depth, in one of its subgraphs. */
  predicate ContainsId(v: GraphView, id: string)
    decreases v
  {
    || (exists k :: k in v.nodes && v.nodes[k].id == id)
    || (exists k :: k in v.subgraphs && ContainsId(v.subgraphs[k], id))
  }

  /** `FindNodeById(id)` through `VisitNodes`: the nodes of the graph are
      visited until one has the id; a hit there ends the walk of that graph
      before its subgraphs, and otherwise every subgraph is walked in turn.
      The callback's `done` ends only the walk of the graph that saw the
      hit, so the sibling subgraphs of a hit are still walked. Which node is
      returned depends on the order of a Go map and is not modelled;
      whether one is found does not. */
  method FindNodeById(v: GraphView, id: string) returns (found: bool)
    ensures found <==> ContainsId(v, id)
    decreases v
  {
    found := VisitOwnNodes(v.nodes, id);
    if found {
      return;
    }
    var subs := v.subgraphs.Keys;
    while subs != {}
      invariant subs <= v.subgraphs.Keys
      invariant found <==> exists k :: k in v.subgraphs.Keys - subs && ContainsId(v.subgraphs[k], id)
      decreases |subs|
    {
      var k :| k in subs;
      var inSub := FindNodeById(v.subgraphs[k], id);
      found := found || inSub;
      subs := subs - {k};
    }
  }

  /** The walk over one graph's own nodes, which stops at the first node
      with the id. */
  method VisitOwnNodes(nodes: map<string, NodeView>, id: string) returns (found: bool)
    ensures found <==> exists k :: k in nodes && nodes[k].id == id
  {
    found := false;
    var todo := nodes.Keys;
    while todo != {} && !found
      invariant todo <= nodes.Keys
      invariant found <==> exists k :: k in nodes.Keys - todo && nodes[k].id == id
      decreases |todo|
    {
      var k :| k in todo;
      if nodes[k].id == id {
        found := true;
      }
      todo := todo - {k};
    }
  }

  /** A node that a valid graph stores itself is found by its id. */
  lemma LocalNodeFound(g: Graph, id: string)
    requires g.Rooted() && g.Valid() && id in g.nodes
    ensures ContainsId(View(g), id)
  {
    var v := View(g);
    assert g.nodes[id].id == id;
    assert v.nodes[id].id == g.nodes[id].id;
  }
}
