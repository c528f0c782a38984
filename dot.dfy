/** The graph document model of package dot: graphs with their nested
    subgraphs, nodes and edges (graph.go, node.go, edge.go), and the options
    applied when a graph is created (graph_options.go). */
module Dot {
  import opened Text
  import opened Outcomes
  import opened Attributes

  // ---------------------------------------------------------------------
  // Graph options (graph_options.go)
  // ---------------------------------------------------------------------

  /** A `GraphOption`: `ClusterOption{}` or a `GraphTypeOption` by name. */
  datatype GraphOption = ClusterOption | GraphTypeOption(name: string)
  {
    /** `Apply(g)`: changes exactly what `Applied` says it changes. */
    method Apply(g: Graph)
      modifies g`id, g`isStrict, g`graphType
      ensures g.Header() == Applied(this, old(g.Header()))
    {
      match this
      case ClusterOption =>
        g.BeCluster();
      case GraphTypeOption(n) =>
        if n == Strict.name {
          g.isStrict := true;
          return;
        }
        g.graphType := n;
    }
  }

  const Strict := GraphTypeOption("strict")
  const Undirected := GraphTypeOption("graph")
  const Directed := GraphTypeOption("digraph")
  const Sub := GraphTypeOption("subgraph")

  /** The part of a graph that options change. */
  datatype Header = Head(id: string, isStrict: bool, graphType: string)

  /** The header after one option: a cluster prefixes the id with
      "cluster_"; the type "strict" only sets the strict flag; any other
      type name replaces the graph type. */
  function Applied(o: GraphOption, h: Header): (r: Header)
    ensures o.ClusterOption? ==> r == h.(id := "cluster_" + h.id)
    ensures o.GraphTypeOption? && o.name == "strict" ==> r == h.(isStrict := true)
    ensures o.GraphTypeOption? && o.name != "strict" ==> r == h.(graphType := o.name)
  {
    match o
    case ClusterOption => h.(id := "cluster_" + h.id)
    case GraphTypeOption(n) =>
      if n == Strict.name then h.(isStrict := true) else h.(graphType := n)
  }

  /** The header after applying the options in order. */
  function AppliedAll(os: seq<GraphOption>, h: Header): Header
    decreases |os|
  {
    if os == [] then h else Applied(os[|os| - 1], AppliedAll(os[..|os| - 1], h))
  }

  /** Does this option replace the graph type? */
  predicate ChangesType(o: GraphOption) {
    o.GraphTypeOption? && o.name != "strict"
  }

  function CountClusters(os: seq<GraphOption>): nat
    decreases |os|
  {
    if os == [] then 0
    else CountClusters(os[..|os| - 1]) + (if os[|os| - 1].ClusterOption? then 1 else 0)
  }

  function Repeat(s: string, n: nat): string {
    if n == 0 then "" else s + Repeat(s, n - 1)
  }

  /** A graph is strict exactly when it started strict or `Strict` was one
      of the options. */
  lemma {:induction false} AppliedAllStrict(os: seq<GraphOption>, h: Header)
    ensures AppliedAll(os, h).isStrict <==> h.isStrict || Strict in os
    decreases |os|
  {
    if os != [] {
      var init := os[..|os| - 1];
      AppliedAllStrict(init, h);
      assert os == init + [os[|os| - 1]];
      assert Strict in os <==> Strict in init || os[|os| - 1] == Strict;
    }
  }

  /** The last option that names a type other than "strict" decides the
      graph type; with no such option the type is unchanged. */
  lemma {:induction false} AppliedAllLastTypeWins(os: seq<GraphOption>, h: Header, i: nat)
    requires i < |os| && ChangesType(os[i])
    requires forall j :: i < j < |os| ==> !ChangesType(os[j])
    ensures AppliedAll(os, h).graphType == os[i].name
    decreases |os|
  {
    if i < |os| - 1 {
      AppliedAllLastTypeWins(os[..|os| - 1], h, i);
    }
  }

  lemma {:induction false} AppliedAllKeepsType(os: seq<GraphOption>, h: Header)
    requires forall j :: 0 <= j < |os| ==> !ChangesType(os[j])
    ensures AppliedAll(os, h).graphType == h.graphType
    decreases |os|
  {
    if os != [] {
      AppliedAllKeepsType(os[..|os| - 1], h);
    }
  }

  /** Each cluster option adds one more "cluster_" prefix: applying it twice
      yields "cluster_cluster_<id>". */
  lemma {:induction false} AppliedAllClusterPrefix(os: seq<GraphOption>, h: Header)
    ensures AppliedAll(os, h).id == Repeat("cluster_", CountClusters(os)) + h.id
    decreases |os|
  {
    if os != [] {
      var init := os[..|os| - 1];
      AppliedAllClusterPrefix(init, h);
      var n := CountClusters(init);
      if os[|os| - 1].ClusterOption? {
        RepeatAppend("cluster_", n);
        assert Repeat("cluster_", n + 1) == Repeat("cluster_", n) + "cluster_";
      }
    }
  }

  lemma {:induction false} RepeatAppend(s: string, n: nat)
    ensures s + Repeat(s, n) == Repeat(s, n) + s
  {
    if n > 0 {
      RepeatAppend(s, n - 1);
      assert s + Repeat(s, n) == s + (s + Repeat(s, n - 1));
      assert s + (Repeat(s, n - 1) + s) == (s + Repeat(s, n - 1)) + s;
    }
  }

  // ---------------------------------------------------------------------
  // Nodes and edges (node.go, edge.go)
  // ---------------------------------------------------------------------

  /** Go's `[]T` stored under a key of a map: a missing key is the empty slice. */
  function Bucket<T>(m: map<string, seq<T>>, k: string): (r: seq<T>)
    ensures k in m ==> r == m[k]
    ensures k !in m ==> r == []
  {
    if k in m then m[k] else []
  }

  /** A `Node` value: its attribute map is shared by every copy. */
  datatype Node = NodeValue(attributes: AttributesMap, graph: Graph, id: string, seqNo: nat)
  {
    /** `Attr(label, value)`: sets one attribute; the node itself is returned. */
    method Attr(name: string, value: Value) returns (n: Node)
      modifies attributes`attributes
      ensures n == this
      ensures attributes.attributes == Put(old(attributes.attributes), name, value)
      ensures forall r: Graph {:trigger r.Valid()} {:trigger old(r.Valid())} :: old(allocated(r)) && r.Rooted() && old(r.Valid()) ==> r.Valid()
    {
      attributes.Attr(name, value);
      n := this;
      StructureKept();
    }

    /** `Box()`: sets the shape to "box". */
    method Box() returns (n: Node)
      modifies attributes`attributes
      ensures n == this
      ensures attributes.attributes == Put(old(attributes.attributes), "shape", Str("box"))
    {
      n := Attr("shape", Str("box"));
    }

    /** `Edge(to, labels...)`: an edge from this node, made by its own graph. */
    method Edge(to: Node, labels: seq<string>) returns (e: Edge)
      requires graph.Rooted() && graph.Valid() && to.graph.Rooted()
      modifies graph.EdgeOwner(this, to)`edgesFrom
      ensures e.graph == graph.EdgeOwner(this, to)
      ensures e.from == this && e.to == to && e.fromPort == "" && e.toPort == ""
      ensures fresh(e.attributes) && e.attributes.attributes == EdgeLabel(labels)
      ensures e.graph.edgesFrom == old(graph.EdgeOwner(this, to).edgesFrom)[id := Bucket(old(graph.EdgeOwner(this, to).edgesFrom), id) + [e]]
      ensures forall r: Graph {:trigger r.Valid()} {:trigger old(r.Valid())} :: old(allocated(r)) && r.Rooted() && old(r.Valid()) ==> r.Valid()
    {
      RootsAllocated();
      e := graph.Edge(this, to, labels);
    }
  }

  /** An `Edge` value: its attribute map is shared by every copy. */
  datatype Edge = EdgeValue(attributes: AttributesMap, graph: Graph, from: Node, to: Node,
                            fromPort: string, toPort: string)
  {
    /** `Attr(label, value)`: sets one attribute; the edge itself is returned. */
    method Attr(name: string, value: Value) returns (e: Edge)
      modifies attributes`attributes
      ensures e == this
      ensures attributes.attributes == Put(old(attributes.attributes), name, value)
      ensures forall r: Graph {:trigger r.Valid()} {:trigger old(r.Valid())} :: old(allocated(r)) && r.Rooted() && old(r.Valid()) ==> r.Valid()
    {
      attributes.Attr(name, value);
      e := this;
      StructureKept();
    }

    /** `Label(value)`: sets the "label" attribute. */
    method Label(value: Value) returns (e: Edge)
      modifies attributes`attributes
      ensures e == this
      ensures attributes.attributes == Put(old(attributes.attributes), "label", value)
      ensures forall r: Graph {:trigger r.Valid()} {:trigger old(r.Valid())} :: old(allocated(r)) && r.Rooted() && old(r.Valid()) ==> r.Valid()
    {
      e := Attr("label", value);
    }

    /** `Edge(to, labels...)`: continues the path with an edge from this
        edge's head, made by this edge's graph. */
    method Edge(next: Node, labels: seq<string>) returns (e: Edge)
      requires graph.Rooted() && graph.Valid() && to.graph.Rooted()
      modifies graph.EdgeOwner(to, next)`edgesFrom
      ensures e.graph == graph.EdgeOwner(to, next)
      ensures e.from == to && e.to == next && e.fromPort == "" && e.toPort == ""
      ensures fresh(e.attributes) && e.attributes.attributes == EdgeLabel(labels)
      ensures e.graph.edgesFrom == old(graph.EdgeOwner(to, next).edgesFrom)[to.id := Bucket(old(graph.EdgeOwner(to, next).edgesFrom), to.id) + [e]]
      ensures forall r: Graph {:trigger r.Valid()} {:trigger old(r.Valid())} :: old(allocated(r)) && r.Rooted() && old(r.Valid()) ==> r.Valid()
    {
      RootsAllocated();
      e := graph.Edge(to, next, labels);
    }
  }

  /** The attributes a new edge starts with: none, or its labels joined by
      commas as "label". */
  function EdgeLabel(labels: seq<string>): (r: map<string, Value>)
    ensures labels == [] ==> r == map[]
    ensures labels != [] ==> r == map["label" := Str(Join(labels, ","))]
  {
    if |labels| > 0 then Put(map[], "label", Str(Join(labels, ","))) else map[]
  }

  /** The attribute map of a new edge: empty, then the joined labels set
      as "label" when there are any. */
  method NewEdgeAttributes(labels: seq<string>) returns (attrs: AttributesMap)
    ensures fresh(attrs) && attrs.attributes == EdgeLabel(labels)
  {
    attrs := new AttributesMap(map[]);
    if |labels| > 0 {
      attrs.Attr("label", Str(Join(labels, ",")));
    }
  }

  /** The edges of a bucket whose head has the given id, in bucket order. */
  function EdgesTo(edges: seq<Edge>, id: string): seq<Edge>
    decreases |edges|
  {
    if edges == [] then []
    else
      var init := EdgesTo(edges[..|edges| - 1], id);
      if edges[|edges| - 1].to.id == id then init + [edges[|edges| - 1]] else init
  }

  /** `EdgesTo` keeps exactly the edges that go to `id`. */
  lemma {:induction false} EdgesToMembers(edges: seq<Edge>, id: string)
    ensures |EdgesTo(edges, id)| <= |edges|
    ensures forall e :: e in EdgesTo(edges, id) <==> e in edges && e.to.id == id
    decreases |edges|
  {
    if edges != [] {
      var init := edges[..|edges| - 1];
      EdgesToMembers(init, id);
      assert edges == init + [edges[|edges| - 1]];
    }
  }

  /** The bucket after `DeleteNode(id)` visits it: the first edge whose
      head is `id` is removed, the others stay in order. */
  function RemoveFirstTo(edges: seq<Edge>, id: string): seq<Edge>
    decreases |edges|
  {
    if edges == [] then []
    else if edges[0].to.id == id then edges[1..]
    else [edges[0]] + RemoveFirstTo(edges[1..], id)
  }

  /** Removing at the first index whose edge goes to `id`. */
  lemma {:induction false} RemoveFirstToAt(edges: seq<Edge>, id: string, i: nat)
    requires i < |edges| && edges[i].to.id == id
    requires forall j :: 0 <= j < i ==> edges[j].to.id != id
    ensures RemoveFirstTo(edges, id) == edges[..i] + edges[i + 1..]
    ensures |RemoveFirstTo(edges, id)| == |edges| - 1
    decreases i
  {
    if i > 0 {
      RemoveFirstToAt(edges[1..], id, i - 1);
      assert edges[1..][..i - 1] == edges[1..i];
      assert edges[1..][i..] == edges[i + 1..];
      assert [edges[0]] + edges[1..i] == edges[..i];
    }
  }

  /** A bucket without an edge to `id` is left as it is. */
  lemma {:induction false} RemoveFirstToNone(edges: seq<Edge>, id: string)
    requires forall j :: 0 <= j < |edges| ==> edges[j].to.id != id
    ensures RemoveFirstTo(edges, id) == edges
    decreases |edges|
  {
    if edges != [] {
      RemoveFirstToNone(edges[1..], id);
      assert [edges[0]] + edges[1..] == edges;
    }
  }

  /** The index the inner loop of `DeleteNode` stops at: the first edge
      whose head has the id, or the length of the bucket. */
  method FirstIndexTo(edges: seq<Edge>, id: string) returns (i: nat)
    ensures i <= |edges|
    ensures i < |edges| ==> edges[i].to.id == id
    ensures forall j :: 0 <= j < i ==> edges[j].to.id != id
  {
    i := 0;
    while i < |edges| && edges[i].to.id != id
      invariant i <= |edges|
      invariant forall j :: 0 <= j < i ==> edges[j].to.id != id
    {
      i := i + 1;
    }
  }

  /** Every bucket after `DeleteNode(id)`. */
  function RemoveIncoming(m: map<string, seq<Edge>>, id: string): (r: map<string, seq<Edge>>)
    ensures r.Keys == m.Keys
    ensures forall k :: k in m ==> r[k] == RemoveFirstTo(m[k], id)
  {
    map k | k in m :: RemoveFirstTo(m[k], id)
  }

  /** All edges that were in a bucket and do not go to `id` are still there,
      so an edge survives `DeleteNode` unless it pointed at the deleted id. */
  lemma {:induction false} RemoveFirstToKeepsOthers(edges: seq<Edge>, id: string)
    ensures forall e :: e in edges && e.to.id != id ==> e in RemoveFirstTo(edges, id)
    ensures forall e :: e in RemoveFirstTo(edges, id) ==> e in edges
    decreases |edges|
  {
    if edges != [] {
      RemoveFirstToKeepsOthers(edges[1..], id);
      assert edges == [edges[0]] + edges[1..];
    }
  }

  /** A bucket with every edge whose head has the id taken out: what the
      comment of `DeleteNode` promises ("all the edges to the Node"). Its
      contract is the lemma `RemoveAllToMembers`: exactly the edges not to
      `id` are left, so none to `id` is. */
  function RemoveAllTo(edges: seq<Edge>, id: string): seq<Edge>
    decreases |edges|
  {
    if edges == [] then []
    else
      var kept := RemoveAllTo(edges[..|edges| - 1], id);
      if edges[|edges| - 1].to.id == id then kept else kept + [edges[|edges| - 1]]
  }

  /** Exactly the edges that do not go to `id` are left, so none that does
      is left. */
  lemma {:induction false} RemoveAllToMembers(edges: seq<Edge>, id: string)
    ensures forall e :: e in RemoveAllTo(edges, id) <==> e in edges && e.to.id != id
    ensures forall j :: 0 <= j < |RemoveAllTo(edges, id)| ==> RemoveAllTo(edges, id)[j].to.id != id
    decreases |edges|
  {
    if edges != [] {
      var init := edges[..|edges| - 1];
      RemoveAllToMembers(init, id);
      assert edges == init + [edges[|edges| - 1]];
    }
  }

  /** Every bucket after the corrected `DeleteNode(id)`. */
  function RemoveAllIncoming(m: map<string, seq<Edge>>, id: string): (r: map<string, seq<Edge>>)
    ensures r.Keys == m.Keys
    ensures forall k :: k in m ==> r[k] == RemoveAllTo(m[k], id)
  {
    map k | k in m :: RemoveAllTo(m[k], id)
  }

  /** `DeleteNode` as written keeps an edge to the deleted id when a bucket
      holds two: of two parallel edges from "a" to the node, one is left. The
      corrected removal leaves none. */
  lemma DeleteNodeKeepsParallelEdge(e: Edge, id: string)
    requires e.to.id == id
    ensures RemoveIncoming(map["a" := [e, e]], id)["a"] == [e]
    ensures RemoveAllIncoming(map["a" := [e, e]], id)["a"] == []
  {
    assert [e, e][1..] == [e];
    assert [e, e][..1] == [e] && [e][..0] == [];
    assert RemoveAllTo([e], id) == [] by {
      assert RemoveAllTo([e][..0], id) == [];
    }
    assert RemoveAllTo([e, e], id) == RemoveAllTo([e], id);
  }

  /** Removing all edges to `id` from one bucket. */
  method FilterEdgesTo(edges: seq<Edge>, id: string) returns (r: seq<Edge>)
    ensures r == RemoveAllTo(edges, id)
  {
    r := [];
    for i := 0 to |edges|
      invariant r == RemoveAllTo(edges[..i], id)
    {
      PrefixStep(edges, i);
      if edges[i].to.id != id {
        r := r + [edges[i]];
      }
    }
    assert edges[..|edges|] == edges;
  }

  lemma RootsAllocated()
    ensures forall g: Graph :: allocated(g) && g.Rooted() ==> allocated(g.Root())
  {
    forall g: Graph | allocated(g) && g.Rooted()
      ensures allocated(g.Root())
    {
      g.RootAllocated();
    }
  }

  /** A change that leaves the subgraph and node maps and the ghost tree
      state of every existing graph as they were keeps every valid graph
      valid. */
  twostate lemma StructureKept()
    requires forall g: Graph :: old(allocated(g)) ==>
      && g.subgraphs == old(g.subgraphs) && g.members == old(g.members) && g.height == old(g.height)
      && g.nodes == old(g.nodes)
    ensures forall r: Graph {:trigger r.Valid()} {:trigger old(r.Valid())} :: old(allocated(r)) && r.Rooted() && old(r.Valid()) ==> r.Valid()
  {
  }

  /** A change to the node map of one graph alone, which drops entries or
      adds nodes of that graph under their ids, keeps every valid graph
      valid. */
  twostate lemma NodesChanged(h: Graph)
    requires forall g: Graph :: old(allocated(g)) ==>
      && g.subgraphs == old(g.subgraphs) && g.members == old(g.members) && g.height == old(g.height)
      && (g != h ==> g.nodes == old(g.nodes))
    requires forall k :: k in h.nodes ==>
      (k in old(h.nodes) && h.nodes[k] == old(h.nodes[k])) || (h.nodes[k].graph == h && h.nodes[k].id == k)
    ensures forall r: Graph {:trigger r.Valid()} {:trigger old(r.Valid())} :: old(allocated(r)) && r.Rooted() && old(r.Valid()) ==> r.Valid()
  {
  }

  /** A root that only gains members, and still keeps its invariant, keeps
      every valid graph valid. */
  twostate lemma RootGrown(t: Graph)
    requires t.Rooted() && t.parent == null && old(allocated(t)) && t.Tree()
    requires old(t.members) <= t.members
    requires forall g: Graph :: old(allocated(g)) ==>
      && g.subgraphs == old(g.subgraphs) && g.nodes == old(g.nodes)
      && (g != t ==> g.members == old(g.members) && g.height == old(g.height))
    ensures forall r: Graph {:trigger r.Valid()} {:trigger old(r.Valid())} :: old(allocated(r)) && r.Rooted() && old(r.Valid()) ==> r.Valid()
  {
    forall r: Graph | old(allocated(r)) && r.Rooted() && old(r.Valid())
      ensures r.Valid()
    {
      var root := r.Root();
      if root != t {
        assert t !in old(root.members);
      }
    }
  }

  // ---------------------------------------------------------------------
  // Graphs (graph.go)
  // ---------------------------------------------------------------------

  /** The panic message of `ID` on a graph that already has an id. */
  const IdOverwrite := "cannot overwrite non-empty id ; both the old and the new could be in use and we cannot tell"

  /** A `Graph`. The parent link never changes once a graph exists; the root
      of each tree also keeps, as ghost state, the set of its member graphs
      and a bound on their depth. */
  class Graph {
    const attributes: AttributesMap
    var id: string
    var isStrict: bool
    var graphType: string
    /** The sequence counter; only the root's counter is used. */
    var seqNo: nat
    var nodes: map<string, Node>
    var edgesFrom: map<string, seq<Edge>>
    var subgraphs: map<string, Graph>
    const parent: Graph?
    var sameRank: map<string, seq<Node>>

    ghost const depth: nat
    ghost var members: set<Graph>
    ghost var height: nat

    /** The parent chain ends in a root. */
    ghost predicate Rooted()
      decreases depth
    {
      parent != null ==> parent.depth + 1 == depth && parent.Rooted()
    }

    /** This graph and all its ancestors. */
    ghost function Chain(): (c: set<Graph>)
      requires Rooted()
      ensures this in c
      ensures parent != null ==> parent in c
      decreases depth
    {
      {this} + if parent == null then {} else parent.Chain()
    }

    /** `Root()`: follows the parent links to the graph without a parent. */
    function Root(): (r: Graph)
      requires Rooted()
      ensures r.parent == null && r.Rooted() && r in Chain()
      ensures parent == null ==> r == this
      ensures parent != null ==> r == parent.Root()
      decreases depth
    {
      if parent == null then this else parent.Root()
    }

    /** The root of an allocated graph is allocated. */
    lemma {:induction false} RootAllocated()
      requires Rooted()
      ensures allocated(Root())
      decreases depth
    {
      if parent != null {
        parent.RootAllocated();
      }
    }

    /** The invariant kept by a root: its members are graphs that lead back
        to it; each subgraph of a member is a member whose parent is that
        member, and so is the parent of a member; a member's nodes are its
        own and are stored under their ids. */
    ghost predicate Tree()
      reads this`members, this`height, members`subgraphs, members`nodes
    {
      && parent == null
      && this in members
      && (forall g :: g in members ==> g.Rooted() && g.Root() == this && g.depth <= height)
      && (forall g, k :: g in members && k in g.subgraphs ==>
            g.subgraphs[k] in members && g.subgraphs[k].parent == g)
      && (forall g :: g in members && g.parent != null ==> g.parent in members)
      && (forall g, k :: g in members && k in g.nodes ==>
            g.nodes[k].graph == g && g.nodes[k].id == k)
    }

    ghost predicate Valid()
      requires Rooted()
      reads Root()`members, Root()`height, Root().members`subgraphs, Root().members`nodes
    {
      Root().Tree() && this in Root().members
    }

    function Header(): (h: Header)
      reads this`id, this`isStrict, this`graphType
      ensures h.id == id && h.isStrict == isStrict && h.graphType == graphType
    {
      Head(id, isStrict, graphType)
    }

    /** `NewGraph(options...)`: an empty, non-strict directed graph with the
        options applied in order. */
    constructor NewGraph(options: seq<GraphOption>)
      ensures Rooted() && parent == null && Valid()
      ensures Header() == AppliedAll(options, Head("", false, Directed.name))
      ensures fresh(attributes) && attributes.attributes == map[]
      ensures nodes == map[] && edgesFrom == map[] && subgraphs == map[] && sameRank == map[]
      ensures seqNo == 0
    {
      attributes := new AttributesMap(map[]);
      id := "";
      isStrict := false;
      graphType := Directed.name;
      seqNo := 0;
      nodes := map[];
      edgesFrom := map[];
      subgraphs := map[];
      sameRank := map[];
      parent := null;
      depth := 0;
      new;
      members := {this};
      height := 0;
      ApplyAll(options);
    }

    /** `NewGraph(Sub)` for a new subgraph of `p`, with its parent link,
        labelled with its key, given its id and then the options. */
    constructor Child(p: Graph, key: string, newId: string, options: seq<GraphOption>)
      requires p.Rooted()
      ensures Rooted() && parent == p && depth == p.depth + 1
      ensures Header() == AppliedAll(options, Head(newId, false, Sub.name))
      ensures fresh(attributes) && attributes.attributes == map["label" := Str(key)]
      ensures nodes == map[] && edgesFrom == map[] && subgraphs == map[] && sameRank == map[]
      ensures seqNo == 0 && members == {}
    {
      attributes := new AttributesMap(map["label" := Str(key)]);
      id := newId;
      isStrict := false;
      graphType := Sub.name;
      seqNo := 0;
      nodes := map[];
      edgesFrom := map[];
      subgraphs := map[];
      sameRank := map[];
      parent := p;
      depth := p.depth + 1;
      members := {};
      height := 0;
      new;
      ApplyAll(options);
    }

    /** Applies options in order, as `NewGraph` and `Subgraph` do. */
    method ApplyAll(options: seq<GraphOption>)
      modifies this`id, this`isStrict, this`graphType
      ensures Header() == AppliedAll(options, old(Header()))
    {
      for i := 0 to |options|
        invariant Header() == AppliedAll(options[..i], old(Header()))
      {
        options[i].Apply(this);
        assert options[..i + 1][..i] == options[..i];
      }
      assert options[..|options|] == options;
    }

    /** `ID(newID)`: sets the id of a graph that has none. */
    method ID(newID: string) returns (r: Outcome<Graph>)
      modifies this`id
      ensures old(id) != "" ==> r == Panics(IdOverwrite) && id == old(id)
      ensures old(id) == "" ==> r == Done(this) && id == newID
      ensures forall r: Graph {:trigger r.Valid()} {:trigger old(r.Valid())} :: old(allocated(r)) && r.Rooted() && old(r.Valid()) ==> r.Valid()
    {
      RootsAllocated();
      if |id| > 0 {
        return Panics(IdOverwrite);
      }
      id := newID;
      StructureKept();
      return Done(this);
    }

    /** `beCluster()`. */
    method BeCluster()
      modifies this`id
      ensures id == "cluster_" + old(id)
      ensures forall r: Graph {:trigger r.Valid()} {:trigger old(r.Valid())} :: old(allocated(r)) && r.Rooted() && old(r.Valid()) ==> r.Valid()
    {
      RootsAllocated();
      id := "cluster_" + id;
    }

    /** `FindSubgraph(id)`: a subgraph under this key here or, failing
        that, in the nearest ancestor that has one. */
    function FindSubgraph(id: string): (r: Option<Graph>)
      requires Rooted()
      reads Chain()`subgraphs
      ensures id in subgraphs ==> r == Some(subgraphs[id])
      ensures r.Some? <==> exists a :: a in Chain() && id in a.subgraphs
      ensures r.Some? ==> exists a :: a in Chain() && id in a.subgraphs && a.subgraphs[id] == r.value
      decreases depth
    {
      if id in subgraphs then Some(subgraphs[id])
      else if parent == null then None
      else parent.FindSubgraph(id)
    }

    /** `findNode(id)`: a node with this id here or in the nearest ancestor
        that has one. */
    function FindNode(id: string): (r: Option<Node>)
      requires Rooted()
      reads Chain()`nodes
      ensures id in nodes ==> r == Some(nodes[id])
      decreases depth
    {
      if id in nodes then Some(nodes[id])
      else if parent == null then None
      else parent.FindNode(id)
    }

    /** `findNode` finds a node exactly when a graph of the chain holds one
        under that id, and what it finds is held by such a graph. */
    lemma {:induction false} FindNodeInChain(id: string)
      requires Rooted()
      ensures FindNode(id).Some? <==> exists a :: a in Chain() && id in a.nodes
      ensures FindNode(id).Some? ==> exists a :: a in Chain() && id in a.nodes && a.nodes[id] == FindNode(id).value
      decreases depth
    {
      if id !in nodes && parent != null {
        parent.FindNodeInChain(id);
      }
    }

    /** The graphs of the parent chain of a valid graph belong to its tree. */
    lemma {:induction false} ChainValid()
      requires Rooted() && Valid()
      ensures forall a :: a in Chain() ==> a.Rooted() && a.Valid() && a.Root() == Root()
      decreases depth
    {
      if parent != null {
        assert parent in Root().members;
        parent.ChainValid();
      }
    }

    /** The node `findNode` finds in a valid tree is stored under its id and
        belongs to the graph of the chain that holds it. */
    lemma FoundNodeOwned(id: string)
      requires Rooted() && Valid() && FindNode(id).Some?
      ensures FindNode(id).value.id == id
      ensures FindNode(id).value.graph in Chain()
      ensures FindNode(id).value.graph.Rooted() && FindNode(id).value.graph.Valid()
      ensures FindNode(id).value.graph.Root() == Root()
    {
      ChainValid();
      FindNodeInChain(id);
      var a :| a in Chain() && id in a.nodes && a.nodes[id] == FindNode(id).value;
      assert a in Root().members;
    }

    /** `nextSeq()`: advances the root's counter and returns its new value. */
    method NextSeq() returns (k: nat)
      requires Rooted()
      modifies Root()`seqNo
      ensures Root().seqNo == old(Root().seqNo) + 1 && k == Root().seqNo
      ensures forall r: Graph {:trigger r.Valid()} {:trigger old(r.Valid())} :: old(allocated(r)) && r.Rooted() && old(r.Valid()) ==> r.Valid()
    {
      RootsAllocated();
      var root := Root();
      root.seqNo := root.seqNo + 1;
      k := root.seqNo;
    }

    /** `Node(id)`: the node found by `findNode`, or else a new node of this
        graph labelled with its id and numbered by the root's counter. */
    method Node(id: string) returns (n: Node)
      requires Rooted()
      modifies this`nodes, Root()`seqNo
      ensures old(FindNode(id)).Some? ==>
        n == old(FindNode(id)).value && nodes == old(nodes) && Root().seqNo == old(Root().seqNo)
      ensures old(FindNode(id)).None? ==>
        && n.id == id && n.graph == this && n.seqNo == old(Root().seqNo) + 1
        && fresh(n.attributes) && n.attributes.attributes == map["label" := Str(id)]
        && nodes == old(nodes)[id := n] && Root().seqNo == n.seqNo
      ensures FindNode(id) == Some(n)
      ensures old(Valid()) ==> n.id == id && n.graph.Rooted() && n.graph.Valid() && n.graph.Root() == Root()
      ensures forall r: Graph {:trigger r.Valid()} {:trigger old(r.Valid())} :: old(allocated(r)) && r.Rooted() && old(r.Valid()) ==> r.Valid()
    {
      RootsAllocated();
      var found := FindNode(id);
      if found.Some? {
        if Valid() {
          FoundNodeOwned(id);
        }
        return found.value;
      }
      var k := NextSeq();
      var attrs := new AttributesMap(map["label" := Str(id)]);
      n := NodeValue(attrs, this, id, k);
      nodes := nodes[id := n];
      NodesChanged(this);
    }

    /** `Subgraph(id, options...)`: the subgraph stored under this key, or
        else a new one with the options applied, labelled with the key and
        given the id "s<seq>". */
    method Subgraph(key: string, options: seq<GraphOption>) returns (sub: Graph)
      requires Rooted() && Valid()
      modifies this`subgraphs, Root()`seqNo, Root()`members, Root()`height
      ensures sub.Rooted() && sub.Valid() && sub.Root() == Root()
      ensures key in old(subgraphs) ==>
        sub == old(subgraphs[key]) && subgraphs == old(subgraphs) && Root().seqNo == old(Root().seqNo)
      ensures key !in old(subgraphs) ==>
        && fresh(sub) && fresh(sub.attributes) && sub.parent == this
        && subgraphs == old(subgraphs)[key := sub]
        && Root().seqNo == old(Root().seqNo) + 1
        && sub.Header() == AppliedAll(options, Head("s" + NatToString(Root().seqNo), false, Sub.name))
        && sub.attributes.attributes == map["label" := Str(key)]
        && sub.nodes == map[] && sub.edgesFrom == map[] && sub.subgraphs == map[]
        && sub.sameRank == map[]
      ensures forall r: Graph {:trigger r.Valid()} {:trigger old(r.Valid())} :: old(allocated(r)) && r.Rooted() && old(r.Valid()) ==> r.Valid()
    {
      RootsAllocated();
      if key in subgraphs {
        return subgraphs[key];
      }
      var k := NextSeq();
      sub := new Graph.Child(this, key, "s" + NatToString(k), options);
      Link(key, sub);
    }

    /** Stores a new subgraph under its key and records it in the root. */
    method Link(key: string, sub: Graph)
      requires Rooted() && Valid() && sub.Rooted() && sub.parent == this
      requires sub.subgraphs == map[] && sub.nodes == map[]
      modifies this`subgraphs, Root()`members, Root()`height
      ensures subgraphs == old(subgraphs)[key := sub]
      ensures sub.Valid()
      ensures forall r: Graph {:trigger r.Valid()} {:trigger old(r.Valid())} :: old(allocated(r)) && r.Rooted() && old(r.Valid()) ==> r.Valid()
    {
      RootsAllocated();
      Root().Enroll(sub);
      Attach(key, sub);
    }

    /** A root takes a new graph of its tree, one without subgraphs, as a member. */
    method Enroll(sub: Graph)
      requires Rooted() && parent == null && Tree()
      requires sub.Rooted() && sub.parent != null && sub.parent in members
      requires sub.subgraphs == map[] && sub.nodes == map[]
      modifies this`members, this`height
      ensures members == old(members) + {sub} && height >= old(height)
      ensures Tree()
      ensures forall r: Graph {:trigger r.Valid()} {:trigger old(r.Valid())} :: old(allocated(r)) && r.Rooted() && old(r.Valid()) ==> r.Valid()
    {
      members := members + {sub};
      if height < sub.depth {
        height := sub.depth;
      }
      assert forall g: Graph :: old(allocated(g)) ==>
        && g.subgraphs == old(g.subgraphs) && g.nodes == old(g.nodes)
        && (g != this ==> g.members == old(g.members) && g.height == old(g.height));
      assert forall g :: g in members && g.parent != null ==> g.parent in members;
      assert forall g, k :: g in members && k in g.nodes ==> g in old(members);
      assert Tree();
      RootGrown(this);
    }

    /** Stores a member of the tree as a subgraph of its parent. */
    method Attach(key: string, sub: Graph)
      requires Rooted() && Valid() && sub.Rooted() && sub.parent == this && sub in Root().members
      modifies this`subgraphs
      ensures subgraphs == old(subgraphs)[key := sub]
      ensures forall r: Graph {:trigger r.Valid()} {:trigger old(r.Valid())} :: old(allocated(r)) && r.Rooted() && old(r.Valid()) ==> r.Valid()
    {
      RootsAllocated();
      subgraphs := subgraphs[key := sub];
      assert Root().Tree();
      forall r: Graph | old(allocated(r)) && r.Rooted() && old(r.Valid())
        ensures r.Valid()
      {
        var root := r.Root();
        if root != Root() {
          assert this !in old(root.members);
        }
      }
    }

    /** `DeleteNode(id)`: when `findNode` finds the id, removes the local
        node and its local outgoing edges, and from every local bucket the
        first edge whose head has that id. */
    method DeleteNode(id: string) returns (deleted: bool)
      requires Rooted()
      modifies this`nodes, this`edgesFrom
      ensures deleted == old(FindNode(id)).Some?
      ensures !deleted ==> nodes == old(nodes) && edgesFrom == old(edgesFrom)
      ensures deleted ==>
        nodes == old(nodes) - {id} && edgesFrom == RemoveIncoming(old(edgesFrom) - {id}, id)
      ensures forall r: Graph {:trigger r.Valid()} {:trigger old(r.Valid())} :: old(allocated(r)) && r.Rooted() && old(r.Valid()) ==> r.Valid()
    {
      RootsAllocated();
      if FindNode(id).None? {
        return false;
      }
      nodes := nodes - {id};
      edgesFrom := edgesFrom - {id};
      RemoveFirstEdgesTo(id);
      NodesChanged(this);
      return true;
    }

    /** The loop of `DeleteNode` over the buckets: each bucket loses its
        first edge whose head has the id. */
    method RemoveFirstEdgesTo(id: string)
      modifies this`edgesFrom
      ensures edgesFrom == RemoveIncoming(old(edgesFrom), id)
    {
      ghost var start := edgesFrom;
      var keys := edgesFrom.Keys;
      while keys != {}
        invariant keys <= start.Keys && edgesFrom.Keys == start.Keys
        invariant forall k :: k in start && k !in keys ==> edgesFrom[k] == RemoveFirstTo(start[k], id)
        invariant forall k :: k in keys ==> edgesFrom[k] == start[k]
        decreases |keys|
      {
        var k :| k in keys;
        var list := edgesFrom[k];
        var i := FirstIndexTo(list, id);
        if i < |list| {
          RemoveFirstToAt(list, id, i);
          edgesFrom := edgesFrom[k := list[..i] + list[i + 1..]];
        } else {
          RemoveFirstToNone(list, id);
        }
        keys := keys - {k};
      }
      assert edgesFrom == RemoveIncoming(start, id);
    }

    /** `DeleteNode(id)` as its comment intends: like `DeleteNode`, but every
        local edge whose head has the id is removed, not only the first of
        each bucket. */
    method DeleteNodeAndEdges(id: string) returns (deleted: bool)
      requires Rooted()
      modifies this`nodes, this`edgesFrom
      ensures deleted == old(FindNode(id)).Some?
      ensures !deleted ==> nodes == old(nodes) && edgesFrom == old(edgesFrom)
      ensures deleted ==>
        nodes == old(nodes) - {id} && edgesFrom == RemoveAllIncoming(old(edgesFrom) - {id}, id)
      ensures forall r: Graph {:trigger r.Valid()} {:trigger old(r.Valid())} :: old(allocated(r)) && r.Rooted() && old(r.Valid()) ==> r.Valid()
    {
      RootsAllocated();
      if FindNode(id).None? {
        return false;
      }
      nodes := nodes - {id};
      edgesFrom := edgesFrom - {id};
      RemoveAllEdgesTo(id);
      NodesChanged(this);
      return true;
    }

    /** The corrected loop over the buckets: each bucket loses every edge
        whose head has the id. */
    method RemoveAllEdgesTo(id: string)
      modifies this`edgesFrom
      ensures edgesFrom == RemoveAllIncoming(old(edgesFrom), id)
    {
      ghost var start := edgesFrom;
      var keys := edgesFrom.Keys;
      while keys != {}
        invariant keys <= start.Keys && edgesFrom.Keys == start.Keys
        invariant forall k :: k in start && k !in keys ==> edgesFrom[k] == RemoveAllTo(start[k], id)
        invariant forall k :: k in keys ==> edgesFrom[k] == start[k]
        decreases |keys|
      {
        var k :| k in keys;
        var kept := FilterEdgesTo(edgesFrom[k], id);
        edgesFrom := edgesFrom[k := kept];
        keys := keys - {k};
      }
      assert edgesFrom == RemoveAllIncoming(start, id);
    }

    /** The graph that keeps an edge: the graph both endpoints belong to,
        or else the common parent. */
    function EdgeOwner(from: Node, to: Node): (o: Graph)
      requires Rooted() && from.graph.Rooted()
      ensures from.graph == to.graph ==> o == this
      ensures from.graph != to.graph ==> o == from.graph.Root()
    {
      if from.graph == to.graph then this else CommonParentOf(from.graph, to.graph)
    }

    /** `commonParentOf(one, two)`: the root of the first graph. */
    static function CommonParentOf(one: Graph, two: Graph): (r: Graph)
      requires one.Rooted()
      ensures r.parent == null && r == one.Root()
    {
      one.Root()
    }

    /** `EdgeWithPorts(from, to, fromPort, toPort, labels...)`: a new edge,
        appended to the owner's bucket for the tail id. */
    method EdgeWithPorts(from: Node, to: Node, fromPort: string, toPort: string, labels: seq<string>)
      returns (e: Edge)
      requires Rooted() && Valid() && from.graph.Rooted()
      modifies EdgeOwner(from, to)`edgesFrom
      ensures e.graph == EdgeOwner(from, to)
      ensures e.from == from && e.to == to && e.fromPort == fromPort && e.toPort == toPort
      ensures fresh(e.attributes) && e.attributes.attributes == EdgeLabel(labels)
      ensures e.graph.edgesFrom == old(EdgeOwner(from, to).edgesFrom)[from.id := Bucket(old(EdgeOwner(from, to).edgesFrom), from.id) + [e]]
      ensures forall r: Graph {:trigger r.Valid()} {:trigger old(r.Valid())} :: old(allocated(r)) && r.Rooted() && old(r.Valid()) ==> r.Valid()
    {
      RootsAllocated();
      var owner := EdgeOwner(from, to);
      var attrs := NewEdgeAttributes(labels);
      e := EdgeValue(attrs, owner, from, to, fromPort, toPort);
      owner.edgesFrom := owner.edgesFrom[from.id := Bucket(owner.edgesFrom, from.id) + [e]];
      StructureKept();
    }

    /** `Edge(from, to, labels...)`: an edge without ports. */
    method Edge(from: Node, to: Node, labels: seq<string>) returns (e: Edge)
      requires Rooted() && Valid() && from.graph.Rooted()
      modifies EdgeOwner(from, to)`edgesFrom
      ensures e.graph == EdgeOwner(from, to)
      ensures e.from == from && e.to == to && e.fromPort == "" && e.toPort == ""
      ensures fresh(e.attributes) && e.attributes.attributes == EdgeLabel(labels)
      ensures e.graph.edgesFrom == old(EdgeOwner(from, to).edgesFrom)[from.id := Bucket(old(EdgeOwner(from, to).edgesFrom), from.id) + [e]]
      ensures forall r: Graph {:trigger r.Valid()} {:trigger old(r.Valid())} :: old(allocated(r)) && r.Rooted() && old(r.Valid()) ==> r.Valid()
    {
      RootsAllocated();
      e := EdgeWithPorts(from, to, "", "", labels);
    }

    /** `FindEdges(from, to)`: the edges from `from` to `to` held by the
        graph that would own a new one, in the order they were made. */
    method FindEdges(from: Node, to: Node) returns (found: seq<Edge>)
      requires Rooted() && from.graph.Rooted()
      ensures found == EdgesTo(Bucket(EdgeOwner(from, to).edgesFrom, from.id), to.id)
    {
      var owner := EdgeOwner(from, to);
      found := [];
      if from.id in owner.edgesFrom {
        var edges := owner.edgesFrom[from.id];
        for i := 0 to |edges|
          invariant found == EdgesTo(edges[..i], to.id)
        {
          assert edges[..i + 1][..i] == edges[..i];
          if edges[i].to.id == to.id {
            found := found + [edges[i]];
          }
        }
        assert edges[..|edges|] == edges;
      }
    }

    /** `AddToSameRank(group, nodes...)`: appends to the named rank group. */
    method AddToSameRank(group: string, ns: seq<Node>)
      modifies this`sameRank
      ensures sameRank == old(sameRank)[group := Bucket(old(sameRank), group) + ns]
      ensures forall r: Graph {:trigger r.Valid()} {:trigger old(r.Valid())} :: old(allocated(r)) && r.Rooted() && old(r.Valid()) ==> r.Valid()
    {
      RootsAllocated();
      sameRank := sameRank[group := Bucket(sameRank, group) + ns];
    }

    /** `HasNode(n)`: the node was made by this very graph. */
    predicate HasNode(n: Node)
      ensures HasNode(n) <==> n.graph == this
    {
      n.graph == this
    }

    /** Every node stored in a valid graph was made by that graph. */
    lemma StoredNodeHasNode(id: string)
      requires Rooted() && Valid() && id in nodes
      ensures HasNode(nodes[id])
    {
      assert this in Root().members;
    }

    /** A node stored in any other graph of the same tree (a subgraph at
        any depth, an ancestor or a sibling) was not made by this graph. */
    lemma OtherGraphNodeNotHere(h: Graph, id: string)
      requires Rooted() && Valid() && h in Root().members && h != this && id in h.nodes
      ensures !HasNode(h.nodes[id])
    {
      assert this in Root().members;
    }

    /** The node `findNode` finds in a valid graph is this graph's own
        exactly when this graph stores it itself rather than an ancestor. */
    lemma FoundNodeHereIffStored(id: string)
      requires Rooted() && Valid() && FindNode(id).Some?
      ensures HasNode(FindNode(id).value) <==> id in nodes
    {
      if id in nodes {
        StoredNodeHasNode(id);
      } else {
        ChainValid();
        FindNodeInChain(id);
        var a :| a in Chain() && id in a.nodes && a.nodes[id] == FindNode(id).value;
        assert a in Root().members;
        OtherGraphNodeNotHere(a, id);
      }
    }
  }

  /** After `Node(id)` the node is this graph's own exactly when this graph
      already stored it or no graph of the chain held the id, so `Node`
      made it here. */
  method NodeOwnership(g: Graph, id: string) returns (n: Node)
    requires g.Rooted() && g.Valid()
    modifies g`nodes, g.Root()`seqNo
    ensures old(g.FindNode(id)).None? ==> g.HasNode(n) && id in g.nodes && g.nodes[id] == n
    ensures g.HasNode(n) <==> id in old(g.nodes) || old(g.FindNode(id)).None?
  {
    if g.FindNode(id).Some? {
      g.FoundNodeHereIffStored(id);
    }
    n := g.Node(id);
  }

  /** Looking a node up again after `Node(id)` made it finds that same
      node, so a second `Node(id)` returns it and creates nothing. */
  method NodeTwice(g: Graph, id: string) returns (first: Node, second: Node)
    requires g.Rooted()
    modifies g`nodes, g.Root()`seqNo
    ensures first == second
    ensures g.Root().seqNo <= old(g.Root().seqNo) + 1
  {
    first := g.Node(id);
    second := g.Node(id);
  }
}
