/** The older, flat `Digraph` (grammar.go): a counter, nodes by id and edges
    grouped by the id of their tail, written as a `digraph { ... }` text
    with one `node [...]` statement per node and one `->` statement per
    edge. Its node, edge and attribute-map types mirror those of the graph
    tree but belong to this graph alone. */
module Grammar {
  import opened Text
  import opened Attributes

  /** This file's own `AttributesMap`: a reference to one Go map that all
      copies of a node or edge share. */
  class AttributesMap {
    var attributes: map<string, Value>

    constructor (initial: map<string, Value>)
      ensures attributes == initial
    {
      attributes := initial;
    }

    /** `Attr(label, value)`: sets the value unless the attribute name is empty. */
    method Attr(name: string, value: Value)
      modifies this
      ensures attributes == Put(old(attributes), name, value)
    {
      if |name| == 0 {
        return;
      }
      attributes := attributes[name := value];
    }
  }

  /** A `Node` of a `Digraph`; every copy shares the attribute map. */
  datatype Node = NodeValue(attributes: AttributesMap, graph: Digraph, id: string, seqNo: nat)
  {
    /** `Attr(label, value)`: sets one attribute and returns the node. */
    method Attr(name: string, value: Value) returns (n: Node)
      modifies attributes
      ensures n == this
      ensures attributes.attributes == Put(old(attributes.attributes), name, value)
    {
      attributes.Attr(name, value);
      n := this;
    }

    /** `Box()`: sets the shape to "box". */
    method Box() returns (n: Node)
      modifies attributes
      ensures n == this
      ensures attributes.attributes == Put(old(attributes.attributes), "shape", Str("box"))
    {
      n := Attr("shape", Str("box"));
    }

    /** `Edge(o, labels...)`: an edge to `o`, made by this node's graph. */
    method Edge(o: Node, labels: seq<string>) returns (e: Edge)
      modifies graph
      ensures e.from == this && e.to == o && e.graph == graph
      ensures fresh(e.attributes) && e.attributes.attributes == LabelsAttribute(labels)
      ensures graph.edgesFrom == old(graph.edgesFrom)[id := Bucket(old(graph.edgesFrom), id) + [e]]
      ensures graph.nodes == old(graph.nodes) && graph.seqNo == old(graph.seqNo)
    {
      e := graph.Edge(this, o, labels);
    }
  }

  /** An `Edge` of a `Digraph`; every copy shares the attribute map. */
  datatype Edge = EdgeValue(attributes: AttributesMap, graph: Digraph, from: Node, to: Node)
  {
    /** `Attr(label, value)`: sets one attribute and returns the edge. */
    method Attr(name: string, value: Value) returns (e: Edge)
      modifies attributes
      ensures e == this
      ensures attributes.attributes == Put(old(attributes.attributes), name, value)
    {
      attributes.Attr(name, value);
      e := this;
    }
  }

  /** The attributes of a new edge: none, or its labels joined by commas as
      "label". */
  function LabelsAttribute(labels: seq<string>): (r: map<string, Value>)
    ensures labels == [] ==> r == map[]
    ensures labels != [] ==> r == map["label" := Str(Join(labels, ","))]
  {
    if |labels| > 0 then Put(map[], "label", Str(Join(labels, ","))) else map[]
  }

  /** The edges stored for a tail id; none when there is no entry. */
  function Bucket(edgesFrom: map<string, seq<Edge>>, id: string): seq<Edge> {
    if id in edgesFrom then edgesFrom[id] else []
  }

  // ---------------------------------------------------------------------
  // The text, over plain values
  // ---------------------------------------------------------------------

  /** What the text shows of a node and of an edge. */
  datatype NodeShown = NodeShown(seqNo: nat, attrs: map<string, Value>)
  datatype EdgeShown = EdgeShown(fromSeq: nat, toSeq: nat, attrs: map<string, Value>)

  /** `%q` of an attribute value: the quoted text of a string, of an HTML or
      literal string alike; a Mermaid shape struct in braces with each of
      its two fields quoted, as `%q` treats the fields of a struct; the
      `%v` text of any other value, quoted. */
  function QuoteValue(v: Value): (s: string)
    ensures !v.ShapeValue? ==> |s| >= 2 && s[0] == '"' && s[|s| - 1] == '"'
    ensures v.ShapeValue? ==> |s| >= 6 && s[0] == '{' && s[1] == '"' && s[|s| - 2] == '"' && s[|s| - 1] == '}'
  {
    match v
    case Str(t) => Quote(t)
    case HTML(t) => Quote(t)
    case Literal(t) => Quote(t)
    case ShapeValue(o, c) => "{" + Quote(o) + " " + Quote(c) + "}"
    case Other(_) => Quote(Format(v))
  }

  /** One `label=%q` entry. */
  function Entry(k: string, v: Value): string {
    k + "=" + QuoteValue(v)
  }

  /** The entries for the given keys, in that order. */
  function EntriesOf(m: map<string, Value>, keys: seq<string>): (r: seq<string>)
    requires forall k :: k in keys ==> k in m
    ensures |r| == |keys| && forall i :: 0 <= i < |keys| ==> r[i] == Entry(keys[i], m[keys[i]])
  {
    seq(|keys|, i requires 0 <= i < |keys| => Entry(keys[i], m[keys[i]]))
  }

  /** The bracketed list of a non-empty attribute map, entries separated by
      ", " in ascending key order; nothing for an empty map. */
  ghost function AttrsText(m: map<string, Value>): string {
    if |m| == 0 then "" else " [" + Join(EntriesOf(m, Sorted(m.Keys)), ", ") + "]"
  }

  ghost function NodeLine(n: NodeShown): string {
    "\tnode" + AttrsText(n.attrs) + "; n" + NatToString(n.seqNo) + ";\n"
  }

  ghost function EdgeLine(e: EdgeShown): string {
    "\tn" + NatToString(e.fromSeq) + " -> n" + NatToString(e.toSeq) + AttrsText(e.attrs) + ";\n"
  }

  /** The lines of the nodes with the given ids, in that order. */
  ghost function NodeLines(nodes: map<string, NodeShown>, keys: seq<string>): string
    requires forall k :: k in keys ==> k in nodes
    decreases |keys|
  {
    if keys == [] then ""
    else NodeLines(nodes, keys[..|keys| - 1]) + NodeLine(nodes[keys[|keys| - 1]])
  }

  /** The lines of one bucket, in bucket order. */
  ghost function BucketLines(edges: seq<EdgeShown>): string
    decreases |edges|
  {
    if edges == [] then "" else BucketLines(edges[..|edges| - 1]) + EdgeLine(edges[|edges| - 1])
  }

  /** The buckets of the given tail ids, in that order. */
  ghost function EdgeLines(edgesFrom: map<string, seq<EdgeShown>>, keys: seq<string>): string
    requires forall k :: k in keys ==> k in edgesFrom
    decreases |keys|
  {
    if keys == [] then ""
    else EdgeLines(edgesFrom, keys[..|keys| - 1]) + BucketLines(edgesFrom[keys[|keys| - 1]])
  }

  /** What `String()` returns: "digraph {\n", the node lines, the edge lines
      and "}". Go ranges over its maps in no fixed order; this is the text
      for ascending ids and attribute names. */
  ghost function DigraphText(nodes: map<string, NodeShown>, edgesFrom: map<string, seq<EdgeShown>>): string {
    "digraph {\n" + NodeLines(nodes, Sorted(nodes.Keys)) + EdgeLines(edgesFrom, Sorted(edgesFrom.Keys)) + "}"
  }

  lemma EntriesOfSnoc(m: map<string, Value>, keys: seq<string>, i: nat)
    requires i < |keys| && forall k :: k in keys ==> k in m
    ensures EntriesOf(m, keys[..i + 1]) == EntriesOf(m, keys[..i]) + [Entry(keys[i], m[keys[i]])]
  {
    PrefixStep(keys, i);
  }

  lemma NodeLinesSnoc(nodes: map<string, NodeShown>, keys: seq<string>, i: nat)
    requires i < |keys| && forall k :: k in keys ==> k in nodes
    ensures NodeLines(nodes, keys[..i + 1]) == NodeLines(nodes, keys[..i]) + NodeLine(nodes[keys[i]])
  {
    PrefixStep(keys, i);
  }

  lemma BucketLinesSnoc(edges: seq<EdgeShown>, i: nat)
    requires i < |edges|
    ensures BucketLines(edges[..i + 1]) == BucketLines(edges[..i]) + EdgeLine(edges[i])
  {
    PrefixStep(edges, i);
  }

  lemma EdgeLinesSnoc(edgesFrom: map<string, seq<EdgeShown>>, keys: seq<string>, i: nat)
    requires i < |keys| && forall k :: k in keys ==> k in edgesFrom
    ensures EdgeLines(edgesFrom, keys[..i + 1]) == EdgeLines(edgesFrom, keys[..i]) + BucketLines(edgesFrom[keys[i]])
  {
    PrefixStep(keys, i);
  }

  /** An empty graph is written `digraph {\n}`. */
  lemma EmptyDigraphText()
    ensures DigraphText(map[], map[]) == "digraph {\n}"
  {
    SortedNone();
  }

  /** Two nodes "A" and "B", labelled with their ids, and one edge from
    "A" to "B": the graph of grammar_test.go. */
  function TwoNodesShown(): map<string, NodeShown> {
    map["A" := NodeShown(1, map["label" := Str("A")]), "B" := NodeShown(2, map["label" := Str("B")])]
  }

  function OneEdgeShown(): map<string, seq<EdgeShown>> {
    map["A" := [EdgeShown(1, 2, map[])]]
  }

  /** Its text: one `node` statement per node and one `->` statement. */
  lemma TwoConnectedNodesText(nodes: map<string, NodeShown>, edgesFrom: map<string, seq<EdgeShown>>)
    requires nodes == TwoNodesShown() && edgesFrom == OneEdgeShown()
    ensures DigraphText(nodes, edgesFrom)
            == "digraph {\n" + "\tnode [label=\"A\"]; n1;\n" + "\tnode [label=\"B\"]; n2;\n" + "\tn1 -> n2;\n" + "}"
  {
    var a, b, e := LineA(), LineB(), LineAB();
    TwoNodeLines(nodes, a, b);
    OneEdgeLine(edgesFrom, e);
    DigraphTextParts(nodes, edgesFrom, a, b, e);
  }

  function LineA(): string { "\tnode [label=\"A\"]; n1;\n" }
  function LineB(): string { "\tnode [label=\"B\"]; n2;\n" }
  function LineAB(): string { "\tn1 -> n2;\n" }

  lemma DigraphTextParts(nodes: map<string, NodeShown>, edgesFrom: map<string, seq<EdgeShown>>, a: string, b: string, y: string)
    requires NodeLines(nodes, Sorted(nodes.Keys)) == a + b && EdgeLines(edgesFrom, Sorted(edgesFrom.Keys)) == y
    ensures DigraphText(nodes, edgesFrom) == "digraph {\n" + a + b + y + "}"
  {
    var d := "digraph {\n";
    assert d + (a + b) == d + a + b;
  }

  lemma TwoNodeLines(nodes: map<string, NodeShown>, a: string, b: string)
    requires nodes == TwoNodesShown()
    requires a == LineA() && b == LineB()
    ensures NodeLines(nodes, Sorted(nodes.Keys)) == a + b
  {
    TwoKeys(nodes.Keys);
    NodeLinesTwo(nodes, "A", "B");
    TwoLabelLines(nodes["A"], nodes["B"], a, b);
  }

  lemma TwoLabelLines(na: NodeShown, nb: NodeShown, a: string, b: string)
    requires na == NodeShown(1, map["label" := Str("A")]) && nb == NodeShown(2, map["label" := Str("B")])
    requires a == LineA() && b == LineB()
    ensures NodeLine(na) == a && NodeLine(nb) == b
  {
    LabelLine(na, "A", 1);
    LabelLine(nb, "B", 2);
    LabelLiteralA();
    LabelLiteralB();
  }

  lemma TwoKeys(keys: set<string>)
    requires keys == {"A", "B"}
    ensures Sorted(keys) == ["A", "B"]
  {
    assert Less("A", "B");
    SortedTwo("A", "B");
  }

  lemma NodeLinesTwo(nodes: map<string, NodeShown>, x: string, y: string)
    requires x in nodes && y in nodes
    ensures NodeLines(nodes, [x, y]) == NodeLine(nodes[x]) + NodeLine(nodes[y])
  {
    var keys := [x, y];
    assert keys[..1] == [x] && keys[1] == y && [x][..0] == [] && [x][0] == x;
    assert NodeLines(nodes, keys) == NodeLines(nodes, [x]) + NodeLine(nodes[y]);
    assert NodeLines(nodes, [x]) == "" + NodeLine(nodes[x]);
    assert "" + NodeLine(nodes[x]) == NodeLine(nodes[x]);
  }

  /** A one-attribute map is written as that entry between brackets. */
  lemma SingleAttrText(k: string, v: Value)
    ensures AttrsText(map[k := v]) == " [" + Entry(k, v) + "]"
  {
    SortedOne(k);
    assert map[k := v].Keys == {k};
    assert EntriesOf(map[k := v], [k]) == [Entry(k, v)];
  }

  /** A node whose only attribute is a plain-text label. */
  lemma LabelLine(n: NodeShown, txt: string, k: nat)
    requires n == NodeShown(k, map["label" := Str(txt)])
    requires forall i :: 0 <= i < |txt| ==> Plain(txt[i])
    ensures NodeLine(n) == "\tnode" + (" [" + ("label" + "=" + ("\"" + txt + "\"")) + "]") + "; n" + NatToString(k) + ";\n"
  {
    SingleAttrText("label", Str(txt));
    QuotePlain(txt);
  }

  lemma LabelLiteralA()
    ensures "\tnode" + (" [" + ("label" + "=" + ("\"" + "A" + "\"")) + "]") + "; n" + NatToString(1) + ";\n" == LineA()
  {
  }

  lemma LabelLiteralB()
    ensures "\tnode" + (" [" + ("label" + "=" + ("\"" + "B" + "\"")) + "]") + "; n" + NatToString(2) + ";\n" == LineB()
  {
  }

  lemma OneEdgeLine(edgesFrom: map<string, seq<EdgeShown>>, e: string)
    requires edgesFrom == OneEdgeShown() && e == LineAB()
    ensures EdgeLines(edgesFrom, Sorted(edgesFrom.Keys)) == e
  {
    assert edgesFrom.Keys == {"A"};
    SortedOne("A");
    var bucket := edgesFrom["A"];
    assert bucket[..0] == [] && ["A"][..0] == [];
    assert EdgeLine(bucket[0]) == e;
  }

  // ---------------------------------------------------------------------
  // The graph
  // ---------------------------------------------------------------------

  class Digraph {
    var seqNo: nat
    var nodes: map<string, Node>
    var edgesFrom: map<string, seq<Edge>>

    /** `NewDigraph()`: no nodes, no edges, the counter at zero. */
    constructor ()
      ensures seqNo == 0 && nodes == map[] && edgesFrom == map[]
    {
      seqNo := 0;
      nodes := map[];
      edgesFrom := map[];
    }

    /** `Node(id)`: the node stored under the id, or else a new one labelled
        with its id and numbered by the counter. */
    method Node(id: string) returns (n: Node)
      modifies this
      ensures id in old(nodes) ==> n == old(nodes)[id] && nodes == old(nodes) && seqNo == old(seqNo)
      ensures id !in old(nodes) ==>
        && n.id == id && n.graph == this && n.seqNo == old(seqNo) + 1 && seqNo == n.seqNo
        && fresh(n.attributes) && n.attributes.attributes == map["label" := Str(id)]
        && nodes == old(nodes)[id := n]
      ensures id in nodes && nodes[id] == n
      ensures edgesFrom == old(edgesFrom)
    {
      if id in nodes {
        return nodes[id];
      }
      seqNo := seqNo + 1;
      var attrs := new AttributesMap(map["label" := Str(id)]);
      n := NodeValue(attrs, this, id, seqNo);
      nodes := nodes[id := n];
    }

    /** `Edge(n1, n2, labels...)`: one more edge at the end of the bucket of
        `n1`'s id; the labels, if any, set its "label" through the map the
        stored edge shares. */
    method Edge(n1: Node, n2: Node, labels: seq<string>) returns (e: Edge)
      modifies this
      ensures e.from == n1 && e.to == n2 && e.graph == this
      ensures fresh(e.attributes) && e.attributes.attributes == LabelsAttribute(labels)
      ensures edgesFrom == old(edgesFrom)[n1.id := Bucket(old(edgesFrom), n1.id) + [e]]
      ensures nodes == old(nodes) && seqNo == old(seqNo)
    {
      var attrs := new AttributesMap(map[]);
      e := EdgeValue(attrs, this, n1, n2);
      edgesFrom := edgesFrom[n1.id := Bucket(edgesFrom, n1.id) + [e]];
      if |labels| > 0 {
        var _ := e.Attr("label", Str(Join(labels, ",")));
      }
    }

    /** The attribute maps the text reads. */
    ghost function Objects(): set<object>
      reads this
    {
      (set k | k in nodes :: nodes[k].attributes)
      + (set k, i | k in edgesFrom && 0 <= i < |edgesFrom[k]| :: edgesFrom[k][i].attributes)
    }

    /** The nodes as the text shows them. */
    function NodesShown(): (r: map<string, NodeShown>)
      reads this, Objects()
      ensures r.Keys == nodes.Keys
    {
      map k | k in nodes :: NodeShown(nodes[k].seqNo, nodes[k].attributes.attributes)
    }

    function BucketShown(edges: seq<Edge>): (r: seq<EdgeShown>)
      requires forall i :: 0 <= i < |edges| ==> edges[i].attributes in Objects()
      reads this, Objects()
      ensures |r| == |edges|
      ensures forall i :: 0 <= i < |edges| ==>
        r[i] == EdgeShown(edges[i].from.seqNo, edges[i].to.seqNo, edges[i].attributes.attributes)
    {
      seq(|edges|, i requires 0 <= i < |edges| && edges[i].attributes in Objects() reads this, Objects() =>
        EdgeShown(edges[i].from.seqNo, edges[i].to.seqNo, edges[i].attributes.attributes))
    }

    /** The edges as the text shows them. */
    function EdgesShown(): (r: map<string, seq<EdgeShown>>)
      reads this, Objects()
      ensures r.Keys == edgesFrom.Keys
    {
      map k | k in edgesFrom :: BucketShown(edgesFrom[k])
    }

    /** `String()`: the text of the graph; nothing changes. The nodes and
        edges are read once, then written. */
    method String() returns (s: string)
      ensures s == DigraphText(old(NodesShown()), old(EdgesShown()))
    {
      var shownNodes := NodesShown();
      var shownEdges := EdgesShown();
      var nodeLines := WriteNodes(shownNodes);
      var edgeLines := WriteEdges(shownEdges);
      s := "digraph {\n" + nodeLines + edgeLines + "}";
    }
  }

  /** The first loop of `String()`: one line per node. */
  method WriteNodes(nodes: map<string, NodeShown>) returns (s: string)
    ensures s == NodeLines(nodes, Sorted(nodes.Keys))
  {
    s := "";
    var keys := SortedKeys(nodes.Keys);
    for i := 0 to |keys|
      invariant s == NodeLines(nodes, keys[..i])
    {
      var each := nodes[keys[i]];
      var list := WriteAttributes(each.attrs);
      NodeLinesSnoc(nodes, keys, i);
      s := s + ("\tnode" + list + "; n" + NatToString(each.seqNo) + ";\n");
    }
    assert keys[..|keys|] == keys;
  }

  /** The inner loop of `String()`: one line per edge of a bucket. */
  method WriteBucket(all: seq<EdgeShown>) returns (s: string)
    ensures s == BucketLines(all)
  {
    s := "";
    for j := 0 to |all|
      invariant s == BucketLines(all[..j])
    {
      var each := all[j];
      var list := WriteAttributes(each.attrs);
      BucketLinesSnoc(all, j);
      s := s + ("\tn" + NatToString(each.fromSeq) + " -> n" + NatToString(each.toSeq) + list + ";\n");
    }
    assert all[..|all|] == all;
  }

  /** The second loop of `String()`: the buckets one after another. */
  method WriteEdges(edgesFrom: map<string, seq<EdgeShown>>) returns (s: string)
    ensures s == EdgeLines(edgesFrom, Sorted(edgesFrom.Keys))
  {
    s := "";
    var tails := SortedKeys(edgesFrom.Keys);
    for i := 0 to |tails|
      invariant s == EdgeLines(edgesFrom, tails[..i])
    {
      var lines := WriteBucket(edgesFrom[tails[i]]);
      EdgeLinesSnoc(edgesFrom, tails, i);
      s := s + lines;
    }
    assert tails[..|tails|] == tails;
  }

  /** Writes the bracketed list of an attribute map, or nothing when it is
      empty: the `first` flag puts ", " before every entry but the first. */
  method WriteAttributes(m: map<string, Value>) returns (s: string)
    ensures s == AttrsText(m)
  {
    if |m| == 0 {
      return "";
    }
    var keys := SortedKeys(m.Keys);
    var list := "";
    var first := true;
    for i := 0 to |keys|
      invariant first <==> i == 0
      invariant list == Join(EntriesOf(m, keys[..i]), ", ")
    {
      if !first {
        list := list + ", ";
      }
      JoinSnoc(EntriesOf(m, keys[..i]), Entry(keys[i], m[keys[i]]), ", ");
      EntriesOfSnoc(m, keys, i);
      list := list + Entry(keys[i], m[keys[i]]);
      first := false;
    }
    assert keys[..|keys|] == keys;
    s := " [" + list + "]";
  }

  /** `TestEmpty`: a new graph is written `digraph {\n}`. */
  method EmptyDigraph() returns (s: string)
    ensures s == "digraph {\n}"
  {
    var di := new Digraph();
    assert di.NodesShown() == map[] && di.EdgesShown() == map[];
    s := di.String();
    EmptyDigraphText();
  }

  /** `TestTwoConnectedNodes`: nodes "A" and "B" and an edge between them,
      made by the graph's own methods, give the text of
      `TwoConnectedNodesText`. */
  method TwoConnectedNodes() returns (s: string)
    ensures s == "digraph {\n" + "\tnode [label=\"A\"]; n1;\n" + "\tnode [label=\"B\"]; n2;\n" + "\tn1 -> n2;\n" + "}"
  {
    var di := new Digraph();
    var n1 := di.Node("A");
    var n2 := di.Node("B");
    var e := di.Edge(n1, n2, []);
    assert [] + [e] == [e];
    TwoConnectedShown(di, n1, n2, e);
    TwoConnectedNodesText(di.NodesShown(), di.EdgesShown());
    s := di.String();
  }

  lemma TwoConnectedShown(di: Digraph, n1: Node, n2: Node, e: Edge)
    requires di.nodes == map["A" := n1, "B" := n2] && di.edgesFrom == map["A" := [e]]
    requires n1.seqNo == 1 && n1.attributes.attributes == map["label" := Str("A")]
    requires n2.seqNo == 2 && n2.attributes.attributes == map["label" := Str("B")]
    requires e.from == n1 && e.to == n2 && e.attributes.attributes == map[]
    ensures di.NodesShown() == TwoNodesShown() && di.EdgesShown() == OneEdgeShown()
  {
    assert e == di.edgesFrom["A"][0];
    assert e.attributes in di.Objects();
    assert di.BucketShown([e]) == [EdgeShown(1, 2, map[])];
  }

  /** `Digraph.Node(id)` called twice gives the same node and makes no
      second one. */
  method NodeTwice(g: Digraph, id: string) returns (first: Node, second: Node)
    modifies g
    ensures first == second && id in g.nodes && g.nodes[id] == first
    ensures g.seqNo <= old(g.seqNo) + 1
  {
    first := g.Node(id);
    second := g.Node(id);
  }
}
