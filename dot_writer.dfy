/** The DOT text of a graph: `String`, `IndentedWrite` and `appendSortedMap`
    (graph.go). The text is given without the line breaks and tabs that
    `IndentWriter` adds around it. */
module DotWriter {
  import opened Text
  import opened Attributes
  import opened Dot
  import opened Views

  // ---------------------------------------------------------------------
  // appendSortedMap
  // ---------------------------------------------------------------------

  /** One attribute as `appendSortedMap` writes it: an HTML value between
      angle brackets, a literal as it is, a string quoted by `%q`, and any
      other value by `%v` between double quotes. */
  function AttrEntry(k: string, v: Value): (s: string)
    ensures |s| > |k| && s[..|k| + 1] == k + "="
  {
    var value :=
      match v
      case HTML(h) => "<" + h + ">"
      case Literal(l) => l
      case Str(t) => Quote(t)
      case _ => "\"" + Format(v) + "\"";
    assert (k + "=" + value)[..|k| + 1] == k + "=";
    k + "=" + value
  }

  /** The entries for the given keys, in that order. */
  function Entries(m: map<string, Value>, keys: seq<string>): (r: seq<string>)
    requires forall k :: k in keys ==> k in m
    ensures |r| == |keys|
    ensures forall i :: 0 <= i < |keys| ==> r[i] == AttrEntry(keys[i], m[keys[i]])
  {
    seq(|keys|, i requires 0 <= i < |keys| => AttrEntry(keys[i], m[keys[i]]))
  }

  /** What `appendSortedMap(m, mustBracket)` writes: nothing for an empty
      map; otherwise one entry per key in ascending key order, separated by
      commas inside square brackets, or each followed by a semicolon. */
  ghost function AttrList(m: map<string, Value>, mustBracket: bool): string {
    if |m| == 0 then ""
    else if mustBracket then "[" + Join(Entries(m, Sorted(m.Keys)), ",") + "]"
    else Join(Entries(m, Sorted(m.Keys)), ";") + ";"
  }

  /** `appendSortedMap`: collects the keys, sorts them and writes each entry. */
  method AppendSortedMap(m: map<string, Value>, mustBracket: bool) returns (s: string)
    ensures s == AttrList(m, mustBracket)
  {
    if |m| == 0 {
      return "";
    }
    var keys := SortedKeys(m.Keys);
    var body := WriteEntries(m, keys, if mustBracket then "," else ";");
    s := if mustBracket then "[" + body + "]" else body + ";";
  }

  /** The key loop of `appendSortedMap`: a separator before every entry
      but the first. */
  method WriteEntries(m: map<string, Value>, keys: seq<string>, sep: string) returns (s: string)
    requires forall k :: k in keys ==> k in m
    ensures s == Join(Entries(m, keys), sep)
  {
    s := "";
    var first := true;
    for i := 0 to |keys|
      invariant first <==> i == 0
      invariant s == Join(Entries(m, keys[..i]), sep)
    {
      var e := AttrEntry(keys[i], m[keys[i]]);
      EntriesSnoc(m, keys, i);
      JoinSnoc(Entries(m, keys[..i]), e, sep);
      if !first {
        s := s + sep;
      }
      s := s + e;
      first := false;
    }
    assert keys[..|keys|] == keys;
  }

  lemma EntriesSnoc(m: map<string, Value>, keys: seq<string>, i: nat)
    requires i < |keys| && forall k :: k in keys ==> k in m
    ensures Entries(m, keys[..i + 1]) == Entries(m, keys[..i]) + [AttrEntry(keys[i], m[keys[i]])]
  {
    var a, b := Entries(m, keys[..i + 1]), Entries(m, keys[..i]) + [AttrEntry(keys[i], m[keys[i]])];
    forall j | 0 <= j <= i
      ensures a[j] == b[j]
    {
      if j < i {
        assert keys[..i + 1][j] == keys[..i][j];
      }
    }
  }

  /** A one-attribute list is that entry alone, in brackets or followed by
      a semicolon. */
  lemma AttrListSingle(k: string, v: Value)
    ensures AttrList(map[k := v], true) == "[" + AttrEntry(k, v) + "]"
    ensures AttrList(map[k := v], false) == AttrEntry(k, v) + ";"
  {
    SortedOne(k);
    assert map[k := v].Keys == {k};
  }

  /** Two attributes are written in key order. */
  lemma AttrListPair(k1: string, v1: Value, k2: string, v2: Value)
    requires Less(k1, k2)
    ensures AttrList(map[k1 := v1, k2 := v2], true) == "[" + (AttrEntry(k1, v1) + "," + AttrEntry(k2, v2)) + "]"
  {
    var m := map[k1 := v1, k2 := v2];
    PairKeys(m, k1, v1, k2, v2);
    PairEntries(m, k1, k2);
  }

  lemma PairKeys(m: map<string, Value>, k1: string, v1: Value, k2: string, v2: Value)
    requires Less(k1, k2) && m == map[k1 := v1, k2 := v2]
    ensures |m| == 2 && Sorted(m.Keys) == [k1, k2] && m[k1] == v1 && m[k2] == v2
  {
    SortedTwo(k1, k2);
    LessIrreflexive(k1);
    assert m.Keys == {k1, k2};
  }

  lemma PairEntries(m: map<string, Value>, k1: string, k2: string)
    requires k1 in m && k2 in m
    ensures Join(Entries(m, [k1, k2]), ",") == AttrEntry(k1, m[k1]) + "," + AttrEntry(k2, m[k2])
  {
    JoinPair(Entries(m, [k1, k2]), ",");
  }

  // ---------------------------------------------------------------------
  // IndentedWrite
  // ---------------------------------------------------------------------

  /** The opening of a graph: "strict " only for a strict graph that is not
      a subgraph, then the graph type, the id and the opening brace. */
  function HeaderText(v: GraphView): string {
    (if v.isStrict && v.graphType != Sub.name then "strict " else "")
    + v.graphType + " " + v.id + " {"
  }

  /** The edge connector: "--" in an undirected graph, "->" otherwise. */
  function Connector(graphType: string): (c: string)
    ensures c == "--" <==> graphType == "graph"
    ensures c == "->" <==> graphType != "graph"
  {
    if graphType == "graph" then "--" else "->"
  }

  /** ":port", or nothing when no port is set. */
  function PortText(port: string): (s: string)
    ensures port == "" ==> s == ""
    ensures port != "" ==> s == ":" + port
  {
    if port == "" then "" else ":" + port
  }

  /** A node statement, given its attribute list. */
  function NodeLine(n: NodeView, attrs: string): string {
    Seq(n.seqNo) + attrs + ";"
  }

  /** An edge statement, given the connector and its attribute list. */
  function EdgeLine(e: EdgeView, connector: string, attrs: string): string {
    Seq(e.fromSeq) + PortText(e.fromPort) + connector + Seq(e.toSeq) + PortText(e.toPort)
    + attrs + ";"
  }

  /** The edges of one group, in order. */
  ghost function BucketText(edges: seq<EdgeView>, connector: string): string
    decreases |edges|
  {
    if edges == [] then ""
    else
      var e := edges[|edges| - 1];
      BucketText(edges[..|edges| - 1], connector) + EdgeLine(e, connector, AttrList(e.attrs, true))
  }

  /** The nodes with the given ids, in that order. */
  ghost function NodesText(nodes: map<string, NodeView>, keys: seq<string>): string
    requires forall k :: k in keys ==> k in nodes
    decreases |keys|
  {
    if keys == [] then ""
    else
      var n := nodes[keys[|keys| - 1]];
      NodesText(nodes, keys[..|keys| - 1]) + NodeLine(n, AttrList(n.attrs, true))
  }

  /** The edge groups of the given tails, in that order. */
  ghost function EdgesText(edgesFrom: map<string, seq<EdgeView>>, keys: seq<string>, connector: string): string
    requires forall k :: k in keys ==> k in edgesFrom
    decreases |keys|
  {
    if keys == [] then ""
    else EdgesText(edgesFrom, keys[..|keys| - 1], connector) + BucketText(edgesFrom[keys[|keys| - 1]], connector)
  }

  /** "n<seq>;" for each node of a rank group. */
  function RankNodes(ns: seq<nat>): string
    decreases |ns|
  {
    if ns == [] then "" else RankNodes(ns[..|ns| - 1]) + (Seq(ns[|ns| - 1]) + ";")
  }

  /** The rank groups with the given names, in that order. */
  ghost function RanksText(sameRank: map<string, seq<nat>>, keys: seq<string>): string
    requires forall k :: k in keys ==> k in sameRank
    decreases |keys|
  {
    if keys == [] then ""
    else RanksText(sameRank, keys[..|keys| - 1]) + ("{rank=same; " + RankNodes(sameRank[keys[|keys| - 1]]) + "};")
  }

  /** The whole DOT text of a graph: the header, the subgraphs in key
      order, the rest of the body and the closing brace. */
  ghost function DotText(v: GraphView): string
    decreases v, 1
  {
    HeaderText(v) + SubgraphsText(v, Sorted(v.subgraphs.Keys)) + BodyText(v) + "}"
  }

  /** What follows the subgraphs: the graph's own attributes, nodes in id
      order, edges grouped by tail id in id order and in creation order
      within a group, and the rank groups in name order. */
  ghost function BodyText(v: GraphView): string {
    AttrList(v.attrs, false)
    + NodesText(v.nodes, Sorted(v.nodes.Keys))
    + EdgesText(v.edgesFrom, Sorted(v.edgesFrom.Keys), Connector(v.graphType))
    + RanksText(v.sameRank, Sorted(v.sameRank.Keys))
  }

  /** The subgraphs with the given keys, in that order. */
  ghost function SubgraphsText(v: GraphView, keys: seq<string>): string
    requires forall k :: k in keys ==> k in v.subgraphs
    decreases v, 0, |keys|
  {
    if keys == [] then ""
    else SubgraphsText(v, keys[..|keys| - 1]) + DotText(v.subgraphs[keys[|keys| - 1]])
  }

  /** `IndentedWrite(w)`. */
  method IndentedWrite(v: GraphView) returns (s: string)
    ensures s == DotText(v)
    decreases v, 1
  {
    var subKeys := SortedKeys(v.subgraphs.Keys);
    var subs := WriteSubgraphs(v, subKeys);
    var attrs := AppendSortedMap(v.attrs, false);
    var nodeKeys := SortedKeys(v.nodes.Keys);
    var nodes := WriteNodes(v.nodes, nodeKeys);
    var edgeKeys := SortedKeys(v.edgesFrom.Keys);
    var edges := WriteEdges(v.edgesFrom, edgeKeys, Connector(v.graphType));
    var rankKeys := SortedKeys(v.sameRank.Keys);
    var ranks := WriteRanks(v.sameRank, rankKeys);
    s := HeaderText(v) + subs + (attrs + nodes + edges + ranks) + "}";
  }

  /** The subgraph loop of `IndentedWrite`. */
  method WriteSubgraphs(v: GraphView, keys: seq<string>) returns (s: string)
    requires forall k :: k in keys ==> k in v.subgraphs
    ensures s == SubgraphsText(v, keys)
    decreases v, 0
  {
    s := "";
    for i := 0 to |keys|
      invariant s == SubgraphsText(v, keys[..i])
    {
      PrefixStep(keys, i);
      var t := IndentedWrite(v.subgraphs[keys[i]]);
      s := s + t;
    }
    assert keys[..|keys|] == keys;
  }

  /** The node loop of `IndentedWrite`. */
  method WriteNodes(nodes: map<string, NodeView>, keys: seq<string>) returns (s: string)
    requires forall k :: k in keys ==> k in nodes
    ensures s == NodesText(nodes, keys)
  {
    s := "";
    for i := 0 to |keys|
      invariant s == NodesText(nodes, keys[..i])
    {
      PrefixStep(keys, i);
      var n := nodes[keys[i]];
      var attrs := AppendSortedMap(n.attrs, true);
      s := s + NodeLine(n, attrs);
    }
    assert keys[..|keys|] == keys;
  }

  /** The edge loop of `IndentedWrite`, over the tails in the given order. */
  method WriteEdges(edgesFrom: map<string, seq<EdgeView>>, keys: seq<string>, connector: string) returns (s: string)
    requires forall k :: k in keys ==> k in edgesFrom
    ensures s == EdgesText(edgesFrom, keys, connector)
  {
    s := "";
    for i := 0 to |keys|
      invariant s == EdgesText(edgesFrom, keys[..i], connector)
    {
      PrefixStep(keys, i);
      var t := WriteBucket(edgesFrom[keys[i]], connector);
      s := s + t;
    }
    assert keys[..|keys|] == keys;
  }

  /** The edges of one tail, in creation order. */
  method WriteBucket(edges: seq<EdgeView>, connector: string) returns (s: string)
    ensures s == BucketText(edges, connector)
  {
    s := "";
    for i := 0 to |edges|
      invariant s == BucketText(edges[..i], connector)
    {
      PrefixStep(edges, i);
      var e := edges[i];
      var attrs := AppendSortedMap(e.attrs, true);
      s := s + EdgeLine(e, connector, attrs);
    }
    assert edges[..|edges|] == edges;
  }

  /** The rank loop of `IndentedWrite`, over the groups in the given order. */
  method WriteRanks(sameRank: map<string, seq<nat>>, keys: seq<string>) returns (s: string)
    requires forall k :: k in keys ==> k in sameRank
    ensures s == RanksText(sameRank, keys)
  {
    s := "";
    for i := 0 to |keys|
      invariant s == RanksText(sameRank, keys[..i])
    {
      PrefixStep(keys, i);
      var ns := sameRank[keys[i]];
      var str := "";
      for j := 0 to |ns|
        invariant str == RankNodes(ns[..j])
      {
        PrefixStep(ns, j);
        str := str + (Seq(ns[j]) + ";");
      }
      assert ns[..|ns|] == ns;
      s := s + ("{rank=same; " + str + "};");
    }
    assert keys[..|keys|] == keys;
  }

  // ---------------------------------------------------------------------
  // Texts of small graphs
  // ---------------------------------------------------------------------

  /** A graph with nothing in it, of the given type, strictness and id. */
  function EmptyView(graphType: string, isStrict: bool, id: string): (v: GraphView)
    ensures v.graphType == graphType && v.isStrict == isStrict && v.id == id
    ensures v.attrs == map[] && v.nodes == map[] && v.edgesFrom == map[]
    ensures v.subgraphs == map[] && v.sameRank == map[]
  {
    GraphView(id, isStrict, graphType, map[], map[], map[], map[], map[])
  }

  /** An empty graph is its header and the closing brace; "strict "
      comes first only outside a subgraph. */
  lemma EmptyGraphText(graphType: string, isStrict: bool, id: string)
    ensures DotText(EmptyView(graphType, isStrict, id)) ==
      (if isStrict && graphType != "subgraph" then "strict " else "") + graphType + " " + id + " {" + "}"
  {
    var v := EmptyView(graphType, isStrict, id);
    FlatText(v);
    SortedNone();
    assert NodesText(v.nodes, Sorted(v.nodes.Keys)) == "";
    assert EdgesText(v.edgesFrom, Sorted(v.edgesFrom.Keys), Connector(v.graphType)) == "";
  }

  /** A new directed graph is "digraph  {}"; a strict undirected one is
      "strict graph  {}"; a strict subgraph is written without "strict ". */
  lemma EmptyGraphExamples()
    ensures DotText(EmptyView("digraph", false, "")) == "digraph  {}"
    ensures DotText(EmptyView("graph", true, "")) == "strict graph  {}"
    ensures DotText(EmptyView("subgraph", true, "s1")) == "subgraph s1 {}"
  {
    EmptyGraphText("digraph", false, "");
    EmptyGraphText("graph", true, "");
    EmptyGraphText("subgraph", true, "s1");
    EmptyLiterals();
  }

  lemma EmptyLiterals()
    ensures "" + "digraph" + " " + "" + " {" + "}" == "digraph  {}"
    ensures "strict " + "graph" + " " + "" + " {" + "}" == "strict graph  {}"
    ensures "" + "subgraph" + " " + "s1" + " {" + "}" == "subgraph s1 {}"
  {
  }

  /** A graph without subgraphs, attributes or rank groups is its header,
      its nodes, its edges and the closing brace. */
  lemma FlatText(v: GraphView)
    requires v.subgraphs == map[] && v.attrs == map[] && v.sameRank == map[]
    ensures DotText(v) == HeaderText(v) + NodesText(v.nodes, Sorted(v.nodes.Keys))
                          + EdgesText(v.edgesFrom, Sorted(v.edgesFrom.Keys), Connector(v.graphType)) + "}"
  {
    SortedNone();
    WithoutEmptyParts(HeaderText(v), SubgraphsText(v, Sorted(v.subgraphs.Keys)), AttrList(v.attrs, false),
                      NodesText(v.nodes, Sorted(v.nodes.Keys)),
                      EdgesText(v.edgesFrom, Sorted(v.edgesFrom.Keys), Connector(v.graphType)),
                      RanksText(v.sameRank, Sorted(v.sameRank.Keys)));
  }

  lemma WithoutEmptyParts(h: string, s: string, a: string, n: string, e: string, r: string)
    requires s == "" && a == "" && r == ""
    ensures h + s + (a + n + e + r) + "}" == h + n + e + "}"
  {
  }

  /** A graph with one node and no edges: the node statement after the
      header. */
  lemma OneNodeText(v: GraphView, key: string, n: NodeView)
    requires v == EmptyView("digraph", false, "").(nodes := map[key := n])
    ensures DotText(v) == "digraph  {" + Seq(n.seqNo) + AttrList(n.attrs, true) + ";}"
  {
    FlatText(v);
    PlainHeader(v);
    OneNodeStatement(key, n);
    NoEdgesText(Connector(v.graphType));
    assert v.nodes.Keys == {key} && v.edgesFrom.Keys == {};
    Glue(HeaderText(v), NodesText(v.nodes, Sorted(v.nodes.Keys)),
         EdgesText(v.edgesFrom, Sorted(v.edgesFrom.Keys), Connector(v.graphType)), Seq(n.seqNo), AttrList(n.attrs, true));
  }

  lemma PlainHeader(v: GraphView)
    requires !v.isStrict && v.id == ""
    ensures v.graphType == "digraph" ==> HeaderText(v) == "digraph  {"
    ensures v.graphType == "graph" ==> HeaderText(v) == "graph  {"
  {
  }

  lemma OneNodeStatement(key: string, n: NodeView)
    ensures NodesText(map[key := n], Sorted({key})) == Seq(n.seqNo) + AttrList(n.attrs, true) + ";"
  {
    SortedOne(key);
    assert [key][..0] == [];
  }

  lemma NoEdgesText(c: string)
    ensures EdgesText(map[], Sorted({}), c) == ""
  {
    SortedNone();
  }

  lemma Glue(h: string, n: string, e: string, a: string, b: string)
    requires n == a + b + ";" && e == ""
    ensures h + n + e + "}" == h + a + b + ";}"
  {
  }

  /** The record example: one node numbered 1 with a label and the shape
      "record" is `digraph  {n1[label="a",shape="record"];}`. */
  lemma RecordNodeText(v: GraphView)
    requires v == EmptyView("digraph", false, "").(
      nodes := map["r" := NodeView("r", 1, map["label" := Str("a"), "shape" := Str("record")])])
    ensures DotText(v) == "digraph  {n1[label=\"a\",shape=\"record\"];}"
  {
    OneNodeText(v, "r", NodeView("r", 1, map["label" := Str("a"), "shape" := Str("record")]));
    SeqOne();
    RecordAttrsText();
    RecordLiteral();
  }

  lemma RecordAttrsText()
    ensures AttrList(map["label" := Str("a"), "shape" := Str("record")], true) == "[label=\"a\",shape=\"record\"]"
  {
    assert Less("label", "shape");
    AttrListPair("label", Str("a"), "shape", Str("record"));
    RecordEntries();
    RecordAttrsLiteral();
  }

  lemma RecordEntries()
    ensures AttrEntry("label", Str("a")) == "label=\"a\""
    ensures AttrEntry("shape", Str("record")) == "shape=\"record\""
  {
    LabelEntry();
    ShapeEntry();
  }

  lemma LabelEntry()
    ensures AttrEntry("label", Str("a")) == "label=\"a\""
  {
    QuotePlain("a");
  }

  lemma ShapeEntry()
    ensures AttrEntry("shape", Str("record")) == "shape=\"record\""
  {
    QuotePlain("record");
  }

  lemma RecordLiteral()
    ensures "digraph  {" + "n1" + "[label=\"a\",shape=\"record\"]" + ";}" == "digraph  {n1[label=\"a\",shape=\"record\"];}"
  {
  }

  lemma RecordAttrsLiteral()
    ensures "[" + ("label=\"a\"" + "," + "shape=\"record\"") + "]" == "[label=\"a\",shape=\"record\"]"
  {
  }

  /** Two nodes and an edge between them: nodes in id order, then the edge
      with the connector of the graph type, "->" in a directed graph and
      "--" in an undirected one. */
  lemma OneEdgeText(v: GraphView)
    requires v.graphType == "digraph" || v.graphType == "graph"
    requires v == EmptyView(v.graphType, false, "").(
      nodes := map["a" := NodeView("a", 1, map[]), "b" := NodeView("b", 2, map[])],
      edgesFrom := map["a" := [EdgeView(1, "", 2, "", map[])]])
    ensures v.graphType == "digraph" ==> DotText(v) == "digraph  {n1;n2;n1->n2;}"
    ensures v.graphType == "graph" ==> DotText(v) == "graph  {n1;n2;n1--n2;}"
  {
    OneEdgeParts(v);
    PlainHeader(v);
    EdgeLiterals();
  }

  lemma OneEdgeParts(v: GraphView)
    requires v == EmptyView(v.graphType, false, "").(
      nodes := map["a" := NodeView("a", 1, map[]), "b" := NodeView("b", 2, map[])],
      edgesFrom := map["a" := [EdgeView(1, "", 2, "", map[])]])
    ensures DotText(v) == HeaderText(v) + (("n1" + ";") + ("n2" + ";")) + ("n1" + Connector(v.graphType) + "n2" + ";") + "}"
  {
    FlatText(v);
    TwoNodesParts(v.nodes);
    OneEdgeBucketParts(v.edgesFrom, Connector(v.graphType));
  }

  lemma TwoNodesParts(nodes: map<string, NodeView>)
    requires nodes == map["a" := NodeView("a", 1, map[]), "b" := NodeView("b", 2, map[])]
    ensures NodesText(nodes, Sorted(nodes.Keys)) == ("n1" + ";") + ("n2" + ";")
  {
    var n1, n2 := NodeView("a", 1, map[]), NodeView("b", 2, map[]);
    assert Less("a", "b");
    assert nodes.Keys == {"a", "b"};
    TwoNodesText("a", "b", n1, n2);
    BareNodeLine(n1);
    BareNodeLine(n2);
    SeqOne();
  }

  lemma OneEdgeBucketParts(edgesFrom: map<string, seq<EdgeView>>, c: string)
    requires edgesFrom == map["a" := [EdgeView(1, "", 2, "", map[])]]
    ensures EdgesText(edgesFrom, Sorted(edgesFrom.Keys), c) == "n1" + c + "n2" + ";"
  {
    var e := EdgeView(1, "", 2, "", map[]);
    assert edgesFrom.Keys == {"a"};
    OneBucketText("a", e, c);
    BareEdgeLine(e, c);
    SeqOne();
  }

  lemma TwoNodesText(a: string, b: string, n1: NodeView, n2: NodeView)
    requires Less(a, b)
    ensures NodesText(map[a := n1, b := n2], Sorted({a, b}))
            == NodeLine(n1, AttrList(n1.attrs, true)) + NodeLine(n2, AttrList(n2.attrs, true))
  {
    SortedTwo(a, b);
    LessIrreflexive(a);
    var m := map[a := n1, b := n2];
    assert a != b && m[a] == n1 && m[b] == n2;
    assert [a, b][..1] == [a];
    assert [a][..0] == [];
    assert NodesText(m, [a]) == NodeLine(n1, AttrList(n1.attrs, true));
    assert NodesText(m, [a, b]) == NodesText(m, [a]) + NodeLine(n2, AttrList(n2.attrs, true));
  }

  lemma BareNodeLine(n: NodeView)
    requires n.attrs == map[]
    ensures NodeLine(n, AttrList(n.attrs, true)) == Seq(n.seqNo) + ";"
  {
  }

  lemma OneBucketText(k: string, e: EdgeView, c: string)
    ensures EdgesText(map[k := [e]], Sorted({k}), c) == EdgeLine(e, c, AttrList(e.attrs, true))
  {
    SortedOne(k);
    assert [k][..0] == [];
    assert [e][..0] == [];
    assert BucketText([e], c) == EdgeLine(e, c, AttrList(e.attrs, true));
    assert EdgesText(map[k := [e]], [k], c) == EdgesText(map[k := [e]], [], c) + BucketText([e], c);
  }

  lemma BareEdgeLine(e: EdgeView, c: string)
    requires e.fromPort == "" && e.toPort == "" && e.attrs == map[]
    ensures EdgeLine(e, c, AttrList(e.attrs, true)) == Seq(e.fromSeq) + c + Seq(e.toSeq) + ";"
  {
  }

  lemma EdgeLiterals()
    ensures "digraph  {" + (("n1" + ";") + ("n2" + ";")) + ("n1" + "->" + "n2" + ";") + "}" == "digraph  {n1;n2;n1->n2;}"
    ensures "graph  {" + (("n1" + ";") + ("n2" + ";")) + ("n1" + "--" + "n2" + ";") + "}" == "graph  {n1;n2;n1--n2;}"
  {
  }

  /** `String()`: the DOT text of the graph as it stands. */
  method String(g: Graph) returns (s: string)
    requires g.Rooted() && g.Valid()
    ensures s == DotText(old(View(g)))
  {
    var v := View(g);
    s := IndentedWrite(v);
  }
}
