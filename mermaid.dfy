/** The Mermaid text of a graph (mermaid.go): a header with the diagram type
    and orientation, the nodes and edges of the graph, then each direct
    subgraph in its own `subgraph ... end;` block. A type assertion that
    fails on an attribute value panics, and then no text is returned. */
module Mermaid {
  import opened Text
  import opened Outcomes
  import opened Attributes
  import opened Dot
  import opened Views

  // ---------------------------------------------------------------------
  // Orientations, shapes and the header
  // ---------------------------------------------------------------------

  const TopToBottom := 0
  const TopDown := 1
  const BottomToTop := 2
  const RightToLeft := 3
  const LeftToRight := 4

  const ShapeRound := ShapeValue("(", ")")
  const ShapeStadium := ShapeValue("([", "])")
  const ShapeSubroutine := ShapeValue("[[", "]]")
  const ShapeCylinder := ShapeValue("[(", ")]")
  /** Kept under its misspelt name as well. */
  const ShapeCirle := ShapeValue("((", "))")
  const ShapeCircle := ShapeValue("((", "))")
  const ShapeAsymmetric := ShapeValue(">", "]")
  const ShapeRhombus := ShapeValue("{", "}")
  const ShapeTrapezoid := ShapeValue("[/", "\\]")
  const ShapeTrapezoidAlt := ShapeValue("[\\", "/]")
  const ShapeHexagon := ShapeValue("[{{", "}}]")
  const ShapeParallelogram := ShapeValue("[/", "/]")
  const ShapeParallelogramAlt := ShapeValue("[\\", "\\]")

  /** The orientation code the `switch` of `diagram` writes. */
  function OrientationCode(orientation: int): (c: string)
    ensures c in {"TD", "BT", "RL", "LR"}
  {
    if orientation == TopDown || orientation == TopToBottom then "TD"
    else if orientation == BottomToTop then "BT"
    else if orientation == RightToLeft then "RL"
    else if orientation == LeftToRight then "LR"
    else "TD"
  }

  /** Top-down is the default: both top-down names and every value that
      names no orientation give "TD"; the other three each have their own
      code. */
  lemma OrientationCodes(orientation: int)
    ensures OrientationCode(orientation) == "TD" <==> orientation !in {BottomToTop, RightToLeft, LeftToRight}
    ensures OrientationCode(BottomToTop) == "BT"
    ensures OrientationCode(RightToLeft) == "RL"
    ensures OrientationCode(LeftToRight) == "LR"
  {
  }

  /** The first line: the diagram type, a space, the orientation and
      `writeEnd`'s ";\n". */
  function Header(diagramType: string, orientation: int): string {
    diagramType + " " + OrientationCode(orientation) + ";\n"
  }

  /** `escape(value)`: the HTML-escaped text between double quotes. */
  function Escape(value: string): (r: string)
    ensures |r| >= 2 && r[0] == '"' && r[|r| - 1] == '"'
    ensures forall i :: 0 < i < |r| - 1 ==> r[i] != '"'
  {
    "\"" + HtmlEscape(value) + "\""
  }

  /** The text between the quotes of an escaped label reads back as the
      label itself. */
  lemma EscapeRoundTrip(value: string)
    ensures HtmlUnescape(Escape(value)[1..|Escape(value)| - 1]) == value
  {
    assert Escape(value)[1..|Escape(value)| - 1] == HtmlEscape(value);
    HtmlEscapeRoundTrip(value);
  }

  // ---------------------------------------------------------------------
  // Text that may panic
  // ---------------------------------------------------------------------

  /** Writing `a` and then `b`: the first panic stops the writer. */
  function Then(a: Outcome<string>, b: Outcome<string>): (r: Outcome<string>)
    ensures r.Done? <==> a.Done? && b.Done?
    ensures r.Done? ==> r.value == a.value + b.value
    ensures a.Panics? ==> r == a
    ensures a.Done? && b.Panics? ==> r == b
  {
    match a
    case Panics(_) => a
    case Done(x) =>
      match b
      case Panics(_) => b
      case Done(y) => Done(x + y)
  }

  /** The empty text writes nothing, before or after. */
  lemma ThenUnit(a: Outcome<string>)
    ensures Then(Done(""), a) == a && Then(a, Done("")) == a
  {
    if a.Done? {
      assert "" + a.value == a.value && a.value + "" == a.value;
    }
  }

  lemma ThenAssociative(a: Outcome<string>, b: Outcome<string>, c: Outcome<string>)
    ensures Then(Then(a, b), c) == Then(a, Then(b, c))
  {
    if a.Done? && b.Done? && c.Done? {
      assert a.value + b.value + c.value == a.value + (b.value + c.value);
    }
  }

  // ---------------------------------------------------------------------
  // Nodes
  // ---------------------------------------------------------------------

  /** The delimiters of a node: Round without a "shape" attribute, the
      attribute's own when it holds a shape, a panic otherwise. */
  function NodeShape(attrs: map<string, Value>): (r: Outcome<(string, string)>)
    ensures "shape" !in attrs ==> r == Done(("(", ")"))
    ensures "shape" in attrs && attrs["shape"].ShapeValue? ==>
      r == Done((attrs["shape"].open, attrs["shape"].close))
    ensures r.Panics? <==> "shape" in attrs && !attrs["shape"].ShapeValue?
  {
    if "shape" !in attrs then Done((ShapeRound.open, ShapeRound.close))
    else match attrs["shape"]
      case ShapeValue(o, c) => Done((o, c))
      case _ => Panics("interface conversion: interface {} is not dot.shape")
  }

  /** A string attribute read by `value.(string)`: absent is `dflt`; a
      value of any other type than plain string panics, HTML and Literal
      included. */
  function StringAttr(attrs: map<string, Value>, name: string, dflt: string): (r: Outcome<string>)
    ensures name !in attrs ==> r == Done(dflt)
    ensures name in attrs && attrs[name].Str? ==> r == Done(attrs[name].s)
    ensures r.Panics? <==> name in attrs && !attrs[name].Str?
  {
    if name !in attrs then Done(dflt)
    else match attrs[name]
      case Str(t) => Done(t)
      case _ => Panics("interface conversion: interface {} is not string")
  }

  /** The line of one node, "\tn<seq><open>"<label>"<close>;\n", followed
      by "\tstyle n<seq> <style>\n" when it has a style. */
  function NodeText(n: NodeView): (r: Outcome<string>)
    ensures r.Panics? <==>
      || NodeShape(n.attrs).Panics?
      || StringAttr(n.attrs, "label", "?").Panics?
      || StringAttr(n.attrs, "style", "").Panics?
  {
    var shape := NodeShape(n.attrs);
    var txt := StringAttr(n.attrs, "label", "?");
    if shape.Panics? then Panics(shape.reason)
    else if txt.Panics? then Panics(txt.reason)
    else
      var line := "\t" + Seq(n.seqNo) + shape.value.0 + Escape(txt.value) + shape.value.1 + ";\n";
      if "style" !in n.attrs then Done(line)
      else
        var style := StringAttr(n.attrs, "style", "");
        if style.Panics? then Panics(style.reason)
        else Done(line + "\tstyle " + Seq(n.seqNo) + " " + style.value + "\n")
  }

  /** A node with only a plain label is a round node showing that label,
      and without a label it shows "?". */
  lemma PlainNodeText(n: NodeView)
    requires "shape" !in n.attrs && "style" !in n.attrs
    ensures "label" in n.attrs && n.attrs["label"].Str? ==>
      NodeText(n) == Done("\t" + Seq(n.seqNo) + "(" + Escape(n.attrs["label"].s) + ")" + ";\n")
    ensures "label" !in n.attrs ==>
      NodeText(n) == Done("\t" + Seq(n.seqNo) + "(" + Escape("?") + ")" + ";\n")
  {
  }

  /** The nodes with the given ids, in that order. */
  function NodesPart(nodes: map<string, NodeView>, keys: seq<string>): Outcome<string>
    requires forall k :: k in keys ==> k in nodes
    decreases |keys|
  {
    if keys == [] then Done("") else Then(NodeText(nodes[keys[0]]), NodesPart(nodes, keys[1..]))
  }

  // ---------------------------------------------------------------------
  // Edges
  // ---------------------------------------------------------------------

  /** The default connector: "---" in an undirected graph, "-->" otherwise,
      subgraphs included. */
  function DenoteEdge(graphType: string): (c: string)
    ensures c == "---" <==> graphType == "graph"
    ensures c == "-->" <==> graphType != "graph"
  {
    if graphType == "graph" then "---" else "-->"
  }

  /** The label an edge shows: none without a "label" attribute or with the
      empty string; a plain string as it is; any other value by `%v`. */
  function EdgeLabelText(attrs: map<string, Value>): (r: Option<string>)
    ensures r.None? <==> "label" !in attrs || attrs["label"] == Str("")
    ensures r.Some? && attrs["label"].Str? ==> r.value == attrs["label"].s
    ensures r.Some? && !attrs["label"].Str? ==> r.value == Format(attrs["label"])
  {
    if "label" !in attrs then None
    else match attrs["label"]
      case Str(t) => if t == "" then None else Some(t)
      case v => Some(Format(v))
  }

  /** The line of one edge, "\tn<a><link>|"<label>"|n<b>;\n" or, without a
      label, "\tn<a><link>n<b>;\n"; the "link" attribute replaces the
      connector. */
  function EdgeText(e: EdgeView, denote: string): (r: Outcome<string>)
    ensures r.Panics? <==> StringAttr(e.attrs, "link", denote).Panics?
  {
    var link := StringAttr(e.attrs, "link", denote);
    if link.Panics? then Panics(link.reason)
    else match EdgeLabelText(e.attrs)
      case Some(l) => Done("\t" + Seq(e.fromSeq) + link.value + "|" + Escape(l) + "|" + Seq(e.toSeq) + ";\n")
      case None => Done("\t" + Seq(e.fromSeq) + link.value + Seq(e.toSeq) + ";\n")
  }

  /** An edge with no attributes is drawn with the graph's connector and
      no label; a "link" string replaces the connector. */
  lemma EdgeConnector(e: EdgeView, graphType: string)
    requires "label" !in e.attrs
    ensures "link" !in e.attrs ==>
      EdgeText(e, DenoteEdge(graphType)) == Done("\t" + Seq(e.fromSeq) + DenoteEdge(graphType) + Seq(e.toSeq) + ";\n")
    ensures "link" in e.attrs && e.attrs["link"].Str? ==>
      EdgeText(e, DenoteEdge(graphType)) == Done("\t" + Seq(e.fromSeq) + e.attrs["link"].s + Seq(e.toSeq) + ";\n")
  {
  }

  /** The edges of one bucket, in order. */
  function BucketPart(edges: seq<EdgeView>, denote: string): Outcome<string>
    decreases |edges|
  {
    if edges == [] then Done("") else Then(EdgeText(edges[0], denote), BucketPart(edges[1..], denote))
  }

  /** The buckets of the given tails, in that order. */
  function EdgesPart(edgesFrom: map<string, seq<EdgeView>>, keys: seq<string>, denote: string): Outcome<string>
    requires forall k :: k in keys ==> k in edgesFrom
    decreases |keys|
  {
    if keys == [] then Done("")
    else Then(BucketPart(edgesFrom[keys[0]], denote), EdgesPart(edgesFrom, keys[1..], denote))
  }

  // ---------------------------------------------------------------------
  // Graphs
  // ---------------------------------------------------------------------

  /** What `diagramGraph` writes: the nodes in id order, then the edges
      grouped by tail id in id order. Subgraphs are not visited. */
  ghost function GraphText(v: GraphView): Outcome<string> {
    Then(NodesPart(v.nodes, Sorted(v.nodes.Keys)),
         EdgesPart(v.edgesFrom, Sorted(v.edgesFrom.Keys), DenoteEdge(v.graphType)))
  }

  /** The label of a subgraph as `%s` writes it; a missing one is Go's
      text for a nil value. */
  function LabelText(attrs: map<string, Value>): string {
    if "label" in attrs then Format(attrs["label"]) else "%!s(<nil>)"
  }

  /** One subgraph block: its opening line with its key and label, its
      nodes and edges, and "end;\n". */
  ghost function SubgraphBlock(key: string, sub: GraphView): Outcome<string> {
    Then(Done("subgraph " + key + " [" + LabelText(sub.attrs) + "];\n"), Then(GraphText(sub), Done("end;\n")))
  }

  ghost function SubgraphsPart(subs: map<string, GraphView>, keys: seq<string>): Outcome<string>
    requires forall k :: k in keys ==> k in subs
    decreases |keys|
  {
    if keys == [] then Done("")
    else Then(SubgraphBlock(keys[0], subs[keys[0]]), SubgraphsPart(subs, keys[1..]))
  }

  /** What `diagram(g, diagramType, orientation)` returns: the header, the
      graph's own nodes and edges, then its direct subgraphs in key order. */
  ghost function DiagramText(v: GraphView, diagramType: string, orientation: int): Outcome<string> {
    Then(Done(Header(diagramType, orientation)),
         Then(GraphText(v), SubgraphsPart(v.subgraphs, Sorted(v.subgraphs.Keys))))
  }

  /** The graph with the subgraphs of its subgraphs removed. */
  function Pruned(v: GraphView): (w: GraphView)
    ensures w.subgraphs.Keys == v.subgraphs.Keys
    ensures forall k :: k in v.subgraphs ==> w.subgraphs[k] == v.subgraphs[k].(subgraphs := map[])
  {
    v.(subgraphs := map k | k in v.subgraphs :: v.subgraphs[k].(subgraphs := map[]))
  }

  /** Only one level of subgraphs is written: whatever lies deeper makes no
      difference to the text. */
  lemma GrandchildrenIgnored(v: GraphView, diagramType: string, orientation: int)
    ensures DiagramText(v, diagramType, orientation) == DiagramText(Pruned(v), diagramType, orientation)
  {
    var w := Pruned(v);
    assert GraphText(v) == GraphText(w);
    SubgraphsPartPruned(v.subgraphs, w.subgraphs, Sorted(v.subgraphs.Keys));
  }

  lemma {:induction false} SubgraphsPartPruned(subs: map<string, GraphView>, pruned: map<string, GraphView>, keys: seq<string>)
    requires forall k :: k in keys ==> k in subs && k in pruned && pruned[k] == subs[k].(subgraphs := map[])
    ensures SubgraphsPart(subs, keys) == SubgraphsPart(pruned, keys)
    decreases |keys|
  {
    if keys != [] {
      var k := keys[0];
      assert SubgraphBlock(k, subs[k]) == SubgraphBlock(k, pruned[k]) by {
        assert GraphText(subs[k]) == GraphText(pruned[k]);
      }
      SubgraphsPartPruned(subs, pruned, keys[1..]);
    }
  }

  // ---------------------------------------------------------------------
  // The diagram of a small graph
  // ---------------------------------------------------------------------

  /** Two nodes "e1" (labelled "E1") and "e2", and an edge between them
      labelled "what" with one more attribute: the graph mermaid_test.go
      builds. */
  function SampleView(): (v: GraphView)
    ensures v.subgraphs == map[] && v.graphType == "digraph"
  {
    GraphView("", false, "digraph", map[],
      map["e1" := NodeView("e1", 1, map["label" := Str("E1")]), "e2" := NodeView("e2", 2, map["label" := Str("e2")])],
      map["e1" := [EdgeView(1, "", 2, "", map["label" := Str("what"), "x" := Str("y")])]],
      map[], map[])
  }

  /** Its diagram: the header, the two round nodes in id order, and the
      labelled edge; the attribute "x" is not shown. */
  lemma SampleDiagram()
    ensures DiagramText(SampleView(), "graph", TopDown)
            == Done("graph TD;\n\tn1(\"E1\");\n\tn2(\"e2\");\n\tn1-->|\"what\"|n2;\n")
  {
    var v := SampleView();
    var n1, n2, e := SampleNodeLines(), SampleNodeLine2(), SampleEdgeLine();
    SampleGraph(v, n1, n2, e);
    NoSubgraphs(v.subgraphs);
    SampleHeader();
    SampleLiteral(n1, n2, e);
  }

  lemma SampleHeader()
    ensures Header("graph", TopDown) == "graph TD;\n"
  {
  }

  /** The sample's labels need no escaping. */
  lemma SampleLabelsPlain()
    ensures HtmlEscape("E1") == "E1" && HtmlEscape("e2") == "e2" && HtmlEscape("what") == "what"
  {
    HtmlEscapePlain("E1");
    HtmlEscapePlain("e2");
    HtmlEscapePlain("what");
  }

  function SampleNodeLines(): string { "\tn1(\"E1\");\n" }
  function SampleNodeLine2(): string { "\tn2(\"e2\");\n" }
  function SampleEdgeLine(): string { "\tn1-->|\"what\"|n2;\n" }

  lemma SampleGraph(v: GraphView, n1: string, n2: string, e: string)
    requires v == SampleView()
    requires n1 == SampleNodeLines() && n2 == SampleNodeLine2() && e == SampleEdgeLine()
    ensures GraphText(v) == Done((n1 + n2) + e)
  {
    SampleNodes(v.nodes, n1, n2);
    SampleEdges(v.edgesFrom, e);
  }

  lemma NoSubgraphs(subs: map<string, GraphView>)
    requires subs == map[]
    ensures SubgraphsPart(subs, Sorted(subs.Keys)) == Done("")
  {
    SortedNone();
  }

  /** Two nodes in id order. */
  lemma NodesPartTwo(nodes: map<string, NodeView>, a: string, b: string)
    requires a in nodes && b in nodes
    ensures NodesPart(nodes, [a, b]) == Then(NodeText(nodes[a]), NodeText(nodes[b]))
  {
    assert [a, b][0] == a && [a, b][1..] == [b] && [b][0] == b && [b][1..] == [];
    assert NodesPart(nodes, [b]) == Then(NodeText(nodes[b]), NodesPart(nodes, []));
    ThenUnit(NodeText(nodes[b]));
  }

  /** A round node with a label that needs no escaping. */
  lemma LabelledNodeText(n: NodeView, txt: string)
    requires n.attrs == map["label" := Str(txt)] && HtmlEscape(txt) == txt
    ensures NodeText(n) == Done("\t" + Seq(n.seqNo) + "(" + ("\"" + txt + "\"") + ")" + ";\n")
  {
    PlainNodeText(n);
  }

  lemma SampleNodes(nodes: map<string, NodeView>, n1: string, n2: string)
    requires nodes == SampleView().nodes
    requires n1 == SampleNodeLines() && n2 == SampleNodeLine2()
    ensures NodesPart(nodes, Sorted(nodes.Keys)) == Done(n1 + n2)
  {
    SampleKeys(nodes.Keys);
    NodesPartTwo(nodes, "e1", "e2");
    SeqOne();
    SampleLabelsPlain();
    var a, b := nodes["e1"], nodes["e2"];
    assert a.seqNo == 1 && a.attrs == map["label" := Str("E1")];
    assert b.seqNo == 2 && b.attrs == map["label" := Str("e2")];
    LabelledNodeText(a, "E1");
    LabelledNodeText(b, "e2");
    NodeLiterals();
  }

  lemma SampleKeys(keys: set<string>)
    requires keys == {"e1", "e2"}
    ensures Sorted(keys) == ["e1", "e2"]
  {
    assert Less("e1", "e2");
    SortedTwo("e1", "e2");
  }

  lemma NodeLiterals()
    ensures "\t" + "n1" + "(" + ("\"" + "E1" + "\"") + ")" + ";\n" == SampleNodeLines()
    ensures "\t" + "n2" + "(" + ("\"" + "e2" + "\"") + ")" + ";\n" == SampleNodeLine2()
  {
  }

  /** One tail with one edge. */
  lemma EdgesPartOne(edgesFrom: map<string, seq<EdgeView>>, a: string, denote: string)
    requires a in edgesFrom && |edgesFrom[a]| == 1
    ensures EdgesPart(edgesFrom, [a], denote) == EdgeText(edgesFrom[a][0], denote)
  {
    var bucket := edgesFrom[a];
    assert [a][0] == a && [a][1..] == [] && bucket[1..] == [];
    assert BucketPart(bucket, denote) == Then(EdgeText(bucket[0], denote), BucketPart(bucket[1..], denote));
    ThenUnit(EdgeText(bucket[0], denote));
    assert EdgesPart(edgesFrom, [a], denote) == Then(BucketPart(bucket, denote), EdgesPart(edgesFrom, [], denote));
  }

  /** An edge with the default connector and a label that needs no
      escaping. */
  lemma LabelledEdgeText(e: EdgeView, denote: string, txt: string)
    requires "link" !in e.attrs && "label" in e.attrs && e.attrs["label"] == Str(txt) && txt != ""
    requires HtmlEscape(txt) == txt
    ensures EdgeText(e, denote) == Done("\t" + Seq(e.fromSeq) + denote + "|" + ("\"" + txt + "\"") + "|" + Seq(e.toSeq) + ";\n")
  {
  }

  lemma SampleEdges(edgesFrom: map<string, seq<EdgeView>>, e: string)
    requires edgesFrom == SampleView().edgesFrom && e == SampleEdgeLine()
    ensures EdgesPart(edgesFrom, Sorted(edgesFrom.Keys), DenoteEdge("digraph")) == Done(e)
  {
    OneTail(edgesFrom.Keys);
    EdgesPartOne(edgesFrom, "e1", "-->");
    SampleEdge(edgesFrom["e1"][0], e);
  }

  lemma OneTail(keys: set<string>)
    requires keys == {"e1"}
    ensures Sorted(keys) == ["e1"]
  {
    SortedOne("e1");
  }

  lemma SampleEdge(x: EdgeView, e: string)
    requires x == EdgeView(1, "", 2, "", map["label" := Str("what"), "x" := Str("y")]) && e == SampleEdgeLine()
    ensures EdgeText(x, "-->") == Done(e)
  {
    SampleLabelsPlain();
    LabelledEdgeText(x, "-->", "what");
    SeqOne();
    EdgeLiteral();
  }

  lemma EdgeLiteral()
    ensures "\t" + "n1" + "-->" + "|" + ("\"" + "what" + "\"") + "|" + "n2" + ";\n" == SampleEdgeLine()
  {
  }

  lemma SampleLiteral(n1: string, n2: string, e: string)
    requires n1 == SampleNodeLines() && n2 == SampleNodeLine2() && e == SampleEdgeLine()
    ensures "graph TD;\n" + (((n1 + n2) + e) + "")
            == "graph TD;\n\tn1(\"E1\");\n\tn2(\"e2\");\n\tn1-->|\"what\"|n2;\n"
  {
  }

  // ---------------------------------------------------------------------
  // The writer
  // ---------------------------------------------------------------------

  /** One step of a loop that takes the elements from the front. */
  lemma SuffixStep<T>(s: seq<T>, i: nat)
    requires i < |s|
    ensures s[i..] != [] && s[i..][0] == s[i] && s[i..][1..] == s[i + 1..]
  {
  }

  lemma SuffixEnds<T>(s: seq<T>)
    ensures s[0..] == s && s[|s|..] == []
  {
  }

  /** The node loop of `diagramGraph`. */
  method WriteNodes(nodes: map<string, NodeView>, keys: seq<string>) returns (r: Outcome<string>)
    requires forall k :: k in keys ==> k in nodes
    ensures r == NodesPart(nodes, keys)
  {
    SuffixEnds(keys);
    ThenUnit(NodesPart(nodes, keys));
    var s := "";
    for i := 0 to |keys|
      invariant NodesPart(nodes, keys) == Then(Done(s), NodesPart(nodes, keys[i..]))
    {
      SuffixStep(keys, i);
      var t := NodeText(nodes[keys[i]]);
      ThenAssociative(Done(s), t, NodesPart(nodes, keys[i + 1..]));
      if t.Panics? {
        return t;
      }
      s := s + t.value;
    }
    ThenUnit(Done(s));
    return Done(s);
  }

  /** The inner edge loop of `diagramGraph`: one bucket. */
  method WriteBucket(edges: seq<EdgeView>, denote: string) returns (r: Outcome<string>)
    ensures r == BucketPart(edges, denote)
  {
    SuffixEnds(edges);
    ThenUnit(BucketPart(edges, denote));
    var s := "";
    for i := 0 to |edges|
      invariant BucketPart(edges, denote) == Then(Done(s), BucketPart(edges[i..], denote))
    {
      SuffixStep(edges, i);
      var t := EdgeText(edges[i], denote);
      ThenAssociative(Done(s), t, BucketPart(edges[i + 1..], denote));
      if t.Panics? {
        return t;
      }
      s := s + t.value;
    }
    ThenUnit(Done(s));
    return Done(s);
  }

  /** The outer edge loop of `diagramGraph`, over the tails in the given
      order. */
  method WriteEdges(edgesFrom: map<string, seq<EdgeView>>, keys: seq<string>, denote: string)
    returns (r: Outcome<string>)
    requires forall k :: k in keys ==> k in edgesFrom
    ensures r == EdgesPart(edgesFrom, keys, denote)
  {
    SuffixEnds(keys);
    ThenUnit(EdgesPart(edgesFrom, keys, denote));
    var s := "";
    for i := 0 to |keys|
      invariant EdgesPart(edgesFrom, keys, denote) == Then(Done(s), EdgesPart(edgesFrom, keys[i..], denote))
    {
      SuffixStep(keys, i);
      var t := WriteBucket(edgesFrom[keys[i]], denote);
      ThenAssociative(Done(s), t, EdgesPart(edgesFrom, keys[i + 1..], denote));
      if t.Panics? {
        return t;
      }
      s := s + t.value;
    }
    ThenUnit(Done(s));
    return Done(s);
  }

  /** `diagramGraph(g, sb)`. */
  method DiagramGraph(v: GraphView) returns (r: Outcome<string>)
    ensures r == GraphText(v)
  {
    var nodeKeys := SortedKeys(v.nodes.Keys);
    var nodes := WriteNodes(v.nodes, nodeKeys);
    if nodes.Panics? {
      return nodes;
    }
    var edgeKeys := SortedKeys(v.edgesFrom.Keys);
    var edges := WriteEdges(v.edgesFrom, edgeKeys, DenoteEdge(v.graphType));
    r := Then(nodes, edges);
  }

  /** `diagram(g, diagramType, orientation)`. */
  method Diagram(v: GraphView, diagramType: string, orientation: int) returns (r: Outcome<string>)
    ensures r == DiagramText(v, diagramType, orientation)
  {
    var s := Header(diagramType, orientation);
    var body := DiagramGraph(v);
    if body.Panics? {
      return body;
    }
    var keys := SortedKeys(v.subgraphs.Keys);
    SuffixEnds(keys);
    ThenAssociative(Done(s), body, SubgraphsPart(v.subgraphs, keys));
    s := s + body.value;
    for i := 0 to |keys|
      invariant DiagramText(v, diagramType, orientation) == Then(Done(s), SubgraphsPart(v.subgraphs, keys[i..]))
    {
      SuffixStep(keys, i);
      var key := keys[i];
      var each := v.subgraphs[key];
      var t := DiagramGraph(each);
      ghost var block := SubgraphBlock(key, each);
      ThenAssociative(Done(s), block, SubgraphsPart(v.subgraphs, keys[i + 1..]));
      if t.Panics? {
        return t;
      }
      s := s + ("subgraph " + key + " [" + LabelText(each.attrs) + "];\n" + (t.value + "end;\n"));
    }
    ThenUnit(Done(s));
    return Done(s);
  }

  /** `MermaidGraph(g, orientation)`: a "graph" diagram of the graph as it
      stands. */
  method MermaidGraph(g: Graph, orientation: int) returns (r: Outcome<string>)
    requires g.Rooted() && g.Valid()
    ensures r == DiagramText(old(View(g)), "graph", orientation)
  {
    var v := View(g);
    r := Diagram(v, "graph", orientation);
  }

  /** `MermaidFlowchart(g, orientation)`: a "flowchart" diagram. */
  method MermaidFlowchart(g: Graph, orientation: int) returns (r: Outcome<string>)
    requires g.Rooted() && g.Valid()
    ensures r == DiagramText(old(View(g)), "flowchart", orientation)
  {
    var v := View(g);
    r := Diagram(v, "flowchart", orientation);
  }
}
