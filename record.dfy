/** The label builder for nodes of shape "record" or "mrecord" (record.go).
    Fields are appended to the current list; a nesting step saves the list
    on a stack, lets a block of builder calls fill a fresh list, and then
    appends that list as one nested field to the saved one. The label text
    is `a|{b|c}|d`: fields joined by "|", a nested list between braces and
    a field with a port id written as `<id> content`. */
module Records {
  import opened Text
  import opened Attributes
  import opened Dot

  // ---------------------------------------------------------------------
  // Labels and their text
  // ---------------------------------------------------------------------

  /** A field: a leaf with a port id (empty for none) and its content, or a
      nested list of fields. */
  datatype Field = Leaf(id: string, content: string) | Nested(fields: seq<Field>)

  /** `recordFieldId.writeOn`: the port between angle brackets and a space
      when there is one, then the content. */
  function LeafText(id: string, content: string): (s: string)
    ensures id == "" ==> s == content
    ensures id != "" ==> s == "<" + id + "> " + content
  {
    (if id != "" then "<" + id + "> " else "") + content
  }

  /** `recordField.writeOn`: a nested list between braces, a leaf as above. */
  function FieldText(f: Field): string
    decreases f, 1
  {
    match f
    case Leaf(id, content) => LeafText(id, content)
    case Nested(fs) => "{" + LabelText(fs) + "}"
  }

  /** `recordLabel.writeOn`: the fields' texts separated by "|". */
  function LabelText(fs: seq<Field>): string
    decreases fs, 0
  {
    if fs == [] then ""
    else if |fs| == 1 then FieldText(fs[0])
    else FieldText(fs[0]) + "|" + LabelText(fs[1..])
  }

  /** The fields' texts, in order. */
  function FieldTexts(fs: seq<Field>): (r: seq<string>)
    ensures |r| == |fs| && forall i :: 0 <= i < |fs| ==> r[i] == FieldText(fs[i])
  {
    seq(|fs|, i requires 0 <= i < |fs| => FieldText(fs[i]))
  }

  /** The label is the fields' texts joined by "|"; no list, no text. */
  lemma {:induction false} LabelIsJoin(fs: seq<Field>)
    ensures LabelText(fs) == Join(FieldTexts(fs), "|")
    ensures fs == [] ==> LabelText(fs) == ""
  {
    if |fs| > 1 {
      LabelIsJoin(fs[1..]);
      assert FieldTexts(fs)[1..] == FieldTexts(fs[1..]);
    }
  }

  /** One more field adds "|" and that field's text to a non-empty label. */
  lemma {:induction false} LabelTextSnoc(fs: seq<Field>, f: Field)
    ensures fs == [] ==> LabelText(fs + [f]) == FieldText(f)
    ensures fs != [] ==> LabelText(fs + [f]) == LabelText(fs) + "|" + FieldText(f)
    decreases |fs|
  {
    if fs == [] {
      assert fs + [f] == [f];
    } else {
      var t := fs + [f];
      assert |t| > 1 && t[0] == fs[0];
      assert t[1..] == fs[1..] + [f];
      assert LabelText(t) == FieldText(fs[0]) + "|" + LabelText(fs[1..] + [f]);
      LabelTextSnoc(fs[1..], f);
    }
  }

  /** The number of occurrences of `c` in `s`. */
  function Count(c: char, s: string): nat {
    if s == [] then 0 else (if s[0] == c then 1 else 0) + Count(c, s[1..])
  }

  lemma {:induction false} CountAppend(c: char, s: string, t: string)
    ensures Count(c, s + t) == Count(c, s) + Count(c, t)
  {
    if s != [] {
      assert (s + t)[0] == s[0] && (s + t)[1..] == s[1..] + t;
      CountAppend(c, s[1..], t);
    } else {
      assert s + t == t;
    }
  }

  /** Neither a port id nor a content holds a brace. */
  predicate BraceFree(f: Field)
    decreases f
  {
    match f
    case Leaf(id, content) => Count('{', id + content) == 0 && Count('}', id + content) == 0
    case Nested(fs) => forall i :: 0 <= i < |fs| ==> BraceFree(fs[i])
  }

  /** How many nested lists a field holds, itself included. */
  function Nestings(f: Field): nat
    decreases f, 1
  {
    match f
    case Leaf(_, _) => 0
    case Nested(fs) => 1 + NestingsOf(fs)
  }

  function NestingsOf(fs: seq<Field>): nat
    decreases fs, 0
  {
    if fs == [] then 0 else Nestings(fs[0]) + NestingsOf(fs[1..])
  }

  /** The braces of a label are balanced: with brace-free contents there
      are as many "{" as "}", one pair for each nested list. */
  lemma {:induction false} FieldBraces(f: Field)
    requires BraceFree(f)
    ensures Count('{', FieldText(f)) == Nestings(f) && Count('}', FieldText(f)) == Nestings(f)
    decreases f, 1
  {
    match f
    case Leaf(id, content) =>
      LeafBraces(id, content, '{');
      LeafBraces(id, content, '}');
    case Nested(fs) =>
      LabelBraces(fs);
      CountAppend('{', "{" + LabelText(fs), "}");
      CountAppend('{', "{", LabelText(fs));
      CountAppend('}', "{" + LabelText(fs), "}");
      CountAppend('}', "{", LabelText(fs));
  }

  lemma LeafBraces(id: string, content: string, c: char)
    requires c == '{' || c == '}'
    requires Count(c, id + content) == 0
    ensures Count(c, LeafText(id, content)) == 0
  {
    CountAppend(c, id, content);
    if id != "" {
      CountAppend(c, "<" + id + "> ", content);
      CountAppend(c, "<" + id, "> ");
      CountAppend(c, "<", id);
    }
  }

  lemma {:induction false} LabelBraces(fs: seq<Field>)
    requires forall i :: 0 <= i < |fs| ==> BraceFree(fs[i])
    ensures Count('{', LabelText(fs)) == NestingsOf(fs) && Count('}', LabelText(fs)) == NestingsOf(fs)
    decreases fs, 0
  {
    if fs != [] {
      FieldBraces(fs[0]);
      if |fs| == 1 {
        assert fs[1..] == [];
      } else {
        LabelBraces(fs[1..]);
        var a, b := FieldText(fs[0]), LabelText(fs[1..]);
        CountAppend('{', a + "|", b);
        CountAppend('{', a, "|");
        CountAppend('}', a + "|", b);
        CountAppend('}', a, "|");
      }
    }
  }

  // ---------------------------------------------------------------------
  // The stack of saved lists
  // ---------------------------------------------------------------------

  /** `stack`: a last-in first-out store of labels. */
  class Stack {
    var items: seq<seq<Field>>

    constructor ()
      ensures items == []
    {
      items := [];
    }

    /** `push`: the label goes on top. */
    method Push(r: seq<Field>)
      modifies this
      ensures items == old(items) + [r]
    {
      items := items + [r];
    }

    /** `pop`: the top label is removed and returned; an empty stack has
        no top. */
    method Pop() returns (top: seq<Field>)
      requires items != []
      modifies this
      ensures top == old(items)[|old(items)| - 1]
      ensures items == old(items)[..|old(items)| - 1]
    {
      top := items[|items| - 1];
      items := items[..|items| - 1];
    }
  }

  /** Two pushes and two pops give back the labels in reverse order and
      leave the stack as it was. */
  method PushPushPopPop(s: Stack, one: seq<Field>, two: seq<Field>) returns (first: seq<Field>, second: seq<Field>)
    modifies s
    ensures first == two && second == one
    ensures s.items == old(s.items)
  {
    ghost var start := s.items;
    s.Push(one);
    s.Push(two);
    assert s.items == (start + [one]) + [two];
    first := s.Pop();
    assert s.items == start + [one];
    second := s.Pop();
    assert s.items == start;
  }

  // ---------------------------------------------------------------------
  // Builder calls
  // ---------------------------------------------------------------------

  /** A call a nesting block makes on its builder: `Field`, `FieldWithId`,
      `MRecord`, or `Nesting` with its own block. */
  datatype Step = AddField(content: string)
                | AddFieldWithId(content: string, id: string)
                | MakeMRecord
                | Nest(block: seq<Step>)

  /** The list after running `steps` on the list `fs`. */
  function Built(steps: seq<Step>, fs: seq<Field>): seq<Field>
    decreases steps, 0
  {
    if steps == [] then fs else Built(steps[1..], BuiltStep(steps[0], fs))
  }

  function BuiltStep(step: Step, fs: seq<Field>): seq<Field>
    decreases step, 1
  {
    match step
    case AddField(c) => fs + [Leaf("", c)]
    case AddFieldWithId(c, id) => fs + [Leaf(id, c)]
    case MakeMRecord => fs
    case Nest(block) => fs + [Nested(Built(block, []))]
  }

  /** Steps only append: the list they build from `fs` is `fs` followed by
      what they build from nothing. */
  lemma {:induction false} BuiltAppends(steps: seq<Step>, fs: seq<Field>)
    ensures Built(steps, fs) == fs + Built(steps, [])
    decreases steps
  {
    if steps != [] {
      var s := steps[0];
      BuiltAppends(steps[1..], BuiltStep(s, fs));
      BuiltAppends(steps[1..], BuiltStep(s, []));
      assert BuiltStep(s, fs) == fs + BuiltStep(s, []);
    }
  }

  /** Whether `steps` call `MRecord`, at any depth. */
  predicate CallsMRecord(steps: seq<Step>)
    decreases steps, 0
  {
    steps != [] && (StepCallsMRecord(steps[0]) || CallsMRecord(steps[1..]))
  }

  predicate StepCallsMRecord(step: Step)
    decreases step, 1
  {
    match step
    case MakeMRecord => true
    case Nest(block) => CallsMRecord(block)
    case _ => false
  }

  /** The shape after running `steps` from `shape`. */
  function ShapeAfter(steps: seq<Step>, shape: string): (r: string)
    ensures CallsMRecord(steps) ==> r == "mrecord"
    ensures !CallsMRecord(steps) ==> r == shape
  {
    if CallsMRecord(steps) then "mrecord" else shape
  }

  // ---------------------------------------------------------------------
  // The builder
  // ---------------------------------------------------------------------

  class RecordBuilder {
    const target: Node
    var shape: string
    const nesting: Stack
    var currentLabel: seq<Field>

    /** `NewRecordBuilder(n)`: shape "record", no fields, an empty stack. */
    constructor (n: Node)
      ensures target == n && shape == "record" && currentLabel == []
      ensures fresh(nesting) && nesting.items == []
    {
      target := n;
      shape := "record";
      nesting := new Stack();
      currentLabel := [];
    }

    /** `MRecord()`: the shape becomes "mrecord". */
    method MRecord() returns (r: RecordBuilder)
      modifies this
      ensures r == this && shape == "mrecord" && currentLabel == old(currentLabel)
    {
      shape := "mrecord";
      r := this;
    }

    /** `Field(content)`: one leaf without a port id. */
    method Field(content: string) returns (r: RecordBuilder)
      modifies this
      ensures r == this && shape == old(shape)
      ensures currentLabel == old(currentLabel) + [Leaf("", content)]
    {
      currentLabel := currentLabel + [Leaf("", content)];
      r := this;
    }

    /** `FieldWithId(content, id)`: one leaf with a port id. */
    method FieldWithId(content: string, id: string) returns (r: RecordBuilder)
      modifies this
      ensures r == this && shape == old(shape)
      ensures currentLabel == old(currentLabel) + [Leaf(id, content)]
    {
      currentLabel := currentLabel + [Leaf(id, content)];
      r := this;
    }

    /** `Nesting(block)`: the current list is saved, the block fills a fresh
        one, and that one is appended, nested, to the saved list. The stack
        ends as it began. */
    method Nesting(block: seq<Step>)
      modifies this, nesting
      ensures nesting.items == old(nesting.items)
      ensures currentLabel == old(currentLabel) + [Nested(Built(block, []))]
      ensures shape == ShapeAfter(block, old(shape))
      decreases block, 1
    {
      ghost var saved := nesting.items;
      nesting.Push(currentLabel);
      currentLabel := [];
      Run(block);
      var top := nesting.Pop();
      assert nesting.items == saved;
      var cpy := currentLabel;
      top := top + [Nested(cpy)];
      currentLabel := top;
    }

    /** The calls of a block, one after another. */
    method Run(steps: seq<Step>)
      modifies this, nesting
      ensures nesting.items == old(nesting.items)
      ensures currentLabel == Built(steps, old(currentLabel))
      ensures shape == ShapeAfter(steps, old(shape))
      decreases steps, 0
    {
      var i := 0;
      while i < |steps|
        invariant 0 <= i <= |steps|
        invariant nesting.items == old(nesting.items)
        invariant Built(steps, old(currentLabel)) == Built(steps[i..], currentLabel)
        invariant shape == (if CallsMRecord(steps[..i]) then "mrecord" else old(shape))
      {
        var before := currentLabel;
        RunStep(steps[i], steps);
        CallsMRecordStep(steps, i);
        assert steps[i..][1..] == steps[i + 1..];
        i := i + 1;
      }
      assert steps[..i] == steps;
    }

    method RunStep(step: Step, ghost steps: seq<Step>)
      requires step in steps
      modifies this, nesting
      ensures nesting.items == old(nesting.items)
      ensures currentLabel == BuiltStep(step, old(currentLabel))
      ensures shape == (if StepCallsMRecord(step) then "mrecord" else old(shape))
      decreases steps, 0, step
    {
      match step
      case AddField(c) =>
        var _ := Field(c);
      case AddFieldWithId(c, id) =>
        var _ := FieldWithId(c, id);
      case MakeMRecord =>
        var _ := MRecord();
      case Nest(block) =>
        Nesting(block);
    }

    /** `Label()`: the text of the current list; nothing changes. */
    method Label() returns (s: string)
      ensures s == LabelText(currentLabel)
    {
      s := "";
      for i := 0 to |currentLabel|
        invariant s == LabelText(currentLabel[..i])
      {
        if i > 0 {
          s := s + "|";
        }
        LabelTextSnoc(currentLabel[..i], currentLabel[i]);
        PrefixStep(currentLabel, i);
        s := s + FieldText(currentLabel[i]);
      }
      assert currentLabel[..|currentLabel|] == currentLabel;
    }

    /** `Build()`: sets the target's "shape" and then its "label". */
    method Build()
      modifies target.attributes
      ensures target.attributes.attributes
              == Put(Put(old(target.attributes.attributes), "shape", Str(shape)), "label", Str(LabelText(currentLabel)))
    {
      var _ := target.Attr("shape", Str(shape));
      var txt := Label();
      var _ := target.Attr("label", Str(txt));
    }
  }

  // ---------------------------------------------------------------------
  // Labels of record_test.go
  // ---------------------------------------------------------------------

  /** `Field("a").Field("b")` gives `a|b`. */
  lemma TwoColumns()
    ensures Built([AddField("a"), AddField("b")], []) == [Leaf("", "a"), Leaf("", "b")]
    ensures LabelText([Leaf("", "a"), Leaf("", "b")]) == "a|b"
  {
    assert [AddField("a"), AddField("b")][1..] == [AddField("b")];
    assert [AddField("b")][1..] == [];
    assert [Leaf("", "a"), Leaf("", "b")][1..] == [Leaf("", "b")];
  }

  /** `FieldWithId("a", "a1")` gives `<a1> a`. */
  lemma FieldWithPort()
    ensures Built([AddFieldWithId("a", "a1")], []) == [Leaf("a1", "a")]
    ensures LabelText([Leaf("a1", "a")]) == "<a1> a"
  {
    assert [AddFieldWithId("a", "a1")][1..] == [];
  }

  /** `Field("a")`, a nesting block with `Field("b")` and `Field("c")`, then
      `Field("d")` give `a|{b|c}|d`. */
  lemma NestedColumns()
    ensures Built(NestedSteps(), []) == NestedFields()
    ensures LabelText(NestedFields()) == "a|{b|c}|d"
  {
    NestedBuilt();
    NestedText();
  }

  function NestedSteps(): seq<Step> {
    [AddField("a"), Nest([AddField("b"), AddField("c")]), AddField("d")]
  }

  function NestedFields(): seq<Field> {
    [Leaf("", "a"), Nested([Leaf("", "b"), Leaf("", "c")]), Leaf("", "d")]
  }

  lemma NestedBuilt()
    ensures Built(NestedSteps(), []) == NestedFields()
  {
    var steps := NestedSteps();
    TwoColumns();
    assert [AddField("b"), AddField("c")][1..] == [AddField("c")] && [AddField("c")][1..] == [];
    var inner := Built([AddField("b"), AddField("c")], []);
    assert inner == [Leaf("", "b"), Leaf("", "c")];
    assert steps[1..] == [Nest([AddField("b"), AddField("c")]), AddField("d")];
    assert steps[1..][1..] == [AddField("d")] && steps[1..][1..][1..] == [];
    assert Built(steps, []) == [Leaf("", "a")] + [Nested(inner)] + [Leaf("", "d")];
  }

  lemma NestedText()
    ensures LabelText(NestedFields()) == "a|{b|c}|d"
  {
    var fs := NestedFields();
    assert fs[1..] == [Nested([Leaf("", "b"), Leaf("", "c")]), Leaf("", "d")];
    assert fs[1..][1..] == [Leaf("", "d")];
    assert [Leaf("", "b"), Leaf("", "c")][1..] == [Leaf("", "c")];
    assert FieldText(fs[1]) == "{b|c}";
    assert fs[1..][0] == fs[1] && LabelText(fs[1..][1..]) == "d";
    assert LabelText(fs[1..]) == "{b|c}" + "|" + "d";
  }

  /** `TestTwoColumnsNestedRecord`: the builder's own calls set the node's
      "label" to `a|{b|c}|d` and its "shape" to "record". */
  method NestedRecord(n: Node)
    modifies n.attributes
    ensures "label" in n.attributes.attributes && n.attributes.attributes["label"] == Str("a|{b|c}|d")
    ensures "shape" in n.attributes.attributes && n.attributes.attributes["shape"] == Str("record")
  {
    var rb := new RecordBuilder(n);
    var _ := rb.Field("a");
    rb.Nesting([AddField("b"), AddField("c")]);
    var _ := rb.Field("d");
    NestedColumns();
    TwoColumns();
    assert [AddField("b"), AddField("c")] == NestedSteps()[1].block;
    assert rb.currentLabel == NestedFields();
    assert !CallsMRecord([AddField("b"), AddField("c")]) by {
      assert [AddField("b"), AddField("c")][1..] == [AddField("c")] && [AddField("c")][1..] == [];
    }
    rb.Build();
  }

  /** `TestSimpleMRecordWithFieldID`: after `MRecord()` the shape is
      "mrecord". */
  method PortRecord(n: Node)
    modifies n.attributes
    ensures "label" in n.attributes.attributes && n.attributes.attributes["label"] == Str("<a1> a")
    ensures "shape" in n.attributes.attributes && n.attributes.attributes["shape"] == Str("mrecord")
  {
    var rb := new RecordBuilder(n);
    var _ := rb.MRecord();
    var _ := rb.FieldWithId("a", "a1");
    FieldWithPort();
    assert rb.currentLabel == [Leaf("a1", "a")];
    rb.Build();
  }

  lemma CallsMRecordStep(steps: seq<Step>, i: nat)
    requires i < |steps|
    ensures CallsMRecord(steps[..i + 1]) == (CallsMRecord(steps[..i]) || StepCallsMRecord(steps[i]))
  {
    CallsMRecordSnoc(steps[..i], steps[i]);
    PrefixStep(steps, i);
  }

  lemma {:induction false} CallsMRecordSnoc(steps: seq<Step>, s: Step)
    ensures CallsMRecord(steps + [s]) == (CallsMRecord(steps) || StepCallsMRecord(s))
    decreases |steps|
  {
    if steps == [] {
      assert ([s])[1..] == [];
    } else {
      assert (steps + [s])[1..] == steps[1..] + [s];
      CallsMRecordSnoc(steps[1..], s);
    }
  }
}
