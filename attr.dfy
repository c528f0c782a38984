/** The attribute store shared by graphs, nodes and edges (attr.go), and the
    dynamically typed values Go keeps in it. */
module Attributes {
  import opened Text

  /** The Go values the core stores in an `interface{}` attribute:
      a plain `string`, the named string types `HTML` and `Literal`, the
      Mermaid `shape` struct, and any other value, carried by its `%v` text. */
  datatype Value =
    | Str(s: string)
    | HTML(s: string)
    | Literal(s: string)
    | ShapeValue(open: string, close: string)
    | Other(text: string)

  /** `fmt.Sprintf("%v", v)`. */
  function Format(v: Value): string {
    match v
    case Str(s) => s
    case HTML(s) => s
    case Literal(s) => s
    case ShapeValue(o, c) => "{" + o + " " + c + "}"
    case Other(t) => t
  }

  /** The map after `Attr(label, value)`: an empty name changes nothing; any
      other name is bound to the value, whatever it was before, and every
      other key keeps its binding. */
  function Put(m: map<string, Value>, name: string, value: Value): (r: map<string, Value>)
    ensures name == "" ==> r == m
    ensures name != "" ==> name in r && r[name] == value
    ensures forall k :: k != name ==> (k in r <==> k in m)
    ensures forall k :: k != name && k in m ==> r[k] == m[k]
    ensures r.Keys == if name == "" then m.Keys else m.Keys + {name}
  {
    if |name| == 0 then m else m[name := value]
  }

  /** `AttributesMap`: a reference to one Go map. Every copy of a Node, Edge or
      Graph value holds the same object, so a write through one copy is seen
      through all of them. */
  class AttributesMap {
    var attributes: map<string, Value>

    constructor (initial: map<string, Value>)
      ensures attributes == initial
    {
      attributes := initial;
    }

    /** `Attr(label, value)`: sets the value unless the attribute name is empty. */
    method Attr(name: string, value: Value)
      modifies this`attributes
      ensures attributes == Put(old(attributes), name, value)
    {
      if |name| == 0 {
        return;
      }
      attributes := attributes[name := value];
    }

    /** `GetAttributes()`: a copy of the map, key by key. */
    method GetAttributes() returns (copy: map<string, Value>)
      ensures copy == attributes
    {
      copy := map[];
      var keys := attributes.Keys;
      while keys != {}
        invariant keys <= attributes.Keys
        invariant copy.Keys == attributes.Keys - keys
        invariant forall k :: k in copy ==> copy[k] == attributes[k]
        decreases |keys|
      {
        var k :| k in keys;
        copy := copy[k := attributes[k]];
        keys := keys - {k};
      }
    }
  }
}
