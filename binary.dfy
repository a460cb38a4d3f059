/** The protocol's tree value, binary.Node, and the dynamically typed values
    (Go's interface{}) that its Content field and the store's update lists
    hold. The binary codec itself (Marshal/Unmarshal) is not part of this
    model. */
module Binary {
  import opened Wrappers
  import opened GoStd

  /** A Go interface{} value as the core meets it: nil, a string, a []byte, a
      binary.Node, a []binary.Node, or an []interface{}. */
  datatype Value =
    | Nil
    | Text(text: string)
    | Raw(bytes: Bytes)
    | NodeValue(node: Node)
    | Nodes(nodes: seq<Node>)
    | List(items: seq<Value>)

  /** binary.Node. A nil attribute map is None; an empty one is Some(map[]). */
  datatype Node = Node(description: string, attributes: Option<map<string, string>>, content: Value)

  /** n.Attributes[key]: indexing a Go map gives "" for a missing key, and so
      does indexing a nil map. */
  function Attr(n: Node, key: string): (v: string)
    ensures n.attributes.Some? && key in n.attributes.value ==> v == n.attributes.value[key]
    ensures !(n.attributes.Some? && key in n.attributes.value) ==> v == ""
  {
    match n.attributes
    case None => ""
    case Some(m) => if key in m then m[key] else ""
  }
}
