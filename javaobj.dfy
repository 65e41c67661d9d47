/** The decoded object graph the marshaller consumes. The stream parser
    builds it; the marshaller only reads it.

    Every node the parser allocates as an object of one of its classes lives
    in a `Heap` under a `NodeId`, so "the same node" is "the same id".
    Python values that are not such objects (a raw block of bytes, None,
    bool, int, float) are carried inline as a `Value`. */
module JavaObj {
  import opened Basics
  import Numerals

  type NodeId = nat

  /** Anything a field, an array element, an annotation or a top-level entry
      can hold. */
  datatype Value =
    | Instance(id: NodeId)         // an object of the parser's node classes
    | BlockData(bytes: seq<byte>)  // a Python 2 `str`: raw block data
    | Null                         // None
    | Bool(b: bool)
    | Int(i: int)
    | Float(text: string)          // a float, by the text `str()` gives it

  /** What every object-like node carries: its class descriptor (the result
      of `get_class()`), its field values by name (what `getattr` finds),
      its annotations, and the text `str()` gives it. */
  datatype ObjectData = ObjectData(
    classdesc: Option<NodeId>,
    fields: map<string, Value>,
    annotations: seq<Value>,
    display: string)

  datatype Node =
    | ArrayNode(obj: ObjectData, elements: seq<Value>)
    | MapNode(obj: ObjectData)
    | ListNode(obj: ObjectData)
    | EnumNode(obj: ObjectData)
    | ObjectNode(obj: ObjectData)
    | StringNode(text: string)
    | ClassNode(name: string, handle: int, serial: int, flags: int,
                fieldNames: seq<string>, fieldTypes: seq<string>,
                superclass: Option<NodeId>, display: string)
    | ProxyClassNode(handle: int, interfaceNames: seq<string>,
                     superclass: Option<NodeId>, display: string)
  {
    /** Array, map, list and enum nodes are all objects as well. */
    predicate IsObject()
    {
      ArrayNode? || MapNode? || ListNode? || EnumNode? || ObjectNode?
    }
  }

  type Heap = map<NodeId, Node>

  /** Python's `str(v)`. An id the heap does not hold stands for an object of
      no class the marshaller knows; its text is empty. */
  function PyStr(h: Heap, v: Value): string
  {
    match v
    case Instance(id) =>
      if id !in h then ""
      else (match h[id]
        case StringNode(text) => text
        case ClassNode(_, _, _, _, _, _, _, display) => display
        case ProxyClassNode(_, _, _, display) => display
        case _ => h[id].obj.display)
    case BlockData(bytes) => BytesAsChars(bytes)
    case Null => "None"
    case Bool(b) => if b then "True" else "False"
    case Int(i) => Numerals.Decimal(i)
    case Float(text) => text
  }

  /** Python's truth value of `v`, as `'True' if value else 'False'` uses it. */
  function Truthy(h: Heap, v: Value): bool
  {
    match v
    case Instance(id) =>
      if id in h && h[id].StringNode? then h[id].text != ""
      else if id in h && h[id].ArrayNode? then h[id].elements != []
      else true
    case BlockData(bytes) => bytes != []
    case Null => false
    case Bool(b) => b
    case Int(i) => i != 0
    case Float(text) => text != "0.0" && text != "-0.0"
  }

  /** A byte string as text: each byte becomes the character with that code. */
  function BytesAsChars(d: seq<byte>): (s: string)
    ensures |s| == |d|
    ensures forall k :: 0 <= k < |d| ==> s[k] as int == d[k] as int
  {
    if d == [] then "" else [d[0] as int as char] + BytesAsChars(d[1..])
  }

  /** The bytes of a text whose characters are all below 256. */
  function CharsAsBytes(s: string): Option<seq<byte>>
  {
    if s == [] then Some([])
    else if s[0] as int >= 256 then None
    else match CharsAsBytes(s[1..])
      case Some(rest) => Some([s[0] as int as byte] + rest)
      case None => None
  }

  lemma {:induction false} CharsAsBytesOfBytes(d: seq<byte>)
    ensures CharsAsBytes(BytesAsChars(d)) == Some(d)
  {
    if d != [] {
      CharsAsBytesOfBytes(d[1..]);
      assert BytesAsChars(d)[1..] == BytesAsChars(d[1..]);
      assert [d[0]] + d[1..] == d;
    }
  }
}
