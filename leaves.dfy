/** The renderers that do not recurse: raw block data (`do_blockdata`), the
    scalar elements of primitive arrays (`_do_value`), and the choice
    `do_array` makes between dispatching an element and formatting it. */
module Leaves {
  import opened Basics
  import opened JavaObj
  import opened Xml
  import Numerals
  import Utf8
  import Base64

  /** `do_blockdata`: the block as a text node when it holds no NUL byte and
      decodes as UTF-8; otherwise a `base64` element holding its encoding. */
  function DoBlockData(d: seq<byte>): Xml
  {
    if 0 in d || !Utf8.Valid(d) then Element("base64", [], [Text(Base64.Encode(d))])
    else Text(BytesAsChars(d))
  }

  /** Reads a rendered block back: the inverse a consumer of the document
      applies to tell encoded binary from literal text. */
  function RecoverBlock(x: Xml): Option<seq<byte>>
  {
    match x
    case Element(tag, attrs, children) =>
      if tag == "base64" && attrs == [] && |children| == 1 && children[0].Text?
      then Base64.Decode(children[0].text) else None
    case Text(t) => CharsAsBytes(t)
    case Comment(_) => None
  }

  /** Block data loses nothing, whichever form it takes. */
  lemma BlockDataLossless(d: seq<byte>)
    ensures RecoverBlock(DoBlockData(d)) == Some(d)
  {
    if 0 in d || !Utf8.Valid(d) {
      Base64.DecodeEncode(d);
    } else {
      CharsAsBytesOfBytes(d);
    }
  }

  /** A block holding a NUL byte is always base64-encoded. */
  lemma NulMeansBase64(d: seq<byte>)
    requires 0 in d
    ensures DoBlockData(d) == Element("base64", [], [Text(Base64.Encode(d))])
  {
  }

  /** A block that does not decode as UTF-8 is base64-encoded. */
  lemma InvalidUtf8MeansBase64(d: seq<byte>)
    requires !Utf8.Valid(d)
    ensures DoBlockData(d).Element? && DoBlockData(d).tag == "base64"
  {
  }

  /** Printable ASCII (no NUL) is emitted literally, as one text node. */
  lemma AsciiIsLiteral(d: seq<byte>)
    requires forall k :: 0 <= k < |d| ==> 0 < d[k] < 0x80
    ensures DoBlockData(d) == Text(BytesAsChars(d))
  {
    Utf8.AsciiIsValid(d);
  }

  /** The one-letter type codes of the Java serialization format. */
  const TypeByte := "B"
  const TypeChar := "C"
  const TypeDouble := "D"
  const TypeFloat := "F"
  const TypeInteger := "I"
  const TypeLong := "J"
  const TypeShort := "S"
  const TypeBoolean := "Z"

  predicate IsHexTag(tag: string)
  {
    tag == TypeByte || tag == TypeInteger || tag == TypeLong || tag == TypeShort
  }

  predicate IsStrTag(tag: string)
  {
    tag == TypeChar || tag == TypeDouble || tag == TypeFloat
  }

  /** Python's `hex(v)`: defined on ints (and bools, which are ints). */
  function PyHex(v: Value): Result<string>
  {
    match v
    case Int(i) => Ok(Numerals.Hex(i))
    case Bool(b) => Ok(Numerals.Hex(if b then 1 else 0))
    case _ => Err(TypeError)
  }

  /** `_do_value(type, value)`: the text of a primitive array element, or None
      when the type code is none of the eight it knows. */
  function DoScalar(h: Heap, tag: string, v: Value): Result<Option<string>>
  {
    if IsHexTag(tag) then
      (match PyHex(v)
       case Ok(t) => Ok(Some(t))
       case Err(f) => Err(f))
    else if IsStrTag(tag) then Ok(Some(PyStr(h, v)))
    else if tag == TypeBoolean then Ok(Some(if Truthy(h, v) then "True" else "False"))
    else Ok(None)
  }

  /** byte, int, long and short elements become hexadecimal text that reads
      back as the element's value. */
  lemma HexElementsReadBack(h: Heap, tag: string, i: int)
    requires IsHexTag(tag)
    ensures DoScalar(h, tag, Int(i)).Ok? && DoScalar(h, tag, Int(i)).value.Some?
    ensures Numerals.ReadHex(DoScalar(h, tag, Int(i)).value.value) == Some(i)
  {
    Numerals.HexRoundTrip(i);
  }

  /** boolean elements become the literal True or False. */
  lemma BooleanElements(h: Heap, b: bool)
    ensures DoScalar(h, TypeBoolean, Bool(b)) == Ok(Some(if b then "True" else "False"))
  {
  }

  /** A type code outside the eight yields no node at all. */
  lemma UnknownTagYieldsNothing(h: Heap, tag: string, v: Value)
    requires !IsHexTag(tag) && !IsStrTag(tag) && tag != TypeBoolean
    ensures DoScalar(h, tag, v) == Ok(None)
  {
  }

  /** How `do_array` treats its elements, by `classdesc.name[1]`. */
  datatype ElementMode = ByDispatch | ByTag(tag: string)

  /** `obj.classdesc.name[1] in ('L', '[')`, then `name[1:]` for
      `_do_value`: the descriptor must be a class (AttributeError otherwise)
      whose name has a second character (IndexError otherwise). */
  function ElementModeOf(h: Heap, cls: Option<NodeId>): Result<ElementMode>
  {
    if cls.None? || cls.value !in h || !h[cls.value].ClassNode? then Err(AttributeError)
    else
      var name := h[cls.value].name;
      if |name| < 2 then Err(IndexError)
      else if name[1] == 'L' || name[1] == '[' then Ok(ByDispatch)
      else Ok(ByTag(name[1..]))
  }
}
