/** The output document as an abstract tree: the elements, text nodes and
    comments the marshaller creates, before any pretty-printing. */
module Xml {
  import Numerals

  datatype Attr = Attr(name: string, value: string)

  datatype Xml =
    | Element(tag: string, attrs: seq<Attr>, children: seq<Xml>)
    | Text(text: string)
    | Comment(text: string)

  /** Assigning `tagName` on an element renames it; nothing else changes. */
  function Retag(x: Xml, tag: string): (y: Xml)
    ensures x.Element? ==> y == Element(tag, x.attrs, x.children)
    ensures !x.Element? ==> y == x
  {
    if x.Element? then x.(tag := tag) else x
  }

  /** `appendChild` on an element adds `c` as its last child. */
  function AppendChild(x: Xml, c: Xml): (y: Xml)
    requires x.Element?
    ensures y == Element(x.tag, x.attrs, x.children + [c])
  {
    x.(children := x.children + [c])
  }

  /** An element wrapping one child, as `field`, `item` and `annotation` are. */
  function Wrap(tag: string, attrs: seq<Attr>, child: Xml): Xml
  {
    Element(tag, attrs, [child])
  }

  /** `ref="n"`: the registry index a first rendering carries. */
  function RefAttr(n: nat): Attr
  {
    Attr("ref", Numerals.Decimal(n))
  }

  /** `idx="n"`: the registry index a repeat encounter points back to. */
  function IdxAttr(n: nat): Attr
  {
    Attr("idx", Numerals.Decimal(n))
  }

  /** The pointer element of a repeat encounter. */
  function Reference(n: nat): Xml
  {
    Element("reference", [IdxAttr(n)], [])
  }

  /** The marker of an explicit or missing null. */
  const NullMarker: Xml := Comment("NULL")

  /** The opaque marker of an enum constant. */
  const EnumMarker: Xml := Comment("enum")
}
