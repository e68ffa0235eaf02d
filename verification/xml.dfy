/**
 * The element tree that an XML 1.0 parser produces from a TMVA weight file.
 * Only elements are kept: each has its name, its attribute list in document
 * order, and its child elements in document order.
 */
module Xml {

  datatype Attribute = Attribute(name: string, value: string)

  datatype Element = Element(name: string, attrs: seq<Attribute>, children: seq<Element>)

  /** Every element of the tree in document order: the element, then each child subtree, left to right. */
  function PreOrder(e: Element): seq<Element>
    decreases e
  {
    [e] + PreOrderForest(e.children)
  }

  function PreOrderForest(ts: seq<Element>): seq<Element>
    decreases ts
  {
    if ts == [] then []
    else PreOrderForest(ts[..|ts| - 1]) + PreOrder(ts[|ts| - 1])
  }

  /** The names of an attribute list, in order. */
  function AttrNames(attrs: seq<Attribute>): seq<string>
  {
    if attrs == [] then []
    else AttrNames(attrs[..|attrs| - 1]) + [attrs[|attrs| - 1].name]
  }

  predicate HasAttr(e: Element, att: string)
  {
    exists a :: a in e.attrs && a.name == att
  }

  /** The "Unique Att Spec" constraint of section 3.1 of XML 1.0: no attribute name twice in one element. */
  predicate UniqueAttNames(attrs: seq<Attribute>)
  {
    forall i, j :: 0 <= i < j < |attrs| ==> attrs[i].name != attrs[j].name
  }

  /** Every element of the tree satisfies the Unique Att Spec. */
  predicate WellFormed(e: Element)
  {
    forall m :: m in PreOrder(e) ==> UniqueAttNames(m.attrs)
  }
}
