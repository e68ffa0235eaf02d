/**
 * What TMVATools::getNamesRecursive collects, as a pure function of the element
 * tree, and the properties of that collection: it is the pre-order concatenation
 * of each element's own matches, a value is collected exactly when an element
 * named nodeName carries an attribute named nodeAtt with that value, and the
 * number of values is the number of matching (element, attribute) pairs.
 */
module Harvest {
  import opened Wrappers
  import opened Xml

  /**
   * The values one element contributes, in attribute-list order: the value of
   * every attribute named nodeAtt, when the element itself is named nodeName.
   * Defined from the end of the list, the order in which a scan appends.
   */
  function AttrValues(elem: string, attrs: seq<Attribute>, nodeName: string, nodeAtt: string): seq<string>
    decreases |attrs|
  {
    if attrs == [] then []
    else
      var last := attrs[|attrs| - 1];
      AttrValues(elem, attrs[..|attrs| - 1], nodeName, nodeAtt)
        + (if elem == nodeName && last.name == nodeAtt then [last.value] else [])
  }

  function ElementValues(e: Element, nodeName: string, nodeAtt: string): seq<string>
  {
    AttrValues(e.name, e.attrs, nodeName, nodeAtt)
  }

  /** The values collected from the subtree rooted at e: its own, then its children's, left to right. */
  function Names(e: Element, nodeName: string, nodeAtt: string): seq<string>
    decreases e
  {
    ElementValues(e, nodeName, nodeAtt) + NamesForest(e.children, nodeName, nodeAtt)
  }

  function NamesForest(ts: seq<Element>, nodeName: string, nodeAtt: string): seq<string>
    decreases ts
  {
    if ts == [] then []
    else NamesForest(ts[..|ts| - 1], nodeName, nodeAtt) + Names(ts[|ts| - 1], nodeName, nodeAtt)
  }

  /** What getNames adds for a parse result: nothing when the parse failed. */
  function DocumentNames(doc: Option<Element>, nodeName: string, nodeAtt: string): (r: seq<string>)
    ensures doc.None? ==> r == []
    ensures doc.Some? ==> |r| == MatchCount(PreOrder(doc.value), nodeName, nodeAtt)
  {
    match doc
    case None => []
    case Some(root) => NamesCount(root, nodeName, nodeAtt); Names(root, nodeName, nodeAtt)
  }

  /** The queries of getVarNames and getClassNames. */
  function TrainingNames(doc: Option<Element>): seq<string>
  {
    DocumentNames(doc, "Variable", "Label")
  }

  function SpectatorNames(doc: Option<Element>): seq<string>
  {
    DocumentNames(doc, "Spectator", "Label")
  }

  function ClassNames(doc: Option<Element>): seq<string>
  {
    DocumentNames(doc, "Class", "Name")
  }

  // ---------------------------------------------------------------------------
  // Reference definitions: a flat list of elements, and counts of matches.
  // ---------------------------------------------------------------------------

  /** The concatenation of the values of each element of a flat list, in list order. */
  function ConcatValues(es: seq<Element>, nodeName: string, nodeAtt: string): seq<string>
  {
    if es == [] then []
    else ConcatValues(es[..|es| - 1], nodeName, nodeAtt) + ElementValues(es[|es| - 1], nodeName, nodeAtt)
  }

  /** The number of (element, attribute) pairs of es with element name nodeName and attribute name nodeAtt. */
  function MatchCount(es: seq<Element>, nodeName: string, nodeAtt: string): nat
  {
    if es == [] then 0
    else
      var last := es[|es| - 1];
      MatchCount(es[..|es| - 1], nodeName, nodeAtt)
        + (if last.name == nodeName then multiset(AttrNames(last.attrs))[nodeAtt] else 0)
  }

  /** The number of elements of es named nodeName that carry an attribute named nodeAtt. */
  function SelectedCount(es: seq<Element>, nodeName: string, nodeAtt: string): nat
  {
    if es == [] then 0
    else
      var last := es[|es| - 1];
      SelectedCount(es[..|es| - 1], nodeName, nodeAtt)
        + (if last.name == nodeName && HasAttr(last, nodeAtt) then 1 else 0)
  }

  // ---------------------------------------------------------------------------
  // One element: the conjunctive filter.
  // ---------------------------------------------------------------------------

  /** A value is collected from an element iff the element is named nodeName and one of its nodeAtt attributes has that value. */
  lemma {:induction false} AttrValuesMembership(elem: string, attrs: seq<Attribute>, nodeName: string, nodeAtt: string, v: string)
    ensures v in AttrValues(elem, attrs, nodeName, nodeAtt)
        <==> elem == nodeName && exists a :: a in attrs && a.name == nodeAtt && a.value == v
    decreases |attrs|
  {
    if attrs != [] {
      var init, last := attrs[..|attrs| - 1], attrs[|attrs| - 1];
      AttrValuesMembership(elem, init, nodeName, nodeAtt, v);
      assert attrs == init + [last];
      assert forall a :: a in attrs <==> a in init || a == last;
    }
  }

  /** An element contributes one value per attribute named nodeAtt, and nothing under another name. */
  lemma {:induction false} AttrValuesCount(elem: string, attrs: seq<Attribute>, nodeName: string, nodeAtt: string)
    ensures |AttrValues(elem, attrs, nodeName, nodeAtt)|
         == if elem == nodeName then multiset(AttrNames(attrs))[nodeAtt] else 0
    decreases |attrs|
  {
    if attrs != [] {
      AttrValuesCount(elem, attrs[..|attrs| - 1], nodeName, nodeAtt);
    }
  }

  /** Under the Unique Att Spec an attribute name occurs at most once, and exactly once when present. */
  lemma {:induction false} UniqueAttCount(attrs: seq<Attribute>, att: string)
    requires UniqueAttNames(attrs)
    ensures multiset(AttrNames(attrs))[att] == if exists a :: a in attrs && a.name == att then 1 else 0
    decreases |attrs|
  {
    if attrs != [] {
      var init, last := attrs[..|attrs| - 1], attrs[|attrs| - 1];
      assert UniqueAttNames(init) by {
        forall i, j | 0 <= i < j < |init| ensures init[i].name != init[j].name {
          assert init[i] == attrs[i] && init[j] == attrs[j];
        }
      }
      UniqueAttCount(init, att);
      assert attrs == init + [last];
      assert forall a :: a in attrs <==> a in init || a == last;
      if last.name == att {
        forall a | a in init ensures a.name != att {
          var k :| 0 <= k < |init| && init[k] == a;
          assert attrs[k] == a;
        }
      }
    }
  }

  // ---------------------------------------------------------------------------
  // Flat lists.
  // ---------------------------------------------------------------------------

  lemma {:induction false} ConcatValuesAppend(es: seq<Element>, fs: seq<Element>, nodeName: string, nodeAtt: string)
    ensures ConcatValues(es + fs, nodeName, nodeAtt)
         == ConcatValues(es, nodeName, nodeAtt) + ConcatValues(fs, nodeName, nodeAtt)
    decreases |fs|
  {
    if fs == [] {
      assert es + fs == es;
    } else {
      var init, last := fs[..|fs| - 1], fs[|fs| - 1];
      var ef := es + fs;
      assert ef[..|ef| - 1] == es + init;
      assert ef[|ef| - 1] == last;
      assert ConcatValues(ef, nodeName, nodeAtt)
          == ConcatValues(es + init, nodeName, nodeAtt) + ElementValues(last, nodeName, nodeAtt);
      ConcatValuesAppend(es, init, nodeName, nodeAtt);
      assert ConcatValues(fs, nodeName, nodeAtt)
          == ConcatValues(init, nodeName, nodeAtt) + ElementValues(last, nodeName, nodeAtt);
    }
  }

  lemma {:induction false} ConcatValuesMembership(es: seq<Element>, nodeName: string, nodeAtt: string, v: string)
    ensures v in ConcatValues(es, nodeName, nodeAtt) <==> exists m :: m in es && v in ElementValues(m, nodeName, nodeAtt)
    decreases |es|
  {
    if es != [] {
      var init, last := es[..|es| - 1], es[|es| - 1];
      ConcatValuesMembership(init, nodeName, nodeAtt, v);
      assert es == init + [last];
      assert forall m :: m in es <==> m in init || m == last;
    }
  }

  lemma {:induction false} ConcatValuesCount(es: seq<Element>, nodeName: string, nodeAtt: string)
    ensures |ConcatValues(es, nodeName, nodeAtt)| == MatchCount(es, nodeName, nodeAtt)
    decreases |es|
  {
    if es != [] {
      var last := es[|es| - 1];
      ConcatValuesCount(es[..|es| - 1], nodeName, nodeAtt);
      AttrValuesCount(last.name, last.attrs, nodeName, nodeAtt);
    }
  }

  /** Where every element satisfies the Unique Att Spec, each selected element yields exactly one value. */
  lemma {:induction false} MatchCountUnique(es: seq<Element>, nodeName: string, nodeAtt: string)
    requires forall m :: m in es ==> UniqueAttNames(m.attrs)
    ensures MatchCount(es, nodeName, nodeAtt) == SelectedCount(es, nodeName, nodeAtt)
    decreases |es|
  {
    if es != [] {
      var init, last := es[..|es| - 1], es[|es| - 1];
      assert forall m :: m in init ==> m in es;
      MatchCountUnique(init, nodeName, nodeAtt);
      UniqueAttCount(last.attrs, nodeAtt);
    }
  }

  // ---------------------------------------------------------------------------
  // The tree.
  // ---------------------------------------------------------------------------

  /** Pre-order: the values of a tree are those of its elements in document order, concatenated. */
  lemma {:induction false} NamesArePreOrder(e: Element, nodeName: string, nodeAtt: string)
    ensures Names(e, nodeName, nodeAtt) == ConcatValues(PreOrder(e), nodeName, nodeAtt)
    decreases e
  {
    NamesForestArePreOrder(e.children, nodeName, nodeAtt);
    ConcatValuesAppend([e], PreOrderForest(e.children), nodeName, nodeAtt);
    assert [e][..0] == [];
  }

  lemma {:induction false} NamesForestArePreOrder(ts: seq<Element>, nodeName: string, nodeAtt: string)
    ensures NamesForest(ts, nodeName, nodeAtt) == ConcatValues(PreOrderForest(ts), nodeName, nodeAtt)
    decreases ts
  {
    if ts != [] {
      var init, last := ts[..|ts| - 1], ts[|ts| - 1];
      NamesForestArePreOrder(init, nodeName, nodeAtt);
      NamesArePreOrder(last, nodeName, nodeAtt);
      ConcatValuesAppend(PreOrderForest(init), PreOrder(last), nodeName, nodeAtt);
    }
  }

  /** A value is collected iff some element of the tree named nodeName has a nodeAtt attribute with that value. */
  lemma NamesMembership(e: Element, nodeName: string, nodeAtt: string, v: string)
    ensures v in Names(e, nodeName, nodeAtt)
        <==> exists m, a :: m in PreOrder(e) && a in m.attrs && m.name == nodeName && a.name == nodeAtt && a.value == v
  {
    NamesArePreOrder(e, nodeName, nodeAtt);
    ConcatValuesMembership(PreOrder(e), nodeName, nodeAtt, v);
    forall m | m in PreOrder(e)
      ensures v in ElementValues(m, nodeName, nodeAtt)
          <==> m.name == nodeName && exists a :: a in m.attrs && a.name == nodeAtt && a.value == v
    {
      AttrValuesMembership(m.name, m.attrs, nodeName, nodeAtt, v);
    }
  }

  /** Nothing is collected iff no element named nodeName carries an attribute named nodeAtt. */
  lemma NamesEmptyIff(e: Element, nodeName: string, nodeAtt: string)
    ensures Names(e, nodeName, nodeAtt) == []
        <==> forall m, a :: m in PreOrder(e) && a in m.attrs ==> !(m.name == nodeName && a.name == nodeAtt)
  {
    if Names(e, nodeName, nodeAtt) != [] {
      NamesMembership(e, nodeName, nodeAtt, Names(e, nodeName, nodeAtt)[0]);
    } else {
      forall m, a | m in PreOrder(e) && a in m.attrs
        ensures !(m.name == nodeName && a.name == nodeAtt)
      {
        NamesMembership(e, nodeName, nodeAtt, a.value);
      }
    }
  }

  /** The number of values collected is the number of matching (element, attribute) pairs. */
  lemma NamesCount(e: Element, nodeName: string, nodeAtt: string)
    ensures |Names(e, nodeName, nodeAtt)| == MatchCount(PreOrder(e), nodeName, nodeAtt)
  {
    NamesArePreOrder(e, nodeName, nodeAtt);
    ConcatValuesCount(PreOrder(e), nodeName, nodeAtt);
  }

  /** In a well-formed document each element named nodeName that carries nodeAtt contributes exactly one value. */
  lemma OneValuePerSelectedElement(e: Element, nodeName: string, nodeAtt: string)
    requires WellFormed(e)
    ensures |Names(e, nodeName, nodeAtt)| == SelectedCount(PreOrder(e), nodeName, nodeAtt)
  {
    NamesCount(e, nodeName, nodeAtt);
    MatchCountUnique(PreOrder(e), nodeName, nodeAtt);
  }

  // ---------------------------------------------------------------------------
  // Worked examples.
  // ---------------------------------------------------------------------------

  /** Training and spectator labels of a small weight file; it declares no classes. */
  lemma WeightFileExample()
    ensures var root := Element("MethodSetup", [], [
                          Element("Variable", [Attribute("VarIndex", "0"), Attribute("Label", "pt")], []),
                          Element("Variable", [Attribute("Label", "eta")], []),
                          Element("Spectator", [Attribute("Label", "runNumber")], [])]);
            && Names(root, "Variable", "Label") == ["pt", "eta"]
            && Names(root, "Spectator", "Label") == ["runNumber"]
            && Names(root, "Class", "Name") == []
  {
    var pt := Element("Variable", [Attribute("VarIndex", "0"), Attribute("Label", "pt")], []);
    var eta := Element("Variable", [Attribute("Label", "eta")], []);
    var run := Element("Spectator", [Attribute("Label", "runNumber")], []);
    assert pt.attrs[..1] == [Attribute("VarIndex", "0")];
    assert [pt, eta, run][..2] == [pt, eta];
    assert [pt, eta][..1] == [pt];
    ThreeChildren("MethodSetup", pt, eta, run, "Variable", "Label");
    ThreeChildren("MethodSetup", pt, eta, run, "Spectator", "Label");
    ThreeChildren("MethodSetup", pt, eta, run, "Class", "Name");
  }

  /**
   * The tag and attribute conditions are conjunctive: a Variable without a Label, and a Label
   * under Spectator, give nothing to the (Variable, Label) query; and the order is pre-order
   * (child, then grandchild, then the child's sibling).
   */
  lemma ConjunctionAndOrderExample()
    ensures var root := Element("Variables", [], [
                          Element("Variable", [Attribute("Label", "a")], [
                            Element("Variable", [Attribute("Expression", "x")], []),
                            Element("Spectator", [Attribute("Label", "s")], []),
                            Element("Variable", [Attribute("Label", "b")], [])]),
                          Element("Variable", [Attribute("Label", "c")], [])]);
            Names(root, "Variable", "Label") == ["a", "b", "c"]
  {
    var x := Element("Variable", [Attribute("Expression", "x")], []);
    var s := Element("Spectator", [Attribute("Label", "s")], []);
    var b := Element("Variable", [Attribute("Label", "b")], []);
    var a := Element("Variable", [Attribute("Label", "a")], [x, s, b]);
    var c := Element("Variable", [Attribute("Label", "c")], []);
    ThreeChildren("Variable", x, s, b, "Variable", "Label");
    assert [a, c][..1] == [a];
    assert [a][..0] == [];
    assert Names(a, "Variable", "Label") == ElementValues(a, "Variable", "Label") + NamesForest([x, s, b], "Variable", "Label");
    assert NamesForest([x, s, b], "Variable", "Label") == ["b"];
  }

  /** The walk pushes once per matching attribute: an element that repeats an attribute gives both values. */
  lemma RepeatedAttributeExample()
    ensures Names(Element("Class", [Attribute("Name", "Signal"), Attribute("Name", "Background")], []), "Class", "Name")
         == ["Signal", "Background"]
  {
    var attrs := [Attribute("Name", "Signal"), Attribute("Name", "Background")];
    assert attrs[..1] == [Attribute("Name", "Signal")];
    assert attrs[..1][..0] == [];
    assert AttrValues("Class", attrs[..1], "Class", "Name") == ["Signal"];
  }

  /** An element without attributes whose three children are leaves yields the children's values in order. */
  lemma ThreeChildren(name: string, t0: Element, t1: Element, t2: Element, nodeName: string, nodeAtt: string)
    requires t0.children == t1.children == t2.children == []
    ensures Names(Element(name, [], [t0, t1, t2]), nodeName, nodeAtt)
         == ElementValues(t0, nodeName, nodeAtt) + ElementValues(t1, nodeName, nodeAtt) + ElementValues(t2, nodeName, nodeAtt)
  {
    assert [t0, t1, t2][..2] == [t0, t1];
    assert [t0, t1][..1] == [t0];
    assert [t0][..0] == [];
    assert Names(t0, nodeName, nodeAtt) == ElementValues(t0, nodeName, nodeAtt);
    assert Names(t1, nodeName, nodeAtt) == ElementValues(t1, nodeName, nodeAtt);
    assert Names(t2, nodeName, nodeAtt) == ElementValues(t2, nodeName, nodeAtt);
    assert NamesForest([t0], nodeName, nodeAtt) == Names(t0, nodeName, nodeAtt);
    assert NamesForest([t0, t1], nodeName, nodeAtt) == NamesForest([t0], nodeName, nodeAtt) + Names(t1, nodeName, nodeAtt);
    assert NamesForest([t0, t1, t2], nodeName, nodeAtt) == NamesForest([t0, t1], nodeName, nodeAtt) + Names(t2, nodeName, nodeAtt);
    assert ElementValues(Element(name, [], [t0, t1, t2]), nodeName, nodeAtt) == [];
  }
}
