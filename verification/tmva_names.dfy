/**
 * The name-harvesting half of TMVATools: a recursive walk over the parsed
 * weight file that push_backs matching attribute values onto a vector owned by
 * the caller, and the wrappers that parse a file and pick the query.
 *
 * The XML parser (TXMLEngine::ParseFile and DocGetRootElement) is external: it
 * is the parameter `parse`, which gives the root element of the named file, or
 * None when the file cannot be parsed.
 */
module TmvaNames {
  import opened Wrappers
  import opened Xml
  import opened Harvest

  /** A std::vector of names owned by the caller; the harvest only ever appends to it. */
  class NameVector {
    var elems: seq<string>

    constructor ()
      ensures elems == []
    {
      elems := [];
    }

    method PushBack(v: string)
      modifies this
      ensures elems == old(elems) + [v]
    {
      elems := elems + [v];
    }
  }

  /**
   * Scans the attribute list of `node`, appending the value of each attribute
   * named nodeAtt when the element is named nodeName, then does the same for
   * each child subtree, left to right. What is appended is exactly
   * Names(node, nodeName, nodeAtt); what was there before stays in front.
   */
  method GetNamesRecursive(node: Element, nodeName: string, nodeAtt: string, names: NameVector)
    modifies names
    ensures names.elems == old(names.elems) + Names(node, nodeName, nodeAtt)
    decreases node
  {
    var nname := node.name;
    var i := 0;
    while i < |node.attrs|
      invariant 0 <= i <= |node.attrs|
      invariant names.elems == old(names.elems) + AttrValues(nname, node.attrs[..i], nodeName, nodeAtt)
    {
      var attr := node.attrs[i];
      if nname == nodeName && attr.name == nodeAtt {
        names.PushBack(attr.value);
      }
      assert node.attrs[..i + 1][..i] == node.attrs[..i];
      i := i + 1;
    }
    assert node.attrs[..i] == node.attrs;

    var j := 0;
    while j < |node.children|
      invariant 0 <= j <= |node.children|
      invariant names.elems
             == old(names.elems) + ElementValues(node, nodeName, nodeAtt) + NamesForest(node.children[..j], nodeName, nodeAtt)
    {
      var child := node.children[j];
      GetNamesRecursive(child, nodeName, nodeAtt, names);
      assert node.children[..j + 1][..j] == node.children[..j];
      j := j + 1;
    }
    assert node.children[..j] == node.children;
  }

  /** Parses `filename` and harvests it; when the parse fails, `names` is left as it was. */
  method GetNames(parse: string -> Option<Element>, filename: string, nodeName: string, nodeAtt: string, names: NameVector)
    modifies names
    ensures parse(filename).None? ==> names.elems == old(names.elems)
    ensures parse(filename).Some? ==> names.elems == old(names.elems) + Names(parse(filename).value, nodeName, nodeAtt)
    ensures names.elems == old(names.elems) + DocumentNames(parse(filename), nodeName, nodeAtt)
  {
    var xmldoc := parse(filename);
    if xmldoc.None? {
      return;
    }
    var mainnode := xmldoc.value;
    GetNamesRecursive(mainnode, nodeName, nodeAtt, names);
  }

  /**
   * Training variables are the Label attributes of Variable elements, spectators
   * those of Spectator elements. Should the caller pass one vector for both, it
   * receives the training names and then the spectator names.
   */
  method GetVarNames(parse: string -> Option<Element>, filename: string, tvars: NameVector, svars: NameVector)
    modifies tvars, svars
    ensures tvars != svars ==> tvars.elems == old(tvars.elems) + TrainingNames(parse(filename))
    ensures tvars != svars ==> svars.elems == old(svars.elems) + SpectatorNames(parse(filename))
    ensures tvars == svars ==> tvars.elems == old(tvars.elems) + TrainingNames(parse(filename)) + SpectatorNames(parse(filename))
  {
    GetNames(parse, filename, "Variable", "Label", tvars);
    GetNames(parse, filename, "Spectator", "Label", svars);
  }

  /** Class names are the Name attributes of Class elements. */
  method GetClassNames(parse: string -> Option<Element>, filename: string, classes: NameVector)
    modifies classes
    ensures classes.elems == old(classes.elems) + ClassNames(parse(filename))
  {
    GetNames(parse, filename, "Class", "Name", classes);
  }
}
