# TMVATools classifier metadata, in Dafny

A model of the classifier-metadata layer of the UFDimuAnalysis toolkit
(`tools/TMVATools.cxx`). This layer reads a TMVA weight file to find two sets of
names. The training variables are the `Label` attributes of `Variable`
elements. The spectator variables are the `Label` attributes of `Spectator`
elements. It gives each name a float slot in a caller-owned `std::map`, with
the sentinel -999. It registers each name and its slot with a TMVA reader in
the order the names appear in the file, and then books the classifier.
For every event, it overwrites each training slot with that event's value
before asking the reader for a score.

Modules:

- `Xml` (xml.dfy): the parsed document as an element tree. Each element has a
  name, its attribute list in document order, and its child elements. The
  module also gives the pre-order list of a tree's elements and the
  "Unique Att Spec" constraint of section 3.1 of XML 1.0.
- `Harvest` (harvest.dfy): the pure specification `Names` of what
  `getNamesRecursive` collects. Lemmas prove three things about it:
  - it is the concatenation, in pre-order, of each element's own matches;
  - a value is collected exactly when an element with the right name carries
    the right attribute with that value;
  - the number of values is the number of matching (element, attribute) pairs,
    which is one per selected element in a well-formed document.
- `TmvaNames` (tmva_names.dfy): the imperative harvest. `NameVector` is the
  caller's `std::vector`. `GetNamesRecursive` has the two `while` loops of the
  source, and is proved to append exactly `Names(node, …)`. `GetNames`,
  `GetVarNames` and `GetClassNames` are the wrappers.
- `TmvaBinding` (tmva_binding.dfy): `SlotMap` is the caller's `std::map`.
  `Reader` is the TMVA reader, recorded as the list of calls made on it; the
  slot address `&tmap[var]` is the pair (map object, name). The module also
  holds `BookVars`, the slot refresh, the two scoring calls, and the functions
  `WithSentinel`, `Registrations` and `Refreshed` that specify them.

External collaborators are parameters:
- `parse: string -> Option<Element>` stands for `TXMLEngine::ParseFile` followed
  by `DocGetRootElement`. It gives `None` when the file cannot be parsed.
- `getValue: string -> real` stands for `VarSet::getValue`.
- `evaluate` stands for `EvaluateMVA` and `EvaluateMulticlass`. It is applied
  to the method name and the refreshed training slots.

Behaviour as the code has it:
- An element contributes one value for each attribute in its list that has the
  requested name. A well-formed XML document has at most one such attribute
  per element, so this is one value per element;
  `OneValuePerSelectedElement` proves that. The code itself does not depend on
  it, and `RepeatedAttributeExample` shows two values coming from one element.
- When the file cannot be parsed, `getNames` returns silently and leaves the
  vector unchanged. `bookVars` then books the method with no registered
  variables.
- The scoring calls do not check names first. Each slot is overwritten with
  whatever `getValue` returns for its key.
- If the same vector is passed as both `tvars` and `svars`, it receives the
  training names and then the spectator names. If the same map is passed as
  both `tmap` and `smap`, it ends up holding both lists. The contracts state
  both the aliased and the separate case.

## Model

| member | source | states |
|---|---|---|
| `Harvest.AttrValuesMembership` | tools/TMVATools.cxx:24-35 | A value is taken from an element iff the element's name is `node_name` and one of its attributes is named `node_att` with that value. A matching attribute under another tag gives nothing, and so does the right tag without the attribute. |
| `Harvest.AttrValuesCount` | tools/TMVATools.cxx:25-35 | The attribute scan pushes once per attribute named `node_att`, and only when the element's name matches. |
| `Harvest.NamesArePreOrder` | tools/TMVATools.cxx:24-43 | What a subtree gives is its elements' own values concatenated in pre-order: first the element's own values in attribute order, then each child subtree's values, left to right. |
| `Harvest.NamesForestArePreOrder` | tools/TMVATools.cxx:38-43 | The child loop gives the children's subtrees in pre-order, concatenated left to right. |
| `Harvest.NamesMembership` | tools/TMVATools.cxx:15-44 | A value is collected iff some element of the tree named `node_name` has a `node_att` attribute with that value (both directions). |
| `Harvest.NamesEmptyIff` | tools/TMVATools.cxx:24-43 | Nothing is collected iff no element named `node_name` carries an attribute named `node_att` (both directions). |
| `Harvest.NamesCount` | tools/TMVATools.cxx:24-43 | The number of values collected is the number of matching (element, attribute) pairs in the tree. |
| `Harvest.UniqueAttCount` | tools/TMVATools.cxx:25-35 | Under the XML 1.0 Unique Att Spec, a given attribute name occurs at most once in an element's list, and exactly once when present. |
| `Harvest.MatchCountUnique` | tools/TMVATools.cxx:24-43 | If every element obeys the Unique Att Spec, the number of matching pairs equals the number of selected elements. |
| `Harvest.OneValuePerSelectedElement` | tools/TMVATools.cxx:24-43 | In a well-formed document, each element named `node_name` that carries `node_att` contributes exactly one value. |
| `Harvest.DocumentNames` | tools/TMVATools.cxx:59-70 | A failed parse contributes nothing. A parsed document contributes as many values as it has matching pairs. |
| `Harvest.WeightFileExample` | tools/TMVATools.cxx:81-102 | For a small weight file: (`Variable`, `Label`) gives `["pt", "eta"]`, (`Spectator`, `Label`) gives `["runNumber"]`, and (`Class`, `Name`) gives nothing. |
| `Harvest.ConjunctionAndOrderExample` | tools/TMVATools.cxx:29-43 | A `Variable` without a `Label` and a `Label` under `Spectator` are both skipped. The values come out child, then grandchild, then sibling. |
| `Harvest.RepeatedAttributeExample` | tools/TMVATools.cxx:25-35 | An element that repeats the attribute gives both values, in list order. |
| `TmvaNames.NameVector.PushBack` | tools/TMVATools.cxx:31 | `push_back` appends one value at the end of the caller's vector. |
| `TmvaNames.GetNamesRecursive` | tools/TMVATools.cxx:15-44 | The vector ends as its old contents followed by exactly `Names(node, node_name, node_att)`. Nothing already present is removed or reordered. |
| `TmvaNames.GetNames` | tools/TMVATools.cxx:50-75 | A failed parse leaves the vector unchanged. Otherwise the vector gains the harvest of the root element. |
| `TmvaNames.GetVarNames` | tools/TMVATools.cxx:81-89 | `tvars` gains the (`Variable`, `Label`) harvest and `svars` gains the (`Spectator`, `Label`) harvest. If one vector is passed for both, it gains the first harvest and then the second. |
| `TmvaNames.GetClassNames` | tools/TMVATools.cxx:95-102 | The vector gains the (`Class`, `Name`) harvest. |
| `TmvaBinding.SlotMap.Put` | tools/TMVATools.cxx:125 | `m[key] = v` creates or overwrites the slot `key` and changes no other slot. |
| `TmvaBinding.Reader.constructor` | tools/TMVATools.cxx:121 | A new reader has the options `!Color:!Silent` and no calls yet. |
| `TmvaBinding.Reader.AddVariable` | tools/TMVATools.cxx:126 | Appends the registration of a training name bound to its slot in the given map. |
| `TmvaBinding.Reader.AddSpectator` | tools/TMVATools.cxx:138 | Appends the registration of a spectator name bound to its slot in the given map. |
| `TmvaBinding.Reader.BookMVA` | tools/TMVATools.cxx:142 | Appends the booking of the method from the weight file. |
| `TmvaBinding.WithSentinelSlots` | tools/TMVATools.cxx:123-127 | After `m[n] = -999` for each name in turn, the keys are the old keys plus the names. Every name holds -999 and every other key keeps its value. |
| `TmvaBinding.WithSentinelAppend` | tools/TMVATools.cxx:123-139 | Setting sentinels for one list and then another, in the same map, is the same as setting them for the concatenation. |
| `TmvaBinding.RegistrationsInOrder` | tools/TMVATools.cxx:123-139 | The i-th registration call is for the i-th harvested name, bound to its slot: harvest order is kept. |
| `TmvaBinding.BookingLog` | tools/TMVATools.cxx:123-142 | The reader's log has all training registrations in harvest order, then all spectator registrations, then a single booking, which comes after every registration. |
| `TmvaBinding.BindNames` | tools/TMVATools.cxx:123-127 | The loop gives every name a -999 slot and registers it with that slot, in order. Only the reader's log and this map change. |
| `TmvaBinding.BookVars` | tools/TMVATools.cxx:109-145 | Creates a fresh reader. Its log is training registrations, then spectator registrations, then the booking. `tmap` and `smap` are the old maps with the harvested names set to -999 (their union when they are the same map). Every harvested name is a key holding -999. |
| `TmvaBinding.RefreshSlots` | tools/TMVATools.cxx:157-161 | Every key of the training map is kept and set to `getValue(key)`. No key is added or removed. |
| `TmvaBinding.GetClassifierScore` | tools/TMVATools.cxx:151-165 | The training map keeps its key set and each slot holds `getValue(key)`. The score is the evaluator's output on those refreshed slots. `smap` is not touched. |
| `TmvaBinding.GetMulticlassScores` | tools/TMVATools.cxx:171-185 | The same slot update, followed by the evaluator's per-class outputs on the refreshed slots. |
| `TmvaBinding.ScoredAfterBooking` | tools/TMVATools.cxx:123-161 | After booking and one refresh, the training keys are the old keys plus the harvested names, and each name holds the event's value. |
| `TmvaBinding.BindingExample` | tools/TMVATools.cxx:157-161 | Booking `pt` and `eta` gives two -999 slots. With `pt` mapped to 42 and `eta` to -1.5, one refresh gives exactly those two values. |

## Left out

- XML parsing (`ParseFile`, `DocGetRootElement`) is the parameter `parse`. The
  engine's allocation and release (`new TXMLEngine`, `FreeDoc`, `delete`) are not
  modelled.
- Only element nodes are modelled. Text, comment and other non-element children
  of the parsed document are not part of the tree.
- `getVarNames` parses the file twice. The model gives both parses the same
  tree, as if the file did not change between the two reads.
- TMVA reader internals (`AddVariable`, `AddSpectator`, `BookMVA`) are recorded
  as calls only. What the reader does with them, and how booking can fail, are
  not modelled.
- TmvaBinding.GetClassifierScore: the reader and `EvaluateMVA` are replaced by
  the parameter `evaluate`, applied to the refreshed training slots. The model
  does not dereference the slots the reader holds.
- TmvaBinding.GetMulticlassScores: the reader and `EvaluateMulticlass` are
  replaced by `evaluate` in the same way.
- `VarSet::getValue` is not part of this model. It is the total function
  `getValue`, so its behaviour for names the event does not have is not
  modelled.
- TmvaBinding.RefreshSlots: updates the keys in an arbitrary order, not in the
  sorted key order of `std::map` iteration. Each new value depends only on its
  own key, so the final map is the same.
- Slot values are `real`. The rounding of `getValue`'s double into a `Float_t`
  slot is not modelled; -999 is exact in both.
- Ownership of the returned reader and of the maps, and their deletion, are not
  modelled.
- `bin/oldv1/compareDataMC.cxx` (a plotting driver) and
  `lib/analyzer_objects/GenPairInfo.cc` (a record with floating-point
  kinematics) are not part of this model.
