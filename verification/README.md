# DOMDifferenceEngine in Dafny

This project models the core of XMLUnit's DOM difference engine.
`DOMDifferenceEngine` walks two DOM trees, a control tree and a test tree.
It compares them node by node and reports every `Comparison` it makes to the
listeners. The shared parts come from `AbstractDifferenceEngine`:

- the evaluation pipeline: raw verdict, then `DifferenceEvaluator`, then
  `ComparisonController`;
- the `ComparisonChain`, which stops as soon as the controller says so;
- the configuration setters, which reject `null`.

The model is purely functional:

- A tree is an immutable `Dom.Node` datatype: element, attribute, text,
  CDATA, comment, processing instruction, document, document type, entity
  reference and document fragment.
- A walk is an `Engine.Run`. It holds the log of listener notifications
  (`Event`: comparison, evaluated verdict, stop flag), the current
  `(ComparisonResult, stop)` pair, and the two `XPathContext`s. Each context
  is a stack of child and attribute steps.
- A `DeferredComparison` is a function from the two contexts to the `Run` it
  produces. `ComparisonChain.andThen` never applies it once the stop flag is
  set.
- The matcher, the evaluator and the controller are function-valued fields
  of `Engine.Config`.

Modules:

- `Dom`: nodes, node type codes, and the DOM accessors the engine uses.
- `Comparisons`: comparison types, detail values, locations, the event log.
- `Engine`: `compare(Comparison)`, `ComparisonChain`, the configuration
  setters, and the ordering predicates `Follows` and `Opens`.
- `Attributes`: `splitAttributes`, `findMatchingAttr` and `valueAsQName`.
- `Walk`: `compareNodes` and everything it calls.
- `Properties`, `Lookups` and `Openings`: what the walk compares, and in
  which order.
- `Logs`: the complete log of compareNodes, compareElementAttributes,
  NormalAttributeComparer and compareChildren, including the recursive
  walks of matched children and attributes.
- `Findings`: `compareXsiType` exactly as written.
- `Sources`: the `compare(Source, Source)` entry point.

Two predicates recur in the contracts below:

- `Follows(r, cs)`: the run made exactly the comparisons `cs`, in order, or
  a prefix of them when it was stopped.
- `Opens(r, cs)`: the run begins with `cs`, or was stopped part way through
  them.

`Tidy` is the shape every walk function keeps:

- Both contexts come back as they were, which is the job of the
  `navigateToParent` calls.
- Only the last event may carry the stop flag. The run is stopped exactly
  when it does, with that event's verdict.
- Every `CHILD_LOOKUP` and `CHILD_NODELIST_SEQUENCE` lies below the
  locations the function started at.

## Model

| member | source | states |
|---|---|---|
| Dom.Interesting | xmlunit-core/src/main/java/org/xmlunit/diff/DOMDifferenceEngine.java:837-842 | the children that take part are exactly the children that are not document type nodes; no child gives none, and a single child is kept exactly when it is not a document type |
| Dom.InterestingAppend | xmlunit-core/src/main/java/org/xmlunit/diff/DOMDifferenceEngine.java:85-90 | the filter distributes over concatenation, so with the single-child cases it keeps the children that are not document types in document order |
| Dom.DoctypeOf | xmlunit-core/src/main/java/org/xmlunit/diff/DOMDifferenceEngine.java:227-228 | getDoctype finds a document type child when there is one and is null exactly when there is none |
| Engine.RawVerdict | xmlunit-core/src/main/java/org/xmlunit/diff/AbstractDifferenceEngine.java:127-132 | the raw verdict is EQUAL exactly when the two detail values are equal (null equals only null), and DIFFERENT otherwise |
| Engine.Compare | xmlunit-core/src/main/java/org/xmlunit/diff/AbstractDifferenceEngine.java:126-141 | one listener event carries the evaluator's verdict on the raw verdict; the stop flag is false for EQUAL and is the controller's answer otherwise; the contexts do not change |
| Engine.AndThen | xmlunit-core/src/main/java/org/xmlunit/diff/AbstractDifferenceEngine.java:200-205 | a stopped chain ignores the next part; otherwise the part's events are appended and its outcome becomes the chain's |
| Engine.NewChainFollows | xmlunit-core/src/main/java/org/xmlunit/diff/AbstractDifferenceEngine.java:184-186 | a chain without parts makes no comparison and is not stopped |
| Engine.CompareAllFollows | xmlunit-core/src/main/java/org/xmlunit/diff/AbstractDifferenceEngine.java:178-219 | a chain of plain comparers makes its comparisons in order, each judged by the evaluator, up to and including the first one the controller stops at |
| Engine.FollowsThen | xmlunit-core/src/main/java/org/xmlunit/diff/AbstractDifferenceEngine.java:200-205 | andThen follows a + b when the chain follows a and the part follows b |
| Engine.FollowsIf | xmlunit-core/src/main/java/org/xmlunit/diff/AbstractDifferenceEngine.java:209-212 | andIfTrueThen adds the part's comparisons exactly when the condition holds |
| Engine.OpensThen | xmlunit-core/src/main/java/org/xmlunit/diff/AbstractDifferenceEngine.java:200-205 | later parts never undo the comparisons a chain opened with |
| Engine.FollowsThenOpens | xmlunit-core/src/main/java/org/xmlunit/diff/AbstractDifferenceEngine.java:200-205 | a chain that follows a, continued with a part that b opens, is opened by a + b |
| Engine.AddComparisonListener | xmlunit-core/src/main/java/org/xmlunit/diff/AbstractDifferenceEngine.java:35-40 | null is refused with "listener must not be null" and the engine stays as it was; otherwise the listener is appended and nothing else changes |
| Engine.AddMatchListener | xmlunit-core/src/main/java/org/xmlunit/diff/AbstractDifferenceEngine.java:43-48 | as above, for match listeners |
| Engine.AddDifferenceListener | xmlunit-core/src/main/java/org/xmlunit/diff/AbstractDifferenceEngine.java:51-56 | as above, for difference listeners |
| Engine.SetNodeMatcher | xmlunit-core/src/main/java/org/xmlunit/diff/AbstractDifferenceEngine.java:59-65 | null is refused with its message and the engine stays as it was; otherwise only the matcher changes |
| Engine.SetDifferenceEvaluator | xmlunit-core/src/main/java/org/xmlunit/diff/AbstractDifferenceEngine.java:75-81 | null is refused with its message and the engine stays as it was; otherwise only the evaluator changes |
| Engine.SetComparisonController | xmlunit-core/src/main/java/org/xmlunit/diff/AbstractDifferenceEngine.java:91-97 | null is refused with its message and the engine stays as it was; otherwise only the controller changes |
| Attributes.NamedItemNSSpec | xmlunit-core/src/main/java/org/xmlunit/diff/DOMDifferenceEngine.java:737-745 | getNamedItemNS finds the first attribute with the namespace URI and local name, and finds none exactly when no attribute has them |
| Attributes.SplitAttributesSpec | xmlunit-core/src/main/java/org/xmlunit/diff/DOMDifferenceEngine.java:736-756 | each of schemaLocation, noNamespaceSchemaLocation and type is present exactly when the element has that xsi attribute; no namespace declaration is a normal attribute, and with unique names no xsi attribute is either |
| Attributes.SplitAttributesOrder | xmlunit-core/src/main/java/org/xmlunit/diff/DOMDifferenceEngine.java:746-754 | the normal attributes are exactly the kept attributes, in document order |
| Attributes.UniqueNameIsFirst | xmlunit-core/src/main/java/org/xmlunit/diff/DOMDifferenceEngine.java:737-745 | in a map with unique names, the xsi attribute getNamedItemNS returns is the only one with that name |
| Attributes.FindMatchingAttr | xmlunit-core/src/main/java/org/xmlunit/diff/DOMDifferenceEngine.java:795-814 | the counterpart is the first attribute with the same namespace URI and local name (or, without a namespace, the same name), and there is none exactly when no attribute matches |
| Attributes.ValueAsQNameUnprefixed | xmlunit-core/src/main/java/org/xmlunit/diff/DOMDifferenceEngine.java:758-775 | a value without a colon is the local part, in the namespace bound to no prefix |
| Attributes.ValueAsQNamePrefixed | xmlunit-core/src/main/java/org/xmlunit/diff/DOMDifferenceEngine.java:758-775 | a value with a colon (not at its end) is split at the first colon: the prefix is resolved (empty means none) and the rest is the local part, whatever further colons it holds |
| Walk.CompareNodes | xmlunit-core/src/main/java/org/xmlunit/diff/DOMDifferenceEngine.java:82-128 | the walk of two nodes leaves both contexts as it found them, and keeps the stop discipline and child-list reconciliation below its start |
| Walk.NodeTypeSpecific | xmlunit-core/src/main/java/org/xmlunit/diff/DOMDifferenceEngine.java:134-183 | the control node's kind picks the comparer only when the test node has the matching kind: character data, documents, elements, processing instructions, document types, attributes; any other pairing makes no comparison and yields (EQUAL, false); contexts restored, stop discipline |
| Walk.CompareCharacterData | xmlunit-core/src/main/java/org/xmlunit/diff/DOMDifferenceEngine.java:207-217 | one TEXT_VALUE comparison, judged on whether the two texts are equal |
| Walk.CompareDocTypes | xmlunit-core/src/main/java/org/xmlunit/diff/DOMDifferenceEngine.java:252-272 | DOCTYPE_NAME, DOCTYPE_PUBLIC_ID, DOCTYPE_SYSTEM_ID in order, each judged on whether that property agrees, up to the first stop |
| Walk.CompareDeclarations | xmlunit-core/src/main/java/org/xmlunit/diff/DOMDifferenceEngine.java:277-303 | XML_VERSION, XML_STANDALONE, XML_ENCODING in order, each judged on whether that property agrees, up to the first stop |
| Walk.CompareProcessingInstructions | xmlunit-core/src/main/java/org/xmlunit/diff/DOMDifferenceEngine.java:502-519 | PROCESSING_INSTRUCTION_TARGET then PROCESSING_INSTRUCTION_DATA, each judged on whether target or data agree |
| Walk.Explicitness | xmlunit-core/src/main/java/org/xmlunit/diff/DOMDifferenceEngine.java:722-731 | an ATTR_VALUE_EXPLICITLY_SPECIFIED comparison of the two attributes whose values agree exactly when both or neither were specified |
| Walk.CompareAttributes | xmlunit-core/src/main/java/org/xmlunit/diff/DOMDifferenceEngine.java:703-717 | explicitness, then ATTR_VALUE, each judged on whether that property agrees |
| Walk.CompareDocuments | xmlunit-core/src/main/java/org/xmlunit/diff/DOMDifferenceEngine.java:222-247 | contexts restored, stop discipline, reconciliation below its start |
| Walk.CompareElements | xmlunit-core/src/main/java/org/xmlunit/diff/DOMDifferenceEngine.java:309-328 | contexts restored, stop discipline, reconciliation below its start |
| Walk.CompareElementAttributes | xmlunit-core/src/main/java/org/xmlunit/diff/DOMDifferenceEngine.java:333-382 | contexts restored, stop discipline, no child-list reconciliation |
| Walk.NormalAttributes | xmlunit-core/src/main/java/org/xmlunit/diff/DOMDifferenceEngine.java:384-452 | contexts restored after every attribute visited, stop discipline |
| Walk.ControlAttributes | xmlunit-core/src/main/java/org/xmlunit/diff/DOMDifferenceEngine.java:407-444 | the loop only adds to the set of found test attributes, and only positions of existing test attributes |
| Walk.ControlAttributePresent | xmlunit-core/src/main/java/org/xmlunit/diff/DOMDifferenceEngine.java:454-497 | contexts restored after every unmatched test attribute, stop discipline |
| Walk.XsiValue | xmlunit-core/src/main/java/org/xmlunit/diff/DOMDifferenceEngine.java:679-686 | the ATTR_VALUE comparison of two xsi:type attributes agrees exactly when their values read as qualified names are equal |
| Walk.CompareXsiType | xmlunit-core/src/main/java/org/xmlunit/diff/DOMDifferenceEngine.java:646-698 | no xsi:type on either side: nothing; on both: name lookup, explicitness, value as QName, each judged; on one side only: a single failing ATTR_NAME_LOOKUP (corrected form, see Findings); it makes exactly those comparisons, or a prefix when stopped; contexts restored |
| Walk.XsiBothJudged | xmlunit-core/src/main/java/org/xmlunit/diff/DOMDifferenceEngine.java:672-689 | with both attributes present the three comparisons are judged on name, specified flag and QName value |
| Walk.CompareNodeLists | xmlunit-core/src/main/java/org/xmlunit/diff/DOMDifferenceEngine.java:527-571 | contexts restored after each child visited, stop discipline, reconciliation below its start |
| Walk.UnmatchedControlNodes | xmlunit-core/src/main/java/org/xmlunit/diff/DOMDifferenceEngine.java:573-606 | contexts restored after each unmatched child, stop discipline |
| Walk.UnmatchedTestNodes | xmlunit-core/src/main/java/org/xmlunit/diff/DOMDifferenceEngine.java:608-641 | contexts restored after each unmatched child, stop discipline |
| Properties.CompareNodesOpens | xmlunit-core/src/main/java/org/xmlunit/diff/DOMDifferenceEngine.java:92-113 | every walk opens with NODE_TYPE, NAMESPACE_URI, NAMESPACE_PREFIX and, except for attributes, CHILD_NODELIST_LENGTH over the interesting children |
| Properties.AttributeWalk | xmlunit-core/src/main/java/org/xmlunit/diff/DOMDifferenceEngine.java:82-183 | an attribute is compared by the common comparisons, then (against an attribute) explicitness and value, and nothing else: no child count, no children |
| Properties.AttributeWalkHasNoLookups | xmlunit-core/src/main/java/org/xmlunit/diff/DOMDifferenceEngine.java:108-126 | the walk of an attribute makes no ATTR_NAME_LOOKUP |
| Properties.CharacterDataWalk | xmlunit-core/src/main/java/org/xmlunit/diff/DOMDifferenceEngine.java:82-217 | two text, CDATA or comment nodes get exactly the common comparisons, the child count and TEXT_VALUE |
| Properties.ChildlessNodeLists | xmlunit-core/src/main/java/org/xmlunit/diff/DOMDifferenceEngine.java:527-571 | two empty child lists are reconciled without any comparison |
| Properties.ChildListReconciliation | xmlunit-core/src/main/java/org/xmlunit/diff/DOMDifferenceEngine.java:527-641 | unless stopped, the reconciliation at a level is exactly one CHILD_NODELIST_SEQUENCE per matched pair in the matcher's order, then a CHILD_LOOKUP for every unmatched control child, then one for every unmatched test child |
| Properties.MatchedPairsOwn | xmlunit-core/src/main/java/org/xmlunit/diff/DOMDifferenceEngine.java:537-563 | the loop over the matcher's pairs records as seen exactly the paired positions and adds one sequence comparison per pair at this level |
| Properties.UnmatchedControlOwn | xmlunit-core/src/main/java/org/xmlunit/diff/DOMDifferenceEngine.java:586-604 | one CHILD_LOOKUP per unseen control child, in order, with the child on the control side and null on the test side |
| Properties.UnmatchedTestOwn | xmlunit-core/src/main/java/org/xmlunit/diff/DOMDifferenceEngine.java:621-639 | one CHILD_LOOKUP per unseen test child, in order, with null on the control side and the child on the test side |
| Lookups.ControlLookupNull | xmlunit-core/src/main/java/org/xmlunit/diff/DOMDifferenceEngine.java:409-422 | the lookup of a control attribute names it on the control side, and has null on the test side exactly when no test attribute matches |
| Lookups.ControlAttributesAdds | xmlunit-core/src/main/java/org/xmlunit/diff/DOMDifferenceEngine.java:407-444 | the control loop makes one ATTR_NAME_LOOKUP per normal control attribute, in order, and finds exactly the matched test attributes |
| Lookups.UnfoundFromAdds | xmlunit-core/src/main/java/org/xmlunit/diff/DOMDifferenceEngine.java:476-495 | one ATTR_NAME_LOOKUP per test attribute that was not found, with null on the control side |
| Lookups.NormalAttributeLookups | xmlunit-core/src/main/java/org/xmlunit/diff/DOMDifferenceEngine.java:384-497 | unless stopped, the name lookups are one per control attribute, then one per unmatched test attribute, and no others |
| Openings.ElementAttributesOpen | xmlunit-core/src/main/java/org/xmlunit/diff/DOMDifferenceEngine.java:333-350 | compareElementAttributes begins with ELEMENT_NUM_ATTRIBUTES over the normal attributes |
| Openings.ElementsOpen | xmlunit-core/src/main/java/org/xmlunit/diff/DOMDifferenceEngine.java:309-350 | two elements are compared first by ELEMENT_TAG_NAME (local part), then by the number of normal attributes |
| Openings.DocumentsWithoutDoctype | xmlunit-core/src/main/java/org/xmlunit/diff/DOMDifferenceEngine.java:222-247 | when a document lacks a doctype: HAS_DOCTYPE_DECLARATION, then the three declaration comparisons, nothing else |
| Openings.DocumentsWithDoctypes | xmlunit-core/src/main/java/org/xmlunit/diff/DOMDifferenceEngine.java:222-247 | when both have one: HAS_DOCTYPE_DECLARATION, then the walk of the two doctype nodes, opening with their common comparisons and child count |
| Openings.DocumentsWithDoctypesFollow | xmlunit-core/src/main/java/org/xmlunit/diff/DOMDifferenceEngine.java:222-247 | when both have one: HAS_DOCTYPE_DECLARATION, then the whole walk of the two doctype nodes, then XML_VERSION, XML_STANDALONE and XML_ENCODING, nothing else; a stop in the doctype walk skips the declarations |
| Logs.MatchedPairFollows | xmlunit-core/src/main/java/org/xmlunit/diff/DOMDifferenceEngine.java:547-563 | one matched pair makes its CHILD_NODELIST_SEQUENCE at the two children's locations, then the whole walk of the two children there, nothing else |
| Logs.MatchedPairsFollow | xmlunit-core/src/main/java/org/xmlunit/diff/DOMDifferenceEngine.java:537-566 | the pair loop walks every pair whose two nodes are in the lists, in the matcher's order, each as a sequence comparison followed by the children's whole walk, and nothing else |
| Logs.UnmatchedControlFollow | xmlunit-core/src/main/java/org/xmlunit/diff/DOMDifferenceEngine.java:586-604 | the unmatched control loop makes exactly one CHILD_LOOKUP per unseen control child, in order, or a prefix when stopped |
| Logs.UnmatchedTestFollow | xmlunit-core/src/main/java/org/xmlunit/diff/DOMDifferenceEngine.java:621-639 | the unmatched test loop makes exactly one CHILD_LOOKUP per unseen test child, in order, or a prefix when stopped |
| Logs.ChildListWalk | xmlunit-core/src/main/java/org/xmlunit/diff/DOMDifferenceEngine.java:527-571 | compareChildren makes, in order and nothing else: for every matched pair its sequence comparison and the recursive walk of the two children, then a lookup per unmatched control child, then per unmatched test child; a stopped run makes a prefix |
| Logs.ControlAttributeFollows | xmlunit-core/src/main/java/org/xmlunit/diff/DOMDifferenceEngine.java:407-443 | the round of one normal control attribute makes its ATTR_NAME_LOOKUP, then, exactly when a counterpart exists, the walk of the two attributes at their locations |
| Logs.ControlAttributesFollow | xmlunit-core/src/main/java/org/xmlunit/diff/DOMDifferenceEngine.java:407-444 | the control loop makes the rounds of all normal control attributes in document order: every one is looked up, only the matched ones are walked, each with its counterpart |
| Logs.UnfoundFromFollow | xmlunit-core/src/main/java/org/xmlunit/diff/DOMDifferenceEngine.java:476-495 | the test loop makes exactly one ATTR_NAME_LOOKUP per test attribute no control attribute matched, in order |
| Logs.NormalAttributesFollow | xmlunit-core/src/main/java/org/xmlunit/diff/DOMDifferenceEngine.java:384-497 | the normal attributes make the control rounds, then the lookups of the unmatched test attributes, and nothing else; a stopped run makes a prefix |
| Logs.SchemaInstanceFollows | xmlunit-core/src/main/java/org/xmlunit/diff/DOMDifferenceEngine.java:351-377 | after the attribute count: the xsi:type comparisons, then SCHEMA_LOCATION, then NO_NAMESPACE_SCHEMA_LOCATION, with null for an absent attribute |
| Logs.ElementAttributesFollow | xmlunit-core/src/main/java/org/xmlunit/diff/DOMDifferenceEngine.java:333-382 | compareElementAttributes makes ELEMENT_NUM_ATTRIBUTES, the xsi:type comparisons, the two schema locations, then the normal attributes, in that order and nothing else |
| Logs.ElementsFollow | xmlunit-core/src/main/java/org/xmlunit/diff/DOMDifferenceEngine.java:309-328 | compareElements makes ELEMENT_TAG_NAME, then everything compareElementAttributes makes |
| Logs.CompareNodesInOrder | xmlunit-core/src/main/java/org/xmlunit/diff/DOMDifferenceEngine.java:82-128 | compareNodes makes the common comparisons, the child count unless the nodes are attributes, whatever the node-kind comparison makes, then unless attributes everything compareChildren makes; nothing else, in that order |
| Logs.ElementWalk | xmlunit-core/src/main/java/org/xmlunit/diff/DOMDifferenceEngine.java:82-128 | two elements make the common comparisons, the child count, the tag name, the element's attribute comparisons, then the children's reconciliation with their recursive walks |
| Findings.OneSidedXsiTypeThrows | xmlunit-core/src/main/java/org/xmlunit/diff/DOMDifferenceEngine.java:672-689 | with xsi:type on one side only, the code as written throws after reporting exactly the name lookup the corrected form reports |
| Findings.OneSidedXsiTypeExample | xmlunit-core/src/main/java/org/xmlunit/diff/DOMDifferenceEngine.java:672-689 | a concrete element with xsi:type="a" against one without attributes makes the code as written throw |
| Findings.XsiTypeAsWrittenAgrees | xmlunit-core/src/main/java/org/xmlunit/diff/DOMDifferenceEngine.java:646-698 | when xsi:type is present on both sides or on neither, the code as written and the corrected form make the same run |
| Sources.CompareSources | xmlunit-core/src/main/java/org/xmlunit/diff/DOMDifferenceEngine.java:48-64 | a missing control is refused with "control must not be null", else a missing test with "test must not be null"; otherwise the walk runs and leaves the contexts as they were |
| Sources.SourcesOpen | xmlunit-core/src/main/java/org/xmlunit/diff/DOMDifferenceEngine.java:48-64 | a finished comparison opens with the common comparisons of the two nodes and, unless they are attributes, their child counts |

## Left out

- XPath rendering is left out. `XPathContext` is not part of this model. A location is the stack of child positions and attribute names that `navigateToChild` and `navigateToAttribute` push. The list of sibling names (`setChildren`, `addAttribute`, `addAttributes`) only affects how the string is rendered, so it is not kept.
- `xpathContextFor` and `setNamespaceContext` are left out. The starting locations are a parameter of `Sources.CompareSources`, and the namespace prefix map only affects rendering.
- Listener fan-out is left out. Notifying comparison, match and difference listeners is modelled as appending one event to the log. The listeners themselves are opaque handles.
- `Convert.toNode` is left out: the sources are already nodes, and a missing one is `None`. Wrapping any exception into `XMLUnitException` is also left out.
- The defaults (`DefaultNodeMatcher`, `DifferenceEvaluators.Default`, `ComparisonControllers.Default`) are not part of this model. The matcher, evaluator and controller are parameters.
- Namespace resolution of xsi:type prefixes is simplified. `lookupNamespaceURI` is modelled by a prefix-to-URI map carried on the attribute node.
- Object identity is modelled by position. The engine keeps sets of already-matched children and found attributes; the model keeps sets of positions. Positions are the same thing for lists without repeated entries.
- The source keeps a single `seen` set for control and test children. The model keeps two position sets. The two agree when the control and test trees are different objects. When both sources wrap the same DOM tree, a child that was matched only on the test side counts as seen on the control side as well; that case is not modelled.
- Matcher pairs that name a position outside a child list are skipped. In the source, a matcher cannot return such pairs.
- An xsi:type value made only of colons is mapped to an empty local part. There, `String.split` returns no pieces and the source throws `ArrayIndexOutOfBoundsException`.
- Reads of non-attribute nodes are simplified. A non-attribute node in an attribute list reads as value `""` and not specified. A DOM `NamedNodeMap` of attributes holds only `Attr` nodes, and `Lookups.NormalAttributeLookups` requires exactly that (`AllAttributes`).
- Walk.CompareDocuments: its contract states only the shape (contexts restored, stop discipline, reconciliation below). Its complete log is stated by `Openings.DocumentsWithoutDoctype` (no doctype on a side) and `Openings.DocumentsWithDoctypesFollow` (doctypes on both sides).
- Openings.DocumentsWithDoctypes: it states only how the run opens. The declarations after the doctype walk are stated by `Openings.DocumentsWithDoctypesFollow`.
- Walk.CompareElements: its contract states only the shape. Its complete log is stated by `Logs.ElementsFollow`.
- Walk.CompareElementAttributes: its contract states only the shape. Its complete log is stated by `Logs.ElementAttributesFollow`.
- Walk.NormalAttributes: its contract states only the shape. Its complete log, with the walk of every matched pair, is stated by `Logs.NormalAttributesFollow`.
- Walk.ControlAttributePresent: its contract states only the shape. Its lookups are stated by `Lookups.UnfoundFromAdds` and `Logs.UnfoundFromFollow`.
- Walk.CompareNodeLists: its contract states only the shape. Its complete log, with the walk of every matched pair, is stated by `Logs.ChildListWalk`.
- Walk.UnmatchedControlNodes: its contract states only the shape. Its lookups are stated by `Properties.UnmatchedControlOwn` and `Logs.UnmatchedControlFollow`.
- Walk.UnmatchedTestNodes: its contract states only the shape. Its lookups are stated by `Properties.UnmatchedTestOwn` and `Logs.UnmatchedTestFollow`.
- Walk.CompareNodes: its contract states only the shape. Its order (common comparisons, child count, node-kind part, children) is stated by `Logs.CompareNodesInOrder`, and the complete log for elements by `Logs.ElementWalk`, for attributes by `Properties.AttributeWalk` and for character data by `Properties.CharacterDataWalk`.
- Properties.ChildListReconciliation: it is stated for a run that was not stopped. `Logs.ChildListWalk` states the stopped case too.
- Lookups.NormalAttributeLookups: it is stated for a run that was not stopped. `Logs.NormalAttributesFollow` states the stopped case too.
- Logs.NormalAttributesFollow, Logs.ElementAttributesFollow, Logs.ElementsFollow and Logs.ElementWalk require the control element's attribute list to hold only attributes (`AllAttributes`), as every DOM `NamedNodeMap` of attributes does.
- Dom.QNameOf: every element and attribute carries a local name. DOM Level 1 nodes, whose `getLocalName()` is null so that the name falls back to `getNodeName()`, cannot be represented.

## Findings

| source | as written | input that shows it | evidently intended | confidence | as-written member | corrected member |
|---|---|---|---|---|---|---|
| xmlunit-core/src/main/java/org/xmlunit/diff/DOMDifferenceEngine.java:672-689 | `compareAttributeExplicitness(controlAttr, …)` and `valueAsQName(controlAttr)` are evaluated as arguments of `andIfTrueThen`, before the `attributePresentOnBothSides` flag is consulted; both dereference the attributes | a control element with `xsi:type="a"` and a test element without attributes: the ATTR_NAME_LOOKUP is reported, then `null.getSpecified()` throws | report the one-sided ATTR_NAME_LOOKUP and carry on with the schema locations and the normal attributes | high, not executed | Findings.OneSidedXsiTypeThrows | Walk.CompareXsiType |
