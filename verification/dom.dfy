/** The read-only DOM view the difference engine walks.

    A node is an immutable value: the tree loader builds both trees before the
    walk starts and nothing changes them afterwards.  Each variant carries the
    properties of one org.w3c.dom node kind that the engine reads. */
module Dom {

  datatype Option<+T> = None | Some(value: T)

  /** javax.xml.namespace.QName as far as its equality goes: a namespace URI
      ("" when there is none) and a local part.  The prefix is not part of it. */
  datatype QName = QName(namespaceUri: string, localPart: string)

  // Node type codes of org.w3c.dom.Node
  const ELEMENT_NODE: int := 1
  const ATTRIBUTE_NODE: int := 2
  const TEXT_NODE: int := 3
  const CDATA_SECTION_NODE: int := 4
  const ENTITY_REFERENCE_NODE: int := 5
  const PROCESSING_INSTRUCTION_NODE: int := 7
  const COMMENT_NODE: int := 8
  const DOCUMENT_NODE: int := 9
  const DOCUMENT_TYPE_NODE: int := 10
  const DOCUMENT_FRAGMENT_NODE: int := 11

  /** A DOM node.  `children` is the node's child list as the DOM reports it
      (for a document it includes the document type node); an attribute's
      `bindings` are the prefix-to-URI bindings in scope at its owner element,
      with `None` standing for the default namespace. */
  datatype Node =
    | Element(ns: Option<string>, prefix: Option<string>, localName: string,
              attributes: seq<Node>, children: seq<Node>)
    | Attribute(ns: Option<string>, prefix: Option<string>, localName: string,
                value: string, specified: bool,
                bindings: map<Option<string>, string>, children: seq<Node>)
    | Text(data: string)
    | CData(data: string)
    | Comment(data: string)
    | ProcessingInstruction(target: string, data: string)
    | Document(children: seq<Node>, xmlVersion: string, xmlStandalone: bool,
               xmlEncoding: Option<string>)
    | DocumentType(name: string, publicId: Option<string>, systemId: Option<string>)
    | EntityReference(name: string, children: seq<Node>)
    | DocumentFragment(children: seq<Node>)

  /** Node.getNodeType */
  function TypeCode(n: Node): int {
    match n
    case Element(_, _, _, _, _) => ELEMENT_NODE
    case Attribute(_, _, _, _, _, _, _) => ATTRIBUTE_NODE
    case Text(_) => TEXT_NODE
    case CData(_) => CDATA_SECTION_NODE
    case Comment(_) => COMMENT_NODE
    case ProcessingInstruction(_, _) => PROCESSING_INSTRUCTION_NODE
    case Document(_, _, _, _) => DOCUMENT_NODE
    case DocumentType(_, _, _) => DOCUMENT_TYPE_NODE
    case EntityReference(_, _) => ENTITY_REFERENCE_NODE
    case DocumentFragment(_) => DOCUMENT_FRAGMENT_NODE
  }

  /** Node.getNamespaceURI: only elements and attributes have one */
  function NamespaceOf(n: Node): Option<string> {
    if n.Element? || n.Attribute? then n.ns else None
  }

  /** Node.getPrefix */
  function PrefixOf(n: Node): Option<string> {
    if n.Element? || n.Attribute? then n.prefix else None
  }

  /** Node.getLocalName */
  function LocalNameOf(n: Node): Option<string> {
    if n.Element? || n.Attribute? then Some(n.localName) else None
  }

  /** Node.getNodeName, which for an attribute is also Attr.getName */
  function NodeName(n: Node): string {
    match n
    case Element(_, p, l, _, _) => QualifiedName(p, l)
    case Attribute(_, p, l, _, _, _, _) => QualifiedName(p, l)
    case Text(_) => "#text"
    case CData(_) => "#cdata-section"
    case Comment(_) => "#comment"
    case ProcessingInstruction(target, _) => target
    case Document(_, _, _, _) => "#document"
    case DocumentType(name, _, _) => name
    case EntityReference(name, _) => name
    case DocumentFragment(_) => "#document-fragment"
  }

  function QualifiedName(prefix: Option<string>, localName: string): string {
    match prefix
    case Some(p) => p + ":" + localName
    case None => localName
  }

  /** The QName of a node: its namespace URI and local name, falling back to
      the node name for nodes that have no local name. */
  function QNameOf(n: Node): QName {
    QName(OrEmpty(NamespaceOf(n)),
          match LocalNameOf(n) case Some(l) => l case None => NodeName(n))
  }

  /** A nullable string handed to the QName constructor, which maps null to "" */
  function OrEmpty(s: Option<string>): string {
    match s
    case Some(v) => v
    case None => ""
  }

  /** Attr.getValue; only attribute nodes sit in an element's attribute
      list, other kinds read as the empty string */
  function ValueOf(n: Node): string {
    if n.Attribute? then n.value else ""
  }

  /** Attr.getSpecified */
  function Specified(n: Node): bool {
    n.Attribute? && n.specified
  }

  /** Whether a node is a CharacterData: text, CDATA section or comment */
  predicate IsCharacterData(n: Node) {
    n.Text? || n.CData? || n.Comment?
  }

  /** Node.getChildNodes */
  function Children(n: Node): seq<Node> {
    match n
    case Element(_, _, _, _, cs) => cs
    case Attribute(_, _, _, _, _, _, cs) => cs
    case Document(cs, _, _, _) => cs
    case EntityReference(_, cs) => cs
    case DocumentFragment(cs) => cs
    case _ => []
  }

  /** Element.getAttributes; every other kind has none */
  function AttributesOf(n: Node): seq<Node> {
    if n.Element? then n.attributes else []
  }

  /** The children that take part in the comparison: every child except
      document type nodes. */
  function Interesting(s: seq<Node>): (r: seq<Node>)
    ensures forall x :: x in r <==> x in s && !x.DocumentType?
    ensures |r| <= |s|
    ensures s == [] ==> r == []
    ensures |s| == 1 ==> r == (if s[0].DocumentType? then [] else s)
  {
    if |s| == 0 then []
    else (if s[0].DocumentType? then [] else [s[0]]) + Interesting(s[1..])
  }

  /** The filter works child by child: with the singleton cases of its
      contract this fixes the order and the number of the children kept,
      so positions in the filtered list are those Linqy.filter yields. */
  lemma {:induction false} InterestingAppend(a: seq<Node>, b: seq<Node>)
    ensures Interesting(a + b) == Interesting(a) + Interesting(b)
    decreases |a|
  {
    if |a| == 0 {
      assert a + b == b;
    } else {
      assert (a + b)[0] == a[0];
      assert (a + b)[1..] == a[1..] + b;
      InterestingAppend(a[1..], b);
    }
  }

  /** Document.getDoctype: the document's document type child, if any */
  function DoctypeOf(s: seq<Node>): (r: Option<Node>)
    ensures r.Some? ==> r.value in s && r.value.DocumentType?
    ensures r.None? <==> forall x :: x in s ==> !x.DocumentType?
  {
    if |s| == 0 then None
    else if s[0].DocumentType? then Some(s[0])
    else DoctypeOf(s[1..])
  }

  /** Node.lookupNamespaceURI on an attribute: the URI bound to the prefix
      (None asks for the default namespace) where the attribute sits. */
  function LookupNamespaceUri(a: Node, prefix: Option<string>): Option<string> {
    if a.Attribute? && prefix in a.bindings then Some(a.bindings[prefix]) else None
  }
}
