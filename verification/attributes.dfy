/** The attribute helpers of DOMDifferenceEngine: separating namespace
    declarations and the three XML Schema instance attributes from the
    "normal" attributes, finding a control attribute's counterpart, and
    reading an xsi:type value as a qualified name. */
module Attributes {
  import opened Dom

  /** XMLConstants.W3C_XML_SCHEMA_INSTANCE_NS_URI */
  const XSI_NS := "http://www.w3.org/2001/XMLSchema-instance"
  /** XMLConstants.XMLNS_ATTRIBUTE_NS_URI */
  const XMLNS_NS := "http://www.w3.org/2000/xmlns/"

  predicate HasName(a: Node, ns: string, localName: string) {
    NamespaceOf(a) == Some(ns) && LocalNameOf(a) == Some(localName)
  }

  predicate IsNamespaceDeclaration(a: Node) {
    NamespaceOf(a) == Some(XMLNS_NS)
  }

  predicate IsSchemaInstanceAttribute(a: Node) {
    HasName(a, XSI_NS, "schemaLocation")
    || HasName(a, XSI_NS, "noNamespaceSchemaLocation")
    || HasName(a, XSI_NS, "type")
  }

  /** A DOM NamedNodeMap holds at most one attribute per namespace URI and
      local name. */
  predicate UniqueNames(attrs: seq<Node>) {
    forall i, j :: 0 <= i < j < |attrs| ==>
      !(NamespaceOf(attrs[i]) == NamespaceOf(attrs[j]) && LocalNameOf(attrs[i]) == LocalNameOf(attrs[j]))
  }

  /** NamedNodeMap.getNamedItemNS, as a position */
  function NamedItemNS(attrs: seq<Node>, ns: string, localName: string): (r: Option<nat>)
    ensures r.Some? ==> r.value < |attrs|
  {
    if |attrs| == 0 then None
    else if HasName(attrs[0], ns, localName) then Some(0)
    else match NamedItemNS(attrs[1..], ns, localName)
      case None => None
      case Some(k) => Some(k + 1)
  }

  /** getNamedItemNS finds the first attribute with the name, and finds
      nothing exactly when no attribute has it */
  lemma {:induction false} NamedItemNSSpec(attrs: seq<Node>, ns: string, localName: string)
    ensures var r := NamedItemNS(attrs, ns, localName);
      && (r.Some? ==> HasName(attrs[r.value], ns, localName))
      && (r.Some? ==> forall k :: 0 <= k < r.value ==> !HasName(attrs[k], ns, localName))
      && (r.None? <==> forall k :: 0 <= k < |attrs| ==> !HasName(attrs[k], ns, localName))
  {
    if |attrs| > 0 && !HasName(attrs[0], ns, localName) {
      NamedItemNSSpec(attrs[1..], ns, localName);
      var r := NamedItemNS(attrs, ns, localName);
      if r.None? {
        forall k | 0 <= k < |attrs| ensures !HasName(attrs[k], ns, localName) {
          if k > 0 { assert attrs[k] == attrs[1..][k - 1]; }
        }
      } else {
        forall k | 0 <= k < r.value ensures !HasName(attrs[k], ns, localName) {
          if k > 0 { assert attrs[k] == attrs[1..][k - 1]; }
        }
      }
    }
  }

  function At(attrs: seq<Node>, i: Option<nat>): Option<Node> {
    if i.Some? && i.value < |attrs| then Some(attrs[i.value]) else None
  }

  /** Positions of the three schema instance attributes */
  datatype Specials = Specials(schemaLocation: Option<nat>, noNamespaceSchemaLocation: Option<nat>, xsiType: Option<nat>)

  function SpecialsOf(attrs: seq<Node>): Specials {
    Specials(NamedItemNS(attrs, XSI_NS, "schemaLocation"),
             NamedItemNS(attrs, XSI_NS, "noNamespaceSchemaLocation"),
             NamedItemNS(attrs, XSI_NS, "type"))
  }

  /** Whether the attribute at position i is a normal attribute */
  predicate Kept(attrs: seq<Node>, s: Specials, i: nat)
    requires i < |attrs|
  {
    && !IsNamespaceDeclaration(attrs[i])
    && Some(i) != s.schemaLocation
    && Some(i) != s.noNamespaceSchemaLocation
    && Some(i) != s.xsiType
  }

  /** How many normal attributes come before position i */
  function Rank(attrs: seq<Node>, s: Specials, i: nat): nat
    requires i <= |attrs|
  {
    if i == 0 then 0 else Rank(attrs, s, i - 1) + (if Kept(attrs, s, i - 1) then 1 else 0)
  }

  /** The normal attributes among the first n */
  function KeptPrefix(attrs: seq<Node>, s: Specials, n: nat): (r: seq<Node>)
    requires n <= |attrs|
    ensures forall a :: a in r ==> a in attrs
  {
    if n == 0 then []
    else KeptPrefix(attrs, s, n - 1) + (if Kept(attrs, s, n - 1) then [attrs[n - 1]] else [])
  }

  /** The normal attributes among the first n are exactly the kept ones,
      each at the position its rank gives it */
  lemma {:induction false} KeptPrefixSpec(attrs: seq<Node>, s: Specials, n: nat)
    requires n <= |attrs|
    ensures var r := KeptPrefix(attrs, s, n);
      && |r| == Rank(attrs, s, n)
      && (forall i :: 0 <= i < n && Kept(attrs, s, i) ==> Rank(attrs, s, i) < |r| && r[Rank(attrs, s, i)] == attrs[i])
      && (forall a :: a in r ==> exists i :: 0 <= i < n && Kept(attrs, s, i) && attrs[i] == a)
  {
    if n > 0 {
      KeptPrefixSpec(attrs, s, n - 1);
      RankMonotone(attrs, s, n - 1);
    }
  }

  lemma {:induction false} RankMonotone(attrs: seq<Node>, s: Specials, n: nat)
    requires n <= |attrs|
    ensures forall i :: 0 <= i <= n ==> Rank(attrs, s, i) <= Rank(attrs, s, n)
  {
    if n > 0 {
      RankMonotone(attrs, s, n - 1);
    }
  }

  /** The split of an element's attributes */
  datatype Partition = Partition(schemaLocation: Option<Node>,
                                 noNamespaceSchemaLocation: Option<Node>,
                                 xsiType: Option<Node>,
                                 remaining: seq<Node>)

  /** splitAttributes: namespace declarations are dropped, the three schema
      instance attributes are set apart, and the rest keep their order. */
  function SplitAttributes(attrs: seq<Node>): (p: Partition)
    ensures forall a :: a in p.remaining ==> a in attrs
  {
    var s := SpecialsOf(attrs);
    Partition(At(attrs, s.schemaLocation), At(attrs, s.noNamespaceSchemaLocation), At(attrs, s.xsiType),
              KeptPrefix(attrs, s, |attrs|))
  }

  /** What splitAttributes promises: each schema instance attribute is set
      apart exactly when present, namespace declarations are gone, and every
      other attribute stays, once, in document order. */
  lemma SplitAttributesSpec(attrs: seq<Node>)
    ensures var p := SplitAttributes(attrs);
      && (p.xsiType.Some? <==> exists a :: a in attrs && HasName(a, XSI_NS, "type"))
      && (p.xsiType.Some? ==> p.xsiType.value in attrs && HasName(p.xsiType.value, XSI_NS, "type"))
      && (p.schemaLocation.Some? <==> exists a :: a in attrs && HasName(a, XSI_NS, "schemaLocation"))
      && (p.schemaLocation.Some? ==> p.schemaLocation.value in attrs && HasName(p.schemaLocation.value, XSI_NS, "schemaLocation"))
      && (p.noNamespaceSchemaLocation.Some? <==> exists a :: a in attrs && HasName(a, XSI_NS, "noNamespaceSchemaLocation"))
      && (p.noNamespaceSchemaLocation.Some? ==>
           p.noNamespaceSchemaLocation.value in attrs
           && HasName(p.noNamespaceSchemaLocation.value, XSI_NS, "noNamespaceSchemaLocation"))
      && (forall a :: a in p.remaining ==> !IsNamespaceDeclaration(a))
      && (UniqueNames(attrs) ==> forall a :: a in p.remaining ==> !IsSchemaInstanceAttribute(a))
  {
    var s := SpecialsOf(attrs);
    var rest := KeptPrefix(attrs, s, |attrs|);
    KeptPrefixSpec(attrs, s, |attrs|);
    NamedItemNSSpec(attrs, XSI_NS, "schemaLocation");
    NamedItemNSSpec(attrs, XSI_NS, "noNamespaceSchemaLocation");
    NamedItemNSSpec(attrs, XSI_NS, "type");
    if UniqueNames(attrs) {
      forall a | a in rest ensures !IsSchemaInstanceAttribute(a) {
        var i: nat :| i < |attrs| && Kept(attrs, s, i) && attrs[i] == a;
        if HasName(a, XSI_NS, "schemaLocation") {
          UniqueNameIsFirst(attrs, i, "schemaLocation");
        }
        if HasName(a, XSI_NS, "noNamespaceSchemaLocation") {
          UniqueNameIsFirst(attrs, i, "noNamespaceSchemaLocation");
        }
        if HasName(a, XSI_NS, "type") {
          UniqueNameIsFirst(attrs, i, "type");
        }
      }
    }
  }

  /** Every normal attribute appears once, at the place its order gives it */
  lemma SplitAttributesOrder(attrs: seq<Node>)
    ensures var s := SpecialsOf(attrs);
      var p := SplitAttributes(attrs);
      && |p.remaining| == Rank(attrs, s, |attrs|)
      && forall i :: 0 <= i < |attrs| && Kept(attrs, s, i) ==>
           Rank(attrs, s, i) < |p.remaining| && p.remaining[Rank(attrs, s, i)] == attrs[i]
  {
    KeptPrefixSpec(attrs, SpecialsOf(attrs), |attrs|);
  }

  lemma UniqueNameIsFirst(attrs: seq<Node>, i: nat, localName: string)
    requires UniqueNames(attrs) && i < |attrs| && HasName(attrs[i], XSI_NS, localName)
    ensures NamedItemNS(attrs, XSI_NS, localName) == Some(i)
  {
    NamedItemNSSpec(attrs, XSI_NS, localName);
  }

  /** The matching rule of findMatchingAttr: a namespaced attribute matches
      on namespace URI and local name, an un-namespaced one matches an
      un-namespaced attribute of the same name. */
  predicate AttrMatches(a: Node, toMatch: Node) {
    if NamespaceOf(toMatch).Some? then
      NamespaceOf(a) == NamespaceOf(toMatch) && LocalNameOf(a) == LocalNameOf(toMatch)
    else
      NamespaceOf(a).None? && NodeName(a) == NodeName(toMatch)
  }

  /** findMatchingAttr, as the position of the counterpart */
  function FindMatchingAttr(attrs: seq<Node>, toMatch: Node): (r: Option<nat>)
    ensures r.Some? ==> r.value < |attrs| && AttrMatches(attrs[r.value], toMatch)
    ensures r.Some? ==> forall k :: 0 <= k < r.value ==> !AttrMatches(attrs[k], toMatch)
    ensures r.None? <==> forall a :: a in attrs ==> !AttrMatches(a, toMatch)
  {
    if |attrs| == 0 then None
    else if AttrMatches(attrs[0], toMatch) then Some(0)
    else match FindMatchingAttr(attrs[1..], toMatch)
      case None => None
      case Some(k) => Some(k + 1)
  }

  // ----- valueAsQName -----

  /** Position of the first colon */
  function FirstColon(s: string): (k: nat)
    requires ':' in s
    ensures k < |s|
  {
    if s[0] == ':' then 0
    else
      assert s == [s[0]] + s[1..];
      FirstColon(s[1..]) + 1
  }

  lemma {:induction false} FirstColonIsFirst(s: string)
    requires ':' in s
    ensures s[FirstColon(s)] == ':' && ':' !in s[..FirstColon(s)]
  {
    if s[0] != ':' {
      assert s == [s[0]] + s[1..];
      FirstColonIsFirst(s[1..]);
      var k := FirstColon(s);
      assert s[..k] == [s[0]] + s[1..][..k - 1];
    }
  }

  /** The pieces between colons, empty ones included */
  function Pieces(s: string): (r: seq<string>)
    ensures |r| >= 1
    decreases |s|
  {
    if ':' !in s then [s]
    else
      var k := FirstColon(s);
      [s[..k]] + Pieces(s[k + 1..])
  }

  function DropTrailingEmpty(p: seq<string>): seq<string> {
    if |p| == 0 then []
    else if p[|p| - 1] == "" then DropTrailingEmpty(p[..|p| - 1])
    else p
  }

  /** Java's String.split(":") with its default limit: no colon gives the
      whole string back; otherwise trailing empty pieces are removed. */
  function SplitOnColon(s: string): seq<string> {
    if ':' !in s then [s] else DropTrailingEmpty(Pieces(s))
  }

  /** String.substring(from); the engine only asks for a suffix that exists */
  function Suffix(s: string, from: nat): string {
    if from <= |s| then s[from..] else ""
  }

  /** valueAsQName: the value's prefix resolved where the attribute sits,
      and its local part. */
  function ValueAsQName(a: Node): QName {
    var v := ValueOf(a);
    var pieces := SplitOnColon(v);
    var split: (Option<string>, string) :=
      if |pieces| == 0 then (None, "")
      else if |pieces| < 2 then (None, pieces[0])
      else if |pieces| > 2 then (Some(pieces[0]), Suffix(v, |pieces[0]| + 1))
      else (Some(pieces[0]), pieces[1]);
    var prefix := if split.0 == Some("") then None else split.0;
    QName(OrEmpty(LookupNamespaceUri(a, prefix)), split.1)
  }

  /** The prefix part of a value that has a colon: None when empty */
  function PrefixPart(s: string): Option<string>
    requires ':' in s
  {
    var k := FirstColon(s);
    if k == 0 then None else Some(s[..k])
  }

  lemma ValueAsQNameUnprefixed(a: Node)
    requires a.Attribute? && ':' !in a.value
    ensures ValueAsQName(a) == QName(OrEmpty(LookupNamespaceUri(a, None)), a.value)
  {
  }

  lemma {:induction false} LastPieceNonEmpty(s: string)
    requires |s| > 0 && s[|s| - 1] != ':'
    ensures Pieces(s)[|Pieces(s)| - 1] != ""
    decreases |s|
  {
    if ':' in s {
      var k := FirstColon(s);
      FirstColonIsFirst(s);
      var rest := s[k + 1..];
      assert |rest| > 0 && rest[|rest| - 1] == s[|s| - 1];
      LastPieceNonEmpty(rest);
    }
  }

  /** A value whose pieces are one piece has no colon */
  lemma OnePiece(s: string)
    requires |Pieces(s)| == 1
    ensures Pieces(s) == [s]
  {
  }

  lemma {:induction false} PiecesOfColonValue(v: string)
    requires ':' in v && v[|v| - 1] != ':'
    ensures var k := FirstColon(v);
      && SplitOnColon(v) == Pieces(v)
      && |Pieces(v)| >= 2
      && Pieces(v)[0] == v[..k]
      && (|Pieces(v)| == 2 ==> Pieces(v)[1] == v[k + 1..])
  {
    var k := FirstColon(v);
    var rest := v[k + 1..];
    PiecesSplit(v);
    LastPieceNonEmpty(v);
    NothingDropped(Pieces(v));
    if |Pieces(v)| == 2 {
      OnePiece(rest);
    }
  }

  /** A value with a colon splits into the text before its first colon and
      the pieces of the rest */
  lemma PiecesSplit(v: string)
    requires ':' in v
    ensures Pieces(v) == [v[..FirstColon(v)]] + Pieces(v[FirstColon(v) + 1..])
  {
  }

  /** Nothing is dropped from pieces whose last one is not empty */
  lemma NothingDropped(p: seq<string>)
    requires |p| > 0 && p[|p| - 1] != ""
    ensures DropTrailingEmpty(p) == p
  {
  }

  lemma ValueAsQNamePrefixed(a: Node)
    requires a.Attribute? && ':' in a.value && a.value[|a.value| - 1] != ':'
    ensures var k := FirstColon(a.value);
      ValueAsQName(a) == QName(OrEmpty(LookupNamespaceUri(a, PrefixPart(a.value))), a.value[k + 1..])
  {
    PiecesOfColonValue(a.value);
  }
}
