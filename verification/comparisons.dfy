/** Comparison records, verdicts and the per-side location stacks the walk
    keeps while it descends into the two trees. */
module Comparisons {
  import opened Dom

  /** The feature one comparison looks at (ComparisonType). */
  datatype ComparisonType =
    | NodeType
    | NamespaceUri
    | NamespacePrefix
    | ChildNodelistLength
    | TextValue
    | HasDoctypeDeclaration
    | DoctypeName
    | DoctypePublicId
    | DoctypeSystemId
    | XmlVersion
    | XmlStandalone
    | XmlEncoding
    | ElementTagName
    | ElementNumAttributes
    | SchemaLocation
    | NoNamespaceSchemaLocation
    | AttrNameLookup
    | AttrValueExplicitlySpecified
    | AttrValue
    | ProcessingInstructionTarget
    | ProcessingInstructionData
    | ChildNodelistSequence
    | ChildLookup

  /** The value one side contributes to a comparison; `Null` is Java's null.
      The constructors keep Java's boxed types apart: a node type code is a
      Short, a count or an index an Integer. */
  datatype Value =
    | Null
    | Str(s: string)
    | Int(i: int)
    | Bool(b: bool)
    | Name(q: QName)
    | NodeTypeCode(code: int)

  function OptStr(s: Option<string>): Value {
    match s
    case Some(v) => Str(v)
    case None => Null
  }

  function OptName(q: Option<QName>): Value {
    match q
    case Some(v) => Name(v)
    case None => Null
  }

  /** One level of an XPathContext: a child position or an attribute. */
  datatype Step = ChildStep(index: int) | AttributeStep(name: QName)

  type Path = seq<Step>

  /** The two XPathContexts, one per tree, as stacks of navigation steps. */
  datatype Contexts = Contexts(control: Path, test: Path)

  /** XPathContext.navigateToParent */
  function Parent(p: Path): (r: Path)
    ensures |p| > 0 ==> r + [p[|p| - 1]] == p
  {
    if |p| == 0 then [] else p[..|p| - 1]
  }

  /** Navigating to a child or attribute and back leaves a path unchanged */
  lemma ParentOfStep(p: Path, s: Step)
    ensures Parent(p + [s]) == p
  {
    assert (p + [s])[..|p|] == p;
  }

  /** One side of a comparison: the node involved (None for "absent on this
      side"), its location, and the value compared. */
  datatype Detail = Detail(target: Option<Node>, xpath: Option<Path>, value: Value)

  datatype Comparison = Comparison(kind: ComparisonType, control: Detail, test: Detail)

  /** ComparisonResult.  Evaluators may turn a raw verdict into any of them. */
  datatype Verdict = Equal | Similar | Different

  /** What listeners are told about one comparison, together with whether the
      comparison controller asked to stop there. */
  datatype Event = Event(comparison: Comparison, verdict: Verdict, stop: bool)

  /** The comparisons of a log, in order */
  function Cmps(es: seq<Event>): (r: seq<Comparison>)
    ensures |r| == |es|
    ensures forall i :: 0 <= i < |es| ==> r[i] == es[i].comparison
  {
    if |es| == 0 then [] else [es[0].comparison] + Cmps(es[1..])
  }

  lemma {:induction false} CmpsAppend(a: seq<Event>, b: seq<Event>)
    ensures Cmps(a + b) == Cmps(a) + Cmps(b)
  {
    assert |Cmps(a + b)| == |Cmps(a) + Cmps(b)|;
    forall i | 0 <= i < |a + b|
      ensures Cmps(a + b)[i] == (Cmps(a) + Cmps(b))[i]
    {
      if i < |a| {
        assert (a + b)[i] == a[i];
      } else {
        assert (a + b)[i] == b[i - |a|];
      }
    }
  }

  /** The comparisons of the events of a log that satisfy `keep`, in order */
  function CmpsWhere(es: seq<Event>, keep: Event -> bool): seq<Comparison> {
    if |es| == 0 then []
    else CmpsWhere(es[..|es| - 1], keep) + (if keep(es[|es| - 1]) then [es[|es| - 1].comparison] else [])
  }

  lemma {:induction false} CmpsWhereAppend(a: seq<Event>, b: seq<Event>, keep: Event -> bool)
    ensures CmpsWhere(a + b, keep) == CmpsWhere(a, keep) + CmpsWhere(b, keep)
    decreases |b|
  {
    if |b| == 0 {
      assert a + b == a;
    } else {
      var front := b[..|b| - 1];
      assert (a + b)[..|a + b| - 1] == a + front;
      CmpsWhereAppend(a, front, keep);
    }
  }

  /** A log of which no event is kept contributes nothing */
  lemma {:induction false} CmpsWhereNone(es: seq<Event>, keep: Event -> bool)
    requires forall e :: e in es ==> !keep(e)
    ensures CmpsWhere(es, keep) == []
    decreases |es|
  {
    if |es| > 0 {
      assert es[|es| - 1] in es;
      forall e | e in es[..|es| - 1] ensures !keep(e) { assert e in es; }
      CmpsWhereNone(es[..|es| - 1], keep);
    }
  }

  /** A log of which every event is kept contributes all its comparisons */
  lemma {:induction false} CmpsWhereAll(es: seq<Event>, keep: Event -> bool)
    requires forall e :: e in es ==> keep(e)
    ensures CmpsWhere(es, keep) == Cmps(es)
    decreases |es|
  {
    if |es| > 0 {
      var front := es[..|es| - 1];
      assert es[|es| - 1] in es;
      forall e | e in front ensures keep(e) { assert e in es; }
      CmpsWhereAll(front, keep);
      assert es == front + [es[|es| - 1]];
      CmpsAppend(front, [es[|es| - 1]]);
    }
  }
}
