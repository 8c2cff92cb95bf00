/** The recursive walk of DOMDifferenceEngine: compareNodes, the node kind
    specific comparisons it dispatches to, the attribute comparers and the
    reconciliation of child lists.

    Every function receives the two location stacks as they are when the
    Java method starts and hands them back as it found them; the Java code
    keeps them balanced with navigateToParent in `finally` blocks. */
module Walk {
  import opened Dom
  import opened Comparisons
  import opened Engine
  import opened Attributes

  // ----- comparison building blocks -----

  /** One side of a comparison: a node at a location */
  function Here(n: Node, p: Path, v: Value): Detail {
    Detail(Some(n), Some(p), v)
  }

  /** A comparison of one property of two nodes at their current locations */
  function Pairwise(kind: ComparisonType, c: Node, t: Node, ctx: Contexts, cv: Value, tv: Value): Comparison {
    Comparison(kind, Here(c, ctx.control, cv), Here(t, ctx.test, tv))
  }

  /** The value of an optional schema instance attribute */
  function OptAttrValue(a: Option<Node>): Value {
    match a
    case Some(n) => Str(ValueOf(n))
    case None => Null
  }

  /** The verdict of `e` is what the evaluator makes of a raw verdict that
      says whether the compared property agrees. */
  predicate Judges(e: Event, kind: ComparisonType, cfg: Config, same: bool) {
    && e.comparison.kind == kind
    && e.verdict == cfg.evaluator(e.comparison, if same then Equal else Different)
  }

  /** A run made of the plain comparisons `kinds`, whose properties agree as
      `sames` says: a prefix of them was performed, all unless aborted. */
  predicate Judged(r: Run, cfg: Config, kinds: seq<ComparisonType>, sames: seq<bool>) {
    && |kinds| == |sames|
    && |r.events| <= |kinds|
    && (|kinds| > 0 ==> |r.events| > 0)
    && (!r.outcome.abort ==> |r.events| == |kinds|)
    && forall i :: 0 <= i < |r.events| ==> Judges(r.events[i], kinds[i], cfg, sames[i])
  }

  /** Comparisons that reconcile child lists */
  predicate IsReconciliation(k: ComparisonType) {
    k == ChildNodelistSequence || k == ChildLookup
  }

  /** A child list reconciliation lies below depths dc and dt */
  predicate Beneath(cmp: Comparison, dc: nat, dt: nat) {
    IsReconciliation(cmp.kind) ==>
      && (cmp.control.xpath.Some? || cmp.test.xpath.Some?)
      && (cmp.control.xpath.Some? ==> |cmp.control.xpath.value| > dc)
      && (cmp.test.xpath.Some? ==> |cmp.test.xpath.value| > dt)
  }

  predicate Below(e: Event, dc: nat, dt: nat) {
    Beneath(e.comparison, dc, dt)
  }

  /** Every child list reconciliation in the log happened below `ctx` */
  predicate Deep(es: seq<Event>, ctx: Contexts) {
    forall e :: e in es ==> Below(e, |ctx.control|, |ctx.test|)
  }

  /** The shape every walk function keeps: the abort discipline, and child
      list reconciliation only below the locations it started at. */
  predicate Tidy(r: Run, ctx: Contexts) {
    WellStopped(r) && Deep(r.events, ctx)
  }

  lemma DeepShallower(es: seq<Event>, inner: Contexts, outer: Contexts)
    requires Deep(es, inner)
    requires |outer.control| <= |inner.control| && |outer.test| <= |inner.test|
    ensures Deep(es, outer)
  {
    forall e | e in es ensures Below(e, |outer.control|, |outer.test|) {
      assert Below(e, |inner.control|, |inner.test|);
    }
  }

  lemma TidyThen(chain: Run, next: Deferred, ctx: Contexts)
    requires Tidy(chain, ctx)
    requires !chain.outcome.abort ==> Tidy(next(chain.contexts), ctx)
    ensures Tidy(AndThen(chain, next), ctx)
  {
    if !chain.outcome.abort {
      var n := next(chain.contexts);
      var r := AndThen(chain, next);
      forall e | e in r.events ensures Below(e, |ctx.control|, |ctx.test|) {
        if e !in chain.events {
          assert e in n.events;
        }
      }
    }
  }

  /** A single comparison, when it is not a reconciliation above `ctx` */
  lemma CompareTidy(comp: Comparison, cfg: Config, x: Contexts, ctx: Contexts)
    requires Beneath(comp, |ctx.control|, |ctx.test|)
    ensures Tidy(Compare(comp, cfg, x), ctx)
  {
    var r := Compare(comp, cfg, x);
    assert r.events == [r.events[0]];
  }

  /** A comparison made on a chain after navigating to `inner` */
  lemma ComparerTidy(chain: Run, comp: Comparison, cfg: Config, inner: Contexts, ctx: Contexts)
    requires Tidy(chain, ctx)
    requires Beneath(comp, |ctx.control|, |ctx.test|)
    ensures Tidy(AndThen(chain.(contexts := inner), Comparer(comp, cfg)), ctx)
  {
    CompareTidy(comp, cfg, inner, ctx);
    TidyThen(chain.(contexts := inner), Comparer(comp, cfg), ctx);
  }

  lemma CompareAllTidy(cs: seq<Comparison>, cfg: Config, ctx: Contexts)
    requires forall i :: 0 <= i < |cs| ==> !IsReconciliation(cs[i].kind)
    ensures Tidy(CompareAll(cs, cfg, ctx), ctx)
  {
    var r := CompareAll(cs, cfg, ctx);
    CompareAllFollows(cs, cfg, ctx);
    forall e | e in r.events ensures Below(e, |ctx.control|, |ctx.test|) {
      var i :| 0 <= i < |r.events| && r.events[i] == e;
      assert e.comparison == cs[i];
    }
  }

  /** What a chain of plain comparisons says about the properties compared */
  lemma CompareAllJudged(cs: seq<Comparison>, cfg: Config, ctx: Contexts,
                         kinds: seq<ComparisonType>, sames: seq<bool>)
    requires |kinds| == |cs| && |sames| == |cs|
    requires forall i :: 0 <= i < |cs| ==>
      cs[i].kind == kinds[i] && (cs[i].control.value == cs[i].test.value <==> sames[i])
    ensures Judged(CompareAll(cs, cfg, ctx), cfg, kinds, sames)
  {
    var r := CompareAll(cs, cfg, ctx);
    CompareAllFollows(cs, cfg, ctx);
    forall i | 0 <= i < |r.events| ensures Judges(r.events[i], kinds[i], cfg, sames[i]) {
      assert r.events[i].comparison == cs[i];
    }
  }

  /** The attributes an element compares one by one */
  function Remaining(n: Node): seq<Node> {
    SplitAttributes(AttributesOf(n)).remaining
  }

  /** An element's xsi:type attribute, if it has one */
  function XsiTypeOf(n: Node): Option<Node> {
    SplitAttributes(AttributesOf(n)).xsiType
  }

  /** The children an element compares (document type nodes removed) */
  function ChildList(n: Node): seq<Node> {
    Interesting(Children(n))
  }

  // ----- compareNodes and the node kind dispatch -----

  /** The comparisons compareNodes makes for every pair of nodes */
  function CommonComparisons(c: Node, t: Node, ctx: Contexts): seq<Comparison> {
    [Pairwise(NodeType, c, t, ctx, NodeTypeCode(TypeCode(c)), NodeTypeCode(TypeCode(t))),
     Pairwise(NamespaceUri, c, t, ctx, OptStr(NamespaceOf(c)), OptStr(NamespaceOf(t))),
     Pairwise(NamespacePrefix, c, t, ctx, OptStr(PrefixOf(c)), OptStr(PrefixOf(t)))]
  }

  /** The comparison of the numbers of interesting children */
  function LengthComparison(c: Node, t: Node, ctx: Contexts): Comparison {
    Pairwise(ChildNodelistLength, c, t, ctx, Int(|ChildList(c)|), Int(|ChildList(t)|))
  }

  /** compareNodes: node type, namespace URI and prefix, for non-attributes
      the number of interesting children, then the node kind specific
      comparisons and, for non-attributes, the children. */
  function CompareNodes(c: Node, t: Node, ctx: Contexts, cfg: Config): (r: Run)
    ensures r.contexts == ctx
    ensures Tidy(r, ctx)
    decreases c, 5, 0, 0
  {
    var r2 := CompareAll(CommonComparisons(c, t, ctx), cfg, ctx);
    var length := Comparer(LengthComparison(c, t, ctx), cfg);
    var r3 := AndIfTrueThen(r2, !c.Attribute?, length);
    var specific := SpecificComparer(c, t, cfg);
    var r4 := AndThen(r3, specific);
    var children := ChildrenComparer(c, t, cfg);
    var r := AndIfTrueThen(r4, !c.Attribute?, children);
    assert Tidy(r2, ctx) by { CompareAllTidy(CommonComparisons(c, t, ctx), cfg, ctx); }
    assert Tidy(r3, ctx) by {
      CompareTidy(LengthComparison(c, t, ctx), cfg, ctx, ctx);
      TidyThen(r2, length, ctx);
    }
    assert Tidy(r4, ctx) by { TidyThen(r3, specific, ctx); }
    assert Tidy(r, ctx) by { TidyThen(r4, children, ctx); }
    r
  }

  /** The node kind specific part of compareNodes' chain */
  function SpecificComparer(c: Node, t: Node, cfg: Config): Deferred
    decreases c, 4, 1, 0
  {
    (x: Contexts) => NodeTypeSpecific(c, t, x, cfg)
  }

  /** compareChildren: the child lists as the last part of compareNodes' chain */
  function ChildrenComparer(c: Node, t: Node, cfg: Config): Deferred
    decreases c, 1, 1, 0
  {
    (x: Contexts) => CompareNodeLists(c, t, x, cfg)
  }

  /** Whether the test node is of the Java type the control node's kind
      asks for: CharacterData, Document, Element, ProcessingInstruction,
      DocumentType or Attr. */
  predicate Fits(c: Node, t: Node) {
    || (IsCharacterData(c) && IsCharacterData(t))
    || (c.Document? && t.Document?)
    || (c.Element? && t.Element?)
    || (c.ProcessingInstruction? && t.ProcessingInstruction?)
    || (c.DocumentType? && t.DocumentType?)
    || (c.Attribute? && t.Attribute?)
  }

  /** nodeTypeSpecificComparison: the comparison for the control node's kind
      when the test node has a compatible kind, nothing otherwise. */
  function NodeTypeSpecific(c: Node, t: Node, ctx: Contexts, cfg: Config): (r: Run)
    ensures r.contexts == ctx
    ensures Tidy(r, ctx)
    ensures !Fits(c, t) ==> r.events == [] && r.outcome == Outcome(Equal, false)
    ensures IsCharacterData(c) && IsCharacterData(t) ==> r == CompareCharacterData(c, t, ctx, cfg)
    ensures c.Document? && t.Document? ==> r == CompareDocuments(c, t, ctx, cfg)
    ensures c.Element? && t.Element? ==> r == CompareElements(c, t, ctx, cfg)
    ensures c.ProcessingInstruction? && t.ProcessingInstruction? ==> r == CompareProcessingInstructions(c, t, ctx, cfg)
    ensures c.DocumentType? && t.DocumentType? ==> r == CompareDocTypes(c, t, ctx, cfg)
    ensures c.Attribute? && t.Attribute? ==> r == CompareAttributes(c, t, ctx, cfg)
    decreases c, 4, 0, 0
  {
    if IsCharacterData(c) then
      (if IsCharacterData(t) then CompareCharacterData(c, t, ctx, cfg) else NewChain(ctx))
    else if c.Document? then
      (if t.Document? then CompareDocuments(c, t, ctx, cfg) else NewChain(ctx))
    else if c.Element? then
      (if t.Element? then CompareElements(c, t, ctx, cfg) else NewChain(ctx))
    else if c.ProcessingInstruction? then
      (if t.ProcessingInstruction? then CompareProcessingInstructions(c, t, ctx, cfg) else NewChain(ctx))
    else if c.DocumentType? then
      (if t.DocumentType? then CompareDocTypes(c, t, ctx, cfg) else NewChain(ctx))
    else if c.Attribute? then
      (if t.Attribute? then CompareAttributes(c, t, ctx, cfg) else NewChain(ctx))
    else NewChain(ctx)
  }

  /** The comparison compareCharacterData makes */
  function TextComparison(c: Node, t: Node, ctx: Contexts): Comparison
    requires IsCharacterData(c) && IsCharacterData(t)
  {
    Pairwise(TextValue, c, t, ctx, Str(c.data), Str(t.data))
  }

  /** compareCharacterData */
  function CompareCharacterData(c: Node, t: Node, ctx: Contexts, cfg: Config): (r: Run)
    requires IsCharacterData(c) && IsCharacterData(t)
    ensures r.contexts == ctx && Tidy(r, ctx)
    ensures Judged(r, cfg, [TextValue], [c.data == t.data])
  {
    var cs := [TextComparison(c, t, ctx)];
    assert Tidy(CompareAll(cs, cfg, ctx), ctx) by { CompareAllTidy(cs, cfg, ctx); }
    assert Judged(CompareAll(cs, cfg, ctx), cfg, [TextValue], [c.data == t.data]) by {
      CompareAllJudged(cs, cfg, ctx, [TextValue], [c.data == t.data]);
    }
    CompareAll(cs, cfg, ctx)
  }

  /** Whether each document has a document type declaration */
  function DoctypePresence(c: Node, t: Node, ctx: Contexts): Comparison
    requires c.Document? && t.Document?
  {
    Pairwise(HasDoctypeDeclaration, c, t, ctx,
             Bool(DoctypeOf(c.children).Some?), Bool(DoctypeOf(t.children).Some?))
  }

  /** compareDocuments: whether each side has a document type, the two
      document types when both have one, then the XML declarations. */
  function CompareDocuments(c: Node, t: Node, ctx: Contexts, cfg: Config): (r: Run)
    requires c.Document? && t.Document?
    ensures r.contexts == ctx
    ensures Tidy(r, ctx)
    decreases c, 3, 0, 0
  {
    var cdt := DoctypeOf(c.children);
    var tdt := DoctypeOf(t.children);
    var has := DoctypePresence(c, t, ctx);
    var r0 := Compare(has, cfg, ctx);
    var doctypes := (x: Contexts) => if cdt.Some? && tdt.Some? then CompareNodes(cdt.value, tdt.value, x, cfg) else NewChain(x);
    var r1 := AndIfTrueThen(r0, cdt.Some? && tdt.Some?, doctypes);
    var declarations := Declarations(c, t, cfg);
    var r := AndThen(r1, declarations);
    assert Tidy(r, ctx) by {
      CompareTidy(has, cfg, ctx, ctx);
      TidyThen(r0, doctypes, ctx);
      TidyThen(r1, declarations, ctx);
    }
    r
  }

  /** The declaration comparisons as the last part of compareDocuments' chain */
  function Declarations(c: Node, t: Node, cfg: Config): Deferred
    requires c.Document? && t.Document?
  {
    (x: Contexts) => CompareDeclarations(c, t, x, cfg)
  }

  /** compareDocTypes: name, public id and system id; the system id
      comparison carries no locations. */
  function CompareDocTypes(c: Node, t: Node, ctx: Contexts, cfg: Config): (r: Run)
    requires c.DocumentType? && t.DocumentType?
    ensures r.contexts == ctx && Tidy(r, ctx)
    ensures Judged(r, cfg, [DoctypeName, DoctypePublicId, DoctypeSystemId],
                   [c.name == t.name, c.publicId == t.publicId, c.systemId == t.systemId])
  {
    var cs := [Pairwise(DoctypeName, c, t, ctx, Str(c.name), Str(t.name)),
               Pairwise(DoctypePublicId, c, t, ctx, OptStr(c.publicId), OptStr(t.publicId)),
               Comparison(DoctypeSystemId, Detail(Some(c), None, OptStr(c.systemId)),
                          Detail(Some(t), None, OptStr(t.systemId)))];
    var kinds := [DoctypeName, DoctypePublicId, DoctypeSystemId];
    var sames := [c.name == t.name, c.publicId == t.publicId, c.systemId == t.systemId];
    assert Tidy(CompareAll(cs, cfg, ctx), ctx) by { CompareAllTidy(cs, cfg, ctx); }
    assert Judged(CompareAll(cs, cfg, ctx), cfg, kinds, sames) by {
      CompareAllJudged(cs, cfg, ctx, kinds, sames);
    }
    CompareAll(cs, cfg, ctx)
  }

  /** The comparisons of the two XML declarations */
  function DeclarationComparisons(c: Node, t: Node, ctx: Contexts): seq<Comparison>
    requires c.Document? && t.Document?
  {
    [Pairwise(XmlVersion, c, t, ctx, Str(c.xmlVersion), Str(t.xmlVersion)),
     Pairwise(XmlStandalone, c, t, ctx, Bool(c.xmlStandalone), Bool(t.xmlStandalone)),
     Pairwise(XmlEncoding, c, t, ctx, OptStr(c.xmlEncoding), OptStr(t.xmlEncoding))]
  }

  /** compareDeclarations: XML version, standalone flag and encoding */
  function CompareDeclarations(c: Node, t: Node, ctx: Contexts, cfg: Config): (r: Run)
    requires c.Document? && t.Document?
    ensures r.contexts == ctx && Tidy(r, ctx)
    ensures Judged(r, cfg, [XmlVersion, XmlStandalone, XmlEncoding],
                   [c.xmlVersion == t.xmlVersion, c.xmlStandalone == t.xmlStandalone, c.xmlEncoding == t.xmlEncoding])
  {
    var cs := DeclarationComparisons(c, t, ctx);
    var kinds := [XmlVersion, XmlStandalone, XmlEncoding];
    var sames := [c.xmlVersion == t.xmlVersion, c.xmlStandalone == t.xmlStandalone, c.xmlEncoding == t.xmlEncoding];
    assert Tidy(CompareAll(cs, cfg, ctx), ctx) by { CompareAllTidy(cs, cfg, ctx); }
    assert Judged(CompareAll(cs, cfg, ctx), cfg, kinds, sames) by {
      CompareAllJudged(cs, cfg, ctx, kinds, sames);
    }
    CompareAll(cs, cfg, ctx)
  }

  /** compareProcessingInstructions: target, then data */
  function CompareProcessingInstructions(c: Node, t: Node, ctx: Contexts, cfg: Config): (r: Run)
    requires c.ProcessingInstruction? && t.ProcessingInstruction?
    ensures r.contexts == ctx && Tidy(r, ctx)
    ensures Judged(r, cfg, [ProcessingInstructionTarget, ProcessingInstructionData],
                   [c.target == t.target, c.data == t.data])
  {
    var cs := [Pairwise(ProcessingInstructionTarget, c, t, ctx, Str(c.target), Str(t.target)),
               Pairwise(ProcessingInstructionData, c, t, ctx, Str(c.data), Str(t.data))];
    var kinds := [ProcessingInstructionTarget, ProcessingInstructionData];
    var sames := [c.target == t.target, c.data == t.data];
    assert Tidy(CompareAll(cs, cfg, ctx), ctx) by { CompareAllTidy(cs, cfg, ctx); }
    assert Judged(CompareAll(cs, cfg, ctx), cfg, kinds, sames) by {
      CompareAllJudged(cs, cfg, ctx, kinds, sames);
    }
    CompareAll(cs, cfg, ctx)
  }

  /** compareAttributeExplicitness: whether each attribute was specified in
      the document rather than defaulted */
  function Explicitness(c: Node, t: Node, ctx: Contexts): (cmp: Comparison)
    ensures cmp.kind == AttrValueExplicitlySpecified
    ensures cmp.control.target == Some(c) && cmp.test.target == Some(t)
    ensures cmp.control.value == cmp.test.value <==> Specified(c) == Specified(t)
  {
    Pairwise(AttrValueExplicitlySpecified, c, t, ctx, Bool(Specified(c)), Bool(Specified(t)))
  }

  /** The comparisons compareAttributes makes */
  function AttributeComparisons(c: Node, t: Node, ctx: Contexts): seq<Comparison> {
    [Explicitness(c, t, ctx), Pairwise(AttrValue, c, t, ctx, Str(ValueOf(c)), Str(ValueOf(t)))]
  }

  /** compareAttributes: explicitness, then the value */
  function CompareAttributes(c: Node, t: Node, ctx: Contexts, cfg: Config): (r: Run)
    requires c.Attribute? && t.Attribute?
    ensures r.contexts == ctx && Tidy(r, ctx)
    ensures Judged(r, cfg, [AttrValueExplicitlySpecified, AttrValue], [c.specified == t.specified, c.value == t.value])
  {
    var cs := AttributeComparisons(c, t, ctx);
    var kinds := [AttrValueExplicitlySpecified, AttrValue];
    var sames := [c.specified == t.specified, c.value == t.value];
    assert Tidy(CompareAll(cs, cfg, ctx), ctx) by { CompareAllTidy(cs, cfg, ctx); }
    assert Judged(CompareAll(cs, cfg, ctx), cfg, kinds, sames) by {
      CompareAllJudged(cs, cfg, ctx, kinds, sames);
    }
    CompareAll(cs, cfg, ctx)
  }

  // ----- elements and their attributes -----

  /** The comparison of two elements' local names */
  function TagName(c: Node, t: Node, ctx: Contexts): Comparison {
    Pairwise(ElementTagName, c, t, ctx, Str(QNameOf(c).localPart), Str(QNameOf(t).localPart))
  }

  /** The comparison of two elements' numbers of normal attributes */
  function AttributeCount(c: Node, t: Node, ctx: Contexts): Comparison {
    Pairwise(ElementNumAttributes, c, t, ctx, Int(|Remaining(c)|), Int(|Remaining(t)|))
  }

  /** compareElements: the local name, then the attributes */
  function CompareElements(c: Node, t: Node, ctx: Contexts, cfg: Config): (r: Run)
    requires c.Element? && t.Element?
    ensures r.contexts == ctx
    ensures Tidy(r, ctx)
    decreases c, 3, 0, 0
  {
    var name := TagName(c, t, ctx);
    var r0 := Compare(name, cfg, ctx);
    var attributes := AttributesComparer(c, t, cfg);
    assert Tidy(AndThen(r0, attributes), ctx) by {
      CompareTidy(name, cfg, ctx, ctx);
      TidyThen(r0, attributes, ctx);
    }
    AndThen(r0, attributes)
  }

  /** compareElementAttributes as the last part of compareElements' chain */
  function AttributesComparer(c: Node, t: Node, cfg: Config): Deferred
    decreases c, 2, 1, 0
  {
    (x: Contexts) => CompareElementAttributes(c, t, x, cfg)
  }

  /** The comparisons of the two schema locations */
  function LocationComparisons(c: Node, t: Node, ctx: Contexts): seq<Comparison> {
    var cp := SplitAttributes(AttributesOf(c));
    var tp := SplitAttributes(AttributesOf(t));
    [Pairwise(SchemaLocation, c, t, ctx, OptAttrValue(cp.schemaLocation), OptAttrValue(tp.schemaLocation)),
     Pairwise(NoNamespaceSchemaLocation, c, t, ctx,
              OptAttrValue(cp.noNamespaceSchemaLocation), OptAttrValue(tp.noNamespaceSchemaLocation))]
  }

  /** compareElementAttributes: the number of normal attributes, xsi:type,
      the two schema locations, then the normal attributes. */
  function CompareElementAttributes(c: Node, t: Node, ctx: Contexts, cfg: Config): (r: Run)
    ensures r.contexts == ctx
    ensures Tidy(r, ctx)
    decreases c, 2, 0, 0
  {
    var count := AttributeCount(c, t, ctx);
    var r0 := Compare(count, cfg, ctx);
    var r3 := SchemaInstanceAttributes(c, t, r0, cfg);
    var normal := NormalComparer(c, t, cfg);
    var r := AndThen(r3, normal);
    assert Tidy(r0, ctx) by { CompareTidy(count, cfg, ctx, ctx); }
    assert Tidy(r, ctx) by { TidyThen(r3, normal, ctx); }
    r
  }

  /** NormalAttributeComparer as the last part of compareElementAttributes' chain */
  function NormalComparer(c: Node, t: Node, cfg: Config): Deferred
    decreases c, 1, 1, 0
  {
    (x: Contexts) => NormalAttributes(c, t, x, cfg)
  }

  /** compareXsiType as a part of compareElementAttributes' chain */
  function XsiTypeComparer(c: Node, t: Node, cfg: Config): Deferred {
    (x: Contexts) => CompareXsiType(XsiTypeOf(c), XsiTypeOf(t), x, cfg)
  }

  /** The middle of compareElementAttributes, on the chain it has so far:
      xsi:type, then the schema location and the no-namespace schema
      location. */
  function SchemaInstanceAttributes(c: Node, t: Node, chain: Run, cfg: Config): (r: Run)
    ensures r.contexts == chain.contexts
    ensures Tidy(chain, chain.contexts) ==> Tidy(r, chain.contexts)
  {
    var ctx := chain.contexts;
    var xsiType := XsiTypeComparer(c, t, cfg);
    var r1 := AndThen(chain, xsiType);
    var locations := LocationComparisons(c, t, ctx);
    var schemaLocation := Comparer(locations[0], cfg);
    var r2 := AndThen(r1, schemaLocation);
    var noNamespaceSchemaLocation := Comparer(locations[1], cfg);
    var r := AndThen(r2, noNamespaceSchemaLocation);
    assert Tidy(chain, ctx) ==> Tidy(r, ctx) by {
      if Tidy(chain, ctx) {
        TidyThen(chain, xsiType, ctx);
        CompareTidy(locations[0], cfg, ctx, ctx);
        TidyThen(r1, schemaLocation, ctx);
        CompareTidy(locations[1], cfg, ctx, ctx);
        TidyThen(r2, noNamespaceSchemaLocation, ctx);
      }
    }
    r
  }

  /** The state NormalAttributeComparer carries through its loop: the chain
      and the positions of the test attributes matched so far. */
  datatype Scan = Scan(run: Run, found: set<nat>)

  /** NormalAttributeComparer: every normal control attribute is looked up
      among the test attributes and compared with its counterpart; then the
      test attributes nobody matched are reported. */
  function NormalAttributes(c: Node, t: Node, ctx: Contexts, cfg: Config): (r: Run)
    ensures r.contexts == ctx
    ensures Tidy(r, ctx)
    decreases c, 1, 0, 0
  {
    var s := ControlAttributes(c, t, 0, NewChain(ctx), {}, cfg);
    var present := PresentComparer(c, t, s.found, cfg);
    assert Tidy(AndThen(s.run, present), ctx) by {
      TidyThen(s.run, present, ctx);
    }
    AndThen(s.run, present)
  }

  /** ControlAttributePresentComparer as the last part of the chain */
  function PresentComparer(c: Node, t: Node, found: set<nat>, cfg: Config): Deferred {
    (x: Contexts) => ControlAttributePresent(c, t, found, x, cfg)
  }

  /** The lookup of the i-th normal control attribute among the test
      attributes, made at the control attribute's location */
  function AttributeLookup(c: Node, t: Node, ca: Node, m: Option<Node>, ctx: Contexts): Comparison {
    Comparison(AttrNameLookup, Here(c, ctx.control, Name(QNameOf(ca))), Here(t, ctx.test, AttrName(m)))
  }

  /** The loop of NormalAttributeComparer from the i-th normal control
      attribute on. */
  function ControlAttributes(c: Node, t: Node, i: nat, chain: Run, found: set<nat>, cfg: Config): (s: Scan)
    ensures s.run.contexts == chain.contexts
    ensures Tidy(chain, chain.contexts) ==> Tidy(s.run, chain.contexts)
    ensures found <= s.found
    ensures forall j :: j in s.found && j !in found ==> j < |Remaining(t)|
    decreases c, 0, |Remaining(c)| - i, 1
  {
    if i >= |Remaining(c)| then Scan(chain, found)
    else
      var m := FindMatchingAttr(Remaining(t), Remaining(c)[i]);
      ControlAttributes(c, t, i + 1, ControlAttribute(c, t, i, chain, cfg),
                        if m.Some? then found + {m.value} else found, cfg)
  }

  /** One round of the loop: the lookup of the i-th normal control attribute
      and, when it has a counterpart, the walk of the two attributes. */
  function ControlAttribute(c: Node, t: Node, i: nat, chain: Run, cfg: Config): (r: Run)
    requires i < |Remaining(c)|
    ensures r.contexts == chain.contexts
    ensures Tidy(chain, chain.contexts) ==> Tidy(r, chain.contexts)
    decreases c, 0, |Remaining(c)| - i, 0
  {
    var cr := Remaining(c);
    var tr := Remaining(t);
    var ca := cr[i];
    assert ca in AttributesOf(c);
    var m := FindMatchingAttr(tr, ca);
    var here := chain.contexts;
    var inAttr := here.(control := here.control + [AttributeStep(QNameOf(ca))]);
    var lookup := AttributeLookup(c, t, ca, At(tr, m), inAttr);
    var r1 := AndThen(chain.(contexts := inAttr), Comparer(lookup, cfg));
    assert Tidy(chain, here) ==> Tidy(r1, here) by {
      if Tidy(chain, here) { ComparerTidy(chain, lookup, cfg, inAttr, here); }
    }
    var r2 := if m.None? then r1 else AttributePair(ca, tr[m.value], r1, here, cfg);
    ParentOfStep(here.control, AttributeStep(QNameOf(ca)));
    r2.(contexts := r2.contexts.(control := Parent(r2.contexts.control)))
  }

  /** The walk of a control attribute and its counterpart, made at the test
      attribute's location and back */
  function AttributePair(ca: Node, ta: Node, chain: Run, base: Contexts, cfg: Config): (r: Run)
    requires |base.control| <= |chain.contexts.control| && |base.test| <= |chain.contexts.test|
    ensures r.contexts == chain.contexts
    ensures Tidy(chain, base) ==> Tidy(r, base)
    decreases ca, 7, 0, 0
  {
    var here := chain.contexts;
    var n := NodePair(ca, ta, chain.(contexts := here.(test := here.test + [AttributeStep(QNameOf(ta))])), base, cfg);
    ParentOfStep(here.test, AttributeStep(QNameOf(ta)));
    n.(contexts := n.contexts.(test := Parent(n.contexts.test)))
  }

  /** ControlAttributePresentComparer: a lookup with no control name for
      every normal test attribute that was not matched. */
  function ControlAttributePresent(c: Node, t: Node, found: set<nat>, ctx: Contexts, cfg: Config): (r: Run)
    ensures r.contexts == ctx
    ensures Tidy(r, ctx)
  {
    UnfoundFrom(c, t, found, 0, NewChain(ctx), cfg)
  }

  /** The lookup of a test attribute no control attribute matched, made at
      the test attribute's location */
  function UnfoundLookup(c: Node, t: Node, ta: Node, ctx: Contexts): Comparison {
    Comparison(AttrNameLookup, Here(c, ctx.control, Null), Here(t, ctx.test, Name(QNameOf(ta))))
  }

  /** The loop of ControlAttributePresentComparer from the j-th normal test
      attribute on */
  function UnfoundFrom(c: Node, t: Node, found: set<nat>, j: nat, chain: Run, cfg: Config): (r: Run)
    ensures r.contexts == chain.contexts
    ensures Tidy(chain, chain.contexts) ==> Tidy(r, chain.contexts)
    decreases |Remaining(t)| - j
  {
    if j >= |Remaining(t)| then chain
    else if j in found then UnfoundFrom(c, t, found, j + 1, chain, cfg)
    else UnfoundFrom(c, t, found, j + 1, Unfound(c, t, Remaining(t)[j], chain, cfg), cfg)
  }

  /** One round of the loop: the lookup of a test attribute, made at its
      location and back */
  function Unfound(c: Node, t: Node, ta: Node, chain: Run, cfg: Config): (r: Run)
    ensures r.contexts == chain.contexts
    ensures Tidy(chain, chain.contexts) ==> Tidy(r, chain.contexts)
  {
    var here := chain.contexts;
    var inAttr := here.(test := here.test + [AttributeStep(QNameOf(ta))]);
    var lookup := UnfoundLookup(c, t, ta, inAttr);
    var r1 := AndThen(chain.(contexts := inAttr), Comparer(lookup, cfg));
    ParentOfStep(here.test, AttributeStep(QNameOf(ta)));
    var back := r1.(contexts := r1.contexts.(test := Parent(r1.contexts.test)));
    assert Tidy(chain, here) ==> Tidy(back, here) by {
      if Tidy(chain, here) { ComparerTidy(chain, lookup, cfg, inAttr, here); }
    }
    back
  }

  // ----- xsi:type -----

  /** The location of an attribute that may be missing: the element's own
      location when it is */
  function AttrPath(p: Path, a: Option<Node>): Path {
    match a
    case Some(n) => p + [AttributeStep(QNameOf(n))]
    case None => p
  }

  /** The name of an attribute that may be missing */
  function AttrName(a: Option<Node>): Value {
    match a
    case Some(n) => Name(QNameOf(n))
    case None => Null
  }

  /** The name lookup compareXsiType starts with */
  function XsiLookup(ca: Option<Node>, ta: Option<Node>, ctx: Contexts): Comparison {
    Comparison(AttrNameLookup,
               Detail(ca, Some(AttrPath(ctx.control, ca)), AttrName(ca)),
               Detail(ta, Some(AttrPath(ctx.test, ta)), AttrName(ta)))
  }

  /** The value comparison of two xsi:type attributes: their values read as
      qualified names */
  function XsiValue(ca: Node, ta: Node, ctx: Contexts): (cmp: Comparison)
    ensures cmp.kind == AttrValue
    ensures cmp.control.value == cmp.test.value <==> ValueAsQName(ca) == ValueAsQName(ta)
  {
    Pairwise(AttrValue, ca, ta, ctx, Name(ValueAsQName(ca)), Name(ValueAsQName(ta)))
  }

  /** The comparisons compareXsiType makes when xsi:type is on both sides */
  function XsiComparisons(ca: Node, ta: Node, ctx: Contexts): seq<Comparison> {
    var inAttr := Contexts(AttrPath(ctx.control, Some(ca)), AttrPath(ctx.test, Some(ta)));
    [XsiLookup(Some(ca), Some(ta), ctx), Explicitness(ca, ta, inAttr), XsiValue(ca, ta, inAttr)]
  }

  /** The comparisons compareXsiType makes: none without xsi:type, the
      name lookup alone when only one side has it, and the lookup, the
      explicitness and the value when both have it. */
  function XsiTypeComparisons(ca: Option<Node>, ta: Option<Node>, ctx: Contexts): seq<Comparison> {
    if ca.Some? && ta.Some? then XsiComparisons(ca.value, ta.value, ctx)
    else if ca.Some? || ta.Some? then [XsiLookup(ca, ta, ctx)]
    else []
  }

  /** compareXsiType, with the explicitness and value comparisons made only
      when xsi:type is present on both sides. */
  function CompareXsiType(ca: Option<Node>, ta: Option<Node>, ctx: Contexts, cfg: Config): (r: Run)
    ensures r.contexts == ctx && Tidy(r, ctx)
    ensures Follows(r, XsiTypeComparisons(ca, ta, ctx))
    ensures ca.None? && ta.None? ==> r == NewChain(ctx)
    ensures ca.Some? && ta.Some? ==>
      Judged(r, cfg, [AttrNameLookup, AttrValueExplicitlySpecified, AttrValue],
             [QNameOf(ca.value) == QNameOf(ta.value), Specified(ca.value) == Specified(ta.value),
              ValueAsQName(ca.value) == ValueAsQName(ta.value)])
    ensures ca.Some? != ta.Some? ==>
      |r.events| == 1 && r.events[0].comparison == XsiLookup(ca, ta, ctx) && Judges(r.events[0], AttrNameLookup, cfg, false)
  {
    if ca.None? && ta.None? then NewChain(ctx)
    else if ca.Some? && ta.Some? then
      XsiBothJudged(ca.value, ta.value, ctx, cfg);
      XsiBoth(ca.value, ta.value, ctx, cfg)
    else
      var inAttr := Contexts(AttrPath(ctx.control, ca), AttrPath(ctx.test, ta));
      var r0 := Compare(XsiLookup(ca, ta, ctx), cfg, inAttr);
      assert Tidy(r0, ctx) by { CompareTidy(XsiLookup(ca, ta, ctx), cfg, inAttr, ctx); }
      CompareFollows(XsiLookup(ca, ta, ctx), cfg, inAttr);
      var back := Contexts(if ca.Some? then Parent(r0.contexts.control) else r0.contexts.control,
                           if ta.Some? then Parent(r0.contexts.test) else r0.contexts.test);
      assert back == ctx by {
        if ca.Some? { ParentOfStep(ctx.control, AttributeStep(QNameOf(ca.value))); }
        if ta.Some? { ParentOfStep(ctx.test, AttributeStep(QNameOf(ta.value))); }
      }
      r0.(contexts := back)
  }

  /** compareXsiType when both sides carry xsi:type */
  function XsiBoth(ca: Node, ta: Node, ctx: Contexts, cfg: Config): (r: Run)
    ensures r.contexts == ctx && Tidy(r, ctx)
    ensures Follows(r, XsiComparisons(ca, ta, ctx))
  {
    var inAttr := Contexts(AttrPath(ctx.control, Some(ca)), AttrPath(ctx.test, Some(ta)));
    var r2 := CompareAll(XsiComparisons(ca, ta, ctx), cfg, inAttr);
    assert Follows(r2, XsiComparisons(ca, ta, ctx)) by { CompareAllFollows(XsiComparisons(ca, ta, ctx), cfg, inAttr); }
    XsiBothTidy(ca, ta, ctx, cfg);
    r2.(contexts := Contexts(Parent(r2.contexts.control), Parent(r2.contexts.test)))
  }

  /** The xsi:type comparisons leave the chain at the element, tidy */
  lemma XsiBothTidy(ca: Node, ta: Node, ctx: Contexts, cfg: Config)
    ensures var inAttr := Contexts(AttrPath(ctx.control, Some(ca)), AttrPath(ctx.test, Some(ta)));
      var r2 := CompareAll(XsiComparisons(ca, ta, ctx), cfg, inAttr);
      && Tidy(r2, ctx)
      && Contexts(Parent(r2.contexts.control), Parent(r2.contexts.test)) == ctx
  {
    var inAttr := Contexts(AttrPath(ctx.control, Some(ca)), AttrPath(ctx.test, Some(ta)));
    var r2 := CompareAll(XsiComparisons(ca, ta, ctx), cfg, inAttr);
    assert inAttr == Contexts(ctx.control + [AttributeStep(QNameOf(ca))], ctx.test + [AttributeStep(QNameOf(ta))]);
    CompareAllTidy(XsiComparisons(ca, ta, ctx), cfg, inAttr);
    DeepShallower(r2.events, inAttr, ctx);
    ParentOfStep(ctx.control, AttributeStep(QNameOf(ca)));
    ParentOfStep(ctx.test, AttributeStep(QNameOf(ta)));
  }

  /** With xsi:type on both sides, the name, the explicitness and the value
      read as a qualified name are compared, in that order. */
  lemma XsiBothJudged(ca: Node, ta: Node, ctx: Contexts, cfg: Config)
    ensures Judged(XsiBoth(ca, ta, ctx, cfg), cfg, [AttrNameLookup, AttrValueExplicitlySpecified, AttrValue],
                   [QNameOf(ca) == QNameOf(ta), Specified(ca) == Specified(ta), ValueAsQName(ca) == ValueAsQName(ta)])
  {
    var inAttr := Contexts(AttrPath(ctx.control, Some(ca)), AttrPath(ctx.test, Some(ta)));
    var cs := XsiComparisons(ca, ta, ctx);
    var kinds := [AttrNameLookup, AttrValueExplicitlySpecified, AttrValue];
    var sames := [QNameOf(ca) == QNameOf(ta), Specified(ca) == Specified(ta), ValueAsQName(ca) == ValueAsQName(ta)];
    assert cs[2] == XsiValue(ca, ta, inAttr);
    CompareAllJudged(cs, cfg, inAttr, kinds, sames);
  }

  // ----- child lists -----

  /** The state compareNodeLists carries through its loop: the chain and
      the positions of the control and test children paired so far. */
  datatype Pairing = Pairing(run: Run, seenControl: set<nat>, seenTest: set<nat>)

  /** compareNodeLists (by way of compareChildren): the matched pairs in the
      matcher's order, each with its sequence comparison and the recursive
      walk, then the control children and the test children left unpaired. */
  function CompareNodeLists(c: Node, t: Node, ctx: Contexts, cfg: Config): (r: Run)
    ensures r.contexts == ctx
    ensures Tidy(r, ctx)
    decreases c, 1, 0, 0
  {
    var p := MatchedPairs(c, t, 0, NewChain(ctx), {}, {}, cfg);
    var controls := UnmatchedControlComparer(ChildList(c), p.seenControl, cfg);
    var r1 := AndThen(p.run, controls);
    var tests := UnmatchedTestComparer(ChildList(t), p.seenTest, cfg);
    assert Tidy(AndThen(r1, tests), ctx) by {
      TidyThen(p.run, controls, ctx);
      TidyThen(r1, tests, ctx);
    }
    AndThen(r1, tests)
  }

  /** UnmatchedControlNodes as a part of compareNodeLists' chain */
  function UnmatchedControlComparer(list: seq<Node>, seen: set<nat>, cfg: Config): Deferred {
    (x: Contexts) => UnmatchedControlNodes(list, seen, x, cfg)
  }

  /** UnmatchedTestNodes as the last part of compareNodeLists' chain */
  function UnmatchedTestComparer(list: seq<Node>, seen: set<nat>, cfg: Config): Deferred {
    (x: Contexts) => UnmatchedTestNodes(list, seen, x, cfg)
  }

  /** The pairs the matcher proposes for two nodes' interesting children */
  function Pairs(c: Node, t: Node, cfg: Config): seq<(int, int)> {
    cfg.matcher(ChildList(c), ChildList(t))
  }

  /** The sequence comparison of a matched pair, at the pair's locations */
  function SequenceComparison(cn: Node, tn: Node, i: int, j: int, ctx: Contexts): Comparison {
    Comparison(ChildNodelistSequence, Here(cn, ctx.control, Int(i)), Here(tn, ctx.test, Int(j)))
  }

  /** The loop over the matcher's pairs from the k-th on.  A pair names a
      control and a test child by position; a position outside the child
      list names no child and the pair is passed over. */
  function MatchedPairs(c: Node, t: Node, k: nat, chain: Run, sc: set<nat>, st: set<nat>, cfg: Config): (p: Pairing)
    ensures p.run.contexts == chain.contexts
    ensures Tidy(chain, chain.contexts) ==> Tidy(p.run, chain.contexts)
    decreases c, 0, |Pairs(c, t, cfg)| - k, 1
  {
    var pairs := Pairs(c, t, cfg);
    if k >= |pairs| then Pairing(chain, sc, st)
    else
      var i := pairs[k].0;
      var j := pairs[k].1;
      if 0 <= i < |ChildList(c)| && 0 <= j < |ChildList(t)| then
        MatchedPairs(c, t, k + 1, MatchedPair(c, t, k, chain, cfg), sc + {i}, st + {j}, cfg)
      else MatchedPairs(c, t, k + 1, chain, sc, st, cfg)
  }

  /** One round of the loop: the sequence comparison of the k-th pair and
      the walk of its two children, made at their locations and back. */
  function MatchedPair(c: Node, t: Node, k: nat, chain: Run, cfg: Config): (r: Run)
    requires k < |Pairs(c, t, cfg)|
    requires 0 <= Pairs(c, t, cfg)[k].0 < |ChildList(c)| && 0 <= Pairs(c, t, cfg)[k].1 < |ChildList(t)|
    ensures r.contexts == chain.contexts
    ensures Tidy(chain, chain.contexts) ==> Tidy(r, chain.contexts)
    decreases c, 0, |Pairs(c, t, cfg)| - k, 0
  {
    var cc := ChildList(c);
    var tc := ChildList(t);
    var i := Pairs(c, t, cfg)[k].0;
    var j := Pairs(c, t, cfg)[k].1;
    assert cc[i] in Children(c);
    var here := chain.contexts;
    var inChild := Contexts(here.control + [ChildStep(i)], here.test + [ChildStep(j)]);
    var sequence := SequenceComparison(cc[i], tc[j], i, j, inChild);
    var r1 := AndThen(chain.(contexts := inChild), Comparer(sequence, cfg));
    assert Tidy(chain, here) ==> Tidy(r1, here) by {
      if Tidy(chain, here) { ComparerTidy(chain, sequence, cfg, inChild, here); }
    }
    var r2 := NodePair(cc[i], tc[j], r1, here, cfg);
    ParentOfStep(here.control, ChildStep(i));
    ParentOfStep(here.test, ChildStep(j));
    r2.(contexts := Contexts(Parent(r2.contexts.control), Parent(r2.contexts.test)))
  }

  /** The walk of two paired nodes, on a chain already at their locations */
  function NodePair(cn: Node, tn: Node, chain: Run, base: Contexts, cfg: Config): (r: Run)
    requires |base.control| <= |chain.contexts.control| && |base.test| <= |chain.contexts.test|
    ensures r.contexts == chain.contexts
    ensures Tidy(chain, base) ==> Tidy(r, base)
    decreases cn, 6, 0, 0
  {
    var nested := (x: Contexts) => CompareNodes(cn, tn, x, cfg);
    assert Tidy(chain, base) ==> Tidy(AndThen(chain, nested), base) by {
      if Tidy(chain, base) {
        DeepShallower(CompareNodes(cn, tn, chain.contexts, cfg).events, chain.contexts, base);
        TidyThen(chain, nested, base);
      }
    }
    AndThen(chain, nested)
  }

  /** The lookup reporting a control child without a partner */
  function ControlChildLookup(list: seq<Node>, i: nat, p: Path): Comparison
    requires i < |list|
  {
    Comparison(ChildLookup, Here(list[i], p + [ChildStep(i)], Name(QNameOf(list[i]))), Detail(None, None, Null))
  }

  /** The lookup reporting a test child without a partner */
  function TestChildLookup(list: seq<Node>, i: nat, p: Path): Comparison
    requires i < |list|
  {
    Comparison(ChildLookup, Detail(None, None, Null), Here(list[i], p + [ChildStep(i)], Name(QNameOf(list[i]))))
  }

  /** UnmatchedControlNodes */
  function UnmatchedControlNodes(list: seq<Node>, seen: set<nat>, ctx: Contexts, cfg: Config): (r: Run)
    ensures r.contexts == ctx
    ensures Tidy(r, ctx)
  {
    UnmatchedControlFrom(list, seen, 0, NewChain(ctx), cfg)
  }

  function UnmatchedControlFrom(list: seq<Node>, seen: set<nat>, i: nat, chain: Run, cfg: Config): (r: Run)
    ensures r.contexts == chain.contexts
    ensures Tidy(chain, chain.contexts) ==> Tidy(r, chain.contexts)
    decreases |list| - i
  {
    if i >= |list| then chain
    else if i in seen then UnmatchedControlFrom(list, seen, i + 1, chain, cfg)
    else UnmatchedControlFrom(list, seen, i + 1, UnmatchedControl(list, i, chain, cfg), cfg)
  }

  /** One round of the loop: the lookup of the i-th control child, made at
      its location and back */
  function UnmatchedControl(list: seq<Node>, i: nat, chain: Run, cfg: Config): (r: Run)
    requires i < |list|
    ensures r.contexts == chain.contexts
    ensures Tidy(chain, chain.contexts) ==> Tidy(r, chain.contexts)
  {
    var here := chain.contexts;
    var inChild := here.(control := here.control + [ChildStep(i)]);
    var lookup := ControlChildLookup(list, i, here.control);
    var r1 := AndThen(chain.(contexts := inChild), Comparer(lookup, cfg));
    ParentOfStep(here.control, ChildStep(i));
    var back := r1.(contexts := r1.contexts.(control := Parent(r1.contexts.control)));
    assert Tidy(chain, here) ==> Tidy(back, here) by {
      if Tidy(chain, here) { ComparerTidy(chain, lookup, cfg, inChild, here); }
    }
    back
  }

  /** UnmatchedTestNodes */
  function UnmatchedTestNodes(list: seq<Node>, seen: set<nat>, ctx: Contexts, cfg: Config): (r: Run)
    ensures r.contexts == ctx
    ensures Tidy(r, ctx)
  {
    UnmatchedTestFrom(list, seen, 0, NewChain(ctx), cfg)
  }

  function UnmatchedTestFrom(list: seq<Node>, seen: set<nat>, i: nat, chain: Run, cfg: Config): (r: Run)
    ensures r.contexts == chain.contexts
    ensures Tidy(chain, chain.contexts) ==> Tidy(r, chain.contexts)
    decreases |list| - i
  {
    if i >= |list| then chain
    else if i in seen then UnmatchedTestFrom(list, seen, i + 1, chain, cfg)
    else UnmatchedTestFrom(list, seen, i + 1, UnmatchedTest(list, i, chain, cfg), cfg)
  }

  /** One round of the loop: the lookup of the i-th test child, made at its
      location and back */
  function UnmatchedTest(list: seq<Node>, i: nat, chain: Run, cfg: Config): (r: Run)
    requires i < |list|
    ensures r.contexts == chain.contexts
    ensures Tidy(chain, chain.contexts) ==> Tidy(r, chain.contexts)
  {
    var here := chain.contexts;
    var inChild := here.(test := here.test + [ChildStep(i)]);
    var lookup := TestChildLookup(list, i, here.test);
    var r1 := AndThen(chain.(contexts := inChild), Comparer(lookup, cfg));
    ParentOfStep(here.test, ChildStep(i));
    var back := r1.(contexts := r1.contexts.(test := Parent(r1.contexts.test)));
    assert Tidy(chain, here) ==> Tidy(back, here) by {
      if Tidy(chain, here) { ComparerTidy(chain, lookup, cfg, inChild, here); }
    }
    back
  }
}
