/** The comparisons that open the walk of two elements and of two
    documents, in the order compareElements and compareDocuments make
    them. */
module Openings {
  import opened Dom
  import opened Comparisons
  import opened Engine
  import opened Walk
  import opened Properties

  /** compareElementAttributes starts with the numbers of normal attributes */
  lemma ElementAttributesOpen(c: Node, t: Node, ctx: Contexts, cfg: Config)
    ensures Opens(CompareElementAttributes(c, t, ctx, cfg), [AttributeCount(c, t, ctx)])
  {
    var count := AttributeCount(c, t, ctx);
    var r0 := Compare(count, cfg, ctx);
    CompareFollows(count, cfg, ctx);
    var xsiType := XsiTypeComparer(c, t, cfg);
    var r1 := AndThen(r0, xsiType);
    OpensThen(r0, xsiType, [count]);
    var locations := LocationComparisons(c, t, ctx);
    var r2 := AndThen(r1, Comparer(locations[0], cfg));
    OpensThen(r1, Comparer(locations[0], cfg), [count]);
    var r3 := AndThen(r2, Comparer(locations[1], cfg));
    OpensThen(r2, Comparer(locations[1], cfg), [count]);
    assert SchemaInstanceAttributes(c, t, r0, cfg) == r3;
    OpensThen(r3, NormalComparer(c, t, cfg), [count]);
  }

  /** Two elements: the local names first, then the numbers of normal
      attributes, unless the first comparison stops the walk. */
  lemma ElementsOpen(c: Node, t: Node, ctx: Contexts, cfg: Config)
    requires c.Element? && t.Element?
    ensures Opens(CompareElements(c, t, ctx, cfg), [TagName(c, t, ctx), AttributeCount(c, t, ctx)])
  {
    var name := TagName(c, t, ctx);
    CompareFollows(name, cfg, ctx);
    ElementAttributesOpen(c, t, ctx, cfg);
    FollowsThenOpens(Compare(name, cfg, ctx), AttributesComparer(c, t, cfg),
                     [name], [AttributeCount(c, t, ctx)]);
  }

  /** Two documents of which at least one lacks a document type: whether
      each has one, then the three declaration comparisons, and nothing
      else. */
  lemma DocumentsWithoutDoctype(c: Node, t: Node, ctx: Contexts, cfg: Config)
    requires c.Document? && t.Document?
    requires DoctypeOf(c.children).None? || DoctypeOf(t.children).None?
    ensures Follows(CompareDocuments(c, t, ctx, cfg), [DoctypePresence(c, t, ctx)] + DeclarationComparisons(c, t, ctx))
  {
    var has := DoctypePresence(c, t, ctx);
    var r0 := Compare(has, cfg, ctx);
    CompareFollows(has, cfg, ctx);
    var declarations := (x: Contexts) => CompareDeclarations(c, t, x, cfg);
    assert CompareDocuments(c, t, ctx, cfg) == AndThen(r0, declarations);
    CompareAllFollows(DeclarationComparisons(c, t, ctx), cfg, ctx);
    FollowsThen(r0, declarations, [has], DeclarationComparisons(c, t, ctx));
  }

  /** Two documents that both have a document type: whether each has one,
      then the walk of the two document types, which opens with their
      common comparisons and numbers of children; the declarations come
      after that walk. */
  lemma DocumentsWithDoctypes(c: Node, t: Node, ctx: Contexts, cfg: Config)
    requires c.Document? && t.Document?
    requires DoctypeOf(c.children).Some? && DoctypeOf(t.children).Some?
    ensures var cdt := DoctypeOf(c.children).value;
      var tdt := DoctypeOf(t.children).value;
      Opens(CompareDocuments(c, t, ctx, cfg),
            [DoctypePresence(c, t, ctx)] + CommonComparisons(cdt, tdt, ctx) + [LengthComparison(cdt, tdt, ctx)])
  {
    var cdt := DoctypeOf(c.children).value;
    var tdt := DoctypeOf(t.children).value;
    var has := DoctypePresence(c, t, ctx);
    var r0 := Compare(has, cfg, ctx);
    var rd := CompareNodes(cdt, tdt, ctx, cfg);
    var expected := CommonComparisons(cdt, tdt, ctx) + [LengthComparison(cdt, tdt, ctx)];
    assert [has] + CommonComparisons(cdt, tdt, ctx) + [LengthComparison(cdt, tdt, ctx)] == [has] + expected;
    DoctypesFirst(c, t, ctx, cfg);
    if r0.outcome.abort {
      assert Cmps(r0.events) == [has];
      assert ([has] + expected)[..1] == [has];
    } else {
      var both := Run(r0.events + rd.events, rd.outcome, rd.contexts);
      CompareNodesOpens(cdt, tdt, ctx, cfg);
      assert Opens(both, [has] + expected) by {
        CmpsAppend(r0.events, rd.events);
        assert Cmps(r0.events) == [has];
        PrependOpens(has, rd, expected);
      }
      OpensThen(both, Declarations(c, t, cfg), [has] + expected);
    }
  }

  /** Two documents that both have a document type: whether each has one,
      then the whole walk of the two document types, then XML_VERSION,
      XML_STANDALONE and XML_ENCODING; nothing else, and a stop anywhere
      skips the rest. */
  lemma DocumentsWithDoctypesFollow(c: Node, t: Node, ctx: Contexts, cfg: Config)
    requires c.Document? && t.Document?
    requires DoctypeOf(c.children).Some? && DoctypeOf(t.children).Some?
    ensures var cdt := DoctypeOf(c.children).value;
      var tdt := DoctypeOf(t.children).value;
      Follows(CompareDocuments(c, t, ctx, cfg),
              [DoctypePresence(c, t, ctx)] + Cmps(CompareNodes(cdt, tdt, ctx, cfg).events)
              + DeclarationComparisons(c, t, ctx))
  {
    var cdt := DoctypeOf(c.children).value;
    var tdt := DoctypeOf(t.children).value;
    var has := DoctypePresence(c, t, ctx);
    var r0 := Compare(has, cfg, ctx);
    var rd := CompareNodes(cdt, tdt, ctx, cfg);
    DoctypesFirst(c, t, ctx, cfg);
    if r0.outcome.abort {
      assert Cmps(r0.events) == [has];
    } else {
      var both := Run(r0.events + rd.events, rd.outcome, rd.contexts);
      CmpsAppend(r0.events, rd.events);
      CompareAllFollows(DeclarationComparisons(c, t, ctx), cfg, ctx);
      FollowsThen(both, Declarations(c, t, cfg), [has] + Cmps(rd.events), DeclarationComparisons(c, t, ctx));
    }
  }

  /** One comparison in front of a run keeps what opens it in front too */
  lemma PrependOpens(first: Comparison, r: Run, expected: seq<Comparison>)
    requires Opens(r, expected)
    ensures [first] + expected <= [first] + Cmps(r.events)
         || ([first] + Cmps(r.events) < [first] + expected && r.outcome.abort)
  {
    if expected <= Cmps(r.events) {
      assert ([first] + Cmps(r.events))[..|[first] + expected|] == [first] + expected;
    } else {
      assert ([first] + expected)[..|[first] + Cmps(r.events)|] == [first] + Cmps(r.events);
    }
  }

  /** With both document types present, compareDocuments is the presence
      comparison, then the document type walk, then the declarations */
  lemma DoctypesFirst(c: Node, t: Node, ctx: Contexts, cfg: Config)
    requires c.Document? && t.Document?
    requires DoctypeOf(c.children).Some? && DoctypeOf(t.children).Some?
    ensures var r0 := Compare(DoctypePresence(c, t, ctx), cfg, ctx);
      var rd := CompareNodes(DoctypeOf(c.children).value, DoctypeOf(t.children).value, ctx, cfg);
      && (r0.outcome.abort ==> CompareDocuments(c, t, ctx, cfg) == r0)
      && (!r0.outcome.abort ==>
            CompareDocuments(c, t, ctx, cfg)
            == AndThen(Run(r0.events + rd.events, rd.outcome, rd.contexts), Declarations(c, t, cfg)))
  {
  }
}
