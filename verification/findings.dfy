/** compareXsiType exactly as the engine's code orders it, next to the
    corrected form the rest of the model uses. */
module Findings {
  import opened Dom
  import opened Comparisons
  import opened Engine
  import opened Attributes
  import opened Walk

  /** How a call ends: it returns a chain, or it throws after the listeners
      were told about `events`.  The `finally` block has put both locations
      back either way. */
  datatype Attempt = Returned(run: Run) | Threw(events: seq<Event>, contexts: Contexts)

  /** compareXsiType as written.  The name lookup is reported first; the
      explicitness comparison and the value read as a qualified name are
      built as arguments of the chain's next parts whether or not those
      parts are to run, so an absent attribute on either side is
      dereferenced right after the lookup. */
  function CompareXsiTypeAsWritten(ca: Option<Node>, ta: Option<Node>, ctx: Contexts, cfg: Config): Attempt {
    if ca.None? && ta.None? then Returned(NewChain(ctx))
    else
      var bothPresent := ca.Some? && ta.Some?;
      var inAttr := Contexts(AttrPath(ctx.control, ca), AttrPath(ctx.test, ta));
      var r0 := Compare(XsiLookup(ca, ta, ctx), cfg, inAttr);
      if ca.None? || ta.None? then
        // control.getSpecified() or test.getSpecified() on null
        Threw(r0.events, ctx)
      else
        var r1 := AndIfTrueThen(r0, bothPresent, Comparer(Explicitness(ca.value, ta.value, inAttr), cfg));
        var r2 := AndIfTrueThen(r1, bothPresent, Comparer(XsiValue(ca.value, ta.value, inAttr), cfg));
        Returned(r2.(contexts := Contexts(Parent(r2.contexts.control), Parent(r2.contexts.test))))
  }

  /** With xsi:type on exactly one side the code as written throws, after
      telling the listeners about the failed lookup, where the evident
      intent is to report that lookup and carry on. */
  lemma OneSidedXsiTypeThrows(ca: Option<Node>, ta: Option<Node>, ctx: Contexts, cfg: Config)
    requires ca.Some? != ta.Some?
    ensures var a := CompareXsiTypeAsWritten(ca, ta, ctx, cfg);
      && a.Threw?
      && a.events == CompareXsiType(ca, ta, ctx, cfg).events
      && Cmps(a.events) == [XsiLookup(ca, ta, ctx)]
  {
  }

  /** A concrete instance: the control element carries xsi:type="a", the
      test element carries no attributes at all. */
  lemma OneSidedXsiTypeExample(cfg: Config)
    ensures var attr := Attribute(Some(XSI_NS), Some("xsi"), "type", "a", true, map[], []);
      var control := Element(None, None, "e", [attr], []);
      var test := Element(None, None, "e", [], []);
      CompareXsiTypeAsWritten(XsiTypeOf(control), XsiTypeOf(test), Contexts([], []), cfg).Threw?
  {
    var attr := Attribute(Some(XSI_NS), Some("xsi"), "type", "a", true, map[], []);
    var control := Element(None, None, "e", [attr], []);
    var test := Element(None, None, "e", [], []);
    assert XsiTypeOf(control) == Some(attr) by {
      SplitAttributesSpec([attr]);
      assert attr in [attr] && HasName(attr, XSI_NS, "type");
    }
    assert XsiTypeOf(test) == None by {
      SplitAttributesSpec([]);
    }
    OneSidedXsiTypeThrows(XsiTypeOf(control), XsiTypeOf(test), Contexts([], []), cfg);
  }

  /** Everywhere else the code as written and the corrected form agree. */
  lemma XsiTypeAsWrittenAgrees(ca: Option<Node>, ta: Option<Node>, ctx: Contexts, cfg: Config)
    requires ca.Some? == ta.Some?
    ensures CompareXsiTypeAsWritten(ca, ta, ctx, cfg) == Returned(CompareXsiType(ca, ta, ctx, cfg))
  {
    if ca.Some? {
      var inAttr := Contexts(AttrPath(ctx.control, ca), AttrPath(ctx.test, ta));
      var cs := XsiComparisons(ca.value, ta.value, ctx);
      ChainOfThree(cs, cfg, inAttr);
      assert CompareXsiType(ca, ta, ctx, cfg) == XsiBoth(ca.value, ta.value, ctx, cfg);
    }
  }

  /** Three comparisons chained by hand make the same run as CompareAll */
  lemma ChainOfThree(cs: seq<Comparison>, cfg: Config, ctx: Contexts)
    requires |cs| == 3
    ensures AndIfTrueThen(AndIfTrueThen(Compare(cs[0], cfg, ctx), true, Comparer(cs[1], cfg)), true, Comparer(cs[2], cfg))
            == CompareAll(cs, cfg, ctx)
  {
    assert cs[..1] == [cs[0]] && cs[..2] == cs[..1] + [cs[1]] && cs[..3] == cs;
    assert cs[..1][..0] == [];
    assert CompareAll(cs[..1], cfg, ctx) == Compare(cs[0], cfg, ctx) by {
      assert [] + Compare(cs[0], cfg, ctx).events == Compare(cs[0], cfg, ctx).events;
    }
  }
}
