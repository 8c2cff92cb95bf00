/** The name lookups NormalAttributeComparer and
    ControlAttributePresentComparer report: one per normal control
    attribute, then one per normal test attribute nobody matched. */
module Lookups {
  import opened Dom
  import opened Comparisons
  import opened Engine
  import opened Attributes
  import opened Walk
  import opened Properties

  /** The events reporting an attribute name lookup */
  function NameLookup(): Event -> bool {
    (e: Event) => e.comparison.kind == AttrNameLookup
  }

  /** A DOM element's attribute map holds attribute nodes only */
  predicate AllAttributes(n: Node) {
    forall a :: a in AttributesOf(n) ==> a.Attribute?
  }

  /** The lookup of the i-th normal control attribute, at its location
      below `ctx`, naming its counterpart if it has one */
  function ControlLookup(c: Node, t: Node, ctx: Contexts, i: nat): Comparison
    requires i < |Remaining(c)|
  {
    var ca := Remaining(c)[i];
    var tr := Remaining(t);
    AttributeLookup(c, t, ca, At(tr, FindMatchingAttr(tr, ca)),
                    ctx.(control := ctx.control + [AttributeStep(QNameOf(ca))]))
  }

  /** The lookups of the normal control attributes from the i-th on */
  function ControlLookupsFrom(c: Node, t: Node, ctx: Contexts, i: nat): seq<Comparison>
    decreases |Remaining(c)| - i
  {
    if i >= |Remaining(c)| then [] else [ControlLookup(c, t, ctx, i)] + ControlLookupsFrom(c, t, ctx, i + 1)
  }

  /** The positions of the test attributes matched by the normal control
      attributes from the i-th on */
  function Matched(c: Node, t: Node, i: nat): set<nat>
    decreases |Remaining(c)| - i
  {
    if i >= |Remaining(c)| then {}
    else
      var m := FindMatchingAttr(Remaining(t), Remaining(c)[i]);
      (if m.Some? then {m.value} else {}) + Matched(c, t, i + 1)
  }

  /** The lookups of the normal test attributes from the j-th on that are
      not in `found`, each at its location below `ctx` */
  function UnfoundLookups(c: Node, t: Node, found: set<nat>, ctx: Contexts, j: nat): seq<Comparison>
    decreases |Remaining(t)| - j
  {
    if j >= |Remaining(t)| then []
    else
      var ta := Remaining(t)[j];
      (if j in found then []
       else [UnfoundLookup(c, t, ta, ctx.(test := ctx.test + [AttributeStep(QNameOf(ta))]))])
      + UnfoundLookups(c, t, found, ctx, j + 1)
  }

  /** A control attribute's lookup names no test attribute exactly when
      none matches it. */
  lemma ControlLookupNull(c: Node, t: Node, ctx: Contexts, i: nat)
    requires i < |Remaining(c)|
    ensures var ca := Remaining(c)[i];
      && (ControlLookup(c, t, ctx, i).test.value == Null
          <==> forall ta :: ta in Remaining(t) ==> !AttrMatches(ta, ca))
      && ControlLookup(c, t, ctx, i).control.value == Name(QNameOf(ca))
  {
  }

  // ----- one round of each loop -----

  /** The walk of two matched attributes reports no lookup */
  lemma AttributePairAdds(ca: Node, ta: Node, chain: Run, base: Contexts, cfg: Config)
    requires ca.Attribute?
    requires |base.control| <= |chain.contexts.control| && |base.test| <= |chain.contexts.test|
    ensures Adds(chain, AttributePair(ca, ta, chain, base, cfg), NameLookup(), [])
  {
    var here := chain.contexts;
    var inner := chain.(contexts := here.(test := here.test + [AttributeStep(QNameOf(ta))]));
    if !chain.outcome.abort {
      var n := CompareNodes(ca, ta, inner.contexts, cfg);
      assert AttributePair(ca, ta, chain, base, cfg).events == chain.events + n.events;
      AttributeWalkHasNoLookups(ca, ta, inner.contexts, cfg);
      CmpsWhereAppend(chain.events, n.events, NameLookup());
      CmpsWhereNone(n.events, NameLookup());
    }
  }

  /** One round of NormalAttributeComparer's loop reports exactly the
      lookup of its control attribute. */
  lemma ControlAttributeAdds(c: Node, t: Node, i: nat, chain: Run, cfg: Config)
    requires i < |Remaining(c)| && AllAttributes(c)
    ensures Adds(chain, ControlAttribute(c, t, i, chain, cfg), NameLookup(), [ControlLookup(c, t, chain.contexts, i)])
  {
    var ca := Remaining(c)[i];
    var here := chain.contexts;
    var inAttr := here.(control := here.control + [AttributeStep(QNameOf(ca))]);
    var lookup := ControlLookup(c, t, here, i);
    StepAdds(chain, lookup, cfg, inAttr, NameLookup());
    if FindMatchingAttr(Remaining(t), ca).None? {
      var r1 := AndThen(chain.(contexts := inAttr), Comparer(lookup, cfg));
      var r := ControlAttribute(c, t, i, chain, cfg);
      assert r.events == r1.events && r.outcome == r1.outcome;
    } else {
      MatchedAttributeAdds(c, t, i, chain, cfg);
    }
  }

  /** The round of a control attribute that has a counterpart */
  lemma MatchedAttributeAdds(c: Node, t: Node, i: nat, chain: Run, cfg: Config)
    requires i < |Remaining(c)| && AllAttributes(c)
    requires FindMatchingAttr(Remaining(t), Remaining(c)[i]).Some?
    ensures Adds(chain, ControlAttribute(c, t, i, chain, cfg), NameLookup(), [ControlLookup(c, t, chain.contexts, i)])
  {
    var tr := Remaining(t);
    var ca := Remaining(c)[i];
    assert ca in AttributesOf(c);
    var here := chain.contexts;
    PairedAttribute(c, t, i, chain, cfg);
    LookupThenPair(chain, ControlLookup(c, t, here, i), cfg,
                   here.(control := here.control + [AttributeStep(QNameOf(ca))]),
                   ca, tr[FindMatchingAttr(tr, ca).value]);
  }

  /** A name lookup made at an attribute's location, followed by the walk
      of that attribute and its counterpart, adds just the lookup */
  lemma LookupThenPair(chain: Run, lookup: Comparison, cfg: Config, inAttr: Contexts, ca: Node, ta: Node)
    requires ca.Attribute? && lookup.kind == AttrNameLookup
    requires |chain.contexts.control| <= |inAttr.control| && |chain.contexts.test| <= |inAttr.test|
    ensures var r1 := AndThen(chain.(contexts := inAttr), Comparer(lookup, cfg));
      Adds(chain, AttributePair(ca, ta, r1, chain.contexts, cfg), NameLookup(), [lookup])
  {
    var r1 := AndThen(chain.(contexts := inAttr), Comparer(lookup, cfg));
    StepAdds(chain, lookup, cfg, inAttr, NameLookup());
    AttributePairAdds(ca, ta, r1, chain.contexts, cfg);
    AddsThen(chain, r1, AttributePair(ca, ta, r1, chain.contexts, cfg), NameLookup(), [lookup], []);
    assert [lookup] + [] == [lookup];
  }

  /** The round of a matched control attribute is its lookup, then the
      walk of the pair */
  lemma PairedAttribute(c: Node, t: Node, i: nat, chain: Run, cfg: Config)
    requires i < |Remaining(c)|
    requires FindMatchingAttr(Remaining(t), Remaining(c)[i]).Some?
    ensures var ca := Remaining(c)[i];
      var here := chain.contexts;
      var inAttr := here.(control := here.control + [AttributeStep(QNameOf(ca))]);
      var r1 := AndThen(chain.(contexts := inAttr), Comparer(ControlLookup(c, t, here, i), cfg));
      var r2 := AttributePair(ca, Remaining(t)[FindMatchingAttr(Remaining(t), ca).value], r1, here, cfg);
      && ControlAttribute(c, t, i, chain, cfg).events == r2.events
      && ControlAttribute(c, t, i, chain, cfg).outcome == r2.outcome
  {
  }

  /** One round of ControlAttributePresentComparer's loop reports the
      lookup of its test attribute. */
  lemma UnfoundAdds(c: Node, t: Node, ta: Node, chain: Run, cfg: Config)
    ensures var here := chain.contexts;
      Adds(chain, Unfound(c, t, ta, chain, cfg), NameLookup(),
           [UnfoundLookup(c, t, ta, here.(test := here.test + [AttributeStep(QNameOf(ta))]))])
  {
    var here := chain.contexts;
    var inAttr := here.(test := here.test + [AttributeStep(QNameOf(ta))]);
    var lookup := UnfoundLookup(c, t, ta, inAttr);
    var r1 := AndThen(chain.(contexts := inAttr), Comparer(lookup, cfg));
    StepAdds(chain, lookup, cfg, inAttr, NameLookup());
    var r := Unfound(c, t, ta, chain, cfg);
    assert r.events == r1.events && r.outcome == r1.outcome;
  }

  // ----- the two loops -----

  /** What the control loop does from the i-th attribute on: the test
      positions it matches, and the lookups it reports. */
  predicate ScanFrom(c: Node, t: Node, i: nat, chain: Run, found: set<nat>, cfg: Config) {
    var s := ControlAttributes(c, t, i, chain, found, cfg);
    && s.found == found + Matched(c, t, i)
    && Adds(chain, s.run, NameLookup(), ControlLookupsFrom(c, t, chain.contexts, i))
  }

  lemma {:induction false} ControlAttributesAdds(c: Node, t: Node, i: nat, chain: Run, found: set<nat>, cfg: Config)
    requires AllAttributes(c)
    ensures ScanFrom(c, t, i, chain, found, cfg)
    decreases |Remaining(c)| - i
  {
    if i >= |Remaining(c)| {
      ScanEnd(c, t, i, chain, found, cfg);
    } else {
      var m := FindMatchingAttr(Remaining(t), Remaining(c)[i]);
      var next := ControlAttribute(c, t, i, chain, cfg);
      ControlAttributesAdds(c, t, i + 1, next, if m.Some? then found + {m.value} else found, cfg);
      ControlAttributesRound(c, t, i, chain, found, cfg);
    }
  }

  /** Past the last control attribute the loop does nothing */
  lemma ScanEnd(c: Node, t: Node, i: nat, chain: Run, found: set<nat>, cfg: Config)
    requires i >= |Remaining(c)|
    ensures ScanFrom(c, t, i, chain, found, cfg)
  {
    assert ControlAttributes(c, t, i, chain, found, cfg) == Scan(chain, found);
    assert found + {} == found;
  }

  lemma ControlAttributesRound(c: Node, t: Node, i: nat, chain: Run, found: set<nat>, cfg: Config)
    requires i < |Remaining(c)| && AllAttributes(c)
    requires var m := FindMatchingAttr(Remaining(t), Remaining(c)[i]);
      ScanFrom(c, t, i + 1, ControlAttribute(c, t, i, chain, cfg), if m.Some? then found + {m.value} else found, cfg)
    ensures ScanFrom(c, t, i, chain, found, cfg)
  {
    var m := FindMatchingAttr(Remaining(t), Remaining(c)[i]);
    var next := ControlAttribute(c, t, i, chain, cfg);
    var found' := if m.Some? then found + {m.value} else found;
    var s := ControlAttributes(c, t, i + 1, next, found', cfg);
    assert ControlAttributes(c, t, i, chain, found, cfg) == s;
    ControlAttributeAdds(c, t, i, chain, cfg);
    MatchedRecords(c, t, i, chain.contexts, found);
    ScanAfter(s, chain, next, found + Matched(c, t, i), [ControlLookup(c, t, chain.contexts, i)],
              ControlLookupsFrom(c, t, chain.contexts, i + 1));
  }

  lemma MatchedRecords(c: Node, t: Node, i: nat, ctx: Contexts, found: set<nat>)
    requires i < |Remaining(c)|
    ensures var m := FindMatchingAttr(Remaining(t), Remaining(c)[i]);
      && (if m.Some? then found + {m.value} else found) + Matched(c, t, i + 1) == found + Matched(c, t, i)
      && ControlLookupsFrom(c, t, ctx, i) == [ControlLookup(c, t, ctx, i)] + ControlLookupsFrom(c, t, ctx, i + 1)
  {
  }

  /** A scan that describes the loop after one round, together with what
      that round added, describes the loop from before the round. */
  lemma ScanAfter(s: Scan, chain: Run, next: Run, found: set<nat>, x: seq<Comparison>, y: seq<Comparison>)
    requires s.found == found
    requires Adds(chain, next, NameLookup(), x) && Adds(next, s.run, NameLookup(), y)
    ensures s.found == found && Adds(chain, s.run, NameLookup(), x + y)
  {
    AddsThen(chain, next, s.run, NameLookup(), x, y);
  }

  /** What the test loop does from the j-th attribute on: one lookup per
      attribute not in `found`. */
  predicate UnfoundScan(c: Node, t: Node, found: set<nat>, j: nat, chain: Run, cfg: Config) {
    Adds(chain, UnfoundFrom(c, t, found, j, chain, cfg), NameLookup(), UnfoundLookups(c, t, found, chain.contexts, j))
  }

  /** The test loop from the j-th attribute on reports one lookup per
      attribute not in `found`. */
  lemma {:induction false} UnfoundFromAdds(c: Node, t: Node, found: set<nat>, j: nat, chain: Run, cfg: Config)
    ensures UnfoundScan(c, t, found, j, chain, cfg)
    decreases |Remaining(t)| - j
  {
    if j >= |Remaining(t)| {
      UnfoundEnd(c, t, found, j, chain, cfg);
    } else {
      UnfoundFromAdds(c, t, found, j + 1, UnfoundNext(c, t, found, j, chain, cfg), cfg);
      UnfoundStep(c, t, found, j, chain, cfg);
    }
  }

  /** The chain the test loop goes on with after its j-th attribute */
  function UnfoundNext(c: Node, t: Node, found: set<nat>, j: nat, chain: Run, cfg: Config): Run
    requires j < |Remaining(t)|
  {
    if j in found then chain else Unfound(c, t, Remaining(t)[j], chain, cfg)
  }

  lemma UnfoundStep(c: Node, t: Node, found: set<nat>, j: nat, chain: Run, cfg: Config)
    requires j < |Remaining(t)|
    requires UnfoundScan(c, t, found, j + 1, UnfoundNext(c, t, found, j, chain, cfg), cfg)
    ensures UnfoundScan(c, t, found, j, chain, cfg)
  {
    if j in found {
      UnfoundSkip(c, t, found, j, chain, cfg);
    } else {
      UnfoundRound(c, t, found, j, chain, cfg);
    }
  }

  /** Past the last test attribute the loop does nothing */
  lemma UnfoundEnd(c: Node, t: Node, found: set<nat>, j: nat, chain: Run, cfg: Config)
    requires j >= |Remaining(t)|
    ensures UnfoundScan(c, t, found, j, chain, cfg)
  {
    assert UnfoundFrom(c, t, found, j, chain, cfg) == chain;
    assert UnfoundLookups(c, t, found, chain.contexts, j) == [];
  }

  /** A found test attribute is passed over */
  lemma UnfoundSkip(c: Node, t: Node, found: set<nat>, j: nat, chain: Run, cfg: Config)
    requires j < |Remaining(t)| && j in found
    requires UnfoundScan(c, t, found, j + 1, chain, cfg)
    ensures UnfoundScan(c, t, found, j, chain, cfg)
  {
    SkippedUnfound(c, t, found, j, chain, cfg);
    SkippedUnfoundRecords(c, t, found, chain.contexts, j);
  }

  lemma SkippedUnfound(c: Node, t: Node, found: set<nat>, j: nat, chain: Run, cfg: Config)
    requires j < |Remaining(t)| && j in found
    ensures UnfoundFrom(c, t, found, j, chain, cfg) == UnfoundFrom(c, t, found, j + 1, chain, cfg)
  {
  }

  lemma SkippedUnfoundRecords(c: Node, t: Node, found: set<nat>, ctx: Contexts, j: nat)
    requires j < |Remaining(t)| && j in found
    ensures UnfoundLookups(c, t, found, ctx, j) == UnfoundLookups(c, t, found, ctx, j + 1)
  {
    assert UnfoundLookups(c, t, found, ctx, j) == [] + UnfoundLookups(c, t, found, ctx, j + 1);
  }

  /** A test attribute nobody found is looked up, then the loop goes on */
  lemma UnfoundRound(c: Node, t: Node, found: set<nat>, j: nat, chain: Run, cfg: Config)
    requires j < |Remaining(t)| && j !in found
    requires UnfoundScan(c, t, found, j + 1, Unfound(c, t, Remaining(t)[j], chain, cfg), cfg)
    ensures UnfoundScan(c, t, found, j, chain, cfg)
  {
    var here := chain.contexts;
    var ta := Remaining(t)[j];
    var next := Unfound(c, t, ta, chain, cfg);
    var lookup := UnfoundLookup(c, t, ta, here.(test := here.test + [AttributeStep(QNameOf(ta))]));
    TakenUnfound(c, t, found, j, chain, cfg);
    TakenUnfoundRecords(c, t, found, here, j);
    UnfoundAdds(c, t, ta, chain, cfg);
    AddsThen(chain, next, UnfoundFrom(c, t, found, j + 1, next, cfg), NameLookup(),
             [lookup], UnfoundLookups(c, t, found, here, j + 1));
  }

  lemma TakenUnfound(c: Node, t: Node, found: set<nat>, j: nat, chain: Run, cfg: Config)
    requires j < |Remaining(t)| && j !in found
    ensures UnfoundFrom(c, t, found, j, chain, cfg)
         == UnfoundFrom(c, t, found, j + 1, Unfound(c, t, Remaining(t)[j], chain, cfg), cfg)
  {
  }

  lemma TakenUnfoundRecords(c: Node, t: Node, found: set<nat>, ctx: Contexts, j: nat)
    requires j < |Remaining(t)| && j !in found
    ensures var ta := Remaining(t)[j];
      UnfoundLookups(c, t, found, ctx, j)
      == [UnfoundLookup(c, t, ta, ctx.(test := ctx.test + [AttributeStep(QNameOf(ta))]))]
         + UnfoundLookups(c, t, found, ctx, j + 1)
  {
  }

  // ----- the whole comparer -----

  /** The normal attributes of two elements: one lookup per control
      attribute, in order, naming its counterpart or nothing; then one
      lookup per test attribute no control attribute matched, in order.
      The walks of matched pairs report no lookups of their own. */
  lemma NormalAttributeLookups(c: Node, t: Node, ctx: Contexts, cfg: Config)
    requires AllAttributes(c)
    ensures var r := NormalAttributes(c, t, ctx, cfg);
      !r.outcome.abort ==>
        CmpsWhere(r.events, NameLookup()) ==
          ControlLookupsFrom(c, t, ctx, 0) + UnfoundLookups(c, t, Matched(c, t, 0), ctx, 0)
  {
    var s := ControlAttributes(c, t, 0, NewChain(ctx), {}, cfg);
    var present := PresentComparer(c, t, s.found, cfg);
    var r := AndThen(s.run, present);
    ControlAttributesAdds(c, t, 0, NewChain(ctx), {}, cfg);
    assert ScanFrom(c, t, 0, NewChain(ctx), {}, cfg);
    assert s.found == Matched(c, t, 0);
    UnfoundFromAdds(c, t, s.found, 0, NewChain(ctx), cfg);
    ThenAdds(s.run, present, NameLookup(), UnfoundLookups(c, t, s.found, ctx, 0));
    AddsThen(NewChain(ctx), s.run, r, NameLookup(), ControlLookupsFrom(c, t, ctx, 0),
             UnfoundLookups(c, t, s.found, ctx, 0));
  }
}
