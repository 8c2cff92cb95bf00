/** The complete logs of the walk: every comparison compareChildren,
    NormalAttributeComparer, compareElementAttributes and compareNodes make,
    in order, including the walks of the matched child and attribute pairs.

    Each statement is a `Follows`: a run that was not stopped made exactly
    these comparisons, and a stopped run made a prefix of them. */
module Logs {
  import opened Dom
  import opened Comparisons
  import opened Engine
  import opened Attributes
  import opened Walk
  import opened Properties
  import opened Lookups

  // ----- one step of a chain -----

  /** What follows a run is the same however it is grouped */
  lemma FollowsRegroup(r: Run, a: seq<Comparison>, x: seq<Comparison>, y: seq<Comparison>)
    requires Follows(r, a + x + y)
    ensures Follows(r, a + (x + y))
  {
    assert a + x + y == a + (x + y);
  }

  /** ... and however its middle is grouped */
  lemma FollowsSplice(r: Run, a: seq<Comparison>, x: seq<Comparison>, y: seq<Comparison>, z: seq<Comparison>)
    requires Follows(r, a + (x + y) + z)
    ensures Follows(r, a + x + y + z)
  {
    assert a + (x + y) == a + x + y;
  }

  /** A comparison made on a chain, at any locations, comes right after
      what the chain made so far. */
  lemma StepFollows(chain: Run, comp: Comparison, cfg: Config, inner: Contexts, a: seq<Comparison>)
    requires Follows(chain, a)
    ensures Follows(AndThen(chain.(contexts := inner), Comparer(comp, cfg)), a + [comp])
  {
    CompareFollows(comp, cfg, inner);
    FollowsThen(chain.(contexts := inner), Comparer(comp, cfg), a, [comp]);
  }

  /** The walk of two paired nodes comes right after what the chain made */
  lemma NodePairFollows(cn: Node, tn: Node, chain: Run, base: Contexts, cfg: Config,
                        a: seq<Comparison>, b: seq<Comparison>)
    requires |base.control| <= |chain.contexts.control| && |base.test| <= |chain.contexts.test|
    requires Follows(chain, a)
    requires Follows(CompareNodes(cn, tn, chain.contexts, cfg), b)
    ensures Follows(NodePair(cn, tn, chain, base, cfg), a + b)
  {
    if !chain.outcome.abort {
      CmpsAppend(chain.events, CompareNodes(cn, tn, chain.contexts, cfg).events);
    }
  }

  // ----- child lists -----

  /** What the k-th pair of the matcher makes: its sequence comparison,
      then the whole walk of the two children, both at the children's
      locations below `ctx`. */
  function PairWalk(c: Node, t: Node, cfg: Config, ctx: Contexts, k: nat): seq<Comparison>
    requires k < |Pairs(c, t, cfg)| && PairInRange(c, t, cfg, k)
  {
    var i := Pairs(c, t, cfg)[k].0;
    var j := Pairs(c, t, cfg)[k].1;
    var inChild := Contexts(ctx.control + [ChildStep(i)], ctx.test + [ChildStep(j)]);
    [SequenceComparison(ChildList(c)[i], ChildList(t)[j], i, j, inChild)]
    + Cmps(CompareNodes(ChildList(c)[i], ChildList(t)[j], inChild, cfg).events)
  }

  /** The k-th pair's part: its walk when it names two children, nothing
      otherwise */
  function PairPart(c: Node, t: Node, cfg: Config, ctx: Contexts, k: nat): seq<Comparison>
    requires k < |Pairs(c, t, cfg)|
  {
    if PairInRange(c, t, cfg, k) then PairWalk(c, t, cfg, ctx, k) else []
  }

  /** The parts of the pairs from the k-th on */
  function PairWalks(c: Node, t: Node, cfg: Config, ctx: Contexts, k: nat): seq<Comparison>
    decreases |Pairs(c, t, cfg)| - k
  {
    if k >= |Pairs(c, t, cfg)| then []
    else PairPart(c, t, cfg, ctx, k) + PairWalks(c, t, cfg, ctx, k + 1)
  }

  /** Everything compareChildren makes: the matched pairs, each with the
      walk of its two children, then a lookup per unpaired control child,
      then a lookup per unpaired test child. */
  function ChildComparisons(c: Node, t: Node, cfg: Config, ctx: Contexts): seq<Comparison> {
    PairWalks(c, t, cfg, ctx, 0)
    + ControlLookups(ChildList(c), PairedControls(c, t, cfg, 0), ctx.control, 0)
    + TestLookups(ChildList(t), PairedTests(c, t, cfg, 0), ctx.test, 0)
  }

  /** One round of the pair loop: the sequence comparison, then the walk of
      the two children. */
  lemma MatchedPairFollows(c: Node, t: Node, k: nat, chain: Run, cfg: Config, a: seq<Comparison>)
    requires k < |Pairs(c, t, cfg)| && PairInRange(c, t, cfg, k)
    requires Follows(chain, a)
    ensures Follows(MatchedPair(c, t, k, chain, cfg), a + PairWalk(c, t, cfg, chain.contexts, k))
  {
    var cc := ChildList(c);
    var tc := ChildList(t);
    var i := Pairs(c, t, cfg)[k].0;
    var j := Pairs(c, t, cfg)[k].1;
    var here := chain.contexts;
    var inChild := Contexts(here.control + [ChildStep(i)], here.test + [ChildStep(j)]);
    var sequence := SequenceComparison(cc[i], tc[j], i, j, inChild);
    var r1 := AndThen(chain.(contexts := inChild), Comparer(sequence, cfg));
    var nested := Cmps(CompareNodes(cc[i], tc[j], inChild, cfg).events);
    assert Follows(NodePair(cc[i], tc[j], r1, here, cfg), a + [sequence] + nested) by {
      StepFollows(chain, sequence, cfg, inChild, a);
      assert Follows(CompareNodes(cc[i], tc[j], inChild, cfg), nested);
      NodePairFollows(cc[i], tc[j], r1, here, cfg, a + [sequence], nested);
    }
    var r := MatchedPair(c, t, k, chain, cfg);
    assert Follows(r, a + [sequence] + nested) by {
      var r2 := NodePair(cc[i], tc[j], r1, here, cfg);
      assert r.events == r2.events && r.outcome == r2.outcome;
    }
    FollowsRegroup(r, a, [sequence], nested);
  }

  /** The chain after the k-th pair comes right after its part */
  lemma PairNextFollows(c: Node, t: Node, k: nat, chain: Run, cfg: Config, a: seq<Comparison>)
    requires k < |Pairs(c, t, cfg)|
    requires Follows(chain, a)
    ensures Follows(PairNext(c, t, k, chain, cfg), a + PairPart(c, t, cfg, chain.contexts, k))
  {
    if PairInRange(c, t, cfg, k) {
      MatchedPairFollows(c, t, k, chain, cfg, a);
    } else {
      assert a + [] == a;
    }
  }

  predicate PairsFollow(c: Node, t: Node, k: nat, chain: Run, sc: set<nat>, st: set<nat>, cfg: Config, a: seq<Comparison>) {
    Follows(MatchedPairs(c, t, k, chain, sc, st, cfg).run, a + PairWalks(c, t, cfg, chain.contexts, k))
  }

  /** The pair loop from the k-th pair on makes the parts of those pairs, in
      the matcher's order: every pair that names two children is walked,
      and no other. */
  lemma {:induction false} MatchedPairsFollow(c: Node, t: Node, k: nat, chain: Run,
                                              sc: set<nat>, st: set<nat>, cfg: Config, a: seq<Comparison>)
    requires Follows(chain, a)
    ensures PairsFollow(c, t, k, chain, sc, st, cfg, a)
    decreases |Pairs(c, t, cfg)| - k
  {
    if k >= |Pairs(c, t, cfg)| {
      PairsFollowEnd(c, t, k, chain, sc, st, cfg, a);
    } else {
      PairNextFollows(c, t, k, chain, cfg, a);
      MatchedPairsFollow(c, t, k + 1, PairNext(c, t, k, chain, cfg),
                         SeenNext(sc, Pairs(c, t, cfg)[k].0, PairInRange(c, t, cfg, k)),
                         SeenNext(st, Pairs(c, t, cfg)[k].1, PairInRange(c, t, cfg, k)), cfg,
                         a + PairPart(c, t, cfg, chain.contexts, k));
      PairsFollowStep(c, t, k, chain, sc, st, cfg, a);
    }
  }

  lemma PairsFollowEnd(c: Node, t: Node, k: nat, chain: Run, sc: set<nat>, st: set<nat>, cfg: Config, a: seq<Comparison>)
    requires k >= |Pairs(c, t, cfg)|
    requires Follows(chain, a)
    ensures PairsFollow(c, t, k, chain, sc, st, cfg, a)
  {
    assert MatchedPairs(c, t, k, chain, sc, st, cfg) == Pairing(chain, sc, st);
    assert a + [] == a;
  }

  lemma PairsFollowStep(c: Node, t: Node, k: nat, chain: Run, sc: set<nat>, st: set<nat>, cfg: Config, a: seq<Comparison>)
    requires k < |Pairs(c, t, cfg)|
    requires PairsFollow(c, t, k + 1, PairNext(c, t, k, chain, cfg),
                         SeenNext(sc, Pairs(c, t, cfg)[k].0, PairInRange(c, t, cfg, k)),
                         SeenNext(st, Pairs(c, t, cfg)[k].1, PairInRange(c, t, cfg, k)), cfg,
                         a + PairPart(c, t, cfg, chain.contexts, k))
    ensures PairsFollow(c, t, k, chain, sc, st, cfg, a)
  {
    if PairInRange(c, t, cfg, k) {
      TakenPair(c, t, k, chain, sc, st, cfg);
    } else {
      SkippedPair(c, t, k, chain, sc, st, cfg);
    }
    var x := PairPart(c, t, cfg, chain.contexts, k);
    var y := PairWalks(c, t, cfg, chain.contexts, k + 1);
    assert PairWalks(c, t, cfg, chain.contexts, k) == x + y;
    FollowsRegroup(MatchedPairs(c, t, k, chain, sc, st, cfg).run, a, x, y);
  }

  /** The chain the loop over unpaired control children goes on with after
      its i-th child */
  function ControlChildNext(list: seq<Node>, seen: set<nat>, i: nat, chain: Run, cfg: Config): Run
    requires i < |list|
  {
    if i in seen then chain else UnmatchedControl(list, i, chain, cfg)
  }

  /** The lookup the i-th control child adds, if it is unpaired */
  function ControlChildPart(list: seq<Node>, seen: set<nat>, p: Path, i: nat): seq<Comparison>
    requires i < |list|
  {
    if i in seen then [] else [ControlChildLookup(list, i, p)]
  }

  lemma ControlChildNextFollows(list: seq<Node>, seen: set<nat>, i: nat, chain: Run, cfg: Config, a: seq<Comparison>)
    requires i < |list|
    requires Follows(chain, a)
    ensures Follows(ControlChildNext(list, seen, i, chain, cfg), a + ControlChildPart(list, seen, chain.contexts.control, i))
  {
    var here := chain.contexts;
    if i in seen {
      assert a + [] == a;
    } else {
      var lookup := ControlChildLookup(list, i, here.control);
      var inChild := here.(control := here.control + [ChildStep(i)]);
      var r1 := AndThen(chain.(contexts := inChild), Comparer(lookup, cfg));
      StepFollows(chain, lookup, cfg, inChild, a);
      var next := UnmatchedControl(list, i, chain, cfg);
      assert next.events == r1.events && next.outcome == r1.outcome;
    }
  }

  predicate ControlChildrenFollow(list: seq<Node>, seen: set<nat>, i: nat, chain: Run, cfg: Config, a: seq<Comparison>) {
    Follows(UnmatchedControlFrom(list, seen, i, chain, cfg), a + ControlLookups(list, seen, chain.contexts.control, i))
  }

  /** The loop over unpaired control children makes one lookup per child
      it reports. */
  lemma {:induction false} UnmatchedControlFollow(list: seq<Node>, seen: set<nat>, i: nat, chain: Run,
                                                  cfg: Config, a: seq<Comparison>)
    requires Follows(chain, a)
    ensures ControlChildrenFollow(list, seen, i, chain, cfg, a)
    decreases |list| - i
  {
    if i >= |list| {
      ControlChildrenEnd(list, seen, i, chain, cfg, a);
    } else {
      ControlChildNextFollows(list, seen, i, chain, cfg, a);
      UnmatchedControlFollow(list, seen, i + 1, ControlChildNext(list, seen, i, chain, cfg), cfg,
                             a + ControlChildPart(list, seen, chain.contexts.control, i));
      ControlChildrenStep(list, seen, i, chain, cfg, a);
    }
  }

  lemma ControlChildrenEnd(list: seq<Node>, seen: set<nat>, i: nat, chain: Run, cfg: Config, a: seq<Comparison>)
    requires i >= |list|
    requires Follows(chain, a)
    ensures ControlChildrenFollow(list, seen, i, chain, cfg, a)
  {
    assert UnmatchedControlFrom(list, seen, i, chain, cfg) == chain;
    assert a + [] == a;
  }

  lemma ControlChildrenStep(list: seq<Node>, seen: set<nat>, i: nat, chain: Run, cfg: Config, a: seq<Comparison>)
    requires i < |list|
    requires ControlChildrenFollow(list, seen, i + 1, ControlChildNext(list, seen, i, chain, cfg), cfg,
                                   a + ControlChildPart(list, seen, chain.contexts.control, i))
    ensures ControlChildrenFollow(list, seen, i, chain, cfg, a)
  {
    var next := ControlChildNext(list, seen, i, chain, cfg);
    var p := chain.contexts.control;
    assert UnmatchedControlFrom(list, seen, i, chain, cfg) == UnmatchedControlFrom(list, seen, i + 1, next, cfg);
    assert ControlLookups(list, seen, p, i) == ControlChildPart(list, seen, p, i) + ControlLookups(list, seen, p, i + 1);
    FollowsRegroup(UnmatchedControlFrom(list, seen, i, chain, cfg), a, ControlChildPart(list, seen, p, i),
                   ControlLookups(list, seen, p, i + 1));
  }

  /** The chain the loop over unpaired test children goes on with after its
      i-th child */
  function TestChildNext(list: seq<Node>, seen: set<nat>, i: nat, chain: Run, cfg: Config): Run
    requires i < |list|
  {
    if i in seen then chain else UnmatchedTest(list, i, chain, cfg)
  }

  /** The lookup the i-th test child adds, if it is unpaired */
  function TestChildPart(list: seq<Node>, seen: set<nat>, p: Path, i: nat): seq<Comparison>
    requires i < |list|
  {
    if i in seen then [] else [TestChildLookup(list, i, p)]
  }

  lemma TestChildNextFollows(list: seq<Node>, seen: set<nat>, i: nat, chain: Run, cfg: Config, a: seq<Comparison>)
    requires i < |list|
    requires Follows(chain, a)
    ensures Follows(TestChildNext(list, seen, i, chain, cfg), a + TestChildPart(list, seen, chain.contexts.test, i))
  {
    var here := chain.contexts;
    if i in seen {
      assert a + [] == a;
    } else {
      var lookup := TestChildLookup(list, i, here.test);
      var inChild := here.(test := here.test + [ChildStep(i)]);
      var r1 := AndThen(chain.(contexts := inChild), Comparer(lookup, cfg));
      StepFollows(chain, lookup, cfg, inChild, a);
      var next := UnmatchedTest(list, i, chain, cfg);
      assert next.events == r1.events && next.outcome == r1.outcome;
    }
  }

  predicate TestChildrenFollow(list: seq<Node>, seen: set<nat>, i: nat, chain: Run, cfg: Config, a: seq<Comparison>) {
    Follows(UnmatchedTestFrom(list, seen, i, chain, cfg), a + TestLookups(list, seen, chain.contexts.test, i))
  }

  /** The loop over unpaired test children makes one lookup per child it
      reports. */
  lemma {:induction false} UnmatchedTestFollow(list: seq<Node>, seen: set<nat>, i: nat, chain: Run,
                                               cfg: Config, a: seq<Comparison>)
    requires Follows(chain, a)
    ensures TestChildrenFollow(list, seen, i, chain, cfg, a)
    decreases |list| - i
  {
    if i >= |list| {
      TestChildrenEnd(list, seen, i, chain, cfg, a);
    } else {
      TestChildNextFollows(list, seen, i, chain, cfg, a);
      UnmatchedTestFollow(list, seen, i + 1, TestChildNext(list, seen, i, chain, cfg), cfg,
                          a + TestChildPart(list, seen, chain.contexts.test, i));
      TestChildrenStep(list, seen, i, chain, cfg, a);
    }
  }

  lemma TestChildrenEnd(list: seq<Node>, seen: set<nat>, i: nat, chain: Run, cfg: Config, a: seq<Comparison>)
    requires i >= |list|
    requires Follows(chain, a)
    ensures TestChildrenFollow(list, seen, i, chain, cfg, a)
  {
    assert UnmatchedTestFrom(list, seen, i, chain, cfg) == chain;
    assert a + [] == a;
  }

  lemma TestChildrenStep(list: seq<Node>, seen: set<nat>, i: nat, chain: Run, cfg: Config, a: seq<Comparison>)
    requires i < |list|
    requires TestChildrenFollow(list, seen, i + 1, TestChildNext(list, seen, i, chain, cfg), cfg,
                                a + TestChildPart(list, seen, chain.contexts.test, i))
    ensures TestChildrenFollow(list, seen, i, chain, cfg, a)
  {
    var next := TestChildNext(list, seen, i, chain, cfg);
    var p := chain.contexts.test;
    assert UnmatchedTestFrom(list, seen, i, chain, cfg) == UnmatchedTestFrom(list, seen, i + 1, next, cfg);
    assert TestLookups(list, seen, p, i) == TestChildPart(list, seen, p, i) + TestLookups(list, seen, p, i + 1);
    FollowsRegroup(UnmatchedTestFrom(list, seen, i, chain, cfg), a, TestChildPart(list, seen, p, i),
                   TestLookups(list, seen, p, i + 1));
  }

  /** compareChildren makes, in this order and nothing else: for every pair
      the matcher proposes that names two children, the pair's sequence
      comparison followed by the whole walk of the two children; then a
      lookup for every control child no pair names; then one for every
      test child no pair names. */
  lemma ChildListWalk(c: Node, t: Node, ctx: Contexts, cfg: Config)
    ensures Follows(CompareNodeLists(c, t, ctx, cfg), ChildComparisons(c, t, cfg, ctx))
  {
    var p := MatchedPairs(c, t, 0, NewChain(ctx), {}, {}, cfg);
    var pairs := PairWalks(c, t, cfg, ctx, 0);
    var cl := ControlLookups(ChildList(c), p.seenControl, ctx.control, 0);
    var tl := TestLookups(ChildList(t), p.seenTest, ctx.test, 0);
    PairLoopFollows(c, t, ctx, cfg);
    PairsThenControls(c, t, ctx, cfg);
    TestChildrenFollows(ChildList(t), p.seenTest, ctx, cfg);
    FollowsThen(AndThen(p.run, UnmatchedControlComparer(ChildList(c), p.seenControl, cfg)),
                UnmatchedTestComparer(ChildList(t), p.seenTest, cfg), pairs + cl, tl);
  }

  /** The pair loop, then the unmatched control children */
  lemma PairsThenControls(c: Node, t: Node, ctx: Contexts, cfg: Config)
    ensures var p := MatchedPairs(c, t, 0, NewChain(ctx), {}, {}, cfg);
      Follows(AndThen(p.run, UnmatchedControlComparer(ChildList(c), p.seenControl, cfg)),
              PairWalks(c, t, cfg, ctx, 0) + ControlLookups(ChildList(c), p.seenControl, ctx.control, 0))
  {
    var p := MatchedPairs(c, t, 0, NewChain(ctx), {}, {}, cfg);
    PairLoopFollows(c, t, ctx, cfg);
    ControlChildrenFollows(ChildList(c), p.seenControl, ctx, cfg);
    FollowsThen(p.run, UnmatchedControlComparer(ChildList(c), p.seenControl, cfg), PairWalks(c, t, cfg, ctx, 0),
                ControlLookups(ChildList(c), p.seenControl, ctx.control, 0));
  }

  /** The pair loop makes the parts of all pairs and records the positions
      the pairs name */
  lemma PairLoopFollows(c: Node, t: Node, ctx: Contexts, cfg: Config)
    ensures var p := MatchedPairs(c, t, 0, NewChain(ctx), {}, {}, cfg);
      && Follows(p.run, PairWalks(c, t, cfg, ctx, 0))
      && p.seenControl == PairedControls(c, t, cfg, 0) && p.seenTest == PairedTests(c, t, cfg, 0)
  {
    var p := MatchedPairs(c, t, 0, NewChain(ctx), {}, {}, cfg);
    MatchedPairsFollow(c, t, 0, NewChain(ctx), {}, {}, cfg, []);
    FollowsFromStart(p.run, PairWalks(c, t, cfg, ctx, 0));
    MatchedPairsOwn(c, t, 0, NewChain(ctx), {}, {}, cfg);
    assert {} + PairedControls(c, t, cfg, 0) == PairedControls(c, t, cfg, 0);
    assert {} + PairedTests(c, t, cfg, 0) == PairedTests(c, t, cfg, 0);
  }

  lemma ControlChildrenFollows(list: seq<Node>, seen: set<nat>, ctx: Contexts, cfg: Config)
    ensures Follows(UnmatchedControlNodes(list, seen, ctx, cfg), ControlLookups(list, seen, ctx.control, 0))
  {
    UnmatchedControlFollow(list, seen, 0, NewChain(ctx), cfg, []);
    FollowsFromStart(UnmatchedControlNodes(list, seen, ctx, cfg), ControlLookups(list, seen, ctx.control, 0));
  }

  lemma TestChildrenFollows(list: seq<Node>, seen: set<nat>, ctx: Contexts, cfg: Config)
    ensures Follows(UnmatchedTestNodes(list, seen, ctx, cfg), TestLookups(list, seen, ctx.test, 0))
  {
    UnmatchedTestFollow(list, seen, 0, NewChain(ctx), cfg, []);
    FollowsFromStart(UnmatchedTestNodes(list, seen, ctx, cfg), TestLookups(list, seen, ctx.test, 0));
  }

  // ----- the attributes of two elements -----

  /** The locations of a control attribute and its counterpart below `ctx` */
  function PairLocations(ctx: Contexts, ca: Node, ta: Node): Contexts {
    Contexts(ctx.control + [AttributeStep(QNameOf(ca))], ctx.test + [AttributeStep(QNameOf(ta))])
  }

  /** What the round of the i-th normal control attribute makes: its name
      lookup and, only when it has a counterpart, the walk of the two
      attributes at their locations. */
  function ControlRound(c: Node, t: Node, ctx: Contexts, i: nat): seq<Comparison>
    requires i < |Remaining(c)|
  {
    var ca := Remaining(c)[i];
    var tr := Remaining(t);
    var m := FindMatchingAttr(tr, ca);
    [ControlLookup(c, t, ctx, i)]
    + (if m.Some? then AttributeWalkComparisons(ca, tr[m.value], PairLocations(ctx, ca, tr[m.value])) else [])
  }

  /** The rounds of the normal control attributes from the i-th on */
  function ControlRounds(c: Node, t: Node, ctx: Contexts, i: nat): seq<Comparison>
    decreases |Remaining(c)| - i
  {
    if i >= |Remaining(c)| then [] else ControlRound(c, t, ctx, i) + ControlRounds(c, t, ctx, i + 1)
  }

  /** Everything NormalAttributeComparer makes: the control rounds, then the
      lookups of the test attributes no control attribute matched. */
  function NormalAttributeComparisons(c: Node, t: Node, ctx: Contexts): seq<Comparison> {
    ControlRounds(c, t, ctx, 0) + UnfoundLookups(c, t, Matched(c, t, 0), ctx, 0)
  }

  /** The walk of two matched attributes comes right after the chain */
  lemma AttributePairFollows(ca: Node, ta: Node, chain: Run, base: Contexts, cfg: Config, a: seq<Comparison>)
    requires ca.Attribute?
    requires |base.control| <= |chain.contexts.control| && |base.test| <= |chain.contexts.test|
    requires Follows(chain, a)
    ensures Follows(AttributePair(ca, ta, chain, base, cfg),
                    a + AttributeWalkComparisons(ca, ta, chain.contexts.(test := chain.contexts.test + [AttributeStep(QNameOf(ta))])))
  {
    var here := chain.contexts;
    var inner := chain.(contexts := here.(test := here.test + [AttributeStep(QNameOf(ta))]));
    AttributeWalk(ca, ta, inner.contexts, cfg);
    NodePairFollows(ca, ta, inner, base, cfg, a, AttributeWalkComparisons(ca, ta, inner.contexts));
    var n := NodePair(ca, ta, inner, base, cfg);
    var r := AttributePair(ca, ta, chain, base, cfg);
    assert r.events == n.events && r.outcome == n.outcome;
  }

  /** One round of the control loop */
  lemma ControlAttributeFollows(c: Node, t: Node, i: nat, chain: Run, cfg: Config, a: seq<Comparison>)
    requires i < |Remaining(c)| && AllAttributes(c)
    requires Follows(chain, a)
    ensures Follows(ControlAttribute(c, t, i, chain, cfg), a + ControlRound(c, t, chain.contexts, i))
  {
    if FindMatchingAttr(Remaining(t), Remaining(c)[i]).None? {
      UnpairedAttributeFollows(c, t, i, chain, cfg, a);
    } else {
      PairedAttributeFollows(c, t, i, chain, cfg, a);
    }
  }

  /** A control attribute without a counterpart is only looked up */
  lemma UnpairedAttributeFollows(c: Node, t: Node, i: nat, chain: Run, cfg: Config, a: seq<Comparison>)
    requires i < |Remaining(c)| && FindMatchingAttr(Remaining(t), Remaining(c)[i]).None?
    requires Follows(chain, a)
    ensures Follows(ControlAttribute(c, t, i, chain, cfg), a + ControlRound(c, t, chain.contexts, i))
  {
    var ca := Remaining(c)[i];
    var here := chain.contexts;
    var inAttr := here.(control := here.control + [AttributeStep(QNameOf(ca))]);
    var lookup := ControlLookup(c, t, here, i);
    var r1 := AndThen(chain.(contexts := inAttr), Comparer(lookup, cfg));
    StepFollows(chain, lookup, cfg, inAttr, a);
    var r := ControlAttribute(c, t, i, chain, cfg);
    assert r.events == r1.events && r.outcome == r1.outcome;
    assert ControlRound(c, t, here, i) == [lookup] + [];
  }

  /** A control attribute with a counterpart is looked up, then walked
      together with it */
  lemma PairedAttributeFollows(c: Node, t: Node, i: nat, chain: Run, cfg: Config, a: seq<Comparison>)
    requires i < |Remaining(c)| && AllAttributes(c) && FindMatchingAttr(Remaining(t), Remaining(c)[i]).Some?
    requires Follows(chain, a)
    ensures Follows(ControlAttribute(c, t, i, chain, cfg), a + ControlRound(c, t, chain.contexts, i))
  {
    var tr := Remaining(t);
    var ca := Remaining(c)[i];
    var ta := tr[FindMatchingAttr(tr, ca).value];
    var here := chain.contexts;
    var inAttr := here.(control := here.control + [AttributeStep(QNameOf(ca))]);
    var lookup := ControlLookup(c, t, here, i);
    var r1 := AndThen(chain.(contexts := inAttr), Comparer(lookup, cfg));
    StepFollows(chain, lookup, cfg, inAttr, a);
    assert ca in AttributesOf(c);
    PairedAttribute(c, t, i, chain, cfg);
    assert r1.contexts == inAttr;
    AttributePairFollows(ca, ta, r1, here, cfg, a + [lookup]);
    var w := AttributeWalkComparisons(ca, ta, PairLocations(here, ca, ta));
    assert ControlRound(c, t, here, i) == [lookup] + w;
    FollowsRegroup(ControlAttribute(c, t, i, chain, cfg), a, [lookup], w);
  }

  predicate RoundsFollow(c: Node, t: Node, i: nat, chain: Run, found: set<nat>, cfg: Config, a: seq<Comparison>) {
    Follows(ControlAttributes(c, t, i, chain, found, cfg).run, a + ControlRounds(c, t, chain.contexts, i))
  }

  /** The control loop from the i-th attribute on makes the rounds of those
      attributes: every normal control attribute is looked up, and exactly
      the ones with a counterpart are walked, each with its counterpart. */
  lemma {:induction false} ControlAttributesFollow(c: Node, t: Node, i: nat, chain: Run, found: set<nat>,
                                                   cfg: Config, a: seq<Comparison>)
    requires AllAttributes(c)
    requires Follows(chain, a)
    ensures RoundsFollow(c, t, i, chain, found, cfg, a)
    decreases |Remaining(c)| - i
  {
    if i >= |Remaining(c)| {
      RoundsEnd(c, t, i, chain, found, cfg, a);
    } else {
      var m := FindMatchingAttr(Remaining(t), Remaining(c)[i]);
      ControlAttributeFollows(c, t, i, chain, cfg, a);
      ControlAttributesFollow(c, t, i + 1, ControlAttribute(c, t, i, chain, cfg),
                              if m.Some? then found + {m.value} else found, cfg,
                              a + ControlRound(c, t, chain.contexts, i));
      RoundsStep(c, t, i, chain, found, cfg, a);
    }
  }

  lemma RoundsEnd(c: Node, t: Node, i: nat, chain: Run, found: set<nat>, cfg: Config, a: seq<Comparison>)
    requires i >= |Remaining(c)|
    requires Follows(chain, a)
    ensures RoundsFollow(c, t, i, chain, found, cfg, a)
  {
    assert ControlAttributes(c, t, i, chain, found, cfg) == Scan(chain, found);
    assert a + [] == a;
  }

  lemma RoundsStep(c: Node, t: Node, i: nat, chain: Run, found: set<nat>, cfg: Config, a: seq<Comparison>)
    requires i < |Remaining(c)|
    requires var m := FindMatchingAttr(Remaining(t), Remaining(c)[i]);
      RoundsFollow(c, t, i + 1, ControlAttribute(c, t, i, chain, cfg),
                   if m.Some? then found + {m.value} else found, cfg,
                   a + ControlRound(c, t, chain.contexts, i))
    ensures RoundsFollow(c, t, i, chain, found, cfg, a)
  {
    var m := FindMatchingAttr(Remaining(t), Remaining(c)[i]);
    var next := ControlAttribute(c, t, i, chain, cfg);
    var s := ControlAttributes(c, t, i + 1, next, if m.Some? then found + {m.value} else found, cfg);
    assert ControlAttributes(c, t, i, chain, found, cfg) == s;
    var x := ControlRound(c, t, chain.contexts, i);
    var y := ControlRounds(c, t, chain.contexts, i + 1);
    assert ControlRounds(c, t, chain.contexts, i) == x + y;
    FollowsRegroup(s.run, a, x, y);
  }

  /** The lookup the j-th test attribute adds, if no control attribute
      matched it */
  function UnfoundPart(c: Node, t: Node, found: set<nat>, ctx: Contexts, j: nat): seq<Comparison>
    requires j < |Remaining(t)|
  {
    var ta := Remaining(t)[j];
    if j in found then [] else [UnfoundLookup(c, t, ta, ctx.(test := ctx.test + [AttributeStep(QNameOf(ta))]))]
  }

  lemma UnfoundNextFollows(c: Node, t: Node, found: set<nat>, j: nat, chain: Run, cfg: Config, a: seq<Comparison>)
    requires j < |Remaining(t)|
    requires Follows(chain, a)
    ensures Follows(UnfoundNext(c, t, found, j, chain, cfg), a + UnfoundPart(c, t, found, chain.contexts, j))
  {
    if j in found {
      assert a + [] == a;
    } else {
      var here := chain.contexts;
      var ta := Remaining(t)[j];
      var inAttr := here.(test := here.test + [AttributeStep(QNameOf(ta))]);
      var lookup := UnfoundLookup(c, t, ta, inAttr);
      var r1 := AndThen(chain.(contexts := inAttr), Comparer(lookup, cfg));
      StepFollows(chain, lookup, cfg, inAttr, a);
      var next := Unfound(c, t, ta, chain, cfg);
      assert next.events == r1.events && next.outcome == r1.outcome;
    }
  }

  predicate UnfoundFollow(c: Node, t: Node, found: set<nat>, j: nat, chain: Run, cfg: Config, a: seq<Comparison>) {
    Follows(UnfoundFrom(c, t, found, j, chain, cfg), a + UnfoundLookups(c, t, found, chain.contexts, j))
  }

  /** The loop over the test attributes makes one lookup per attribute not
      found. */
  lemma {:induction false} UnfoundFromFollow(c: Node, t: Node, found: set<nat>, j: nat, chain: Run,
                                             cfg: Config, a: seq<Comparison>)
    requires Follows(chain, a)
    ensures UnfoundFollow(c, t, found, j, chain, cfg, a)
    decreases |Remaining(t)| - j
  {
    if j >= |Remaining(t)| {
      UnfoundFollowEnd(c, t, found, j, chain, cfg, a);
    } else {
      UnfoundNextFollows(c, t, found, j, chain, cfg, a);
      UnfoundFromFollow(c, t, found, j + 1, UnfoundNext(c, t, found, j, chain, cfg), cfg,
                        a + UnfoundPart(c, t, found, chain.contexts, j));
      UnfoundFollowStep(c, t, found, j, chain, cfg, a);
    }
  }

  lemma UnfoundFollowEnd(c: Node, t: Node, found: set<nat>, j: nat, chain: Run, cfg: Config, a: seq<Comparison>)
    requires j >= |Remaining(t)|
    requires Follows(chain, a)
    ensures UnfoundFollow(c, t, found, j, chain, cfg, a)
  {
    assert UnfoundFrom(c, t, found, j, chain, cfg) == chain;
    assert a + [] == a;
  }

  lemma UnfoundFollowStep(c: Node, t: Node, found: set<nat>, j: nat, chain: Run, cfg: Config, a: seq<Comparison>)
    requires j < |Remaining(t)|
    requires UnfoundFollow(c, t, found, j + 1, UnfoundNext(c, t, found, j, chain, cfg), cfg,
                           a + UnfoundPart(c, t, found, chain.contexts, j))
    ensures UnfoundFollow(c, t, found, j, chain, cfg, a)
  {
    var next := UnfoundNext(c, t, found, j, chain, cfg);
    var x := UnfoundPart(c, t, found, chain.contexts, j);
    var y := UnfoundLookups(c, t, found, chain.contexts, j + 1);
    assert UnfoundFrom(c, t, found, j, chain, cfg) == UnfoundFrom(c, t, found, j + 1, next, cfg);
    assert UnfoundLookups(c, t, found, chain.contexts, j) == x + y;
    FollowsRegroup(UnfoundFrom(c, t, found, j, chain, cfg), a, x, y);
  }

  /** NormalAttributeComparer and ControlAttributePresentComparer make, in
      this order and nothing else: for every normal control attribute its
      name lookup, followed, exactly when it has a counterpart, by the walk
      of the two attributes; then a lookup for every normal test attribute
      no control attribute matched. */
  lemma NormalAttributesFollow(c: Node, t: Node, ctx: Contexts, cfg: Config)
    requires AllAttributes(c)
    ensures Follows(NormalAttributes(c, t, ctx, cfg), NormalAttributeComparisons(c, t, ctx))
  {
    var s := ControlAttributes(c, t, 0, NewChain(ctx), {}, cfg);
    ControlLoopFollows(c, t, ctx, cfg);
    TestLoopFollows(c, t, s.found, ctx, cfg);
    FollowsThen(s.run, PresentComparer(c, t, s.found, cfg), ControlRounds(c, t, ctx, 0),
                UnfoundLookups(c, t, s.found, ctx, 0));
  }

  /** A run that follows [] + x follows x */
  lemma FollowsFromStart(r: Run, x: seq<Comparison>)
    requires Follows(r, [] + x)
    ensures Follows(r, x)
  {
    assert [] + x == x;
  }

  /** NormalAttributeComparer's loop makes the control rounds and finds the
      test attributes the control attributes match */
  lemma ControlLoopFollows(c: Node, t: Node, ctx: Contexts, cfg: Config)
    requires AllAttributes(c)
    ensures var s := ControlAttributes(c, t, 0, NewChain(ctx), {}, cfg);
      Follows(s.run, ControlRounds(c, t, ctx, 0)) && s.found == Matched(c, t, 0)
  {
    var s := ControlAttributes(c, t, 0, NewChain(ctx), {}, cfg);
    ControlAttributesFollow(c, t, 0, NewChain(ctx), {}, cfg, []);
    FollowsFromStart(s.run, ControlRounds(c, t, ctx, 0));
    ControlAttributesAdds(c, t, 0, NewChain(ctx), {}, cfg);
    assert {} + Matched(c, t, 0) == Matched(c, t, 0);
  }

  /** ControlAttributePresentComparer makes one lookup per test attribute
      not found */
  lemma TestLoopFollows(c: Node, t: Node, found: set<nat>, ctx: Contexts, cfg: Config)
    ensures Follows(ControlAttributePresent(c, t, found, ctx, cfg), UnfoundLookups(c, t, found, ctx, 0))
  {
    UnfoundFromFollow(c, t, found, 0, NewChain(ctx), cfg, []);
    FollowsFromStart(ControlAttributePresent(c, t, found, ctx, cfg), UnfoundLookups(c, t, found, ctx, 0));
  }

  /** The middle of compareElementAttributes: xsi:type, then the two
      schema locations, whose values are null when the attribute is absent. */
  lemma SchemaInstanceFollows(c: Node, t: Node, chain: Run, cfg: Config, a: seq<Comparison>)
    requires Follows(chain, a)
    ensures Follows(SchemaInstanceAttributes(c, t, chain, cfg),
                    a + XsiTypeComparisons(XsiTypeOf(c), XsiTypeOf(t), chain.contexts)
                      + LocationComparisons(c, t, chain.contexts))
  {
    var ctx := chain.contexts;
    var xsi := XsiTypeComparisons(XsiTypeOf(c), XsiTypeOf(t), ctx);
    var r1 := AndThen(chain, XsiTypeComparer(c, t, cfg));
    FollowsThen(chain, XsiTypeComparer(c, t, cfg), a, xsi);
    var locations := LocationComparisons(c, t, ctx);
    var r2 := AndThen(r1, Comparer(locations[0], cfg));
    CompareFollows(locations[0], cfg, r1.contexts);
    FollowsThen(r1, Comparer(locations[0], cfg), a + xsi, [locations[0]]);
    CompareFollows(locations[1], cfg, r2.contexts);
    FollowsThen(r2, Comparer(locations[1], cfg), a + xsi + [locations[0]], [locations[1]]);
    assert a + xsi + [locations[0]] + [locations[1]] == a + xsi + locations;
  }

  /** Everything compareElementAttributes makes */
  function ElementAttributeComparisons(c: Node, t: Node, ctx: Contexts): seq<Comparison> {
    [AttributeCount(c, t, ctx)]
    + XsiTypeComparisons(XsiTypeOf(c), XsiTypeOf(t), ctx)
    + LocationComparisons(c, t, ctx)
    + NormalAttributeComparisons(c, t, ctx)
  }

  /** compareElementAttributes makes, in this order and nothing else: the
      numbers of normal attributes, the xsi:type comparisons, the
      SCHEMA_LOCATION and NO_NAMESPACE_SCHEMA_LOCATION comparisons, then
      the normal attributes. */
  lemma ElementAttributesFollow(c: Node, t: Node, ctx: Contexts, cfg: Config)
    requires AllAttributes(c)
    ensures Follows(CompareElementAttributes(c, t, ctx, cfg), ElementAttributeComparisons(c, t, ctx))
  {
    var count := AttributeCount(c, t, ctx);
    var r0 := Compare(count, cfg, ctx);
    CompareFollows(count, cfg, ctx);
    SchemaInstanceFollows(c, t, r0, cfg, [count]);
    var r3 := SchemaInstanceAttributes(c, t, r0, cfg);
    NormalAttributesFollow(c, t, ctx, cfg);
    FollowsThen(r3, NormalComparer(c, t, cfg),
                [count] + XsiTypeComparisons(XsiTypeOf(c), XsiTypeOf(t), ctx) + LocationComparisons(c, t, ctx),
                NormalAttributeComparisons(c, t, ctx));
  }

  /** compareElements makes the local names, then everything
      compareElementAttributes makes. */
  lemma ElementsFollow(c: Node, t: Node, ctx: Contexts, cfg: Config)
    requires c.Element? && t.Element? && AllAttributes(c)
    ensures Follows(CompareElements(c, t, ctx, cfg), [TagName(c, t, ctx)] + ElementAttributeComparisons(c, t, ctx))
  {
    CompareFollows(TagName(c, t, ctx), cfg, ctx);
    ElementAttributesFollow(c, t, ctx, cfg);
    FollowsThen(Compare(TagName(c, t, ctx), cfg, ctx), AttributesComparer(c, t, cfg),
                [TagName(c, t, ctx)], ElementAttributeComparisons(c, t, ctx));
  }

  // ----- compareNodes -----

  /** compareNodes makes the common comparisons, then for anything but an
      attribute the numbers of children, then whatever the node kind
      specific comparison makes, then for anything but an attribute
      everything compareChildren makes; nothing else, in this order. */
  lemma CompareNodesInOrder(c: Node, t: Node, ctx: Contexts, cfg: Config, specific: seq<Comparison>)
    requires Follows(NodeTypeSpecific(c, t, ctx, cfg), specific)
    ensures Follows(CompareNodes(c, t, ctx, cfg),
                    CommonComparisons(c, t, ctx)
                    + (if c.Attribute? then [] else [LengthComparison(c, t, ctx)])
                    + specific
                    + (if c.Attribute? then [] else ChildComparisons(c, t, cfg, ctx)))
  {
    var r3 := AndIfTrueThen(CompareAll(CommonComparisons(c, t, ctx), cfg, ctx), !c.Attribute?,
                            Comparer(LengthComparison(c, t, ctx), cfg));
    var opening := CommonComparisons(c, t, ctx) + (if c.Attribute? then [] else [LengthComparison(c, t, ctx)]);
    OpeningFollows(c, t, ctx, cfg);
    var r4 := AndThen(r3, SpecificComparer(c, t, cfg));
    FollowsThen(r3, SpecificComparer(c, t, cfg), opening, specific);
    var children := ChildComparisons(c, t, cfg, ctx);
    if !c.Attribute? {
      ChildListWalk(c, t, ctx, cfg);
    }
    FollowsIf(r4, !c.Attribute?, ChildrenComparer(c, t, cfg), opening + specific, children);
    FollowsIfTail(CompareNodes(c, t, ctx, cfg), opening + specific, !c.Attribute?, children);
  }

  /** compareNodes opens with the common comparisons and, for anything but
      an attribute, the numbers of children */
  lemma OpeningFollows(c: Node, t: Node, ctx: Contexts, cfg: Config)
    ensures Follows(AndIfTrueThen(CompareAll(CommonComparisons(c, t, ctx), cfg, ctx), !c.Attribute?,
                                  Comparer(LengthComparison(c, t, ctx), cfg)),
                    CommonComparisons(c, t, ctx) + (if c.Attribute? then [] else [LengthComparison(c, t, ctx)]))
  {
    var common := CommonComparisons(c, t, ctx);
    var length := LengthComparison(c, t, ctx);
    CompareAllFollows(common, cfg, ctx);
    CompareFollows(length, cfg, ctx);
    FollowsIf(CompareAll(common, cfg, ctx), !c.Attribute?, Comparer(length, cfg), common, [length]);
    assert common + [] == common;
  }

  /** A part made only when `cond` holds is an empty tail otherwise */
  lemma FollowsIfTail(r: Run, a: seq<Comparison>, cond: bool, b: seq<Comparison>)
    requires Follows(r, if cond then a + b else a)
    ensures Follows(r, a + (if cond then b else []))
  {
    assert a + [] == a;
  }

  /** Two elements: the common comparisons, the numbers of children, the
      local names, everything compareElementAttributes makes, then
      everything compareChildren makes; nothing else, in this order. */
  lemma ElementWalk(c: Node, t: Node, ctx: Contexts, cfg: Config)
    requires c.Element? && t.Element? && AllAttributes(c)
    ensures Follows(CompareNodes(c, t, ctx, cfg),
                    CommonComparisons(c, t, ctx) + [LengthComparison(c, t, ctx)]
                    + [TagName(c, t, ctx)] + ElementAttributeComparisons(c, t, ctx)
                    + ChildComparisons(c, t, cfg, ctx))
  {
    var specific := [TagName(c, t, ctx)] + ElementAttributeComparisons(c, t, ctx);
    ElementsFollow(c, t, ctx, cfg);
    CompareNodesInOrder(c, t, ctx, cfg, specific);
    var opening := CommonComparisons(c, t, ctx) + [LengthComparison(c, t, ctx)];
    FollowsSplice(CompareNodes(c, t, ctx, cfg), opening, [TagName(c, t, ctx)], ElementAttributeComparisons(c, t, ctx),
                  ChildComparisons(c, t, cfg, ctx));
  }
}
