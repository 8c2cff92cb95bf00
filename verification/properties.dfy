/** What the walk promises about the comparisons it reports: which ones
    open every node pair, the complete walk of attribute and text nodes,
    the reconciliation of two child lists and the lookups of attributes. */
module Properties {
  import opened Dom
  import opened Comparisons
  import opened Engine
  import opened Attributes
  import opened Walk

  // ----- the comparisons every pair of nodes starts with -----

  /** compareNodes first compares node type, namespace URI and prefix and,
      unless the control node is an attribute, the number of interesting
      children; only a stop on the way cuts this short. */
  lemma CompareNodesOpens(c: Node, t: Node, ctx: Contexts, cfg: Config)
    ensures Opens(CompareNodes(c, t, ctx, cfg),
                  CommonComparisons(c, t, ctx) + (if c.Attribute? then [] else [LengthComparison(c, t, ctx)]))
  {
    var common := CommonComparisons(c, t, ctx);
    var r2 := CompareAll(common, cfg, ctx);
    var length := Comparer(LengthComparison(c, t, ctx), cfg);
    var r3 := AndIfTrueThen(r2, !c.Attribute?, length);
    var specific := SpecificComparer(c, t, cfg);
    var r4 := AndThen(r3, specific);
    var children := ChildrenComparer(c, t, cfg);
    var expected := common + (if c.Attribute? then [] else [LengthComparison(c, t, ctx)]);
    assert Follows(r3, expected) by {
      CompareAllFollows(common, cfg, ctx);
      CompareFollows(LengthComparison(c, t, ctx), cfg, ctx);
      FollowsIf(r2, !c.Attribute?, length, common, [LengthComparison(c, t, ctx)]);
    }
    OpensThen(r3, specific, expected);
    if !c.Attribute? {
      OpensThen(r4, children, expected);
    }
  }

  /** Two attributes: the common comparisons, then explicitness and value;
      nothing about children.  An attribute against another kind of node
      gets the common comparisons only. */
  lemma AttributeWalk(c: Node, t: Node, ctx: Contexts, cfg: Config)
    requires c.Attribute?
    ensures Follows(CompareNodes(c, t, ctx, cfg), AttributeWalkComparisons(c, t, ctx))
  {
    var common := CommonComparisons(c, t, ctx);
    var r2 := CompareAll(common, cfg, ctx);
    var specific := SpecificComparer(c, t, cfg);
    var own := if t.Attribute? then AttributeComparisons(c, t, ctx) else [];
    CompareAllFollows(common, cfg, ctx);
    assert Follows(NodeTypeSpecific(c, t, ctx, cfg), own) by {
      if t.Attribute? {
        CompareAllFollows(AttributeComparisons(c, t, ctx), cfg, ctx);
      }
    }
    FollowsThen(r2, specific, common, own);
    assert CompareNodes(c, t, ctx, cfg) == AndThen(r2, specific);
  }

  /** The walk of an attribute never looks up attributes by name */
  lemma AttributeWalkHasNoLookups(c: Node, t: Node, ctx: Contexts, cfg: Config)
    requires c.Attribute?
    ensures forall e :: e in CompareNodes(c, t, ctx, cfg).events ==> e.comparison.kind != AttrNameLookup
  {
    var expected := AttributeWalkComparisons(c, t, ctx);
    AttributeWalk(c, t, ctx, cfg);
    AttributeWalkKinds(c, t, ctx);
    FollowsOnlyKinds(CompareNodes(c, t, ctx, cfg), expected, AttrNameLookup);
  }

  function AttributeWalkComparisons(c: Node, t: Node, ctx: Contexts): seq<Comparison> {
    CommonComparisons(c, t, ctx) + (if t.Attribute? then AttributeComparisons(c, t, ctx) else [])
  }

  lemma AttributeWalkKinds(c: Node, t: Node, ctx: Contexts)
    ensures forall x :: x in AttributeWalkComparisons(c, t, ctx) ==> x.kind != AttrNameLookup
  {
    var w := AttributeWalkComparisons(c, t, ctx);
    forall x | x in w ensures x.kind != AttrNameLookup {
      var i :| 0 <= i < |w| && w[i] == x;
      assert i < 5;
    }
  }

  // ----- nodes without children -----

  /** With no control children, every pair the matcher proposes names a
      child that does not exist and is passed over. */
  lemma {:induction false} NoPairsWithoutControlChildren(c: Node, t: Node, k: nat, chain: Run,
                                                         sc: set<nat>, st: set<nat>, cfg: Config)
    requires ChildList(c) == []
    ensures MatchedPairs(c, t, k, chain, sc, st, cfg) == Pairing(chain, sc, st)
    decreases |Pairs(c, t, cfg)| - k
  {
    if k < |Pairs(c, t, cfg)| {
      NoPairsWithoutControlChildren(c, t, k + 1, chain, sc, st, cfg);
    }
  }

  /** Two nodes without interesting children add nothing for their child
      lists. */
  lemma ChildlessNodeLists(c: Node, t: Node, ctx: Contexts, cfg: Config)
    requires ChildList(c) == [] && ChildList(t) == []
    ensures CompareNodeLists(c, t, ctx, cfg) == NewChain(ctx)
  {
    NoPairsWithoutControlChildren(c, t, 0, NewChain(ctx), {}, {}, cfg);
  }

  /** Two text, CDATA or comment nodes: the common comparisons, the child
      counts (both zero) and the text; nothing else. */
  lemma CharacterDataWalk(c: Node, t: Node, ctx: Contexts, cfg: Config)
    requires IsCharacterData(c) && IsCharacterData(t)
    ensures Follows(CompareNodes(c, t, ctx, cfg),
                    CommonComparisons(c, t, ctx) + [LengthComparison(c, t, ctx)] + [TextComparison(c, t, ctx)])
  {
    var common := CommonComparisons(c, t, ctx);
    var length := LengthComparison(c, t, ctx);
    var r2 := CompareAll(common, cfg, ctx);
    var r3 := AndIfTrueThen(r2, true, Comparer(length, cfg));
    var specific := SpecificComparer(c, t, cfg);
    var r4 := AndThen(r3, specific);
    var children := ChildrenComparer(c, t, cfg);
    CompareAllFollows(common, cfg, ctx);
    CompareFollows(length, cfg, ctx);
    FollowsIf(r2, true, Comparer(length, cfg), common, [length]);
    CompareAllFollows([TextComparison(c, t, ctx)], cfg, ctx);
    FollowsThen(r3, specific, common + [length], [TextComparison(c, t, ctx)]);
    ChildlessNodeLists(c, t, r4.contexts, cfg);
    FollowsThen(r4, children, common + [length] + [TextComparison(c, t, ctx)], []);
    assert common + [length] + [TextComparison(c, t, ctx)] + [] == common + [length] + [TextComparison(c, t, ctx)];
  }

  // ----- reconciliation of two child lists -----

  /** A child list reconciliation at the level just below `ctx`: one made
      at the children's own locations, not deeper in their subtrees. */
  function OwnLevel(ctx: Contexts): Event -> bool {
    (e: Event) => IsReconciliation(e.comparison.kind) && !Below(e, |ctx.control| + 1, |ctx.test| + 1)
  }

  /** Whether the k-th pair the matcher proposes names two existing children */
  predicate PairInRange(c: Node, t: Node, cfg: Config, k: nat)
    requires k < |Pairs(c, t, cfg)|
  {
    && 0 <= Pairs(c, t, cfg)[k].0 < |ChildList(c)|
    && 0 <= Pairs(c, t, cfg)[k].1 < |ChildList(t)|
  }

  /** The sequence comparisons of the matched pairs from the k-th on, made
      at the two children's locations below `ctx` */
  function PairSequences(c: Node, t: Node, cfg: Config, ctx: Contexts, k: nat): seq<Comparison>
    decreases |Pairs(c, t, cfg)| - k
  {
    if k >= |Pairs(c, t, cfg)| then []
    else
      var i := Pairs(c, t, cfg)[k].0;
      var j := Pairs(c, t, cfg)[k].1;
      (if PairInRange(c, t, cfg, k) then
         [SequenceComparison(ChildList(c)[i], ChildList(t)[j], i, j,
                             Contexts(ctx.control + [ChildStep(i)], ctx.test + [ChildStep(j)]))]
       else [])
      + PairSequences(c, t, cfg, ctx, k + 1)
  }

  /** The control positions named by the pairs from the k-th on */
  function PairedControls(c: Node, t: Node, cfg: Config, k: nat): set<nat>
    decreases |Pairs(c, t, cfg)| - k
  {
    if k >= |Pairs(c, t, cfg)| then {}
    else (if PairInRange(c, t, cfg, k) then {Pairs(c, t, cfg)[k].0 as nat} else {}) + PairedControls(c, t, cfg, k + 1)
  }

  /** The test positions named by the pairs from the k-th on */
  function PairedTests(c: Node, t: Node, cfg: Config, k: nat): set<nat>
    decreases |Pairs(c, t, cfg)| - k
  {
    if k >= |Pairs(c, t, cfg)| then {}
    else (if PairInRange(c, t, cfg, k) then {Pairs(c, t, cfg)[k].1 as nat} else {}) + PairedTests(c, t, cfg, k + 1)
  }

  /** The lookups for the control children from position i on that no
      pair names */
  function ControlLookups(list: seq<Node>, seen: set<nat>, p: Path, i: nat): seq<Comparison>
    decreases |list| - i
  {
    if i >= |list| then []
    else (if i in seen then [] else [ControlChildLookup(list, i, p)]) + ControlLookups(list, seen, p, i + 1)
  }

  /** The lookups for the test children from position i on that no pair
      names */
  function TestLookups(list: seq<Node>, seen: set<nat>, p: Path, i: nat): seq<Comparison>
    decreases |list| - i
  {
    if i >= |list| then []
    else (if i in seen then [] else [TestChildLookup(list, i, p)]) + TestLookups(list, seen, p, i + 1)
  }

  /** Going from `before` to `after`, a walk adds `added` to the comparisons
      of the events `keep` selects; a stopped walk stays stopped. */
  predicate Adds(before: Run, after: Run, keep: Event -> bool, added: seq<Comparison>) {
    && (before.outcome.abort ==> after.outcome.abort)
    && (!after.outcome.abort ==> CmpsWhere(after.events, keep) == CmpsWhere(before.events, keep) + added)
  }

  /** Adds, for the reconciliations at the level below `here` */
  predicate AddsToLevel(before: Run, after: Run, here: Contexts, added: seq<Comparison>) {
    Adds(before, after, OwnLevel(here), added)
  }

  lemma AddsThen(a: Run, b: Run, c: Run, keep: Event -> bool, x: seq<Comparison>, y: seq<Comparison>)
    requires Adds(a, b, keep, x) && Adds(b, c, keep, y)
    ensures Adds(a, c, keep, x + y)
  {
    if !c.outcome.abort {
      assert CmpsWhere(a.events, keep) + x + y == CmpsWhere(a.events, keep) + (x + y);
    }
  }

  /** A chained walk that starts afresh adds to the chain what it adds on
      its own. */
  lemma ThenAdds(chain: Run, next: Deferred, keep: Event -> bool, added: seq<Comparison>)
    requires Adds(NewChain(chain.contexts), next(chain.contexts), keep, added)
    ensures Adds(chain, AndThen(chain, next), keep, added)
  {
    if !chain.outcome.abort {
      CmpsWhereAppend(chain.events, next(chain.contexts).events, keep);
    }
  }

  /** One comparison made on a chain, at any locations, that `keep` selects */
  lemma StepAdds(chain: Run, comp: Comparison, cfg: Config, inner: Contexts, keep: Event -> bool)
    requires keep(Compare(comp, cfg, inner).events[0])
    ensures Adds(chain, AndThen(chain.(contexts := inner), Comparer(comp, cfg)), keep, [comp])
  {
    if !chain.outcome.abort {
      var e := Compare(comp, cfg, inner).events[0];
      assert (chain.events + [e])[..|chain.events|] == chain.events;
    }
  }

  /** A comparison made one level below `here` on a chain */
  lemma StepLevel(chain: Run, comp: Comparison, cfg: Config, inner: Contexts, here: Contexts)
    requires IsReconciliation(comp.kind) && !Beneath(comp, |here.control| + 1, |here.test| + 1)
    ensures AddsToLevel(chain, AndThen(chain.(contexts := inner), Comparer(comp, cfg)), here, [comp])
  {
    assert OwnLevel(here)(Compare(comp, cfg, inner).events[0]);
    StepAdds(chain, comp, cfg, inner, OwnLevel(here));
  }

  /** The walk of two paired nodes stays below the level */
  lemma NodePairLevel(cn: Node, tn: Node, chain: Run, here: Contexts, cfg: Config)
    requires |chain.contexts.control| >= |here.control| + 1 && |chain.contexts.test| >= |here.test| + 1
    ensures AddsToLevel(chain, NodePair(cn, tn, chain, here, cfg), here, [])
  {
    if !chain.outcome.abort {
      var n := CompareNodes(cn, tn, chain.contexts, cfg);
      assert NodePair(cn, tn, chain, here, cfg).events == chain.events + n.events;
      CmpsWhereAppend(chain.events, n.events, OwnLevel(here));
      forall e | e in n.events ensures !OwnLevel(here)(e) {
        assert Below(e, |chain.contexts.control|, |chain.contexts.test|);
      }
      CmpsWhereNone(n.events, OwnLevel(here));
    }
  }

  /** One round of the pair loop adds the pair's sequence comparison to the
      level; the walk of the two children stays below it. */
  lemma MatchedPairOwn(c: Node, t: Node, k: nat, chain: Run, cfg: Config)
    requires k < |Pairs(c, t, cfg)| && PairInRange(c, t, cfg, k)
    ensures var i := Pairs(c, t, cfg)[k].0;
      var j := Pairs(c, t, cfg)[k].1;
      var here := chain.contexts;
      AddsToLevel(chain, MatchedPair(c, t, k, chain, cfg), here,
                  [SequenceComparison(ChildList(c)[i], ChildList(t)[j], i, j,
                                      Contexts(here.control + [ChildStep(i)], here.test + [ChildStep(j)]))])
  {
    var cc := ChildList(c);
    var tc := ChildList(t);
    var i := Pairs(c, t, cfg)[k].0;
    var j := Pairs(c, t, cfg)[k].1;
    var here := chain.contexts;
    var inChild := Contexts(here.control + [ChildStep(i)], here.test + [ChildStep(j)]);
    var sequence := SequenceComparison(cc[i], tc[j], i, j, inChild);
    var r1 := AndThen(chain.(contexts := inChild), Comparer(sequence, cfg));
    var r2 := NodePair(cc[i], tc[j], r1, here, cfg);
    var r := MatchedPair(c, t, k, chain, cfg);
    assert r.events == r2.events && r.outcome == r2.outcome;
    StepLevel(chain, sequence, cfg, inChild, here);
    NodePairLevel(cc[i], tc[j], r1, here, cfg);
    AddsThen(chain, r1, r2, OwnLevel(here), [sequence], []);
    assert [sequence] + [] == [sequence];
  }

  /** What the pair loop from the k-th pair on does: which positions it
      pairs, and the sequence comparisons it adds to the level. */
  predicate PairsFrom(c: Node, t: Node, k: nat, chain: Run, sc: set<nat>, st: set<nat>, cfg: Config) {
    Describes(MatchedPairs(c, t, k, chain, sc, st, cfg), chain, sc + PairedControls(c, t, cfg, k),
              st + PairedTests(c, t, cfg, k), PairSequences(c, t, cfg, chain.contexts, k))
  }

  predicate Describes(p: Pairing, chain: Run, sc: set<nat>, st: set<nat>, added: seq<Comparison>) {
    && p.seenControl == sc
    && p.seenTest == st
    && AddsToLevel(chain, p.run, chain.contexts, added)
  }

  lemma {:induction false} MatchedPairsOwn(c: Node, t: Node, k: nat, chain: Run,
                                           sc: set<nat>, st: set<nat>, cfg: Config)
    ensures PairsFrom(c, t, k, chain, sc, st, cfg)
    decreases |Pairs(c, t, cfg)| - k
  {
    if k >= |Pairs(c, t, cfg)| {
      PairsEnd(c, t, k, chain, sc, st, cfg);
    } else {
      MatchedPairsOwn(c, t, k + 1, PairNext(c, t, k, chain, cfg),
                      SeenNext(sc, Pairs(c, t, cfg)[k].0, PairInRange(c, t, cfg, k)),
                      SeenNext(st, Pairs(c, t, cfg)[k].1, PairInRange(c, t, cfg, k)), cfg);
      PairsStep(c, t, k, chain, sc, st, cfg);
    }
  }

  /** Past the last pair the loop does nothing */
  lemma PairsEnd(c: Node, t: Node, k: nat, chain: Run, sc: set<nat>, st: set<nat>, cfg: Config)
    requires k >= |Pairs(c, t, cfg)|
    ensures PairsFrom(c, t, k, chain, sc, st, cfg)
  {
    assert MatchedPairs(c, t, k, chain, sc, st, cfg) == Pairing(chain, sc, st);
    assert sc + {} == sc && st + {} == st;
  }

  /** The chain the pair loop goes on with after its k-th pair */
  function PairNext(c: Node, t: Node, k: nat, chain: Run, cfg: Config): Run
    requires k < |Pairs(c, t, cfg)|
  {
    if PairInRange(c, t, cfg, k) then MatchedPair(c, t, k, chain, cfg) else chain
  }

  /** A seen set after a round that records `i` when `taken` */
  function SeenNext(seen: set<nat>, i: int, taken: bool): set<nat> {
    if taken && i >= 0 then seen + {i as nat} else seen
  }

  lemma PairsStep(c: Node, t: Node, k: nat, chain: Run, sc: set<nat>, st: set<nat>, cfg: Config)
    requires k < |Pairs(c, t, cfg)|
    requires PairsFrom(c, t, k + 1, PairNext(c, t, k, chain, cfg),
                       SeenNext(sc, Pairs(c, t, cfg)[k].0, PairInRange(c, t, cfg, k)),
                       SeenNext(st, Pairs(c, t, cfg)[k].1, PairInRange(c, t, cfg, k)), cfg)
    ensures PairsFrom(c, t, k, chain, sc, st, cfg)
  {
    if PairInRange(c, t, cfg, k) {
      MatchedPairsRound(c, t, k, chain, sc, st, cfg);
    } else {
      MatchedPairsSkip(c, t, k, chain, sc, st, cfg);
    }
  }

  /** A round that pairs the k-th pair's positions */
  lemma MatchedPairsRound(c: Node, t: Node, k: nat, chain: Run, sc: set<nat>, st: set<nat>, cfg: Config)
    requires k < |Pairs(c, t, cfg)| && PairInRange(c, t, cfg, k)
    requires PairsFrom(c, t, k + 1, MatchedPair(c, t, k, chain, cfg),
                       sc + {Pairs(c, t, cfg)[k].0 as nat}, st + {Pairs(c, t, cfg)[k].1 as nat}, cfg)
    ensures PairsFrom(c, t, k, chain, sc, st, cfg)
  {
    var here := chain.contexts;
    var i := Pairs(c, t, cfg)[k].0;
    var j := Pairs(c, t, cfg)[k].1;
    var next := MatchedPair(c, t, k, chain, cfg);
    MatchedPairOwn(c, t, k, chain, cfg);
    var p := MatchedPairs(c, t, k + 1, next, sc + {i}, st + {j}, cfg);
    TakenPair(c, t, k, chain, sc, st, cfg);
    var sequence := SequenceComparison(ChildList(c)[i], ChildList(t)[j], i, j,
                                       Contexts(here.control + [ChildStep(i)], here.test + [ChildStep(j)]));
    PairedRecords(c, t, k, here, sc, st, cfg);
    DescribesAfter(p, chain, next, sc + PairedControls(c, t, cfg, k), st + PairedTests(c, t, cfg, k),
                   [sequence], PairSequences(c, t, cfg, here, k + 1));
  }

  /** A pairing that describes the loop after one round, together with what
      that round added, describes the loop from before the round. */
  lemma DescribesAfter(p: Pairing, chain: Run, next: Run, sc: set<nat>, st: set<nat>,
                       x: seq<Comparison>, y: seq<Comparison>)
    requires next.contexts == chain.contexts
    requires AddsToLevel(chain, next, chain.contexts, x)
    requires Describes(p, next, sc, st, y)
    ensures Describes(p, chain, sc, st, x + y)
  {
    AddsThen(chain, next, p.run, OwnLevel(chain.contexts), x, y);
  }

  lemma TakenPair(c: Node, t: Node, k: nat, chain: Run, sc: set<nat>, st: set<nat>, cfg: Config)
    requires k < |Pairs(c, t, cfg)| && PairInRange(c, t, cfg, k)
    ensures MatchedPairs(c, t, k, chain, sc, st, cfg)
            == MatchedPairs(c, t, k + 1, MatchedPair(c, t, k, chain, cfg),
                            sc + {Pairs(c, t, cfg)[k].0 as nat}, st + {Pairs(c, t, cfg)[k].1 as nat}, cfg)
  {
  }

  lemma PairedRecords(c: Node, t: Node, k: nat, ctx: Contexts, sc: set<nat>, st: set<nat>, cfg: Config)
    requires k < |Pairs(c, t, cfg)| && PairInRange(c, t, cfg, k)
    ensures var i := Pairs(c, t, cfg)[k].0;
      var j := Pairs(c, t, cfg)[k].1;
      && PairSequences(c, t, cfg, ctx, k)
           == [SequenceComparison(ChildList(c)[i], ChildList(t)[j], i, j,
                                  Contexts(ctx.control + [ChildStep(i)], ctx.test + [ChildStep(j)]))]
              + PairSequences(c, t, cfg, ctx, k + 1)
      && sc + {i as nat} + PairedControls(c, t, cfg, k + 1) == sc + PairedControls(c, t, cfg, k)
      && st + {j as nat} + PairedTests(c, t, cfg, k + 1) == st + PairedTests(c, t, cfg, k)
  {
    var i := Pairs(c, t, cfg)[k].0;
    var j := Pairs(c, t, cfg)[k].1;
    assert PairedControls(c, t, cfg, k) == {i as nat} + PairedControls(c, t, cfg, k + 1);
    assert PairedTests(c, t, cfg, k) == {j as nat} + PairedTests(c, t, cfg, k + 1);
  }

  /** A round that passes over a pair naming a missing child */
  lemma MatchedPairsSkip(c: Node, t: Node, k: nat, chain: Run, sc: set<nat>, st: set<nat>, cfg: Config)
    requires k < |Pairs(c, t, cfg)| && !PairInRange(c, t, cfg, k)
    requires PairsFrom(c, t, k + 1, chain, sc, st, cfg)
    ensures PairsFrom(c, t, k, chain, sc, st, cfg)
  {
    SkippedPair(c, t, k, chain, sc, st, cfg);
  }

  lemma SkippedPair(c: Node, t: Node, k: nat, chain: Run, sc: set<nat>, st: set<nat>, cfg: Config)
    requires k < |Pairs(c, t, cfg)| && !PairInRange(c, t, cfg, k)
    ensures MatchedPairs(c, t, k, chain, sc, st, cfg) == MatchedPairs(c, t, k + 1, chain, sc, st, cfg)
    ensures PairSequences(c, t, cfg, chain.contexts, k) == PairSequences(c, t, cfg, chain.contexts, k + 1)
    ensures PairedControls(c, t, cfg, k) == PairedControls(c, t, cfg, k + 1)
    ensures PairedTests(c, t, cfg, k) == PairedTests(c, t, cfg, k + 1)
  {
    SkippedPairRecords(c, t, k, chain.contexts, cfg);
  }

  lemma SkippedPairRecords(c: Node, t: Node, k: nat, ctx: Contexts, cfg: Config)
    requires k < |Pairs(c, t, cfg)| && !PairInRange(c, t, cfg, k)
    ensures PairSequences(c, t, cfg, ctx, k) == PairSequences(c, t, cfg, ctx, k + 1)
    ensures PairedControls(c, t, cfg, k) == PairedControls(c, t, cfg, k + 1)
    ensures PairedTests(c, t, cfg, k) == PairedTests(c, t, cfg, k + 1)
  {
    assert [] + PairSequences(c, t, cfg, ctx, k + 1) == PairSequences(c, t, cfg, ctx, k + 1);
    assert {} + PairedControls(c, t, cfg, k + 1) == PairedControls(c, t, cfg, k + 1);
    assert {} + PairedTests(c, t, cfg, k + 1) == PairedTests(c, t, cfg, k + 1);
  }

  /** The loop over unpaired control children adds one lookup per child it
      reports. */
  lemma {:induction false} UnmatchedControlOwn(list: seq<Node>, seen: set<nat>, i: nat, chain: Run, cfg: Config)
    ensures AddsToLevel(chain, UnmatchedControlFrom(list, seen, i, chain, cfg), chain.contexts,
                        ControlLookups(list, seen, chain.contexts.control, i))
    decreases |list| - i
  {
    var here := chain.contexts;
    if i >= |list| {
      assert UnmatchedControlFrom(list, seen, i, chain, cfg) == chain;
    } else if i in seen {
      UnmatchedControlOwn(list, seen, i + 1, chain, cfg);
      assert UnmatchedControlFrom(list, seen, i, chain, cfg) == UnmatchedControlFrom(list, seen, i + 1, chain, cfg);
    } else {
      var next := UnmatchedControl(list, i, chain, cfg);
      var lookup := ControlChildLookup(list, i, here.control);
      var inChild := here.(control := here.control + [ChildStep(i)]);
      var r1 := AndThen(chain.(contexts := inChild), Comparer(lookup, cfg));
      assert next.events == r1.events && next.outcome == r1.outcome;
      StepLevel(chain, lookup, cfg, inChild, here);
      UnmatchedControlOwn(list, seen, i + 1, next, cfg);
      assert UnmatchedControlFrom(list, seen, i, chain, cfg) == UnmatchedControlFrom(list, seen, i + 1, next, cfg);
      AddsThen(chain, next, UnmatchedControlFrom(list, seen, i + 1, next, cfg), OwnLevel(here),
               [lookup], ControlLookups(list, seen, here.control, i + 1));
    }
  }

  /** The loop over unpaired test children adds one lookup per child it
      reports. */
  lemma {:induction false} UnmatchedTestOwn(list: seq<Node>, seen: set<nat>, i: nat, chain: Run, cfg: Config)
    ensures AddsToLevel(chain, UnmatchedTestFrom(list, seen, i, chain, cfg), chain.contexts,
                        TestLookups(list, seen, chain.contexts.test, i))
    decreases |list| - i
  {
    var here := chain.contexts;
    if i >= |list| {
      assert UnmatchedTestFrom(list, seen, i, chain, cfg) == chain;
    } else if i in seen {
      UnmatchedTestOwn(list, seen, i + 1, chain, cfg);
      assert UnmatchedTestFrom(list, seen, i, chain, cfg) == UnmatchedTestFrom(list, seen, i + 1, chain, cfg);
    } else {
      var next := UnmatchedTest(list, i, chain, cfg);
      var lookup := TestChildLookup(list, i, here.test);
      var inChild := here.(test := here.test + [ChildStep(i)]);
      var r1 := AndThen(chain.(contexts := inChild), Comparer(lookup, cfg));
      assert next.events == r1.events && next.outcome == r1.outcome;
      StepLevel(chain, lookup, cfg, inChild, here);
      UnmatchedTestOwn(list, seen, i + 1, next, cfg);
      assert UnmatchedTestFrom(list, seen, i, chain, cfg) == UnmatchedTestFrom(list, seen, i + 1, next, cfg);
      AddsThen(chain, next, UnmatchedTestFrom(list, seen, i + 1, next, cfg), OwnLevel(here),
               [lookup], TestLookups(list, seen, here.test, i + 1));
    }
  }

  /** compareChildren reconciles the two child lists completely: at the
      children's own level it reports, in this order, the sequence
      comparison of every pair the matcher proposes (when both positions
      exist), a lookup for every control child no pair names, and a lookup
      for every test child no pair names.  Everything else it reports lies
      deeper in the children's subtrees. */
  lemma ChildListReconciliation(c: Node, t: Node, ctx: Contexts, cfg: Config)
    ensures var r := CompareNodeLists(c, t, ctx, cfg);
      !r.outcome.abort ==>
        CmpsWhere(r.events, OwnLevel(ctx)) ==
          PairSequences(c, t, cfg, ctx, 0)
          + ControlLookups(ChildList(c), PairedControls(c, t, cfg, 0), ctx.control, 0)
          + TestLookups(ChildList(t), PairedTests(c, t, cfg, 0), ctx.test, 0)
  {
    var p := MatchedPairs(c, t, 0, NewChain(ctx), {}, {}, cfg);
    var controls := UnmatchedControlComparer(ChildList(c), p.seenControl, cfg);
    var r1 := AndThen(p.run, controls);
    var tests := UnmatchedTestComparer(ChildList(t), p.seenTest, cfg);
    var r := AndThen(r1, tests);
    assert r == CompareNodeLists(c, t, ctx, cfg);
    MatchedPairsOwn(c, t, 0, NewChain(ctx), {}, {}, cfg);
    assert PairsFrom(c, t, 0, NewChain(ctx), {}, {}, cfg);
    assert {} + PairedControls(c, t, cfg, 0) == PairedControls(c, t, cfg, 0);
    assert {} + PairedTests(c, t, cfg, 0) == PairedTests(c, t, cfg, 0);
    var u := UnmatchedControlNodes(ChildList(c), p.seenControl, ctx, cfg);
    var v := UnmatchedTestNodes(ChildList(t), p.seenTest, ctx, cfg);
    UnmatchedControlOwn(ChildList(c), p.seenControl, 0, NewChain(ctx), cfg);
    UnmatchedTestOwn(ChildList(t), p.seenTest, 0, NewChain(ctx), cfg);
    ThenAdds(p.run, controls, OwnLevel(ctx), ControlLookups(ChildList(c), p.seenControl, ctx.control, 0));
    ThenAdds(r1, tests, OwnLevel(ctx), TestLookups(ChildList(t), p.seenTest, ctx.test, 0));
    AddsThen(NewChain(ctx), p.run, r1, OwnLevel(ctx), PairSequences(c, t, cfg, ctx, 0),
             ControlLookups(ChildList(c), p.seenControl, ctx.control, 0));
    AddsThen(NewChain(ctx), r1, r, OwnLevel(ctx),
             PairSequences(c, t, cfg, ctx, 0) + ControlLookups(ChildList(c), p.seenControl, ctx.control, 0),
             TestLookups(ChildList(t), p.seenTest, ctx.test, 0));
  }
}
