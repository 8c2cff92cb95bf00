/** The evaluation pipeline and the comparison chain of
    AbstractDifferenceEngine, plus the engine's configuration.

    A walk is modelled as a `Run`: the log of everything listeners were told
    so far, the current (verdict, abort) pair, and the two location stacks.
    A deferred comparison is a function from the location stacks to the Run
    it produces; the chain never applies it once the abort flag is set. */
module Engine {
  import opened Dom
  import opened Comparisons

  /** The pair of ComparisonResult and "stop the whole comparison" flag */
  datatype Outcome = Outcome(verdict: Verdict, abort: bool)

  datatype Run = Run(events: seq<Event>, outcome: Outcome, contexts: Contexts)

  /** NodeMatcher: pairs control and test children, by their positions */
  type Matcher = (seq<Node>, seq<Node>) -> seq<(int, int)>

  /** DifferenceEvaluator: may replace the raw verdict of a comparison */
  type Evaluator = (Comparison, Verdict) -> Verdict

  /** ComparisonController: whether a non-equal comparison stops the walk */
  type Controller = (Comparison, Verdict) -> bool

  datatype Config = Config(matcher: Matcher, evaluator: Evaluator, controller: Controller)

  /** The deferred comparison type of the chain */
  type Deferred = Contexts -> Run

  /** The verdict before any evaluator sees it: detail values compared with
      Java's null-safe equals. */
  function RawVerdict(comp: Comparison): (v: Verdict)
    ensures v == Equal <==> comp.control.value == comp.test.value
    ensures v == Equal || v == Different
  {
    if comp.control.value.Null? then
      (if comp.test.value.Null? then Equal else Different)
    else if comp.control.value == comp.test.value then Equal
    else Different
  }

  /** compare(Comparison): evaluate, notify listeners (the log), and ask the
      controller whether to stop, for non-equal verdicts only. */
  function Compare(comp: Comparison, cfg: Config, ctx: Contexts): (r: Run)
    ensures r.contexts == ctx
    ensures |r.events| == 1 && r.events[0].comparison == comp
    ensures r.outcome.verdict == cfg.evaluator(comp, RawVerdict(comp))
    ensures r.events[0].verdict == r.outcome.verdict
    ensures r.events[0].stop == r.outcome.abort
    ensures r.outcome.verdict == Equal ==> !r.outcome.abort
    ensures r.outcome.verdict != Equal ==> r.outcome.abort == cfg.controller(comp, r.outcome.verdict)
    ensures WellStopped(r)
  {
    var altered := cfg.evaluator(comp, RawVerdict(comp));
    var stop := if altered != Equal then cfg.controller(comp, altered) else false;
    Run([Event(comp, altered, stop)], Outcome(altered, stop), ctx)
  }

  /** comparer(Comparison): the comparison, deferred */
  function Comparer(comp: Comparison, cfg: Config): Deferred {
    (x: Contexts) => Compare(comp, cfg, x)
  }

  /** new ComparisonChain(): a chain without parts */
  function NewChain(ctx: Contexts): Run {
    Run([], Outcome(Equal, false), ctx)
  }

  /** ComparisonChain.andThen */
  function AndThen(chain: Run, next: Deferred): (r: Run)
    ensures chain.outcome.abort ==> r == chain
    ensures !chain.outcome.abort ==>
      && r.events == chain.events + next(chain.contexts).events
      && r.outcome == next(chain.contexts).outcome
      && r.contexts == next(chain.contexts).contexts
    ensures WellStopped(chain) && WellStopped(next(chain.contexts)) ==> WellStopped(r)
  {
    if chain.outcome.abort then chain
    else
      var n := next(chain.contexts);
      var r := Run(chain.events + n.events, n.outcome, n.contexts);
      assert WellStopped(chain) && WellStopped(n) ==> WellStopped(r) by {
        if WellStopped(chain) && WellStopped(n) && n.outcome.abort {
          assert r.events[..|r.events| - 1] == chain.events + n.events[..|n.events| - 1];
        }
      }
      r
  }

  /** ComparisonChain.andIfTrueThen */
  function AndIfTrueThen(chain: Run, evalNext: bool, next: Deferred): Run {
    if evalNext then AndThen(chain, next) else chain
  }

  /** A chain of plain comparisons, all built at the same locations:
      compare(cs[0]).andThen(comparer(cs[1])).andThen(comparer(cs[2])) ... */
  function CompareAll(cs: seq<Comparison>, cfg: Config, ctx: Contexts): (r: Run)
    ensures r.contexts == ctx
    ensures WellStopped(r)
    decreases |cs|
  {
    if |cs| == 0 then NewChain(ctx)
    else AndThen(CompareAll(cs[..|cs| - 1], cfg, ctx), Comparer(cs[|cs| - 1], cfg))
  }

  /** The comparisons of a run, each judged by the evaluator */
  predicate JudgedInOrder(r: Run, cs: seq<Comparison>, cfg: Config) {
    && |r.events| <= |cs|
    && forall i :: 0 <= i < |r.events| ==>
         r.events[i].comparison == cs[i] && r.events[i].verdict == cfg.evaluator(cs[i], RawVerdict(cs[i]))
  }

  /** One more plain comparison on a chain that has not been stopped */
  lemma ComparerStep(prev: Run, c: Comparison, cfg: Config, done: seq<Comparison>)
    requires !prev.outcome.abort
    requires Cmps(prev.events) == done && JudgedInOrder(prev, done, cfg)
    ensures var r := AndThen(prev, Comparer(c, cfg));
      Cmps(r.events) == done + [c] && JudgedInOrder(r, done + [c], cfg)
  {
    var r := AndThen(prev, Comparer(c, cfg));
    var last := Compare(c, cfg, prev.contexts);
    assert r.events == prev.events + last.events;
    CmpsAppend(prev.events, last.events);
    forall i | 0 <= i < |r.events|
      ensures r.events[i].comparison == (done + [c])[i]
      ensures r.events[i].verdict == cfg.evaluator((done + [c])[i], RawVerdict((done + [c])[i]))
    {
      if i < |prev.events| {
        assert r.events[i] == prev.events[i];
      } else {
        assert r.events[i] == last.events[0];
      }
    }
  }

  /** A chain of plain comparisons performs them in order, each judged by
      the evaluator, up to the first one the controller stops at. */
  lemma {:induction false} CompareAllFollows(cs: seq<Comparison>, cfg: Config, ctx: Contexts)
    ensures var r := CompareAll(cs, cfg, ctx);
      && Follows(r, cs)
      && (|cs| > 0 ==> |r.events| > 0)
      && JudgedInOrder(r, cs, cfg)
    decreases |cs|
  {
    if |cs| > 0 {
      var n := |cs| - 1;
      var front := cs[..n];
      var prev := CompareAll(front, cfg, ctx);
      CompareAllFollows(front, cfg, ctx);
      assert cs == front + [cs[n]];
      if !prev.outcome.abort {
        ComparerStep(prev, cs[n], cfg, front);
      }
    }
  }

  predicate NoStop(es: seq<Event>) {
    forall e :: e in es ==> !e.stop
  }

  /** The abort discipline of a log: only the last event may have asked to
      stop, and the run is aborted exactly when it did, with that event's
      verdict. */
  predicate WellStopped(r: Run) {
    if r.outcome.abort then
      && |r.events| > 0
      && r.events[|r.events| - 1].stop
      && r.events[|r.events| - 1].verdict == r.outcome.verdict
      && NoStop(r.events[..|r.events| - 1])
    else NoStop(r.events)
  }

  /** The run's comparisons agree with `expected` as far as the run got, and
      cover all of it unless the run was aborted. */
  predicate Follows(r: Run, expected: seq<Comparison>) {
    && Cmps(r.events) <= expected
    && (!r.outcome.abort ==> Cmps(r.events) == expected)
  }

  /** The comparisons of `expected` open the run: all of them were made
      first, or the run was stopped part way through them. */
  predicate Opens(r: Run, expected: seq<Comparison>) {
    expected <= Cmps(r.events) || (Cmps(r.events) < expected && r.outcome.abort)
  }

  /** A new chain performs nothing */
  lemma NewChainFollows(ctx: Contexts)
    ensures Follows(NewChain(ctx), [])
    ensures WellStopped(NewChain(ctx))
  {
  }

  /** A single comparison performs exactly itself */
  lemma CompareFollows(comp: Comparison, cfg: Config, ctx: Contexts)
    ensures Follows(Compare(comp, cfg, ctx), [comp])
  {
  }

  /** andThen on a chain that follows `a`, with a part that follows `b`,
      follows a + b: either the chain was stopped within `a` and the part
      is skipped, or the part runs after all of `a`. */
  lemma FollowsThen(chain: Run, next: Deferred, a: seq<Comparison>, b: seq<Comparison>)
    requires Follows(chain, a)
    requires !chain.outcome.abort ==> Follows(next(chain.contexts), b)
    ensures Follows(AndThen(chain, next), a + b)
  {
    if !chain.outcome.abort {
      CmpsAppend(chain.events, next(chain.contexts).events);
    }
  }

  /** andIfTrueThen follows a + b when the condition holds, and a otherwise */
  lemma FollowsIf(chain: Run, cond: bool, next: Deferred, a: seq<Comparison>, b: seq<Comparison>)
    requires Follows(chain, a)
    requires cond && !chain.outcome.abort ==> Follows(next(chain.contexts), b)
    ensures Follows(AndIfTrueThen(chain, cond, next), if cond then a + b else a)
  {
    if cond {
      FollowsThen(chain, next, a, b);
    }
  }

  /** Whatever a chain goes on with, what opened it still opens it */
  lemma OpensThen(chain: Run, next: Deferred, a: seq<Comparison>)
    requires Follows(chain, a) || Opens(chain, a)
    ensures Opens(AndThen(chain, next), a)
  {
    if !chain.outcome.abort {
      CmpsAppend(chain.events, next(chain.contexts).events);
    }
  }

  /** andThen on a chain that follows `a`, with a part that `b` opens, is
      opened by a + b */
  lemma FollowsThenOpens(chain: Run, next: Deferred, a: seq<Comparison>, b: seq<Comparison>)
    requires Follows(chain, a)
    requires !chain.outcome.abort ==> Opens(next(chain.contexts), b)
    ensures Opens(AndThen(chain, next), a + b)
  {
    if chain.outcome.abort {
      assert Cmps(chain.events) <= a;
      if |b| > 0 {
        assert (a + b)[..|a|] == a;
      }
    } else {
      var n := next(chain.contexts);
      CmpsAppend(chain.events, n.events);
      if b <= Cmps(n.events) {
        assert (a + Cmps(n.events))[..|a + b|] == a + b;
      } else {
        assert (a + b)[..|a + Cmps(n.events)|] == a + Cmps(n.events);
      }
    }
  }

  /** A run that follows `expected` makes no comparison of a kind that
      `expected` lacks */
  lemma FollowsOnlyKinds(r: Run, expected: seq<Comparison>, kind: ComparisonType)
    requires Follows(r, expected)
    requires forall c :: c in expected ==> c.kind != kind
    ensures forall e :: e in r.events ==> e.comparison.kind != kind
  {
    forall e | e in r.events ensures e.comparison.kind != kind {
      var i :| 0 <= i < |r.events| && r.events[i] == e;
      assert Cmps(r.events)[i] == expected[i];
    }
  }

  // ----- configuration -----

  /** Why a configuration call was refused (IllegalArgumentException) */
  datatype Status = Accepted | Rejected(message: string)

  /** The configurable state of an engine; listeners are opaque handles. */
  datatype DifferenceEngine<L> = DifferenceEngine(
    comparisonListeners: seq<L>,
    matchListeners: seq<L>,
    differenceListeners: seq<L>,
    config: Config,
    namespaceContext: map<string, string>)

  datatype Configured<L> = Configured(engine: DifferenceEngine<L>, status: Status)

  const LISTENER_NULL := "listener must not be null"
  const MATCHER_NULL := "node matcher must not be null"
  const EVALUATOR_NULL := "difference evaluator must not be null"
  const CONTROLLER_NULL := "comparison controller must not be null"

  /** addComparisonListener */
  function AddComparisonListener<L>(e: DifferenceEngine<L>, l: Option<L>): (r: Configured<L>)
    ensures l.None? ==> r == Configured(e, Rejected(LISTENER_NULL))
    ensures l.Some? ==> r.status == Accepted && r.engine.comparisonListeners == e.comparisonListeners + [l.value]
    ensures l.Some? ==> r.engine.(comparisonListeners := e.comparisonListeners) == e
  {
    match l
    case None => Configured(e, Rejected(LISTENER_NULL))
    case Some(v) => Configured(e.(comparisonListeners := e.comparisonListeners + [v]), Accepted)
  }

  /** addMatchListener */
  function AddMatchListener<L>(e: DifferenceEngine<L>, l: Option<L>): (r: Configured<L>)
    ensures l.None? ==> r == Configured(e, Rejected(LISTENER_NULL))
    ensures l.Some? ==> r.status == Accepted && r.engine.matchListeners == e.matchListeners + [l.value]
    ensures l.Some? ==> r.engine.(matchListeners := e.matchListeners) == e
  {
    match l
    case None => Configured(e, Rejected(LISTENER_NULL))
    case Some(v) => Configured(e.(matchListeners := e.matchListeners + [v]), Accepted)
  }

  /** addDifferenceListener */
  function AddDifferenceListener<L>(e: DifferenceEngine<L>, l: Option<L>): (r: Configured<L>)
    ensures l.None? ==> r == Configured(e, Rejected(LISTENER_NULL))
    ensures l.Some? ==> r.status == Accepted && r.engine.differenceListeners == e.differenceListeners + [l.value]
    ensures l.Some? ==> r.engine.(differenceListeners := e.differenceListeners) == e
  {
    match l
    case None => Configured(e, Rejected(LISTENER_NULL))
    case Some(v) => Configured(e.(differenceListeners := e.differenceListeners + [v]), Accepted)
  }

  /** setNodeMatcher */
  function SetNodeMatcher<L>(e: DifferenceEngine<L>, m: Option<Matcher>): (r: Configured<L>)
    ensures m.None? ==> r == Configured(e, Rejected(MATCHER_NULL))
    ensures m.Some? ==> r.status == Accepted && r.engine.config.matcher == m.value
    ensures m.Some? ==> r.engine.(config := e.config) == e
    ensures m.Some? ==> r.engine.config.(matcher := e.config.matcher) == e.config
  {
    match m
    case None => Configured(e, Rejected(MATCHER_NULL))
    case Some(v) => Configured(e.(config := e.config.(matcher := v)), Accepted)
  }

  /** setDifferenceEvaluator */
  function SetDifferenceEvaluator<L>(e: DifferenceEngine<L>, ev: Option<Evaluator>): (r: Configured<L>)
    ensures ev.None? ==> r == Configured(e, Rejected(EVALUATOR_NULL))
    ensures ev.Some? ==> r.status == Accepted && r.engine.config.evaluator == ev.value
    ensures ev.Some? ==> r.engine.(config := e.config) == e
    ensures ev.Some? ==> r.engine.config.(evaluator := e.config.evaluator) == e.config
  {
    match ev
    case None => Configured(e, Rejected(EVALUATOR_NULL))
    case Some(v) => Configured(e.(config := e.config.(evaluator := v)), Accepted)
  }

  /** setComparisonController */
  function SetComparisonController<L>(e: DifferenceEngine<L>, c: Option<Controller>): (r: Configured<L>)
    ensures c.None? ==> r == Configured(e, Rejected(CONTROLLER_NULL))
    ensures c.Some? ==> r.status == Accepted && r.engine.config.controller == c.value
    ensures c.Some? ==> r.engine.(config := e.config) == e
    ensures c.Some? ==> r.engine.config.(controller := e.config.controller) == e.config
  {
    match c
    case None => Configured(e, Rejected(CONTROLLER_NULL))
    case Some(v) => Configured(e.(config := e.config.(controller := v)), Accepted)
  }
}
