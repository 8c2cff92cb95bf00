/** DOMDifferenceEngine.compare(Source, Source): the entry point that refuses
    a missing document and otherwise walks the two nodes from their own
    locations. */
module Sources {
  import opened Dom
  import opened Comparisons
  import opened Engine
  import opened Walk
  import opened Properties

  const CONTROL_NULL := "control must not be null"
  const TEST_NULL := "test must not be null"

  /** How a call to compare ends: refused with an IllegalArgumentException
      carrying `message`, or finished with the walk of the two nodes. */
  datatype Finish = Refused(message: string) | Finished(run: Run)

  /** `start` holds the locations the engine computes for the two nodes
      (one XPathContext per node); a missing source is None. */
  function CompareSources(control: Option<Node>, test: Option<Node>, start: Contexts, cfg: Config): (f: Finish)
    ensures control.None? <==> f == Refused(CONTROL_NULL)
    ensures control.Some? && test.None? <==> f == Refused(TEST_NULL)
    ensures f.Finished? <==> control.Some? && test.Some?
    ensures f.Finished? ==> f.run.contexts == start && Tidy(f.run, start)
  {
    if control.None? then Refused(CONTROL_NULL)
    else if test.None? then Refused(TEST_NULL)
    else Finished(CompareNodes(control.value, test.value, start, cfg))
  }

  /** A finished comparison opens with the node type, namespace URI and
      prefix of the two nodes and, for anything but an attribute, the
      numbers of their children; only a stop cuts this short. */
  lemma SourcesOpen(control: Node, test: Node, start: Contexts, cfg: Config)
    ensures var f := CompareSources(Some(control), Some(test), start, cfg);
      f.Finished? &&
      Opens(f.run, CommonComparisons(control, test, start)
                   + (if control.Attribute? then [] else [LengthComparison(control, test, start)]))
  {
    CompareNodesOpens(control, test, start, cfg);
  }
}
