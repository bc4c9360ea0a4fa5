/** The loops that compare the observed topology with the expected one. */
module TopologyChecks {
  import opened Spans
  import opened Tables
  import opened Topology
  import opened Watermark
  import opened Findings
  import opened Checks
  import opened Expectations
  import opened TopologyLaws

  // ---------- The loops ----------

  /** The first edge that matches, or -1. */
  method MatchingEdge(edges: seq<ExpectedEdge>, observed: Edge) returns (i: int)
    ensures -1 <= i < |edges| && (i >= 0 <==> MatchesAny(edges, observed))
    ensures i >= 0 ==> EdgeMatches(edges[i], observed) && forall k :: 0 <= k < i ==> !EdgeMatches(edges[k], observed)
  {
    hide EdgeMatches;
    for k := 0 to |edges|
      invariant forall j :: 0 <= j < k ==> !EdgeMatches(edges[j], observed)
    {
      if EdgeMatches(edges[k], observed) {
        return k;
      }
    }
    i := -1;
  }

  /** Marks the expectations the edge matches and counts them. */
  method MarkMatches(expected: seq<ExpectedEdge>, o: Edge, matched: array<bool>) returns (matchCount: nat)
    requires matched.Length == |expected|
    modifies matched
    ensures matchCount > 0 <==> MatchesAny(expected, o)
    ensures forall i :: 0 <= i < |expected| ==> matched[i] == (old(matched[i]) || EdgeMatches(expected[i], o))
  {
    hide EdgeMatches;
    matchCount := 0;
    for i := 0 to |expected|
      invariant matchCount > 0 <==> exists k :: 0 <= k < i && EdgeMatches(expected[k], o)
      invariant forall k :: 0 <= k < i ==> matched[k] == (old(matched[k]) || EdgeMatches(expected[k], o))
      invariant forall k :: i <= k < |expected| ==> matched[k] == old(matched[k])
    {
      if EdgeMatches(expected[i], o) {
        matched[i] := true;
        matchCount := matchCount + 1;
      }
    }
  }

  method ObservedEdge(plan: Plan, r: Rule, o: Edge, matched: array<bool>) returns (f: Option<Finding>)
    requires matched.Length == |plan.expected|
    modifies matched
    ensures f == ObservedFinding(plan, r, o)
    ensures forall i :: 0 <= i < |plan.expected| ==>
              matched[i] == (old(matched[i]) || Fulfils(plan, plan.expected[i], o))
  {
    hide EdgeMatches, MatchesAny, EdgeFinding;
    var denied := MatchingEdge(plan.denied, o);
    if denied >= 0 {
      return Some(EdgeFinding(r, o, CorrelatedTopology, High));
    }
    var ignored := MatchingEdge(plan.ignored, o);
    if ignored >= 0 || |plan.expected| == 0 {
      return None;
    }
    var matchCount := MarkMatches(plan.expected, o, matched);
    if matchCount > 0 {
      return None;
    }
    f := Some(EdgeFinding(r, o, CorrelatedTopology, High));
  }

  lemma SatisfiedOneMore(plan: Plan, edges: seq<Edge>, k: nat, x: ExpectedEdge)
    requires k < |edges|
    ensures Satisfied(plan, edges[..k + 1], x) <==> Satisfied(plan, edges[..k], x) || Fulfils(plan, x, edges[k])
  {
    hide Fulfils;
    assert forall j :: 0 <= j <= k ==> edges[..k + 1][j] == edges[j];
    assert forall j :: 0 <= j < k ==> edges[..k][j] == edges[j];
    if Satisfied(plan, edges[..k], x) {
      var j :| 0 <= j < k && Fulfils(plan, x, edges[..k][j]);
      assert Fulfils(plan, x, edges[..k + 1][j]);
    }
    if Fulfils(plan, x, edges[k]) {
      assert Fulfils(plan, x, edges[..k + 1][k]);
    }
  }

  lemma NothingSatisfied(plan: Plan)
    ensures forall x :: !Satisfied(plan, [], x)
  {}

  method ObservedEdges(plan: Plan, r: Rule, edges: seq<Edge>, matched: array<bool>) returns (out: seq<Finding>)
    requires matched.Length == |plan.expected| && forall i :: 0 <= i < matched.Length ==> !matched[i]
    modifies matched
    ensures out == ObservedFindings(plan, r, edges)
    ensures forall i :: 0 <= i < |plan.expected| ==> matched[i] == Satisfied(plan, edges, plan.expected[i])
  {
    hide Satisfied, Fulfils, ObservedFinding;
    out := [];
    NothingSatisfied(plan);
    assert edges[..0] == [];
    for k := 0 to |edges|
      invariant out == ObservedFindings(plan, r, edges[..k])
      invariant forall i :: 0 <= i < |plan.expected| ==> matched[i] == Satisfied(plan, edges[..k], plan.expected[i])
    {
      assert edges[..k + 1][..k] == edges[..k];
      var f := ObservedEdge(plan, r, edges[k], matched);
      out := out + Listed(f);
      forall i | 0 <= i < |plan.expected|
        ensures Satisfied(plan, edges[..k + 1], plan.expected[i])
                <==> Satisfied(plan, edges[..k], plan.expected[i]) || Fulfils(plan, plan.expected[i], edges[k])
      {
        SatisfiedOneMore(plan, edges, k, plan.expected[i]);
      }
    }
    assert edges[..|edges|] == edges;
  }

  method FindDelivery(x: ExpectedEdge, spans: seq<Span>, xs: seq<Correlation>, pi: nat) returns (found: bool)
    requires PairsInRange(spans, xs) && pi < |spans|
    ensures found == Delivered(x, spans, xs, pi)
  {
    hide EdgeMatches, Covers, EdgeBetween;
    found := false;
    for k := 0 to |xs|
      invariant !found
      invariant forall j :: 0 <= j < k && xs[j].producer == pi ==> !Covers(x, spans[pi], spans[xs[j].consumer])
    {
      if xs[k].producer != pi {
        continue;
      }
      var consumer := spans[xs[k].consumer];
      CoversEdge(x, spans[pi], consumer);
      if EdgeMatches(x, EdgeBetween(spans[pi], consumer)) {
        return true;
      }
    }
  }

  method MissingRequiredConsumers(cfg: Settings, r: Rule, x: ExpectedEdge, spans: seq<Span>, xs: seq<Correlation>,
                                  audit: AuditContext)
    returns (out: seq<Finding>)
    requires PairsInRange(spans, xs)
    ensures out == UndeliveredFindings(cfg, r, x, spans, xs, audit, |spans|)
    ensures audit.watermark == EventWatermark(spans) ==>
              StraysTold(r, x, spans, xs, cfg.window, audit.finalized, out)
  {
    hide ProducerMatches, WindowClosed, Delivered, NewFinding, MarkAbsence, PairsInRange, EventWatermark, StraysTold;
    if audit.watermark == EventWatermark(spans) {
      StraysAreTold(cfg, r, x, spans, xs, audit);
    }
    out := [];
    for pi := 0 to |spans|
      invariant out == UndeliveredFindings(cfg, r, x, spans, xs, audit, pi)
    {
      var producer := spans[pi];
      if !ProducerMatches(x, producer) || !WindowClosed(producer, cfg.window, audit) {
        continue;
      }
      if producer.batchCount.Some? && producer.batchCount.value > 1 {
        continue;
      }
      var found := FindDelivery(x, spans, xs, pi);
      if !found {
        var f := MarkAbsence(NewFinding(r, producer, None, ExpectedDelivery, Medium), audit);
        f := f.(consumerService := x.consumer, consumerGroup := x.consumerGroup, subscription := x.subscription);
        out := out + [f];
      }
    }
  }

  method FindEligibleProducer(x: ExpectedEdge, spans: seq<Span>, window: int, audit: AuditContext) returns (found: bool)
    ensures found == HasEligibleProducer(x, spans, window, audit)
  {
    hide ProducerMatches, WindowClosed;
    for k := 0 to |spans|
      invariant forall j :: 0 <= j < k ==> !(ProducerMatches(x, spans[j]) && WindowClosed(spans[j], window, audit))
    {
      if ProducerMatches(x, spans[k]) && WindowClosed(spans[k], window, audit) {
        return true;
      }
    }
    found := false;
  }

  method Expectation(cfg: Settings, plan: Plan, r: Rule, x: ExpectedEdge, spans: seq<Span>, xs: seq<Correlation>,
                     ghost edges: seq<Edge>, audit: AuditContext, matched: bool)
    returns (out: seq<Finding>)
    requires PairsInRange(spans, xs) && matched == Satisfied(plan, edges, x)
    ensures out == ExpectationFindings(cfg, plan, r, x, spans, xs, edges, audit)
  {
    hide Satisfied, HasEligibleProducer, EdgeFinding, MarkAbsence, UndeliveredFindings;
    if x.requirePerMessage {
      out := MissingRequiredConsumers(cfg, r, x, spans, xs, audit);
      return;
    }
    out := [];
    var eligible := FindEligibleProducer(x, spans, cfg.window, audit);
    if !matched && eligible {
      var confidence := Low;
      if audit.coverageComplete {
        confidence := Medium;
      }
      out := [MarkAbsence(EdgeFinding(r, AsEdge(x), ExpectedTopology, confidence), audit)];
    }
  }

  /** The check builds the topology anew; `edges` is that topology, there being only one. */
  method TopologyCheck(cfg: Settings, plan: Plan, r: Rule, spans: seq<Span>, xs: seq<Correlation>, audit: AuditContext,
                       ghost edges: seq<Edge>)
    returns (out: seq<Finding>)
    requires PairsInRange(spans, xs) && IsTopology(spans, xs, edges)
    ensures out == TopologyFindings(cfg, plan, r, spans, xs, edges, audit)
    ensures audit.watermark == EventWatermark(spans) && NulFree(spans) ==>
              TopologyTold(plan, r, spans, xs, cfg.window, audit.finalized, out)
  {
    hide IsTopology, PairsInRange, Satisfied, ObservedFindings, ExpectationFindings, EventWatermark, NulFree, KeysTell,
         TopologyTold, Observes;
    if audit.watermark == EventWatermark(spans) && NulFree(spans) {
      NulFreeTells(spans, xs);
      TopologyFindingsTold(cfg, plan, r, spans, xs, edges, audit);
    }
    var observed := BuildTopology(spans, xs);
    TopologyUnique(spans, xs, observed, edges);
    var matched := new bool[|plan.expected|](_ => false);
    var news := ObservedEdges(plan, r, observed, matched);
    var missing: seq<Finding> := [];
    for i := 0 to |plan.expected|
      invariant missing == PlanFindings(cfg, plan, r, spans, xs, edges, audit, i)
      invariant forall k :: 0 <= k < |plan.expected| ==> matched[k] == Satisfied(plan, edges, plan.expected[k])
    {
      var found := Expectation(cfg, plan, r, plan.expected[i], spans, xs, edges, audit, matched[i]);
      missing := missing + found;
    }
    out := news + missing;
  }
}
