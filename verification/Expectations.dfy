/** The observed topology against the expected one: which edges match, and the findings that follow. */
module Expectations {
  import opened Spans
  import opened Tables
  import opened Topology
  import opened Watermark
  import opened Findings
  import opened Checks

  datatype ExpectedEdge = ExpectedEdge(
    producer: string, system: string, destination: string, consumer: string, consumerGroup: string,
    subscription: string,
    environment: string, serviceNamespace: string, destinationNamespace: string, brokerAddress: string,
    requirePerMessage: bool)

  datatype Plan = Plan(expected: seq<ExpectedEdge>, denied: seq<ExpectedEdge>, ignored: seq<ExpectedEdge>)

  // ---------- Matching ----------

  predicate WildcardMatch(expected: string, actual: string) { expected == "*" || expected == actual }

  predicate OptionalMatch(expected: string, actual: string) { expected == "" || expected == "*" || expected == actual }

  predicate EdgeMatches(x: ExpectedEdge, o: Edge) {
    && WildcardMatch(x.producer, o.producer) && WildcardMatch(x.consumer, o.consumer)
    && WildcardMatch(x.system, o.system) && WildcardMatch(x.destination, o.destination)
    && OptionalMatch(x.consumerGroup, o.consumerGroup) && OptionalMatch(x.subscription, o.subscription)
    && OptionalMatch(x.environment, o.environment) && OptionalMatch(x.serviceNamespace, o.serviceNamespace)
    && OptionalMatch(x.destinationNamespace, o.destinationNamespace) && OptionalMatch(x.brokerAddress, o.brokerAddress)
  }

  predicate MatchesAny(edges: seq<ExpectedEdge>, o: Edge) {
    exists k :: 0 <= k < |edges| && EdgeMatches(edges[k], o)
  }

  predicate ProducerMatches(x: ExpectedEdge, s: Span) {
    && s.IsProducer()
    && WildcardMatch(x.producer, s.service) && WildcardMatch(x.system, s.system)
        && WildcardMatch(x.destination, s.destination)
    && OptionalMatch(x.environment, s.environment) && OptionalMatch(x.serviceNamespace, s.serviceNamespace)
    && OptionalMatch(x.destinationNamespace, s.destinationNamespace) && OptionalMatch(x.brokerAddress, s.serverAddress)
  }

  // ---------- Observed edges ----------

  function EdgeFinding(r: Rule, e: Edge, basis: Basis, confidence: Confidence): (f: Finding)
    ensures f.basis == basis && f.evidence == Sufficient && f.traceIds == f.spanIds == []
  {
    Finding(r.id, r.severity, e.producer, e.consumer, e.system, e.destination, e.consumerGroup, e.subscription, [], [],
            basis, confidence, Sufficient, r.message)
  }

  /** A denied edge is reported even when it is expected or ignored; an ignored one never otherwise. */
  function ObservedFinding(plan: Plan, r: Rule, o: Edge): Option<Finding> {
    if MatchesAny(plan.denied, o) then Some(EdgeFinding(r, o, CorrelatedTopology, High))
    else if MatchesAny(plan.ignored, o) || plan.expected == [] || MatchesAny(plan.expected, o) then None
    else Some(EdgeFinding(r, o, CorrelatedTopology, High))
  }

  function ObservedFindings(plan: Plan, r: Rule, edges: seq<Edge>): seq<Finding> {
    if edges == [] then []
    else ObservedFindings(plan, r, edges[..|edges| - 1]) + Listed(ObservedFinding(plan, r, edges[|edges| - 1]))
  }

  /** The edge is neither denied nor ignored and fulfils the expectation. */
  predicate Fulfils(plan: Plan, x: ExpectedEdge, o: Edge) {
    !MatchesAny(plan.denied, o) && !MatchesAny(plan.ignored, o) && EdgeMatches(x, o)
  }

  predicate Satisfied(plan: Plan, edges: seq<Edge>, x: ExpectedEdge) {
    exists k :: 0 <= k < |edges| && Fulfils(plan, x, edges[k])
  }

  // ---------- Expected edges ----------

  predicate HasEligibleProducer(x: ExpectedEdge, spans: seq<Span>, window: int, audit: AuditContext) {
    exists k :: 0 <= k < |spans| && ProducerMatches(x, spans[k]) && WindowClosed(spans[k], window, audit)
  }

  function AsEdge(x: ExpectedEdge): Edge {
    Edge(x.producer, x.system, x.destination, x.consumer, x.consumerGroup, x.subscription,
         x.environment, x.serviceNamespace, x.destinationNamespace, x.brokerAddress, 0)
  }

  function MissingEdgeFinding(cfg: Settings, plan: Plan, r: Rule, x: ExpectedEdge, spans: seq<Span>, edges: seq<Edge>,
                              audit: AuditContext): Option<Finding> {
    if !Satisfied(plan, edges, x) && HasEligibleProducer(x, spans, cfg.window, audit) then
      Some(MarkAbsence(EdgeFinding(r, AsEdge(x), ExpectedTopology, if audit.coverageComplete then Medium else Low),
                       audit))
    else None
  }

  /** The expectation covers what runs from the one span to the other. */
  predicate Covers(x: ExpectedEdge, p: Span, c: Span) {
    && x.producer in {"*", p.service} && x.consumer in {"*", c.service}
    && x.system in {"*", p.system} && x.destination in {"*", p.destination}
    && x.consumerGroup in {"", "*", c.consumerGroup} && x.subscription in {"", "*", c.subscription}
    && x.environment in {"", "*", p.environment} && x.serviceNamespace in {"", "*", p.serviceNamespace}
    && x.destinationNamespace in {"", "*", p.destinationNamespace} && x.brokerAddress in {"", "*", p.serverAddress}
  }

  /** So does the edge between them. */
  lemma CoversEdge(x: ExpectedEdge, p: Span, c: Span)
    ensures EdgeMatches(x, EdgeBetween(p, c)) <==> Covers(x, p, c)
  {}

  /** Some correlation of the producer is covered by the expectation. */
  predicate Delivered(x: ExpectedEdge, spans: seq<Span>, xs: seq<Correlation>, pi: nat)
    requires PairsInRange(spans, xs)
  {
    exists k :: 0 <= k < |xs| && xs[k].producer == pi && Covers(x, spans[pi], spans[xs[k].consumer])
  }

  function ForConsumer(f: Finding, x: ExpectedEdge): Finding {
    f.(consumerService := x.consumer, consumerGroup := x.consumerGroup, subscription := x.subscription)
  }

  function UndeliveredFinding(cfg: Settings, r: Rule, x: ExpectedEdge, spans: seq<Span>, xs: seq<Correlation>,
                              audit: AuditContext, pi: nat): Option<Finding>
    requires PairsInRange(spans, xs) && pi < |spans|
  {
    var p := spans[pi];
    if !ProducerMatches(x, p) || !WindowClosed(p, cfg.window, audit) || (p.batchCount.Some? && p.batchCount.value > 1)
       || Delivered(x, spans, xs, pi) then None
    else Some(ForConsumer(MarkAbsence(NewFinding(r, p, None, ExpectedDelivery, Medium), audit), x))
  }

  function UndeliveredFindings(cfg: Settings, r: Rule, x: ExpectedEdge, spans: seq<Span>, xs: seq<Correlation>,
                               audit: AuditContext, n: nat): seq<Finding>
    requires PairsInRange(spans, xs) && n <= |spans|
  {
    if n == 0 then []
    else
      UndeliveredFindings(cfg, r, x, spans, xs, audit, n - 1)
      + Listed(UndeliveredFinding(cfg, r, x, spans, xs, audit, n - 1))
  }

  function ExpectationFindings(cfg: Settings, plan: Plan, r: Rule, x: ExpectedEdge, spans: seq<Span>,
                               xs: seq<Correlation>, edges: seq<Edge>, audit: AuditContext): seq<Finding>
    requires PairsInRange(spans, xs)
  {
    if x.requirePerMessage then UndeliveredFindings(cfg, r, x, spans, xs, audit, |spans|)
    else Listed(MissingEdgeFinding(cfg, plan, r, x, spans, edges, audit))
  }

  /** The findings of the first `n` expectations. */
  function PlanFindings(cfg: Settings, plan: Plan, r: Rule, spans: seq<Span>, xs: seq<Correlation>, edges: seq<Edge>,
                        audit: AuditContext, n: nat): seq<Finding>
    requires PairsInRange(spans, xs) && n <= |plan.expected|
  {
    if n == 0 then []
    else PlanFindings(cfg, plan, r, spans, xs, edges, audit, n - 1)
         + ExpectationFindings(cfg, plan, r, plan.expected[n - 1], spans, xs, edges, audit)
  }

  function TopologyFindings(cfg: Settings, plan: Plan, r: Rule, spans: seq<Span>, xs: seq<Correlation>,
                            edges: seq<Edge>, audit: AuditContext): seq<Finding>
    requires PairsInRange(spans, xs)
  {
    ObservedFindings(plan, r, edges) + PlanFindings(cfg, plan, r, spans, xs, edges, audit, |plan.expected|)
  }

  // ---------- What a missing edge means ----------

  lemma MatchingByFields(x: ExpectedEdge, a: Edge, b: Edge)
    requires a.Fields() == b.Fields()
    ensures EdgeMatches(x, a) <==> EdgeMatches(x, b)
  {
    assert forall i :: 0 <= i < 10 ==> a.Fields()[i] == b.Fields()[i];
    assert a.Fields()[0] == a.producer && a.Fields()[1] == a.system && a.Fields()[2] == a.destination
        && a.Fields()[3] == a.consumer;
    assert a.Fields()[4] == a.consumerGroup && a.Fields()[5] == a.subscription && a.Fields()[6] == a.environment;
    assert a.Fields()[7] == a.serviceNamespace && a.Fields()[8] == a.destinationNamespace
        && a.Fields()[9] == a.brokerAddress;
  }

  lemma FulfilsByFields(plan: Plan, x: ExpectedEdge, a: Edge, b: Edge)
    requires a.Fields() == b.Fields()
    ensures Fulfils(plan, x, a) <==> Fulfils(plan, x, b)
  {
    MatchingByFields(x, a, b);
    forall y ensures EdgeMatches(y, a) <==> EdgeMatches(y, b) {
      MatchingByFields(y, a, b);
    }
    hide EdgeMatches;
  }

  lemma SatisfiedFromEdge(plan: Plan, x: ExpectedEdge, spans: seq<Span>, xs: seq<Correlation>, edges: seq<Edge>,
                          e: Edge)
    returns (j: nat)
    requires PairsInRange(spans, xs) && IsTopology(spans, xs, edges) && e in edges && Fulfils(plan, x, e)
    ensures j < |xs| && Fulfils(plan, x, EdgeOf(spans, xs[j]))
  {
    hide Fulfils, IsTopology, EdgeOf, KeyOf, CountedEdge, Edge.Fields, Edge.Key;
    j := EdgeSource(spans, xs, edges, e);
    CountedKey(spans, xs, j);
    FulfilsByFields(plan, x, e, EdgeOf(spans, xs[j]));
  }

  lemma SatisfiedToEdge(plan: Plan, x: ExpectedEdge, spans: seq<Span>, xs: seq<Correlation>, edges: seq<Edge>, k: nat)
    returns (e: Edge)
    requires PairsInRange(spans, xs) && IsTopology(spans, xs, edges) && Topology.KeysTell(spans, xs)
    requires k < |xs| && Fulfils(plan, x, EdgeOf(spans, xs[k]))
    ensures e in edges && Fulfils(plan, x, e)
  {
    hide Fulfils, IsTopology, Topology.KeysTell, EdgeOf, Edge.Fields;
    e := TopologyComplete(spans, xs, edges, k);
    FulfilsByFields(plan, x, e, EdgeOf(spans, xs[k]));
  }

  /** What runs from the one span to the other is neither denied nor ignored, and the expectation covers it. */
  predicate Meets(plan: Plan, x: ExpectedEdge, p: Span, c: Span) {
    && (forall k :: 0 <= k < |plan.denied| ==> !Covers(plan.denied[k], p, c))
    && (forall k :: 0 <= k < |plan.ignored| ==> !Covers(plan.ignored[k], p, c))
    && Covers(x, p, c)
  }

  lemma MeetsEdge(plan: Plan, x: ExpectedEdge, p: Span, c: Span)
    ensures Fulfils(plan, x, EdgeBetween(p, c)) <==> Meets(plan, x, p, c)
  {
    forall y ensures EdgeMatches(y, EdgeBetween(p, c)) <==> Covers(y, p, c) {
      CoversEdge(y, p, c);
    }
    hide EdgeMatches, Covers, EdgeBetween;
  }

  /** When the keys tell the edges apart, an expectation counts as satisfied exactly when some correlation joins spans
      that meet it: aggregating the correlations loses and invents nothing. */
  lemma SatisfiedByCorrelation(plan: Plan, x: ExpectedEdge, spans: seq<Span>, xs: seq<Correlation>, edges: seq<Edge>)
    requires PairsInRange(spans, xs) && IsTopology(spans, xs, edges) && Topology.KeysTell(spans, xs)
    ensures Satisfied(plan, edges, x)
            <==> exists k :: 0 <= k < |xs| && Meets(plan, x, spans[xs[k].producer], spans[xs[k].consumer])
  {
    hide Fulfils, IsTopology, Topology.KeysTell, EdgeBetween, Meets;
    if Satisfied(plan, edges, x) {
      var k :| 0 <= k < |edges| && Fulfils(plan, x, edges[k]);
      var j := SatisfiedFromEdge(plan, x, spans, xs, edges, edges[k]);
      MeetsEdge(plan, x, spans[xs[j].producer], spans[xs[j].consumer]);
    }
    if k :| 0 <= k < |xs| && Meets(plan, x, spans[xs[k].producer], spans[xs[k].consumer]) {
      MeetsEdge(plan, x, spans[xs[k].producer], spans[xs[k].consumer]);
      var e := SatisfiedToEdge(plan, x, spans, xs, edges, k);
    }
  }

  /** An orphaned producer that is to reach a consumer with every message is also reported as undelivered. */
  lemma OrphanIsUndelivered(cfg: Settings, r: Rule, x: ExpectedEdge, spans: seq<Span>, t: Table, audit: AuditContext,
                            pi: nat)
    requires Agree(spans, cfg.window, t, |spans|) && PairsInRange(spans, t.correlations) && pi < |spans|
    requires OrphanProducerFinding(cfg, r, spans, t, audit, pi).Some? && ProducerMatches(x, spans[pi])
    requires spans[pi].batchCount.None? || spans[pi].batchCount.value <= 1
    ensures UndeliveredFinding(cfg, r, x, spans, t.correlations, audit, pi).Some?
  {
    UnmatchedProducer(spans, cfg.window, t, pi);
    hide Agree, ProducerMatches, WindowClosed, NewFinding, MarkAbsence, Covers;
  }

  // ---------- From a live window to a finished input ----------

  lemma EligibleStays(x: ExpectedEdge, spans: seq<Span>, window: int, live: AuditContext, offline: AuditContext)
    requires Outlasts(offline, live) && HasEligibleProducer(x, spans, window, live)
    ensures HasEligibleProducer(x, spans, window, offline)
  {
    hide ProducerMatches;
    var k :| 0 <= k < |spans| && ProducerMatches(x, spans[k]) && WindowClosed(spans[k], window, live);
    ClosedLiveClosedOffline(spans[k], window, live, offline);
  }

  lemma MissingEdgeStays(cfg: Settings, plan: Plan, r: Rule, x: ExpectedEdge, spans: seq<Span>, edges: seq<Edge>,
                         live: AuditContext, offline: AuditContext)
    requires Outlasts(offline, live)
    ensures Stays(MissingEdgeFinding(cfg, plan, r, x, spans, edges, live),
                  MissingEdgeFinding(cfg, plan, r, x, spans, edges, offline))
  {
    if HasEligibleProducer(x, spans, cfg.window, live) {
      EligibleStays(x, spans, cfg.window, live, offline);
    }
    hide Satisfied, HasEligibleProducer, MarkAbsence;
  }

  lemma UndeliveredStays(cfg: Settings, r: Rule, x: ExpectedEdge, spans: seq<Span>, xs: seq<Correlation>,
                         live: AuditContext, offline: AuditContext, pi: nat)
    requires PairsInRange(spans, xs) && pi < |spans| && Outlasts(offline, live)
    ensures Stays(UndeliveredFinding(cfg, r, x, spans, xs, live, pi),
                  UndeliveredFinding(cfg, r, x, spans, xs, offline, pi))
  {
    hide ProducerMatches, Delivered, NewFinding;
    if WindowClosed(spans[pi], cfg.window, live) {
      ClosedLiveClosedOffline(spans[pi], cfg.window, live, offline);
    }
  }

  lemma {:induction false} UndeliveredAppear(cfg: Settings, r: Rule, x: ExpectedEdge, spans: seq<Span>,
                                             xs: seq<Correlation>, live: AuditContext, offline: AuditContext, n: nat)
    requires PairsInRange(spans, xs) && n <= |spans| && Outlasts(offline, live)
    ensures Appears(UndeliveredFindings(cfg, r, x, spans, xs, live, n),
                    UndeliveredFindings(cfg, r, x, spans, xs, offline, n))
  {
    hide UndeliveredFinding, Appears, Stays, Outlasts, Listed, PairsInRange;
    if n == 0 {
      NothingAppears([]);
    } else {
      UndeliveredAppear(cfg, r, x, spans, xs, live, offline, n - 1);
      UndeliveredStays(cfg, r, x, spans, xs, live, offline, n - 1);
      AppearsOneMore(UndeliveredFindings(cfg, r, x, spans, xs, live, n - 1),
                     UndeliveredFindings(cfg, r, x, spans, xs, offline, n - 1),
                     UndeliveredFinding(cfg, r, x, spans, xs, live, n - 1),
                     UndeliveredFinding(cfg, r, x, spans, xs, offline, n - 1));
    }
  }

  lemma {:induction false} PlanFindingsAppear(cfg: Settings, plan: Plan, r: Rule, spans: seq<Span>,
                                              xs: seq<Correlation>, edges: seq<Edge>, live: AuditContext,
                                              offline: AuditContext, n: nat)
    requires PairsInRange(spans, xs) && n <= |plan.expected| && Outlasts(offline, live)
    ensures Appears(PlanFindings(cfg, plan, r, spans, xs, edges, live, n),
                    PlanFindings(cfg, plan, r, spans, xs, edges, offline, n))
  {
    hide MissingEdgeFinding, UndeliveredFindings, Appears, Stays, Outlasts, Listed, PairsInRange;
    if n == 0 {
      NothingAppears([]);
    } else {
      var x := plan.expected[n - 1];
      PlanFindingsAppear(cfg, plan, r, spans, xs, edges, live, offline, n - 1);
      UndeliveredAppear(cfg, r, x, spans, xs, live, offline, |spans|);
      MissingEdgeStays(cfg, plan, r, x, spans, edges, live, offline);
      StaysAppears(MissingEdgeFinding(cfg, plan, r, x, spans, edges, live),
                   MissingEdgeFinding(cfg, plan, r, x, spans, edges, offline));
      AppearsConcat(PlanFindings(cfg, plan, r, spans, xs, edges, live, n - 1),
                    PlanFindings(cfg, plan, r, spans, xs, edges, offline, n - 1),
                    ExpectationFindings(cfg, plan, r, x, spans, xs, edges, live),
                    ExpectationFindings(cfg, plan, r, x, spans, xs, edges, offline));
    }
  }

  lemma TopologyFindingsAppear(cfg: Settings, plan: Plan, r: Rule, spans: seq<Span>, xs: seq<Correlation>,
                               edges: seq<Edge>, live: AuditContext, offline: AuditContext)
    requires PairsInRange(spans, xs) && Outlasts(offline, live)
    ensures Appears(TopologyFindings(cfg, plan, r, spans, xs, edges, live),
                    TopologyFindings(cfg, plan, r, spans, xs, edges, offline))
  {
    PlanFindingsAppear(cfg, plan, r, spans, xs, edges, live, offline, |plan.expected|);
    AllAppear(ObservedFindings(plan, r, edges));
    AppearsConcat(ObservedFindings(plan, r, edges), ObservedFindings(plan, r, edges),
                  PlanFindings(cfg, plan, r, spans, xs, edges, live, |plan.expected|),
                  PlanFindings(cfg, plan, r, spans, xs, edges, offline, |plan.expected|));
    hide Appears, ObservedFindings, PlanFindings;
  }

  // ---------- Soundness ----------

  lemma {:induction false} ObservedSound(plan: Plan, r: Rule, edges: seq<Edge>)
    ensures Guarded(ObservedFindings(plan, r, edges)) && Presentable(ObservedFindings(plan, r, edges))
  {
    if edges == [] {
      NothingSound();
    } else {
      hide MatchesAny, EdgeFinding;
      ObservedSound(plan, r, edges[..|edges| - 1]);
      assert Guarded(Listed(ObservedFinding(plan, r, edges[|edges| - 1])));
      SoundConcat(ObservedFindings(plan, r, edges[..|edges| - 1]),
                  Listed(ObservedFinding(plan, r, edges[|edges| - 1])));
    }
  }

  lemma UndeliveredSound(cfg: Settings, r: Rule, x: ExpectedEdge, spans: seq<Span>, xs: seq<Correlation>,
                         audit: AuditContext, pi: nat)
    requires PairsInRange(spans, xs) && pi < |spans|
    ensures !audit.coverageComplete ==> Guarded(Listed(UndeliveredFinding(cfg, r, x, spans, xs, audit, pi)))
    ensures Presentable(Listed(UndeliveredFinding(cfg, r, x, spans, xs, audit, pi)))
  {
    hide ProducerMatches, Delivered, NewFinding, WindowClosed;
  }

  lemma {:induction false} AllUndeliveredSound(cfg: Settings, r: Rule, x: ExpectedEdge, spans: seq<Span>,
                                               xs: seq<Correlation>, audit: AuditContext, n: nat)
    requires PairsInRange(spans, xs) && n <= |spans|
    ensures !audit.coverageComplete ==> Guarded(UndeliveredFindings(cfg, r, x, spans, xs, audit, n))
    ensures Presentable(UndeliveredFindings(cfg, r, x, spans, xs, audit, n))
  {
    hide UndeliveredFinding, Guarded, Presentable, PairsInRange, Listed;
    if n == 0 {
      NothingSound();
    } else {
      AllUndeliveredSound(cfg, r, x, spans, xs, audit, n - 1);
      UndeliveredSound(cfg, r, x, spans, xs, audit, n - 1);
      SoundConcat(UndeliveredFindings(cfg, r, x, spans, xs, audit, n - 1),
                  Listed(UndeliveredFinding(cfg, r, x, spans, xs, audit, n - 1)));
    }
  }

  lemma MissingEdgeSound(cfg: Settings, plan: Plan, r: Rule, x: ExpectedEdge, spans: seq<Span>, edges: seq<Edge>,
                         audit: AuditContext)
    ensures !audit.coverageComplete ==> Guarded(Listed(MissingEdgeFinding(cfg, plan, r, x, spans, edges, audit)))
    ensures Presentable(Listed(MissingEdgeFinding(cfg, plan, r, x, spans, edges, audit)))
  {
    hide Satisfied, HasEligibleProducer, EdgeFinding, AsEdge;
  }

  lemma ExpectationSound(cfg: Settings, plan: Plan, r: Rule, x: ExpectedEdge, spans: seq<Span>, xs: seq<Correlation>,
                         edges: seq<Edge>, audit: AuditContext)
    requires PairsInRange(spans, xs)
    ensures var fs := ExpectationFindings(cfg, plan, r, x, spans, xs, edges, audit);
      (!audit.coverageComplete ==> Guarded(fs)) && Presentable(fs)
  {
    AllUndeliveredSound(cfg, r, x, spans, xs, audit, |spans|);
    MissingEdgeSound(cfg, plan, r, x, spans, edges, audit);
    hide MissingEdgeFinding, UndeliveredFindings, Guarded, Presentable, PairsInRange;
  }

  lemma {:induction false} PlanFindingsSound(cfg: Settings, plan: Plan, r: Rule, spans: seq<Span>, xs: seq<Correlation>,
                                             edges: seq<Edge>, audit: AuditContext, n: nat)
    requires PairsInRange(spans, xs) && n <= |plan.expected|
    ensures !audit.coverageComplete ==> Guarded(PlanFindings(cfg, plan, r, spans, xs, edges, audit, n))
    ensures Presentable(PlanFindings(cfg, plan, r, spans, xs, edges, audit, n))
  {
    hide ExpectationFindings, Guarded, Presentable, PairsInRange;
    if n == 0 {
      NothingSound();
    } else {
      PlanFindingsSound(cfg, plan, r, spans, xs, edges, audit, n - 1);
      ExpectationSound(cfg, plan, r, plan.expected[n - 1], spans, xs, edges, audit);
      SoundConcat(PlanFindings(cfg, plan, r, spans, xs, edges, audit, n - 1),
                  ExpectationFindings(cfg, plan, r, plan.expected[n - 1], spans, xs, edges, audit));
    }
  }

  lemma TopologyFindingsSound(cfg: Settings, plan: Plan, r: Rule, spans: seq<Span>, xs: seq<Correlation>,
                              edges: seq<Edge>, audit: AuditContext)
    requires PairsInRange(spans, xs)
    ensures var fs := TopologyFindings(cfg, plan, r, spans, xs, edges, audit);
      (!audit.coverageComplete ==> Guarded(fs)) && Presentable(fs)
  {
    ObservedSound(plan, r, edges);
    PlanFindingsSound(cfg, plan, r, spans, xs, edges, audit, |plan.expected|);
    hide ObservedFindings, PlanFindings, Guarded, Presentable;
    SoundConcat(ObservedFindings(plan, r, edges), PlanFindings(cfg, plan, r, spans, xs, edges, audit, |plan.expected|));
  }
}
