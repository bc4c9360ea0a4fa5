/** What the topology findings say, in the fields of the spans and of the expectations. */
module TopologyLaws {
  import opened Text
  import opened Spans
  import opened Tables
  import opened Topology
  import opened Watermark
  import opened Findings
  import opened Checks
  import opened Expectations

  // ---------- When a finding is raised ----------

  /** Span `k` sent something that the expectation covers if the right consumer took it, and its window is closed: it
      has ended, and in a live window something has ended at least the window later. */
  ghost predicate Sent(x: ExpectedEdge, spans: seq<Span>, window: int, finalized: bool, k: nat)
    requires k < |spans|
  {
    && ToLower(spans[k].operationType) in {"create", "send"}
    && (exists c :: Covers(x, spans[k], c))
    && spans[k].end != ZERO_TIME
    && (finalized || exists j :: 0 <= j < |spans| && spans[j].end > ZERO_TIME && spans[j].end >= spans[k].end + window)
  }

  lemma ProducerMatchesMeans(x: ExpectedEdge, s: Span)
    ensures ProducerMatches(x, s)
            <==> ToLower(s.operationType) in {"create", "send"} && exists c :: Covers(x, s, c)
  {
    var c := BLANK.(service := x.consumer, consumerGroup := x.consumerGroup, subscription := x.subscription);
    assert Covers(x, s, c) || !ProducerMatches(x, s);
    hide ToLower;
  }

  lemma SentMeans(x: ExpectedEdge, spans: seq<Span>, window: int, audit: AuditContext, k: nat)
    requires k < |spans| && audit.watermark == EventWatermark(spans)
    ensures ProducerMatches(x, spans[k]) && WindowClosed(spans[k], window, audit)
            <==> Sent(x, spans, window, audit.finalized, k)
  {
    hide ProducerMatches, Covers, WindowClosed, EventWatermark, ToLower;
    ProducerMatchesMeans(x, spans[k]);
    WindowClosedMeans(spans, spans[k], window, audit);
  }

  /** An undelivered message is reported exactly for an unbatched producer that the expectation covers, with a closed
      window, none of whose correlations the expectation covers. */
  lemma UndeliveredMeaning(cfg: Settings, r: Rule, x: ExpectedEdge, spans: seq<Span>, xs: seq<Correlation>,
                           audit: AuditContext, pi: nat)
    requires PairsInRange(spans, xs) && pi < |spans| && audit.watermark == EventWatermark(spans)
    ensures UndeliveredFinding(cfg, r, x, spans, xs, audit, pi).Some?
            <==> && Sent(x, spans, cfg.window, audit.finalized, pi)
                 && (spans[pi].batchCount.None? || spans[pi].batchCount.value <= 1)
                 && forall k :: 0 <= k < |xs| && xs[k].producer == pi ==> !Covers(x, spans[pi], spans[xs[k].consumer])
  {
    hide ProducerMatches, Covers, WindowClosed, EventWatermark, Sent, NewFinding, MarkAbsence;
    SentMeans(x, spans, cfg.window, audit, pi);
  }

  /** When the keys tell the edges apart, a missing edge is reported exactly when some producer that the expectation
      covers has a closed window and no correlation joins spans that meet it. */
  lemma MissingEdgeMeaning(cfg: Settings, plan: Plan, r: Rule, x: ExpectedEdge, spans: seq<Span>,
                           xs: seq<Correlation>, edges: seq<Edge>, audit: AuditContext)
    requires PairsInRange(spans, xs) && IsTopology(spans, xs, edges) && Topology.KeysTell(spans, xs)
    requires audit.watermark == EventWatermark(spans)
    ensures MissingEdgeFinding(cfg, plan, r, x, spans, edges, audit).Some?
            <==> && (exists k :: 0 <= k < |spans| && Sent(x, spans, cfg.window, audit.finalized, k))
                 && forall k :: 0 <= k < |xs| ==> !Meets(plan, x, spans[xs[k].producer], spans[xs[k].consumer])
  {
    hide Satisfied, Meets, IsTopology, Topology.KeysTell, ProducerMatches, WindowClosed, EventWatermark, Sent,
         EdgeFinding, MarkAbsence;
    SatisfiedByCorrelation(plan, x, spans, xs, edges);
    forall k | 0 <= k < |spans|
      ensures ProducerMatches(x, spans[k]) && WindowClosed(spans[k], cfg.window, audit)
              <==> Sent(x, spans, cfg.window, audit.finalized, k)
    {
      SentMeans(x, spans, cfg.window, audit, k);
    }
  }

  /** What runs from the one span to the other is denied, or there are expectations and it is neither ignored nor
      covered by one. */
  predicate Drifts(plan: Plan, p: Span, c: Span) {
    || (exists k :: 0 <= k < |plan.denied| && Covers(plan.denied[k], p, c))
    || (&& plan.expected != []
        && (forall k :: 0 <= k < |plan.ignored| ==> !Covers(plan.ignored[k], p, c))
        && (forall k :: 0 <= k < |plan.expected| ==> !Covers(plan.expected[k], p, c)))
  }

  lemma DriftMeans(plan: Plan, r: Rule, p: Span, c: Span)
    ensures ObservedFinding(plan, r, EdgeBetween(p, c)).Some? <==> Drifts(plan, p, c)
  {
    forall y ensures EdgeMatches(y, EdgeBetween(p, c)) <==> Covers(y, p, c) {
      CoversEdge(y, p, c);
    }
    hide EdgeMatches, Covers, EdgeBetween, EdgeFinding;
  }

  lemma DriftAlong(plan: Plan, r: Rule, spans: seq<Span>, e: Edge, x: Correlation)
    requires Along(spans, e, x)
    ensures ObservedFinding(plan, r, e).Some? <==> Drifts(plan, spans[x.producer], spans[x.consumer])
  {
    DriftMeans(plan, r, spans[x.producer], spans[x.consumer]);
    var o := EdgeBetween(spans[x.producer], spans[x.consumer]);
    assert o == e.(count := 0);
    forall y ensures EdgeMatches(y, e) <==> EdgeMatches(y, o) {}
    hide EdgeMatches, Drifts, EdgeFinding, EdgeBetween;
  }

  // ---------- What a finding names ----------

  /** The finding names the producer, what it sent and the consumer. */
  predicate NamesDrift(f: Finding, r: Rule, p: Span, c: Span) {
    && f.ruleId == r.id && f.severity == r.severity && f.message == r.message && f.basis == CorrelatedTopology
    && f.producerService == p.service && f.consumerService == c.service
    && f.system == p.system && f.destination == p.destination
    && f.consumerGroup == c.consumerGroup && f.subscription == c.subscription
  }

  /** The finding names the expectation. */
  predicate NamesMissing(f: Finding, r: Rule, x: ExpectedEdge) {
    && f.ruleId == r.id && f.severity == r.severity && f.message == r.message && f.basis == ExpectedTopology
    && f.producerService == x.producer && f.consumerService == x.consumer
    && f.system == x.system && f.destination == x.destination
    && f.consumerGroup == x.consumerGroup && f.subscription == x.subscription
  }

  /** The finding names the span that was sent, by its ids if it has any, and the consumer that was to take it. */
  predicate NamesUndelivered(f: Finding, r: Rule, x: ExpectedEdge, p: Span) {
    && f.ruleId == r.id && f.severity == r.severity && f.message == r.message && f.basis == ExpectedDelivery
    && f.spanIds == (if p.spanId == "" then [] else [p.spanId])
    && f.traceIds == (if p.spanId == "" || p.traceId == "" then [] else [p.traceId])
    && f.producerService == (if p.spanId == "" || p.kind == "CONSUMER" then "" else p.service)
    && f.consumerService == x.consumer && f.system == p.system && f.destination == p.destination
    && f.consumerGroup == x.consumerGroup && f.subscription == x.subscription
  }

  predicate NamedUndelivered(fs: seq<Finding>, r: Rule, x: ExpectedEdge, p: Span) {
    exists k :: 0 <= k < |fs| && NamesUndelivered(fs[k], r, x, p)
  }

  lemma DriftNames(plan: Plan, r: Rule, spans: seq<Span>, e: Edge, x: Correlation)
    requires Along(spans, e, x) && ObservedFinding(plan, r, e).Some?
    ensures NamesDrift(ObservedFinding(plan, r, e).value, r, spans[x.producer], spans[x.consumer])
  {
    hide MatchesAny;
  }

  lemma MissingNames(cfg: Settings, plan: Plan, r: Rule, x: ExpectedEdge, spans: seq<Span>, edges: seq<Edge>,
                     audit: AuditContext)
    requires MissingEdgeFinding(cfg, plan, r, x, spans, edges, audit).Some?
    ensures NamesMissing(MissingEdgeFinding(cfg, plan, r, x, spans, edges, audit).value, r, x)
  {
    hide Satisfied, HasEligibleProducer;
  }

  lemma UndeliveredNames(cfg: Settings, r: Rule, x: ExpectedEdge, spans: seq<Span>, xs: seq<Correlation>,
                         audit: AuditContext, pi: nat)
    requires PairsInRange(spans, xs) && pi < |spans|
    requires UndeliveredFinding(cfg, r, x, spans, xs, audit, pi).Some?
    ensures NamesUndelivered(UndeliveredFinding(cfg, r, x, spans, xs, audit, pi).value, r, x, spans[pi])
  {
    hide Delivered, WindowClosed, WildcardMatch, OptionalMatch;
    assert !spans[pi].IsConsumer();
  }

  /** Findings about what is missing are sufficient, of medium confidence, only of input known to be complete; else
      they are insufficient and of low confidence. */
  predicate EvidenceOfAbsence(f: Finding, audit: AuditContext) {
    if audit.coverageComplete then f.evidence == Sufficient && f.confidence == Medium
    else f.evidence == Insufficient && f.confidence == Low
  }

  lemma MissingEvidence(cfg: Settings, plan: Plan, r: Rule, x: ExpectedEdge, spans: seq<Span>, xs: seq<Correlation>,
                        edges: seq<Edge>, audit: AuditContext, pi: nat)
    requires PairsInRange(spans, xs) && pi < |spans|
    ensures var missing := MissingEdgeFinding(cfg, plan, r, x, spans, edges, audit);
      missing.Some? ==> EvidenceOfAbsence(missing.value, audit)
    ensures var undelivered := UndeliveredFinding(cfg, r, x, spans, xs, audit, pi);
      undelivered.Some? ==> EvidenceOfAbsence(undelivered.value, audit)
  {
    hide Satisfied, HasEligibleProducer, Delivered, WindowClosed, ProducerMatches, NewFinding, PairsInRange;
  }

  // ---------- The findings of the check ----------

  lemma {:induction false} ObservedMembers(plan: Plan, r: Rule, edges: seq<Edge>, f: Finding)
    ensures f in ObservedFindings(plan, r, edges)
            <==> exists i :: 0 <= i < |edges| && ObservedFinding(plan, r, edges[i]) == Some(f)
  {
    if edges != [] {
      hide ObservedFinding;
      ObservedMembers(plan, r, edges[..|edges| - 1], f);
      assert forall i :: 0 <= i < |edges| - 1 ==> edges[..|edges| - 1][i] == edges[i];
    }
  }

  lemma {:induction false} UndeliveredMembers(cfg: Settings, r: Rule, x: ExpectedEdge, spans: seq<Span>,
                                              xs: seq<Correlation>, audit: AuditContext, n: nat, f: Finding)
    requires PairsInRange(spans, xs) && n <= |spans|
    ensures f in UndeliveredFindings(cfg, r, x, spans, xs, audit, n)
            <==> exists pi :: 0 <= pi < n && UndeliveredFinding(cfg, r, x, spans, xs, audit, pi) == Some(f)
  {
    hide UndeliveredFinding, PairsInRange;
    if n > 0 {
      UndeliveredMembers(cfg, r, x, spans, xs, audit, n - 1, f);
    }
  }

  lemma {:induction false} PlanMembers(cfg: Settings, plan: Plan, r: Rule, spans: seq<Span>, xs: seq<Correlation>,
                                       edges: seq<Edge>, audit: AuditContext, n: nat, f: Finding)
    requires PairsInRange(spans, xs) && n <= |plan.expected|
    ensures f in PlanFindings(cfg, plan, r, spans, xs, edges, audit, n)
            <==> exists m :: 0 <= m < n
                          && f in ExpectationFindings(cfg, plan, r, plan.expected[m], spans, xs, edges, audit)
  {
    hide ExpectationFindings, PairsInRange;
    if n > 0 {
      PlanMembers(cfg, plan, r, spans, xs, edges, audit, n - 1, f);
    }
  }

  predicate NamedDrift(fs: seq<Finding>, r: Rule, p: Span, c: Span) {
    exists k :: 0 <= k < |fs| && NamesDrift(fs[k], r, p, c)
  }

  /** The finding names a drifting correlation. */
  ghost predicate OfDrift(plan: Plan, r: Rule, spans: seq<Span>, xs: seq<Correlation>, f: Finding)
    requires PairsInRange(spans, xs)
  {
    exists k :: 0 <= k < |xs| && Drifts(plan, spans[xs[k].producer], spans[xs[k].consumer])
                && NamesDrift(f, r, spans[xs[k].producer], spans[xs[k].consumer])
  }

  /** Each drifting correlation has a finding that names it. */
  ghost predicate DriftsNamed(plan: Plan, r: Rule, spans: seq<Span>, xs: seq<Correlation>, fs: seq<Finding>)
    requires PairsInRange(spans, xs)
  {
    forall k :: 0 <= k < |xs| && Drifts(plan, spans[xs[k].producer], spans[xs[k].consumer]) ==>
      NamedDrift(fs, r, spans[xs[k].producer], spans[xs[k].consumer])
  }

  lemma DriftFound(plan: Plan, r: Rule, spans: seq<Span>, xs: seq<Correlation>, edges: seq<Edge>, k: nat)
    requires PairsInRange(spans, xs) && Observes(spans, xs, edges) && k < |xs|
    requires Drifts(plan, spans[xs[k].producer], spans[xs[k].consumer])
    ensures exists f :: f in ObservedFindings(plan, r, edges)
                        && NamesDrift(f, r, spans[xs[k].producer], spans[xs[k].consumer])
  {
    hide Drifts, NamesDrift, Along, ObservedFinding, ObservedFindings, HasCorrelation, CountsAlong, NoneTwice;
    assert OnSomeEdge(spans, edges, xs[k]);
    var i :| 0 <= i < |edges| && Along(spans, edges[i], xs[k]);
    DriftAlong(plan, r, spans, edges[i], xs[k]);
    DriftNames(plan, r, spans, edges[i], xs[k]);
    ObservedMembers(plan, r, edges, ObservedFinding(plan, r, edges[i]).value);
  }

  lemma DriftArises(plan: Plan, r: Rule, spans: seq<Span>, xs: seq<Correlation>, edges: seq<Edge>, f: Finding)
    requires PairsInRange(spans, xs) && Observes(spans, xs, edges) && f in ObservedFindings(plan, r, edges)
    ensures OfDrift(plan, r, spans, xs, f) && f.basis == CorrelatedTopology
  {
    hide Drifts, Along, ObservedFinding, ObservedFindings, OnSomeEdge, CountsAlong, NoneTwice;
    ObservedMembers(plan, r, edges, f);
    var i :| 0 <= i < |edges| && ObservedFinding(plan, r, edges[i]) == Some(f);
    assert HasCorrelation(spans, xs, edges[i]);
    var k :| 0 <= k < |xs| && Along(spans, edges[i], xs[k]);
    DriftAlong(plan, r, spans, edges[i], xs[k]);
    DriftNames(plan, r, spans, edges[i], xs[k]);
  }

  /** The expected edge is missing: something was sent that it covers, and no correlation joins spans that meet it. */
  ghost predicate Missing(plan: Plan, x: ExpectedEdge, spans: seq<Span>, xs: seq<Correlation>, window: int,
                          finalized: bool)
    requires PairsInRange(spans, xs)
  {
    && !x.requirePerMessage
    && (exists k :: 0 <= k < |spans| && Sent(x, spans, window, finalized, k))
    && forall k :: 0 <= k < |xs| ==> !Meets(plan, x, spans[xs[k].producer], spans[xs[k].consumer])
  }

  /** The message was sent alone, and no correlation of it is covered by the expectation. */
  ghost predicate Strays(x: ExpectedEdge, spans: seq<Span>, xs: seq<Correlation>, window: int, finalized: bool, pi: nat)
    requires PairsInRange(spans, xs) && pi < |spans|
  {
    && Sent(x, spans, window, finalized, pi)
    && (spans[pi].batchCount.None? || spans[pi].batchCount.value <= 1)
    && forall k :: 0 <= k < |xs| && xs[k].producer == pi ==> !Covers(x, spans[pi], spans[xs[k].consumer])
  }

  /** Each message is expected to arrive and this one strays. */
  ghost predicate Undelivered(x: ExpectedEdge, spans: seq<Span>, xs: seq<Correlation>, window: int, finalized: bool,
                              pi: nat)
    requires PairsInRange(spans, xs) && pi < |spans|
  {
    x.requirePerMessage && Strays(x, spans, xs, window, finalized, pi)
  }

  /** Each message that strays has a finding that names it, and each finding names one. */
  ghost predicate StraysTold(r: Rule, x: ExpectedEdge, spans: seq<Span>, xs: seq<Correlation>, window: int,
                             finalized: bool, fs: seq<Finding>)
    requires PairsInRange(spans, xs)
  {
    && (forall pi :: 0 <= pi < |spans| && Strays(x, spans, xs, window, finalized, pi) ==>
          NamedUndelivered(fs, r, x, spans[pi]))
    && (forall f :: f in fs ==>
          exists pi :: 0 <= pi < |spans| && Strays(x, spans, xs, window, finalized, pi)
                       && NamesUndelivered(f, r, x, spans[pi]))
  }

  lemma StraysAreTold(cfg: Settings, r: Rule, x: ExpectedEdge, spans: seq<Span>, xs: seq<Correlation>,
                      audit: AuditContext)
    requires PairsInRange(spans, xs) && audit.watermark == EventWatermark(spans)
    ensures StraysTold(r, x, spans, xs, cfg.window, audit.finalized,
                       UndeliveredFindings(cfg, r, x, spans, xs, audit, |spans|))
  {
    hide PairsInRange, EventWatermark, UndeliveredFinding, UndeliveredFindings, Sent, Covers, NamesUndelivered;
    var fs := UndeliveredFindings(cfg, r, x, spans, xs, audit, |spans|);
    forall pi | 0 <= pi < |spans| && Strays(x, spans, xs, cfg.window, audit.finalized, pi)
      ensures NamedUndelivered(fs, r, x, spans[pi])
    {
      UndeliveredMeaning(cfg, r, x, spans, xs, audit, pi);
      UndeliveredNames(cfg, r, x, spans, xs, audit, pi);
      UndeliveredMembers(cfg, r, x, spans, xs, audit, |spans|,
                         UndeliveredFinding(cfg, r, x, spans, xs, audit, pi).value);
    }
    forall f | f in fs
      ensures exists pi :: 0 <= pi < |spans| && Strays(x, spans, xs, cfg.window, audit.finalized, pi)
                           && NamesUndelivered(f, r, x, spans[pi])
    {
      UndeliveredMembers(cfg, r, x, spans, xs, audit, |spans|, f);
      var pi :| 0 <= pi < |spans| && UndeliveredFinding(cfg, r, x, spans, xs, audit, pi) == Some(f);
      UndeliveredMeaning(cfg, r, x, spans, xs, audit, pi);
      UndeliveredNames(cfg, r, x, spans, xs, audit, pi);
    }
  }

  predicate NamedMissing(fs: seq<Finding>, r: Rule, x: ExpectedEdge) {
    exists k :: 0 <= k < |fs| && NamesMissing(fs[k], r, x)
  }

  /** The finding names a missing edge. */
  ghost predicate OfMissing(plan: Plan, r: Rule, spans: seq<Span>, xs: seq<Correlation>, window: int, finalized: bool,
                            f: Finding)
    requires PairsInRange(spans, xs)
  {
    exists m :: 0 <= m < |plan.expected| && Missing(plan, plan.expected[m], spans, xs, window, finalized)
                && NamesMissing(f, r, plan.expected[m])
  }

  /** Each missing edge has a finding that names it. */
  ghost predicate MissingNamed(plan: Plan, r: Rule, spans: seq<Span>, xs: seq<Correlation>, window: int,
                               finalized: bool, fs: seq<Finding>)
    requires PairsInRange(spans, xs)
  {
    forall m :: 0 <= m < |plan.expected| && Missing(plan, plan.expected[m], spans, xs, window, finalized) ==>
      NamedMissing(fs, r, plan.expected[m])
  }

  /** The finding names an undelivered message. */
  ghost predicate OfUndelivered(plan: Plan, r: Rule, spans: seq<Span>, xs: seq<Correlation>, window: int,
                                finalized: bool, f: Finding)
    requires PairsInRange(spans, xs)
  {
    exists m, pi :: 0 <= m < |plan.expected| && 0 <= pi < |spans|
                    && Undelivered(plan.expected[m], spans, xs, window, finalized, pi)
                    && NamesUndelivered(f, r, plan.expected[m], spans[pi])
  }

  /** Each undelivered message has a finding that names it. */
  ghost predicate UndeliveredNamed(plan: Plan, r: Rule, spans: seq<Span>, xs: seq<Correlation>, window: int,
                                   finalized: bool, fs: seq<Finding>)
    requires PairsInRange(spans, xs)
  {
    forall m, pi :: 0 <= m < |plan.expected| && 0 <= pi < |spans| ==>
      Undelivered(plan.expected[m], spans, xs, window, finalized, pi) ==>
        NamedUndelivered(fs, r, plan.expected[m], spans[pi])
  }

  /** The findings of one expectation are about it. */
  lemma ExpectationMembers(cfg: Settings, plan: Plan, r: Rule, x: ExpectedEdge, spans: seq<Span>, xs: seq<Correlation>,
                           edges: seq<Edge>, audit: AuditContext, f: Finding)
    requires PairsInRange(spans, xs) && IsTopology(spans, xs, edges) && Topology.KeysTell(spans, xs)
    requires audit.watermark == EventWatermark(spans)
    requires f in ExpectationFindings(cfg, plan, r, x, spans, xs, edges, audit)
    ensures || (Missing(plan, x, spans, xs, cfg.window, audit.finalized) && NamesMissing(f, r, x))
            || (&& f.basis == ExpectedDelivery
                && exists pi :: 0 <= pi < |spans| && Undelivered(x, spans, xs, cfg.window, audit.finalized, pi)
                                && NamesUndelivered(f, r, x, spans[pi]))
  {
    hide IsTopology, Topology.KeysTell, PairsInRange, EventWatermark, MissingEdgeFinding, UndeliveredFinding,
         UndeliveredFindings, Strays, Sent, Meets, NamesMissing;
    if x.requirePerMessage {
      StraysAreTold(cfg, r, x, spans, xs, audit);
    } else {
      MissingEdgeMeaning(cfg, plan, r, x, spans, xs, edges, audit);
      MissingNames(cfg, plan, r, x, spans, edges, audit);
    }
  }

  lemma MissingFound(cfg: Settings, plan: Plan, r: Rule, x: ExpectedEdge, spans: seq<Span>, xs: seq<Correlation>,
                     edges: seq<Edge>, audit: AuditContext)
    requires PairsInRange(spans, xs) && IsTopology(spans, xs, edges) && Topology.KeysTell(spans, xs)
    requires audit.watermark == EventWatermark(spans) && Missing(plan, x, spans, xs, cfg.window, audit.finalized)
    ensures exists f :: f in ExpectationFindings(cfg, plan, r, x, spans, xs, edges, audit) && NamesMissing(f, r, x)
  {
    hide IsTopology, Topology.KeysTell, PairsInRange, EventWatermark, MissingEdgeFinding, Sent, Meets, NamesMissing;
    MissingEdgeMeaning(cfg, plan, r, x, spans, xs, edges, audit);
    MissingNames(cfg, plan, r, x, spans, edges, audit);
    assert MissingEdgeFinding(cfg, plan, r, x, spans, edges, audit).value
           in ExpectationFindings(cfg, plan, r, x, spans, xs, edges, audit);
  }

  lemma UndeliveredFound(cfg: Settings, plan: Plan, r: Rule, x: ExpectedEdge, spans: seq<Span>, xs: seq<Correlation>,
                         edges: seq<Edge>, audit: AuditContext, pi: nat)
    requires PairsInRange(spans, xs) && pi < |spans| && audit.watermark == EventWatermark(spans)
    requires Undelivered(x, spans, xs, cfg.window, audit.finalized, pi)
    ensures exists f :: f in ExpectationFindings(cfg, plan, r, x, spans, xs, edges, audit)
                        && NamesUndelivered(f, r, x, spans[pi])
  {
    hide PairsInRange, EventWatermark, UndeliveredFindings, Strays, NamesUndelivered;
    StraysAreTold(cfg, r, x, spans, xs, audit);
  }

  /** The finding names a drifting correlation, a missing edge or an undelivered message. */
  ghost predicate NamesTopology(plan: Plan, r: Rule, spans: seq<Span>, xs: seq<Correlation>, window: int,
                                finalized: bool, f: Finding)
    requires PairsInRange(spans, xs)
  {
    || (f.basis == CorrelatedTopology && OfDrift(plan, r, spans, xs, f))
    || (f.basis == ExpectedTopology && OfMissing(plan, r, spans, xs, window, finalized, f))
    || (f.basis == ExpectedDelivery && OfUndelivered(plan, r, spans, xs, window, finalized, f))
  }

  /** The findings name every drifting correlation, every missing edge and every undelivered message. */
  ghost predicate TopologyNamed(plan: Plan, r: Rule, spans: seq<Span>, xs: seq<Correlation>, window: int,
                                finalized: bool, fs: seq<Finding>)
    requires PairsInRange(spans, xs)
  {
    && DriftsNamed(plan, r, spans, xs, fs)
    && MissingNamed(plan, r, spans, xs, window, finalized, fs)
    && UndeliveredNamed(plan, r, spans, xs, window, finalized, fs)
  }

  /** And nothing else. */
  ghost predicate TopologyTold(plan: Plan, r: Rule, spans: seq<Span>, xs: seq<Correlation>, window: int,
                               finalized: bool, fs: seq<Finding>)
    requires PairsInRange(spans, xs)
  {
    && TopologyNamed(plan, r, spans, xs, window, finalized, fs)
    && forall f :: f in fs ==> NamesTopology(plan, r, spans, xs, window, finalized, f)
  }

  lemma TopologyMembers(cfg: Settings, plan: Plan, r: Rule, spans: seq<Span>, xs: seq<Correlation>, edges: seq<Edge>,
                        audit: AuditContext, f: Finding)
    requires PairsInRange(spans, xs)
    ensures f in TopologyFindings(cfg, plan, r, spans, xs, edges, audit)
            <==> || f in ObservedFindings(plan, r, edges)
                 || exists m :: && 0 <= m < |plan.expected|
                                && f in ExpectationFindings(cfg, plan, r, plan.expected[m], spans, xs, edges, audit)
  {
    PlanMembers(cfg, plan, r, spans, xs, edges, audit, |plan.expected|, f);
    hide ObservedFindings, PlanFindings, ExpectationFindings, PairsInRange;
  }

  /** Where a topology finding comes from. */
  lemma TopologyArises(cfg: Settings, plan: Plan, r: Rule, spans: seq<Span>, xs: seq<Correlation>, edges: seq<Edge>,
                       audit: AuditContext, f: Finding)
    requires PairsInRange(spans, xs) && IsTopology(spans, xs, edges) && Topology.KeysTell(spans, xs)
    requires audit.watermark == EventWatermark(spans) && f in TopologyFindings(cfg, plan, r, spans, xs, edges, audit)
    ensures NamesTopology(plan, r, spans, xs, cfg.window, audit.finalized, f)
  {
    hide TopologyFindings, ObservedFindings, ExpectationFindings, IsTopology, Topology.KeysTell, EventWatermark,
         Observes, OfDrift, Missing, Undelivered;
    TopologyObserves(spans, xs, edges);
    TopologyMembers(cfg, plan, r, spans, xs, edges, audit, f);
    if f in ObservedFindings(plan, r, edges) {
      DriftArises(plan, r, spans, xs, edges, f);
    } else {
      var m :| 0 <= m < |plan.expected|
               && f in ExpectationFindings(cfg, plan, r, plan.expected[m], spans, xs, edges, audit);
      ExpectationMembers(cfg, plan, r, plan.expected[m], spans, xs, edges, audit, f);
    }
  }

  lemma DriftsAreNamed(cfg: Settings, plan: Plan, r: Rule, spans: seq<Span>, xs: seq<Correlation>, edges: seq<Edge>,
                       audit: AuditContext)
    requires PairsInRange(spans, xs) && IsTopology(spans, xs, edges) && Topology.KeysTell(spans, xs)
    ensures DriftsNamed(plan, r, spans, xs, TopologyFindings(cfg, plan, r, spans, xs, edges, audit))
  {
    hide TopologyFindings, ObservedFindings, ExpectationFindings, IsTopology, Topology.KeysTell, Observes, Drifts,
         NamesDrift;
    TopologyObserves(spans, xs, edges);
    var fs := TopologyFindings(cfg, plan, r, spans, xs, edges, audit);
    forall k | 0 <= k < |xs| && Drifts(plan, spans[xs[k].producer], spans[xs[k].consumer])
      ensures NamedDrift(fs, r, spans[xs[k].producer], spans[xs[k].consumer])
    {
      DriftFound(plan, r, spans, xs, edges, k);
      var f :| f in ObservedFindings(plan, r, edges) && NamesDrift(f, r, spans[xs[k].producer], spans[xs[k].consumer]);
      TopologyMembers(cfg, plan, r, spans, xs, edges, audit, f);
    }
  }

  lemma MissingAreNamed(cfg: Settings, plan: Plan, r: Rule, spans: seq<Span>, xs: seq<Correlation>, edges: seq<Edge>,
                        audit: AuditContext)
    requires PairsInRange(spans, xs) && IsTopology(spans, xs, edges) && Topology.KeysTell(spans, xs)
    requires audit.watermark == EventWatermark(spans)
    ensures MissingNamed(plan, r, spans, xs, cfg.window, audit.finalized,
                         TopologyFindings(cfg, plan, r, spans, xs, edges, audit))
  {
    hide TopologyFindings, ExpectationFindings, IsTopology, Topology.KeysTell, EventWatermark, Missing, NamesMissing;
    var fs := TopologyFindings(cfg, plan, r, spans, xs, edges, audit);
    forall m | 0 <= m < |plan.expected| && Missing(plan, plan.expected[m], spans, xs, cfg.window, audit.finalized)
      ensures NamedMissing(fs, r, plan.expected[m])
    {
      MissingFound(cfg, plan, r, plan.expected[m], spans, xs, edges, audit);
      var f :| f in ExpectationFindings(cfg, plan, r, plan.expected[m], spans, xs, edges, audit)
               && NamesMissing(f, r, plan.expected[m]);
      TopologyMembers(cfg, plan, r, spans, xs, edges, audit, f);
    }
  }

  lemma UndeliveredIsNamed(cfg: Settings, plan: Plan, r: Rule, spans: seq<Span>, xs: seq<Correlation>,
                           edges: seq<Edge>, audit: AuditContext, m: nat, pi: nat)
    requires PairsInRange(spans, xs) && m < |plan.expected| && pi < |spans| && audit.watermark == EventWatermark(spans)
    requires Undelivered(plan.expected[m], spans, xs, cfg.window, audit.finalized, pi)
    ensures NamedUndelivered(TopologyFindings(cfg, plan, r, spans, xs, edges, audit), r, plan.expected[m], spans[pi])
  {
    hide TopologyFindings, ObservedFindings, ExpectationFindings, EventWatermark, Undelivered, NamesUndelivered;
    UndeliveredFound(cfg, plan, r, plan.expected[m], spans, xs, edges, audit, pi);
    var f :| f in ExpectationFindings(cfg, plan, r, plan.expected[m], spans, xs, edges, audit)
             && NamesUndelivered(f, r, plan.expected[m], spans[pi]);
    TopologyMembers(cfg, plan, r, spans, xs, edges, audit, f);
  }

  lemma UndeliveredAreNamed(cfg: Settings, plan: Plan, r: Rule, spans: seq<Span>, xs: seq<Correlation>,
                            edges: seq<Edge>, audit: AuditContext)
    requires PairsInRange(spans, xs) && audit.watermark == EventWatermark(spans)
    ensures UndeliveredNamed(plan, r, spans, xs, cfg.window, audit.finalized,
                             TopologyFindings(cfg, plan, r, spans, xs, edges, audit))
  {
    hide TopologyFindings, EventWatermark, Undelivered, NamedUndelivered;
    var fs := TopologyFindings(cfg, plan, r, spans, xs, edges, audit);
    forall m, pi | 0 <= m < |plan.expected| && 0 <= pi < |spans|
      ensures Undelivered(plan.expected[m], spans, xs, cfg.window, audit.finalized, pi) ==>
                NamedUndelivered(fs, r, plan.expected[m], spans[pi])
    {
      if Undelivered(plan.expected[m], spans, xs, cfg.window, audit.finalized, pi) {
        UndeliveredIsNamed(cfg, plan, r, spans, xs, edges, audit, m, pi);
      }
    }
  }

  /** When the keys tell the edges apart, the topology findings of an audit at the spans' watermark name exactly the
      drifting correlations, the missing edges and the undelivered messages. */
  lemma TopologyFindingsTold(cfg: Settings, plan: Plan, r: Rule, spans: seq<Span>, xs: seq<Correlation>,
                             edges: seq<Edge>, audit: AuditContext)
    requires PairsInRange(spans, xs) && IsTopology(spans, xs, edges) && Topology.KeysTell(spans, xs)
    requires audit.watermark == EventWatermark(spans)
    ensures TopologyTold(plan, r, spans, xs, cfg.window, audit.finalized,
                         TopologyFindings(cfg, plan, r, spans, xs, edges, audit))
  {
    hide TopologyFindings, IsTopology, Topology.KeysTell, EventWatermark, DriftsNamed, MissingNamed, UndeliveredNamed,
         NamesTopology;
    DriftsAreNamed(cfg, plan, r, spans, xs, edges, audit);
    MissingAreNamed(cfg, plan, r, spans, xs, edges, audit);
    UndeliveredAreNamed(cfg, plan, r, spans, xs, edges, audit);
    forall f | f in TopologyFindings(cfg, plan, r, spans, xs, edges, audit)
      ensures NamesTopology(plan, r, spans, xs, cfg.window, audit.finalized, f)
    {
      TopologyArises(cfg, plan, r, spans, xs, edges, audit, f);
    }
  }
}
