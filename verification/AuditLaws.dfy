/** What the findings about absence say, in the fields of the spans. */
module AuditLaws {
  import opened Text
  import opened Spans
  import opened Tables
  import opened Watermark
  import opened Findings
  import opened Checks
  import opened Summaries

  // ---------- Orphans ----------

  /** A producer that nothing correlates with and whose window is closed: it has ended, and in a live window something
      has ended at least the window later. */
  ghost predicate LoneProducer(spans: seq<Span>, xs: seq<Correlation>, window: int, finalized: bool, i: nat) {
    && i < |spans|
    && ToLower(spans[i].operationType) in {"create", "send"}
    && spans[i].end != ZERO_TIME
    && (finalized || exists k :: 0 <= k < |spans| && spans[k].end > ZERO_TIME && spans[k].end >= spans[i].end + window)
    && forall k :: 0 <= k < |xs| ==> xs[k].producer != i
  }

  /** Likewise a consumer. */
  ghost predicate LoneConsumer(spans: seq<Span>, xs: seq<Correlation>, window: int, finalized: bool, i: nat) {
    && i < |spans|
    && ToLower(spans[i].operationType) in {"process", "receive"}
    && spans[i].end != ZERO_TIME
    && (finalized || exists k :: 0 <= k < |spans| && spans[k].end > ZERO_TIME && spans[k].end >= spans[i].end + window)
    && forall k :: 0 <= k < |xs| ==> xs[k].consumer != i
  }

  /** The span names neither a valid parent nor, in any link, a valid context. */
  predicate WithoutContext(s: Span) {
    && !(ValidTraceId(s.traceId) && ValidSpanId(s.parentSpanId))
    && forall k :: 0 <= k < |s.links| ==> !(ValidTraceId(s.links[k].traceId) && ValidSpanId(s.links[k].spanId))
  }

  /** The finding names the producer, by its ids if it has any. */
  predicate NamesLoneProducer(f: Finding, r: Rule, s: Span) {
    && f.ruleId == r.id && f.severity == r.severity && f.message == r.message && f.basis == NoCorrelation
    && f.spanIds == (if s.spanId == "" then [] else [s.spanId])
    && f.traceIds == (if s.spanId == "" || s.traceId == "" then [] else [s.traceId])
    && f.producerService == (if s.spanId == "" || s.kind == "CONSUMER" then "" else s.service)
    && f.consumerService == (if s.spanId != "" && s.kind == "CONSUMER" then s.service else "")
    && f.system == s.system && f.destination == s.destination
    && f.consumerGroup == s.consumerGroup && f.subscription == s.subscription
  }

  /** The finding names the consumer. */
  predicate NamesLoneConsumer(f: Finding, r: Rule, s: Span) {
    && f.ruleId == r.id && f.severity == r.severity && f.message == r.message && f.basis == NoCorrelation
    && f.spanIds == (if s.spanId == "" then [] else [s.spanId])
    && f.traceIds == (if s.traceId == "" then [] else [s.traceId])
    && f.producerService == "" && f.consumerService == s.service
    && f.system == s.system && f.destination == s.destination
    && f.consumerGroup == s.consumerGroup && f.subscription == s.subscription
  }

  lemma ProducerNamed(r: Rule, s: Span, confidence: Confidence, audit: AuditContext)
    requires ToLower(s.operationType) in {"create", "send"}
    ensures NamesLoneProducer(MarkAbsence(NewFinding(r, s, None, NoCorrelation, confidence), audit), r, s)
  {
    NewFindingNames(r, s, None, NoCorrelation, confidence);
    hide ToLower, Span.IsConsumer;
  }

  lemma ConsumerNamed(r: Rule, s: Span, confidence: Confidence, audit: AuditContext)
    ensures NamesLoneConsumer(MarkAbsence(NewFinding(r, BLANK, Some(s), NoCorrelation, confidence), audit), r, s)
  {
    NewFindingNames(r, BLANK, Some(s), NoCorrelation, confidence);
    hide ToLower, Span.IsConsumer;
  }

  lemma LoneProducerFound(cfg: Settings, r: Rule, spans: seq<Span>, t: Table, audit: AuditContext, i: nat)
    requires Agree(spans, cfg.window, t, |spans|) && i < |spans| && audit.watermark == EventWatermark(spans)
    ensures var o := OrphanProducerFinding(cfg, r, spans, t, audit, i);
      && (o.Some? <==> LoneProducer(spans, t.correlations, cfg.window, audit.finalized, i) && Applies(r, spans[i]))
      && (o.Some? ==> NamesLoneProducer(o.value, r, spans[i]))
  {
    hide Agree, Applies, WindowClosed, EventWatermark, ToLower, NewFinding, MarkAbsence, NamesLoneProducer;
    OrphanProducerMeaning(cfg, spans, cfg.window, t, r, audit, i);
    if OrphanProducerFinding(cfg, r, spans, t, audit, i).Some? {
      ProducerNamed(r, spans[i], AbsenceConfidence(spans[i], audit), audit);
    }
  }

  lemma LoneConsumerFound(cfg: Settings, r: Rule, spans: seq<Span>, t: Table, audit: AuditContext, i: nat)
    requires Agree(spans, cfg.window, t, |spans|) && i < |spans| && audit.watermark == EventWatermark(spans)
    ensures var o := OrphanConsumerFinding(cfg, r, spans, t, audit, i);
      && (o.Some? <==> && LoneConsumer(spans, t.correlations, cfg.window, audit.finalized, i) && Applies(r, spans[i])
                       && WithoutContext(spans[i]))
      && (o.Some? ==> NamesLoneConsumer(o.value, r, spans[i]))
  {
    hide Agree, Applies, WindowClosed, EventWatermark, ToLower, ValidTraceId, ValidSpanId, NewFinding, MarkAbsence,
         NamesLoneConsumer;
    OrphanConsumerMeaning(cfg, spans, cfg.window, t, r, audit, i);
    ConsumerNamed(r, spans[i], AbsenceConfidence(spans[i], audit), audit);
  }

  predicate NamedLoneProducer(fs: seq<Finding>, r: Rule, s: Span) {
    exists k :: 0 <= k < |fs| && NamesLoneProducer(fs[k], r, s)
  }

  predicate NamedLoneConsumer(fs: seq<Finding>, r: Rule, s: Span) {
    exists k :: 0 <= k < |fs| && NamesLoneConsumer(fs[k], r, s)
  }

  /** The finding names a lone producer in the scope of its rule, or a lone consumer that carries no context. */
  ghost predicate OfLone(r: Rule, spans: seq<Span>, xs: seq<Correlation>, window: int, finalized: bool, f: Finding) {
    || (r.check == OrphanProducer
        && exists i: nat :: && LoneProducer(spans, xs, window, finalized, i) && Applies(r, spans[i])
                            && NamesLoneProducer(f, r, spans[i]))
    || (r.check == OrphanConsumer
        && exists i: nat :: && LoneConsumer(spans, xs, window, finalized, i) && Applies(r, spans[i])
                            && WithoutContext(spans[i]) && NamesLoneConsumer(f, r, spans[i]))
  }

  /** The findings of the rule name each lone producer in its scope, or each lone consumer that carries no context. */
  ghost predicate LoneNamed(r: Rule, spans: seq<Span>, xs: seq<Correlation>, window: int, finalized: bool,
                            fs: seq<Finding>)
  {
    && (r.check == OrphanProducer ==>
          forall i: nat :: LoneProducer(spans, xs, window, finalized, i) && Applies(r, spans[i]) ==>
            NamedLoneProducer(fs, r, spans[i]))
    && (r.check == OrphanConsumer ==>
          forall i: nat :: LoneConsumer(spans, xs, window, finalized, i) && Applies(r, spans[i])
                           && WithoutContext(spans[i]) ==>
            NamedLoneConsumer(fs, r, spans[i]))
  }

  lemma {:induction false} SpanMembers(cfg: Settings, r: Rule, spans: seq<Span>, t: Table, audit: AuditContext, n: nat,
                                       f: Finding)
    requires n <= |spans| && Usable(spans, t)
    ensures f in SpanFindings(cfg, r, spans, t, audit, n)
            <==> exists i :: 0 <= i < n && SpanFinding(cfg, r, spans, t, audit, i) == Some(f)
  {
    hide SpanFinding, Usable;
    if n > 0 {
      SpanMembers(cfg, r, spans, t, audit, n - 1, f);
    }
  }

  /** What an orphan rule finds of one span. */
  lemma LoneFinding(cfg: Settings, r: Rule, spans: seq<Span>, t: Table, audit: AuditContext, i: nat)
    requires Agree(spans, cfg.window, t, |spans|) && Usable(spans, t) && i < |spans|
    requires audit.watermark == EventWatermark(spans)
    ensures var o, xs := SpanFinding(cfg, r, spans, t, audit, i), t.correlations;
      && (r.check == OrphanProducer ==>
            && (o.Some? <==> LoneProducer(spans, xs, cfg.window, audit.finalized, i) && Applies(r, spans[i]))
            && (o.Some? ==> NamesLoneProducer(o.value, r, spans[i])))
      && (r.check == OrphanConsumer ==>
            && (o.Some? <==> && LoneConsumer(spans, xs, cfg.window, audit.finalized, i) && Applies(r, spans[i])
                             && WithoutContext(spans[i]))
            && (o.Some? ==> NamesLoneConsumer(o.value, r, spans[i])))
  {
    hide *;
    OrphanFinding(cfg, r, spans, t, audit, i);
    LoneProducerFound(cfg, r, spans, t, audit, i);
    LoneConsumerFound(cfg, r, spans, t, audit, i);
  }

  lemma OrphanFinding(cfg: Settings, r: Rule, spans: seq<Span>, t: Table, audit: AuditContext, i: nat)
    requires i < |spans| && Usable(spans, t)
    ensures r.check == OrphanProducer ==>
              SpanFinding(cfg, r, spans, t, audit, i) == OrphanProducerFinding(cfg, r, spans, t, audit, i)
    ensures r.check == OrphanConsumer ==>
              SpanFinding(cfg, r, spans, t, audit, i) == OrphanConsumerFinding(cfg, r, spans, t, audit, i)
  {
    hide Usable, OrphanProducerFinding, OrphanConsumerFinding;
  }

  /** An orphan rule names exactly the lone spans in its scope. */
  lemma LoneFindings(cfg: Settings, r: Rule, spans: seq<Span>, t: Table, audit: AuditContext)
    requires Agree(spans, cfg.window, t, |spans|) && Usable(spans, t) && audit.watermark == EventWatermark(spans)
    requires r.check == OrphanProducer || r.check == OrphanConsumer
    ensures var fs := SpanFindings(cfg, r, spans, t, audit, |spans|);
      && LoneNamed(r, spans, t.correlations, cfg.window, audit.finalized, fs)
      && forall f :: f in fs ==> OfLone(r, spans, t.correlations, cfg.window, audit.finalized, f)
                                 && f.basis == NoCorrelation
  {
    hide Agree, Usable, EventWatermark, Applies, WithoutContext, SpanFinding, SpanFindings;
    var fs, xs := SpanFindings(cfg, r, spans, t, audit, |spans|), t.correlations;
    forall i: nat | i < |spans| && SpanFinding(cfg, r, spans, t, audit, i).Some?
      ensures SpanFinding(cfg, r, spans, t, audit, i).value in fs
    {
      SpanMembers(cfg, r, spans, t, audit, |spans|, SpanFinding(cfg, r, spans, t, audit, i).value);
    }
    forall i: nat | i < |spans|
      ensures r.check == OrphanProducer && LoneProducer(spans, xs, cfg.window, audit.finalized, i)
              && Applies(r, spans[i]) ==>
                NamedLoneProducer(fs, r, spans[i])
      ensures r.check == OrphanConsumer && LoneConsumer(spans, xs, cfg.window, audit.finalized, i)
              && Applies(r, spans[i]) && WithoutContext(spans[i]) ==>
                NamedLoneConsumer(fs, r, spans[i])
    {
      LoneFinding(cfg, r, spans, t, audit, i);
    }
    forall f | f in fs
      ensures OfLone(r, spans, t.correlations, cfg.window, audit.finalized, f) && f.basis == NoCorrelation
    {
      SpanMembers(cfg, r, spans, t, audit, |spans|, f);
      var i :| 0 <= i < |spans| && SpanFinding(cfg, r, spans, t, audit, i) == Some(f);
      LoneFinding(cfg, r, spans, t, audit, i);
    }
  }

  // ---------- Counting them ----------

  ghost function LoneProducers(spans: seq<Span>, xs: seq<Correlation>, window: int, finalized: bool): set<nat> {
    set i: nat | i < |spans| && LoneProducer(spans, xs, window, finalized, i)
  }

  ghost function LoneConsumers(spans: seq<Span>, xs: seq<Correlation>, window: int, finalized: bool): set<nat> {
    set i: nat | i < |spans| && LoneConsumer(spans, xs, window, finalized, i)
  }

  /** The consumers that carry no context. */
  ghost function Unlinked(spans: seq<Span>): set<nat> {
    set i: nat | i < |spans| && ToLower(spans[i].operationType) in {"process", "receive"} && WithoutContext(spans[i])
  }

  /** The spans that name a messaging system or operation. */
  ghost function MessagingOnes(spans: seq<Span>): set<nat> {
    set i: nat | i < |spans| && (spans[i].system != "" || spans[i].operationType != "")
  }

  ghost function Passing(n: nat, p: nat -> bool): set<nat> { set i: nat | i < n && p(i) }

  lemma {:induction false} CountBelowIsSize(n: nat, p: nat -> bool)
    ensures CountBelow(n, p) == |Passing(n, p)|
  {
    if n > 0 {
      CountBelowIsSize(n - 1, p);
      assert Passing(n, p) == Passing(n - 1, p) + if p(n - 1) then {n - 1} else {};
    }
  }

  lemma LoneTests(spans: seq<Span>, t: Table, window: int, audit: AuditContext, i: nat)
    requires Agree(spans, window, t, |spans|) && audit.watermark == EventWatermark(spans) && i < |spans|
    ensures OrphanedProducer(spans, t, window, audit)(i)
            <==> LoneProducer(spans, t.correlations, window, audit.finalized, i)
    ensures OrphanedConsumer(spans, t, window, audit)(i)
            <==> LoneConsumer(spans, t.correlations, window, audit.finalized, i)
  {
    hide Agree, WindowClosed, EventWatermark, ToLower, ClosedIn, CarriesContext;
    UnmatchedProducer(spans, window, t, i);
    UnmatchedConsumer(spans, window, t, i);
    WindowClosedMeans(spans, spans[i], window, audit);
  }

  lemma BrokenTests(spans: seq<Span>, t: Table, window: int, i: nat)
    requires Agree(spans, window, t, |spans|) && i < |spans|
    ensures Broken(spans, t)(i)
            <==> ToLower(spans[i].operationType) in {"process", "receive"} && WithoutContext(spans[i])
    ensures Messaging(spans)(i) <==> spans[i].system != "" || spans[i].operationType != ""
  {
    UnmatchedConsumer(spans, window, t, i);
    hide Agree, ValidTraceId, ValidSpanId;
  }

  /** Broken links are the consumers without a context, messaging spans those that name a system or an operation. */
  lemma BrokenCounted(spans: seq<Span>, t: Table, violations: nat, window: int, audit: AuditContext)
    requires Agree(spans, window, t, |spans|)
    ensures SummaryOf(spans, t, violations, window, audit).brokenLinks == |Unlinked(spans)|
    ensures SummaryOf(spans, t, violations, window, audit).messagingSpans == |MessagingOnes(spans)|
  {
    hide Agree, WithoutContext, Broken, Messaging, ToLower;
    CountBelowIsSize(|spans|, Broken(spans, t));
    CountBelowIsSize(|spans|, Messaging(spans));
    forall i: nat | i < |spans|
      ensures Broken(spans, t)(i)
              <==> ToLower(spans[i].operationType) in {"process", "receive"} && WithoutContext(spans[i])
      ensures Messaging(spans)(i) <==> spans[i].system != "" || spans[i].operationType != ""
    {
      BrokenTests(spans, t, window, i);
    }
    assert Passing(|spans|, Broken(spans, t)) == Unlinked(spans);
    assert Passing(|spans|, Messaging(spans)) == MessagingOnes(spans);
  }

  /** The summary counts exactly the lone producers and the lone consumers, those with a context included. */
  lemma LoneCounted(spans: seq<Span>, t: Table, violations: nat, window: int, audit: AuditContext)
    requires Agree(spans, window, t, |spans|) && audit.watermark == EventWatermark(spans)
    ensures var s := SummaryOf(spans, t, violations, window, audit);
      && s.orphanProducers == |LoneProducers(spans, t.correlations, window, audit.finalized)|
      && s.orphanConsumers == |LoneConsumers(spans, t.correlations, window, audit.finalized)|
  {
    hide Agree, LoneProducer, LoneConsumer, EventWatermark, OrphanedProducer, OrphanedConsumer;
    var p, c := OrphanedProducer(spans, t, window, audit), OrphanedConsumer(spans, t, window, audit);
    CountBelowIsSize(|spans|, p);
    CountBelowIsSize(|spans|, c);
    forall i: nat | i < |spans|
      ensures p(i) <==> LoneProducer(spans, t.correlations, window, audit.finalized, i)
      ensures c(i) <==> LoneConsumer(spans, t.correlations, window, audit.finalized, i)
    {
      LoneTests(spans, t, window, audit, i);
    }
    assert Passing(|spans|, p) == LoneProducers(spans, t.correlations, window, audit.finalized);
    assert Passing(|spans|, c) == LoneConsumers(spans, t.correlations, window, audit.finalized);
  }
}
