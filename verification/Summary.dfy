/** The numbers at the head of a report, and how they relate to its findings. */
module Summaries {
  import opened Spans
  import opened Tables
  import opened Watermark
  import opened Findings
  import opened Checks

  datatype Summary = Summary(auditedSpans: nat, messagingSpans: nat, violations: nat, brokenLinks: nat,
                             orphanProducers: nat, orphanConsumers: nat, contextCompleteness: real)

  /** How many of the first `n` positions pass. */
  function CountBelow(n: nat, p: nat -> bool): (c: nat)
    ensures c <= n
  {
    if n == 0 then 0 else CountBelow(n - 1, p) + if p(n - 1) then 1 else 0
  }

  function Messaging(spans: seq<Span>): nat -> bool { (i: nat) => i < |spans| && IsMessaging(spans[i]) }

  function Consuming(spans: seq<Span>): nat -> bool { (i: nat) => i < |spans| && spans[i].IsConsumer() }

  /** Consumers that carry a context reference. */
  function Strong(spans: seq<Span>, t: Table): nat -> bool {
    (i: nat) => i < |spans| && spans[i].IsConsumer() && t.References(i) > 0
  }

  function Broken(spans: seq<Span>, t: Table): nat -> bool {
    (i: nat) => i < |spans| && spans[i].IsConsumer() && t.References(i) == 0
  }

  function OrphanedProducer(spans: seq<Span>, t: Table, window: int, audit: AuditContext): nat -> bool {
    (i: nat) => i < |spans| && spans[i].IsProducer() && i !in t.producerMatched && WindowClosed(spans[i], window, audit)
  }

  function OrphanedConsumer(spans: seq<Span>, t: Table, window: int, audit: AuditContext): nat -> bool {
    (i: nat) => i < |spans| && spans[i].IsConsumer() && i !in t.consumerMatched && WindowClosed(spans[i], window, audit)
  }

  /** Orphaned consumers that nevertheless carry a context: their reference is unresolved. */
  function OrphanedWithContext(spans: seq<Span>, t: Table, window: int, audit: AuditContext): nat -> bool {
    (i: nat) => OrphanedConsumer(spans, t, window, audit)(i) && t.References(i) > 0
  }

  function Ratio(strong: nat, consumers: nat): real {
    if consumers > 0 then strong as real / consumers as real else 0.0
  }

  function SummaryOf(spans: seq<Span>, t: Table, violations: nat, window: int, audit: AuditContext): Summary {
    var n := |spans|;
    Summary(n, CountBelow(n, Messaging(spans)), violations, CountBelow(n, Broken(spans, t)),
            CountBelow(n, OrphanedProducer(spans, t, window, audit)),
            CountBelow(n, OrphanedConsumer(spans, t, window, audit)),
            Ratio(CountBelow(n, Strong(spans, t)), CountBelow(n, Consuming(spans))))
  }

  // ---------- What the numbers mean ----------

  /** Every consumer is counted as strong or as broken. */
  lemma {:induction false} StrongOrBroken(spans: seq<Span>, t: Table, n: nat)
    requires n <= |spans|
    ensures CountBelow(n, Strong(spans, t)) + CountBelow(n, Broken(spans, t)) == CountBelow(n, Consuming(spans))
  {
    if n > 0 { StrongOrBroken(spans, t, n - 1); }
  }

  lemma RatioBounds(strong: nat, consumers: nat)
    requires strong <= consumers
    ensures 0.0 <= Ratio(strong, consumers) <= 1.0
  {}

  lemma RatioMeans(strong: nat, consumers: nat)
    requires strong <= consumers
    ensures Ratio(strong, consumers) * consumers as real == strong as real
    ensures consumers == 0 ==> Ratio(strong, consumers) == 0.0
  {}

  /** The completeness ratio is the share of the consumers that are not broken links. */
  lemma CompletenessMeaning(spans: seq<Span>, t: Table, violations: nat, window: int, audit: AuditContext)
    ensures var s, consumers := SummaryOf(spans, t, violations, window, audit), CountBelow(|spans|, Consuming(spans));
      && 0.0 <= s.contextCompleteness <= 1.0 && s.brokenLinks <= consumers
      && s.contextCompleteness * consumers as real == (consumers - s.brokenLinks) as real
      && (consumers == 0 ==> s.contextCompleteness == 0.0)
  {
    hide CountBelow, Ratio, Strong, Broken, Consuming, Messaging, OrphanedProducer, OrphanedConsumer;
    StrongOrBroken(spans, t, |spans|);
    RatioMeans(CountBelow(|spans|, Strong(spans, t)), CountBelow(|spans|, Consuming(spans)));
    RatioBounds(CountBelow(|spans|, Strong(spans, t)), CountBelow(|spans|, Consuming(spans)));
  }

  /** The rule is meant for every span. */
  predicate Unrestricted(r: Rule) { r.appliesTo == Scope([], [], [], [], []) }

  lemma CountOneMore(n: nat, p: nat -> bool)
    ensures CountBelow(n + 1, p) == CountBelow(n, p) + if p(n) then 1 else 0
  {}

  lemma ListedSize(o: Option<Finding>)
    ensures |Listed(o)| == if o.Some? then 1 else 0
  {}

  lemma OrphanFindings(cfg: Settings, r: Rule, spans: seq<Span>, t: Table, audit: AuditContext, i: nat)
    requires i < |spans| && Unrestricted(r)
    ensures OrphanProducerFinding(cfg, r, spans, t, audit, i).Some?
            <==> OrphanedProducer(spans, t, cfg.window, audit)(i)
    ensures OrphanConsumerFinding(cfg, r, spans, t, audit, i).Some?
            <==> && OrphanedConsumer(spans, t, cfg.window, audit)(i)
                 && !OrphanedWithContext(spans, t, cfg.window, audit)(i)
  {
    hide WindowClosed, NewFinding, MarkAbsence, Span.IsProducer, Span.IsConsumer;
  }

  /** The orphaned producers of the summary are exactly those an unrestricted rule reports. */
  lemma {:induction false} OrphanProducersReported(cfg: Settings, r: Rule, spans: seq<Span>, t: Table,
                                                   audit: AuditContext, n: nat)
    requires n <= |spans| && Usable(spans, t) && r.check == OrphanProducer && Unrestricted(r)
    ensures |SpanFindings(cfg, r, spans, t, audit, n)| == CountBelow(n, OrphanedProducer(spans, t, cfg.window, audit))
  {
    hide *;
    if n == 0 {
      NoSpanFindings(cfg, r, spans, t, audit);
    } else {
      OrphanProducerOneMore(cfg, r, spans, t, audit, n - 1);
      OrphanFindings(cfg, r, spans, t, audit, n - 1);
      ListedSize(OrphanProducerFinding(cfg, r, spans, t, audit, n - 1));
      CountOneMore(n - 1, OrphanedProducer(spans, t, cfg.window, audit));
      OrphanProducersReported(cfg, r, spans, t, audit, n - 1);
    }
  }

  lemma ContextLess(spans: seq<Span>, t: Table, window: int, audit: AuditContext, i: nat)
    ensures OrphanedWithContext(spans, t, window, audit)(i) ==> OrphanedConsumer(spans, t, window, audit)(i)
  {}

  /** The summary counts more orphaned consumers than an unrestricted rule reports: also those that carry a context. */
  lemma {:induction false} OrphanConsumersReported(cfg: Settings, r: Rule, spans: seq<Span>, t: Table,
                                                   audit: AuditContext, n: nat)
    requires n <= |spans| && Usable(spans, t) && r.check == OrphanConsumer && Unrestricted(r)
    ensures |SpanFindings(cfg, r, spans, t, audit, n)| + CountBelow(n, OrphanedWithContext(spans, t, cfg.window, audit))
            == CountBelow(n, OrphanedConsumer(spans, t, cfg.window, audit))
  {
    hide *;
    if n == 0 {
      NoSpanFindings(cfg, r, spans, t, audit);
    } else {
      OrphanConsumerOneMore(cfg, r, spans, t, audit, n - 1);
      OrphanFindings(cfg, r, spans, t, audit, n - 1);
      ContextLess(spans, t, cfg.window, audit, n - 1);
      ListedSize(OrphanConsumerFinding(cfg, r, spans, t, audit, n - 1));
      CountOneMore(n - 1, OrphanedConsumer(spans, t, cfg.window, audit));
      CountOneMore(n - 1, OrphanedWithContext(spans, t, cfg.window, audit));
      OrphanConsumersReported(cfg, r, spans, t, audit, n - 1);
    }
  }

  // ---------- The loop ----------

  method Summarize(spans: seq<Span>, t: Table, violations: nat, window: int, audit: AuditContext) returns (s: Summary)
    ensures s == SummaryOf(spans, t, violations, window, audit)
  {
    hide IsMessaging, WindowClosed, Span.IsConsumer, Span.IsProducer;
    s := Summary(|spans|, 0, violations, 0, 0, 0, 0.0);
    var consumers, strong := 0, 0;
    for i := 0 to |spans|
      invariant s.auditedSpans == |spans| && s.violations == violations && s.contextCompleteness == 0.0
      invariant s.messagingSpans == CountBelow(i, Messaging(spans))
      invariant consumers == CountBelow(i, Consuming(spans)) && strong == CountBelow(i, Strong(spans, t))
      invariant s.brokenLinks == CountBelow(i, Broken(spans, t))
      invariant s.orphanProducers == CountBelow(i, OrphanedProducer(spans, t, window, audit))
      invariant s.orphanConsumers == CountBelow(i, OrphanedConsumer(spans, t, window, audit))
    {
      var span := spans[i];
      if IsMessaging(span) {
        s := s.(messagingSpans := s.messagingSpans + 1);
      }
      if span.IsConsumer() {
        consumers := consumers + 1;
        if t.References(i) > 0 {
          strong := strong + 1;
        } else {
          s := s.(brokenLinks := s.brokenLinks + 1);
        }
      }
      if span.IsProducer() && i !in t.producerMatched && WindowClosed(span, window, audit) {
        s := s.(orphanProducers := s.orphanProducers + 1);
      }
      if span.IsConsumer() && i !in t.consumerMatched && WindowClosed(span, window, audit) {
        s := s.(orphanConsumers := s.orphanConsumers + 1);
      }
    }
    if consumers > 0 {
      s := s.(contextCompleteness := strong as real / consumers as real);
    }
  }
}
