/** What the findings about one span, or one correlation, say in the fields of the spans. */
module SpanLaws {
  import opened Text
  import opened Spans
  import opened Tables
  import opened Watermark
  import opened Findings
  import opened Checks
  import opened IndexedRun
  import opened CorrelationLaws
  import opened AuditLaws
  import BatchCoverage

  // ---------- Findings about one span ----------

  /** The checks of single spans, but for those of orphans. */
  const OF_SPANS := {MissingServiceName, MissingMessagingSystem, MissingDestination, InvalidOperation, InvalidSpanKind,
                     InvalidSpanIdentity, InvalidTimestamps, InvalidContextReference, MissingConsumerContext,
                     UnresolvedConsumerContext, BatchLinksIncomplete}

  /** The kinds of span that each operation may have. */
  const KINDS := {("create", "PRODUCER"), ("send", "PRODUCER"), ("send", "CLIENT"), ("receive", "CLIENT"),
                  ("process", "CONSUMER"), ("settle", "CLIENT")}

  /** The rule is about span `i`. */
  ghost predicate Due(r: Rule, spans: seq<Span>, i: nat)
    requires i < |spans|
  {
    var s := spans[i];
    var operation, messaging := ToLower(s.operationType), s.system != "" || s.operationType != "";
    Applies(r, s) &&
    match r.check
    case MissingServiceName => messaging && s.service == ""
    case MissingMessagingSystem => s.system == "" && (s.operationType != "" || s.kind in {"PRODUCER", "CONSUMER"})
    case MissingDestination =>
      operation in {"create", "send", "receive", "process", "settle"} && s.destination == ""
    case InvalidOperation => messaging && operation !in {"create", "send", "receive", "process", "settle"}
    case InvalidSpanKind =>
      operation in {"create", "send", "receive", "process", "settle"} && (operation, s.kind) !in KINDS
    case InvalidSpanIdentity => messaging && !(ValidTraceId(s.traceId) && ValidSpanId(s.spanId))
    case InvalidTimestamps =>
      messaging && (s.start in {ZERO_TIME, UNIX_EPOCH} || s.end in {ZERO_TIME, UNIX_EPOCH} || s.end < s.start)
    case InvalidContextReference =>
      && messaging
      && (|| (exists k :: 0 <= k < |s.links| && !(ValidTraceId(s.links[k].traceId) && ValidSpanId(s.links[k].spanId)))
          || (s.parentSpanId != "" && !(ValidTraceId(s.traceId) && ValidSpanId(s.parentSpanId))))
    case MissingConsumerContext => operation == "process" && WithoutContext(s)
    case UnresolvedConsumerContext => operation in {"process", "receive"} && Dangling(spans, i)
    case BatchLinksIncomplete =>
      && operation in {"process", "receive"} && s.batchCount.Some? && s.batchCount.value > 1
      && BatchCoverage.Coverage(spans, s.links) < s.batchCount.value
    case _ => false
  }

  /** The finding is the rule's and names the span, if it has an id. */
  predicate NamesSpan(f: Finding, r: Rule, s: Span) {
    && f.ruleId == r.id && f.severity == r.severity && f.message == r.message
    && (s.spanId != "" ==> s.spanId in f.spanIds)
  }

  lemma FormDue(spans: seq<Span>, t: Table, r: Rule, i: nat)
    requires Usable(spans, t) && i < |spans|
    requires r.check in {MissingServiceName, MissingMessagingSystem, MissingDestination, InvalidOperation,
                         InvalidSpanKind, InvalidSpanIdentity, InvalidTimestamps, InvalidContextReference}
    ensures SemanticFinding(r, spans, t, i).Some? <==> Due(r, spans, i)
  {
    hide Applies, ValidTraceId, ValidSpanId, NewFinding, Candidate;
  }

  lemma ContextDue(spans: seq<Span>, window: int, t: Table, r: Rule, i: nat)
    requires IndexedCorrelate(spans, window) == Some(t) && Agree(spans, window, t, |spans|) && Usable(spans, t)
    requires i < |spans| && r.check in {MissingConsumerContext, UnresolvedConsumerContext}
    ensures SemanticFinding(r, spans, t, i).Some? <==> Due(r, spans, i)
  {
    hide IndexedCorrelate, Agree, Usable, Applies, SemanticFinding, ValidTraceId, ValidSpanId, ToLower, Dangling;
    if r.check == MissingConsumerContext {
      MissingContextMeaning(spans, window, t, r, i);
    } else {
      UnresolvedDue(spans, window, t, r, i);
    }
  }

  lemma UnresolvedDue(spans: seq<Span>, window: int, t: Table, r: Rule, i: nat)
    requires IndexedCorrelate(spans, window) == Some(t) && Usable(spans, t) && i < |spans|
    requires r.check == UnresolvedConsumerContext
    ensures SemanticFinding(r, spans, t, i).Some? <==> Due(r, spans, i)
  {
    hide *;
    BadUnresolved(spans, t, r, i);
    UnresolvedDueMeans(r, spans, i);
    ConsumesMeans(spans, i);
    if Consumes(spans, i) {
      UnresolvedExactly(spans, window, i);
    }
  }

  lemma BadUnresolved(spans: seq<Span>, t: Table, r: Rule, i: nat)
    requires Usable(spans, t) && i < |spans| && r.check == UnresolvedConsumerContext
    ensures SemanticFinding(r, spans, t, i).Some?
            <==> spans[i].IsConsumer() && Applies(r, spans[i]) && t.Unresolved(i) > 0
  {
    hide Usable, Applies, ToLower, Candidate, UnresolvedFinding;
  }

  lemma UnresolvedDueMeans(r: Rule, spans: seq<Span>, i: nat)
    requires i < |spans| && r.check == UnresolvedConsumerContext
    ensures Due(r, spans, i) <==> Consumes(spans, i) && Applies(r, spans[i]) && Dangling(spans, i)
  {
    hide Applies, ToLower, Dangling;
  }

  lemma BatchDue(r: Rule, spans: seq<Span>, i: nat)
    requires i < |spans| && r.check == BatchLinksIncomplete
    ensures BatchFinding(r, spans, i).Some? <==> Due(r, spans, i)
  {
    hide NewFinding, Applies, BatchCoverage.Coverage, ToLower;
  }

  /** A check of single spans reports exactly the spans its rule is about. */
  lemma DueExactly(cfg: Settings, r: Rule, spans: seq<Span>, t: Table, audit: AuditContext, i: nat)
    requires IndexedCorrelate(spans, cfg.window) == Some(t) && Agree(spans, cfg.window, t, |spans|) && Usable(spans, t)
    requires i < |spans| && r.check in OF_SPANS
    ensures SpanFinding(cfg, r, spans, t, audit, i).Some? <==> Due(r, spans, i)
  {
    hide *;
    OwnFindings(cfg, r, spans, t, audit, i);
    if r.check == BatchLinksIncomplete {
      BatchDue(r, spans, i);
    } else if r.check == MissingConsumerContext || r.check == UnresolvedConsumerContext {
      ContextDue(spans, cfg.window, t, r, i);
    } else {
      RemainingForm(r.check);
      FormDue(spans, t, r, i);
    }
  }

  lemma RemainingForm(check: Check)
    requires check in OF_SPANS && check !in {BatchLinksIncomplete, MissingConsumerContext, UnresolvedConsumerContext}
    ensures check in {MissingServiceName, MissingMessagingSystem, MissingDestination, InvalidOperation,
                      InvalidSpanKind, InvalidSpanIdentity, InvalidTimestamps, InvalidContextReference}
  {}

  /** What is reported of a span, in each case. */
  lemma SemanticValue(r: Rule, spans: seq<Span>, t: Table, i: nat)
    requires Usable(spans, t) && i < |spans| && SemanticFinding(r, spans, t, i).Some?
    ensures var f, s, x := SemanticFinding(r, spans, t, i).value, spans[i], Candidate(spans, t, i);
      f == if r.check == MissingConsumerContext && x.Some?
           then NewFinding(r, spans[x.value.producer], Some(s), CandidateBasis(x.value), High)
           else if r.check == UnresolvedConsumerContext then UnresolvedFinding(r, s)
           else NewFinding(r, s, None, SemanticValidation, High)
  {
    hide Usable, Applies, Bad, NewFinding, UnresolvedFinding, Candidate;
  }

  lemma BatchValue(r: Rule, spans: seq<Span>, i: nat)
    requires i < |spans| && BatchFinding(r, spans, i).Some?
    ensures BatchFinding(r, spans, i).value == NewFinding(r, BLANK, Some(spans[i]), Correlated(SpanLink), High)
  {
    hide Applies, NewFinding, BatchCoverage.Coverage;
  }

  lemma OwnFindings(cfg: Settings, r: Rule, spans: seq<Span>, t: Table, audit: AuditContext, i: nat)
    requires Usable(spans, t) && i < |spans| && r.check in OF_SPANS
    ensures SpanFinding(cfg, r, spans, t, audit, i)
            == if r.check == BatchLinksIncomplete then BatchFinding(r, spans, i) else SemanticFinding(r, spans, t, i)
  {
    hide Usable, BatchFinding, SemanticFinding;
  }

  lemma NewNamesSpan(r: Rule, p: Span, c: Option<Span>, basis: Basis, s: Span)
    requires c == Some(s) || (c == None && p == s)
    ensures NamesSpan(NewFinding(r, p, c, basis, High), r, s)
  {
    NewFindingIds(r, p, c, basis, High);
    NewFindingNames(r, p, c, basis, High);
    hide NewFinding, ToLower;
  }

  lemma SpanNamed(cfg: Settings, r: Rule, spans: seq<Span>, t: Table, audit: AuditContext, i: nat)
    requires Usable(spans, t) && i < |spans| && r.check in OF_SPANS && SpanFinding(cfg, r, spans, t, audit, i).Some?
    ensures NamesSpan(SpanFinding(cfg, r, spans, t, audit, i).value, r, spans[i])
  {
    hide *;
    var s, x := spans[i], Candidate(spans, t, i);
    OwnFindings(cfg, r, spans, t, audit, i);
    if r.check == BatchLinksIncomplete {
      BatchValue(r, spans, i);
      NewNamesSpan(r, BLANK, Some(s), Correlated(SpanLink), s);
    } else {
      SemanticValue(r, spans, t, i);
      if r.check == MissingConsumerContext && x.Some? {
        NewNamesSpan(r, spans[x.value.producer], Some(s), CandidateBasis(x.value), s);
      } else if r.check == UnresolvedConsumerContext {
        UnresolvedNamesSpan(r, s);
      } else {
        NewNamesSpan(r, s, None, SemanticValidation, s);
      }
    }
  }

  lemma UnresolvedNamesSpan(r: Rule, s: Span)
    ensures NamesSpan(UnresolvedFinding(r, s), r, s)
  {
    UnresolvedNames(r, s, s.spanId);
    UnresolvedRule(r, s);
    hide UnresolvedFinding;
  }

  lemma {:induction false} WithLinksRule(f: Finding, links: seq<Link>)
    ensures WithLinks(f, links).ruleId == f.ruleId && WithLinks(f, links).severity == f.severity
            && WithLinks(f, links).message == f.message
  {
    if links != [] {
      WithLinksRule(f, links[..|links| - 1]);
    }
  }

  lemma UnresolvedRule(r: Rule, s: Span)
    ensures var f := UnresolvedFinding(r, s); f.ruleId == r.id && f.severity == r.severity && f.message == r.message
  {
    WithLinksRule(NewFinding(r, s, None, UnresolvedReference, Low).(evidence := Insufficient), s.links);
    NewFindingNames(r, s, None, UnresolvedReference, Low);
    hide WithLinks, NewFinding;
  }

  // ---------- The findings of one rule ----------

  predicate NamedSpan(fs: seq<Finding>, r: Rule, s: Span) {
    exists k :: 0 <= k < |fs| && NamesSpan(fs[k], r, s)
  }

  /** The finding names a span that the rule is about. */
  ghost predicate OfDue(r: Rule, spans: seq<Span>, f: Finding) {
    exists i :: 0 <= i < |spans| && Due(r, spans, i) && NamesSpan(f, r, spans[i])
  }

  /** The findings name every span that the rule is about. */
  ghost predicate DueNamed(r: Rule, spans: seq<Span>, fs: seq<Finding>) {
    forall i :: 0 <= i < |spans| && Due(r, spans, i) ==> NamedSpan(fs, r, spans[i])
  }

  lemma DueFindings(cfg: Settings, r: Rule, spans: seq<Span>, t: Table, audit: AuditContext)
    requires IndexedCorrelate(spans, cfg.window) == Some(t) && Agree(spans, cfg.window, t, |spans|) && Usable(spans, t)
    requires r.check in OF_SPANS
    ensures var fs := SpanFindings(cfg, r, spans, t, audit, |spans|);
      DueNamed(r, spans, fs) && forall f :: f in fs ==> OfDue(r, spans, f)
  {
    hide IndexedCorrelate, Agree, Usable, Due, SpanFinding, SpanFindings, NamesSpan;
    var fs := SpanFindings(cfg, r, spans, t, audit, |spans|);
    forall i | 0 <= i < |spans| && Due(r, spans, i) ensures NamedSpan(fs, r, spans[i]) {
      DueExactly(cfg, r, spans, t, audit, i);
      var f := SpanFinding(cfg, r, spans, t, audit, i).value;
      SpanNamed(cfg, r, spans, t, audit, i);
      SpanMembers(cfg, r, spans, t, audit, |spans|, f);
      var k :| 0 <= k < |fs| && fs[k] == f;
    }
    forall f | f in fs ensures OfDue(r, spans, f) {
      SpanMembers(cfg, r, spans, t, audit, |spans|, f);
      var i :| 0 <= i < |spans| && SpanFinding(cfg, r, spans, t, audit, i) == Some(f);
      DueExactly(cfg, r, spans, t, audit, i);
      SpanNamed(cfg, r, spans, t, audit, i);
    }
  }

  // ---------- Findings about one correlation ----------

  /** The rule is about the correlation: it took longer than the limit; or a context joins two spans of which the
      consumer started earlier than the producer ended by more than the tolerance. */
  predicate Late(cfg: Settings, r: Rule, x: Correlation) {
    match r.check
    case QueueLatencyHigh => x.queueLatency > cfg.queueLatency
    case ClockSkew =>
      && x.how in {SpanLink, ParentContext}
      && cfg.clockSkewTolerance != MIN_DURATION && x.queueLatency < -cfg.clockSkewTolerance
    case _ => false
  }

  /** The finding names the two spans, each by its id if it has one, and how they were joined. */
  predicate NamesPair(f: Finding, r: Rule, spans: seq<Span>, x: Correlation) {
    && x.producer < |spans| && x.consumer < |spans|
    && f.ruleId == r.id && f.severity == r.severity && f.message == r.message && f.basis == Correlated(x.how)
    && (spans[x.producer].spanId != "" ==> spans[x.producer].spanId in f.spanIds)
    && (spans[x.consumer].spanId != "" ==> spans[x.consumer].spanId in f.spanIds)
    && f.consumerService == spans[x.consumer].service
  }

  lemma LateExactly(cfg: Settings, r: Rule, spans: seq<Span>, window: int, x: Correlation)
    requires SoundCorrelation(spans, window, x)
    requires r.check == QueueLatencyHigh || r.check == ClockSkew
    ensures LatencyFinding(cfg, r, spans, x).Some? <==> Late(cfg, r, x)
    ensures Late(cfg, r, x) ==> NamesPair(LatencyFinding(cfg, r, spans, x).value, r, spans, x)
  {
    NewFindingIds(r, spans[x.producer], Some(spans[x.consumer]), Correlated(x.how), x.confidence);
    NewFindingNames(r, spans[x.producer], Some(spans[x.consumer]), Correlated(x.how), x.confidence);
    hide NewFinding, Span.IsProducer, Span.IsConsumer;
  }

  predicate NamedPair(fs: seq<Finding>, r: Rule, spans: seq<Span>, x: Correlation) {
    exists k :: 0 <= k < |fs| && NamesPair(fs[k], r, spans, x)
  }

  ghost predicate OfLate(cfg: Settings, r: Rule, spans: seq<Span>, xs: seq<Correlation>, f: Finding) {
    exists k :: 0 <= k < |xs| && Late(cfg, r, xs[k]) && NamesPair(f, r, spans, xs[k])
  }

  ghost predicate LateNamed(cfg: Settings, r: Rule, spans: seq<Span>, xs: seq<Correlation>, fs: seq<Finding>) {
    forall k :: 0 <= k < |xs| && Late(cfg, r, xs[k]) ==> NamedPair(fs, r, spans, xs[k])
  }

  lemma {:induction false} LatencyMembers(cfg: Settings, r: Rule, spans: seq<Span>, xs: seq<Correlation>, f: Finding)
    requires PairsInRange(spans, xs)
    ensures f in LatencyFindings(cfg, r, spans, xs)
            <==> exists k :: 0 <= k < |xs| && LatencyFinding(cfg, r, spans, xs[k]) == Some(f)
  {
    hide LatencyFinding;
    if xs != [] {
      LatencyMembers(cfg, r, spans, xs[..|xs| - 1], f);
      assert forall k :: 0 <= k < |xs| - 1 ==> xs[..|xs| - 1][k] == xs[k];
    }
  }

  lemma LateFindings(cfg: Settings, r: Rule, spans: seq<Span>, window: int, xs: seq<Correlation>)
    requires PairsInRange(spans, xs) && forall k :: 0 <= k < |xs| ==> SoundCorrelation(spans, window, xs[k])
    requires r.check == QueueLatencyHigh || r.check == ClockSkew
    ensures var fs := LatencyFindings(cfg, r, spans, xs);
      LateNamed(cfg, r, spans, xs, fs) && forall f :: f in fs ==> OfLate(cfg, r, spans, xs, f)
  {
    hide LatencyFinding, LatencyFindings, Late, NamesPair, SoundCorrelation;
    var fs := LatencyFindings(cfg, r, spans, xs);
    forall k | 0 <= k < |xs| && Late(cfg, r, xs[k]) ensures NamedPair(fs, r, spans, xs[k]) {
      LateExactly(cfg, r, spans, window, xs[k]);
      var f := LatencyFinding(cfg, r, spans, xs[k]).value;
      LatencyMembers(cfg, r, spans, xs, f);
      var j :| 0 <= j < |fs| && fs[j] == f;
    }
    forall f | f in fs ensures OfLate(cfg, r, spans, xs, f) {
      LatencyMembers(cfg, r, spans, xs, f);
      var k :| 0 <= k < |xs| && LatencyFinding(cfg, r, spans, xs[k]) == Some(f);
      LateExactly(cfg, r, spans, window, xs[k]);
    }
  }
}
