/** The checks that look at one span, or at one correlation, at a time. */
module Checks {
  import opened Text
  import opened Spans
  import opened Counting
  import opened Tables
  import opened Watermark
  import opened Findings
  import BatchCoverage

  datatype Settings = Settings(
    window: Duration, queueLatency: Duration, clockSkewTolerance: Duration, duplicateThreshold: nat,
    failOnSeverity: string, inputComplete: bool, failOnInsufficientEvidence: bool)

  /** The tables point into the spans and into themselves. */
  ghost predicate Usable(spans: seq<Span>, t: Table) {
    && PairsInRange(spans, t.correlations)
    && (forall ci: nat, j :: 0 <= j < |t.Of(ci)| ==> t.Of(ci)[j] < |t.correlations|)
  }

  lemma AgreeUsable(spans: seq<Span>, window: int, t: Table)
    requires Agree(spans, window, t, |spans|)
    ensures Usable(spans, t)
  {
    forall k | 0 <= k < |t.correlations|
      ensures t.correlations[k].producer < |spans| && t.correlations[k].consumer < |spans|
    {
      assert SoundCorrelation(spans, window, t.correlations[k]);
    }
  }

  // ---------- Semantic checks ----------

  predicate IsMessaging(s: Span) { s.system != "" || s.Operation() != "" }

  predicate LooksMessaging(s: Span) { s.Operation() != "" || s.kind == "PRODUCER" || s.kind == "CONSUMER" }

  const OPERATIONS := ["create", "send", "receive", "process", "settle"]

  function ExpectedKinds(operation: string): seq<string> {
    if operation == "create" then ["PRODUCER"]
    else if operation == "send" then ["PRODUCER", "CLIENT"]
    else if operation == "receive" || operation == "settle" then ["CLIENT"]
    else if operation == "process" then ["CONSUMER"]
    else []
  }

  predicate TimestampMissing(t: Time) { t == ZERO_TIME || t == UNIX_EPOCH }

  predicate HasInvalidReference(s: Span) {
    || (exists k :: 0 <= k < |s.links| && !s.links[k].HasValidContext())
    || (s.parentSpanId != "" && !s.HasValidParentContext())
  }

  predicate Bad(check: Check, s: Span, t: Table, i: nat) {
    match check
    case MissingServiceName => s.service == ""
    case MissingMessagingSystem => LooksMessaging(s) && s.system == ""
    case MissingDestination => s.Operation() in OPERATIONS && s.destination == ""
    case InvalidOperation => s.Operation() !in OPERATIONS
    case InvalidSpanKind => ExpectedKinds(s.Operation()) != [] && s.kind !in ExpectedKinds(s.Operation())
    case InvalidSpanIdentity => !ValidTraceId(s.traceId) || !ValidSpanId(s.spanId)
    case InvalidTimestamps => TimestampMissing(s.start) || TimestampMissing(s.end) || s.end < s.start
    case InvalidContextReference => HasInvalidReference(s)
    case MissingConsumerContext => s.Operation() == "process" && t.References(i) == 0
    case UnresolvedConsumerContext => s.IsConsumer() && t.Unresolved(i) > 0
    case _ => false
  }

  /** The first correlation of the consumer. */
  function Candidate(spans: seq<Span>, t: Table, i: nat): (x: Option<Correlation>)
    requires Usable(spans, t)
    ensures x.Some? ==> x.value in t.correlations && x.value.producer < |spans|
  {
    if t.Of(i) != [] then Some(t.correlations[t.Of(i)[0]]) else None
  }

  function CandidateBasis(x: Correlation): Basis {
    if x.how == TimeHeuristic then TimeCandidate else IdentityCandidate
  }

  /** The ids of the links, complete or not, that the finding also names. */
  function WithLinks(f: Finding, links: seq<Link>): (r: Finding)
    ensures "" !in f.traceIds && "" !in f.spanIds ==> "" !in r.traceIds && "" !in r.spanIds
    ensures r.basis == f.basis && r.confidence == f.confidence && r.evidence == f.evidence
  {
    if links == [] then f
    else
      var g, l := WithLinks(f, links[..|links| - 1]), links[|links| - 1];
      if l.traceId != "" && l.spanId != "" then
        g.(traceIds := AppendUnique(g.traceIds, l.traceId), spanIds := AppendUnique(g.spanIds, l.spanId))
      else g
  }

  function UnresolvedFinding(r: Rule, s: Span): (f: Finding)
    ensures "" !in f.traceIds && "" !in f.spanIds && f.basis == UnresolvedReference && f.evidence == Insufficient
  {
    var f := NewFinding(r, s, None, UnresolvedReference, Low).(evidence := Insufficient);
    var g := WithLinks(f, s.links);
    g.(spanIds := AppendUnique(g.spanIds, s.parentSpanId))
  }

  /** Some complete link names the span id. */
  predicate LinkNames(links: seq<Link>, id: string) {
    exists k :: 0 <= k < |links| && links[k].traceId != "" && links[k].spanId != "" && links[k].spanId == id
  }

  lemma {:induction false} WithLinksNames(f: Finding, links: seq<Link>, id: string)
    ensures id in WithLinks(f, links).spanIds
            <==> id in f.spanIds || LinkNames(links, id)
  {
    if links != [] {
      var front, l := links[..|links| - 1], links[|links| - 1];
      WithLinksNames(f, front, id);
      assert forall k :: 0 <= k < |front| ==> front[k] == links[k];
      assert links[|front|] == l;
    }
  }

  /** The finding about unresolved references names the span, every complete link and the parent. */
  lemma UnresolvedNames(r: Rule, s: Span, id: string)
    ensures id in UnresolvedFinding(r, s).spanIds
            <==> id != "" && (id == s.spanId || id == s.parentSpanId || LinkNames(s.links, id))
  {
    NewFindingIds(r, s, None, UnresolvedReference, Low);
    WithLinksNames(NewFinding(r, s, None, UnresolvedReference, Low).(evidence := Insufficient), s.links, id);
    hide NewFinding, WithLinks;
  }

  function SemanticFinding(r: Rule, spans: seq<Span>, t: Table, i: nat): Option<Finding>
    requires i < |spans| && Usable(spans, t)
  {
    var s, x := spans[i], Candidate(spans, t, i);
    if (!IsMessaging(s) && r.check != MissingMessagingSystem) || !Applies(r, s) || !Bad(r.check, s, t, i) then None
    else if r.check == MissingConsumerContext && x.Some? then
      Some(NewFinding(r, spans[x.value.producer], Some(s), CandidateBasis(x.value), High))
    else if r.check == UnresolvedConsumerContext then Some(UnresolvedFinding(r, s))
    else Some(NewFinding(r, s, None, SemanticValidation, High))
  }

  // ---------- Orphans ----------

  /** A conclusion from absence is not evidence enough unless the input is known to be complete. */
  function MarkAbsence(f: Finding, audit: AuditContext): (r: Finding)
    ensures Gist(r) == Gist(f)
    ensures !audit.coverageComplete ==> r.evidence == Insufficient
  {
    if audit.coverageComplete then f else f.(evidence := Insufficient, confidence := Low)
  }

  function AbsenceConfidence(s: Span, audit: AuditContext): Confidence {
    if audit.coverageComplete && s.Identity() != "" then Medium else Low
  }

  function OrphanProducerFinding(cfg: Settings, r: Rule, spans: seq<Span>, t: Table, audit: AuditContext, i: nat)
    : Option<Finding>
    requires i < |spans|
  {
    var s := spans[i];
    if s.IsProducer() && Applies(r, s) && i !in t.producerMatched && WindowClosed(s, cfg.window, audit) then
      Some(MarkAbsence(NewFinding(r, s, None, NoCorrelation, AbsenceConfidence(s, audit)), audit))
    else None
  }

  function OrphanConsumerFinding(cfg: Settings, r: Rule, spans: seq<Span>, t: Table, audit: AuditContext, i: nat)
    : Option<Finding>
    requires i < |spans|
  {
    var s := spans[i];
    if s.IsConsumer() && Applies(r, s) && i !in t.consumerMatched && t.References(i) == 0
        && WindowClosed(s, cfg.window, audit) then
      Some(MarkAbsence(NewFinding(r, BLANK, Some(s), NoCorrelation, AbsenceConfidence(s, audit)), audit))
    else None
  }

  // ---------- Batches ----------

  ghost function BatchFinding(r: Rule, spans: seq<Span>, i: nat): Option<Finding>
    requires i < |spans|
  {
    var s := spans[i];
    if s.IsConsumer() && Applies(r, s) && s.batchCount.Some? && s.batchCount.value >= 2
       && BatchCoverage.Coverage(spans, s.links) < s.batchCount.value then
      Some(NewFinding(r, BLANK, Some(s), Correlated(SpanLink), High))
    else None
  }

  // ---------- All span checks ----------

  predicate IsSemantic(check: Check) {
    check in {MissingServiceName, MissingMessagingSystem, MissingDestination, InvalidOperation, InvalidSpanKind,
              InvalidSpanIdentity, InvalidTimestamps, InvalidContextReference, MissingConsumerContext,
              UnresolvedConsumerContext}
  }

  /** The finding a rule raises about span `i`, if any. */
  ghost function SpanFinding(cfg: Settings, r: Rule, spans: seq<Span>, t: Table, audit: AuditContext, i: nat)
    : Option<Finding>
    requires i < |spans| && Usable(spans, t)
  {
    if IsSemantic(r.check) then SemanticFinding(r, spans, t, i)
    else match r.check
      case OrphanProducer => OrphanProducerFinding(cfg, r, spans, t, audit, i)
      case OrphanConsumer => OrphanConsumerFinding(cfg, r, spans, t, audit, i)
      case BatchLinksIncomplete => BatchFinding(r, spans, i)
      case _ => None
  }

  ghost function SpanFindings(cfg: Settings, r: Rule, spans: seq<Span>, t: Table, audit: AuditContext, n: nat)
    : seq<Finding>
    requires n <= |spans| && Usable(spans, t)
  {
    if n == 0 then []
    else
      SpanFindings(cfg, r, spans, t, audit, n - 1)
      + Listed(SpanFinding(cfg, r, spans, t, audit, n - 1))
  }

  lemma NoSpanFindings(cfg: Settings, r: Rule, spans: seq<Span>, t: Table, audit: AuditContext)
    requires Usable(spans, t)
    ensures SpanFindings(cfg, r, spans, t, audit, 0) == []
  {}

  lemma SpanFindingsOneMore(cfg: Settings, r: Rule, spans: seq<Span>, t: Table, audit: AuditContext, n: nat)
    requires n < |spans| && Usable(spans, t)
    ensures SpanFindings(cfg, r, spans, t, audit, n + 1)
              == SpanFindings(cfg, r, spans, t, audit, n) + Listed(SpanFinding(cfg, r, spans, t, audit, n))
  {
    hide SpanFinding, Usable;
  }

  lemma OrphanProducerOneMore(cfg: Settings, r: Rule, spans: seq<Span>, t: Table, audit: AuditContext, n: nat)
    requires n < |spans| && Usable(spans, t) && r.check == OrphanProducer
    ensures SpanFindings(cfg, r, spans, t, audit, n + 1)
              == SpanFindings(cfg, r, spans, t, audit, n) + Listed(OrphanProducerFinding(cfg, r, spans, t, audit, n))
  {
    OneMoreOf(cfg, r, spans, t, audit, n);
    hide *;
  }

  lemma OrphanConsumerOneMore(cfg: Settings, r: Rule, spans: seq<Span>, t: Table, audit: AuditContext, n: nat)
    requires n < |spans| && Usable(spans, t) && r.check == OrphanConsumer
    ensures SpanFindings(cfg, r, spans, t, audit, n + 1)
              == SpanFindings(cfg, r, spans, t, audit, n) + Listed(OrphanConsumerFinding(cfg, r, spans, t, audit, n))
  {
    OneMoreOf(cfg, r, spans, t, audit, n);
    hide *;
  }

  /** The next span's finding as the check in question gives it. */
  lemma OneMoreOf(cfg: Settings, r: Rule, spans: seq<Span>, t: Table, audit: AuditContext, n: nat)
    requires n < |spans| && Usable(spans, t)
    ensures var before, after := SpanFindings(cfg, r, spans, t, audit, n), SpanFindings(cfg, r, spans, t, audit, n + 1);
      && (IsSemantic(r.check) ==> after == before + Listed(SemanticFinding(r, spans, t, n)))
      && (r.check == OrphanProducer ==> after == before + Listed(OrphanProducerFinding(cfg, r, spans, t, audit, n)))
      && (r.check == OrphanConsumer ==> after == before + Listed(OrphanConsumerFinding(cfg, r, spans, t, audit, n)))
      && (r.check == BatchLinksIncomplete ==> after == before + Listed(BatchFinding(r, spans, n)))
  {
    SpanFindingsOneMore(cfg, r, spans, t, audit, n);
    hide SpanFindings, SemanticFinding, OrphanProducerFinding, OrphanConsumerFinding, BatchFinding, Usable, Listed;
  }

  // ---------- Correlation checks ----------

  function LatencyFinding(cfg: Settings, r: Rule, spans: seq<Span>, x: Correlation): Option<Finding>
    requires x.producer < |spans| && x.consumer < |spans|
  {
    var f := NewFinding(r, spans[x.producer], Some(spans[x.consumer]), Correlated(x.how), x.confidence);
    match r.check
    case QueueLatencyHigh => if x.queueLatency > cfg.queueLatency then Some(f) else None
    case ClockSkew => if x.confidence == High && x.queueLatency < Negate(cfg.clockSkewTolerance) then Some(f) else None
    case _ => None
  }

  function LatencyFindings(cfg: Settings, r: Rule, spans: seq<Span>, xs: seq<Correlation>): seq<Finding>
    requires PairsInRange(spans, xs)
  {
    if xs == [] then []
    else LatencyFindings(cfg, r, spans, xs[..|xs| - 1]) + Listed(LatencyFinding(cfg, r, spans, xs[|xs| - 1]))
  }

  predicate Slow(cfg: Settings, x: Correlation) { x.queueLatency > cfg.queueLatency }

  predicate Skewed(cfg: Settings, x: Correlation) {
    x.confidence == High && x.queueLatency < Negate(cfg.clockSkewTolerance)
  }

  function SlowTest(cfg: Settings): Correlation -> bool { (x: Correlation) => Slow(cfg, x) }

  function SkewedTest(cfg: Settings): Correlation -> bool { (x: Correlation) => Skewed(cfg, x) }

  /** As many findings as slow, or skewed, correlations. */
  lemma {:induction false} LatencyFindingsCount(cfg: Settings, r: Rule, spans: seq<Span>, xs: seq<Correlation>)
    requires PairsInRange(spans, xs)
    ensures r.check == QueueLatencyHigh ==> |LatencyFindings(cfg, r, spans, xs)| == CountIf(xs, SlowTest(cfg))
    ensures r.check == ClockSkew ==> |LatencyFindings(cfg, r, spans, xs)| == CountIf(xs, SkewedTest(cfg))
  {
    if xs != [] {
      var front, x := xs[..|xs| - 1], xs[|xs| - 1];
      LatencyFindingMeans(cfg, r, spans, x);
      hide LatencyFinding, Slow, Skewed;
      LatencyFindingsCount(cfg, r, spans, front);
    }
  }

  lemma LatencyFindingMeans(cfg: Settings, r: Rule, spans: seq<Span>, x: Correlation)
    requires x.producer < |spans| && x.consumer < |spans|
    ensures r.check == QueueLatencyHigh ==> |Listed(LatencyFinding(cfg, r, spans, x))| == if Slow(cfg, x) then 1 else 0
    ensures r.check == ClockSkew ==> |Listed(LatencyFinding(cfg, r, spans, x))| == if Skewed(cfg, x) then 1 else 0
  {
    hide NewFinding, Negate;
  }

  // ---------- What the checks mean ----------

  /** With a latency that a duration can hold, a correlation is reported as slow exactly when the consumer started more
      than the limit after the producer ended, and as skewed exactly when a context joins the two and the consumer
      started before that by more than the tolerance. */
  lemma LatencyMeaning(cfg: Settings, r: Rule, spans: seq<Span>, window: int, t: Table, k: nat)
    requires Agree(spans, window, t, |spans|) && PairsInRange(spans, t.correlations) && k < |t.correlations|
    requires var x := t.correlations[k];
      MIN_DURATION <= spans[x.consumer].start - spans[x.producer].end <= MAX_DURATION
    requires 0 <= cfg.clockSkewTolerance
    ensures var x := t.correlations[k];
      var found, p, c := LatencyFinding(cfg, r, spans, x).Some?, spans[x.producer], spans[x.consumer];
      && (r.check == QueueLatencyHigh ==> (found <==> c.start - p.end > cfg.queueLatency))
      && (r.check == ClockSkew ==>
            (found <==> x.how in {SpanLink, ParentContext} && p.end - c.start > cfg.clockSkewTolerance))
  {
    assert SoundCorrelation(spans, window, t.correlations[k]);
    hide Agree, NewFinding, Span.IsProducer, Span.IsConsumer;
  }

  /** Findings about orphans are sufficient only of input known to be complete, and then of medium confidence if the
      broker identified the message; else they are insufficient and of low confidence. */
  lemma OrphanEvidence(cfg: Settings, r: Rule, spans: seq<Span>, t: Table, audit: AuditContext, i: nat)
    requires Usable(spans, t) && i < |spans| && (r.check == OrphanProducer || r.check == OrphanConsumer)
    requires SpanFinding(cfg, r, spans, t, audit, i).Some?
    ensures var f := SpanFinding(cfg, r, spans, t, audit, i).value;
      if audit.coverageComplete
      then f.evidence == Sufficient && f.confidence == if spans[i].Identity() != "" then Medium else Low
      else f.evidence == Insufficient && f.confidence == Low
  {
    hide Applies, WindowClosed, NewFinding, Span.Identity, Span.IsProducer, Span.IsConsumer;
  }


  /** Tables that agree make the context checks mean what they say: a context is missing exactly
      when the span carries none, and then any candidate was found by identity or time. */
  lemma MissingContextMeaning(spans: seq<Span>, window: int, t: Table, r: Rule, i: nat)
    requires Agree(spans, window, t, |spans|) && Usable(spans, t) && i < |spans| && r.check == MissingConsumerContext
    ensures SemanticFinding(r, spans, t, i).Some? <==>
              spans[i].Operation() == "process" && Applies(r, spans[i]) && !CarriesContext(spans[i])
    ensures SemanticFinding(r, spans, t, i).Some? && Candidate(spans, t, i).Some? ==>
              Candidate(spans, t, i).value.confidence != High
    ensures SemanticFinding(r, spans, t, i).Some? ==>
              var f, x := SemanticFinding(r, spans, t, i).value, Candidate(spans, t, i);
              f.basis == if x.None? then SemanticValidation
                         else if x.value.how == TimeHeuristic then TimeCandidate else IdentityCandidate
  {
    hide Applies;
    if SemanticFinding(r, spans, t, i).Some? && Candidate(spans, t, i).Some? {
      var k := t.Of(i)[0];
      assert t.correlations[k].consumer == i;
      assert t.correlations[k].confidence == High ==> HasHigh(t, i);
    }
  }

  /** A consumer is reported as an orphan exactly when nothing correlates with it, it carries no valid link and no valid
      parent, and it has ended: in a finished input at any time, in a live window at least the window before some other
      end. */
  lemma OrphanConsumerMeaning(cfg: Settings, spans: seq<Span>, window: int, t: Table, r: Rule, audit: AuditContext,
                              i: nat)
    requires Agree(spans, window, t, |spans|) && i < |spans| && audit.watermark == EventWatermark(spans)
    ensures var s := spans[i];
      OrphanConsumerFinding(cfg, r, spans, t, audit, i).Some?
      <==> && ToLower(s.operationType) in {"process", "receive"} && Applies(r, s)
           && s.end != ZERO_TIME
           && (audit.finalized
               || exists k :: 0 <= k < |spans| && spans[k].end > ZERO_TIME && spans[k].end >= s.end + cfg.window)
           && !(ValidTraceId(s.traceId) && ValidSpanId(s.parentSpanId))
           && (forall k :: 0 <= k < |s.links| ==> !(ValidTraceId(s.links[k].traceId) && ValidSpanId(s.links[k].spanId)))
           && forall k :: 0 <= k < |t.correlations| ==> t.correlations[k].consumer != i
  {
    hide Agree, Applies, WindowClosed, MarkAbsence, NewFinding, ValidTraceId, ValidSpanId, ToLower, EventWatermark,
         ClosedIn;
    WindowClosedMeans(spans, spans[i], cfg.window, audit);
    UnmatchedConsumer(spans, window, t, i);
  }

  /** A producer is reported as an orphan exactly when nothing correlates with it and it has ended: in a finished input
      at any time, in a live window at least the window before some other end. */
  lemma OrphanProducerMeaning(cfg: Settings, spans: seq<Span>, window: int, t: Table, r: Rule, audit: AuditContext,
                              i: nat)
    requires Agree(spans, window, t, |spans|) && i < |spans| && audit.watermark == EventWatermark(spans)
    ensures var s := spans[i];
      OrphanProducerFinding(cfg, r, spans, t, audit, i).Some?
      <==> && ToLower(s.operationType) in {"create", "send"} && Applies(r, s)
           && s.end != ZERO_TIME
           && (audit.finalized
               || exists k :: 0 <= k < |spans| && spans[k].end > ZERO_TIME && spans[k].end >= s.end + cfg.window)
           && forall k :: 0 <= k < |t.correlations| ==> t.correlations[k].producer != i
  {
    hide Agree, Applies, WindowClosed, MarkAbsence, NewFinding, ToLower, EventWatermark, ClosedIn;
    WindowClosedMeans(spans, spans[i], cfg.window, audit);
    UnmatchedProducer(spans, window, t, i);
  }

  lemma UnmatchedProducer(spans: seq<Span>, window: int, t: Table, i: nat)
    requires Agree(spans, window, t, |spans|)
    ensures i !in t.producerMatched <==> forall k :: 0 <= k < |t.correlations| ==> t.correlations[k].producer != i
  {}

  lemma UnmatchedConsumer(spans: seq<Span>, window: int, t: Table, i: nat)
    requires Agree(spans, window, t, |spans|) && i < |spans|
    ensures i !in t.consumerMatched <==> forall k :: 0 <= k < |t.correlations| ==> t.correlations[k].consumer != i
    ensures spans[i].IsConsumer() ==> (t.References(i) == 0 <==> !CarriesContext(spans[i]))
  {}

  /** No span is reported both for a reference that resolves to nothing and for having none. */
  lemma NeverBoth(cfg: Settings, spans: seq<Span>, window: int, t: Table, a: Rule, b: Rule, auditA: AuditContext,
                  auditB: AuditContext, i: nat)
    requires Agree(spans, window, t, |spans|) && Usable(spans, t) && i < |spans|
    requires a.check == UnresolvedConsumerContext && SpanFinding(cfg, a, spans, t, auditA, i).Some?
    requires b.check == MissingConsumerContext || b.check == OrphanConsumer
    ensures SpanFinding(cfg, b, spans, t, auditB, i).None?
  {
    hide Applies, WindowClosed, MarkAbsence, NewFinding, UnresolvedFinding;
  }

  // ---------- From a live window to a finished input ----------

  /** What a live window reports of a span, the finished input reports too. */
  lemma SpanFindingStays(cfg: Settings, r: Rule, spans: seq<Span>, t: Table, live: AuditContext, offline: AuditContext,
                         i: nat)
    requires i < |spans| && Usable(spans, t) && Outlasts(offline, live)
    ensures Stays(SpanFinding(cfg, r, spans, t, live, i), SpanFinding(cfg, r, spans, t, offline, i))
  {
    var s := spans[i];
    GistForgets(r, s, None, NoCorrelation, AbsenceConfidence(s, live), AbsenceConfidence(s, offline));
    GistForgets(r, BLANK, Some(s), NoCorrelation, AbsenceConfidence(s, live), AbsenceConfidence(s, offline));
    if WindowClosed(s, cfg.window, live) {
      ClosedLiveClosedOffline(s, cfg.window, live, offline);
    }
    hide Applies, WindowClosed, NewFinding, Gist, AbsenceConfidence, SemanticFinding, BatchFinding, MarkAbsence;
  }

  lemma {:induction false} SpanFindingsAppear(cfg: Settings, r: Rule, spans: seq<Span>, t: Table, live: AuditContext,
                                              offline: AuditContext, n: nat)
    requires n <= |spans| && Usable(spans, t) && Outlasts(offline, live)
    ensures Appears(SpanFindings(cfg, r, spans, t, live, n), SpanFindings(cfg, r, spans, t, offline, n))
  {
    hide *;
    if n == 0 {
      NoSpanFindings(cfg, r, spans, t, live);
      NoSpanFindings(cfg, r, spans, t, offline);
      NothingAppears([]);
    } else {
      SpanFindingsAppear(cfg, r, spans, t, live, offline, n - 1);
      SpanFindingStays(cfg, r, spans, t, live, offline, n - 1);
      SpanFindingsOneMore(cfg, r, spans, t, live, n - 1);
      SpanFindingsOneMore(cfg, r, spans, t, offline, n - 1);
      AppearsOneMore(SpanFindings(cfg, r, spans, t, live, n - 1), SpanFindings(cfg, r, spans, t, offline, n - 1),
                     SpanFinding(cfg, r, spans, t, live, n - 1), SpanFinding(cfg, r, spans, t, offline, n - 1));
    }
  }

  // ---------- Evidence ----------

  lemma SpanFindingSound(cfg: Settings, r: Rule, spans: seq<Span>, t: Table, audit: AuditContext, i: nat)
    requires i < |spans| && Usable(spans, t)
    ensures !audit.coverageComplete ==> Guarded(Listed(SpanFinding(cfg, r, spans, t, audit, i)))
    ensures Presentable(Listed(SpanFinding(cfg, r, spans, t, audit, i)))
  {
    hide Applies, WindowClosed, NewFinding, Bad, UnresolvedFinding;
  }

  lemma {:induction false} SpanFindingsSound(cfg: Settings, r: Rule, spans: seq<Span>, t: Table, audit: AuditContext,
                                             n: nat)
    requires n <= |spans| && Usable(spans, t)
    ensures !audit.coverageComplete ==> Guarded(SpanFindings(cfg, r, spans, t, audit, n))
    ensures Presentable(SpanFindings(cfg, r, spans, t, audit, n))
  {
    hide *;
    if n == 0 {
      NoSpanFindings(cfg, r, spans, t, audit);
      NothingSound();
    } else {
      SpanFindingsSound(cfg, r, spans, t, audit, n - 1);
      SpanFindingSound(cfg, r, spans, t, audit, n - 1);
      SpanFindingsOneMore(cfg, r, spans, t, audit, n - 1);
      SoundConcat(SpanFindings(cfg, r, spans, t, audit, n - 1), Listed(SpanFinding(cfg, r, spans, t, audit, n - 1)));
    }
  }

  lemma {:induction false} LatencyFindingsSound(cfg: Settings, r: Rule, spans: seq<Span>, xs: seq<Correlation>)
    requires PairsInRange(spans, xs)
    ensures Guarded(LatencyFindings(cfg, r, spans, xs)) && Presentable(LatencyFindings(cfg, r, spans, xs))
  {
    if xs == [] {
      NothingSound();
    } else {
      LatencyFindingsSound(cfg, r, spans, xs[..|xs| - 1]);
      LatencyFindingSound(cfg, r, spans, xs[|xs| - 1]);
      hide LatencyFinding, Guarded, Presentable;
      SoundConcat(LatencyFindings(cfg, r, spans, xs[..|xs| - 1]), Listed(LatencyFinding(cfg, r, spans, xs[|xs| - 1])));
    }
  }

  lemma LatencyFindingSound(cfg: Settings, r: Rule, spans: seq<Span>, x: Correlation)
    requires x.producer < |spans| && x.consumer < |spans|
    ensures Guarded(Listed(LatencyFinding(cfg, r, spans, x))) && Presentable(Listed(LatencyFinding(cfg, r, spans, x)))
  {
    hide NewFinding;
  }

  // ---------- The loops ----------

  method CountInvalidLinks(links: seq<Link>) returns (invalidLinks: nat)
    ensures invalidLinks > 0 <==> exists k :: 0 <= k < |links| && !links[k].HasValidContext()
  {
    invalidLinks := 0;
    for k := 0 to |links|
      invariant invalidLinks > 0 <==> exists j :: 0 <= j < k && !links[j].HasValidContext()
    {
      if !links[k].HasValidContext() {
        invalidLinks := invalidLinks + 1;
      }
    }
  }

  /** The switch over the semantic checks. */
  method IsBad(check: Check, s: Span, t: Table, i: nat) returns (bad: bool)
    ensures bad == Bad(check, s, t, i)
  {
    bad := false;
    match check
    case MissingServiceName =>
      bad := s.service == "";
    case MissingMessagingSystem =>
      bad := LooksMessaging(s) && s.system == "";
    case MissingDestination =>
      bad := s.Operation() in OPERATIONS && s.destination == "";
    case InvalidOperation =>
      bad := s.Operation() !in OPERATIONS;
    case InvalidSpanKind =>
      var expected := ExpectedKinds(s.Operation());
      bad := |expected| > 0 && s.kind !in expected;
    case InvalidSpanIdentity =>
      bad := !ValidTraceId(s.traceId) || !ValidSpanId(s.spanId);
    case InvalidTimestamps =>
      bad := TimestampMissing(s.start) || TimestampMissing(s.end) || s.end < s.start;
    case InvalidContextReference =>
      var invalidLinks := CountInvalidLinks(s.links);
      var invalidParent := s.parentSpanId != "" && (!ValidTraceId(s.traceId) || !ValidSpanId(s.parentSpanId));
      bad := invalidLinks > 0 || invalidParent;
    case MissingConsumerContext =>
      bad := s.Operation() == "process" && t.References(i) == 0;
    case UnresolvedConsumerContext =>
      bad := s.IsConsumer() && t.Unresolved(i) > 0;
    case _ =>
  }

  method NameLinks(finding: Finding, links: seq<Link>) returns (f: Finding)
    ensures f == WithLinks(finding, links)
  {
    f := finding;
    for k := 0 to |links|
      invariant f == WithLinks(finding, links[..k])
    {
      var link := links[k];
      assert links[..k + 1][..k] == links[..k];
      if link.traceId != "" && link.spanId != "" {
        f := f.(traceIds := AppendUnique(f.traceIds, link.traceId));
        f := f.(spanIds := AppendUnique(f.spanIds, link.spanId));
      }
    }
    assert links[..|links|] == links;
  }

  method SemanticChecks(cfg: Settings, r: Rule, spans: seq<Span>, t: Table, audit: AuditContext)
    returns (out: seq<Finding>)
    requires Usable(spans, t) && IsSemantic(r.check)
    ensures out == SpanFindings(cfg, r, spans, t, audit, |spans|)
  {
    hide *;
    NoSpanFindings(cfg, r, spans, t, audit);
    out := [];
    for i := 0 to |spans|
      invariant out == SpanFindings(cfg, r, spans, t, audit, i)
    {
      var f := SemanticCheck(r, spans, t, i);
      OneMoreOf(cfg, r, spans, t, audit, i);
      out := out + Listed(f);
    }
  }

  method SemanticCheck(r: Rule, spans: seq<Span>, t: Table, i: nat) returns (f: Option<Finding>)
    requires i < |spans| && Usable(spans, t)
    ensures f == SemanticFinding(r, spans, t, i)
  {
    hide Applies, Bad, NewFinding, WithLinks;
    var s := spans[i];
    if !IsMessaging(s) && r.check != MissingMessagingSystem {
      return None;
    }
    if !Applies(r, s) {
      return None;
    }
    var bad := IsBad(r.check, s, t, i);
    if !bad {
      return None;
    }
    var found := NewFinding(r, s, None, SemanticValidation, if r.check == UnresolvedConsumerContext then Low else High);
    if r.check == MissingConsumerContext {
      var candidate := Candidate(spans, t, i);
      if candidate.Some? {
        var producer := spans[candidate.value.producer];
        found := NewFinding(r, producer, Some(s), CandidateBasis(candidate.value), High);
      }
    }
    if r.check == UnresolvedConsumerContext {
      RelabelUnresolved(r, s);
      found := found.(basis := UnresolvedReference, confidence := Low, evidence := Insufficient);
      found := NameLinks(found, s.links);
      if s.parentSpanId != "" {
        found := found.(spanIds := AppendUnique(found.spanIds, s.parentSpanId));
      }
    }
    f := Some(found);
  }

  lemma RelabelUnresolved(r: Rule, s: Span)
    ensures NewFinding(r, s, None, SemanticValidation, Low).(basis := UnresolvedReference, confidence := Low,
                                                             evidence := Insufficient)
            == NewFinding(r, s, None, UnresolvedReference, Low).(evidence := Insufficient)
  {}

  method OrphanProducerCheck(cfg: Settings, r: Rule, spans: seq<Span>, t: Table, audit: AuditContext, i: nat)
    returns (f: Option<Finding>)
    requires i < |spans|
    ensures f == OrphanProducerFinding(cfg, r, spans, t, audit, i)
  {
    hide Applies, WindowClosed, NewFinding, MarkAbsence;
    f := None;
    var s := spans[i];
    if s.IsProducer() && Applies(r, s) && i !in t.producerMatched && WindowClosed(s, cfg.window, audit) {
      var confidence := Low;
      if audit.coverageComplete && s.Identity() != "" {
        confidence := Medium;
      }
      f := Some(MarkAbsence(NewFinding(r, s, None, NoCorrelation, confidence), audit));
    }
  }

  method OrphanProducers(cfg: Settings, r: Rule, spans: seq<Span>, t: Table, audit: AuditContext)
    returns (out: seq<Finding>)
    requires Usable(spans, t) && r.check == OrphanProducer
    ensures out == SpanFindings(cfg, r, spans, t, audit, |spans|)
  {
    hide *;
    NoSpanFindings(cfg, r, spans, t, audit);
    out := [];
    for i := 0 to |spans|
      invariant out == SpanFindings(cfg, r, spans, t, audit, i)
    {
      var f := OrphanProducerCheck(cfg, r, spans, t, audit, i);
      OneMoreOf(cfg, r, spans, t, audit, i);
      out := out + Listed(f);
    }
  }

  method OrphanConsumerCheck(cfg: Settings, r: Rule, spans: seq<Span>, t: Table, audit: AuditContext, i: nat)
    returns (f: Option<Finding>)
    requires i < |spans|
    ensures f == OrphanConsumerFinding(cfg, r, spans, t, audit, i)
  {
    hide Applies, WindowClosed, NewFinding, MarkAbsence;
    f := None;
    var s := spans[i];
    if s.IsConsumer() && Applies(r, s) && i !in t.consumerMatched && t.References(i) == 0
        && WindowClosed(s, cfg.window, audit) {
      var confidence := Low;
      if audit.coverageComplete && s.Identity() != "" {
        confidence := Medium;
      }
      f := Some(MarkAbsence(NewFinding(r, BLANK, Some(s), NoCorrelation, confidence), audit));
    }
  }

  method OrphanConsumers(cfg: Settings, r: Rule, spans: seq<Span>, t: Table, audit: AuditContext)
    returns (out: seq<Finding>)
    requires Usable(spans, t) && r.check == OrphanConsumer
    ensures out == SpanFindings(cfg, r, spans, t, audit, |spans|)
  {
    hide *;
    NoSpanFindings(cfg, r, spans, t, audit);
    out := [];
    for i := 0 to |spans|
      invariant out == SpanFindings(cfg, r, spans, t, audit, i)
    {
      var f := OrphanConsumerCheck(cfg, r, spans, t, audit, i);
      OneMoreOf(cfg, r, spans, t, audit, i);
      out := out + Listed(f);
    }
  }

  method BatchCheck(r: Rule, spans: seq<Span>, i: nat) returns (f: Option<Finding>)
    requires i < |spans|
    ensures f == BatchFinding(r, spans, i)
  {
    hide Applies, NewFinding, BatchCoverage.Coverage;
    var s := spans[i];
    if !s.IsConsumer() || !Applies(r, s) {
      return None;
    }
    if s.batchCount.None? || s.batchCount.value < 2 {
      return None;
    }
    f := None;
    var coverage, validLinks, contexts := BatchCoverage.BatchLinkCoverage(s, spans);
    if coverage < s.batchCount.value {
      f := Some(NewFinding(r, BLANK, Some(s), Correlated(SpanLink), High));
    }
  }

  method BatchLinks(cfg: Settings, r: Rule, spans: seq<Span>, t: Table, audit: AuditContext) returns (out: seq<Finding>)
    requires Usable(spans, t) && r.check == BatchLinksIncomplete
    ensures out == SpanFindings(cfg, r, spans, t, audit, |spans|)
  {
    hide *;
    NoSpanFindings(cfg, r, spans, t, audit);
    out := [];
    for i := 0 to |spans|
      invariant out == SpanFindings(cfg, r, spans, t, audit, i)
    {
      var f := BatchCheck(r, spans, i);
      OneMoreOf(cfg, r, spans, t, audit, i);
      out := out + Listed(f);
    }
  }

  method LatencyCheck(cfg: Settings, r: Rule, spans: seq<Span>, x: Correlation) returns (f: Option<Finding>)
    requires x.producer < |spans| && x.consumer < |spans|
    requires r.check == QueueLatencyHigh || r.check == ClockSkew
    ensures f == LatencyFinding(cfg, r, spans, x)
  {
    hide NewFinding, Negate;
    if r.check == QueueLatencyHigh {
      if x.queueLatency <= cfg.queueLatency {
        return None;
      }
    } else {
      if x.confidence != High {
        return None;
      }
      if x.queueLatency >= Negate(cfg.clockSkewTolerance) {
        return None;
      }
    }
    f := Some(NewFinding(r, spans[x.producer], Some(spans[x.consumer]), Correlated(x.how), x.confidence));
  }

  lemma LatencyOneMore(cfg: Settings, r: Rule, spans: seq<Span>, xs: seq<Correlation>, k: nat)
    requires PairsInRange(spans, xs) && k < |xs|
    ensures PairsInRange(spans, xs[..k]) && PairsInRange(spans, xs[..k + 1])
    ensures LatencyFindings(cfg, r, spans, xs[..k + 1])
              == LatencyFindings(cfg, r, spans, xs[..k]) + Listed(LatencyFinding(cfg, r, spans, xs[k]))
  {
    assert xs[..k + 1][..k] == xs[..k];
    hide LatencyFinding;
  }

  method LatencyChecks(cfg: Settings, r: Rule, spans: seq<Span>, xs: seq<Correlation>) returns (out: seq<Finding>)
    requires PairsInRange(spans, xs)
    requires r.check == QueueLatencyHigh || r.check == ClockSkew
    ensures out == LatencyFindings(cfg, r, spans, xs)
  {
    hide LatencyFinding, Listed;
    out := [];
    for k := 0 to |xs|
      invariant out == LatencyFindings(cfg, r, spans, xs[..k])
    {
      LatencyOneMore(cfg, r, spans, xs, k);
      var f := LatencyCheck(cfg, r, spans, xs[k]);
      out := out + Listed(f);
    }
    assert xs[..|xs|] == xs;
  }
}
