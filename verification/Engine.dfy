/** The audit engine: the rules over one correlated set of spans, offline and live. */
module Engine {
  import opened Spans
  import opened Counting
  import opened Tables
  import opened Scan
  import opened Watermark
  import opened Topology
  import opened Findings
  import opened Checks
  import opened AttemptWindows
  import opened Duplicates
  import opened Expectations
  import opened TopologyChecks
  import opened Summaries
  import opened TopologyLaws
  import opened AuditLaws
  import opened SpanLaws
  import opened DuplicateLaws
  import opened CorrelationLaws
  import opened IndexedRun
  import Correlate
  import FindingOrder

  datatype Config = Config(settings: Settings, rules: seq<Rule>, plan: Plan)

  datatype CoverageStatus = UnknownCoverage | CompleteCoverage | DegradedCoverage

  /** What a report says about the telemetry it rests on. */
  datatype Coverage = Coverage(
    status: CoverageStatus, droppedAttributes: nat, droppedLinks: nat,
    retainedSpans: nat, rejectedSpans: nat, duplicateExports: nat, conflictingDuplicates: nat, ttlEvictions: nat)

  datatype Report = Report(summary: Summary, coverage: Coverage, findings: seq<Finding>, topology: seq<Edge>,
                           queueLatencies: seq<int>)

  // ---------- All rules ----------

  /** What one rule finds; `edges` is the observed topology. */
  ghost function RuleFindings(cfg: Config, order: seq<Span> -> seq<Span>, r: Rule, spans: seq<Span>, t: Table,
                              edges: seq<Edge>, audit: AuditContext): seq<Finding>
    requires Usable(spans, t)
  {
    match r.check
    case DuplicateProcessing => DuplicateFindings(cfg.settings, r, spans, order)
    case QueueLatencyHigh => LatencyFindings(cfg.settings, r, spans, t.correlations)
    case ClockSkew => LatencyFindings(cfg.settings, r, spans, t.correlations)
    case RuntimeTopologyMismatch => TopologyFindings(cfg.settings, cfg.plan, r, spans, t.correlations, edges, audit)
    case _ => SpanFindings(cfg.settings, r, spans, t, audit, |spans|)
  }

  /** What the first `n` rules find, the disabled ones nothing. */
  ghost function AllFindings(cfg: Config, order: seq<Span> -> seq<Span>, spans: seq<Span>, t: Table, edges: seq<Edge>,
                             audit: AuditContext, n: nat): seq<Finding>
    requires Usable(spans, t) && n <= |cfg.rules|
  {
    if n == 0 then []
    else
      AllFindings(cfg, order, spans, t, edges, audit, n - 1)
      + if cfg.rules[n - 1].enabled then RuleFindings(cfg, order, cfg.rules[n - 1], spans, t, edges, audit) else []
  }

  // ---------- Coverage ----------

  function LinksDropped(links: seq<Link>): nat {
    if links == [] then 0 else LinksDropped(links[..|links| - 1]) + links[|links| - 1].droppedAttributes
  }

  /** Attributes dropped from the spans and their links. */
  function DroppedAttributes(spans: seq<Span>): nat {
    if spans == [] then 0
    else
      var s := spans[|spans| - 1];
      DroppedAttributes(spans[..|spans| - 1]) + s.droppedAttributes + LinksDropped(s.links)
  }

  function DroppedLinks(spans: seq<Span>): nat {
    if spans == [] then 0 else DroppedLinks(spans[..|spans| - 1]) + spans[|spans| - 1].droppedLinks
  }

  /** Some span, or some link of one, had attributes or links dropped before it arrived. */
  predicate ArrivedWithLosses(spans: seq<Span>) {
    exists i :: 0 <= i < |spans| && SpanWithLosses(spans[i])
  }

  predicate SpanWithLosses(s: Span) {
    s.droppedAttributes > 0 || s.droppedLinks > 0 || exists k :: 0 <= k < |s.links| && s.links[k].droppedAttributes > 0
  }

  lemma {:induction false} LinksDroppedExactly(links: seq<Link>)
    ensures LinksDropped(links) > 0 <==> exists k :: 0 <= k < |links| && links[k].droppedAttributes > 0
  {
    if links != [] {
      LinksDroppedExactly(links[..|links| - 1]);
      assert forall k :: 0 <= k < |links| - 1 ==> links[..|links| - 1][k] == links[k];
    }
  }

  /** The counts of what was dropped are zero exactly when nothing was. */
  lemma {:induction false} DroppedExactly(spans: seq<Span>)
    ensures DroppedAttributes(spans) > 0 || DroppedLinks(spans) > 0 <==> ArrivedWithLosses(spans)
  {
    if spans != [] {
      var front, s := spans[..|spans| - 1], spans[|spans| - 1];
      DroppedExactly(front);
      LinksDroppedExactly(s.links);
      hide LinksDropped;
      assert SpanWithLosses(s) <==> s.droppedAttributes > 0 || s.droppedLinks > 0 || LinksDropped(s.links) > 0;
      hide SpanWithLosses;
      assert forall k :: 0 <= k < |front| ==> front[k] == spans[k];
    }
  }

  function BaseCoverage(spans: seq<Span>, audit: AuditContext): Coverage {
    var attributes, links := DroppedAttributes(spans), DroppedLinks(spans);
    var status := if attributes > 0 || links > 0 then DegradedCoverage
                  else if audit.coverageComplete then CompleteCoverage else UnknownCoverage;
    Coverage(status, attributes, links, |spans|, 0, 0, 0, 0)
  }

  /** Coverage is degraded exactly when telemetry arrived with losses, and complete exactly when it did not and the
      input is known to be complete. */
  lemma CoverageMeaning(spans: seq<Span>, audit: AuditContext)
    ensures var c := BaseCoverage(spans, audit);
      && (c.status == DegradedCoverage <==> ArrivedWithLosses(spans))
      && (c.status == CompleteCoverage <==> audit.coverageComplete && !ArrivedWithLosses(spans))
      && c.retainedSpans == |spans|
  {
    DroppedExactly(spans);
    hide DroppedAttributes, DroppedLinks, ArrivedWithLosses;
  }

  /** Degraded coverage turns insufficient evidence into degraded evidence. */
  function Degrade(f: Finding): Finding { if f.evidence == Insufficient then f.(evidence := Degraded) else f }

  function DegradeAll(fs: seq<Finding>): seq<Finding> { seq(|fs|, i requires 0 <= i < |fs| => Degrade(fs[i])) }

  function Settled(fs: seq<Finding>, status: CoverageStatus): seq<Finding> {
    if status == DegradedCoverage then DegradeAll(fs) else fs
  }

  // ---------- Reports ----------

  function Latencies(xs: seq<Correlation>): seq<int> { seq(|xs|, i requires 0 <= i < |xs| => xs[i].queueLatency) }

  /** The report on the spans, given their correlation tables: its findings are those of all enabled rules, settled by
      the coverage and in order. */
  ghost predicate IsReport(cfg: Config, order: seq<Span> -> seq<Span>, spans: seq<Span>, t: Table, audit: AuditContext,
                           report: Report)
    requires Usable(spans, t)
  {
    && IsTopology(spans, t.correlations, report.topology)
    && report.coverage == BaseCoverage(spans, audit)
    && report.queueLatencies == Latencies(t.correlations)
    && report.summary == SummaryOf(spans, t, |report.findings|, cfg.settings.window, audit)
    && multiset(report.findings)
       == multiset(Settled(AllFindings(cfg, order, spans, t, report.topology, audit, |cfg.rules|),
                           report.coverage.status))
    && FindingOrder.InOrder(report.findings)
  }

  /** A report on tables that agree. */
  ghost predicate ReportsOn(cfg: Config, order: seq<Span> -> seq<Span>, spans: seq<Span>, t: Table, audit: AuditContext,
                            report: Report)
  {
    Agree(spans, cfg.settings.window, t, |spans|) && Usable(spans, t) && IsReport(cfg, order, spans, t, audit, report)
  }

  /** The report on the tables that the correlation engine fills. */
  ghost predicate Reports(cfg: Config, order: seq<Span> -> seq<Span>, spans: seq<Span>, audit: AuditContext,
                          report: Report)
  {
    var t := IndexedCorrelate(spans, cfg.settings.window);
    t.Some? && ReportsOn(cfg, order, spans, t.value, audit, report)
  }

  /** A finished input, complete or of unknown completeness. */
  function Finished(spans: seq<Span>, complete: bool): AuditContext {
    AuditContext(true, complete, EventWatermark(spans))
  }

  // ---------- A live report is contained in the offline one ----------

  lemma RuleFindingsAppear(cfg: Config, order: seq<Span> -> seq<Span>, r: Rule, spans: seq<Span>, t: Table,
                           edges: seq<Edge>, live: AuditContext, offline: AuditContext)
    requires Usable(spans, t) && Outlasts(offline, live)
    ensures Appears(RuleFindings(cfg, order, r, spans, t, edges, live),
                    RuleFindings(cfg, order, r, spans, t, edges, offline))
  {
    hide Appears, SpanFindings, DuplicateFindings, LatencyFindings, TopologyFindings, Outlasts, Usable;
    match r.check {
      case DuplicateProcessing => AllAppear(DuplicateFindings(cfg.settings, r, spans, order));
      case QueueLatencyHigh => LatencyAppears(cfg.settings, r, spans, t);
      case ClockSkew => LatencyAppears(cfg.settings, r, spans, t);
      case RuntimeTopologyMismatch =>
        UsableInRange(spans, t);
        TopologyFindingsAppear(cfg.settings, cfg.plan, r, spans, t.correlations, edges, live, offline);
      case _ => SpanFindingsAppear(cfg.settings, r, spans, t, live, offline, |spans|);
    }
  }

  lemma UsableInRange(spans: seq<Span>, t: Table)
    requires Usable(spans, t)
    ensures PairsInRange(spans, t.correlations)
  {}

  lemma LatencyAppears(cfg: Settings, r: Rule, spans: seq<Span>, t: Table)
    requires Usable(spans, t)
    ensures Appears(LatencyFindings(cfg, r, spans, t.correlations), LatencyFindings(cfg, r, spans, t.correlations))
  {
    AllAppear(LatencyFindings(cfg, r, spans, t.correlations));
  }

  lemma {:induction false} AllFindingsAppear(cfg: Config, order: seq<Span> -> seq<Span>, spans: seq<Span>, t: Table,
                                             edges: seq<Edge>, live: AuditContext, offline: AuditContext, n: nat)
    requires Usable(spans, t) && n <= |cfg.rules| && Outlasts(offline, live)
    ensures Appears(AllFindings(cfg, order, spans, t, edges, live, n),
                    AllFindings(cfg, order, spans, t, edges, offline, n))
  {
    hide Appears, RuleFindings, Outlasts, Usable;
    if n == 0 {
      NothingAppears([]);
    } else {
      var r := cfg.rules[n - 1];
      AllFindingsAppear(cfg, order, spans, t, edges, live, offline, n - 1);
      var a, b := AllFindings(cfg, order, spans, t, edges, live, n - 1),
      AllFindings(cfg, order, spans, t, edges, offline, n - 1);
      if r.enabled {
        RuleFindingsAppear(cfg, order, r, spans, t, edges, live, offline);
        AppearsConcat(a, b, RuleFindings(cfg, order, r, spans, t, edges, live),
                      RuleFindings(cfg, order, r, spans, t, edges, offline));
      } else {
        assert a + [] == a && b + [] == b;
      }
    }
  }

  lemma {:induction false} SettledGists(fs: seq<Finding>, status: CoverageStatus, g: Finding)
    ensures CountIf(Settled(fs, status), HasGist(g)) == CountIf(fs, HasGist(g))
  {
    if fs != [] && status == DegradedCoverage {
      var front := fs[..|fs| - 1];
      SettledGists(front, status, g);
      assert DegradeAll(fs)[..|fs| - 1] == DegradeAll(front);
    }
  }

  lemma SettledAppears(a: seq<Finding>, b: seq<Finding>, x: CoverageStatus, y: CoverageStatus)
    requires Appears(a, b)
    ensures Appears(Settled(a, x), Settled(b, y))
  {
    hide CountIf, Settled;
    forall g ensures CountIf(Settled(a, x), HasGist(g)) <= CountIf(Settled(b, y), HasGist(g)) {
      SettledGists(a, x, g);
      SettledGists(b, y, g);
    }
  }

  /** Every finding of a live audit is also a finding of the offline audit of the same spans, as often at least, across
      all checks: finishing the input may add findings, and strengthen or weaken their evidence, but retracts none. */
  lemma LiveWithinOffline(cfg: Config, order: seq<Span> -> seq<Span>, spans: seq<Span>, t: Table, complete: bool,
                          live: Report, offline: Report)
    requires Usable(spans, t)
    requires IsReport(cfg, order, spans, t, Live(spans), live)
    requires IsReport(cfg, order, spans, t, Finished(spans, complete), offline)
    ensures Appears(live.findings, offline.findings) && live.topology == offline.topology
  {
    UsableInRange(spans, t);
    TopologyUnique(spans, t.correlations, live.topology, offline.topology);
    hide IsTopology, Appears, AllFindings, Settled, BaseCoverage, Usable;
    var edges := live.topology;
    var a := AllFindings(cfg, order, spans, t, edges, Live(spans), |cfg.rules|);
    var b := AllFindings(cfg, order, spans, t, edges, Finished(spans, complete), |cfg.rules|);
    AllFindingsAppear(cfg, order, spans, t, edges, Live(spans), Finished(spans, complete), |cfg.rules|);
    SettledAppears(a, b, live.coverage.status, offline.coverage.status);
    AppearsPermuted(Settled(a, live.coverage.status), live.findings, Settled(b, offline.coverage.status),
                    offline.findings);
  }

  // ---------- What live evidence can support ----------

  lemma RuleFindingsSound(cfg: Config, order: seq<Span> -> seq<Span>, r: Rule, spans: seq<Span>, t: Table,
                          edges: seq<Edge>, audit: AuditContext)
    requires Usable(spans, t)
    ensures !audit.coverageComplete ==> Guarded(RuleFindings(cfg, order, r, spans, t, edges, audit))
    ensures Presentable(RuleFindings(cfg, order, r, spans, t, edges, audit))
  {
    UsableInRange(spans, t);
    hide Guarded, Presentable, SpanFindings, LatencyFindings, TopologyFindings, Usable, FindingsOf;
    match r.check {
      case DuplicateProcessing => FindingsSound(cfg.settings, r, spans, order, Keys(r, spans));
      case QueueLatencyHigh => LatencyFindingsSound(cfg.settings, r, spans, t.correlations);
      case ClockSkew => LatencyFindingsSound(cfg.settings, r, spans, t.correlations);
      case RuntimeTopologyMismatch => TopologyFindingsSound(cfg.settings, cfg.plan, r, spans, t.correlations, edges,
                                                            audit);
      case _ => SpanFindingsSound(cfg.settings, r, spans, t, audit, |spans|);
    }
  }

  lemma {:induction false} AllFindingsSound(cfg: Config, order: seq<Span> -> seq<Span>, spans: seq<Span>, t: Table,
                                            edges: seq<Edge>, audit: AuditContext, n: nat)
    requires Usable(spans, t) && n <= |cfg.rules|
    ensures !audit.coverageComplete ==> Guarded(AllFindings(cfg, order, spans, t, edges, audit, n))
    ensures Presentable(AllFindings(cfg, order, spans, t, edges, audit, n))
  {
    if n == 0 {
      NothingSound();
    } else {
      hide Guarded, Presentable, RuleFindings, Usable;
      AllFindingsSound(cfg, order, spans, t, edges, audit, n - 1);
      var before := AllFindings(cfg, order, spans, t, edges, audit, n - 1);
      RuleFindingsSound(cfg, order, cfg.rules[n - 1], spans, t, edges, audit);
      SoundConcat(before, RuleFindings(cfg, order, cfg.rules[n - 1], spans, t, edges, audit));
      assert before + [] == before;
    }
  }

  lemma SettledSound(fs: seq<Finding>, status: CoverageStatus)
    ensures Guarded(fs) ==> Guarded(Settled(fs, status))
    ensures Presentable(fs) ==> Presentable(Settled(fs, status))
  {}

  lemma PermutedSound(a: seq<Finding>, b: seq<Finding>)
    requires multiset(a) == multiset(b)
    ensures Guarded(a) ==> Guarded(b)
    ensures Presentable(a) ==> Presentable(b)
  {
    hide FromAbsence;
    forall k | 0 <= k < |b| ensures b[k] in a {
      assert b[k] in multiset(b);
    }
  }

  /** The findings of a report name no empty id, and all that do not conclude from absence are sufficient; without
      complete coverage those that do are not. */
  lemma ReportSound(cfg: Config, order: seq<Span> -> seq<Span>, spans: seq<Span>, t: Table, audit: AuditContext,
                    report: Report)
    requires Usable(spans, t) && IsReport(cfg, order, spans, t, audit, report)
    ensures Presentable(report.findings) && (!audit.coverageComplete ==> Guarded(report.findings))
  {
    hide IsTopology, Guarded, Presentable, AllFindings, Settled, BaseCoverage;
    var fs := AllFindings(cfg, order, spans, t, report.topology, audit, |cfg.rules|);
    AllFindingsSound(cfg, order, spans, t, report.topology, audit, |cfg.rules|);
    SettledSound(fs, report.coverage.status);
    PermutedSound(Settled(fs, report.coverage.status), report.findings);
  }

  /** No live report presents an absence or an unresolved reference as sufficient evidence; none names an empty id. */
  lemma LiveReportGuarded(cfg: Config, order: seq<Span> -> seq<Span>, spans: seq<Span>, t: Table, live: Report)
    requires Usable(spans, t) && IsReport(cfg, order, spans, t, Live(spans), live)
    ensures Guarded(live.findings) && Presentable(live.findings)
  {
    hide IsReport, Guarded, Presentable;
    ReportSound(cfg, order, spans, t, Live(spans), live);
  }

  /** Degraded coverage leaves no merely insufficient finding. */
  predicate NoneInsufficient(fs: seq<Finding>) {
    forall k :: 0 <= k < |fs| ==> fs[k].evidence != Insufficient
  }

  lemma DegradedReport(cfg: Config, order: seq<Span> -> seq<Span>, spans: seq<Span>, t: Table, audit: AuditContext,
                       report: Report)
    requires Usable(spans, t) && IsReport(cfg, order, spans, t, audit, report)
    requires report.coverage.status == DegradedCoverage
    ensures NoneInsufficient(report.findings)
  {
    hide IsTopology, AllFindings, BaseCoverage;
    var fs := DegradeAll(AllFindings(cfg, order, spans, t, report.topology, audit, |cfg.rules|));
    forall k | 0 <= k < |report.findings| ensures report.findings[k].evidence != Insufficient {
      assert report.findings[k] in multiset(fs);
    }
  }

  /** A report's coverage is that of its spans. */
  lemma ReportCoverage(cfg: Config, order: seq<Span> -> seq<Span>, spans: seq<Span>, audit: AuditContext,
                       report: Report)
    requires Reports(cfg, order, spans, audit, report)
    ensures report.coverage == BaseCoverage(spans, audit)
  {
    CoverageOfReport(cfg, order, spans, IndexedCorrelate(spans, cfg.settings.window).value, audit, report);
    hide IsReport, Agree, Usable, BaseCoverage;
  }

  lemma CoverageOfReport(cfg: Config, order: seq<Span> -> seq<Span>, spans: seq<Span>, t: Table, audit: AuditContext,
                         report: Report)
    requires ReportsOn(cfg, order, spans, t, audit, report)
    ensures report.coverage == BaseCoverage(spans, audit)
  {
    hide IsTopology, AllFindings, Settled, SummaryOf, Latencies, Agree, BaseCoverage;
  }

  lemma CoverageCounts(spans: seq<Span>, audit: AuditContext)
    ensures BaseCoverage(spans, audit).droppedAttributes == DroppedAttributes(spans)
    ensures BaseCoverage(spans, audit).droppedLinks == DroppedLinks(spans)
  {
    hide DroppedAttributes, DroppedLinks;
  }

  // ---------- What a report says, in the fields of the spans ----------

  /** The finding is about what the rule's check is for: a span, a correlation, a message processed twice, a lone span
      or the topology. */
  ghost predicate Arises(cfg: Config, r: Rule, spans: seq<Span>, xs: seq<Correlation>, finalized: bool, f: Finding)
    requires PairsInRange(spans, xs)
  {
    match r.check
    case OrphanProducer => OfLone(r, spans, xs, cfg.settings.window, finalized, f)
    case OrphanConsumer => OfLone(r, spans, xs, cfg.settings.window, finalized, f)
    case DuplicateProcessing => OfDuplicate(cfg.settings, r, spans, f)
    case QueueLatencyHigh => OfLate(cfg.settings, r, spans, xs, f)
    case ClockSkew => OfLate(cfg.settings, r, spans, xs, f)
    case RuntimeTopologyMismatch =>
      NulFree(spans) ==> NamesTopology(cfg.plan, r, spans, xs, cfg.settings.window, finalized, f)
    case _ => OfDue(r, spans, f)
  }

  /** The findings name all that the rule's check is for. */
  ghost predicate AllNamed(cfg: Config, r: Rule, spans: seq<Span>, xs: seq<Correlation>, finalized: bool,
                           fs: seq<Finding>)
    requires PairsInRange(spans, xs)
  {
    match r.check
    case OrphanProducer => LoneNamed(r, spans, xs, cfg.settings.window, finalized, fs)
    case OrphanConsumer => LoneNamed(r, spans, xs, cfg.settings.window, finalized, fs)
    case DuplicateProcessing => DuplicatesNamed(cfg.settings, r, spans, fs)
    case QueueLatencyHigh => LateNamed(cfg.settings, r, spans, xs, fs)
    case ClockSkew => LateNamed(cfg.settings, r, spans, xs, fs)
    case RuntimeTopologyMismatch =>
      NulFree(spans) ==> TopologyNamed(cfg.plan, r, spans, xs, cfg.settings.window, finalized, fs)
    case _ => DueNamed(r, spans, fs)
  }

  /** The findings name all that the enabled rules' checks are for, and each is about something that one of them is
      for. */
  ghost predicate AllTold(cfg: Config, spans: seq<Span>, xs: seq<Correlation>, finalized: bool, fs: seq<Finding>)
    requires PairsInRange(spans, xs)
  {
    && (forall n :: 0 <= n < |cfg.rules| && cfg.rules[n].enabled ==>
          AllNamed(cfg, cfg.rules[n], spans, xs, finalized, fs))
    && (forall f :: f in fs ==>
          exists n :: 0 <= n < |cfg.rules| && cfg.rules[n].enabled
                      && Arises(cfg, cfg.rules[n], spans, xs, finalized, f))
  }

  /** What one rule finds. */
  lemma RuleTold(cfg: Config, order: seq<Span> -> seq<Span>, r: Rule, spans: seq<Span>, t: Table, edges: seq<Edge>,
                 audit: AuditContext)
    requires IndexedCorrelate(spans, cfg.settings.window) == Some(t) && SortsByStart(order)
    requires Agree(spans, cfg.settings.window, t, |spans|) && Usable(spans, t) && PairsInRange(spans, t.correlations)
    requires IsTopology(spans, t.correlations, edges) && audit.watermark == EventWatermark(spans)
    ensures AllNamed(cfg, r, spans, t.correlations, audit.finalized,
                     RuleFindings(cfg, order, r, spans, t, edges, audit))
    ensures forall f :: f in RuleFindings(cfg, order, r, spans, t, edges, audit) ==>
                          Arises(cfg, r, spans, t.correlations, audit.finalized, f)
  {
    hide IndexedCorrelate, SortsByStart, Agree, Usable, IsTopology, EventWatermark, SpanFindings, LatencyFindings,
         DuplicateFindings, TopologyFindings, NulFree, KeysTell, OfLone, OfDue, OfLate, OfDuplicate, NamesTopology,
         LoneNamed, DueNamed, LateNamed, DuplicatesNamed, TopologyNamed;
    match r.check {
      case OrphanProducer => LoneFindings(cfg.settings, r, spans, t, audit);
      case OrphanConsumer => LoneFindings(cfg.settings, r, spans, t, audit);
      case DuplicateProcessing => DuplicatesTold(cfg.settings, r, spans, order);
      case QueueLatencyHigh =>
        EntriesSound(spans, cfg.settings.window, t);
        LateFindings(cfg.settings, r, spans, cfg.settings.window, t.correlations);
      case ClockSkew =>
        EntriesSound(spans, cfg.settings.window, t);
        LateFindings(cfg.settings, r, spans, cfg.settings.window, t.correlations);
      case RuntimeTopologyMismatch =>
        if NulFree(spans) {
          NulFreeTells(spans, t.correlations);
          TopologyFindingsTold(cfg.settings, cfg.plan, r, spans, t.correlations, edges, audit);
        }
      case UnknownCheck =>
        NothingFound(cfg.settings, r, spans, t, audit, |spans|);
        NothingDue(r, spans);
      case _ => DueFindings(cfg.settings, r, spans, t, audit);
    }
  }

  lemma EntriesSound(spans: seq<Span>, window: int, t: Table)
    requires Agree(spans, window, t, |spans|)
    ensures forall k :: 0 <= k < |t.correlations| ==> SoundCorrelation(spans, window, t.correlations[k])
  {}

  lemma NothingDue(r: Rule, spans: seq<Span>)
    requires r.check == UnknownCheck
    ensures DueNamed(r, spans, [])
  {
    hide Applies, Dangling;
  }

  lemma {:induction false} AllMembers(cfg: Config, order: seq<Span> -> seq<Span>, spans: seq<Span>, t: Table,
                                      edges: seq<Edge>, audit: AuditContext, n: nat, f: Finding)
    requires Usable(spans, t) && n <= |cfg.rules|
    ensures f in AllFindings(cfg, order, spans, t, edges, audit, n)
            <==> exists m :: 0 <= m < n && cfg.rules[m].enabled
                             && f in RuleFindings(cfg, order, cfg.rules[m], spans, t, edges, audit)
  {
    hide RuleFindings, Usable;
    if n > 0 {
      AllMembers(cfg, order, spans, t, edges, audit, n - 1, f);
    }
  }

  lemma TopologyAside(plan: Plan, r: Rule, spans: seq<Span>, xs: seq<Correlation>, window: int, finalized: bool,
                      f: Finding, e: EvidenceState)
    requires PairsInRange(spans, xs) && NamesTopology(plan, r, spans, xs, window, finalized, f)
    ensures NamesTopology(plan, r, spans, xs, window, finalized, f.(evidence := e))
  {
    hide Drifts, Missing, Undelivered;
    var g := f.(evidence := e);
    assert forall p, c :: NamesDrift(f, r, p, c) ==> NamesDrift(g, r, p, c);
    assert forall x :: NamesMissing(f, r, x) ==> NamesMissing(g, r, x);
    assert forall x, p :: NamesUndelivered(f, r, x, p) ==> NamesUndelivered(g, r, x, p);
    hide NamesDrift, NamesMissing, NamesUndelivered;
  }

  lemma LoneAside(r: Rule, spans: seq<Span>, xs: seq<Correlation>, window: int, finalized: bool, f: Finding,
                  e: EvidenceState)
    requires OfLone(r, spans, xs, window, finalized, f)
    ensures OfLone(r, spans, xs, window, finalized, f.(evidence := e))
  {
    hide LoneProducer, LoneConsumer, Applies, WithoutContext;
    var g := f.(evidence := e);
    assert forall s :: NamesLoneProducer(f, r, s) ==> NamesLoneProducer(g, r, s);
    assert forall s :: NamesLoneConsumer(f, r, s) ==> NamesLoneConsumer(g, r, s);
    hide NamesLoneProducer, NamesLoneConsumer;
  }

  lemma RestAside(cfg: Settings, r: Rule, spans: seq<Span>, xs: seq<Correlation>, f: Finding, e: EvidenceState)
    ensures OfDue(r, spans, f) ==> OfDue(r, spans, f.(evidence := e))
    ensures OfLate(cfg, r, spans, xs, f) ==> OfLate(cfg, r, spans, xs, f.(evidence := e))
    ensures OfDuplicate(cfg, r, spans, f) ==> OfDuplicate(cfg, r, spans, f.(evidence := e))
  {
    hide Due, Late, Succeeded, GroupKey, CountIf;
    var g := f.(evidence := e);
    assert forall s :: NamesSpan(f, r, s) ==> NamesSpan(g, r, s);
    assert forall x :: NamesPair(f, r, spans, x) ==> NamesPair(g, r, spans, x);
    assert forall s :: NamesProcessing(f, r, s) ==> NamesProcessing(g, r, s);
    hide NamesSpan, NamesPair, NamesProcessing;
  }

  /** What a finding is about does not depend on its evidence state. */
  lemma EvidenceAside(cfg: Config, r: Rule, spans: seq<Span>, xs: seq<Correlation>, finalized: bool, f: Finding,
                      e: EvidenceState)
    requires PairsInRange(spans, xs) && Arises(cfg, r, spans, xs, finalized, f)
    ensures Arises(cfg, r, spans, xs, finalized, f.(evidence := e))
  {
    hide OfLone, OfDue, OfLate, OfDuplicate, NamesTopology, NulFree, PairsInRange;
    RestAside(cfg.settings, r, spans, xs, f, e);
    match r.check {
      case OrphanProducer => LoneAside(r, spans, xs, cfg.settings.window, finalized, f, e);
      case OrphanConsumer => LoneAside(r, spans, xs, cfg.settings.window, finalized, f, e);
      case RuntimeTopologyMismatch =>
        if NulFree(spans) {
          TopologyAside(cfg.plan, r, spans, xs, cfg.settings.window, finalized, f, e);
        }
      case _ =>
    }
  }

  /** The list holds the finding, with some evidence state. */
  ghost predicate Carried(f: Finding, fs: seq<Finding>) {
    exists g :: g in fs && g.(evidence := f.evidence) == f
  }

  lemma LoneCarried(r: Rule, spans: seq<Span>, xs: seq<Correlation>, window: int, finalized: bool, fs: seq<Finding>,
                    gs: seq<Finding>)
    requires LoneNamed(r, spans, xs, window, finalized, fs) && forall f :: f in fs ==> Carried(f, gs)
    ensures LoneNamed(r, spans, xs, window, finalized, gs)
  {
    hide Applies, WithoutContext;
    forall i: nat | LoneProducer(spans, xs, window, finalized, i) && NamedLoneProducer(fs, r, spans[i])
      ensures NamedLoneProducer(gs, r, spans[i])
    {
      var k :| 0 <= k < |fs| && NamesLoneProducer(fs[k], r, spans[i]);
      var j := LikeIn(fs, gs, k);
      assert NamesLoneProducer(gs[j], r, spans[i]);
    }
    forall i: nat | LoneConsumer(spans, xs, window, finalized, i) && NamedLoneConsumer(fs, r, spans[i])
      ensures NamedLoneConsumer(gs, r, spans[i])
    {
      var k :| 0 <= k < |fs| && NamesLoneConsumer(fs[k], r, spans[i]);
      var j := LikeIn(fs, gs, k);
      assert NamesLoneConsumer(gs[j], r, spans[i]);
    }
  }

  lemma TopologyCarried(plan: Plan, r: Rule, spans: seq<Span>, xs: seq<Correlation>, window: int, finalized: bool,
                        fs: seq<Finding>, gs: seq<Finding>)
    requires PairsInRange(spans, xs)
    requires TopologyNamed(plan, r, spans, xs, window, finalized, fs) && forall f :: f in fs ==> Carried(f, gs)
    ensures TopologyNamed(plan, r, spans, xs, window, finalized, gs)
  {
    hide Drifts, Missing, Undelivered;
    forall p, c | NamedDrift(fs, r, p, c) ensures NamedDrift(gs, r, p, c) {
      var k :| 0 <= k < |fs| && NamesDrift(fs[k], r, p, c);
      var j := LikeIn(fs, gs, k);
      assert NamesDrift(gs[j], r, p, c);
    }
    forall x | NamedMissing(fs, r, x) ensures NamedMissing(gs, r, x) {
      var k :| 0 <= k < |fs| && NamesMissing(fs[k], r, x);
      var j := LikeIn(fs, gs, k);
      assert NamesMissing(gs[j], r, x);
    }
    forall x, p | NamedUndelivered(fs, r, x, p) ensures NamedUndelivered(gs, r, x, p) {
      var k :| 0 <= k < |fs| && NamesUndelivered(fs[k], r, x, p);
      var j := LikeIn(fs, gs, k);
      assert NamesUndelivered(gs[j], r, x, p);
    }
    hide NamedDrift, NamedMissing, NamedUndelivered;
  }

  lemma LikeIn(fs: seq<Finding>, gs: seq<Finding>, k: nat) returns (j: nat)
    requires k < |fs| && forall f :: f in fs ==> Carried(f, gs)
    ensures j < |gs| && gs[j].(evidence := fs[k].evidence) == fs[k]
  {
    assert Carried(fs[k], gs);
    var g :| g in gs && g.(evidence := fs[k].evidence) == fs[k];
    j :| 0 <= j < |gs| && gs[j] == g;
  }

  /** Settling and sorting keep every finding but for its evidence state, and add none. */
  lemma SettledCarry(fs: seq<Finding>, status: CoverageStatus, gs: seq<Finding>)
    requires multiset(gs) == multiset(Settled(fs, status))
    ensures forall f :: f in fs ==> Carried(f, gs)
    ensures forall g :: g in gs ==> Carried(g, fs)
  {
    var settled := Settled(fs, status);
    forall f | f in fs ensures Carried(f, gs) {
      var k :| 0 <= k < |fs| && fs[k] == f;
      SettledAt(fs, status, k);
      SameMembers(settled, gs, settled[k]);
    }
    forall g | g in gs ensures Carried(g, fs) {
      SameMembers(gs, settled, g);
      var k :| 0 <= k < |settled| && settled[k] == g;
      SettledAt(fs, status, k);
      assert fs[k] in fs;
    }
    hide Settled;
  }

  lemma SettledAt(fs: seq<Finding>, status: CoverageStatus, k: nat)
    requires k < |fs| || k < |Settled(fs, status)|
    ensures |Settled(fs, status)| == |fs|
    ensures var g := Settled(fs, status)[k];
      g.(evidence := fs[k].evidence) == fs[k] && fs[k].(evidence := g.evidence) == g
  {}

  lemma SameMembers<T>(a: seq<T>, b: seq<T>, x: T)
    requires multiset(a) == multiset(b) && x in a
    ensures x in b
  {
    assert x in multiset(a);
  }

  lemma RestCarried(cfg: Settings, r: Rule, spans: seq<Span>, xs: seq<Correlation>, fs: seq<Finding>, gs: seq<Finding>)
    requires forall f :: f in fs ==> Carried(f, gs)
    ensures DueNamed(r, spans, fs) ==> DueNamed(r, spans, gs)
    ensures LateNamed(cfg, r, spans, xs, fs) ==> LateNamed(cfg, r, spans, xs, gs)
    ensures DuplicatesNamed(cfg, r, spans, fs) ==> DuplicatesNamed(cfg, r, spans, gs)
  {
    hide Due, Late, ExportedOnce, CloseTogether, CountIf, Succeeded;
    forall s | NamedSpan(fs, r, s) ensures NamedSpan(gs, r, s) {
      var k :| 0 <= k < |fs| && NamesSpan(fs[k], r, s);
      var j := LikeIn(fs, gs, k);
      assert NamesSpan(gs[j], r, s);
    }
    forall x | NamedPair(fs, r, spans, x) ensures NamedPair(gs, r, spans, x) {
      var k :| 0 <= k < |fs| && NamesPair(fs[k], r, spans, x);
      var j := LikeIn(fs, gs, k);
      assert NamesPair(gs[j], r, spans, x);
    }
    forall s | NamedProcessing(fs, r, s) ensures NamedProcessing(gs, r, s) {
      var k :| 0 <= k < |fs| && NamesProcessing(fs[k], r, s);
      var j := LikeIn(fs, gs, k);
      assert NamesProcessing(gs[j], r, s);
    }
    hide NamedSpan, NamedPair, NamedProcessing;
  }

  lemma NamedCarried(cfg: Config, r: Rule, spans: seq<Span>, xs: seq<Correlation>, finalized: bool, fs: seq<Finding>,
                     gs: seq<Finding>)
    requires PairsInRange(spans, xs)
    requires AllNamed(cfg, r, spans, xs, finalized, fs) && forall f :: f in fs ==> Carried(f, gs)
    ensures AllNamed(cfg, r, spans, xs, finalized, gs)
  {
    hide LoneNamed, DueNamed, LateNamed, DuplicatesNamed, TopologyNamed, NulFree, Carried, PairsInRange;
    RestCarried(cfg.settings, r, spans, xs, fs, gs);
    match r.check {
      case OrphanProducer => LoneCarried(r, spans, xs, cfg.settings.window, finalized, fs, gs);
      case OrphanConsumer => LoneCarried(r, spans, xs, cfg.settings.window, finalized, fs, gs);
      case RuntimeTopologyMismatch =>
        if NulFree(spans) {
          TopologyCarried(cfg.plan, r, spans, xs, cfg.settings.window, finalized, fs, gs);
        }
      case _ =>
    }
  }

  /** Lists with the same findings but for evidence states tell the same. */
  lemma ToldCarried(cfg: Config, spans: seq<Span>, xs: seq<Correlation>, finalized: bool, fs: seq<Finding>,
                        gs: seq<Finding>)
    requires PairsInRange(spans, xs) && AllTold(cfg, spans, xs, finalized, fs)
    requires (forall f :: f in fs ==> Carried(f, gs)) && forall g :: g in gs ==> Carried(g, fs)
    ensures AllTold(cfg, spans, xs, finalized, gs)
  {
    hide AllNamed, Arises, PairsInRange, Carried;
    forall n | 0 <= n < |cfg.rules| && cfg.rules[n].enabled
      ensures AllNamed(cfg, cfg.rules[n], spans, xs, finalized, gs)
    {
      NamedCarried(cfg, cfg.rules[n], spans, xs, finalized, fs, gs);
    }
    forall g | g in gs
      ensures exists n :: 0 <= n < |cfg.rules| && cfg.rules[n].enabled
                          && Arises(cfg, cfg.rules[n], spans, xs, finalized, g)
    {
      FindingCarried(cfg, spans, xs, finalized, fs, g);
    }
  }

  lemma FindingCarried(cfg: Config, spans: seq<Span>, xs: seq<Correlation>, finalized: bool, fs: seq<Finding>,
                       g: Finding)
    requires PairsInRange(spans, xs) && AllTold(cfg, spans, xs, finalized, fs) && Carried(g, fs)
    ensures exists n :: 0 <= n < |cfg.rules| && cfg.rules[n].enabled
                        && Arises(cfg, cfg.rules[n], spans, xs, finalized, g)
  {
    hide AllNamed, Arises, PairsInRange;
    var f :| f in fs && f.(evidence := g.evidence) == g;
    var n :| 0 <= n < |cfg.rules| && cfg.rules[n].enabled
             && Arises(cfg, cfg.rules[n], spans, xs, finalized, f);
    EvidenceAside(cfg, cfg.rules[n], spans, xs, finalized, f, g.evidence);
  }

  lemma FindingsTold(cfg: Config, order: seq<Span> -> seq<Span>, spans: seq<Span>, t: Table, edges: seq<Edge>,
                        audit: AuditContext)
    requires IndexedCorrelate(spans, cfg.settings.window) == Some(t) && SortsByStart(order)
    requires Agree(spans, cfg.settings.window, t, |spans|) && Usable(spans, t) && PairsInRange(spans, t.correlations)
    requires IsTopology(spans, t.correlations, edges) && audit.watermark == EventWatermark(spans)
    ensures AllTold(cfg, spans, t.correlations, audit.finalized,
                         AllFindings(cfg, order, spans, t, edges, audit, |cfg.rules|))
  {
    hide IndexedCorrelate, SortsByStart, Agree, Usable, IsTopology, EventWatermark, AllFindings, RuleFindings, AllNamed,
         Arises, PairsInRange;
    var fs, xs := AllFindings(cfg, order, spans, t, edges, audit, |cfg.rules|), t.correlations;
    forall n | 0 <= n < |cfg.rules| && cfg.rules[n].enabled
      ensures AllNamed(cfg, cfg.rules[n], spans, xs, audit.finalized, fs)
    {
      RuleTold(cfg, order, cfg.rules[n], spans, t, edges, audit);
      var found := RuleFindings(cfg, order, cfg.rules[n], spans, t, edges, audit);
      forall f | f in found ensures Carried(f, fs) {
        AllMembers(cfg, order, spans, t, edges, audit, |cfg.rules|, f);
      }
      NamedCarried(cfg, cfg.rules[n], spans, xs, audit.finalized, found, fs);
    }
    forall f | f in fs
      ensures exists n :: 0 <= n < |cfg.rules| && cfg.rules[n].enabled
                          && Arises(cfg, cfg.rules[n], spans, xs, audit.finalized, f)
    {
      AllMembers(cfg, order, spans, t, edges, audit, |cfg.rules|, f);
      var n :| 0 <= n < |cfg.rules| && cfg.rules[n].enabled
               && f in RuleFindings(cfg, order, cfg.rules[n], spans, t, edges, audit);
      RuleTold(cfg, order, cfg.rules[n], spans, t, edges, audit);
    }
  }

  /** What a report says is absent, in the fields of the spans: its findings name exactly the lone spans and, when no
      field holds a NUL, the drifting correlations, missing edges and undelivered messages that its enabled rules are
      about; its summary counts the lone spans; and its topology is that of the correlations. */
  ghost predicate TellsAll(cfg: Config, spans: seq<Span>, finalized: bool, report: Report) {
    var t, window := IndexedCorrelate(spans, cfg.settings.window), cfg.settings.window;
    && t.Some? && PairsInRange(spans, t.value.correlations)
    && AllTold(cfg, spans, t.value.correlations, finalized, report.findings)
    && report.summary.orphanProducers == |LoneProducers(spans, t.value.correlations, window, finalized)|
    && report.summary.orphanConsumers == |LoneConsumers(spans, t.value.correlations, window, finalized)|
    && report.summary.brokenLinks == |Unlinked(spans)| && report.summary.messagingSpans == |MessagingOnes(spans)|
    && report.summary.auditedSpans == |spans| && report.summary.violations == |report.findings|
    && |report.queueLatencies| == |t.value.correlations|
    && (forall k :: 0 <= k < |report.queueLatencies| ==>
          report.queueLatencies[k] == t.value.correlations[k].queueLatency)
    && (NulFree(spans) ==> Observes(spans, t.value.correlations, report.topology))
  }

  /** The findings of a report at the spans' watermark name exactly what its enabled rules say is absent. */
  lemma ReportTold(cfg: Config, order: seq<Span> -> seq<Span>, spans: seq<Span>, t: Table, audit: AuditContext,
                   report: Report)
    requires ReportsOn(cfg, order, spans, t, audit, report) && PairsInRange(spans, t.correlations)
    requires IndexedCorrelate(spans, cfg.settings.window) == Some(t) && SortsByStart(order)
    requires audit.watermark == EventWatermark(spans)
    ensures AllTold(cfg, spans, t.correlations, audit.finalized, report.findings)
    ensures var window := cfg.settings.window;
      && report.summary.orphanProducers == |LoneProducers(spans, t.correlations, window, audit.finalized)|
      && report.summary.orphanConsumers == |LoneConsumers(spans, t.correlations, window, audit.finalized)|
      && report.summary.brokenLinks == |Unlinked(spans)| && report.summary.messagingSpans == |MessagingOnes(spans)|
      && report.summary.auditedSpans == |spans| && report.summary.violations == |report.findings|
    ensures |report.queueLatencies| == |t.correlations|
            && forall k :: 0 <= k < |report.queueLatencies| ==>
                 report.queueLatencies[k] == t.correlations[k].queueLatency
    ensures NulFree(spans) ==> Observes(spans, t.correlations, report.topology)
  {
    hide IndexedCorrelate, SortsByStart, Agree, Usable, IsTopology, EventWatermark, AllFindings, Settled, BaseCoverage,
         SummaryOf, Latencies, Carried, PairsInRange, AllTold, LoneProducers, LoneConsumers, Unlinked, MessagingOnes,
         NulFree, KeysTell, Observes;
    FindingsTold(cfg, order, spans, t, report.topology, audit);
    SettledCarry(AllFindings(cfg, order, spans, t, report.topology, audit, |cfg.rules|), report.coverage.status,
                 report.findings);
    ToldCarried(cfg, spans, t.correlations, audit.finalized,
                    AllFindings(cfg, order, spans, t, report.topology, audit, |cfg.rules|), report.findings);
    LatenciesAre(t.correlations);
    SummaryTotals(spans, t, |report.findings|, cfg.settings.window, audit);
    LoneCounted(spans, t, |report.findings|, cfg.settings.window, audit);
    BrokenCounted(spans, t, |report.findings|, cfg.settings.window, audit);
    if NulFree(spans) {
      NulFreeTells(spans, t.correlations);
      TopologyObserves(spans, t.correlations, report.topology);
    }
  }

  lemma LatenciesAre(xs: seq<Correlation>)
    ensures |Latencies(xs)| == |xs| && forall k :: 0 <= k < |xs| ==> Latencies(xs)[k] == xs[k].queueLatency
  {}

  lemma SummaryTotals(spans: seq<Span>, t: Table, violations: nat, window: int, audit: AuditContext)
    ensures SummaryOf(spans, t, violations, window, audit).auditedSpans == |spans|
    ensures SummaryOf(spans, t, violations, window, audit).violations == violations
  {
    hide CountBelow;
  }

  lemma ReportTells(cfg: Config, order: seq<Span> -> seq<Span>, spans: seq<Span>, audit: AuditContext, report: Report)
    requires Reports(cfg, order, spans, audit, report) && audit.watermark == EventWatermark(spans)
    requires SortsByStart(order)
    ensures TellsAll(cfg, spans, audit.finalized, report)
  {
    hide Agree, IsReport, IndexedCorrelate, SortsByStart, EventWatermark, AllTold, LoneProducers, LoneConsumers,
         Unlinked, MessagingOnes, NulFree, Observes;
    ReportTold(cfg, order, spans, IndexedCorrelate(spans, cfg.settings.window).value, audit, report);
  }

  // ---------- Policy ----------

  function SeverityRank(severity: string): nat {
    if severity == "critical" then 3 else if severity == "error" then 2 else if severity == "warning" then 1 else 0
  }

  /** A severity is at least as grave as a threshold: critical before error before warning before everything else. */
  predicate Reaches(severity: string, threshold: string) {
    || severity == threshold || severity == "critical" || threshold !in {"critical", "error", "warning"}
    || (severity == "error" && threshold == "warning")
  }

  lemma FailuresReach(cfg: Settings)
    ensures forall f :: Fails(cfg, f) <==>
                          && (f.evidence == Sufficient || cfg.failOnInsufficientEvidence)
                          && Reaches(f.severity, cfg.failOnSeverity)
  {}

  /** The finding alone fails the policy. */
  predicate Fails(cfg: Settings, f: Finding) {
    (f.evidence == Sufficient || cfg.failOnInsufficientEvidence)
        && SeverityRank(f.severity) >= SeverityRank(cfg.failOnSeverity)
  }

  predicate Violates(cfg: Settings, fs: seq<Finding>) {
    exists k :: 0 <= k < |fs| && Fails(cfg, fs[k])
  }

  method ViolatesPolicy(cfg: Settings, report: Report) returns (violated: bool)
    ensures violated == Violates(cfg, report.findings)
    ensures violated
            <==> exists k :: && 0 <= k < |report.findings|
                             && (report.findings[k].evidence == Sufficient || cfg.failOnInsufficientEvidence)
                             && Reaches(report.findings[k].severity, cfg.failOnSeverity)
  {
    FailuresReach(cfg);
    hide SeverityRank, Reaches;
    for k := 0 to |report.findings|
      invariant forall j :: 0 <= j < k ==> !Fails(cfg, report.findings[j])
    {
      var f := report.findings[k];
      if f.evidence != Sufficient && !cfg.failOnInsufficientEvidence {
        continue;
      }
      if SeverityRank(f.severity) >= SeverityRank(cfg.failOnSeverity) {
        return true;
      }
    }
    violated := false;
  }

  /** The findings that do not conclude from absence. */
  function Present(fs: seq<Finding>): seq<Finding> {
    if fs == [] then []
    else Present(fs[..|fs| - 1]) + if FromAbsence(fs[|fs| - 1]) then [] else [fs[|fs| - 1]]
  }

  lemma {:induction false} ViolatesPresent(cfg: Settings, fs: seq<Finding>)
    requires Guarded(fs) && !cfg.failOnInsufficientEvidence
    ensures Violates(cfg, fs) <==> Violates(cfg, Present(fs))
  {
    if fs != [] {
      hide FromAbsence, SeverityRank;
      var front, f := fs[..|fs| - 1], fs[|fs| - 1];
      ViolatesPresent(cfg, front);
      ViolatesOneMore(cfg, front, f);
      ViolatesOneMore(cfg, Present(front), f);
      assert fs == front + [f];
      assert Present(front) + [] == Present(front);
    }
  }

  lemma ViolatesOneMore(cfg: Settings, fs: seq<Finding>, f: Finding)
    ensures Violates(cfg, fs + [f]) <==> Violates(cfg, fs) || Fails(cfg, f)
  {
    hide Fails;
    var more := fs + [f];
    assert more[|fs|] == f && forall k :: 0 <= k < |fs| ==> more[k] == fs[k];
    if Violates(cfg, fs) {
      var k :| 0 <= k < |fs| && Fails(cfg, fs[k]);
      assert Fails(cfg, more[k]);
    }
  }

  /** Unless insufficient evidence is made to fail, a live report fails the policy exactly when it does so without
      all its findings about absence and unresolved references. */
  lemma AbsenceCannotFailPolicy(cfg: Config, order: seq<Span> -> seq<Span>, spans: seq<Span>, t: Table, live: Report)
    requires Usable(spans, t) && IsReport(cfg, order, spans, t, Live(spans), live)
    requires !cfg.settings.failOnInsufficientEvidence
    ensures Violates(cfg.settings, live.findings) <==> Violates(cfg.settings, Present(live.findings))
  {
    LiveReportGuarded(cfg, order, spans, t, live);
    ViolatesPresent(cfg.settings, live.findings);
  }

  /** A list that fails the policy without presenting absences as sufficient makes every list it appears in fail it. */
  lemma FailureAppears(cfg: Settings, a: seq<Finding>, b: seq<Finding>)
    requires Appears(a, b) && Guarded(a) && Presentable(b) && Violates(cfg, a)
    ensures Violates(cfg, b)
  {
    hide Appears, SeverityRank;
    var k :| 0 <= k < |a| && Fails(cfg, a[k]);
    var j := AppearingLike(a, b, k);
    assert b[j].basis == a[k].basis && b[j].severity == a[k].severity;
    assert Fails(cfg, b[j]);
  }

  /** A live report that fails the policy announces that the offline report fails it. */
  lemma LiveFailureStays(cfg: Config, order: seq<Span> -> seq<Span>, spans: seq<Span>, t: Table, complete: bool,
                         live: Report, offline: Report)
    requires Usable(spans, t)
    requires IsReport(cfg, order, spans, t, Live(spans), live)
    requires IsReport(cfg, order, spans, t, Finished(spans, complete), offline)
    requires Violates(cfg.settings, live.findings)
    ensures Violates(cfg.settings, offline.findings)
  {
    hide IsReport, Guarded, Presentable, Violates, Appears;
    LiveWithinOffline(cfg, order, spans, t, complete, live, offline);
    ReportSound(cfg, order, spans, t, Live(spans), live);
    ReportSound(cfg, order, spans, t, Finished(spans, complete), offline);
    FailureAppears(cfg.settings, live.findings, offline.findings);
  }

  // ---------- The code ----------

  method RunRule(cfg: Config, order: seq<Span> -> seq<Span>, r: Rule, spans: seq<Span>, t: Table, audit: AuditContext,
                 ghost edges: seq<Edge>)
    returns (out: seq<Finding>)
    requires Usable(spans, t) && SortsByStart(order) && IsTopology(spans, t.correlations, edges)
    ensures multiset(out) == multiset(RuleFindings(cfg, order, r, spans, t, edges, audit))
  {
    hide *;
    UsableInRange(spans, t);
    RuleFindingsAre(cfg, order, r, spans, t, edges, audit);
    match r.check
    case OrphanProducer =>
      out := OrphanProducers(cfg.settings, r, spans, t, audit);
    case OrphanConsumer =>
      out := OrphanConsumers(cfg.settings, r, spans, t, audit);
    case BatchLinksIncomplete =>
      out := BatchLinks(cfg.settings, r, spans, t, audit);
    case DuplicateProcessing =>
      out := DuplicateChecks(cfg.settings, r, spans, order);
    case QueueLatencyHigh =>
      out := LatencyChecks(cfg.settings, r, spans, t.correlations);
    case ClockSkew =>
      out := LatencyChecks(cfg.settings, r, spans, t.correlations);
    case RuntimeTopologyMismatch =>
      out := TopologyCheck(cfg.settings, cfg.plan, r, spans, t.correlations, audit, edges);
    case UnknownCheck =>
      NothingFound(cfg.settings, r, spans, t, audit, |spans|);
      out := [];
    case _ =>
      RemainingSemantic(r.check);
      out := SemanticChecks(cfg.settings, r, spans, t, audit);
  }

  lemma RuleFindingsAre(cfg: Config, order: seq<Span> -> seq<Span>, r: Rule, spans: seq<Span>, t: Table,
                        edges: seq<Edge>, audit: AuditContext)
    requires Usable(spans, t) && PairsInRange(spans, t.correlations)
    ensures RuleFindings(cfg, order, r, spans, t, edges, audit)
            == match r.check
               case DuplicateProcessing => DuplicateFindings(cfg.settings, r, spans, order)
               case QueueLatencyHigh => LatencyFindings(cfg.settings, r, spans, t.correlations)
               case ClockSkew => LatencyFindings(cfg.settings, r, spans, t.correlations)
               case RuntimeTopologyMismatch =>
                 TopologyFindings(cfg.settings, cfg.plan, r, spans, t.correlations, edges, audit)
               case _ => SpanFindings(cfg.settings, r, spans, t, audit, |spans|)
  {
    hide Usable, SpanFindings, DuplicateFindings, LatencyFindings, TopologyFindings;
  }

  lemma RemainingSemantic(check: Check)
    requires check !in {OrphanProducer, OrphanConsumer, BatchLinksIncomplete, DuplicateProcessing, QueueLatencyHigh,
                        ClockSkew, RuntimeTopologyMismatch, UnknownCheck}
    ensures IsSemantic(check)
  {}

  lemma {:induction false} NothingFound(cfg: Settings, r: Rule, spans: seq<Span>, t: Table, audit: AuditContext, n: nat)
    requires Usable(spans, t) && n <= |spans| && r.check == UnknownCheck
    ensures SpanFindings(cfg, r, spans, t, audit, n) == []
  {
    if n > 0 { NothingFound(cfg, r, spans, t, audit, n - 1); }
  }

  method RunRules(cfg: Config, order: seq<Span> -> seq<Span>, spans: seq<Span>, t: Table, audit: AuditContext,
                  ghost edges: seq<Edge>)
    returns (findings: seq<Finding>)
    requires Usable(spans, t) && SortsByStart(order) && IsTopology(spans, t.correlations, edges)
    ensures multiset(findings) == multiset(AllFindings(cfg, order, spans, t, edges, audit, |cfg.rules|))
  {
    hide Usable, SortsByStart, IsTopology, RuleFindings;
    findings := [];
    for n := 0 to |cfg.rules|
      invariant multiset(findings) == multiset(AllFindings(cfg, order, spans, t, edges, audit, n))
    {
      if !cfg.rules[n].enabled {
        continue;
      }
      var found := RunRule(cfg, order, cfg.rules[n], spans, t, audit, edges);
      findings := findings + found;
    }
  }

  method ComputeCoverage(spans: seq<Span>, audit: AuditContext) returns (coverage: Coverage)
    ensures coverage == BaseCoverage(spans, audit)
  {
    coverage := Coverage(if audit.coverageComplete then CompleteCoverage else UnknownCoverage,
                         0, 0, |spans|, 0, 0, 0, 0);
    ghost var status := coverage.status;
    for i := 0 to |spans|
      invariant coverage == Coverage(status, DroppedAttributes(spans[..i]), DroppedLinks(spans[..i]), |spans|,
                                     0, 0, 0, 0)
    {
      var span := spans[i];
      assert spans[..i + 1][..i] == spans[..i];
      coverage := coverage.(droppedAttributes := coverage.droppedAttributes + span.droppedAttributes,
                            droppedLinks := coverage.droppedLinks + span.droppedLinks);
      ghost var before := coverage;
      for k := 0 to |span.links|
        invariant coverage == before.(droppedAttributes := before.droppedAttributes + LinksDropped(span.links[..k]))
      {
        assert span.links[..k + 1][..k] == span.links[..k];
        coverage := coverage.(droppedAttributes := coverage.droppedAttributes + span.links[k].droppedAttributes);
      }
      assert span.links[..|span.links|] == span.links;
    }
    assert spans[..|spans|] == spans;
    if coverage.droppedAttributes > 0 || coverage.droppedLinks > 0 {
      coverage := coverage.(status := DegradedCoverage);
    }
  }

  /** The loop that rewrites the evidence states. */
  method DegradeFindings(before: seq<Finding>) returns (findings: seq<Finding>)
    ensures findings == DegradeAll(before)
  {
    findings := before;
    for i := 0 to |findings|
      invariant |findings| == |before|
      invariant forall k :: 0 <= k < i ==> findings[k] == Degrade(before[k])
      invariant forall k :: i <= k < |findings| ==> findings[k] == before[k]
    {
      if findings[i].evidence == Insufficient {
        findings := findings[i := findings[i].(evidence := Degraded)];
      }
    }
  }

  lemma {:induction false} DegradePermuted(a: seq<Finding>, b: seq<Finding>)
    requires multiset(a) == multiset(b)
    ensures multiset(DegradeAll(a)) == multiset(DegradeAll(b))
  {
    SameLength(a, b);
    if a != [] {
      hide Degrade;
      var last := |a| - 1;
      assert a[last] in multiset(b);
      var i :| 0 <= i < |b| && b[i] == a[last];
      WithoutOne(a, last);
      WithoutOne(b, i);
      DegradePermuted(a[..last] + a[last + 1..], b[..i] + b[i + 1..]);
      DegradeSplit(a, last);
      DegradeSplit(b, i);
    }
  }

  lemma DegradeSplit(fs: seq<Finding>, i: nat)
    requires i < |fs|
    ensures multiset(DegradeAll(fs)) == multiset(DegradeAll(fs[..i] + fs[i + 1..])) + multiset{Degrade(fs[i])}
  {
    hide Degrade;
    var all := DegradeAll(fs);
    WithoutOne(all, i);
    assert DegradeAll(fs[..i] + fs[i + 1..]) == all[..i] + all[i + 1..];
    assert all[i] in all;
  }

  method CollectLatencies(xs: seq<Correlation>) returns (samples: seq<int>)
    ensures samples == Latencies(xs)
  {
    samples := [];
    for i := 0 to |xs|
      invariant samples == Latencies(xs[..i])
    {
      samples := samples + [xs[i].queueLatency];
    }
    assert xs[..|xs|] == xs;
  }

  /** One audit; None when the correlation engine faults. */
  method AuditSpans(cfg: Config, order: seq<Span> -> seq<Span>, spans: seq<Span>, audit: AuditContext)
    returns (report: Option<Report>)
    requires SortsByStart(order)
    ensures report.Some? <==> IndexedCorrelate(spans, cfg.settings.window).Some?
    ensures report.Some? ==> Reports(cfg, order, spans, audit, report.value)
    ensures AllFaithful(spans, cfg.settings.window) ==>
              report.Some? && ReportsOn(cfg, order, spans, ScanCorrelate(spans, cfg.settings.window), audit,
                                        report.value)
  {
    hide Agree, Usable, SortsByStart, IsTopology, AllFindings, BaseCoverage, DegradeAll, Latencies, SummaryOf,
         AllFaithful, ScanCorrelate, IndexedCorrelate, FindingOrder.InOrder;
    var ok, corr := Correlate.Correlate(spans, cfg.settings.window);
    if !ok {
      return None;
    }
    var table := corr.View();
    AgreeUsable(spans, cfg.settings.window, table);
    UsableInRange(spans, table);
    var coverage := ComputeCoverage(spans, audit);
    var topology := BuildTopology(spans, table.correlations);
    var findings := RunRules(cfg, order, spans, table, audit, topology);
    if coverage.status == DegradedCoverage {
      DegradePermuted(findings, AllFindings(cfg, order, spans, table, topology, audit, |cfg.rules|));
      findings := DegradeFindings(findings);
    }
    var samples := CollectLatencies(table.correlations);
    findings := FindingOrder.SortFindings(findings);
    var summary := Summarize(spans, table, |findings|, cfg.settings.window, audit);
    report := Some(Report(summary, coverage, findings, topology, samples));
    assert ReportsOn(cfg, order, spans, table, audit, report.value);
  }

  method Audit(cfg: Config, order: seq<Span> -> seq<Span>, spans: seq<Span>) returns (report: Option<Report>)
    requires SortsByStart(order)
    ensures report.Some? <==> IndexedCorrelate(spans, cfg.settings.window).Some?
    ensures report.Some? ==> Reports(cfg, order, spans, Finished(spans, cfg.settings.inputComplete), report.value)
    ensures report.Some? ==> TellsAll(cfg, spans, true, report.value)
    ensures report.Some? ==>
              && (report.value.coverage.status == DegradedCoverage <==> ArrivedWithLosses(spans))
              && (report.value.coverage.status == CompleteCoverage
                  <==> cfg.settings.inputComplete && !ArrivedWithLosses(spans))
    ensures AllFaithful(spans, cfg.settings.window) ==>
              && report.Some?
              && ReportsOn(cfg, order, spans, ScanCorrelate(spans, cfg.settings.window),
                           Finished(spans, cfg.settings.inputComplete), report.value)
  {
    hide Reports, ReportsOn, SortsByStart, AllFaithful, IndexedCorrelate, TellsAll, EventWatermark, BaseCoverage,
         ArrivedWithLosses;
    var watermark := ComputeWatermark(spans);
    report := AuditSpans(cfg, order, spans, AuditContext(true, cfg.settings.inputComplete, watermark));
    if report.Some? {
      ReportTells(cfg, order, spans, Finished(spans, cfg.settings.inputComplete), report.value);
      ReportCoverage(cfg, order, spans, Finished(spans, cfg.settings.inputComplete), report.value);
      CoverageMeaning(spans, Finished(spans, cfg.settings.inputComplete));
    }
  }

  method AuditWindow(cfg: Config, order: seq<Span> -> seq<Span>, spans: seq<Span>) returns (report: Option<Report>)
    requires SortsByStart(order)
    ensures report.Some? <==> IndexedCorrelate(spans, cfg.settings.window).Some?
    ensures report.Some? ==> Reports(cfg, order, spans, Live(spans), report.value)
    ensures report.Some? ==> TellsAll(cfg, spans, false, report.value)
    ensures report.Some? ==>
              && report.value.coverage.status != CompleteCoverage
              && (report.value.coverage.status == DegradedCoverage <==> ArrivedWithLosses(spans))
    ensures AllFaithful(spans, cfg.settings.window) ==>
              && report.Some?
              && ReportsOn(cfg, order, spans, ScanCorrelate(spans, cfg.settings.window), Live(spans), report.value)
  {
    hide Reports, ReportsOn, SortsByStart, AllFaithful, IndexedCorrelate, TellsAll, EventWatermark, BaseCoverage,
         ArrivedWithLosses;
    var watermark := ComputeWatermark(spans);
    report := AuditSpans(cfg, order, spans, AuditContext(false, false, watermark));
    if report.Some? {
      ReportTells(cfg, order, spans, Live(spans), report.value);
      ReportCoverage(cfg, order, spans, Live(spans), report.value);
      CoverageMeaning(spans, Live(spans));
    }
  }

  /** Both audits of one input, run by the code: they return on the same inputs, the live findings are all in the
      offline report, and if the live report fails the policy so does the offline one. */
  method AuditBothWays(cfg: Config, order: seq<Span> -> seq<Span>, spans: seq<Span>)
    returns (live: Option<Report>, offline: Option<Report>)
    requires SortsByStart(order)
    ensures live.Some? <==> offline.Some?
    ensures live.Some? ==> && Appears(live.value.findings, offline.value.findings)
                           && live.value.topology == offline.value.topology
    ensures live.Some? ==>
              Violates(cfg.settings, live.value.findings) ==> Violates(cfg.settings, offline.value.findings)
  {
    hide SortsByStart, IsReport, Agree, Usable, IndexedCorrelate, AllFaithful, ScanCorrelate, Appears, Live, Finished,
         Violates, TellsAll;
    live := AuditWindow(cfg, order, spans);
    offline := Audit(cfg, order, spans);
    if live.Some? {
      ghost var t := IndexedCorrelate(spans, cfg.settings.window).value;
      LiveWithinOffline(cfg, order, spans, t, cfg.settings.inputComplete, live.value, offline.value);
      if Violates(cfg.settings, live.value.findings) {
        LiveFailureStays(cfg, order, spans, t, cfg.settings.inputComplete, live.value, offline.value);
      }
    }
  }
}
