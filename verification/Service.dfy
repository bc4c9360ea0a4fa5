/** The live service: exports, audits and configuration reloads in any interleaving. */
module LiveService {
  import opened Spans
  import opened Tables
  import opened Retention
  import opened Watermark
  import opened LiveStore
  import opened Findings
  import opened Checks
  import opened AttemptWindows
  import opened Engine
  import opened ReportMetrics
  import opened IndexedRun
  import opened Topology
  import opened AuditLaws

  // ---------- Coverage of a live report ----------

  /** The report with the store's counters; losses degrade it. */
  function Enriched(r: Report, stats: Stats, retained: nat): Report {
    var coverage := r.coverage.(retainedSpans := retained, rejectedSpans := stats.rejected,
                                duplicateExports := stats.duplicateExports,
                                conflictingDuplicates := stats.conflictingDuplicates,
                                ttlEvictions := stats.ttlEvictions);
    if Lossy(stats) then r.(coverage := coverage.(status := DegradedCoverage), findings := DegradeAll(r.findings))
    else r.(coverage := coverage)
  }

  method EnrichCoverage(before: Report, stats: Stats, retained: nat) returns (report: Report)
    ensures report == Enriched(before, stats, retained)
  {
    hide DegradeAll;
    report := before;
    report := report.(coverage := report.coverage.(retainedSpans := retained));
    report := report.(coverage := report.coverage.(rejectedSpans := stats.rejected));
    report := report.(coverage := report.coverage.(duplicateExports := stats.duplicateExports));
    report := report.(coverage := report.coverage.(conflictingDuplicates := stats.conflictingDuplicates));
    report := report.(coverage := report.coverage.(ttlEvictions := stats.ttlEvictions));
    if stats.rejected > 0 || stats.conflictingDuplicates > 0 || stats.ttlEvictions > 0 {
      report := report.(coverage := report.coverage.(status := DegradedCoverage));
      var findings := DegradeFindings(report.findings);
      report := report.(findings := findings);
    }
  }

  lemma DegradedSound(fs: seq<Finding>)
    ensures Guarded(fs) ==> Guarded(DegradeAll(fs))
    ensures NoneInsufficient(DegradeAll(fs))
  {}

  /** What every live report satisfies: conclusions from absence are never sufficient, and degraded coverage
      leaves none of them merely insufficient. */
  ghost predicate Honest(r: Report) {
    && Guarded(r.findings)
    && r.coverage.status != CompleteCoverage
    && (r.coverage.status == DegradedCoverage ==> NoneInsufficient(r.findings))
  }

  predicate DegradedThroughout(r: Report) {
    r.coverage.status == DegradedCoverage && NoneInsufficient(r.findings)
  }

  /** What the published report says of the telemetry it rests on. */
  lemma EnrichedReport(cfg: Config, order: seq<Span> -> seq<Span>, spans: seq<Span>, base: Report, stats: Stats,
                       retained: nat)
    requires Reports(cfg, order, spans, Live(spans), base)
    ensures Honest(Enriched(base, stats, retained))
    ensures Lossy(stats) ==> DegradedThroughout(Enriched(base, stats, retained))
    ensures Enriched(base, stats, retained).coverage.status == DegradedCoverage
            <==> Lossy(stats) || DroppedAttributes(spans) > 0 || DroppedLinks(spans) > 0
  {
    var t := IndexedCorrelate(spans, cfg.settings.window).value;
    LiveReportGuarded(cfg, order, spans, t, base);
    DegradedSound(base.findings);
    if base.coverage.status == DegradedCoverage {
      DegradedReport(cfg, order, spans, t, Live(spans), base);
    }
    assert base.coverage == BaseCoverage(spans, Live(spans));
    hide Guarded, NoneInsufficient, DegradeAll, IsReport, DroppedAttributes, DroppedLinks;
  }

  /** The report is degraded exactly when the tally has lost a span or the spans under audit had lost attributes or
      links before they arrived, then holds no merely insufficient finding, and shows the counts of the tally. */
  ghost predicate TellsLosses(l: Ledger, r: Report) {
    && (r.coverage.status == DegradedCoverage
        <==> || l.evicted + l.stale + l.conflicts + l.overCapacity + l.overMemory > 0
             || r.coverage.droppedAttributes > 0 || r.coverage.droppedLinks > 0)
    && (r.coverage.status == DegradedCoverage ==>
          forall k :: 0 <= k < |r.findings| ==> r.findings[k].evidence != Insufficient)
    && r.coverage.rejectedSpans == l.stale + l.conflicts + l.overCapacity + l.overMemory
    && r.coverage.ttlEvictions == l.evicted + l.stale
    && r.coverage.duplicateExports == l.duplicates && r.coverage.conflictingDuplicates == l.conflicts
  }

  /** Once the tally has lost a span, every report on a later tally is degraded and holds no merely insufficient
      finding. */
  lemma LossTold(lim: Limits, calls: seq<Step>, i: nat, r: Report)
    requires i <= |calls| && TellsLosses(Tally(lim, calls), r)
    ensures var l := Tally(lim, calls[..i]);
      l.evicted + l.stale + l.conflicts + l.overCapacity + l.overMemory > 0 ==>
        && r.coverage.status == DegradedCoverage
        && forall k :: 0 <= k < |r.findings| ==> r.findings[k].evidence != Insufficient
  {
    LossStays(lim, calls, i, |calls|);
    assert calls[..|calls|] == calls;
    hide Tally;
  }

  /** Whatever calls the store has seen, a live report tells their losses. */
  lemma ReportTellsLosses(cfg: Config, order: seq<Span> -> seq<Span>, spans: seq<Span>, base: Report, lim: Limits,
                          calls: seq<Step>, retained: nat)
    requires Reports(cfg, order, spans, Live(spans), base)
    ensures TellsLosses(Tally(lim, calls), Enriched(base, Run(lim, calls).stats, retained))
  {
    hide *;
    EnrichedReport(cfg, order, spans, base, Run(lim, calls).stats, retained);
    EnrichedCounts(cfg, order, spans, base, Run(lim, calls).stats, retained);
    LossesTold(lim, calls, Enriched(base, Run(lim, calls).stats, retained));
  }

  lemma LossesTold(lim: Limits, calls: seq<Step>, r: Report)
    requires Honest(r)
    requires r.coverage.status == DegradedCoverage
             <==> Lossy(Run(lim, calls).stats) || r.coverage.droppedAttributes > 0 || r.coverage.droppedLinks > 0
    requires var stats := Run(lim, calls).stats;
      && r.coverage.rejectedSpans == stats.rejected && r.coverage.ttlEvictions == stats.ttlEvictions
      && r.coverage.duplicateExports == stats.duplicateExports
      && r.coverage.conflictingDuplicates == stats.conflictingDuplicates
    ensures TellsLosses(Tally(lim, calls), r)
  {
    LossOnRecord(lim, calls);
    RunBalanced(lim, calls);
    hide Tally, Run, Lossy, Guarded;
  }

  lemma EnrichedCounts(cfg: Config, order: seq<Span> -> seq<Span>, spans: seq<Span>, base: Report, stats: Stats,
                       retained: nat)
    requires Reports(cfg, order, spans, Live(spans), base)
    ensures var c := Enriched(base, stats, retained).coverage;
      && c.droppedAttributes == DroppedAttributes(spans) && c.droppedLinks == DroppedLinks(spans)
      && c.rejectedSpans == stats.rejected && c.ttlEvictions == stats.ttlEvictions
      && c.duplicateExports == stats.duplicateExports && c.conflictingDuplicates == stats.conflictingDuplicates
      && c.retainedSpans == retained
  {
    hide *;
    ReportCoverage(cfg, order, spans, Live(spans), base);
    CoverageCounts(spans, Live(spans));
    EnrichedCoverage(base, stats, retained);
  }

  lemma EnrichedCoverage(base: Report, stats: Stats, retained: nat)
    ensures var c := Enriched(base, stats, retained).coverage;
      && c.droppedAttributes == base.coverage.droppedAttributes && c.droppedLinks == base.coverage.droppedLinks
      && c.rejectedSpans == stats.rejected && c.ttlEvictions == stats.ttlEvictions
      && c.duplicateExports == stats.duplicateExports && c.conflictingDuplicates == stats.conflictingDuplicates
      && c.retainedSpans == retained
  {
    hide DegradeAll;
  }

  /** Enrichment does not take a live report out of the offline one, and the published report too fails the policy
      only if the offline one does. */
  lemma EnrichedWithinOffline(cfg: Config, order: seq<Span> -> seq<Span>, spans: seq<Span>, t: Table, complete: bool,
                              base: Report, offline: Report, stats: Stats, retained: nat)
    requires Usable(spans, t) && IsReport(cfg, order, spans, t, Live(spans), base)
    requires IsReport(cfg, order, spans, t, Finished(spans, complete), offline)
    ensures Appears(Enriched(base, stats, retained).findings, offline.findings)
    ensures Violates(cfg.settings, Enriched(base, stats, retained).findings) ==>
              Violates(cfg.settings, offline.findings)
  {
    LiveWithinOffline(cfg, order, spans, t, complete, base, offline);
    ReportSound(cfg, order, spans, t, Live(spans), base);
    ReportSound(cfg, order, spans, t, Finished(spans, complete), offline);
    DegradedSound(base.findings);
    SettledAppears(base.findings, offline.findings,
                   if Lossy(stats) then DegradedCoverage else UnknownCoverage, UnknownCoverage);
    hide Appears, IsReport, DegradeAll, Guarded, Presentable, NoneInsufficient, Violates;
    if Violates(cfg.settings, Enriched(base, stats, retained).findings) {
      FailureAppears(cfg.settings, Enriched(base, stats, retained).findings, offline.findings);
    }
  }

  /** Enrichment leaves what the report says is absent. */
  lemma EnrichedTells(cfg: Config, spans: seq<Span>, base: Report, stats: Stats, retained: nat)
    requires TellsAll(cfg, spans, false, base)
    ensures TellsAll(cfg, spans, false, Enriched(base, stats, retained))
  {
    var status := if Lossy(stats) then DegradedCoverage else UnknownCoverage;
    var xs := IndexedCorrelate(spans, cfg.settings.window).value.correlations;
    SettledCarry(base.findings, status, Enriched(base, stats, retained).findings);
    hide AllTold, IndexedCorrelate, Carried, DegradeAll, LoneProducers, LoneConsumers, Unlinked, MessagingOnes,
         NulFree, Observes, Lossy;
    ToldCarried(cfg, spans, xs, false, base.findings, Enriched(base, stats, retained).findings);
  }

  /** The report on the snapshot, with the counters of a possibly later store. */
  ghost predicate IsLiveReport(cfg: Config, order: seq<Span> -> seq<Span>, spans: seq<Span>, stats: Stats,
                               retained: nat, report: Report)
  {
    exists base :: Reports(cfg, order, spans, Live(spans), base) && report == Enriched(base, stats, retained)
  }

  // ---------- The service ----------

  /** What other goroutines may do between two steps of an audit is an event of its own. */
  datatype Event =
    | Export(batch: seq<Span>, now: Time)
    | BeginAudit(now: Time)
    | FinishAudit
    | Reload(loaded: Option<Config>)

  class Service {
    const store: Store
    const metrics: Metrics
    const order: seq<Span> -> seq<Span>
    var cfg: Config
    var last: Option<Report>
    // the audit under way: its snapshot and the engine it read
    var spans: array?<Span>
    var engine: Config
    // an index fault in an audit ends the process
    var running: bool
    ghost var snapshot: seq<Span>
    ghost var calls: seq<Step>  // all calls on the store so far

    ghost predicate Valid()
      reads this, store, store.buffer, store.cachedSnapshot, spans
    {
      && store.Valid()
      && store.View() == Run(store.lim, calls)
      && SortsByStart(order)
      && (spans != null ==> spans in store.issued && spans[..] == snapshot)
    }

    constructor (lim: Limits, cfg: Config, order: seq<Span> -> seq<Span>)
      requires SortsByStart(order)
      ensures Valid() && running && fresh(store) && fresh(store.buffer) && fresh(metrics)
      ensures store.View() == EMPTY && store.lim == lim && calls == [] && last == None && spans == null
    {
      this.store := new Store(lim);
      this.metrics := new Metrics();
      this.order, this.cfg, this.engine, this.last, this.spans, this.running := order, cfg, cfg, None, null, true;
      snapshot, calls := [], [];
    }

    method Export(batch: seq<Span>, now: Time) returns (result: AddResult)
      requires Valid() && running
      modifies this`calls, store, store.buffer
      ensures Valid() && store.View() == AddBatch(old(store.View()), store.lim, batch, now)
      ensures calls == old(calls) + [Retention.Add(batch, now)]
      ensures fresh(store.buffer) || store.buffer == old(store.buffer)
    {
      hide Retention.Valid, SortsByStart, AdmitAll, Evict, ResultOf, EnterAll, Run, Apply, LeavesRecent, Store.View,
           AddBatch;
      RunCall(store.lim, calls, Retention.Add(batch, now));
      ApplyAdd(store.View(), store.lim, batch, now);
      result := store.Add(batch, now);
      calls := calls + [Retention.Add(batch, now)];
    }

    method BeginAudit(now: Time)
      requires Valid() && running
      modifies this, store, store.buffer
      ensures Valid() && running && store.View() == Evict(old(store.View()), store.lim, now)
      ensures spans != null && snapshot == store.View().spans && engine == cfg == old(cfg) && last == old(last)
      ensures calls == old(calls) + [TakeSnapshot(now)]
      ensures fresh(store.buffer) || store.buffer == old(store.buffer)
    {
      hide Retention.Valid, SortsByStart, Evict, Run, Apply, KeepsRecent, Store.View;
      RunCall(store.lim, calls, TakeSnapshot(now));
      ApplySnapshot(store.View(), store.lim, now);
      var out := store.Snapshot(now);
      spans, engine := out, cfg;
      snapshot := out[..];
      calls := calls + [TakeSnapshot(now)];
    }

    /** The audit reads its snapshot only now, however the store has changed meanwhile. It ends the service exactly
        when the correlation engine faults on the snapshot. */
    method FinishAudit() returns (report: Option<Report>)
      requires Valid() && running
      modifies this, metrics
      ensures Valid() && cfg == old(cfg) && calls == old(calls)
      ensures running <==> old(spans) == null || IndexedCorrelate(old(snapshot), old(engine).settings.window).Some?
      ensures report.Some? <==> running && old(spans) != null
      ensures report == None ==> last == old(last)
      ensures report.Some? ==> last == report && spans == null
      ensures report.Some? ==> metrics.activeFingerprints == Fingerprints(report.value.findings)
      ensures report.Some? ==> Raised(old(metrics.counters), metrics.counters, old(metrics.activeFingerprints),
                                      report.value.findings)
      ensures report.Some? ==> TellsAll(old(engine), old(snapshot), false, report.value)
      ensures report.Some? ==> Honest(report.value) && TellsLosses(Tally(store.lim, calls), report.value)
      ensures report.Some? ==>
                (report.value.coverage.droppedAttributes > 0 || report.value.coverage.droppedLinks > 0
                 <==> ArrivedWithLosses(old(snapshot)))
      ensures report.Some? ==> IsLiveReport(old(engine), order, old(snapshot), store.stats, store.len, report.value)
    {
      hide Retention.Valid, SortsByStart, IsReport, Agree, Usable, Enriched, Honest, NoneInsufficient, Raised, Gauged,
           Live, DegradedThroughout, IndexedCorrelate, AllFaithful, ReportsOn, Reports, Fingerprints, Run, Tally,
           TellsLosses, TellsAll, Lossy, ArrivedWithLosses, DroppedAttributes, DroppedLinks;
      if spans == null {
        return None;
      }
      var audited := AuditWindow(engine, order, spans[..]);
      if audited == None {
        running := false;
        return None;
      }
      var enriched := EnrichCoverage(audited.value, store.stats, store.len);
      EnrichedReport(engine, order, snapshot, audited.value, store.stats, store.len);
      ReportTellsLosses(engine, order, snapshot, audited.value, store.lim, calls, store.len);
      EnrichedCounts(engine, order, snapshot, audited.value, store.stats, store.len);
      DroppedExactly(snapshot);
      EnrichedTells(engine, snapshot, audited.value, store.stats, store.len);
      metrics.Observe(enriched);
      last := Some(enriched);
      spans := null;
      report := last;
    }

    /** A configuration that fails to load changes nothing. */
    method Reload(loaded: Option<Config>)
      requires Valid() && running
      modifies this`cfg
      ensures Valid() && cfg == if loaded.Some? then loaded.value else old(cfg)
    {
      if loaded.Some? {
        cfg := loaded.value;
      }
    }
  }

  lemma RunCall(lim: Limits, calls: seq<Step>, call: Step)
    ensures Run(lim, calls + [call]) == Apply(Run(lim, calls), lim, call)
  {
    hide Apply;
    assert (calls + [call])[..|calls + [call]| - 1] == calls;
  }

  lemma ApplyAdd(st: State, lim: Limits, batch: seq<Span>, now: Time)
    ensures Apply(st, lim, Retention.Add(batch, now)) == AddBatch(st, lim, batch, now)
    ensures AddBatch(st, lim, batch, now) == AdmitAll(Evict(st, lim, now), lim, batch, now)
  {}

  lemma ApplySnapshot(st: State, lim: Limits, now: Time)
    ensures Apply(st, lim, TakeSnapshot(now)) == Evict(st, lim, now)
  {}

  /** The calls on the store that the events make. */
  function StoreCalls(events: seq<Event>): seq<Step> {
    if events == [] then []
    else
      StoreCalls(events[..|events| - 1])
      + match events[|events| - 1]
        case Export(batch, now) => [Retention.Add(batch, now)]
        case BeginAudit(now) => [TakeSnapshot(now)]
        case _ => []
  }

  lemma NoCalls()
    ensures StoreCalls([]) == []
  {}

  lemma CallsOneMore(events: seq<Event>, i: nat)
    requires i < |events|
    ensures StoreCalls(events[..i + 1]) == StoreCalls(events[..i])
              + match events[i]
                case Export(batch, now) => [Retention.Add(batch, now)]
                case BeginAudit(now) => [TakeSnapshot(now)]
                case _ => []
  {
    assert events[..i + 1][..i] == events[..i];
  }

  /** The calls of the first events are the first calls. */
  lemma {:induction false} CallsPrefix(events: seq<Event>, i: nat, j: nat)
    requires i <= j <= |events|
    ensures StoreCalls(events[..i]) <= StoreCalls(events[..j])
    decreases j - i
  {
    if i < j {
      CallsPrefix(events, i, j - 1);
      CallsOneMore(events, j - 1);
    }
  }

  /** An audit keeps the input it began with: whatever is exported and reloaded before it ends, its report is on the
      snapshot and under the configuration of its beginning, and only its counters are of the end. */
  method AuditMeanwhile(service: Service, now: Time, meanwhile: seq<Event>) returns (report: Option<Report>)
    requires service.Valid() && service.running
    requires forall k :: 0 <= k < |meanwhile| ==> meanwhile[k].Export? || meanwhile[k].Reload?
    modifies service, service.store, service.store.buffer, service.metrics
    ensures service.Valid()
    ensures var snapshot := Evict(old(service.store.View()), service.store.lim, now).spans;
      && (report.Some? <==> service.running)
      && (service.running <==> IndexedCorrelate(snapshot, old(service.cfg).settings.window).Some?)
      && (report.Some? ==>
            IsLiveReport(old(service.cfg), service.order, snapshot, service.store.stats, service.store.len,
                         report.value))
  {
    hide Retention.Valid, SortsByStart, Honest, DegradedThroughout, Evict, AddBatch, IndexedCorrelate, Raised,
         Fingerprints, Reports, TellsAll, TellsLosses, ArrivedWithLosses, Run, Tally, Enriched;
    service.BeginAudit(now);
    for i := 0 to |meanwhile|
      invariant service.Valid() && service.running
      invariant fresh(service.store.buffer) || service.store.buffer == old(service.store.buffer)
      invariant service.spans != null && service.engine == old(service.cfg)
      invariant service.snapshot == Evict(old(service.store.View()), service.store.lim, now).spans
    {
      match meanwhile[i] {
        case Export(batch, now) => var _ := service.Export(batch, now);
        case Reload(loaded) => service.Reload(loaded);
      }
    }
    report := service.FinishAudit();
  }

  /** The report after the first `j` events of a service that had seen some calls before: it tells the losses of all
      calls so far, and is degraded once any were lost before any event up to then. */
  ghost predicate ToldAfter(lim: Limits, past: seq<Step>, events: seq<Event>, j: nat, r: Report)
    requires j <= |events|
  {
    && TellsLosses(Tally(lim, past + StoreCalls(events[..j])), r)
    && forall i :: 0 <= i <= j ==>
         var l := Tally(lim, past + StoreCalls(events[..i]));
         l.evicted + l.stale + l.conflicts + l.overCapacity + l.overMemory > 0 ==>
           && r.coverage.status == DegradedCoverage
           && forall k :: 0 <= k < |r.findings| ==> r.findings[k].evidence != Insufficient
  }

  lemma ToldOnce(lim: Limits, past: seq<Step>, events: seq<Event>, j: nat, r: Report)
    requires j <= |events| && TellsLosses(Tally(lim, past + StoreCalls(events[..j])), r)
    ensures ToldAfter(lim, past, events, j, r)
  {
    hide Tally, StoreCalls, TellsLosses;
    var all := past + StoreCalls(events[..j]);
    forall i | 0 <= i <= j
      ensures var l := Tally(lim, past + StoreCalls(events[..i]));
        l.evicted + l.stale + l.conflicts + l.overCapacity + l.overMemory > 0 ==>
          && r.coverage.status == DegradedCoverage
          && forall k :: 0 <= k < |r.findings| ==> r.findings[k].evidence != Insufficient
    {
      CallsPrefix(events, i, j);
      var some := past + StoreCalls(events[..i]);
      assert all[..|some|] == some;
      LossTold(lim, all, |some|, r);
    }
  }

  /** Any interleaving of events, up to a fault: all reports are honest and tell the losses of all calls on the store
      before them; once a span was evicted or refused, every later report is degraded and holds no merely insufficient
      finding, whatever is exported or reloaded. Report `k` is that of event `finished[k]`. */
  method RunEvents(service: Service, events: seq<Event>)
    returns (reports: seq<Report>, finished: seq<nat>, handled: nat)
    requires service.Valid() && service.running
    modifies service, service.store, service.store.buffer, service.metrics
    ensures service.Valid() && handled <= |events|
    ensures handled < |events| ==> !service.running
    ensures !service.running ==> handled > 0 && events[handled - 1].FinishAudit?
    ensures service.calls == old(service.calls) + StoreCalls(events[..handled])
    ensures |finished| == |reports|
    ensures forall k :: 0 <= k < |reports| ==> finished[k] < handled && events[finished[k]].FinishAudit?
    ensures forall i, j :: 0 <= i < j < |finished| ==> finished[i] < finished[j]
    ensures forall k :: 0 <= k < |reports| ==> Honest(reports[k])
    ensures forall k :: 0 <= k < |reports| ==>
              ToldAfter(service.store.lim, old(service.calls), events, finished[k], reports[k])
  {
    hide *;
    reports, finished, handled := [], [], 0;
    NoCalls();
    assert events[..0] == [];
    ghost var past, lim := service.calls, service.store.lim;
    while handled < |events| && service.running
      invariant service.Valid() && handled <= |events|
      invariant !service.running ==> handled > 0 && events[handled - 1].FinishAudit?
      invariant fresh(service.store.buffer) || service.store.buffer == old(service.store.buffer)
      invariant service.calls == past + StoreCalls(events[..handled])
      invariant |finished| == |reports|
      invariant forall k :: 0 <= k < |reports| ==> finished[k] < handled && events[finished[k]].FinishAudit?
      invariant forall i, j :: 0 <= i < j < |finished| ==> finished[i] < finished[j]
      invariant forall k :: 0 <= k < |reports| ==> Honest(reports[k])
      invariant forall k :: 0 <= k < |reports| ==> ToldAfter(lim, past, events, finished[k], reports[k])
    {
      CallsOneMore(events, handled);
      match events[handled] {
        case Export(batch, now) =>
          var _ := service.Export(batch, now);
        case BeginAudit(now) =>
          service.BeginAudit(now);
        case FinishAudit =>
          var report := service.FinishAudit();
          if report.Some? {
            ToldOnce(lim, past, events, handled, report.value);
            reports, finished := reports + [report.value], finished + [handled];
          }
        case Reload(loaded) =>
          service.Reload(loaded);
      }
      handled := handled + 1;
    }
  }
}
