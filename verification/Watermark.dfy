/** Event time: which correlation windows are closed, and why eviction never reopens one. */
module Watermark {
  import opened Spans
  import opened Retention

  /** How the spans under audit are to be read: a finished input or a live window. */
  datatype AuditContext = AuditContext(finalized: bool, coverageComplete: bool, watermark: Time)

  /** `w` is the latest end time, or the zero time if none is later. */
  ghost predicate IsWatermark(spans: seq<Span>, w: Time) {
    && w >= ZERO_TIME
    && (forall k :: 0 <= k < |spans| ==> spans[k].end <= w)
    && (w == ZERO_TIME || exists k :: 0 <= k < |spans| && spans[k].end == w)
  }

  function EventWatermark(spans: seq<Span>): (w: Time)
    ensures IsWatermark(spans, w)
  {
    if spans == [] then ZERO_TIME
    else
      var w := EventWatermark(spans[..|spans| - 1]);
      if spans[|spans| - 1].end > w then spans[|spans| - 1].end else w
  }

  method ComputeWatermark(spans: seq<Span>) returns (watermark: Time)
    ensures watermark == EventWatermark(spans)
  {
    watermark := ZERO_TIME;
    for i := 0 to |spans|
      invariant watermark == EventWatermark(spans[..i])
    {
      assert spans[..i + 1][..i] == spans[..i];
      if spans[i].end > watermark {
        watermark := spans[i].end;
      }
    }
    assert spans[..|spans|] == spans;
  }

  predicate WindowClosed(s: Span, window: int, audit: AuditContext) {
    if s.end == ZERO_TIME then false
    else if audit.finalized then true
    else audit.watermark != ZERO_TIME && audit.watermark >= s.end + window
  }

  function Live(spans: seq<Span>): AuditContext {
    AuditContext(false, false, EventWatermark(spans))
  }

  /** The window of a span that has ended is closed in a finished input; in a live one when something has ended at least
      the window later. */
  ghost predicate ClosedIn(spans: seq<Span>, s: Span, window: int, finalized: bool) {
    && s.end != ZERO_TIME
    && (finalized || exists k :: 0 <= k < |spans| && spans[k].end > ZERO_TIME && spans[k].end >= s.end + window)
  }

  /** The test against the watermark says just that. */
  lemma WindowClosedMeans(spans: seq<Span>, s: Span, window: int, audit: AuditContext)
    requires audit.watermark == EventWatermark(spans)
    ensures WindowClosed(s, window, audit) <==> ClosedIn(spans, s, window, audit.finalized)
    ensures !audit.finalized ==>
              (WindowClosed(s, window, audit)
               <==> && s.end != ZERO_TIME
                    && exists k :: 0 <= k < |spans| && spans[k].end > ZERO_TIME && spans[k].end >= s.end + window)
    ensures audit.finalized ==> (WindowClosed(s, window, audit) <==> s.end != ZERO_TIME)
  {}

  /** A window closed for the one is closed for the other. */
  predicate Outlasts(offline: AuditContext, live: AuditContext) {
    offline.finalized && offline.watermark == live.watermark
  }

  /** A window closed by a live snapshot is closed for the finished input. */
  lemma ClosedLiveClosedOffline(s: Span, window: int, live: AuditContext, offline: AuditContext)
    requires Outlasts(offline, live) && WindowClosed(s, window, live)
    ensures WindowClosed(s, window, offline)
  {}

  /** Eviction cannot take the latest of the spans without every span that one closed. */
  lemma EvictionKeepsClosed(st: State, lim: Limits, now: Time, window: int, s: Span)
    requires s in st.spans && ClosedIn(st.spans, s, window, false) && s in Evict(st, lim, now).spans
    ensures ClosedIn(Evict(st, lim, now).spans, s, window, false)
  {
    var w, kept := EventWatermark(st.spans), Unexpired(st.spans, now, lim.ttl);
    UnexpiredMembers(st.spans, now, lim.ttl);
    UnexpiredSame(st.spans, now, lim.ttl);
    var k :| 0 <= k < |st.spans| && st.spans[k].end == w;
    assert st.spans[k] in st.spans && !Expired(s, now, lim.ttl);
    assert st.spans[k] in kept;
  }

  lemma ClosedInMore(a: seq<Span>, b: seq<Span>, s: Span, window: int)
    requires ClosedIn(a, s, window, false) && forall t :: t in a ==> t in b
    ensures ClosedIn(b, s, window, false)
  {
    var k :| 0 <= k < |a| && a[k].end > ZERO_TIME && a[k].end >= s.end + window;
    assert a[k] in b;
  }

  lemma {:induction false} AdmittedStay(st: State, lim: Limits, batch: seq<Span>, now: Time)
    ensures forall s :: s in st.spans ==> s in AdmitAll(st, lim, batch, now).spans
  {
    if batch != [] {
      AdmittedStay(st, lim, batch[..|batch| - 1], now);
    }
  }

  /** One step of the store, at any wall-clock time, keeps a closed window closed. */
  lemma StepKeepsClosed(st: State, lim: Limits, step: Step, window: int, s: Span)
    requires s in st.spans && ClosedIn(st.spans, s, window, false)
    requires s in Evict(st, lim, step.now).spans
    ensures s in Apply(st, lim, step).spans && ClosedIn(Apply(st, lim, step).spans, s, window, false)
  {
    var evicted := Evict(st, lim, step.now);
    EvictionKeepsClosed(st, lim, step.now, window, s);
    hide ClosedIn, Evict, AdmitAll;
    if step.Add? {
      AdmittedStay(evicted, lim, step.batch, step.now);
      ClosedInMore(evicted.spans, AdmitAll(evicted, lim, step.batch, step.now).spans, s, window);
    }
  }

  /** The span survives every eviction from step `i` up to step `j`. */
  predicate Survives(lim: Limits, steps: seq<Step>, s: Span, i: nat, j: nat)
    requires i <= j <= |steps|
  {
    forall k :: i <= k < j ==> s in Evict(Run(lim, steps[..k]), lim, steps[k].now).spans
  }

  lemma ClosedOneMore(lim: Limits, steps: seq<Step>, window: int, s: Span, k: nat)
    requires k < |steps| && s in Run(lim, steps[..k]).spans && ClosedIn(Run(lim, steps[..k]).spans, s, window, false)
    requires s in Evict(Run(lim, steps[..k]), lim, steps[k].now).spans
    ensures s in Run(lim, steps[..k + 1]).spans && ClosedIn(Run(lim, steps[..k + 1]).spans, s, window, false)
  {
    RunOneMore(lim, steps, k);
    hide Run, Apply, Evict, ClosedIn;
    StepKeepsClosed(Run(lim, steps[..k]), lim, steps[k], window, s);
  }

  /** Over every run, a window once closed stays closed for as long as its span is retained. */
  lemma {:induction false} ClosedStaysClosed(lim: Limits, steps: seq<Step>, window: int, s: Span, i: nat, j: nat)
    requires i <= j <= |steps| && Survives(lim, steps, s, i, j)
    requires s in Run(lim, steps[..i]).spans && ClosedIn(Run(lim, steps[..i]).spans, s, window, false)
    ensures s in Run(lim, steps[..j]).spans && ClosedIn(Run(lim, steps[..j]).spans, s, window, false)
    decreases j - i
  {
    hide Run, Apply, Evict, ClosedIn;
    if i < j {
      ClosedStaysClosed(lim, steps, window, s, i, j - 1);
      ClosedOneMore(lim, steps, window, s, j - 1);
    }
  }
}
