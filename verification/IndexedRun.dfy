/** What the indexed engine does in a whole run: the tables it fills, when it stops, and exactly when
    its tables are those of the quadratic scan. */
module IndexedRun {
  import opened Text
  import opened Spans
  import opened Routes
  import opened Nearest
  import opened RouteWalk
  import opened Tables
  import opened Scan
  import opened ContextTiers
  import opened ConsumerRows
  import opened Indexes
  import opened Indexed

  // ---------- The whole run ----------

  /** The tables after the given consumers; None when the walk of one of them faults. */
  ghost function IndexedAll(spans: seq<Span>, window: int, consumers: seq<nat>): Option<Table>
    requires InBounds(spans, consumers)
  {
    if consumers == [] then Some(EMPTY_TABLE)
    else
      var t, ci := IndexedAll(spans, window, consumers[..|consumers| - 1]), consumers[|consumers| - 1];
      var o := IndexedConsumer(spans, spans[ci], window);
      if t.Some? && o.Some? then Some(AddOutcome(t.value, spans, ci, o.value)) else None
  }

  /** The tables the indexed engine fills. */
  ghost function IndexedCorrelate(spans: seq<Span>, window: int): Option<Table> {
    IndexedAll(spans, window, Consumers(spans, |spans|))
  }

  lemma IndexedStep(spans: seq<Span>, window: int, consumers: seq<nat>, k: nat)
    requires InBounds(spans, consumers) && k < |consumers|
    ensures InBounds(spans, consumers[..k]) && InBounds(spans, consumers[..k + 1])
    ensures var t, o := IndexedAll(spans, window, consumers[..k]), IndexedConsumer(spans, spans[consumers[k]], window);
      IndexedAll(spans, window, consumers[..k + 1])
      == if t.Some? && o.Some? then Some(AddOutcome(t.value, spans, consumers[k], o.value)) else None
  {
    PrefixInBounds(spans, consumers, k);
    hide *;
    assert consumers[..k + 1] == consumers[..k] + [consumers[k]];
    IndexedLast(spans, window, consumers[..k], consumers[k]);
  }

  lemma PrefixInBounds(spans: seq<Span>, consumers: seq<nat>, k: nat)
    requires InBounds(spans, consumers) && k < |consumers|
    ensures InBounds(spans, consumers[..k]) && consumers[k] < |spans|
  {}

  lemma IndexedLast(spans: seq<Span>, window: int, front: seq<nat>, ci: nat)
    requires InBounds(spans, front) && ci < |spans|
    ensures InBounds(spans, front + [ci])
    ensures var t, o := IndexedAll(spans, window, front), IndexedConsumer(spans, spans[ci], window);
      IndexedAll(spans, window, front + [ci])
      == if t.Some? && o.Some? then Some(AddOutcome(t.value, spans, ci, o.value)) else None
  {
    hide AddOutcome, IndexedConsumer;
    assert (front + [ci])[..|front + [ci]| - 1] == front;
  }

  lemma ScanStep(spans: seq<Span>, window: int, consumers: seq<nat>, k: nat)
    requires InBounds(spans, consumers) && k < |consumers|
    ensures ScanAll(spans, window, consumers[..k + 1])
         == AddOutcome(ScanAll(spans, window, consumers[..k]), spans, consumers[k],
                       ScanConsumer(spans, spans[consumers[k]], window))
  {
    hide AddOutcome, ScanConsumer;
    assert consumers[..k + 1][..k] == consumers[..k];
  }

  /** The consumer's walk, if it comes to it, does not fault. */
  ghost predicate Finishes(spans: seq<Span>, c: Span, window: int) { IndexedConsumer(spans, c, window).Some? }

  lemma FinishesStep(spans: seq<Span>, window: int, consumers: seq<nat>, k: nat)
    requires InBounds(spans, consumers) && k < |consumers|
    ensures IndexedAll(spans, window, consumers[..k + 1]).Some?
            <==> IndexedAll(spans, window, consumers[..k]).Some? && Finishes(spans, spans[consumers[k]], window)
  {
    hide IndexedConsumer, IndexedAll;
    IndexedStep(spans, window, consumers, k);
  }

  /** A run has tables exactly when no consumer's walk faults. */
  lemma {:induction false} RunsThrough(spans: seq<Span>, window: int, consumers: seq<nat>, k: nat)
    requires InBounds(spans, consumers) && k <= |consumers|
    ensures IndexedAll(spans, window, consumers[..k]).Some?
            <==> forall j :: 0 <= j < k ==> Finishes(spans, spans[consumers[j]], window)
  {
    hide Finishes, IndexedAll;
    if k == 0 {
      NoConsumers(spans, window, consumers);
    } else {
      RunsThrough(spans, window, consumers, k - 1);
      FinishesStep(spans, window, consumers, k - 1);
    }
  }

  lemma NoConsumers(spans: seq<Span>, window: int, consumers: seq<nat>)
    requires InBounds(spans, consumers)
    ensures consumers[..0] == [] && InBounds(spans, consumers[..0])
    ensures IndexedAll(spans, window, []) == Some(EMPTY_TABLE) && ScanAll(spans, window, []) == EMPTY_TABLE
  {}

  lemma AllConsumers(spans: seq<Span>)
    ensures var consumers := Consumers(spans, |spans|);
      consumers[..|consumers|] == consumers && InBounds(spans, consumers) && Ascending(consumers)
      && forall ci :: 0 <= ci < |spans| && spans[ci].IsConsumer() <==> ci in consumers
  {}

  /** The engine stops exactly when some consumer is left to the walk and its walk faults. */
  lemma StopsWhere(spans: seq<Span>, window: int)
    ensures IndexedCorrelate(spans, window).None?
            <==> exists ci :: 0 <= ci < |spans| && spans[ci].IsConsumer() && Stops(spans, spans[ci], window)
  {
    hide IndexedConsumer, IndexedAll, Stops, Consumers, Span.IsConsumer;
    var consumers := Consumers(spans, |spans|);
    AllConsumers(spans);
    RunsThrough(spans, window, consumers, |consumers|);
    forall ci | 0 <= ci < |spans| ensures !Finishes(spans, spans[ci], window) <==> Stops(spans, spans[ci], window) {
      StopsExactly(spans, spans[ci], window);
    }
    assert forall j :: 0 <= j < |consumers| ==> consumers[j] in consumers;
  }

  // ---------- The tables agree, on every input ----------

  /** Just past the last of the first `k` consumers. */
  ghost function Past(consumers: seq<nat>, k: nat): nat
    requires k <= |consumers|
  {
    if k == 0 then 0 else consumers[k - 1] + 1
  }

  ghost function Next(spans: seq<Span>, k: nat): nat
    requires k <= |Consumers(spans, |spans|)|
  {
    var consumers := Consumers(spans, |spans|);
    if k < |consumers| then consumers[k] else |spans|
  }

  /** Between two consecutive consumers there is none. */
  lemma NoneBetween(spans: seq<Span>, k: nat)
    requires k <= |Consumers(spans, |spans|)|
    ensures Past(Consumers(spans, |spans|), k) <= Next(spans, k) <= |spans|
    ensures forall i :: Past(Consumers(spans, |spans|), k) <= i < Next(spans, k) ==> !spans[i].IsConsumer()
  {
    hide Consumers, Span.IsConsumer;
    var consumers := Consumers(spans, |spans|);
    assert k < |consumers| ==> consumers[k] in consumers;
    assert forall j :: 0 <= j < k ==> consumers[j] < Past(consumers, k);
    assert forall j :: k <= j < |consumers| ==> Next(spans, k) <= consumers[j];
    assert forall i :: i in consumers ==> i < Past(consumers, k) || Next(spans, k) <= i;
  }

  lemma UpToNext(spans: seq<Span>, window: int, t: Table, k: nat)
    requires k <= |Consumers(spans, |spans|)|
    requires Past(Consumers(spans, |spans|), k) <= |spans|
             && Agree(spans, window, t, Past(Consumers(spans, |spans|), k))
    ensures Next(spans, k) <= |spans| && Agree(spans, window, t, Next(spans, k))
  {
    hide Agree, Consumers;
    NoneBetween(spans, k);
    AgreeUpTo(spans, window, t, Past(Consumers(spans, |spans|), k), Next(spans, k));
  }

  /** What holds of the tables after the first `k` consumers. */
  ghost predicate Progress(spans: seq<Span>, window: int, k: nat, t: Table) {
    var consumers := Consumers(spans, |spans|);
    && k <= |consumers|
    && Past(consumers, k) <= |spans|
    && Agree(spans, window, t, Past(consumers, k))
    && SameHigh(t, ScanAll(spans, window, consumers[..k]))
  }

  lemma ProgressStarts(spans: seq<Span>, window: int)
    ensures Progress(spans, window, 0, EMPTY_TABLE)
  {
    EmptyAgrees(spans, window);
  }

  lemma AgreeStep(spans: seq<Span>, window: int, k: nat, t: Table, o: Outcome)
    requires k < |Consumers(spans, |spans|)| && Past(Consumers(spans, |spans|), k) <= |spans|
    requires Agree(spans, window, t, Past(Consumers(spans, |spans|), k)) && Next(spans, k) < |spans|
    requires WellFormed(spans, spans[Next(spans, k)], window, o)
    ensures Agree(spans, window, AddOutcome(t, spans, Next(spans, k), o), Next(spans, k) + 1)
  {
    hide Agree, WellFormed, AddOutcome, Consumers;
    assert Next(spans, k) in Consumers(spans, |spans|);
    UpToNext(spans, window, t, k);
    OutcomeAgrees(spans, window, t, Next(spans, k), o);
  }

  lemma PastIsNext(spans: seq<Span>, k: nat)
    requires k < |Consumers(spans, |spans|)|
    ensures var consumers := Consumers(spans, |spans|);
      && Next(spans, k) == consumers[k] < |spans| && InBounds(spans, consumers)
      && Past(consumers, k + 1) == Next(spans, k) + 1 && Past(consumers, k) <= |spans|
  {
    hide Consumers;
    assert Consumers(spans, |spans|)[k] in Consumers(spans, |spans|);
    NoneBetween(spans, k);
  }

  lemma ProgressStep(spans: seq<Span>, window: int, k: nat, t: Table, ci: nat, o: Outcome)
    requires Progress(spans, window, k, t)
    requires k < |Consumers(spans, |spans|)| && ci == Consumers(spans, |spans|)[k] < |spans|
    requires WellFormed(spans, spans[ci], window, o) && InBounds(spans, o.matches)
    requires SameContext(ScanConsumer(spans, spans[ci], window), o)
    ensures Progress(spans, window, k + 1, AddOutcome(t, spans, ci, o))
  {
    hide Agree, WellFormed, AddOutcome, ScanConsumer, ScanAll, Consumers, SameHigh, SameContext;
    var consumers := Consumers(spans, |spans|);
    PastIsNext(spans, k);
    AgreeStep(spans, window, k, t, o);
    ScanStep(spans, window, consumers, k);
    OutcomeKeepsSame(t, ScanAll(spans, window, consumers[..k]), spans, ci, o, ScanConsumer(spans, spans[ci], window));
  }

  lemma {:induction false} IndexedProgress(spans: seq<Span>, window: int, k: nat)
    requires k <= |Consumers(spans, |spans|)| && InBounds(spans, Consumers(spans, |spans|))
    requires IndexedAll(spans, window, Consumers(spans, |spans|)[..k]).Some?
    ensures Progress(spans, window, k, IndexedAll(spans, window, Consumers(spans, |spans|)[..k]).value)
  {
    hide Progress, IndexedAll, IndexedConsumer, Consumers, AddOutcome;
    var consumers := Consumers(spans, |spans|);
    if k == 0 {
      NoConsumers(spans, window, consumers);
      ProgressStarts(spans, window);
    } else {
      IndexedStep(spans, window, consumers, k - 1);
      IndexedProgress(spans, window, k - 1);
      ProgressStep(spans, window, k - 1, IndexedAll(spans, window, consumers[..k - 1]).value, consumers[k - 1],
                   IndexedConsumer(spans, spans[consumers[k - 1]], window).value);
    }
  }

  lemma ProgressEnds(spans: seq<Span>, window: int, t: Table)
    requires Progress(spans, window, |Consumers(spans, |spans|)|, t)
    ensures Agree(spans, window, t, |spans|) && SameHigh(t, ScanCorrelate(spans, window))
  {
    hide Agree, Consumers, ScanAll, SameHigh;
    var consumers := Consumers(spans, |spans|);
    UpToNext(spans, window, t, |consumers|);
    assert consumers[..|consumers|] == consumers;
  }

  /** Whatever the input, the tables agree with one another, and their high-confidence correlations and reference
      counts are those of the scan. */
  lemma IndexedAgrees(spans: seq<Span>, window: int)
    requires IndexedCorrelate(spans, window).Some?
    ensures Agree(spans, window, IndexedCorrelate(spans, window).value, |spans|)
    ensures SameHigh(IndexedCorrelate(spans, window).value, ScanCorrelate(spans, window))
  {
    hide Agree, Consumers, SameHigh, IndexedAll, Progress, ScanCorrelate;
    AllConsumers(spans);
    IndexedProgress(spans, window, |Consumers(spans, |spans|)|);
    ProgressEnds(spans, window, IndexedCorrelate(spans, window).value);
  }

  // ---------- When the tables are the scan's ----------

  /** The rows of a consumer are those of its outcome, in the engine's tables and in the scan's. */
  lemma {:induction false} RowsThrough(spans: seq<Span>, window: int, consumers: seq<nat>, k: nat, ci: nat)
    requires InBounds(spans, consumers) && Ascending(consumers) && k <= |consumers| && ci < |spans|
    requires IndexedAll(spans, window, consumers[..k]).Some? && IndexedConsumer(spans, spans[ci], window).Some?
    ensures var o, s := IndexedConsumer(spans, spans[ci], window).value, ScanConsumer(spans, spans[ci], window);
      && RowsOf(IndexedAll(spans, window, consumers[..k]).value.correlations, ci)
         == (if ci in consumers[..k] then Rows(spans, o.matches, ci, o.how) else [])
      && RowsOf(ScanAll(spans, window, consumers[..k]).correlations, ci)
         == (if ci in consumers[..k] then Rows(spans, s.matches, ci, s.how) else [])
  {
    hide IndexedAll, IndexedConsumer, ScanAll, ScanConsumer, AddOutcome, RowsOf, Rows, WellFormed, SameContext;
    if k == 0 {
      NoConsumers(spans, window, consumers);
      NoRows(ci);
    } else {
      var last := consumers[k - 1];
      IndexedStep(spans, window, consumers, k - 1);
      ScanStep(spans, window, consumers, k - 1);
      RowsThrough(spans, window, consumers, k - 1, ci);
      RowsEntered(IndexedAll(spans, window, consumers[..k - 1]).value, spans, last,
                  IndexedConsumer(spans, spans[last], window).value, ci);
      RowsEntered(ScanAll(spans, window, consumers[..k - 1]), spans, last, ScanConsumer(spans, spans[last], window),
                  ci);
      NewestConsumer(consumers, k, ci);
    }
  }

  lemma NoRows(ci: nat)
    ensures RowsOf(EMPTY_TABLE.correlations, ci) == []
  {}

  lemma NewestConsumer(consumers: seq<nat>, k: nat, ci: nat)
    requires Ascending(consumers) && 0 < k <= |consumers|
    ensures ci in consumers[..k] <==> ci in consumers[..k - 1] || ci == consumers[k - 1]
    ensures ci == consumers[k - 1] ==> ci !in consumers[..k - 1]
  {
    assert consumers[..k] == consumers[..k - 1] + [consumers[k - 1]];
  }

  /** An outcome without matches comes from the last tier. */
  lemma UnmatchedIsHeuristic(spans: seq<Span>, c: Span, window: int)
    ensures var r, s := IndexedConsumer(spans, c, window), ScanConsumer(spans, c, window);
      && (r.Some? && r.value.matches == [] ==> r.value.how == TimeHeuristic)
      && (s.matches == [] ==> s.how == TimeHeuristic)
  {
    hide LinkedProducers, ParentProducer, IdentityPick, WalkRoute, IdentityProducer, ScanNearest, CountedReferences;
  }

  /** Equal rows come from equal outcomes. */
  lemma SameRowsSameOutcome(spans: seq<Span>, ci: nat, window: int)
    requires ci < |spans| && IndexedConsumer(spans, spans[ci], window).Some?
    requires var o, s := IndexedConsumer(spans, spans[ci], window).value, ScanConsumer(spans, spans[ci], window);
      Rows(spans, o.matches, ci, o.how) == Rows(spans, s.matches, ci, s.how)
    ensures IndexedConsumer(spans, spans[ci], window) == Some(ScanConsumer(spans, spans[ci], window))
  {
    hide IndexedConsumer, ScanConsumer, Rows, WellFormed;
    RowsTell(spans, ci, IndexedConsumer(spans, spans[ci], window).value, ScanConsumer(spans, spans[ci], window));
    UnmatchedIsHeuristic(spans, spans[ci], window);
  }

  /** The engine gives the consumer the scan's outcome. */
  ghost predicate SameOutcome(spans: seq<Span>, c: Span, window: int) {
    IndexedConsumer(spans, c, window) == Some(ScanConsumer(spans, c, window))
  }

  lemma {:induction false} SameOutcomesSameTables(spans: seq<Span>, window: int, consumers: seq<nat>, k: nat)
    requires InBounds(spans, consumers) && k <= |consumers|
    requires forall j :: 0 <= j < k ==> SameOutcome(spans, spans[consumers[j]], window)
    ensures IndexedAll(spans, window, consumers[..k]) == Some(ScanAll(spans, window, consumers[..k]))
  {
    hide IndexedAll, ScanAll, SameOutcome;
    if k == 0 {
      NoConsumers(spans, window, consumers);
    } else {
      SameOutcomesSameTables(spans, window, consumers, k - 1);
      SameStep(spans, window, consumers, k - 1);
    }
  }

  lemma SameStep(spans: seq<Span>, window: int, consumers: seq<nat>, k: nat)
    requires InBounds(spans, consumers) && k < |consumers| && SameOutcome(spans, spans[consumers[k]], window)
    requires IndexedAll(spans, window, consumers[..k]) == Some(ScanAll(spans, window, consumers[..k]))
    ensures IndexedAll(spans, window, consumers[..k + 1]) == Some(ScanAll(spans, window, consumers[..k + 1]))
  {
    hide IndexedAll, ScanAll, IndexedConsumer, ScanConsumer, AddOutcome, WellFormed, SameContext;
    IndexedStep(spans, window, consumers, k);
    ScanStep(spans, window, consumers, k);
  }

  lemma SameTablesSameOutcome(spans: seq<Span>, window: int, ci: nat)
    requires ci < |spans| && spans[ci].IsConsumer()
    requires IndexedCorrelate(spans, window) == Some(ScanCorrelate(spans, window))
    ensures SameOutcome(spans, spans[ci], window)
  {
    hide IndexedAll, ScanAll, IndexedConsumer, ScanConsumer, Consumers, WellFormed, SameContext, Rows, RowsOf,
         Span.IsConsumer;
    var consumers := Consumers(spans, |spans|);
    AllConsumers(spans);
    RunsThrough(spans, window, consumers, |consumers|);
    var j :| 0 <= j < |consumers| && consumers[j] == ci;
    assert Finishes(spans, spans[consumers[j]], window);
    RowsThrough(spans, window, consumers, |consumers|, ci);
    SameRowsSameOutcome(spans, ci, window);
  }

  /** The tables are the scan's exactly when every consumer's outcome is. */
  lemma TablesExact(spans: seq<Span>, window: int)
    ensures IndexedCorrelate(spans, window) == Some(ScanCorrelate(spans, window))
            <==> forall ci :: 0 <= ci < |spans| && spans[ci].IsConsumer() ==> SameOutcome(spans, spans[ci], window)
  {
    hide IndexedAll, ScanAll, SameOutcome, Consumers, Span.IsConsumer;
    var consumers := Consumers(spans, |spans|);
    AllConsumers(spans);
    if forall ci :: 0 <= ci < |spans| && spans[ci].IsConsumer() ==> SameOutcome(spans, spans[ci], window) {
      assert forall j :: 0 <= j < |consumers| ==> consumers[j] in consumers;
      SameOutcomesSameTables(spans, window, consumers, |consumers|);
    }
    if IndexedCorrelate(spans, window) == Some(ScanCorrelate(spans, window)) {
      forall ci | 0 <= ci < |spans| && spans[ci].IsConsumer() ensures SameOutcome(spans, spans[ci], window) {
        SameTablesSameOutcome(spans, window, ci);
      }
    }
  }

  ghost predicate AllFaithful(spans: seq<Span>, window: int) {
    forall ci :: 0 <= ci < |spans| && spans[ci].IsConsumer() ==> Faithful(spans, spans[ci], window)
  }

  /** The tables of the indexed engine are those of the scan if and only if every consumer is treated faithfully. */
  lemma CorrelateExact(spans: seq<Span>, window: Duration)
    ensures IndexedCorrelate(spans, window) == Some(ScanCorrelate(spans, window)) <==> AllFaithful(spans, window)
  {
    hide IndexedCorrelate, ScanCorrelate, IndexedConsumer, ScanConsumer, Faithful, Span.IsConsumer;
    TablesExact(spans, window);
    forall ci | 0 <= ci < |spans|
      ensures SameOutcome(spans, spans[ci], window) <==> Faithful(spans, spans[ci], window)
    {
      ConsumerExact(spans, spans[ci], window);
    }
  }

  // ---------- Conditions that are easy to check ----------

  /** Systems equal under folding are equal in lower case. */
  predicate SystemsAgree(spans: seq<Span>) {
    forall i, j :: 0 <= i < |spans| && 0 <= j < |spans| && EqualFold(spans[i].system, spans[j].system) ==>
      ToLower(spans[i].system) == ToLower(spans[j].system)
  }

  /** Systems without the long s agree. */
  lemma PlainSystemsAgree(spans: seq<Span>)
    requires forall i :: 0 <= i < |spans| ==> LONG_S !in spans[i].system
    ensures SystemsAgree(spans)
  {
    hide EqualFold, ToLower;
    forall i, j | 0 <= i < |spans| && 0 <= j < |spans| && EqualFold(spans[i].system, spans[j].system)
      ensures ToLower(spans[i].system) == ToLower(spans[j].system)
    {
      FoldedLength(spans[i].system, spans[j].system);
      LowerAgrees(spans[i].system, spans[j].system);
    }
  }

  lemma FoldedLength(a: string, b: string)
    requires EqualFold(a, b) && LONG_S !in a && LONG_S !in b
    ensures SameLongS(a, b)
  {}

  /** The gaps between the producers and the consumer are in range. */
  predicate ConsumerInRange(spans: seq<Span>, c: Span, window: int) {
    forall i :: 0 <= i < |spans| && spans[i].IsProducer() ==> InRange(spans[i], c, window)
  }

  /** No producer ends as long as the largest duration after a consumer starts, nor, if that is the window, ended longer
      than that before. */
  predicate TimesInRange(spans: seq<Span>, window: int) {
    forall ci :: 0 <= ci < |spans| && spans[ci].IsConsumer() ==> ConsumerInRange(spans, spans[ci], window)
  }

  /** The consumer has a route to walk, and announces more messages than there is room for candidates. */
  predicate CrowdedRoute(spans: seq<Span>, c: Span) { Crowded(SortedRoute(spans, c), Limit(c)) }

  predicate BatchesFit(spans: seq<Span>) {
    forall ci :: 0 <= ci < |spans| && spans[ci].IsConsumer() ==> Limit(spans[ci]) <= ROOM
  }

  lemma RouteIsSafe(spans: seq<Span>, c: Span, window: int)
    requires ConsumerInRange(spans, c, window)
    ensures WalkPanics(spans, c, window) <==> CrowdedRoute(spans, c)
    ensures !WalkMisled(spans, c, window)
  {
    SortedRouteSorted(spans, c);
    hide SortBucket, Span.IsProducer, InRange, ReadsBefore, Misled;
    var route := SortedRoute(spans, c);
    forall k | 0 <= k < |route| ensures InRange(spans[route[k]], c, window) {
      assert route[k] in Elements(route);
      BucketHoldsProducers(ByRoute, spans, RouteLookupKey(c), route[k]);
    }
    InRangeIsSafe(spans, route, c, window, Limit(c));
  }

  lemma InRangeNoneMisleads(spans: seq<Span>, c: Span, window: int)
    requires ConsumerInRange(spans, c, window)
    ensures NoneMisleads(spans, c, window)
  {
    hide Compatible, Bucket, IdentityProducer, Span.IsProducer, Span.Identity;
    forall i | 0 <= i < |spans| && i in MessageBucket(spans, c) && Kept(spans, c, window, i)
      ensures Exact(spans[i], c)
    {
      BucketHoldsProducers(ByMessage, spans, MessageKey(c), i);
      assert InRange(spans[i], c, window);
      DeltaExact(spans[i], c);
    }
  }

  /** What the scan matches to the consumer without a context is spelled like it. */
  ghost predicate FallbackSpelled(spans: seq<Span>, c: Span, window: int) {
    var s := ScanConsumer(spans, c, window);
    ConfidenceOf(s.how) != High ==> forall j :: 0 <= j < |s.matches| ==> SameSpelling(spans[s.matches[j]], c)
  }

  lemma FallbackSpelledWhen(spans: seq<Span>, c: Span, window: int, picks: seq<nat>, how: How)
    requires ConfidenceOf(how) != High && ScanConsumer(spans, c, window) == Fallback(c, picks, how)
    ensures FallbackSpelled(spans, c, window) <==> AllSpelled(spans, c, picks)
  {
    hide SameSpelling, ScanConsumer, CountedReferences;
  }

  lemma FallbacksAreNotHigh(c: Span)
    ensures ConfidenceOf(IdentityHow(c)) != High && ConfidenceOf(TimeHeuristic) != High
  {}

  lemma OneSpelled(spans: seq<Span>, c: Span, i: nat)
    requires i < |spans|
    ensures AllSpelled(spans, c, [i]) <==> SameSpelling(spans[i], c)
  {
    hide SameSpelling;
    assert [i][0] == i;
  }

  lemma ContextSpelled(spans: seq<Span>, c: Span, window: int)
    requires LinkedProducers(spans, c, |spans|) != [] || ParentOf(spans, c).Some?
    ensures FallbackSpelled(spans, c, window)
  {
    hide LinkedProducers, ParentOf, ScanConsumer, SameSpelling;
    if LinkedProducers(spans, c, |spans|) != [] {
      LinkOutcomeWellFormed(spans, c, window);
    } else {
      ParentOutcomeWellFormed(spans, c, window);
    }
  }

  lemma NoContextSpelled(spans: seq<Span>, c: Span, window: int)
    requires LinkedProducers(spans, c, |spans|) == [] && ParentOf(spans, c).None?
    ensures var best := if c.Identity() != "" then IdentityProducer(spans, c, window, |spans|) else None;
      FallbackSpelled(spans, c, window)
      <==> if best.Some? then SameSpelling(spans[best.value], c)
           else AllSpelled(spans, c, ScanNearest(spans, c, window, Limit(c), {}))
  {
    hide *;
    ScanFallsBack(spans, c, window);
    FallbacksAreNotHigh(c);
    var best := if c.Identity() != "" then IdentityProducer(spans, c, window, |spans|) else None;
    if best.Some? {
      OneSpelled(spans, c, best.value);
      FallbackSpelledWhen(spans, c, window, [best.value], IdentityHow(c));
    } else {
      FallbackSpelledWhen(spans, c, window, ScanNearest(spans, c, window, Limit(c), {}), TimeHeuristic);
    }
  }

  /** A match of the identity tier keeps the consumer from the walk. */
  lemma FoundIsPicked(spans: seq<Span>, c: Span, window: Duration)
    requires LinkedProducers(spans, c, |spans|) == [] && ParentOf(spans, c).None? && NoneMisleads(spans, c, window)
    ensures var best := if c.Identity() != "" then IdentityProducer(spans, c, window, |spans|) else None;
      best.Some? ==> SameSpelling(spans[best.value], c) ==> !LeftToWalk(spans, c, window)
    ensures var best := if c.Identity() != "" then IdentityProducer(spans, c, window, |spans|) else None;
      best.None? ==> LeftToWalk(spans, c, window)
  {
    hide LinkedProducers, ParentOf, IdentityProducer, IdentityPick, IdentityFound, SameSpelling, NoneMisleads,
         Span.Identity;
    PickExact(spans, c, window);
    PickIsFound(spans, c, window);
  }

  /** With times in range, faithful is spelled alike and not stopped. */
  lemma InRangeConsumer(spans: seq<Span>, c: Span, window: Duration)
    requires ConsumerInRange(spans, c, window)
    ensures Faithful(spans, c, window) <==> FallbackSpelled(spans, c, window) && !Stops(spans, c, window)
  {
    hide SameSpelling, WalkPanics, WalkMisled, LinkedProducers, ParentOf, ScanNearest, IdentityProducer, NoneMisleads,
         AllSpelled, Limit, FallbackSpelled, IdentityFound, ConsumerInRange, Span.Identity;
    RouteIsSafe(spans, c, window);
    InRangeNoneMisleads(spans, c, window);
    if LinkedProducers(spans, c, |spans|) != [] || ParentOf(spans, c).Some? {
      ContextSpelled(spans, c, window);
    } else {
      NoContextSpelled(spans, c, window);
      FoundIsPicked(spans, c, window);
    }
  }

  /** Every match the scan makes without a context joins systems that agree in lower case. */
  ghost predicate FallbacksSpelled(spans: seq<Span>, window: int) {
    forall ci :: 0 <= ci < |spans| && spans[ci].IsConsumer() ==> FallbackSpelled(spans, spans[ci], window)
  }

  /** With times in range, where the program does not stop, only the spelling of systems sets the engine apart from
      the scan. */
  lemma InRangeExact(spans: seq<Span>, window: Duration)
    requires TimesInRange(spans, window)
    ensures AllFaithful(spans, window)
            <==> IndexedCorrelate(spans, window).Some? && FallbacksSpelled(spans, window)
  {
    StopsWhere(spans, window);
    hide IndexedCorrelate, Faithful, FallbackSpelled, Stops, ConsumerInRange, Span.IsConsumer;
    forall ci | 0 <= ci < |spans| && spans[ci].IsConsumer()
      ensures Faithful(spans, spans[ci], window)
              <==> FallbackSpelled(spans, spans[ci], window) && !Stops(spans, spans[ci], window)
    {
      InRangeConsumer(spans, spans[ci], window);
    }
  }

  /** With times in range, only a batch count beyond all room stops the program. */
  lemma InRangeStops(spans: seq<Span>, window: int)
    requires TimesInRange(spans, window)
    ensures IndexedCorrelate(spans, window).None?
            <==> exists ci :: && 0 <= ci < |spans| && spans[ci].IsConsumer()
                              && LeftToWalk(spans, spans[ci], window) && CrowdedRoute(spans, spans[ci])
  {
    StopsWhere(spans, window);
    hide IndexedCorrelate, LeftToWalk, WalkPanics, CrowdedRoute, ConsumerInRange, Span.IsConsumer;
    forall ci | 0 <= ci < |spans| && spans[ci].IsConsumer()
      ensures Stops(spans, spans[ci], window)
              <==> LeftToWalk(spans, spans[ci], window) && CrowdedRoute(spans, spans[ci])
    {
      RouteIsSafe(spans, spans[ci], window);
    }
  }

  lemma FittingNeverStops(spans: seq<Span>, window: int)
    requires TimesInRange(spans, window) && BatchesFit(spans)
    ensures IndexedCorrelate(spans, window).Some?
  {
    hide IndexedCorrelate, LeftToWalk, SortedRoute, TimesInRange, Limit, Span.IsConsumer;
    InRangeStops(spans, window);
  }

  lemma SpelledLike(spans: seq<Span>, ci: nat, i: nat)
    requires SystemsAgree(spans) && ci < |spans| && i < |spans| && Compatible(spans[i], spans[ci])
    ensures SameSpelling(spans[i], spans[ci])
  {}

  lemma ScanSpelled(spans: seq<Span>, ci: nat, window: int)
    requires SystemsAgree(spans) && ci < |spans|
    ensures AllSpelled(spans, spans[ci], ScanNearest(spans, spans[ci], window, Limit(spans[ci]), {}))
  {
    hide SystemsAgree, SameSpelling, ScanNearest, Nearer, Compatible, Gap, Limit;
    var c := spans[ci];
    ScanIsNearest(spans, c, window, Limit(c), {});
    var scan := ScanNearest(spans, c, window, Limit(c), {});
    forall k | 0 <= k < |scan| ensures scan[k] < |spans| && SameSpelling(spans[scan[k]], c) {
      assert scan[k] in Producers(spans) - {} && WithinReach(spans, c, window, scan[k]);
      SpelledLike(spans, ci, scan[k]);
    }
  }

  lemma BestIsCompatible(spans: seq<Span>, c: Span, window: int)
    ensures var best := IdentityProducer(spans, c, window, |spans|);
      best.Some? ==> best.value < |spans| && Compatible(spans[best.value], c)
  {
    hide Compatible;
  }

  /** With systems that agree, all the scan's matches without a context are spelled alike. */
  lemma AgreeingIsSpelled(spans: seq<Span>, window: int)
    requires SystemsAgree(spans)
    ensures FallbacksSpelled(spans, window)
  {
    hide SystemsAgree, FallbackSpelled, SameSpelling, AllSpelled, ScanNearest, LinkedProducers, ParentOf,
         IdentityProducer, Compatible, Limit, Span.IsConsumer, Span.Identity;
    forall ci | 0 <= ci < |spans| ensures FallbackSpelled(spans, spans[ci], window) {
      var c := spans[ci];
      if LinkedProducers(spans, c, |spans|) != [] || ParentOf(spans, c).Some? {
        ContextSpelled(spans, c, window);
      } else {
        NoContextSpelled(spans, c, window);
        ScanSpelled(spans, ci, window);
        BestIsCompatible(spans, c, window);
        var best := IdentityProducer(spans, c, window, |spans|);
        if best.Some? {
          SpelledLike(spans, ci, best.value);
        }
      }
    }
  }

  /** All that holds of a whole run. */
  lemma CorrelateMeaning(spans: seq<Span>, window: Duration)
    ensures IndexedCorrelate(spans, window) == IndexedAll(spans, window, Consumers(spans, |spans|))
    ensures IndexedCorrelate(spans, window).None?
            <==> exists ci :: 0 <= ci < |spans| && spans[ci].IsConsumer() && Stops(spans, spans[ci], window)
    ensures IndexedCorrelate(spans, window).Some? ==>
              && Agree(spans, window, IndexedCorrelate(spans, window).value, |spans|)
              && SameHigh(IndexedCorrelate(spans, window).value, ScanCorrelate(spans, window))
    ensures IndexedCorrelate(spans, window) == Some(ScanCorrelate(spans, window)) <==> AllFaithful(spans, window)
    ensures TimesInRange(spans, window) ==>
              (AllFaithful(spans, window)
               <==> IndexedCorrelate(spans, window).Some? && FallbacksSpelled(spans, window))
    ensures TimesInRange(spans, window) && BatchesFit(spans) ==> IndexedCorrelate(spans, window).Some?
    ensures SystemsAgree(spans) ==> FallbacksSpelled(spans, window)
  {
    IsIndexedAll(spans, window);
    hide *;
    StopsWhere(spans, window);
    if IndexedCorrelate(spans, window).Some? {
      IndexedAgrees(spans, window);
    }
    CorrelateExact(spans, window);
    if TimesInRange(spans, window) {
      InRangeExact(spans, window);
      if BatchesFit(spans) {
        FittingNeverStops(spans, window);
      }
    }
    if SystemsAgree(spans) {
      AgreeingIsSpelled(spans, window);
    }
  }

  lemma IsIndexedAll(spans: seq<Span>, window: int)
    ensures IndexedCorrelate(spans, window) == IndexedAll(spans, window, Consumers(spans, |spans|))
  {}
}
