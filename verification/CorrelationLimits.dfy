/** Inputs on which the correlation engine does not do what the quadratic scan does: a pair of spans
    each, for every window that the configuration admits. */
module CorrelationLimits {
  import opened Text
  import opened Spans
  import opened Routes
  import opened Nearest
  import opened RouteWalk
  import opened Scan
  import opened Indexes
  import opened Indexed
  import opened IndexedRun

  function Sender(system: string, end: Time): Span {
    BLANK.(operationType := "send", system := system, destination := "q", end := end)
  }

  function Receiver(system: string, start: Time): Span {
    BLANK.(operationType := "process", system := system, destination := "q", start := start)
  }

  lemma Roles(system: string, t: Time)
    ensures Sender(system, t).IsProducer() && !Sender(system, t).IsConsumer()
    ensures Receiver(system, t).IsConsumer() && !Receiver(system, t).IsProducer()
  {
    var s, p := ToLower("send"), ToLower("process");
    assert |s| == 4 && |p| == 7;
    assert s == "send" && p == "process";
  }

  /** Neither span carries a context. */
  lemma NoContext(p: Span, c: Span)
    requires c.links == [] && !c.HasValidParentContext()
    ensures LinkedProducers([p, c], c, 2) == [] && ParentOf([p, c], c) == None
  {
    hide ValidTraceId, ValidSpanId, StrongScopeCompatible, Span.IsProducer;
    assert LinkedProducers([p, c], c, 0) == [];
    assert LinkedProducers([p, c], c, 1) == [];
  }

  lemma BlankHasNoParent(system: string, start: Time)
    ensures Receiver(system, start).links == [] && !Receiver(system, start).HasValidParentContext()
    ensures Receiver(system, start).Identity() == "" && Limit(Receiver(system, start)) == 1
  {
    assert !ValidTraceId("");
  }

  // ---------- The long s ----------

  /** Compatible spans whose systems differ in the long s, at a distance within the window. */
  lemma LongSPair(t: Time)
    ensures var p, c := Sender([LONG_S], t), Receiver("s", t);
      Compatible(p, c) && Accepts(p, c) && !SameSpelling(p, c) && Gap(p, c) == 0
  {
    var p, c := Sender([LONG_S], t), Receiver("s", t);
    assert ToLower(p.system)[0] == LONG_S && ToLower(c.system)[0] == 's';
    assert !EqualFold(p.system, "rabbitmq");
  }

  lemma LongSScan(t: Time, window: int)
    requires window > 0
    ensures var p, c := Sender([LONG_S], t), Receiver("s", t);
      ScanNearest([p, c], c, window, 1, {}) == [0]
  {
    var p, c := Sender([LONG_S], t), Receiver("s", t);
    LongSPair(t);
    Roles([LONG_S], t);
    Roles("s", t);
    hide Compatible, Accepts, Span.IsProducer, Nearer;
    assert WithinReach([p, c], c, window, 0);
    var best := BestProducer([p, c], c, window, {}, 2);
    assert best.Some? && best.value < 2 && [p, c][best.value].IsProducer();
    assert best == Some(0);
    assert ScanNearest([p, c], c, window, 0, {0}) == [];
  }

  lemma PairInRange(p: Span, c: Span, window: int)
    requires !p.IsConsumer() && !c.IsProducer() && InRange(p, c, window)
    ensures TimesInRange([p, c], window)
  {
    hide Span.IsProducer, Span.IsConsumer, InRange;
  }

  lemma PairUnspelled(p: Span, c: Span, window: int)
    requires LinkedProducers([p, c], c, 2) == [] && ParentOf([p, c], c) == None && c.Identity() == ""
    requires ScanNearest([p, c], c, window, Limit(c), {}) == [0] && !SameSpelling(p, c)
    ensures !FallbackSpelled([p, c], c, window)
  {
    hide LinkedProducers, ParentOf, ScanNearest, ScanConsumer, CountedReferences, SameSpelling, Span.Identity, Limit,
         IdentityProducer, IdentityHow;
    ScanFallsBack([p, c], c, window);
    assert ScanConsumer([p, c], c, window).matches[0] == 0;
  }

  /** A system written with the long s folds to one written with an s, so the two spans are compatible, and the
      scan matches them; but they are filed under different routes, so that the engine does not. */
  lemma LongSMissed(t: Time, window: Duration)
    requires window > 0
    ensures var spans := [Sender([LONG_S], t), Receiver("s", t)];
      && ScanNearest(spans, spans[1], window, 1, {}) == [0]
      && IndexedCorrelate(spans, window).Some?
      && IndexedCorrelate(spans, window) != Some(ScanCorrelate(spans, window))
  {
    hide *;
    var p, c := Sender([LONG_S], t), Receiver("s", t);
    LongSPair(t);
    LongSScan(t, window);
    Roles([LONG_S], t);
    Roles("s", t);
    BlankHasNoParent("s", t);
    NoContext(p, c);
    NoGapInRange(p, c, window);
    PairInRange(p, c, window);
    PairUnspelled(p, c, window);
    CorrelateMeaning([p, c], window);
    NotSpelled([p, c], 1, window);
    OneBatch([p, c]);
  }

  lemma NoGapInRange(p: Span, c: Span, window: int)
    requires Gap(p, c) == 0
    ensures InRange(p, c, window)
  {}

  lemma OneBatch(spans: seq<Span>)
    requires |spans| == 2 && !spans[0].IsConsumer() && Limit(spans[1]) == 1
    ensures BatchesFit(spans)
  {
    hide Limit, Span.IsConsumer;
  }

  lemma NotSpelled(spans: seq<Span>, ci: nat, window: int)
    requires ci < |spans| && spans[ci].IsConsumer() && !FallbackSpelled(spans, spans[ci], window)
    ensures !FallbacksSpelled(spans, window)
  {}

  // ---------- The faults ----------

  /** The route of two spans one of which may have fed the other. */
  lemma PairRoute(p: Span, c: Span)
    requires p.IsProducer() && !c.IsProducer() && Compatible(p, c) && p.system == c.system
    ensures SortedRoute([p, c], c) == [0]
  {
    CompatibleSharesRoute(p, c);
    hide Span.IsProducer, RouteLookupKey, Compatible, Span.Identity;
    var spans, key := [p, c], RouteLookupKey(c);
    assert Bucket(ByRoute, spans, 0, key) == [];
    assert Bucket(ByRoute, spans, 1, key) == [0];
    assert Bucket(ByRoute, spans, 2, key) == [0];
    assert SortBucket(spans, []) == [];
    assert SortBucket(spans, [0]) == [0];
  }

  lemma PlainPair(end: Time, start: Time)
    ensures Compatible(Sender("s", end), Receiver("s", start))
  {
    assert !EqualFold("s", "rabbitmq");
  }

  /** A consumer that has no context or identity and whose walk faults stops the program. */
  lemma PairStops(p: Span, c: Span, window: int)
    requires c.links == [] && !c.HasValidParentContext() && c.Identity() == "" && c.IsConsumer()
    requires WalkPanics([p, c], c, window)
    ensures Stops([p, c], [p, c][1], window) && IndexedCorrelate([p, c], window) == None
  {
    hide *;
    NoContext(p, c);
    WalkFaultStops([p, c], c, window);
    StopsWhere([p, c], window);
    assert [p, c][1] == c && Stops([p, c], [p, c][1], window);
  }

  lemma WalkFaultStops(spans: seq<Span>, c: Span, window: int)
    requires LinkedProducers(spans, c, |spans|) == [] && ParentOf(spans, c) == None && c.Identity() == ""
    requires WalkPanics(spans, c, window)
    ensures Stops(spans, c, window)
  {
    hide LinkedProducers, ParentOf, WalkPanics, Span.Identity;
  }

  lemma LargestGapPanics(start: Time, window: int)
    ensures var spans := [Sender("s", start + MAX_DURATION), Receiver("s", start)];
      WalkPanics(spans, spans[1], window)
  {
    var p, c := Sender("s", start + MAX_DURATION), Receiver("s", start);
    Roles("s", start + MAX_DURATION);
    Roles("s", start);
    PlainPair(start + MAX_DURATION, start);
    PairRoute(p, c);
    SortedRouteSorted([p, c], c);
    hide SortedRoute, Limit, Accepts, Span.IsProducer, Compatible;
    assert PanicsAt([p, c], [0], c, window, Limit(c), 0);
  }

  /** One producer that ends the largest duration after the consumer starts stops the program. */
  lemma WalkFaults(start: Time, window: Duration)
    requires window > 0
    ensures var spans := [Sender("s", start + MAX_DURATION), Receiver("s", start)];
      Stops(spans, spans[1], window) && IndexedCorrelate(spans, window) == None
  {
    Roles("s", start);
    BlankHasNoParent("s", start);
    LargestGapPanics(start, window);
    hide WalkPanics, IndexedCorrelate, Stops, Span.IsConsumer, Span.Identity;
    PairStops(Sender("s", start + MAX_DURATION), Receiver("s", start), window);
  }

  lemma BigBatch(t: Time, count: int)
    requires count > ROOM
    ensures var p, c := Sender("s", t), Receiver("s", t).(batchCount := Some(count));
      && p.IsProducer() && !p.IsConsumer() && c.IsConsumer() && !c.IsProducer() && c.Identity() == ""
      && c.links == [] && !c.HasValidParentContext() && Compatible(p, c) && Limit(c) == count && Gap(p, c) == 0
  {
    Roles("s", t);
    BlankHasNoParent("s", t);
    PlainPair(t, t);
  }

  lemma BigBatchPanics(p: Span, c: Span, window: int)
    requires p.IsProducer() && !c.IsProducer() && Compatible(p, c) && p.system == c.system && Limit(c) > ROOM
    ensures WalkPanics([p, c], c, window)
  {
    PairRoute(p, c);
    hide SortedRoute, Limit, Compatible, Span.IsProducer, ReadsBefore;
  }

  /** A consumer that announces more messages than there is room for candidates stops the program, at any window and
      with all times in range. */
  lemma BatchCountFaults(t: Time, count: int, window: Duration)
    requires window > 0 && count > ROOM
    ensures var spans := [Sender("s", t), Receiver("s", t).(batchCount := Some(count))];
      && TimesInRange(spans, window)
      && Stops(spans, spans[1], window) && IndexedCorrelate(spans, window) == None
  {
    var p, c := Sender("s", t), Receiver("s", t).(batchCount := Some(count));
    BigBatch(t, count);
    assert p.system == c.system;
    hide *;
    NoGapInRange(p, c, window);
    PairInRange(p, c, window);
    BigBatchPanics(p, c, window);
    PairStops(p, c, window);
  }

  // ---------- The overflow ----------

  lemma OverflowUnfaithful(p: Span, c: Span, window: Duration)
    requires LinkedProducers([p, c], c, 2) == [] && ParentOf([p, c], c) == None && c.Identity() != ""
    requires 0 in MessageBucket([p, c], c) && Kept([p, c], c, window, 0) && !Exact(p, c)
    requires p.IsProducer() && !c.IsProducer()
    ensures IdentityPick([p, c], c, window) == Some(0) && !Faithful([p, c], c, window)
  {
    hide LinkedProducers, ParentOf, Kept, Span.IsProducer, Span.Identity, MessageBucket, WalkPanics, WalkMisled,
         IdentityProducer, SameSpelling, AllSpelled, IdentityPick, Exact, NoneMisleads, SameMessage;
    var spans := [p, c];
    PickIsFound(spans, c, window);
    assert IdentityFound(spans, c, window);
    assert spans[IdentityPick(spans, c, window).value].IsProducer();
    KeptMeaning(spans, c, window, 0);
    IdentityTierExact(spans, c, window);
  }

  /** A consumer without a start time is within any window of a producer of our time: the identity tier keeps the
      producer although their true distance exceeds the window, and the engine correlates what the scan does not. */
  lemma ZeroStartMatchesAll(end: Time, window: Duration)
    requires end > MAX_DURATION && window > 0
    ensures var spans := [Sender("s", end).(messageId := "m"), Receiver("s", ZERO_TIME).(messageId := "m")];
      && IdentityPick(spans, spans[1], window) == Some(0) && Abs(Gap(spans[0], spans[1])) > window
      && IndexedCorrelate(spans, window) != Some(ScanCorrelate(spans, window))
  {
    var p, c := Sender("s", end).(messageId := "m"), Receiver("s", ZERO_TIME).(messageId := "m");
    MessageRoles(end);
    NoContext(p, c);
    OverflowKept(end, window);
    assert Abs(Gap(p, c)) > window;
    hide *;
    OverflowUnfaithful(p, c, window);
    NotFaithful([p, c], 1, window);
    CorrelateMeaning([p, c], window);
  }

  lemma NotFaithful(spans: seq<Span>, ci: nat, window: int)
    requires ci < |spans| && spans[ci].IsConsumer() && !Faithful(spans, spans[ci], window)
    ensures !AllFaithful(spans, window)
  {
    hide Faithful;
  }

  lemma MessageRoles(end: Time)
    ensures var p, c := Sender("s", end).(messageId := "m"), Receiver("s", ZERO_TIME).(messageId := "m");
      && p.IsProducer() && !c.IsProducer() && c.IsConsumer()
      && p.Identity() == c.Identity() == "m" && c.links == [] && !c.HasValidParentContext()
  {
    Roles("s", end);
    Roles("s", ZERO_TIME);
    assert !ValidTraceId("");
  }

  lemma OverflowKept(end: Time, window: Duration)
    requires end > MAX_DURATION && window > 0
    ensures var spans := [Sender("s", end).(messageId := "m"), Receiver("s", ZERO_TIME).(messageId := "m")];
      && 0 in MessageBucket(spans, spans[1]) && Kept(spans, spans[1], window, 0) && !Exact(spans[0], spans[1])
  {
    var p, c := Sender("s", end).(messageId := "m"), Receiver("s", ZERO_TIME).(messageId := "m");
    var spans := [p, c];
    MessageRoles(end);
    assert Compatible(p, c) by { assert !EqualFold("s", "rabbitmq"); }
    DeltaExact(p, c);
    hide Span.Identity, Compatible, Bucket, Span.IsProducer;
    MessageBucketExact(spans, c, 0);
  }
}
