/** When the tables hold which row, in the fields of the two spans it joins. */
module CorrelationLaws {
  import opened Text
  import opened Spans
  import opened Routes
  import opened Nearest
  import opened RouteWalk
  import opened Tables
  import opened Scan
  import opened ConsumerRows
  import opened ContextTiers
  import opened Indexes
  import opened Indexed
  import opened IndexedRun

  // ---------- What every row says ----------

  /** The row joins a producer with a consumer, and no two explicitly different environments or service namespaces; its
      confidence is that of its method, and its latency the time between the two where a duration can hold it. Found
      without a context, it also joins one system, destination and broker, within the window. */
  predicate SoundRow(spans: seq<Span>, window: int, x: Correlation) {
    && x.producer < |spans| && x.consumer < |spans|
    && var p, c := spans[x.producer], spans[x.consumer];
    && ToLower(p.operationType) in {"create", "send"} && ToLower(c.operationType) in {"process", "receive"}
    && (p.environment == "" || c.environment == "" || p.environment == c.environment)
    && (p.serviceNamespace == "" || c.serviceNamespace == "" || p.serviceNamespace == c.serviceNamespace)
    && (x.how in {SpanLink, ParentContext} <==> x.confidence == High)
    && (x.how == TimeHeuristic <==> x.confidence == Low)
    && (MIN_DURATION <= c.start - p.end <= MAX_DURATION ==> x.queueLatency == c.start - p.end)
    && (x.confidence != High ==> OneRoute(p, c) && (c.start - p.end <= window || window == MAX_DURATION)
                                 && (-window <= c.start - p.end || c.start - p.end <= MIN_DURATION))
  }

  /** One system; one destination, of which RabbitMQ may give a longer form after a colon on either side, and no two
      explicitly different partitions of it; and no two explicitly different namespaces of it or broker addresses. */
  predicate OneRoute(p: Span, c: Span) {
    && p.system != "" && EqualFold(p.system, c.system) && p.destination != "" && c.destination != ""
    && (if EqualFold(p.system, "rabbitmq")
        then || p.destination == c.destination
             || p.destination + ":" <= c.destination || c.destination + ":" <= p.destination
        else && p.destination == c.destination
             && (p.partition == "" || c.partition == "" || p.partition == c.partition))
    && (p.environment == "" || c.environment == "" || p.environment == c.environment)
    && (p.serviceNamespace == "" || c.serviceNamespace == "" || p.serviceNamespace == c.serviceNamespace)
    && (p.destinationNamespace == "" || c.destinationNamespace == ""
        || p.destinationNamespace == c.destinationNamespace)
    && (p.serverAddress == "" || c.serverAddress == "" || p.serverAddress == c.serverAddress)
  }

  lemma CompatibleMeans(p: Span, c: Span)
    ensures Compatible(p, c) <==> OneRoute(p, c)
  {}

  lemma RowSound(spans: seq<Span>, window: int, x: Correlation)
    requires SoundCorrelation(spans, window, x) && window <= MAX_DURATION
    ensures SoundRow(spans, window, x)
  {
    CompatibleMeans(spans[x.producer], spans[x.consumer]);
    hide Compatible, OneRoute, ToLower;
  }

  // ---------- Rows that rest on a context ----------

  predicate HasRow(xs: seq<Correlation>, i: nat, ci: nat, how: How) {
    exists k :: 0 <= k < |xs| && xs[k].producer == i && xs[k].consumer == ci && xs[k].how == how
  }

  /** The context names producer `i` in the scope of consumer `ci`: its two ids, and no explicitly different environment
      or service namespace. */
  predicate Named(spans: seq<Span>, i: nat, ci: nat, traceId: string, spanId: string) {
    && i < |spans| && ci < |spans|
    && ToLower(spans[i].operationType) in {"create", "send"}
    && ValidTraceId(traceId) && ValidSpanId(spanId)
    && spans[i].traceId == traceId && spans[i].spanId == spanId
    && (spans[i].environment == "" || spans[ci].environment == "" || spans[i].environment == spans[ci].environment)
    && (spans[i].serviceNamespace == "" || spans[ci].serviceNamespace == ""
        || spans[i].serviceNamespace == spans[ci].serviceNamespace)
  }

  /** Some link of the consumer names the producer. */
  predicate LinkNamed(spans: seq<Span>, i: nat, ci: nat) {
    && ci < |spans|
    && exists k :: 0 <= k < |spans[ci].links|
                   && Named(spans, i, ci, spans[ci].links[k].traceId, spans[ci].links[k].spanId)
  }

  /** The consumer's parent is the producer. */
  predicate ParentNamed(spans: seq<Span>, i: nat, ci: nat) {
    ci < |spans| && Named(spans, i, ci, spans[ci].traceId, spans[ci].parentSpanId)
  }

  /** A link row for exactly the producers that some link names; where there is none, a parent row for the first
      producer that the parent context names. */
  ghost predicate ContextRows(spans: seq<Span>, xs: seq<Correlation>) {
    && (forall i: nat, ci: nat :: HasRow(xs, i, ci, SpanLink) <==> Consumes(spans, ci) && LinkNamed(spans, i, ci))
    && (forall i: nat, ci: nat ::
          HasRow(xs, i, ci, ParentContext) <==> Consumes(spans, ci) && FirstParent(spans, i, ci))
  }

  predicate Consumes(spans: seq<Span>, ci: nat) {
    ci < |spans| && ToLower(spans[ci].operationType) in {"process", "receive"}
  }

  ghost predicate FirstParent(spans: seq<Span>, i: nat, ci: nat) {
    && ParentNamed(spans, i, ci)
    && (forall j: nat :: !LinkNamed(spans, j, ci))
    && (forall j: nat :: j < i ==> !ParentNamed(spans, j, ci))
  }

  lemma NamedMeans(spans: seq<Span>, i: nat, ci: nat, traceId: string, spanId: string)
    requires i < |spans| && ci < |spans|
    ensures Named(spans, i, ci, traceId, spanId)
            <==> ValidTraceId(traceId) && ValidSpanId(spanId) && Resolves(spans, spans[ci], i, traceId, spanId)
  {
    hide ToLower, ValidTraceId, ValidSpanId;
  }

  lemma LinkNamedMeans(spans: seq<Span>, i: nat, ci: nat)
    requires ci < |spans|
    ensures LinkNamed(spans, i, ci) <==> i in LinkedProducers(spans, spans[ci], |spans|)
  {
    hide LinkedProducers, Named, Resolves, ValidTraceId, ValidSpanId, Span.IsConsumer;
    var links := spans[ci].links;
    if i < |spans| {
      forall k | 0 <= k < |links|
        ensures Named(spans, i, ci, links[k].traceId, links[k].spanId)
                <==> links[k].HasValidContext() && Resolves(spans, spans[ci], i, links[k].traceId, links[k].spanId)
      {
        NamedMeans(spans, i, ci, links[k].traceId, links[k].spanId);
      }
    } else {
      NothingNamed(spans, i, ci);
    }
  }

  lemma NothingNamed(spans: seq<Span>, i: nat, ci: nat)
    requires i >= |spans|
    ensures forall traceId, spanId :: !Named(spans, i, ci, traceId, spanId)
  {}

  /** The first producer that the parent context names, if any. */
  ghost predicate FirstNamed(spans: seq<Span>, ci: nat, found: Option<nat>) {
    forall i: nat :: found == Some(i)
                     <==> ParentNamed(spans, i, ci) && forall j: nat :: j < i ==> !ParentNamed(spans, j, ci)
  }

  lemma ParentNamedMeans(spans: seq<Span>, ci: nat)
    requires ci < |spans|
    ensures FirstNamed(spans, ci, ParentOf(spans, spans[ci]))
    ensures ParentOf(spans, spans[ci]).None? <==> forall i: nat :: !ParentNamed(spans, i, ci)
  {
    hide ParentProducer, Named, Resolves, ValidTraceId, ValidSpanId, Span.IsConsumer;
    var c := spans[ci];
    forall i: nat
      ensures ParentNamed(spans, i, ci)
              <==> i < |spans| && c.HasValidParentContext() && Resolves(spans, c, i, c.traceId, c.parentSpanId)
    {
      if i < |spans| {
        NamedMeans(spans, i, ci, c.traceId, c.parentSpanId);
      } else {
        NothingNamed(spans, i, ci);
      }
    }
    hide ParentNamed;
  }

  // ---------- The rows of one consumer ----------

  lemma {:induction false} RowsOfHold(xs: seq<Correlation>, ci: nat, x: Correlation)
    ensures x in RowsOf(xs, ci) <==> x in xs && x.consumer == ci
  {
    if xs != [] {
      RowsOfHold(xs[..|xs| - 1], ci, x);
      assert xs == xs[..|xs| - 1] + [xs[|xs| - 1]];
    }
  }

  /** The consumer has the rows of its outcome. */
  lemma RowOfOutcome(spans: seq<Span>, window: int, i: nat, ci: nat, how: How)
    requires IndexedCorrelate(spans, window).Some? && ci < |spans| && spans[ci].IsConsumer()
    ensures IndexedConsumer(spans, spans[ci], window).Some?
    ensures var o := IndexedConsumer(spans, spans[ci], window).value;
      HasRow(IndexedCorrelate(spans, window).value.correlations, i, ci, how) <==> o.how == how && i in o.matches
  {
    hide *;
    var consumers, xs := Consumers(spans, |spans|), IndexedCorrelate(spans, window).value.correlations;
    AllConsumers(spans);
    IsIndexedAll(spans, window);
    RunsThrough(spans, window, consumers, |consumers|);
    var j :| 0 <= j < |consumers| && consumers[j] == ci;
    FinishesMeans(spans, consumers, j, window);
    RowsThrough(spans, window, consumers, |consumers|, ci);
    var o := IndexedConsumer(spans, spans[ci], window).value;
    forall x ensures x in RowsOf(xs, ci) <==> x in xs && x.consumer == ci {
      RowsOfHold(xs, ci, x);
    }
    RowsHold(spans, xs, o, i, ci, how);
  }

  lemma FinishesMeans(spans: seq<Span>, consumers: seq<nat>, j: nat, window: int)
    requires InBounds(spans, consumers) && j < |consumers| && Finishes(spans, spans[consumers[j]], window)
    ensures IndexedConsumer(spans, spans[consumers[j]], window).Some?
    ensures InBounds(spans, IndexedConsumer(spans, spans[consumers[j]], window).value.matches)
  {}

  lemma RowsHold(spans: seq<Span>, xs: seq<Correlation>, o: Outcome, i: nat, ci: nat, how: How)
    requires ci < |spans| && InBounds(spans, o.matches) && RowsOf(xs, ci) == Rows(spans, o.matches, ci, o.how)
    requires forall x :: x in RowsOf(xs, ci) <==> x in xs && x.consumer == ci
    ensures HasRow(xs, i, ci, how) <==> o.how == how && i in o.matches
  {
    hide RowsOf;
    var rows := Rows(spans, o.matches, ci, o.how);
    if HasRow(xs, i, ci, how) {
      var k :| 0 <= k < |xs| && xs[k].producer == i && xs[k].consumer == ci && xs[k].how == how;
      assert xs[k] in rows;
    }
    if o.how == how && i in o.matches {
      var k :| 0 <= k < |o.matches| && o.matches[k] == i;
      assert rows[k] in xs;
      var h :| 0 <= h < |xs| && xs[h] == rows[k];
    }
  }

  /** Other spans have no rows. */
  lemma NoRowElsewhere(spans: seq<Span>, window: int, i: nat, ci: nat, how: How)
    requires IndexedCorrelate(spans, window).Some? && !(ci < |spans| && spans[ci].IsConsumer())
    ensures !HasRow(IndexedCorrelate(spans, window).value.correlations, i, ci, how)
  {
    IndexedAgrees(spans, window);
    hide IndexedCorrelate, OneMethodEach, ListsAgree, SetsAgree, ReferencesAgree, SameHigh, ScanCorrelate;
  }

  /** The tiers in order, where nothing faults. */
  lemma OutcomeCases(spans: seq<Span>, c: Span, window: int)
    requires IndexedConsumer(spans, c, window).Some?
    ensures IndexedConsumer(spans, c, window) == TiersOutcome(spans, c, window)
  {
    hide TiersOutcome, WellFormed, ScanConsumer, SameContext;
  }

  lemma ContextMatches(spans: seq<Span>, c: Span, window: int, i: nat)
    requires IndexedConsumer(spans, c, window).Some?
    ensures var o := IndexedConsumer(spans, c, window).value;
      && (o.how == SpanLink && i in o.matches <==> i in LinkedProducers(spans, c, |spans|))
      && (o.how == ParentContext && i in o.matches
          <==> LinkedProducers(spans, c, |spans|) == [] && ParentOf(spans, c) == Some(i))
  {
    OutcomeCases(spans, c, window);
    hide IndexedConsumer, LinkedProducers, ParentOf, IdentityPick, WalkRoute, ValidLinks, UnresolvedLinks,
         CountedReferences;
  }

  lemma ContextRow(spans: seq<Span>, window: int, i: nat, ci: nat)
    requires IndexedCorrelate(spans, window).Some?
    ensures var xs := IndexedCorrelate(spans, window).value.correlations;
      && (HasRow(xs, i, ci, SpanLink) <==> Consumes(spans, ci) && LinkNamed(spans, i, ci))
      && (HasRow(xs, i, ci, ParentContext) <==> Consumes(spans, ci) && FirstParent(spans, i, ci))
  {
    hide *;
    ConsumesMeans(spans, ci);
    if Consumes(spans, ci) {
      RowOfOutcome(spans, window, i, ci, SpanLink);
      RowOfOutcome(spans, window, i, ci, ParentContext);
      ContextMatches(spans, spans[ci], window, i);
      LinkNamedMeans(spans, i, ci);
      NoneLinked(spans, ci);
      ParentNamedMeans(spans, ci);
      FirstParentMeans(spans, i, ci, ParentOf(spans, spans[ci]));
    } else {
      NoRowElsewhere(spans, window, i, ci, SpanLink);
      NoRowElsewhere(spans, window, i, ci, ParentContext);
    }
  }

  lemma ConsumesMeans(spans: seq<Span>, ci: nat)
    ensures Consumes(spans, ci) <==> ci < |spans| && spans[ci].IsConsumer()
  {
    hide ToLower;
  }

  lemma NoneLinked(spans: seq<Span>, ci: nat)
    requires ci < |spans|
    ensures LinkedProducers(spans, spans[ci], |spans|) == [] <==> forall j: nat :: !LinkNamed(spans, j, ci)
  {
    hide LinkedProducers, LinkNamed, Span.IsConsumer;
    var linked := LinkedProducers(spans, spans[ci], |spans|);
    forall j: nat ensures LinkNamed(spans, j, ci) <==> j in linked {
      LinkNamedMeans(spans, j, ci);
    }
    if linked != [] {
      assert LinkNamed(spans, linked[0], ci);
    }
  }

  lemma FirstParentMeans(spans: seq<Span>, i: nat, ci: nat, found: Option<nat>)
    requires FirstNamed(spans, ci, found)
    ensures FirstParent(spans, i, ci) <==> found == Some(i) && forall j: nat :: !LinkNamed(spans, j, ci)
  {
    hide ParentNamed, LinkNamed;
  }

  predicate RowsSound(spans: seq<Span>, window: int, xs: seq<Correlation>) {
    forall k :: 0 <= k < |xs| ==> SoundRow(spans, window, xs[k])
  }

  /** On every input the rows are sound, and those that rest on a context are exactly those the contexts name. */
  lemma RowsByContext(spans: seq<Span>, window: Duration)
    requires IndexedCorrelate(spans, window).Some?
    ensures RowsSound(spans, window, IndexedCorrelate(spans, window).value.correlations)
    ensures ContextRows(spans, IndexedCorrelate(spans, window).value.correlations)
  {
    hide IndexedCorrelate, SoundRow, HasRow, LinkNamed, FirstParent, OneMethodEach, ListsAgree, SetsAgree,
         ReferencesAgree, SameHigh, ScanCorrelate, SoundCorrelation, Consumes;
    var xs := IndexedCorrelate(spans, window).value.correlations;
    IndexedAgrees(spans, window);
    forall k | 0 <= k < |xs| ensures SoundRow(spans, window, xs[k]) {
      RowSound(spans, window, xs[k]);
    }
    forall i: nat, ci: nat
      ensures HasRow(xs, i, ci, SpanLink) <==> Consumes(spans, ci) && LinkNamed(spans, i, ci)
      ensures HasRow(xs, i, ci, ParentContext) <==> Consumes(spans, ci) && FirstParent(spans, i, ci)
    {
      ContextRow(spans, window, i, ci);
    }
  }

  // ---------- Rows without a context ----------

  /** No context of the consumer names a producer. */
  ghost predicate Unnamed(spans: seq<Span>, ci: nat) {
    forall j: nat :: !LinkNamed(spans, j, ci) && !ParentNamed(spans, j, ci)
  }

  /** The producer is on the consumer's route, the system spelled alike, and ended within the window of its start. */
  predicate OnItsRoute(spans: seq<Span>, window: int, i: nat, ci: nat) {
    && i < |spans| && Consumes(spans, ci) && ToLower(spans[i].operationType) in {"create", "send"}
    && OneRoute(spans[i], spans[ci]) && ToLower(spans[i].system) == ToLower(spans[ci].system)
    && -window <= spans[ci].start - spans[i].end <= window
  }

  /** And of the consumer's message. */
  predicate SentMessage(spans: seq<Span>, window: int, i: nat, ci: nat) {
    OnItsRoute(spans, window, i, ci) && spans[i].Identity() == spans[ci].Identity() != ""
  }

  /** No producer sent the message closer in time, and of the equally close none is listed before. */
  ghost predicate ClosestSender(spans: seq<Span>, window: int, i: nat, ci: nat) {
    && Unnamed(spans, ci) && SentMessage(spans, window, i, ci)
    && forall j: nat :: SentMessage(spans, window, j, ci) ==>
         var di, dj := Abs(Gap(spans[i], spans[ci])), Abs(Gap(spans[j], spans[ci]));
         di < dj || (di == dj && i <= j)
  }

  /** The producer is on the route and did not start after the consumer. */
  predicate MayHaveSent(spans: seq<Span>, window: int, i: nat, ci: nat) {
    && OnItsRoute(spans, window, i, ci)
    && (spans[i].start == ZERO_TIME || spans[ci].start == ZERO_TIME || spans[i].start <= spans[ci].start)
  }

  /** Those that may have sent and are preferred to producer `i`. */
  ghost function Preferred(spans: seq<Span>, window: int, i: nat, ci: nat): set<nat>
    requires i < |spans| && ci < |spans|
  {
    set j: nat | j < |spans| && MayHaveSent(spans, window, j, ci) && Nearer(spans, spans[ci], j, i)
  }

  /** Nobody sent the message, and fewer producers are preferred than the consumer took messages. */
  ghost predicate AmongNearest(spans: seq<Span>, window: int, i: nat, ci: nat) {
    && Unnamed(spans, ci) && (forall j: nat :: !SentMessage(spans, window, j, ci))
    && MayHaveSent(spans, window, i, ci)
    && (|Preferred(spans, window, i, ci)| < 1
        || (spans[ci].batchCount.Some? && |Preferred(spans, window, i, ci)| < spans[ci].batchCount.value))
  }

  /** Of a consumer that no context settles: a row for the closest sender of its message; where there is none, rows for
      the nearest producers on its route, as many as it took messages. */
  ghost predicate FallbackRows(spans: seq<Span>, window: int, xs: seq<Correlation>) {
    forall i: nat, ci: nat :: FallbackRowsOf(spans, window, xs, i, ci)
  }

  ghost predicate FallbackRowsOf(spans: seq<Span>, window: int, xs: seq<Correlation>, i: nat, ci: nat) {
    && (HasRow(xs, i, ci, MessagingAttributes)
        <==> ClosestSender(spans, window, i, ci) && spans[ci].messageId != "")
    && (HasRow(xs, i, ci, KafkaOffset) <==> ClosestSender(spans, window, i, ci) && spans[ci].messageId == "")
    && (HasRow(xs, i, ci, TimeHeuristic) <==> AmongNearest(spans, window, i, ci))
  }

  lemma OnRouteMeans(spans: seq<Span>, window: int, i: nat, ci: nat)
    requires i < |spans| && ci < |spans| && spans[ci].IsConsumer()
    ensures OnItsRoute(spans, window, i, ci)
            <==> && spans[i].IsProducer() && Compatible(spans[i], spans[ci]) && SameSpelling(spans[i], spans[ci])
                 && Abs(Gap(spans[i], spans[ci])) <= window
    ensures MayHaveSent(spans, window, i, ci)
            <==> && spans[i].IsProducer() && WithinReach(spans, spans[ci], window, i)
                 && SameSpelling(spans[i], spans[ci])
  {
    hide Compatible, OneRoute, ToLower;
    CompatibleMeans(spans[i], spans[ci]);
  }

  /** With times in range the code keeps exactly the senders of the message, at their true distances. */
  lemma SendersKept(spans: seq<Span>, window: Duration, i: nat, ci: nat)
    requires ci < |spans| && spans[ci].IsConsumer() && spans[ci].Identity() != ""
    requires ConsumerInRange(spans, spans[ci], window) && i < |spans|
    ensures var c := spans[ci];
      && (SentMessage(spans, window, i, ci) <==> i in MessageBucket(spans, c) && Kept(spans, c, window, i))
      && (SentMessage(spans, window, i, ci) ==> Exact(spans[i], c))
  {
    hide OnItsRoute, Bucket, Compatible, SameSpelling, Delta, Span.Identity, Span.IsProducer, Span.IsConsumer, InRange;
    var c := spans[ci];
    OnRouteMeans(spans, window, i, ci);
    CandidatesAre(spans, c, window, i);
    if i in MessageBucket(spans, c) && Kept(spans, c, window, i) {
      BucketHoldsProducers(ByMessage, spans, MessageKey(c), i);
      KeptExact(spans, c, window, i);
    }
  }

  lemma KeptExact(spans: seq<Span>, c: Span, window: int, i: nat)
    requires ConsumerInRange(spans, c, window) && i < |spans| && spans[i].IsProducer() && Kept(spans, c, window, i)
    ensures Exact(spans[i], c)
  {
    hide Compatible, Span.Identity, Span.IsProducer;
    assert InRange(spans[i], c, window);
    DeltaExact(spans[i], c);
  }

  lemma PickIsClosest(spans: seq<Span>, window: Duration, i: nat, ci: nat)
    requires ci < |spans| && spans[ci].IsConsumer() && ConsumerInRange(spans, spans[ci], window) && Unnamed(spans, ci)
    ensures IdentityPick(spans, spans[ci], window) == Some(i) <==> ClosestSender(spans, window, i, ci)
    ensures IdentityPick(spans, spans[ci], window).None? <==> forall j: nat :: !SentMessage(spans, window, j, ci)
  {
    var c := spans[ci];
    if c.Identity() != "" {
      hide SentMessage, Kept, Bucket, Delta, Gap, Span.Identity, Span.IsConsumer, ConsumerInRange, Unnamed;
      forall j: nat | j < |spans|
        ensures SentMessage(spans, window, j, ci) <==> j in MessageBucket(spans, c) && Kept(spans, c, window, j)
        ensures SentMessage(spans, window, j, ci) ==> Exact(spans[j], c)
      {
        SendersKept(spans, window, j, ci);
      }
      assert forall j: nat :: SentMessage(spans, window, j, ci) ==> j < |spans| by { SendersListed(spans, window, ci); }
    }
  }

  lemma SendersListed(spans: seq<Span>, window: int, ci: nat)
    ensures forall j: nat :: SentMessage(spans, window, j, ci) ==> j < |spans|
  {}

  lemma PreferredAhead(spans: seq<Span>, window: int, i: nat, ci: nat)
    requires i < |spans| && ci < |spans| && spans[ci].IsConsumer()
    ensures var route := Elements(SortedRoute(spans, spans[ci]));
      && (forall u :: u in route ==> u < |spans|)
      && (MayHaveSent(spans, window, i, ci) <==> i in route && WithinReach(spans, spans[ci], window, i))
      && Preferred(spans, window, i, ci) == AheadOf(spans, spans[ci], window, route, i)
  {
    hide SortedRoute, MayHaveSent, WithinReach, Nearer, SameSpelling, Span.IsConsumer, Span.IsProducer;
    var c, route := spans[ci], Elements(SortedRoute(spans, spans[ci]));
    RouteProducers(spans, c);
    forall j: nat | j < |spans|
      ensures MayHaveSent(spans, window, j, ci) <==> j in route && WithinReach(spans, c, window, j)
    {
      OnRouteMeans(spans, window, j, ci);
      if spans[j].IsProducer() && WithinReach(spans, c, window, j) {
        OnRoute(spans, c, window, j);
      }
    }
  }

  /** With times in range the walk takes the nearest. */
  lemma WalkTakesNearest(spans: seq<Span>, window: Duration, i: nat, ci: nat)
    requires ci < |spans| && spans[ci].IsConsumer() && ConsumerInRange(spans, spans[ci], window)
    requires WalkRoute(spans, spans[ci], window).Some?
    ensures var picks := CandidateIndices(WalkRoute(spans, spans[ci], window).value);
      i in picks
      <==> && MayHaveSent(spans, window, i, ci)
           && (|Preferred(spans, window, i, ci)| < 1
               || (spans[ci].batchCount.Some? && |Preferred(spans, window, i, ci)| < spans[ci].batchCount.value))
  {
    hide *;
    var c := spans[ci];
    var picks, route := CandidateIndices(WalkRoute(spans, c, window).value), Elements(SortedRoute(spans, c));
    RouteIsSafe(spans, c, window);
    WalkIsNearest(spans, c, window);
    MayHaveSentListed(spans, window, ci);
    if i < |spans| {
      LimitMeans(c, |Preferred(spans, window, i, ci)|);
      PreferredAhead(spans, window, i, ci);
      if i in route {
        NearestByRank(spans, c, window, Limit(c), route, picks, i);
      }
    } else {
      PoolInBounds(spans);
    }
  }

  lemma MayHaveSentListed(spans: seq<Span>, window: int, ci: nat)
    ensures forall j: nat :: MayHaveSent(spans, window, j, ci) ==> j < |spans|
  {}

  lemma LimitMeans(c: Span, n: nat)
    ensures n < Limit(c) <==> n < 1 || (c.batchCount.Some? && n < c.batchCount.value)
  {}

  // ---------- All rows ----------

  lemma ContextIsHigh(spans: seq<Span>, c: Span, window: int)
    requires IndexedConsumer(spans, c, window).Some?
    requires LinkedProducers(spans, c, |spans|) != [] || ParentOf(spans, c).Some?
    ensures ConfidenceOf(IndexedConsumer(spans, c, window).value.how) == High
  {
    OutcomeCases(spans, c, window);
    hide IndexedConsumer, LinkedProducers, ParentOf, ValidLinks, UnresolvedLinks, CountedReferences;
  }

  lemma FallbackHas(c: Span, picks: seq<nat>, how: How)
    ensures Fallback(c, picks, how).how == how && Fallback(c, picks, how).matches == picks
  {}

  lemma FallbackMatches(spans: seq<Span>, c: Span, window: int, i: nat, how: How)
    requires IndexedConsumer(spans, c, window).Some? && ConfidenceOf(how) != High
    ensures var o, picked := IndexedConsumer(spans, c, window).value, IdentityPick(spans, c, window);
      o.how == how && i in o.matches
      <==> && LinkedProducers(spans, c, |spans|) == [] && ParentOf(spans, c).None?
           && if picked.Some? then how == IdentityHow(c) && picked == Some(i)
              else && how == TimeHeuristic && WalkRoute(spans, c, window).Some?
                   && i in CandidateIndices(WalkRoute(spans, c, window).value)
  {
    hide *;
    if LinkedProducers(spans, c, |spans|) != [] || ParentOf(spans, c).Some? {
      ContextIsHigh(spans, c, window);
    } else {
      FallbackIndexed(spans, c, window);
      var picked := IdentityPick(spans, c, window);
      if picked.Some? {
        FallbackHas(c, [picked.value], IdentityHow(c));
      } else {
        FallbackHas(c, CandidateIndices(WalkRoute(spans, c, window).value), TimeHeuristic);
      }
    }
  }

  lemma UnnamedMeans(spans: seq<Span>, ci: nat)
    requires ci < |spans|
    ensures Unnamed(spans, ci)
            <==> LinkedProducers(spans, spans[ci], |spans|) == [] && ParentOf(spans, spans[ci]).None?
  {
    NoneLinked(spans, ci);
    ParentNamedMeans(spans, ci);
    hide LinkedProducers, ParentOf, LinkNamed, ParentNamed;
  }

  lemma HowIdentified(c: Span)
    requires c.Identity() != ""
    ensures IdentityHow(c) == if c.messageId != "" then MessagingAttributes else KafkaOffset
  {}

  lemma SenderIdentified(spans: seq<Span>, window: int, i: nat, ci: nat)
    requires ClosestSender(spans, window, i, ci)
    ensures i < |spans| && ci < |spans| && spans[ci].IsConsumer() && spans[ci].Identity() != ""
  {
    hide ToLower, Unnamed, OneRoute;
  }

  lemma FallbackRow(spans: seq<Span>, window: Duration, i: nat, ci: nat)
    requires IndexedCorrelate(spans, window).Some? && TimesInRange(spans, window)
    ensures FallbackRowsOf(spans, window, IndexedCorrelate(spans, window).value.correlations, i, ci)
  {
    hide *;
    if ci < |spans| && spans[ci].IsConsumer() {
      RowOfConsumer(spans, window, i, ci);
      RowsOfMean(spans, window, IndexedCorrelate(spans, window).value.correlations, i, ci);
    } else {
      NoRowElsewhere(spans, window, i, ci, MessagingAttributes);
      NoRowElsewhere(spans, window, i, ci, KafkaOffset);
      NoRowElsewhere(spans, window, i, ci, TimeHeuristic);
      NoFallbackElsewhere(spans, window, IndexedCorrelate(spans, window).value.correlations, i, ci);
    }
  }

  lemma RowsOfMean(spans: seq<Span>, window: int, xs: seq<Correlation>, i: nat, ci: nat)
    requires ci < |spans|
    requires && (HasRow(xs, i, ci, MessagingAttributes)
                 <==> ClosestSender(spans, window, i, ci) && spans[ci].messageId != "")
             && (HasRow(xs, i, ci, KafkaOffset) <==> ClosestSender(spans, window, i, ci) && spans[ci].messageId == "")
             && (HasRow(xs, i, ci, TimeHeuristic) <==> AmongNearest(spans, window, i, ci))
    ensures FallbackRowsOf(spans, window, xs, i, ci)
  {
    hide HasRow, ClosestSender, AmongNearest;
  }

  lemma InRangeAt(spans: seq<Span>, window: int, ci: nat)
    requires TimesInRange(spans, window) && ci < |spans| && spans[ci].IsConsumer()
    ensures ConsumerInRange(spans, spans[ci], window)
  {}

  lemma FallbacksAre(c: Span)
    ensures ConfidenceOf(MessagingAttributes) != High && ConfidenceOf(KafkaOffset) != High
    ensures ConfidenceOf(TimeHeuristic) != High
    ensures IdentityHow(c) == MessagingAttributes || IdentityHow(c) == KafkaOffset
  {}

  lemma RowOfConsumer(spans: seq<Span>, window: Duration, i: nat, ci: nat)
    requires IndexedCorrelate(spans, window).Some? && TimesInRange(spans, window)
    requires ci < |spans| && spans[ci].IsConsumer()
    ensures var xs := IndexedCorrelate(spans, window).value.correlations;
      && (HasRow(xs, i, ci, MessagingAttributes)
          <==> ClosestSender(spans, window, i, ci) && spans[ci].messageId != "")
      && (HasRow(xs, i, ci, KafkaOffset) <==> ClosestSender(spans, window, i, ci) && spans[ci].messageId == "")
      && (HasRow(xs, i, ci, TimeHeuristic) <==> AmongNearest(spans, window, i, ci))
  {
    hide *;
    var c := spans[ci];
    InRangeAt(spans, window, ci);
    FallbacksAre(c);
    UnnamedMeans(spans, ci);
    RowOfOutcome(spans, window, i, ci, MessagingAttributes);
    RowOfOutcome(spans, window, i, ci, KafkaOffset);
    RowOfOutcome(spans, window, i, ci, TimeHeuristic);
    FallbackMatches(spans, c, window, i, MessagingAttributes);
    FallbackMatches(spans, c, window, i, KafkaOffset);
    FallbackMatches(spans, c, window, i, TimeHeuristic);
    if Unnamed(spans, ci) {
      FallbackIndexed(spans, c, window);
      PickIsClosest(spans, window, i, ci);
      if IdentityPick(spans, c, window).None? {
        WalkTakesNearest(spans, window, i, ci);
      }
    }
    OnlyUnnamed(spans, window, i, ci);
    if ClosestSender(spans, window, i, ci) {
      SenderIdentified(spans, window, i, ci);
      HowIdentified(c);
    }
  }

  lemma OnlyUnnamed(spans: seq<Span>, window: int, i: nat, ci: nat)
    requires ci < |spans|
    ensures ClosestSender(spans, window, i, ci) ==>
              Unnamed(spans, ci) && SentMessage(spans, window, i, ci)
    ensures AmongNearest(spans, window, i, ci)
            <==> && Unnamed(spans, ci) && (forall j: nat :: !SentMessage(spans, window, j, ci))
                 && MayHaveSent(spans, window, i, ci)
                 && (|Preferred(spans, window, i, ci)| < 1
                     || (spans[ci].batchCount.Some? && |Preferred(spans, window, i, ci)| < spans[ci].batchCount.value))
  {
    hide ToLower, OneRoute, Unnamed, SentMessage, Preferred;
  }

  lemma NoFallbackElsewhere(spans: seq<Span>, window: int, xs: seq<Correlation>, i: nat, ci: nat)
    requires !(ci < |spans| && spans[ci].IsConsumer())
    requires !HasRow(xs, i, ci, MessagingAttributes) && !HasRow(xs, i, ci, KafkaOffset)
             && !HasRow(xs, i, ci, TimeHeuristic)
    ensures FallbackRowsOf(spans, window, xs, i, ci)
  {
    hide ToLower, OneRoute, Unnamed, HasRow;
  }

  /** With times in range the rows that rest on no context are exactly those of the closest sender or of the nearest. */
  lemma RowsWithoutContext(spans: seq<Span>, window: Duration)
    requires IndexedCorrelate(spans, window).Some? && TimesInRange(spans, window)
    ensures FallbackRows(spans, window, IndexedCorrelate(spans, window).value.correlations)
  {
    hide IndexedCorrelate, TimesInRange, FallbackRowsOf;
    forall i: nat, ci: nat
      ensures FallbackRowsOf(spans, window, IndexedCorrelate(spans, window).value.correlations, i, ci)
    {
      FallbackRow(spans, window, i, ci);
    }
  }

  // ---------- References that resolve to nothing ----------

  /** The link is a valid context that names no producer. */
  ghost predicate Dangles(spans: seq<Span>, ci: nat, l: Link) {
    && ValidTraceId(l.traceId) && ValidSpanId(l.spanId)
    && forall i: nat :: !Named(spans, i, ci, l.traceId, l.spanId)
  }

  /** Some link of the consumer dangles, or no context of it names a producer and it has a valid parent. */
  ghost predicate Dangling(spans: seq<Span>, ci: nat)
    requires ci < |spans|
  {
    || (exists k :: 0 <= k < |spans[ci].links| && Dangles(spans, ci, spans[ci].links[k]))
    || (ValidTraceId(spans[ci].traceId) && ValidSpanId(spans[ci].parentSpanId) && Unnamed(spans, ci))
  }

  predicate Lost(spans: seq<Span>, c: Span, l: Link) { l.HasValidContext() && !LinkResolved(spans, c, l) }

  lemma {:induction false} SomeLost(spans: seq<Span>, c: Span, links: seq<Link>)
    ensures UnresolvedLinks(spans, c, links) > 0 <==> exists k :: 0 <= k < |links| && Lost(spans, c, links[k])
  {
    if links != [] {
      var front := links[..|links| - 1];
      SomeLost(spans, c, front);
      hide LinkResolved, Link.HasValidContext;
      assert forall k :: 0 <= k < |front| ==> front[k] == links[k];
    }
  }

  lemma LostDangles(spans: seq<Span>, ci: nat, l: Link)
    requires ci < |spans|
    ensures Lost(spans, spans[ci], l) <==> Dangles(spans, ci, l)
  {
    hide Named, Resolves, ValidTraceId, ValidSpanId;
    forall i: nat
      ensures Named(spans, i, ci, l.traceId, l.spanId)
              <==> i < |spans| && l.HasValidContext() && Resolves(spans, spans[ci], i, l.traceId, l.spanId)
    {
      if i < |spans| {
        NamedMeans(spans, i, ci, l.traceId, l.spanId);
      } else {
        NothingNamed(spans, i, ci);
      }
    }
  }

  lemma SomeDangle(spans: seq<Span>, ci: nat)
    requires ci < |spans|
    ensures UnresolvedLinks(spans, spans[ci], spans[ci].links) > 0
            <==> exists k :: 0 <= k < |spans[ci].links| && Dangles(spans, ci, spans[ci].links[k])
  {
    hide Lost, Dangles, UnresolvedLinks;
    var links := spans[ci].links;
    SomeLost(spans, spans[ci], links);
    forall k | 0 <= k < |links| ensures Lost(spans, spans[ci], links[k]) <==> Dangles(spans, ci, links[k]) {
      LostDangles(spans, ci, links[k]);
    }
  }

  lemma UnresolvedOutcome(spans: seq<Span>, c: Span, window: int)
    requires IndexedConsumer(spans, c, window).Some?
    ensures IndexedConsumer(spans, c, window).value.unresolved > 0
            <==> || UnresolvedLinks(spans, c, c.links) > 0
                 || (&& LinkedProducers(spans, c, |spans|) == [] && ParentOf(spans, c).None?
                     && c.HasValidParentContext())
  {
    if LinkedProducers(spans, c, |spans|) == [] {
      NoLinkMatched(spans, c);
    }
    OutcomeCases(spans, c, window);
    hide IndexedConsumer, LinkedProducers, ParentProducer, IdentityPick, WalkRoute, ValidLinks, UnresolvedLinks;
  }

  lemma CountsEntered(t: Table, spans: seq<Span>, ci: nat, o: Outcome, of: nat)
    requires ci < |spans| && InBounds(spans, o.matches)
    ensures AddOutcome(t, spans, ci, o).Unresolved(of) == t.Unresolved(of) + if of == ci then o.unresolved else 0
  {
    hide Rows, Consecutive;
  }

  lemma {:induction false} CountsThrough(spans: seq<Span>, window: int, consumers: seq<nat>, k: nat, ci: nat)
    requires InBounds(spans, consumers) && Ascending(consumers) && k <= |consumers| && ci < |spans|
    requires IndexedAll(spans, window, consumers[..k]).Some? && IndexedConsumer(spans, spans[ci], window).Some?
    ensures IndexedAll(spans, window, consumers[..k]).value.Unresolved(ci)
         == if ci in consumers[..k] then IndexedConsumer(spans, spans[ci], window).value.unresolved else 0
  {
    hide *;
    if k == 0 {
      NoConsumers(spans, window, consumers);
      NothingCounted(ci);
    } else {
      var last := consumers[k - 1];
      PrefixInBounds(spans, consumers, k - 1);
      IndexedStep(spans, window, consumers, k - 1);
      CountsThrough(spans, window, consumers, k - 1, ci);
      OutcomeInBounds(spans, last, window);
      CountsEntered(IndexedAll(spans, window, consumers[..k - 1]).value, spans, last,
                    IndexedConsumer(spans, spans[last], window).value, ci);
      NewestConsumer(consumers, k, ci);
    }
  }

  lemma NothingCounted(ci: nat)
    ensures EMPTY_TABLE.Unresolved(ci) == 0
  {}

  lemma OutcomeInBounds(spans: seq<Span>, ci: nat, window: int)
    requires ci < |spans| && IndexedConsumer(spans, spans[ci], window).Some?
    ensures InBounds(spans, IndexedConsumer(spans, spans[ci], window).value.matches)
  {}

  /** On every input a consumer has an unresolved reference exactly when some link of it dangles, or none of its
      contexts names a producer and it has a valid parent. */
  lemma UnresolvedExactly(spans: seq<Span>, window: int, ci: nat)
    requires IndexedCorrelate(spans, window).Some? && ci < |spans| && spans[ci].IsConsumer()
    ensures IndexedCorrelate(spans, window).value.Unresolved(ci) > 0 <==> Dangling(spans, ci)
  {
    hide *;
    var consumers := Consumers(spans, |spans|);
    AllConsumers(spans);
    IsIndexedAll(spans, window);
    RunsThrough(spans, window, consumers, |consumers|);
    var j :| 0 <= j < |consumers| && consumers[j] == ci;
    FinishesMeans(spans, consumers, j, window);
    CountsThrough(spans, window, consumers, |consumers|, ci);
    UnresolvedOutcome(spans, spans[ci], window);
    SomeDangle(spans, ci);
    UnnamedMeans(spans, ci);
    DanglingMeans(spans, ci);
  }

  lemma DanglingMeans(spans: seq<Span>, ci: nat)
    requires ci < |spans|
    ensures Dangling(spans, ci)
            <==> || (exists k :: 0 <= k < |spans[ci].links| && Dangles(spans, ci, spans[ci].links[k]))
                 || (spans[ci].HasValidParentContext() && Unnamed(spans, ci))
  {
    hide Dangles, Unnamed, ValidTraceId, ValidSpanId;
  }
}
