/** What the indexed engine does with one consumer, as a function of its input: the outcome, when the
    walk stops the program instead, and exactly when the outcome is that of the quadratic scan. */
module Indexed {
  import opened Spans
  import opened Routes
  import opened Nearest
  import opened RouteWalk
  import opened Tables
  import opened Scan
  import opened ContextTiers
  import opened Indexes

  // ---------- Tier 3: one broker identity ----------

  /** A producer from the message index that the code keeps. */
  predicate Kept(spans: seq<Span>, c: Span, window: int, i: nat)
    requires i < |spans|
  {
    spans[i].Identity() == c.Identity() && Compatible(spans[i], c) && Delta(spans[i], c) <= window
  }

  function MessageBucket(spans: seq<Span>, c: Span): seq<nat> { Bucket(ByMessage, spans, |spans|, MessageKey(c)) }

  /** The code's order on candidates: by computed distance, then index. */
  predicate Closer(spans: seq<Span>, c: Span, i: nat, j: nat)
    requires i < |spans| && j < |spans|
  {
    Delta(spans[i], c) < Delta(spans[j], c) || (Delta(spans[i], c) == Delta(spans[j], c) && i < j)
  }

  /** The first of the sorted candidates: the closest of those kept. */
  function LeastKept(spans: seq<Span>, c: Span, window: int, bucket: seq<nat>): (r: Option<nat>)
    requires InBounds(spans, bucket)
    ensures r.Some? ==> r.value in bucket && r.value < |spans| && Kept(spans, c, window, r.value)
    ensures forall i :: i in bucket && Kept(spans, c, window, i) ==>
              r.Some? && (i == r.value || Closer(spans, c, r.value, i))
  {
    if bucket == [] then None
    else
      var r, i := LeastKept(spans, c, window, bucket[..|bucket| - 1]), bucket[|bucket| - 1];
      assert forall j :: j in bucket ==> j == i || j in bucket[..|bucket| - 1];
      if Kept(spans, c, window, i) && (r.None? || Closer(spans, c, i, r.value)) then Some(i) else r
  }

  function IdentityPick(spans: seq<Span>, c: Span, window: int): (r: Option<nat>)
    ensures r.Some? ==> r.value < |spans| && spans[r.value].IsProducer() && Kept(spans, c, window, r.value)
  {
    if c.Identity() == "" then None
    else
      var r := LeastKept(spans, c, window, MessageBucket(spans, c));
      if r.Some? then BucketHoldsProducers(ByMessage, spans, MessageKey(c), r.value); r else None
  }

  /** Some producer filed under the consumer's message is kept. */
  predicate IdentityFound(spans: seq<Span>, c: Span, window: int) {
    c.Identity() != "" && exists i :: 0 <= i < |spans| && i in MessageBucket(spans, c) && Kept(spans, c, window, i)
  }

  lemma PickIsFound(spans: seq<Span>, c: Span, window: int)
    ensures IdentityPick(spans, c, window).Some? <==> IdentityFound(spans, c, window)
  {
    hide Kept, Span.Identity, Bucket;
  }

  // ---------- Tier 4: the walk over the consumer's route ----------

  /** The bucket the walk for one consumer runs over. */
  function SortedRoute(spans: seq<Span>, c: Span): seq<nat> {
    SortBucket(spans, Bucket(ByRoute, spans, |spans|, RouteLookupKey(c)))
  }

  lemma SortedRouteSorted(spans: seq<Span>, c: Span)
    ensures SortedByEnd(spans, SortedRoute(spans, c))
    ensures Elements(SortedRoute(spans, c)) == Elements(Bucket(ByRoute, spans, |spans|, RouteLookupKey(c)))
  {
    SortBucketSorts(spans, Bucket(ByRoute, spans, |spans|, RouteLookupKey(c)));
  }

  function WalkRoute(spans: seq<Span>, c: Span, window: int): Option<seq<Candidate>> {
    SortedRouteSorted(spans, c);
    WalkAll(spans, SortedRoute(spans, c), c, window, Limit(c))
  }

  ghost predicate WalkPanics(spans: seq<Span>, c: Span, window: int) {
    SortedRouteSorted(spans, c);
    Panics(spans, SortedRoute(spans, c), c, window, Limit(c))
  }

  ghost predicate WalkMisled(spans: seq<Span>, c: Span, window: int) {
    SortedRouteSorted(spans, c);
    Misled(spans, SortedRoute(spans, c), c, window, Limit(c))
  }

  lemma RouteProducers(spans: seq<Span>, c: Span)
    ensures SortedByEnd(spans, SortedRoute(spans, c)) && Elements(SortedRoute(spans, c)) <= Producers(spans)
  {
    SortedRouteSorted(spans, c);
    hide SortBucket, Span.IsProducer;
    forall i | i in Elements(SortedRoute(spans, c)) ensures i in Producers(spans) {
      BucketHoldsProducers(ByRoute, spans, RouteLookupKey(c), i);
    }
  }

  /** Everything the walk picked is a producer that may have fed the consumer within the window. */
  ghost predicate PickedSound(spans: seq<Span>, c: Span, window: int, picks: seq<nat>) {
    && (forall j :: 0 <= j < |picks| ==>
          && picks[j] < |spans|
          && spans[picks[j]].IsProducer()
          && Accepts(spans[picks[j]], c)
          && Delta(spans[picks[j]], c) <= window)
    && (forall i, j :: 0 <= i < j < |picks| ==> picks[i] != picks[j])
  }

  /** What the walk's answer means for the consumer, on every input. */
  lemma WalkRouteMeaning(spans: seq<Span>, c: Span, window: int)
    ensures WalkRoute(spans, c, window).None? <==> WalkPanics(spans, c, window)
    ensures WalkRoute(spans, c, window).Some? ==>
              PickedSound(spans, c, window, CandidateIndices(WalkRoute(spans, c, window).value))
  {
    hide SortedRoute, WalkAll, Panics, Misled, SortedByEnd, IsNearest, PickedSound, Sound, Limit, Producers;
    RouteProducers(spans, c);
    WalkAnswers(spans, SortedRoute(spans, c), c, window, Limit(c));
    if WalkRoute(spans, c, window).Some? {
      SoundPicks(spans, c, window, WalkRoute(spans, c, window).value);
    }
  }

  lemma SoundPicks(spans: seq<Span>, c: Span, window: int, out: seq<Candidate>)
    requires Elements(SortedRoute(spans, c)) <= Producers(spans) && Sound(spans, SortedRoute(spans, c), c, window, out)
    ensures PickedSound(spans, c, window, CandidateIndices(out))
  {
    hide SortedRoute, Accepts, Delta, Span.IsProducer;
    forall j | 0 <= j < |out| ensures spans[out[j].index].IsProducer() {
      assert out[j].index in Elements(SortedRoute(spans, c));
    }
  }

  // ---------- One consumer ----------

  ghost function LinkOutcome(spans: seq<Span>, c: Span): (o: Outcome)
    ensures InBounds(spans, o.matches)
  {
    Outcome(LinkedProducers(spans, c, |spans|), SpanLink, ValidLinks(c.links), UnresolvedLinks(spans, c, c.links))
  }

  /** The references counted when no link matched. */
  function CountedReferences(c: Span): nat { ValidLinks(c.links) + if c.HasValidParentContext() then 1 else 0 }

  function ParentOf(spans: seq<Span>, c: Span): Option<nat> {
    if c.HasValidParentContext() then ParentProducer(spans, c, |spans|) else None
  }

  ghost function ParentOutcome(c: Span, pi: nat): Outcome {
    Outcome([pi], ParentContext, CountedReferences(c), ValidLinks(c.links))
  }

  ghost function Fallback(c: Span, picks: seq<nat>, how: How): Outcome {
    Outcome(picks, how, CountedReferences(c), CountedReferences(c))
  }

  lemma LinkOutcomeWellFormed(spans: seq<Span>, c: Span, window: int)
    requires LinkedProducers(spans, c, |spans|) != []
    ensures WellFormed(spans, c, window, LinkOutcome(spans, c))
    ensures ScanConsumer(spans, c, window) == LinkOutcome(spans, c)
  {
    LinkedIffResolved(spans, c);
    var linked := LinkedProducers(spans, c, |spans|);
    forall j | 0 <= j < |linked| ensures spans[linked[j]].IsProducer() && StrongScopeCompatible(spans[linked[j]], c) {
      assert linked[j] in linked;
    }
  }

  lemma NoLinkMatched(spans: seq<Span>, c: Span)
    requires LinkedProducers(spans, c, |spans|) == []
    ensures UnresolvedLinks(spans, c, c.links) == ValidLinks(c.links)
    ensures CountedReferences(c) > 0 <==> CarriesContext(c)
  {
    LinkedIffResolved(spans, c);
  }

  lemma OneMatchWellFormed(spans: seq<Span>, c: Span, window: int, pi: nat, references: nat, unresolved: nat)
    requires pi < |spans| && spans[pi].IsProducer() && StrongScopeCompatible(spans[pi], c)
    requires unresolved < references && CarriesContext(c)
    ensures WellFormed(spans, c, window, Outcome([pi], ParentContext, references, unresolved))
  {}

  lemma ParentOutcomeWellFormed(spans: seq<Span>, c: Span, window: int)
    requires LinkedProducers(spans, c, |spans|) == [] && ParentOf(spans, c).Some?
    ensures WellFormed(spans, c, window, ParentOutcome(c, ParentOf(spans, c).value))
    ensures ScanConsumer(spans, c, window) == ParentOutcome(c, ParentOf(spans, c).value)
  {
    NoLinkMatched(spans, c);
    OneMatchWellFormed(spans, c, window, ParentOf(spans, c).value, CountedReferences(c), ValidLinks(c.links));
  }

  lemma CompatibleInScope(p: Span, c: Span)
    requires Compatible(p, c)
    ensures StrongScopeCompatible(p, c)
  {}

  /** Distinct producers that may have fed the consumer, within the computed window. */
  ghost predicate FallbackPicks(spans: seq<Span>, c: Span, window: int, picks: seq<nat>) {
    && (forall j :: 0 <= j < |picks| ==>
          && picks[j] < |spans| && spans[picks[j]].IsProducer() && Compatible(spans[picks[j]], c)
          && Delta(spans[picks[j]], c) <= window)
    && (forall i, j :: 0 <= i < j < |picks| ==> picks[i] != picks[j])
  }

  lemma FallbackWellFormed(spans: seq<Span>, c: Span, window: int, picks: seq<nat>, how: How)
    requires LinkedProducers(spans, c, |spans|) == [] && FallbackPicks(spans, c, window, picks)
    requires ConfidenceOf(how) != High && (ConfidenceOf(how) == Medium ==> |picks| == 1)
    ensures WellFormed(spans, c, window, Fallback(c, picks, how))
  {
    hide Compatible, StrongScopeCompatible, Delta, CarriesContext, CountedReferences, Span.IsProducer, LinkedProducers;
    forall j | 0 <= j < |picks| ensures StrongScopeCompatible(spans[picks[j]], c) {
      CompatibleInScope(spans[picks[j]], c);
    }
    NoLinkMatched(spans, c);
  }

  lemma OnePick(spans: seq<Span>, c: Span, window: int, pi: nat)
    requires pi < |spans| && spans[pi].IsProducer() && Kept(spans, c, window, pi)
    ensures FallbackPicks(spans, c, window, [pi])
    ensures ConfidenceOf(IdentityHow(c)) == Medium
  {
    hide Compatible, Delta, Span.IsProducer, Span.Identity, Span.MessageIdentity;
  }

  lemma IdentityWellFormed(spans: seq<Span>, c: Span, window: int, pi: nat)
    requires LinkedProducers(spans, c, |spans|) == []
    requires pi < |spans| && spans[pi].IsProducer() && Kept(spans, c, window, pi)
    ensures WellFormed(spans, c, window, Fallback(c, [pi], IdentityHow(c)))
  {
    hide *;
    OnePick(spans, c, window, pi);
    FallbackWellFormed(spans, c, window, [pi], IdentityHow(c));
  }

  lemma NearestWellFormed(spans: seq<Span>, c: Span, window: int, picks: seq<nat>)
    requires LinkedProducers(spans, c, |spans|) == [] && PickedSound(spans, c, window, picks)
    ensures WellFormed(spans, c, window, Fallback(c, picks, TimeHeuristic))
  {
    hide LinkedProducers, WellFormed, Fallback, Compatible, Delta, Span.IsProducer;
    assert FallbackPicks(spans, c, window, picks);
    FallbackWellFormed(spans, c, window, picks, TimeHeuristic);
  }

  /** The scan without a matching context. */
  lemma ScanFallsBack(spans: seq<Span>, c: Span, window: int)
    requires LinkedProducers(spans, c, |spans|) == [] && ParentOf(spans, c).None?
    ensures var identified := if c.Identity() != "" then IdentityProducer(spans, c, window, |spans|) else None;
      ScanConsumer(spans, c, window)
        == if identified.Some? then Fallback(c, [identified.value], IdentityHow(c))
           else Fallback(c, ScanNearest(spans, c, window, Limit(c), {}), TimeHeuristic)
  {
    NoLinkMatched(spans, c);
    hide LinkedProducers, ParentProducer, IdentityProducer, ScanNearest, IdentityHow, Limit, ValidLinks,
         UnresolvedLinks, CarriesContext, Span.Identity;
  }

  /** Without a matching context the scan counts the same references and finds no high-confidence match either. */
  lemma FallbackSameContext(spans: seq<Span>, c: Span, window: int, picks: seq<nat>, how: How)
    requires LinkedProducers(spans, c, |spans|) == [] && ParentOf(spans, c).None? && ConfidenceOf(how) != High
    ensures SameContext(ScanConsumer(spans, c, window), Fallback(c, picks, how))
  {
    hide ScanConsumer, IdentityProducer, ScanNearest, LinkedProducers, ParentOf;
    ScanFallsBack(spans, c, window);
  }

  /** The first tier that matches settles the consumer; None where the walk faults. */
  ghost function TiersOutcome(spans: seq<Span>, c: Span, window: int): Option<Outcome> {
    if LinkedProducers(spans, c, |spans|) != [] then Some(LinkOutcome(spans, c))
    else if ParentOf(spans, c).Some? then Some(ParentOutcome(c, ParentOf(spans, c).value))
    else if IdentityPick(spans, c, window).Some? then
      Some(Fallback(c, [IdentityPick(spans, c, window).value], IdentityHow(c)))
    else
      match WalkRoute(spans, c, window)
      case None => None
      case Some(out) => Some(Fallback(c, CandidateIndices(out), TimeHeuristic))
  }

  lemma TiersSound(spans: seq<Span>, c: Span, window: int)
    ensures var r := TiersOutcome(spans, c, window);
      r.Some? ==> WellFormed(spans, c, window, r.value) && SameContext(ScanConsumer(spans, c, window), r.value)
  {
    hide LinkedProducers, ParentOf, LinkOutcome, ParentOutcome, Fallback, IdentityPick, WalkRoute, WellFormed,
         ScanConsumer, PickedSound, Kept, Span.IsProducer;
    if LinkedProducers(spans, c, |spans|) != [] {
      LinkOutcomeWellFormed(spans, c, window);
    } else if ParentOf(spans, c).Some? {
      ParentOutcomeWellFormed(spans, c, window);
    } else if IdentityPick(spans, c, window).Some? {
      FallbackMeans(c);
      IdentityWellFormed(spans, c, window, IdentityPick(spans, c, window).value);
      FallbackSameContext(spans, c, window, [IdentityPick(spans, c, window).value], IdentityHow(c));
    } else if WalkRoute(spans, c, window).Some? {
      WalkRouteMeaning(spans, c, window);
      NearestWellFormed(spans, c, window, CandidateIndices(WalkRoute(spans, c, window).value));
      FallbackSameContext(spans, c, window, CandidateIndices(WalkRoute(spans, c, window).value), TimeHeuristic);
    }
  }

  lemma FallbackMeans(c: Span)
    ensures ConfidenceOf(IdentityHow(c)) != High
  {}

  /** The outcome of one consumer on every input; None where the walk faults. */
  ghost function IndexedConsumer(spans: seq<Span>, c: Span, window: int): (r: Option<Outcome>)
    ensures r.Some? ==> WellFormed(spans, c, window, r.value) && InBounds(spans, r.value.matches)
    ensures r.Some? ==> SameContext(ScanConsumer(spans, c, window), r.value)
  {
    var r := TiersOutcome(spans, c, window);
    TiersSound(spans, c, window);
    r
  }

  /** No link, parent or identity matches the consumer. */
  ghost predicate LeftToWalk(spans: seq<Span>, c: Span, window: int) {
    LinkedProducers(spans, c, |spans|) == [] && ParentOf(spans, c).None? && !IdentityFound(spans, c, window)
  }

  /** The consumer is left to the walk and the walk stops the program. */
  ghost predicate Stops(spans: seq<Span>, c: Span, window: int) {
    LeftToWalk(spans, c, window) && WalkPanics(spans, c, window)
  }

  lemma StopsExactly(spans: seq<Span>, c: Span, window: int)
    ensures IndexedConsumer(spans, c, window).None? <==> Stops(spans, c, window)
  {
    hide LinkedProducers, ParentOf, IdentityPick, IdentityFound, WalkRoute, WalkPanics, Fallback, LinkOutcome,
         ParentOutcome;
    PickIsFound(spans, c, window);
    WalkRouteMeaning(spans, c, window);
  }

  // ---------- When one consumer's outcome is the scan's ----------

  /** Every candidate of the message whose computed distance is not the true one comes after the scan's pick. */
  predicate NoneMisleads(spans: seq<Span>, c: Span, window: int) {
    var best := IdentityProducer(spans, c, window, |spans|);
    forall i :: 0 <= i < |spans| && i in MessageBucket(spans, c) && Kept(spans, c, window, i) && !Exact(spans[i], c) ==>
        best.Some? && Closer(spans, c, best.value, i)
  }

  /** A producer that the code keeps at its true distance is one the scan considers. */
  lemma KeptMeaning(spans: seq<Span>, c: Span, window: Duration, i: nat)
    requires i < |spans| && spans[i].IsProducer()
    ensures Kept(spans, c, window, i) && Exact(spans[i], c) <==> SameMessage(spans, c, window, i)
  {
    hide Compatible, Span.Identity, Span.IsProducer;
    DeltaExact(spans[i], c);
  }

  /** What the code considers at its true distance is what the scan considers and is spelled like the consumer. */
  lemma CandidatesAre(spans: seq<Span>, c: Span, window: Duration, i: nat)
    requires c.Identity() != "" && i < |spans|
    ensures i in MessageBucket(spans, c) && Kept(spans, c, window, i) && Exact(spans[i], c)
            <==> SameMessage(spans, c, window, i) && SameSpelling(spans[i], c)
    ensures SameMessage(spans, c, window, i) ==> Exact(spans[i], c)
  {
    hide Bucket, SameSpelling, Exact, Delta, Compatible;
    if i in MessageBucket(spans, c) {
      BucketHoldsProducers(ByMessage, spans, MessageKey(c), i);
    }
    if spans[i].IsProducer() {
      KeptMeaning(spans, c, window, i);
      if spans[i].Identity() == c.Identity() && Compatible(spans[i], c) {
        MessageBucketExact(spans, c, i);
      }
    }
  }

  /** If the pick is the scan's, no candidate misleads and the scan's pick is spelled like the consumer. */
  lemma SamePick(spans: seq<Span>, c: Span, window: Duration)
    requires c.Identity() != "" && IdentityPick(spans, c, window) == IdentityProducer(spans, c, window, |spans|)
    ensures var best := IdentityProducer(spans, c, window, |spans|);
      NoneMisleads(spans, c, window) && (best.Some? ==> SameSpelling(spans[best.value], c))
  {
    hide Kept, SameMessage, Bucket, SameSpelling, Span.Identity, IdentityProducer, Closer, Exact;
    var best := IdentityProducer(spans, c, window, |spans|);
    if best.Some? {
      CandidatesAre(spans, c, window, best.value);
    }
  }

  /** If no candidate misleads and the scan's pick is spelled like the consumer, it is the pick. */
  lemma PickUnmisled(spans: seq<Span>, c: Span, window: Duration)
    requires c.Identity() != "" && NoneMisleads(spans, c, window)
    requires var best := IdentityProducer(spans, c, window, |spans|);
      best.Some? ==> SameSpelling(spans[best.value], c)
    ensures IdentityPick(spans, c, window) == IdentityProducer(spans, c, window, |spans|)
  {
    hide Kept, SameMessage, Bucket, SameSpelling, Span.Identity, IdentityProducer, Delta, Gap, Abs;
    var best, picked := IdentityProducer(spans, c, window, |spans|), IdentityPick(spans, c, window);
    if best.Some? {
      CandidatesAre(spans, c, window, best.value);
    }
    if picked.Some? {
      CandidatesAre(spans, c, window, picked.value);
    }
  }

  /** The identity tier picks what the scan picks exactly when no candidate misleads it and the scan's pick is
      spelled like the consumer. */
  lemma IdentityTierExact(spans: seq<Span>, c: Span, window: Duration)
    requires c.Identity() != ""
    ensures var best := IdentityProducer(spans, c, window, |spans|);
      IdentityPick(spans, c, window) == best
      <==> NoneMisleads(spans, c, window) && (best.Some? ==> SameSpelling(spans[best.value], c))
  {
    hide *;
    var best := IdentityProducer(spans, c, window, |spans|);
    if IdentityPick(spans, c, window) == best {
      SamePick(spans, c, window);
    } else if NoneMisleads(spans, c, window) && (best.Some? ==> SameSpelling(spans[best.value], c)) {
      PickUnmisled(spans, c, window);
    }
  }

  predicate AllSpelled(spans: seq<Span>, c: Span, picks: seq<nat>) {
    forall k :: 0 <= k < |picks| ==> picks[k] < |spans| && SameSpelling(spans[picks[k]], c)
  }

  /** A producer within reach is on the consumer's route exactly when it is spelled alike. */
  lemma OnRoute(spans: seq<Span>, c: Span, window: int, i: nat)
    requires i < |spans| && spans[i].IsProducer() && WithinReach(spans, c, window, i)
    ensures i in Elements(SortedRoute(spans, c)) <==> SameSpelling(spans[i], c)
  {
    SortedRouteSorted(spans, c);
    RouteBucketExact(spans, c, i);
    hide Bucket, SortBucket, Compatible, SameSpelling;
  }

  /** The nearest of all producers are the nearest of the route exactly when they are all on it. */
  lemma NearestOnRoute(spans: seq<Span>, c: Span, window: int, limit: nat, route: set<nat>, picks: seq<nat>,
                       scan: seq<nat>)
    requires route <= Producers(spans)
    requires IsNearest(spans, c, window, limit, route, picks)
    requires IsNearest(spans, c, window, limit, Producers(spans), scan)
    ensures picks == scan <==> forall k :: 0 <= k < |scan| ==> scan[k] in route
  {
    hide WithinReach, Nearer, Producers;
    if forall k :: 0 <= k < |scan| ==> scan[k] in route {
      NearestUnique(spans, c, window, limit, route, picks, scan);
    }
  }

  /** The walk's candidates are the nearest of the route exactly when it is not misled. */
  lemma WalkIsNearest(spans: seq<Span>, c: Span, window: Duration)
    requires WalkRoute(spans, c, window).Some?
    ensures var picks, route := CandidateIndices(WalkRoute(spans, c, window).value), Elements(SortedRoute(spans, c));
      && route <= Producers(spans)
      && (forall i :: i in picks ==> i in route)
      && (IsNearest(spans, c, window, Limit(c), route, picks) <==> !WalkMisled(spans, c, window))
  {
    hide SortedRoute, WalkAll, Misled, SortedByEnd, Producers, WithinReach, Nearer, Panics, IsNearest;
    RouteProducers(spans, c);
    WalkAnswers(spans, SortedRoute(spans, c), c, window, Limit(c));
  }

  lemma ScanOnRoute(spans: seq<Span>, c: Span, window: int)
    ensures var scan := ScanNearest(spans, c, window, Limit(c), {});
      && IsNearest(spans, c, window, Limit(c), Producers(spans), scan)
      && (AllSpelled(spans, c, scan) <==> forall k :: 0 <= k < |scan| ==> scan[k] in Elements(SortedRoute(spans, c)))
  {
    ScanIsNearest(spans, c, window, Limit(c), {});
    assert Producers(spans) - {} == Producers(spans);
    hide SortedRoute, ScanNearest, WithinReach, Nearer, SameSpelling, Producers;
    var scan := ScanNearest(spans, c, window, Limit(c), {});
    forall k | 0 <= k < |scan|
      ensures scan[k] < |spans| && (scan[k] in Elements(SortedRoute(spans, c))
                <==> SameSpelling(spans[scan[k]], c))
    {
      assert scan[k] in Producers(spans) && WithinReach(spans, c, window, scan[k]);
      OnRoute(spans, c, window, scan[k]);
    }
  }

  /** The walk's candidates are the scan's exactly when the walk is not misled and the scan's are spelled like
      the consumer. */
  lemma WalkExact(spans: seq<Span>, c: Span, window: Duration)
    requires WalkRoute(spans, c, window).Some?
    ensures var scan := ScanNearest(spans, c, window, Limit(c), {});
      CandidateIndices(WalkRoute(spans, c, window).value) == scan
      <==> !WalkMisled(spans, c, window) && AllSpelled(spans, c, scan)
  {
    hide *;
    var picks, scan := CandidateIndices(WalkRoute(spans, c, window).value), ScanNearest(spans, c, window, Limit(c), {});
    WalkIsNearest(spans, c, window);
    ScanOnRoute(spans, c, window);
    PoolInBounds(spans);
    if picks == scan {
      NearestInRoute(spans, c, window, Limit(c), Elements(SortedRoute(spans, c)), Producers(spans), picks);
    }
    if !WalkMisled(spans, c, window) {
      NearestOnRoute(spans, c, window, Limit(c), Elements(SortedRoute(spans, c)), picks, scan);
    }
  }

  lemma PoolInBounds(spans: seq<Span>)
    ensures forall i :: i in Producers(spans) ==> i < |spans|
  {}

  /** Nearest of all and on the route: nearest of the route. */
  lemma NearestInRoute(spans: seq<Span>, c: Span, window: int, limit: nat, route: set<nat>, pool: set<nat>,
                       picks: seq<nat>)
    requires route <= pool && forall i :: i in pool ==> i < |spans|
    requires IsNearest(spans, c, window, limit, pool, picks) && forall i :: i in picks ==> i in route
    ensures IsNearest(spans, c, window, limit, route, picks)
  {
    hide WithinReach, Nearer;
  }

  /** What makes one consumer's outcome that of the scan, on every input: an exact context settles it; else no
      candidate of its message may mislead, the scan's identity match must be spelled like the consumer, and where the
      scan has none, the walk must neither fault nor be misled and the scan's nearest be spelled like the consumer. */
  ghost predicate Faithful(spans: seq<Span>, c: Span, window: int) {
    var best := if c.Identity() != "" then IdentityProducer(spans, c, window, |spans|) else None;
    || LinkedProducers(spans, c, |spans|) != [] || ParentOf(spans, c).Some?
    || (&& (c.Identity() != "" ==> NoneMisleads(spans, c, window))
        && if best.Some? then SameSpelling(spans[best.value], c)
           else && !WalkPanics(spans, c, window) && !WalkMisled(spans, c, window)
                && AllSpelled(spans, c, ScanNearest(spans, c, window, Limit(c), {})))
  }

  lemma PickExact(spans: seq<Span>, c: Span, window: Duration)
    ensures var best := if c.Identity() != "" then IdentityProducer(spans, c, window, |spans|) else None;
      IdentityPick(spans, c, window) == best
      <==> && (c.Identity() != "" ==> NoneMisleads(spans, c, window))
           && (best.Some? ==> SameSpelling(spans[best.value], c))
  {
    hide IdentityProducer, NoneMisleads, SameSpelling, LeastKept, Span.Identity;
    if c.Identity() != "" {
      IdentityTierExact(spans, c, window);
    }
  }

  lemma ContextSettles(spans: seq<Span>, c: Span, window: int)
    requires LinkedProducers(spans, c, |spans|) != [] || ParentOf(spans, c).Some?
    ensures IndexedConsumer(spans, c, window) == Some(ScanConsumer(spans, c, window))
  {
    hide ScanConsumer, LinkedProducers, ParentOf, LinkOutcome, ParentOutcome, IdentityPick, WalkRoute;
    if LinkedProducers(spans, c, |spans|) != [] {
      LinkOutcomeWellFormed(spans, c, window);
    } else {
      ParentOutcomeWellFormed(spans, c, window);
    }
  }

  lemma FallbackIndexed(spans: seq<Span>, c: Span, window: int)
    requires LinkedProducers(spans, c, |spans|) == [] && ParentOf(spans, c).None?
    ensures IndexedConsumer(spans, c, window)
      == if IdentityPick(spans, c, window).Some?
          then Some(Fallback(c, [IdentityPick(spans, c, window).value], IdentityHow(c)))
         else if WalkRoute(spans, c, window).Some? then
           Some(Fallback(c, CandidateIndices(WalkRoute(spans, c, window).value), TimeHeuristic))
         else None
  {
    hide ScanConsumer, LinkedProducers, ParentOf, LinkOutcome, ParentOutcome, IdentityPick, WalkRoute;
  }

  /** One consumer's outcome is the scan's exactly then. */
  lemma ConsumerExact(spans: seq<Span>, c: Span, window: Duration)
    ensures IndexedConsumer(spans, c, window) == Some(ScanConsumer(spans, c, window)) <==> Faithful(spans, c, window)
  {
    hide IndexedConsumer, ScanConsumer, LinkedProducers, ParentOf, IdentityPick, WalkRoute, IdentityProducer,
         ScanNearest, NoneMisleads, SameSpelling, AllSpelled, WalkPanics, WalkMisled, CountedReferences, Span.Identity;
    if LinkedProducers(spans, c, |spans|) != [] || ParentOf(spans, c).Some? {
      ContextSettles(spans, c, window);
    } else {
      FallbackIndexed(spans, c, window);
      ScanFallsBack(spans, c, window);
      PickExact(spans, c, window);
      WalkRouteMeaning(spans, c, window);
      if WalkRoute(spans, c, window).Some? {
        WalkExact(spans, c, window);
      }
    }
  }
}
