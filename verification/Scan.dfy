/** The reference: every consumer looks at every producer, tier after tier. */
module Scan {
  import opened Spans
  import opened Routes
  import opened Nearest
  import opened Tables

  // ---------- Tiers 1 and 2: exact context ----------

  /** Producer `i` is the one the context names, and in the consumer's scope. */
  predicate Resolves(spans: seq<Span>, c: Span, i: nat, traceId: string, spanId: string)
    requires i < |spans|
  {
    && spans[i].IsProducer()
    && spans[i].traceId == traceId && spans[i].spanId == spanId
    && StrongScopeCompatible(spans[i], c)
  }

  predicate LinkResolved(spans: seq<Span>, c: Span, l: Link) {
    exists i :: 0 <= i < |spans| && Resolves(spans, c, i, l.traceId, l.spanId)
  }

  /** Some of the links names producer `i`. */
  predicate LinkedBy(spans: seq<Span>, c: Span, links: seq<Link>, i: nat)
    requires i < |spans|
  {
    exists k :: 0 <= k < |links| && links[k].HasValidContext()
        && Resolves(spans, c, i, links[k].traceId, links[k].spanId)
  }

  /** The producers among the first `n` spans that some link names, in index order. */
  function LinkedProducers(spans: seq<Span>, c: Span, n: nat): (r: seq<nat>)
    requires n <= |spans|
    ensures forall j :: 0 <= j < |r| ==> r[j] < n
    ensures forall i :: i in r <==> 0 <= i < n && LinkedBy(spans, c, c.links, i)
    ensures forall i, j :: 0 <= i < j < |r| ==> r[i] < r[j]
  {
    if n == 0 then []
    else LinkedProducers(spans, c, n - 1) + if LinkedBy(spans, c, c.links, n - 1) then [n - 1] else []
  }

  function ValidLinks(links: seq<Link>): nat {
    if links == [] then 0
    else ValidLinks(links[..|links| - 1]) + if links[|links| - 1].HasValidContext() then 1 else 0
  }

  function UnresolvedLinks(spans: seq<Span>, c: Span, links: seq<Link>): (r: nat)
    ensures r <= ValidLinks(links)
  {
    if links == [] then 0
    else
      var l := links[|links| - 1];
      UnresolvedLinks(spans, c, links[..|links| - 1])
          + if l.HasValidContext() && !LinkResolved(spans, c, l) then 1 else 0
  }

  /** The first of the first `n` spans that is the parent. */
  function ParentProducer(spans: seq<Span>, c: Span, n: nat): (r: Option<nat>)
    requires n <= |spans|
    ensures r.Some? ==> r.value < n && Resolves(spans, c, r.value, c.traceId, c.parentSpanId)
    ensures forall i :: 0 <= i < n && Resolves(spans, c, i, c.traceId, c.parentSpanId) ==> r.Some? && r.value <= i
  {
    if n == 0 then None else
      var r := ParentProducer(spans, c, n - 1);
      if r.None? && Resolves(spans, c, n - 1, c.traceId, c.parentSpanId) then Some(n - 1) else r
  }

  // ---------- Tier 3: one broker identity ----------

  predicate SameMessage(spans: seq<Span>, c: Span, window: int, i: nat)
    requires i < |spans|
  {
    && spans[i].IsProducer() && spans[i].Identity() == c.Identity()
    && Compatible(spans[i], c) && Abs(Gap(spans[i], c)) <= window
  }

  /** The nearest, and among equally near ones the first, of the first `n` spans that sent the message. */
  function IdentityProducer(spans: seq<Span>, c: Span, window: int, n: nat): (r: Option<nat>)
    requires n <= |spans|
    ensures r.Some? ==> r.value < n && SameMessage(spans, c, window, r.value)
    ensures forall i :: 0 <= i < n && SameMessage(spans, c, window, i) ==>
              r.Some? && (Abs(Gap(spans[r.value], c)) < Abs(Gap(spans[i], c))
                  || (Abs(Gap(spans[r.value], c)) == Abs(Gap(spans[i], c)) && r.value <= i))
  {
    if n == 0 then None else
      var r := IdentityProducer(spans, c, window, n - 1);
      if SameMessage(spans, c, window, n - 1) && (r.None? || Abs(Gap(spans[n - 1], c)) < Abs(Gap(spans[r.value], c)))
      then Some(n - 1) else r
  }

  // ---------- The tiers in order ----------

  function Limit(c: Span): nat {
    if c.batchCount.Some? && c.batchCount.value > 1 then c.batchCount.value else 1
  }

  function IdentityHow(c: Span): How {
    if c.MessageIdentity().0 == KafkaPartitionOffset then KafkaOffset else MessagingAttributes
  }

  /** The first tier that matches settles the consumer. */
  function ScanConsumer(spans: seq<Span>, c: Span, window: int): (o: Outcome)
    ensures InBounds(spans, o.matches)
  {
    var linked := LinkedProducers(spans, c, |spans|);
    var valid, lost := ValidLinks(c.links), UnresolvedLinks(spans, c, c.links);
    if linked != [] then Outcome(linked, SpanLink, valid, lost)
    else
      var parent := if c.HasValidParentContext() then ParentProducer(spans, c, |spans|) else None;
      if parent.Some? then Outcome([parent.value], ParentContext, valid + 1, lost)
      else
        var more := if c.HasValidParentContext() then 1 else 0;
        var identified := if c.Identity() != "" then IdentityProducer(spans, c, window, |spans|) else None;
        if identified.Some? then Outcome([identified.value], IdentityHow(c), valid + more, lost + more)
        else
          ScanIsNearest(spans, c, window, Limit(c), {});
          Outcome(ScanNearest(spans, c, window, Limit(c), {}), TimeHeuristic, valid + more, lost + more)
  }

  function Consumers(spans: seq<Span>, n: nat): (r: seq<nat>)
    requires n <= |spans|
    ensures forall j :: 0 <= j < |r| ==> r[j] < n
    ensures forall i :: i in r <==> 0 <= i < n && spans[i].IsConsumer()
    ensures forall i, j :: 0 <= i < j < |r| ==> r[i] < r[j]
  {
    if n == 0 then [] else Consumers(spans, n - 1) + if spans[n - 1].IsConsumer() then [n - 1] else []
  }

  function ScanAll(spans: seq<Span>, window: int, consumers: seq<nat>): Table
    requires InBounds(spans, consumers)
  {
    if consumers == [] then EMPTY_TABLE
    else
      var ci := consumers[|consumers| - 1];
      AddOutcome(ScanAll(spans, window, consumers[..|consumers| - 1]), spans, ci,
                 ScanConsumer(spans, spans[ci], window))
  }

  /** The tables the quadratic scan fills. */
  function ScanCorrelate(spans: seq<Span>, window: int): Table {
    ScanAll(spans, window, Consumers(spans, |spans|))
  }

  // ---------- Counting references ----------

  predicate SomeValid(links: seq<Link>) {
    exists k :: 0 <= k < |links| && links[k].HasValidContext()
  }

  predicate SomeResolved(spans: seq<Span>, c: Span, links: seq<Link>) {
    exists k :: 0 <= k < |links| && links[k].HasValidContext() && LinkResolved(spans, c, links[k])
  }

  lemma OneMoreLink(spans: seq<Span>, c: Span, links: seq<Link>, l: Link)
    ensures SomeValid(links + [l]) <==> SomeValid(links) || l.HasValidContext()
    ensures SomeResolved(spans, c, links + [l])
            <==> SomeResolved(spans, c, links) || (l.HasValidContext() && LinkResolved(spans, c, l))
  {
    var all := links + [l];
    assert all[|links|] == l && forall k :: 0 <= k < |links| ==> all[k] == links[k];
    if SomeValid(links) {
      var k :| 0 <= k < |links| && links[k].HasValidContext();
      assert all[k].HasValidContext();
    }
    if SomeResolved(spans, c, links) {
      var k :| 0 <= k < |links| && links[k].HasValidContext() && LinkResolved(spans, c, links[k]);
      assert all[k].HasValidContext() && LinkResolved(spans, c, all[k]);
    }
  }

  lemma {:induction false} LinkCounts(spans: seq<Span>, c: Span, links: seq<Link>)
    ensures ValidLinks(links) > 0 <==> SomeValid(links)
    ensures UnresolvedLinks(spans, c, links) < ValidLinks(links) <==> SomeResolved(spans, c, links)
  {
    if links != [] {
      var front, l := links[..|links| - 1], links[|links| - 1];
      LinkCounts(spans, c, front);
      OneMoreLink(spans, c, front, l);
      assert links == front + [l];
    }
  }

  lemma LinkedMeansResolved(spans: seq<Span>, c: Span)
    ensures SomeResolved(spans, c, c.links) <==> exists i :: 0 <= i < |spans| && LinkedBy(spans, c, c.links, i)
  {
    if exists i :: 0 <= i < |spans| && LinkedBy(spans, c, c.links, i) {
      var i :| 0 <= i < |spans| && LinkedBy(spans, c, c.links, i);
      var k :| 0 <= k < |c.links| && c.links[k].HasValidContext()
          && Resolves(spans, c, i, c.links[k].traceId, c.links[k].spanId);
      assert LinkResolved(spans, c, c.links[k]);
    }
    if SomeResolved(spans, c, c.links) {
      var k :| 0 <= k < |c.links| && c.links[k].HasValidContext() && LinkResolved(spans, c, c.links[k]);
      var i :| 0 <= i < |spans| && Resolves(spans, c, i, c.links[k].traceId, c.links[k].spanId);
      assert LinkedBy(spans, c, c.links, i);
    }
  }

  /** Some producer is linked exactly when some link is resolved. */
  lemma LinkedIffResolved(spans: seq<Span>, c: Span)
    ensures LinkedProducers(spans, c, |spans|) != [] <==> UnresolvedLinks(spans, c, c.links) < ValidLinks(c.links)
    ensures ValidLinks(c.links) > 0 <==> SomeValid(c.links)
  {
    LinkCounts(spans, c, c.links);
    LinkedMeansResolved(spans, c);
    var linked := LinkedProducers(spans, c, |spans|);
    assert linked != [] ==> linked[0] in linked;
  }
}
