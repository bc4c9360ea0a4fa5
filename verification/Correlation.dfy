/** The correlation engine as it runs: three hash indexes, four tiers, and the tables it fills. */
module Correlate {
  import opened Spans
  import opened Routes
  import opened Nearest
  import opened RouteWalk
  import opened Tables
  import opened Scan
  import opened ContextTiers
  import opened Indexes
  import opened Indexed
  import opened IndexedRun
  import opened CorrelationLaws

  // ---------- The indexes ----------

  method FileSpan(s: Span, i: nat, inContext: Index, inMessage: Index, inRoute: Index)
    returns (byContext: Index, byMessage: Index, byRoute: Index)
    ensures byContext == Filed(ByContext, inContext, s, i)
    ensures byMessage == Filed(ByMessage, inMessage, s, i)
    ensures byRoute == Filed(ByRoute, inRoute, s, i)
  {
    byContext, byMessage, byRoute := inContext, inMessage, inRoute;
    if s.IsProducer() {
      byContext := FileUnder(byContext, Key(s.traceId, s.spanId), i);
      var route := RouteLookupKey(s);
      if route != "" {
        byRoute := FileUnder(byRoute, route, i);
        var identity := s.Identity();
        if identity != "" {
          byMessage := FileUnder(byMessage, route + "\0" + identity, i);
        }
      }
    }
  }

  method BuildIndexes(spans: seq<Span>)
    returns (byContext: Index, byMessage: Index, byRoute: Index, consumers: seq<nat>)
    ensures byContext == IndexOf(ByContext, spans, |spans|)
    ensures byMessage == IndexOf(ByMessage, spans, |spans|)
    ensures byRoute == IndexOf(ByRoute, spans, |spans|)
    ensures consumers == Consumers(spans, |spans|)
  {
    hide Filed;
    byContext, byMessage, byRoute, consumers := map[], map[], map[], [];
    for i := 0 to |spans|
      invariant byContext == IndexOf(ByContext, spans, i)
      invariant byMessage == IndexOf(ByMessage, spans, i)
      invariant byRoute == IndexOf(ByRoute, spans, i)
      invariant consumers == Consumers(spans, i)
    {
      byContext, byMessage, byRoute := FileSpan(spans[i], i, byContext, byMessage, byRoute);
      if spans[i].IsConsumer() {
        consumers := consumers + [i];
      }
    }
  }

  /** Every route's bucket, sorted. */
  ghost predicate SortedRoutes(routes: Index, spans: seq<Span>) {
    forall k :: Lookup(routes, k) == SortBucket(spans, Bucket(ByRoute, spans, |spans|, k))
  }

  method SortRoutes(spans: seq<Span>, byRoute: Index) returns (routes: Index)
    requires byRoute == IndexOf(ByRoute, spans, |spans|)
    ensures SortedRoutes(routes, spans)
  {
    routes := byRoute;
    var todo := byRoute.Keys;
    while todo != {}
      invariant todo <= byRoute.Keys == routes.Keys
      invariant forall k :: k in routes ==>
        routes[k] == if k in todo then byRoute[k] else SortBucket(spans, Bucket(ByRoute, spans, |spans|, k))
      decreases todo
    {
      var route :| route in todo;
      IndexHoldsBuckets(ByRoute, spans, |spans|, route);
      routes := routes[route := SortBucket(spans, routes[route])];
      todo := todo - {route};
    }
    forall k ensures Lookup(routes, k) == SortBucket(spans, Bucket(ByRoute, spans, |spans|, k)) {
      IndexHoldsBuckets(ByRoute, spans, |spans|, k);
    }
  }

  // ---------- Tier 1 ----------

  function InsertIndex(x: nat, sorted: seq<nat>): seq<nat> {
    if sorted == [] || x < sorted[0] then [x] + sorted else [sorted[0]] + InsertIndex(x, sorted[1..])
  }

  lemma AscendingCons(x: nat, rest: seq<nat>)
    requires Ascending(rest) && forall y :: y in Elements(rest) ==> x < y
    ensures Ascending([x] + rest) && Elements([x] + rest) == Elements(rest) + {x}
  {
    assert forall k :: 0 <= k < |rest| ==> rest[k] in Elements(rest);
  }

  lemma AscendingSplit(s: seq<nat>)
    requires Ascending(s) && s != []
    ensures Ascending(s[1..]) && Elements(s) == Elements(s[1..]) + {s[0]}
    ensures forall y :: y in Elements(s[1..]) ==> s[0] < y
  {
    assert s == [s[0]] + s[1..];
  }

  lemma {:induction false} InsertIndexSorts(x: nat, sorted: seq<nat>)
    requires Ascending(sorted) && x !in Elements(sorted)
    ensures Ascending(InsertIndex(x, sorted))
    ensures Elements(InsertIndex(x, sorted)) == Elements(sorted) + {x}
  {
    hide Ascending, Elements;
    if sorted == [] {
      FirstIndex(x);
    } else {
      AscendingSplit(sorted);
      if x < sorted[0] {
        AscendingCons(x, sorted);
      } else {
        InsertIndexSorts(x, sorted[1..]);
        AscendingCons(sorted[0], InsertIndex(x, sorted[1..]));
      }
    }
  }

  lemma FirstIndex(x: nat)
    ensures Ascending(InsertIndex(x, [])) && Elements(InsertIndex(x, [])) == Elements([]) + {x}
  {}

  method SortedKeys(m: set<nat>) returns (out: seq<nat>)
    ensures Ascending(out) && Elements(out) == m
  {
    out := [];
    var todo := m;
    while todo != {}
      invariant todo <= m && Elements(out) == m - todo
      invariant Ascending(out)
      decreases todo
    {
      var k :| k in todo;
      InsertIndexSorts(k, out);
      out := InsertIndex(k, out);
      todo := todo - {k};
    }
  }

  function InScope(spans: seq<Span>, c: Span, bucket: seq<nat>): set<nat>
    requires InBounds(spans, bucket)
  {
    set i | i in bucket && StrongScopeCompatible(spans[i], c)
  }

  lemma InScopeOneMore(spans: seq<Span>, c: Span, bucket: seq<nat>, pi: nat)
    requires InBounds(spans, bucket) && pi < |spans|
    ensures InScope(spans, c, bucket + [pi])
              == InScope(spans, c, bucket) + if StrongScopeCompatible(spans[pi], c) then {pi} else {}
  {}

  /** In scope under a valid context's key are exactly the producers it resolves to. */
  lemma InScopeResolves(spans: seq<Span>, c: Span, l: Link)
    requires l.HasValidContext()
    ensures var scoped := InScope(spans, c, Bucket(ByContext, spans, |spans|, Key(l.traceId, l.spanId)));
      && (forall i: nat :: i in scoped <==> i < |spans| && Resolves(spans, c, i, l.traceId, l.spanId))
      && (scoped != {} <==> LinkResolved(spans, c, l))
  {
    var scoped := InScope(spans, c, Bucket(ByContext, spans, |spans|, Key(l.traceId, l.spanId)));
    forall i: nat ensures i in scoped <==> i < |spans| && Resolves(spans, c, i, l.traceId, l.spanId) {
      ContextBucketExact(spans, l.traceId, l.spanId, i);
    }
    if scoped != {} {
      var i :| i in scoped;
      assert Resolves(spans, c, i, l.traceId, l.spanId);
    }
  }

  /** The producers of one bucket that are in the consumer's scope join the linked ones. */
  method JoinInScope(spans: seq<Span>, c: Span, bucket: seq<nat>, before: set<nat>)
    returns (linked: set<nat>, matched: bool)
    requires InBounds(spans, bucket)
    ensures linked == before + InScope(spans, c, bucket)
    ensures matched <==> InScope(spans, c, bucket) != {}
  {
    linked, matched := before, false;
    for j := 0 to |bucket|
      invariant linked == before + InScope(spans, c, bucket[..j])
      invariant matched <==> InScope(spans, c, bucket[..j]) != {}
    {
      var pi := bucket[j];
      assert bucket[..j + 1] == bucket[..j] + [pi];
      InScopeOneMore(spans, c, bucket[..j], pi);
      if StrongScopeCompatible(spans[pi], c) {
        linked := linked + {pi};
        matched := true;
      }
    }
    assert bucket[..|bucket|] == bucket;
  }

  /** The producers one link resolves to join the linked ones. */
  method ResolveLink(spans: seq<Span>, byContext: Index, c: Span, l: Link, before: set<nat>)
    returns (linked: set<nat>, matched: bool)
    requires byContext == IndexOf(ByContext, spans, |spans|) && l.HasValidContext()
    ensures matched <==> LinkResolved(spans, c, l)
    ensures forall i: nat :: i in linked <==> i in before || (i < |spans| && Resolves(spans, c, i, l.traceId, l.spanId))
  {
    IndexHoldsBuckets(ByContext, spans, |spans|, Key(l.traceId, l.spanId));
    InScopeResolves(spans, c, l);
    linked, matched := JoinInScope(spans, c, Lookup(byContext, Key(l.traceId, l.spanId)), before);
  }

  /** One link's part in the counters. */
  method CountLink(spans: seq<Span>, byContext: Index, ci: nat, l: Link, before: set<nat>, res: Result)
    returns (linked: set<nat>)
    requires byContext == IndexOf(ByContext, spans, |spans|) && ci < |spans|
    modifies res
    ensures forall i: nat :: i in linked <==>
              i in before || (i < |spans| && l.HasValidContext() && Resolves(spans, spans[ci], i, l.traceId, l.spanId))
    ensures res.View() == AddCounts(old(res.View()), ci, if l.HasValidContext() then 1 else 0,
                                    if l.HasValidContext() && !LinkResolved(spans, spans[ci], l) then 1 else 0)
  {
    linked := before;
    if !l.HasValidContext() {
      return;
    }
    res.CountReference(ci);
    var matched;
    linked, matched := ResolveLink(spans, byContext, spans[ci], l, linked);
    if !matched {
      AddCountsTwice(old(res.View()), ci, 1, 0, 0, 1);
      res.CountUnresolved(ci);
    }
  }

  method MatchLinks(spans: seq<Span>, byContext: Index, ci: nat, res: Result) returns (linked: set<nat>)
    requires byContext == IndexOf(ByContext, spans, |spans|) && ci < |spans|
    modifies res
    ensures linked == Elements(LinkedProducers(spans, spans[ci], |spans|))
    ensures forall i: nat :: i in linked <==> LinkNamed(spans, i, ci)
    ensures res.View() == AddCounts(old(res.View()), ci, ValidLinks(spans[ci].links),
                                    UnresolvedLinks(spans, spans[ci], spans[ci].links))
  {
    hide AddCounts, Resolves, IndexOf, LinkResolved, ValidLinks, UnresolvedLinks, LinkedBy, LinkNamed;
    var c := spans[ci];
    LinkedAreNamed(spans, ci);
    linked := {};
    AddNoCounts(res.View(), ci);
    NoLinks(spans, c);
    assert c.links[..0] == [];
    for k := 0 to |c.links|
      invariant forall i: nat :: i in linked <==> i < |spans| && LinkedBy(spans, c, c.links[..k], i)
      invariant res.View() == AddCounts(old(res.View()), ci, ValidLinks(c.links[..k]),
                                        UnresolvedLinks(spans, c, c.links[..k]))
    {
      var l := c.links[k];
      ghost var v, u := ValidLinks(c.links[..k]), UnresolvedLinks(spans, c, c.links[..k]);
      linked := CountLink(spans, byContext, ci, l, linked, res);
      assert c.links[..k + 1] == c.links[..k] + [l];
      LinkedByOneMore(spans, c, c.links[..k], l);
      LinkCountsOneMore(spans, c, c.links[..k], l);
      AddCountsTwice(old(res.View()), ci, v, u, ValidLinks(c.links[..k + 1]) - v,
                     UnresolvedLinks(spans, c, c.links[..k + 1]) - u);
    }
    assert c.links[..|c.links|] == c.links;
  }

  lemma LinkedAreNamed(spans: seq<Span>, ci: nat)
    requires ci < |spans|
    ensures forall i: nat :: i in LinkedProducers(spans, spans[ci], |spans|) <==> LinkNamed(spans, i, ci)
  {
    hide LinkedProducers, LinkNamed;
    forall i: nat ensures i in LinkedProducers(spans, spans[ci], |spans|) <==> LinkNamed(spans, i, ci) {
      LinkNamedMeans(spans, i, ci);
    }
  }

  lemma NoLinks(spans: seq<Span>, c: Span)
    ensures ValidLinks([]) == 0 && UnresolvedLinks(spans, c, []) == 0
    ensures forall i :: 0 <= i < |spans| ==> !LinkedBy(spans, c, [], i)
  {}

  lemma LinkCountsOneMore(spans: seq<Span>, c: Span, links: seq<Link>, l: Link)
    ensures ValidLinks(links + [l]) == ValidLinks(links) + if l.HasValidContext() then 1 else 0
    ensures UnresolvedLinks(spans, c, links + [l])
         == UnresolvedLinks(spans, c, links) + if l.HasValidContext() && !LinkResolved(spans, c, l) then 1 else 0
  {
    var all := links + [l];
    assert all[..|all| - 1] == links && all[|all| - 1] == l;
  }

  lemma LinkedByOneMore(spans: seq<Span>, c: Span, links: seq<Link>, l: Link)
    ensures forall i :: 0 <= i < |spans| ==>
              (LinkedBy(spans, c, links + [l], i) <==>
                 LinkedBy(spans, c, links, i) || (l.HasValidContext() && Resolves(spans, c, i, l.traceId, l.spanId)))
  {
    var all := links + [l];
    forall i | 0 <= i < |spans|
      ensures LinkedBy(spans, c, all, i) <==>
                LinkedBy(spans, c, links, i) || (l.HasValidContext() && Resolves(spans, c, i, l.traceId, l.spanId))
    {
      if LinkedBy(spans, c, links, i) {
        var k :| 0 <= k < |links| && links[k].HasValidContext()
            && Resolves(spans, c, i, links[k].traceId, links[k].spanId);
        assert all[k] == links[k];
      }
      assert all[|links|] == l;
    }
  }

  method AddLinked(spans: seq<Span>, pis: seq<nat>, ci: nat, res: Result)
    requires ci < |spans| && InBounds(spans, pis)
    modifies res
    ensures res.View() == AddAll(old(res.View()), spans, pis, ci, SpanLink)
  {
    hide AddAll, StrongScopeCompatible;
    AddNone(res.View(), spans, ci, SpanLink);
    assert pis[..0] == [];
    for j := 0 to |pis|
      invariant res.View() == AddAll(old(res.View()), spans, pis[..j], ci, SpanLink)
    {
      AddOneMore(old(res.View()), spans, pis[..j], pis[j], ci, SpanLink);
      res.Add(spans, pis[j], ci, SpanLink, High);
      assert pis[..j + 1] == pis[..j] + [pis[j]];
    }
    assert pis[..|pis|] == pis;
  }

  method TierLinks(spans: seq<Span>, byContext: Index, ci: nat, res: Result) returns (matched: bool)
    requires byContext == IndexOf(ByContext, spans, |spans|) && ci < |spans|
    modifies res
    ensures matched <==> LinkedProducers(spans, spans[ci], |spans|) != []
    ensures res.View() == if matched then AddOutcome(old(res.View()), spans, ci, LinkOutcome(spans, spans[ci]))
                          else AddCounts(old(res.View()), ci, ValidLinks(spans[ci].links), ValidLinks(spans[ci].links))
  {
    hide *;
    ghost var expected, before := LinkedProducers(spans, spans[ci], |spans|), res.View();
    LinkedListed(spans, spans[ci]);
    LinkOutcomeEntered(before, spans, ci);
    var linked := MatchLinks(spans, byContext, ci, res);
    if |linked| > 0 {
      var pis := SortedKeys(linked);
      AscendingUnique(pis, expected);
      AddLinked(spans, pis, ci, res);
      return true;
    }
    NoLinkMatched(spans, spans[ci]);
    return false;
  }

  lemma LinkedListed(spans: seq<Span>, c: Span)
    ensures var linked := LinkedProducers(spans, c, |spans|);
      && InBounds(spans, linked) && Ascending(linked) && (|Elements(linked)| > 0 <==> linked != [])
  {
    var linked := LinkedProducers(spans, c, |spans|);
    assert linked != [] ==> linked[0] in Elements(linked);
    assert linked == [] ==> Elements(linked) == {};
    hide LinkedProducers, LinkedBy;
  }

  lemma LinkOutcomeEntered(t: Table, spans: seq<Span>, ci: nat)
    requires ci < |spans| && InBounds(spans, LinkedProducers(spans, spans[ci], |spans|))
    ensures var c := spans[ci];
      AddAll(AddCounts(t, ci, ValidLinks(c.links), UnresolvedLinks(spans, c, c.links)), spans,
             LinkedProducers(spans, c, |spans|), ci, SpanLink)
      == AddOutcome(t, spans, ci, LinkOutcome(spans, c))
  {
    hide AddAll, AddCounts, LinkedProducers, ValidLinks, UnresolvedLinks;
  }

  // ---------- Tier 2 ----------

  method MatchParent(spans: seq<Span>, byContext: Index, ci: nat, res: Result) returns (matched: bool)
    requires byContext == IndexOf(ByContext, spans, |spans|) && ci < |spans| && spans[ci].HasValidParentContext()
    modifies res
    ensures var parent := ParentProducer(spans, spans[ci], |spans|);
      && (matched <==> parent.Some?)
      && FirstNamed(spans, ci, parent)
      && res.View() == if parent.Some?
                       then AddAll(AddCounts(old(res.View()), ci, 1, 0), spans, [parent.value], ci, ParentContext)
                       else AddCounts(old(res.View()), ci, 1, 1)
  {
    hide AddAll, AddCounts, IndexOf, StrongScopeCompatible, Bucket, FirstNamed;
    var c := spans[ci];
    ParentNamedMeans(spans, ci);
    res.CountReference(ci);
    matched := false;
    IndexHoldsBuckets(ByContext, spans, |spans|, Key(c.traceId, c.parentSpanId));
    var bucket := Lookup(byContext, Key(c.traceId, c.parentSpanId));
    forall i | 0 <= i < |spans|
      ensures Resolves(spans, c, i, c.traceId, c.parentSpanId) <==> i in bucket && StrongScopeCompatible(spans[i], c)
    {
      ContextBucketExact(spans, c.traceId, c.parentSpanId, i);
    }
    for j := 0 to |bucket|
      invariant !matched && res.View() == AddCounts(old(res.View()), ci, 1, 0)
      invariant forall k :: 0 <= k < j ==> !StrongScopeCompatible(spans[bucket[k]], c)
    {
      var pi := bucket[j];
      if StrongScopeCompatible(spans[pi], c) {
        assert Resolves(spans, c, pi, c.traceId, c.parentSpanId);
        res.Add(spans, pi, ci, ParentContext, High);
        matched := true;
        return;
      }
    }
    AddCountsTwice(old(res.View()), ci, 1, 0, 0, 1);
    res.CountUnresolved(ci);
  }

  method TierParent(spans: seq<Span>, byContext: Index, ci: nat, res: Result) returns (matched: bool)
    requires byContext == IndexOf(ByContext, spans, |spans|) && ci < |spans|
    modifies res
    ensures matched <==> ParentOf(spans, spans[ci]).Some?
    ensures matched ==>
      res.View() == AddAll(AddCounts(old(res.View()), ci, 1, 0), spans, [ParentOf(spans, spans[ci]).value], ci,
                           ParentContext)
    ensures !matched ==>
      res.View() == AddCounts(old(res.View()), ci, CountedReferences(spans[ci]) - ValidLinks(spans[ci].links),
                              CountedReferences(spans[ci]) - ValidLinks(spans[ci].links))
  {
    matched := false;
    if spans[ci].HasValidParentContext() {
      matched := MatchParent(spans, byContext, ci, res);
    }
  }

  // ---------- Tier 3 ----------

  predicate CandidateLess(a: Candidate, b: Candidate) {
    a.delta < b.delta || (a.delta == b.delta && a.index < b.index)
  }

  function InsertCandidate(x: Candidate, sorted: seq<Candidate>): seq<Candidate> {
    if sorted == [] || CandidateLess(x, sorted[0]) then [x] + sorted else [sorted[0]] + InsertCandidate(x, sorted[1..])
  }

  function SortCandidates(candidates: seq<Candidate>): seq<Candidate> {
    if candidates == [] then []
    else InsertCandidate(candidates[|candidates| - 1], SortCandidates(candidates[..|candidates| - 1]))
  }

  /** The first sorted candidate is a least one. */
  lemma {:induction false} FirstIsLeast(candidates: seq<Candidate>)
    requires candidates != []
    ensures SortCandidates(candidates) != [] && SortCandidates(candidates)[0] in candidates
    ensures forall x :: x in candidates ==>
              x == SortCandidates(candidates)[0] || !CandidateLess(x, SortCandidates(candidates)[0])
  {
    var last, front := candidates[|candidates| - 1], candidates[..|candidates| - 1];
    if front != [] {
      FirstIsLeast(front);
    }
    assert forall x :: x in candidates ==> x == last || x in front;
  }

  method IdentityCandidates(spans: seq<Span>, c: Span, window: int, bucket: seq<nat>)
    returns (candidates: seq<Candidate>)
    requires InBounds(spans, bucket)
    ensures forall x :: x in candidates <==>
              x.index in bucket && Kept(spans, c, window, x.index) && x.delta == Delta(spans[x.index], c)
  {
    candidates := [];
    for j := 0 to |bucket|
      invariant forall x :: x in candidates <==>
                  x.index in bucket[..j] && Kept(spans, c, window, x.index) && x.delta == Delta(spans[x.index], c)
    {
      assert bucket[..j + 1] == bucket[..j] + [bucket[j]];
      var p := spans[bucket[j]];
      if p.Identity() == c.Identity() && Compatible(p, c) {
        var d := Delta(p, c);
        if d <= window {
          candidates := candidates + [Candidate(bucket[j], d)];
        }
      }
    }
    assert bucket[..|bucket|] == bucket;
  }

  /** The first sorted candidate is the closest of those kept. */
  lemma FirstIsLeastKept(spans: seq<Span>, c: Span, window: int, bucket: seq<nat>, candidates: seq<Candidate>)
    requires InBounds(spans, bucket)
    requires forall x :: x in candidates <==>
               x.index in bucket && Kept(spans, c, window, x.index) && x.delta == Delta(spans[x.index], c)
    ensures var least := LeastKept(spans, c, window, bucket);
      if candidates == [] then least == None
      else SortCandidates(candidates) != [] && least == Some(SortCandidates(candidates)[0].index)
  {
    hide Kept, Delta, LeastKept, SortCandidates;
    var least := LeastKept(spans, c, window, bucket);
    assert least.Some? ==> Candidate(least.value, Delta(spans[least.value], c)) in candidates;
    if candidates != [] {
      FirstIsLeast(candidates);
      var x := SortCandidates(candidates)[0];
      assert x.index in bucket && Kept(spans, c, window, x.index);
    }
  }

  /** What the pick of the identity tier is. */
  lemma PickMeaning(spans: seq<Span>, c: Span, window: Duration)
    requires c.Identity() != ""
    ensures InBounds(spans, MessageBucket(spans, c))
    ensures IdentityPick(spans, c, window) == LeastKept(spans, c, window, MessageBucket(spans, c))
    ensures IdentityPick(spans, c, window).Some? <==> IdentityFound(spans, c, window)
    ensures var best := IdentityProducer(spans, c, window, |spans|);
      IdentityPick(spans, c, window) == best
      <==> NoneMisleads(spans, c, window) && (best.Some? ==> SameSpelling(spans[best.value], c))
  {
    PickIsFound(spans, c, window);
    IdentityTierExact(spans, c, window);
    hide IdentityProducer, NoneMisleads, SameSpelling, IdentityFound, LeastKept, Span.Identity;
  }

  lemma MessageLookup(spans: seq<Span>, c: Span)
    ensures Lookup(IndexOf(ByMessage, spans, |spans|), RouteLookupKey(c) + "\0" + c.Identity())
              == MessageBucket(spans, c)
  {
    hide IndexOf, Bucket, RouteLookupKey, Span.Identity;
    IndexHoldsBuckets(ByMessage, spans, |spans|, MessageKey(c));
  }

  lemma HowMeaning(c: Span)
    ensures IdentityHow(c) == if c.MessageIdentity().0 == KafkaPartitionOffset then KafkaOffset else MessagingAttributes
    ensures ConfidenceOf(IdentityHow(c)) == Medium
  {
    hide Span.MessageIdentity;
  }

  method MatchIdentity(spans: seq<Span>, byMessage: Index, ci: nat, window: Duration, res: Result)
    returns (picked: Option<nat>)
    requires byMessage == IndexOf(ByMessage, spans, |spans|) && ci < |spans| && spans[ci].Identity() != ""
    modifies res
    ensures picked == IdentityPick(spans, spans[ci], window)
    ensures picked.Some? <==> IdentityFound(spans, spans[ci], window)
    ensures var best := IdentityProducer(spans, spans[ci], window, |spans|);
      picked == best
      <==> NoneMisleads(spans, spans[ci], window) && (best.Some? ==> SameSpelling(spans[best.value], spans[ci]))
    ensures res.View() == if picked.Some?
                          then AddAll(old(res.View()), spans, [picked.value], ci, IdentityHow(spans[ci]))
                          else old(res.View())
  {
    var c := spans[ci];
    PickMeaning(spans, c, window);
    MessageLookup(spans, c);
    HowMeaning(c);
    hide *;
    var k := RouteLookupKey(c) + "\0" + c.Identity();
    var candidates := IdentityCandidates(spans, c, window, Lookup(byMessage, k));
    FirstIsLeastKept(spans, c, window, MessageBucket(spans, c), candidates);
    if |candidates| > 0 {
      var first := SortCandidates(candidates)[0];
      var how := MessagingAttributes;
      if c.MessageIdentity().0 == KafkaPartitionOffset {
        how := KafkaOffset;
      }
      res.Add(spans, first.index, ci, how, Medium);
      return Some(first.index);
    }
    return None;
  }

  // ---------- Tier 4 ----------

  method AddCandidates(spans: seq<Span>, candidates: seq<Candidate>, ci: nat, res: Result)
    requires ci < |spans| && InBounds(spans, CandidateIndices(candidates))
    modifies res
    ensures res.View() == AddAll(old(res.View()), spans, CandidateIndices(candidates), ci, TimeHeuristic)
  {
    hide AddAll;
    ghost var picks := CandidateIndices(candidates);
    AddNone(res.View(), spans, ci, TimeHeuristic);
    assert picks[..0] == [];
    for j := 0 to |candidates|
      invariant res.View() == AddAll(old(res.View()), spans, picks[..j], ci, TimeHeuristic)
    {
      AddOneMore(old(res.View()), spans, picks[..j], picks[j], ci, TimeHeuristic);
      res.Add(spans, candidates[j].index, ci, TimeHeuristic, Low);
      assert picks[..j + 1] == picks[..j] + [picks[j]];
    }
    assert picks[..|candidates|] == picks;
  }

  method MatchNearest(spans: seq<Span>, routes: Index, ci: nat, window: int, res: Result) returns (ok: bool)
    requires SortedRoutes(routes, spans) && ci < |spans|
    modifies res
    ensures ok <==> WalkRoute(spans, spans[ci], window).Some?
    ensures ok ==> var picks := CandidateIndices(WalkRoute(spans, spans[ci], window).value);
      InBounds(spans, picks) && res.View() == AddAll(old(res.View()), spans, picks, ci, TimeHeuristic)
  {
    var c := spans[ci];
    var limit := 1;
    if c.batchCount.Some? && c.batchCount.value > limit {
      limit := c.batchCount.value;
    }
    SortedRouteSorted(spans, c);
    WalkRouteMeaning(spans, c, window);
    var walked := NearestRouteCandidates(Lookup(routes, RouteLookupKey(c)), spans, c, window, limit);
    if walked.None? {
      return false;
    }
    AddCandidates(spans, walked.value, ci, res);
    return true;
  }


  // ---------- One consumer ----------

  /** The tiers without context. */
  method TierFallback(spans: seq<Span>, byMessage: Index, routes: Index, ci: nat, window: Duration, res: Result)
    returns (ok: bool)
    requires byMessage == IndexOf(ByMessage, spans, |spans|) && SortedRoutes(routes, spans) && ci < |spans|
    requires LinkedProducers(spans, spans[ci], |spans|) == [] && ParentOf(spans, spans[ci]).None?
    modifies res
    ensures ok <==> IndexedConsumer(spans, spans[ci], window).Some?
    ensures ok ==> var o := IndexedConsumer(spans, spans[ci], window).value;
      && InBounds(spans, o.matches) && res.View() == AddAll(old(res.View()), spans, o.matches, ci, o.how)
      && o.references == o.unresolved == CountedReferences(spans[ci])
  {
    hide IndexedConsumer, SortedRoutes, IndexOf, AddAll, LinkedProducers, ParentOf, WalkRoute, IdentityProducer,
         NoneMisleads, SameSpelling, IdentityFound, CandidateIndices, CountedReferences, LeastKept;
    var c := spans[ci];
    FallbackIndexed(spans, c, window);
    if c.Identity() != "" {
      var picked := MatchIdentity(spans, byMessage, ci, window, res);
      if picked.Some? {
        return true;
      }
    }
    ok := MatchNearest(spans, routes, ci, window, res);
  }

  lemma OutcomeInSteps(t: Table, spans: seq<Span>, ci: nat, r1: nat, u1: nat, r2: nat, u2: nat, picks: seq<nat>,
                       how: How)
    requires ci < |spans| && InBounds(spans, picks)
    ensures AddAll(AddCounts(AddCounts(t, ci, r1, u1), ci, r2, u2), spans, picks, ci, how)
         == AddOutcome(t, spans, ci, Outcome(picks, how, r1 + r2, u1 + u2))
  {
    AddCountsTwice(t, ci, r1, u1, r2, u2);
  }

  lemma ParentInSteps(t: Table, spans: seq<Span>, ci: nat)
    requires ci < |spans| && ParentOf(spans, spans[ci]).Some?
    ensures var c, valid, pi := spans[ci], ValidLinks(spans[ci].links), ParentOf(spans, spans[ci]).value;
      && pi < |spans|
      && AddAll(AddCounts(AddCounts(t, ci, valid, valid), ci, 1, 0), spans, [pi], ci, ParentContext)
         == AddOutcome(t, spans, ci, ParentOutcome(c, pi))
  {
    hide ValidLinks, AddCounts, AddAll, ParentProducer;
    var c, valid := spans[ci], ValidLinks(spans[ci].links);
    OutcomeInSteps(t, spans, ci, valid, valid, 1, 0, [ParentOf(spans, c).value], ParentContext);
  }

  lemma ContextOutcome(spans: seq<Span>, c: Span, window: int)
    ensures LinkedProducers(spans, c, |spans|) != [] ==>
              IndexedConsumer(spans, c, window) == Some(LinkOutcome(spans, c))
    ensures LinkedProducers(spans, c, |spans|) == [] && ParentOf(spans, c).Some? ==>
              IndexedConsumer(spans, c, window) == Some(ParentOutcome(c, ParentOf(spans, c).value))
  {
    hide ScanConsumer, LinkedProducers, ParentOf, LinkOutcome, ParentOutcome, IdentityPick, WalkRoute, WellFormed,
         SameContext;
  }

  /** One consumer through the tiers. The program stops exactly where the walk is reached and faults, and the outcome
      is the scan's exactly where the consumer is treated faithfully. */
  method MatchConsumer(spans: seq<Span>, byContext: Index, byMessage: Index, routes: Index, ci: nat, window: Duration,
                       res: Result)
    returns (ok: bool)
    requires byContext == IndexOf(ByContext, spans, |spans|) && byMessage == IndexOf(ByMessage, spans, |spans|)
    requires SortedRoutes(routes, spans) && ci < |spans|
    modifies res
    ensures ok <==> IndexedConsumer(spans, spans[ci], window).Some?
    ensures ok ==> res.View() == AddOutcome(old(res.View()), spans, ci, IndexedConsumer(spans, spans[ci], window).value)
    ensures !ok <==> Stops(spans, spans[ci], window)
    ensures IndexedConsumer(spans, spans[ci], window) == Some(ScanConsumer(spans, spans[ci], window))
            <==> Faithful(spans, spans[ci], window)
  {
    hide IndexedConsumer, ScanConsumer, SameContext, WellFormed, AddOutcome, IndexOf, LinkedProducers, ParentOf,
         AddCounts, AddAll, SortedRoutes, Stops, Faithful, ParentOutcome;
    var c := spans[ci];
    StopsExactly(spans, c, window);
    ConsumerExact(spans, c, window);
    ContextOutcome(spans, c, window);
    ghost var before, valid, more := res.View(), ValidLinks(c.links), CountedReferences(c) - ValidLinks(c.links);
    var matched := TierLinks(spans, byContext, ci, res);
    if matched {
      return true;
    }
    matched := TierParent(spans, byContext, ci, res);
    if matched {
      ParentInSteps(before, spans, ci);
      return true;
    }
    ok := TierFallback(spans, byMessage, routes, ci, window, res);
    if ok {
      ghost var o := IndexedConsumer(spans, c, window).value;
      OutcomeInSteps(before, spans, ci, valid, valid, more, more, o.matches, o.how);
    }
  }


  // ---------- The whole run ----------

  lemma AllRows(spans: seq<Span>, window: Duration)
    ensures IndexedCorrelate(spans, window).Some? ==>
              var xs := IndexedCorrelate(spans, window).value.correlations;
              && RowsSound(spans, window, xs) && ContextRows(spans, xs)
              && (TimesInRange(spans, window) ==> FallbackRows(spans, window, xs))
  {
    hide *;
    if IndexedCorrelate(spans, window).Some? {
      RowsByContext(spans, window);
      if TimesInRange(spans, window) {
        RowsWithoutContext(spans, window);
      }
    }
  }

  /** The whole run. Whatever the input, it stops exactly where some consumer is left to the walk and its walk faults;
      otherwise its tables agree with one another and its context tiers are those of the quadratic scan; and all its
      tables are the scan's if and only if every consumer is treated faithfully. With times in range, where it does not
      stop, that is: if and only if the scan's matches without a context are spelled alike. */
  method Correlate(spans: seq<Span>, window: Duration) returns (ok: bool, res: Result)
    ensures fresh(res)
    ensures !ok <==> exists ci :: 0 <= ci < |spans| && spans[ci].IsConsumer() && Stops(spans, spans[ci], window)
    ensures ok <==> IndexedCorrelate(spans, window).Some?
    ensures ok ==> res.View() == IndexedCorrelate(spans, window).value
    ensures ok ==> Agree(spans, window, res.View(), |spans|) && SameHigh(res.View(), ScanCorrelate(spans, window))
    ensures ok ==> RowsSound(spans, window, res.View().correlations) && ContextRows(spans, res.View().correlations)
    ensures ok && TimesInRange(spans, window) ==> FallbackRows(spans, window, res.View().correlations)
    ensures ok && res.View() == ScanCorrelate(spans, window) <==> AllFaithful(spans, window)
    ensures TimesInRange(spans, window) && ok ==>
              (res.View() == ScanCorrelate(spans, window) <==> FallbacksSpelled(spans, window))
    ensures TimesInRange(spans, window) && BatchesFit(spans) ==> ok
    ensures TimesInRange(spans, window) && BatchesFit(spans) && SystemsAgree(spans) ==>
              ok && res.View() == ScanCorrelate(spans, window)
  {
    CorrelateMeaning(spans, window);
    AllRows(spans, window);
    hide *;
    res := new Result();
    var byContext, byMessage, byRoute, consumers := BuildIndexes(spans);
    var routes := SortRoutes(spans, byRoute);
    NoConsumers(spans, window, consumers);
    AllConsumers(spans);
    RunsThrough(spans, window, consumers, |consumers|);
    for k := 0 to |consumers|
      invariant InBounds(spans, consumers[..k]) && IndexedAll(spans, window, consumers[..k]) == Some(res.View())
    {
      var ci := consumers[k];
      IndexedStep(spans, window, consumers, k);
      FinishesStep(spans, window, consumers, k);
      ok := MatchConsumer(spans, byContext, byMessage, routes, ci, window, res);
      if !ok {
        return;
      }
    }
    ok := true;
  }

}
