/** How many messages of a batch the links of its consumer account for. */
module BatchCoverage {
  import opened Text
  import opened Spans
  import opened Counting
  import opened Totals

  // ---------- One context ----------

  function ContextKey(l: Link): string { Key(l.traceId, l.spanId) }

  /** The link counts towards context `k`. */
  predicate Towards(l: Link, k: string) { l.HasValidContext() && ContextKey(l) == k }

  function IsAnonymous(k: string): Link -> bool { (l: Link) => Towards(l, k) && l.messageId == "" }

  function IsTowards(k: string): Link -> bool { (l: Link) => Towards(l, k) }

  function IsValid(): Link -> bool { (l: Link) => l.HasValidContext() }

  /** The links without a message id towards context `k`. */
  function Anonymous(links: seq<Link>, k: string): nat { CountIf(links, IsAnonymous(k)) }

  /** All links towards context `k`. */
  function CountTowards(links: seq<Link>, k: string): nat { CountIf(links, IsTowards(k)) }

  function ValidCount(links: seq<Link>): nat { CountIf(links, IsValid()) }

  /** The distinct message ids towards context `k`. */
  function Messages(links: seq<Link>, k: string): set<string> {
    set l | l in links && Towards(l, k) && l.messageId != "" :: l.messageId
  }

  function Contexts(links: seq<Link>): set<string> {
    set l | l in links && l.HasValidContext() :: ContextKey(l)
  }

  /** The last producer filed under the key. */
  function ProducerAt(spans: seq<Span>, k: string): Option<Span> {
    if spans == [] then None
    else
      var s := spans[|spans| - 1];
      if s.IsProducer() && Key(s.traceId, s.spanId) == k then Some(s) else ProducerAt(spans[..|spans| - 1], k)
  }

  function Max(a: int, b: int): int { if a < b then b else a }

  /** How many messages a context may stand for. */
  function Budget(spans: seq<Span>, k: string, named: nat): (b: nat)
    ensures b >= 1 && b >= named
  {
    var p := ProducerAt(spans, k);
    Max(named,
        if p.Some? && p.value.batchCount.Some? && p.value.batchCount.value > 1 then p.value.batchCount.value else 1)
  }

  function Covered(spans: seq<Span>, links: seq<Link>, k: string): nat {
    var named, anonymous := |Messages(links, k)|, Anonymous(links, k);
    var budget := Budget(spans, k, named);
    if named + anonymous > budget then budget else named + anonymous
  }

  ghost function CoveredBy(spans: seq<Span>, links: seq<Link>): map<string, nat> {
    map k | k in Contexts(links) :: Covered(spans, links, k)
  }

  /** The coverage of the links: what each context covers, summed over the contexts. */
  ghost function Coverage(spans: seq<Span>, links: seq<Link>): nat { Total(CoveredBy(spans, links)) }

  // ---------- One more link ----------

  lemma OneMore(links: seq<Link>, l: Link, k: string)
    ensures Anonymous(links + [l], k) == Anonymous(links, k) + if Towards(l, k) && l.messageId == "" then 1 else 0
    ensures CountTowards(links + [l], k) == CountTowards(links, k) + if Towards(l, k) then 1 else 0
    ensures Messages(links + [l], k) == Messages(links, k)
              + if Towards(l, k) && l.messageId != "" then {l.messageId} else {}
    ensures Contexts(links + [l]) == Contexts(links) + if l.HasValidContext() then {ContextKey(l)} else {}
    ensures ValidCount(links + [l]) == ValidCount(links) + if l.HasValidContext() then 1 else 0
  {
    CountAppend(links, l, IsAnonymous(k));
    CountAppend(links, l, IsTowards(k));
    CountAppend(links, l, IsValid());
    hide ContextKey, Link.HasValidContext;
    var all := links + [l];
    assert forall x :: x in all <==> x in links || x == l;
  }

  /** A context of the links is one some link counts towards, and its links account for its messages. */
  ghost predicate Accounted(links: seq<Link>, k: string) {
    && (k in Contexts(links) <==> CountTowards(links, k) > 0)
    && |Messages(links, k)| + Anonymous(links, k) <= CountTowards(links, k)
    && (k in Contexts(links) ==> |Messages(links, k)| + Anonymous(links, k) >= 1)
  }

  lemma AccountedOneMore(links: seq<Link>, l: Link, k: string)
    requires Accounted(links, k)
    ensures Accounted(links + [l], k)
  {
    OneMore(links, l, k);
    hide Anonymous, CountTowards, Messages, Contexts, Link.HasValidContext, ContextKey;
    GrowsByOne(Messages(links, k), l.messageId);
  }

  lemma {:induction false} AllAccounted(links: seq<Link>, k: string)
    ensures Accounted(links, k)
  {
    if links != [] {
      assert links == links[..|links| - 1] + [links[|links| - 1]];
      hide Accounted;
      AllAccounted(links[..|links| - 1], k);
      AccountedOneMore(links[..|links| - 1], links[|links| - 1], k);
    }
  }

  lemma GrowsByOne<T>(s: set<T>, x: T)
    ensures |s| <= |s + {x}| <= |s| + 1 && |s + {x}| >= 1
  {
    if x in s { assert s + {x} == s; }
  }

  lemma SubsetSize<T>(a: set<T>, b: set<T>)
    requires a <= b
    ensures |a| <= |b|
  {
    assert b == a + (b - a);
  }

  // ---------- Bounds ----------

  ghost function CountsBy(links: seq<Link>, keys: set<string>): map<string, nat> {
    map k | k in keys :: CountTowards(links, k)
  }

  lemma CountsOneMore(links: seq<Link>, l: Link, keys: set<string>)
    requires Contexts(links + [l]) <= keys
    ensures Total(CountsBy(links + [l], keys)) == Total(CountsBy(links, keys)) + if l.HasValidContext() then 1 else 0
  {
    forall k ensures CountTowards(links + [l], k) == CountTowards(links, k) + if Towards(l, k) then 1 else 0 {
      OneMore(links, l, k);
    }
    var before, after := CountsBy(links, keys), CountsBy(links + [l], keys);
    if l.HasValidContext() {
      var k := ContextKey(l);
      assert (links + [l])[|links|] == l;
      assert k in Contexts(links + [l]);
      hide CountTowards, Link.HasValidContext, ContextKey, Contexts;
      assert after == before[k := before[k] + 1];
      TotalUpdate(before, k, before[k] + 1);
    } else {
      assert after == before;
    }
  }

  /** The valid links are shared out among their contexts. */
  lemma {:induction false} CountsSum(links: seq<Link>, keys: set<string>)
    requires Contexts(links) <= keys
    ensures Total(CountsBy(links, keys)) == ValidCount(links)
  {
    if links == [] {
      TotalZero(CountsBy(links, keys));
    } else {
      var front, l := links[..|links| - 1], links[|links| - 1];
      assert links == front + [l];
      OneMore(front, l, "");
      hide CountTowards, ValidCount, Link.HasValidContext, ContextKey, CountsBy, Contexts;
      CountsSum(front, keys);
      CountsOneMore(front, l, keys);
    }
  }

  /** unique contexts <= coverage <= valid links, whatever the spans. */
  lemma CoverageBounds(spans: seq<Span>, links: seq<Link>)
    ensures |Contexts(links)| <= Coverage(spans, links) <= ValidCount(links)
  {
    var covered := CoveredBy(spans, links);
    forall k | k in covered ensures 1 <= covered[k] <= CountTowards(links, k) {
      AllAccounted(links, k);
    }
    TotalAtLeastSize(covered);
    assert covered.Keys == Contexts(links);
    TotalMonotone(covered, CountsBy(links, Contexts(links)));
    CountsSum(links, Contexts(links));
  }

  // ---------- Adding, repeating and permuting links ----------

  /** Coverage never falls when a link is added. */
  lemma CoverageMonotone(spans: seq<Span>, links: seq<Link>, l: Link)
    ensures Coverage(spans, links) <= Coverage(spans, links + [l])
  {
    hide Contexts, Messages, Anonymous, CountTowards, ValidCount, ProducerAt, ContextKey, Link.HasValidContext;
    OneMore(links, l, "");
    forall k | k in Contexts(links)
      ensures k in Contexts(links + [l]) && Covered(spans, links, k) <= Covered(spans, links + [l], k)
    {
      OneMore(links, l, k);
      SubsetSize(Messages(links, k), Messages(links + [l], k));
    }
    TotalMonotone(CoveredBy(spans, links), CoveredBy(spans, links + [l]));
  }

  /** The link says nothing new: it is not valid, or repeats a message id of its context. */
  predicate Repeats(links: seq<Link>, l: Link) {
    !l.HasValidContext() || (l.messageId != "" && l.messageId in Messages(links, ContextKey(l)))
  }

  lemma RepeatedIn(links: seq<Link>, l: Link, k: string)
    requires Repeats(links, l)
    ensures Messages(links + [l], k) == Messages(links, k) && Anonymous(links + [l], k) == Anonymous(links, k)
  {
    OneMore(links, l, k);
    hide Messages, Anonymous;
  }

  lemma RepeatedContext(links: seq<Link>, l: Link)
    requires Repeats(links, l)
    ensures Contexts(links + [l]) == Contexts(links)
  {
    OneMore(links, l, "");
    if l.HasValidContext() {
      var x :| x in links && Towards(x, ContextKey(l)) && x.messageId == l.messageId;
      assert ContextKey(x) in Contexts(links);
    }
  }

  /** A link that repeats a message id of its context, or is not valid, adds nothing. */
  lemma RepeatedLink(spans: seq<Span>, links: seq<Link>, l: Link)
    requires Repeats(links, l)
    ensures Coverage(spans, links + [l]) == Coverage(spans, links)
    ensures Contexts(links + [l]) == Contexts(links)
  {
    RepeatedContext(links, l);
    hide Contexts, Messages, Anonymous, Budget, Repeats;
    forall k | k in Contexts(links) ensures Covered(spans, links + [l], k) == Covered(spans, links, k) {
      RepeatedIn(links, l, k);
    }
    assert CoveredBy(spans, links + [l]) == CoveredBy(spans, links);
  }

  /** The order of the links does not matter. */
  lemma CoveragePermuted(spans: seq<Span>, a: seq<Link>, b: seq<Link>)
    requires multiset(a) == multiset(b)
    ensures Coverage(spans, a) == Coverage(spans, b) && Contexts(a) == Contexts(b)
  {
    assert forall l :: l in a <==> l in multiset(a);
    assert forall l :: l in b <==> l in multiset(b);
    assert Contexts(a) == Contexts(b);
    forall k | k in Contexts(a) ensures Covered(spans, a, k) == Covered(spans, b, k) {
      CountPermuted(a, b, IsAnonymous(k));
      assert Messages(a, k) == Messages(b, k);
    }
    assert CoveredBy(spans, a) == CoveredBy(spans, b);
  }

  // ---------- The links of one batch ----------

  /** Producer `i` is the only one with its ids, which are valid. */
  predicate OnlyProducer(spans: seq<Span>, i: nat) {
    && i < |spans| && spans[i].IsProducer() && ValidTraceId(spans[i].traceId) && ValidSpanId(spans[i].spanId)
    && forall j :: 0 <= j < |spans| && spans[j].IsProducer() && j != i ==>
         spans[j].traceId != spans[i].traceId || spans[j].spanId != spans[i].spanId
  }

  /** Every link names it. */
  predicate AllName(links: seq<Link>, p: Span) {
    forall k :: 0 <= k < |links| ==> links[k].traceId == p.traceId && links[k].spanId == p.spanId
  }

  lemma {:induction false} OnlyProducerFound(spans: seq<Span>, n: nat, i: nat)
    requires OnlyProducer(spans, i) && i < n <= |spans|
    ensures ProducerAt(spans[..n], Key(spans[i].traceId, spans[i].spanId)) == Some(spans[i])
  {
    var s := spans[n - 1];
    KeyExact(s.traceId, s.spanId, spans[i].traceId, spans[i].spanId);
    hide Key, ValidTraceId, ValidSpanId, Span.IsProducer;
    assert spans[..n][..n - 1] == spans[..n - 1];
    if n - 1 != i {
      OnlyProducerFound(spans, n - 1, i);
    }
  }

  function WithoutId(): Link -> bool { (l: Link) => l.messageId == "" }

  lemma OneContext(links: seq<Link>, p: Span)
    requires links != [] && AllName(links, p) && ValidTraceId(p.traceId) && ValidSpanId(p.spanId)
    ensures Contexts(links) == {Key(p.traceId, p.spanId)}
    ensures Anonymous(links, Key(p.traceId, p.spanId)) == CountIf(links, WithoutId())
    ensures Messages(links, Key(p.traceId, p.spanId)) == set l | l in links && l.messageId != "" :: l.messageId
  {
    hide ValidTraceId, ValidSpanId, Key;
    var k := Key(p.traceId, p.spanId);
    assert links[0] in links && ContextKey(links[0]) == k;
    CountSame(links, IsAnonymous(k), WithoutId());
    assert forall l :: l in links ==> Towards(l, k);
  }

  lemma TotalOfOne<K>(m: map<K, nat>, k: K)
    requires m.Keys == {k}
    ensures Total(m) == m[k]
  {
    TotalRemove(m, k);
    assert m - {k} == map[];
  }

  /** Links that all name one producer account for the distinct message ids they give and for one message more with each
      link without an id, up to the number of messages the producer sent in its batch. */
  lemma BatchCovered(spans: seq<Span>, links: seq<Link>, i: nat)
    requires OnlyProducer(spans, i) && links != [] && AllName(links, spans[i])
    ensures var named := |set l | l in links && l.messageId != "" :: l.messageId|;
      var bare := CountIf(links, WithoutId());
      var most := Max(named, if spans[i].batchCount.Some? then Max(1, spans[i].batchCount.value) else 1);
      Coverage(spans, links) == if named + bare <= most then named + bare else most
  {
    var p := spans[i];
    var k := Key(p.traceId, p.spanId);
    OneContext(links, p);
    OnlyProducerFound(spans, |spans|, i);
    assert spans[..|spans|] == spans;
    hide Key, Contexts, Messages, Anonymous, ProducerAt, ValidTraceId, ValidSpanId, Span.IsProducer, CountIf;
    AllAccounted(links, k);
    TotalOfOne(CoveredBy(spans, links), k);
  }

  // ---------- The loops ----------

  function Get<V>(m: map<string, V>, k: string, default: V): V { if k in m then m[k] else default }

  method IndexProducers(spans: seq<Span>) returns (producers: map<string, Span>)
    ensures forall k :: k in producers <==> ProducerAt(spans, k).Some?
    ensures forall k :: k in producers ==> ProducerAt(spans, k) == Some(producers[k])
  {
    producers := map[];
    for i := 0 to |spans|
      invariant forall k :: k in producers <==> ProducerAt(spans[..i], k).Some?
      invariant forall k :: k in producers ==> ProducerAt(spans[..i], k) == Some(producers[k])
    {
      hide Span.IsProducer;
      assert spans[..i + 1][..i] == spans[..i];
      if spans[i].IsProducer() {
        producers := producers[Key(spans[i].traceId, spans[i].spanId) := spans[i]];
      }
    }
    assert spans[..|spans|] == spans;
  }

  /** One link into the maps. */
  method FileLink(link: Link, contextsIn: set<string>, anonymousIn: map<string, nat>,
                  messagesIn: map<string, set<string>>)
    returns (contexts: set<string>, anonymousLinks: map<string, nat>, messages: map<string, set<string>>)
    requires link.HasValidContext()
    ensures contexts == contextsIn + {ContextKey(link)}
    ensures forall k :: Get(anonymousLinks, k, 0)
              == Get(anonymousIn, k, 0) + if Towards(link, k) && link.messageId == "" then 1 else 0
    ensures forall k :: Get(messages, k, {})
              == Get(messagesIn, k, {}) + if Towards(link, k) && link.messageId != "" then {link.messageId} else {}
  {
    hide Link.HasValidContext, Key;
    contexts, anonymousLinks, messages := contextsIn, anonymousIn, messagesIn;
    var contextKey := ContextKey(link);
    contexts := contexts + {contextKey};
    if link.messageId != "" {
      messages := messages[contextKey := Get(messages, contextKey, {}) + {link.messageId}];
    } else {
      anonymousLinks := anonymousLinks[contextKey := Get(anonymousLinks, contextKey, 0) + 1];
    }
  }

  /** The first loop: sorting the valid links by context. */
  method SortLinks(links: seq<Link>)
    returns (validLinks: nat, contexts: set<string>, anonymousLinks: map<string, nat>,
             messages: map<string, set<string>>)
    ensures validLinks == ValidCount(links) && contexts == Contexts(links)
    ensures forall k :: Get(anonymousLinks, k, 0) == Anonymous(links, k)
    ensures forall k :: Get(messages, k, {}) == Messages(links, k)
  {
    validLinks, contexts, anonymousLinks, messages := 0, {}, map[], map[];
    for i := 0 to |links|
      invariant validLinks == ValidCount(links[..i]) && contexts == Contexts(links[..i])
      invariant forall k :: Get(anonymousLinks, k, 0) == Anonymous(links[..i], k)
      invariant forall k :: Get(messages, k, {}) == Messages(links[..i], k)
    {
      var link := links[i];
      assert links[..i + 1] == links[..i] + [link];
      OneMore(links[..i], link, "");
      if link.HasValidContext() {
        validLinks := validLinks + 1;
        contexts, anonymousLinks, messages := FileLink(link, contexts, anonymousLinks, messages);
      }
      hide Anonymous, Messages, Contexts, ValidCount, Link.HasValidContext, ContextKey, Get;
      forall k
        ensures Get(anonymousLinks, k, 0) == Anonymous(links[..i + 1], k)
        ensures Get(messages, k, {}) == Messages(links[..i + 1], k)
      {
        OneMore(links[..i], link, k);
      }
    }
    assert links[..|links|] == links;
  }

  /** The maps hold what their names say of every context. */
  ghost predicate Sorted(spans: seq<Span>, links: seq<Link>, producers: map<string, Span>,
                         anonymousLinks: map<string, nat>, messages: map<string, set<string>>)
  {
    && (forall k :: k in producers <==> ProducerAt(spans, k).Some?)
    && (forall k :: k in producers ==> ProducerAt(spans, k) == Some(producers[k]))
    && (forall k :: Get(anonymousLinks, k, 0) == Anonymous(links, k))
    && (forall k :: Get(messages, k, {}) == Messages(links, k))
  }

  method CoverOne(spans: seq<Span>, links: seq<Link>, producers: map<string, Span>, anonymousLinks: map<string, nat>,
                  messages: map<string, set<string>>, contextKey: string)
    returns (covered: nat)
    requires Sorted(spans, links, producers, anonymousLinks, messages)
    ensures covered == Covered(spans, links, contextKey)
  {
    hide Anonymous, Messages, ProducerAt, Get;
    var messageCount := |Get(messages, contextKey, {})|;
    var budget := 1;
    if contextKey in producers {
      var producer := producers[contextKey];
      if producer.batchCount.Some? && producer.batchCount.value > budget {
        budget := producer.batchCount.value;
      }
    }
    if messageCount > budget {
      budget := messageCount;
    }
    covered := messageCount + Get(anonymousLinks, contextKey, 0);
    if covered > budget {
      covered := budget;
    }
  }

  method SumCovered(spans: seq<Span>, links: seq<Link>, producers: map<string, Span>, anonymousLinks: map<string, nat>,
                    messages: map<string, set<string>>, contexts: set<string>)
    returns (coverage: nat)
    requires Sorted(spans, links, producers, anonymousLinks, messages)
    ensures coverage == Total(map k | k in contexts :: Covered(spans, links, k))
  {
    hide Sorted, Covered;
    coverage := 0;
    ghost var all := map k | k in contexts :: Covered(spans, links, k);
    ghost var rest := all;
    var todo := contexts;
    while todo != {}
      invariant rest.Keys == todo && forall k :: k in rest ==> rest[k] == Covered(spans, links, k)
      invariant coverage + Total(rest) == Total(all)
      decreases todo
    {
      var contextKey :| contextKey in todo;
      var covered := CoverOne(spans, links, producers, anonymousLinks, messages, contextKey);
      TotalRemove(rest, contextKey);
      coverage := coverage + covered;
      todo, rest := todo - {contextKey}, rest - {contextKey};
    }
    assert rest == map[];
  }

  method BatchLinkCoverage(consumer: Span, spans: seq<Span>)
    returns (coverage: nat, validLinks: nat, uniqueContexts: nat)
    ensures coverage == Coverage(spans, consumer.links)
    ensures validLinks == ValidCount(consumer.links)
    ensures uniqueContexts == |Contexts(consumer.links)|
  {
    var producers := IndexProducers(spans);
    var contexts, anonymousLinks, messages;
    validLinks, contexts, anonymousLinks, messages := SortLinks(consumer.links);
    hide Anonymous, Messages, Contexts, ProducerAt, Covered, Get;
    coverage := SumCovered(spans, consumer.links, producers, anonymousLinks, messages, contexts);
    uniqueContexts := |contexts|;
  }
}
