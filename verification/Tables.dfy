/** The tables a correlation run fills, and what holds of them on every input. */
module Tables {
  import opened Spans
  import opened Routes
  import opened Nearest

  datatype How = SpanLink | ParentContext | MessagingAttributes | KafkaOffset | TimeHeuristic

  datatype Confidence = High | Medium | Low

  function ConfidenceOf(how: How): Confidence {
    match how
    case SpanLink => High
    case ParentContext => High
    case MessagingAttributes => Medium
    case KafkaOffset => Medium
    case TimeHeuristic => Low
  }

  datatype Correlation = Correlation(producer: nat, consumer: nat, how: How, confidence: Confidence, queueLatency: int)

  datatype Table = Table(
    correlations: seq<Correlation>, byConsumer: map<nat, seq<nat>>,
    producerMatched: set<nat>, consumerMatched: set<nat>,
    contextReferences: map<nat, nat>, unresolvedReferences: map<nat, nat>)
  {
    function Of(ci: nat): seq<nat> { if ci in byConsumer then byConsumer[ci] else [] }
    function References(ci: nat): nat { Count(contextReferences, ci) }
    function Unresolved(ci: nat): nat { Count(unresolvedReferences, ci) }
  }

  const EMPTY_TABLE := Table([], map[], {}, {}, map[], map[])

  /** A Go map of counters reads zero where nothing was counted. */
  function Count(m: map<nat, nat>, k: nat): nat { if k in m then m[k] else 0 }

  function Bump(m: map<nat, nat>, k: nat, n: nat): map<nat, nat> {
    if n == 0 then m else m[k := Count(m, k) + n]
  }

  function Matched(spans: seq<Span>, pi: nat, ci: nat, how: How): Correlation
    requires pi < |spans| && ci < |spans|
  {
    Correlation(pi, ci, how, ConfidenceOf(how), Sub(spans[ci].start, spans[pi].end))
  }

  predicate InBounds(spans: seq<Span>, pis: seq<nat>) {
    forall j :: 0 <= j < |pis| ==> pis[j] < |spans|
  }

  predicate PairsInRange(spans: seq<Span>, xs: seq<Correlation>) {
    forall k :: 0 <= k < |xs| ==> xs[k].producer < |spans| && xs[k].consumer < |spans|
  }

  function Rows(spans: seq<Span>, pis: seq<nat>, ci: nat, how: How): seq<Correlation>
    requires ci < |spans| && InBounds(spans, pis)
  {
    seq(|pis|, j requires 0 <= j < |pis| => Matched(spans, pis[j], ci, how))
  }

  function Consecutive(first: nat, count: nat): seq<nat> {
    seq(count, j requires 0 <= j < count => first + j)
  }

  /** All the matches of one consumer, entered in order. */
  function AddAll(t: Table, spans: seq<Span>, pis: seq<nat>, ci: nat, how: How): Table
    requires ci < |spans| && InBounds(spans, pis)
  {
    if pis == [] then t else
      t.(correlations := t.correlations + Rows(spans, pis, ci, how),
         byConsumer := t.byConsumer[ci := t.Of(ci) + Consecutive(|t.correlations|, |pis|)],
         producerMatched := t.producerMatched + Elements(pis),
         consumerMatched := t.consumerMatched + {ci})
  }

  function AddCounts(t: Table, ci: nat, references: nat, unresolved: nat): Table {
    t.(contextReferences := Bump(t.contextReferences, ci, references),
       unresolvedReferences := Bump(t.unresolvedReferences, ci, unresolved))
  }

  lemma AddNone(t: Table, spans: seq<Span>, ci: nat, how: How)
    requires ci < |spans|
    ensures AddAll(t, spans, [], ci, how) == t
  {}

  lemma AddOneMore(t: Table, spans: seq<Span>, pis: seq<nat>, pi: nat, ci: nat, how: How)
    requires ci < |spans| && pi < |spans| && InBounds(spans, pis)
    ensures InBounds(spans, pis + [pi])
    ensures AddAll(AddAll(t, spans, pis, ci, how), spans, [pi], ci, how) == AddAll(t, spans, pis + [pi], ci, how)
  {
    hide Matched;
    if pis == [] {
      assert pis + [pi] == [pi];
    } else {
      var t1 := AddAll(t, spans, pis, ci, how);
      assert t.correlations + Rows(spans, pis + [pi], ci, how) == t1.correlations + Rows(spans, [pi], ci, how);
      assert t.Of(ci) + Consecutive(|t.correlations|, |pis| + 1) == t1.Of(ci) + Consecutive(|t1.correlations|, 1);
      assert Elements(pis + [pi]) == Elements(pis) + Elements([pi]);
    }
  }

  /** The tables as the engine's mutable result record. */
  class Result {
    var correlations: seq<Correlation>
    var correlationByConsumer: map<nat, seq<nat>>
    var producerMatched: set<nat>
    var consumerMatched: set<nat>
    var contextReferences: map<nat, nat>
    var unresolvedReferences: map<nat, nat>

    function View(): Table
      reads this
    {
      Table(correlations, correlationByConsumer, producerMatched, consumerMatched, contextReferences,
            unresolvedReferences)
    }

    constructor ()
      ensures View() == EMPTY_TABLE
    {
      correlations, correlationByConsumer, producerMatched, consumerMatched := [], map[], {}, {};
      contextReferences, unresolvedReferences := map[], map[];
    }

    method Add(spans: seq<Span>, pi: nat, ci: nat, how: How, confidence: Confidence)
      requires pi < |spans| && ci < |spans| && confidence == ConfidenceOf(how)
      modifies this
      ensures View() == AddAll(old(View()), spans, [pi], ci, how)
    {
      var latency := Sub(spans[ci].start, spans[pi].end);
      correlations := correlations + [Correlation(pi, ci, how, confidence, latency)];
      var positions := if ci in correlationByConsumer then correlationByConsumer[ci] else [];
      correlationByConsumer := correlationByConsumer[ci := positions + [|correlations| - 1]];
      producerMatched := producerMatched + {pi};
      consumerMatched := consumerMatched + {ci};
      assert Elements([pi]) == {pi};
      assert Rows(spans, [pi], ci, how) == [correlations[|correlations| - 1]];
      assert Consecutive(|correlations| - 1, 1) == [|correlations| - 1];
    }

    method CountReference(ci: nat)
      modifies this
      ensures View() == AddCounts(old(View()), ci, 1, 0)
    {
      contextReferences := contextReferences[ci := Count(contextReferences, ci) + 1];
    }

    method CountUnresolved(ci: nat)
      modifies this
      ensures View() == AddCounts(old(View()), ci, 0, 1)
    {
      unresolvedReferences := unresolvedReferences[ci := Count(unresolvedReferences, ci) + 1];
    }
  }

  lemma AddCountsTwice(t: Table, ci: nat, r1: nat, u1: nat, r2: nat, u2: nat)
    ensures AddCounts(AddCounts(t, ci, r1, u1), ci, r2, u2) == AddCounts(t, ci, r1 + r2, u1 + u2)
  {
    BumpTwice(t.contextReferences, ci, r1, r2);
    BumpTwice(t.unresolvedReferences, ci, u1, u2);
  }

  lemma AddNoCounts(t: Table, ci: nat)
    ensures AddCounts(t, ci, 0, 0) == t
  {}

  lemma BumpTwice(m: map<nat, nat>, k: nat, a: nat, b: nat)
    ensures Bump(Bump(m, k, a), k, b) == Bump(m, k, a + b)
  {}

  // ---------- One consumer's outcome ----------

  datatype Outcome = Outcome(matches: seq<nat>, how: How, references: nat, unresolved: nat)

  predicate CarriesContext(c: Span) {
    c.HasValidParentContext() || exists k :: 0 <= k < |c.links| && c.links[k].HasValidContext()
  }

  /** What one consumer's outcome satisfies on every input. */
  ghost predicate WellFormed(spans: seq<Span>, c: Span, window: int, o: Outcome) {
    && (forall j :: 0 <= j < |o.matches| ==>
          && o.matches[j] < |spans|
          && spans[o.matches[j]].IsProducer()
          && StrongScopeCompatible(spans[o.matches[j]], c)
          && (ConfidenceOf(o.how) != High ==>
              Compatible(spans[o.matches[j]], c) && Delta(spans[o.matches[j]], c) <= window))
    && (forall i, j :: 0 <= i < j < |o.matches| ==> o.matches[i] != o.matches[j])
    && (ConfidenceOf(o.how) == Medium ==> |o.matches| == 1)
    && o.unresolved <= o.references
    && (o.unresolved < o.references <==> o.matches != [] && ConfidenceOf(o.how) == High)
    && (o.references > 0 <==> CarriesContext(c))
  }

  function AddOutcome(t: Table, spans: seq<Span>, ci: nat, o: Outcome): Table
    requires ci < |spans| && InBounds(spans, o.matches)
  {
    AddAll(AddCounts(t, ci, o.references, o.unresolved), spans, o.matches, ci, o.how)
  }

  // ---------- The tables agree ----------

  predicate SoundCorrelation(spans: seq<Span>, window: int, x: Correlation) {
    && x.producer < |spans| && x.consumer < |spans|
    && spans[x.producer].IsProducer() && spans[x.consumer].IsConsumer()
    && x.confidence == ConfidenceOf(x.how)
    && x.queueLatency == Sub(spans[x.consumer].start, spans[x.producer].end)
    && StrongScopeCompatible(spans[x.producer], spans[x.consumer])
    && (x.confidence != High ==>
          Compatible(spans[x.producer], spans[x.consumer]) && Delta(spans[x.producer], spans[x.consumer]) <= window)
  }

  ghost predicate HasHigh(t: Table, ci: nat) {
    exists k :: 0 <= k < |t.correlations| && t.correlations[k].consumer == ci && t.correlations[k].confidence == High
  }

  /** Every entry is sound; entries come in the order of the consumers, all below `n`. */
  ghost predicate SoundEntries(spans: seq<Span>, window: int, t: Table, n: nat) {
    && (forall k :: 0 <= k < |t.correlations| ==>
        SoundCorrelation(spans, window, t.correlations[k]) && t.correlations[k].consumer < n)
    && (forall i, j :: 0 <= i < j < |t.correlations| ==> t.correlations[i].consumer <= t.correlations[j].consumer)
  }

  /** Each consumer uses one method, and no producer twice. */
  ghost predicate OneMethodEach(t: Table) {
    forall i, j :: 0 <= i < j < |t.correlations| && t.correlations[i].consumer == t.correlations[j].consumer ==>
      t.correlations[i].how == t.correlations[j].how && t.correlations[i].producer != t.correlations[j].producer
  }

  /** Each consumer's list is the increasing list of its positions. */
  ghost predicate ListsAgree(t: Table) {
    && (forall ci: nat, j :: 0 <= j < |t.Of(ci)| ==>
        t.Of(ci)[j] < |t.correlations| && t.correlations[t.Of(ci)[j]].consumer == ci)
    && (forall ci: nat, i, j :: 0 <= i < j < |t.Of(ci)| ==> t.Of(ci)[i] < t.Of(ci)[j])
    && (forall k :: 0 <= k < |t.correlations| ==> k in t.Of(t.correlations[k].consumer))
  }

  /** The matched sets hold exactly the correlated spans. */
  ghost predicate SetsAgree(t: Table) {
    && (forall i ::
          i in t.producerMatched <==> exists k :: 0 <= k < |t.correlations| && t.correlations[k].producer == i)
    && (forall i ::
          i in t.consumerMatched <==> exists k :: 0 <= k < |t.correlations| && t.correlations[k].consumer == i)
  }

  /** A consumer has a high-confidence entry exactly when it has a resolved reference, and
      counts a reference exactly when it carries one. */
  ghost predicate ReferencesAgree(spans: seq<Span>, t: Table, n: nat)
    requires n <= |spans|
  {
    && (forall ci :: 0 <= ci < n && spans[ci].IsConsumer() ==>
          && t.Unresolved(ci) <= t.References(ci)
          && (t.Unresolved(ci) < t.References(ci) <==> HasHigh(t, ci))
          && (t.References(ci) > 0 <==> CarriesContext(spans[ci])))
    && (forall ci :: ci in t.contextReferences || ci in t.unresolvedReferences ==> ci < n && spans[ci].IsConsumer())
  }

  /** The tables describe one set of correlations, of the consumers below `n`. */
  ghost predicate Agree(spans: seq<Span>, window: int, t: Table, n: nat)
    requires n <= |spans|
  {
    && SoundEntries(spans, window, t, n) && OneMethodEach(t)
    && ListsAgree(t) && SetsAgree(t) && ReferencesAgree(spans, t, n)
  }

  /** A fallback match is truly within the window exactly when its latency was representable. */
  lemma WithinWindowExactly(spans: seq<Span>, window: int, t: Table, n: nat, k: nat)
    requires n <= |spans| && Agree(spans, window, t, n) && k < |t.correlations| && t.correlations[k].confidence != High
    requires 0 <= window < MAX_DURATION
    ensures var p, c := spans[t.correlations[k].producer], spans[t.correlations[k].consumer];
      Abs(Gap(p, c)) <= window <==> Gap(p, c) > MIN_DURATION
  {
    assert SoundCorrelation(spans, window, t.correlations[k]);
  }

  lemma EmptyAgrees(spans: seq<Span>, window: int)
    ensures Agree(spans, window, EMPTY_TABLE, 0)
  {}

  // ---------- Entering an outcome keeps the agreement ----------

  /** What adding one new consumer's outcome does to each table. */
  ghost predicate Enters(spans: seq<Span>, t: Table, r: Table, ci: nat, o: Outcome)
    requires ci < |spans| && InBounds(spans, o.matches)
  {
    && |r.correlations| == |t.correlations| + |o.matches|
    && (forall k :: 0 <= k < |t.correlations| ==> r.correlations[k] == t.correlations[k])
    && (forall k :: |t.correlations| <= k < |r.correlations| ==>
          r.correlations[k] == Matched(spans, o.matches[k - |t.correlations|], ci, o.how))
    && (forall i: nat :: i != ci ==> r.Of(i) == t.Of(i))
    && r.Of(ci) == Consecutive(|t.correlations|, |o.matches|)
    && r.producerMatched == t.producerMatched + Elements(o.matches)
    && r.consumerMatched == (if o.matches == [] then t.consumerMatched else t.consumerMatched + {ci})
    && (forall i: nat :: r.References(i) == if i == ci then o.references else t.References(i))
    && (forall i: nat :: r.Unresolved(i) == if i == ci then o.unresolved else t.Unresolved(i))
    && r.contextReferences.Keys <= t.contextReferences.Keys + {ci}
    && r.unresolvedReferences.Keys <= t.unresolvedReferences.Keys + {ci}
  }

  lemma FreshConsumer(spans: seq<Span>, window: int, t: Table, ci: nat)
    requires ci < |spans| && Agree(spans, window, t, ci)
    ensures t.Of(ci) == [] && t.References(ci) == 0 && t.Unresolved(ci) == 0
  {
    forall c0: nat | t.Of(c0) != [] ensures c0 < ci {
      assert t.correlations[t.Of(c0)[0]].consumer == c0;
    }
  }

  lemma CountsAdded(t: Table, ci: nat, references: nat, unresolved: nat)
    requires t.References(ci) == 0 && t.Unresolved(ci) == 0
    ensures var r := AddCounts(t, ci, references, unresolved);
      && (forall i: nat :: r.References(i) == if i == ci then references else t.References(i))
      && (forall i: nat :: r.Unresolved(i) == if i == ci then unresolved else t.Unresolved(i))
      && r.contextReferences.Keys <= t.contextReferences.Keys + {ci}
      && r.unresolvedReferences.Keys <= t.unresolvedReferences.Keys + {ci}
  {}

  lemma AllAdded(t: Table, spans: seq<Span>, pis: seq<nat>, ci: nat, how: How)
    requires ci < |spans| && InBounds(spans, pis) && t.Of(ci) == []
    ensures var r := AddAll(t, spans, pis, ci, how);
      && r.correlations == t.correlations + Rows(spans, pis, ci, how)
      && (forall i: nat :: i != ci ==> r.Of(i) == t.Of(i))
      && r.Of(ci) == Consecutive(|t.correlations|, |pis|)
      && r.producerMatched == t.producerMatched + Elements(pis)
      && r.consumerMatched == (if pis == [] then t.consumerMatched else t.consumerMatched + {ci})
      && r.contextReferences == t.contextReferences && r.unresolvedReferences == t.unresolvedReferences
  {
    hide Matched;
    assert Elements([]) == {};
    assert [] + Consecutive(|t.correlations|, |pis|) == Consecutive(|t.correlations|, |pis|);
  }

  lemma OutcomeEnters(spans: seq<Span>, window: int, t: Table, ci: nat, o: Outcome)
    requires ci < |spans| && InBounds(spans, o.matches) && Agree(spans, window, t, ci)
    ensures Enters(spans, t, AddOutcome(t, spans, ci, o), ci, o)
  {
    FreshConsumer(spans, window, t, ci);
    CountsAdded(t, ci, o.references, o.unresolved);
    var counted := AddCounts(t, ci, o.references, o.unresolved);
    assert forall i: nat :: counted.Of(i) == t.Of(i);
    AllAdded(counted, spans, o.matches, ci, o.how);
    hide Agree, AddAll, AddCounts, Matched;
  }

  lemma EntriesKept(spans: seq<Span>, window: int, t: Table, r: Table, ci: nat, o: Outcome)
    requires ci < |spans| && spans[ci].IsConsumer() && WellFormed(spans, spans[ci], window, o)
    requires Enters(spans, t, r, ci, o) && SoundEntries(spans, window, t, ci) && OneMethodEach(t)
    ensures SoundEntries(spans, window, r, ci + 1) && OneMethodEach(r)
  {}

  lemma ListsKept(spans: seq<Span>, window: int, t: Table, r: Table, ci: nat, o: Outcome)
    requires ci < |spans| && InBounds(spans, o.matches) && Enters(spans, t, r, ci, o)
    requires SoundEntries(spans, window, t, ci) && ListsAgree(t)
    ensures ListsAgree(r)
  {
    forall k | 0 <= k < |r.correlations| ensures k in r.Of(r.correlations[k].consumer) {
      if k < |t.correlations| {
        assert k in t.Of(t.correlations[k].consumer);
      } else {
        assert r.Of(ci)[k - |t.correlations|] == k;
      }
    }
  }

  lemma SetsKept(spans: seq<Span>, t: Table, r: Table, ci: nat, o: Outcome)
    requires ci < |spans| && InBounds(spans, o.matches) && Enters(spans, t, r, ci, o) && SetsAgree(t)
    ensures SetsAgree(r)
  {
    var n := |t.correlations|;
    forall i ensures i in r.producerMatched
        <==> exists k :: 0 <= k < |r.correlations| && r.correlations[k].producer == i {
      if i in t.producerMatched {
        var k :| 0 <= k < n && t.correlations[k].producer == i;
        assert r.correlations[k].producer == i;
      } else if i in o.matches {
        var j :| 0 <= j < |o.matches| && o.matches[j] == i;
        assert r.correlations[n + j].producer == i;
      }
    }
    forall i ensures i in r.consumerMatched
        <==> exists k :: 0 <= k < |r.correlations| && r.correlations[k].consumer == i {
      if i in t.consumerMatched {
        var k :| 0 <= k < n && t.correlations[k].consumer == i;
        assert r.correlations[k].consumer == i;
      } else if i in r.consumerMatched {
        assert r.correlations[n].consumer == i;
      }
    }
  }

  lemma HighKept(spans: seq<Span>, t: Table, r: Table, ci: nat, o: Outcome, i: nat)
    requires ci < |spans| && InBounds(spans, o.matches) && Enters(spans, t, r, ci, o)
    requires forall k :: 0 <= k < |t.correlations| ==> t.correlations[k].consumer < ci
    ensures HasHigh(r, i) <==> if i == ci then o.matches != [] && ConfidenceOf(o.how) == High else HasHigh(t, i)
  {
    if i == ci && o.matches != [] {
      assert r.correlations[|t.correlations|].consumer == ci;
    }
    if HasHigh(t, i) {
      var k :| 0 <= k < |t.correlations| && t.correlations[k].consumer == i && t.correlations[k].confidence == High;
      assert r.correlations[k].consumer == i;
    }
  }

  lemma ReferencesKept(spans: seq<Span>, window: int, t: Table, r: Table, ci: nat, o: Outcome)
    requires ci < |spans| && spans[ci].IsConsumer() && WellFormed(spans, spans[ci], window, o)
    requires Enters(spans, t, r, ci, o) && ReferencesAgree(spans, t, ci)
    requires forall k :: 0 <= k < |t.correlations| ==> t.correlations[k].consumer < ci
    ensures ReferencesAgree(spans, r, ci + 1)
  {
    hide HasHigh, CarriesContext, Compatible, StrongScopeCompatible, Delta, Span.IsConsumer, Span.IsProducer;
    forall i | 0 <= i <= ci && spans[i].IsConsumer()
      ensures r.Unresolved(i) <= r.References(i)
      ensures r.Unresolved(i) < r.References(i) <==> HasHigh(r, i)
      ensures r.References(i) > 0 <==> CarriesContext(spans[i])
    {
      HighKept(spans, t, r, ci, o, i);
    }
  }

  /** Entering a well-formed outcome keeps the tables in agreement. */
  lemma OutcomeAgrees(spans: seq<Span>, window: int, t: Table, ci: nat, o: Outcome)
    requires ci < |spans| && spans[ci].IsConsumer() && Agree(spans, window, t, ci)
    requires WellFormed(spans, spans[ci], window, o)
    ensures Agree(spans, window, AddOutcome(t, spans, ci, o), ci + 1)
  {
    var r := AddOutcome(t, spans, ci, o);
    OutcomeEnters(spans, window, t, ci, o);
    EntriesKept(spans, window, t, r, ci, o);
    ListsKept(spans, window, t, r, ci, o);
    SetsKept(spans, t, r, ci, o);
    ReferencesKept(spans, window, t, r, ci, o);
  }

  lemma AgreeUpTo(spans: seq<Span>, window: int, t: Table, n: nat, m: nat)
    requires n <= m <= |spans| && Agree(spans, window, t, n)
    requires forall i :: n <= i < m ==> !spans[i].IsConsumer()
    ensures Agree(spans, window, t, m)
  {}
}
