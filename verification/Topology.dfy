/** The observed topology: correlations grouped into edges, counted and sorted. */
module Topology {
  import opened Text
  import opened Spans
  import opened Counting
  import opened Totals
  import opened Tables

  datatype Edge = Edge(
    producer: string, system: string, destination: string, consumer: string, consumerGroup: string,
    subscription: string,
    environment: string, serviceNamespace: string, destinationNamespace: string, brokerAddress: string, count: nat)
  {
    /** The fields that tell edges apart, in the order in which they are compared. */
    function Fields(): (f: seq<string>)
      ensures |f| == 10
    {
      [producer, system, destination, consumer, consumerGroup, subscription,
       environment, serviceNamespace, destinationNamespace, brokerAddress]
    }

    function Key(): string { Join(Fields(), '\0') }
  }

  /** The edge between two correlated spans, not yet counted. */
  function EdgeBetween(p: Span, c: Span): Edge {
    Edge(p.service, p.system, p.destination, c.service, c.consumerGroup, c.subscription,
         p.environment, p.serviceNamespace, p.destinationNamespace, p.serverAddress, 0)
  }

  function EdgeOf(spans: seq<Span>, x: Correlation): Edge
    requires x.producer < |spans| && x.consumer < |spans|
  {
    EdgeBetween(spans[x.producer], spans[x.consumer])
  }

  function KeyOf(spans: seq<Span>): Correlation -> string {
    (x: Correlation) => if x.producer < |spans| && x.consumer < |spans| then EdgeOf(spans, x).Key() else ""
  }

  /** The order of the ten comparisons. */
  predicate EdgeBefore(a: Edge, b: Edge) {
    if a.producer != b.producer then Less(a.producer, b.producer)
    else if a.system != b.system then Less(a.system, b.system)
    else if a.destination != b.destination then Less(a.destination, b.destination)
    else if a.consumer != b.consumer then Less(a.consumer, b.consumer)
    else if a.consumerGroup != b.consumerGroup then Less(a.consumerGroup, b.consumerGroup)
    else if a.subscription != b.subscription then Less(a.subscription, b.subscription)
    else if a.environment != b.environment then Less(a.environment, b.environment)
    else if a.serviceNamespace != b.serviceNamespace then Less(a.serviceNamespace, b.serviceNamespace)
    else if a.destinationNamespace != b.destinationNamespace then Less(a.destinationNamespace, b.destinationNamespace)
    else Less(a.brokerAddress, b.brokerAddress)
  }

  lemma FieldsStep(x: string, y: string, xs: seq<string>, ys: seq<string>)
    requires |xs| == |ys|
    ensures LessFields([x] + xs, [y] + ys) <==> if x != y then Less(x, y) else LessFields(xs, ys)
  {
    LessTrichotomy(x, y);
    assert ([x] + xs)[1..] == xs && ([y] + ys)[1..] == ys;
  }

  /** The comparison from field `i` on. */
  predicate BeforeFrom(a: Edge, b: Edge, i: nat)
    requires i <= 10
  {
    LessFields(a.Fields()[i..], b.Fields()[i..])
  }

  lemma BeforeStep(a: Edge, b: Edge, i: nat)
    requires i < 10
    ensures BeforeFrom(a, b, i)
            <==> if a.Fields()[i] != b.Fields()[i] then Less(a.Fields()[i], b.Fields()[i]) else BeforeFrom(a, b, i + 1)
  {
    hide Edge.Fields;
    var f, g := a.Fields(), b.Fields();
    FieldsStep(f[i], g[i], f[i + 1..], g[i + 1..]);
    assert f[i..] == [f[i]] + f[i + 1..] && g[i..] == [g[i]] + g[i + 1..];
  }

  lemma BeforeEnds(a: Edge, b: Edge)
    ensures BeforeFrom(a, b, 0) <==> LessFields(a.Fields(), b.Fields())
    ensures !BeforeFrom(a, b, 10)
    ensures !Less(a.brokerAddress, a.brokerAddress)
  {
    LessTrichotomy(a.brokerAddress, a.brokerAddress);
    assert a.Fields()[0..] == a.Fields() && b.Fields()[0..] == b.Fields();
    assert a.Fields()[10..] == [] && b.Fields()[10..] == [];
    hide Edge.Fields, Less;
  }

  lemma FieldsAre(e: Edge)
    ensures var f := e.Fields();
      && f[0] == e.producer && f[1] == e.system && f[2] == e.destination && f[3] == e.consumer
      && f[4] == e.consumerGroup && f[5] == e.subscription && f[6] == e.environment && f[7] == e.serviceNamespace
      && f[8] == e.destinationNamespace && f[9] == e.brokerAddress
  {}

  /** Comparing the lists of fields is comparing field by field. */
  lemma EdgeOrder(a: Edge, b: Edge)
    ensures LessFields(a.Fields(), b.Fields()) <==> EdgeBefore(a, b)
  {
    hide Less, LessFields, BeforeFrom, Edge.Fields;
    FieldsAre(a);
    FieldsAre(b);
    BeforeEnds(a, b);
    BeforeStep(a, b, 0);
    BeforeStep(a, b, 1);
    BeforeStep(a, b, 2);
    BeforeStep(a, b, 3);
    BeforeStep(a, b, 4);
    BeforeStep(a, b, 5);
    BeforeStep(a, b, 6);
    BeforeStep(a, b, 7);
    BeforeStep(a, b, 8);
    BeforeStep(a, b, 9);
  }

  // ---------- What a topology is ----------

  predicate StrictlySorted(out: seq<Edge>) {
    forall i, j :: 0 <= i < j < |out| ==> LessFields(out[i].Fields(), out[j].Fields())
  }

  /** Correlation `j` is the first with its key. */
  predicate FirstWithKey(spans: seq<Span>, xs: seq<Correlation>, j: nat)
    requires j < |xs|
  {
    forall i :: 0 <= i < j ==> KeyOf(spans)(xs[i]) != KeyOf(spans)(xs[j])
  }

  /** The edge that the first correlation of its key stands for, counting all with that key. */
  function CountedEdge(spans: seq<Span>, xs: seq<Correlation>, j: nat): Edge
    requires PairsInRange(spans, xs) && j < |xs|
  {
    EdgeOf(spans, xs[j]).(count := CountIf(xs, HasKey(KeyOf(spans), KeyOf(spans)(xs[j]))))
  }

  /** The edges in strict order: one for every key, made from the first correlation with it. */
  ghost predicate IsTopology(spans: seq<Span>, xs: seq<Correlation>, out: seq<Edge>)
    requires PairsInRange(spans, xs)
  {
    && StrictlySorted(out)
    && (forall e :: e in out ==>
          exists j :: 0 <= j < |xs| && FirstWithKey(spans, xs, j) && e == CountedEdge(spans, xs, j))
    && (forall j :: 0 <= j < |xs| && FirstWithKey(spans, xs, j) ==> CountedEdge(spans, xs, j) in out)
  }

  /** Every correlation has a first one with its key. */
  lemma {:induction false} FirstExists(spans: seq<Span>, xs: seq<Correlation>, i: nat) returns (j: nat)
    requires i < |xs|
    ensures j <= i && FirstWithKey(spans, xs, j) && KeyOf(spans)(xs[j]) == KeyOf(spans)(xs[i])
  {
    if FirstWithKey(spans, xs, i) {
      j := i;
    } else {
      var h :| 0 <= h < i && KeyOf(spans)(xs[h]) == KeyOf(spans)(xs[i]);
      j := FirstExists(spans, xs, h);
    }
  }

  /** The topology does not depend on the order in which the map was traversed. */
  lemma TopologyUnique(spans: seq<Span>, xs: seq<Correlation>, a: seq<Edge>, b: seq<Edge>)
    requires PairsInRange(spans, xs) && IsTopology(spans, xs, a) && IsTopology(spans, xs, b)
    ensures a == b
  {
    hide CountedEdge, FirstWithKey;
    forall e ensures e in a <==> e in b {
      if e in a {
        var j :| 0 <= j < |xs| && FirstWithKey(spans, xs, j) && e == CountedEdge(spans, xs, j);
      }
      if e in b {
        var j :| 0 <= j < |xs| && FirstWithKey(spans, xs, j) && e == CountedEdge(spans, xs, j);
      }
    }
    SortedUnique(a, b);
  }

  lemma SortedTail(a: seq<Edge>)
    requires StrictlySorted(a) && a != []
    ensures StrictlySorted(a[1..]) && forall e :: e in a[1..] <==> e in a && e != a[0]
  {
    LessFieldsTrichotomy(a[0].Fields(), a[0].Fields());
    hide LessFields;
    var t := a[1..];
    assert forall i :: 0 <= i < |t| ==> t[i] == a[i + 1];
    forall e ensures e in t <==> e in a && e != a[0] {
      if e in a && e != a[0] {
        var i :| 0 <= i < |a| && a[i] == e;
        assert t[i - 1] == e;
      }
      if e in t {
        var i :| 0 <= i < |t| && t[i] == e;
        assert LessFields(a[0].Fields(), a[i + 1].Fields());
      }
    }
  }

  /** A strictly sorted sequence is determined by its elements. */
  lemma {:induction false} SortedUnique(a: seq<Edge>, b: seq<Edge>)
    requires StrictlySorted(a) && StrictlySorted(b) && forall e :: e in a <==> e in b
    ensures a == b
    decreases |a| + |b|, |b|
  {
    hide LessFields;
    if b == [] {
      assert forall i :: 0 <= i < |a| ==> a[i] in a;
    } else if a == [] {
      SortedUnique(b, a);
    } else {
      assert a[0] in b && b[0] in a;
      SortedHeadLeast(a, b[0]);
      SortedHeadLeast(b, a[0]);
      LessFieldsTrichotomy(a[0].Fields(), b[0].Fields());
      SortedTail(a);
      SortedTail(b);
      SortedUnique(a[1..], b[1..]);
      assert a == [a[0]] + a[1..] && b == [b[0]] + b[1..];
    }
  }

  lemma SortedHeadLeast(a: seq<Edge>, e: Edge)
    requires StrictlySorted(a) && e in a
    ensures e == a[0] || LessFields(a[0].Fields(), e.Fields())
  {}

  // ---------- Conservation ----------

  /** The counts of all edges, added up. */
  function SumCounts(out: seq<Edge>): nat {
    if out == [] then 0 else SumCounts(out[..|out| - 1]) + out[|out| - 1].count
  }

  ghost predicate DistinctKeys(out: seq<Edge>) {
    forall i, j :: 0 <= i < j < |out| ==> out[i].Key() != out[j].Key()
  }

  ghost function KeysOf(out: seq<Edge>): set<string> { set e | e in out :: e.Key() }

  lemma {:induction false} SumIsTotal(out: seq<Edge>, xs: seq<Correlation>, keyOf: Correlation -> string)
    requires DistinctKeys(out)
    requires forall i :: 0 <= i < |out| ==> out[i].count == CountIf(xs, HasKey(keyOf, out[i].Key()))
    ensures SumCounts(out) == Total(KeyCounts(xs, keyOf, KeysOf(out)))
  {
    hide Edge.Key;
    if out == [] {
      TotalZero(KeyCounts(xs, keyOf, KeysOf(out)));
    } else {
      var front, e := out[..|out| - 1], out[|out| - 1];
      SumIsTotal(front, xs, keyOf);
      assert out == front + [e];
      assert KeysOf(out) == KeysOf(front) + {e.Key()};
      hide Total, KeyCounts, HasKey, CountIf;
      OneMoreKey(xs, keyOf, KeysOf(front), e.Key());
    }
  }

  /** The edge made from a correlation is filed under the correlation's key. */
  lemma CountedKey(spans: seq<Span>, xs: seq<Correlation>, j: nat)
    requires PairsInRange(spans, xs) && j < |xs|
    ensures CountedEdge(spans, xs, j).Key() == KeyOf(spans)(xs[j]) == EdgeOf(spans, xs[j]).Key()
    ensures CountedEdge(spans, xs, j).Fields() == EdgeOf(spans, xs[j]).Fields()
  {}

  lemma EdgeSource(spans: seq<Span>, xs: seq<Correlation>, out: seq<Edge>, e: Edge) returns (j: nat)
    requires PairsInRange(spans, xs) && IsTopology(spans, xs, out) && e in out
    ensures j < |xs| && FirstWithKey(spans, xs, j) && e == CountedEdge(spans, xs, j)
    ensures e.Key() == KeyOf(spans)(xs[j]) && e.count == CountIf(xs, HasKey(KeyOf(spans), e.Key()))
  {
    j :| 0 <= j < |xs| && FirstWithKey(spans, xs, j) && e == CountedEdge(spans, xs, j);
    CountedKey(spans, xs, j);
  }

  lemma TopologyKeysDistinct(spans: seq<Span>, xs: seq<Correlation>, out: seq<Edge>)
    requires PairsInRange(spans, xs) && IsTopology(spans, xs, out)
    ensures DistinctKeys(out)
  {
    forall i, j | 0 <= i < j < |out| ensures out[i].Key() != out[j].Key() {
      LessFieldsTrichotomy(out[i].Fields(), out[i].Fields());
      assert out[i] != out[j];
      hide CountedEdge, KeyOf, Edge.Key, Edge.Fields, LessFields, IsTopology, CountIf;
      var a := EdgeSource(spans, xs, out, out[i]);
      var b := EdgeSource(spans, xs, out, out[j]);
    }
  }

  lemma TopologyKeys(spans: seq<Span>, xs: seq<Correlation>, out: seq<Edge>, i: nat)
    requires PairsInRange(spans, xs) && IsTopology(spans, xs, out) && i < |xs|
    ensures KeyOf(spans)(xs[i]) in KeysOf(out)
  {
    hide KeyOf, CountedEdge, Edge.Key, StrictlySorted;
    var j := FirstExists(spans, xs, i);
    CountedKey(spans, xs, j);
    assert CountedEdge(spans, xs, j) in out;
  }

  /** Every correlation is counted on exactly one edge. */
  lemma TopologyConserves(spans: seq<Span>, xs: seq<Correlation>, out: seq<Edge>)
    requires PairsInRange(spans, xs) && IsTopology(spans, xs, out)
    ensures SumCounts(out) == |xs|
  {
    hide KeyOf, CountedEdge, Edge.Key, IsTopology, CountIf, KeysOf, KeyCounts, SumCounts;
    TopologyKeysDistinct(spans, xs, out);
    forall i | 0 <= i < |out| ensures out[i].count == CountIf(xs, HasKey(KeyOf(spans), out[i].Key())) {
      var _ := EdgeSource(spans, xs, out, out[i]);
    }
    SumIsTotal(out, xs, KeyOf(spans));
    forall i | 0 <= i < |xs| ensures KeyOf(spans)(xs[i]) in KeysOf(out) {
      TopologyKeys(spans, xs, out, i);
    }
    KeyCountsSum(xs, KeyOf(spans), KeysOf(out));
  }

  // ---------- Exactness ----------

  /** Correlations under one key agree in all ten fields. */
  predicate KeysTell(spans: seq<Span>, xs: seq<Correlation>)
    requires PairsInRange(spans, xs)
  {
    forall i, j :: 0 <= i < |xs| && 0 <= j < |xs| && KeyOf(spans)(xs[i]) == KeyOf(spans)(xs[j]) ==>
      EdgeOf(spans, xs[i]).Fields() == EdgeOf(spans, xs[j]).Fields()
  }

  /** No field that an edge is made from holds a NUL. */
  predicate NulFree(spans: seq<Span>) {
    forall i :: 0 <= i < |spans| ==>
      && '\0' !in spans[i].service && '\0' !in spans[i].system && '\0' !in spans[i].destination
      && '\0' !in spans[i].consumerGroup && '\0' !in spans[i].subscription && '\0' !in spans[i].environment
      && '\0' !in spans[i].serviceNamespace && '\0' !in spans[i].destinationNamespace
      && '\0' !in spans[i].serverAddress
  }

  lemma NulFreeFields(spans: seq<Span>, x: Correlation)
    requires x.producer < |spans| && x.consumer < |spans| && NulFree(spans)
    ensures Free(EdgeOf(spans, x).Fields(), '\0')
  {}

  /** Keys tell the fields when no field holds a NUL. */
  lemma NulFreeTells(spans: seq<Span>, xs: seq<Correlation>)
    requires PairsInRange(spans, xs) && NulFree(spans)
    ensures KeysTell(spans, xs)
  {
    hide EdgeOf, Edge.Fields, NulFree;
    forall i, j | 0 <= i < |xs| && 0 <= j < |xs| && KeyOf(spans)(xs[i]) == KeyOf(spans)(xs[j])
      ensures EdgeOf(spans, xs[i]).Fields() == EdgeOf(spans, xs[j]).Fields()
    {
      NulFreeFields(spans, xs[i]);
      NulFreeFields(spans, xs[j]);
      JoinInjective(EdgeOf(spans, xs[i]).Fields(), EdgeOf(spans, xs[j]).Fields(), '\0');
    }
  }

  /** A NUL at a field's end merges two different edges. */
  lemma NulMerges(e: Edge)
    ensures e.(producer := "a\0b", system := "c").Key() == e.(producer := "a", system := "b\0c").Key()
  {
    var rest := e.Fields()[2..];
    JoinAmbiguous("a", "b", "c", rest, '\0');
    assert "a" + ['\0'] + "b" == "a\0b" && "b" + ['\0'] + "c" == "b\0c";
    KeySplits(e, "a\0b", "c");
    KeySplits(e, "a", "b\0c");
    hide *;
  }

  lemma KeySplits(e: Edge, producer: string, system: string)
    ensures e.(producer := producer, system := system).Key() == Join([producer] + ([system] + e.Fields()[2..]), '\0')
  {
    hide Join;
    var x := e.(producer := producer, system := system);
    assert x.Fields() == [producer] + ([system] + e.Fields()[2..]);
  }

  /** The correlation runs along the edge: the producer has the edge's service, system and destination, its environment,
      namespaces and broker address, the consumer its service, group and subscription. */
  predicate Along(spans: seq<Span>, e: Edge, x: Correlation) {
    && x.producer < |spans| && x.consumer < |spans|
    && e.producer == spans[x.producer].service && e.consumer == spans[x.consumer].service
    && e.system == spans[x.producer].system && e.destination == spans[x.producer].destination
    && e.consumerGroup == spans[x.consumer].consumerGroup && e.subscription == spans[x.consumer].subscription
    && e.environment == spans[x.producer].environment
    && e.serviceNamespace == spans[x.producer].serviceNamespace
    && e.destinationNamespace == spans[x.producer].destinationNamespace
    && e.brokerAddress == spans[x.producer].serverAddress
  }

  function AlongEdge(spans: seq<Span>, e: Edge): Correlation -> bool { (x: Correlation) => Along(spans, e, x) }

  lemma AlongByFields(spans: seq<Span>, e: Edge, x: Correlation)
    requires x.producer < |spans| && x.consumer < |spans|
    ensures Along(spans, e, x) <==> EdgeOf(spans, x).Fields() == e.Fields()
  {
    var f, g := EdgeOf(spans, x).Fields(), e.Fields();
    if f == g {
      assert f[0] == g[0] && f[1] == g[1] && f[2] == g[2] && f[3] == g[3] && f[4] == g[4];
      assert f[5] == g[5] && f[6] == g[6] && f[7] == g[7] && f[8] == g[8] && f[9] == g[9];
    }
  }

  /** The edge counts exactly the correlations that run along it. */
  predicate CountsAlong(spans: seq<Span>, xs: seq<Correlation>, e: Edge) {
    e.count == CountIf(xs, AlongEdge(spans, e))
  }

  lemma SameFieldsSameKey(spans: seq<Span>, x: Correlation, e: Edge)
    requires Along(spans, e, x)
    ensures KeyOf(spans)(x) == e.Key()
  {
    AlongByFields(spans, e, x);
  }

  lemma CountedAlong(spans: seq<Span>, xs: seq<Correlation>, j: nat)
    requires PairsInRange(spans, xs) && j < |xs|
    ensures Along(spans, CountedEdge(spans, xs, j), xs[j])
  {
    CountedKey(spans, xs, j);
    AlongByFields(spans, CountedEdge(spans, xs, j), xs[j]);
    hide CountedEdge, Along;
  }

  lemma CountsWhenTold(spans: seq<Span>, xs: seq<Correlation>, j: nat)
    requires PairsInRange(spans, xs) && j < |xs| && KeysTell(spans, xs)
    ensures CountsAlong(spans, xs, CountedEdge(spans, xs, j)) && CountedEdge(spans, xs, j).count >= 1
  {
    CountedKey(spans, xs, j);
    var e := CountedEdge(spans, xs, j);
    var byKey, along := HasKey(KeyOf(spans), KeyOf(spans)(xs[j])), AlongEdge(spans, e);
    hide KeyOf, EdgeOf, Edge.Fields, Along;
    forall i | 0 <= i < |xs| ensures byKey(xs[i]) == along(xs[i]) {
      AlongByFields(spans, e, xs[i]);
      if along(xs[i]) { SameFieldsSameKey(spans, xs[i], e); }
    }
    CountSame(xs, byKey, along);
    CountedOnce(xs, byKey, j);
  }

  /** An edge whose key covers other fields too counts too much. */
  lemma CountsTooMuch(spans: seq<Span>, xs: seq<Correlation>, j: nat, i: nat)
    requires PairsInRange(spans, xs) && j < |xs| && i < |xs| && KeyOf(spans)(xs[i]) == KeyOf(spans)(xs[j])
    requires EdgeOf(spans, xs[i]).Fields() != EdgeOf(spans, xs[j]).Fields()
    ensures !CountsAlong(spans, xs, CountedEdge(spans, xs, j))
  {
    CountedKey(spans, xs, j);
    var e := CountedEdge(spans, xs, j);
    var byKey, along := HasKey(KeyOf(spans), KeyOf(spans)(xs[j])), AlongEdge(spans, e);
    hide KeyOf, EdgeOf, Edge.Fields, Along;
    forall k | 0 <= k < |xs| && along(xs[k]) ensures byKey(xs[k]) {
      SameFieldsSameKey(spans, xs[k], e);
    }
    AlongByFields(spans, e, xs[i]);
    CountStrict(xs, byKey, along, i);
  }

  /** Every edge counts exactly the correlations that run along it if and only if the keys tell the fields apart. */
  lemma TopologyExact(spans: seq<Span>, xs: seq<Correlation>, out: seq<Edge>)
    requires PairsInRange(spans, xs) && IsTopology(spans, xs, out)
    ensures KeysTell(spans, xs) <==> forall e :: e in out ==> CountsAlong(spans, xs, e)
  {
    hide CountedEdge, KeyOf, EdgeOf, Edge.Fields, Edge.Key, StrictlySorted, CountsAlong, CountIf;
    if KeysTell(spans, xs) {
      forall e | e in out ensures CountsAlong(spans, xs, e) {
        var j := EdgeSource(spans, xs, out, e);
        CountsWhenTold(spans, xs, j);
      }
    } else {
      var i, j :| 0 <= i < |xs| && 0 <= j < |xs| && KeyOf(spans)(xs[i]) == KeyOf(spans)(xs[j])
                  && EdgeOf(spans, xs[i]).Fields() != EdgeOf(spans, xs[j]).Fields();
      var h := FirstExists(spans, xs, i);
      CountsTooMuch(spans, xs, h, if EdgeOf(spans, xs[i]).Fields() != EdgeOf(spans, xs[h]).Fields() then i else j);
      assert CountedEdge(spans, xs, h) in out && !CountsAlong(spans, xs, CountedEdge(spans, xs, h));
    }
  }

  /** Every correlation then runs along some edge, which counts it. */
  lemma TopologyComplete(spans: seq<Span>, xs: seq<Correlation>, out: seq<Edge>, i: nat) returns (e: Edge)
    requires PairsInRange(spans, xs) && IsTopology(spans, xs, out) && KeysTell(spans, xs) && i < |xs|
    ensures e in out && Along(spans, e, xs[i]) && e.Fields() == EdgeOf(spans, xs[i]).Fields() && e.count >= 1
  {
    hide EdgeOf, Edge.Fields, Edge.Key, KeyOf, CountedEdge, StrictlySorted, CountsAlong, Along;
    var j := FirstExists(spans, xs, i);
    CountedKey(spans, xs, j);
    CountsWhenTold(spans, xs, j);
    e := CountedEdge(spans, xs, j);
    AlongByFields(spans, e, xs[i]);
  }

  predicate OnSomeEdge(spans: seq<Span>, out: seq<Edge>, x: Correlation) {
    exists i :: 0 <= i < |out| && Along(spans, out[i], x)
  }

  predicate HasCorrelation(spans: seq<Span>, xs: seq<Correlation>, e: Edge) {
    exists k :: 0 <= k < |xs| && Along(spans, e, xs[k])
  }

  predicate NoneTwice(out: seq<Edge>) {
    forall i, j :: 0 <= i < j < |out| ==> out[i].(count := 0) != out[j].(count := 0)
  }

  /** The edges are the combinations of values that correlated spans have, each once, with the number of correlations
      that have it. */
  predicate Observes(spans: seq<Span>, xs: seq<Correlation>, out: seq<Edge>) {
    && (forall k :: 0 <= k < |xs| ==> OnSomeEdge(spans, out, xs[k]))
    && (forall i :: 0 <= i < |out| ==> HasCorrelation(spans, xs, out[i]) && CountsAlong(spans, xs, out[i]))
    && NoneTwice(out)
  }

  lemma EdgesDiffer(out: seq<Edge>)
    requires StrictlySorted(out)
    ensures NoneTwice(out)
  {
    forall i, j | 0 <= i < j < |out| ensures out[i].(count := 0) != out[j].(count := 0) {
      LessFieldsTrichotomy(out[i].Fields(), out[i].Fields());
      assert out[i].(count := 0).Fields() == out[i].Fields() && out[j].(count := 0).Fields() == out[j].Fields();
      hide LessFields, Edge.Fields;
    }
  }

  lemma EdgeArises(spans: seq<Span>, xs: seq<Correlation>, out: seq<Edge>, e: Edge)
    requires PairsInRange(spans, xs) && IsTopology(spans, xs, out) && KeysTell(spans, xs) && e in out
    ensures HasCorrelation(spans, xs, e) && CountsAlong(spans, xs, e)
  {
    TopologyExact(spans, xs, out);
    hide IsTopology, CountedEdge, Along, FirstWithKey, KeyOf, KeysTell, CountsAlong, Edge.Key;
    var j := EdgeSource(spans, xs, out, e);
    CountedAlong(spans, xs, j);
  }

  lemma OnItsEdge(spans: seq<Span>, xs: seq<Correlation>, out: seq<Edge>, k: nat)
    requires PairsInRange(spans, xs) && IsTopology(spans, xs, out) && KeysTell(spans, xs) && k < |xs|
    ensures OnSomeEdge(spans, out, xs[k])
  {
    hide IsTopology, Along, KeysTell, EdgeOf, Edge.Fields;
    var e := TopologyComplete(spans, xs, out, k);
    var i :| 0 <= i < |out| && out[i] == e;
  }

  /** So the topology observes the correlations when keys tell the fields, as they do when no field holds a NUL. */
  lemma TopologyObserves(spans: seq<Span>, xs: seq<Correlation>, out: seq<Edge>)
    requires PairsInRange(spans, xs) && IsTopology(spans, xs, out) && KeysTell(spans, xs)
    ensures Observes(spans, xs, out)
  {
    EdgesDiffer(out);
    hide IsTopology, KeysTell, OnSomeEdge, HasCorrelation, CountsAlong, NoneTwice;
    forall k | 0 <= k < |xs| ensures OnSomeEdge(spans, out, xs[k]) {
      OnItsEdge(spans, xs, out, k);
    }
    forall i | 0 <= i < |out| ensures HasCorrelation(spans, xs, out[i]) && CountsAlong(spans, xs, out[i]) {
      EdgeArises(spans, xs, out, out[i]);
    }
  }

  // ---------- The code ----------

  /** Every key has its counted edge in the map. */
  ghost predicate HoldsCounts(spans: seq<Span>, xs: seq<Correlation>, m: map<string, Edge>)
    requires PairsInRange(spans, xs)
  {
    forall j :: 0 <= j < |xs| ==> HoldsCount(spans, xs, m, j)
  }

  ghost predicate HoldsCount(spans: seq<Span>, xs: seq<Correlation>, m: map<string, Edge>, j: nat)
    requires PairsInRange(spans, xs) && j < |xs|
  {
    FirstWithKey(spans, xs, j) ==> KeyOf(spans)(xs[j]) in m && m[KeyOf(spans)(xs[j])] == CountedEdge(spans, xs, j)
  }

  /** The map has no other key. */
  ghost predicate OnlyKeys(spans: seq<Span>, xs: seq<Correlation>, m: map<string, Edge>)
    requires PairsInRange(spans, xs)
  {
    forall k :: k in m ==> exists j :: 0 <= j < |xs| && KeyOf(spans)(xs[j]) == k
  }

  ghost predicate Tallied(spans: seq<Span>, xs: seq<Correlation>, m: map<string, Edge>)
    requires PairsInRange(spans, xs)
  {
    HoldsCounts(spans, xs, m) && OnlyKeys(spans, xs, m)
  }

  lemma CountedOneMore(spans: seq<Span>, xs: seq<Correlation>, x: Correlation, j: nat)
    requires PairsInRange(spans, xs + [x]) && PairsInRange(spans, xs) && j < |xs|
    ensures FirstWithKey(spans, xs + [x], j) <==> FirstWithKey(spans, xs, j)
    ensures var e := CountedEdge(spans, xs, j);
      CountedEdge(spans, xs + [x], j) == if KeyOf(spans)(x) == KeyOf(spans)(xs[j]) then e.(count := e.count + 1) else e
  {
    hide KeyOf, EdgeOf;
    var all := xs + [x];
    assert forall i :: 0 <= i < |xs| ==> all[i] == xs[i];
    CountAppend(xs, x, HasKey(KeyOf(spans), KeyOf(spans)(xs[j])));
  }

  lemma NewKeyCounted(spans: seq<Span>, xs: seq<Correlation>, x: Correlation)
    requires PairsInRange(spans, xs + [x])
    requires forall i :: 0 <= i < |xs| ==> KeyOf(spans)(xs[i]) != KeyOf(spans)(x)
    ensures FirstWithKey(spans, xs + [x], |xs|)
    ensures CountedEdge(spans, xs + [x], |xs|) == EdgeOf(spans, x).(count := 1)
  {
    hide KeyOf;
    var p := HasKey(KeyOf(spans), KeyOf(spans)(x));
    CountAppend(xs, x, p);
    NoneCounted(xs, p);
  }

  function TallyEdge(spans: seq<Span>, x: Correlation, m: map<string, Edge>): map<string, Edge>
    requires x.producer < |spans| && x.consumer < |spans|
  {
    var k := KeyOf(spans)(x);
    var e := if k in m then m[k] else EdgeOf(spans, x);
    m[k := e.(count := e.count + 1)]
  }

  lemma KeysOneMore(spans: seq<Span>, xs: seq<Correlation>, x: Correlation, m: map<string, Edge>)
    requires PairsInRange(spans, xs + [x]) && PairsInRange(spans, xs) && OnlyKeys(spans, xs, m)
    requires x.producer < |spans| && x.consumer < |spans|
    ensures OnlyKeys(spans, xs + [x], TallyEdge(spans, x, m))
  {
    hide KeyOf, EdgeOf;
    var all := xs + [x];
    forall k | k in TallyEdge(spans, x, m) ensures exists j :: 0 <= j < |all| && KeyOf(spans)(all[j]) == k {
      if k in m {
        var j :| 0 <= j < |xs| && KeyOf(spans)(xs[j]) == k;
        assert all[j] == xs[j];
      } else {
        assert all[|xs|] == x;
      }
    }
  }

  lemma KnownKey(spans: seq<Span>, xs: seq<Correlation>, m: map<string, Edge>, k: string)
    requires PairsInRange(spans, xs) && Tallied(spans, xs, m)
    ensures k in m <==> exists j :: 0 <= j < |xs| && KeyOf(spans)(xs[j]) == k
  {
    hide KeyOf, CountedEdge;
    if i :| 0 <= i < |xs| && KeyOf(spans)(xs[i]) == k {
      var j := FirstExists(spans, xs, i);
      assert HoldsCount(spans, xs, m, j);
    }
  }

  lemma OldKeyCounts(spans: seq<Span>, xs: seq<Correlation>, x: Correlation, m: map<string, Edge>, j: nat)
    requires PairsInRange(spans, xs + [x]) && PairsInRange(spans, xs) && HoldsCounts(spans, xs, m)
    requires x.producer < |spans| && x.consumer < |spans| && j < |xs|
    ensures HoldsCount(spans, xs + [x], TallyEdge(spans, x, m), j)
  {
    hide KeyOf, EdgeOf, CountedEdge, FirstWithKey;
    assert HoldsCount(spans, xs, m, j);
    CountedOneMore(spans, xs, x, j);
    assert (xs + [x])[j] == xs[j];
  }

  lemma NewKeyCounts(spans: seq<Span>, xs: seq<Correlation>, x: Correlation, m: map<string, Edge>)
    requires PairsInRange(spans, xs + [x]) && PairsInRange(spans, xs) && Tallied(spans, xs, m)
    requires x.producer < |spans| && x.consumer < |spans|
    ensures HoldsCount(spans, xs + [x], TallyEdge(spans, x, m), |xs|)
  {
    KnownKey(spans, xs, m, KeyOf(spans)(x));
    hide KeyOf, EdgeOf, CountedEdge, Tallied;
    var all := xs + [x];
    assert all[|xs|] == x && forall i :: 0 <= i < |xs| ==> all[i] == xs[i];
    if FirstWithKey(spans, all, |xs|) {
      assert forall i :: 0 <= i < |xs| ==> KeyOf(spans)(xs[i]) == KeyOf(spans)(all[i]) != KeyOf(spans)(x);
      NewKeyCounted(spans, xs, x);
      FreshCounts(spans, x);
    }
  }

  lemma TalliedOneMore(spans: seq<Span>, xs: seq<Correlation>, x: Correlation, m: map<string, Edge>)
    requires PairsInRange(spans, xs + [x]) && PairsInRange(spans, xs) && Tallied(spans, xs, m)
    requires x.producer < |spans| && x.consumer < |spans|
    ensures Tallied(spans, xs + [x], TallyEdge(spans, x, m))
  {
    KeysOneMore(spans, xs, x, m);
    hide HoldsCount, OnlyKeys, TallyEdge;
    forall j | 0 <= j < |xs + [x]| ensures HoldsCount(spans, xs + [x], TallyEdge(spans, x, m), j) {
      if j < |xs| {
        OldKeyCounts(spans, xs, x, m, j);
      } else {
        NewKeyCounts(spans, xs, x, m);
      }
    }
  }

  lemma FreshCounts(spans: seq<Span>, x: Correlation)
    requires x.producer < |spans| && x.consumer < |spans|
    ensures EdgeOf(spans, x).count == 0
  {}

  lemma KeyOfEdge(spans: seq<Span>, x: Correlation)
    requires x.producer < |spans| && x.consumer < |spans|
    ensures KeyOf(spans)(x) == EdgeOf(spans, x).Key()
  {}

  lemma NothingTallied(spans: seq<Span>)
    ensures PairsInRange(spans, []) && Tallied(spans, [], map[])
  {}

  method CountEdges(spans: seq<Span>, xs: seq<Correlation>) returns (m: map<string, Edge>)
    requires PairsInRange(spans, xs)
    ensures Tallied(spans, xs, m)
  {
    m := map[];
    hide Tallied, Edge.Key, EdgeBetween, KeyOf;
    NothingTallied(spans);
    assert xs[..0] == [];
    for i := 0 to |xs|
      invariant PairsInRange(spans, xs[..i]) && Tallied(spans, xs[..i], m)
    {
      var x := xs[i];
      assert xs[..i + 1] == xs[..i] + [x];
      TalliedOneMore(spans, xs[..i], x, m);
      KeyOfEdge(spans, x);
      var edge := EdgeBetween(spans[x.producer], spans[x.consumer]);
      var k := edge.Key();
      var counted := if k in m then m[k] else edge;
      m := m[k := counted.(count := counted.count + 1)];
    }
    assert xs[..|xs|] == xs;
  }

  predicate DistinctFields(out: seq<Edge>) {
    forall i, j :: 0 <= i < j < |out| ==> out[i].Fields() != out[j].Fields()
  }

  lemma InsertEdgeSorted(s: seq<Edge>, x: Edge, k: nat)
    requires StrictlySorted(s) && k <= |s|
    requires k > 0 ==> LessFields(s[k - 1].Fields(), x.Fields())
    requires k < |s| ==> LessFields(x.Fields(), s[k].Fields())
    ensures StrictlySorted(s[..k] + [x] + s[k..])
  {
    hide LessFields, Edge.Fields;
    var r := s[..k] + [x] + s[k..];
    assert forall i :: 0 <= i < |r| ==> r[i] == if i < k then s[i] else if i == k then x else s[i - 1];
    forall i | 0 <= i < k ensures LessFields(s[i].Fields(), x.Fields()) {
      if i < k - 1 { LessFieldsTransitive(s[i].Fields(), s[k - 1].Fields(), x.Fields()); }
    }
    forall i | k <= i < |s| ensures LessFields(x.Fields(), s[i].Fields()) {
      if i > k { LessFieldsTransitive(x.Fields(), s[k].Fields(), s[i].Fields()); }
    }
  }

  /** sort.Slice on the ten fields; no two edges compare equal. */
  method SortEdges(edges: seq<Edge>) returns (sorted: seq<Edge>)
    requires DistinctFields(edges)
    ensures StrictlySorted(sorted) && forall e :: e in sorted <==> e in edges
  {
    hide LessFields, Edge.Fields;
    sorted := [];
    for i := 0 to |edges|
      invariant StrictlySorted(sorted) && forall e :: e in sorted <==> e in edges[..i]
    {
      var k := |sorted|;
      while k > 0 && LessFields(edges[i].Fields(), sorted[k - 1].Fields())
        invariant 0 <= k <= |sorted|
        invariant k < |sorted| ==> LessFields(edges[i].Fields(), sorted[k].Fields())
      {
        k := k - 1;
      }
      if k > 0 {
        assert sorted[k - 1] in edges[..i];
        LessFieldsTrichotomy(edges[i].Fields(), sorted[k - 1].Fields());
      }
      InsertEdgeSorted(sorted, edges[i], k);
      InsertMembers(sorted, edges[i], k);
      assert edges[..i + 1] == edges[..i] + [edges[i]];
      sorted := sorted[..k] + [edges[i]] + sorted[k..];
    }
    assert edges[..|edges|] == edges;
  }

  lemma InsertMembers<T>(s: seq<T>, x: T, k: nat)
    requires k <= |s|
    ensures forall e :: e in s[..k] + [x] + s[k..] <==> e in s || e == x
  {
    assert s == s[..k] + s[k..];
  }

  /** The values of the map, in whatever order it yields its keys. */
  method Collect(m: map<string, Edge>) returns (out: seq<Edge>)
    requires forall k :: k in m ==> m[k].Key() == k
    ensures DistinctFields(out) && forall e :: e in out <==> e.Key() in m && m[e.Key()] == e
  {
    hide Edge.Key;
    out := [];
    var todo := m.Keys;
    while todo != {}
      invariant todo <= m.Keys
      invariant forall e :: e in out <==> e.Key() in m.Keys - todo && m[e.Key()] == e
      invariant DistinctFields(out)
      decreases todo
    {
      var k :| k in todo;
      FieldsGiveKey(m[k], out);
      todo := todo - {k};
      out := out + [m[k]];
    }
  }

  lemma FieldsGiveKey(x: Edge, out: seq<Edge>)
    ensures forall e :: e in out && e.Fields() == x.Fields() ==> e.Key() == x.Key()
  {}

  lemma TalliedIsTopology(spans: seq<Span>, xs: seq<Correlation>, m: map<string, Edge>, out: seq<Edge>)
    requires PairsInRange(spans, xs) && Tallied(spans, xs, m) && StrictlySorted(out)
    requires forall e :: e in out <==> e.Key() in m && m[e.Key()] == e
    ensures IsTopology(spans, xs, out)
  {
    hide Edge.Key, KeyOf, CountedEdge, StrictlySorted, FirstWithKey;
    forall e | e in out
      ensures exists j :: 0 <= j < |xs| && FirstWithKey(spans, xs, j) && e == CountedEdge(spans, xs, j)
    {
      var i :| 0 <= i < |xs| && KeyOf(spans)(xs[i]) == e.Key();
      var j := FirstExists(spans, xs, i);
      assert HoldsCount(spans, xs, m, j);
    }
    forall j | 0 <= j < |xs| && FirstWithKey(spans, xs, j) ensures CountedEdge(spans, xs, j) in out {
      assert HoldsCount(spans, xs, m, j);
      CountedKey(spans, xs, j);
    }
  }

  lemma TalliedKeys(spans: seq<Span>, xs: seq<Correlation>, m: map<string, Edge>)
    requires PairsInRange(spans, xs) && Tallied(spans, xs, m)
    ensures forall k :: k in m ==> m[k].Key() == k
  {
    hide Edge.Key, KeyOf, CountedEdge;
    forall k | k in m ensures m[k].Key() == k {
      var i :| 0 <= i < |xs| && KeyOf(spans)(xs[i]) == k;
      var j := FirstExists(spans, xs, i);
      assert HoldsCount(spans, xs, m, j);
      CountedKey(spans, xs, j);
    }
  }

  lemma EdgesOrdered(out: seq<Edge>)
    requires StrictlySorted(out)
    ensures forall i, j :: 0 <= i < j < |out| ==> EdgeBefore(out[i], out[j])
  {
    hide LessFields, EdgeBefore;
    forall i, j | 0 <= i < j < |out| ensures EdgeBefore(out[i], out[j]) {
      EdgeOrder(out[i], out[j]);
    }
  }

  method BuildTopology(spans: seq<Span>, xs: seq<Correlation>) returns (out: seq<Edge>)
    requires PairsInRange(spans, xs)
    ensures IsTopology(spans, xs, out)
    ensures NulFree(spans) ==> Observes(spans, xs, out)
    ensures forall i, j :: 0 <= i < j < |out| ==> EdgeBefore(out[i], out[j])
  {
    hide Tallied, Edge.Key, Edge.Fields, IsTopology, DistinctFields, StrictlySorted, NulFree, Observes, KeysTell,
         EdgeBefore;
    var m := CountEdges(spans, xs);
    TalliedKeys(spans, xs, m);
    var unsorted := Collect(m);
    out := SortEdges(unsorted);
    EdgesOrdered(out);
    TalliedIsTopology(spans, xs, m, out);
    if NulFree(spans) {
      NulFreeTells(spans, xs);
      TopologyObserves(spans, xs, out);
    }
  }
}
