/** The correlation engine's three hash indexes and what a look-up in them finds. */
module Indexes {
  import opened Text
  import opened Spans
  import opened Routes
  import opened Nearest
  import opened RouteWalk
  import opened Tables

  // ---------- Buckets ----------

  predicate Ascending(s: seq<nat>) {
    forall i, j :: 0 <= i < j < |s| ==> s[i] < s[j]
  }

  type Index = map<string, seq<nat>>

  datatype IndexKind = ByContext | ByRoute | ByMessage

  /** Under what text an index files a span, if at all. */
  function IndexKey(kind: IndexKind, s: Span): Option<string> {
    if !s.IsProducer() then None
    else match kind
      case ByContext => Some(Key(s.traceId, s.spanId))
      case ByRoute => if RouteLookupKey(s) != "" then Some(RouteLookupKey(s)) else None
      case ByMessage =>
        if RouteLookupKey(s) != "" && s.Identity() != "" then Some(RouteLookupKey(s) + "\0" + s.Identity()) else None
  }

  function Lookup(index: Index, k: string): seq<nat> { if k in index then index[k] else [] }

  function FileUnder(index: Index, k: string, i: nat): Index { index[k := Lookup(index, k) + [i]] }

  /** The spans among the first `n` that belong under `k`, in order. */
  function Bucket(kind: IndexKind, spans: seq<Span>, n: nat, k: string): (r: seq<nat>)
    requires n <= |spans|
    ensures forall j :: 0 <= j < |r| ==> r[j] < n
    ensures forall i :: i in r <==> 0 <= i < n && IndexKey(kind, spans[i]) == Some(k)
    ensures Ascending(r)
  {
    if n == 0 then []
    else Bucket(kind, spans, n - 1, k) + if IndexKey(kind, spans[n - 1]) == Some(k) then [n - 1] else []
  }

  /** The index after span `i` has been filed. */
  function Filed(kind: IndexKind, index: Index, s: Span, i: nat): Index {
    var k := IndexKey(kind, s);
    if k.Some? then FileUnder(index, k.value, i) else index
  }

  /** The index after the first `n` spans have been filed, one after the other. */
  function IndexOf(kind: IndexKind, spans: seq<Span>, n: nat): Index
    requires n <= |spans|
  {
    if n == 0 then map[] else Filed(kind, IndexOf(kind, spans, n - 1), spans[n - 1], n - 1)
  }

  lemma NothingIndexed(kind: IndexKind, spans: seq<Span>, k: string)
    ensures Lookup(IndexOf(kind, spans, 0), k) == Bucket(kind, spans, 0, k)
  {}

  lemma LookupFiled(kind: IndexKind, index: Index, s: Span, i: nat, k: string)
    ensures Lookup(Filed(kind, index, s, i), k) == Lookup(index, k) + if IndexKey(kind, s) == Some(k) then [i] else []
  {
    hide IndexKey;
  }

  lemma OneMoreIndexed(kind: IndexKind, spans: seq<Span>, n: nat, k: string)
    requires n < |spans|
    ensures IndexOf(kind, spans, n + 1) == Filed(kind, IndexOf(kind, spans, n), spans[n], n)
    ensures Bucket(kind, spans, n + 1, k)
         == Bucket(kind, spans, n, k) + if IndexKey(kind, spans[n]) == Some(k) then [n] else []
  {
    hide IndexKey, Filed;
  }

  /** Each entry of an index is the list of all spans with that key. */
  lemma {:induction false} IndexHoldsBuckets(kind: IndexKind, spans: seq<Span>, n: nat, k: string)
    requires n <= |spans|
    ensures Lookup(IndexOf(kind, spans, n), k) == Bucket(kind, spans, n, k)
  {
    hide *;
    if n == 0 {
      NothingIndexed(kind, spans, k);
    } else {
      IndexHoldsBuckets(kind, spans, n - 1, k);
      LookupFiled(kind, IndexOf(kind, spans, n - 1), spans[n - 1], n - 1, k);
      OneMoreIndexed(kind, spans, n - 1, k);
    }
  }

  // ---------- Sorting a route by end time ----------

  function InsertByEnd(spans: seq<Span>, i: nat, sorted: seq<nat>): (r: seq<nat>)
    requires i < |spans| && InBounds(spans, sorted)
    ensures InBounds(spans, r)
  {
    if sorted == [] || EndLess(spans, i, sorted[0]) then [i] + sorted
    else [sorted[0]] + InsertByEnd(spans, i, sorted[1..])
  }

  lemma {:induction false} InsertKeepsElements(spans: seq<Span>, i: nat, sorted: seq<nat>)
    requires i < |spans| && InBounds(spans, sorted)
    ensures Elements(InsertByEnd(spans, i, sorted)) == Elements(sorted) + {i}
  {
    if sorted == [] || EndLess(spans, i, sorted[0]) {
      assert Elements([i] + sorted) == Elements(sorted) + {i};
    } else {
      InsertKeepsElements(spans, i, sorted[1..]);
      assert sorted == [sorted[0]] + sorted[1..];
      assert Elements(sorted) == {sorted[0]} + Elements(sorted[1..]);
      assert Elements([sorted[0]] + InsertByEnd(spans, i, sorted[1..]))
          == {sorted[0]} + Elements(InsertByEnd(spans, i, sorted[1..]));
    }
  }

  lemma SortedCons(spans: seq<Span>, x: nat, tail: seq<nat>)
    requires x < |spans| && SortedByEnd(spans, tail)
    requires forall y :: y in Elements(tail) ==> y < |spans| && EndLess(spans, x, y)
    ensures SortedByEnd(spans, [x] + tail)
  {
    var r := [x] + tail;
    forall j, k | 0 <= j < k < |r| ensures EndLess(spans, r[j], r[k]) {
      assert r[k] == tail[k - 1] && tail[k - 1] in Elements(tail);
    }
  }

  lemma {:induction false} InsertKeepsSorted(spans: seq<Span>, i: nat, sorted: seq<nat>)
    requires i < |spans| && SortedByEnd(spans, sorted) && i !in sorted
    ensures SortedByEnd(spans, InsertByEnd(spans, i, sorted))
  {
    if sorted != [] {
      forall y | y in Elements(sorted[1..]) ensures EndLess(spans, sorted[0], y) {
        var j :| 0 <= j < |sorted[1..]| && sorted[1..][j] == y;
        assert sorted[j + 1] == y;
      }
      if EndLess(spans, i, sorted[0]) {
        assert forall y :: y in Elements(sorted) ==> y == sorted[0] || y in Elements(sorted[1..]);
        SortedCons(spans, i, sorted);
      } else {
        InsertKeepsSorted(spans, i, sorted[1..]);
        InsertKeepsElements(spans, i, sorted[1..]);
        SortedCons(spans, sorted[0], InsertByEnd(spans, i, sorted[1..]));
      }
    }
  }

  /** The producers of one route in the order (End, index). */
  function SortBucket(spans: seq<Span>, bucket: seq<nat>): (r: seq<nat>)
    requires InBounds(spans, bucket)
    ensures InBounds(spans, r)
  {
    if bucket == [] then []
    else InsertByEnd(spans, bucket[|bucket| - 1], SortBucket(spans, bucket[..|bucket| - 1]))
  }

  lemma {:induction false} SortBucketSorts(spans: seq<Span>, bucket: seq<nat>)
    requires InBounds(spans, bucket) && Ascending(bucket)
    ensures SortedByEnd(spans, SortBucket(spans, bucket))
    ensures Elements(SortBucket(spans, bucket)) == Elements(bucket)
  {
    if bucket != [] {
      var last, front := bucket[|bucket| - 1], bucket[..|bucket| - 1];
      SortBucketSorts(spans, front);
      assert last !in front;
      assert last !in SortBucket(spans, front) by { assert last !in Elements(front); }
      InsertKeepsSorted(spans, last, SortBucket(spans, front));
      InsertKeepsElements(spans, last, SortBucket(spans, front));
      assert bucket == front + [last];
      assert Elements(bucket) == Elements(front) + {last};
    }
  }

  // ---------- What a look-up finds ----------

  /** A valid context finds exactly the producers with those two ids. */
  lemma ContextBucketExact(spans: seq<Span>, traceId: string, spanId: string, i: nat)
    requires ValidTraceId(traceId) && ValidSpanId(spanId)
    ensures i in Bucket(ByContext, spans, |spans|, Key(traceId, spanId)) <==>
              i < |spans| && spans[i].IsProducer() && spans[i].traceId == traceId && spans[i].spanId == spanId
  {
    if i < |spans| { KeyExact(spans[i].traceId, spans[i].spanId, traceId, spanId); }
  }

  function MessageKey(c: Span): string { RouteLookupKey(c) + "\0" + c.Identity() }

  /** A consumer's route holds a compatible producer exactly when their systems are spelled alike. */
  lemma RouteBucketExact(spans: seq<Span>, c: Span, i: nat)
    requires i < |spans| && spans[i].IsProducer() && Compatible(spans[i], c)
    ensures i in Bucket(ByRoute, spans, |spans|, RouteLookupKey(c)) <==> SameSpelling(spans[i], c)
  {
    hide Bucket, Span.IsProducer, RouteLookupKey, Compatible, SameSpelling;
    CompatibleSharesRoute(spans[i], c);
  }

  /** So does the bucket of its route and identity, of the producers with that identity. */
  lemma MessageBucketExact(spans: seq<Span>, c: Span, i: nat)
    requires i < |spans| && spans[i].IsProducer() && Compatible(spans[i], c)
    requires spans[i].Identity() == c.Identity() != ""
    ensures i in Bucket(ByMessage, spans, |spans|, MessageKey(c)) <==> SameSpelling(spans[i], c)
  {
    hide Bucket, Span.IsProducer, Span.Identity, RouteLookupKey, Compatible, SameSpelling;
    CompatibleSharesRoute(spans[i], c);
    SuffixCancels(RouteLookupKey(spans[i]), RouteLookupKey(c), c.Identity());
  }

  lemma SuffixCancels(a: string, b: string, x: string)
    ensures a + "\0" + x == b + "\0" + x <==> a == b
  {
    if a + "\0" + x == b + "\0" + x {
      assert |a| == |b|;
      assert a == (a + "\0" + x)[..|a|] && b == (b + "\0" + x)[..|b|];
    }
  }

  /** Every filed span is a producer. */
  lemma BucketHoldsProducers(kind: IndexKind, spans: seq<Span>, k: string, i: nat)
    requires i in Bucket(kind, spans, |spans|, k)
    ensures i < |spans| && spans[i].IsProducer()
  {}

  // ---------- Increasing lists ----------

  lemma LastIsGreatest(a: seq<nat>)
    requires Ascending(a) && a != []
    ensures forall x :: x in Elements(a) ==> x <= a[|a| - 1]
    ensures Elements(a[..|a| - 1]) == Elements(a) - {a[|a| - 1]}
  {
    assert a == a[..|a| - 1] + [a[|a| - 1]];
  }

  lemma {:induction false} AscendingUnique(a: seq<nat>, b: seq<nat>)
    requires Ascending(a) && Ascending(b) && Elements(a) == Elements(b)
    ensures a == b
  {
    assert a != [] ==> a[0] in Elements(a);
    assert b != [] ==> b[0] in Elements(b);
    if a != [] && b != [] {
      var x, y := a[|a| - 1], b[|b| - 1];
      LastIsGreatest(a);
      LastIsGreatest(b);
      assert x in Elements(a) && y in Elements(b);
      AscendingUnique(a[..|a| - 1], b[..|b| - 1]);
      assert a == a[..|a| - 1] + [x] && b == b[..|b| - 1] + [y];
    }
  }
}
