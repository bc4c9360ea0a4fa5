/** The producers nearest in time to a consumer: the k smallest of a total order, and the
    repeated scan that finds them. */
module Nearest {
  import opened Spans
  import opened Routes

  function Elements(s: seq<nat>): set<nat> { set i | i in s }

  // ---------- What the heuristic is for ----------

  /** The producer may have fed the consumer: same route and scope, and not started later. */
  predicate Accepts(p: Span, c: Span) {
    !(p.start != ZERO_TIME && c.start != ZERO_TIME && p.start > c.start) && Compatible(p, c)
  }

  predicate WithinReach(spans: seq<Span>, c: Span, window: int, i: nat)
    requires i < |spans|
  {
    Abs(Gap(spans[i], c)) <= window && Accepts(spans[i], c)
  }

  predicate EndsBefore(p: Span, c: Span) { p.end < c.start }

  /** Producer `i` is preferred to producer `j`: nearer in time; among equals one that ended
      before the consumer started; then the latest listed of those and the first of the others. */
  predicate Nearer(spans: seq<Span>, c: Span, i: nat, j: nat)
    requires i < |spans| && j < |spans|
  {
    var di, dj := Abs(Gap(spans[i], c)), Abs(Gap(spans[j], c));
    var bi, bj := EndsBefore(spans[i], c), EndsBefore(spans[j], c);
    di < dj || (di == dj && if bi != bj then bi else if bi then j < i else i < j)
  }

  /** `picks` are the `limit` nearest members of `pool` within reach, nearest first. */
  ghost predicate IsNearest(spans: seq<Span>, c: Span, window: int, limit: nat, pool: set<nat>, picks: seq<nat>)
    requires forall i :: i in pool ==> i < |spans|
  {
    && |picks| <= limit
    && (forall j :: 0 <= j < |picks| ==> picks[j] in pool && WithinReach(spans, c, window, picks[j]))
    && (forall i, j :: 0 <= i < j < |picks| ==> Nearer(spans, c, picks[i], picks[j]))
    && (forall u :: u in pool && WithinReach(spans, c, window, u) && u !in picks ==>
          |picks| == limit && forall j :: 0 <= j < |picks| ==> Nearer(spans, c, picks[j], u))
  }

  /** The description leaves no choice. */
  lemma NearestUnique(spans: seq<Span>, c: Span, window: int, limit: nat, pool: set<nat>, a: seq<nat>, b: seq<nat>)
    requires forall i :: i in pool ==> i < |spans|
    requires IsNearest(spans, c, window, limit, pool, a) && IsNearest(spans, c, window, limit, pool, b)
    ensures a == b
  {
    SharedPrefix(spans, c, window, limit, pool, a, b, |a|);
    SharedPrefix(spans, c, window, limit, pool, b, a, |b|);
  }

  /** An element within reach that is not among the first `k` picks comes after pick `k`. */
  lemma NearerOrBehind(spans: seq<Span>, c: Span, window: int, limit: nat, pool: set<nat>, a: seq<nat>, k: nat, u: nat)
    requires forall i :: i in pool ==> i < |spans|
    requires IsNearest(spans, c, window, limit, pool, a) && k < |a|
    requires u in pool && WithinReach(spans, c, window, u) && u !in a[..k]
    ensures u == a[k] || Nearer(spans, c, a[k], u)
  {
    hide WithinReach;
    if u in a {
      assert forall m :: 0 <= m < k ==> a[m] == a[..k][m] != u;
    }
  }

  /** Lists that agree so far agree on the next pick. */
  lemma NextPick(spans: seq<Span>, c: Span, window: int, limit: nat, pool: set<nat>, a: seq<nat>, b: seq<nat>, k: nat)
    requires forall i :: i in pool ==> i < |spans|
    requires IsNearest(spans, c, window, limit, pool, a) && IsNearest(spans, c, window, limit, pool, b)
    requires k < |a| && k <= |b| && a[..k] == b[..k]
    ensures k < |b| && a[k] == b[k]
  {
    hide WithinReach;
    var x := a[k];
    assert forall j :: 0 <= j < k ==> b[j] == a[..k][j] != x;
    assert k < |b|;
    var y := b[k];
    assert forall j :: 0 <= j < k ==> a[j] == b[..k][j] != y;
    if x != y {
      NearerOrBehind(spans, c, window, limit, pool, b, k, x);
      NearerOrBehind(spans, c, window, limit, pool, a, k, y);
      assert false;
    }
  }

  lemma {:induction false} SharedPrefix(spans: seq<Span>, c: Span, window: int, limit: nat, pool: set<nat>, a: seq<nat>,
                                        b: seq<nat>, k: nat)
    requires forall i :: i in pool ==> i < |spans|
    requires IsNearest(spans, c, window, limit, pool, a) && IsNearest(spans, c, window, limit, pool, b)
    requires k <= |a|
    ensures k <= |b| && a[..k] == b[..k]
  {
    hide IsNearest;
    if k > 0 {
      SharedPrefix(spans, c, window, limit, pool, a, b, k - 1);
      NextPick(spans, c, window, limit, pool, a, b, k - 1);
      assert a[..k] == a[..k - 1] + [a[k - 1]] && b[..k] == b[..k - 1] + [b[k - 1]];
    }
  }

  // ---------- The nearest by rank ----------

  /** The members of the pool within reach that are preferred to producer `i`. */
  ghost function AheadOf(spans: seq<Span>, c: Span, window: int, pool: set<nat>, i: nat): set<nat>
    requires i < |spans| && forall u :: u in pool ==> u < |spans|
  {
    set u | u in pool && WithinReach(spans, c, window, u) && Nearer(spans, c, u, i)
  }

  lemma {:induction false} ElementsSize(a: seq<nat>)
    ensures |Elements(a)| <= |a|
    ensures (forall i, j :: 0 <= i < j < |a| ==> a[i] != a[j]) ==> |Elements(a)| == |a|
  {
    if a == [] {
      assert Elements(a) == {};
    } else {
      var front, x := a[..|a| - 1], a[|a| - 1];
      ElementsSize(front);
      assert Elements(a) == Elements(front) + {x};
    }
  }

  lemma Smaller<T>(a: set<T>, b: set<T>)
    requires a <= b
    ensures |a| <= |b|
  {
    assert b == a + (b - a);
  }

  /** Who is ahead of a pick was picked before it. */
  lemma AheadOfPick(spans: seq<Span>, c: Span, window: int, limit: nat, pool: set<nat>, picks: seq<nat>, m: nat)
    requires forall u :: u in pool ==> u < |spans|
    requires IsNearest(spans, c, window, limit, pool, picks) && m < |picks|
    ensures |AheadOf(spans, c, window, pool, picks[m])| < limit
  {
    forall u | u in AheadOf(spans, c, window, pool, picks[m]) ensures u in Elements(picks[..m]) {
      if u in picks {
        var k :| 0 <= k < |picks| && picks[k] == u;
        assert k < m && picks[..m][k] == u;
      }
    }
    Smaller(AheadOf(spans, c, window, pool, picks[m]), Elements(picks[..m]));
    ElementsSize(picks[..m]);
  }

  /** All picks are ahead of one that was not picked, and there are as many as may be. */
  lemma AheadOfOther(spans: seq<Span>, c: Span, window: int, limit: nat, pool: set<nat>, picks: seq<nat>, i: nat)
    requires forall u :: u in pool ==> u < |spans|
    requires IsNearest(spans, c, window, limit, pool, picks)
    requires i in pool && WithinReach(spans, c, window, i) && i !in picks
    ensures |AheadOf(spans, c, window, pool, i)| >= limit
  {
    hide WithinReach;
    forall x, y | 0 <= x < y < |picks| ensures picks[x] != picks[y] {
      assert Nearer(spans, c, picks[x], picks[y]);
    }
    ElementsSize(picks);
    Smaller(Elements(picks), AheadOf(spans, c, window, pool, i));
  }

  /** The nearest are those that fewer than the limit are ahead of. */
  lemma NearestByRank(spans: seq<Span>, c: Span, window: int, limit: nat, pool: set<nat>, picks: seq<nat>, i: nat)
    requires forall u :: u in pool ==> u < |spans|
    requires IsNearest(spans, c, window, limit, pool, picks) && i in pool
    ensures i in picks
            <==> WithinReach(spans, c, window, i) && |AheadOf(spans, c, window, pool, i)| < limit
  {
    hide WithinReach, Nearer, AheadOf;
    if i in picks {
      var m :| 0 <= m < |picks| && picks[m] == i;
      AheadOfPick(spans, c, window, limit, pool, picks, m);
    } else if WithinReach(spans, c, window, i) {
      AheadOfOther(spans, c, window, limit, pool, picks, i);
    }
  }

  // ---------- The reference: repeated scans over all producers ----------

  /** The nearest of the first `n` spans that is a producer within reach and not taken. */
  function BestProducer(spans: seq<Span>, c: Span, window: int, taken: set<nat>, n: nat): (r: Option<nat>)
    requires n <= |spans|
    ensures r.Some? ==>
              r.value < n && spans[r.value].IsProducer() && WithinReach(spans, c, window, r.value) && r.value !in taken
    ensures forall i :: 0 <= i < n && spans[i].IsProducer() && WithinReach(spans, c, window, i) && i !in taken ==>
              r.Some? && (i == r.value || Nearer(spans, c, r.value, i))
  {
    if n == 0 then None else
      var r := BestProducer(spans, c, window, taken, n - 1);
      var i := n - 1;
      if spans[i].IsProducer() && WithinReach(spans, c, window, i) && i !in taken
          && (r.None? || Nearer(spans, c, i, r.value))
      then Some(i) else r
  }

  /** The quadratic scan: take the best remaining producer, `limit` times. */
  function ScanNearest(spans: seq<Span>, c: Span, window: int, limit: nat, taken: set<nat>): seq<nat> {
    if limit == 0 then []
    else match BestProducer(spans, c, window, taken, |spans|)
      case None => []
      case Some(i) => [i] + ScanNearest(spans, c, window, limit - 1, taken + {i})
  }

  function Producers(spans: seq<Span>): (r: set<nat>)
    ensures forall i :: i in r <==> 0 <= i < |spans| && spans[i].IsProducer()
  {
    set i | 0 <= i < |spans| && spans[i].IsProducer()
  }

  /** The best of a pool in front of the nearest of the rest is the nearest of the pool. */
  lemma BestFirst(spans: seq<Span>, c: Span, window: int, limit: nat, pool: set<nat>, i: nat, rest: seq<nat>)
    requires forall u :: u in pool ==> u < |spans|
    requires i in pool && WithinReach(spans, c, window, i)
    requires forall u :: u in pool && WithinReach(spans, c, window, u) ==> u == i || Nearer(spans, c, i, u)
    requires IsNearest(spans, c, window, limit, pool - {i}, rest)
    ensures IsNearest(spans, c, window, limit + 1, pool, [i] + rest)
  {
    hide WithinReach;
    var picks := [i] + rest;
    assert picks[0] == i && picks[1..] == rest;
    forall u | u in pool && WithinReach(spans, c, window, u) && u !in picks
      ensures |picks| == limit + 1 && forall j :: 0 <= j < |picks| ==> Nearer(spans, c, picks[j], u)
    {
      assert u != i && u !in picks[1..];
      assert u in pool - {i};
    }
  }

  /** The best producer that is not taken leads those that are not. */
  lemma BestLeads(spans: seq<Span>, c: Span, window: int, taken: set<nat>, i: nat)
    requires BestProducer(spans, c, window, taken, |spans|) == Some(i)
    ensures i < |spans| && i in Producers(spans) - taken && WithinReach(spans, c, window, i)
    ensures forall u :: u in Producers(spans) - taken && WithinReach(spans, c, window, u) ==>
              u == i || Nearer(spans, c, i, u)
  {
    hide Nearer, WithinReach, BestProducer;
  }

  /** Nobody left within reach: nothing is picked. */
  lemma NoneIsNearest(spans: seq<Span>, c: Span, window: int, limit: nat, taken: set<nat>)
    requires limit == 0 || BestProducer(spans, c, window, taken, |spans|).None?
    ensures ScanNearest(spans, c, window, limit, taken) == []
    ensures IsNearest(spans, c, window, limit, Producers(spans) - taken, [])
  {
    hide Nearer, WithinReach;
  }

  lemma BestGoesFirst(spans: seq<Span>, c: Span, window: int, limit: nat, taken: set<nat>, i: nat)
    requires limit > 0 && BestProducer(spans, c, window, taken, |spans|) == Some(i)
    ensures ScanNearest(spans, c, window, limit, taken) == [i] + ScanNearest(spans, c, window, limit - 1, taken + {i})
  {
    hide BestProducer;
  }

  lemma {:induction false} ScanIsNearest(spans: seq<Span>, c: Span, window: int, limit: nat, taken: set<nat>)
    ensures IsNearest(spans, c, window, limit, Producers(spans) - taken, ScanNearest(spans, c, window, limit, taken))
  {
    hide *;
    var best := BestProducer(spans, c, window, taken, |spans|);
    if limit == 0 || best.None? {
      NoneIsNearest(spans, c, window, limit, taken);
    } else {
      var i := best.value;
      BestLeads(spans, c, window, taken, i);
      BestGoesFirst(spans, c, window, limit, taken, i);
      ScanIsNearest(spans, c, window, limit - 1, taken + {i});
      assert Producers(spans) - (taken + {i}) == Producers(spans) - taken - {i};
      BestFirst(spans, c, window, limit - 1, Producers(spans) - taken, i,
                ScanNearest(spans, c, window, limit - 1, taken + {i}));
    }
  }
}
