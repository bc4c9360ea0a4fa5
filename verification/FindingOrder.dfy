/** The order in which a report lists its findings. */
module FindingOrder {
  import opened Text
  import opened Counting
  import opened Findings

  /** What findings are sorted on: the rule, the spans named and the message. */
  function OrderKey(f: Finding): string { f.ruleId + "\0" + Join(f.spanIds, ',') + "\0" + f.message }

  lemma LessWithHead(a: string, x: string, b: string, y: string)
    requires '\0' !in a && '\0' !in b
    ensures Less(a + "\0" + x, b + "\0" + y) <==> Less(a, b) || (a == b && Less(x, y))
    decreases a
  {
    var s, t := a + "\0" + x, b + "\0" + y;
    if a == "" && b == "" {
      assert s[0] == t[0] == '\0' && s[1..] == x && t[1..] == y;
      LessTrichotomy(a, b);
    } else if a == "" {
      assert s[0] == '\0' && t[0] == b[0] != '\0';
    } else if b == "" {
      assert t[0] == '\0' && s[0] == a[0] != '\0';
    } else {
      assert s[0] == a[0] && t[0] == b[0] && s[1..] == a[1..] + "\0" + x && t[1..] == b[1..] + "\0" + y;
      LessWithHead(a[1..], x, b[1..], y);
    }
  }

  /** When neither the rule nor a span id holds a NUL, findings are ordered by rule, then span ids, then message. */
  lemma OrderMeans(f: Finding, g: Finding)
    requires '\0' !in f.ruleId && '\0' !in g.ruleId && '\0' !in Join(f.spanIds, ',') && '\0' !in Join(g.spanIds, ',')
    ensures Less(OrderKey(f), OrderKey(g))
            <==> || Less(f.ruleId, g.ruleId)
                 || (f.ruleId == g.ruleId
                     && (Less(Join(f.spanIds, ','), Join(g.spanIds, ','))
                         || (Join(f.spanIds, ',') == Join(g.spanIds, ',') && Less(f.message, g.message))))
  {
    hide Less, Join;
    var x, y := Join(f.spanIds, ',') + "\0" + f.message, Join(g.spanIds, ',') + "\0" + g.message;
    LessWithHead(f.ruleId, x, g.ruleId, y);
    LessWithHead(Join(f.spanIds, ','), f.message, Join(g.spanIds, ','), g.message);
    assert OrderKey(f) == f.ruleId + "\0" + x && OrderKey(g) == g.ruleId + "\0" + y;
  }

  predicate InOrder(fs: seq<Finding>) {
    forall i, j :: 0 <= i < j < |fs| ==> !Less(OrderKey(fs[j]), OrderKey(fs[i]))
  }

  lemma AtMostTransitive(a: string, b: string, c: string)
    requires !Less(b, a) && !Less(c, b)
    ensures !Less(c, a)
  {
    LessTrichotomy(a, b);
    LessTrichotomy(b, c);
    LessTrichotomy(a, c);
    if Less(a, b) && Less(b, c) {
      LessTransitive(a, b, c);
    }
  }

  // ---------- Sorting ----------

  function InsertFinding(f: Finding, sorted: seq<Finding>): (r: seq<Finding>)
    ensures multiset(r) == multiset(sorted) + multiset{f}
  {
    if sorted == [] || Less(OrderKey(f), OrderKey(sorted[0])) then [f] + sorted
    else
      assert sorted == [sorted[0]] + sorted[1..];
      [sorted[0]] + InsertFinding(f, sorted[1..])
  }

  /** A finding at most the first of an ordered list goes in front of it. */
  lemma InOrderCons(f: Finding, rest: seq<Finding>)
    requires InOrder(rest) && forall g :: g in multiset(rest) ==> !Less(OrderKey(g), OrderKey(f))
    ensures InOrder([f] + rest)
  {
    hide OrderKey, Less;
    var r := [f] + rest;
    forall i, j | 0 <= i < j < |r| ensures !Less(OrderKey(r[j]), OrderKey(r[i])) {
      assert r[j] == rest[j - 1] && rest[j - 1] in multiset(rest);
    }
  }

  lemma FirstIsAtMost(sorted: seq<Finding>)
    requires InOrder(sorted) && sorted != []
    ensures forall g :: g in multiset(sorted) ==> !Less(OrderKey(g), OrderKey(sorted[0]))
    ensures multiset(sorted) == multiset{sorted[0]} + multiset(sorted[1..])
  {
    hide OrderKey, Less;
    LessTrichotomy(OrderKey(sorted[0]), OrderKey(sorted[0]));
    assert sorted == [sorted[0]] + sorted[1..];
    assert forall g :: g in multiset(sorted) ==> g in sorted;
  }

  lemma {:induction false} InsertKeepsOrder(f: Finding, sorted: seq<Finding>)
    requires InOrder(sorted)
    ensures InOrder(InsertFinding(f, sorted))
  {
    hide OrderKey, Less;
    if sorted != [] {
      var first, rest := sorted[0], sorted[1..];
      FirstIsAtMost(sorted);
      LessTrichotomy(OrderKey(f), OrderKey(first));
      if Less(OrderKey(f), OrderKey(first)) {
        forall g | g in multiset(sorted) ensures !Less(OrderKey(g), OrderKey(f)) {
          AtMostTransitive(OrderKey(f), OrderKey(first), OrderKey(g));
        }
        InOrderCons(f, sorted);
      } else {
        InsertKeepsOrder(f, rest);
        InOrderCons(first, InsertFinding(f, rest));
      }
    }
  }

  method SortFindings(before: seq<Finding>) returns (findings: seq<Finding>)
    ensures InOrder(findings) && multiset(findings) == multiset(before)
  {
    hide OrderKey, Less, InsertFinding;
    findings := [];
    for i := 0 to |before|
      invariant InOrder(findings) && multiset(findings) == multiset(before[..i])
    {
      assert before[..i + 1] == before[..i] + [before[i]];
      InsertKeepsOrder(before[i], findings);
      findings := InsertFinding(before[i], findings);
    }
    assert before[..|before|] == before;
  }

  // ---------- The order is determined ----------

  lemma GreatestKey(a: seq<Finding>, b: seq<Finding>, i: nat)
    requires InOrder(a) && InOrder(b) && multiset(a) == multiset(b) && a != [] && i < |b| && b[i] == a[|a| - 1]
    ensures forall j :: i <= j < |b| ==> OrderKey(b[j]) == OrderKey(b[i])
  {
    hide OrderKey, Less;
    forall j | i <= j < |b| ensures OrderKey(b[j]) == OrderKey(b[i]) {
      assert b[j] in multiset(a);
      assert !Less(OrderKey(a[|a| - 1]), OrderKey(b[j])) by {
        LessTrichotomy(OrderKey(b[j]), OrderKey(b[j]));
      }
      LessTrichotomy(OrderKey(b[i]), OrderKey(b[j]));
    }
  }

  lemma InOrderWithout(b: seq<Finding>, i: nat)
    requires InOrder(b) && i < |b|
    ensures InOrder(b[..i] + b[i + 1..])
  {
    hide OrderKey, Less;
  }

  function Without(fs: seq<Finding>, i: nat): seq<Finding>
    requires i < |fs|
  {
    fs[..i] + fs[i + 1..]
  }

  lemma WithoutLast(a: seq<Finding>, b: seq<Finding>, i: nat)
    requires InOrder(a) && InOrder(b) && multiset(a) == multiset(b) && a != [] && i < |b| && b[i] == a[|a| - 1]
    ensures InOrder(Without(a, |a| - 1)) && InOrder(Without(b, i))
    ensures multiset(Without(a, |a| - 1)) == multiset(Without(b, i))
  {
    hide InOrder;
    WithoutOne(a, |a| - 1);
    WithoutOne(b, i);
    InOrderWithout(a, |a| - 1);
    InOrderWithout(b, i);
  }

  lemma KeyShifts(a: seq<Finding>, b: seq<Finding>, i: nat, k: nat)
    requires k < |a| == |b| && i < |b| && b[i] == a[|a| - 1]
    requires forall j :: i <= j < |b| ==> OrderKey(b[j]) == OrderKey(b[i])
    requires k < |a| - 1 ==> OrderKey(Without(a, |a| - 1)[k]) == OrderKey(Without(b, i)[k])
    ensures OrderKey(a[k]) == OrderKey(b[k])
  {
    hide OrderKey;
    if k < |a| - 1 {
      assert Without(a, |a| - 1)[k] == a[k] && Without(b, i)[k] == if k < i then b[k] else b[k + 1];
    }
  }

  lemma Occurs(b: seq<Finding>, f: Finding) returns (i: nat)
    requires f in multiset(b)
    ensures i < |b| && b[i] == f
  {
    i :| 0 <= i < |b| && b[i] == f;
  }

  /** Two orderings of the same findings list the same keys: only findings alike in rule, spans and message may swap. */
  lemma {:induction false} OrderDetermined(a: seq<Finding>, b: seq<Finding>)
    requires InOrder(a) && InOrder(b) && multiset(a) == multiset(b)
    ensures |a| == |b| && forall k :: 0 <= k < |a| ==> OrderKey(a[k]) == OrderKey(b[k])
  {
    assert |a| == |multiset(a)| == |multiset(b)| == |b|;
    if a != [] {
      var last := |a| - 1;
      assert a[last] in multiset(b);
      var i := Occurs(b, a[last]);
      hide *;
      GreatestKey(a, b, i);
      WithoutLast(a, b, i);
      Shorter(a);
      OrderDetermined(Without(a, last), Without(b, i));
      forall k | 0 <= k < |a| ensures OrderKey(a[k]) == OrderKey(b[k]) {
        KeyShifts(a, b, i, k);
      }
    }
  }

  lemma Shorter(a: seq<Finding>)
    requires a != []
    ensures |Without(a, |a| - 1)| == |a| - 1
  {}
}
