/** Counting the elements of a sequence that satisfy a test; the order does not matter. */
module Counting {

  function CountIf<T>(s: seq<T>, p: T -> bool): (n: nat)
    ensures n <= |s|
  {
    if s == [] then 0 else CountIf(s[..|s| - 1], p) + if p(s[|s| - 1]) then 1 else 0
  }

  lemma CountAppend<T>(s: seq<T>, x: T, p: T -> bool)
    ensures CountIf(s + [x], p) == CountIf(s, p) + if p(x) then 1 else 0
  {
    assert (s + [x])[..|s + [x]| - 1] == s;
  }

  lemma {:induction false} CountConcat<T>(a: seq<T>, b: seq<T>, p: T -> bool)
    ensures CountIf(a + b, p) == CountIf(a, p) + CountIf(b, p)
  {
    if b == [] {
      assert a + b == a;
    } else {
      CountConcat(a, b[..|b| - 1], p);
      assert a + b == a + b[..|b| - 1] + [b[|b| - 1]];
      CountAppend(a + b[..|b| - 1], b[|b| - 1], p);
    }
  }

  lemma WithoutOne<T>(s: seq<T>, i: nat)
    requires i < |s|
    ensures multiset(s[..i] + s[i + 1..]) == multiset(s) - multiset{s[i]}
    ensures s == s[..i] + [s[i]] + s[i + 1..]
  {
    assert s == s[..i] + [s[i]] + s[i + 1..];
    assert multiset(s) == multiset(s[..i]) + multiset{s[i]} + multiset(s[i + 1..]);
  }

  lemma CountInsert<T>(a: seq<T>, x: T, b: seq<T>, p: T -> bool)
    ensures CountIf(a + [x] + b, p) == CountIf(a + b, p) + if p(x) then 1 else 0
  {
    CountConcat(a, b, p);
    CountConcat(a + [x], b, p);
    CountAppend(a, x, p);
  }

  /** Permutations count alike. */
  lemma {:induction false} CountPermuted<T>(a: seq<T>, b: seq<T>, p: T -> bool)
    requires multiset(a) == multiset(b)
    ensures CountIf(a, p) == CountIf(b, p)
  {
    if a == [] {
      assert |multiset(b)| == 0;
    } else {
      hide CountIf;
      var last := |a| - 1;
      assert a[last] in multiset(b);
      var i :| 0 <= i < |b| && b[i] == a[last];
      WithoutOne(a, last);
      WithoutOne(b, i);
      CountPermuted(a[..last] + a[last + 1..], b[..i] + b[i + 1..], p);
      CountInsert(a[..last], a[last], a[last + 1..], p);
      CountInsert(b[..i], b[i], b[i + 1..], p);
    }
  }

  lemma {:induction false} CountSame<T>(s: seq<T>, p: T -> bool, q: T -> bool)
    requires forall i :: 0 <= i < |s| ==> p(s[i]) == q(s[i])
    ensures CountIf(s, p) == CountIf(s, q)
  {
    if s != [] { CountSame(s[..|s| - 1], p, q); }
  }

  lemma {:induction false} NoneCounted<T>(s: seq<T>, p: T -> bool)
    requires forall i :: 0 <= i < |s| ==> !p(s[i])
    ensures CountIf(s, p) == 0
  {
    if s != [] { NoneCounted(s[..|s| - 1], p); }
  }

  lemma {:induction false} AllCounted<T>(s: seq<T>, p: T -> bool)
    requires forall i :: 0 <= i < |s| ==> p(s[i])
    ensures CountIf(s, p) == |s|
  {
    if s != [] { AllCounted(s[..|s| - 1], p); }
  }

  /** An element that passes is counted. */
  lemma {:induction false} CountedOnce<T>(s: seq<T>, p: T -> bool, i: nat)
    requires i < |s| && p(s[i])
    ensures CountIf(s, p) >= 1
  {
    if i < |s| - 1 { CountedOnce(s[..|s| - 1], p, i); }
  }

  /** A stricter test counts fewer if some element tells the two apart. */
  lemma {:induction false} CountStrict<T>(s: seq<T>, p: T -> bool, q: T -> bool, i: nat)
    requires forall k :: 0 <= k < |s| && q(s[k]) ==> p(s[k])
    requires i < |s| ==> p(s[i]) && !q(s[i])
    ensures CountIf(s, q) <= CountIf(s, p)
    ensures i < |s| ==> CountIf(s, q) < CountIf(s, p)
  {
    if s != [] { CountStrict(s[..|s| - 1], p, q, i); }
  }
}
