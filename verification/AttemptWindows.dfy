/** Clustering the processing attempts of one message by time, and why the unstable
    sort in front of it cannot be seen in the result. */
module AttemptWindows {
  import opened Spans
  import opened Counting

  predicate SortedByStart(s: seq<Span>) {
    forall i, j :: 0 <= i <= j < |s| ==> s[i].start <= s[j].start
  }

  /** A gap longer than the window between two attempts that both have a start time. */
  predicate Cut(previous: Span, span: Span, window: int) {
    span.start != ZERO_TIME && previous.start != ZERO_TIME && Sub(span.start, previous.start) > window
  }

  function Extend(groups: seq<seq<Span>>, span: Span, window: int): seq<seq<Span>>
    requires groups != [] && groups[|groups| - 1] != []
  {
    var last := groups[|groups| - 1];
    if Cut(last[|last| - 1], span, window) then groups + [[span]]
    else groups[..|groups| - 1] + [last + [span]]
  }

  ghost predicate NonEmpty(groups: seq<seq<Span>>) {
    forall g :: 0 <= g < |groups| ==> groups[g] != []
  }

  /** The groups of a sorted sequence, extended attempt by attempt. */
  function Groups(s: seq<Span>, window: int): (groups: seq<seq<Span>>)
    ensures s != [] ==> groups != [] && groups[|groups| - 1] != []
  {
    if s == [] then []
    else if |s| == 1 then [[s[0]]]
    else Extend(Groups(s[..|s| - 1], window), s[|s| - 1], window)
  }

  // ---------- The groups partition the attempts at the cuts ----------

  function Flatten(groups: seq<seq<Span>>): seq<Span> {
    if groups == [] then [] else Flatten(groups[..|groups| - 1]) + groups[|groups| - 1]
  }

  lemma FlattenAppend(groups: seq<seq<Span>>, g: seq<Span>)
    ensures Flatten(groups + [g]) == Flatten(groups) + g
  {
    assert (groups + [g])[..|groups + [g]| - 1] == groups;
  }

  /** Where group `g` starts. */
  function Offset(groups: seq<seq<Span>>, g: nat): nat
    requires g <= |groups|
  {
    if g == 0 then 0 else Offset(groups, g - 1) + |groups[g - 1]|
  }

  /** Whether a new group starts at position `k`. */
  predicate CutAt(s: seq<Span>, window: int, k: nat)
    requires k < |s|
  {
    k > 0 && Cut(s[k - 1], s[k], window)
  }

  /** How many groups have started before position `k` and at it, the first not counted. */
  function CutsUpTo(s: seq<Span>, window: int, k: nat): nat
    requires k < |s|
  {
    if k == 0 then 0 else CutsUpTo(s, window, k - 1) + if CutAt(s, window, k) then 1 else 0
  }

  lemma ExtendPartition(groups: seq<seq<Span>>, x: Span, window: int)
    requires groups != [] && groups[|groups| - 1] != [] && NonEmpty(groups)
    ensures NonEmpty(Extend(groups, x, window)) && Flatten(Extend(groups, x, window)) == Flatten(groups) + [x]
    ensures var last := groups[|groups| - 1];
      var extended := Extend(groups, x, window)[|Extend(groups, x, window)| - 1];
      extended == [x] || extended == last + [x]
  {
    hide Cut;
    var init, last := groups[..|groups| - 1], groups[|groups| - 1];
    assert groups == init + [last];
    FlattenAppend(init, last);
    FlattenAppend(groups, [x]);
    FlattenAppend(init, last + [x]);
  }

  /** `last` ends `s`. */
  predicate Ends<T(==)>(s: seq<T>, last: seq<T>) {
    |last| <= |s| && s[|s| - |last|..] == last
  }

  lemma EndsOneMore<T>(s: seq<T>, last: seq<T>, x: T)
    requires Ends(s, last)
    ensures Ends(s + [x], last + [x]) && Ends(s + [x], [x])
  {
    assert (s + [x])[|s| - |last|..] == s[|s| - |last|..] + [x];
  }

  /** The groups concatenate to the sequence, none is empty, and the last one ends it. */
  lemma {:induction false} GroupsPartition(s: seq<Span>, window: int)
    ensures NonEmpty(Groups(s, window)) && Flatten(Groups(s, window)) == s
    ensures s != [] ==> Groups(s, window) != [] && Ends(s, Groups(s, window)[|Groups(s, window)| - 1])
  {
    hide *;
    if |s| <= 1 {
      FirstGroup(s, window);
    } else {
      var front, x := s[..|s| - 1], s[|s| - 1];
      GroupsExtended(front, x, window);
      GroupsPartition(front, window);
      PartitionStep(front, x, window, Groups(front, window));
      assert s == front + [x];
    }
  }

  lemma FirstGroup(s: seq<Span>, window: int)
    requires |s| <= 1
    ensures NonEmpty(Groups(s, window)) && Flatten(Groups(s, window)) == s
    ensures s != [] ==> Groups(s, window) != [] && Ends(s, Groups(s, window)[|Groups(s, window)| - 1])
  {
    if |s| == 1 {
      assert Flatten([[s[0]]]) == Flatten([]) + [s[0]];
    }
  }

  lemma GroupsExtended(front: seq<Span>, x: Span, window: int)
    requires front != []
    ensures Groups(front, window) != [] && Groups(front, window)[|Groups(front, window)| - 1] != []
    ensures Groups(front + [x], window) == Extend(Groups(front, window), x, window)
  {
    assert (front + [x])[..|front + [x]| - 1] == front;
  }

  lemma PartitionStep(front: seq<Span>, x: Span, window: int, before: seq<seq<Span>>)
    requires before != [] && before[|before| - 1] != []
    requires NonEmpty(before) && Flatten(before) == front && Ends(front, before[|before| - 1])
    ensures var after := Extend(before, x, window);
      NonEmpty(after) && Flatten(after) == front + [x] && after != [] && Ends(front + [x], after[|after| - 1])
  {
    hide Flatten, Ends, NonEmpty;
    ExtendPartition(before, x, window);
    EndsOneMore(front, before[|before| - 1], x);
  }

  /** The last element of the last group is the last of the sequence. */
  lemma LastOfLast(s: seq<Span>, window: int)
    requires s != []
    ensures var last := Groups(s, window)[|Groups(s, window)| - 1]; last[|last| - 1] == s[|s| - 1]
  {
    GroupsPartition(s, window);
    hide Groups;
  }

  lemma {:induction false} OffsetsSame(groups: seq<seq<Span>>, more: seq<seq<Span>>, n: nat)
    requires n <= |groups| && n <= |more| && forall i :: 0 <= i < n ==> |groups[i]| == |more[i]|
    ensures forall g :: 0 <= g <= n ==> Offset(groups, g) == Offset(more, g)
  {
    if n > 0 { OffsetsSame(groups, more, n - 1); }
  }

  /** Every position lies in the group whose number is the count of cuts up to it. */
  ghost predicate Located(groups: seq<seq<Span>>, s: seq<Span>, window: int)
    requires s != []
  {
    && |groups| == CutsUpTo(s, window, |s| - 1) + 1
    && Offset(groups, |groups|) == |s|
    && forall k :: 0 <= k < |s| ==> InGroup(groups, CutsUpTo(s, window, k), k)
  }

  predicate InGroup(groups: seq<seq<Span>>, g: nat, k: nat) {
    g < |groups| && Offset(groups, g) <= k < Offset(groups, g + 1)
  }

  lemma LocatedStep(groups: seq<seq<Span>>, s: seq<Span>, x: Span, window: int)
    requires s != [] && Located(groups, s, window) && groups != [] && groups[|groups| - 1] != []
    requires groups[|groups| - 1][|groups[|groups| - 1]| - 1] == s[|s| - 1]
    ensures Located(Extend(groups, x, window), s + [x], window)
  {
    var all, after := s + [x], Extend(groups, x, window);
    assert all[..|all| - 1] == s;
    forall k | 0 <= k < |s| ensures CutsUpTo(all, window, k) == CutsUpTo(s, window, k) {
      CutsPrefix(all, window, k);
    }
    assert CutAt(all, window, |s|) <==> Cut(s[|s| - 1], x, window);
    hide Cut, CutsUpTo;
    OffsetsSame(groups, after, if |after| > |groups| then |groups| else |groups| - 1);
    assert CutsUpTo(all, window, |s|) == |after| - 1 by { CutsStep(all, window, |s|); }
    forall k | 0 <= k < |all| ensures InGroup(after, CutsUpTo(all, window, k), k) {
      if k < |s| {
        assert InGroup(groups, CutsUpTo(s, window, k), k);
      }
    }
  }

  lemma CutsStep(s: seq<Span>, window: int, k: nat)
    requires 0 < k < |s|
    ensures CutsUpTo(s, window, k) == CutsUpTo(s, window, k - 1) + if CutAt(s, window, k) then 1 else 0
  {}

  lemma {:induction false} AllLocated(s: seq<Span>, window: int)
    requires s != []
    ensures Located(Groups(s, window), s, window)
  {
    if |s| == 1 {
      assert Offset([[s[0]]], 1) == 1;
    } else {
      var front, x := s[..|s| - 1], s[|s| - 1];
      assert s == front + [x] && Groups(s, window) == Extend(Groups(front, window), x, window);
      hide Groups, Extend, Located;
      AllLocated(front, window);
      LastOfLast(front, window);
      LocatedStep(Groups(front, window), front, x, window);
    }
  }

  /** A cut in terms of the two starts; a window that is the largest duration never cuts. */
  lemma CutMeans(previous: Span, span: Span, window: Duration)
    ensures Cut(previous, span, window)
            <==> && previous.start != ZERO_TIME && span.start != ZERO_TIME
                 && span.start - previous.start > window && window < MAX_DURATION
  {}

  /** Two attempts lie in one group. */
  predicate Together(groups: seq<seq<Span>>, i: nat, j: nat) {
    exists g :: 0 <= g < |groups| && InGroup(groups, g, i) && InGroup(groups, g, j)
  }

  /** Two attempts share a group exactly when no gap longer than the window lies between them: of every two neighbours
      from the one to the other, one has no start time or they start at most the window apart. */
  lemma SharedGroup(s: seq<Span>, window: Duration, i: nat, j: nat)
    requires i <= j < |s|
    ensures Together(Groups(s, window), i, j)
            <==> forall k :: i < k <= j ==> s[k - 1].start == ZERO_TIME || s[k].start == ZERO_TIME
                                            || s[k].start - s[k - 1].start <= window || window == MAX_DURATION
  {
    hide Groups, Together;
    UncutTogether(s, window, i, j);
    forall k | i < k <= j
      ensures CutAt(s, window, k)
              <==> && s[k - 1].start != ZERO_TIME && s[k].start != ZERO_TIME
                   && s[k].start - s[k - 1].start > window && window < MAX_DURATION
    {
      CutMeans(s[k - 1], s[k], window);
    }
  }

  /** Position `k` lies in the group whose number is the count of cuts up to it, and two attempts share a group exactly
      when there is no cut from the one to the other. */
  lemma UncutTogether(s: seq<Span>, window: int, i: nat, j: nat)
    requires i <= j < |s|
    ensures InGroup(Groups(s, window), CutsUpTo(s, window, i), i)
              && InGroup(Groups(s, window), CutsUpTo(s, window, j), j)
    ensures Together(Groups(s, window), i, j) <==> forall k :: i < k <= j ==> !CutAt(s, window, k)
  {
    AllLocated(s, window);
    SameCountNoCut(s, window, i, j);
    hide Groups, CutsUpTo, CutAt, Offset, InGroup;
    var groups := Groups(s, window);
    forall g | 0 <= g < |groups| && InGroup(groups, g, i) && InGroup(groups, g, j)
      ensures g == CutsUpTo(s, window, i) == CutsUpTo(s, window, j)
    {
      OneGroup(groups, g, CutsUpTo(s, window, i), i);
      OneGroup(groups, g, CutsUpTo(s, window, j), j);
    }
    assert CutsUpTo(s, window, i) < |groups| by { WithinGroups(groups, CutsUpTo(s, window, i), i); }
  }

  lemma WithinGroups(groups: seq<seq<Span>>, g: nat, k: nat)
    requires InGroup(groups, g, k)
    ensures g < |groups|
  {}

  lemma {:induction false} OffsetsGrow(groups: seq<seq<Span>>, g: nat, h: nat)
    requires g <= h <= |groups|
    ensures Offset(groups, g) <= Offset(groups, h)
    decreases h - g
  {
    if g < h { OffsetsGrow(groups, g, h - 1); }
  }

  /** A position lies in one group only. */
  lemma OneGroup(groups: seq<seq<Span>>, g: nat, h: nat, k: nat)
    requires InGroup(groups, g, k) && InGroup(groups, h, k)
    ensures g == h
  {
    if g < h {
      OffsetsGrow(groups, g + 1, h);
    } else if h < g {
      OffsetsGrow(groups, h + 1, g);
    }
  }

  lemma {:induction false} CutsPrefix(s: seq<Span>, window: int, k: nat)
    requires |s| > 1 && k < |s| - 1
    ensures CutsUpTo(s[..|s| - 1], window, k) == CutsUpTo(s, window, k)
  {
    if k > 0 { CutsPrefix(s, window, k - 1); }
  }

  /** The count of cuts is the same at two positions exactly when none lies between them. */
  lemma {:induction false} SameCountNoCut(s: seq<Span>, window: int, i: nat, j: nat)
    requires i <= j < |s|
    ensures CutsUpTo(s, window, i) <= CutsUpTo(s, window, j)
    ensures CutsUpTo(s, window, i) == CutsUpTo(s, window, j) <==> forall k :: i < k <= j ==> !CutAt(s, window, k)
    decreases j - i
  {
    if i < j { SameCountNoCut(s, window, i, j - 1); }
  }

  // ---------- Independence of the unstable sort ----------

  function StartsBy(t: Time): Span -> bool { (s: Span) => s.start <= t }

  /** In a sorted sequence exactly the first CountIf elements start by `t`. */
  lemma {:induction false} SortedCount(s: seq<Span>, t: Time, k: nat)
    requires SortedByStart(s) && k < |s|
    ensures s[k].start <= t <==> k < CountIf(s, StartsBy(t))
  {
    var front, x := s[..|s| - 1], s[|s| - 1];
    assert forall i :: 0 <= i < |front| ==> front[i] == s[i];
    if k < |front| {
      SortedCount(front, t, k);
    } else if x.start <= t {
      AllCounted(front, StartsBy(t));
    }
  }

  /** Two sorted orders of the same attempts have the same start at every position. */
  lemma SameStarts(a: seq<Span>, b: seq<Span>, k: nat)
    requires SortedByStart(a) && SortedByStart(b) && multiset(a) == multiset(b) && k < |a|
    ensures |a| == |b| && a[k].start == b[k].start
  {
    SameLength(a, b);
    CountPermuted(a, b, StartsBy(a[k].start));
    CountPermuted(a, b, StartsBy(b[k].start));
    SortedCount(a, a[k].start, k);
    SortedCount(b, a[k].start, k);
    SortedCount(a, b[k].start, k);
    SortedCount(b, b[k].start, k);
  }

  lemma SameLength<T>(a: seq<T>, b: seq<T>)
    requires multiset(a) == multiset(b)
    ensures |a| == |b|
  {
    assert |multiset(a)| == |a| && |multiset(b)| == |b|;
  }

  lemma {:induction false} AllSameStarts(a: seq<Span>, b: seq<Span>)
    requires SortedByStart(a) && SortedByStart(b) && multiset(a) == multiset(b)
    ensures |a| == |b| && forall k :: 0 <= k < |a| ==> a[k].start == b[k].start
  {
    SameLength(a, b);
    forall k | 0 <= k < |a| ensures a[k].start == b[k].start {
      SameStarts(a, b, k);
    }
  }

  /** Up to a strict increase a sorted sequence has exactly the elements that start early enough. */
  lemma PrefixCount(s: seq<Span>, k: nat, x: Span)
    requires SortedByStart(s) && 0 < k < |s| && s[k - 1].start < s[k].start
    ensures multiset(s[..k])[x] == if x.start <= s[k - 1].start then multiset(s)[x] else 0
  {
    var front, back := s[..k], s[k..];
    assert s == front + back;
    assert multiset(s)[x] == multiset(front)[x] + multiset(back)[x];
    assert forall i :: 0 <= i < |front| ==> front[i].start <= s[k - 1].start;
    assert forall i :: 0 <= i < |back| ==> back[i].start > s[k - 1].start;
    if x.start <= s[k - 1].start {
      assert x !in back;
    } else {
      assert x !in front;
    }
  }

  /** At a strict increase both orders have the same attempts in front of them. */
  lemma SamePrefix(a: seq<Span>, b: seq<Span>, k: nat)
    requires SortedByStart(a) && SortedByStart(b) && multiset(a) == multiset(b)
    requires 0 < k < |a| && a[k - 1].start < a[k].start
    ensures |a| == |b| && multiset(a[..k]) == multiset(b[..k])
  {
    AllSameStarts(a, b);
    forall x ensures multiset(a[..k])[x] == multiset(b[..k])[x] {
      PrefixCount(a, k, x);
      PrefixCount(b, k, x);
    }
  }

  /** The cuts of both orders are at the same places. */
  lemma SameCuts(a: seq<Span>, b: seq<Span>, window: int, k: nat)
    requires SortedByStart(a) && SortedByStart(b) && multiset(a) == multiset(b)
    requires k < |a|
    ensures k < |b| && (CutAt(a, window, k) <==> CutAt(b, window, k))
    ensures window >= 0 && CutAt(a, window, k) ==> k > 0 && a[k - 1].start < a[k].start
  {
    AllSameStarts(a, b);
  }

  /** The groups agree as multisets, the last ones so far in what lies before them. */
  ghost predicate Alike(a: seq<Span>, b: seq<Span>, ga: seq<seq<Span>>, gb: seq<seq<Span>>, k: nat)
    requires k <= |a| && k <= |b|
  {
    && |ga| == |gb| > 0
    && (forall g :: 0 <= g < |ga| - 1 ==> multiset(ga[g]) == multiset(gb[g]))
    && LastAlike(a, b, ga[|ga| - 1], gb[|gb| - 1], k)
  }

  /** The groups end the first `k` attempts, and what is before them is the same. */
  ghost predicate LastAlike(a: seq<Span>, b: seq<Span>, la: seq<Span>, lb: seq<Span>, k: nat)
    requires k <= |a| && k <= |b|
  {
    && |la| == |lb| <= k
    && la == a[k - |la|..k] && lb == b[k - |la|..k]
    && multiset(a[..k - |la|]) == multiset(b[..k - |la|])
  }

  lemma SlicesAlike(a: seq<Span>, b: seq<Span>, o: nat, k: nat)
    requires o <= k <= |a| && k <= |b|
    requires multiset(a[..o]) == multiset(b[..o]) && multiset(a[..k]) == multiset(b[..k])
    ensures multiset(a[o..k]) == multiset(b[o..k])
  {
    assert a[..k] == a[..o] + a[o..k] && b[..k] == b[..o] + b[o..k];
    assert multiset(a[o..k]) == multiset(a[..k]) - multiset(a[..o]);
    assert multiset(b[o..k]) == multiset(b[..k]) - multiset(b[..o]);
  }

  lemma AlikeCut(a: seq<Span>, b: seq<Span>, ga: seq<seq<Span>>, gb: seq<seq<Span>>, k: nat)
    requires k < |a| && k < |b| && Alike(a, b, ga, gb, k) && multiset(a[..k]) == multiset(b[..k])
    ensures Alike(a, b, ga + [[a[k]]], gb + [[b[k]]], k + 1)
  {
    SlicesAlike(a, b, k - |ga[|ga| - 1]|, k);
    assert [a[k]] == a[k..k + 1] && [b[k]] == b[k..k + 1];
  }

  lemma AlikeNoCut(a: seq<Span>, b: seq<Span>, ga: seq<seq<Span>>, gb: seq<seq<Span>>, k: nat)
    requires k < |a| && k < |b| && Alike(a, b, ga, gb, k)
    ensures Alike(a, b, ga[..|ga| - 1] + [ga[|ga| - 1] + [a[k]]], gb[..|gb| - 1] + [gb[|gb| - 1] + [b[k]]], k + 1)
  {
    var o := k - |ga[|ga| - 1]|;
    assert a[o..k] + [a[k]] == a[o..k + 1] && b[o..k] + [b[k]] == b[o..k + 1];
  }

  lemma AlikeStep(a: seq<Span>, b: seq<Span>, window: int, ga: seq<seq<Span>>, gb: seq<seq<Span>>, k: nat)
    requires SortedByStart(a) && SortedByStart(b) && multiset(a) == multiset(b) && window >= 0
    requires 0 < k < |a| && k < |b| && Alike(a, b, ga, gb, k)
    requires ga[|ga| - 1] != [] && gb[|gb| - 1] != []
    ensures Alike(a, b, Extend(ga, a[k], window), Extend(gb, b[k], window), k + 1)
  {
    SameCuts(a, b, window, k);
    var n := |ga[|ga| - 1]|;
    assert ga[|ga| - 1][n - 1] == a[k - 1] && gb[|gb| - 1][n - 1] == b[k - 1];
    hide Alike, Cut;
    if CutAt(a, window, k) {
      SamePrefix(a, b, k);
      AlikeCut(a, b, ga, gb, k);
    } else {
      AlikeNoCut(a, b, ga, gb, k);
    }
  }

  lemma GroupsStep(s: seq<Span>, window: int, k: nat)
    requires 0 < k < |s|
    ensures Groups(s[..k + 1], window) == Extend(Groups(s[..k], window), s[k], window)
  {
    assert s[..k + 1][..k] == s[..k];
  }

  lemma SingleGroup(x: Span, window: int)
    ensures Groups([x], window) == [[x]]
  {}

  lemma FirstAlike(a: seq<Span>, b: seq<Span>)
    requires a != [] && b != []
    ensures LastAlike(a, b, [a[0]], [b[0]], 1)
  {
    assert a[0..1] == [a[0]] && b[0..1] == [b[0]];
    assert a[..0] == [] && b[..0] == [];
  }

  lemma SinglesAlike(a: seq<Span>, b: seq<Span>)
    requires a != [] && b != []
    ensures Alike(a, b, [[a[0]]], [[b[0]]], 1)
  {
    hide LastAlike;
    FirstAlike(a, b);
  }

  lemma OneAlike(a: seq<Span>, b: seq<Span>, window: int)
    requires a != [] && b != []
    ensures Alike(a, b, Groups(a[..1], window), Groups(b[..1], window), 1)
  {
    hide *;
    assert a[..1] == [a[0]] && b[..1] == [b[0]];
    SingleGroup(a[0], window);
    SingleGroup(b[0], window);
    SinglesAlike(a, b);
  }

  lemma {:induction false} PrefixAlike(a: seq<Span>, b: seq<Span>, window: int, k: nat)
    requires SortedByStart(a) && SortedByStart(b) && multiset(a) == multiset(b) && window >= 0
    requires 0 < k <= |a| && k <= |b|
    ensures Alike(a, b, Groups(a[..k], window), Groups(b[..k], window), k)
  {
    hide Groups, Extend, Alike, SortedByStart;
    if k == 1 {
      OneAlike(a, b, window);
    } else {
      PrefixAlike(a, b, window, k - 1);
      GroupsStep(a, window, k - 1);
      GroupsStep(b, window, k - 1);
      AlikeStep(a, b, window, Groups(a[..k - 1], window), Groups(b[..k - 1], window), k - 1);
    }
  }

  lemma AlikeToTheEnd(a: seq<Span>, b: seq<Span>, ga: seq<seq<Span>>, gb: seq<seq<Span>>)
    requires |a| == |b| && multiset(a) == multiset(b) && Alike(a, b, ga, gb, |a|)
    ensures |ga| == |gb| && forall g :: 0 <= g < |ga| ==> multiset(ga[g]) == multiset(gb[g])
  {
    assert a[..|a|] == a && b[..|b|] == b;
    SlicesAlike(a, b, |a| - |ga[|ga| - 1]|, |a|);
  }

  /** With a non-negative window two sorted orders of the same attempts give, group by group,
      the same attempts: the order among equal starts does not show. */
  lemma GroupsIndependent(a: seq<Span>, b: seq<Span>, window: int)
    requires SortedByStart(a) && SortedByStart(b) && multiset(a) == multiset(b) && window >= 0
    ensures |Groups(a, window)| == |Groups(b, window)|
    ensures forall g :: 0 <= g < |Groups(a, window)| ==>
              multiset(Groups(a, window)[g]) == multiset(Groups(b, window)[g])
  {
    SameLength(a, b);
    if a != [] {
      assert a[..|a|] == a && b[..|b|] == b;
      PrefixAlike(a, b, window, |a|);
      AlikeToTheEnd(a, b, Groups(a, window), Groups(b, window));
    }
  }

  lemma CutInTwo(s: Span, x: Span, window: int)
    requires Cut(s, x, window)
    ensures Groups([s, x], window) == [[s], [x]]
  {
    assert [s, x][..1] == [s];
    SingleGroup(s, window);
  }

  /** With a negative window the cuts fall between equal starts too, and the order shows. */
  lemma NegativeWindowDepends(s: Span, x: Span)
    requires s.start == x.start != ZERO_TIME && s != x
    ensures SortedByStart([s, x]) && SortedByStart([x, s]) && multiset([s, x]) == multiset([x, s])
    ensures multiset(Groups([s, x], -1)[0]) != multiset(Groups([x, s], -1)[0])
  {
    CutInTwo(s, x, -1);
    CutInTwo(x, s, -1);
    hide Groups;
    assert s in multiset([s]) && s !in multiset([x]);
  }

  // ---------- Duplicate findings ----------

  function Successful(): Span -> bool { (s: Span) => !s.Failed() }

  /** The groups that raise a duplicate finding. */
  function Duplicates(groups: seq<seq<Span>>, threshold: int): nat {
    if groups == [] then 0
    else
      Duplicates(groups[..|groups| - 1], threshold)
      + if CountIf(groups[|groups| - 1], Successful()) > threshold then 1 else 0
  }

  lemma {:induction false} DuplicatesAlike(ga: seq<seq<Span>>, gb: seq<seq<Span>>, threshold: int)
    requires |ga| == |gb| && forall g :: 0 <= g < |ga| ==> multiset(ga[g]) == multiset(gb[g])
    ensures Duplicates(ga, threshold) == Duplicates(gb, threshold)
  {
    if ga != [] {
      DuplicatesAlike(ga[..|ga| - 1], gb[..|gb| - 1], threshold);
      CountPermuted(ga[|ga| - 1], gb[|gb| - 1], Successful());
    }
  }

  /** So the number of duplicate findings does not depend on the sort either. */
  lemma DuplicatesIndependent(a: seq<Span>, b: seq<Span>, window: int, threshold: int)
    requires SortedByStart(a) && SortedByStart(b) && multiset(a) == multiset(b) && window >= 0
    ensures Duplicates(Groups(a, window), threshold) == Duplicates(Groups(b, window), threshold)
  {
    GroupsIndependent(a, b, window);
    DuplicatesAlike(Groups(a, window), Groups(b, window), threshold);
  }

  // ---------- The code ----------

  /** What sort.Slice by start time promises: nothing about the order of equal starts. */
  ghost predicate SortsByStart(order: seq<Span> -> seq<Span>) {
    forall s :: SortedByStart(order(s)) && multiset(order(s)) == multiset(s)
  }

  method PlaceAttempt(before: seq<seq<Span>>, span: Span, window: int) returns (groups: seq<seq<Span>>)
    requires before != [] && before[|before| - 1] != []
    ensures groups == Extend(before, span, window)
  {
    var lastGroup := before[|before| - 1];
    var previous := lastGroup[|lastGroup| - 1];
    if span.start != ZERO_TIME && previous.start != ZERO_TIME && Sub(span.start, previous.start) > window {
      groups := before + [[span]];
    } else {
      groups := before[..|before| - 1] + [lastGroup + [span]];
    }
  }

  method Cluster(sorted: seq<Span>, window: int) returns (groups: seq<seq<Span>>)
    ensures groups == Groups(sorted, window)
  {
    if |sorted| == 0 {
      return [];
    }
    groups := [[sorted[0]]];
    assert sorted[..1] == [sorted[0]];
    assert groups == Groups(sorted[..1], window);
    hide Groups, Extend;
    for k := 1 to |sorted|
      invariant groups == Groups(sorted[..k], window)
    {
      GroupsStep(sorted, window, k);
      groups := PlaceAttempt(groups, sorted[k], window);
    }
    assert sorted[..|sorted|] == sorted;
  }

  method SplitAttemptWindows(spans: seq<Span>, window: int, order: seq<Span> -> seq<Span>)
    returns (groups: seq<seq<Span>>)
    requires SortsByStart(order)
    ensures groups == Groups(order(spans), window)
    ensures NonEmpty(groups) && Flatten(groups) == order(spans)
  {
    var sorted := order(spans);
    groups := Cluster(sorted, window);
    SameLength(sorted, spans);
    GroupsPartition(sorted, window);
  }
}
