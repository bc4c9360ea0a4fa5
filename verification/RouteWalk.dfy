/** The walk with two cursors over a route sorted by end time: what it returns on every
    input, when it faults, and when it finds the nearest producers. */
module RouteWalk {
  import opened Spans
  import opened Routes
  import opened Nearest

  datatype Candidate = Candidate(index: nat, delta: int)

  /** The order in which the index keeps the producers of a route. */
  predicate EndLess(spans: seq<Span>, i: nat, j: nat)
    requires i < |spans| && j < |spans|
  {
    spans[i].end < spans[j].end || (spans[i].end == spans[j].end && i < j)
  }

  predicate SortedByEnd(spans: seq<Span>, indices: seq<nat>) {
    && (forall k :: 0 <= k < |indices| ==> indices[k] < |spans|)
    && (forall j, k :: 0 <= j < k < |indices| ==> EndLess(spans, indices[j], indices[k]))
  }

  /** sort.Search: the first position whose producer does not end before the consumer starts. */
  function FirstNotBefore(spans: seq<Span>, indices: seq<nat>, c: Span): (r: nat)
    requires SortedByEnd(spans, indices)
    ensures r <= |indices|
    ensures forall k :: 0 <= k < |indices| ==> (EndsBefore(spans[indices[k]], c) <==> k < r)
  {
    if indices == [] || !EndsBefore(spans[indices[0]], c) then 0
    else
      var rest := indices[1..];
      assert forall k :: 0 < k < |indices| ==> indices[k] == rest[k - 1];
      1 + FirstNotBefore(spans, rest, c)
  }

  // ---------- The walk as a function ----------

  /** What the walk sees of one position: whom, how far, and whether the consumer accepts it; and whether the computed
      distance is the true one, which it does not see. */
  datatype Slot = Slot(index: nat, delta: int, fit: bool, exact: bool)

  function Slots(spans: seq<Span>, indices: seq<nat>, c: Span): (r: seq<Slot>)
    requires forall k :: 0 <= k < |indices| ==> indices[k] < |spans|
    ensures |r| == |indices|
    ensures forall k :: 0 <= k < |r| ==> r[k].index == indices[k]
    ensures forall k :: 0 <= k < |r| ==> r[k].delta == Delta(spans[indices[k]], c)
    ensures forall k :: 0 <= k < |r| ==> (r[k].fit <==> Accepts(spans[indices[k]], c))
    ensures forall k :: 0 <= k < |r| ==> (r[k].exact <==> Exact(spans[indices[k]], c))
  {
    seq(|indices|, k requires 0 <= k < |indices| =>
      Slot(indices[k], Delta(spans[indices[k]], c), Accepts(spans[indices[k]], c), Exact(spans[indices[k]], c)))
  }

  /** How many candidates a slice has room for: 2^48 bytes of address space at 16 bytes each. Asking for more
      stops the program. */
  const ROOM: int := 0x1000_0000_0000

  function Taking(s: Slot): Candidate { Candidate(s.index, s.delta) }

  /** The distance at a cursor; the largest duration stands in for none. */
  function At(slots: seq<Slot>, k: int): int { if 0 <= k < |slots| then slots[k].delta else MAX_DURATION }

  /** The rest of a walk; None is the index fault. */
  function WalkFrom(slots: seq<Slot>, window: int, limit: int, left: int, right: int, out: seq<Candidate>)
    : Option<seq<Candidate>>
    requires -1 <= left < |slots| && 0 <= right <= |slots|
    decreases left + 1 + |slots| - right
  {
    if |out| >= limit || (left < 0 && right >= |slots|) then Some(out)
    else if At(slots, left) <= At(slots, right) then
      if left < 0 then None
      else if slots[left].delta > window then Some(out)
      else WalkFrom(slots, window, limit, left - 1, right, if slots[left].fit then out + [Taking(slots[left])] else out)
    else if right >= |slots| || slots[right].delta > window then Some(out)
    else WalkFrom(slots, window, limit, left, right + 1, if slots[right].fit then out + [Taking(slots[right])] else out)
  }

  function WalkAll(spans: seq<Span>, indices: seq<nat>, c: Span, window: int, limit: int): Option<seq<Candidate>>
    requires SortedByEnd(spans, indices)
  {
    if |indices| == 0 || limit <= 0 then Some([])
    else if limit > ROOM then None
    else
      var position := FirstNotBefore(spans, indices, c);
      WalkFrom(Slots(spans, indices, c), window, limit, position - 1, position, [])
  }

  // ---------- Counting what is accepted ----------

  /** How many positions from `lo` up to `hi` are accepted. */
  function AcceptedIn(slots: seq<Slot>, lo: int, hi: int): nat
    requires 0 <= lo && hi <= |slots|
    decreases hi - lo
  {
    if lo >= hi then 0 else AcceptedIn(slots, lo, hi - 1) + if slots[hi - 1].fit then 1 else 0
  }

  lemma {:induction false} AcceptedFromLeft(slots: seq<Slot>, lo: int, hi: int)
    requires 0 <= lo < hi <= |slots|
    ensures AcceptedIn(slots, lo, hi) == AcceptedIn(slots, lo + 1, hi) + if slots[lo].fit then 1 else 0
    decreases hi - lo
  {
    if lo + 1 < hi { AcceptedFromLeft(slots, lo, hi - 1); }
  }

  /** A narrower range accepts no more. */
  lemma {:induction false} AcceptedWithin(slots: seq<Slot>, lo: int, hi: int, from: int, to: int)
    requires 0 <= from <= lo && 0 <= hi <= to <= |slots|
    ensures AcceptedIn(slots, lo, hi) <= AcceptedIn(slots, from, to)
    decreases lo - from + to - hi
  {
    if from < lo {
      if lo <= hi { AcceptedFromLeft(slots, lo - 1, hi); }
      AcceptedWithin(slots, lo - 1, hi, from, to);
    } else if hi < to {
      AcceptedWithin(slots, lo, hi, from, to - 1);
    }
  }

  // ---------- When the walk faults, and when it goes wrong ----------

  /** There is a route to walk, and the candidates asked for have no room in memory. */
  predicate Crowded(indices: seq<nat>, limit: int) { |indices| > 0 && limit > ROOM }

  /** The walk reads before the route: its `m`-th producer ends exactly the largest duration
      after the consumer starts, all earlier ones are in the window, and too few of them count. */
  ghost predicate PanicsAt(spans: seq<Span>, indices: seq<nat>, c: Span, window: int, limit: int, m: nat)
    requires SortedByEnd(spans, indices) && m < |indices|
  {
    && Gap(spans[indices[m]], c) == -MAX_DURATION
    && (forall k :: 0 <= k < m ==> spans[indices[k]].end < spans[indices[m]].end)
    && (forall k :: 0 <= k < m ==> Delta(spans[indices[k]], c) <= window)
    && AcceptedIn(Slots(spans, indices, c), 0, m) < limit
  }

  /** The walk reads index -1 of the route. */
  ghost predicate ReadsBefore(spans: seq<Span>, indices: seq<nat>, c: Span, window: int, limit: int)
    requires SortedByEnd(spans, indices)
  {
    exists m :: 0 <= m < |indices| && PanicsAt(spans, indices, c, window, limit, m)
  }

  /** Position `k` is no further than one of the positions from `from` up to `to`. */
  predicate NoFurther(slots: seq<Slot>, k: nat, from: nat, to: nat)
    requires k < |slots| && to <= |slots|
  {
    exists r :: from <= r < to && slots[k].delta <= slots[r].delta
  }

  /** Position `k` is no further than one of the positions from `from` through `last`. */
  predicate NoFurtherThrough(slots: seq<Slot>, k: nat, from: nat, last: nat)
    requires k < |slots| && last < |slots|
  {
    exists r :: from <= r <= last && slots[k].delta <= slots[r].delta
  }

  /** The walk takes position `m`, whose distance overflowed: all positions from the consumer's start up to it are
      in the window, `l` is where the left cursor has come to by then, and too few positions in between count. */
  ghost predicate OverrunsAt(slots: seq<Slot>, position: nat, window: int, limit: int, l: nat, m: nat) {
    && l <= position <= m < |slots|
    && slots[m].fit && slots[m].delta < 0
    && (forall k :: position <= k <= m ==> slots[k].delta <= window)
    && (forall k :: l <= k < position ==> NoFurther(slots, k, position, m))
    && (forall k, r :: 0 <= k < l && position <= r < m ==> slots[r].delta < slots[k].delta)
    && AcceptedIn(slots, l, m) < limit
  }

  ghost predicate Overruns(spans: seq<Span>, indices: seq<nat>, c: Span, window: int, limit: int)
    requires SortedByEnd(spans, indices)
  {
    exists l: nat, m: nat :: OverrunsAt(Slots(spans, indices, c), FirstNotBefore(spans, indices, c), window, limit, l,
                                        m)
  }

  /** The walk takes position `k`, whose distance was saturated: all positions from the consumer's start up to `r` are
      nearer, the one at `r` is not, and too few positions in between count. */
  ghost predicate OverreachesAt(slots: seq<Slot>, position: nat, window: int, limit: int, k: nat, r: nat) {
    && k < position <= r <= |slots|
    && slots[k].fit && !slots[k].exact && slots[k].delta <= window
    && (forall q :: position <= q < r ==> slots[q].delta < slots[k].delta)
    && (r < |slots| ==> slots[k].delta <= slots[r].delta)
    && AcceptedIn(slots, k + 1, r) < limit
  }

  ghost predicate Overreaches(spans: seq<Span>, indices: seq<nat>, c: Span, window: int, limit: int)
    requires SortedByEnd(spans, indices)
  {
    exists k: nat, r: nat ::
      OverreachesAt(Slots(spans, indices, c), FirstNotBefore(spans, indices, c), window, limit, k, r)
  }

  /** The walk takes a producer whose computed distance is not the true one. */
  ghost predicate Misled(spans: seq<Span>, indices: seq<nat>, c: Span, window: int, limit: int)
    requires SortedByEnd(spans, indices)
  {
    Overruns(spans, indices, c, window, limit) || Overreaches(spans, indices, c, window, limit)
  }

  /** The walk stops the program. */
  ghost predicate Panics(spans: seq<Span>, indices: seq<nat>, c: Span, window: int, limit: int)
    requires SortedByEnd(spans, indices)
  {
    Crowded(indices, limit) || ReadsBefore(spans, indices, c, window, limit)
  }

  /** The gap is short of the fault, and of saturation where the window does not exclude that by itself. */
  predicate InRange(p: Span, c: Span, window: int) {
    Gap(p, c) > -MAX_DURATION && (window < MAX_DURATION || Gap(p, c) <= MAX_DURATION)
  }

  ghost predicate AllInRange(spans: seq<Span>, indices: seq<nat>, c: Span, window: int)
    requires SortedByEnd(spans, indices)
  {
    forall k :: 0 <= k < |indices| ==> InRange(spans[indices[k]], c, window)
  }

  /** With all gaps in range the walk is not misled, and faults only for lack of room. */
  lemma InRangeIsSafe(spans: seq<Span>, indices: seq<nat>, c: Span, window: int, limit: int)
    requires SortedByEnd(spans, indices) && AllInRange(spans, indices, c, window)
    ensures !ReadsBefore(spans, indices, c, window, limit) && !Misled(spans, indices, c, window, limit)
  {
    hide AcceptedIn, NoFurther, Accepts;
    var slots, position := Slots(spans, indices, c), FirstNotBefore(spans, indices, c);
    forall l: nat, m: nat ensures !OverrunsAt(slots, position, window, limit, l, m) {
      if position <= m < |indices| { assert InRange(spans[indices[m]], c, window); }
    }
    forall k: nat, r: nat ensures !OverreachesAt(slots, position, window, limit, k, r) {
      if k < position { DeltaExact(spans[indices[k]], c); }
    }
  }

  // ---------- What lies between the cursors ----------

  /** `out` holds exactly the accepted positions strictly between the cursors. */
  ghost predicate Members(slots: seq<Slot>, left: int, right: int, out: seq<Candidate>)
    requires -1 <= left && right <= |slots|
  {
    && (forall k :: left < k < right && slots[k].fit ==> Taking(slots[k]) in out)
    && (forall x :: x in out ==> exists k :: left < k < right && slots[k].fit && x == Taking(slots[k]))
  }

  /** What the walk has established once it passed the positions strictly between the cursors. */
  ghost predicate Walked(slots: seq<Slot>, position: int, window: int, left: int, right: int, out: seq<Candidate>) {
    && -1 <= left < position <= right <= |slots|
    && |out| == AcceptedIn(slots, left + 1, right)
    && (forall k :: left < k < right ==> slots[k].delta <= window)
    && (forall k :: position <= k < right ==> slots[k].delta < MAX_DURATION)
    && Members(slots, left, right, out)
    && (forall i, j :: 0 <= i < j < |out| ==> out[i].index != out[j].index)
  }

  /** The cursors advance in the order of the distances. */
  ghost predicate Merged(slots: seq<Slot>, position: nat, left: int, right: int) {
    && -1 <= left < position <= right <= |slots|
    && (forall k, r :: 0 <= k <= left && position <= r < right ==> slots[r].delta < slots[k].delta)
    && (right < |slots| ==> forall k :: left < k < position ==> NoFurtherThrough(slots, k, position, right))
  }

  /** Before the consumer's start distances fall and none has overflowed. */
  ghost predicate FallsLeft(slots: seq<Slot>, position: nat) {
    position <= |slots| && forall j, k :: 0 <= j <= k < position ==> slots[j].delta >= slots[k].delta >= 0
  }

  lemma SlotsFallLeft(spans: seq<Span>, indices: seq<nat>, c: Span)
    requires SortedByEnd(spans, indices)
    ensures FallsLeft(Slots(spans, indices, c), FirstNotBefore(spans, indices, c))
  {
    var position := FirstNotBefore(spans, indices, c);
    forall j, k | 0 <= j <= k < position ensures Delta(spans[indices[j]], c) >= Delta(spans[indices[k]], c) >= 0 {
      assert j < k ==> EndLess(spans, indices[j], indices[k]);
    }
  }

  ghost predicate DistinctSlots(slots: seq<Slot>) {
    forall j, k :: 0 <= j < k < |slots| ==> slots[j].index != slots[k].index
  }

  lemma SlotsDistinct(spans: seq<Span>, indices: seq<nat>, c: Span)
    requires SortedByEnd(spans, indices)
    ensures DistinctSlots(Slots(spans, indices, c))
  {
    forall j, k | 0 <= j < k < |indices| ensures indices[j] != indices[k] {
      assert EndLess(spans, indices[j], indices[k]);
    }
  }

  /** One more position between the cursors. */
  predicate Step(left: int, right: int, left': int, right': int, k: int) {
    (k == left && left' == left - 1 && right' == right) || (k == right && left' == left && right' == right + 1)
  }

  /** The position chosen is at a cursor, no further than the other cursor's, and in the window. */
  predicate Chosen(slots: seq<Slot>, window: int, left: int, right: int, left': int, right': int, k: nat) {
    && -1 <= left < |slots| && 0 <= right <= |slots| && k < |slots|
    && Step(left, right, left', right', k)
    && slots[k].delta <= window
    && (k == right ==> slots[k].delta < MAX_DURATION)
    && (k == left && right < |slots| ==> slots[left].delta <= slots[right].delta)
    && (k == right && 0 <= left ==> slots[right].delta < slots[left].delta)
  }

  function Taken(slots: seq<Slot>, k: nat, out: seq<Candidate>): seq<Candidate>
    requires k < |slots|
  {
    if slots[k].fit then out + [Taking(slots[k])] else out
  }

  lemma AcceptedGrows(slots: seq<Slot>, left: int, right: int, left': int, right': int, k: int)
    requires -1 <= left < right <= |slots| && 0 <= k < |slots| && Step(left, right, left', right', k)
    ensures AcceptedIn(slots, left' + 1, right')
            == AcceptedIn(slots, left + 1, right) + (if slots[k].fit then 1 else 0)
  {
    if k == left { AcceptedFromLeft(slots, left, right); }
  }

  lemma MembersGrow(slots: seq<Slot>, left: int, right: int, left': int, right': int, k: nat, out: seq<Candidate>)
    requires -1 <= left < right <= |slots| && k < |slots| && Step(left, right, left', right', k)
    requires Members(slots, left, right, out)
    ensures Members(slots, left', right', Taken(slots, k, out))
  {
    var out' := Taken(slots, k, out);
    forall i | left' < i < right' && slots[i].fit ensures Taking(slots[i]) in out' {
      if i == k {
        assert out'[|out|] == Taking(slots[k]);
      } else {
        assert Taking(slots[i]) in out;
      }
    }
    forall x | x in out' ensures exists i :: left' < i < right' && slots[i].fit && x == Taking(slots[i]) {
      if x in out {
        var i :| left < i < right && slots[i].fit && x == Taking(slots[i]);
        assert left' < i < right';
      } else {
        assert x == Taking(slots[k]) && left' < k < right' && slots[k].fit;
      }
    }
  }

  /** Passing one more position, on either side, keeps the invariant. */
  lemma WalkOn(slots: seq<Slot>, position: int, window: int, left: int, right: int, left': int, right': int, k: nat,
               out: seq<Candidate>)
    requires Walked(slots, position, window, left, right, out) && DistinctSlots(slots)
    requires Chosen(slots, window, left, right, left', right', k)
    ensures Walked(slots, position, window, left', right', Taken(slots, k, out))
  {
    hide AcceptedIn, Members, DistinctSlots;
    AcceptedGrows(slots, left, right, left', right', k);
    MembersGrow(slots, left, right, left', right', k, out);
    NewToOut(slots, left, right, k, out);
  }

  /** A position not yet passed is not among the candidates. */
  lemma NewToOut(slots: seq<Slot>, left: int, right: int, k: nat, out: seq<Candidate>)
    requires -1 <= left && right <= |slots| && k < |slots| && !(left < k < right)
    requires Members(slots, left, right, out) && DistinctSlots(slots)
    ensures forall j :: 0 <= j < |out| ==> out[j].index != slots[k].index
  {
    forall j | 0 <= j < |out| ensures out[j].index != slots[k].index {
      assert out[j] in out;
    }
  }

  lemma MergeOn(slots: seq<Slot>, position: nat, window: int, left: int, right: int, left': int, right': int, k: nat)
    requires Merged(slots, position, left, right) && FallsLeft(slots, position)
    requires Chosen(slots, window, left, right, left', right', k)
    ensures Merged(slots, position, left', right')
  {
    if right' < |slots| {
      forall i | left' < i < position ensures NoFurtherThrough(slots, i, position, right') {
        if i > left {
          assert NoFurtherThrough(slots, i, position, right);
          var r :| position <= r <= right && slots[i].delta <= slots[r].delta;
          assert position <= r <= right';
        } else {
          assert i == left && slots[i].delta <= slots[right].delta;
        }
      }
    }
  }

  // ---------- The order of the candidates ----------

  /** Every accepted position strictly between the cursors has its true distance. */
  ghost predicate Clean(slots: seq<Slot>, left: int, right: int)
    requires -1 <= left && right <= |slots|
  {
    forall k :: left < k < right && slots[k].fit ==> slots[k].exact
  }

  /** Candidate `p` is preferred to every position the cursors have not passed. */
  ghost predicate Ahead(spans: seq<Span>, indices: seq<nat>, c: Span, left: int, right: int, p: nat)
    requires SortedByEnd(spans, indices) && p < |spans|
  {
    forall u :: 0 <= u < |indices| && (u <= left || right <= u) ==> Nearer(spans, c, p, indices[u])
  }

  lemma LeftAhead(spans: seq<Span>, indices: seq<nat>, c: Span, left: int, right: int)
    requires SortedByEnd(spans, indices) && 0 <= left < FirstNotBefore(spans, indices, c) <= right <= |indices|
    requires Exact(spans[indices[left]], c)
    requires right < |indices| ==> Delta(spans[indices[left]], c) <= Delta(spans[indices[right]], c)
    ensures Ahead(spans, indices, c, left - 1, right, indices[left])
  {
    forall u | 0 <= u < |indices| && (u <= left - 1 || right <= u)
      ensures Nearer(spans, c, indices[left], indices[u])
    {
      if u < left {
        assert EndLess(spans, indices[u], indices[left]);
      } else {
        assert u == right || EndLess(spans, indices[right], indices[u]);
      }
    }
  }

  lemma RightAhead(spans: seq<Span>, indices: seq<nat>, c: Span, left: int, right: int)
    requires SortedByEnd(spans, indices) && -1 <= left < FirstNotBefore(spans, indices, c) <= right < |indices|
    requires Exact(spans[indices[right]], c)
    requires 0 <= left ==> Delta(spans[indices[right]], c) < Delta(spans[indices[left]], c)
    ensures Ahead(spans, indices, c, left, right + 1, indices[right])
  {
    forall u | 0 <= u < |indices| && (u <= left || right + 1 <= u)
      ensures Nearer(spans, c, indices[right], indices[u])
    {
      if u > right {
        assert EndLess(spans, indices[right], indices[u]);
      } else {
        assert u == left || EndLess(spans, indices[u], indices[left]);
      }
    }
  }

  /** The candidates are in order, and all of them before what is still ahead. */
  ghost predicate Ranked(spans: seq<Span>, indices: seq<nat>, c: Span, left: int, right: int, out: seq<Candidate>)
    requires SortedByEnd(spans, indices)
  {
    && (forall j :: 0 <= j < |out| ==> out[j].index < |spans| && Ahead(spans, indices, c, left, right, out[j].index))
    && (forall i, j :: 0 <= i < j < |out| ==> Nearer(spans, c, out[i].index, out[j].index))
  }

  /** Passing the nearer of the two positions at the cursors keeps the candidates in order. */
  lemma RankOn(spans: seq<Span>, indices: seq<nat>, c: Span, window: int, left: int, right: int, left': int,
               right': int, k: nat, out: seq<Candidate>)
    requires SortedByEnd(spans, indices) && Ranked(spans, indices, c, left, right, out)
    requires -1 <= left < FirstNotBefore(spans, indices, c) <= right <= |indices|
    requires Chosen(Slots(spans, indices, c), window, left, right, left', right', k)
    requires Slots(spans, indices, c)[k].fit ==> Slots(spans, indices, c)[k].exact
    ensures Ranked(spans, indices, c, left', right', Taken(Slots(spans, indices, c), k, out))
  {
    var slots := Slots(spans, indices, c);
    if slots[k].fit {
      assert Taken(slots, k, out)[|out|] == Taking(slots[k]);
      if k == left {
        LeftAhead(spans, indices, c, left, right);
      } else {
        RightAhead(spans, indices, c, left, right);
      }
    }
    forall j | 0 <= j < |out| ensures Ahead(spans, indices, c, left', right', out[j].index) {
      assert Ahead(spans, indices, c, left, right, out[j].index);
    }
  }

  // ---------- The end of the walk ----------

  /** The walk stops with no producer in the window ahead of it, or with enough. */
  ghost predicate Stopped(slots: seq<Slot>, window: int, limit: int, left: int, right: int, out: seq<Candidate>)
    requires -1 <= left < |slots| && 0 <= right
  {
    || |out| == limit
    || (&& (left >= 0 ==> slots[left].delta > window)
        && (right < |slots| ==> slots[right].delta > window && (left < 0 ==> slots[right].delta < MAX_DURATION)))
  }

  lemma FaultPanics(spans: seq<Span>, indices: seq<nat>, c: Span, window: int, limit: int, right: int,
                    out: seq<Candidate>)
    requires SortedByEnd(spans, indices)
    requires Walked(Slots(spans, indices, c), FirstNotBefore(spans, indices, c), window, -1, right, out)
    requires |out| < limit && right < |indices| && Delta(spans[indices[right]], c) == MAX_DURATION
    ensures ReadsBefore(spans, indices, c, window, limit)
  {
    assert !EndsBefore(spans[indices[right]], c);
    forall k | 0 <= k < right ensures spans[indices[k]].end < spans[indices[right]].end {
      assert EndLess(spans, indices[k], indices[right]);
    }
    assert PanicsAt(spans, indices, c, window, limit, right);
  }

  /** Were there a fault ahead, the walk would not have stopped before it. */
  lemma StopShowsEnough(slots: seq<Slot>, position: int, window: int, limit: int, left: int, right: int,
                        out: seq<Candidate>, m: nat)
    requires Walked(slots, position, window, left, right, out) && Stopped(slots, window, limit, left, right, out)
    requires position <= m < |slots| && slots[m].delta == MAX_DURATION
    requires forall k :: 0 <= k < m ==> slots[k].delta <= window
    ensures AcceptedIn(slots, 0, m) >= limit
  {
    assert right <= m;
    assert |out| == limit;
    AcceptedWithin(slots, left + 1, right, 0, m);
  }

  lemma StopIsSafe(spans: seq<Span>, indices: seq<nat>, c: Span, window: int, limit: int, left: int, right: int,
                   out: seq<Candidate>)
    requires SortedByEnd(spans, indices)
    requires Walked(Slots(spans, indices, c), FirstNotBefore(spans, indices, c), window, left, right, out)
    requires Stopped(Slots(spans, indices, c), window, limit, left, right, out)
    ensures !ReadsBefore(spans, indices, c, window, limit)
  {
    var slots, position := Slots(spans, indices, c), FirstNotBefore(spans, indices, c);
    forall m | 0 <= m < |indices| ensures !PanicsAt(spans, indices, c, window, limit, m) {
      if Gap(spans[indices[m]], c) == -MAX_DURATION && forall k :: 0 <= k < m ==> slots[k].delta <= window {
        assert position <= m && slots[m].delta == MAX_DURATION;
        StopShowsEnough(slots, position, window, limit, left, right, out, m);
      }
    }
  }

  /** Choosing an accepted position whose distance overflowed is an overrun. */
  lemma OverflowOverruns(slots: seq<Slot>, position: nat, window: int, limit: int, left: int, right: int,
                         out: seq<Candidate>)
    requires Walked(slots, position, window, left, right, out) && Merged(slots, position, left, right)
    requires FallsLeft(slots, position) && |out| < limit
    requires right < |slots| && slots[right].fit && slots[right].delta < 0 && slots[right].delta <= window
    ensures OverrunsAt(slots, position, window, limit, left + 1, right)
  {
    forall k | left + 1 <= k < position ensures NoFurther(slots, k, position, right) {
      assert NoFurtherThrough(slots, k, position, right);
      var r :| position <= r <= right && slots[k].delta <= slots[r].delta;
      assert r != right;
    }
  }

  /** Choosing an accepted position whose distance was saturated is overreaching. */
  lemma SaturationOverreaches(slots: seq<Slot>, position: nat, window: int, limit: int, left: int, right: int,
                              out: seq<Candidate>)
    requires Walked(slots, position, window, left, right, out) && Merged(slots, position, left, right)
    requires 0 <= left && |out| < limit
    requires slots[left].fit && !slots[left].exact && slots[left].delta <= window
    requires right < |slots| ==> slots[left].delta <= slots[right].delta
    ensures OverreachesAt(slots, position, window, limit, left, right)
  {}

  lemma FurtherAt(slots: seq<Slot>, k: nat, from: nat, last: nat) returns (r: nat)
    requires k < |slots| && last < |slots| && NoFurtherThrough(slots, k, from, last)
    ensures from <= r <= last && slots[k].delta <= slots[r].delta
  {
    r :| from <= r <= last && slots[k].delta <= slots[r].delta;
  }

  /** Until an overrun is passed on the right, the left cursor does not pass its left end. */
  lemma LeftIsPast(slots: seq<Slot>, position: nat, window: int, limit: int, left: int, right: int, l: nat, m: nat)
    requires Merged(slots, position, left, right) && FallsLeft(slots, position)
    requires OverrunsAt(slots, position, window, limit, l, m) && right <= m
    ensures l <= left + 1
  {
    if left + 1 < position {
      var r := FurtherAt(slots, left + 1, position, right);
      assert r == m || slots[left + 1].delta <= slots[r].delta;
      assert slots[left + 1].delta >= 0;
    }
  }

  /** A walk that stops has taken every overrun there is. */
  lemma StopIsPast(slots: seq<Slot>, position: nat, window: int, limit: int, left: int, right: int, out: seq<Candidate>,
                   l: nat, m: nat)
    requires Walked(slots, position, window, left, right, out) && Merged(slots, position, left, right)
    requires FallsLeft(slots, position) && Stopped(slots, window, limit, left, right, out)
    requires OverrunsAt(slots, position, window, limit, l, m)
    ensures left < m < right
  {
    if right <= m {
      LeftIsPast(slots, position, window, limit, left, right, l, m);
      AcceptedWithin(slots, left + 1, right, l, m);
      assert false;
    }
  }

  /** A walk that stops has taken every position it could overreach to. */
  lemma StopHasReached(slots: seq<Slot>, position: nat, window: int, limit: int, left: int, right: int,
                       out: seq<Candidate>, k: nat, r: nat)
    requires Walked(slots, position, window, left, right, out) && Merged(slots, position, left, right)
    requires FallsLeft(slots, position) && Stopped(slots, window, limit, left, right, out)
    requires OverreachesAt(slots, position, window, limit, k, r)
    ensures left < k < right
  {
    if k <= left {
      AcceptedWithin(slots, left + 1, right, k + 1, r);
      assert false;
    }
  }

  /** Overruns and overreaches were taken by the time the walk stops. */
  lemma MisledIsUnclean(spans: seq<Span>, indices: seq<nat>, c: Span, window: int, limit: int, left: int, right: int,
                        out: seq<Candidate>)
    requires SortedByEnd(spans, indices) && Misled(spans, indices, c, window, limit)
    requires Walked(Slots(spans, indices, c), FirstNotBefore(spans, indices, c), window, left, right, out)
    requires Merged(Slots(spans, indices, c), FirstNotBefore(spans, indices, c), left, right)
    requires Stopped(Slots(spans, indices, c), window, limit, left, right, out)
    ensures !Clean(Slots(spans, indices, c), left, right)
  {
    SlotsFallLeft(spans, indices, c);
    SlotsExact(spans, indices, c);
    hide FirstNotBefore, Slots, Merged, FallsLeft, Stopped, Walked;
    var slots, position := Slots(spans, indices, c), FirstNotBefore(spans, indices, c);
    CursorsInBounds(slots, position, window, left, right, out);
    if l: nat, m: nat :| OverrunsAt(slots, position, window, limit, l, m) {
      StopIsPast(slots, position, window, limit, left, right, out, l, m);
    } else {
      var k: nat, r: nat :| OverreachesAt(slots, position, window, limit, k, r);
      StopHasReached(slots, position, window, limit, left, right, out, k, r);
    }
  }

  /** Before the consumer's start a distance is wrong by saturation, after it by overflow. */
  lemma SlotsExact(spans: seq<Span>, indices: seq<nat>, c: Span)
    requires SortedByEnd(spans, indices)
    ensures var slots, position := Slots(spans, indices, c), FirstNotBefore(spans, indices, c);
      && (forall k :: 0 <= k < |slots| ==> slots[k].delta < 0 ==> !slots[k].exact)
      && (forall k :: position <= k < |slots| ==> (slots[k].exact <==> slots[k].delta >= 0))
  {
    hide Accepts;
    forall k | 0 <= k < |indices| ensures Delta(spans[indices[k]], c) < 0 ==> !Exact(spans[indices[k]], c) {
      DeltaExact(spans[indices[k]], c);
    }
  }

  lemma WalkedIsSound(spans: seq<Span>, indices: seq<nat>, c: Span, window: int, left: int, right: int,
                      out: seq<Candidate>)
    requires SortedByEnd(spans, indices)
    requires Walked(Slots(spans, indices, c), FirstNotBefore(spans, indices, c), window, left, right, out)
    ensures Sound(spans, indices, c, window, out)
  {
    forall j | 0 <= j < |out|
      ensures out[j].index in indices && out[j].index < |spans|
      ensures out[j].delta == Delta(spans[out[j].index], c) <= window && Accepts(spans[out[j].index], c)
    {
      assert out[j] in out;
    }
  }

  function CandidateIndices(out: seq<Candidate>): (r: seq<nat>)
    ensures |r| == |out| && forall j :: 0 <= j < |out| ==> r[j] == out[j].index
  {
    seq(|out|, j requires 0 <= j < |out| => out[j].index)
  }

  /** What holds of the answer whatever the times are. */
  ghost predicate Sound(spans: seq<Span>, indices: seq<nat>, c: Span, window: int, out: seq<Candidate>) {
    && (forall j :: 0 <= j < |out| ==> out[j].index in indices && out[j].index < |spans|)
    && (forall j :: 0 <= j < |out| ==>
          out[j].delta == Delta(spans[out[j].index], c) <= window && Accepts(spans[out[j].index], c))
    && (forall i, j :: 0 <= i < j < |out| ==> out[i].index != out[j].index)
  }

  /** A position still ahead when the walk stops is out of reach, or the walk had enough. */
  lemma StillAhead(spans: seq<Span>, indices: seq<nat>, c: Span, window: int, limit: int, left: int, right: int,
                   out: seq<Candidate>, k: nat)
    requires SortedByEnd(spans, indices) && window <= MAX_DURATION
    requires -1 <= left < FirstNotBefore(spans, indices, c) <= right <= |indices|
    requires Stopped(Slots(spans, indices, c), window, limit, left, right, out)
    requires k < |indices| && (k <= left || right <= k)
    ensures |out| == limit || Abs(Gap(spans[indices[k]], c)) > window
  {
    if k <= left {
      assert k == left || EndLess(spans, indices[k], indices[left]);
    } else {
      assert k == right || EndLess(spans, indices[right], indices[k]);
    }
  }

  lemma AllTaken(slots: seq<Slot>, position: int, window: int, left: int, right: int, out: seq<Candidate>)
    requires Walked(slots, position, window, left, right, out)
    ensures forall k :: left < k < right && slots[k].fit ==> slots[k].index in CandidateIndices(out)
  {
    forall k | left < k < right && slots[k].fit ensures slots[k].index in CandidateIndices(out) {
      var j :| 0 <= j < |out| && out[j] == Taking(slots[k]);
      assert CandidateIndices(out)[j] == slots[k].index;
    }
  }

  lemma LeftOut(spans: seq<Span>, indices: seq<nat>, c: Span, window: int, limit: nat, left: int, right: int,
                out: seq<Candidate>, u: nat)
    requires SortedByEnd(spans, indices) && window <= MAX_DURATION
    requires Walked(Slots(spans, indices, c), FirstNotBefore(spans, indices, c), window, left, right, out)
    requires Stopped(Slots(spans, indices, c), window, limit, left, right, out)
    requires Ranked(spans, indices, c, left, right, out)
    requires u in indices && WithinReach(spans, c, window, u) && u !in CandidateIndices(out)
    ensures |out| == limit && forall j :: 0 <= j < |out| ==> Nearer(spans, c, CandidateIndices(out)[j], u)
  {
    AllTaken(Slots(spans, indices, c), FirstNotBefore(spans, indices, c), window, left, right, out);
    var k :| 0 <= k < |indices| && indices[k] == u;
    assert k <= left || right <= k;
    StillAhead(spans, indices, c, window, limit, left, right, out, k);
    forall j | 0 <= j < |out| ensures Nearer(spans, c, CandidateIndices(out)[j], u) {
      assert Ahead(spans, indices, c, left, right, out[j].index);
    }
  }

  /** A distance within the window is true exactly when the producer is within reach. */
  lemma ExactIsInReach(spans: seq<Span>, c: Span, window: int, i: nat)
    requires i < |spans| && window <= MAX_DURATION && Delta(spans[i], c) <= window && Accepts(spans[i], c)
    ensures Exact(spans[i], c) <==> WithinReach(spans, c, window, i)
  {
    hide Accepts;
    DeltaExact(spans[i], c);
  }

  /** Candidates are within reach exactly when their distances are true. */
  lemma CleanIsInReach(spans: seq<Span>, indices: seq<nat>, c: Span, window: int, left: int, right: int,
                       out: seq<Candidate>)
    requires SortedByEnd(spans, indices) && window <= MAX_DURATION
    requires Walked(Slots(spans, indices, c), FirstNotBefore(spans, indices, c), window, left, right, out)
    ensures Clean(Slots(spans, indices, c), left, right)
            <==> forall i :: i in CandidateIndices(out) ==> i < |spans| && WithinReach(spans, c, window, i)
    ensures forall i :: i in CandidateIndices(out) ==> i in Elements(indices)
  {
    hide WithinReach, FirstNotBefore, Members, AcceptedIn, Accepts, Delta, Exact;
    var slots, position := Slots(spans, indices, c), FirstNotBefore(spans, indices, c);
    AllTaken(slots, position, window, left, right, out);
    OnlyTaken(slots, position, window, left, right, out);
    forall k | left < k < right && slots[k].fit ensures slots[k].exact <==> WithinReach(spans, c, window, indices[k]) {
      ExactIsInReach(spans, c, window, indices[k]);
    }
    hide Walked;
    forall i | i in CandidateIndices(out)
      ensures i in Elements(indices) && exists k :: left < k < right && slots[k].fit && indices[k] == i
    {
      var k :| left < k < right && slots[k].fit && slots[k].index == i;
      assert indices[k] == i;
    }
  }

  lemma OnlyTaken(slots: seq<Slot>, position: int, window: int, left: int, right: int, out: seq<Candidate>)
    requires Walked(slots, position, window, left, right, out)
    ensures forall i :: i in CandidateIndices(out) ==>
              exists k :: left < k < right && slots[k].fit && slots[k].index == i
  {
    forall i | i in CandidateIndices(out)
      ensures exists k :: left < k < right && slots[k].fit && slots[k].index == i
    {
      var j :| 0 <= j < |out| && CandidateIndices(out)[j] == i;
      assert out[j] in out;
      var k :| left < k < right && slots[k].fit && out[j] == Taking(slots[k]);
      assert slots[k].index == i;
    }
  }

  lemma StopIsNearest(spans: seq<Span>, indices: seq<nat>, c: Span, window: int, limit: nat, left: int, right: int,
                      out: seq<Candidate>)
    requires SortedByEnd(spans, indices) && window <= MAX_DURATION
    requires Walked(Slots(spans, indices, c), FirstNotBefore(spans, indices, c), window, left, right, out)
    requires Clean(Slots(spans, indices, c), left, right) && Ranked(spans, indices, c, left, right, out)
    requires Stopped(Slots(spans, indices, c), window, limit, left, right, out) && |out| <= limit
    ensures IsNearest(spans, c, window, limit, Elements(indices), CandidateIndices(out))
  {
    WalkedIsSound(spans, indices, c, window, left, right, out);
    CleanIsInReach(spans, indices, c, window, left, right, out);
    hide Walked, Stopped, FirstNotBefore, Slots, Clean, WithinReach;
    var picks := CandidateIndices(out);
    forall u | u in indices && WithinReach(spans, c, window, u) && u !in picks
      ensures |picks| == limit && forall j :: 0 <= j < |picks| ==> Nearer(spans, c, picks[j], u)
    {
      LeftOut(spans, indices, c, window, limit, left, right, out, u);
    }
  }

  // ---------- The whole walk ----------

  /** The invariant of the walk. */
  ghost predicate Walking(spans: seq<Span>, indices: seq<nat>, c: Span, window: int, limit: int, left: int, right: int,
                          out: seq<Candidate>)
    requires SortedByEnd(spans, indices)
  {
    && |out| <= limit <= ROOM
    && Walked(Slots(spans, indices, c), FirstNotBefore(spans, indices, c), window, left, right, out)
    && Merged(Slots(spans, indices, c), FirstNotBefore(spans, indices, c), left, right)
    && (if Clean(Slots(spans, indices, c), left, right) then Ranked(spans, indices, c, left, right, out)
        else Misled(spans, indices, c, window, limit))
  }

  lemma Advance(spans: seq<Span>, indices: seq<nat>, c: Span, window: int, limit: int, left: int, right: int,
                left': int, right': int, k: nat, out: seq<Candidate>)
    requires SortedByEnd(spans, indices) && Walking(spans, indices, c, window, limit, left, right, out) && |out| < limit
    requires Chosen(Slots(spans, indices, c), window, left, right, left', right', k)
    ensures Walking(spans, indices, c, window, limit, left', right', Taken(Slots(spans, indices, c), k, out))
  {
    SlotsDistinct(spans, indices, c);
    SlotsFallLeft(spans, indices, c);
    SlotsExact(spans, indices, c);
    hide Walked, Merged, Ranked, FallsLeft, DistinctSlots, OverrunsAt, OverreachesAt, FirstNotBefore, Slots;
    var slots, position := Slots(spans, indices, c), FirstNotBefore(spans, indices, c);
    WalkOn(slots, position, window, left, right, left', right', k, out);
    MergeOn(slots, position, window, left, right, left', right', k);
    CursorsInBounds(slots, position, window, left, right, out);
    CleanStep(slots, left, right, left', right', k);
    if Clean(slots, left', right') {
      RankOn(spans, indices, c, window, left, right, left', right', k, out);
    } else if Clean(slots, left, right) {
      if k == left {
        SaturationOverreaches(slots, position, window, limit, left, right, out);
      } else {
        OverflowOverruns(slots, position, window, limit, left, right, out);
      }
    }
  }

  lemma CursorsInBounds(slots: seq<Slot>, position: nat, window: int, left: int, right: int, out: seq<Candidate>)
    requires Walked(slots, position, window, left, right, out)
    ensures -1 <= left < position <= right <= |slots|
  {}

  /** What was clean stays so exactly when the position just taken has its true distance. */
  lemma CleanStep(slots: seq<Slot>, left: int, right: int, left': int, right': int, k: nat)
    requires -1 <= left < right <= |slots| && k < |slots| && Step(left, right, left', right', k)
    ensures Clean(slots, left', right') <==> Clean(slots, left, right) && (slots[k].fit ==> slots[k].exact)
  {}

  /** What the walk promises of its answer. */
  ghost predicate Answers(spans: seq<Span>, indices: seq<nat>, c: Span, window: int, limit: int,
                          r: Option<seq<Candidate>>)
    requires SortedByEnd(spans, indices)
  {
    && (r.None? <==> Panics(spans, indices, c, window, limit))
    && (r.Some? ==> Sound(spans, indices, c, window, r.value) && (|r.value| <= limit || r.value == []))
    && (r.Some? && window <= MAX_DURATION ==>
          (IsNearest(spans, c, window, if limit < 0 then 0 else limit, Elements(indices), CandidateIndices(r.value))
           <==> !Misled(spans, indices, c, window, limit)))
  }

  lemma Conclude(spans: seq<Span>, indices: seq<nat>, c: Span, window: int, limit: nat, left: int, right: int,
                 out: seq<Candidate>)
    requires SortedByEnd(spans, indices) && Walking(spans, indices, c, window, limit, left, right, out)
    requires Stopped(Slots(spans, indices, c), window, limit, left, right, out)
    ensures Answers(spans, indices, c, window, limit, Some(out))
  {
    hide Walked, Merged, Ranked, Stopped, Misled, FirstNotBefore, Slots, ReadsBefore, Sound, Clean, IsNearest;
    WithinBounds(spans, indices, c, window, limit, left, right, out);
    StopIsSafe(spans, indices, c, window, limit, left, right, out);
    WalkedIsSound(spans, indices, c, window, left, right, out);
    if Misled(spans, indices, c, window, limit) {
      MisledIsUnclean(spans, indices, c, window, limit, left, right, out);
    }
    if window <= MAX_DURATION {
      CleanIsInReach(spans, indices, c, window, left, right, out);
      if Clean(Slots(spans, indices, c), left, right) {
        StopIsNearest(spans, indices, c, window, limit, left, right, out);
      } else {
        NotInReach(spans, c, window, limit, Elements(indices), CandidateIndices(out));
      }
    }
  }

  lemma NotInReach(spans: seq<Span>, c: Span, window: int, limit: nat, pool: set<nat>, picks: seq<nat>)
    requires forall i :: i in pool ==> i < |spans|
    requires !(forall i :: i in picks ==> i < |spans| && WithinReach(spans, c, window, i))
    ensures !IsNearest(spans, c, window, limit, pool, picks)
  {
    hide WithinReach, Nearer;
  }

  lemma Fault(spans: seq<Span>, indices: seq<nat>, c: Span, window: int, limit: int, right: int, out: seq<Candidate>)
    requires SortedByEnd(spans, indices) && Walking(spans, indices, c, window, limit, -1, right, out)
    requires |out| < limit && right < |indices| && Delta(spans[indices[right]], c) == MAX_DURATION
    ensures Answers(spans, indices, c, window, limit, None)
  {
    FaultPanics(spans, indices, c, window, limit, right, out);
  }

  /** From any point of a walk on, its answer is as promised. */
  lemma {:induction false} WalkFromAnswers(spans: seq<Span>, indices: seq<nat>, c: Span, window: int, limit: int,
                                           left: int, right: int, out: seq<Candidate>)
    requires SortedByEnd(spans, indices) && Walking(spans, indices, c, window, limit, left, right, out) && limit > 0
    requires -1 <= left < |indices| && 0 <= right <= |indices|
    ensures Answers(spans, indices, c, window, limit,
                    WalkFrom(Slots(spans, indices, c), window, limit, left, right, out))
    decreases left + 1 + |indices| - right
  {
    hide Answers, Walking;
    var slots := Slots(spans, indices, c);
    WithinBounds(spans, indices, c, window, limit, left, right, out);
    if |out| >= limit || (left < 0 && right >= |slots|) {
      Conclude(spans, indices, c, window, limit, left, right, out);
    } else if At(slots, left) <= At(slots, right) {
      if left < 0 {
        Fault(spans, indices, c, window, limit, right, out);
      } else if slots[left].delta > window {
        Conclude(spans, indices, c, window, limit, left, right, out);
      } else {
        Advance(spans, indices, c, window, limit, left, right, left - 1, right, left, out);
        WalkFromAnswers(spans, indices, c, window, limit, left - 1, right, Taken(slots, left, out));
      }
    } else if slots[right].delta > window {
      Conclude(spans, indices, c, window, limit, left, right, out);
    } else {
      Advance(spans, indices, c, window, limit, left, right, left, right + 1, right, out);
      WalkFromAnswers(spans, indices, c, window, limit, left, right + 1, Taken(slots, right, out));
    }
  }

  lemma WithinBounds(spans: seq<Span>, indices: seq<nat>, c: Span, window: int, limit: int, left: int, right: int,
                     out: seq<Candidate>)
    requires SortedByEnd(spans, indices) && Walking(spans, indices, c, window, limit, left, right, out)
    ensures |out| <= limit && -1 <= left < right <= |indices|
  {}

  lemma WalkStarts(spans: seq<Span>, indices: seq<nat>, c: Span, window: int, limit: int)
    requires SortedByEnd(spans, indices)
    ensures WalkAll(spans, indices, c, window, limit)
         == if |indices| == 0 || limit <= 0 then Some([])
            else if limit > ROOM then None
            else WalkFrom(Slots(spans, indices, c), window, limit, FirstNotBefore(spans, indices, c) - 1,
                          FirstNotBefore(spans, indices, c), [])
  {}

  lemma WalkingStarts(spans: seq<Span>, indices: seq<nat>, c: Span, window: int, limit: nat)
    requires SortedByEnd(spans, indices) && limit <= ROOM
    ensures var position: int := FirstNotBefore(spans, indices, c);
      Walking(spans, indices, c, window, limit, position - 1, position, [])
  {}

  lemma NothingToWalk(spans: seq<Span>, indices: seq<nat>, c: Span, window: int, limit: int)
    requires SortedByEnd(spans, indices) && (|indices| == 0 || limit <= 0)
    ensures Answers(spans, indices, c, window, limit, Some([]))
  {}

  lemma NoRoom(spans: seq<Span>, indices: seq<nat>, c: Span, window: int, limit: int)
    requires SortedByEnd(spans, indices) && |indices| > 0 && limit > ROOM
    ensures Answers(spans, indices, c, window, limit, None)
  {}

  /** On every input the walk faults exactly where it is said to, and otherwise its candidates are the nearest
      producers of the route exactly when it is not misled. */
  lemma WalkAnswers(spans: seq<Span>, indices: seq<nat>, c: Span, window: int, limit: int)
    requires SortedByEnd(spans, indices)
    ensures Answers(spans, indices, c, window, limit, WalkAll(spans, indices, c, window, limit))
  {
    hide *;
    WalkStarts(spans, indices, c, window, limit);
    if |indices| == 0 || limit <= 0 {
      NothingToWalk(spans, indices, c, window, limit);
    } else if limit > ROOM {
      NoRoom(spans, indices, c, window, limit);
    } else {
      var position: int := FirstNotBefore(spans, indices, c);
      WalkingStarts(spans, indices, c, window, limit);
      WalkFromAnswers(spans, indices, c, window, limit, position - 1, position, []);
    }
  }

  // ---------- The walk as a loop ----------

  /** The rest of the walk over a route. */
  function Rest(spans: seq<Span>, indices: seq<nat>, c: Span, window: int, limit: int, left: int, right: int,
                out: seq<Candidate>): Option<seq<Candidate>>
    requires (forall k :: 0 <= k < |indices| ==> indices[k] < |spans|) && -1 <= left < |indices|
             && 0 <= right <= |indices|
  {
    WalkFrom(Slots(spans, indices, c), window, limit, left, right, out)
  }

  /** The distance of a cursor's producer; the largest duration stands in for none. */
  function DistanceAt(spans: seq<Span>, indices: seq<nat>, c: Span, k: int): int
    requires forall k :: 0 <= k < |indices| ==> indices[k] < |spans|
  {
    if 0 <= k < |indices| then Delta(spans[indices[k]], c) else MAX_DURATION
  }

  lemma RestStarts(spans: seq<Span>, indices: seq<nat>, c: Span, window: int, limit: int)
    requires SortedByEnd(spans, indices)
    ensures forall k :: 0 <= k < |indices| ==> indices[k] < |spans|
    ensures WalkAll(spans, indices, c, window, limit)
         == if |indices| == 0 || limit <= 0 then Some([])
            else if limit > ROOM then None
            else Rest(spans, indices, c, window, limit, FirstNotBefore(spans, indices, c) - 1,
                      FirstNotBefore(spans, indices, c), [])
  {}

  lemma RestEnds(spans: seq<Span>, indices: seq<nat>, c: Span, window: int, limit: int, left: int, right: int,
                 out: seq<Candidate>)
    requires forall k :: 0 <= k < |indices| ==> indices[k] < |spans|
    requires -1 <= left < |indices| && 0 <= right <= |indices| && (|out| >= limit || (left < 0 && right >= |indices|))
    ensures Rest(spans, indices, c, window, limit, left, right, out) == Some(out)
  {}

  /** One turn of the walk, to the left. */
  lemma TurnLeft(spans: seq<Span>, indices: seq<nat>, c: Span, window: int, limit: int, left: int, right: int,
                 out: seq<Candidate>)
    requires forall k :: 0 <= k < |indices| ==> indices[k] < |spans|
    requires -1 <= left < |indices| && 0 <= right <= |indices| && |out| < limit && (left >= 0 || right < |indices|)
    requires DistanceAt(spans, indices, c, left) <= DistanceAt(spans, indices, c, right)
    ensures Rest(spans, indices, c, window, limit, left, right, out)
         == if left < 0 then None
            else if DistanceAt(spans, indices, c, left) > window then Some(out)
            else Rest(spans, indices, c, window, limit, left - 1, right, WithPosition(spans, indices, c, left, out))
  {
    hide Accepts, Delta;
  }

  /** One turn of the walk, to the right. */
  lemma TurnRight(spans: seq<Span>, indices: seq<nat>, c: Span, window: int, limit: int, left: int, right: int,
                  out: seq<Candidate>)
    requires forall k :: 0 <= k < |indices| ==> indices[k] < |spans|
    requires -1 <= left < |indices| && 0 <= right <= |indices| && |out| < limit && (left >= 0 || right < |indices|)
    requires DistanceAt(spans, indices, c, left) > DistanceAt(spans, indices, c, right)
    ensures right < |indices|
    ensures Rest(spans, indices, c, window, limit, left, right, out)
         == if DistanceAt(spans, indices, c, right) > window then Some(out)
            else Rest(spans, indices, c, window, limit, left, right + 1, WithPosition(spans, indices, c, right, out))
  {
    hide Accepts, Delta;
  }

  function WithPosition(spans: seq<Span>, indices: seq<nat>, c: Span, k: nat, out: seq<Candidate>): seq<Candidate>
    requires k < |indices| && forall k :: 0 <= k < |indices| ==> indices[k] < |spans|
  {
    if Accepts(spans[indices[k]], c) then out + [Candidate(indices[k], DistanceAt(spans, indices, c, k))] else out
  }

  lemma PositionMeans(spans: seq<Span>, indices: seq<nat>, c: Span, k: nat, out: seq<Candidate>)
    requires k < |indices| && forall k :: 0 <= k < |indices| ==> indices[k] < |spans|
    ensures WithPosition(spans, indices, c, k, out)
         == if Accepts(spans[indices[k]], c) then out + [Candidate(indices[k], DistanceAt(spans, indices, c, k))]
             else out
  {}

  lemma DistanceMeans(spans: seq<Span>, indices: seq<nat>, c: Span, k: int)
    requires forall k :: 0 <= k < |indices| ==> indices[k] < |spans|
    ensures DistanceAt(spans, indices, c, k) == if 0 <= k < |indices| then Delta(spans[indices[k]], c) else MAX_DURATION
  {}

  /** The two-cursor walk. No result models a fault that stops the program: of the allocation or of the index. */
  method NearestRouteCandidates(indices: seq<nat>, spans: seq<Span>, consumer: Span, window: int, limit: int)
    returns (r: Option<seq<Candidate>>)
    requires SortedByEnd(spans, indices)
    ensures r == WalkAll(spans, indices, consumer, window, limit)
    ensures Answers(spans, indices, consumer, window, limit, r)
  {
    hide *;
    WalkAnswers(spans, indices, consumer, window, limit);
    RestStarts(spans, indices, consumer, window, limit);
    if |indices| == 0 || limit <= 0 {
      return Some([]);
    }
    if limit > ROOM {
      return None;
    }
    var position: int := FirstNotBefore(spans, indices, consumer);
    var left, right := position - 1, position;
    var out: seq<Candidate> := [];
    while |out| < limit && (left >= 0 || right < |indices|)
      invariant -1 <= left < |indices| && 0 <= right <= |indices|
      invariant WalkAll(spans, indices, consumer, window, limit)
                == Rest(spans, indices, consumer, window, limit, left, right, out)
      decreases left + 1 + |indices| - right
    {
      DistanceMeans(spans, indices, consumer, left);
      DistanceMeans(spans, indices, consumer, right);
      var leftDelta, rightDelta := MAX_DURATION, MAX_DURATION;
      if left >= 0 {
        leftDelta := Delta(spans[indices[left]], consumer);
      }
      if right < |indices| {
        rightDelta := Delta(spans[indices[right]], consumer);
      }
      var chooseLeft := leftDelta <= rightDelta;
      if chooseLeft {
        TurnLeft(spans, indices, consumer, window, limit, left, right, out);
      } else {
        TurnRight(spans, indices, consumer, window, limit, left, right, out);
      }
      if chooseLeft && left < 0 {
        return None;
      }
      var pi, distance;
      if chooseLeft {
        PositionMeans(spans, indices, consumer, left, out);
        pi, distance := indices[left], leftDelta;
        left := left - 1;
      } else {
        PositionMeans(spans, indices, consumer, right, out);
        pi, distance := indices[right], rightDelta;
        right := right + 1;
      }
      if distance > window {
        if !(leftDelta > window && rightDelta > window) {
          assert false;  // the distance is the smaller of the two: the loop never goes on from here
        }
        return Some(out);
      }
      if Accepts(spans[pi], consumer) {
        out := out + [Candidate(pi, distance)];
      }
    }
    RestEnds(spans, indices, consumer, window, limit, left, right, out);
    r := Some(out);
  }
}
