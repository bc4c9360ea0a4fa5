/** The live span store: a slice that is compacted in place, an identity index and a
    snapshot cache, proved against the state machine of module Retention. */
module LiveStore {
  import opened Spans
  import opened Retention

  datatype AddResult = AddResult(accepted: nat, rejected: nat, duplicateExports: nat, conflictingDuplicates: nat,
                                 rejectedMemory: nat)

  /** The answer to one batch in terms of the fates of its spans. */
  function ResultOf(l: Ledger): AddResult {
    AddResult(l.accepted, l.stale + l.conflicts + l.overCapacity
        + l.overMemory, l.duplicates, l.conflicts, l.overMemory)
  }

  /** The switch over the fates that fills the answer. */
  function AnswerWith(r: AddResult, v: Verdict): AddResult {
    match v
    case Stale => r.(rejected := r.rejected + 1)
    case DuplicateExport => r.(duplicateExports := r.duplicateExports + 1)
    case Conflict => r.(conflictingDuplicates := r.conflictingDuplicates + 1, rejected := r.rejected + 1)
    case NoCapacity => r.(rejected := r.rejected + 1)
    case NoMemory => r.(rejected := r.rejected + 1, rejectedMemory := r.rejectedMemory + 1)
    case Accepted => r.(accepted := r.accepted + 1)
  }

  lemma CountedAgrees(l: Ledger, v: Verdict)
    ensures ResultOf(Enter(l, v)) == AnswerWith(ResultOf(l), v)
  {}

  lemma NothingAnswered()
    ensures ResultOf(NOTHING) == AddResult(0, 0, 0, 0, 0)
  {}

  /** Every span of a batch is answered for, once. */
  lemma AnswersAll(st: State, lim: Limits, batch: seq<Span>, now: Time)
    ensures var r := ResultOf(EnterAll(NOTHING, st, lim, batch, now));
      r.accepted + r.rejected + r.duplicateExports == |batch|
  {
    FatesSum(NOTHING, st, lim, batch, now);
    hide EnterAll;
  }

  /** What an addition retains, by end time. */
  lemma AddKeepsRecent(st: State, lim: Limits, batch: seq<Span>, now: Time)
    ensures LeavesRecent(st.spans, AdmitAll(Evict(st, lim, now), lim, batch, now).spans, batch, now, lim.ttl)
  {
    hide *;
    StepKeepsRecent(st, lim, Retention.Add(batch, now));
    ApplyIs(st, lim, Retention.Add(batch, now));
  }

  class Store {
    const lim: Limits
    var buffer: array<Span>  // the slice's backing array; the first `len` elements are retained
    var len: nat
    var currentBytes: int
    var index: map<string, Entry>
    var stats: Stats
    var generation: nat
    var lastSnapshotGeneration: nat
    var cachedSnapshot: array?<Span>
    ghost var issued: set<array<Span>>  // every slice a snapshot has returned

    ghost predicate Valid()
      reads this, buffer, cachedSnapshot
    {
      && len <= buffer.Length
      && buffer !in issued
      && (cachedSnapshot != null ==> cachedSnapshot in issued && lastSnapshotGeneration <= generation)
      && (cachedSnapshot != null && generation == lastSnapshotGeneration ==> cachedSnapshot[..] == buffer[..len])
      && Retention.Valid(View(), lim)
    }

    function View(): State
      requires len <= buffer.Length
      reads this, buffer
    {
      State(buffer[..len], currentBytes, index, stats, generation)
    }

    constructor (lim: Limits)
      ensures Valid() && this.lim == lim && View() == EMPTY && fresh(buffer) && issued == {}
    {
      this.lim := lim;
      buffer, len, currentBytes, index := new Span[0], 0, 0, map[];
      stats, generation, lastSnapshotGeneration, cachedSnapshot := Stats(0, 0, 0, 0), 0, 0, null;
      issued := {};
      new;
      assert buffer[..len] == [];
    }

    method RebuildIndexLocked()
      requires len <= buffer.Length
      modifies this`index
      ensures index == RebuiltIndex(buffer[..len], lim)
    {
      index := map[];
      for i := 0 to len
        invariant index == RebuiltIndex(buffer[..i], lim)
      {
        assert buffer[..i + 1][..i] == buffer[..i];
        var identity := SpanIdentity(buffer[i]);
        if identity != "" {
          index := index[identity := Entry(i, HashOf(lim, buffer[i]))];
        }
      }
    }

    /** kept = append(kept, span), within the same array. */
    static method Put(a: array<Span>, kept: nat, span: Span)
      requires kept < a.Length
      modifies a
      ensures a[..kept + 1] == old(a[..kept]) + [span]
      ensures forall k :: kept < k < a.Length ==> a[k] == old(a[k])
    {
      a[kept] := span;
    }

    static lemma NothingKept(lim: Limits, now: Time)
      ensures Unexpired([], now, lim.ttl) == [] && TotalCost([], lim) == 0
    {}

    /** The compaction loop: it writes the kept spans over the front of the same array. */
    static method Compact(a: array<Span>, n: nat, lim: Limits, now: Time) returns (kept: nat, keptBytes: int)
      requires n <= a.Length
      modifies a
      ensures kept <= n && a[..kept] == Unexpired(old(a[..n]), now, lim.ttl)
      ensures KeepsRecent(old(a[..n]), a[..kept], now, lim.ttl)
      ensures keptBytes == TotalCost(a[..kept], lim)
    {
      hide *;
      kept, keptBytes := 0, 0;
      ghost var before, out := a[..n], [];
      NothingKept(lim, now);
      assert before[..0] == a[..0] == [];
      for i := 0 to n
        invariant kept <= i && forall k :: i <= k < n ==> a[k] == before[k]
        invariant a[..kept] == out
        invariant out == Unexpired(before[..i], now, lim.ttl)
        invariant keptBytes == TotalCost(out, lim)
      {
        var span := a[i];
        UnexpiredOneMore(before, i, now, lim.ttl);
        if !Expired(span, now, lim.ttl) {
          CostAppend(out, span, lim);
          Put(a, kept, span);
          out := out + [span];
          kept, keptBytes := kept + 1, keptBytes + CostOf(lim, span);
        }
      }
      assert before[..n] == before;
      UnexpiredRecent(before, now, lim.ttl);
    }

    method EvictLocked(now: Time)
      requires Valid()
      modifies this, buffer
      ensures Valid() && View() == Evict(old(View()), lim, now)
      ensures KeepsRecent(old(buffer[..len]), buffer[..len], now, lim.ttl)
      ensures issued == old(issued) && cachedSnapshot == old(cachedSnapshot)
                && lastSnapshotGeneration == old(lastSnapshotGeneration)
      ensures fresh(buffer) || buffer == old(buffer)
      ensures generation == old(generation) ==> buffer[..len] == old(buffer[..len])
    {
      hide Retention.Valid, Expired, Unexpired, TotalCost, RebuiltIndex, KeepsRecent;
      EvictValid(View(), lim, now);
      ghost var before := buffer[..len];
      var kept, keptBytes := Compact(buffer, len, lim, now);
      var n := len - kept;
      if n > 0 {
        var spans := new Span[kept];
        forall i | 0 <= i < kept {
          spans[i] := buffer[i];
        }
        assert spans[..kept] == Unexpired(before, now, lim.ttl);
        buffer, len, currentBytes := spans, kept, keptBytes;
        generation := generation + 1;
        stats := stats.(ttlEvictions := stats.ttlEvictions + n);
        RebuildIndexLocked();
      } else {
        UnexpiredSame(before, now, lim.ttl);
      }
    }

    /** append(s.spans, span): in place while the array has room, else into a larger one. */
    method Append(span: Span)
      requires len <= buffer.Length && buffer !in issued
      modifies this`buffer, this`len, buffer
      ensures len <= buffer.Length && buffer !in issued && buffer[..len] == old(buffer[..len]) + [span]
      ensures fresh(buffer) || buffer == old(buffer)
    {
      if len == buffer.Length {
        var larger := new Span[2 * len + 1];
        forall i | 0 <= i < len {
          larger[i] := buffer[i];
        }
        assert larger[..len] == buffer[..len];
        buffer := larger;
      }
      buffer[len] := span;
      len := len + 1;
    }

    /** What becomes of an arriving span. */
    method Decide(span: Span, now: Time) returns (verdict: Verdict)
      requires Valid()
      ensures verdict == Judge(View(), lim, span, now)
    {
      IndexInBounds(View(), lim);
      hide Retention.Valid, Key;
      if span.end != ZERO_TIME && span.end < now - lim.ttl {
        return Stale;
      }
      var identity := SpanIdentity(span);
      var hash := HashOf(lim, span);
      if identity != "" && identity in index {
        var existing := index[identity];
        return if existing.contentHash == hash && buffer[existing.position] == span then DuplicateExport else Conflict;
      }
      if len >= lim.max {
        return NoCapacity;
      }
      var estimated := CostOf(lim, span);
      if lim.maxBytes > 0 && currentBytes + estimated > lim.maxBytes {
        return NoMemory;
      }
      return Accepted;
    }

    method Accept(span: Span)
      requires len <= buffer.Length && buffer !in issued
      modifies this`buffer, this`len, this`currentBytes, this`generation, this`index, buffer
      ensures len <= buffer.Length && buffer !in issued
      ensures View() == State(old(View()).spans + [span], old(currentBytes) + CostOf(lim, span),
                              IndexSpan(old(index), span, old(len), lim), stats, old(generation) + 1)
      ensures fresh(buffer) || buffer == old(buffer)
    {
      hide SpanIdentity;
      var identity := SpanIdentity(span);
      Append(span);
      currentBytes := currentBytes + CostOf(lim, span);
      generation := generation + 1;
      if identity != "" {
        index := index[identity := Entry(len - 1, HashOf(lim, span))];
      }
    }

    /** One arriving span. */
    method AdmitLocked(span: Span, now: Time) returns (verdict: Verdict)
      requires Valid()
      modifies this, buffer
      ensures Valid() && View() == Admit(old(View()), lim, span, now) && verdict == Judge(old(View()), lim, span, now)
      ensures issued == old(issued)
      ensures fresh(buffer) || buffer == old(buffer)
    {
      hide Retention.Valid, Judge, Admit, SpanIdentity, TotalCost, RebuiltIndex, Unexpired, Expired, Record, IndexSpan,
           Evict, AdmitAll, CostOf, IndexExact;
      AdmitValid(View(), lim, span, now);
      AdmitCases(View(), lim, span, now);
      verdict := Decide(span, now);
      if verdict != Accepted {
        stats := Record(stats, verdict);
      } else {
        Accept(span);
      }
    }

    method Add(batch: seq<Span>, now: Time) returns (result: AddResult)
      requires Valid()
      modifies this, buffer
      ensures Valid() && View() == AdmitAll(Evict(old(View()), lim, now), lim, batch, now)
      ensures result == ResultOf(EnterAll(NOTHING, Evict(old(View()), lim, now), lim, batch, now))
      ensures result.accepted + result.rejected + result.duplicateExports == |batch|
      ensures LeavesRecent(old(View()).spans, View().spans, batch, now, lim.ttl)
      ensures issued == old(issued)
      ensures fresh(buffer) || buffer == old(buffer)
    {
      hide Retention.Valid, Evict, Judge, Admit, AdmitAll, EnterAll, Enter, ResultOf, AnswerWith, TotalCost,
           RebuiltIndex, Unexpired, KeepsRecent, LeavesRecent, Store.View;
      NothingAnswered();
      AddKeepsRecent(View(), lim, batch, now);
      EvictLocked(now);
      result := AddResult(0, 0, 0, 0, 0);
      ghost var evicted := View();
      AdmitNone(NOTHING, evicted, lim, now);
      assert batch[..0] == [];
      for i := 0 to |batch|
        invariant Valid() && View() == AdmitAll(evicted, lim, batch[..i], now)
        invariant result == ResultOf(EnterAll(NOTHING, evicted, lim, batch[..i], now))
        invariant issued == old(issued)
        invariant fresh(buffer) || buffer == old(buffer)
      {
        AdmitOneMore(NOTHING, evicted, lim, batch, i, now);
        var verdict := AdmitLocked(batch[i], now);
        CountedAgrees(EnterAll(NOTHING, evicted, lim, batch[..i], now), verdict);
        result := AnswerWith(result, verdict);
      }
      assert batch[..|batch|] == batch;
      AnswersAll(evicted, lim, batch, now);
    }

    /** The retained spans of this instant, copied or from the cache. */
    method Snapshot(now: Time) returns (out: array<Span>)
      requires Valid()
      modifies this, buffer
      ensures Valid() && View() == Evict(old(View()), lim, now)
      ensures KeepsRecent(old(View()).spans, out[..], now, lim.ttl)
      ensures out[..] == View().spans && out in issued && issued == old(issued) + {out}
      ensures fresh(out) || out in old(issued)
      ensures fresh(buffer) || buffer == old(buffer)
    {
      hide Retention.Valid, Evict, TotalCost, RebuiltIndex, Unexpired, KeepsRecent;
      EvictLocked(now);
      if cachedSnapshot != null && generation == lastSnapshotGeneration {
        return cachedSnapshot;
      }
      ghost var st := View();
      out := new Span[len];
      forall i | 0 <= i < len {
        out[i] := buffer[i];
      }
      assert out[..] == buffer[..len] && View() == st;
      cachedSnapshot := out;
      lastSnapshotGeneration := generation;
      issued := issued + {out};
      assert View() == st;
    }
  }

  /** Any sequence of calls on a store follows the state machine, and no slice a snapshot
      has ever returned is written to again. */
  method RunSteps(store: Store, steps: seq<Step>)
    requires store.Valid()
    modifies store, store.buffer
    ensures store.Valid() && store.View() == RunFrom(old(store.View()), store.lim, steps)
    ensures old(store.issued) <= store.issued
    ensures forall a :: a in old(store.issued) ==> a[..] == old(a[..])
  {
    hide Retention.Valid, Evict, AdmitAll, RunFrom, TotalCost, RebuiltIndex, Unexpired, Judge, Admit, Expired,
         LeavesRecent, KeepsRecent;
    RunNothing(store.View(), store.lim);
    assert steps[..0] == [];
    for i := 0 to |steps|
      invariant store.Valid() && store.View() == RunFrom(old(store.View()), store.lim, steps[..i])
      invariant old(store.issued) <= store.issued
      invariant fresh(store.buffer) || store.buffer == old(store.buffer)
      invariant forall a :: a in old(store.issued) ==> a[..] == old(a[..])
    {
      RunFromOneMore(old(store.View()), store.lim, steps, i);
      match steps[i]
      case Add(batch, now) => var _ := store.Add(batch, now);
      case TakeSnapshot(now) => var _ := store.Snapshot(now);
    }
    assert steps[..|steps|] == steps;
  }

  function RunFrom(st: State, lim: Limits, steps: seq<Step>): State {
    if steps == [] then st else Apply(RunFrom(st, lim, steps[..|steps| - 1]), lim, steps[|steps| - 1])
  }

  lemma RunNothing(st: State, lim: Limits)
    ensures RunFrom(st, lim, []) == st
  {}

  lemma RunFromOneMore(st: State, lim: Limits, steps: seq<Step>, i: nat)
    requires i < |steps|
    ensures RunFrom(st, lim, steps[..i + 1]) == Apply(RunFrom(st, lim, steps[..i]), lim, steps[i])
  {
    hide Apply;
    assert steps[..i + 1][..i] == steps[..i];
  }

  lemma {:induction false} RunFromEmpty(lim: Limits, steps: seq<Step>)
    ensures RunFrom(EMPTY, lim, steps) == Run(lim, steps)
  {
    if steps != [] {
      RunFromEmpty(lim, steps[..|steps| - 1]);
    }
  }
}
