/** Offline deduplication of repeated exports, and its agreement with the live store. */
module Dedup {
  import opened Spans
  import opened Retention

  // ---------- What deduplication means ----------

  /** Two spans claim one identity with different content. */
  predicate Clash(a: Span, b: Span) {
    SpanIdentity(a) != "" && SpanIdentity(a) == SpanIdentity(b) && a != b
  }

  ghost predicate Conflicting(spans: seq<Span>) {
    exists i, j :: 0 <= i < j < |spans| && Clash(spans[i], spans[j])
  }

  /** The identity has occurred before. */
  predicate Seen(spans: seq<Span>, s: Span) {
    SpanIdentity(s) != "" && Holds(spans, SpanIdentity(s))
  }

  /** The spans that are the first of their identity, and those without one, in order. */
  function FirstOccurrences(spans: seq<Span>): seq<Span> {
    if spans == [] then []
    else
      var front, s := spans[..|spans| - 1], spans[|spans| - 1];
      FirstOccurrences(front) + if Seen(front, s) then [] else [s]
  }

  lemma FirstOneMore(spans: seq<Span>, s: Span)
    ensures FirstOccurrences(spans + [s]) == FirstOccurrences(spans) + if Seen(spans, s) then [] else [s]
  {
    assert (spans + [s])[..|spans + [s]| - 1] == spans;
  }

  /** First occurrences carry all the identities there are, each once, and nothing new. */
  lemma {:induction false} FirstHoldsAll(spans: seq<Span>)
    ensures forall id :: id != "" ==> (Holds(FirstOccurrences(spans), id) <==> Holds(spans, id))
    ensures UniqueIdentities(FirstOccurrences(spans))
    ensures forall s :: s in FirstOccurrences(spans) ==> s in spans
  {
    if spans != [] {
      var front, s := spans[..|spans| - 1], spans[|spans| - 1];
      FirstHoldsAll(front);
      var firsts := FirstOccurrences(front);
      assert spans == front + [s];
      FirstOneMore(front, s);
      HoldsOneMore(front, s);
      HoldsOneMore(firsts, s);
      hide SpanIdentity, FirstOccurrences;
      if Seen(front, s) {
        assert FirstOccurrences(spans) == firsts;
      } else {
        forall i | 0 <= i < |firsts| && SpanIdentity(firsts[i]) != ""
          ensures SpanIdentity(firsts[i]) != SpanIdentity(s)
        {
          assert Holds(firsts, SpanIdentity(firsts[i]));
        }
      }
    }
  }

  lemma HoldsOneMore(spans: seq<Span>, s: Span)
    ensures forall id :: Holds(spans + [s], id) <==> Holds(spans, id) || id == SpanIdentity(s)
  {
    hide SpanIdentity;
    var all := spans + [s];
    forall id ensures Holds(all, id) <==> Holds(spans, id) || id == SpanIdentity(s) {
      if Holds(spans, id) {
        var i :| 0 <= i < |spans| && SpanIdentity(spans[i]) == id;
        assert SpanIdentity(all[i]) == id;
      }
      assert all[|spans|] == s;
    }
  }

  /** Deduplicating twice changes nothing more, and never finds a conflict. */
  lemma Idempotent(spans: seq<Span>)
    ensures FirstOccurrences(FirstOccurrences(spans)) == FirstOccurrences(spans)
    ensures !Conflicting(FirstOccurrences(spans))
  {
    FirstHoldsAll(spans);
    UniqueUnchanged(FirstOccurrences(spans));
  }

  lemma {:induction false} UniqueUnchanged(spans: seq<Span>)
    requires UniqueIdentities(spans)
    ensures FirstOccurrences(spans) == spans
  {
    if spans != [] {
      var front, s := spans[..|spans| - 1], spans[|spans| - 1];
      assert spans == front + [s];
      UniqueUnchanged(front);
      hide SpanIdentity, FirstOccurrences;
      FirstOneMore(front, s);
      assert !Seen(front, s) by {
        assert forall i :: 0 <= i < |front| ==> front[i] == spans[i];
      }
    }
  }

  lemma ConflictOneMore(spans: seq<Span>, s: Span)
    ensures Conflicting(spans + [s]) <==> Conflicting(spans) || exists t :: t in spans && Clash(t, s)
  {
    hide Clash;
    var all := spans + [s];
    if Conflicting(spans) {
      var i, j :| 0 <= i < j < |spans| && Clash(spans[i], spans[j]);
      assert Clash(all[i], all[j]);
    }
    if t :| t in spans && Clash(t, s) {
      var i :| 0 <= i < |spans| && spans[i] == t;
      assert Clash(all[i], all[|spans|]);
    }
    if Conflicting(all) {
      var i, j :| 0 <= i < j < |all| && Clash(all[i], all[j]);
      if j < |spans| {
        assert Clash(spans[i], spans[j]);
      } else {
        assert spans[i] in spans;
      }
    }
  }

  // ---------- The loop ----------

  /** After `past`: the output so far, and each of its identities under its position and hash. */
  ghost predicate Deduped(past: seq<Span>, out: seq<Span>, seen: map<string, Entry>, lim: Limits) {
    out == FirstOccurrences(past) && !Conflicting(past) && IndexExact(out, seen, lim)
  }

  lemma SeenIsInTable(past: seq<Span>, out: seq<Span>, seen: map<string, Entry>, lim: Limits, s: Span)
    requires Deduped(past, out, seen, lim) && SpanIdentity(s) != ""
    ensures SpanIdentity(s) in seen <==> Seen(past, s)
  {
    FirstHoldsAll(past);
    var id := SpanIdentity(s);
    if id in seen {
      assert SpanIdentity(out[seen[id].position]) == id;
    } else {
      assert forall i :: 0 <= i < |out| ==> SpanIdentity(out[i]) != id;
    }
  }

  lemma NoClashWhenNew(past: seq<Span>, s: Span)
    requires !Seen(past, s)
    ensures forall t :: t in past ==> !Clash(t, s)
  {
    forall t | t in past ensures !Clash(t, s) {
      var k :| 0 <= k < |past| && past[k] == t;
      assert SpanIdentity(past[k]) == SpanIdentity(t);
    }
  }

  lemma KeepNew(past: seq<Span>, out: seq<Span>, seen: map<string, Entry>, lim: Limits, s: Span)
    requires Deduped(past, out, seen, lim) && SpanIdentity(s) !in seen
    ensures Deduped(past + [s], out + [s], IndexSpan(seen, s, |out|, lim), lim)
  {
    if SpanIdentity(s) != "" {
      SeenIsInTable(past, out, seen, lim, s);
    }
    NoClashWhenNew(past, s);
    ConflictOneMore(past, s);
    FirstOneMore(past, s);
    hide FirstOccurrences, Seen;
    IndexOneMoreExact(out, seen, s, lim);
  }

  lemma SkipRepeat(past: seq<Span>, out: seq<Span>, seen: map<string, Entry>, lim: Limits, s: Span)
    requires Deduped(past, out, seen, lim) && SpanIdentity(s) in seen
    requires out[seen[SpanIdentity(s)].position] == s
    ensures Deduped(past + [s], out, seen, lim)
  {
    var i := seen[SpanIdentity(s)].position;
    FirstHoldsAll(past);
    assert SpanIdentity(out[i]) == SpanIdentity(s) != "" && out[i] in out;
    SeenIsInTable(past, out, seen, lim, s);
    forall t | t in past ensures !Clash(t, s) {
      SameIdentitySame(past, s, t);
    }
    ConflictOneMore(past, s);
    FirstOneMore(past, s);
  }

  lemma FindClash(past: seq<Span>, out: seq<Span>, seen: map<string, Entry>, lim: Limits, s: Span)
    requires Deduped(past, out, seen, lim) && SpanIdentity(s) in seen
    requires out[seen[SpanIdentity(s)].position] != s
    ensures Conflicting(past + [s])
  {
    FirstHoldsAll(past);
    var t := out[seen[SpanIdentity(s)].position];
    assert SpanIdentity(t) == SpanIdentity(s) != "" && t in out;
    assert Clash(t, s);
    ConflictOneMore(past, s);
  }

  lemma InTable(past: seq<Span>, out: seq<Span>, seen: map<string, Entry>, lim: Limits, id: string)
    requires Deduped(past, out, seen, lim) && id in seen
    ensures id != "" && seen[id].position < |out| && seen[id].contentHash == HashOf(lim, out[seen[id].position])
  {
    var i := seen[id].position;
    assert SpanIdentity(out[i]) == id != "";
    assert seen[id] == Entry(i, HashOf(lim, out[i]));
  }

  /** deduplicateSpans; no result models its conflict error. Only `lim.hash` is used. */
  method DeduplicateSpans(spans: seq<Span>, lim: Limits) returns (r: Option<seq<Span>>)
    ensures r.None? <==> Conflicting(spans)
    ensures r.Some? ==> r.value == FirstOccurrences(spans)
  {
    var seen: map<string, Entry> := map[];
    var out: seq<Span> := [];
    assert spans[..0] == [];
    for i := 0 to |spans|
      invariant Deduped(spans[..i], out, seen, lim)
    {
      hide Deduped, Conflicting, FirstOccurrences, IndexExact, SpanIdentity, CostOf, HashOf;
      var span := spans[i];
      assert spans[..i + 1] == spans[..i] + [span];
      var identity := SpanIdentity(span);
      if identity in seen {
        InTable(spans[..i], out, seen, lim, identity);
        var existing := seen[identity];
        if existing.contentHash != HashOf(lim, span) || out[existing.position] != span {
          FindClash(spans[..i], out, seen, lim, span);
          PrefixConflicts(spans, i + 1);
          return None;
        }
        SkipRepeat(spans[..i], out, seen, lim, span);
      } else {
        KeepNew(spans[..i], out, seen, lim, span);
        if identity != "" {
          seen := seen[identity := Entry(|out|, HashOf(lim, span))];
        }
        out := out + [span];
      }
    }
    assert spans[..|spans|] == spans;
    r := Some(out);
  }

  lemma PrefixConflicts(spans: seq<Span>, n: nat)
    requires n <= |spans| && Conflicting(spans[..n])
    ensures Conflicting(spans)
  {
    var i, j :| 0 <= i < j < n && Clash(spans[..n][i], spans[..n][j]);
    assert Clash(spans[i], spans[j]);
  }

  /** In a sequence without conflicts two spans of one identity are the same span. */
  lemma SameIdentitySame(spans: seq<Span>, s: Span, t: Span)
    requires !Conflicting(spans) && s in spans && t in spans
    ensures !Clash(s, t) && !Clash(t, s)
  {
    var i :| 0 <= i < |spans| && spans[i] == s;
    var j :| 0 <= j < |spans| && spans[j] == t;
    assert i < j ==> !Clash(spans[i], spans[j]);
    assert j < i ==> !Clash(spans[j], spans[i]);
  }

  // ---------- Live and offline agree ----------

  /** The store has room for everything there is. */
  predicate Room(lim: Limits, spans: seq<Span>) {
    |FirstOccurrences(spans)| <= lim.max
        && (lim.maxBytes > 0 ==> TotalCost(FirstOccurrences(spans), lim) <= lim.maxBytes)
  }

  lemma {:induction false} FirstPrefix(a: seq<Span>, b: seq<Span>)
    ensures FirstOccurrences(a) <= FirstOccurrences(a + b)
  {
    if b == [] {
      assert a + b == a;
    } else {
      FirstPrefix(a, b[..|b| - 1]);
      FirstOneMore(a + b[..|b| - 1], b[|b| - 1]);
      assert a + b == a + b[..|b| - 1] + [b[|b| - 1]];
    }
  }

  lemma {:induction false} CostPrefix(a: seq<Span>, b: seq<Span>, lim: Limits)
    requires a <= b
    ensures TotalCost(a, lim) <= TotalCost(b, lim)
  {
    if a != b {
      CostPrefix(a, b[..|b| - 1], lim);
    }
  }

  lemma RoomForPrefix(lim: Limits, a: seq<Span>, b: seq<Span>)
    requires Room(lim, a + b) && !Conflicting(a + b)
    ensures Room(lim, a) && !Conflicting(a)
  {
    FirstPrefix(a, b);
    CostPrefix(FirstOccurrences(a), FirstOccurrences(a + b), lim);
    assert (a + b)[..|a|] == a;
    if Conflicting(a) {
      PrefixConflicts(a + b, |a|);
    }
  }

  lemma MembersHold(spans: seq<Span>)
    ensures forall s :: s in spans ==> Holds(spans, SpanIdentity(s))
  {
    forall s | s in spans ensures Holds(spans, SpanIdentity(s)) {
      var i :| 0 <= i < |spans| && spans[i] == s;
      assert SpanIdentity(spans[i]) == SpanIdentity(s);
    }
  }

  lemma SeenIsDuplicate(lim: Limits, past: seq<Span>, s: Span, now: Time)
    requires Seen(past, s) && !Conflicting(past + [s]) && !Expired(s, now, lim.ttl)
    ensures JudgeByContent(FirstOccurrences(past), lim, s, now) == DuplicateExport
  {
    hide FirstOccurrences, Conflicting, SpanIdentity, Expired, TotalCost;
    FirstHoldsAll(past);
    ConflictOneMore(past, s);
    var firsts := FirstOccurrences(past);
    var i :| 0 <= i < |firsts| && SpanIdentity(firsts[i]) == SpanIdentity(s);
    assert firsts[i] in firsts && firsts[i] in past;
    assert firsts[i] == s;
  }

  lemma UnseenIsAccepted(lim: Limits, past: seq<Span>, s: Span, now: Time)
    requires !Seen(past, s) && Room(lim, past + [s]) && !Expired(s, now, lim.ttl)
    ensures JudgeByContent(FirstOccurrences(past), lim, s, now) == Accepted
  {
    hide FirstOccurrences, SpanIdentity, Expired, TotalCost;
    FirstHoldsAll(past);
    FirstOneMore(past, s);
    CostAppend(FirstOccurrences(past), s, lim);
    MembersHold(FirstOccurrences(past));
  }

  lemma AdmitFollows(st: State, lim: Limits, s: Span, now: Time)
    ensures Admit(st, lim, s, now).spans == st.spans + if Judge(st, lim, s, now) == Accepted then [s] else []
  {
    hide Judge;
  }

  /** One arrival: the live store keeps it exactly when deduplication does. */
  lemma AdmitIsDedup(st: State, lim: Limits, past: seq<Span>, s: Span, now: Time)
    requires Valid(st, lim) && st.spans == FirstOccurrences(past)
    requires !Conflicting(past + [s]) && Room(lim, past + [s]) && !Expired(s, now, lim.ttl)
    ensures Admit(st, lim, s, now).spans == FirstOccurrences(past + [s])
  {
    hide *;
    JudgeIsByContent(st, lim, s, now);
    AdmitFollows(st, lim, s, now);
    FirstOneMore(past, s);
    if Seen(past, s) {
      SeenIsDuplicate(lim, past, s, now);
    } else {
      UnseenIsAccepted(lim, past, s, now);
    }
  }

  lemma {:induction false} BatchIsDedup(st: State, lim: Limits, past: seq<Span>, batch: seq<Span>, now: Time)
    requires Valid(st, lim) && st.spans == FirstOccurrences(past)
    requires !Conflicting(past + batch) && Room(lim, past + batch) && AllFresh(batch, now, lim.ttl)
    ensures AdmitAll(st, lim, batch, now).spans == FirstOccurrences(past + batch)
  {
    if batch == [] {
      assert past + batch == past;
    } else {
      var front, s := batch[..|batch| - 1], batch[|batch| - 1];
      assert past + batch == past + front + [s];
      assert batch == front + [s];
      RoomForPrefix(lim, past + front, [s]);
      BatchIsDedup(st, lim, past, front, now);
      AdmitAllValid(st, lim, front, now);
      AdmitIsDedup(AdmitAll(st, lim, front, now), lim, past + front, s, now);
    }
  }

  /** Everything a run receives. */
  function Arrived(steps: seq<Step>): seq<Span> {
    if steps == [] then []
    else Arrived(steps[..|steps| - 1]) + if steps[|steps| - 1].Add? then steps[|steps| - 1].batch else []
  }

  /** With no span too old at any step, room for all and no conflict, however the input was cut into batches and
      whenever snapshots were taken, the live store retains what offline ingestion keeps. */
  lemma {:induction false} RunIsDedup(lim: Limits, steps: seq<Step>)
    requires forall k, s :: 0 <= k < |steps| && s in Arrived(steps) ==>
               s.end == ZERO_TIME || s.end >= steps[k].now - lim.ttl
    requires !Conflicting(Arrived(steps)) && Room(lim, Arrived(steps))
    ensures Run(lim, steps).spans == FirstOccurrences(Arrived(steps))
  {
    if steps != [] {
      var front, step := steps[..|steps| - 1], steps[|steps| - 1];
      var past, batch := Arrived(front), if step.Add? then step.batch else [];
      assert Arrived(steps) == past + batch;
      RoomForPrefix(lim, past, batch);
      RunIsDedup(lim, front);
      RunValid(lim, front);
      FirstHoldsAll(past);
      assert AllFresh(past + batch, step.now, lim.ttl);
      UnexpiredAll(Run(lim, front).spans, step.now, lim.ttl);
      assert Evict(Run(lim, front), lim, step.now) == Run(lim, front);
      BatchIsDedup(Run(lim, front), lim, past, batch, step.now);
      assert past + [] == past;
    }
  }
}
