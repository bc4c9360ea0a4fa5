/** The live span store as a state machine: what each step does to the retained
    spans, the identity index, the byte account and the counters. */
module Retention {
  import Text
  import opened Spans

  /** The limits of one store; the byte estimate and the content hash are any functions. */
  datatype Limits = Limits(max: int, maxBytes: int, ttl: int, cost: Span -> nat, hash: Span -> int)

  function CostOf(lim: Limits, s: Span): nat { lim.cost(s) }

  function HashOf(lim: Limits, s: Span): int { lim.hash(s) }

  datatype Entry = Entry(position: nat, contentHash: int)

  datatype Stats = Stats(rejected: nat, duplicateExports: nat, conflictingDuplicates: nat, ttlEvictions: nat)

  datatype State = State(spans: seq<Span>, bytes: int, index: map<string, Entry>, stats: Stats, generation: nat)

  const EMPTY := State([], 0, map[], Stats(0, 0, 0, 0), 0)

  function SpanIdentity(s: Span): string {
    if s.traceId == "" || s.spanId == "" then "" else Key(s.traceId, s.spanId)
  }

  /** With hexadecimal ids on one side the identity is the pair of ids. */
  lemma IdentityExact(s: Span, t: Span)
    requires Text.ValidTraceId(t.traceId) && Text.ValidSpanId(t.spanId)
    ensures SpanIdentity(s) == SpanIdentity(t) <==> s.traceId == t.traceId && s.spanId == t.spanId
    ensures SpanIdentity(s) == "" <==> s.traceId == "" || s.spanId == ""
  {
    KeyExact(s.traceId, s.spanId, t.traceId, t.spanId);
    assert SpanIdentity(t) != "";
  }

  predicate Expired(s: Span, now: Time, ttl: int) {
    s.end != ZERO_TIME && s.end < now - ttl
  }

  function TotalCost(spans: seq<Span>, lim: Limits): nat {
    if spans == [] then 0 else TotalCost(spans[..|spans| - 1], lim) + CostOf(lim, spans[|spans| - 1])
  }

  lemma CostAppend(spans: seq<Span>, s: Span, lim: Limits)
    ensures TotalCost(spans + [s], lim) == TotalCost(spans, lim) + CostOf(lim, s)
  {
    assert (spans + [s])[..|spans + [s]| - 1] == spans;
  }

  // ---------- Eviction ----------

  function Unexpired(spans: seq<Span>, now: Time, ttl: int): (r: seq<Span>)
    ensures |r| <= |spans|
  {
    if spans == [] then []
    else
      Unexpired(spans[..|spans| - 1], now, ttl)
      + if Expired(spans[|spans| - 1], now, ttl) then [] else [spans[|spans| - 1]]
  }

  lemma {:induction false} UnexpiredMembers(spans: seq<Span>, now: Time, ttl: int)
    ensures forall s :: s in Unexpired(spans, now, ttl) <==> s in spans && !Expired(s, now, ttl)
  {
    if spans != [] {
      UnexpiredMembers(spans[..|spans| - 1], now, ttl);
      assert spans == spans[..|spans| - 1] + [spans[|spans| - 1]];
    }
  }

  lemma UnexpiredOneMore(spans: seq<Span>, i: nat, now: Time, ttl: int)
    requires i < |spans|
    ensures Unexpired(spans[..i + 1], now, ttl)
              == Unexpired(spans[..i], now, ttl) + if Expired(spans[i], now, ttl) then [] else [spans[i]]
  {
    assert spans[..i + 1][..i] == spans[..i];
  }

  /** `at` lists, in order, the positions of all spans of `before` that have no end time or ended no longer than `ttl`
      ago, and `kept` the spans there. */
  ghost predicate RecentAt(before: seq<Span>, kept: seq<Span>, now: Time, ttl: int, at: seq<nat>) {
    && |at| == |kept|
    && (forall i, j :: 0 <= i < j < |at| ==> at[i] < at[j])
    && (forall k :: 0 <= k < |at| ==> at[k] < |before| && before[at[k]] == kept[k])
    && (forall i :: 0 <= i < |before| ==>
          (i in at <==> before[i].end == ZERO_TIME || before[i].end >= now - ttl))
  }

  /** `kept` lists, in order, exactly the spans of `before` that have no end time or ended no longer than `ttl` ago. */
  ghost predicate KeepsRecent(before: seq<Span>, kept: seq<Span>, now: Time, ttl: int) {
    exists at: seq<nat> :: RecentAt(before, kept, now, ttl, at)
  }

  /** `after` is what `before` and a batch leave at `now`: the recent spans of `before` in their order, then recent
      ones of the batch. */
  ghost predicate LeavesRecent(before: seq<Span>, after: seq<Span>, batch: seq<Span>, now: Time, ttl: int) {
    && (forall k :: 0 <= k < |after| ==> after[k].end == ZERO_TIME || after[k].end >= now - ttl)
    && exists n :: && 0 <= n <= |after| && KeepsRecent(before, after[..n], now, ttl)
                   && forall k :: n <= k < |after| ==> after[k] in batch
  }

  lemma NothingRecent(now: Time, ttl: int)
    ensures KeepsRecent([], Unexpired([], now, ttl), now, ttl)
  {
    assert RecentAt([], [], now, ttl, []);
  }

  lemma {:induction false} UnexpiredRecent(spans: seq<Span>, now: Time, ttl: int)
    ensures KeepsRecent(spans, Unexpired(spans, now, ttl), now, ttl)
  {
    hide *;
    if spans == [] {
      NothingRecent(now, ttl);
    } else {
      var front, s := spans[..|spans| - 1], spans[|spans| - 1];
      UnexpiredRecent(front, now, ttl);
      RecentOneMore(front, Unexpired(front, now, ttl), s, now, ttl);
      UnexpiredLast(front, s, now, ttl);
      assert spans == front + [s];
    }
  }

  lemma UnexpiredLast(front: seq<Span>, s: Span, now: Time, ttl: int)
    ensures Unexpired(front + [s], now, ttl)
            == Unexpired(front, now, ttl) + if s.end == ZERO_TIME || s.end >= now - ttl then [s] else []
  {
    assert (front + [s])[..|front + [s]| - 1] == front;
  }

  lemma RecentOneMore(before: seq<Span>, kept: seq<Span>, s: Span, now: Time, ttl: int)
    requires KeepsRecent(before, kept, now, ttl)
    ensures KeepsRecent(before + [s], kept + if s.end == ZERO_TIME || s.end >= now - ttl then [s] else [], now, ttl)
  {
    var at: seq<nat> :| RecentAt(before, kept, now, ttl, at);
    if s.end == ZERO_TIME || s.end >= now - ttl {
      AnotherRecent(before, kept, s, now, ttl, at);
    } else {
      assert RecentAt(before + [s], kept + [], now, ttl, at);
    }
  }

  lemma AnotherRecent(before: seq<Span>, kept: seq<Span>, s: Span, now: Time, ttl: int, at: seq<nat>)
    requires RecentAt(before, kept, now, ttl, at) && (s.end == ZERO_TIME || s.end >= now - ttl)
    ensures RecentAt(before + [s], kept + [s], now, ttl, at + [|before|])
  {
    var all, more := before + [s], at + [|before|];
    forall i | 0 <= i < |all| ensures i in more <==> all[i].end == ZERO_TIME || all[i].end >= now - ttl {
      assert i in more <==> i in at || i == |before|;
    }
    assert forall k :: 0 <= k < |at| ==> at[k] in at && more[k] == at[k];
  }

  /** All that is kept is recent. */
  lemma KeptAreRecent(before: seq<Span>, kept: seq<Span>, now: Time, ttl: int)
    requires KeepsRecent(before, kept, now, ttl)
    ensures forall k :: 0 <= k < |kept| ==> kept[k].end == ZERO_TIME || kept[k].end >= now - ttl
  {
    var at: seq<nat> :| RecentAt(before, kept, now, ttl, at);
    assert forall k :: 0 <= k < |kept| ==> at[k] in at && before[at[k]] == kept[k];
  }

  function IndexSpan(index: map<string, Entry>, s: Span, position: nat, lim: Limits): map<string, Entry> {
    if SpanIdentity(s) == "" then index else index[SpanIdentity(s) := Entry(position, HashOf(lim, s))]
  }

  function RebuiltIndex(spans: seq<Span>, lim: Limits): map<string, Entry> {
    if spans == [] then map[]
    else IndexSpan(RebuiltIndex(spans[..|spans| - 1], lim), spans[|spans| - 1], |spans| - 1, lim)
  }

  function Evict(st: State, lim: Limits, now: Time): State {
    var kept := Unexpired(st.spans, now, lim.ttl);
    var n := |st.spans| - |kept|;
    if n == 0 then st
    else State(kept, TotalCost(kept, lim), RebuiltIndex(kept, lim),
               st.stats.(ttlEvictions := st.stats.ttlEvictions + n), st.generation + 1)
  }

  // ---------- Admission ----------

  datatype Verdict = Stale | DuplicateExport | Conflict | NoCapacity | NoMemory | Accepted

  /** The index entry and hash settle what becomes of an arriving span. */
  function Judge(st: State, lim: Limits, s: Span, now: Time): Verdict {
    var id := SpanIdentity(s);
    if Expired(s, now, lim.ttl) then Stale
    else if id != "" && id in st.index then
      var e := st.index[id];
      if e.contentHash == HashOf(lim, s) && e.position < |st.spans|
          && st.spans[e.position] == s then DuplicateExport else Conflict
    else if |st.spans| >= lim.max then NoCapacity
    else if lim.maxBytes > 0 && st.bytes + CostOf(lim, s) > lim.maxBytes then NoMemory
    else Accepted
  }

  function Record(stats: Stats, v: Verdict): Stats {
    match v
    case Stale => stats.(rejected := stats.rejected + 1, ttlEvictions := stats.ttlEvictions + 1)
    case DuplicateExport => stats.(duplicateExports := stats.duplicateExports + 1)
    case Conflict => stats.(conflictingDuplicates := stats.conflictingDuplicates + 1, rejected := stats.rejected + 1)
    case NoCapacity => stats.(rejected := stats.rejected + 1)
    case NoMemory => stats.(rejected := stats.rejected + 1)
    case Accepted => stats
  }

  function Admit(st: State, lim: Limits, s: Span, now: Time): State {
    var v := Judge(st, lim, s, now);
    if v != Accepted then st.(stats := Record(st.stats, v))
    else State(st.spans + [s], st.bytes
        + CostOf(lim, s), IndexSpan(st.index, s, |st.spans|, lim), st.stats, st.generation + 1)
  }

  function AdmitAll(st: State, lim: Limits, batch: seq<Span>, now: Time): State {
    if batch == [] then st else Admit(AdmitAll(st, lim, batch[..|batch| - 1], now), lim, batch[|batch| - 1], now)
  }

  function AddBatch(st: State, lim: Limits, batch: seq<Span>, now: Time): State {
    AdmitAll(Evict(st, lim, now), lim, batch, now)
  }

  // ---------- The invariant ----------

  lemma IndexInBounds(st: State, lim: Limits)
    requires Valid(st, lim)
    ensures forall id :: id in st.index ==> st.index[id].position < |st.spans|
  {}

  /** Every identity is indexed at its one position, with the hash of what is there. */
  ghost predicate IndexExact(spans: seq<Span>, index: map<string, Entry>, lim: Limits) {
    && (forall i :: 0 <= i < |spans| && SpanIdentity(spans[i]) != "" ==>
          SpanIdentity(spans[i]) in index && index[SpanIdentity(spans[i])] == Entry(i, HashOf(lim, spans[i])))
    && (forall id :: id in index ==>
          index[id].position < |spans| && id == SpanIdentity(spans[index[id].position]) && id != "")
  }

  ghost predicate Valid(st: State, lim: Limits) {
    && (|st.spans| <= lim.max || st.spans == [])
    && st.bytes == TotalCost(st.spans, lim)
    && (lim.maxBytes > 0 ==> st.bytes <= lim.maxBytes)
    && IndexExact(st.spans, st.index, lim)
  }

  predicate UniqueIdentities(spans: seq<Span>) {
    forall i, j :: 0 <= i < j < |spans| && SpanIdentity(spans[i]) != "" ==>
        SpanIdentity(spans[i]) != SpanIdentity(spans[j])
  }

  lemma ValidIsUnique(st: State, lim: Limits)
    requires Valid(st, lim)
    ensures UniqueIdentities(st.spans)
  {
    forall i, j | 0 <= i < j < |st.spans| && SpanIdentity(st.spans[i]) != ""
      ensures SpanIdentity(st.spans[i]) != SpanIdentity(st.spans[j])
    {
      assert st.index[SpanIdentity(st.spans[i])].position == i;
    }
  }

  /** An index rebuilt over unique identities is exact. */
  lemma {:induction false} RebuiltIsExact(spans: seq<Span>, lim: Limits)
    requires UniqueIdentities(spans)
    ensures IndexExact(spans, RebuiltIndex(spans, lim), lim)
  {
    if spans != [] {
      var front, s := spans[..|spans| - 1], spans[|spans| - 1];
      RebuiltIsExact(front, lim);
      IndexOneMoreExact(front, RebuiltIndex(front, lim), s, lim);
      assert spans == front + [s];
    }
  }

  lemma IndexOneMoreExact(spans: seq<Span>, index: map<string, Entry>, s: Span, lim: Limits)
    requires IndexExact(spans, index, lim)
    requires forall i :: 0 <= i < |spans| && SpanIdentity(spans[i]) != "" ==> SpanIdentity(spans[i]) != SpanIdentity(s)
    ensures IndexExact(spans + [s], IndexSpan(index, s, |spans|, lim), lim)
  {
    hide SpanIdentity;
  }

  lemma {:induction false} UnexpiredUnique(spans: seq<Span>, now: Time, ttl: int)
    requires UniqueIdentities(spans)
    ensures UniqueIdentities(Unexpired(spans, now, ttl))
  {
    hide SpanIdentity, Expired;
    if spans != [] {
      var front, s := spans[..|spans| - 1], spans[|spans| - 1];
      UnexpiredUnique(front, now, ttl);
      var r := Unexpired(front, now, ttl);
      UnexpiredMembers(front, now, ttl);
      forall i | 0 <= i < |r| && SpanIdentity(r[i]) != "" ensures SpanIdentity(r[i]) != SpanIdentity(s) {
        assert r[i] in front;
      }
    }
  }

  lemma {:induction false} UnexpiredCost(spans: seq<Span>, now: Time, ttl: int, lim: Limits)
    ensures TotalCost(Unexpired(spans, now, ttl), lim) <= TotalCost(spans, lim)
  {
    if spans != [] {
      var front, s := spans[..|spans| - 1], spans[|spans| - 1];
      UnexpiredCost(front, now, ttl, lim);
      CostAppend(Unexpired(front, now, ttl), s, lim);
      assert Unexpired(front, now, ttl) + [] == Unexpired(front, now, ttl);
    }
  }

  lemma EvictValid(st: State, lim: Limits, now: Time)
    requires Valid(st, lim)
    ensures Valid(Evict(st, lim, now), lim)
  {
    var kept := Unexpired(st.spans, now, lim.ttl);
    ValidIsUnique(st, lim);
    UnexpiredUnique(st.spans, now, lim.ttl);
    UnexpiredCost(st.spans, now, lim.ttl, lim);
    RebuiltIsExact(kept, lim);
  }

  lemma AdmitValid(st: State, lim: Limits, s: Span, now: Time)
    requires Valid(st, lim)
    ensures Valid(Admit(st, lim, s, now), lim)
  {
    if Judge(st, lim, s, now) == Accepted {
      IndexOneMoreExact(st.spans, st.index, s, lim);
      CostAppend(st.spans, s, lim);
    }
  }

  lemma AdmitCases(st: State, lim: Limits, s: Span, now: Time)
    ensures Admit(st, lim, s, now)
            == if Judge(st, lim, s, now) != Accepted then st.(stats := Record(st.stats, Judge(st, lim, s, now)))
               else State(st.spans + [s], st.bytes + CostOf(lim, s), IndexSpan(st.index, s, |st.spans|, lim), st.stats,
                          st.generation + 1)
  {
    hide Judge, Record, IndexSpan;
  }

  lemma {:induction false} AdmitAllValid(st: State, lim: Limits, batch: seq<Span>, now: Time)
    requires Valid(st, lim)
    ensures Valid(AdmitAll(st, lim, batch, now), lim)
  {
    if batch != [] {
      AdmitAllValid(st, lim, batch[..|batch| - 1], now);
      AdmitValid(AdmitAll(st, lim, batch[..|batch| - 1], now), lim, batch[|batch| - 1], now);
    }
  }

  // ---------- What the verdicts mean ----------

  predicate Holds(spans: seq<Span>, id: string) {
    exists i :: 0 <= i < |spans| && SpanIdentity(spans[i]) == id
  }

  /** The verdict in terms of the retained spans alone: no index, no hash, no byte account. */
  ghost function JudgeByContent(spans: seq<Span>, lim: Limits, s: Span, now: Time): Verdict {
    if Expired(s, now, lim.ttl) then Stale
    else if SpanIdentity(s) != "" && s in spans then DuplicateExport
    else if SpanIdentity(s) != "" && Holds(spans, SpanIdentity(s)) then Conflict
    else if |spans| >= lim.max then NoCapacity
    else if lim.maxBytes > 0 && TotalCost(spans, lim) + CostOf(lim, s) > lim.maxBytes then NoMemory
    else Accepted
  }

  /** In every valid state the verdict is that of the contents, whatever the hash function. */
  lemma JudgeIsByContent(st: State, lim: Limits, s: Span, now: Time)
    requires Valid(st, lim)
    ensures Judge(st, lim, s, now) == JudgeByContent(st.spans, lim, s, now)
  {
    var id := SpanIdentity(s);
    if id != "" {
      if id in st.index {
        var i := st.index[id].position;
        assert SpanIdentity(st.spans[i]) == id;
        if s in st.spans {
          var j :| 0 <= j < |st.spans| && st.spans[j] == s;
          assert st.index[id] == Entry(j, HashOf(lim, s));
        }
      } else {
        assert forall i :: 0 <= i < |st.spans| ==> SpanIdentity(st.spans[i]) != id;
      }
    }
  }

  // ---------- Runs ----------

  /** The calls on a store; the wall clock may go back between them. */
  datatype Step = Add(batch: seq<Span>, now: Time) | TakeSnapshot(now: Time)

  function Apply(st: State, lim: Limits, step: Step): State {
    match step
    case Add(batch, now) => AddBatch(st, lim, batch, now)
    case TakeSnapshot(now) => Evict(st, lim, now)
  }

  function Run(lim: Limits, steps: seq<Step>): State {
    if steps == [] then EMPTY else Apply(Run(lim, steps[..|steps| - 1]), lim, steps[|steps| - 1])
  }

  lemma RunOneMore(lim: Limits, steps: seq<Step>, i: nat)
    requires i < |steps|
    ensures Run(lim, steps[..i + 1]) == Apply(Run(lim, steps[..i]), lim, steps[i])
  {
    hide Apply;
    assert steps[..i + 1][..i] == steps[..i];
  }

  lemma ApplyValid(st: State, lim: Limits, step: Step)
    requires Valid(st, lim)
    ensures Valid(Apply(st, lim, step), lim)
  {
    EvictValid(st, lim, step.now);
    if step.Add? {
      AdmitAllValid(Evict(st, lim, step.now), lim, step.batch, step.now);
    }
  }

  /** Every reachable state is within its limits and exactly indexed, with unique identities. */
  lemma {:induction false} RunValid(lim: Limits, steps: seq<Step>)
    ensures Valid(Run(lim, steps), lim) && UniqueIdentities(Run(lim, steps).spans)
  {
    if steps != [] {
      RunValid(lim, steps[..|steps| - 1]);
      ApplyValid(Run(lim, steps[..|steps| - 1]), lim, steps[|steps| - 1]);
    }
    ValidIsUnique(Run(lim, steps), lim);
  }

  // ---------- Conservation ----------

  /** A tally kept from outside: how many spans met each fate. */
  datatype Ledger = Ledger(arrived: nat, accepted: nat, evicted: nat, stale: nat, duplicates: nat, conflicts: nat,
                           overCapacity: nat, overMemory: nat)

  const NOTHING := Ledger(0, 0, 0, 0, 0, 0, 0, 0)

  function Enter(l: Ledger, v: Verdict): Ledger {
    var l' := l.(arrived := l.arrived + 1);
    match v
    case Stale => l'.(stale := l.stale + 1)
    case DuplicateExport => l'.(duplicates := l.duplicates + 1)
    case Conflict => l'.(conflicts := l.conflicts + 1)
    case NoCapacity => l'.(overCapacity := l.overCapacity + 1)
    case NoMemory => l'.(overMemory := l.overMemory + 1)
    case Accepted => l'.(accepted := l.accepted + 1)
  }

  function EnterAll(l: Ledger, st: State, lim: Limits, batch: seq<Span>, now: Time): Ledger {
    if batch == [] then l
    else
      var front := batch[..|batch| - 1];
      Enter(EnterAll(l, st, lim, front, now), Judge(AdmitAll(st, lim, front, now), lim, batch[|batch| - 1], now))
  }

  function EnterStep(l: Ledger, st: State, lim: Limits, step: Step): Ledger {
    var l' := l.(evicted := l.evicted + |st.spans| - |Unexpired(st.spans, step.now, lim.ttl)|);
    if step.Add? then EnterAll(l', Evict(st, lim, step.now), lim, step.batch, step.now) else l'
  }

  lemma AdmitNone(l: Ledger, st: State, lim: Limits, now: Time)
    ensures AdmitAll(st, lim, [], now) == st && EnterAll(l, st, lim, [], now) == l
  {}

  lemma AdmitOneMore(l: Ledger, st: State, lim: Limits, batch: seq<Span>, i: nat, now: Time)
    requires i < |batch|
    ensures var before := AdmitAll(st, lim, batch[..i], now);
      && AdmitAll(st, lim, batch[..i + 1], now) == Admit(before, lim, batch[i], now)
      && EnterAll(l, st, lim, batch[..i + 1], now)
          == Enter(EnterAll(l, st, lim, batch[..i], now), Judge(before, lim, batch[i], now))
  {
    hide Admit, Judge;
    assert batch[..i + 1][..i] == batch[..i];
  }

  function Tally(lim: Limits, steps: seq<Step>): Ledger {
    if steps == [] then NOTHING
    else EnterStep(Tally(lim, steps[..|steps| - 1]), Run(lim, steps[..|steps| - 1]), lim, steps[|steps| - 1])
  }

  function Arrivals(steps: seq<Step>): nat {
    if steps == [] then 0
    else Arrivals(steps[..|steps| - 1]) + if steps[|steps| - 1].Add? then |steps[|steps| - 1].batch| else 0
  }

  ghost predicate Balanced(l: Ledger, st: State) {
    && l.arrived == l.accepted + l.stale + l.duplicates + l.conflicts + l.overCapacity + l.overMemory
    && |st.spans| + l.evicted == l.accepted
    && st.stats.rejected == l.stale + l.conflicts + l.overCapacity + l.overMemory
    && st.stats.duplicateExports == l.duplicates
    && st.stats.conflictingDuplicates == l.conflicts
    && st.stats.ttlEvictions == l.evicted + l.stale
  }

  /** The fates of a batch add up to its size. */
  lemma {:induction false} FatesSum(l: Ledger, st: State, lim: Limits, batch: seq<Span>, now: Time)
    ensures var m := EnterAll(l, st, lim, batch, now);
      m.accepted + m.stale + m.duplicates + m.conflicts + m.overCapacity + m.overMemory
      == l.accepted + l.stale + l.duplicates + l.conflicts + l.overCapacity + l.overMemory + |batch|
  {
    hide Judge, Admit;
    if batch != [] {
      FatesSum(l, st, lim, batch[..|batch| - 1], now);
    }
  }

  lemma {:induction false} BatchBalanced(l: Ledger, st: State, lim: Limits, batch: seq<Span>, now: Time)
    requires Balanced(l, st)
    ensures Balanced(EnterAll(l, st, lim, batch, now), AdmitAll(st, lim, batch, now))
    ensures EnterAll(l, st, lim, batch, now).arrived == l.arrived + |batch|
  {
    hide Judge, Balanced, Admit, Enter;
    if batch != [] {
      var front := batch[..|batch| - 1];
      BatchBalanced(l, st, lim, front, now);
      AdmitBalanced(EnterAll(l, st, lim, front, now), AdmitAll(st, lim, front, now), lim, batch[|batch| - 1], now);
    }
  }

  lemma AdmitBalanced(l: Ledger, st: State, lim: Limits, s: Span, now: Time)
    requires Balanced(l, st)
    ensures Balanced(Enter(l, Judge(st, lim, s, now)), Admit(st, lim, s, now))
    ensures Enter(l, Judge(st, lim, s, now)).arrived == l.arrived + 1
  {
    hide Judge;
  }

  lemma StepBalanced(l: Ledger, st: State, lim: Limits, step: Step)
    requires Balanced(l, st)
    ensures Balanced(EnterStep(l, st, lim, step), Apply(st, lim, step))
    ensures EnterStep(l, st, lim, step).arrived == l.arrived + if step.Add? then |step.batch| else 0
  {
    hide Judge, AdmitAll, EnterAll, RebuiltIndex, TotalCost;
    var l' := l.(evicted := l.evicted + |st.spans| - |Unexpired(st.spans, step.now, lim.ttl)|);
    assert Balanced(l', Evict(st, lim, step.now));
    if step.Add? {
      BatchBalanced(l', Evict(st, lim, step.now), lim, step.batch, step.now);
    }
  }

  /** Over every run each arrival is retained, evicted, rejected or a duplicate export, and the
      counters say how many: evictions by age count with the stale rejections. */
  lemma Conservation(lim: Limits, steps: seq<Step>)
    ensures var l, st := Tally(lim, steps), Run(lim, steps);
      && Arrivals(steps) == |st.spans| + l.evicted + st.stats.rejected + st.stats.duplicateExports
      && st.stats.ttlEvictions == l.evicted + l.stale
  {
    RunBalanced(lim, steps);
    hide Tally, Run, Arrivals;
  }

  lemma {:induction false} RunBalanced(lim: Limits, steps: seq<Step>)
    ensures Balanced(Tally(lim, steps), Run(lim, steps)) && Tally(lim, steps).arrived == Arrivals(steps)
  {
    hide EnterStep, Apply;
    if steps != [] {
      RunBalanced(lim, steps[..|steps| - 1]);
      StepBalanced(Tally(lim, steps[..|steps| - 1]), Run(lim, steps[..|steps| - 1]), lim, steps[|steps| - 1]);
      assert Tally(lim, steps) == EnterStep(Tally(lim, steps[..|steps| - 1]), Run(lim, steps[..|steps| - 1]), lim,
                                            steps[|steps| - 1]);
    }
  }

  // ---------- Batches ----------

  lemma {:induction false} AdmitConcat(st: State, lim: Limits, a: seq<Span>, b: seq<Span>, now: Time)
    ensures AdmitAll(AdmitAll(st, lim, a, now), lim, b, now) == AdmitAll(st, lim, a + b, now)
  {
    if b == [] {
      assert a + b == a;
    } else {
      AdmitConcat(st, lim, a, b[..|b| - 1], now);
      assert (a + b)[..|a + b| - 1] == a + b[..|b| - 1];
    }
  }

  /** Nothing retained is expired. */
  predicate AllFresh(spans: seq<Span>, now: Time, ttl: int) {
    forall s :: s in spans ==> !Expired(s, now, ttl)
  }

  lemma {:induction false} UnexpiredAll(spans: seq<Span>, now: Time, ttl: int)
    requires AllFresh(spans, now, ttl)
    ensures Unexpired(spans, now, ttl) == spans
  {
    if spans != [] {
      assert spans == spans[..|spans| - 1] + [spans[|spans| - 1]];
      UnexpiredAll(spans[..|spans| - 1], now, ttl);
    }
  }

  lemma {:induction false} AdmittedFresh(st: State, lim: Limits, batch: seq<Span>, now: Time)
    requires AllFresh(st.spans, now, lim.ttl)
    ensures AllFresh(AdmitAll(st, lim, batch, now).spans, now, lim.ttl)
  {
    if batch != [] {
      AdmittedFresh(st, lim, batch[..|batch| - 1], now);
    }
  }

  /** Two batches at one instant are one batch: spans, index, bytes, counters and generation alike. */
  lemma BatchesJoin(st: State, lim: Limits, a: seq<Span>, b: seq<Span>, now: Time)
    ensures AddBatch(AddBatch(st, lim, a, now), lim, b, now) == AddBatch(st, lim, a + b, now)
  {
    var evicted := Evict(st, lim, now);
    var kept := Unexpired(st.spans, now, lim.ttl);
    assert AllFresh(evicted.spans, now, lim.ttl) by {
      UnexpiredMembers(st.spans, now, lim.ttl);
      UnexpiredSame(st.spans, now, lim.ttl);
    }
    AdmittedFresh(evicted, lim, a, now);
    UnexpiredAll(AdmitAll(evicted, lim, a, now).spans, now, lim.ttl);
    AdmitConcat(evicted, lim, a, b, now);
  }

  /** Keeping as many spans as there are keeps them all. */
  lemma {:induction false} UnexpiredSame(spans: seq<Span>, now: Time, ttl: int)
    ensures |Unexpired(spans, now, ttl)| == |spans| ==> Unexpired(spans, now, ttl) == spans
  {
    if spans != [] {
      assert spans == spans[..|spans| - 1] + [spans[|spans| - 1]];
      UnexpiredSame(spans[..|spans| - 1], now, ttl);
    }
  }

  // ---------- Expiry in a step ----------

  /** Admission keeps what is retained in front of what it adds, which is of the batch and recent. */
  lemma {:induction false} AdmitAllRecent(st: State, lim: Limits, batch: seq<Span>, now: Time)
    ensures var r := AdmitAll(st, lim, batch, now).spans;
      && |st.spans| <= |r| && r[..|st.spans|] == st.spans
      && forall k :: |st.spans| <= k < |r| ==> r[k] in batch && (r[k].end == ZERO_TIME || r[k].end >= now - lim.ttl)
  {
    if batch != [] {
      AdmitAllRecent(st, lim, batch[..|batch| - 1], now);
      AdmitRecent(AdmitAll(st, lim, batch[..|batch| - 1], now), lim, batch[|batch| - 1], now);
      hide Admit;
    }
  }

  lemma AdmitRecent(st: State, lim: Limits, s: Span, now: Time)
    ensures Admit(st, lim, s, now).spans == st.spans || Admit(st, lim, s, now).spans == st.spans + [s]
    ensures Admit(st, lim, s, now).spans != st.spans ==> s.end == ZERO_TIME || s.end >= now - lim.ttl
  {}

  lemma EvictedAre(st: State, lim: Limits, now: Time)
    ensures Evict(st, lim, now).spans == Unexpired(st.spans, now, lim.ttl)
    ensures KeepsRecent(st.spans, Evict(st, lim, now).spans, now, lim.ttl)
  {
    UnexpiredSame(st.spans, now, lim.ttl);
    UnexpiredRecent(st.spans, now, lim.ttl);
    hide KeepsRecent, RebuiltIndex, TotalCost;
  }

  lemma ApplyIs(st: State, lim: Limits, step: Step)
    ensures Apply(st, lim, step)
            == if step.Add? then AdmitAll(Evict(st, lim, step.now), lim, step.batch, step.now)
               else Evict(st, lim, step.now)
  {}

  /** A step at `now` drops, of what was retained, exactly what ended longer than `ttl` ago, keeps the order of the
      rest, and retains nothing else that did. */
  lemma StepKeepsRecent(st: State, lim: Limits, step: Step)
    ensures LeavesRecent(st.spans, Apply(st, lim, step).spans, if step.Add? then step.batch else [], step.now, lim.ttl)
  {
    hide *;
    var evicted := Evict(st, lim, step.now);
    EvictedAre(st, lim, step.now);
    KeptAreRecent(st.spans, evicted.spans, step.now, lim.ttl);
    ApplyIs(st, lim, step);
    if step.Add? {
      AdmitAllRecent(evicted, lim, step.batch, step.now);
    }
    LeftWith(st.spans, evicted.spans, Apply(st, lim, step).spans, if step.Add? then step.batch else [], step.now,
             lim.ttl);
  }

  lemma LeftWith(before: seq<Span>, kept: seq<Span>, after: seq<Span>, batch: seq<Span>, now: Time, ttl: int)
    requires KeepsRecent(before, kept, now, ttl) && |kept| <= |after| && after[..|kept|] == kept
    requires forall k :: 0 <= k < |kept| ==> kept[k].end == ZERO_TIME || kept[k].end >= now - ttl
    requires forall k :: |kept| <= k < |after| ==>
               after[k] in batch && (after[k].end == ZERO_TIME || after[k].end >= now - ttl)
    ensures LeavesRecent(before, after, batch, now, ttl)
  {
    hide KeepsRecent;
    assert forall k :: 0 <= k < |kept| ==> after[k] == kept[k];
  }

  /** An identity is taken exactly when some retained span has both ids. */
  lemma TakenBy(spans: seq<Span>, s: Span)
    ensures SpanIdentity(s) != "" && Holds(spans, SpanIdentity(s))
            <==> && s.traceId != "" && s.spanId != ""
                 && exists t :: t in spans && t.traceId != "" && t.spanId != ""
                             && t.traceId + "/" + t.spanId == s.traceId + "/" + s.spanId
  {
    if Holds(spans, SpanIdentity(s)) {
      var i :| 0 <= i < |spans| && SpanIdentity(spans[i]) == SpanIdentity(s);
      assert spans[i] in spans;
    }
    if t :| t in spans && t.traceId != "" && t.spanId != ""
            && t.traceId + "/" + t.spanId == s.traceId + "/" + s.spanId {
      var i :| 0 <= i < |spans| && spans[i] == t;
      assert SpanIdentity(spans[i]) == SpanIdentity(t);
    }
  }

  /** A span that is retained already holds its own identity. */
  lemma HoldsOwn(spans: seq<Span>, s: Span)
    requires s in spans
    ensures Holds(spans, SpanIdentity(s))
  {
    var i :| 0 <= i < |spans| && spans[i] == s;
    assert SpanIdentity(spans[i]) == SpanIdentity(s);
  }

  /** The verdict on an arriving span: stale if it ended longer than `ttl` ago; else, if some retained span has both its
      ids, a duplicate export of that very span or a conflict; else refused for want of room, in number or in bytes, or
      accepted. */
  lemma JudgedExactly(st: State, lim: Limits, s: Span, now: Time)
    requires Valid(st, lim)
    ensures var v := Judge(st, lim, s, now);
      var recent := s.end == ZERO_TIME || s.end >= now - lim.ttl;
      var taken := && s.traceId != "" && s.spanId != ""
                   && exists t :: t in st.spans && t.traceId != "" && t.spanId != ""
                               && t.traceId + "/" + t.spanId == s.traceId + "/" + s.spanId;
      var fits := lim.maxBytes <= 0 || TotalCost(st.spans, lim) + lim.cost(s) <= lim.maxBytes;
      && (v == Stale <==> !recent)
      && (v == DuplicateExport <==> recent && taken && s in st.spans)
      && (v == Conflict <==> recent && taken && s !in st.spans)
      && (v == NoCapacity <==> recent && !taken && |st.spans| >= lim.max)
      && (v == NoMemory <==> recent && !taken && |st.spans| < lim.max && !fits)
      && (v == Accepted <==> recent && !taken && |st.spans| < lim.max && fits)
  {
    JudgeIsByContent(st, lim, s, now);
    TakenBy(st.spans, s);
    hide Judge, Valid, TotalCost, Holds, SpanIdentity;
    if s in st.spans {
      HoldsOwn(st.spans, s);
    }
  }

  /** So a span is retained exactly when it is recent, no retained span has both its ids and there is room; nothing else
      changes what is retained. */
  lemma AdmittedExactly(st: State, lim: Limits, s: Span, now: Time)
    requires Valid(st, lim)
    ensures Admit(st, lim, s, now).spans
            == if && (s.end == ZERO_TIME || s.end >= now - lim.ttl)
                  && !(&& s.traceId != "" && s.spanId != ""
                       && exists t :: t in st.spans && t.traceId != "" && t.spanId != ""
                                   && t.traceId + "/" + t.spanId == s.traceId + "/" + s.spanId)
                  && |st.spans| < lim.max
                  && (lim.maxBytes <= 0 || TotalCost(st.spans, lim) + lim.cost(s) <= lim.maxBytes)
               then st.spans + [s] else st.spans
  {
    hide *;
    JudgedExactly(st, lim, s, now);
    AdmitCases(st, lim, s, now);
  }

  // ---------- Losses ----------

  /** Evidence that a rejection, conflict or eviction has happened. */
  predicate Lossy(stats: Stats) {
    stats.rejected > 0 || stats.conflictingDuplicates > 0 || stats.ttlEvictions > 0
  }

  /** The counters show a loss exactly when the tally has one. */
  lemma LossOnRecord(lim: Limits, steps: seq<Step>)
    ensures var l := Tally(lim, steps);
      Lossy(Run(lim, steps).stats) <==> l.evicted + l.stale + l.conflicts + l.overCapacity + l.overMemory > 0
  {
    RunBalanced(lim, steps);
    hide Tally, Run;
  }

  /** No count of the one tally is above that of the other. */
  predicate NoFewer(l: Ledger, m: Ledger) {
    && l.arrived <= m.arrived && l.accepted <= m.accepted && l.evicted <= m.evicted && l.stale <= m.stale
    && l.duplicates <= m.duplicates && l.conflicts <= m.conflicts && l.overCapacity <= m.overCapacity
    && l.overMemory <= m.overMemory
  }

  lemma {:induction false} EnterAllGrows(l: Ledger, st: State, lim: Limits, batch: seq<Span>, now: Time)
    ensures NoFewer(l, EnterAll(l, st, lim, batch, now))
  {
    hide AdmitAll, Judge;
    if batch != [] {
      EnterAllGrows(l, st, lim, batch[..|batch| - 1], now);
    }
  }

  lemma EnterStepGrows(l: Ledger, st: State, lim: Limits, step: Step)
    ensures NoFewer(l, EnterStep(l, st, lim, step))
  {
    hide EnterAll, Unexpired, Evict;
    var l' := l.(evicted := l.evicted + |st.spans| - |Unexpired(st.spans, step.now, lim.ttl)|);
    if step.Add? {
      EnterAllGrows(l', Evict(st, lim, step.now), lim, step.batch, step.now);
    }
  }

  lemma TallyOneMore(lim: Limits, steps: seq<Step>, i: nat)
    requires i < |steps|
    ensures Tally(lim, steps[..i + 1]) == EnterStep(Tally(lim, steps[..i]), Run(lim, steps[..i]), lim, steps[i])
  {
    hide EnterStep, Run;
    assert steps[..i + 1][..i] == steps[..i];
  }

  lemma NoFewerChain(l: Ledger, m: Ledger, n: Ledger)
    requires NoFewer(l, m) && NoFewer(m, n)
    ensures NoFewer(l, n)
  {}

  lemma NoFewerSelf(l: Ledger)
    ensures NoFewer(l, l)
  {}

  lemma {:induction false} TallyGrows(lim: Limits, steps: seq<Step>, i: nat, j: nat)
    requires i <= j <= |steps|
    ensures NoFewer(Tally(lim, steps[..i]), Tally(lim, steps[..j]))
    decreases j - i
  {
    hide *;
    if i == j {
      NoFewerSelf(Tally(lim, steps[..i]));
    } else {
      TallyGrows(lim, steps, i, j - 1);
      TallyOneMore(lim, steps, j - 1);
      EnterStepGrows(Tally(lim, steps[..j - 1]), Run(lim, steps[..j - 1]), lim, steps[j - 1]);
      NoFewerChain(Tally(lim, steps[..i]), Tally(lim, steps[..j - 1]), Tally(lim, steps[..j]));
    }
  }

  /** What was lost stays lost: no count of the tally ever falls. */
  lemma LossStays(lim: Limits, steps: seq<Step>, i: nat, j: nat)
    requires i <= j <= |steps|
    ensures var l, m := Tally(lim, steps[..i]), Tally(lim, steps[..j]);
      && l.evicted <= m.evicted && l.stale <= m.stale && l.conflicts <= m.conflicts
      && l.overCapacity <= m.overCapacity && l.overMemory <= m.overMemory
  {
    hide Tally;
    TallyGrows(lim, steps, i, j);
  }
}
