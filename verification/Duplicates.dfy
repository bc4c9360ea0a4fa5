/** Duplicate processing: the attempts on one message, grouped by key, clustered in time. */
module Duplicates {
  import opened Text
  import opened Spans
  import opened Counting
  import opened Tables
  import opened AttemptWindows
  import opened Findings
  import opened Checks

  // ---------- Which attempts count ----------

  predicate Attempted(r: Rule, s: Span) {
    s.Operation() == "process" && s.Identity() != "" && Applies(r, s)
  }

  function SpanKey(s: Span): string { s.traceId + ['\0'] + s.spanId }

  /** An attempt under these ids has come before: a repeated export, not a repeated processing. */
  predicate Repeated(r: Rule, before: seq<Span>, s: Span) {
    && s.traceId != "" && s.spanId != ""
    && exists h :: 0 <= h < |before| && Attempted(r, before[h]) && SpanKey(before[h]) == SpanKey(s)
  }

  function KindName(kind: IdentityKind): string {
    match kind
    case NoIdentity => ""
    case MessageId => "message_id"
    case KafkaPartitionOffset => "kafka_partition_offset"
  }

  function GroupFields(s: Span): seq<string> {
    [s.service, s.system, s.destination, s.consumerGroup, s.subscription, KindName(s.MessageIdentity().0), s.Identity()]
  }

  function GroupKey(s: Span): string { Join(GroupFields(s), '\0') }

  /** Without NUL two attempts share a key exactly when the service, the system, the destination, the group, the
      subscription and the broker's identity of the message are the same. */
  lemma GroupKeyExact(a: Span, b: Span)
    requires Free(GroupFields(a), '\0') && Free(GroupFields(b), '\0')
    ensures GroupKey(a) == GroupKey(b)
            <==> && a.service == b.service && a.system == b.system && a.destination == b.destination
                 && a.consumerGroup == b.consumerGroup && a.subscription == b.subscription
                 && a.MessageIdentity() == b.MessageIdentity()
  {
    hide Span.MessageIdentity;
    if GroupKey(a) == GroupKey(b) {
      JoinInjective(GroupFields(a), GroupFields(b), '\0');
      var f, g := GroupFields(a), GroupFields(b);
      assert f[0] == g[0] && f[1] == g[1] && f[2] == g[2] && f[3] == g[3];
      assert f[4] == g[4] && f[5] == g[5] && f[6] == g[6];
    }
  }

  predicate Counts(r: Rule, before: seq<Span>, s: Span) { Attempted(r, s) && !Repeated(r, before, s) }

  /** The attempts under one key, in the order of the spans. */
  function Attempts(r: Rule, spans: seq<Span>, k: string): seq<Span> {
    if spans == [] then []
    else
      var front, s := spans[..|spans| - 1], spans[|spans| - 1];
      Attempts(r, front, k) + if Counts(r, front, s) && GroupKey(s) == k then [s] else []
  }

  /** The keys, in the order in which they first occur. */
  function Keys(r: Rule, spans: seq<Span>): seq<string> {
    if spans == [] then []
    else
      var front, s := spans[..|spans| - 1], spans[|spans| - 1];
      Keys(r, front) + if Counts(r, front, s) && GroupKey(s) !in Keys(r, front) then [GroupKey(s)] else []
  }

  // ---------- The findings ----------

  function Successes(attempts: seq<Span>): (r: seq<Span>)
    ensures |r| == CountIf(attempts, Successful())
  {
    if attempts == [] then []
    else
      var s := attempts[|attempts| - 1];
      Successes(attempts[..|attempts| - 1]) + if s.Failed() then [] else [s]
  }

  function ClusterFinding(cfg: Settings, r: Rule, attempts: seq<Span>): Option<Finding> {
    if |Successes(attempts)| > cfg.duplicateThreshold then
      Some(NewFinding(r, BLANK, Some(Successes(attempts)[0]), Correlated(MessagingAttributes), High))
    else None
  }

  function ClusterFindings(cfg: Settings, r: Rule, clusters: seq<seq<Span>>): seq<Finding> {
    if clusters == [] then []
    else ClusterFindings(cfg, r, clusters[..|clusters| - 1]) + Listed(ClusterFinding(cfg, r, clusters[|clusters| - 1]))
  }

  function KeyFindings(cfg: Settings, r: Rule, spans: seq<Span>, order: seq<Span> -> seq<Span>, k: string): seq<Finding>
  {
    ClusterFindings(cfg, r, Groups(order(Attempts(r, spans, k)), cfg.window))
  }

  function FindingsOf(cfg: Settings, r: Rule, spans: seq<Span>, order: seq<Span> -> seq<Span>, keys: seq<string>)
    : seq<Finding>
  {
    if keys == [] then []
    else FindingsOf(cfg, r, spans, order, keys[..|keys| - 1]) + KeyFindings(cfg, r, spans, order, keys[|keys| - 1])
  }

  function DuplicateFindings(cfg: Settings, r: Rule, spans: seq<Span>, order: seq<Span> -> seq<Span>): seq<Finding> {
    FindingsOf(cfg, r, spans, order, Keys(r, spans))
  }

  // ---------- The order of the keys does not matter ----------

  lemma FindingsOneMore(cfg: Settings, r: Rule, spans: seq<Span>, order: seq<Span> -> seq<Span>, keys: seq<string>,
                        k: string)
    ensures FindingsOf(cfg, r, spans, order, keys + [k])
              == FindingsOf(cfg, r, spans, order, keys) + KeyFindings(cfg, r, spans, order, k)
  {
    assert (keys + [k])[..|keys + [k]| - 1] == keys;
  }

  ghost function Bag(cfg: Settings, r: Rule, spans: seq<Span>, order: seq<Span> -> seq<Span>, keys: seq<string>)
    : multiset<Finding>
  {
    multiset(FindingsOf(cfg, r, spans, order, keys))
  }

  lemma BagOneMore(cfg: Settings, r: Rule, spans: seq<Span>, order: seq<Span> -> seq<Span>, keys: seq<string>,
                   k: string)
    ensures Bag(cfg, r, spans, order, keys + [k])
              == Bag(cfg, r, spans, order, keys) + multiset(KeyFindings(cfg, r, spans, order, k))
  {
    hide FindingsOf, KeyFindings;
    FindingsOneMore(cfg, r, spans, order, keys, k);
  }

  lemma {:induction false} BagConcat(cfg: Settings, r: Rule, spans: seq<Span>, order: seq<Span> -> seq<Span>,
                                     a: seq<string>, b: seq<string>)
    ensures Bag(cfg, r, spans, order, a + b) == Bag(cfg, r, spans, order, a) + Bag(cfg, r, spans, order, b)
  {
    if b == [] {
      assert a + b == a;
    } else {
      hide Bag, KeyFindings;
      var front, k := b[..|b| - 1], b[|b| - 1];
      assert b == front + [k];
      BagConcat(cfg, r, spans, order, a, front);
      BagOneMore(cfg, r, spans, order, front, k);
      assert a + b == (a + front) + [k];
      BagOneMore(cfg, r, spans, order, a + front, k);
    }
  }

  lemma BagSplit(cfg: Settings, r: Rule, spans: seq<Span>, order: seq<Span> -> seq<Span>, keys: seq<string>, i: nat)
    requires i < |keys|
    ensures Bag(cfg, r, spans, order, keys)
            == Bag(cfg, r, spans, order, keys[..i] + keys[i + 1..])
                + multiset(KeyFindings(cfg, r, spans, order, keys[i]))
  {
    hide Bag, KeyFindings;
    assert keys == keys[..i] + [keys[i]] + keys[i + 1..];
    BagOneMore(cfg, r, spans, order, keys[..i], keys[i]);
    BagConcat(cfg, r, spans, order, keys[..i] + [keys[i]], keys[i + 1..]);
    BagConcat(cfg, r, spans, order, keys[..i], keys[i + 1..]);
  }

  lemma {:induction false} BagPermuted(cfg: Settings, r: Rule, spans: seq<Span>, order: seq<Span> -> seq<Span>,
                                       a: seq<string>, b: seq<string>)
    requires multiset(a) == multiset(b)
    ensures Bag(cfg, r, spans, order, a) == Bag(cfg, r, spans, order, b)
  {
    hide Bag, KeyFindings;
    SameLength(a, b);
    if a != [] {
      var last := |a| - 1;
      assert a[last] in multiset(b);
      var i :| 0 <= i < |b| && b[i] == a[last];
      WithoutOne(a, last);
      WithoutOne(b, i);
      BagPermuted(cfg, r, spans, order, a[..last] + a[last + 1..], b[..i] + b[i + 1..]);
      BagSplit(cfg, r, spans, order, a, last);
      BagSplit(cfg, r, spans, order, b, i);
    } else {
      assert b == [];
    }
  }

  ghost predicate Distinct(keys: seq<string>) {
    forall i, j :: 0 <= i < j < |keys| ==> keys[i] != keys[j]
  }

  lemma DistinctOneMore(keys: seq<string>, k: string)
    requires Distinct(keys) && k !in keys
    ensures Distinct(keys + [k])
  {}

  lemma {:induction false} KeysDistinct(r: Rule, spans: seq<Span>)
    ensures Distinct(Keys(r, spans))
  {
    if spans != [] {
      hide Counts, GroupKey;
      KeysDistinct(r, spans[..|spans| - 1]);
    }
  }

  lemma {:induction false} DistinctOnce(keys: seq<string>, k: string)
    requires Distinct(keys)
    ensures multiset(keys)[k] == if k in keys then 1 else 0
  {
    if keys != [] {
      var front, last := keys[..|keys| - 1], keys[|keys| - 1];
      DistinctOnce(front, k);
      assert keys == front + [last];
    }
  }

  lemma SameKeys(a: seq<string>, b: seq<string>)
    requires Distinct(a) && Distinct(b) && forall k :: k in a <==> k in b
    ensures multiset(a) == multiset(b)
  {
    forall k ensures multiset(a)[k] == multiset(b)[k] {
      DistinctOnce(a, k);
      DistinctOnce(b, k);
    }
  }

  // ---------- The unstable sort does not change how many findings there are ----------

  lemma {:induction false} FindingPerDuplicate(cfg: Settings, r: Rule, clusters: seq<seq<Span>>)
    ensures |ClusterFindings(cfg, r, clusters)| == AttemptWindows.Duplicates(clusters, cfg.duplicateThreshold)
  {
    if clusters != [] {
      hide NewFinding;
      FindingPerDuplicate(cfg, r, clusters[..|clusters| - 1]);
    }
  }

  lemma {:induction false} SameNumber(cfg: Settings, r: Rule, spans: seq<Span>, a: seq<Span> -> seq<Span>,
                                      b: seq<Span> -> seq<Span>, keys: seq<string>)
    requires SortsByStart(a) && SortsByStart(b) && cfg.window >= 0
    ensures |FindingsOf(cfg, r, spans, a, keys)| == |FindingsOf(cfg, r, spans, b, keys)|
  {
    if keys != [] {
      SameNumber(cfg, r, spans, a, b, keys[..|keys| - 1]);
      var attempts := Attempts(r, spans, keys[|keys| - 1]);
      DuplicatesIndependent(a(attempts), b(attempts), cfg.window, cfg.duplicateThreshold);
      hide SortsByStart, Groups, Attempts, ClusterFindings, AttemptWindows.Duplicates;
      FindingPerDuplicate(cfg, r, Groups(a(attempts), cfg.window));
      FindingPerDuplicate(cfg, r, Groups(b(attempts), cfg.window));
    }
  }

  /** However the sort orders equal starts, there are equally many duplicate findings. */
  lemma DuplicateCountIndependent(cfg: Settings, r: Rule, spans: seq<Span>, a: seq<Span> -> seq<Span>,
                                  b: seq<Span> -> seq<Span>)
    requires SortsByStart(a) && SortsByStart(b) && cfg.window >= 0
    ensures |DuplicateFindings(cfg, r, spans, a)| == |DuplicateFindings(cfg, r, spans, b)|
  {
    SameNumber(cfg, r, spans, a, b, Keys(r, spans));
  }

  // ---------- A repeated export is not a repeated processing ----------

  lemma {:induction false} SameAttempts(cfg: Settings, r: Rule, spans: seq<Span>, more: seq<Span>,
                                        order: seq<Span> -> seq<Span>, keys: seq<string>)
    requires forall k :: Attempts(r, spans, k) == Attempts(r, more, k)
    ensures FindingsOf(cfg, r, spans, order, keys) == FindingsOf(cfg, r, more, order, keys)
  {
    if keys != [] {
      hide Attempts, ClusterFindings;
      SameAttempts(cfg, r, spans, more, order, keys[..|keys| - 1]);
    }
  }

  /** Exporting an attempt again, under the same ids, raises nothing new, whatever else it now says. */
  lemma RepeatedExportIgnored(cfg: Settings, r: Rule, spans: seq<Span>, s: Span, order: seq<Span> -> seq<Span>)
    requires Repeated(r, spans, s)
    ensures DuplicateFindings(cfg, r, spans + [s], order) == DuplicateFindings(cfg, r, spans, order)
  {
    assert (spans + [s])[..|spans + [s]| - 1] == spans;
    forall k ensures Attempts(r, spans, k) == Attempts(r, spans + [s], k) {}
    assert Keys(r, spans + [s]) == Keys(r, spans);
    SameAttempts(cfg, r, spans, spans + [s], order, Keys(r, spans));
  }

  // ---------- Soundness ----------

  lemma {:induction false} ClusterFindingsSound(cfg: Settings, r: Rule, clusters: seq<seq<Span>>)
    ensures Guarded(ClusterFindings(cfg, r, clusters)) && Presentable(ClusterFindings(cfg, r, clusters))
  {
    if clusters == [] {
      NothingSound();
    } else {
      hide ClusterFinding, Guarded, Presentable;
      var front, last := clusters[..|clusters| - 1], clusters[|clusters| - 1];
      ClusterFindingsSound(cfg, r, front);
      ClusterSound(cfg, r, last);
      SoundConcat(ClusterFindings(cfg, r, front), Listed(ClusterFinding(cfg, r, last)));
    }
  }

  lemma ClusterSound(cfg: Settings, r: Rule, attempts: seq<Span>)
    ensures Guarded(Listed(ClusterFinding(cfg, r, attempts))) && Presentable(Listed(ClusterFinding(cfg, r, attempts)))
  {
    hide NewFinding, Successes;
  }

  lemma {:induction false} FindingsSound(cfg: Settings, r: Rule, spans: seq<Span>, order: seq<Span> -> seq<Span>,
                                         keys: seq<string>)
    ensures Guarded(FindingsOf(cfg, r, spans, order, keys)) && Presentable(FindingsOf(cfg, r, spans, order, keys))
  {
    if keys == [] {
      NothingSound();
    } else {
      FindingsSound(cfg, r, spans, order, keys[..|keys| - 1]);
      ClusterFindingsSound(cfg, r, Groups(order(Attempts(r, spans, keys[|keys| - 1])), cfg.window));
      hide Guarded, Presentable, ClusterFindings;
      SoundConcat(FindingsOf(cfg, r, spans, order, keys[..|keys| - 1]),
                  KeyFindings(cfg, r, spans, order, keys[|keys| - 1]));
    }
  }

  // ---------- The loops ----------

  /** The map holds the attempts of every key. */
  ghost predicate GroupsHeld(r: Rule, spans: seq<Span>, groups: map<string, seq<Span>>) {
    forall k :: GroupHeld(r, spans, groups, k)
  }

  ghost predicate GroupHeld(r: Rule, spans: seq<Span>, groups: map<string, seq<Span>>, k: string) {
    && (k in groups <==> k in Keys(r, spans))
    && Attempts(r, spans, k) == if k in groups then groups[k] else []
  }

  /** The set holds the ids of all attempts. */
  ghost predicate SeenHeld(r: Rule, spans: seq<Span>, seenSpans: set<string>) {
    forall id :: id in seenSpans <==> exists h :: 0 <= h < |spans| && Attempted(r, spans[h]) && SpanKey(spans[h]) == id
  }

  lemma NothingGrouped(r: Rule)
    ensures GroupsHeld(r, [], map[]) && SeenHeld(r, [], {})
  {}

  lemma GroupsMean(r: Rule, spans: seq<Span>, groups: map<string, seq<Span>>)
    requires GroupsHeld(r, spans, groups)
    ensures forall k :: k in groups <==> k in Keys(r, spans)
    ensures forall k :: k in groups ==> groups[k] == Attempts(r, spans, k)
  {
    hide Keys, Attempts;
    forall k ensures k in groups <==> k in Keys(r, spans)
             ensures k in groups ==> groups[k] == Attempts(r, spans, k)
    {
      assert GroupHeld(r, spans, groups, k);
    }
  }

  /** The groups after one more span. */
  function Grouped(r: Rule, spans: seq<Span>, s: Span, groups: map<string, seq<Span>>): map<string, seq<Span>> {
    var k := GroupKey(s);
    if Counts(r, spans, s) then groups[k := (if k in groups then groups[k] else []) + [s]] else groups
  }

  lemma GroupOneMore(r: Rule, spans: seq<Span>, s: Span, groups: map<string, seq<Span>>, k: string)
    requires GroupHeld(r, spans, groups, k) && GroupHeld(r, spans, groups, GroupKey(s))
    ensures GroupHeld(r, spans + [s], Grouped(r, spans, s, groups), k)
  {
    hide Keys, Attempts, GroupKey, Counts;
    GroupKeysOneMore(r, spans, s);
    AttemptsOneMore(r, spans, s, k);
  }

  lemma GroupsOneMore(r: Rule, spans: seq<Span>, s: Span, groups: map<string, seq<Span>>)
    requires GroupsHeld(r, spans, groups)
    ensures GroupsHeld(r, spans + [s], Grouped(r, spans, s, groups))
  {
    hide GroupHeld, Grouped, GroupKey;
    forall k ensures GroupHeld(r, spans + [s], Grouped(r, spans, s, groups), k) {
      GroupOneMore(r, spans, s, groups, k);
    }
  }

  lemma GroupKeysOneMore(r: Rule, spans: seq<Span>, s: Span)
    ensures Keys(r, spans + [s])
         == Keys(r, spans) + if Counts(r, spans, s) && GroupKey(s) !in Keys(r, spans) then [GroupKey(s)] else []
  {
    hide GroupKey, Counts;
    assert (spans + [s])[..|spans + [s]| - 1] == spans;
  }

  lemma AttemptsOneMore(r: Rule, spans: seq<Span>, s: Span, k: string)
    ensures Attempts(r, spans + [s], k)
         == Attempts(r, spans, k) + if Counts(r, spans, s) && GroupKey(s) == k then [s] else []
  {
    hide GroupKey, Counts;
    assert (spans + [s])[..|spans + [s]| - 1] == spans;
  }

  lemma SeenOneMore(r: Rule, spans: seq<Span>, s: Span, seenSpans: set<string>)
    requires SeenHeld(r, spans, seenSpans)
    ensures SeenHeld(r, spans + [s], if Attempted(r, s) then seenSpans + {SpanKey(s)} else seenSpans)
  {
    hide Attempted, SpanKey;
    var more := spans + [s];
    assert forall h :: 0 <= h < |spans| ==> more[h] == spans[h];
    forall id ensures (exists h :: 0 <= h < |more| && Attempted(r, more[h]) && SpanKey(more[h]) == id)
                      <==> id in seenSpans || (Attempted(r, s) && SpanKey(s) == id)
    {
      if id in seenSpans {
        var h :| 0 <= h < |spans| && Attempted(r, spans[h]) && SpanKey(spans[h]) == id;
        assert Attempted(r, more[h]) && SpanKey(more[h]) == id;
      }
      assert more[|spans|] == s;
    }
  }

  lemma SeenMeans(r: Rule, spans: seq<Span>, seenSpans: set<string>, s: Span)
    requires SeenHeld(r, spans, seenSpans)
    ensures Repeated(r, spans, s) <==> s.traceId != "" && s.spanId != "" && SpanKey(s) in seenSpans
  {
    hide Attempted, SpanKey;
  }

  lemma AddPresent<T>(s: set<T>, x: T)
    requires x in s
    ensures s + {x} == s
  {}

  method GroupAttempts(r: Rule, spans: seq<Span>) returns (groups: map<string, seq<Span>>)
    ensures GroupsHeld(r, spans, groups)
  {
    hide GroupsHeld, SeenHeld, Attempted, GroupKey, SpanKey, Repeated;
    groups := map[];
    var seenSpans: set<string> := {};
    NothingGrouped(r);
    assert spans[..0] == [];
    for i := 0 to |spans|
      invariant GroupsHeld(r, spans[..i], groups) && SeenHeld(r, spans[..i], seenSpans)
    {
      var s := spans[i];
      GroupsOneMore(r, spans[..i], s, groups);
      SeenOneMore(r, spans[..i], s, seenSpans);
      assert spans[..i + 1] == spans[..i] + [s];
      if Attempted(r, s) {
        var spanKey := SpanKey(s);
        SeenMeans(r, spans[..i], seenSpans, s);
        if s.traceId != "" && s.spanId != "" && spanKey in seenSpans {
          AddPresent(seenSpans, spanKey);
        } else {
          seenSpans := seenSpans + {spanKey};
          var k := GroupKey(s);
          groups := groups[k := (if k in groups then groups[k] else []) + [s]];
        }
      }
    }
    assert spans[..|spans|] == spans;
  }

  method ClusterCheck(cfg: Settings, r: Rule, attempts: seq<Span>) returns (f: Option<Finding>)
    ensures f == ClusterFinding(cfg, r, attempts)
  {
    hide NewFinding;
    var successes: seq<Span> := [];
    for i := 0 to |attempts|
      invariant successes == Successes(attempts[..i])
    {
      assert attempts[..i + 1][..i] == attempts[..i];
      if !attempts[i].Failed() {
        successes := successes + [attempts[i]];
      }
    }
    assert attempts[..|attempts|] == attempts;
    if |successes| > cfg.duplicateThreshold {
      return Some(NewFinding(r, BLANK, Some(successes[0]), Correlated(MessagingAttributes), High));
    }
    f := None;
  }

  lemma NoClusters(cfg: Settings, r: Rule, clusters: seq<seq<Span>>)
    ensures ClusterFindings(cfg, r, clusters[..0]) == []
  {}

  lemma ClusterFindingsOneMore(cfg: Settings, r: Rule, clusters: seq<seq<Span>>, i: nat)
    requires i < |clusters|
    ensures ClusterFindings(cfg, r, clusters[..i + 1])
         == ClusterFindings(cfg, r, clusters[..i]) + Listed(ClusterFinding(cfg, r, clusters[i]))
  {
    hide ClusterFinding;
    assert clusters[..i + 1][..i] == clusters[..i];
  }

  method KeyChecks(cfg: Settings, r: Rule, attempts: seq<Span>, order: seq<Span> -> seq<Span>)
    returns (out: seq<Finding>)
    requires SortsByStart(order)
    ensures out == ClusterFindings(cfg, r, Groups(order(attempts), cfg.window))
  {
    hide *;
    var clusters := SplitAttemptWindows(attempts, cfg.window, order);
    out := [];
    NoClusters(cfg, r, clusters);
    for i := 0 to |clusters|
      invariant out == ClusterFindings(cfg, r, clusters[..i])
    {
      ClusterFindingsOneMore(cfg, r, clusters, i);
      var f := ClusterCheck(cfg, r, clusters[i]);
      out := out + Listed(f);
    }
    assert clusters[..|clusters|] == clusters;
  }

  /** The groups in whatever order the map yields them. */
  method DuplicateChecks(cfg: Settings, r: Rule, spans: seq<Span>, order: seq<Span> -> seq<Span>)
    returns (out: seq<Finding>)
    requires SortsByStart(order)
    ensures multiset(out) == multiset(DuplicateFindings(cfg, r, spans, order))
  {
    hide *;
    var groups := GroupAttempts(r, spans);
    GroupsMean(r, spans, groups);
    NoneDone(cfg, r, spans, order);
    out := [];
    ghost var done: seq<string> := [];
    var todo := groups.Keys;
    while todo != {}
      invariant todo <= groups.Keys
      invariant forall k :: k in done <==> k in groups.Keys - todo
      invariant Distinct(done)
      invariant out == FindingsOf(cfg, r, spans, order, done)
      decreases todo
    {
      var k :| k in todo;
      assert k !in done;
      DistinctOneMore(done, k);
      FindingsOneMore(cfg, r, spans, order, done, k);
      KeyFindingsAre(cfg, r, spans, order, k);
      var found := KeyChecks(cfg, r, groups[k], order);
      out, done, todo := out + found, done + [k], todo - {k};
    }
    AllDone(cfg, r, spans, order, done);
  }

  lemma NoneDone(cfg: Settings, r: Rule, spans: seq<Span>, order: seq<Span> -> seq<Span>)
    ensures Distinct([]) && FindingsOf(cfg, r, spans, order, []) == []
  {}

  lemma KeyFindingsAre(cfg: Settings, r: Rule, spans: seq<Span>, order: seq<Span> -> seq<Span>, k: string)
    ensures KeyFindings(cfg, r, spans, order, k)
         == ClusterFindings(cfg, r, Groups(order(Attempts(r, spans, k)), cfg.window))
  {}

  lemma AllDone(cfg: Settings, r: Rule, spans: seq<Span>, order: seq<Span> -> seq<Span>, done: seq<string>)
    requires Distinct(done) && forall k :: k in done <==> k in Keys(r, spans)
    ensures multiset(FindingsOf(cfg, r, spans, order, done)) == multiset(DuplicateFindings(cfg, r, spans, order))
  {
    hide Distinct, Keys, FindingsOf;
    KeysDistinct(r, spans);
    SameKeys(done, Keys(r, spans));
    BagPermuted(cfg, r, spans, order, done, Keys(r, spans));
  }
}
