/** What duplicate findings say, in the fields of the spans. */
module DuplicateLaws {
  import opened Text
  import opened Spans
  import opened Counting
  import opened Tables
  import opened AttemptWindows
  import opened Findings
  import opened Checks
  import opened Duplicates

  /** A processing of the message under key `k`, with or without success. */
  predicate Processed(r: Rule, k: string, s: Span) {
    ToLower(s.operationType) == "process" && s.Identity() != "" && Applies(r, s) && GroupKey(s) == k
  }

  /** A processing that neither has the status of an error nor names one. */
  function Succeeded(r: Rule, k: string): Span -> bool {
    (s: Span) => Processed(r, k, s) && !EqualFold(s.statusCode, "ERROR") && s.errorType == ""
  }

  /** The finding names one processing, by its ids if it has any. */
  predicate NamesProcessing(f: Finding, r: Rule, s: Span) {
    && f.ruleId == r.id && f.severity == r.severity && f.message == r.message
    && f.spanIds == (if s.spanId == "" then [] else [s.spanId])
    && f.traceIds == (if s.traceId == "" then [] else [s.traceId])
    && f.producerService == "" && f.consumerService == s.service
    && f.system == s.system && f.destination == s.destination
    && f.consumerGroup == s.consumerGroup && f.subscription == s.subscription
  }

  lemma ProcessingNamed(r: Rule, s: Span)
    ensures NamesProcessing(NewFinding(r, BLANK, Some(s), Correlated(MessagingAttributes), High), r, s)
  {
    NewFindingNames(r, BLANK, Some(s), Correlated(MessagingAttributes), High);
    hide ToLower, Span.IsConsumer;
  }

  // ---------- No finding without duplicates ----------

  lemma CountedProcessed(r: Rule, before: seq<Span>, s: Span, k: string)
    ensures Counts(r, before, s) && GroupKey(s) == k <==> Processed(r, k, s) && !Repeated(r, before, s)
    ensures Succeeded(r, k)(s) <==> Processed(r, k, s) && Successful()(s)
  {
    hide GroupKey, Applies, EqualFold, ToLower, Repeated, Span.Identity;
  }

  lemma NoAttempts(r: Rule, k: string)
    ensures Attempts(r, [], k) == [] && CountIf([], Successful()) == CountIf([], Succeeded(r, k))
  {}

  /** Counting successes among the attempts under a key counts no more than the succeeded processings there are. */
  lemma {:induction false} AttemptsSucceeded(r: Rule, spans: seq<Span>, k: string)
    ensures CountIf(Attempts(r, spans, k), Successful()) <= CountIf(spans, Succeeded(r, k))
    ensures forall s :: s in Attempts(r, spans, k) ==> s in spans && Processed(r, k, s)
  {
    hide *;
    if spans == [] {
      NoAttempts(r, k);
    } else {
      var front, s := spans[..|spans| - 1], spans[|spans| - 1];
      AttemptsSucceeded(r, front, k);
      assert spans == front + [s];
      AttemptsOneMore(r, front, s, k);
      CountedProcessed(r, front, s, k);
      CountAppend(front, s, Succeeded(r, k));
      CountAppend(Attempts(r, front, k), s, Successful());
      assert Attempts(r, front, k) + [] == Attempts(r, front, k);
    }
  }

  lemma {:induction false} GroupCounted(groups: seq<seq<Span>>, g: nat)
    requires g < |groups|
    ensures CountIf(groups[g], Successful()) <= CountIf(Flatten(groups), Successful())
    ensures forall s :: s in groups[g] ==> s in Flatten(groups)
  {
    var front, last := groups[..|groups| - 1], groups[|groups| - 1];
    CountConcat(Flatten(front), last, Successful());
    hide CountIf;
    if g < |front| {
      GroupCounted(front, g);
    }
  }

  lemma NothingListed(cfg: Settings, r: Rule, spans: seq<Span>, order: seq<Span> -> seq<Span>)
    ensures ClusterFindings(cfg, r, []) == [] && FindingsOf(cfg, r, spans, order, []) == []
  {}

  lemma ListedIs(o: Option<Finding>, f: Finding)
    ensures f in Listed(o) <==> o == Some(f)
  {}

  lemma {:induction false} ClusterMembers(cfg: Settings, r: Rule, clusters: seq<seq<Span>>, f: Finding)
    ensures f in ClusterFindings(cfg, r, clusters)
            <==> exists c :: c in clusters && ClusterFinding(cfg, r, c) == Some(f)
  {
    hide *;
    if clusters == [] {
      NothingListed(cfg, r, [], (s: seq<Span>) => s);
    } else {
      var front, last := clusters[..|clusters| - 1], clusters[|clusters| - 1];
      ClusterMembers(cfg, r, front, f);
      ClusterFindingsOneMore(cfg, r, clusters, |front|);
      ListedIs(ClusterFinding(cfg, r, last), f);
      assert clusters[..|front| + 1] == clusters == front + [last];
    }
  }

  lemma {:induction false} KeyMembers(cfg: Settings, r: Rule, spans: seq<Span>, order: seq<Span> -> seq<Span>,
                                      keys: seq<string>, f: Finding)
    ensures f in FindingsOf(cfg, r, spans, order, keys)
            <==> exists k :: k in keys && f in KeyFindings(cfg, r, spans, order, k)
  {
    hide *;
    if keys == [] {
      NothingListed(cfg, r, spans, order);
    } else {
      var front, last := keys[..|keys| - 1], keys[|keys| - 1];
      KeyMembers(cfg, r, spans, order, front, f);
      FindingsOneMore(cfg, r, spans, order, front, last);
      assert keys == front + [last];
    }
  }

  lemma {:induction false} SuccessesOf(attempts: seq<Span>)
    ensures forall s :: s in Successes(attempts) ==> s in attempts && Successful()(s)
    ensures |Successes(attempts)| == CountIf(attempts, Successful())
  {
    if attempts != [] {
      SuccessesOf(attempts[..|attempts| - 1]);
      assert attempts == attempts[..|attempts| - 1] + [attempts[|attempts| - 1]];
    }
  }

  lemma PermutedMembers(a: seq<Span>, b: seq<Span>)
    requires multiset(a) == multiset(b)
    ensures forall s :: s in a ==> s in b
  {
    forall s | s in a ensures s in b {
      assert s in multiset(a);
    }
  }

  /** What the clusters of one key report. */
  lemma ClusterArises(cfg: Settings, r: Rule, spans: seq<Span>, order: seq<Span> -> seq<Span>, k: string, g: nat)
    requires SortsByStart(order) && g < |Groups(order(Attempts(r, spans, k)), cfg.window)|
    requires ClusterFinding(cfg, r, Groups(order(Attempts(r, spans, k)), cfg.window)[g]).Some?
    ensures exists s :: && s in spans && Succeeded(r, k)(s)
                        && NamesProcessing(ClusterFinding(cfg, r, Groups(order(Attempts(r, spans, k)), cfg.window)[g])
                                           .value, r, s)
    ensures CountIf(spans, Succeeded(r, k)) > cfg.duplicateThreshold
  {
    hide Attempts, Groups, Flatten, CountIf, GroupKey, Applies, EqualFold, ToLower, NewFinding, NamesProcessing,
         Successes, Span.Identity;
    var attempts := Attempts(r, spans, k);
    var sorted, groups := order(attempts), Groups(order(attempts), cfg.window);
    GroupsPartition(sorted, cfg.window);
    GroupCounted(groups, g);
    CountPermuted(sorted, attempts, Successful());
    PermutedMembers(sorted, attempts);
    AttemptsSucceeded(r, spans, k);
    SuccessesOf(groups[g]);
    ProcessingNamed(r, Successes(groups[g])[0]);
    assert Successes(groups[g])[0] in Successes(groups[g]);
  }

  /** Every duplicate finding names a processing that succeeded, of a message that was processed with success more often
      than the threshold. */
  lemma DuplicatesArise(cfg: Settings, r: Rule, spans: seq<Span>, order: seq<Span> -> seq<Span>, f: Finding)
    requires SortsByStart(order) && f in DuplicateFindings(cfg, r, spans, order)
    ensures exists s :: && s in spans && Succeeded(r, GroupKey(s))(s) && NamesProcessing(f, r, s)
                        && CountIf(spans, Succeeded(r, GroupKey(s))) > cfg.duplicateThreshold
  {
    hide Attempts, Groups, CountIf, GroupKey, ClusterFinding, NamesProcessing, FindingsOf, ClusterFindings, Applies,
         EqualFold, ToLower, Span.Identity, SortsByStart;
    KeyMembers(cfg, r, spans, order, Keys(r, spans), f);
    var k :| k in Keys(r, spans) && f in KeyFindings(cfg, r, spans, order, k);
    var groups := Groups(order(Attempts(r, spans, k)), cfg.window);
    ClusterMembers(cfg, r, groups, f);
    var c :| c in groups && ClusterFinding(cfg, r, c) == Some(f);
    var g :| 0 <= g < |groups| && groups[g] == c;
    ClusterArises(cfg, r, spans, order, k, g);
  }

  // ---------- No duplicates without a finding ----------

  /** No span is exported twice under the same ids. */
  predicate ExportedOnce(spans: seq<Span>) {
    forall h, j :: 0 <= h < j < |spans| ==>
      spans[j].traceId == "" || spans[j].spanId == "" || SpanKey(spans[h]) != SpanKey(spans[j])
  }

  /** All processings of the message that have a start time started at most the window apart. */
  predicate CloseTogether(r: Rule, k: string, spans: seq<Span>, window: int) {
    forall s, t :: s in spans && t in spans && Processed(r, k, s) && Processed(r, k, t)
                   && s.start != ZERO_TIME && t.start != ZERO_TIME ==>
      t.start - s.start <= window
  }

  /** Without repeated exports all processings count as attempts. */
  lemma {:induction false} AllAttempt(r: Rule, spans: seq<Span>, k: string)
    requires ExportedOnce(spans)
    ensures CountIf(Attempts(r, spans, k), Successful()) == CountIf(spans, Succeeded(r, k))
  {
    hide *;
    if spans == [] {
      NoAttempts(r, k);
    } else {
      var front, s := spans[..|spans| - 1], spans[|spans| - 1];
      OnceInFront(r, spans);
      AllAttempt(r, front, k);
      assert spans == front + [s];
      AttemptsOneMore(r, front, s, k);
      CountedProcessed(r, front, s, k);
      CountAppend(front, s, Succeeded(r, k));
      CountAppend(Attempts(r, front, k), s, Successful());
      assert Attempts(r, front, k) + [] == Attempts(r, front, k);
    }
  }

  lemma OnceInFront(r: Rule, spans: seq<Span>)
    requires ExportedOnce(spans) && spans != []
    ensures ExportedOnce(spans[..|spans| - 1]) && !Repeated(r, spans[..|spans| - 1], spans[|spans| - 1])
  {
    hide SpanKey, Attempted;
  }

  lemma {:induction false} NeverCut(s: seq<Span>, window: int, k: nat)
    requires k < |s| && forall j :: 0 <= j < |s| ==> !CutAt(s, window, j)
    ensures CutsUpTo(s, window, k) == 0
  {
    if k > 0 { NeverCut(s, window, k - 1); }
  }

  /** Without a cut there is one group. */
  lemma OneGroupOnly(s: seq<Span>, window: int)
    requires s != [] && forall j :: 0 <= j < |s| ==> !CutAt(s, window, j)
    ensures Groups(s, window) == [s]
  {
    AllLocated(s, window);
    GroupsPartition(s, window);
    NeverCut(s, window, |s| - 1);
    hide Groups, CutsUpTo, CutAt, InGroup, Offset;
    var groups := Groups(s, window);
    assert groups == [groups[0]];
    FlattenAppend([], groups[0]);
    assert [] + [groups[0]] == [groups[0]];
  }

  lemma NothingCut(r: Rule, spans: seq<Span>, k: string, sorted: seq<Span>, window: Duration)
    requires CloseTogether(r, k, spans, window) && multiset(sorted) == multiset(Attempts(r, spans, k))
    ensures forall j :: 0 <= j < |sorted| ==> !CutAt(sorted, window, j)
  {
    AttemptsSucceeded(r, spans, k);
    PermutedMembers(sorted, Attempts(r, spans, k));
    hide Attempts, Processed;
    forall j | 0 < j < |sorted| ensures !CutAt(sorted, window, j) {
      assert sorted[j - 1] in sorted && sorted[j] in sorted;
      CutMeans(sorted[j - 1], sorted[j], window);
    }
  }

  lemma {:induction false} AttemptsKey(r: Rule, spans: seq<Span>, k: string)
    requires Attempts(r, spans, k) != []
    ensures k in Keys(r, spans)
  {
    if spans != [] {
      hide Counts, GroupKey;
      if Attempts(r, spans[..|spans| - 1], k) != [] {
        AttemptsKey(r, spans[..|spans| - 1], k);
      }
    }
  }

  lemma OneCluster(cfg: Settings, r: Rule, s: seq<Span>)
    requires CountIf(s, Successful()) > cfg.duplicateThreshold
    ensures ClusterFinding(cfg, r, s).Some?
    ensures ClusterFinding(cfg, r, s).value in ClusterFindings(cfg, r, [s])
  {
    ClusterMembers(cfg, r, [s], ClusterFinding(cfg, r, s).value);
    hide ClusterFindings, NewFinding;
  }

  /** A message processed with success more often than the threshold, all within the window, has a duplicate finding. */
  lemma DuplicatesFound(cfg: Settings, r: Rule, spans: seq<Span>, order: seq<Span> -> seq<Span>, k: string)
    requires SortsByStart(order) && ExportedOnce(spans) && CloseTogether(r, k, spans, cfg.window)
    requires CountIf(spans, Succeeded(r, k)) > cfg.duplicateThreshold
    ensures exists f, s :: && f in DuplicateFindings(cfg, r, spans, order) && s in spans && Succeeded(r, k)(s)
                           && NamesProcessing(f, r, s)
  {
    hide Attempts, Groups, CountIf, CutAt, ClusterFinding, ClusterFindings, NamesProcessing, ExportedOnce,
         CloseTogether, FindingsOf, Processed, EqualFold, SortedByStart;
    var attempts := Attempts(r, spans, k);
    var sorted := order(attempts);
    AllAttempt(r, spans, k);
    CountPermuted(sorted, attempts, Successful());
    NothingAttempted();
    SameSize(sorted, attempts);
    NothingCut(r, spans, k, sorted, cfg.window);
    OneGroupOnly(sorted, cfg.window);
    assert Groups(sorted, cfg.window)[0] == sorted;
    OneCluster(cfg, r, sorted);
    AttemptsKey(r, spans, k);
    KeyMembers(cfg, r, spans, order, Keys(r, spans), ClusterFinding(cfg, r, sorted).value);
    ClusterArises(cfg, r, spans, order, k, 0);
  }

  lemma NothingAttempted()
    ensures CountIf([], Successful()) == 0
  {}

  lemma SameSize(a: seq<Span>, b: seq<Span>)
    requires multiset(a) == multiset(b)
    ensures |a| == |b|
  {
    assert |multiset(a)| == |a| && |multiset(b)| == |b|;
  }

  // ---------- The findings of one rule ----------

  predicate NamedProcessing(fs: seq<Finding>, r: Rule, s: Span) {
    exists j :: 0 <= j < |fs| && NamesProcessing(fs[j], r, s)
  }

  /** The finding names a successful processing of a message that was processed with success too often. */
  ghost predicate OfDuplicate(cfg: Settings, r: Rule, spans: seq<Span>, f: Finding) {
    exists s :: && s in spans && Succeeded(r, GroupKey(s))(s) && NamesProcessing(f, r, s)
                && CountIf(spans, Succeeded(r, GroupKey(s))) > cfg.duplicateThreshold
  }

  /** A successful processing of the message is named. */
  ghost predicate ProcessingOf(fs: seq<Finding>, r: Rule, spans: seq<Span>, k: string) {
    exists s :: s in spans && Succeeded(r, k)(s) && NamedProcessing(fs, r, s)
  }

  /** The findings name a successful processing of every message that was processed with success too often within the
      window, if no span was exported twice. */
  ghost predicate DuplicatesNamed(cfg: Settings, r: Rule, spans: seq<Span>, fs: seq<Finding>) {
    ExportedOnce(spans) ==>
      forall k :: CloseTogether(r, k, spans, cfg.window) && CountIf(spans, Succeeded(r, k)) > cfg.duplicateThreshold ==>
        ProcessingOf(fs, r, spans, k)
  }

  lemma DuplicatesTold(cfg: Settings, r: Rule, spans: seq<Span>, order: seq<Span> -> seq<Span>)
    requires SortsByStart(order)
    ensures DuplicatesNamed(cfg, r, spans, DuplicateFindings(cfg, r, spans, order))
    ensures forall f :: f in DuplicateFindings(cfg, r, spans, order) ==> OfDuplicate(cfg, r, spans, f)
  {
    hide SortsByStart, ExportedOnce, CloseTogether, CountIf, DuplicateFindings, NamesProcessing, GroupKey, Processed;
    var fs := DuplicateFindings(cfg, r, spans, order);
    if ExportedOnce(spans) {
      forall k | CloseTogether(r, k, spans, cfg.window) && CountIf(spans, Succeeded(r, k)) > cfg.duplicateThreshold
        ensures ProcessingOf(fs, r, spans, k)
      {
        DuplicatesFound(cfg, r, spans, order, k);
        var f, s :| f in fs && s in spans && Succeeded(r, k)(s) && NamesProcessing(f, r, s);
        var j :| 0 <= j < |fs| && fs[j] == f;
        assert NamedProcessing(fs, r, s);
      }
    }
    forall f | f in fs ensures OfDuplicate(cfg, r, spans, f) {
      DuplicatesArise(cfg, r, spans, order, f);
    }
  }
}
