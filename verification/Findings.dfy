/** Audit findings: the rules that raise them, how they are built, and what is left of a
    finding when confidence and evidence are set aside. */
module Findings {
  import opened Text
  import opened Spans
  import opened Counting
  import opened Tables

  // ---------- Rules ----------

  datatype Check =
    | MissingServiceName | MissingMessagingSystem | MissingDestination | InvalidOperation | InvalidSpanKind
    | InvalidSpanIdentity | InvalidTimestamps | InvalidContextReference
    | MissingConsumerContext | UnresolvedConsumerContext
    | OrphanProducer | OrphanConsumer | BatchLinksIncomplete
    | DuplicateProcessing | QueueLatencyHigh | ClockSkew | RuntimeTopologyMismatch
    | UnknownCheck

  datatype Scope = Scope(operations: seq<string>, systems: seq<string>, services: seq<string>,
                         destinations: seq<string>, environments: seq<string>)

  datatype Rule = Rule(id: string, check: Check, enabled: bool, severity: string, message: string, appliesTo: Scope)

  predicate MatchesScope(values: seq<string>, actual: string) {
    values == [] || exists k :: 0 <= k < |values| && (values[k] == "*" || values[k] == actual)
  }

  predicate MatchesScopeFold(values: seq<string>, actual: string) {
    values == [] || exists k :: 0 <= k < |values| && (values[k] == "*" || EqualFold(values[k], actual))
  }

  predicate Applies(r: Rule, s: Span) {
    && MatchesScopeFold(r.appliesTo.operations, s.Operation())
    && MatchesScopeFold(r.appliesTo.systems, s.system)
    && MatchesScope(r.appliesTo.services, s.service)
    && MatchesScope(r.appliesTo.destinations, s.destination)
    && MatchesScope(r.appliesTo.environments, s.environment)
  }

  lemma ScopeMeans(values: seq<string>, actual: string)
    ensures MatchesScope(values, actual) <==> values == [] || "*" in values || actual in values
    ensures MatchesScopeFold(values, actual)
            <==> values == [] || "*" in values || exists v :: v in values && EqualFold(v, actual)
  {
    hide EqualFold;
    if v :| v in values && EqualFold(v, actual) {
      var k :| 0 <= k < |values| && values[k] == v;
    }
  }

  /** A rule applies to the spans of its operations, systems, services, destinations and environments, the first two in
      any case; an empty list or a star stands for all. */
  lemma AppliesMeans(r: Rule, s: Span)
    ensures var x := r.appliesTo;
      Applies(r, s)
      <==> && (x.operations == [] || "*" in x.operations
               || exists v :: v in x.operations && EqualFold(v, ToLower(s.operationType)))
           && (x.systems == [] || "*" in x.systems || exists v :: v in x.systems && EqualFold(v, s.system))
           && (x.services == [] || "*" in x.services || s.service in x.services)
           && (x.destinations == [] || "*" in x.destinations || s.destination in x.destinations)
           && (x.environments == [] || "*" in x.environments || s.environment in x.environments)
  {
    ScopeMeans(r.appliesTo.operations, s.Operation());
    ScopeMeans(r.appliesTo.systems, s.system);
    ScopeMeans(r.appliesTo.services, s.service);
    ScopeMeans(r.appliesTo.destinations, s.destination);
    ScopeMeans(r.appliesTo.environments, s.environment);
    hide MatchesScope, MatchesScopeFold, EqualFold, ToLower;
  }

  // ---------- Findings ----------

  datatype EvidenceState = Sufficient | Insufficient | Degraded

  /** The correlation method named in a finding. */
  datatype Basis =
    | SemanticValidation | IdentityCandidate | TimeCandidate | UnresolvedReference | NoCorrelation
    | ExpectedDelivery | CorrelatedTopology | ExpectedTopology | Correlated(how: How)

  datatype Finding = Finding(
    ruleId: string, severity: string, producerService: string, consumerService: string,
    system: string, destination: string,
    consumerGroup: string, subscription: string, traceIds: seq<string>, spanIds: seq<string>,
    basis: Basis, confidence: Confidence, evidence: EvidenceState, message: string)

  /** Appends an id that is neither empty nor there already. */
  function AppendUnique(xs: seq<string>, v: string): (r: seq<string>)
    ensures "" !in xs ==> "" !in r
  {
    if v == "" || v in xs then xs else xs + [v]
  }

  /** The finding about a producer and possibly a consumer; a producer without a span id stands for none. */
  function NewFinding(r: Rule, p: Span, c: Option<Span>, basis: Basis, confidence: Confidence): (f: Finding)
    ensures "" !in f.traceIds && "" !in f.spanIds
    ensures f.basis == basis && f.confidence == confidence && f.evidence == Sufficient
  {
    var base := if c.Some? && p.spanId == "" then c.value else p;
    var consuming := p.IsConsumer() || p.kind == "CONSUMER";
    var traceIds := if p.spanId != "" then AppendUnique([], p.traceId) else [];
    var spanIds := AppendUnique([], p.spanId);
    Finding(
      r.id, r.severity,
      if p.spanId != "" && !consuming then p.service else "",
      if c.Some? then c.value.service else if p.spanId != "" && consuming then p.service else "",
      base.system, base.destination,
      if c.Some? then c.value.consumerGroup else base.consumerGroup,
      if c.Some? then c.value.subscription else base.subscription,
      if c.Some? then AppendUnique(traceIds, c.value.traceId) else traceIds,
      if c.Some? then AppendUnique(spanIds, c.value.spanId) else spanIds,
      basis, confidence, Sufficient, r.message)
  }

  predicate NoRepeats(xs: seq<string>) {
    forall i, j :: 0 <= i < j < |xs| ==> xs[i] != xs[j]
  }

  /** A finding names the spans it is about, each id once and no empty one, and a trace only with its span. */
  lemma NewFindingIds(r: Rule, p: Span, c: Option<Span>, basis: Basis, confidence: Confidence)
    ensures var f := NewFinding(r, p, c, basis, confidence);
      && NoRepeats(f.spanIds) && NoRepeats(f.traceIds)
      && (forall id :: id in f.spanIds <==> id != "" && (id == p.spanId || (c.Some? && id == c.value.spanId)))
      && (forall id ::
            id in f.traceIds
            <==> id != "" && ((p.spanId != "" && id == p.traceId) || (c.Some? && id == c.value.traceId)))
  {
    hide Span.IsConsumer;
  }

  /** Of two spans the finding names the producer's service, system and destination and the consumer's service, group
      and subscription; of one span alone all that it has, its service on the side it acted on. A producer without a
      span id is left out. */
  lemma NewFindingNames(r: Rule, p: Span, c: Option<Span>, basis: Basis, confidence: Confidence)
    ensures var f := NewFinding(r, p, c, basis, confidence);
      var consuming := ToLower(p.operationType) in {"process", "receive"} || p.kind == "CONSUMER";
      && f.ruleId == r.id && f.severity == r.severity && f.message == r.message
      && f.producerService == (if p.spanId == "" || consuming then "" else p.service)
      && (c.Some? ==> f.consumerService == c.value.service && f.consumerGroup == c.value.consumerGroup
                      && f.subscription == c.value.subscription)
      && (c.Some? && p.spanId == "" ==> f.system == c.value.system && f.destination == c.value.destination)
      && (c.None? || p.spanId != "" ==> f.system == p.system && f.destination == p.destination)
      && (c.None? ==> f.consumerService == (if p.spanId != "" && consuming then p.service else "")
                      && f.consumerGroup == p.consumerGroup && f.subscription == p.subscription)
  {
    hide ToLower;
  }

  /** The finding without its confidence and evidence state. */
  function Gist(f: Finding): Finding { f.(confidence := High, evidence := Sufficient) }

  lemma GistForgets(r: Rule, p: Span, c: Option<Span>, basis: Basis, a: Confidence, b: Confidence)
    ensures Gist(NewFinding(r, p, c, basis, a)) == Gist(NewFinding(r, p, c, basis, b))
  {}

  // ---------- Comparing lists of findings ----------

  function HasGist(g: Finding): Finding -> bool { (f: Finding) => Gist(f) == g }

  /** Every finding of `a` is also in `b`, at least as often, up to confidence and evidence state. */
  ghost predicate Appears(a: seq<Finding>, b: seq<Finding>) {
    forall g :: CountIf(a, HasGist(g)) <= CountIf(b, HasGist(g))
  }

  /** A finding of the one list has its like in the other. */
  lemma AppearingLike(a: seq<Finding>, b: seq<Finding>, k: nat) returns (j: nat)
    requires Appears(a, b) && k < |a|
    ensures j < |b| && Gist(b[j]) == Gist(a[k])
  {
    hide Gist;
    var g := Gist(a[k]);
    CountedOnce(a, HasGist(g), k);
    if forall i :: 0 <= i < |b| ==> !HasGist(g)(b[i]) {
      NoneCounted(b, HasGist(g));
      assert false;
    }
    j :| 0 <= j < |b| && HasGist(g)(b[j]);
  }

  lemma NothingAppears(b: seq<Finding>)
    ensures Appears([], b)
  {}

  lemma AllAppear(a: seq<Finding>)
    ensures Appears(a, a)
  {}

  lemma AppearsConcat(a: seq<Finding>, b: seq<Finding>, x: seq<Finding>, y: seq<Finding>)
    requires Appears(a, b) && Appears(x, y)
    ensures Appears(a + x, b + y)
  {
    hide CountIf;
    forall g ensures CountIf(a + x, HasGist(g)) <= CountIf(b + y, HasGist(g)) {
      CountConcat(a, x, HasGist(g));
      CountConcat(b, y, HasGist(g));
    }
  }

  lemma AppearsPermuted(a: seq<Finding>, a': seq<Finding>, b: seq<Finding>, b': seq<Finding>)
    requires Appears(a, b) && multiset(a) == multiset(a') && multiset(b) == multiset(b')
    ensures Appears(a', b')
  {
    hide CountIf;
    forall g ensures CountIf(a', HasGist(g)) <= CountIf(b', HasGist(g)) {
      CountPermuted(a, a', HasGist(g));
      CountPermuted(b, b', HasGist(g));
    }
  }

  /** At most one finding as a list. */
  function Listed(o: Option<Finding>): seq<Finding> { if o.Some? then [o.value] else [] }

  /** One finding, if any, that stays up to confidence and evidence state. */
  predicate Stays(a: Option<Finding>, b: Option<Finding>) {
    a.Some? ==> b.Some? && Gist(a.value) == Gist(b.value)
  }

  lemma StaysAppears(a: Option<Finding>, b: Option<Finding>)
    requires Stays(a, b)
    ensures Appears(Listed(a), Listed(b))
  {
    hide Gist;
    forall g ensures CountIf(Listed(a), HasGist(g)) <= CountIf(Listed(b), HasGist(g)) {
      if a.Some? {
        CountAppend([], a.value, HasGist(g));
        CountAppend([], b.value, HasGist(g));
        assert [] + [a.value] == [a.value] && [] + [b.value] == [b.value];
      }
    }
  }

  lemma AppearsOneMore(a: seq<Finding>, b: seq<Finding>, x: Option<Finding>, y: Option<Finding>)
    requires Appears(a, b) && Stays(x, y)
    ensures Appears(a + Listed(x), b + Listed(y))
  {
    StaysAppears(x, y);
    AppearsConcat(a, b, Listed(x), Listed(y));
  }

  // ---------- Evidence ----------

  /** The finding concludes from what is not there. */
  predicate FromAbsence(f: Finding) {
    f.basis in {NoCorrelation, UnresolvedReference, ExpectedTopology, ExpectedDelivery}
  }

  /** No conclusion from absence counts as sufficient. */
  ghost predicate Guarded(fs: seq<Finding>) {
    forall k :: 0 <= k < |fs| ==> FromAbsence(fs[k]) ==> fs[k].evidence != Sufficient
  }

  /** No finding names an empty id, and all that do not conclude from absence are sufficient. */
  ghost predicate Presentable(fs: seq<Finding>) {
    forall k :: 0 <= k < |fs| ==>
      && "" !in fs[k].traceIds && "" !in fs[k].spanIds
      && (FromAbsence(fs[k]) || fs[k].evidence == Sufficient)
  }

  lemma NothingSound()
    ensures Guarded([]) && Presentable([])
  {}

  lemma SoundConcat(a: seq<Finding>, b: seq<Finding>)
    ensures Guarded(a) && Guarded(b) ==> Guarded(a + b)
    ensures Presentable(a) && Presentable(b) ==> Presentable(a + b)
  {
    hide FromAbsence;
  }
}
