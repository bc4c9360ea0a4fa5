# Async Trace Doctor, modelled and proved

Async Trace Doctor reads OpenTelemetry messaging spans, joins the spans of producers with those of
consumers, and reports where context was lost, messages were orphaned, batches were not linked, work was
done twice or the topology drifted. It does so offline over a finished input and live over a bounded store.
This project models the engine in Dafny and proves what it promises: that the fast correlation is a slow and
obvious one, that the live store neither loses count nor reopens a judgement, and that a live report never
claims more than its evidence carries.

Strings are sequences of characters, times are integers (nanoseconds since Go's zero time; the Unix epoch is
another instant), durations are 64-bit where the program subtracts or negates them. A lock-protected method
is one step; wall-clock reads are parameters. Code that updates fields, fills maps or loops is imperative
here too and is proved against functions, about which the lemmas speak.

## The main results

**Correlation is the quadratic scan, and exactly when.** `Correlate.Correlate` builds three hash indexes, sorts
route buckets and walks them with two cursors. `Scan.ScanCorrelate` has no index: every consumer looks at every
producer, tier after tier. For every list of spans and every window, the engine's tables are the scan's if and only
if every consumer is treated faithfully (`Indexed.Faithful`), and the program stops if and only if some consumer that
no link, parent or identity matches has a route on which the walk faults (`Indexed.Stops`): it asks for room for more
candidates than memory can address, its batch count being that large, or it reads index -1. Both conditions speak of
the spans alone. With times in range, which is to say that no producer ends 2^63-1 ns or more after a consumer starts
(nor, should the window be 2^63-1 ns itself, ended longer than that before), they become simple: only such a batch
count stops the program, and where it does not stop, the tables are the scan's if and only if every match that the
scan makes without a context joins systems equal in lower case, as all ASCII systems that fold alike are. On all inputs
the tables agree with one another, and the high-confidence correlations and the reference counts are exactly the
scan's. `CorrelationLimits` exhibits, for every window above zero, a pair of
spans on which each condition fails.

**Every row of the tables is accounted for in the fields of the spans it joins.** `CorrelationLaws` states when the
tables hold which row, not through the engine's tests but in the fields those read. On every input there is a link row
for exactly the producers whose two ids a valid link of the consumer holds and that name no other environment or
service namespace than it, a parent row for the first such producer of its parent where no link names one, and no row
at all between two explicitly different environments or service namespaces. With times in range a consumer that no
context settles has one row for the closest sender of its message, or else rows for the nearest producers on its
route: those that fewer others are preferred to than it took messages.

**What a report says is what the spans show.** `Engine.Audit` and `Engine.AuditWindow` return reports whose findings,
over all seventeen checks, name what their enabled rules are about and nothing else (`Engine.TellsAll`): each check's
condition is stated on the fields of the spans and of the rows that join them, not through the engine's tests. A
producer is orphaned if no correlation is its and it has ended, and in a live window only if some span has ended at
least the correlation window later; an expected edge is missing if something was sent that it covers and no
correlation joins spans that meet it. Of the messages processed with success too often those are sure to be named
whose processings all lie within the window, and of topology findings all this is said when no field holds a NUL.
`Findings.AppliesMeans` and `BatchCoverage.BatchCovered` spell out a rule's scope and what links account for. The
topology has, for each correlation, an edge from the producer's service, system and
destination to the consumer's service, group and subscription, which counts the correlations with its ten values.

**The store keeps its limits, its index and its books.** `Retention` is the store as a state machine,
`LiveStore.Store` the mutable class with its in-place compaction and snapshot cache; every method is proved
to take the machine's step, and no slice that a snapshot has returned is ever written to again. A step at an instant
drops, of what was retained, exactly what ended longer than the time to live before it, and retains an arriving span
exactly when it is not as old, no retained span has its ids and there is room.

**What a live audit says, the offline audit says too.** `Engine.AuditBothWays` runs both on one input: on every
input they return together, every live finding is in the offline report, over all seventeen checks, and a live
report that fails the policy announces an offline report that does.
`Watermark.ClosedStaysClosed` shows over all runs of the store that eviction cannot reopen a correlation window.

**Absence is never sufficient evidence live, and degradation is for good.** `Engine.LiveReportGuarded`,
`Engine.AbsenceCannotFailPolicy` and `LiveService.RunEvents`, the last over any interleaving of exports,
snapshots, audits and configuration reloads. A tally kept from outside counts the fate of every span that ever
arrived: a live report is degraded exactly when by then the tally has a span evicted or refused, or the spans audited
had lost attributes or links before they arrived; and once it has, every later report is.

## Where the documentation and the code differ

- docs/ARCHITECTURE.md:54 says violation counters increment once per stable finding fingerprint. The code
  compares with the previous report only: a fingerprint that occurs twice in the report that introduces it is
  counted twice, and one that disappears for a report and returns is counted again.
  `ReportMetrics.CountedOncePerFingerprint` gives the exact condition, `ReportMetrics.ReappearanceRecounted` an
  instance.
- The same line says the active gauges represent the latest snapshot. The rule id and severity are joined with
  NUL and split again; with NUL inside an id gauges can overwrite each other. `ReportMetrics.GaugesSum` gives the
  exact condition.
- internal/correlation/correlation.go:183 is unreachable: the chosen distance is always the smaller of the two.
- internal/rules/engine.go:482-484 counts orphaned consumers that carry an unresolved context, the
  orphan-consumer check does not; `Summaries.OrphanConsumersReported` states the difference.

## Layout

`Text`, `Spans`, `Counting` and `Totals` are the vocabulary. The correlation engine: `Routes`; `Nearest`, `Scan` and
`ContextTiers`, the reference; `Tables` and `ConsumerRows`; `RouteWalk`, `Indexes`, `Indexed` and `IndexedRun`, what
the fast form does as functions of its input and when it meets the reference; `CorrelationLaws`, what its rows say;
`Correlation`, the program itself; and `CorrelationLimits`. `Retention`, `Store` and `Dedup` are the live store and
offline deduplication. `Watermark`, `AttemptWindows`, `BatchCoverage`, `Topology`, `Findings`, `FindingOrder`,
`Checks`, `Duplicates`, `Expectations`, `TopologyChecks`, `Summary` and `Engine` are the audit engine, with
`SpanLaws`, `AuditLaws`, `DuplicateLaws` and `TopologyLaws` on what its findings say; `Metrics`, `RateLimit` and
`Service` the service around it.
`dafny verify dfyconfig.toml` checks everything.

## Model

| member | source | states |
|---|---|---|
| Correlate.Correlate | internal/correlation/correlation.go:22-126 | On all inputs and for every window: it stops exactly where some consumer is left to the walk and that walk faults; otherwise the tables agree with one another and the high-confidence correlations and reference counts are the quadratic scan's; all its tables are the scan's, with the same tiers, order and tie-breaks, if and only if every consumer is treated faithfully. With times in range, where it does not stop: if and only if every match the scan makes without a context joins systems equal in lower case. Every row is sound in the fields of its spans, the context rows are exactly those the contexts name in scope and, with times in range, the others exactly those of the closest sender or the nearest |
| CorrelationLaws.RowsByContext | internal/correlation/correlation.go:52-92 | On every input: no row joins two explicitly different environments or service namespaces, and a row without a context also joins one system, destination and broker within the window; a link row is there exactly when some valid link of the consumer holds the producer's two ids and the scopes allow it; a parent row exactly for the first producer the parent names so, when no link names one |
| CorrelationLaws.RowsWithoutContext | internal/correlation/correlation.go:93-123 | With times in range: a consumer that no context settles has one row for the closest, and of those the first, producer of its message on its route; where there is none, a row for exactly those producers on its route that fewer others are preferred to than it took messages |
| CorrelationLaws.UnresolvedExactly | internal/correlation/correlation.go:54-92 | On every input a consumer counts an unresolved reference exactly when a valid link of it names no producer in scope, or no context does and its parent is valid |
| Nearest.NearestByRank | internal/correlation/correlation.go:151-192 | The nearest are exactly those in reach that fewer than the limit are preferred to |
| Correlate.MatchConsumer | internal/correlation/correlation.go:52-124 | One consumer's tiers enter the outcome of `IndexedConsumer`; they stop exactly on `Stops`, and the outcome is the scan's exactly on `Faithful` |
| IndexedRun.StopsWhere | internal/correlation/correlation.go:52-124 | A run has no tables exactly when some consumer that no link, parent or identity matches has a faulting walk |
| IndexedRun.IndexedAgrees | internal/correlation/correlation.go:22-135 | On all inputs that do not stop: increasing position lists, matched sets and reference counters describe one set of sound correlations, and the context tiers are the scan's |
| IndexedRun.CorrelateExact | internal/correlation/correlation.go:22-126 | For every window the tables are the scan's if and only if every consumer is treated faithfully |
| IndexedRun.InRangeExact | internal/correlation/correlation.go:93-123 | With times in range every consumer is treated faithfully if and only if the program does not stop and the scan's matches without a context are spelled like their consumers |
| IndexedRun.InRangeStops | internal/correlation/correlation.go:116-157 | With times in range the program stops exactly when some consumer that is left to the walk has a route and announces more messages than there is room for candidates |
| IndexedRun.PlainSystemsAgree | internal/correlation/correlation.go:193-228 | Systems without the long s, all ASCII ones among them, that fold alike are equal in lower case |
| Indexed.ConsumerExact | internal/correlation/correlation.go:52-124 | For every window one consumer's outcome is the scan's if and only if a context settles it, or every candidate of its message with a wrong distance comes after the scan's identity match, that match is spelled like it and, where there is none, the walk neither faults nor is misled and the scan's nearest are spelled like it |
| Indexed.IdentityTierExact | internal/correlation/correlation.go:93-115 | For a consumer with an identity the pick is the scan's if and only if every kept candidate whose computed distance is wrong comes after the scan's pick, and that pick is spelled like the consumer |
| Indexed.WalkExact | internal/correlation/correlation.go:116-123 | Where the walk does not fault, its candidates are the scan's if and only if it is not misled, by overflow or saturation, and the scan's are spelled like the consumer |
| ContextTiers.OutcomeKeepsSame | internal/correlation/correlation.go:52-92 | Entering outcomes with the same context evidence keeps the high-confidence correlations and the reference counts of two tables the same |
| Correlate.BuildIndexes | internal/correlation/correlation.go:24-42 | The three maps are the ones in which every bucket lists, in order, exactly the producers with that key |
| Indexes.IndexHoldsBuckets | internal/correlation/correlation.go:28-38 | Looking a key up gives exactly the producers filed under it |
| Correlate.SortRoutes | internal/correlation/correlation.go:43-51 | Every bucket ends up sorted by end time, then index, whatever order the map yields the routes in |
| Indexes.SortBucketSorts | internal/correlation/correlation.go:44-50 | The sorted bucket has the same producers, strictly ordered by end time and index |
| Indexes.ContextBucketExact | internal/correlation/correlation.go:61-66 | Looking up a valid context finds exactly the producers with these two ids, though producers' own ids may be any strings |
| Indexes.RouteBucketExact | internal/correlation/correlation.go:28-38 | A consumer's route holds a producer compatible with it exactly when their systems are equal in lower case |
| Indexes.MessageBucketExact | internal/correlation/correlation.go:33-36 | The bucket of a consumer's route and identity holds a producer compatible with it and of its identity exactly when their systems are equal in lower case |
| Correlate.MatchLinks | internal/correlation/correlation.go:54-70 | The linked set is exactly the producers whose two ids some valid link holds and that name no other environment or service namespace, and the counters grow by the valid and the unresolved links |
| Correlate.MatchParent | internal/correlation/correlation.go:78-92 | The parent found is the first producer in index order that has the trace id and the parent span id of the consumer and names no other environment or service namespace |
| Correlate.MatchIdentity | internal/correlation/correlation.go:93-115 | For a consumer with an identity it picks the closest kept candidate, one exactly when one is kept, and the scan's exactly on the condition of `IdentityTierExact` |
| RouteWalk.NearestRouteCandidates | internal/correlation/correlation.go:151-192 | On every sorted route the walk faults exactly on `Panics`, for lack of room or on index -1; otherwise it returns accepted producers within the computed window, each once and at most the limit, and they are the limit nearest of the route, in order, exactly when it is not misled |
| Scan.LinkedIffResolved | internal/correlation/correlation.go:55-71 | Some producer is linked exactly when some valid link is resolved |
| Spans.KeyExact | internal/correlation/correlation.go:239 | A joined key names one pair of ids as soon as one side is hexadecimal, whatever the other side is |
| Spans.KeyAmbiguous | internal/correlation/correlation.go:239 | Without a hexadecimal side two pairs share a key |
| Text.ValidHexIdMeans | internal/model/model.go:23-39 | An id is valid exactly when it writes a positive number in hexadecimal digits, as many as it must have |
| Spans.IdentityMeans | internal/model/model.go:179-187 | The message id goes first; without one a Kafka partition and offset identify a message; nothing else does |
| Spans.OffsetsExact | internal/model/model.go:183-185 | Partitions without a slash and offsets are one identity exactly when both are the same |
| Routes.CompatibleSharesRoute | internal/correlation/correlation.go:193-228 | Compatible spans, RabbitMQ prefix shapes included, have non-empty route keys, equal exactly when their systems are equal in lower case |
| Routes.DeltaExact | internal/correlation/correlation.go:232-238 | The computed distance is the true one exactly within the 64-bit range, and negative exactly at or below its lower end |
| Nearest.NearestUnique | internal/correlation/correlation.go:151-192 | The order of preference leaves one answer |
| Nearest.ScanIsNearest | internal/correlation/correlation.go:116-123 | Taking the best remaining producer again and again gives the nearest ones |
| Tables.OutcomeAgrees | internal/correlation/correlation.go:52-135 | Entering a well-formed outcome keeps the tables in agreement: increasing position lists, matched sets exact, one method a consumer, no pair twice, scope respected, and a high-confidence match exactly when unresolved references are fewer than references |
| Tables.WithinWindowExactly | internal/correlation/correlation.go:99-104 | A medium or low match is truly within the window exactly when its latency was representable |
| CorrelationLimits.LongSMissed | internal/correlation/correlation.go:193-228 | For every window above zero, two compatible spans that the scan matches and the engine's tables miss: one system is written with the long s |
| CorrelationLimits.WalkFaults | internal/correlation/correlation.go:160-174 | For every window above zero, two spans on which the program stops: the walk reads index -1 |
| CorrelationLimits.BatchCountFaults | internal/correlation/correlation.go:116-157 | For every window above zero and with all times in range, two spans on which the program stops: the consumer announces more messages than there is room for candidates |
| CorrelationLimits.ZeroStartMatchesAll | internal/correlation/correlation.go:232-238 | For every window above zero, a consumer without a start time is matched to a producer of our time outside the window, and the tables are not the scan's |
| Retention.RunValid | internal/server/store.go:70-171 | Over every run: at most max spans, bytes the sum of the retained estimates and within the limit, identities unique, the index exactly their positions and hashes |
| Retention.JudgeIsByContent | internal/server/store.go:77-115 | In every valid state the verdict on a span depends on the retained contents only, whatever the hash function |
| Retention.Conservation | internal/server/store.go:70-171 | Over every run arrivals are retained, evicted, rejected or duplicate exports, and TTL evictions are the evicted and the stale |
| Retention.BatchesJoin | internal/server/store.go:70-130 | Two batches at one instant leave the state of one joined batch: spans, index, bytes, counters and generation |
| Retention.LossStays | internal/server/store.go:46-51 | No count of spans evicted, stale, in conflict or beyond capacity or memory ever falls |
| Retention.LossOnRecord | internal/server/server.go:458 | The counters the service tests show a loss exactly when the tally has a span evicted or refused |
| Retention.StepKeepsRecent | internal/server/store.go:70-171 | After a step at an instant every retained span has no end time or ended at most the time to live before it; of those retained before exactly these stay, in their order; the rest are of the batch |
| Retention.JudgedExactly | internal/server/store.go:76-125 | What becomes of an arriving span, in its end time, its ids and the retained spans: stale, a duplicate export, a conflict, refused for want of room in number or bytes, or accepted |
| Retention.AdmittedExactly | internal/server/store.go:76-125 | An arriving span is retained exactly when it has no end time or ended at most the time to live ago, no retained span has both its ids, and there is room in number and bytes; else nothing retained changes |
| Retention.IdentityExact | internal/server/store.go:201-206 | With hexadecimal ids on one side the identity is the pair of ids; there is none without both ids |
| LiveStore.Store.Add | internal/server/store.go:70-130 | A batch takes the machine's step, the answer counts the fates of its spans, each once, and exactly the recent ones of the spans retained before stay, in order, in front of recent ones of the batch |
| LiveStore.Store.Snapshot | internal/server/store.go:132-144 | The slice returned equals the retained spans of that step, exactly the recent ones of those before, from the cache or not |
| LiveStore.Store.EvictLocked | internal/server/store.go:146-171 | In-place compaction and reallocation take the machine's eviction step, keep exactly the spans without an end time or that ended at most the time to live ago, in order, and leave issued slices alone |
| LiveStore.Store.Compact | internal/server/store.go:146-158 | The loop over its own backing array keeps exactly the spans without an end time or that ended at most the time to live ago, in order, and sums their estimates |
| LiveStore.RunSteps | internal/server/store.go:70-171 | Any sequence of calls follows the machine, and no slice a snapshot ever returned is modified |
| LiveStore.RunFromEmpty | internal/server/store.go:55-171 | A run of a new store is a run of the machine |
| Dedup.DeduplicateSpans | internal/ingest/otlp.go:82-106 | It fails exactly when two spans of one identity differ, whatever the hash, and otherwise returns the first occurrences |
| Dedup.FirstHoldsAll | internal/ingest/otlp.go:82-106 | First occurrences carry every identity once and add nothing |
| Dedup.Idempotent | internal/ingest/otlp.go:82-106 | Deduplicating twice is deduplicating once |
| Dedup.RunIsDedup | internal/server/store.go:70-130 | When every span received has no end time or ended at most the time to live before each step, none conflict and there is room for all, the live store retains what offline deduplication of everything received keeps, however it was batched |
| Watermark.ComputeWatermark | internal/rules/engine.go:693-701 | The loop finds the latest end time, or the zero time |
| Watermark.ClosedStaysClosed | internal/rules/engine.go:693-711 | Over every run of the store, at any wall-clock times: once some retained span has ended at least the window after another, one has for as long as that other is retained |
| Watermark.WindowClosedMeans | internal/rules/engine.go:693-711 | At the watermark of the spans a live window is closed for a span exactly when it has ended and some span has ended, after the zero time, at least the window later; a finished one exactly when it has ended |
| AttemptWindows.SplitAttemptWindows | internal/rules/engine.go:664-680 | The groups are those of the sorted attempts, none empty, concatenating to them |
| AttemptWindows.GroupsPartition | internal/rules/engine.go:669-679 | Grouping a sequence partitions it in order |
| AttemptWindows.SharedGroup | internal/rules/engine.go:670-678 | Two attempts lie in one group exactly when of every two neighbours from the one to the other, one has no start time or they start at most the window apart |
| AttemptWindows.GroupsIndependent | internal/rules/engine.go:668-679 | With a non-negative window all sorted orders give the same groups as multisets |
| AttemptWindows.NegativeWindowDepends | internal/rules/engine.go:668-679 | With a negative window the order of equal starts shows |
| AttemptWindows.DuplicatesIndependent | internal/rules/engine.go:217-234 | The number of groups over the threshold does not depend on the unstable sort |
| BatchCoverage.BatchLinkCoverage | internal/rules/engine.go:617-662 | The loops over maps compute the coverage, the valid links and the unique contexts as defined link by link |
| BatchCoverage.BatchCovered | internal/rules/engine.go:644-661 | Links that all name one producer cover the distinct message ids they give and one message for each link without an id, up to the number of messages the producer sent |
| BatchCoverage.CoverageBounds | internal/rules/engine.go:644-661 | Unique contexts <= coverage <= valid links on all inputs |
| BatchCoverage.CoverageMonotone | internal/rules/engine.go:617-662 | Adding a link never lowers the coverage |
| BatchCoverage.RepeatedLink | internal/rules/engine.go:633-639 | Repeating a message id of a context, or adding an invalid link, changes nothing |
| BatchCoverage.CoveragePermuted | internal/rules/engine.go:617-662 | The order of the links does not matter |
| Topology.BuildTopology | internal/rules/engine.go:366-412 | The edges are strictly sorted on ten fields, one for every key, made from the first correlation with it and counting all; when no field holds a NUL every correlation runs along some edge, from the service, system, destination, environment, namespaces and broker of the producer to the service, group and subscription of the consumer, every edge has as its count the number of correlations with its ten values, at least one, and no two edges have the same |
| Topology.TopologyUnique | internal/rules/engine.go:376-411 | The result does not depend on map iteration order |
| Topology.EdgeOrder | internal/rules/engine.go:380-411 | The edges are compared by producer, system, destination, consumer, group, subscription, environment, namespaces and broker, in this order |
| Topology.TopologyConserves | internal/rules/engine.go:366-412 | The counts of the edges sum to the number of correlations, on all inputs |
| Topology.TopologyExact | internal/rules/engine.go:368-375 | Every edge counts exactly the correlations whose spans have its ten values, producer's and consumer's each on its own side, if and only if equal keys mean equal fields |
| Topology.TopologyComplete | internal/rules/engine.go:368-378 | Every correlation then runs along some edge, which counts it |
| Topology.TopologyObserves | internal/rules/engine.go:366-412 | When keys tell the fields, the edges are exactly the combinations of values that correlated spans have, each once and with the number of its correlations |
| Topology.NulFreeTells | internal/rules/engine.go:370 | Keys tell the fields when no field holds a NUL |
| Topology.NulMerges | internal/rules/engine.go:370 | Two different edges a NUL merges |
| Checks.NeverBoth | internal/rules/engine.go:119-177 | An unresolved-context finding never coexists with a missing-context or orphan-consumer finding for the same span, across any two rules |
| Checks.UnresolvedNames | internal/rules/engine.go:141-157 | An unresolved-context finding names exactly the span, the complete links and the parent |
| Checks.MissingContextMeaning | internal/rules/engine.go:119-140 | A missing-context finding is raised exactly for a processing span that carries no context; its candidate is never a high-confidence match, and the finding says whether identity or time found it |
| Checks.OrphanConsumerMeaning | internal/rules/engine.go:175-187 | An orphaned consumer is reported exactly when it is in scope, has no valid link or parent, no correlation names it and it has ended, in a live window at least the window before the end of some span |
| Checks.OrphanProducerMeaning | internal/rules/engine.go:162-174 | An orphaned producer is reported exactly when it is in scope, no correlation names it and it has ended, in a live window at least the window before the end of some span |
| Checks.OrphanEvidence | internal/rules/engine.go:562-567 | Findings about orphans are sufficient only of input known to be complete, then of medium confidence if the broker identified the message; else insufficient and of low confidence |
| Checks.LatencyMeaning | internal/rules/engine.go:235-251 | With a representable latency a correlation is reported exactly when the consumer started more than the limit after the producer ended, or, joined by a context, before it by more than the tolerance |
| Findings.AppliesMeans | internal/rules/engine.go:515-543 | A rule applies exactly to the spans of its operations, systems, services, destinations and environments, the first two in any case, an empty list or a star standing for all |
| Findings.NewFindingNames | internal/rules/engine.go:258-283 | A finding names the producer's service, system and destination and the consumer's service, group and subscription; of one span all it has, its service on the side it acted on |
| Checks.LatencyFindingsCount | internal/rules/engine.go:235-251 | As many findings as correlations beyond the threshold, or beyond the tolerance with high confidence |
| Checks.SemanticChecks | internal/rules/engine.go:76-161 | The loop collects these findings in the order of the spans |
| Checks.SpanFindingStays | internal/rules/engine.go:76-201 | What a live window reports of one span the finished input reports too |
| SpanLaws.DueExactly | internal/rules/engine.go:76-201 | Each of the eleven checks of single spans reports exactly the spans in its rule's scope for which its condition holds of their fields: names, kinds allowed to operations, ids, time stamps, contexts that are missing, invalid or name no producer, and batches whose links account for too few messages |
| SpanLaws.LateExactly | internal/rules/engine.go:235-251 | A correlation is reported exactly when its latency exceeds the limit, or is below the negated tolerance and a context joins its spans; the finding names both spans |
| Duplicates.DuplicateChecks | internal/rules/engine.go:202-234 | Whatever order the map yields the groups in, the findings are those of the clusters with more successes than the threshold |
| Duplicates.GroupAttempts | internal/rules/engine.go:203-216 | Every key holds its attempts in order, repeated exports left out |
| Duplicates.DuplicateCountIndependent | internal/rules/engine.go:217-234 | The number of duplicate findings does not depend on the sort |
| Duplicates.RepeatedExportIgnored | internal/rules/engine.go:208-211 | Exporting an attempt again under the same ids changes no duplicate finding |
| Duplicates.GroupKeyExact | internal/rules/engine.go:213 | Without NUL two attempts share a group exactly when service, system, destination, consumer group, subscription and the kind and value of the message's identity are the same |
| DuplicateLaws.DuplicatesArise | internal/rules/engine.go:202-234 | Every duplicate finding names a successful processing of a message, and there are more successful processings of it than the threshold |
| DuplicateLaws.DuplicatesFound | internal/rules/engine.go:202-234 | When no span is exported twice, a message processed with success more often than the threshold, all within the window, has a duplicate finding that names one of them |
| TopologyChecks.TopologyCheck | internal/rules/engine.go:285-331 | The loops over observed and expected edges yield the findings defined edge by edge over the unique topology; at the watermark of the spans and without NUL these name exactly the correlations whose spans are denied or unexpected, the expected edges that something was sent along but no correlation meets, and the undelivered messages |
| TopologyChecks.MissingRequiredConsumers | internal/rules/engine.go:413-448 | At the watermark of the spans: a finding names exactly each unbatched producer that the expectation covers, that has ended, in a live window at least the window before some other end, and none of whose correlations joins it to a consumer that the expectation covers |
| Expectations.SatisfiedByCorrelation | internal/rules/engine.go:289-318 | When keys tell the edges apart, an expectation is satisfied exactly when some correlation joins spans whose values it covers and no denied or ignored edge does |
| TopologyLaws.MissingEdgeMeaning | internal/rules/engine.go:312-329 | When keys tell the edges apart, a missing edge is reported exactly when some producer that the expectation covers has a closed window and no correlation joins spans that meet it |
| TopologyLaws.UndeliveredMeaning | internal/rules/engine.go:413-448 | An undelivered message is reported exactly for an unbatched producer that the expectation covers, with a closed window, none of whose correlations it covers |
| TopologyLaws.MissingEvidence | internal/rules/engine.go:562-567 | Findings about missing edges and undelivered messages are sufficient and of medium confidence only of input known to be complete; else insufficient and of low confidence |
| TopologyLaws.TopologyFindingsTold | internal/rules/engine.go:285-331 | When keys tell the edges apart, the topology findings name exactly the drifting correlations, the missing edges and the undelivered messages, by the values of their spans and expectations |
| Expectations.OrphanIsUndelivered | internal/rules/engine.go:413-446 | An orphaned producer that must reach a consumer with every message is also reported as undelivered |
| Expectations.TopologyFindingsAppear | internal/rules/engine.go:285-331 | The topology findings of a live window are among those of the finished input |
| Summaries.Summarize | internal/rules/engine.go:463-490 | The loop fills the summary with the counts as defined |
| Summaries.CompletenessMeaning | internal/rules/engine.go:471-488 | The completeness ratio lies between zero and one; times the number of consumers it is the number that are not broken links, and without consumers it is zero |
| Summaries.OrphanProducersReported | internal/rules/engine.go:479-481 | The summary's orphaned producers are as many as an unrestricted rule reports |
| Summaries.OrphanConsumersReported | internal/rules/engine.go:482-484 | The summary's orphaned consumers exceed those an unrestricted rule reports by exactly those that carry a context |
| AuditLaws.LoneCounted | internal/rules/engine.go:479-484 | The summary counts as orphaned exactly the producers and consumers that no correlation names and that have ended, in a live window at least the window before the end of some span |
| AuditLaws.BrokenCounted | internal/rules/engine.go:463-478 | Broken links are exactly the consumers without a valid link or parent, messaging spans exactly those that name a system or an operation |
| AuditLaws.LoneFindings | internal/rules/engine.go:162-187 | The findings of an orphan rule name, by ids, service, system and destination, exactly the lone spans in its scope, of consumers those without a context |
| Engine.AuditSpans | internal/rules/engine.go:35-59 | One audit returns exactly when the correlation run does, and its report is that of all enabled rules on the tables of that run, findings in order and topology included; where every consumer is treated faithfully, on the scan's tables |
| Engine.Audit | internal/rules/engine.go:24-26 | The audit of a finished input: it returns exactly when the correlation run does, with the report of that run at the spans' watermark and the configured completeness; its findings name exactly what its rules are about by the fields of the spans, the window of every span that has ended being closed; its coverage is degraded exactly when a span or link arrived with losses, else complete exactly when the input is declared so |
| Engine.AuditWindow | internal/rules/engine.go:31-33 | The audit of a live window: it returns exactly when the correlation run does, with the report of that run on an open, incomplete window at the spans' watermark; its findings name exactly what its rules are about by the fields of the spans, the window of a span being closed only when some span has ended at least the window after it; its coverage is never complete, and degraded exactly when a span or link arrived with losses |
| Engine.ReportTells | internal/rules/engine.go:35-59 | Over all seventeen checks the findings of a report name exactly the spans, correlations, messages, edges and expectations that its enabled rules are about by the fields of the spans, topology rules when no field holds a NUL, and every message processed too often that the window and unrepeated exports make certain; its summary counts the spans, the findings, the lone spans, the broken links and the messaging spans; its latencies are the correlations', its topology is theirs |
| Engine.RunRule | internal/rules/engine.go:73-256 | The switch over all checks yields, as a multiset, what the rule finds |
| FindingOrder.SortFindings | internal/model/model.go:466-483 | The findings end up ordered by rule, span ids and message, and are the same findings |
| FindingOrder.OrderDetermined | internal/model/model.go:466-483 | Whatever the sort does, the list of keys is one and the same: only findings alike in rule, spans and message can swap |
| FindingOrder.OrderMeans | internal/model/model.go:466-483 | When neither rules nor span ids hold a NUL, findings are ordered by rule, then span ids, then message |
| Text.LessMeans | internal/rules/engine.go:380-411 | One string is before another exactly when, where they first differ, it ends or has the smaller letter |
| Engine.ComputeCoverage | internal/rules/engine.go:576-596 | The loops sum the dropped attributes of spans and links and the dropped links, and degrade the coverage exactly when there are any |
| Engine.DroppedExactly | internal/rules/engine.go:576-596 | The dropped counts are zero exactly when no span and no link of one lost attributes or links before it arrived |
| Engine.CoverageMeaning | internal/rules/engine.go:576-596 | Coverage is degraded exactly when telemetry arrived with losses, and complete exactly when it did not and the input is known to be complete |
| Engine.LiveWithinOffline | internal/rules/engine.go:24-59 | For any live and any finished report on the same spans, configuration and tables, every finding of the one is in the other, at least as often, modulo evidence state and confidence, across all checks, and the topologies are equal |
| Engine.AuditBothWays | internal/rules/engine.go:24-33 | On every input both audits return or neither does, and then every live finding is in the offline report, at least as often, modulo evidence state and confidence, the topologies are equal, and if the live report fails the policy so does the offline one |
| Engine.LiveReportGuarded | internal/rules/engine.go:141-145 | No finding of a live report about an absence or an unresolved reference is sufficient, every other is, and none names an empty id |
| Engine.DegradedReport | internal/rules/engine.go:45-51 | Degraded coverage leaves no insufficient finding |
| Engine.ViolatesPolicy | internal/rules/engine.go:61-71 | True exactly when some finding is sufficient, or insufficient ones are made to fail, and reaches the severity: critical before error before warning before all else |
| Engine.AbsenceCannotFailPolicy | internal/rules/engine.go:61-71 | Unless insufficient evidence is made to fail, a live report fails the policy exactly when it does without its findings about absence and unresolved references |
| Engine.LiveFailureStays | internal/rules/engine.go:24-71 | A live report fails the policy only if the finished report on the same spans fails it, however complete the input is declared |
| LiveService.ReportTellsLosses | internal/server/server.go:451-467 | Whatever calls the store has seen, a live report is degraded exactly when the tally of those calls has a span evicted or refused or the spans audited arrived with losses, then holds nothing insufficient, and shows the counts of the tally |
| LiveService.LossTold | internal/server/server.go:451-467 | Once the tally of the first calls has a span evicted or refused, every report on all the calls is degraded and holds nothing insufficient |
| LiveService.EnrichedTells | internal/server/server.go:451-467 | The findings of the published report name the same as those of the audit |
| LiveService.EnrichedWithinOffline | internal/server/server.go:207-220 | The published live report is still contained in the offline one, and fails the policy only if that one does |
| LiveService.Service.BeginAudit | internal/server/server.go:207-211 | The audit takes the snapshot of this step and the engine of this moment |
| LiveService.Service.FinishAudit | internal/server/server.go:212-220 | However the store and configuration have changed since, the report is on the snapshot and engine taken, with the store's counters of now; its findings name exactly what its rules are about in the snapshot; it is degraded exactly when the tally of all calls on the store has a span evicted or refused or the snapshot arrived with losses; the metrics count its findings that the report before did not have; the service ends exactly when the correlation run on the snapshot stops |
| LiveService.AuditMeanwhile | internal/server/server.go:207-220 | Whatever is exported and reloaded before an audit ends, its report is on the snapshot and under the configuration of its beginning; a reload takes effect only for the next |
| LiveService.RunEvents | internal/server/server.go:207-220 | Over any interleaving of events up to a fault all live reports are honest about absence and show the tally of all calls on the store before them; once a span was evicted or refused, every later report is degraded with no insufficient finding |
| ReportMetrics.FingerprintInjective | internal/model/model.go:378-409 | On fields free of separators and non-empty ids two findings share a fingerprint exactly when they are about the same subject |
| ReportMetrics.FingerprintAmbiguous | internal/model/model.go:378-409 | Without the condition one fingerprint stands for two subjects |
| ReportMetrics.Metrics.Observe | internal/server/metrics.go:57-92 | Each counter grows by the findings whose fingerprint the previous report did not have, under their own labels; the gauges, the completeness and the fingerprint set are those of this report; the histogram takes exactly its non-negative latencies |
| ReportMetrics.ObserveAll | internal/server/metrics.go:57-92 | Over any sequence of reports the violations grow by the findings absent from the report before |
| ReportMetrics.AgainAddsNothing | internal/server/metrics.go:70 | Observing a report again counts nothing |
| ReportMetrics.CountedOncePerFingerprint | internal/server/metrics.go:68-83 | The violations are at least the distinct fingerprints, and exactly those if and only if none is counted twice within a report or after a gap |
| ReportMetrics.ReappearanceRecounted | internal/server/metrics.go:68-83 | A finding that returns after one report without it is counted twice |
| ReportMetrics.SetGauges | internal/server/metrics.go:84-87 | Every gauge shows the count of a key with its labels, and the sum falls short exactly when labels collide |
| ReportMetrics.GaugesSum | internal/server/metrics.go:62-87 | The active gauges sum to the number of findings if and only if no two label keys split into the same labels |
| ReportMetrics.GaugesExact | internal/server/metrics.go:62-87 | Without NUL each gauge is the number of findings with its rule and severity |
| RateLimit.Allow | internal/server/ratelimit.go:31-48 | A call refills, admits exactly when a whole token is there and takes it; without a bucket every call is admitted |
| RateLimit.TokensBounded | internal/server/ratelimit.go:31-48 | With a clock that does not go back the tokens stay between zero and the burst, over every run |
| RateLimit.AdmissionBound | internal/server/ratelimit.go:31-48 | Between any two calls at most burst plus rate times the elapsed time is admitted |
| RateLimit.AdmittedAgain | internal/server/ratelimit.go:31-48 | After a denial and no admission since, a call at least 1/rate later is admitted |
| RateLimit.ClockBackwards | internal/server/ratelimit.go:38 | With a clock that goes back the tokens can fall below zero |
| RateLimit.RunCalls | internal/server/ratelimit.go:23-48 | A run of calls on a new bucket answers as the state machine does |

## Left out

- RouteWalk.NearestRouteCandidates: the room for candidates is that of a 48-bit address space, 2^44 of them; running out of memory below that is left out.
- Routes.CompatibleSharesRoute: of Unicode case mapping only ASCII and the letters that meet it, the long s, the Kelvin sign and the dotted I, are modelled; every other letter maps to itself here, so classes such as the two small sigmas, which fold alike and differ in lower case, are not. The lemmas on routes and spelling do not depend on which letters these are. Invalid UTF-8 is left out.
- Engine.AuditSpans: time stamps, durations, evidence maps, suggested fixes and schema versions of a report are not kept. Topology and latencies are collected before the rules run here; neither depends on the other.
- FindingOrder.SortFindings: the library's sort is an insertion sort here; which of several findings with one key comes first is left to it.
- LiveService.Service.FinishAudit: the instant of the last audit and logging are left out.
- ReportMetrics.Metrics.Observe: the histogram is the sequence of values it observed, in nanoseconds; its buckets are the metrics library's.
- RateLimit.Allow: real numbers stand for floating point, and subtraction of instants 292 years apart is not saturated.
- Duplicates.DuplicateChecks: sort.Slice is a parameter that sorts by start time; which of several equal attempts represents a group is left to it.
- Attribute values are strings or an optional integer; their conversion, and the fallback between two environment attributes, happen before a span of this model exists.
- The estimate of a span's bytes and its content hash are arbitrary functions; reflect.DeepEqual is equality, so NaN attributes are out.
- Unsigned counters and the generation number do not wrap.
- Store gauges and counters exported to Prometheus and logging are left out.
- HTTP, gRPC, authentication, probes, shutdown, report redaction, OTLP decoding, configuration loading and report rendering are left out; a reload is the configuration that loading yields, or none.
- That the retained-span count of a report equals its snapshot's length is not claimed: exports may fall between the two. Taking the snapshot and reading the engine are one step here, as are the end of an audit and its reading of the store.
