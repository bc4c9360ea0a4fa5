/** Decoded telemetry spans, with Go's times and durations. */
module Spans {
  import opened Text

  datatype Option<+T> = None | Some(value: T)

  // ---------- Time ----------

  /** Nanoseconds since Go's zero time, 1 January of year 1. */
  type Time = int

  const ZERO_TIME: Time := 0

  /** A missing OTLP timestamp becomes this instant, not the zero time. */
  const UNIX_EPOCH: Time := 62135596800_000000000

  const MAX_DURATION: int := 0x7FFF_FFFF_FFFF_FFFF
  const MIN_DURATION: int := -0x8000_0000_0000_0000

  /** Go's 64-bit durations. */
  type Duration = d: int | MIN_DURATION <= d <= MAX_DURATION

  /** Time.Sub saturates at the ends of the 64-bit duration range. */
  function Sub(t: Time, u: Time): (d: int)
    ensures MIN_DURATION <= d <= MAX_DURATION
    ensures MIN_DURATION <= t - u <= MAX_DURATION ==> d == t - u
  {
    if t - u > MAX_DURATION then MAX_DURATION
    else if t - u < MIN_DURATION then MIN_DURATION
    else t - u
  }

  /** Negation of a 64-bit duration wraps at the minimum. */
  function Negate(d: int): int {
    if d == MIN_DURATION then MIN_DURATION else -d
  }

  function Abs(x: int): nat {
    if x < 0 then -x else x
  }

  // ---------- Spans ----------

  /** A span link; `messageId` is its messaging.message.id attribute, "" when absent. */
  datatype Link = Link(traceId: string, spanId: string, messageId: string, droppedAttributes: nat)
  {
    predicate HasValidContext() {
      ValidTraceId(traceId) && ValidSpanId(spanId)
    }
  }

  datatype IdentityKind = NoIdentity | MessageId | KafkaPartitionOffset

  /** A span reduced to what the engine reads; absent attributes are "" and `extra`
      stands for all remaining content. */
  datatype Span = Span(
    traceId: string, spanId: string, parentSpanId: string, name: string, kind: string, service: string,
    start: Time, end: Time,
    operationType: string, system: string, destination: string, messageId: string,
    consumerGroup: string, subscription: string, environment: string, serviceNamespace: string,
    destinationNamespace: string, serverAddress: string, partition: string, kafkaOffset: string,
    batchCount: Option<int>, errorType: string, statusCode: string,
    links: seq<Link>, droppedAttributes: nat, droppedLinks: nat, extra: string)
  {
    function Operation(): string { ToLower(operationType) }

    predicate IsProducer() { Operation() == "create" || Operation() == "send" }

    predicate IsConsumer() { Operation() == "process" || Operation() == "receive" }

    predicate Failed() { EqualFold(statusCode, "ERROR") || errorType != "" }

    predicate HasValidParentContext() { ValidTraceId(traceId) && ValidSpanId(parentSpanId) }

    /** The broker's message id, else a Kafka partition and offset. */
    function MessageIdentity(): (IdentityKind, string) {
      if messageId != "" then (MessageId, messageId)
      else if EqualFold(system, "kafka") && partition != "" && kafkaOffset != "" then
        (KafkaPartitionOffset, partition + "/" + kafkaOffset)
      else (NoIdentity, "")
    }

    function Identity(): string { MessageIdentity().1 }
  }

  /** A span has a broker identity exactly when it has a message id or, of Kafka, a partition and an offset; the
      message id goes first. */
  lemma IdentityMeans(s: Span)
    ensures var kafka := EqualFold(s.system, "kafka") && s.partition != "" && s.kafkaOffset != "";
      && (s.messageId != "" ==> s.MessageIdentity() == (MessageId, s.messageId))
      && (s.messageId == "" && kafka ==>
            s.MessageIdentity() == (KafkaPartitionOffset, s.partition + "/" + s.kafkaOffset))
      && (s.Identity() == "" <==> s.messageId == "" && !kafka)
  {
    hide EqualFold;
  }

  /** Two offsets of partitions without a slash are one identity exactly when they are the same. */
  lemma OffsetsExact(a: Span, b: Span)
    requires a.MessageIdentity().0 == b.MessageIdentity().0 == KafkaPartitionOffset
    requires '/' !in a.partition && '/' !in b.partition
    ensures a.Identity() == b.Identity() <==> a.partition == b.partition && a.kafkaOffset == b.kafkaOffset
  {
    hide EqualFold;
    assert a.Identity() == a.partition + ['/'] + a.kafkaOffset && b.Identity() == b.partition + ['/'] + b.kafkaOffset;
    if a.Identity() == b.Identity() {
      SplitAtSeparator(a.partition, a.kafkaOffset, b.partition, b.kafkaOffset, '/');
    }
  }

  /** The zero value of a span. */
  const BLANK := Span("", "", "", "", "", "", ZERO_TIME, ZERO_TIME, "", "", "", "", "", "", "", "", "", "", "", "",
                      None, "", "", [], 0, 0, "")

  /** The text under which a trace and span id are indexed. */
  function Key(traceId: string, spanId: string): string {
    traceId + "/" + spanId
  }

  /** The key names one pair of ids when neither pair's trace id can hide the
      separator: it suffices that one side is hexadecimal, whatever the other is. */
  lemma KeyExact(t: string, s: string, traceId: string, spanId: string)
    requires ValidTraceId(traceId) && ValidSpanId(spanId)
    ensures Key(t, s) == Key(traceId, spanId) <==> t == traceId && s == spanId
  {
    var k := Key(traceId, spanId);
    assert forall i :: 0 <= i < 32 ==> k[i] == traceId[i] && IsHexChar(traceId[i]);
    assert forall i :: 33 <= i < |k| ==> k[i] == spanId[i - 33] && IsHexChar(spanId[i - 33]);
    if Key(t, s) == k {
      assert k[|t|] == '/';
      assert |t| == 32;
      assert t == k[..32] && s == k[33..];
      assert traceId == k[..32] && spanId == k[33..];
    }
  }

  /** Without a hexadecimal side the key is ambiguous. */
  lemma KeyAmbiguous()
    ensures Key("a/b", "c") == Key("a", "b/c")
  {
    assert Key("a/b", "c") == "a/b/c" == Key("a", "b/c");
  }
}
