/** Which producer can have fed which consumer, and the route under which the
    correlation index files a span. */
module Routes {
  import opened Text
  import opened Spans

  predicate OptionalEqual(a: string, b: string) {
    a == "" || b == "" || a == b
  }

  /** Exact context must not bridge two explicitly different tenants. */
  predicate StrongScopeCompatible(p: Span, c: Span) {
    OptionalEqual(p.environment, c.environment) && OptionalEqual(p.serviceNamespace, c.serviceNamespace)
  }

  predicate ScopeCompatible(p: Span, c: Span) {
    && OptionalEqual(p.environment, c.environment)
    && OptionalEqual(p.serviceNamespace, c.serviceNamespace)
    && OptionalEqual(p.destinationNamespace, c.destinationNamespace)
    && OptionalEqual(p.serverAddress, c.serverAddress)
  }

  predicate DestinationCompatible(system: string, p: Span, c: Span) {
    var pd, cd := p.destination, c.destination;
    if pd == "" || cd == "" then false
    else if !EqualFold(system, "rabbitmq") then pd == cd && OptionalEqual(p.partition, c.partition)
    else pd == cd || pd + ":" <= cd || cd + ":" <= pd
  }

  predicate Compatible(p: Span, c: Span) {
    && p.system != ""
    && EqualFold(p.system, c.system)
    && DestinationCompatible(p.system, p, c)
    && ScopeCompatible(p, c)
  }

  /** The part of a destination that a route keeps. */
  function RouteDestination(system: string, destination: string): string {
    if EqualFold(system, "rabbitmq") && IndexByte(destination, ':') != -1
    then destination[..IndexByte(destination, ':')]
    else destination
  }

  function RouteLookupKey(s: Span): string {
    if s.system == "" || s.destination == "" then ""
    else ToLower(s.system) + "\0" + RouteDestination(s.system, s.destination)
  }

  /** Destinations one of which extends the other after a colon have one first segment. */
  lemma SameFirstSegment(short: string, long: string)
    requires short + ":" <= long
    ensures IndexByte(long, ':') != -1
    ensures long[..IndexByte(long, ':')]
              == (if IndexByte(short, ':') != -1 then short[..IndexByte(short, ':')] else short)
  {
    var i, j := IndexByte(short, ':'), IndexByte(long, ':');
    assert long[..|short| + 1] == short + ":";
    assert long[|short|] == ':';
    assert short == long[..|short|];
    assert j != -1;
    var cut := if i != -1 then i else |short|;
    assert long[cut] == ':' && ':' !in long[..cut] by {
      assert i != -1 ==> long[..i] == short[..i] && long[i] == short[i];
    }
    assert forall k :: 0 <= k < cut ==> long[k] == long[..cut][k] != ':';
    assert forall k :: 0 <= k < j ==> long[k] == long[..j][k] != ':';
    assert j == cut;
    assert long[..cut] == short[..cut];
  }

  /** The spans' systems agree in lower case, which is how routes spell them. */
  predicate SameSpelling(p: Span, c: Span) { ToLower(p.system) == ToLower(c.system) }

  /** Compatible spans are filed under one non-empty route, RabbitMQ prefix shapes
      included, exactly when their systems, equal under folding, agree in lower case too. */
  lemma CompatibleSharesRoute(p: Span, c: Span)
    requires Compatible(p, c)
    ensures RouteLookupKey(p) != "" && RouteLookupKey(c) != ""
    ensures RouteLookupKey(p) == RouteLookupKey(c) <==> SameSpelling(p, c)
  {
    assert EqualFold(c.system, "rabbitmq") <==> EqualFold(p.system, "rabbitmq");
    assert RouteDestination(p.system, p.destination) == RouteDestination(c.system, c.destination) by {
      if p.destination + ":" <= c.destination {
        SameFirstSegment(p.destination, c.destination);
      }
      if c.destination + ":" <= p.destination {
        SameFirstSegment(c.destination, p.destination);
      }
    }
    if RouteLookupKey(p) == RouteLookupKey(c) {
      assert ToLower(p.system) == RouteLookupKey(p)[..|p.system|];
      assert ToLower(c.system) == RouteLookupKey(c)[..|c.system|];
    }
  }

  // ---------- Distance in time ----------

  function Gap(p: Span, c: Span): int { c.start - p.end }

  /** The absolute queue latency as the code computes it, saturating and wrapping. */
  function Delta(p: Span, c: Span): (d: int)
    ensures MIN_DURATION <= d <= MAX_DURATION
  {
    var d := Sub(c.start, p.end);
    if d < 0 then Negate(d) else d
  }

  /** The computed distance is the true one. */
  predicate Exact(p: Span, c: Span) { Delta(p, c) == Abs(Gap(p, c)) }

  /** The distance overflows: the saturated difference is the one duration that negation leaves negative. */
  predicate Overflows(p: Span, c: Span) { Gap(p, c) <= MIN_DURATION }

  /** The code's distance is the true one exactly inside the 64-bit range. A consumer that
      starts more than 292 years before the producer ends gets a negative distance instead. */
  lemma DeltaExact(p: Span, c: Span)
    ensures Exact(p, c) <==> MIN_DURATION < Gap(p, c) <= MAX_DURATION
    ensures Delta(p, c) < 0 <==> Overflows(p, c)
  {}
}
