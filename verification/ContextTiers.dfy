/** The part of a correlation run that rests on exact context alone: the high-confidence
    correlations and the reference counts. */
module ContextTiers {
  import opened Spans
  import opened Tables

  /** The high-confidence correlations, in order. */
  function HighOf(xs: seq<Correlation>): seq<Correlation> {
    if xs == [] then []
    else HighOf(xs[..|xs| - 1]) + if xs[|xs| - 1].confidence == High then [xs[|xs| - 1]] else []
  }

  lemma HighOneMore(xs: seq<Correlation>, x: Correlation)
    ensures HighOf(xs + [x]) == HighOf(xs) + if x.confidence == High then [x] else []
  {
    assert (xs + [x])[..|xs + [x]| - 1] == xs;
  }

  /** All of one outcome's rows are of high confidence, or none. */
  lemma {:induction false} HighOfRows(xs: seq<Correlation>, rows: seq<Correlation>, high: bool)
    requires forall k :: 0 <= k < |rows| ==> (rows[k].confidence == High <==> high)
    ensures HighOf(xs + rows) == HighOf(xs) + if high then rows else []
  {
    hide HighOf;
    if rows == [] {
      assert xs + rows == xs;
    } else {
      var front, x := rows[..|rows| - 1], rows[|rows| - 1];
      HighOfRows(xs, front, high);
      HighOneMore(xs + front, x);
      assert xs + rows == xs + front + [x] && rows == front + [x];
    }
  }

  /** Two outcomes with the same context evidence. */
  predicate SameContext(s: Outcome, o: Outcome) {
    && s.references == o.references && s.unresolved == o.unresolved
    && (ConfidenceOf(s.how) == High || ConfidenceOf(o.how) == High ==> s == o)
  }

  /** Two tables with the same high-confidence correlations and the same reference counts. */
  predicate SameHigh(t: Table, u: Table) {
    && HighOf(t.correlations) == HighOf(u.correlations)
    && t.contextReferences == u.contextReferences && t.unresolvedReferences == u.unresolvedReferences
  }

  lemma HighOfOutcome(t: Table, spans: seq<Span>, ci: nat, o: Outcome)
    requires ci < |spans| && InBounds(spans, o.matches)
    ensures HighOf(AddOutcome(t, spans, ci, o).correlations)
            == HighOf(t.correlations) + if ConfidenceOf(o.how) == High then Rows(spans, o.matches, ci, o.how) else []
  {
    hide HighOf, ConfidenceOf;
    var rows := Rows(spans, o.matches, ci, o.how);
    HighOfRows(t.correlations, rows, ConfidenceOf(o.how) == High);
    if o.matches == [] {
      assert rows == [];
    }
  }

  lemma OutcomeKeepsSame(t: Table, u: Table, spans: seq<Span>, ci: nat, o: Outcome, s: Outcome)
    requires ci < |spans| && InBounds(spans, o.matches) && InBounds(spans, s.matches)
    requires SameHigh(t, u) && SameContext(s, o)
    ensures SameHigh(AddOutcome(t, spans, ci, o), AddOutcome(u, spans, ci, s))
  {
    HighOfOutcome(t, spans, ci, o);
    HighOfOutcome(u, spans, ci, s);
    hide HighOf, Rows, ConfidenceOf;
  }
}
