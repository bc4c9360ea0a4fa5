/** The rows of one consumer in a correlation table: they tell its outcome. */
module ConsumerRows {
  import opened Spans
  import opened Tables

  /** The correlations of one consumer, in order. */
  function RowsOf(xs: seq<Correlation>, ci: nat): seq<Correlation> {
    if xs == [] then []
    else RowsOf(xs[..|xs| - 1], ci) + if xs[|xs| - 1].consumer == ci then [xs[|xs| - 1]] else []
  }

  lemma RowsOneMore(xs: seq<Correlation>, x: Correlation, ci: nat)
    ensures RowsOf(xs + [x], ci) == RowsOf(xs, ci) + if x.consumer == ci then [x] else []
  {
    assert (xs + [x])[..|xs + [x]| - 1] == xs;
  }

  lemma {:induction false} RowsAppended(xs: seq<Correlation>, rows: seq<Correlation>, ci: nat, own: bool)
    requires forall k :: 0 <= k < |rows| ==> (rows[k].consumer == ci <==> own)
    ensures RowsOf(xs + rows, ci) == RowsOf(xs, ci) + if own then rows else []
  {
    hide RowsOf;
    if rows == [] {
      assert xs + rows == xs;
    } else {
      var front, x := rows[..|rows| - 1], rows[|rows| - 1];
      RowsAppended(xs, front, ci, own);
      RowsOneMore(xs + front, x, ci);
      assert xs + rows == xs + front + [x] && rows == front + [x];
    }
  }

  /** Entering an outcome adds its rows to its consumer's and to no other's. */
  lemma RowsEntered(t: Table, spans: seq<Span>, ci: nat, o: Outcome, of: nat)
    requires ci < |spans| && InBounds(spans, o.matches)
    ensures RowsOf(AddOutcome(t, spans, ci, o).correlations, of)
            == RowsOf(t.correlations, of) + if of == ci then Rows(spans, o.matches, ci, o.how) else []
  {
    hide RowsOf;
    var rows := Rows(spans, o.matches, ci, o.how);
    RowsAppended(t.correlations, rows, of, of == ci);
    if o.matches == [] {
      assert rows == [];
    }
  }

  /** Rows tell the matches, and the method if there are any. */
  lemma RowsTell(spans: seq<Span>, ci: nat, o: Outcome, s: Outcome)
    requires ci < |spans| && InBounds(spans, o.matches) && InBounds(spans, s.matches)
    requires Rows(spans, o.matches, ci, o.how) == Rows(spans, s.matches, ci, s.how)
    ensures o.matches == s.matches && (o.matches != [] ==> o.how == s.how)
  {
    var rows, others := Rows(spans, o.matches, ci, o.how), Rows(spans, s.matches, ci, s.how);
    assert |rows| == |o.matches| && |others| == |s.matches|;
    assert forall k :: 0 <= k < |rows| ==> rows[k].producer == o.matches[k] && rows[k].how == o.how;
    assert forall k :: 0 <= k < |others| ==> others[k].producer == s.matches[k] && others[k].how == s.how;
    assert forall k :: 0 <= k < |o.matches| ==> o.matches[k] == s.matches[k];
    if o.matches != [] {
      assert rows[0].how == others[0].how;
    }
  }
}
