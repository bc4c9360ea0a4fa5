/** The metrics of successive reports: violations counted when first seen, gauges of the latest. */
module ReportMetrics {
  import opened Text
  import opened Counting
  import opened Totals
  import opened Findings
  import opened Engine

  // ---------- Fingerprints ----------

  function FingerprintParts(f: Finding): (parts: seq<string>)
    ensures |parts| == 9
  {
    [f.ruleId, Join(f.traceIds, ','), Join(f.spanIds, ','), f.producerService, f.consumerService,
     f.system, f.destination, f.consumerGroup, f.subscription]
  }

  function Fingerprint(f: Finding): string { Join(FingerprintParts(f), '|') }

  /** The text fields of a finding hold no separator, and it names no empty id. */
  predicate Separable(f: Finding) {
    && Free(f.traceIds, '|') && Free(f.traceIds, ',') && Free(f.spanIds, '|') && Free(f.spanIds, ',')
    && "" !in f.traceIds && "" !in f.spanIds
    && Free([f.ruleId, f.producerService, f.consumerService, f.system, f.destination, f.consumerGroup, f.subscription],
            '|')
  }

  /** The findings agree in all that a fingerprint is made from. */
  predicate SameSubject(f: Finding, g: Finding) {
    && f.ruleId == g.ruleId && f.traceIds == g.traceIds && f.spanIds == g.spanIds
    && f.producerService == g.producerService && f.consumerService == g.consumerService
    && f.system == g.system && f.destination == g.destination
    && f.consumerGroup == g.consumerGroup && f.subscription == g.subscription
  }

  lemma {:induction false} JoinFree(parts: seq<string>, sep: char, c: char)
    requires Free(parts, c) && c != sep
    ensures c !in Join(parts, sep)
  {
    if |parts| >= 2 { JoinFree(parts[1..], sep, c); }
  }

  lemma PartsFree(f: Finding)
    requires Separable(f)
    ensures Free(FingerprintParts(f), '|')
  {
    JoinFree(f.traceIds, ',', '|');
    JoinFree(f.spanIds, ',', '|');
    hide Join;
    var fields := [f.ruleId, f.producerService, f.consumerService, f.system, f.destination, f.consumerGroup,
                   f.subscription];
    assert '|' !in fields[0] && '|' !in fields[1] && '|' !in fields[2] && '|' !in fields[3]
           && '|' !in fields[4] && '|' !in fields[5] && '|' !in fields[6];
  }

  lemma PartsTell(f: Finding, g: Finding)
    requires Separable(f) && Separable(g) && FingerprintParts(f) == FingerprintParts(g)
    ensures SameSubject(f, g)
  {
    var p, q := FingerprintParts(f), FingerprintParts(g);
    assert p[0] == q[0] && p[1] == q[1] && p[2] == q[2] && p[3] == q[3] && p[4] == q[4];
    assert p[5] == q[5] && p[6] == q[6] && p[7] == q[7] && p[8] == q[8];
    JoinListInjective(f.traceIds, g.traceIds, ',');
    JoinListInjective(f.spanIds, g.spanIds, ',');
  }

  /** A fingerprint identifies what the finding is about, if no field holds a separator. */
  lemma FingerprintInjective(f: Finding, g: Finding)
    requires Separable(f) && Separable(g)
    ensures Fingerprint(f) == Fingerprint(g) <==> SameSubject(f, g)
  {
    if Fingerprint(f) == Fingerprint(g) {
      PartsFree(f);
      PartsFree(g);
      hide Join, Separable, FingerprintParts;
      JoinInjective(FingerprintParts(f), FingerprintParts(g), '|');
      PartsTell(f, g);
    }
  }

  /** Without the condition one fingerprint may stand for two subjects. */
  lemma FingerprintAmbiguous(f: Finding)
    ensures Fingerprint(f.(traceIds := ["a,b"])) == Fingerprint(f.(traceIds := ["a", "b"]))
  {
    assert Join(["a", "b"], ',') == "a" + [','] + Join(["b"], ',') == "a,b" == Join(["a,b"], ',');
  }

  // ---------- The builder ----------

  lemma {:induction false} JoinOneMore(parts: seq<string>, x: string, sep: char)
    ensures Join(parts + [x], sep) == Join(parts, sep) + (if parts == [] then "" else [sep]) + x
  {
    if |parts| == 1 {
      assert (parts + [x])[1..] == [x];
    } else if |parts| > 1 {
      assert (parts + [x])[1..] == parts[1..] + [x];
      JoinOneMore(parts[1..], x, sep);
    }
  }

  method WriteIds(before: string, ids: seq<string>) returns (b: string)
    ensures b == before + Join(ids, ',')
  {
    b := before;
    for i := 0 to |ids|
      invariant b == before + Join(ids[..i], ',')
    {
      JoinOneMore(ids[..i], ids[i], ',');
      assert ids[..i + 1] == ids[..i] + [ids[i]];
      hide Join;
      if i > 0 {
        b := b + [','];
      }
      b := b + ids[i];
    }
    assert ids[..|ids|] == ids;
  }

  lemma NineParts(p: seq<string>, sep: char)
    requires |p| == 9
    ensures p[0] + [sep] + p[1] + [sep] + p[2] + [sep] + p[3] + [sep] + p[4] + [sep] + p[5] + [sep] + p[6] + [sep]
              + p[7] + [sep] + p[8]
            == Join(p, sep)
  {
    hide *;
    assert p[..1] == [p[0]] && p[..9] == p;
    JoinOne(p[0], sep);
    JoinUpTo(p, 1, sep);
    JoinUpTo(p, 2, sep);
    JoinUpTo(p, 3, sep);
    JoinUpTo(p, 4, sep);
    JoinUpTo(p, 5, sep);
    JoinUpTo(p, 6, sep);
    JoinUpTo(p, 7, sep);
    JoinUpTo(p, 8, sep);
  }

  lemma JoinOne(x: string, sep: char)
    ensures Join([x], sep) == x
  {}

  lemma JoinUpTo(p: seq<string>, k: nat, sep: char)
    requires 0 < k < |p|
    ensures Join(p[..k + 1], sep) == Join(p[..k], sep) + [sep] + p[k]
  {
    hide Join;
    JoinOneMore(p[..k], p[k], sep);
    assert p[..k + 1] == p[..k] + [p[k]];
  }

  method WriteFingerprint(f: Finding) returns (b: string)
    ensures b == Fingerprint(f)
  {
    NineParts(FingerprintParts(f), '|');
    hide Join;
    b := f.ruleId + "|";
    b := WriteIds(b, f.traceIds);
    b := b + "|";
    b := WriteIds(b, f.spanIds);
    b := b + "|" + f.producerService + "|" + f.consumerService + "|" + f.system + "|" + f.destination
         + "|" + f.consumerGroup + "|" + f.subscription;
  }

  // ---------- Violations: counted when first seen ----------

  ghost function Fingerprints(fs: seq<Finding>): set<string> { set f | f in fs :: Fingerprint(f) }

  /** The previous report has no such fingerprint. */
  function Unseen(previous: set<string>): Finding -> bool { (f: Finding) => Fingerprint(f) !in previous }

  function UnseenUnder(previous: set<string>, rule: string, severity: string): Finding -> bool {
    (f: Finding) => Fingerprint(f) !in previous && f.ruleId == rule && f.severity == severity
  }

  function UnseenRule(previous: set<string>, rule: string): Finding -> bool {
    (f: Finding) => Fingerprint(f) !in previous && f.ruleId == rule
  }

  /** What a sequence of reports adds to the violation counters: report by report, the findings whose
      fingerprint the report before did not have. */
  ghost function Counted(previous: set<string>, reports: seq<seq<Finding>>): nat
    decreases reports
  {
    if reports == [] then 0
    else CountIf(reports[0], Unseen(previous)) + Counted(Fingerprints(reports[0]), reports[1..])
  }

  /** Observing a report again counts nothing. */
  lemma {:induction false} AgainAddsNothing(fs: seq<Finding>, previous: set<string>)
    requires Fingerprints(fs) <= previous
    ensures CountIf(fs, Unseen(previous)) == 0
  {
    if fs != [] {
      hide Fingerprint;
      var front, f := fs[..|fs| - 1], fs[|fs| - 1];
      assert fs == front + [f];
      assert Fingerprint(f) in Fingerprints(fs);
      assert Fingerprints(front) <= Fingerprints(fs);
      AgainAddsNothing(front, previous);
    }
  }

  /** One finding was seen before, but not in the previous report. */
  ghost predicate Recounts(previous: set<string>, known: set<string>, fs: seq<Finding>) {
    exists i :: 0 <= i < |fs| && Fingerprint(fs[i]) !in previous && Fingerprint(fs[i]) in known + Fingerprints(fs[..i])
  }

  /** Counts a finding that came up earlier: twice within a report, or again after a report without it. */
  ghost predicate EverRecounts(previous: set<string>, known: set<string>, reports: seq<seq<Finding>>)
    decreases reports
  {
    reports != [] &&
    (Recounts(previous, known, reports[0])
        || EverRecounts(Fingerprints(reports[0]), known + Fingerprints(reports[0]), reports[1..]))
  }

  ghost function AllFingerprints(reports: seq<seq<Finding>>): set<string> {
    if reports == [] then {} else Fingerprints(reports[0]) + AllFingerprints(reports[1..])
  }

  lemma NoFingerprints()
    ensures Fingerprints([]) == {}
  {}

  lemma FingerprintsOneMore(fs: seq<Finding>, f: Finding)
    ensures Fingerprints(fs + [f]) == Fingerprints(fs) + {Fingerprint(f)}
  {
    hide Fingerprint;
    assert forall g :: g in fs + [f] <==> g in fs || g == f;
  }

  lemma RecountsOneMore(previous: set<string>, known: set<string>, fs: seq<Finding>, f: Finding)
    ensures Recounts(previous, known, fs + [f])
            <==> || Recounts(previous, known, fs)
                 || (Fingerprint(f) !in previous && Fingerprint(f) in known + Fingerprints(fs))
  {
    hide Fingerprint, Fingerprints;
    var more := fs + [f];
    assert more[..|fs|] == fs && more[|fs|] == f;
    assert forall i :: 0 <= i < |fs| ==> more[i] == fs[i] && more[..i] == fs[..i];
    if Recounts(previous, known, fs) {
      var i :| 0 <= i < |fs| && Fingerprint(fs[i]) !in previous && Fingerprint(fs[i]) in known + Fingerprints(fs[..i]);
      assert Fingerprint(more[i]) !in previous && Fingerprint(more[i]) in known + Fingerprints(more[..i]);
    }
  }

  lemma SizeOneMore<T>(s: set<T>, x: T)
    ensures |s + {x}| == |s| + if x in s then 0 else 1
  {
    if x in s { assert s + {x} == s; }
  }

  /** How many fingerprints there are, with those of the report. */
  ghost function Size(known: set<string>, fs: seq<Finding>): nat { |known + Fingerprints(fs)| }

  lemma SizeGrows(known: set<string>, fs: seq<Finding>, f: Finding)
    ensures Size(known, fs + [f]) == Size(known, fs) + if Fingerprint(f) in known + Fingerprints(fs) then 0 else 1
  {
    hide Fingerprint, Fingerprints;
    FingerprintsOneMore(fs, f);
    SizeOneMore(known + Fingerprints(fs), Fingerprint(f));
    assert known + Fingerprints(fs + [f]) == known + Fingerprints(fs) + {Fingerprint(f)};
  }

  lemma EmptyReport(previous: set<string>, known: set<string>)
    ensures Size(known, []) == |known| && CountIf([], Unseen(previous)) == 0 && !Recounts(previous, known, [])
  {
    assert known + Fingerprints([]) == known;
  }

  /** One report counts at least its new fingerprints, and exactly those unless it recounts. */
  lemma {:induction false} OneReportCounts(previous: set<string>, known: set<string>, fs: seq<Finding>)
    requires previous <= known
    ensures Size(known, fs) <= |known| + CountIf(fs, Unseen(previous))
    ensures Size(known, fs) == |known| + CountIf(fs, Unseen(previous)) <==> !Recounts(previous, known, fs)
  {
    hide Fingerprint, Fingerprints, Recounts, CountIf, Size;
    if fs == [] {
      EmptyReport(previous, known);
    } else {
      var front, f := fs[..|fs| - 1], fs[|fs| - 1];
      OneReportCounts(previous, known, front);
      assert fs == front + [f];
      CountAppend(front, f, Unseen(previous));
      RecountsOneMore(previous, known, front, f);
      SizeGrows(known, front, f);
    }
  }

  /** Over any sequence of reports the violation count is at least the number of distinct fingerprints, and is that
      number exactly when no fingerprint occurs twice in a report that introduces it nor comes back after a gap. */
  lemma {:induction false} CountedOncePerFingerprint(previous: set<string>, known: set<string>,
                                                     reports: seq<seq<Finding>>)
    requires previous <= known
    ensures |known + AllFingerprints(reports)| <= |known| + Counted(previous, reports)
    ensures |known + AllFingerprints(reports)| == |known| + Counted(previous, reports)
            <==> !EverRecounts(previous, known, reports)
    decreases reports
  {
    if reports == [] {
      assert known + AllFingerprints(reports) == known;
    } else {
      hide Fingerprints, Recounts, CountIf;
      var now := Fingerprints(reports[0]);
      OneReportCounts(previous, known, reports[0]);
      CountedOncePerFingerprint(now, known + now, reports[1..]);
      assert known + AllFingerprints(reports) == known + now + AllFingerprints(reports[1..]);
    }
  }

  lemma CountedStep(previous: set<string>, fs: seq<Finding>, rest: seq<seq<Finding>>)
    ensures Counted(previous, [fs] + rest) == CountIf(fs, Unseen(previous)) + Counted(Fingerprints(fs), rest)
    ensures AllFingerprints([fs] + rest) == Fingerprints(fs) + AllFingerprints(rest)
  {
    hide CountIf, Fingerprints;
    assert ([fs] + rest)[1..] == rest;
  }

  lemma OneFinding(previous: set<string>, f: Finding)
    ensures Fingerprints([f]) == {Fingerprint(f)}
              && CountIf([f], Unseen(previous)) == if Fingerprint(f) in previous then 0 else 1
  {
    hide Fingerprint;
    assert [f][..0] == [];
  }

  /** A finding that disappears for one report and comes back is counted twice. */
  lemma ReappearanceRecounted(f: Finding, reports: seq<seq<Finding>>)
    requires reports == [[f], [], [f]]
    ensures Counted({}, reports) == 2 && AllFingerprints(reports) == {Fingerprint(f)}
  {
    assert reports == [[f]] + ([[]] + ([[f]] + []));
    CountedStep({Fingerprint(f)}, [], [[f]] + []);
    CountedStep({}, [f], []);
    CountedStep({}, [f], [[]] + ([[f]] + []));
    OneFinding({}, f);
    assert Fingerprints([]) == {} && CountIf([], Unseen({Fingerprint(f)})) == 0;
    assert Counted({Fingerprint(f)}, []) == 0 && AllFingerprints([]) == {};
    hide Fingerprint, Counted, AllFingerprints, CountIf, Fingerprints;
  }

  // ---------- Gauges ----------

  function LabelKey(f: Finding): string { f.ruleId + ['\0'] + f.severity }

  function LabelKeyOf(): Finding -> string { (f: Finding) => LabelKey(f) }

  /** The first two parts of strings.Split at NUL, which become the labels. */
  function Labels(key: string): (string, string) {
    var i := IndexByte(key, '\0');
    if i == -1 then (key, "")
    else
      var rest := key[i + 1..];
      var j := IndexByte(rest, '\0');
      (key[..i], if j == -1 then rest else rest[..j])
  }

  /** Different label keys of the report give different labels. */
  predicate LabelsTell(fs: seq<Finding>) {
    forall i, j :: 0 <= i < |fs| && 0 <= j < |fs| && Labels(LabelKey(fs[i])) == Labels(LabelKey(fs[j])) ==>
        LabelKey(fs[i]) == LabelKey(fs[j])
  }

  /** Without NUL the labels are rule and severity, and tell. */
  lemma LabelsExact(f: Finding)
    requires '\0' !in f.ruleId && '\0' !in f.severity
    ensures Labels(LabelKey(f)) == (f.ruleId, f.severity)
  {
    FirstSeparator(f.ruleId, f.severity, '\0');
    var key := LabelKey(f);
    hide IndexByte;
    assert key[..|f.ruleId|] == f.ruleId && key[|f.ruleId| + 1..] == f.severity;
    assert IndexByte(f.severity, '\0') == -1;
  }

  ghost predicate LabelKeysTell(keys: set<string>) {
    forall a, b :: a in keys && b in keys && Labels(a) == Labels(b) ==> a == b
  }

  ghost function LabelKeys(fs: seq<Finding>): set<string> { set f | f in fs :: LabelKey(f) }

  lemma LabelsTellKeys(fs: seq<Finding>)
    ensures LabelsTell(fs) <==> LabelKeysTell(LabelKeys(fs))
  {
    hide Labels, LabelKey;
    if LabelsTell(fs) {
      forall a, b | a in LabelKeys(fs) && b in LabelKeys(fs) && Labels(a) == Labels(b) ensures a == b {
        var f :| f in fs && LabelKey(f) == a;
        var g :| g in fs && LabelKey(g) == b;
        var i :| 0 <= i < |fs| && fs[i] == f;
        var j :| 0 <= j < |fs| && fs[j] == g;
      }
    }
    if LabelKeysTell(LabelKeys(fs)) {
      forall i, j | 0 <= i < |fs| && 0 <= j < |fs| && Labels(LabelKey(fs[i])) == Labels(LabelKey(fs[j]))
        ensures LabelKey(fs[i]) == LabelKey(fs[j])
      {
        assert LabelKey(fs[i]) in LabelKeys(fs) && LabelKey(fs[j]) in LabelKeys(fs);
      }
    }
  }

  /** Every label shows the count of some key with that label; the sum falls short exactly when keys share labels. */
  ghost predicate Gauged(done: map<string, nat>, gauges: map<(string, string), nat>) {
    && (forall k :: k in done ==> Labels(k) in gauges)
    && (forall l :: l in gauges ==> gauges[l] >= 1 && exists k :: k in done && Labels(k) == l && done[k] == gauges[l])
    && Total(gauges) <= Total(done)
    && (Total(gauges) == Total(done) <==> LabelKeysTell(done.Keys))
  }

  lemma GaugedOneMore(done: map<string, nat>, gauges: map<(string, string), nat>, k: string, n: nat)
    requires Gauged(done, gauges) && k !in done && n >= 1
    ensures Gauged(done[k := n], gauges[Labels(k) := n])
  {
    hide Labels, Total;
    TotalUpdate(done, k, n);
    TotalUpdate(gauges, Labels(k), n);
    assert done[k := n].Keys == done.Keys + {k};
    if Labels(k) in gauges {
      var a :| a in done && Labels(a) == Labels(k);
      assert !LabelKeysTell(done[k := n].Keys);
    }
    forall l | l in gauges && l != Labels(k)
      ensures exists a :: a in done[k := n] && Labels(a) == l && done[k := n][a] == gauges[l]
    {
      var a :| a in done && Labels(a) == l && done[a] == gauges[l];
      assert a in done[k := n];
    }
    assert k in done[k := n] && done[k := n][k] == n;
  }

  lemma OneKeyLess(active: map<string, nat>, todo: set<string>, k: string)
    requires k in todo && todo <= active.Keys
    ensures active - (todo - {k}) == (active - todo)[k := active[k]]
  {}

  /** The gauges, key by key in whatever order the map yields them. */
  method SetGauges(active: map<string, nat>) returns (gauges: map<(string, string), nat>)
    requires forall k :: k in active ==> active[k] >= 1
    ensures Gauged(active, gauges)
  {
    gauges := map[];
    var todo := active.Keys;
    hide Gauged, Labels;
    NothingGauged();
    assert active - todo == map[];
    while todo != {}
      invariant todo <= active.Keys && Gauged(active - todo, gauges)
      decreases todo
    {
      var k :| k in todo;
      OneKeyLess(active, todo, k);
      GaugedOneMore(active - todo, gauges, k, active[k]);
      gauges := gauges[Labels(k) := active[k]];
      todo := todo - {k};
    }
    assert active - todo == active;
  }

  lemma NothingGauged()
    ensures Gauged(map[], map[])
  {}

  function Under(rule: string, severity: string): Finding -> bool {
    (f: Finding) => f.ruleId == rule && f.severity == severity
  }

  predicate NulFreeLabels(fs: seq<Finding>) {
    forall i :: 0 <= i < |fs| ==> '\0' !in fs[i].ruleId && '\0' !in fs[i].severity
  }

  ghost function ActiveCounts(fs: seq<Finding>): map<string, nat> { KeyCounts(fs, LabelKeyOf(), LabelKeys(fs)) }

  lemma ActiveSum(fs: seq<Finding>)
    ensures Total(ActiveCounts(fs)) == |fs| && ActiveCounts(fs).Keys == LabelKeys(fs)
  {
    KeyCountsSum(fs, LabelKeyOf(), LabelKeys(fs));
  }

  /** The gauges sum to the number of findings exactly when no two label keys are split into the same labels. */
  lemma GaugesSum(fs: seq<Finding>, gauges: map<(string, string), nat>)
    requires Gauged(ActiveCounts(fs), gauges)
    ensures Total(gauges) <= |fs|
    ensures Total(gauges) == |fs| <==> LabelsTell(fs)
  {
    ActiveSum(fs);
    LabelsTellKeys(fs);
    hide Total, LabelKeysTell, LabelsTell;
  }

  /** Without NUL in rule ids and severities each gauge is the number of findings with its labels. */
  lemma GaugesExact(fs: seq<Finding>, gauges: map<(string, string), nat>, rule: string, severity: string)
    requires Gauged(ActiveCounts(fs), gauges) && NulFreeLabels(fs)
    ensures Read(gauges, (rule, severity)) == CountIf(fs, Under(rule, severity))
  {
    var l := (rule, severity);
    forall i | 0 <= i < |fs| ensures Labels(LabelKey(fs[i])) == (fs[i].ruleId, fs[i].severity) {
      LabelsExact(fs[i]);
    }
    hide Labels, Total, LabelKeysTell;
    if l in gauges {
      var k :| k in ActiveCounts(fs) && Labels(k) == l && ActiveCounts(fs)[k] == gauges[l];
      var f :| f in fs && LabelKey(f) == k;
      assert f.ruleId == rule && f.severity == severity;
      forall i | 0 <= i < |fs| ensures HasKey(LabelKeyOf(), k)(fs[i]) == Under(rule, severity)(fs[i]) {
        if LabelKey(fs[i]) == k {
          assert Labels(k) == (fs[i].ruleId, fs[i].severity);
        }
      }
      CountSame(fs, HasKey(LabelKeyOf(), k), Under(rule, severity));
    } else {
      forall i | 0 <= i < |fs| ensures !Under(rule, severity)(fs[i]) {
        assert fs[i] in fs && LabelKey(fs[i]) in ActiveCounts(fs);
      }
      NoneCounted(fs, Under(rule, severity));
    }
  }

  // ---------- The counters ----------

  function Read(m: map<(string, string), nat>, l: (string, string)): nat { if l in m then m[l] else 0 }

  datatype Counters = Counters(violations: map<(string, string), nat>, brokenLinks: nat, orphanProducers: nat,
                               orphanConsumers: nat)

  /** The violations by label after findings whose unseen ones were counted. */
  ghost predicate LabelsRaised(before: map<(string, string), nat>, after: map<(string, string), nat>,
                               previous: set<string>, fs: seq<Finding>)
  {
    && (forall rule, severity ::
          Read(after, (rule, severity))
          == Read(before, (rule, severity)) + CountIf(fs, UnseenUnder(previous, rule, severity)))
    && Total(after) == Total(before) + CountIf(fs, Unseen(previous))
  }

  ghost predicate RuleRaised(before: nat, after: nat, previous: set<string>, rule: string, fs: seq<Finding>) {
    after == before + CountIf(fs, UnseenRule(previous, rule))
  }

  ghost predicate Raised(before: Counters, after: Counters, previous: set<string>, fs: seq<Finding>) {
    && LabelsRaised(before.violations, after.violations, previous, fs)
    && RuleRaised(before.brokenLinks, after.brokenLinks, previous, "ATD-CTX-001", fs)
    && RuleRaised(before.orphanProducers, after.orphanProducers, previous, "ATD-COR-001", fs)
    && RuleRaised(before.orphanConsumers, after.orphanConsumers, previous, "ATD-COR-002", fs)
  }

  /** What one unseen finding does to the counters. */
  function Raise(c: Counters, f: Finding): Counters {
    var l := (f.ruleId, f.severity);
    Counters(c.violations[l := Read(c.violations, l) + 1],
             if f.ruleId == "ATD-CTX-001" then c.brokenLinks + 1 else c.brokenLinks,
             if f.ruleId == "ATD-COR-001" then c.orphanProducers + 1 else c.orphanProducers,
             if f.ruleId == "ATD-COR-002" then c.orphanConsumers + 1 else c.orphanConsumers)
  }

  /** The violations by label after one more finding. */
  function Labelled(after: map<(string, string), nat>, previous: set<string>, f: Finding): map<(string, string), nat>
  {
    var l := (f.ruleId, f.severity);
    if Fingerprint(f) in previous then after else after[l := Read(after, l) + 1]
  }

  lemma LabelOneMore(after: map<(string, string), nat>, previous: set<string>, fs: seq<Finding>, f: Finding,
                     rule: string, severity: string)
    ensures Read(Labelled(after, previous, f), (rule, severity)) + CountIf(fs, UnseenUnder(previous, rule, severity))
         == Read(after, (rule, severity)) + CountIf(fs + [f], UnseenUnder(previous, rule, severity))
  {
    hide CountIf, Fingerprint;
    CountAppend(fs, f, UnseenUnder(previous, rule, severity));
  }

  lemma LabelsTotalOneMore(after: map<(string, string), nat>, previous: set<string>, fs: seq<Finding>, f: Finding)
    ensures Total(Labelled(after, previous, f)) + CountIf(fs, Unseen(previous))
         == Total(after) + CountIf(fs + [f], Unseen(previous))
  {
    var l := (f.ruleId, f.severity);
    TotalUpdate(after, l, Read(after, l) + 1);
    hide CountIf, Total, Fingerprint;
    CountAppend(fs, f, Unseen(previous));
  }

  lemma LabelsOneMore(before: map<(string, string), nat>, after: map<(string, string), nat>, previous: set<string>,
                      fs: seq<Finding>, f: Finding)
    requires LabelsRaised(before, after, previous, fs)
    ensures LabelsRaised(before, Labelled(after, previous, f), previous, fs + [f])
  {
    hide CountIf, Total, Read, Labelled, Unseen, UnseenUnder;
    LabelsTotalOneMore(after, previous, fs, f);
    forall rule, severity
      ensures Read(Labelled(after, previous, f), (rule, severity))
           == Read(before, (rule, severity)) + CountIf(fs + [f], UnseenUnder(previous, rule, severity))
    {
      LabelOneMore(after, previous, fs, f, rule, severity);
    }
  }

  lemma RuleOneMore(before: nat, after: nat, previous: set<string>, rule: string, fs: seq<Finding>, f: Finding)
    requires RuleRaised(before, after, previous, rule, fs)
    ensures RuleRaised(before, if Fingerprint(f) !in previous && f.ruleId == rule then after + 1 else after,
                       previous, rule, fs + [f])
  {
    CountAppend(fs, f, UnseenRule(previous, rule));
  }

  lemma RaisedOneMore(before: Counters, after: Counters, previous: set<string>, fs: seq<Finding>, f: Finding)
    requires Raised(before, after, previous, fs)
    ensures Raised(before, if Fingerprint(f) in previous then after else Raise(after, f), previous, fs + [f])
  {
    hide LabelsRaised, RuleRaised, Read, Fingerprint;
    LabelsOneMore(before.violations, after.violations, previous, fs, f);
    RuleOneMore(before.brokenLinks, after.brokenLinks, previous, "ATD-CTX-001", fs, f);
    RuleOneMore(before.orphanProducers, after.orphanProducers, previous, "ATD-COR-001", fs, f);
    RuleOneMore(before.orphanConsumers, after.orphanConsumers, previous, "ATD-COR-002", fs, f);
  }

  lemma NothingRaised(c: Counters, previous: set<string>)
    ensures Raised(c, c, previous, [])
  {}

  function Incremented(m: map<string, nat>, k: string): map<string, nat> { m[k := (if k in m then m[k] else 0) + 1] }

  lemma ActiveOneMore(fs: seq<Finding>, f: Finding)
    ensures ActiveCounts(fs + [f]) == Incremented(ActiveCounts(fs), LabelKey(f))
  {
    hide LabelKey, CountIf;
    var k := LabelKey(f);
    assert forall g :: g in fs + [f] <==> g in fs || g == f;
    assert LabelKeys(fs + [f]) == LabelKeys(fs) + {k};
    forall x ensures CountIf(fs + [f], HasKey(LabelKeyOf(), x))
        == CountIf(fs, HasKey(LabelKeyOf(), x)) + if x == k then 1 else 0 {
      CountAppend(fs, f, HasKey(LabelKeyOf(), x));
    }
    if k !in LabelKeys(fs) {
      forall i | 0 <= i < |fs| ensures !HasKey(LabelKeyOf(), k)(fs[i]) {
        assert fs[i] in fs;
      }
      NoneCounted(fs, HasKey(LabelKeyOf(), k));
    }
  }

  lemma ActivePositive(fs: seq<Finding>)
    ensures forall k :: k in ActiveCounts(fs) ==> ActiveCounts(fs)[k] >= 1
  {
    hide LabelKey, CountIf;
    forall k | k in ActiveCounts(fs) ensures ActiveCounts(fs)[k] >= 1 {
      var f :| f in fs && LabelKey(f) == k;
      var i :| 0 <= i < |fs| && fs[i] == f;
      CountedOnce(fs, HasKey(LabelKeyOf(), k), i);
    }
  }

  /** The samples the histogram takes, in order: those that are not negative. */
  function NonNegative(samples: seq<int>): (r: seq<int>)
    ensures forall x :: x in r <==> x in samples && x >= 0
  {
    if samples == [] then []
    else
      var front, x := samples[..|samples| - 1], samples[|samples| - 1];
      assert samples == front + [x];
      NonNegative(front) + if x >= 0 then [x] else []
  }

  /** The counters and gauges as plain numbers. */
  class Metrics {
    var auditRuns: nat
    var counters: Counters
    var activeFindings: map<(string, string), nat>
    var completeness: real
    // the values the histogram observed
    var queueLatency: seq<int>
    var activeFingerprints: set<string>

    constructor ()
      ensures auditRuns == 0 && completeness == 0.0 && queueLatency == [] && counters == Counters(map[], 0, 0, 0)
      ensures activeFindings == map[] && activeFingerprints == {}
    {
      auditRuns, completeness, queueLatency, counters := 0, 0.0, [], Counters(map[], 0, 0, 0);
      activeFindings, activeFingerprints := map[], {};
    }

    method CountViolation(f: Finding)
      modifies this`counters
      ensures counters == Raise(old(counters), f)
    {
      var l := (f.ruleId, f.severity);
      counters := counters.(violations := counters.violations[l := Read(counters.violations, l) + 1]);
      if f.ruleId == "ATD-CTX-001" {
        counters := counters.(brokenLinks := counters.brokenLinks + 1);
      } else if f.ruleId == "ATD-COR-001" {
        counters := counters.(orphanProducers := counters.orphanProducers + 1);
      } else if f.ruleId == "ATD-COR-002" {
        counters := counters.(orphanConsumers := counters.orphanConsumers + 1);
      }
    }

    method ObserveLatencies(samples: seq<int>)
      modifies this`queueLatency
      ensures queueLatency == old(queueLatency) + NonNegative(samples)
    {
      for i := 0 to |samples|
        invariant queueLatency == old(queueLatency) + NonNegative(samples[..i])
      {
        assert samples[..i + 1][..i] == samples[..i];
        if samples[i] >= 0 {
          queueLatency := queueLatency + [samples[i]];
        }
      }
      assert samples[..|samples|] == samples;
    }

    /** Counts the findings that the previous report did not have; returns the counts by label key. */
    method CountFindings(fs: seq<Finding>) returns (active: map<string, nat>, currentFingerprints: set<string>)
      modifies this`counters
      ensures active == ActiveCounts(fs) && currentFingerprints == Fingerprints(fs)
      ensures Raised(old(counters), counters, activeFingerprints, fs)
    {
      active, currentFingerprints := map[], {};
      NothingRaised(counters, activeFingerprints);
      assert fs[..0] == [];
      assert ActiveCounts([]) == map[];
      hide Raised, Raise, ActiveCounts, Fingerprint, Fingerprints, LabelKey, Incremented;
      assert Fingerprints([]) == {} by { NoFingerprints(); }
      for i := 0 to |fs|
        invariant active == ActiveCounts(fs[..i]) && currentFingerprints == Fingerprints(fs[..i])
        invariant Raised(old(counters), counters, activeFingerprints, fs[..i])
      {
        var f := fs[i];
        assert fs[..i + 1] == fs[..i] + [f];
        ActiveOneMore(fs[..i], f);
        FingerprintsOneMore(fs[..i], f);
        RaisedOneMore(old(counters), counters, activeFingerprints, fs[..i], f);
        var labelKey := LabelKey(f);
        active := Incremented(active, labelKey);
        var fingerprint := WriteFingerprint(f);
        currentFingerprints := currentFingerprints + {fingerprint};
        if fingerprint !in activeFingerprints {
          CountViolation(f);
        }
      }
      assert fs[..|fs|] == fs;
    }

    method Observe(report: Report)
      modifies this
      ensures auditRuns == old(auditRuns) + 1
      ensures Raised(old(counters), counters, old(activeFingerprints), report.findings)
      ensures activeFingerprints == Fingerprints(report.findings)
      ensures Gauged(ActiveCounts(report.findings), activeFindings)
      ensures completeness == report.summary.contextCompleteness
      ensures queueLatency == old(queueLatency) + NonNegative(report.queueLatencies)
    {
      hide Raised, Gauged, ActiveCounts, Fingerprints;
      auditRuns := auditRuns + 1;
      completeness := report.summary.contextCompleteness;
      var active, currentFingerprints := CountFindings(report.findings);
      activeFingerprints := currentFingerprints;
      ActivePositive(report.findings);
      activeFindings := SetGauges(active);
      ObserveLatencies(report.queueLatencies);
    }
  }

  function FindingsIn(reports: seq<Report>): seq<seq<Finding>> {
    seq(|reports|, i requires 0 <= i < |reports| => reports[i].findings)
  }

  ghost function Remaining(previous: set<string>, reports: seq<Report>, i: nat): nat
    requires i <= |reports|
  {
    Counted(previous, FindingsIn(reports)[i..])
  }

  lemma RemainingStep(previous: set<string>, reports: seq<Report>, i: nat)
    requires i < |reports|
    ensures Remaining(previous, reports, i)
            == CountIf(reports[i].findings, Unseen(previous))
                + Remaining(Fingerprints(reports[i].findings), reports, i + 1)
  {
    hide CountIf, Fingerprints;
    var fss := FindingsIn(reports);
    assert fss[i..][0] == reports[i].findings && fss[i..][1..] == fss[i + 1..];
  }

  /** Over any sequence of reports the violation counters grow by the findings that the report before did not have. */
  method ObserveAll(metrics: Metrics, reports: seq<Report>)
    modifies metrics
    ensures Total(metrics.counters.violations)
            == old(Total(metrics.counters.violations)) + Counted(old(metrics.activeFingerprints), FindingsIn(reports))
    ensures metrics.auditRuns == old(metrics.auditRuns) + |reports|
  {
    hide Raised, Gauged, ActiveCounts, Total, Counted, CountIf, Remaining;
    NothingRemains(metrics.activeFingerprints, reports);
    for i := 0 to |reports|
      invariant Total(metrics.counters.violations) + Remaining(metrics.activeFingerprints, reports, i)
                == old(Total(metrics.counters.violations))
                    + Counted(old(metrics.activeFingerprints), FindingsIn(reports))
      invariant metrics.auditRuns == old(metrics.auditRuns) + i
    {
      RemainingStep(metrics.activeFingerprints, reports, i);
      ghost var before, previous := metrics.counters, metrics.activeFingerprints;
      metrics.Observe(reports[i]);
      RaisedTotal(before, metrics.counters, previous, reports[i].findings);
    }
    NothingRemains(metrics.activeFingerprints, reports);
  }

  lemma NothingRemains(previous: set<string>, reports: seq<Report>)
    ensures Remaining(previous, reports, |reports|) == 0
    ensures Remaining(previous, reports, 0) == Counted(previous, FindingsIn(reports))
  {
    assert FindingsIn(reports)[0..] == FindingsIn(reports);
  }

  lemma RaisedTotal(before: Counters, after: Counters, previous: set<string>, fs: seq<Finding>)
    requires Raised(before, after, previous, fs)
    ensures Total(after.violations) == Total(before.violations) + CountIf(fs, Unseen(previous))
  {}
}
