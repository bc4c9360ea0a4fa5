/** Strings as the program uses them: case mapping, separators, hexadecimal
    identifiers and the library's lexicographic order. */
module Text {

  // ---------- Case mapping ----------

  // The three letters outside ASCII whose case mapping meets ASCII; all others map to themselves here.
  const LONG_S: char := '\U{017F}'
  const KELVIN: char := '\U{212A}'
  const DOTTED_I: char := '\U{0130}'

  /** strings.ToLower, one letter at a time: the long s has no lower-case form but itself. */
  function LowerChar(c: char): char {
    if 'A' <= c <= 'Z' then (c as int + 32) as char
    else if c == KELVIN then 'k'
    else if c == DOTTED_I then 'i'
    else c
  }

  /** The representative of a letter's simple-folding class, which strings.EqualFold compares;
      the dotted I folds to nothing else. */
  function FoldChar(c: char): char {
    if c == LONG_S then 's' else if c == DOTTED_I then c else LowerChar(c)
  }

  function ToLower(s: string): (r: string) {
    seq(|s|, i requires 0 <= i < |s| => LowerChar(s[i]))
  }

  predicate EqualFold(a: string, b: string) {
    |a| == |b| && forall i :: 0 <= i < |a| ==> FoldChar(a[i]) == FoldChar(b[i])
  }

  /** Both strings carry the long s at the same places. */
  predicate SameLongS(a: string, b: string) {
    |a| == |b| && forall i :: 0 <= i < |a| ==> (a[i] == LONG_S <==> b[i] == LONG_S)
  }

  /** Of strings equal under folding, those differ in lower case that carry the long s at different places. */
  lemma LowerAgrees(a: string, b: string)
    requires EqualFold(a, b)
    ensures ToLower(a) == ToLower(b) <==> SameLongS(a, b)
  {
    if SameLongS(a, b) {
      forall i | 0 <= i < |a| ensures LowerChar(a[i]) == LowerChar(b[i]) {
        assert FoldChar(a[i]) == FoldChar(b[i]);
      }
    } else {
      var i :| 0 <= i < |a| && !(a[i] == LONG_S <==> b[i] == LONG_S);
      assert ToLower(a)[i] != ToLower(b)[i] by { assert FoldChar(a[i]) == FoldChar(b[i]); }
    }
  }

  // ---------- Separators ----------

  /** strings.IndexByte: the first position of `c`, or -1. */
  function IndexByte(s: string, c: char): (r: int)
    ensures r == -1 ==> c !in s
    ensures r != -1 ==> 0 <= r < |s| && s[r] == c && c !in s[..r]
  {
    if s == [] then -1
    else if s[0] == c then 0
    else
      var r := IndexByte(s[1..], c);
      assert r != -1 ==> s[..r + 1] == [s[0]] + s[1..][..r];
      if r == -1 then -1 else r + 1
  }

  lemma {:induction false} FirstSeparator(a: string, x: string, sep: char)
    requires sep !in a
    ensures IndexByte(a + [sep] + x, sep) == |a|
  {
    if a != [] {
      FirstSeparator(a[1..], x, sep);
      assert (a + [sep] + x)[1..] == a[1..] + [sep] + x;
    }
  }

  /** A string splits at its first separator in one way only. */
  lemma SplitAtSeparator(a: string, x: string, b: string, y: string, sep: char)
    requires a + [sep] + x == b + [sep] + y
    requires sep !in a && sep !in b
    ensures a == b && x == y
  {
    var s, t := a + [sep] + x, b + [sep] + y;
    assert s[|a|] == sep && forall i :: 0 <= i < |a| ==> s[i] == a[i] != sep;
    assert t[|b|] == sep && forall i :: 0 <= i < |b| ==> t[i] == b[i] != sep;
    assert |a| == |b|;
    assert a == s[..|a|] && b == t[..|b|];
    assert x == s[|a| + 1..] && y == t[|b| + 1..];
  }

  /** strings.Join with a one-letter separator. */
  function Join(parts: seq<string>, sep: char): string {
    if |parts| == 0 then ""
    else if |parts| == 1 then parts[0]
    else parts[0] + [sep] + Join(parts[1..], sep)
  }

  predicate Free(parts: seq<string>, sep: char) {
    forall i :: 0 <= i < |parts| ==> sep !in parts[i]
  }

  /** A join holds its separator exactly between parts. */
  lemma {:induction false} JoinHasSeparator(parts: seq<string>, sep: char)
    requires Free(parts, sep)
    ensures sep in Join(parts, sep) <==> |parts| >= 2
  {
    if |parts| >= 2 {
      assert Join(parts, sep)[|parts[0]|] == sep;
    }
  }

  /** Joins of equally many separator-free parts are equal only for equal parts. */
  lemma {:induction false} JoinInjective(a: seq<string>, b: seq<string>, sep: char)
    requires |a| == |b| && Free(a, sep) && Free(b, sep)
    requires Join(a, sep) == Join(b, sep)
    ensures a == b
  {
    if |a| >= 2 {
      SplitAtSeparator(a[0], Join(a[1..], sep), b[0], Join(b[1..], sep), sep);
      JoinInjective(a[1..], b[1..], sep);
      assert a == [a[0]] + a[1..] && b == [b[0]] + b[1..];
    } else if |a| == 1 {
      assert a == [a[0]] && b == [b[0]];
    }
  }

  /** Without empty parts the number of parts need not be known beforehand. */
  lemma {:induction false} JoinListInjective(a: seq<string>, b: seq<string>, sep: char)
    requires Free(a, sep) && Free(b, sep) && "" !in a && "" !in b
    requires Join(a, sep) == Join(b, sep)
    ensures a == b
  {
    JoinHasSeparator(a, sep);
    JoinHasSeparator(b, sep);
    if |a| >= 2 {
      SplitAtSeparator(a[0], Join(a[1..], sep), b[0], Join(b[1..], sep), sep);
      JoinListInjective(a[1..], b[1..], sep);
      assert a == [a[0]] + a[1..] && b == [b[0]] + b[1..];
    } else {
      assert |a| == 1 ==> a == [a[0]] && a[0] != "";
      assert |b| == 1 ==> b == [b[0]] && b[0] != "";
    }
  }

  lemma JoinFirst(x: string, rest: seq<string>, sep: char)
    ensures Join([x] + rest, sep) == x + if rest == [] then "" else [sep] + Join(rest, sep)
  {
    assert ([x] + rest)[1..] == rest;
  }

  /** A separator inside a part moves between neighbouring parts unseen. */
  lemma JoinAmbiguous(x: string, y: string, z: string, rest: seq<string>, sep: char)
    ensures Join([x + [sep] + y] + ([z] + rest), sep) == Join([x] + ([y + [sep] + z] + rest), sep)
  {
    JoinFirst(z, rest, sep);
    JoinFirst(y + [sep] + z, rest, sep);
    JoinFirst(x + [sep] + y, [z] + rest, sep);
    JoinFirst(x, [y + [sep] + z] + rest, sep);
    hide Join;
  }

  // ---------- Hexadecimal identifiers ----------

  predicate IsHexChar(c: char) {
    '0' <= c <= '9' || 'a' <= c <= 'f' || 'A' <= c <= 'F'
  }

  /** Hexadecimal, of the given length, and not all zeros. */
  predicate ValidHexId(s: string, length: nat) {
    |s| == length && (exists i :: 0 <= i < |s| && s[i] != '0') && forall i :: 0 <= i < |s| ==> IsHexChar(s[i])
  }

  /** The value of a hexadecimal digit, or -1. */
  function HexDigit(c: char): (v: int)
    ensures -1 <= v < 16
  {
    if '0' <= c <= '9' then c as int - '0' as int
    else if 'a' <= c <= 'f' then c as int - 'a' as int + 10
    else if 'A' <= c <= 'F' then c as int - 'A' as int + 10
    else -1
  }

  /** The number that a string of hexadecimal digits writes, or -1. */
  function HexValue(s: string): (v: int)
    ensures v >= -1
  {
    if s == "" then 0
    else
      var v, d := HexValue(s[..|s| - 1]), HexDigit(s[|s| - 1]);
      if v == -1 || d == -1 then -1 else 16 * v + d
  }

  lemma {:induction false} HexValueMeans(s: string)
    ensures HexValue(s) >= 0 <==> forall i :: 0 <= i < |s| ==> IsHexChar(s[i])
    ensures HexValue(s) >= 0 ==> (HexValue(s) > 0 <==> exists i :: 0 <= i < |s| && s[i] != '0')
  {
    if s != "" {
      var front := s[..|s| - 1];
      HexValueMeans(front);
      assert forall i :: 0 <= i < |front| ==> front[i] == s[i];
    }
  }

  /** A valid id writes a positive number in so many hexadecimal digits. */
  lemma ValidHexIdMeans(s: string, length: nat)
    ensures ValidHexId(s, length) <==> |s| == length && HexValue(s) > 0
  {
    HexValueMeans(s);
  }

  predicate ValidTraceId(s: string) { ValidHexId(s, 32) }

  predicate ValidSpanId(s: string) { ValidHexId(s, 16) }

  // ---------- Lexicographic order ----------

  /** Go's `<` on strings. */
  predicate Less(a: string, b: string) {
    if b == "" then false
    else if a == "" then true
    else a[0] < b[0] || (a[0] == b[0] && Less(a[1..], b[1..]))
  }

  /** The first `k` letters agree, and then the one string ends or has the smaller letter. */
  predicate LessAt(a: string, b: string, k: nat) {
    k <= |a| && k < |b| && a[..k] == b[..k] && (k == |a| || a[k] < b[k])
  }

  /** One string is before another when, where they first differ, it ends or has the smaller letter. */
  lemma {:induction false} LessMeans(a: string, b: string)
    ensures Less(a, b) <==> exists k: nat :: LessAt(a, b, k)
  {
    if a == "" && b != "" {
      assert LessAt(a, b, 0);
    }
    if a != "" && b != "" {
      LessMeans(a[1..], b[1..]);
      if a[0] < b[0] {
        assert LessAt(a, b, 0);
      }
      if k: nat :| LessAt(a[1..], b[1..], k) && a[0] == b[0] {
        assert a[..k + 1] == [a[0]] + a[1..][..k] && b[..k + 1] == [b[0]] + b[1..][..k];
        assert LessAt(a, b, k + 1);
      }
      if k: nat :| LessAt(a, b, k) && k > 0 {
        assert a[..k][0] == a[0] && b[..k][0] == b[0];
        assert a[1..][..k - 1] == a[..k][1..] && b[1..][..k - 1] == b[..k][1..];
        assert LessAt(a[1..], b[1..], k - 1);
      }
    }
  }

  lemma {:induction false} LessTrichotomy(a: string, b: string)
    ensures Less(a, b) || a == b || Less(b, a)
    ensures !(Less(a, b) && Less(b, a)) && !Less(a, a)
  {
    if a != "" && b != "" {
      LessTrichotomy(a[1..], b[1..]);
      LessTrichotomy(a[1..], a[1..]);
      assert a == [a[0]] + a[1..] && b == [b[0]] + b[1..];
    } else if a != "" {
      LessTrichotomy(a[1..], a[1..]);
    }
  }

  lemma {:induction false} LessTransitive(a: string, b: string, c: string)
    requires Less(a, b) && Less(b, c)
    ensures Less(a, c)
  {
    if a != "" && a[0] == b[0] == c[0] {
      LessTransitive(a[1..], b[1..], c[1..]);
    }
  }

  /** Field-by-field comparison of two records with equally many fields. */
  predicate LessFields(a: seq<string>, b: seq<string>)
    requires |a| == |b|
  {
    |a| > 0 && (Less(a[0], b[0]) || (a[0] == b[0] && LessFields(a[1..], b[1..])))
  }

  lemma {:induction false} LessFieldsTrichotomy(a: seq<string>, b: seq<string>)
    requires |a| == |b|
    ensures LessFields(a, b) || a == b || LessFields(b, a)
    ensures !(LessFields(a, b) && LessFields(b, a)) && !LessFields(a, a)
  {
    if |a| > 0 {
      LessTrichotomy(a[0], b[0]);
      LessTrichotomy(a[0], a[0]);
      LessFieldsTrichotomy(a[1..], b[1..]);
      LessFieldsTrichotomy(a[1..], a[1..]);
      assert a == [a[0]] + a[1..] && b == [b[0]] + b[1..];
    }
  }

  lemma {:induction false} LessFieldsTransitive(a: seq<string>, b: seq<string>, c: seq<string>)
    requires |a| == |b| == |c| && LessFields(a, b) && LessFields(b, c)
    ensures LessFields(a, c)
  {
    if Less(a[0], b[0]) && Less(b[0], c[0]) {
      LessTransitive(a[0], b[0], c[0]);
    } else if a[0] == b[0] == c[0] {
      LessTrichotomy(a[0], a[0]);
      LessFieldsTransitive(a[1..], b[1..], c[1..]);
    }
  }
}
