/** The string operations of Python's `str` that the rest of the model relies on:
    splitting, searching, stripping, decimal conversion and ordering. */
module Text {
  import opened Wrappers

  /** Python's whitespace set (`str.isspace`), which both `\s` in a `str` pattern
      and `str.strip()` use. */
  predicate IsSpace(c: char) {
    var n := c as int;
    (9 <= n <= 13) || (28 <= n <= 32) || n == 0x85 || n == 0xA0 || n == 0x1680
    || (0x2000 <= n <= 0x200A) || n == 0x2028 || n == 0x2029 || n == 0x202F
    || n == 0x205F || n == 0x3000
  }

  predicate IsDigit(c: char) {
    '0' <= c <= '9'
  }

  function DigitValue(c: char): (d: nat)
    requires IsDigit(c)
    ensures d < 10
  {
    (c as int) - ('0' as int)
  }

  function DigitChar(d: nat): (c: char)
    requires d < 10
    ensures IsDigit(c) && DigitValue(c) == d
  {
    (('0' as int) + d) as char
  }

  predicate AllDigits(s: string) {
    forall i :: 0 <= i < |s| ==> IsDigit(s[i])
  }

  predicate NoSpace(s: string) {
    forall i :: 0 <= i < |s| ==> !IsSpace(s[i])
  }

  predicate Excludes(s: string, c: char) {
    forall i :: 0 <= i < |s| ==> s[i] != c
  }

  predicate StartsWith(s: string, p: string) {
    |p| <= |s| && s[..|p|] == p
  }

  predicate EndsWith(s: string, p: string) {
    |p| <= |s| && s[|s| - |p|..] == p
  }

  lemma ExcludesConcat(a: string, b: string, c: char)
    requires Excludes(a, c) && Excludes(b, c)
    ensures Excludes(a + b, c)
  {
    forall i | 0 <= i < |a + b| ensures (a + b)[i] != c {
      if i >= |a| { assert (a + b)[i] == b[i - |a|]; }
    }
  }

  /** Python's `s[n:]`: empty once `n` is past the end. */
  function Drop(s: string, n: nat): (r: string)
    ensures n <= |s| ==> s == s[..n] + r
    ensures n >= |s| ==> r == ""
  {
    if n <= |s| then s[n..] else ""
  }

  /** The length of the longest prefix of `s` whose characters all satisfy `p`. */
  function SpanWhile(s: string, p: char -> bool): (n: nat)
    ensures n <= |s|
    ensures forall i :: 0 <= i < n ==> p(s[i])
    ensures n == |s| || !p(s[n])
    decreases |s|
  {
    if s != [] && p(s[0]) then 1 + SpanWhile(s[1..], p) else 0
  }

  // ---------------------------------------------------------------------------
  // Decimal numbers
  // ---------------------------------------------------------------------------

  /** The value of a run of decimal digits, as Python's `int()` reads it. */
  function ParseNat(s: string): nat
    requires AllDigits(s)
    decreases |s|
  {
    if s == [] then 0 else 10 * ParseNat(s[..|s| - 1]) + DigitValue(s[|s| - 1])
  }

  /** The decimal rendering Python's `str()` gives a non-negative int: digits only,
      and no leading zero. */
  function NatToString(n: nat): (s: string)
    ensures |s| > 0 && AllDigits(s)
    ensures s[0] == '0' ==> n == 0
    ensures n < 10 <==> |s| == 1
  {
    if n < 10 then [DigitChar(n)] else NatToString(n / 10) + [DigitChar(n % 10)]
  }

  lemma {:induction false} ParseNatToString(n: nat)
    ensures ParseNat(NatToString(n)) == n
  {
    if n >= 10 {
      var s := NatToString(n);
      ParseNatToString(n / 10);
      assert s[..|s| - 1] == NatToString(n / 10);
    }
  }

  /** Python's `str()` of an int. */
  function IntToString(i: int): (s: string)
    ensures |s| > 0
    ensures s[0] == '-' <==> i < 0
    ensures i >= 0 ==> AllDigits(s)
  {
    if i < 0 then "-" + NatToString(-i) else NatToString(i)
  }

  /** Python's `int(s)` on text: optional surrounding whitespace, an optional
      sign, then ASCII digits; None where Python raises ValueError. */
  function ParseInt(s: string): (r: Option<int>)
    ensures r.Some? ==> Strip(s) != []
  {
    var t := Strip(s);
    if |t| > 1 && (t[0] == '-' || t[0] == '+') && AllDigits(t[1..]) then
      var v: int := ParseNat(t[1..]);
      Some(if t[0] == '-' then -v else v)
    else if |t| > 0 && AllDigits(t) then Some(ParseNat(t))
    else None
  }

  /** `int(str(i)) == i`: the text `str()` writes reads back as the same number. */
  lemma ParseIntToString(i: int)
    ensures ParseInt(IntToString(i)) == Some(i)
  {
    var s := IntToString(i);
    var n := if i < 0 then -i else i;
    var d := NatToString(n);
    assert !IsSpace(d[|d| - 1]);
    assert !IsSpace(s[0]) && s[|s| - 1] == d[|d| - 1];
    StripUnchanged(s);
    ParseNatToString(n);
    if i < 0 {
      assert s[1..] == d;
    }
  }

  // ---------------------------------------------------------------------------
  // str.split and str.join over a one-character separator
  // ---------------------------------------------------------------------------

  /** Python's `s.split(d)` for a one-character `d`: never empty, and no piece
      contains `d`. */
  function Split(s: string, d: char): (pieces: seq<string>)
    ensures |pieces| >= 1
    ensures forall i :: 0 <= i < |pieces| ==> Excludes(pieces[i], d)
    decreases |s|
  {
    if s == [] then [""]
    else
      var rest := Split(s[1..], d);
      if s[0] == d then [""] + rest else [[s[0]] + rest[0]] + rest[1..]
  }

  /** Python's `d.join(pieces)`. */
  function Join(pieces: seq<string>, d: char): string
    decreases |pieces|
  {
    if pieces == [] then ""
    else if |pieces| == 1 then pieces[0]
    else pieces[0] + [d] + Join(pieces[1..], d)
  }

  /** Splitting loses nothing: joining the pieces back gives the text. */
  lemma {:induction false} JoinSplit(s: string, d: char)
    ensures Join(Split(s, d), d) == s
    decreases |s|
  {
    if s != [] {
      var rest := Split(s[1..], d);
      JoinSplit(s[1..], d);
      if s[0] != d {
        var p := Split(s, d);
        assert p[1..] == rest[1..];
        if |rest| == 1 {
          assert s == [s[0]] + rest[0];
        } else {
          assert Join(rest, d) == rest[0] + [d] + Join(rest[1..], d);
          assert s == [s[0]] + s[1..];
        }
      }
    }
  }

  /** Joining pieces free of the separator and splitting again gives the pieces. */
  lemma {:induction false} SplitJoin(pieces: seq<string>, d: char)
    requires |pieces| >= 1
    requires forall i :: 0 <= i < |pieces| ==> Excludes(pieces[i], d)
    ensures Split(Join(pieces, d), d) == pieces
    decreases |pieces|, |pieces[0]|
  {
    var p0 := pieces[0];
    if p0 == [] {
      if |pieces| > 1 {
        SplitJoin(pieces[1..], d);
        assert Join(pieces, d) == [d] + Join(pieces[1..], d);
        assert Join(pieces, d)[1..] == Join(pieces[1..], d);
        assert [""] + pieces[1..] == pieces;
      }
    } else {
      var shorter := [p0[1..]] + pieces[1..];
      forall i | 0 <= i < |shorter| ensures Excludes(shorter[i], d) {
        if i > 0 { assert shorter[i] == pieces[i]; }
      }
      SplitJoin(shorter, d);
      var s := Join(pieces, d);
      if |pieces| == 1 {
        assert s[1..] == Join(shorter, d);
      } else {
        assert s == p0 + [d] + Join(pieces[1..], d);
        assert Join(shorter, d) == p0[1..] + [d] + Join(pieces[1..], d);
        assert s[1..] == Join(shorter, d);
      }
      assert s[0] == p0[0] && p0[0] != d;
      assert [p0[0]] + p0[1..] == p0;
      assert [[p0[0]] + shorter[0]] + shorter[1..] == pieces;
    }
  }

  /** A text free of the separator is a single piece. */
  lemma {:induction false} SplitNone(a: string, d: char)
    requires Excludes(a, d)
    ensures Split(a, d) == [a]
    decreases |a|
  {
    if a != [] {
      SplitNone(a[1..], d);
      assert [a[0]] + a[1..] == a;
    }
  }

  /** `len(s.split(d)) == 1` holds exactly when `d` does not occur in `s`. */
  lemma SplitSingleIffExcludes(s: string, d: char)
    ensures |Split(s, d)| == 1 <==> Excludes(s, d)
  {
    if Excludes(s, d) {
      SplitNone(s, d);
    } else {
      var n := SpanWhile(s, c => c != d);
      assert n < |s| && s[n] == d;
      assert s == s[..n] + [d] + s[n + 1..];
      SplitFirst(s[..n], s[n + 1..], d);
    }
  }

  /** A first piece free of the separator, then the separator, then the rest. */
  lemma {:induction false} SplitFirst(a: string, b: string, d: char)
    requires Excludes(a, d)
    ensures Split(a + [d] + b, d) == [a] + Split(b, d)
    decreases |a|
  {
    var s := a + [d] + b;
    if a == [] {
      assert s[1..] == b;
    } else {
      assert s[1..] == a[1..] + [d] + b;
      SplitFirst(a[1..], b, d);
      assert [a[0]] + a[1..] == a;
    }
  }

  /** A text that ends with the separator splits into the pieces of its lines
      followed by an empty last piece, and so concatenation after it appends. */
  lemma {:induction false} SplitAfterSeparator(a: string, b: string, d: char)
    requires |a| > 0 && a[|a| - 1] == d
    ensures |Split(a, d)| >= 2 && Split(a, d)[|Split(a, d)| - 1] == ""
    ensures Split(a + b, d) == Split(a, d)[..|Split(a, d)| - 1] + Split(b, d)
    decreases |a|
  {
    if |a| == 1 {
      assert a == [d];
      assert (a + b)[1..] == b;
      assert Split(a[1..], d) == [""];
    } else {
      var a' := a[1..];
      SplitAfterSeparator(a', b, d);
      assert (a + b)[1..] == a' + b;
      if a[0] != d {
        GlueFirst([a[0]], Split(a', d), Split(b, d));
      }
    }
  }

  /** Gluing text to the first piece commutes with replacing the last piece. */
  lemma GlueFirst(h: string, p: seq<string>, q: seq<string>)
    requires |p| >= 2
    ensures var r := p[..|p| - 1] + q;
      [h + r[0]] + r[1..] == ([h + p[0]] + p[1..])[..|p| - 1] + q
  {
    var r := p[..|p| - 1] + q;
    assert r[0] == p[0];
    assert r[1..] == p[1..|p| - 1] + q;
    assert ([h + p[0]] + p[1..])[..|p| - 1] == [h + p[0]] + p[1..|p| - 1];
  }

  // ---------------------------------------------------------------------------
  // Substring search: Python's `m in s` and `s.index(m)`
  // ---------------------------------------------------------------------------

  predicate OccursAt(s: string, m: string, i: int) {
    0 <= i && i + |m| <= |s| && s[i..i + |m|] == m
  }

  /** The first position at which `m` occurs in `s` (Python's `s.index(m)`),
      or None where `index` raises ValueError. */
  function Find(s: string, m: string): (r: Option<nat>)
    ensures r.Some? ==> OccursAt(s, m, r.value)
    ensures r.Some? ==> forall j :: 0 <= j < r.value ==> !OccursAt(s, m, j)
    ensures r.None? ==> forall j :: !OccursAt(s, m, j)
  {
    FindFrom(s, m, 0)
  }

  function FindFrom(s: string, m: string, i: nat): (r: Option<nat>)
    ensures r.Some? ==> i <= r.value && OccursAt(s, m, r.value)
    ensures r.Some? ==> forall j :: i <= j < r.value ==> !OccursAt(s, m, j)
    ensures r.None? ==> forall j :: i <= j ==> !OccursAt(s, m, j)
    decreases |s| - i
  {
    if i + |m| > |s| then None
    else if s[i..i + |m|] == m then Some(i)
    else FindFrom(s, m, i + 1)
  }

  /** Python's `m in s`. */
  predicate Contains(s: string, m: string) {
    Find(s, m).Some?
  }

  /** A one-line marker: its only newline is its last character. */
  predicate NewlineOnlyAtEnd(m: string) {
    |m| > 0 && m[|m| - 1] == '\n' && Excludes(m[..|m| - 1], '\n')
  }

  function Min(a: nat, b: nat): nat {
    if a <= b then a else b
  }

  /** A one-line marker absent from `a` cannot straddle the seam of `a + b` when
      `a` ends a line, or when `b` has no newline early enough to end the marker;
      so its first occurrence in `a + b` is its first occurrence in `b`, shifted. */
  lemma FindAppend(a: string, b: string, m: string)
    requires NewlineOnlyAtEnd(m)
    requires !Contains(a, m)
    requires a == [] || a[|a| - 1] == '\n' || Excludes(b[..Min(|b|, |m| - 1)], '\n')
    ensures Find(a + b, m) == (match Find(b, m) case None => None case Some(k) => Some(|a| + k))
  {
    match Find(b, m)
    case None => FindAppendNone(a, b, m);
    case Some(k) => FindAppendSome(a, b, m, k);
  }

  lemma FindAppendNone(a: string, b: string, m: string)
    requires NewlineOnlyAtEnd(m)
    requires !Contains(a, m)
    requires a == [] || a[|a| - 1] == '\n' || Excludes(b[..Min(|b|, |m| - 1)], '\n')
    requires Find(b, m) == None
    ensures Find(a + b, m) == None
  {
    forall j | 0 <= j ensures !OccursAt(a + b, m, j) {
      if j < |a| { NoStraddle(a, b, m, j); } else { ShiftOccurs(a, b, m, j - |a|); }
    }
  }

  lemma FindAppendSome(a: string, b: string, m: string, k: nat)
    requires NewlineOnlyAtEnd(m)
    requires !Contains(a, m)
    requires a == [] || a[|a| - 1] == '\n' || Excludes(b[..Min(|b|, |m| - 1)], '\n')
    requires Find(b, m) == Some(k)
    ensures Find(a + b, m) == Some(|a| + k)
  {
    ShiftOccurs(a, b, m, k);
    forall j | 0 <= j < |a| + k ensures !OccursAt(a + b, m, j) {
      if j < |a| { NoStraddle(a, b, m, j); } else { ShiftOccurs(a, b, m, j - |a|); }
    }
  }

  /** A line: text without a newline, then a newline. */
  lemma LineEnds(a: string)
    requires Excludes(a, '\n')
    ensures NewlineOnlyAtEnd(a + "\n")
  {
    assert (a + "\n")[..|a|] == a;
  }

  lemma ShiftOccurs(a: string, b: string, m: string, k: nat)
    ensures OccursAt(a + b, m, |a| + k) <==> OccursAt(b, m, k)
  {
    if |a| + k + |m| <= |a + b| {
      assert (a + b)[|a| + k..|a| + k + |m|] == b[k..k + |m|];
    }
  }

  lemma NoStraddle(a: string, b: string, m: string, j: nat)
    requires NewlineOnlyAtEnd(m)
    requires !Contains(a, m)
    requires a == [] || a[|a| - 1] == '\n' || Excludes(b[..Min(|b|, |m| - 1)], '\n')
    requires j < |a|
    ensures !OccursAt(a + b, m, j)
  {
    var s := a + b;
    if j + |m| <= |a| {
      assert s[j..j + |m|] == a[j..j + |m|];
      assert !OccursAt(a, m, j);
    } else if j + |m| <= |s| {
      var w := s[j..j + |m|];
      if a[|a| - 1] == '\n' {
        var k := |a| - 1 - j;
        assert w[k] == '\n';
        assert m[..|m| - 1][k] == m[k];
      } else {
        var t := j + |m| - 1 - |a|;
        assert w[|m| - 1] == b[t];
        assert b[..Min(|b|, |m| - 1)][t] == b[t];
      }
    }
  }

  // ---------------------------------------------------------------------------
  // str.strip
  // ---------------------------------------------------------------------------

  /** Python's `s.strip()`: the text left once leading and trailing whitespace
      are removed. */
  function Strip(s: string): (r: string)
    ensures |r| <= |s|
    ensures r == [] || (!IsSpace(r[0]) && !IsSpace(r[|r| - 1]))
    decreases |s|
  {
    if s != [] && IsSpace(s[0]) then Strip(s[1..])
    else if s != [] && IsSpace(s[|s| - 1]) then Strip(s[..|s| - 1])
    else s
  }

  /** The strip is empty exactly when `s` is all whitespace. */
  lemma {:induction false} StripBlank(s: string)
    ensures Strip(s) == [] <==> forall i :: 0 <= i < |s| ==> IsSpace(s[i])
    decreases |s|
  {
    if s != [] && IsSpace(s[0]) {
      StripBlank(s[1..]);
      if forall i :: 0 <= i < |s| - 1 ==> IsSpace(s[1..][i]) {
        forall i | 0 <= i < |s| ensures IsSpace(s[i]) {
          if i > 0 { assert s[i] == s[1..][i - 1]; }
        }
      }
    } else if s != [] && IsSpace(s[|s| - 1]) {
      StripBlank(s[..|s| - 1]);
    }
  }

  /** Text with no whitespace at either end is its own strip. */
  lemma StripUnchanged(s: string)
    requires s != [] ==> !IsSpace(s[0]) && !IsSpace(s[|s| - 1])
    ensures Strip(s) == s
  {
  }

  // ---------------------------------------------------------------------------
  // Python's ordering of str: lexicographic by code point
  // ---------------------------------------------------------------------------

  predicate Lt(a: string, b: string)
    decreases |a|
  {
    if a == [] then b != []
    else if b == [] then false
    else if a[0] != b[0] then a[0] < b[0]
    else Lt(a[1..], b[1..])
  }

  lemma {:induction false} LtIrreflexive(a: string)
    ensures !Lt(a, a)
    decreases |a|
  {
    if a != [] { LtIrreflexive(a[1..]); }
  }

  lemma {:induction false} LtTransitive(a: string, b: string, c: string)
    requires Lt(a, b) && Lt(b, c)
    ensures Lt(a, c)
    decreases |a|
  {
    if a != [] && b != [] && c != [] && a[0] == b[0] && b[0] == c[0] {
      LtTransitive(a[1..], b[1..], c[1..]);
    }
  }

  lemma {:induction false} LtTotal(a: string, b: string)
    requires a != b
    ensures Lt(a, b) || Lt(b, a)
    decreases |a|
  {
    if a != [] && b != [] && a[0] == b[0] {
      assert a == [a[0]] + a[1..] && b == [b[0]] + b[1..];
      LtTotal(a[1..], b[1..]);
    }
  }

  lemma {:induction false} LtAsymmetric(a: string, b: string)
    requires Lt(a, b)
    ensures !Lt(b, a)
    decreases |a|
  {
    if a != [] && b != [] && a[0] == b[0] {
      LtAsymmetric(a[1..], b[1..]);
    }
  }
}
