/** Character classes and the string operations the cleaning script uses:
    Python's `str.strip`, `re.sub` of a run class, character filtering,
    `str.split` on one delimiter, and decimal digit strings. */
module Strings {

  /** ASCII decimal digit. (Python's `\d` also accepts other Unicode digits.) */
  predicate IsDigit(c: char) { '0' <= c <= '9' }

  /** Python's `str.isspace`, which is also what `\s` matches in a str pattern. */
  predicate IsSpace(c: char) {
    ('\t' <= c <= '\r') || ('\U{1C}' <= c <= ' ') || c == '\U{85}' || c == '\U{A0}'
    || c == '\U{1680}' || ('\U{2000}' <= c <= '\U{200A}') || c == '\U{2028}' || c == '\U{2029}'
    || c == '\U{202F}' || c == '\U{205F}' || c == '\U{3000}'
  }

  predicate IsDash(c: char) { c == '-' }

  predicate All(s: string, p: char -> bool) {
    forall k :: 0 <= k < |s| ==> p(s[k])
  }

  /** No two neighbouring characters both satisfy `p`. */
  predicate NoAdjacent(s: string, p: char -> bool) {
    forall k :: 0 <= k < |s| - 1 ==> !(p(s[k]) && p(s[k + 1]))
  }

  /** Neither end of `s` is whitespace. */
  predicate NoEdgeSpace(s: string) {
    s == [] || (!IsSpace(s[0]) && !IsSpace(s[|s| - 1]))
  }

  /** How many times `c` occurs in `s`. */
  function Count(s: string, c: char): nat {
    if s == [] then 0 else (if s[0] == c then 1 else 0) + Count(s[1..], c)
  }

  lemma {:induction false} CountAppend(a: string, b: string, c: char)
    ensures Count(a + b, c) == Count(a, c) + Count(b, c)
  {
    if a == [] {
      assert a + b == b;
    } else {
      assert (a + b)[0] == a[0] && (a + b)[1..] == a[1..] + b;
      CountAppend(a[1..], b, c);
    }
  }

  /** A character occurs exactly when its count is positive. */
  lemma {:induction false} CountPositive(s: string, c: char)
    ensures Count(s, c) > 0 <==> exists k :: 0 <= k < |s| && s[k] == c
  {
    if s != [] {
      CountPositive(s[1..], c);
      if Count(s[1..], c) > 0 {
        var k :| 0 <= k < |s| - 1 && s[1..][k] == c;
        assert s[k + 1] == c;
      }
      if s[0] != c && exists k :: 0 <= k < |s| && s[k] == c {
        var k :| 0 <= k < |s| && s[k] == c;
        assert s[1..][k - 1] == c;
      }
    }
  }

  // ---------------------------------------------------------------------
  // Runs at either end

  /** Length of the longest prefix of `s` whose characters satisfy `p`. */
  function Span(s: string, p: char -> bool): (n: nat)
    ensures n <= |s|
    ensures forall k :: 0 <= k < n ==> p(s[k])
    ensures n == |s| || !p(s[n])
  {
    if s != [] && p(s[0]) then 1 + Span(s[1..], p) else 0
  }

  /** Length of the longest suffix of `s` whose characters satisfy `p`. */
  function SpanEnd(s: string, p: char -> bool): (n: nat)
    ensures n <= |s|
    ensures forall k :: |s| - n <= k < |s| ==> p(s[k])
    ensures n == |s| || !p(s[|s| - n - 1])
  {
    if s != [] && p(s[|s| - 1]) then 1 + SpanEnd(s[..|s| - 1], p) else 0
  }

  /** A run of `p` characters followed by something that does not start one. */
  lemma {:induction false} SpanOfPrefix(a: string, b: string, p: char -> bool)
    requires All(a, p)
    requires b == [] || !p(b[0])
    ensures Span(a + b, p) == |a|
  {
    if a != [] {
      assert (a + b)[1..] == a[1..] + b;
      SpanOfPrefix(a[1..], b, p);
    }
  }

  /** Where the maximal run of `p` characters starting at position `i` ends. */
  function RunEnd(s: string, i: nat, p: char -> bool): (j: nat)
    requires i <= |s|
    ensures i <= j <= |s| && All(s[i..j], p) && (j == |s| || !p(s[j]))
  {
    var j := i + Span(s[i..], p);
    assert s[i..j] == s[i..][..j - i];
    assert j < |s| ==> s[j] == s[i..][j - i];
    j
  }

  /** A property of every character of two strings holds of their concatenation. */
  lemma AllAppend(a: string, b: string, p: char -> bool)
    requires All(a, p) && All(b, p)
    ensures All(a + b, p)
  {
    forall k | 0 <= k < |a + b| ensures p((a + b)[k]) {
      if k < |a| { assert (a + b)[k] == a[k]; } else { assert (a + b)[k] == b[k - |a|]; }
    }
  }

  /** `s` cut after its maximal leading run of `p` characters. */
  function SplitRun(s: string, p: char -> bool): (r: (string, string))
    ensures r.0 + r.1 == s && All(r.0, p)
    ensures r.1 == [] || !p(r.1[0])
  {
    var n := Span(s, p);
    assert s[..n] + s[n..] == s;
    (s[..n], s[n..])
  }

  lemma SplitRunOfPrefix(a: string, b: string, p: char -> bool)
    requires All(a, p)
    requires b == [] || !p(b[0])
    ensures SplitRun(a + b, p).0 == a && SplitRun(a + b, p).1 == b
  {
    SpanOfPrefix(a, b, p);
    assert (a + b)[..|a|] == a && (a + b)[|a|..] == b;
  }

  /** A string is its part before `i`, its `i`-th character and its part after. */
  lemma SplitAt(s: string, i: nat)
    requires i < |s|
    ensures s == s[..i] + [s[i]] + s[i + 1..]
  {
  }

  /** Python's `s.strip()`: drop leading and trailing whitespace. */
  function Strip(s: string): (r: string)
    ensures NoEdgeSpace(r)
    ensures r == [] <==> All(s, IsSpace)
    ensures Span(s, IsSpace) + |r| <= |s|
    ensures r == s[Span(s, IsSpace)..Span(s, IsSpace) + |r|]
    ensures forall k :: Span(s, IsSpace) + |r| <= k < |s| ==> IsSpace(s[k])
  {
    var t := s[Span(s, IsSpace)..];
    t[..|t| - SpanEnd(t, IsSpace)]
  }

  /** Stripping a string with no whitespace at its ends changes nothing. */
  lemma StripKeeps(s: string)
    requires NoEdgeSpace(s)
    ensures Strip(s) == s
  {
    if s != [] {
      assert Span(s, IsSpace) == 0;
      assert SpanEnd(s, IsSpace) == 0;
    }
  }

  // ---------------------------------------------------------------------
  // re.sub(<class>+, <rep>, s)

  /** Every character satisfying `p` is `rep`, and no two of them are neighbours. */
  predicate Collapsed(s: string, p: char -> bool, rep: char) {
    NoAdjacent(s, p) && forall k :: 0 <= k < |s| && p(s[k]) ==> s[k] == rep
  }

  /** `re.sub(P + "+", rep, s)` for a one-character class P: every maximal
      run of characters satisfying `p` becomes a single `rep`. */
  function Collapse(s: string, p: char -> bool, rep: char): (r: string)
    requires p(rep)
    ensures Collapsed(r, p, rep)
    ensures |r| <= |s| && (r == [] <==> s == [])
    ensures s != [] ==> r[0] == (if p(s[0]) then rep else s[0])
    ensures s != [] ==> r[|r| - 1] == (if p(s[|s| - 1]) then rep else s[|s| - 1])
    decreases |s|
  {
    if s == [] then []
    else if p(s[0]) then
      var rest := s[Span(s, p)..];
      assert rest != [] ==> rest[|rest| - 1] == s[|s| - 1];
      [rep] + Collapse(rest, p, rep)
    else
      [s[0]] + Collapse(s[1..], p, rep)
  }

  /** Collapsing an already collapsed string changes nothing (so `re.sub` of
      a run class is idempotent). */
  lemma {:induction false} CollapseKeeps(s: string, p: char -> bool, rep: char)
    requires p(rep)
    requires Collapsed(s, p, rep)
    ensures Collapse(s, p, rep) == s
    decreases |s|
  {
    if s != [] {
      if p(s[0]) {
        assert Span(s, p) == 1 by {
          assert |s| == 1 || !p(s[1]);
        }
        CollapseKeeps(s[1..], p, rep);
      } else {
        CollapseKeeps(s[1..], p, rep);
      }
    }
  }

  /** Collapsing the runs of one class cannot make neighbours of another
      class that `rep` does not belong to. */
  lemma {:induction false} CollapseKeepsNoAdjacent(s: string, p: char -> bool, rep: char, q: char -> bool)
    requires p(rep) && !q(rep)
    requires NoAdjacent(s, q)
    ensures NoAdjacent(Collapse(s, p, rep), q)
    decreases |s|
  {
    if s != [] {
      if p(s[0]) {
        var rest := s[Span(s, p)..];
        assert NoAdjacent(rest, q) by {
          forall k | 0 <= k < |rest| - 1 ensures !(q(rest[k]) && q(rest[k + 1])) {
            assert rest[k] == s[Span(s, p) + k] && rest[k + 1] == s[Span(s, p) + k + 1];
          }
        }
        CollapseKeepsNoAdjacent(rest, p, rep, q);
      } else {
        CollapseKeepsNoAdjacent(s[1..], p, rep, q);
        var r := Collapse(s[1..], p, rep);
        assert Collapse(s, p, rep) == [s[0]] + r;
        if r != [] && q(s[0]) {
          assert |s| > 1;
          assert r[0] == (if p(s[1]) then rep else s[1]);
        }
      }
    }
  }

  // ---------------------------------------------------------------------
  // re.sub("[^<class>]", "", s)

  /** The characters of `s` that satisfy `p`, in order. */
  function Keep(s: string, p: char -> bool): (r: string)
    ensures All(r, p)
    ensures |r| <= |s|
  {
    if s == [] then []
    else if p(s[0]) then [s[0]] + Keep(s[1..], p)
    else Keep(s[1..], p)
  }

  /** Filtering keeps every occurrence of a character that passes. */
  lemma {:induction false} KeepCount(s: string, p: char -> bool, c: char)
    requires p(c)
    ensures Count(Keep(s, p), c) == Count(s, c)
  {
    if s != [] {
      KeepCount(s[1..], p, c);
    }
  }

  /** Filtering distributes over concatenation. */
  lemma {:induction false} KeepAppend(a: string, b: string, p: char -> bool)
    ensures Keep(a + b, p) == Keep(a, p) + Keep(b, p)
  {
    if a == [] {
      assert a + b == b;
    } else {
      assert (a + b)[0] == a[0] && (a + b)[1..] == a[1..] + b;
      KeepAppend(a[1..], b, p);
    }
  }

  /** A string whose every character passes the filter is kept whole. */
  lemma {:induction false} KeepAll(s: string, p: char -> bool)
    requires All(s, p)
    ensures Keep(s, p) == s
  {
    if s != [] {
      KeepAll(s[1..], p);
    }
  }

  /** A string none of whose characters passes the filter is dropped whole. */
  lemma {:induction false} KeepNone(s: string, p: char -> bool)
    requires forall k :: 0 <= k < |s| ==> !p(s[k])
    ensures Keep(s, p) == []
  {
    if s != [] {
      KeepNone(s[1..], p);
    }
  }

  /** Filtering with a wider class first does not change what a narrower
      filter keeps. */
  lemma {:induction false} KeepKeep(s: string, p: char -> bool, q: char -> bool)
    requires forall c :: q(c) ==> p(c)
    ensures Keep(Keep(s, p), q) == Keep(s, q)
  {
    if s != [] {
      KeepKeep(s[1..], p, q);
    }
  }

  // ---------------------------------------------------------------------
  // What a run collapse keeps and rewrites

  /** A character outside the class is copied. */
  lemma CollapseOther(c: char, s: string, p: char -> bool, rep: char)
    requires p(rep) && !p(c)
    ensures Collapse([c] + s, p, rep) == [c] + Collapse(s, p, rep)
  {
    assert ([c] + s)[0] == c && ([c] + s)[1..] == s;
  }

  /** A maximal run of the class becomes a single `rep`. */
  lemma CollapseRun(a: string, b: string, p: char -> bool, rep: char)
    requires p(rep) && a != [] && All(a, p) && (b == [] || !p(b[0]))
    ensures Collapse(a + b, p, rep) == [rep] + Collapse(b, p, rep)
  {
    SpanOfPrefix(a, b, p);
    assert (a + b)[0] == a[0];
    assert (a + b)[|a|..] == b;
  }

  /** A stretch with no character of the class is copied through. */
  lemma {:induction false} CollapsePlain(a: string, b: string, p: char -> bool, rep: char)
    requires p(rep) && forall k :: 0 <= k < |a| ==> !p(a[k])
    ensures Collapse(a + b, p, rep) == a + Collapse(b, p, rep)
    decreases |a|
  {
    if a == [] {
      assert a + b == b;
    } else {
      CollapsePlain(a[1..], b, p, rep);
      ConsSplit(a, b);
      ConsSplit(a, Collapse(b, p, rep));
      CollapseOther(a[0], a[1..] + b, p, rep);
    }
  }

  /** A non-empty prefix is its first character and the rest. */
  lemma ConsSplit(a: string, c: string)
    requires a != []
    ensures a + c == [a[0]] + (a[1..] + c)
  {
    assert a == [a[0]] + a[1..];
  }

  /** Three fields free of the class, separated by two runs of it, keep
      their text and get one `rep` between them. */
  lemma CollapseFields(x: string, d1: string, y: string, d2: string, z: string, p: char -> bool, rep: char)
    requires p(rep)
    requires forall k :: 0 <= k < |x| ==> !p(x[k])
    requires forall k :: 0 <= k < |y| ==> !p(y[k])
    requires forall k :: 0 <= k < |z| ==> !p(z[k])
    requires y != [] && d1 != [] && d2 != [] && All(d1, p) && All(d2, p)
    ensures Collapse(x + (d1 + (y + (d2 + z))), p, rep) == x + ([rep] + (y + ([rep] + z)))
  {
    assert Collapse(z, p, rep) == z by {
      CollapsePlain(z, [], p, rep);
      assert z + [] == z;
    }
    assert Collapse(d2 + z, p, rep) == [rep] + z by {
      CollapseRun(d2, z, p, rep);
    }
    assert Collapse(y + (d2 + z), p, rep) == y + ([rep] + z) by {
      CollapsePlain(y, d2 + z, p, rep);
    }
    assert Collapse(d1 + (y + (d2 + z)), p, rep) == [rep] + (y + ([rep] + z)) by {
      assert (y + (d2 + z))[0] == y[0];
      CollapseRun(d1, y + (d2 + z), p, rep);
    }
    CollapsePlain(x, d1 + (y + (d2 + z)), p, rep);
  }

  /** Collapsing the runs of one class keeps, in order, every character of
      a class disjoint from it. */
  lemma {:induction false} CollapseKeepsOthers(s: string, p: char -> bool, rep: char, q: char -> bool)
    requires p(rep) && forall c :: p(c) ==> !q(c)
    ensures Keep(Collapse(s, p, rep), q) == Keep(s, q)
    decreases |s|
  {
    if s != [] {
      if p(s[0]) {
        var n := Span(s, p);
        var rest := s[n..];
        assert Keep(s, q) == Keep(rest, q) by {
          assert s == s[..n] + rest;
          KeepAppend(s[..n], rest, q);
          assert forall k :: 0 <= k < |s[..n]| ==> p(s[..n][k]);
          KeepNone(s[..n], q);
        }
        assert Keep(Collapse(s, p, rep), q) == Keep(Collapse(rest, p, rep), q) by {
          var r := Collapse(rest, p, rep);
          assert Collapse(s, p, rep) == [rep] + r;
          assert ([rep] + r)[0] == rep && ([rep] + r)[1..] == r;
        }
        CollapseKeepsOthers(rest, p, rep, q);
      } else {
        assert Keep(Collapse(s, p, rep), q) == (if q(s[0]) then [s[0]] else []) + Keep(Collapse(s[1..], p, rep), q) by {
          var r := Collapse(s[1..], p, rep);
          assert Collapse(s, p, rep) == [s[0]] + r;
          assert ([s[0]] + r)[0] == s[0] && ([s[0]] + r)[1..] == r;
        }
        CollapseKeepsOthers(s[1..], p, rep, q);
      }
    }
  }

  /** Every occurrence of `a` replaced by `b` (`s.replace(a, b)` for single characters). */
  function Replace(s: string, a: char, b: char): (r: string)
    ensures |r| == |s|
    ensures forall k :: 0 <= k < |s| ==> r[k] == (if s[k] == a then b else s[k])
    ensures a != b ==> a !in r
  {
    seq(|s|, k requires 0 <= k < |s| => if s[k] == a then b else s[k])
  }

  // ---------------------------------------------------------------------
  // str.split(d) and its inverse d.join(fields)

  /** `d.join(fields)`. */
  function Join(fields: seq<string>, d: char): string
  {
    if |fields| == 0 then []
    else if |fields| == 1 then fields[0]
    else fields[0] + [d] + Join(fields[1..], d)
  }

  /** Python's `s.split(d)` for a one-character delimiter: one more field
      than there are delimiters, none of them containing the delimiter. */
  function Split(s: string, d: char): (r: seq<string>)
    ensures |r| == Count(s, d) + 1
    ensures forall i :: 0 <= i < |r| ==> d !in r[i]
  {
    if s == [] then [[]]
    else
      var rest := Split(s[1..], d);
      if s[0] == d then [[]] + rest
      else [[s[0]] + rest[0]] + rest[1..]
  }

  lemma JoinConsField(c: char, a: string, b: seq<string>, d: char)
    ensures Join([[c] + a] + b, d) == [c] + Join([a] + b, d)
  {
    if b != [] {
      assert ([[c] + a] + b)[1..] == b;
      assert ([a] + b)[1..] == b;
    }
  }

  /** Joining the fields of a split gives back the line. */
  lemma {:induction false} JoinSplit(s: string, d: char)
    ensures Join(Split(s, d), d) == s
  {
    if s != [] {
      var rest := Split(s[1..], d);
      JoinSplit(s[1..], d);
      if s[0] == d {
        assert ([[]] + rest)[1..] == rest;
      } else {
        assert rest == [rest[0]] + rest[1..];
        JoinConsField(s[0], rest[0], rest[1..], d);
      }
    }
  }

  /** A delimiter-free prefix is glued onto the first field of what follows. */
  lemma {:induction false} SplitFreePrefix(f: string, t: string, d: char)
    requires d !in f
    ensures Split(f + t, d) == [f + Split(t, d)[0]] + Split(t, d)[1..]
  {
    if f != [] {
      var rest := Split(f[1..] + t, d);
      assert (f + t)[0] == f[0] && (f + t)[1..] == f[1..] + t;
      SplitFreePrefix(f[1..], t, d);
      var st := Split(t, d);
      assert rest[0] == f[1..] + st[0] && rest[1..] == st[1..];
      assert f[0] != d;
      assert Split(f + t, d) == [[f[0]] + rest[0]] + rest[1..];
      assert [f[0]] + (f[1..] + st[0]) == f + st[0];
    } else {
      assert f + t == t;
      assert f + Split(t, d)[0] == Split(t, d)[0];
      assert Split(t, d) == [Split(t, d)[0]] + Split(t, d)[1..];
    }
  }

  /** Splitting a join of delimiter-free fields gives back the fields. */
  lemma {:induction false} SplitJoin(fields: seq<string>, d: char)
    requires |fields| >= 1
    requires forall i :: 0 <= i < |fields| ==> d !in fields[i]
    ensures Split(Join(fields, d), d) == fields
  {
    var f := fields[0];
    if |fields| == 1 {
      SplitFreePrefix(f, [], d);
      assert f + [] == f;
    } else {
      var t := [d] + Join(fields[1..], d);
      assert Join(fields, d) == f + t;
      SplitJoin(fields[1..], d);
      assert t[1..] == Join(fields[1..], d);
      assert Split(t, d) == [[]] + fields[1..];
      SplitFreePrefix(f, t, d);
      assert f + [] == f;
      assert fields == [f] + fields[1..];
    }
  }

  // ---------------------------------------------------------------------
  // Decimal digit strings

  function DigitValue(c: char): nat
    requires IsDigit(c)
  {
    c as int - '0' as int
  }

  function Digit(n: nat): (c: char)
    requires n < 10
    ensures IsDigit(c) && DigitValue(c) == n
  {
    (n + '0' as int) as char
  }

  /** The value of a string of decimal digits, most significant first; the
      empty string has value 0 (leading zeros are allowed, as in `int("007")`). */
  function DigitsValue(s: string): nat
    requires All(s, IsDigit)
  {
    if s == [] then 0 else 10 * DigitsValue(s[..|s| - 1]) + DigitValue(s[|s| - 1])
  }

  function Pow10(n: nat): (r: nat)
    ensures r >= 1
  {
    if n == 0 then 1 else 10 * Pow10(n - 1)
  }

  /** `n` with `k` zero digits appended: n * 10^k. */
  function Shift(n: nat, k: nat): nat {
    if k == 0 then n else 10 * Shift(n, k - 1)
  }

  /** Digit strings concatenate as positional values. */
  lemma {:induction false} DigitsValueAppend(a: string, b: string)
    requires All(a, IsDigit) && All(b, IsDigit)
    ensures All(a + b, IsDigit)
    ensures DigitsValue(a + b) == Shift(DigitsValue(a), |b|) + DigitsValue(b)
    decreases |b|
  {
    AllAppend(a, b, IsDigit);
    if b != [] {
      var b' := b[..|b| - 1];
      assert (a + b)[..|a + b| - 1] == a + b';
      assert (a + b)[|a + b| - 1] == b[|b| - 1];
      DigitsValueAppend(a, b');
    } else {
      assert a + b == a;
    }
  }

  /** `n` written with exactly `width` digits, zero-padded on the left
      (strftime's `%m`, `%d` and `%Y` for the years pandas can hold). */
  function Pad(n: nat, width: nat): (s: string)
    requires n < Pow10(width)
    ensures |s| == width && All(s, IsDigit)
    ensures DigitsValue(s) == n
  {
    if width == 0 then [] else
      var s := Pad(n / 10, width - 1) + [Digit(n % 10)];
      assert s[..|s| - 1] == Pad(n / 10, width - 1);
      s
  }

  /** A digit string of a given width is the padded rendering of its value. */
  lemma {:induction false} PadOfValue(s: string)
    requires All(s, IsDigit)
    ensures DigitsValue(s) < Pow10(|s|)
    ensures Pad(DigitsValue(s), |s|) == s
  {
    if s != [] {
      var init := s[..|s| - 1];
      PadOfValue(init);
      var v := DigitsValue(s);
      assert v / 10 == DigitsValue(init) && v % 10 == DigitValue(s[|s| - 1]);
      assert Digit(v % 10) == s[|s| - 1];
      assert s == init + [s[|s| - 1]];
    }
  }

  /** The value of a two-digit numeral. */
  lemma DigitsValueTwo(a: char, b: char)
    requires IsDigit(a) && IsDigit(b)
    ensures DigitsValue([a, b]) == 10 * DigitValue(a) + DigitValue(b)
  {
    assert [a, b][..1] == [a];
    assert [a][..0] == [];
    assert DigitsValue([a]) == DigitValue(a);
  }

  /** The value of a four-digit numeral, from its first two digits. */
  lemma DigitsValueFour(a: char, b: char, c: char, d: char)
    requires IsDigit(a) && IsDigit(b) && IsDigit(c) && IsDigit(d)
    ensures DigitsValue([a, b, c, d]) == 100 * DigitsValue([a, b]) + 10 * DigitValue(c) + DigitValue(d)
  {
    assert [a, b, c, d][..3] == [a, b, c];
    assert [a, b, c][..2] == [a, b];
  }
}
