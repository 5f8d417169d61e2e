/** The numeric columns (IMDB.py:85-95): noise is removed with a regular
    expression and what remains goes through `pd.to_numeric(...,
    errors="coerce")`. Numbers are exact scaled integers here, not floats. */
module Numbers {
  import opened Wrappers
  import opened Strings

  /** `astype(str)`: text stays as it is; a missing cell becomes text with
      no digit and no point: "nan" for a float NaN, "None" for a cell the
      split padded with None. Both convert to NaN below (`NaNHasNoNumber`),
      so the model writes "nan" for either. */
  function AsStr(c: Option<string>): (r: string)
    ensures c.Some? ==> r == c.value
    ensures c.None? ==> !HasDigit(r) && '.' !in r
  {
    match c
    case None => "nan"
    case Some(s) => s
  }

  predicate IsDigitOrDot(c: char) { IsDigit(c) || c == '.' }

  predicate NotDigit(c: char) { !IsDigit(c) }

  predicate HasDigit(s: string) {
    exists k :: 0 <= k < |s| && IsDigit(s[k])
  }

  /** An exact decimal number: `digits` scaled down by `scale` decimal places. */
  datatype Decimal = Decimal(digits: nat, scale: nat)

  /** Digits after the decimal point of a numeral (0 when there is none). */
  function FractionDigits(t: string): nat {
    var i := Span(t, IsDigit);
    if i < |t| then |t| - i - 1 else 0
  }

  /** `pd.to_numeric(t, errors="coerce")` on a string of digits and dots:
      a number when there is at least one digit and at most one point,
      NaN otherwise. The number is all of the numeral's digits, scaled
      down by the digits after its point. */
  function ToNumeric(t: string): (r: Option<Decimal>)
    requires All(t, IsDigitOrDot)
    ensures r.Some? <==> HasDigit(t) && Count(t, '.') <= 1
    ensures r.Some? ==> r.value == Decimal(DigitsValue(Keep(t, IsDigit)), FractionDigits(t))
  {
    if Span(t, IsDigit) == |t| then IntegerNumber(t) else PointNumber(t)
  }

  /** `ToNumeric` of a numeral without a point. */
  function IntegerNumber(t: string): (r: Option<Decimal>)
    requires Span(t, IsDigit) == |t|
    ensures r.Some? <==> HasDigit(t) && Count(t, '.') <= 1
    ensures r.Some? ==> r.value == Decimal(DigitsValue(Keep(t, IsDigit)), FractionDigits(t))
  {
    IntegerNumeral(t);
    if t == [] then None else Some(Decimal(DigitsValue(t), 0))
  }

  /** `ToNumeric` of a numeral with a point after its leading digits. */
  function PointNumber(t: string): (r: Option<Decimal>)
    requires All(t, IsDigitOrDot) && Span(t, IsDigit) < |t|
    ensures r.Some? <==> HasDigit(t) && Count(t, '.') <= 1
    ensures r.Some? ==> r.value == Decimal(DigitsValue(Keep(t, IsDigit)), FractionDigits(t))
  {
    var i := Span(t, IsDigit);
    PointNumeralValid(t);
    if !All(t[i + 1..], IsDigit) || (i == 0 && i + 1 == |t|) then None
    else
      PointNumeralDigits(t);
      Some(Decimal(DigitsValue(t[..i] + t[i + 1..]), |t| - i - 1))
  }

  /** A numeral without a point. */
  lemma IntegerNumeral(t: string)
    requires Span(t, IsDigit) == |t|
    ensures HasDigit(t) && Count(t, '.') <= 1 <==> t != []
    ensures Keep(t, IsDigit) == t && FractionDigits(t) == 0
  {
    KeepAll(t, IsDigit);
    CountPositive(t, '.');
    if t != [] { assert IsDigit(t[0]); }
  }

  /** A numeral with a point after its leading digits converts when the
      rest is digits and it is not the point alone. */
  lemma PointNumeralValid(t: string)
    requires All(t, IsDigitOrDot) && Span(t, IsDigit) < |t|
    ensures var i := Span(t, IsDigit);
      HasDigit(t) && Count(t, '.') <= 1 <==> All(t[i + 1..], IsDigit) && !(i == 0 && i + 1 == |t|)
  {
    var i := Span(t, IsDigit);
    var whole, frac := t[..i], t[i + 1..];
    SplitAt(t, i);
    PointCount(whole, frac);
    CountPositive(frac, '.');
    if All(frac, IsDigit) {
      if whole != [] { assert IsDigit(t[0]); } else if frac != [] { assert IsDigit(t[1]); }
    } else {
      var k :| 0 <= k < |frac| && !IsDigit(frac[k]);
      assert frac[k] == t[i + 1 + k];
    }
  }

  /** The digits and fraction length of a well-formed numeral with a point. */
  lemma PointNumeralDigits(t: string)
    requires All(t, IsDigitOrDot) && Span(t, IsDigit) < |t|
    requires All(t[Span(t, IsDigit) + 1..], IsDigit)
    ensures var i := Span(t, IsDigit);
      FractionDigits(t) == |t| - i - 1 && Keep(t, IsDigit) == t[..i] + t[i + 1..] && All(t[..i] + t[i + 1..], IsDigit)
  {
    var i := Span(t, IsDigit);
    SplitAt(t, i);
    KeepNumeralDigits(t[..i], t[i + 1..]);
  }

  /** The points of `whole.frac` for a digit string `whole`. */
  lemma PointCount(whole: string, frac: string)
    requires All(whole, IsDigit)
    ensures Count(whole + ['.'] + frac, '.') == 1 + Count(frac, '.')
    ensures whole == [] && frac == [] ==> !HasDigit(whole + ['.'] + frac)
  {
    CountAppend(whole + ['.'], frac, '.');
    CountAppend(whole, ['.'], '.');
    CountPositive(whole, '.');
  }

  /** The digits of a numeral `whole.frac` are those of its two parts. */
  lemma KeepNumeralDigits(whole: string, frac: string)
    requires All(whole, IsDigit) && All(frac, IsDigit)
    ensures Keep(whole + ['.'] + frac, IsDigit) == whole + frac
    ensures All(whole + frac, IsDigit)
  {
    var r := ['.'] + frac;
    assert whole + ['.'] + frac == whole + r;
    assert r[0] == '.' && r[1..] == frac;
    assert Keep(r, IsDigit) == Keep(frac, IsDigit);
    KeepAppend(whole, r, IsDigit);
    KeepAll(whole, IsDigit);
    KeepAll(frac, IsDigit);
  }

  lemma DigitsAreNumeral(s: string)
    requires All(s, IsDigit)
    ensures All(s, IsDigitOrDot)
  {
  }

  /** The value of a numeral `whole.frac`: its whole part shifted left by
      the fraction's length, plus the fraction. */
  lemma NumeralValue(whole: string, frac: string)
    requires All(whole, IsDigit) && All(frac, IsDigit) && (whole != [] || frac != [])
    ensures All(whole + ['.'] + frac, IsDigitOrDot)
    ensures ToNumeric(whole + ['.'] + frac).Some?
    ensures ToNumeric(whole + ['.'] + frac).value.digits == Shift(DigitsValue(whole), |frac|) + DigitsValue(frac)
    ensures ToNumeric(whole + ['.'] + frac).value.scale == |frac|
  {
    NumeralDigits(whole, frac);
    DigitsValueAppend(whole, frac);
  }

  /** A numeral `whole.frac` converts to its digits scaled by the fraction's length. */
  lemma NumeralDigits(whole: string, frac: string)
    requires All(whole, IsDigit) && All(frac, IsDigit) && (whole != [] || frac != [])
    ensures All(whole + ['.'] + frac, IsDigitOrDot) && All(whole + frac, IsDigit)
    ensures ToNumeric(whole + ['.'] + frac) == Some(Decimal(DigitsValue(whole + frac), |frac|))
  {
    NumeralConverts(whole, frac);
    NumeralShape(whole, frac);
    KeepNumeralDigits(whole, frac);
  }

  /** A numeral `whole.frac` with at least one digit converts. */
  lemma NumeralConverts(whole: string, frac: string)
    requires All(whole, IsDigit) && All(frac, IsDigit) && (whole != [] || frac != [])
    ensures All(whole + ['.'] + frac, IsDigitOrDot)
    ensures ToNumeric(whole + ['.'] + frac).Some?
  {
    var t := whole + ['.'] + frac;
    NumeralShape(whole, frac);
    PointCount(whole, frac);
    DigitsHaveNoPoint(frac);
    if whole != [] { assert IsDigit(t[0]); } else { assert IsDigit(t[1]); }
  }

  lemma {:induction false} DigitsHaveNoPoint(s: string)
    requires All(s, IsDigit)
    ensures Count(s, '.') == 0
  {
    if s != [] {
      assert IsDigit(s[0]);
      DigitsHaveNoPoint(s[1..]);
    }
  }

  /** A numeral `whole.frac` is made of digits and points, and its leading
      digit run is `whole`. */
  lemma NumeralShape(whole: string, frac: string)
    requires All(whole, IsDigit) && All(frac, IsDigit)
    ensures All(whole + ['.'] + frac, IsDigitOrDot)
    ensures Span(whole + ['.'] + frac, IsDigit) == |whole|
    ensures FractionDigits(whole + ['.'] + frac) == |frac|
  {
    NumeralChars(whole, frac);
    NumeralSpan(whole, frac);
  }

  lemma NumeralChars(whole: string, frac: string)
    requires All(whole, IsDigit) && All(frac, IsDigit)
    ensures All(whole + ['.'] + frac, IsDigitOrDot)
  {
    DigitsAreNumeral(whole);
    DigitsAreNumeral(frac);
    AllAppend(whole, ['.'], IsDigitOrDot);
    AllAppend(whole + ['.'], frac, IsDigitOrDot);
  }

  lemma NumeralSpan(whole: string, frac: string)
    requires All(whole, IsDigit)
    ensures Span(whole + ['.'] + frac, IsDigit) == |whole|
  {
    assert whole + ['.'] + frac == whole + (['.'] + frac);
    SpanOfPrefix(whole, ['.'] + frac, IsDigit);
  }

  /** Lines 85-86: keep digits and points, then `to_numeric`. */
  function Income(c: Option<string>): (r: Option<Decimal>)
    ensures r.Some? <==> HasDigit(AsStr(c)) && Count(AsStr(c), '.') <= 1
    ensures r.Some? ==> r.value == Decimal(DigitsValue(Keep(AsStr(c), IsDigit)), FractionDigits(Keep(AsStr(c), IsDigitOrDot)))
  {
    var t := Keep(AsStr(c), IsDigitOrDot);
    KeepCount(AsStr(c), IsDigitOrDot, '.');
    KeepHasDigit(AsStr(c), IsDigitOrDot);
    KeepKeep(AsStr(c), IsDigitOrDot, IsDigit);
    ToNumeric(t)
  }

  /** Filtering with a class that contains the digits keeps "there is a digit". */
  lemma {:induction false} KeepHasDigit(s: string, p: char -> bool)
    requires forall c :: IsDigit(c) ==> p(c)
    ensures HasDigit(Keep(s, p)) <==> HasDigit(s)
  {
    if s != [] {
      KeepHasDigit(s[1..], p);
      var r := Keep(s[1..], p);
      if HasDigit(s[1..]) {
        var k :| 0 <= k < |s| - 1 && IsDigit(s[1..][k]);
        assert IsDigit(s[k + 1]);
      }
      if HasDigit(s) && !IsDigit(s[0]) {
        var k :| 0 <= k < |s| && IsDigit(s[k]);
        assert IsDigit(s[1..][k - 1]);
      }
      if p(s[0]) {
        var r0 := [s[0]] + r;
        if HasDigit(r) {
          var k :| 0 <= k < |r| && IsDigit(r[k]);
          assert IsDigit(r0[k + 1]);
        }
        if HasDigit(r0) && !IsDigit(s[0]) {
          var k :| 0 <= k < |r0| && IsDigit(r0[k]);
          assert IsDigit(r[k - 1]);
        }
      }
    }
  }

  /** Lines 89-90: keep digits only, then `to_numeric`; NaN when no digit is left. */
  function Votes(c: Option<string>): (r: Option<Decimal>)
    ensures r.Some? <==> HasDigit(AsStr(c))
    ensures r.Some? ==> r.value == Decimal(DigitsValue(Keep(AsStr(c), IsDigit)), 0)
  {
    var t := Keep(AsStr(c), IsDigit);
    KeepHasDigit(AsStr(c), IsDigit);
    SpanOfPrefix(t, [], IsDigit);
    assert t + [] == t;
    IntegerNumeral(t);
    ToNumeric(t)
  }

  /** What `\d+\.?\d*` matches: a digit run, then optionally a point and a
      (possibly empty) digit run. */
  predicate NumberToken(t: string) {
    var i := Span(t, IsDigit);
    i >= 1 && (i == |t| || (t[i] == '.' && All(t[i + 1..], IsDigit)))
  }

  /** `re.search(r"\d+\.?\d*", s)`: the leftmost, greedy match. It starts at
      the first digit; its digit runs cannot be extended and a point right
      after it is only possible when it already has one. */
  function FirstNumber(s: string): (r: Option<string>)
    ensures r.None? <==> !HasDigit(s)
    ensures r.Some? ==> NumberToken(r.value)
    ensures r.Some? ==>
      var i := Span(s, NotDigit);
      var e := i + |r.value|;
      e <= |s| && r.value == s[i..e]
      && (e == |s| || (!IsDigit(s[e]) && (s[e] == '.' ==> '.' in r.value)))
  {
    var i := Span(s, NotDigit);
    FirstDigit(s);
    if i == |s| then None else Some(TokenAt(s, i))
  }

  /** The greedy match of `\d+\.?\d*` starting at digit `s[i]`. */
  function TokenAt(s: string, i: nat): (tok: string)
    requires i < |s| && IsDigit(s[i])
    ensures NumberToken(tok)
    ensures i + |tok| <= |s| && tok == s[i..i + |tok|]
    ensures var e := i + |tok|;
      e == |s| || (!IsDigit(s[e]) && (s[e] == '.' ==> '.' in tok))
  {
    var j := RunEnd(s, i, IsDigit);
    assert i < j;
    if j < |s| && s[j] == '.' then
      var e := RunEnd(s, j + 1, IsDigit);
      PointToken(s, i, j, e);
      s[i..e]
    else
      IntegerToken(s[i..j]);
      s[i..j]
  }

  /** The first digit of `s`, if any, is where the non-digits end. */
  lemma FirstDigit(s: string)
    ensures HasDigit(s) <==> Span(s, NotDigit) < |s|
  {
    var i := Span(s, NotDigit);
    if i < |s| {
      assert IsDigit(s[i]);
    }
  }

  /** A non-empty digit run is a token without a point. */
  lemma IntegerToken(t: string)
    requires t != [] && All(t, IsDigit)
    ensures NumberToken(t)
  {
    SpanOfPrefix(t, [], IsDigit);
    assert t + [] == t;
  }

  /** Digits, a point and digits, read off a string in place, form a token
      with a point. */
  lemma PointToken(s: string, i: nat, j: nat, e: nat)
    requires i < j < e <= |s| && s[j] == '.'
    requires All(s[i..j], IsDigit) && All(s[j + 1..e], IsDigit)
    ensures NumberToken(s[i..e]) && '.' in s[i..e]
  {
    var whole, frac := s[i..j], s[j + 1..e];
    assert s[i..e] == whole + ['.'] + frac by {
      assert s[i..e] == s[i..j] + s[j..e];
      assert s[j..e] == [s[j]] + s[j + 1..e];
    }
    PointTokenShape(whole, frac);
  }

  lemma PointTokenShape(whole: string, frac: string)
    requires whole != [] && All(whole, IsDigit) && All(frac, IsDigit)
    ensures NumberToken(whole + ['.'] + frac) && '.' in whole + ['.'] + frac
  {
    var t := whole + ['.'] + frac;
    NumeralShape(whole, frac);
    assert t[|whole|] == '.' && t[|whole| + 1..] == frac;
  }

  /** A matched token always converts. */
  lemma NumberTokenConverts(t: string)
    requires NumberToken(t)
    ensures All(t, IsDigitOrDot) && ToNumeric(t).Some?
  {
    var i := Span(t, IsDigit);
    assert IsDigit(t[0]);
    if i == |t| {
      IntegerNumeral(t);
    } else {
      SplitAt(t, i);
      assert All(t, IsDigitOrDot) by {
        forall k | 0 <= k < |t| ensures IsDigitOrDot(t[k]) {
          if k > i { assert t[k] == t[i + 1..][k - i - 1]; }
        }
      }
      PointNumeralValid(t);
    }
  }

  /** Lines 93-95: commas become points, the leftmost number is extracted and converted. */
  function Score(c: Option<string>): (r: Option<Decimal>)
    ensures r.Some? <==> HasDigit(AsStr(c))
  {
    var t := Replace(AsStr(c), ',', '.');
    assert HasDigit(t) <==> HasDigit(AsStr(c)) by {
      if HasDigit(AsStr(c)) {
        var k :| 0 <= k < |AsStr(c)| && IsDigit(AsStr(c)[k]);
        assert IsDigit(t[k]);
      }
    }
    match FirstNumber(t)
    case None => None
    case Some(tok) =>
      NumberTokenConverts(tok);
      ToNumeric(tok)
  }

  /** A missing cell converts to NaN in each numeric column, whether
      `astype(str)` wrote it as "nan" or as "None": neither has a digit. */
  lemma NaNHasNoNumber()
    ensures Income(None).None? && Votes(None).None? && Score(None).None?
    ensures Income(Some("None")).None? && Votes(Some("None")).None? && Score(Some("None")).None?
  {
    assert forall k :: 0 <= k < |AsStr(None)| ==> !IsDigit(AsStr(None)[k]);
    assert forall k :: 0 <= k < |"None"| ==> !IsDigit("None"[k]);
  }
}
