/** `clean_date` (IMDB.py:33-49) and the rendering of its result as
    `YYYY-MM-DD` (IMDB.py:55), the `full-date` form of section 5.6 of
    RFC 3339. */
module Dates {
  import opened Wrappers
  import opened Strings

  datatype Date = Date(year: int, month: int, day: int)

  predicate IsLeapYear(y: int) {
    y % 4 == 0 && (y % 100 != 0 || y % 400 == 0)
  }

  /** The last day of month `m` (section 5.7 of RFC 3339): every month has
      28 to 31 days, and only February of a leap year has 29. */
  function DaysInMonth(y: int, m: int): (n: int)
    requires 1 <= m <= 12
    ensures 28 <= n <= 31
    ensures n == 29 <==> m == 2 && IsLeapYear(y)
    ensures n == 28 <==> m == 2 && !IsLeapYear(y)
  {
    if m == 2 then (if IsLeapYear(y) then 29 else 28)
    else if m == 4 || m == 6 || m == 9 || m == 11 then 30
    else 31
  }

  predicate ValidDate(d: Date) {
    1 <= d.month <= 12 && 1 <= d.day <= DaysInMonth(d.year, d.month)
  }

  /** February 29 exists exactly in leap years: every fourth year, except
      century years not divisible by 400 (1900 has none, 2000 has one). */
  lemma LeapDay(y: int)
    ensures ValidDate(Date(y, 2, 29)) <==> IsLeapYear(y)
    ensures !IsLeapYear(1900) && IsLeapYear(2000) && IsLeapYear(1976)
  {
  }

  /** Calendar order. */
  predicate NotAfter(a: Date, b: Date) {
    a.year < b.year || (a.year == b.year && (a.month < b.month || (a.month == b.month && a.day <= b.day)))
  }

  /** The days of the first and last pandas nanosecond Timestamps
      (1677-09-21 00:12:43.145224193 and 2262-04-11 23:47:16.854775807). */
  const FirstStampDay := Date(1677, 9, 21)
  const LastStampDay := Date(2262, 4, 11)
  /** The first day whose midnight is a pandas Timestamp. */
  const FirstStampMidnight := Date(1677, 9, 22)

  /** The calendar day of a pandas Timestamp: what `to_datetime` can return. */
  type Stamp = d: Date | ValidDate(d) && NotAfter(FirstStampDay, d) && NotAfter(d, LastStampDay)
    witness Date(1970, 1, 1)

  // ---------------------------------------------------------------------
  // Pre-clean (lines 37-39)

  /** `str.strip()`, then `re.sub(r"[-]+", "-", s)`, then `re.sub(r"\s+", " ", s)`. */
  function PreClean(s: string): (r: string)
    ensures NoEdgeSpace(r)
    ensures NoAdjacent(r, IsDash)
    ensures NoAdjacent(r, IsSpace) && forall k :: 0 <= k < |r| && IsSpace(r[k]) ==> r[k] == ' '
  {
    var t := Strip(s);
    var u := Collapse(t, IsDash, '-');
    DashCollapseEdges(t);
    SpaceCollapseEdges(u);
    CollapseKeepsNoAdjacent(u, IsSpace, ' ', IsDash);
    Collapse(u, IsSpace, ' ')
  }

  /** Collapsing dash runs cannot put whitespace at either end. */
  lemma DashCollapseEdges(t: string)
    requires NoEdgeSpace(t)
    ensures NoEdgeSpace(Collapse(t, IsDash, '-'))
  {
    var u := Collapse(t, IsDash, '-');
    if t != [] {
      assert !IsSpace(u[0]) && !IsSpace(u[|u| - 1]);
    }
  }

  /** Collapsing whitespace runs of a string without edge whitespace
      leaves its ends as they were. */
  lemma SpaceCollapseEdges(u: string)
    requires NoEdgeSpace(u)
    ensures NoEdgeSpace(Collapse(u, IsSpace, ' '))
  {
    var r := Collapse(u, IsSpace, ' ');
    if u != [] {
      assert r[0] == u[0] && r[|r| - 1] == u[|u| - 1];
    }
  }

  /** Pre-cleaning a pre-cleaned string changes nothing. */
  lemma PreCleanIdempotent(s: string)
    ensures PreClean(PreClean(s)) == PreClean(s)
  {
    var t := PreClean(s);
    StripKeeps(t);
    CollapseKeeps(t, IsDash, '-');
    CollapseKeeps(t, IsSpace, ' ');
  }

  /** Neither a dash nor whitespace: what the pre-clean never rewrites. */
  predicate IsPlain(c: char) { !IsDash(c) && !IsSpace(c) }

  /** The pre-clean keeps every character of the stripped string other
      than dashes and whitespace, in order. */
  lemma PreCleanKeeps(s: string)
    ensures Keep(PreClean(s), IsPlain) == Keep(Strip(s), IsPlain)
  {
    var t := Strip(s);
    CollapseKeepsOthers(t, IsDash, '-', IsPlain);
    CollapseKeepsOthers(Collapse(t, IsDash, '-'), IsDash, '-', IsPlain);
    CollapseKeepsOthers(Collapse(t, IsDash, '-'), IsSpace, ' ', IsPlain);
  }

  /** Digits are neither dashes nor whitespace. */
  lemma DigitsArePlain(x: string)
    requires All(x, IsDigit)
    ensures forall k :: 0 <= k < |x| ==> !IsDash(x[k]) && !IsSpace(x[k])
  {
  }

  /** Fields that start and end with a digit have nothing to strip. */
  lemma StripDigitEnds(x: string, a: string, y: string, b: string, z: string)
    requires x != [] && z != [] && All(x, IsDigit) && All(z, IsDigit)
    ensures Strip(x + a + y + b + z) == x + a + y + b + z
  {
    var s := x + a + y + b + z;
    assert s[0] == x[0] && s[|s| - 1] == z[|z| - 1];
    StripKeeps(s);
  }

  /** Concatenation regrouped to the right. */
  lemma Regroup(x: string, d1: string, y: string, d2: string, z: string)
    ensures x + d1 + y + d2 + z == x + (d1 + (y + (d2 + z)))
  {
  }

  /** Concatenation regrouped to the right. */
  lemma RegroupFour(w1: string, dd: string, w2: string, yy: string)
    ensures w1 + dd + w2 + yy == w1 + (dd + (w2 + yy))
    ensures dd + w2 + yy == dd + (w2 + yy)
  {
  }

  /** Digit fields joined by single dashes hold no whitespace. */
  lemma DashedFields(x: string, y: string, z: string)
    requires All(x, IsDigit) && All(y, IsDigit) && All(z, IsDigit)
    ensures x + "-" + y + "-" + z == x + ("-" + (y + ("-" + z)))
    ensures forall k :: 0 <= k < |x + "-" + y + "-" + z| ==> !IsSpace((x + "-" + y + "-" + z)[k])
  {
    var t := x + "-" + y + "-" + z;
    forall k | 0 <= k < |t| ensures !IsSpace(t[k]) {
      assert IsDigit(t[k]) || t[k] == '-';
    }
  }

  /** Both run collapses of three digit fields separated by dash runs. */
  lemma CollapseDashedDate(x: string, d1: string, y: string, d2: string, z: string)
    requires y != []
    requires All(x, IsDigit) && All(y, IsDigit) && All(z, IsDigit)
    requires d1 != [] && d2 != [] && All(d1, IsDash) && All(d2, IsDash)
    ensures Collapse(Collapse(x + d1 + y + d2 + z, IsDash, '-'), IsSpace, ' ') == x + "-" + y + "-" + z
  {
    var s := x + d1 + y + d2 + z;
    var t := x + "-" + y + "-" + z;
    calc {
      Collapse(Collapse(s, IsDash, '-'), IsSpace, ' ');
      { Regroup(x, d1, y, d2, z);
        DashedFields(x, y, z);
        DigitsArePlain(x);
        DigitsArePlain(y);
        DigitsArePlain(z);
        CollapseFields(x, d1, y, d2, z, IsDash, '-'); }
      Collapse(t, IsSpace, ' ');
      { DashedFields(x, y, z);
        CollapsePlain(t, [], IsSpace, ' ');
        assert t + [] == t; }
      t;
    }
  }

  /** Three digit fields separated by dash runs of any length come out
      separated by single dashes, e.g. "24--12---1976" gives "24-12-1976". */
  lemma PreCleanDashedDate(x: string, d1: string, y: string, d2: string, z: string)
    requires x != [] && y != [] && z != []
    requires All(x, IsDigit) && All(y, IsDigit) && All(z, IsDigit)
    requires d1 != [] && d2 != [] && All(d1, IsDash) && All(d2, IsDash)
    ensures PreClean(x + d1 + y + d2 + z) == x + "-" + y + "-" + z
  {
    StripDigitEnds(x, d1, y, d2, z);
    CollapseDashedDate(x, d1, y, d2, z);
  }

  /** Digit fields separated by whitespace runs hold no dash. */
  lemma SpacedFields(x: string, w1: string, y: string, w2: string, z: string)
    requires All(x, IsDigit) && All(y, IsDigit) && All(z, IsDigit)
    requires All(w1, IsSpace) && All(w2, IsSpace)
    ensures forall k :: 0 <= k < |x + w1 + y + w2 + z| ==> !IsDash((x + w1 + y + w2 + z)[k])
  {
    var s := x + w1 + y + w2 + z;
    forall k | 0 <= k < |s| ensures !IsDash(s[k]) {
      assert IsDigit(s[k]) || IsSpace(s[k]);
    }
  }

  /** Both run collapses of three digit fields separated by whitespace runs. */
  lemma CollapseSpacedDate(x: string, w1: string, y: string, w2: string, z: string)
    requires y != []
    requires All(x, IsDigit) && All(y, IsDigit) && All(z, IsDigit)
    requires w1 != [] && w2 != [] && All(w1, IsSpace) && All(w2, IsSpace)
    ensures Collapse(Collapse(x + w1 + y + w2 + z, IsDash, '-'), IsSpace, ' ') == x + " " + y + " " + z
  {
    var s := x + w1 + y + w2 + z;
    calc {
      Collapse(Collapse(s, IsDash, '-'), IsSpace, ' ');
      { SpacedFields(x, w1, y, w2, z);
        CollapsePlain(s, [], IsDash, '-');
        assert s + [] == s; }
      Collapse(s, IsSpace, ' ');
      { Regroup(x, w1, y, w2, z);
        DigitsArePlain(x);
        DigitsArePlain(y);
        DigitsArePlain(z);
        CollapseFields(x, w1, y, w2, z, IsSpace, ' '); }
      x + ([' '] + (y + ([' '] + z)));
      { Regroup(x, " ", y, " ", z); }
      x + " " + y + " " + z;
    }
  }

  /** Three digit fields separated by whitespace runs of any kind and length
      come out separated by single spaces, e.g. "09 \t21   1972" gives
      "09 21 1972". */
  lemma PreCleanSpacedDate(x: string, w1: string, y: string, w2: string, z: string)
    requires x != [] && y != [] && z != []
    requires All(x, IsDigit) && All(y, IsDigit) && All(z, IsDigit)
    requires w1 != [] && w2 != [] && All(w1, IsSpace) && All(w2, IsSpace)
    ensures PreClean(x + w1 + y + w2 + z) == x + " " + y + " " + z
  {
    StripDigitEnds(x, w1, y, w2, z);
    CollapseSpacedDate(x, w1, y, w2, z);
  }

  // ---------------------------------------------------------------------
  // strftime("%Y-%m-%d") and its inverse

  /** A date strftime can write with four year digits. */
  predicate Renderable(d: Date) {
    ValidDate(d) && 0 <= d.year < 10000
  }

  /** `strftime("%Y-%m-%d")` (line 55). */
  function RenderDate(d: Date): (r: string)
    requires Renderable(d)
    ensures |r| == 10 && r[4] == '-' && r[7] == '-'
    ensures All(r[..4], IsDigit) && All(r[5..7], IsDigit) && All(r[8..], IsDigit)
  {
    var r := Pad(d.year, 4) + "-" + Pad(d.month, 2) + "-" + Pad(d.day, 2);
    assert r[..4] == Pad(d.year, 4) && r[5..7] == Pad(d.month, 2) && r[8..] == Pad(d.day, 2);
    r
  }

  /** The `full-date` production of section 5.6 of RFC 3339, with the
      month and day limits of section 5.7. */
  function ParseFullDate(s: string): (r: Option<Date>)
    ensures r.Some? ==> Renderable(r.value)
  {
    if |s| == 10 && All(s[..4], IsDigit) && s[4] == '-' && All(s[5..7], IsDigit) && s[7] == '-' && All(s[8..], IsDigit)
    then
      PadOfValue(s[..4]);
      var d := Date(DigitsValue(s[..4]), DigitsValue(s[5..7]), DigitsValue(s[8..]));
      if ValidDate(d) then Some(d) else None
    else None
  }

  /** A ten-character `YYYY-MM-DD` string reads as the date its digits
      spell, when that date exists. */
  lemma ReadFullDate(y1: char, y2: char, y3: char, y4: char, m1: char, m2: char, d1: char, d2: char)
    requires IsDigit(y1) && IsDigit(y2) && IsDigit(y3) && IsDigit(y4)
    requires IsDigit(m1) && IsDigit(m2) && IsDigit(d1) && IsDigit(d2)
    ensures var d := Date(1000 * DigitValue(y1) + 100 * DigitValue(y2) + 10 * DigitValue(y3) + DigitValue(y4),
                          10 * DigitValue(m1) + DigitValue(m2), 10 * DigitValue(d1) + DigitValue(d2));
      ParseFullDate([y1, y2, y3, y4, '-', m1, m2, '-', d1, d2]) == if ValidDate(d) then Some(d) else None
  {
    var s := [y1, y2, y3, y4, '-', m1, m2, '-', d1, d2];
    assert s[..4] == [y1, y2, y3, y4] && s[5..7] == [m1, m2] && s[8..] == [d1, d2];
    DigitsValueFour(y1, y2, y3, y4);
    DigitsValueTwo(y1, y2);
    DigitsValueTwo(m1, m2);
    DigitsValueTwo(d1, d2);
  }

  /** A rendered date reads back as the same date. */
  lemma ParseRenderDate(d: Date)
    requires Renderable(d)
    ensures ParseFullDate(RenderDate(d)) == Some(d)
  {
    var r := RenderDate(d);
    assert r[..4] == Pad(d.year, 4) && r[5..7] == Pad(d.month, 2) && r[8..] == Pad(d.day, 2);
  }

  /** A full-date that reads as a date is that date's rendering. */
  lemma RenderParseFullDate(s: string)
    requires ParseFullDate(s).Some?
    ensures RenderDate(ParseFullDate(s).value) == s
  {
    PadOfValue(s[..4]);
    PadOfValue(s[5..7]);
    PadOfValue(s[8..]);
    assert s == s[..4] + "-" + s[5..7] + "-" + s[8..];
  }

  // ---------------------------------------------------------------------
  // to_datetime(s, format="%m %d %Y") (line 47)

  /** What `%m` matches: `1[0-2]|0[1-9]|[1-9]`. */
  predicate MonthToken(t: string) {
    (|t| == 1 && '1' <= t[0] <= '9')
    || (|t| == 2 && ((t[0] == '0' && '1' <= t[1] <= '9') || (t[0] == '1' && '0' <= t[1] <= '2')))
  }

  /** What `%d` matches when it follows `\s+`: `3[01]|[12]\d|0[1-9]|[1-9]`
      (its further alternative ` [1-9]` only moves one space out of the
      preceding `\s+`, and reads the same day). */
  predicate DayToken(t: string) {
    (|t| == 1 && '1' <= t[0] <= '9')
    || (|t| == 2 && ((t[0] == '3' && '0' <= t[1] <= '1') || ('1' <= t[0] <= '2' && IsDigit(t[1]))
                     || (t[0] == '0' && '1' <= t[1] <= '9')))
  }

  /** A one-character digit string is worth its digit. */
  lemma DigitsValueOne(t: string)
    requires |t| == 1 && IsDigit(t[0])
    ensures DigitsValue(t) == DigitValue(t[0])
  {
    assert t[..0] == [];
  }

  /** `%m` accepts exactly the one- and two-digit spellings of 1 to 12. */
  lemma MonthTokenExactly(t: string)
    ensures MonthToken(t) <==> 1 <= |t| <= 2 && All(t, IsDigit) && 1 <= DigitsValue(t) <= 12
  {
    if |t| == 1 && IsDigit(t[0]) {
      DigitsValueOne(t);
    } else if |t| == 2 && IsDigit(t[0]) && IsDigit(t[1]) {
      assert t == [t[0], t[1]];
      DigitsValueTwo(t[0], t[1]);
    }
  }

  /** `%d` accepts exactly the one- and two-digit spellings of 1 to 31. */
  lemma DayTokenExactly(t: string)
    ensures DayToken(t) <==> 1 <= |t| <= 2 && All(t, IsDigit) && 1 <= DigitsValue(t) <= 31
  {
    if |t| == 1 && IsDigit(t[0]) {
      DigitsValueOne(t);
    } else if |t| == 2 && IsDigit(t[0]) && IsDigit(t[1]) {
      assert t == [t[0], t[1]];
      DigitsValueTwo(t[0], t[1]);
    }
  }

  /** The format's regular expression `%m\s+%d\s+%Y` must match the whole
      string; the day must exist in that month and year, and its midnight
      must be a pandas Timestamp. Anything else raises. On success the
      string is exactly a month token, whitespace, a day token, whitespace
      and four year digits, and the date read is made of those tokens'
      values; the converse is `ParseOfTokens`. */
  function ParseMonthDayYear(s: string): (r: Option<Stamp>)
    ensures r.Some? ==> NotAfter(FirstStampMidnight, r.value)
    ensures r.Some? ==> All(s, IsDigitOrSpace)
    ensures r.Some? ==>
      var t := Tokens(s);
      s == t.0 + t.1 + t.2 + t.3 + t.4
      && MonthToken(t.0) && t.1 != [] && DayToken(t.2) && t.3 != [] && |t.4| == 4 && All(t.4, IsDigit)
      && r.value == Date(DigitsValue(t.4), DigitsValue(t.0), DigitsValue(t.2))
  {
    var t := Tokens(s);
    var r := ParseTokens(t.0, t.1, t.2, t.3, t.4);
    if r.Some? then
      TokensChars(t.0, t.1, t.2, t.3, t.4);
      r
    else r
  }

  predicate IsDigitOrSpace(c: char) { IsDigit(c) || IsSpace(c) }

  /** Digit and whitespace tokens put together hold only digits and whitespace. */
  lemma TokensChars(mm: string, w1: string, dd: string, w2: string, yy: string)
    requires All(mm, IsDigit) && All(w1, IsSpace) && All(dd, IsDigit) && All(w2, IsSpace) && All(yy, IsDigit)
    ensures All(mm + w1 + dd + w2 + yy, IsDigitOrSpace)
  {
    var s := mm + w1 + dd + w2 + yy;
    forall k | 0 <= k < |s| ensures IsDigitOrSpace(s[k]) {
      if k < |mm| {
        assert s[k] == mm[k];
      } else if k < |mm + w1| {
        assert s[k] == w1[k - |mm|];
      } else if k < |mm + w1 + dd| {
        assert s[k] == dd[k - |mm + w1|];
      } else if k < |mm + w1 + dd + w2| {
        assert s[k] == w2[k - |mm + w1 + dd|];
      } else {
        assert s[k] == yy[k - |mm + w1 + dd + w2|];
      }
    }
  }

  /** The month, day and year tokens must have the shapes `%m`, `%d` and
      `%Y` match, with whitespace between them and nothing after; the date
      read is then the tokens' values, and it is returned exactly when it
      is a valid calendar day whose midnight is a pandas Timestamp. */
  function ParseTokens(mm: string, w1: string, dd: string, w2: string, yy: string): (r: Option<Stamp>)
    requires All(mm, IsDigit) && All(dd, IsDigit)
    ensures r.Some? ==> NotAfter(FirstStampMidnight, r.value)
    ensures r.Some? ==> MonthToken(mm) && DayToken(dd) && w1 != [] && w2 != [] && |yy| == 4 && All(yy, IsDigit)
    ensures r.Some? ==> r.value == Date(DigitsValue(yy), DigitsValue(mm), DigitsValue(dd))
    ensures MonthToken(mm) && DayToken(dd) && w1 != [] && w2 != [] && |yy| == 4 && All(yy, IsDigit) ==>
      var d := Date(DigitsValue(yy), DigitsValue(mm), DigitsValue(dd));
      (r.Some? <==> ValidDate(d) && NotAfter(FirstStampMidnight, d) && NotAfter(d, LastStampDay))
  {
    if MonthToken(mm) && w1 != [] && DayToken(dd) && w2 != [] && |yy| == 4 && All(yy, IsDigit) then
      MidnightStamp(Date(DigitsValue(yy), DigitsValue(mm), DigitsValue(dd)))
    else None
  }

  /** `s` cut into a digit run, a whitespace run, a digit run, a whitespace
      run and the rest: the pieces put back together are `s`, and each run
      is as long as it can be. */
  function Tokens(s: string): (r: (string, string, string, string, string))
    ensures r.0 + r.1 + r.2 + r.3 + r.4 == s
    ensures All(r.0, IsDigit) && All(r.1, IsSpace) && All(r.2, IsDigit) && All(r.3, IsSpace)
    ensures var t := r.1 + r.2 + r.3 + r.4; t == [] || !IsDigit(t[0])
    ensures var t := r.2 + r.3 + r.4; t == [] || !IsSpace(t[0])
    ensures var t := r.3 + r.4; t == [] || !IsDigit(t[0])
    ensures r.4 == [] || !IsSpace(r.4[0])
  {
    var (mm, s1) := SplitRun(s, IsDigit);
    var (w1, s2) := SplitRun(s1, IsSpace);
    var (dd, s3) := SplitRun(s2, IsDigit);
    var (w2, yy) := SplitRun(s3, IsSpace);
    Regroup(mm, w1, dd, w2, yy);
    RegroupFour(w1, dd, w2, yy);
    (mm, w1, dd, w2, yy)
  }

  /** A calendar date whose midnight is a pandas Timestamp, if it is one. */
  function MidnightStamp(d: Date): (r: Option<Stamp>)
    ensures r.Some? <==> ValidDate(d) && NotAfter(FirstStampMidnight, d) && NotAfter(d, LastStampDay)
    ensures r.Some? ==> r.value == d
  {
    if ValidDate(d) && NotAfter(FirstStampMidnight, d) && NotAfter(d, LastStampDay) then Some(d) else None
  }

  /** `strftime("%m %d %Y")`. */
  function RenderMonthDayYear(d: Date): string
    requires Renderable(d)
  {
    Pad(d.month, 2) + " " + Pad(d.day, 2) + " " + Pad(d.year, 4)
  }

  /** Two digit runs each followed by a whitespace run, then a rest that
      does not start with whitespace, cut back into themselves. */
  lemma TokensOfFields(mm: string, w1: string, dd: string, w2: string, yy: string)
    requires All(mm, IsDigit) && w1 != [] && All(w1, IsSpace)
    requires dd != [] && All(dd, IsDigit) && w2 != [] && All(w2, IsSpace)
    requires yy == [] || !IsSpace(yy[0])
    ensures Tokens(mm + w1 + dd + w2 + yy) == (mm, w1, dd, w2, yy)
  {
    var s3 := w2 + yy;
    var s2 := dd + s3;
    var s1 := w1 + s2;
    assert mm + w1 + dd + w2 + yy == mm + s1;
    assert !IsDigit(s1[0]) && !IsSpace(s2[0]) && !IsDigit(s3[0]);
    SplitRunOfPrefix(mm, s1, IsDigit);
    SplitRunOfPrefix(w1, s2, IsSpace);
    SplitRunOfPrefix(dd, s3, IsDigit);
    SplitRunOfPrefix(w2, yy, IsSpace);
  }

  /** The strict parse of well-formed month, day and year tokens separated
      by any non-empty whitespace runs reads exactly those tokens. */
  lemma ParseOfTokens(mm: string, w1: string, dd: string, w2: string, yy: string)
    requires MonthToken(mm) && DayToken(dd) && |yy| == 4 && All(yy, IsDigit)
    requires w1 != [] && All(w1, IsSpace) && w2 != [] && All(w2, IsSpace)
    ensures ParseMonthDayYear(mm + w1 + dd + w2 + yy) == MidnightStamp(Date(DigitsValue(yy), DigitsValue(mm), DigitsValue(dd)))
  {
    TokenDigits(mm);
    TokenDigits(dd);
    assert !IsSpace(yy[0]);
    TokensOfFields(mm, w1, dd, w2, yy);
  }

  /** A string holding anything but digits and whitespace, such as "abc" or
      the dashed "09-21-1972", fails the strict parse. */
  lemma ParseRejectsOthers()
    ensures ParseMonthDayYear("abc").None?
    ensures ParseMonthDayYear("09-21-1972").None?
  {
    assert !IsDigitOrSpace("abc"[0]);
    assert !IsDigitOrSpace("09-21-1972"[2]);
  }

  /** Month and day tokens are non-empty digit strings. */
  lemma TokenDigits(t: string)
    requires MonthToken(t) || DayToken(t)
    ensures t != [] && All(t, IsDigit)
  {
  }

  /** Every Timestamp midnight written as "%m %d %Y" parses back to itself. */
  lemma ParseRenderMonthDayYear(d: Stamp)
    requires NotAfter(FirstStampMidnight, d)
    ensures ParseMonthDayYear(RenderMonthDayYear(d)) == Some(d)
  {
    PaddedMonth(d.month);
    PaddedDay(d.day);
    ParseOfTokens(Pad(d.month, 2), " ", Pad(d.day, 2), " ", Pad(d.year, 4));
  }

  lemma PaddedMonth(m: nat)
    requires 1 <= m <= 12
    ensures MonthToken(Pad(m, 2))
  {
    var t := Pad(m, 2);
    assert t[0] == Digit(m / 10) && t[1] == Digit(m % 10);
  }

  lemma PaddedDay(n: nat)
    requires 1 <= n <= 31
    ensures DayToken(Pad(n, 2))
  {
    var t := Pad(n, 2);
    assert t[0] == Digit(n / 10) && t[1] == Digit(n % 10);
  }

  // ---------------------------------------------------------------------
  // The cascade (lines 33-49)

  /** What `to_datetime(s, errors="raise", dayfirst=True)` does with a
      string: it returns a Timestamp, returns NaT without raising (as it
      does for "" and "nan"), or raises. */
  datatype FlexResult = Stamped(day: Stamp) | NaT | Raised

  /** pandas' day-first parser, which is not part of this model and is
      given as a parameter. */
  type DayFirstParser = string -> FlexResult

  /** `clean_date`: NaN gives None without any parse; otherwise the
      pre-cleaned string goes to the day-first parser `flexible`, whose
      Timestamp or NaT is returned as it is; only when it raises does the
      strict month-day-year parse run, and None is returned when that
      raises too. NaT and None both come out as a missing day. */
  function CleanDate(cell: Option<string>, flexible: DayFirstParser): (r: Option<Stamp>)
    ensures cell.None? ==> r.None?
    ensures cell.Some? && flexible(PreClean(cell.value)).Stamped? ==> r == Some(flexible(PreClean(cell.value)).day)
    ensures cell.Some? && flexible(PreClean(cell.value)).NaT? ==> r.None?
    ensures cell.Some? && flexible(PreClean(cell.value)).Raised? ==> r == ParseMonthDayYear(PreClean(cell.value))
    ensures r.None? <==>
      (cell.None? || flexible(PreClean(cell.value)).NaT?
       || (flexible(PreClean(cell.value)).Raised? && ParseMonthDayYear(PreClean(cell.value)).None?))
  {
    match cell
    case None => None
    case Some(raw) =>
      var s := PreClean(raw);
      match flexible(s)
      case Stamped(d) => Some(d)
      case NaT => None
      case Raised => ParseMonthDayYear(s)
  }

  /** Whether `clean_date` returns a datetime value, a Timestamp or NaT,
      rather than None: exactly when the cell is present and not both
      parsers raise. Every day it returns is one; the only datetime value
      that is not a day is the NaT the day-first parser returns. */
  function ReturnsDatetime(cell: Option<string>, flexible: DayFirstParser): (b: bool)
    ensures CleanDate(cell, flexible).Some? ==> b
    ensures cell.None? ==> !b
    ensures b && CleanDate(cell, flexible).None? ==> cell.Some? && flexible(PreClean(cell.value)).NaT?
    ensures b <==> CleanDate(cell, flexible).Some? || (cell.Some? && flexible(PreClean(cell.value)).NaT?)
  {
    match cell
    case None => false
    case Some(raw) =>
      var s := PreClean(raw);
      !(flexible(s).Raised? && ParseMonthDayYear(s).None?)
  }

  /** Dates that differ only in what the pre-clean repairs (edge
      whitespace, repeated dashes, whitespace runs) get the same outcome,
      whatever the day-first parser does. */
  lemma CleanDateOfPreCleaned(s: string, flexible: DayFirstParser)
    ensures CleanDate(Some(PreClean(s)), flexible) == CleanDate(Some(s), flexible)
  {
    PreCleanIdempotent(s);
  }

  /** Line 55: the `release_parsed` cell, NaN for NaT. */
  function RenderParsed(d: Option<Stamp>): (r: Option<string>)
    ensures r.Some? <==> d.Some?
    ensures r.Some? ==> ParseFullDate(r.value) == Some(d.value)
  {
    match d
    case None => None
    case Some(day) =>
      ParseRenderDate(day);
      Some(RenderDate(day))
  }
}
