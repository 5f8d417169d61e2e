/** The two questions the script asks of the cleaned frame (IMDB.py:101
    and 105): the highest grossing movie and the three highest grossing
    ones. Incomes are exact decimals, compared by value. */
module Aggregate {
  import opened Wrappers
  import opened Strings
  import opened Numbers
  import opened Pipeline

  // ---------------------------------------------------------------------
  // Comparing decimals

  /** `a <= b` as numbers: both digit counts brought to the scale a.scale + b.scale. */
  predicate NotAbove(a: Decimal, b: Decimal) {
    Shift(a.digits, b.scale) <= Shift(b.digits, a.scale)
  }

  /** The number a decimal stands for: digits / 10^scale. */
  function Value(a: Decimal): real {
    a.digits as real / Pow10(a.scale) as real
  }

  lemma {:induction false} ShiftIsProduct(n: nat, k: nat)
    ensures Shift(n, k) == n * Pow10(k)
  {
    if k > 0 {
      ShiftIsProduct(n, k - 1);
    }
  }

  /** Comparing fractions with positive denominators by cross-multiplying. */
  lemma CrossMultiply(x: real, p: real, y: real, q: real)
    requires p > 0.0 && q > 0.0
    ensures x / p <= y / q <==> x * q <= y * p
  {
    assert x / p * (p * q) == x * q;
    assert y / q * (p * q) == y * p;
  }

  /** Comparing two whole-number fractions by cross-multiplying. */
  lemma ScaledCompare(x: nat, p: nat, y: nat, q: nat)
    requires p > 0 && q > 0
    ensures x * q <= y * p <==> x as real / p as real <= y as real / q as real
  {
    assert (x * q) as real == x as real * q as real;
    assert (y * p) as real == y as real * p as real;
    CrossMultiply(x as real, p as real, y as real, q as real);
  }

  /** The scaled comparison is the comparison of the numbers. */
  lemma NotAboveValue(a: Decimal, b: Decimal)
    ensures NotAbove(a, b) <==> Value(a) <= Value(b)
  {
    ShiftIsProduct(a.digits, b.scale);
    ShiftIsProduct(b.digits, a.scale);
    ScaledCompare(a.digits, Pow10(a.scale), b.digits, Pow10(b.scale));
  }

  lemma {:induction false} ShiftShift(n: nat, j: nat, k: nat)
    ensures Shift(Shift(n, j), k) == Shift(n, j + k)
  {
    if k > 0 {
      ShiftShift(n, j, k - 1);
    }
  }

  lemma {:induction false} ShiftMonotone(x: nat, y: nat, k: nat)
    ensures x <= y <==> Shift(x, k) <= Shift(y, k)
  {
    if k > 0 {
      ShiftMonotone(x, y, k - 1);
    }
  }

  /** Scaling both sides alike does not change how two numbers compare, so
      a decimal equals its rewriting with more trailing zeros. */
  lemma SameValue(a: Decimal, k: nat, b: Decimal)
    ensures NotAbove(Decimal(Shift(a.digits, k), a.scale + k), b) <==> NotAbove(a, b)
    ensures NotAbove(b, Decimal(Shift(a.digits, k), a.scale + k)) <==> NotAbove(b, a)
  {
    ShiftShift(a.digits, k, b.scale);
    ShiftShift(a.digits, b.scale, k);
    ShiftShift(b.digits, a.scale, k);
    ShiftMonotone(Shift(a.digits, b.scale), Shift(b.digits, a.scale), k);
    ShiftMonotone(Shift(b.digits, a.scale), Shift(a.digits, b.scale), k);
  }

  /** The order is transitive. */
  lemma NotAboveTransitive(a: Decimal, b: Decimal, c: Decimal)
    requires NotAbove(a, b) && NotAbove(b, c)
    ensures NotAbove(a, c)
  {
    ShiftMonotone(Shift(a.digits, b.scale), Shift(b.digits, a.scale), c.scale);
    ShiftMonotone(Shift(b.digits, c.scale), Shift(c.digits, b.scale), a.scale);
    ShiftShift(a.digits, b.scale, c.scale);
    ShiftShift(b.digits, a.scale, c.scale);
    ShiftShift(b.digits, c.scale, a.scale);
    ShiftShift(c.digits, b.scale, a.scale);
    ShiftShift(a.digits, c.scale, b.scale);
    ShiftShift(c.digits, a.scale, b.scale);
    ShiftMonotone(Shift(a.digits, c.scale), Shift(c.digits, a.scale), b.scale);
  }

  // ---------------------------------------------------------------------
  // Line 101: `df.loc[df['income'].idxmax()]`

  /** A row's income, NaN unless the column holds a number. */
  function IncomeValue(r: Row): Option<Decimal> {
    if r.income.Number? then r.income.value else None
  }

  function Incomes(rows: seq<Row>): (col: seq<Option<Decimal>>)
    ensures |col| == |rows| && forall i :: 0 <= i < |rows| ==> col[i] == IncomeValue(rows[i])
  {
    seq(|rows|, i requires 0 <= i < |rows| => IncomeValue(rows[i]))
  }

  /** `Series.idxmax()` (skipping NaN): the position of the first largest
      value; none when every value is NaN. */
  function FirstMax(col: seq<Option<Decimal>>): (r: Option<nat>)
    ensures r.None? <==> forall i :: 0 <= i < |col| ==> col[i].None?
    ensures r.Some? ==> r.value < |col| && col[r.value].Some?
  {
    if col == [] then None
    else
      var n := |col| - 1;
      var best := FirstMax(col[..n]);
      assert forall i :: 0 <= i < n ==> col[..n][i] == col[i];
      if col[n].Some? && (best.None? || !NotAbove(col[n].value, col[best.value].value)) then Some(n)
      else best
  }

  /** The position `FirstMax` picks holds a maximum, and every earlier
      present value is strictly smaller. */
  lemma {:induction false} FirstMaxIsFirstMaximum(col: seq<Option<Decimal>>)
    requires FirstMax(col).Some?
    ensures var m := FirstMax(col).value;
      (forall j :: 0 <= j < |col| && col[j].Some? ==> NotAbove(col[j].value, col[m].value))
      && (forall j :: 0 <= j < m && col[j].Some? ==> !NotAbove(col[m].value, col[j].value))
  {
    var n := |col| - 1;
    var prefix := col[..n];
    var best := FirstMax(prefix);
    assert forall i :: 0 <= i < n ==> prefix[i] == col[i];
    if best.Some? {
      FirstMaxIsFirstMaximum(prefix);
    }
    if col[n].Some? && (best.None? || !NotAbove(col[n].value, col[best.value].value)) {
      if best.Some? {
        var b := col[best.value].value;
        forall j | 0 <= j < n && col[j].Some?
          ensures NotAbove(col[j].value, col[n].value) && !NotAbove(col[n].value, col[j].value)
        {
          NotAboveTransitive(col[j].value, b, col[n].value);
          if NotAbove(col[n].value, col[j].value) {
            NotAboveTransitive(col[n].value, col[j].value, b);
          }
        }
      }
    } else if col[n].Some? {
      assert NotAbove(col[n].value, col[best.value].value);
    }
  }

  /** Line 101: the row of the first largest income; none when no income
      is a number (the script then fails). */
  function TopMovie(rows: seq<Row>): (r: Option<Row>)
    ensures r.None? <==> forall i :: 0 <= i < |rows| ==> IncomeValue(rows[i]).None?
    ensures r.Some? ==> r.value in rows && IncomeValue(r.value).Some?
  {
    match FirstMax(Incomes(rows))
    case None => None
    case Some(i) => Some(rows[i])
  }

  /** The top movie's income is at least every other income. */
  lemma TopMovieIsMaximal(rows: seq<Row>)
    requires TopMovie(rows).Some?
    ensures forall i :: 0 <= i < |rows| && IncomeValue(rows[i]).Some? ==>
      NotAbove(IncomeValue(rows[i]).value, IncomeValue(TopMovie(rows).value).value)
  {
    FirstMaxIsFirstMaximum(Incomes(rows));
  }

  // ---------------------------------------------------------------------
  // Line 105: `df.sort_values(by="income", ascending=False).head(3)`

  /** `a` may stand before `b` in a descending sort with NaN last. */
  predicate Precedes(a: Option<Decimal>, b: Option<Decimal>) {
    b.None? || (a.Some? && NotAbove(b.value, a.value))
  }

  /** By value: NaN comes last, and a number may come before any number
      no greater than it. */
  lemma PrecedesValue(a: Option<Decimal>, b: Option<Decimal>)
    ensures Precedes(a, b) <==> b.None? || (a.Some? && Value(b.value) <= Value(a.value))
    ensures Precedes(a, b) || Precedes(b, a)
  {
    if a.Some? && b.Some? {
      NotAboveValue(b.value, a.value);
      NotAboveValue(a.value, b.value);
    }
  }

  lemma PrecedesTransitive(a: Option<Decimal>, b: Option<Decimal>, c: Option<Decimal>)
    requires Precedes(a, b) && Precedes(b, c)
    ensures Precedes(a, c)
  {
    if c.Some? {
      NotAboveTransitive(c.value, b.value, a.value);
    }
  }

  predicate Descending(s: seq<Row>) {
    forall i, j :: 0 <= i < j < |s| ==> Precedes(IncomeValue(s[i]), IncomeValue(s[j]))
  }

  function Insert(x: Row, s: seq<Row>): (r: seq<Row>)
    ensures |r| == |s| + 1 && multiset(r) == multiset(s) + multiset{x}
  {
    if s == [] then [x]
    else if Precedes(IncomeValue(x), IncomeValue(s[0])) then [x] + s
    else
      assert s == [s[0]] + s[1..];
      [s[0]] + Insert(x, s[1..])
  }

  lemma {:induction false} InsertDescending(x: Row, s: seq<Row>)
    requires Descending(s)
    ensures Descending(Insert(x, s))
  {
    if s != [] {
      var k := IncomeValue(x);
      if Precedes(k, IncomeValue(s[0])) {
        forall j | 0 <= j < |s|
          ensures Precedes(k, IncomeValue(s[j]))
        {
          if j > 0 {
            PrecedesTransitive(k, IncomeValue(s[0]), IncomeValue(s[j]));
          }
        }
      } else {
        var rest := Insert(x, s[1..]);
        InsertDescending(x, s[1..]);
        forall j | 0 <= j < |rest|
          ensures Precedes(IncomeValue(s[0]), IncomeValue(rest[j]))
        {
          assert rest[j] in multiset(rest);
          if rest[j] != x {
            assert rest[j] in multiset(s[1..]);
            var p :| 0 <= p < |s[1..]| && s[1..][p] == rest[j];
            assert s[p + 1] == rest[j];
          }
        }
      }
    }
  }

  /** The frame sorted by income, largest first, NaN last. Among equal
      incomes pandas' default sort promises no order; this one is one of
      the orders it may produce. */
  function SortByIncome(s: seq<Row>): (r: seq<Row>)
    ensures |r| == |s| && multiset(r) == multiset(s)
  {
    if s == [] then []
    else
      assert s == [s[0]] + s[1..];
      Insert(s[0], SortByIncome(s[1..]))
  }

  lemma {:induction false} SortByIncomeDescending(s: seq<Row>)
    ensures Descending(SortByIncome(s))
  {
    if s != [] {
      SortByIncomeDescending(s[1..]);
      InsertDescending(s[0], SortByIncome(s[1..]));
    }
  }

  /** Line 105. */
  function TopThree(rows: seq<Row>): (r: seq<Row>)
    ensures |r| == if |rows| < 3 then |rows| else 3
  {
    SortByIncome(rows)[..if |rows| < 3 then |rows| else 3]
  }

  /** In a descending sequence every row of a prefix precedes every row
      after it. */
  lemma PrefixPrecedes(s: seq<Row>, n: nat)
    requires Descending(s) && n <= |s|
    ensures forall x, y :: x in multiset(s[n..]) && y in s[..n] ==> Precedes(IncomeValue(y), IncomeValue(x))
  {
    forall x, y | x in multiset(s[n..]) && y in s[..n]
      ensures Precedes(IncomeValue(y), IncomeValue(x))
    {
      var p :| 0 <= p < |s[n..]| && s[n..][p] == x;
      var q :| 0 <= q < n && s[q] == y;
      assert s[n + p] == x;
    }
  }

  /** The three rows are frame rows, largest income first and NaN last, and
      no row left out has a larger income than one taken. */
  lemma TopThreeHolds(rows: seq<Row>)
    ensures var r := TopThree(rows);
      Descending(r) && multiset(r) <= multiset(rows)
      && forall x, y :: x in multiset(rows) - multiset(r) && y in r ==> Precedes(IncomeValue(y), IncomeValue(x))
  {
    var sorted := SortByIncome(rows);
    var n := if |rows| < 3 then |rows| else 3;
    assert TopThree(rows) == sorted[..n];
    assert multiset(rows) == multiset(sorted[..n]) + multiset(sorted[n..]) by {
      assert sorted == sorted[..n] + sorted[n..];
    }
    SortByIncomeDescending(rows);
    PrefixPrecedes(sorted, n);
  }
}
