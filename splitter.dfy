/** Lines 9-23 of IMDB.py: the one loaded column is split on ';' into a
    table, columns that are "" in every row are dropped, and the eleven
    schema names are given to the remaining columns by position. */
module Splitter {
  import opened Wrappers
  import opened Strings

  /** A pandas cell holding a string or NaN. */
  type Cell = Option<string>

  /** A frame of string cells: `width` columns, rows in index order. */
  datatype Table = Table(width: nat, rows: seq<seq<Cell>>)

  predicate Rectangular(t: Table) {
    forall i :: 0 <= i < |t.rows| ==> |t.rows[i]| == t.width
  }

  /** `Series.str.split(";")` on one cell: a string gives its fields, NaN
      gives NaN (a one-cell row, before `expand=True` pads it). */
  function SplitCell(c: Cell): (r: seq<Cell>)
    ensures |r| >= 1
    ensures c.None? ==> r == [None]
    ensures c.Some? ==> |r| == Count(c.value, ';') + 1
    ensures c.Some? ==> forall k :: 0 <= k < |r| ==> r[k].Some? && ';' !in r[k].value
  {
    match c
    case None => [None]
    case Some(s) =>
      var fields := Split(s, ';');
      seq(|fields|, k requires 0 <= k < |fields| => Some(fields[k]))
  }

  /** Joining the present fields of a split string with ';' gives the string back. */
  lemma SplitCellJoin(s: string)
    ensures Join(seq(|SplitCell(Some(s))|, k requires 0 <= k < |SplitCell(Some(s))| => SplitCell(Some(s))[k].value), ';') == s
  {
    var fields := Split(s, ';');
    assert seq(|SplitCell(Some(s))|, k requires 0 <= k < |SplitCell(Some(s))| => SplitCell(Some(s))[k].value) == fields;
    JoinSplit(s, ';');
  }

  function MaxLength(rs: seq<seq<Cell>>): (w: nat)
    ensures forall i :: 0 <= i < |rs| ==> |rs[i]| <= w
    ensures rs == [] ==> w == 0
    ensures rs != [] ==> exists i :: 0 <= i < |rs| && |rs[i]| == w
  {
    if rs == [] then 0
    else
      var w := MaxLength(rs[..|rs| - 1]);
      if |rs[|rs| - 1]| > w then |rs[|rs| - 1]| else w
  }

  /** A row widened to `w` cells with NaN on the right. */
  function PadRow(r: seq<Cell>, w: nat): (p: seq<Cell>)
    requires |r| <= w
    ensures |p| == w && p[..|r|] == r
    ensures forall j :: |r| <= j < w ==> p[j].None?
  {
    r + seq(w - |r|, _ => None)
  }

  function SplitAll(lines: seq<Cell>): (rs: seq<seq<Cell>>)
    ensures |rs| == |lines| && forall i :: 0 <= i < |lines| ==> rs[i] == SplitCell(lines[i])
  {
    seq(|lines|, i requires 0 <= i < |lines| => SplitCell(lines[i]))
  }

  function PadAll(rs: seq<seq<Cell>>, w: nat): (ps: seq<seq<Cell>>)
    requires forall i :: 0 <= i < |rs| ==> |rs[i]| <= w
    ensures |ps| == |rs| && forall i :: 0 <= i < |rs| ==> ps[i] == PadRow(rs[i], w)
  {
    seq(|rs|, i requires 0 <= i < |rs| => PadRow(rs[i], w))
  }

  /** `expand=True`: every row is as wide as the widest, shorter rows padded with NaN. */
  function Expand(lines: seq<Cell>): (t: Table)
    ensures Rectangular(t) && |t.rows| == |lines|
    ensures forall i :: 0 <= i < |lines| ==> |SplitCell(lines[i])| <= t.width
    ensures lines != [] ==> exists i :: 0 <= i < |lines| && |SplitCell(lines[i])| == t.width
    ensures forall i :: 0 <= i < |lines| ==> t.rows[i] == PadRow(SplitCell(lines[i]), t.width)
  {
    var split := SplitAll(lines);
    var w := MaxLength(split);
    Table(w, PadAll(split, w))
  }

  /** Column `j` has a cell that is not "" (NaN counts: `NaN != ""` holds). */
  predicate ColumnKept(t: Table, j: nat)
    requires Rectangular(t) && j < t.width
  {
    exists i :: 0 <= i < |t.rows| && t.rows[i][j] != Some("")
  }

  /** `(df != "").any(axis=0)` on columns `from`..width-1: the kept column
      numbers, in increasing order. */
  function KeptColumns(t: Table, from: nat): (ks: seq<nat>)
    requires Rectangular(t)
    ensures forall k :: 0 <= k < |ks| ==> from <= ks[k] < t.width && ColumnKept(t, ks[k])
    ensures forall k, l :: 0 <= k < l < |ks| ==> ks[k] < ks[l]
    ensures forall j :: from <= j < t.width && ColumnKept(t, j) ==> j in ks
    decreases t.width - from
  {
    if from >= t.width then []
    else if ColumnKept(t, from) then [from] + KeptColumns(t, from + 1)
    else KeptColumns(t, from + 1)
  }

  /** Line 15: `df.loc[:, (df != "").any(axis=0)]`. */
  function DropEmptyColumns(t: Table): (r: Table)
    requires Rectangular(t)
    ensures Rectangular(r) && |r.rows| == |t.rows|
    ensures r.width == |KeptColumns(t, 0)|
    ensures forall i, k :: 0 <= i < |r.rows| && 0 <= k < r.width ==> r.rows[i][k] == t.rows[i][KeptColumns(t, 0)[k]]
  {
    var ks := KeptColumns(t, 0);
    Table(|ks|, seq(|t.rows|, i requires 0 <= i < |t.rows| => seq(|ks|, k requires 0 <= k < |ks| => t.rows[i][ks[k]])))
  }

  /** What the column drop keeps and loses: column j survives exactly when
      some row has a cell other than "" in it, and surviving columns keep
      their order and their cells. */
  lemma DropEmptyColumnsKeeps(t: Table, j: nat)
    requires Rectangular(t) && j < t.width
    ensures ColumnKept(t, j) <==> exists k :: 0 <= k < DropEmptyColumns(t).width && KeptColumns(t, 0)[k] == j
  {
    var ks := KeptColumns(t, 0);
    var w := DropEmptyColumns(t).width;
    assert w == |ks|;
    if ColumnKept(t, j) {
      assert j in ks;
      var k :| 0 <= k < |ks| && ks[k] == j;
      assert 0 <= k < w && KeptColumns(t, 0)[k] == j;
    } else {
      forall k | 0 <= k < w
        ensures KeptColumns(t, 0)[k] != j
      {
        assert ColumnKept(t, ks[k]);
      }
    }
  }

  /** A row after the rename: the eleven schema columns, in schema order. */
  datatype RawMovie = RawMovie(
    id: Cell, title: Cell, releaseYr: Cell, genre: Cell, duration: Cell, country: Cell,
    contentRating: Cell, director: Cell, income: Cell, votes: Cell, score: Cell)

  const SchemaWidth := 11

  /** The row's cells, in schema order. */
  function Cells(m: RawMovie): (r: seq<Cell>)
    ensures |r| == SchemaWidth
  {
    [m.id, m.title, m.releaseYr, m.genre, m.duration, m.country,
     m.contentRating, m.director, m.income, m.votes, m.score]
  }

  /** Naming cells by position: the eleven cells of a row, as a record. */
  function Named(r: seq<Cell>): (m: RawMovie)
    requires |r| == SchemaWidth
    ensures Cells(m) == r
  {
    RawMovie(r[0], r[1], r[2], r[3], r[4], r[5], r[6], r[7], r[8], r[9], r[10])
  }

  datatype LoadError = LengthMismatch(expected: nat, got: nat)

  /** Lines 19-23: assigning eleven names to the columns. pandas raises
      "Length mismatch" for any other number of columns. */
  function Rename(t: Table): (r: Result<seq<RawMovie>, LoadError>)
    requires Rectangular(t)
    ensures r.Ok? <==> t.width == SchemaWidth
    ensures r.Err? ==> r.error == LengthMismatch(SchemaWidth, t.width)
    ensures r.Ok? ==> |r.value| == |t.rows| && forall i :: 0 <= i < |t.rows| ==> Cells(r.value[i]) == t.rows[i]
  {
    if t.width != SchemaWidth then Err(LengthMismatch(SchemaWidth, t.width))
    else Ok(seq(|t.rows|, i requires 0 <= i < |t.rows| => Named(t.rows[i])))
  }

  /** Lines 9-23 as a whole. */
  function Load(lines: seq<Cell>): (r: Result<seq<RawMovie>, LoadError>)
    ensures r.Ok? ==> |r.value| == |lines|
    ensures r.Ok? <==> |KeptColumns(Expand(lines), 0)| == SchemaWidth
  {
    Rename(DropEmptyColumns(Expand(lines)))
  }

  /** Record `i` holds, in schema order, the cells of line `i` that lie in
      the kept columns of the padded split. */
  lemma LoadCells(lines: seq<Cell>, i: nat, k: nat)
    requires Load(lines).Ok? && i < |lines| && k < SchemaWidth
    ensures var t := Expand(lines);
      Cells(Load(lines).value[i])[k] == t.rows[i][KeptColumns(t, 0)[k]]
  {
    var t := Expand(lines);
    var d := DropEmptyColumns(t);
    assert Cells(Load(lines).value[i]) == d.rows[i];
  }
}
