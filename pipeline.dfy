/** The table-level steps of the cleaning script (IMDB.py:52-95): the
    helper date columns, the three manual overrides, the blank-date row
    filter, the flag recomputation, the release column replacement, the
    helper column drop and the three numeric column rewrites. The table
    `df` is a `DataFrame` object whose row sequence each step replaces;
    each step is specified by a function on rows, and the properties of
    the script are lemmas about those functions. */
module Pipeline {
  import opened Wrappers
  import opened Strings
  import Splitter
  import opened Dates
  import opened Numbers

  /** A cell of `income`, `votes` or `score`: text until its column is
      converted, a number (or NaN) afterwards. */
  datatype Field = Text(text: Option<string>) | Number(value: Option<Decimal>)

  /** The helper columns `release_parsed` and `release_flag` (lines 55-56);
      a `None` flag is a NaN cell. */
  datatype Helper = Helper(parsed: Option<string>, flag: Option<bool>)

  /** One row of `df`: its index label, the eleven named columns and, while
      they exist, the helper columns. */
  datatype Row = Row(
    index: nat,
    id: Option<string>, title: Option<string>, releaseYr: Option<string>, genre: Option<string>,
    duration: Option<string>, country: Option<string>, contentRating: Option<string>,
    director: Option<string>,
    income: Field, votes: Field, score: Field,
    helper: Option<Helper>)

  /** The frame after line 23: the loaded records under the labels 0, 1, ... */
  function FromTable(t: seq<Splitter.RawMovie>): (r: seq<Row>)
    ensures |r| == |t|
    ensures forall i :: 0 <= i < |r| ==> r[i].index == i && r[i].releaseYr == t[i].releaseYr
    ensures TextColumns(r)
  {
    seq(|t|, i requires 0 <= i < |t| =>
      var m := t[i];
      Row(i, m.id, m.title, m.releaseYr, m.genre, m.duration, m.country, m.contentRating, m.director,
          Text(m.income), Text(m.votes), Text(m.score), None))
  }

  predicate HasHelpers(rows: seq<Row>) {
    forall i :: 0 <= i < |rows| ==> rows[i].helper.Some?
  }

  /** The numeric columns before lines 85-95 convert them. */
  predicate TextColumns(rows: seq<Row>) {
    forall i :: 0 <= i < |rows| ==> rows[i].income.Text? && rows[i].votes.Text? && rows[i].score.Text?
  }

  /** Two rows agree on the label and on every column but the helper ones. */
  predicate SameColumns(a: Row, b: Row) {
    a.index == b.index && a.id == b.id && a.title == b.title && a.releaseYr == b.releaseYr
    && a.genre == b.genre && a.duration == b.duration && a.country == b.country
    && a.contentRating == b.contentRating && a.director == b.director
    && a.income == b.income && a.votes == b.votes && a.score == b.score
  }

  /** Index labels strictly increase down the frame (so they are distinct). */
  predicate LabelsIncrease(rows: seq<Row>) {
    forall i, j :: 0 <= i < j < |rows| ==> rows[i].index < rows[j].index
  }

  // ---------------------------------------------------------------------
  // Lines 52-56: parse the release dates into the helper columns

  /** What `clean_date` returns for a row's raw `release_yr`. */
  function DateOf(r: Row, flexible: DayFirstParser): Option<Stamp> {
    CleanDate(r.releaseYr, flexible)
  }

  /** Whether `parsed_dates` holds a datetime value at all (a Timestamp, or
      the NaT the day-first parser returns for "" or "nan"); when every
      cell is None its dtype is object, not datetime-like, and `.dt`
      (line 55) raises. */
  predicate AnyDate(rows: seq<Row>, flexible: DayFirstParser) {
    exists i :: 0 <= i < |rows| && ReturnsDatetime(rows[i].releaseYr, flexible)
  }

  function WithDate(r: Row, flexible: DayFirstParser): Row {
    var d := DateOf(r, flexible);
    r.(helper := Some(Helper(RenderParsed(d), Some(d.None?))))
  }

  function WithDates(rows: seq<Row>, flexible: DayFirstParser): (r: seq<Row>)
    ensures |r| == |rows| && HasHelpers(r)
    ensures TextColumns(rows) ==> TextColumns(r)
  {
    seq(|rows|, i requires 0 <= i < |rows| => WithDate(rows[i], flexible))
  }

  /** Lines 55-56: a row's `release_parsed` is present exactly when its date
      parsed, it is then that date as a full-date, and `release_flag` says
      whether it failed; nothing else in the row changes. */
  lemma DateColumns(rows: seq<Row>, flexible: DayFirstParser, i: nat)
    requires i < |rows|
    ensures var h := WithDates(rows, flexible)[i].helper.value;
      var d := DateOf(rows[i], flexible);
      (h.parsed.Some? <==> d.Some?)
      && (h.parsed.Some? ==> ParseFullDate(h.parsed.value) == Some(d.value))
      && h.flag == Some(d.None?)
    ensures WithDates(rows, flexible)[i].(helper := rows[i].helper) == rows[i]
  {
  }

  // ---------------------------------------------------------------------
  // Lines 64-66: writing one `release_parsed` cell by label

  /** The `release_parsed` cell of a row (NaN when the column is absent). */
  function ParsedOf(r: Row): Option<string> {
    if r.helper.Some? then r.helper.value.parsed else None
  }

  function FlagOf(r: Row): Option<bool> {
    if r.helper.Some? then r.helper.value.flag else None
  }

  predicate HasLabel(rows: seq<Row>, lbl: nat) {
    exists i :: 0 <= i < |rows| && rows[i].index == lbl
  }

  /** The row `.loc` appends for a label the index lacks: NaN everywhere but
      in the written cell. */
  function Enlarged(lbl: nat, value: string): (e: Row)
    ensures e.index == lbl && Blank(e)
    ensures ParsedOf(e) == Some(value) && FlagOf(e).None? && e.helper.Some?
  {
    Row(lbl, None, None, None, None, None, None, None, None, Text(None), Text(None), Text(None),
        Some(Helper(Some(value), None)))
  }

  /** One row under `.loc[label, "release_parsed"] = value`: the row under
      `label` gets the value and keeps its flag; any other row is left
      alone, and no named column changes. */
  function SetCell(r: Row, lbl: nat, value: string): (o: Row)
    ensures o.index == r.index && FlagOf(o) == FlagOf(r)
    ensures r.helper.Some? || r.index == lbl ==> o.helper.Some?
    ensures ParsedOf(o) == if r.index == lbl then Some(value) else ParsedOf(r)
    ensures o.(helper := r.helper) == r
  {
    if r.index == lbl then r.(helper := Some(Helper(Some(value), FlagOf(r)))) else r
  }

  /** `df.loc[label, "release_parsed"] = value`: every row under `label`
      gets the value; when there is none, a row is appended. */
  function SetParsed(rows: seq<Row>, lbl: nat, value: string): (r: seq<Row>)
    ensures HasHelpers(rows) ==> HasHelpers(r)
    ensures TextColumns(rows) ==> TextColumns(r)
  {
    var updated := seq(|rows|, i requires 0 <= i < |rows| => SetCell(rows[i], lbl, value));
    if HasLabel(rows, lbl) then updated else updated + [Enlarged(lbl, value)]
  }

  /** After one write: some row has the label, every row with the label
      holds the value, rows with other labels are as they were, and a row
      is appended exactly when the label was missing. */
  lemma SetParsedHolds(rows: seq<Row>, lbl: nat, value: string)
    ensures var r := SetParsed(rows, lbl, value);
      |r| == if HasLabel(rows, lbl) then |rows| else |rows| + 1
    ensures var r := SetParsed(rows, lbl, value);
      HasLabel(r, lbl) && forall i :: 0 <= i < |r| && r[i].index == lbl ==> ParsedOf(r[i]) == Some(value)
    ensures var r := SetParsed(rows, lbl, value);
      forall i :: 0 <= i < |rows| ==> r[i].index == rows[i].index && (rows[i].index != lbl ==> r[i] == rows[i])
  {
    var r := SetParsed(rows, lbl, value);
    if HasLabel(rows, lbl) {
      var i :| 0 <= i < |rows| && rows[i].index == lbl;
      assert r[i].index == lbl;
    } else {
      assert r[|rows|].index == lbl;
    }
  }

  /** A write changes no column but the helper ones, and an appended row
      is blank but for the written cell. */
  lemma SetParsedColumns(rows: seq<Row>, lbl: nat, value: string)
    ensures var r := SetParsed(rows, lbl, value);
      |rows| <= |r| <= |rows| + 1
      && (forall i :: 0 <= i < |rows| ==> SameColumns(r[i], rows[i]))
      && (forall i :: |rows| <= i < |r| ==> r[i] == Enlarged(lbl, value))
  {
  }

  /** A write keeps labels increasing when a missing label is larger than
      all present ones. */
  lemma SetParsedIncreasing(rows: seq<Row>, lbl: nat, value: string)
    requires LabelsIncrease(rows)
    requires !HasLabel(rows, lbl) ==> forall i :: 0 <= i < |rows| ==> rows[i].index < lbl
    ensures LabelsIncrease(SetParsed(rows, lbl, value))
  {
    SetParsedHolds(rows, lbl, value);
  }

  /** A write under a label below a bound keeps every label below it. */
  lemma SetParsedBounded(rows: seq<Row>, lbl: nat, value: string, bound: nat)
    requires lbl < bound && forall i :: 0 <= i < |rows| ==> rows[i].index < bound
    ensures var r := SetParsed(rows, lbl, value);
      forall i :: 0 <= i < |r| ==> r[i].index < bound
  {
    SetParsedHolds(rows, lbl, value);
  }

  /** Lines 64-66. */
  function Overrides(rows: seq<Row>): (r: seq<Row>)
    ensures HasHelpers(rows) ==> HasHelpers(r)
    ensures TextColumns(rows) ==> TextColumns(r)
  {
    SetParsed(SetParsed(SetParsed(rows, 70, "1951-03-06"), 83, "1984-02-24"), 84, "1976-12-24")
  }

  /** The three literals written on lines 64-66 are dates in the
      `full-date` form that line 55 renders. */
  lemma OverrideLiteralsAreDates()
    ensures ParseFullDate("1951-03-06") == Some(Date(1951, 3, 6))
    ensures ParseFullDate("1984-02-24") == Some(Date(1984, 2, 24))
    ensures ParseFullDate("1976-12-24") == Some(Date(1976, 12, 24))
  {
    ReadFullDate('1', '9', '5', '1', '0', '3', '0', '6');
    ReadFullDate('1', '9', '8', '4', '0', '2', '2', '4');
    ReadFullDate('1', '9', '7', '6', '1', '2', '2', '4');
  }

  /** The three written cells hold their literals whatever the cascade
      produced, and every row under another label is untouched. */
  lemma OverridesHold(rows: seq<Row>)
    ensures var r := Overrides(rows);
      HasLabel(r, 70) && HasLabel(r, 83) && HasLabel(r, 84)
    ensures var r := Overrides(rows);
      forall i :: 0 <= i < |r| ==>
        (r[i].index == 70 ==> ParsedOf(r[i]) == Some("1951-03-06"))
        && (r[i].index == 83 ==> ParsedOf(r[i]) == Some("1984-02-24"))
        && (r[i].index == 84 ==> ParsedOf(r[i]) == Some("1976-12-24"))
    ensures var r := Overrides(rows);
      |rows| <= |r| <= |rows| + 3
      && forall i :: 0 <= i < |rows| ==>
        r[i].index == rows[i].index && (rows[i].index !in {70, 83, 84} ==> r[i] == rows[i])
  {
    var r1 := SetParsed(rows, 70, "1951-03-06");
    var r2 := SetParsed(r1, 83, "1984-02-24");
    SetParsedHolds(rows, 70, "1951-03-06");
    SetParsedHolds(r1, 83, "1984-02-24");
    SetParsedHolds(r2, 84, "1976-12-24");
    SetParsedKeeps(r1, 83, "1984-02-24", 70, "1951-03-06");
    SetParsedKeeps(r2, 84, "1976-12-24", 70, "1951-03-06");
    SetParsedKeeps(r2, 84, "1976-12-24", 83, "1984-02-24");
  }

  /** A row that `.loc` appended: NaN in every named column. */
  predicate Blank(r: Row) {
    r.id.None? && r.title.None? && r.releaseYr.None? && r.genre.None? && r.duration.None?
    && r.country.None? && r.contentRating.None? && r.director.None?
    && r.income == Text(None) && r.votes == Text(None) && r.score == Text(None)
  }

  /** The overrides change no named column; the rows they append are blank
      and carry one of the three labels. */
  lemma OverridesColumns(rows: seq<Row>)
    ensures var r := Overrides(rows);
      |rows| <= |r| && (forall i :: 0 <= i < |rows| ==> SameColumns(r[i], rows[i]))
      && forall i :: |rows| <= i < |r| ==> r[i].index in {70, 83, 84} && Blank(r[i])
  {
    var r1 := SetParsed(rows, 70, "1951-03-06");
    var r2 := SetParsed(r1, 83, "1984-02-24");
    SetParsedColumns(rows, 70, "1951-03-06");
    SetParsedColumns(r1, 83, "1984-02-24");
    SetParsedColumns(r2, 84, "1976-12-24");
  }

  /** A write under one label leaves what another label holds. */
  lemma SetParsedKeeps(rows: seq<Row>, lbl: nat, value: string, other: nat, v: string)
    requires other != lbl
    requires HasLabel(rows, other) && forall i :: 0 <= i < |rows| && rows[i].index == other ==> ParsedOf(rows[i]) == Some(v)
    ensures var r := SetParsed(rows, lbl, value);
      HasLabel(r, other) && forall i :: 0 <= i < |r| && r[i].index == other ==> ParsedOf(r[i]) == Some(v)
  {
    SetParsedHolds(rows, lbl, value);
    var i :| 0 <= i < |rows| && rows[i].index == other;
    assert SetParsed(rows, lbl, value)[i].index == other;
  }

  /** The frame built on line 9 has labels 0, 1, ...; the labels the
      overrides append are larger, in increasing order. */
  lemma OverridesIncreasing(rows: seq<Row>)
    requires forall i :: 0 <= i < |rows| ==> rows[i].index == i
    ensures LabelsIncrease(Overrides(rows))
  {
    var n := |rows|;
    var r1 := SetParsed(rows, 70, "1951-03-06");
    var r2 := SetParsed(r1, 83, "1984-02-24");
    SetParsedHolds(rows, 70, "1951-03-06");
    SetParsedHolds(r1, 83, "1984-02-24");
    if n > 70 { assert rows[70].index == 70; }
    SetParsedIncreasing(rows, 70, "1951-03-06");
    if n > 83 { assert r1[83].index == 83; } else { SetParsedBounded(rows, 70, "1951-03-06", 83); }
    SetParsedIncreasing(r1, 83, "1984-02-24");
    if n > 84 {
      assert r2[84].index == 84;
    } else {
      SetParsedBounded(rows, 70, "1951-03-06", 84);
      SetParsedBounded(r1, 83, "1984-02-24", 84);
    }
    SetParsedIncreasing(r2, 84, "1976-12-24");
  }

  // ---------------------------------------------------------------------
  // Line 69: dropping rows whose raw release_yr is blank

  /** `df["release_yr"].str.strip() != ""`: a NaN cell compares unequal, so
      its row stays. */
  predicate KeepRow(r: Row) {
    r.releaseYr.None? || Strip(r.releaseYr.value) != []
  }

  function DropBlank(rows: seq<Row>): (r: seq<Row>)
    ensures |r| <= |rows|
    ensures HasHelpers(rows) ==> HasHelpers(r)
    ensures TextColumns(rows) ==> TextColumns(r)
  {
    if rows == [] then []
    else
      var last := rows[|rows| - 1];
      DropBlank(rows[..|rows| - 1]) + (if KeepRow(last) then [last] else [])
  }

  /** The positions of the rows the filter keeps, in order. */
  function KeptIndices(rows: seq<Row>): (ks: seq<nat>)
    ensures forall k :: 0 <= k < |ks| ==> ks[k] < |rows|
  {
    if rows == [] then []
    else
      var n := |rows| - 1;
      KeptIndices(rows[..n]) + (if KeepRow(rows[n]) then [n] else [])
  }

  /** The filter keeps exactly the rows whose raw `release_yr` is not blank
      once stripped: the kept positions are those rows, in increasing order. */
  lemma {:induction false} KeptIndicesExactly(rows: seq<Row>)
    ensures var ks := KeptIndices(rows);
      (forall k, l :: 0 <= k < l < |ks| ==> ks[k] < ks[l])
      && (forall i :: 0 <= i < |rows| ==> (i in ks <==> KeepRow(rows[i])))
  {
    if rows != [] {
      var n := |rows| - 1;
      var ks0 := KeptIndices(rows[..n]);
      var ks := KeptIndices(rows);
      KeptIndicesExactly(rows[..n]);
      assert ks == ks0 + (if KeepRow(rows[n]) then [n] else []);
      forall k, l | 0 <= k < l < |ks| ensures ks[k] < ks[l] {
        if l >= |ks0| {
          assert ks[l] == n && ks[k] == ks0[k];
        }
      }
      forall i | 0 <= i < |rows| ensures i in ks <==> KeepRow(rows[i]) {
        if i < n {
          assert i in ks0 <==> KeepRow(rows[..n][i]);
          assert rows[..n][i] == rows[i];
          assert i in ks <==> i in ks0 by {
            assert i != n;
          }
        } else {
          assert n !in ks0 by {
            assert forall k :: 0 <= k < |ks0| ==> ks0[k] < n;
          }
        }
      }
    }
  }

  /** The filtered frame is the rows at the kept positions, unchanged
      (labels included). */
  lemma {:induction false} DropBlankKeeps(rows: seq<Row>)
    ensures var ks := KeptIndices(rows);
      |ks| == |DropBlank(rows)| && forall k :: 0 <= k < |ks| ==> DropBlank(rows)[k] == rows[ks[k]]
  {
    if rows != [] {
      var n := |rows| - 1;
      DropBlankKeeps(rows[..n]);
    }
  }

  /** Kept rows keep their relative order, so increasing labels stay increasing. */
  lemma DropBlankIncreasing(rows: seq<Row>)
    requires LabelsIncrease(rows)
    ensures LabelsIncrease(DropBlank(rows))
  {
    DropBlankKeeps(rows);
    KeptIndicesExactly(rows);
  }

  // ---------------------------------------------------------------------
  // Lines 72-79

  function FlagRefreshed(r: Row): Row
    requires r.helper.Some?
  {
    var p := r.helper.value.parsed;
    r.(helper := Some(Helper(p, Some(p.None?))))
  }

  /** Line 72: `release_flag = release_parsed.isna()`. */
  function RecomputeFlags(rows: seq<Row>): (r: seq<Row>)
    requires HasHelpers(rows)
    ensures |r| == |rows| && HasHelpers(r)
    ensures forall i :: 0 <= i < |r| ==>
      r[i].helper.value.parsed == rows[i].helper.value.parsed
      && r[i].helper.value.flag == Some(rows[i].helper.value.parsed.None?)
      && r[i].(helper := rows[i].helper) == rows[i]
    ensures TextColumns(rows) ==> TextColumns(r)
  {
    seq(|rows|, i requires 0 <= i < |rows| => FlagRefreshed(rows[i]))
  }

  function ReleaseReplaced(r: Row): Row
    requires r.helper.Some?
  {
    r.(releaseYr := r.helper.value.parsed)
  }

  /** Line 75: `release_yr = release_parsed`. */
  function ReleaseFromParsed(rows: seq<Row>): (r: seq<Row>)
    requires HasHelpers(rows)
    ensures |r| == |rows| && HasHelpers(r)
    ensures TextColumns(rows) ==> TextColumns(r)
  {
    seq(|rows|, i requires 0 <= i < |rows| => ReleaseReplaced(rows[i]))
  }

  function HelpersDropped(r: Row): Row {
    r.(helper := None)
  }

  /** Lines 78-79: both helper columns go. */
  function DropHelpers(rows: seq<Row>): (r: seq<Row>)
    ensures |r| == |rows|
    ensures TextColumns(rows) ==> TextColumns(r)
  {
    seq(|rows|, i requires 0 <= i < |rows| => HelpersDropped(rows[i]))
  }

  // ---------------------------------------------------------------------
  // Lines 85-95: the numeric columns

  function IncomeConverted(r: Row): Row
    requires r.income.Text?
  {
    r.(income := Number(Income(r.income.text)))
  }

  /** Lines 85-86. */
  function ConvertIncome(rows: seq<Row>): (r: seq<Row>)
    requires forall i :: 0 <= i < |rows| ==> rows[i].income.Text?
    ensures |r| == |rows|
    ensures forall i :: 0 <= i < |r| ==> r[i].votes == rows[i].votes && r[i].score == rows[i].score
  {
    seq(|rows|, i requires 0 <= i < |rows| => IncomeConverted(rows[i]))
  }

  function VotesConverted(r: Row): Row
    requires r.votes.Text?
  {
    r.(votes := Number(Votes(r.votes.text)))
  }

  /** Lines 89-90. */
  function ConvertVotes(rows: seq<Row>): (r: seq<Row>)
    requires forall i :: 0 <= i < |rows| ==> rows[i].votes.Text?
    ensures |r| == |rows|
    ensures forall i :: 0 <= i < |r| ==> r[i].score == rows[i].score
  {
    seq(|rows|, i requires 0 <= i < |rows| => VotesConverted(rows[i]))
  }

  function ScoreConverted(r: Row): Row
    requires r.score.Text?
  {
    r.(score := Number(Score(r.score.text)))
  }

  /** Lines 93-95. */
  function ConvertScore(rows: seq<Row>): (r: seq<Row>)
    requires forall i :: 0 <= i < |rows| ==> rows[i].score.Text?
    ensures |r| == |rows|
  {
    seq(|rows|, i requires 0 <= i < |rows| => ScoreConverted(rows[i]))
  }

  // ---------------------------------------------------------------------
  // Lines 9-95 as a whole

  datatype PipelineError =
    | LoadFailed(cause: Splitter.LoadError)
      /** `.dt` on line 55 raises when `clean_date` returned None for
          every row. */
    | NotDatetimeLike

  /** Every present `release_parsed` cell is a full-date. */
  predicate ParsedAreDates(rows: seq<Row>) {
    forall i :: 0 <= i < |rows| && ParsedOf(rows[i]).Some? ==> ParseFullDate(ParsedOf(rows[i]).value).Some?
  }

  /** Lines 64-95 on the frame that has its helper columns. */
  function Finished(rows: seq<Row>): (r: seq<Row>)
    requires HasHelpers(rows) && TextColumns(rows)
    ensures |r| <= |rows| + 3
  {
    var kept := DropBlank(Overrides(rows));
    var released := DropHelpers(ReleaseFromParsed(RecomputeFlags(kept)));
    ConvertScore(ConvertVotes(ConvertIncome(released)))
  }

  /** A row of the finished frame is the filtered row at the same position
      with its `release_yr` replaced by `release_parsed`, its numeric
      columns converted and no helper columns. */
  lemma FinishedRow(rows: seq<Row>, i: nat)
    requires HasHelpers(rows) && TextColumns(rows)
    requires i < |DropBlank(Overrides(rows))|
    ensures |Finished(rows)| == |DropBlank(Overrides(rows))|
    ensures var k := DropBlank(Overrides(rows))[i]; var o := Finished(rows)[i];
      o.index == k.index && o.id == k.id && o.title == k.title && o.genre == k.genre
      && o.duration == k.duration && o.country == k.country && o.contentRating == k.contentRating
      && o.director == k.director && o.releaseYr == ParsedOf(k) && o.helper.None?
      && o.income == Number(Income(k.income.text)) && o.votes == Number(Votes(k.votes.text))
      && o.score == Number(Score(k.score.text))
  {
    var kept := DropBlank(Overrides(rows));
    var flagged := RecomputeFlags(kept);
    var released := ReleaseFromParsed(flagged);
    var dropped := DropHelpers(released);
    var c1 := ConvertIncome(dropped);
    var c2 := ConvertVotes(c1);
    assert flagged[i].helper.value.parsed == ParsedOf(kept[i]);
    assert released[i].releaseYr == ParsedOf(kept[i]);
    assert dropped[i].income == kept[i].income && dropped[i].votes == kept[i].votes && dropped[i].score == kept[i].score;
    assert c2[i].income == Number(Income(kept[i].income.text));
  }

  /** Lines 52-95 on the loaded records. */
  function CleanRows(t: seq<Splitter.RawMovie>, flexible: DayFirstParser): (r: Result<seq<Row>, PipelineError>)
    ensures r.Ok? <==> AnyDate(FromTable(t), flexible)
    ensures r.Err? ==> r.error == NotDatetimeLike
  {
    var rows := FromTable(t);
    if !AnyDate(rows, flexible) then Err(NotDatetimeLike)
    else
      Ok(Finished(WithDates(rows, flexible)))
  }

  /** A row of the frame after line 56: record `j` under label `j`, its
      named columns as loaded and `release_parsed` rendered from what
      `clean_date` made of its raw `release_yr`. */
  lemma DatedRow(t: seq<Splitter.RawMovie>, flexible: DayFirstParser, j: nat)
    requires j < |t|
    ensures var d := WithDates(FromTable(t), flexible)[j]; var m := t[j];
      d.index == j && d.id == m.id && d.title == m.title && d.releaseYr == m.releaseYr
      && d.genre == m.genre && d.duration == m.duration && d.country == m.country
      && d.contentRating == m.contentRating && d.director == m.director
      && d.income == Text(m.income) && d.votes == Text(m.votes) && d.score == Text(m.score)
      && ParsedOf(d) == RenderParsed(CleanDate(m.releaseYr, flexible))
  {
  }

  /** The labels `.loc` appends lie past every loaded record's label. */
  lemma AppendedLabels(rows: seq<Row>)
    requires forall i :: 0 <= i < |rows| ==> rows[i].index == i
    ensures var r := Overrides(rows);
      forall i :: |rows| <= i < |r| ==> |rows| <= r[i].index
  {
    OverridesIncreasing(rows);
    OverridesHold(rows);
    var r := Overrides(rows);
    if 0 < |rows| {
      assert r[|rows| - 1].index == |rows| - 1;
    }
  }

  /** A row that survives the overrides and the filter, on a frame labelled
      0, 1, ...: either the row under its label, not blank in `release_yr`,
      with the same columns and (away from 70, 83 and 84) the same
      `release_parsed`, or a blank row appended under 70, 83 or 84; the
      three labels hold their literals. */
  lemma KeptRow(rows: seq<Row>, i: nat)
    requires forall p :: 0 <= p < |rows| ==> rows[p].index == p
    requires i < |DropBlank(Overrides(rows))|
    ensures var k := DropBlank(Overrides(rows))[i];
      k.index < |rows| ==>
        SameColumns(k, rows[k.index]) && KeepRow(rows[k.index])
        && (k.index !in {70, 83, 84} ==> ParsedOf(k) == ParsedOf(rows[k.index]))
    ensures var k := DropBlank(Overrides(rows))[i];
      |rows| <= k.index ==> k.index in {70, 83, 84} && Blank(k)
    ensures var k := DropBlank(Overrides(rows))[i];
      (k.index == 70 ==> ParsedOf(k) == Some("1951-03-06"))
      && (k.index == 83 ==> ParsedOf(k) == Some("1984-02-24"))
      && (k.index == 84 ==> ParsedOf(k) == Some("1976-12-24"))
  {
    var ov := Overrides(rows);
    var ks := KeptIndices(ov);
    DropBlankKeeps(ov);
    KeptIndicesExactly(ov);
    OverridesColumns(rows);
    OverridesHold(rows);
    AppendedLabels(rows);
    var j := ks[i];
    assert DropBlank(ov)[i] == ov[j] && j in ks;
  }

  /** A finished row under the label of an original row: that row's raw
      `release_yr` was not blank, its text columns are kept, its numeric
      columns are converted, and its `release_yr` is the override literal
      at labels 70, 83 and 84 and its `release_parsed` cell elsewhere. */
  lemma FinishedRecord(rows: seq<Row>, i: nat)
    requires forall p :: 0 <= p < |rows| ==> rows[p].index == p
    requires HasHelpers(rows) && TextColumns(rows)
    requires i < |Finished(rows)| && Finished(rows)[i].index < |rows|
    ensures var o := Finished(rows)[i]; var m := rows[o.index];
      KeepRow(m)
      && o.id == m.id && o.title == m.title && o.genre == m.genre && o.duration == m.duration
      && o.country == m.country && o.contentRating == m.contentRating && o.director == m.director
      && o.income == Number(Income(m.income.text)) && o.votes == Number(Votes(m.votes.text))
      && o.score == Number(Score(m.score.text))
    ensures var o := Finished(rows)[i];
      o.releaseYr ==
        if o.index == 70 then Some("1951-03-06")
        else if o.index == 83 then Some("1984-02-24")
        else if o.index == 84 then Some("1976-12-24")
        else ParsedOf(rows[o.index])
  {
    FinishedRow(rows, i);
    KeptRow(rows, i);
  }

  /** A finished row under any other label is one that `.loc` appended:
      label 70, 83 or 84, its literal date, NaN everywhere else. */
  lemma FinishedAppended(rows: seq<Row>, i: nat)
    requires forall p :: 0 <= p < |rows| ==> rows[p].index == p
    requires HasHelpers(rows) && TextColumns(rows)
    requires i < |Finished(rows)| && |rows| <= Finished(rows)[i].index
    ensures var o := Finished(rows)[i];
      ((o.index == 70 && o.releaseYr == Some("1951-03-06"))
       || (o.index == 83 && o.releaseYr == Some("1984-02-24"))
       || (o.index == 84 && o.releaseYr == Some("1976-12-24")))
      && o.id.None? && o.title.None? && o.genre.None? && o.duration.None? && o.country.None?
      && o.contentRating.None? && o.director.None?
      && o.income == Number(None) && o.votes == Number(None) && o.score == Number(None)
  {
    FinishedRow(rows, i);
    KeptRow(rows, i);
    NaNHasNoNumber();
  }

  /** Line 72 after the overrides and the filter: the rows under 70, 83
      and 84 hold a date, so their recomputed flag is false. */
  lemma OverriddenFlags(rows: seq<Row>)
    requires HasHelpers(rows)
    ensures var r := RecomputeFlags(DropBlank(Overrides(rows)));
      forall i :: 0 <= i < |r| && r[i].index in {70, 83, 84} ==> r[i].helper.value.flag == Some(false)
  {
    var ov := Overrides(rows);
    var kept := DropBlank(ov);
    OverridesHold(rows);
    DropBlankKeeps(ov);
    assert forall i :: 0 <= i < |kept| ==> kept[i] == ov[KeptIndices(ov)[i]];
  }

  /** Every present `release_yr` of the finished frame is a full-date when
      every `release_parsed` cell was. */
  lemma FinishedDates(rows: seq<Row>, i: nat)
    requires forall p :: 0 <= p < |rows| ==> rows[p].index == p
    requires HasHelpers(rows) && TextColumns(rows) && ParsedAreDates(rows)
    requires i < |Finished(rows)|
    ensures var o := Finished(rows)[i];
      o.releaseYr.Some? ==> ParseFullDate(o.releaseYr.value).Some?
  {
    OverrideLiteralsAreDates();
    if Finished(rows)[i].index < |rows| {
      FinishedRecord(rows, i);
    } else {
      FinishedAppended(rows, i);
    }
  }

  /** Labels still increase in the finished frame. */
  lemma FinishedIncreasing(rows: seq<Row>)
    requires forall p :: 0 <= p < |rows| ==> rows[p].index == p
    requires HasHelpers(rows) && TextColumns(rows)
    ensures LabelsIncrease(Finished(rows))
  {
    var kept := DropBlank(Overrides(rows));
    OverridesIncreasing(rows);
    DropBlankIncreasing(Overrides(rows));
    forall i | 0 <= i < |kept|
      ensures Finished(rows)[i].index == kept[i].index
    {
      FinishedRow(rows, i);
    }
  }

  /** An original row's label survives exactly when its raw `release_yr`
      is not blank. */
  lemma FinishedKeeps(rows: seq<Row>, j: nat)
    requires forall p :: 0 <= p < |rows| ==> rows[p].index == p
    requires HasHelpers(rows) && TextColumns(rows)
    requires j < |rows|
    ensures HasLabel(Finished(rows), j) <==> KeepRow(rows[j])
  {
    var ov := Overrides(rows);
    var ks := KeptIndices(ov);
    OverridesColumns(rows);
    KeptIndicesExactly(ov);
    DropBlankKeeps(ov);
    if KeepRow(rows[j]) {
      assert KeepRow(ov[j]);
      var p :| 0 <= p < |ks| && ks[p] == j;
      FinishedRow(rows, p);
      assert Finished(rows)[p].index == j;
    }
    if HasLabel(Finished(rows), j) {
      var i :| 0 <= i < |Finished(rows)| && Finished(rows)[i].index == j;
      FinishedRecord(rows, i);
    }
  }

  /** The frame after line 56 is labelled 0, 1, ..., has its helper
      columns, text in the numeric columns, and full-dates in
      `release_parsed`. */
  lemma DatedFrame(t: seq<Splitter.RawMovie>, flexible: DayFirstParser)
    ensures var d := WithDates(FromTable(t), flexible);
      (forall p :: 0 <= p < |d| ==> d[p].index == p)
      && HasHelpers(d) && TextColumns(d) && ParsedAreDates(d)
  {
    var rows := FromTable(t);
    forall p | 0 <= p < |rows|
      ensures var h := WithDates(rows, flexible)[p];
        h.index == p && (ParsedOf(h).Some? ==> ParseFullDate(ParsedOf(h).value).Some?)
    {
      DateColumns(rows, flexible, p);
    }
  }

  /** The cleaned frame: labels increase, no helper column is left, the
      numeric columns are numbers, and every present `release_yr` is a
      full-date. */
  lemma CleanedFrame(t: seq<Splitter.RawMovie>, flexible: DayFirstParser)
    requires AnyDate(FromTable(t), flexible)
    ensures var r := CleanRows(t, flexible).value;
      LabelsIncrease(r)
      && forall i :: 0 <= i < |r| ==>
        r[i].helper.None? && r[i].income.Number? && r[i].votes.Number? && r[i].score.Number?
        && (r[i].releaseYr.Some? ==> ParseFullDate(r[i].releaseYr.value).Some?)
  {
    var dated := WithDates(FromTable(t), flexible);
    DatedFrame(t, flexible);
    FinishedIncreasing(dated);
    forall i | 0 <= i < |Finished(dated)|
      ensures var o := Finished(dated)[i];
        o.helper.None? && o.income.Number? && o.votes.Number? && o.score.Number?
        && (o.releaseYr.Some? ==> ParseFullDate(o.releaseYr.value).Some?)
    {
      FinishedRow(dated, i);
      FinishedDates(dated, i);
    }
  }

  /** A cleaned row under the label of a loaded record: the record's raw
      `release_yr` was not blank, its text columns are as loaded and its
      numeric columns are the conversions of its cells. */
  lemma CleanedRecord(t: seq<Splitter.RawMovie>, flexible: DayFirstParser, i: nat)
    requires AnyDate(FromTable(t), flexible)
    requires i < |CleanRows(t, flexible).value| && CleanRows(t, flexible).value[i].index < |t|
    ensures var o := CleanRows(t, flexible).value[i]; var m := t[o.index];
      (m.releaseYr.None? || Strip(m.releaseYr.value) != [])
      && o.id == m.id && o.title == m.title && o.genre == m.genre && o.duration == m.duration
      && o.country == m.country && o.contentRating == m.contentRating && o.director == m.director
      && o.income == Number(Income(m.income)) && o.votes == Number(Votes(m.votes))
      && o.score == Number(Score(m.score))
  {
    var dated := WithDates(FromTable(t), flexible);
    DatedFrame(t, flexible);
    FinishedRecord(dated, i);
    DatedRow(t, flexible, Finished(dated)[i].index);
  }

  /** The cleaned `release_yr` of a loaded record: the override literal at
      labels 70, 83 and 84, and elsewhere the rendering of what
      `clean_date` made of the raw cell. */
  lemma CleanedRelease(t: seq<Splitter.RawMovie>, flexible: DayFirstParser, i: nat)
    requires AnyDate(FromTable(t), flexible)
    requires i < |CleanRows(t, flexible).value| && CleanRows(t, flexible).value[i].index < |t|
    ensures var o := CleanRows(t, flexible).value[i];
      o.releaseYr ==
        if o.index == 70 then Some("1951-03-06")
        else if o.index == 83 then Some("1984-02-24")
        else if o.index == 84 then Some("1976-12-24")
        else RenderParsed(CleanDate(t[o.index].releaseYr, flexible))
  {
    var dated := WithDates(FromTable(t), flexible);
    DatedFrame(t, flexible);
    FinishedRecord(dated, i);
    DatedRow(t, flexible, Finished(dated)[i].index);
  }

  /** A cleaned row under any other label is one that `.loc` appended. */
  lemma CleanedAppended(t: seq<Splitter.RawMovie>, flexible: DayFirstParser, i: nat)
    requires AnyDate(FromTable(t), flexible)
    requires i < |CleanRows(t, flexible).value| && |t| <= CleanRows(t, flexible).value[i].index
    ensures var o := CleanRows(t, flexible).value[i];
      ((o.index == 70 && o.releaseYr == Some("1951-03-06"))
       || (o.index == 83 && o.releaseYr == Some("1984-02-24"))
       || (o.index == 84 && o.releaseYr == Some("1976-12-24")))
      && o.id.None? && o.title.None? && o.genre.None? && o.duration.None? && o.country.None?
      && o.contentRating.None? && o.director.None?
      && o.income == Number(None) && o.votes == Number(None) && o.score == Number(None)
  {
    DatedFrame(t, flexible);
    FinishedAppended(WithDates(FromTable(t), flexible), i);
  }

  /** Line 69 end to end: a loaded record is in the cleaned frame, under its
      own label, exactly when its raw `release_yr` is NaN or not blank once
      stripped. */
  lemma CleanedKeeps(t: seq<Splitter.RawMovie>, flexible: DayFirstParser, j: nat)
    requires AnyDate(FromTable(t), flexible) && j < |t|
    ensures HasLabel(CleanRows(t, flexible).value, j) <==> t[j].releaseYr.None? || Strip(t[j].releaseYr.value) != []
  {
    DatedFrame(t, flexible);
    DatedRow(t, flexible, j);
    FinishedKeeps(WithDates(FromTable(t), flexible), j);
  }

  /** The whole script from the spreadsheet's single column to the cleaned
      frame (lines 9-95). */
  function Clean(lines: seq<Option<string>>, flexible: DayFirstParser): (r: Result<seq<Row>, PipelineError>)
    ensures r.Ok? <==> Splitter.Load(lines).Ok? && AnyDate(FromTable(Splitter.Load(lines).value), flexible)
    ensures Splitter.Load(lines).Err? ==> r == Err(LoadFailed(Splitter.Load(lines).error))
  {
    match Splitter.Load(lines)
    case Err(e) => Err(LoadFailed(e))
    case Ok(t) => CleanRows(t, flexible)
  }

  /** `Series.apply`: the function applied to every row, in order. */
  method MapRows<B>(rs: seq<Row>, f: Row --> B) returns (r: seq<B>)
    requires forall i :: 0 <= i < |rs| ==> f.requires(rs[i])
    ensures |r| == |rs| && forall i :: 0 <= i < |rs| ==> r[i] == f(rs[i])
  {
    r := [];
    for i := 0 to |rs|
      invariant |r| == i && forall k :: 0 <= k < i ==> r[k] == f(rs[k])
    {
      r := r + [f(rs[i])];
    }
  }

  // ---------------------------------------------------------------------
  // The frame object

  /** `df` from line 23 on: each step of the script replaces its rows. */
  class DataFrame {
    var rows: seq<Row>

    /** Lines 9-23 have produced the records; they get labels 0, 1, ... */
    constructor (table: seq<Splitter.RawMovie>)
      ensures rows == FromTable(table)
    {
      rows := FromTable(table);
    }

    /** Lines 52-56: apply `clean_date` to every row and add the helper
        columns; `ok` is false (and nothing changes) when `.dt` raises
        because `clean_date` returned None for every row. */
    method AddDateColumns(flexible: DayFirstParser) returns (ok: bool)
      modifies this
      ensures ok == AnyDate(old(rows), flexible)
      ensures rows == if ok then WithDates(old(rows), flexible) else old(rows)
    {
      var rs := rows;
      var kinds := MapRows(rs, (r: Row) => ReturnsDatetime(r.releaseYr, flexible));
      ok := false;
      for i := 0 to |kinds|
        invariant ok <==> exists k :: 0 <= k < i && kinds[k]
      {
        if kinds[i] {
          ok := true;
        }
      }
      if ok {
        var out := MapRows(rs, r => WithDate(r, flexible));
        rows := out;
      }
    }

    /** Lines 64-95, one step after another. */
    method Finish()
      requires HasHelpers(rows) && TextColumns(rows)
      modifies this
      ensures rows == Finished(old(rows))
    {
      WriteParsed(70, "1951-03-06");
      WriteParsed(83, "1984-02-24");
      WriteParsed(84, "1976-12-24");
      DropBlankRows();
      RefreshFlags();
      ReplaceRelease();
      DropHelperColumns();
      FixIncome();
      FixVotes();
      FixScore();
    }

    /** `df.loc[lbl, "release_parsed"] = value` (lines 64-66). */
    method WriteParsed(lbl: nat, value: string)
      modifies this
      ensures rows == SetParsed(old(rows), lbl, value)
    {
      var rs := rows;
      var out: seq<Row> := [];
      var found := false;
      for i := 0 to |rs|
        invariant |out| == i
        invariant forall k :: 0 <= k < i ==> out[k] == SetCell(rs[k], lbl, value)
        invariant found <==> exists k :: 0 <= k < i && rs[k].index == lbl
      {
        if rs[i].index == lbl {
          out := out + [rs[i].(helper := Some(Helper(Some(value), FlagOf(rs[i]))))];
          found := true;
        } else {
          out := out + [rs[i]];
        }
      }
      if !found {
        out := out + [Enlarged(lbl, value)];
      }
      rows := out;
    }

    /** Line 69. */
    method DropBlankRows()
      modifies this
      ensures rows == DropBlank(old(rows))
    {
      var rs := rows;
      var out: seq<Row> := [];
      for i := 0 to |rs|
        invariant out == DropBlank(rs[..i])
      {
        assert rs[..i + 1][..i] == rs[..i];
        if KeepRow(rs[i]) {
          out := out + [rs[i]];
        }
      }
      assert rs[..|rs|] == rs;
      rows := out;
    }

    /** Line 72. */
    method RefreshFlags()
      requires HasHelpers(rows)
      modifies this
      ensures rows == RecomputeFlags(old(rows))
    {
      rows := MapRows(rows, FlagRefreshed);
    }

    /** Line 75. */
    method ReplaceRelease()
      requires HasHelpers(rows)
      modifies this
      ensures rows == ReleaseFromParsed(old(rows))
    {
      rows := MapRows(rows, ReleaseReplaced);
    }

    /** Lines 78-79. */
    method DropHelperColumns()
      modifies this
      ensures rows == DropHelpers(old(rows))
    {
      rows := MapRows(rows, HelpersDropped);
    }

    /** Lines 85-86. */
    method FixIncome()
      requires forall i :: 0 <= i < |rows| ==> rows[i].income.Text?
      modifies this
      ensures rows == ConvertIncome(old(rows))
    {
      rows := MapRows(rows, IncomeConverted);
    }

    /** Lines 89-90. */
    method FixVotes()
      requires forall i :: 0 <= i < |rows| ==> rows[i].votes.Text?
      modifies this
      ensures rows == ConvertVotes(old(rows))
    {
      rows := MapRows(rows, VotesConverted);
    }

    /** Lines 93-95. */
    method FixScore()
      requires forall i :: 0 <= i < |rows| ==> rows[i].score.Text?
      modifies this
      ensures rows == ConvertScore(old(rows))
    {
      rows := MapRows(rows, ScoreConverted);
    }
  }

  /** The script from line 9 to line 95, step by step on one frame. */
  method RunScript(lines: seq<Option<string>>, flexible: DayFirstParser)
    returns (r: Result<seq<Row>, PipelineError>)
    ensures r == Clean(lines, flexible)
  {
    var loaded := Splitter.Load(lines);
    if loaded.Err? {
      return Err(LoadFailed(loaded.error));
    }
    var df := new DataFrame(loaded.value);
    var ok := df.AddDateColumns(flexible);
    if !ok {
      return Err(NotDatetimeLike);
    }
    df.Finish();
    return Ok(df.rows);
  }
}
