# IMDB.py cleaning pipeline in Dafny

IMDB.py cleans a spreadsheet of movies whose rows arrived as one
`;`-separated text column. This project models that script as it is
written and proves what each step does.

- The line is split into cells, and wholly empty columns are dropped.
- The eleven schema names are assigned by position.
- Release dates are normalised by `clean_date` and rendered as
  `YYYY-MM-DD`.
- Three dates are overridden by index label.
- Rows with a blank release date are removed, and the helper columns are
  dropped.
- The `income`, `votes` and `score` columns are turned into numbers.
- Finally the script picks the highest grossing movie and the top three.

Modules, in the order the script runs:

- `Wrappers`: `Option` (a pandas NaN/NaT cell is `None`) and `Result`
  (a step that raises is `Err`).
- `Strings`: the string operations the script uses.
  - `str.strip`;
  - `re.sub` of a one-character run class;
  - character filtering;
  - `str.split` on one delimiter and its inverse `join`;
  - decimal digit strings.
- `Splitter`: lines 9-23. The split with `expand=True`, the empty-column
  drop and the rename.
- `Dates`: `clean_date` (lines 33-49) and `strftime("%Y-%m-%d")`
  (line 55).
  - The pre-clean, the strict `%m %d %Y` parse and the calendar check are
    modelled concretely.
  - The date written is the `full-date` form of section 5.6 of RFC 3339,
    with the day limits of section 5.7.
  - pandas' day-first parser is the parameter `flexible`.
  - A date is a `Stamp`: a valid calendar day inside the range of pandas'
    nanosecond Timestamps.
- `Numbers`: lines 85-95. Numbers are exact decimals (`Decimal(digits,
  scale)`), not floats.
- `Pipeline`: lines 52-95.
  - The frame `df` is the class `DataFrame`. Its field `rows` holds one
    `Row` per frame row: the index label, the eleven columns, and the two
    helper columns while they exist.
  - Each step of the script is a method that replaces `rows`. Its
    `ensures` ties the new rows to a function of the old rows.
  - Lemmas about those functions state what the script promises.
  - `RunScript` performs the steps in order, and is proved equal to the
    function `Clean`.
- `Aggregate`: lines 101 and 105.
  - `idxmax` is the first row holding the largest income, skipping NaN.
  - `sort_values(ascending=False).head(3)` puts NaN last.

## Model

| member | source | states |
|---|---|---|
| Strings.Split | IMDB.py:9 | one line splits into one more field than it has `;`, and no field contains `;` |
| Strings.JoinSplit | IMDB.py:9 | joining the fields of a split with the delimiter gives the line back |
| Strings.SplitJoin | IMDB.py:9 | splitting a join of delimiter-free fields gives the fields back |
| Strings.Strip | IMDB.py:37 | the stripped string has no whitespace at either end; it is empty exactly when the input is all whitespace; it is the input with its leading and trailing whitespace runs cut off |
| Strings.StripKeeps | IMDB.py:37 | stripping a string without edge whitespace changes nothing |
| Strings.Collapse | IMDB.py:38-39 | after `re.sub` of a run class, every character of the class is the replacement and no two are neighbours; the result is empty exactly when the input is; its ends are the input's ends, replaced if they were in the class |
| Strings.CollapseKeeps | IMDB.py:38-39 | collapsing an already collapsed string changes nothing |
| Strings.CollapseKeepsNoAdjacent | IMDB.py:38-39 | collapsing whitespace runs to a space cannot make two dashes neighbours |
| Strings.CollapseOther | IMDB.py:38-39 | a character outside the run class is copied and the rest is collapsed |
| Strings.CollapseRun | IMDB.py:38-39 | a maximal non-empty run of the class becomes one replacement character, and the rest is collapsed |
| Strings.CollapsePlain | IMDB.py:38-39 | a stretch holding no character of the class is copied through unchanged |
| Strings.CollapseFields | IMDB.py:38-39 | three class-free fields separated by two runs of the class come out with one replacement character between them |
| Strings.CollapseKeepsOthers | IMDB.py:38-39 | the characters outside the class are kept, all of them and in order |
| Strings.Keep | IMDB.py:85 | every character that survives the `[^...]` removal is in the class, and the result is no longer than the input |
| Strings.KeepCount | IMDB.py:85 | the removal keeps every occurrence of a character of the class (so the count of `.` is unchanged) |
| Strings.KeepKeep | IMDB.py:85 | keeping digits and points, then digits, keeps the same characters as keeping digits |
| Strings.Replace | IMDB.py:93 | `replace(",", ".")` keeps the length, changes every `,` to `.` and nothing else, and leaves no `,` |
| Strings.Pad | IMDB.py:55 | `%Y`, `%m` and `%d` write exactly `width` digits whose value is the number |
| Strings.PadOfValue | IMDB.py:55 | a digit string is the zero-padded rendering of its own value |
| Strings.DigitsValueAppend | IMDB.py:86 | digit strings concatenate as positional values |
| Splitter.SplitCell | IMDB.py:9 | `str.split(";")` of a string cell gives `;`-free string fields, one more than its `;`; a NaN cell gives a single NaN |
| Splitter.SplitCellJoin | IMDB.py:9 | joining the fields of a split cell with `;` gives the cell back |
| Splitter.MaxLength | IMDB.py:9 | the width is at least every row's length and equal to one of them (0 for no rows) |
| Splitter.PadRow | IMDB.py:9 | a padded row keeps its cells in front and is NaN after them, up to the width |
| Splitter.Expand | IMDB.py:9 | with `expand=True` every line becomes one row as wide as the widest split, holding its fields then NaN |
| Splitter.KeptColumns | IMDB.py:15 | the kept column numbers increase, and are exactly the columns holding a cell other than `""` |
| Splitter.DropEmptyColumns | IMDB.py:15 | the drop keeps the number of rows; the new column k is the k-th kept column, cell for cell |
| Splitter.DropEmptyColumnsKeeps | IMDB.py:15 | column j survives exactly when some row's cell in it is not `""` (NaN counts as not `""`) |
| Splitter.Named | IMDB.py:19-23 | naming eleven cells by position keeps them in schema order |
| Splitter.Rename | IMDB.py:19-23 | renaming succeeds exactly when there are eleven columns, otherwise fails with the length mismatch; each record holds its row's cells in schema order |
| Splitter.Load | IMDB.py:9-23 | lines 9-23 succeed exactly when eleven columns survive the drop, with one record per line |
| Splitter.LoadCells | IMDB.py:9-23 | field k of record i is the cell of line i in the k-th surviving column of the padded split |
| Dates.PreClean | IMDB.py:37-39 | the pre-cleaned string has no edge whitespace, no two neighbouring dashes and no two neighbouring whitespace characters, and its only whitespace is `' '` |
| Dates.PreCleanIdempotent | IMDB.py:37-39 | pre-cleaning twice gives the same string as pre-cleaning once |
| Dates.PreCleanKeeps | IMDB.py:37-39 | the pre-clean keeps every character of the stripped string that is neither a dash nor whitespace, in order |
| Dates.PreCleanDashedDate | IMDB.py:37-39 | three digit fields separated by dash runs of any length come out separated by single dashes ("24--12---1976" gives "24-12-1976") |
| Dates.PreCleanSpacedDate | IMDB.py:37-39 | three digit fields separated by whitespace runs of any kind and length come out separated by single spaces |
| Dates.IsLeapYear | IMDB.py:43-47 | a leap year is divisible by 4, and a century year only when divisible by 400 |
| Dates.DaysInMonth | IMDB.py:43-47 | every month has 28 to 31 days; only February has fewer than 30, with 29 exactly in a leap year |
| Dates.ValidDate | IMDB.py:43-47 | a date exists when its month is 1 to 12 and its day lies within that month |
| Dates.LeapDay | IMDB.py:43-47 | February 29 exists exactly in leap years (1900 has none, 2000 and 1976 have one) |
| Dates.RenderDate | IMDB.py:55 | `strftime("%Y-%m-%d")` writes ten characters: four digits, `-`, two digits, `-`, two digits |
| Dates.ParseFullDate | IMDB.py:55 | a string read as a `full-date` gives only valid dates with four-digit years |
| Dates.ParseRenderDate | IMDB.py:55 | a rendered date reads back as the same date |
| Dates.RenderParseFullDate | IMDB.py:55 | a `full-date` string is the rendering of the date it reads as |
| Dates.ReadFullDate | IMDB.py:64-66 | a literal `YYYY-MM-DD` reads as the date its digits spell when that date exists, and as nothing otherwise |
| Dates.Tokens | IMDB.py:47 | the string is cut into a digit run, a whitespace run, a digit run, a whitespace run and the rest; the pieces put back together are the string, and each run is as long as it can be |
| Dates.MidnightStamp | IMDB.py:47 | a day is accepted exactly when it is a valid date whose midnight is a pandas Timestamp |
| Dates.ParseTokens | IMDB.py:47 | a strict parse succeeds only on `%m`, `%d` and four-digit `%Y` tokens with whitespace between them; it then gives the date the tokens spell, from 1677-09-22 on; on such tokens it succeeds exactly when that date exists and its midnight is a Timestamp |
| Dates.ParseMonthDayYear | IMDB.py:47 | `to_datetime(format="%m %d %Y")` succeeds only on a string made of digits and whitespace that is exactly a `%m` token, whitespace, a `%d` token, whitespace and four year digits; the day it gives is the one those tokens spell, from 1677-09-22 on |
| Dates.TokensOfFields | IMDB.py:47 | two digit runs each followed by a whitespace run, then a rest not starting with whitespace, are cut back into themselves |
| Dates.ParseOfTokens | IMDB.py:47 | a month, day and four-digit year token separated by any whitespace runs parse to that day exactly when it is a valid Timestamp day (with `Dates.ParseMonthDayYear`, the two directions of the format's match) |
| Dates.ParseRejectsOthers | IMDB.py:47 | "abc" and the dashed "09-21-1972" fail the strict parse |
| Dates.MonthToken | IMDB.py:47 | `%m` matches `1[0-2]`, `0[1-9]` or `[1-9]` |
| Dates.DayToken | IMDB.py:47 | `%d` after whitespace matches `3[01]`, `[12][0-9]`, `0[1-9]` or `[1-9]` |
| Dates.MonthTokenExactly | IMDB.py:47 | `%m` accepts exactly the one- and two-digit spellings of 1 to 12 |
| Dates.DayTokenExactly | IMDB.py:47 | `%d` accepts exactly the one- and two-digit spellings of 1 to 31 |
| Dates.PaddedMonth | IMDB.py:47 | a zero-padded month 1..12 is a `%m` token |
| Dates.PaddedDay | IMDB.py:47 | a zero-padded day 1..31 is a `%d` token |
| Dates.ParseRenderMonthDayYear | IMDB.py:47 | every Timestamp midnight written as `%m %d %Y` parses back to itself |
| Dates.CleanDate | IMDB.py:33-49 | NaN gives None with no parse; otherwise the day-first parser's Timestamp, or nothing when it returns NaT; only when it raises the strict parse; no day exactly when the cell is NaN, the day-first parser returns NaT, or both parsers raise |
| Dates.ReturnsDatetime | IMDB.py:33-49 | `clean_date` returns a Timestamp or NaT, rather than None, exactly when it gives a day or the day-first parser returned NaT, and never for a NaN cell |
| Dates.CleanDateOfPreCleaned | IMDB.py:33-49 | strings that differ only in what the pre-clean repairs get the same date |
| Dates.RenderParsed | IMDB.py:55 | `release_parsed` is present exactly when the date parsed, and it is that date as a `full-date` |
| Numbers.AsStr | IMDB.py:85 | `astype(str)` (also on lines 89 and 93) keeps text as it is and writes a missing cell as text with no digit and no point |
| Numbers.ToNumeric | IMDB.py:86 | `to_numeric(errors="coerce")` of digits and points is a number exactly when there is a digit and at most one point; its value is all the digits, scaled down by the digits after the point |
| Numbers.NumeralValue | IMDB.py:86 | `whole.frac` converts to the whole part shifted by the fraction's length, plus the fraction |
| Numbers.NumeralDigits | IMDB.py:86 | `whole.frac` converts to its digits, with a scale equal to the fraction's length |
| Numbers.NumeralConverts | IMDB.py:86 | `whole.frac` with at least one digit converts |
| Numbers.Income | IMDB.py:85-86 | income is a number exactly when the cell text has a digit and at most one point; its value is all the digits, scaled by the digits after the point |
| Numbers.KeepHasDigit | IMDB.py:85-90 | the character removal keeps "there is a digit" |
| Numbers.Votes | IMDB.py:89-90 | votes is a number exactly when the cell text has a digit, and is then the value of all its digits |
| Numbers.FirstNumber | IMDB.py:94 | `extract(r"(\d+\.?\d*)")` finds nothing exactly when there is no digit; otherwise the match starts at the first digit; the match cannot be extended by a digit, and is followed by a point only when it already has one |
| Numbers.TokenAt | IMDB.py:94 | the greedy match from a digit is a slice of the string, and no digit, and no second point, can be added to it |
| Numbers.NumberTokenConverts | IMDB.py:94-95 | every extracted token converts to a number |
| Numbers.Score | IMDB.py:93-95 | score is a number exactly when the cell text has a digit |
| Numbers.NaNHasNoNumber | IMDB.py:85-95 | a missing cell converts to NaN in each numeric column, whether `astype(str)` writes it as "nan" (float NaN) or "None" (a cell the split padded) |
| Pipeline.FromTable | IMDB.py:19-23 | the frame has one row per record, labelled by its position, with the record's `release_yr` and its numeric columns still text |
| Pipeline.AnyDate | IMDB.py:52-55 | `.dt` is available exactly when `clean_date` returned a Timestamp or NaT for some row |
| Pipeline.WithDates | IMDB.py:52-56 | adding the helper columns keeps the number of rows and gives each row both helpers |
| Pipeline.DateColumns | IMDB.py:52-56 | `release_parsed` is present exactly when `clean_date` gave a date, and is then that date as a `full-date`; `release_flag` says whether it failed; nothing else changes |
| Pipeline.Enlarged | IMDB.py:64 | the row `.loc` appends carries the label and the written value, with NaN in every other cell and flag |
| Pipeline.SetCell | IMDB.py:64 | the row under the label gets the value and keeps its flag; other rows keep their value; no row changes label or named column |
| Pipeline.SetParsed | IMDB.py:64 | a `.loc` write keeps the helper columns and the text columns |
| Pipeline.SetParsedHolds | IMDB.py:64 | after a `.loc` write the label exists and every row under it holds the value; other rows are unchanged; a row is appended exactly when the label was missing |
| Pipeline.SetParsedColumns | IMDB.py:64 | a `.loc` write changes no named column; an appended row is NaN but for the written cell |
| Pipeline.SetParsedIncreasing | IMDB.py:64 | a write keeps labels increasing when a missing label is above all present ones |
| Pipeline.SetParsedBounded | IMDB.py:64 | a write under a label below a bound keeps every label below it |
| Pipeline.SetParsedKeeps | IMDB.py:64-66 | a write under one label leaves what another label holds |
| Pipeline.Overrides | IMDB.py:64-66 | the three writes keep the helper columns and the text columns |
| Pipeline.OverrideLiteralsAreDates | IMDB.py:64-66 | the three literals are the `full-date`s 1951-03-06, 1984-02-24 and 1976-12-24 |
| Pipeline.OverridesHold | IMDB.py:64-66 | labels 70, 83 and 84 exist and hold their literals whatever the cascade gave; every other row is unchanged; at most three rows are appended |
| Pipeline.OverridesColumns | IMDB.py:64-66 | the overrides change no named column; appended rows are blank and carry label 70, 83 or 84 |
| Pipeline.OverridesIncreasing | IMDB.py:64-66 | on a frame labelled 0, 1, ... the labels still increase after the overrides |
| Pipeline.AppendedLabels | IMDB.py:64-66 | appended labels lie past every loaded record's label |
| Pipeline.DropBlank | IMDB.py:69 | the filter keeps the helper and text columns and never adds rows |
| Pipeline.KeptIndices | IMDB.py:69 | the kept positions are positions of the frame |
| Pipeline.KeptIndicesExactly | IMDB.py:69 | the kept positions increase, and a row is kept exactly when its raw `release_yr` is NaN or not blank once stripped |
| Pipeline.DropBlankKeeps | IMDB.py:69 | the filtered frame is the rows at the kept positions, unchanged, labels included |
| Pipeline.DropBlankIncreasing | IMDB.py:69 | increasing labels stay increasing after the filter |
| Pipeline.KeptRow | IMDB.py:64-69 | a surviving row is either a loaded record, not blank in `release_yr`, with its columns and (away from 70, 83, 84) its `release_parsed` as before; or a blank row appended under 70, 83 or 84; the three labels hold their literals |
| Pipeline.RecomputeFlags | IMDB.py:72 | each row's new flag is whether its `release_parsed` is missing; `release_parsed` and every other column of the row are kept |
| Pipeline.OverriddenFlags | IMDB.py:64-72 | after the overrides and the filter, the recomputed flag under 70, 83 and 84 is false |
| Pipeline.ReleaseFromParsed | IMDB.py:75 | replacing `release_yr` keeps the rows, their helpers and their text columns |
| Pipeline.DropHelpers | IMDB.py:78-79 | dropping the helpers keeps the rows and their text columns |
| Pipeline.ConvertIncome | IMDB.py:85-86 | converting income keeps the rows, and their votes and score |
| Pipeline.ConvertVotes | IMDB.py:89-90 | converting votes keeps the rows and their score |
| Pipeline.ConvertScore | IMDB.py:93-95 | converting score keeps the number of rows |
| Pipeline.Finished | IMDB.py:64-95 | lines 64-95 add at most three rows |
| Pipeline.FinishedRow | IMDB.py:72-95 | each finished row is the filtered row at its position: same label and text columns, `release_yr` taken from `release_parsed`, numeric columns converted, no helpers |
| Pipeline.FinishedRecord | IMDB.py:64-95 | a finished row under a record's label: the record was not blank; its text columns are kept; its numbers are converted; its `release_yr` is the literal at 70, 83 and 84 and its `release_parsed` elsewhere |
| Pipeline.FinishedAppended | IMDB.py:64-95 | a finished row under another label has label 70, 83 or 84, with its literal date and NaN everywhere else |
| Pipeline.FinishedDates | IMDB.py:55-75 | every present finished `release_yr` is a `full-date` |
| Pipeline.FinishedIncreasing | IMDB.py:64-95 | labels increase in the finished frame, so they are distinct |
| Pipeline.FinishedKeeps | IMDB.py:69 | a record's label survives exactly when its raw `release_yr` is not blank |
| Pipeline.CleanRows | IMDB.py:52-95 | lines 52-95 fail exactly when `clean_date` returned None for every row, with the not-datetime-like error |
| Pipeline.DatedRow | IMDB.py:52-56 | after line 56 row j is record j under label j, with `release_parsed` rendered from `clean_date` of its raw `release_yr` |
| Pipeline.DatedFrame | IMDB.py:52-56 | after line 56 the frame is labelled 0, 1, ..., has both helpers, text numeric columns and `full-date`s in `release_parsed` |
| Pipeline.CleanedFrame | IMDB.py:52-95 | in the cleaned frame labels increase; no helper is left; the numeric columns are numbers; every present `release_yr` is a `full-date` |
| Pipeline.CleanedRecord | IMDB.py:52-95 | a cleaned row under a record's label comes from a record not blank in `release_yr`, with its text columns as loaded and its numbers converted from its cells |
| Pipeline.CleanedRelease | IMDB.py:33-75 | a cleaned record's `release_yr` is the override literal at 70, 83 and 84, and elsewhere the `YYYY-MM-DD` rendering of `clean_date` of its raw cell |
| Pipeline.CleanedAppended | IMDB.py:64-95 | a cleaned row under any other label was appended by `.loc`: label 70, 83 or 84, its literal, NaN elsewhere |
| Pipeline.CleanedKeeps | IMDB.py:69 | a record is in the cleaned frame, under its own label, exactly when its raw `release_yr` is NaN or not blank once stripped |
| Pipeline.Clean | IMDB.py:9-95 | the script fails exactly when loading fails (with the load error) or `clean_date` returned None for every row |
| Pipeline.MapRows | IMDB.py:52 | `apply` gives one result per row, in order |
| Pipeline.DataFrame.constructor | IMDB.py:19-23 | the new frame holds the records labelled 0, 1, ... |
| Pipeline.DataFrame.AddDateColumns | IMDB.py:52-56 | adds the helper columns to every row when `clean_date` returned a Timestamp or NaT for some row, and otherwise reports the failure and leaves the frame as it was |
| Pipeline.DataFrame.WriteParsed | IMDB.py:64-66 | one `.loc` write replaces the rows by their written version |
| Pipeline.DataFrame.DropBlankRows | IMDB.py:69 | the rows become the filtered rows |
| Pipeline.DataFrame.RefreshFlags | IMDB.py:72 | the rows get their recomputed flags |
| Pipeline.DataFrame.ReplaceRelease | IMDB.py:75 | the rows get `release_yr` from `release_parsed` |
| Pipeline.DataFrame.DropHelperColumns | IMDB.py:78-79 | the rows lose their helper columns |
| Pipeline.DataFrame.FixIncome | IMDB.py:85-86 | the rows get converted incomes |
| Pipeline.DataFrame.FixVotes | IMDB.py:89-90 | the rows get converted votes |
| Pipeline.DataFrame.FixScore | IMDB.py:93-95 | the rows get converted scores |
| Pipeline.DataFrame.Finish | IMDB.py:64-95 | lines 64-95 step by step give the rows `Finished` specifies |
| Pipeline.RunScript | IMDB.py:9-95 | the step-by-step script on one frame gives exactly `Clean` |
| Aggregate.NotAbove | IMDB.py:101-105 | decimals compare by scaling both to a common number of decimal places |
| Aggregate.NotAboveValue | IMDB.py:101-105 | the scaled comparison is the comparison of the numbers the decimals stand for |
| Aggregate.SameValue | IMDB.py:101 | rewriting a decimal with more trailing zeros does not change how it compares |
| Aggregate.NotAboveTransitive | IMDB.py:101 | the numeric order on decimals is transitive |
| Aggregate.FirstMax | IMDB.py:101 | `idxmax` finds nothing exactly when every value is NaN; otherwise it gives a position holding a value |
| Aggregate.FirstMaxIsFirstMaximum | IMDB.py:101 | the position found holds a maximum, and every earlier value is strictly smaller |
| Aggregate.TopMovie | IMDB.py:101 | the top movie is absent exactly when no income is a number; otherwise it is a frame row with an income |
| Aggregate.TopMovieIsMaximal | IMDB.py:101 | the top movie's income is at least every income in the frame |
| Aggregate.Precedes | IMDB.py:105 | in a descending sort NaN comes last, and a number may come before any number no greater than it |
| Aggregate.PrecedesValue | IMDB.py:105 | that order, stated on the numbers' values; any two incomes can be put in order |
| Aggregate.PrecedesTransitive | IMDB.py:105 | the sort order is transitive |
| Aggregate.Insert | IMDB.py:105 | inserting a row adds exactly that row |
| Aggregate.InsertDescending | IMDB.py:105 | inserting into a descending sequence keeps it descending |
| Aggregate.SortByIncome | IMDB.py:105 | the sort is a permutation of the frame |
| Aggregate.SortByIncomeDescending | IMDB.py:105 | the sorted frame is in descending income order, NaN last |
| Aggregate.TopThree | IMDB.py:105 | `head(3)` gives three rows, or all rows when there are fewer |
| Aggregate.PrefixPrecedes | IMDB.py:105 | in a descending sequence every row of a prefix comes before every row after it |
| Aggregate.TopThreeHolds | IMDB.py:105 | the top three are frame rows in descending order, NaN last, and no row left out has a larger income than one taken |

## Left out

- Reading the spreadsheet (line 5): the model starts from the first
  column's cells, each a string or NaN. A cell holding a number would be
  NaN after `.str.split`, so it has to be given as NaN.
- `print` and the selections made only for display: lines 6, 16, 26-28,
  58-60, 81, 98, 102 and 107.
- Line 12 (the column labels cast to strings): the labels are replaced at
  lines 19-23 before any use.
- pandas' day-first `to_datetime` (line 43) is the parameter `flexible`,
  and its internals are not part of this model. It returns a Timestamp,
  returns NaT (for text such as "" or "nan"), or raises; the model keeps
  the three apart.
  - A NaT from it is returned by `clean_date` without the strict parse.
    NaT and None are both a missing day, but a column holding NaT and
    None only is still datetime-like, so `.dt` on line 55 works. The
    model relies on this dtype inference of pandas, which is not part of
    this model.
  - The strict parse is modelled as returning a Timestamp or raising. It
    could return NaT only for text the day-first parser already turned
    into NaT, and that text never reaches it.
  - The model keeps only the day of what it returns. `strftime` on line 55
    drops the time and the time zone.
- Floating point: `to_numeric` gives an int64 column when every cell
  converts to an integer, and a float64 column otherwise (as soon as one
  cell is NaN or has a fraction). The model keeps exact decimals, so it
  has no rounding, no int64 overflow and no float conversion of very
  long digit strings.
- pandas dtypes: columns are not typed. A numeric column is text before
  its conversion and a number (or NaN) after it.
- Python's `\d` also matches non-ASCII digits; the model's digits are
  `0`-`9`. `\s` and `strip` use the whitespace of `str.isspace`.
- The flag written on line 56 is not read before line 72 recomputes it,
  apart from the display on lines 58-60.
- Aggregate.TopThree: among equal incomes `sort_values` promises no
  order. The function fixes one of the orders it may produce, and
  Aggregate.TopThreeHolds states only what every order shares.
- Aggregate.TopMovie: it returns the row at the position `idxmax`
  finds, whereas `df.loc` looks the label up. The labels of the cleaned
  frame are distinct (Pipeline.FinishedIncreasing), so both give the same
  row. `None` stands for the all-NaN column, for which pandas has no
  label to return.
- Numbers.Score: its contract states only when a number is present. The
  number itself is stated by Numbers.FirstNumber (which token is taken)
  and Numbers.ToNumeric (what the token converts to).
- Pipeline.ReleaseFromParsed, Pipeline.DropHelpers,
  Pipeline.ConvertIncome, Pipeline.ConvertVotes,
  Pipeline.ConvertScore and Pipeline.Finished state the shape of their
  result only. What each row becomes is stated by Pipeline.FinishedRow
  and the lemmas built on it.
- A per-row rejection of malformed rows is described for the system, but
  the code has none. Short rows are padded with NaN at line 9, and a
  wrong column count fails the rename at lines 19-23 for the whole
  table. The model follows the code.
