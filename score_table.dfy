/** `_read_scores_from_excel`: the header lookup with its positional fallback,
    and the row loop that collects category scores and the overall score from
    the "Summary Dashboard" worksheet. Loading the workbook is done by a
    library and the model starts from the loaded worksheet. */
module ScoreTable {
  import opened Wrappers
  import opened Values
  import opened Text
  import opened PyDict

  /** A column label: a string header, or another value (a number, a date). */
  datatype Label = TextLabel(text: string) | OtherLabel(id: int)

  /** A worksheet cell as loaded. `Missing` is the loader's NaN for a blank cell
      or for one of `read_excel`'s NA strings such as "N/A". */
  datatype Cell = Missing | TextCell(text: string) | NumberCell(number: Float) | OtherCell(id: int)

  /** A loaded worksheet: its column labels and its rows, cell j of a row
      belonging to column j. A row shorter than the header reads as blank. */
  datatype Worksheet = Worksheet(columns: seq<Label>, rows: seq<seq<Cell>>)

  /** The two cell conversions the loop applies: `str(v)` of a non-text cell,
      and `float(v)` where an exception becomes `None` (`to_num`). */
  datatype CellReader = CellReader(repr: Cell -> string, toNum: Cell -> Option<Float>)

  /** The function's result `(cats, scores, overall)`. */
  datatype ScoreSet = ScoreSet(cats: seq<string>, scores: seq<Float>, overall: Option<Float>)

  /** The resolved category and score columns, as column positions. */
  datatype Columns = Columns(category: nat, score: nat)

  const SheetName := "Summary Dashboard"
  const CategoryKey := "category"
  const ScoreKey := "average score"
  const OverallWord := "overall"
  const MissingCategoryError := "Could not find 'Category' column in Summary Dashboard."

  // Column resolution

  /** The key a header gets in `cols_map`: string headers only, trimmed and
      lower-cased. */
  function HeaderKey(l: Label): Option<string> {
    match l
    case TextLabel(s) => Some(Lower(Strip(s)))
    case OtherLabel(_) => None
  }

  /** The items of the `cols_map` comprehension, in column order. */
  function HeaderItems(cols: seq<Label>): seq<(string, nat)>
    decreases |cols|
  {
    if cols == [] then []
    else
      var n := |cols| - 1;
      match HeaderKey(cols[n])
      case Some(k) => HeaderItems(cols[..n]) + [(k, n)]
      case None => HeaderItems(cols[..n])
  }

  function ColumnsMap(cols: seq<Label>): Dict<string, nat> {
    FromItems(HeaderItems(cols))
  }

  /** Lines 40-44: the score column is looked up (falling back to the second
      column) before the category column is checked. */
  function ResolveColumns(cols: seq<Label>): Result<Columns, string> {
    var m := ColumnsMap(cols);
    var score :=
      match Get(m, ScoreKey)
      case Some(j) => Some(j)
      case None => if |cols| >= 2 then Some(1) else None;
    if score.None? then Failure(IndexError)
    else
      match Get(m, CategoryKey)
      case None => Failure(MissingCategoryError)
      case Some(c) => Success(Columns(c, score.value))
  }

  predicate HasHeader(cols: seq<Label>, key: string) {
    exists j :: 0 <= j < |cols| && HeaderKey(cols[j]) == Some(key)
  }

  /** Column `j` is the last header that normalises to `key`. */
  predicate IsLastHeader(cols: seq<Label>, key: string, j: int) {
    0 <= j < |cols| && HeaderKey(cols[j]) == Some(key)
    && forall j' :: j < j' < |cols| ==> HeaderKey(cols[j']) != Some(key)
  }

  lemma {:induction false} HeaderItemsLookup(cols: seq<Label>, key: string)
    ensures match LastValue(HeaderItems(cols), key)
      case Some(j) => IsLastHeader(cols, key, j)
      case None => !HasHeader(cols, key)
    decreases |cols|
  {
    if cols != [] {
      var n := |cols| - 1;
      HeaderItemsLookup(cols[..n], key);
      assert forall j :: 0 <= j < n ==> cols[..n][j] == cols[j];
      var front := HeaderItems(cols[..n]);
      match HeaderKey(cols[n])
      case Some(k) =>
        assert HeaderItems(cols) == front + [(k, n)];
      case None =>
        assert HeaderItems(cols) == front;
    }
  }

  /** Which columns are chosen, and which error is raised when they cannot be:
      the index error for a missing score column wins over the missing
      category column. */
  lemma ResolveColumnsSpec(cols: seq<Label>)
    ensures var r := ResolveColumns(cols);
      && (r.Success? <==> HasHeader(cols, CategoryKey) && (HasHeader(cols, ScoreKey) || |cols| >= 2))
      && (r.Success? ==> IsLastHeader(cols, CategoryKey, r.value.category))
      && (r.Success? && HasHeader(cols, ScoreKey) ==> IsLastHeader(cols, ScoreKey, r.value.score))
      && (r.Success? && !HasHeader(cols, ScoreKey) ==> r.value.score == 1)
      && (r.Failure? ==> r.error == if !HasHeader(cols, ScoreKey) && |cols| < 2 then IndexError else MissingCategoryError)
  {
    FromItemsGet(HeaderItems(cols), CategoryKey);
    FromItemsGet(HeaderItems(cols), ScoreKey);
    HeaderItemsLookup(cols, CategoryKey);
    HeaderItemsLookup(cols, ScoreKey);
  }

  /** A single column that is not the score column fails with an index error,
      not the missing-category message, even when it is the category column. */
  lemma SingleColumnIndexError(l: Label)
    requires HeaderKey(l) != Some(ScoreKey)
    ensures ResolveColumns([l]) == Failure(IndexError)
  {
    ResolveColumnsSpec([l]);
    assert !HasHeader([l], ScoreKey);
  }

  // The row loop

  function CellAt(row: seq<Cell>, j: nat): Cell {
    if j < |row| then row[j] else Missing
  }

  /** `str(v)` */
  function CellString(c: Cell, rd: CellReader): string {
    match c
    case TextCell(s) => s
    case _ => rd.repr(c)
  }

  /** `str(r[cat_col]).strip()` */
  function RowName(row: seq<Cell>, cols: Columns, rd: CellReader): string {
    Strip(CellString(CellAt(row, cols.category), rd))
  }

  /** `to_num(r.get(avg_col))` */
  function RowScore(row: seq<Cell>, cols: Columns, rd: CellReader): Option<Float> {
    rd.toNum(CellAt(row, cols.score))
  }

  /** `"overall" in name.lower()` */
  predicate IsOverallName(name: string) {
    Contains(Lower(name), OverallWord)
  }

  /** A value `dropna` treats as missing: the blank cell or a float NaN. */
  predicate IsNA(c: Cell) {
    c == Missing || c == NumberCell(NaN)
  }

  /** A row kept by `dropna` with a non-empty name. */
  predicate IsNamedRow(row: seq<Cell>, cols: Columns, rd: CellReader) {
    !IsNA(CellAt(row, cols.category)) && RowName(row, cols, rd) != ""
  }

  /** A row that contributes a category score. */
  predicate IsCategoryRow(row: seq<Cell>, cols: Columns, rd: CellReader) {
    IsNamedRow(row, cols, rd) && !IsOverallName(RowName(row, cols, rd)) && RowScore(row, cols, rd).Some?
  }

  /** A row that sets the overall score. */
  predicate IsOverallRow(row: seq<Cell>, cols: Columns, rd: CellReader) {
    IsNamedRow(row, cols, rd) && IsOverallName(RowName(row, cols, rd)) && RowScore(row, cols, rd).Some?
  }

  /** What one row does to the accumulated result. */
  function Step(acc: ScoreSet, row: seq<Cell>, cols: Columns, rd: CellReader): ScoreSet {
    if IsCategoryRow(row, cols, rd) then
      acc.(cats := acc.cats + [RowName(row, cols, rd)], scores := acc.scores + [RowScore(row, cols, rd).value])
    else if IsOverallRow(row, cols, rd) then
      acc.(overall := RowScore(row, cols, rd))
    else acc
  }

  /** The rows processed in worksheet order. */
  function Extract(rows: seq<seq<Cell>>, cols: Columns, rd: CellReader): ScoreSet
    decreases |rows|
  {
    if rows == [] then ScoreSet([], [], None)
    else Step(Extract(rows[..|rows| - 1], cols, rd), rows[|rows| - 1], cols, rd)
  }

  /** Reference outcome of `_read_scores_from_excel` on a loaded worksheet. */
  function ScoresOf(ws: Worksheet, rd: CellReader): Result<ScoreSet, string> {
    var cols :- ResolveColumns(ws.columns);
    Success(Extract(ws.rows, cols, rd))
  }

  /** What a row does to `cats` and `scores`. */
  lemma StepCategory(acc: ScoreSet, row: seq<Cell>, cols: Columns, rd: CellReader)
    ensures var r := Step(acc, row, cols, rd);
      if IsCategoryRow(row, cols, rd) then
        r.cats == acc.cats + [RowName(row, cols, rd)] && r.scores == acc.scores + [RowScore(row, cols, rd).value]
      else r.cats == acc.cats && r.scores == acc.scores
  {
  }

  /** What a row does to `overall`. */
  lemma StepOverall(acc: ScoreSet, row: seq<Cell>, cols: Columns, rd: CellReader)
    ensures Step(acc, row, cols, rd).overall
         == if IsOverallRow(row, cols, rd) then RowScore(row, cols, rd) else acc.overall
  {
  }

  method ReadScores(ws: Worksheet, rd: CellReader) returns (r: Result<ScoreSet, string>)
    ensures r == ScoresOf(ws, rd)
  {
    var resolved := ResolveColumns(ws.columns);
    if resolved.Failure? {
      return Failure(resolved.error);
    }
    var cols := resolved.value;
    var cats: seq<string>, scores: seq<Float>, overall: Option<Float> := [], [], None;
    for i := 0 to |ws.rows|
      invariant ScoreSet(cats, scores, overall) == Extract(ws.rows[..i], cols, rd)
    {
      var row := ws.rows[i];
      assert ws.rows[..i + 1] == ws.rows[..i] + [row];
      ExtractSnoc(ws.rows[..i], row, cols, rd);
      if !IsNA(CellAt(row, cols.category)) {
        var name := RowName(row, cols, rd);
        var val := RowScore(row, cols, rd);
        if name != "" {
          if IsOverallName(name) {
            if val.Some? {
              overall := val;
            }
          } else if val.Some? {
            cats := cats + [name];
            scores := scores + [val.value];
          }
        }
      }
    }
    assert ws.rows[..|ws.rows|] == ws.rows;
    r := Success(ScoreSet(cats, scores, overall));
  }

  // Properties of the extraction

  /** `cats` and `scores` have equal length; every category is non-empty,
      trimmed and free of "overall". */
  lemma {:induction false} ExtractShape(rows: seq<seq<Cell>>, cols: Columns, rd: CellReader)
    ensures var r := Extract(rows, cols, rd);
      && |r.cats| == |r.scores|
      && forall i :: 0 <= i < |r.cats| ==>
           r.cats[i] != "" && Strip(r.cats[i]) == r.cats[i] && !IsOverallName(r.cats[i])
    decreases |rows|
  {
    if rows != [] {
      var n := |rows| - 1;
      ExtractShape(rows[..n], cols, rd);
      StripTrimmed(CellString(CellAt(rows[n], cols.category), rd));
    }
  }

  /** The positions of the rows that contribute a category score, in order. */
  function CategoryRows(rows: seq<seq<Cell>>, cols: Columns, rd: CellReader): seq<nat>
    decreases |rows|
  {
    if rows == [] then []
    else
      var n := |rows| - 1;
      CategoryRows(rows[..n], cols, rd) + (if IsCategoryRow(rows[n], cols, rd) then [n] else [])
  }

  /** `CategoryRows` lists, in increasing order, exactly the positions of the
      contributing rows. */
  lemma {:induction false} CategoryRowsSpec(rows: seq<seq<Cell>>, cols: Columns, rd: CellReader)
    ensures var k := CategoryRows(rows, cols, rd);
      && (forall j :: 0 <= j < |k| ==> k[j] < |rows|)
      && (forall j, j' :: 0 <= j < j' < |k| ==> k[j] < k[j'])
      && (forall i :: 0 <= i < |rows| ==> (i in k <==> IsCategoryRow(rows[i], cols, rd)))
    decreases |rows|
  {
    if rows != [] {
      var n := |rows| - 1;
      CategoryRowsSpec(rows[..n], cols, rd);
      assert forall i :: 0 <= i < n ==> rows[..n][i] == rows[i];
      var front := CategoryRows(rows[..n], cols, rd);
      if IsCategoryRow(rows[n], cols, rd) {
        assert CategoryRows(rows, cols, rd) == front + [n];
      } else {
        assert CategoryRows(rows, cols, rd) == front;
      }
    }
  }

  /** Category `j` and score `j` come from the `j`-th contributing row: the
      worksheet order is kept and nothing else enters. */
  lemma {:induction false} ExtractFromRows(rows: seq<seq<Cell>>, cols: Columns, rd: CellReader)
    ensures var r := Extract(rows, cols, rd);
      var k := CategoryRows(rows, cols, rd);
      && |r.cats| == |k| == |r.scores|
      && forall j :: 0 <= j < |k| ==>
           (k[j] < |rows|
            && r.cats[j] == RowName(rows[k[j]], cols, rd)
            && Some(r.scores[j]) == RowScore(rows[k[j]], cols, rd))
    decreases |rows|
  {
    if rows != [] {
      var n := |rows| - 1;
      ExtractFromRows(rows[..n], cols, rd);
      CategoryRowsSpec(rows[..n], cols, rd);
      var k := CategoryRows(rows[..n], cols, rd);
      assert forall j :: 0 <= j < |k| ==> rows[..n][k[j]] == rows[k[j]];
      var prev := Extract(rows[..n], cols, rd);
      assert Extract(rows, cols, rd) == Step(prev, rows[n], cols, rd);
      StepCategory(prev, rows[n], cols, rd);
      if IsCategoryRow(rows[n], cols, rd) {
        assert CategoryRows(rows, cols, rd) == k + [n];
      } else {
        assert CategoryRows(rows, cols, rd) == k;
      }
    }
  }

  /** `overall` is the score of the last overall row whose score parses. */
  lemma {:induction false} ExtractOverallAt(rows: seq<seq<Cell>>, cols: Columns, rd: CellReader, i: int)
    requires 0 <= i < |rows| && IsOverallRow(rows[i], cols, rd)
    requires forall j :: i < j < |rows| ==> !IsOverallRow(rows[j], cols, rd)
    ensures Extract(rows, cols, rd).overall == RowScore(rows[i], cols, rd)
    decreases |rows|
  {
    var n := |rows| - 1;
    var prev := Extract(rows[..n], cols, rd);
    assert Extract(rows, cols, rd) == Step(prev, rows[n], cols, rd);
    StepOverall(prev, rows[n], cols, rd);
    if i < n {
      assert !IsOverallRow(rows[n], cols, rd);
      forall j | i < j < n
        ensures !IsOverallRow(rows[..n][j], cols, rd)
      {
        assert rows[..n][j] == rows[j];
      }
      assert rows[..n][i] == rows[i];
      ExtractOverallAt(rows[..n], cols, rd, i);
      assert prev.overall == RowScore(rows[i], cols, rd);
    }
  }

  /** No row sets the overall score. */
  predicate NoOverallRow(rows: seq<seq<Cell>>, cols: Columns, rd: CellReader) {
    forall i :: 0 <= i < |rows| ==> !IsOverallRow(rows[i], cols, rd)
  }

  /** and it is `None` exactly when there is no such row. */
  lemma {:induction false} ExtractOverallNone(rows: seq<seq<Cell>>, cols: Columns, rd: CellReader)
    ensures Extract(rows, cols, rd).overall == None <==> NoOverallRow(rows, cols, rd)
    decreases |rows|
  {
    if rows != [] {
      var n := |rows| - 1;
      ExtractOverallNone(rows[..n], cols, rd);
      StepOverall(Extract(rows[..n], cols, rd), rows[n], cols, rd);
      if IsOverallRow(rows[n], cols, rd) {
        assert !NoOverallRow(rows, cols, rd);
      } else if NoOverallRow(rows, cols, rd) {
        assert forall i :: 0 <= i < n ==> rows[..n][i] == rows[i];
        assert NoOverallRow(rows[..n], cols, rd);
      } else {
        var i :| 0 <= i < |rows| && IsOverallRow(rows[i], cols, rd);
        if i == n {
          assert false;
        }
        assert rows[..n][i] == rows[i];
        assert !NoOverallRow(rows[..n], cols, rd);
      }
    }
  }

  /** A row whose score does not parse leaves the result as it was. */
  lemma UnparsedRowDropped(rows: seq<seq<Cell>>, row: seq<Cell>, cols: Columns, rd: CellReader)
    requires RowScore(row, cols, rd).None?
    ensures Extract(rows + [row], cols, rd) == Extract(rows, cols, rd)
  {
    ExtractSnoc(rows, row, cols, rd);
  }

  /** Once the columns resolve, reading never fails, whatever the rows hold. */
  lemma ReadNeverFailsOnRows(ws: Worksheet, rd: CellReader)
    ensures ScoresOf(ws, rd).Success? <==> ResolveColumns(ws.columns).Success?
  {
  }

  /** A blank score cell is not dropped when the loader reads it as NaN, since
      `float(nan)` raises nothing: the row is kept with a NaN score. */
  lemma BlankScoreKeptAsNaN(rows: seq<seq<Cell>>, row: seq<Cell>, cols: Columns, rd: CellReader)
    requires rd.toNum(Missing) == Some(NaN)
    requires CellAt(row, cols.score) == Missing
    requires IsNamedRow(row, cols, rd) && !IsOverallName(RowName(row, cols, rd))
    ensures var before := Extract(rows, cols, rd);
      Extract(rows + [row], cols, rd)
        == before.(cats := before.cats + [RowName(row, cols, rd)], scores := before.scores + [NaN])
  {
    ExtractSnoc(rows, row, cols, rd);
  }

  /** Appending a row applies one step of the loop. */
  lemma ExtractSnoc(rows: seq<seq<Cell>>, row: seq<Cell>, cols: Columns, rd: CellReader)
    ensures Extract(rows + [row], cols, rd) == Step(Extract(rows, cols, rd), row, cols, rd)
  {
    assert (rows + [row])[..|rows|] == rows;
  }

  /** A two-cell row with a trimmed text label and a number. */
  lemma LabelledRow(name: string, v: Float, rd: CellReader)
    requires rd.toNum(NumberCell(v)) == Some(v) && name != "" && Strip(name) == name
    ensures RowName([TextCell(name), NumberCell(v)], Columns(0, 1), rd) == name
    ensures RowScore([TextCell(name), NumberCell(v)], Columns(0, 1), rd) == Some(v)
    ensures IsNamedRow([TextCell(name), NumberCell(v)], Columns(0, 1), rd)
  {
  }

  /** Two category rows give two categories, in order, and no overall. */
  lemma ExtractTwoCategories(a: string, b: string, x: Float, y: Float, rd: CellReader)
    requires rd.toNum(NumberCell(x)) == Some(x) && rd.toNum(NumberCell(y)) == Some(y)
    requires a != "" && Strip(a) == a && !IsOverallName(a)
    requires b != "" && Strip(b) == b && !IsOverallName(b)
    ensures Extract([[TextCell(a), NumberCell(x)], [TextCell(b), NumberCell(y)]], Columns(0, 1), rd)
         == ScoreSet([a, b], [x, y], None)
  {
    var cols := Columns(0, 1);
    var ra, rb := [TextCell(a), NumberCell(x)], [TextCell(b), NumberCell(y)];
    LabelledRow(a, x, rd);
    LabelledRow(b, y, rd);
    assert IsCategoryRow(ra, cols, rd) && IsCategoryRow(rb, cols, rd);
    ExtractSnoc([], ra, cols, rd);
    assert [] + [ra] == [ra];
    ExtractSnoc([ra], rb, cols, rd);
    assert [ra] + [rb] == [ra, rb];
  }

  /** Two categories and an overall row, in the order the sheet lists them:
      the categories keep their text and order, and the overall row only sets
      `overall`. */
  lemma ExtractExample(a: string, b: string, o: string, x: Float, y: Float, z: Float, rd: CellReader)
    requires forall f :: rd.toNum(NumberCell(f)) == Some(f)
    requires a != "" && Strip(a) == a && !IsOverallName(a)
    requires b != "" && Strip(b) == b && !IsOverallName(b)
    requires o != "" && Strip(o) == o && IsOverallName(o)
    ensures var rows := [[TextCell(a), NumberCell(x)], [TextCell(b), NumberCell(y)], [TextCell(o), NumberCell(z)]];
      Extract(rows, Columns(0, 1), rd) == ScoreSet([a, b], [x, y], Some(z))
  {
    var cols := Columns(0, 1);
    var ra, rb, ro := [TextCell(a), NumberCell(x)], [TextCell(b), NumberCell(y)], [TextCell(o), NumberCell(z)];
    ExtractTwoCategories(a, b, x, y, rd);
    LabelledRow(o, z, rd);
    assert !IsCategoryRow(ro, cols, rd) && IsOverallRow(ro, cols, rd);
    ExtractSnoc([ra, rb], ro, cols, rd);
    assert [ra, rb] + [ro] == [ra, rb, ro];
  }
}
