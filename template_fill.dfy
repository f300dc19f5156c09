/** `_fill_word_scores`: the scores are written into the second cell of the
    matching rows of the template's first table. The document is modelled by
    its tables, each a sequence of rows of cell texts; reading and writing
    the .docx file are library calls and are parameters of the pipeline. */
module TemplateFill {
  import opened Wrappers
  import opened Values
  import opened Text
  import opened PyDict

  /** The texts of a table row's cells. */
  type Row = seq<string>
  type Table = seq<Row>

  const NoTableError := "Word template has no tables. Expected Operations Review table as first table."

  /** The message of the `IndexError` raised by subscripting `row.cells`,
      which python-docx returns as a tuple. */
  const CellIndexError := "tuple index out of range"

  /** The items of the `norm` comprehension, in `score_map`'s order. */
  function NormItems(scoreMap: Dict<string, Float>): (items: seq<(string, Float)>)
    ensures |items| == |scoreMap|
  {
    seq(|scoreMap|, i requires 0 <= i < |scoreMap| => (Lower(Strip(scoreMap[i].0)), scoreMap[i].1))
  }

  /** `{k.strip().lower(): v for k, v in score_map.items()}` */
  function Normalize(scoreMap: Dict<string, Float>): Dict<string, Float> {
    FromItems(NormItems(scoreMap))
  }

  /** `row.cells[0].text.strip().lower()`, for a row with a first cell. */
  function RowKey(row: Row): string
    requires |row| > 0
  {
    Lower(Strip(row[0]))
  }

  /** A row on which the loop body raises `IndexError`: it has no first
      cell, or it matches and has no second cell. */
  predicate RowFails(row: Row, norm: Dict<string, Float>) {
    |row| == 0 || (Get(norm, RowKey(row)).Some? && |row| < 2)
  }

  /** The loop body on one row that does not raise. */
  function FillRow(row: Row, norm: Dict<string, Float>, fmt2: Float -> string): Row
    requires !RowFails(row, norm)
  {
    match Get(norm, RowKey(row))
    case Some(v) => row[1 := fmt2(v)]
    case None => row
  }

  /** The first position from `i` on whose row raises, or `|rows|`. */
  function FirstFailing(rows: Table, norm: Dict<string, Float>, i: nat): (k: nat)
    ensures i <= k || k == |rows|
    ensures k <= |rows|
    decreases |rows| - i
  {
    if i >= |rows| then |rows|
    else if RowFails(rows[i], norm) then i
    else FirstFailing(rows, norm, i + 1)
  }

  lemma {:induction false} FirstFailingSpec(rows: Table, norm: Dict<string, Float>, i: nat)
    ensures var k := FirstFailing(rows, norm, i);
      && (forall j :: i <= j < k ==> !RowFails(rows[j], norm))
      && (k < |rows| ==> RowFails(rows[k], norm))
    decreases |rows| - i
  {
    if i < |rows| && !RowFails(rows[i], norm) {
      FirstFailingSpec(rows, norm, i + 1);
    }
  }

  /** The table once the loop has handled the body rows before position `k`
      (none of which raised). */
  function FillUpTo(rows: Table, norm: Dict<string, Float>, fmt2: Float -> string, k: nat): (r: Table)
    ensures |r| == |rows|
  {
    seq(|rows|, j requires 0 <= j < |rows| =>
      if 1 <= j < k && !RowFails(rows[j], norm) then FillRow(rows[j], norm, fmt2) else rows[j])
  }

  /** One more row handled: only that row changes, to its filled form. */
  lemma FillUpToStep(rows: Table, norm: Dict<string, Float>, fmt2: Float -> string, i: nat)
    requires 1 <= i < |rows| && !RowFails(rows[i], norm)
    ensures FillUpTo(rows, norm, fmt2, i + 1) == FillUpTo(rows, norm, fmt2, i)[i := FillRow(rows[i], norm, fmt2)]
  {
  }

  /** The loop of lines 95-98 over a whole table: the filled table, or the
      error an unsuitable row raises. */
  function FillTable(rows: Table, norm: Dict<string, Float>, fmt2: Float -> string): Result<Table, string> {
    var k := FirstFailing(rows, norm, 1);
    if k < |rows| then Failure(CellIndexError) else Success(FillUpTo(rows, norm, fmt2, |rows|))
  }

  /** The whole of the function on the document's tables: the new tables or
      the error raised. */
  function FillDocument(tables: seq<Table>, scoreMap: Dict<string, Float>, fmt2: Float -> string): Result<seq<Table>, string> {
    if tables == [] then Failure(NoTableError)
    else
      var first :- FillTable(tables[0], Normalize(scoreMap), fmt2);
      Success(tables[0 := first])
  }

  /** Lines 95-98 on the table in place. When a row raises, the rows before it
      have already been written. */
  method FillFirstTable(t: array<Row>, norm: Dict<string, Float>, fmt2: Float -> string) returns (err: Option<string>)
    modifies t
    ensures var k := FirstFailing(old(t[..]), norm, 1);
      && t[..] == FillUpTo(old(t[..]), norm, fmt2, k)
      && (err.None? <==> k == t.Length)
      && (err.Some? ==> err.value == CellIndexError)
  {
    ghost var rows := t[..];
    FirstFailingSpec(rows, norm, 1);
    var i := 1;
    while i < t.Length
      invariant 1 <= i && (i <= t.Length || t.Length == 0)
      invariant forall j :: 1 <= j < i && j < t.Length ==> !RowFails(rows[j], norm)
      invariant FirstFailing(rows, norm, 1) == FirstFailing(rows, norm, i)
      invariant t[..] == FillUpTo(rows, norm, fmt2, i)
      decreases t.Length - i
    {
      var row := t[i];
      assert row == rows[i];
      if |row| == 0 {
        return Some(CellIndexError);
      }
      var key := Lower(Strip(row[0]));
      var found := Get(norm, key);
      if found.Some? && |row| < 2 {
        return Some(CellIndexError);
      }
      FillUpToStep(rows, norm, fmt2, i);
      if found.Some? {
        t[i] := row[1 := fmt2(found.value)];
      }
      i := i + 1;
    }
    return None;
  }

  /** `_fill_word_scores` on the loaded document. */
  method FillWordScores(tables: seq<Table>, scoreMap: Dict<string, Float>, fmt2: Float -> string)
    returns (r: Result<seq<Table>, string>)
    ensures r == FillDocument(tables, scoreMap, fmt2)
  {
    if |tables| == 0 {
      return Failure(NoTableError);
    }
    var norm := Normalize(scoreMap);
    var t := new Row[|tables[0]|](j requires 0 <= j < |tables[0]| => tables[0][j]);
    assert t[..] == tables[0];
    var err := FillFirstTable(t, norm, fmt2);
    if err.Some? {
      return Failure(err.value);
    }
    r := Success(tables[0 := t[..]]);
  }

  // Properties

  /** Filling writes only to cell 1 of body rows whose key is in `norm`: the
      header row, every other row and every other cell are left alone. */
  lemma FillTableCells(rows: Table, norm: Dict<string, Float>, fmt2: Float -> string)
    requires FillTable(rows, norm, fmt2).Success?
    ensures var r := FillTable(rows, norm, fmt2).value;
      && |r| == |rows|
      && (|rows| > 0 ==> r[0] == rows[0])
      && forall j :: 1 <= j < |rows| ==>
           && |rows[j]| > 0
           && |r[j]| == |rows[j]|
           && (forall c :: 0 <= c < |rows[j]| && c != 1 ==> r[j][c] == rows[j][c])
           && match Get(norm, RowKey(rows[j]))
              case Some(v) => |rows[j]| >= 2 && r[j][1] == fmt2(v)
              case None => r[j] == rows[j]
  {
    FirstFailingSpec(rows, norm, 1);
  }

  /** The table fails exactly when some body row lacks a first cell, or
      matches and lacks a second. */
  lemma FillTableFails(rows: Table, norm: Dict<string, Float>, fmt2: Float -> string)
    ensures FillTable(rows, norm, fmt2).Failure?
        <==> exists j :: 1 <= j < |rows| && RowFails(rows[j], norm)
    ensures FillTable(rows, norm, fmt2).Failure? ==> FillTable(rows, norm, fmt2).error == CellIndexError
  {
    FirstFailingSpec(rows, norm, 1);
  }

  /** Filling a filled table changes nothing more. */
  lemma FillTableIdempotent(rows: Table, norm: Dict<string, Float>, fmt2: Float -> string)
    requires FillTable(rows, norm, fmt2).Success?
    ensures var r := FillTable(rows, norm, fmt2).value;
      FillTable(r, norm, fmt2) == Success(r)
  {
    var r := FillTable(rows, norm, fmt2).value;
    FillTableCells(rows, norm, fmt2);
    assert forall j :: 1 <= j < |r| ==> r[j][0] == rows[j][0];
    assert forall j :: 1 <= j < |r| ==> RowKey(r[j]) == RowKey(rows[j]);
    assert forall j :: 1 <= j < |r| ==> !RowFails(r[j], norm);
    FillTableFails(r, norm, fmt2);
    FillTableCells(r, norm, fmt2);
    var r2 := FillTable(r, norm, fmt2).value;
    forall j | 1 <= j < |r|
      ensures r2[j] == r[j]
    {
      if Get(norm, RowKey(r[j])).Some? {
        assert forall c :: 0 <= c < |r[j]| ==> r2[j][c] == r[j][c];
      }
    }
    assert r2 == r;
  }

  /** Only the first table is touched, and a document without tables fails. */
  lemma FillDocumentTables(tables: seq<Table>, scoreMap: Dict<string, Float>, fmt2: Float -> string)
    ensures tables == [] ==> FillDocument(tables, scoreMap, fmt2) == Failure(NoTableError)
    ensures var r := FillDocument(tables, scoreMap, fmt2);
      r.Success? ==> |r.value| == |tables| && forall j :: 1 <= j < |tables| ==> r.value[j] == tables[j]
    ensures tables != [] ==>
      (FillDocument(tables, scoreMap, fmt2).Success? <==> FillTable(tables[0], Normalize(scoreMap), fmt2).Success?)
  {
  }

  /** The value a key gets in `norm` is that of the last `score_map` entry
      (in the dict's own order) whose key normalises to it. */
  lemma NormalizeGet(scoreMap: Dict<string, Float>, key: string, i: int)
    requires 0 <= i < |scoreMap| && Lower(Strip(scoreMap[i].0)) == key
    requires forall j :: i < j < |scoreMap| ==> Lower(Strip(scoreMap[j].0)) != key
    ensures Get(Normalize(scoreMap), key) == Some(scoreMap[i].1)
  {
    FromItemsGet(NormItems(scoreMap), key);
    LastValueAt(NormItems(scoreMap), key, i);
  }

  lemma NormalizeMissing(scoreMap: Dict<string, Float>, key: string)
    ensures Get(Normalize(scoreMap), key) == None
        <==> forall j :: 0 <= j < |scoreMap| ==> Lower(Strip(scoreMap[j].0)) != key
  {
    FromItemsGet(NormItems(scoreMap), key);
    LastValueNone(NormItems(scoreMap), key);
    assert forall j :: 0 <= j < |scoreMap| ==> NormItems(scoreMap)[j].0 == Lower(Strip(scoreMap[j].0));
  }

  /** Categories that differ only in case share one `norm` key (they are
      already stripped when read). `dict(zip(...))` keeps the first position
      of an exact repeat, so with rows `a, b, a` the key takes `b`'s score,
      not the score of the row read last. */
  lemma NormalizeCaseVariants(a: string, b: string, x: Float, y: Float, z: Float)
    requires a != b && Lower(Strip(a)) == Lower(Strip(b))
    ensures var scoreMap := FromItems(Zip([a, b, a], [x, y, z]));
      && scoreMap == [(a, z), (b, y)]
      && Get(Normalize(scoreMap), Lower(Strip(a))) == Some(y)
  {
    var items: seq<(string, Float)> := Zip([a, b, a], [x, y, z]);
    assert items == [(a, x), (b, y), (a, z)];
    assert items[..2][..1] == [(a, x)];
    assert |items[..1][..0]| == 0;
    assert FromItems(items[..1]) == [(a, x)];
    assert FromItems(items[..2]) == [(a, x), (b, y)];
    var scoreMap := FromItems(items);
    assert scoreMap == [(a, z), (b, y)];
    NormalizeGet(scoreMap, Lower(Strip(a)), 1);
  }
}
