/** `_build_scorecard_pdf`: the table of rows handed to the PDF renderer. The
    rendering itself (title, styling, tagline, page layout) is a library call
    and is a parameter of the pipeline. */
module Scorecard {
  import opened Wrappers
  import opened Values
  import opened Text
  import opened ScoreTable

  /** A table cell: a text label or a rounded number. */
  datatype Entry = Label(text: string) | Value(score: Float)

  type TableRow = seq<Entry>

  const TitleText := "CJ Strategies Hospitality Consulting<br/>Boutique Hotel Operations Scorecard"
  const Tagline := "CJ Strategies Hospitality Consulting – Boutique Hotel Operations, Elevated."
  const HeaderRow: TableRow := [Label("Category"), Label("Average Score (1-5)")]
  const OverallLabel := "Overall Average"

  /** The number of pairs `zip(categories, scores)` produces. */
  function PairCount(cats: seq<string>, scores: seq<Float>): nat {
    if |cats| <= |scores| then |cats| else |scores|
  }

  /** The last cell: the rounded overall score, or an empty label. */
  function OverallEntry(overall: Option<Float>, round2: Float -> Float): Entry {
    match overall
    case Some(v) => Value(round2(v))
    case None => Label("")
  }

  function BodyRow(c: string, s: Float, round2: Float -> Float): TableRow {
    [Label(c), Value(round2(s))]
  }

  /** The table: header, one row per category/score pair, the overall row. */
  function ScorecardTable(cats: seq<string>, scores: seq<Float>, overall: Option<Float>, round2: Float -> Float): seq<TableRow> {
    var n := PairCount(cats, scores);
    [HeaderRow]
    + seq(n, i requires 0 <= i < n => BodyRow(cats[i], scores[i], round2))
    + [[Label(OverallLabel), OverallEntry(overall, round2)]]
  }

  method BuildScorecardData(cats: seq<string>, scores: seq<Float>, overall: Option<Float>, round2: Float -> Float)
    returns (data: seq<TableRow>)
    ensures data == ScorecardTable(cats, scores, overall, round2)
  {
    var n := PairCount(cats, scores);
    data := [HeaderRow];
    for i := 0 to n
      invariant data == [HeaderRow] + seq(i, k requires 0 <= k < i => BodyRow(cats[k], scores[k], round2))
    {
      data := data + [[Label(cats[i]), Value(round2(scores[i]))]];
    }
    data := data + [[Label(OverallLabel), OverallEntry(overall, round2)]];
  }

  /** Every row has two cells, the header comes first and the overall row last. */
  lemma ScorecardShape(cats: seq<string>, scores: seq<Float>, overall: Option<Float>, round2: Float -> Float)
    ensures var t := ScorecardTable(cats, scores, overall, round2);
      && |t| == PairCount(cats, scores) + 2
      && t[0] == HeaderRow
      && t[|t| - 1][0] == Label(OverallLabel)
      && forall i :: 0 <= i < |t| ==> |t[i]| == 2
  {
  }

  /** What a reader of the rendered table recovers: categories, scores and
      the overall score (`None` for the empty cell). */
  datatype Readout = Readout(cats: seq<string>, scores: seq<Float>, overall: Option<Float>)

  predicate IsBodyRow(r: TableRow) {
    |r| == 2 && r[0].Label? && r[1].Value?
  }

  /** Parses a table of the shape `ScorecardTable` produces; `None` otherwise. */
  function ReadBack(t: seq<TableRow>): Option<Readout> {
    if |t| < 2 || t[0] != HeaderRow then None
    else
      var body := t[1..|t| - 1];
      var last := t[|t| - 1];
      if !(forall i :: 0 <= i < |body| ==> IsBodyRow(body[i])) then None
      else if |last| != 2 || last[0] != Label(OverallLabel) then None
      else if last[1] != Label("") && !last[1].Value? then None
      else
        Some(Readout(
          seq(|body|, i requires 0 <= i < |body| && IsBodyRow(body[i]) => body[i][0].text),
          seq(|body|, i requires 0 <= i < |body| && IsBodyRow(body[i]) => body[i][1].score),
          if last[1].Value? then Some(last[1].score) else None))
  }

  /** Reading the table back gives the paired categories, their scores
      rounded to two decimals, and the rounded overall score. */
  lemma ScorecardReadBack(cats: seq<string>, scores: seq<Float>, overall: Option<Float>, round2: Float -> Float)
    ensures var n := PairCount(cats, scores);
      ReadBack(ScorecardTable(cats, scores, overall, round2))
        == Some(Readout(
             cats[..n],
             seq(n, i requires 0 <= i < n => round2(scores[i])),
             match overall case Some(v) => Some(round2(v)) case None => None))
  {
    var n := PairCount(cats, scores);
    var t := ScorecardTable(cats, scores, overall, round2);
    var body := t[1..|t| - 1];
    assert |body| == n;
    assert forall i :: 0 <= i < n ==> body[i] == BodyRow(cats[i], scores[i], round2);
    assert forall i :: 0 <= i < |body| ==> IsBodyRow(body[i]);
    var last := t[|t| - 1];
    assert last == [Label(OverallLabel), OverallEntry(overall, round2)];
    assert ReadBack(t).Some?;
    var r := ReadBack(t).value;
    assert r.cats == cats[..n];
    assert r.scores == seq(n, i requires 0 <= i < n => round2(scores[i]));
  }

  /** "Overall Average" mentions "overall". */
  lemma OverallLabelIsOverall()
    ensures IsOverallName(OverallLabel)
  {
    assert Lower(OverallLabel)[0..|OverallWord|] == OverallWord;
    OccursContains(Lower(OverallLabel), OverallWord, 0);
  }

  /** With categories as the reader extracts them, the overall row is the only
      row below the header whose label mentions "overall". */
  lemma OverallRowUnique(cats: seq<string>, scores: seq<Float>, overall: Option<Float>, round2: Float -> Float)
    requires forall i :: 0 <= i < |cats| ==> !IsOverallName(cats[i])
    ensures var t := ScorecardTable(cats, scores, overall, round2);
      forall i :: 1 <= i < |t| && t[i][0].Label? && IsOverallName(t[i][0].text) ==> i == |t| - 1
  {
    var t := ScorecardTable(cats, scores, overall, round2);
    var n := PairCount(cats, scores);
    assert forall i :: 1 <= i < |t| - 1 ==> t[i] == BodyRow(cats[i - 1], scores[i - 1], round2);
  }
}
