/**
 * Ranking of the analysis results: the rows are ordered by `threat_score`,
 * highest first (`sort_values("threat_score", ascending=False)`), and two
 * bounded views are cut from that one order, the first 50 rows for the
 * table and the first 15 for the bar chart keyed by `path`.
 *
 * Scores are abstract integers rather than floats.  Both views come from the
 * same deterministic sort, as two calls of the same sort on the same table do;
 * the order among equal scores is not promised.
 */
module ResultRanker {
  import opened Wrappers

  /** One analysed process chain; `extra` stands for the pass-through columns. */
  datatype Row = Row(path: string, threatScore: int, extra: seq<string>)

  /**
   * The result table of the analysis pipeline.  A field of a row is
   * meaningful only when its column is among `columns`.
   */
  datatype Table = Table(columns: set<string>, rows: seq<Row>)

  /** pandas' `KeyError` for a column the table does not have. */
  datatype ColumnError = MissingColumn(name: string)

  const ScoreColumn: string := "threat_score"
  const PathColumn: string := "path"

  /** `head(50)` of the results table. */
  const TableLimit: nat := 50
  /** `head(15)` of the chart. */
  const ChartLimit: nat := 15

  /** Scores never increase from one row to a later one. */
  ghost predicate SortedDesc(rows: seq<Row>)
  {
    forall i, j :: 0 <= i < j < |rows| ==> rows[i].threatScore >= rows[j].threatScore
  }

  /** Inserts a row into a descending sequence before the first row with a score not above it. */
  function Insert(r: Row, sorted: seq<Row>): (res: seq<Row>)
    requires SortedDesc(sorted)
    ensures SortedDesc(res)
    ensures multiset(res) == multiset(sorted) + multiset{r}
    decreases |sorted|
  {
    if sorted == [] then [r]
    else if r.threatScore >= sorted[0].threatScore then [r] + sorted
    else
      var tail := Insert(r, sorted[1..]);
      assert sorted == [sorted[0]] + sorted[1..];
      AtMostPermuted([r] + sorted[1..], tail, sorted[0].threatScore);
      ConsSorted(sorted[0], tail);
      [sorted[0]] + tail
  }

  /** No row of `rows` scores above `bound`. */
  ghost predicate AllAtMost(rows: seq<Row>, bound: int)
  {
    forall k :: 0 <= k < |rows| ==> rows[k].threatScore <= bound
  }

  lemma AtMostPermuted(a: seq<Row>, b: seq<Row>, bound: int)
    requires AllAtMost(a, bound) && multiset(a) == multiset(b)
    ensures AllAtMost(b, bound)
  {
    forall k | 0 <= k < |b|
      ensures b[k].threatScore <= bound
    {
      assert b[k] in multiset(a);
      var j :| 0 <= j < |a| && a[j] == b[k];
    }
  }

  lemma ConsSorted(first: Row, rest: seq<Row>)
    requires SortedDesc(rest) && AllAtMost(rest, first.threatScore)
    ensures SortedDesc([first] + rest)
  {
  }

  /** The rows ordered by descending score: a permutation of the input. */
  function SortByScore(rows: seq<Row>): (res: seq<Row>)
    ensures SortedDesc(res)
    ensures multiset(res) == multiset(rows)
    decreases |rows|
  {
    if rows == [] then []
    else
      assert rows == [rows[0]] + rows[1..];
      Insert(rows[0], SortByScore(rows[1..]))
  }

  /** `head(k)`: the first k elements, or all of them when there are fewer. */
  function Head<T>(s: seq<T>, k: nat): (prefix: seq<T>)
  {
    if |s| <= k then s else s[..k]
  }

  /** `results.sort_values("threat_score", ascending=False)`, which fails without that column. */
  function Ranked(t: Table): (r: Result<seq<Row>, ColumnError>)
    ensures r.Ok? <==> ScoreColumn in t.columns
    ensures r.Err? ==> r.error == MissingColumn(ScoreColumn)
    ensures r.Ok? ==> SortedDesc(r.value) && multiset(r.value) == multiset(t.rows)
  {
    if ScoreColumn in t.columns then Ok(SortByScore(t.rows)) else Err(MissingColumn(ScoreColumn))
  }

  /** Rows of a descending sequence before position k score at least as high as those after it. */
  lemma PrefixDominatesRest(s: seq<Row>, k: nat)
    requires SortedDesc(s) && k <= |s|
    ensures forall x, y :: x in s[..k] && y in multiset(s) - multiset(s[..k]) ==> x.threatScore >= y.threatScore
  {
    assert s == s[..k] + s[k..];
    assert multiset(s) - multiset(s[..k]) == multiset(s[k..]);
    forall x, y | x in s[..k] && y in multiset(s[k..])
      ensures x.threatScore >= y.threatScore
    {
      var i :| 0 <= i < k && s[..k][i] == x;
      var j :| 0 <= j < |s| - k && s[k..][j] == y;
      assert s[i] == x && s[k + j] == y;
    }
  }

  lemma PrefixIsSubMultiset(s: seq<Row>, k: nat)
    requires k <= |s|
    ensures multiset(s[..k]) <= multiset(s)
  {
    assert s == s[..k] + s[k..];
  }

  /** The ranked table: the highest-scoring rows, at most 50 of them. */
  function TableView(t: Table): (r: Result<seq<Row>, ColumnError>)
    ensures r.Ok? <==> ScoreColumn in t.columns
    ensures r.Err? ==> r.error == MissingColumn(ScoreColumn)
    ensures r.Ok? ==> |r.value| == if |t.rows| <= TableLimit then |t.rows| else TableLimit
    ensures r.Ok? ==> SortedDesc(r.value) && multiset(r.value) <= multiset(t.rows)
    ensures r.Ok? ==> forall x, y :: x in r.value && y in multiset(t.rows) - multiset(r.value) ==> x.threatScore >= y.threatScore
  {
    match Ranked(t)
    case Err(e) => Err(e)
    case Ok(sorted) =>
      var k := if |sorted| <= TableLimit then |sorted| else TableLimit;
      assert Head(sorted, TableLimit) == sorted[..k];
      PrefixDominatesRest(sorted, k);
      PrefixIsSubMultiset(sorted, k);
      Ok(Head(sorted, TableLimit))
  }

  /** The rows behind the chart: the highest-scoring rows, at most 15 of them. */
  function ChartRows(t: Table): (r: Result<seq<Row>, ColumnError>)
    ensures r.Ok? <==> ScoreColumn in t.columns
    ensures r.Ok? ==> |r.value| == if |t.rows| <= ChartLimit then |t.rows| else ChartLimit
    ensures r.Ok? ==> SortedDesc(r.value) && multiset(r.value) <= multiset(t.rows)
  {
    match Ranked(t)
    case Err(e) => Err(e)
    case Ok(sorted) =>
      var k := if |sorted| <= ChartLimit then |sorted| else ChartLimit;
      assert Head(sorted, ChartLimit) == sorted[..k];
      PrefixIsSubMultiset(sorted, k);
      Ok(Head(sorted, ChartLimit))
  }

  /** `(path, threat_score)` for each row, in order. */
  function PathScores(rows: seq<Row>): (bars: seq<(string, int)>)
    ensures |bars| == |rows|
    ensures forall i :: 0 <= i < |rows| ==> bars[i] == (rows[i].path, rows[i].threatScore)
    decreases |rows|
  {
    if rows == [] then [] else [(rows[0].path, rows[0].threatScore)] + PathScores(rows[1..])
  }

  /**
   * The bars of the chart, `.set_index("path")["threat_score"]` of the chart
   * rows, the bars of the chart (duplicate paths kept).  Sorting fails first
   * without a score column, indexing without a path column.
   */
  function ChartSeries(t: Table): (r: Result<seq<(string, int)>, ColumnError>)
    ensures r.Ok? <==> ScoreColumn in t.columns && PathColumn in t.columns
    ensures ScoreColumn !in t.columns ==> r == Err(MissingColumn(ScoreColumn))
    ensures ScoreColumn in t.columns && PathColumn !in t.columns ==> r == Err(MissingColumn(PathColumn))
    ensures r.Ok? ==> |r.value| == |ChartRows(t).value|
    ensures r.Ok? ==> forall i :: 0 <= i < |r.value| ==>
      r.value[i] == (ChartRows(t).value[i].path, ChartRows(t).value[i].threatScore)
  {
    match ChartRows(t)
    case Err(e) => Err(e)
    case Ok(rows) =>
      if PathColumn in t.columns then Ok(PathScores(rows)) else Err(MissingColumn(PathColumn))
  }

  /** The chart shows the first rows of the table: one order, two bounds. */
  lemma ChartIsPrefixOfTable(t: Table)
    requires ScoreColumn in t.columns
    ensures ChartRows(t).value <= TableView(t).value
    ensures ChartRows(t).value == TableView(t).value[..|ChartRows(t).value|]
  {
  }

  /** Every bar of the chart is the path and score of a row of the table, in the same position. */
  lemma ChartBarsComeFromTable(t: Table)
    requires ScoreColumn in t.columns && PathColumn in t.columns
    ensures |ChartSeries(t).value| <= |TableView(t).value|
    ensures forall i :: 0 <= i < |ChartSeries(t).value| ==>
      ChartSeries(t).value[i] == (TableView(t).value[i].path, TableView(t).value[i].threatScore)
  {
  }
}
