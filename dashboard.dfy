/**
 * The results part of the dashboard: the ranked table, the chart, and the
 * optional graph of one selected process path.  The path selector is offered
 * only when the results have a `path` column; its options are the path
 * values in row order, duplicates kept, and the selection is by value.
 */
module ChainSelector {
  import opened Wrappers
  import opened PathTokenizer
  import opened ChainGraphBuilder
  import opened ResultRanker

  /** The `path` value of each row, in row order (`results["path"].tolist()`). */
  function Paths(rows: seq<Row>): (paths: seq<string>)
    ensures |paths| == |rows|
    ensures forall i :: 0 <= i < |rows| ==> paths[i] == rows[i].path
    decreases |rows|
  {
    if rows == [] then [] else [rows[0].path] + Paths(rows[1..])
  }

  /** The selector's options, or none without a `path` column. */
  function PathOptions(t: Table): (r: Option<seq<string>>)
    ensures r.Some? <==> PathColumn in t.columns
    ensures r.Some? ==> |r.value| == |t.rows|
    ensures r.Some? ==> forall i :: 0 <= i < |t.rows| ==> r.value[i] == t.rows[i].path
  {
    if PathColumn in t.columns then Some(Paths(t.rows)) else None
  }

  /** Two rows with the same path give two options. */
  lemma DuplicatePathsKept(t: Table, i: nat, j: nat)
    requires PathColumn in t.columns
    requires i < j < |t.rows| && t.rows[i].path == t.rows[j].path
    ensures multiset(PathOptions(t).value)[t.rows[i].path] >= 2
  {
    var opts := PathOptions(t).value;
    var p := t.rows[i].path;
    assert opts == opts[..j] + opts[j..];
    assert opts[..j] == opts[..i] + opts[i..j];
    assert opts[i..j][0] == p;
    assert opts[j..][0] == p;
    assert multiset(opts[i..j])[p] >= 1;
    assert multiset(opts[j..])[p] >= 1;
  }

  /**
   * `st.selectbox`: the option at the index the operator picked; with no
   * options the widget yields `None`.
   */
  function Selected(options: seq<string>, choice: nat): (r: Option<string>)
    requires options == [] || choice < |options|
    ensures r.Some? <==> options != []
    ensures r.Some? ==> r.value in options
  {
    if options == [] then None else Some(options[choice])
  }

  /** What the graph section shows. */
  datatype GraphSection =
    | ColumnNotFound   // the notice that the `path` column is missing
    | AwaitingRender   // the selector, with "Render Graph" not pressed
    | RenderError      // the error shown when building the graph raised
    | Rendered         // the drawn graph of the selected path

  /** The picked index is one the selector could offer. */
  predicate ChoiceInRange(t: Table, choice: nat)
  {
    t.rows == [] || choice < |t.rows|
  }

  /**
   * The graph section: a notice without a `path` column, otherwise the
   * selector and, once "Render Graph" is pressed, the graph of the selected
   * path.  With no rows the selector yields `None`, and `None.split` raises
   * inside the `try`, which shows an error instead of a graph.
   */
  method ShowGraphSection(t: Table, choice: nat, renderClicked: bool) returns (section: GraphSection, g: ChainGraph?)
    requires ChoiceInRange(t, choice)
    ensures section == ColumnNotFound <==> PathColumn !in t.columns
    ensures section == AwaitingRender <==> PathColumn in t.columns && !renderClicked
    ensures section == RenderError <==> PathColumn in t.columns && renderClicked && t.rows == []
    ensures g != null <==> section == Rendered
    ensures g != null ==> fresh(g) && g.Valid() && choice < |t.rows|
    ensures g != null ==> g.nodes == NodeSet(SplitPath(t.rows[choice].path))
    ensures g != null ==> g.edges == EdgeSet(SplitPath(t.rows[choice].path))
  {
    g := null;
    var options := PathOptions(t);
    if options.None? {
      section := ColumnNotFound;
      return;
    }
    var selectedPath := Selected(options.value, choice);
    if !renderClicked {
      section := AwaitingRender;
    } else if selectedPath.None? {
      section := RenderError;
    } else {
      g := BuildGraph(selectedPath.value);
      section := Rendered;
    }
  }

  /** The results part of the page, or the point where the script stopped. */
  datatype Display =
    | Halted(error: ColumnError)
    | Shown(table: seq<Row>, chart: Result<seq<(string, int)>, ColumnError>, graph: GraphSection)

  /**
   * The results part of the page: table, chart, graph section, in that
   * order.  The table's sort is outside any `try`, so a
   * missing `threat_score` column stops the script there; a chart that cannot
   * be built only gives a warning, and the graph section runs regardless.
   */
  method ShowResults(t: Table, choice: nat, renderClicked: bool) returns (d: Display, g: ChainGraph?)
    requires ChoiceInRange(t, choice)
    ensures d.Halted? <==> ScoreColumn !in t.columns
    ensures d.Halted? ==> d.error == MissingColumn(ScoreColumn) && g == null
    ensures d.Shown? ==> TableView(t) == Ok(d.table) && d.chart == ChartSeries(t)
    ensures d.Shown? ==> (d.graph == ColumnNotFound <==> PathColumn !in t.columns)
    ensures d.Shown? ==> (d.graph == AwaitingRender <==> PathColumn in t.columns && !renderClicked)
    ensures d.Shown? ==> (d.graph == RenderError <==> PathColumn in t.columns && renderClicked && t.rows == [])
    ensures d.Shown? ==> (d.graph == Rendered <==> PathColumn in t.columns && renderClicked && t.rows != [])
    ensures g != null <==> d.Shown? && d.graph == Rendered
    ensures g != null ==> fresh(g) && g.Valid() && choice < |t.rows|
    ensures g != null ==> g.nodes == NodeSet(SplitPath(t.rows[choice].path))
    ensures g != null ==> g.edges == EdgeSet(SplitPath(t.rows[choice].path))
  {
    var table := TableView(t);
    if table.Err? {
      d, g := Halted(table.error), null;
      return;
    }
    var chart := ChartSeries(t);
    var section;
    section, g := ShowGraphSection(t, choice, renderClicked);
    d := Shown(table.value, chart, section);
  }
}
