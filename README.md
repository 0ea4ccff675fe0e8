# Process-path ranking and chain graphs

A Dafny model of the algorithmic core of a dashboard for malicious process-path
detection (`app.py`). An external pipeline scores process chains. The dashboard then
does three things with its result table:

- it ranks the rows by `threat_score`, highest first, and shows the first 50 as a
  table and the first 15 as a bar chart keyed by `path`;
- it offers the `path` values as options of a selector, or shows a notice when the
  table has no `path` column;
- it splits the selected path on `" → "` and builds a directed graph, with one node
  per process name and one edge per consecutive pair.

Modules, one per component:

- `PathTokenizer` (`tokenizer.dfy`): Python's `str.split` with a non-empty
  separator, `join`, and the delimiter `" → "` (space, U+2192, space).
- `ChainGraphBuilder` (`chain_graph.dfy`): the graph as a class with a node set and
  an edge set, updated in place by `AddNode` and `AddEdge` (networkx `add_node` and
  `add_edge`). `BuildGraph` is the building loop. It is proved against the
  specification functions `NodeSet` and `EdgeSet`.
- `ResultRanker` (`ranker.dfy`): the descending sort and the two bounded views.
- `ChainSelector` (`dashboard.dfy`): the selector's options, the graph section, and
  the order in which the results part of the page runs and stops.
- `Wrappers` (`wrappers.dfy`): `Option` and `Result`.

Behaviour of the code that the model keeps:

- The code neither trims segments nor rejects empty paths or empty segments
  (app.py:120). So `""` is one empty process name, and `"A →  → B"` keeps its empty
  middle piece.
- The sort is pandas' default quicksort, which is not stable (app.py:77). So no tie
  order is promised. The model uses one deterministic sort for both views, just as
  the two identical `sort_values` calls give the same order.
- The table's sort (app.py:77) is outside any `try`. A missing `threat_score` column
  therefore stops the whole script there (`ShowResults` returns `Halted`). The chart
  and the graph section are never reached.
- Suppose the table has a `path` column but no rows. The selector then yields
  `None`, and "Render Graph" fails inside the `try` with an error message
  (`RenderError`).

## Model

| member | source | states |
|---|---|---|
| `PathTokenizer.SplitPath` | app.py:120 | splitting a path always gives at least one piece |
| `PathTokenizer.JoinSplit` | app.py:120 | joining the pieces of a split with the separator gives back the original string |
| `PathTokenizer.PiecesAvoidSeparator` | app.py:120 | no piece of a split contains the separator |
| `PathTokenizer.CutsAreLeftmost` | app.py:120 | every cut is at the leftmost occurrence: no occurrence of the separator starts inside a piece that a cut follows |
| `PathTokenizer.SplitUnique` | app.py:120 | the split is the only list of pieces that joins back to the string with every cut leftmost and no separator in the last piece |
| `PathTokenizer.SinglePieceIff` | app.py:120 | a string splits into exactly itself if and only if it does not contain the separator |
| `PathTokenizer.OnePieceIffNoSeparator` | app.py:120 | a split has exactly one piece if and only if the string does not contain the separator |
| `PathTokenizer.SplitEmptyPath` | app.py:120 | the empty path gives the single empty piece `[""]` |
| `PathTokenizer.SplitThreeNames` | app.py:120 | `"A → B → C"` splits into `["A", "B", "C"]` |
| `PathTokenizer.SplitRepeatedName` | app.py:120 | `"A → A"` splits into `["A", "A"]` |
| `ChainGraphBuilder.ChainGraph.constructor` | app.py:118 | a new graph has no nodes and no edges |
| `ChainGraphBuilder.ChainGraph.AddNode` | app.py:124 | adds the name to the node set and leaves the edges as they were; a name already present changes nothing |
| `ChainGraphBuilder.ChainGraph.AddEdge` | app.py:127 | adds the pair to the edge set and both endpoints to the node set; every edge keeps both endpoints among the nodes |
| `ChainGraphBuilder.BuildGraph` | app.py:118-127 | the built graph's nodes are exactly the pieces of the path and its edges exactly the consecutive pairs; the loop invariant says this of the prefix processed so far |
| `ChainGraphBuilder.NodeCountBound` | app.py:123-124 | a chain of n names gives at most n nodes |
| `ChainGraphBuilder.EdgeCountBound` | app.py:126-127 | a non-empty chain of n names gives at most n - 1 edges |
| `ChainGraphBuilder.ReAddedNameKeepsNodes` | app.py:124 | adding a name already in the chain leaves the node set unchanged |
| `ChainGraphBuilder.NodesAreNames` | app.py:123-124 | a name is a node if and only if it occurs in the chain |
| `ChainGraphBuilder.SingleNameGraph` | app.py:118-127 | a path without the delimiter, the empty path included, gives exactly one node and zero edges |
| `ChainGraphBuilder.ThreeNameGraph` | app.py:118-127 | `"A → B → C"` gives the three nodes A, B, C and exactly the two edges A→B and B→C |
| `ChainGraphBuilder.SelfLoopGraph` | app.py:118-127 | `"A → A"` gives the single node A with one self-loop |
| `ResultRanker.SortByScore` | app.py:77 | the sorted rows have non-increasing scores and are a permutation of the input |
| `ResultRanker.Ranked` | app.py:77 | the ranking fails with a missing-column error exactly when there is no `threat_score` column; otherwise it is a permutation sorted by descending score |
| `ResultRanker.TableView` | app.py:77 | the table has min(50, n) rows with non-increasing scores, forms a sub-multiset of the input, and every score shown is at least every omitted score; it fails exactly without `threat_score` |
| `ResultRanker.ChartRows` | app.py:90-91 | the chart rows are min(15, n) rows with non-increasing scores and form a sub-multiset of the input |
| `ResultRanker.PathScores` | app.py:92 | gives one `(path, threat_score)` bar per row, in row order |
| `ResultRanker.ChartSeries` | app.py:89-92 | the chart fails on a missing `threat_score` column first and on a missing `path` column second; otherwise its bars are the paths and scores of the chart rows, in order |
| `ResultRanker.ChartIsPrefixOfTable` | app.py:77-91 | the chart rows are a prefix of the table rows |
| `ResultRanker.ChartBarsComeFromTable` | app.py:77-92 | bar i of the chart is the path and score of row i of the table |
| `ChainSelector.Paths` | app.py:110 | gives the `path` values in row order, one per row |
| `ChainSelector.PathOptions` | app.py:107-110 | options exist exactly when the `path` column does; they are the row paths in row order, duplicates kept |
| `ChainSelector.DuplicatePathsKept` | app.py:110 | two rows with the same path give that path at least twice among the options |
| `ChainSelector.Selected` | app.py:108-111 | the selector yields a value exactly when it has options, and that value is one of them |
| `ChainSelector.ShowGraphSection` | app.py:107-138 | without a `path` column only the notice is shown and no graph is built; before "Render Graph" is pressed nothing is built; with no rows an error is shown; otherwise the graph of the selected row's path is built |
| `ChainSelector.ShowResults` | app.py:76-138 | a missing `threat_score` stops the page before the chart and graph; otherwise the table is `TableView` and the chart is `ChartSeries`; the graph section shows the notice exactly without a `path` column, waits exactly while "Render Graph" is not pressed, shows an error exactly when it is pressed with no rows, and otherwise renders the graph of the selected row's path |

## Left out

- File upload, `pd.read_csv`, the raw-data preview, page setup, spinners, messages and `st.stop()` (app.py:7-61). These are user interface and input/output.
- The scoring pipeline `analyze_paths` (app.py:55). Its source is not part of this model. Its output is an arbitrary `Table`.
- Layout and drawing: `nx.spring_layout(G, seed=42)`, `nx.draw` and the matplotlib figure (app.py:129-132). These are a foreign floating-point library. A failure inside them, or in the imports at lines 115-116, is not modelled.
- Scores are abstract integers. Floating-point comparison and pandas' placement of NaN scores are not modelled.
- Path values are strings. A non-string `path` value (such as NaN), whose `split` would raise inside the `try`, is not modelled.
- `ResultRanker.SortByScore`: promises only descending order and permutation; it does not promise the particular tie order of pandas' quicksort.
- `PathTokenizer.Split`: requires a non-empty separator. Python raises `ValueError` for an empty one, but the dashboard only ever splits on `" → "`.
- The chart's rendering by `st.bar_chart` is not modelled. Only the series it is given is.
