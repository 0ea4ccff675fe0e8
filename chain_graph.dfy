/**
 * The process-chain graph: a directed simple graph (networkx `DiGraph`)
 * built from the tokenized path.  Every process name is a node, adding a
 * name twice is a no-op, and every consecutive pair of names is one directed
 * edge; adding an edge also adds its two endpoints.
 */
module ChainGraphBuilder {
  import opened PathTokenizer

  /** A directed transition from one process name to the next. */
  type Edge = (string, string)

  /** The node set a chain should produce: every name in it. */
  function NodeSet(processes: seq<string>): (nodes: set<string>)
  {
    set i | 0 <= i < |processes| :: processes[i]
  }

  /** The edge set a chain should produce: every consecutive pair, once. */
  function EdgeSet(processes: seq<string>): (edges: set<Edge>)
  {
    set i | 0 <= i < |processes| - 1 :: StepAt(processes, i)
  }

  /** The transition from position i to position i + 1. */
  function StepAt(processes: seq<string>, i: nat): (e: Edge)
    requires i + 1 < |processes|
  {
    (processes[i], processes[i + 1])
  }

  /** The smaller of two integers. */
  function Min(a: int, b: int): (m: int)
  {
    if a <= b then a else b
  }

  /** A directed graph without parallel edges, updated in place. */
  class ChainGraph {
    var nodes: set<string>
    var edges: set<Edge>

    /** Every edge joins two nodes of the graph. */
    ghost predicate Valid()
      reads this
    {
      forall e :: e in edges ==> e.0 in nodes && e.1 in nodes
    }

    /** `nx.DiGraph()`: the empty graph. */
    constructor ()
      ensures Valid()
      ensures nodes == {} && edges == {}
    {
      nodes := {};
      edges := {};
    }

    /** `G.add_node(p)`: a name already present leaves the graph as it was. */
    method AddNode(p: string)
      requires Valid()
      modifies this
      ensures Valid()
      ensures nodes == old(nodes) + {p} && edges == old(edges)
      ensures p in old(nodes) ==> nodes == old(nodes)
    {
      nodes := nodes + {p};
    }

    /** `G.add_edge(u, v)`: adds the endpoints as nodes; an edge already present is not doubled. */
    method AddEdge(u: string, v: string)
      requires Valid()
      modifies this
      ensures Valid()
      ensures nodes == old(nodes) + {u, v}
      ensures edges == old(edges) + {(u, v)}
    {
      nodes := nodes + {u, v};
      edges := edges + {(u, v)};
    }
  }

  lemma NodeSetSnoc(processes: seq<string>, p: string)
    ensures NodeSet(processes + [p]) == NodeSet(processes) + {p}
  {
    var ps := processes + [p];
    assert ps[|processes|] == p;
    forall x | x in NodeSet(processes)
      ensures x in NodeSet(ps)
    {
      var i :| 0 <= i < |processes| && processes[i] == x;
      assert ps[i] == x;
    }
  }

  lemma EdgeSetSnoc(processes: seq<string>, p: string)
    requires processes != []
    ensures EdgeSet(processes + [p]) == EdgeSet(processes) + {(processes[|processes| - 1], p)}
  {
    var ps := processes + [p];
    var n := |processes|;
    assert StepAt(ps, n - 1) == (processes[n - 1], p);
    forall e | e in EdgeSet(processes)
      ensures e in EdgeSet(ps)
    {
      var i :| 0 <= i < n - 1 && StepAt(processes, i) == e;
      assert StepAt(ps, i) == e;
    }
    forall e | e in EdgeSet(ps)
      ensures e in EdgeSet(processes) + {(processes[n - 1], p)}
    {
      var i :| 0 <= i < n && StepAt(ps, i) == e;
      if i < n - 1 {
        assert StepAt(processes, i) == e;
      }
    }
  }

  /**
   * Builds the graph of a selected path: split it, then for each position
   * add the name as a node and, except at the last position, an edge to the
   * next name.
   */
  method BuildGraph(selectedPath: string) returns (g: ChainGraph)
    ensures fresh(g) && g.Valid()
    ensures g.nodes == NodeSet(SplitPath(selectedPath))
    ensures g.edges == EdgeSet(SplitPath(selectedPath))
  {
    g := new ChainGraph();
    var processes := SplitPath(selectedPath);
    var n := |processes|;
    for i := 0 to n
      invariant g.Valid()
      invariant g.nodes == if i == 0 then {} else NodeSet(processes[..Min(i + 1, n)])
      invariant g.edges == EdgeSet(processes[..Min(i + 1, n)])
    {
      g.AddNode(processes[i]);
      if i == 0 {
        assert processes[..1] == [processes[0]];
      }
      if i < n - 1 {
        g.AddEdge(processes[i], processes[i + 1]);
        assert processes[..i + 2] == processes[..i + 1] + [processes[i + 1]];
        NodeSetSnoc(processes[..i + 1], processes[i + 1]);
        EdgeSetSnoc(processes[..i + 1], processes[i + 1]);
      }
    }
    assert processes[..n] == processes;
  }

  /** A chain of n names has at most n distinct nodes. */
  lemma {:induction false} NodeCountBound(processes: seq<string>)
    ensures |NodeSet(processes)| <= |processes|
    decreases |processes|
  {
    if processes != [] {
      var init := processes[..|processes| - 1];
      assert processes == init + [processes[|processes| - 1]];
      NodeSetSnoc(init, processes[|processes| - 1]);
      NodeCountBound(init);
    }
  }

  /** A chain of n names has at most n - 1 distinct edges. */
  lemma {:induction false} EdgeCountBound(processes: seq<string>)
    ensures |EdgeSet(processes)| <= if processes == [] then 0 else |processes| - 1
    decreases |processes|
  {
    if |processes| >= 2 {
      var init := processes[..|processes| - 1];
      assert processes == init + [processes[|processes| - 1]];
      EdgeSetSnoc(init, processes[|processes| - 1]);
      EdgeCountBound(init);
    } else {
      assert EdgeSet(processes) == {};
    }
  }

  /** Adding a name already in the chain leaves the node set unchanged. */
  lemma ReAddedNameKeepsNodes(processes: seq<string>, p: string)
    requires p in processes
    ensures NodeSet(processes + [p]) == NodeSet(processes)
  {
    NodeSetSnoc(processes, p);
    var i :| 0 <= i < |processes| && processes[i] == p;
    assert p in NodeSet(processes);
  }

  /** The node set is exactly the set of names in the chain. */
  lemma NodesAreNames(processes: seq<string>)
    ensures forall p :: p in NodeSet(processes) <==> p in processes
  {
  }

  /** A path without the delimiter (the empty path included) gives one node and no edge. */
  lemma SingleNameGraph(path: string)
    requires !Contains(path, Arrow)
    ensures NodeSet(SplitPath(path)) == {path}
    ensures EdgeSet(SplitPath(path)) == {}
  {
    SinglePieceIff(path, Arrow);
    assert SplitPath(path)[0] == path;
  }

  /** `"A → B → C"` gives three nodes and the two edges A→B and B→C. */
  lemma ThreeNameGraph()
    ensures NodeSet(SplitPath("A \U{2192} B \U{2192} C")) == {"A", "B", "C"}
    ensures EdgeSet(SplitPath("A \U{2192} B \U{2192} C")) == {("A", "B"), ("B", "C")}
    ensures |NodeSet(SplitPath("A \U{2192} B \U{2192} C"))| == 3
    ensures |EdgeSet(SplitPath("A \U{2192} B \U{2192} C"))| == 2
  {
    SplitThreeNames();
    var ps: seq<string> := ["A", "B", "C"];
    assert ps[0] == "A" && ps[1] == "B" && ps[2] == "C";
    assert NodeSet(ps) == {"A", "B", "C"};
    assert StepAt(ps, 0) == ("A", "B") && StepAt(ps, 1) == ("B", "C");
    assert EdgeSet(ps) == {("A", "B"), ("B", "C")};
  }

  /** `"A → A"` gives the single node A with a self-loop. */
  lemma SelfLoopGraph()
    ensures NodeSet(SplitPath("A \U{2192} A")) == {"A"}
    ensures EdgeSet(SplitPath("A \U{2192} A")) == {("A", "A")}
  {
    SplitRepeatedName();
    var ps: seq<string> := ["A", "A"];
    assert ps[0] == "A" && ps[1] == "A";
    assert NodeSet(ps) == {"A"};
    assert StepAt(ps, 0) == ("A", "A");
    assert EdgeSet(ps) == {("A", "A")};
  }
}
