/** How much of the graph's cycles a search reports: exactly when all of them, and two graphs where it is not all. */
module DependencyCycles {
  import opened Seqs
  import opened Strings
  import opened Dependencies
  import Sorting

  ghost predicate HasEdge(c: seq<string>, u: string, v: string) {
    exists i :: 0 <= i < |c| - 1 && c[i] == u && c[i + 1] == v
  }

  /** The same cycle, wherever it is entered. */
  ghost predicate SameEdges(c: seq<string>, d: seq<string>) {
    forall u, v :: HasEdge(c, u, v) <==> HasEdge(d, u, v)
  }

  ghost predicate ReportsEveryCycle(g: Graph, cycles: seq<seq<string>>) {
    forall w :: IsCycle(g, w) ==> IsReported(cycles, w)
  }

  ghost predicate IsReported(cycles: seq<seq<string>>, w: seq<string>) {
    exists c :: c in cycles && SameEdges(c, w)
  }

  /** `c` and `d` have an edge in common that does not lead to a server finished earlier. */
  ghost predicate ShareAscent(finished: seq<string>, c: seq<string>, d: seq<string>) {
    exists u, v :: HasEdge(c, u, v) && HasEdge(d, u, v) && !Before(finished, v, u)
  }

  /** Different cycles go up the finishing order by different edges. */
  ghost predicate AscentsTellApart(g: Graph, finished: seq<string>) {
    forall c, d :: IsCycle(g, c) && IsCycle(g, d) && ShareAscent(finished, c, d) ==> SameEdges(c, d)
  }

  lemma ClosingEdgeIsEdge(c: seq<string>, u: string, v: string)
    requires Closes(c, u, v)
    ensures HasEdge(c, u, v)
  {
    assert c[|c| - 2 + 1] == v;
  }

  /** A descending cycle goes up by its closing edge only. */
  lemma OnlyClosingEdgeAscends(finished: seq<string>, c: seq<string>, u: string, v: string)
    requires Descends(finished, c) && HasEdge(c, u, v) && !Before(finished, v, u)
    ensures Closes(c, u, v)
  {
  }

  /** Two cycles found that share an edge going up are one. */
  lemma FoundShareNoAscent(finished: seq<string>, found: seq<seq<string>>, c: seq<string>, d: seq<string>)
    requires OneForEachEdge(found) && c in found && d in found && Descends(finished, c) && Descends(finished, d)
    requires ShareAscent(finished, c, d)
    ensures c == d
  {
    hide Descends, HasEdge, Before, Closes;
    var u, v :| HasEdge(c, u, v) && HasEdge(d, u, v) && !Before(finished, v, u);
    OnlyClosingEdgeAscends(finished, c, u, v);
    OnlyClosingEdgeAscends(finished, d, u, v);
  }

  /** A cycle found goes up by an edge. */
  lemma FoundAscends(g: Graph, finished: seq<string>, c: seq<string>)
    requires Distinct(finished) && IsCycle(g, c) && Descends(finished, c)
    ensures var u, v := c[|c| - 2], c[|c| - 1]; HasEdge(c, u, v) && !Before(finished, v, u)
  {
    hide Descends, Before, IsPath, Distinct;
    ClosingEdgeIsEdge(c, c[|c| - 2], c[|c| - 1]);
    ClosingEdgeAscends(finished, c, c[|c| - 2], c[|c| - 1]);
  }

  /** Every cycle of the graph shares an edge that goes up with a cycle found. */
  lemma EveryCycleMeetsFound(g: Graph, finished: seq<string>, found: seq<seq<string>>, w: seq<string>)
    returns (c: seq<string>)
    requires IsFeedbackArcSet(g, found) && Distinct(finished) && IsCycle(g, w)
    requires forall c :: c in found ==> IsCycle(g, c) && Descends(finished, c)
    ensures c in found && ShareAscent(finished, c, w)
  {
    hide Descends, Before, IsPath, Distinct, HasEdge;
    var i :| 0 <= i < |w| - 1 && Covered(found, w[i], w[i + 1]);
    c :| c in found && Closes(c, w[i], w[i + 1]);
    FoundAscends(g, finished, c);
    StepIsEdge(w, i);
  }

  lemma StepIsEdge(w: seq<string>, i: nat)
    requires i < |w| - 1
    ensures HasEdge(w, w[i], w[i + 1])
  {
  }

  /**
   The search reports every cycle of the graph if and only if it drops none that it
   finds and different cycles go up its finishing order by different edges.
   */
  lemma EveryCycleExactly(g: Graph, finished: seq<string>, found: seq<seq<string>>, cycles: seq<seq<string>>)
    requires SearchResult(g, finished, found, cycles)
    ensures ReportsEveryCycle(g, cycles) <==> KeysTellApart(found) && AscentsTellApart(g, finished)
  {
    hide SearchResult, KeysTellApart, AscentsTellApart, ReportsEveryCycle;
    NothingDropped(g, finished, found, cycles);
    if ReportsEveryCycle(g, cycles) {
      forall d | d in found ensures d in cycles {
        FoundIsReported(g, finished, found, cycles, d);
      }
      AscentsDiffer(g, finished, found, cycles);
    } else if AscentsTellApart(g, finished) {
      SomeFoundIsDropped(g, finished, found, cycles);
    }
  }

  lemma FoundIsReported(g: Graph, finished: seq<string>, found: seq<seq<string>>, cycles: seq<seq<string>>,
                        d: seq<string>)
    requires SearchResult(g, finished, found, cycles) && ReportsEveryCycle(g, cycles) && d in found
    ensures d in cycles
  {
    hide IsSearch, FinishedInOrder, Explored, Descends, SameEdges, ShareAscent, OneForEachEdge, DistinctKeys;
    hide IsKeyOf, Distinct;
    hide Before;
    hide IsPath, HasEdge;
    var c :| c in cycles && SameEdges(c, d);
    FoundAscends(g, finished, d);
    SameEdgesShare(finished, c, d);
    FoundShareNoAscent(finished, found, c, d);
  }

  lemma AscentsDiffer(g: Graph, finished: seq<string>, found: seq<seq<string>>, cycles: seq<seq<string>>)
    requires SearchResult(g, finished, found, cycles) && ReportsEveryCycle(g, cycles)
    ensures AscentsTellApart(g, finished)
  {
    hide IsSearch, FinishedInOrder, Explored, Descends, IsCycle, SameEdges, ShareAscent, OneForEachEdge;
    hide DistinctKeys, IsKeyOf;
    hide Distinct;
    forall c, d | IsCycle(g, c) && IsCycle(g, d) && ShareAscent(finished, c, d) ensures SameEdges(c, d) {
      assert IsReported(cycles, c) && IsReported(cycles, d);
      var c' :| c' in cycles && SameEdges(c', c);
      var d' :| d' in cycles && SameEdges(d', d);
      ShareThroughSame(finished, c', c, d, d');
      FoundShareNoAscent(finished, found, c', d');
      SameThrough(c, c', d);
    }
  }

  lemma SomeFoundIsDropped(g: Graph, finished: seq<string>, found: seq<seq<string>>, cycles: seq<seq<string>>)
    requires SearchResult(g, finished, found, cycles) && AscentsTellApart(g, finished) && !ReportsEveryCycle(g, cycles)
    ensures exists c :: c in found && c !in cycles
  {
    hide IsSearch, FinishedInOrder, Descends, IsCycle, SameEdges, ShareAscent, OneForEachEdge, DistinctKeys;
    hide IsKeyOf, Distinct;
    hide IsFeedbackArcSet, Explored;
    FoundIsFeedbackArcSet(g, finished, found);
    var w :| IsCycle(g, w) && !IsReported(cycles, w);
    var c := EveryCycleMeetsFound(g, finished, found, w);
    assert SameEdges(c, w);
  }

  lemma SameEdgesShare(finished: seq<string>, c: seq<string>, d: seq<string>)
    requires SameEdges(c, d) && |d| >= 2
    requires HasEdge(d, d[|d| - 2], d[|d| - 1]) && !Before(finished, d[|d| - 1], d[|d| - 2])
    ensures ShareAscent(finished, c, d)
  {
    hide HasEdge, Before;
    assert HasEdge(c, d[|d| - 2], d[|d| - 1]);
  }

  lemma ShareThroughSame(finished: seq<string>, c': seq<string>, c: seq<string>, d: seq<string>, d': seq<string>)
    requires SameEdges(c', c) && SameEdges(d', d) && ShareAscent(finished, c, d)
    ensures ShareAscent(finished, c', d')
  {
    hide HasEdge, Before;
    var u, v :| HasEdge(c, u, v) && HasEdge(d, u, v) && !Before(finished, v, u);
    assert HasEdge(c', u, v) && HasEdge(d', u, v);
  }

  lemma SameThrough(c: seq<string>, b: seq<string>, d: seq<string>)
    requires SameEdges(b, c) && SameEdges(b, d)
    ensures SameEdges(c, d)
  {
    hide HasEdge;
  }

  // ----- A comma hides a cycle -----

  const CommaGraph: Graph := map["a" := ["x,b", "x"], "x,b" := ["a"], "x" := ["b"], "b" := ["a"]]

  lemma CommaEdges(u: string, v: string)
    ensures Edge(CommaGraph, u, v) <==>
      (u == "a" && v == "x,b") || (u == "a" && v == "x") || (u == "x,b" && v == "a") || (u == "x" && v == "b") ||
        (u == "b" && v == "a")
  {
    assert CommaGraph["a"][0] == "x,b" && CommaGraph["a"][1] == "x";
    assert CommaGraph["x,b"][0] == "a" && CommaGraph["x"][0] == "b" && CommaGraph["b"][0] == "a";
  }

  lemma JoinsAlike()
    ensures Join(["a", "x,b", "a"]) == Join(["a", "x", "b", "a"])
  {
    var c, d := ["a", "x,b", "a"], ["a", "x", "b", "a"];
    assert c[1..] == ["x,b", "a"] && c[1..][1..] == ["a"];
    assert d[1..] == ["x", "b", "a"] && d[1..][1..] == ["b", "a"] && d[1..][1..][1..] == ["a"];
    assert Join(["b", "a"]) == "b,a";
    assert Join(c) == "a,x,b,a" == Join(d);
  }

  /** The search starts at "a", so it is finished after all the others. */
  lemma CommaRoot(finished: seq<string>, i: nat)
    requires Distinct(finished) && (forall n :: n in finished <==> n in CommaGraph)
    requires FinishedInOrder(CommaGraph, finished, "a") && i < |finished| && finished[i] != "a"
    ensures "a" !in finished[..i]
  {
    var k :| 0 < k <= |finished| && Closed(CommaGraph, finished[..k]) && "a" in finished[..k] &&
      !Sorting.Less("a", finished[k - 1]);
    assert finished[k - 1] in CommaGraph;
    assert finished[k - 1] == "a";
    CommaEdges("a", "x,b");
    CommaEdges("a", "x");
    CommaEdges("x", "b");
    assert "x,b" in finished[..k] && "x" in finished[..k] && "b" in finished[..k];
    assert finished[i] in CommaGraph && finished[i] in finished[..k];
  }

  /** The way from "a" to a server of this graph is determined, so the cycle that an edge back to "a" closes is too. */
  lemma CommaCycles(c: seq<string>)
    requires IsCycle(CommaGraph, c)
    ensures Closes(c, "x,b", "a") ==> c == ["a", "x,b", "a"]
    ensures Closes(c, "b", "a") ==> c == ["a", "x", "b", "a"]
  {
    hide Edge;
    forall u, v ensures Edge(CommaGraph, u, v) ==>
      (v == "x,b" ==> u == "a") && (v == "b" ==> u == "x") && (v == "x" ==> u == "a")
    {
      CommaEdges(u, v);
    }
    var n := |c|;
    if Closes(c, "x,b", "a") {
      assert n >= 3 && Edge(CommaGraph, c[n - 3], c[n - 3 + 1]);
      assert c[..n - 1][n - 3] == c[..n - 1][0];
    }
    if Closes(c, "b", "a") {
      assert n >= 3 && Edge(CommaGraph, c[n - 3], c[n - 3 + 1]);
      assert n >= 4 && Edge(CommaGraph, c[n - 4], c[n - 4 + 1]);
      assert c[..n - 1][n - 4] == c[..n - 1][0];
    }
  }

  lemma CommaCycleIsFound(finished: seq<string>, found: seq<seq<string>>, u: string)
    requires u == "x,b" || u == "b"
    requires Distinct(finished) && (forall n :: n in finished <==> n in CommaGraph)
    requires FinishedInOrder(CommaGraph, finished, "a") && Explored(CommaGraph, finished, found)
    requires forall c :: c in found ==> IsCycle(CommaGraph, c)
    ensures (if u == "b" then ["a", "x", "b", "a"] else ["a", "x,b", "a"]) in found
  {
    hide IsCycle, FinishedInOrder;
    assert u in finished;
    var i :| 0 <= i < |finished| && finished[i] == u;
    CommaRoot(finished, i);
    CommaEdges(u, "a");
    assert Covered(found, u, "a");
    var c :| c in found && Closes(c, u, "a");
    CommaCycles(c);
  }

  /** In this graph a comma makes the search drop a cycle, and whatever it reports misses a closed walk. */
  lemma CommaHidesACycle(cycles: seq<seq<string>>)
    requires IsAnswer(CommaGraph, cycles)
    ensures !IsFeedbackArcSet(CommaGraph, cycles) && !ReportsEveryCycle(CommaGraph, cycles)
  {
    hide Explored, IsSearch, FinishedInOrder, IsCycle, Descends, OneForEachEdge, DistinctKeys, IsKeyOf;
    hide Join, IsFeedbackArcSet;
    hide ReportsEveryCycle, AscentsTellApart, Distinct;
    var finished, found :| SearchResult(CommaGraph, finished, found, cycles);
    CommaCycleIsFound(finished, found, "x,b");
    CommaCycleIsFound(finished, found, "b");
    JoinsAlike();
    assert |["a", "x,b", "a"]| != |["a", "x", "b", "a"]|;
    ArcSetExactly(CommaGraph, finished, found, cycles);
    EveryCycleExactly(CommaGraph, finished, found, cycles);
  }

  // ----- Without commas, too, not every cycle is reported -----

  const CompleteGraph: Graph := map["a" := ["b", "c"], "b" := ["a", "c"], "c" := ["a", "b"]]

  lemma CompleteEdges(u: string, v: string)
    ensures Edge(CompleteGraph, u, v) <==> u in CompleteGraph && v in CompleteGraph && u != v
  {
    assert CompleteGraph["a"][0] == "b" && CompleteGraph["a"][1] == "c";
    assert CompleteGraph["b"][0] == "a" && CompleteGraph["b"][1] == "c";
    assert CompleteGraph["c"][0] == "a" && CompleteGraph["c"][1] == "b";
  }

  /** Among three servers that all depend on each other, the round trip up the finishing order is never reported. */
  lemma ThreeServersHideACycle(cycles: seq<seq<string>>)
    requires IsAnswer(CompleteGraph, cycles)
    ensures IsFeedbackArcSet(CompleteGraph, cycles) && !ReportsEveryCycle(CompleteGraph, cycles)
  {
    hide Explored, IsSearch, FinishedInOrder, OneForEachEdge, DistinctKeys, IsKeyOf, Join, IsFeedbackArcSet, Edge;
    hide IsCycle, Descends, KeysTellApart, KeysIdentifyCycles, Distinct, IsReported;
    var finished, found :| SearchResult(CompleteGraph, finished, found, cycles);
    CommaFreeKeysIdentifyCycles(CompleteGraph);
    ReportedCycles(CompleteGraph, finished, found, cycles);
    ArcSetExactly(CompleteGraph, finished, found, cycles);
    CompleteRoundTrip(finished);
    RoundTripIsNotReported(finished, finished + [finished[0]], cycles);
  }

  lemma CompleteRoundTrip(finished: seq<string>)
    requires Distinct(finished) && forall n :: n in finished <==> n in CompleteGraph
    ensures |finished| == 3 && IsCycle(CompleteGraph, finished + [finished[0]])
  {
    hide Edge;
    DistinctLength(finished, CompleteGraph.Keys);
    assert CompleteGraph.Keys == {"a", "b", "c"};
    var w := finished + [finished[0]];
    forall i | 0 <= i < 3 ensures Edge(CompleteGraph, w[i], w[i + 1]) {
      CompleteEdges(w[i], w[i + 1]);
    }
    assert w[..3] == finished;
  }

  lemma RoundTripIsNotReported(finished: seq<string>, w: seq<string>, cycles: seq<seq<string>>)
    requires |finished| == 3 && Distinct(finished) && w == finished + [finished[0]]
    requires forall c :: c in cycles ==> Descends(finished, c)
    ensures !IsReported(cycles, w)
  {
    hide Descends;
    forall c | c in cycles ensures !SameEdges(c, w) {
      if SameEdges(c, w) {
        StepIsEdge(w, 0);
        StepIsEdge(w, 1);
        OnlyClosingEdgeAscends(finished, c, finished[0], finished[1]);
        OnlyClosingEdgeAscends(finished, c, finished[1], finished[2]);
      }
    }
  }
}
