/**
 The search for circular depends_on chains (internal/config/validate.go): a
 three-colour depth-first search over the configured servers, with an explicit
 stack and a set of the cycles already reported.
 */
module Dependencies {
  import opened Seqs
  import opened Strings
  import Sorting

  /** Each configured server and its depends_on list. */
  type Graph = map<string, seq<string>>

  predicate Edge(g: Graph, u: string, v: string) {
    u in g && v in g && v in g[u]
  }

  ghost predicate IsPath(g: Graph, p: seq<string>) {
    forall i :: 0 <= i < |p| - 1 ==> Edge(g, p[i], p[i + 1])
  }

  /** A walk along depends_on edges that ends where it starts. */
  ghost predicate IsClosedWalk(g: Graph, w: seq<string>) {
    |w| >= 2 && w[0] == w[|w| - 1] && IsPath(g, w)
  }

  /** A closed walk that meets no server twice on the way round. */
  ghost predicate IsCycle(g: Graph, c: seq<string>) {
    IsClosedWalk(g, c) && Distinct(c[..|c| - 1])
  }

  /** The edge that closes `c` leads from `u` to `v`. */
  predicate Closes(c: seq<string>, u: string, v: string) {
    |c| >= 2 && c[|c| - 2] == u && c[|c| - 1] == v
  }

  /** Every server once, after every configured server it depends on. */
  ghost predicate IsStartOrder(g: Graph, order: seq<string>) {
    && Distinct(order)
    && (forall n :: n in order <==> n in g)
    && (forall i, v :: 0 <= i < |order| && Edge(g, order[i], v) ==> v in order[..i])
  }

  /** One of `cycles` is closed by the edge from `u` to `v`. */
  ghost predicate Covered(cycles: seq<seq<string>>, u: string, v: string) {
    exists c :: c in cycles && Closes(c, u, v)
  }

  /** Every closed walk of `g` uses an edge that closes one of `cycles`. */
  ghost predicate IsFeedbackArcSet(g: Graph, cycles: seq<seq<string>>) {
    forall w :: IsClosedWalk(g, w) ==> exists i :: 0 <= i < |w| - 1 && Covered(cycles, w[i], w[i + 1])
  }

  // ----- The key under which a cycle counts as already reported -----

  /** Distinct cycles of `g` have distinct keys. */
  ghost predicate KeysIdentifyCycles(g: Graph) {
    forall c, d :: IsCycle(g, c) && IsCycle(g, d) && Join(c) == Join(d) ==> c == d
  }

  predicate CommaFree(g: Graph) {
    forall n :: n in g ==> ',' !in n
  }

  lemma CommaFreeKeysIdentifyCycles(g: Graph)
    ensures CommaFree(g) ==> KeysIdentifyCycles(g)
  {
    forall c, d | CommaFree(g) && IsCycle(g, c) && IsCycle(g, d) && Join(c) == Join(d) ensures c == d {
      PathStaysInGraph(g, c);
      PathStaysInGraph(g, d);
      JoinIsInjective(c, d);
    }
  }

  lemma PathStaysInGraph(g: Graph, p: seq<string>)
    requires |p| >= 2 && IsPath(g, p)
    ensures forall n :: n in p ==> n in g
  {
    forall n | n in p ensures n in g {
      var i :| 0 <= i < |p| && p[i] == n;
      if i < |p| - 1 { assert Edge(g, p[i], p[i + 1]); } else { assert Edge(g, p[i - 1], p[i]); }
    }
  }

  /** `key` is the key of one of `cycles`. */
  ghost predicate IsKeyOf(cycles: seq<seq<string>>, key: string) {
    exists c :: c in cycles && Join(c) == key
  }

  ghost predicate DistinctKeys(cycles: seq<seq<string>>) {
    forall i, j :: 0 <= i < j < |cycles| ==> Join(cycles[i]) != Join(cycles[j])
  }

  lemma DifferentKeysDiffer(cycles: seq<seq<string>>)
    requires DistinctKeys(cycles)
    ensures Distinct(cycles)
  {
    forall i, j | 0 <= i < j < |cycles| ensures cycles[i] != cycles[j] {
      assert Join(cycles[i]) != Join(cycles[j]);
    }
  }

  // ----- The finishing order -----

  /** `a` comes before `b` in `order`. */
  ghost predicate Before(order: seq<string>, a: string, b: string) {
    exists i, j :: 0 <= i < j < |order| && order[i] == a && order[j] == b
  }

  /** The nodes of `c` are in `order`, and every edge of `c` but the closing one leads to an earlier node. */
  ghost predicate Descends(order: seq<string>, c: seq<string>) {
    && (forall n :: n in c ==> n in order)
    && forall i :: 0 <= i < |c| - 2 ==> Before(order, c[i + 1], c[i])
  }

  lemma BeforeIsTransitive(order: seq<string>, a: string, b: string, c: string)
    requires Distinct(order) && Before(order, a, b) && Before(order, b, c)
    ensures Before(order, a, c) && !Before(order, c, a) && a != c
  {
    var i, j :| 0 <= i < j < |order| && order[i] == a && order[j] == b;
    var j', k :| 0 <= j' < k < |order| && order[j'] == b && order[k] == c;
    assert j == j';
  }

  lemma {:induction false} DescendsFromStart(order: seq<string>, c: seq<string>, i: nat)
    requires Distinct(order) && Descends(order, c) && 0 < i < |c| - 1
    ensures Before(order, c[i], c[0])
  {
    hide Before, Distinct;
    if i > 1 {
      DescendsFromStart(order, c, i - 1);
      assert Before(order, c[i - 1 + 1], c[i - 1]);
      BeforeIsTransitive(order, c[i], c[i - 1], c[0]);
    } else {
      assert Before(order, c[0 + 1], c[0]);
    }
  }

  /** The closing edge of a descending cycle leads to no earlier node. */
  lemma ClosingEdgeAscends(order: seq<string>, c: seq<string>, u: string, v: string)
    requires Distinct(order) && Descends(order, c) && |c| >= 2 && c[0] == c[|c| - 1] && Closes(c, u, v)
    ensures !Before(order, v, u)
  {
    if |c| > 2 {
      DescendsFromStart(order, c, |c| - 2);
    }
  }

  /** No two of the cycles are closed by the same edge. */
  ghost predicate OneForEachEdge(cycles: seq<seq<string>>) {
    forall c, d, u, v :: c in cycles && d in cycles && Closes(c, u, v) && Closes(d, u, v) ==> c == d
  }

  // ----- What a finished search knows -----

  /** Every edge from `u` into `deps` is covered or leads to a finished server. */
  ghost predicate Settled(g: Graph, finished: seq<string>, found: seq<seq<string>>, u: string, deps: seq<string>) {
    forall v :: v in deps && v in g ==> v in finished || Covered(found, u, v)
  }

  lemma StaysSettled(g: Graph, finished: seq<string>, found: seq<seq<string>>,
                     finished': seq<string>, found': seq<seq<string>>, u: string, deps: seq<string>)
    requires Settled(g, finished, found, u, deps) && finished <= finished' && found <= found'
    ensures Settled(g, finished', found', u, deps)
  {
  }

  /** Every edge out of a finished server is covered, or leads to one finished earlier. */
  ghost predicate Explored(g: Graph, finished: seq<string>, found: seq<seq<string>>) {
    forall i, v :: 0 <= i < |finished| && Edge(g, finished[i], v) ==>
      v in finished[..i] || Covered(found, finished[i], v)
  }

  lemma StaysExplored(g: Graph, finished: seq<string>, found: seq<seq<string>>, c: seq<string>)
    requires Explored(g, finished, found)
    ensures Explored(g, finished, found + [c])
  {
  }

  lemma FinishKeepsExplored(g: Graph, finished: seq<string>, found: seq<seq<string>>, node: string)
    requires Explored(g, finished, found) && node in g && Settled(g, finished, found, node, g[node])
    ensures Explored(g, finished + [node], found)
  {
    hide Covered;
    assert forall i :: 0 <= i <= |finished| ==> (finished + [node])[..i] == finished[..i];
    assert finished[..|finished|] == finished;
  }

  /** An edge from the end of a path without repetition back onto it closes a cycle. */
  lemma BackEdgeCloses(g: Graph, path: seq<string>, start: nat, dep: string)
    requires start < |path| && path[start] == dep && IsPath(g, path) && Distinct(path)
    requires Edge(g, path[|path| - 1], dep)
    ensures IsCycle(g, path[start..] + [dep]) && Closes(path[start..] + [dep], path[|path| - 1], dep)
  {
    hide Edge;
    assert (path[start..] + [dep])[..|path| - start] == path[start..];
  }

  // ----- The cycles found, while the stack changes -----

  /** The order in which servers will be finished: those that are, then the stack from its top down. */
  ghost function Timeline(finished: seq<string>, stack: seq<string>): seq<string> {
    finished + Reverse(stack)
  }

  /** `c` is cut from the stack: from one of its servers up to another, and back. */
  ghost predicate IsCut(stack: seq<string>, c: seq<string>) {
    exists s, p :: 0 <= s <= p < |stack| && c == CutOf(stack, s, p)
  }

  ghost function CutOf(stack: seq<string>, s: nat, p: nat): seq<string>
    requires s <= p < |stack|
  {
    stack[s..p + 1] + [stack[s]]
  }

  /**
   A cycle found descends along the timeline, and was cut from the stack unless the server it was
   found at is finished.
   */
  ghost predicate Placed(finished: seq<string>, stack: seq<string>, c: seq<string>) {
    |c| >= 2 && Descends(Timeline(finished, stack), c) && (c[|c| - 2] in finished || IsCut(stack, c))
  }

  lemma BeforeWithInsertion(a: seq<string>, b: seq<string>, x: string, u: string, v: string)
    requires Before(a + b, u, v)
    ensures Before(a + [x] + b, u, v)
  {
    var i, j :| 0 <= i < j < |a + b| && (a + b)[i] == u && (a + b)[j] == v;
    var i', j' := if i < |a| then i else i + 1, if j < |a| then j else j + 1;
    assert (a + [x] + b)[i'] == u && (a + [x] + b)[j'] == v;
  }

  lemma PushKeepsPlaced(finished: seq<string>, stack: seq<string>, node: string, c: seq<string>)
    requires Placed(finished, stack, c)
    ensures Placed(finished, stack + [node], c)
  {
    hide Before;
    var rest := Reverse(stack);
    assert Timeline(finished, stack + [node]) == finished + [node] + rest;
    forall i | 0 <= i < |c| - 2 ensures Before(finished + [node] + rest, c[i + 1], c[i]) {
      BeforeWithInsertion(finished, rest, node, c[i + 1], c[i]);
    }
    if c[|c| - 2] !in finished {
      var s, p :| 0 <= s <= p < |stack| && c == CutOf(stack, s, p);
      assert c == CutOf(stack + [node], s, p);
    }
  }

  lemma PopKeepsPlaced(finished: seq<string>, stack: seq<string>, c: seq<string>)
    requires Placed(finished, stack, c) && stack != []
    ensures Placed(finished + [stack[|stack| - 1]], stack[..|stack| - 1], c)
  {
    hide Before;
    var node, rest := stack[|stack| - 1], stack[..|stack| - 1];
    assert Timeline(finished + [node], rest) == Timeline(finished, stack);
    if c[|c| - 2] !in finished {
      var s, p :| 0 <= s <= p < |stack| && c == CutOf(stack, s, p);
      if p < |rest| {
        assert rest[s..p + 1] == stack[s..p + 1] && rest[s] == stack[s];
        assert c == CutOf(rest, s, p);
      } else {
        assert c[|c| - 2] == node;
      }
    }
  }

  lemma CutIsPlaced(finished: seq<string>, stack: seq<string>, s: nat)
    requires s < |stack|
    ensures Placed(finished, stack, CutOf(stack, s, |stack| - 1))
  {
    var c, order := CutOf(stack, s, |stack| - 1), Timeline(finished, stack);
    forall n | n in c ensures n in order {
      var i :| 0 <= i < |stack| && stack[i] == n;
      assert order[|finished| + |stack| - 1 - i] == n;
    }
    forall i | 0 <= i < |c| - 2 ensures Before(order, c[i + 1], c[i]) {
      var k := |finished| + |stack| - 1 - (s + i);
      assert order[k] == c[i] && order[k - 1] == c[i + 1];
    }
  }

  /** At the top of the stack there is one cycle for each edge back onto it. */
  lemma CutIsUnique(finished: seq<string>, stack: seq<string>, c: seq<string>, s: nat)
    requires Distinct(stack) && s < |stack| && stack[|stack| - 1] !in finished
    requires Placed(finished, stack, c) && Closes(c, stack[|stack| - 1], stack[s])
    ensures c == CutOf(stack, s, |stack| - 1)
  {
    var s', p :| 0 <= s' <= p < |stack| && c == CutOf(stack, s', p);
    assert c[|c| - 2] == stack[p] && c[|c| - 1] == stack[s'];
  }

  /** What is known of the cycles found so far. */
  ghost predicate FoundValid(g: Graph, finished: seq<string>, stack: seq<string>, found: seq<seq<string>>) {
    && (forall c :: c in found ==> IsCycle(g, c) && Placed(finished, stack, c))
    && OneForEachEdge(found)
  }

  lemma PushKeepsFound(g: Graph, finished: seq<string>, stack: seq<string>, found: seq<seq<string>>, node: string)
    requires FoundValid(g, finished, stack, found)
    ensures FoundValid(g, finished, stack + [node], found)
  {
    hide Placed, IsCycle, OneForEachEdge;
    forall c | c in found ensures Placed(finished, stack + [node], c) {
      PushKeepsPlaced(finished, stack, node, c);
    }
  }

  lemma PopKeepsFound(g: Graph, finished: seq<string>, stack: seq<string>, found: seq<seq<string>>)
    requires FoundValid(g, finished, stack, found) && stack != []
    ensures FoundValid(g, finished + [stack[|stack| - 1]], stack[..|stack| - 1], found)
  {
    hide Placed, IsCycle, OneForEachEdge;
    forall c | c in found ensures Placed(finished + [stack[|stack| - 1]], stack[..|stack| - 1], c) {
      PopKeepsPlaced(finished, stack, c);
    }
  }

  lemma BackEdgeKeepsFound(g: Graph, finished: seq<string>, stack: seq<string>, found: seq<seq<string>>, s: nat)
    requires FoundValid(g, finished, stack, found) && Distinct(stack) && s < |stack| && stack[|stack| - 1] !in finished
    requires IsCycle(g, CutOf(stack, s, |stack| - 1))
    ensures FoundValid(g, finished, stack, found + [CutOf(stack, s, |stack| - 1)])
  {
    hide Placed, IsCycle;
    var cut := CutOf(stack, s, |stack| - 1);
    CutIsPlaced(finished, stack, s);
    forall c, u, v | c in found && Closes(c, u, v) && Closes(cut, u, v) ensures c == cut {
      CutIsUnique(finished, stack, c, s);
    }
  }

  lemma PopKeepsPath(g: Graph, finished: seq<string>, stack: seq<string>)
    requires stack != [] && Distinct(stack) && IsPath(g, stack) && Distinct(finished) && stack[|stack| - 1] !in finished
    ensures Distinct(stack[..|stack| - 1]) && stack[|stack| - 1] !in stack[..|stack| - 1] &&
      IsPath(g, stack[..|stack| - 1])
    ensures Distinct(finished + [stack[|stack| - 1]])
  {
    hide Edge;
  }

  // ----- Closed walks and covered edges -----

  /** A walk whose edges are all uncovered moves strictly down the finishing order. */
  lemma {:induction false} UncoveredWalkDescends(g: Graph, finished: seq<string>, found: seq<seq<string>>,
                                                 w: seq<string>, i: nat, j: nat)
    requires Distinct(finished) && Explored(g, finished, found)
    requires |w| >= 1 && IsPath(g, w) && i < |finished| && finished[i] == w[0]
    requires forall k :: 0 <= k < |w| - 1 ==> !Covered(found, w[k], w[k + 1])
    requires j < |finished| && finished[j] == w[|w| - 1]
    ensures j <= i && (|w| >= 2 ==> j < i)
  {
    hide Covered;
    if |w| >= 2 {
      assert Edge(g, w[0], w[1]);
      assert !Covered(found, w[0], w[0 + 1]);
      var m :| 0 <= m < i && finished[m] == w[1];
      UncoveredWalkDescends(g, finished, found, w[1..], m, j);
    }
  }

  /** The cycles that a complete search finds are closed by edges that meet every closed walk. */
  lemma FoundIsFeedbackArcSet(g: Graph, finished: seq<string>, found: seq<seq<string>>)
    requires Distinct(finished) && Explored(g, finished, found) && forall n :: n in g ==> n in finished
    ensures IsFeedbackArcSet(g, found)
  {
    hide Covered;
    forall w | IsClosedWalk(g, w) ensures exists i :: 0 <= i < |w| - 1 && Covered(found, w[i], w[i + 1]) {
      if forall k :: 0 <= k < |w| - 1 ==> !Covered(found, w[k], w[k + 1]) {
        assert Edge(g, w[0], w[1]);
        var i :| 0 <= i < |finished| && finished[i] == w[0];
        UncoveredWalkDescends(g, finished, found, w, i, i);
        assert false;
      }
    }
  }

  /** A start order and a closed walk exclude each other. */
  lemma StartOrderMeansAcyclic(g: Graph, order: seq<string>, w: seq<string>)
    requires IsStartOrder(g, order)
    ensures !IsClosedWalk(g, w)
  {
    assert Explored(g, order, []);
    FoundIsFeedbackArcSet(g, order, []);
  }

  // ----- The search as a function of the graph -----

  /** The servers in the order they turned gray and black, and the cycle of every back edge met. */
  datatype Trace = Trace(entered: seq<string>, finished: seq<string>, found: seq<seq<string>>)

  const Nothing := Trace([], [], [])

  ghost function Names(s: seq<string>): set<string> {
    set n | n in s
  }

  /** The first place of `v`. */
  function PlaceOf(path: seq<string>, v: string): (i: nat)
    requires v in path
    ensures i < |path| && path[i] == v && v !in path[..i]
  {
    if path[0] == v then 0
    else
      var i := PlaceOf(path[1..], v);
      assert path[..i + 1] == [path[0]] + path[1..][..i];
      i + 1
  }

  /** The end of the path from `v` on, closed by `v`. */
  function CutFrom(path: seq<string>, v: string): seq<string>
    requires v in path
  {
    path[PlaceOf(path, v)..] + [v]
  }

  lemma CutIsAt(path: seq<string>, start: nat)
    requires Distinct(path) && start < |path|
    ensures CutFrom(path, path[start]) == path[start..] + [path[start]]
  {
  }

  /** Server `u`, reached along `path`, and everything new that it leads to. */
  ghost function Explore(g: Graph, path: seq<string>, u: string, t: Trace): (r: Trace)
    requires u in g && u !in t.entered
    ensures t.entered + [u] <= r.entered
    decreases g.Keys - Names(t.entered), 0, 0
  {
    var t1 := t.(entered := t.entered + [u]);
    assert u in g.Keys - Names(t.entered);
    var t2 := ExploreAll(g, path + [u], g[u], t1);
    t2.(finished := t2.finished + [u])
  }

  /** The dependencies `deps` of the server at the end of `path`, one after the other. */
  ghost function ExploreAll(g: Graph, path: seq<string>, deps: seq<string>, t: Trace): (r: Trace)
    ensures t.entered <= r.entered
    decreases g.Keys - Names(t.entered), 2, |deps|
  {
    if deps == [] then t
    else
      var before := ExploreAll(g, path, deps[..|deps| - 1], t);
      assert Names(t.entered) <= Names(before.entered);
      ExploreOne(g, path, deps[|deps| - 1], before)
  }

  ghost function ExploreOne(g: Graph, path: seq<string>, v: string, t: Trace): (r: Trace)
    ensures t.entered <= r.entered
    decreases g.Keys - Names(t.entered), 1, 0
  {
    if v !in g then t
    else if v in path then t.(found := t.found + [CutFrom(path, v)])
    else if v in t.entered then t
    else Explore(g, path, v, t)
  }

  ghost function SearchNames(g: Graph, names: seq<string>): (r: Trace) {
    if names == [] then Nothing
    else
      var before, root := SearchNames(g, names[..|names| - 1]), names[|names| - 1];
      if root !in g || root in before.entered then before else Explore(g, [], root, before)
  }

  ghost predicate IsNameOrder(g: Graph, names: seq<string>) {
    multiset(names) == multiset(g.Keys) && Sorting.SortedBy(names, Sorting.Less)
  }

  /** A search from every server in name order finishes the servers and finds the cycles in these orders. */
  ghost predicate IsSearch(g: Graph, finished: seq<string>, found: seq<seq<string>>) {
    exists names :: IsNameOrder(g, names) && SearchNames(g, names).finished == finished &&
      SearchNames(g, names).found == found
  }

  /** Of the cycles found, the first with each key. */
  ghost function Firsts(found: seq<seq<string>>): seq<seq<string>> {
    if found == [] then []
    else
      var before, c := Firsts(found[..|found| - 1]), found[|found| - 1];
      if IsKeyOf(before, Join(c)) then before else before + [c]
  }

  lemma FirstsGrow(found: seq<seq<string>>, c: seq<string>)
    ensures Firsts(found + [c]) == if IsKeyOf(Firsts(found), Join(c)) then Firsts(found) else Firsts(found) + [c]
  {
    assert (found + [c])[..|found|] == found;
  }

  lemma ExploreOneMore(g: Graph, path: seq<string>, deps: seq<string>, i: nat, t: Trace)
    requires i < |deps|
    ensures ExploreAll(g, path, deps[..i + 1], t) == ExploreOne(g, path, deps[i], ExploreAll(g, path, deps[..i], t))
  {
    assert deps[..i + 1][..i] == deps[..i];
  }

  lemma SearchOneMore(g: Graph, names: seq<string>, i: nat)
    requires i < |names|
    ensures var before := SearchNames(g, names[..i]);
      SearchNames(g, names[..i + 1]) ==
        if names[i] !in g || names[i] in before.entered then before else Explore(g, [], names[i], before)
  {
    assert names[..i + 1][..i] == names[..i];
  }

  // ----- The result of a search -----

  /** No edge leads from the servers in `done` to one that is not. */
  ghost predicate Closed(g: Graph, done: seq<string>) {
    forall u, v :: u in done && Edge(g, u, v) ==> v in done
  }

  /** Roots are taken in name order: `n` is finished with a root that does not come later, and all the root leads to. */
  ghost predicate FinishedInOrder(g: Graph, finished: seq<string>, n: string) {
    exists k :: 0 < k <= |finished| && Closed(g, finished[..k]) && n in finished[..k] &&
      !Sorting.Less(n, finished[k - 1])
  }

  /**
   What is reported, every cycle found on the way, and the order in which the
   servers were finished, all as the search of `g` has it: each server once; every
   edge covered by a cycle found or leading to an earlier server; every cycle found
   descending but for its closing edge, one for each such edge; and of the cycles
   found, the first with each key reported.
   */
  ghost predicate SearchResult(g: Graph, finished: seq<string>, found: seq<seq<string>>, cycles: seq<seq<string>>) {
    && Distinct(finished) && (forall n :: n in finished <==> n in g) && Explored(g, finished, found)
    && (forall n :: n in g ==> FinishedInOrder(g, finished, n))
    && (forall c :: c in found ==> IsCycle(g, c) && Descends(finished, c))
    && OneForEachEdge(found)
    && DistinctKeys(cycles) && (forall c :: c in cycles ==> c in found)
    && (forall c :: c in found ==> IsKeyOf(cycles, Join(c)))
    && IsSearch(g, finished, found) && cycles == Firsts(found)
  }

  /** What a search of `g` may report. */
  ghost predicate IsAnswer(g: Graph, cycles: seq<seq<string>>) {
    exists finished, found :: SearchResult(g, finished, found, cycles)
  }

  /** No cycle found is dropped for another with the same key. */
  ghost predicate KeysTellApart(found: seq<seq<string>>) {
    forall c, d :: c in found && d in found && Join(c) == Join(d) ==> c == d
  }

  lemma NothingDropped(g: Graph, finished: seq<string>, found: seq<seq<string>>, cycles: seq<seq<string>>)
    requires SearchResult(g, finished, found, cycles)
    ensures KeysTellApart(found) <==> forall c :: c in found ==> c in cycles
  {
    hide Explored, IsSearch, FinishedInOrder, IsCycle, Descends, OneForEachEdge, Join;
    if KeysTellApart(found) {
      forall c | c in found ensures c in cycles {
        var d :| d in cycles && Join(d) == Join(c);
      }
    }
  }

  /** An edge of a cycle found, if it closes another cycle found, closes both: the two are the same. */
  lemma SharedClosingEdge(finished: seq<string>, found: seq<seq<string>>, c: seq<string>, d: seq<string>, i: nat)
    requires Distinct(finished) && OneForEachEdge(found) && c in found && d in found && i < |d| - 1
    requires Descends(finished, c) && Descends(finished, d) && Closes(c, d[i], d[i + 1])
    requires c[0] == c[|c| - 1]
    ensures c == d
  {
    ClosingEdgeAscends(finished, c, d[i], d[i + 1]);
    if i == |d| - 2 {
      assert Closes(d, d[i], d[i + 1]);
    }
  }

  /** The closing edges of what is reported meet every closed walk if and only if keys tell the cycles found apart. */
  lemma ArcSetExactly(g: Graph, finished: seq<string>, found: seq<seq<string>>, cycles: seq<seq<string>>)
    requires SearchResult(g, finished, found, cycles)
    ensures IsFeedbackArcSet(g, cycles) <==> KeysTellApart(found)
  {
    hide SearchResult, IsFeedbackArcSet, KeysTellApart;
    NothingDropped(g, finished, found, cycles);
    if forall c :: c in found ==> c in cycles {
      AllReportedIsArcSet(g, finished, found, cycles);
    } else {
      var d :| d in found && d !in cycles;
      DroppedCycleIsMissed(g, finished, found, cycles, d);
    }
  }

  lemma AllReportedIsArcSet(g: Graph, finished: seq<string>, found: seq<seq<string>>, cycles: seq<seq<string>>)
    requires SearchResult(g, finished, found, cycles) && forall c :: c in found ==> c in cycles
    ensures IsFeedbackArcSet(g, cycles)
  {
    hide IsFeedbackArcSet, Explored, FinishedInOrder, IsCycle, Descends, OneForEachEdge, DistinctKeys, IsKeyOf;
    FoundIsFeedbackArcSet(g, finished, found);
    MoreCyclesCoverMore(g, found, cycles);
  }

  lemma MoreCyclesCoverMore(g: Graph, some: seq<seq<string>>, more: seq<seq<string>>)
    requires IsFeedbackArcSet(g, some) && forall c :: c in some ==> c in more
    ensures IsFeedbackArcSet(g, more)
  {
    hide IsClosedWalk, Closes;
    forall w | IsClosedWalk(g, w) ensures exists i :: 0 <= i < |w| - 1 && Covered(more, w[i], w[i + 1]) {
      var i :| 0 <= i < |w| - 1 && Covered(some, w[i], w[i + 1]);
      assert Covered(more, w[i], w[i + 1]);
    }
  }

  /** A cycle that was dropped is itself a closed walk that nothing reported meets. */
  lemma DroppedCycleIsMissed(g: Graph, finished: seq<string>, found: seq<seq<string>>, cycles: seq<seq<string>>,
                             d: seq<string>)
    requires SearchResult(g, finished, found, cycles) && d in found && d !in cycles
    ensures IsClosedWalk(g, d) && forall i :: 0 <= i < |d| - 1 ==> !Covered(cycles, d[i], d[i + 1])
    ensures !IsFeedbackArcSet(g, cycles)
  {
    hide Explored, IsSearch, FinishedInOrder, Descends, OneForEachEdge, IsKeyOf, DistinctKeys, IsPath, Distinct, Closes;
    forall i, c | 0 <= i < |d| - 1 && c in cycles && Closes(c, d[i], d[i + 1]) ensures false {
      SharedClosingEdge(finished, found, c, d, i);
    }
  }

  lemma NothingReportedMeansStartOrder(g: Graph, finished: seq<string>, found: seq<seq<string>>,
                                       cycles: seq<seq<string>>)
    requires SearchResult(g, finished, found, cycles)
    ensures cycles == [] <==> exists order :: IsStartOrder(g, order)
    ensures cycles == [] <==> forall w :: !IsClosedWalk(g, w)
  {
    hide IsSearch, FinishedInOrder, Descends, OneForEachEdge, DistinctKeys;
    if cycles == [] {
      assert forall c :: c in found ==> IsKeyOf(cycles, Join(c));
      assert forall c :: c !in found;
      assert IsStartOrder(g, finished);
    } else {
      assert cycles[0] in cycles && IsCycle(g, cycles[0]);
    }
    if order :| IsStartOrder(g, order) {
      forall w ensures !IsClosedWalk(g, w) { StartOrderMeansAcyclic(g, order, w); }
    }
  }

  // ----- The search -----

  /** Of the cycles found the first with each key is reported, and the keys are those seen. */
  ghost predicate Reported(found: seq<seq<string>>, seen: set<string>, cycles: seq<seq<string>>) {
    && (forall c :: c in cycles ==> c in found)
    && (forall c :: c in found ==> Join(c) in seen)
    && (forall k :: k in seen ==> IsKeyOf(cycles, k))
    && DistinctKeys(cycles) && cycles == Firsts(found)
  }

  lemma ReportGrows(found: seq<seq<string>>, seen: set<string>, cycles: seq<seq<string>>, c: seq<string>)
    requires Reported(found, seen, cycles)
    ensures Join(c) in seen ==> Reported(found + [c], seen, cycles)
    ensures Join(c) !in seen ==> Reported(found + [c], seen + {Join(c)}, cycles + [c])
  {
    hide Join, Firsts, IsKeyOf, DistinctKeys;
    FirstsGrow(found, c);
    if Join(c) !in seen {
      KeysGrow(cycles, seen, c);
      if IsKeyOf(cycles, Join(c)) {
        KeyIsSeen(found, seen, cycles, Join(c));
      }
    }
  }

  lemma KeyIsSeen(found: seq<seq<string>>, seen: set<string>, cycles: seq<seq<string>>, key: string)
    requires Reported(found, seen, cycles) && IsKeyOf(cycles, key)
    ensures key in seen
  {
    hide Join, Firsts, DistinctKeys;
  }

  lemma KeysGrow(cycles: seq<seq<string>>, seen: set<string>, c: seq<string>)
    requires forall k :: k in seen ==> IsKeyOf(cycles, k)
    ensures forall k :: k in seen + {Join(c)} ==> IsKeyOf(cycles + [c], k)
    ensures DistinctKeys(cycles) && !IsKeyOf(cycles, Join(c)) ==> DistinctKeys(cycles + [c])
  {
    hide Join;
    assert c == (cycles + [c])[|cycles|];
    forall k | k in seen ensures IsKeyOf(cycles + [c], k) {
      var d :| d in cycles && Join(d) == k;
      assert d in cycles + [c];
    }
  }

  datatype Color = White | Gray | Black

  /** The variables that the recursive closure `dfs` shares with its caller. */
  class CycleFinder {
    const servers: Graph
    var color: map<string, Color>  // absent means white
    var stack: seq<string>
    var seen: set<string>
    var cycles: seq<seq<string>>
    ghost var entered: seq<string>     // servers in the order they turned gray
    ghost var finished: seq<string>    // servers in the order they turned black
    ghost var found: seq<seq<string>>  // the cycle of every back edge met, reported or not

    constructor (servers: Graph)
      ensures Valid() && this.servers == servers
      ensures color == map[] && stack == [] && State() == Nothing && cycles == []
    {
      this.servers := servers;
      color, stack, seen, cycles, entered, finished, found := map[], [], {}, [], [], [], [];
    }

    ghost function State(): Trace
      reads this
    {
      Trace(entered, finished, found)
    }

    function ColorOf(node: string): Color
      reads this
    {
      if node in color then color[node] else White
    }

    /** Gray servers are the stack, a path; black ones are fully explored. */
    ghost predicate ColorsValid()
      reads this
    {
      && Distinct(stack) && Distinct(finished) && IsPath(servers, stack)
      && (forall n :: n in stack <==> ColorOf(n) == Gray)
      && (forall n :: n in finished <==> ColorOf(n) == Black)
      && (forall n :: n in color <==> ColorOf(n) != White)
      && (forall n :: n in color ==> n in servers)
      && (forall n :: n in entered <==> n in color)
      && Explored(servers, finished, found)
    }

    ghost predicate ReportValid()
      reads `seen, `cycles, `found
    {
      Reported(found, seen, cycles)
    }

    ghost predicate Valid()
      reads this
    {
      ColorsValid() && ReportValid() && FoundValid(servers, finished, stack, found)
    }

    lemma WhiteIsNew(node: string)
      requires Valid()
      ensures ColorOf(node) == White <==> node !in color
      ensures node in finished ==> node in color
      ensures node in entered <==> node in color
      ensures node in stack <==> ColorOf(node) == Gray
      ensures node in finished <==> ColorOf(node) == Black
    {
    }

    /** With an empty stack no edge leads out of the finished servers. */
    lemma FinishedIsClosed()
      requires Valid() && stack == []
      ensures Closed(servers, finished) && forall n :: n in finished <==> n in color
      ensures forall n :: n in finished ==> n in servers
    {
      assert Timeline(finished, stack) == finished;
      hide Before, IsCut, OneForEachEdge;
      forall u, v | u in finished && Edge(servers, u, v) ensures v in finished {
        var i :| 0 <= i < |finished| && finished[i] == u;
        if v !in finished[..i] {
          var c :| c in found && Closes(c, u, v);
          assert v in c;
        }
      }
      forall n | n in color ensures n in finished {
        assert ColorOf(n) == Black;
      }
    }

    lemma Ended()
      requires Valid() && stack == [] && servers.Keys <= color.Keys
      requires forall n :: n in servers ==> FinishedInOrder(servers, finished, n)
      requires IsSearch(servers, finished, found)
      ensures SearchResult(servers, finished, found, cycles)
    {
      hide IsSearch, FinishedInOrder, Before, IsCut, OneForEachEdge, Explored, DistinctKeys;
      FinishedIsClosed();
      assert Timeline(finished, stack) == finished;
    }

    method Dfs(node: string)
      requires Valid() && node in servers && ColorOf(node) == White
      requires stack == [] || Edge(servers, stack[|stack| - 1], node)
      modifies this
      ensures Valid() && stack == old(stack) && Grows()
      ensures |finished| > |old(finished)| && finished[|finished| - 1] == node
      ensures node !in old(entered) && State() == Explore(servers, stack, node, old(State()))
      decreases servers.Keys - color.Keys, 1
    {
      hide ColorsValid, ReportValid, FoundValid;
      WhiteIsNew(node);
      Push(node);
      assert node in servers.Keys - old(color.Keys);
      VisitAll(node);
      ghost var finished0, color0 := finished, color;
      Pop(node);
      assert finished0 + [node] == finished && finished[|finished0|] == node;
      assert color.Keys == color0.Keys + {node};
    }

    /** The loop over the dependencies of the server on top of the stack. */
    method VisitAll(node: string)
      requires Valid() && stack != [] && stack[|stack| - 1] == node && node in servers
      modifies this
      ensures Valid() && stack == old(stack) && Grows()
      ensures Settled(servers, finished, found, node, servers[node])
      ensures State() == ExploreAll(servers, stack, servers[node], old(State()))
      decreases servers.Keys - color.Keys, 3
    {
      hide ColorsValid, ReportValid, FoundValid;
      var deps := servers[node];
      for i := 0 to |deps|
        invariant Valid() && stack == old(stack) && Grows()
        invariant Settled(servers, finished, found, node, deps[..i])
        invariant State() == ExploreAll(servers, stack, deps[..i], old(State()))
      {
        assert deps[..i + 1] == deps[..i] + [deps[i]];
        ExploreOneMore(servers, stack, deps, i, old(State()));
        if deps[i] in servers { // an undefined dependency is reported separately
          ghost var finished0, found0 := finished, found;
          Visit(node, deps[i]);
          StaysSettled(servers, finished0, found0, finished, found, node, deps[..i]);
        }
      }
      assert deps[..|deps|] == deps;
    }

    /** One defined dependency of the server on top of the stack. */
    method Visit(node: string, dep: string)
      requires Valid() && stack != [] && stack[|stack| - 1] == node && Edge(servers, node, dep)
      modifies this
      ensures Valid() && stack == old(stack) && Grows() && Settled(servers, finished, found, node, [dep])
      ensures State() == ExploreOne(servers, stack, dep, old(State()))
      decreases servers.Keys - color.Keys, 2
    {
      hide ColorsValid, ReportValid, FoundValid, Explore, CutFrom;
      WhiteIsNew(dep);
      match ColorOf(dep)
      case White => Dfs(dep);
      case Gray => ReportBackEdge(node, dep);
      case Black =>
    }

    /** The search only ever adds to what it has coloured, finished, found and reported. */
    twostate predicate Grows()
      reads this
    {
      && old(finished) <= finished && old(found) <= found && old(cycles) <= cycles
      && old(color.Keys) <= color.Keys
    }

    method Push(node: string)
      requires Valid() && node in servers && ColorOf(node) == White
      requires stack == [] || Edge(servers, stack[|stack| - 1], node)
      modifies `color, `stack, `entered
      ensures Valid() && stack == old(stack) + [node] && color == old(color)[node := Gray]
      ensures entered == old(entered) + [node]
    {
      hide FoundValid, ReportValid, Explored;
      PushKeepsFound(servers, finished, stack, found, node);
      color := color[node := Gray];
      stack := stack + [node];
      entered := entered + [node];
    }

    method Pop(node: string)
      requires Valid() && stack != [] && stack[|stack| - 1] == node
      requires node in servers && Settled(servers, finished, found, node, servers[node])
      modifies `color, `stack, `finished
      ensures Valid() && stack == old(stack[..|stack| - 1]) && color == old(color)[node := Black]
      ensures finished == old(finished) + [node]
    {
      hide Explored, Settled, ReportValid, FoundValid, IsPath, Distinct, Edge;
      FinishKeepsExplored(servers, finished, found, node);
      PopKeepsFound(servers, finished, stack, found);
      assert stack == stack[..|stack| - 1] + [node] && node in stack && node !in finished;
      PopKeepsPath(servers, finished, stack);
      stack := stack[..|stack| - 1];
      color := color[node := Black];
      finished := finished + [node];
    }

    /** A dependency on the stack closes a cycle, reported unless its key was seen. */
    method ReportBackEdge(node: string, dep: string)
      requires Valid() && stack != [] && stack[|stack| - 1] == node
      requires Edge(servers, node, dep) && ColorOf(dep) == Gray
      modifies `seen, `cycles, `found
      ensures Valid() && Covered(found, node, dep) && old(found) <= found && old(cycles) <= cycles
      ensures dep in stack && found == old(found) + [CutFrom(stack, dep)]
    {
      hide Explored, IsCycle, IsPath, Distinct, Edge, FoundValid, CutFrom, Reported, Join;
      var start := 0;
      for i := 0 to |stack|
        invariant start == 0 && dep in stack[i..]
      {
        if stack[i] == dep {
          start := i;
          break;
        }
        assert stack[i..] == [stack[i]] + stack[i + 1..];
      }
      assert stack[start] == dep;
      var cycle := stack[start..] + [dep];
      BackEdgeCloses(servers, stack, start, dep);
      assert cycle == CutOf(stack, start, |stack| - 1);
      CutIsAt(stack, start);
      TopIsNotFinished();
      BackEdgeKeepsFound(servers, finished, stack, found, start);
      StaysExplored(servers, finished, found, cycle);
      ReportGrows(found, seen, cycles, cycle);
      found := found + [cycle];
      assert cycle == found[|found| - 1];
      var key := Join(cycle);
      if key !in seen {
        seen := seen + {key};
        cycles := cycles + [cycle];
      }
    }

    lemma TopIsNotFinished()
      requires Valid() && stack != []
      ensures stack[|stack| - 1] !in finished
    {
      assert stack[|stack| - 1] in stack;
    }
  }

  /** Every server finished so far was finished in name order, with a root among the first `i` names. */
  ghost predicate RootsInOrder(g: Graph, finished: seq<string>) {
    forall n :: n in finished ==> FinishedInOrder(g, finished, n)
  }

  /** One more root, not later in name order than what was finished with it. */
  lemma NextRoot(g: Graph, before: seq<string>, finished: seq<string>)
    requires RootsInOrder(g, before) && before <= finished && |finished| > |before| && Closed(g, finished)
    requires forall n :: n in finished && n !in before ==> !Sorting.Less(n, finished[|finished| - 1])
    ensures RootsInOrder(g, finished)
  {
    hide Sorting.Less, Closed;
    assert finished[..|finished|] == finished;
    forall n | n in finished ensures FinishedInOrder(g, finished, n) {
      if n in before {
        var k :| 0 < k <= |before| && Closed(g, before[..k]) && n in before[..k] && !Sorting.Less(n, before[k - 1]);
        assert finished[..k] == before[..k];
      }
    }
  }

  lemma NoRootYet(g: Graph)
    ensures RootsInOrder(g, [])
  {
  }

  lemma NoNameYet(g: Graph)
    ensures forall names: seq<string> :: SearchNames(g, names[..0]) == Nothing
  {
  }

  lemma AllInOrder(g: Graph, finished: seq<string>)
    requires RootsInOrder(g, finished) && forall n :: n in g ==> n in finished
    ensures forall n :: n in g ==> FinishedInOrder(g, finished, n)
  {
    hide FinishedInOrder;
  }

  /** What is finished with the `i`-th name was not among the names before it. */
  lemma LaterNames(g: Graph, names: seq<string>, i: nat, before: seq<string>, finished: seq<string>)
    requires i < |names| && multiset(names) == multiset(g.Keys) && Sorting.SortedBy(names, Sorting.Less)
    requires finished != [] && finished[|finished| - 1] == names[i]
    requires forall j :: 0 <= j < i ==> names[j] in before
    requires forall n :: n in finished ==> n in g
    ensures forall n :: n in finished && n !in before ==> !Sorting.Less(n, names[i])
  {
    forall n | n in finished && n !in before ensures !Sorting.Less(n, names[i]) {
      assert n in multiset(g.Keys) && n in multiset(names);
      var j :| 0 <= j < |names| && names[j] == n;
      if j == i { Sorting.LessIsIrreflexive(n); }
    }
  }

  /** Servers are searched from in name order; each is finished exactly once. */
  method Search(servers: Graph)
    returns (cycles: seq<seq<string>>, ghost finished: seq<string>, ghost found: seq<seq<string>>)
    ensures SearchResult(servers, finished, found, cycles) && IsAnswer(servers, cycles)
    ensures DistinctKeys(cycles) && OneForEachEdge(cycles) && forall c :: c in cycles ==> IsCycle(servers, c)
  {
    hide CycleFinder.Valid, CycleFinder.ColorsValid, CycleFinder.ReportValid, FoundValid, SearchResult, FinishedInOrder;
    hide Sorting.Less, Sorting.SortedBy, RootsInOrder, Closed, Explore, SearchNames;
    var finder := new CycleFinder(servers);
    var names := Sorting.SortedNames(servers.Keys);
    NoRootYet(servers);
    NoNameYet(servers);
    for i := 0 to |names|
      invariant finder.Valid() && finder.servers == servers && finder.stack == []
      invariant forall j :: 0 <= j < i ==> names[j] in finder.color.Keys
      invariant RootsInOrder(servers, finder.finished)
      invariant finder.State() == SearchNames(servers, names[..i])
    {
      assert names[i] in multiset(names);
      SearchOneMore(servers, names, i);
      finder.WhiteIsNew(names[i]);
      if finder.ColorOf(names[i]) == White {
        ghost var before := finder.finished;
        finder.FinishedIsClosed();
        finder.Dfs(names[i]);
        finder.FinishedIsClosed();
        finder.WhiteIsNew(names[i]);
        LaterNames(servers, names, i, before, finder.finished);
        NextRoot(servers, before, finder.finished);
      }
    }
    forall n | n in servers ensures n in finder.color {
      assert n in multiset(names);
    }
    finder.FinishedIsClosed();
    AllInOrder(servers, finder.finished);
    assert names[..|names|] == names;
    assert IsSearch(servers, finder.finished, finder.found);
    finder.Ended();
    cycles, finished, found := finder.cycles, finder.finished, finder.found;
    ReportedCycles(servers, finished, found, cycles);
  }

  /**
   Every reported slice is a cycle, and no two of them have the same key or the
   same closing edge; nothing is reported exactly when the servers can be started
   in dependency order; and the closing edges of what is reported meet every closed
   walk exactly when no cycle found was dropped for another with the same key.
   */
  method FindDependencyCycles(servers: Graph) returns (cycles: seq<seq<string>>, ghost found: seq<seq<string>>)
    ensures forall c :: c in cycles ==> IsCycle(servers, c)
    ensures Distinct(cycles) && DistinctKeys(cycles) && OneForEachEdge(cycles)
    ensures cycles == [] <==> exists order :: IsStartOrder(servers, order)
    ensures cycles == [] <==> forall w :: !IsClosedWalk(servers, w)
    ensures IsFeedbackArcSet(servers, cycles) <==> KeysTellApart(found)
    ensures KeysTellApart(found) <==> forall c :: c in found ==> c in cycles
    ensures KeysIdentifyCycles(servers) || CommaFree(servers) ==> IsFeedbackArcSet(servers, cycles)
    ensures IsAnswer(servers, cycles)
  {
    hide *;
    ghost var finished;
    cycles, finished, found := Search(servers);
    NothingReportedMeansStartOrder(servers, finished, found, cycles);
    CommaFreeKeysIdentifyCycles(servers);
    ArcSetExactly(servers, finished, found, cycles);
    NothingDropped(servers, finished, found, cycles);
    ReportedCycles(servers, finished, found, cycles);
    DifferentKeysDiffer(cycles);
  }

  lemma ReportedCycles(g: Graph, finished: seq<string>, found: seq<seq<string>>, cycles: seq<seq<string>>)
    requires SearchResult(g, finished, found, cycles)
    ensures IsAnswer(g, cycles) && DistinctKeys(cycles) && OneForEachEdge(cycles)
    ensures forall c :: c in cycles ==> IsCycle(g, c)
    ensures KeysIdentifyCycles(g) ==> KeysTellApart(found)
  {
    hide Explored, IsSearch, FinishedInOrder, Descends, IsCycle, IsKeyOf, Join;
  }
}
