/**
 The order of the search for circular dependencies: roots by name, dependencies as
 listed. It is the only order a search may take, and so its answer is the only one.
 */
module DependencyOrder {
  import opened Seqs
  import opened Strings
  import opened Dependencies
  import opened DependencyCycles
  import Sorting

  /** All that `u` depends on is in `done`. */
  ghost predicate Exhausted(g: Graph, done: seq<string>, u: string) {
    forall v :: Edge(g, u, v) ==> v in done
  }

  /** `n` is the first dependency listed by `u` that is not in `done`. */
  ghost predicate FirstOpen(g: Graph, done: seq<string>, u: string, n: string) {
    u in g && n in g && n !in done &&
      exists i :: 0 <= i < |g[u]| && g[u][i] == n && forall v :: v in g[u][..i] && v in g ==> v in done
  }

  /** Of those entered, the last that still has an open dependency is at place `j`, and `n` is the first of them. */
  ghost predicate NextOf(g: Graph, done: seq<string>, j: nat, n: string) {
    j < |done| && FirstOpen(g, done, done[j], n) && forall k :: j < k < |done| ==> Exhausted(g, done, done[k])
  }

  /** Nothing entered has an open dependency, and `n` is the least name left. */
  ghost predicate NextRootIs(g: Graph, done: seq<string>, n: string) {
    && n in g && n !in done
    && (forall u :: u in done ==> Exhausted(g, done, u))
    && (forall m :: m in g && m !in done ==> !Sorting.Less(m, n))
  }

  /**
   Every server is entered as the first open dependency, in listed order, of the last
   server entered that has one; when there is none, as the least name left.
   */
  ghost predicate TakenInOrder(g: Graph, entered: seq<string>) {
    forall k :: 0 <= k < |entered| ==>
      var done := entered[..k]; NextRootIs(g, done, entered[k]) || exists j :: NextOf(g, done, j, entered[k])
  }

  /** A server finished before one that was entered later had all its dependencies entered by then. */
  ghost predicate LeftWhenExhausted(g: Graph, entered: seq<string>, finished: seq<string>) {
    forall u, v, w :: Edge(g, u, v) && Before(entered, u, w) && u in finished && !Before(finished, w, u) ==>
      Before(entered, v, w)
  }

  // ----- What the search keeps -----

  /** The path was entered in its own order; everything entered beside it is finished and exhausted. */
  ghost predicate Orderly(g: Graph, path: seq<string>, t: Trace) {
    && Distinct(t.entered) && (forall n :: n in t.entered ==> n in g) && (forall n :: n in path ==> n in t.entered)
    && (forall a, b :: 0 <= a < b < |path| ==> Before(t.entered, path[a], path[b]))
    && (forall n :: n in t.entered && n !in path ==> Exhausted(g, t.entered, n))
    && (forall n :: n in t.finished <==> n in t.entered && n !in path)
    && TakenInOrder(g, t.entered) && LeftWhenExhausted(g, t.entered, t.finished)
  }

  lemma BeforeInLonger(order: seq<string>, more: seq<string>, u: string, v: string)
    requires Before(order, u, v) && order <= more
    ensures Before(more, u, v)
  {
    var i, j :| 0 <= i < j < |order| && order[i] == u && order[j] == v;
    assert more[i] == u && more[j] == v;
  }

  lemma BeforeLast(order: seq<string>, u: string, n: string)
    requires u in order
    ensures Before(order + [n], u, n)
  {
    var i :| 0 <= i < |order| && order[i] == u;
    assert (order + [n])[i] == u && (order + [n])[|order|] == n;
  }

  /** Of the pairs in a longer order, those that end with the new element are new. */
  lemma BeforeInShorter(order: seq<string>, u: string, w: string, n: string)
    requires Before(order + [n], u, w) && n !in order
    ensures u in order && (w == n || Before(order, u, w))
  {
    var i, j :| 0 <= i < j < |order + [n]| && (order + [n])[i] == u && (order + [n])[j] == w;
    assert u == order[i];
    if j < |order| { assert order[j] == w; }
  }

  lemma StaysExhausted(g: Graph, done: seq<string>, more: seq<string>, u: string)
    requires Exhausted(g, done, u) && done <= more
    ensures Exhausted(g, more, u)
  {
    hide Edge;
  }

  lemma TakenNext(g: Graph, entered: seq<string>, n: string)
    requires TakenInOrder(g, entered) && (NextRootIs(g, entered, n) || exists j :: NextOf(g, entered, j, n))
    ensures TakenInOrder(g, entered + [n])
  {
    hide NextRootIs, NextOf;
    var more := entered + [n];
    forall k | 0 <= k < |more|
      ensures var done := more[..k]; NextRootIs(g, done, more[k]) || exists j :: NextOf(g, done, j, more[k])
    {
      if k < |entered| { assert more[..k] == entered[..k]; } else { assert more[..k] == entered; }
    }
  }

  /** Whatever was entered after the end of the path is exhausted. */
  lemma OpenAtTheEnd(g: Graph, path: seq<string>, t: Trace, n: string)
    requires Orderly(g, path, t) && path != [] && FirstOpen(g, t.entered, path[|path| - 1], n)
    ensures exists j :: NextOf(g, t.entered, j, n)
  {
    hide Exhausted, TakenInOrder, FirstOpen, LeftWhenExhausted, Edge;
    var u := path[|path| - 1];
    assert u in path;
    var j :| 0 <= j < |t.entered| && t.entered[j] == u;
    forall k | j < k < |t.entered| ensures Exhausted(g, t.entered, t.entered[k]) {
      NotOnPath(g, path, t, j, k);
    }
    assert NextOf(g, t.entered, j, n);
  }

  lemma NotOnPath(g: Graph, path: seq<string>, t: Trace, j: nat, k: nat)
    requires Orderly(g, path, t) && path != []
    requires j < k < |t.entered| && t.entered[j] == path[|path| - 1]
    ensures t.entered[k] !in path
  {
    hide Exhausted, TakenInOrder, LeftWhenExhausted, Edge;
    NotBothBefore(t.entered, j, k);
    forall a | 0 <= a < |path| ensures path[a] != t.entered[k] {
      if a < |path| - 1 {
        assert Before(t.entered, path[a], path[|path| - 1]);
      }
    }
  }

  lemma NotBothBefore(order: seq<string>, j: nat, k: nat)
    requires Distinct(order) && j < k < |order|
    ensures !Before(order, order[k], order[j])
  {
  }

  lemma LeftStaysOnEnter(g: Graph, entered: seq<string>, finished: seq<string>, n: string)
    requires LeftWhenExhausted(g, entered, finished) && n !in entered
    requires forall u :: u in finished ==> Exhausted(g, entered, u)
    ensures LeftWhenExhausted(g, entered + [n], finished)
  {
    hide Edge, Before;
    forall u, v, w | Edge(g, u, v) && Before(entered + [n], u, w) && u in finished && !Before(finished, w, u)
      ensures Before(entered + [n], v, w)
    {
      BeforeInShorter(entered, u, w, n);
      if w == n {
        BeforeLast(entered, v, n);
      } else {
        BeforeInLonger(entered, entered + [n], v, w);
      }
    }
  }

  lemma Entering(g: Graph, path: seq<string>, t: Trace, u: string)
    requires Orderly(g, path, t) && u in g && u !in t.entered
    requires NextRootIs(g, t.entered, u) || exists j :: NextOf(g, t.entered, j, u)
    ensures Orderly(g, path + [u], t.(entered := t.entered + [u]))
  {
    hide Exhausted, NextRootIs, NextOf, TakenInOrder, LeftWhenExhausted, Before;
    TakenNext(g, t.entered, u);
    LeftStaysOnEnter(g, t.entered, t.finished, u);
    var path', entered' := path + [u], t.entered + [u];
    forall a, b | 0 <= a < b < |path'| ensures Before(entered', path'[a], path'[b]) {
      if b < |path| {
        BeforeInLonger(t.entered, entered', path[a], path[b]);
      } else {
        BeforeLast(t.entered, path[a], u);
      }
    }
    forall n | n in entered' && n !in path' ensures Exhausted(g, entered', n) {
      StaysExhausted(g, t.entered, entered', n);
    }
  }

  lemma LeftStaysOnFinish(g: Graph, path: seq<string>, t: Trace, u: string)
    requires Orderly(g, path + [u], t)
    ensures LeftWhenExhausted(g, t.entered, t.finished + [u])
  {
    hide Edge, TakenInOrder, Exhausted;
    var path', finished' := path + [u], t.finished + [u];
    forall x, v, w | Edge(g, x, v) && Before(t.entered, x, w) && x in finished' && !Before(finished', w, x)
      ensures Before(t.entered, v, w)
    {
      if x == u {
        LaterIsFinished(g, path', t, w);
        BeforeLast(t.finished, w, u);
      } else if Before(t.finished, w, x) {
        BeforeInLonger(t.finished, finished', w, x);
      }
    }
  }

  /** What was entered after the end of the path is finished. */
  lemma LaterIsFinished(g: Graph, path: seq<string>, t: Trace, w: string)
    requires Orderly(g, path, t) && path != [] && Before(t.entered, path[|path| - 1], w)
    ensures w in t.finished
  {
    hide Edge, TakenInOrder, Exhausted, LeftWhenExhausted;
    var j, k :| 0 <= j < k < |t.entered| && t.entered[j] == path[|path| - 1] && t.entered[k] == w;
    NotBothBefore(t.entered, j, k);
  }

  lemma Finishing(g: Graph, path: seq<string>, t: Trace, u: string)
    requires Orderly(g, path + [u], t) && Exhausted(g, t.entered, u)
    ensures Orderly(g, path, t.(finished := t.finished + [u]))
  {
    LeftStaysOnFinish(g, path, t, u);
    hide Exhausted, TakenInOrder, LeftWhenExhausted, Edge;
    var path' := path + [u];
    assert u in path';
    forall a, b | 0 <= a < b < |path| ensures Before(t.entered, path[a], path[b]) {
      assert path'[a] == path[a] && path'[b] == path[b];
    }
    if u in path {
      var a :| 0 <= a < |path| && path[a] == u;
      assert path'[a] == u && path'[|path|] == u && Before(t.entered, u, u);
      BeforeIsTransitive(t.entered, u, u, u);
    }
  }

  // ----- The functions of the search keep it -----

  lemma {:induction false} ExploreKeeps(g: Graph, path: seq<string>, u: string, t: Trace)
    requires Orderly(g, path, t) && u in g && u !in t.entered
    requires NextRootIs(g, t.entered, u) || exists j :: NextOf(g, t.entered, j, u)
    ensures Orderly(g, path, Explore(g, path, u, t))
    decreases g.Keys - Names(t.entered), 0, 0
  {
    hide Orderly, ExploreAll, NextRootIs, NextOf;
    var t1 := t.(entered := t.entered + [u]);
    assert u in g.Keys - Names(t.entered);
    Entering(g, path, t, u);
    assert (path + [u])[|path|] == u;
    ExploreAllKeeps(g, path + [u], g[u], t1);
    Finishing(g, path, ExploreAll(g, path + [u], g[u], t1), u);
  }

  lemma {:induction false} ExploreAllKeeps(g: Graph, path: seq<string>, deps: seq<string>, t: Trace)
    requires Orderly(g, path, t) && path != [] && path[|path| - 1] in g && deps <= g[path[|path| - 1]]
    ensures Orderly(g, path, ExploreAll(g, path, deps, t))
    ensures forall v :: v in deps && v in g ==> v in ExploreAll(g, path, deps, t).entered
    decreases g.Keys - Names(t.entered), 2, |deps|
  {
    hide Orderly, ExploreOne, ExploreAll, Explore;
    AllUnfolds(g, path, deps, t);
    if deps != [] {
      var i, v, u := |deps| - 1, deps[|deps| - 1], path[|path| - 1];
      ExploreAllKeeps(g, path, deps[..i], t);
      var before := ExploreAll(g, path, deps[..i], t);
      assert Names(t.entered) <= Names(before.entered);
      assert g[u][..i] == deps[..i] && g[u][i] == v;
      ExploreOneKeeps(g, path, v, before);
      assert deps == deps[..i] + [v];
    }
  }

  lemma AllUnfolds(g: Graph, path: seq<string>, deps: seq<string>, t: Trace)
    ensures ExploreAll(g, path, deps, t) ==
      if deps == [] then t
      else ExploreOne(g, path, deps[|deps| - 1], ExploreAll(g, path, deps[..|deps| - 1], t))
  {
  }

  lemma {:induction false} ExploreOneKeeps(g: Graph, path: seq<string>, v: string, t: Trace)
    requires Orderly(g, path, t) && path != []
    requires v in g && v !in t.entered ==> FirstOpen(g, t.entered, path[|path| - 1], v)
    ensures Orderly(g, path, ExploreOne(g, path, v, t))
    ensures v in g ==> v in ExploreOne(g, path, v, t).entered
    decreases g.Keys - Names(t.entered), 1, 0
  {
    hide Orderly, Explore, CutFrom, FirstOpen;
    PathIsEntered(g, path, t);
    if v in g && v !in path && v !in t.entered {
      OpenAtTheEnd(g, path, t, v);
      ExploreKeeps(g, path, v, t);
      ExploreEnters(g, path, v, t);
    } else if v in g && v in path {
      FoundDoesNotMatter(g, path, t, t.found + [CutFrom(path, v)]);
    }
  }

  lemma ExploreEnters(g: Graph, path: seq<string>, u: string, t: Trace)
    requires u in g && u !in t.entered
    ensures var r := Explore(g, path, u, t); u in r.entered && forall n :: n in t.entered ==> n in r.entered
  {
    hide Explore;
    var r := Explore(g, path, u, t);
    assert r.entered[|t.entered|] == u;
    forall n | n in t.entered ensures n in r.entered {
      var i :| 0 <= i < |t.entered| && t.entered[i] == n;
      assert (t.entered + [u])[i] == n == r.entered[i];
    }
  }

  lemma PathIsEntered(g: Graph, path: seq<string>, t: Trace)
    requires Orderly(g, path, t)
    ensures forall n :: n in path ==> n in t.entered
  {
  }

  lemma FoundDoesNotMatter(g: Graph, path: seq<string>, t: Trace, found: seq<seq<string>>)
    requires Orderly(g, path, t)
    ensures Orderly(g, path, t.(found := found))
  {
  }

  /** Once every name before it was searched from, a name not entered is the least one left. */
  lemma {:induction false} SearchKeeps(g: Graph, names: seq<string>, i: nat)
    requires IsNameOrder(g, names) && i <= |names|
    ensures var t := SearchNames(g, names[..i]);
      Orderly(g, [], t) && forall j :: 0 <= j < i ==> names[j] in t.entered
  {
    hide Orderly, Explore, NextRootIs, IsNameOrder, SearchNames;
    if i == 0 {
      NothingIsOrderly(g);
      NoNameYet(g);
    } else {
      SearchKeeps(g, names, i - 1);
      SearchOneMore(g, names, i - 1);
      var t, root := SearchNames(g, names[..i - 1]), names[i - 1];
      NamesAreServers(g, names, i - 1);
      if root !in t.entered {
        LeastNameLeft(g, names, i - 1, t);
        ExploreKeeps(g, [], root, t);
        ExploreEnters(g, [], root, t);
      }
    }
  }

  lemma NothingIsOrderly(g: Graph)
    ensures Orderly(g, [], Nothing)
  {
  }

  lemma NamesAreServers(g: Graph, names: seq<string>, i: nat)
    requires IsNameOrder(g, names) && i < |names|
    ensures names[i] in g
  {
    assert names[i] in multiset(names);
  }

  lemma LeastNameLeft(g: Graph, names: seq<string>, i: nat, t: Trace)
    requires IsNameOrder(g, names) && i < |names| && Orderly(g, [], t) && names[i] !in t.entered
    requires forall j :: 0 <= j < i ==> names[j] in t.entered
    ensures NextRootIs(g, t.entered, names[i])
  {
    hide Exhausted, TakenInOrder, LeftWhenExhausted, Before, Sorting.Less;
    NamesAreServers(g, names, i);
    forall m | m in g && m !in t.entered ensures !Sorting.Less(m, names[i]) {
      assert m in multiset(g.Keys) && m in multiset(names);
      var j :| 0 <= j < |names| && names[j] == m;
      if j == i { Sorting.LessIsIrreflexive(m); }
    }
  }

  // ----- The results -----

  /** The order in which the servers of an answer were entered. */
  lemma SearchTakesInOrder(g: Graph, finished: seq<string>, found: seq<seq<string>>) returns (entered: seq<string>)
    requires IsSearch(g, finished, found)
    ensures Distinct(entered) && (forall n :: n in entered <==> n in g) && (forall n :: n in finished <==> n in g)
    ensures TakenInOrder(g, entered) && LeftWhenExhausted(g, entered, finished)
  {
    hide SearchNames, TakenInOrder, LeftWhenExhausted, Exhausted, IsNameOrder;
    var names :| IsNameOrder(g, names) && SearchNames(g, names).finished == finished &&
      SearchNames(g, names).found == found;
    SearchKeeps(g, names, |names|);
    assert names[..|names|] == names;
    entered := SearchNames(g, names).entered;
    forall n | n in g ensures n in entered { EveryServerIsNamed(g, names, n); }
  }

  lemma EveryServerIsNamed(g: Graph, names: seq<string>, n: string)
    requires IsNameOrder(g, names) && n in g
    ensures n in names
  {
    assert n in multiset(g.Keys) && n in multiset(names);
  }

  /** A graph has one search and one answer. */
  lemma AnswerIsDetermined(g: Graph, finished: seq<string>, found: seq<seq<string>>, cycles: seq<seq<string>>,
                           finished': seq<string>, found': seq<seq<string>>, cycles': seq<seq<string>>)
    requires SearchResult(g, finished, found, cycles) && SearchResult(g, finished', found', cycles')
    ensures finished == finished' && found == found' && cycles == cycles'
  {
    hide Explored, FinishedInOrder, IsCycle, Descends, OneForEachEdge, DistinctKeys, IsKeyOf, Firsts, SearchNames;
    var names :| IsNameOrder(g, names) && SearchNames(g, names).finished == finished &&
      SearchNames(g, names).found == found;
    var names' :| IsNameOrder(g, names') && SearchNames(g, names').finished == finished' &&
      SearchNames(g, names').found == found';
    Sorting.SortedNamesAreUnique(names, names', g.Keys);
  }

  /** Reported is what has a key that no cycle found earlier has. */
  lemma {:induction false} ReportedOnFirstSight(found: seq<seq<string>>, c: seq<string>)
    ensures Firsts(found + [c]) ==
      if exists d :: d in found && Join(d) == Join(c) then Firsts(found) else Firsts(found) + [c]
  {
    hide Join, Firsts;
    FirstsGrow(found, c);
    FirstsHaveTheKeys(found, Join(c));
  }

  lemma {:induction false} FirstsHaveTheKeys(found: seq<seq<string>>, key: string)
    ensures IsKeyOf(Firsts(found), key) <==> exists d :: d in found && Join(d) == key
  {
    hide Join, Firsts;
    if found == [] {
      NothingReported();
    } else {
      var before, c := found[..|found| - 1], found[|found| - 1];
      FirstsHaveTheKeys(before, key);
      FirstsHaveTheKeys(before, Join(c));
      assert found == before + [c];
      FirstsGrow(before, c);
      assert c in Firsts(before) + [c] && forall d :: d in Firsts(before) ==> d in Firsts(before) + [c];
    }
  }

  lemma NothingReported()
    ensures Firsts([]) == []
  {
  }

  // ----- Two graphs and their answers -----

  lemma AllOfTwo(g: Graph, path: seq<string>, v: string, w: string, t: Trace)
    ensures ExploreAll(g, path, [v, w], t) == ExploreOne(g, path, w, ExploreOne(g, path, v, t))
    ensures ExploreAll(g, path, [v], t) == ExploreOne(g, path, v, t)
  {
    AllUnfolds(g, path, [v, w], t);
    assert [v, w][..1] == [v] && [v][..0] == [];
    AllUnfolds(g, path, [v], t);
    AllUnfolds(g, path, [], t);
  }

  const ListedGraph: Graph := map["a" := ["b", "c"], "b" := ["c"], "c" := ["a"]]

  lemma AbcInOrder(g: Graph, names: seq<string>)
    requires g.Keys == {"a", "b", "c"} && IsNameOrder(g, names)
    ensures names == ["a", "b", "c"]
  {
    var abc := ["a", "b", "c"];
    assert multiset(abc) == multiset(g.Keys);
    assert Sorting.SortedBy(abc, Sorting.Less);
    Sorting.SortedNamesAreUnique(names, abc, g.Keys);
  }

  lemma SearchFromFirst(g: Graph, t: Trace)
    requires g.Keys == {"a", "b", "c"} && t == Explore(g, [], "a", Nothing) && "b" in t.entered && "c" in t.entered
    ensures SearchNames(g, ["a", "b", "c"]) == t
  {
    hide Explore;
    var names := ["a", "b", "c"];
    assert names[..1] == ["a"] && names[..2] == ["a", "b"] && names[..3] == names && names[..0] == [];
    NoNameYet(g);
    SearchOneMore(g, names, 0);
    SearchOneMore(g, names, 1);
    SearchOneMore(g, names, 2);
  }

  /** The answer for three servers that are all entered from the first. */
  lemma AnswerFromFirst(g: Graph, cycles: seq<seq<string>>)
    requires IsAnswer(g, cycles) && g.Keys == {"a", "b", "c"}
    requires var t := Explore(g, [], "a", Nothing); "b" in t.entered && "c" in t.entered
    ensures cycles == Firsts(Explore(g, [], "a", Nothing).found)
  {
    hide SearchResult, Explore, SearchNames, IsNameOrder, Firsts;
    var finished, found :| SearchResult(g, finished, found, cycles);
    ResultIsSearch(g, finished, found, cycles);
    var names :| IsNameOrder(g, names) && SearchNames(g, names).finished == finished &&
      SearchNames(g, names).found == found;
    AbcInOrder(g, names);
    SearchFromFirst(g, Explore(g, [], "a", Nothing));
  }

  lemma ResultIsSearch(g: Graph, finished: seq<string>, found: seq<seq<string>>, cycles: seq<seq<string>>)
    requires SearchResult(g, finished, found, cycles)
    ensures IsSearch(g, finished, found) && cycles == Firsts(found)
  {
  }

  lemma Unfold(g: Graph, path: seq<string>, u: string, t: Trace, t2: Trace)
    requires u in g && u !in t.entered && t2 == ExploreAll(g, path + [u], g[u], t.(entered := t.entered + [u]))
    ensures Explore(g, path, u, t) == t2.(finished := t2.finished + [u])
  {
  }

  lemma BackEdge(g: Graph, path: seq<string>, start: nat, t: Trace)
    requires Distinct(path) && start < |path| && path[start] in g
    ensures ExploreOne(g, path, path[start], t) == t.(found := t.found + [path[start..] + [path[start]]])
  {
    hide Explore, CutFrom;
    CutIsAt(path, start);
  }

  lemma AlreadyDone(g: Graph, path: seq<string>, v: string, t: Trace)
    requires v in t.entered && v !in path
    ensures ExploreOne(g, path, v, t) == t
  {
    hide Explore, CutFrom;
  }

  lemma StillWhite(g: Graph, path: seq<string>, v: string, t: Trace)
    requires v in g && v !in t.entered && v !in path
    ensures ExploreOne(g, path, v, t) == Explore(g, path, v, t)
  {
    hide Explore, CutFrom;
  }

  lemma FirstsOfDistinct(found: seq<seq<string>>, c: seq<string>)
    requires Firsts(found) == found && c !in found && c != []
    requires forall d, n :: d in found + [c] && n in d ==> ',' !in n
    requires forall d :: d in found ==> d != []
    ensures Firsts(found + [c]) == found + [c]
  {
    hide Join, Firsts;
    FirstsGrow(found, c);
    assert c in found + [c];
    forall d | d in found ensures Join(d) != Join(c) {
      assert d in found + [c];
      if Join(d) == Join(c) { JoinIsInjective(d, c); }
    }
  }

  /** Where "a" depends on "b" and then "c", the way to "c" is by "b". */
  lemma ListedOrderCounts(cycles: seq<seq<string>>)
    requires IsAnswer(ListedGraph, cycles)
    ensures cycles == [["a", "b", "c", "a"]]
  {
    hide Explore, IsAnswer, Firsts;
    ListedTrace();
    AnswerFromFirst(ListedGraph, cycles);
    NothingReported();
    FirstsOfDistinct([], ["a", "b", "c", "a"]);
    assert [] + [["a", "b", "c", "a"]] == [["a", "b", "c", "a"]];
  }

  /** Among three servers that all depend on each other, three cycles are reported, in this order. */
  lemma CompleteGraphAnswer(cycles: seq<seq<string>>)
    requires IsAnswer(CompleteGraph, cycles)
    ensures cycles == [["a", "b", "a"], ["a", "b", "c", "a"], ["b", "c", "b"]]
  {
    hide Explore, IsAnswer, Firsts;
    var x, y, z := ["a", "b", "a"], ["a", "b", "c", "a"], ["b", "c", "b"];
    CompleteTrace();
    AnswerFromFirst(CompleteGraph, cycles);
    NothingReported();
    FirstsOfDistinct([], x);
    assert [] + [x] == [x];
    FirstsOfDistinct([x], y);
    assert [x] + [y] == [x, y];
    assert z[0] != x[0];
    FirstsOfDistinct([x, y], z);
    assert [x, y] + [z] == [x, y, z];
  }

  lemma ListedTrace()
    ensures var t := Explore(ListedGraph, [], "a", Nothing);
      t.entered == ["a", "b", "c"] && t.found == [["a", "b", "c", "a"]]
  {
    hide Explore, ExploreAll, ExploreOne, CutFrom;
    var g := ListedGraph;
    var ta, tb, tc := Trace(["a"], [], []), Trace(["a", "b"], [], []), Trace(["a", "b", "c"], [], []);
    var abc := ["a", "b", "c"];
    // from "c", along "a" and "b"
    AllOfTwo(g, abc, "a", "a", tc);
    BackEdge(g, abc, 0, tc);
    assert abc[0..] + [abc[0]] == ["a", "b", "c", "a"] && [] + [["a", "b", "c", "a"]] == [["a", "b", "c", "a"]];
    var tc' := tc.(found := [["a", "b", "c", "a"]]);
    assert ["a", "b"] + ["c"] == abc;
    Unfold(g, ["a", "b"], "c", tb, tc');
    // from "b", along "a"
    AllOfTwo(g, ["a", "b"], "c", "c", tb);
    StillWhite(g, ["a", "b"], "c", tb);
    assert ["a"] + ["b"] == ["a", "b"];
    Unfold(g, ["a"], "b", ta, tc'.(finished := tc'.finished + ["c"]));
    var tb' := tc'.(finished := tc'.finished + ["c"] + ["b"]);
    // from "a"
    AllOfTwo(g, ["a"], "b", "c", ta);
    StillWhite(g, ["a"], "b", ta);
    AlreadyDone(g, ["a"], "c", tb');
    assert [] + ["a"] == ["a"];
    Unfold(g, [], "a", Nothing, tb');
  }

  /** From "c", along "a" and "b". */
  lemma CompleteTraceFromLast(x: seq<string>)
    ensures Explore(CompleteGraph, ["a", "b"], "c", Trace(["a", "b"], [], [x])) ==
      Trace(["a", "b", "c"], ["c"], [x, ["a", "b", "c", "a"], ["b", "c", "b"]])
  {
    hide Explore, ExploreAll, ExploreOne, CutFrom;
    var g := CompleteGraph;
    var y, z := ["a", "b", "c", "a"], ["b", "c", "b"];
    var abc, tc := ["a", "b", "c"], Trace(["a", "b", "c"], [], [x]);
    AllOfTwo(g, abc, "a", "b", tc);
    BackEdge(g, abc, 0, tc);
    BackEdge(g, abc, 1, tc.(found := [x, y]));
    assert abc[0..] + [abc[0]] == y && abc[1..] + [abc[1]] == z && [x] + [y] == [x, y] && [x, y] + [z] == [x, y, z];
    assert ["a", "b"] + ["c"] == abc && [] + ["c"] == ["c"];
    Unfold(g, ["a", "b"], "c", Trace(["a", "b"], [], [x]), tc.(found := [x, y, z]));
  }

  lemma CompleteTrace()
    ensures var t := Explore(CompleteGraph, [], "a", Nothing);
      t.entered == ["a", "b", "c"] && t.found == [["a", "b", "a"], ["a", "b", "c", "a"], ["b", "c", "b"]]
  {
    hide Explore, ExploreAll, ExploreOne, CutFrom;
    var g := CompleteGraph;
    var x, ab := ["a", "b", "a"], ["a", "b"];
    var ta, tb := Trace(["a"], [], []), Trace(["a", "b"], [], []);
    var tc := Trace(["a", "b", "c"], ["c"], [x, ["a", "b", "c", "a"], ["b", "c", "b"]]);
    CompleteTraceFromLast(x);
    // from "b", along "a"
    AllOfTwo(g, ab, "a", "c", tb);
    BackEdge(g, ab, 0, tb);
    assert ab[0..] + [ab[0]] == x && [] + [x] == [x];
    StillWhite(g, ab, "c", tb.(found := [x]));
    assert ["a"] + ["b"] == ab;
    Unfold(g, ["a"], "b", ta, tc);
    var tb' := tc.(finished := tc.finished + ["b"]);
    // from "a"
    AllOfTwo(g, ["a"], "b", "c", ta);
    StillWhite(g, ["a"], "b", ta);
    AlreadyDone(g, ["a"], "c", tb');
    assert [] + ["a"] == ["a"];
    Unfold(g, [], "a", Nothing, tb');
  }
}
