/** The context manager's window: a token budget filled from a changing set of items (internal/context/manager.go). */
module ContextWindow {
  import opened Wrappers
  import opened Seqs
  import opened Sorting
  import opened GreedySelection

  datatype Window = Window(items: seq<Item>, totalTokens: int, maxTokens: int, truncated: bool, strategy: string)

  datatype Strategy = Oldest | LRU | ByType | ByPriority | Intelligent

  /** Configuration, and the pure calculations on content: estimates, identifiers and scores. */
  datatype Config = Config(
    strategy: Strategy, typePriorities: map<string, real>, retention: Time,
    estimate: string -> int, identify: (string, string, string) -> string, hash: string -> string,
    basePriority: (string, string, string) -> real, score: (Item, Time) -> real)

  type Items = map<string, Item>

  // ----- Truncation by type -----

  /** The items of a group up to the first that does not fit. */
  function FitPrefix(group: seq<Item>, maxTokens: int, used: int): seq<Item> {
    if group == [] || used + group[0].tokenCount > maxTokens then []
    else [group[0]] + FitPrefix(group[1..], maxTokens, used + group[0].tokenCount)
  }

  /** Groups in turn, until the budget is met; empty groups are passed over. */
  function TakeGroups(groups: seq<seq<Item>>, maxTokens: int, used: int): seq<Item> {
    if groups == [] then []
    else if groups[0] == [] then TakeGroups(groups[1..], maxTokens, used)
    else
      var taken := FitPrefix(groups[0], maxTokens, used);
      var next := used + Tokens(taken);
      if next >= maxTokens then taken else taken + TakeGroups(groups[1..], maxTokens, next)
  }

  lemma {:induction false} FitPrefixFits(group: seq<Item>, maxTokens: int, used: int)
    ensures FitPrefix(group, maxTokens, used) <= group
    ensures used + Tokens(FitPrefix(group, maxTokens, used)) <= (if used > maxTokens then used else maxTokens)
  {
    if group != [] && used + group[0].tokenCount <= maxTokens {
      var rest := FitPrefix(group[1..], maxTokens, used + group[0].tokenCount);
      FitPrefixFits(group[1..], maxTokens, used + group[0].tokenCount);
      TokensAppend([group[0]], rest);
      assert group == [group[0]] + group[1..];
    }
  }

  /** Groups without repetition that share no item. */
  ghost predicate Disjoint(groups: seq<seq<Item>>) {
    && (forall i :: 0 <= i < |groups| ==> Distinct(groups[i]))
    && forall i, j, x :: 0 <= i < j < |groups| && x in groups[i] ==> x !in groups[j]
  }

  lemma {:induction false} TakeGroupsFits(groups: seq<seq<Item>>, maxTokens: int, used: int)
    ensures used + Tokens(TakeGroups(groups, maxTokens, used)) <= (if used > maxTokens then used else maxTokens)
  {
    if groups != [] {
      var taken := FitPrefix(groups[0], maxTokens, used);
      FitPrefixFits(groups[0], maxTokens, used);
      TakeGroupsFits(groups[1..], maxTokens, used);
      TakeGroupsFits(groups[1..], maxTokens, used + Tokens(taken));
      TokensAppend(taken, TakeGroups(groups[1..], maxTokens, used + Tokens(taken)));
    }
  }

  lemma {:induction false} TakeGroupsMembers(groups: seq<seq<Item>>, maxTokens: int, used: int)
    requires Disjoint(groups)
    ensures var taken := TakeGroups(groups, maxTokens, used);
      Distinct(taken) && forall x :: x in taken ==> exists i :: 0 <= i < |groups| && x in groups[i]
  {
    hide Tokens, FitPrefix;
    if groups != [] {
      var first, rest := groups[0], groups[1..];
      assert Disjoint(rest) by {
        assert forall i :: 0 <= i < |rest| ==> rest[i] == groups[i + 1];
      }
      FitPrefixFits(first, maxTokens, used);
      var taken := FitPrefix(first, maxTokens, used);
      var next := used + Tokens(taken);
      TakeGroupsMembers(rest, maxTokens, used);
      TakeGroupsMembers(rest, maxTokens, next);
      PrefixThenOthers(taken, TakeGroups(rest, maxTokens, next), groups);
      forall x | x in TakeGroups(rest, maxTokens, used) ensures exists i :: 0 <= i < |groups| && x in groups[i] {
        var i :| 0 <= i < |rest| && x in rest[i];
        assert x in groups[i + 1];
      }
    }
  }

  lemma PrefixThenOthers(taken: seq<Item>, more: seq<Item>, groups: seq<seq<Item>>)
    requires groups != [] && Disjoint(groups) && taken <= groups[0] && Distinct(more)
    requires forall x :: x in more ==> exists i :: 0 <= i < |groups[1..]| && x in groups[1..][i]
    ensures Distinct(taken) && Distinct(taken + more)
    ensures forall x :: x in taken + more ==> exists i :: 0 <= i < |groups| && x in groups[i]
  {
    assert Distinct(groups[0]);
    forall x | x in more ensures x !in groups[0] && exists i :: 0 <= i < |groups| && x in groups[i] {
      var i :| 0 <= i < |groups[1..]| && x in groups[1..][i];
      assert x in groups[i + 1];
    }
    assert forall x :: x in taken ==> x in groups[0];
    var all := taken + more;
    forall i, j | 0 <= i < j < |all| ensures all[i] != all[j] {
      if i < |taken| && j >= |taken| {
        assert all[i] in taken && all[j] in more;
      }
    }
  }

  // ----- Comparators -----

  predicate Newer(x: Item, y: Item) { x.timestamp > y.timestamp }

  predicate UsedLater(x: Item, y: Item) { x.lastAccess > y.lastAccess }

  predicate Higher(x: Item, y: Item) { x.priority > y.priority }

  predicate HigherOrLater(x: Item, y: Item) {
    if x.priority != y.priority then x.priority > y.priority else x.lastAccess > y.lastAccess
  }

  function Comparator(strategy: Strategy): (Item, Item) -> bool {
    match strategy
    case Oldest => Newer
    case LRU => UsedLater
    case ByType => HigherOrLater
    case ByPriority => HigherOrLater
    case Intelligent => Higher
  }

  function StrategyName(strategy: Strategy): string {
    match strategy
    case Oldest => "oldest"
    case LRU => "lru"
    case ByType => "by_type"
    case ByPriority => "by_priority"
    case Intelligent => "intelligent"
  }

  // ----- The window -----

  ghost predicate StoredUnderID(items: Items) {
    forall k :: k in items ==> items[k].id == k
  }

  /** Every stored item once, in some order. */
  ghost predicate Lists(all: seq<Item>, items: Items) {
    Distinct(all) && forall x :: x in all <==> x.id in items && items[x.id] == x
  }

  /** Copies of stored items, none twice, within the budget. */
  ghost predicate IsPartOf(selected: seq<Item>, items: Items, maxTokens: int) {
    && Distinct(selected) && (forall x :: x in selected ==> x.id in items && items[x.id] == x)
    && Tokens(selected) <= Budget(maxTokens)
  }

  /** The greedy choice from all items in an order that the comparator allows. */
  ghost predicate IsGreedyChoice(selected: seq<Item>, items: Items, less: (Item, Item) -> bool, maxTokens: int) {
    exists order ::
      Lists(order, items) && SortedBy(order, less) && selected == Picked(order, Keeps(order, maxTokens, 0))
  }

  ghost predicate FreshWindow(w: Window, items: Items, cfg: Config) {
    && IsPartOf(w.items, items, w.maxTokens) && w.totalTokens == Tokens(w.items)
    && (w.truncated <==> exists k :: k in items && items[k] !in w.items)
    && w.strategy == StrategyName(cfg.strategy)
    && (if cfg.strategy.ByType? then IsChoiceByType(w.items, items, cfg, w.maxTokens)
        else IsGreedyChoice(w.items, items, Comparator(cfg.strategy), w.maxTokens))
  }

  /** What holds of the window at all times. */
  ghost predicate WindowInvariant(w: Window) {
    && w.totalTokens == Tokens(w.items) && w.totalTokens <= Budget(w.maxTokens)
    && forall i, j :: 0 <= i < j < |w.items| ==> w.items[i].id != w.items[j].id
  }

  ghost predicate IsGroup(group: seq<Item>, items: Items, kind: string) {
    && Distinct(group) && SortedBy(group, HigherOrLater)
    && forall x :: x in group <==> x.id in items && items[x.id] == x && x.kind == kind
  }

  predicate MoreImportant(cfg: Config, s: string, t: string) {
    s in cfg.typePriorities && t in cfg.typePriorities && cfg.typePriorities[s] > cfg.typePriorities[t]
  }

  /** One sorted group for each type that has a priority, from the highest type down. */
  ghost predicate AreGroups(groups: seq<seq<Item>>, types: seq<string>, items: Items, cfg: Config) {
    && Distinct(types) && (forall t :: t in types <==> t in cfg.typePriorities)
    && (forall i, j :: 0 <= i < j < |types| ==> !MoreImportant(cfg, types[j], types[i]))
    && |groups| == |types| && forall i :: 0 <= i < |groups| ==> IsGroup(groups[i], items, types[i])
  }

  ghost predicate IsChoiceByType(selected: seq<Item>, items: Items, cfg: Config, maxTokens: int) {
    exists groups, types :: AreGroups(groups, types, items, cfg) && selected == TakeGroups(groups, maxTokens, 0)
  }

  lemma ChoiceByTypeIsPart(groups: seq<seq<Item>>, types: seq<string>, items: Items, cfg: Config, maxTokens: int)
    requires AreGroups(groups, types, items, cfg)
    ensures IsPartOf(TakeGroups(groups, maxTokens, 0), items, maxTokens)
  {
    assert Disjoint(groups);
    TakeGroupsFits(groups, maxTokens, 0);
    TakeGroupsMembers(groups, maxTokens, 0);
  }

  method TypesByPriority(cfg: Config) returns (types: seq<string>)
    ensures Distinct(types) && forall t :: t in types <==> t in cfg.typePriorities
    ensures forall i, j :: 0 <= i < j < |types| ==> !MoreImportant(cfg, types[j], types[i])
  {
    types := [];
    var rest := cfg.typePriorities.Keys;
    while rest != {}
      invariant rest <= cfg.typePriorities.Keys && Distinct(types)
      invariant forall t :: t in types <==> t in cfg.typePriorities && t !in rest
    {
      var t :| t in rest;
      types, rest := types + [t], rest - {t};
    }
    var keys := types;
    var score := (t: string) => if t in cfg.typePriorities then cfg.typePriorities[t] else 0.0;
    types := Sort(keys, (s: string, t: string) => score(s) > score(t));
    PermutationStaysDistinct(keys, types);
  }

  lemma FreshWindowIsInvariant(w: Window, items: Items, cfg: Config)
    requires FreshWindow(w, items, cfg)
    ensures WindowInvariant(w)
  {
    forall i, j | 0 <= i < j < |w.items| ensures w.items[i].id != w.items[j].id {
      assert w.items[i] in w.items && w.items[j] in w.items;
    }
  }

  /** Shorter than the list of all items means that one of them is missing, and conversely. */
  lemma ShorterMeansTruncated(selected: seq<Item>, all: seq<Item>, items: Items)
    requires Lists(all, items) && StoredUnderID(items)
    requires Distinct(selected) && forall x :: x in selected ==> x.id in items && items[x.id] == x
    ensures |selected| < |all| <==> exists k :: k in items && items[k] !in selected
    ensures |selected| <= |all|
  {
    var s, a := set x | x in selected, set x | x in all;
    DistinctLength(selected, s);
    DistinctLength(all, a);
    assert s <= a;
    if k :| k in items && items[k] !in selected {
      assert items[k] in a - s;
      assert |a - s| == |a| - |s| && |a - s| > 0;
    } else {
      forall x | x in a ensures x in s { assert items[x.id] in selected; }
      assert a == s;
    }
  }

  function Rescored(items: Items, cfg: Config, now: Time): Items {
    if cfg.strategy.Intelligent? then map k | k in items :: items[k].(priority := cfg.score(items[k], now)) else items
  }

  function Added(items: Items, cfg: Config, kind: string, filePath: string, content: string, now: Time): Items {
    var id := cfg.identify(kind, filePath, content);
    var priority := cfg.basePriority(kind, filePath, content);
    if id in items then
      items[id := items[id].(content := content, tokenCount := cfg.estimate(content), lastAccess := now,
                             accessCount := items[id].accessCount + 1, priority := priority, hash := cfg.hash(content))]
    else
      items[id := Item(id, kind, filePath, content, cfg.estimate(content), now, 1, now, priority, cfg.hash(content))]
  }

  // ----- Operations -----

  datatype Manager = Manager(items: Items, window: Window, maxTokens: int)

  datatype Op =
    | Add(kind: string, filePath: string, content: string)
    | Get(id: string)
    | Remove(id: string)
    | RemoveByFile(filePath: string)
    | Expire
    | SetLimit(limit: int)

  function Touched(item: Item, now: Time): Item {
    item.(lastAccess := now, accessCount := item.accessCount + 1)
  }

  /** The stored items after an operation, before a rebuild gives them new scores. */
  function ItemsAfter(items: Items, cfg: Config, op: Op, now: Time): Items {
    match op
    case Add(kind, filePath, content) => Added(items, cfg, kind, filePath, content, now)
    case Get(id) => if id in items then items[id := Touched(items[id], now)] else items
    case Remove(id) => items - {id}
    case RemoveByFile(filePath) => map k | k in items && items[k].filePath != filePath :: items[k]
    case Expire =>
      var cutoff := now - cfg.retention;
      map k | k in items && (items[k].timestamp >= cutoff || items[k].lastAccess >= cutoff) :: items[k]
    case SetLimit(_) => items
  }

  /** Reading an item leaves the window alone, and so does a limit that the window already meets. */
  predicate Rebuilds(s: Manager, op: Op) {
    !op.Get? && (op.SetLimit? ==> s.window.totalTokens > op.limit)
  }

  /** `s'` is a state in which `op` may leave the manager. */
  ghost predicate Steps(cfg: Config, s: Manager, op: Op, now: Time, s': Manager) {
    && s'.maxTokens == (if op.SetLimit? then op.limit else s.maxTokens)
    && if Rebuilds(s, op) then
         && s'.items == Rescored(ItemsAfter(s.items, cfg, op, now), cfg, now)
         && FreshWindow(s'.window, s'.items, cfg) && s'.window.maxTokens == s'.maxTokens
       else s'.items == ItemsAfter(s.items, cfg, op, now) && s'.window == s.window.(maxTokens := s'.maxTokens)
  }

  /** What every operation keeps. */
  ghost predicate Sound(s: Manager) {
    StoredUnderID(s.items) && WindowInvariant(s.window) && s.window.maxTokens == s.maxTokens
  }

  lemma StepKeepsSound(cfg: Config, s: Manager, op: Op, now: Time, s': Manager)
    requires Sound(s) && Steps(cfg, s, op, now, s')
    ensures Sound(s')
  {
    hide IsGreedyChoice, IsChoiceByType, Tokens;
    if Rebuilds(s, op) {
      FreshWindowIsInvariant(s'.window, s'.items, cfg);
    }
  }

  datatype Call = Call(op: Op, now: Time)

  /** `states` are the states between the operations of a run. */
  ghost predicate IsRun(cfg: Config, states: seq<Manager>, calls: seq<Call>) {
    |states| == |calls| + 1
    && forall i :: 0 <= i < |calls| ==> Steps(cfg, states[i], calls[i].op, calls[i].now, states[i + 1])
  }

  /**
   At every point of every run the window's total is the sum over its items and
   within a non-negative limit, and after an operation that rebuilds the window it
   is a fresh choice from the stored items.
   */
  lemma {:induction false} RunKeepsWindow(cfg: Config, states: seq<Manager>, calls: seq<Call>, n: nat)
    requires IsRun(cfg, states, calls) && Sound(states[0]) && n <= |calls|
    ensures Sound(states[n])
    ensures states[n].maxTokens >= 0 ==>
      Tokens(states[n].window.items) == states[n].window.totalTokens <= states[n].maxTokens
    ensures n > 0 ==>
      var op := calls[n - 1].op;
      op.Get? || (op.SetLimit? && states[n - 1].window.totalTokens <= op.limit) ||
        FreshWindow(states[n].window, states[n].items, cfg)
  {
    hide FreshWindow, Tokens;
    if n > 0 {
      RunKeepsWindow(cfg, states, calls, n - 1);
      assert states[n - 1 + 1] == states[n];
      StepKeepsSound(cfg, states[n - 1], calls[n - 1].op, calls[n - 1].now, states[n]);
    }
  }

  class ContextManager {
    const cfg: Config
    var maxTokens: int
    var items: Items
    var window: Window

    constructor (cfg: Config, maxTokens: int)
      ensures Valid() && this.cfg == cfg
      ensures var limit := if maxTokens == 0 then 32768 else maxTokens;
        State() == Manager(map[], Window([], 0, limit, false, ""), limit)
    {
      this.cfg := cfg;
      var limit := if maxTokens == 0 then 32768 else maxTokens;
      this.maxTokens, items, window := limit, map[], Window([], 0, limit, false, "");
    }

    function State(): Manager
      reads this
    {
      Manager(items, window, maxTokens)
    }

    ghost predicate Valid()
      reads this
    {
      Sound(State())
    }

    method CollectItems() returns (all: seq<Item>)
      requires StoredUnderID(items)
      ensures Lists(all, items)
    {
      all := [];
      var rest := items.Keys;
      while rest != {}
        invariant rest <= items.Keys && Distinct(all)
        invariant forall x :: x in all <==> x.id in items && items[x.id] == x && x.id !in rest
      {
        var k :| k in rest;
        all, rest := all + [items[k]], rest - {k};
      }
    }

    /** sort.Slice, then the greedy scan. */
    method SortAndSelect(all: seq<Item>, less: (Item, Item) -> bool) returns (selected: seq<Item>)
      requires StrictWeakOrder(less) && Lists(all, items)
      ensures IsGreedyChoice(selected, items, less, maxTokens) && IsPartOf(selected, items, maxTokens)
    {
      var order := Sort(all, less);
      PermutationStaysDistinct(all, order);
      selected := SelectItemsWithinTokenLimit(order, maxTokens);
      PickedMembers(order, Keeps(order, maxTokens, 0));
      assert Lists(order, items) && SortedBy(order, less);
    }

    method GroupOf(all: seq<Item>, kind: string) returns (group: seq<Item>)
      requires Lists(all, items)
      ensures IsGroup(group, items, kind)
    {
      var found := [];
      for i := 0 to |all|
        invariant Distinct(found) && forall x :: x in found <==> x in all[..i] && x.kind == kind
      {
        assert all[..i + 1] == all[..i] + [all[i]] && all[i] !in all[..i];
        if all[i].kind == kind {
          found := found + [all[i]];
        }
      }
      assert all[..|all|] == all;
      group := Sort(found, HigherOrLater);
      PermutationStaysDistinct(found, group);
    }

    method TakePrefix(group: seq<Item>, used: int) returns (taken: seq<Item>)
      ensures taken == FitPrefix(group, maxTokens, used)
    {
      taken := [];
      var k, tokens := 0, used;
      while k < |group| && tokens + group[k].tokenCount <= maxTokens
        invariant 0 <= k <= |group|
        invariant taken + FitPrefix(group[k..], maxTokens, tokens) == FitPrefix(group, maxTokens, used)
      {
        assert group[k..][1..] == group[k + 1..];
        taken := taken + [group[k]];
        tokens := tokens + group[k].tokenCount;
        k := k + 1;
      }
    }

    static lemma NoMoreGroups(maxTokens: int, used: int)
      ensures TakeGroups([], maxTokens, used) == []
    {
    }

    /** One round of the loop below, after `selected`. */
    static lemma OneMoreGroup(selected: seq<Item>, groups: seq<seq<Item>>, i: nat, maxTokens: int, tokens: int)
      requires i < |groups|
      ensures groups[i] == [] ==>
        TakeGroups(groups[i..], maxTokens, tokens) == TakeGroups(groups[i + 1..], maxTokens, tokens)
      ensures groups[i] != [] ==>
        var taken := FitPrefix(groups[i], maxTokens, tokens);
        var next := tokens + Tokens(taken);
        selected + TakeGroups(groups[i..], maxTokens, tokens) ==
          if next >= maxTokens then selected + taken
            else selected + taken + TakeGroups(groups[i + 1..], maxTokens, next)
    {
      hide FitPrefix, Tokens;
      assert groups[i..][1..] == groups[i + 1..];
    }

    method TakeFromGroups(groups: seq<seq<Item>>) returns (selected: seq<Item>)
      ensures selected == TakeGroups(groups, maxTokens, 0)
    {
      hide TakeGroups, FitPrefix;
      selected := [];
      var tokens := 0;
      assert groups[0..] == groups;
      for i := 0 to |groups|
        invariant tokens == Tokens(selected)
        invariant selected + TakeGroups(groups[i..], maxTokens, tokens) == TakeGroups(groups, maxTokens, 0)
      {
        OneMoreGroup(selected, groups, i, maxTokens, tokens);
        if groups[i] == [] { continue; }
        var taken := TakePrefix(groups[i], tokens);
        TokensAppend(selected, taken);
        selected := selected + taken;
        tokens := tokens + Tokens(taken);
        if tokens >= maxTokens { return; }
      }
      assert groups[|groups|..] == [];
      NoMoreGroups(maxTokens, tokens);
    }

    /** The groups of the types that have a priority, each sorted, from the highest type down. */
    method TruncateByType(all: seq<Item>) returns (selected: seq<Item>)
      requires Lists(all, items)
      ensures IsChoiceByType(selected, items, cfg, maxTokens) && IsPartOf(selected, items, maxTokens)
    {
      var types := TypesByPriority(cfg);
      var groups: seq<seq<Item>> := [];
      for i := 0 to |types|
        invariant |groups| == i
        invariant forall j :: 0 <= j < i ==> IsGroup(groups[j], items, types[j])
      {
        var group := GroupOf(all, types[i]);
        groups := groups + [group];
      }
      selected := TakeFromGroups(groups);
      assert AreGroups(groups, types, items, cfg);
      ChoiceByTypeIsPart(groups, types, items, cfg, maxTokens);
    }

    method ApplyTruncationStrategy(all: seq<Item>) returns (selected: seq<Item>)
      requires Lists(all, items)
      ensures IsPartOf(selected, items, maxTokens)
      ensures if cfg.strategy.ByType? then IsChoiceByType(selected, items, cfg, maxTokens)
        else IsGreedyChoice(selected, items, Comparator(cfg.strategy), maxTokens)
    {
      match cfg.strategy
      case Oldest => selected := SortAndSelect(all, Newer);
      case LRU => selected := SortAndSelect(all, UsedLater);
      case ByType => selected := TruncateByType(all);
      case ByPriority => selected := SortAndSelect(all, HigherOrLater);
      case Intelligent => selected := SortAndSelect(all, Higher);
    }

    /** truncateIntelligent's first loop: every stored item gets its current score. */
    method RescoreItems(now: Time)
      requires StoredUnderID(items)
      modifies `items
      ensures items == (map k | k in old(items) :: old(items)[k].(priority := cfg.score(old(items)[k], now)))
    {
      var rest := items.Keys;
      while rest != {}
        invariant rest <= items.Keys == old(items).Keys
        invariant forall k :: k in items ==>
          items[k] == if k in rest then old(items)[k] else old(items)[k].(priority := cfg.score(old(items)[k], now))
      {
        var k :| k in rest;
        items := items[k := items[k].(priority := cfg.score(items[k], now))];
        rest := rest - {k};
      }
    }

    static method SumTokens(selected: seq<Item>) returns (total: int)
      ensures total == Tokens(selected)
    {
      total := 0;
      for i := 0 to |selected|
        invariant total == Tokens(selected[..i])
      {
        assert selected[..i + 1][..i] == selected[..i];
        total := total + selected[i].tokenCount;
      }
      assert selected[..|selected|] == selected;
    }

    /** Rebuilds the window from the stored items. */
    method UpdateWindow(now: Time)
      requires StoredUnderID(items) && window.maxTokens == maxTokens
      modifies `items, `window
      ensures items == Rescored(old(items), cfg, now) && Valid() && FreshWindow(window, items, cfg)
    {
      hide IsGreedyChoice, IsChoiceByType, Tokens;
      if cfg.strategy.Intelligent? {
        RescoreItems(now);
      }
      var all := CollectItems();
      var selected := ApplyTruncationStrategy(all);
      ShorterMeansTruncated(selected, all, items);
      var total := SumTokens(selected);
      window := Window(selected, total, maxTokens, |selected| < |all|, StrategyName(cfg.strategy));
      FreshWindowIsInvariant(window, items, cfg);
    }

    method AddContext(kind: string, filePath: string, content: string, now: Time)
      requires Valid()
      modifies this
      ensures Valid() && Steps(cfg, old(State()), Add(kind, filePath, content), now, State())
    {
      var id := cfg.identify(kind, filePath, content);
      var item := Item(id, kind, filePath, content, cfg.estimate(content), now, 1, now,
                       cfg.basePriority(kind, filePath, content), cfg.hash(content));
      if id in items {
        var existing := items[id];
        items := items[id := existing.(content := content, tokenCount := item.tokenCount, lastAccess := now,
                                       accessCount := existing.accessCount + 1, priority := item.priority,
                                       hash := item.hash)];
      } else {
        items := items[id := item];
      }
      UpdateWindow(now);
    }

    /** The window keeps the copy it was built with. */
    method GetContext(id: string, now: Time) returns (item: Option<Item>)
      requires Valid()
      modifies this
      ensures Valid() && Steps(cfg, old(State()), Get(id), now, State())
      ensures item == if id in old(items) then Some(items[id]) else None
    {
      if id !in items { return None; }
      items := items[id := items[id].(lastAccess := now, accessCount := items[id].accessCount + 1)];
      return Some(items[id]);
    }

    method RemoveContext(id: string, now: Time)
      requires Valid()
      modifies this
      ensures Valid() && Steps(cfg, old(State()), Remove(id), now, State())
    {
      items := items - {id};
      UpdateWindow(now);
    }

    /** Deletes what `drop` selects, in whatever order the map yields it. */
    method DropItems(drop: Item -> bool)
      requires StoredUnderID(items)
      modifies `items
      ensures items == (map k | k in old(items) && !drop(old(items)[k]) :: old(items)[k])
    {
      var rest := items.Keys;
      while rest != {}
        invariant rest <= items.Keys <= old(items).Keys
        invariant forall k :: k in items ==> items[k] == old(items)[k] && (k in rest || !drop(items[k]))
        invariant forall k :: k in old(items) && k !in items ==> drop(old(items)[k])
      {
        var k :| k in rest;
        if drop(items[k]) {
          items := items - {k};
        }
        rest := rest - {k};
      }
    }

    method RemoveContextByFile(filePath: string, now: Time)
      requires Valid()
      modifies this
      ensures Valid() && Steps(cfg, old(State()), RemoveByFile(filePath), now, State())
    {
      hide FreshWindow, WindowInvariant, Rescored;
      DropItems((x: Item) => x.filePath == filePath);
      assert items == ItemsAfter(old(items), cfg, RemoveByFile(filePath), now);
      UpdateWindow(now);
    }

    /** Only items neither created nor used since the cutoff go. */
    method CleanupExpired(now: Time)
      requires Valid()
      modifies this
      ensures Valid() && Steps(cfg, old(State()), Expire, now, State())
    {
      hide FreshWindow, WindowInvariant, Rescored;
      var cutoff := now - cfg.retention;
      DropItems((x: Item) => x.timestamp < cutoff && x.lastAccess < cutoff);
      assert items == ItemsAfter(old(items), cfg, Expire, now);
      UpdateWindow(now);
    }

    /** Lowering the limit below what is used rebuilds the window; otherwise it stays as it is. */
    method UpdateMaxTokens(limit: int, now: Time)
      requires Valid()
      modifies this
      ensures Valid() && Steps(cfg, old(State()), SetLimit(limit), now, State())
    {
      maxTokens := limit;
      window := window.(maxTokens := limit);
      if window.totalTokens > limit {
        UpdateWindow(now);
      }
    }
  }

  // ----- What a fresh window is worth -----

  /** The newest first, the last used first, the highest priority first, and the last used among equals. */
  ghost predicate NoLater(strategy: Strategy, x: Item, y: Item) {
    match strategy
    case Oldest => x.timestamp >= y.timestamp
    case LRU => x.lastAccess >= y.lastAccess
    case Intelligent => x.priority >= y.priority
    case ByType | ByPriority => x.priority > y.priority || (x.priority == y.priority && x.lastAccess >= y.lastAccess)
  }

  ghost predicate RunsDown(order: seq<Item>, strategy: Strategy) {
    forall i, j :: 0 <= i < j < |order| ==> NoLater(strategy, order[i], order[j])
  }

  lemma SortedRunsDown(order: seq<Item>, strategy: Strategy)
    ensures SortedBy(order, Comparator(strategy)) <==> RunsDown(order, strategy)
  {
    if SortedBy(order, Comparator(strategy)) {
      forall i, j | 0 <= i < j < |order| ensures !Comparator(strategy)(order[j], order[i]) {
      }
    }
  }

  /**
   For every strategy but by_type a fresh window is the greedy choice in an order
   that runs as the strategy says; so it is the lexicographically greatest choice
   exactly when it leaves out nothing that later refunds would make room for, and
   with non-negative counts it always is and nothing left out would still fit.
   */
  lemma FreshWindowIsGreatest(w: Window, items: Items, cfg: Config) returns (order: seq<Item>)
    requires FreshWindow(w, items, cfg) && !cfg.strategy.ByType?
    ensures Distinct(order) && forall x :: x in order <==> x.id in items && items[x.id] == x
    ensures forall i, j :: 0 <= i < j < |order| ==>
      && (cfg.strategy.Oldest? ==> order[i].timestamp >= order[j].timestamp)
      && (cfg.strategy.LRU? ==> order[i].lastAccess >= order[j].lastAccess)
      && (cfg.strategy.Intelligent? || cfg.strategy.ByPriority? ==> order[i].priority >= order[j].priority)
      && (cfg.strategy.ByPriority? && order[i].priority == order[j].priority ==>
            order[i].lastAccess >= order[j].lastAccess)
    ensures w.strategy ==
      match cfg.strategy
      case Oldest => "oldest"
      case LRU => "lru"
      case ByType => "by_type"
      case ByPriority => "by_priority"
      case Intelligent => "intelligent"
    ensures w.items == Picked(order, Keeps(order, w.maxTokens, 0))
    ensures GreedyIsBest(order, w.maxTokens, 0) <==> NoRegret(order, w.maxTokens, 0)
    ensures (forall k :: k in items ==> items[k].tokenCount >= 0) ==>
      && GreedyIsBest(order, w.maxTokens, 0)
      && forall i :: 0 <= i < |order| && order[i] !in w.items ==> w.totalTokens + order[i].tokenCount > w.maxTokens
  {
    hide GreedyIsBest, NoRegret, SortedBy, Picked, Keeps, Tokens, Comparator;
    order :| Lists(order, items) && SortedBy(order, Comparator(cfg.strategy)) &&
      w.items == Picked(order, Keeps(order, w.maxTokens, 0));
    SortedRunsDown(order, cfg.strategy);
    GreedyIsBestExactly(order, w.maxTokens, 0);
    if forall k :: k in items ==> items[k].tokenCount >= 0 {
      assert NonNegative(order);
      NonNegativeChoice(order, w.maxTokens);
    }
  }

  // ----- A refund that comes too late -----

  /** An estimator under which content "big" costs 5 tokens and everything else gives 5 back. */
  const RefundConfig := Config(Oldest, map[], 0, (content: string) => if content == "big" then 5 else -5,
    (kind: string, filePath: string, content: string) => content, (content: string) => content,
    (kind: string, filePath: string, content: string) => 0.0, (item: Item, now: Time) => 0.0)

  const Empty := Manager(map[], Window([], 0, 4, false, ""), 4)

  const Refund := Item("refund", "log", "f", "refund", -5, 1, 1, 1, 0.0, "refund")

  const Big := Item("big", "log", "f", "big", 5, 2, 1, 2, 0.0, "big")

  /** Two additions under a limit of 4 that leave the bigger, newer item out, though with the other one it would fit. */
  lemma LateRefundBreaksGreed(s1: Manager, s2: Manager)
    requires Steps(RefundConfig, Empty, Add("log", "f", "refund"), 1, s1)
    requires Steps(RefundConfig, s1, Add("log", "f", "big"), 2, s2)
    ensures Lists([Big, Refund], s2.items) && SortedBy([Big, Refund], Newer)
    ensures s2.window.items == [Refund] && s2.window.maxTokens == 4 && Tokens([Big, Refund]) == 0
    ensures !GreedyIsBest([Big, Refund], 4, 0)
  {
    hide GreedyIsBest, FreshWindow, Tokens, Picked, Keeps;
    assert s1.items == map["refund" := Refund] && s1.maxTokens == 4;
    assert s2.items == map["refund" := Refund, "big" := Big] && s2.window.maxTokens == 4;
    TwoItems(s2.window, s2.items);
    GreedyLeavesBigOut();
  }

  /** The run itself: what the manager is left with, and that it is not the best choice. */
  method LateRefundRun() returns (window: Window, items: Items)
    ensures window.items == [Refund] && window.maxTokens == 4
    ensures Lists([Big, Refund], items) && SortedBy([Big, Refund], Newer)
    ensures Tokens([Big, Refund]) == 0 && !GreedyIsBest([Big, Refund], 4, 0)
  {
    hide Steps, GreedyIsBest, Sound;
    var manager := new ContextManager(RefundConfig, 4);
    manager.AddContext("log", "f", "refund", 1);
    ghost var between := manager.State();
    manager.AddContext("log", "f", "big", 2);
    LateRefundBreaksGreed(between, manager.State());
    window, items := manager.window, manager.items;
  }

  /** The newest item comes first. */
  lemma TwoItems(w: Window, items: Items)
    requires items == map["refund" := Refund, "big" := Big] && FreshWindow(w, items, RefundConfig) && w.maxTokens == 4
    ensures Lists([Big, Refund], items) && SortedBy([Big, Refund], Newer)
    ensures w.items == Picked([Big, Refund], Keeps([Big, Refund], 4, 0))
  {
    hide Picked, Keeps, Tokens;
    var order :| Lists(order, items) && SortedBy(order, Newer) && w.items == Picked(order, Keeps(order, 4, 0));
    assert Big in order && Refund in order && forall x :: x in order ==> x == Big || x == Refund;
    DistinctLength(order, {Big, Refund});
    assert order[0] in order && order[1] in order;
    assert order == [Big, Refund];
  }

  lemma GreedyLeavesBigOut()
    ensures Picked([Big, Refund], Keeps([Big, Refund], 4, 0)) == [Refund]
    ensures Tokens([Big, Refund]) == 0 && !GreedyIsBest([Big, Refund], 4, 0)
  {
    hide GreedyIsBest;
    assert [Big, Refund][1..] == [Refund] && [Refund][1..] == [];
    assert Keeps([Refund], 4, 0) == [true] && Picked([Refund], [true]) == [Refund];
    assert Keeps([Big, Refund], 4, 0) == [false, true] && [false, true][1..] == [true];
    TokensAppend([Big], [Refund]);
    assert [Big] + [Refund] == [Big, Refund];
    assert Refunds([Refund]) == -5;
    GreedyIsBestExactly([Big, Refund], 4, 0);
  }
}
