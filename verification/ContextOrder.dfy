/** What the context manager's window holds under each strategy, and what each operation does to the stored items. */
module ContextOrder {
  import opened Seqs
  import opened Sorting
  import opened GreedySelection
  import opened ContextWindow

  // ----- What a fresh window leaves out -----

  /** The items that come no later than `x` in the strategy's order. */
  ghost function NotAfter(items: seq<Item>, x: Item, strategy: Strategy): seq<Item> {
    if items == [] then []
    else (if NoLater(strategy, items[0], x) then [items[0]] else []) + NotAfter(items[1..], x, strategy)
  }

  lemma {:induction false} NotAfterAppend(a: seq<Item>, b: seq<Item>, x: Item, strategy: Strategy)
    ensures NotAfter(a + b, x, strategy) == NotAfter(a, x, strategy) + NotAfter(b, x, strategy)
  {
    if a == [] {
      assert a + b == b;
    } else {
      assert (a + b)[1..] == a[1..] + b;
      NotAfterAppend(a[1..], b, x, strategy);
    }
  }

  lemma {:induction false} NotAfterMembers(items: seq<Item>, x: Item, strategy: Strategy)
    ensures forall y :: y in NotAfter(items, x, strategy) ==> y in items
    ensures (forall y :: y in items ==> NoLater(strategy, y, x)) ==> NotAfter(items, x, strategy) == items
    ensures (forall y :: y in items ==> !NoLater(strategy, y, x)) ==> NotAfter(items, x, strategy) == []
  {
    hide NoLater;
    if items != [] {
      NotAfterMembers(items[1..], x, strategy);
      assert items == [items[0]] + items[1..];
    }
  }

  lemma {:induction false} NonNegativeTokens(items: seq<Item>)
    requires NonNegative(items)
    ensures Tokens(items) >= 0
  {
    if items != [] {
      assert items == items[..|items| - 1] + [items[|items| - 1]];
      NonNegativeTokens(items[..|items| - 1]);
    }
  }

  /** An item that the scan skips did not fit beside what was kept before it. */
  lemma {:induction false} SkippedDidNotFit(items: seq<Item>, maxTokens: int, used: int, i: nat)
    requires i < |items| && !Keeps(items, maxTokens, used)[i]
    ensures var mask := Keeps(items, maxTokens, used);
      used + Tokens(Picked(items[..i], mask[..i])) + items[i].tokenCount > maxTokens
  {
    var mask := Keeps(items, maxTokens, used);
    if i == 0 {
      assert items[..0] == [] && mask[..0] == [];
    } else {
      GreedyGoesOn(items, maxTokens, used);
      var next := Spent(items, maxTokens, used);
      SkippedDidNotFit(items[1..], maxTokens, next, i - 1);
      assert items[..i][1..] == items[1..][..i - 1] && mask[..i][1..] == mask[1..][..i - 1];
      PickedCost(items[..i], mask[..i]);
    }
  }

  lemma {:induction false} PickedSplits(items: seq<Item>, mask: seq<bool>, i: nat)
    requires |mask| == |items| && i <= |items|
    ensures Picked(items, mask) == Picked(items[..i], mask[..i]) + Picked(items[i..], mask[i..])
  {
    if i == 0 {
      assert items[..0] == [] && items[0..] == items && mask[0..] == mask;
    } else {
      PickedSplits(items[1..], mask[1..], i - 1);
      assert items[..i][1..] == items[1..][..i - 1] && mask[..i][1..] == mask[1..][..i - 1];
      assert items[1..][i - 1..] == items[i..] && mask[1..][i - 1..] == mask[i..];
    }
  }

  /** Whatever is picked from before an item comes no later than it. */
  lemma PickedBeforeIsNotAfter(order: seq<Item>, mask: seq<bool>, i: nat, strategy: Strategy)
    requires |mask| == |order| && i < |order| && RunsDown(order, strategy)
    ensures var before := Picked(order[..i], mask[..i]); NotAfter(before, order[i], strategy) == before
  {
    hide NotAfter, Picked, NoLater;
    var before := Picked(order[..i], mask[..i]);
    PickedMembers(order[..i], mask[..i]);
    NotAfterMembers(before, order[i], strategy);
  }

  /**
   With non-negative counts an item is left out only for items that come no later in
   the strategy's order: beside those of them that the window holds it does not fit.
   */
  lemma LeftOutForEarlier(w: Window, items: Items, cfg: Config, x: Item)
    requires FreshWindow(w, items, cfg) && !cfg.strategy.ByType?
    requires x.id in items && items[x.id] == x && x !in w.items
    requires forall k :: k in items ==> items[k].tokenCount >= 0
    ensures Tokens(NotAfter(w.items, x, cfg.strategy)) + x.tokenCount > w.maxTokens
  {
    hide NotAfter, Tokens, Keeps, Picked, GreedyIsBest, NoRegret, FreshWindow, RunsDown;
    var order := FreshOrder(w, items, cfg);
    var mask := Keeps(order, w.maxTokens, 0);
    var i :| 0 <= i < |order| && order[i] == x;
    if mask[i] { KeptIsPicked(order, mask, i); }
    SkippedDidNotFit(order, w.maxTokens, 0, i);
    PickedSplits(order, mask, i);
    PickedBeforeIsNotAfter(order, mask, i, cfg.strategy);
    var before, rest := Picked(order[..i], mask[..i]), Picked(order[i..], mask[i..]);
    NotAfterAppend(before, rest, x, cfg.strategy);
    TokensAppend(before, NotAfter(rest, x, cfg.strategy));
    NotAfterMembers(rest, x, cfg.strategy);
    PickedMembers(order[i..], mask[i..]);
    NonNegativeTokens(NotAfter(rest, x, cfg.strategy));
  }

  lemma FreshOrder(w: Window, items: Items, cfg: Config) returns (order: seq<Item>)
    requires FreshWindow(w, items, cfg) && !cfg.strategy.ByType?
    ensures RunsDown(order, cfg.strategy) && w.items == Picked(order, Keeps(order, w.maxTokens, 0))
    ensures forall x :: x in order <==> x.id in items && items[x.id] == x
  {
    hide GreedyIsBest, NoRegret, Picked, Keeps, Tokens, FreshWindow;
    order := FreshWindowIsGreatest(w, items, cfg);
  }

  /**
   With non-negative counts the item that comes strictly first in the strategy's order,
   the most recently used one under "lru", is in every fresh window that it fits alone.
   */
  lemma FirstStays(w: Window, items: Items, cfg: Config, x: Item)
    requires FreshWindow(w, items, cfg) && !cfg.strategy.ByType?
    requires x.id in items && items[x.id] == x && x.tokenCount <= w.maxTokens
    requires forall k :: k in items ==> items[k].tokenCount >= 0
    requires forall k :: k in items && items[k] != x ==>
      && (cfg.strategy.Oldest? ==> x.timestamp > items[k].timestamp)
      && (cfg.strategy.LRU? ==> x.lastAccess > items[k].lastAccess)
      && (cfg.strategy.Intelligent? ==> x.priority > items[k].priority)
      && (cfg.strategy.ByPriority? ==> x.priority >= items[k].priority)
      && (cfg.strategy.ByPriority? && x.priority == items[k].priority ==> x.lastAccess > items[k].lastAccess)
    ensures x in w.items
  {
    hide NotAfter, Tokens, FreshWindow;
    if x !in w.items {
      LeftOutForEarlier(w, items, cfg, x);
      WindowHoldsStored(w, items, cfg);
      forall y | y in w.items ensures !NoLater(cfg.strategy, y, x) {
        assert items[y.id] != x;
      }
      NotAfterMembers(w.items, x, cfg.strategy);
      NoTokens();
    }
  }

  lemma NoTokens()
    ensures Tokens([]) == 0
  {
  }

  lemma WindowHoldsStored(w: Window, items: Items, cfg: Config)
    requires FreshWindow(w, items, cfg)
    ensures forall x :: x in w.items ==> x.id in items && items[x.id] == x
  {
  }

  // ----- A window by type -----

  function Flat(parts: seq<seq<Item>>): seq<Item> {
    if parts == [] then [] else Flat(parts[..|parts| - 1]) + parts[|parts| - 1]
  }

  lemma {:induction false} FlatAfterFirst(parts: seq<seq<Item>>)
    requires parts != []
    ensures Flat(parts) == parts[0] + Flat(parts[1..])
  {
    if |parts| == 1 {
      assert parts[..0] == [] && parts[1..] == [];
    } else {
      FlatAfterFirst(parts[..|parts| - 1]);
      assert parts[..|parts| - 1][1..] == parts[1..][..|parts| - 2];
    }
  }

  /** A part ends where the group ends, or at an item that does not fit. */
  ghost predicate EndsRightly(part: seq<Item>, group: seq<Item>, maxTokens: int, used: int) {
    && part <= group
    && (forall k :: 0 < k <= |part| ==> used + Tokens(part[..k]) <= maxTokens)
    && (|part| < |group| ==> used + Tokens(part) + group[|part|].tokenCount > maxTokens)
  }

  lemma {:induction false} FitPrefixEndsRightly(group: seq<Item>, maxTokens: int, used: int)
    ensures EndsRightly(FitPrefix(group, maxTokens, used), group, maxTokens, used)
  {
    hide EndsRightly;
    if group != [] && used + group[0].tokenCount <= maxTokens {
      var next := used + group[0].tokenCount;
      FitPrefixEndsRightly(group[1..], maxTokens, next);
      OneMoreInPart(FitPrefix(group[1..], maxTokens, next), group, maxTokens, used);
    } else {
      NothingEndsRightly(group, maxTokens, used);
    }
  }

  lemma NothingEndsRightly(group: seq<Item>, maxTokens: int, used: int)
    requires group == [] || used + group[0].tokenCount > maxTokens
    ensures EndsRightly([], group, maxTokens, used)
  {
    NoTokens();
  }

  lemma OneMoreInPart(rest: seq<Item>, group: seq<Item>, maxTokens: int, used: int)
    requires group != [] && used + group[0].tokenCount <= maxTokens
    requires EndsRightly(rest, group[1..], maxTokens, used + group[0].tokenCount)
    ensures EndsRightly([group[0]] + rest, group, maxTokens, used)
  {
    hide Tokens;
    var first := group[0];
    var part := [first] + rest;
    OneToken(first);
    NoTokens();
    assert group == [first] + group[1..];
    TokensAppend([first], rest);
    forall k | 0 < k <= |part| ensures used + Tokens(part[..k]) <= maxTokens {
      assert part[..k] == [first] + rest[..k - 1];
      TokensAppend([first], rest[..k - 1]);
      if k == 1 { assert rest[..0] == []; }
    }
  }

  lemma OneToken(x: Item)
    ensures Tokens([x]) == x.tokenCount
  {
    NoTokens();
    assert [x][..0] == [];
  }

  /** The budget was met after the `j`-th group. */
  ghost predicate MetAt(groups: seq<seq<Item>>, parts: seq<seq<Item>>, maxTokens: int, used: int, j: nat)
    requires j < |groups| == |parts|
  {
    groups[j] != [] && used + Tokens(Flat(parts[..j + 1])) >= maxTokens
  }

  /** The budget was met after one of the groups before the `i`-th. */
  ghost predicate MetBefore(groups: seq<seq<Item>>, parts: seq<seq<Item>>, maxTokens: int, used: int, i: nat)
    requires i <= |groups| == |parts|
  {
    exists j: nat :: j < i && MetAt(groups, parts, maxTokens, used, j)
  }

  /** Every group gives a part as long as fits, until the budget is met; the groups after that give nothing. */
  ghost predicate ArePartsOf(groups: seq<seq<Item>>, parts: seq<seq<Item>>, maxTokens: int, used: int) {
    |parts| == |groups| && forall i :: 0 <= i < |parts| ==>
      if MetBefore(groups, parts, maxTokens, used, i) then parts[i] == []
      else EndsRightly(parts[i], groups[i], maxTokens, used + Tokens(Flat(parts[..i])))
  }

  lemma {:induction false} TakenParts(groups: seq<seq<Item>>, maxTokens: int, used: int) returns (parts: seq<seq<Item>>)
    ensures ArePartsOf(groups, parts, maxTokens, used) && TakeGroups(groups, maxTokens, used) == Flat(parts)
    ensures |parts| == |groups|
  {
    hide Flat, Tokens, EndsRightly, FitPrefix;
    if groups == [] {
      parts := [];
      NothingFlat();
    } else if groups[0] == [] {
      var rest := TakenParts(groups[1..], maxTokens, used);
      parts := [[]] + rest;
      NoTokens();
      FirstPart(groups, [], rest, maxTokens, used);
    } else {
      var taken := FitPrefix(groups[0], maxTokens, used);
      FitPrefixEndsRightly(groups[0], maxTokens, used);
      if used + Tokens(taken) >= maxTokens {
        var rest := seq(|groups| - 1, _ => []);
        parts := [taken] + rest;
        NothingMore(groups, taken, rest, maxTokens, used);
      } else {
        var rest := TakenParts(groups[1..], maxTokens, used + Tokens(taken));
        parts := [taken] + rest;
        FirstPart(groups, taken, rest, maxTokens, used);
      }
    }
  }

  lemma NothingFlat()
    ensures Flat([]) == []
  {
  }

  lemma FlatPrefix(first: seq<Item>, rest: seq<seq<Item>>, i: nat)
    requires i <= |rest|
    ensures var parts := [first] + rest;
      parts[..i + 1] == [first] + rest[..i] && Flat(parts[..i + 1]) == first + Flat(rest[..i])
    ensures Flat([first] + rest) == first + Flat(rest)
  {
    hide Flat;
    FlatAfterFirst([first] + rest[..i]);
    FlatAfterFirst([first] + rest);
    assert ([first] + rest[..i])[1..] == rest[..i] && ([first] + rest)[1..] == rest;
    assert ([first] + rest)[..i + 1] == [first] + rest[..i];
  }

  lemma FirstPart(groups: seq<seq<Item>>, first: seq<Item>, rest: seq<seq<Item>>, maxTokens: int, used: int)
    requires groups != [] && ArePartsOf(groups[1..], rest, maxTokens, used + Tokens(first))
    requires EndsRightly(first, groups[0], maxTokens, used) || (first == [] == groups[0])
    requires groups[0] != [] ==> used + Tokens(first) < maxTokens
    ensures ArePartsOf(groups, [first] + rest, maxTokens, used) && Flat([first] + rest) == first + Flat(rest)
  {
    hide Flat, Tokens, EndsRightly, MetBefore;
    var parts := [first] + rest;
    FlatPrefix(first, rest, 0);
    NothingFlat();
    NoTokens();
    EmptyEndsRightly(maxTokens, used);
    forall i | 0 <= i < |parts|
      ensures if MetBefore(groups, parts, maxTokens, used, i) then parts[i] == []
        else EndsRightly(parts[i], groups[i], maxTokens, used + Tokens(Flat(parts[..i])))
    {
      MetShifts(groups, first, rest, maxTokens, used, i);
      if i == 0 {
        assert parts[..0] == [];
      } else {
        FlatPrefix(first, rest, i - 1);
        TokensAppend(first, Flat(rest[..i - 1]));
        assert groups[1..][i - 1] == groups[i] && parts[i] == rest[i - 1];
      }
    }
  }

  lemma EmptyEndsRightly(maxTokens: int, used: int)
    ensures EndsRightly([], [], maxTokens, used)
  {
  }

  lemma MetAtShifts(groups: seq<seq<Item>>, first: seq<Item>, rest: seq<seq<Item>>, maxTokens: int, used: int, j: nat)
    requires groups != [] && |rest| == |groups| - 1 && j < |groups|
    requires groups[0] != [] ==> used + Tokens(first) < maxTokens
    ensures MetAt(groups, [first] + rest, maxTokens, used, j) <==>
      j > 0 && MetAt(groups[1..], rest, maxTokens, used + Tokens(first), j - 1)
  {
    hide Flat, Tokens;
    FlatPrefix(first, rest, j);
    TokensAppend(first, Flat(rest[..j]));
    if j == 0 {
      NothingFlat();
      NoTokens();
      assert rest[..0] == [];
    } else {
      assert groups[1..][j - 1] == groups[j] && rest[..j - 1 + 1] == rest[..j];
    }
  }

  lemma MetShifts(groups: seq<seq<Item>>, first: seq<Item>, rest: seq<seq<Item>>, maxTokens: int, used: int, i: nat)
    requires groups != [] && |rest| == |groups| - 1 && i <= |groups|
    requires groups[0] != [] ==> used + Tokens(first) < maxTokens
    ensures MetBefore(groups, [first] + rest, maxTokens, used, i) <==>
      i > 0 && MetBefore(groups[1..], rest, maxTokens, used + Tokens(first), i - 1)
  {
    hide MetAt, Flat, Tokens;
    if i > 0 && MetBefore(groups[1..], rest, maxTokens, used + Tokens(first), i - 1) {
      var j: nat :| j < i - 1 && MetAt(groups[1..], rest, maxTokens, used + Tokens(first), j);
      MetAtShifts(groups, first, rest, maxTokens, used, j + 1);
    }
    if MetBefore(groups, [first] + rest, maxTokens, used, i) {
      var j: nat :| j < i && MetAt(groups, [first] + rest, maxTokens, used, j);
      MetAtShifts(groups, first, rest, maxTokens, used, j);
    }
  }

  lemma {:induction false} NothingIsFlat(parts: seq<seq<Item>>)
    requires forall i :: 0 <= i < |parts| ==> parts[i] == []
    ensures Flat(parts) == []
  {
    if parts != [] { NothingIsFlat(parts[..|parts| - 1]); }
  }

  lemma NothingMore(groups: seq<seq<Item>>, first: seq<Item>, rest: seq<seq<Item>>, maxTokens: int, used: int)
    requires groups != [] && groups[0] != [] && |rest| == |groups| - 1 && forall i :: 0 <= i < |rest| ==> rest[i] == []
    requires EndsRightly(first, groups[0], maxTokens, used) && used + Tokens(first) >= maxTokens
    ensures ArePartsOf(groups, [first] + rest, maxTokens, used) && Flat([first] + rest) == first
  {
    hide Flat, Tokens, EndsRightly;
    var parts := [first] + rest;
    NothingIsFlat(rest);
    NothingFlat();
    NoTokens();
    FlatPrefix(first, rest, 0);
    assert rest[..0] == [] && parts[..0] == [];
    assert Flat(parts[..0 + 1]) == first + [] == first;
    assert MetAt(groups, parts, maxTokens, used, 0);
    assert forall i: nat | 0 < i < |parts| :: MetBefore(groups, parts, maxTokens, used, i);
  }

  /**
   Under by_type a fresh window goes through the types that have a priority, from the
   highest down. Of each it takes the stored items of the type, the highest priority
   first and the last used among equals, up to the first that does not fit, until the
   budget is met.
   */
  lemma FreshWindowByType(w: Window, items: Items, cfg: Config)
    returns (types: seq<string>, groups: seq<seq<Item>>, parts: seq<seq<Item>>)
    requires FreshWindow(w, items, cfg) && cfg.strategy.ByType?
    ensures Distinct(types) && |types| == |groups| == |parts| && forall t :: t in types <==> t in cfg.typePriorities
    ensures forall i, j :: 0 <= i < j < |types| && types[i] in cfg.typePriorities && types[j] in cfg.typePriorities ==>
      cfg.typePriorities[types[i]] >= cfg.typePriorities[types[j]]
    ensures forall i, x :: 0 <= i < |types| ==>
      (x in groups[i] <==> x.id in items && items[x.id] == x && x.kind == types[i])
    ensures forall i :: 0 <= i < |types| ==> Distinct(groups[i])
    ensures forall g, i, j :: 0 <= g < |groups| && 0 <= i < j < |groups[g]| ==>
      var x, y := groups[g][i], groups[g][j];
      x.priority > y.priority || (x.priority == y.priority && x.lastAccess >= y.lastAccess)
    ensures w.items == Flat(parts) && ArePartsOf(groups, parts, w.maxTokens, 0)
    ensures w.strategy == "by_type"
  {
    hide TakeGroups, Tokens, ArePartsOf;
    groups, types :| AreGroups(groups, types, items, cfg) && w.items == TakeGroups(groups, w.maxTokens, 0);
    parts := TakenParts(groups, w.maxTokens, 0);
    hide SortedBy;
    forall g, i, j | 0 <= g < |groups| && 0 <= i < j < |groups[g]|
      ensures var x, y := groups[g][i], groups[g][j];
        x.priority > y.priority || (x.priority == y.priority && x.lastAccess >= y.lastAccess)
    {
      assert IsGroup(groups[g], items, types[g]);
      SortedRunsDown(groups[g], ByType);
    }
    forall i, j | 0 <= i < j < |types| && types[i] in cfg.typePriorities && types[j] in cfg.typePriorities
      ensures cfg.typePriorities[types[i]] >= cfg.typePriorities[types[j]]
    {
      assert !MoreImportant(cfg, types[j], types[i]);
    }
  }

  // ----- What the operations do to the stored items -----

  /** Adding stores one item under its identifier; known content counts a use and keeps its time and place. */
  lemma AddExactly(items: Items, cfg: Config, kind: string, filePath: string, content: string, now: Time)
    ensures var id := cfg.identify(kind, filePath, content);
      var after := ItemsAfter(items, cfg, Add(kind, filePath, content), now);
      && after.Keys == items.Keys + {id} && (forall k :: k in items && k != id ==> after[k] == items[k])
      && var x := after[id];
         && x.content == content && x.tokenCount == cfg.estimate(content) && x.hash == cfg.hash(content)
         && x.priority == cfg.basePriority(kind, filePath, content) && x.lastAccess == now
         && if id in items then
              var known := items[id];
              && x.id == known.id && x.kind == known.kind && x.filePath == known.filePath
              && x.timestamp == known.timestamp && x.accessCount == known.accessCount + 1
            else x.id == id && x.kind == kind && x.filePath == filePath && x.timestamp == now && x.accessCount == 1
  {
  }

  /** Reading counts a use of one item; the other operations remove what they select and change nothing else. */
  lemma OtherOperationsExactly(items: Items, cfg: Config, op: Op, now: Time, k: string)
    requires !op.Add? && k in items
    ensures var after := ItemsAfter(items, cfg, op, now);
      && after.Keys <= items.Keys
      && (k in after <==>
            match op
            case Remove(id) => k != id
            case RemoveByFile(filePath) => items[k].filePath != filePath
            case Expire => items[k].timestamp >= now - cfg.retention || items[k].lastAccess >= now - cfg.retention
            case _ => true)
      && (k in after && op != Get(k) ==> after[k] == items[k])
      && (op == Get(k) ==> after[k] == items[k].(lastAccess := now, accessCount := items[k].accessCount + 1))
  {
  }

  /** One operation: the new limit, which items get new scores, and when the window stays as it was. */
  lemma StepExactly(cfg: Config, s: Manager, op: Op, now: Time, s': Manager)
    requires Steps(cfg, s, op, now, s')
    ensures s'.maxTokens == (if op.SetLimit? then op.limit else s.maxTokens)
    ensures var stays := op.Get? || (op.SetLimit? && s.window.totalTokens <= op.limit);
      var after := ItemsAfter(s.items, cfg, op, now);
      && s'.items.Keys == after.Keys
      && (forall k :: k in after ==>
            var rescored := cfg.strategy.Intelligent? && !stays;
            s'.items[k] == if rescored then after[k].(priority := cfg.score(after[k], now)) else after[k])
      && (stays ==> s'.window == s.window.(maxTokens := s'.maxTokens))
      && (!stays ==> FreshWindow(s'.window, s'.items, cfg) && s'.window.maxTokens == s'.maxTokens)
  {
    hide FreshWindow;
  }
}
