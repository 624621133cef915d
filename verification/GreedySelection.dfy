/** Choosing items within a token budget by a greedy scan (internal/context/manager.go). */
module GreedySelection {
  import opened Seqs

  type Time = int

  datatype Item = Item(
    id: string, kind: string, filePath: string, content: string, tokenCount: int, timestamp: Time,
    accessCount: int, lastAccess: Time, priority: real, hash: string)

  // ----- Token budgets -----

  function Tokens(items: seq<Item>): int {
    if items == [] then 0 else Tokens(items[..|items| - 1]) + items[|items| - 1].tokenCount
  }

  lemma {:induction false} TokensAppend(a: seq<Item>, b: seq<Item>)
    ensures Tokens(a + b) == Tokens(a) + Tokens(b)
  {
    if b == [] {
      assert a + b == a;
    } else {
      assert (a + b)[..|a + b| - 1] == a + b[..|b| - 1];
      TokensAppend(a, b[..|b| - 1]);
    }
  }

  function Budget(maxTokens: int): nat {
    if maxTokens < 0 then 0 else maxTokens
  }

  /** Which items the greedy scan keeps when `used` tokens are spent already. */
  function Keeps(items: seq<Item>, maxTokens: int, used: int): (mask: seq<bool>)
    ensures |mask| == |items|
  {
    if items == [] then []
    else
      var fits := used + items[0].tokenCount <= maxTokens;
      [fits] + Keeps(items[1..], maxTokens, if fits then used + items[0].tokenCount else used)
  }

  function Picked(items: seq<Item>, mask: seq<bool>): seq<Item>
    requires |mask| == |items|
  {
    if items == [] then [] else (if mask[0] then [items[0]] else []) + Picked(items[1..], mask[1..])
  }

  ghost predicate NonNegative(items: seq<Item>) {
    forall x :: x in items ==> x.tokenCount >= 0
  }

  lemma {:induction false} PickedMembers(items: seq<Item>, mask: seq<bool>)
    requires |mask| == |items|
    ensures forall x :: x in Picked(items, mask) ==> x in items
    ensures Distinct(items) ==> Distinct(Picked(items, mask))
  {
    if items != [] {
      var rest := Picked(items[1..], mask[1..]);
      PickedMembers(items[1..], mask[1..]);
      assert items == [items[0]] + items[1..];
      if Distinct(items) {
        assert items[0] !in items[1..] && Distinct(items[1..]);
        assert forall i :: 0 <= i < |rest| ==> rest[i] in rest;
      }
    }
  }

  lemma PickedCost(items: seq<Item>, mask: seq<bool>)
    requires |mask| == |items| && items != []
    ensures Tokens(Picked(items, mask)) ==
      (if mask[0] then items[0].tokenCount else 0) + Tokens(Picked(items[1..], mask[1..]))
  {
    TokensAppend(if mask[0] then [items[0]] else [], Picked(items[1..], mask[1..]));
  }

  function Spent(items: seq<Item>, maxTokens: int, used: int): int
    requires items != []
  {
    if used + items[0].tokenCount <= maxTokens then used + items[0].tokenCount else used
  }

  /** After the first item the scan goes on with what is then spent. */
  lemma GreedyGoesOn(items: seq<Item>, maxTokens: int, used: int)
    requires items != []
    ensures var mask, next := Keeps(items, maxTokens, used), Spent(items, maxTokens, used);
      && mask[1..] == Keeps(items[1..], maxTokens, next)
      && used + Tokens(Picked(items, mask)) == next + Tokens(Picked(items[1..], mask[1..]))
  {
    var mask := Keeps(items, maxTokens, used);
    TokensAppend(if mask[0] then [items[0]] else [], Picked(items[1..], mask[1..]));
  }

  /** The greedy choice stays within the budget, whatever the sign of the counts. */
  lemma {:induction false} GreedyFits(items: seq<Item>, maxTokens: int, used: int)
    ensures used + Tokens(Picked(items, Keeps(items, maxTokens, used))) <=
      (if used > maxTokens then used else maxTokens)
  {
    if items != [] {
      GreedyGoesOn(items, maxTokens, used);
      GreedyFits(items[1..], maxTokens, Spent(items, maxTokens, used));
    }
  }

  // ----- When the greedy choice is best -----

  /** Where `mask` first differs from `other`, it keeps the item. */
  ghost predicate Wins(mask: seq<bool>, other: seq<bool>)
    requires |mask| == |other|
  {
    exists i :: 0 <= i < |mask| && other[..i] == mask[..i] && mask[i] && !other[i]
  }

  /** The greedy choice wins against every other choice within the budget: it is lexicographically greatest. */
  ghost predicate GreedyIsBest(items: seq<Item>, maxTokens: int, used: int) {
    forall other: seq<bool> ::
      |other| == |items| && other != Keeps(items, maxTokens, used) &&
        used + Tokens(Picked(items, other)) <= maxTokens ==>
        Wins(Keeps(items, maxTokens, used), other)
  }

  /** The sum of the negative counts. */
  function Refunds(items: seq<Item>): (sum: int)
    ensures sum <= 0
  {
    if items == [] then 0 else (if items[0].tokenCount < 0 then items[0].tokenCount else 0) + Refunds(items[1..])
  }

  /** Each item left out would exceed the budget even with all later refunds. */
  predicate NoRegret(items: seq<Item>, maxTokens: int, used: int) {
    if items == [] then true
    else if used + items[0].tokenCount <= maxTokens then NoRegret(items[1..], maxTokens, used + items[0].tokenCount)
    else used + items[0].tokenCount + Refunds(items[1..]) > maxTokens && NoRegret(items[1..], maxTokens, used)
  }

  lemma WinsLater(mask: seq<bool>, other: seq<bool>)
    requires |mask| == |other| > 0 && mask[0] == other[0] && Wins(mask[1..], other[1..])
    ensures Wins(mask, other)
  {
    var i :| 0 <= i < |mask[1..]| && other[1..][..i] == mask[1..][..i] && mask[1..][i] && !other[1..][i];
    assert other[..i + 1] == [other[0]] + other[1..][..i] && mask[..i + 1] == [mask[0]] + mask[1..][..i];
    assert mask[i + 1] && !other[i + 1];
  }

  lemma WinsAtOnce(mask: seq<bool>, other: seq<bool>)
    requires |mask| == |other| > 0 && mask[0] && !other[0]
    ensures Wins(mask, other)
  {
    assert other[..0] == mask[..0];
  }

  lemma WinnerIsOne(mask: seq<bool>, other: seq<bool>)
    requires |mask| == |other| && Wins(mask, other)
    ensures !Wins(other, mask) && mask != other
  {
    var i :| 0 <= i < |mask| && other[..i] == mask[..i] && mask[i] && !other[i];
    forall j | 0 <= j < |mask| && other[..j] == mask[..j] && other[j] && !mask[j] ensures false {
    }
  }

  lemma {:induction false} RefundsAreLeast(items: seq<Item>, mask: seq<bool>)
    requires |mask| == |items|
    ensures Tokens(Picked(items, mask)) >= Refunds(items)
  {
    if items != [] {
      PickedCost(items, mask);
      RefundsAreLeast(items[1..], mask[1..]);
    }
  }

  lemma {:induction false} TakingRefunds(items: seq<Item>) returns (mask: seq<bool>)
    ensures |mask| == |items| && Tokens(Picked(items, mask)) == Refunds(items)
  {
    mask := [];
    if items != [] {
      var rest := TakingRefunds(items[1..]);
      mask := [items[0].tokenCount < 0] + rest;
      assert mask[1..] == rest;
      PickedCost(items, mask);
    }
  }

  lemma {:induction false} GreedyWins(items: seq<Item>, maxTokens: int, used: int, other: seq<bool>)
    requires NoRegret(items, maxTokens, used) && |other| == |items|
    requires other != Keeps(items, maxTokens, used) && used + Tokens(Picked(items, other)) <= maxTokens
    ensures Wins(Keeps(items, maxTokens, used), other)
  {
    hide Wins;
    var mask := Keeps(items, maxTokens, used);
    PickedCost(items, other);
    RefundsAreLeast(items[1..], other[1..]);
    if mask[0] == other[0] {
      assert mask == [mask[0]] + mask[1..] && other == [other[0]] + other[1..];
      GreedyGoesOn(items, maxTokens, used);
      GreedyWins(items[1..], maxTokens, Spent(items, maxTokens, used), other[1..]);
      WinsLater(mask, other);
    } else {
      WinsAtOnce(mask, other);
    }
  }

  /** Regret: a choice within the budget that wins against the greedy one. */
  lemma {:induction false} GreedyLoses(items: seq<Item>, maxTokens: int, used: int) returns (other: seq<bool>)
    requires !NoRegret(items, maxTokens, used)
    ensures |other| == |items| && used + Tokens(Picked(items, other)) <= maxTokens
    ensures Wins(other, Keeps(items, maxTokens, used))
  {
    hide Wins;
    var mask, rest := Keeps(items, maxTokens, used), items[1..];
    if !mask[0] && used + items[0].tokenCount + Refunds(rest) <= maxTokens {
      var refunds := TakingRefunds(rest);
      other := [true] + refunds;
      assert other[1..] == refunds;
      PickedCost(items, other);
      WinsAtOnce(other, mask);
    } else {
      GreedyGoesOn(items, maxTokens, used);
      var later := GreedyLoses(rest, maxTokens, Spent(items, maxTokens, used));
      other := [mask[0]] + later;
      assert other[1..] == later;
      PickedCost(items, other);
      WinsLater(other, mask);
    }
  }

  /**
   The greedy choice is lexicographically greatest if and only if it leaves out nothing that later
   refunds would make room for.
   */
  lemma GreedyIsBestExactly(items: seq<Item>, maxTokens: int, used: int)
    ensures GreedyIsBest(items, maxTokens, used) <==> NoRegret(items, maxTokens, used)
  {
    hide Wins, NoRegret, Keeps, Picked, Tokens;
    var mask := Keeps(items, maxTokens, used);
    if NoRegret(items, maxTokens, used) {
      forall other: seq<bool> | |other| == |items| && other != mask && used + Tokens(Picked(items, other)) <= maxTokens
        ensures Wins(mask, other)
      {
        GreedyWins(items, maxTokens, used, other);
      }
    } else {
      var other := GreedyLoses(items, maxTokens, used);
      WinnerIsOne(other, mask);
    }
  }

  lemma {:induction false} NonNegativeHasNoRefunds(items: seq<Item>)
    ensures NonNegative(items) <==> Refunds(items) == 0
  {
    if items != [] {
      NonNegativeHasNoRefunds(items[1..]);
      assert items == [items[0]] + items[1..];
    }
  }

  lemma {:induction false} NoRefundsNoRegret(items: seq<Item>, maxTokens: int, used: int)
    requires NonNegative(items)
    ensures NoRegret(items, maxTokens, used)
  {
    if items != [] {
      NonNegativeHasNoRefunds(items[1..]);
      assert forall x :: x in items[1..] ==> x in items;
      NoRefundsNoRegret(items[1..], maxTokens, Spent(items, maxTokens, used));
    }
  }

  /** Once the running total of all counts is positive, no negative count comes any more. */
  predicate RefundsComeFirst(items: seq<Item>, total: int) {
    if items == [] then true
    else if total + items[0].tokenCount <= 0 then RefundsComeFirst(items[1..], total + items[0].tokenCount)
    else Refunds(items[1..]) == 0
  }

  lemma {:induction false} FirstRefundsNoRegret(items: seq<Item>, limit: nat, total: int)
    requires total <= 0 && RefundsComeFirst(items, total)
    ensures NoRegret(items, limit, total)
  {
    if items != [] {
      if total + items[0].tokenCount <= 0 {
        FirstRefundsNoRegret(items[1..], limit, total + items[0].tokenCount);
      } else {
        NonNegativeHasNoRefunds(items[1..]);
        NoRefundsNoRegret(items[1..], limit, Spent(items, limit, total));
      }
    }
  }

  lemma {:induction false} LateRefundIsRegretted(items: seq<Item>, total: int) returns (limit: nat)
    requires total <= 0 && !RefundsComeFirst(items, total)
    ensures !NoRegret(items, limit, total)
  {
    if total + items[0].tokenCount <= 0 {
      limit := LateRefundIsRegretted(items[1..], total + items[0].tokenCount);
    } else {
      limit := total + items[0].tokenCount - 1;
    }
  }

  /**
   The greedy choice is lexicographically greatest at every limit if and only if no
   negative count comes after the running total first becomes positive.
   */
  lemma GreedyIsBestAtEveryLimit(items: seq<Item>)
    ensures (forall limit: nat :: GreedyIsBest(items, limit, 0)) <==> RefundsComeFirst(items, 0)
  {
    hide GreedyIsBest, NoRegret, RefundsComeFirst;
    if RefundsComeFirst(items, 0) {
      forall limit: nat ensures GreedyIsBest(items, limit, 0) {
        FirstRefundsNoRegret(items, limit, 0);
        GreedyIsBestExactly(items, limit, 0);
      }
    } else {
      var limit := LateRefundIsRegretted(items, 0);
      GreedyIsBestExactly(items, limit, 0);
    }
  }

  /** With non-negative counts no item left out would still fit. */
  lemma {:induction false} NothingOmittedFits(items: seq<Item>, maxTokens: int, used: int, i: nat)
    requires NonNegative(items) && i < |items| && !Keeps(items, maxTokens, used)[i]
    ensures used + Tokens(Picked(items, Keeps(items, maxTokens, used))) + items[i].tokenCount > maxTokens
  {
    var mask := Keeps(items, maxTokens, used);
    GreedyGoesOn(items, maxTokens, used);
    assert forall x :: x in items[1..] ==> x in items;
    if i == 0 {
      NonNegativeHasNoRefunds(items[1..]);
      RefundsAreLeast(items[1..], mask[1..]);
    } else {
      assert mask[1..][i - 1] == mask[i] && items[1..][i - 1] == items[i];
      NothingOmittedFits(items[1..], maxTokens, Spent(items, maxTokens, used), i - 1);
    }
  }

  lemma NothingLeft(maxTokens: int, used: int)
    ensures Picked([], Keeps([], maxTokens, used)) == []
  {
  }

  lemma OneMoreItem(items: seq<Item>, i: nat, maxTokens: int, used: int)
    requires i < |items|
    ensures var rest, next := items[i + 1..], Spent(items[i..], maxTokens, used);
      Picked(items[i..], Keeps(items[i..], maxTokens, used)) ==
        (if used + items[i].tokenCount <= maxTokens then [items[i]] else []) +
          Picked(rest, Keeps(rest, maxTokens, next))
  {
    assert items[i..][1..] == items[i + 1..];
    GreedyGoesOn(items[i..], maxTokens, used);
  }

  method SelectItemsWithinTokenLimit(items: seq<Item>, maxTokens: int) returns (selected: seq<Item>)
    ensures selected == Picked(items, Keeps(items, maxTokens, 0))
    ensures Tokens(selected) <= Budget(maxTokens)
  {
    hide Picked, Keeps;
    selected := [];
    var tokens := 0;
    assert items[0..] == items;
    for i := 0 to |items|
      invariant tokens == Tokens(selected)
      invariant selected + Picked(items[i..], Keeps(items[i..], maxTokens, tokens)) ==
        Picked(items, Keeps(items, maxTokens, 0))
    {
      OneMoreItem(items, i, maxTokens, tokens);
      var item := items[i];
      if tokens + item.tokenCount <= maxTokens {
        TokensAppend(selected, [item]);
        selected := selected + [item];
        tokens := tokens + item.tokenCount;
      }
    }
    NothingLeft(maxTokens, tokens);
    assert items[|items|..] == [];
    GreedyFits(items, maxTokens, 0);
  }

  lemma NonNegativeChoice(order: seq<Item>, maxTokens: int)
    requires NonNegative(order)
    ensures NoRegret(order, maxTokens, 0)
    ensures var chosen := Picked(order, Keeps(order, maxTokens, 0));
      forall i :: 0 <= i < |order| && order[i] !in chosen ==> Tokens(chosen) + order[i].tokenCount > maxTokens
  {
    hide NoRegret, Tokens, Keeps, Picked;
    NoRefundsNoRegret(order, maxTokens, 0);
    var mask := Keeps(order, maxTokens, 0);
    forall i | 0 <= i < |order| && order[i] !in Picked(order, mask)
      ensures Tokens(Picked(order, mask)) + order[i].tokenCount > maxTokens
    {
      if mask[i] {
        KeptIsPicked(order, mask, i);
      } else {
        NothingOmittedFits(order, maxTokens, 0, i);
      }
    }
  }

  lemma {:induction false} KeptIsPicked(items: seq<Item>, mask: seq<bool>, i: nat)
    requires |mask| == |items| && i < |items| && mask[i]
    ensures items[i] in Picked(items, mask)
  {
    if i > 0 {
      KeptIsPicked(items[1..], mask[1..], i - 1);
    }
  }
}
