/**
 Go's sort.Slice and sort.Strings. sort.Slice is not stable, so callers are
 promised only some permutation that the comparator finds in order.
 */
module Sorting {

  ghost predicate Irreflexive<T(!new)>(less: (T, T) -> bool) {
    forall x :: !less(x, x)
  }

  ghost predicate Transitive<T(!new)>(less: (T, T) -> bool) {
    forall x, y, z :: less(x, y) && less(y, z) ==> less(x, z)
  }

  /** Being incomparable is transitive too. */
  ghost predicate NegativelyTransitive<T(!new)>(less: (T, T) -> bool) {
    forall x, y, z :: !less(x, y) && !less(y, z) ==> !less(x, z)
  }

  /** What sort.Slice asks of its comparator. */
  ghost predicate StrictWeakOrder<T(!new)>(less: (T, T) -> bool) {
    Irreflexive(less) && Transitive(less) && NegativelyTransitive(less)
  }

  ghost predicate SortedBy<T>(s: seq<T>, less: (T, T) -> bool) {
    forall i, j :: 0 <= i < j < |s| ==> !less(s[j], s[i])
  }

  method Sort<T(!new)>(s: seq<T>, less: (T, T) -> bool) returns (r: seq<T>)
    requires StrictWeakOrder(less)
    ensures multiset(r) == multiset(s) && SortedBy(r, less)
  {
    r := [];
    for i := 0 to |s|
      invariant multiset(r) == multiset(s[..i]) && SortedBy(r, less)
    {
      r := Insert(r, s[i], less);
      assert s[..i + 1] == s[..i] + [s[i]];
    }
    assert s[..|s|] == s;
  }

  method Insert<T(!new)>(s: seq<T>, x: T, less: (T, T) -> bool) returns (r: seq<T>)
    requires StrictWeakOrder(less) && SortedBy(s, less)
    ensures multiset(r) == multiset(s) + multiset{x} && SortedBy(r, less)
  {
    var p := |s|;
    while p > 0 && less(x, s[p - 1])
      invariant 0 <= p <= |s|
      invariant forall i :: p <= i < |s| ==> less(x, s[i])
    {
      p := p - 1;
    }
    r := s[..p] + [x] + s[p..];
    assert s == s[..p] + s[p..];
    InsertedInOrder(s, p, x, less);
  }

  lemma InsertedInOrder<T(!new)>(s: seq<T>, p: nat, x: T, less: (T, T) -> bool)
    requires StrictWeakOrder(less) && SortedBy(s, less) && p <= |s|
    requires p > 0 ==> !less(x, s[p - 1])
    requires forall i :: p <= i < |s| ==> less(x, s[i])
    ensures SortedBy(s[..p] + [x] + s[p..], less)
  {
    hide Irreflexive, Transitive, NegativelyTransitive;
    forall i | 0 <= i < |s| ensures if i < p then !less(x, s[i]) else !less(s[i], x) {
      if i < p {
        NotLess(less, x, s[p - 1], s[i]);
      } else {
        NotLess(less, s[i], x, x);
      }
    }
  }

  lemma NotLess<T(!new)>(less: (T, T) -> bool, x: T, y: T, z: T)
    requires StrictWeakOrder(less)
    ensures !less(x, x) && !(less(y, x) && less(x, y))
    ensures !less(x, y) && (y == z || !less(y, z)) ==> !less(x, z)
  {
  }

  /** Go's order on strings. */
  predicate Less(a: string, b: string) {
    if b == [] then false
    else if a == [] then true
    else a[0] < b[0] || (a[0] == b[0] && Less(a[1..], b[1..]))
  }

  /** `a` and `b` agree up to `k`, where `a` ends or has the smaller character. */
  predicate SmallerAt(a: string, b: string, k: nat) {
    k <= |a| && k < |b| && a[..k] == b[..k] && (k == |a| || a[k] < b[k])
  }

  lemma SmallerAtTail(a: string, b: string, k: nat)
    requires a != [] && b != []
    ensures SmallerAt(a, b, k + 1) <==> a[0] == b[0] && SmallerAt(a[1..], b[1..], k)
  {
    if k + 1 <= |a| && k + 1 < |b| {
      assert a[..k + 1] == [a[0]] + a[1..][..k] && b[..k + 1] == [b[0]] + b[1..][..k];
    }
  }

  lemma {:induction false} LessIsLexicographic(a: string, b: string)
    ensures Less(a, b) <==> exists k: nat :: SmallerAt(a, b, k)
  {
    if a != [] && b != [] {
      forall k: nat | k > 0 ensures SmallerAt(a, b, k) <==> a[0] == b[0] && SmallerAt(a[1..], b[1..], k - 1) {
        SmallerAtTail(a, b, k - 1);
      }
      LessIsLexicographic(a[1..], b[1..]);
      if a[0] == b[0] && Less(a[1..], b[1..]) {
        var k: nat :| SmallerAt(a[1..], b[1..], k);
        assert SmallerAt(a, b, k + 1);
      }
    }
    assert SmallerAt(a, b, 0) <==> b != [] && (a == [] || a[0] < b[0]);
  }

  lemma {:induction false} LessIsTotal(a: string, b: string)
    ensures Less(a, b) || Less(b, a) || a == b
    ensures !(Less(a, b) && Less(b, a)) && !Less(a, a)
  {
    if a != [] && b != [] {
      LessIsTotal(a[1..], b[1..]);
    }
    if a != [] { LessIsIrreflexive(a); }
  }

  lemma {:induction false} LessIsIrreflexive(a: string)
    ensures !Less(a, a)
  {
    if a != [] { LessIsIrreflexive(a[1..]); }
  }

  lemma {:induction false} LessIsTransitive(a: string, b: string, c: string)
    ensures Less(a, b) && Less(b, c) ==> Less(a, c)
    ensures !Less(a, b) && !Less(b, c) ==> !Less(a, c)
  {
    if a != [] && b != [] && c != [] {
      LessIsTransitive(a[1..], b[1..], c[1..]);
    }
  }

  lemma LessIsStrictWeakOrder()
    ensures StrictWeakOrder(Less)
  {
    forall a ensures !Less(a, a) { LessIsIrreflexive(a); }
    forall a, b, c
      ensures Less(a, b) && Less(b, c) ==> Less(a, c)
      ensures !Less(a, b) && !Less(b, c) ==> !Less(a, c)
    {
      LessIsTransitive(a, b, c);
    }
  }

  /** The keys of a Go map, collected in whatever order it yields them. */
  method Keys<T>(keys: set<T>) returns (r: seq<T>)
    ensures multiset(r) == multiset(keys)
  {
    r := [];
    var rest := keys;
    while rest != {}
      invariant rest <= keys
      invariant multiset(r) == multiset(keys - rest)
    {
      var k :| k in rest;
      r, rest := r + [k], rest - {k};
      assert keys - rest == (keys - rest - {k}) + {k};
    }
    assert keys - {} == keys;
  }

  /** A set of names has one sorted sequence. */
  lemma {:induction false} SortedNamesAreUnique(a: seq<string>, b: seq<string>, keys: set<string>)
    requires multiset(a) == multiset(keys) == multiset(b) && SortedBy(a, Less) && SortedBy(b, Less)
    ensures a == b
  {
    hide Less, SortedBy;
    assert |a| == |multiset(a)| == |multiset(b)| == |b|;
    if a != [] {
      FirstIsLeast(a, b[0], keys);
      FirstIsLeast(b, a[0], keys);
      LessIsTotal(a[0], b[0]);
      RestIsSorted(a, keys);
      RestIsSorted(b, keys);
      SortedNamesAreUnique(a[1..], b[1..], keys - {a[0]});
      assert a == [a[0]] + a[1..] && b == [b[0]] + b[1..];
    }
  }

  lemma FirstIsLeast(a: seq<string>, x: string, keys: set<string>)
    requires a != [] && multiset(a) == multiset(keys) && SortedBy(a, Less) && x in multiset(keys)
    ensures !Less(x, a[0]) && a[0] in multiset(keys)
  {
    assert a[0] in multiset(a) && x in a;
    LessIsIrreflexive(x);
  }

  lemma RestIsSorted(a: seq<string>, keys: set<string>)
    requires a != [] && multiset(a) == multiset(keys) && SortedBy(a, Less)
    ensures multiset(a[1..]) == multiset(keys - {a[0]}) && SortedBy(a[1..], Less)
  {
    assert a == [a[0]] + a[1..];
    assert a[0] in multiset(a);
    assert multiset(keys - {a[0]}) == multiset(keys) - multiset{a[0]};
  }

  /** names := keys of the map; sort.Strings(names) */
  method SortedNames(keys: set<string>) returns (names: seq<string>)
    ensures multiset(names) == multiset(keys)
    ensures SortedBy(names, Less)
  {
    LessIsStrictWeakOrder();
    names := Keys(keys);
    names := Sort(names, Less);
  }
}
