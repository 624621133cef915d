/** Facts about sequences shared by the other modules. */
module Seqs {

  ghost predicate Distinct<T>(s: seq<T>) {
    forall i, j :: 0 <= i < j < |s| ==> s[i] != s[j]
  }

  /** The last `n` elements of `s`, or all of it when it is shorter. */
  function LastN<T>(s: seq<T>, n: nat): seq<T> {
    if |s| <= n then s else s[|s| - n..]
  }

  /** An end of the sequence, as long as `n` allows. */
  lemma LastNIsTheEnd<T>(s: seq<T>, n: nat)
    ensures |LastN(s, n)| == if |s| <= n then |s| else n
    ensures exists before :: s == before + LastN(s, n)
  {
    assert s == s[..|s| - |LastN(s, n)|] + LastN(s, n);
  }

  /** Trimming early on the left does not show in what is kept at the end. */
  lemma LastNOfTrimmedPrefix<T>(a: seq<T>, b: seq<T>, n: nat)
    ensures LastN(LastN(a, n) + b, n) == LastN(a + b, n)
  {
  }

  /** Nor does trimming early on the right. */
  lemma LastNOfTrimmedSuffix<T>(a: seq<T>, b: seq<T>, n: nat)
    ensures LastN(a + LastN(b, n), n) == LastN(a + b, n)
  {
  }

  function Reverse<T>(s: seq<T>): (r: seq<T>)
    ensures |r| == |s|
    ensures forall i :: 0 <= i < |s| ==> r[i] == s[|s| - 1 - i]
  {
    if s == [] then [] else Reverse(s[1..]) + [s[0]]
  }

  /** A sequence without repetition has as many places as elements. */
  lemma {:induction false} DistinctLength<T>(s: seq<T>, elements: set<T>)
    requires Distinct(s) && forall x :: x in s <==> x in elements
    ensures |s| == |elements|
  {
    if s != [] {
      var rest, last := s[..|s| - 1], s[|s| - 1];
      assert s == rest + [last];
      DistinctLength(rest, elements - {last});
    }
  }

  lemma {:induction false} DistinctCounts<T>(s: seq<T>)
    requires Distinct(s)
    ensures forall x :: multiset(s)[x] <= 1
  {
    if s != [] {
      var rest, last := s[..|s| - 1], s[|s| - 1];
      assert s == rest + [last];
      DistinctCounts(rest);
    }
  }

  lemma PermutationStaysDistinct<T>(s: seq<T>, r: seq<T>)
    requires Distinct(s) && multiset(r) == multiset(s)
    ensures Distinct(r) && |r| == |s| && forall x :: x in r <==> x in s
  {
    DistinctCounts(s);
    forall i, j | 0 <= i < j < |r| ensures r[i] != r[j] {
      var x := r[i];
      assert r == r[..i] + [x] + r[i + 1..];
      assert multiset(r) == multiset(r[..i]) + multiset{x} + multiset(r[i + 1..]);
      assert multiset(s)[x] <= 1;
      assert r[j] in r[i + 1..];
    }
    forall x ensures x in r <==> x in s {
      assert x in r <==> x in multiset(r);
      assert x in s <==> x in multiset(s);
    }
    assert |multiset(r)| == |r| && |multiset(s)| == |s|;
  }
}
