/** A stable sort of a sequence by a real-valued key, ascending.
    ECMAScript requires `Array.prototype.sort` to be stable, so a comparator
    that orders by a numeric key yields exactly this order. */
module Sorting {

  ghost predicate SortedBy<T>(s: seq<T>, key: T -> real) {
    forall i, j :: 0 <= i < j < |s| ==> key(s[i]) <= key(s[j])
  }

  /** Places `x` after every element whose key is strictly smaller and before
      the rest, so that `x` precedes elements of equal key. */
  function Insert<T>(x: T, s: seq<T>, key: T -> real): (r: seq<T>)
    ensures multiset(r) == multiset(s) + multiset{x}
  {
    if s == [] || key(x) <= key(s[0]) then [x] + s
    else
      assert s == [s[0]] + s[1..];
      [s[0]] + Insert(x, s[1..], key)
  }

  /** A bound below `x` and every element of `s` stays below every element
      after the insertion. */
  lemma InsertBelow<T>(x: T, s: seq<T>, key: T -> real, b: real)
    requires b <= key(x) && forall k :: 0 <= k < |s| ==> b <= key(s[k])
    ensures forall j :: 0 <= j < |Insert(x, s, key)| ==> b <= key(Insert(x, s, key)[j])
  {
    var r := Insert(x, s, key);
    forall j | 0 <= j < |r|
      ensures b <= key(r[j])
    {
      assert r[j] in multiset(r);
      if r[j] != x {
        assert r[j] in multiset(s);
        var k :| 0 <= k < |s| && s[k] == r[j];
      }
    }
  }

  lemma {:induction false} InsertSorted<T>(x: T, s: seq<T>, key: T -> real)
    requires SortedBy(s, key)
    ensures SortedBy(Insert(x, s, key), key)
    decreases |s|
  {
    if s != [] && key(s[0]) < key(x) {
      InsertSorted(x, s[1..], key);
      InsertBelow(x, s[1..], key, key(s[0]));
    }
  }

  function SortBy<T>(s: seq<T>, key: T -> real): (r: seq<T>)
    ensures SortedBy(r, key)
    ensures multiset(r) == multiset(s)
  {
    if s == [] then []
    else
      assert s == [s[0]] + s[1..];
      var rest := SortBy(s[1..], key);
      InsertSorted(s[0], rest, key);
      Insert(s[0], rest, key)
  }

  /** `perm` lists every index below `n` exactly once. */
  predicate IsPermutation(perm: seq<nat>, n: nat) {
    |perm| == n
    && (forall i :: 0 <= i < n ==> perm[i] < n)
    && (forall i, j :: 0 <= i < j < n ==> perm[i] != perm[j])
  }

  /** The order a sort with a random comparator leaves `xs` in: position `i`
      receives the element at `perm[i]`. */
  function Permute<T>(xs: seq<T>, perm: seq<nat>): (r: seq<T>)
    requires IsPermutation(perm, |xs|)
    ensures |r| == |xs|
    ensures forall i :: 0 <= i < |xs| ==> r[i] == xs[perm[i]]
  {
    seq(|xs|, i requires 0 <= i < |xs| => xs[perm[i]])
  }

  /** Reordering by a permutation keeps every element as often as it was. */
  lemma {:induction false} PermuteMultiset<T>(xs: seq<T>, perm: seq<nat>)
    requires IsPermutation(perm, |xs|)
    ensures multiset(Permute(xs, perm)) == multiset(xs)
    decreases |xs|
  {
    if xs != [] {
      var n := |xs| - 1;
      var q := perm[n];
      var rest := xs[..q] + xs[q + 1..];
      var sub := seq(n, i requires 0 <= i < n => if perm[i] < q then perm[i] else perm[i] - 1);
      forall i | 0 <= i < n
        ensures perm[i] != q && sub[i] < n
        ensures rest[sub[i]] == xs[perm[i]]
      {
        assert perm[i] != perm[n];
      }
      assert IsPermutation(sub, n) by {
        forall i, j | 0 <= i < j < n
          ensures sub[i] != sub[j]
        {
          assert perm[i] != perm[j];
        }
      }
      PermuteMultiset(rest, sub);
      assert Permute(xs, perm) == Permute(rest, sub) + [xs[q]];
      assert xs == xs[..q] + [xs[q]] + xs[q + 1..];
    }
  }
}
