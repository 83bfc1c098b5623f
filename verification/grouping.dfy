/** Grouping items by a numeric label. K-means collects the points of one
    cluster with `filter`; automatic organisation collects the bookmarks of
    every cluster with a `reduce` into an object keyed by label and reads the
    groups back with `Object.entries`, which lists integer keys in ascending
    order. */
module Grouping {

  /** The items labelled `j`, in order. */
  function Members<T(==)>(xs: seq<T>, labels: seq<nat>, j: nat): (r: seq<T>)
    requires |xs| == |labels|
    ensures |r| == multiset(labels)[j]
    ensures forall m :: 0 <= m < |r| ==> r[m] in xs
  {
    if xs == [] then []
    else
      assert labels == [labels[0]] + labels[1..];
      (if labels[0] == j then [xs[0]] else []) + Members(xs[1..], labels[1..], j)
  }

  /** An item is a member of group `j` exactly when some position holding it
      is labelled `j`. */
  lemma {:induction false} MembersExactly<T>(xs: seq<T>, labels: seq<nat>, j: nat, x: T)
    requires |xs| == |labels|
    ensures x in Members(xs, labels, j) <==> exists i :: 0 <= i < |xs| && labels[i] == j && xs[i] == x
  {
    if xs != [] {
      MembersExactly(xs[1..], labels[1..], j, x);
      if x in Members(xs[1..], labels[1..], j) {
        var i :| 0 <= i < |xs| - 1 && labels[1..][i] == j && xs[1..][i] == x;
        assert labels[i + 1] == j && xs[i + 1] == x;
      }
      if exists i :: 0 <= i < |xs| && labels[i] == j && xs[i] == x {
        var i :| 0 <= i < |xs| && labels[i] == j && xs[i] == x;
        if i > 0 {
          assert labels[1..][i - 1] == j && xs[1..][i - 1] == x;
        }
      }
    }
  }

  /** One more labelled item extends its own group and no other. */
  lemma {:induction false} MembersSnoc<T>(xs: seq<T>, labels: seq<nat>, x: T, l: nat, j: nat)
    requires |xs| == |labels|
    ensures Members(xs + [x], labels + [l], j) == Members(xs, labels, j) + (if l == j then [x] else [])
  {
    if xs == [] {
      assert xs + [x] == [x] && labels + [l] == [l];
    } else {
      var head := if labels[0] == j then [xs[0]] else [];
      var tail := if l == j then [x] else [];
      var rest := Members(xs[1..], labels[1..], j);
      assert Members(xs + [x], labels + [l], j) == head + (rest + tail) by {
        assert (xs + [x])[1..] == xs[1..] + [x];
        assert (labels + [l])[1..] == labels[1..] + [l];
        MembersSnoc(xs[1..], labels[1..], x, l, j);
      }
      assert head + (rest + tail) == (head + rest) + tail;
    }
  }

  /** The items whose label is in `keys`, in order. */
  function Within<T>(xs: seq<T>, labels: seq<nat>, keys: set<nat>): seq<T>
    requires |xs| == |labels|
  {
    if xs == [] then []
    else (if labels[0] in keys then [xs[0]] else []) + Within(xs[1..], labels[1..], keys)
  }

  /** Adding a key that was not there adds exactly that key's group. */
  lemma {:induction false} WithinAdd<T>(xs: seq<T>, labels: seq<nat>, keys: set<nat>, j: nat)
    requires |xs| == |labels| && j !in keys
    ensures multiset(Within(xs, labels, keys + {j}))
         == multiset(Within(xs, labels, keys)) + multiset(Members(xs, labels, j))
  {
    if xs != [] {
      WithinAdd(xs[1..], labels[1..], keys, j);
    }
  }

  /** When every label is a key, nothing is left out. */
  lemma {:induction false} WithinEverything<T>(xs: seq<T>, labels: seq<nat>, keys: set<nat>)
    requires |xs| == |labels|
    requires forall i :: 0 <= i < |labels| ==> labels[i] in keys
    ensures Within(xs, labels, keys) == xs
  {
    if xs != [] {
      WithinEverything(xs[1..], labels[1..], keys);
    }
  }

  /** `labels.reduce((acc, label, index) => { acc[label] ??= []; acc[label].push(xs[index]) }, {})`:
      a left fold that appends each item to its label's list. */
  function Collect<T>(xs: seq<T>, labels: seq<nat>): map<nat, seq<T>>
    requires |xs| == |labels|
    decreases |xs|
  {
    if xs == [] then map[]
    else
      var n := |xs| - 1;
      var acc := Collect(xs[..n], labels[..n]);
      var l := labels[n];
      acc[l := (if l in acc then acc[l] else []) + [xs[n]]]
  }

  /** The object built by the fold has a key for every label that occurs, and
      under it exactly the items with that label, in order. */
  lemma {:induction false} CollectIsMembers<T>(xs: seq<T>, labels: seq<nat>)
    requires |xs| == |labels|
    ensures forall j :: j in Collect(xs, labels) <==> j in labels
    ensures forall j :: j in Collect(xs, labels) ==> Collect(xs, labels)[j] == Members(xs, labels, j)
    decreases |xs|
  {
    if xs != [] {
      var n := |xs| - 1;
      var ys, ls := xs[..n], labels[..n];
      CollectIsMembers(ys, ls);
      assert xs == ys + [xs[n]] && labels == ls + [labels[n]];
      forall j
        ensures Members(xs, labels, j) == Members(ys, ls, j) + (if labels[n] == j then [xs[n]] else [])
      {
        MembersSnoc(ys, ls, xs[n], labels[n], j);
      }
      forall j | j !in ls
        ensures Members(ys, ls, j) == []
      {
        assert multiset(ls)[j] == 0;
      }
    }
  }

  /** The members of `keys` below `n`, ascending. */
  function AscendingBelow(keys: set<nat>, n: nat): (r: seq<nat>)
    ensures forall i :: 0 <= i < |r| ==> r[i] < n
    ensures forall i, j :: 0 <= i < j < |r| ==> r[i] < r[j]
    ensures forall x :: x in r <==> x in keys && x < n
  {
    if n == 0 then []
    else AscendingBelow(keys, n - 1) + (if n - 1 in keys then [n - 1] else [])
  }

  /** A number above every label. */
  function Bound(labels: seq<nat>): (r: nat)
    ensures forall i :: 0 <= i < |labels| ==> labels[i] < r
  {
    if labels == [] then 0
    else
      var rest := Bound(labels[1..]);
      assert forall i :: 1 <= i < |labels| ==> labels[i] == labels[1..][i - 1];
      if labels[0] < rest then rest else labels[0] + 1
  }

  /** `Object.entries` of the folded object: the integer keys ascending, each
      with its list. */
  function Clusters<T>(xs: seq<T>, labels: seq<nat>): (r: seq<(nat, seq<T>)>)
    requires |xs| == |labels|
  {
    var m := Collect(xs, labels);
    var ks := AscendingBelow(m.Keys, Bound(labels));
    seq(|ks|, i requires 0 <= i < |ks| => (ks[i], m[ks[i]]))
  }

  /** The groups one after another. */
  function Flatten<T>(gs: seq<(nat, seq<T>)>): seq<T> {
    if gs == [] then [] else gs[0].1 + Flatten(gs[1..])
  }

  /** The labels of the groups are ascending, and are exactly the labels that
      occur; each group holds the items with its label, in order, and none is
      empty. */
  lemma ClustersByLabel<T>(xs: seq<T>, labels: seq<nat>)
    requires |xs| == |labels|
    ensures forall i, j :: 0 <= i < j < |Clusters(xs, labels)| ==> Clusters(xs, labels)[i].0 < Clusters(xs, labels)[j].0
    ensures forall l :: l in labels <==> l in KeysOf(Clusters(xs, labels))
    ensures forall i :: 0 <= i < |Clusters(xs, labels)| ==>
      Clusters(xs, labels)[i].1 == Members(xs, labels, Clusters(xs, labels)[i].0)
      && Clusters(xs, labels)[i].1 != []
  {
    var cs := Clusters(xs, labels);
    var m := Collect(xs, labels);
    var ks := AscendingBelow(m.Keys, Bound(labels));
    assert |cs| == |ks| && forall i :: 0 <= i < |ks| ==> cs[i] == (ks[i], m[ks[i]]);
    CollectIsMembers(xs, labels);
    forall l | l in labels
      ensures l in KeysOf(cs)
    {
      assert l in ks;
      var i :| 0 <= i < |ks| && ks[i] == l;
      assert cs[i].0 == l;
    }
    forall i | 0 <= i < |cs|
      ensures cs[i].1 == Members(xs, labels, cs[i].0) && cs[i].1 != []
    {
      assert ks[i] in labels;
      assert multiset(labels)[ks[i]] > 0;
    }
  }

  /** The labels of a list of groups. */
  function KeysOf<T>(gs: seq<(nat, seq<T>)>): set<nat> {
    set i | 0 <= i < |gs| :: gs[i].0
  }

  lemma KeysOfCons<T>(gs: seq<(nat, seq<T>)>)
    requires gs != []
    ensures KeysOf(gs) == KeysOf(gs[1..]) + {gs[0].0}
  {
    var rest := gs[1..];
    forall i | 0 <= i < |gs|
      ensures gs[i].0 in KeysOf(rest) + {gs[0].0}
    {
      if i > 0 {
        assert gs[i].0 == rest[i - 1].0;
      }
    }
    forall i | 0 <= i < |rest|
      ensures rest[i].0 in KeysOf(gs)
    {
      assert rest[i].0 == gs[i + 1].0;
    }
  }

  /** The groups of keys `ks` taken together hold the items whose label is one
      of `ks`. */
  lemma {:induction false} FlattenWithin<T>(xs: seq<T>, labels: seq<nat>, gs: seq<(nat, seq<T>)>)
    requires |xs| == |labels|
    requires forall i, j :: 0 <= i < j < |gs| ==> gs[i].0 < gs[j].0
    requires forall i :: 0 <= i < |gs| ==> gs[i].1 == Members(xs, labels, gs[i].0)
    ensures multiset(Flatten(gs)) == multiset(Within(xs, labels, KeysOf(gs)))
  {
    if gs == [] {
      assert KeysOf(gs) == {};
      WithinNothing(xs, labels);
    } else {
      var rest := gs[1..];
      assert multiset(Flatten(rest)) == multiset(Within(xs, labels, KeysOf(rest))) by {
        FlattenWithin(xs, labels, rest);
      }
      var keys := KeysOf(rest);
      assert gs[0].0 !in keys by {
        forall i | 0 <= i < |rest|
          ensures rest[i].0 != gs[0].0
        {
          assert rest[i] == gs[i + 1];
        }
      }
      KeysOfCons(gs);
      WithinAdd(xs, labels, keys, gs[0].0);
      assert Flatten(gs) == gs[0].1 + Flatten(rest);
    }
  }

  /** With no keys, nothing is selected. */
  lemma {:induction false} WithinNothing<T>(xs: seq<T>, labels: seq<nat>)
    requires |xs| == |labels|
    ensures Within(xs, labels, {}) == []
  {
    if xs != [] {
      WithinNothing(xs[1..], labels[1..]);
    }
  }

  /** The groups partition the items: together they hold every item exactly
      as often as the input does. */
  lemma ClustersPartition<T>(xs: seq<T>, labels: seq<nat>)
    requires |xs| == |labels|
    ensures multiset(Flatten(Clusters(xs, labels))) == multiset(xs)
  {
    var cs := Clusters(xs, labels);
    ClustersByLabel(xs, labels);
    FlattenWithin(xs, labels, cs);
    var keys := KeysOf(cs);
    forall i | 0 <= i < |labels|
      ensures labels[i] in keys
    {
      assert labels[i] in labels;
    }
    WithinEverything(xs, labels, keys);
  }
}
