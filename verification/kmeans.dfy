/** The k-means clustering behind automatic organisation
    (`src/utils/auto-organize.ts`, class `KMeans`).

    The random shuffle that picks the first centroids is a parameter `perm`:
    a sort with a random comparator returns some permutation of its input, and
    the model holds for every one. Centroids are `Option<Point>`: after an
    update, a cluster index that had no centroid and no members is JavaScript's
    `undefined`, written `None` here. */
module KMeans {
  import opened Outcomes
  import opened Vectors
  import opened Grouping
  import opened Sorting

  /** The constructor's default number of clusters. */
  const DefaultClusters: nat := 5

  /** The constructor's default bound on the number of rounds. */
  const MaxIterations: nat := 100

  /** Every point has `d` coordinates. */
  ghost predicate SameDim(ps: seq<Point>, d: nat) {
    forall i :: 0 <= i < |ps| ==> |ps[i]| == d
  }

  /** Every defined centroid has `d` coordinates. */
  ghost predicate CentroidsOfDim(cs: seq<Option<Point>>, d: nat) {
    forall j :: 0 <= j < |cs| && cs[j].Some? ==> |cs[j].value| == d
  }

  /** The embedding dimension: that of the first point. */
  function Dim(ps: seq<Point>): nat {
    if ps == [] then 0 else |ps[0]|
  }

  function Min(a: nat, b: nat): nat {
    if a <= b then a else b
  }

  // ----- nearestCentroid -----

  /** `r` is the index of a centroid at least as near to `p` as every other,
      and strictly nearer than every centroid before it. */
  ghost predicate Closest(sqrt: real -> real, p: Point, cs: seq<Point>, r: nat)
    requires SameDim(cs, |p|)
  {
    r < |cs|
    && (forall j :: 0 <= j < |cs| ==> Distance(sqrt, p, cs[r]) <= Distance(sqrt, p, cs[j]))
    && (forall j :: 0 <= j < r ==> Distance(sqrt, p, cs[r]) < Distance(sqrt, p, cs[j]))
  }

  /** The label `nearestCentroid` may return: the closest centroid, or 0 when
      there is none. */
  ghost predicate Labelled(sqrt: real -> real, p: Point, cs: seq<Point>, l: nat)
    requires SameDim(cs, |p|)
  {
    if cs == [] then l == 0 else Closest(sqrt, p, cs, l)
  }

  /** The `forEach` over centroids from index `i` on, carrying the smallest
      distance so far (`None` stands for the initial `Infinity`) and its index.
      Only a strictly smaller distance replaces the running minimum. */
  function NearestFrom(sqrt: real -> real, p: Point, cs: seq<Point>, i: nat,
                       min: Option<real>, at: nat): (r: nat)
    requires SameDim(cs, |p|)
    requires i <= |cs|
    requires min.None? <==> i == 0
    requires min.None? ==> at == 0
    requires min.Some? ==> at < i && min.value == Distance(sqrt, p, cs[at])
    requires min.Some? ==> forall j :: 0 <= j < i ==> min.value <= Distance(sqrt, p, cs[j])
    requires min.Some? ==> forall j :: 0 <= j < at ==> min.value < Distance(sqrt, p, cs[j])
    ensures Labelled(sqrt, p, cs, r)
    decreases |cs| - i
  {
    if i == |cs| then at
    else
      var dist := Distance(sqrt, p, cs[i]);
      if min.None? || dist < min.value then NearestFrom(sqrt, p, cs, i + 1, Some(dist), i)
      else NearestFrom(sqrt, p, cs, i + 1, min, at)
  }

  function Nearest(sqrt: real -> real, p: Point, cs: seq<Point>): (r: nat)
    requires SameDim(cs, |p|)
    ensures Labelled(sqrt, p, cs, r)
  {
    NearestFrom(sqrt, p, cs, 0, None, 0)
  }

  /** The nearest centroid is the only index with the `Closest` property. */
  lemma NearestIsUnique(sqrt: real -> real, p: Point, cs: seq<Point>, r: nat)
    requires SameDim(cs, |p|)
    requires cs != []
    ensures Closest(sqrt, p, cs, r) <==> r == Nearest(sqrt, p, cs)
  {
    var n := Nearest(sqrt, p, cs);
  }

  /** For a true square root, the nearest centroid by distance is the nearest
      by squared distance. */
  lemma ClosestBySquares(sqrt: real -> real, p: Point, cs: seq<Point>, r: nat)
    requires SqrtLaw(sqrt)
    requires SameDim(cs, |p|)
    requires r < |cs|
    ensures Closest(sqrt, p, cs, r) <==>
      (forall j :: 0 <= j < |cs| ==> SqDist(p, cs[r]) <= SqDist(p, cs[j]))
      && (forall j :: 0 <= j < r ==> SqDist(p, cs[r]) < SqDist(p, cs[j]))
  {
    forall j | 0 <= j < |cs|
      ensures Distance(sqrt, p, cs[r]) < Distance(sqrt, p, cs[j]) <==> SqDist(p, cs[r]) < SqDist(p, cs[j])
      ensures Distance(sqrt, p, cs[j]) < Distance(sqrt, p, cs[r]) <==> SqDist(p, cs[j]) < SqDist(p, cs[r])
    {
      SqrtMonotone(sqrt, SqDist(p, cs[r]), SqDist(p, cs[j]));
      SqrtMonotone(sqrt, SqDist(p, cs[j]), SqDist(p, cs[r]));
    }
  }

  // ----- calculateMean -----

  function Zeros(d: nat): (r: Point)
    ensures |r| == d && forall i :: 0 <= i < d ==> r[i] == 0.0
  {
    seq(d, _ => 0.0)
  }

  function AddPoint(acc: Point, p: Point): (r: Point)
    requires |acc| == |p|
    ensures |r| == |acc| && forall i :: 0 <= i < |r| ==> r[i] == acc[i] + p[i]
  {
    seq(|acc|, i requires 0 <= i < |acc| => acc[i] + p[i])
  }

  /** The `forEach` that adds every point into the running sum, in order. */
  function Accumulate(acc: Point, ps: seq<Point>): (r: Point)
    requires SameDim(ps, |acc|)
    ensures |r| == |acc|
    decreases ps
  {
    if ps == [] then acc else Accumulate(AddPoint(acc, ps[0]), ps[1..])
  }

  /** The sum of coordinate `i` over all points. */
  function ColumnSum(ps: seq<Point>, i: nat): real
    requires forall m :: 0 <= m < |ps| ==> i < |ps[m]|
  {
    if ps == [] then 0.0 else ps[0][i] + ColumnSum(ps[1..], i)
  }

  /** Accumulating adds each coordinate's column sum to the start value. */
  lemma {:induction false} AccumulateColumns(acc: Point, ps: seq<Point>)
    requires SameDim(ps, |acc|)
    ensures forall i :: 0 <= i < |acc| ==> Accumulate(acc, ps)[i] == acc[i] + ColumnSum(ps, i)
    decreases ps
  {
    if ps != [] {
      var next := AddPoint(acc, ps[0]);
      AccumulateColumns(next, ps[1..]);
    }
  }

  /** `calculateMean`: the dimension is the first point's, and each coordinate
      is the column sum divided by the number of points. */
  function Mean(ps: seq<Point>): (r: Point)
    requires ps != [] && SameDim(ps, |ps[0]|)
    ensures |r| == |ps[0]|
    ensures forall i :: 0 <= i < |r| ==> r[i] == ColumnSum(ps, i) / (|ps| as real)
  {
    var sum := Accumulate(Zeros(|ps[0]|), ps);
    AccumulateColumns(Zeros(|ps[0]|), ps);
    seq(|sum|, i requires 0 <= i < |sum| => sum[i] / (|ps| as real))
  }

  /** A cluster of one point has that point as its mean. */
  lemma MeanOfOne(p: Point)
    ensures Mean([p]) == p
  {
    forall i | 0 <= i < |p|
      ensures Mean([p])[i] == p[i]
    {
      assert ColumnSum([p], i) == p[i] + ColumnSum([], i);
    }
  }

  // ----- one round -----

  /** How many centroids an update produces: the configured `k`, as the code
      is written, or the number of centroids already there. */
  datatype CentroidUpdate = ToClusterCount | KeepCentroidCount

  /** `Array.from({ length: count }, ...)`: the mean of each non-empty cluster
      (its members are `embeddings.filter((_, i) => labels[i] === j)`);
      an empty cluster keeps its previous centroid, which is `undefined` past
      the end of the previous list. */
  function UpdateCentroids(ps: seq<Point>, labels: seq<nat>, prev: seq<Option<Point>>,
                           count: nat, d: nat): (r: seq<Option<Point>>)
    requires |ps| == |labels| && SameDim(ps, d) && CentroidsOfDim(prev, d)
    ensures |r| == count && CentroidsOfDim(r, d)
    ensures forall j :: 0 <= j < count && multiset(labels)[j] > 0 ==>
      r[j].Some? && forall i :: 0 <= i < d ==>
        r[j].value[i] == ColumnSum(Members(ps, labels, j), i) / (multiset(labels)[j] as real)
    ensures forall j :: 0 <= j < count && multiset(labels)[j] == 0 ==>
      r[j] == if j < |prev| then prev[j] else None
  {
    seq(count, j requires 0 <= j < count =>
      var m := Members(ps, labels, j);
      if |m| > 0 then Some(Mean(m))
      else if j < |prev| then prev[j]
      else None)
  }

  /** Some centroid is `undefined`. */
  predicate HasUndefined(cs: seq<Option<Point>>) {
    exists j :: 0 <= j < |cs| && cs[j].None?
  }

  /** The centroid list as `distance` sees it. An `undefined` centroid only
      matters when a point has a coordinate: `reduce` over an empty point
      never reads the centroid, so it stands for an empty vector here. */
  function Resolve(cs: seq<Option<Point>>): (r: seq<Point>)
    ensures |r| == |cs|
  {
    seq(|cs|, j requires 0 <= j < |cs| => if cs[j].Some? then cs[j].value else [])
  }

  /** `embeddings.map(point => nearestCentroid(point, centroids))`. Reading a
      coordinate of an `undefined` centroid throws, which happens exactly when
      there is a point, it has a coordinate, and some centroid is `undefined`. */
  function Assign(sqrt: real -> real, ps: seq<Point>, cs: seq<Option<Point>>, d: nat): (r: Result<seq<nat>>)
    requires SameDim(ps, d) && CentroidsOfDim(cs, d)
    ensures r.Err? <==> |ps| > 0 && d > 0 && HasUndefined(cs)
    ensures r.Ok? ==> |r.value| == |ps|
    ensures r.Ok? ==> forall i :: 0 <= i < |ps| ==> SameDim(Resolve(cs), |ps[i]|) && Labelled(sqrt, ps[i], Resolve(cs), r.value[i])
  {
    if |ps| > 0 && d > 0 && HasUndefined(cs) then Result<seq<nat>>.Err("TypeError: cannot read a coordinate of an undefined centroid")
    else
      assert forall i :: 0 <= i < |ps| ==> SameDim(Resolve(cs), |ps[i]|);
      Ok(seq(|ps|, i requires 0 <= i < |ps| => Nearest(sqrt, ps[i], Resolve(cs))))
  }

  // ----- fit -----

  datatype Fitted = Fitted(labels: seq<nat>, centroids: seq<Option<Point>>, iterations: nat)

  /** The `while` loop of `fit` from round `it` on: assign, stop when no label
      changed, otherwise update the centroids and count the round. */
  function Rounds(sqrt: real -> real, ps: seq<Point>, d: nat, labels: seq<nat>, cs: seq<Option<Point>>,
                  k: nat, update: CentroidUpdate, it: nat, maxIterations: nat): (r: Result<Fitted>)
    requires SameDim(ps, d) && CentroidsOfDim(cs, d) && |labels| == |ps|
    requires it <= maxIterations && |cs| <= k
    requires forall i :: 0 <= i < |labels| ==> labels[i] == 0 || labels[i] < k
    ensures r.Ok? ==> |r.value.labels| == |ps| && it <= r.value.iterations <= maxIterations
    ensures r.Ok? ==> forall i :: 0 <= i < |ps| ==> r.value.labels[i] == 0 || r.value.labels[i] < k
    ensures r.Ok? ==> CentroidsOfDim(r.value.centroids, d)
    ensures r.Ok? && r.value.iterations < maxIterations ==>
      Assign(sqrt, ps, r.value.centroids, d) == Ok(r.value.labels)
    decreases maxIterations - it
  {
    if it == maxIterations then Ok(Fitted(labels, cs, it))
    else match Assign(sqrt, ps, cs, d)
      case Err(e) => Err(e)
      case Ok(next) =>
        if next == labels then Ok(Fitted(labels, cs, it))
        else
          var count := if update == ToClusterCount then k else |cs|;
          Rounds(sqrt, ps, d, next, UpdateCentroids(ps, next, cs, count, d), k, update, it + 1, maxIterations)
  }

  /** All points have the same dimension, as the embeddings of one model do. */
  ghost predicate Uniform(ps: seq<Point>) {
    SameDim(ps, Dim(ps))
  }

  /** The embeddings after the in-place random sort. */
  function Shuffled(es: seq<Point>, perm: seq<nat>): (r: seq<Point>)
    requires IsPermutation(perm, |es|)
    ensures |r| == |es|
    ensures Uniform(es) ==> Dim(r) == Dim(es) && SameDim(r, Dim(es))
  {
    Permute(es, perm)
  }

  function ZeroLabels(n: nat): (r: seq<nat>)
    ensures |r| == n && forall i :: 0 <= i < n ==> r[i] == 0
  {
    seq(n, _ => 0)
  }

  /** The first centroids: the first `k` shuffled points (all of them when
      there are fewer). */
  function InitialCentroids(ps: seq<Point>, k: nat): (r: seq<Option<Point>>)
    ensures |r| == Min(k, |ps|) && !HasUndefined(r)
    ensures forall j :: 0 <= j < |r| ==> r[j] == Some(ps[j])
  {
    seq(Min(k, |ps|), j requires 0 <= j < Min(k, |ps|) => Some(ps[j]))
  }

  /** `fit`: labels every shuffled embedding with a cluster index below `k`
      (or 0), in at most `maxIterations` rounds; when it stops early, the
      labels are a fixed point of assignment to the final centroids. */
  function Fit(sqrt: real -> real, es: seq<Point>, perm: seq<nat>, k: nat, maxIterations: nat,
               update: CentroidUpdate): (r: Result<Fitted>)
    requires Uniform(es) && IsPermutation(perm, |es|)
    ensures r.Ok? ==> |r.value.labels| == |es| && r.value.iterations <= maxIterations
    ensures r.Ok? ==> forall i :: 0 <= i < |es| ==> r.value.labels[i] == 0 || r.value.labels[i] < k
    ensures r.Ok? ==> CentroidsOfDim(r.value.centroids, Dim(es))
    ensures r.Ok? && r.value.iterations < maxIterations ==>
      Assign(sqrt, Shuffled(es, perm), r.value.centroids, Dim(es)) == Ok(r.value.labels)
  {
    var ps := Shuffled(es, perm);
    Rounds(sqrt, ps, Dim(es), ZeroLabels(|es|), InitialCentroids(ps, k), k, update, 0, maxIterations)
  }

  /** Keeping the number of centroids, no centroid is ever `undefined`, so
      every round's assignment succeeds. */
  lemma {:induction false} RoundsKeepingNeverFail(sqrt: real -> real, ps: seq<Point>, d: nat, labels: seq<nat>,
                                                  cs: seq<Option<Point>>, k: nat, it: nat, maxIterations: nat)
    requires SameDim(ps, d) && CentroidsOfDim(cs, d) && |labels| == |ps|
    requires it <= maxIterations && |cs| <= k
    requires forall i :: 0 <= i < |labels| ==> labels[i] == 0 || labels[i] < k
    requires !HasUndefined(cs)
    ensures Rounds(sqrt, ps, d, labels, cs, k, KeepCentroidCount, it, maxIterations).Ok?
    decreases maxIterations - it
  {
    if it < maxIterations {
      var a := Assign(sqrt, ps, cs, d);
      if a.Ok? && a.value != labels {
        var next := UpdateCentroids(ps, a.value, cs, |cs|, d);
        assert !HasUndefined(next) by {
          forall j | 0 <= j < |next|
            ensures next[j].Some?
          {
            assert cs[j].Some?;
          }
        }
        RoundsKeepingNeverFail(sqrt, ps, d, a.value, next, k, it + 1, maxIterations);
      }
    }
  }

  /** With a fixed number of centroids, `fit` always returns labels. */
  lemma KeepingCentroidsNeverFails(sqrt: real -> real, es: seq<Point>, perm: seq<nat>, k: nat, maxIterations: nat)
    requires Uniform(es) && IsPermutation(perm, |es|)
    ensures Fit(sqrt, es, perm, k, maxIterations, KeepCentroidCount).Ok?
  {
    var ps := Shuffled(es, perm);
    RoundsKeepingNeverFail(sqrt, ps, Dim(es), ZeroLabels(|es|), InitialCentroids(ps, k), k, 0, maxIterations);
  }

  /** With as many centroids as clusters, the update as written and the
      corrected one build the same number of centroids, so the rounds agree. */
  lemma {:induction false} RoundsSame(sqrt: real -> real, ps: seq<Point>, d: nat, labels: seq<nat>,
                                      cs: seq<Option<Point>>, k: nat, it: nat, maxIterations: nat)
    requires SameDim(ps, d) && CentroidsOfDim(cs, d) && |labels| == |ps|
    requires it <= maxIterations && |cs| == k
    requires forall i :: 0 <= i < |labels| ==> labels[i] == 0 || labels[i] < k
    ensures Rounds(sqrt, ps, d, labels, cs, k, ToClusterCount, it, maxIterations)
         == Rounds(sqrt, ps, d, labels, cs, k, KeepCentroidCount, it, maxIterations)
    decreases maxIterations - it
  {
    if it < maxIterations {
      var a := Assign(sqrt, ps, cs, d);
      if a.Ok? && a.value != labels {
        RoundsSame(sqrt, ps, d, a.value, UpdateCentroids(ps, a.value, cs, k, d), k, it + 1, maxIterations);
      }
    }
  }

  /** With at least as many embeddings as clusters, `fit` as written behaves
      like the corrected one and always returns labels. */
  lemma AsWrittenSucceeds(sqrt: real -> real, es: seq<Point>, perm: seq<nat>, k: nat, maxIterations: nat)
    requires Uniform(es) && IsPermutation(perm, |es|)
    requires k <= |es|
    ensures Fit(sqrt, es, perm, k, maxIterations, ToClusterCount) == Fit(sqrt, es, perm, k, maxIterations, KeepCentroidCount)
    ensures Fit(sqrt, es, perm, k, maxIterations, ToClusterCount).Ok?
  {
    var ps := Shuffled(es, perm);
    RoundsSame(sqrt, ps, Dim(es), ZeroLabels(|es|), InitialCentroids(ps, k), k, 0, maxIterations);
    KeepingCentroidsNeverFails(sqrt, es, perm, k, maxIterations);
  }

  /** Updating to more centroids than there were, when every label indexes an
      existing centroid, leaves the first new one `undefined`. */
  lemma UpdatePastEndUndefined(ps: seq<Point>, labels: seq<nat>, prev: seq<Option<Point>>, count: nat, d: nat)
    requires |ps| == |labels| && SameDim(ps, d) && CentroidsOfDim(prev, d)
    requires forall i :: 0 <= i < |labels| ==> labels[i] < |prev|
    requires |prev| < count
    ensures UpdateCentroids(ps, labels, prev, count, d)[|prev|] == None
  {
    assert |prev| !in multiset(labels);
  }

  /** Assigned labels index the centroid list, when it is not empty. */
  lemma AssignedBelow(sqrt: real -> real, ps: seq<Point>, cs: seq<Option<Point>>, d: nat)
    requires SameDim(ps, d) && CentroidsOfDim(cs, d)
    requires Assign(sqrt, ps, cs, d).Ok? && cs != []
    ensures forall i :: 0 <= i < |ps| ==> Assign(sqrt, ps, cs, d).value[i] < |cs|
  {
    var labels := Assign(sqrt, ps, cs, d).value;
    forall i | 0 <= i < |ps|
      ensures labels[i] < |cs|
    {
      assert Labelled(sqrt, ps[i], Resolve(cs), labels[i]);
    }
  }

  /** A round that starts with an `undefined` centroid throws, since some
      point reads a coordinate of it. */
  lemma RoundsFailOnUndefined(sqrt: real -> real, ps: seq<Point>, d: nat, labels: seq<nat>,
                              cs: seq<Option<Point>>, k: nat, update: CentroidUpdate, it: nat, maxIterations: nat)
    requires SameDim(ps, d) && CentroidsOfDim(cs, d) && |labels| == |ps|
    requires it < maxIterations && |cs| <= k
    requires forall i :: 0 <= i < |labels| ==> labels[i] == 0 || labels[i] < k
    requires |ps| > 0 && d > 0 && HasUndefined(cs)
    ensures Rounds(sqrt, ps, d, labels, cs, k, update, it, maxIterations).Err?
  {
    assert Assign(sqrt, ps, cs, d).Err?;
  }

  /** A round whose assignment changes the labels updates the centroids and
      goes on with the new labels. */
  lemma RoundsStep(sqrt: real -> real, ps: seq<Point>, d: nat, labels: seq<nat>,
                   cs: seq<Option<Point>>, k: nat, update: CentroidUpdate, it: nat, maxIterations: nat)
    requires SameDim(ps, d) && CentroidsOfDim(cs, d) && |labels| == |ps|
    requires it < maxIterations && |cs| <= k
    requires forall i :: 0 <= i < |labels| ==> labels[i] == 0 || labels[i] < k
    requires Assign(sqrt, ps, cs, d).Ok? && Assign(sqrt, ps, cs, d).value != labels
    ensures forall i :: 0 <= i < |ps| ==> Assign(sqrt, ps, cs, d).value[i] == 0 || Assign(sqrt, ps, cs, d).value[i] < k
    ensures Rounds(sqrt, ps, d, labels, cs, k, update, it, maxIterations)
         == Rounds(sqrt, ps, d, Assign(sqrt, ps, cs, d).value,
                   UpdateCentroids(ps, Assign(sqrt, ps, cs, d).value, cs, if update == ToClusterCount then k else |cs|, d),
                   k, update, it + 1, maxIterations)
  {
    var next := Assign(sqrt, ps, cs, d).value;
    forall i | 0 <= i < |ps|
      ensures next[i] == 0 || next[i] < k
    {
      assert Labelled(sqrt, ps[i], Resolve(cs), next[i]);
    }
  }

  /** With fewer points than clusters, the first update leaves an
      `undefined` centroid just past the initial ones. */
  lemma FirstUpdateUndefined(sqrt: real -> real, ps: seq<Point>, d: nat, k: nat)
    requires SameDim(ps, d) && 0 < |ps| < k
    requires Assign(sqrt, ps, InitialCentroids(ps, k), d).Ok?
    ensures HasUndefined(UpdateCentroids(ps, Assign(sqrt, ps, InitialCentroids(ps, k), d).value,
                                         InitialCentroids(ps, k), k, d))
  {
    var cs := InitialCentroids(ps, k);
    var labels := Assign(sqrt, ps, cs, d).value;
    AssignedBelow(sqrt, ps, cs, d);
    UpdatePastEndUndefined(ps, labels, cs, k, d);
    assert UpdateCentroids(ps, labels, cs, k, d)[|cs|].None?;
  }

  /** The rounds of `fit` from the initial centroids, with fewer points
      than clusters and a first assignment that is not all zeros: the second
      round throws. */
  lemma SecondRoundFails(sqrt: real -> real, ps: seq<Point>, d: nat, k: nat, maxIterations: nat)
    requires SameDim(ps, d) && 0 < |ps| < k && d > 0 && maxIterations >= 2
    requires Assign(sqrt, ps, InitialCentroids(ps, k), d) != Ok(ZeroLabels(|ps|))
    ensures Rounds(sqrt, ps, d, ZeroLabels(|ps|), InitialCentroids(ps, k), k, ToClusterCount, 0, maxIterations).Err?
  {
    var cs := InitialCentroids(ps, k);
    assert Assign(sqrt, ps, cs, d).Ok?;
    var labels := Assign(sqrt, ps, cs, d).value;
    RoundsStep(sqrt, ps, d, ZeroLabels(|ps|), cs, k, ToClusterCount, 0, maxIterations);
    AssignedBelow(sqrt, ps, cs, d);
    FirstUpdateUndefined(sqrt, ps, d, k);
    RoundsFailOnUndefined(sqrt, ps, d, labels, UpdateCentroids(ps, labels, cs, k, d), k, ToClusterCount, 1, maxIterations);
  }

  /** As written, with fewer points than clusters (but at least one, with at
      least one coordinate) and a first assignment that moves some point, the
      update creates `undefined` centroids past the last point, and the second
      round throws. */
  lemma FewerPointsThanClustersFails(sqrt: real -> real, es: seq<Point>, perm: seq<nat>, k: nat, maxIterations: nat)
    requires Uniform(es) && IsPermutation(perm, |es|)
    requires 0 < |es| < k && Dim(es) > 0 && maxIterations >= 2
    requires Assign(sqrt, Shuffled(es, perm), InitialCentroids(Shuffled(es, perm), k), Dim(es)) != Ok(ZeroLabels(|es|))
    ensures Fit(sqrt, es, perm, k, maxIterations, ToClusterCount).Err?
  {
    SecondRoundFails(sqrt, Shuffled(es, perm), Dim(es), k, maxIterations);
  }

  /** The loop stops at the first round whose assignment reproduces the
      labels: it returns them with the centroids of that round, without an
      update. */
  lemma RoundsStopsAtFixedPoint(sqrt: real -> real, ps: seq<Point>, d: nat, labels: seq<nat>,
                                cs: seq<Option<Point>>, k: nat, update: CentroidUpdate,
                                it: nat, maxIterations: nat)
    requires SameDim(ps, d) && CentroidsOfDim(cs, d) && |labels| == |ps|
    requires it <= maxIterations && |cs| <= k
    requires forall i :: 0 <= i < |labels| ==> labels[i] == 0 || labels[i] < k
    requires it < maxIterations && Assign(sqrt, ps, cs, d) == Ok(labels)
    ensures Rounds(sqrt, ps, d, labels, cs, k, update, it, maxIterations) == Ok(Fitted(labels, cs, it))
  {
  }

  /** Labels start all 0, so when the first assignment is all 0 `fit`
      returns at once with the initial centroids and no round counted,
      whatever `k` and the number of points. */
  lemma FitStopsAtOnce(sqrt: real -> real, es: seq<Point>, perm: seq<nat>, k: nat, maxIterations: nat,
                       update: CentroidUpdate)
    requires Uniform(es) && IsPermutation(perm, |es|)
    requires maxIterations > 0
    requires Assign(sqrt, Shuffled(es, perm), InitialCentroids(Shuffled(es, perm), k), Dim(es)) == Ok(ZeroLabels(|es|))
    ensures Fit(sqrt, es, perm, k, maxIterations, update)
      == Ok(Fitted(ZeroLabels(|es|), InitialCentroids(Shuffled(es, perm), k), 0))
  {
    var ps := Shuffled(es, perm);
    var cs := InitialCentroids(ps, k);
    assert CentroidsOfDim(cs, Dim(es)) by {
      forall j | 0 <= j < |cs|
        ensures cs[j].Some? && |cs[j].value| == Dim(es)
      {
        assert cs[j] == Some(ps[j]);
      }
    }
    RoundsStopsAtFixedPoint(sqrt, ps, Dim(es), ZeroLabels(|es|), cs, k, update, 0, maxIterations);
  }

  /** With at most one cluster or at most one point, the first assignment
      labels every point 0, so `fit` stops at once. */
  lemma OneClusterStopsAtOnce(sqrt: real -> real, es: seq<Point>, perm: seq<nat>, k: nat, maxIterations: nat,
                              update: CentroidUpdate)
    requires Uniform(es) && IsPermutation(perm, |es|)
    requires k <= 1 || |es| <= 1
    requires maxIterations > 0
    ensures Fit(sqrt, es, perm, k, maxIterations, update)
      == Ok(Fitted(ZeroLabels(|es|), InitialCentroids(Shuffled(es, perm), k), 0))
  {
    var ps, d := Shuffled(es, perm), Dim(es);
    var cs := InitialCentroids(ps, k);
    var a := Assign(sqrt, ps, cs, d);
    assert a.Ok?;
    forall i | 0 <= i < |es|
      ensures a.value[i] == 0
    {
      assert Labelled(sqrt, ps[i], Resolve(cs), a.value[i]);
    }
    assert a.value == ZeroLabels(|es|);
    FitStopsAtOnce(sqrt, es, perm, k, maxIterations, update);
  }

  /** Two distinct points with the default five clusters, in either shuffled
      order: the first round labels them 0 and 1, since each is nearest its
      own copy among the centroids, so the update leaves three centroids
      `undefined` and the second round throws. */
  lemma TwoDistinctPointsFail(sqrt: real -> real, p: Point, q: Point, perm: seq<nat>)
    requires SqrtLaw(sqrt)
    requires |p| == |q| > 0 && p != q
    requires IsPermutation(perm, 2)
    ensures Fit(sqrt, [p, q], perm, DefaultClusters, MaxIterations, ToClusterCount).Err?
  {
    var es: seq<Point> := [p, q];
    assert Uniform(es);
    var ps := Shuffled(es, perm);
    assert ps[0] == es[perm[0]] && ps[1] == es[perm[1]] && perm[0] != perm[1];
    assert ps[0] != ps[1] && |ps[0]| == |ps[1]| == |p|;
    var cs := InitialCentroids(ps, DefaultClusters);
    var rs := Resolve(cs);
    assert rs == [ps[0], ps[1]];
    SqDistSelf(ps[1]);
    SqDistPositive(ps[1], ps[0]);
    SqrtMonotone(sqrt, 0.0, SqDist(ps[1], ps[0]));
    var a := Assign(sqrt, ps, cs, |p|);
    assert a.Ok?;
    assert Labelled(sqrt, ps[1], rs, a.value[1]);
    assert Distance(sqrt, ps[1], rs[1]) == sqrt(0.0);
    assert Distance(sqrt, ps[1], rs[0]) == sqrt(SqDist(ps[1], ps[0]));
    assert Distance(sqrt, ps[1], rs[1]) < Distance(sqrt, ps[1], rs[0]);
    assert a.value[1] != 0;
    assert a.value != ZeroLabels(2);
    FewerPointsThanClustersFails(sqrt, es, perm, DefaultClusters, MaxIterations);
  }

  /** The smallest instance: [0] and [1] in their own order. */
  lemma TwoPointsFiveClustersFail(sqrt: real -> real)
    requires SqrtLaw(sqrt)
    ensures Fit(sqrt, [[0.0], [1.0]], [0, 1], DefaultClusters, MaxIterations, ToClusterCount).Err?
  {
    TwoDistinctPointsFail(sqrt, [0.0], [1.0], [0, 1]);
  }
}
