/** Concrete runs of `autoOrganizeBookmarks` (`src/utils/auto-organize.ts`)
    that show how the labels of the shuffled embeddings are paired with the
    bookmarks in their original order.

    In the main run, three bookmarks are embedded as [0], [1] and [10], and
    the shuffle of `fit` leaves the embeddings in the order [10], [0], [1].
    The clustering itself is sound: [10] alone, [0] and [1] together. But
    the folder that should hold the two neighbours [0] and [1] receives the
    bookmarks embedded as [1] and [10].

    A smaller run with two bookmarks and a swapping shuffle files a bookmark
    into the cluster whose centroid is not the nearest to its embedding. */
module ShuffleExample {
  import opened Outcomes
  import opened Vectors
  import opened Sorting
  import opened BookmarkTypes
  import opened Grouping
  import opened KMeans
  import opened AutoOrganize

  /** A host name parser that returns the URL itself. */
  function UrlAsHost(u: string): Result<string> {
    Ok(u)
  }

  // ----- three bookmarks: far-apart embeddings share a folder -----

  const Origin := Bookmark("alpha", "a")
  const Close := Bookmark("beta", "b")
  const Distant := Bookmark("gamma", "c")

  const Trio: seq<Bookmark> := [Origin, Close, Distant]
  const TrioPoints: seq<Point> := [[0.0], [1.0], [10.0]]

  /** The random sort moves the last embedding to the front. */
  const TrioPerm: seq<nat> := [2, 0, 1]
  const ShuffledTrio: seq<Point> := [[10.0], [0.0], [1.0]]

  const FirstCentroids: seq<Option<Point>> := [Some([10.0]), Some([0.0])]
  const SecondCentroids: seq<Option<Point>> := [Some([10.0]), Some([0.5])]
  const TrioLabels: seq<nat> := [0, 1, 1]

  /** A model that embeds a text starting with 'a' as [0], one starting with
      'b' as [1], and any other as [10]. */
  function TrioModel(t: string): Result<Point> {
    if |t| > 0 && t[0] == 'a' then Ok([0.0])
    else if |t| > 0 && t[0] == 'b' then Ok([1.0])
    else Ok([10.0])
  }

  /** The three bookmarks embed as [0], [1] and [10]. */
  lemma TrioEmbeddings()
    ensures FixedDimension(TrioModel)
    ensures Embed(Trio, UrlAsHost, TrioModel) == Ok(TrioPoints)
  {
    assert EmbedOne(Origin, UrlAsHost, TrioModel) == Ok([0.0]) by {
      assert EmbeddingText(Origin, Origin.url)[0] == 'a';
    }
    assert EmbedOne(Close, UrlAsHost, TrioModel) == Ok([1.0]) by {
      assert EmbeddingText(Close, Close.url)[0] == 'b';
    }
    assert EmbedOne(Distant, UrlAsHost, TrioModel) == Ok([10.0]) by {
      assert EmbeddingText(Distant, Distant.url)[0] == 'g';
    }
    assert Trio[0] == Origin && Trio[1] == Close && Trio[2] == Distant;
    var es := Embed(Trio, UrlAsHost, TrioModel);
    assert es.Ok? && |es.value| == 3;
    assert es.value == TrioPoints;
  }

  /** Labels [0, 1, 1] take the first item into cluster 0 and the other two,
      in order, into cluster 1. */
  lemma TrioMembers<T>(xs: seq<T>)
    requires |xs| == 3
    ensures Members(xs, TrioLabels, 0) == [xs[0]]
    ensures Members(xs, TrioLabels, 1) == [xs[1], xs[2]]
  {
    var ls := TrioLabels;
    var xs1, ls1 := xs[1..], ls[1..];
    var xs2, ls2 := xs1[1..], ls1[1..];
    assert ls2 == [1] && xs2 == [xs[2]];
    assert Members(xs2, ls2, 0) == [] && Members(xs2, ls2, 1) == [xs[2]] by {
      assert xs2[1..] == [] && ls2[1..] == [];
    }
    assert ls1[0] == 1 && xs1[0] == xs[1];
    assert Members(xs1, ls1, 0) == [] && Members(xs1, ls1, 1) == [xs[1], xs[2]];
  }

  /** Each shuffled point goes to the nearer of two one-dimensional centroids. */
  lemma AssignTrio(sqrt: real -> real, c0: Point, c1: Point)
    requires |c0| == 1 && |c1| == 1
    ensures Assign(sqrt, ShuffledTrio, [Some(c0), Some(c1)], 1)
         == Ok([Nearest(sqrt, [10.0], [c0, c1]), Nearest(sqrt, [0.0], [c0, c1]), Nearest(sqrt, [1.0], [c0, c1])])
  {
    var cs := [Some(c0), Some(c1)];
    assert Resolve(cs) == [c0, c1];
    assert !HasUndefined(cs);
    var a := Assign(sqrt, ShuffledTrio, cs, 1);
    assert |a.value| == 3;
    assert a.value[0] == Nearest(sqrt, [10.0], [c0, c1]);
    assert a.value[1] == Nearest(sqrt, [0.0], [c0, c1]);
    assert a.value[2] == Nearest(sqrt, [1.0], [c0, c1]);
    assert a.Ok?;
    assert a.value == [Nearest(sqrt, [10.0], [c0, c1]), Nearest(sqrt, [0.0], [c0, c1]), Nearest(sqrt, [1.0], [c0, c1])];
  }

  /** On the line, a point goes to the nearer of two centroids. */
  lemma NearerOnLine(sqrt: real -> real, x: real, a: real, b: real)
    requires SqrtLaw(sqrt)
    requires Mul(x - a, x - a) != Mul(x - b, x - b)
    ensures Nearest(sqrt, [x], [[a], [b]]) == if Mul(x - a, x - a) < Mul(x - b, x - b) then 0 else 1
  {
    assert SqDist([x], [a]) == Mul(x - a, x - a) + SqDist([], []);
    assert SqDist([x], [b]) == Mul(x - b, x - b) + SqDist([], []);
    NearerOfTwo(sqrt, [x], [a], [b]);
  }

  /** From the first two shuffled points as centroids, [10] goes to cluster 0
      and [0], [1] to cluster 1. */
  lemma FirstAssign(sqrt: real -> real)
    requires SqrtLaw(sqrt)
    ensures Assign(sqrt, ShuffledTrio, FirstCentroids, 1) == Ok(TrioLabels)
  {
    AssignTrio(sqrt, [10.0], [0.0]);
    NearerOnLine(sqrt, 10.0, 10.0, 0.0);
    NearerOnLine(sqrt, 0.0, 10.0, 0.0);
    NearerOnLine(sqrt, 1.0, 10.0, 0.0);
  }

  /** The mean of [0] and [1] is [0.5]. */
  lemma MeanOfNeighbours()
    ensures Mean([[0.0], [1.0]]) == [0.5]
  {
    var m := Mean([[0.0], [1.0]]);
    assert ColumnSum([[0.0], [1.0]], 0) == 0.0 + ColumnSum([[1.0]], 0);
    assert ColumnSum([[1.0]], 0) == 1.0 + ColumnSum([], 0);
    assert m[0] == 0.5;
  }

  /** The update keeps [10] and moves the second centroid to the mean 0.5. */
  lemma FirstUpdate()
    ensures UpdateCentroids(ShuffledTrio, TrioLabels, FirstCentroids, 2, 1) == SecondCentroids
  {
    TrioMembers(ShuffledTrio);
    MeanOfOne([10.0]);
    MeanOfNeighbours();
  }

  /** With centroids [10] and [0.5], the labels stay [0, 1, 1]. */
  lemma SecondAssign(sqrt: real -> real)
    requires SqrtLaw(sqrt)
    ensures Assign(sqrt, ShuffledTrio, SecondCentroids, 1) == Ok(TrioLabels)
  {
    AssignTrio(sqrt, [10.0], [0.5]);
    NearerOnLine(sqrt, 10.0, 10.0, 0.5);
    NearerOnLine(sqrt, 0.0, 10.0, 0.5);
    NearerOnLine(sqrt, 1.0, 10.0, 0.5);
  }

  lemma TrioFirstRound(sqrt: real -> real)
    requires SqrtLaw(sqrt)
    ensures Rounds(sqrt, ShuffledTrio, 1, ZeroLabels(3), FirstCentroids, 2, ToClusterCount, 0, MaxIterations)
         == Rounds(sqrt, ShuffledTrio, 1, TrioLabels, SecondCentroids, 2, ToClusterCount, 1, MaxIterations)
  {
    FirstAssign(sqrt);
    FirstUpdate();
    assert ZeroLabels(3)[1] == 0;
  }

  lemma TrioSecondRound(sqrt: real -> real)
    requires SqrtLaw(sqrt)
    ensures Rounds(sqrt, ShuffledTrio, 1, TrioLabels, SecondCentroids, 2, ToClusterCount, 1, MaxIterations)
         == Ok(Fitted(TrioLabels, SecondCentroids, 1))
  {
    SecondAssign(sqrt);
  }

  /** k-means with two clusters converges after one update: [10] alone, and
      [0], [1] around 0.5. */
  lemma TrioFit(sqrt: real -> real)
    requires SqrtLaw(sqrt)
    ensures Fit(sqrt, TrioPoints, TrioPerm, 2, MaxIterations, ToClusterCount)
         == Ok(Fitted(TrioLabels, SecondCentroids, 1))
  {
    var ps := Shuffled(TrioPoints, TrioPerm);
    assert ps == ShuffledTrio;
    assert Dim(TrioPoints) == 1;
    assert InitialCentroids(ps, 2) == FirstCentroids;
    TrioFirstRound(sqrt);
    TrioSecondRound(sqrt);
  }

  lemma TrioClustering(sqrt: real -> real)
    requires SqrtLaw(sqrt)
    ensures Clustering(sqrt, Trio, 2, Ok(TrioModel), UrlAsHost, TrioPerm) == Ok(Fitted(TrioLabels, SecondCentroids, 1))
  {
    TrioEmbeddings();
    TrioFit(sqrt);
  }

  /** Labels that take exactly the values 0 and 1 give two groups, 0 first. */
  lemma TwoGroups(bs: seq<Bookmark>, labels: seq<nat>)
    requires |bs| == |labels|
    requires 0 in labels && 1 in labels
    requires forall i :: 0 <= i < |labels| ==> labels[i] < 2
    ensures Clusters(bs, labels) == [(0, Members(bs, labels, 0)), (1, Members(bs, labels, 1))]
  {
    var gs := Clusters(bs, labels);
    ClustersByLabel(bs, labels);
    ClustersAtMost(bs, labels, 2);
    assert 0 in KeysOf(gs) && 1 in KeysOf(gs);
    var i :| 0 <= i < |gs| && gs[i].0 == 0;
    var j :| 0 <= j < |gs| && gs[j].0 == 1;
    assert |gs| == 2;
    assert gs[1].0 in KeysOf(gs);
    assert gs[0].0 < gs[1].0 < 2;
  }

  /** Labels [0, 1, 1] give two groups: the first item, then the other two. */
  lemma TrioGroups(bs: seq<Bookmark>)
    requires |bs| == 3
    ensures Clusters(bs, TrioLabels) == [(0, [bs[0]]), (1, [bs[1], bs[2]])]
  {
    assert TrioLabels[0] == 0 && TrioLabels[1] == 1;
    TwoGroups(bs, TrioLabels);
    TrioMembers(bs);
  }

  /** The random sort's order is a permutation of the three positions. */
  lemma TrioPermutes()
    ensures IsPermutation(TrioPerm, 3)
    ensures Permute(Trio, TrioPerm) == [Distant, Origin, Close]
  {
  }

  /** The folders as written: the labels [0, 1, 1] of the shuffled
      embeddings, paired with the bookmarks in their original order. */
  lemma TrioOrganized(sqrt: real -> real)
    requires SqrtLaw(sqrt)
    ensures FixedDimension(TrioModel) && IsPermutation(TrioPerm, |Trio|)
    ensures AutoOrganize.AutoOrganize(sqrt, Trio, 2, Ok(TrioModel), UrlAsHost, TrioPerm)
         == Folders(Clusters(Trio, TrioLabels))
  {
    TrioEmbeddings();
    TrioPermutes();
    TrioClustering(sqrt);
  }

  /** [1] is at squared distance 1 from [0] and 81 from [10]. */
  lemma TrioDistances()
    ensures SqDist([1.0], [0.0]) == 1.0 && SqDist([1.0], [10.0]) == 81.0
  {
    assert SqDist([1.0], [0.0]) == Mul(1.0, 1.0) + SqDist([], []);
    assert SqDist([1.0], [10.0]) == Mul(-9.0, -9.0) + SqDist([], []);
  }

  /** As written: the bookmarks embedded as [1] and [10] share a folder,
      although [1] lies at squared distance 1 from [0] and at 81 from [10],
      while the bookmark embedded as [0] sits alone. */
  lemma FarApartFiledTogether(sqrt: real -> real)
    requires SqrtLaw(sqrt)
    ensures Embed(Trio, UrlAsHost, TrioModel) == Ok(TrioPoints)
    ensures SqDist([1.0], [0.0]) == 1.0 && SqDist([1.0], [10.0]) == 81.0
    ensures FixedDimension(TrioModel) && IsPermutation(TrioPerm, |Trio|)
    ensures var fs := AutoOrganize.AutoOrganize(sqrt, Trio, 2, Ok(TrioModel), UrlAsHost, TrioPerm);
      |fs| == 2 && fs[0].bookmarks == [Origin] && fs[1].bookmarks == [Close, Distant]
  {
    TrioEmbeddings();
    TrioDistances();
    TrioOrganized(sqrt);
    var gs := Clusters(Trio, TrioLabels);
    TrioGroups(Trio);
    assert gs[0].1 == [Origin] && gs[1].1 == [Close, Distant];
  }

  /** Corrected: pairing the labels with the shuffled bookmarks puts the
      neighbours [0] and [1] together and [10] alone. */
  lemma IntendedKeepsNeighbours(sqrt: real -> real)
    requires SqrtLaw(sqrt)
    ensures var fs := AutoOrganizeIntended(sqrt, Trio, 2, Ok(TrioModel), UrlAsHost, TrioPerm);
      |fs| == 2 && fs[0].bookmarks == [Distant] && fs[1].bookmarks == [Origin, Close]
  {
    TrioEmbeddings();
    TrioPermutes();
    TrioClustering(sqrt);
    var shuffled := [Distant, Origin, Close];
    var gs := Clusters(shuffled, TrioLabels);
    TrioGroups(shuffled);
    var fs := AutoOrganizeIntended(sqrt, Trio, 2, Ok(TrioModel), UrlAsHost, TrioPerm);
    assert fs == Folders(gs);
    assert fs[0].bookmarks == gs[0].1 && fs[1].bookmarks == gs[1].1;
  }

  // ----- two bookmarks: a bookmark filed away from its nearest centroid -----

  const FirstSample := Bookmark("alpha", "a")
  const SecondSample := Bookmark("beta", "b")

  /** A model that embeds the first sample's text as [0] and every other text
      as [1]. */
  function TwoPointModel(t: string): Result<Point> {
    if t == EmbeddingText(FirstSample, FirstSample.url) then Ok([0.0]) else Ok([1.0])
  }

  const SwappedPoints: seq<Point> := [[1.0], [0.0]]
  const SwappedCentroids: seq<Option<Point>> := [Some([1.0]), Some([0.0])]

  /** Each swapped point is nearest its own copy among the centroids. */
  lemma SwappedAssign(sqrt: real -> real)
    requires SqrtLaw(sqrt)
    ensures Assign(sqrt, SwappedPoints, SwappedCentroids, 1) == Ok([0, 1])
  {
    var rs := Resolve(SwappedCentroids);
    assert rs == [[1.0], [0.0]];
    assert SqDist([1.0], [1.0]) == 0.0 && SqDist([0.0], [0.0]) == 0.0;
    assert SqDist([1.0], [0.0]) == 1.0 && SqDist([0.0], [1.0]) == 1.0;
    NearerOfTwo(sqrt, [1.0], [1.0], [0.0]);
    NearerOfTwo(sqrt, [0.0], [1.0], [0.0]);
    var a := Assign(sqrt, SwappedPoints, SwappedCentroids, 1);
    assert !HasUndefined(SwappedCentroids);
    assert a.value == [Nearest(sqrt, [1.0], rs), Nearest(sqrt, [0.0], rs)];
  }

  /** One member per cluster: the update reproduces the centroids. */
  lemma SwappedUpdate()
    ensures UpdateCentroids(SwappedPoints, [0, 1], SwappedCentroids, 2, 1) == SwappedCentroids
  {
    var labels: seq<nat> := [0, 1];
    assert Members(SwappedPoints, labels, 0) == [[1.0]];
    assert Members(SwappedPoints, labels, 1) == [[0.0]];
    MeanOfOne([1.0]);
    MeanOfOne([0.0]);
  }

  /** The samples embed as [0] and [1]. */
  lemma SampleEmbeddings()
    ensures FixedDimension(TwoPointModel)
    ensures EmbedOne(FirstSample, UrlAsHost, TwoPointModel) == Ok([0.0])
    ensures Embed([FirstSample, SecondSample], UrlAsHost, TwoPointModel) == Ok([[0.0], [1.0]])
  {
    assert EmbedOne(SecondSample, UrlAsHost, TwoPointModel) == Ok([1.0]) by {
      assert EmbeddingText(SecondSample, SecondSample.url)[0] == 'b';
    }
    var bs := [FirstSample, SecondSample];
    assert bs[0] == FirstSample && bs[1] == SecondSample;
    var es := Embed(bs, UrlAsHost, TwoPointModel);
    assert es.Ok? && |es.value| == 2;
    assert es.value[0] == [0.0] && es.value[1] == [1.0];
    assert es.value == [[0.0], [1.0]];
  }

  /** The first round from the swapped centroids labels the points [0, 1]
      and leaves the centroids as they were. */
  lemma SwappedFirstRound(sqrt: real -> real)
    requires SqrtLaw(sqrt)
    ensures Rounds(sqrt, SwappedPoints, 1, ZeroLabels(2), SwappedCentroids, 2, ToClusterCount, 0, MaxIterations)
         == Rounds(sqrt, SwappedPoints, 1, [0, 1], SwappedCentroids, 2, ToClusterCount, 1, MaxIterations)
  {
    SwappedAssign(sqrt);
    SwappedUpdate();
    assert ZeroLabels(2)[1] == 0;
  }

  /** The second round finds the labels unchanged and stops. */
  lemma SwappedSecondRound(sqrt: real -> real)
    requires SqrtLaw(sqrt)
    ensures Rounds(sqrt, SwappedPoints, 1, [0, 1], SwappedCentroids, 2, ToClusterCount, 1, MaxIterations)
         == Ok(Fitted([0, 1], SwappedCentroids, 1))
  {
    SwappedAssign(sqrt);
  }

  /** From the swapped points as centroids, the first round labels them
      [0, 1] and the centroids stay; the second round changes nothing. */
  lemma SwappedRounds(sqrt: real -> real)
    requires SqrtLaw(sqrt)
    ensures Rounds(sqrt, SwappedPoints, 1, ZeroLabels(2), SwappedCentroids, 2, ToClusterCount, 0, MaxIterations)
         == Ok(Fitted([0, 1], SwappedCentroids, 1))
  {
    SwappedFirstRound(sqrt);
    SwappedSecondRound(sqrt);
  }

  /** Swapping the two points, k-means with two clusters keeps the swapped
      points as centroids and stops after one round. */
  lemma SwappedFit(sqrt: real -> real)
    requires SqrtLaw(sqrt)
    ensures Fit(sqrt, [[0.0], [1.0]], [1, 0], 2, MaxIterations, ToClusterCount)
         == Ok(Fitted([0, 1], SwappedCentroids, 1))
  {
    var es: seq<Point> := [[0.0], [1.0]];
    var ps := Shuffled(es, [1, 0]);
    assert ps == SwappedPoints;
    assert Dim(es) == 1;
    assert InitialCentroids(ps, 2) == SwappedCentroids;
    SwappedRounds(sqrt);
  }

  /** Grouping the samples by [0, 1] puts the first sample alone in the first
      group, labelled 0. */
  lemma SampleGroups()
    ensures var gs := Clusters([FirstSample, SecondSample], [0, 1]);
      |gs| > 0 && gs[0] == (0, [FirstSample])
  {
    var bs := [FirstSample, SecondSample];
    var labels: seq<nat> := [0, 1];
    var gs := Clusters(bs, labels);
    ClustersByLabel(bs, labels);
    assert 0 in labels;
    assert 0 in KeysOf(gs);
    var i :| 0 <= i < |gs| && gs[i].0 == 0;
    assert i == 0;
    assert Members(bs, labels, 0) == [FirstSample];
  }

  /** The k-means fit behind the example. */
  lemma SampleClustering(sqrt: real -> real)
    requires SqrtLaw(sqrt)
    ensures Clustering(sqrt, [FirstSample, SecondSample], 2, Ok(TwoPointModel), UrlAsHost, [1, 0])
         == Ok(Fitted([0, 1], SwappedCentroids, 1))
  {
    SampleEmbeddings();
    SwappedFit(sqrt);
  }

  /** The first folder holds the first sample alone. */
  lemma SampleFirstFolder(sqrt: real -> real)
    requires SqrtLaw(sqrt)
    ensures var a := AutoOrganize.AutoOrganize(sqrt, [FirstSample, SecondSample], 2, Ok(TwoPointModel), UrlAsHost, [1, 0]);
      |a| > 0 && a[0].bookmarks == [FirstSample]
  {
    SampleClustering(sqrt);
    SampleGroups();
  }

  /** [0] is nearest the second swapped centroid, not the first. */
  lemma OriginNearestSecond(sqrt: real -> real)
    requires SqrtLaw(sqrt)
    ensures !Labelled(sqrt, [0.0], Resolve(SwappedCentroids), 0)
  {
    assert Resolve(SwappedCentroids) == [[1.0], [0.0]];
    assert SqDist([0.0], [1.0]) == 1.0 && SqDist([0.0], [0.0]) == 0.0;
    NearerOfTwo(sqrt, [0.0], [1.0], [0.0]);
  }

  /** The pairing as written: with two bookmarks embedded as [0] and [1], a
      shuffle that swaps them and two clusters, k-means converges with the
      labels [0, 1] of the swapped points, and the first folder, cluster 0,
      receives the first bookmark, though its embedding [0] is not nearest
      cluster 0's centroid. */
  lemma ShuffleMisfilesBookmark(sqrt: real -> real)
    requires SqrtLaw(sqrt)
    ensures EmbedOne(FirstSample, UrlAsHost, TwoPointModel) == Ok([0.0])
    ensures !Labelled(sqrt, [0.0], Resolve(SwappedCentroids), 0)
    ensures Clustering(sqrt, [FirstSample, SecondSample], 2, Ok(TwoPointModel), UrlAsHost, [1, 0])
         == Ok(Fitted([0, 1], SwappedCentroids, 1))
    ensures var gs := Clusters([FirstSample, SecondSample], [0, 1]);
      |gs| > 0 && gs[0] == (0, [FirstSample])
    ensures var a := AutoOrganize.AutoOrganize(sqrt, [FirstSample, SecondSample], 2, Ok(TwoPointModel), UrlAsHost, [1, 0]);
      |a| > 0 && a[0].bookmarks == [FirstSample]
  {
    SampleClustering(sqrt);
    SampleGroups();
    SampleFirstFolder(sqrt);
    SampleEmbeddings();
    OriginNearestSecond(sqrt);
  }
}
