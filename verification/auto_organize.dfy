/** `autoOrganizeBookmarks` (`src/utils/auto-organize.ts`): embed every
    bookmark, cluster the embeddings with k-means, and turn each cluster into a
    folder titled after its most frequent words. Any exception along the way
    yields no folders at all.

    The feature-extraction pipeline is a parameter: `extractor` is the loaded
    model or the failure to load it, and the model maps a text to its embedding
    or fails. `hostname` stands for `new URL(url).hostname`, which throws on a
    malformed URL. */
module AutoOrganize {
  import opened Outcomes
  import opened Vectors
  import opened Sorting
  import opened BookmarkTypes
  import opened Grouping
  import opened KMeans
  import opened ClusterTitles

  type Embedder = string -> Result<Point>

  /** The model's vectors all have one dimension. */
  ghost predicate FixedDimension(embed: Embedder) {
    forall s, t :: embed(s).Ok? && embed(t).Ok? ==> |embed(s).value| == |embed(t).value|
  }

  /** `${bookmark.title} ${new URL(bookmark.url).hostname}` */
  function EmbeddingText(b: Bookmark, host: string): string {
    b.title + " " + host
  }

  /** The embedding of one bookmark, or the first failure: the URL parse,
      then the model. */
  function EmbedOne(b: Bookmark, hostname: string -> Result<string>, embed: Embedder): Result<Point> {
    match hostname(b.url)
    case Err(e) => Err(e)
    case Ok(host) => embed(EmbeddingText(b, host))
  }

  /** `Promise.all(bookmarks.map(...))`: every embedding, in bookmark order, or
      a failure as soon as one bookmark fails. */
  function Embed(bs: seq<Bookmark>, hostname: string -> Result<string>, embed: Embedder): (r: Result<seq<Point>>)
    ensures r.Ok? <==> forall i :: 0 <= i < |bs| ==> EmbedOne(bs[i], hostname, embed).Ok?
    ensures r.Ok? ==> |r.value| == |bs|
    ensures r.Ok? ==> forall i :: 0 <= i < |bs| ==> r.value[i] == EmbedOne(bs[i], hostname, embed).value
  {
    if bs == [] then Ok([])
    else
      match EmbedOne(bs[0], hostname, embed)
      case Err(e) => Err(e)
      case Ok(p) =>
        match Embed(bs[1..], hostname, embed)
        case Err(e) => Err(e)
        case Ok(ps) =>
          assert forall i :: 1 <= i < |bs| ==> bs[i] == bs[1..][i - 1];
          Ok([p] + ps)
  }

  /** Embeddings from one model share a dimension. */
  lemma EmbeddingsUniform(bs: seq<Bookmark>, hostname: string -> Result<string>, embed: Embedder)
    requires FixedDimension(embed)
    requires Embed(bs, hostname, embed).Ok?
    ensures Uniform(Embed(bs, hostname, embed).value)
  {
    var es := Embed(bs, hostname, embed).value;
    forall i | 0 <= i < |es|
      ensures |es[i]| == Dim(es)
    {
      var s := EmbedOne(bs[i], hostname, embed);
      var t := EmbedOne(bs[0], hostname, embed);
      assert s.Ok? && t.Ok?;
      assert hostname(bs[i].url).Ok? && hostname(bs[0].url).Ok?;
    }
  }

  /** One folder per cluster: the cluster's bookmarks under its title, with
      no thumbnail. */
  function Folders(gs: seq<(nat, seq<Bookmark>)>): (r: seq<Folder>)
    ensures |r| == |gs|
    ensures forall i :: 0 <= i < |gs| ==>
      r[i].bookmarks == gs[i].1 && r[i].title == Title(gs[i].1) && r[i].thumbnailUrl == None
  {
    seq(|gs|, i requires 0 <= i < |gs| => Folder(Title(gs[i].1), None, gs[i].1))
  }

  /** The outcome of the steps that can fail: the k-means fit, or why there is
      none. */
  function Clustering(sqrt: real -> real, bs: seq<Bookmark>, numClusters: nat,
                      extractor: Result<Embedder>, hostname: string -> Result<string>,
                      perm: seq<nat>): (r: Result<Fitted>)
    requires extractor.Ok? ==> FixedDimension(extractor.value)
    requires IsPermutation(perm, |bs|)
    ensures r.Ok? ==> |r.value.labels| == |bs|
    ensures r.Ok? ==> forall i :: 0 <= i < |bs| ==> r.value.labels[i] == 0 || r.value.labels[i] < numClusters
  {
    match extractor
    case Err(e) => Err(e)
    case Ok(embed) =>
      match Embed(bs, hostname, embed)
      case Err(e) => Err(e)
      case Ok(es) =>
        EmbeddingsUniform(bs, hostname, embed);
        Fit(sqrt, es, perm, numClusters, MaxIterations, ToClusterCount)
  }

  /** `autoOrganizeBookmarks(bookmarks, numClusters)`. The label of position
      `i` in the shuffled embeddings is paired with `bookmarks[i]`, as the
      code does. */
  function AutoOrganize(sqrt: real -> real, bs: seq<Bookmark>, numClusters: nat,
                        extractor: Result<Embedder>, hostname: string -> Result<string>,
                        perm: seq<nat>): (r: seq<Folder>)
    requires extractor.Ok? ==> FixedDimension(extractor.value)
    requires IsPermutation(perm, |bs|)
    ensures extractor.Err? ==> r == []
    ensures extractor.Ok? && Embed(bs, hostname, extractor.value).Err? ==> r == []
    ensures Clustering(sqrt, bs, numClusters, extractor, hostname, perm).Err? ==> r == []
    ensures Clustering(sqrt, bs, numClusters, extractor, hostname, perm).Ok? ==>
      r == Folders(Clusters(bs, Clustering(sqrt, bs, numClusters, extractor, hostname, perm).value.labels))
  {
    match Clustering(sqrt, bs, numClusters, extractor, hostname, perm)
    case Err(_) => []
    case Ok(fitted) => Folders(Clusters(bs, fitted.labels))
  }

  /** The bookmarks of all folders together. */
  function AllBookmarks(fs: seq<Folder>): seq<Bookmark> {
    if fs == [] then [] else fs[0].bookmarks + AllBookmarks(fs[1..])
  }

  lemma {:induction false} FoldersKeepBookmarks(gs: seq<(nat, seq<Bookmark>)>)
    ensures AllBookmarks(Folders(gs)) == Flatten(gs)
  {
    if gs != [] {
      FoldersKeepBookmarks(gs[1..]);
      assert Folders(gs)[1..] == Folders(gs[1..]);
    }
  }

  /** A strictly ascending list of numbers below `b` has at most `b` elements. */
  lemma {:induction false} AscendingBelowBound(ks: seq<nat>, b: nat)
    requires forall i, j :: 0 <= i < j < |ks| ==> ks[i] < ks[j]
    requires forall i :: 0 <= i < |ks| ==> ks[i] < b
    ensures |ks| <= b
    decreases |ks|
  {
    if ks != [] {
      var n := |ks| - 1;
      AscendingBelowBound(ks[..n], ks[n]);
    }
  }

  /** There are no more groups than label values below `b`. */
  lemma ClustersAtMost(bs: seq<Bookmark>, labels: seq<nat>, b: nat)
    requires |labels| == |bs|
    requires forall i :: 0 <= i < |labels| ==> labels[i] < b
    ensures |Clusters(bs, labels)| <= b
  {
    var gs := Clusters(bs, labels);
    ClustersByLabel(bs, labels);
    var ks := seq(|gs|, i requires 0 <= i < |gs| => gs[i].0);
    forall i | 0 <= i < |ks|
      ensures ks[i] < b
    {
      assert ks[i] in KeysOf(gs);
      assert ks[i] in labels;
    }
    AscendingBelowBound(ks, b);
  }

  /** The folders of any labelling partition the bookmarks: together they hold
      every bookmark as often as it was given, none is empty, and with labels
      below `b` there are at most `b` of them. */
  lemma FoldersPartition(bs: seq<Bookmark>, labels: seq<nat>, b: nat)
    requires |labels| == |bs|
    requires forall i :: 0 <= i < |labels| ==> labels[i] < b
    ensures multiset(AllBookmarks(Folders(Clusters(bs, labels)))) == multiset(bs)
    ensures forall i :: 0 <= i < |Clusters(bs, labels)| ==> Folders(Clusters(bs, labels))[i].bookmarks != []
    ensures |Folders(Clusters(bs, labels))| <= b
  {
    var gs := Clusters(bs, labels);
    assert multiset(AllBookmarks(Folders(gs))) == multiset(bs) by {
      ClustersPartition(bs, labels);
      FoldersKeepBookmarks(gs);
    }
    assert forall i :: 0 <= i < |gs| ==> Folders(gs)[i].bookmarks != [] by {
      ClustersByLabel(bs, labels);
    }
    ClustersAtMost(bs, labels, b);
  }

  /** When clustering succeeds, the folders partition the bookmarks: every
      bookmark is in exactly one folder, as often as it was given, no folder is
      empty, and there are at most `numClusters` folders (one, for zero
      clusters). */
  lemma AutoOrganizePartitions(sqrt: real -> real, bs: seq<Bookmark>, numClusters: nat,
                               extractor: Result<Embedder>, hostname: string -> Result<string>,
                               perm: seq<nat>)
    requires extractor.Ok? ==> FixedDimension(extractor.value)
    requires IsPermutation(perm, |bs|)
    requires Clustering(sqrt, bs, numClusters, extractor, hostname, perm).Ok?
    ensures multiset(AllBookmarks(AutoOrganize(sqrt, bs, numClusters, extractor, hostname, perm))) == multiset(bs)
    ensures forall i :: 0 <= i < |AutoOrganize(sqrt, bs, numClusters, extractor, hostname, perm)| ==>
      AutoOrganize(sqrt, bs, numClusters, extractor, hostname, perm)[i].bookmarks != []
    ensures |AutoOrganize(sqrt, bs, numClusters, extractor, hostname, perm)| <= if numClusters == 0 then 1 else numClusters
  {
    var labels := Clustering(sqrt, bs, numClusters, extractor, hostname, perm).value.labels;
    FoldersPartition(bs, labels, if numClusters == 0 then 1 else numClusters);
  }

  /** No bookmarks, no folders. */
  lemma NothingToOrganize(sqrt: real -> real, numClusters: nat, extractor: Result<Embedder>,
                          hostname: string -> Result<string>)
    requires extractor.Ok? ==> FixedDimension(extractor.value)
    ensures AutoOrganize(sqrt, [], numClusters, extractor, hostname, []) == []
  {
    if extractor.Ok? {
      var c := Clustering(sqrt, [], numClusters, extractor, hostname, []);
      if c.Ok? {
        var none: seq<Bookmark> := [];
        assert Clusters(none, c.value.labels) == [] by {
          assert c.value.labels == [];
          ClustersByLabel(none, c.value.labels);
        }
      }
    }
  }

  // ----- pairing labels with bookmarks -----

  /** The k-means labels belong to the shuffled embeddings. Grouping the
      bookmarks in that same shuffled order puts every bookmark of a converged
      clustering into the cluster whose centroid is nearest its own
      embedding. */
  lemma ShuffledPairingFilesByOwnEmbedding(sqrt: real -> real, bs: seq<Bookmark>, numClusters: nat,
                                           embed: Embedder, hostname: string -> Result<string>,
                                           perm: seq<nat>)
    requires FixedDimension(embed)
    requires IsPermutation(perm, |bs|)
    requires Clustering(sqrt, bs, numClusters, Ok(embed), hostname, perm).Ok?
    requires Clustering(sqrt, bs, numClusters, Ok(embed), hostname, perm).value.iterations < MaxIterations
    ensures var fitted := Clustering(sqrt, bs, numClusters, Ok(embed), hostname, perm).value;
      var gs := Clusters(Permute(bs, perm), fitted.labels);
      forall i, m :: 0 <= i < |gs| && 0 <= m < |gs[i].1| ==>
        EmbedOne(gs[i].1[m], hostname, embed).Ok?
        && SameDim(Resolve(fitted.centroids), |EmbedOne(gs[i].1[m], hostname, embed).value|)
        && Labelled(sqrt, EmbedOne(gs[i].1[m], hostname, embed).value, Resolve(fitted.centroids), gs[i].0)
  {
    var fitted := Clustering(sqrt, bs, numClusters, Ok(embed), hostname, perm).value;
    var es := Embed(bs, hostname, embed).value;
    EmbeddingsUniform(bs, hostname, embed);
    var ps := Shuffled(es, perm);
    var pbs := Permute(bs, perm);
    var labels := fitted.labels;
    var gs := Clusters(pbs, labels);
    assert Assign(sqrt, ps, fitted.centroids, Dim(es)) == Ok(labels);
    ClustersByLabel(pbs, labels);
    forall i, m | 0 <= i < |gs| && 0 <= m < |gs[i].1|
      ensures EmbedOne(gs[i].1[m], hostname, embed).Ok?
      ensures SameDim(Resolve(fitted.centroids), |EmbedOne(gs[i].1[m], hostname, embed).value|)
      ensures Labelled(sqrt, EmbedOne(gs[i].1[m], hostname, embed).value, Resolve(fitted.centroids), gs[i].0)
    {
      var b := gs[i].1[m];
      MembersExactly(pbs, labels, gs[i].0, b);
      var p :| 0 <= p < |pbs| && labels[p] == gs[i].0 && pbs[p] == b;
      assert ps[p] == es[perm[p]] == EmbedOne(b, hostname, embed).value;
    }
  }

  /** The grouping evidently intended: label `i` goes with the bookmark
      whose embedding the shuffle moved to position `i`. */
  function AutoOrganizeIntended(sqrt: real -> real, bs: seq<Bookmark>, numClusters: nat,
                                extractor: Result<Embedder>, hostname: string -> Result<string>,
                                perm: seq<nat>): (r: seq<Folder>)
    requires extractor.Ok? ==> FixedDimension(extractor.value)
    requires IsPermutation(perm, |bs|)
    ensures Clustering(sqrt, bs, numClusters, extractor, hostname, perm).Err? ==> r == []
    ensures Clustering(sqrt, bs, numClusters, extractor, hostname, perm).Ok? ==>
      multiset(AllBookmarks(r)) == multiset(bs)
      && (forall i :: 0 <= i < |r| ==> r[i].bookmarks != [])
      && |r| <= if numClusters == 0 then 1 else numClusters
  {
    match Clustering(sqrt, bs, numClusters, extractor, hostname, perm)
    case Err(_) => []
    case Ok(fitted) =>
      var shuffled := Permute(bs, perm);
      FoldersPartition(shuffled, fitted.labels, if numClusters == 0 then 1 else numClusters);
      PermuteMultiset(bs, perm);
      Folders(Clusters(shuffled, fitted.labels))
  }

  /** Under the intended grouping, every bookmark of a converged clustering
      sits in a folder whose cluster centroid is nearest its own embedding. */
  lemma IntendedFilesByOwnEmbedding(sqrt: real -> real, bs: seq<Bookmark>, numClusters: nat,
                                    embed: Embedder, hostname: string -> Result<string>,
                                    perm: seq<nat>)
    requires FixedDimension(embed)
    requires IsPermutation(perm, |bs|)
    requires Clustering(sqrt, bs, numClusters, Ok(embed), hostname, perm).Ok?
    requires Clustering(sqrt, bs, numClusters, Ok(embed), hostname, perm).value.iterations < MaxIterations
    ensures var fitted := Clustering(sqrt, bs, numClusters, Ok(embed), hostname, perm).value;
      var fs := AutoOrganizeIntended(sqrt, bs, numClusters, Ok(embed), hostname, perm);
      var gs := Clusters(Permute(bs, perm), fitted.labels);
      |fs| == |gs|
      && forall i, m :: 0 <= i < |fs| && 0 <= m < |fs[i].bookmarks| ==>
        EmbedOne(fs[i].bookmarks[m], hostname, embed).Ok?
        && SameDim(Resolve(fitted.centroids), |EmbedOne(fs[i].bookmarks[m], hostname, embed).value|)
        && Labelled(sqrt, EmbedOne(fs[i].bookmarks[m], hostname, embed).value, Resolve(fitted.centroids), gs[i].0)
  {
    ShuffledPairingFilesByOwnEmbedding(sqrt, bs, numClusters, embed, hostname, perm);
  }

  /** Between two centroids, the one at the smaller squared distance is the
      nearest. */
  lemma NearerOfTwo(sqrt: real -> real, p: Point, c0: Point, c1: Point)
    requires SqrtLaw(sqrt)
    requires |c0| == |p| && |c1| == |p|
    requires SqDist(p, c0) != SqDist(p, c1)
    ensures Nearest(sqrt, p, [c0, c1]) == if SqDist(p, c0) < SqDist(p, c1) then 0 else 1
  {
    var cs := [c0, c1];
    var r := Nearest(sqrt, p, cs);
    assert Distance(sqrt, p, cs[0]) == sqrt(SqDist(p, c0));
    assert Distance(sqrt, p, cs[1]) == sqrt(SqDist(p, c1));
    SqrtMonotone(sqrt, SqDist(p, c0), SqDist(p, c1));
    SqrtMonotone(sqrt, SqDist(p, c1), SqDist(p, c0));
    assert Closest(sqrt, p, cs, r);
  }
}
