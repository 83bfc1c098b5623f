/** `smartSearch` (`src/utils/smart-search.ts`): embed the lower-cased query,
    score every bookmark of every folder by the cosine similarity of its
    embedding to the query's, and return the bookmarks scoring above 0.5,
    best first. Any exception yields no results at all.

    The square root, the model loader and the model itself are parameters,
    as in `Vectors` and `EmbeddingProvider`. */
module SmartSearch {
  import opened Outcomes
  import opened Vectors
  import opened Sorting
  import opened Text
  import opened BookmarkTypes
  import opened EmbeddingProvider

  /** Only scores strictly above this are returned. */
  const Threshold: real := 0.5

  /** A bookmark with the title of the folder it was found in. */
  datatype Entry = Entry(bookmark: Bookmark, folderTitle: string)

  /** `BookmarkWithScore`: the bookmark's fields, its score and its folder. */
  datatype Scored = Scored(bookmark: Bookmark, score: real, folderTitle: string)

  /** The result of a search, with the model cache afterwards. */
  datatype Search<M> = Search(results: seq<Scored>, cache: Option<M>)

  // ----- flattening with provenance -----

  /** The bookmarks of one folder, each tagged with the folder's title. */
  function Tagged(f: Folder): (r: seq<Entry>)
    ensures |r| == |f.bookmarks|
    ensures forall j :: 0 <= j < |r| ==> r[j] == Entry(f.bookmarks[j], f.title)
  {
    seq(|f.bookmarks|, j requires 0 <= j < |f.bookmarks| => Entry(f.bookmarks[j], f.title))
  }

  /** The number of bookmarks in all folders. */
  function Count(fs: seq<Folder>): nat {
    if fs == [] then 0 else |fs[0].bookmarks| + Count(fs[1..])
  }

  /** The nested `for ... of` loops: folder by folder, bookmark by bookmark. */
  function Entries(fs: seq<Folder>): (r: seq<Entry>)
    ensures |r| == Count(fs)
  {
    if fs == [] then [] else Tagged(fs[0]) + Entries(fs[1..])
  }

  /** Bookmark `j` of folder `f` is entry number (bookmarks in the folders
      before `f`) + `j`, tagged with folder `f`'s title: one entry per
      bookmark, in folder-then-bookmark order. */
  lemma {:induction false} EntriesAt(fs: seq<Folder>, f: nat, j: nat)
    requires f < |fs| && j < |fs[f].bookmarks|
    ensures Count(fs[..f]) + j < |Entries(fs)|
    ensures Entries(fs)[Count(fs[..f]) + j] == Entry(fs[f].bookmarks[j], fs[f].title)
  {
    if f == 0 {
      assert fs[..0] == [];
    } else {
      var rest := fs[1..];
      EntriesAt(rest, f - 1, j);
      assert fs[..f][0] == fs[0] && fs[..f][1..] == rest[..f - 1];
      assert Count(fs[..f]) == |fs[0].bookmarks| + Count(rest[..f - 1]);
      assert rest[f - 1] == fs[f];
    }
  }

  // ----- scoring -----

  predicate NonZero(p: Point) {
    exists i :: 0 <= i < |p| && p[i] != 0.0
  }

  /** `cosineSimilarity(a, b)` for vectors of one dimension, neither zero. */
  function Similarity(sqrt: real -> real, a: Point, b: Point): real
    requires SqrtLaw(sqrt) && |a| == |b| && NonZero(a) && NonZero(b)
  {
    MagnitudesPositive(sqrt, a, b);
    Cosine(sqrt, a, b)
  }

  /** `` `${bookmark.title} ${bookmark.url}`.toLowerCase() `` */
  function BookmarkText(b: Bookmark): string {
    ToLower(b.title + " " + b.url)
  }

  /** Every vector model `m` yields for `t` has the query's dimension and is
      not zero. */
  ghost predicate Fits<M>(run: (M, string) -> Result<Point>, m: M, q: Point) {
    forall t :: run(m, t).Ok? ==> |run(m, t).value| == |q| && NonZero(run(m, t).value)
  }

  /** The scores as a plain map over the entries: an independent statement
      of what the loop computes when every embedding succeeds. */
  function Scores<M>(sqrt: real -> real, q: Point, m: M, es: seq<Entry>,
                     run: (M, string) -> Result<Point>): (r: seq<Scored>)
    requires SqrtLaw(sqrt) && NonZero(q) && Fits(run, m, q)
    requires forall i :: 0 <= i < |es| ==> run(m, BookmarkText(es[i].bookmark)).Ok?
    ensures |r| == |es|
  {
    seq(|es|, i requires 0 <= i < |es| =>
      Scored(es[i].bookmark, Similarity(sqrt, q, run(m, BookmarkText(es[i].bookmark)).value), es[i].folderTitle))
  }

  /** The loop body over the entries: fetch each embedding through
      `getEmbeddings` (which finds the model already cached) and push the
      scored bookmark; the first failure ends the loop. */
  function ScoreAll<M>(sqrt: real -> real, q: Point, es: seq<Entry>, cache: Option<M>,
                       load: Device -> Result<M>, run: (M, string) -> Result<Point>): (r: Run<M, seq<Scored>>)
    requires SqrtLaw(sqrt) && NonZero(q)
    requires cache.Some? && Fits(run, cache.value, q)
    ensures r.cache == cache
  {
    if es == [] then Run(Ok([]), cache)
    else
      var e := GetEmbeddings(BookmarkText(es[0].bookmark), cache, load, run);
      match e.outcome
      case Err(x) => Run(Err(x), e.cache)
      case Ok(v) =>
        var s := Scored(es[0].bookmark, Similarity(sqrt, q, v), es[0].folderTitle);
        var rest := ScoreAll(sqrt, q, es[1..], e.cache, load, run);
        match rest.outcome
        case Err(x) => Run(Err(x), rest.cache)
        case Ok(ss) => Run(Ok([s] + ss), rest.cache)
  }

  /** The loop succeeds exactly when every bookmark embeds, and then its
      results are the scores, in entry order. */
  lemma {:induction false} ScoreAllScores<M>(sqrt: real -> real, q: Point, es: seq<Entry>, cache: Option<M>,
                                             load: Device -> Result<M>, run: (M, string) -> Result<Point>)
    requires SqrtLaw(sqrt) && NonZero(q)
    requires cache.Some? && Fits(run, cache.value, q)
    ensures var r := ScoreAll(sqrt, q, es, cache, load, run);
      r.outcome.Ok? <==> forall i :: 0 <= i < |es| ==> run(cache.value, BookmarkText(es[i].bookmark)).Ok?
    ensures var r := ScoreAll(sqrt, q, es, cache, load, run);
      r.outcome.Ok? ==> r.outcome.value == Scores(sqrt, q, cache.value, es, run)
  {
    if es != [] {
      var text := BookmarkText(es[0].bookmark);
      assert GetEmbeddings(text, cache, load, run) == Run(run(cache.value, text), cache);
      ScoreAllScores(sqrt, q, es[1..], cache, load, run);
      assert forall i :: 1 <= i < |es| ==> es[i] == es[1..][i - 1];
    }
  }

  // ----- ranking -----

  /** `filter(result => result.score > 0.5)` */
  function Above(ss: seq<Scored>): (r: seq<Scored>)
    ensures forall i :: 0 <= i < |r| ==> r[i].score > Threshold
  {
    if ss == [] then []
    else (if ss[0].score > Threshold then [ss[0]] else []) + Above(ss[1..])
  }

  /** The filter keeps every copy of a high-scoring entry and no copy of
      another. */
  lemma {:induction false} AboveCounts(ss: seq<Scored>, x: Scored)
    ensures multiset(Above(ss))[x] == if x.score > Threshold then multiset(ss)[x] else 0
  {
    if ss != [] {
      AboveCounts(ss[1..], x);
      assert ss == [ss[0]] + ss[1..];
    }
  }

  function ByScore(s: Scored): real {
    -s.score
  }

  /** `sort((a, b) => b.score - a.score).filter(...)`: highest score first,
      then the threshold. */
  function Rank(ss: seq<Scored>): (r: seq<Scored>)
    ensures forall i, j :: 0 <= i < j < |r| ==> r[i].score >= r[j].score
    ensures forall i :: 0 <= i < |r| ==> r[i].score > Threshold
  {
    var sorted := SortBy(ss, ByScore);
    FilterKeepsSorted(sorted);
    Above(sorted)
  }

  /** Every kept entry is an entry of the input. */
  lemma {:induction false} AboveFrom(ss: seq<Scored>, k: nat) returns (m: nat)
    requires k < |Above(ss)|
    ensures m < |ss| && ss[m] == Above(ss)[k]
  {
    assert ss != [];
    var head := if ss[0].score > Threshold then [ss[0]] else [];
    assert Above(ss) == head + Above(ss[1..]);
    if k < |head| {
      m := 0;
    } else {
      var j := AboveFrom(ss[1..], k - |head|);
      m := j + 1;
    }
  }

  /** Filtering a sequence sorted best first keeps it sorted. */
  lemma {:induction false} FilterKeepsSorted(ss: seq<Scored>)
    requires SortedBy(ss, ByScore)
    ensures forall i, j :: 0 <= i < j < |Above(ss)| ==> Above(ss)[i].score >= Above(ss)[j].score
  {
    if ss != [] {
      var rest := ss[1..];
      assert SortedBy(rest, ByScore) by {
        forall i, j | 0 <= i < j < |rest|
          ensures ByScore(rest[i]) <= ByScore(rest[j])
        {
          assert rest[i] == ss[i + 1] && rest[j] == ss[j + 1];
        }
      }
      FilterKeepsSorted(rest);
      var a := Above(rest);
      forall k | 0 <= k < |a|
        ensures ss[0].score >= a[k].score
      {
        var m := AboveFrom(rest, k);
        assert ByScore(ss[0]) <= ByScore(ss[m + 1]);
      }
    }
  }

  /** The ranked results hold each scored entry above the threshold exactly
      as often as the scores do, and nothing else. */
  lemma RankCounts(ss: seq<Scored>, x: Scored)
    ensures multiset(Rank(ss))[x] == if x.score > Threshold then multiset(ss)[x] else 0
  {
    AboveCounts(SortBy(ss, ByScore), x);
  }

  // ----- the search -----

  /** One model gives every text a vector of one dimension, never zero. */
  ghost predicate Consistent<M(!new)>(run: (M, string) -> Result<Point>) {
    forall m, s, t :: run(m, s).Ok? && run(m, t).Ok? ==>
      |run(m, s).value| == |run(m, t).value| && NonZero(run(m, s).value)
  }

  /** `smartSearch(query, folders)`: the query embedding first, then one
      score per bookmark; any failure gives `[]`. */
  function SmartSearch<M(!new)>(sqrt: real -> real, query: string, fs: seq<Folder>, cache: Option<M>,
                          load: Device -> Result<M>, run: (M, string) -> Result<Point>): (r: Search<M>)
    requires SqrtLaw(sqrt) && Consistent(run)
    ensures forall i, j :: 0 <= i < j < |r.results| ==> r.results[i].score >= r.results[j].score
    ensures forall i :: 0 <= i < |r.results| ==> r.results[i].score > Threshold
    ensures var qe := GetEmbeddings(ToLower(query), cache, load, run);
      qe.outcome.Err? ==> r == Search([], qe.cache)
    ensures var qe := GetEmbeddings(ToLower(query), cache, load, run);
      qe.outcome.Ok? ==> r.cache == qe.cache
    ensures var qe := GetEmbeddings(ToLower(query), cache, load, run);
      qe.outcome.Ok? && (exists i :: 0 <= i < Count(fs) && run(qe.cache.value, BookmarkText(Entries(fs)[i].bookmark)).Err?)
      ==> r.results == []
  {
    var qe := GetEmbeddings(ToLower(query), cache, load, run);
    match qe.outcome
    case Err(_) => Search([], qe.cache)
    case Ok(q) =>
      var m := qe.cache.value;
      assert NonZero(q) && Fits(run, m, q);
      var scored := ScoreAll(sqrt, q, Entries(fs), qe.cache, load, run);
      ScoreAllScores(sqrt, q, Entries(fs), qe.cache, load, run);
      match scored.outcome
      case Err(_) => Search([], scored.cache)
      case Ok(ss) => Search(Rank(ss), scored.cache)
  }

  /** When the query and every bookmark embed, the results are the scored
      bookmarks above the threshold, each as often as it was scored: the
      query is lower-cased, each bookmark's text is its lower-cased title and
      URL, and the scores are taken against the one cached model. */
  lemma SearchFindsAboveThreshold<M(!new)>(sqrt: real -> real, query: string, fs: seq<Folder>, cache: Option<M>,
                                     load: Device -> Result<M>, run: (M, string) -> Result<Point>, x: Scored)
    requires SqrtLaw(sqrt) && Consistent(run)
    requires GetEmbeddings(ToLower(query), cache, load, run).outcome.Ok?
    requires var m := GetEmbeddings(ToLower(query), cache, load, run).cache.value;
      forall i :: 0 <= i < Count(fs) ==> run(m, BookmarkText(Entries(fs)[i].bookmark)).Ok?
    ensures var qe := GetEmbeddings(ToLower(query), cache, load, run);
      NonZero(qe.outcome.value) && Fits(run, qe.cache.value, qe.outcome.value)
    ensures var qe := GetEmbeddings(ToLower(query), cache, load, run);
      multiset(SmartSearch(sqrt, query, fs, cache, load, run).results)[x]
      == if x.score > Threshold
         then multiset(Scores(sqrt, qe.outcome.value, qe.cache.value, Entries(fs), run))[x]
         else 0
  {
    var qe := GetEmbeddings(ToLower(query), cache, load, run);
    var q, m := qe.outcome.value, qe.cache.value;
    assert NonZero(q) && Fits(run, m, q);
    var scored := ScoreAll(sqrt, q, Entries(fs), qe.cache, load, run);
    ScoreAllScores(sqrt, q, Entries(fs), qe.cache, load, run);
    RankCounts(scored.outcome.value, x);
  }
}
