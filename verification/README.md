# Bookmark gallery: a Dafny model of its pure cores

The bookmark gallery is a browser extension. It shows the user's Chrome bookmarks as folders of cards. This project models the parts of it that are plain computation, and proves properties of them:

- **Automatic organisation** (`src/utils/auto-organize.ts`). Each bookmark is embedded as a vector. The vectors are clustered with a hand-written k-means, and each cluster becomes a folder. The folder is titled after the two most frequent words longer than three characters in its bookmark titles. Modules: `Vectors`, `KMeans`, `Grouping`, `ClusterTitles`, `AutoOrganize`. `ShuffleExample` works out a three-bookmark run that shows how the code pairs cluster labels with bookmarks (see Findings).
- **Smart search** (`src/utils/smart-search.ts`):
  - `EmbeddingProvider` models the cached embedding model and its WebGPU → WASM → CPU fallback.
  - `SmartSearch` scores every bookmark by cosine similarity to the query. It keeps the scores above 0.5, best first.
- **Two flattenings of the Chrome bookmark tree** into folders and a quick-access row:
  - `TreeProcessor` models `src/utils/bookmark-processor.utils.ts`.
  - `FolderProcessing` models `src/lib/bookmarkProcessing.ts`.
  - `SampleTrees` works out what both produce for the development sample tree from `src/utils/chrome/fetch-bookmarks.ts`.
- **The development-mode updaters** of the folder list: remove a bookmark, delete a folder, add a bookmark. Module: `DevUpdates`.

Shared pieces:

- `Outcomes` has `Option` and `Result`. A `Result` stands for a computation that may throw.
- `Sorting` is a stable sort by a real key. It also defines the permutation that models a random shuffle.
- `Text` models ASCII case mapping, `split(/\W+/)` and `join`.
- `BookmarkTypes` holds the data shapes.

Parameters stand in for what the model cannot see:

- **Square root.** `Math.sqrt` is a parameter `sqrt`. Proofs that need a true square root assume `SqrtLaw(sqrt)`.
- **Embedding model.** The feature-extraction pipeline is a parameter that may fail, and so are its device loads.
- **URL parsing.** `new URL(url).hostname` is a parameter that may fail.
- **Random shuffle.** `sort(() => Math.random() - 0.5)` becomes a permutation `perm` of the positions.

Coordinates and scores are `real`.

## Model

| member | source | states |
|---|---|---|
| Sorting.SortBy | src/utils/smart-search.ts:75-76 | The result is sorted by the key and is a permutation (same multiset) of the input. |
| Sorting.InsertSorted | src/utils/smart-search.ts:75-76 | Inserting into a sorted sequence keeps it sorted. |
| Sorting.Permute | src/utils/auto-organize.ts:52-53 | Shuffling by a permutation keeps the length; position `i` holds the element from position `perm[i]`. |
| Sorting.PermuteMultiset | src/utils/auto-organize.ts:52-53 | A shuffle keeps every element exactly as often as it was. |
| Text.ToLower | src/utils/smart-search.ts:63 | Lower-casing keeps the length and maps each character on its own. |
| Text.ToLowerIdempotent | src/utils/smart-search.ts:58 | Lower-casing twice is lower-casing once. |
| Text.ToLowerConcat | src/utils/smart-search.ts:63 | Lower-casing `title + " " + url` lower-cases each part. |
| Text.Words | src/utils/auto-organize.ts:128 | Every piece of `split(/\W+/)` kept by the model is a non-empty run of word characters. |
| Text.WordsOfWord | src/utils/auto-organize.ts:128 | A single word splits into itself. |
| Text.WordsSeparated | src/utils/auto-organize.ts:128 | Splitting at a non-word character splits each side on its own. |
| Text.Join | src/utils/auto-organize.ts:141 | Joining no words gives "", one word gives that word, two words give the first, the separator, then the second, and more words are at least as long as the first. |
| Text.JoinSnoc | src/utils/auto-organize.ts:141 | Joining one more word appends the separator and that word to the join of the others. |
| Text.Capitalize | src/utils/auto-organize.ts:138 | `w[0].toUpperCase() + w.slice(1)` changes only the first character, to its upper case. |
| BookmarkTypes.DirectLinks | src/utils/bookmark-processor.utils.ts:27-32 | The direct links are empty exactly when no child has a URL; each one is some URL-bearing child's title and URL. |
| BookmarkTypes.DirectLinksAppend | src/utils/bookmark-processor.utils.ts:27-32 | The filter-and-map distributes over concatenation of the children. |
| BookmarkTypes.DirectLinksComplete | src/utils/bookmark-processor.utils.ts:27-32 | Every child with a URL contributes its title and URL to the direct links. |
| BookmarkTypes.DirectLinksOfOne | src/utils/bookmark-processor.utils.ts:27-32 | One child yields its own link when it has a URL and nothing otherwise; with the append law this fixes the direct links in child order. |
| TreeProcessor.Links | src/utils/bookmark-processor.utils.ts:3-20 | A node with a URL lists its own link first; there are as many links as URL-bearing nodes in the subtree. |
| TreeProcessor.LinksOfForest | src/utils/bookmark-processor.utils.ts:13-17 | The children's links number as many as the URL-bearing nodes below them. |
| TreeProcessor.LinksMembership | src/utils/bookmark-processor.utils.ts:3-20 | A link is listed exactly when some URL-bearing node of the subtree has it. |
| TreeProcessor.LinksOfForestMembership | src/utils/bookmark-processor.utils.ts:13-17 | The same, for a list of children. |
| TreeProcessor.FolderNode | src/utils/bookmark-processor.utils.ts:22-52 | Every entry has at least one link and no thumbnail; a URL-less node with children and a direct link is listed first, before its descendants. |
| TreeProcessor.FolderForest | src/utils/bookmark-processor.utils.ts:43-49 | The recursion into sub-folders yields only entries with links. |
| TreeProcessor.FolderNodeMembership | src/utils/bookmark-processor.utils.ts:22-52 | An entry appears exactly when it is the entry of a folder with direct links that is reachable through URL-less folders. |
| TreeProcessor.FolderNodeSound | src/utils/bookmark-processor.utils.ts:22-52 | Every entry of `processFolderNode` is the entry of some link folder reached from the node. |
| TreeProcessor.FolderNodeComplete | src/utils/bookmark-processor.utils.ts:22-52 | Every link folder reached from the node has its entry listed. |
| TreeProcessor.FolderForestMembership | src/utils/bookmark-processor.utils.ts:43-49 | The same, for the children that are folders. |
| TreeProcessor.ReachesInSubtree | src/utils/bookmark-processor.utils.ts:43-49 | Whatever the recursion reaches lies in the subtree. |
| TreeProcessor.SamplePinnedBookmarks | src/utils/bookmark-processor.utils.ts:108-113 | There are four sample pins, each with a URL. |
| TreeProcessor.FindByTitle | src/utils/bookmark-processor.utils.ts:68 | `find` returns the first node with the exact title, or nothing exactly when none has it. |
| TreeProcessor.BarOf | src/utils/bookmark-processor.utils.ts:68 | A bar that is found is titled "Bookmarks Bar" and is a child of the first root. |
| TreeProcessor.RootFolders | src/utils/bookmark-processor.utils.ts:63-65 | The root pass yields only entries with links. |
| TreeProcessor.RootFoldersMembership | src/utils/bookmark-processor.utils.ts:63-65 | A root-pass entry is exactly the entry of a folder with links reachable from some root. |
| TreeProcessor.BarFolders | src/utils/bookmark-processor.utils.ts:89-96 | The bar pass over the bar's folder children yields only entries with links. |
| TreeProcessor.ProcessBookmarks | src/utils/bookmark-processor.utils.ts:54-106 | The folders are the root pass's entries, then a "Bookmarks Bar" entry holding the bar's direct links exactly when there are any, then the bar pass's entries. Every folder has links. Quick access is the bar's first six direct links, or else the four sample pins, so it holds 1 to 6 links. |
| TreeProcessor.ProcessBookmarksComplete | src/utils/bookmark-processor.utils.ts:62-65 | Every folder with direct links reachable from a root through URL-less folders has its entry among the output folders. |
| TreeProcessor.ProcessBookmarksSound | src/utils/bookmark-processor.utils.ts:63-96 | Every output folder is the Bookmarks Bar entry or the entry of a folder with links somewhere in the input. |
| TreeProcessor.BarSubfoldersRepeated | src/utils/bookmark-processor.utils.ts:89-96 | A folder from the bar pass also comes out of the root pass, so it is listed at least twice. |
| TreeProcessor.BarReachedFromFirstRoot | src/utils/bookmark-processor.utils.ts:63-68 | Folders under the bar are reached from the first root. |
| FolderProcessing.FolderOf | src/lib/bookmarkProcessing.ts:16-27 | The folder keeps the node's title and has no thumbnail. |
| FolderProcessing.Record | src/lib/bookmarkProcessing.ts:24-31 | Pushing a folder appends it and pins at most one more link. |
| FolderProcessing.Preorder | src/lib/bookmarkProcessing.ts:8-37 | A skipped node yields nothing; a URL-less node with children yields its own folder first. |
| FolderProcessing.Leads | src/lib/bookmarkProcessing.ts:29-31 | There is at most one lead link per folder. |
| FolderProcessing.LeadsAreFirstLinks | src/lib/bookmarkProcessing.ts:29-31 | Each lead is the first link of some non-empty folder. |
| FolderProcessing.Cap | src/lib/bookmarkProcessing.ts:29 | At most six links are pinned. |
| FolderProcessing.CapAppend | src/lib/bookmarkProcessing.ts:29-31 | Capping as links arrive is capping once at the end. |
| FolderProcessing.RecordSpec | src/lib/bookmarkProcessing.ts:24-31 | One push extends the pins by the folder's lead, capped. |
| FolderProcessing.VisitSpec | src/lib/bookmarkProcessing.ts:8-37 | Walking a node with the two arrays appends its pre-order folders and their capped leads. |
| FolderProcessing.VisitAllSpec | src/lib/bookmarkProcessing.ts:34-39 | The same, for a list of nodes. |
| FolderProcessing.ProcessBookmarks | src/lib/bookmarkProcessing.ts:3-42 | The folders are the pre-order list; quick access is their first links, capped at six. |
| FolderProcessing.PreorderMembership | src/lib/bookmarkProcessing.ts:8-37 | A folder is listed exactly when a non-skipped URL-less node with children is visited. Skipped subtrees are not entered; children of nodes with URLs are. |
| FolderProcessing.PreorderAllMembership | src/lib/bookmarkProcessing.ts:39 | The same, across the roots. |
| FolderProcessing.QuickAccessFromFolders | src/lib/bookmarkProcessing.ts:29-31 | Every pin is the first link of an output folder, and there are at most six. |
| SampleTrees.SampleDevelopmentEntry | src/utils/chrome/fetch-bookmarks.ts:12-30 | The "Development" folder yields its two links. |
| SampleTrees.SampleSocialEntry | src/utils/chrome/fetch-bookmarks.ts:31-49 | The "Social" folder yields its two links. |
| SampleTrees.SampleBarEntries | src/utils/chrome/fetch-bookmarks.ts:7-51 | The sample bar has no direct links and two sub-folders. |
| SampleTrees.SampleTreeProcessedByTreeProcessor | src/utils/bookmark-processor.utils.ts:54-106 | On the sample tree: both sub-folders twice, and the four sample pins. |
| SampleTrees.PreorderOfDevelopment | src/lib/bookmarkProcessing.ts:8-37 | The pre-order of "Development" is its one folder. |
| SampleTrees.PreorderOfSocial | src/lib/bookmarkProcessing.ts:8-37 | The pre-order of "Social" is its one folder. |
| SampleTrees.PreorderOfSampleTree | src/lib/bookmarkProcessing.ts:3-42 | The sample yields "root", "Bookmarks Bar" (both empty), "Development", "Social". |
| SampleTrees.SampleTreeProcessedByFolderProcessing | src/lib/bookmarkProcessing.ts:3-42 | The same folders; quick access is GitHub and Twitter. |
| DevUpdates.WithoutUrl | src/hooks/useBookmarks.tsx:78 | No kept link has the URL. Every other link is kept as often as it was, and order is kept. |
| DevUpdates.RemoveBookmark | src/hooks/useBookmarks.tsx:73-83 | Folder count, order, titles and thumbnails are kept. Other folders are unchanged. A matching folder keeps an ordered sub-list without the URL. |
| DevUpdates.WithoutUrlIdempotent | src/hooks/useBookmarks.tsx:78 | Filtering twice is filtering once. |
| DevUpdates.WithoutUrlKeepsClean | src/hooks/useBookmarks.tsx:78 | A list without the URL is left as it is. |
| DevUpdates.RemoveBookmarkIdempotent | src/hooks/useBookmarks.tsx:73-83 | Removing twice is removing once. |
| DevUpdates.DeleteFolder | src/hooks/useBookmarks.tsx:111-113 | Exactly the folders with the title go. The rest stay, as often as they were and in order. |
| DevUpdates.DeleteFolderIdempotent | src/hooks/useBookmarks.tsx:111-113 | Deleting twice is deleting once. |
| DevUpdates.CreateDevBookmark | src/lib/bookmarkCreation.ts:32-50 | Other folders are unchanged. A matching folder keeps its title, thumbnail and links as a prefix, followed by `{title, url}`. The `folders` argument is unread. |
| DevUpdates.CreateDevBookmarkCount | src/lib/bookmarkCreation.ts:39-49 | The total link count grows by the number of matching folders. |
| DevUpdates.CreateDevBookmarkNoMatch | src/lib/bookmarkCreation.ts:39-49 | With no matching folder the list is unchanged. |
| Vectors.SqDist | src/utils/auto-organize.ts:15-19 | The sum of squared differences is never negative. |
| Vectors.SqDistSelf | src/utils/auto-organize.ts:15-19 | A point is at squared distance 0 from itself. |
| Vectors.SqDistPositive | src/utils/auto-organize.ts:15-19 | Two different points of one dimension are at a positive squared distance. |
| Vectors.SqrtMonotone | src/utils/auto-organize.ts:16-18 | Under a true square root, comparing distances is comparing squared distances. |
| Vectors.DotSymmetric | src/utils/smart-search.ts:45 | The dot product is symmetric. |
| Vectors.DotSelf | src/utils/smart-search.ts:46-47 | `a·a` is non-negative, and zero exactly for the zero vector. |
| Vectors.MagnitudesPositive | src/utils/smart-search.ts:46-48 | For non-zero vectors the denominator `‖a‖·‖b‖` is positive. |
| Vectors.CosineSymmetric | src/utils/smart-search.ts:44-49 | Cosine similarity is symmetric. |
| Vectors.CosineSelf | src/utils/smart-search.ts:44-49 | A non-zero vector has similarity 1 with itself. |
| KMeans.NearestFrom | src/utils/auto-organize.ts:26-32 | The `forEach` with a strict `<` returns a closest index, lowest on ties (0 when there are no centroids). |
| KMeans.Nearest | src/utils/auto-organize.ts:22-35 | `nearestCentroid` returns 0 with no centroids, and otherwise the lowest index at minimal distance. |
| KMeans.NearestIsUnique | src/utils/auto-organize.ts:22-35 | That index is the only one that is closest and lowest on ties. |
| KMeans.ClosestBySquares | src/utils/auto-organize.ts:15-35 | The nearest centroid by distance is the nearest by squared distance. |
| AutoOrganize.NearerOfTwo | src/utils/auto-organize.ts:22-35 | Of two centroids, the one at the smaller squared distance is chosen. |
| KMeans.Zeros | src/utils/auto-organize.ts:40 | `new Array(d).fill(0)` has `d` zeros. |
| KMeans.AddPoint | src/utils/auto-organize.ts:43 | Adding a point adds coordinate-wise. |
| KMeans.Accumulate | src/utils/auto-organize.ts:42-44 | Summing the points keeps the dimension. |
| KMeans.AccumulateColumns | src/utils/auto-organize.ts:42-44 | Each coordinate of the sum is the column sum. |
| KMeans.Mean | src/utils/auto-organize.ts:38-47 | The mean has the first point's dimension; each coordinate is the column sum over the point count. |
| KMeans.MeanOfOne | src/utils/auto-organize.ts:38-47 | The mean of one point is that point. |
| KMeans.UpdateCentroids | src/utils/auto-organize.ts:73-78 | There are exactly `k` new centroids (`count`). A cluster with points gets their mean. An empty cluster keeps its previous centroid, or `undefined` past the end of the old list. |
| KMeans.Resolve | src/utils/auto-organize.ts:77 | Reading the centroids keeps their number. |
| KMeans.Assign | src/utils/auto-organize.ts:61-63 | Assignment throws exactly when a centroid is `undefined` and some coordinate is read. Otherwise each point gets its nearest centroid's index. |
| KMeans.Rounds | src/utils/auto-organize.ts:59-81 | The loop ends within `maxIterations` rounds with one label per point, each 0 or below `k`. Stopping early means assignment reproduces the labels. |
| KMeans.RoundsStopsAtFixedPoint | src/utils/auto-organize.ts:59-68 | Conversely, a round before the limit whose assignment reproduces the labels ends the loop there, with those labels and centroids and no update. |
| KMeans.RoundsStep | src/utils/auto-organize.ts:59-80 | A round before the limit whose assignment changes the labels goes on with those labels, every one still 0 or below `k`, and the centroids updated from them. |
| KMeans.Shuffled | src/utils/auto-organize.ts:52-53 | The shuffle keeps the count and dimension of the embeddings. |
| KMeans.ZeroLabels | src/utils/auto-organize.ts:56 | The labels start as `n` zeros. |
| KMeans.InitialCentroids | src/utils/auto-organize.ts:52-54 | The first centroids are the first `min(k, n)` shuffled points. |
| KMeans.Fit | src/utils/auto-organize.ts:50-84 | `fit` gives one label per embedding, each 0 or below `k`, in at most `maxIterations` rounds. Stopping early leaves the labels a fixed point of assignment. |
| KMeans.FitStopsAtOnce | src/utils/auto-organize.ts:52-68 | For any `k` and any number of points, an all-zero first assignment makes `fit` return at once: zero labels, the initial centroids, no round counted. |
| KMeans.OneClusterStopsAtOnce | src/utils/auto-organize.ts:56-68 | With at most one cluster or one point, the first assignment is all zeros and `fit` stops at once. |
| KMeans.AssignedBelow | src/utils/auto-organize.ts:61-63 | Labels index the centroid list. |
| KMeans.UpdatePastEndUndefined | src/utils/auto-organize.ts:73-77 | An empty cluster past the old centroid count gets `undefined`. |
| KMeans.RoundsFailOnUndefined | src/utils/auto-organize.ts:59-63 | A round that starts with an `undefined` centroid throws. |
| KMeans.FirstUpdateUndefined | src/utils/auto-organize.ts:73-77 | With fewer points than clusters, the first update leaves some centroid `undefined`. |
| KMeans.SecondRoundFails | src/utils/auto-organize.ts:59-78 | From the initial centroids, with fewer points than clusters and a first assignment that moves a point, the second round throws. |
| KMeans.FewerPointsThanClustersFails | src/utils/auto-organize.ts:52-78 | With at least one point but fewer points than clusters, `fit` throws if the first assignment is not all zeros. |
| KMeans.TwoDistinctPointsFail | src/utils/auto-organize.ts:9-12 | Any two distinct points of one positive dimension, in either shuffled order, with the default five clusters make `fit` throw. |
| KMeans.TwoPointsFiveClustersFail | src/utils/auto-organize.ts:9-12 | The instance [0], [1] in their own order: `fit` with the default five clusters throws. |
| KMeans.RoundsKeepingNeverFail | src/utils/auto-organize.ts:73-78 | If each update keeps the previous centroid count, no round throws. |
| KMeans.KeepingCentroidsNeverFails | src/utils/auto-organize.ts:73-78 | So `fit` with that correction always succeeds. |
| KMeans.RoundsSame | src/utils/auto-organize.ts:59-81 | While there are `k` centroids, the loop as written and the corrected loop run the same rounds and give the same outcome. |
| KMeans.AsWrittenSucceeds | src/utils/auto-organize.ts:50-84 | With at least as many points as clusters, `fit` as written agrees with the corrected fit, so it never throws. |
| Grouping.Members | src/utils/auto-organize.ts:74 | The items with label `j` number as many as the occurrences of `j` among the labels, and each comes from the input. |
| Grouping.MembersExactly | src/utils/auto-organize.ts:74 | An item is in group `j` exactly when some position holding it is labelled `j`. |
| Grouping.MembersSnoc | src/utils/auto-organize.ts:116-122 | One more labelled item extends its own group only. |
| Grouping.CollectIsMembers | src/utils/auto-organize.ts:116-122 | The `reduce` object has a key for each label that occurs, and under it that label's bookmarks in order. |
| Grouping.AscendingBelow | src/utils/auto-organize.ts:125 | `Object.entries` lists integer keys strictly ascending, each key exactly once. |
| Grouping.ClustersByLabel | src/utils/auto-organize.ts:116-125 | Groups come in ascending label order, one per label that occurs. Each holds exactly its label's items in order, and none is empty. |
| Grouping.ClustersPartition | src/utils/auto-organize.ts:116-125 | Together the groups hold every item as often as the input does. |
| ClusterTitles.LongWords | src/utils/auto-organize.ts:129 | Words longer than three characters are kept with their multiplicity, and no others. |
| ClusterTitles.BumpTallies | src/utils/auto-organize.ts:130-133 | Counting one more word keeps the tally correct. |
| ClusterTitles.Tally | src/utils/auto-organize.ts:130-133 | The tally has one entry per distinct word, holding its occurrence count. |
| ClusterTitles.Bump | src/utils/auto-organize.ts:131 | Counting a word adds one to its entry in place, or appends it with count 1 when new; no other entry changes. |
| ClusterTitles.KeyedSplit | src/utils/auto-organize.ts:135 | Array-index keys and other keys together are exactly the tally's entries. |
| ClusterTitles.Entries | src/utils/auto-organize.ts:135 | `Object.entries` on the tally lists exactly the tally's entries, each once. |
| ClusterTitles.Ranked | src/utils/auto-organize.ts:135-136 | Ranking sorts by count, highest first, keeping the entries. |
| ClusterTitles.Top | src/utils/auto-organize.ts:137 | `slice(0, 2)` is the first at most two ranked entries. |
| ClusterTitles.CapitalizeAll | src/utils/auto-organize.ts:138 | Capitalising keeps the number and lengths of the words. |
| ClusterTitles.RankedCounts | src/utils/auto-organize.ts:130-136 | Ranked entries are exactly the distinct words, each with its true count. |
| ClusterTitles.TopWordsMostFrequent | src/utils/auto-organize.ts:130-137 | The title names min(2, distinct words) words. The first is a most frequent word; the second is at least as frequent as all others. |
| ClusterTitles.TitleOfSome | src/utils/auto-organize.ts:140-141 | With a word, the title is longer than " Collection". |
| ClusterTitles.TitleOfTop | src/utils/auto-organize.ts:135-141 | With one top word the title is that word capitalised plus " Collection"; with two, both capitalised words joined by " & ", then " Collection". |
| ClusterTitles.TitleBareIff | src/utils/auto-organize.ts:140-141 | The title is exactly " Collection" iff there are no words. |
| ClusterTitles.ClusterTitleBareIff | src/utils/auto-organize.ts:127-141 | A cluster is titled " Collection" iff none of its titles has a word longer than three characters. |
| AutoOrganize.Embed | src/utils/auto-organize.ts:100-109 | `Promise.all` succeeds iff every bookmark embeds, giving the embeddings in bookmark order. |
| AutoOrganize.EmbeddingsUniform | src/utils/auto-organize.ts:100-109 | One model's embeddings share a dimension. |
| AutoOrganize.Folders | src/utils/auto-organize.ts:125-144 | One folder per cluster: its bookmarks, its derived title, no thumbnail. |
| AutoOrganize.Clustering | src/utils/auto-organize.ts:93-113 | A successful clustering labels every bookmark with 0 or a cluster index below `numClusters`. |
| AutoOrganize.AutoOrganize | src/utils/auto-organize.ts:87-151 | Any failure (model load, URL parse, embedding, clustering) gives `[]`. Otherwise the folders are the label groups of the bookmarks as paired in the code. |
| AutoOrganize.FoldersKeepBookmarks | src/utils/auto-organize.ts:125-144 | The folders hold the groups' bookmarks in order. |
| AutoOrganize.FoldersPartition | src/utils/auto-organize.ts:116-144 | For any labelling, the folders partition the bookmarks, none is empty, and there are no more than label values. |
| AutoOrganize.AutoOrganizePartitions | src/utils/auto-organize.ts:87-151 | After a successful clustering, each bookmark is in exactly one folder. No folder is empty, and there are at most `numClusters` folders (one when `numClusters` is 0, since no centroids leave every label 0). |
| AutoOrganize.NothingToOrganize | src/utils/auto-organize.ts:87-151 | No bookmarks give no folders. |
| AutoOrganize.ShuffledPairingFilesByOwnEmbedding | src/utils/auto-organize.ts:116-122 | Pairing labels with the shuffled bookmarks files each bookmark of a converged fit by its own embedding. |
| AutoOrganize.AutoOrganizeIntended | src/utils/auto-organize.ts:116-122 | The corrected grouping still partitions the bookmarks into at most `numClusters` non-empty folders (one when `numClusters` is 0). |
| AutoOrganize.IntendedFilesByOwnEmbedding | src/utils/auto-organize.ts:116-122 | Under the corrected grouping, every bookmark's folder is the cluster nearest its own embedding. |
| ShuffleExample.SwappedFit | src/utils/auto-organize.ts:50-84 | Two points [0], [1], shuffled into swapped order with 2 clusters, converge after one round with labels [0, 1] and centroids [1], [0]. |
| ShuffleExample.ShuffleMisfilesBookmark | src/utils/auto-organize.ts:116-122 | A two-bookmark input where the code files a bookmark into a cluster whose centroid is not nearest its embedding. |
| ShuffleExample.TrioFit | src/utils/auto-organize.ts:50-84 | Embeddings [0], [1], [10], shuffled to [10], [0], [1] with 2 clusters, converge after one update with labels [0, 1, 1] and centroids [10], [0.5]. |
| ShuffleExample.TrioGroups | src/utils/auto-organize.ts:116-125 | Labels [0, 1, 1] group the first item alone, then the other two in order. |
| ShuffleExample.FarApartFiledTogether | src/utils/auto-organize.ts:116-122 | As written, the bookmarks embedded as [1] and [10] share a folder while the one embedded as [0], at squared distance 1 from [1], sits alone. |
| ShuffleExample.IntendedKeepsNeighbours | src/utils/auto-organize.ts:116-122 | With the corrected pairing, the bookmarks embedded as [0] and [1] share a folder and the one embedded as [10] sits alone. |
| EmbeddingProvider.TryFrom | src/utils/smart-search.ts:8-33 | The attempted devices are a non-empty prefix of the devices in order. A model is returned exactly when one is cached. |
| EmbeddingProvider.Initialize | src/utils/smart-search.ts:6-36 | A cached model is returned with no load. Otherwise loads start from WebGPU. A model is returned iff it is then cached. |
| EmbeddingProvider.TryFromFound | src/utils/smart-search.ts:8-33 | When some device loads, the chain returns the model of the first such device; it is the last one tried, and every device tried before it failed. |
| EmbeddingProvider.TryFromNone | src/utils/smart-search.ts:8-33 | When no device loads, every device is tried and the last failure is the one reported. |
| EmbeddingProvider.TryFromFirstWorking | src/utils/smart-search.ts:8-33 | The chain stops at the first device that loads and caches its model; all before it failed. With no working device, all are tried, the last error escapes and nothing is cached. |
| EmbeddingProvider.InitializeFallsBack | src/utils/smart-search.ts:6-36 | The model is from the first working device in order and is cached. If all three fail, the CPU error escapes and the cache stays empty. |
| EmbeddingProvider.FailureIsNotRemembered | src/utils/smart-search.ts:25-31 | After a failed initialisation, the next call retries the whole chain from WebGPU. |
| EmbeddingProvider.SuccessIsCached | src/utils/smart-search.ts:7-35 | After a success, later calls return the same model without loading. |
| EmbeddingProvider.GetEmbeddings | src/utils/smart-search.ts:38-42 | With a cached model, `getEmbeddings` just runs it. A successful result always comes from the cached model. |
| SmartSearch.Tagged | src/utils/smart-search.ts:62-71 | Each bookmark of a folder is tagged with the folder's title. |
| SmartSearch.EntriesAt | src/utils/smart-search.ts:61-73 | Bookmark `j` of folder `f` is entry (bookmarks before `f`) + `j`: one per bookmark, folder-then-bookmark order. |
| SmartSearch.ScoreAll | src/utils/smart-search.ts:61-73 | The loop leaves the cached model as it found it. |
| SmartSearch.ScoreAllScores | src/utils/smart-search.ts:61-73 | The loop succeeds iff every bookmark embeds. Its scores are the cosine similarities of each lower-cased `title url` to the query, in entry order. |
| SmartSearch.Above | src/utils/smart-search.ts:77 | Only scores strictly above 0.5 are kept. |
| SmartSearch.AboveCounts | src/utils/smart-search.ts:77 | The filter keeps every copy of an entry above 0.5 and none other. |
| SmartSearch.Rank | src/utils/smart-search.ts:75-77 | The results are in non-increasing score order and all above 0.5. |
| SmartSearch.AboveFrom | src/utils/smart-search.ts:77 | Every kept result is one of the scored entries. |
| SmartSearch.FilterKeepsSorted | src/utils/smart-search.ts:75-77 | Filtering a best-first list keeps it best first. |
| SmartSearch.RankCounts | src/utils/smart-search.ts:75-77 | The ranked results are exactly the scored entries above 0.5, each as often as it was scored. |
| SmartSearch.SmartSearch | src/utils/smart-search.ts:56-82 | The results are best first and all above 0.5. A failed query embedding, or any failed bookmark embedding, gives `[]`. |
| SmartSearch.SearchFindsAboveThreshold | src/utils/smart-search.ts:56-77 | When everything embeds, the results are exactly the scored bookmarks above 0.5, with multiplicity. |

## Left out

- Floating point: NaN, infinities and rounding are not modelled. Coordinates and scores are reals.
  - Cosine similarity needs both vectors non-zero and of one dimension. A zero vector gives NaN in the source, and NaN breaks the sort's comparator.
  - `SmartSearch.SmartSearch` therefore requires `Consistent(run)`: one model gives every text a vector of one dimension, never zero. Likewise `AutoOrganize` requires `FixedDimension` of the embedder.
- Case mapping: `toLowerCase`/`toUpperCase` and `\W` are modelled on ASCII letters, digits and `_`. Other characters pass through unchanged.
- The embedding library: `pipeline`, `.tolist()`, pooling and normalisation are foreign code. They are parameters.
- The time spent loading the model, and the `await` interleavings, are not modelled. Each call runs to completion.
- Which of several failing `Promise.all` embeddings is reported is not modelled. Only that some failure occurred is.
- `console.log` and `console.error` are not modelled.
- `new URL(url).hostname` is a parameter that may fail; URL syntax is not modelled.
- `Math.random` in the shuffle: the shuffle is any permutation `perm`. The quality of the randomness is not modelled.
- `numClusters` and `k` are natural numbers. A negative or fractional count in the source is not modelled.
- Cluster labels are modelled as unbounded naturals, always below `k`. `Object.entries` would list labels of 2^32−1 or more after the others; that is not modelled.
- ClusterTitles.Entries: the word tally object inherits from `Object.prototype`. A word such as "constructor" would start from the inherited function, not from 0. The model counts every word from 0.
- SmartSearch.Rank: the order among equal scores is not stated. The model's sort is stable, as V8's is.
- `src/types/bookmarks.ts`, which `src/lib/bookmarkProcessing.ts` imports its types from, is not part of this model. The shapes of `src/types/bookmark.types.ts` are used instead.
- Chrome API wrappers, React state, toasts, the Chrome branches of the hooks, and all UI components are not modelled.

## Findings

| source | as written | input that shows it | evidently intended | confidence | as-written member | corrected member |
|---|---|---|---|---|---|---|
| src/utils/auto-organize.ts:73-78 | The update builds exactly `k` centroids. A cluster with no points takes `centroids[k]`, which is `undefined` when fewer than `k` centroids existed. The next assignment then reads `undefined[i]` and throws, so `autoOrganizeBookmarks` returns `[]`. | Two bookmarks with distinct embeddings and the default 5 clusters. | An empty cluster keeps its centroid; with fewer points than clusters, only as many centroids as points exist. | not executed | KMeans.TwoDistinctPointsFail | KMeans.KeepingCentroidsNeverFails |
| src/utils/auto-organize.ts:116-122 | `embeddings.sort(...)` (lines 52-53) shuffles the embeddings array in place. So label `i` belongs to the `i`-th shuffled embedding, yet it is paired with `bookmarks[index]`, the `i`-th bookmark before the shuffle. | Bookmarks "alpha", "beta" and "gamma" embedded as [0], [1] and [10], with a shuffle to the order [10], [0], [1] and 2 clusters. The fit converges with labels [0, 1, 1] and centroids [10], [0.5]. The folders come out as ["alpha"] and ["beta", "gamma"], grouping [1] with [10] rather than with [0]. | Each bookmark goes to the cluster of its own embedding: ["gamma"] and ["alpha", "beta"]. | not executed | ShuffleExample.FarApartFiledTogether | AutoOrganize.AutoOrganizeIntended |
