/** The development-mode folder-list updaters: the state updaters passed to
    `setFolders` by `removeBookmark` and `deleteFolder` in
    `src/hooks/useBookmarks.tsx` and by `createDevBookmark` in
    `src/lib/bookmarkCreation.ts`. Each maps the current folder list to the
    next one. */
module DevUpdates {
  import opened Outcomes
  import opened BookmarkTypes

  /** `a` is `b` with some elements dropped, the rest kept in order. */
  predicate IsSubsequence<T(==)>(a: seq<T>, b: seq<T>)
    decreases |b|
  {
    a == []
    || (b != []
        && ((a[0] == b[0] && IsSubsequence(a[1..], b[1..])) || IsSubsequence(a, b[1..])))
  }

  // ---------------------------------------------------------------------------
  // removeBookmark (development mode)
  // ---------------------------------------------------------------------------

  /** `bookmarks.filter(b => b.url !== url)` */
  function WithoutUrl(bs: seq<Bookmark>, url: string): (r: seq<Bookmark>)
    ensures forall k :: 0 <= k < |r| ==> r[k].url != url
    ensures forall b :: multiset(r)[b] == if b.url == url then 0 else multiset(bs)[b]
    ensures IsSubsequence(r, bs)
  {
    if bs == [] then []
    else
      assert bs == [bs[0]] + bs[1..];
      var rest := WithoutUrl(bs[1..], url);
      if bs[0].url != url then [bs[0]] + rest else rest
  }

  function StripFolder(f: Folder, folderTitle: string, url: string): Folder {
    if f.title == folderTitle then f.(bookmarks := WithoutUrl(f.bookmarks, url)) else f
  }

  /** The updater of `removeBookmark(url, folderTitle)`: every folder so titled
      loses all links to `url`; every other folder is returned as it was. */
  function RemoveBookmark(current: seq<Folder>, url: string, folderTitle: string): (r: seq<Folder>)
    ensures |r| == |current|
    ensures forall i :: 0 <= i < |r| && current[i].title != folderTitle ==> r[i] == current[i]
    ensures forall i :: 0 <= i < |r| ==>
              r[i].title == current[i].title && r[i].thumbnailUrl == current[i].thumbnailUrl
    ensures forall i :: 0 <= i < |r| && current[i].title == folderTitle ==>
              IsSubsequence(r[i].bookmarks, current[i].bookmarks)
              && (forall b :: b in r[i].bookmarks <==> b in current[i].bookmarks && b.url != url)
  {
    seq(|current|, i requires 0 <= i < |current| => StripFolder(current[i], folderTitle, url))
  }

  lemma WithoutUrlIdempotent(bs: seq<Bookmark>, url: string)
    ensures WithoutUrl(WithoutUrl(bs, url), url) == WithoutUrl(bs, url)
  {
    var once := WithoutUrl(bs, url);
    WithoutUrlKeepsClean(once, url);
  }

  /** Filtering a list that holds no link to `url` changes nothing. */
  lemma {:induction false} WithoutUrlKeepsClean(bs: seq<Bookmark>, url: string)
    requires forall k :: 0 <= k < |bs| ==> bs[k].url != url
    ensures WithoutUrl(bs, url) == bs
  {
    if bs != [] {
      WithoutUrlKeepsClean(bs[1..], url);
      assert bs == [bs[0]] + bs[1..];
    }
  }

  lemma RemoveBookmarkIdempotent(current: seq<Folder>, url: string, folderTitle: string)
    ensures RemoveBookmark(RemoveBookmark(current, url, folderTitle), url, folderTitle)
            == RemoveBookmark(current, url, folderTitle)
  {
    var once := RemoveBookmark(current, url, folderTitle);
    var twice := RemoveBookmark(once, url, folderTitle);
    forall i | 0 <= i < |once| ensures twice[i] == once[i] {
      if current[i].title == folderTitle {
        WithoutUrlIdempotent(current[i].bookmarks, url);
      }
    }
  }

  // ---------------------------------------------------------------------------
  // deleteFolder (development mode)
  // ---------------------------------------------------------------------------

  /** The updater of `deleteFolder(folderTitle)`:
      `currentFolders.filter(folder => folder.title !== folderTitle)`. */
  function DeleteFolder(current: seq<Folder>, folderTitle: string): (r: seq<Folder>)
    ensures forall k :: 0 <= k < |r| ==> r[k].title != folderTitle
    ensures forall f :: multiset(r)[f] == if f.title == folderTitle then 0 else multiset(current)[f]
    ensures IsSubsequence(r, current)
  {
    if current == [] then []
    else
      assert current == [current[0]] + current[1..];
      var rest := DeleteFolder(current[1..], folderTitle);
      if current[0].title != folderTitle then [current[0]] + rest else rest
  }

  lemma {:induction false} DeleteFolderIdempotent(current: seq<Folder>, folderTitle: string)
    ensures DeleteFolder(DeleteFolder(current, folderTitle), folderTitle) == DeleteFolder(current, folderTitle)
  {
    if current != [] {
      DeleteFolderIdempotent(current[1..], folderTitle);
    }
  }

  // ---------------------------------------------------------------------------
  // createDevBookmark
  // ---------------------------------------------------------------------------

  function AppendTo(f: Folder, folderTitle: string, link: Bookmark): Folder {
    if f.title == folderTitle then f.(bookmarks := f.bookmarks + [link]) else f
  }

  /** The updater of `createDevBookmark(folders, setFolders, folderTitle, url,
      title)`: `{title, url}` goes to the end of every folder so titled. The
      `folders` argument is not read; only the updater's own argument is. */
  function CreateDevBookmark(folders: seq<Folder>, current: seq<Folder>, folderTitle: string,
                             url: string, title: string): (r: seq<Folder>)
    ensures |r| == |current|
    ensures forall i :: 0 <= i < |r| && current[i].title != folderTitle ==> r[i] == current[i]
    ensures forall i :: 0 <= i < |r| && current[i].title == folderTitle ==>
              && r[i].title == current[i].title
              && r[i].thumbnailUrl == current[i].thumbnailUrl
              && |r[i].bookmarks| == |current[i].bookmarks| + 1
              && r[i].bookmarks[..|current[i].bookmarks|] == current[i].bookmarks
              && r[i].bookmarks[|current[i].bookmarks|] == Bookmark(title, url)
  {
    seq(|current|, i requires 0 <= i < |current| => AppendTo(current[i], folderTitle, Bookmark(title, url)))
  }

  function TotalBookmarks(fs: seq<Folder>): nat {
    if fs == [] then 0 else |fs[0].bookmarks| + TotalBookmarks(fs[1..])
  }

  function CountTitled(fs: seq<Folder>, folderTitle: string): nat {
    if fs == [] then 0 else (if fs[0].title == folderTitle then 1 else 0) + CountTitled(fs[1..], folderTitle)
  }

  /** One link is added per folder carrying the title. */
  lemma {:induction false} CreateDevBookmarkCount(folders: seq<Folder>, current: seq<Folder>,
                                                  folderTitle: string, url: string, title: string)
    ensures TotalBookmarks(CreateDevBookmark(folders, current, folderTitle, url, title))
            == TotalBookmarks(current) + CountTitled(current, folderTitle)
  {
    var r := CreateDevBookmark(folders, current, folderTitle, url, title);
    if current != [] {
      CreateDevBookmarkCount(folders, current[1..], folderTitle, url, title);
      assert r[1..] == CreateDevBookmark(folders, current[1..], folderTitle, url, title);
    }
  }

  /** Without a folder of that title the list is unchanged. */
  lemma CreateDevBookmarkNoMatch(folders: seq<Folder>, current: seq<Folder>,
                                 folderTitle: string, url: string, title: string)
    requires forall i :: 0 <= i < |current| ==> current[i].title != folderTitle
    ensures CreateDevBookmark(folders, current, folderTitle, url, title) == current
  {
  }
}
