/** The tree flattening of `src/utils/bookmark-processor.utils.ts`: a folder
    entry for every folder that directly holds links, and a quick-access row
    taken from the "Bookmarks Bar". */
module TreeProcessor {
  import opened Outcomes
  import opened BookmarkTypes

  // ---------------------------------------------------------------------------
  // processBookmarkNode: every link of a subtree, in pre-order
  // ---------------------------------------------------------------------------

  function Links(n: ChromeNode): (r: seq<Bookmark>)
    ensures HasUrl(n) ==> |r| > 0 && r[0] == LinkOf(n)
    ensures |r| == UrlCount(n)
    decreases n, 1
  {
    (if HasUrl(n) then [LinkOf(n)] else [])
    + (if n.children.Present? then LinksOfForest(n.children.nodes) else [])
  }

  function LinksOfForest(cs: seq<ChromeNode>): (r: seq<Bookmark>)
    ensures |r| == UrlCountOfForest(cs)
    decreases cs, 0
  {
    if cs == [] then [] else Links(cs[0]) + LinksOfForest(cs[1..])
  }

  /** Number of link nodes in a subtree (the node itself included). */
  function UrlCount(n: ChromeNode): nat
    decreases n, 1
  {
    (if HasUrl(n) then 1 else 0)
    + (if n.children.Present? then UrlCountOfForest(n.children.nodes) else 0)
  }

  function UrlCountOfForest(cs: seq<ChromeNode>): nat
    decreases cs, 0
  {
    if cs == [] then 0 else UrlCount(cs[0]) + UrlCountOfForest(cs[1..])
  }

  /** `m` is `n` or lies somewhere below it. */
  ghost predicate InSubtree(m: ChromeNode, n: ChromeNode)
    decreases n
  {
    m == n
    || (n.children.Present?
        && exists i :: 0 <= i < |n.children.nodes| && InSubtree(m, n.children.nodes[i]))
  }

  lemma {:induction false} LinksMembership(n: ChromeNode, b: Bookmark)
    ensures b in Links(n) <==> exists m :: InSubtree(m, n) && HasUrl(m) && LinkOf(m) == b
    decreases n, 1
  {
    if n.children.Present? {
      LinksOfForestMembership(n.children.nodes, b);
      if b in Links(n) && !(HasUrl(n) && LinkOf(n) == b) {
        assert b in LinksOfForest(n.children.nodes);
        var i, m :| 0 <= i < |n.children.nodes| && InSubtree(m, n.children.nodes[i]) && HasUrl(m) && LinkOf(m) == b;
        assert InSubtree(m, n);
      }
      if exists m :: InSubtree(m, n) && HasUrl(m) && LinkOf(m) == b {
        var m :| InSubtree(m, n) && HasUrl(m) && LinkOf(m) == b;
        if m != n {
          var i :| 0 <= i < |n.children.nodes| && InSubtree(m, n.children.nodes[i]);
          assert b in LinksOfForest(n.children.nodes);
        }
      }
    } else {
      if exists m :: InSubtree(m, n) && HasUrl(m) && LinkOf(m) == b {
        var m :| InSubtree(m, n) && HasUrl(m) && LinkOf(m) == b;
        assert m == n;
      }
    }
  }

  lemma {:induction false} LinksOfForestMembership(cs: seq<ChromeNode>, b: Bookmark)
    ensures b in LinksOfForest(cs) <==>
      exists i, m :: 0 <= i < |cs| && InSubtree(m, cs[i]) && HasUrl(m) && LinkOf(m) == b
    decreases cs, 0
  {
    if cs != [] {
      LinksMembership(cs[0], b);
      LinksOfForestMembership(cs[1..], b);
      if exists i, m :: 0 <= i < |cs| && InSubtree(m, cs[i]) && HasUrl(m) && LinkOf(m) == b {
        var i, m :| 0 <= i < |cs| && InSubtree(m, cs[i]) && HasUrl(m) && LinkOf(m) == b;
        if i > 0 {
          assert cs[1..][i - 1] == cs[i];
        }
      }
      if b in LinksOfForest(cs[1..]) {
        var i, m :| 0 <= i < |cs[1..]| && InSubtree(m, cs[1..][i]) && HasUrl(m) && LinkOf(m) == b;
        assert cs[i + 1] == cs[1..][i];
      }
    }
  }

  // ---------------------------------------------------------------------------
  // processFolderNode: an entry per folder with direct links, pre-order
  // ---------------------------------------------------------------------------

  /** A folder that `processFolderNode` emits an entry for. */
  predicate IsLinkFolder(n: ChromeNode) {
    IsFolder(n) && |DirectLinks(n.children.nodes)| > 0
  }

  function EntryOf(n: ChromeNode): Folder
    requires IsFolder(n)
  {
    Folder(n.title, None, DirectLinks(n.children.nodes))
  }

  /** Every entry lists at least one link and carries no thumbnail. */
  ghost predicate WellFormedEntries(fs: seq<Folder>) {
    forall k :: 0 <= k < |fs| ==> |fs[k].bookmarks| > 0 && fs[k].thumbnailUrl == None
  }

  function FolderNode(n: ChromeNode): (r: seq<Folder>)
    ensures WellFormedEntries(r)
    ensures IsLinkFolder(n) ==> |r| > 0 && r[0] == EntryOf(n)
    decreases n, 1
  {
    (if IsLinkFolder(n) then [EntryOf(n)] else [])
    + (if n.children.Present? then FolderForest(n.children.nodes) else [])
  }

  /** `children.filter(c => c.children && !c.url).forEach(processFolderNode)` */
  function FolderForest(cs: seq<ChromeNode>): (r: seq<Folder>)
    ensures WellFormedEntries(r)
    decreases cs, 0
  {
    if cs == [] then []
    else (if IsFolder(cs[0]) then FolderNode(cs[0]) else []) + FolderForest(cs[1..])
  }

  /** `m` is reached from `n` by descending only into folder children. */
  ghost predicate Reaches(n: ChromeNode, m: ChromeNode)
    decreases n
  {
    m == n
    || (n.children.Present?
        && exists i :: 0 <= i < |n.children.nodes| && IsFolder(n.children.nodes[i])
                       && Reaches(n.children.nodes[i], m))
  }

  /** Every entry comes from a link folder reached from `n`. */
  lemma {:induction false} FolderNodeSound(n: ChromeNode, f: Folder) returns (m: ChromeNode)
    requires f in FolderNode(n)
    ensures Reaches(n, m) && IsLinkFolder(m) && f == EntryOf(m)
    decreases n, 1
  {
    if IsLinkFolder(n) && f == EntryOf(n) {
      m := n;
    } else {
      assert f in FolderForest(n.children.nodes);
      var i;
      i, m := FolderForestSound(n.children.nodes, f);
    }
  }

  lemma {:induction false} FolderForestSound(cs: seq<ChromeNode>, f: Folder) returns (i: nat, m: ChromeNode)
    requires f in FolderForest(cs)
    ensures i < |cs| && IsFolder(cs[i]) && Reaches(cs[i], m) && IsLinkFolder(m) && f == EntryOf(m)
    decreases cs, 0
  {
    assert cs != [];
    var head := if IsFolder(cs[0]) then FolderNode(cs[0]) else [];
    assert FolderForest(cs) == head + FolderForest(cs[1..]);
    if f in head {
      i := 0;
      m := FolderNodeSound(cs[0], f);
    } else {
      assert f in FolderForest(cs[1..]);
      var j;
      j, m := FolderForestSound(cs[1..], f);
      i := j + 1;
      assert cs[1..][j] == cs[i];
    }
  }

  /** Every link folder reached from `n` has its entry listed. */
  lemma {:induction false} FolderNodeComplete(n: ChromeNode, m: ChromeNode)
    requires Reaches(n, m) && IsLinkFolder(m)
    ensures EntryOf(m) in FolderNode(n)
    decreases n, 1
  {
    if m != n {
      var i :| 0 <= i < |n.children.nodes| && IsFolder(n.children.nodes[i]) && Reaches(n.children.nodes[i], m);
      FolderForestComplete(n.children.nodes, i, m);
    }
  }

  lemma {:induction false} FolderForestComplete(cs: seq<ChromeNode>, i: nat, m: ChromeNode)
    requires i < |cs| && IsFolder(cs[i]) && Reaches(cs[i], m) && IsLinkFolder(m)
    ensures EntryOf(m) in FolderForest(cs)
    decreases cs, 0
  {
    if i == 0 {
      FolderNodeComplete(cs[0], m);
    } else {
      assert cs[1..][i - 1] == cs[i];
      FolderForestComplete(cs[1..], i - 1, m);
    }
  }

  lemma FolderNodeMembership(n: ChromeNode, f: Folder)
    ensures f in FolderNode(n) <==> exists m :: Reaches(n, m) && IsLinkFolder(m) && f == EntryOf(m)
  {
    if f in FolderNode(n) {
      var m := FolderNodeSound(n, f);
    }
    if exists m :: Reaches(n, m) && IsLinkFolder(m) && f == EntryOf(m) {
      var m :| Reaches(n, m) && IsLinkFolder(m) && f == EntryOf(m);
      FolderNodeComplete(n, m);
    }
  }

  lemma FolderForestMembership(cs: seq<ChromeNode>, f: Folder)
    ensures f in FolderForest(cs) <==>
      exists i, m :: 0 <= i < |cs| && IsFolder(cs[i]) && Reaches(cs[i], m) && IsLinkFolder(m) && f == EntryOf(m)
  {
    if f in FolderForest(cs) {
      var i, m := FolderForestSound(cs, f);
    }
    if exists i, m :: 0 <= i < |cs| && IsFolder(cs[i]) && Reaches(cs[i], m) && IsLinkFolder(m) && f == EntryOf(m) {
      var i, m :| 0 <= i < |cs| && IsFolder(cs[i]) && Reaches(cs[i], m) && IsLinkFolder(m) && f == EntryOf(m);
      FolderForestComplete(cs, i, m);
    }
  }

  lemma {:induction false} ReachesInSubtree(n: ChromeNode, m: ChromeNode)
    requires Reaches(n, m)
    ensures InSubtree(m, n)
    decreases n
  {
    if m != n {
      var i :| 0 <= i < |n.children.nodes| && IsFolder(n.children.nodes[i]) && Reaches(n.children.nodes[i], m);
      ReachesInSubtree(n.children.nodes[i], m);
    }
  }

  // ---------------------------------------------------------------------------
  // processBookmarks: root traversal, the Bookmarks Bar, quick access
  // ---------------------------------------------------------------------------

  const BarTitle := "Bookmarks Bar"

  /** The four placeholder links shown when the bar offers none. */
  function SamplePinnedBookmarks(): (r: seq<Bookmark>)
    ensures |r| == 4
    ensures forall k :: 0 <= k < |r| ==> r[k].url != ""
  {
    [ Bookmark("GitHub", "https://github.com"),
      Bookmark("Gmail", "https://gmail.com"),
      Bookmark("Calendar", "https://calendar.google.com"),
      Bookmark("Drive", "https://drive.google.com") ]
  }

  /** `Array.prototype.find` by exact title: the first node so titled. */
  function FindByTitle(cs: seq<ChromeNode>, t: string): (r: Option<ChromeNode>)
    ensures r.None? <==> forall i :: 0 <= i < |cs| ==> cs[i].title != t
    ensures r.Some? ==> exists i :: 0 <= i < |cs| && cs[i] == r.value && cs[i].title == t
                                    && forall j :: 0 <= j < i ==> cs[j].title != t
  {
    if cs == [] then None
    else if cs[0].title == t then Some(cs[0])
    else
      var r := FindByTitle(cs[1..], t);
      assert r.Some? ==> exists i :: 0 <= i < |cs| && cs[i] == r.value && cs[i].title == t
                                    && forall j :: 0 <= j < i ==> cs[j].title != t by {
        if r.Some? {
          var i :| 0 <= i < |cs[1..]| && cs[1..][i] == r.value && cs[1..][i].title == t
                   && forall j :: 0 <= j < i ==> cs[1..][j].title != t;
          assert cs[i + 1] == r.value;
          assert forall j :: 0 <= j < i + 1 ==> cs[j].title != t by {
            forall j | 0 <= j < i + 1 ensures cs[j].title != t {
              if j > 0 { assert cs[j] == cs[1..][j - 1]; }
            }
          }
        }
      }
      r
  }

  /** `bookmarks[0]?.children?.find(node => node.title === "Bookmarks Bar")`:
      only the children of the first root are searched. */
  function BarOf(roots: seq<ChromeNode>): (r: Option<ChromeNode>)
    ensures r.Some? ==> |roots| > 0 && r.value.title == BarTitle && r.value in Kids(roots[0])
  {
    if |roots| > 0 && roots[0].children.Present? then FindByTitle(roots[0].children.nodes, BarTitle)
    else None
  }

  /** The direct links of the Bookmarks Bar (`|| []` when it has no children). */
  function BarLinks(roots: seq<ChromeNode>): seq<Bookmark> {
    match BarOf(roots)
    case None => []
    case Some(bar) => DirectLinks(Kids(bar))
  }

  /** `processFolderNode` applied to every root, in order. */
  function RootFolders(roots: seq<ChromeNode>): (r: seq<Folder>)
    ensures WellFormedEntries(r)
  {
    if roots == [] then [] else FolderNode(roots[0]) + RootFolders(roots[1..])
  }

  /** The Bookmarks Bar's sub-folders, processed once more by the bar pass. */
  function BarFolders(roots: seq<ChromeNode>): (r: seq<Folder>)
    ensures WellFormedEntries(r)
  {
    match BarOf(roots)
    case None => []
    case Some(bar) => FolderForest(Kids(bar))
  }

  /** `processBookmarks`: the root pass comes first; then the "Bookmarks Bar"
      entry, present exactly when the bar has direct links; then the bar's
      sub-folders again. */
  function ProcessBookmarks(roots: seq<ChromeNode>): (r: Processed)
    ensures WellFormedEntries(r.folders)
    ensures |RootFolders(roots)| <= |r.folders| && r.folders[..|RootFolders(roots)|] == RootFolders(roots)
    ensures |BarLinks(roots)| > 0 <==>
      |RootFolders(roots)| < |r.folders| && r.folders[|RootFolders(roots)|] == Folder(BarTitle, None, BarLinks(roots))
    ensures var n := |RootFolders(roots)| + (if |BarLinks(roots)| > 0 then 1 else 0);
      n <= |r.folders| && r.folders[n..] == BarFolders(roots)
    ensures 1 <= |r.quickAccess| <= QuickAccessLimit
    ensures var direct := BarLinks(roots);
            if |direct| > 0 then r.quickAccess == direct[..if |direct| < QuickAccessLimit then |direct| else QuickAccessLimit]
            else r.quickAccess == SamplePinnedBookmarks()
  {
    var direct := BarLinks(roots);
    var front := RootFolders(roots);
    var barEntry := if |direct| > 0 then [Folder(BarTitle, None, direct)] else [];
    var pinned := if |direct| > 0 then direct[..if |direct| < QuickAccessLimit then |direct| else QuickAccessLimit] else [];
    var back := BarFolders(roots);
    var folders := front + barEntry + back;
    assert folders[..|front|] == front;
    assert folders[|front| + |barEntry|..] == back;
    assert |direct| == 0 && |front| < |folders| ==> |folders[|front|].bookmarks| > 0 by {
      if |direct| == 0 && |front| < |folders| {
        assert folders[|front|] == back[0];
      }
    }
    Processed(folders, if |pinned| > 0 then pinned else SamplePinnedBookmarks())
  }

  /** Every folder with direct links that is reached from some root has its
      entry in the output. */
  lemma ProcessBookmarksComplete(roots: seq<ChromeNode>, i: nat, m: ChromeNode)
    requires i < |roots| && Reaches(roots[i], m) && IsLinkFolder(m)
    ensures EntryOf(m) in ProcessBookmarks(roots).folders
  {
    RootFoldersComplete(roots, i, m);
    var r := ProcessBookmarks(roots);
    var k :| 0 <= k < |RootFolders(roots)| && RootFolders(roots)[k] == EntryOf(m);
    assert r.folders[..|RootFolders(roots)|][k] == r.folders[k];
  }

  /** An entry of the root traversal comes from the first root or the rest. */
  lemma RootFoldersSplit(roots: seq<ChromeNode>, f: Folder) returns (inHead: bool)
    requires f in RootFolders(roots)
    ensures roots != []
    ensures inHead ==> f in FolderNode(roots[0])
    ensures !inHead ==> f in RootFolders(roots[1..])
  {
    assert roots != [];
    assert RootFolders(roots) == FolderNode(roots[0]) + RootFolders(roots[1..]);
    inHead := f in FolderNode(roots[0]);
  }

  lemma {:induction false} RootFoldersSound(roots: seq<ChromeNode>, f: Folder) returns (i: nat, m: ChromeNode)
    requires f in RootFolders(roots)
    ensures i < |roots| && Reaches(roots[i], m) && IsLinkFolder(m) && f == EntryOf(m)
  {
    var inHead := RootFoldersSplit(roots, f);
    if inHead {
      i := 0;
      m := FolderNodeSound(roots[0], f);
    } else {
      var j;
      j, m := RootFoldersSound(roots[1..], f);
      i := j + 1;
      assert roots[1..][j] == roots[i];
    }
  }

  lemma {:induction false} RootFoldersComplete(roots: seq<ChromeNode>, i: nat, m: ChromeNode)
    requires i < |roots| && Reaches(roots[i], m) && IsLinkFolder(m)
    ensures EntryOf(m) in RootFolders(roots)
  {
    if i == 0 {
      FolderNodeComplete(roots[0], m);
    } else {
      assert roots[1..][i - 1] == roots[i];
      RootFoldersComplete(roots[1..], i - 1, m);
    }
  }

  lemma RootFoldersMembership(roots: seq<ChromeNode>, f: Folder)
    ensures f in RootFolders(roots) <==>
      exists i, m :: 0 <= i < |roots| && Reaches(roots[i], m) && IsLinkFolder(m) && f == EntryOf(m)
  {
    if f in RootFolders(roots) {
      var i, m := RootFoldersSound(roots, f);
    }
    if exists i, m :: 0 <= i < |roots| && Reaches(roots[i], m) && IsLinkFolder(m) && f == EntryOf(m) {
      var i, m :| 0 <= i < |roots| && Reaches(roots[i], m) && IsLinkFolder(m) && f == EntryOf(m);
      RootFoldersComplete(roots, i, m);
    }
  }

  /** Every output folder is the Bookmarks Bar entry or the entry of a folder
      with direct links somewhere in the input trees. */
  lemma ProcessBookmarksSound(roots: seq<ChromeNode>, f: Folder)
    requires f in ProcessBookmarks(roots).folders
    ensures f == Folder(BarTitle, None, BarLinks(roots))
            || exists i, m :: 0 <= i < |roots| && InSubtree(m, roots[i]) && IsLinkFolder(m) && f == EntryOf(m)
  {
    var direct := BarLinks(roots);
    var barEntry := if |direct| > 0 then [Folder(BarTitle, None, direct)] else [];
    if f in RootFolders(roots) {
      RootFoldersMembership(roots, f);
      var i, m :| 0 <= i < |roots| && Reaches(roots[i], m) && IsLinkFolder(m) && f == EntryOf(m);
      ReachesInSubtree(roots[i], m);
    } else if f !in barEntry {
      var bar := BarOf(roots).value;
      assert f in FolderForest(Kids(bar));
      FolderForestMembership(Kids(bar), f);
      var j, m :| 0 <= j < |Kids(bar)| && IsFolder(Kids(bar)[j]) && Reaches(Kids(bar)[j], m) && IsLinkFolder(m) && f == EntryOf(m);
      ReachesInSubtree(Kids(bar)[j], m);
      var k :| 0 <= k < |roots[0].children.nodes| && roots[0].children.nodes[k] == bar;
      assert InSubtree(m, bar);
      assert InSubtree(m, roots[0]);
    }
  }

  /** Folders inside a Bookmarks Bar that is itself a folder are emitted twice:
      once by the root traversal and once more by the bar pass. */
  lemma BarSubfoldersRepeated(roots: seq<ChromeNode>, f: Folder)
    requires BarOf(roots).Some? && IsFolder(BarOf(roots).value)
    requires f in FolderForest(Kids(BarOf(roots).value))
    ensures multiset(ProcessBookmarks(roots).folders)[f] >= 2
  {
    var bar := BarOf(roots).value;
    var direct := BarLinks(roots);
    var barEntry := if |direct| > 0 then [Folder(BarTitle, None, direct)] else [];
    assert f in RootFolders(roots) by {
      BarReachedFromFirstRoot(roots, f);
    }
    var front := RootFolders(roots) + barEntry;
    var back := FolderForest(Kids(bar));
    assert ProcessBookmarks(roots).folders == front + back;
    assert multiset(front + back) == multiset(front) + multiset(back);
    assert f in multiset(front) && f in multiset(back);
  }

  lemma BarReachedFromFirstRoot(roots: seq<ChromeNode>, f: Folder)
    requires BarOf(roots).Some? && IsFolder(BarOf(roots).value)
    requires f in FolderForest(Kids(BarOf(roots).value))
    ensures f in RootFolders(roots)
  {
    var bar := BarOf(roots).value;
    var cs := bar.children.nodes;
    FolderForestMembership(cs, f);
    var j, m :| 0 <= j < |cs| && IsFolder(cs[j]) && Reaches(cs[j], m) && IsLinkFolder(m) && f == EntryOf(m);
    assert Reaches(bar, m);
    var k :| 0 <= k < |roots[0].children.nodes| && roots[0].children.nodes[k] == bar;
    assert IsFolder(roots[0].children.nodes[k]) && Reaches(roots[0].children.nodes[k], m);
    assert Reaches(roots[0], m);
    RootFoldersMembership(roots, f);
  }
}
