/** The tree flattening of `src/lib/bookmarkProcessing.ts`: one folder per
    non-skipped node without a URL that has a children array, in pre-order,
    and up to six quick-access links taken as the first link of each folder. */
module FolderProcessing {
  import opened Outcomes
  import opened BookmarkTypes

  /** Special roots whose whole subtree is ignored. */
  predicate Skipped(n: ChromeNode) {
    n.title == "Other Bookmarks" || n.title == "Synced Bookmarks"
  }

  /** A node for which `processNode` pushes a folder. */
  predicate YieldsFolder(n: ChromeNode) {
    !Skipped(n) && !HasUrl(n) && n.children.Present?
  }

  function FolderOf(n: ChromeNode): (r: Folder)
    requires n.children.Present?
    ensures r.title == n.title && r.thumbnailUrl == None
  {
    Folder(n.title, None, DirectLinks(n.children.nodes))
  }

  // ---------------------------------------------------------------------------
  // The traversal as written: two arrays filled while walking the tree
  // ---------------------------------------------------------------------------

  datatype Acc = Acc(folders: seq<Folder>, quick: seq<Bookmark>)

  /** Pushes a folder, and its first link while fewer than six are pinned. */
  function Record(acc: Acc, f: Folder): (r: Acc)
    ensures r.folders == acc.folders + [f]
    ensures |acc.quick| <= |r.quick| <= |acc.quick| + 1
  {
    Acc(acc.folders + [f],
        if |acc.quick| < QuickAccessLimit && |f.bookmarks| > 0 then acc.quick + [f.bookmarks[0]]
        else acc.quick)
  }

  /** `processNode(node)` run against the arrays `acc`. */
  function Visit(acc: Acc, n: ChromeNode): Acc
    decreases n, 1
  {
    if Skipped(n) then acc
    else
      var acc1 := if !HasUrl(n) && n.children.Present? then Record(acc, FolderOf(n)) else acc;
      if n.children.Present? then VisitAll(acc1, n.children.nodes) else acc1
  }

  /** `nodes.forEach(processNode)` */
  function VisitAll(acc: Acc, cs: seq<ChromeNode>): Acc
    decreases cs, 0
  {
    if cs == [] then acc else VisitAll(Visit(acc, cs[0]), cs[1..])
  }

  // ---------------------------------------------------------------------------
  // Reference definitions: the pre-order folder list and the capped lead links
  // ---------------------------------------------------------------------------

  function Preorder(n: ChromeNode): (r: seq<Folder>)
    ensures Skipped(n) ==> r == []
    ensures YieldsFolder(n) ==> |r| > 0 && r[0] == FolderOf(n)
    decreases n, 1
  {
    if Skipped(n) then []
    else
      (if YieldsFolder(n) then [FolderOf(n)] else [])
      + (if n.children.Present? then PreorderAll(n.children.nodes) else [])
  }

  function PreorderAll(cs: seq<ChromeNode>): seq<Folder>
    decreases cs, 0
  {
    if cs == [] then [] else Preorder(cs[0]) + PreorderAll(cs[1..])
  }

  /** The first link of every folder that has one, in folder order. */
  function Leads(fs: seq<Folder>): (r: seq<Bookmark>)
    ensures |r| <= |fs|
  {
    if fs == [] then []
    else (if |fs[0].bookmarks| > 0 then [fs[0].bookmarks[0]] else []) + Leads(fs[1..])
  }

  /** Each lead link is the first link of one of the folders. */
  lemma {:induction false} LeadsAreFirstLinks(fs: seq<Folder>, k: nat)
    requires k < |Leads(fs)|
    ensures exists j :: 0 <= j < |fs| && |fs[j].bookmarks| > 0 && Leads(fs)[k] == fs[j].bookmarks[0]
  {
    if |fs[0].bookmarks| > 0 && k == 0 {
      assert Leads(fs)[0] == fs[0].bookmarks[0];
    } else {
      var k' := if |fs[0].bookmarks| > 0 then k - 1 else k;
      assert Leads(fs)[k] == Leads(fs[1..])[k'];
      LeadsAreFirstLinks(fs[1..], k');
      var j :| 0 <= j < |fs[1..]| && |fs[1..][j].bookmarks| > 0 && Leads(fs[1..])[k'] == fs[1..][j].bookmarks[0];
      assert fs[j + 1] == fs[1..][j];
    }
  }

  lemma {:induction false} LeadsAppend(a: seq<Folder>, b: seq<Folder>)
    ensures Leads(a + b) == Leads(a) + Leads(b)
  {
    if a == [] {
      assert a + b == b;
    } else {
      assert (a + b)[0] == a[0];
      assert (a + b)[1..] == a[1..] + b;
      LeadsAppend(a[1..], b);
    }
  }

  /** The first six elements (all of them when there are fewer). */
  function Cap(s: seq<Bookmark>): (r: seq<Bookmark>)
    ensures |r| <= QuickAccessLimit
  {
    if |s| <= QuickAccessLimit then s else s[..QuickAccessLimit]
  }

  lemma CapAppend(a: seq<Bookmark>, b: seq<Bookmark>)
    ensures Cap(Cap(a) + b) == Cap(a + b)
  {
    if |a| > QuickAccessLimit {
      assert (a + b)[..QuickAccessLimit] == a[..QuickAccessLimit];
      assert (Cap(a) + b)[..QuickAccessLimit] == a[..QuickAccessLimit];
    } else if |a + b| > QuickAccessLimit {
      assert Cap(a) == a;
    }
  }

  /** The state after recording `f` is the capped lead list of the folders so far. */
  lemma RecordSpec(acc: Acc, f: Folder)
    requires acc.quick == Cap(acc.quick)
    ensures Record(acc, f).quick == Cap(acc.quick + Leads([f]))
  {
    assert Leads([f]) == if |f.bookmarks| > 0 then [f.bookmarks[0]] else [];
  }

  /** Concatenation regroups; stated apart so that the visit proofs below
      need not rediscover it among their other facts. */
  lemma SeqAssoc<T>(a: seq<T>, b: seq<T>, c: seq<T>)
    ensures a + b + c == a + (b + c)
  {
  }

  lemma {:induction false} VisitSpec(acc: Acc, n: ChromeNode)
    requires |acc.quick| <= QuickAccessLimit
    ensures Visit(acc, n) == Acc(acc.folders + Preorder(n), Cap(acc.quick + Leads(Preorder(n))))
    decreases n, 1
  {
    if Skipped(n) {
      assert acc.folders + [] == acc.folders;
      assert acc.quick + Leads([]) == acc.quick;
    } else {
      var own := if YieldsFolder(n) then [FolderOf(n)] else [];
      var acc1 := if !HasUrl(n) && n.children.Present? then Record(acc, FolderOf(n)) else acc;
      assert acc1 == Acc(acc.folders + own, Cap(acc.quick + Leads(own))) by {
        if YieldsFolder(n) {
          RecordSpec(acc, FolderOf(n));
        } else {
          assert acc.folders + [] == acc.folders;
          assert acc.quick + Leads([]) == acc.quick;
        }
      }
      var below := if n.children.Present? then PreorderAll(n.children.nodes) else [];
      assert Preorder(n) == own + below;
      LeadsAppend(own, below);
      if n.children.Present? {
        assert Visit(acc, n) == VisitAll(acc1, n.children.nodes);
        VisitAllSpec(acc1, n.children.nodes);
        var q, lo, lb := acc.quick, Leads(own), Leads(below);
        CapAppend(q + lo, lb);
        SeqAssoc(q, lo, lb);
        SeqAssoc(acc.folders, own, below);
      } else {
        assert own + [] == own;
        assert Leads(own) + [] == Leads(own);
      }
    }
  }

  lemma {:induction false} VisitAllSpec(acc: Acc, cs: seq<ChromeNode>)
    requires |acc.quick| <= QuickAccessLimit
    ensures VisitAll(acc, cs) == Acc(acc.folders + PreorderAll(cs), Cap(acc.quick + Leads(PreorderAll(cs))))
    decreases cs, 0
  {
    if cs == [] {
      assert acc.folders + [] == acc.folders;
      assert acc.quick + Leads([]) == acc.quick;
    } else {
      var acc1 := Visit(acc, cs[0]);
      var head := Preorder(cs[0]);
      var tail := PreorderAll(cs[1..]);
      assert VisitAll(acc, cs) == VisitAll(acc1, cs[1..]);
      assert PreorderAll(cs) == head + tail;
      VisitSpec(acc, cs[0]);
      assert acc1 == Acc(acc.folders + head, Cap(acc.quick + Leads(head)));
      VisitAllSpec(acc1, cs[1..]);
      var q, lh, lt := acc.quick, Leads(head), Leads(tail);
      LeadsAppend(head, tail);
      CapAppend(q + lh, lt);
      SeqAssoc(q, lh, lt);
      SeqAssoc(acc.folders, head, tail);
    }
  }

  /** `processBookmarks(bookmarks)`: folders in pre-order across the roots;
      quick access is the first link of each of the first six folders that
      have one. */
  function ProcessBookmarks(roots: seq<ChromeNode>): (r: Processed)
    ensures r.folders == PreorderAll(roots)
    ensures r.quickAccess == Cap(Leads(r.folders))
    ensures |r.quickAccess| <= QuickAccessLimit
  {
    VisitAllSpec(Acc([], []), roots);
    var acc := VisitAll(Acc([], []), roots);
    Processed(acc.folders, acc.quick)
  }

  /** `m` is visited when walking from `n`: no skipped node lies on the way,
      and the walk enters the children of links as well as of folders. */
  ghost predicate Visits(n: ChromeNode, m: ChromeNode)
    decreases n
  {
    !Skipped(n)
    && (m == n
        || (n.children.Present?
            && exists i :: 0 <= i < |n.children.nodes| && Visits(n.children.nodes[i], m)))
  }

  lemma {:induction false} PreorderMembership(n: ChromeNode, f: Folder)
    ensures f in Preorder(n) <==> exists m :: Visits(n, m) && YieldsFolder(m) && f == FolderOf(m)
    decreases n, 1
  {
    if !Skipped(n) && n.children.Present? {
      var cs := n.children.nodes;
      PreorderAllMembership(cs, f);
      if f in Preorder(n) && !(YieldsFolder(n) && f == FolderOf(n)) {
        assert f in PreorderAll(cs);
        var i, m :| 0 <= i < |cs| && Visits(cs[i], m) && YieldsFolder(m) && f == FolderOf(m);
        assert Visits(n, m);
      }
      if exists m :: Visits(n, m) && YieldsFolder(m) && f == FolderOf(m) {
        var m :| Visits(n, m) && YieldsFolder(m) && f == FolderOf(m);
        if m != n {
          var i :| 0 <= i < |cs| && Visits(cs[i], m);
          assert f in PreorderAll(cs);
        }
      }
    }
  }

  lemma {:induction false} PreorderAllMembership(cs: seq<ChromeNode>, f: Folder)
    ensures f in PreorderAll(cs) <==>
      exists i, m :: 0 <= i < |cs| && Visits(cs[i], m) && YieldsFolder(m) && f == FolderOf(m)
    decreases cs, 0
  {
    if cs != [] {
      PreorderMembership(cs[0], f);
      PreorderAllMembership(cs[1..], f);
      if exists i, m :: 0 <= i < |cs| && Visits(cs[i], m) && YieldsFolder(m) && f == FolderOf(m) {
        var i, m :| 0 <= i < |cs| && Visits(cs[i], m) && YieldsFolder(m) && f == FolderOf(m);
        if i > 0 {
          assert cs[1..][i - 1] == cs[i];
        }
      }
      if f in PreorderAll(cs[1..]) {
        var i, m :| 0 <= i < |cs[1..]| && Visits(cs[1..][i], m) && YieldsFolder(m) && f == FolderOf(m);
        assert cs[i + 1] == cs[1..][i];
      }
    }
  }

  /** Quick access holds first links of output folders, at most six of them. */
  lemma QuickAccessFromFolders(roots: seq<ChromeNode>, k: nat)
    requires k < |ProcessBookmarks(roots).quickAccess|
    ensures k < QuickAccessLimit
    ensures var r := ProcessBookmarks(roots);
            exists j :: 0 <= j < |r.folders| && |r.folders[j].bookmarks| > 0
                        && r.quickAccess[k] == r.folders[j].bookmarks[0]
  {
    var r := ProcessBookmarks(roots);
    var leads := Leads(r.folders);
    assert r.quickAccess[k] == leads[k];
    LeadsAreFirstLinks(r.folders, k);
  }
}
