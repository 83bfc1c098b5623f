/** The records the core works on: a link, a processed folder, and a node of
    the browser's bookmark tree. */
module BookmarkTypes {
  import opened Outcomes

  /** A link with its display title. */
  datatype Bookmark = Bookmark(title: string, url: string)

  /** A folder as the gallery shows it; `thumbnailUrl` is optional. */
  datatype Folder = Folder(title: string, thumbnailUrl: Option<string>, bookmarks: seq<Bookmark>)

  /** A node of the browser's bookmark tree. A node with a URL is a link;
      `children` is present on folders (possibly empty). The fields `parentId`,
      `index`, `dateAdded` and `dateGroupModified` are never read by the core. */
  datatype ChromeNode = ChromeNode(id: string, title: string, url: Option<string>, children: ChildList)

  /** The optional `children` array of a node: `Absent` is `undefined`. */
  datatype ChildList = Absent | Present(nodes: seq<ChromeNode>)

  /** JavaScript truthiness of `node.url`: present and not the empty string. */
  predicate HasUrl(n: ChromeNode) {
    n.url.Some? && n.url.value != ""
  }

  /** What a tree flattening hands to the gallery. */
  datatype Processed = Processed(folders: seq<Folder>, quickAccess: seq<Bookmark>)

  /** Both tree flattenings show at most six quick-access links. */
  const QuickAccessLimit := 6

  /** The nodes of `children`, or none when it is absent. */
  function Kids(n: ChromeNode): seq<ChromeNode> {
    if n.children.Present? then n.children.nodes else []
  }

  /** A node that `processFolderNode` descends into: it has a children array
      and is not a link. */
  predicate IsFolder(n: ChromeNode) {
    n.children.Present? && !HasUrl(n)
  }

  /** `{ title: child.title, url: child.url! }` */
  function LinkOf(n: ChromeNode): Bookmark
    requires HasUrl(n)
  {
    Bookmark(n.title, n.url.value)
  }

  /** `children.filter(child => child.url).map(...)`: the links among the
      direct children, in child order. */
  function DirectLinks(cs: seq<ChromeNode>): (r: seq<Bookmark>)
    ensures |r| <= |cs|
    ensures |r| == 0 <==> forall i :: 0 <= i < |cs| ==> !HasUrl(cs[i])
    ensures forall k :: 0 <= k < |r| ==> exists i :: 0 <= i < |cs| && HasUrl(cs[i]) && r[k] == LinkOf(cs[i])
  {
    if cs == [] then []
    else
      var rest := DirectLinks(cs[1..]);
      assert forall k :: 0 <= k < |rest| ==> exists i :: 0 <= i < |cs| && HasUrl(cs[i]) && rest[k] == LinkOf(cs[i]) by {
        forall k | 0 <= k < |rest|
          ensures exists i :: 0 <= i < |cs| && HasUrl(cs[i]) && rest[k] == LinkOf(cs[i])
        {
          var i :| 0 <= i < |cs[1..]| && HasUrl(cs[1..][i]) && rest[k] == LinkOf(cs[1..][i]);
          assert cs[i + 1] == cs[1..][i];
        }
      }
      if HasUrl(cs[0]) then [LinkOf(cs[0])] + rest else rest
  }

  /** Every child with a URL contributes its link. */
  lemma {:induction false} DirectLinksComplete(cs: seq<ChromeNode>)
    ensures forall i :: 0 <= i < |cs| && HasUrl(cs[i]) ==> LinkOf(cs[i]) in DirectLinks(cs)
  {
    if cs != [] {
      DirectLinksComplete(cs[1..]);
      forall i | 1 <= i < |cs| && HasUrl(cs[i])
        ensures LinkOf(cs[i]) in DirectLinks(cs)
      {
        assert cs[i] == cs[1..][i - 1];
      }
    }
  }

  /** One child gives its own link when it has a URL, and nothing otherwise;
      with `DirectLinksAppend` this fixes the links and their order. */
  lemma DirectLinksOfOne(c: ChromeNode)
    ensures DirectLinks([c]) == if HasUrl(c) then [LinkOf(c)] else []
  {
    assert [c][1..] == [];
  }

  /** Filtering distributes over concatenation: link order follows child order. */
  lemma {:induction false} DirectLinksAppend(a: seq<ChromeNode>, b: seq<ChromeNode>)
    ensures DirectLinks(a + b) == DirectLinks(a) + DirectLinks(b)
  {
    if a == [] {
      assert a + b == b;
    } else {
      assert (a + b)[0] == a[0];
      assert (a + b)[1..] == a[1..] + b;
      DirectLinksAppend(a[1..], b);
    }
  }
}
