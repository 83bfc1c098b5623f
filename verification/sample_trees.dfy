/** The development sample tree of `src/utils/chrome/fetch-bookmarks.ts`,
    and what each of the two tree flattenings makes of it. */
module SampleTrees {
  import opened Outcomes
  import opened BookmarkTypes
  import opened TreeProcessor
  import FolderProcessing

  function Leaf(id: string, title: string, url: string): ChromeNode {
    ChromeNode(id, title, Some(url), Absent)
  }

  function Dir(id: string, title: string, nodes: seq<ChromeNode>): ChromeNode {
    ChromeNode(id, title, None, Present(nodes))
  }

  function SampleDevelopment(): ChromeNode {
    Dir("2", "Development", [
      Leaf("3", "GitHub", "https://github.com"),
      Leaf("4", "Stack Overflow", "https://stackoverflow.com")])
  }

  function SampleSocial(): ChromeNode {
    Dir("5", "Social", [
      Leaf("6", "Twitter", "https://twitter.com"),
      Leaf("7", "LinkedIn", "https://linkedin.com")])
  }

  function SampleBar(): ChromeNode {
    Dir("1", "Bookmarks Bar", [SampleDevelopment(), SampleSocial()])
  }

  function SampleTree(): seq<ChromeNode> {
    [Dir("0", "root", [SampleBar()])]
  }

  function DevelopmentEntry(): Folder {
    Folder("Development", None, [Bookmark("GitHub", "https://github.com"),
                                 Bookmark("Stack Overflow", "https://stackoverflow.com")])
  }

  function SocialEntry(): Folder {
    Folder("Social", None, [Bookmark("Twitter", "https://twitter.com"),
                            Bookmark("LinkedIn", "https://linkedin.com")])
  }

  lemma SampleDevelopmentEntry()
    ensures FolderNode(SampleDevelopment()) == [DevelopmentEntry()]
  {
    var n := SampleDevelopment();
    var cs := n.children.nodes;
    NotSkipped(n);
    NotSkipped(cs[0]);
    NotSkipped(cs[1]);
    assert DirectLinks(cs[1..]) == [LinkOf(cs[1])];
    assert DirectLinks(cs) == [LinkOf(cs[0]), LinkOf(cs[1])];
    assert IsLinkFolder(n) && EntryOf(n) == DevelopmentEntry();
    assert FolderForest(cs[1..]) == [];
    assert FolderForest(cs) == [];
  }

  lemma SampleSocialEntry()
    ensures FolderNode(SampleSocial()) == [SocialEntry()]
  {
    var n := SampleSocial();
    var cs := n.children.nodes;
    NotSkipped(n);
    NotSkipped(cs[0]);
    NotSkipped(cs[1]);
    assert DirectLinks(cs[1..]) == [LinkOf(cs[1])];
    assert DirectLinks(cs) == [LinkOf(cs[0]), LinkOf(cs[1])];
    assert IsLinkFolder(n) && EntryOf(n) == SocialEntry();
    assert FolderForest(cs[1..]) == [];
    assert FolderForest(cs) == [];
  }

  lemma SampleBarNoDirectLinks()
    ensures DirectLinks(Kids(SampleBar())) == []
  {
    var cs := Kids(SampleBar());
    assert cs[1..][1..] == [];
  }

  lemma SampleBarEntries()
    ensures DirectLinks(Kids(SampleBar())) == []
    ensures FolderForest(Kids(SampleBar())) == [DevelopmentEntry(), SocialEntry()]
    ensures FolderNode(SampleBar()) == [DevelopmentEntry(), SocialEntry()]
  {
    var cs := Kids(SampleBar());
    assert cs[1..] == [SampleSocial()];
    SampleDevelopmentEntry();
    SampleSocialEntry();
    SampleBarNoDirectLinks();
    assert FolderForest(cs[1..]) == [SocialEntry()];
  }

  lemma SampleRootEntry()
    ensures FolderNode(SampleTree()[0]) == [DevelopmentEntry(), SocialEntry()]
  {
    var root := SampleTree()[0];
    SampleBarEntries();
    assert !IsLinkFolder(root) by {
      assert DirectLinks(Kids(root)) == [];
    }
    assert FolderForest(Kids(root)) == [DevelopmentEntry(), SocialEntry()] by {
      assert Kids(root)[1..] == [];
    }
  }

  lemma SampleRootFolders()
    ensures RootFolders(SampleTree()) == [DevelopmentEntry(), SocialEntry()]
  {
    SampleRootEntry();
    assert SampleTree()[1..] == [];
  }

  lemma SampleBarFound()
    ensures BarOf(SampleTree()) == Some(SampleBar())
    ensures BarLinks(SampleTree()) == []
  {
    SampleBarEntries();
  }

  /** On the sample tree the bar holds no direct links, so quick access falls
      back to the sample pins, and both sub-folders are listed twice. */
  lemma SampleTreeProcessedByTreeProcessor()
    ensures ProcessBookmarks(SampleTree())
            == Processed([DevelopmentEntry(), SocialEntry(), DevelopmentEntry(), SocialEntry()],
                         SamplePinnedBookmarks())
  {
    SampleRootFolders();
    SampleBarFound();
    SampleBarEntries();
  }

  function FolderProcessingOutput(): seq<Folder> {
    [Folder("root", None, []), Folder("Bookmarks Bar", None, []), DevelopmentEntry(), SocialEntry()]
  }

  /** A title of a length other than those of "Other Bookmarks" and
      "Synced Bookmarks" is never skipped. */
  lemma NotSkipped(n: ChromeNode)
    requires |n.title| != 15 && |n.title| != 16
    ensures !FolderProcessing.Skipped(n)
  {
    assert |"Other Bookmarks"| == 15 && |"Synced Bookmarks"| == 16;
  }

  lemma PreorderOfDevelopment()
    ensures FolderProcessing.Preorder(SampleDevelopment()) == [DevelopmentEntry()]
  {
    var n := SampleDevelopment();
    var cs := n.children.nodes;
    NotSkipped(n);
    NotSkipped(cs[0]);
    NotSkipped(cs[1]);
    SampleDevelopmentEntry();
    assert FolderProcessing.PreorderAll(cs[1..]) == [];
    assert FolderProcessing.PreorderAll(cs) == [];
    assert FolderProcessing.FolderOf(n) == EntryOf(n);
  }

  lemma PreorderOfSocial()
    ensures FolderProcessing.Preorder(SampleSocial()) == [SocialEntry()]
  {
    var n := SampleSocial();
    var cs := n.children.nodes;
    NotSkipped(n);
    NotSkipped(cs[0]);
    NotSkipped(cs[1]);
    SampleSocialEntry();
    assert FolderProcessing.PreorderAll(cs[1..]) == [];
    assert FolderProcessing.PreorderAll(cs) == [];
    assert FolderProcessing.FolderOf(n) == EntryOf(n);
  }

  lemma PreorderOfBarChildren()
    ensures FolderProcessing.PreorderAll(Kids(SampleBar())) == [DevelopmentEntry(), SocialEntry()]
  {
    var cs := Kids(SampleBar());
    assert FolderProcessing.PreorderAll(cs[1..]) == [SocialEntry()] by {
      PreorderOfSocial();
      assert cs[1..] == [SampleSocial()];
      assert cs[1..][1..] == [];
    }
    PreorderOfDevelopment();
  }

  lemma PreorderOfBar()
    ensures FolderProcessing.Preorder(SampleBar()) == [Folder("Bookmarks Bar", None, []), DevelopmentEntry(), SocialEntry()]
  {
    PreorderOfBarChildren();
    SampleBarNoDirectLinks();
    NotSkipped(SampleBar());
    assert FolderProcessing.FolderOf(SampleBar()) == Folder("Bookmarks Bar", None, []);
  }

  lemma PreorderOfSampleTree()
    ensures FolderProcessing.PreorderAll(SampleTree()) == FolderProcessingOutput()
  {
    PreorderOfBar();
    var t := SampleTree();
    NotSkipped(t[0]);
    assert t[0].children.nodes == [SampleBar()];
    assert FolderProcessing.PreorderAll(t[0].children.nodes) == FolderProcessingOutput()[1..];
    assert FolderProcessing.Preorder(t[0]) == FolderProcessingOutput();
  }

  lemma SampleLeads()
    ensures FolderProcessing.Leads(FolderProcessingOutput())
            == [Bookmark("GitHub", "https://github.com"), Bookmark("Twitter", "https://twitter.com")]
  {
    var fs := FolderProcessingOutput();
    assert FolderProcessing.Leads(fs[3..]) == [Bookmark("Twitter", "https://twitter.com")] by {
      assert fs[3..][1..] == [];
    }
    assert FolderProcessing.Leads(fs[2..])
        == [Bookmark("GitHub", "https://github.com"), Bookmark("Twitter", "https://twitter.com")] by {
      assert fs[2..][1..] == fs[3..];
    }
    assert FolderProcessing.Leads(fs[1..]) == FolderProcessing.Leads(fs[2..]) by {
      assert fs[1..][1..] == fs[2..];
    }
  }

  /** The other flattening lists every folder, empty ones included, and pins
      the first link of each non-empty folder. */
  lemma SampleTreeProcessedByFolderProcessing()
    ensures FolderProcessing.ProcessBookmarks(SampleTree())
            == Processed(FolderProcessingOutput(),
                         [Bookmark("GitHub", "https://github.com"), Bookmark("Twitter", "https://twitter.com")])
  {
    PreorderOfSampleTree();
    SampleLeads();
  }
}
