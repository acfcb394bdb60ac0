/** The bookmark list of hooks/useBookmarks.ts: which part of the browser's
    bookmark tree is shown, the copy `processBookmarks` makes of it, and the
    stand-in list used outside the browser. */
module Bookmarks {
  import opened Wrappers

  /** A node as the browser reports it; `dateAdded` stands for the fields the
      copy does not keep. */
  datatype TreeNode = TreeNode(
    id: string, title: string, url: Option<string>, parentId: Option<string>,
    dateAdded: Option<int>, children: TreeChildren)

  /** A browser node's `children`: absent, or a list. */
  datatype TreeChildren = NoTreeChildren | TreeChildren(nodes: seq<TreeNode>)

  /** `BookmarkNode`. */
  datatype BookmarkNode = BookmarkNode(
    id: string, title: string, url: Option<string>, parentId: Option<string>,
    children: Children)

  /** A copied node's `children`: `undefined`, or a list. */
  datatype Children = NoChildren | Children(nodes: seq<BookmarkNode>)

  // ---------------------------------------------------------------------------
  // The copy
  // ---------------------------------------------------------------------------

  /** One node of `processBookmarks`: the kept fields, and the children
      copied the same way when there are any. */
  function ProcessNode(n: TreeNode): (b: BookmarkNode)
    ensures b.id == n.id && b.title == n.title && b.url == n.url && b.parentId == n.parentId
    ensures b.children.NoChildren? <==> n.children.NoTreeChildren?
    ensures b.children.Children? ==> |b.children.nodes| == |n.children.nodes|
    decreases n
  {
    BookmarkNode(n.id, n.title, n.url, n.parentId,
      match n.children
      case NoTreeChildren => NoChildren
      case TreeChildren(cs) => Children(seq(|cs|, i requires 0 <= i < |cs| => ProcessNode(cs[i]))))
  }

  /** `processBookmarks(nodes)`: `nodes.map(...)`. */
  function Process(nodes: seq<TreeNode>): (r: seq<BookmarkNode>)
    ensures |r| == |nodes|
    ensures forall i :: 0 <= i < |nodes| ==> r[i] == ProcessNode(nodes[i])
  {
    seq(|nodes|, i requires 0 <= i < |nodes| => ProcessNode(nodes[i]))
  }

  /** The browser node with the fields of a copied node and nothing else. */
  function Embed(b: BookmarkNode): (n: TreeNode)
    ensures n.id == b.id && n.title == b.title && n.url == b.url && n.parentId == b.parentId
    ensures n.dateAdded.None? && (n.children.NoTreeChildren? <==> b.children.NoChildren?)
    decreases b
  {
    TreeNode(b.id, b.title, b.url, b.parentId, None,
      match b.children
      case NoChildren => NoTreeChildren
      case Children(cs) => TreeChildren(seq(|cs|, i requires 0 <= i < |cs| => Embed(cs[i]))))
  }

  /** The copy loses nothing it keeps: copying the browser node made from a
      copied node gives that node back, at every depth. */
  lemma {:induction false} ProcessEmbed(b: BookmarkNode)
    ensures ProcessNode(Embed(b)) == b
    decreases b
  {
    if b.children.Children? {
      var cs := b.children.nodes;
      var ecs := Embed(b).children.nodes;
      forall i | 0 <= i < |cs| ensures ProcessNode(ecs[i]) == cs[i] {
        assert cs[i] in cs;
        ProcessEmbed(cs[i]);
      }
      assert ProcessNode(Embed(b)).children.nodes == cs;
    }
  }

  /** Copying a browser node that carries only the kept fields and copying it
      back gives the same node. */
  predicate Bare(n: TreeNode)
    decreases n
  {
    n.dateAdded.None?
    && (n.children.TreeChildren? ==> forall c :: c in n.children.nodes ==> Bare(c))
  }

  lemma {:induction false} EmbedProcess(n: TreeNode)
    requires Bare(n)
    ensures Embed(ProcessNode(n)) == n
    decreases n
  {
    if n.children.TreeChildren? {
      var cs := n.children.nodes;
      var pcs := ProcessNode(n).children.nodes;
      forall i | 0 <= i < |cs| ensures Embed(pcs[i]) == cs[i] {
        assert cs[i] in cs;
        EmbedProcess(cs[i]);
      }
      assert Embed(ProcessNode(n)).children.nodes == cs;
    }
  }

  // ---------------------------------------------------------------------------
  // What is shown
  // ---------------------------------------------------------------------------

  /** `nodes.find((node) => node.id === id)`. */
  function Find(nodes: seq<TreeNode>, id: string): (r: Option<TreeNode>)
    ensures r.Some? ==> r.value in nodes && r.value.id == id
    ensures r.None? <==> forall k :: 0 <= k < |nodes| ==> nodes[k].id != id
    ensures r.Some? ==> exists k :: 0 <= k < |nodes| && nodes[k] == r.value
                                    && forall j :: 0 <= j < k ==> nodes[j].id != id
    decreases |nodes|
  {
    if |nodes| == 0 then None
    else if nodes[0].id == id then Some(nodes[0])
    else Find(nodes[1..], id)
  }

  /** The children of the first root child with id "1", or nothing. */
  function BarChildren(rootChildren: seq<TreeNode>): seq<TreeNode> {
    match Find(rootChildren, "1")
    case Some(bar) => Nodes(bar.children)
    case None => []
  }

  /** `node.children || []`. */
  function Nodes(c: TreeChildren): seq<TreeNode> {
    if c.TreeChildren? then c.nodes else []
  }

  /** The nodes shown: the bookmarks bar's contents, or the root children
      themselves when the bar is missing or empty. */
  function DisplayNodes(rootChildren: seq<TreeNode>): (r: seq<TreeNode>)
    ensures BarChildren(rootChildren) != [] ==> r == BarChildren(rootChildren)
    ensures BarChildren(rootChildren) == [] ==> r == rootChildren
  {
    var display := BarChildren(rootChildren);
    if |display| == 0 && |rootChildren| > 0 then rootChildren else display
  }

  /** The shown list is never empty while the root has children. */
  lemma DisplayNonEmpty(rootChildren: seq<TreeNode>)
    requires rootChildren != []
    ensures DisplayNodes(rootChildren) != []
  {
  }

  /** What the browser branch shows for a tree: the copy of the display
      nodes of the first root's children; nothing when the tree is empty,
      where reading `tree[0]` throws. */
  function ShownTree(tree: seq<TreeNode>): (r: Option<seq<BookmarkNode>>)
    ensures r.None? <==> |tree| == 0
    ensures r.Some? ==> |r.value| == |DisplayNodes(Nodes(tree[0].children))|
  {
    if |tree| == 0 then None
    else Some(Process(DisplayNodes(Nodes(tree[0].children))))
  }

  // ---------------------------------------------------------------------------
  // The stand-in list
  // ---------------------------------------------------------------------------

  function Leaf(id: string, title: string, url: string): BookmarkNode {
    BookmarkNode(id, title, Some(url), None, NoChildren)
  }

  function Folder(id: string, title: string, children: seq<BookmarkNode>): BookmarkNode {
    BookmarkNode(id, title, None, None, Children(children))
  }

  const WorkTools := Folder("12", "Work Tools", [Leaf("121", "Jira", "https://jira.com"), Leaf("122", "Slack", "https://slack.com")])
  const BarContents := [Leaf("10", "Google", "https://google.com"), Leaf("11", "GitHub", "https://github.com"), WorkTools]
  const OtherContents := [Leaf("21", "Recipe", "https://recipe.com")]
  /** `MOCK_BOOKMARKS`: the bookmarks bar and the other bookmarks. */
  const MockBookmarks := [Folder("1", "Bookmarks Bar", BarContents), Folder("2", "Other Bookmarks", OtherContents)]

  /** The stand-in branch's choice, made on the list itself (no copy): the
      children of its "1" node, or the whole list when those are empty. */
  function MockDisplay(nodes: seq<BookmarkNode>): (r: seq<BookmarkNode>)
    ensures (nodes != [] && nodes[0].id == "1" && nodes[0].children.Children? && nodes[0].children.nodes != [])
              ==> r == nodes[0].children.nodes
    ensures r == [] ==> nodes == []
    decreases |nodes|
  {
    var bar := FindMock(nodes, "1");
    var display := if bar.Some? && bar.value.children.Children? then bar.value.children.nodes else [];
    if |display| == 0 then nodes else display
  }

  function FindMock(nodes: seq<BookmarkNode>, id: string): (r: Option<BookmarkNode>)
    ensures r.Some? ==> r.value.id == id
    ensures nodes != [] && nodes[0].id == id ==> r == Some(nodes[0])
    decreases |nodes|
  {
    if |nodes| == 0 then None
    else if nodes[0].id == id then Some(nodes[0])
    else FindMock(nodes[1..], id)
  }

  /** Outside the browser the bookmarks bar's three entries are shown. */
  lemma MockShowsBar()
    ensures MockDisplay(MockBookmarks) == BarContents
  {
  }

  // ---------------------------------------------------------------------------
  // The hook's state
  // ---------------------------------------------------------------------------

  class BookmarksState {
    var bookmarks: seq<BookmarkNode>
    var loading: bool

    constructor ()
      ensures bookmarks == [] && loading
    {
      bookmarks := [];
      loading := true;
    }

    /** `fetchBookmarks`. `api` is the browser's answer to `getTree()`
        (none outside the browser, an error when it fails). A failure, or an
        empty tree, leaves the list as it was; loading ends either way. */
    method FetchBookmarks(api: Option<Result<seq<TreeNode>, string>>)
      modifies this
      ensures !loading
      ensures api.None? ==> bookmarks == MockDisplay(MockBookmarks)
      ensures api.Some? && api.value.Ok? && ShownTree(api.value.value).Some? ==>
                bookmarks == ShownTree(api.value.value).value
      ensures api.Some? && (api.value.Err? || ShownTree(api.value.value).None?) ==> bookmarks == old(bookmarks)
    {
      match api {
        case None =>
          bookmarks := MockDisplay(MockBookmarks);
        case Some(Err(_)) =>
        case Some(Ok(tree)) =>
          var shown := ShownTree(tree);
          if shown.Some? {
            bookmarks := shown.value;
          }
      }
      loading := false;
    }
  }
}
