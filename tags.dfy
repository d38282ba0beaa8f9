/**
 * The markup tree (Simple/html/tags.py, and the near-identical node classes
 * of Simple/htmlparser.py): text, comment and tag nodes, their serialisation,
 * pre-order traversal and search, text fusion, and the structural edits.
 *
 * A node's `parent` back-reference is modelled by position: a node lives at a
 * path (a sequence of child indices) in the forest that owns it, and its
 * parent is the node at the path without its last index. Top-level nodes of a
 * document have no parent.
 */
module Tags {
  import opened Wrappers
  import opened Positions

  datatype Node =
    | TextNode(range: Range, text: string)
    | Comment(range: Range, text: string)
    | Tag(range: Range, text: string, name: string, attrs: map<string, string>,
          children: seq<Node>, selfClosing: bool)

  // ---------------------------------------------------------------------
  // Serialisation (`__html__`, `inner_html`)

  /** `html(node)`: a tag's `text` is its start tag as it appeared in the input. */
  function Html(n: Node): string
    decreases n, 1
  {
    match n
    case TextNode(_, text) => text
    case Comment(_, text) => "<!-- " + text + " -->"
    case Tag(_, text, name, _, children, selfClosing) =>
      if selfClosing then text else text + HtmlSeq(children) + "</" + name + ">"
  }

  /** The in-order concatenation of the nodes' html. */
  function HtmlSeq(ns: seq<Node>): string
    decreases ns, 0
  {
    if ns == [] then "" else Html(ns[0]) + HtmlSeq(ns[1..])
  }

  lemma {:induction false} HtmlSeqConcat(a: seq<Node>, b: seq<Node>)
    ensures HtmlSeq(a + b) == HtmlSeq(a) + HtmlSeq(b)
    decreases |a|
  {
    if a == [] {
      assert a + b == b;
    } else {
      assert (a + b)[1..] == a[1..] + b;
      HtmlSeqConcat(a[1..], b);
    }
  }

  /** Serialising a tag: a self-closing tag is its start text only; any other tag is start text, children, end tag. */
  lemma TagHtml(t: Node)
    requires t.Tag?
    ensures t.selfClosing ==> Html(t) == t.text
    ensures !t.selfClosing ==> Html(t) == t.text + HtmlSeq(t.children) + "</" + t.name + ">"
    ensures |t.children| > 0 && !t.selfClosing ==>
      Html(t) == t.text + Html(t.children[0]) + HtmlSeq(t.children[1..]) + "</" + t.name + ">"
  {
  }

  // ---------------------------------------------------------------------
  // Text fusion (`TextNode.fuse`, `Tag.consolidate_children`)

  /** The in-order concatenation of the nodes' texts. */
  function Texts(ns: seq<Node>): string {
    if ns == [] then "" else ns[0].text + Texts(ns[1..])
  }

  /** `TextNode.fuse`: one text node holding the texts of `nodes`. */
  function Fuse(nodes: seq<Node>, startpos: Position): Node {
    if |nodes| == 0 then TextNode(Range(startpos, startpos), "")
    else
      var text := Texts(nodes);
      TextNode(RangeOf(nodes[0].range.start, text), text)
  }

  predicate AllText(ns: seq<Node>) {
    forall i :: 0 <= i < |ns| ==> ns[i].TextNode?
  }

  lemma {:induction false} TextsAreHtml(ns: seq<Node>)
    requires AllText(ns)
    ensures Texts(ns) == HtmlSeq(ns)
  {
    if ns != [] {
      TextsAreHtml(ns[1..]);
    }
  }

  /**
   * Fusing an empty list gives an empty text at `startpos`; fusing text nodes
   * gives one text node whose html is theirs concatenated in order and whose
   * range starts where the first one starts.
   */
  lemma FuseSpec(nodes: seq<Node>, startpos: Position)
    requires AllText(nodes)
    ensures Fuse(nodes, startpos).TextNode?
    ensures nodes == [] ==> Fuse(nodes, startpos) == TextNode(Range(startpos, startpos), "")
    ensures Html(Fuse(nodes, startpos)) == HtmlSeq(nodes)
    ensures nodes != [] ==>
      && Fuse(nodes, startpos).range.start == nodes[0].range.start
      && Fuse(nodes, startpos).range.end == RangeOf(nodes[0].range.start, HtmlSeq(nodes)).end
  {
    TextsAreHtml(nodes);
  }

  /** Length of the longest prefix of `ns` made of text nodes. */
  function TextRun(ns: seq<Node>): (k: nat)
    ensures k <= |ns|
    ensures forall i :: 0 <= i < k ==> ns[i].TextNode?
    ensures k < |ns| ==> !ns[k].TextNode?
  {
    if ns == [] || !ns[0].TextNode? then 0 else 1 + TextRun(ns[1..])
  }

  predicate NoAdjacentText(ns: seq<Node>) {
    forall i :: 0 <= i < |ns| - 1 ==> !(ns[i].TextNode? && ns[i + 1].TextNode?)
  }

  /** A text node whose range is the one `fuse` would give it. */
  predicate Fused(n: Node) {
    n.TextNode? ==> n.range == RangeOf(n.range.start, n.text)
  }

  /**
   * `consolidate_children`: every maximal run of adjacent text nodes becomes
   * one fused text node; other nodes, comments included, pass through.
   */
  function Consolidate(ns: seq<Node>): (r: seq<Node>)
    ensures NoAdjacentText(r)
    ensures forall i :: 0 <= i < |r| ==> Fused(r[i])
    ensures |r| <= |ns|
    ensures (|r| > 0 && r[0].TextNode?) <==> (|ns| > 0 && ns[0].TextNode?)
    decreases |ns|
  {
    if ns == [] then []
    else if ns[0].TextNode? then
      var k := TextRun(ns);
      [Fuse(ns[..k], Position(0, 0))] + Consolidate(ns[k..])
    else
      [ns[0]] + Consolidate(ns[1..])
  }

  /** The non-text nodes of `ns`, in order. */
  function NonText(ns: seq<Node>): seq<Node> {
    if ns == [] then [] else (if ns[0].TextNode? then [] else [ns[0]]) + NonText(ns[1..])
  }

  lemma {:induction false} NonTextConcat(a: seq<Node>, b: seq<Node>)
    ensures NonText(a + b) == NonText(a) + NonText(b)
    decreases |a|
  {
    if a == [] {
      assert a + b == b;
    } else {
      assert (a + b)[1..] == a[1..] + b;
      NonTextConcat(a[1..], b);
    }
  }

  lemma {:induction false} NonTextOfText(ns: seq<Node>)
    requires AllText(ns)
    ensures NonText(ns) == []
  {
    if ns != [] {
      NonTextOfText(ns[1..]);
    }
  }

  /** Consolidation keeps every non-text node, comments included, in its order. */
  lemma {:induction false} ConsolidateKeepsNonText(ns: seq<Node>)
    ensures NonText(Consolidate(ns)) == NonText(ns)
    decreases |ns|
  {
    if ns != [] {
      if ns[0].TextNode? {
        var k := TextRun(ns);
        assert ns == ns[..k] + ns[k..];
        NonTextConcat(ns[..k], ns[k..]);
        NonTextOfText(ns[..k]);
        NonTextConcat([Fuse(ns[..k], Position(0, 0))], Consolidate(ns[k..]));
        ConsolidateKeepsNonText(ns[k..]);
      } else {
        NonTextConcat([ns[0]], Consolidate(ns[1..]));
        ConsolidateKeepsNonText(ns[1..]);
      }
    }
  }

  /** Consolidation does not change the concatenated html of the children. */
  lemma {:induction false} ConsolidateKeepsHtml(ns: seq<Node>)
    ensures HtmlSeq(Consolidate(ns)) == HtmlSeq(ns)
    decreases |ns|
  {
    if ns != [] {
      if ns[0].TextNode? {
        var k := TextRun(ns);
        assert ns == ns[..k] + ns[k..];
        HtmlSeqConcat(ns[..k], ns[k..]);
        FuseSpec(ns[..k], Position(0, 0));
        HtmlSeqConcat([Fuse(ns[..k], Position(0, 0))], Consolidate(ns[k..]));
        ConsolidateKeepsHtml(ns[k..]);
      } else {
        HtmlSeqConcat([ns[0]], Consolidate(ns[1..]));
        ConsolidateKeepsHtml(ns[1..]);
      }
    }
  }

  /** Children with no adjacent text nodes, each already fused, are left as they are. */
  lemma {:induction false} ConsolidateFixpoint(ns: seq<Node>)
    requires NoAdjacentText(ns)
    requires forall i :: 0 <= i < |ns| ==> Fused(ns[i])
    ensures Consolidate(ns) == ns
    decreases |ns|
  {
    if ns != [] {
      if ns[0].TextNode? {
        assert TextRun(ns) == 1 by {
          if |ns| > 1 { assert !ns[1].TextNode?; }
        }
        assert ns[..1] == [ns[0]];
        assert Texts([ns[0]]) == ns[0].text + "" == ns[0].text;
        assert Fused(ns[0]);
        assert Fuse(ns[..1], Position(0, 0)) == ns[0];
        assert Consolidate(ns) == [ns[0]] + Consolidate(ns[1..]);
        ConsolidateFixpoint(ns[1..]);
        assert ns == [ns[0]] + ns[1..];
      } else {
        ConsolidateFixpoint(ns[1..]);
        assert ns == [ns[0]] + ns[1..];
      }
    }
  }

  /** Consolidating twice is consolidating once. */
  lemma ConsolidateIdempotent(ns: seq<Node>)
    ensures Consolidate(Consolidate(ns)) == Consolidate(ns)
  {
    ConsolidateFixpoint(Consolidate(ns));
  }

  // ---------------------------------------------------------------------
  // Traversal and search (`__iter__`, `inner_tags`, `find_all`, `find`)

  /** `iter(node)`: the node, then (for a tag) its descendants in pre-order. */
  function Iter(n: Node): (r: seq<Node>)
    ensures |r| > 0 && r[0] == n
    decreases n, 1
  {
    if n.Tag? then [n] + IterSeq(n.children) else [n]
  }

  function IterSeq(ns: seq<Node>): seq<Node>
    decreases ns, 0
  {
    if ns == [] then [] else Iter(ns[0]) + IterSeq(ns[1..])
  }

  /** The tags of `s` named `name`, in order. */
  function TagsNamed(s: seq<Node>, name: string): (r: seq<Node>)
    ensures |r| <= |s|
    ensures forall x :: x in r <==> x in s && x.Tag? && x.name == name
  {
    if s == [] then []
    else (if s[0].Tag? && s[0].name == name then [s[0]] else []) + TagsNamed(s[1..], name)
  }

  lemma {:induction false} TagsNamedConcat(a: seq<Node>, b: seq<Node>, name: string)
    ensures TagsNamed(a + b, name) == TagsNamed(a, name) + TagsNamed(b, name)
    decreases |a|
  {
    if a == [] {
      assert a + b == b;
    } else {
      assert (a + b)[1..] == a[1..] + b;
      TagsNamedConcat(a[1..], b, name);
    }
  }

  /** `Tag.find_all(name)`: the tags named `name` among the tag and its descendants, in iteration order. */
  function FindAll(t: Node, name: string): seq<Node>
    requires t.Tag?
  {
    TagsNamed(Iter(t), name)
  }

  /** `Tag.find(name)`: the first match, or nothing (the source raises `StopIteration`). */
  function Find(t: Node, name: string): (r: Option<Node>)
    requires t.Tag?
    ensures r.None? <==> forall x :: x in Iter(t) ==> !(x.Tag? && x.name == name)
    ensures r.Some? ==> r.value.Tag? && r.value.name == name && r.value in Iter(t)
    ensures r.Some? ==> |FindAll(t, name)| > 0 && r.value == FindAll(t, name)[0]
  {
    var found := FindAll(t, name);
    if |found| > 0 then
      assert found[0] in found;
      Some(found[0])
    else None
  }

  /** A reference pre-order search written by recursion on the tree. */
  function Search(n: Node, name: string): seq<Node>
    decreases n, 1
  {
    if n.Tag? then (if n.name == name then [n] else []) + SearchSeq(n.children, name) else []
  }

  function SearchSeq(ns: seq<Node>, name: string): seq<Node>
    decreases ns, 0
  {
    if ns == [] then [] else Search(ns[0], name) + SearchSeq(ns[1..], name)
  }

  lemma {:induction false} IterMatchesSearch(n: Node, name: string)
    ensures TagsNamed(Iter(n), name) == Search(n, name)
    decreases n, 1
  {
    if n.Tag? {
      TagsNamedConcat([n], IterSeq(n.children), name);
      IterSeqMatchesSearch(n.children, name);
    }
  }

  lemma {:induction false} IterSeqMatchesSearch(ns: seq<Node>, name: string)
    ensures TagsNamed(IterSeq(ns), name) == SearchSeq(ns, name)
    decreases ns, 0
  {
    if ns != [] {
      TagsNamedConcat(Iter(ns[0]), IterSeq(ns[1..]), name);
      IterMatchesSearch(ns[0], name);
      IterSeqMatchesSearch(ns[1..], name);
    }
  }

  /**
   * `find_all` is a pre-order search that starts with the tag itself: the tag
   * (when its name matches) comes first, then each child's matches in order.
   */
  lemma FindAllPreorder(t: Node, name: string)
    requires t.Tag?
    ensures FindAll(t, name) == (if t.name == name then [t] else []) + SearchSeq(t.children, name)
    ensures forall x :: x in FindAll(t, name) <==> x in Iter(t) && x.Tag? && x.name == name
  {
    IterMatchesSearch(t, name);
  }

  // ---------------------------------------------------------------------
  // Positions in a forest and structural edits

  /** A sequence of child indices, starting from a top-level index. */
  type Path = seq<nat>

  predicate ValidPath(ns: seq<Node>, p: Path)
    decreases |p|
  {
    && |p| > 0
    && p[0] < |ns|
    && (|p| > 1 ==> ns[p[0]].Tag? && ValidPath(ns[p[0]].children, p[1..]))
  }

  function NodeAt(ns: seq<Node>, p: Path): Node
    requires ValidPath(ns, p)
    decreases |p|
  {
    if |p| == 1 then ns[p[0]] else NodeAt(ns[p[0]].children, p[1..])
  }

  /** The forest with the node at `p` replaced by `t`, everything off the path untouched. */
  function UpdateAt(ns: seq<Node>, p: Path, t: Node): (r: seq<Node>)
    requires ValidPath(ns, p)
    ensures |r| == |ns|
    ensures ValidPath(r, p) && NodeAt(r, p) == t
    ensures forall i :: 0 <= i < |ns| && i != p[0] ==> r[i] == ns[i]
    decreases |p|
  {
    if |p| == 1 then ns[p[0] := t]
    else ns[p[0] := ns[p[0]].(children := UpdateAt(ns[p[0]].children, p[1..], t))]
  }

  /** Neither path leads through the other: they name nodes in disjoint subtrees. */
  predicate Apart(a: Path, b: Path) {
    !(a <= b) && !(b <= a)
  }

  /** Two tags alike in every field, except that their children may differ (their number may not). */
  predicate SameShell(a: Node, b: Node) {
    && a.Tag? && b.Tag?
    && a.range == b.range && a.text == b.text && a.name == b.name
    && a.attrs == b.attrs && a.selfClosing == b.selfClosing
    && |a.children| == |b.children|
  }

  /**
   * `r` differs from `ns` only at `p` and on the way down to it: the forest
   * keeps its length, every tag above `p` keeps its fields and its number of
   * children, and every node apart from `p` is where it was and as it was.
   */
  ghost predicate OnlyAlong(ns: seq<Node>, r: seq<Node>, p: Path)
  {
    && |r| == |ns|
    && (forall k :: 1 <= k < |p| ==>
          ValidPath(ns, p[..k]) && ValidPath(r, p[..k]) && SameShell(NodeAt(r, p[..k]), NodeAt(ns, p[..k])))
    && (forall p' :: ValidPath(ns, p') && Apart(p', p) ==> ValidPath(r, p') && NodeAt(r, p') == NodeAt(ns, p'))
  }

  /** A node is found the same way in two forests that agree at its top-level index. */
  lemma SameTop(ns: seq<Node>, r: seq<Node>, p: Path)
    requires ValidPath(ns, p) && p[0] < |r| && r[p[0]] == ns[p[0]]
    ensures ValidPath(r, p) && NodeAt(r, p) == NodeAt(ns, p)
  {
  }

  /** `UpdateAt` changes nothing but the node at `p` and the children lists above it. */
  lemma {:induction false} UpdateAtFrame(ns: seq<Node>, p: Path, t: Node)
    requires ValidPath(ns, p)
    ensures OnlyAlong(ns, UpdateAt(ns, p, t), p)
    decreases |p|
  {
    var r := UpdateAt(ns, p, t);
    forall p' | ValidPath(ns, p') && Apart(p', p)
      ensures ValidPath(r, p') && NodeAt(r, p') == NodeAt(ns, p')
    {
      if p'[0] != p[0] {
        SameTop(ns, r, p');
      } else {
        UpdateAtFrame(ns[p[0]].children, p[1..], t);
        assert p' == [p'[0]] + p'[1..] && p == [p[0]] + p[1..];
      }
    }
    forall k | 1 <= k < |p|
      ensures ValidPath(ns, p[..k]) && ValidPath(r, p[..k]) && SameShell(NodeAt(r, p[..k]), NodeAt(ns, p[..k]))
    {
      if k > 1 {
        UpdateAtFrame(ns[p[0]].children, p[1..], t);
        assert p[..k][1..] == p[1..][..k - 1];
      }
    }
  }

  /** Child `i` of the node at `p` sits at `p + [i]`. */
  lemma {:induction false} ChildPath(ns: seq<Node>, p: Path, i: nat)
    requires ValidPath(ns, p) && NodeAt(ns, p).Tag? && i < |NodeAt(ns, p).children|
    ensures ValidPath(ns, p + [i]) && NodeAt(ns, p + [i]) == NodeAt(ns, p).children[i]
    decreases |p|
  {
    assert (p + [i])[0] == p[0];
    if |p| > 1 {
      assert (p + [i])[1..] == p[1..] + [i];
      ChildPath(ns[p[0]].children, p[1..], i);
    }
  }

  /** `Tag.add_child` on the tag itself: the node becomes its last child. */
  function AddChild(t: Node, n: Node): (r: Node)
    requires t.Tag?
    ensures r.Tag? && r.children == t.children + [n]
    ensures r == t.(children := t.children + [n])
  {
    t.(children := t.children + [n])
  }

  /**
   * `Tag.add_child` on the tag at `p`: the node is appended as its last child,
   * so that its parent is that tag; earlier children are unchanged.
   */
  function AddChildAt(ns: seq<Node>, p: Path, n: Node): (r: seq<Node>)
    requires ValidPath(ns, p) && NodeAt(ns, p).Tag?
    ensures ValidPath(r, p) && NodeAt(r, p).Tag?
    ensures NodeAt(r, p).children == NodeAt(ns, p).children + [n]
    ensures NodeAt(r, p) == NodeAt(ns, p).(children := NodeAt(ns, p).children + [n])
    ensures ValidPath(r, p + [|NodeAt(ns, p).children|])
    ensures NodeAt(r, p + [|NodeAt(ns, p).children|]) == n
    ensures OnlyAlong(ns, r, p)
  {
    var t := NodeAt(ns, p);
    var r := UpdateAt(ns, p, AddChild(t, n));
    UpdateAtFrame(ns, p, AddChild(t, n));
    ChildPath(r, p, |t.children|);
    r
  }

  /** The parent path of a nested node. */
  function ParentPath(p: Path): Path
    requires |p| > 1
  {
    p[..|p| - 1]
  }

  lemma {:induction false} ParentValid(ns: seq<Node>, p: Path)
    requires ValidPath(ns, p) && |p| > 1
    ensures ValidPath(ns, ParentPath(p)) && NodeAt(ns, ParentPath(p)).Tag?
    ensures p[|p| - 1] < |NodeAt(ns, ParentPath(p)).children|
    ensures NodeAt(ns, ParentPath(p)).children[p[|p| - 1]] == NodeAt(ns, p)
    decreases |p|
  {
    if |p| > 2 {
      assert ParentPath(p)[1..] == ParentPath(p[1..]);
      ParentValid(ns[p[0]].children, p[1..]);
    }
  }

  /**
   * `Tag.remove`: deletes the tag from its parent's children and returns it;
   * a top-level tag has no parent and the forest is left as it is.
   */
  function Remove(ns: seq<Node>, p: Path): (r: (seq<Node>, Node))
    requires ValidPath(ns, p) && NodeAt(ns, p).Tag?
    ensures r.1 == NodeAt(ns, p)
    ensures |p| == 1 ==> r.0 == ns
    ensures |p| > 1 ==>
      var q, i := ParentPath(p), p[|p| - 1];
      && ValidPath(ns, q) && NodeAt(ns, q).Tag? && i < |NodeAt(ns, q).children|
      && ValidPath(r.0, q) && NodeAt(r.0, q).Tag?
      && NodeAt(r.0, q).children == NodeAt(ns, q).children[..i] + NodeAt(ns, q).children[i + 1..]
      && NodeAt(r.0, q) == NodeAt(ns, q).(children := NodeAt(r.0, q).children)
      && OnlyAlong(ns, r.0, q)
  {
    if |p| == 1 then (ns, NodeAt(ns, p))
    else
      ParentValid(ns, p);
      var q, i := ParentPath(p), p[|p| - 1];
      var parent := NodeAt(ns, q);
      var t := parent.(children := parent.children[..i] + parent.children[i + 1..]);
      UpdateAtFrame(ns, q, t);
      (UpdateAt(ns, q, t), NodeAt(ns, p))
  }

  /**
   * `Node.replace_with_all`: inserts `nodes` into the parent's children just
   * before the node, which stays in place; a node without a parent is a no-op.
   */
  function ReplaceWithAll(ns: seq<Node>, p: Path, nodes: seq<Node>): (r: seq<Node>)
    requires ValidPath(ns, p)
    ensures |p| == 1 ==> r == ns
    ensures |p| > 1 ==>
      var q, i := ParentPath(p), p[|p| - 1];
      && ValidPath(ns, q) && NodeAt(ns, q).Tag? && i < |NodeAt(ns, q).children|
      && ValidPath(r, q) && NodeAt(r, q).Tag?
      && |NodeAt(r, q).children| == |NodeAt(ns, q).children| + |nodes|
      && NodeAt(r, q).children[..i] == NodeAt(ns, q).children[..i]
      && NodeAt(r, q).children[i..i + |nodes|] == nodes
      && NodeAt(r, q).children[i + |nodes|..] == NodeAt(ns, q).children[i..]
      && NodeAt(r, q).children[i + |nodes|] == NodeAt(ns, p)
      && NodeAt(r, q) == NodeAt(ns, q).(children := NodeAt(ns, q).children[..i] + nodes + NodeAt(ns, q).children[i..])
      && OnlyAlong(ns, r, q)
  {
    if |p| == 1 then ns
    else
      ParentValid(ns, p);
      var q, i := ParentPath(p), p[|p| - 1];
      var parent := NodeAt(ns, q);
      var c := parent.children;
      var c' := c[..i] + nodes + c[i..];
      assert c'[..i] == c[..i];
      assert c'[i..i + |nodes|] == nodes;
      assert c'[i + |nodes|..] == c[i..];
      UpdateAtFrame(ns, q, parent.(children := c'));
      UpdateAt(ns, q, parent.(children := c'))
  }

  /** `Tag.replace_with_children`: the tag's children are inserted before it. */
  function ReplaceWithChildren(ns: seq<Node>, p: Path): (r: seq<Node>)
    requires ValidPath(ns, p) && NodeAt(ns, p).Tag?
    ensures |p| == 1 ==> r == ns
    ensures |p| > 1 ==>
      var q, i, k := ParentPath(p), p[|p| - 1], |NodeAt(ns, p).children|;
      && ValidPath(ns, q) && NodeAt(ns, q).Tag? && i < |NodeAt(ns, q).children|
      && ValidPath(r, q) && NodeAt(r, q).Tag?
      && |NodeAt(r, q).children| == |NodeAt(ns, q).children| + k
      && NodeAt(r, q).children[..i] == NodeAt(ns, q).children[..i]
      && NodeAt(r, q).children[i..i + k] == NodeAt(ns, p).children
      && NodeAt(r, q).children[i + k..] == NodeAt(ns, q).children[i..]
      && NodeAt(r, q).children[i + k] == NodeAt(ns, p)
      && NodeAt(r, q) == NodeAt(ns, q).(children := NodeAt(ns, q).children[..i] + NodeAt(ns, p).children + NodeAt(ns, q).children[i..])
      && OnlyAlong(ns, r, q)
  {
    ReplaceWithAll(ns, p, NodeAt(ns, p).children)
  }
}
