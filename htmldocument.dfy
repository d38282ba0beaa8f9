/**
 * A parsed document: the ordered top-level nodes and the queries on them
 * (`Document` in Simple/html/document.py and in Simple/htmlparser.py).
 */
module HtmlDocument {
  import opened Wrappers
  import opened Tags

  /** `Document.roots()`: the top-level tags, in order. */
  function Roots(children: seq<Node>): (r: seq<Node>)
    ensures |r| <= |children|
    ensures forall x :: x in r <==> x in children && x.Tag?
    ensures forall i :: 0 <= i < |r| ==> r[i].Tag?
  {
    if children == [] then []
    else (if children[0].Tag? then [children[0]] else []) + Roots(children[1..])
  }

  /**
   * `roots()` is an order-keeping filter: one node gives itself when it is a
   * tag and nothing otherwise, and the roots of a concatenation are the roots
   * of its parts, in order. Together these fix `Roots` on every list.
   */
  lemma {:induction false} RootsFilter(a: seq<Node>, b: seq<Node>, x: Node)
    ensures Roots([x]) == (if x.Tag? then [x] else [])
    ensures Roots(a + b) == Roots(a) + Roots(b)
    decreases |a|
  {
    assert [x][1..] == [];
    if a == [] {
      assert a + b == b;
    } else {
      assert (a + b)[1..] == a[1..] + b;
      RootsFilter(a[1..], b, x);
    }
  }

  lemma {:induction false} RootsHead(children: seq<Node>)
    requires |Roots(children)| > 0
    ensures exists i :: (0 <= i < |children| && children[i] == Roots(children)[0]
                         && forall j :: 0 <= j < i ==> !children[j].Tag?)
  {
    if !children[0].Tag? {
      RootsHead(children[1..]);
      var i :| 0 <= i < |children[1..]| && children[1..][i] == Roots(children[1..])[0]
        && forall j :: 0 <= j < i ==> !children[1..][j].Tag?;
      assert children[i + 1] == Roots(children)[0];
      forall j | 0 <= j < i + 1 ensures !children[j].Tag? {
        if j > 0 { assert children[j] == children[1..][j - 1]; }
      }
    } else {
      assert children[0] == Roots(children)[0];
    }
  }

  /** `Document.root`: the first top-level tag, or nothing when there is none. */
  function Root(children: seq<Node>): (r: Option<Node>)
    ensures r.None? <==> forall i :: 0 <= i < |children| ==> !children[i].Tag?
    ensures r.Some? ==> r.value.Tag?
    ensures r.Some? ==> exists i :: (0 <= i < |children| && children[i] == r.value
                                     && forall j :: 0 <= j < i ==> !children[j].Tag?)
  {
    var roots := Roots(children);
    if |roots| > 0 then
      RootsHead(children);
      Some(roots[0])
    else
      assert forall i :: 0 <= i < |children| ==> children[i] in children;
      None
  }

  /** The matches of `Tag.find_all` under each of `roots`, concatenated. */
  function FindAllUnder(roots: seq<Node>, name: string): seq<Node>
    requires forall i :: 0 <= i < |roots| ==> roots[i].Tag?
  {
    if roots == [] then [] else FindAll(roots[0], name) + FindAllUnder(roots[1..], name)
  }

  /** `Document.find_all`: searches under the top-level tags only. */
  function DocFindAll(children: seq<Node>, name: string): seq<Node> {
    FindAllUnder(Roots(children), name)
  }

  /**
   * Searching under the roots only loses nothing: it is the pre-order search
   * of the whole document, because a top-level text or comment holds no tag.
   */
  lemma {:induction false} DocFindAllIsSearch(children: seq<Node>, name: string)
    ensures DocFindAll(children, name) == SearchSeq(children, name)
    ensures DocFindAll(children, name) == TagsNamed(IterSeq(children), name)
  {
    IterSeqMatchesSearch(children, name);
    if children != [] {
      DocFindAllIsSearch(children[1..], name);
      if children[0].Tag? {
        IterMatchesSearch(children[0], name);
        assert Roots(children) == [children[0]] + Roots(children[1..]);
      } else {
        assert Roots(children) == Roots(children[1..]);
      }
    }
  }

  /** `Document.__iter__`: every node of the document in pre-order. */
  function DocIter(children: seq<Node>): seq<Node> {
    IterSeq(children)
  }

  /**
   * Iterating a document chains the iterations of its top-level nodes: one
   * node iterates as `iter(node)`, and the iteration of a concatenation is
   * the concatenation of the iterations.
   */
  lemma {:induction false} DocIterChain(a: seq<Node>, b: seq<Node>, x: Node)
    ensures DocIter([]) == []
    ensures DocIter([x]) == Iter(x)
    ensures DocIter(a + b) == DocIter(a) + DocIter(b)
    decreases |a|
  {
    assert [x][1..] == [];
    if a == [] {
      assert a + b == b;
    } else {
      assert (a + b)[1..] == a[1..] + b;
      DocIterChain(a[1..], b, x);
    }
  }

  /** `Document.__html__`: the in-order concatenation of the top-level nodes' html. */
  function DocHtml(children: seq<Node>): string {
    HtmlSeq(children)
  }

  /** The html of a document is the html of its first nodes followed by that of the rest. */
  lemma DocHtmlConcat(a: seq<Node>, b: seq<Node>)
    ensures DocHtml(a + b) == DocHtml(a) + DocHtml(b)
    ensures DocHtml([]) == ""
  {
    HtmlSeqConcat(a, b);
  }
}
