/**
 * The event-driven tree builder (`DocumentParser` in Simple/html/document.py
 * and in Simple/htmlparser.py).
 *
 * The tokenizer that splits characters into tags, text and comments belongs
 * to the host platform; here its output is a sequence of events, each
 * carrying what the builder asks of the tokenizer (`getpos()` and, for start
 * tags, `get_starttag_text()`).
 *
 * The builder keeps the top-level nodes and a stack of the tags still open.
 * Every open tag is already attached to the tree, so the stack is a list of
 * paths into the tree: the open tags always form its rightmost spine.
 */
module Builder {
  import opened Wrappers
  import opened Positions
  import opened Tags
  import opened HtmlDocument

  /** Void elements: started but never pushed, never closed. */
  const SelfClosingTags: seq<string> :=
    ["area", "base", "br", "col", "embed", "hr", "img", "input",
     "link", "meta", "param", "source", "track", "wbr"]

  datatype Event =
    | StartTag(name: string, attrs: map<string, string>, text: string, pos: Position)
    | EndTag(name: string, pos: Position)
    | StartEndTag(name: string, attrs: map<string, string>, text: string, pos: Position)
    | Data(data: string, pos: Position)
    | CommentData(data: string, pos: Position)

  datatype ParseError =
    | EndTagWithoutOpenTag(pos: Position)  // `pop` on an empty tag stack
    | DocumentIncomplete(top: Node)        // `document` read while a tag is open

  // ---------------------------------------------------------------------
  // The rightmost spine of a forest

  /** The `d` last-in-line tags, each the last child of the one before, are open tags. */
  predicate SpineOk(ns: seq<Node>, d: nat)
    decreases d
  {
    d == 0 ||
    (|ns| > 0 && ns[|ns| - 1].Tag? && !ns[|ns| - 1].selfClosing
     && SpineOk(ns[|ns| - 1].children, d - 1))
  }

  /** Path of the `d`-th tag down the rightmost spine. */
  function SpinePath(ns: seq<Node>, d: nat): (p: Path)
    decreases d
  {
    if d == 0 || |ns| == 0 || !ns[|ns| - 1].Tag? then []
    else [|ns| - 1] + SpinePath(ns[|ns| - 1].children, d - 1)
  }

  /** The list that receives new nodes when `d` tags are open. */
  function Level(ns: seq<Node>, d: nat): seq<Node>
    requires SpineOk(ns, d)
    decreases d
  {
    if d == 0 then ns else Level(ns[|ns| - 1].children, d - 1)
  }

  /** The innermost of `d` open tags. */
  function SpineTop(ns: seq<Node>, d: nat): (t: Node)
    requires SpineOk(ns, d) && d > 0
    ensures t.Tag? && !t.selfClosing
    decreases d
  {
    if d == 1 then ns[|ns| - 1] else SpineTop(ns[|ns| - 1].children, d - 1)
  }

  lemma {:induction false} SpineOkShorter(ns: seq<Node>, d: nat, k: nat)
    requires SpineOk(ns, d) && k <= d
    ensures SpineOk(ns, k)
    decreases d
  {
    if k > 0 {
      SpineOkShorter(ns[|ns| - 1].children, d - 1, k - 1);
    }
  }

  lemma {:induction false} SpinePathAt(ns: seq<Node>, d: nat)
    requires SpineOk(ns, d) && d > 0
    ensures |SpinePath(ns, d)| == d
    ensures ValidPath(ns, SpinePath(ns, d))
    ensures NodeAt(ns, SpinePath(ns, d)) == SpineTop(ns, d)
    ensures SpineTop(ns, d).children == Level(ns, d)
    decreases d
  {
    var p := SpinePath(ns, d);
    if d > 1 {
      SpinePathAt(ns[|ns| - 1].children, d - 1);
      assert p[1..] == SpinePath(ns[|ns| - 1].children, d - 1);
    }
  }

  /** One more open tag: the deeper spine extends the shallower one by the last index. */
  lemma {:induction false} SpinePathSnoc(ns: seq<Node>, d: nat)
    requires SpineOk(ns, d + 1)
    ensures SpineOk(ns, d) && |Level(ns, d)| > 0
    ensures SpinePath(ns, d + 1) == SpinePath(ns, d) + [|Level(ns, d)| - 1]
    decreases d
  {
    SpineOkShorter(ns, d + 1, d);
    if d > 0 {
      SpinePathSnoc(ns[|ns| - 1].children, d - 1);
    }
  }

  /** Appends `n` to the list that receives new nodes when `d` tags are open. */
  function AppendAt(ns: seq<Node>, d: nat, n: Node): (r: seq<Node>)
    requires SpineOk(ns, d)
    decreases d
  {
    if d == 0 then ns + [n]
    else ns[|ns| - 1 := ns[|ns| - 1].(children := AppendAt(ns[|ns| - 1].children, d - 1, n))]
  }

  /** Closes the innermost of `d` open tags: the end position is set and the children consolidated. */
  function CloseAt(ns: seq<Node>, d: nat, pos: Position): (r: seq<Node>)
    requires SpineOk(ns, d) && d > 0
    decreases d
  {
    if d == 1 then ns[|ns| - 1 := CloseTag(ns[|ns| - 1], pos)]
    else ns[|ns| - 1 := ns[|ns| - 1].(children := CloseAt(ns[|ns| - 1].children, d - 1, pos))]
  }

  /** What `handle_endtag` does to the tag it pops. */
  function CloseTag(t: Node, pos: Position): (r: Node)
    requires t.Tag?
  {
    t.(range := Range(t.range.start, pos), children := Consolidate(t.children))
  }

  lemma {:induction false} AppendAtSpine(ns: seq<Node>, d: nat, n: Node)
    requires SpineOk(ns, d)
    ensures SpineOk(AppendAt(ns, d, n), d)
    ensures Level(AppendAt(ns, d, n), d) == Level(ns, d) + [n]
    ensures forall k :: 0 <= k <= d ==> SpinePath(AppendAt(ns, d, n), k) == SpinePath(ns, k)
    ensures n.Tag? && !n.selfClosing ==> SpineOk(AppendAt(ns, d, n), d + 1)
    decreases d
  {
    var r := AppendAt(ns, d, n);
    if d > 0 {
      AppendAtSpine(ns[|ns| - 1].children, d - 1, n);
      forall k | 0 < k <= d ensures SpinePath(r, k) == SpinePath(ns, k) {
        assert SpinePath(r, k) == [|ns| - 1] + SpinePath(r[|r| - 1].children, k - 1);
      }
    } else {
      forall k | 0 <= k <= d ensures SpinePath(r, k) == SpinePath(ns, k) {
      }
    }
  }

  lemma {:induction false} CloseAtSpine(ns: seq<Node>, d: nat, pos: Position)
    requires SpineOk(ns, d) && d > 0
    ensures SpineOk(CloseAt(ns, d, pos), d - 1)
    ensures forall k :: 0 <= k < d ==> SpinePath(CloseAt(ns, d, pos), k) == SpinePath(ns, k)
    ensures SpineOk(CloseAt(ns, d, pos), d) && SpineTop(CloseAt(ns, d, pos), d) == CloseTag(SpineTop(ns, d), pos)
    decreases d
  {
    var r := CloseAt(ns, d, pos);
    if d > 1 {
      CloseAtSpine(ns[|ns| - 1].children, d - 1, pos);
      forall k | 0 < k < d ensures SpinePath(r, k) == SpinePath(ns, k) {
        assert SpinePath(r, k) == [|ns| - 1] + SpinePath(r[|r| - 1].children, k - 1);
      }
    }
  }

  /** Adding a child to the stack top (`add_child` at the top's path) is appending at the spine's end. */
  lemma {:induction false} AddChildAtSpine(ns: seq<Node>, d: nat, n: Node)
    requires SpineOk(ns, d) && d > 0
    ensures ValidPath(ns, SpinePath(ns, d)) && NodeAt(ns, SpinePath(ns, d)).Tag?
    ensures AddChildAt(ns, SpinePath(ns, d), n) == AppendAt(ns, d, n)
    decreases d
  {
    SpinePathAt(ns, d);
    var p := SpinePath(ns, d);
    if d > 1 {
      AddChildAtSpine(ns[|ns| - 1].children, d - 1, n);
      assert p[1..] == SpinePath(ns[|ns| - 1].children, d - 1);
    }
  }

  /** Updating the stack top (at its path) with its closed form is closing at the spine's end. */
  lemma {:induction false} CloseTagAtSpine(ns: seq<Node>, d: nat, pos: Position)
    requires SpineOk(ns, d) && d > 0
    ensures ValidPath(ns, SpinePath(ns, d)) && NodeAt(ns, SpinePath(ns, d)).Tag?
    ensures UpdateAt(ns, SpinePath(ns, d), CloseTag(NodeAt(ns, SpinePath(ns, d)), pos)) == CloseAt(ns, d, pos)
    decreases d
  {
    SpinePathAt(ns, d);
    var p := SpinePath(ns, d);
    if d > 1 {
      CloseTagAtSpine(ns[|ns| - 1].children, d - 1, pos);
      assert p[1..] == SpinePath(ns[|ns| - 1].children, d - 1);
    }
  }

  // ---------------------------------------------------------------------
  // The builder's state and its reaction to one event

  /** The top-level nodes and the paths of the open tags, outermost first. */
  datatype State = State(children: seq<Node>, stack: seq<Path>) {
    /** The stack holds exactly the open tags of the rightmost spine, outermost first. */
    predicate Valid() {
      && SpineOk(children, |stack|)
      && forall i :: 0 <= i < |stack| ==> stack[i] == SpinePath(children, i + 1)
    }

    /** `complete`: no tag is open. */
    predicate Complete() {
      |stack| == 0
    }
  }

  /** The state after `reset()`. */
  const Initial: State := State([], [])

  lemma {:induction false} StackTop(s: State)
    requires s.Valid() && |s.stack| > 0
    ensures s.stack[|s.stack| - 1] == SpinePath(s.children, |s.stack|)
    ensures ValidPath(s.children, s.stack[|s.stack| - 1])
    ensures NodeAt(s.children, s.stack[|s.stack| - 1]) == SpineTop(s.children, |s.stack|)
    ensures SpineTop(s.children, |s.stack|).children == Level(s.children, |s.stack|)
  {
    SpinePathAt(s.children, |s.stack|);
  }

  /** The path that the next attached node takes: last child of the stack top, or last top-level node. */
  function NextPath(s: State): (p: Path)
    requires s.Valid()
    ensures p == SpinePath(s.children, |s.stack|) + [|Level(s.children, |s.stack|)|]
  {
    if |s.stack| == 0 then [|s.children|]
    else
      StackTop(s);
      var top := s.stack[|s.stack| - 1];
      top + [|NodeAt(s.children, top).children|]
  }

  /** The attaching half of `_push_node`: `add_child` on the stack top, or append to the top level. */
  function Attach(s: State, n: Node): (r: seq<Node>)
    requires s.Valid()
    ensures r == AppendAt(s.children, |s.stack|, n)
    ensures ValidPath(r, NextPath(s)) && NodeAt(r, NextPath(s)) == n
    ensures |s.stack| == 0 ==> r == s.children + [n]
    ensures |s.stack| > 0 ==>
      var top := s.stack[|s.stack| - 1];
      && ValidPath(s.children, top) && NodeAt(s.children, top).Tag?
      && r == AddChildAt(s.children, top, n)
  {
    if |s.stack| == 0 then
      assert NodeAt(s.children + [n], [|s.children|]) == n;
      s.children + [n]
    else
      var d := |s.stack|;
      StackTop(s);
      AddChildAtSpine(s.children, d, n);
      AddChildAt(s.children, s.stack[d - 1], n)
  }

  lemma {:induction false} PushKeepsValid(s: State, n: Node, push: bool)
    requires s.Valid()
    requires push ==> n.Tag? && !n.selfClosing
    ensures State(Attach(s, n), if push then s.stack + [NextPath(s)] else s.stack).Valid()
  {
    var d := |s.stack|;
    var r := Attach(s, n);
    AppendAtSpine(s.children, d, n);
    if push {
      SpinePathSnoc(r, d);
      var st := s.stack + [NextPath(s)];
      forall i | 0 <= i < |st| ensures st[i] == SpinePath(r, i + 1) {
        if i < d {
          assert st[i] == s.stack[i];
        }
      }
    }
  }

  /** `_push_node`: attach, then push the node when it is a tag and `skip_stack` is off. */
  function Push(s: State, n: Node, skipStack: bool): (r: State)
    requires s.Valid()
    requires n.Tag? && !skipStack ==> !n.selfClosing
    ensures r.Valid()
  {
    var push := n.Tag? && !skipStack;
    PushKeepsValid(s, n, push);
    State(Attach(s, n), if push then s.stack + [NextPath(s)] else s.stack)
  }

  /** The part of `handle_endtag` after the pop: end position set, children consolidated. */
  function CloseTop(s: State, pos: Position): (r: State)
    requires s.Valid() && |s.stack| > 0
    ensures r.Valid()
  {
    var d := |s.stack|;
    var top := s.stack[d - 1];
    StackTop(s);
    CloseTagAtSpine(s.children, d, pos);
    CloseAtSpine(s.children, d, pos);
    var r := State(UpdateAt(s.children, top, CloseTag(NodeAt(s.children, top), pos)), s.stack[..d - 1]);
    assert forall i :: 0 <= i < d - 1 ==> r.stack[i] == s.stack[i];
    r
  }

  /** The self-closing tag that `handle_startendtag` builds. */
  function VoidTag(name: string, attrs: map<string, string>, text: string, pos: Position): Node {
    Tag(RangeOf(pos, text), text, name, attrs, [], true)
  }

  /** The open tag that `handle_starttag` builds for a non-void name. */
  function OpenTag(name: string, attrs: map<string, string>, text: string, pos: Position): Node {
    Tag(RangeOf(pos, text), text, name, attrs, [], false)
  }

  /** The builder's reaction to one tokenizer event. */
  function Step(s: State, e: Event): (r: Result<State, ParseError>)
    requires s.Valid()
    ensures r.Ok? ==> r.value.Valid()
  {
    match e
    case StartTag(name, attrs, text, pos) =>
      if name in SelfClosingTags then Ok(Push(s, VoidTag(name, attrs, text, pos), true))
      else Ok(Push(s, OpenTag(name, attrs, text, pos), false))
    case StartEndTag(name, attrs, text, pos) =>
      Ok(Push(s, VoidTag(name, attrs, text, pos), true))
    case EndTag(_, pos) =>
      if |s.stack| == 0 then Err(EndTagWithoutOpenTag(pos)) else Ok(CloseTop(s, pos))
    case Data(data, pos) =>
      Ok(Push(s, TextNode(RangeOf(pos, data), data), false))
    case CommentData(data, pos) =>
      PushKeepsValid(s, Comment(RangeOf(pos, data), data), false);
      Ok(State(Attach(s, Comment(RangeOf(pos, data), data)), s.stack))
  }

  /** Feeding an event sequence to a builder in state `s`; the first stray end tag stops it. */
  function RunFrom(s: State, events: seq<Event>): (r: Result<State, ParseError>)
    requires s.Valid()
    ensures r.Ok? ==> r.value.Valid()
    decreases |events|
  {
    if events == [] then Ok(s)
    else
      match RunFrom(s, events[..|events| - 1])
      case Err(e) => Err(e)
      case Ok(s') => Step(s', events[|events| - 1])
  }

  /** Feeding a whole event sequence to a fresh builder. */
  function Run(events: seq<Event>): (r: Result<State, ParseError>)
    ensures r.Ok? ==> r.value.Valid()
  {
    RunFrom(Initial, events)
  }

  /** Feeding in two pieces (as `read` feeds chunk after chunk) is feeding everything at once. */
  lemma {:induction false} RunFromConcat(s: State, a: seq<Event>, b: seq<Event>)
    requires s.Valid()
    ensures RunFrom(s, a + b) ==
      match RunFrom(s, a)
      case Err(e) => Err(e)
      case Ok(s') => RunFrom(s', b)
    decreases |b|
  {
    if b == [] {
      assert a + b == a;
    } else {
      var b' := b[..|b| - 1];
      assert (a + b)[..|a + b| - 1] == a + b';
      assert (a + b)[|a + b| - 1] == b[|b| - 1];
      RunFromConcat(s, a, b');
    }
  }

  /** Running one event more is one step more. */
  lemma RunFromNext(s: State, events: seq<Event>, i: nat, t: State)
    requires s.Valid() && i < |events| && RunFrom(s, events[..i]) == Ok(t)
    ensures RunFrom(s, events[..i + 1]) == Step(t, events[i])
  {
    assert events[..i + 1][..i] == events[..i];
  }

  /** Once a prefix of the events fails, the whole run fails with the same error. */
  lemma RunFromStops(s: State, events: seq<Event>, i: nat, e: ParseError)
    requires s.Valid() && i <= |events| && RunFrom(s, events[..i]) == Err(e)
    ensures RunFrom(s, events) == Err(e)
  {
    RunFromConcat(s, events[..i], events[i..]);
    assert events[..i] + events[i..] == events;
  }

  /** `flush` as evidently intended: the open tags are abandoned where they already sit in the tree. */
  function Flushed(s: State): (r: State)
    ensures r.Valid() && r.Complete() && r.children == s.children
  {
    State(s.children, [])
  }

  /** `flush` as written: the outermost open tag is appended to the top level a second time. */
  function FlushedAsWritten(s: State): (r: State)
    requires s.Valid()
    ensures r.Valid() && r.Complete()
  {
    if |s.stack| > 0 then
      SpinePathAt(s.children, 1);
      State(s.children + [NodeAt(s.children, s.stack[0])], [])
    else State(s.children, [])
  }

  /** `document` of Simple/htmlparser.py: the top-level nodes once complete, otherwise nothing. */
  function DocumentOf(s: State): (r: Option<seq<Node>>)
    ensures r.Some? <==> s.Complete()
    ensures r.Some? ==> r.value == s.children
  {
    if s.Complete() then Some(s.children) else None
  }

  /** `document` of Simple/html/document.py: incomplete input raises with the stack-top tag. */
  function StrictDocumentOf(s: State): (r: Result<seq<Node>, ParseError>)
    requires s.Valid()
    ensures r.Ok? <==> s.Complete()
    ensures r.Ok? ==> r.value == s.children
    ensures r.Err? ==> r.error == DocumentIncomplete(SpineTop(s.children, |s.stack|))
  {
    if s.Complete() then Ok(s.children)
    else
      StackTop(s);
      Err(DocumentIncomplete(NodeAt(s.children, s.stack[|s.stack| - 1])))
  }

  /** `parse`/`read` of Simple/htmlparser.py: feed everything, `flush`, read `document`. */
  function Parse(events: seq<Event>): Result<Option<seq<Node>>, ParseError> {
    match Run(events)
    case Err(e) => Err(e)
    case Ok(s) => Ok(DocumentOf(Flushed(s)))
  }

  /** The same with `flush` as written. */
  function ParseAsWritten(events: seq<Event>): Result<Option<seq<Node>>, ParseError> {
    match Run(events)
    case Err(e) => Err(e)
    case Ok(s) => Ok(DocumentOf(FlushedAsWritten(s)))
  }

  /** `parse`/`read` of Simple/html/document.py: feed everything, read `document` (no flush). */
  function ParseStrict(events: seq<Event>): Result<seq<Node>, ParseError> {
    match Run(events)
    case Err(e) => Err(e)
    case Ok(s) => StrictDocumentOf(s)
  }

  // ---------------------------------------------------------------------
  // What each handler does

  /**
   * A start tag: a void name gives a self-closing tag that is attached but
   * not pushed; any other name gives an open tag attached to the stack top
   * (or to the top level when nothing is open) and then pushed.
   */
  lemma StartTagStep(s: State, name: string, attrs: map<string, string>, text: string, pos: Position)
    requires s.Valid()
    ensures Step(s, StartTag(name, attrs, text, pos)).Ok?
    ensures var r := Step(s, StartTag(name, attrs, text, pos)).value;
      && ValidPath(r.children, NextPath(s))
      && (name in SelfClosingTags ==>
            r.stack == s.stack && NodeAt(r.children, NextPath(s)) == VoidTag(name, attrs, text, pos))
      && (name !in SelfClosingTags ==>
            r.stack == s.stack + [NextPath(s)] && NodeAt(r.children, NextPath(s)) == OpenTag(name, attrs, text, pos))
    ensures |s.stack| == 0 ==>
      Step(s, StartTag(name, attrs, text, pos)).value.children ==
        s.children + [if name in SelfClosingTags then VoidTag(name, attrs, text, pos) else OpenTag(name, attrs, text, pos)]
    ensures |s.stack| > 0 ==>
      |NextPath(s)| == |s.stack| + 1 && NextPath(s)[..|s.stack|] == s.stack[|s.stack| - 1]
  {
    if |s.stack| > 0 {
      StackTop(s);
      SpinePathAt(s.children, |s.stack|);
    }
  }

  /** An explicit self-closing tag is attached and never pushed, whatever its name. */
  lemma StartEndTagStep(s: State, name: string, attrs: map<string, string>, text: string, pos: Position)
    requires s.Valid()
    ensures Step(s, StartEndTag(name, attrs, text, pos)).Ok?
    ensures var r := Step(s, StartEndTag(name, attrs, text, pos)).value;
      && r.stack == s.stack
      && ValidPath(r.children, NextPath(s))
      && NodeAt(r.children, NextPath(s)) == VoidTag(name, attrs, text, pos)
      && NodeAt(r.children, NextPath(s)).selfClosing
  {
  }

  /**
   * An end tag pops the stack top without looking at its name, sets the
   * popped tag's range end and consolidates its children; with nothing open
   * it fails.
   */
  lemma EndTagStep(s: State, name: string, other: string, pos: Position)
    requires s.Valid()
    ensures Step(s, EndTag(name, pos)) == Step(s, EndTag(other, pos))
    ensures |s.stack| == 0 <==> Step(s, EndTag(name, pos)) == Err(EndTagWithoutOpenTag(pos))
    ensures |s.stack| > 0 ==>
      var r := Step(s, EndTag(name, pos)).value;
      var top := s.stack[|s.stack| - 1];
      && r.stack == s.stack[..|s.stack| - 1]
      && ValidPath(s.children, top) && ValidPath(r.children, top)
      && NodeAt(s.children, top).Tag?
      && NodeAt(r.children, top) == CloseTag(NodeAt(s.children, top), pos)
      && NodeAt(r.children, top).range.end == pos
      && NodeAt(r.children, top).children == Consolidate(NodeAt(s.children, top).children)
      && NodeAt(r.children, top).name == NodeAt(s.children, top).name
  {
    if |s.stack| > 0 {
      StackTop(s);
    }
  }

  /** Text and comments attach to the stack top, or to the top level, and are never pushed. */
  lemma DataAndCommentStep(s: State, data: string, pos: Position)
    requires s.Valid()
    ensures Step(s, Data(data, pos)).Ok? && Step(s, CommentData(data, pos)).Ok?
    ensures var r := Step(s, Data(data, pos)).value;
      && r.stack == s.stack && ValidPath(r.children, NextPath(s))
      && NodeAt(r.children, NextPath(s)) == TextNode(RangeOf(pos, data), data)
    ensures var r := Step(s, CommentData(data, pos)).value;
      && r.stack == s.stack && ValidPath(r.children, NextPath(s))
      && NodeAt(r.children, NextPath(s)) == Comment(RangeOf(pos, data), data)
  {
  }

  // ---------------------------------------------------------------------
  // The builder object

  /** `DocumentParser`: the top-level nodes and the stack of open tags, kept as paths into them. */
  class DocumentParser {
    var children: seq<Node>
    var tagStack: seq<Path>

    /** The builder's fields as a value. */
    function Snapshot(): State
      reads this
    {
      State(children, tagStack)
    }

    predicate Valid()
      reads this
    {
      Snapshot().Valid()
    }

    /** `__init__` without data, which runs `reset`. */
    constructor ()
      ensures Valid() && Snapshot() == Initial
    {
      children := [];
      tagStack := [];
    }

    /** `_tag_stack_top`: the innermost open tag, if any. */
    function TagStackTop(): (r: Option<Node>)
      reads this
      requires Valid()
      ensures r.None? <==> |tagStack| == 0
      ensures r.Some? ==>
        && r.value == SpineTop(children, |tagStack|)
        && ValidPath(children, tagStack[|tagStack| - 1])
        && r.value == NodeAt(children, tagStack[|tagStack| - 1])
        && r.value.Tag? && !r.value.selfClosing
    {
      if |tagStack| > 0 then
        StackTop(Snapshot());
        Some(NodeAt(children, tagStack[|tagStack| - 1]))
      else None
    }

    /** `reset`: back to no nodes and no open tags. */
    method Reset()
      modifies this
      ensures Valid() && Snapshot() == Initial
    {
      children := [];
      tagStack := [];
    }

    /** `_push_node`. */
    method PushNode(node: Node, skipStack: bool)
      requires Valid()
      requires node.Tag? && !skipStack ==> !node.selfClosing
      modifies this
      ensures Valid() && Snapshot() == Push(old(Snapshot()), node, skipStack)
    {
      ghost var s := Snapshot();
      var path := NextPath(Snapshot());
      if |tagStack| == 0 {
        children := children + [node];
      }
      if |tagStack| > 0 {
        StackTop(s);
        children := AddChildAt(children, tagStack[|tagStack| - 1], node);
      }
      assert children == Attach(s, node);
      if node.Tag? && !skipStack {
        tagStack := tagStack + [path];
      }
      assert Snapshot() == State(Attach(s, node), if node.Tag? && !skipStack then s.stack + [NextPath(s)] else s.stack);
      assert s == old(Snapshot());
      assert Snapshot() == Push(s, node, skipStack);
    }

    method HandleStartTag(name: string, attrs: map<string, string>, text: string, pos: Position)
      requires Valid()
      modifies this
      ensures Valid() && Step(old(Snapshot()), StartTag(name, attrs, text, pos)) == Ok(Snapshot())
    {
      if name in SelfClosingTags {
        HandleStartEndTag(name, attrs, text, pos);
      } else {
        PushNode(Tag(RangeOf(pos, text), text, name, attrs, [], false), false);
      }
    }

    /** A stray end tag is reported instead of raised; the fields are then left as they were. */
    method HandleEndTag(name: string, pos: Position) returns (err: Option<ParseError>)
      requires Valid()
      modifies this
      ensures Valid()
      ensures err.None? ==> Step(old(Snapshot()), EndTag(name, pos)) == Ok(Snapshot())
      ensures err.Some? ==> Step(old(Snapshot()), EndTag(name, pos)) == Err(err.value) && Snapshot() == old(Snapshot())
    {
      if |tagStack| == 0 {
        return Some(EndTagWithoutOpenTag(pos));
      }
      StackTop(Snapshot());
      var top := tagStack[|tagStack| - 1];
      tagStack := tagStack[..|tagStack| - 1];
      var node := NodeAt(children, top);
      children := UpdateAt(children, top, CloseTag(node, pos));
      assert Snapshot() == CloseTop(old(Snapshot()), pos);
      return None;
    }

    method HandleStartEndTag(name: string, attrs: map<string, string>, text: string, pos: Position)
      requires Valid()
      modifies this
      ensures Valid() && Step(old(Snapshot()), StartEndTag(name, attrs, text, pos)) == Ok(Snapshot())
    {
      PushNode(Tag(RangeOf(pos, text), text, name, attrs, [], true), true);
    }

    method HandleData(data: string, pos: Position)
      requires Valid()
      modifies this
      ensures Valid() && Step(old(Snapshot()), Data(data, pos)) == Ok(Snapshot())
    {
      PushNode(TextNode(RangeOf(pos, data), data), false);
    }

    method HandleComment(data: string, pos: Position)
      requires Valid()
      modifies this
      ensures Valid() && Step(old(Snapshot()), CommentData(data, pos)) == Ok(Snapshot())
    {
      ghost var s := Snapshot();
      var comment := Comment(RangeOf(pos, data), data);
      if |tagStack| > 0 {
        StackTop(s);
        children := AddChildAt(children, tagStack[|tagStack| - 1], comment);
      } else {
        children := children + [comment];
      }
      assert children == Attach(s, comment);
      assert Snapshot() == State(Attach(s, comment), s.stack);
      assert s == old(Snapshot());
      PushKeepsValid(s, comment, false);
    }

    /** The tokenizer's dispatch of one event to its handler. */
    method Handle(e: Event) returns (err: Option<ParseError>)
      requires Valid()
      modifies this
      ensures Valid()
      ensures err.None? ==> Step(old(Snapshot()), e) == Ok(Snapshot())
      ensures err.Some? ==> Step(old(Snapshot()), e) == Err(err.value)
    {
      err := None;
      match e
      case StartTag(name, attrs, text, pos) => HandleStartTag(name, attrs, text, pos);
      case EndTag(name, pos) => err := HandleEndTag(name, pos);
      case StartEndTag(name, attrs, text, pos) => HandleStartEndTag(name, attrs, text, pos);
      case Data(data, pos) => HandleData(data, pos);
      case CommentData(data, pos) => HandleComment(data, pos);
    }

    /** `feed`: the events of one chunk in order, stopping at the first error. */
    method Feed(events: seq<Event>) returns (err: Option<ParseError>)
      requires Valid()
      modifies this
      ensures Valid()
      ensures err.None? ==> RunFrom(old(Snapshot()), events) == Ok(Snapshot())
      ensures err.Some? ==> RunFrom(old(Snapshot()), events) == Err(err.value)
    {
      ghost var s0 := Snapshot();
      var i := 0;
      while i < |events|
        invariant 0 <= i <= |events|
        invariant Valid()
        invariant RunFrom(s0, events[..i]) == Ok(Snapshot())
      {
        ghost var before := Snapshot();
        err := Handle(events[i]);
        RunFromNext(s0, events, i, before);
        if err.Some? {
          RunFromStops(s0, events, i + 1, err.value);
          return;
        }
        i := i + 1;
      }
      assert events[..i] == events;
      return None;
    }

    /** `flush` as evidently intended: the open tags are abandoned in place. */
    method Flush()
      requires Valid()
      modifies this
      ensures Valid() && Snapshot() == Flushed(old(Snapshot()))
    {
      tagStack := [];
    }

    /** `flush` as written: the outermost open tag is appended to the top level once more. */
    method FlushAsWritten()
      requires Valid()
      modifies this
      ensures Valid() && Snapshot() == FlushedAsWritten(old(Snapshot()))
    {
      if |tagStack| > 0 {
        SpinePathAt(children, 1);
        children := children + [NodeAt(children, tagStack[0])];
      }
      tagStack := [];
    }

    /** `document` of Simple/htmlparser.py. */
    function Document(): Option<seq<Node>>
      reads this
    {
      DocumentOf(Snapshot())
    }

    /** `document` of Simple/html/document.py. */
    function StrictDocument(): Result<seq<Node>, ParseError>
      reads this
      requires Valid()
    {
      StrictDocumentOf(Snapshot())
    }
  }

  /** `parse` of Simple/htmlparser.py on the tokenizer's events: a fresh builder, `feed`, `flush`, `document`. */
  method ParseEvents(events: seq<Event>) returns (r: Result<Option<seq<Node>>, ParseError>)
    ensures r == Parse(events)
  {
    var p := new DocumentParser();
    var err := p.Feed(events);
    if err.Some? {
      return Err(err.value);
    }
    p.Flush();
    return Ok(p.Document());
  }

  /** `parse` of Simple/html/document.py on the tokenizer's events: no `flush`, a raising `document`. */
  method ParseEventsStrict(events: seq<Event>) returns (r: Result<seq<Node>, ParseError>)
    ensures r == ParseStrict(events)
  {
    var p := new DocumentParser();
    var err := p.Feed(events);
    if err.Some? {
      return Err(err.value);
    }
    return p.StrictDocument();
  }
}
