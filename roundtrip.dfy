/**
 * What the builder promises about serialisation: parsing well-nested events
 * and serialising the result gives back their markup, and `flush` closes
 * whatever is still open.
 *
 * The markup of an event is what the serialiser writes for the node it
 * becomes: a start tag's own text, `</name>` for an end tag, the data of a
 * text run, and `<!-- data -->` for a comment.
 */
module RoundTrip {
  import opened Wrappers
  import opened Positions
  import opened Tags
  import opened HtmlDocument
  import opened Builder

  // ---------------------------------------------------------------------
  // Markup of events and the names left open

  function EventMarkup(e: Event): string {
    match e
    case StartTag(_, _, text, _) => text
    case StartEndTag(_, _, text, _) => text
    case EndTag(name, _) => "</" + name + ">"
    case Data(data, _) => data
    case CommentData(data, _) => "<!-- " + data + " -->"
  }

  function Markup(events: seq<Event>): string
    decreases |events|
  {
    if events == [] then "" else Markup(events[..|events| - 1]) + EventMarkup(events[|events| - 1])
  }

  /** The names of the open tags after one more event; `None` when an end tag does not close the innermost one. */
  function NamesStep(open: seq<string>, e: Event): Option<seq<string>> {
    match e
    case StartTag(name, _, _, _) =>
      if name in SelfClosingTags then Some(open) else Some(open + [name])
    case EndTag(name, _) =>
      if |open| > 0 && open[|open| - 1] == name then Some(open[..|open| - 1]) else None
    case _ => Some(open)
  }

  /** The names left open by well-nested events, outermost first; `None` for events that are not well nested. */
  function OpenNames(events: seq<Event>): Option<seq<string>>
    decreases |events|
  {
    if events == [] then Some([])
    else
      match OpenNames(events[..|events| - 1])
      case None => None
      case Some(open) => NamesStep(open, events[|events| - 1])
  }

  /** The closing tags of `names` (outermost first), innermost written first. */
  function Closers(names: seq<string>): string
    decreases |names|
  {
    if names == [] then "" else Closers(names[1..]) + "</" + names[0] + ">"
  }

  // ---------------------------------------------------------------------
  // Serialisation of a forest with open tags

  /** Serialisation of a forest whose `d` rightmost-spine tags are still open: their closers are not written. */
  function PartialHtml(ns: seq<Node>, d: nat): string
    requires SpineOk(ns, d)
    decreases d
  {
    if d == 0 then HtmlSeq(ns)
    else HtmlSeq(ns[..|ns| - 1]) + ns[|ns| - 1].text + PartialHtml(ns[|ns| - 1].children, d - 1)
  }

  /** The names of the `d` open tags, outermost first. */
  function SpineNames(ns: seq<Node>, d: nat): (r: seq<string>)
    requires SpineOk(ns, d)
    decreases d
  {
    if d == 0 then [] else [ns[|ns| - 1].name] + SpineNames(ns[|ns| - 1].children, d - 1)
  }

  lemma {:induction false} SpineNamesTop(ns: seq<Node>, d: nat)
    requires SpineOk(ns, d) && d > 0
    ensures |SpineNames(ns, d)| == d
    ensures SpineNames(ns, d)[d - 1] == SpineTop(ns, d).name
    decreases d
  {
    if d > 1 {
      SpineNamesTop(ns[|ns| - 1].children, d - 1);
    }
  }

  lemma LastSplit(ns: seq<Node>)
    requires |ns| > 0
    ensures HtmlSeq(ns) == HtmlSeq(ns[..|ns| - 1]) + Html(ns[|ns| - 1])
  {
    var pre, x := ns[..|ns| - 1], ns[|ns| - 1];
    assert pre + [x] == ns;
    HtmlSeqConcat(pre, [x]);
    assert [x][1..] == [];
    assert HtmlSeq([x]) == Html(x) + HtmlSeq([]);
  }

  /** The string regrouping behind `PartialPlusClosers`. */
  lemma AssembleClosers(pre: string, text: string, inner: string, closers: string, kids: string,
                        name: string, partial: string, cls: string, html: string)
    requires partial == pre + text + inner
    requires inner + closers == kids
    requires cls == closers + "</" + name + ">"
    requires html == text + kids + "</" + name + ">"
    ensures partial + cls == pre + html
  {
  }

  lemma Regroup6(a: string, b: string, c: string, d: string, e: string, f: string)
    ensures a + (((b + c) + d) + e + f) == (((a + b) + c) + d) + e + f
  {
  }

  lemma Regroup4(a: string, b: string, c: string, d: string, e: string)
    ensures a + b + (c + d + e + ">") == (a + b + c) + d + e + ">"
  {
  }

  /** Writing the missing closers, innermost first, completes the serialisation of the forest. */
  lemma {:induction false} PartialPlusClosers(ns: seq<Node>, d: nat)
    requires SpineOk(ns, d)
    ensures PartialHtml(ns, d) + Closers(SpineNames(ns, d)) == HtmlSeq(ns)
    decreases d
  {
    if d > 0 {
      var last := ns[|ns| - 1];
      var pre := ns[..|ns| - 1];
      var inner := PartialHtml(last.children, d - 1);
      var closers := Closers(SpineNames(last.children, d - 1));
      PartialPlusClosers(last.children, d - 1);
      var names := SpineNames(ns, d);
      assert names[1..] == SpineNames(last.children, d - 1);
      assert names[0] == last.name;
      assert Closers(names) == closers + "</" + last.name + ">";
      LastSplit(ns);
      assert Html(last) == last.text + HtmlSeq(last.children) + "</" + last.name + ">";
      AssembleClosers(HtmlSeq(pre), last.text, inner, closers, HtmlSeq(last.children),
                      last.name, PartialHtml(ns, d), Closers(names), Html(last));
    }
  }

  /** A node attached and not pushed adds its own serialisation at the end. */
  lemma {:induction false} PartialAppend(ns: seq<Node>, d: nat, n: Node)
    requires SpineOk(ns, d)
    ensures SpineOk(AppendAt(ns, d, n), d)
    ensures PartialHtml(AppendAt(ns, d, n), d) == PartialHtml(ns, d) + Html(n)
    ensures SpineNames(AppendAt(ns, d, n), d) == SpineNames(ns, d)
    decreases d
  {
    AppendAtSpine(ns, d, n);
    var r := AppendAt(ns, d, n);
    if d == 0 {
      LastSplit(r);
      assert r[..|r| - 1] == ns;
    } else {
      PartialAppend(ns[|ns| - 1].children, d - 1, n);
      assert r[..|r| - 1] == ns[..|ns| - 1];
    }
  }

  /** A fresh open tag adds only its start text; its name joins the open names. */
  lemma {:induction false} PartialPush(ns: seq<Node>, d: nat, n: Node)
    requires SpineOk(ns, d)
    requires n.Tag? && !n.selfClosing && n.children == []
    ensures SpineOk(AppendAt(ns, d, n), d + 1)
    ensures PartialHtml(AppendAt(ns, d, n), d + 1) == PartialHtml(ns, d) + n.text
    ensures SpineNames(AppendAt(ns, d, n), d + 1) == SpineNames(ns, d) + [n.name]
    decreases d
  {
    AppendAtSpine(ns, d, n);
    var r := AppendAt(ns, d, n);
    if d == 0 {
      assert r[..|r| - 1] == ns;
    } else {
      PartialPush(ns[|ns| - 1].children, d - 1, n);
      assert r[..|r| - 1] == ns[..|ns| - 1];
    }
  }

  /** Closing the innermost open tag writes its closer; its name leaves the open names. */
  lemma {:induction false} PartialClose(ns: seq<Node>, d: nat, pos: Position)
    requires SpineOk(ns, d) && d > 0
    ensures SpineOk(CloseAt(ns, d, pos), d - 1)
    ensures PartialHtml(CloseAt(ns, d, pos), d - 1) == PartialHtml(ns, d) + "</" + SpineTop(ns, d).name + ">"
    ensures SpineNames(CloseAt(ns, d, pos), d - 1) + [SpineTop(ns, d).name] == SpineNames(ns, d)
    decreases d
  {
    CloseAtSpine(ns, d, pos);
    var r := CloseAt(ns, d, pos);
    var last := ns[|ns| - 1];
    var pre := ns[..|ns| - 1];
    assert r[..|r| - 1] == pre;
    if d == 1 {
      var closed := CloseTag(last, pos);
      assert r[|r| - 1] == closed;
      LastSplit(r);
      TagHtml(closed);
      ConsolidateKeepsHtml(last.children);
      assert Html(closed) == ((last.text + HtmlSeq(last.children)) + "</") + last.name + ">";
      assert PartialHtml(ns, d) == (HtmlSeq(pre) + last.text) + HtmlSeq(last.children);
      Regroup6(HtmlSeq(pre), last.text, HtmlSeq(last.children), "</", last.name, ">");
    } else {
      var top := SpineTop(ns, d);
      PartialClose(last.children, d - 1, pos);
      assert SpineTop(ns, d) == SpineTop(last.children, d - 1);
      var inner := PartialHtml(last.children, d - 1);
      assert PartialHtml(ns, d) == HtmlSeq(pre) + last.text + inner;
      assert PartialHtml(r, d - 1) == HtmlSeq(pre) + last.text + PartialHtml(CloseAt(last.children, d - 1, pos), d - 2);
      Regroup4(HtmlSeq(pre), last.text, inner, "</", top.name);
    }
  }

  // ---------------------------------------------------------------------
  // The builder keeps the markup

  /** What the builder keeps while running: the open names, and the markup fed so far minus the closers. */
  predicate Mirrors(s: State, open: seq<string>, markup: string)
    requires s.Valid()
  {
    SpineNames(s.children, |s.stack|) == open && PartialHtml(s.children, |s.stack|) == markup
  }

  /** A node attached but not pushed: the open names stay, its html is appended. */
  lemma AttachMirrors(s: State, open: seq<string>, markup: string, n: Node)
    requires s.Valid() && Mirrors(s, open, markup)
    ensures State(Attach(s, n), s.stack).Valid()
    ensures Mirrors(State(Attach(s, n), s.stack), open, markup + Html(n))
  {
    PushKeepsValid(s, n, false);
    PartialAppend(s.children, |s.stack|, n);
  }

  lemma OpenTagMirrors(s: State, open: seq<string>, markup: string, n: Node)
    requires s.Valid() && Mirrors(s, open, markup)
    requires n.Tag? && !n.selfClosing && n.children == []
    ensures Push(s, n, false).Valid()
    ensures Mirrors(Push(s, n, false), open + [n.name], markup + n.text)
  {
    PartialPush(s.children, |s.stack|, n);
  }

  lemma EndTagMirrors(s: State, open: seq<string>, markup: string, name: string, pos: Position)
    requires s.Valid() && Mirrors(s, open, markup)
    requires |open| > 0 && open[|open| - 1] == name
    ensures |s.stack| > 0
    ensures Mirrors(CloseTop(s, pos), open[..|open| - 1], markup + "</" + name + ">")
  {
    var d := |s.stack|;
    if d == 0 {
      assert false;
    }
    StackTop(s);
    CloseTagAtSpine(s.children, d, pos);
    SpineNamesTop(s.children, d);
    PartialClose(s.children, d, pos);
    var r := CloseTop(s, pos);
    assert r.children == CloseAt(s.children, d, pos);
    var names := SpineNames(r.children, d - 1);
    assert names + [name] == open;
    assert names == open[..|open| - 1];
  }

  lemma StepMirrors(s: State, open: seq<string>, markup: string, e: Event)
    requires s.Valid() && Mirrors(s, open, markup)
    requires NamesStep(open, e).Some?
    ensures Step(s, e).Ok?
    ensures Mirrors(Step(s, e).value, NamesStep(open, e).value, markup + EventMarkup(e))
  {
    match e
    case StartTag(name, attrs, text, pos) =>
      if name in SelfClosingTags {
        VoidMirrors(s, open, markup, name, attrs, text, pos);
        assert Step(s, e) == Ok(Push(s, VoidTag(name, attrs, text, pos), true));
      } else {
        var n := OpenTag(name, attrs, text, pos);
        OpenTagMirrors(s, open, markup, n);
        assert Step(s, e) == Ok(Push(s, n, false));
      }
    case StartEndTag(name, attrs, text, pos) =>
      VoidMirrors(s, open, markup, name, attrs, text, pos);
      assert Step(s, e) == Ok(Push(s, VoidTag(name, attrs, text, pos), true));
    case EndTag(name, pos) =>
      EndTagMirrors(s, open, markup, name, pos);
      assert Step(s, e) == Ok(CloseTop(s, pos));
    case Data(data, pos) =>
      var n := TextNode(RangeOf(pos, data), data);
      AttachMirrors(s, open, markup, n);
      assert Step(s, e) == Ok(Push(s, n, false));
    case CommentData(data, pos) =>
      var n := Comment(RangeOf(pos, data), data);
      AttachMirrors(s, open, markup, n);
      assert Step(s, e) == Ok(State(Attach(s, n), s.stack));
  }

  /** A void tag is attached and not pushed; its html is its start text. */
  lemma VoidMirrors(s: State, open: seq<string>, markup: string,
                    name: string, attrs: map<string, string>, text: string, pos: Position)
    requires s.Valid() && Mirrors(s, open, markup)
    ensures Mirrors(Push(s, VoidTag(name, attrs, text, pos), true), open, markup + text)
  {
    var n := VoidTag(name, attrs, text, pos);
    AttachMirrors(s, open, markup, n);
    TagHtml(n);
    assert Push(s, n, true) == State(Attach(s, n), s.stack);
  }

  /** Well-nested events never fail, and the builder mirrors them throughout. */
  lemma {:induction false} RunMirrors(events: seq<Event>)
    requires OpenNames(events).Some?
    ensures Run(events).Ok?
    ensures Mirrors(Run(events).value, OpenNames(events).value, Markup(events))
    decreases |events|
  {
    if events != [] {
      var init := events[..|events| - 1];
      RunMirrors(init);
      StepMirrors(Run(init).value, OpenNames(init).value, Markup(init), events[|events| - 1]);
    }
  }

  // ---------------------------------------------------------------------
  // The serialisation theorems

  /**
   * `parse` then `html`: well-nested events that close every tag parse, with
   * or without `flush`, into nodes that serialise back to their markup.
   */
  lemma ParseRoundTrip(events: seq<Event>)
    requires OpenNames(events) == Some([])
    ensures ParseStrict(events).Ok?
    ensures DocHtml(ParseStrict(events).value) == Markup(events)
    ensures Parse(events) == Ok(Some(ParseStrict(events).value))
  {
    RunMirrors(events);
    var s := Run(events).value;
    assert |s.stack| == 0;
  }

  /**
   * `parse` of Simple/htmlparser.py with `flush` as intended on well-nested
   * but unfinished events: the result serialises to the markup followed by the
   * closers of the tags left open.
   */
  lemma ParseClosesOpen(events: seq<Event>)
    requires OpenNames(events).Some?
    ensures Parse(events).Ok? && Parse(events).value.Some?
    ensures DocHtml(Parse(events).value.value) == Markup(events) + Closers(OpenNames(events).value)
  {
    RunMirrors(events);
    var s := Run(events).value;
    PartialPlusClosers(s.children, |s.stack|);
  }

  /** `parse` of Simple/html/document.py on unfinished events raises with the innermost open tag. */
  lemma StrictParseIncomplete(events: seq<Event>)
    requires OpenNames(events).Some? && OpenNames(events).value != []
    ensures ParseStrict(events).Err?
    ensures ParseStrict(events).error.DocumentIncomplete? && ParseStrict(events).error.top.Tag?
    ensures ParseStrict(events).error.top.name == OpenNames(events).value[|OpenNames(events).value| - 1]
  {
    RunMirrors(events);
    var s := Run(events).value;
    var open := OpenNames(events).value;
    assert |s.stack| > 0;
    SpineNamesTop(s.children, |s.stack|);
  }

  // ---------------------------------------------------------------------
  // `flush` as written

  /**
   * With a tag still open, `flush` as written appends the outermost open tag
   * (already the last top-level node) once more: the document ends with the
   * same node twice.
   */
  lemma FlushAsWrittenDuplicates(events: seq<Event>)
    requires Run(events).Ok? && !Run(events).value.Complete()
    ensures Parse(events).Ok? && Parse(events).value.Some?
    ensures var ns := Parse(events).value.value;
      && |ns| > 0
      && ParseAsWritten(events) == Ok(Some(ns + [ns[|ns| - 1]]))
  {
    var s := Run(events).value;
    SpinePathAt(s.children, 1);
  }

  const Pos0: Position := Position(1, 0)

  /** `<p>` alone: `flush` as written gives `<p></p><p></p>`; as intended, `<p></p>`. */
  lemma FlushAsWrittenExample()
    ensures var events := [StartTag("p", map[], "<p>", Pos0)];
      && Parse(events).Ok? && Parse(events).value.Some?
      && DocHtml(Parse(events).value.value) == "<p></p>"
      && ParseAsWritten(events).Ok? && ParseAsWritten(events).value.Some?
      && DocHtml(ParseAsWritten(events).value.value) == "<p></p><p></p>"
  {
    var events := [StartTag("p", map[], "<p>", Pos0)];
    var t := OpenTag("p", map[], "<p>", Pos0);
    assert events[..0] == [];
    assert NextPath(Initial) == [0];
    assert "p" !in SelfClosingTags by {
      forall i | 0 <= i < |SelfClosingTags| ensures SelfClosingTags[i] != "p" {
        assert |SelfClosingTags[i]| > 1;
      }
    }
    assert Attach(Initial, t) == [t];
    assert Initial.stack + [NextPath(Initial)] == [[0]];
    assert Push(Initial, t, false) == State([t], [[0]]);
    assert Step(Initial, events[0]) == Ok(State([t], [[0]]));
    assert RunFrom(Initial, events[..0]) == Ok(Initial);
    assert Run(events) == Ok(State([t], [[0]]));
    assert Parse(events) == Ok(Some([t]));
    assert NodeAt([t], [0]) == t;
    assert FlushedAsWritten(State([t], [[0]])) == State([t, t], []);
    assert ParseAsWritten(events) == Ok(Some([t, t]));
    TagHtml(t);
    assert Html(t) == "<p></p>";
    DocHtmlConcat([t], [t]);
    assert [t] + [t] == [t, t];
  }

  // ---------------------------------------------------------------------
  // The unit tests' documents

  /** Text nodes only: consolidation leaves one fused node. */
  lemma ConsolidateAllText(ns: seq<Node>)
    requires |ns| > 0 && AllText(ns)
    ensures Consolidate(ns) == [Fuse(ns, Position(0, 0))]
  {
    assert TextRun(ns) == |ns|;
    assert ns[..|ns|] == ns;
    assert ns[|ns|..] == [];
  }

  function ChunkedEvents(p1: Position, p2: Position, p3: Position, p4: Position, p5: Position, p6: Position): seq<Event> {
    [StartTag("html", map[], "<html>", p1), StartTag("body", map["lang" := "en"], "<body lang='en'>", p2),
     Data("Hell", p3), Data("o world!", p4), EndTag("body", p5), EndTag("html", p6)]
  }

  lemma NotVoid()
    ensures "html" !in SelfClosingTags && "body" !in SelfClosingTags
  {
    forall i | 0 <= i < |SelfClosingTags|
      ensures SelfClosingTags[i] != "html" && SelfClosingTags[i] != "body"
    {
    }
  }

  lemma ChunkedOpenSteps(h: Node, b: Node, p1: Position, p2: Position)
    requires h == OpenTag("html", map[], "<html>", p1)
    requires b == OpenTag("body", map["lang" := "en"], "<body lang='en'>", p2)
    ensures Run([StartTag("html", map[], "<html>", p1), StartTag("body", map["lang" := "en"], "<body lang='en'>", p2)]) ==
      Ok(State([h.(children := [b])], [[0], [0, 0]]))
  {
    NotVoid();
    var s1 := State([h], [[0]]);
    assert Initial.stack + [NextPath(Initial)] == [[0]];
    assert Attach(Initial, h) == [h];
    assert Push(Initial, h, false) == s1;
    assert NodeAt([h], [0]) == h;
    assert NextPath(s1) == [0] + [0] == [0, 0];
    assert s1.stack + [NextPath(s1)] == [[0], [0, 0]];
    assert AppendAt(h.children, 0, b) == [] + [b] == [b];
    assert Attach(s1, b) == AppendAt([h], 1, b) == [h.(children := [b])];
    var e0 := StartTag("html", map[], "<html>", p1);
    var e1 := StartTag("body", map["lang" := "en"], "<body lang='en'>", p2);
    RunOneMore([], e0, Initial, s1);
    assert [] + [e0] == [e0];
    RunOneMore([e0], e1, s1, State([h.(children := [b])], [[0], [0, 0]]));
    assert [e0] + [e1] == [e0, e1];
  }

  /** Text fed while `html` and its only child `body` are open lands at the end of `body`. */
  lemma ChunkedDataStep(prefix: seq<Event>, h: Node, b: Node, cs: seq<Node>, data: string, pos: Position)
    requires h.Tag? && b.Tag?
    requires Run(prefix) == Ok(State([h.(children := [b.(children := cs)])], [[0], [0, 0]]))
    ensures Run(prefix + [Data(data, pos)]) ==
      Ok(State([h.(children := [b.(children := cs + [TextNode(RangeOf(pos, data), data)])])], [[0], [0, 0]]))
  {
    var s := State([h.(children := [b.(children := cs)])], [[0], [0, 0]]);
    var t := TextNode(RangeOf(pos, data), data);
    assert s.Valid();
    assert Step(s, Data(data, pos)) == Ok(State(Attach(s, t), s.stack));
    assert Attach(s, t) == AppendAt(s.children, 2, t);
    assert AppendAt(cs, 0, t) == cs + [t];
    assert AppendAt([b.(children := cs)], 1, t) == [b.(children := cs + [t])];
    var h1 := h.(children := [b.(children := cs)]);
    assert AppendAt([h1], 2, t) == [h1.(children := AppendAt([b.(children := cs)], 1, t))];
    assert h1.(children := [b.(children := cs + [t])]) == h.(children := [b.(children := cs + [t])]);
    RunOneMore(prefix, Data(data, pos), s, State([h.(children := [b.(children := cs + [t])])], [[0], [0, 0]]));
  }

  lemma ChunkedCloseSteps(prefix: seq<Event>, h: Node, b4: Node, p5: Position, p6: Position)
    requires h.Tag? && !h.selfClosing && h.children == []
    requires b4.Tag? && !b4.selfClosing
    requires Run(prefix) == Ok(State([h.(children := [b4])], [[0], [0, 0]]))
    ensures Run(prefix + [EndTag("body", p5), EndTag("html", p6)]) ==
      Ok(State([CloseTag(h.(children := [CloseTag(b4, p5)]), p6)], []))
  {
    var s4 := State([h.(children := [b4])], [[0], [0, 0]]);
    assert SpinePath(s4.children, 1) == [0];
    assert SpinePath([b4], 1) == [0];
    assert SpinePath(s4.children, 2) == [0] + [0];
    assert s4.Valid();
    StackTop(s4);
    CloseTagAtSpine(s4.children, 2, p5);
    assert CloseAt([b4], 1, p5) == [CloseTag(b4, p5)];
    assert CloseAt(s4.children, 2, p5) == [h.(children := [CloseTag(b4, p5)])];
    assert s4.stack[..1] == [[0]];
    var s5 := State([h.(children := [CloseTag(b4, p5)])], [[0]]);
    assert SpinePath(s5.children, 1) == [0];
    assert s5.Valid();
    StackTop(s5);
    CloseTagAtSpine(s5.children, 1, p6);
    assert CloseAt(s5.children, 1, p6) == [CloseTag(h.(children := [CloseTag(b4, p5)]), p6)];
    assert s5.stack[..0] == [];
    RunOneMore(prefix, EndTag("body", p5), s4, s5);
    RunOneMore(prefix + [EndTag("body", p5)], EndTag("html", p6), s5, State([CloseTag(h.(children := [CloseTag(b4, p5)]), p6)], []));
    assert prefix + [EndTag("body", p5)] + [EndTag("html", p6)] == prefix + [EndTag("body", p5), EndTag("html", p6)];
  }

  lemma RunSnoc(events: seq<Event>, e: Event)
    ensures Run(events + [e]) ==
      match Run(events)
      case Err(err) => Err(err)
      case Ok(s) => Step(s, e)
  {
    assert (events + [e])[..|events|] == events;
  }

  lemma RunOneMore(events: seq<Event>, e: Event, s: State, s': State)
    requires Run(events) == Ok(s) && Step(s, e) == Ok(s')
    ensures Run(events + [e]) == Ok(s')
  {
    RunSnoc(events, e);
  }

  /** Closing `body` fuses its two text runs; closing `html` leaves its one child as it is. */
  lemma ChunkedTreeShape(h: Node, b: Node, t1: Node, t2: Node, p5: Position, p6: Position)
    requires h.Tag? && h.name == "html" && b.Tag? && b.name == "body"
    requires t1.TextNode? && t1.text == "Hell" && t2.TextNode? && t2.text == "o world!"
    ensures var root := CloseTag(h.(children := [CloseTag(b.(children := [t1, t2]), p5)]), p6);
      && root.Tag? && root.name == "html" && |root.children| == 1 && root.children[0].Tag?
      && var body := root.children[0];
      && body.name == "body" && |body.children| == 1
      && body.children[0].TextNode? && body.children[0].text == "Hello world!"
  {
    var b5 := CloseTag(b.(children := [t1, t2]), p5);
    var h6 := CloseTag(h.(children := [b5]), p6);
    ConsolidateAllText([t1, t2]);
    FuseSpec([t1, t2], Position(0, 0));
    assert h6.children == [b5] by {
      assert Consolidate([b5][1..]) == [];
    }
    assert b5.children == [Fuse([t1, t2], Position(0, 0))];
    assert b5.children[0].text == "Hello world!" by {
      assert [t1, t2][1..] == [t2];
      assert HtmlSeq([t2]) == "o world!";
      assert Html(b5.children[0]) == HtmlSeq([t1, t2]) == "Hell" + "o world!";
    }
  }

  lemma ChunkedPrefixRun(h: Node, b: Node, t1: Node, t2: Node, p1: Position, p2: Position, p3: Position, p4: Position)
    requires h == Tag(RangeOf(p1, "<html>"), "<html>", "html", map[], [], false)
    requires b == Tag(RangeOf(p2, "<body lang='en'>"), "<body lang='en'>", "body", map["lang" := "en"], [], false)
    requires t1 == TextNode(RangeOf(p3, "Hell"), "Hell") && t2 == TextNode(RangeOf(p4, "o world!"), "o world!")
    ensures Run([StartTag("html", map[], "<html>", p1), StartTag("body", map["lang" := "en"], "<body lang='en'>", p2),
        Data("Hell", p3), Data("o world!", p4)]) ==
      Ok(State([h.(children := [b.(children := [t1, t2])])], [[0], [0, 0]]))
  {
    var e0 := StartTag("html", map[], "<html>", p1);
    var e1 := StartTag("body", map["lang" := "en"], "<body lang='en'>", p2);
    ChunkedOpenSteps(h, b, p1, p2);
    ChunkedDataStep([e0, e1], h, b, [], "Hell", p3);
    assert [] + [t1] == [t1];
    ChunkedDataStep([e0, e1] + [Data("Hell", p3)], h, b, [t1], "o world!", p4);
    assert [t1] + [t2] == [t1, t2];
    assert [e0, e1] + [Data("Hell", p3)] + [Data("o world!", p4)] == [e0, e1, Data("Hell", p3), Data("o world!", p4)];
  }

  lemma ChunkedRun(events: seq<Event>, p1: Position, p2: Position, p3: Position, p4: Position, p5: Position, p6: Position)
      returns (root: Node)
    requires events == ChunkedEvents(p1, p2, p3, p4, p5, p6)
    ensures Run(events) == Ok(State([root], []))
    ensures root.Tag? && root.name == "html" && |root.children| == 1 && root.children[0].Tag?
    ensures var body := root.children[0];
      && body.name == "body" && |body.children| == 1
      && body.children[0].TextNode? && body.children[0].text == "Hello world!"
  {
    var h := Tag(RangeOf(p1, "<html>"), "<html>", "html", map[], [], false);
    var b := Tag(RangeOf(p2, "<body lang='en'>"), "<body lang='en'>", "body", map["lang" := "en"], [], false);
    var t1 := TextNode(RangeOf(p3, "Hell"), "Hell");
    var t2 := TextNode(RangeOf(p4, "o world!"), "o world!");
    var b4 := b.(children := [t1, t2]);
    var b5 := CloseTag(b4, p5);
    var h6 := CloseTag(h.(children := [b5]), p6);
    var prefix := [StartTag("html", map[], "<html>", p1), StartTag("body", map["lang" := "en"], "<body lang='en'>", p2),
      Data("Hell", p3), Data("o world!", p4)];
    ChunkedPrefixRun(h, b, t1, t2, p1, p2, p3, p4);
    ChunkedCloseSteps(prefix, h, b4, p5, p6);
    assert prefix + [EndTag("body", p5), EndTag("html", p6)] == events;
    ChunkedTreeShape(h, b, t1, t2, p5, p6);
    root := h6;
  }

  /**
   * The chunked-feed test: `<html><body lang='en'>Hell` `o world!</body></html>`,
   * with the text arriving in two pieces, gives one `html` node whose first
   * child `body` holds a single text node "Hello world!", wherever the
   * tokenizer places the pieces.
   */
  lemma ChunkedFeedExample(p1: Position, p2: Position, p3: Position, p4: Position, p5: Position, p6: Position)
    ensures var events := ChunkedEvents(p1, p2, p3, p4, p5, p6);
      && Parse(events).Ok? && Parse(events).value.Some?
      && var doc := Parse(events).value.value;
      && |doc| == 1 && Root(doc).Some?
      && var root := Root(doc).value;
      && root.name == "html" && |root.children| > 0 && root.children[0].Tag?
      && var body := root.children[0];
      && body.name == "body" && |body.children| == 1
      && body.children[0].TextNode? && body.children[0].text == "Hello world!"
  {
    var events := ChunkedEvents(p1, p2, p3, p4, p5, p6);
    var root := ChunkedRun(events, p1, p2, p3, p4, p5, p6);
    assert Root([root]) == Some(root);
  }
}
