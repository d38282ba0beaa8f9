/**
 * Component resolution and rendering (Simple/document.py).
 *
 * A template file is loaded into a `Component`: it is a component proper
 * when its first top-level tag is `<def name=... props=...>`, and a plain
 * page otherwise. Each `<include src=...>` in it loads another file, which
 * must define a component, into a name-to-component table. Rendering walks
 * the tree with a context of string variables and returns a new tree: a
 * `<content prop=...>` tag becomes the text of that variable, a tag named
 * after an included component becomes that component's rendering, an
 * `<include>` disappears, and every other tag is copied with its children
 * rendered.
 *
 * Reading a file is the lookup of its path in a `FileSystem`, which maps a
 * path to the events the tokenizer produces for that file's text.
 */
module Components {
  import opened Wrappers
  import opened Positions
  import opened Tags
  import opened HtmlDocument
  import opened Builder
  import opened Strings

  type FileSystem = map<string, seq<Event>>
  type Context = map<string, string>

  /**
   * The exceptions `Document.__init__` raises, each with the path of the
   * document it names. The two include errors are built in the source with
   * a keyword argument `extra` that `ProcessException.__init__`
   * (Simple/exceptions.py:10) does not take, so, read as written, those two
   * paths raise `TypeError` instead; the model keeps the errors the
   * messages describe.
   */
  datatype LoadError =
    | CannotRead(path: string)                          // `IOError` on open
    | Malformed(path: string, error: ParseError)        // the tree builder failed
    | Incomplete(path: string)                          // "HTML document is incomplete"
    | Empty(path: string)                               // "HTML is empty"
    | MissingName(path: string)                         // `root.attrs["name"]` on a `def` without it
    | IncludeWithoutSource(path: string, tag: Node)     // "Component include does not have a source link"
    | NotAComponent(path: string, tag: Node)            // "Does not define a component"
    | TooDeep(path: string)                             // include nesting deeper than the loader's bound

  /** A loaded document (`Document` after `__init__`). */
  datatype Component = Component(path: string, html: seq<Node>, isComponent: bool, name: string,
                                 inputs: seq<string>, components: map<string, Component>)

  /** What the root tag says about a document. */
  datatype Kind = Kind(isComponent: bool, name: string, inputs: seq<string>)

  // ---------------------------------------------------------------------
  // Paths

  /** `Path.parent`: everything before the last `/`. */
  function Dir(path: string): string {
    if path == [] then []
    else if path[|path| - 1] == '/' then path[..|path| - 1]
    else Dir(path[..|path| - 1])
  }

  /** `cwd / src`: an absolute `src` replaces the directory. */
  function JoinPath(cwd: string, src: string): string {
    if |src| > 0 && src[0] == '/' then src else cwd + "/" + src
  }

  // ---------------------------------------------------------------------
  // Classification

  /** The declared inputs: `props` split at commas, each piece stripped. */
  function Inputs(props: string): (r: seq<string>)
    ensures |r| == 1 + Count(props, ',')
    ensures forall i :: 0 <= i < |r| ==> ',' !in r[i]
    ensures forall i :: 0 <= i < |r| ==> r[i] == [] || (!IsSpace(r[i][0]) && !IsSpace(r[i][|r[i]| - 1]))
    ensures |r| == |Split(props, ',')|
    ensures forall i :: 0 <= i < |r| ==> r[i] == Strip(Split(props, ',')[i])
  {
    var parts := Split(props, ',');
    seq(|parts|, i requires 0 <= i < |parts| => Strip(parts[i]))
  }

  /**
   * The root-tag checks of `Document.__init__`: no tag at the top level is
   * an error, a `def` root makes a component named by its lower-cased
   * `name` attribute, with the declared `props` as inputs, and any other
   * root makes the plain page `__root__` without inputs.
   */
  function Classify(path: string, html: seq<Node>): (r: Result<Kind, LoadError>)
    ensures Root(html).None? ==> r == Err(Empty(path))
    ensures r.Err? <==> Root(html).None? || (Root(html).value.name == "def" && "name" !in Root(html).value.attrs)
    ensures r.Err? && Root(html).Some? ==> r.error == MissingName(path)
    ensures r.Ok? ==> (r.value.isComponent <==> Root(html).value.name == "def")
    ensures r.Ok? && !r.value.isComponent ==> r.value.name == "__root__" && r.value.inputs == []
    ensures r.Ok? && r.value.isComponent ==>
      var attrs := Root(html).value.attrs;
      && r.value.name == Lower(attrs["name"])
      && ("props" in attrs ==> r.value.inputs == Inputs(attrs["props"]))
      && ("props" !in attrs ==> r.value.inputs == [])
  {
    match Root(html)
    case None => Err(Empty(path))
    case Some(root) =>
      if root.name == "def" then
        if "name" !in root.attrs then Err(MissingName(path))
        else
          var inputs := if "props" in root.attrs then Inputs(root.attrs["props"]) else [];
          Ok(Kind(true, Lower(root.attrs["name"]), inputs))
      else Ok(Kind(false, "__root__", []))
  }

  // ---------------------------------------------------------------------
  // Loading and the include table

  /** Every table entry is a loaded component filed under its own name. */
  predicate TableOk(t: map<string, Component>)
    decreases t, 1
  {
    forall k :: k in t ==> t[k].isComponent && t[k].name == k && Wf(t[k])
  }

  /** What loading guarantees: a component has a root, and its table is well formed. */
  predicate Wf(c: Component)
    decreases c, 0
  {
    (c.isComponent ==> Root(c.html).Some? && Root(c.html).value.name == "def")
    && (forall k :: k in c.components ==>
          c.components[k].isComponent && c.components[k].name == k && Wf(c.components[k]))
  }

  /**
   * `Document(path)`: read and parse the file, classify its root, load its
   * includes. `fuel` bounds the include nesting; the source recurses
   * without bound. `path` is expected to be absolute and resolved, as the
   * source makes it with `Path(path).resolve().absolute()`; `Dir` of a path
   * without `/` is empty.
   */
  function Load(fs: FileSystem, path: string, fuel: nat): (r: Result<Component, LoadError>)
    ensures r.Ok? ==> Wf(r.value) && r.value.path == path
    decreases fuel, 1
  {
    if path !in fs then Err(CannotRead(path))
    else
      match Parse(fs[path])
      case Err(e) => Err(Malformed(path, e))
      case Ok(None) => Err(Incomplete(path))
      case Ok(Some(html)) =>
        match Classify(path, html)
        case Err(e) => Err(e)
        case Ok(kind) =>
          match Includes(fs, path, DocFindAll(html, "include"), fuel, map[])
          case Err(e) => Err(e)
          case Ok(table) => Ok(Component(path, html, kind.isComponent, kind.name, kind.inputs, table))
  }

  /** One pass of the include loop: the component `tag` names, or why it cannot be loaded. */
  function Loaded(fs: FileSystem, path: string, tag: Node, fuel: nat): (r: Result<Component, LoadError>)
    ensures r.Ok? ==> r.value.isComponent && Wf(r.value)
    decreases fuel, 0, 0
  {
    if !tag.Tag? || "src" !in tag.attrs then Err(IncludeWithoutSource(path, tag))
    else if fuel == 0 then Err(TooDeep(path))
    else
      match Load(fs, JoinPath(Dir(path), tag.attrs["src"]), fuel - 1)
      case Err(e) => Err(e)
      case Ok(c) => if c.isComponent then Ok(c) else Err(NotAComponent(c.path, tag))
  }

  /**
   * The outcomes of one pass of the include loop: an include that is not a
   * tag with `src` is an error; otherwise the file `src` names, relative to
   * the including file's directory, is loaded, its load error is passed on,
   * a component is returned as loaded, and any other document is rejected.
   */
  lemma LoadedCases(fs: FileSystem, path: string, tag: Node, fuel: nat)
    ensures !tag.Tag? || "src" !in tag.attrs ==> Loaded(fs, path, tag, fuel) == Err(IncludeWithoutSource(path, tag))
    ensures tag.Tag? && "src" in tag.attrs && fuel == 0 ==> Loaded(fs, path, tag, fuel) == Err(TooDeep(path))
    ensures tag.Tag? && "src" in tag.attrs && fuel > 0 ==>
      var l := Load(fs, JoinPath(Dir(path), tag.attrs["src"]), fuel - 1);
      && (l.Err? ==> Loaded(fs, path, tag, fuel) == l)
      && (l.Ok? && l.value.isComponent ==> Loaded(fs, path, tag, fuel) == l)
      && (l.Ok? && !l.value.isComponent ==> Loaded(fs, path, tag, fuel) == Err(NotAComponent(l.value.path, tag)))
  {
  }

  /** The include loop, from the table `acc` built so far. */
  function Includes(fs: FileSystem, path: string, includes: seq<Node>, fuel: nat,
                    acc: map<string, Component>): (r: Result<map<string, Component>, LoadError>)
    requires TableOk(acc)
    ensures r.Ok? ==> TableOk(r.value)
    decreases fuel, 0, |includes|
  {
    if includes == [] then Ok(acc)
    else
      match Loaded(fs, path, includes[0], fuel)
      case Err(e) => Err(e)
      case Ok(c) => Includes(fs, path, includes[1..], fuel, acc[c.name := c])
  }

  /** The table the include loop builds from the outcomes `loads` of its passes, stopping at the first error. */
  function Fill(loads: seq<Result<Component, LoadError>>, acc: map<string, Component>)
    : Result<map<string, Component>, LoadError>
  {
    if loads == [] then Ok(acc)
    else
      match loads[0]
      case Err(e) => Err(e)
      case Ok(c) => Fill(loads[1..], acc[c.name := c])
  }

  /** The outcome of every pass of the include loop, were each one run. */
  function LoadAll(fs: FileSystem, path: string, includes: seq<Node>, fuel: nat): (r: seq<Result<Component, LoadError>>)
    ensures |r| == |includes|
    ensures forall i :: 0 <= i < |includes| ==> r[i] == Loaded(fs, path, includes[i], fuel)
  {
    seq(|includes|, i requires 0 <= i < |includes| => Loaded(fs, path, includes[i], fuel))
  }

  /** The loop, which stops at the first failing include, builds the table `Fill` describes. */
  lemma {:induction false} IncludesIsFill(fs: FileSystem, path: string, includes: seq<Node>, fuel: nat,
                                          acc: map<string, Component>)
    requires TableOk(acc)
    ensures Includes(fs, path, includes, fuel, acc) == Fill(LoadAll(fs, path, includes, fuel), acc)
    decreases |includes|
  {
    if includes != [] {
      var loads := LoadAll(fs, path, includes, fuel);
      assert loads[1..] == LoadAll(fs, path, includes[1..], fuel);
      match loads[0]
      case Err(_) =>
      case Ok(c) => IncludesIsFill(fs, path, includes[1..], fuel, acc[c.name := c]);
    }
  }

  /** The loop fails exactly at the first pass that fails, with that pass's error. */
  lemma {:induction false} FillError(loads: seq<Result<Component, LoadError>>, acc: map<string, Component>)
    ensures Fill(loads, acc).Err? <==> exists i :: 0 <= i < |loads| && loads[i].Err?
    ensures Fill(loads, acc).Err? ==>
      exists i :: (0 <= i < |loads| && loads[i].Err? && Fill(loads, acc).error == loads[i].error
        && forall j :: 0 <= j < i ==> loads[j].Ok?)
    decreases |loads|
  {
    if loads != [] {
      if loads[0].Err? {
        assert Fill(loads, acc).error == loads[0].error;
      } else {
        FillError(loads[1..], acc[loads[0].value.name := loads[0].value]);
        assert forall i :: 1 <= i < |loads| ==> loads[i] == loads[1..][i - 1];
        if Fill(loads, acc).Err? {
          var i :| 0 <= i < |loads[1..]| && loads[1..][i].Err? && Fill(loads, acc).error == loads[1..][i].error
            && forall j :: 0 <= j < i ==> loads[1..][j].Ok?;
          assert loads[i + 1].Err?;
        }
      }
    }
  }

  /** An entry that no later pass overwrites survives the loop. */
  lemma {:induction false} FillKeep(loads: seq<Result<Component, LoadError>>, acc: map<string, Component>, k: string)
    requires Fill(loads, acc).Ok?
    requires k in acc
    requires forall j :: 0 <= j < |loads| ==> loads[j].Ok? ==> loads[j].value.name != k
    ensures k in Fill(loads, acc).value && Fill(loads, acc).value[k] == acc[k]
    decreases |loads|
  {
    if loads != [] {
      assert forall j :: 1 <= j < |loads| ==> loads[j] == loads[1..][j - 1];
      FillKeep(loads[1..], acc[loads[0].value.name := loads[0].value], k);
    }
  }

  /** When the loop succeeds, every pass succeeded. */
  lemma {:induction false} FillAllOk(loads: seq<Result<Component, LoadError>>, acc: map<string, Component>)
    requires Fill(loads, acc).Ok?
    ensures forall i :: 0 <= i < |loads| ==> loads[i].Ok?
  {
    FillError(loads, acc);
  }

  /**
   * Each loaded component sits in the table under its own name unless a
   * later include loaded a component of the same name, which then
   * overwrote it.
   */
  lemma {:induction false} FillLastWins(loads: seq<Result<Component, LoadError>>, acc: map<string, Component>, i: nat)
    requires Fill(loads, acc).Ok?
    requires i < |loads| && loads[i].Ok?
    requires forall j :: i < j < |loads| && loads[j].Ok? ==> loads[j].value.name != loads[i].value.name
    ensures loads[i].value.name in Fill(loads, acc).value
    ensures Fill(loads, acc).value[loads[i].value.name] == loads[i].value
    decreases |loads|
  {
    var c0 := loads[0].value;
    if i == 0 {
      assert forall j :: 0 <= j < |loads[1..]| ==> loads[1..][j] == loads[j + 1];
      FillKeep(loads[1..], acc[c0.name := c0], c0.name);
    } else {
      assert forall j :: i - 1 < j < |loads[1..]| ==> loads[1..][j] == loads[j + 1];
      FillLastWins(loads[1..], acc[c0.name := c0], i - 1);
    }
  }

  /** The table holds the earlier entries' names and the loaded components' names, and no other. */
  lemma {:induction false} FillKeys(loads: seq<Result<Component, LoadError>>, acc: map<string, Component>)
    requires Fill(loads, acc).Ok?
    ensures forall k :: k in acc ==> k in Fill(loads, acc).value
    ensures forall k :: k in Fill(loads, acc).value ==>
      k in acc || exists i :: 0 <= i < |loads| && loads[i].Ok? && loads[i].value.name == k
    decreases |loads|
  {
    if loads != [] {
      var c0 := loads[0].value;
      FillKeys(loads[1..], acc[c0.name := c0]);
      forall k | k in Fill(loads, acc).value
        ensures k in acc || exists i :: 0 <= i < |loads| && loads[i].Ok? && loads[i].value.name == k
      {
        if k !in acc && k != c0.name {
          var i :| 0 <= i < |loads[1..]| && loads[1..][i].Ok? && loads[1..][i].value.name == k;
          assert loads[i + 1] == loads[1..][i];
        }
      }
    }
  }

  /** `Document.__init__`: parse, classify, then run the include loop. */
  method LoadDocument(fs: FileSystem, path: string, fuel: nat) returns (r: Result<Component, LoadError>)
    ensures r == Load(fs, path, fuel)
  {
    if path !in fs {
      return Err(CannotRead(path));
    }
    var parsed := ParseEvents(fs[path]);
    if parsed.Err? {
      return Err(Malformed(path, parsed.error));
    }
    if parsed.value.None? {
      return Err(Incomplete(path));
    }
    var html := parsed.value.value;
    var kind := Classify(path, html);
    if kind.Err? {
      return Err(kind.error);
    }
    var table := LoadIncludes(fs, path, DocFindAll(html, "include"), fuel);
    if table.Err? {
      return Err(table.error);
    }
    return Ok(Component(path, html, kind.value.isComponent, kind.value.name, kind.value.inputs, table.value));
  }

  /** The include loop of `Document.__init__`: each include's component, keyed by its name. */
  method LoadIncludes(fs: FileSystem, path: string, includes: seq<Node>, fuel: nat)
    returns (r: Result<map<string, Component>, LoadError>)
    ensures r == Includes(fs, path, includes, fuel, map[])
  {
    var table: map<string, Component> := map[];
    var i := 0;
    while i < |includes|
      invariant 0 <= i <= |includes|
      invariant TableOk(table)
      invariant Includes(fs, path, includes, fuel, map[]) == Includes(fs, path, includes[i..], fuel, table)
    {
      var c := Loaded(fs, path, includes[i], fuel);
      if c.Err? {
        return Err(c.error);
      }
      assert includes[i..][1..] == includes[i + 1..];
      table := table[c.value.name := c.value];
      i := i + 1;
    }
    return Ok(table);
  }

  /** The corrected `flush` leaves no tag open, so parsing never yields an incomplete document. */
  lemma ParseComplete(events: seq<Event>)
    ensures Parse(events).Ok? ==> Parse(events).value.Some?
  {
    match Run(events)
    case Err(_) =>
    case Ok(s) => assert Parse(events) == Ok(DocumentOf(Flushed(s)));
  }

  // ---------------------------------------------------------------------
  // Rendering

  /** A warning logged while rendering: an attribute the instantiated component does not declare. */
  datatype Warning = UnknownAttribute(tag: string, attr: string)

  /** The exceptions rendering raises: `<content>` without `prop` or with a variable not in the context. */
  datatype RenderError =
    | MissingProp(tag: Node)
    | UndefinedVariable(prop: string, tag: Node)

  /** Rendered nodes, with the warnings logged on the way (their order is not modelled). */
  datatype Rendered = Rendered(nodes: seq<Node>, warnings: multiset<Warning>)

  /** One warning per attribute key of `<name ...>` that the component's inputs do not list. */
  function UnknownAttrs(name: string, attrs: map<string, string>, inputs: seq<string>): (w: multiset<Warning>)
    ensures forall x :: w[x] == (if x.tag == name && x.attr in attrs && x.attr !in inputs then 1 else 0)
  {
    multiset(set k | k in attrs && k !in inputs :: UnknownAttribute(name, k))
  }

  /** The nodes `render` walks: a component's `def` children, or a page's top-level nodes. */
  function Body(c: Component): seq<Node>
    requires Wf(c)
  {
    if c.isComponent then Root(c.html).value.children else c.html
  }

  /** Two renderings one after the other; the first error wins. */
  function Then(a: Result<Rendered, RenderError>, b: Result<Rendered, RenderError>): Result<Rendered, RenderError> {
    if a.Err? then a
    else if b.Err? then b
    else Ok(Rendered(a.value.nodes + b.value.nodes, a.value.warnings + b.value.warnings))
  }

  /** `render(context)`: the inflation of the body, node after node. */
  function Render(c: Component, ctx: Context): Result<Rendered, RenderError>
    requires Wf(c)
    decreases c, 2
  {
    InflateSeq(c, Body(c), ctx)
  }

  function InflateSeq(c: Component, ns: seq<Node>, ctx: Context): Result<Rendered, RenderError>
    requires Wf(c)
    decreases c, 1, ns, 0
  {
    if ns == [] then Ok(Rendered([], multiset{}))
    else Then(Inflate(c, ns[0], ctx), InflateSeq(c, ns[1..], ctx))
  }

  /** `inflate(node, context)`. */
  function Inflate(c: Component, n: Node, ctx: Context): Result<Rendered, RenderError>
    requires Wf(c)
    decreases c, 1, n, 1
  {
    match n
    case Tag(range, _, name, attrs, children, _) =>
      if name in c.components then
        var sub := c.components[name];
        var out := Render(sub, ctx + attrs);
        if out.Err? then out
        else Ok(Rendered(out.value.nodes, UnknownAttrs(name, attrs, sub.inputs) + out.value.warnings))
      else if name == "include" then Ok(Rendered([], multiset{}))
      else if name == "content" then
        if "prop" !in attrs then Err(MissingProp(n))
        else if attrs["prop"] !in ctx then Err(UndefinedVariable(attrs["prop"], n))
        else
          var text := ctx[attrs["prop"]];
          Ok(Rendered([TextNode(RangeOf(range.start, text), text)], multiset{}))
      else
        var out := InflateSeq(c, children, ctx);
        if out.Err? then out
        else Ok(Rendered([n.(children := out.value.nodes)], out.value.warnings))
    case _ => Ok(Rendered([n], multiset{}))
  }

  /** Text and comment nodes come through unchanged. */
  lemma InflateNonTag(c: Component, n: Node, ctx: Context)
    requires Wf(c) && !n.Tag?
    ensures Inflate(c, n, ctx) == Ok(Rendered([n], multiset{}))
  {
  }

  /** An `<include>` (that is not also a component's name) renders to nothing. */
  lemma InflateInclude(c: Component, n: Node, ctx: Context)
    requires Wf(c) && n.Tag? && n.name == "include" && n.name !in c.components
    ensures Inflate(c, n, ctx) == Ok(Rendered([], multiset{}))
  {
  }

  /**
   * A `<content prop=p>` becomes exactly one text node holding `ctx[p]`,
   * starting where the tag started; without `prop`, or with `p` missing
   * from the context, rendering fails.
   */
  lemma InflateContent(c: Component, n: Node, ctx: Context)
    requires Wf(c) && n.Tag? && n.name == "content" && n.name !in c.components
    ensures "prop" !in n.attrs ==> Inflate(c, n, ctx) == Err(MissingProp(n))
    ensures "prop" in n.attrs && n.attrs["prop"] !in ctx ==>
      Inflate(c, n, ctx) == Err(UndefinedVariable(n.attrs["prop"], n))
    ensures "prop" in n.attrs && n.attrs["prop"] in ctx ==>
      var r := Inflate(c, n, ctx);
      && r.Ok? && |r.value.nodes| == 1 && r.value.warnings == multiset{}
      && r.value.nodes[0].TextNode?
      && r.value.nodes[0].text == ctx[n.attrs["prop"]]
      && r.value.nodes[0].range.start == n.range.start
  {
    if "prop" in n.attrs && n.attrs["prop"] in ctx {
      RangeOfSpec(n.range.start, ctx[n.attrs["prop"]]);
    }
  }

  /** In the merged context `{**context, **attrs}` an attribute shadows a variable of the same name. */
  lemma MergedContext(ctx: Context, attrs: map<string, string>)
    ensures (ctx + attrs).Keys == ctx.Keys + attrs.Keys
    ensures forall k :: k in attrs ==> (ctx + attrs)[k] == attrs[k]
    ensures forall k :: k in ctx && k !in attrs ==> (ctx + attrs)[k] == ctx[k]
  {
  }

  /**
   * A tag naming a registered component renders as that component's body
   * under the merged context, preceded by one warning per undeclared
   * attribute.
   */
  lemma InflateInstance(c: Component, n: Node, ctx: Context)
    requires Wf(c) && n.Tag? && n.name in c.components
    ensures var sub := c.components[n.name];
      InflateSeq(sub, Body(sub), ctx + n.attrs).Err? ==>
        Inflate(c, n, ctx) == InflateSeq(sub, Body(sub), ctx + n.attrs)
    ensures var sub := c.components[n.name];
      var out := InflateSeq(sub, Body(sub), ctx + n.attrs);
      out.Ok? ==> Inflate(c, n, ctx).Ok? && Inflate(c, n, ctx).value.nodes == out.value.nodes
    ensures var sub := c.components[n.name];
      var out := InflateSeq(sub, Body(sub), ctx + n.attrs);
      out.Ok? ==> forall w :: (Inflate(c, n, ctx).value.warnings[w] ==
        out.value.warnings[w] + (if w.tag == n.name && w.attr in n.attrs && w.attr !in sub.inputs then 1 else 0))
  {
  }

  /**
   * Any other tag is copied: same range, start text, name, attributes and
   * self-closing flag, with its children replaced by their inflation.
   */
  lemma InflateCopy(c: Component, n: Node, ctx: Context)
    requires Wf(c) && n.Tag? && n.name !in c.components && n.name != "include" && n.name != "content"
    ensures var out := InflateSeq(c, n.children, ctx);
      && (out.Err? ==> Inflate(c, n, ctx) == out)
      && (out.Ok? ==>
          var r := Inflate(c, n, ctx);
          && r.Ok? && |r.value.nodes| == 1 && r.value.warnings == out.value.warnings
          && var t := r.value.nodes[0];
          && t.Tag? && t.range == n.range && t.text == n.text && t.name == n.name
          && t.attrs == n.attrs && t.selfClosing == n.selfClosing && t.children == out.value.nodes)
  {
  }

  /** Rendering a sequence is rendering its parts one after the other. */
  lemma {:induction false} InflateSeqConcat(c: Component, a: seq<Node>, b: seq<Node>, ctx: Context)
    requires Wf(c)
    ensures InflateSeq(c, a + b, ctx) == Then(InflateSeq(c, a, ctx), InflateSeq(c, b, ctx))
    decreases |a|
  {
    if a == [] {
      assert a + b == b;
      var r := InflateSeq(c, b, ctx);
      if r.Ok? {
        assert r.value.nodes == [] + r.value.nodes;
        assert r.value.warnings == multiset{} + r.value.warnings;
      }
    } else {
      assert (a + b)[0] == a[0];
      assert (a + b)[1..] == a[1..] + b;
      InflateSeqConcat(c, a[1..], b, ctx);
      var x := Inflate(c, a[0], ctx);
      var y := InflateSeq(c, a[1..], ctx);
      var z := InflateSeq(c, b, ctx);
      if x.Ok? && y.Ok? && z.Ok? {
        assert x.value.nodes + (y.value.nodes + z.value.nodes) == (x.value.nodes + y.value.nodes) + z.value.nodes;
        assert x.value.warnings + (y.value.warnings + z.value.warnings)
          == (x.value.warnings + y.value.warnings) + z.value.warnings;
      }
    }
  }

  /** A tree with nothing to substitute: no component instance, `<include>` or `<content>` in it. */
  predicate Static(c: Component, n: Node) {
    n.Tag? ==>
      && n.name !in c.components && n.name != "include" && n.name != "content"
      && forall i :: 0 <= i < |n.children| ==> Static(c, n.children[i])
  }

  /** A tree with nothing to substitute renders to itself, without warnings. */
  lemma {:induction false} InflateStatic(c: Component, n: Node, ctx: Context)
    requires Wf(c) && Static(c, n)
    ensures Inflate(c, n, ctx) == Ok(Rendered([n], multiset{}))
    decreases n, 1
  {
    if n.Tag? {
      InflateSeqStatic(c, n.children, ctx);
      assert n.(children := n.children) == n;
    }
  }

  lemma {:induction false} InflateSeqStatic(c: Component, ns: seq<Node>, ctx: Context)
    requires Wf(c) && forall i :: 0 <= i < |ns| ==> Static(c, ns[i])
    ensures InflateSeq(c, ns, ctx) == Ok(Rendered(ns, multiset{}))
    decreases ns, 0
  {
    if ns != [] {
      InflateStatic(c, ns[0], ctx);
      InflateSeqStatic(c, ns[1..], ctx);
      assert [ns[0]] + ns[1..] == ns;
      var none: multiset<Warning> := multiset{};
      assert none + none == none;
      assert Then(Ok(Rendered([ns[0]], multiset{})), Ok(Rendered(ns[1..], multiset{})))
        == Ok(Rendered(ns, multiset{}));
    }
  }

  /**
   * Rendering drops a component's `def` wrapper: a component whose body
   * has nothing to substitute renders to the `def` root's children, and a
   * page in the same case renders to its top-level nodes.
   */
  lemma RenderStatic(c: Component, ctx: Context)
    requires Wf(c) && forall i :: 0 <= i < |Body(c)| ==> Static(c, Body(c)[i])
    ensures c.isComponent ==> Render(c, ctx) == Ok(Rendered(Root(c.html).value.children, multiset{}))
    ensures !c.isComponent ==> Render(c, ctx) == Ok(Rendered(c.html, multiset{}))
  {
    InflateSeqStatic(c, Body(c), ctx);
  }
}
