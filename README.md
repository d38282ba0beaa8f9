# Simple: markup tree, tree builder and component rendering in Dafny

Simple is a static-site templating engine. A page or a component is written
as HTML. A file whose first tag is `<def name="card" props="title, body">`
defines a component. Other files pull it in with `<include src="card.html">`
and instantiate it as `<card title="...">`. Inside a component,
`<content prop="title">` stands for the value of a variable.

This project models the engine's core in five parts:

- **Source positions** (`positions.dfy`). `Position.range` computes where a
  run of text ends. This part also covers the `"line:col"` and `"start-end"`
  strings.
- **The markup tree** (`tags.dfy`, `htmldocument.dfy`). The three node kinds
  are text, comment and tag. The module covers:
  - serialisation (`__html__`);
  - pre-order iteration and `find_all`;
  - `TextNode.fuse` and `consolidate_children`;
  - the structural edits `add_child`, `remove`, `replace_with_all` and
    `replace_with_children`;
  - the document queries `roots`, `root`, `find_all` and `__html__`.
- **The tree builder** (`builder.dfy`). `DocumentParser` is a class with the
  fields `children` and `tagStack`. Its handlers react to the tokenizer's
  events. The stack of open tags is a list of paths into the tree. Its
  invariant `Valid()` says that these paths are exactly the rightmost spine
  of open tags. Every handler is proved equal to one step of the pure state
  machine `Step`, and `Feed` is a loop proved equal to its left fold `RunFrom`.
- **Serialisation round trip** (`roundtrip.dfy`). Parsing well-nested events
  and serialising the result returns their markup. With the corrected
  `flush`, tags left open get their closers. The chunked-feed unit test is
  reproduced for any tokenizer positions.
- **Component resolution and rendering** (`strings.dfy`, `components.dfy`).
  This part covers the classification of a loaded file, the include table
  (built by a loop), and `render`/`inflate` as recursive functions over the
  tree. Each inflation rule is a lemma. Rendering a tree with nothing to
  substitute returns it unchanged.

Files are read through a `FileSystem`. It maps a resolved path to the event
sequence the host tokenizer produces for that file.

Where the two copies of the node code differ, the model follows each one:
- `document` returns nothing in `Simple/htmlparser.py` (`DocumentOf`);
- `document` raises in `Simple/html/document.py` (`StrictDocumentOf`);
- only `Simple/htmlparser.py` has `flush`.

Points where the code is followed rather than the design description:
- An end tag with nothing open makes the builder pop an empty list, which
  raises `IndexError`. It is modelled as the error `EndTagWithoutOpenTag`;
  it is not ignored.
- There is no `<children>` slot. The children of a component instance are
  dropped.
- No "component unused" warning is logged.
- Consolidation fuses text nodes only; comments are not fused.
- A fused node's range is computed from its first node's start and the fused
  text; it is not the span up to the last node's end.
- `find_all` includes the tag it is called on.
- A comment serialises with a space inside each delimiter:
  `<!-- text -->`.
- A `<content>` without `prop`, or naming a variable missing from the
  context, is warned about and then raises `KeyError`. It is modelled as a
  rendering error.

## Model

| member | source | states |
|---|---|---|
| Positions.RangeOfAsWrittenSpec | Simple/htmlparser.py:61-67 | `range` as written: the range starts at the receiver. Text without a newline ends on the same line at `col + len(text)`. Text with newlines ends on line `line + 1 + count('\n')`, at the number of characters after the last newline. The end is never before the start. |
| Positions.RangeOfSpec | Simple/html/__init__.py:27-33 | The same promises for the corrected range, whose end line is `line + count('\n')`. |
| Positions.RangeOfConcat | Simple/html/__init__.py:27-33 | The corrected range composes: the range of `a + b` ends where the range of `b`, taken from the end of `a`'s range, ends. |
| Positions.RangeOfAsWrittenSplitMismatch | Simple/htmlparser.py:62-65 | As written, `"\n\n"` taken at once and taken as two halves end on different lines. |
| Positions.PositionStringRoundTrip | Simple/html/__init__.py:35-36 | `str(Position)` writes `line:col` in a form that reads back to the same position. |
| Positions.RangeStringRoundTrip | Simple/html/__init__.py:44-45 | `str(Range)` writes `start-end` in a form that reads back to the same range. |
| Tags.TagHtml | Simple/html/tags.py:123-127 | A self-closing tag serialises to its start text only. Any other tag serialises to start text + children's html + `</name>`. The identical copy at Simple/htmlparser.py:185-189 behaves the same. |
| Tags.HtmlSeqConcat | Simple/html/tags.py:64-66 | The inner html of concatenated children is the concatenation of their inner html. |
| Tags.FuseSpec | Simple/htmlparser.py:102-108 | `fuse` of no nodes is the empty text at `startpos..startpos`. Otherwise the result is one text node whose text is the in-order concatenation, whose html is the nodes' html, and whose range starts at the first node's start. The identical copy at Simple/html/tags.py:39-46 behaves the same. |
| Tags.Consolidate | Simple/htmlparser.py:151-172 | After consolidation no two adjacent children are text nodes, and each text child carries the range `fuse` computes from its start and its text. The list does not grow. It starts with text iff the original did. |
| Tags.ConsolidateKeepsNonText | Simple/html/tags.py:89-110 | The non-text children, comments included, are kept in their order. |
| Tags.ConsolidateKeepsHtml | Simple/htmlparser.py:151-172 | The concatenated html of the children is unchanged. |
| Tags.ConsolidateFixpoint | Simple/html/tags.py:89-110 | Children with no adjacent text, each text already fused, are left exactly as they are. |
| Tags.ConsolidateIdempotent | Simple/html/tags.py:89-110 | Consolidating twice gives the same children as consolidating once. |
| Tags.Iter | Simple/htmlparser.py:174-177 | Iteration over a node yields that node first. |
| Tags.IterMatchesSearch | Simple/html/tags.py:112-115 | Filtering the iteration by tag name equals a recursive pre-order search: the node first, then each child's subtree in order. |
| Tags.FindAllPreorder | Simple/htmlparser.py:130-138 | `find_all(name)` is the tag itself if its name matches, followed by the pre-order matches of its children. It holds exactly the tags named `name` in the subtree. The identical copy at Simple/html/tags.py:68-76 behaves the same. |
| Tags.Find | Simple/htmlparser.py:140-141 | `find` gives the first tag of that name in pre-order (the first element of `find_all`), and nothing iff the subtree has no such tag. |
| Tags.AddChild | Simple/htmlparser.py:133-135 | The node becomes the tag's last child; the earlier children are unchanged. |
| Tags.AddChildAt | Simple/html/tags.py:71-73 | Adding a child to the tag at a path appends it to that tag's children and changes no other field of the tag. The node can then be found at the path extended by its index. Every node apart from that tag stays where and as it was, and the tags above it keep their fields (`OnlyAlong`). |
| Tags.UpdateAtFrame | Simple/htmlparser.py:133-135 | Changing the node at a path changes only that node and the children lists of the tags above it: each of those tags keeps its other fields and its number of children, and every node in a disjoint subtree is unchanged. |
| Tags.ParentValid | Simple/htmlparser.py:80 | The parent of a nested node is a tag, and the node sits among that tag's children at its own index. |
| Tags.Remove | Simple/html/tags.py:81-84 | `remove` returns the tag itself. A nested tag is deleted from its parent's children, the rest kept in order. The parent keeps its other fields and the rest of the forest is unchanged (`OnlyAlong`). A top-level tag leaves the forest unchanged. |
| Tags.ReplaceWithAll | Simple/htmlparser.py:82-88 | No parent: nothing changes. Otherwise the nodes are inserted just before the node, which stays in place. The parent's child count grows by `len(nodes)`, and the children before and after keep their order. The parent keeps its other fields and the rest of the forest is unchanged (`OnlyAlong`). The identical copy at Simple/html/tags.py:20-26 behaves the same. |
| Tags.ReplaceWithChildren | Simple/html/tags.py:86-87 | A tag's own children are inserted before it in its parent, and the tag stays after them. The siblings before and after keep their order, the parent keeps its other fields, and the rest of the forest is unchanged (`OnlyAlong`). |
| HtmlDocument.Roots | Simple/html/document.py:54-55 | `roots()` holds exactly the top-level tags, and only tags. |
| HtmlDocument.RootsFilter | Simple/html/document.py:54-55 | `roots()` is an order-keeping filter: a single node gives itself if it is a tag and nothing otherwise, and the roots of a concatenation are the roots of the parts, in order. |
| HtmlDocument.Root | Simple/html/document.py:57-63 | `root` is the first top-level tag. It is nothing iff no top-level node is a tag. The identical copy at Simple/htmlparser.py:199-205 behaves the same. |
| HtmlDocument.DocFindAllIsSearch | Simple/html/document.py:65-66 | Searching under the roots only equals the pre-order search of the whole document, because top-level text and comments hold no tags. |
| HtmlDocument.DocIterChain | Simple/html/document.py:71-72 | Iterating a document chains the iterations of its top-level nodes: one node iterates as `iter(node)`, and a concatenation iterates as its parts one after the other. |
| HtmlDocument.DocHtmlConcat | Simple/html/document.py:74-75 | A document's html is its nodes' html concatenated in order. |
| Builder.Attach | Simple/html/document.py:153-158 | `_push_node` attaches to the top level when nothing is open. Otherwise it adds the node as the last child of the stack top. The node ends up at the next spine path. |
| Builder.PushKeepsValid | Simple/html/document.py:153-163 | Attaching and then pushing an open tag keeps the stack equal to the rightmost spine of open tags. |
| Builder.Push | Simple/htmlparser.py:294-304 | `_push_node` keeps the builder invariant. |
| Builder.CloseTop | Simple/html/document.py:115-118 | Popping and closing the stack top keeps the builder invariant. |
| Builder.Step | Simple/html/document.py:105-138 | Each handler keeps the builder invariant. |
| Builder.RunFrom | Simple/htmlparser.py:316-317 | Feeding events keeps the builder invariant. |
| Builder.Run | Simple/html/document.py:176-180 | A fresh builder fed any events is in a valid state. |
| Builder.RunFromConcat | Simple/htmlparser.py:316-317 | Feeding chunk after chunk is feeding everything at once; the first stray end tag stops it. |
| Builder.Flushed | Simple/htmlparser.py:280-283 | The corrected `flush` leaves the builder complete and the top-level nodes as they were. |
| Builder.FlushedAsWritten | Simple/htmlparser.py:280-283 | `flush` as written also leaves the builder complete. |
| Builder.DocumentOf | Simple/htmlparser.py:235-239 | `document` is the top-level nodes iff the stack is empty, and nothing otherwise. |
| Builder.StrictDocumentOf | Simple/html/document.py:93-103 | `document` succeeds iff nothing is open. Otherwise it fails with the innermost open tag. |
| Builder.StartTagStep | Simple/html/document.py:105-113 | A void-element name gives a self-closing tag that is attached but never pushed. Any other name gives a tag attached to the stack top, or to the top level, and then pushed. |
| Builder.StartEndTagStep | Simple/html/document.py:120-129 | An explicit self-closing tag is attached with `self_closing` set and never pushed, whatever its name. |
| Builder.EndTagStep | Simple/html/document.py:115-118 | An end tag ignores its name. It fails iff nothing is open. Otherwise it pops the top, sets its range end to the position and consolidates its children. |
| Builder.DataAndCommentStep | Simple/html/document.py:131-138 | Text and comments attach to the stack top, or to the top level, and are never pushed. |
| Builder.DocumentParser.constructor | Simple/html/document.py:82-87 | A new builder has no nodes and no open tags. |
| Builder.DocumentParser.Reset | Simple/html/document.py:144-147 | `reset` empties the nodes and the stack. |
| Builder.DocumentParser.TagStackTop | Simple/html/document.py:149-151 | `_tag_stack_top` is the innermost open tag, and nothing iff the stack is empty. |
| Builder.DocumentParser.PushNode | Simple/html/document.py:153-163 | The fields after `_push_node` are the state `Push` describes, and the invariant holds. |
| Builder.DocumentParser.HandleStartTag | Simple/htmlparser.py:241-249 | The fields move exactly as one `Step` on a start-tag event. |
| Builder.DocumentParser.HandleEndTag | Simple/htmlparser.py:251-254 | The fields move as one `Step` on an end-tag event. A stray end tag is reported and the fields are unchanged. |
| Builder.DocumentParser.HandleStartEndTag | Simple/htmlparser.py:256-265 | The fields move as one `Step` on a self-closing-tag event. |
| Builder.DocumentParser.HandleData | Simple/htmlparser.py:267-268 | The fields move as one `Step` on a text event. |
| Builder.DocumentParser.HandleComment | Simple/htmlparser.py:270-274 | The fields move as one `Step` on a comment event. |
| Builder.DocumentParser.Handle | Simple/htmlparser.py:241-274 | Dispatching an event to its handler is one `Step`. |
| Builder.DocumentParser.Feed | Simple/htmlparser.py:316-317 | The loop over a chunk's events leaves the fields at `RunFrom` of the old state, or reports its first error. |
| Builder.DocumentParser.Flush | Simple/htmlparser.py:280-283 | The corrected `flush` on the fields. |
| Builder.DocumentParser.FlushAsWritten | Simple/htmlparser.py:280-283 | `flush` as written on the fields. |
| Builder.ParseEvents | Simple/htmlparser.py:307-310 | `parse` (fresh builder, feed, flush, document) computes `Parse`. |
| Builder.ParseEventsStrict | Simple/html/document.py:166-170 | `parse` of the newer copy (no flush, raising `document`) computes `ParseStrict`. |
| RoundTrip.PartialPlusClosers | Simple/htmlparser.py:185-189 | The serialisation of a forest with open tags is the partial serialisation followed by the missing closers, innermost first. |
| RoundTrip.StepMirrors | Simple/html/document.py:105-138 | On a well-nested event every handler succeeds. It keeps the open tag names and the markup fed so far, minus the missing closers. |
| RoundTrip.RunMirrors | Simple/html/document.py:105-138 | Well-nested events never fail, and the builder mirrors them throughout. |
| RoundTrip.ParseRoundTrip | tests/unit/test_document.py:23-34 | Events that close every tag they open parse, with or without `flush`, into a document whose html is exactly their markup. |
| RoundTrip.ParseClosesOpen | Simple/htmlparser.py:307-310 | With the corrected `flush`, well-nested but unfinished input parses into a document whose html is the markup followed by the closers of the tags left open. |
| RoundTrip.StrictParseIncomplete | Simple/html/document.py:93-103 | The newer `parse` on unfinished input fails with the innermost open tag. |
| RoundTrip.FlushAsWrittenDuplicates | Simple/htmlparser.py:280-283 | With a tag still open, `parse` as written returns the corrected document followed by a second copy of its last node. |
| RoundTrip.FlushAsWrittenExample | Simple/htmlparser.py:280-283 | `<p>` alone parses as written to html `<p></p><p></p>`, and to `<p></p>` as intended. |
| RoundTrip.ConsolidateAllText | Simple/htmlparser.py:151-172 | Consolidating text nodes only leaves a single fused node. |
| RoundTrip.ChunkedTreeShape | tests/unit/test_document.py:36-52 | Closing `body` over the text runs "Hell" and "o world!" fuses them into one text node "Hello world!". |
| RoundTrip.ChunkedRun | tests/unit/test_document.py:36-52 | The chunked test's events, at any tokenizer positions, leave one `html` tag whose `body` child holds the single text "Hello world!". |
| RoundTrip.ChunkedFeedExample | tests/unit/test_document.py:36-52 | `parse` of those events gives one top-level node, the root `html`, with `body` first and the text node "Hello world!" in it. |
| Strings.Lower | Simple/document.py:56 | `lower()` keeps the length and leaves no upper-case letter. Each upper-case letter is mapped to its lower-case form and every other character is kept. |
| Strings.LowerIdempotent | Simple/document.py:56 | Lower-casing twice is lower-casing once. |
| Strings.Split | Simple/document.py:58 | `split(",")` gives one piece more than there are commas. No piece holds a comma, and joining the pieces with commas gives back the input. |
| Strings.Strip | Simple/document.py:58 | `strip()` gives a slice of the input with only whitespace around it, and the slice neither starts nor ends with whitespace. Whitespace is the set `str.isspace()` accepts, the separators 0x1C-0x1F and the Unicode spaces included. |
| Strings.StripIdempotent | Simple/document.py:58 | Stripping twice is stripping once. |
| Components.Inputs | Simple/document.py:57-60 | The declared inputs are the comma-separated pieces of `props`, each stripped of surrounding whitespace, in order. None holds a comma or has whitespace at either end. |
| Components.Classify | Simple/document.py:50-64 | With no root tag: "HTML is empty". A `def` root without `name` raises; those are the only errors. A `def` root makes a component named by the lower-cased `name`, with inputs from `props` or none. Any other root makes `__root__` with no inputs. |
| Components.Load | Simple/document.py:32-83 | A loaded document has its own path. Its table holds components filed under their own names, and recursively so; a component has a `def` root. |
| Components.Loaded | Simple/document.py:69-82 | A successful pass of the include loop gives a well-formed component. |
| Components.LoadedCases | Simple/document.py:69-82 | An include without `src` is an error. Otherwise the file `src` names, relative to the including file's directory, is loaded: its load error is passed on, a component is returned as loaded, and a document that is not a component is rejected with `NotAComponent`. |
| Components.Includes | Simple/document.py:66-83 | The include loop only files components under their own names. |
| Components.IncludesIsFill | Simple/document.py:67-83 | The loop, which stops at the first failing include, builds the table that folding all the passes' outcomes describes. |
| Components.FillError | Simple/document.py:67-82 | The loop fails iff some include fails, and then with the error of the first failing include. |
| Components.FillAllOk | Simple/document.py:67-83 | When the loop succeeds, every include was loaded. |
| Components.FillLastWins | Simple/document.py:83 | An include's component is in the table under its name unless a later include loaded a component of the same name, which then overwrote it. |
| Components.FillKeys | Simple/document.py:66-83 | The table's names are exactly the earlier names plus the loaded components' names. |
| Components.LoadDocument | Simple/document.py:32-83 | `__init__` fails exactly when `Load` fails, with the same error, and otherwise builds the component `Load` describes. |
| Components.LoadIncludes | Simple/document.py:67-83 | The include loop stops at the first include that fails, with that error. Otherwise it builds the table that `Includes` describes: each included component under its name, a later include with the same name replacing an earlier one. |
| Components.ParseComplete | Simple/document.py:47-48 | After the corrected `flush`, a parsed file is never incomplete. |
| Components.UnknownAttrs | Simple/document.py:100-102 | Exactly one warning for each attribute key the instantiated component does not declare, and no other warning. |
| Components.InflateNonTag | Simple/document.py:129 | Text and comment nodes come out unchanged. |
| Components.InflateInclude | Simple/document.py:106-107 | An `<include>` produces no nodes. |
| Components.InflateContent | Simple/document.py:108-124 | `<content prop=p>` with `p` in the context becomes exactly one text node holding `context[p]`, starting where the tag starts. Without `prop`, or with `p` undefined, rendering fails. |
| Components.MergedContext | Simple/document.py:103 | `{**context, **attrs}` has both key sets. Attributes win on a shared key, and other variables keep their values. |
| Components.InflateInstance | Simple/document.py:98-104 | A tag named after a registered component contributes that component's rendered body under the merged context, and fails when that render fails. It adds exactly one warning per undeclared attribute. |
| Components.InflateCopy | Simple/document.py:125-128 | Any other tag becomes one copy with the same range, text, name, attributes and self-closing flag. Its children are the inflation of the original children. |
| Components.InflateSeqConcat | Simple/document.py:85-94 | Inflating a node list is inflating its parts in order and concatenating the results. The first error wins. |
| Components.InflateStatic | Simple/document.py:96-129 | A tree with no component instance, `<include>` or `<content>` renders to itself without warnings. |
| Components.InflateSeqStatic | Simple/document.py:125 | The same for a list of such trees. |
| Components.RenderStatic | Simple/document.py:85-94 | `render` drops the `def` wrapper. With nothing to substitute, a component renders to its `def` root's children and a page renders to its top-level nodes. |

## Left out

- The character tokenizer, the host platform's `HTMLParser`, is not modelled. This covers `feed`'s character handling, `get_starttag_text`, `getpos` and character references. Its output is an event sequence that carries the start-tag text and the position.
- Declarations and processing instructions are not events of the model. `DocumentParser` does not handle them, so `<!DOCTYPE …>` and `<?…>` vanish from the source's document as well.
- A valueless attribute (`<input disabled>`) has the value `None` in the source's attribute dictionary. Attributes are a `map<string, string>` here, so such an attribute cannot be represented.
- Reading files, with `IOError` and `Path.resolve`, is the lookup of a path in a `FileSystem` map. Path joining is modelled, but normalisation of `..` and symbolic links is not. `Components.Load` expects an absolute, resolved path, as the source produces with `Path(path).resolve().absolute()`; for a path without `/` the model's directory is empty.
- Logging and its formatting (`DocumentLogAdapter` and the log module) are left out. The unknown-attribute warnings are kept as a multiset, in no particular order. The `<content>` warnings are left out because an exception always follows them.
- Exception message text (`__str__` of the exception classes) is left out. Errors are result variants that carry the path and the offending node.
- The parent back-reference, object identity and `list.index`/`list.remove` are not modelled. A node is addressed by its path, and `remove` deletes at that path. The source compares nodes by value, so it would remove the first equal sibling.
- Tags.ReplaceWithAll: every nested node has a parent here. In the source, `TextNode.fuse` builds nodes whose `parent` stays `None` (Simple/htmlparser.py:80, 102-108), so after consolidation a text node inside a closed tag has no parent, and `replace_with_all` on it returns without a change, where the model inserts before it.
- `add_child`, `remove`, `replace_with_all`, `replace_with_children` and `consolidate_children` are modelled on values. They return the new forest; changes in place visible through aliases are not captured.
- `Tag.__str__` and `Node.__str__` are debugging text and are not modelled.
- `Document.find` (the first match of the document's `find_all`) is not modelled separately. `Tag.find` is modelled with a missing match as nothing, where the source raises `StopIteration`.
- Components.Load: the include depth is bounded by a `fuel` parameter, reported as `TooDeep`. The source recurses without a bound and would hit the interpreter's recursion limit on cyclic includes.
- Strings.Lower: only ASCII letters are mapped. Python's `lower()` also maps other alphabets.
- RoundTrip.ParseRoundTrip: an end tag's markup is `</name>` with the name as the tokenizer reports it (lower-cased, no inner spaces). End tags written differently in the input do not round-trip, in the source either. Neither does a comment written without inner spaces (`<!--x-->` comes back as `<!-- x -->`), nor data whose character references the tokenizer converted.
- Tags.Fuse, Builder.Step, the `Builder.DocumentParser` handlers and Components.Inflate compute ranges with the corrected `RangeOf` of the first Findings row. In the source, a fused text, a text or comment node, a start tag, and a `<content>` value whose text spans lines all end one line later (Simple/htmlparser.py:63, Simple/document.py:124).
- Builder.Parse, Builder.ParseEvents, Components.Load and Components.LoadDocument use the corrected `flush` of the second Findings row. In the source (Simple/htmlparser.py:318, reached through `read`), an unfinished page such as `<p>x` loads with its outermost open tag twice at the top level, and `render` emits it twice. `Builder.ParseAsWritten` is the source's parse, and RoundTrip.FlushAsWrittenDuplicates states the difference.
- Components.LoadedCases: the two include errors are built in the source with a keyword argument `extra` that `ProcessException.__init__` (Simple/exceptions.py:10) does not take. Read as written, those paths raise `TypeError`, not `ProcessException`. The model keeps the errors their messages describe; this reading was not executed.
- `Simple/__init__.py` (command line, JSON context loading), `Simple/def_parser.py` and the test runners are not part of this model.

## Findings

| source | as written | input that shows it | evidently intended | confidence | as-written member | corrected member |
|---|---|---|---|---|---|---|
| Simple/htmlparser.py:63 | The end line of a range is `line + 1 + count('\n')`; the copy in Simple/html/__init__.py:29 is the same. | Text `"\n"` from line 1 ends on line 3. Taking `"\n\n"` at once and in two halves ends on different lines. | The end line is `line + count('\n')`, so ranges compose. | high, not executed | Positions.RangeOfAsWrittenSplitMismatch | Positions.RangeOfConcat |
| Simple/htmlparser.py:280-283 | With a tag still open, `flush` appends the outermost open tag to the top level, where it already is. | The events of `<p>` give the document html `<p></p><p></p>`. | The open tags are abandoned in place, giving `<p></p>`. | high, not executed | RoundTrip.FlushAsWrittenExample | RoundTrip.ParseClosesOpen |
