# hhh article writers, modelled in Dafny

hhh fetches a web page, extracts its main article with a readability
library, and writes the article either as Markdown or as indented HTML.
This project models the two article writers of `pkg/articlewriters`:

- **The Markdown writer** (`markdownWriter`). It starts with a `# title`
  heading, then walks the article tree recursively, and ends with a
  newline. Headings, list items, bold, links, images, figure captions and
  paragraph separators each get their own markup. A `NodeOptions` object
  carries the current indent and the ordered-list counter, and the writer
  shares it, and mutates it, between sibling list items.
- **The HTML writer** (`htmlWriter`). It has no recursion. One loop moves
  a cursor through the tree by its first-child, next-sibling and parent
  links, keeping a "came out of a child" flag and an indent level. It
  writes one line per text node, for every open tag, for every close tag
  and for every self-closed leaf.

The model is in these files:

- `dom.dfy`: the parsed tree.
  - A node is a `Text`, an `Element` (tag name, atom, attributes, children) or any `Other` node kind.
  - A position in the tree is a `Path` of child indices from the document root.
  - `FirstChild`, `NextSibling` and `Parent` are functions on positions.
  - An `Article` is a title, a document and the position of the article node.
- `sinks.dfy`: the `io.Writer` the writers write to.
  - A `Sink` is a class that records every accepted string.
  - It accepts writes up to an optional limit, and after that every write fails with a fixed error.
  - The function `Deliver(before, strings)` states what a sequence of writes that stops at the first failure leaves behind, and which status it returns.
- `markdown_render.dfy`: what the Markdown writer emits, as pure functions of the tree.
  - These are `RenderNode`, `RenderChildren`, `RenderList` and `Document`.
  - They return the strings written and the ordered-list counter left behind.
- `markdown.dfy`: the writer itself, as classes.
  - `NodeOptions` is an object the methods share and mutate.
  - `MarkdownWriter` has one method per Go function.
  - Each method is proved to leave the sink exactly as `Deliver` applied to the pure rendering says, and to leave the shared counter where the rendering says.
- `markdown_props.dfy`: properties of the Markdown rendering.
  - What each element kind produces.
  - What the "has a next sibling" separator adds.
  - A reference definition of list numbering, and lemmas that the rendering matches it.
  - The title/body/newline shape of the whole document.
- `html_render.dfy`: the HTML output as a recursive function `Pretty` of the tree.
  - The remaining output `Walk` from any cursor position.
  - One lemma per kind of loop step: each step emits exactly the next lines of `Walk` and strictly decreases a measure.
  - Properties of `Pretty`: every line is indented at least to its depth; the line count is text nodes plus twice the parents plus the leaf elements; the data of non-element, non-text nodes never shows.
- `html.dfy`: the HTML writer's loop.
  - `Write` is proved to leave the sink as `Deliver` of `Walk` from the article node.
  - When the article node is the document root, that is `Pretty` without its final closing line.
- `strings.dfy`: the string helpers the writers use.
  - `strings.Repeat`, `strconv.Itoa`, `strings.ReplaceAll` of newlines, and `strings.TrimRight` of spaces.
  - Each has the property the writers rely on (parsing `Itoa` back, undoing the newline indent, and others).

Two notes on the code as written:

- A `ul` nested inside an ordered `li` still numbers its items. The Go
  code hands the `li`'s own counter to the nested list. The model follows
  the code: `UnorderedList` states that the nested items are numbered from
  the enclosing counter.
- When the article node is not the document root, the HTML loop does not
  stop at the article's last descendant. It climbs past the article node
  and goes on through the article's following siblings and its ancestors'
  closing tags. `Walk` models exactly that, and `WalkFromInner` states
  that the article's own rendering is a prefix of what is written.

## Model

| member | source | states |
|---|---|---|
| Markdown.MarkdownWriter.Write | pkg/articlewriters/markdown.go:27-38 | The sink ends as delivering `Document(article)`: the title line, the article node with fresh options, then a newline. It stops at the first failed write and returns that error. |
| Markdown.NodeOptions.AppendIndent | pkg/articlewriters/markdown.go:46-50 | Returns a fresh options object whose indent is the old indent plus the given string, with the counter unchanged. |
| Markdown.NodeOptions.WithOrderedListSeq | pkg/articlewriters/markdown.go:53-57 | Returns a fresh options object with the given counter and the same indent. |
| Markdown.MarkdownWriter.WriteNode | pkg/articlewriters/markdown.go:60-132 | Writes exactly `RenderNode(node, options, hasNext)` up to the first failure. On success the shared counter equals the rendering's counter. The indent is never changed. |
| Markdown.MarkdownWriter.WriteElement | pkg/articlewriters/markdown.go:76-127 | For an element, writes either the image markup or the element's children wrapped by its rule. On success the shared counter is as the rendering says, including the increment after an ordered `li`. |
| Markdown.MarkdownWriter.ChildArguments | pkg/articlewriters/markdown.go:77-122 | The atom switch: the prefix, suffix and child options it passes to `writeChildren` are the ones `ElementRule` gives for that atom. |
| Markdown.MarkdownWriter.WriteChildren | pkg/articlewriters/markdown.go:135-152 | Writes the prefix if non-empty, each child in order, then the suffix if non-empty, stopping at the first failure. On success the counter is the one left by the children. |
| Markdown.MarkdownWriter.WriteChildNodes | pkg/articlewriters/markdown.go:141-145 | The children loop writes `RenderList(node, 0, options)`. Each child sees whether it has a next sibling and the counter the previous child left. |
| Markdown.MarkdownWriter.WriteNonEmpty | pkg/articlewriters/markdown.go:136-140 | An empty prefix or suffix is not written at all; a non-empty one is one write. |
| Markdown.MarkdownWriter.WriteString | pkg/articlewriters/markdown.go:155-163 | One write of the text with every newline followed by the indent. |
| Markdown.MarkdownWriter.WriteImage | pkg/articlewriters/markdown.go:166-185 | One write of `![alt](src)`, where each attribute is read as its last occurrence, followed by a blank line when a sibling follows. |
| MarkdownRender.AttrValueIsLast | pkg/articlewriters/markdown.go:115-121 | The value read for a key is the value of its last occurrence in the attributes, or "" when the key is absent. |
| MarkdownProps.SiblingOnlyAddsSeparator | pkg/articlewriters/markdown.go:62-71 | Having a next sibling changes a node's output only by a trailing separator: "\n\n" for headings, paragraphs, div, figure, figcaption, section, lists and images; "\n" for `li`; nothing otherwise. It never changes the counter. |
| MarkdownProps.HeadingRendering | pkg/articlewriters/markdown.go:78-89 | An `h`k heading is k `#` characters and a space, then its children, then the separator. |
| MarkdownProps.LinkRendering | pkg/articlewriters/markdown.go:114-122 | A link reads as ` [children](href) `, where href is the last `href` attribute or empty. |
| MarkdownProps.ImageIgnoresChildren | pkg/articlewriters/markdown.go:123-124 | An `img` or `image` element writes only its markup. Its children are ignored, and the counter stays as it was. |
| MarkdownProps.OtherIsSilent | pkg/articlewriters/markdown.go:128-131 | Any node that is neither text nor an element writes nothing and leaves the counter unchanged, whatever its data, children and siblings. |
| MarkdownProps.TextRendering | pkg/articlewriters/markdown.go:73-75 | A text node is one write. Removing the indent after each newline gives back the data. With an empty indent the data is written verbatim. |
| MarkdownProps.DocumentText | pkg/articlewriters/markdown.go:27-38 | The whole output is `# title`, a blank line, the article node's rendering, then a newline. |
| MarkdownProps.CounterNeverDecreases | pkg/articlewriters/markdown.go:94-108 | Rendering a node never lowers the ordered-list counter, and a zero counter, that of an unordered context, stays zero. |
| MarkdownProps.CounterNeverDecreasesList | pkg/articlewriters/markdown.go:141-145 | The same for a run of sibling children. |
| MarkdownProps.ListItems | pkg/articlewriters/markdown.go:94-111 | A run of list items renders as the reference `Items`. Under a zero counter each item is `- ` with a two-space indent. Under counter k the items are numbered k, k+1, … with `Itoa(k). ` markers and a three-space indent. The counter ends past the last item. |
| MarkdownProps.OrderedList | pkg/articlewriters/markdown.go:92-93 | An `ol` numbers its items from 1. The enclosing counter is left untouched. |
| MarkdownProps.UnorderedList | pkg/articlewriters/markdown.go:125-126 | A `ul` passes the enclosing counter to its items: bullets in an unordered context, and numbered from the enclosing item's number inside an ordered item. |
| MarkdownProps.ItemRendering | pkg/articlewriters/markdown.go:94-111 | One `li`: its marker and its children under the longer indent, then "\n" if a sibling follows. The counter goes up by one in an ordered list only. |
| MarkdownProps.FigcaptionRendering | pkg/articlewriters/markdown.go:90-91 | A figure caption is `> ` then its children with `> ` added to the indent. |
| Strings.ParseItoa | pkg/articlewriters/markdown.go:103 | The decimal text of a list number parses back to that number. |
| Strings.DedentReplaceNewlines | pkg/articlewriters/markdown.go:156-158 | Indenting after newlines is undone by removing the indent after each newline. |
| Strings.Itoa | pkg/articlewriters/markdown.go:103 | The list number is written as a non-empty string of decimal digits with no leading zero. |
| Strings.Repeat | pkg/articlewriters/html.go:31 | The indent is the two-space unit repeated once per level, so its length is twice the level. |
| Strings.TrimRightSpaces | pkg/articlewriters/html.go:45 | The result is a prefix of the input, does not end with a space, and only spaces were removed. |
| Strings.ReplaceNewlines | pkg/articlewriters/markdown.go:157 | An empty indent leaves the text unchanged. Otherwise the text grows by the indent's length once per newline. |
| Html.HtmlWriter.Write | pkg/articlewriters/html.go:24-104 | The sink ends as delivering `Walk(doc, article node)`, stopping at the first failed write with its error. The loop terminates; its measure is the number of steps left. |
| Html.HtmlWriter.Visit | pkg/articlewriters/html.go:29-100 | One iteration: a text node's line, then one of descend (open tag), advance (close or self-closed tag, then the next sibling), ascend (close or self-closed tag, then the parent, with the indent lowered but never below 0), or stop. |
| Html.HtmlWriter.WriteLeaving | pkg/articlewriters/html.go:55-70 | Leaving an element writes one line: its close tag when the cursor came out of its children, otherwise the element self-closed with its attributes. |
| Html.HtmlWriter.FormatAttrs | pkg/articlewriters/html.go:41-45 | The attribute text is `AttrText`: a space and `key="val"` per attribute, space-separated, or "" when there are none. |
| HtmlRender.AttrText | pkg/articlewriters/html.go:41-45 | Empty exactly when there are no attributes; otherwise it starts with a space and ends with the closing quote of the last value, so no trailing space is left. |
| HtmlRender.WalkFromRoot | pkg/articlewriters/html.go:24-104 | From the document root the loop writes `Pretty(doc, 0)` without its final close-tag line: each parent element between its open and close tags and its children indented one level deeper, each leaf element self-closed, each text node on its own line. |
| HtmlRender.WalkFromInner | pkg/articlewriters/html.go:24-104 | From an inner node, the article node's own pretty rendering is a prefix of what is written. |
| HtmlRender.ExitChild | pkg/articlewriters/html.go:53-96 | Leaving a child writes the following siblings' renderings, the parent's close line, then what leaving the parent writes. |
| HtmlRender.StepPending | pkg/articlewriters/html.go:28-101 | Each loop step writes exactly the next lines of the remaining walk. The rest of the walk is what is pending from the new cursor, flag and indent. |
| HtmlRender.StepSteps | pkg/articlewriters/html.go:28-101 | Each loop step that does not stop strictly decreases the number of steps left. |
| HtmlRender.DescendStep | pkg/articlewriters/html.go:38-52 | Descending writes the open tag, for an element, and continues from the first child one level deeper. |
| HtmlRender.LeaveStep | pkg/articlewriters/html.go:53-96 | Advancing or ascending writes the node's close or self-closed line and continues from the sibling or the parent. |
| HtmlRender.PrettyIndented | pkg/articlewriters/html.go:31 | Every line written for a node at depth d starts with d two-space indents and ends with a newline. |
| HtmlRender.PrettyLineCount | pkg/articlewriters/html.go:29-96 | The number of lines is the text nodes, plus two per element with children, plus one per element without. |
| HtmlRender.OtherDataIgnored | pkg/articlewriters/html.go:29-35 | The data of comment, doctype and other non-element, non-text nodes never appears: only their children are written. |
| Dom.FirstChild | pkg/articlewriters/html.go:38 | Present exactly when the node has children, and then it is child 0. |
| Dom.NextSibling | pkg/articlewriters/html.go:53 | Present exactly when the node is not the last child of its parent, and then it is the next child at the same depth. |
| Dom.Parent | pkg/articlewriters/html.go:73 | Present exactly when the node is not the root, and then it is one level up and holds the node as its child. |
| Sinks.Sink.Write | pkg/articlewriters/markdown.go:159-161 | One `io.WriteString`: accepted and recorded while within the limit, otherwise the sink's error and nothing recorded. |

## Left out

- A nil article node is not modelled: `Article.Valid` requires a position inside the document. The Markdown writer would dereference nil; the HTML writer would write nothing.
- Go's `int` overflow of the ordered-list counter is not modelled; the counter is a `nat`.
- Strings are sequences of characters. UTF-8 encoding is not modelled.
- Partial writes of an `io.Writer` are not modelled. A sink either accepts a whole string or fails; failure is driven by a fixed limit on the number of accepted writes. Every writer stops at its first error, so the limit covers every failure pattern the writers can observe.
- The HTML writer's cursor is a path of child indices from the document root, not a node pointer. A well-formed tree's pointer links are exactly what `FirstChild`, `NextSibling` and `Parent` compute on paths.
- HTML parsing, atom interning and the readability extraction are not part of this model (golang.org/x/net/html and go-readability). An element's tag name and its atom are independent fields, and nothing ties them together.
- `pkg/commands/root.go`, its options, `pkg/htmlgetters` and `writers.go` are not part of this model. They fetch the page, pick a writer and print.
- The HTML writer copies its attribute loop three times (descend, advance, ascend); the model has it once, as `FormatAttrs`.
- Sinks.Sink.Deliver: that a rejected run keeps a prefix of the strings is stated in the separate lemma `DeliverRejected`, not in `Deliver`'s own contract.
- Markdown.MarkdownWriter.WriteNode: the counter is stated only on success. After an error the Go code may still increment it, but no write follows, so that value is never observed.
- MarkdownProps.ListItems: stated for children that are all `li` elements or non-elements (`ItemsOnly`). Other elements among list children are still rendered by `RenderList`, with no closed form.
- MarkdownProps.OrderedList: stated for an `ol` whose children are `li` elements or non-elements only.
- MarkdownProps.UnorderedList: stated for a `ul` whose children are `li` elements or non-elements only.
