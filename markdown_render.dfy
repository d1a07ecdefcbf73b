/**
 * What the Markdown writer emits, as pure functions of the tree: the writes
 * a node produces and the value its shared ordered-list counter holds
 * afterwards.
 */
module MarkdownRender {
  import opened Wrappers
  import opened Dom
  import opened Strings

  /** NodeOptions as a value: the counter of the enclosing list (0: none) and the accumulated indent. */
  datatype Options = Options(orderedListSeq: nat, indent: string)
  {
    function AppendIndent(s: string): Options
    {
      this.(indent := indent + s)
    }

    function WithOrderedListSeq(n: nat): Options
    {
      this.(orderedListSeq := n)
    }
  }

  /** The writes of a node, and the counter left in the options it was given. */
  datatype Rendering = Rendering(writes: seq<string>, counter: nat)

  /** Tags followed by a blank line when a sibling follows them. */
  predicate IsParagraph(atom: Atom)
  {
    match atom
    case H1 | H2 | H3 | H4 | H5 | H6 | P | Div | Figure | Figcaption | Section | Ul | Ol => true
    case _ => false
  }

  /** The paragraph separator of an element. */
  function Separator(atom: Atom, hasNext: bool): string
  {
    if !hasNext then ""
    else if IsParagraph(atom) then "\n\n"
    else if atom == Li then "\n"
    else ""
  }

  /** writeString's transformation: newlines re-indented unless the indent is empty. */
  function IndentText(text: string, indent: string): (r: string)
    ensures r == ReplaceNewlines(text, indent)
  {
    if indent != "" then ReplaceNewlines(text, indent) else text
  }

  /**
   * The value of `key` an attribute loop that overwrites on every match
   * ends with: the last occurrence, or "" when there is none.
   */
  function AttrValue(attrs: seq<Attr>, key: string): string
  {
    if attrs == [] then ""
    else if attrs[|attrs| - 1].key == key then attrs[|attrs| - 1].val
    else AttrValue(attrs[..|attrs| - 1], key)
  }

  ghost predicate IsLastValue(attrs: seq<Attr>, key: string, v: string)
  {
    || (exists i :: 0 <= i < |attrs| && attrs[i].key == key && attrs[i].val == v
                    && forall j :: i < j < |attrs| ==> attrs[j].key != key)
    || (v == "" && forall i :: 0 <= i < |attrs| ==> attrs[i].key != key)
  }

  /** AttrValue is the value of the last attribute named `key`, or "" when there is none. */
  lemma {:induction false} AttrValueIsLast(attrs: seq<Attr>, key: string)
    ensures IsLastValue(attrs, key, AttrValue(attrs, key))
    decreases |attrs|
  {
    if attrs != [] {
      var n := |attrs| - 1;
      var v := AttrValue(attrs, key);
      if attrs[n].key == key {
        assert attrs[n].key == key && attrs[n].val == v;
      } else {
        var init := attrs[..n];
        AttrValueIsLast(init, key);
        assert v == AttrValue(init, key);
        if exists i :: 0 <= i < n && init[i].key == key && init[i].val == v
                       && forall j :: i < j < n ==> init[j].key != key {
          var i :| 0 <= i < n && init[i].key == key && init[i].val == v
                   && forall j :: i < j < n ==> init[j].key != key;
          forall j | i < j < |attrs|
            ensures attrs[j].key != key
          {
            if j < n {
              assert attrs[j] == init[j];
            }
          }
          assert attrs[i] == init[i];
        } else {
          forall i | 0 <= i < |attrs|
            ensures attrs[i].key != key
          {
            if i < n {
              assert attrs[i] == init[i];
            }
          }
        }
      }
    }
  }

  /** writeImage's single write. */
  function ImageMarkup(attrs: seq<Attr>, hasNext: bool): string
  {
    "![" + AttrValue(attrs, "alt") + "](" + AttrValue(attrs, "src") + ")" + (if hasNext then "\n\n" else "")
  }

  /** writeChildren omits empty prefixes and suffixes. */
  function NonEmpty(s: string): seq<string>
  {
    if s == "" then [] else [s]
  }

  /**
   * How writeNode treats an element: write the children between a prefix and
   * a suffix, handing them `inner` (the caller's own options when `after` is
   * None, a copy otherwise, after which the caller's counter is `after`),
   * or write a single leaf text without visiting the children.
   */
  datatype Rule =
    | Wrap(prefix: string, suffix: string, inner: Options, after: Option<nat>)
    | Leaf(text: string)

  /** writeNode's dispatch on the element's tag. */
  function ElementRule(atom: Atom, attrs: seq<Attr>, hasNext: bool, o: Options): Rule
  {
    var sep := Separator(atom, hasNext);
    match atom
    case H1 => Wrap("# ", sep, o, None)
    case H2 => Wrap("## ", sep, o, None)
    case H3 => Wrap("### ", sep, o, None)
    case H4 => Wrap("#### ", sep, o, None)
    case H5 => Wrap("##### ", sep, o, None)
    case H6 => Wrap("###### ", sep, o, None)
    case Figcaption => Wrap("> ", sep, o.AppendIndent("> "), Some(o.orderedListSeq))
    case Ol => Wrap("", sep, o.WithOrderedListSeq(1), Some(o.orderedListSeq))
    case Li =>
      if o.orderedListSeq == 0 then Wrap("- ", sep, o.AppendIndent("  "), Some(0))
      else Wrap(Itoa(o.orderedListSeq) + ". ", sep, o.AppendIndent("   "), Some(o.orderedListSeq + 1))
    case B => Wrap(" **", "** ", o, None)
    case A => Wrap(" [", "](" + AttrValue(attrs, "href") + ") ", o, None)
    case Img | Image => Leaf(ImageMarkup(attrs, hasNext))
    case _ => Wrap("", sep, o, None)
  }

  /** writeNode. */
  function RenderNode(n: Node, o: Options, hasNext: bool): Rendering
    decreases n, 2, 0
  {
    match n
    case Text(data) => Rendering([IndentText(data, o.indent)], o.orderedListSeq)
    case Other(_, _) => Rendering([], o.orderedListSeq)
    case Element(_, atom, attrs, _) =>
      match ElementRule(atom, attrs, hasNext, o)
      case Leaf(text) => Rendering([text], o.orderedListSeq)
      case Wrap(prefix, suffix, inner, after) =>
        var r := RenderChildren(n, prefix, suffix, inner);
        Rendering(r.writes, if after.Some? then after.value else r.counter)
  }

  /** writeChildren: the prefix, every child with the same options, the suffix. */
  function RenderChildren(n: Node, prefix: string, suffix: string, o: Options): Rendering
    decreases n, 1, 0
  {
    var body := RenderList(n, 0, o);
    Rendering(NonEmpty(prefix) + body.writes + NonEmpty(suffix), body.counter)
  }

  /** The children of `n` from index `i` on; each sees the counter the previous one left. */
  function RenderList(n: Node, i: nat, o: Options): Rendering
    requires i <= |Children(n)|
    decreases n, 0, |Children(n)| - i
  {
    var cs := Children(n);
    if i == |cs| then Rendering([], o.orderedListSeq)
    else
      var first := RenderNode(cs[i], o, i + 1 < |cs|);
      var rest := RenderList(n, i + 1, o.WithOrderedListSeq(first.counter));
      Rendering(first.writes + rest.writes, rest.counter)
  }

  /** One step of RenderList. */
  lemma ListStep(n: Node, i: nat, o: Options)
    requires i < |Children(n)|
    ensures var first := RenderNode(Children(n)[i], o, i + 1 < |Children(n)|);
            var rest := RenderList(n, i + 1, o.WithOrderedListSeq(first.counter));
            RenderList(n, i, o) == Rendering(first.writes + rest.writes, rest.counter)
  {
  }

  /** The loop over the children keeps `sent` + what the remaining children write equal to the whole list. */
  lemma ListInvariant(n: Node, i: nat, o: Options, sent: seq<string>, total: Rendering)
    requires i < |Children(n)|
    requires sent + RenderList(n, i, o).writes == total.writes && RenderList(n, i, o).counter == total.counter
    ensures var first := RenderNode(Children(n)[i], o, i + 1 < |Children(n)|);
            var rest := RenderList(n, i + 1, o.WithOrderedListSeq(first.counter));
            && sent + (first.writes + rest.writes) == total.writes
            && sent + first.writes + rest.writes == total.writes
            && rest.counter == total.counter
  {
    var first := RenderNode(Children(n)[i], o, i + 1 < |Children(n)|);
    var rest := RenderList(n, i + 1, o.WithOrderedListSeq(first.counter));
    ListStep(n, i, o);
    ConcatAssoc(sent, first.writes, rest.writes);
  }

  /** markdownWriter.Write: the title heading, the content node, a final newline. */
  function Document(a: Article): seq<string>
    requires a.Valid()
  {
    ["# " + a.title + "\n\n"]
      + RenderNode(a.Root(), Options(0, ""), NextSibling(a.doc, a.node).Some?).writes
      + ["\n"]
  }
}
