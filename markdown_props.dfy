/**
 * Properties of the Markdown rendering: what a next sibling changes, how
 * headings, links, images, text and non-element nodes come out, and how the
 * shared ordered-list counter numbers list items.
 */
module MarkdownProps {
  import opened Wrappers
  import opened Dom
  import opened Strings
  import opened MarkdownRender

  // ---------------------------------------------------------------------------
  // Writes that disappear or stay put

  lemma FlattenNonEmpty(s: string)
    ensures Flatten(NonEmpty(s)) == s
  {
    if s != "" {
      assert [s][..0] == [];
    }
  }

  lemma FlattenWrap(prefix: string, body: seq<string>, suffix: string)
    ensures Flatten(NonEmpty(prefix) + body + NonEmpty(suffix)) == prefix + Flatten(body) + suffix
  {
    FlattenConcat(NonEmpty(prefix) + body, NonEmpty(suffix));
    FlattenConcat(NonEmpty(prefix), body);
    FlattenNonEmpty(prefix);
    FlattenNonEmpty(suffix);
  }

  /** What a following sibling adds after an element, by tag. */
  function TrailerOf(atom: Atom): string
  {
    match atom
    case H1 | H2 | H3 | H4 | H5 | H6 | P | Div | Figure | Figcaption | Section | Ul | Ol => "\n\n"
    case Img | Image => "\n\n"
    case Li => "\n"
    case _ => ""
  }

  function Trailer(n: Node): string
  {
    if n.Element? then TrailerOf(n.atom) else ""
  }

  /** An element with a Wrap rule: the prefix, the children with the rule's options, the suffix. */
  lemma WrapWrites(n: Node, o: Options, hasNext: bool)
    requires n.Element? && ElementRule(n.atom, n.attrs, hasNext, o).Wrap?
    ensures var rule := ElementRule(n.atom, n.attrs, hasNext, o);
            var body := RenderList(n, 0, rule.inner);
            RenderNode(n, o, hasNext)
            == Rendering(NonEmpty(rule.prefix) + body.writes + NonEmpty(rule.suffix),
                         if rule.after.Some? then rule.after.value else body.counter)
  {
  }

  /** Only the suffix of a Wrap rule depends on the sibling, and only by the trailer. */
  lemma RuleSibling(atom: Atom, attrs: seq<Attr>, o: Options)
    requires atom != Img && atom != Image
    ensures var yes, no := ElementRule(atom, attrs, true, o), ElementRule(atom, attrs, false, o);
            && yes.Wrap? && no.Wrap?
            && yes.prefix == no.prefix && yes.inner == no.inner && yes.after == no.after
            && yes.suffix == no.suffix + TrailerOf(atom)
  {
    var no := ElementRule(atom, attrs, false, o);
    assert no.suffix + "" == no.suffix;
  }

  lemma ImageSibling(attrs: seq<Attr>)
    ensures Flatten([ImageMarkup(attrs, true)]) == Flatten([ImageMarkup(attrs, false)]) + "\n\n"
  {
    var plain := ImageMarkup(attrs, false);
    assert [plain][..0] == [];
    assert [ImageMarkup(attrs, true)][..0] == [];
    assert plain == "![" + AttrValue(attrs, "alt") + "](" + AttrValue(attrs, "src") + ")";
  }

  /**
   * Having a next sibling only appends the node's paragraph separator: the
   * text is otherwise the same and so is the counter it leaves. `b` and `a`
   * keep their fixed suffixes, every untreated tag and every non-element
   * adds nothing.
   */
  lemma SiblingOnlyAddsSeparator(n: Node, o: Options)
    ensures RenderNode(n, o, true).counter == RenderNode(n, o, false).counter
    ensures Flatten(RenderNode(n, o, true).writes) == Flatten(RenderNode(n, o, false).writes) + Trailer(n)
  {
    if !n.Element? {
      var f := Flatten(RenderNode(n, o, true).writes);
      assert f + "" == f;
    } else if n.atom == Img || n.atom == Image {
      ImageSibling(n.attrs);
    } else {
      RuleSibling(n.atom, n.attrs, o);
      WrapWrites(n, o, true);
      WrapWrites(n, o, false);
      var yes, no := ElementRule(n.atom, n.attrs, true, o), ElementRule(n.atom, n.attrs, false, o);
      var body := Flatten(RenderList(n, 0, yes.inner).writes);
      FlattenWrap(yes.prefix, RenderList(n, 0, yes.inner).writes, yes.suffix);
      FlattenWrap(no.prefix, RenderList(n, 0, yes.inner).writes, no.suffix);
      ConcatAssoc(no.prefix + body, no.suffix, TrailerOf(n.atom));
    }
  }

  // ---------------------------------------------------------------------------
  // Headings, links, images, text and other nodes

  /** The level of a heading tag. */
  function HeadingLevel(atom: Atom): Option<nat>
  {
    match atom
    case H1 => Some(1)
    case H2 => Some(2)
    case H3 => Some(3)
    case H4 => Some(4)
    case H5 => Some(5)
    case H6 => Some(6)
    case _ => None
  }

  /**
   * Heading hK writes K `#` characters and a space, verbatim whatever the
   * indent, then its children with the caller's own options, then a blank
   * line exactly when a sibling follows.
   */
  lemma HeadingRendering(n: Node, o: Options, hasNext: bool)
    requires n.Element? && HeadingLevel(n.atom).Some?
    ensures var body := RenderList(n, 0, o);
            RenderNode(n, o, hasNext)
            == Rendering([Repeat("#", HeadingLevel(n.atom).value) + " "] + body.writes + (if hasNext then ["\n\n"] else []),
                         body.counter)
  {
    var k := HeadingLevel(n.atom).value;
    assert Repeat("#", 1) == "#";
    assert Repeat("#", 2) == "##";
    assert Repeat("#", 3) == "###";
    assert Repeat("#", 4) == "####";
    assert Repeat("#", 5) == "#####";
    assert Repeat("#", 6) == "######";
    assert ElementRule(n.atom, n.attrs, hasNext, o).prefix == Repeat("#", k) + " ";
  }

  /**
   * A link writes " [", its children with the caller's options, then "](",
   * the value of its last href attribute ("" when it has none) and ") ",
   * whether or not a sibling follows.
   */
  lemma LinkRendering(n: Node, o: Options, hasNext: bool)
    requires n.Element? && n.atom == A
    ensures var body := RenderList(n, 0, o);
            && RenderNode(n, o, hasNext).counter == body.counter
            && Flatten(RenderNode(n, o, hasNext).writes) == " [" + Flatten(body.writes) + "](" + AttrValue(n.attrs, "href") + ") "
            && IsLastValue(n.attrs, "href", AttrValue(n.attrs, "href"))
  {
    WrapWrites(n, o, hasNext);
    FlattenWrap(" [", RenderList(n, 0, o).writes, "](" + AttrValue(n.attrs, "href") + ") ");
    AttrValueIsLast(n.attrs, "href");
  }

  /**
   * An image is one write built from its last src and alt attributes; its
   * children are never visited and it leaves the counter alone.
   */
  lemma ImageIgnoresChildren(tag: string, atom: Atom, attrs: seq<Attr>, cs: seq<Node>, cs': seq<Node>, o: Options, hasNext: bool)
    requires atom == Img || atom == Image
    ensures RenderNode(Element(tag, atom, attrs, cs), o, hasNext) == RenderNode(Element(tag, atom, attrs, cs'), o, hasNext)
    ensures RenderNode(Element(tag, atom, attrs, cs), o, hasNext) == Rendering([ImageMarkup(attrs, hasNext)], o.orderedListSeq)
    ensures IsLastValue(attrs, "src", AttrValue(attrs, "src")) && IsLastValue(attrs, "alt", AttrValue(attrs, "alt"))
  {
    AttrValueIsLast(attrs, "src");
    AttrValueIsLast(attrs, "alt");
  }

  /** Comment, document and doctype nodes write nothing, whatever their data and children. */
  lemma OtherIsSilent(data: string, cs: seq<Node>, data': string, cs': seq<Node>, o: Options, hasNext: bool)
    ensures RenderNode(Other(data, cs), o, hasNext) == RenderNode(Other(data', cs'), o, !hasNext)
    ensures RenderNode(Other(data, cs), o, hasNext).writes == []
    ensures RenderNode(Other(data, cs), o, hasNext).counter == o.orderedListSeq
  {
  }

  /**
   * Text is the only re-indented output: one write, in which the indent
   * follows each newline; removing it gives the text back, and an empty
   * indent leaves the text as it is.
   */
  lemma TextRendering(data: string, o: Options, hasNext: bool)
    ensures var r := RenderNode(Text(data), o, hasNext);
            && |r.writes| == 1 && r.counter == o.orderedListSeq
            && Dedent(r.writes[0], o.indent) == data
            && |r.writes[0]| == |data| + Newlines(data) * |o.indent|
            && (o.indent == "" ==> r.writes[0] == data)
  {
    DedentReplaceNewlines(data, o.indent);
  }

  /**
   * The whole document: the title heading, never re-indented, the content
   * node, and a final newline.
   */
  lemma DocumentText(a: Article)
    requires a.Valid()
    ensures var body := RenderNode(a.Root(), Options(0, ""), NextSibling(a.doc, a.node).Some?).writes;
            Flatten(Document(a)) == "# " + a.title + "\n\n" + Flatten(body) + "\n"
  {
    var title := "# " + a.title + "\n\n";
    var body := RenderNode(a.Root(), Options(0, ""), NextSibling(a.doc, a.node).Some?).writes;
    FlattenConcat([title] + body, ["\n"]);
    FlattenConcat([title], body);
    assert [title][..0] == [];
    assert ["\n"][..0] == [];
  }

  // ---------------------------------------------------------------------------
  // The ordered-list counter

  /**
   * The counter a node leaves is never below the one it was given, and an
   * unordered context (counter 0) stays unordered.
   */
  lemma {:induction false} CounterNeverDecreases(n: Node, o: Options, hasNext: bool)
    ensures RenderNode(n, o, hasNext).counter >= o.orderedListSeq
    ensures o.orderedListSeq == 0 ==> RenderNode(n, o, hasNext).counter == 0
    decreases n, 2, 0
  {
    match n
    case Text(_) =>
    case Other(_, _) =>
    case Element(_, atom, attrs, _) =>
      var rule := ElementRule(atom, attrs, hasNext, o);
      if rule.Wrap? && rule.after.None? {
        assert rule.inner == o;
        CounterNeverDecreasesList(n, 0, o);
      }
  }

  lemma {:induction false} CounterNeverDecreasesList(n: Node, i: nat, o: Options)
    requires i <= |Children(n)|
    ensures RenderList(n, i, o).counter >= o.orderedListSeq
    ensures o.orderedListSeq == 0 ==> RenderList(n, i, o).counter == 0
    decreases n, 0, |Children(n)| - i
  {
    var cs := Children(n);
    if i < |cs| {
      var first := RenderNode(cs[i], o, i + 1 < |cs|);
      CounterNeverDecreases(cs[i], o, i + 1 < |cs|);
      CounterNeverDecreasesList(n, i + 1, o.WithOrderedListSeq(first.counter));
    }
  }

  /** A list item. */
  predicate IsItem(c: Node)
  {
    c.Element? && c.atom == Li
  }

  /** Every child is a list item, text (such as the whitespace between items) or a non-element. */
  predicate ItemsOnly(n: Node)
  {
    forall j :: 0 <= j < |Children(n)| ==> IsItem(Children(n)[j]) || !Children(n)[j].Element?
  }

  /** The number of list items among the children from `i` on. */
  function ItemCount(n: Node, i: nat): nat
    requires i <= |Children(n)|
    decreases |Children(n)| - i
  {
    if i == |Children(n)| then 0 else (if IsItem(Children(n)[i]) then 1 else 0) + ItemCount(n, i + 1)
  }

  /** An item's marker: a bullet in an unordered context, else the counter and a dot. */
  function Marker(k: nat): string
  {
    if k == 0 then "- " else Itoa(k) + ". "
  }

  /** What an item adds to the indent of its content: the width of its marker. */
  function MarkerIndent(k: nat): string
  {
    if k == 0 then "  " else "   "
  }

  /**
   * A list written in a context with counter `k` and indent `indent`: the
   * items from child `i` on are marked `k`, `k`+1, … in document order (all
   * with a bullet when `k` is 0), each item's content is written with the
   * counter set to its own number and the indent widened by its marker, and
   * text between the items is written re-indented.
   */
  function Items(n: Node, i: nat, k: nat, indent: string): seq<string>
    requires i <= |Children(n)|
    decreases |Children(n)| - i
  {
    var cs := Children(n);
    if i == |cs| then []
    else
      var c := cs[i];
      var more := i + 1 < |cs|;
      if IsItem(c) then
        [Marker(k)] + RenderList(c, 0, Options(k, indent + MarkerIndent(k))).writes + (if more then ["\n"] else [])
          + Items(n, i + 1, if k == 0 then 0 else k + 1, indent)
      else if c.Text? then [IndentText(c.data, indent)] + Items(n, i + 1, k, indent)
      else Items(n, i + 1, k, indent)
  }

  /** The children of a list, item by item, and the counter they leave: `k` plus one per item. */
  lemma {:induction false} ListItems(n: Node, i: nat, k: nat, indent: string)
    requires i <= |Children(n)| && ItemsOnly(n)
    ensures RenderList(n, i, Options(k, indent))
            == Rendering(Items(n, i, k, indent), if k == 0 then 0 else k + ItemCount(n, i))
    decreases |Children(n)| - i
  {
    if i < |Children(n)| {
      if IsItem(Children(n)[i]) {
        var k' := if k == 0 then 0 else k + 1;
        ListItems(n, i + 1, k', indent);
        ItemStep(n, i, k, indent);
      } else {
        ListItems(n, i + 1, k, indent);
        NonItemStep(n, i, k, indent);
      }
    }
  }

  /** A list item: its marker and content, then the rest with the next number. */
  lemma ItemStep(n: Node, i: nat, k: nat, indent: string)
    requires i < |Children(n)| && IsItem(Children(n)[i])
    requires var k' := if k == 0 then 0 else k + 1;
             RenderList(n, i + 1, Options(k', indent))
             == Rendering(Items(n, i + 1, k', indent), if k' == 0 then 0 else k' + ItemCount(n, i + 1))
    ensures RenderList(n, i, Options(k, indent))
            == Rendering(Items(n, i, k, indent), if k == 0 then 0 else k + ItemCount(n, i))
  {
    var c := Children(n)[i];
    var o := Options(k, indent);
    var more := i + 1 < |Children(n)|;
    var k' := if k == 0 then 0 else k + 1;
    ListStep(n, i, o);
    ItemRendering(c, o, more);
    assert o.WithOrderedListSeq(k') == Options(k', indent);
  }

  /** Text or a non-element between the items: its own writes, if any, and the same number goes on. */
  lemma NonItemStep(n: Node, i: nat, k: nat, indent: string)
    requires i < |Children(n)| && !Children(n)[i].Element?
    requires RenderList(n, i + 1, Options(k, indent))
             == Rendering(Items(n, i + 1, k, indent), if k == 0 then 0 else k + ItemCount(n, i + 1))
    ensures RenderList(n, i, Options(k, indent))
            == Rendering(Items(n, i, k, indent), if k == 0 then 0 else k + ItemCount(n, i))
  {
    var c := Children(n)[i];
    var o := Options(k, indent);
    ListStep(n, i, o);
    assert o.WithOrderedListSeq(RenderNode(c, o, i + 1 < |Children(n)|).counter) == o;
    if c.Other? {
      assert RenderNode(c, o, i + 1 < |Children(n)|).writes == [];
    }
  }

  /**
   * An ol numbers its items 1., 2., … and hands its caller the counter it
   * had: the numbering works on a copy, so it never leaks to the ol's
   * siblings or parent, and every ol starts again at 1.
   */
  lemma OrderedList(n: Node, o: Options, hasNext: bool)
    requires n.Element? && n.atom == Ol && ItemsOnly(n)
    ensures RenderNode(n, o, hasNext) == Rendering(Items(n, 0, 1, o.indent) + (if hasNext then ["\n\n"] else []), o.orderedListSeq)
  {
    ListItems(n, 0, 1, o.indent);
    assert o.WithOrderedListSeq(1) == Options(1, o.indent);
  }

  /**
   * A ul has no rule of its own and passes its caller's options on: at
   * counter 0 its items get bullets, but inside a numbered item its items
   * go on numbering from that item's number, and the counter they advance
   * is the one the caller then sees.
   */
  lemma UnorderedList(n: Node, o: Options, hasNext: bool)
    requires n.Element? && n.atom == Ul && ItemsOnly(n)
    ensures var k := o.orderedListSeq;
            RenderNode(n, o, hasNext)
            == Rendering(Items(n, 0, k, o.indent) + (if hasNext then ["\n\n"] else []),
                         if k == 0 then 0 else k + ItemCount(n, 0))
  {
    ListItems(n, 0, o.orderedListSeq, o.indent);
    assert Options(o.orderedListSeq, o.indent) == o;
  }

  /**
   * An item with counter `k` > 0 writes "k. ", its content with that same
   * counter and three more spaces of indent, and leaves `k` + 1 behind; with
   * counter 0 it writes "- ", its content with two more spaces, and leaves 0.
   * A figcaption, for comparison, writes "> " and adds "> " to the indent.
   */
  lemma ItemRendering(n: Node, o: Options, hasNext: bool)
    requires IsItem(n)
    ensures var k := o.orderedListSeq;
            RenderNode(n, o, hasNext)
            == Rendering([Marker(k)] + RenderList(n, 0, Options(k, o.indent + MarkerIndent(k))).writes
                           + (if hasNext then ["\n"] else []),
                         if k == 0 then 0 else k + 1)
  {
  }

  lemma FigcaptionRendering(n: Node, o: Options, hasNext: bool)
    requires n.Element? && n.atom == Figcaption
    ensures RenderNode(n, o, hasNext)
            == Rendering(["> "] + RenderList(n, 0, o.AppendIndent("> ")).writes + (if hasNext then ["\n\n"] else []),
                         o.orderedListSeq)
  {
  }
}
