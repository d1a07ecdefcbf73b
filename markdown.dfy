/**
 * The Markdown writer (markdownWriter): a recursive descent that streams
 * writes to the sink. A NodeOptions object is shared by reference between a
 * node and its children, so an `li` increments the counter of the
 * options it was handed, which its following siblings then see.
 */
module Markdown {
  import opened Wrappers
  import opened Dom
  import opened Strings
  import opened Sinks
  import opened MarkdownRender

  class NodeOptions {
    var orderedListSeq: nat
    var indent: string

    constructor (orderedListSeq: nat, indent: string)
      ensures Value() == Options(orderedListSeq, indent)
    {
      this.orderedListSeq := orderedListSeq;
      this.indent := indent;
    }

    function Value(): Options
      reads this
    {
      Options(orderedListSeq, indent)
    }

    /** A fresh copy with `s` appended to the indent; the receiver is left alone. */
    method AppendIndent(s: string) returns (r: NodeOptions)
      ensures fresh(r) && r.Value() == Value().AppendIndent(s)
    {
      r := new NodeOptions(orderedListSeq, indent + s);
    }

    /** A fresh copy with the counter set to `n`; the receiver is left alone. */
    method WithOrderedListSeq(n: nat) returns (r: NodeOptions)
      ensures fresh(r) && r.Value() == Value().WithOrderedListSeq(n)
    {
      r := new NodeOptions(n, indent);
    }
  }

  class MarkdownWriter {
    const w: Sink

    constructor (w: Sink)
      ensures this.w == w
    {
      this.w := w;
    }

    /** Write: the title heading, the content node with fresh options, a final newline. */
    method Write(article: Article) returns (st: Status)
      requires article.Valid() && w.Valid()
      modifies w
      ensures w.Valid()
      ensures (w.written, st) == w.Deliver(old(w.written), Document(article))
    {
      var root := At(article.doc, article.node);
      var hasNext := NextSibling(article.doc, article.node).Some?;
      var title := "# " + article.title + "\n\n";
      ghost var body := RenderNode(root, Options(0, ""), hasNext).writes;
      var w0 := w.written;
      st := WriteString(title, "");
      if st.Err? {
        w.DeliverFailed(w0, [title], body + ["\n"]);
        return;
      }
      var opts := new NodeOptions(0, "");
      st := WriteNode(root, hasNext, opts);
      if st.Err? {
        w.DeliverFailed(w0 + [title], body, ["\n"]);
        w.DeliverThen(w0, [title], body + ["\n"]);
        assert [title] + (body + ["\n"]) == Document(article);
        return;
      }
      w.DeliverThen(w0, [title], body);
      st := WriteString("\n", "");
      w.DeliverThen(w0, [title] + body, ["\n"]);
      assert [title] + body + ["\n"] == Document(article);
    }

    /** writeNode. On success the options hold the counter the rendering leaves. */
    method WriteNode(node: Node, hasNext: bool, opts: NodeOptions) returns (st: Status)
      requires w.Valid()
      modifies w, opts
      ensures w.Valid() && opts.indent == old(opts.indent)
      ensures (w.written, st) == w.Deliver(old(w.written), RenderNode(node, old(opts.Value()), hasNext).writes)
      ensures st.Ok? ==> opts.orderedListSeq == RenderNode(node, old(opts.Value()), hasNext).counter
      decreases node, 3, 0
    {
      var sep := "";
      if node.Element? && hasNext {
        match node.atom
        case H1 | H2 | H3 | H4 | H5 | H6 | P | Div | Figure | Figcaption | Section | Ul | Ol =>
          sep := "\n\n";
        case Li =>
          sep := "\n";
        case _ =>
      }
      assert node.Element? ==> sep == Separator(node.atom, hasNext);

      match node
      case Text(data) =>
        st := WriteString(data, opts.indent);
      case Other(_, _) =>
        st := Ok;
        assert w.written + [] == w.written;
      case Element(_, _, _, _) =>
        st := WriteElement(node, hasNext, sep, opts);
    }

    /** The element case of writeNode, given the separator it computed. */
    method WriteElement(node: Node, hasNext: bool, sep: string, opts: NodeOptions) returns (st: Status)
      requires node.Element? && sep == Separator(node.atom, hasNext)
      requires w.Valid()
      modifies w, opts
      ensures w.Valid() && opts.indent == old(opts.indent)
      ensures (w.written, st) == w.Deliver(old(w.written), RenderNode(node, old(opts.Value()), hasNext).writes)
      ensures st.Ok? ==> opts.orderedListSeq == RenderNode(node, old(opts.Value()), hasNext).counter
      decreases node, 2, 0
    {
      if node.atom == Img || node.atom == Image {
        st := WriteImage(node, hasNext);
        return;
      }
      ghost var o := opts.Value();
      ghost var rule := ElementRule(node.atom, node.attrs, hasNext, o);
      var prefix, suffix, inner, ordered := ChildArguments(node, hasNext, sep, opts);
      st := WriteChildren(node, prefix, suffix, inner);
      if ordered {
        opts.orderedListSeq := opts.orderedListSeq + 1;
      }
    }

    /**
     * The arguments writeNode's element switch hands to writeChildren:
     * those of ElementRule, the caller's own options object exactly when the
     * rule shares it, and whether the caller's counter is then incremented.
     */
    method ChildArguments(node: Node, hasNext: bool, sep: string, opts: NodeOptions)
      returns (prefix: string, suffix: string, inner: NodeOptions, ordered: bool)
      requires node.Element? && sep == Separator(node.atom, hasNext)
      requires ElementRule(node.atom, node.attrs, hasNext, opts.Value()).Wrap?
      ensures var rule := ElementRule(node.atom, node.attrs, hasNext, opts.Value());
              && prefix == rule.prefix && suffix == rule.suffix && inner.Value() == rule.inner
              && (rule.after.None? ==> inner == opts && !ordered)
              && (rule.after.Some? ==> fresh(inner)
                                       && rule.after.value == opts.orderedListSeq + (if ordered then 1 else 0))
    {
      var atom, attrs := node.atom, node.attrs;
      prefix, suffix, inner := "", sep, opts;
      ordered := false;
      match atom {
        case H1 =>
          prefix := "# ";
        case H2 =>
          prefix := "## ";
        case H3 =>
          prefix := "### ";
        case H4 =>
          prefix := "#### ";
        case H5 =>
          prefix := "##### ";
        case H6 =>
          prefix := "###### ";
        case Figcaption =>
          prefix := "> ";
          inner := opts.AppendIndent("> ");
        case Ol =>
          inner := opts.WithOrderedListSeq(1);
        case Li =>
          if opts.orderedListSeq == 0 {
            prefix := "- ";
            inner := opts.AppendIndent("  ");
          } else {
            prefix := Itoa(opts.orderedListSeq) + ". ";
            inner := opts.AppendIndent("   ");
            ordered := true;
          }
        case B =>
          prefix, suffix := " **", "** ";
        case A =>
          var href := "";
          for i := 0 to |attrs|
            invariant href == AttrValue(attrs[..i], "href")
          {
            assert attrs[..i + 1][..i] == attrs[..i];
            if attrs[i].key == "href" {
              href := attrs[i].val;
            }
          }
          assert attrs[..|attrs|] == attrs;
          prefix, suffix := " [", "](" + href + ") ";
        case Img | Image =>
        case _ =>
      }
    }

    /** writeChildren: the prefix, every child with the same options object, the suffix. */
    method WriteChildren(node: Node, prefix: string, suffix: string, opts: NodeOptions) returns (st: Status)
      requires w.Valid()
      modifies w, opts
      ensures w.Valid() && opts.indent == old(opts.indent)
      ensures (w.written, st) == w.Deliver(old(w.written), RenderChildren(node, prefix, suffix, old(opts.Value())).writes)
      ensures st.Ok? ==> opts.orderedListSeq == RenderChildren(node, prefix, suffix, old(opts.Value())).counter
      decreases node, 1, 0
    {
      var w0 := w.written;
      ghost var pre, list, suf := NonEmpty(prefix), RenderList(node, 0, opts.Value()).writes, NonEmpty(suffix);
      ConcatAssoc(pre, list, suf);
      st := WriteNonEmpty(prefix);
      if st.Err? {
        w.DeliverFailed(w0, pre, list + suf);
        return;
      }
      w.DeliverAccepted(w0, pre);
      st := WriteChildNodes(node, opts);
      w.Continue(w0, pre, list, suf);
      if st.Err? {
        return;
      }
      st := WriteNonEmpty(suffix);
      w.DeliverThen(w0, pre + list, suf);
    }

    /** The loop over the children: each is written with the same options object. */
    method WriteChildNodes(node: Node, opts: NodeOptions) returns (st: Status)
      requires w.Valid()
      modifies w, opts
      ensures w.Valid() && opts.indent == old(opts.indent)
      ensures (w.written, st) == w.Deliver(old(w.written), RenderList(node, 0, old(opts.Value())).writes)
      ensures st.Ok? ==> opts.orderedListSeq == RenderList(node, 0, old(opts.Value())).counter
      decreases node, 0, 0
    {
      var w0 := w.written;
      ghost var list := RenderList(node, 0, opts.Value());
      ghost var sent: seq<string> := [];
      var cs := Children(node);
      var i := 0;
      while i < |cs|
        invariant 0 <= i <= |cs|
        invariant w.Valid() && opts.indent == old(opts.indent)
        invariant w.written == w0 + sent && w.Fits(|w0| + |sent|)
        invariant sent + RenderList(node, i, opts.Value()).writes == list.writes
        invariant RenderList(node, i, opts.Value()).counter == list.counter
      {
        ghost var before := opts.Value();
        ghost var here := RenderNode(cs[i], before, i + 1 < |cs|);
        ghost var rest := RenderList(node, i + 1, before.WithOrderedListSeq(here.counter));
        ListInvariant(node, i, before, sent, list);
        st := WriteNode(cs[i], i + 1 < |cs|, opts);
        w.Continue(w0, sent, here.writes, rest.writes);
        if st.Err? {
          return;
        }
        assert opts.Value() == before.WithOrderedListSeq(here.counter);
        sent := sent + here.writes;
        i := i + 1;
      }
      assert RenderList(node, i, opts.Value()).writes == [];
      assert sent + [] == sent;
      st := Ok;
    }

    /** The `if s != ""` guard writeChildren puts around the prefix and the suffix. */
    method WriteNonEmpty(s: string) returns (st: Status)
      requires w.Valid()
      modifies w
      ensures w.Valid()
      ensures (w.written, st) == w.Deliver(old(w.written), NonEmpty(s))
    {
      if s != "" {
        st := WriteString(s, "");
      } else {
        st := Ok;
        assert w.written + [] == w.written;
      }
    }

    /** writeString: one write of the text, re-indented unless the indent is empty. */
    method WriteString(text: string, indent: string) returns (st: Status)
      requires w.Valid()
      modifies w
      ensures w.Valid()
      ensures (w.written, st) == w.Deliver(old(w.written), [IndentText(text, indent)])
    {
      var t := text;
      if indent != "" {
        t := ReplaceNewlines(text, indent);
      }
      st := w.Write(t);
    }

    /** writeImage: one write of `![alt](src)`, a blank line after it when a sibling follows. */
    method WriteImage(node: Node, hasNext: bool) returns (st: Status)
      requires node.Element?
      requires w.Valid()
      modifies w
      ensures w.Valid()
      ensures (w.written, st) == w.Deliver(old(w.written), [ImageMarkup(node.attrs, hasNext)])
    {
      var src := "";
      var alt := "";
      var attrs := node.attrs;
      for i := 0 to |attrs|
        invariant src == AttrValue(attrs[..i], "src")
        invariant alt == AttrValue(attrs[..i], "alt")
      {
        assert attrs[..i + 1][..i] == attrs[..i];
        if attrs[i].key == "src" {
          src := attrs[i].val;
        } else if attrs[i].key == "alt" {
          alt := attrs[i].val;
        }
      }
      assert attrs[..|attrs|] == attrs;
      var sep := "";
      if hasNext {
        sep := "\n\n";
      }
      st := WriteString("![" + alt + "](" + src + ")" + sep, "");
    }
  }
}
