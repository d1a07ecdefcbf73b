/**
 * The pretty-HTML writer (htmlWriter): one loop that moves a cursor through
 * the tree by its FirstChild, NextSibling and Parent pointers, with a flag
 * telling whether the cursor arrived from a last child and an indent level,
 * writing one line per step on the way.
 */
module Html {
  import opened Wrappers
  import opened Dom
  import opened Strings
  import opened Sinks
  import opened HtmlRender

  class HtmlWriter {
    const w: Sink

    constructor (w: Sink)
      ensures this.w == w
    {
      this.w := w;
    }

    /** The attribute text of a tag: " " then key="val" plus a space per attribute, trailing spaces trimmed. */
    static method FormatAttrs(attrs: seq<Attr>) returns (s: string)
      ensures s == AttrText(attrs)
    {
      var attr := " ";
      for i := 0 to |attrs|
        invariant attr == AttrText(attrs[..i]) + " "
      {
        assert attrs[..i + 1][..i] == attrs[..i];
        attr := attr + attrs[i].key + "=\"" + attrs[i].val + "\" ";
      }
      assert attrs[..|attrs|] == attrs;
      s := TrimRightSpaces(attr);
      TrimOneSpace(AttrText(attrs));
    }

    /**
     * Write: the walk from the article node; the title is not written. The
     * first rejected write ends it.
     */
    method Write(article: Article) returns (st: Status)
      requires article.Valid() && w.Valid()
      modifies w
      ensures w.Valid()
      ensures (w.written, st) == w.Deliver(old(w.written), Walk(article.doc, article.node))
    {
      var doc := article.doc;
      ghost var total := Walk(doc, article.node);
      var w0 := w.written;
      ghost var sent: seq<string> := [];
      var cur: Option<Path> := Some(article.node);
      var out := false;
      var indent: int := 0;
      while cur.Some?
        invariant ValidState(doc, cur, out)
        invariant indent >= 0
        invariant w.Valid() && w.written == w0 + sent && w.Fits(|w0| + |sent|)
        invariant sent + Pending(doc, cur, out, indent) == total
        decreases Steps(doc, cur, out)
      {
        var p := cur.value;
        StepPending(doc, p, out, indent);
        StepSteps(doc, p, out, indent);
        ghost var lines := TextPart(At(doc, p), indent) + MoveLines(doc, p, out, indent);
        ghost var next := Move(doc, p, out, indent);
        ConcatAssoc(sent, lines, Pending(doc, next.0, next.1, next.2));
        st, cur, out, indent := Visit(doc, p, out, indent);
        w.Continue(w0, sent, lines, Pending(doc, next.0, next.1, next.2));
        if st.Err? {
          return;
        }
        sent := sent + lines;
      }
      assert sent + [] == sent;
      st := Ok;
    }

    /**
     * One iteration of Write's loop at the node at `p`: its text line if it
     * is a text node, then one move with the tag line it calls for.
     */
    method Visit(doc: Node, p: Path, out: bool, indent: int)
      returns (st: Status, cur: Option<Path>, out': bool, indent': int)
      requires ValidPath(doc, p) && indent >= 0
      requires w.Valid()
      modifies w
      ensures w.Valid()
      ensures (w.written, st)
              == w.Deliver(old(w.written), TextPart(At(doc, p), indent) + MoveLines(doc, p, out, indent))
      ensures st.Ok? ==> var m := Move(doc, p, out, indent);
                         cur == m.0 && out' == m.1 && indent' == m.2
    {
      var node := At(doc, p);
      cur, out', indent' := None, out, indent;
      st := Ok;
      if node.Text? {
        assert TextPart(node, indent) + MoveLines(doc, p, out, indent) == [TextLine(node.data, indent)];
        st := w.Write(Repeat("  ", indent) + node.data + "\n");
        if st.Err? {
          return;
        }
      } else {
        assert w.written == old(w.written) + [];
      }
      var first := FirstChild(doc, p);
      var next := NextSibling(doc, p);
      var parent := Parent(doc, p);
      if first.Some? && !out {
        if node.Element? {
          assert TextPart(node, indent) + MoveLines(doc, p, out, indent) == [OpenLine(node, indent)];
          var attr := FormatAttrs(node.attrs);
          st := w.Write(Repeat("  ", indent) + "<" + node.tag + attr + ">\n");
          if st.Err? {
            return;
          }
        }
        cur, out', indent' := first, false, indent + 1;
      } else if next.Some? {
        if node.Element? {
          assert TextPart(node, indent) + MoveLines(doc, p, out, indent)
                 == if out then [CloseLine(node, indent)] else [SelfCloseLine(node, indent)];
          st := WriteLeaving(node, out, indent);
          if st.Err? {
            return;
          }
        }
        cur, out' := next, false;
      } else if parent.Some? {
        if node.Element? {
          assert TextPart(node, indent) + MoveLines(doc, p, out, indent)
                 == if out then [CloseLine(node, indent)] else [SelfCloseLine(node, indent)];
          st := WriteLeaving(node, out, indent);
          if st.Err? {
            return;
          }
        }
        cur, out' := parent, true;
        indent' := indent - 1;
        if indent' < 0 {
          indent' := 0;
        }
      } else {
        cur := None;
      }
      assert !node.Element? ==> TextPart(node, indent) + MoveLines(doc, p, out, indent) == TextPart(node, indent);
    }

    /** Leaving an element: its close tag when its children were written, else a self-closing tag. */
    method WriteLeaving(node: Node, out: bool, indent: int) returns (st: Status)
      requires node.Element? && indent >= 0 && w.Valid()
      modifies w
      ensures w.Valid()
      ensures (w.written, st) == w.Deliver(old(w.written),
                                   if out then [CloseLine(node, indent)] else [SelfCloseLine(node, indent)])
    {
      if out {
        st := w.Write(Repeat("  ", indent) + "</" + node.tag + ">\n");
      } else {
        var attr := FormatAttrs(node.attrs);
        st := w.Write(Repeat("  ", indent) + "<" + node.tag + attr + "/>\n");
      }
    }
  }
}
