/**
 * What the pretty-HTML writer produces, as functions of the tree.
 *
 * Pretty(n, d) is the re-indented rendering of a whole subtree at depth d.
 * The writer itself is a pointer walk that starts at the article node and
 * does not stop at the end of its subtree; Walk(doc, p) describes that walk
 * structurally: the part of the start node written before it is left
 * (Head), then what is written on the way out (Exit): its closing line, each
 * following sibling in full, and the same for every ancestor.
 */
module HtmlRender {
  import opened Wrappers
  import opened Dom
  import opened Strings

  /** The indentation of depth d: two spaces per level. */
  function Indent(d: nat): (r: string)
    ensures |r| == 2 * d
  {
    Repeat("  ", d)
  }

  /** One attribute as written: key="val". */
  function AttrPair(a: Attr): string
  {
    a.key + "=\"" + a.val + "\""
  }

  /** The attribute list of a tag: each pair preceded by one space. */
  function AttrText(attrs: seq<Attr>): (r: string)
    ensures r == "" <==> attrs == []
    ensures r != "" ==> r[0] == ' ' && r[|r| - 1] == '"'
  {
    if attrs == [] then ""
    else AttrText(attrs[..|attrs| - 1]) + " " + AttrPair(attrs[|attrs| - 1])
  }

  function TextLine(data: string, d: nat): string
  {
    Indent(d) + data + "\n"
  }

  function OpenLine(n: Node, d: nat): string
    requires n.Element?
  {
    Indent(d) + "<" + n.tag + AttrText(n.attrs) + ">\n"
  }

  function CloseLine(n: Node, d: nat): string
    requires n.Element?
  {
    Indent(d) + "</" + n.tag + ">\n"
  }

  function SelfCloseLine(n: Node, d: nat): string
    requires n.Element?
  {
    Indent(d) + "<" + n.tag + AttrText(n.attrs) + "/>\n"
  }

  /** The rendering of the subtree `n` at depth `d`. */
  function Pretty(n: Node, d: nat): seq<string>
    decreases n, 2, 0
  {
    Head(n, d) + Closing(n, d)
  }

  /** What is written while `n` is current with out unset, up to leaving it. */
  function Head(n: Node, d: nat): seq<string>
    decreases n, 1, 0
  {
    match n
    case Text(data) => [TextLine(data, d)]
    case Element(_, _, _, cs) => if cs == [] then [] else [OpenLine(n, d)] + PrettyFrom(n, 0, d + 1)
    case Other(_, cs) => PrettyFrom(n, 0, d + 1)
  }

  /** The line an element writes when it is left: a close tag after children, else a self-closing tag. */
  function Closing(n: Node, d: nat): seq<string>
  {
    if !n.Element? then []
    else if n.children != [] then [CloseLine(n, d)]
    else [SelfCloseLine(n, d)]
  }

  /** The children of `n` from index `i` on, each rendered at depth `d`. */
  function PrettyFrom(n: Node, i: nat, d: nat): seq<string>
    requires i <= |Children(n)|
    decreases n, 0, |Children(n)| - i
  {
    if i == |Children(n)| then []
    else Pretty(Children(n)[i], d) + PrettyFrom(n, i + 1, d)
  }

  /** The indent after an ascent: decremented, but never below zero. */
  function Dec(d: nat): nat
  {
    if d == 0 then 0 else d - 1
  }

  function SiblingMeasure(doc: Node, p: Path): nat
    requires ValidPath(doc, p)
  {
    if p.Root? then 0 else |Children(At(doc, p.up))| - p.index
  }

  /**
   * What the walk writes from the moment the node at `p` (current at indent
   * `d`, its children if any already written) is left, to the end.
   */
  function Exit(doc: Node, p: Path, d: nat): seq<string>
    requires ValidPath(doc, p)
    decreases Depth(p), SiblingMeasure(doc, p)
  {
    var n := At(doc, p);
    match NextSibling(doc, p)
    case Some(s) => Closing(n, d) + Head(At(doc, s), d) + Exit(doc, s, d)
    case None =>
      match Parent(doc, p)
      case Some(q) => Closing(n, d) + Exit(doc, q, Dec(d))
      case None => []
  }

  /** htmlWriter.Write: everything the walk from the node at `p` writes. */
  function Walk(doc: Node, p: Path): seq<string>
    requires ValidPath(doc, p)
  {
    Head(At(doc, p), 0) + Exit(doc, p, 0)
  }

  // ---------------------------------------------------------------------------
  // The walk and the subtree rendering

  /** Leaving child `j` of the node at `p`: the rest of its siblings, then leaving `p`. */
  lemma {:induction false} ExitChild(doc: Node, p: Path, j: nat, d: nat)
    requires ValidPath(doc, p) && j < |Children(At(doc, p))|
    ensures ValidPath(doc, Child(p, j))
    ensures Exit(doc, Child(p, j), d + 1)
            == Closing(Children(At(doc, p))[j], d + 1) + PrettyFrom(At(doc, p), j + 1, d + 1) + Exit(doc, p, d)
    decreases |Children(At(doc, p))| - j
  {
    var n := At(doc, p);
    var c := Children(n)[j];
    var q := Child(p, j);
    assert At(doc, q) == c;
    var e := Exit(doc, p, d);
    if j + 1 < |Children(n)| {
      var s := Child(p, j + 1);
      assert NextSibling(doc, q) == Some(s);
      var c' := Children(n)[j + 1];
      assert At(doc, s) == c';
      var cl, h, cl', rest := Closing(c, d + 1), Head(c', d + 1), Closing(c', d + 1), PrettyFrom(n, j + 2, d + 1);
      ExitChild(doc, p, j + 1, d);
      assert Exit(doc, q, d + 1) == cl + h + Exit(doc, s, d + 1);
      assert PrettyFrom(n, j + 1, d + 1) == h + cl' + rest;
      Regroup2(cl, h, cl', rest, e);
    } else {
      assert NextSibling(doc, q) == None;
      assert Parent(doc, q) == Some(p);
      assert PrettyFrom(n, j + 1, d + 1) == [];
      assert Exit(doc, q, d + 1) == Closing(c, d + 1) + e;
    }
  }

  /** Once every child is written, leaving an element writes its close tag at the open tag's depth. */
  lemma HeadOfParent(n: Node, d: nat)
    requires Children(n) != []
    ensures Head(n, d) == (if n.Element? then [OpenLine(n, d)] else []) + PrettyFrom(n, 0, d + 1)
    ensures n.Element? ==> Pretty(n, d) == [OpenLine(n, d)] + PrettyFrom(n, 0, d + 1) + [CloseLine(n, d)]
  {
  }

  /**
   * Started on the document root, the walk writes the root's rendering
   * except its final line: with no parent and no sibling to move to, the
   * loop stops without closing the root.
   */
  lemma WalkFromRoot(doc: Node)
    ensures Walk(doc, Root) + Closing(doc, 0) == Pretty(doc, 0)
  {
    assert Exit(doc, Root, 0) == [];
  }

  /**
   * Started on a node with a parent, the walk first writes that node's
   * complete rendering at depth 0, then moves on past it.
   */
  lemma WalkFromInner(doc: Node, p: Path)
    requires ValidPath(doc, p) && p.Child?
    ensures Pretty(At(doc, p), 0) <= Walk(doc, p)
  {
    var n := At(doc, p);
    var rest := Exit(doc, p, 0) [|Closing(n, 0)|..];
    assert Exit(doc, p, 0) == Closing(n, 0) + rest;
    ConcatAssoc(Head(n, 0), Closing(n, 0), rest);
  }

  // ---------------------------------------------------------------------------
  // The loop's state: the current position, the out flag and the indent

  /** The loop's state invariant: the cursor is a node, and has children when reached from one. */
  predicate ValidState(doc: Node, cur: Option<Path>, out: bool)
  {
    cur.Some? ==> ValidPath(doc, cur.value) && (out ==> Children(At(doc, cur.value)) != [])
  }

  /** What the walk still writes from the top of an iteration in the given state. */
  function Pending(doc: Node, cur: Option<Path>, out: bool, d: nat): seq<string>
    requires cur.Some? ==> ValidPath(doc, cur.value)
  {
    match cur
    case None => []
    case Some(p) => if out then Exit(doc, p, d) else Head(At(doc, p), d) + Exit(doc, p, d)
  }

  /** The text line an iteration writes first, when the current node is a text node. */
  function TextPart(n: Node, d: nat): seq<string>
  {
    if n.Text? then [TextLine(n.data, d)] else []
  }

  /** Moving to the first child: the open tag of an element, then the walk from that child one level deeper. */
  lemma DescendStep(doc: Node, p: Path, d: nat)
    requires ValidPath(doc, p) && Children(At(doc, p)) != []
    ensures ValidPath(doc, Child(p, 0))
    ensures Pending(doc, Some(p), false, d)
            == (if At(doc, p).Element? then [OpenLine(At(doc, p), d)] else []) + Pending(doc, Some(Child(p, 0)), false, d + 1)
  {
    var n := At(doc, p);
    var c := Children(n)[0];
    var q := Child(p, 0);
    assert At(doc, q) == c;
    var open := if n.Element? then [OpenLine(n, d)] else [];
    var h, cl, rest, e := Head(c, d + 1), Closing(c, d + 1), PrettyFrom(n, 1, d + 1), Exit(doc, p, d);
    ExitChild(doc, p, 0, d);
    HeadOfParent(n, d);
    FirstOfChildren(n, d + 1);
    PendingAt(doc, p, d);
    PendingAt(doc, q, d + 1);
    Regroup(open, h, cl, rest, e);
  }

  lemma PendingAt(doc: Node, p: Path, d: nat)
    requires ValidPath(doc, p)
    ensures Pending(doc, Some(p), false, d) == Head(At(doc, p), d) + Exit(doc, p, d)
  {
  }

  lemma FirstOfChildren(n: Node, d: nat)
    requires Children(n) != []
    ensures PrettyFrom(n, 0, d) == Head(Children(n)[0], d) + Closing(Children(n)[0], d) + PrettyFrom(n, 1, d)
  {
  }

  /**
   * Leaving a node that has no children, or whose children are written:
   * its text line if it is a text node, its closing line if it is an
   * element, then the walk from the next sibling, or from the parent one
   * level up, or nothing when there is neither.
   */
  lemma LeaveStep(doc: Node, p: Path, out: bool, d: nat)
    requires ValidPath(doc, p)
    requires out <==> Children(At(doc, p)) != []
    ensures NextSibling(doc, p).Some? ==>
              Pending(doc, Some(p), out, d)
              == TextPart(At(doc, p), d) + Closing(At(doc, p), d) + Pending(doc, NextSibling(doc, p), false, d)
    ensures NextSibling(doc, p).None? && p.Child? ==>
              Pending(doc, Some(p), out, d)
              == TextPart(At(doc, p), d) + Closing(At(doc, p), d) + Pending(doc, Some(p.up), true, Dec(d))
    ensures p.Root? ==> Pending(doc, Some(p), out, d) == TextPart(At(doc, p), d)
  {
    var n := At(doc, p);
    var t := TextPart(n, d);
    var e := Exit(doc, p, d);
    if !out {
      if n.Other? {
        assert PrettyFrom(n, 0, d + 1) == [];
      }
      assert Head(n, d) == t;
    }
    assert Pending(doc, Some(p), out, d) == t + e;
    match NextSibling(doc, p)
    case Some(s) =>
      ConcatAssoc(t, Closing(n, d), Head(At(doc, s), d) + Exit(doc, s, d));
      ConcatAssoc(Closing(n, d), Head(At(doc, s), d), Exit(doc, s, d));
    case None =>
      if p.Child? {
        assert Parent(doc, p) == Some(p.up);
        ConcatAssoc(t, Closing(n, d), Exit(doc, p.up, Dec(d)));
      }
  }

  /** The length of the walk through a subtree, counted in loop iterations. */
  ghost function Size(n: Node): nat
    decreases n, 1, 0
  {
    if Children(n) == [] then 1 else 2 + SizeFrom(n, 0)
  }

  ghost function SizeFrom(n: Node, i: nat): nat
    requires i <= |Children(n)|
    decreases n, 0, |Children(n)| - i
  {
    if i == |Children(n)| then 0 else Size(Children(n)[i]) + SizeFrom(n, i + 1)
  }

  /**
   * Iterations after the one that leaves the node at `p`: the following
   * siblings in full, then one to leave the parent, and so on up to the root.
   */
  ghost function ExitCost(doc: Node, p: Path): nat
    requires ValidPath(doc, p)
  {
    if p.Root? then 0 else SizeFrom(At(doc, p.up), p.index + 1) + 1 + ExitCost(doc, p.up)
  }

  /** The number of iterations the loop still makes; it drops by one at every iteration. */
  ghost function Steps(doc: Node, cur: Option<Path>, out: bool): nat
    requires cur.Some? ==> ValidPath(doc, cur.value)
  {
    match cur
    case None => 0
    case Some(p) => if out then 1 + ExitCost(doc, p) else Size(At(doc, p)) + ExitCost(doc, p)
  }

  /** The tag line a move writes for an element: the open tag when descending, else a close or self-closing tag. */
  function MoveLines(doc: Node, p: Path, out: bool, d: nat): seq<string>
    requires ValidPath(doc, p)
  {
    var n := At(doc, p);
    if !n.Element? then []
    else if FirstChild(doc, p).Some? && !out then [OpenLine(n, d)]
    else if NextSibling(doc, p).None? && Parent(doc, p).None? then []
    else if out then [CloseLine(n, d)]
    else [SelfCloseLine(n, d)]
  }

  /** The state after one move: into the first child, on to the next sibling, up to the parent, or done. */
  function Move(doc: Node, p: Path, out: bool, d: nat): (Option<Path>, bool, nat)
    requires ValidPath(doc, p)
  {
    if FirstChild(doc, p).Some? && !out then (FirstChild(doc, p), false, d + 1)
    else if NextSibling(doc, p).Some? then (NextSibling(doc, p), false, d)
    else if Parent(doc, p).Some? then (Parent(doc, p), true, Dec(d))
    else (None, out, d)
  }

  /**
   * One iteration writes the start of what is pending and leaves the rest
   * pending, and the loop's invariant holds again in the state it moves to.
   */
  lemma StepPending(doc: Node, p: Path, out: bool, d: nat)
    requires ValidPath(doc, p) && (out ==> Children(At(doc, p)) != [])
    ensures var m := Move(doc, p, out, d);
            && ValidState(doc, m.0, m.1)
            && Pending(doc, Some(p), out, d) == TextPart(At(doc, p), d) + MoveLines(doc, p, out, d) + Pending(doc, m.0, m.1, m.2)
  {
    var n := At(doc, p);
    if Children(n) != [] && !out {
      StepInto(doc, p, out, d);
    } else if NextSibling(doc, p).Some? {
      StepAcross(doc, p, out, d);
    } else if p.Child? {
      StepUp(doc, p, out, d);
    } else {
      LeaveStep(doc, p, out, d);
      assert Move(doc, p, out, d) == (None, out, d);
      assert MoveLines(doc, p, out, d) == [];
      assert Pending(doc, Some(p), out, d) == TextPart(n, d) + [] + [];
    }
  }

  lemma StepInto(doc: Node, p: Path, out: bool, d: nat)
    requires ValidPath(doc, p) && Children(At(doc, p)) != [] && !out
    ensures var m := Move(doc, p, out, d);
            && ValidState(doc, m.0, m.1)
            && Pending(doc, Some(p), out, d) == TextPart(At(doc, p), d) + MoveLines(doc, p, out, d) + Pending(doc, m.0, m.1, m.2)
  {
    DescendStep(doc, p, d);
    MoveInto(doc, p, d);
    var open := if At(doc, p).Element? then [OpenLine(At(doc, p), d)] else [];
    assert [] + open == open;
  }

  lemma MoveInto(doc: Node, p: Path, d: nat)
    requires ValidPath(doc, p) && Children(At(doc, p)) != []
    ensures Move(doc, p, false, d) == (Some(Child(p, 0)), false, d + 1)
    ensures MoveLines(doc, p, false, d) == if At(doc, p).Element? then [OpenLine(At(doc, p), d)] else []
    ensures TextPart(At(doc, p), d) == []
  {
  }

  lemma StepAcross(doc: Node, p: Path, out: bool, d: nat)
    requires ValidPath(doc, p) && (out <==> Children(At(doc, p)) != []) && NextSibling(doc, p).Some?
    ensures var m := Move(doc, p, out, d);
            && ValidState(doc, m.0, m.1)
            && Pending(doc, Some(p), out, d) == TextPart(At(doc, p), d) + MoveLines(doc, p, out, d) + Pending(doc, m.0, m.1, m.2)
  {
    LeaveStep(doc, p, out, d);
    assert Move(doc, p, out, d) == (NextSibling(doc, p), false, d);
    assert MoveLines(doc, p, out, d) == Closing(At(doc, p), d);
  }

  lemma StepUp(doc: Node, p: Path, out: bool, d: nat)
    requires ValidPath(doc, p) && (out <==> Children(At(doc, p)) != []) && NextSibling(doc, p).None? && p.Child?
    ensures var m := Move(doc, p, out, d);
            && ValidState(doc, m.0, m.1)
            && Pending(doc, Some(p), out, d) == TextPart(At(doc, p), d) + MoveLines(doc, p, out, d) + Pending(doc, m.0, m.1, m.2)
  {
    LeaveStep(doc, p, out, d);
    assert Move(doc, p, out, d) == (Some(p.up), true, Dec(d));
    assert MoveLines(doc, p, out, d) == Closing(At(doc, p), d);
    assert Children(At(doc, p.up)) != [];
  }

  /** Every iteration brings the loop closer to its end. */
  lemma StepSteps(doc: Node, p: Path, out: bool, d: nat)
    requires ValidPath(doc, p) && (out ==> Children(At(doc, p)) != [])
    ensures var m := Move(doc, p, out, d);
            ValidState(doc, m.0, m.1) && Steps(doc, m.0, m.1) < Steps(doc, Some(p), out)
  {
    if Children(At(doc, p)) != [] && !out {
      assert Move(doc, p, out, d) == (Some(Child(p, 0)), false, d + 1);
      IntoSteps(doc, p);
      StepsAt(doc, p);
      StepsAt(doc, Child(p, 0));
    } else {
      LeaveSteps(doc, p, out, d);
    }
  }

  lemma IntoSteps(doc: Node, p: Path)
    requires ValidPath(doc, p) && Children(At(doc, p)) != []
    ensures ValidPath(doc, Child(p, 0))
    ensures Size(At(doc, Child(p, 0))) + ExitCost(doc, Child(p, 0)) < Size(At(doc, p)) + ExitCost(doc, p)
  {
    SizeOfParent(At(doc, p));
  }

  lemma StepsAt(doc: Node, p: Path)
    requires ValidPath(doc, p)
    ensures Steps(doc, Some(p), false) == Size(At(doc, p)) + ExitCost(doc, p)
  {
  }

  lemma SizeOfParent(n: Node)
    requires Children(n) != []
    ensures Size(n) == 2 + Size(Children(n)[0]) + SizeFrom(n, 1)
  {
  }

  lemma LeaveSteps(doc: Node, p: Path, out: bool, d: nat)
    requires ValidPath(doc, p) && (out <==> Children(At(doc, p)) != [])
    ensures var m := Move(doc, p, out, d);
            ValidState(doc, m.0, m.1) && Steps(doc, m.0, m.1) < Steps(doc, Some(p), out)
  {
    assert Steps(doc, Some(p), out) == 1 + ExitCost(doc, p);
    match NextSibling(doc, p)
    case Some(s) =>
      assert Move(doc, p, out, d) == (Some(s), false, d);
    case None =>
      if p.Child? {
        assert Move(doc, p, out, d) == (Some(p.up), true, Dec(d));
        assert Children(At(doc, p.up)) != [];
      } else {
        assert Move(doc, p, out, d) == (None, out, d);
      }
  }

  // ---------------------------------------------------------------------------
  // Properties of the rendering

  /** A line written at depth `d`: that depth's indentation first, a newline last. */
  predicate IsLine(line: string, d: nat)
  {
    Indent(d) <= line && line != "" && line[|line| - 1] == '\n'
  }

  predicate IsBlock(lines: seq<string>, d: nat)
  {
    forall k :: 0 <= k < |lines| ==> IsLine(lines[k], d)
  }

  /** A deeper indentation extends a shallower one. */
  lemma IndentPrefix(d: nat)
    ensures Indent(d) <= Indent(d + 1)
  {
    assert Indent(d + 1) == Indent(d) + "  ";
  }

  lemma BlockDeeper(lines: seq<string>, d: nat)
    requires IsBlock(lines, d + 1)
    ensures IsBlock(lines, d)
  {
    IndentPrefix(d);
  }

  /** Every line of a subtree rendered at depth `d` is indented at least `d` levels. */
  lemma {:induction false} PrettyIndented(n: Node, d: nat)
    ensures IsBlock(Pretty(n, d), d)
    decreases n, 2, 0
  {
    if Children(n) != [] {
      PrettyFromIndented(n, 0, d + 1);
      BlockDeeper(PrettyFrom(n, 0, d + 1), d);
    }
    match n
    case Text(data) =>
      assert IsLine(TextLine(data, d), d);
    case Element(_, _, _, cs) =>
      if cs == [] {
        assert Pretty(n, d) == [SelfCloseLine(n, d)];
        assert IsLine(SelfCloseLine(n, d), d);
      } else {
        assert Pretty(n, d) == [OpenLine(n, d)] + PrettyFrom(n, 0, d + 1) + [CloseLine(n, d)];
        assert IsLine(OpenLine(n, d), d) && IsLine(CloseLine(n, d), d);
      }
    case Other(_, cs) =>
      assert Pretty(n, d) == PrettyFrom(n, 0, d + 1) + [];
  }

  lemma {:induction false} PrettyFromIndented(n: Node, i: nat, d: nat)
    requires i <= |Children(n)|
    ensures IsBlock(PrettyFrom(n, i, d), d)
    decreases n, 0, |Children(n)| - i
  {
    if i < |Children(n)| {
      PrettyIndented(Children(n)[i], d);
      PrettyFromIndented(n, i + 1, d);
    }
  }

  /** The text nodes of a subtree. */
  function TextCount(n: Node): nat
    decreases n, 1, 0
  {
    (if n.Text? then 1 else 0) + TextCountFrom(n, 0)
  }

  /** The elements of a subtree that have children. */
  function ParentCount(n: Node): nat
    decreases n, 1, 0
  {
    (if n.Element? && n.children != [] then 1 else 0) + ParentCountFrom(n, 0)
  }

  /** The elements of a subtree that have none. */
  function LeafCount(n: Node): nat
    decreases n, 1, 0
  {
    (if n.Element? && n.children == [] then 1 else 0) + LeafCountFrom(n, 0)
  }

  function TextCountFrom(n: Node, i: nat): nat
    requires i <= |Children(n)|
    decreases n, 0, |Children(n)| - i
  {
    if i == |Children(n)| then 0 else TextCount(Children(n)[i]) + TextCountFrom(n, i + 1)
  }

  function ParentCountFrom(n: Node, i: nat): nat
    requires i <= |Children(n)|
    decreases n, 0, |Children(n)| - i
  {
    if i == |Children(n)| then 0 else ParentCount(Children(n)[i]) + ParentCountFrom(n, i + 1)
  }

  function LeafCountFrom(n: Node, i: nat): nat
    requires i <= |Children(n)|
    decreases n, 0, |Children(n)| - i
  {
    if i == |Children(n)| then 0 else LeafCount(Children(n)[i]) + LeafCountFrom(n, i + 1)
  }

  /**
   * One line per text node, an open and a close line per element with
   * children, one self-closing line per childless element, nothing else.
   */
  lemma {:induction false} PrettyLineCount(n: Node, d: nat)
    ensures |Pretty(n, d)| == TextCount(n) + 2 * ParentCount(n) + LeafCount(n)
    decreases n, 2, 0
  {
    PrettyFromLineCount(n, 0, d + 1);
  }

  lemma {:induction false} PrettyFromLineCount(n: Node, i: nat, d: nat)
    requires i <= |Children(n)|
    ensures |PrettyFrom(n, i, d)| == TextCountFrom(n, i) + 2 * ParentCountFrom(n, i) + LeafCountFrom(n, i)
    decreases n, 0, |Children(n)| - i
  {
    if i < |Children(n)| {
      PrettyLineCount(Children(n)[i], d);
      PrettyFromLineCount(n, i + 1, d);
    }
  }

  /** The payload of a comment, doctype or document node is never written. */
  lemma OtherDataIgnored(x: string, y: string, cs: seq<Node>, d: nat)
    ensures Pretty(Other(x, cs), d) == Pretty(Other(y, cs), d)
  {
    OtherFromDataIgnored(x, y, cs, 0, d + 1);
    assert Pretty(Other(x, cs), d) == PrettyFrom(Other(x, cs), 0, d + 1) + [];
    assert Pretty(Other(y, cs), d) == PrettyFrom(Other(y, cs), 0, d + 1) + [];
  }

  lemma {:induction false} OtherFromDataIgnored(x: string, y: string, cs: seq<Node>, i: nat, d: nat)
    requires i <= |cs|
    ensures PrettyFrom(Other(x, cs), i, d) == PrettyFrom(Other(y, cs), i, d)
    decreases |cs| - i
  {
    if i < |cs| {
      OtherFromDataIgnored(x, y, cs, i + 1, d);
    }
  }
}
