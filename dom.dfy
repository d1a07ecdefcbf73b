/**
 * The read-only document tree both serialisers receive, and the pointer
 * structure (Parent, FirstChild, NextSibling) the pretty-HTML walk follows.
 *
 * A node's identity is its position: the chain of child indices that leads
 * to it from the document root. The tree itself is an immutable value, so a
 * position stands for a node pointer for the whole duration of a write.
 */
module Dom {
  import opened Wrappers

  datatype Attr = Attr(key: string, val: string)

  /**
   * The interned tag identities (DataAtom) the Markdown writer tells apart;
   * every other tag is Unlisted there.
   */
  datatype Atom =
    | H1 | H2 | H3 | H4 | H5 | H6
    | P | Div | Figure | Figcaption | Section | Ul | Ol | Li
    | B | A | Img | Image
    | Unlisted

  /**
   * An element carries its case-normalised tag name (Data) and the parser's
   * interned identity of that name (DataAtom).
   */
  datatype Node =
    | Text(data: string)
    | Element(tag: string, atom: Atom, attrs: seq<Attr>, children: seq<Node>)
    | Other(data: string, children: seq<Node>)   // document, comment, doctype, ...

  function Children(n: Node): seq<Node>
  {
    if n.Text? then [] else n.children
  }

  /** A position: the root, or child `index` of the node at position `up`. */
  datatype Path = Root | Child(up: Path, index: nat)

  /** The number of steps from the root. */
  function Depth(p: Path): nat
  {
    if p.Root? then 0 else 1 + Depth(p.up)
  }

  /** `p` leads to a node of `doc`. */
  predicate ValidPath(doc: Node, p: Path)
    decreases p, 0
  {
    p.Root? || (ValidPath(doc, p.up) && p.index < |Children(At(doc, p.up))|)
  }

  /** The node at position `p`. */
  function At(doc: Node, p: Path): Node
    requires ValidPath(doc, p)
    decreases p, 1
  {
    if p.Root? then doc else Children(At(doc, p.up))[p.index]
  }

  /** FirstChild of the node at `p`, or nil. */
  function FirstChild(doc: Node, p: Path): (r: Option<Path>)
    requires ValidPath(doc, p)
    ensures r.Some? <==> Children(At(doc, p)) != []
    ensures r.Some? ==> r.value == Child(p, 0) && ValidPath(doc, r.value)
                        && At(doc, r.value) == Children(At(doc, p))[0]
  {
    if Children(At(doc, p)) != [] then Some(Child(p, 0)) else None
  }

  /** NextSibling of the node at `p`, or nil: the root has no siblings. */
  function NextSibling(doc: Node, p: Path): (r: Option<Path>)
    requires ValidPath(doc, p)
    ensures r.Some? <==> p.Child? && p.index + 1 < |Children(At(doc, p.up))|
    ensures r.Some? ==> r.value == Child(p.up, p.index + 1) && ValidPath(doc, r.value) && Depth(r.value) == Depth(p)
                        && At(doc, r.value) == Children(At(doc, p.up))[p.index + 1]
  {
    if p.Child? && p.index + 1 < |Children(At(doc, p.up))| then Some(Child(p.up, p.index + 1)) else None
  }

  /** Parent of the node at `p`, or nil at the root. */
  function Parent(doc: Node, p: Path): (r: Option<Path>)
    requires ValidPath(doc, p)
    ensures r.Some? <==> p.Child?
    ensures r.Some? ==> r.value == p.up && ValidPath(doc, r.value) && Depth(r.value) < Depth(p)
                        && Children(At(doc, r.value))[p.index] == At(doc, p)
  {
    if p.Root? then None else Some(p.up)
  }

  /** What a serialiser receives: the title and the extracted content node inside its document. */
  datatype Article = Article(title: string, doc: Node, node: Path)
  {
    predicate Valid()
    {
      ValidPath(doc, node)
    }

    function Root(): Node
      requires Valid()
    {
      At(doc, node)
    }
  }
}
