/**
 * The earlier, headings-only markdown builder: every line must be a `#`,
 * `##` or `###` heading, and is placed under the nearest open heading of a
 * lower level.  The tree can be dumped as one line per node, indented by
 * depth.
 *
 * As in MarkdownParser, the object graph is an arena: `links` holds the
 * parent and child indices and `nodes` the heading of each slot, slot 0
 * being the root whose cursor `_tail` is always the newest node.
 */
module HeadingParser {
  import opened Maybe
  import opened Strings
  import opened TreeArena
  import opened HeadingMarkers

  /** The root `Node` and the three heading classes, each with its caption. */
  datatype Heading =
    | Root(caption: string)
    | H1(caption: string)
    | H2(caption: string)
    | H3(caption: string)

  /** The heading level: 0 for the root. */
  function Level(h: Heading): nat {
    match h
    case Root(_) => 0
    case H1(_) => 1
    case H2(_) => 2
    case H3(_) => 3
  }

  /** A heading the factory can produce: not a root, with a non-empty caption. */
  predicate Addable(h: Heading) {
    !h.Root? && h.caption != []
  }

  /**
   * `node_factory`: the stripped line is tested against `"# "`, `"## "` and
   * `"### "` in order and the caption is what follows the marker; any other
   * line fails its assertion, which is `None` here.
   */
  function NodeFactory(line: string): (r: Option<Heading>)
    ensures r.Some? ==> Addable(r.value)
  {
    var t := Strip(line);
    MarkersExclusive(t);
    if StartsWith(t, "# ") then
      assert t == t[..2] + t[2..];
      Some(H1(t[2..]))
    else if StartsWith(t, "## ") then
      assert t == t[..3] + t[3..];
      Some(H2(t[3..]))
    else if StartsWith(t, "### ") then
      assert t == t[..4] + t[4..];
      Some(H3(t[4..]))
    else None
  }

  /**
   * Each outcome of the factory happens exactly when its marker is the first
   * that the stripped line starts with, and the caption is the rest of the
   * stripped line.
   */
  lemma NodeFactoryKind(line: string)
    ensures var t := Strip(line); var r := NodeFactory(line);
      && (r.Some? && r.value.H1? <==> StartsWith(t, "# "))
      && (r.Some? && r.value.H2? <==> StartsWith(t, "## "))
      && (r.Some? && r.value.H3? <==> StartsWith(t, "### "))
      && (r.None? <==> !StartsWith(t, "# ") && !StartsWith(t, "## ") && !StartsWith(t, "### "))
      && (r.Some? && r.value.H1? ==> t == "# " + r.value.caption)
      && (r.Some? && r.value.H2? ==> t == "## " + r.value.caption)
      && (r.Some? && r.value.H3? ==> t == "### " + r.value.caption)
  {
    MarkersExclusive(Strip(line));
  }

  /**
   * `can_add` of each class: the root accepts any heading, H1 accepts H2 and
   * H3, H2 accepts H3, H3 accepts nothing; that is, exactly the non-root
   * nodes of a greater level.
   */
  function CanAdd(p: Heading, c: Heading): (r: bool)
    ensures r <==> !c.Root? && Level(p) < Level(c)
  {
    match p
    case Root(_) => c.H1? || c.H2? || c.H3?
    case H1(_) => c.H2? || c.H3?
    case H2(_) => c.H3?
    case H3(_) => false
  }

  // ---------------------------------------------------------------------
  // The heading tree

  datatype Doc = Doc(links: seq<Link>, nodes: seq<Heading>)

  /** Node `i` is an addable heading of a greater level than its parent. */
  ghost predicate NodeOk(d: Doc, i: nat)
    requires 0 < i < |d.nodes| == |d.links| && d.links[i].parent < i
  {
    Addable(d.nodes[i]) && Level(d.nodes[d.links[i].parent]) < Level(d.nodes[i])
  }

  /**
   * What every reachable tree satisfies: creation order is pre-order and the
   * newest node's spine is rightmost, slot 0 is the root with a non-empty
   * caption, and every other node is a heading deeper than its parent.
   */
  ghost predicate WellFormed(d: Doc) {
    && |d.links| == |d.nodes|
    && Shaped(d.links)
    && d.nodes[0].Root? && d.nodes[0].caption != []
    && (forall i {:trigger NodeOk(d, i)} :: 0 < i < |d.nodes| ==> NodeOk(d, i))
  }

  lemma NodeFacts(d: Doc, i: nat)
    requires WellFormed(d) && 0 < i < |d.nodes|
    ensures d.links[i].parent < i && Addable(d.nodes[i])
    ensures Level(d.nodes[d.links[i].parent]) < Level(d.nodes[i])
  {
    assert NodeOk(d, i);
  }

  /** `Node(caption)`: a root alone; an empty caption fails the constructor's assertion. */
  function NewDoc(caption: string): (r: Option<Doc>)
    ensures r.None? <==> caption == ""
    ensures r.Some? ==> WellFormed(r.value) && r.value.nodes == [Root(caption)]
  {
    if caption == "" then None else Some(Doc(Single(), [Root(caption)]))
  }

  /**
   * The node that receives `n` when the walk up the parent links starts at
   * `c`: the first node on the way that accepts it.  The root accepts every
   * heading, so the walk always ends.
   */
  function Acceptor(d: Doc, c: nat, n: Heading): (p: nat)
    requires WellFormed(d) && c < |d.nodes| && Addable(n)
    ensures p < |d.nodes| && AncOrSelf(d.links, p, c) && CanAdd(d.nodes[p], n)
    ensures CanAdd(d.nodes[c], n) ==> p == c
    decreases c
  {
    if CanAdd(d.nodes[c], n) then c
    else
      assert c != 0;
      Acceptor(d, d.links[c].parent, n)
  }

  /** `_add_node`: the heading becomes the last child of the acceptor. */
  function Inserted(d: Doc, n: Heading): (r: Doc)
    requires WellFormed(d) && Addable(n)
  {
    Doc(AppendChild(d.links, Acceptor(d, |d.nodes| - 1, n)), d.nodes + [n])
  }

  /** `Node.add`: `None` when the line is not a heading, the tree being left as it was. */
  function Added(d: Doc, line: string): (r: Option<Doc>)
    requires WellFormed(d)
    ensures r.None? <==> NodeFactory(line).None?
    ensures r.Some? ==> WellFormed(r.value) && |r.value.nodes| == |d.nodes| + 1
  {
    match NodeFactory(line)
    case None => None
    case Some(h) =>
      InsertedWellFormed(d, h);
      Some(Inserted(d, h))
  }

  /** One `add` per line, stopping at the first line that is not a heading. */
  function Build(d: Doc, lines: seq<string>): (r: Option<Doc>)
    requires WellFormed(d)
    ensures r.Some? ==> WellFormed(r.value) && |r.value.nodes| == |d.nodes| + |lines|
    decreases |lines|
  {
    if lines == [] then Some(d)
    else
      match Added(d, lines[0])
      case None => None
      case Some(e) => Build(e, lines[1..])
  }

  /** Every line is a heading line. */
  ghost predicate AllHeadings(lines: seq<string>) {
    forall k :: 0 <= k < |lines| ==> NodeFactory(lines[k]).Some?
  }

  lemma AllHeadingsCons(lines: seq<string>)
    requires lines != []
    ensures AllHeadings(lines) <==> NodeFactory(lines[0]).Some? && AllHeadings(lines[1..])
  {
    var rest := lines[1..];
    assert forall k :: 1 <= k < |lines| ==> lines[k] == rest[k - 1];
    assert forall k :: 0 <= k < |rest| ==> rest[k] == lines[k + 1];
  }

  /** The build succeeds exactly when every line is a heading. */
  lemma {:induction false} BuildSome(d: Doc, lines: seq<string>)
    requires WellFormed(d)
    ensures Build(d, lines).Some? <==> AllHeadings(lines)
    decreases |lines|
  {
    if lines != [] {
      AllHeadingsCons(lines);
      match Added(d, lines[0])
      case None =>
      case Some(e) =>
        BuildSome(e, lines[1..]);
    }
  }

  // ---------------------------------------------------------------------
  // The textual dump

  /** `to_lines(depth)`: the node's caption indented by `depth`, then its children's lines one level deeper. */
  function ToLines(d: Doc, i: nat, depth: nat): seq<string>
    requires Linked(d.links) && |d.nodes| == |d.links| && i < |d.links|
    decreases |d.links| - i, |d.links[i].children| + 1
  {
    [Repeat("---- ", depth) + d.nodes[i].caption] + ChildLines(d, i, d.links[i].children, depth)
  }

  /** The lines of the children `cs` of node `i`, one level deeper than `depth`. */
  function ChildLines(d: Doc, i: nat, cs: seq<nat>, depth: nat): seq<string>
    requires Linked(d.links) && |d.nodes| == |d.links| && i < |d.links|
    requires forall k :: 0 <= k < |cs| ==> i < cs[k] < |d.links|
    decreases |d.links| - i, |cs|
  {
    if cs == [] then [] else ToLines(d, cs[0], depth + 1) + ChildLines(d, i, cs[1..], depth)
  }

  /** `to_str`: the dump of the whole tree, one line per node. */
  function ToStr(d: Doc): string
    requires Linked(d.links) && |d.nodes| == |d.links|
  {
    JoinWith("\n", ToLines(d, 0, 0))
  }

  /** The dump line of node `j`: its caption after one `"---- "` per level of depth. */
  function Line(d: Doc, j: nat): string
    requires j < |d.links| == |d.nodes|
  {
    Repeat("---- ", Depth(d.links, j)) + d.nodes[j].caption
  }

  /** The dump lines of the nodes `js`, in that order. */
  function Render(d: Doc, js: seq<nat>): (r: seq<string>)
    requires |d.links| == |d.nodes| && forall k :: 0 <= k < |js| ==> js[k] < |d.links|
    ensures |r| == |js| && forall k :: 0 <= k < |js| ==> r[k] == Line(d, js[k])
  {
    if js == [] then [] else [Line(d, js[0])] + Render(d, js[1..])
  }

  // ---------------------------------------------------------------------
  // Lemmas: insertion

  /** Adding a heading keeps the tree well formed. */
  lemma InsertedWellFormed(d: Doc, n: Heading)
    requires WellFormed(d) && Addable(n)
    ensures WellFormed(Inserted(d, n))
  {
    var p := Acceptor(d, |d.nodes| - 1, n);
    var e := Doc(AppendChild(d.links, p), d.nodes + [n]);
    assert Inserted(d, n) == e;
    AppendShaped(d.links, p);
    forall i | 0 < i < |e.nodes| ensures NodeOk(e, i) {
      if i < |d.nodes| {
        NodeFacts(d, i);
      }
    }
  }

  /**
   * Where a heading goes: it is appended as the last child of the node that
   * the walk from the cursor reaches first with a lower level, and nothing
   * else in the tree changes.
   */
  lemma InsertedPlacement(d: Doc, n: Heading)
    requires WellFormed(d) && Addable(n)
    ensures var last := |d.nodes| - 1; var e := Inserted(d, n); var p := e.links[|d.nodes|].parent;
      && e.nodes == d.nodes + [n]
      && |e.links| == |d.links| + 1 && e.links[|d.nodes|].children == []
      && p < |d.nodes| && AncOrSelf(d.links, p, last) && Level(d.nodes[p]) < Level(n)
      && e.links[p].children == d.links[p].children + [|d.nodes|]
      && (forall i :: 0 <= i < |d.nodes| ==> e.links[i].parent == d.links[i].parent)
      && (forall i :: 0 <= i < |d.nodes| && i != p ==> e.links[i].children == d.links[i].children)
  {
  }

  /** No node strictly between the acceptor and the start of the walk accepts the heading. */
  lemma {:induction false} AcceptorNearest(d: Doc, c: nat, n: Heading, y: nat)
    requires WellFormed(d) && c < |d.nodes| && Addable(n)
    requires Acceptor(d, c, n) < y <= c && AncOrSelf(d.links, y, c)
    ensures Level(d.nodes[y]) >= Level(n)
    decreases c
  {
    if y != c {
      assert !CanAdd(d.nodes[c], n);
      AncLe(d.links, y, d.links[c].parent);
      AcceptorNearest(d, d.links[c].parent, n, y);
    }
  }

  /** A heading one level deeper than the cursor becomes the cursor's child. */
  lemma PlacedUnderCursor(d: Doc, n: Heading)
    requires WellFormed(d) && Addable(n) && Level(d.nodes[|d.nodes| - 1]) < Level(n)
    ensures Inserted(d, n).links[|d.nodes|].parent == |d.nodes| - 1
  {
  }

  /** A heading of the cursor's own level becomes the cursor's next sibling. */
  lemma PlacedBesideCursor(d: Doc, n: Heading)
    requires WellFormed(d) && Addable(n)
    requires |d.nodes| > 1 && Level(d.nodes[|d.nodes| - 1]) == Level(n)
    ensures Inserted(d, n).links[|d.nodes|].parent == d.links[|d.nodes| - 1].parent
  {
    var last := |d.nodes| - 1;
    NodeFacts(d, last);
    assert Acceptor(d, last, n) == Acceptor(d, d.links[last].parent, n);
  }

  /** A `#` heading always becomes a child of the root. */
  lemma {:induction false} H1UnderRoot(d: Doc, c: nat, caption: string)
    requires WellFormed(d) && c < |d.nodes| && caption != []
    ensures Acceptor(d, c, H1(caption)) == 0
    decreases c
  {
    if c != 0 {
      NodeFacts(d, c);
      H1UnderRoot(d, d.links[c].parent, caption);
    }
  }

  /** A line that strips to `"# "` and a caption is an H1 with that caption. */
  lemma NodeFactoryH1(line: string, caption: string)
    requires Strip(line) == "# " + caption
    ensures NodeFactory(line) == Some(H1(caption))
  {
    var t := Strip(line);
    assert t[..2] == "# ";
    assert t[2..] == caption;
  }

  /** A `#` heading is appended as the newest child of the root. */
  lemma InsertedH1(d: Doc, caption: string)
    requires WellFormed(d) && caption != []
    ensures Inserted(d, H1(caption)) == Doc(AppendChild(d.links, 0), d.nodes + [H1(caption)])
  {
    H1UnderRoot(d, |d.nodes| - 1, caption);
  }

  /** Two `#` headings in a row become the two newest children of the root. */
  lemma TwoH1Children(d: Doc, a: string, b: string)
    requires WellFormed(d) && a != [] && b != []
    ensures WellFormed(Inserted(d, H1(a)))
    ensures var e := Inserted(Inserted(d, H1(a)), H1(b));
      && e.links[0].children == d.links[0].children + [|d.nodes|, |d.nodes| + 1]
      && e.nodes == d.nodes + [H1(a), H1(b)]
  {
    InsertedH1(d, a);
    InsertedWellFormed(d, H1(a));
    InsertedH1(Inserted(d, H1(a)), b);
  }

  /**
   * Under a fresh root, two `#` lines become the root's two children, in
   * order, and the dump is the root's caption and then both captions one
   * level deep.
   */
  lemma TwoH1(root: string, l1: string, a: string, l2: string, b: string)
    requires root != [] && a != [] && b != []
    requires Strip(l1) == "# " + a && Strip(l2) == "# " + b
    ensures var r := Build(NewDoc(root).value, [l1, l2]);
      && r.Some?
      && r.value.links[0].children == [1, 2]
      && ToStr(r.value) == root + "\n---- " + a + "\n---- " + b
  {
    NodeFactoryH1(l1, a);
    NodeFactoryH1(l2, b);
    var d0 := NewDoc(root).value;
    assert d0.links[0].children == [];
    TwoH1Children(d0, a, b);
    var d1 := Inserted(d0, H1(a));
    var d2 := Inserted(d1, H1(b));
    assert Added(d0, l1) == Some(d1);
    assert Added(d1, l2) == Some(d2);
    assert [l1, l2][1..] == [l2];
    assert Build(d2, []) == Some(d2);
    assert Build(d1, [l2]) == Some(d2);
    assert Build(d0, [l1, l2]) == Some(d2);
    TwoH1Dump(d2, root, a, b);
  }

  lemma TwoH1Dump(d: Doc, root: string, a: string, b: string)
    requires WellFormed(d) && d.nodes == [Root(root), H1(a), H1(b)]
    ensures ToStr(d) == root + "\n---- " + a + "\n---- " + b
  {
    ToLinesRoot(d);
    var ls := ToLines(d, 0, 0);
    NodeFacts(d, 1);
    NodeFacts(d, 2);
    assert d.links[1].parent == 0 && d.links[2].parent == 0;
    assert Depth(d.links, 1) == 1 && Depth(d.links, 2) == 1;
    assert Repeat("---- ", 1) == "---- ";
    assert Line(d, 0) == root;
    assert Line(d, 1) == "---- " + a && Line(d, 2) == "---- " + b;
    assert ls[0] == root && ls[1] == "---- " + a && ls[2] == "---- " + b;
    assert ls == [root, "---- " + a, "---- " + b];
    assert ls[1..][1..] == ["---- " + b];
    assert JoinWith("\n", ls[1..]) == "---- " + a + "\n" + "---- " + b;
  }

  // ---------------------------------------------------------------------
  // Lemmas: the dump

  lemma RenderConcat(d: Doc, xs: seq<nat>, ys: seq<nat>)
    requires |d.links| == |d.nodes|
    requires forall k :: 0 <= k < |xs| ==> xs[k] < |d.links|
    requires forall k :: 0 <= k < |ys| ==> ys[k] < |d.links|
    ensures Render(d, xs + ys) == Render(d, xs) + Render(d, ys)
  {
  }

  /** The nodes of a subtree lie at or after its root. */
  lemma {:induction false} PreorderBounds(links: seq<Link>, i: nat)
    requires Linked(links) && i < |links|
    ensures forall k :: 0 <= k < |Preorder(links, i)| ==> i <= Preorder(links, i)[k] < |links|
    decreases |links| - i, |links[i].children| + 1
  {
    PreorderOfBounds(links, i, links[i].children);
  }

  lemma {:induction false} PreorderOfBounds(links: seq<Link>, i: nat, cs: seq<nat>)
    requires Linked(links) && i < |links|
    requires forall k :: 0 <= k < |cs| ==> i < cs[k] < |links|
    ensures forall k :: 0 <= k < |PreorderOf(links, i, cs)| ==> i < PreorderOf(links, i, cs)[k] < |links|
    decreases |links| - i, |cs|
  {
    if cs != [] {
      PreorderBounds(links, cs[0]);
      PreorderOfBounds(links, i, cs[1..]);
    }
  }

  /** Dumping a subtree at its own depth gives the dump lines of its nodes in pre-order. */
  lemma {:induction false} ToLinesPreorder(d: Doc, i: nat)
    requires Linked(d.links) && |d.nodes| == |d.links| && i < |d.links|
    ensures forall k :: 0 <= k < |Preorder(d.links, i)| ==> Preorder(d.links, i)[k] < |d.links|
    ensures ToLines(d, i, Depth(d.links, i)) == Render(d, Preorder(d.links, i))
    decreases |d.links| - i, |d.links[i].children| + 1
  {
    PreorderBounds(d.links, i);
    var cs := d.links[i].children;
    ChildLinesPreorder(d, i, cs);
    PreorderOfBounds(d.links, i, cs);
    RenderConcat(d, [i], PreorderOf(d.links, i, cs));
  }

  lemma {:induction false} ChildLinesPreorder(d: Doc, i: nat, cs: seq<nat>)
    requires Linked(d.links) && |d.nodes| == |d.links| && i < |d.links|
    requires forall k :: 0 <= k < |cs| ==> i < cs[k] < |d.links| && d.links[cs[k]].parent == i
    ensures forall k :: 0 <= k < |PreorderOf(d.links, i, cs)| ==> PreorderOf(d.links, i, cs)[k] < |d.links|
    ensures ChildLines(d, i, cs, Depth(d.links, i)) == Render(d, PreorderOf(d.links, i, cs))
    decreases |d.links| - i, |cs|
  {
    PreorderOfBounds(d.links, i, cs);
    if cs != [] {
      var c := cs[0];
      assert Depth(d.links, c) == Depth(d.links, i) + 1;
      ToLinesPreorder(d, c);
      ChildLinesPreorder(d, i, cs[1..]);
      PreorderBounds(d.links, c);
      PreorderOfBounds(d.links, i, cs[1..]);
      RenderConcat(d, Preorder(d.links, c), PreorderOf(d.links, i, cs[1..]));
    }
  }

  /**
   * `to_lines()` on the root: one line per node in creation order, node `j`
   * indented by one `"---- "` per level of its depth.
   */
  lemma ToLinesRoot(d: Doc)
    requires WellFormed(d)
    ensures |ToLines(d, 0, 0)| == |d.nodes|
    ensures forall j :: 0 <= j < |d.nodes| ==> ToLines(d, 0, 0)[j] == Line(d, j)
  {
    ToLinesPreorder(d, 0);
  }

  /** A node's depth is at most its level, so a dump line is indented at most three times. */
  lemma {:induction false} DepthLevel(d: Doc, j: nat)
    requires WellFormed(d) && j < |d.nodes|
    ensures Depth(d.links, j) <= Level(d.nodes[j]) <= 3
    decreases j
  {
    if j != 0 {
      NodeFacts(d, j);
      DepthLevel(d, d.links[j].parent);
    }
  }

  /** A lone root dumps as its caption. */
  lemma ToStrSingle(caption: string)
    requires caption != []
    ensures ToStr(NewDoc(caption).value) == caption
  {
    var d := NewDoc(caption).value;
    assert d == Doc(Single(), [Root(caption)]);
    assert d.links[0].children == [];
    assert ToLines(d, 0, 0) == [Repeat("---- ", 0) + caption];
  }

  /** The dump has one line for the root and one per heading added. */
  lemma BuildLines(caption: string, lines: seq<string>)
    requires caption != []
    requires Build(NewDoc(caption).value, lines).Some?
    ensures |ToLines(Build(NewDoc(caption).value, lines).value, 0, 0)| == 1 + |lines|
  {
    ToLinesRoot(Build(NewDoc(caption).value, lines).value);
  }

  // ---------------------------------------------------------------------
  // The mutable builder

  /** The walk of `_add_node` from the cursor `c` up through the parents to the heading that takes `n`. */
  method Climb(d: Doc, c: nat, n: Heading) returns (p: nat)
    requires WellFormed(d) && c < |d.nodes| && Addable(n)
    ensures p == Acceptor(d, c, n)
  {
    p := c;
    while !CanAdd(d.nodes[p], n)
      invariant p < |d.nodes| && Acceptor(d, p, n) == Acceptor(d, c, n)
      decreases p
    {
      assert p != 0;
      NodeFacts(d, p);
      p := d.links[p].parent;
    }
  }

  /** The root `Node` with its cursor `_tail`, holding the whole tree. */
  class HeadingTree {
    var links: seq<Link>
    var nodes: seq<Heading>
    var tail: nat

    function Snapshot(): Doc
      reads this
    {
      Doc(links, nodes)
    }

    /** The tree is well formed and the cursor is the newest node. */
    ghost predicate Valid()
      reads this
    {
      WellFormed(Snapshot()) && tail == |nodes| - 1
    }

    constructor(caption: string)
      requires caption != []
      ensures Valid() && Some(Snapshot()) == NewDoc(caption)
    {
      links := Single();
      nodes := [Root(caption)];
      tail := 0;
    }

    /** `Node(caption)`, failing on an empty caption. */
    static method New(caption: string) returns (r: Option<HeadingTree>)
      ensures r.None? <==> NewDoc(caption).None?
      ensures r.Some? ==> fresh(r.value) && r.value.Valid() && Some(r.value.Snapshot()) == NewDoc(caption)
    {
      if caption == [] {
        r := None;
      } else {
        var t := new HeadingTree(caption);
        r := Some(t);
      }
    }

    /**
     * `Node.add`: classify the line, walk the cursor up until a node accepts
     * the heading, append it there and make it the cursor.  A line that is
     * not a heading is refused and the tree is left as it was.
     */
    method Add(line: string) returns (ok: bool)
      requires Valid()
      modifies this
      ensures Valid()
      ensures ok <==> NodeFactory(line).Some?
      ensures Added(old(Snapshot()), line) == if ok then Some(Snapshot()) else None
      ensures !ok ==> Snapshot() == old(Snapshot())
    {
      var h := NodeFactory(line);
      if h.None? {
        return false;
      }
      var n := h.value;
      var d := Snapshot();
      var p := Climb(d, tail, n);
      ghost var e := Inserted(d, n);
      assert WellFormed(e) by { InsertedWellFormed(d, n); }
      assert Added(d, line) == Some(e);
      links := AppendChild(d.links, p);
      nodes := d.nodes + [n];
      tail := |d.nodes|;
      assert Snapshot() == e;
      ok := true;
    }
  }
}
