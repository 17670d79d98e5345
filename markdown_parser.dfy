/**
 * The markdown structure builder: every line of a document becomes a
 * heading (`#`, `##`, `###`), a table row (`|...|`) or a line of text, and
 * is placed in a tree under the nearest heading that accepts it.  Runs of
 * table rows and runs of text lines are coalesced into one block each.
 *
 * The Python object graph is kept as an arena: `links` holds the parent and
 * child indices (see TreeArena) and `nodes` the payload of each slot.  The
 * cursor `_tail` of the root is always the newest node.
 */
module MarkdownParser {
  import opened Strings
  import opened TreeArena
  import opened HeadingMarkers

  datatype Node =
    | Root
    | H1(caption: string)
    | H2(caption: string)
    | H3(caption: string)
    | Table(lines: seq<string>)
    | Text(lines: seq<string>)

  predicate IsHeading(n: Node) {
    n.H1? || n.H2? || n.H3?
  }

  /** `Table` and `Text`, the two `LineContainer` kinds. */
  predicate IsContainer(n: Node) {
    n.Table? || n.Text?
  }

  /** Two containers of the same kind, the only pair that `merge` accepts. */
  predicate SameKind(a: Node, b: Node) {
    (a.Table? && b.Table?) || (a.Text? && b.Text?)
  }

  /** The nesting rank of a node kind: root, then the three heading levels, then blocks. */
  function Rank(n: Node): nat {
    match n
    case Root => 0
    case H1(_) => 1
    case H2(_) => 2
    case H3(_) => 3
    case Table(_) => 4
    case Text(_) => 4
  }

  /**
   * `Node._make_node`: the stripped line is tested against the heading
   * markers in order, then for a table row, and is text otherwise.
   */
  function MakeNode(line: string): (r: Node)
    ensures var t := Strip(line);
      && (r.H1? ==> t == "# " + r.caption)
      && (r.H2? ==> t == "## " + r.caption)
      && (r.H3? ==> t == "### " + r.caption)
      && (IsContainer(r) ==> r.lines == [t])
    ensures Addable(r)
  {
    var t := Strip(line);
    MarkersExclusive(t);
    if StartsWith(t, "# ") then
      assert t == t[..2] + t[2..];
      H1(t[2..])
    else if StartsWith(t, "## ") then
      assert t == t[..3] + t[3..];
      H2(t[3..])
    else if StartsWith(t, "### ") then
      assert t == t[..4] + t[4..];
      H3(t[4..])
    else if StartsWith(t, "|") && EndsWith(t, "|") then Table([t])
    else Text([t])
  }

  /**
   * The classification is decided by the markers alone, in the order they
   * are tested: each kind is produced exactly when its test is the first
   * one the stripped line passes.
   */
  lemma MakeNodeKind(line: string)
    ensures var t := Strip(line); var r := MakeNode(line);
      && (r.H1? <==> StartsWith(t, "# "))
      && (r.H2? <==> StartsWith(t, "## "))
      && (r.H3? <==> StartsWith(t, "### "))
      && (r.Table? <==> StartsWith(t, "|") && EndsWith(t, "|"))
      && (r.Text? <==> !StartsWith(t, "# ") && !StartsWith(t, "## ") && !StartsWith(t, "### ")
                       && !(StartsWith(t, "|") && EndsWith(t, "|")))
  {
    MarkersExclusive(Strip(line));
  }

  /**
   * `can_add` of each node class.  A heading or the root accepts exactly the
   * nodes of a deeper rank; a block accepts only a block of its own kind;
   * nothing accepts the root.
   */
  function CanAdd(p: Node, c: Node): (r: bool)
    ensures r <==> !c.Root? && (if IsContainer(p) then SameKind(p, c) else Rank(p) < Rank(c))
  {
    match p
    case Root => IsHeading(c) || IsContainer(c)
    case H1(_) => c.H2? || c.H3? || IsContainer(c)
    case H2(_) => c.H3? || IsContainer(c)
    case H3(_) => IsContainer(c)
    case Table(_) => c.Table?
    case Text(_) => c.Text?
  }

  /** A node the classifier can produce: not the root, a non-empty caption, at least one line. */
  predicate Addable(n: Node) {
    && !n.Root?
    && (IsHeading(n) ==> n.caption != [])
    && (IsContainer(n) ==> n.lines != [])
  }

  /** `LineContainer.merge`: the lines of `b` are appended to those of `a`. */
  function Merge(a: Node, b: Node): (r: Node)
    requires SameKind(a, b)
    ensures SameKind(r, a) && r.lines == a.lines + b.lines
  {
    a.(lines := a.lines + b.lines)
  }

  /** `LineContainer.get_inner_text`. */
  function InnerText(n: Node): string
    requires IsContainer(n)
  {
    JoinWith("\n", n.lines)
  }

  // ---------------------------------------------------------------------
  // The document tree

  datatype Doc = Doc(links: seq<Link>, nodes: seq<Node>)

  /** Node `i` is addable, accepted by its parent, and childless if it is a block. */
  ghost predicate NodeOk(d: Doc, i: nat)
    requires 0 < i < |d.nodes| == |d.links| && d.links[i].parent < i
  {
    && Addable(d.nodes[i])
    && CanAdd(d.nodes[d.links[i].parent], d.nodes[i])
    && (IsContainer(d.nodes[i]) ==> d.links[i].children == [])
  }

  /** No two neighbouring children of node `i` are blocks of the same kind. */
  ghost predicate Uncoalesced(d: Doc, i: nat)
    requires Linked(d.links) && |d.links| == |d.nodes| && i < |d.nodes|
  {
    var cs := d.links[i].children;
    forall j, k {:trigger cs[j], cs[k]} :: 0 <= j && j + 1 == k < |cs| ==>
      !SameKind(d.nodes[cs[j]], d.nodes[cs[k]])
  }

  /**
   * What every reachable document satisfies: creation order is pre-order
   * and the newest node's spine is rightmost, slot 0 is the only root, every node
   * is accepted by its parent, blocks have no children, and no two
   * neighbouring siblings are blocks of the same kind.
   */
  ghost predicate WellFormed(d: Doc) {
    && |d.links| == |d.nodes|
    && Shaped(d.links)
    && d.nodes[0] == Root
    && (forall i {:trigger NodeOk(d, i)} :: 0 < i < |d.nodes| ==> NodeOk(d, i))
    && (forall i {:trigger Uncoalesced(d, i)} :: 0 <= i < |d.nodes| ==> Uncoalesced(d, i))
  }

  /** The facts `WellFormed` keeps about one node. */
  lemma NodeFacts(d: Doc, i: nat)
    requires WellFormed(d) && 0 < i < |d.nodes|
    ensures d.links[i].parent < i && Addable(d.nodes[i]) && CanAdd(d.nodes[d.links[i].parent], d.nodes[i])
    ensures IsContainer(d.nodes[i]) ==> d.links[i].children == []
  {
    assert NodeOk(d, i);
  }

  /** A block has no children: the root is not a block, and every other block is a leaf. */
  lemma BlockLeaf(d: Doc, i: nat)
    requires WellFormed(d) && i < |d.nodes| && IsContainer(d.nodes[i])
    ensures d.links[i].children == []
  {
    NodeFacts(d, i);
  }

  /** The document before any line is added: the root alone. */
  function Empty(): (d: Doc)
    ensures WellFormed(d) && |d.nodes| == 1
  {
    Doc(Single(), [Root])
  }

  /**
   * The node that receives `n` when the walk up the parent links starts at
   * `c`: the first node on the way that accepts it.  The root accepts every
   * addable node, so the walk always ends.
   */
  function Acceptor(d: Doc, c: nat, n: Node): (p: nat)
    requires WellFormed(d) && c < |d.nodes| && Addable(n)
    ensures p < |d.nodes| && AncOrSelf(d.links, p, c) && CanAdd(d.nodes[p], n)
    ensures CanAdd(d.nodes[c], n) ==> p == c
    decreases c
  {
    if CanAdd(d.nodes[c], n) then c
    else
      assert c != 0;
      Acceptor(d, d.links[c].parent, n)
  }

  /** `Node.add`: the line's node is merged into the cursor's block or appended under the acceptor. */
  function Inserted(d: Doc, n: Node): (r: Doc)
    requires WellFormed(d) && Addable(n)
  {
    var p := Acceptor(d, |d.nodes| - 1, n);
    if IsContainer(d.nodes[p]) then Doc(d.links, d.nodes[p := Merge(d.nodes[p], n)])
    else Doc(AppendChild(d.links, p), d.nodes + [n])
  }

  /** The document built from `lines`, one `add` per line. */
  function Build(lines: seq<string>): (d: Doc)
    ensures WellFormed(d)
  {
    if lines == [] then Empty()
    else
      var d0 := Build(lines[..|lines| - 1]);
      InsertedWellFormed(d0, MakeNode(lines[|lines| - 1]));
      Inserted(d0, MakeNode(lines[|lines| - 1]))
  }

  // ---------------------------------------------------------------------
  // Read-only views

  /** `get_nodes`: the node indices in pre-order, which is the order the nodes were created. */
  function GetNodes(d: Doc): (r: seq<nat>)
    requires WellFormed(d)
    ensures r == Range(0, |d.nodes|)
  {
    Preorder(d.links, 0)
  }

  /** `_get_header_path`: the captions from node `i` up to, and not including, the root. */
  function HeaderCaptions(d: Doc, i: nat): (r: seq<string>)
    requires WellFormed(d) && i < |d.nodes| && !IsContainer(d.nodes[i])
    decreases i
  {
    if i == 0 then []
    else
      ParentNotBlock(d, i);
      NodeFacts(d, i);
      [d.nodes[i].caption] + HeaderCaptions(d, d.links[i].parent)
  }

  function Reverse<T>(s: seq<T>): (r: seq<T>)
    ensures |r| == |s| && forall k :: 0 <= k < |s| ==> r[k] == s[|s| - 1 - k]
  {
    if s == [] then [] else Reverse(s[1..]) + [s[0]]
  }

  /** `headers_path`: the heading captions from the top down, joined by `" => "`. */
  function HeadersPath(d: Doc, i: nat): string
    requires WellFormed(d) && i < |d.nodes| && !IsContainer(d.nodes[i])
  {
    JoinWith(" => ", Reverse(HeaderCaptions(d, i)))
  }

  /** `LineContainer.get_headers`: the header path of the block's parent. */
  function GetHeaders(d: Doc, j: nat): string
    requires WellFormed(d) && 0 < j < |d.nodes| && IsContainer(d.nodes[j])
  {
    ParentNotBlock(d, j);
    HeadersPath(d, d.links[j].parent)
  }

  /** The number of lines a node accounts for: one per heading, one per line of a block. */
  function Weight(n: Node): nat {
    if IsHeading(n) then 1 else if IsContainer(n) then |n.lines| else 0
  }

  function TotalWeight(nodes: seq<Node>): nat {
    if nodes == [] then 0 else TotalWeight(nodes[..|nodes| - 1]) + Weight(nodes[|nodes| - 1])
  }

  /**
   * One document grows into another: no node is removed, moved or
   * re-parented, child lists only grow at their end, and a node changes only
   * by a block gaining lines.
   */
  ghost predicate Extends(d: Doc, e: Doc) {
    && |d.links| <= |e.links|
    && |d.nodes| <= |e.nodes|
    && (forall i :: 0 <= i < |d.links| ==> e.links[i].parent == d.links[i].parent)
    && (forall i :: 0 <= i < |d.links| ==> d.links[i].children <= e.links[i].children)
    && (forall i :: 0 <= i < |d.nodes| ==>
          e.nodes[i] == d.nodes[i] || (SameKind(d.nodes[i], e.nodes[i]) && d.nodes[i].lines <= e.nodes[i].lines))
  }

  // ---------------------------------------------------------------------
  // Lemmas: the walk and insertion

  /** The parent of any non-root node is a heading or the root. */
  lemma ParentNotBlock(d: Doc, j: nat)
    requires WellFormed(d) && 0 < j < |d.nodes|
    ensures d.links[j].parent < j && !IsContainer(d.nodes[d.links[j].parent])
  {
    ChildListed(d.links, j);
    var q := d.links[j].parent;
    if IsContainer(d.nodes[q]) {
      BlockLeaf(d, q);
      assert false;
    }
  }

  /** A block that receives a line is always the cursor itself: blocks are never parents. */
  lemma AcceptorBlockIsLast(d: Doc, n: Node)
    requires WellFormed(d) && Addable(n)
    ensures var p := Acceptor(d, |d.nodes| - 1, n);
      IsContainer(d.nodes[p]) ==> p == |d.nodes| - 1
  {
    var last := |d.nodes| - 1;
    var p := Acceptor(d, last, n);
    if IsContainer(d.nodes[p]) {
      BlockLeaf(d, p);
      LeafOnPath(d.links, p, last);
    }
  }

  /** The acceptor is the nearest node on the walk that accepts: none below it on the way does. */
  lemma {:induction false} AcceptorNearest(d: Doc, c: nat, n: Node, y: nat)
    requires WellFormed(d) && c < |d.nodes| && Addable(n)
    requires Acceptor(d, c, n) < y <= c && AncOrSelf(d.links, y, c)
    ensures !CanAdd(d.nodes[y], n)
    decreases c
  {
    if y != c {
      assert !CanAdd(d.nodes[c], n);
      AncLe(d.links, y, d.links[c].parent);
      AcceptorNearest(d, d.links[c].parent, n, y);
    }
  }

  /** Adding a line keeps the document well formed. */
  lemma InsertedWellFormed(d: Doc, n: Node)
    requires WellFormed(d) && Addable(n)
    ensures WellFormed(Inserted(d, n))
  {
    var last := |d.nodes| - 1;
    var p := Acceptor(d, last, n);
    AcceptorBlockIsLast(d, n);
    if IsContainer(d.nodes[p]) {
      MergeWellFormed(d, p, n);
      assert Inserted(d, n) == Doc(d.links, d.nodes[p := Merge(d.nodes[p], n)]);
    } else {
      AppendWellFormed(d, p, n);
      assert Inserted(d, n) == Doc(AppendChild(d.links, p), d.nodes + [n]);
    }
  }

  /**
   * The two ways a line is added: merged into the cursor when the acceptor
   * is a block (which is then the cursor), appended under the acceptor
   * otherwise; either way the result is well formed.
   */
  lemma InsertedCases(d: Doc, n: Node, p: nat)
    requires WellFormed(d) && Addable(n) && p == Acceptor(d, |d.nodes| - 1, n)
    ensures WellFormed(Inserted(d, n))
    ensures IsContainer(d.nodes[p]) ==>
      p == |d.nodes| - 1 && Inserted(d, n) == Doc(d.links, d.nodes[p := Merge(d.nodes[p], n)])
    ensures !IsContainer(d.nodes[p]) ==> Inserted(d, n) == Doc(AppendChild(d.links, p), d.nodes + [n])
  {
    InsertedWellFormed(d, n);
    if IsContainer(d.nodes[p]) {
      AcceptorBlockIsLast(d, n);
      assert Inserted(d, n) == Doc(d.links, d.nodes[p := Merge(d.nodes[p], n)]);
    } else {
      assert Inserted(d, n) == Doc(AppendChild(d.links, p), d.nodes + [n]);
    }
  }

  /** Acceptance depends on the kinds of the two nodes only. */
  lemma CanAddKinds(p: Node, p': Node, c: Node, c': Node)
    requires p' == p || SameKind(p, p')
    requires c' == c || SameKind(c, c')
    ensures CanAdd(p', c') == CanAdd(p, c)
  {
  }

  lemma MergeWellFormed(d: Doc, p: nat, n: Node)
    requires WellFormed(d) && Addable(n) && p < |d.nodes| && IsContainer(d.nodes[p]) && CanAdd(d.nodes[p], n)
    ensures WellFormed(Doc(d.links, d.nodes[p := Merge(d.nodes[p], n)]))
  {
    var e := Doc(d.links, d.nodes[p := Merge(d.nodes[p], n)]);
    forall i | 0 < i < |e.nodes| ensures NodeOk(e, i) {
      NodeFacts(d, i);
      var q := d.links[i].parent;
      CanAddKinds(d.nodes[q], e.nodes[q], d.nodes[i], e.nodes[i]);
    }
    forall i | 0 <= i < |e.nodes| ensures Uncoalesced(e, i) {
      assert Uncoalesced(d, i);
      var cs := d.links[i].children;
      forall j, k | 0 <= j && j + 1 == k < |cs| ensures !SameKind(e.nodes[cs[j]], e.nodes[cs[k]]) {
        ChildAfter(d.links, i, j);
        ChildAfter(d.links, i, k);
        assert !SameKind(d.nodes[cs[j]], d.nodes[cs[k]]);
      }
    }
  }

  lemma AppendWellFormed(d: Doc, p: nat, n: Node)
    requires WellFormed(d) && Addable(n)
    requires p < |d.nodes| && AncOrSelf(d.links, p, |d.nodes| - 1) && CanAdd(d.nodes[p], n)
    requires (CanAdd(d.nodes[|d.nodes| - 1], n) ==> p == |d.nodes| - 1) && !IsContainer(d.nodes[p])
    ensures WellFormed(Doc(AppendChild(d.links, p), d.nodes + [n]))
  {
    AppendShaped(d.links, p);
    AppendNodesOk(d, p, n);
    AppendNoTwins(d, p, n);
  }

  lemma AppendNodesOk(d: Doc, p: nat, n: Node)
    requires WellFormed(d) && Addable(n) && p < |d.nodes| && CanAdd(d.nodes[p], n) && !IsContainer(d.nodes[p])
    ensures var e := Doc(AppendChild(d.links, p), d.nodes + [n]);
      forall i {:trigger NodeOk(e, i)} :: 0 < i < |e.nodes| ==> NodeOk(e, i)
  {
    var e := Doc(AppendChild(d.links, p), d.nodes + [n]);
    forall i | 0 < i < |e.nodes| ensures NodeOk(e, i) {
      if i < |d.nodes| {
        NodeFacts(d, i);
      }
    }
  }

  /**
   * The previous last child of the acceptor is on the cursor's spine; if it
   * were a block of the kind of `n`, it would be the cursor and would have
   * accepted `n` itself.
   */
  lemma AppendNotTwin(d: Doc, p: nat, n: Node)
    requires WellFormed(d) && Addable(n)
    requires p < |d.nodes| && AncOrSelf(d.links, p, |d.nodes| - 1) && CanAdd(d.nodes[p], n)
    requires (CanAdd(d.nodes[|d.nodes| - 1], n) ==> p == |d.nodes| - 1) && d.links[p].children != []
    ensures var cs := d.links[p].children; cs[|cs| - 1] < |d.nodes| && !SameKind(d.nodes[cs[|cs| - 1]], n)
  {
    var last := |d.nodes| - 1;
    var cs := d.links[p].children;
    LastIsLeaf(d.links);
    var c := PathChild(d.links, p, last);
    ChildListed(d.links, c);
    assert OnSpine(d.links, c);
    assert c == cs[|cs| - 1];
    if IsContainer(d.nodes[c]) {
      BlockLeaf(d, c);
      LeafOnPath(d.links, c, last);
    }
  }

  lemma AppendNoTwins(d: Doc, p: nat, n: Node)
    requires WellFormed(d) && Addable(n)
    requires p < |d.nodes| && AncOrSelf(d.links, p, |d.nodes| - 1) && CanAdd(d.nodes[p], n)
    requires CanAdd(d.nodes[|d.nodes| - 1], n) ==> p == |d.nodes| - 1
    ensures Linked(AppendChild(d.links, p))
    ensures var e := Doc(AppendChild(d.links, p), d.nodes + [n]);
      forall i {:trigger Uncoalesced(e, i)} :: 0 <= i < |e.nodes| ==> Uncoalesced(e, i)
  {
    var e := Doc(AppendChild(d.links, p), d.nodes + [n]);
    AppendLinked(d.links, p);
    var cs := d.links[p].children;
    if cs != [] {
      AppendNotTwin(d, p, n);
    }
    forall i | 0 <= i < |e.nodes| ensures Uncoalesced(e, i) {
      var es := e.links[i].children;
      if i < |d.nodes| {
        assert Uncoalesced(d, i);
        var ds := d.links[i].children;
        forall j, k | 0 <= j && j + 1 == k < |es| ensures !SameKind(e.nodes[es[j]], e.nodes[es[k]]) {
          if i == p && k == |cs| {
            assert es[j] == cs[|cs| - 1];
            assert es[k] == |d.nodes|;
          } else {
            assert es[j] == ds[j] && es[k] == ds[k];
            ChildAfter(d.links, i, j);
            ChildAfter(d.links, i, k);
            assert !SameKind(d.nodes[ds[j]], d.nodes[ds[k]]);
          }
        }
      }
    }
  }

  // ---------------------------------------------------------------------
  // Lemmas: coalescing, growth and line accounting

  /** A line is merged, leaving the node count unchanged, exactly when the cursor is a block of the line's kind. */
  lemma InsertedMerges(d: Doc, n: Node)
    requires WellFormed(d) && Addable(n)
    ensures var last := |d.nodes| - 1; var r := Inserted(d, n);
      && (|r.nodes| == |d.nodes| <==> SameKind(d.nodes[last], n))
      && (SameKind(d.nodes[last], n) ==> r.nodes == d.nodes[last := Merge(d.nodes[last], n)] && r.links == d.links)
      && (!SameKind(d.nodes[last], n) ==> r.nodes == d.nodes + [n])
  {
    var last := |d.nodes| - 1;
    var p := Acceptor(d, last, n);
    AcceptorBlockIsLast(d, n);
    if SameKind(d.nodes[last], n) {
      assert CanAdd(d.nodes[last], n);
      assert p == last;
    }
  }

  /**
   * A table interrupted by a line of text and then resumed gives two
   * tables: the text opens a block of its own after the first table, and
   * the resumed row opens a new table after the text.
   */
  lemma InterruptedTable(d: Doc, t1: Node, x: Node, t2: Node)
    requires WellFormed(d) && Addable(t1) && Addable(x) && Addable(t2)
    requires t1.Table? && x.Text? && t2.Table?
    ensures var d1 := Inserted(d, t1);
      WellFormed(d1) && d1.nodes[|d1.nodes| - 1].Table? &&
      var d2 := Inserted(d1, x);
      WellFormed(d2) && d2.nodes == d1.nodes + [x] &&
      Inserted(d2, t2).nodes == d1.nodes + [x, t2]
  {
    var d1 := Inserted(d, t1);
    InsertedMerges(d, t1);
    InsertedWellFormed(d, t1);
    var d2 := Inserted(d1, x);
    InsertedMerges(d1, x);
    InsertedWellFormed(d1, x);
    InsertedMerges(d2, t2);
  }

  /** Adding a line only grows the document. */
  lemma InsertedExtends(d: Doc, n: Node)
    requires WellFormed(d) && Addable(n)
    ensures Extends(d, Inserted(d, n))
  {
    var p := Acceptor(d, |d.nodes| - 1, n);
    if IsContainer(d.nodes[p]) {
      assert Inserted(d, n) == Doc(d.links, d.nodes[p := Merge(d.nodes[p], n)]);
    } else {
      var e := Doc(AppendChild(d.links, p), d.nodes + [n]);
      assert Inserted(d, n) == e;
      assert e.links[p].children == d.links[p].children + [|d.links|];
    }
  }

  /** Building from one more line only grows the document. */
  lemma BuildExtendsStep(xs: seq<string>, l: string)
    ensures Extends(Build(xs), Build(xs + [l]))
  {
    BuildSnoc(xs, l);
    InsertedExtends(Build(xs), MakeNode(l));
  }

  /** Building from one more line is one more `add`. */
  lemma BuildSnoc(xs: seq<string>, l: string)
    ensures Build(xs + [l]) == Inserted(Build(xs), MakeNode(l))
  {
    assert (xs + [l])[..|xs + [l]| - 1] == xs;
  }

  /** The document of the first `i + 1` lines is that of the first `i` with one more `add`. */
  lemma BuildPrefix(lines: seq<string>, i: nat)
    requires i < |lines|
    ensures Build(lines[..i + 1]) == Inserted(Build(lines[..i]), MakeNode(lines[i]))
  {
    assert lines[..i + 1] == lines[..i] + [lines[i]];
    BuildSnoc(lines[..i], lines[i]);
  }

  lemma TotalWeightUpdate(nodes: seq<Node>, i: nat, x: Node)
    requires i < |nodes|
    ensures TotalWeight(nodes[i := x]) == TotalWeight(nodes) - Weight(nodes[i]) + Weight(x)
  {
    var m := nodes[i := x];
    if i < |nodes| - 1 {
      assert m[..|m| - 1] == nodes[..|nodes| - 1][i := x];
      TotalWeightUpdate(nodes[..|nodes| - 1], i, x);
    } else {
      assert m[..|m| - 1] == nodes[..|nodes| - 1];
    }
  }

  /** Adding a node accounts for exactly its own weight, whether it is merged or appended. */
  lemma InsertedWeight(d: Doc, n: Node)
    requires WellFormed(d) && Addable(n)
    ensures TotalWeight(Inserted(d, n).nodes) == TotalWeight(d.nodes) + Weight(n)
  {
    var p := Acceptor(d, |d.nodes| - 1, n);
    if IsContainer(d.nodes[p]) {
      assert Inserted(d, n).nodes == d.nodes[p := Merge(d.nodes[p], n)];
      TotalWeightUpdate(d.nodes, p, Merge(d.nodes[p], n));
    } else {
      var e := d.nodes + [n];
      assert Inserted(d, n).nodes == e;
      assert e[..|e| - 1] == d.nodes;
    }
  }

  /** Every line is accounted for: headings plus the lines held by blocks is the number of lines added. */
  lemma {:induction false} BuildWeight(lines: seq<string>)
    ensures TotalWeight(Build(lines).nodes) == |lines|
  {
    if lines == [] {
      assert Build(lines).nodes == [Root];
      assert [Root][..0] == [];
    } else {
      var init := lines[..|lines| - 1];
      BuildWeight(init);
      InsertedWeight(Build(init), MakeNode(lines[|lines| - 1]));
    }
  }

  // ---------------------------------------------------------------------
  // Lemmas: header paths and block text

  /** A header path has one caption per level above the root, so at most as many as the node's heading level. */
  lemma {:induction false} HeaderCaptionsDepth(d: Doc, i: nat)
    requires WellFormed(d) && i < |d.nodes| && !IsContainer(d.nodes[i])
    ensures |HeaderCaptions(d, i)| == Depth(d.links, i) <= Rank(d.nodes[i])
    ensures forall k :: 0 <= k < |HeaderCaptions(d, i)| ==> HeaderCaptions(d, i)[k] != []
    decreases i
  {
    if i != 0 {
      var q := d.links[i].parent;
      ParentNotBlock(d, i);
      NodeFacts(d, i);
      HeaderCaptionsDepth(d, q);
    }
  }

  /** The header path of a heading is its parent's path followed by its own caption. */
  lemma HeadersPathStep(d: Doc, i: nat)
    requires WellFormed(d) && 0 < i < |d.nodes| && IsHeading(d.nodes[i])
    ensures var q := d.links[i].parent;
      !IsContainer(d.nodes[q]) &&
      HeadersPath(d, i) ==
        if q == 0 then d.nodes[i].caption else HeadersPath(d, q) + " => " + d.nodes[i].caption
  {
    var q := d.links[i].parent;
    ParentNotBlock(d, i);
    var above := HeaderCaptions(d, q);
    assert HeaderCaptions(d, i) == [d.nodes[i].caption] + above;
    assert Reverse([d.nodes[i].caption] + above) == Reverse(above) + [d.nodes[i].caption] by {
      assert ([d.nodes[i].caption] + above)[1..] == above;
    }
    if q == 0 {
      assert above == [];
    } else {
      HeaderCaptionsDepth(d, q);
      JoinWithSnoc(" => ", Reverse(above), d.nodes[i].caption);
    }
  }

  /** A header path is empty exactly for the root. */
  lemma HeadersPathEmpty(d: Doc, i: nat)
    requires WellFormed(d) && i < |d.nodes| && !IsContainer(d.nodes[i])
    ensures HeadersPath(d, i) == "" <==> i == 0
  {
    HeaderCaptionsDepth(d, i);
    var cs := HeaderCaptions(d, i);
    if i != 0 {
      assert cs[0] == d.nodes[i].caption;
      JoinWithNonEmpty(" => ", Reverse(cs));
    }
  }

  /** A block directly under the root has the empty header path; any other block has a non-empty one of at most three captions. */
  lemma GetHeadersEmpty(d: Doc, j: nat)
    requires WellFormed(d) && 0 < j < |d.nodes| && IsContainer(d.nodes[j])
    ensures !IsContainer(d.nodes[d.links[j].parent])
    ensures GetHeaders(d, j) == "" <==> d.links[j].parent == 0
    ensures |HeaderCaptions(d, d.links[j].parent)| <= 3
  {
    ParentNotBlock(d, j);
    HeadersPathEmpty(d, d.links[j].parent);
    HeaderCaptionsDepth(d, d.links[j].parent);
  }

  /** Merging blocks joins their texts with a newline. */
  lemma InnerTextMerge(a: Node, b: Node)
    requires SameKind(a, b) && a.lines != [] && b.lines != []
    ensures InnerText(Merge(a, b)) == InnerText(a) + "\n" + InnerText(b)
  {
    JoinWithConcat("\n", a.lines, b.lines);
  }

  /** Splitting a block's text at newlines gives its lines back, when no line holds a newline. */
  lemma InnerTextSplit(n: Node)
    requires IsContainer(n) && n.lines != []
    requires forall k :: 0 <= k < |n.lines| ==> '\n' !in n.lines[k]
    ensures Split(InnerText(n), '\n') == n.lines
  {
    SplitJoinWith(n.lines, '\n');
  }

  // ---------------------------------------------------------------------
  // The mutable builder

  /** The walk of `_add_node` from the cursor `c` up through the parents to the node that takes `n`. */
  method Climb(d: Doc, c: nat, n: Node) returns (p: nat)
    requires WellFormed(d) && c < |d.nodes| && Addable(n)
    ensures p == Acceptor(d, c, n)
  {
    p := c;
    while !CanAdd(d.nodes[p], n)
      invariant p < |d.nodes| && Acceptor(d, p, n) == Acceptor(d, c, n)
      decreases p
    {
      assert p != 0;
      ParentNotBlock(d, p);
      p := d.links[p].parent;
    }
  }

  /** The root `Node` with its cursor `_tail`, holding the whole document. */
  class MarkdownTree {
    var links: seq<Link>
    var nodes: seq<Node>
    var tail: nat

    function Snapshot(): Doc
      reads this
    {
      Doc(links, nodes)
    }

    /** The document is well formed and the cursor is the newest node. */
    ghost predicate Valid()
      reads this
    {
      WellFormed(Snapshot()) && tail == |nodes| - 1
    }

    constructor()
      ensures Valid() && Snapshot() == Empty()
    {
      links := Single();
      nodes := [Root];
      tail := 0;
    }

    /**
     * `Node.add`: classify the line, walk the cursor up until a node accepts
     * it, then merge it into that block or append it there as the new cursor.
     */
    method Add(line: string)
      requires Valid()
      modifies this
      ensures Valid() && Snapshot() == Inserted(old(Snapshot()), MakeNode(line))
    {
      var n := MakeNode(line);
      var d := Snapshot();
      var p := Climb(d, tail, n);
      InsertedCases(d, n, p);
      ghost var e := Inserted(d, n);
      if IsContainer(d.nodes[p]) {
        nodes := d.nodes[p := Merge(d.nodes[p], n)];
        tail := p;
      } else {
        links := AppendChild(d.links, p);
        nodes := d.nodes + [n];
        tail := |d.nodes|;
      }
      assert Snapshot() == e;
    }
  }

  /** The loop of `iter_markdown` that feeds every line to the root's `add`. */
  method AddAll(lines: seq<string>) returns (root: MarkdownTree)
    ensures fresh(root) && root.Valid() && root.Snapshot() == Build(lines)
  {
    root := new MarkdownTree();
    for i := 0 to |lines|
      invariant fresh(root) && root.Valid() && root.Snapshot() == Build(lines[..i])
    {
      BuildPrefix(lines, i);
      root.Add(lines[i]);
    }
    assert lines[..|lines|] == lines;
  }

  /**
   * The filter of `iter_markdown` over `get_nodes`: the blocks of the
   * document, each exactly once, in pre-order.  A block is given as its
   * index in the document.
   */
  method Blocks(doc: Doc) returns (blocks: seq<nat>)
    requires WellFormed(doc)
    ensures Increasing(blocks)
    ensures forall j :: j in blocks <==> 0 <= j < |doc.nodes| && IsContainer(doc.nodes[j])
  {
    var order := GetNodes(doc);
    blocks := [];
    for k := 0 to |order|
      invariant Increasing(blocks)
      invariant forall m :: 0 <= m < |blocks| ==> blocks[m] < k
      invariant forall j :: j in blocks <==> 0 <= j < k && IsContainer(doc.nodes[j])
    {
      if IsContainer(doc.nodes[order[k]]) {
        blocks := blocks + [order[k]];
      }
    }
  }

  /** `iter_markdown` over the lines of a file: the document they build and its blocks in pre-order. */
  method IterMarkdown(lines: seq<string>) returns (doc: Doc, blocks: seq<nat>)
    ensures doc == Build(lines)
    ensures Increasing(blocks)
    ensures forall j :: j in blocks <==> 0 <= j < |doc.nodes| && IsContainer(doc.nodes[j])
  {
    var root := AddAll(lines);
    doc := root.Snapshot();
    blocks := Blocks(doc);
  }
}
