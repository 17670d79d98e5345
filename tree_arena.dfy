/**
 * An ordered tree kept as an arena: slot `i` records the index of its parent
 * and the ordered indices of its children, and slot 0 is the root.  Both
 * markdown builders keep their Python object graph (`_parent`, `_children`)
 * in this form; the payload of each node lives in a parallel sequence.
 *
 * The builders only ever attach a new node under a node on the right spine
 * (the chain of ancestors of the newest node), which is what keeps the
 * creation order of the nodes equal to their pre-order.
 */
module TreeArena {

  datatype Link = Link(parent: nat, children: seq<nat>)

  function Range(lo: nat, hi: nat): (r: seq<nat>)
    requires lo <= hi
    ensures |r| == hi - lo
    ensures forall k :: 0 <= k < |r| ==> r[k] == lo + k
    decreases hi - lo
  {
    if lo == hi then [] else [lo] + Range(lo + 1, hi)
  }

  predicate Increasing(s: seq<nat>) {
    forall j, k :: 0 <= j < k < |s| ==> s[j] < s[k]
  }

  /**
   * The parent links and the child lists agree: every non-root node has an
   * older parent that lists it, and every child list is in creation order.
   */
  ghost predicate Linked(links: seq<Link>) {
    && |links| >= 1
    && links[0].parent == 0
    && (forall i {:trigger links[i].parent} :: 0 < i < |links| ==> links[i].parent < i)
    && (forall i {:trigger ParentOf(links, i)} :: 0 < i < |links| ==> i in links[ParentOf(links, i)].children)
    && (forall i {:trigger links[i].children} :: 0 <= i < |links| ==> Increasing(links[i].children))
    && (forall i, k {:trigger links[i].children[k]} :: 0 <= i < |links| && 0 <= k < |links[i].children| ==>
          i < links[i].children[k] < |links| && links[links[i].children[k]].parent == i)
  }

  /** The parent index of `i`; membership facts about child lists are keyed on it. */
  function ParentOf(links: seq<Link>, i: nat): nat
    requires i < |links|
  {
    links[i].parent
  }

  /** `x` is `y` or one of the nodes met by walking up the parent links from `y`. */
  predicate AncOrSelf(links: seq<Link>, x: nat, y: nat)
    requires y < |links|
    decreases y
  {
    x == y || (0 < y && links[y].parent < y && AncOrSelf(links, x, links[y].parent))
  }

  /** `x` is the newest node or one of its ancestors. */
  predicate OnSpine(links: seq<Link>, x: nat) {
    |links| > 0 && AncOrSelf(links, x, |links| - 1)
  }

  /** On the right spine, each node is the last child of its parent. */
  ghost predicate SpineLast(links: seq<Link>)
    requires Linked(links)
  {
    forall x {:trigger OnSpine(links, x)} :: 0 < x < |links| && OnSpine(links, x) ==>
      var siblings := links[links[x].parent].children;
      siblings != [] && siblings[|siblings| - 1] == x
  }

  /** The node indices of the subtree at `i`, the node first, children left to right. */
  function Preorder(links: seq<Link>, i: nat): (r: seq<nat>)
    requires Linked(links) && i < |links|
    decreases |links| - i, |links[i].children| + 1
  {
    [i] + PreorderOf(links, i, links[i].children)
  }

  function PreorderOf(links: seq<Link>, i: nat, cs: seq<nat>): (r: seq<nat>)
    requires Linked(links) && i < |links|
    requires forall k :: 0 <= k < |cs| ==> i < cs[k] < |links|
    decreases |links| - i, |cs|
  {
    if cs == [] then [] else Preorder(links, cs[0]) + PreorderOf(links, i, cs[1..])
  }

  /** The shape every builder keeps: linked, right spine last, pre-order is creation order. */
  ghost predicate Shaped(links: seq<Link>) {
    Linked(links) && SpineLast(links) && Preorder(links, 0) == Range(0, |links|)
  }

  /** The number of parent links between `i` and the root. */
  function Depth(links: seq<Link>, i: nat): nat
    requires i < |links|
    decreases i
  {
    if i == 0 || links[i].parent >= i then 0 else 1 + Depth(links, links[i].parent)
  }

  /** A tree holding only its root. */
  function Single(): (r: seq<Link>)
    ensures Shaped(r)
  {
    var r := [Link(0, [])];
    assert Preorder(r, 0) == [0];
    r
  }

  /** `links[p]._children.append(new)` and `new._parent = links[p]`, the new node taking the next index. */
  function AppendChild(links: seq<Link>, p: nat): (r: seq<Link>)
    requires p < |links|
    ensures |r| == |links| + 1
    ensures r[|links|] == Link(p, [])
    ensures r[p].children == links[p].children + [|links|]
    ensures forall i {:trigger r[i].parent} :: 0 <= i < |links| ==> r[i].parent == links[i].parent
    ensures forall i {:trigger r[i].children} :: 0 <= i < |links| && i != p ==> r[i].children == links[i].children
  {
    links[p := links[p].(children := links[p].children + [|links|])] + [Link(p, [])]
  }

  // ---------------------------------------------------------------------
  // The ancestor relation

  lemma AncLe(links: seq<Link>, x: nat, y: nat)
    requires y < |links| && AncOrSelf(links, x, y)
    ensures x <= y
    decreases y
  {
    if x != y {
      AncLe(links, x, links[y].parent);
    }
  }

  lemma AncTrans(links: seq<Link>, x: nat, y: nat, z: nat)
    requires y < |links| && z < |links|
    requires AncOrSelf(links, x, y) && AncOrSelf(links, y, z)
    ensures AncOrSelf(links, x, z)
    decreases z
  {
    if y != z {
      AncTrans(links, x, y, links[z].parent);
    }
  }

  /** The root is an ancestor of every node. */
  lemma AncRoot(links: seq<Link>, y: nat)
    requires Linked(links) && y < |links|
    ensures AncOrSelf(links, 0, y)
    decreases y
  {
    if y != 0 {
      AncRoot(links, links[y].parent);
    }
  }

  /** Below a proper ancestor `x` of `y` there is a child of `x` on the way to `y`. */
  lemma PathChild(links: seq<Link>, x: nat, y: nat) returns (c: nat)
    requires Linked(links) && y < |links| && AncOrSelf(links, x, y) && x != y
    ensures 0 < c <= y && links[c].parent == x && AncOrSelf(links, c, y)
    decreases y
  {
    if links[y].parent == x {
      c := y;
    } else {
      c := PathChild(links, x, links[y].parent);
    }
  }

  /** Every non-root node is listed among its parent's children. */
  lemma ChildListed(links: seq<Link>, i: nat)
    requires Linked(links) && 0 < i < |links|
    ensures links[i].parent < i && i in links[links[i].parent].children
  {
    assert i in links[ParentOf(links, i)].children;
  }

  /** A childless node on the way up from `y` is `y` itself. */
  lemma LeafOnPath(links: seq<Link>, c: nat, y: nat)
    requires Linked(links) && c < |links| && y < |links| && AncOrSelf(links, c, y) && links[c].children == []
    ensures c == y
  {
    if c != y {
      var c2 := PathChild(links, c, y);
      ChildListed(links, c2);
      assert false;
    }
  }

  /** The newest node has no children. */
  lemma LastIsLeaf(links: seq<Link>)
    requires Linked(links)
    ensures links[|links| - 1].children == []
  {
    var n := |links| - 1;
    if links[n].children != [] {
      ChildAfter(links, n, 0);
      assert false;
    }
  }

  lemma ChildAfter(links: seq<Link>, i: nat, k: nat)
    requires Linked(links) && i < |links| && k < |links[i].children|
    ensures i < links[i].children[k] < |links|
  {
  }

  // ---------------------------------------------------------------------
  // Pre-order

  lemma PreorderOfConcat(links: seq<Link>, i: nat, cs: seq<nat>, ds: seq<nat>)
    requires Linked(links) && i < |links|
    requires forall k :: 0 <= k < |cs| ==> i < cs[k] < |links|
    requires forall k :: 0 <= k < |ds| ==> i < ds[k] < |links|
    ensures PreorderOf(links, i, cs + ds) == PreorderOf(links, i, cs) + PreorderOf(links, i, ds)
    decreases |cs|
  {
    if cs != [] {
      assert (cs + ds)[1..] == cs[1..] + ds;
      PreorderOfConcat(links, i, cs[1..], ds);
    } else {
      assert cs + ds == ds;
    }
  }

  /** The pre-order of a child list with one more child at its end. */
  lemma PreorderOfSnoc(links: seq<Link>, i: nat, cs: seq<nat>, c: nat)
    requires Linked(links) && i < |links| && i < c < |links|
    requires forall k :: 0 <= k < |cs| ==> i < cs[k] < |links|
    ensures PreorderOf(links, i, cs + [c]) == PreorderOf(links, i, cs) + Preorder(links, c)
  {
    PreorderOfConcat(links, i, cs, [c]);
    assert [c][1..] == [];
    assert PreorderOf(links, i, [c]) == Preorder(links, c) + PreorderOf(links, i, []);
  }

  /** A childless node is its own pre-order. */
  lemma PreorderLeaf(links: seq<Link>, i: nat)
    requires Linked(links) && i < |links| && links[i].children == []
    ensures Preorder(links, i) == [i]
  {
    assert PreorderOf(links, i, links[i].children) == [];
  }

  /** Every child of `i` is younger than `i`. */
  lemma ChildrenAfter(links: seq<Link>, i: nat)
    requires Linked(links) && i < |links|
    ensures forall k :: 0 <= k < |links[i].children| ==> i < links[i].children[k] < |links|
  {
    forall k | 0 <= k < |links[i].children| ensures i < links[i].children[k] < |links| {
      ChildAfter(links, i, k);
    }
  }

  lemma RangeSnoc(lo: nat, hi: nat)
    requires lo <= hi
    ensures Range(lo, hi) + [hi] == Range(lo, hi + 1)
  {
    assert forall k :: 0 <= k < hi + 1 - lo ==> (Range(lo, hi) + [hi])[k] == lo + k;
  }

  /** The pre-order of a node with children ends with the pre-order of its last child. */
  lemma PreorderLastChild(links: seq<Link>, i: nat)
    requires Linked(links) && i < |links| && links[i].children != []
    ensures var cs := links[i].children;
      && i < cs[|cs| - 1] < |links|
      && (forall k :: 0 <= k < |cs| - 1 ==> i < cs[k] < |links|)
      && Preorder(links, i) == [i] + PreorderOf(links, i, cs[..|cs| - 1]) + Preorder(links, cs[|cs| - 1])
  {
    var cs := links[i].children;
    var init := cs[..|cs| - 1];
    var c := cs[|cs| - 1];
    ChildrenAfter(links, i);
    assert cs == init + [c];
    PreorderOfSnoc(links, i, init, c);
    var a := PreorderOf(links, i, init);
    var b := Preorder(links, c);
    assert Preorder(links, i) == [i] + (a + b);
    assert [i] + (a + b) == [i] + a + b;
  }

  // ---------------------------------------------------------------------
  // Appending a child under a node of the right spine

  lemma AppendAncFrame(links: seq<Link>, p: nat, x: nat, y: nat)
    requires p < |links| && y < |links|
    ensures AncOrSelf(AppendChild(links, p), x, y) == AncOrSelf(links, x, y)
    decreases y
  {
    if 0 < y && links[y].parent < y {
      AppendAncFrame(links, p, x, links[y].parent);
    }
  }

  lemma AppendAncNew(links: seq<Link>, p: nat, x: nat)
    requires p < |links|
    ensures AncOrSelf(AppendChild(links, p), x, |links|) == (x == |links| || AncOrSelf(links, x, p))
  {
    AppendAncFrame(links, p, x, p);
  }

  lemma AppendLinked(links: seq<Link>, p: nat)
    requires Linked(links) && p < |links|
    ensures Linked(AppendChild(links, p))
  {
    var r := AppendChild(links, p);
    var n := |links|;
    forall i | 0 < i < |r|
      ensures i in r[ParentOf(r, i)].children
    {
      if i < n {
        assert i in links[ParentOf(links, i)].children;
      } else {
        assert r[p].children[|r[p].children| - 1] == n;
      }
    }
    forall i | 0 <= i < |r|
      ensures Increasing(r[i].children)
    {
      if i == p {
        assert Increasing(links[p].children);
        forall k | 0 <= k < |links[p].children| ensures links[p].children[k] < n {
        }
      }
    }
    forall i, k | 0 <= i < |r| && 0 <= k < |r[i].children|
      ensures i < r[i].children[k] < |r| && r[r[i].children[k]].parent == i
    {
      if i == p && k == |links[p].children| {
      } else if i < n {
        assert r[i].children[k] == links[i].children[k];
      }
    }
  }

  lemma AppendSpineLast(links: seq<Link>, p: nat)
    requires Linked(links) && SpineLast(links) && p < |links| && AncOrSelf(links, p, |links| - 1)
    ensures Linked(AppendChild(links, p)) && SpineLast(AppendChild(links, p))
  {
    var r := AppendChild(links, p);
    AppendLinked(links, p);
    forall x | 0 < x < |r| && OnSpine(r, x)
      ensures var siblings := r[r[x].parent].children; siblings != [] && siblings[|siblings| - 1] == x
    {
      AppendSpineStep(links, p, x);
    }
  }

  /** One node of the new right spine is the last child of its parent. */
  lemma AppendSpineStep(links: seq<Link>, p: nat, x: nat)
    requires Linked(links) && SpineLast(links) && p < |links| && AncOrSelf(links, p, |links| - 1)
    requires 0 < x <= |links| && OnSpine(AppendChild(links, p), x)
    ensures var r := AppendChild(links, p);
      var siblings := r[r[x].parent].children; siblings != [] && siblings[|siblings| - 1] == x
  {
    var r := AppendChild(links, p);
    var n := |links|;
    AppendAncNew(links, p, x);
    if x != n {
      AncTrans(links, x, p, n - 1);
      AncLe(links, x, p);
      assert OnSpine(links, x);
      var q := links[x].parent;
      assert r[x].parent == q;
      assert r[q].children == links[q].children;
    }
  }

  /** The subtrees off the path to `p` are not touched by the append. */
  lemma {:induction false} PreorderOfAppendOff(links: seq<Link>, p: nat, i: nat, cs: seq<nat>)
    requires Linked(links) && SpineLast(links) && p < |links| && AncOrSelf(links, p, |links| - 1) && i < |links|
    requires |cs| <= |links[i].children|
    requires forall k :: 0 <= k < |cs| ==> i < cs[k] < |links| && !AncOrSelf(links, cs[k], p)
    ensures Linked(AppendChild(links, p))
    ensures PreorderOf(AppendChild(links, p), i, cs) == PreorderOf(links, i, cs)
    decreases |links| - i, |cs|, 2
  {
    AppendLinked(links, p);
    if cs != [] {
      PreorderAppend(links, p, cs[0]);
      PreorderOfAppendOff(links, p, i, cs[1..]);
    }
  }

  /** Appending under `p` adds the new index at the end of the pre-order of every ancestor of `p`. */
  lemma {:induction false} PreorderAppend(links: seq<Link>, p: nat, i: nat)
    requires Linked(links) && SpineLast(links) && p < |links| && AncOrSelf(links, p, |links| - 1) && i < |links|
    ensures Linked(AppendChild(links, p))
    ensures Preorder(AppendChild(links, p), i) ==
      if AncOrSelf(links, i, p) then Preorder(links, i) + [|links|] else Preorder(links, i)
    decreases |links| - i, |links[i].children| + 1, 1
  {
    AppendLinked(links, p);
    if i == p {
      PreorderAppendAt(links, p);
    } else if AncOrSelf(links, i, p) {
      PreorderAppendAbove(links, p, i);
    } else {
      PreorderAppendAside(links, p, i);
    }
  }

  lemma {:induction false} PreorderAppendAt(links: seq<Link>, p: nat)
    requires Linked(links) && SpineLast(links) && p < |links| && AncOrSelf(links, p, |links| - 1)
    ensures Linked(AppendChild(links, p))
    ensures Preorder(AppendChild(links, p), p) == Preorder(links, p) + [|links|]
    decreases |links| - p, |links[p].children| + 1, 0
  {
    var r := AppendChild(links, p);
    var n := |links|;
    var cs := links[p].children;
    AppendLinked(links, p);
    forall k | 0 <= k < |cs| ensures p < cs[k] < n && !AncOrSelf(links, cs[k], p) {
      ChildAfter(links, p, k);
      if AncOrSelf(links, cs[k], p) {
        AncLe(links, cs[k], p);
      }
    }
    PreorderOfAppendOff(links, p, p, cs);
    var a := PreorderOf(links, p, cs);
    assert r[p].children == cs + [n];
    PreorderOfSnoc(r, p, cs, n);
    PreorderLeaf(r, n);
    assert Preorder(r, p) == [p] + (a + [n]);
    assert [p] + (a + [n]) == ([p] + a) + [n];
  }

  lemma {:induction false} PreorderAppendAbove(links: seq<Link>, p: nat, i: nat)
    requires Linked(links) && SpineLast(links) && p < |links| && AncOrSelf(links, p, |links| - 1)
    requires i < |links| && i != p && AncOrSelf(links, i, p)
    ensures Linked(AppendChild(links, p))
    ensures Preorder(AppendChild(links, p), i) == Preorder(links, i) + [|links|]
    decreases |links| - i, |links[i].children| + 1, 0
  {
    var r := AppendChild(links, p);
    var n := |links|;
    var cs := links[i].children;
    AppendLinked(links, p);
    var c := SpineChild(links, p, i);
    var init := cs[..|cs| - 1];
    assert forall k :: 0 <= k < |init| ==> i < init[k] < n by {
      forall k | 0 <= k < |init| ensures i < init[k] < n { assert init[k] == cs[k]; }
    }
    PreorderOfAppendOff(links, p, i, init);
    PreorderAppend(links, p, c);
    AboveAssemble(links, p, i);
  }

  /**
   * The pre-order of a proper ancestor `i` of `p` grows by the new node
   * once the subtree of its last child does and its other children's do not.
   */
  lemma AboveAssemble(links: seq<Link>, p: nat, i: nat)
    requires Linked(links) && p < |links| && i < |links| && links[i].children != [] && i != p
    requires Linked(AppendChild(links, p))
    requires var cs := links[i].children; var c := cs[|cs| - 1]; var r := AppendChild(links, p);
      && i < c < |links| && (forall k :: 0 <= k < |cs| - 1 ==> i < cs[k] < |links|)
      && Preorder(r, c) == Preorder(links, c) + [|links|]
      && PreorderOf(r, i, cs[..|cs| - 1]) == PreorderOf(links, i, cs[..|cs| - 1])
    ensures Preorder(AppendChild(links, p), i) == Preorder(links, i) + [|links|]
  {
    var r := AppendChild(links, p);
    var n := |links|;
    var cs := links[i].children;
    var init := cs[..|cs| - 1];
    var c := cs[|cs| - 1];
    var a := PreorderOf(links, i, init);
    var b := Preorder(links, c);
    assert Preorder(r, i) == [i] + a + (b + [n]) by {
      assert r[i].children == cs;
      PreorderLastChild(r, i);
    }
    assert Preorder(links, i) == [i] + a + b by { PreorderLastChild(links, i); }
    assert [i] + a + (b + [n]) == ([i] + a + b) + [n];
  }

  /**
   * Below a proper ancestor `i` of a spine node `p`, the way to `p` goes
   * through the last child of `i`; no earlier child leads to `p`.
   */
  lemma SpineChild(links: seq<Link>, p: nat, i: nat) returns (c: nat)
    requires Linked(links) && SpineLast(links) && p < |links| && AncOrSelf(links, p, |links| - 1)
    requires i < |links| && i != p && AncOrSelf(links, i, p)
    ensures var cs := links[i].children;
      && cs != [] && c == cs[|cs| - 1] && i < c < |links| && AncOrSelf(links, c, p)
      && forall k :: 0 <= k < |cs| - 1 ==> i < cs[k] < |links| && !AncOrSelf(links, cs[k], p)
  {
    var n := |links|;
    var cs := links[i].children;
    c := PathChild(links, i, p);
    assert c in links[ParentOf(links, c)].children;
    AncTrans(links, c, p, n - 1);
    assert OnSpine(links, c);
    assert c == cs[|cs| - 1];
    forall k | 0 <= k < |cs| - 1 ensures i < cs[k] < n && !AncOrSelf(links, cs[k], p) {
      ChildAfter(links, i, k);
      assert cs[k] < c;
      if AncOrSelf(links, cs[k], p) {
        AncTrans(links, cs[k], p, n - 1);
        assert OnSpine(links, cs[k]);
        assert false;
      }
    }
  }

  lemma {:induction false} PreorderAppendAside(links: seq<Link>, p: nat, i: nat)
    requires Linked(links) && SpineLast(links) && p < |links| && AncOrSelf(links, p, |links| - 1)
    requires i < |links| && !AncOrSelf(links, i, p)
    ensures Linked(AppendChild(links, p))
    ensures Preorder(AppendChild(links, p), i) == Preorder(links, i)
    decreases |links| - i, |links[i].children| + 1, 0
  {
    var cs := links[i].children;
    AppendLinked(links, p);
    forall k | 0 <= k < |cs| ensures i < cs[k] < |links| && !AncOrSelf(links, cs[k], p) {
      ChildAfter(links, i, k);
      if AncOrSelf(links, cs[k], p) {
        assert links[cs[k]].parent == i;
        AncTrans(links, i, cs[k], p);
        assert false;
      }
    }
    PreorderOfAppendOff(links, p, i, cs);
  }

  /** Appending under a node of the right spine keeps the shape, and the new node is last in pre-order. */
  lemma AppendShaped(links: seq<Link>, p: nat)
    requires Shaped(links) && p < |links| && AncOrSelf(links, p, |links| - 1)
    ensures Shaped(AppendChild(links, p))
    ensures Preorder(AppendChild(links, p), 0) == Preorder(links, 0) + [|links|]
  {
    var r := AppendChild(links, p);
    assert Linked(r) && SpineLast(r) by { AppendSpineLast(links, p); }
    assert Preorder(r, 0) == Preorder(links, 0) + [|links|] by {
      AncRoot(links, p);
      PreorderAppend(links, p, 0);
    }
    RangeSnoc(0, |links|);
  }
}
