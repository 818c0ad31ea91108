/**
 The colour fix-up of erasure, `____rb_erase_color`: the hole's subtree is one black node short.
 */
module RbEraseColour {
  import opened RbShape
  import opened RbRotate
  import opened RbMoves

  /** The subtree at the hole is black-rooted and one black node short of what the context asks. */
  ghost predicate Short(m: Mem, root: Ptr, k: Ctx, t: Tree, node: Ptr, parent: Ptr) {
    At(m, root, k, t, node, parent) && !Red(t) && Rb(t) && CtxRb(k, Bh(t) + 1, false)
  }

  /** At the root a missing black node does no harm. */
  lemma {:induction false} ShortTop(m: Mem, root: Ptr, k: Ctx, t: Tree, node: Ptr, parent: Ptr)
    requires Short(m, root, k, t, node, parent) && k.Top?
    ensures Whole(m, root, t) && InOrder(t) == Around(k, InOrder(t))
  {
  }

  lemma {:induction false} CtxRbBlack(k: Ctx, h: nat)
    requires CtxRb(k, h, true)
    ensures CtxRb(k, h, false)
  {
  }

  /** The sibling exists, and is the child the program reads. */
  lemma {:induction false} Sibling(m: Mem, root: Ptr, k: Ctx, t: Tree, node: Ptr, parent: Ptr)
    requires Short(m, root, k, t, node, parent) && k.Frame?
    ensures parent == k.p && parent in m && parent != NULL && m[parent].red == k.red && k.sib.Node?
    ensures (node != m[parent].right <==> k.left) && Child(m[parent], k.left) == node
    ensures At(m, root, k.up, Build(k.left, t, parent, k.red, k.sib), parent, m[parent].parent)
    ensures var sibling := Child(m[parent], !k.left);
            && sibling == k.sib.p && sibling in m && m[sibling].red == k.sib.red
            && At(m, root, Frame(k.up, !k.left, parent, k.red, t), k.sib, sibling, parent)
            && RootOf(k.sib.l, m[sibling].left) && RootOf(k.sib.r, m[sibling].right)
  {
    AtUp(m, root, k, t, node, parent);
    var t1 := Build(k.left, t, k.p, k.red, k.sib);
    AtDown(m, root, k.up, t1, !k.left, parent, m[parent].parent);
    assert Kid(t1, k.left) == t && Kid(t1, !k.left) == k.sib;
    var sibling := Child(m[parent], !k.left);
    ReprBuild(m, k.left, t, k.p, k.red, k.sib, m[parent].parent);
    SubRoots(m, k.sib, sibling, parent);
    assert node == NULL || node in Nodes(t);
    assert sibling in Nodes(k.sib);
  }

  lemma {:induction false} SubRoots(m: Mem, t: Tree, ptr: Ptr, par: Ptr)
    requires Repr(m, t, ptr, par) && t.Node?
    ensures ptr == t.p && ptr in m && m[ptr].red == t.red && RootOf(t.l, m[ptr].left) && RootOf(t.r, m[ptr].right)
    ensures (t.l.Node? ==> t.l.p in m && m[t.l.p].red == t.l.red) && (t.r.Node? ==> t.r.p in m && m[t.r.p].red == t.r.red)
  {
    assert Repr(m, t.l, m[ptr].left, ptr) && Repr(m, t.r, m[ptr].right, ptr);
  }

  /** Where the hole is after the rotation of case 1. */
  function Lowered(k: Ctx, d: bool, n: Ptr, z: Tree, o: Ptr, y: Tree): Ctx {
    Frame(Frame(k, d, n, false, z), d, o, true, y)
  }

  lemma {:induction false} LoweredAt(m: Mem, root: Ptr, k: Ctx, d: bool, o: Ptr, n: Ptr, t: Tree, y: Tree, z: Tree, pp: Ptr)
    requires At(m, root, k, Rotated(!d, o, true, n, false, t, y, z), n, pp)
    ensures o in m && At(m, root, Lowered(k, d, n, z, o, y), t, Child(m[o], d), o) && RootOf(t, Child(m[o], d))
  {
    var low := Build(!d, y, o, true, t);
    var whole := Build(!d, z, n, false, low);
    AtDown(m, root, k, whole, d, n, pp);
    assert Kid(whole, d) == low && Kid(whole, !d) == z;
    AtDown(m, root, Frame(k, d, n, false, z), low, d, Child(m[n], d), n);
    assert Kid(low, d) == t && Kid(low, !d) == y;
  }

  lemma {:induction false} LoweredOrder(k: Ctx, d: bool, o: Ptr, n: Ptr, t: Tree, y: Tree, z: Tree)
    ensures Around(Lowered(k, d, n, z, o, y), InOrder(t)) == Around(k, InOrder(Rotated(!d, o, true, n, false, t, y, z)))
  {
    OrderUp(Lowered(k, d, n, z, o, y), t);
    OrderUp(Frame(k, d, n, false, z), Build(!d, y, o, true, t));
    assert Build(d, t, o, true, y) == Build(!d, y, o, true, t);
  }

  lemma {:induction false} LoweredRb(k: Ctx, t: Tree)
    requires k.Frame? && Red(k.sib) && Rb(t) && !Red(t) && CtxRb(k, Bh(t) + 1, false)
    ensures var y, z := Kid(k.sib, k.left), Kid(k.sib, !k.left);
            CtxRb(Lowered(k.up, k.left, k.sib.p, z, k.p, y), Bh(t) + 1, false) && !Red(y) && !k.red
  {
    var y, z := Kid(k.sib, k.left), Kid(k.sib, !k.left);
    assert CtxRb(Frame(k.up, k.left, k.sib.p, false, z), Bh(t) + 1, true);
  }

  /** Case 1: a red sibling is rotated above the parent. */
  method RedSibling(m0: Mem, root0: Ptr, node: Ptr, parent: Ptr, sibling: Ptr, d: bool, ghost k: Ctx, ghost t: Tree)
    returns (m: Mem, root: Ptr, ghost k': Ctx)
    requires Short(m0, root0, k, t, node, parent) && k.Frame? && parent in m0 && d == k.left
    requires sibling == Child(m0[parent], !d) && sibling in m0 && m0[sibling].red
    ensures Short(m, root, k', t, node, parent) && k'.Frame? && k'.left == d && k'.red && !Red(k'.sib)
    ensures SamePayload(m0, m) && Around(k', InOrder(t)) == Around(k, InOrder(t))
  {
    Sibling(m0, root0, k, t, node, parent);
    ghost var y, z, pp := Kid(k.sib, d), Kid(k.sib, !d), m0[parent].parent;
    assert k.sib == Build(!d, z, sibling, true, y);
    OrderUp(k, t);
    LoweredRb(k, t);
    m, root := Rotate(m0, root0, parent, sibling, !d, true, false, true, k.up, t, y, z, pp);
    RotatedOrder(!d, parent, false, true, sibling, true, false, t, y, z);
    LoweredAt(m, root, k.up, d, parent, sibling, t, y, z, pp);
    LoweredOrder(k.up, d, parent, sibling, t, y, z);
    assert RootOf(t, node);
    k' := Lowered(k.up, d, sibling, z, parent, y);
  }

  // ----- a black sibling -----

  ghost predicate BlackSibling(m: Mem, root: Ptr, k: Ctx, t: Tree, node: Ptr, parent: Ptr, sibling: Ptr, d: bool) {
    && Short(m, root, k, t, node, parent) && k.Frame? && parent in m && d == k.left
    && sibling == Child(m[parent], !d) && sibling in m && !m[sibling].red
  }

  predicate IsBlack(m: Mem, p: Ptr) { p == NULL || (p in m && !m[p].red) }

  /** Case 2 on a red parent: repainting makes up for the missing node. */
  lemma {:induction false} FlipRedRb(k: Ctx, t: Tree)
    requires k.Frame? && k.red && k.sib.Node? && !Red(k.sib) && !Red(k.sib.l) && !Red(k.sib.r)
    requires Rb(t) && !Red(t) && CtxRb(k, Bh(t) + 1, false)
    ensures var t' := Build(k.left, t, k.p, false, Paint(k.sib, true));
            Rb(t') && !Red(t') && CtxRb(k.up, Bh(t'), false)
  {
    CtxRbBlack(k.up, Bh(t) + 1);
    assert Rb(Paint(k.sib, true)) && Bh(Paint(k.sib, true)) == Bh(t);
  }

  /** Case 2 on a black parent: the shortage moves up. */
  lemma {:induction false} FlipBlackRb(k: Ctx, t: Tree)
    requires k.Frame? && !k.red && k.sib.Node? && !Red(k.sib) && !Red(k.sib.l) && !Red(k.sib.r)
    requires Rb(t) && !Red(t) && CtxRb(k, Bh(t) + 1, false)
    ensures var t' := Build(k.left, t, k.p, false, Paint(k.sib, true));
            Rb(t') && !Red(t') && CtxRb(k.up, Bh(t') + 1, false)
  {
    assert Rb(Paint(k.sib, true)) && Bh(Paint(k.sib, true)) == Bh(t);
  }

  /** Case 2: sibling colour flip. */
  method FlipSibling(m0: Mem, ghost root: Ptr, node: Ptr, parent: Ptr, sibling: Ptr, d: bool, ghost k: Ctx, ghost t: Tree)
    returns (m: Mem, ghost t': Tree)
    requires BlackSibling(m0, root, k, t, node, parent, sibling, d) && IsBlack(m0, m0[sibling].left) && IsBlack(m0, m0[sibling].right)
    ensures parent in m && m[parent].red == m0[parent].red == k.red && t' == Build(d, t, parent, k.red, Paint(k.sib, true))
    ensures At(m, root, k.up, t', parent, m[parent].parent)
    ensures SamePayload(m0, m) && Around(k.up, InOrder(t')) == Around(k, InOrder(t))
    ensures k.sib.Node? && !Red(k.sib) && !Red(k.sib.l) && !Red(k.sib.r)
  {
    Sibling(m0, root, k, t, node, parent);
    SubRoots(m0, k.sib, sibling, parent);
    ghost var ks := Frame(k.up, !d, parent, k.red, t);
    m := SetColour(m0, sibling, parent, true, root, ks, k.sib);
    AtUp(m, root, ks, Paint(k.sib, true), sibling, parent);
    t' := Build(d, t, parent, k.red, Paint(k.sib, true));
    OrderUp(k, t);
    PaintNodes(k.sib, true);
    BuildOrder(d, t, parent, k.red, k.sib);
    BuildOrder(d, t, parent, k.red, Paint(k.sib, true));
  }

  lemma {:induction false} OuterRb(k: Ctx, t: Tree)
    requires k.Frame? && k.sib.Node? && !Red(k.sib) && Red(Kid(k.sib, !k.left))
    requires Rb(t) && !Red(t) && CtxRb(k, Bh(t) + 1, false)
    ensures var y, z := Kid(k.sib, k.left), Kid(k.sib, !k.left);
            var t' := Rotated(!k.left, k.p, false, k.sib.p, k.red, t, y, Paint(z, false));
            Rb(t') && CtxRb(k.up, Bh(t'), Red(t'))
  {
    var y, z := Kid(k.sib, k.left), Kid(k.sib, !k.left);
    assert Rb(k.sib) && Rb(z) && Rb(y);
    assert Rb(Paint(z, false)) && Bh(Paint(z, false)) == Bh(t) + 1;
    assert Rb(Build(!k.left, y, k.p, false, t));
  }

  /** Case 4: the outer nephew is red. */
  method OuterRed(m0: Mem, root0: Ptr, node: Ptr, parent: Ptr, sibling: Ptr, d: bool, ghost k: Ctx, ghost t: Tree)
    returns (m: Mem, root: Ptr, ghost tree: Tree)
    requires BlackSibling(m0, root0, k, t, node, parent, sibling, d) && !IsBlack(m0, Child(m0[sibling], !d))
    ensures Whole(m, root, tree) && SamePayload(m0, m) && InOrder(tree) == Around(k, InOrder(t))
  {
    Sibling(m0, root0, k, t, node, parent);
    SubRoots(m0, k.sib, sibling, parent);
    ghost var y, z, pp := Kid(k.sib, d), Kid(k.sib, !d), m0[parent].parent;
    var outer := Child(m0[sibling], !d);
    ghost var z' := Paint(z, false);
    m := PaintOuter(m0, root0, parent, sibling, outer, d, k, t);
    m, root := Rotate(m, root0, parent, sibling, !d, false, k.red, false, k.up, t, y, z', pp);
    OuterRb(k, t);
    OuterOrder(k, t);
    ghost var t' := Rotated(!d, parent, false, sibling, k.red, t, y, z');
    AtTop(m, root, k.up, t', sibling, pp);
    tree := Plug(k.up, t');
  }

  lemma {:induction false} OuterOrder(k: Ctx, t: Tree)
    requires k.Frame? && k.sib.Node?
    ensures var y, z := Kid(k.sib, k.left), Kid(k.sib, !k.left);
            Around(k.up, InOrder(Rotated(!k.left, k.p, false, k.sib.p, k.red, t, y, Paint(z, false)))) == Around(k, InOrder(t))
  {
    var d := k.left;
    var y, z := Kid(k.sib, d), Kid(k.sib, !d);
    OrderUp(k, t);
    RotatedOrder(!d, k.p, k.red, false, k.sib.p, k.sib.red, k.red, t, y, Paint(z, false));
    PaintNodes(z, false);
    BuildOrder(!d, z, k.sib.p, k.sib.red, y);
    BuildOrder(!d, Paint(z, false), k.sib.p, k.sib.red, y);
    BuildOrder(!d, k.sib, k.p, k.red, t);
    BuildOrder(!d, Build(!d, Paint(z, false), k.sib.p, k.sib.red, y), k.p, k.red, t);
    assert k.sib == Build(!d, z, k.sib.p, k.sib.red, y);
  }

  method PaintOuter(m0: Mem, ghost root: Ptr, parent: Ptr, sibling: Ptr, outer: Ptr, d: bool, ghost k: Ctx, ghost t: Tree)
    returns (m: Mem)
    requires k.Frame? && k.left == d && k.sib.Node? && Kid(k.sib, !d).Node? && parent in m0 && sibling in m0 && k.sib.p == sibling
    requires At(m0, root, Frame(k.up, !d, parent, k.red, t), k.sib, sibling, parent)
    requires outer == Child(m0[sibling], !d)
    ensures parent in m && SamePayload(m0, m) && m[parent].parent == m0[parent].parent
    ensures At(m, root, k.up, Slanted(!d, parent, k.red, sibling, k.sib.red, t, Kid(k.sib, d), Paint(Kid(k.sib, !d), false)),
               parent, m0[parent].parent)
  {
    ghost var y, z := Kid(k.sib, d), Kid(k.sib, !d);
    ghost var ks := Frame(k.up, !d, parent, k.red, t);
    AtDown(m0, root, ks, k.sib, !d, sibling, parent);
    ghost var kz := Frame(ks, !d, sibling, k.sib.red, y);
    AtDown(m0, root, kz, z, true, outer, sibling);
    m := SetColour(m0, outer, sibling, false, root, kz, z);
    assert outer in Nodes(z) && parent in CtxNodes(kz);
    assert m[parent] == m0[parent];
    AtUp(m, root, kz, Paint(z, false), outer, sibling);
    AtUp(m, root, ks, Build(!d, Paint(z, false), sibling, k.sib.red, y), sibling, m[sibling].parent);
  }

  lemma {:induction false} InnerRb(k: Ctx, t: Tree)
    requires k.Frame? && k.sib.Node? && !Red(k.sib) && Red(Kid(k.sib, k.left)) && !Red(Kid(k.sib, !k.left))
    requires Rb(t) && !Red(t) && CtxRb(k, Bh(t) + 1, false)
    ensures var d := k.left;
            var c, z := Kid(k.sib, d), Kid(k.sib, !d);
            var t' := Straightened(!d, k.p, false, k.sib.p, false, c.p, k.red, t, Kid(c, !d), Kid(c, d), z);
            Rb(t') && CtxRb(k.up, Bh(t'), Red(t'))
  {
    var d := k.left;
    var c, z := Kid(k.sib, d), Kid(k.sib, !d);
    assert Rb(k.sib) && Rb(c) && Rb(z);
    assert Rb(Build(!d, z, k.sib.p, false, Kid(c, !d)));
    assert Rb(Build(!d, Kid(c, d), k.p, false, t));
  }

  /** Cases 3 and 4: only the inner nephew is red. */
  method InnerRed(m0: Mem, root0: Ptr, node: Ptr, parent: Ptr, sibling: Ptr, d: bool, ghost k: Ctx, ghost t: Tree)
    returns (m: Mem, root: Ptr, ghost tree: Tree)
    requires BlackSibling(m0, root0, k, t, node, parent, sibling, d)
    requires IsBlack(m0, Child(m0[sibling], !d)) && !IsBlack(m0, Child(m0[sibling], d))
    ensures Whole(m, root, tree) && SamePayload(m0, m) && InOrder(tree) == Around(k, InOrder(t))
  {
    Sibling(m0, root0, k, t, node, parent);
    SubRoots(m0, k.sib, sibling, parent);
    var inner := Child(m0[sibling], d);
    ghost var c, z, pp := Kid(k.sib, d), Kid(k.sib, !d), m0[parent].parent;
    ghost var a, b := Kid(c, !d), Kid(c, d);
    assert c == Build(!d, a, inner, true, b) && k.sib == Build(!d, z, sibling, false, c);
    m, root := RotateTwice(m0, root0, parent, sibling, inner, !d, false, false, k.red, false, true, k.up, t, a, b, z, pp);
    InnerRb(k, t);
    OrderUp(k, t);
    StraightenedOrder(!d, parent, k.red, false, sibling, false, false, inner, true, k.red, t, a, b, z);
    ghost var t' := Straightened(!d, parent, false, sibling, false, inner, k.red, t, a, b, z);
    AtTop(m, root, k.up, t', inner, pp);
    tree := Plug(k.up, t');
  }

  /** Cases 2, 3 and 4: either the tree is whole again, or the shortage moved up to a black parent. */
  method BlackStep(m0: Mem, root0: Ptr, node: Ptr, parent: Ptr, sibling: Ptr, d: bool, ghost k: Ctx, ghost t: Tree)
    returns (m: Mem, root: Ptr, done: bool, ghost t': Tree)
    requires BlackSibling(m0, root0, k, t, node, parent, sibling, d)
    ensures SamePayload(m0, m) && parent in m
    ensures done ==> Whole(m, root, t') && InOrder(t') == Around(k, InOrder(t))
    ensures !done ==> !k.red && m[parent].parent != NULL && k.up.Frame? && Short(m, root, k.up, t', parent, m[parent].parent)
                      && Around(k.up, InOrder(t')) == Around(k, InOrder(t))
  {
    Sibling(m0, root0, k, t, node, parent);
    SubRoots(m0, k.sib, sibling, parent);
    var outer, inner := Child(m0[sibling], !d), Child(m0[sibling], d);
    done := true;
    if outer == NULL || !m0[outer].red {
      if inner == NULL || !m0[inner].red {
        root := root0;
        m, t' := FlipSibling(m0, root, node, parent, sibling, d, k, t);
        if m[parent].red {
          FlipRedRb(k, t);
          m := SetColour(m, parent, m[parent].parent, false, root, k.up, t');
          t' := FlippedRed(m, root, k, t, parent);
        } else {
          FlipBlackRb(k, t);
          if m[parent].parent != NULL {
            done := false;
          } else {
            ShortTop(m, root, k.up, t', parent, NULL);
          }
        }
      } else {
        m, root, t' := InnerRed(m0, root0, node, parent, sibling, d, k, t);
      }
    } else {
      m, root, t' := OuterRed(m0, root0, node, parent, sibling, d, k, t);
    }
  }

  /** ____rb_erase_color: restores the red-black conditions after a black node was taken out. */
  method EraseColour(m0: Mem, root0: Ptr, parent0: Ptr, ghost k0: Ctx, ghost t0: Tree)
    returns (m: Mem, root: Ptr, ghost tree: Tree)
    requires Short(m0, root0, k0, t0, NULL, parent0) && k0.Frame?
    ensures Whole(m, root, tree) && InOrder(tree) == Around(k0, InOrder(t0)) && SamePayload(m0, m)
  {
    m, root, tree := m0, root0, t0;
    var node, parent := NULL, parent0;
    ghost var k := k0;
    while true
      invariant Short(m, root, k, tree, node, parent) && k.Frame?
      invariant SamePayload(m0, m) && Around(k, InOrder(tree)) == Around(k0, InOrder(t0))
      decreases k
    {
      Sibling(m, root, k, tree, node, parent);
      ghost var k1 := k;
      var d := node != m[parent].right;
      var sibling := Child(m[parent], !d);
      if m[sibling].red {
        m, root, k1 := RedSibling(m, root, node, parent, sibling, d, k, tree);
        Sibling(m, root, k1, tree, node, parent);
        sibling := Child(m[parent], !d);
      }
      var done;
      m, root, done, tree := BlackStep(m, root, node, parent, sibling, d, k1, tree);
      if done {
        break;
      }
      k := k1.up;
      node, parent := parent, m[parent].parent;
    }
  }

  lemma {:induction false} FlippedRed(m: Mem, root: Ptr, k: Ctx, t: Tree, parent: Ptr) returns (tree: Tree)
    requires k.Frame? && k.red && parent in m
    requires At(m, root, k.up, Paint(Build(k.left, t, parent, true, Paint(k.sib, true)), false), parent, m[parent].parent)
    requires var t' := Build(k.left, t, k.p, false, Paint(k.sib, true)); Rb(t') && !Red(t') && CtxRb(k.up, Bh(t'), false)
    requires parent == k.p
    ensures Whole(m, root, tree) && InOrder(tree) == Around(k, InOrder(t))
  {
    var t' := Build(k.left, t, parent, false, Paint(k.sib, true));
    assert t' == Paint(Build(k.left, t, parent, true, Paint(k.sib, true)), false);
    AtTop(m, root, k.up, t', parent, m[parent].parent);
    OrderUp(k, t);
    PaintNodes(k.sib, true);
    BuildOrder(k.left, t, parent, k.red, k.sib);
    BuildOrder(k.left, t, parent, false, Paint(k.sib, true));
    tree := Plug(k.up, t');
  }
}
