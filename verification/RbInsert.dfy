/**
 The colour fix-up after an insertion, `__rb_insert`: recolouring and rotations up the tree.
 */
module RbInsert {
  import opened RbShape
  import opened RbRotate
  import opened RbMoves

  /** The state of the fix-up loop: `t` is red, and nothing but a red parent can be wrong. */
  ghost predicate Fixing(m: Mem, root: Ptr, k: Ctx, t: Tree, node: Ptr, parent: Ptr) {
    At(m, root, k, t, node, parent) && Red(t) && Rb(t) && CtxRb(k, Bh(t), false)
  }

  /** The two frames above a red node whose parent is red. */
  lemma {:induction false} RedParent(m: Mem, root: Ptr, k: Ctx, t: Tree, node: Ptr, parent: Ptr)
    requires Fixing(m, root, k, t, node, parent) && parent != NULL && parent in m && m[parent].red
    ensures k.Frame? && k.red && k.up.Frame? && !k.up.red && k.p == parent && k.up.p == m[parent].parent
    ensures var gp := m[parent].parent;
            && gp in m && gp != NULL && node in m && m[node].red
            && At(m, root, k.up.up, Build(k.up.left, Build(k.left, t, k.p, true, k.sib), gp, false, k.up.sib), gp, m[gp].parent)
            && Child(m[gp], k.up.left) == parent && (parent != m[gp].right <==> k.up.left) && (node == Child(m[parent], !k.up.left) <==> k.left != k.up.left)
            && RootOf(k.up.sib, Child(m[gp], !k.up.left))
            && (Red(k.up.sib) <==> Child(m[gp], !k.up.left) != NULL && Child(m[gp], !k.up.left) in m && m[Child(m[gp], !k.up.left)].red)
  {
    AtUp(m, root, k, t, node, parent);
    assert CtxRb(k.up, Bh(t), true);
    var t1 := Build(k.left, t, k.p, k.red, k.sib);
    AtUp(m, root, k.up, t1, parent, m[parent].parent);
    ReprBuild(m, k.left, t, k.p, k.red, k.sib, m[parent].parent);
    ReprNodes(m, k.sib, Child(m[parent], !k.left), parent);
    ReprNodes(m, k.up.sib, Child(m[m[parent].parent], !k.up.left), m[parent].parent);
  }

  /** Colour flip of a red parent and a red uncle; the violation moves to the grandparent. */
  method FlipColours(m0: Mem, gparent: Ptr, parent: Ptr, uncle: Ptr, d: bool, ghost root: Ptr, ghost k: Ctx,
                     ghost t1: Tree, ghost u: Tree, ghost gg: Ptr) returns (m: Mem)
    requires At(m0, root, k, Build(d, t1, gparent, false, u), gparent, gg) && t1.Node? && u.Node? && gparent in m0
    requires parent == Child(m0[gparent], d) && uncle == Child(m0[gparent], !d)
    ensures At(m, root, k, Build(d, Paint(t1, false), gparent, true, Paint(u, false)), gparent, gg)
    ensures SamePayload(m0, m) && gparent in m && m[gparent].parent == gg
  {
    ghost var t2 := Build(d, t1, gparent, false, u);
    AtDown(m0, root, k, t2, !d, gparent, gg);
    ghost var ku := Frame(k, !d, gparent, false, t1);
    AtDown(m0, root, ku, u, true, uncle, gparent);
    m := SetColour(m0, uncle, gparent, false, root, ku, u);
    AtUp(m, root, ku, Paint(u, false), uncle, gparent);
    ghost var t3 := Build(d, t1, gparent, false, Paint(u, false));
    assert t3 == Build(!d, Paint(u, false), gparent, false, t1);
    AtDown(m, root, k, t3, d, gparent, m[gparent].parent);
    ghost var kp := Frame(k, d, gparent, false, Paint(u, false));
    AtDown(m, root, kp, t1, true, Child(m[gparent], d), gparent);
    assert Child(m[gparent], d) == parent;
    m := SetColour(m, parent, gparent, false, root, kp, t1);
    AtUp(m, root, kp, Paint(t1, false), parent, gparent);
    m := SetColour(m, gparent, m[gparent].parent, true, root, k, Build(d, Paint(t1, false), gparent, false, Paint(u, false)));
  }

  // ----- what the moves do to colours -----

  lemma {:induction false} FlipRb(k: Ctx, t: Tree)
    requires Red(t) && Rb(t) && CtxRb(k, Bh(t), false) && k.Frame? && k.red && k.up.Frame? && Red(k.up.sib)
    ensures var t' := Build(k.up.left, Build(k.left, t, k.p, false, k.sib), k.up.p, true, Paint(k.up.sib, false));
            Red(t') && Rb(t') && CtxRb(k.up.up, Bh(t'), false)
  {
    assert CtxRb(k.up, Bh(t), true);
    assert Rb(Build(k.left, t, k.p, false, k.sib));
    assert Rb(Paint(k.up.sib, false));
  }

  lemma {:induction false} RotateRb(k: Ctx, t: Tree)
    requires Red(t) && Rb(t) && CtxRb(k, Bh(t), false) && k.Frame? && k.red && k.up.Frame? && !Red(k.up.sib)
    ensures var t' := Rotated(k.up.left, k.up.p, true, k.p, false, k.up.sib, k.sib, t);
            !Red(t') && Rb(t') && CtxRb(k.up.up, Bh(t'), false)
  {
    assert CtxRb(k.up, Bh(t), true);
    assert Rb(Build(k.up.left, k.sib, k.up.p, true, k.up.sib));
  }

  lemma {:induction false} RotateTwiceRb(k: Ctx, t: Tree)
    requires Red(t) && Rb(t) && CtxRb(k, Bh(t), false) && k.Frame? && k.red && k.up.Frame? && !Red(k.up.sib)
    ensures var d := k.up.left;
            var t' := Straightened(d, k.up.p, true, k.p, true, t.p, false, k.up.sib, Kid(t, d), Kid(t, !d), k.sib);
            !Red(t') && Rb(t') && CtxRb(k.up.up, Bh(t'), false)
  {
    var d := k.up.left;
    assert CtxRb(k.up, Bh(t), true);
    assert Rb(Build(d, k.sib, k.p, true, Kid(t, d)));
    assert Rb(Build(d, Kid(t, !d), k.up.p, true, k.up.sib));
  }

  lemma {:induction false} TwoFrames(k: Ctx, t: Tree)
    requires k.Frame? && k.up.Frame?
    ensures Around(k, InOrder(t)) ==
              Around(k.up.up, InOrder(Build(k.up.left, Build(k.left, t, k.p, k.red, k.sib), k.up.p, k.up.red, k.up.sib)))
  {
    OrderUp(k, t);
    OrderUp(k.up, Build(k.left, t, k.p, k.red, k.sib));
  }

  lemma {:induction false} FlipOrder(d: bool, c: Tree, p: Ptr, red: bool, red': bool, sib: Tree, c': Tree, sib': Tree)
    requires InOrder(c) == InOrder(c') && InOrder(sib) == InOrder(sib')
    ensures InOrder(Build(d, c, p, red, sib)) == InOrder(Build(d, c', p, red', sib'))
  {
  }

  /** A red node under a red parent, with the grandparent and the uncle the program looks at. */
  ghost predicate RedUnderRed(m: Mem, root: Ptr, k: Ctx, t: Tree, node: Ptr, parent: Ptr, gparent: Ptr, uncle: Ptr, d: bool) {
    && Fixing(m, root, k, t, node, parent) && parent != NULL && parent in m && m[parent].red
    && gparent == m[parent].parent && gparent in m && d == (parent != m[gparent].right) && uncle == Child(m[gparent], !d)
  }

  /** Case 1. */
  method FlipStep(m0: Mem, ghost root: Ptr, node: Ptr, parent: Ptr, gparent: Ptr, uncle: Ptr, d: bool, ghost k: Ctx, ghost t: Tree)
    returns (m: Mem, ghost t': Tree)
    requires RedUnderRed(m0, root, k, t, node, parent, gparent, uncle, d) && uncle != NULL && uncle in m0 && m0[uncle].red
    ensures k.Frame? && k.up.Frame? && gparent in m && Fixing(m, root, k.up.up, t', gparent, m[gparent].parent)
    ensures SamePayload(m0, m) && Around(k.up.up, InOrder(t')) == Around(k, InOrder(t))
  {
    RedParent(m0, root, k, t, node, parent);
    TwoFrames(k, t);
    ghost var t1, u := Build(k.left, t, parent, true, k.sib), k.up.sib;
    m := FlipColours(m0, gparent, parent, uncle, d, root, k.up.up, t1, u, m0[gparent].parent);
    FlipRb(k, t);
    PaintNodes(t1, false);
    PaintNodes(u, false);
    FlipOrder(d, t1, gparent, false, true, u, Paint(t1, false), Paint(u, false));
    t' := Build(d, Paint(t1, false), gparent, true, Paint(u, false));
  }

  /** Case 3 alone. */
  method RotateStep(m0: Mem, root0: Ptr, node: Ptr, parent: Ptr, gparent: Ptr, ghost uncle: Ptr, d: bool, ghost k: Ctx, ghost t: Tree)
    returns (m: Mem, root: Ptr, ghost tree: Tree)
    requires RedUnderRed(m0, root0, k, t, node, parent, gparent, uncle, d) && (uncle != NULL ==> uncle in m0 && !m0[uncle].red)
    requires node != Child(m0[parent], !d)
    ensures Whole(m, root, tree) && SamePayload(m0, m) && InOrder(tree) == Around(k, InOrder(t))
  {
    RedParent(m0, root0, k, t, node, parent);
    TwoFrames(k, t);
    ghost var kk, gg, u := k.up.up, m0[gparent].parent, k.up.sib;
    m, root := Rotate(m0, root0, gparent, parent, d, true, false, true, kk, u, k.sib, t, gg);
    RotateRb(k, t);
    RotatedOrder(d, gparent, false, true, parent, true, false, u, k.sib, t);
    ghost var t' := Rotated(d, gparent, true, parent, false, u, k.sib, t);
    AtTop(m, root, kk, t', parent, gg);
    tree := Plug(kk, t');
  }

  /** Case 2 continued into case 3. */
  method RotateTwiceStep(m0: Mem, root0: Ptr, node: Ptr, parent: Ptr, gparent: Ptr, ghost uncle: Ptr, d: bool, ghost k: Ctx, ghost t: Tree)
    returns (m: Mem, root: Ptr, ghost tree: Tree)
    requires RedUnderRed(m0, root0, k, t, node, parent, gparent, uncle, d) && (uncle != NULL ==> uncle in m0 && !m0[uncle].red)
    requires node == Child(m0[parent], !d)
    ensures Whole(m, root, tree) && SamePayload(m0, m) && InOrder(tree) == Around(k, InOrder(t))
  {
    RedParent(m0, root0, k, t, node, parent);
    TwoFrames(k, t);
    ghost var kk, gg, s, u := k.up.up, m0[gparent].parent, k.sib, k.up.sib;
    ghost var a, b := Kid(t, d), Kid(t, !d);
    assert Build(k.left, t, parent, true, s) == Build(d, s, parent, true, Build(d, a, node, true, b));
    m, root := RotateTwice(m0, root0, gparent, parent, node, d, true, true, false, true, true, kk, u, a, b, s, gg);
    RotateTwiceRb(k, t);
    StraightenedOrder(d, gparent, false, true, parent, true, true, node, true, false, u, a, b, s);
    ghost var t' := Straightened(d, gparent, true, parent, true, node, false, u, a, b, s);
    AtTop(m, root, kk, t', node, gg);
    tree := Plug(kk, t');
  }

  /** __rb_insert: restores the red-black conditions after a red node was linked in. */
  method InsertColour(m0: Mem, root0: Ptr, node0: Ptr, ghost k0: Ctx, ghost t0: Tree)
    returns (m: Mem, root: Ptr, ghost tree: Tree)
    requires node0 in m0 && Fixing(m0, root0, k0, t0, node0, m0[node0].parent)
    ensures Whole(m, root, tree) && InOrder(tree) == Around(k0, InOrder(t0)) && SamePayload(m0, m)
  {
    m, root := m0, root0;
    var node, parent := node0, m[node0].parent;
    ghost var k, t := k0, t0;
    while true
      invariant Fixing(m, root, k, t, node, parent) && node in m
      invariant SamePayload(m0, m) && Around(k, InOrder(t)) == Around(k0, InOrder(t0))
      decreases k
    {
      if parent == NULL {
        // the node is the root
        m := SetColour(m, node, NULL, false, root, k, t);
        PaintNodes(t, false);
        t := Paint(t, false);
        AtTop(m, root, k, t, node, NULL);
        tree := Plug(k, t);
        break;
      }
      if !m[parent].red {
        AtTop(m, root, k, t, node, parent);
        tree := Plug(k, t);
        break;
      }
      RedParent(m, root, k, t, node, parent);
      var gparent := m[parent].parent;
      var d := parent != m[gparent].right;
      var uncle := Child(m[gparent], !d);
      if uncle != NULL && m[uncle].red {
        m, t := FlipStep(m, root, node, parent, gparent, uncle, d, k, t);
        k := k.up.up;
        node := gparent;
        parent := m[node].parent;
        continue;
      }
      if node == Child(m[parent], !d) {
        m, root, tree := RotateTwiceStep(m, root, node, parent, gparent, uncle, d, k, t);
      } else {
        m, root, tree := RotateStep(m, root, node, parent, gparent, uncle, d, k, t);
      }
      break;
    }
  }
}
