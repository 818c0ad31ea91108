/**
 Taking a node out of the tree: the link stores of `__rb_erase_augmented` and what they leave
 behind. A node with one child is spliced out; a node with two gives its place to its successor.
 */
module RbSplice {
  import opened RbShape
  import opened RbRotate
  import opened RbMoves
  import opened RbAdd

  // ----- finding places -----

  ghost predicate Place(m: Mem, root: Ptr, k: Ctx, t: Tree, ptr: Ptr, par: Ptr) {
    At(m, root, k, t, ptr, par) && Rb(t) && CtxRb(k, Bh(t), Red(t))
  }

  lemma {:induction false} PlaceDown(m: Mem, root: Ptr, k: Ctx, t: Tree, d: bool, ptr: Ptr, par: Ptr)
    requires Place(m, root, k, t, ptr, par) && t.Node?
    ensures ptr == t.p && ptr in m && Place(m, root, Frame(k, d, t.p, t.red, Kid(t, !d)), Kid(t, d), Child(m[ptr], d), ptr)
    ensures Around(Frame(k, d, t.p, t.red, Kid(t, !d)), InOrder(Kid(t, d))) == Around(k, InOrder(t))
  {
    AtDown(m, root, k, t, d, ptr, par);
    OrderUp(Frame(k, d, t.p, t.red, Kid(t, !d)), Kid(t, d));
  }

  /** Every task of the tree has a place. */
  lemma {:induction false} Find(m: Mem, root: Ptr, k: Ctx, t: Tree, ptr: Ptr, par: Ptr, node: Ptr)
    returns (k': Ctx, t': Tree, par': Ptr)
    requires Place(m, root, k, t, ptr, par) && node in Nodes(t)
    ensures Place(m, root, k', t', node, par') && t'.Node? && t'.p == node
    ensures Around(k', InOrder(t')) == Around(k, InOrder(t))
    decreases t
  {
    if t.p == node {
      k', t', par' := k, t, par;
    } else if node in Nodes(t.l) {
      PlaceDown(m, root, k, t, true, ptr, par);
      k', t', par' := Find(m, root, Frame(k, true, t.p, t.red, t.r), t.l, m[ptr].left, ptr, node);
    } else {
      PlaceDown(m, root, k, t, false, ptr, par);
      k', t', par' := Find(m, root, Frame(k, false, t.p, t.red, t.l), t.r, m[ptr].right, ptr, node);
    }
  }

  // ----- splicing out a node with one child -----

  /** __rb_change_child, and the child inherits parent and colour. */
  function SpliceStores(m: Mem, root: Ptr, node: Ptr, child: Ptr): Store
    requires node in m && (m[node].parent != NULL ==> m[node].parent in m) && (child != NULL ==> child in m)
  {
    var st := ChangeChild(m, root, node, child, m[node].parent);
    if child == NULL then st
    else st.(m := st.m[child := st.m[child].(parent := m[node].parent, red := m[node].red)])
  }

  predicate Spliced(m: Mem, m1: Mem, root: Ptr, root1: Ptr, node: Ptr, child: Ptr) {
    && node in m && OnlyLinks(m, m1) && Touches(m, m1, {child, m[node].parent})
    && Relinked(m, m1, root, root1, m[node].parent, node, child)
    && (child != NULL ==> child in m && m1[child].left == m[child].left && m1[child].right == m[child].right
                          && m1[child].parent == m[node].parent && m1[child].red == m[node].red)
  }

  lemma SpliceStoresOk(m: Mem, root: Ptr, node: Ptr, child: Ptr)
    requires NULL !in m && node in m && (m[node].parent != NULL ==> m[node].parent in m)
    requires child != NULL ==> child in m && child != m[node].parent
    ensures Spliced(m, SpliceStores(m, root, node, child).m, root, SpliceStores(m, root, node, child).root, node, child)
  {
  }

  /** `t` has only the subtree `c`, on side `e`. */
  predicate OneChild(t: Tree, e: bool, c: Tree) {
    t.Node? && Kid(t, e) == c && Kid(t, !e).Leaf?
  }

  lemma {:induction false} SpliceLocated(m: Mem, m1: Mem, root: Ptr, root1: Ptr, k: Ctx, t: Tree, e: bool, c: Tree, node: Ptr, par: Ptr)
    requires NULL !in m && Located(m, root, k, t, node, par) && OneChild(t, e, c) && node in m
    requires Spliced(m, m1, root, root1, node, Child(m[node], e))
    ensures Located(m1, root1, k, Paint(c, t.red), Child(m[node], e), par)
    ensures Nodes(t) == Nodes(c) + {node} && (k.Frame? ==> par in CtxNodes(k)) && CtxNodes(k) <= m.Keys && Nodes(c) <= m.Keys
    ensures node !in CtxNodes(k) && node !in Nodes(c)
  {
    ReprBuild(m, e, c, node, t.red, Leaf, par);
    assert t == Build(e, c, node, t.red, Leaf);
    ReprNodes(m, t, node, par);
    ReprCtxNodes(m, root, NULL, k, node, par);
    var child := Child(m[node], e);
    assert child == NULL || child in Nodes(c);
    assert k.Frame? ==> par in CtxNodes(k);
    ReprMove(m, m1, c, child, node, par, t.red);
    PieceRetarget(m, m1, root, root1, k, node, child, par, {child, par});
    PaintNodes(c, t.red);
  }

  /** The parent of the spliced-out node caches a minimum that may still count it. */
  lemma {:induction false} SpliceStale(m: Mem, m1: Mem, root1: Ptr, k: Ctx, t: Tree, sub: Tree, ptr: Ptr, par: Ptr)
    requires NULL !in m && OnlyLinks(m, m1) && k.Frame? && AugCtx(m, k, Nodes(t)) && Aug(m, sub) && Nodes(t) <= m.Keys
    requires Nodes(sub) <= m.Keys && CtxNodes(k) <= m.Keys
    requires Located(m1, root1, k, sub, ptr, par)
    ensures Stale(m1, root1, NULL, k.up, Build(k.left, sub, k.p, k.red, k.sib), par, Nodes(t) + {k.p} + Nodes(k.sib))
  {
    AugCtxKeep(m, m1, k, Nodes(t));
    AugKeep(m, m1, sub);
    ReprCtxNodes(m1, root1, NULL, k, ptr, par);
    ReprNodes(m1, sub, ptr, par);
    StaleUp(m1, root1, NULL, k, sub, ptr, par, Nodes(t));
  }

  /** Case 1 of the erasure: `node` has at most the child on side `e`. */
  method SpliceOut(m0: Mem, root0: Ptr, node: Ptr, child: Ptr, e: bool, ghost k: Ctx, ghost t: Tree, ghost par: Ptr)
    returns (m: Mem, root: Ptr)
    requires At(m0, root0, k, t, node, par) && t.Node? && OneChild(t, e, Kid(t, e)) && node in m0 && child == Child(m0[node], e)
    ensures At(m, root, k, Paint(Kid(t, e), t.red), child, par) && SamePayload(m0, m)
  {
    ghost var c := Kid(t, e);
    AtDown(m0, root0, k, t, e, node, par);
    ReprCtxNodes(m0, root0, NULL, k, node, par);
    ReprNodes(m0, t, node, par);
    assert k.Frame? ==> par in CtxNodes(k);
    assert child == NULL || child in Nodes(c);
    SpliceStoresOk(m0, root0, node, child);
    var st := SpliceStores(m0, root0, node, child);
    ghost var sub := Paint(c, t.red);
    SpliceLocated(m0, st.m, root0, st.root, k, t, e, c, node, par);
    PaintNodes(c, t.red);
    AugPaint(m0, c, t.red);
    m, root := SplicePropagate(m0, st.m, st.root, m0[node].parent, k, t, sub, child);
  }

  /** propagate(parent, NULL) after a splice. */
  method SplicePropagate(ghost m0: Mem, m1: Mem, root1: Ptr, parent: Ptr, ghost k: Ctx, ghost t: Tree, ghost sub: Tree, ghost ptr: Ptr)
    returns (m: Mem, root: Ptr)
    requires NULL !in m0 && OnlyLinks(m0, m1) && AugCtx(m0, k, Nodes(t)) && Aug(m0, sub) && Nodes(t) <= m0.Keys
    requires Nodes(sub) <= m0.Keys && CtxNodes(k) <= m0.Keys
    requires Located(m1, root1, k, sub, ptr, parent) && (parent != NULL <==> k.Frame?)
    ensures At(m, root, k, sub, ptr, parent) && SamePayload(m0, m)
  {
    m, root := m1, root1;
    if parent != NULL {
      SpliceStale(m0, m1, root1, k, t, sub, ptr, parent);
      ghost var t1 := Build(k.left, sub, k.p, k.red, k.sib);
      m := Propagate(m1, parent, NULL, root1, k.up, t1, Nodes(t) + {k.p} + Nodes(k.sib));
      LocatedKeep(m1, m, root, k, sub, ptr, parent);
      AugDown(m, k.up, t1, k.left);
      assert Kid(t1, k.left) == sub && Frame(k.up, k.left, t1.p, t1.red, Kid(t1, !k.left)) == k;
    } else {
      AugKeep(m0, m1, sub);
    }
  }
}
