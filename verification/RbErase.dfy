/**
 Erasure of a node with two children: the walk to its successor, and the successor taking its place
 with every cached minimum on the way.
 */
module RbErase {
  import opened RbShape
  import opened RbRotate
  import opened RbMoves
  import opened RbAdd
  import opened RbSplice

  // ----- the successor takes the place of a node with two children -----

  /** Task `s` has the place of `node`, whose own links no longer matter. */
  predicate Replaced(m: Mem, m1: Mem, root: Ptr, root1: Ptr, node: Ptr, s: Ptr) {
    && node in m && s in m && s in m1
    && HasLinks(m1[s], true, m[node].left, m[node].right, m[node].parent, m[node].red)
    && Adopted(m, m1, m[node].left, s) && Adopted(m, m1, m[node].right, s)
    && Relinked(m, m1, root, root1, m[node].parent, node, s)
    && Touches(m, m1, {s, node, m[node].left, m[node].right, m[node].parent})
  }

  lemma {:induction false} ReplaceLocated(m: Mem, m1: Mem, root: Ptr, root1: Ptr, k: Ctx, l: Tree, r: Tree, red: bool, node: Ptr, s: Ptr, par: Ptr)
    requires Located(m, root, k, Node(l, node, red, r), node, par) && s != node && s != NULL
    requires s !in Nodes(l) && s !in Nodes(r) && s !in CtxNodes(k) && Replaced(m, m1, root, root1, node, s)
    ensures Located(m1, root1, k, Node(l, s, red, r), s, par)
  {
    ReprBuild(m, true, l, node, red, r, par);
    ReprNodes(m, l, m[node].left, node);
    ReprNodes(m, r, m[node].right, node);
    ReprCtxNodes(m, root, NULL, k, node, par);
    var touched := {s, node, m[node].left, m[node].right, par};
    assert m[node].left == NULL || m[node].left in Nodes(l);
    assert m[node].right == NULL || m[node].right in Nodes(r);
    assert par == NULL || par in CtxNodes(k);
    PieceMove(m, m1, l, m[node].left, node, s, touched);
    PieceMove(m, m1, r, m[node].right, node, s, touched);
    PieceRetarget(m, m1, root, root1, k, node, s, par, touched);
    ReprBuild(m1, true, l, s, red, r, par);
  }

  /** The pointers the stores touch: `s` is the leftmost node right of `node`, and `parent` is its parent, or `s`
      itself when it is the right child of `node`. */
  predicate TwoShape(m: Mem, node: Ptr, s: Ptr, parent: Ptr) {
    && NULL !in m && node in m && s in m && parent in m && m[node].left in m && m[node].right in m && node != s
    && m[s].left == NULL && (parent == s <==> m[node].right == s)
    && m[s].parent == (if parent == s then node else parent)
    && (parent != s ==> m[parent].left == s && parent != node && m[m[node].right].parent == node)
    && m[m[node].left].parent == node
    && Unlike(m[node].left, node, s, parent, m[node].right, m[s].right, m[node].parent)
    && m[node].right != node && m[node].right != m[s].right && m[node].right != m[node].parent
    && (m[s].right != NULL ==> m[s].right in m && !m[s].red && Unlike(m[s].right, node, s, parent, node, s, m[node].parent))
    && (m[node].parent != NULL ==> m[node].parent in m && Unlike(m[node].parent, node, s, parent, node, s, parent))
  }

  predicate Unlike(p: Ptr, a: Ptr, b: Ptr, c: Ptr, d: Ptr, e: Ptr, f: Ptr) {
    p != a && p != b && p != c && p != d && p != e && p != f
  }

  /** The first stores: the successor leaves its place. The store to its only child is placed here, before the
      propagations, which do not read it. */
  function LeaveStores(m: Mem, node: Ptr, s: Ptr, parent: Ptr): Mem
    requires TwoShape(m, node, s, parent)
  {
    var child, child2 := m[node].right, m[s].right;
    var m0 := if child2 != NULL then m[child2 := m[child2].(parent := parent, red := false)] else m;
    if parent == s then m0
    else
      var m1 := m0[parent := m0[parent].(left := child2)];
      var m2 := m1[s := m1[s].(right := child)];
      m2[child := m2[child].(parent := s)]
  }

  /** The remaining stores: the successor takes the place of `node`. */
  function TakeStores(m: Mem, root: Ptr, node: Ptr, s: Ptr): Store
    requires NULL !in m && node in m && s in m && node != s && m[node].left in m && m[node].left != node && m[node].left != s
    requires m[node].parent != NULL ==> m[node].parent in m && m[node].parent != s && m[node].parent != node
  {
    var tmp := m[node].left;
    var m4 := m[s := m[s].(left := tmp)];
    var m5 := m4[tmp := m4[tmp].(parent := s)];
    var st := ChangeChild(m5, root, node, s, m5[node].parent);
    Store(st.m[s := st.m[s].(parent := m5[node].parent, red := m5[node].red)], st.root)
  }

  /** What the first stores leave behind, for every task but `node`, compared with splicing out `s`. */
  predicate Left(m: Mem, g: Mem, f: Mem, node: Ptr, s: Ptr, parent: Ptr) {
    && g.Keys == m.Keys == f.Keys && node in m && s in m
    && SameLinks(f[node], m[node]) && f[s].right == g[node].right && f[s].left == NULL
    && g[node].left == m[node].left && g[node].parent == m[node].parent && g[node].red == m[node].red
    && Adopted(g, f, g[node].right, s)
    && forall q :: q in m && q != node && q != s && q != g[node].right ==> SameLinks(g[q], f[q])
  }

  lemma LeaveOk(m: Mem, root: Ptr, node: Ptr, s: Ptr, parent: Ptr)
    requires TwoShape(m, node, s, parent)
    ensures Left(m, SpliceStores(m, root, s, m[s].right).m, LeaveStores(m, node, s, parent), node, s, parent)
  {
  }

  lemma LeaveOnlyLinks(m: Mem, node: Ptr, s: Ptr, parent: Ptr)
    requires TwoShape(m, node, s, parent)
    ensures OnlyLinks(m, LeaveStores(m, node, s, parent))
  {
  }

  lemma TakeOk(m: Mem, root: Ptr, node: Ptr, s: Ptr)
    requires NULL !in m && node in m && s in m && node != s && m[node].left in m && m[node].left != node && m[node].left != s
    requires m[node].parent != NULL ==> m[node].parent in m && m[node].parent != s && m[node].parent != node && m[node].parent != m[node].left
    ensures var st := TakeStores(m, root, node, s);
            && OnlyLinks(m, st.m) && HasLinks(st.m[s], true, m[node].left, m[s].right, m[node].parent, m[node].red)
            && Adopted(m, st.m, m[node].left, s) && Relinked(m, st.m, root, st.root, m[node].parent, node, s)
            && Touches(m, st.m, {s, m[node].left, m[node].parent})
  {
  }

  lemma TwoReplaced(m: Mem, g: Mem, f: Mem, m2: Mem, root: Ptr, root2: Ptr, node: Ptr, s: Ptr, parent: Ptr)
    requires TwoShape(m, node, s, parent) && Left(m, g, f, node, s, parent) && NULL !in g && node in f && s in f && s in m2
    requires g[node].right == NULL || (g[node].right in g && g[node].right != m[node].left && g[node].right != m[node].parent)
    requires g[node].right != node && g[node].right != s
    requires HasLinks(m2[s], true, f[node].left, f[s].right, f[node].parent, f[node].red)
    requires Adopted(f, m2, f[node].left, s) && Relinked(f, m2, root, root2, f[node].parent, node, s)
    requires Touches(f, m2, {s, f[node].left, f[node].parent})
    ensures Replaced(g, m2, root, root2, node, s)
  {
    var tmp, p, c := m[node].left, m[node].parent, g[node].right;
    assert SameLinks(g[tmp], f[tmp]);
    assert p != NULL ==> SameLinks(g[p], f[p]);
    assert c != NULL ==> SameLinks(f[c], m2[c]);
  }

  /** The way from the right child of `node`, always left, to the successor `s` with subtree `sub`. */
  ghost predicate SuccPath(m: Mem, root: Ptr, k: Ctx, l: Tree, r: Tree, red: bool, node: Ptr,
                           ki: Ctx, sub: Tree, s: Ptr, parent: Ptr) {
    && s in m && node in m && Place(m, root, Append(ki, Frame(k, false, node, red, l)), sub, s, m[s].parent)
    && sub.Node? && sub.p == s && Plug(ki, sub) == r
    && ReprCtx(m, m[node].right, node, ki, s, m[s].parent) && Before(ki) == [] && (ki.Frame? ==> ki.left)
    && parent == (if ki.Top? then s else ki.p)
  }

  lemma {:induction false} SuccStep(m: Mem, root: Ptr, k: Ctx, l: Tree, r: Tree, red: bool, node: Ptr,
                                    ki: Ctx, sub: Tree, s: Ptr, parent: Ptr)
    requires SuccPath(m, root, k, l, r, red, node, ki, sub, s, parent) && m[s].left != NULL
    ensures sub.l.Node? && m[s].left in m
    ensures SuccPath(m, root, k, l, r, red, node, Frame(ki, true, s, sub.red, sub.r), sub.l, m[s].left, s)
  {
    var big := Append(ki, Frame(k, false, node, red, l));
    PlaceDown(m, root, big, sub, true, s, m[s].parent);
    var ki' := Frame(ki, true, s, sub.red, sub.r);
    assert Append(ki', Frame(k, false, node, red, l)) == Frame(big, true, s, sub.red, sub.r);
    AtDown(m, root, Frame(big, true, s, sub.red, sub.r), sub.l, true, m[s].left, s);
    AppendNodes(ki, Frame(k, false, node, red, l));
    ReprBuild(m, true, sub.l, s, sub.red, sub.r, m[s].parent);
  }

  /** The loop that looks for the successor. */
  method Successor(m: Mem, ghost root: Ptr, node: Ptr, ghost k: Ctx, ghost t: Tree, ghost par: Ptr)
    returns (s: Ptr, parent: Ptr, ghost ki: Ctx, ghost sub: Tree)
    requires Place(m, root, k, t, node, par) && t.Node? && t.r.Node? && node in m
    ensures SuccPath(m, root, k, t.l, t.r, t.red, node, ki, sub, s, parent) && m[s].left == NULL && sub.l.Leaf?
  {
    PlaceDown(m, root, k, t, false, node, par);
    s := m[node].right;
    parent := s;
    ki, sub := Top, t.r;
    AtDown(m, root, Frame(k, false, node, t.red, t.l), t.r, true, s, node);
    var tmp := m[s].left;
    while tmp != NULL
      invariant SuccPath(m, root, k, t.l, t.r, t.red, node, ki, sub, s, parent) && tmp == m[s].left
      decreases sub
    {
      SuccStep(m, root, k, t.l, t.r, t.red, node, ki, sub, s, parent);
      ki, sub := Frame(ki, true, s, sub.red, sub.r), sub.l;
      parent := s;
      s := tmp;
      tmp := m[tmp].left;
    }
    ReprBuild(m, true, sub.l, s, sub.red, sub.r, m[s].parent);
  }

  lemma {:induction false} CtxTop(m: Mem, top: Ptr, topPar: Ptr, k: Ctx, ptr: Ptr, par: Ptr)
    requires ReprCtx(m, top, topPar, k, ptr, par) && k.Frame?
    ensures top in CtxNodes(k) && top in m && m[top].parent == topPar && par in CtxNodes(k)
    decreases k
  {
    if k.up.Frame? {
      CtxTop(m, top, topPar, k.up, par, m[par].parent);
    }
  }

  /** How the successor's pieces lie in the tree. */
  lemma {:induction false} SuccApart(m: Mem, root: Ptr, k: Ctx, t: Tree, node: Ptr, par: Ptr, ki: Ctx, sub: Tree, s: Ptr, parent: Ptr)
    requires Place(m, root, k, t, node, par) && t.Node? && node in m
    requires SuccPath(m, root, k, t.l, t.r, t.red, node, ki, sub, s, parent)
    ensures Nodes(t.r) == CtxNodes(ki) + Nodes(sub) && CtxNodes(ki) !! Nodes(sub)
    ensures node !in Nodes(t.l) && node !in Nodes(t.r) && node !in CtxNodes(k)
    ensures Nodes(t.l) !! Nodes(t.r) && Nodes(t.l) !! CtxNodes(k) && Nodes(t.r) !! CtxNodes(k)
    ensures NULL !in Nodes(t.l) && NULL !in Nodes(t.r) && NULL !in CtxNodes(k) && Nodes(t) <= m.Keys && CtxNodes(k) <= m.Keys
    ensures m[node].parent == par && (par == NULL || par in CtxNodes(k)) && m[node].red == t.red
    ensures Repr(m, t.l, m[node].left, node) && Repr(m, t.r, m[node].right, node)
    ensures Repr(m, sub.r, m[s].right, s) && s !in Nodes(sub.r)
  {
    ReprBuild(m, true, t.l, node, t.red, t.r, par);
    ReprNodes(m, t, node, par);
    ReprCtxNodes(m, root, NULL, k, node, par);
    PlugNodes(ki, sub);
    AppendNodes(ki, Frame(k, false, node, t.red, t.l));
    ReprBuild(m, true, sub.l, s, sub.red, sub.r, m[s].parent);
  }

  lemma {:induction false} SuccShape(m: Mem, root: Ptr, k: Ctx, t: Tree, node: Ptr, par: Ptr, ki: Ctx, sub: Tree, s: Ptr, parent: Ptr)
    requires Place(m, root, k, t, node, par) && t.Node? && t.l.Node? && t.r.Node? && node in m
    requires SuccPath(m, root, k, t.l, t.r, t.red, node, ki, sub, s, parent) && m[s].left == NULL && sub.l.Leaf?
    ensures TwoShape(m, node, s, parent)
  {
    SuccApart(m, root, k, t, node, par, ki, sub, s, parent);
    assert m[node].left in Nodes(t.l) && s in Nodes(sub);
    assert m[s].right == NULL || (m[s].right in Nodes(sub.r) && m[s].right in Nodes(sub));
    assert m[node].right in Nodes(t.r);
    if ki.Frame? {
      CtxTop(m, m[node].right, node, ki, s, m[s].parent);
    }
    if m[s].right != NULL {
      assert Bh(sub.r) == 0 && Rb(sub.r);
    }
  }

  lemma {:induction false} LocatedPlugUp(m: Mem, root: Ptr, ki: Ctx, outer: Ctx, t: Tree, ptr: Ptr, par: Ptr)
    returns (ptr': Ptr, par': Ptr)
    requires Located(m, root, Append(ki, outer), t, ptr, par)
    ensures Located(m, root, outer, Plug(ki, t), ptr', par')
    decreases ki
  {
    if ki.Top? {
      ptr', par' := ptr, par;
    } else {
      LocatedUp(m, root, Append(ki, outer), t, ptr, par);
      ptr', par' := LocatedPlugUp(m, root, ki.up, outer, Build(ki.left, t, ki.p, ki.red, ki.sib), par, m[par].parent);
    }
  }

  /** After all link stores the successor, with the colour and subtrees of `node`, is at its place. */
  lemma {:induction false} TwoLocated(m: Mem, g: Mem, m2: Mem, root: Ptr, root2: Ptr, k: Ctx, t: Tree, node: Ptr, par: Ptr,
                                      ki: Ctx, sub: Tree, s: Ptr, parent: Ptr)
    requires Place(m, root, k, t, node, par) && t.Node? && node in m
    requires SuccPath(m, root, k, t.l, t.r, t.red, node, ki, sub, s, parent) && sub.l.Leaf?
    requires Spliced(m, g, root, root, s, m[s].right) && Replaced(g, m2, root, root2, node, s)
    ensures Located(m2, root2, k, Node(t.l, s, t.red, Plug(ki, Paint(sub.r, sub.red))), s, par)
  {
    var outer := Frame(k, false, node, t.red, t.l);
    var c := Paint(sub.r, sub.red);
    SuccApart(m, root, k, t, node, par, ki, sub, s, parent);
    SpliceLocated(m, g, root, root, Append(ki, outer), sub, false, sub.r, s, m[s].parent);
    var p1, q1 := LocatedPlugUp(g, root, ki, outer, c, m[s].right, m[s].parent);
    LocatedUp(g, root, outer, Plug(ki, c), p1, q1);
    PlugNodes(ki, c);
    PaintNodes(sub.r, sub.red);
    assert s in Nodes(sub) && s !in Nodes(sub.r);
    ReplaceLocated(g, m2, root, root2, k, t.l, Plug(ki, c), t.red, node, s, g[node].parent);
    assert g[node].parent == par;
  }

  // ----- cached minima when the successor moves -----

  lemma {:induction false} PlugReprInv(m: Mem, k: Ctx, t: Tree, top: Ptr, topPar: Ptr) returns (ptr: Ptr, par: Ptr)
    requires Repr(m, Plug(k, t), top, topPar)
    ensures ReprCtx(m, top, topPar, k, ptr, par) && Repr(m, t, ptr, par) && Nodes(t) !! CtxNodes(k)
    decreases k
  {
    if k.Top? {
      ptr, par := top, topPar;
    } else {
      var p1, q1 := PlugReprInv(m, k.up, Build(k.left, t, k.p, k.red, k.sib), top, topPar);
      ReprBuild(m, k.left, t, k.p, k.red, k.sib, q1);
      ptr, par := Child(m[p1], k.left), p1;
    }
  }

  lemma {:induction false} AppendAugInv(m: Mem, k: Ctx, outer: Ctx, s: set<Ptr>)
    requires AugCtx(m, Append(k, outer), s)
    ensures AugCtx(m, k, s) && AugCtx(m, outer, s + CtxNodes(k))
    decreases k
  {
    if k.Frame? {
      var s' := s + {k.p} + Nodes(k.sib);
      AppendAugInv(m, k.up, outer, s');
      assert s' + CtxNodes(k.up) == s + CtxNodes(k);
    } else {
      assert s + CtxNodes(k) == s;
    }
  }

  /** The memory after the links were stored and the cached minimum of `node` was copied to the successor. */
  ghost predicate Moved(m: Mem, m3: Mem, root3: Ptr, k: Ctx, t: Tree, node: Ptr, par: Ptr, ki: Ctx, sub: Tree, s: Ptr) {
    && t.Node? && sub.Node? && NULL !in m && node in m && s in m && SamePayload(m, m3) && m3[s].minVruntime == m[node].minVruntime
    && (forall q :: q in m && q != s ==> m3[q].minVruntime == m[q].minVruntime)
    && Located(m3, root3, k, Node(t.l, s, t.red, Plug(ki, Paint(sub.r, sub.red))), s, par)
  }

  lemma {:induction false} InnerStale(m: Mem, m3: Mem, root: Ptr, root3: Ptr, k: Ctx, t: Tree, node: Ptr, par: Ptr,
                                      ki: Ctx, sub: Tree, s: Ptr, parent: Ptr)
    requires Place(m, root, k, t, node, par) && t.Node? && node in m
    requires SuccPath(m, root, k, t.l, t.r, t.red, node, ki, sub, s, parent) && sub.l.Leaf? && ki.Frame?
    requires Moved(m, m3, root3, k, t, node, par, ki, sub, s)
    ensures Stale(m3, m3[s].right, s, ki.up, Build(ki.left, Paint(sub.r, sub.red), ki.p, ki.red, ki.sib), parent,
                  Nodes(sub) + {ki.p} + Nodes(ki.sib))
  {
    var c := Paint(sub.r, sub.red);
    SuccApart(m, root, k, t, node, par, ki, sub, s, parent);
    AppendAugInv(m, ki, Frame(k, false, node, t.red, t.l), Nodes(sub));
    assert s in Nodes(sub);
    PaintNodes(sub.r, sub.red);
    assert Aug(m3, c) by {
      AugKeep(m, m3, sub.r);
      AugPaint(m3, sub.r, sub.red);
    }
    AugCtxKeep(m, m3, ki, Nodes(sub));
    ReprBuild(m3, true, t.l, s, t.red, Plug(ki, c), par);
    var ptr, par' := PlugReprInv(m3, ki, c, m3[s].right, s);
    StaleUp(m3, m3[s].right, s, ki, c, ptr, par', Nodes(sub));
  }

  lemma {:induction false} OuterStale(m: Mem, m3: Mem, m4: Mem, root: Ptr, root3: Ptr, k: Ctx, t: Tree, node: Ptr, par: Ptr,
                                      ki: Ctx, sub: Tree, s: Ptr, parent: Ptr)
    requires Place(m, root, k, t, node, par) && t.Node? && node in m
    requires SuccPath(m, root, k, t.l, t.r, t.red, node, ki, sub, s, parent) && sub.l.Leaf?
    requires Moved(m, m3, root3, k, t, node, par, ki, sub, s)
    requires OnlyMins(m3, m4, Nodes(sub.r) + CtxNodes(ki)) && Aug(m4, Plug(ki, Paint(sub.r, sub.red)))
    ensures Stale(m4, root3, NULL, k, Node(t.l, s, t.red, Plug(ki, Paint(sub.r, sub.red))), s, Nodes(t))
    ensures SamePayload(m, m4) && m4[s].parent == par
  {
    var t' := Node(t.l, s, t.red, Plug(ki, Paint(sub.r, sub.red)));
    SuccApart(m, root, k, t, node, par, ki, sub, s, parent);
    assert s in Nodes(sub);
    LocatedKeep(m3, m4, root3, k, t', s, par);
    ReprNodes(m4, t', s, par);
    ReprCtxNodes(m4, root3, NULL, k, s, par);
    AugKeep(m, m4, t.l);
    IsMinKeep(m, m4, Nodes(t), m[node].minVruntime);
    AugCtxKeep(m, m4, k, Nodes(t));
  }

  /** propagate(parent, successor), which case 2 does not need. */
  method InnerPropagate(m3: Mem, s: Ptr, parent: Ptr, ghost m0: Mem, ghost root0: Ptr, ghost root: Ptr, ghost node: Ptr,
                        ghost k: Ctx, ghost t: Tree, ghost par: Ptr, ghost ki: Ctx, ghost sub: Tree) returns (m: Mem)
    requires Place(m0, root0, k, t, node, par) && t.Node? && node in m0
    requires SuccPath(m0, root0, k, t.l, t.r, t.red, node, ki, sub, s, parent) && sub.l.Leaf?
    requires Moved(m0, m3, root, k, t, node, par, ki, sub, s)
    ensures OnlyMins(m3, m, Nodes(sub.r) + CtxNodes(ki)) && Aug(m, Plug(ki, Paint(sub.r, sub.red)))
  {
    if parent != s {
      ghost var c := Paint(sub.r, sub.red);
      InnerStale(m0, m3, root0, root, k, t, node, par, ki, sub, s, parent);
      ghost var t1 := Build(ki.left, c, ki.p, ki.red, ki.sib);
      m := Propagate(m3, parent, s, m3[s].right, ki.up, t1, Nodes(sub) + {ki.p} + Nodes(ki.sib));
      InnerDone(m, ki, sub.r, sub.red);
    } else {
      NoInner(m0, m3, root0, root, k, t, node, par, ki, sub, s, parent);
      m := m3;
    }
  }

  /** propagate(successor, NULL). */
  method OuterPropagate(m4: Mem, s: Ptr, ghost root: Ptr, ghost k: Ctx, ghost t': Tree, ghost a: set<Ptr>) returns (m: Mem)
    requires s != NULL && Stale(m4, root, NULL, k, t', s, a)
    ensures At(m, root, k, t', s, m4[s].parent) && SamePayload(m4, m)
  {
    m := Propagate(m4, s, NULL, root, k, t', a);
    LocatedKeep(m4, m, root, k, t', s, m4[s].parent);
  }

  /** Cases 2 and 3 of the erasure, with both propagations. */
  method EraseTwo(m0: Mem, root0: Ptr, node: Ptr, s: Ptr, parent: Ptr, ghost k: Ctx, ghost t: Tree, ghost par: Ptr,
                  ghost ki: Ctx, ghost sub: Tree) returns (m: Mem, root: Ptr)
    requires Place(m0, root0, k, t, node, par) && t.Node? && t.l.Node? && t.r.Node? && node in m0
    requires SuccPath(m0, root0, k, t.l, t.r, t.red, node, ki, sub, s, parent) && m0[s].left == NULL && sub.l.Leaf?
    ensures At(m, root, k, Node(t.l, s, t.red, Plug(ki, Paint(sub.r, sub.red))), s, par) && SamePayload(m0, m)
  {
    SuccShape(m0, root0, k, t, node, par, ki, sub, s, parent);
    m, root := TwoLinks(m0, root0, node, s, parent, k, t, par, ki, sub);
    // augment->copy
    CopyMoved(m0, m, root, k, t, node, par, ki, sub, s);
    m := WithMin(m, s, m[node].minVruntime);
    ghost var m3 := m;
    m := InnerPropagate(m, s, parent, m0, root0, root, node, k, t, par, ki, sub);
    OuterStale(m0, m3, m, root0, root, k, t, node, par, ki, sub, s, parent);
    m := OuterPropagate(m, s, root, k, Node(t.l, s, t.red, Plug(ki, Paint(sub.r, sub.red))), Nodes(t));
  }

  lemma {:induction false} InnerDone(m: Mem, ki: Ctx, u: Tree, red: bool)
    requires ki.Frame?
    requires var t1 := Build(ki.left, Paint(u, red), ki.p, ki.red, ki.sib); Aug(m, t1) && AugCtx(m, ki.up, Nodes(t1))
    ensures Aug(m, Plug(ki, Paint(u, red)))
    ensures Nodes(Build(ki.left, Paint(u, red), ki.p, ki.red, ki.sib)) + CtxNodes(ki.up) == Nodes(u) + CtxNodes(ki)
  {
    PlugAug(m, ki.up, Build(ki.left, Paint(u, red), ki.p, ki.red, ki.sib));
    PaintNodes(u, red);
    BuildOrder(ki.left, Paint(u, red), ki.p, ki.red, ki.sib);
  }

  /** Case 2 has nothing to propagate below the successor. */
  lemma {:induction false} NoInner(m: Mem, m3: Mem, root: Ptr, root3: Ptr, k: Ctx, t: Tree, node: Ptr, par: Ptr,
                                   ki: Ctx, sub: Tree, s: Ptr, parent: Ptr)
    requires Place(m, root, k, t, node, par) && t.Node? && node in m
    requires SuccPath(m, root, k, t.l, t.r, t.red, node, ki, sub, s, parent) && sub.l.Leaf? && parent == s
    requires Moved(m, m3, root3, k, t, node, par, ki, sub, s)
    ensures Aug(m3, Plug(ki, Paint(sub.r, sub.red))) && OnlyMins(m3, m3, Nodes(sub.r) + CtxNodes(ki)) && ki.Top?
  {
    NoInnerTop(m, root, k, t, node, par, ki, sub, s, parent);
    NoInnerAug(m, m3, root, root3, k, t, node, par, ki, sub, s, parent);
  }

  lemma {:induction false} NoInnerTop(m: Mem, root: Ptr, k: Ctx, t: Tree, node: Ptr, par: Ptr, ki: Ctx, sub: Tree, s: Ptr, parent: Ptr)
    requires Place(m, root, k, t, node, par) && t.Node? && node in m
    requires SuccPath(m, root, k, t.l, t.r, t.red, node, ki, sub, s, parent) && sub.l.Leaf? && parent == s
    ensures ki.Top?
  {
    SuccApart(m, root, k, t, node, par, ki, sub, s, parent);
    assert s in Nodes(sub);
    if ki.Frame? {
      CtxTop(m, m[node].right, node, ki, s, m[s].parent);
    }
  }

  lemma {:induction false} NoInnerAug(m: Mem, m3: Mem, root: Ptr, root3: Ptr, k: Ctx, t: Tree, node: Ptr, par: Ptr,
                                      ki: Ctx, sub: Tree, s: Ptr, parent: Ptr)
    requires Place(m, root, k, t, node, par) && t.Node? && node in m && ki.Top?
    requires SuccPath(m, root, k, t.l, t.r, t.red, node, ki, sub, s, parent) && sub.l.Leaf? && parent == s
    requires Moved(m, m3, root3, k, t, node, par, ki, sub, s)
    ensures Aug(m3, Paint(sub.r, sub.red))
  {
    SuccApart(m, root, k, t, node, par, ki, sub, s, parent);
    AugKeep(m, m3, sub.r);
    AugPaint(m3, sub.r, sub.red);
  }

  lemma {:induction false} CopyMoved(m: Mem, m2: Mem, root2: Ptr, k: Ctx, t: Tree, node: Ptr, par: Ptr, ki: Ctx, sub: Tree, s: Ptr)
    requires t.Node? && sub.Node? && NULL !in m && node in m && s in m && OnlyLinks(m, m2) && s in m2 && node in m2
    requires Located(m2, root2, k, Node(t.l, s, t.red, Plug(ki, Paint(sub.r, sub.red))), s, par)
    ensures Moved(m, WithMin(m2, s, m2[node].minVruntime), root2, k, t, node, par, ki, sub, s)
  {
    var t' := Node(t.l, s, t.red, Plug(ki, Paint(sub.r, sub.red)));
    LocatedKeep(m2, WithMin(m2, s, m2[node].minVruntime), root2, k, t', s, par);
  }

  /** All link stores of cases 2 and 3. */
  method TwoLinks(m0: Mem, root0: Ptr, node: Ptr, s: Ptr, parent: Ptr, ghost k: Ctx, ghost t: Tree, ghost par: Ptr,
                  ghost ki: Ctx, ghost sub: Tree) returns (m: Mem, root: Ptr)
    requires Place(m0, root0, k, t, node, par) && t.Node? && node in m0 && TwoShape(m0, node, s, parent)
    requires SuccPath(m0, root0, k, t.l, t.r, t.red, node, ki, sub, s, parent) && sub.l.Leaf?
    ensures OnlyLinks(m0, m) && Located(m, root, k, Node(t.l, s, t.red, Plug(ki, Paint(sub.r, sub.red))), s, par)
  {
    LeaveOk(m0, root0, node, s, parent);
    LeaveOnlyLinks(m0, node, s, parent);
    m := LeaveStores(m0, node, s, parent);
    TakeOk(m, root0, node, s);
    ghost var f := m;
    var st := TakeStores(m, root0, node, s);
    m, root := st.m, st.root;
    SpliceStoresOk(m0, root0, s, m0[s].right);
    ghost var g := SpliceStores(m0, root0, s, m0[s].right);
    assert g.m[node].right == if parent == s then m0[s].right else m0[node].right;
    TwoReplaced(m0, g.m, f, m, root0, root, node, s, parent);
    TwoLocated(m0, g.m, m, root0, root, k, t, node, par, ki, sub, s, parent);
  }
}
