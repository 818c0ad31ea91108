/**
 The moves rebalancing is made of, as stores into the memory of tasks: repaint a node, rotate once,
 rotate twice. Each keeps the tree at its place with every cached minimum right.
 */
module RbMoves {
  import opened RbShape
  import opened RbRotate

  /** Tree `t` sits at the hole of `k`, with every cached minimum right. */
  ghost predicate At(m: Mem, root: Ptr, k: Ctx, t: Tree, ptr: Ptr, par: Ptr) {
    NULL !in m && Located(m, root, k, t, ptr, par) && Aug(m, t) && AugCtx(m, k, Nodes(t))
  }

  /** A whole augmented red-black tree. */
  ghost predicate Whole(m: Mem, root: Ptr, t: Tree) {
    NULL !in m && Repr(m, t, root, NULL) && Rb(t) && !Red(t) && Aug(m, t)
  }

  lemma {:induction false} AtUp(m: Mem, root: Ptr, k: Ctx, t: Tree, ptr: Ptr, par: Ptr)
    requires At(m, root, k, t, ptr, par) && k.Frame?
    ensures par == k.p && par in m && par != NULL && Child(m[par], k.left) == ptr && m[par].red == k.red
    ensures At(m, root, k.up, Build(k.left, t, k.p, k.red, k.sib), par, m[par].parent)
  {
    LocatedUp(m, root, k, t, ptr, par);
    AugUp(m, k, t);
  }

  lemma {:induction false} AtDown(m: Mem, root: Ptr, k: Ctx, t: Tree, d: bool, ptr: Ptr, par: Ptr)
    requires At(m, root, k, t, ptr, par) && t.Node?
    ensures ptr == t.p && ptr in m && ptr != NULL && m[ptr].red == t.red && m[ptr].parent == par
    ensures At(m, root, Frame(k, d, t.p, t.red, Kid(t, !d)), Kid(t, d), Child(m[ptr], d), ptr)
  {
    LocatedDown(m, root, k, t, d, ptr, par);
    AugDown(m, k, t, d);
  }

  /** From a located tree to the whole. */
  lemma {:induction false} AtTop(m: Mem, root: Ptr, k: Ctx, t: Tree, ptr: Ptr, par: Ptr)
    requires At(m, root, k, t, ptr, par) && Rb(t) && CtxRb(k, Bh(t), Red(t))
    ensures Whole(m, root, Plug(k, t)) && InOrder(Plug(k, t)) == Around(k, InOrder(t))
    decreases k
  {
    if k.Frame? {
      AtUp(m, root, k, t, ptr, par);
      AtTop(m, root, k.up, Build(k.left, t, k.p, k.red, k.sib), par, m[par].parent);
      OrderUp(k, t);
    }
  }

  /** The node at the hole may change colour. */
  lemma {:induction false} PaintAt(m: Mem, m': Mem, root: Ptr, k: Ctx, t: Tree, ptr: Ptr, par: Ptr, red: bool)
    requires At(m, root, k, t, ptr, par) && t.Node? && ptr in m
    requires m' == m[ptr := m[ptr].(parent := par, red := red)]
    ensures At(m', root, k, Paint(t, red), ptr, par) && SamePayload(m, m')
  {
    ReprNodes(m, t, ptr, par);
    ReprCtxNodes(m, root, NULL, k, ptr, par);
    ReprMove(m, m', t, ptr, par, par, red);
    CtxKeep(m, m', root, NULL, k, ptr, par);
    PaintNodes(t, red);
    AugKeep(m, m', t);
    AugPaint(m', t, red);
    AugCtxKeep(m, m', k, Nodes(t));
  }

  lemma {:induction false} AtIntro(m: Mem, m1: Mem, o: Ptr, n: Ptr, root: Ptr, k: Ctx, t: Tree, ptr: Ptr, par: Ptr)
    requires o in m1 && n in m1 && Located(m1, root, k, t, ptr, par) && NULL !in m && SamePayload(m, m1)
    requires Aug(AugRotated(m1, o, n), t) && AugCtx(AugRotated(m1, o, n), k, Nodes(t))
    ensures At(AugRotated(m1, o, n), root, k, t, ptr, par) && SamePayload(m, AugRotated(m1, o, n))
  {
    LocatedKeep(m1, AugRotated(m1, o, n), root, k, t, ptr, par);
  }

  lemma {:induction false} LocatedKeep(m: Mem, m': Mem, root: Ptr, k: Ctx, t: Tree, ptr: Ptr, par: Ptr)
    requires Located(m, root, k, t, ptr, par) && KeepsLinks(m, m', m.Keys)
    ensures Located(m', root, k, t, ptr, par)
  {
    ReprNodes(m, t, ptr, par);
    ReprCtxNodes(m, root, NULL, k, ptr, par);
    ReprKeep(m, m', t, ptr, par);
    CtxKeep(m, m', root, NULL, k, ptr, par);
  }

  /** rb_set_parent_color on a node whose parent is already `par`. */
  method SetColour(m0: Mem, p: Ptr, par: Ptr, red: bool, ghost root: Ptr, ghost k: Ctx, ghost t: Tree) returns (m: Mem)
    requires At(m0, root, k, t, p, par) && t.Node? && p in m0
    ensures At(m, root, k, Paint(t, red), p, par) && SamePayload(m0, m)
    ensures m[p].red == red && forall q :: q in m0 && q != p ==> m[q] == m0[q]
  {
    m := m0[p := m0[p].(parent := par, red := red)];
    PaintAt(m0, m, root, k, t, p, par, red);
  }

  /** The memory and the root pointer. */
  datatype Store = Store(m: Mem, root: Ptr)

  /** __rb_change_child. */
  function ChangeChild(m: Mem, root: Ptr, was: Ptr, now: Ptr, parent: Ptr): Store
    requires parent != NULL ==> parent in m
  {
    if parent != NULL then
      if m[parent].left == was then Store(m[parent := m[parent].(left := now)], root)
      else Store(m[parent := m[parent].(right := now)], root)
    else Store(m, now)
  }

  /** The pointers around a rotation at `o` are distinct. */
  predicate CanRotate(m: Mem, o: Ptr, n: Ptr, y: Ptr) {
    && NULL !in m && o in m && n in m && o != n
    && (y != NULL ==> y in m && y != o && y != n && y != m[o].parent)
    && (m[o].parent != NULL ==> m[o].parent in m && m[o].parent != o && m[o].parent != n)
  }

  /** The stores of one rotation, in order, before the parent link: `n`, the child of `o` on side `d`,
      takes the place and colour of `o`. */
  function RotateStores(m: Mem, o: Ptr, n: Ptr, d: bool, oRed': bool): Mem
    requires o in m && n in m && CanRotate(m, o, n, Child(m[n], !d))
  {
    var tmp := Child(m[n], !d);
    var m1 := m[o := WithChild(m[o], d, tmp)];
    var m2 := m1[n := WithChild(m1[n], !d, o)];
    var m3 := if tmp != NULL then m2[tmp := m2[tmp].(parent := o)] else m2;
    var m4 := m3[n := m3[n].(parent := m3[o].parent, red := m3[o].red)];
    m4[o := m4[o].(parent := n, red := oRed')]
  }

  lemma RotateStoresOk(m: Mem, root: Ptr, o: Ptr, n: Ptr, d: bool, oRed': bool)
    requires o in m && n in m && CanRotate(m, o, n, Child(m[n], !d))
    ensures var st := ChangeChild(RotateStores(m, o, n, d, oRed'), root, o, n, m[o].parent);
            RotateStored(m, st.m, root, st.root, d, o, oRed', n)
  {
  }

  lemma RotateOnlyLinks(m: Mem, root: Ptr, o: Ptr, n: Ptr, d: bool, oRed': bool)
    requires o in m && n in m && CanRotate(m, o, n, Child(m[n], !d))
    ensures OnlyLinks(m, ChangeChild(RotateStores(m, o, n, d, oRed'), root, o, n, m[o].parent).m)
  {
    var tmp := Child(m[n], !d);
    var m1 := Stored(m, m, o, WithChild(m[o], d, tmp));
    var m2 := Stored(m, m1, n, WithChild(m1[n], !d, o));
    var m3 := m2;
    if tmp != NULL {
      m3 := Stored(m, m2, tmp, m2[tmp].(parent := o));
    }
    var m4 := Stored(m, m3, n, m3[n].(parent := m3[o].parent, red := m3[o].red));
    var m5 := Stored(m, m4, o, m4[o].(parent := n, red := oRed'));
    var p := m[o].parent;
    if p != NULL {
      var m6 := Stored(m, m5, p, WithChild(m5[p], m5[p].left == o, n));
    }
  }

  /** A store that changes links only. */
  lemma Stored(m: Mem, m1: Mem, p: Ptr, x: Task) returns (m2: Mem)
    requires OnlyLinks(m, m1) && p in m1 && x.s == m1[p].s && x.minVruntime == m1[p].minVruntime
    ensures m2 == m1[p := x] && OnlyLinks(m, m2)
  {
    m2 := m1[p := x];
  }

  lemma {:induction false} OnlyLinksAug(m: Mem, m': Mem, k: Ctx, t: Tree)
    requires OnlyLinks(m, m') && Aug(m, t) && AugCtx(m, k, Nodes(t)) && Nodes(t) <= m.Keys && CtxNodes(k) <= m.Keys
    ensures Aug(m', t) && AugCtx(m', k, Nodes(t))
  {
    AugKeep(m, m', t);
    AugCtxKeep(m, m', k, Nodes(t));
  }

  lemma {:induction false} RotateAt(m: Mem, m1: Mem, root: Ptr, k: Ctx, d: bool, o: Ptr, oRed: bool, oRed': bool,
                                    n: Ptr, nRed: bool, x: Tree, y: Tree, z: Tree)
    requires Aug(m, Slanted(d, o, oRed, n, nRed, x, y, z)) && AugCtx(m, k, Nodes(Slanted(d, o, oRed, n, nRed, x, y, z)))
    requires OnlyLinks(m, m1) && o in m && n in m && o != NULL
    requires RootOf(x, Child(m1[o], !d)) && RootOf(y, Child(m1[o], d))
    requires Apart(o, n, Nodes(x), Nodes(y), Nodes(z), CtxNodes(k))
    requires Nodes(x) <= m.Keys && Nodes(y) <= m.Keys && Nodes(z) <= m.Keys && CtxNodes(k) <= m.Keys
    ensures Aug(AugRotated(m1, o, n), Rotated(d, o, oRed', n, oRed, x, y, z))
    ensures AugCtx(AugRotated(m1, o, n), k, Nodes(Rotated(d, o, oRed', n, oRed, x, y, z)))
  {
    var t := Slanted(d, o, oRed, n, nRed, x, y, z);
    assert Aug(m1, t) && AugCtx(m1, k, Nodes(t)) by {
      RotatedNodes(d, o, oRed, oRed', n, nRed, oRed, x, y, z);
      OnlyLinksAug(m, m1, k, t);
    }
    RotateAug(m1, k, d, o, oRed, oRed', n, nRed, x, y, z);
  }

  lemma {:induction false} RotateWholeAug(m: Mem, m1: Mem, root: Ptr, root1: Ptr, k: Ctx, d: bool, o: Ptr, oRed: bool, oRed': bool,
                                          n: Ptr, nRed: bool, x: Tree, y: Tree, z: Tree, pp: Ptr)
    requires At(m, root, k, Slanted(d, o, oRed, n, nRed, x, y, z), o, pp)
    requires OnlyLinks(m, m1) && RotateStored(m, m1, root, root1, d, o, oRed', n)
    ensures Aug(AugRotated(m1, o, n), Rotated(d, o, oRed', n, oRed, x, y, z))
    ensures AugCtx(AugRotated(m1, o, n), k, Nodes(Rotated(d, o, oRed', n, oRed, x, y, z)))
  {
    SlantedParts(m, root, k, d, o, oRed, n, nRed, x, y, z, pp);
    RotateAt(m, m1, root1, k, d, o, oRed, oRed', n, nRed, x, y, z);
  }

  lemma {:induction false} RotateWhole(m: Mem, m1: Mem, root: Ptr, root1: Ptr, k: Ctx, d: bool, o: Ptr, oRed: bool, oRed': bool,
                                       n: Ptr, nRed: bool, x: Tree, y: Tree, z: Tree, pp: Ptr)
    requires At(m, root, k, Slanted(d, o, oRed, n, nRed, x, y, z), o, pp)
    requires OnlyLinks(m, m1) && RotateStored(m, m1, root, root1, d, o, oRed', n)
    ensures At(AugRotated(m1, o, n), root1, k, Rotated(d, o, oRed', n, oRed, x, y, z), n, pp)
    ensures SamePayload(m, AugRotated(m1, o, n))
  {
    RotateWholeAug(m, m1, root, root1, k, d, o, oRed, oRed', n, nRed, x, y, z, pp);
    RotateLinks(m, m1, root, root1, k, d, o, oRed, oRed', n, nRed, x, y, z, pp);
    AtIntro(m, m1, o, n, root1, k, Rotated(d, o, oRed', n, oRed, x, y, z), n, pp);
  }

  lemma {:induction false} SlantedCanRotate(m: Mem, root: Ptr, k: Ctx, d: bool, o: Ptr, oRed: bool, n: Ptr, nRed: bool,
                                            x: Tree, y: Tree, z: Tree, pp: Ptr)
    requires NULL !in m && Located(m, root, k, Slanted(d, o, oRed, n, nRed, x, y, z), o, pp)
    ensures o in m && n in m && CanRotate(m, o, n, Child(m[n], !d))
  {
    SlantedParts(m, root, k, d, o, oRed, n, nRed, x, y, z, pp);
    var yp := Child(m[n], !d);
    assert yp == NULL || yp in Nodes(y);
  }

  /** One rotation with its augmentation callback. */
  method Rotate(m0: Mem, root0: Ptr, o: Ptr, n: Ptr, d: bool, oRed': bool, ghost oRed: bool, ghost nRed: bool,
                ghost k: Ctx, ghost x: Tree, ghost y: Tree, ghost z: Tree, ghost pp: Ptr) returns (m: Mem, root: Ptr)
    requires At(m0, root0, k, Slanted(d, o, oRed, n, nRed, x, y, z), o, pp)
    ensures At(m, root, k, Rotated(d, o, oRed', n, oRed, x, y, z), n, pp)
    ensures SamePayload(m0, m)
  {
    SlantedCanRotate(m0, root0, k, d, o, oRed, n, nRed, x, y, z, pp);
    RotateStoresOk(m0, root0, o, n, d, oRed');
    RotateOnlyLinks(m0, root0, o, n, d, oRed');
    var st := ChangeChild(RotateStores(m0, o, n, d, oRed'), root0, o, n, m0[o].parent);
    RotateWhole(m0, st.m, root0, st.root, k, d, o, oRed, oRed', n, nRed, x, y, z, pp);
    m, root := AugRotated(st.m, o, n), st.root;
  }

  predicate CanRotateTwice(m: Mem, o: Ptr, n: Ptr, c: Ptr, a: Ptr, b: Ptr) {
    && CanRotate(m, o, c, a) && CanRotate(m, o, c, b) && n in m && n != o && n != c && n != m[o].parent
    && (a != NULL ==> a != n && a != b) && (b != NULL ==> b != n)
  }

  /** The stores of a first rotation, of `c` over `n`; the link from `o` and the parent of `c` are left for the second. */
  function FirstStores(m: Mem, n: Ptr, c: Ptr, d: bool, nRed': bool): Mem
    requires n in m && c in m && n != c
    requires Child(m[c], d) != NULL ==> Child(m[c], d) in m
  {
    var tmp := Child(m[c], d);
    var m1 := m[n := WithChild(m[n], !d, tmp)];
    var m2 := m1[c := WithChild(m1[c], d, n)];
    var m3 := if tmp != NULL then m2[tmp := m2[tmp].(parent := n)] else m2;
    m3[n := m3[n].(parent := c, red := nRed')]
  }

  predicate FirstStored(m: Mem, m1: Mem, n: Ptr, c: Ptr, d: bool, nRed': bool) {
    && n in m && c in m && n in m1 && c in m1 && Touches(m, m1, {n, c, Child(m[c], d)})
    && HasLinks(m1[n], d, Child(m[n], d), Child(m[c], d), c, nRed')
    && Child(m1[c], d) == n && Child(m1[c], !d) == Child(m[c], !d)
    && Adopted(m, m1, Child(m[c], d), n)
  }

  lemma FirstStoresOk(m: Mem, n: Ptr, c: Ptr, d: bool, nRed': bool)
    requires NULL !in m && n in m && c in m && n != c
    requires var a := Child(m[c], d); a != NULL ==> a in m && a != n && a != c
    ensures OnlyLinks(m, FirstStores(m, n, c, d, nRed')) && FirstStored(m, FirstStores(m, n, c, d, nRed'), n, c, d, nRed')
    ensures FirstStored(m, AugRotated(FirstStores(m, n, c, d, nRed'), n, c), n, c, d, nRed')
  {
  }

  lemma TwiceCompose(m: Mem, m1: Mem, m2: Mem, root: Ptr, root2: Ptr, o: Ptr, n: Ptr, c: Ptr, d: bool, oRed': bool, nRed': bool)
    requires FirstStored(m, m1, n, c, d, nRed') && o in m && CanRotateTwice(m, o, n, c, Child(m[c], d), Child(m[c], !d))
    requires RotateStored(m1, m2, root, root2, d, o, oRed', c)
    ensures RotateTwiceStored(m, m2, root, root2, d, o, oRed', n, nRed', c)
  {
    var a, b, p := Child(m[c], d), Child(m[c], !d), m[o].parent;
    assert SameLinks(m[o], m1[o]);
    assert SameLinks(m1[n], m2[n]);
    assert a != NULL ==> SameLinks(m1[a], m2[a]);
    assert b != NULL ==> SameLinks(m[b], m1[b]);
    assert p != NULL ==> SameLinks(m[p], m1[p]);
  }

  /** The memory after the callbacks of both rotations: `f` holds the links of the first, `m2` those of both. */
  predicate TwiceVals(m: Mem, f: Mem, m2: Mem, o: Ptr, n: Ptr, c: Ptr) {
    && o in m && n in m && c in m && o != n && o != c && n != c && o != NULL && n != NULL
    && OnlyLinks(m, f) && OnlyLinks(AugRotated(f, n, c), m2)
  }

  lemma TwiceKeeps(m: Mem, f: Mem, m2: Mem, o: Ptr, n: Ptr, c: Ptr, s: set<Ptr>)
    requires TwiceVals(m, f, m2, o, n, c) && s <= m.Keys && {o, n, c} !! s
    ensures KeepsVals(m, f, s) && KeepsVals(m, m2, s) && KeepsVals(m, AugRotated(m2, o, c), s)
  {
  }

  lemma TwiceTops(m: Mem, f: Mem, m2: Mem, o: Ptr, n: Ptr, c: Ptr)
    requires TwiceVals(m, f, m2, o, n, c)
    ensures AugRotated(m2, o, c)[c].minVruntime == m[o].minVruntime && SamePayload(m, AugRotated(m2, o, c))
    ensures AugRotated(m2, o, c)[n].minVruntime == AugRotated(f, n, c)[n].minVruntime
    ensures KeepsVruntime(m, AugRotated(m2, o, c), m.Keys) && KeepsVruntime(AugRotated(f, n, c), AugRotated(m2, o, c), m.Keys)
  {
  }

  lemma {:induction false} TwiceMinN(m: Mem, f: Mem, m2: Mem, d: bool, o: Ptr, n: Ptr, c: Ptr, a: Tree, z: Tree)
    requires TwiceVals(m, f, m2, o, n, c) && Aug(m, a) && Aug(m, z) && Nodes(a) <= m.Keys && Nodes(z) <= m.Keys
    requires {o, n, c} !! Nodes(a) && {o, n, c} !! Nodes(z) && RootOf(a, Child(f[n], !d)) && RootOf(z, Child(f[n], d))
    ensures IsMin(AugRotated(m2, o, c), Nodes(z) + {n} + Nodes(a), AugRotated(m2, o, c)[n].minVruntime)
  {
    TwiceKeeps(m, f, m2, o, n, c, Nodes(a));
    TwiceKeeps(m, f, m2, o, n, c, Nodes(z));
    TwiceTops(m, f, m2, o, n, c);
    AugKeep(m, f, a);
    AugKeep(m, f, z);
    AugRotatedMin(f, d, n, c, a, z);
    IsMinKeep(AugRotated(f, n, c), AugRotated(m2, o, c), Nodes(z) + {n} + Nodes(a), AugRotated(f, n, c)[n].minVruntime);
  }

  lemma {:induction false} TwiceMinO(m: Mem, f: Mem, m2: Mem, d: bool, o: Ptr, n: Ptr, c: Ptr, x: Tree, b: Tree)
    requires TwiceVals(m, f, m2, o, n, c) && Aug(m, x) && Aug(m, b) && Nodes(x) <= m.Keys && Nodes(b) <= m.Keys
    requires {o, n, c} !! Nodes(x) && {o, n, c} !! Nodes(b) && RootOf(x, Child(m2[o], !d)) && RootOf(b, Child(m2[o], d))
    ensures IsMin(AugRotated(m2, o, c), Nodes(b) + {o} + Nodes(x), AugRotated(m2, o, c)[o].minVruntime)
  {
    TwiceKeeps(m, f, m2, o, n, c, Nodes(x));
    TwiceKeeps(m, f, m2, o, n, c, Nodes(b));
    AugKeep(m, m2, x);
    AugKeep(m, m2, b);
    AugRotatedMin(m2, d, o, c, x, b);
  }

  lemma {:induction false} BentAug(m: Mem, d: bool, o: Ptr, oRed: bool, n: Ptr, nRed: bool, c: Ptr, cRed: bool,
                                   x: Tree, a: Tree, b: Tree, z: Tree)
    requires Aug(m, Bent(d, o, oRed, n, nRed, c, cRed, x, a, b, z))
    ensures Aug(m, x) && Aug(m, a) && Aug(m, b) && Aug(m, z)
  {
    AugBuild(m, d, Build(d, z, n, nRed, Build(d, a, c, cRed, b)), o, oRed, x);
    AugBuild(m, d, z, n, nRed, Build(d, a, c, cRed, b));
    AugBuild(m, d, a, c, cRed, b);
  }

  lemma {:induction false} TwiceWholeAug(m: Mem, f: Mem, m2: Mem, k: Ctx, d: bool, o: Ptr, oRed: bool, oRed': bool,
                                         n: Ptr, nRed: bool, nRed': bool, c: Ptr, cRed: bool,
                                         x: Tree, a: Tree, b: Tree, z: Tree)
    requires TwiceVals(m, f, m2, o, n, c) && Apart3(o, n, c, Nodes(x), Nodes(a), Nodes(b), Nodes(z), CtxNodes(k))
    requires Nodes(x) <= m.Keys && Nodes(a) <= m.Keys && Nodes(b) <= m.Keys && Nodes(z) <= m.Keys && CtxNodes(k) <= m.Keys
    requires RootOf(x, Child(m2[o], !d)) && RootOf(b, Child(m2[o], d)) && RootOf(a, Child(f[n], !d)) && RootOf(z, Child(f[n], d))
    requires Aug(m, Bent(d, o, oRed, n, nRed, c, cRed, x, a, b, z))
    requires AugCtx(m, k, Nodes(Bent(d, o, oRed, n, nRed, c, cRed, x, a, b, z)))
    ensures Aug(AugRotated(m2, o, c), Straightened(d, o, oRed', n, nRed', c, oRed, x, a, b, z))
    ensures AugCtx(AugRotated(m2, o, c), k, Nodes(Straightened(d, o, oRed', n, nRed', c, oRed, x, a, b, z)))
  {
    BentAug(m, d, o, oRed, n, nRed, c, cRed, x, a, b, z);
    TwiceMinN(m, f, m2, d, o, n, c, a, z);
    TwiceMinO(m, f, m2, d, o, n, c, x, b);
    TwiceTops(m, f, m2, o, n, c);
    TwiceKeeps(m, f, m2, o, n, c, Nodes(x));
    TwiceKeeps(m, f, m2, o, n, c, Nodes(a));
    TwiceKeeps(m, f, m2, o, n, c, Nodes(b));
    TwiceKeeps(m, f, m2, o, n, c, Nodes(z));
    TwiceKeeps(m, f, m2, o, n, c, CtxNodes(k));
    RotateTwiceAug(m, AugRotated(m2, o, c), k, d, o, oRed, oRed', n, nRed, nRed', c, cRed, oRed, x, a, b, z);
  }

  lemma {:induction false} TwiceWholeRoots(m: Mem, f: Mem, m2: Mem, root: Ptr, root2: Ptr, k: Ctx, d: bool, o: Ptr, oRed: bool, oRed': bool,
                                           n: Ptr, nRed: bool, nRed': bool, c: Ptr, cRed: bool,
                                           x: Tree, a: Tree, b: Tree, z: Tree, pp: Ptr)
    requires At(m, root, k, Bent(d, o, oRed, n, nRed, c, cRed, x, a, b, z), o, pp)
    requires TwiceVals(m, f, m2, o, n, c) && FirstStored(m, f, n, c, d, nRed')
    requires RotateTwiceStored(m, m2, root, root2, d, o, oRed', n, nRed', c)
    ensures Aug(AugRotated(m2, o, c), Straightened(d, o, oRed', n, nRed', c, oRed, x, a, b, z))
    ensures AugCtx(AugRotated(m2, o, c), k, Nodes(Straightened(d, o, oRed', n, nRed', c, oRed, x, a, b, z)))
  {
    BentParts(m, root, k, d, o, oRed, n, nRed, c, cRed, x, a, b, z, pp);
    TwiceWholeAug(m, f, m2, k, d, o, oRed, oRed', n, nRed, nRed', c, cRed, x, a, b, z);
  }

  lemma {:induction false} TwiceWhole(m: Mem, f: Mem, m2: Mem, root: Ptr, root2: Ptr, k: Ctx, d: bool, o: Ptr, oRed: bool, oRed': bool,
                                      n: Ptr, nRed: bool, nRed': bool, c: Ptr, cRed: bool,
                                      x: Tree, a: Tree, b: Tree, z: Tree, pp: Ptr)
    requires At(m, root, k, Bent(d, o, oRed, n, nRed, c, cRed, x, a, b, z), o, pp)
    requires TwiceVals(m, f, m2, o, n, c) && FirstStored(m, f, n, c, d, nRed')
    requires RotateTwiceStored(m, m2, root, root2, d, o, oRed', n, nRed', c)
    ensures At(AugRotated(m2, o, c), root2, k, Straightened(d, o, oRed', n, nRed', c, oRed, x, a, b, z), c, pp)
    ensures SamePayload(m, AugRotated(m2, o, c))
  {
    TwicePayload(m, f, m2, o, n, c);
    TwiceWholeRoots(m, f, m2, root, root2, k, d, o, oRed, oRed', n, nRed, nRed', c, cRed, x, a, b, z, pp);
    RotateTwiceLinks(m, m2, root, root2, k, d, o, oRed, oRed', n, nRed, nRed', c, cRed, x, a, b, z, pp);
    AtIntro(m, m2, o, c, root2, k, Straightened(d, o, oRed', n, nRed', c, oRed, x, a, b, z), c, pp);
  }

  lemma TwicePayload(m: Mem, f: Mem, m2: Mem, o: Ptr, n: Ptr, c: Ptr)
    requires TwiceVals(m, f, m2, o, n, c)
    ensures SamePayload(m, m2)
  {
  }

  lemma TwiceStoresOk(m: Mem, root: Ptr, o: Ptr, n: Ptr, c: Ptr, d: bool, oRed': bool, nRed': bool)
    requires o in m && n in m && c in m && CanRotateTwice(m, o, n, c, Child(m[c], d), Child(m[c], !d))
    ensures CanRotate(AugRotated(FirstStores(m, n, c, d, nRed'), n, c), o, c, Child(m[c], !d))
    ensures var f := FirstStores(m, n, c, d, nRed');
            var m1 := AugRotated(f, n, c);
            && o in m1 && c in m1 && Child(m1[c], !d) == Child(m[c], !d)
            && (m1[o].parent != NULL ==> m1[o].parent in RotateStores(m1, o, c, d, oRed'))
            && var st := ChangeChild(RotateStores(m1, o, c, d, oRed'), root, o, c, m1[o].parent);
            && TwiceVals(m, f, st.m, o, n, c) && FirstStored(m, f, n, c, d, nRed')
            && RotateTwiceStored(m, st.m, root, st.root, d, o, oRed', n, nRed', c)
  {
    FirstStoresOk(m, n, c, d, nRed');
    var m1 := AugRotated(FirstStores(m, n, c, d, nRed'), n, c);
    assert SameLinks(m[o], m1[o]);
    RotateStoresOk(m1, root, o, c, d, oRed');
    RotateOnlyLinks(m1, root, o, c, d, oRed');
    TwiceCompose(m, m1, ChangeChild(RotateStores(m1, o, c, d, oRed'), root, o, c, m1[o].parent).m, root,
                 ChangeChild(RotateStores(m1, o, c, d, oRed'), root, o, c, m1[o].parent).root, o, n, c, d, oRed', nRed');
  }

  lemma {:induction false} BentCanRotate(m: Mem, root: Ptr, k: Ctx, d: bool, o: Ptr, oRed: bool, n: Ptr, nRed: bool,
                                         c: Ptr, cRed: bool, x: Tree, a: Tree, b: Tree, z: Tree, pp: Ptr)
    requires NULL !in m && Located(m, root, k, Bent(d, o, oRed, n, nRed, c, cRed, x, a, b, z), o, pp)
    ensures o in m && n in m && c in m && CanRotateTwice(m, o, n, c, Child(m[c], d), Child(m[c], !d))
  {
    BentParts(m, root, k, d, o, oRed, n, nRed, c, cRed, x, a, b, z, pp);
    assert Child(m[c], d) == NULL || Child(m[c], d) in Nodes(a);
    assert Child(m[c], !d) == NULL || Child(m[c], !d) in Nodes(b);
  }

  /** Two rotations with their augmentation callbacks. */
  method RotateTwice(m0: Mem, root0: Ptr, o: Ptr, n: Ptr, c: Ptr, d: bool, oRed': bool, nRed': bool,
                     ghost oRed: bool, ghost nRed: bool, ghost cRed: bool,
                     ghost k: Ctx, ghost x: Tree, ghost a: Tree, ghost b: Tree, ghost z: Tree, ghost pp: Ptr)
    returns (m: Mem, root: Ptr)
    requires At(m0, root0, k, Bent(d, o, oRed, n, nRed, c, cRed, x, a, b, z), o, pp)
    ensures At(m, root, k, Straightened(d, o, oRed', n, nRed', c, oRed, x, a, b, z), c, pp)
    ensures SamePayload(m0, m)
  {
    BentCanRotate(m0, root0, k, d, o, oRed, n, nRed, c, cRed, x, a, b, z, pp);
    TwiceStoresOk(m0, root0, o, n, c, d, oRed', nRed');
    var f := FirstStores(m0, n, c, d, nRed');
    m := AugRotated(f, n, c);
    var st := ChangeChild(RotateStores(m, o, c, d, oRed'), root0, o, c, m[o].parent);
    TwiceWhole(m0, f, st.m, root0, st.root, k, d, o, oRed, oRed', n, nRed, nRed', c, cRed, x, a, b, z, pp);
    m, root := AugRotated(st.m, o, c), st.root;
  }
}
