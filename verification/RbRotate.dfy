/**
 What the stores of one rotation do to the tree held in memory, for the links and for the cached
 minima. Every rebalancing rotation of insertion and erasure is one of the two kinds here.
 */
module RbRotate {
  import opened RbShape

  /** Only links and cached minima differ. */
  predicate SamePayload(m: Mem, m': Mem) {
    && m'.Keys == m.Keys
    && forall q :: q in m ==> m'[q].s == m[q].s
  }

  /** Only links differ. */
  predicate OnlyLinks(m: Mem, m': Mem) {
    SamePayload(m, m') && forall q :: q in m ==> m'[q].minVruntime == m[q].minVruntime
  }

  /** All links outside `s` are as before. */
  predicate Touches(m: Mem, m': Mem, s: set<Ptr>) {
    NULL !in m && m'.Keys == m.Keys && forall q :: q in m && q !in s ==> SameLinks(m[q], m'[q])
  }

  /** The link that pointed from `par` (or from the root) to `was` points to `now`. */
  predicate Relinked(m: Mem, m': Mem, root: Ptr, root': Ptr, par: Ptr, was: Ptr, now: Ptr) {
    if par == NULL then root' == now
    else root' == root && par in m && par in m'
         && SameLinks(m'[par], WithChild(m[par], m[par].left == was, now))
  }

  predicate HasLinks(x: Task, d: bool, same: Ptr, other: Ptr, parent: Ptr, red: bool) {
    Child(x, d) == same && Child(x, !d) == other && x.parent == parent && x.red == red
  }

  /** A moved subtree root, if any, got parent `par` and kept the rest. */
  predicate Adopted(m: Mem, m': Mem, ptr: Ptr, par: Ptr) {
    ptr != NULL ==> ptr in m && ptr in m' && SameLinks(m'[ptr], m[ptr].(parent := par))
  }

  lemma {:induction false} PieceKeep(m: Mem, m': Mem, t: Tree, ptr: Ptr, par: Ptr, s: set<Ptr>)
    requires Repr(m, t, ptr, par) && Touches(m, m', s) && Nodes(t) !! s
    ensures Repr(m', t, ptr, par)
  {
    ReprNodes(m, t, ptr, par);
    ReprKeep(m, m', t, ptr, par);
  }

  lemma {:induction false} PieceMove(m: Mem, m': Mem, t: Tree, ptr: Ptr, par: Ptr, par': Ptr, s: set<Ptr>)
    requires Repr(m, t, ptr, par) && Touches(m, m', s) && (Nodes(t) - {ptr}) !! s
    requires Adopted(m, m', ptr, par')
    ensures Repr(m', t, ptr, par')
  {
    ReprNodes(m, t, ptr, par);
    ReprMove(m, m', t, ptr, par, par', t.Node? && t.red);
    assert Paint(t, t.Node? && t.red) == t;
  }

  lemma {:induction false} PieceRetarget(m: Mem, m': Mem, root: Ptr, root': Ptr, k: Ctx, ptr: Ptr, ptr': Ptr, par: Ptr,
                                         s: set<Ptr>)
    requires ReprCtx(m, root, NULL, k, ptr, par) && ptr != NULL && ptr !in CtxNodes(k)
    requires Touches(m, m', s) && (CtxNodes(k) - {par}) !! s
    requires Relinked(m, m', root, root', par, ptr, ptr')
    ensures ReprCtx(m', root', NULL, k, ptr', par)
  {
    ReprCtxNodes(m, root, NULL, k, ptr, par);
    CtxMove(m, m', root, root', NULL, k, ptr, ptr', par);
  }

  // ----- one rotation -----

  /** Before: `o` has child `n` on side `d`, whose inner subtree is `y` and outer subtree `z`. */
  function Slanted(d: bool, o: Ptr, oRed: bool, n: Ptr, nRed: bool, x: Tree, y: Tree, z: Tree): Tree {
    Build(d, Build(d, z, n, nRed, y), o, oRed, x)
  }

  /** After: `n` is on top and `o` is its child on the other side. */
  function Rotated(d: bool, o: Ptr, oRed: bool, n: Ptr, nRed: bool, x: Tree, y: Tree, z: Tree): Tree {
    Build(d, z, n, nRed, Build(d, y, o, oRed, x))
  }

  /** The pieces around a rotation share no task. */
  predicate Apart(o: Ptr, n: Ptr, x: set<Ptr>, y: set<Ptr>, z: set<Ptr>, k: set<Ptr>) {
    && NULL !in x && NULL !in y && NULL !in z && NULL !in k
    && o != n && o !in x && o !in y && o !in z && o !in k && n !in x && n !in y && n !in z && n !in k
    && x !! y && x !! z && y !! z && x !! k && y !! k && z !! k
  }

  /** What the link stores of a rotation leave behind. */
  predicate RotateStored(m: Mem, m': Mem, root: Ptr, root': Ptr, d: bool, o: Ptr, oRed': bool, n: Ptr) {
    && o in m && n in m && o in m' && n in m'
    && HasLinks(m'[o], d, Child(m[n], !d), Child(m[o], !d), n, oRed')
    && HasLinks(m'[n], d, Child(m[n], d), o, m[o].parent, m[o].red)
    && Adopted(m, m', Child(m[n], !d), o)
    && Relinked(m, m', root, root', m[o].parent, o, n)
    && Touches(m, m', {o, n, Child(m[n], !d), m[o].parent})
  }

  lemma {:induction false} SlantedParts(m: Mem, root: Ptr, k: Ctx, d: bool, o: Ptr, oRed: bool, n: Ptr, nRed: bool,
                                        x: Tree, y: Tree, z: Tree, pp: Ptr)
    requires Located(m, root, k, Slanted(d, o, oRed, n, nRed, x, y, z), o, pp)
    ensures o in m && n in m && o != NULL && n != NULL && m[o].parent == pp && m[o].red == oRed
    ensures Repr(m, x, Child(m[o], !d), o) && Repr(m, y, Child(m[n], !d), n) && Repr(m, z, Child(m[n], d), n)
    ensures Apart(o, n, Nodes(x), Nodes(y), Nodes(z), CtxNodes(k))
    ensures pp == NULL || pp in CtxNodes(k)
    ensures Nodes(x) <= m.Keys && Nodes(y) <= m.Keys && Nodes(z) <= m.Keys && CtxNodes(k) <= m.Keys
  {
    ReprBuild(m, d, Build(d, z, n, nRed, y), o, oRed, x, pp);
    ReprBuild(m, d, z, n, nRed, y, o);
    ReprNodes(m, Slanted(d, o, oRed, n, nRed, x, y, z), o, pp);
    ReprCtxNodes(m, root, NULL, k, o, pp);
  }

  /** Two subtrees and their root make a located tree. */
  lemma {:induction false} Join(m: Mem, root: Ptr, k: Ctx, d: bool, u: Tree, p: Ptr, red: bool, w: Tree, pp: Ptr)
    requires p in m && p != NULL && m[p].parent == pp && m[p].red == red
    requires Repr(m, u, Child(m[p], d), p) && Repr(m, w, Child(m[p], !d), p)
    requires p !in Nodes(u) && p !in Nodes(w) && p !in CtxNodes(k)
    requires Nodes(u) !! Nodes(w) && Nodes(u) !! CtxNodes(k) && Nodes(w) !! CtxNodes(k)
    requires ReprCtx(m, root, NULL, k, p, pp)
    ensures Located(m, root, k, Build(d, u, p, red, w), p, pp)
  {
    ReprBuild(m, d, u, p, red, w, pp);
  }

  /** A subtree below `p`, to be joined further up. */
  lemma {:induction false} SubJoin(m: Mem, d: bool, u: Tree, p: Ptr, red: bool, w: Tree, pp: Ptr)
    requires p in m && p != NULL && m[p].parent == pp && m[p].red == red
    requires Repr(m, u, Child(m[p], d), p) && Repr(m, w, Child(m[p], !d), p)
    requires p !in Nodes(u) && p !in Nodes(w) && Nodes(u) !! Nodes(w)
    ensures Repr(m, Build(d, u, p, red, w), p, pp)
    ensures Nodes(Build(d, u, p, red, w)) == Nodes(u) + {p} + Nodes(w)
  {
    ReprBuild(m, d, u, p, red, w, pp);
  }

  lemma {:induction false} RotatePieces(m: Mem, m': Mem, root: Ptr, root': Ptr, k: Ctx, o: Ptr, n: Ptr, pp: Ptr,
                                        x: Tree, y: Tree, z: Tree, xp: Ptr, yp: Ptr, zp: Ptr)
    requires Repr(m, x, xp, o) && Repr(m, y, yp, n) && Repr(m, z, zp, n) && ReprCtx(m, root, NULL, k, o, pp)
    requires Apart(o, n, Nodes(x), Nodes(y), Nodes(z), CtxNodes(k)) && o != NULL
    requires pp == NULL || pp in CtxNodes(k)
    requires Touches(m, m', {o, n, yp, pp}) && Adopted(m, m', yp, o) && Relinked(m, m', root, root', pp, o, n)
    ensures Repr(m', x, xp, o) && Repr(m', y, yp, o) && Repr(m', z, zp, n)
    ensures ReprCtx(m', root', NULL, k, n, pp)
  {
    var s := {o, n, yp, pp};
    assert yp == NULL || yp in Nodes(y);
    assert Repr(m', x, xp, o) by { PieceKeep(m, m', x, xp, o, s); }
    assert Repr(m', y, yp, o) by { PieceMove(m, m', y, yp, n, o, s); }
    assert Repr(m', z, zp, n) by { PieceKeep(m, m', z, zp, n, s); }
    PieceRetarget(m, m', root, root', k, o, n, pp, s);
  }

  lemma {:induction false} RotatedWhole(m: Mem, root: Ptr, k: Ctx, d: bool, o: Ptr, oRed: bool, n: Ptr, nRed: bool,
                                        x: Tree, y: Tree, z: Tree, pp: Ptr)
    requires o in m && n in m && o != NULL && n != NULL
    requires Repr(m, x, Child(m[o], !d), o) && Repr(m, y, Child(m[o], d), o) && Repr(m, z, Child(m[n], d), n)
    requires m[o].parent == n && m[o].red == oRed && Child(m[n], !d) == o && m[n].parent == pp && m[n].red == nRed
    requires ReprCtx(m, root, NULL, k, n, pp)
    requires Apart(o, n, Nodes(x), Nodes(y), Nodes(z), CtxNodes(k))
    ensures Located(m, root, k, Rotated(d, o, oRed, n, nRed, x, y, z), n, pp)
  {
    SubJoin(m, d, y, o, oRed, x, n);
    Join(m, root, k, d, z, n, nRed, Build(d, y, o, oRed, x), pp);
  }

  /** One rotation at `o` towards the side away from `d`. */
  lemma {:induction false} RotateLinks(m: Mem, m': Mem, root: Ptr, root': Ptr, k: Ctx, d: bool,
                                       o: Ptr, oRed: bool, oRed': bool, n: Ptr, nRed: bool,
                                       x: Tree, y: Tree, z: Tree, pp: Ptr)
    requires Located(m, root, k, Slanted(d, o, oRed, n, nRed, x, y, z), o, pp)
    requires RotateStored(m, m', root, root', d, o, oRed', n)
    ensures Located(m', root', k, Rotated(d, o, oRed', n, oRed, x, y, z), n, pp)
  {
    SlantedParts(m, root, k, d, o, oRed, n, nRed, x, y, z, pp);
    RotatePieces(m, m', root, root', k, o, n, pp, x, y, z, Child(m[o], !d), Child(m[n], !d), Child(m[n], d));
    RotatedWhole(m', root', k, d, o, oRed', n, oRed, x, y, z, pp);
  }

  // ----- two rotations -----

  /** Before: as `Slanted`, where the inner subtree of `n` has root `c` with subtrees `a` and `b`. */
  function Bent(d: bool, o: Ptr, oRed: bool, n: Ptr, nRed: bool, c: Ptr, cRed: bool,
                x: Tree, a: Tree, b: Tree, z: Tree): Tree {
    Slanted(d, o, oRed, n, nRed, x, Build(d, a, c, cRed, b), z)
  }

  function Straightened(d: bool, o: Ptr, oRed: bool, n: Ptr, nRed: bool, c: Ptr, cRed: bool,
                        x: Tree, a: Tree, b: Tree, z: Tree): Tree {
    Build(d, Build(d, z, n, nRed, a), c, cRed, Build(d, b, o, oRed, x))
  }

  predicate Apart3(o: Ptr, n: Ptr, c: Ptr, x: set<Ptr>, a: set<Ptr>, b: set<Ptr>, z: set<Ptr>, k: set<Ptr>) {
    && NULL !in x && NULL !in a && NULL !in b && NULL !in z && NULL !in k
    && o != n && o != c && n != c
    && {o, n, c} !! x && {o, n, c} !! a && {o, n, c} !! b && {o, n, c} !! z && {o, n, c} !! k
    && x !! a && x !! b && x !! z && x !! k && a !! b && a !! z && a !! k && b !! z && b !! k && z !! k
  }

  /** What the link stores of a double rotation leave behind. */
  predicate RotateTwiceStored(m: Mem, m': Mem, root: Ptr, root': Ptr, d: bool,
                              o: Ptr, oRed': bool, n: Ptr, nRed': bool, c: Ptr) {
    && o in m && n in m && c in m && o in m' && n in m' && c in m'
    && HasLinks(m'[o], d, Child(m[c], !d), Child(m[o], !d), c, oRed')
    && HasLinks(m'[n], d, Child(m[n], d), Child(m[c], d), c, nRed')
    && HasLinks(m'[c], d, n, o, m[o].parent, m[o].red)
    && Adopted(m, m', Child(m[c], d), n) && Adopted(m, m', Child(m[c], !d), o)
    && Relinked(m, m', root, root', m[o].parent, o, c)
    && Touches(m, m', {o, n, c, Child(m[c], d), Child(m[c], !d), m[o].parent})
  }

  lemma {:induction false} BentParts(m: Mem, root: Ptr, k: Ctx, d: bool, o: Ptr, oRed: bool, n: Ptr, nRed: bool,
                                     c: Ptr, cRed: bool, x: Tree, a: Tree, b: Tree, z: Tree, pp: Ptr)
    requires Located(m, root, k, Bent(d, o, oRed, n, nRed, c, cRed, x, a, b, z), o, pp)
    ensures o in m && n in m && c in m && o != NULL && n != NULL && c != NULL && m[o].parent == pp && m[o].red == oRed
    ensures Child(m[n], !d) == c
    ensures Repr(m, x, Child(m[o], !d), o) && Repr(m, z, Child(m[n], d), n)
    ensures Repr(m, a, Child(m[c], d), c) && Repr(m, b, Child(m[c], !d), c)
    ensures Apart3(o, n, c, Nodes(x), Nodes(a), Nodes(b), Nodes(z), CtxNodes(k))
    ensures pp == NULL || pp in CtxNodes(k)
    ensures Nodes(x) <= m.Keys && Nodes(a) <= m.Keys && Nodes(b) <= m.Keys && Nodes(z) <= m.Keys && CtxNodes(k) <= m.Keys
  {
    var mid := Build(d, a, c, cRed, b);
    SlantedParts(m, root, k, d, o, oRed, n, nRed, x, mid, z, pp);
    ReprBuild(m, d, a, c, cRed, b, n);
  }

  lemma {:induction false} TwicePieces(m: Mem, m': Mem, root: Ptr, root': Ptr, k: Ctx, o: Ptr, n: Ptr, c: Ptr, pp: Ptr,
                                       x: Tree, a: Tree, b: Tree, z: Tree, xp: Ptr, ap: Ptr, bp: Ptr, zp: Ptr)
    requires Repr(m, x, xp, o) && Repr(m, z, zp, n) && Repr(m, a, ap, c) && Repr(m, b, bp, c)
    requires ReprCtx(m, root, NULL, k, o, pp) && o != NULL
    requires Apart3(o, n, c, Nodes(x), Nodes(a), Nodes(b), Nodes(z), CtxNodes(k))
    requires pp == NULL || pp in CtxNodes(k)
    requires Touches(m, m', {o, n, c, ap, bp, pp})
    requires Adopted(m, m', ap, n) && Adopted(m, m', bp, o) && Relinked(m, m', root, root', pp, o, c)
    ensures Repr(m', x, xp, o) && Repr(m', z, zp, n) && Repr(m', a, ap, n) && Repr(m', b, bp, o)
    ensures ReprCtx(m', root', NULL, k, c, pp)
  {
    var s := {o, n, c, ap, bp, pp};
    assert ap == NULL || ap in Nodes(a);
    assert bp == NULL || bp in Nodes(b);
    assert Repr(m', x, xp, o) by { PieceKeep(m, m', x, xp, o, s); }
    assert Repr(m', z, zp, n) by { PieceKeep(m, m', z, zp, n, s); }
    assert Repr(m', a, ap, n) by { PieceMove(m, m', a, ap, c, n, s); }
    assert Repr(m', b, bp, o) by { PieceMove(m, m', b, bp, c, o, s); }
    PieceRetarget(m, m', root, root', k, o, c, pp, s);
  }

  lemma Apart3Joins(o: Ptr, n: Ptr, c: Ptr, x: set<Ptr>, a: set<Ptr>, b: set<Ptr>, z: set<Ptr>, k: set<Ptr>)
    requires Apart3(o, n, c, x, a, b, z, k)
    ensures (z + {n} + a) !! (b + {o} + x) && (z + {n} + a) !! k && (b + {o} + x) !! k
    ensures c !in z + {n} + a && c !in b + {o} + x && c !in k
    ensures n !in z && n !in a && z !! a && o !in b && o !in x && b !! x
  {
  }

  lemma {:induction false} JoinSets(m: Mem, root: Ptr, k: Ctx, d: bool, u: Tree, p: Ptr, red: bool, w: Tree, pp: Ptr,
                                    us: set<Ptr>, ws: set<Ptr>)
    requires p in m && p != NULL && m[p].parent == pp && m[p].red == red
    requires Repr(m, u, Child(m[p], d), p) && Repr(m, w, Child(m[p], !d), p)
    requires Nodes(u) == us && Nodes(w) == ws
    requires p !in us && p !in ws && p !in CtxNodes(k) && us !! ws && us !! CtxNodes(k) && ws !! CtxNodes(k)
    requires ReprCtx(m, root, NULL, k, p, pp)
    ensures Located(m, root, k, Build(d, u, p, red, w), p, pp)
  {
    Join(m, root, k, d, u, p, red, w, pp);
  }

  /** Two rotations: `c` rises over `n` and then over `o`. */
  lemma {:induction false} RotateTwiceLinks(m: Mem, m': Mem, root: Ptr, root': Ptr, k: Ctx, d: bool,
                                            o: Ptr, oRed: bool, oRed': bool, n: Ptr, nRed: bool, nRed': bool,
                                            c: Ptr, cRed: bool, x: Tree, a: Tree, b: Tree, z: Tree, pp: Ptr)
    requires Located(m, root, k, Bent(d, o, oRed, n, nRed, c, cRed, x, a, b, z), o, pp)
    requires RotateTwiceStored(m, m', root, root', d, o, oRed', n, nRed', c)
    ensures Located(m', root', k, Straightened(d, o, oRed', n, nRed', c, oRed, x, a, b, z), c, pp)
  {
    BentParts(m, root, k, d, o, oRed, n, nRed, c, cRed, x, a, b, z, pp);
    TwicePieces(m, m', root, root', k, o, n, c, pp, x, a, b, z,
                Child(m[o], !d), Child(m[c], d), Child(m[c], !d), Child(m[n], d));
    Apart3Joins(o, n, c, Nodes(x), Nodes(a), Nodes(b), Nodes(z), CtxNodes(k));
    SubJoin(m', d, z, n, nRed', a, c);
    SubJoin(m', d, b, o, oRed', x, c);
    JoinSets(m', root', k, d, Build(d, z, n, nRed', a), c, oRed, Build(d, b, o, oRed', x), pp,
             Nodes(z) + {n} + Nodes(a), Nodes(b) + {o} + Nodes(x));
  }

  // ----- order -----

  lemma {:induction false} BuildOrder(d: bool, c: Tree, p: Ptr, red: bool, sib: Tree)
    ensures Nodes(Build(d, c, p, red, sib)) == Nodes(c) + {p} + Nodes(sib)
    ensures InOrder(Build(d, c, p, red, sib)) ==
              if d then InOrder(c) + [p] + InOrder(sib) else InOrder(sib) + [p] + InOrder(c)
  {
  }

  lemma {:induction false} RotatedNodes(d: bool, o: Ptr, oRed: bool, oRed': bool, n: Ptr, nRed: bool, nRed': bool,
                                        x: Tree, y: Tree, z: Tree)
    ensures Nodes(Rotated(d, o, oRed', n, nRed', x, y, z)) == Nodes(Slanted(d, o, oRed, n, nRed, x, y, z))
    ensures Nodes(Slanted(d, o, oRed, n, nRed, x, y, z)) == Nodes(x) + Nodes(y) + Nodes(z) + {o, n}
  {
    BuildOrder(d, y, o, oRed', x);
    BuildOrder(d, z, n, nRed', Build(d, y, o, oRed', x));
    BuildOrder(d, z, n, nRed, y);
    BuildOrder(d, Build(d, z, n, nRed, y), o, oRed, x);
  }

  lemma {:induction false} RotatedOrder(d: bool, o: Ptr, oRed: bool, oRed': bool, n: Ptr, nRed: bool, nRed': bool,
                                        x: Tree, y: Tree, z: Tree)
    ensures InOrder(Rotated(d, o, oRed', n, nRed', x, y, z)) == InOrder(Slanted(d, o, oRed, n, nRed, x, y, z))
  {
    BuildOrder(d, y, o, oRed', x);
    BuildOrder(d, z, n, nRed', Build(d, y, o, oRed', x));
    BuildOrder(d, z, n, nRed, y);
    BuildOrder(d, Build(d, z, n, nRed, y), o, oRed, x);
    var ix, iy, iz := InOrder(x), InOrder(y), InOrder(z);
    Regroup(iz, n, iy, o, ix);
    Regroup(ix, o, iy, n, iz);
  }

  lemma {:induction false} Regroup(a: seq<Ptr>, p: Ptr, b: seq<Ptr>, q: Ptr, c: seq<Ptr>)
    ensures (a + [p] + b) + [q] + c == a + [p] + (b + [q] + c)
  {
  }

  lemma {:induction false} StraightenedNodes(d: bool, o: Ptr, oRed: bool, oRed': bool, n: Ptr, nRed: bool, nRed': bool,
                                             c: Ptr, cRed: bool, cRed': bool, x: Tree, a: Tree, b: Tree, z: Tree)
    ensures Nodes(Straightened(d, o, oRed', n, nRed', c, cRed', x, a, b, z)) == Nodes(Bent(d, o, oRed, n, nRed, c, cRed, x, a, b, z))
    ensures Nodes(Bent(d, o, oRed, n, nRed, c, cRed, x, a, b, z)) == Nodes(x) + Nodes(a) + Nodes(b) + Nodes(z) + {o, n, c}
  {
    BuildOrder(d, a, c, cRed, b);
    RotatedNodes(d, o, oRed, oRed, n, nRed, nRed, x, Build(d, a, c, cRed, b), z);
    BuildOrder(d, z, n, nRed', a);
    RotatedNodes(d, o, oRed', oRed', c, cRed', cRed', x, b, Build(d, z, n, nRed', a));
  }

  lemma {:induction false} StraightenedOrder(d: bool, o: Ptr, oRed: bool, oRed': bool, n: Ptr, nRed: bool, nRed': bool,
                                             c: Ptr, cRed: bool, cRed': bool, x: Tree, a: Tree, b: Tree, z: Tree)
    ensures InOrder(Straightened(d, o, oRed', n, nRed', c, cRed', x, a, b, z)) == InOrder(Bent(d, o, oRed, n, nRed, c, cRed, x, a, b, z))
  {
    var w := Build(d, z, n, nRed', a);
    var sub, sub' := Build(d, z, n, nRed, Build(d, a, c, cRed, b)), Build(d, w, c, cRed', b);
    RotatedOrder(!d, n, nRed, nRed', c, cRed, cRed', z, a, b);
    assert sub == Slanted(!d, n, nRed, c, cRed, z, a, b) && sub' == Rotated(!d, n, nRed', c, cRed', z, a, b);
    BuildOrder(d, sub, o, oRed, x);
    BuildOrder(d, sub', o, oRed, x);
    RotatedOrder(d, o, oRed, oRed', c, cRed', cRed', x, b, w);
  }

  // ----- cached minima -----

  function Lower(x: int, m: Mem, p: Ptr): int {
    if p != NULL && p in m && x > m[p].minVruntime then m[p].minVruntime else x
  }

  /** min_vruntime_update: the task's own vruntime, lowered by the right and then the left child. */
  function Recomputed(m: Mem, p: Ptr): int
    requires p in m
  {
    Lower(Lower(m[p].s.vruntime, m, m[p].right), m, m[p].left)
  }

  /** min_vruntime_cb_rotate. */
  function AugRotated(m: Mem, o: Ptr, n: Ptr): Mem
    requires o in m && n in m
  {
    var m1 := m[n := m[n].(minVruntime := m[o].minVruntime)];
    m1[o := m1[o].(minVruntime := Recomputed(m1, o))]
  }

  predicate RootOf(t: Tree, ptr: Ptr) {
    if t.Leaf? then ptr == NULL else ptr == t.p != NULL
  }

  lemma {:induction false} RecomputedIsMin(m: Mem, d: bool, p: Ptr, c: Tree, sib: Tree)
    requires p in m && p != NULL && Aug(m, c) && Aug(m, sib)
    requires RootOf(c, Child(m[p], d)) && RootOf(sib, Child(m[p], !d))
    ensures IsMin(m, Nodes(c) + {p} + Nodes(sib), Recomputed(m, p))
  {
    assert p in Nodes(c) + {p} + Nodes(sib);
  }

  lemma {:induction false} IsMinKeep(m: Mem, m': Mem, s: set<Ptr>, x: int)
    requires IsMin(m, s, x) && KeepsVruntime(m, m', s)
    ensures IsMin(m', s, x)
  {
  }

  lemma {:induction false} AugBuild(m: Mem, d: bool, c: Tree, p: Ptr, red: bool, sib: Tree)
    ensures Aug(m, Build(d, c, p, red, sib)) <==>
              p in m && IsMin(m, Nodes(c) + {p} + Nodes(sib), m[p].minVruntime) && Aug(m, c) && Aug(m, sib)
  {
    BuildOrder(d, c, p, red, sib);
  }

  lemma {:induction false} AugPaint(m: Mem, t: Tree, red: bool)
    requires Aug(m, t)
    ensures Aug(m, Paint(t, red))
  {
  }

  lemma {:induction false} PaintNodes(t: Tree, red: bool)
    ensures Nodes(Paint(t, red)) == Nodes(t) && InOrder(Paint(t, red)) == InOrder(t)
  {
  }

  /** Tasks other than `o` and `n` keep their cached minima. */
  lemma AugRotatedKeeps(m: Mem, o: Ptr, n: Ptr, s: set<Ptr>)
    requires o in m && n in m && s <= m.Keys
    ensures KeepsVruntime(m, AugRotated(m, o, n), s)
    ensures o !in s && n !in s ==> KeepsVals(m, AugRotated(m, o, n), s)
  {
  }

  lemma {:induction false} AugRotatedMin(m: Mem, d: bool, o: Ptr, n: Ptr, x: Tree, y: Tree)
    requires o in m && n in m && o != n && o != NULL && Aug(m, x) && Aug(m, y)
    requires o !in Nodes(x) && o !in Nodes(y) && n !in Nodes(x) && n !in Nodes(y)
    requires RootOf(x, Child(m[o], !d)) && RootOf(y, Child(m[o], d)) && Nodes(x) <= m.Keys && Nodes(y) <= m.Keys
    ensures IsMin(AugRotated(m, o, n), Nodes(y) + {o} + Nodes(x), AugRotated(m, o, n)[o].minVruntime)
  {
    var m1 := m[n := m[n].(minVruntime := m[o].minVruntime)];
    AugKeep(m, m1, x);
    AugKeep(m, m1, y);
    RecomputedIsMin(m1, d, o, y, x);
    IsMinKeep(m1, AugRotated(m, o, n), Nodes(y) + {o} + Nodes(x), Recomputed(m1, o));
  }

  /** After the links of a rotation are stored, `augment_rotate` makes every cached minimum right again. */
  lemma {:induction false} RotateAug(m: Mem, k: Ctx, d: bool, o: Ptr, oRed: bool, oRed': bool, n: Ptr, nRed: bool,
                                     x: Tree, y: Tree, z: Tree)
    requires o in m && n in m && o != NULL && Apart(o, n, Nodes(x), Nodes(y), Nodes(z), CtxNodes(k))
    requires Nodes(x) <= m.Keys && Nodes(y) <= m.Keys && Nodes(z) <= m.Keys && CtxNodes(k) <= m.Keys
    requires RootOf(x, Child(m[o], !d)) && RootOf(y, Child(m[o], d))
    requires Aug(m, Slanted(d, o, oRed, n, nRed, x, y, z))
    requires AugCtx(m, k, Nodes(Slanted(d, o, oRed, n, nRed, x, y, z)))
    ensures Aug(AugRotated(m, o, n), Rotated(d, o, oRed', n, oRed, x, y, z))
    ensures AugCtx(AugRotated(m, o, n), k, Nodes(Rotated(d, o, oRed', n, oRed, x, y, z)))
  {
    var m' := AugRotated(m, o, n);
    var s := Nodes(Slanted(d, o, oRed, n, nRed, x, y, z));
    RotatedNodes(d, o, oRed, oRed', n, nRed, oRed, x, y, z);
    AugRotatedKeeps(m, o, n, s);
    AugRotatedKeeps(m, o, n, CtxNodes(k));
    AugCtxKeep(m, m', k, s);
    assert IsMin(m, s, m[o].minVruntime) && Aug(m, x) && Aug(m, y) && Aug(m, z) by {
      AugBuild(m, d, Build(d, z, n, nRed, y), o, oRed, x);
      AugBuild(m, d, z, n, nRed, y);
    }
    assert Aug(m', Rotated(d, o, oRed', n, oRed, x, y, z)) by {
      IsMinKeep(m, m', s, m[o].minVruntime);
      AugRotatedKeeps(m, o, n, Nodes(x));
      AugRotatedKeeps(m, o, n, Nodes(y));
      AugRotatedKeeps(m, o, n, Nodes(z));
      AugKeep(m, m', x);
      AugKeep(m, m', y);
      AugKeep(m, m', z);
      AugRotatedMin(m, d, o, n, x, y);
      AugBuild(m', d, y, o, oRed', x);
      AugBuild(m', d, z, n, oRed, Build(d, y, o, oRed', x));
      BuildOrder(d, z, n, oRed, Build(d, y, o, oRed', x));
    }
  }

  lemma {:induction false} RotateTwiceAug(m: Mem, m': Mem, k: Ctx, d: bool,
                                          o: Ptr, oRed: bool, oRed': bool, n: Ptr, nRed: bool, nRed': bool,
                                          c: Ptr, cRed: bool, cRed': bool, x: Tree, a: Tree, b: Tree, z: Tree)
    requires Aug(m, Bent(d, o, oRed, n, nRed, c, cRed, x, a, b, z))
    requires AugCtx(m, k, Nodes(Bent(d, o, oRed, n, nRed, c, cRed, x, a, b, z)))
    requires o in m && n in m && c in m && KeepsVruntime(m, m', m.Keys)
    requires KeepsVals(m, m', Nodes(x)) && KeepsVals(m, m', Nodes(a)) && KeepsVals(m, m', Nodes(b)) && KeepsVals(m, m', Nodes(z))
    requires KeepsVals(m, m', CtxNodes(k))
    requires m'[c].minVruntime == m[o].minVruntime
    requires IsMin(m', Nodes(z) + {n} + Nodes(a), m'[n].minVruntime)
    requires IsMin(m', Nodes(b) + {o} + Nodes(x), m'[o].minVruntime)
    ensures Aug(m', Straightened(d, o, oRed', n, nRed', c, cRed', x, a, b, z))
    ensures AugCtx(m', k, Nodes(Straightened(d, o, oRed', n, nRed', c, cRed', x, a, b, z)))
  {
    var s := Nodes(Bent(d, o, oRed, n, nRed, c, cRed, x, a, b, z));
    var u, w := Build(d, z, n, nRed', a), Build(d, b, o, oRed', x);
    StraightenedNodes(d, o, oRed, oRed', n, nRed, nRed', c, cRed, cRed', x, a, b, z);
    assert KeepsVruntime(m, m', s);
    AugCtxKeep(m, m', k, s);
    assert IsMin(m, s, m[o].minVruntime) && Aug(m, x) && Aug(m, a) && Aug(m, b) && Aug(m, z) by {
      AugBuild(m, d, Build(d, z, n, nRed, Build(d, a, c, cRed, b)), o, oRed, x);
      AugBuild(m, d, z, n, nRed, Build(d, a, c, cRed, b));
      AugBuild(m, d, a, c, cRed, b);
    }
    assert Aug(m', Build(d, u, c, cRed', w)) by {
      IsMinKeep(m, m', s, m[o].minVruntime);
      AugKeep(m, m', x);
      AugKeep(m, m', a);
      AugKeep(m, m', b);
      AugKeep(m, m', z);
      AugBuild(m', d, z, n, nRed', a);
      AugBuild(m', d, b, o, oRed', x);
      AugBuild(m', d, u, c, cRed', w);
      BuildOrder(d, u, c, cRed', w);
    }
  }
}
