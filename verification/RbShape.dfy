/**
 The shape of an augmented red-black tree: abstract trees and one-hole contexts, the red-black
 conditions on them, and what it means for a memory of tasks to hold such a tree.
 The mirrored left and right arms of the program are one arm here, with the side as a parameter.
 */
module RbShape {

  /** A pointer into the memory of tasks; 0 is NULL. */
  type Ptr = int

  const NULL: Ptr := 0

  /** The part of a task that the tree code only reads. */
  datatype Sched = Sched(deadline: int, vruntime: int, weight: nat, onRq: bool,
                         execStart: int, sumExec: int, vlag: int, slice: nat)

  /** A task with its embedded tree node and the cached minimum of its subtree. */
  datatype Task = Task(left: Ptr, right: Ptr, parent: Ptr, red: bool, minVruntime: int, s: Sched)

  type Mem = map<Ptr, Task>

  function Child(x: Task, left: bool): Ptr { if left then x.left else x.right }

  function WithChild(x: Task, left: bool, c: Ptr): Task {
    if left then x.(left := c) else x.(right := c)
  }

  /** The tree the pointers spell out. */
  datatype Tree = Leaf | Node(l: Tree, p: Ptr, red: bool, r: Tree)

  /** A tree with a hole: the path from the hole up to the top. `left` says the hole is a left child. */
  datatype Ctx = Top | Frame(up: Ctx, left: bool, p: Ptr, red: bool, sib: Tree)

  function Build(left: bool, c: Tree, p: Ptr, red: bool, sib: Tree): Tree {
    if left then Node(c, p, red, sib) else Node(sib, p, red, c)
  }

  function Kid(t: Tree, left: bool): Tree
    requires t.Node?
  {
    if left then t.l else t.r
  }

  function Paint(t: Tree, red: bool): Tree {
    if t.Leaf? then t else t.(red := red)
  }

  function Plug(k: Ctx, t: Tree): Tree {
    if k.Top? then t else Plug(k.up, Build(k.left, t, k.p, k.red, k.sib))
  }

  function Append(k: Ctx, outer: Ctx): Ctx {
    if k.Top? then outer else k.(up := Append(k.up, outer))
  }

  function Nodes(t: Tree): set<Ptr> {
    if t.Leaf? then {} else Nodes(t.l) + {t.p} + Nodes(t.r)
  }

  function CtxNodes(k: Ctx): set<Ptr> {
    if k.Top? then {} else CtxNodes(k.up) + {k.p} + Nodes(k.sib)
  }

  function InOrder(t: Tree): seq<Ptr> {
    if t.Leaf? then [] else InOrder(t.l) + [t.p] + InOrder(t.r)
  }

  /** What comes before the hole, in order. */
  function Before(k: Ctx): seq<Ptr> {
    if k.Top? then [] else if k.left then Before(k.up) else Before(k.up) + InOrder(k.sib) + [k.p]
  }

  /** What comes after the hole, in order. */
  function After(k: Ctx): seq<Ptr> {
    if k.Top? then [] else if k.left then [k.p] + InOrder(k.sib) + After(k.up) else After(k.up)
  }

  // ----- red-black conditions -----

  predicate Red(t: Tree) { t.Node? && t.red }

  /** Number of black nodes on the leftmost path. */
  function Bh(t: Tree): nat {
    if t.Leaf? then 0 else Bh(t.l) + if t.red then 0 else 1
  }

  /** No red node has a red child, and all paths to a leaf hold the same number of black nodes. */
  predicate Rb(t: Tree) {
    t.Node? ==>
      Rb(t.l) && Rb(t.r) && Bh(t.l) == Bh(t.r) && (t.red ==> !Red(t.l) && !Red(t.r))
  }

  /** Plugging a red-black tree of black height `h` into the hole gives one with a black root;
      `red` says whether a red root is plugged in. */
  predicate CtxRb(k: Ctx, h: nat, red: bool) {
    if k.Top? then !red
    else
      && Rb(k.sib) && Bh(k.sib) == h && (k.red ==> !red && !Red(k.sib))
      && CtxRb(k.up, h + if k.red then 0 else 1, k.red)
  }

  lemma {:induction false} PlugRb(k: Ctx, t: Tree)
    requires Rb(t) && CtxRb(k, Bh(t), Red(t))
    ensures Rb(Plug(k, t)) && !Red(Plug(k, t))
    decreases k
  {
    if k.Frame? {
      PlugRb(k.up, Build(k.left, t, k.p, k.red, k.sib));
    }
  }

  lemma {:induction false} PlugInOrder(k: Ctx, t: Tree)
    ensures InOrder(Plug(k, t)) == Around(k, InOrder(t))
    decreases k
  {
    if k.Frame? {
      PlugInOrder(k.up, Build(k.left, t, k.p, k.red, k.sib));
      OrderUp(k, t);
    }
  }

  lemma {:induction false} PlugNodes(k: Ctx, t: Tree)
    ensures Nodes(Plug(k, t)) == CtxNodes(k) + Nodes(t)
    decreases k
  {
    if k.Frame? {
      PlugNodes(k.up, Build(k.left, t, k.p, k.red, k.sib));
    }
  }

  lemma {:induction false} InOrderNodes(t: Tree)
    ensures forall q :: q in InOrder(t) <==> q in Nodes(t)
  {
    if t.Node? {
      InOrderNodes(t.l);
      InOrderNodes(t.r);
    }
  }

  lemma {:induction false} OrderAt(t: Tree, i: int, q: Ptr)
    requires 0 <= i < |InOrder(t)| && InOrder(t)[i] == q
    ensures q in Nodes(t)
  {
    InOrderNodes(t);
    assert q in InOrder(t);
  }

  lemma {:induction false} CtxOrderNodes(k: Ctx)
    ensures forall q :: q in Before(k) || q in After(k) <==> q in CtxNodes(k)
  {
    if k.Frame? {
      CtxOrderNodes(k.up);
      InOrderNodes(k.sib);
    }
  }

  lemma {:induction false} AppendPlug(k: Ctx, outer: Ctx, t: Tree)
    ensures Plug(Append(k, outer), t) == Plug(outer, Plug(k, t))
    decreases k
  {
    if k.Frame? {
      AppendPlug(k.up, outer, Build(k.left, t, k.p, k.red, k.sib));
    }
  }

  lemma {:induction false} AppendNodes(k: Ctx, outer: Ctx)
    ensures CtxNodes(Append(k, outer)) == CtxNodes(k) + CtxNodes(outer)
    decreases k
  {
    if k.Frame? {
      AppendNodes(k.up, outer);
    }
  }

  lemma {:induction false} AppendOrder(k: Ctx, outer: Ctx)
    ensures Before(Append(k, outer)) == Before(outer) + Before(k)
    ensures After(Append(k, outer)) == After(k) + After(outer)
    decreases k
  {
    if k.Frame? {
      AppendOrder(k.up, outer);
      if k.left {
        assert [k.p] + InOrder(k.sib) + (After(k.up) + After(outer)) == ([k.p] + InOrder(k.sib) + After(k.up)) + After(outer);
      } else {
        assert (Before(outer) + Before(k.up)) + InOrder(k.sib) + [k.p] == Before(outer) + (Before(k.up) + InOrder(k.sib) + [k.p]);
      }
    }
  }

  // ----- trees held by a memory -----

  /** `ptr` points to tree `t`, whose root has parent `par`; no task occurs twice. */
  predicate Repr(m: Mem, t: Tree, ptr: Ptr, par: Ptr)
    decreases t
  {
    if t.Leaf? then ptr == NULL
    else
      && ptr == t.p != NULL && ptr in m
      && m[ptr].parent == par && m[ptr].red == t.red
      && ptr !in Nodes(t.l) && ptr !in Nodes(t.r) && Nodes(t.l) !! Nodes(t.r)
      && Repr(m, t.l, m[ptr].left, ptr) && Repr(m, t.r, m[ptr].right, ptr)
  }

  /** `Repr` of a node, seen from side `d`. */
  predicate ReprNode(m: Mem, d: bool, c: Tree, p: Ptr, red: bool, sib: Tree, par: Ptr) {
    && p != NULL && p in m && m[p].parent == par && m[p].red == red
    && p !in Nodes(c) && p !in Nodes(sib) && Nodes(c) !! Nodes(sib)
    && Repr(m, c, Child(m[p], d), p) && Repr(m, sib, Child(m[p], !d), p)
  }

  lemma {:induction false} ReprBuild(m: Mem, d: bool, c: Tree, p: Ptr, red: bool, sib: Tree, par: Ptr)
    ensures Repr(m, Build(d, c, p, red, sib), p, par) <==> ReprNode(m, d, c, p, red, sib, par)
    ensures Nodes(Build(d, c, p, red, sib)) == Nodes(c) + {p} + Nodes(sib)
  {
  }

  /** Context `k` hangs from pointer `top` (with parent `topPar`), and its hole is filled by
      pointer `ptr` whose parent is `par`. */
  predicate ReprCtx(m: Mem, top: Ptr, topPar: Ptr, k: Ctx, ptr: Ptr, par: Ptr)
    decreases k
  {
    if k.Top? then ptr == top && par == topPar
    else
      && par == k.p != NULL && par in m && m[par].red == k.red
      && Child(m[par], k.left) == ptr
      && Repr(m, k.sib, Child(m[par], !k.left), par)
      && par !in Nodes(k.sib) && par !in CtxNodes(k.up) && Nodes(k.sib) !! CtxNodes(k.up)
      && ReprCtx(m, top, topPar, k.up, par, m[par].parent)
  }

  /** Tree `t` sits in the hole of `k` in the whole tree rooted at `root`. */
  predicate Located(m: Mem, root: Ptr, k: Ctx, t: Tree, ptr: Ptr, par: Ptr) {
    Repr(m, t, ptr, par) && ReprCtx(m, root, NULL, k, ptr, par) && Nodes(t) !! CtxNodes(k)
  }

  predicate SameLinks(a: Task, b: Task) {
    a.left == b.left && a.right == b.right && a.parent == b.parent && a.red == b.red
  }

  predicate KeepsLinks(m: Mem, m': Mem, s: set<Ptr>) {
    forall q :: q in s ==> q in m && q in m' && SameLinks(m[q], m'[q])
  }

  lemma {:induction false} ReprNodes(m: Mem, t: Tree, ptr: Ptr, par: Ptr)
    requires Repr(m, t, ptr, par)
    ensures NULL !in Nodes(t) && Nodes(t) <= m.Keys
    decreases t
  {
    if t.Node? {
      ReprNodes(m, t.l, m[ptr].left, ptr);
      ReprNodes(m, t.r, m[ptr].right, ptr);
    }
  }

  lemma {:induction false} ReprCtxNodes(m: Mem, top: Ptr, topPar: Ptr, k: Ctx, ptr: Ptr, par: Ptr)
    requires ReprCtx(m, top, topPar, k, ptr, par)
    ensures NULL !in CtxNodes(k) && CtxNodes(k) <= m.Keys
    decreases k
  {
    if k.Frame? {
      ReprNodes(m, k.sib, Child(m[par], !k.left), par);
      ReprCtxNodes(m, top, topPar, k.up, par, m[par].parent);
    }
  }

  lemma {:induction false} ReprKeep(m: Mem, m': Mem, t: Tree, ptr: Ptr, par: Ptr)
    requires Repr(m, t, ptr, par) && KeepsLinks(m, m', Nodes(t))
    ensures Repr(m', t, ptr, par)
    decreases t
  {
    if t.Node? {
      ReprKeep(m, m', t.l, m[ptr].left, ptr);
      ReprKeep(m, m', t.r, m[ptr].right, ptr);
    }
  }

  /** The root of a subtree may get another parent and another colour. */
  lemma {:induction false} ReprMove(m: Mem, m': Mem, t: Tree, ptr: Ptr, par: Ptr, par': Ptr, red': bool)
    requires Repr(m, t, ptr, par) && KeepsLinks(m, m', Nodes(t) - {ptr})
    requires t.Node? ==> ptr in m' && m'[ptr].left == m[ptr].left && m'[ptr].right == m[ptr].right
                         && m'[ptr].parent == par' && m'[ptr].red == red'
    ensures Repr(m', Paint(t, red'), ptr, par')
  {
    if t.Node? {
      ReprKeep(m, m', t.l, m[ptr].left, ptr);
      ReprKeep(m, m', t.r, m[ptr].right, ptr);
    }
  }

  lemma {:induction false} CtxKeep(m: Mem, m': Mem, top: Ptr, topPar: Ptr, k: Ctx, ptr: Ptr, par: Ptr)
    requires ReprCtx(m, top, topPar, k, ptr, par) && KeepsLinks(m, m', CtxNodes(k))
    ensures ReprCtx(m', top, topPar, k, ptr, par)
    decreases k
  {
    if k.Frame? {
      ReprKeep(m, m', k.sib, Child(m[par], !k.left), par);
      CtxKeep(m, m', top, topPar, k.up, par, m[par].parent);
    }
  }

  /** The hole of a context gets another pointer. */
  lemma {:induction false} CtxMove(m: Mem, m': Mem, top: Ptr, top': Ptr, topPar: Ptr, k: Ctx, ptr: Ptr, ptr': Ptr, par: Ptr)
    requires ReprCtx(m, top, topPar, k, ptr, par) && KeepsLinks(m, m', CtxNodes(k) - {par})
    requires if k.Top? then top' == ptr' else
               top' == top && par in m' && SameLinks(m'[par], WithChild(m[par], k.left, ptr'))
    ensures ReprCtx(m', top', topPar, k, ptr', par)
  {
    if k.Frame? {
      ReprKeep(m, m', k.sib, Child(m[par], !k.left), par);
      CtxKeep(m, m', top, topPar, k.up, par, m[par].parent);
    }
  }

  lemma {:induction false} AppendRepr(m: Mem, top: Ptr, topPar: Ptr, mid: Ptr, midPar: Ptr,
                                      k: Ctx, outer: Ctx, ptr: Ptr, par: Ptr)
    requires ReprCtx(m, mid, midPar, k, ptr, par) && ReprCtx(m, top, topPar, outer, mid, midPar)
    requires CtxNodes(k) !! CtxNodes(outer)
    ensures ReprCtx(m, top, topPar, Append(k, outer), ptr, par)
    decreases k
  {
    if k.Frame? {
      AppendRepr(m, top, topPar, mid, midPar, k.up, outer, par, m[par].parent);
      AppendNodes(k.up, outer);
    }
  }

  // ----- the augmentation: every task caches the least vruntime of its subtree -----

  predicate IsMin(m: Mem, s: set<Ptr>, x: int) {
    && (exists q :: q in s && q in m && m[q].s.vruntime == x)
    && (forall q :: q in s ==> q in m && x <= m[q].s.vruntime)
  }

  predicate Aug(m: Mem, t: Tree) {
    t.Node? ==> t.p in m && IsMin(m, Nodes(t), m[t.p].minVruntime) && Aug(m, t.l) && Aug(m, t.r)
  }

  /** Every cached minimum on the path is right when the hole holds the tasks `s`. */
  predicate AugCtx(m: Mem, k: Ctx, s: set<Ptr>)
    decreases k
  {
    k.Frame? ==>
      var s' := s + {k.p} + Nodes(k.sib);
      k.p in m && IsMin(m, s', m[k.p].minVruntime) && Aug(m, k.sib) && AugCtx(m, k.up, s')
  }

  predicate KeepsVals(m: Mem, m': Mem, s: set<Ptr>) {
    forall q :: q in s ==> q in m && q in m' && m[q].s.vruntime == m'[q].s.vruntime
                           && m[q].minVruntime == m'[q].minVruntime
  }

  predicate KeepsVruntime(m: Mem, m': Mem, s: set<Ptr>) {
    forall q :: q in s ==> q in m && q in m' && m[q].s.vruntime == m'[q].s.vruntime
  }

  lemma {:induction false} AugKeep(m: Mem, m': Mem, t: Tree)
    requires Aug(m, t) && KeepsVals(m, m', Nodes(t))
    ensures Aug(m', t)
  {
    if t.Node? {
      AugKeep(m, m', t.l);
      AugKeep(m, m', t.r);
    }
  }

  lemma {:induction false} AugCtxKeep(m: Mem, m': Mem, k: Ctx, s: set<Ptr>)
    requires AugCtx(m, k, s) && KeepsVruntime(m, m', s) && KeepsVals(m, m', CtxNodes(k))
    ensures AugCtx(m', k, s)
    decreases k
  {
    if k.Frame? {
      AugKeep(m, m', k.sib);
      AugCtxKeep(m, m', k.up, s + {k.p} + Nodes(k.sib));
    }
  }

  /** Early exit: if the hole keeps its minimum, everything above is right already. */
  lemma {:induction false} AugCtxSwap(m: Mem, k: Ctx, a: set<Ptr>, b: set<Ptr>, x: int)
    requires AugCtx(m, k, a) && IsMin(m, a, x) && IsMin(m, b, x)
    ensures AugCtx(m, k, b)
    decreases k
  {
    if k.Frame? {
      var a', b' := a + {k.p} + Nodes(k.sib), b + {k.p} + Nodes(k.sib);
      var y := m[k.p].minVruntime;
      assert IsMin(m, b', y) by {
        var q :| q in a' && q in m && m[q].s.vruntime == y;
        var qb :| qb in b && qb in m && m[qb].s.vruntime == x;
        var qa :| qa in a && qa in m && m[qa].s.vruntime == x;
        assert qa in a' && qb in b';
        if q in a {
          assert y == x;
        } else {
          assert q in b';
        }
      }
      AugCtxSwap(m, k.up, a', b', y);
    }
  }

  lemma {:induction false} PlugAug(m: Mem, k: Ctx, t: Tree)
    requires Aug(m, t) && AugCtx(m, k, Nodes(t))
    ensures Aug(m, Plug(k, t))
    decreases k
  {
    if k.Frame? {
      var t' := Build(k.left, t, k.p, k.red, k.sib);
      assert Nodes(t') == Nodes(t) + {k.p} + Nodes(k.sib);
      PlugAug(m, k.up, t');
    }
  }

  lemma {:induction false} AppendAug(m: Mem, k: Ctx, outer: Ctx, s: set<Ptr>)
    requires AugCtx(m, k, s) && AugCtx(m, outer, s + CtxNodes(k))
    ensures AugCtx(m, Append(k, outer), s)
    decreases k
  {
    if k.Frame? {
      var s' := s + {k.p} + Nodes(k.sib);
      assert s' + CtxNodes(k.up) == s + CtxNodes(k);
      AppendAug(m, k.up, outer, s');
    } else {
      assert s + CtxNodes(k) == s;
    }
  }

  // ----- moving the hole -----

  lemma {:induction false} LocatedUp(m: Mem, root: Ptr, k: Ctx, t: Tree, ptr: Ptr, par: Ptr)
    requires Located(m, root, k, t, ptr, par) && k.Frame?
    ensures par == k.p && par in m && par != NULL && Child(m[par], k.left) == ptr
    ensures Located(m, root, k.up, Build(k.left, t, k.p, k.red, k.sib), par, m[par].parent)
  {
    ReprBuild(m, k.left, t, k.p, k.red, k.sib, m[par].parent);
  }

  lemma {:induction false} LocatedDown(m: Mem, root: Ptr, k: Ctx, t: Tree, d: bool, ptr: Ptr, par: Ptr)
    requires Located(m, root, k, t, ptr, par) && t.Node?
    ensures ptr == t.p && ptr in m && ptr != NULL
    ensures Located(m, root, Frame(k, d, t.p, t.red, Kid(t, !d)), Kid(t, d), Child(m[ptr], d), ptr)
  {
    ReprBuild(m, d, Kid(t, d), t.p, t.red, Kid(t, !d), par);
  }

  lemma {:induction false} AugUp(m: Mem, k: Ctx, t: Tree)
    requires k.Frame? && Aug(m, t) && AugCtx(m, k, Nodes(t))
    ensures Aug(m, Build(k.left, t, k.p, k.red, k.sib))
    ensures AugCtx(m, k.up, Nodes(Build(k.left, t, k.p, k.red, k.sib)))
  {
    assert Nodes(Build(k.left, t, k.p, k.red, k.sib)) == Nodes(t) + {k.p} + Nodes(k.sib);
  }

  lemma {:induction false} AugDown(m: Mem, k: Ctx, t: Tree, d: bool)
    requires t.Node? && Aug(m, t) && AugCtx(m, k, Nodes(t))
    ensures Aug(m, Kid(t, d)) && AugCtx(m, Frame(k, d, t.p, t.red, Kid(t, !d)), Nodes(Kid(t, d)))
  {
    assert Nodes(Kid(t, d)) + {t.p} + Nodes(Kid(t, !d)) == Nodes(t);
  }

  /** The in-order sequence with `s` at the hole. */
  function Around(k: Ctx, s: seq<Ptr>): seq<Ptr> { Before(k) + s + After(k) }

  lemma {:induction false} OrderUp(k: Ctx, t: Tree)
    requires k.Frame?
    ensures Around(k, InOrder(t)) == Around(k.up, InOrder(Build(k.left, t, k.p, k.red, k.sib)))
  {
  }
}
