/**
 Adding a task to the tree ordered by deadline: the descent and linking of
 `rb_add_augmented_cached`, and the propagation of cached minima with its early exit.
 */
module RbAdd {
  import opened RbShape
  import opened RbRotate
  import opened RbMoves
  import opened RbInsert

  // ----- propagation -----

  lemma {:induction false} PlugAugInv(m: Mem, k: Ctx, t: Tree)
    requires Aug(m, Plug(k, t))
    ensures Aug(m, t) && AugCtx(m, k, Nodes(t))
    decreases k
  {
    if k.Frame? {
      PlugAugInv(m, k.up, Build(k.left, t, k.p, k.red, k.sib));
      AugBuild(m, k.left, t, k.p, k.red, k.sib);
      BuildOrder(k.left, t, k.p, k.red, k.sib);
    }
  }

  /** The cached minimum of the root of `t` and those on the path above are right for tasks `a`; below, all is right. */
  ghost predicate Stale(m: Mem, top: Ptr, stop: Ptr, k: Ctx, t: Tree, rb: Ptr, a: set<Ptr>) {
    && NULL !in m && t.Node? && rb in m && Repr(m, t, rb, m[rb].parent) && ReprCtx(m, top, stop, k, rb, m[rb].parent)
    && Nodes(t) !! CtxNodes(k) && stop !in Nodes(t) && stop !in CtxNodes(k)
    && Aug(m, t.l) && Aug(m, t.r) && a <= m.Keys && IsMin(m, a, m[rb].minVruntime) && AugCtx(m, k, a)
  }

  /** Only cached minima of tasks in `s` differ. */
  predicate OnlyMins(m: Mem, m': Mem, s: set<Ptr>) {
    && SamePayload(m, m') && KeepsLinks(m, m', m.Keys)
    && forall q :: q in m && q !in s ==> m'[q].minVruntime == m[q].minVruntime
  }

  lemma {:induction false} StaleMin(m: Mem, top: Ptr, stop: Ptr, k: Ctx, t: Tree, rb: Ptr, a: set<Ptr>)
    requires Stale(m, top, stop, k, t, rb, a)
    ensures IsMin(m, Nodes(t), Recomputed(m, rb))
  {
    ReprRoot(m, t.l, m[rb].left, rb);
    ReprRoot(m, t.r, m[rb].right, rb);
    RecomputedIsMin(m, true, rb, t.l, t.r);
  }

  lemma {:induction false} ReprRoot(m: Mem, t: Tree, ptr: Ptr, par: Ptr)
    requires Repr(m, t, ptr, par)
    ensures RootOf(t, ptr)
  {
  }

  /** The memory after the cached minimum of `rb` was stored. */
  function WithMin(m: Mem, rb: Ptr, low: int): Mem
    requires rb in m
  {
    m[rb := m[rb].(minVruntime := low)]
  }

  lemma WithMinKeeps(m: Mem, rb: Ptr, low: int, s: set<Ptr>)
    requires rb in m && s <= m.Keys
    ensures KeepsLinks(m, WithMin(m, rb, low), s) && KeepsVruntime(m, WithMin(m, rb, low), s)
    ensures rb !in s ==> KeepsVals(m, WithMin(m, rb, low), s)
  {
  }

  lemma {:induction false} StaleStepAug(m: Mem, k: Ctx, t: Tree, rb: Ptr, a: set<Ptr>, low: int)
    requires t.Node? && rb in m && rb == t.p && rb !in Nodes(t.l) && rb !in Nodes(t.r) && rb !in CtxNodes(k)
    requires Nodes(t) <= m.Keys && CtxNodes(k) <= m.Keys && a <= m.Keys
    requires Aug(m, t.l) && Aug(m, t.r) && AugCtx(m, k, a) && IsMin(m, Nodes(t), low)
    ensures Aug(WithMin(m, rb, low), t) && AugCtx(WithMin(m, rb, low), k, a)
  {
    var m1 := WithMin(m, rb, low);
    WithMinKeeps(m, rb, low, Nodes(t.l));
    WithMinKeeps(m, rb, low, Nodes(t.r));
    WithMinKeeps(m, rb, low, Nodes(t));
    WithMinKeeps(m, rb, low, a);
    WithMinKeeps(m, rb, low, CtxNodes(k));
    AugKeep(m, m1, t.l);
    AugKeep(m, m1, t.r);
    IsMinKeep(m, m1, Nodes(t), low);
    AugCtxKeep(m, m1, k, a);
  }

  /** One step of the propagation: the root of `t` is right now, and the staleness moves up. */
  lemma {:induction false} StaleStep(m: Mem, top: Ptr, stop: Ptr, k: Ctx, t: Tree, rb: Ptr, a: set<Ptr>, low: int)
    requires Stale(m, top, stop, k, t, rb, a) && IsMin(m, Nodes(t), low)
    ensures var m1 := WithMin(m, rb, low);
            && Aug(m1, t) && AugCtx(m1, k, a)
            && Repr(m1, t, rb, m[rb].parent) && ReprCtx(m1, top, stop, k, rb, m[rb].parent)
  {
    ReprNodes(m, t, rb, m[rb].parent);
    ReprCtxNodes(m, top, stop, k, rb, m[rb].parent);
    StaleStepAug(m, k, t, rb, a, low);
    WithMinKeeps(m, rb, low, Nodes(t));
    WithMinKeeps(m, rb, low, CtxNodes(k));
    ReprKeep(m, WithMin(m, rb, low), t, rb, m[rb].parent);
    CtxKeep(m, WithMin(m, rb, low), top, stop, k, rb, m[rb].parent);
  }

  lemma OnlyMinsStep(m0: Mem, m: Mem, s: set<Ptr>, rb: Ptr, low: int)
    requires OnlyMins(m0, m, s) && rb in s && rb in m
    ensures OnlyMins(m0, WithMin(m, rb, low), s)
  {
  }

  lemma {:induction false} StaleUp(m: Mem, top: Ptr, stop: Ptr, k: Ctx, t: Tree, ptr: Ptr, par: Ptr, a: set<Ptr>)
    requires NULL !in m && k.Frame? && Repr(m, t, ptr, par) && ReprCtx(m, top, stop, k, ptr, par)
    requires Nodes(t) !! CtxNodes(k) && stop !in Nodes(t) && stop !in CtxNodes(k)
    requires Aug(m, t) && AugCtx(m, k, a) && a <= m.Keys
    ensures Stale(m, top, stop, k.up, Build(k.left, t, k.p, k.red, k.sib), par, a + {k.p} + Nodes(k.sib))
  {
    ReprCtxNodes(m, top, stop, k, ptr, par);
    ReprBuild(m, k.left, t, k.p, k.red, k.sib, m[k.p].parent);
  }

  /** Early exit: the whole tree is right. */
  lemma {:induction false} StaleExit(m: Mem, top: Ptr, stop: Ptr, k: Ctx, t: Tree, rb: Ptr, a: set<Ptr>)
    requires Stale(m, top, stop, k, t, rb, a) && IsMin(m, Nodes(t), m[rb].minVruntime)
    ensures Aug(m, Plug(k, t))
  {
    AugCtxSwap(m, k, a, Nodes(t), m[rb].minVruntime);
    PlugAug(m, k, t);
  }

  lemma {:induction false} StaleAdvance(m: Mem, top: Ptr, stop: Ptr, k: Ctx, t: Tree, rb: Ptr, a: set<Ptr>, low: int)
    requires Stale(m, top, stop, k, t, rb, a) && IsMin(m, Nodes(t), low)
    ensures rb in Nodes(Plug(k, t))
    ensures k.Top? ==> m[rb].parent == stop && Aug(WithMin(m, rb, low), Plug(k, t))
    ensures k.Frame? ==>
              m[rb].parent != stop &&
              Stale(WithMin(m, rb, low), top, stop, k.up, Build(k.left, t, k.p, k.red, k.sib), m[rb].parent, a + {k.p} + Nodes(k.sib))
  {
    StaleStep(m, top, stop, k, t, rb, a, low);
    PlugNodes(k, t);
    if k.Frame? {
      StaleUp(WithMin(m, rb, low), top, stop, k, t, rb, m[rb].parent, a);
    }
  }

  /** min_vruntime_cb_propagate, entered with a node other than `stop`. */
  method Propagate(m0: Mem, rb0: Ptr, stop: Ptr, ghost top: Ptr, ghost k0: Ctx, ghost t0: Tree, ghost a0: set<Ptr>)
    returns (m: Mem)
    requires rb0 != stop && Stale(m0, top, stop, k0, t0, rb0, a0)
    ensures Aug(m, t0) && AugCtx(m, k0, Nodes(t0)) && OnlyMins(m0, m, Nodes(t0) + CtxNodes(k0))
  {
    m := m0;
    var rb := rb0;
    ghost var k, t, a := k0, t0, a0;
    ghost var whole := Plug(k0, t0);
    PlugNodes(k0, t0);
    while rb != stop
      invariant rb != stop ==> Stale(m, top, stop, k, t, rb, a) && Plug(k, t) == whole
      invariant OnlyMins(m0, m, Nodes(whole))
      invariant rb == stop ==> Aug(m, whole)
      decreases if rb == stop then 0 else 1, k
    {
      var low := Recomputed(m, rb);
      StaleMin(m, top, stop, k, t, rb, a);
      if low == m[rb].minVruntime {
        StaleExit(m, top, stop, k, t, rb, a);
        break;
      }
      StaleAdvance(m, top, stop, k, t, rb, a, low);
      OnlyMinsStep(m0, m, Nodes(whole), rb, low);
      m := WithMin(m, rb, low);
      if k.Frame? {
        t, a, k := Build(k.left, t, k.p, k.red, k.sib), a + {k.p} + Nodes(k.sib), k.up;
      }
      rb := m[rb].parent;
    }
    PlugAugInv(m, k0, t0);
    assert Nodes(t0) + CtxNodes(k0) == Nodes(whole);
  }

  // ----- order by deadline -----

  ghost predicate AllIn(m: Mem, s: seq<Ptr>) {
    forall i :: 0 <= i < |s| ==> s[i] in m
  }

  ghost predicate Sorted(m: Mem, s: seq<Ptr>) {
    && AllIn(m, s)
    && forall i, j :: 0 <= i < j < |s| ==> m[s[i]].s.deadline <= m[s[j]].s.deadline
  }

  /** Linear insertion behind every task with the same or an earlier deadline: the reference for the tree. */
  ghost function SortedInsert(m: Mem, s: seq<Ptr>, x: Ptr): seq<Ptr>
    requires x in m && AllIn(m, s)
  {
    if s == [] then [x]
    else if m[x].s.deadline < m[s[0]].s.deadline then [x] + s
    else [s[0]] + SortedInsert(m, s[1..], x)
  }

  ghost predicate AllLe(m: Mem, s: seq<Ptr>, v: int) {
    forall i :: 0 <= i < |s| ==> s[i] in m && m[s[i]].s.deadline <= v
  }

  ghost predicate AllGe(m: Mem, s: seq<Ptr>, v: int) {
    forall i :: 0 <= i < |s| ==> s[i] in m && m[s[i]].s.deadline >= v
  }

  lemma {:induction false} SortedInsertSplit(m: Mem, a: seq<Ptr>, b: seq<Ptr>, x: Ptr)
    requires x in m && AllLe(m, a, m[x].s.deadline) && AllGe(m, b, m[x].s.deadline + 1)
    ensures AllIn(m, a + b) && SortedInsert(m, a + b, x) == a + [x] + b
  {
    if a == [] {
      assert a + b == b;
    } else {
      assert (a + b)[1..] == a[1..] + b && (a + b)[0] == a[0];
      SortedInsertSplit(m, a[1..], b, x);
      assert [a[0]] + (a[1..] + [x] + b) == a + [x] + b;
    }
  }

  lemma InsertedSorted(m: Mem, a: seq<Ptr>, b: seq<Ptr>, x: Ptr)
    requires Sorted(m, a + b) && x in m && AllLe(m, a, m[x].s.deadline) && AllGe(m, b, m[x].s.deadline + 1)
    ensures Sorted(m, a + [x] + b)
  {
    var s, s' := a + b, a + [x] + b;
    forall i, j | 0 <= i < j < |s'| ensures s'[i] in m && s'[j] in m && m[s'[i]].s.deadline <= m[s'[j]].s.deadline {
      assert i < |a| ==> s'[i] == a[i] == s[i];
      assert i > |a| ==> s'[i] == b[i - |a| - 1] == s[i - 1];
      assert j < |a| ==> s'[j] == a[j] == s[j];
      assert j > |a| ==> s'[j] == b[j - |a| - 1] == s[j - 1];
    }
  }

  lemma SortedMiddle(m: Mem, a: seq<Ptr>, p: Ptr, b: seq<Ptr>)
    requires Sorted(m, a + [p] + b)
    ensures p in m && AllLe(m, a, m[p].s.deadline) && AllGe(m, b, m[p].s.deadline)
  {
    var s := a + [p] + b;
    assert s[|a|] == p;
    assert forall i :: 0 <= i < |a| ==> s[i] == a[i];
    assert forall i :: 0 <= i < |b| ==> s[|a| + 1 + i] == b[i];
  }

  function First(s: seq<Ptr>): Ptr { if s == [] then NULL else s[0] }

  // ----- descent and linking -----

  /** The hole of `k` is where `x` belongs. */
  ghost predicate Bracketed(m: Mem, k: Ctx, x: Ptr) {
    x in m && AllLe(m, Before(k), m[x].s.deadline) && AllGe(m, After(k), m[x].s.deadline + 1)
  }

  lemma BracketSeqs(m: Mem, l: seq<Ptr>, p: Ptr, r: seq<Ptr>, before: seq<Ptr>, after: seq<Ptr>, v: int)
    requires Sorted(m, (before + l) + [p] + (r + after)) && p in m
    ensures v < m[p].s.deadline && AllGe(m, after, v + 1) ==> AllGe(m, [p] + r + after, v + 1)
    ensures m[p].s.deadline <= v && AllLe(m, before, v) ==> AllLe(m, before + l + [p], v)
  {
    SortedMiddle(m, before + l, p, r + after);
    assert forall i :: 0 <= i < |r| ==> (r + after)[i] == r[i];
    assert forall i :: 0 <= i < |l| ==> (before + l)[|before| + i] == l[i];
  }

  lemma {:induction false} BracketStep(m: Mem, k: Ctx, t: Tree, x: Ptr, d: bool)
    requires Bracketed(m, k, x) && Sorted(m, Around(k, InOrder(t))) && t.Node? && t.p in m
    requires d == (m[x].s.deadline < m[t.p].s.deadline)
    ensures Bracketed(m, Frame(k, d, t.p, t.red, Kid(t, !d)), x)
  {
    assert Around(k, InOrder(t)) == (Before(k) + InOrder(t.l)) + [t.p] + (InOrder(t.r) + After(k));
    BracketSeqs(m, InOrder(t.l), t.p, InOrder(t.r), Before(k), After(k), m[x].s.deadline);
  }

  ghost predicate Descending(m: Mem, root: Ptr, k: Ctx, t: Tree, ptr: Ptr, parent: Ptr, x: Ptr, s: seq<Ptr>) {
    && At(m, root, k, t, ptr, parent) && Rb(t) && CtxRb(k, Bh(t), Red(t)) && Bracketed(m, k, x)
    && Around(k, InOrder(t)) == s
  }

  lemma {:induction false} DescendStep(m: Mem, root: Ptr, k: Ctx, t: Tree, ptr: Ptr, parent: Ptr, x: Ptr, s: seq<Ptr>)
    requires Descending(m, root, k, t, ptr, parent, x, s) && Sorted(m, s) && t.Node?
    ensures ptr in m && ptr == t.p
    ensures var d := m[x].s.deadline < m[ptr].s.deadline;
            Descending(m, root, Frame(k, d, t.p, t.red, Kid(t, !d)), Kid(t, d), Child(m[ptr], d), ptr, x, s)
  {
    var d := m[x].s.deadline < m[ptr].s.deadline;
    AtDown(m, root, k, t, d, ptr, parent);
    OrderUp(Frame(k, d, t.p, t.red, Kid(t, !d)), Kid(t, d));
    BracketStep(m, k, t, x, d);
  }

  /** rb_link_node: a red leaf at the hole. */
  function Linked(m: Mem, node: Ptr, parent: Ptr, left: bool): Mem
    requires node in m && (parent != NULL ==> parent in m)
  {
    var m1 := m[node := m[node].(parent := parent, red := true, left := NULL, right := NULL)];
    if parent == NULL then m1 else m1[parent := WithChild(m1[parent], left, node)]
  }

  lemma LinkedKeeps(m: Mem, node: Ptr, parent: Ptr, left: bool)
    requires node in m && (parent != NULL ==> parent in m) && NULL !in m && node != parent
    ensures OnlyLinks(m, Linked(m, node, parent, left)) && Touches(m, Linked(m, node, parent, left), {node, parent})
    ensures HasLinks(Linked(m, node, parent, left)[node], true, NULL, NULL, parent, true)
    ensures parent != NULL ==> SameLinks(Linked(m, node, parent, left)[parent], WithChild(m[parent], left, node))
  {
  }

  lemma {:induction false} LinkLocated(m: Mem, m1: Mem, root: Ptr, root1: Ptr, k: Ctx, node: Ptr, parent: Ptr)
    requires NULL !in m && Located(m, root, k, Leaf, NULL, parent) && node in m && node !in CtxNodes(k)
    requires OnlyLinks(m, m1) && Touches(m, m1, {node, parent}) && HasLinks(m1[node], true, NULL, NULL, parent, true)
    requires if k.Top? then root1 == node else
               root1 == root && parent in m && SameLinks(m1[parent], WithChild(m[parent], k.left, node))
    ensures Located(m1, root1, k, Node(Leaf, node, true, Leaf), node, parent)
    ensures k.Frame? ==> parent in CtxNodes(k)
  {
    ReprCtxNodes(m, root, NULL, k, NULL, parent);
    CtxMove(m, m1, root, root1, NULL, k, NULL, node, parent);
    assert Repr(m1, Leaf, NULL, node);
    assert Nodes(Node(Leaf, node, true, Leaf)) == {node};
  }

  /** The parent of the new node still caches the minimum without it. */
  lemma {:induction false} LinkStale(m: Mem, m1: Mem, root: Ptr, k: Ctx, node: Ptr, parent: Ptr)
    requires NULL !in m && OnlyLinks(m, m1) && node in m && AugCtx(m, k, {}) && CtxNodes(k) <= m.Keys && k.Frame?
    requires m[node].minVruntime == m[node].s.vruntime
    requires Located(m1, root, k, Node(Leaf, node, true, Leaf), node, parent)
    ensures Stale(m1, root, NULL, k.up, Build(k.left, Node(Leaf, node, true, Leaf), k.p, k.red, k.sib), parent,
                  {} + {k.p} + Nodes(k.sib))
  {
    var sub := Node(Leaf, node, true, Leaf);
    assert Nodes(sub) == {node};
    AugCtxKeep(m, m1, k, {});
    assert Aug(m1, sub) by {
      assert node in Nodes(sub);
    }
    ReprCtxNodes(m1, root, NULL, k, node, parent);
    ReprNodes(m1, sub, node, parent);
    StaleUp(m1, root, NULL, k, sub, node, parent, {});
  }

  lemma {:induction false} LeafAug(m: Mem, node: Ptr)
    requires node in m && m[node].minVruntime == m[node].s.vruntime
    ensures Aug(m, Node(Leaf, node, true, Leaf))
  {
    assert Nodes(Node(Leaf, node, true, Leaf)) == {node};
    assert node in {node};
  }

  /** Linking and propagation, up to the state the colour fix-up starts from. */
  method LinkAt(m0: Mem, root0: Ptr, node: Ptr, parent: Ptr, left: bool, ghost k: Ctx) returns (m: Mem, root: Ptr)
    requires At(m0, root0, k, Leaf, NULL, parent) && CtxRb(k, 0, false) && (k.Frame? ==> left == k.left)
    requires node in m0 && node !in CtxNodes(k) && m0[node].minVruntime == m0[node].s.vruntime
    ensures Fixing(m, root, k, Node(Leaf, node, true, Leaf), node, parent) && node in m && m[node].parent == parent
    ensures SamePayload(m0, m)
  {
    ReprCtxNodes(m0, root0, NULL, k, NULL, parent);
    assert k.Frame? ==> parent in CtxNodes(k);
    LinkedKeeps(m0, node, parent, left);
    m := Linked(m0, node, parent, left);
    root := if parent == NULL then node else root0;
    LinkLocated(m0, m, root0, root, k, node, parent);
    ghost var m1 := m;
    ghost var sub := Node(Leaf, node, true, Leaf);
    if parent != NULL {
      LinkStale(m0, m, root, k, node, parent);
      ghost var t1 := Build(k.left, sub, k.p, k.red, k.sib);
      m := Propagate(m, parent, NULL, root, k.up, t1, {} + {k.p} + Nodes(k.sib));
      LocatedKeep(m1, m, root, k, sub, node, parent);
      AugDown(m, k.up, t1, k.left);
      assert Kid(t1, k.left) == sub && Frame(k.up, k.left, t1.p, t1.red, Kid(t1, !k.left)) == k;
    } else {
      LeafAug(m, node);
    }
    assert Rb(sub) && Bh(sub) == 0 by {
      assert Rb(Leaf);
    }
  }

  /** The search for the hole: behind every task with the same or an earlier deadline. */
  method Descend(m: Mem, root: Ptr, node: Ptr, ghost tree: Tree)
    returns (parent: Ptr, left: bool, first: bool, ghost k: Ctx)
    requires Whole(m, root, tree) && Sorted(m, InOrder(tree)) && node in m && node !in Nodes(tree)
    ensures Descending(m, root, k, Leaf, NULL, parent, node, InOrder(tree)) && node !in CtxNodes(k)
    ensures (first <==> Before(k) == []) && (k.Frame? ==> left == k.left)
  {
    var ptr := root;
    parent, left, first, k := NULL, true, true, Top;
    ghost var t := tree;
    ghost var s := InOrder(tree);
    while ptr != NULL
      invariant Descending(m, root, k, t, ptr, parent, node, s)
      invariant first <==> Before(k) == []
      invariant k.Frame? ==> left == k.left
      invariant node !in CtxNodes(k) && node !in Nodes(t)
      decreases t
    {
      DescendStep(m, root, k, t, ptr, parent, node, s);
      parent := ptr;
      if m[node].s.deadline < m[parent].s.deadline {
        ptr, left := m[parent].left, true;
        k, t := Frame(k, true, t.p, t.red, t.r), t.l;
      } else {
        ptr, left, first := m[parent].right, false, false;
        k, t := Frame(k, false, t.p, t.red, t.l), t.r;
      }
    }
  }

  /** rb_add_augmented_cached: the sorted insertion of `node`. */
  method AddCached(m0: Mem, root0: Ptr, leftmost0: Ptr, node: Ptr, ghost tree0: Tree)
    returns (m: Mem, root: Ptr, leftmost: Ptr, ghost tree: Tree)
    requires Whole(m0, root0, tree0) && Sorted(m0, InOrder(tree0)) && leftmost0 == First(InOrder(tree0))
    requires node in m0 && node !in Nodes(tree0) && m0[node].minVruntime == m0[node].s.vruntime
    ensures Whole(m, root, tree) && SamePayload(m0, m)
    ensures InOrder(tree) == SortedInsert(m0, InOrder(tree0), node) && Sorted(m, InOrder(tree))
    ensures leftmost == First(InOrder(tree))
  {
    var parent, left, first;
    ghost var k;
    parent, left, first, k := Descend(m0, root0, node, tree0);
    m, root := LinkAt(m0, root0, node, parent, left, k);
    leftmost := if first then node else leftmost0;
    m, root, tree := InsertColour(m, root, node, k, Node(Leaf, node, true, Leaf));
    InsertedOrder(m0, k, node, InOrder(tree0));
    SortedKeep(m0, m, InOrder(tree));
  }

  lemma {:induction false} SortedKeep(m: Mem, m': Mem, s: seq<Ptr>)
    requires Sorted(m, s) && SamePayload(m, m')
    ensures Sorted(m', s)
  {
    forall i | 0 <= i < |s| ensures s[i] in m && s[i] in m' && m'[s[i]].s == m[s[i]].s {
      var q := s[i];
      assert q in m;
      assert q in m'.Keys;
    }
  }

  lemma {:induction false} InsertedOrder(m: Mem, k: Ctx, node: Ptr, s: seq<Ptr>)
    requires Bracketed(m, k, node) && s == Around(k, []) && Sorted(m, s)
    ensures Around(k, InOrder(Node(Leaf, node, true, Leaf))) == SortedInsert(m, s, node)
    ensures Sorted(m, SortedInsert(m, s, node))
    ensures First(SortedInsert(m, s, node)) == if Before(k) == [] then node else First(s)
  {
    SortedInsertSplit(m, Before(k), After(k), node);
    assert s == Before(k) + After(k);
    assert InOrder(Node(Leaf, node, true, Leaf)) == [node];
    InsertedSorted(m, Before(k), After(k), node);
  }
}
