/**
 The augmented red-black tree with a cached leftmost node: the whole operations.
 Erasing any task yields the old in-order sequence without it; `rb_next` is the next task in order.
 */
module RbTree {
  import opened RbShape
  import opened RbRotate
  import opened RbMoves
  import opened RbAdd
  import opened RbEraseColour
  import opened RbSplice
  import opened RbErase

  /** The sequence without its first `x`: the reference for erasure. */
  function Without(s: seq<Ptr>, x: Ptr): seq<Ptr> {
    if s == [] then [] else if s[0] == x then s[1..] else [s[0]] + Without(s[1..], x)
  }

  lemma {:induction false} WithoutMiddle(a: seq<Ptr>, x: Ptr, b: seq<Ptr>)
    requires x !in a
    ensures Without(a + [x] + b, x) == a + b
  {
    var s := a + [x] + b;
    if a == [] {
      assert s[0] == x && s[1..] == b && a + b == b;
    } else {
      assert s[0] == a[0] && s[1..] == a[1..] + [x] + b;
      WithoutMiddle(a[1..], x, b);
      assert [a[0]] + (a[1..] + b) == a + b;
    }
  }

  /** What precedes and what follows the root of `t`. */
  function Ahead(k: Ctx, t: Tree): seq<Ptr>
    requires t.Node?
  {
    Before(k) + InOrder(t.l)
  }

  function Behind(k: Ctx, t: Tree): seq<Ptr>
    requires t.Node?
  {
    InOrder(t.r) + After(k)
  }

  lemma {:induction false} SplitAt(m: Mem, root: Ptr, k: Ctx, t: Tree, node: Ptr, par: Ptr)
    requires At(m, root, k, t, node, par) && t.Node?
    ensures Around(k, InOrder(t)) == Ahead(k, t) + [node] + Behind(k, t)
    ensures Without(Around(k, InOrder(t)), node) == Ahead(k, t) + Behind(k, t)
    ensures node !in Ahead(k, t)
  {
    ReprBuild(m, true, t.l, node, t.red, t.r, par);
    CtxOrderNodes(k);
    InOrderNodes(t.l);
    assert Around(k, InOrder(t)) == Ahead(k, t) + [node] + Behind(k, t);
    WithoutMiddle(Ahead(k, t), node, Behind(k, t));
  }

  // ----- colours after a node with one child is gone -----

  lemma {:induction false} OneChildRb(k: Ctx, t: Tree, e: bool, c: Tree)
    requires OneChild(t, e, c) && Rb(t) && CtxRb(k, Bh(t), Red(t))
    ensures c.Node? || t.red ==> Rb(Paint(c, t.red)) && CtxRb(k, Bh(Paint(c, t.red)), Red(Paint(c, t.red)))
    ensures c.Leaf? && !t.red ==> CtxRb(k, 1, false)
  {
    assert Bh(c) == 0;
    if c.Leaf? && t.red {
      CtxRbBlack(k, 0);
    }
  }

  lemma {:induction false} RenameRb(ki: Ctx, k: Ctx, p: Ptr, q: Ptr, red: bool, l: Tree, h: nat, b: bool)
    requires CtxRb(Append(ki, Frame(k, false, p, red, l)), h, b)
    ensures CtxRb(Append(ki, Frame(k, false, q, red, l)), h, b)
    decreases ki
  {
    if ki.Frame? {
      RenameRb(ki.up, k, p, q, red, l, h + if ki.red then 0 else 1, ki.red);
    }
  }

  lemma {:induction false} AtPlugDown(m: Mem, root: Ptr, ki: Ctx, k: Ctx, t: Tree, top: Ptr, topPar: Ptr) returns (ptr: Ptr, par: Ptr)
    requires At(m, root, k, Plug(ki, t), top, topPar)
    ensures At(m, root, Append(ki, k), t, ptr, par) && (ki.Top? ==> par == topPar) && (ki.Frame? ==> par == ki.p)
    decreases ki
  {
    if ki.Top? {
      ptr, par := top, topPar;
    } else {
      var t1 := Build(ki.left, t, ki.p, ki.red, ki.sib);
      var p1, q1 := AtPlugDown(m, root, ki.up, k, t1, top, topPar);
      AtDown(m, root, Append(ki.up, k), t1, ki.left, p1, q1);
      assert Kid(t1, ki.left) == t && Kid(t1, !ki.left) == ki.sib;
      ptr, par := Child(m[p1], ki.left), p1;
    }
  }

  /** The end of an erasure: `__rb_erase_color` if a black node without a red child is gone. */
  method Rebalance(m0: Mem, root0: Ptr, rebalance: Ptr, ghost k: Ctx, ghost t: Tree, ghost e: bool, ghost ptr: Ptr, ghost par: Ptr)
    returns (m: Mem, root: Ptr, ghost tree: Tree)
    requires t.Node? && OneChild(t, e, Kid(t, e)) && Rb(t) && CtxRb(k, Bh(t), Red(t))
    requires At(m0, root0, k, Paint(Kid(t, e), t.red), ptr, par)
    requires rebalance == if Kid(t, e).Node? || t.red then NULL else par
    ensures Whole(m, root, tree) && SamePayload(m0, m) && InOrder(tree) == Around(k, InOrder(Kid(t, e)))
  {
    ghost var c := Kid(t, e);
    OneChildRb(k, t, e, c);
    PaintNodes(c, t.red);
    if rebalance != NULL {
      m, root, tree := EraseColour(m0, root0, rebalance, k, Leaf);
    } else {
      m, root := m0, root0;
      if c.Node? || t.red {
        AtTop(m, root, k, Paint(c, t.red), ptr, par);
        tree := Plug(k, Paint(c, t.red));
      } else {
        ReprCtxNodes(m, root, NULL, k, ptr, par);
        ShortTop(m, root, k, Leaf, ptr, par);
        tree := Leaf;
      }
    }
  }

  lemma {:induction false} RegroupTail(a: seq<Ptr>, s: Ptr, u: seq<Ptr>, w: seq<Ptr>, z: seq<Ptr>)
    ensures (a + [s]) + u + (w + z) == a + (([s] + u + w) + z)
  {
  }

  lemma {:induction false} MovedUpOrder(k: Ctx, t: Tree, ki: Ctx, sub: Tree, s: Ptr)
    requires t.Node? && Plug(ki, sub) == t.r && Before(ki) == [] && sub.Node? && sub.l.Leaf? && sub.p == s
    ensures Around(Append(ki, Frame(k, false, s, t.red, t.l)), InOrder(sub.r)) == Ahead(k, t) + Behind(k, t)
  {
    var outer := Frame(k, false, s, t.red, t.l);
    AppendOrder(ki, outer);
    assert InOrder(t.r) == [s] + InOrder(sub.r) + After(ki) by {
      PlugInOrder(ki, sub);
      assert InOrder(sub) == [s] + InOrder(sub.r);
    }
    assert Before(Append(ki, outer)) == Ahead(k, t) + [s];
    RegroupTail(Ahead(k, t), s, InOrder(sub.r), After(ki), After(k));
  }

  /** Where the successor's only child is after the successor moved up. */
  lemma {:induction false} MovedUp(m: Mem, root: Ptr, k: Ctx, t: Tree, par: Ptr, ki: Ctx, sub: Tree, s: Ptr, parent: Ptr) returns (ptr: Ptr)
    requires t.Node? && sub.Node? && parent == (if ki.Top? then s else ki.p)
    requires At(m, root, k, Node(t.l, s, t.red, Plug(ki, Paint(sub.r, sub.red))), s, par)
    ensures At(m, root, Append(ki, Frame(k, false, s, t.red, t.l)), Paint(sub.r, sub.red), ptr, parent)
  {
    var c := Paint(sub.r, sub.red);
    AtDown(m, root, k, Node(t.l, s, t.red, Plug(ki, c)), false, s, par);
    var par';
    ptr, par' := AtPlugDown(m, root, ki, Frame(k, false, s, t.red, t.l), c, m[s].right, s);
  }

  /** Erasure of a node with at most the child on side `e`. */
  method EraseOne(m0: Mem, root0: Ptr, node: Ptr, e: bool, ghost k: Ctx, ghost t: Tree, ghost par: Ptr)
    returns (m: Mem, root: Ptr, ghost tree: Tree)
    requires Place(m0, root0, k, t, node, par) && t.Node? && node in m0 && OneChild(t, e, Kid(t, e))
    ensures Whole(m, root, tree) && SamePayload(m0, m) && InOrder(tree) == Ahead(k, t) + Behind(k, t)
  {
    AtDown(m0, root0, k, t, e, node, par);
    var child := Child(m0[node], e);
    m, root := SpliceOut(m0, root0, node, child, e, k, t, par);
    var rebalance := if child != NULL || m0[node].red then NULL else m0[node].parent;
    m, root, tree := Rebalance(m, root, rebalance, k, t, e, child, par);
    OneOrder(k, t, e);
  }

  lemma {:induction false} OneOrder(k: Ctx, t: Tree, e: bool)
    requires t.Node? && OneChild(t, e, Kid(t, e))
    ensures Around(k, InOrder(Kid(t, e))) == Ahead(k, t) + Behind(k, t)
  {
    assert InOrder(Kid(t, !e)) == [];
  }

  /** Erasure of a node with two children. */
  method EraseBoth(m0: Mem, root0: Ptr, node: Ptr, ghost k: Ctx, ghost t: Tree, ghost par: Ptr)
    returns (m: Mem, root: Ptr, ghost tree: Tree)
    requires Place(m0, root0, k, t, node, par) && t.Node? && node in m0 && t.l.Node? && t.r.Node?
    ensures Whole(m, root, tree) && SamePayload(m0, m) && InOrder(tree) == Ahead(k, t) + Behind(k, t)
  {
    var s, parent;
    ghost var ki, sub;
    s, parent, ki, sub := Successor(m0, root0, node, k, t, par);
    m, root := EraseTwo(m0, root0, node, s, parent, k, t, par, ki, sub);
    ghost var ptr := MovedUp(m, root, k, t, par, ki, sub, s, parent);
    AtDown(m0, root0, Append(ki, Frame(k, false, node, t.red, t.l)), sub, false, s, m0[s].parent);
    RenameRb(ki, k, node, s, t.red, t.l, Bh(sub), Red(sub));
    MovedUpOrder(k, t, ki, sub, s);
    var rebalance := if m0[s].right != NULL || m0[s].red then NULL else parent;
    m, root, tree := Rebalance(m, root, rebalance, Append(ki, Frame(k, false, s, t.red, t.l)), sub, false, ptr, parent);
  }

  /** __rb_erase_augmented followed by __rb_erase_color. */
  method Erase(m0: Mem, root0: Ptr, node: Ptr, ghost tree0: Tree) returns (m: Mem, root: Ptr, ghost tree: Tree)
    requires Whole(m0, root0, tree0) && node in Nodes(tree0)
    ensures Whole(m, root, tree) && SamePayload(m0, m) && InOrder(tree) == Without(InOrder(tree0), node)
  {
    ghost var k, t, par := Find(m0, root0, Top, tree0, root0, NULL, node);
    assert Around(Top, InOrder(tree0)) == InOrder(tree0);
    AtDown(m0, root0, k, t, true, node, par);
    AtDown(m0, root0, k, t, false, node, par);
    SplitAt(m0, root0, k, t, node, par);
    if m0[node].left == NULL {
      m, root, tree := EraseOne(m0, root0, node, false, k, t, par);
    } else if m0[node].right == NULL {
      m, root, tree := EraseOne(m0, root0, node, true, k, t, par);
    } else {
      m, root, tree := EraseBoth(m0, root0, node, k, t, par);
    }
  }

  // ----- rb_next -----

  /** The next task in order, or NULL. */
  method Next(m: Mem, ghost root: Ptr, node0: Ptr, ghost k0: Ctx, ghost t0: Tree, ghost par0: Ptr) returns (next: Ptr)
    requires At(m, root, k0, t0, node0, par0) && t0.Node? && node0 in m
    ensures next == First(Behind(k0, t0))
  {
    AtDown(m, root, k0, t0, false, node0, par0);
    if m[node0].right != NULL {
      next := Leftmost(m, root, m[node0].right, Frame(k0, false, t0.p, t0.red, t0.l), t0.r, node0);
    } else {
      assert Behind(k0, t0) == After(k0);
      next := Climb(m, root, node0, k0, t0, par0);
    }
  }

  method Leftmost(m: Mem, ghost root: Ptr, p: Ptr, ghost k0: Ctx, ghost t0: Tree, ghost par0: Ptr) returns (node: Ptr)
    requires At(m, root, k0, t0, p, par0) && t0.Node? && p in m
    ensures InOrder(t0) != [] && node == InOrder(t0)[0]
  {
    node := p;
    ghost var k, t, par := k0, t0, par0;
    AtDown(m, root, k, t, true, node, par);
    while m[node].left != NULL
      invariant At(m, root, k, t, node, par) && t.Node? && node in m
      invariant InOrder(t) <= InOrder(t0)
      decreases t
    {
      AtDown(m, root, k, t, true, node, par);
      assert InOrder(t.l) <= InOrder(t);
      k, t, par := Frame(k, true, t.p, t.red, t.r), t.l, node;
      node := m[node].left;
      AtDown(m, root, k, t, true, node, par);
    }
    AtDown(m, root, k, t, true, node, par);
    assert t.l.Leaf?;
    assert InOrder(t) == [node] + InOrder(t.r);
  }

  method Climb(m: Mem, ghost root: Ptr, node0: Ptr, ghost k0: Ctx, ghost t0: Tree, ghost par0: Ptr) returns (parent: Ptr)
    requires At(m, root, k0, t0, node0, par0) && t0.Node? && node0 in m
    ensures parent == First(After(k0))
  {
    var node := node0;
    parent := m[node].parent;
    ghost var k, t := k0, t0;
    AtDown(m, root, k, t, true, node, par0);
    while parent != NULL && node == m[parent].right
      invariant At(m, root, k, t, node, parent) && t.Node? && node in m
      invariant parent != NULL ==> parent in m
      invariant After(k) == After(k0)
      decreases k
    {
      ClimbStep(m, root, k, t, node, parent);
      t, k := Build(k.left, t, k.p, k.red, k.sib), k.up;
      node := parent;
      parent := m[node].parent;
    }
    if parent != NULL {
      ClimbStep(m, root, k, t, node, parent);
    }
  }

  lemma {:induction false} ClimbStep(m: Mem, root: Ptr, k: Ctx, t: Tree, node: Ptr, parent: Ptr)
    requires At(m, root, k, t, node, parent) && t.Node? && parent != NULL
    ensures k.Frame? && k.p == parent && parent in m && (node == m[parent].right <==> !k.left)
    ensures At(m, root, k.up, Build(k.left, t, k.p, k.red, k.sib), parent, m[parent].parent)
    ensures m[parent].parent != NULL ==> m[parent].parent in m
  {
    AtUp(m, root, k, t, node, parent);
    assert node in Nodes(t);
    var sp := Child(m[parent], !k.left);
    assert sp == NULL || sp in Nodes(k.sib);
    ReprNodes(m, t, node, parent);
    ReprCtxNodes(m, root, NULL, k.up, parent, m[parent].parent);
    assert k.up.Frame? ==> m[parent].parent in CtxNodes(k.up);
  }

  /** rb_erase_augmented_cached. */
  method EraseCached(m0: Mem, root0: Ptr, leftmost0: Ptr, node: Ptr, ghost tree0: Tree)
    returns (m: Mem, root: Ptr, leftmost: Ptr, ghost tree: Tree)
    requires Whole(m0, root0, tree0) && Sorted(m0, InOrder(tree0)) && leftmost0 == First(InOrder(tree0))
    requires node in Nodes(tree0)
    ensures Whole(m, root, tree) && SamePayload(m0, m)
    ensures InOrder(tree) == Without(InOrder(tree0), node) && Sorted(m, InOrder(tree))
    ensures leftmost == First(InOrder(tree))
  {
    ghost var k, t, par := Find(m0, root0, Top, tree0, root0, NULL, node);
    SplitAt(m0, root0, k, t, node, par);
    assert Around(Top, InOrder(tree0)) == InOrder(tree0);
    AtDown(m0, root0, k, t, true, node, par);
    ReprNodes(m0, tree0, root0, NULL);
    leftmost := leftmost0;
    if leftmost == node {
      leftmost := Next(m0, root0, node, k, t, par);
    }
    m, root, tree := Erase(m0, root0, node, tree0);
    ErasedOrder(m0, m, Ahead(k, t), node, Behind(k, t), leftmost0);
  }

  lemma ErasedOrder(m: Mem, m': Mem, a: seq<Ptr>, node: Ptr, b: seq<Ptr>, leftmost: Ptr)
    requires Sorted(m, a + [node] + b) && SamePayload(m, m') && node !in a && leftmost == First(a + [node] + b)
    ensures Sorted(m', a + b) && First(a + b) == if leftmost == node then First(b) else leftmost
  {
    var s, s' := a + [node] + b, a + b;
    forall i, j | 0 <= i < j < |s'| ensures s'[i] in m && s'[j] in m && m[s'[i]].s.deadline <= m[s'[j]].s.deadline {
      assert s'[i] == s[if i < |a| then i else i + 1] && s'[j] == s[if j < |a| then j else j + 1];
    }
    forall i | 0 <= i < |s'| ensures s'[i] in m {
      assert s'[i] == s[if i < |a| then i else i + 1];
    }
    SortedKeep(m, m', s');
  }
}
