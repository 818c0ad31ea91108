/**
 Picking the earliest eligible virtual deadline: the pruned search of `pick_eevdf` over the tree
 equals a linear scan in deadline order.
 */
module EevdfPick {
  import opened RbShape
  import opened RbMoves
  import opened RbAdd
  import opened EevdfSums

  /** What eligibility is measured against: the weighted sum, the load and the origin. */
  datatype Clock = Clock(avg: int, load: int, v0: int)

  predicate Eligible(c: Clock, v: int) { EligibleAt(c.avg, c.load, c.v0, v) }

  /** The linear scan: the first eligible task, or NULL. */
  ghost function FirstEligible(m: Mem, s: seq<Ptr>, c: Clock): Ptr
    requires AllIn(m, s)
  {
    if s == [] then NULL
    else if Eligible(c, m[s[0]].s.vruntime) then s[0]
    else FirstEligible(m, s[1..], c)
  }

  ghost predicate NoneEligible(m: Mem, s: seq<Ptr>, c: Clock) {
    forall i :: 0 <= i < |s| ==> s[i] in m && !Eligible(c, m[s[i]].s.vruntime)
  }

  lemma {:induction false} ScanSplit(m: Mem, a: seq<Ptr>, p: Ptr, b: seq<Ptr>, c: Clock)
    requires NoneEligible(m, a, c) && p in m && AllIn(m, b)
    ensures AllIn(m, a + [p] + b)
    ensures Eligible(c, m[p].s.vruntime) ==> FirstEligible(m, a + [p] + b, c) == p
  {
    var s := a + [p] + b;
    if a == [] {
      assert s[0] == p;
    } else {
      ScanSplit(m, a[1..], p, b, c);
      assert s[0] == a[0] && s[1..] == a[1..] + [p] + b;
    }
  }

  lemma {:induction false} ScanNone(m: Mem, s: seq<Ptr>, c: Clock)
    requires NoneEligible(m, s, c)
    ensures AllIn(m, s) && FirstEligible(m, s, c) == NULL
  {
    if s != [] {
      ScanNone(m, s[1..], c);
    }
  }

  /** The scan returns an eligible task, no later than any other eligible one, whenever there is one. */
  lemma {:induction false} ScanBest(m: Mem, s: seq<Ptr>, c: Clock)
    requires Sorted(m, s) && NULL !in s
    ensures var p := FirstEligible(m, s, c);
            if p == NULL then NoneEligible(m, s, c)
            else p in s && Eligible(c, m[p].s.vruntime)
                 && forall i :: 0 <= i < |s| && Eligible(c, m[s[i]].s.vruntime) ==> m[p].s.deadline <= m[s[i]].s.deadline
  {
    if s != [] && !Eligible(c, m[s[0]].s.vruntime) {
      ScanBest(m, s[1..], c);
    }
  }

  /** Where the scan stops: nothing before is eligible. */
  lemma {:induction false} ScanFirst(m: Mem, s: seq<Ptr>, c: Clock) returns (k: nat)
    requires AllIn(m, s) && NULL !in s && FirstEligible(m, s, c) != NULL
    ensures k < |s| && s[k] == FirstEligible(m, s, c) && forall i :: 0 <= i < k ==> !Eligible(c, m[s[i]].s.vruntime)
  {
    k := 0;
    if !Eligible(c, m[s[0]].s.vruntime) {
      var j := ScanFirst(m, s[1..], c);
      k := j + 1;
    }
  }

  // ----- the search -----

  /** Nothing before the hole is eligible, and nothing after it matters unless the subtree holds an eligible task. */
  ghost predicate Searching(m: Mem, root: Ptr, k: Ctx, t: Tree, node: Ptr, par: Ptr, s: seq<Ptr>, c: Clock) {
    && At(m, root, k, t, node, par) && Around(k, InOrder(t)) == s && AllIn(m, s)
    && NoneEligible(m, Before(k), c)
    && (NoneEligible(m, InOrder(t), c) ==> NoneEligible(m, After(k), c))
  }

  /** The cached minimum of a subtree decides whether it holds an eligible task. */
  lemma {:induction false} MinDecides(m: Mem, t: Tree, c: Clock)
    requires Aug(m, t) && t.Node? && c.load >= 0
    ensures t.p in m && (Eligible(c, m[t.p].minVruntime) <==> !NoneEligible(m, InOrder(t), c))
  {
    var s := InOrder(t);
    var low := m[t.p].minVruntime;
    if Eligible(c, low) {
      var q :| q in Nodes(t) && q in m && m[q].s.vruntime == low;
      InOrderNodes(t);
      assert q in s;
      var i :| 0 <= i < |s| && s[i] == q;
    } else {
      forall i | 0 <= i < |s| ensures s[i] in m && !Eligible(c, m[s[i]].s.vruntime) {
        var q := s[i];
        OrderAt(t, i, q);
        if Eligible(c, m[q].s.vruntime) {
          EligibleMonotone(c.avg, c.load, c.v0, m[q].s.vruntime, low);
        }
      }
    }
  }

  lemma NonePieces(m: Mem, a: seq<Ptr>, p: Ptr, b: seq<Ptr>, c: Clock)
    ensures NoneEligible(m, a + [p] + b, c) <==>
              NoneEligible(m, a, c) && p in m && !Eligible(c, m[p].s.vruntime) && NoneEligible(m, b, c)
  {
    var s := a + [p] + b;
    assert s[|a|] == p;
    assert forall i :: 0 <= i < |a| ==> s[i] == a[i];
    assert forall i :: 0 <= i < |b| ==> s[|a| + 1 + i] == b[i];
  }

  lemma {:induction false} GoLeft(m: Mem, root: Ptr, k: Ctx, t: Tree, node: Ptr, par: Ptr, s: seq<Ptr>, c: Clock)
    requires Searching(m, root, k, t, node, par, s, c) && t.Node? && !NoneEligible(m, InOrder(t.l), c)
    ensures node in m && Searching(m, root, Frame(k, true, t.p, t.red, t.r), t.l, m[node].left, node, s, c)
  {
    AtDown(m, root, k, t, true, node, par);
    OrderUp(Frame(k, true, t.p, t.red, t.r), t.l);
  }

  lemma {:induction false} GoRight(m: Mem, root: Ptr, k: Ctx, t: Tree, node: Ptr, par: Ptr, s: seq<Ptr>, c: Clock)
    requires Searching(m, root, k, t, node, par, s, c) && t.Node? && NoneEligible(m, InOrder(t.l), c)
    requires node in m && !Eligible(c, m[node].s.vruntime)
    ensures Searching(m, root, Frame(k, false, t.p, t.red, t.l), t.r, m[node].right, node, s, c)
  {
    AtDown(m, root, k, t, false, node, par);
    OrderUp(Frame(k, false, t.p, t.red, t.l), t.r);
    NonePieces(m, InOrder(t.l), t.p, InOrder(t.r), c);
    NoneJoined(m, Before(k), InOrder(t.l), t.p, c);
  }

  lemma {:induction false} NoneJoined(m: Mem, a: seq<Ptr>, l: seq<Ptr>, p: Ptr, c: Clock)
    requires NoneEligible(m, a, c) && NoneEligible(m, l, c) && p in m && !Eligible(c, m[p].s.vruntime)
    ensures NoneEligible(m, a + l + [p], c)
  {
    var s := a + l + [p];
    forall i | 0 <= i < |s| ensures s[i] in m && !Eligible(c, m[s[i]].s.vruntime) {
      if i < |a| {
        assert s[i] == a[i];
      } else if i < |a| + |l| {
        assert s[i] == l[i - |a|];
      }
    }
  }

  /** The test of the left subtree by its cached minimum. */
  method HoldsEligible(m: Mem, ghost root: Ptr, ghost k: Ctx, ghost t: Tree, left: Ptr, ghost par: Ptr, c: Clock) returns (b: bool)
    requires At(m, root, k, t, left, par) && c.load >= 0
    ensures b <==> !NoneEligible(m, InOrder(t), c)
  {
    if t.Node? {
      MinDecides(m, t, c);
      AtDown(m, root, k, t, true, left, par);
    }
    b := left != NULL && Eligible(c, m[left].minVruntime);
  }

  /** The heap search of pick_eevdf. */
  method PickTree(m: Mem, root: Ptr, c: Clock, ghost tree: Tree) returns (best: Ptr)
    requires Whole(m, root, tree) && AllIn(m, InOrder(tree)) && c.load >= 0
    ensures best == FirstEligible(m, InOrder(tree), c)
  {
    ghost var k, t, par, s := Top, tree, NULL, InOrder(tree);
    var node := root;
    Start(m, root, tree, c);
    while node != NULL
      invariant Searching(m, root, k, t, node, par, s, c)
      decreases t
    {
      AtDown(m, root, k, t, true, node, par);
      var left := m[node].left;
      var better := HoldsEligible(m, root, Frame(k, true, t.p, t.red, t.r), t.l, left, node, c);
      if better {
        GoLeft(m, root, k, t, node, par, s, c);
        k, t, par := Frame(k, true, t.p, t.red, t.r), t.l, node;
        node := left;
        continue;
      }
      if Eligible(c, m[node].s.vruntime) {
        Found(m, root, k, t, node, par, s, c);
        return node;
      }
      GoRight(m, root, k, t, node, par, s, c);
      k, t, par := Frame(k, false, t.p, t.red, t.l), t.r, node;
      node := m[node].right;
    }
    Exhausted(m, root, k, t, node, par, s, c);
    return NULL;
  }

  lemma {:induction false} Exhausted(m: Mem, root: Ptr, k: Ctx, t: Tree, node: Ptr, par: Ptr, s: seq<Ptr>, c: Clock)
    requires Searching(m, root, k, t, node, par, s, c) && node == NULL
    ensures FirstEligible(m, s, c) == NULL
  {
    assert t.Leaf?;
    var a, b := Before(k), After(k);
    assert s == a + b;
    assert forall i :: 0 <= i < |b| ==> s[|a| + i] == b[i];
    assert NoneEligible(m, s, c);
    ScanNone(m, s, c);
  }

  lemma {:induction false} Start(m: Mem, root: Ptr, t: Tree, c: Clock)
    requires Whole(m, root, t) && AllIn(m, InOrder(t))
    ensures Searching(m, root, Top, t, root, NULL, InOrder(t), c)
  {
    assert Around(Top, InOrder(t)) == InOrder(t);
  }

  lemma {:induction false} Found(m: Mem, root: Ptr, k: Ctx, t: Tree, node: Ptr, par: Ptr, s: seq<Ptr>, c: Clock)
    requires Searching(m, root, k, t, node, par, s, c) && t.Node? && NoneEligible(m, InOrder(t.l), c)
    requires node in m && Eligible(c, m[node].s.vruntime)
    ensures FirstEligible(m, s, c) == node
  {
    AtDown(m, root, k, t, true, node, par);
    var a, b := Before(k) + InOrder(t.l), InOrder(t.r) + After(k);
    assert s == a + [node] + b;
    assert forall i :: 0 <= i < |b| ==> s[|a| + 1 + i] == b[i];
    ScanSplit(m, a, node, b, c);
  }
}
