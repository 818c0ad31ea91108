/**
 The EEVDF run queue: running sums over the tree, placement with lag, and the policy entry points.
 Times and vruntimes are unbounded integers; the clock is a parameter.
 */
module Eevdf {
  import opened Seqs
  import W = Words
  import opened RbShape
  import opened RbRotate
  import opened RbMoves
  import opened RbAdd
  import opened RbTree
  import opened EevdfSums
  import opened EevdfPick

  const BASE_SLICE: nat := 12500

  function Max(a: int, b: int): int { if a > b then a else b }

  function Clamp(x: int, lo: int, hi: int): int { if x < lo then lo else if x > hi then hi else x }

  // ----- facts about memories -----

  /** Tasks of the tree are as before. */
  predicate KeepsTasks(m: Mem, m': Mem, s: set<Ptr>) {
    forall q :: q in s ==> q in m && q in m' && m'[q] == m[q]
  }

  lemma {:induction false} WholeKeep(m: Mem, m': Mem, root: Ptr, t: Tree)
    requires Whole(m, root, t) && KeepsTasks(m, m', Nodes(t)) && NULL !in m'
    ensures Whole(m', root, t)
  {
    ReprKeep(m, m', t, root, NULL);
    AugKeep(m, m', t);
  }

  /** What the tree of a queue amounts to: ordered tasks and their sums relative to `v0`. */
  ghost predicate Timeline(m: Mem, root: Ptr, leftmost: Ptr, t: Tree, avg: int, load: int, v0: int) {
    && Whole(m, root, t) && Sorted(m, InOrder(t)) && leftmost == First(InOrder(t))
    && avg == WSum(m, InOrder(t), v0) && load == Load(m, InOrder(t))
  }

  lemma {:induction false} TimelineKeep(m: Mem, m': Mem, root: Ptr, leftmost: Ptr, t: Tree, avg: int, load: int, v0: int)
    requires Timeline(m, root, leftmost, t, avg, load, v0) && KeepsTasks(m, m', Nodes(t)) && NULL !in m'
    ensures Timeline(m', root, leftmost, t, avg, load, v0)
  {
    WholeKeep(m, m', root, t);
    var s := InOrder(t);
    forall i | 0 <= i < |s| ensures s[i] in m && s[i] in m' && m'[s[i]] == m[s[i]] {
      var q := s[i];
      OrderAt(t, i, q);
    }
    SumsKeep(m, m', s, v0);
  }

  /** The tasks that count: the tree's and the current one. */
  ghost function Everyone(t: Tree, curr: Ptr): seq<Ptr> {
    InOrder(t) + if curr == NULL then [] else [curr]
  }

  /** The sums including the current task, as avg_vruntime and vruntime_eligible compute them. */
  function ClockOf(m: Mem, curr: Ptr, avg: int, load: int, v0: int): Clock
    requires curr != NULL ==> curr in m
  {
    if curr != NULL && m[curr].s.onRq then
      Clock(avg + (m[curr].s.vruntime - v0) * Weight(m, curr), load + Weight(m, curr), v0)
    else Clock(avg, load, v0)
  }

  /** avg_vruntime. */
  function AvgOf(c: Clock): int
    requires c.load >= 0
  {
    c.v0 + AvgDiv(c.avg, c.load)
  }

  /** Every task has weight, and the tasks on the queue are those of the tree and the current one. */
  ghost predicate Roster(m: Mem, t: Tree, curr: Ptr) {
    && (forall q :: q in m ==> m[q].s.weight > 0 && (m[q].s.onRq <==> q in Nodes(t) || q == curr))
    && (curr != NULL ==> curr in m && curr !in Nodes(t))
  }

  lemma {:induction false} ClockSums(m: Mem, root: Ptr, leftmost: Ptr, t: Tree, avg: int, load: int, v0: int, curr: Ptr)
    requires Timeline(m, root, leftmost, t, avg, load, v0) && Roster(m, t, curr)
    ensures AllIn(m, Everyone(t, curr))
    ensures ClockOf(m, curr, avg, load, v0) == Clock(WSum(m, Everyone(t, curr), v0), Load(m, Everyone(t, curr)), v0)
    ensures Everyone(t, curr) != [] ==> Load(m, Everyone(t, curr)) >= 2
  {
    var s := Everyone(t, curr);
    if curr != NULL {
      SumsSplit(m, InOrder(t), [curr], v0);
      SumsOne(m, curr, v0);
    } else {
      assert s == InOrder(t);
    }
    if s != [] {
      LoadPositive(m, s);
    }
  }

  /** Some task that counts is always eligible. */
  lemma {:induction false} SomeoneEligible(m: Mem, s: seq<Ptr>, c: Clock) returns (p: Ptr)
    requires AllIn(m, s) && s != [] && c.avg == WSum(m, s, c.v0) && c.load == Load(m, s)
    ensures p in s && p in m && Eligible(c, m[p].s.vruntime)
  {
    p := LeastOf(m, s);
    LeastEligible(m, s, c.v0, m[p].s.vruntime);
  }

  /** The value returned by avg_vruntime is itself eligible. */
  lemma AverageEligible(c: Clock)
    requires c.load > 0 || (c.load == 0 && c.avg == 0)
    ensures Eligible(c, AvgOf(c))
  {
    if c.load > 0 {
      AvgDivFloor(c.avg, c.load);
    }
  }

  /** place_task and __enqueue_task together: the exact lag of the placed task, times the new total weight, is within
      the rounding of the stored lag. */
  lemma LagPreserved(c: Clock, w: nat, lag: int, v: int)
    requires c.load > 0 && v == AvgOf(c) - DivS64(lag * (c.load + w), c.load)
    ensures var total := c.load + w;
            var num := (c.avg + (v - c.v0) * w) - (v - c.v0) * total;
            (lag - 1) * total < num < (lag + 2) * total
  {
    PlacedLag(c.avg, c.load, w, lag);
    assert v - c.v0 == AvgDiv(c.avg, c.load) - DivS64(lag * (c.load + w), c.load);
  }

  lemma {:induction false} EnqueuedTimeline(m: Mem, m': Mem, root': Ptr, leftmost': Ptr, t: Tree, t': Tree, p: Ptr, avg: int, load: int, v0: int)
    requires AllIn(m, InOrder(t)) && avg == WSum(m, InOrder(t), v0) && load == Load(m, InOrder(t)) && p in m
    requires Whole(m', root', t') && Sorted(m', InOrder(t')) && leftmost' == First(InOrder(t')) && SamePayload(m, m')
    requires InOrder(t') == SortedInsert(m, InOrder(t), p)
    ensures Timeline(m', root', leftmost', t', avg + (m[p].s.vruntime - v0) * Weight(m, p), load + Weight(m, p), v0)
    ensures Nodes(t') == Nodes(t) + {p} && |InOrder(t')| == |InOrder(t)| + 1
  {
    SortedInsertSums(m, InOrder(t), p, v0);
    PayloadSums(m, m', InOrder(t'), v0);
    NodesAdd(t, t', p);
  }

  lemma {:induction false} NodesAdd(t: Tree, t': Tree, p: Ptr)
    requires forall q :: q in InOrder(t') <==> q in InOrder(t) || q == p
    ensures Nodes(t') == Nodes(t) + {p}
  {
    InOrderNodes(t);
    InOrderNodes(t');
    forall q ensures q in Nodes(t') <==> q in Nodes(t) + {p} {
      assert q in InOrder(t') <==> q in InOrder(t) || q == p;
    }
  }

  lemma {:induction false} NodesDrop(t: Tree, t': Tree, p: Ptr)
    requires Distinct(InOrder(t)) && InOrder(t') == Without(InOrder(t), p)
    ensures Nodes(t') == Nodes(t) - {p}
  {
    InOrderNodes(t);
    InOrderNodes(t');
    WithoutMembers(InOrder(t), p);
    forall q ensures q in Nodes(t') <==> q in Nodes(t) - {p} {
      assert q in InOrder(t') <==> q in InOrder(t) && q != p;
    }
  }

  lemma {:induction false} PayloadSums(m: Mem, m': Mem, s: seq<Ptr>, v0: int)
    requires AllIn(m, s) && AllIn(m', s) && SamePayload(m, m')
    ensures Load(m', s) == Load(m, s) && WSum(m', s, v0) == WSum(m, s, v0)
  {
    forall i | 0 <= i < |s| ensures m'[s[i]].s == m[s[i]].s {
      var q := s[i];
      assert q in m;
    }
    SumsKeep(m, m', s, v0);
  }

  lemma {:induction false} DequeuedTimeline(m: Mem, m': Mem, root': Ptr, leftmost': Ptr, t: Tree, t': Tree, p: Ptr, avg: int, load: int, v0: int)
    requires AllIn(m, InOrder(t)) && avg == WSum(m, InOrder(t), v0) && load == Load(m, InOrder(t)) && p in Nodes(t) && p in m
    requires Whole(m', root', t') && Sorted(m', InOrder(t')) && leftmost' == First(InOrder(t')) && SamePayload(m, m')
    requires InOrder(t') == Without(InOrder(t), p) && Distinct(InOrder(t))
    ensures Timeline(m', root', leftmost', t', avg - (m[p].s.vruntime - v0) * Weight(m, p), load - Weight(m, p), v0)
    ensures Nodes(t') == Nodes(t) - {p} && |InOrder(t')| == |InOrder(t)| - 1
  {
    assert p in InOrder(t) by {
      InOrderNodes(t);
    }
    WithoutSums(m, InOrder(t), p, v0);
    PayloadSums(m, m', InOrder(t'), v0);
    NodesDrop(t, t', p);
  }

  lemma {:induction false} WithoutMembers(s: seq<Ptr>, p: Ptr)
    requires Distinct(s)
    ensures forall q :: q in Without(s, p) <==> q in s && q != p
  {
    if s != [] {
      WithoutMembers(s[1..], p);
      assert forall q :: q in s <==> q == s[0] || q in s[1..];
      if s[0] == p {
      } else {
        assert forall q :: q in Without(s, p) <==> q == s[0] || q in Without(s[1..], p);
      }
    }
  }

  lemma {:induction false} ReprDistinct(m: Mem, t: Tree, ptr: Ptr, par: Ptr)
    requires Repr(m, t, ptr, par)
    ensures Distinct(InOrder(t))
    decreases t
  {
    if t.Node? {
      ReprDistinct(m, t.l, m[ptr].left, ptr);
      ReprDistinct(m, t.r, m[ptr].right, ptr);
      InOrderNodes(t.l);
      InOrderNodes(t.r);
      DistinctMiddle(InOrder(t.l), t.p, InOrder(t.r));
    }
  }

  lemma {:induction false} DistinctMiddle(a: seq<Ptr>, p: Ptr, b: seq<Ptr>)
    requires Distinct(a) && Distinct(b) && p !in a && p !in b && forall q :: q in a ==> q !in b
    ensures Distinct(a + [p] + b)
  {
    var s := a + [p] + b;
    assert forall i :: 0 <= i < |a| ==> s[i] == a[i] && s[i] in a;
    assert forall i :: 0 <= i < |b| ==> s[|a| + 1 + i] == b[i] && b[i] in b;
    assert s[|a|] == p;
    forall i, j | 0 <= i < j < |s| ensures s[i] != s[j] {
      if i > |a| {
        assert s[i] == b[i - |a| - 1] && s[j] == b[j - |a| - 1];
      } else if j > |a| {
        assert s[j] == b[j - |a| - 1];
      }
    }
  }

  lemma {:induction false} SortedInsertPayload(m: Mem, m': Mem, s: seq<Ptr>, p: Ptr)
    requires AllIn(m, s) && p in m && SamePayload(m, m')
    ensures AllIn(m', s) && p in m' && SortedInsert(m', s, p) == SortedInsert(m, s, p)
  {
    forall i | 0 <= i < |s| ensures s[i] in m' {
      var q := s[i];
      assert q in m;
    }
    if s != [] {
      var q := s[0];
      assert q in m && q in m' && m'[q].s == m[q].s;
      SortedInsertPayload(m, m', s[1..], p);
    }
  }

  /** The tree part of __enqueue_task. */
  method AddTask(m0: Mem, root0: Ptr, leftmost0: Ptr, p: Ptr, ghost t0: Tree, ghost avg: int, ghost load: int, ghost v0: int)
    returns (m: Mem, root: Ptr, leftmost: Ptr, ghost t: Tree)
    requires Timeline(m0, root0, leftmost0, t0, avg, load, v0) && p in m0 && p !in Nodes(t0)
    ensures Timeline(m, root, leftmost, t, avg + (m0[p].s.vruntime - v0) * Weight(m0, p), load + Weight(m0, p), v0)
    ensures SamePayload(m0, m) && Nodes(t) == Nodes(t0) + {p}
    ensures InOrder(t) == SortedInsert(m0, InOrder(t0), p) && |InOrder(t)| == |InOrder(t0)| + 1
  {
    m := WithMin(m0, p, m0[p].s.vruntime);
    ghost var m1 := m;
    ReprNodes(m0, t0, root0, NULL);
    TimelineKeep(m0, m1, root0, leftmost0, t0, avg, load, v0);
    m, root, leftmost, t := AddCached(m, root0, leftmost0, p, t0);
    AddedTimeline(m0, m, root, leftmost, t0, t, p, avg, load, v0);
  }

  lemma {:induction false} AddedTimeline(m0: Mem, m: Mem, root: Ptr, leftmost: Ptr, t0: Tree, t: Tree, p: Ptr, avg: int, load: int, v0: int)
    requires p in m0 && AllIn(m0, InOrder(t0)) && avg == WSum(m0, InOrder(t0), v0) && load == Load(m0, InOrder(t0))
    requires var m1 := WithMin(m0, p, m0[p].s.vruntime);
             && SamePayload(m1, m) && AllIn(m1, InOrder(t0)) && InOrder(t) == SortedInsert(m1, InOrder(t0), p)
    requires Whole(m, root, t) && Sorted(m, InOrder(t)) && leftmost == First(InOrder(t))
    ensures Timeline(m, root, leftmost, t, avg + (m0[p].s.vruntime - v0) * Weight(m0, p), load + Weight(m0, p), v0)
    ensures SamePayload(m0, m) && Nodes(t) == Nodes(t0) + {p}
    ensures InOrder(t) == SortedInsert(m0, InOrder(t0), p) && |InOrder(t)| == |InOrder(t0)| + 1
  {
    SortedInsertPayload(m0, WithMin(m0, p, m0[p].s.vruntime), InOrder(t0), p);
    EnqueuedTimeline(m0, m, root, leftmost, t0, t, p, avg, load, v0);
  }

  /** The tree part of __dequeue_task. */
  method RemoveTask(m0: Mem, root0: Ptr, leftmost0: Ptr, p: Ptr, ghost t0: Tree, ghost avg: int, ghost load: int, ghost v0: int)
    returns (m: Mem, root: Ptr, leftmost: Ptr, ghost t: Tree)
    requires Timeline(m0, root0, leftmost0, t0, avg, load, v0) && p in Nodes(t0)
    ensures p in m0 && Timeline(m, root, leftmost, t, avg - (m0[p].s.vruntime - v0) * Weight(m0, p), load - Weight(m0, p), v0)
    ensures SamePayload(m0, m) && Nodes(t) == Nodes(t0) - {p}
    ensures InOrder(t) == Without(InOrder(t0), p) && |InOrder(t)| == |InOrder(t0)| - 1
  {
    ReprNodes(m0, t0, root0, NULL);
    ReprDistinct(m0, t0, root0, NULL);
    m, root, leftmost, t := EraseCached(m0, root0, leftmost0, p, t0);
    DequeuedTimeline(m0, m, root, leftmost, t0, t, p, avg, load, v0);
  }

  // ----- the choice -----

  /** What pick_eevdf returns, with a linear scan in place of the search. */
  ghost function Choice(m: Mem, t: Tree, leftmost: Ptr, curr: Ptr, nr: nat, c: Clock): Ptr
    requires AllIn(m, InOrder(t)) && (curr != NULL ==> curr in m)
  {
    var running := curr != NULL && m[curr].s.onRq;
    if nr == 1 then (if running then curr else leftmost)
    else if running && Eligible(c, m[curr].s.vruntime) && m[curr].s.vlag == m[curr].s.deadline then curr
    else
      var best := FirstEligible(m, InOrder(t), c);
      if !(running && Eligible(c, m[curr].s.vruntime)) then best
      else if best == NULL || (best in m && m[curr].s.deadline < m[best].s.deadline) then curr
      else best
  }

  /** The current task keeps running until its slice ends or it loses eligibility. */
  predicate RunsToParity(m: Mem, curr: Ptr, nr: nat, c: Clock)
    requires curr != NULL ==> curr in m
  {
    nr != 1 && curr != NULL && m[curr].s.onRq && Eligible(c, m[curr].s.vruntime) && m[curr].s.vlag == m[curr].s.deadline
  }

  /** Task `k` comes before task `i` by deadline, and by position when the deadlines are the same. */
  predicate Precedes(m: Mem, s: seq<Ptr>, k: nat, i: nat)
    requires AllIn(m, s) && k < |s| && i < |s|
  {
    if i < k then m[s[k]].s.deadline < m[s[i]].s.deadline else m[s[k]].s.deadline <= m[s[i]].s.deadline
  }

  /** Task `k` is eligible, and comes before every other eligible task. */
  ghost predicate BestAt(m: Mem, s: seq<Ptr>, c: Clock, k: nat) {
    && AllIn(m, s) && k < |s| && Eligible(c, m[s[k]].s.vruntime)
    && forall i :: 0 <= i < |s| && Eligible(c, m[s[i]].s.vruntime) ==> Precedes(m, s, k, i)
  }

  ghost predicate Best(m: Mem, s: seq<Ptr>, c: Clock, p: Ptr) {
    exists k :: 0 <= k < |s| && s[k] == p && BestAt(m, s, c, k)
  }

  /** Task `k` is owed service, and comes before every other task that is. */
  ghost predicate EarliestAt(m: Mem, s: seq<Ptr>, k: nat) {
    && AllIn(m, s) && k < |s| && Owed(m, s, m[s[k]].s.vruntime)
    && forall i :: 0 <= i < |s| && Owed(m, s, m[s[i]].s.vruntime) ==> Precedes(m, s, k, i)
  }

  /** Task `p` is owed service, and no task that is owed service has an earlier deadline, or the same and an earlier
      position. */
  ghost predicate Earliest(m: Mem, s: seq<Ptr>, p: Ptr) {
    exists k :: 0 <= k < |s| && s[k] == p && EarliestAt(m, s, k)
  }

  /** The current task runs on: it is owed service and its deadline is the one it was picked with. */
  ghost predicate Parity(m: Mem, s: seq<Ptr>, curr: Ptr) {
    && AllIn(m, s) && |s| != 1 && curr != NULL && curr in m
    && Owed(m, s, m[curr].s.vruntime) && m[curr].s.vlag == m[curr].s.deadline
  }

  /** The clock holds the exact sums. */
  ghost predicate Exact(m: Mem, s: seq<Ptr>, c: Clock) {
    AllIn(m, s) && c.avg == WSum(m, s, c.v0) && c.load == Load(m, s)
  }

  lemma {:induction false} OwedIff(m: Mem, s: seq<Ptr>, c: Clock, v: int)
    requires Exact(m, s, c)
    ensures Eligible(c, v) <==> Owed(m, s, v)
  {
    EligibleExact(m, s, c.v0, v);
  }

  lemma {:induction false} BestEarliest(m: Mem, s: seq<Ptr>, c: Clock, p: Ptr)
    requires Exact(m, s, c) && Best(m, s, c, p)
    ensures Earliest(m, s, p)
  {
    var k :| 0 <= k < |s| && s[k] == p && BestAt(m, s, c, k);
    OwedIff(m, s, c, m[p].s.vruntime);
    forall i | 0 <= i < |s| && Owed(m, s, m[s[i]].s.vruntime) ensures Precedes(m, s, k, i) {
      OwedIff(m, s, c, m[s[i]].s.vruntime);
    }
    assert EarliestAt(m, s, k);
  }

  /** avg_vruntime is the greatest value that is owed service. */
  lemma {:induction false} AverageExact(m: Mem, s: seq<Ptr>, c: Clock)
    requires Exact(m, s, c) && (s == [] || c.load > 0)
    ensures c.load >= 0 && Owed(m, s, AvgOf(c)) && (s != [] ==> !Owed(m, s, AvgOf(c) + 1)) && (s == [] ==> AvgOf(c) == c.v0)
  {
    AverageEligible(c);
    OwedIff(m, s, c, AvgOf(c));
    if s != [] {
      AvgDivFloor(c.avg, c.load);
      OwedIff(m, s, c, AvgOf(c) + 1);
      W.Distribute(AvgDiv(c.avg, c.load), c.load);
    }
  }

  lemma {:induction false} BestOfTree(m: Mem, t: Tree, c: Clock, best: Ptr)
    requires Sorted(m, InOrder(t)) && best == FirstEligible(m, InOrder(t), c) && NULL !in Nodes(t)
    ensures best == NULL ==> NoneEligible(m, InOrder(t), c)
    ensures best != NULL ==> Best(m, InOrder(t), c, best)
  {
    assert NULL !in InOrder(t) by {
      InOrderNodes(t);
    }
    ScanBest(m, InOrder(t), c);
    if best != NULL {
      var k := ScanFirst(m, InOrder(t), c);
      assert BestAt(m, InOrder(t), c, k);
    }
  }

  /** One more task at the end. */
  lemma {:induction false} BestAppend(m: Mem, s: seq<Ptr>, c: Clock, p: Ptr, q: Ptr)
    requires q in m && Best(m, s, c, p)
    ensures Best(m, s + [q], c, if Eligible(c, m[q].s.vruntime) && p in m && m[q].s.deadline < m[p].s.deadline then q else p)
  {
    var k :| 0 <= k < |s| && s[k] == p && BestAt(m, s, c, k);
    var s' := s + [q];
    assert s'[|s|] == q && forall i :: 0 <= i < |s| ==> s'[i] == s[i];
    if Eligible(c, m[q].s.vruntime) && m[q].s.deadline < m[p].s.deadline {
      forall i | 0 <= i < |s'| && Eligible(c, m[s'[i]].s.vruntime) ensures Precedes(m, s', |s|, i) {
        if i < |s| {
          assert Precedes(m, s, k, i);
        }
      }
      assert BestAt(m, s', c, |s|);
    } else {
      forall i | 0 <= i < |s'| && Eligible(c, m[s'[i]].s.vruntime) ensures Precedes(m, s', k, i) {
        if i < |s| {
          assert Precedes(m, s, k, i);
        }
      }
      assert BestAt(m, s', c, k);
    }
  }

  lemma {:induction false} BestAlone(m: Mem, s: seq<Ptr>, c: Clock, q: Ptr)
    requires AllIn(m, s) && q in m && Eligible(c, m[q].s.vruntime) && NoneEligible(m, s, c)
    ensures Best(m, s + [q], c, q)
  {
    var s' := s + [q];
    assert s'[|s|] == q && forall i :: 0 <= i < |s| ==> s'[i] == s[i];
    assert BestAt(m, s', c, |s|);
  }

  lemma {:induction false} NoneAppend(m: Mem, s: seq<Ptr>, c: Clock, q: Ptr)
    requires NoneEligible(m, s, c) && q in m && !Eligible(c, m[q].s.vruntime)
    ensures NoneEligible(m, s + [q], c)
  {
  }

  /** Whenever someone is eligible, the choice is the best of everyone. */
  lemma {:induction false} ChoiceAmong(m: Mem, t: Tree, curr: Ptr, nr: nat, c: Clock, someone: Ptr)
    requires AllIn(m, InOrder(t)) && Sorted(m, InOrder(t)) && NULL !in Nodes(t)
    requires curr != NULL ==> curr in m && m[curr].s.onRq
    requires nr == |Everyone(t, curr)| && !RunsToParity(m, curr, nr, c)
    requires someone in Everyone(t, curr) && someone in m && Eligible(c, m[someone].s.vruntime)
    ensures Best(m, Everyone(t, curr), c, Choice(m, t, First(InOrder(t)), curr, nr, c))
  {
    var s := Everyone(t, curr);
    SomeNotNone(m, s, c, someone);
    if nr == 1 {
      assert s == [someone] by {
        assert s[0] == someone;
      }
      assert BestAt(m, s, c, 0);
      assert Choice(m, t, First(InOrder(t)), curr, nr, c) == someone;
    } else {
      var best := FirstEligible(m, InOrder(t), c);
      BestOfTree(m, t, c, best);
      if curr == NULL {
        assert s == InOrder(t);
      } else {
        if best != NULL {
          BestAppend(m, InOrder(t), c, best, curr);
        } else if Eligible(c, m[curr].s.vruntime) {
          BestAlone(m, InOrder(t), c, curr);
        } else {
          NoneAppend(m, InOrder(t), c, curr);
        }
      }
    }
  }

  /** The choice is the best of everyone, unless the current task runs to parity. */
  lemma {:induction false} ChoiceIsBest(m: Mem, root: Ptr, leftmost: Ptr, t: Tree, avg: int, load: int, v0: int, curr: Ptr, nr: nat)
    requires Timeline(m, root, leftmost, t, avg, load, v0) && Roster(m, t, curr)
    requires nr == |Everyone(t, curr)| && nr > 0
    requires !RunsToParity(m, curr, nr, ClockOf(m, curr, avg, load, v0))
    ensures var c := ClockOf(m, curr, avg, load, v0);
            Best(m, Everyone(t, curr), c, Choice(m, t, leftmost, curr, nr, c))
  {
    var c := ClockOf(m, curr, avg, load, v0);
    ReprNodes(m, t, root, NULL);
    ClockSums(m, root, leftmost, t, avg, load, v0, curr);
    var someone := SomeoneEligible(m, Everyone(t, curr), c);
    ChoiceAmong(m, t, curr, nr, c, someone);
  }

  /** The same by the exact sums. */
  lemma {:induction false} ChoiceEarliest(m: Mem, root: Ptr, leftmost: Ptr, t: Tree, avg: int, load: int, v0: int, curr: Ptr, nr: nat)
    requires Timeline(m, root, leftmost, t, avg, load, v0) && Roster(m, t, curr)
    requires nr == |Everyone(t, curr)| && nr > 0
    ensures var best := Choice(m, t, leftmost, curr, nr, ClockOf(m, curr, avg, load, v0));
            if Parity(m, Everyone(t, curr), curr) then best == curr else Earliest(m, Everyone(t, curr), best)
  {
    var c := ClockOf(m, curr, avg, load, v0);
    ClockSums(m, root, leftmost, t, avg, load, v0, curr);
    if curr != NULL {
      OwedIff(m, Everyone(t, curr), c, m[curr].s.vruntime);
    }
    if !Parity(m, Everyone(t, curr), curr) {
      ChoiceIsBest(m, root, leftmost, t, avg, load, v0, curr, nr);
      BestEarliest(m, Everyone(t, curr), c, Choice(m, t, leftmost, curr, nr, c));
    }
  }

  lemma SomeNotNone(m: Mem, s: seq<Ptr>, c: Clock, p: Ptr)
    requires p in s && p in m && Eligible(c, m[p].s.vruntime)
    ensures !NoneEligible(m, s, c)
  {
    var i :| 0 <= i < |s| && s[i] == p;
  }

  lemma {:induction false} RosterKeep(m: Mem, m': Mem, t: Tree, t': Tree, c: Ptr, c': Ptr)
    requires Roster(m, t, c) && SamePayload(m, m')
    requires forall q :: q in m ==> (q in Nodes(t') || q == c' <==> q in Nodes(t) || q == c)
    requires c' != NULL ==> c' in m && c' !in Nodes(t')
    ensures Roster(m', t', c')
  {
    forall q | q in m' ensures m'[q].s.weight > 0 && (m'[q].s.onRq <==> q in Nodes(t') || q == c') {
      assert q in m;
    }
  }
}
