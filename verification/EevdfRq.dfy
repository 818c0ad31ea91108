/**
 The EEVDF run queue as an object: the fields the program keeps, updated in place by the policy
 entry points. The clock is a parameter of every operation that reads it.
 */
module EevdfRq {
  import opened RbShape
  import opened RbRotate
  import opened RbAdd
  import opened RbTree
  import opened EevdfSums
  import opened EevdfPick
  import opened Eevdf
  import C = CalcDelta
  import W = Words

  /** calc_delta_fair: virtual time for `delta` of real time. */
  ghost function FairDelta(delta: int, weight: nat): int {
    if weight == C.NICE_0_LOAD then delta
    else if C.FitsShift(C.NICE_0_LOAD, C.Inverse(weight)) then C.Quot(delta % W.TWO64, C.NICE_0_LOAD, C.Inverse(weight))
    else 0
  }

  /** `x` is the virtual time for `delta` of real time at weight `w`: the same at the default weight, and otherwise `delta`
      times the default weight over `w`, never more, and less by no more than the rounding of the fixed-point division. */
  ghost predicate VirtualTime(delta: nat, w: nat, x: int) {
    && x >= 0 && (w == C.NICE_0_LOAD ==> x == delta)
    && (delta < W.TWO64 && w <= W.TWO32 ==> x * w <= delta * C.NICE_0_LOAD)
    && (delta < W.TWO64 && 0 < w < C.WMULT_CONST && delta * C.NICE_0_LOAD < W.TWO64 * w ==>
          ((x + 1) * W.TWO63) * w > ((delta * C.NICE_0_LOAD) * (W.TWO32 - w)) * (W.TWO31 - 1))
  }

  /** What calc_delta_fair computes. */
  lemma {:induction false} FairIsVirtual(delta: nat, w: nat)
    ensures VirtualTime(delta, w, FairDelta(delta, w))
  {
    if w == C.NICE_0_LOAD {
      DefaultWeight(delta);
    } else {
      C.InverseBound(w);
      C.WordFits(C.NICE_0_LOAD, C.Inverse(w));
      OtherWeight(delta, w, FairDelta(delta, w));
    }
  }

  lemma {:induction false} OtherWeight(delta: nat, w: nat, x: int)
    requires w != C.NICE_0_LOAD && C.FitsShift(C.NICE_0_LOAD, C.Inverse(w))
    requires x == C.Quot(delta % W.TWO64, C.NICE_0_LOAD, C.Inverse(w))
    ensures VirtualTime(delta, w, x)
  {
    QuotNatural(delta, w);
    if delta < W.TWO64 {
      C.ModSmall(delta);
      QuotBounds(delta, w, x);
    }
  }

  lemma {:induction false} QuotNatural(delta: nat, w: nat)
    requires C.FitsShift(C.NICE_0_LOAD, C.Inverse(w))
    ensures C.Quot(delta % W.TWO64, C.NICE_0_LOAD, C.Inverse(w)) >= 0
  {
    C.InverseBound(w);
    C.QuotUpperBound(delta % W.TWO64, C.NICE_0_LOAD, C.Inverse(w));
  }

  lemma {:induction false} QuotBounds(delta: nat, w: nat, x: int)
    requires delta < W.TWO64 && C.FitsShift(C.NICE_0_LOAD, C.Inverse(w)) && x == C.Quot(delta, C.NICE_0_LOAD, C.Inverse(w))
    ensures w <= W.TWO32 ==> x * w <= delta * C.NICE_0_LOAD
    ensures 0 < w < C.WMULT_CONST && delta * C.NICE_0_LOAD < W.TWO64 * w ==>
              ((x + 1) * W.TWO63) * w > ((delta * C.NICE_0_LOAD) * (W.TWO32 - w)) * (W.TWO31 - 1)
  {
    if w <= W.TWO32 {
      C.QuotNotAbove(delta, C.NICE_0_LOAD, w);
    }
    if 0 < w < C.WMULT_CONST && delta * C.NICE_0_LOAD < W.TWO64 * w {
      C.QuotLowerBound(delta, C.NICE_0_LOAD, w);
    }
  }

  lemma {:induction false} DefaultWeight(delta: nat)
    ensures ((delta + 1) * W.TWO63) * C.NICE_0_LOAD > ((delta * C.NICE_0_LOAD) * (W.TWO32 - C.NICE_0_LOAD)) * (W.TWO31 - 1)
  {
    var k := (W.TWO32 - C.NICE_0_LOAD) * (W.TWO31 - 1);
    assert k < W.TWO63;
    C.ScaleLeft(delta, k, W.TWO63);
    C.Mul3(delta, W.TWO32 - C.NICE_0_LOAD, W.TWO31 - 1);
  }

  method CalcDeltaFair(delta: nat, weight: nat) returns (r: int)
    ensures r == FairDelta(delta, weight) && r >= 0
  {
    r := delta;
    if weight != C.NICE_0_LOAD {
      var lw, defined;
      r, lw, defined := C.CalcDelta(delta % W.TWO64, C.NICE_0_LOAD, C.LoadWeight(weight, 0));
    }
  }

  /** Schedule data `s` are `s0` charged for the time up to `now`: time is charged once, in real and in virtual time, and a
      request that is used up is followed by another of one base slice. */
  ghost predicate ChargedBy(s0: Sched, s: Sched, now: int) {
    && s.weight == s0.weight && s.onRq == s0.onRq && s.vlag == s0.vlag && (now <= s0.execStart ==> s == s0)
    && s.execStart == Max(s0.execStart, now) && s.sumExec - s.execStart == s0.sumExec - s0.execStart
    && s.vruntime == s0.vruntime + FairDelta(s.execStart - s0.execStart, s.weight)
    && (s.weight == C.NICE_0_LOAD ==> s.vruntime - s0.vruntime == s.execStart - s0.execStart)
    && (if now <= s0.execStart || s.vruntime < s0.deadline then s.deadline == s0.deadline && s.slice == s0.slice
        else s.slice == BASE_SLICE && s.deadline == s.vruntime + FairDelta(BASE_SLICE, s.weight))
  }

  /** No time was charged twice and none was lost between `s0` and `s`. */
  ghost predicate SameAccount(s0: Sched, s: Sched) {
    && s.weight == s0.weight && s.execStart >= s0.execStart && s.sumExec - s.execStart == s0.sumExec - s0.execStart
    && (s.weight == C.NICE_0_LOAD ==> s.vruntime - s.execStart == s0.vruntime - s0.execStart)
  }

  lemma {:induction false} NoTime(w: nat)
    ensures FairDelta(0, w) == 0
  {
    if w != C.NICE_0_LOAD && C.FitsShift(C.NICE_0_LOAD, C.Inverse(w)) {
      C.QuotZero(C.NICE_0_LOAD, C.Inverse(w));
    }
  }

  /** The arithmetic of update_curr and update_deadline. */
  method Charge(s0: Sched, now: int, nr: nat) returns (s: Sched, resched: bool)
    ensures ChargedBy(s0, s, now)
    ensures resched <==> now > s0.execStart && s.vruntime >= s0.deadline && nr > 1
  {
    NoTime(s0.weight);
    s, resched := s0, false;
    var delta := now - s.execStart;
    if delta <= 0 {
      return;
    }
    var fair := CalcDeltaFair(delta, s.weight);
    s := s.(execStart := now, sumExec := s.sumExec + delta, vruntime := s.vruntime + fair);
    if s.vruntime >= s.deadline {
      fair := CalcDeltaFair(BASE_SLICE, s.weight);
      s := s.(slice := BASE_SLICE, deadline := s.vruntime + fair);
      resched := nr > 1;
    }
  }

  /** Where place_task puts a task, given the clock and whether the queue is empty. */
  ghost function Placed(s: Sched, c: Clock, nr: nat, init: bool): Sched
    requires c.load >= 0 && (nr > 0 ==> c.load > 0)
  {
    var lag := if nr == 0 then 0 else DivS64(s.vlag * (c.load + ScaleLoadDown(s.weight)), c.load);
    var v := AvgOf(c) - lag;
    var vslice := FairDelta(BASE_SLICE, s.weight);
    s.(slice := BASE_SLICE, vruntime := v, deadline := v + if init then vslice / 2 else vslice)
  }

  lemma {:induction false} MinIsLeast(m: Mem, t: Tree, s: set<Ptr>, x: int, y: int)
    requires Aug(m, t) && t.Node? && t.p in m && x == m[t.p].minVruntime
    ensures s == Nodes(t) ==> IsMin(m, s, x)
    ensures forall q :: q in m && s == Nodes(t) + {q} && y == m[q].s.vruntime ==> IsMin(m, s, if x < y then x else y)
  {
    forall q | q in m && s == Nodes(t) + {q} && y == m[q].s.vruntime ensures IsMin(m, s, if x < y then x else y) {
      var p :| p in Nodes(t) && p in m && m[p].s.vruntime == x;
      assert p in s && q in s;
    }
  }

  /** The exact lag of a task at `v`, the weighted average of the tasks less `v`, is strictly between `lag - 1` and
      `lag + 2`: `WSum` is that lag times the load. */
  ghost predicate LagWithin(m: Mem, s: seq<Ptr>, v: int, lag: int) {
    AllIn(m, s) && (lag - 1) * Load(m, s) < WSum(m, s, v) < (lag + 2) * Load(m, s)
  }

  /** The same by a clock. */
  predicate LagByClock(c: Clock, v: int, lag: int) {
    (lag - 1) * c.load < c.avg - (v - c.v0) * c.load < (lag + 2) * c.load
  }

  lemma {:induction false} LagExact(m: Mem, s: seq<Ptr>, c: Clock, v: int, lag: int)
    requires Exact(m, s, c) && LagByClock(c, v, lag)
    ensures LagWithin(m, s, v, lag)
  {
    Rebase(m, s, c.v0, v);
    assert Load(m, s) * (v - c.v0) == (v - c.v0) * c.load;
  }

  /** The stored lag is the exact lag rounded down, unless it is at a limit. */
  ghost predicate LagStored(m: Mem, s: seq<Ptr>, v: int, lag: int, limit: int) {
    && AllIn(m, s) && -limit <= lag <= limit
    && (lag < limit ==> WSum(m, s, v) < (lag + 1) * Load(m, s)) && (lag > -limit ==> lag * Load(m, s) <= WSum(m, s, v))
  }

  /** The stored lag has the sign of the exact one: a task leaves with a lag that is not negative exactly when it is owed
      service. */
  lemma {:induction false} LagSign(m: Mem, s: seq<Ptr>, v: int, lag: int, limit: int)
    requires LagStored(m, s, v, lag, limit) && limit > 0 && Load(m, s) > 0
    ensures lag >= 0 <==> Owed(m, s, v)
  {
    var load := Load(m, s);
    if lag >= 0 {
      C.MulNat(lag, load);
    } else {
      W.Scale(lag + 1, 0, load);
    }
  }

  /** task_lag. */
  method TaskLag(s: Sched, avruntime: int, tick: nat, ghost m: Mem, ghost e: seq<Ptr>, ghost c: Clock) returns (lag: int, ghost limit: int)
    requires Exact(m, e, c) && c.load > 0 && avruntime == AvgOf(c)
    ensures limit == FairDelta(Max(2 * s.slice, tick), s.weight) && LagStored(m, e, s.vruntime, lag, limit)
  {
    var l := CalcDeltaFair(Max(2 * s.slice, tick), s.weight);
    limit := l;
    lag := Clamp(avruntime - s.vruntime, -l, l);
    LagRounded(m, e, c, s.vruntime);
    ClampStored(m, e, s.vruntime, avruntime - s.vruntime, lag, l);
  }

  lemma {:induction false} LagRounded(m: Mem, s: seq<Ptr>, c: Clock, v: int)
    requires Exact(m, s, c) && c.load > 0
    ensures (AvgOf(c) - v) * Load(m, s) <= WSum(m, s, v) < (AvgOf(c) - v + 1) * Load(m, s)
  {
    Rebase(m, s, c.v0, v);
    AvgDivFloor(c.avg, c.load);
    RoundedLag(AvgDiv(c.avg, c.load), v - c.v0, c.avg, c.load);
  }

  lemma RoundedLag(a: int, d: int, avg: int, load: int)
    requires a * load <= avg < a * load + load
    ensures (a - d) * load <= avg - load * d < (a - d + 1) * load
  {
  }

  lemma {:induction false} ClampStored(m: Mem, s: seq<Ptr>, v: int, x: int, lag: int, limit: int)
    requires AllIn(m, s) && limit >= 0 && lag == Clamp(x, -limit, limit) && x * Load(m, s) <= WSum(m, s, v) < (x + 1) * Load(m, s)
    ensures LagStored(m, s, v, lag, limit)
  {
    if lag < x {
      W.Scale(lag, x, Load(m, s));
    } else if lag > x {
      W.Scale(x + 1, lag + 1, Load(m, s));
    }
  }

  /** The clock once a task counts too. */
  function Joined(c: Clock, s: Sched): Clock {
    Clock(c.avg + (s.vruntime - c.v0) * ScaleLoadDown(s.weight), c.load + ScaleLoadDown(s.weight), c.v0)
  }

  lemma {:induction false} PlacedWithin(c: Clock, s: Sched, nr: nat, init: bool)
    requires c.load > 0 && nr > 0
    ensures LagByClock(Joined(c, Placed(s, c, nr, init)), Placed(s, c, nr, init).vruntime, s.vlag)
  {
    LagPreserved(c, ScaleLoadDown(s.weight), s.vlag, Placed(s, c, nr, init).vruntime);
  }

  /** Schedule data `s` are `s0` placed on a queue of tasks `e`, among which task `p` will be: with the stored lag on a busy
      queue, at the origin `v0` of an empty one, and with a whole or half a slice until the deadline. */
  ghost predicate PlacedBy(s0: Sched, s: Sched, m: Mem, e: seq<Ptr>, p: Ptr, v0: int, init: bool) {
    && s == s0.(vruntime := s.vruntime, deadline := s.deadline, slice := BASE_SLICE)
    && (if e == [] then s.vruntime == v0 else LagWithin(m, e + [p], s.vruntime, s0.vlag))
    && s.deadline == s.vruntime + FairDelta(BASE_SLICE, s.weight) / (if init then 2 else 1)
  }

  lemma {:induction false} PlacedIs(m: Mem, m': Mem, e: seq<Ptr>, p: Ptr, c: Clock, nr: nat, init: bool)
    requires Exact(m, e, c) && p in m && nr == |e| && (nr > 0 ==> c.load > 0) && p !in e
    requires m' == m[p := m[p].(s := Placed(m[p].s, c, nr, init))]
    ensures PlacedBy(m[p].s, m'[p].s, m', e, p, c.v0, init)
    ensures nr > 0 ==> LagByClock(Joined(c, m'[p].s), m'[p].s.vruntime, m[p].s.vlag)
  {
    var s := m'[p].s;
    if e != [] {
      PlacedWithin(c, m[p].s, nr, init);
      SumsKeep(m, m', e, c.v0);
      SumsSplit(m', e, [p], c.v0);
      SumsOne(m', p, c.v0);
      LagExact(m', e + [p], Joined(c, s), s.vruntime, m[p].s.vlag);
    }
  }

  lemma {:induction false} RosterJoin(m: Mem, m': Mem, t: Tree, t': Tree, curr: Ptr, p: Ptr)
    requires Roster(m, t, curr) && p in m && !m[p].s.onRq && m'.Keys == m.Keys && Nodes(t') == Nodes(t) + {p}
    requires SamePayload(m[p := m[p].(s := m[p].s.(onRq := true))], m')
    ensures Roster(m', t', curr) && p !in Nodes(t)
    ensures m'[p].s == m[p].s.(onRq := true) && forall q :: q in m && q != p ==> m'[q].s == m[q].s
  {
    var m1 := m[p := m[p].(s := m[p].s.(onRq := true))];
    forall q | q in m ensures m'[q].s == m1[q].s {
      assert q in m1;
    }
  }

  lemma {:induction false} ClockJoin(m: Mem, m': Mem, curr: Ptr, p: Ptr, avg: int, load: int, avg': int, load': int, v0: int)
    requires p in m && p != curr && (curr != NULL ==> curr in m && curr in m' && m'[curr].s == m[curr].s)
    requires avg' == avg + (m[p].s.vruntime - v0) * Weight(m, p) && load' == load + Weight(m, p)
    ensures ClockOf(m', curr, avg', load', v0) == Joined(ClockOf(m, curr, avg, load, v0), m[p].s)
  {
  }

  /** The leftmost task, when eligible, is what the scan finds. */
  lemma {:induction false} LeftmostFirst(m: Mem, s: seq<Ptr>, c: Clock)
    requires AllIn(m, s) && First(s) != NULL && First(s) in m && Eligible(c, m[First(s)].s.vruntime)
    ensures FirstEligible(m, s, c) == First(s)
  {
  }

  lemma {:induction false} RosterDrop(m: Mem, m': Mem, t: Tree, curr: Ptr, s: Sched)
    requires Roster(m, t, curr) && curr != NULL && NULL !in m && s.weight > 0 && !s.onRq && m' == m[curr := m[curr].(s := s)]
    ensures Roster(m', t, NULL)
  {
  }

  lemma {:induction false} RosterSet(m: Mem, t: Tree, curr: Ptr, p: Ptr, s: Sched)
    requires Roster(m, t, curr) && p in m && s.weight > 0 && s.onRq == m[p].s.onRq
    ensures Roster(m[p := m[p].(s := s)], t, curr)
  {
  }

  /** The arithmetic of place_task, given the average and the load. */
  method PlaceAt(s0: Sched, vruntime: int, load: int, nr: nat, init: bool) returns (s: Sched)
    requires nr > 0 ==> load > 0
    ensures forall c: Clock :: c.load == load && c.load >= 0 && AvgOf(c) == vruntime ==> s == Placed(s0, c, nr, init)
  {
    var lag := 0;
    s := s0.(slice := BASE_SLICE);
    var vslice := CalcDeltaFair(s.slice, s.weight);
    if nr != 0 {
      lag := s.vlag * (load + ScaleLoadDown(s.weight));
      lag := DivS64(lag, load);
    }
    s := s.(vruntime := vruntime - lag);
    if init {
      vslice := vslice / 2;
    }
    s := s.(deadline := s.vruntime + vslice);
  }

  /** The left-biased division of avg_vruntime. */
  method Average(avg0: int, load: int, v0: int) returns (v: int)
    requires load >= 0
    ensures v == AvgOf(Clock(avg0, load, v0))
  {
    var avg := avg0;
    if load != 0 {
      if avg < 0 {
        avg := avg - (load - 1);
      }
      avg := DivS64(avg, load);
    }
    v := v0 + avg;
  }

  ghost function WithSched(m: Mem, p: Ptr, s: Sched): Mem
    requires p in m
  {
    m[p := m[p].(s := s)]
  }

  lemma SomeNode(t: Tree)
    requires InOrder(t) != []
    ensures Nodes(t) != {}
  {
    assert t.p in Nodes(t);
  }

  /** The move of the origin on a charge and the one after a task left come to one move to the least that is left. */
  lemma {:induction false} LeastRemains(m: Mem, s: set<Ptr>, p: Ptr, x: Sched, v0: int, v1: int, v2: int)
    requires p in m && p !in s && (v1 == v0 || LaterOf(m, s + {p}, v0, v1)) && LaterOf(WithSched(m, p, x), s, v1, v2)
    ensures LaterOf(WithSched(m, p, x), s, v0, v2)
  {
    var m' := WithSched(m, p, x);
    var low' :| IsMin(m', s, low') && v2 == Max(v1, low');
    if v1 != v0 {
      var low :| IsMin(m, s + {p}, low) && v1 == Max(v0, low);
      var q :| q in s && q in m' && m'[q].s.vruntime == low';
      assert q in s + {p} && low <= low';
    }
  }

  /** `v` is the least vruntime of the tasks, or `v0` where that is later. */
  ghost predicate LaterOf(m: Mem, s: set<Ptr>, v0: int, v: int) {
    exists low :: IsMin(m, s, low) && v == Max(v0, low)
  }

  /** The calls a scheduler makes: `Drop` is block or finish, which do the same to the queue. A spawn is a `Fork` and later a
      `Put`, with other calls in between. */
  datatype Op =
    | Init(p: Ptr)
    | Fork(p: Ptr, now: int)
    | Put(p: Ptr, now: int)
    | Wakeup(p: Ptr, now: int)
    | Pick(now: int)
    | Yield(now: int)
    | Drop(now: int)
    | Tick(now: int)

  class RunQueue {
    var mem: Mem
    var rbNode: Ptr
    var rbLeftmost: Ptr
    ghost var tree: Tree
    var avgVruntime: int
    var avgLoad: int
    var minVruntime: int
    var nrRunning: nat
    var curr: Ptr
    const tickNsec: nat

    /** The cached sums are exact over the tree. */
    ghost predicate Sums()
      reads this
    {
      Timeline(mem, rbNode, rbLeftmost, tree, avgVruntime, avgLoad, minVruntime)
    }

    ghost predicate Valid()
      reads this
    {
      && Sums() && Roster(mem, tree, curr)
      && nrRunning == |InOrder(tree)| + if curr == NULL then 0 else 1
    }

    ghost function Now(): Clock
      reads this
      requires curr != NULL ==> curr in mem
    {
      ClockOf(mem, curr, avgVruntime, avgLoad, minVruntime)
    }

    /** eevdf_sched_init_percpu. */
    constructor (tick: nat)
      ensures Valid() && mem == map[] && nrRunning == 0 && curr == NULL && minVruntime == -0x10_0000 && tickNsec == tick
    {
      mem, rbNode, rbLeftmost, tree := map[], NULL, NULL, Leaf;
      avgVruntime, avgLoad, minVruntime := 0, 0, -0x10_0000;
      nrRunning, curr, tickNsec := 0, NULL, tick;
    }

    /** eevdf_sched_init_task. */
    method InitTask(p: Ptr)
      requires Valid() && p != NULL && p !in mem
      modifies `mem
      ensures Valid() && mem.Keys == old(mem.Keys) + {p} && mem[p].s == Sched(0, 0, C.NICE_0_LOAD, false, 0, 0, 0, BASE_SLICE)
      ensures forall q :: q in old(mem) ==> mem[q] == old(mem)[q]
    {
      ghost var m := mem;
      ReprNodes(mem, tree, rbNode, NULL);
      mem := mem[p := Task(NULL, NULL, NULL, true, 0, Sched(0, 0, C.NICE_0_LOAD, false, 0, 0, 0, BASE_SLICE))];
      TimelineKeep(m, mem, rbNode, rbLeftmost, tree, avgVruntime, avgLoad, minVruntime);
    }

    /** __enqueue_task. */
    method EnqueueNode(p: Ptr)
      requires Sums() && p in mem && p !in Nodes(tree)
      modifies `mem, `rbNode, `rbLeftmost, `tree, `avgVruntime, `avgLoad
      ensures Sums() && SamePayload(old(mem), mem) && Nodes(tree) == old(Nodes(tree)) + {p}
      ensures InOrder(tree) == SortedInsert(old(mem), old(InOrder(tree)), p) && |InOrder(tree)| == old(|InOrder(tree)|) + 1
      ensures avgVruntime == old(avgVruntime) + (old(mem)[p].s.vruntime - minVruntime) * Weight(old(mem), p)
      ensures avgLoad == old(avgLoad) + Weight(old(mem), p)
    {
      ghost var avg, load := avgVruntime, avgLoad;
      avgVruntime := avgVruntime + (mem[p].s.vruntime - minVruntime) * Weight(mem, p);
      avgLoad := avgLoad + Weight(mem, p);
      mem, rbNode, rbLeftmost, tree := AddTask(mem, rbNode, rbLeftmost, p, tree, avg, load, minVruntime);
    }

    /** __dequeue_task. */
    method DequeueNode(p: Ptr)
      requires Sums() && p in Nodes(tree)
      modifies `mem, `rbNode, `rbLeftmost, `tree, `avgVruntime, `avgLoad
      ensures Sums() && SamePayload(old(mem), mem) && Nodes(tree) == old(Nodes(tree)) - {p}
      ensures InOrder(tree) == Without(old(InOrder(tree)), p) && |InOrder(tree)| == old(|InOrder(tree)|) - 1
    {
      mem, rbNode, rbLeftmost, tree := RemoveTask(mem, rbNode, rbLeftmost, p, tree, avgVruntime, avgLoad, minVruntime);
      avgVruntime := avgVruntime - (mem[p].s.vruntime - minVruntime) * Weight(mem, p);
      avgLoad := avgLoad - Weight(mem, p);
    }

    /** The tasks update_min_vruntime looks at. */
    ghost function Counted(): set<Ptr>
      reads this
      requires curr != NULL ==> curr in mem
    {
      Nodes(tree) + if curr != NULL && mem[curr].s.onRq then {curr} else {}
    }

    /** update_min_vruntime: up to the least vruntime, never back; the weighted sum moves along. */
    method UpdateMinVruntime()
      requires Sums() && (curr != NULL ==> curr in mem)
      modifies `avgVruntime, `minVruntime
      ensures Sums() && minVruntime >= old(minVruntime)
      ensures Counted() == {} ==> minVruntime == old(minVruntime)
      ensures Counted() != {} ==> LaterOf(mem, Counted(), old(minVruntime), minVruntime)
    {
      ReprRoot(mem, tree, rbNode, NULL);
      var c := curr;
      var vruntime := minVruntime;
      if c != NULL {
        if mem[c].s.onRq {
          vruntime := mem[c].s.vruntime;
        } else {
          c := NULL;
        }
      }
      if rbNode != NULL {
        assert tree.Node? && tree.p == rbNode && rbNode in mem;
        var low := mem[rbNode].minVruntime;
        MinIsLeast(mem, tree, Counted(), low, vruntime);
        if c == NULL {
          vruntime := low;
        } else {
          vruntime := if low < vruntime then low else vruntime;
        }
      }
      assert Counted() != {} ==> IsMin(mem, Counted(), vruntime);
      var delta := vruntime - minVruntime;
      if delta > 0 {
        Rebase(mem, InOrder(tree), minVruntime, vruntime);
        avgVruntime := avgVruntime - avgLoad * delta;
        minVruntime := vruntime;
      }
    }

    /** A task outside the tree gets new schedule data. */
    method SetSched(p: Ptr, s: Sched)
      requires Sums() && p in mem && p !in Nodes(tree)
      modifies `mem
      ensures Sums() && mem == old(mem)[p := old(mem)[p].(s := s)]
    {
      ghost var m := mem;
      ReprNodes(mem, tree, rbNode, NULL);
      mem := mem[p := mem[p].(s := s)];
      TimelineKeep(m, mem, rbNode, rbLeftmost, tree, avgVruntime, avgLoad, minVruntime);
    }

    /** The same on a queue whose invariant holds. */
    method Revise(p: Ptr, s: Sched)
      requires Valid() && p in mem && p !in Nodes(tree) && s.weight > 0 && s.onRq == mem[p].s.onRq
      modifies `mem
      ensures Valid() && mem == old(mem)[p := old(mem)[p].(s := s)]
    {
      RosterSet(mem, tree, curr, p, s);
      SetSched(p, s);
    }

    /** update_curr with update_deadline. */
    method UpdateCurr(now: int) returns (resched: bool)
      requires Valid()
      modifies `mem, `avgVruntime, `minVruntime
      ensures Valid() && minVruntime >= old(minVruntime) && mem.Keys == old(mem.Keys)
      ensures curr == NULL ==> mem == old(mem)
      ensures curr != NULL ==> mem == WithSched(old(mem), curr, mem[curr].s) && ChargedBy(old(mem)[curr].s, mem[curr].s, now)
      ensures curr == NULL || now <= old(mem)[curr].s.execStart ==> minVruntime == old(minVruntime)
      ensures curr != NULL && now > old(mem)[curr].s.execStart ==> LaterOf(mem, Counted(), old(minVruntime), minVruntime)
      ensures resched <==> Used(old(mem), now)
    {
      if curr == NULL {
        return false;
      }
      var s;
      s, resched := Charge(mem[curr].s, now, nrRunning);
      assert mem[curr := mem[curr]] == mem;
      if now - mem[curr].s.execStart > 0 {
        SetCurr(s);
      }
    }

    method SetCurr(s: Sched)
      requires Valid() && curr != NULL && s.weight > 0 && s.onRq
      modifies `mem, `avgVruntime, `minVruntime
      ensures Valid() && mem == WithSched(old(mem), curr, s) && minVruntime >= old(minVruntime) && LaterOf(mem, Counted(), old(minVruntime), minVruntime)
    {
      Revise(curr, s);
      UpdateMinVruntime();
      assert curr in Counted();
    }

    /** The charge takes the current task to its deadline, and others are waiting. */
    ghost predicate Used(m: Mem, now: int)
      reads this
    {
      && curr != NULL && curr in m && curr in mem && now > m[curr].s.execStart
      && mem[curr].s.vruntime >= m[curr].s.deadline && nrRunning > 1
    }

    /** avg_vruntime. */
    method AvgVruntime() returns (v: int)
      requires Valid()
      ensures v == AvgOf(Now()) && AllIn(mem, Everyone(tree, curr)) && Owed(mem, Everyone(tree, curr), v)
      ensures if nrRunning == 0 then v == minVruntime else !Owed(mem, Everyone(tree, curr), v + 1)
    {
      var avg, load := avgVruntime, avgLoad;
      if curr != NULL && mem[curr].s.onRq {
        avg, load := avg + (mem[curr].s.vruntime - minVruntime) * Weight(mem, curr), load + Weight(mem, curr);
      }
      assert Now() == Clock(avg, load, minVruntime);
      ClockSums(mem, rbNode, rbLeftmost, tree, avgVruntime, avgLoad, minVruntime, curr);
      v := Average(avg, load, minVruntime);
      AverageExact(mem, Everyone(tree, curr), Now());
    }

    /** A busy queue has load: the warning in place_task cannot fire. */
    lemma BusyHasLoad()
      requires Valid()
      ensures Now().load >= 0 && (nrRunning > 0 ==> Now().load >= 2)
      ensures nrRunning == |Everyone(tree, curr)|
    {
      ClockSums(mem, rbNode, rbLeftmost, tree, avgVruntime, avgLoad, minVruntime, curr);
    }

    /** place_task. */
    method PlaceTask(p: Ptr, init: bool)
      requires Valid() && p in mem && !mem[p].s.onRq
      modifies `mem
      ensures Valid() && Now() == old(Now()) && mem.Keys == old(mem.Keys) && mem == WithSched(old(mem), p, mem[p].s)
      ensures nrRunning > 0 ==> LagByClock(Joined(Now(), mem[p].s), mem[p].s.vruntime, old(mem)[p].s.vlag)
      ensures PlacedBy(old(mem)[p].s, mem[p].s, mem, Everyone(tree, curr), p, minVruntime, init)
    {
      var s := PlaceOf(p, init);
      Revise(p, s);
    }

    method PlaceOf(p: Ptr, init: bool) returns (s: Sched)
      requires Valid() && p in mem && !mem[p].s.onRq
      ensures PlacedBy(mem[p].s, s, WithSched(mem, p, s), Everyone(tree, curr), p, minVruntime, init)
      ensures nrRunning > 0 ==> LagByClock(Joined(Now(), s), s.vruntime, mem[p].s.vlag)
    {
      BusyHasLoad();
      s := PlaceBy(p, init);
      ClockSums(mem, rbNode, rbLeftmost, tree, avgVruntime, avgLoad, minVruntime, curr);
      InOrderNodes(tree);
      PlacedIs(mem, WithSched(mem, p, s), Everyone(tree, curr), p, Now(), nrRunning, init);
    }

    method PlaceBy(p: Ptr, init: bool) returns (s: Sched)
      requires Valid() && p in mem && Now().load >= 0 && (nrRunning > 0 ==> Now().load > 0)
      ensures s == Placed(mem[p].s, Now(), nrRunning, init)
    {
      var vruntime := AvgVruntime();
      var load := avgLoad;
      if curr != NULL && mem[curr].s.onRq {
        load := load + Weight(mem, curr);
      }
      assert load == Now().load;
      s := PlaceAt(mem[p].s, vruntime, load, nrRunning, init);
    }

    method Attach(p: Ptr)
      requires Sums() && p in mem && p !in Nodes(tree)
      modifies `mem, `rbNode, `rbLeftmost, `tree, `avgVruntime, `avgLoad
      ensures Sums() && Nodes(tree) == old(Nodes(tree)) + {p} && |InOrder(tree)| == old(|InOrder(tree)|) + 1
      ensures SamePayload(old(mem)[p := old(mem)[p].(s := old(mem)[p].s.(onRq := true))], mem) && mem.Keys == old(mem.Keys)
      ensures avgVruntime == old(avgVruntime) + (old(mem)[p].s.vruntime - minVruntime) * Weight(old(mem), p)
      ensures avgLoad == old(avgLoad) + Weight(old(mem), p)
    {
      SetSched(p, mem[p].s.(onRq := true));
      EnqueueNode(p);
    }

    /** enqueue_update, __enqueue_task and the store to on_rq. */
    method Join(p: Ptr)
      requires Valid() && p in mem && !mem[p].s.onRq
      modifies `mem, `rbNode, `rbLeftmost, `tree, `avgVruntime, `avgLoad, `nrRunning
      ensures Valid() && nrRunning == old(nrRunning) + 1 && Nodes(tree) == old(Nodes(tree)) + {p}
      ensures mem.Keys == old(mem.Keys) && mem[p].s == old(mem)[p].s.(onRq := true)
      ensures forall q :: q in mem && q != p ==> mem[q].s == old(mem)[q].s
      ensures Now() == Joined(old(Now()), old(mem)[p].s)
    {
      nrRunning := nrRunning + 1;
      Attach(p);
      RosterJoin(old(mem), mem, old(tree), tree, curr, p);
      ClockJoin(old(mem), mem, curr, p, old(avgVruntime), old(avgLoad), avgVruntime, avgLoad, minVruntime);
    }

    /** enqueue_task, for a task that is not on the queue. */
    method EnqueueTask(p: Ptr, now: int)
      requires Valid() && p in mem && !mem[p].s.onRq
      modifies `mem, `rbNode, `rbLeftmost, `tree, `avgVruntime, `avgLoad, `minVruntime, `nrRunning
      ensures Valid() && minVruntime >= old(minVruntime) && nrRunning == old(nrRunning) + 1
      ensures mem.Keys == old(mem.Keys) && Nodes(tree) == old(Nodes(tree)) + {p}
      ensures forall q :: q in mem && q != p && q != curr ==> mem[q].s == old(mem)[q].s
      ensures curr != NULL ==> ChargedBy(old(mem)[curr].s, mem[curr].s, now)
      ensures Arrived(old(mem)[p].s, p)
    {
      var _ := UpdateCurr(now);
      Enlist(p);
    }

    /** Task `p` counts: with the lag it had stored on a busy queue, at the origin of an empty one, and with a whole slice
        until its deadline. */
    ghost predicate Arrived(s0: Sched, p: Ptr)
      reads this
    {
      && p in mem && var s := mem[p].s;
      && s == s0.(vruntime := s.vruntime, deadline := s.deadline, slice := BASE_SLICE, onRq := true)
      && (if nrRunning == 1 then s.vruntime == minVruntime else LagWithin(mem, Everyone(tree, curr), s.vruntime, s0.vlag))
      && s.deadline == s.vruntime + FairDelta(BASE_SLICE, s.weight)
    }

    /** Placement and insertion, once the current task has been charged. */
    method Enlist(p: Ptr)
      requires Valid() && p in mem && !mem[p].s.onRq
      modifies `mem, `rbNode, `rbLeftmost, `tree, `avgVruntime, `avgLoad, `nrRunning
      ensures Valid() && nrRunning == old(nrRunning) + 1 && mem.Keys == old(mem.Keys) && Nodes(tree) == old(Nodes(tree)) + {p}
      ensures forall q :: q in mem && q != p ==> mem[q].s == old(mem)[q].s
      ensures Arrived(old(mem)[p].s, p)
    {
      PlaceTask(p, false);
      JoinPlaced(p, old(mem)[p].s);
    }

    method JoinPlaced(p: Ptr, ghost s0: Sched)
      requires Valid() && p in mem && !mem[p].s.onRq && mem[p].s.deadline == mem[p].s.vruntime + FairDelta(BASE_SLICE, mem[p].s.weight)
      requires mem[p].s == s0.(vruntime := mem[p].s.vruntime, deadline := mem[p].s.deadline, slice := BASE_SLICE)
      requires if nrRunning == 0 then mem[p].s.vruntime == minVruntime else LagByClock(Joined(Now(), mem[p].s), mem[p].s.vruntime, s0.vlag)
      modifies `mem, `rbNode, `rbLeftmost, `tree, `avgVruntime, `avgLoad, `nrRunning
      ensures Valid() && nrRunning == old(nrRunning) + 1 && mem.Keys == old(mem.Keys) && Nodes(tree) == old(Nodes(tree)) + {p}
      ensures forall q :: q in mem && q != p ==> mem[q].s == old(mem)[q].s
      ensures Arrived(s0, p)
    {
      Join(p);
      if nrRunning > 1 {
        LagHolds(mem[p].s.vruntime, s0.vlag);
      }
    }

    lemma LagHolds(v: int, lag: int)
      requires Valid() && LagByClock(Now(), v, lag)
      ensures LagWithin(mem, Everyone(tree, curr), v, lag)
    {
      ClockSums(mem, rbNode, rbLeftmost, tree, avgVruntime, avgLoad, minVruntime, curr);
      LagExact(mem, Everyone(tree, curr), Now(), v, lag);
    }

    /** pick_eevdf. */
    method PickEevdf() returns (best: Ptr)
      requires Valid()
      ensures nrRunning == 0 ==> best == NULL
      ensures nrRunning > 0 ==> if Parity(mem, Everyone(tree, curr), curr) then best == curr else Earliest(mem, Everyone(tree, curr), best)
      ensures best == Choice(mem, tree, rbLeftmost, curr, nrRunning, Now())
    {
      BusyHasLoad();
      ReprNodes(mem, tree, rbNode, NULL);
      best := Search();
      if nrRunning > 0 {
        ChoiceEarliest(mem, rbNode, rbLeftmost, tree, avgVruntime, avgLoad, minVruntime, curr, nrRunning);
      }
    }

    method Search() returns (best: Ptr)
      requires Valid() && Now().load >= 0 && NULL !in Nodes(tree)
      ensures best == Choice(mem, tree, rbLeftmost, curr, nrRunning, Now())
    {
      var task, current := rbLeftmost, curr;
      var c := ClockOf(mem, curr, avgVruntime, avgLoad, minVruntime);
      if nrRunning == 1 {
        return if current != NULL && mem[current].s.onRq then current else task;
      }
      if current != NULL && (!mem[current].s.onRq || !Eligible(c, mem[current].s.vruntime)) {
        current := NULL;
      }
      if current != NULL && mem[current].s.vlag == mem[current].s.deadline {
        return current;
      }
      if task != NULL && Eligible(c, mem[task].s.vruntime) {
        best := task;
        LeftmostFirst(mem, InOrder(tree), c);
      } else {
        best := PickTree(mem, rbNode, c, tree);
      }
      BestOfTree(mem, tree, c, best);
      if best == NULL || (current != NULL && mem[current].s.deadline < mem[best].s.deadline) {
        best := current;
      }
    }

    /** eevdf_sched_pick_next and __set_next_task. With no current task, as at every call site, the best task leaves the tree
        and becomes current. With a current task the queue does not survive: either that task is chosen again, and is taken
        out of a tree it is not in (`outside`; the model stops there), or it is left neither in the tree nor current. */
    method PickNext(charged: int, now: int) returns (picked: Ptr, outside: bool)
      requires Valid()
      modifies `mem, `rbNode, `rbLeftmost, `tree, `avgVruntime, `avgLoad, `minVruntime, `curr
      ensures old(curr) == NULL ==> Valid() && !outside && curr == picked && (picked == NULL <==> nrRunning == 0)
      ensures old(curr) == NULL ==> Picked(old(mem), old(tree), picked, now) && minVruntime == old(minVruntime)
      ensures old(curr) != NULL ==> picked != NULL && (outside <==> picked == old(curr)) && (!outside ==> !Valid())
      ensures minVruntime >= old(minVruntime) && mem.Keys == old(mem.Keys)
    {
      if curr != NULL {
        var _ := UpdateCurr(charged);
        picked := PickEevdf();
        outside := picked == curr;
        if !outside {
          assert picked in InOrder(tree) by {
            assert nrRunning > 0 && picked in Everyone(tree, curr);
          }
          LeaveCurrent(picked);
        }
        return;
      }
      outside := false;
      if nrRunning == 0 {
        return NULL, false;
      }
      picked := PickEevdf();
      assert Everyone(tree, curr) == InOrder(tree);
      SetNextTask(picked, now);
    }

    /** What a pick with no current task comes to. */
    ghost predicate Picked(m: Mem, t: Tree, picked: Ptr, now: int)
      reads this
    {
      if picked == NULL then mem == m && tree == t
      else
        && Earliest(m, InOrder(t), picked) && InOrder(tree) == Without(InOrder(t), picked)
        && mem.Keys == m.Keys && mem[picked].s == m[picked].s.(vlag := m[picked].s.deadline, execStart := now)
        && forall q :: q in m && q != picked ==> mem[q].s == m[q].s
    }

    /** Another task becomes current while there is a current one. */
    method LeaveCurrent(p: Ptr)
      requires Valid() && curr != NULL && p in InOrder(tree)
      modifies `mem, `rbNode, `rbLeftmost, `tree, `avgVruntime, `avgLoad, `curr
      ensures !Valid() && curr == p && mem.Keys == old(mem.Keys)
    {
      ghost var left := curr;
      InOrderNodes(tree);
      DequeueNode(p);
      curr := p;
      assert left in mem && mem[left].s == old(mem)[left].s;
      assert !Roster(mem, tree, curr);
    }

    /** __set_next_task, for a task of the tree. */
    method SetNextTask(p: Ptr, now: int)
      requires Valid() && curr == NULL && p in InOrder(tree)
      modifies `mem, `rbNode, `rbLeftmost, `tree, `avgVruntime, `avgLoad, `curr
      ensures Valid() && curr == p && p != NULL && InOrder(tree) == Without(old(InOrder(tree)), p)
      ensures p in old(mem) && p in mem && mem[p].s == old(mem)[p].s.(vlag := old(mem)[p].s.deadline, execStart := now)
      ensures mem.Keys == old(mem.Keys) && forall q :: q in mem && q != p ==> mem[q].s == old(mem)[q].s
    {
      Take(p);
      Revise(p, mem[p].s.(vlag := mem[p].s.deadline, execStart := now));
    }

    method Take(p: Ptr)
      requires Valid() && curr == NULL && p in InOrder(tree)
      modifies `mem, `rbNode, `rbLeftmost, `tree, `avgVruntime, `avgLoad, `curr
      ensures Valid() && curr == p && p != NULL && InOrder(tree) == Without(old(InOrder(tree)), p)
      ensures p in old(mem) && SamePayload(old(mem), mem) && p !in Nodes(tree)
    {
      ReprNodes(mem, tree, rbNode, NULL);
      InOrderNodes(tree);
      DequeueNode(p);
      RosterKeep(old(mem), mem, old(tree), tree, NULL, p);
      curr := p;
    }

    /** The body that block and finish share: dequeue_task of the current task, and none is current. The task leaves charged
        as `s1`, with its lag at that time in store. */
    method DropCurr(now: int) returns (ghost s1: Sched, ghost limit: int)
      requires Valid() && curr != NULL
      modifies `mem, `avgVruntime, `minVruntime, `nrRunning, `curr
      ensures Valid() && curr == NULL && nrRunning == old(nrRunning) - 1 && minVruntime >= old(minVruntime)
      ensures nrRunning > 0 ==> LaterOf(mem, Nodes(tree), old(minVruntime), minVruntime)
      ensures old(curr) in mem && ChargedBy(old(mem)[old(curr)].s, s1, now) && LagKept(WithSched(old(mem), old(curr), s1), old(curr), limit)
      ensures mem == WithSched(old(mem), old(curr), s1.(vlag := mem[old(curr)].s.vlag, onRq := false))
    {
      var _ := UpdateCurr(now);
      ghost var v1, m1 := minVruntime, mem;
      s1 := mem[curr].s;
      assert m1 == WithSched(old(mem), curr, s1);
      limit := Depart();
      if nrRunning > 0 {
        LeastRemains(m1, Nodes(tree), old(curr), mem[old(curr)].s, old(minVruntime), v1, minVruntime);
      }
    }

    method Depart() returns (ghost limit: int)
      requires Valid() && curr != NULL
      modifies `mem, `avgVruntime, `minVruntime, `nrRunning, `curr
      ensures Valid() && curr == NULL && nrRunning == old(nrRunning) - 1 && minVruntime >= old(minVruntime)
      ensures nrRunning > 0 ==> LaterOf(mem, Nodes(tree), old(minVruntime), minVruntime)
      ensures old(curr) in mem && LagKept(old(mem), old(curr), limit)
      ensures mem == WithSched(old(mem), old(curr), old(mem)[old(curr)].s.(vlag := mem[old(curr)].s.vlag, onRq := false))
    {
      limit := UpdateTaskLag();
      Leave();
      if nrRunning > 0 {
        SomeNode(tree);
      }
    }

    /** The lag of task `p` that is in store is the one it had in `m` among the tasks that counted. */
    ghost predicate LagKept(m: Mem, p: Ptr, limit: int)
      reads this
    {
      && p in m && p in mem && limit == FairDelta(Max(2 * m[p].s.slice, tickNsec), m[p].s.weight)
      && LagStored(m, Everyone(tree, p), m[p].s.vruntime, mem[p].s.vlag, limit)
    }

    method Leave()
      requires Valid() && curr != NULL
      modifies `mem, `avgVruntime, `minVruntime, `nrRunning, `curr
      ensures Valid() && curr == NULL && nrRunning == old(nrRunning) - 1 && minVruntime >= old(minVruntime)
      ensures Nodes(tree) != {} ==> LaterOf(mem, Nodes(tree), old(minVruntime), minVruntime)
      ensures mem == WithSched(old(mem), old(curr), old(mem)[old(curr)].s.(onRq := false))
    {
      var s := mem[curr].s.(onRq := false);
      RosterDrop(mem, mem[curr := mem[curr].(s := s)], tree, curr, s);
      SetSched(curr, s);
      nrRunning := nrRunning - 1;
      UpdateMinVruntime();
      assert Counted() == Nodes(tree);
      curr := NULL;
    }

    /** update_task_lag of the current task. */
    method UpdateTaskLag() returns (ghost limit: int)
      requires Valid() && curr != NULL
      modifies `mem
      ensures Valid() && mem == WithSched(old(mem), curr, old(mem)[curr].s.(vlag := mem[curr].s.vlag))
      ensures LagKept(old(mem), curr, limit)
    {
      BusyHasLoad();
      ClockSums(mem, rbNode, rbLeftmost, tree, avgVruntime, avgLoad, minVruntime, curr);
      var avruntime := AvgVruntime();
      var lag;
      lag, limit := TaskLag(mem[curr].s, avruntime, tickNsec, mem, Everyone(tree, curr), Now());
      Revise(curr, mem[curr].s.(vlag := lag));
    }

    /** eevdf_sched_yield: a further request is charged before the task, charged as `s1`, goes back to the tree. */
    method Yield(now: int) returns (ghost s1: Sched)
      requires Valid() && curr != NULL
      modifies `mem, `rbNode, `rbLeftmost, `tree, `avgVruntime, `avgLoad, `minVruntime, `curr
      ensures Valid() && curr == NULL && minVruntime >= old(minVruntime) && Nodes(tree) == old(Nodes(tree)) + {old(curr)}
      ensures mem.Keys == old(mem.Keys) && forall q :: q in mem && q != old(curr) ==> mem[q].s == old(mem)[q].s
      ensures ChargedBy(old(mem)[old(curr)].s, s1, now) && mem[old(curr)].s == s1.(deadline := mem[old(curr)].s.deadline)
      ensures mem[old(curr)].s.deadline == s1.deadline + FairDelta(s1.slice, s1.weight)
    {
      var _ := UpdateCurr(now);
      s1 := mem[curr].s;
      ExtendDeadline();
      Requeue();
    }

    method ExtendDeadline()
      requires Valid() && curr != NULL
      modifies `mem
      ensures Valid() && mem == WithSched(old(mem), curr, old(mem)[curr].s.(deadline := mem[curr].s.deadline))
      ensures mem[curr].s.deadline == old(mem)[curr].s.deadline + FairDelta(mem[curr].s.slice, mem[curr].s.weight)
    {
      var s := mem[curr].s;
      var fair := CalcDeltaFair(s.slice, s.weight);
      Revise(curr, s.(deadline := s.deadline + fair));
    }

    method Requeue()
      requires Valid() && curr != NULL
      modifies `mem, `rbNode, `rbLeftmost, `tree, `avgVruntime, `avgLoad, `curr
      ensures Valid() && curr == NULL && Nodes(tree) == old(Nodes(tree)) + {old(curr)} && SamePayload(old(mem), mem)
    {
      EnqueueNode(curr);
      RosterKeep(old(mem), mem, old(tree), tree, curr, NULL);
      curr := NULL;
    }

    /** eevdf_sched_preempt. */
    method Preempt(now: int) returns (resched: bool)
      requires Valid()
      modifies `mem, `avgVruntime, `minVruntime
      ensures Valid() && minVruntime >= old(minVruntime) && mem.Keys == old(mem.Keys)
      ensures curr != NULL ==> ChargedBy(old(mem)[curr].s, mem[curr].s, now)
      ensures forall q :: q in mem && q != curr ==> mem[q] == old(mem)[q]
      ensures resched <==> Used(old(mem), now)
    {
      resched := UpdateCurr(now);
    }

    /** eevdf_sched_wakeup. */
    method Wakeup(p: Ptr, now: int)
      requires Valid() && p in mem
      modifies `mem, `rbNode, `rbLeftmost, `tree, `avgVruntime, `avgLoad, `minVruntime, `nrRunning
      ensures Valid() && minVruntime >= old(minVruntime) && mem.Keys == old(mem.Keys) && mem[p].s.onRq
      ensures old(mem)[p].s.onRq ==> mem == old(mem) && tree == old(tree) && nrRunning == old(nrRunning)
      ensures !old(mem)[p].s.onRq ==> Joins(old(mem), old(tree), old(nrRunning), p, now)
    {
      Put(p, now);
    }

    /** __fork_task, which runs before the lock is taken: the current task is charged and the new one placed with half a
        slice. */
    method Fork(p: Ptr, now: int)
      requires Valid() && p in mem && !mem[p].s.onRq
      modifies `mem, `avgVruntime, `minVruntime
      ensures Valid() && minVruntime >= old(minVruntime) && mem.Keys == old(mem.Keys)
      ensures forall q :: q in mem && q != p && q != curr ==> mem[q] == old(mem)[q]
      ensures curr != NULL ==> ChargedBy(old(mem)[curr].s, mem[curr].s, now)
      ensures PlacedBy(old(mem)[p].s, mem[p].s, mem, Everyone(tree, curr), p, minVruntime, true)
    {
      if curr != NULL {
        var _ := UpdateCurr(now);
      }
      PlaceTask(p, true);
    }

    /** eevdf_sched_spawn with nothing in between: the second placement decides, with a full slice; the current task is
        charged twice. */
    method Spawn(p: Ptr, forked: int, now: int) returns (ghost s1: Sched)
      requires Valid() && p in mem && !mem[p].s.onRq
      modifies `mem, `rbNode, `rbLeftmost, `tree, `avgVruntime, `avgLoad, `minVruntime, `nrRunning
      ensures Valid() && minVruntime >= old(minVruntime) && mem.Keys == old(mem.Keys)
      ensures Nodes(tree) == old(Nodes(tree)) + {p} && nrRunning == old(nrRunning) + 1
      ensures Arrived(old(mem)[p].s, p) && forall q :: q in mem && q != p && q != curr ==> mem[q].s == old(mem)[q].s
      ensures curr != NULL ==> ChargedBy(old(mem)[curr].s, s1, forked) && ChargedBy(s1, mem[curr].s, now)
    {
      Fork(p, forked);
      s1 := if curr != NULL then mem[curr].s else mem[p].s;
      Put(p, now);
    }

    /** __put_task. */
    method Put(p: Ptr, now: int)
      requires Valid() && p in mem
      modifies `mem, `rbNode, `rbLeftmost, `tree, `avgVruntime, `avgLoad, `minVruntime, `nrRunning
      ensures Valid() && minVruntime >= old(minVruntime) && mem.Keys == old(mem.Keys) && mem[p].s.onRq
      ensures old(mem)[p].s.onRq ==> mem == old(mem) && tree == old(tree) && nrRunning == old(nrRunning)
      ensures !old(mem)[p].s.onRq ==> Joins(old(mem), old(tree), old(nrRunning), p, now)
    {
      if !mem[p].s.onRq {
        EnqueueTask(p, now);
      }
    }

    /** Task `p` has joined the queue, and the current task has been charged. */
    ghost predicate Joins(m: Mem, t: Tree, nr: nat, p: Ptr, now: int)
      reads this
    {
      && p in m && Nodes(tree) == Nodes(t) + {p} && nrRunning == nr + 1 && Arrived(m[p].s, p)
      && (curr != NULL ==> curr in m && curr in mem && ChargedBy(m[curr].s, mem[curr].s, now))
      && forall q :: q in mem && q in m && q != p && q != curr ==> mem[q].s == m[q].s
    }

    /** One call into the policy; a call its callers never make does nothing. */
    method Step(op: Op)
      requires Valid()
      modifies this
      ensures Valid() && minVruntime >= old(minVruntime) && old(mem.Keys) <= mem.Keys
      ensures old(curr) != NULL && !op.Yield? && !op.Drop? ==> RunsOn(old(mem), old(curr))
    {
      ghost var c := curr;
      match op {
        case Init(p) => if p != NULL && p !in mem { InitTask(p); }
        case Fork(p, now) => if p in mem && !mem[p].s.onRq { Fork(p, now); }
        case Put(p, now) => if p in mem { Put(p, now); }
        case Wakeup(p, now) => if p in mem { Wakeup(p, now); }
        case Pick(now) => if curr == NULL { var _, _ := PickNext(now, now); }
        case Yield(now) => if curr != NULL { ghost var _ := Yield(now); }
        case Drop(now) => if curr != NULL { ghost var _, _ := DropCurr(now); }
        case Tick(now) => var _ := Preempt(now);
      }
    }

    /** Task `p` is current still, and its account is as it was: real time and virtual time went on together. */
    ghost predicate RunsOn(m: Mem, p: Ptr)
      reads this
    {
      curr == p && p in m && p in mem && SameAccount(m[p].s, mem[p].s)
    }

    /** Every run of the policy keeps the invariant, and the origin of virtual time never moves back. A task that is neither
        dropped nor yields stays current, and over the whole run is charged for every bit of time once. */
    method Run(script: seq<Op>)
      requires Valid()
      modifies this
      ensures Valid() && minVruntime >= old(minVruntime) && old(mem.Keys) <= mem.Keys
      ensures old(curr) != NULL && (forall i :: 0 <= i < |script| ==> !script[i].Yield? && !script[i].Drop?) ==> RunsOn(old(mem), old(curr))
    {
      for i := 0 to |script|
        invariant Valid() && minVruntime >= old(minVruntime) && old(mem.Keys) <= mem.Keys
        invariant old(curr) != NULL && (forall j :: 0 <= j < i ==> !script[j].Yield? && !script[j].Drop?) ==> RunsOn(old(mem), old(curr))
      {
        Step(script[i]);
      }
    }
  }
}
