/**
 The weighted averages of EEVDF: sums over a sequence of tasks, what eligibility means in terms of
 them, and the two divisions with their rounding.
 */
module EevdfSums {
  import opened RbShape
  import opened RbAdd
  import opened RbTree

  /** scale_load_down. */
  function ScaleLoadDown(w: nat): nat {
    if w == 0 then 0 else if w / 1024 > 2 then w / 1024 else 2
  }

  /** The scaled weight: a part in 1024 rounded down, but at least 2, and 0 only for 0. */
  lemma ScaledDown(w: nat)
    ensures ScaleLoadDown(w) == 0 <==> w == 0
    ensures w > 0 ==> ScaleLoadDown(w) >= 2
    ensures w >= 2048 ==> ScaleLoadDown(w) * 1024 <= w < (ScaleLoadDown(w) + 1) * 1024
    ensures 0 < w < 3072 ==> ScaleLoadDown(w) == 2
  {
  }

  function Weight(m: Mem, p: Ptr): nat
    requires p in m
  {
    ScaleLoadDown(m[p].s.weight)
  }

  /** The sum of the weights. */
  ghost function Load(m: Mem, s: seq<Ptr>): nat
    requires AllIn(m, s)
  {
    if s == [] then 0 else Weight(m, s[0]) + Load(m, s[1..])
  }

  /** The sum of the weighted vruntimes relative to `v0`. */
  ghost function WSum(m: Mem, s: seq<Ptr>, v0: int): int
    requires AllIn(m, s)
  {
    if s == [] then 0 else (m[s[0]].s.vruntime - v0) * Weight(m, s[0]) + WSum(m, s[1..], v0)
  }

  /** The weighted average of `avg / load`, relative to `v0`, is not before `v`. */
  predicate EligibleAt(avg: int, load: int, v0: int, v: int) {
    avg >= (v - v0) * load
  }

  lemma {:induction false} SumsSplit(m: Mem, a: seq<Ptr>, b: seq<Ptr>, v0: int)
    requires AllIn(m, a) && AllIn(m, b)
    ensures AllIn(m, a + b) && Load(m, a + b) == Load(m, a) + Load(m, b) && WSum(m, a + b, v0) == WSum(m, a, v0) + WSum(m, b, v0)
  {
    if a == [] {
      assert a + b == b;
    } else {
      SumsSplit(m, a[1..], b, v0);
      assert (a + b)[1..] == a[1..] + b && (a + b)[0] == a[0];
    }
  }

  lemma {:induction false} SumsOne(m: Mem, p: Ptr, v0: int)
    requires p in m
    ensures Load(m, [p]) == Weight(m, p) && WSum(m, [p], v0) == (m[p].s.vruntime - v0) * Weight(m, p)
  {
    assert [p][1..] == [];
  }

  lemma {:induction false} SortedInsertSums(m: Mem, s: seq<Ptr>, p: Ptr, v0: int)
    requires AllIn(m, s) && p in m
    ensures AllIn(m, SortedInsert(m, s, p)) && |SortedInsert(m, s, p)| == |s| + 1
    ensures Load(m, SortedInsert(m, s, p)) == Load(m, s) + Weight(m, p)
    ensures WSum(m, SortedInsert(m, s, p), v0) == WSum(m, s, v0) + (m[p].s.vruntime - v0) * Weight(m, p)
    ensures forall q :: q in SortedInsert(m, s, p) <==> q in s || q == p
  {
    var r := SortedInsert(m, s, p);
    if s == [] {
      SumsOne(m, p, v0);
    } else if m[p].s.deadline < m[s[0]].s.deadline {
      assert r[1..] == s;
    } else {
      SortedInsertSums(m, s[1..], p, v0);
      assert r[1..] == SortedInsert(m, s[1..], p);
      assert forall q :: q in s <==> q == s[0] || q in s[1..];
    }
  }

  lemma {:induction false} WithoutSums(m: Mem, s: seq<Ptr>, p: Ptr, v0: int)
    requires AllIn(m, s) && p in s
    ensures p in m && AllIn(m, Without(s, p)) && |Without(s, p)| == |s| - 1
    ensures Load(m, Without(s, p)) == Load(m, s) - Weight(m, p)
    ensures WSum(m, Without(s, p), v0) == WSum(m, s, v0) - (m[p].s.vruntime - v0) * Weight(m, p)
  {
    if s[0] != p {
      WithoutSums(m, s[1..], p, v0);
      assert Without(s, p)[1..] == Without(s[1..], p);
    }
  }

  /** Only the schedule data of the tasks counts. */
  lemma {:induction false} SumsKeep(m: Mem, m': Mem, s: seq<Ptr>, v0: int)
    requires AllIn(m, s) && AllIn(m', s) && forall i :: 0 <= i < |s| ==> m'[s[i]].s == m[s[i]].s
    ensures Load(m', s) == Load(m, s) && WSum(m', s, v0) == WSum(m, s, v0)
  {
    if s != [] {
      SumsKeep(m, m', s[1..], v0);
    }
  }

  /** avg_vruntime_update: moving the origin. */
  lemma {:induction false} Rebase(m: Mem, s: seq<Ptr>, v0: int, v1: int)
    requires AllIn(m, s)
    ensures WSum(m, s, v1) == WSum(m, s, v0) - Load(m, s) * (v1 - v0)
  {
    if s != [] {
      Rebase(m, s[1..], v0, v1);
      RebaseOne(m[s[0]].s.vruntime, v0, v1, Weight(m, s[0]), Load(m, s[1..]));
    }
  }

  lemma RebaseOne(v: int, v0: int, v1: int, w: int, rest: int)
    ensures (v - v1) * w == (v - v0) * w - w * (v1 - v0)
    ensures (w + rest) * (v1 - v0) == w * (v1 - v0) + rest * (v1 - v0)
  {
  }

  /** Without the lock the move of the origin would not be safe. An update that read the sums before another CPU added task
      `p`, and stores its result after, leaves the weighted sum exact only if `p` sits at the new origin. */
  lemma {:induction false} UnlockedUpdate(m: Mem, s: seq<Ptr>, p: Ptr, v0: int, v1: int)
    requires AllIn(m, s) && p in m && m[p].s.weight > 0
    ensures AllIn(m, s + [p])
    ensures WSum(m, s, v0) - Load(m, s) * (v1 - v0) == WSum(m, s + [p], v1) <==> m[p].s.vruntime == v1
  {
    Rebase(m, s, v0, v1);
    SumsSplit(m, s, [p], v1);
    SumsOne(m, p, v1);
    NonZero(m[p].s.vruntime - v1, Weight(m, p));
  }

  lemma NonZero(x: int, w: int)
    requires w > 0
    ensures x * w == 0 <==> x == 0
  {
  }

  /** The task with the least vruntime is eligible: a weighted average is never below the least value. */
  lemma {:induction false} LeastEligible(m: Mem, s: seq<Ptr>, v0: int, low: int)
    requires AllIn(m, s) && forall i :: 0 <= i < |s| ==> low <= m[s[i]].s.vruntime
    ensures EligibleAt(WSum(m, s, v0), Load(m, s), v0, low)
  {
    if s != [] {
      LeastEligible(m, s[1..], v0, low);
      var w, v := Weight(m, s[0]), m[s[0]].s.vruntime;
      assert (low - v0) * w <= (v - v0) * w;
      assert (low - v0) * Load(m, s) == (low - v0) * w + (low - v0) * Load(m, s[1..]);
    }
  }

  /** The weighted average of the tasks is not before `v`: the weighted distances to `v` add up to no less than 0. */
  ghost predicate Owed(m: Mem, s: seq<Ptr>, v: int)
    requires AllIn(m, s)
  {
    WSum(m, s, v) >= 0
  }

  /** The test by products decides exactly that, wherever the origin is. */
  lemma {:induction false} EligibleExact(m: Mem, s: seq<Ptr>, v0: int, v: int)
    requires AllIn(m, s)
    ensures EligibleAt(WSum(m, s, v0), Load(m, s), v0, v) <==> Owed(m, s, v)
  {
    Rebase(m, s, v0, v);
  }

  lemma {:induction false} LoadPositive(m: Mem, s: seq<Ptr>)
    requires AllIn(m, s) && s != [] && m[s[0]].s.weight > 0
    ensures Load(m, s) >= 2
  {
  }

  lemma {:induction false} LeastOf(m: Mem, s: seq<Ptr>) returns (p: Ptr)
    requires AllIn(m, s) && s != []
    ensures p in s && forall i :: 0 <= i < |s| ==> m[p].s.vruntime <= m[s[i]].s.vruntime
  {
    p := s[0];
    if |s| > 1 {
      var q := LeastOf(m, s[1..]);
      if m[q].s.vruntime < m[p].s.vruntime {
        p := q;
      }
    }
  }

  lemma EligibleMonotone(avg: int, load: int, v0: int, v: int, v': int)
    requires load >= 0 && v' <= v && EligibleAt(avg, load, v0, v)
    ensures EligibleAt(avg, load, v0, v')
  {
    assert (v' - v0) * load <= (v - v0) * load;
  }

  // ----- divisions -----

  /** C division of a signed dividend by a positive divisor: towards zero. */
  function DivS64(x: int, d: int): int
    requires d > 0
  {
    if x >= 0 then x / d else -((-x) / d)
  }

  /** The left-biased quotient in avg_vruntime. */
  function AvgDiv(avg: int, load: int): int
    requires load >= 0
  {
    if load == 0 then avg
    else if avg < 0 then DivS64(avg - (load - 1), load) else DivS64(avg, load)
  }

  lemma Bracket(x: int, d: int)
    requires d > 0
    ensures (x / d) * d <= x < (x / d) * d + d
  {
  }

  lemma CeilNeg(y: int, d: int)
    requires d > 0 && y > 0
    ensures var q := (y + (d - 1)) / d; (q - 1) * d < y <= q * d
  {
    var q := (y + (d - 1)) / d;
    Bracket(y + (d - 1), d);
    assert (q - 1) * d == q * d - d;
  }

  /** It is the floor: the greatest integer not above the average. */
  lemma AvgDivFloor(avg: int, load: int)
    requires load > 0
    ensures AvgDiv(avg, load) * load <= avg < AvgDiv(avg, load) * load + load
  {
    if avg >= 0 {
      Bracket(avg, load);
    } else {
      CeilNeg(-avg, load);
      var q := (-avg + (load - 1)) / load;
      assert AvgDiv(avg, load) == -q;
      assert (-q) * load == -(q * load) && (q - 1) * load == q * load - load;
    }
  }

  lemma TruncBracket(x: int, d: int)
    requires d > 0
    ensures x - d < DivS64(x, d) * d < x + d
  {
    if x >= 0 {
      Bracket(x, d);
    } else {
      Bracket(-x, d);
      var q := (-x) / d;
      assert (-q) * d == -(q * d);
    }
  }

  /** Placement: a task of weight `w` put at the average minus its inflated lag keeps its lag `l`, up to the rounding
      of the two divisions. `num` is the exact lag after placement times the new total weight. */
  lemma PlacedLag(avg: int, load: int, w: int, l: int)
    requires load > 0 && w >= 0
    ensures var key := AvgDiv(avg, load) - DivS64(l * (load + w), load);
            var num := (avg + key * w) - key * (load + w);
            (l - 1) * (load + w) < num < (l + 2) * (load + w)
  {
    var a, b := AvgDiv(avg, load), DivS64(l * (load + w), load);
    var key := a - b;
    AvgDivFloor(avg, load);
    TruncBracket(l * (load + w), load);
    assert (avg + key * w) - key * (load + w) == avg - key * load;
    assert key * load == a * load - b * load;
    assert (l - 1) * (load + w) == l * (load + w) - (load + w);
    assert (l + 2) * (load + w) == l * (load + w) + 2 * (load + w);
  }
}
