/**
 Timers of a kthread: start, cancel, merge and the softirq loop, over the heap of TimerHeap. The
 entries are shared between kthreads; the clock is a parameter.
 */
module Timer {
  import opened Words
  import opened TimerHeap

  class Entries {
    var rec: Records

    constructor ()
      ensures rec == map[]
    {
      rec := map[];
    }
  }

  lemma {:induction false} MovedArmed(h: seq<Slot>, es: Records, h': seq<Slot>, es': Records, k: nat)
    requires AllArmed(h, es) && Rearranged(h, es, h', es', k)
    ensures AllArmed(h', es')
  {
    forall i | 0 <= i < |h'| ensures h'[i].e in es' && es'[h'[i].e].armed {
      assert Present(h', h'[i].e);
      var j :| 0 <= j < |h| && h[j].e == h'[i].e;
    }
  }

  lemma {:induction false} NotPresent(h: seq<Slot>, es: Records, e: Entry)
    requires AllArmed(h, es) && e in es && !es[e].armed
    ensures !Present(h, e)
  {
  }

  /** The whole effect of taking slot `x` out of the heap; its entry is not touched. */
  ghost predicate TakenOut(h: seq<Slot>, es: Records, x: Slot, h': seq<Slot>, es': Records, k: nat) {
    && multiset(h') == multiset(h) - multiset{x} && Linked(h', es', k) && OnlyMoved(h, es, es')
    && x.e in es && es'[x.e] == es[x.e]
    && (forall e :: Present(h', e) <==> Present(h, e) && e != x.e)
  }

  lemma {:induction false} DropThenRearrange(h: seq<Slot>, es: Records, i: nat, h': seq<Slot>, es': Records, k: nat)
    requires Linked(h, es, k) && i < |h|
    requires Rearranged(Drop(h, i), if i == |h| - 1 then es else Renumber(es, h[|h| - 1].e, i), h', es', k)
    ensures TakenOut(h, es, h[i], h', es', k)
  {
    var es1 := if i == |h| - 1 then es else Renumber(es, h[|h| - 1].e, i);
    DropMultiset(h, i);
    DropSlot(h, es, k, i);
    assert OnlyMoved(h, es, es1) by {
      assert Present(h, h[|h| - 1].e);
    }
    forall e | e in es && !Present(h, e) ensures es'[e] == es[e] {
      assert !Present(Drop(h, i), e);
    }
  }

  lemma {:induction false} TakenArmed(h: seq<Slot>, es: Records, x: Slot, h': seq<Slot>, es': Records, k: nat)
    requires AllArmed(h, es) && TakenOut(h, es, x, h', es', k)
    ensures AllArmed(h', es')
  {
    forall i | 0 <= i < |h'| ensures h'[i].e in es' && es'[h'[i].e].armed {
      assert Present(h', h'[i].e);
    }
  }

  function Disarm(es: Records, e: Entry): Records
    requires e in es
  {
    es[e := es[e].(armed := false)]
  }

  lemma {:induction false} Cancelled(h: seq<Slot>, es: Records, e: Entry, h': seq<Slot>, es': Records, k: nat)
    requires AllArmed(h, es) && Linked(h, es, k) && e in es && es[e].idx < |h|
    requires TakenOut(h, Disarm(es, e), h[es[e].idx], h', es', k)
    ensures AllArmed(h', es') && es'.Keys == es.Keys && !es'[e].armed && !Present(h', e)
    ensures forall o :: o in es && o != e && !Present(h, o) ==> es'[o] == es[o]
  {
    OwnSlotIff(h, es, k, e);
    forall i | 0 <= i < |h'| ensures h'[i].e in es' && es'[h'[i].e].armed {
      var o := h'[i].e;
      assert Present(h', o) && Present(h, o) && o != e;
      assert o in es && es[o].armed;
    }
  }

  /** The end of timer_cancel: the last slot takes the place of slot `idx` and is sifted both ways. */
  method Unlink(timers: array<Slot>, n: nat, es0: Records, e: Entry, k: nat) returns (es: Records)
    requires n <= timers.Length < INT_MAX && e in es0 && es0[e].idx < n
    requires Linked(timers[..n], es0, k) && Ordered(timers[..n])
    modifies timers
    ensures TakenOut(old(timers[..n]), es0, old(timers[..n])[es0[e].idx], timers[..n - 1], es, k) && Ordered(timers[..n - 1])
  {
    es := es0;
    ghost var h, i := timers[..n], es0[e].idx;
    var last := n - 1;
    DropSlot(h, es0, k, i);
    OwnSlotIff(h, es0, k, e);
    assert i != last ==> h[last].e != e;
    if es[e].idx == last {
      assert timers[..n - 1] == Drop(h, i);
      RearrangedRefl(Drop(h, i), es, k);
    } else {
      timers[es[e].idx] := timers[last];
      assert timers[..last] == Drop(h, i);
      es := Renumber(es, timers[es[e].idx].e, es[e].idx);
      es := SiftBothWays(timers, last, es, e, i, k);
    }
    DropThenRearrange(h, es0, i, timers[..n - 1], es, k);
  }

  /** The second loop of timer_merge: heap order from the bottom up. */
  method Heapify(timers: array<Slot>, n: nat, es0: Records, k: nat) returns (es: Records)
    requires 0 < n <= timers.Length < INT_MAX && Linked(timers[..n], es0, k)
    modifies timers
    ensures Rearranged(old(timers[..n]), es0, timers[..n], es, k) && Ordered(timers[..n])
  {
    es := es0;
    ghost var h := timers[..n];
    RearrangedRefl(h, es, k);
    var i: int := n / D;
    while i >= 0
      invariant -1 <= i <= n / D && Rearranged(h, es0, timers[..n], es, k) && OrderedFrom(timers[..n], i + 1)
    {
      ghost var h1, es1 := timers[..n], es;
      es := SiftDown(timers, n, es, i, k, i);
      RearrangedTrans(h, es0, h1, es1, timers[..n], es, k);
      i := i - 1;
    }
  }

  lemma {:induction false} DropTop(h: seq<Slot>, es: Records, k: nat)
    requires Linked(h, es, k) && Ordered(h) && h != []
    ensures if |h| == 1 then Ordered(Drop(h, 0)) && Linked(Drop(h, 0), es, k)
            else Sinking(Drop(h, 0), 0, 0) && Linked(Drop(h, 0), Renumber(es, h[|h| - 1].e, 0), k)
  {
    DropSlot(h, es, k, 0);
  }

  /** The new slot goes to the end and rises. */
  method InsertSlot(timers: array<Slot>, n: nat, es0: Records, x: Slot, k: nat) returns (es: Records)
    requires n < timers.Length && Linked(timers[..n], es0, k) && Ordered(timers[..n]) && !Present(timers[..n], x.e)
    modifies timers
    ensures Rearranged(old(timers[..n]) + [x], es0[x.e := Record(n, k, false)], timers[..n + 1], es, k) && Ordered(timers[..n + 1])
  {
    ghost var h := timers[..n];
    AppendSlot(h, es0, k, x, false);
    timers[n] := x;
    assert timers[..n + 1] == h + [x];
    es := es0[x.e := Record(n, k, false)];
    es := SiftUp(timers, n + 1, es, n, k);
    AppendedOrdered(timers[..n + 1]);
  }

  /** The first slot leaves: the last one takes its place and sinks. */
  method PopFirst(timers: array<Slot>, n: nat, es0: Records, k: nat) returns (es: Records)
    requires 0 < n <= timers.Length < INT_MAX && Linked(timers[..n], es0, k) && Ordered(timers[..n])
    modifies timers
    ensures TakenOut(old(timers[..n]), es0, old(timers[..n])[0], timers[..n - 1], es, k) && Ordered(timers[..n - 1])
  {
    es := es0;
    ghost var h := timers[..n];
    var i := n - 1;
    DropTop(h, es0, k);
    if i > 0 {
      timers[0] := timers[i];
      assert timers[..i] == Drop(h, 0);
      es := Renumber(es, timers[0].e, 0);
      es := SiftDown(timers, i, es, 0, k, 0);
    } else {
      assert timers[..i] == Drop(h, 0);
      RearrangedRefl(Drop(h, 0), es, k);
    }
    DropThenRearrange(h, es0, 0, timers[..n - 1], es, k);
  }

  method SiftBothWays(timers: array<Slot>, n: nat, es0: Records, e: Entry, ghost i: nat, k: nat) returns (es: Records)
    requires i < n <= timers.Length < INT_MAX && Loose(timers[..n], i, 0) && Linked(timers[..n], es0, k)
    requires e in es0 && es0[e].idx == i && !Present(timers[..n], e)
    modifies timers
    ensures Rearranged(old(timers[..n]), es0, timers[..n], es, k) && Ordered(timers[..n])
  {
    es := SiftUp(timers, n, es0, es0[e].idx, k);
    ghost var h1, es1 := timers[..n], es;
    assert Sinking(h1, i, 0);
    es := SiftDown(timers, n, es, es[e].idx, k, 0);
    RearrangedTrans(old(timers[..n]), es0, h1, es1, timers[..n], es, k);
  }

  lemma {:induction false} StartedArmed(h: seq<Slot>, es: Records, x: Slot, h': seq<Slot>, es': Records, k: nat)
    requires AllArmed(h, es) && Linked(h, es, k) && x.e in es && !Present(h, x.e)
    requires Rearranged(h + [x], es[x.e := Record(|h|, k, false)], h', es', k)
    ensures x.e in es' && Linked(h', es'[x.e := es'[x.e].(armed := true)], k) && AllArmed(h', es'[x.e := es'[x.e].(armed := true)])
    ensures es'.Keys == es.Keys && es'[x.e].k == k
    ensures forall o :: o in es && o != x.e && !Present(h, o) ==> es'[o] == es[o]
  {
    AppendSlot(h, es, k, x, false);
    var es1 := es[x.e := Record(|h|, k, false)];
    forall i | 0 <= i < |h'| && h'[i].e != x.e ensures h'[i].e in es' && es'[h'[i].e].armed {
      var o := h'[i].e;
      assert Present(h', o) && Present(h, o);
      assert o in es && es[o].armed;
    }
  }

  ghost predicate Due(fired: seq<Slot>, clock: nat -> nat) {
    forall i :: 0 <= i < |fired| ==> fired[i].deadline <= clock(i)
  }

  ghost predicate InSequence(fired: seq<Slot>) {
    forall i, j :: 0 <= i < j < |fired| ==> fired[i].deadline <= fired[j].deadline
  }

  ghost predicate AllBefore(fired: seq<Slot>, rest: multiset<Slot>) {
    forall i, x :: 0 <= i < |fired| && x in rest ==> fired[i].deadline <= x.deadline
  }

  lemma {:induction false} MoveAcross(a: multiset<Slot>, b: multiset<Slot>, x: Slot, fired: seq<Slot>)
    requires b == a - multiset{x} && x in a
    ensures b + multiset(fired + [x]) == a + multiset(fired)
  {
    assert multiset(fired + [x]) == multiset(fired) + multiset{x};
  }

  lemma {:induction false} StillBefore(h: multiset<Slot>, x: Slot, rest: multiset<Slot>, fired: seq<Slot>)
    requires rest == h - multiset{x} && AllBefore(fired, h) && Least(x, h)
    ensures AllBefore(fired + [x], rest)
  {
    forall i, y | 0 <= i < |fired + [x]| && y in rest ensures (fired + [x])[i].deadline <= y.deadline {
      assert y in h;
      if i < |fired| {
        assert (fired + [x])[i] == fired[i];
      }
    }
  }

  lemma {:induction false} FireOne(h: multiset<Slot>, x: Slot, rest: multiset<Slot>, fired: seq<Slot>, clock: nat -> nat)
    requires rest == h - multiset{x} && Least(x, h)
    requires Due(fired, clock) && InSequence(fired) && AllBefore(fired, h) && x.deadline <= clock(|fired|)
    ensures rest + multiset(fired + [x]) == h + multiset(fired)
    ensures Due(fired + [x], clock) && InSequence(fired + [x]) && AllBefore(fired + [x], rest)
  {
    MoveAcross(h, rest, x, fired);
    StillBefore(h, x, rest, fired);
    var f := fired + [x];
    assert forall i :: 0 <= i < |f| ==> f[i] == if i < |fired| then fired[i] else x;
  }

  /** The slots from `i` on still belong to the other kthread. */
  ghost predicate ToMove(rh: seq<Slot>, es: Records, i: nat, k: nat) {
    forall j :: i <= j < |rh| ==> rh[j].e in es && es[rh[j].e].idx == j && es[rh[j].e].k == k && es[rh[j].e].armed
  }

  lemma {:induction false} MoveOne(h: seq<Slot>, rh: seq<Slot>, es: Records, i: nat, k: nat, rk: nat)
    requires Linked(h, es, k) && AllArmed(h, es) && ToMove(rh, es, i, rk) && i < |rh| && k != rk
    ensures rh[i].e in es
    ensures var es' := es[rh[i].e := es[rh[i].e].(idx := |h|, k := k)];
            Linked(h + [rh[i]], es', k) && AllArmed(h + [rh[i]], es') && ToMove(rh, es', i + 1, rk)
  {
    AppendSlot(h, es, k, rh[i], true);
  }

  lemma {:induction false} FiredLeaves(h: seq<Slot>, x: Slot, h1: seq<Slot>, y: Slot)
    requires multiset(h1) == multiset(h) - multiset{x} && y in h1 && (forall e :: Present(h1, e) ==> e != x.e)
    ensures y in h && y.e != x.e
  {
    assert y in multiset(h1) && y in multiset(h);
    assert Present(h1, y.e);
  }

  // ----- entries that are armed and not in the heap -----

  /** An entry that is armed but not in the heap, because it has fired or was dropped, points to slot 0. */
  ghost predicate Stray(h: seq<Slot>, es: Records, k: nat) {
    forall e :: e in es && es[e].k == k && es[e].armed && !Present(h, e) ==> es[e].idx == 0
  }

  lemma {:induction false} StrayTaken(h: seq<Slot>, es: Records, x: Slot, h': seq<Slot>, es': Records, k: nat)
    requires Stray(h, es, k) && TakenOut(h, es, x, h', es', k) && (es[x.e].idx == 0 || !es[x.e].armed)
    ensures Stray(h', es', k)
  {
    forall e | e in es' && es'[e].k == k && es'[e].armed && !Present(h', e) ensures es'[e].idx == 0 {
      if Present(h, e) {
        assert e == x.e;
      }
    }
  }

  lemma {:induction false} StrayDisarmed(h: seq<Slot>, es: Records, e: Entry, k: nat)
    requires Stray(h, es, k) && Linked(h, es, k) && e in es && es[e].k == k && es[e].armed && es[e].idx < |h|
    ensures Stray(h, Disarm(es, e), k) && Linked(h, Disarm(es, e), k)
    ensures var x := h[es[e].idx]; x.e in es && (Disarm(es, e)[x.e].idx == 0 || !Disarm(es, e)[x.e].armed)
  {
    var x := h[es[e].idx];
    OwnSlotIff(h, es, k, e);
  }

  lemma {:induction false} StrayStarted(h: seq<Slot>, es: Records, x: Slot, h': seq<Slot>, es': Records, k: nat)
    requires Stray(h, es, k) && es'.Keys == es.Keys && (forall e :: Present(h, e) || e == x.e ==> Present(h', e))
    requires forall o :: o in es && o != x.e && !Present(h, o) ==> es'[o] == es[o]
    ensures Stray(h', es', k)
  {
    forall e | e in es' && es'[e].k == k && es'[e].armed && !Present(h', e) ensures es'[e].idx == 0 {
      assert e != x.e && !Present(h, e);
    }
  }

  lemma {:induction false} StrayRearranged(h: seq<Slot>, es: Records, h': seq<Slot>, es': Records, k: nat, k': nat)
    requires Rearranged(h, es, h', es', k') && Stray(h, es, k') && (k != k' ==> Stray([], es, k)) && Linked(h, es, k')
    ensures Stray(h', es', k') && (k != k' ==> Stray([], es', k))
  {
    forall e | e in es' && es'[e].k == k' && es'[e].armed && !Present(h', e) ensures es'[e].idx == 0 {
      assert !Present(h, e);
    }
    if k != k' {
      forall e | e in es' && es'[e].k == k && es'[e].armed ensures es'[e].idx == 0 {
        assert !Present(h, e) && !Present([], e);
      }
    }
  }

  /** One slot of the other kthread moves over. */
  lemma {:induction false} StrayMoved(h: seq<Slot>, rh: seq<Slot>, es: Records, i: nat, k: nat, rk: nat)
    requires i < |rh| && Stray(h, es, k) && Stray(rh[i..], es, rk) && k != rk && rh[i].e in es
    ensures var es' := es[rh[i].e := es[rh[i].e].(idx := |h|, k := k)];
            Stray(h + [rh[i]], es', k) && Stray(rh[i + 1..], es', rk)
  {
    PresentSnoc(h, rh[i]);
    PresentTail(rh, i);
  }

  lemma {:induction false} PresentSnoc(h: seq<Slot>, x: Slot)
    ensures forall e :: Present(h + [x], e) <==> Present(h, e) || e == x.e
  {
    assert (h + [x])[|h|] == x;
    forall e | Present(h, e) ensures Present(h + [x], e) {
      var j :| 0 <= j < |h| && h[j].e == e;
      assert (h + [x])[j].e == e;
    }
  }

  lemma {:induction false} PresentTail(h: seq<Slot>, i: nat)
    requires i < |h|
    ensures forall e :: Present(h[i..], e) <==> e == h[i].e || Present(h[i + 1..], e)
  {
    assert h[i..][0] == h[i];
    forall e | Present(h[i + 1..], e) ensures Present(h[i..], e) {
      var j :| 0 <= j < |h[i + 1..]| && h[i + 1..][j].e == e;
      assert h[i..][j + 1].e == e;
    }
    forall e | Present(h[i..], e) && e != h[i].e ensures Present(h[i + 1..], e) {
      var j :| 0 <= j < |h[i..]| && h[i..][j].e == e;
      assert h[i + 1..][j - 1].e == e;
    }
  }

  /** Records of entries that are not in the heap are as before. */
  ghost predicate KeptBut(h: seq<Slot>, es: Records, es': Records) {
    es'.Keys == es.Keys && forall e :: e in es && !Present(h, e) ==> es'[e] == es[e]
  }

  lemma {:induction false} KeptBoth(h: seq<Slot>, rh: seq<Slot>, es: Records, es1: Records, h': seq<Slot>, es': Records, k: nat)
    requires KeptBut(rh, es, es1) && Rearranged(h + rh, es1, h', es', k)
    ensures KeptBut(h + rh, es, es')
  {
    forall e | Present(rh, e) ensures Present(h + rh, e) {
      var j :| 0 <= j < |rh| && rh[j].e == e;
      assert (h + rh)[|h| + j].e == e;
    }
  }

  /** The first `i` slots of the other heap have been copied behind this one. */
  ghost predicate Moving(h0: seq<Slot>, rh: seq<Slot>, i: nat, h: seq<Slot>, es: Records, k: nat, rk: nat) {
    && i <= |rh| && h == h0 + rh[..i] && Linked(h, es, k) && AllArmed(h, es) && ToMove(rh, es, i, rk)
    && Stray(h, es, k) && Stray(rh[i..], es, rk)
  }

  lemma {:induction false} MovingStep(h0: seq<Slot>, rh: seq<Slot>, i: nat, h: seq<Slot>, es: Records, k: nat, rk: nat)
    requires Moving(h0, rh, i, h, es, k, rk) && i < |rh| && k != rk
    ensures rh[i].e in es && Moving(h0, rh, i + 1, h + [rh[i]], es[rh[i].e := es[rh[i].e].(idx := |h|, k := k)], k, rk)
  {
    MoveOne(h, rh, es, i, k, rk);
    StrayMoved(h, rh, es, i, k, rk);
    assert h0 + rh[..i + 1] == (h0 + rh[..i]) + [rh[i]];
  }

  /** What timer_cancel did: nothing, a slot removed, or an access to a slot outside the heap. */
  datatype Outcome = NotArmed | Removed | Wild(slot: nat)

  /** The slot that timer_cancel reads as the last one: the decremented count as an unsigned word. */
  function LastSlot(nr: nat): nat { Sub32(nr, 1) }

  /** The slots timer_cancel touches for an armed entry, the entry's own and the last, lie in the heap exactly when the
      heap is not empty. */
  lemma {:induction false} TouchedIff(h: seq<Slot>, es: Records, k: nat, e: Entry)
    requires Linked(h, es, k) && Stray(h, es, k) && e in es && es[e].k == k && es[e].armed && |h| < INT_MAX
    ensures es[e].idx < |h| && LastSlot(|h|) < |h| <==> |h| > 0
    ensures |h| == 0 ==> LastSlot(|h|) == TWO32 - 1
  {
    if Present(h, e) {
      var i :| 0 <= i < |h| && h[i].e == e;
    }
  }

  /** What a handler may do to timers. */
  datatype TimerOp = Arm(e: Entry, deadline: nat) | CancelIt(e: Entry)

  /** Timer `x` has the least deadline of those present. */
  ghost predicate Least(x: Slot, present: multiset<Slot>) {
    x in present && forall y :: y in present ==> x.deadline <= y.deadline
  }

  ghost predicate EachLeast(fired: seq<Slot>, heaps: seq<multiset<Slot>>)
    requires |heaps| == |fired|
  {
    forall i :: 0 <= i < |fired| ==> Least(fired[i], heaps[i])
  }

  ghost predicate AnyDue(h: seq<Slot>, now: nat) { exists i :: 0 <= i < |h| && h[i].deadline <= now }

  /** Something is due exactly when the first slot is, and the first slot is the least. */
  lemma {:induction false} DueAtTop(h: seq<Slot>, now: nat)
    requires Ordered(h)
    ensures AnyDue(h, now) <==> h != [] && h[0].deadline <= now
    ensures h != [] ==> Least(h[0], multiset(h))
  {
    forall i | 0 <= i < |h| ensures h[0].deadline <= h[i].deadline {
      FirstIsLeast(h, i);
    }
    if h != [] {
      forall y | y in multiset(h) ensures h[0].deadline <= y.deadline {
        assert y in h;
      }
    }
  }

  /** No timer is lost or made: those present, cancelled and fired are those at the start and those added. */
  ghost predicate Balanced(start: multiset<Slot>, h: multiset<Slot>, added: multiset<Slot>, removed: multiset<Slot>, fired: seq<Slot>) {
    h + removed + multiset(fired) == start + added
  }

  lemma {:induction false} FiredMore(fired: seq<Slot>, heaps: seq<multiset<Slot>>, x: Slot, h: multiset<Slot>, clock: nat -> nat)
    requires |heaps| == |fired| && Due(fired, clock) && EachLeast(fired, heaps) && x.deadline <= clock(|fired|) && Least(x, h)
    ensures Due(fired + [x], clock) && EachLeast(fired + [x], heaps + [h])
  {
  }

  lemma {:induction false} Account(start: multiset<Slot>, h: multiset<Slot>, h': multiset<Slot>, added: multiset<Slot>, removed: multiset<Slot>,
                                   a: multiset<Slot>, r: multiset<Slot>)
    requires h + removed == start + added && h' + r == h + a
    ensures h' + (removed + r) == start + (added + a)
  {
    forall e ensures (h' + (removed + r))[e] == (start + (added + a))[e] {
      assert (h + removed)[e] == (start + added)[e] && (h' + r)[e] == (h + a)[e];
    }
  }

  lemma {:induction false} AccountFired(start: multiset<Slot>, h: multiset<Slot>, h1: multiset<Slot>, h2: multiset<Slot>, added: multiset<Slot>,
                                        removed: multiset<Slot>, a: multiset<Slot>, r: multiset<Slot>, fired: seq<Slot>, x: Slot)
    requires Balanced(start, h, added, removed, fired) && x in h && h1 == h - multiset{x} && h2 + r == h1 + a
    ensures Balanced(start, h2, added + a, removed + r, fired + [x])
  {
    assert multiset(fired + [x]) == multiset(fired) + multiset{x};
    var f := multiset(fired);
    forall e ensures (h2 + (removed + r) + (f + multiset{x}))[e] == (start + (added + a))[e] {
      assert (h + removed + f)[e] == (start + added)[e] && (h2 + r)[e] == (h1 + a)[e] && h1[e] == h[e] - multiset{x}[e];
    }
  }

  class Kthread {
    const id: nat
    const timers: array<Slot>
    const es: Entries
    var nrTimers: nat

    ghost function Heap(): seq<Slot>
      reads this, timers
      requires nrTimers <= timers.Length
    {
      timers[..nrTimers]
    }

    /** Heap order at every index, back-pointers, everything in the heap is armed, and what is armed elsewhere points to
        slot 0. */
    ghost predicate Valid()
      reads this, timers, es
    {
      && nrTimers < timers.Length < INT_MAX
      && Linked(Heap(), es.rec, id) && Ordered(Heap()) && AllArmed(Heap(), es.rec) && Stray(Heap(), es.rec, id)
    }

    /** Records of other kthreads' entries, but for `e`, are as before. */
    twostate predicate OthersKept(e: Entry)
      reads this, es
    {
      && es.rec.Keys == old(es.rec).Keys
      && forall o :: o in es.rec && o != e && old(es.rec)[o].k != id ==> es.rec[o] == old(es.rec)[o]
    }

    constructor (id: nat, es: Entries, size: nat)
      requires 0 < size < INT_MAX && forall e :: e in es.rec ==> es.rec[e].k != id
      ensures Valid() && fresh(timers) && this.es == es && this.id == id && nrTimers == 0 && timers.Length == size
    {
      this.id, this.es, nrTimers := id, es, 0;
      timers := new Slot[size](_ => Slot(0, 0));
    }

    /** timer_start_locked. A timer that is armed, or a full array, is a bug of the caller. */
    method Start(e: Entry, deadline: nat)
      requires Valid() && e in es.rec && !es.rec[e].armed && nrTimers + 1 < timers.Length
      modifies this`nrTimers, timers, es
      ensures Valid() && multiset(Heap()) == multiset(old(Heap())) + multiset{Slot(deadline, e)}
      ensures OthersKept(e) && es.rec[e].armed && es.rec[e].k == id
      ensures forall o :: o in es.rec && o != e && !Present(old(Heap()), o) ==> es.rec[o] == old(es.rec)[o]
    {
      ghost var h0, r0 := Heap(), es.rec;
      var x := Slot(deadline, e);
      NotPresent(h0, r0, e);
      AppendSlot(h0, r0, id, x, false);
      var rec := InsertSlot(timers, nrTimers, es.rec, x, id);
      nrTimers := nrTimers + 1;
      es.rec := rec[e := rec[e].(armed := true)];
      StartedArmed(h0, r0, x, Heap(), rec, id);
      StrayStarted(h0, r0, x, Heap(), es.rec, id);
    }

    /** timer_cancel once the kthread of the entry is locked. The slot that the entry points to is removed; when the heap is
        empty although the entry is armed, a slot outside it is read, and the model stops there. */
    method Cancel(e: Entry) returns (out: Outcome)
      requires Valid() && e in es.rec && es.rec[e].k == id
      modifies this`nrTimers, timers, es
      ensures Valid() && OthersKept(e)
      ensures out == NotArmed <==> !old(es.rec)[e].armed
      ensures out.Wild? <==> old(es.rec)[e].armed && old(nrTimers) == 0
      ensures out.Wild? ==> out.slot == TWO32 - 1 >= timers.Length
      ensures !out.Removed? ==> Heap() == old(Heap()) && es.rec == if out.Wild? then Disarm(old(es.rec), e) else old(es.rec)
      ensures out.Removed? ==> old(es.rec)[e].idx < old(nrTimers) && !es.rec[e].armed
      ensures out.Removed? ==> multiset(Heap()) == multiset(old(Heap())) - multiset{old(Heap())[old(es.rec)[e].idx]}
      ensures out.Removed? ==> (old(Heap())[old(es.rec)[e].idx].e == e <==> Present(old(Heap()), e))
      ensures forall o :: o in es.rec && o != e && !Present(old(Heap()), o) ==> es.rec[o] == old(es.rec)[o]
    {
      if !es.rec[e].armed {
        return NotArmed;
      }
      TouchedIff(Heap(), es.rec, id, e);
      if nrTimers == 0 {
        es.rec := Disarm(es.rec, e);
        return Wild(LastSlot(nrTimers));
      }
      RemoveSlot(e);
      out := Removed;
    }

    method RemoveSlot(e: Entry)
      requires Valid() && e in es.rec && es.rec[e].k == id && es.rec[e].armed && es.rec[e].idx < nrTimers
      modifies this`nrTimers, timers, es
      ensures Valid() && es.rec.Keys == old(es.rec.Keys) && !es.rec[e].armed
      ensures multiset(Heap()) == multiset(old(Heap())) - multiset{old(Heap())[old(es.rec)[e].idx]}
      ensures old(Heap())[old(es.rec)[e].idx].e == e <==> Present(old(Heap()), e)
      ensures forall o :: o in es.rec && o != e && !Present(old(Heap()), o) ==> es.rec[o] == old(es.rec)[o]
    {
      ghost var h0, r0 := Heap(), es.rec;
      OwnSlotIff(h0, r0, id, e);
      StrayDisarmed(h0, r0, e, id);
      es.rec := Disarm(es.rec, e);
      var rec := Unlink(timers, nrTimers, es.rec, e, id);
      nrTimers := nrTimers - 1;
      es.rec := rec;
      Cancelled(h0, r0, e, Heap(), rec, id);
      StrayTaken(h0, Disarm(r0, e), h0[r0[e].idx], Heap(), rec, id);
    }

    /** One turn of timer_softirq: the earliest timer, when it is due. It stays armed. */
    method Pop(now: nat) returns (fired: bool, e: Entry)
      requires Valid()
      modifies this`nrTimers, timers, es
      ensures Valid() && (fired <==> AnyDue(old(Heap()), now))
      ensures !fired ==> Heap() == old(Heap()) && es.rec == old(es.rec)
      ensures fired ==> old(nrTimers) > 0 && e == old(Heap())[0].e && old(Heap())[0].deadline <= now
      ensures fired ==> Least(old(Heap())[0], multiset(old(Heap())))
      ensures fired ==> TakenOut(old(Heap()), old(es.rec), old(Heap())[0], Heap(), es.rec, id)
      ensures es.rec.Keys == old(es.rec.Keys) && forall o :: o in es.rec && !Present(old(Heap()), o) ==> es.rec[o] == old(es.rec)[o]
    {
      ghost var h0, r0 := Heap(), es.rec;
      DueAtTop(h0, now);
      if nrTimers == 0 || timers[0].deadline > now {
        return false, 0;
      }
      e := timers[0].e;
      var rec := PopFirst(timers, nrTimers, es.rec, id);
      nrTimers := nrTimers - 1;
      es.rec := rec;
      TakenArmed(h0, r0, h0[0], Heap(), rec, id);
      StrayTaken(h0, r0, h0[0], Heap(), rec, id);
      fired := true;
    }

    /** timer_softirq, when the handlers leave the heap alone: at most `budget` timers fire, each due at its reading of
        the clock, in the order of their deadlines; it stops early only when nothing is due. */
    method Softirq(budget: nat, clock: nat -> nat) returns (fired: seq<Slot>)
      requires Valid()
      modifies this`nrTimers, timers, es
      ensures Valid() && multiset(old(Heap())) == multiset(Heap()) + multiset(fired) && |fired| <= budget
      ensures Due(fired, clock) && InSequence(fired) && AllBefore(fired, multiset(Heap()))
      ensures |fired| < budget ==> !AnyDue(Heap(), clock(|fired|))
    {
      fired := [];
      while |fired| < budget
        invariant Valid() && multiset(old(Heap())) == multiset(Heap()) + multiset(fired) && |fired| <= budget
        invariant Due(fired, clock) && InSequence(fired) && AllBefore(fired, multiset(Heap()))
      {
        var more;
        more, fired := Turn(fired, clock);
        if !more {
          break;
        }
      }
    }

    /** One turn of the loop. */
    method Turn(fired0: seq<Slot>, clock: nat -> nat) returns (more: bool, fired: seq<Slot>)
      requires Valid() && Due(fired0, clock) && InSequence(fired0) && AllBefore(fired0, multiset(Heap()))
      modifies this`nrTimers, timers, es
      ensures Valid() && multiset(Heap()) + multiset(fired) == multiset(old(Heap())) + multiset(fired0)
      ensures Due(fired, clock) && InSequence(fired) && AllBefore(fired, multiset(Heap()))
      ensures if more then |fired| == |fired0| + 1 else fired == fired0 && !AnyDue(Heap(), clock(|fired|))
    {
      ghost var h := multiset(Heap());
      var x;
      fired := fired0;
      more, x := Fire(clock(|fired|));
      if more {
        FireOne(h, x, multiset(Heap()), fired, clock);
        fired := fired + [x];
      }
    }

    /** The same as Pop, with the slot that fired. */
    method Fire(now: nat) returns (fired: bool, x: Slot)
      requires Valid()
      modifies this`nrTimers, timers, es
      ensures Valid() && (fired <==> AnyDue(old(Heap()), now)) && (!fired ==> Heap() == old(Heap()))
      ensures fired ==> x.deadline <= now && Least(x, multiset(old(Heap()))) && multiset(Heap()) == multiset(old(Heap())) - multiset{x}
    {
      x := if nrTimers > 0 then timers[0] else Slot(0, 0);
      var e;
      fired, e := Pop(now);
    }

    /** What a handler asks of the timers of its kthread; a call that would be a bug is not made. */
    method Handle(op: TimerOp) returns (ghost added: multiset<Slot>, ghost removed: multiset<Slot>)
      requires Valid()
      modifies this`nrTimers, timers, es
      ensures Valid() && multiset(Heap()) + removed == multiset(old(Heap())) + added
      ensures added == if op.Arm? && op.e in old(es.rec) && !old(es.rec)[op.e].armed && old(nrTimers) + 1 < timers.Length
                       then multiset{Slot(op.deadline, op.e)} else multiset{}
      ensures if op.CancelIt? && op.e in old(es.rec) && old(es.rec)[op.e].k == id && old(es.rec)[op.e].armed && old(nrTimers) > 0
              then old(es.rec)[op.e].idx < old(nrTimers) && removed == multiset{old(Heap())[old(es.rec)[op.e].idx]} else removed == multiset{}
    {
      added, removed := multiset{}, multiset{};
      match op {
        case Arm(e, deadline) =>
          if e in es.rec && !es.rec[e].armed && nrTimers + 1 < timers.Length {
            Start(e, deadline);
            added := multiset{Slot(deadline, e)};
          }
        case CancelIt(e) =>
          if e in es.rec && es.rec[e].k == id {
            ghost var h, i := Heap(), es.rec[e].idx;
            var out := Cancel(e);
            if out == Removed {
              removed := multiset{h[i]};
              assert h[i] in multiset(h);
            }
          }
      }
    }

    method HandleAll(ops: seq<TimerOp>) returns (ghost added: multiset<Slot>, ghost removed: multiset<Slot>)
      requires Valid()
      modifies this`nrTimers, timers, es
      ensures Valid() && multiset(Heap()) + removed == multiset(old(Heap())) + added
    {
      added, removed := multiset{}, multiset{};
      for i := 0 to |ops|
        invariant Valid() && multiset(Heap()) + removed == multiset(old(Heap())) + added
      {
        ghost var h := multiset(Heap());
        ghost var a, r := Handle(ops[i]);
        Account(multiset(old(Heap())), h, multiset(Heap()), added, removed, a, r);
        added, removed := added + a, removed + r;
      }
    }

    /** timer_softirq with handlers that start and cancel timers in any way: every timer that fires is due and has the least
        deadline of those then present, and no timer is lost but by a cancellation. */
    method SoftirqWith(budget: nat, clock: nat -> nat, handler: nat -> seq<TimerOp>)
      returns (fired: seq<Slot>, ghost heaps: seq<multiset<Slot>>, ghost added: multiset<Slot>, ghost removed: multiset<Slot>)
      requires Valid()
      modifies this`nrTimers, timers, es
      ensures Valid() && |heaps| == |fired| <= budget && Due(fired, clock) && EachLeast(fired, heaps)
      ensures Balanced(multiset(old(Heap())), multiset(Heap()), added, removed, fired)
      ensures |fired| < budget ==> !AnyDue(Heap(), clock(|fired|))
    {
      fired, heaps, added, removed := [], [], multiset{}, multiset{};
      while |fired| < budget
        invariant Valid() && |heaps| == |fired| <= budget && Due(fired, clock) && EachLeast(fired, heaps)
        invariant Balanced(multiset(old(Heap())), multiset(Heap()), added, removed, fired)
      {
        var more, x;
        ghost var h, a, r;
        more, x, h, a, r := FireAndHandle(clock(|fired|), handler(|fired|), multiset(old(Heap())), fired, added, removed);
        if !more {
          break;
        }
        FiredMore(fired, heaps, x, h, clock);
        heaps, fired, added, removed := heaps + [h], fired + [x], added + a, removed + r;
      }
    }

    /** One turn with its handler. */
    method FireAndHandle(now: nat, ops: seq<TimerOp>, ghost start: multiset<Slot>, ghost fired: seq<Slot>, ghost added: multiset<Slot>, ghost removed: multiset<Slot>)
      returns (more: bool, x: Slot, ghost h: multiset<Slot>, ghost a: multiset<Slot>, ghost r: multiset<Slot>)
      requires Valid() && Balanced(start, multiset(Heap()), added, removed, fired)
      modifies this`nrTimers, timers, es
      ensures Valid() && (more <==> AnyDue(old(Heap()), now)) && (more ==> x.deadline <= now && Least(x, h) && h == multiset(old(Heap())))
      ensures if more then Balanced(start, multiset(Heap()), added + a, removed + r, fired + [x]) else Heap() == old(Heap())
    {
      h, a, r := multiset(Heap()), multiset{}, multiset{};
      more, x := Fire(now);
      if more {
        ghost var h1 := multiset(Heap());
        a, r := HandleAll(ops);
        AccountFired(start, h, h1, multiset(Heap()), added, removed, a, r, fired, x);
      }
    }

    /** timer_merge: the other kthread's timers move here. */
    method Merge(r: Kthread)
      requires Valid() && r.Valid() && r != this && r.timers != timers && r.es == es && r.id != id
      requires nrTimers + r.nrTimers < timers.Length
      modifies this`nrTimers, r`nrTimers, timers, es
      ensures Valid() && r.Valid() && r.nrTimers == 0
      ensures multiset(Heap()) == multiset(old(Heap())) + multiset(old(r.Heap()))
      ensures KeptBut(old(Heap()) + old(r.Heap()), old(es.rec), es.rec)
    {
      if r.nrTimers == 0 {
        assert r.Heap() == [];
        return;
      }
      CopyFrom(r);
      r.nrTimers := 0;
      ghost var h, rec0 := Heap(), es.rec;
      var rec := Heapify(timers, nrTimers, es.rec, id);
      KeptBoth(old(Heap()), old(r.Heap()), old(es.rec), rec0, Heap(), rec, id);
      MovedArmed(h, rec0, Heap(), rec, id);
      StrayRearranged(h, rec0, Heap(), rec, r.id, id);
      es.rec := rec;
    }

    /** The first loop of timer_merge. */
    method CopyFrom(r: Kthread)
      requires Valid() && r.Valid() && r != this && r.timers != timers && r.es == es && r.id != id
      requires nrTimers + r.nrTimers < timers.Length
      modifies this`nrTimers, timers, es
      ensures nrTimers == old(nrTimers) + r.nrTimers && Heap() == old(Heap()) + r.Heap() && r.Heap() == old(r.Heap())
      ensures Linked(Heap(), es.rec, id) && AllArmed(Heap(), es.rec) && Stray(Heap(), es.rec, id) && Stray([], es.rec, r.id)
      ensures KeptBut(r.Heap(), old(es.rec), es.rec)
    {
      ghost var h0, rh := Heap(), r.Heap();
      var i := 0;
      assert rh[0..] == rh && h0 + rh[..0] == h0;
      while i < r.nrTimers
        invariant 0 <= i <= r.nrTimers && nrTimers == old(nrTimers) + i && r.Heap() == rh
        invariant Moving(h0, rh, i, Heap(), es.rec, id, r.id) && KeptBut(rh, old(es.rec), es.rec)
      {
        var x := r.timers[i];
        assert x == rh[i] && Present(rh, x.e);
        ghost var h := Heap();
        MovingStep(h0, rh, i, h, es.rec, id, r.id);
        timers[nrTimers] := x;
        es.rec := es.rec[x.e := es.rec[x.e].(idx := nrTimers, k := id)];
        nrTimers := nrTimers + 1;
        assert Heap() == h + [rh[i]];
        i := i + 1;
      }
      assert rh[..i] == rh && rh[i..] == [];
    }

    /** A timer that fires and is then cancelled. The cancellation takes another timer, one that has neither fired nor been
        cancelled, out of the heap and reports success; if none is left, it reads outside the heap. */
    method CancelFired(now: nat) returns (e: Entry, out: Outcome, ghost lost: Slot)
      requires Valid() && nrTimers >= 1 && timers[0].deadline <= now
      modifies this`nrTimers, timers, es
      ensures Valid() && e == old(timers[0]).e && out == if old(nrTimers) >= 2 then Removed else Wild(TWO32 - 1)
      ensures out == Removed ==> lost in old(Heap()) && lost.e != e
      ensures out == Removed ==> multiset(Heap()) == multiset(old(Heap())) - multiset{old(timers[0])} - multiset{lost}
    {
      ghost var h, x := Heap(), timers[0];
      var fired;
      fired, e := Pop(now);
      ghost var h1 := Heap();
      lost := x;
      if |h1| > 0 {
        lost := h1[0];
        FiredLeaves(h, x, h1, lost);
      }
      out := Cancel(e);
    }
  }
}
