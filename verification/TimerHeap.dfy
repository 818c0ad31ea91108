/**
 The timer heap: a 4-ary min-heap in an array, whose entries point back to their slots. Sifting swaps
 slots in place and rewrites the back-pointers.
 */
module TimerHeap {
  type Entry = int

  /** A slot of the heap: struct timer_idx. */
  datatype Slot = Slot(deadline: nat, e: Entry)

  /** What a timer_entry records: its slot, its kthread, and whether it is armed. */
  datatype Record = Record(idx: nat, k: nat, armed: bool)

  type Records = map<Entry, Record>

  const D: nat := 4

  function Parent(i: nat): nat
    requires i > 0
  {
    (i - 1) / D
  }

  // ----- back-pointers -----

  /** Every slot's entry points back to it. */
  ghost predicate Linked(h: seq<Slot>, es: Records, k: nat) {
    forall i :: 0 <= i < |h| ==> h[i].e in es && es[h[i].e].idx == i && es[h[i].e].k == k
  }

  ghost predicate Present(h: seq<Slot>, e: Entry) { exists i :: 0 <= i < |h| && h[i].e == e }

  /** Only slot numbers of entries in the heap changed. */
  ghost predicate OnlyMoved(h: seq<Slot>, es: Records, es': Records) {
    && es'.Keys == es.Keys
    && (forall e :: e in es ==> es'[e].k == es[e].k && es'[e].armed == es[e].armed)
    && (forall e :: e in es && !Present(h, e) ==> es'[e] == es[e])
  }

  /** The heap was rearranged: the same slots, linked again. */
  ghost predicate Rearranged(h: seq<Slot>, es: Records, h': seq<Slot>, es': Records, k: nat) {
    && |h'| == |h| && multiset(h') == multiset(h) && Linked(h', es', k) && OnlyMoved(h, es, es')
    && (forall e :: Present(h', e) <==> Present(h, e))
  }

  function Swap(h: seq<Slot>, i: nat, p: nat): seq<Slot>
    requires i < |h| && p < |h|
  {
    h[i := h[p]][p := h[i]]
  }

  function Renumber(es: Records, e: Entry, i: nat): Records {
    if e in es then es[e := es[e].(idx := i)] else es
  }

  lemma {:induction false} SwapMultiset(h: seq<Slot>, i: nat, p: nat)
    requires i < |h| && p < |h|
    ensures multiset(Swap(h, i, p)) == multiset(h)
  {
  }

  lemma {:induction false} SwapRearranges(h: seq<Slot>, es: Records, k: nat, i: nat, p: nat)
    requires Linked(h, es, k) && i < |h| && p < |h| && i != p
    ensures Rearranged(h, es, Swap(h, i, p), Renumber(Renumber(es, h[p].e, i), h[i].e, p), k)
  {
    var h' := Swap(h, i, p);
    SwapMultiset(h, i, p);
    assert h[i].e != h[p].e;
    forall e ensures Present(h', e) <==> Present(h, e) {
      if Present(h, e) {
        var j :| 0 <= j < |h| && h[j].e == e;
        var j' := if j == i then p else if j == p then i else j;
        assert h'[j'].e == e;
      }
      if Present(h', e) {
        var j :| 0 <= j < |h'| && h'[j].e == e;
        var j' := if j == i then p else if j == p then i else j;
        assert h[j'].e == e;
      }
    }
  }

  lemma {:induction false} RearrangedTrans(h: seq<Slot>, es: Records, h1: seq<Slot>, es1: Records, h2: seq<Slot>, es2: Records, k: nat)
    requires Rearranged(h, es, h1, es1, k) && Rearranged(h1, es1, h2, es2, k)
    ensures Rearranged(h, es, h2, es2, k)
  {
  }

  lemma {:induction false} RearrangedRefl(h: seq<Slot>, es: Records, k: nat)
    requires Linked(h, es, k)
    ensures Rearranged(h, es, h, es, k)
  {
  }

  lemma {:induction false} SwapOnce(h0: seq<Slot>, es0: Records, h: seq<Slot>, es: Records, k: nat, i: nat, p: nat)
    requires Rearranged(h0, es0, h, es, k) && i < |h| && p < |h| && i != p
    ensures Rearranged(h0, es0, Swap(h, i, p), Renumber(Renumber(es, h[p].e, i), h[i].e, p), k)
  {
    SwapRearranges(h, es, k, i, p);
    RearrangedTrans(h0, es0, h, es, Swap(h, i, p), Renumber(Renumber(es, h[p].e, i), h[i].e, p), k);
  }

  // ----- heap order -----

  predicate OrderedAt(h: seq<Slot>, j: nat)
    requires 0 < j < |h|
  {
    h[Parent(j)].deadline <= h[j].deadline
  }

  /** No slot of index at least `lo` is later than a child of it. */
  ghost predicate OrderedFrom(h: seq<Slot>, lo: nat) {
    forall j :: 0 < j < |h| && Parent(j) >= lo ==> OrderedAt(h, j)
  }

  ghost predicate Ordered(h: seq<Slot>) { OrderedFrom(h, 0) }

  /** Heap order but for slot `i` and its children; the children are not before the parent of `i`. */
  ghost predicate Loose(h: seq<Slot>, i: nat, lo: nat) {
    && i < |h|
    && (forall j :: 0 < j < |h| && Parent(j) >= lo && j != i && Parent(j) != i ==> OrderedAt(h, j))
    && (forall j :: 0 < j < |h| && Parent(j) == i && i > 0 && Parent(i) >= lo ==> h[Parent(i)].deadline <= h[j].deadline)
  }

  /** The same, and slot `i` is not before its parent. */
  ghost predicate Sinking(h: seq<Slot>, i: nat, lo: nat) {
    Loose(h, i, lo) && (i > 0 && Parent(i) >= lo ==> OrderedAt(h, i))
  }

  /** The same, and slot `i` is not after its children. */
  ghost predicate Rising(h: seq<Slot>, i: nat) {
    Loose(h, i, 0) && forall j :: 0 < j < |h| && Parent(j) == i ==> OrderedAt(h, j)
  }

  /** One step up: a slot earlier than its parent changes places with it. */
  lemma {:induction false} RiseStep(h: seq<Slot>, i: nat)
    requires Loose(h, i, 0) && i > 0 && h[i].deadline < h[Parent(i)].deadline
    ensures Rising(Swap(h, i, Parent(i)), Parent(i))
  {
    var p := Parent(i);
    var h' := Swap(h, i, p);
    assert p > 0 ==> OrderedAt(h, p);
    forall j | 0 < j < |h'| && Parent(j) != p && j != p ensures OrderedAt(h', j) {
      if Parent(j) != i {
        assert OrderedAt(h, j);
      }
    }
    forall j | 0 < j < |h'| && Parent(j) == p ensures OrderedAt(h', j) && (p > 0 ==> h'[Parent(p)].deadline <= h'[j].deadline) {
      if j != i {
        assert OrderedAt(h, j);
      }
    }
  }

  /** One step down: a slot later than its earliest child changes places with it. */
  lemma {:induction false} SinkStep(h: seq<Slot>, i: nat, c: nat, lo: nat)
    requires Sinking(h, i, lo) && i >= lo && 0 < c < |h| && Parent(c) == i && h[c].deadline < h[i].deadline
    requires forall j :: 0 < j < |h| && Parent(j) == i ==> h[c].deadline <= h[j].deadline
    ensures Sinking(Swap(h, i, c), c, lo)
  {
    var h' := Swap(h, i, c);
    forall j | 0 < j < |h'| && Parent(j) >= lo && Parent(j) != c ensures OrderedAt(h', j) {
      if j == i {
        assert h[Parent(i)].deadline <= h[c].deadline;
      } else if Parent(j) != i {
        assert OrderedAt(h, j);
      }
    }
    forall j | 0 < j < |h'| && Parent(j) == c ensures h'[i].deadline <= h'[j].deadline {
      assert OrderedAt(h, j);
    }
  }

  lemma {:induction false} SunkOrdered(h: seq<Slot>, i: nat, lo: nat)
    requires Sinking(h, i, lo) && forall j :: 0 < j < |h| && Parent(j) == i ==> OrderedAt(h, j)
    ensures OrderedFrom(h, lo)
  {
  }

  /** The first slot of an ordered heap is the earliest. */
  lemma {:induction false} FirstIsLeast(h: seq<Slot>, j: nat)
    requires Ordered(h) && j < |h|
    ensures h[0].deadline <= h[j].deadline
  {
    if j > 0 {
      assert OrderedAt(h, j);
      FirstIsLeast(h, Parent(j));
    }
  }

  // ----- sifting -----

  /** sift_up. */
  method SiftUp(heap: array<Slot>, n: nat, es0: Records, i0: nat, k: nat) returns (es: Records)
    requires i0 < n <= heap.Length && Loose(heap[..n], i0, 0) && Linked(heap[..n], es0, k)
    modifies heap
    ensures Rearranged(old(heap[..n]), es0, heap[..n], es, k) && heap[n..] == old(heap[n..])
    ensures Ordered(heap[..n]) || (Sinking(heap[..n], i0, 0) && heap[..n] == old(heap[..n]))
  {
    var i := i0;
    es := es0;
    ghost var h0 := heap[..n];
    ghost var h := h0;
    var tmp := heap[i];
    RearrangedRefl(h, es, k);
    while i > 0
      invariant i < n && heap[..n] == h && heap[n..] == old(heap[n..]) && tmp == h[i]
      invariant Rearranged(h0, es0, h, es, k)
      invariant if i == i0 then h == h0 else Rising(h, i)
    {
      var p := Parent(i);
      if tmp.deadline >= heap[p].deadline {
        break;
      }
      RiseStep(h, i);
      ghost var h1 := Swap(h, i, p);
      SwapOnce(h0, es0, h, es, k, i, p);
      heap[i] := heap[p];
      es := Renumber(es, heap[i].e, i);
      heap[p] := tmp;
      es := Renumber(es, heap[p].e, p);
      assert heap[..n] == h1;
      h := h1;
      i := p;
    }
    assert i != i0 ==> Ordered(h);
  }

  const INT_MAX: nat := 0x7FFF_FFFF

  /** The inner loop of sift_down: the earliest child that is before slot `i`, or INT_MAX. */
  method EarliestChild(heap: array<Slot>, i: nat, n: nat) returns (c: nat)
    requires i < n <= heap.Length && n < INT_MAX
    ensures c == INT_MAX ==> forall j :: 0 < j < n && Parent(j) == i ==> heap[i].deadline <= heap[j].deadline
    ensures c != INT_MAX ==> 0 < c < n && Parent(c) == i && heap[c].deadline < heap[i].deadline
    ensures c != INT_MAX ==> forall j :: 0 < j < n && Parent(j) == i ==> heap[c].deadline <= heap[j].deadline
  {
    var w := heap[i].deadline;
    c := INT_MAX;
    var j := i * D + 1;
    while j <= i * D + D
      invariant i * D + 1 <= j <= i * D + D + 1
      invariant c == INT_MAX ==> w == heap[i].deadline
      invariant c != INT_MAX ==> 0 < c < n && Parent(c) == i && w == heap[c].deadline < heap[i].deadline
      invariant forall l :: i * D + 1 <= l < j && l < n ==> w <= heap[l].deadline
    {
      if j >= n {
        break;
      }
      if heap[j].deadline < w {
        w, c := heap[j].deadline, j;
      }
      j := j + 1;
    }
  }

  /** sift_down. */
  method SiftDown(heap: array<Slot>, n: nat, es0: Records, i0: nat, k: nat, ghost lo: nat) returns (es: Records)
    requires lo <= i0 < n <= heap.Length && n < INT_MAX && Sinking(heap[..n], i0, lo) && Linked(heap[..n], es0, k)
    modifies heap
    ensures Rearranged(old(heap[..n]), es0, heap[..n], es, k) && heap[n..] == old(heap[n..])
    ensures OrderedFrom(heap[..n], lo)
  {
    var i := i0;
    es := es0;
    ghost var h0 := heap[..n];
    ghost var h := h0;
    var tmp := heap[i];
    RearrangedRefl(h, es, k);
    while true
      invariant lo <= i < n && heap[..n] == h && heap[n..] == old(heap[n..]) && tmp == h[i]
      invariant Rearranged(h0, es0, h, es, k) && Sinking(h, i, lo)
      decreases n - i
    {
      var c := EarliestChild(heap, i, n);
      if c == INT_MAX {
        SunkOrdered(h, i, lo);
        break;
      }
      SinkStep(h, i, c, lo);
      ghost var h1 := Swap(h, i, c);
      SwapOnce(h0, es0, h, es, k, i, c);
      heap[i] := heap[c];
      es := Renumber(es, heap[i].e, i);
      heap[c] := tmp;
      es := Renumber(es, heap[c].e, c);
      assert heap[..n] == h1;
      h := h1;
      i := c;
    }
  }

  // ----- the checker -----

  ghost predicate PassesCheck(h: seq<Slot>) { forall j :: 1 < j < |h| ==> OrderedAt(h, j) }

  /** is_valid_heap. */
  method IsValidHeap(heap: array<Slot>, n: nat) returns (ok: bool)
    requires n <= heap.Length
    ensures ok <==> PassesCheck(heap[..n])
  {
    var i: int := n - 1;
    while i > 1
      invariant i < n && forall j :: i < j < n && 1 < j ==> OrderedAt(heap[..n], j)
    {
      if heap[Parent(i)].deadline > heap[i].deadline {
        assert !OrderedAt(heap[..n], i);
        return false;
      }
      i := i - 1;
    }
    ok := true;
  }

  /** The checker skips index 1: it is right exactly when that slot is in order. */
  lemma CheckerMissesFirstChild(h: seq<Slot>)
    ensures PassesCheck(h) && (|h| > 1 ==> OrderedAt(h, 1)) <==> Ordered(h)
    ensures PassesCheck([Slot(5, 1), Slot(3, 2)]) && !Ordered([Slot(5, 1), Slot(3, 2)])
  {
    assert !OrderedAt([Slot(5, 1), Slot(3, 2)], 1);
  }

  // ----- adding and dropping a slot -----

  ghost predicate AllArmed(h: seq<Slot>, es: Records) {
    forall i :: 0 <= i < |h| ==> h[i].e in es && es[h[i].e].armed
  }

  lemma {:induction false} AppendSlot(h: seq<Slot>, es: Records, k: nat, x: Slot, armed: bool)
    requires Linked(h, es, k) && !Present(h, x.e)
    ensures Linked(h + [x], es[x.e := Record(|h|, k, armed)], k) && multiset(h + [x]) == multiset(h) + multiset{x}
    ensures forall e :: Present(h + [x], e) <==> Present(h, e) || e == x.e
    ensures Ordered(h) ==> Loose(h + [x], |h|, 0)
  {
    var h' := h + [x];
    assert h'[|h|] == x;
    assert forall i :: 0 <= i < |h| ==> h'[i] == h[i];
    forall i | 0 <= i < |h| ensures h[i].e != x.e {
      assert Present(h, h[i].e);
    }
    forall e ensures Present(h', e) <==> Present(h, e) || e == x.e {
      if Present(h, e) {
        var i :| 0 <= i < |h| && h[i].e == e;
        assert h'[i].e == e;
      }
    }
    if Ordered(h) {
      forall j | 0 < j < |h'| && j != |h| ensures OrderedAt(h', j) {
        assert OrderedAt(h, j);
      }
    }
  }

  lemma {:induction false} AppendedOrdered(h: seq<Slot>)
    requires h != [] && (Ordered(h) || Sinking(h, |h| - 1, 0))
    ensures Ordered(h)
  {
  }

  /** The last slot takes the place of slot `i`. */
  function Drop(h: seq<Slot>, i: nat): seq<Slot>
    requires i < |h|
  {
    if i == |h| - 1 then h[..i] else h[..|h| - 1][i := h[|h| - 1]]
  }

  lemma {:induction false} DropMultiset(h: seq<Slot>, i: nat)
    requires i < |h|
    ensures multiset(Drop(h, i)) == multiset(h) - multiset{h[i]}
  {
    assert h == h[..|h| - 1] + [h[|h| - 1]];
  }

  lemma {:induction false} DropSlot(h: seq<Slot>, es: Records, k: nat, i: nat)
    requires Linked(h, es, k) && i < |h|
    ensures i == |h| - 1 ==> Linked(Drop(h, i), es, k)
    ensures i < |h| - 1 ==> Linked(Drop(h, i), Renumber(es, h[|h| - 1].e, i), k)
    ensures forall e :: Present(Drop(h, i), e) <==> Present(h, e) && e != h[i].e
    ensures Ordered(h) ==> if i == |h| - 1 then Ordered(Drop(h, i)) else Loose(Drop(h, i), i, 0)
  {
    var h', last := Drop(h, i), |h| - 1;
    assert forall j :: 0 <= j < last ==> h'[j] == if j == i then h[last] else h[j];
    DropPresent(h, es, k, i);
    if Ordered(h) {
      forall j | 0 < j < |h'| && j != i && Parent(j) != i ensures OrderedAt(h', j) {
        assert OrderedAt(h, j);
      }
      forall j | 0 < j < |h'| && Parent(j) == i && i > 0 ensures h'[Parent(i)].deadline <= h'[j].deadline {
        assert OrderedAt(h, j) && OrderedAt(h, i);
      }
    }
  }

  lemma {:induction false} DropPresent(h: seq<Slot>, es: Records, k: nat, i: nat)
    requires Linked(h, es, k) && i < |h|
    ensures forall e :: Present(Drop(h, i), e) <==> Present(h, e) && e != h[i].e
  {
    var h', last := Drop(h, i), |h| - 1;
    forall e ensures Present(h', e) <==> Present(h, e) && e != h[i].e {
      if Present(h', e) {
        var j :| 0 <= j < |h'| && h'[j].e == e;
        var j' := if j == i then last else j;
        assert h[j'].e == e;
      }
      if Present(h, e) && e != h[i].e {
        var j :| 0 <= j < |h| && h[j].e == e;
        var j' := if j == last then i else j;
        assert h'[j'].e == e;
      }
    }
  }

  /** The slot an entry points to is its own exactly when the entry is in the heap. */
  lemma {:induction false} OwnSlotIff(h: seq<Slot>, es: Records, k: nat, e: Entry)
    requires Linked(h, es, k) && e in es && es[e].idx < |h|
    ensures h[es[e].idx].e == e <==> Present(h, e)
  {
  }
}
