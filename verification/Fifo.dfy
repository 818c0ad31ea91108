/**
 The FIFO policy with work stealing: one ring per CPU that only its owner fills, consumers serialised
 by the ring's lock, and thieves that copy half of another ring task by task. Every load and store of
 a put and of a steal is a step of its own; the 32-bit indices wrap.
 */
module Fifo {
  import opened Words

  type Task = int

  const SIZE: nat := 32

  datatype Lock = Free | Held(by_: nat)

  /** What a CPU is in the middle of. */
  datatype Pc =
    | Idle
    | PutSlot(t: Task)
    | PutTail(t: Task)
    | PutOverflow(t: Task)
    | StealCopy(victim: nat, avail: nat, i: nat)
    | StealTail(loot: seq<Task>)

  /** A run queue; `first` and `ring` are the count behind `head` and the tasks between `head` and `tail`. */
  datatype Rq = Rq(tasks: seq<Task>, head: nat, tail: nat, overflow: seq<Task>, lock: Lock, pc: Pc, first: nat, ring: seq<Task>)

  /** All run queues, the tasks handed to the scheduler so far, and those picked to run. */
  datatype State = State(rqs: seq<Rq>, submitted: multiset<Task>, picked: multiset<Task>)

  /** What the victim's softirq handlers offer a thief that finds no task. */
  datatype Softirq = Nothing | Made(t: Task)

  datatype Action = Put(c: nat, t: Task) | Pick(c: nat) | Steal(c: nat, victim: nat, soft: Softirq) | Go(c: nat)

  /** `i & RQ_SIZE_MASK`. */
  function Index(i: nat): (r: nat)
    ensures r < SIZE
  {
    And(i, SIZE - 1)
  }

  /** The slot of count `i`. */
  ghost function Slot(i: nat): (r: nat)
    ensures r < SIZE
  {
    if i < SIZE then i else Slot(i - SIZE)
  }

  lemma {:induction false} SlotMod(i: nat)
    ensures Slot(i) == i % SIZE
  {
    if i >= SIZE {
      SlotMod(i - SIZE);
    }
  }

  /** The masked, wrapped index of a count is its slot. */
  lemma {:induction false} IndexSlot(i: nat)
    ensures Index(i % TWO32) == Slot(i)
  {
    SlotMod(i);
    Masked(i % TWO32, SIZE - 1);
    ModMod(i, 0x800_0000, SIZE);
  }

  lemma {:induction false} Masked(i: nat, mask: nat)
    requires mask == SIZE - 1
    ensures And(i, mask) == i % SIZE
  {
    MaskIsRemainder(i, mask, 5);
  }

  /** Counts less than a ring apart have different slots. */
  lemma {:induction false} SlotApart(a: nat, b: nat)
    requires a < b < a + SIZE
    ensures Slot(a) != Slot(b)
  {
    SlotMod(a);
    SlotMod(b);
  }

  function Half(n: nat): nat { (n + 1) / 2 }

  // ----- the steps -----

  predicate Enabled(s: State, a: Action) {
    && a.c < |s.rqs| && |s.rqs[a.c].tasks| == SIZE
    && match a
       case Put(c, t) => s.rqs[c].pc == Idle
       case Pick(c) => s.rqs[c].pc == Idle && s.rqs[c].lock == Free
       case Steal(c, v, soft) =>
         && v < |s.rqs| && v != c && |s.rqs[v].tasks| == SIZE && s.rqs[c].pc == Idle
         && s.rqs[c].lock == Free && s.rqs[c].head == s.rqs[c].tail && s.rqs[v].lock == Free
       case Go(c) =>
         match s.rqs[c].pc
         case Idle => false
         case PutOverflow(t) => s.rqs[c].lock == Free
         case StealCopy(v, avail, i) => v < |s.rqs| && |s.rqs[v].tasks| == SIZE && avail <= SIZE
         case _ => true
  }

  /** put_task: the room test on the head just loaded. */
  function PutStart(rq: Rq, t: Task): Rq {
    rq.(pc := if Sub32(rq.tail, rq.head) >= SIZE then PutOverflow(t) else PutSlot(t))
  }

  /** put_task: one store. */
  function PutGo(rq: Rq): Rq
    requires |rq.tasks| == SIZE
  {
    match rq.pc
    case PutSlot(t) => rq.(tasks := rq.tasks[Index(rq.tail) := t], pc := PutTail(t))
    case PutTail(t) => rq.(tail := (rq.tail + 1) % TWO32, pc := Idle, ring := rq.ring + [t])
    case PutOverflow(t) => rq.(overflow := rq.overflow + [t], pc := Idle)
    case _ => rq
  }

  /** fifo_sched_pick_next under the lock. */
  function PickOne(rq: Rq): Rq {
    if rq.head == rq.tail then rq
    else rq.(head := (rq.head + 1) % TWO32, first := rq.first + 1, ring := if rq.ring == [] then [] else rq.ring[1..])
  }

  /** fifo_sched_balance and the start of steal_task: the thief's ring is reset, and the victim's length decides. */
  function StealStart(s: State, l: nat, r: nat, soft: Softirq): State
    requires l < |s.rqs| && r < |s.rqs| && l != r && |s.rqs[l].tasks| == SIZE
  {
    var me, him := s.rqs[l].(head := 0, tail := 0, first := 0), s.rqs[r];
    var avail := Sub32(him.tail, him.head);
    if avail != 0 then
      s.(rqs := s.rqs[l := me.(lock := Held(l), pc := StealCopy(r, Half(avail), 0))][r := him.(lock := Held(l))])
    else if him.overflow != [] then
      s.(rqs := s.rqs[l := me.(tasks := me.tasks[0 := him.overflow[0]], tail := 1, ring := [him.overflow[0]])]
                     [r := him.(overflow := him.overflow[1..])])
    else if soft.Made? then
      s.(rqs := s.rqs[l := me.(tasks := me.tasks[0 := soft.t], tail := 1, ring := [soft.t])], submitted := s.submitted + multiset{soft.t})
    else s.(rqs := s.rqs[l := me])
  }

  /** steal_task: copy one task, or store the victim's new head and unlock it. */
  function StealGo(s: State, l: nat): State
    requires l < |s.rqs| && |s.rqs[l].tasks| == SIZE
    requires s.rqs[l].pc.StealCopy? && s.rqs[l].pc.victim < |s.rqs| && |s.rqs[s.rqs[l].pc.victim].tasks| == SIZE && s.rqs[l].pc.avail <= SIZE
  {
    var me, r, avail, i := s.rqs[l], s.rqs[l].pc.victim, s.rqs[l].pc.avail, s.rqs[l].pc.i;
    var him := s.rqs[r];
    if i < avail then
      s.(rqs := s.rqs[l := me.(tasks := me.tasks[i := him.tasks[Index((him.head + i) % TWO32)]], pc := StealCopy(r, avail, i + 1))])
    else
      var loot := him.ring[..if avail <= |him.ring| then avail else |him.ring|];
      s.(rqs := s.rqs[l := me.(pc := StealTail(loot))]
                     [r := him.(head := (him.head + avail) % TWO32, lock := Free, first := him.first + avail, ring := him.ring[|loot|..])])
  }

  /** steal_task: the thief's own tail, and its lock is released. */
  function StealEnd(rq: Rq): Rq
    requires rq.pc.StealTail?
  {
    rq.(tail := |rq.pc.loot| % TWO32, lock := Free, pc := Idle, ring := rq.pc.loot)
  }

  function Apply(s: State, a: Action): State
    requires Enabled(s, a)
  {
    var rq := s.rqs[a.c];
    match a
    case Put(c, t) => s.(rqs := s.rqs[c := PutStart(rq, t)], submitted := s.submitted + multiset{t})
    case Pick(c) =>
      s.(rqs := s.rqs[c := PickOne(rq)],
      picked := s.picked + if rq.head == rq.tail then multiset{} else multiset{rq.tasks[Index(rq.head)]})
    case Steal(c, v, soft) => StealStart(s, c, v, soft)
    case Go(c) =>
      if rq.pc.StealCopy? then StealGo(s, c)
      else if rq.pc.StealTail? then s.(rqs := s.rqs[c := StealEnd(rq)])
      else s.(rqs := s.rqs[c := PutGo(rq)])
  }

  // ----- the invariant -----

  /** The slots between head and tail hold the ring's tasks. */
  ghost predicate RingOk(rq: Rq) {
    && |rq.tasks| == SIZE && |rq.ring| <= SIZE
    && rq.head == rq.first % TWO32 && rq.tail == (rq.first + |rq.ring|) % TWO32
    && forall i :: 0 <= i < |rq.ring| ==> rq.tasks[Slot(rq.first + i)] == rq.ring[i]
  }

  /** What the CPU has in hand: a task not yet in its ring, or the loot of a steal. */
  ghost predicate HandOk(rq: Rq) {
    match rq.pc
    case PutSlot(t) => |rq.ring| < SIZE
    case PutTail(t) => |rq.ring| < SIZE && |rq.tasks| == SIZE && rq.tasks[Slot(rq.first + |rq.ring|)] == t
    case StealCopy(v, avail, i) => rq.ring == [] && rq.first == 0
    case StealTail(loot) =>
      && rq.ring == [] && rq.first == 0 && 0 < |loot| <= SIZE == |rq.tasks|
      && forall j :: 0 <= j < |loot| ==> rq.tasks[j] == loot[j]
    case _ => true
  }

  /** A thief holds its own lock and the victim's; what it has copied is the front of the victim's ring. */
  ghost predicate ThiefOk(s: State, l: nat)
    requires l < |s.rqs|
  {
    var me := s.rqs[l];
    && (me.pc.StealCopy? ==>
          var r := me.pc.victim;
          && r < |s.rqs| && r != l && s.rqs[r].lock == Held(l) && me.lock == Held(l) && |me.tasks| == SIZE
          && 0 < me.pc.avail <= |s.rqs[r].ring| && me.pc.avail <= SIZE && me.pc.i <= me.pc.avail
          && forall j :: 0 <= j < me.pc.i ==> me.tasks[j] == s.rqs[r].ring[j])
    && (me.pc.StealTail? ==> me.lock == Held(l))
    && (me.lock == Held(l) ==> me.pc.StealCopy? || me.pc.StealTail?)
  }

  ghost function Holding(rq: Rq): multiset<Task> {
    multiset(rq.ring) + multiset(rq.overflow)
    + match rq.pc
      case PutSlot(t) => multiset{t}
      case PutTail(t) => multiset{t}
      case PutOverflow(t) => multiset{t}
      case StealTail(loot) => multiset(loot)
      case _ => multiset{}
  }

  ghost function Total(rqs: seq<Rq>): multiset<Task> {
    if rqs == [] then multiset{} else Holding(rqs[0]) + Total(rqs[1..])
  }

  /** Every task handed over was picked or is in exactly one place. */
  ghost predicate Conserved(s: State) {
    s.submitted == s.picked + Total(s.rqs)
  }

  ghost predicate RqOk(rq: Rq) { RingOk(rq) && HandOk(rq) }

  ghost predicate Rings(s: State) { forall c :: 0 <= c < |s.rqs| ==> RqOk(s.rqs[c]) }

  ghost predicate Thieves(s: State) { forall c :: 0 <= c < |s.rqs| ==> ThiefOk(s, c) }

  ghost predicate Inv(s: State) { Rings(s) && Thieves(s) && Conserved(s) }

  // ----- accounting -----

  lemma {:induction false} TotalUpdate(rqs: seq<Rq>, i: nat, x: Rq)
    requires i < |rqs|
    ensures Holding(rqs[i]) <= Total(rqs) && Total(rqs[i := x]) == Total(rqs) - Holding(rqs[i]) + Holding(x)
  {
    var s := rqs[i := x];
    if i == 0 {
      assert s[1..] == rqs[1..];
    } else {
      TotalUpdate(rqs[1..], i - 1, x);
      assert s[1..] == rqs[1..][i - 1 := x];
    }
  }

  lemma {:induction false} Balance(sub: multiset<Task>, pick: multiset<Task>, t: multiset<Task>, h: multiset<Task>,
                                   sub': multiset<Task>, pick': multiset<Task>, t': multiset<Task>, h': multiset<Task>)
    requires sub == pick + t && h <= t && t' == t - h + h' && sub' + pick + h == sub + pick' + h'
    ensures sub' == pick' + t'
  {
    forall e ensures sub'[e] == (pick' + t')[e] {
      assert (sub' + pick + h)[e] == (sub + pick' + h')[e];
      assert t'[e] == t[e] - h[e] + h'[e];
    }
  }

  /** A step of CPU `c` on its own queue does not disturb a thief. */
  lemma {:induction false} ThiefKept(s: State, s': State, c: nat, x: Rq, l: nat)
    requires c < |s.rqs| && l < |s.rqs| && s'.rqs == s.rqs[c := x] && ThiefOk(s, l) && l != c
    requires s.rqs[c].lock != Held(c) ==> x.lock == s.rqs[c].lock && (x.lock.Held? ==> s.rqs[c].ring <= x.ring)
    ensures ThiefOk(s', l)
  {
    var me := s.rqs[l];
    assert s'.rqs[l] == me;
    if me.pc.StealCopy? {
      var r := me.pc.victim;
      assert r != c ==> s'.rqs[r] == s.rqs[r];
    }
  }

  /** A step of one CPU on its own queue. */
  lemma {:induction false} LocalKeeps(s: State, s': State, c: nat, x: Rq)
    requires Inv(s) && c < |s.rqs| && s'.rqs == s.rqs[c := x] && RingOk(x) && HandOk(x)
    requires !x.pc.StealCopy? && !x.pc.StealTail? && x.lock != Held(c)
    requires s.rqs[c].lock != Held(c) ==> x.lock == s.rqs[c].lock && (x.lock.Held? ==> s.rqs[c].ring <= x.ring)
    requires s'.submitted + s.picked + Holding(s.rqs[c]) == s.submitted + s'.picked + Holding(x)
    ensures Inv(s')
  {
    assert Conserved(s') by {
      TotalUpdate(s.rqs, c, x);
      Balance(s.submitted, s.picked, Total(s.rqs), Holding(s.rqs[c]), s'.submitted, s'.picked, Total(s'.rqs), Holding(x));
    }
    forall l | 0 <= l < |s'.rqs| ensures ThiefOk(s', l) {
      if l != c {
        ThiefKept(s, s', c, x, l);
      }
    }
  }

  // ----- the steps of one CPU -----

  lemma {:induction false} Room(rq: Rq)
    requires RingOk(rq)
    ensures Sub32(rq.tail, rq.head) == |rq.ring| && (rq.head == rq.tail <==> rq.ring == [])
  {
  }

  lemma {:induction false} PutStartOk(rq: Rq, t: Task)
    requires RingOk(rq) && rq.pc == Idle
    ensures RingOk(PutStart(rq, t)) && HandOk(PutStart(rq, t)) && Holding(PutStart(rq, t)) == Holding(rq) + multiset{t}
  {
    Room(rq);
  }

  lemma {:induction false} PutSlotOk(rq: Rq)
    requires RingOk(rq) && HandOk(rq) && rq.pc.PutSlot?
    ensures RingOk(PutGo(rq)) && HandOk(PutGo(rq))
  {
    var x, n := PutGo(rq), rq.first + |rq.ring|;
    IndexSlot(n);
    forall i | 0 <= i < |rq.ring| ensures x.tasks[Slot(rq.first + i)] == rq.ring[i] {
      SlotApart(rq.first + i, n);
    }
  }

  lemma {:induction false} PutTailOk(rq: Rq)
    requires RingOk(rq) && HandOk(rq) && rq.pc.PutTail?
    ensures RingOk(PutGo(rq)) && HandOk(PutGo(rq))
  {
    var x := PutGo(rq);
    Indices(rq.first + |rq.ring|, 1);
    forall i | 0 <= i < |x.ring| ensures x.tasks[Slot(x.first + i)] == x.ring[i] {
    }
  }

  lemma {:induction false} PutGoOk(rq: Rq)
    requires RingOk(rq) && HandOk(rq) && (rq.pc.PutSlot? || rq.pc.PutTail? || rq.pc.PutOverflow?)
    ensures RingOk(PutGo(rq)) && HandOk(PutGo(rq))
  {
    match rq.pc {
      case PutSlot(t) => PutSlotOk(rq);
      case PutTail(t) => PutTailOk(rq);
      case PutOverflow(t) =>
    }
  }

  lemma {:induction false} PutGoHolds(rq: Rq)
    requires |rq.tasks| == SIZE && (rq.pc.PutSlot? || rq.pc.PutTail? || rq.pc.PutOverflow?)
    ensures Holding(PutGo(rq)) == Holding(rq) && rq.ring <= PutGo(rq).ring && PutGo(rq).lock == rq.lock
    ensures var pc := PutGo(rq).pc; !pc.StealCopy? && !pc.StealTail?
  {
  }

  lemma {:induction false} PickRing(rq: Rq)
    requires RingOk(rq) && rq.pc == Idle && rq.ring != []
    ensures rq.head != rq.tail && rq.tasks[Index(rq.head)] == rq.ring[0] && RingOk(PickOne(rq))
  {
    Room(rq);
    var x := PickOne(rq);
    IndexSlot(rq.first);
    assert rq.tasks[Slot(rq.first + 0)] == rq.ring[0];
    Indices(rq.first, 1);
    forall i | 0 <= i < |x.ring| ensures x.tasks[Slot(x.first + i)] == x.ring[i] {
      assert rq.tasks[Slot(rq.first + (i + 1))] == rq.ring[i + 1];
    }
  }

  lemma {:induction false} PickOk(rq: Rq)
    requires RingOk(rq) && rq.pc == Idle
    ensures RingOk(PickOne(rq)) && HandOk(PickOne(rq))
    ensures rq.head != rq.tail ==> rq.ring != [] && rq.tasks[Index(rq.head)] == rq.ring[0]
    ensures Holding(rq) == Holding(PickOne(rq)) + if rq.head == rq.tail then multiset{} else multiset{rq.tasks[Index(rq.head)]}
  {
    Room(rq);
    if rq.ring != [] {
      PickRing(rq);
      assert rq.ring == [rq.ring[0]] + rq.ring[1..];
    }
  }

  lemma {:induction false} StealEndOk(rq: Rq)
    requires RingOk(rq) && HandOk(rq) && rq.pc.StealTail?
    ensures RingOk(StealEnd(rq)) && HandOk(StealEnd(rq)) && Holding(StealEnd(rq)) == Holding(rq)
  {
    var x := StealEnd(rq);
    forall i | 0 <= i < |x.ring| ensures x.tasks[Slot(x.first + i)] == x.ring[i] {
    }
  }

  lemma {:induction false} PutKeeps(s: State, a: Action)
    requires Inv(s) && Enabled(s, a) && a.Put?
    ensures Inv(Apply(s, a))
  {
    var rq := s.rqs[a.c];
    assert ThiefOk(s, a.c);
    PutStartOk(rq, a.t);
    LocalKeeps(s, Apply(s, a), a.c, PutStart(rq, a.t));
  }

  lemma {:induction false} PickKeeps(s: State, a: Action)
    requires Inv(s) && Enabled(s, a) && a.Pick?
    ensures Inv(Apply(s, a))
  {
    var rq := s.rqs[a.c];
    PickOk(rq);
    LocalKeeps(s, Apply(s, a), a.c, PickOne(rq));
  }

  lemma {:induction false} GoKeeps(s: State, a: Action)
    requires Inv(s) && Enabled(s, a) && a.Go? && !s.rqs[a.c].pc.StealCopy?
    ensures Inv(Apply(s, a))
  {
    var rq := s.rqs[a.c];
    assert ThiefOk(s, a.c);
    if rq.pc.StealTail? {
      StealEndOk(rq);
      LocalKeeps(s, Apply(s, a), a.c, StealEnd(rq));
    } else {
      PutGoOk(rq);
      PutGoHolds(rq);
      LocalKeeps(s, Apply(s, a), a.c, PutGo(rq));
    }
  }

  // ----- stealing -----

  /** Tasks move between two queues. */
  lemma {:induction false} TotalTwo(rqs: seq<Rq>, l: nat, x: Rq, r: nat, y: Rq)
    requires l < |rqs| && r < |rqs| && l != r && Holding(x) + Holding(y) == Holding(rqs[l]) + Holding(rqs[r])
    ensures Total(rqs[l := x][r := y]) == Total(rqs)
  {
    var mid := rqs[l := x];
    TotalUpdate(rqs, l, x);
    TotalUpdate(mid, r, y);
    TotalUpdate(rqs, r, y);
    Exchange(Total(rqs), Holding(rqs[l]), Holding(rqs[r]), Holding(x), Holding(y), Total(mid), Total(mid[r := y]));
  }

  lemma {:induction false} Exchange(t: multiset<Task>, a: multiset<Task>, b: multiset<Task>, x: multiset<Task>, y: multiset<Task>,
                                    t1: multiset<Task>, t2: multiset<Task>)
    requires a <= t && t1 == t - a + x && b <= t1 && t2 == t1 - b + y && x + y == a + b
    ensures t2 == t
  {
    forall e ensures t2[e] == t[e] {
      assert (x + y)[e] == (a + b)[e] && t1[e] == t[e] - a[e] + x[e] && t2[e] == t1[e] - b[e] + y[e];
    }
  }

  lemma {:induction false} PairRings(s: State, s': State, l: nat, x: Rq, r: nat, y: Rq)
    requires Rings(s) && l < |s.rqs| && r < |s.rqs| && s'.rqs == s.rqs[l := x][r := y] && RqOk(x) && RqOk(y)
    ensures Rings(s')
  {
  }

  lemma {:induction false} PairThieves(s: State, s': State, l: nat, x: Rq, r: nat, y: Rq)
    requires Thieves(s) && l < |s.rqs| && r < |s.rqs| && s'.rqs == s.rqs[l := x][r := y] && ThiefOk(s', l) && ThiefOk(s', r)
    requires s.rqs[l].lock == Free || s.rqs[l].lock == Held(l)
    requires s.rqs[r].lock == Free || s.rqs[r].lock == Held(l)
    ensures Thieves(s')
  {
    forall c | 0 <= c < |s'.rqs| ensures ThiefOk(s', c) {
      if c != l && c != r {
        OtherThief(s, s', l, x, r, y, c);
      }
    }
  }

  /** Two CPUs change; every other thief's victim is neither. */
  lemma {:induction false} PairKeeps(s: State, s': State, l: nat, x: Rq, r: nat, y: Rq)
    requires Inv(s) && l < |s.rqs| && r < |s.rqs| && l != r && s' == s.(rqs := s.rqs[l := x][r := y])
    requires RqOk(x) && RqOk(y) && ThiefOk(s', l) && ThiefOk(s', r)
    requires Holding(x) + Holding(y) == Holding(s.rqs[l]) + Holding(s.rqs[r])
    requires s.rqs[l].lock == Free || s.rqs[l].lock == Held(l)
    requires s.rqs[r].lock == Free || s.rqs[r].lock == Held(l)
    ensures Inv(s')
  {
    PairRings(s, s', l, x, r, y);
    PairThieves(s, s', l, x, r, y);
    TotalTwo(s.rqs, l, x, r, y);
  }

  lemma {:induction false} OtherThief(s: State, s': State, l: nat, x: Rq, r: nat, y: Rq, c: nat)
    requires l < |s.rqs| && r < |s.rqs| && s'.rqs == s.rqs[l := x][r := y] && c < |s.rqs| && c != l && c != r && ThiefOk(s, c)
    requires s.rqs[l].lock != Held(c) && s.rqs[r].lock != Held(c)
    ensures ThiefOk(s', c)
  {
    var me := s.rqs[c];
    assert s'.rqs[c] == me;
    if me.pc.StealCopy? {
      var v := me.pc.victim;
      assert v != l && v != r && s'.rqs[v] == s.rqs[v];
    }
  }

  /** The thief's ring is empty and starts again at index 0. */
  lemma {:induction false} ResetOk(rq: Rq)
    requires RingOk(rq) && rq.pc == Idle && rq.head == rq.tail
    ensures rq.ring == [] && RingOk(rq.(head := 0, tail := 0, first := 0))
  {
    Room(rq);
  }

  function HalfThief(me: Rq, l: nat, r: nat, n: nat): Rq {
    me.(head := 0, tail := 0, first := 0, lock := Held(l), pc := StealCopy(r, n, 0))
  }

  lemma {:induction false} HalfStart(s: State, l: nat, r: nat, soft: Softirq)
    requires l < |s.rqs| && r < |s.rqs| && l != r && |s.rqs[l].tasks| == SIZE && RingOk(s.rqs[r]) && s.rqs[r].ring != []
    ensures StealStart(s, l, r, soft) == s.(rqs := s.rqs[l := HalfThief(s.rqs[l], l, r, Half(|s.rqs[r].ring|))][r := s.rqs[r].(lock := Held(l))])
  {
    Room(s.rqs[r]);
  }

  lemma {:induction false} HalfThieves(s: State, s': State, l: nat, r: nat)
    requires l < |s.rqs| && r < |s.rqs| && l != r && |s.rqs[l].tasks| == SIZE && 0 < |s.rqs[r].ring| <= SIZE
    requires ThiefOk(s, r) && s.rqs[r].lock == Free
    requires s'.rqs == s.rqs[l := HalfThief(s.rqs[l], l, r, Half(|s.rqs[r].ring|))][r := s.rqs[r].(lock := Held(l))]
    ensures ThiefOk(s', l) && ThiefOk(s', r)
  {
  }

  lemma {:induction false} HalfRqs(me: Rq, him: Rq, l: nat, r: nat)
    requires RqOk(me) && RqOk(him) && me.pc == Idle && me.ring == []
    ensures var x, y := HalfThief(me, l, r, Half(|him.ring|)), him.(lock := Held(l));
            RqOk(x) && RqOk(y) && Holding(x) + Holding(y) == Holding(me) + Holding(him)
  {
  }

  lemma {:induction false} StartHalf(s: State, l: nat, r: nat, soft: Softirq)
    requires Inv(s) && Enabled(s, Steal(l, r, soft)) && s.rqs[r].ring != []
    ensures Inv(StealStart(s, l, r, soft))
  {
    var me, him := s.rqs[l], s.rqs[r];
    var x, y := HalfThief(me, l, r, Half(|him.ring|)), him.(lock := Held(l));
    var s' := s.(rqs := s.rqs[l := x][r := y]);
    HalfStart(s, l, r, soft);
    Room(me);
    HalfThieves(s, s', l, r);
    HalfRqs(me, him, l, r);
    PairKeeps(s, s', l, x, r, y);
  }

  /** The overflow arm: the thief's ring holds the one task, the victim's list is shorter by it. */
  lemma {:induction false} OverflowArm(me: Rq, him: Rq, x: Rq, y: Rq, t: Task)
    requires RqOk(me) && me.pc == Idle && me.ring == [] && RqOk(him) && him.overflow != [] && t == him.overflow[0]
    requires x == me.(head := 0, tail := 1, first := 0, tasks := me.tasks[0 := t], ring := [t])
    requires y == him.(overflow := him.overflow[1..])
    ensures RqOk(x) && RqOk(y) && Holding(x) + Holding(y) == Holding(me) + Holding(him)
  {
    OverflowMoves(him.overflow);
  }

  lemma {:induction false} OverflowThieves(s: State, s': State, l: nat, x: Rq, r: nat, y: Rq)
    requires l < |s.rqs| && r < |s.rqs| && l != r && s'.rqs == s.rqs[l := x][r := y] && ThiefOk(s, l) && ThiefOk(s, r)
    requires s.rqs[l].lock == Free && s.rqs[r].lock == Free && x.lock == Free && y.lock == Free && x.pc == s.rqs[l].pc && y.pc == s.rqs[r].pc
    ensures ThiefOk(s', l) && ThiefOk(s', r)
  {
  }

  lemma {:induction false} StartOverflow(s: State, l: nat, r: nat, soft: Softirq)
    requires Inv(s) && Enabled(s, Steal(l, r, soft)) && s.rqs[r].ring == [] && s.rqs[r].overflow != []
    ensures Inv(StealStart(s, l, r, soft))
  {
    var me, him := s.rqs[l], s.rqs[r];
    Room(me);
    Room(him);
    var t := him.overflow[0];
    var x := me.(head := 0, tail := 1, first := 0, tasks := me.tasks[0 := t], ring := [t]);
    var y := him.(overflow := him.overflow[1..]);
    var s' := s.(rqs := s.rqs[l := x][r := y]);
    OverflowArm(me, him, x, y, t);
    OverflowThieves(s, s', l, x, r, y);
    PairKeeps(s, s', l, x, r, y);
  }

  /** The thief's ring holds the one task that a handler made. */
  function SoftThief(me: Rq, t: Task): Rq
    requires |me.tasks| == SIZE
  {
    me.(head := 0, tail := 1, first := 0, tasks := me.tasks[0 := t], ring := [t])
  }

  lemma {:induction false} SoftArm(me: Rq, t: Task)
    requires RqOk(me) && me.pc == Idle && me.ring == []
    ensures RqOk(SoftThief(me, t)) && Holding(SoftThief(me, t)) == Holding(me) + multiset{t}
  {
  }

  lemma {:induction false} StealStartKeeps(s: State, l: nat, r: nat, soft: Softirq)
    requires Inv(s) && Enabled(s, Steal(l, r, soft))
    ensures Inv(StealStart(s, l, r, soft))
  {
    var me := s.rqs[l];
    Room(s.rqs[r]);
    if s.rqs[r].ring != [] {
      StartHalf(s, l, r, soft);
    } else if s.rqs[r].overflow != [] {
      StartOverflow(s, l, r, soft);
    } else {
      assert ThiefOk(s, l);
      ResetOk(me);
      if soft.Made? {
        SoftArm(me, soft.t);
        LocalKeeps(s, StealStart(s, l, r, soft), l, SoftThief(me, soft.t));
      } else {
        LocalKeeps(s, StealStart(s, l, r, soft), l, me.(head := 0, tail := 0, first := 0));
      }
    }
  }

  lemma OverflowMoves(o: seq<Task>)
    requires o != []
    ensures multiset(o) == multiset{o[0]} + multiset(o[1..])
  {
    assert o == [o[0]] + o[1..];
  }

  lemma {:induction false} CopyKeeps(s: State, l: nat)
    requires Inv(s) && Enabled(s, Go(l)) && s.rqs[l].pc.StealCopy? && s.rqs[l].pc.i < s.rqs[l].pc.avail
    ensures Inv(StealGo(s, l))
  {
    var me := s.rqs[l];
    var r, i := me.pc.victim, me.pc.i;
    assert ThiefOk(s, l) && ThiefOk(s, r) && RqOk(me) && RqOk(s.rqs[r]);
    FrontSlot(s.rqs[r], i);
    var x := CopyThief(me, s.rqs[r].ring[i]);
    CopyShape(s, l, r, i);
    CopyThieves(s, StealGo(s, l), l, r);
    assert RqOk(x) && Holding(x) == Holding(me);
    PairKeeps(s, StealGo(s, l), l, x, r, s.rqs[r]);
  }

  /** One more task copied. */
  function CopyThief(me: Rq, t: Task): Rq
    requires me.pc.StealCopy? && me.pc.i < |me.tasks|
  {
    me.(tasks := me.tasks[me.pc.i := t], pc := StealCopy(me.pc.victim, me.pc.avail, me.pc.i + 1))
  }

  lemma {:induction false} CopyShape(s: State, l: nat, r: nat, i: nat)
    requires l < |s.rqs| && r < |s.rqs| && l != r && |s.rqs[l].tasks| == SIZE == |s.rqs[r].tasks|
    requires s.rqs[l].pc.StealCopy? && s.rqs[l].pc.victim == r && i == s.rqs[l].pc.i < s.rqs[l].pc.avail <= SIZE && i < |s.rqs[r].ring|
    requires s.rqs[r].tasks[Index((s.rqs[r].head + i) % TWO32)] == s.rqs[r].ring[i]
    ensures StealGo(s, l) == s.(rqs := s.rqs[l := CopyThief(s.rqs[l], s.rqs[r].ring[i])][r := s.rqs[r]])
  {
    var x := CopyThief(s.rqs[l], s.rqs[r].ring[i]);
    assert s.rqs[l := x][r := s.rqs[r]] == s.rqs[l := x];
  }

  lemma {:induction false} FrontSlot(him: Rq, i: nat)
    requires RingOk(him) && i < |him.ring|
    ensures him.tasks[Index((him.head + i) % TWO32)] == him.ring[i]
  {
    Indices(him.first, i);
    IndexSlot(him.first + i);
  }

  lemma {:induction false} CopyThieves(s: State, s': State, l: nat, r: nat)
    requires l < |s.rqs| && r < |s.rqs| && ThiefOk(s, l) && ThiefOk(s, r) && s.rqs[l].pc.StealCopy? && s.rqs[l].pc.victim == r
    requires s.rqs[l].pc.i < s.rqs[l].pc.avail && s'.rqs == s.rqs[l := CopyThief(s.rqs[l], s.rqs[r].ring[s.rqs[l].pc.i])][r := s.rqs[r]]
    ensures ThiefOk(s', l) && ThiefOk(s', r)
  {
  }

  function CutThief(me: Rq, him: Rq, avail: nat): Rq
    requires avail <= |him.ring|
  {
    me.(pc := StealTail(him.ring[..avail]))
  }

  function CutVictim(him: Rq, avail: nat): Rq
    requires avail <= |him.ring|
  {
    him.(head := (him.head + avail) % TWO32, lock := Free, first := him.first + avail, ring := him.ring[avail..])
  }

  lemma {:induction false} CutShape(s: State, l: nat, r: nat, avail: nat)
    requires l < |s.rqs| && r < |s.rqs| && |s.rqs[l].tasks| == SIZE == |s.rqs[r].tasks|
    requires s.rqs[l].pc.StealCopy? && s.rqs[l].pc.victim == r && s.rqs[l].pc.avail == avail <= s.rqs[l].pc.i
    requires avail <= SIZE && avail <= |s.rqs[r].ring|
    ensures StealGo(s, l) == s.(rqs := s.rqs[l := CutThief(s.rqs[l], s.rqs[r], avail)][r := CutVictim(s.rqs[r], avail)])
  {
  }

  /** A steal takes half of the ring, rounded up. */
  lemma {:induction false} StealTakesHalf(s: State, l: nat, r: nat, soft: Softirq)
    requires Rings(s) && Enabled(s, Steal(l, r, soft)) && s.rqs[r].ring != []
    ensures var s' := StealStart(s, l, r, soft); l < |s'.rqs| && s'.rqs[l].pc == StealCopy(r, (|s.rqs[r].ring| + 1) / 2, 0)
  {
    HalfStart(s, l, r, soft);
  }

  /** When the copying is done, the thief's loot is the front of the victim's ring and the victim keeps the back; the
      thief's next step makes the loot its ring. */
  lemma {:induction false} StealSplits(s: State, l: nat)
    requires Inv(s) && Enabled(s, Go(l)) && s.rqs[l].pc.StealCopy? && s.rqs[l].pc.i >= s.rqs[l].pc.avail
    ensures var r, s' := s.rqs[l].pc.victim, Apply(s, Go(l));
            && r < |s'.rqs| && l < |s'.rqs| && s'.rqs[l].pc.StealTail? && |s'.rqs[l].pc.loot| == s.rqs[l].pc.avail
            && s.rqs[r].ring == s'.rqs[l].pc.loot + s'.rqs[r].ring && StealEnd(s'.rqs[l]).ring == s'.rqs[l].pc.loot
  {
    assert ThiefOk(s, l);
    var r, avail := s.rqs[l].pc.victim, s.rqs[l].pc.avail;
    CutShape(s, l, r, avail);
    var ring := s.rqs[r].ring;
    assert ring == ring[..avail] + ring[avail..];
  }

  lemma {:induction false} CutKeeps(s: State, l: nat)
    requires Inv(s) && Enabled(s, Go(l)) && s.rqs[l].pc.StealCopy? && s.rqs[l].pc.i >= s.rqs[l].pc.avail
    ensures Inv(StealGo(s, l))
  {
    var r, avail := s.rqs[l].pc.victim, s.rqs[l].pc.avail;
    assert ThiefOk(s, l) && ThiefOk(s, r) && RqOk(s.rqs[l]) && RqOk(s.rqs[r]);
    CutShape(s, l, r, avail);
    CutRqs(s.rqs[l], s.rqs[r], avail);
    var x, y := CutThief(s.rqs[l], s.rqs[r], avail), CutVictim(s.rqs[r], avail);
    CutThieves(s, StealGo(s, l), l, x, r, y);
    PairKeeps(s, StealGo(s, l), l, x, r, y);
  }

  lemma {:induction false} CutRqs(me: Rq, him: Rq, avail: nat)
    requires RqOk(me) && RqOk(him) && me.pc.StealCopy? && !him.pc.StealCopy? && !him.pc.StealTail?
    requires 0 < avail <= |him.ring| && forall j :: 0 <= j < avail ==> me.tasks[j] == him.ring[j]
    ensures RqOk(CutThief(me, him, avail)) && RqOk(CutVictim(him, avail))
    ensures Holding(CutThief(me, him, avail)) + Holding(CutVictim(him, avail)) == Holding(me) + Holding(him)
  {
    var x, y := CutThief(me, him, avail), CutVictim(him, avail);
    CutRing(him, y, avail);
    CutHolds(me, him, x, y, avail);
    CutLoot(me, x, him.ring[..avail]);
  }

  lemma {:induction false} CutLoot(me: Rq, x: Rq, loot: seq<Task>)
    requires RqOk(me) && me.pc.StealCopy? && x == me.(pc := StealTail(loot)) && 0 < |loot| <= SIZE
    requires forall j :: 0 <= j < |loot| ==> me.tasks[j] == loot[j]
    ensures RqOk(x)
  {
  }

  lemma {:induction false} CutHolds(me: Rq, him: Rq, x: Rq, y: Rq, avail: nat)
    requires me.pc.StealCopy? && avail <= |him.ring| && x == me.(pc := StealTail(him.ring[..avail]))
    requires y.ring == him.ring[avail..] && y.overflow == him.overflow && y.pc == him.pc
    ensures Holding(x) + Holding(y) == Holding(me) + Holding(him)
  {
    assert him.ring == him.ring[..avail] + him.ring[avail..];
  }

  lemma Indices(n: nat, k: nat)
    ensures (n % TWO32 + k) % TWO32 == (n + k) % TWO32
  {
  }

  lemma {:induction false} CutSlots(him: Rq, y: Rq, avail: nat)
    requires RingOk(him) && avail <= |him.ring| && y.tasks == him.tasks && y.first == him.first + avail && y.ring == him.ring[avail..]
    ensures forall i :: 0 <= i < |y.ring| ==> y.tasks[Slot(y.first + i)] == y.ring[i]
  {
    forall i | 0 <= i < |y.ring| ensures y.tasks[Slot(y.first + i)] == y.ring[i] {
      var k := avail + i;
      assert him.tasks[Slot(him.first + k)] == him.ring[k];
      assert him.first + k == y.first + i;
    }
  }

  lemma {:induction false} CutRing(him: Rq, y: Rq, avail: nat)
    requires RqOk(him) && avail <= |him.ring| && !him.pc.StealCopy? && !him.pc.StealTail?
    requires y == him.(head := (him.head + avail) % TWO32, lock := Free, first := him.first + avail, ring := him.ring[avail..])
    ensures RqOk(y)
  {
    Indices(him.first, avail);
    CutSlots(him, y, avail);
    assert y.first + |y.ring| == him.first + |him.ring|;
  }

  lemma {:induction false} CutThieves(s: State, s': State, l: nat, x: Rq, r: nat, y: Rq)
    requires l < |s.rqs| && r < |s.rqs| && l != r && s'.rqs == s.rqs[l := x][r := y] && ThiefOk(s, l) && ThiefOk(s, r)
    requires x.pc.StealTail? && x.lock == Held(l) && y.lock == Free && y.pc == s.rqs[r].pc && s.rqs[r].lock == Held(l)
    ensures ThiefOk(s', l) && ThiefOk(s', r) && !y.pc.StealCopy? && !y.pc.StealTail?
  {
  }

  // ----- every run -----

  lemma {:induction false} StepKeeps(s: State, a: Action)
    requires Inv(s) && Enabled(s, a)
    ensures Inv(Apply(s, a))
  {
    if a.Put? {
      PutKeeps(s, a);
    } else if a.Pick? {
      PickKeeps(s, a);
    } else if a.Steal? {
      StealStartKeeps(s, a.c, a.victim, a.soft);
    } else if !s.rqs[a.c].pc.StealCopy? {
      GoKeeps(s, a);
    } else if s.rqs[a.c].pc.i < s.rqs[a.c].pc.avail {
      CopyKeeps(s, a.c);
    } else {
      CutKeeps(s, a.c);
    }
  }

  /** The locked pick takes the front of the ring, and nothing from an empty one. */
  lemma {:induction false} PickTakesFront(s: State, c: nat)
    requires c < |s.rqs| && RqOk(s.rqs[c]) && Enabled(s, Pick(c))
    ensures var rq, s' := s.rqs[c], Apply(s, Pick(c));
            if rq.ring == [] then s'.rqs[c] == rq && s'.picked == s.picked
            else s'.rqs[c].ring == rq.ring[1..] && s'.picked == s.picked + multiset{rq.ring[0]}
  {
    Room(s.rqs[c]);
    if s.rqs[c].ring != [] {
      PickRing(s.rqs[c]);
    }
  }

  /** The ring of CPU `c` after a step: only its owner's last store of a put adds a task, at the back; a pick takes the
      front; a thief's store of the head takes the front part; and an empty ring becomes what its owner has stolen. */
  ghost predicate RingStep(s: State, a: Action, c: nat, ring': seq<Task>)
    requires c < |s.rqs| && a.c < |s.rqs|
  {
    var rq, by_ := s.rqs[c], s.rqs[a.c].pc;
    if a == Go(c) && rq.pc.PutTail? then ring' == rq.ring + [rq.pc.t]
    else if a == Pick(c) then ring' == if rq.ring == [] then [] else rq.ring[1..]
    else if a == Go(c) && rq.pc.StealTail? then rq.ring == [] && ring' == rq.pc.loot
    else if a.Steal? && a.c == c then rq.ring == [] && |ring'| <= 1
    else if a.Go? && by_.StealCopy? && by_.i >= by_.avail && by_.victim == c then by_.avail <= |rq.ring| && ring' == rq.ring[by_.avail..]
    else ring' == rq.ring
  }

  /** The ring of CPU `c` after the step. */
  ghost function RingAfter(s: State, a: Action, c: nat): seq<Task>
    requires Enabled(s, a)
  {
    var s' := Apply(s, a);
    if c < |s'.rqs| then s'.rqs[c].ring else []
  }

  lemma {:induction false} OwnRings(s: State, a: Action, c: nat)
    requires c < |s.rqs| && Enabled(s, a) && RqOk(s.rqs[a.c]) && !a.Steal? && !s.rqs[a.c].pc.StealCopy?
    ensures RingStep(s, a, c, RingAfter(s, a, c))
  {
    if a.Pick? {
      PickTakesFront(s, a.c);
    }
  }

  lemma {:induction false} StealRings(s: State, a: Action, c: nat)
    requires c < |s.rqs| && Enabled(s, a) && RqOk(s.rqs[a.c]) && a.Steal?
    ensures RingStep(s, a, c, RingAfter(s, a, c))
  {
    Room(s.rqs[a.c]);
  }

  lemma {:induction false} CopyRings(s: State, a: Action, c: nat)
    requires c < |s.rqs| && Enabled(s, a) && a.Go? && s.rqs[a.c].pc.StealCopy? && ThiefOk(s, a.c)
    ensures RingStep(s, a, c, RingAfter(s, a, c))
  {
  }

  /** Every step of the system is one of these for every CPU. */
  lemma {:induction false} StepRefines(s: State, a: Action, c: nat)
    requires Rings(s) && Thieves(s) && Enabled(s, a) && c < |s.rqs|
    ensures RingStep(s, a, c, RingAfter(s, a, c))
  {
    var rq := s.rqs[a.c];
    assert RqOk(rq) && ThiefOk(s, a.c);
    if a.Steal? {
      StealRings(s, a, c);
    } else if rq.pc.StealCopy? && a.Go? {
      CopyRings(s, a, c);
    } else {
      OwnRings(s, a, c);
    }
  }

  /** fifo_sched_init_percpu on every CPU. */
  ghost predicate Init(s: State) {
    && s.submitted == multiset{} && s.picked == multiset{}
    && forall c :: 0 <= c < |s.rqs| ==> |s.rqs[c].tasks| == SIZE && s.rqs[c] == Rq(s.rqs[c].tasks, 0, 0, [], Free, Idle, 0, [])
  }

  lemma {:induction false} EmptyTotal(rqs: seq<Rq>)
    requires forall c :: 0 <= c < |rqs| ==> Holding(rqs[c]) == multiset{}
    ensures Total(rqs) == multiset{}
  {
    if rqs != [] {
      EmptyTotal(rqs[1..]);
    }
  }

  ghost predicate Run(s: State, actions: seq<Action>, s': State)
    decreases |actions|
  {
    if actions == [] then s' == s
    else Enabled(s, actions[0]) && Run(Apply(s, actions[0]), actions[1..], s')
  }

  lemma {:induction false} RunKeeps(s: State, actions: seq<Action>, s': State)
    requires Inv(s) && Run(s, actions, s')
    ensures Inv(s')
    decreases |actions|
  {
    if actions != [] {
      StepKeeps(s, actions[0]);
      RunKeeps(Apply(s, actions[0]), actions[1..], s');
    }
  }

  /** Over every interleaving no task is lost or duplicated, and each ring's indices stay within its size. */
  lemma {:induction false} TasksConserved(s: State, actions: seq<Action>, s': State)
    requires Init(s) && Run(s, actions, s')
    ensures s'.submitted == s'.picked + Total(s'.rqs)
    ensures forall c :: 0 <= c < |s'.rqs| ==> Sub32(s'.rqs[c].tail, s'.rqs[c].head) == |s'.rqs[c].ring| <= SIZE
  {
    EmptyTotal(s.rqs);
    RunKeeps(s, actions, s');
    forall c | 0 <= c < |s'.rqs| ensures Sub32(s'.rqs[c].tail, s'.rqs[c].head) == |s'.rqs[c].ring| <= SIZE {
      Room(s'.rqs[c]);
    }
  }

  /** A put goes to the overflow list exactly when the ring is full, and otherwise has its task at the back of the ring
      after two stores. */
  lemma {:induction false} PutGoesTo(rq: Rq, t: Task)
    requires RqOk(rq) && rq.pc == Idle
    ensures PutStart(rq, t).pc == if |rq.ring| == SIZE then PutOverflow(t) else PutSlot(t)
    ensures |rq.ring| < SIZE ==> var rq1 := PutGo(PutStart(rq, t)); |rq1.tasks| == SIZE && PutGo(rq1).ring == rq.ring + [t] && PutGo(rq1).pc == Idle
    ensures |rq.ring| == SIZE ==> PutGo(PutStart(rq, t)).overflow == rq.overflow + [t] && PutGo(PutStart(rq, t)).pc == Idle
  {
    Room(rq);
  }

  /** What a thief finds: the front half of the ring; of an empty ring the first overflow task; and only when there is none
      of those what the softirq handlers make. */
  lemma {:induction false} StealGoesTo(s: State, l: nat, r: nat, soft: Softirq)
    requires Rings(s) && Enabled(s, Steal(l, r, soft))
    ensures var him, s' := s.rqs[r], StealStart(s, l, r, soft);
            && |s'.rqs| == |s.rqs| && (s'.rqs[l].pc.StealCopy? <==> him.ring != [])
            && (him.ring != [] ==> s'.rqs[l].pc == StealCopy(r, (|him.ring| + 1) / 2, 0) && s'.rqs[r].lock == s'.rqs[l].lock == Held(l))
            && (him.ring == [] && him.overflow != [] ==> s'.rqs[l].ring == him.overflow[..1] && s'.rqs[r] == him.(overflow := him.overflow[1..]))
            && (him.ring == [] && him.overflow == [] ==> s'.rqs[r] == him && s'.rqs[l].ring == if soft.Made? then [soft.t] else [])
            && (him.ring == [] ==> s'.rqs[l].lock == Free && s'.rqs[l].pc == Idle)
  {
    assert RqOk(s.rqs[l]) && RqOk(s.rqs[r]);
    Room(s.rqs[r]);
    Room(s.rqs[l]);
  }

  /** Overflow lists are queues: a put that finds the ring full appends at the back, a thief that finds it empty takes the
      front, and no other step changes one. In particular no CPU ever takes a task out of its own. */
  lemma {:induction false} OverflowInOrder(s: State, a: Action, c: nat)
    requires Rings(s) && Thieves(s) && Enabled(s, a) && c < |s.rqs|
    ensures var o := s.rqs[c].overflow;
            c < |Apply(s, a).rqs| && Apply(s, a).rqs[c].overflow ==
              if a == Go(c) && s.rqs[c].pc.PutOverflow? then o + [s.rqs[c].pc.t]
              else if a.Steal? && a.victim == c && s.rqs[c].ring == [] && o != [] then o[1..]
              else o
  {
    assert RqOk(s.rqs[c]) && ThiefOk(s, a.c);
    Room(s.rqs[c]);
  }

  // ----- locks -----

  /** A lock that is held is held by a thief that is copying from that queue or into it. */
  ghost predicate LockOk(s: State, c: nat)
    requires c < |s.rqs|
  {
    s.rqs[c].lock.Held? ==>
      var l := s.rqs[c].lock.by_;
      l < |s.rqs| && if l == c then s.rqs[l].pc.StealCopy? || s.rqs[l].pc.StealTail? else s.rqs[l].pc.StealCopy? && s.rqs[l].pc.victim == c
  }

  ghost predicate Locks(s: State) { forall c :: 0 <= c < |s.rqs| ==> LockOk(s, c) }

  lemma {:induction false} LocksKept(s: State, a: Action)
    requires Thieves(s) && Locks(s) && Enabled(s, a)
    ensures Locks(Apply(s, a))
  {
    SameCpus(s, a);
    var s' := Apply(s, a);
    assert ThiefOk(s, a.c);
    forall c | 0 <= c < |s'.rqs| ensures LockOk(s', c) {
      LockStep(s, a, c, s');
    }
  }

  lemma {:induction false} SameCpus(s: State, a: Action)
    requires Enabled(s, a)
    ensures |Apply(s, a).rqs| == |s.rqs|
  {
  }

  lemma {:induction false} LockStep(s: State, a: Action, c: nat, s': State)
    requires Enabled(s, a) && c < |s.rqs| && LockOk(s, c) && ThiefOk(s, a.c) && s' == Apply(s, a)
    ensures c < |s'.rqs| && LockOk(s', c)
  {
    if a.Steal? {
      StealLock(s, a, c);
    } else if a.Go? && s.rqs[a.c].pc.StealCopy? {
      CopyLock(s, a, c);
    } else {
      OwnLock(s, a, c);
    }
  }

  lemma {:induction false} OwnLock(s: State, a: Action, c: nat)
    requires Enabled(s, a) && c < |s.rqs| && LockOk(s, c) && ThiefOk(s, a.c) && !a.Steal? && !(a.Go? && s.rqs[a.c].pc.StealCopy?)
    ensures c < |Apply(s, a).rqs| && LockOk(Apply(s, a), c)
  {
  }

  lemma {:induction false} StealLock(s: State, a: Action, c: nat)
    requires Enabled(s, a) && c < |s.rqs| && LockOk(s, c) && a.Steal?
    ensures c < |Apply(s, a).rqs| && LockOk(Apply(s, a), c)
  {
  }

  lemma {:induction false} CopyLock(s: State, a: Action, c: nat)
    requires Enabled(s, a) && c < |s.rqs| && LockOk(s, c) && ThiefOk(s, a.c) && a.Go? && s.rqs[a.c].pc.StealCopy?
    ensures c < |Apply(s, a).rqs| && LockOk(Apply(s, a), c)
  {
  }

  lemma {:induction false} LocksRun(s: State, actions: seq<Action>, s': State)
    requires Inv(s) && Locks(s) && Run(s, actions, s')
    ensures Locks(s')
    decreases |actions|
  {
    if actions != [] {
      StepKeeps(s, actions[0]);
      LocksKept(s, actions[0]);
      LocksRun(Apply(s, actions[0]), actions[1..], s');
    }
  }

  /** Over every interleaving a lock is held only by a thief in the middle of a steal, whose own steps end it. */
  lemma {:induction false} LocksHeldByThieves(s: State, actions: seq<Action>, s': State)
    requires Init(s) && Run(s, actions, s')
    ensures Locks(s')
  {
    EmptyTotal(s.rqs);
    LocksRun(s, actions, s');
  }

  /** The thief alone for `n` steps. */
  ghost function Alone(s: State, l: nat, n: nat): State
    decreases n
  {
    if n == 0 || !Enabled(s, Go(l)) then s else Alone(Apply(s, Go(l)), l, n - 1)
  }

  /** A steal ends: after one step per task copied and two more the thief is idle, holds no lock, and its ring is the front
      of what the victim's was. */
  lemma {:induction false} StealEnds(s: State, l: nat)
    requires Inv(s) && l < |s.rqs| && s.rqs[l].pc.StealCopy?
    ensures var me := s.rqs[l];
            me.pc.victim < |s.rqs| && me.pc.avail <= |s.rqs[me.pc.victim].ring| && me.pc.i <= me.pc.avail &&
            var s' := Alone(s, l, me.pc.avail - me.pc.i + 2);
            && |s'.rqs| == |s.rqs| && s'.rqs[l].pc == Idle && s'.rqs[l].lock == Free && s'.rqs[me.pc.victim].lock == Free
            && s'.rqs[l].ring == s.rqs[me.pc.victim].ring[..me.pc.avail]
            && s'.rqs[me.pc.victim].ring == s.rqs[me.pc.victim].ring[me.pc.avail..]
    decreases if s.rqs[l].pc.avail > s.rqs[l].pc.i then s.rqs[l].pc.avail - s.rqs[l].pc.i else 0
  {
    assert ThiefOk(s, l);
    var r := s.rqs[l].pc.victim;
    assert RqOk(s.rqs[l]) && RqOk(s.rqs[r]);
    assert Enabled(s, Go(l));
    var s1 := Apply(s, Go(l));
    if s.rqs[l].pc.i < s.rqs[l].pc.avail {
      CopyKeeps(s, l);
      StealEnds(s1, l);
    } else {
      StealSplits(s, l);
      CutShape(s, l, r, s.rqs[l].pc.avail);
      assert Alone(s, l, 2) == Alone(s1, l, 1) == Alone(Apply(s1, Go(l)), l, 0);
    }
  }
}
