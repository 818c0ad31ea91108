/**
 Read-copy-update by generation parity: a step system of CPUs, read sections, updaters and the
 reclaiming worker, interleaved in every order. Each step is one load, one store or one locked
 section of the program. The 32-bit generation counters wrap.
 */
module Rcu {
  import opened Seqs
  import opened Words

  type Obj = int
  const NULL: Obj := 0

  /** Where rcu_worker is: reading counters for the snapshot, checking them again, or running callbacks. */
  datatype Pc = Idle | Snap(i: nat) | Check(i: nat) | Call

  /** An open read section: its CPU and the objects it has dereferenced. */
  datatype Section = Section(cpu: nat, refs: set<Obj>)

  /**
   `gen` is the counter of each CPU, `live` the objects a reader can still reach, `unlinked` those no longer
   reachable but not yet handed to rcu_free. `rcuHead` and `next` are the shared list, `head` and `last` the worker's
   variables. `called` records the callbacks run; `queue` and `batch` are the contents of the two lists, and `atSnap`
   the sections open on a CPU when the worker read its counter.
   */
  datatype State = State(
    gen: seq<nat>, open: map<nat, Section>, nextSection: nat,
    live: set<Obj>, unlinked: set<Obj>,
    rcuHead: Obj, next: map<Obj, Obj>,
    pc: Pc, head: Obj, last: seq<nat>,
    called: seq<Obj>, queue: seq<Obj>, batch: seq<Obj>, atSnap: set<nat>)

  datatype Action =
    | Publish(o: Obj)
    | Unlink(o: Obj)
    | RcuFree(o: Obj)
    | Enter(cpu: nat)
    | Deref(section: nat, o: Obj)
    | Leave(section: nat)
    | Bump(cpu: nat, step: nat)
    | Work

  predicate Odd(g: nat) { g % 2 == 1 }

  /** Every object ever handed to rcu_free. */
  function Log(s: State): seq<Obj> { s.called + s.batch + s.queue }

  /** What the environment respects: sections open only in a task (odd counter) and never cross a bump, references come
      from reachable objects, and an object is unlinked before it is handed over. */
  predicate Enabled(s: State, a: Action) {
    match a
    case Publish(o) => o != NULL && o !in s.live && o !in s.unlinked && o !in Log(s)
    case Unlink(o) => o in s.live
    case RcuFree(o) => o in s.unlinked
    case Enter(cpu) => cpu < |s.gen| && Odd(s.gen[cpu])
    case Deref(section, o) => section in s.open && o in s.live
    case Leave(section) => section in s.open
    case Bump(cpu, step) =>
      && cpu < |s.gen| && (step == 1 || (step == 2 && Odd(s.gen[cpu])))
      && forall sec :: sec in s.open ==> s.open[sec].cpu != cpu
    case Work => true
  }

  function OpenOn(s: State, cpu: nat): set<nat> {
    set sec | sec in s.open && s.open[sec].cpu == cpu
  }

  /** One step of rcu_worker. */
  function Worker(s: State): State {
    match s.pc
    case Idle =>
      if s.rcuHead == NULL then s
      else s.(head := s.rcuHead, rcuHead := NULL, pc := Snap(0), batch := s.queue, queue := [], atSnap := {})
    case Snap(i) =>
      if i < |s.gen| && i < |s.last| then
        s.(last := s.last[i := s.gen[i]], pc := Snap(i + 1), atSnap := s.atSnap + OpenOn(s, i))
      else s.(pc := Check(0))
    case Check(i) =>
      if i < |s.gen| && i < |s.last| then
        if Odd(s.gen[i]) && s.gen[i] == s.last[i] then s.(pc := Check(0)) else s.(pc := Check(i + 1))
      else s.(pc := Call)
    case Call =>
      if s.head == NULL || s.head !in s.next || s.batch == [] then s.(pc := Idle)
      else s.(head := s.next[s.head], next := s.next - {s.head}, called := s.called + [s.head], batch := s.batch[1..])
  }

  function Apply(s: State, a: Action): State
    requires Enabled(s, a)
  {
    match a
    case Publish(o) => s.(live := s.live + {o})
    case Unlink(o) => s.(live := s.live - {o}, unlinked := s.unlinked + {o})
    case RcuFree(o) => s.(unlinked := s.unlinked - {o}, next := s.next[o := s.rcuHead], rcuHead := o, queue := [o] + s.queue)
    case Enter(cpu) => s.(open := s.open[s.nextSection := Section(cpu, {})], nextSection := s.nextSection + 1)
    case Deref(section, o) => s.(open := s.open[section := Section(s.open[section].cpu, s.open[section].refs + {o})])
    case Leave(section) => s.(open := s.open - {section})
    case Bump(cpu, step) => s.(gen := s.gen[cpu := (s.gen[cpu] + step) % TWO32])
    case Work => Worker(s)
  }

  /** The start: counters as start_schedule leaves them or still zero, nothing queued. */
  predicate Init(s: State) {
    && (forall i :: 0 <= i < |s.gen| ==> s.gen[i] < TWO32) && |s.last| == |s.gen|
    && s.open == map[] && s.live == {} && s.unlinked == {} && s.atSnap == {}
    && s.rcuHead == NULL && s.next == map[] && s.pc == Idle && s.head == NULL
    && s.called == [] && s.queue == [] && s.batch == []
  }

  // ----- the invariant -----

  predicate Chain(next: map<Obj, Obj>, head: Obj, s: seq<Obj>)
    decreases |s|
  {
    if s == [] then head == NULL
    else head != NULL && head == s[0] && head in next && Chain(next, next[head], s[1..])
  }

  /** The linked lists hold what they should, and no object is anywhere twice. */
  ghost predicate Lists(s: State) {
    && Chain(s.next, s.rcuHead, s.queue) && Chain(s.next, s.head, s.batch)
    && Distinct(Log(s)) && (s.pc == Idle ==> s.batch == [])
    && NULL !in s.live && NULL !in s.unlinked && s.live !! s.unlinked
    && (forall o :: o in Log(s) ==> o !in s.live && o !in s.unlinked)
  }

  ghost predicate Bounds(s: State) {
    && |s.last| == |s.gen|
    && (s.pc.Snap? ==> s.pc.i <= |s.gen|) && (s.pc.Check? ==> s.pc.i <= |s.gen|)
    && (forall i :: 0 <= i < |s.gen| ==> s.gen[i] < TWO32)
    && (forall sec :: sec in s.atSnap ==> sec < s.nextSection)
  }

  /** A section open at the snapshot keeps its CPU's counter where the snapshot found it. */
  predicate Pinned(s: State, cpu: nat) {
    && cpu < |s.gen| && cpu < |s.last| && s.last[cpu] == s.gen[cpu]
    && ((s.pc.Snap? && cpu < s.pc.i) || (s.pc.Check? && cpu >= s.pc.i))
  }

  /** Where an object held by a section can be. A reader of a batch object was there at the snapshot, or its CPU is still
      to be read. */
  predicate Tracked(s: State, sec: nat, cpu: nat, o: Obj) {
    || o in s.live || o in s.unlinked || o in s.queue
    || (o in s.batch && (sec in s.atSnap || (s.pc.Snap? && cpu >= s.pc.i)))
  }

  predicate Reading(s: State, sec: nat, r: Section) {
    && sec < s.nextSection && r.cpu < |s.gen| && Odd(s.gen[r.cpu])
    && (sec in s.atSnap ==> Pinned(s, r.cpu))
    && (forall o :: o in r.refs ==> Tracked(s, sec, r.cpu, o))
  }

  ghost predicate Grace(s: State) {
    forall sec :: sec in s.open ==> Reading(s, sec, s.open[sec])
  }

  ghost predicate Inv(s: State) {
    Lists(s) && Bounds(s) && Grace(s)
  }

  // ----- lists -----

  lemma {:induction false} ChainFrame(next: map<Obj, Obj>, next': map<Obj, Obj>, head: Obj, s: seq<Obj>)
    requires Chain(next, head, s) && forall o :: o in s && o in next ==> o in next' && next'[o] == next[o]
    ensures Chain(next', head, s)
    decreases |s|
  {
    if s != [] {
      assert s[0] in s;
      assert forall o :: o in s[1..] ==> o in s;
      ChainFrame(next, next', next[head], s[1..]);
    }
  }

  lemma {:induction false} DistinctMiddle(a: seq<Obj>, o: Obj, b: seq<Obj>)
    requires Distinct(a + b) && o !in a + b
    ensures Distinct(a + ([o] + b))
  {
    var s, u := a + ([o] + b), a + b;
    assert forall k :: 0 <= k < |a| ==> s[k] == u[k];
    assert forall k :: |a| <= k < |u| ==> s[k + 1] == u[k];
    assert s[|a|] == o;
    forall i, j | 0 <= i < j < |s| ensures s[i] != s[j] {
      var i', j' := if i > |a| then i - 1 else i, if j > |a| then j - 1 else j;
      if i != |a| && j != |a| {
        assert s[i] == u[i'] && s[j] == u[j'];
      } else if i == |a| {
        assert s[j] == u[j'];
      } else {
        assert s[i] == u[i'];
      }
    }
  }

  lemma {:induction false} DistinctParts(a: seq<Obj>, b: seq<Obj>, c: seq<Obj>)
    requires Distinct(a + b + c)
    ensures forall o :: o in b ==> o !in a && o !in c
    ensures b != [] ==> b[0] !in b[1..]
  {
    var s := a + b + c;
    assert forall k :: 0 <= k < |a| ==> s[k] == a[k];
    assert forall k :: 0 <= k < |b| ==> s[|a| + k] == b[k];
    assert forall k :: 0 <= k < |c| ==> s[|a| + |b| + k] == c[k];
  }

  lemma {:induction false} PushLists(s: State, o: Obj)
    requires Inv(s) && o in s.unlinked
    ensures Lists(Apply(s, RcuFree(o)))
  {
    var s' := Apply(s, RcuFree(o));
    assert o !in Log(s);
    ChainFrame(s.next, s'.next, s.rcuHead, s.queue);
    ChainFrame(s.next, s'.next, s.head, s.batch);
    assert s'.queue[1..] == s.queue;
    DistinctMiddle(s.called + s.batch, o, s.queue);
    assert Log(s') == (s.called + s.batch) + ([o] + s.queue);
  }

  lemma {:induction false} CallLists(s: State)
    requires Inv(s) && s.pc == Call
    ensures Lists(Worker(s)) && (s.batch == [] <==> s.head == NULL)
    ensures s.batch != [] ==> s.head in s.next && s.head == s.batch[0] && s.head !in s.batch[1..] && s.head !in s.queue && s.head !in s.called
  {
    if s.batch != [] {
      var s' := Worker(s);
      DistinctParts(s.called, s.batch, s.queue);
      assert forall o :: o in s.batch[1..] ==> o in s.batch;
      assert s.batch[0] in s.batch;
      ChainFrame(s.next, s'.next, s.rcuHead, s.queue);
      ChainFrame(s.next, s'.next, s.next[s.head], s.batch[1..]);
      assert s.batch == [s.head] + s.batch[1..];
      assert Log(s') == Log(s);
    }
  }

  // ----- every step keeps the invariant -----

  lemma {:induction false} InitInv(s: State)
    requires Init(s)
    ensures Inv(s)
  {
  }

  lemma {:induction false} UpdaterKeeps(s: State, a: Action)
    requires Inv(s) && Enabled(s, a) && (a.Publish? || a.Unlink?)
    ensures Inv(Apply(s, a))
  {
    var s' := Apply(s, a);
    assert Log(s') == Log(s);
    forall sec | sec in s'.open ensures Reading(s', sec, s'.open[sec]) {
      assert Reading(s, sec, s.open[sec]);
    }
  }

  lemma {:induction false} FreeKeeps(s: State, a: Action)
    requires Inv(s) && Enabled(s, a) && a.RcuFree?
    ensures Inv(Apply(s, a))
  {
    PushLists(s, a.o);
    var s' := Apply(s, a);
    assert forall q :: q in s'.queue <==> q == a.o || q in s.queue;
    forall sec | sec in s'.open ensures Reading(s', sec, s'.open[sec]) {
      assert Reading(s, sec, s.open[sec]);
    }
  }

  lemma {:induction false} ReaderKeeps(s: State, a: Action)
    requires Inv(s) && Enabled(s, a) && (a.Enter? || a.Deref? || a.Leave?)
    ensures Inv(Apply(s, a))
  {
    var s' := Apply(s, a);
    assert Log(s') == Log(s);
    forall sec | sec in s'.open ensures Reading(s', sec, s'.open[sec]) {
      if sec in s.open {
        assert Reading(s, sec, s.open[sec]);
        forall o | o in s'.open[sec].refs ensures Tracked(s', sec, s'.open[sec].cpu, o) {
          assert o in s.open[sec].refs ==> Tracked(s, sec, s.open[sec].cpu, o);
        }
      }
    }
  }

  /** A bump shows: the counter moves on to another value, also where it wraps, odd in a task and even in the scheduler. */
  lemma {:induction false} BumpKeeps(s: State, a: Action)
    requires Inv(s) && Enabled(s, a) && a.Bump?
    ensures Inv(Apply(s, a))
    ensures var g, g' := s.gen[a.cpu], Apply(s, a).gen[a.cpu];
            && g' != g && (g' == g + a.step || g' + TWO32 == g + a.step)
            && (Odd(g') <==> a.step == 2 || !Odd(g))
    ensures forall c :: 0 <= c < |s.gen| && c != a.cpu ==> Apply(s, a).gen[c] == s.gen[c]
  {
    var s' := Apply(s, a);
    assert Log(s') == Log(s);
    forall sec | sec in s'.open ensures Reading(s', sec, s'.open[sec]) {
      assert Reading(s, sec, s.open[sec]);
      forall o | o in s'.open[sec].refs ensures Tracked(s', sec, s'.open[sec].cpu, o) {
        assert Tracked(s, sec, s.open[sec].cpu, o);
      }
    }
  }

  lemma {:induction false} GrabKeeps(s: State)
    requires Inv(s) && s.pc == Idle
    ensures Inv(Worker(s))
  {
    var s' := Worker(s);
    assert Log(s') == Log(s);
    forall sec | sec in s'.open ensures Reading(s', sec, s'.open[sec]) {
      assert Reading(s, sec, s.open[sec]);
      forall o | o in s'.open[sec].refs ensures Tracked(s', sec, s'.open[sec].cpu, o) {
        assert Tracked(s, sec, s.open[sec].cpu, o);
      }
    }
  }

  lemma {:induction false} ListsKeep(s: State, s': State)
    requires Lists(s) && s'.pc != Idle && s'.next == s.next && s'.rcuHead == s.rcuHead && s'.head == s.head
    requires s'.queue == s.queue && s'.batch == s.batch && s'.called == s.called && s'.live == s.live && s'.unlinked == s.unlinked
    ensures Lists(s')
  {
  }

  lemma {:induction false} TrackedMore(s: State, s': State, sec: nat, r: Section)
    requires forall o :: o in r.refs ==> Tracked(s, sec, r.cpu, o)
    requires s'.queue == s.queue && s'.batch == s.batch && s'.live == s.live && s'.unlinked == s.unlinked
    requires sec in s.atSnap || (s.pc.Snap? && r.cpu >= s.pc.i) ==> sec in s'.atSnap || (s'.pc.Snap? && r.cpu >= s'.pc.i)
    ensures forall o :: o in r.refs ==> Tracked(s', sec, r.cpu, o)
  {
    forall o | o in r.refs ensures Tracked(s', sec, r.cpu, o) {
      assert Tracked(s, sec, r.cpu, o);
    }
  }

  lemma {:induction false} SnapKeeps(s: State)
    requires Inv(s) && s.pc.Snap?
    ensures Inv(Worker(s))
  {
    var s' := Worker(s);
    ListsKeep(s, s');
    forall sec | sec in s'.open ensures Reading(s', sec, s'.open[sec]) {
      var r := s.open[sec];
      assert Reading(s, sec, r);
      TrackedMore(s, s', sec, r);
    }
  }

  /** The check does not get past a CPU whose counter a section pins. */
  lemma {:induction false} PinnedBlocks(s: State, cpu: nat)
    requires s.pc.Check? && |s.last| == |s.gen| && cpu < |s.gen| && Odd(s.gen[cpu])
    ensures Pinned(s, cpu) ==> Pinned(Worker(s), cpu)
  {
  }

  lemma {:induction false} CheckReading(s: State, sec: nat, r: Section)
    requires s.pc.Check? && |s.last| == |s.gen| && Reading(s, sec, r)
    ensures Reading(Worker(s), sec, r)
  {
    PinnedBlocks(s, r.cpu);
    TrackedMore(s, Worker(s), sec, r);
  }

  lemma {:induction false} CheckKeeps(s: State)
    requires Inv(s) && s.pc.Check?
    ensures Inv(Worker(s))
  {
    var s' := Worker(s);
    ListsKeep(s, s');
    forall sec | sec in s'.open ensures Reading(s', sec, s'.open[sec]) {
      assert Reading(s, sec, s.open[sec]);
      CheckReading(s, sec, s.open[sec]);
    }
  }

  lemma {:induction false} CallKeeps(s: State)
    requires Inv(s) && s.pc == Call
    ensures Inv(Worker(s))
  {
    var s' := Worker(s);
    CallLists(s);
    forall sec | sec in s'.open ensures Reading(s', sec, s'.open[sec]) {
      var r := s.open[sec];
      assert Reading(s, sec, r);
      forall o | o in r.refs ensures Tracked(s', sec, r.cpu, o) {
        assert Tracked(s, sec, r.cpu, o);
      }
    }
  }

  /** No counter a section depends on moves, and no section is left out of the check. */
  lemma {:induction false} WorkKeeps(s: State)
    requires Inv(s)
    ensures Inv(Worker(s))
  {
    match s.pc {
      case Idle => GrabKeeps(s);
      case Snap(i) => SnapKeeps(s);
      case Check(i) => CheckKeeps(s);
      case Call => CallKeeps(s);
    }
  }

  lemma {:induction false} StepKeeps(s: State, a: Action)
    requires Inv(s) && Enabled(s, a)
    ensures Inv(Apply(s, a))
  {
    match a {
      case Publish(o) => UpdaterKeeps(s, a);
      case Unlink(o) => UpdaterKeeps(s, a);
      case RcuFree(o) => FreeKeeps(s, a);
      case Enter(cpu) => ReaderKeeps(s, a);
      case Deref(section, o) => ReaderKeeps(s, a);
      case Leave(section) => ReaderKeeps(s, a);
      case Bump(cpu, step) => BumpKeeps(s, a);
      case Work => WorkKeeps(s);
    }
  }

  // ----- runs -----

  /** The actions of a run are enabled one after the other, and lead from `s` to `s'`. */
  ghost predicate Run(s: State, actions: seq<Action>, s': State)
    decreases |actions|
  {
    if actions == [] then s' == s
    else Enabled(s, actions[0]) && Run(Apply(s, actions[0]), actions[1..], s')
  }

  lemma {:induction false} RunKeeps(s: State, actions: seq<Action>, s': State)
    requires Inv(s) && Run(s, actions, s')
    ensures Inv(s')
    decreases |actions|
  {
    if actions != [] {
      StepKeeps(s, actions[0]);
      RunKeeps(Apply(s, actions[0]), actions[1..], s');
    }
  }

  /** Safety of every run: no section holds an object whose callback has run, and no callback runs twice. */
  lemma {:induction false} NoReaderHoldsFreed(s: State, actions: seq<Action>, s': State)
    requires Init(s) && Run(s, actions, s')
    ensures forall sec, o :: sec in s'.open && o in s'.open[sec].refs ==> o !in s'.called
    ensures Distinct(s'.called)
  {
    InitInv(s);
    RunKeeps(s, actions, s');
    assert forall k :: 0 <= k < |s'.called| ==> Log(s')[k] == s'.called[k];
    assert Log(s') == [] + s'.called + (s'.batch + s'.queue);
    DistinctParts([], s'.called, s'.batch + s'.queue);
    forall sec, o | sec in s'.open && o in s'.open[sec].refs ensures o !in s'.called {
      assert Reading(s', sec, s'.open[sec]) && Tracked(s', sec, s'.open[sec].cpu, o);
      assert o in s'.called ==> o in Log(s');
      assert o in s'.queue || o in s'.batch ==> o in s'.batch + s'.queue;
    }
  }

  /** A callback runs only once every section open at the snapshot has ended, and only for a queued object that no
      section still holds. */
  lemma {:induction false} CallbackAfterGrace(s: State, actions: seq<Action>, s': State)
    requires Init(s) && Run(s, actions, s')
    ensures var s'' := Worker(s');
            s''.called != s'.called ==>
              && (forall sec :: sec in s'.atSnap ==> sec !in s'.open)
              && s''.called == s'.called + [s'.head] && s'.batch != [] && s'.head == s'.batch[0] && s'.head !in s'.called
              && (forall sec :: sec in s'.open ==> s'.head !in s'.open[sec].refs)
  {
    InitInv(s);
    RunKeeps(s, actions, s');
    var s'' := Worker(s');
    if s''.called != s'.called {
      CallLists(s');
      forall sec | sec in s'.open ensures sec !in s'.atSnap && s'.head !in s'.open[sec].refs {
        assert Reading(s', sec, s'.open[sec]);
        assert s'.head in Log(s');
        assert s'.head in s'.open[sec].refs ==> Tracked(s', sec, s'.open[sec].cpu, s'.head);
      }
    }
  }

  // ----- nothing handed over is lost -----

  /** What the actions of a run hand to rcu_free. */
  ghost function Freed(actions: seq<Action>): seq<Obj> {
    if actions == [] then []
    else (if actions[0].RcuFree? then [actions[0].o] else []) + Freed(actions[1..])
  }

  /** Every object handed over is waiting in one of the lists or its callback has run, and no step loses one. */
  lemma {:induction false} StepAccounts(s: State, a: Action)
    requires Inv(s) && Enabled(s, a)
    ensures multiset(Log(Apply(s, a))) == multiset(Log(s)) + multiset(Freed([a]))
  {
    FreedFirst([a]);
    if a.Work? {
      WorkAccounts(s);
    } else if a.RcuFree? {
      FreeAccounts(s, a);
    } else {
      OtherAccounts(s, a);
    }
  }

  lemma {:induction false} OtherAccounts(s: State, a: Action)
    requires Enabled(s, a) && !a.Work? && !a.RcuFree?
    ensures Log(Apply(s, a)) == Log(s)
  {
  }

  lemma {:induction false} FreeAccounts(s: State, a: Action)
    requires Enabled(s, a) && a.RcuFree?
    ensures multiset(Log(Apply(s, a))) == multiset(Log(s)) + multiset([a.o])
  {
    PushAccounts(s.called + s.batch, a.o, s.queue);
  }

  lemma {:induction false} FreedFirst(actions: seq<Action>)
    requires actions != []
    ensures multiset(Freed(actions)) == multiset(if actions[0].RcuFree? then [actions[0].o] else []) + multiset(Freed(actions[1..]))
  {
  }

  lemma {:induction false} PushAccounts(a: seq<Obj>, o: Obj, b: seq<Obj>)
    ensures multiset(a + ([o] + b)) == multiset(a + b) + multiset([o])
  {
  }

  lemma {:induction false} WorkAccounts(s: State)
    requires Inv(s)
    ensures Log(Worker(s)) == Log(s)
  {
    if s.pc == Call {
      CallLists(s);
      if s.batch != [] {
        assert s.batch == [s.head] + s.batch[1..];
      }
    }
  }

  /** Over a whole run, the callbacks run and the objects still waiting are exactly the objects handed over. */
  lemma {:induction false} RunAccounts(s: State, actions: seq<Action>, s': State)
    requires Inv(s) && Run(s, actions, s')
    ensures multiset(Log(s')) == multiset(Log(s)) + multiset(Freed(actions))
    decreases |actions|
  {
    if actions != [] {
      var a := actions[0];
      StepKeeps(s, a);
      StepAccounts(s, a);
      RunAccounts(Apply(s, a), actions[1..], s');
      FreedFirst([a]);
      FreedFirst(actions);
    }
  }

  lemma {:induction false} AllAccounted(s: State, actions: seq<Action>, s': State)
    requires Init(s) && Run(s, actions, s')
    ensures multiset(Log(s')) == multiset(Freed(actions))
  {
    InitInv(s);
    RunAccounts(s, actions, s');
  }

  // ----- progress of the worker -----

  /** The worker alone for `n` steps. */
  ghost function Solo(s: State, n: nat): State
    decreases n
  {
    if n == 0 then s else Solo(Worker(s), n - 1)
  }

  /** The CPU still runs what it ran at the snapshot. */
  predicate Stuck(s: State, c: nat) {
    c < |s.gen| && c < |s.last| && Odd(s.gen[c]) && s.gen[c] == s.last[c]
  }

  lemma {:induction false} Passes(s: State)
    requires s.pc.Check? && s.pc.i <= |s.gen| == |s.last| && forall c :: s.pc.i <= c < |s.gen| ==> !Stuck(s, c)
    ensures Solo(s, |s.gen| - s.pc.i + 1).pc == Call
    decreases |s.gen| - s.pc.i
  {
    var s' := Worker(s);
    if s.pc.i == |s.gen| {
      assert Solo(s, 1) == Solo(s', 0);
    } else {
      assert !Stuck(s, s.pc.i) && s' == s.(pc := Check(s.pc.i + 1));
      assert forall c :: Stuck(s', c) <==> Stuck(s, c);
      Passes(s');
    }
  }

  lemma {:induction false} Waits(s: State, c: nat, n: nat)
    requires s.pc.Check? && s.pc.i <= c && Stuck(s, c)
    ensures Solo(s, n).pc.Check?
    decreases n
  {
    if n > 0 {
      var s' := Worker(s);
      assert s' == s.(pc := s'.pc) && Stuck(s', c);
      Waits(s', c, n - 1);
    }
  }

  /** One pass over the counters releases the batch exactly when no CPU is stuck. */
  lemma {:induction false} ReleasedIff(s: State)
    requires s.pc == Check(0) && |s.gen| == |s.last|
    ensures Solo(s, |s.gen| + 1).pc == Call <==> forall c :: 0 <= c < |s.gen| ==> !Stuck(s, c)
  {
    if forall c :: 0 <= c < |s.gen| ==> !Stuck(s, c) {
      Passes(s);
    } else {
      var c :| 0 <= c < |s.gen| && Stuck(s, c);
      Waits(s, c, |s.gen| + 1);
    }
  }

  lemma {:induction false} SoloPlus(s: State, a: nat, b: nat)
    ensures Solo(s, a + b) == Solo(Solo(s, a), b)
    decreases a
  {
    if a > 0 {
      SoloPlus(Worker(s), a - 1, b);
    }
  }

  /** Once released, every callback of the batch runs, in the order of the list. */
  lemma {:induction false} Drains(s: State)
    requires Inv(s) && s.pc == Call
    ensures Solo(s, |s.batch| + 1).pc == Idle
    ensures Solo(s, |s.batch| + 1).called == s.called + s.batch && Solo(s, |s.batch| + 1).queue == s.queue
    decreases |s.batch|
  {
    CallLists(s);
    CallKeeps(s);
    var s' := Worker(s);
    if s.batch == [] {
      assert Solo(s, 1) == Solo(s', 0);
    } else {
      Drains(s');
      assert s.called + s.batch == s'.called + s'.batch;
    }
  }

  lemma {:induction false} Snapshot(s: State)
    requires Inv(s) && s.pc.Snap? && forall c :: 0 <= c < s.pc.i ==> s.last[c] == s.gen[c]
    ensures var s' := Solo(s, |s.gen| - s.pc.i + 1);
            s' == s.(pc := Check(0), last := s.gen, atSnap := s'.atSnap) && Inv(s')
    decreases |s.gen| - s.pc.i
  {
    SnapKeeps(s);
    var s' := Worker(s);
    if s.pc.i == |s.gen| {
      assert Solo(s, 1) == Solo(s', 0);
      assert s.last == s.gen;
    } else {
      Snapshot(s');
    }
  }

  lemma {:induction false} CheckFrame(s: State, n: nat)
    requires Inv(s) && s.pc.Check? && forall c :: s.pc.i <= c < |s.gen| ==> !Stuck(s, c)
    requires n <= |s.gen| - s.pc.i + 1
    ensures Solo(s, n) == s.(pc := Solo(s, n).pc) && Inv(Solo(s, n))
    decreases n
  {
    if n > 0 {
      CheckKeeps(s);
      var s' := Worker(s);
      if s.pc.i < |s.gen| {
        assert !Stuck(s, s.pc.i);
        assert forall c :: Stuck(s', c) <==> Stuck(s, c);
        CheckFrame(s', n - 1);
      } else {
        assert Solo(s, 1) == Solo(s', 0);
      }
    }
  }

  /** With no task running anywhere, one round of the worker runs the callback of every object that waits. */
  lemma {:induction false} QuietRound(s: State)
    requires Inv(s) && s.pc == Idle && s.queue != [] && forall c :: 0 <= c < |s.gen| ==> !Odd(s.gen[c])
    ensures var s' := Solo(s, 2 * |s.gen| + |s.queue| + 4);
            s'.pc == Idle && s'.called == s.called + s.queue && s'.queue == []
  {
    var n := |s.gen|;
    GrabKeeps(s);
    var s1 := Worker(s);
    QuietPass(s1);
    Drains(Solo(s1, 2 * n + 2));
    SoloPlus(s1, 2 * n + 2, |s.queue| + 1);
  }

  lemma {:induction false} QuietPass(s: State)
    requires Inv(s) && s.pc == Snap(0) && forall c :: 0 <= c < |s.gen| ==> !Odd(s.gen[c])
    ensures var s' := Solo(s, 2 * |s.gen| + 2);
            Inv(s') && s' == s.(pc := Call, last := s.gen, atSnap := s'.atSnap)
  {
    var n := |s.gen|;
    Snapshot(s);
    var s' := Solo(s, n + 1);
    assert forall c :: !Stuck(s', c);
    Passes(s');
    CheckFrame(s', n + 1);
    SoloPlus(s, n + 1, n + 1);
  }

  /** A switch inside a read section would break safety: with one, every other rule kept, a callback runs for an object
      that a section still holds. */
  lemma SwitchInsideSection(s0: State)
    requires Init(s0) && s0.gen == [1] && s0.nextSection == 0
    ensures var s1 := Apply(s0, Publish(7));
            Enabled(s1, Enter(0)) &&
            var s2 := Apply(s1, Enter(0));
            Enabled(s2, Deref(0, 7)) &&
            var s3 := Apply(s2, Deref(0, 7));
            Enabled(s3, Unlink(7)) && Enabled(Apply(s3, Unlink(7)), RcuFree(7)) &&
            var s4 := Solo(Apply(Apply(s3, Unlink(7)), RcuFree(7)), 3);
            var s5 := Solo(s4.(gen := [3]), 3);
            s5.called == [7] && 0 in s5.open && 7 in s5.open[0].refs
  {
    var s3 := Apply(Apply(Apply(s0, Publish(7)), Enter(0)), Deref(0, 7));
    HandedOver(s0);
    Reclaims(Apply(Apply(s3, Unlink(7)), RcuFree(7)));
  }

  /** Object 7 waits to be reclaimed while section 0 holds it. */
  predicate Waiting(t: State) {
    && t.gen == [1] && t.pc == Idle && t.rcuHead == 7 && t.next == map[7 := NULL] && t.queue == [7] && t.batch == []
    && t.called == [] && |t.last| == 1 && t.open == map[0 := Section(0, {7})]
  }

  lemma HandedOver(s0: State)
    requires Init(s0) && s0.gen == [1] && s0.nextSection == 0
    ensures var s1 := Apply(s0, Publish(7));
            Enabled(s1, Enter(0)) &&
            var s2 := Apply(s1, Enter(0));
            Enabled(s2, Deref(0, 7)) &&
            var s3 := Apply(s2, Deref(0, 7));
            Enabled(s3, Unlink(7)) && Enabled(Apply(s3, Unlink(7)), RcuFree(7)) && Waiting(Apply(Apply(s3, Unlink(7)), RcuFree(7)))
  {
    var s3 := Apply(Apply(Apply(s0, Publish(7)), Enter(0)), Deref(0, 7));
    assert s3.open == map[0 := Section(0, {7})] by {
      assert {} + {7} == {7};
    }
    var t := Apply(Apply(s3, Unlink(7)), RcuFree(7));
    assert t.next == map[7 := NULL] && t.queue == [7];
  }

  lemma Reclaims(t0: State)
    requires Waiting(t0)
    ensures var s5 := Solo(Solo(t0, 3).(gen := [3]), 3); s5.called == [7] && s5.open == t0.open
  {
    var t1 := Worker(t0);
    var t2 := Worker(t1);
    var t3 := Worker(t2);
    assert t3.pc == Check(0) && t3.last == [1] && t3.batch == [7] && t3.head == 7;
    assert Solo(t0, 3) == Solo(t1, 2) == Solo(t2, 1) == Solo(t3, 0);
    var u0 := t3.(gen := [3]);
    var u1 := Worker(u0);
    var u2 := Worker(u1);
    var u3 := Worker(u2);
    assert u2.pc == Call && u3.called == [7];
    assert Solo(u0, 3) == Solo(u1, 2) == Solo(u2, 1) == Solo(u3, 0);
  }
}
