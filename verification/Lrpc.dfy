/**
 The single-producer single-consumer channel of lrpc.h, one load or store at a time: the sender's and
 the receiver's steps interleave in every order. All counters are 32-bit words that wrap.
 */
module Lrpc {
  import opened Words

  datatype Msg = Msg(cmd: nat, payload: nat)

  /** lrpc_send: about to reload the head, to store the payload, or to store the command word. */
  datatype SendPc =
    | SIdle
    | SReload(m: Msg)
    | SFill(m: Msg)
    | SPublish(m: Msg, slot: nat, word: nat)

  /** lrpc_recv: about to read the payload, or to write the head back. */
  datatype RecvPc =
    | RIdle
    | RRead(slot: nat, word: nat)
    | RWriteBack

  /**
   The table and the four counters, the two program counters, and the history: accepted messages, delivered messages,
   and how many messages `outHead` stands for.
   */
  datatype State = State(
    tbl: seq<Msg>, outHead: nat, outTail: nat, inHead: nat, headWb: nat,
    send: SendPc, recv: RecvPc,
    sent: seq<Msg>, received: seq<Msg>, seen: nat)

  datatype Action = Send(m: Msg) | SendStep | RecvStep

  function Size(s: State): nat { |s.tbl| }

  /** `i & mask`. */
  function Slot(i: nat, size: nat): (r: nat)
    requires size > 0
    ensures r < size
  {
    And(i, size - 1)
  }

  /** The parity bit that marks message `i`. */
  function Parity(i: nat, size: nat): nat { if And(i, size) != 0 then 0 else TWO63 }

  predicate Marked(word: nat) { word >= TWO63 }

  /** The slots the two sides are working on lie in the table. */
  predicate Fits(s: State) {
    && Size(s) > 0
    && (s.send.SPublish? ==> s.send.slot < Size(s)) && (s.recv.RRead? ==> s.recv.slot < Size(s))
  }

  predicate Enabled(s: State, a: Action) {
    && Fits(s)
    && (a.Send? ==> s.send == SIdle && a.m.cmd < TWO63)
    && (a.SendStep? ==> s.send != SIdle)
  }

  /** lrpc_send after the first full test. */
  function Sender(s: State): State
    requires Fits(s)
  {
    match s.send
    case SIdle => s
    case SReload(m) =>
      var s1 := s.(outHead := s.headWb, seen := Written(s));
      if Sub32(s.outTail, s.headWb) == Size(s) then s1.(send := SIdle) else s1.(send := SFill(m))
    case SFill(m) =>
      var slot := Slot(s.outTail, Size(s));
      var word := m.cmd + Parity(s.outTail, Size(s));
      s.(outTail := (s.outTail + 1) % TWO32, tbl := s.tbl[slot := s.tbl[slot].(payload := m.payload)],
      send := SPublish(m, slot, word))
    case SPublish(m, slot, word) =>
      s.(tbl := s.tbl[slot := s.tbl[slot].(cmd := word)], send := SIdle, sent := s.sent + [m])
  }

  /** lrpc_recv. */
  function Receiver(s: State): State
    requires Fits(s)
  {
    match s.recv
    case RIdle =>
      var slot := Slot(s.inHead, Size(s));
      var word := s.tbl[slot].cmd;
      if Marked(word) != (Parity(s.inHead, Size(s)) != 0) then s
      else s.(inHead := (s.inHead + 1) % TWO32, recv := RRead(slot, word))
    case RRead(slot, word) =>
      s.(received := s.received + [Msg(word % TWO63, s.tbl[slot].payload)], recv := RWriteBack)
    case RWriteBack => s.(headWb := s.inHead, recv := RIdle)
  }

  function Apply(s: State, a: Action): State
    requires Enabled(s, a)
  {
    match a
    case Send(m) => s.(send := if Sub32(s.outTail, s.outHead) >= Size(s) then SReload(m) else SFill(m))
    case SendStep => Sender(s)
    case RecvStep => Receiver(s)
  }

  /** lrpc_init over a zeroed table whose size is a power of two. */
  ghost predicate Init(s: State, e: nat) {
    && e < 32 && Size(s) == Pow2(e) && (forall i :: 0 <= i < Size(s) ==> s.tbl[i].cmd == 0)
    && s.outHead == 0 && s.outTail == 0 && s.inHead == 0 && s.headWb == 0 && s.seen == 0
    && s.send == SIdle && s.recv == RIdle && s.sent == [] && s.received == []
  }

  // ----- the counters as unbounded counts -----

  function Tail(s: State): nat { |s.sent| + if s.send.SPublish? then 1 else 0 }

  function Head(s: State): nat { |s.received| + if s.recv.RRead? then 1 else 0 }

  /** How many messages the receiver has written back. */
  function Written(s: State): nat { if s.recv.RWriteBack? && |s.received| > 0 then |s.received| - 1 else |s.received| }

  /** Message `k` goes to slot `k` modulo the size, with its parity bit set in even laps. */
  function Pos(k: nat, size: nat): (r: nat)
    requires size > 0
    ensures r < size
  {
    if k < size then k else Pos(k - size, size)
  }

  predicate EvenLap(k: nat, size: nat)
    requires size > 0
  {
    k < size || !EvenLap(k - size, size)
  }

  function Word(k: nat, cmd: nat, size: nat): nat
    requires size > 0
  {
    cmd + if EvenLap(k, size) then TWO63 else 0
  }

  ghost predicate Sized(s: State) { exists e: nat :: e < 32 && Size(s) == Pow2(e) }

  ghost predicate Counters(s: State) {
    && s.outTail == Tail(s) % TWO32 && s.inHead == Head(s) % TWO32
    && s.headWb == Written(s) % TWO32 && s.outHead == s.seen % TWO32
    && s.seen <= Written(s) && Head(s) <= |s.sent| && Tail(s) <= s.seen + Size(s)
    && (s.send.SFill? ==> Tail(s) < s.seen + Size(s))
    && (s.recv.RWriteBack? ==> |s.received| > 0)
  }

  /** What the two sides are in the middle of. */
  ghost predicate Local(s: State)
    requires Size(s) > 0
  {
    && (!s.send.SIdle? ==> s.send.m.cmd < TWO63)
    && (s.send.SPublish? ==>
          && s.send.slot == Pos(|s.sent|, Size(s)) && s.send.word == Word(|s.sent|, s.send.m.cmd, Size(s))
          && s.tbl[s.send.slot].payload == s.send.m.payload)
    && (s.recv.RRead? ==>
          && |s.received| < |s.sent| && s.recv.slot == Pos(|s.received|, Size(s))
          && s.recv.word == Word(|s.received|, s.sent[|s.received|].cmd, Size(s)))
  }

  /** Message `k` stands in its slot. */
  ghost predicate Stored(s: State, k: nat)
    requires Size(s) > 0 && k < |s.sent|
  {
    s.tbl[Pos(k, Size(s))] == Msg(Word(k, s.sent[k].cmd, Size(s)), s.sent[k].payload)
  }

  /** The slot that message `k` will take still carries the mark of the lap before. */
  ghost predicate Awaiting(s: State, k: nat)
    requires Size(s) > 0
  {
    Marked(s.tbl[Pos(k, Size(s))].cmd) != EvenLap(k, Size(s))
  }

  ghost predicate Table(s: State)
    requires Size(s) > 0
  {
    && (forall k :: Written(s) <= k < |s.sent| ==> Stored(s, k))
    && (forall k :: |s.sent| <= k < |s.sent| + Size(s) ==> Awaiting(s, k))
  }

  ghost predicate History(s: State) {
    && (forall k :: 0 <= k < |s.sent| ==> s.sent[k].cmd < TWO63)
    && |s.received| <= |s.sent| && s.received == s.sent[..|s.received|]
  }

  ghost predicate Inv(s: State) {
    Sized(s) && Fits(s) && Counters(s) && Local(s) && Table(s) && History(s)
  }

  // ----- words and counts -----

  lemma {:induction false} PosMod(k: nat, size: nat)
    requires size > 0
    ensures Pos(k, size) == k % size && (EvenLap(k, size) <==> (k / size) % 2 == 0)
  {
    if k >= size {
      PosMod(k - size, size);
      NextLap(k - size, size);
    } else {
      QuotRem(k, size, 0, k);
    }
  }

  lemma {:induction false} PosDistinct(a: nat, b: nat, size: nat)
    requires size > 0 && a < b < a + size
    ensures Pos(a, size) != Pos(b, size)
  {
    PosMod(a, size);
    PosMod(b, size);
    ModDistinct(a, b, size);
  }

  /** Bits of a wrapped counter that lie below 2^32 are those of the unbounded count. */
  lemma {:induction false} WrapBits(k: nat, e: nat)
    requires e < 32
    ensures (k % TWO32) % Pow2(e) == k % Pow2(e) && ((k % TWO32) / Pow2(e)) % 2 == (k / Pow2(e)) % 2
  {
    var d, p := Pow2(e), Pow2(31 - e);
    Pow2Divides(e);
    assert TWO32 == (p * 2) * d by {
      Regroup(p, d);
    }
    ModMod(k, p * 2, d);
    ModMod(k / d, p, 2);
  }

  lemma Regroup(p: int, d: int)
    ensures p * (2 * d) == (p * 2) * d
  {
  }

  /** The wrapped counter selects the slot and the parity of the unbounded count. */
  lemma {:induction false} SlotOf(s: State, k: nat)
    requires Sized(s)
    ensures 0 < Size(s) < TWO32 && Slot(k % TWO32, Size(s)) == Pos(k, Size(s))
    ensures Parity(k % TWO32, Size(s)) == if EvenLap(k, Size(s)) then TWO63 else 0
  {
    var e: nat :| e < 32 && Size(s) == Pow2(e);
    Pow2Divides(e);
    AndMask(k % TWO32, e);
    AndBit(k % TWO32, e);
    WrapBits(k, e);
    PosMod(k, Size(s));
  }

  lemma {:induction false} Sub32Close(a: nat, b: nat)
    requires b <= a < b + TWO32
    ensures Sub32(a % TWO32, b % TWO32) == a - b
  {
  }

  // ----- every step keeps the invariant -----

  lemma {:induction false} InitInv(s: State, e: nat)
    requires Init(s, e)
    ensures Inv(s)
  {
    forall k | 0 <= k < Size(s) ensures Awaiting(s, k) {
    }
  }

  /** The table still holds what it should when the receiver has only moved on. */
  lemma {:induction false} TableSame(s: State, s': State)
    requires Size(s) > 0 && Table(s) && s'.tbl == s.tbl && s'.sent == s.sent && Written(s') >= Written(s)
    ensures Table(s')
  {
    forall k | Written(s') <= k < |s'.sent| ensures Stored(s', k) {
      assert Stored(s, k);
    }
    forall k | |s'.sent| <= k < |s'.sent| + Size(s') ensures Awaiting(s', k) {
      assert Awaiting(s, k);
    }
  }

  lemma {:induction false} SendKeeps(s: State, m: Msg)
    requires Inv(s) && Enabled(s, Send(m))
    ensures Inv(Apply(s, Send(m))) && (Apply(s, Send(m)).send.SReload? <==> |s.sent| == s.seen + Size(s))
  {
    SlotOf(s, 0);
    Sub32Close(Tail(s), s.seen);
    TableSame(s, Apply(s, Send(m)));
  }

  lemma {:induction false} ReloadKeeps(s: State)
    requires Inv(s) && s.send.SReload?
    ensures Inv(Sender(s))
    ensures Sender(s).send == SIdle <==> |s.sent| - Written(s) == Size(s)
  {
    SlotOf(s, 0);
    Sub32Close(Tail(s), Written(s));
    TableSame(s, Sender(s));
  }

  lemma {:induction false} FillTable(s: State, s': State, slot: nat, payload: nat)
    requires Size(s) > 0 && Table(s) && |s.sent| < Written(s) + Size(s)
    requires slot == Pos(|s.sent|, Size(s)) && s'.tbl == s.tbl[slot := s.tbl[slot].(payload := payload)]
    requires s'.sent == s.sent && Written(s') == Written(s)
    ensures Table(s')
  {
    forall k | Written(s') <= k < |s'.sent| ensures Stored(s', k) {
      assert Stored(s, k);
      PosDistinct(k, |s.sent|, Size(s));
    }
    forall k | |s'.sent| <= k < |s'.sent| + Size(s') ensures Awaiting(s', k) {
      assert Awaiting(s, k);
    }
  }

  lemma {:induction false} FillKeeps(s: State)
    requires Inv(s) && s.send.SFill?
    ensures Inv(Sender(s))
  {
    SlotOf(s, |s.sent|);
    FillTable(s, Sender(s), Pos(|s.sent|, Size(s)), s.send.m.payload);
    FillLocal(s);
    FillCounters(s);
  }

  lemma {:induction false} FillLocal(s: State)
    requires Sized(s) && Fits(s) && Local(s) && s.send.SFill? && s.outTail == |s.sent| % TWO32
    ensures Fits(Sender(s)) && Local(Sender(s))
  {
    SlotOf(s, |s.sent|);
  }

  lemma {:induction false} FillCounters(s: State)
    requires Fits(s) && Counters(s) && s.send.SFill?
    ensures Counters(Sender(s))
  {
    Increment(|s.sent|);
  }

  lemma Increment(n: nat)
    ensures (n % TWO32 + 1) % TWO32 == (n + 1) % TWO32
  {
  }

  lemma {:induction false} PublishTable(s: State, s': State, m: Msg, slot: nat)
    requires Size(s) > 0 && Table(s) && |s.sent| < Written(s) + Size(s) && Written(s) <= |s.sent| && m.cmd < TWO63
    requires slot == Pos(|s.sent|, Size(s)) && s.tbl[slot].payload == m.payload
    requires s'.tbl == s.tbl[slot := s.tbl[slot].(cmd := Word(|s.sent|, m.cmd, Size(s)))]
    requires s'.sent == s.sent + [m] && Written(s') == Written(s)
    ensures Table(s')
  {
    var n, size := |s.sent|, Size(s);
    forall k | Written(s') <= k < |s'.sent| ensures Stored(s', k) {
      if k < n {
        assert Stored(s, k);
        PosDistinct(k, n, size);
      }
    }
    forall k | |s'.sent| <= k < |s'.sent| + size ensures Awaiting(s', k) {
      if k < n + size {
        assert Awaiting(s, k);
        PosDistinct(n, k, size);
      }
    }
  }

  lemma {:induction false} PublishKeeps(s: State)
    requires Inv(s) && s.send.SPublish?
    ensures Inv(Sender(s))
  {
    PublishTable(s, Sender(s), s.send.m, s.send.slot);
    var s' := Sender(s);
    assert s'.received == s'.sent[..|s'.received|];
  }

  lemma {:induction false} LoadKeeps(s: State)
    requires Inv(s) && s.recv.RIdle?
    ensures Inv(Receiver(s))
    ensures Receiver(s) == s <==> |s.received| == |s.sent|
  {
    var h := |s.received|;
    SlotOf(s, h);
    Increment(h);
    if h < |s.sent| {
      assert Stored(s, h) && s.sent[h].cmd < TWO63;
    } else {
      assert Awaiting(s, h);
    }
    TableSame(s, Receiver(s));
  }

  lemma Unmark(cmd: nat, marked: bool)
    requires cmd < TWO63
    ensures (cmd + if marked then TWO63 else 0) % TWO63 == cmd
  {
  }

  /** The receiver delivers the next accepted message. */
  lemma {:induction false} ReadDelivers(s: State)
    requires Fits(s) && Local(s) && Table(s) && History(s) && s.recv.RRead?
    ensures Receiver(s).received == s.received + [s.sent[|s.received|]] && History(Receiver(s))
  {
    var h := |s.received|;
    assert Stored(s, h);
    Unmark(s.sent[h].cmd, EvenLap(h, Size(s)));
    assert s.received + [s.sent[h]] == s.sent[..h + 1];
  }

  lemma {:induction false} ReadKeeps(s: State)
    requires Inv(s) && s.recv.RRead?
    ensures Inv(Receiver(s))
    ensures Receiver(s).received == s.received + [s.sent[|s.received|]]
  {
    ReadDelivers(s);
    TableSame(s, Receiver(s));
  }

  lemma {:induction false} WriteBackKeeps(s: State)
    requires Inv(s) && s.recv.RWriteBack?
    ensures Inv(Receiver(s))
  {
    TableSame(s, Receiver(s));
  }

  lemma {:induction false} StepKeeps(s: State, a: Action)
    requires Inv(s) && Enabled(s, a)
    ensures Inv(Apply(s, a))
  {
    match a {
      case Send(m) => SendKeeps(s, m);
      case SendStep =>
        match s.send {
          case SReload(m) => ReloadKeeps(s);
          case SFill(m) => FillKeeps(s);
          case SPublish(m, slot, word) => PublishKeeps(s);
        }
      case RecvStep =>
        match s.recv {
          case RIdle => LoadKeeps(s);
          case RRead(slot, word) => ReadKeeps(s);
          case RWriteBack => WriteBackKeeps(s);
        }
    }
  }

  // ----- what every run amounts to -----

  /** The bounded FIFO that the channel implements. */
  ghost function Fifo(s: State): seq<Msg>
    requires |s.received| <= |s.sent|
  {
    s.sent[|s.received|..]
  }

  /** The message a send in progress has been given. */
  function InHand(s: State): seq<Msg> {
    if s.send == SIdle then [] else [s.send.m]
  }

  /** The send in progress finds the table full of messages that have not been written back. */
  predicate Refuses(s: State) {
    s.send.SReload? && |s.sent| - Written(s) == Size(s)
  }

  /** Every step of the channel is a step of a bounded FIFO: the sender's last store puts the message in hand in at the back,
      the receiver's read takes one out at the front, and all others change nothing. */
  lemma {:induction false} StepRefines(s: State, a: Action)
    requires Inv(s) && Enabled(s, a)
    ensures Inv(Apply(s, a))
    ensures var s' := Apply(s, a);
            if a == SendStep && s.send.SPublish? then
              |Fifo(s)| < Size(s) && Fifo(s') == Fifo(s) + InHand(s) && s'.received == s.received
            else if a == RecvStep && s.recv.RRead? then
              Fifo(s) != [] && Fifo(s') == Fifo(s)[1..] && s'.received == s.received + [Fifo(s)[0]]
            else Fifo(s') == Fifo(s) && s'.received == s.received
  {
    StepKeeps(s, a);
    var s' := Apply(s, a);
    if a == SendStep && s.send.SPublish? {
      assert Fifo(s') == Fifo(s) + InHand(s);
    } else if a == RecvStep && s.recv.RRead? {
      ReadKeeps(s);
      assert Fifo(s') == Fifo(s)[1..];
    }
  }

  /** A send goes on with the message it was given until it is published or refused. */
  lemma {:induction false} SenderHolds(s: State, a: Action)
    requires Inv(s) && Enabled(s, a)
    ensures var s' := Apply(s, a);
            && (a.Send? ==> s'.sent == s.sent && InHand(s') == [a.m])
            && (a.SendStep? && Refuses(s) ==> s'.sent == s.sent && InHand(s') == [])
            && (a.SendStep? && s.send.SPublish? ==> s'.sent == s.sent + InHand(s) && InHand(s') == [])
            && (a.SendStep? && !Refuses(s) && !s.send.SPublish? ==> s'.sent == s.sent && InHand(s') == InHand(s))
            && (a.RecvStep? ==> s'.sent == s.sent && InHand(s') == InHand(s))
  {
    if a.SendStep? && s.send.SReload? {
      ReloadKeeps(s);
    }
  }

  /** A send that finds room is done after its stores, and a receive that finds a message after its read and write. */
  lemma {:induction false} CallsFinish(s: State)
    requires Inv(s)
    ensures s.send.SReload? && !Refuses(s) ==> Sender(s).send == SFill(s.send.m)
    ensures s.send.SFill? ==> Fits(Sender(s)) && Sender(Sender(s)).send == SIdle && Sender(Sender(s)).sent == s.sent + [s.send.m]
    ensures s.recv.RIdle? && Fifo(s) != [] ==>
              var s1 := Receiver(s);
              Fits(s1) && var s2 := Receiver(s1); Fits(s2) && Receiver(s2).recv == RIdle && Receiver(s2).received == s.received + [Fifo(s)[0]]
  {
    if s.send.SReload? {
      ReloadKeeps(s);
    } else if s.send.SFill? {
      FillKeeps(s);
    }
    if s.recv.RIdle? && Fifo(s) != [] {
      LoadKeeps(s);
      ReadKeeps(Receiver(s));
    }
  }

  /** A send is refused exactly when the messages not yet written back fill the table; a receive finds nothing exactly
      when every accepted message has been delivered. */
  lemma {:induction false} RefusedIff(s: State)
    requires Inv(s)
    ensures s.send.SReload? ==> (Sender(s).send == SIdle <==> |s.sent| - Written(s) == Size(s))
    ensures s.recv.RIdle? ==> (Receiver(s).recv == RIdle <==> Fifo(s) == [])
    ensures s.recv.RIdle? && s.send.SReload? ==> (Sender(s).send == SIdle <==> |Fifo(s)| == Size(s))
  {
    if s.send.SReload? {
      ReloadKeeps(s);
    }
    if s.recv.RIdle? {
      LoadKeeps(s);
    }
  }

  ghost predicate Run(s: State, actions: seq<Action>, s': State)
    decreases |actions|
  {
    if actions == [] then s' == s
    else Enabled(s, actions[0]) && Run(Apply(s, actions[0]), actions[1..], s')
  }

  lemma {:induction false} RunKeeps(s: State, actions: seq<Action>, s': State)
    requires Inv(s) && Run(s, actions, s')
    ensures Inv(s')
    decreases |actions|
  {
    if actions != [] {
      StepKeeps(s, actions[0]);
      RunKeeps(Apply(s, actions[0]), actions[1..], s');
    }
  }

  /** The messages the calls of a run gave to lrpc_send, in order, without those refused; `hand` is the one a call before
      the run gave. */
  ghost function Accepted(s: State, actions: seq<Action>, hand: seq<Msg>): seq<Msg>
    decreases |actions|
  {
    if actions == [] || !Enabled(s, actions[0]) then hand
    else
      var a, s1 := actions[0], Apply(s, actions[0]);
      if a.Send? then Accepted(s1, actions[1..], [a.m])
      else if a.SendStep? && Refuses(s) then Accepted(s1, actions[1..], [])
      else if a.SendStep? && s.send.SPublish? then hand + Accepted(s1, actions[1..], [])
      else Accepted(s1, actions[1..], hand)
  }

  /** All the messages given to lrpc_send. */
  ghost function Given(actions: seq<Action>): seq<Msg> {
    if actions == [] then []
    else (if actions[0].Send? then [actions[0].m] else []) + Given(actions[1..])
  }

  lemma {:induction false} GivenFirst(actions: seq<Action>)
    requires actions != []
    ensures actions[0].Send? ==> Given(actions) == [actions[0].m] + Given(actions[1..])
    ensures !actions[0].Send? ==> Given(actions) == Given(actions[1..])
  {
  }

  /** No send of the run is refused. */
  ghost predicate NoneRefused(s: State, actions: seq<Action>)
    decreases |actions|
  {
    actions != [] && Enabled(s, actions[0]) ==>
      !(actions[0].SendStep? && Refuses(s)) && NoneRefused(Apply(s, actions[0]), actions[1..])
  }

  lemma {:induction false} RunAccepts(s: State, actions: seq<Action>, s': State)
    requires Inv(s) && Run(s, actions, s')
    ensures s'.sent + InHand(s') == s.sent + Accepted(s, actions, InHand(s))
    decreases |actions|
  {
    if actions != [] {
      var a, s1 := actions[0], Apply(s, actions[0]);
      StepKeeps(s, a);
      SenderHolds(s, a);
      RunAccepts(s1, actions[1..], s');
    }
  }

  lemma {:induction false} AllAccepted(s: State, actions: seq<Action>, s': State)
    requires Inv(s) && Run(s, actions, s') && NoneRefused(s, actions)
    ensures Accepted(s, actions, InHand(s)) == InHand(s) + Given(actions)
    decreases |actions|
  {
    if actions != [] {
      var a, s1, rest := actions[0], Apply(s, actions[0]), actions[1..];
      StepKeeps(s, a);
      SenderHolds(s, a);
      AllAccepted(s1, rest, s');
      GivenFirst(actions);
      if a.SendStep? && s.send.SPublish? {
        assert Accepted(s, actions, InHand(s)) == InHand(s) + Accepted(s1, rest, []);
      } else if a.Send? {
        assert Accepted(s, actions, InHand(s)) == Accepted(s1, rest, [a.m]);
      } else {
        assert Accepted(s, actions, InHand(s)) == Accepted(s1, rest, InHand(s));
      }
    }
  }

  /** Over every interleaving: the messages accepted and the one in hand are exactly those given to lrpc_send and not
      refused, the delivered ones are a prefix of them, what is in flight fits the table, and the counters follow one
      another, wrapped to 32 bits. */
  lemma {:induction false} ChannelSafe(s: State, e: nat, actions: seq<Action>, s': State)
    requires Init(s, e) && Run(s, actions, s')
    ensures s'.sent + InHand(s') == Accepted(s, actions, []) && (NoneRefused(s, actions) ==> s'.sent + InHand(s') == Given(actions))
    ensures s'.received <= s'.sent && s'.received <= Accepted(s, actions, []) && |s'.sent| - |s'.received| <= Size(s')
    ensures s'.seen <= Written(s') <= Head(s') <= |s'.sent| <= Tail(s') <= s'.seen + Size(s')
    ensures s'.outHead == s'.seen % TWO32 && s'.headWb == Written(s') % TWO32
    ensures s'.inHead == Head(s') % TWO32 && s'.outTail == Tail(s') % TWO32
  {
    InitInv(s, e);
    RunKeeps(s, actions, s');
    RunAccepts(s, actions, s');
    if NoneRefused(s, actions) {
      AllAccepted(s, actions, s');
    }
  }
}
