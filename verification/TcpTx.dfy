/**
 The send side of a TCP connection: the segmenter, the retransmit queue and acknowledgements. The
 bytes accepted so far are a ghost sequence; every number is a 32-bit word. No FIN is queued.
 */
module TcpTx {
  import opened Words
  import opened TcpSeq

  const TCP_HDR: nat := 20
  const ENOBUFS: int := 105
  const MAX_WND: nat := 65535

  datatype Pending = None | Some(m: Mbuf)

  /** The buffers hold the bytes from position `from` up to `to`, one after the other, none empty or above MSS. */
  ghost predicate Chain(q: seq<Mbuf>, s: seq<Byte>, base: nat, from: nat, to: nat) {
    if q == [] then from == to
    else CutAt(q[0], s, base, from) && 0 < |q[0].data| <= TCP_MSS && Chain(q[1..], s, base, from + |q[0].data|, to)
  }

  lemma {:induction false} ChainBounds(q: seq<Mbuf>, s: seq<Byte>, base: nat, from: nat, to: nat)
    requires Chain(q, s, base, from, to)
    ensures from <= to && (q != [] ==> to <= |s|)
    decreases |q|
  {
    if q != [] {
      ChainBounds(q[1..], s, base, from + |q[0].data|, to);
    }
  }

  lemma {:induction false} ChainSnoc(q: seq<Mbuf>, m: Mbuf, s: seq<Byte>, base: nat, from: nat, to: nat)
    requires Chain(q, s, base, from, to) && CutAt(m, s, base, to) && 0 < |m.data| <= TCP_MSS
    ensures Chain(q + [m], s, base, from, to + |m.data|)
    decreases |q|
  {
    if q == [] {
      assert (q + [m])[1..] == [];
    } else {
      ChainSnoc(q[1..], m, s, base, from + |q[0].data|, to);
      assert (q + [m])[1..] == q[1..] + [m] && (q + [m])[0] == q[0];
    }
  }

  lemma {:induction false} CutGrow(m: Mbuf, s: seq<Byte>, more: seq<Byte>, base: nat, a: nat)
    requires CutAt(m, s, base, a)
    ensures CutAt(m, s + more, base, a)
  {
  }

  lemma {:induction false} ChainGrow(q: seq<Mbuf>, s: seq<Byte>, more: seq<Byte>, base: nat, from: nat, to: nat)
    requires Chain(q, s, base, from, to)
    ensures Chain(q, s + more, base, from, to)
    decreases |q|
  {
    if q != [] {
      CutGrow(q[0], s, more, base, from);
      ChainGrow(q[1..], s, more, base, from + |q[0].data|, to);
    }
  }

  /** A buffer that ends where the bytes end takes more bytes. */
  lemma {:induction false} FillBuffer(m: Mbuf, s: seq<Byte>, more: seq<Byte>, base: nat, a: nat)
    requires CutAt(m, s, base, a) && a + |m.data| == |s|
    ensures CutAt(m.(data := m.data + more, end := Add32(m.end, |more|)), s + more, base, a)
  {
    NumAdd(base, |s|, |more|);
    var t := s + more;
    assert t[a..] == s[a..] + more;
    assert m.data == s[a..];
  }

  /** The queue and the buffer kept for later hold the bytes from `first` on, and `nxt` is the number after the last. */
  ghost predicate Covers(q: seq<Mbuf>, pending: Pending, nxt: nat, s: seq<Byte>, base: nat, first: nat) {
    && first <= |s| && nxt == Num(base, |s|)
    && match pending
       case None => Chain(q, s, base, first, |s|)
       case Some(m) => 0 < |m.data| <= TCP_MSS && |m.data| <= |s| && CutAt(m, s, base, |s| - |m.data|)
                       && Chain(q, s, base, first, |s| - |m.data|)
  }

  /** The test that keeps the last buffer for later. It is done in unsigned arithmetic. */
  predicate KeepsForLater(length: nat) { (length - TCP_HDR) % TWO64 < TCP_MSS }

  /** A buffer of at most MSS bytes is kept exactly when it holds at least a header's length; a full one is kept too. */
  lemma KeptIff(length: nat)
    requires length <= TCP_MSS
    ensures KeepsForLater(length) <==> length >= TCP_HDR
  {
  }

  /** One pass of the segmenter: a buffer takes `seglen` bytes. */
  method FillOne(q: seq<Mbuf>, pending: Pending, nxt: nat, chunk: seq<Byte>, ghost s: seq<Byte>, ghost base: nat, ghost first: nat)
    returns (m: Mbuf, seglen: nat, nxt': nat, ghost at: nat)
    requires Covers(q, pending, nxt, s, base, first) && chunk != []
    ensures seglen <= |chunk| && nxt' == Num(base, |s| + seglen)
    ensures CutAt(m, s + chunk[..seglen], base, at) && 0 < |m.data| <= TCP_MSS && at + |m.data| == |s| + seglen && !m.push
    ensures Chain(q, s + chunk[..seglen], base, first, at)
    ensures pending == None ==> seglen == |chunk| || seglen == TCP_MSS
    ensures seglen < |chunk| ==> |m.data| == TCP_MSS
  {
    if pending.Some? {
      m := pending.m;
      seglen := if |chunk| < TCP_MSS - |m.data| then |chunk| else TCP_MSS - |m.data|;
    } else {
      seglen := if |chunk| < TCP_MSS then |chunk| else TCP_MSS;
      m := Mbuf(nxt, nxt, [], false);
    }
    at := |s| - |m.data|;
    FillBuffer(m, s, chunk[..seglen], base, at);
    m := m.(data := m.data + chunk[..seglen], end := Add32(m.end, seglen), push := false);
    nxt' := Add32(nxt, seglen);
    NumAdd(base, |s|, seglen);
    ChainGrow(q, s, chunk[..seglen], base, first, at);
  }

  /** The rest of the pass: the buffer is kept for later or joins the queue. */
  method Pass(q0: seq<Mbuf>, pending0: Pending, nxt0: nat, chunk: seq<Byte>, push: bool, ghost s: seq<Byte>, ghost base: nat, ghost first: nat)
    returns (q: seq<Mbuf>, pending: Pending, nxt: nat, seglen: nat)
    requires Covers(q0, pending0, nxt0, s, base, first) && chunk != []
    ensures seglen <= |chunk| && Covers(q, pending, nxt, s + chunk[..seglen], base, first)
    ensures pending0 == None ==> seglen == |chunk| || seglen == TCP_MSS
    ensures pending.Some? ==> q == q0 && !push && seglen == |chunk| && |pending.m.data| >= TCP_HDR
    ensures pending == None ==> |q| == |q0| + 1 && q0 <= q && (q[|q0|].push <==> push && seglen == |chunk|)
    ensures pending == None ==> if seglen < |chunk| then |q[|q0|].data| == TCP_MSS else push || |q[|q0|].data| < TCP_HDR
  {
    var m;
    ghost var at;
    m, seglen, nxt, at := FillOne(q0, pending0, nxt0, chunk, s, base, first);
    if !push && seglen == |chunk| && KeepsForLater(|m.data|) {
      KeptIff(|m.data|);
      return q0, Some(m), nxt, seglen;
    }
    KeptIff(|m.data|);
    m := m.(push := push && seglen == |chunk|);
    ChainSnoc(q0, m, s + chunk[..seglen], base, first, at);
    q, pending := q0 + [m], None;
  }

  /** Of the buffers added since `q0` all but the last are full and carry no push; so is the last unless it holds the end of
      the bytes to send. */
  ghost predicate Packed(q0: seq<Mbuf>, q: seq<Mbuf>, ended: bool) {
    && q0 <= q
    && forall k :: |q0| <= k < |q| && (k < |q| - 1 || !ended) ==> |q[k].data| == TCP_MSS && !q[k].push
  }

  /** What became of the end of the bytes: pushed they are in the queue with the flag set, otherwise the last buffer is kept
      for later exactly when it holds at least a header's length. */
  ghost predicate EndSent(q: seq<Mbuf>, pending: Pending, push: bool) {
    if push then pending == None && q != [] && q[|q| - 1].push
    else if pending.Some? then |pending.m.data| >= TCP_HDR
    else q != [] && |q[|q| - 1].data| < TCP_HDR && !q[|q| - 1].push
  }

  /** tcp_tx_send: the segmenter. `buffers` is how many buffers the allocator can supply. */
  method Segment(q0: seq<Mbuf>, pending0: Pending, nxt0: nat, buf: seq<Byte>, push: bool, buffers: nat,
                 ghost s: seq<Byte>, ghost base: nat, ghost first: nat)
    returns (q: seq<Mbuf>, pending: Pending, nxt: nat, pos: nat, ret: int)
    requires Covers(q0, pending0, nxt0, s, base, first)
    ensures pos <= |buf| && Covers(q, pending, nxt, s + buf[..pos], base, first) && q0 <= q
    ensures ret == if pos > 0 then pos else if buf == [] then 0 else -ENOBUFS
    ensures |buf| <= buffers * TCP_MSS ==> pos == |buf|
    ensures Packed(q0, q, pos == |buf| && pending == None) && (0 < pos == |buf| ==> EndSent(q, pending, push))
  {
    q, pending, nxt, pos, ret := q0, pending0, nxt0, 0, 0;
    var left := buffers;
    assert s + buf[..0] == s;
    while pos < |buf|
      invariant pos <= |buf| && left <= buffers && q0 <= q && ret == 0
      invariant Covers(q, pending, nxt, s + buf[..pos], base, first)
      invariant (buffers - left) * TCP_MSS <= pos || pos == |buf|
      invariant Packed(q0, q, pos == |buf| && pending == None) && (0 < pos == |buf| ==> EndSent(q, pending, push))
      decreases |buf| - pos, if pending.Some? then 1 else 0
    {
      if pending == None {
        if left == 0 {
          ret := -ENOBUFS;
          break;
        }
        left := left - 1;
      }
      var seglen;
      ghost var s0 := s + buf[..pos];
      q, pending, nxt, seglen := Pass(q, pending, nxt, buf[pos..], push, s0, base, first);
      Advance(s, buf, pos, seglen);
      pos := pos + seglen;
    }
    if pos > 0 {
      ret := pos;
    }
  }

  lemma {:induction false} Advance(s: seq<Byte>, buf: seq<Byte>, pos: nat, k: nat)
    requires pos + k <= |buf|
    ensures (s + buf[..pos]) + buf[pos..][..k] == s + buf[..pos + k]
  {
    assert buf[..pos] + buf[pos..][..k] == buf[..pos + k];
  }

  /** tcp_conn_ack: buffers whose last byte is acknowledged leave the queue; no byte after `una` does. */
  method Acknowledge(q0: seq<Mbuf>, una: nat, ghost s: seq<Byte>, ghost base: nat, ghost first0: nat, ghost to: nat, ghost u: nat)
    returns (q: seq<Mbuf>, freed: seq<Mbuf>, ghost first: nat)
    requires Chain(q0, s, base, first0, to) && first0 <= u < first0 + TWO31 && una == Num(base, u) && to <= u + MAX_WND
    ensures freed + q == q0 && Chain(q, s, base, first, to) && first0 <= first <= u
    ensures q != [] ==> u < first + |q[0].data|
  {
    q, freed, first := q0, [], first0;
    while q != []
      invariant freed + q == q0 && Chain(q, s, base, first, to) && first0 <= first <= u
      decreases |q|
    {
      var m := q[0];
      ChainBounds(q[1..], s, base, first + |m.data|, to);
      WrapsCompare(base, first + |m.data|, u);
      if WrapsGt(m.end, una) {
        break;
      }
      q, freed, first := q[1..], freed + [m], first + |m.data|;
    }
  }

  /** With the buffer kept for later: what is left still covers everything from `u` on. */
  method Uncover(q0: seq<Mbuf>, ghost pending: Pending, una: nat, ghost nxt: nat, ghost s: seq<Byte>, ghost base: nat, ghost first0: nat, ghost u: nat)
    returns (q: seq<Mbuf>, freed: seq<Mbuf>, ghost first: nat)
    requires Covers(q0, pending, nxt, s, base, first0) && una == Num(base, u)
    requires first0 <= u < first0 + TWO31 && u <= |s| <= u + MAX_WND
    ensures freed + q == q0 && Covers(q, pending, nxt, s, base, first) && first0 <= first <= u
    ensures q != [] ==> u < first + |q[0].data|
    ensures |s| <= first + 2 * MAX_WND
  {
    ghost var to := |s| - if pending.Some? then |pending.m.data| else 0;
    q, freed, first := Acknowledge(q0, una, s, base, first0, to, u);
  }

  // ----- acknowledgement numbers -----

  /** The test of the ACK step. */
  predicate AckAccepted(una: nat, nxt: nat, ack: nat) { WrapsLte(una, ack) && WrapsLte(ack, nxt) }

  /** Which numbers it accepts, for every pair of `una` and `nxt`. With `nxt` not behind: exactly those from `una` to `nxt`,
      and with nothing in flight also the one half the number space away. With `nxt` behind by `g`, as an old snapshot can
      be: exactly the last `g + 1` numbers up to half the space away. */
  lemma {:induction false} AckAcceptedIff(una: nat, nxt: nat, ack: nat)
    requires una < TWO32 && nxt < TWO32 && ack < TWO32
    ensures var d, f := Sub32(ack, una), Sub32(nxt, una);
            AckAccepted(una, nxt, ack) <==>
              if f < TWO31 then d <= f || (f == 0 && d == TWO31) else TWO31 - (TWO32 - f) <= d <= TWO31
  {
    SubCases(ack, una);
    SubCases(una, ack);
    SubCases(nxt, una);
    SubCases(ack, nxt);
  }

  /** The same by positions: `ack` stands for position `u + d`. */
  lemma {:induction false} AckPosition(base: nat, u: nat, n: nat, ack: nat)
    requires u < n + TWO31 && n < u + TWO31 && ack < TWO32
    ensures var d := Sub32(ack, Num(base, u));
            && Num(base, u + d) == ack
            && (AckAccepted(Num(base, u), Num(base, n), ack) <==>
                  if u <= n then d <= n - u || (n == u && d == TWO31) else TWO31 - (u - n) <= d <= TWO31)
  {
    var x := Num(base, u);
    NumSub(base, n, u);
    AckAcceptedIff(x, Num(base, n), ack);
    SubCases(ack, x);
    NumAdd(base, u, Sub32(ack, x));
    assert Add32(x, Sub32(ack, x)) == ack;
  }

  // ----- the send window -----

  /** The peer's window less a byte for a FIN and one for a reset. */
  function Usable(win: nat): (r: nat)
    ensures r <= win && (win >= 2 ==> r + 2 == win) && (win < 2 ==> r == 0)
  {
    if win > 1 then win - 2 else 0
  }

  /** The segment is newer than the one that last set the window. */
  predicate Newer(wl1: nat, wl2: nat, seq_: nat, ack: nat) {
    WrapsLt(wl1, seq_) || (wl1 == seq_ && WrapsLte(wl2, ack))
  }

  /** By positions less than half the number space apart it is the order by sequence and then by acknowledgement number, the
      later or an equal one being newer. */
  lemma {:induction false} NewerIff(irs: nat, p: nat, p': nat, iss: nat, u: nat, u': nat)
    requires p < p' + TWO31 && p' < p + TWO31 && u < u' + TWO31 && u' < u + TWO31
    ensures Newer(Num(irs, p), Num(iss, u), Num(irs, p'), Num(iss, u')) <==> p < p' || (p == p' && u <= u')
  {
    WrapsCompare(irs, p, p');
    WrapsCompare(irs, p', p);
    WrapsCompare(iss, u, u');
    if Num(irs, p) == Num(irs, p') {
      assert !WrapsLt(Num(irs, p), Num(irs, p')) && !WrapsLt(Num(irs, p'), Num(irs, p));
    }
  }

  // ----- the connection -----

  class Conn {
    var sndUna: nat
    var sndNxt: nat
    var sndWnd: nat
    /** Sequence and acknowledgement number of the segment that last set the window. */
    var sndWl1: nat
    var sndWl2: nat
    var txExclusive: bool
    var txq: seq<Mbuf>
    var txPending: Pending
    /** All bytes accepted for sending, the number of the first, the first still queued and the first not acknowledged. */
    ghost var sent: seq<Byte>
    ghost const base: nat
    ghost var first: nat
    ghost var una: nat
    /** Bytes a writer may still send. */
    ghost var granted: nat

    /** The queue covers everything from `una` on, and what is in flight fits a window. */
    ghost predicate Valid()
      reads this
    {
      && Covers(txq, txPending, sndNxt, sent, base, first) && sndUna == Num(base, una)
      && first <= una <= |sent| <= una + MAX_WND && sndWnd <= MAX_WND
      && |sent| + granted <= una + MAX_WND && (!txExclusive ==> granted == 0)
      && |sent| + granted <= first + if txExclusive then 3 * MAX_WND else 2 * MAX_WND
    }

    /** An established connection with nothing sent yet: the SYN numbered `iss` is acknowledged. */
    constructor (iss: nat, seq_: nat, win: nat)
      requires win < TWO16 && seq_ < TWO32
      ensures Valid() && sent == [] && !txExclusive && base == iss + 1 && sndWnd == Usable(win)
      ensures sndWl1 == seq_ && sndWl2 == (iss + 1) % TWO32
    {
      sndUna, sndNxt, sndWnd := (iss + 1) % TWO32, (iss + 1) % TWO32, Usable(win);
      sndWl1, sndWl2 := seq_, (iss + 1) % TWO32;
      txExclusive, txq, txPending := false, [], None;
      sent, base, first, una, granted := [], iss + 1, 0, 0, 0;
    }

    /** tcp_write_wait: the writer gets what is left of the window, or would wait. */
    method WriteWait() returns (ok: bool, winlen: nat)
      requires Valid() && !txExclusive
      modifies `txExclusive, `granted
      ensures Valid() && ok == txExclusive && (ok <==> |sent| < una + sndWnd)
      ensures ok ==> winlen > 0 && granted == winlen && |sent| + winlen == una + sndWnd
    {
      NumAdd(base, una, sndWnd);
      WrapsCompare(base, una + sndWnd, |sent|);
      NumSub(base, una + sndWnd, |sent|);
      if WrapsLte(Add32(sndUna, sndWnd), sndNxt) {
        return false, 0;
      }
      txExclusive, winlen := true, Sub32(Add32(sndUna, sndWnd), sndNxt);
      granted := winlen;
      ok := true;
    }

    /** tcp_tx_send by the writer: the queue grows by exactly the bytes reported. */
    method TxSend(buf: seq<Byte>, push: bool, buffers: nat) returns (ret: int)
      requires Valid() && txExclusive && |buf| <= granted
      modifies `sndNxt, `txq, `txPending, `sent, `granted
      ensures Valid() && (ret < 0 ==> ret == -ENOBUFS && sent == old(sent) && buf != []) && ret <= |buf|
      ensures ret >= 0 ==> sent == old(sent) + buf[..ret] && (ret == 0 ==> buf == [])
      ensures |buf| <= buffers * TCP_MSS ==> ret == |buf|
      ensures Packed(old(txq), txq, ret == |buf| && txPending == None) && (0 < ret == |buf| ==> EndSent(txq, txPending, push))
    {
      var pos;
      txq, txPending, sndNxt, pos, ret := Segment(txq, txPending, sndNxt, buf, push, buffers, sent, base, first);
      sent, granted := sent + buf[..pos], granted - pos;
    }

    /** tcp_conn_ack. */
    method ConnAck() returns (freed: seq<Mbuf>)
      requires Valid()
      modifies `txq, `first
      ensures Valid() && freed + txq == old(txq)
      ensures txExclusive ==> freed == []
      ensures !txExclusive && txq != [] ==> una < first + |txq[0].data|
      ensures !txExclusive ==> |sent| <= first + 2 * MAX_WND
    {
      if txExclusive {
        return [];
      }
      freed := Dequeue();
    }

    method Dequeue() returns (freed: seq<Mbuf>)
      requires Valid()
      modifies `txq, `first
      ensures Valid() && freed + txq == old(txq) && |sent| <= first + 2 * MAX_WND
      ensures txq != [] ==> una < first + |txq[0].data|
    {
      txq, freed, first := Uncover(txq, txPending, sndUna, sndNxt, sent, base, first, una);
    }

    /** tcp_write_finish. */
    method WriteFinish() returns (freed: seq<Mbuf>)
      requires Valid() && txExclusive
      modifies `txExclusive, `txq, `first, `granted
      ensures Valid() && !txExclusive && freed + txq == old(txq) && (txq != [] ==> una < first + |txq[0].data|)
    {
      freed := Dequeue();
      txExclusive, granted := false, 0;
    }

    /** An acknowledgement of bytes that have been sent moves `una`. */
    method MoveUna(ack: nat)
      requires Valid() && ack < TWO32 && Sub32(ack, sndUna) <= |sent| - una
      modifies `sndUna, `una
      ensures Valid() && sndUna == ack && una == old(una) + Sub32(ack, old(sndUna))
    {
      AckPosition(base, una, una, ack);
      una := una + Sub32(ack, sndUna);
      sndUna := ack;
    }

    /** is_snd_full: nothing is left of the window. */
    method IsSndFull() returns (full: bool)
      requires Valid()
      ensures full <==> |sent| >= una + sndWnd
    {
      NumAdd(base, una, sndWnd);
      WrapsCompare(base, una + sndWnd, |sent|);
      full := WrapsLte(Add32(sndUna, sndWnd), sndNxt);
    }

    /** The ACK step of tcp_rx_conn. `nxt` is the snapshot of snd_nxt taken before the lock, `n` its position, less than half
        the number space old. The window becomes the segment's exactly when the segment is newer than the one that last set
        it, and writers are woken (`wake`) exactly when the window was full and is not any more. An acknowledgement beyond
        the snapshot ends the step. An accepted acknowledgement of bytes never sent is `wild`, and the model stops there;
        there is none when the snapshot is not behind snd_una and the number is not half the space away. */
    method RxAck(seq_: nat, ack: nat, nxt: nat, win: nat, ghost n: nat) returns (accepted: bool, wild: bool, wake: bool, freed: seq<Mbuf>)
      requires Valid() && seq_ < TWO32 && ack < TWO32 && win < TWO16 && n <= |sent| && una < n + TWO31 && nxt == Num(base, n)
      modifies `sndUna, `sndWnd, `sndWl1, `sndWl2, `txq, `first, `una
      ensures accepted <==> AckAccepted(old(sndUna), nxt, ack)
      ensures wild <==> accepted && Sub32(ack, old(sndUna)) > |sent| - old(una)
      ensures old(una) <= n && !(old(una) == n && Sub32(ack, old(sndUna)) == TWO31) ==> !wild && (accepted <==> Sub32(ack, old(sndUna)) <= n - old(una))
      ensures !wild ==> Valid() && freed + txq == old(txq)
      ensures !wild ==> una == if accepted then old(una) + Sub32(ack, old(sndUna)) else old(una)
      ensures accepted && !wild && !txExclusive && txq != [] ==> una < first + |txq[0].data|
      ensures wild ==> sndUna == ack && una > |sent|
      ensures !wild && (accepted || !WrapsGt(ack, nxt)) && Newer(old(sndWl1), old(sndWl2), seq_, ack) ==>
                sndWnd == Usable(win) && sndWl1 == seq_ && sndWl2 == ack
      ensures wild || (!accepted && WrapsGt(ack, nxt)) || !Newer(old(sndWl1), old(sndWl2), seq_, ack) ==>
                sndWnd == old(sndWnd) && sndWl1 == old(sndWl1) && sndWl2 == old(sndWl2)
      ensures wake <==> !wild && |sent| >= old(una + sndWnd) && |sent| < una + sndWnd
    {
      wake, freed := false, [];
      accepted, wild := Judge(ack, nxt, n);
      if wild {
        una := una + Sub32(ack, sndUna);
        sndUna := ack;
      } else if accepted || !WrapsGt(ack, nxt) {
        wake, freed := Settle(accepted, seq_, ack, win);
      }
    }

    /** Whether the number is accepted, and whether it stands for bytes never sent. */
    method Judge(ack: nat, nxt: nat, ghost n: nat) returns (accepted: bool, wild: bool)
      requires Valid() && ack < TWO32 && n <= |sent| && una < n + TWO31 && nxt == Num(base, n)
      ensures accepted <==> AckAccepted(sndUna, nxt, ack)
      ensures wild <==> accepted && Sub32(ack, sndUna) > |sent| - una
      ensures una <= n && !(una == n && Sub32(ack, sndUna) == TWO31) ==> !wild && (accepted <==> Sub32(ack, sndUna) <= n - una)
    {
      AckPosition(base, una, n, ack);
      NumSub(base, |sent|, una);
      accepted := AckAccepted(sndUna, nxt, ack);
      wild := accepted && Sub32(ack, sndUna) > Sub32(sndNxt, sndUna);
    }

    /** The rest of the step. */
    method Settle(accepted: bool, seq_: nat, ack: nat, win: nat) returns (wake: bool, freed: seq<Mbuf>)
      requires Valid() && ack < TWO32 && win < TWO16 && (accepted ==> Sub32(ack, sndUna) <= |sent| - una)
      modifies `sndUna, `sndWnd, `sndWl1, `sndWl2, `txq, `first, `una
      ensures Valid() && freed + txq == old(txq) && una == if accepted then old(una) + Sub32(ack, old(sndUna)) else old(una)
      ensures accepted && !txExclusive && txq != [] ==> una < first + |txq[0].data|
      ensures if Newer(old(sndWl1), old(sndWl2), seq_, ack) then sndWnd == Usable(win) && sndWl1 == seq_ && sndWl2 == ack
              else sndWnd == old(sndWnd) && sndWl1 == old(sndWl1) && sndWl2 == old(sndWl2)
      ensures wake <==> |sent| >= old(una + sndWnd) && |sent| < una + sndWnd
    {
      var wasFull := IsSndFull();
      freed := [];
      if accepted {
        MoveUna(ack);
        freed := ConnAck();
      }
      UpdateWindow(seq_, ack, win);
      var full := IsSndFull();
      wake := wasFull && !full;
    }

    /** The window update of tcp_rx_conn. */
    method UpdateWindow(seq_: nat, ack: nat, win: nat)
      requires Valid() && win < TWO16
      modifies `sndWnd, `sndWl1, `sndWl2
      ensures Valid()
      ensures if Newer(old(sndWl1), old(sndWl2), seq_, ack) then sndWnd == Usable(win) && sndWl1 == seq_ && sndWl2 == ack
              else sndWnd == old(sndWnd) && sndWl1 == old(sndWl1) && sndWl2 == old(sndWl2)
    {
      if WrapsLt(sndWl1, seq_) || (sndWl1 == seq_ && WrapsLte(sndWl2, ack)) {
        sndWnd := if win > 1 then win - 2 else 0;
        sndWl1, sndWl2 := seq_, ack;
      }
    }
  }
}
