/**
 The receive side of a TCP connection: reassembly of FIN-free segments that arrive in any order, with
 duplicates and overlaps, and the reader that drains the queue and reopens the window. All sequence
 numbers are 32-bit words; ghost positions count bytes of the stream without bound.
 */
module TcpRx {
  import opened Words
  import opened TcpSeq

  const TCP_OOO_MAX_SIZE: nat := 2048
  const MAX_SEGMENT: nat := 65535
  /** Farthest a segment may be from the next byte expected: half the number space, less a window and a segment. */
  const HALF: nat := TWO31 - TCP_WIN - MAX_SEGMENT

  // ----- clipping a segment to the window -----

  /** The next byte expected clips the head of the text. */
  method ClipHead(m0: Mbuf, nxt: nat, ghost stream: seq<Byte>, ghost base: nat, ghost a: nat, ghost n: nat) returns (m: Mbuf)
    requires CutAt(m0, stream, base, a) && |m0.data| <= MAX_SEGMENT && a <= n < a + |m0.data| && nxt == Num(base, n)
    ensures CutAt(m, stream, base, n) && |m.data| == a + |m0.data| - n && m.push == m0.push
  {
    m := m0;
    WrapsCompare(base, a, n);
    NumSub(base, n, a);
    if WrapsLt(m.seq_, nxt) {
      var len := Sub32(nxt, m.seq_);
      m := m.(data := m.data[len..], seq_ := Add32(m.seq_, len));
      NumAdd(base, a, len);
    }
  }

  /** The receive window clips the tail of the text. */
  method ClipTail(m0: Mbuf, nxt: nat, wnd: nat, ghost stream: seq<Byte>, ghost base: nat, ghost n: nat) returns (m: Mbuf)
    requires CutAt(m0, stream, base, n) && |m0.data| <= MAX_SEGMENT && nxt == Num(base, n) && wnd <= TCP_WIN
    ensures CutAt(m, stream, base, n) && |m.data| == (if |m0.data| <= wnd then |m0.data| else wnd) && m.push == m0.push
  {
    m := m0;
    NumAdd(base, n, wnd);
    WrapsCompare(base, n + wnd, n + |m0.data|);
    NumSub(base, n + |m0.data|, n + wnd);
    if WrapsLt(Add32(nxt, wnd), m.end) {
      var len := Sub32(m.end, Add32(nxt, wnd));
      m := m.(data := m.data[..|m.data| - len], end := Add32(nxt, wnd));
    }
  }

  /** Both clips; `taken` is how much of the window the rest uses. */
  method Clip(m0: Mbuf, nxt: nat, wnd: nat, ghost stream: seq<Byte>, ghost base: nat, ghost a: nat, ghost n: nat)
    returns (m: Mbuf, taken: nat)
    requires CutAt(m0, stream, base, a) && |m0.data| <= MAX_SEGMENT && a <= n < a + |m0.data|
    requires nxt == Num(base, n) && wnd <= TCP_WIN
    ensures CutAt(m, stream, base, n) && taken == |m.data| <= wnd && m.end == Num(base, n + taken)
    ensures n + taken == (if a + |m0.data| <= n + wnd then a + |m0.data| else n + wnd) && m.push == m0.push
  {
    m := ClipHead(m0, nxt, stream, base, a, n);
    m := ClipTail(m, nxt, wnd, stream, base, n);
    NumSub(base, n + |m.data|, n);
    taken := Sub32(m.end, m.seq_);
  }

  // ----- the out-of-order queue -----

  /** Segment `i` of the queue holds the bytes at position `at[i]`. */
  ghost predicate Queued(q: seq<Mbuf>, at: seq<nat>, stream: seq<Byte>, base: nat) {
    && |at| == |q|
    && forall i :: 0 <= i < |q| ==> CutAt(q[i], stream, base, at[i]) && 0 < |q[i].data| <= MAX_SEGMENT
  }

  ghost predicate Ascending(at: seq<nat>) {
    forall i, j :: 0 <= i < j < |at| ==> at[i] <= at[j]
  }

  /** Every start lies strictly between `lo` and `hi`. */
  ghost predicate Between(at: seq<nat>, lo: int, hi: int) {
    forall i :: 0 <= i < |at| ==> lo < at[i] < hi
  }

  function InsertAt<T>(s: seq<T>, i: nat, x: T): seq<T>
    requires i <= |s|
  {
    s[..i] + [x] + s[i..]
  }

  lemma {:induction false} InsertQueued(q: seq<Mbuf>, at: seq<nat>, stream: seq<Byte>, base: nat, i: nat, m: Mbuf, a: nat)
    requires Queued(q, at, stream, base) && i <= |q| && CutAt(m, stream, base, a) && 0 < |m.data| <= MAX_SEGMENT
    ensures Queued(InsertAt(q, i, m), InsertAt(at, i, a), stream, base)
  {
    var q', at' := InsertAt(q, i, m), InsertAt(at, i, a);
    forall k | 0 <= k < |q'| ensures CutAt(q'[k], stream, base, at'[k]) && 0 < |q'[k].data| <= MAX_SEGMENT {
      var j := if k < i then k else k - 1;
      if k != i {
        assert q'[k] == q[j] && at'[k] == at[j];
      }
    }
  }

  lemma {:induction false} InsertAscending(at: seq<nat>, i: nat, a: nat, lo: int, hi: int)
    requires Ascending(at) && Between(at, lo, hi) && i <= |at| && lo < a < hi
    requires forall k :: 0 <= k < i ==> at[k] <= a
    requires i < |at| ==> a <= at[i]
    ensures Ascending(InsertAt(at, i, a)) && Between(InsertAt(at, i, a), lo, hi)
  {
    var s := InsertAt(at, i, a);
    assert forall k :: 0 <= k < |s| ==> s[k] == if k < i then at[k] else if k == i then a else at[k - 1];
  }

  /** A segment of the queue holds all the bytes from `a` up to `b`. */
  ghost predicate Covered(q: seq<Mbuf>, at: seq<nat>, a: nat, b: nat)
    requires |at| == |q|
  {
    exists i :: 0 <= i < |q| && at[i] <= a && b <= at[i] + |q[i].data|
  }

  /** Where tcp_rx_text puts an out-of-order segment; it is dropped when a queued one covers it, or at the end of a
      queue that is too long. */
  method PlaceOoo(q: seq<Mbuf>, m: Mbuf, ghost at: seq<nat>, ghost stream: seq<Byte>, ghost base: nat, ghost a: nat, ghost lo: nat)
    returns (ok: bool, i: nat)
    requires Queued(q, at, stream, base) && Ascending(at) && Between(at, lo, lo + TCP_WIN)
    requires CutAt(m, stream, base, a) && 0 < |m.data| <= MAX_SEGMENT && lo < a < lo + TCP_WIN
    ensures i <= |q|
    ensures ok ==> (forall k :: 0 <= k < i ==> at[k] <= a) && (i < |q| ==> a < at[i])
    ensures ok <==> !Covered(q, at, a, a + |m.data|) && !(|q| >= TCP_OOO_MAX_SIZE && PlaceOf(at, a) == |at|)
  {
    i := 0;
    while i < |q|
      invariant 0 <= i <= |q| && forall k :: 0 <= k < i ==> at[k] <= a && at[k] + |q[k].data| < a + |m.data|
    {
      assert CutAt(q[i], stream, base, at[i]);
      WrapsCompare(base, a, at[i]);
      WrapsCompare(base, a + |m.data|, at[i] + |q[i].data|);
      if WrapsLt(m.seq_, q[i].seq_) {
        PlaceUnique(at, a, i);
        return true, i;
      } else if WrapsLte(m.end, q[i].end) {
        return false, i;
      }
      i := i + 1;
    }
    PlaceUnique(at, a, i);
    ok := |q| < TCP_OOO_MAX_SIZE;
  }

  /** The first segment leaves the queue. */
  lemma {:induction false} PopQueued(q: seq<Mbuf>, at: seq<nat>, stream: seq<Byte>, base: nat, lo: int, hi: int)
    requires Queued(q, at, stream, base) && Ascending(at) && Between(at, lo, hi) && q != []
    ensures Queued(q[1..], at[1..], stream, base) && Ascending(at[1..]) && Between(at[1..], lo, hi)
    ensures CutAt(q[0], stream, base, at[0]) && 0 < |q[0].data| <= MAX_SEGMENT && lo < at[0] < hi
  {
  }

  lemma {:induction false} Order(m: Mbuf, stream: seq<Byte>, base: nat, a: nat, n: nat)
    requires CutAt(m, stream, base, a) && |m.data| <= MAX_SEGMENT && a < n + TWO16 && n < a + TWO16
    ensures WrapsLte(m.end, Num(base, n)) <==> a + |m.data| <= n
    ensures WrapsGt(m.seq_, Num(base, n)) <==> a > n
    ensures WrapsLte(m.seq_, Num(base, n)) <==> a <= n
  {
    WrapsCompare(base, a + |m.data|, n);
    WrapsCompare(base, a, n);
  }

  /** Acceptability of a segment of the stream that is less than half the number space away puts it where the asserts of
      tcp_rx_append_text want it. */
  lemma {:induction false} AcceptableText(base: nat, n: nat, wnd: nat, len: nat, a: nat)
    requires wnd <= TCP_WIN && 0 < len <= MAX_SEGMENT && a < n + HALF && n < a + HALF
    requires IsAcceptable(Num(base, n), wnd, len, Num(base, a))
    ensures wnd > 0 && n < a + len && a < n + wnd
  {
    assert Sub32(Num(base, a) + len, 1) == Num(base, a + len - 1) by {
      LastByte(base, a, len);
    }
    NumAdd(base, n, wnd);
    WrapsCompare(base, n, a);
    WrapsCompare(base, a, n + wnd);
    WrapsCompare(base, n, a + len - 1);
    WrapsCompare(base, a + len - 1, n + wnd);
  }

  lemma LastByte(base: nat, a: nat, len: nat)
    requires len > 0
    ensures Sub32(Num(base, a) + len, 1) == Num(base, a + len - 1)
  {
  }

  // ----- no byte is lost -----

  /** Byte `p` has been received: it is before the next byte expected, or in an out-of-order segment. */
  ghost predicate Holds(q: seq<Mbuf>, at: seq<nat>, n: nat, p: nat) {
    p < n || exists i :: 0 <= i < |q| && i < |at| && at[i] <= p < at[i] + |q[i].data|
  }

  /** Before `edge` exactly the bytes that were held, and those from `a` up to `b`, are held. */
  ghost predicate HeldExactly(q: seq<Mbuf>, at: seq<nat>, n: nat, q': seq<Mbuf>, at': seq<nat>, n': nat, edge: nat, a: nat, b: nat) {
    forall p: nat :: p < edge ==> (Holds(q', at', n', p) <==> Holds(q, at, n, p) || a <= p < b)
  }

  lemma {:induction false} PopHeld(q: seq<Mbuf>, at: seq<nat>, n: nat, n': nat, edge: nat)
    requires |q| == |at| && q != [] && n <= n' && (at[0] + |q[0].data| <= n' || n' == edge)
    requires n' == n || (at[0] <= n && n' <= at[0] + |q[0].data|)
    ensures HeldExactly(q, at, n, q[1..], at[1..], n', edge, 0, 0)
  {
    forall p: nat | p < edge ensures Holds(q[1..], at[1..], n', p) <==> Holds(q, at, n, p) {
      if p >= n' && Holds(q, at, n, p) {
        var i :| 0 <= i < |q| && at[i] <= p < at[i] + |q[i].data|;
        assert q[1..][i - 1] == q[i] && at[1..][i - 1] == at[i];
      }
      if p >= n && Holds(q[1..], at[1..], n', p) {
        if p < n' {
          assert at[0] <= p < at[0] + |q[0].data|;
        } else {
          var i :| 0 <= i < |q[1..]| && at[1..][i] <= p < at[1..][i] + |q[1..][i].data|;
          assert q[1..][i] == q[i + 1] && at[1..][i] == at[i + 1];
        }
      }
    }
  }

  lemma {:induction false} InsertHeld(q: seq<Mbuf>, at: seq<nat>, n: nat, i: nat, m: Mbuf, a: nat, edge: nat)
    requires |q| == |at| && i <= |q|
    ensures HeldExactly(q, at, n, InsertAt(q, i, m), InsertAt(at, i, a), n, edge, a, a + |m.data|)
  {
    var q', at' := InsertAt(q, i, m), InsertAt(at, i, a);
    assert q'[i] == m && at'[i] == a;
    assert forall k :: 0 <= k < |q'| ==> q'[k] == (if k < i then q[k] else if k == i then m else q[k - 1]);
    assert forall k :: 0 <= k < |q'| ==> at'[k] == (if k < i then at[k] else if k == i then a else at[k - 1]);
    forall p: nat | p < edge && Holds(q, at, n, p) ensures Holds(q', at', n, p) {
      if p >= n {
        var j :| 0 <= j < |q| && at[j] <= p < at[j] + |q[j].data|;
        var k := if j < i then j else j + 1;
        assert q'[k] == q[j] && at'[k] == at[j];
      }
    }
  }

  lemma {:induction false} AppendHeld(q: seq<Mbuf>, at: seq<nat>, n: nat, n': nat, edge: nat, a: nat, b: nat)
    requires a <= n <= n' && n' == if b <= edge then b else edge
    ensures HeldExactly(q, at, n, q, at, n', edge, a, b)
  {
  }

  lemma {:induction false} HeldTrans(q: seq<Mbuf>, at: seq<nat>, n: nat, q1: seq<Mbuf>, at1: seq<nat>, n1: nat,
                                     q2: seq<Mbuf>, at2: seq<nat>, n2: nat, edge: nat, a: nat, b: nat)
    requires HeldExactly(q, at, n, q1, at1, n1, edge, a, b) && HeldExactly(q1, at1, n1, q2, at2, n2, edge, 0, 0)
    ensures HeldExactly(q, at, n, q2, at2, n2, edge, a, b)
  {
    forall p: nat | p < edge ensures Holds(q2, at2, n2, p) <==> Holds(q, at, n, p) || a <= p < b {
      assert Holds(q2, at2, n2, p) <==> Holds(q1, at1, n1, p) || 0 <= p < 0;
    }
  }

  // ----- what draining comes to -----

  ghost function Ends(q: seq<Mbuf>, at: seq<nat>): (to: seq<nat>)
    requires |at| == |q|
    ensures |to| == |q| && forall i :: 0 <= i < |q| ==> to[i] == at[i] + |q[i].data|
  {
    seq(|q|, i requires 0 <= i < |q| => at[i] + |q[i].data|)
  }

  /** The next byte expected once segments from `at[i]` to `to[i]` have been drained, with the window ending at `edge`. */
  ghost function Drained(at: seq<nat>, to: seq<nat>, n: nat, edge: nat): nat
    requires |to| == |at|
  {
    if at == [] || at[0] > n then n
    else Drained(at[1..], to[1..], if to[0] <= n then n else if to[0] <= edge then to[0] else edge, edge)
  }

  /** Draining appends a segment to a window that is already full. */
  ghost predicate DrainsEmpty(at: seq<nat>, to: seq<nat>, n: nat, edge: nat)
    requires |to| == |at|
  {
    && at != [] && at[0] <= n
    && ((to[0] > n && n >= edge) || DrainsEmpty(at[1..], to[1..], if to[0] <= n then n else if to[0] <= edge then to[0] else edge, edge))
  }

  /** One segment reaches the edge of the window, and a later one goes beyond it. */
  ghost predicate Overshoots(to: seq<nat>, edge: nat) {
    exists i, j :: 0 <= i < j < |to| && to[i] >= edge && to[j] > edge
  }

  ghost predicate Beyond(to: seq<nat>, edge: nat) { exists j :: 0 <= j < |to| && to[j] > edge }

  lemma {:induction false} ShiftBeyond(to: seq<nat>, edge: nat)
    requires to != []
    ensures Beyond(to, edge) <==> to[0] > edge || Beyond(to[1..], edge)
    ensures Overshoots(to, edge) <==> (to[0] >= edge && Beyond(to[1..], edge)) || Overshoots(to[1..], edge)
  {
    var u := to[1..];
    assert forall k :: 0 <= k < |u| ==> u[k] == to[k + 1];
    if Beyond(to, edge) && to[0] <= edge {
      var j :| 0 <= j < |to| && to[j] > edge;
      assert u[j - 1] == to[j];
    }
    if Beyond(u, edge) {
      var j :| 0 <= j < |u| && u[j] > edge;
      assert to[j + 1] > edge;
    }
    if Overshoots(to, edge) {
      var i, j :| 0 <= i < j < |to| && to[i] >= edge && to[j] > edge;
      assert u[j - 1] == to[j];
      if i > 0 {
        assert u[i - 1] == to[i];
      }
    }
    if Overshoots(u, edge) {
      var i, j :| 0 <= i < j < |u| && u[i] >= edge && u[j] > edge;
      assert to[i + 1] >= edge && to[j + 1] > edge;
    }
    if to[0] >= edge && Beyond(u, edge) {
      var j :| 0 <= j < |u| && u[j] > edge;
      assert to[j + 1] > edge;
    }
  }

  lemma {:induction false} DrainedBounds(at: seq<nat>, to: seq<nat>, n: nat, edge: nat)
    requires |to| == |at| && n <= edge
    ensures n <= Drained(at, to, n, edge) <= edge
  {
    if at != [] && at[0] <= n {
      DrainedBounds(at[1..], to[1..], if to[0] <= n then n else if to[0] <= edge then to[0] else edge, edge);
    }
  }

  /** On a full window an empty buffer is appended exactly when a segment goes beyond the edge. */
  lemma {:induction false} FullDrain(at: seq<nat>, to: seq<nat>, edge: nat)
    requires |to| == |at| && Between(at, -1, edge)
    ensures Drained(at, to, edge, edge) == edge && (DrainsEmpty(at, to, edge, edge) <==> Beyond(to, edge))
  {
    if at != [] {
      FullDrain(at[1..], to[1..], edge);
      ShiftBeyond(to, edge);
    }
  }

  /** On an open window: exactly when the window fills, one segment reaches the edge and a later one goes beyond it. */
  lemma {:induction false} OpenDrain(at: seq<nat>, to: seq<nat>, n: nat, edge: nat)
    requires |to| == |at| && Between(at, -1, edge) && n < edge
    ensures DrainsEmpty(at, to, n, edge) <==> Drained(at, to, n, edge) == edge && Overshoots(to, edge)
  {
    if at != [] && at[0] <= n {
      ShiftBeyond(to, edge);
      if to[0] < edge {
        OpenDrain(at[1..], to[1..], if to[0] <= n then n else to[0], edge);
      } else {
        FullDrain(at[1..], to[1..], edge);
        if Overshoots(to[1..], edge) {
          OvershootsBeyond(to[1..], edge);
        }
      }
    }
  }

  lemma OvershootsBeyond(to: seq<nat>, edge: nat)
    requires Overshoots(to, edge)
    ensures Beyond(to, edge)
  {
  }

  /** Where a segment that starts at `a` belongs among segments sorted by start. */
  ghost function PlaceOf(at: seq<nat>, a: nat): (i: nat)
    ensures i <= |at|
  {
    if at == [] || at[0] > a then 0 else 1 + PlaceOf(at[1..], a)
  }

  lemma {:induction false} PlaceUnique(at: seq<nat>, a: nat, i: nat)
    requires i <= |at| && (forall k :: 0 <= k < i ==> at[k] <= a) && (i < |at| ==> a < at[i])
    ensures PlaceOf(at, a) == i
  {
    if i > 0 {
      PlaceUnique(at[1..], a, i - 1);
    }
  }

  lemma {:induction false} InsertEnds(q: seq<Mbuf>, at: seq<nat>, i: nat, m: Mbuf, a: nat)
    requires |at| == |q| && i <= |q|
    ensures Ends(InsertAt(q, i, m), InsertAt(at, i, a)) == InsertAt(Ends(q, at), i, a + |m.data|)
  {
    var q', at' := InsertAt(q, i, m), InsertAt(at, i, a);
    assert forall k :: 0 <= k < |q'| ==> q'[k] == (if k < i then q[k] else if k == i then m else q[k - 1]);
    assert forall k :: 0 <= k < |q'| ==> at'[k] == (if k < i then at[k] else if k == i then a else at[k - 1]);
  }

  /** A buffer added since `q` is empty. */
  ghost predicate NewEmpty(q: seq<Mbuf>, q': seq<Mbuf>) {
    exists k :: |q| <= k < |q'| && q'[k].data == []
  }

  lemma {:induction false} NewEmptyStep(q: seq<Mbuf>, q1: seq<Mbuf>, b: Mbuf)
    requires |q| <= |q1|
    ensures NewEmpty(q, q1 + [b]) <==> NewEmpty(q, q1) || b.data == []
  {
    var q2 := q1 + [b];
    assert q2[|q1|] == b;
    assert forall k :: 0 <= k < |q1| ==> q2[k] == q1[k];
  }

  // ----- the in-order queue -----

  /** The queue holds the stream from byte `from` up to the next byte expected, `n`. */
  ghost predicate Received(q: seq<Mbuf>, stream: seq<Byte>, from: nat, n: nat) {
    from <= n <= |stream| && Bytes(q) == stream[from..n]
  }

  lemma {:induction false} ReceivedAppend(q: seq<Mbuf>, m: Mbuf, stream: seq<Byte>, base: nat, from: nat, n: nat)
    requires Received(q, stream, from, n) && CutAt(m, stream, base, n)
    ensures Received(q + [m], stream, from, n + |m.data|)
  {
    BytesAppend(q, m);
  }

  lemma {:induction false} ReceivedPop(q: seq<Mbuf>, stream: seq<Byte>, from: nat, n: nat)
    requires Received(q, stream, from, n) && q != []
    ensures from + |q[0].data| <= n && q[0].data == stream[from..from + |q[0].data|]
    ensures Received(q[1..], stream, from + |q[0].data|, n)
  {
    var k := |q[0].data|;
    assert Bytes(q)[..k] == q[0].data && Bytes(q)[k..] == Bytes(q[1..]);
    assert stream[from..n][..k] == stream[from..from + k] && stream[from..n][k..] == stream[from + k..n];
  }

  lemma {:induction false} ReceivedPull(q: seq<Mbuf>, rest: Mbuf, stream: seq<Byte>, from: nat, n: nat, k: nat)
    requires Received(q, stream, from, n) && q != [] && k <= |q[0].data| && rest.data == q[0].data[k..]
    ensures Received([rest] + q[1..], stream, from + k, n)
  {
    ReceivedPop(q, stream, from, n);
    var d := |q[0].data|;
    assert rest.data == stream[from + k..from + d];
    assert stream[from + k..n] == stream[from + k..from + d] + stream[from + d..n];
  }

  /** The buffers carry the numbers of the bytes they hold, from byte `from` on. */
  ghost predicate Lined(q: seq<Mbuf>, stream: seq<Byte>, base: nat, from: nat)
    decreases |q|
  {
    q != [] ==> CutAt(q[0], stream, base, from) && Lined(q[1..], stream, base, from + |q[0].data|)
  }

  lemma {:induction false} LinedAppend(q: seq<Mbuf>, m: Mbuf, stream: seq<Byte>, base: nat, from: nat)
    requires Lined(q, stream, base, from) && CutAt(m, stream, base, from + |Bytes(q)|)
    ensures Lined(q + [m], stream, base, from)
  {
    var q' := q + [m];
    if q == [] {
      assert q'[1..] == [];
    } else {
      LinedAppend(q[1..], m, stream, base, from + |q[0].data|);
      assert q'[1..] == q[1..] + [m];
    }
  }

  lemma {:induction false} LinedRest(q: seq<Mbuf>, rest: seq<Mbuf>, stream: seq<Byte>, base: nat, from: nat)
    requires Lined(q + rest, stream, base, from)
    ensures Lined(rest, stream, base, from + |Bytes(q)|)
  {
    if q == [] {
      assert q + rest == rest;
    } else {
      var all := q + rest;
      assert all[0] == q[0] && all[1..] == q[1..] + rest;
      LinedRest(q[1..], rest, stream, base, from + |q[0].data|);
      assert |Bytes(q)| == |q[0].data| + |Bytes(q[1..])|;
    }
  }

  /** The first `k` bytes leave the first buffer. */
  lemma {:induction false} LinedPull(q: seq<Mbuf>, rest: Mbuf, stream: seq<Byte>, base: nat, from: nat, k: nat)
    requires Lined(q, stream, base, from) && q != [] && k <= |q[0].data|
    requires rest == q[0].(data := q[0].data[k..], seq_ := Add32(q[0].seq_, k))
    ensures Lined([rest] + q[1..], stream, base, from + k)
  {
    NumAdd(base, from, k);
    assert ([rest] + q[1..])[1..] == q[1..];
  }

  /** Buffers were only added at the end. */
  ghost predicate Extends(q: seq<Mbuf>, q': seq<Mbuf>) { q <= q' }

  /** One buffer was added. */
  ghost predicate Grew(q: seq<Mbuf>, q': seq<Mbuf>) { q' != [] && q' == q + [q'[|q'| - 1]] }

  lemma {:induction false} SameHeld(q: seq<Mbuf>, at: seq<nat>, n: nat, edge: nat)
    ensures HeldExactly(q, at, n, q, at, n, edge, 0, 0)
  {
  }

  lemma {:induction false} PopEnds(q: seq<Mbuf>, at: seq<nat>)
    requires |at| == |q| && q != []
    ensures Ends(q, at)[1..] == Ends(q[1..], at[1..])
  {
  }

  /** The last of the buffers was still needed to reach `len` bytes. */
  ghost predicate Needed(q: seq<Mbuf>, len: nat) { q != [] ==> |Bytes(q[..|q| - 1])| < len }

  lemma {:induction false} NeededNext(q: seq<Mbuf>, m: Mbuf, len: nat)
    requires |Bytes(q)| < len
    ensures Needed(q + [m], len)
  {
    assert (q + [m])[..|q|] == q;
  }

  /** The loop of tcp_read_wait: whole buffers move to `q`, and `claim` bytes of the next one are promised. */
  method TakeBuffers(q0: seq<Mbuf>, len: nat, ghost stream: seq<Byte>, ghost from: nat, ghost n: nat)
    returns (readlen: nat, q: seq<Mbuf>, rest: seq<Mbuf>, claim: nat)
    requires Received(q0, stream, from, n)
    ensures Received(rest, stream, from + |Bytes(q)|, n)
    ensures claim > 0 ==> rest != [] && claim < |rest[0].data| <= n - from - |Bytes(q)|
    ensures HandedOver(q0, stream, from, n, len, readlen, q, rest, claim)
  {
    q, rest, readlen, claim := [], q0, 0, 0;
    TakingStart(q0, stream, from, n, len);
    while readlen < len
      invariant Taking(q0, q, rest, stream, from, n, len) && readlen == |Bytes(q)| <= len && claim == 0
      decreases len - readlen, |rest|
    {
      if rest == [] {
        break;
      }
      var m := rest[0];
      TookOne(q0, q, rest, stream, from, n, len);
      assert |m.data| <= n - from - readlen;
      if len - readlen < |m.data| {
        claim, readlen := len - readlen, len;
        break;
      }
      rest, q := rest[1..], q + [m];
      readlen := readlen + |m.data|;
    }
  }

  /** What a read of up to `len` bytes gets: the next `readlen` bytes, in whole buffers `q` and the first `claim` bytes of
      the rest, and no buffer more than needed. */
  ghost predicate HandedOver(q0: seq<Mbuf>, stream: seq<Byte>, from: nat, n: nat, len: nat, readlen: nat, q: seq<Mbuf>, rest: seq<Mbuf>, claim: nat) {
    && from <= n && readlen == |Bytes(q)| + claim == (if len <= n - from then len else n - from)
    && from + |Bytes(q)| <= n <= |stream| && Bytes(q) == stream[from..from + |Bytes(q)|]
    && q0 == q + rest && Needed(q, len) && (readlen == 0 <==> len == 0 || Bytes(q0) == [])
  }

  /** Part of the queue has moved. */
  ghost predicate Taking(q0: seq<Mbuf>, q: seq<Mbuf>, rest: seq<Mbuf>, stream: seq<Byte>, from: nat, n: nat, len: nat) {
    && from + |Bytes(q)| <= n <= |stream| && Bytes(q) == stream[from..from + |Bytes(q)|]
    && Received(rest, stream, from + |Bytes(q)|, n) && q0 == q + rest && Needed(q, len)
  }

  lemma {:induction false} TakingStart(q0: seq<Mbuf>, stream: seq<Byte>, from: nat, n: nat, len: nat)
    requires Received(q0, stream, from, n)
    ensures Taking(q0, [], q0, stream, from, n, len) && |Bytes(q0)| == n - from && Bytes([]) == []
  {
    assert q0 == [] + q0;
  }

  lemma {:induction false} TookOne(q0: seq<Mbuf>, q: seq<Mbuf>, rest: seq<Mbuf>, stream: seq<Byte>, from: nat, n: nat, len: nat)
    requires Taking(q0, q, rest, stream, from, n, len) && rest != [] && |Bytes(q)| < len
    ensures Taking(q0, q + [rest[0]], rest[1..], stream, from, n, len)
    ensures |Bytes(q + [rest[0]])| == |Bytes(q)| + |rest[0].data| <= n - from
  {
    var at, k := from + |Bytes(q)|, |rest[0].data|;
    ReceivedPop(rest, stream, at, n);
    BytesAppend(q, rest[0]);
    NeededNext(q, rest[0], len);
    Glue(stream, from, at, at + k);
    assert q0 == (q + [rest[0]]) + rest[1..];
  }

  lemma FrontOf(s: seq<Byte>, a: nat, k: nat, c: nat)
    requires c <= k && a + k <= |s|
    ensures s[a..a + k][..c] == s[a..a + c]
  {
  }

  lemma Glue(s: seq<Byte>, a: nat, b: nat, c: nat)
    requires a <= b <= c <= |s|
    ensures s[a..b] + s[b..c] == s[a..c]
  {
  }

  lemma WiderWindow(at: seq<nat>, lo: int, hi: int, hi': int)
    requires Between(at, lo, hi) && hi <= hi'
    ensures Between(at, lo, hi')
  {
  }

  // ----- tcp_rx_text -----

  /** The receive half of the PCB with its two queues. */
  datatype Rx = Rx(nxt: nat, wnd: nat, full: bool, q: seq<Mbuf>, ooo: seq<Mbuf>)

  /** The bytes the peer sends, the number of the first, and the first that is still queued. */
  datatype Peer = Peer(stream: seq<Byte>, base: nat, from: nat)

  /** The queue holds the peer's bytes up to the next one expected, at position `n`; a window of 0 is on record. */
  ghost predicate InOrder(r: Rx, w: Peer, n: nat) {
    && r.nxt == Num(w.base, n) && r.wnd <= TCP_WIN && (r.wnd == 0 ==> r.full)
    && Received(r.q, w.stream, w.from, n) && Lined(r.q, w.stream, w.base, w.from)
  }

  /** The out-of-order queue is sorted by start, and every segment in it starts between `lo` and `edge`. */
  ghost predicate OutOfOrder(r: Rx, w: Peer, at: seq<nat>, lo: int, edge: int) {
    Queued(r.ooo, at, w.stream, w.base) && Ascending(at) && Between(at, lo, edge)
  }

  ghost predicate Segment(m: Mbuf, w: Peer, a: nat) {
    CutAt(m, w.stream, w.base, a) && 0 < |m.data| <= MAX_SEGMENT
  }

  /** tcp_rx_append_text: the part of the segment inside the window joins the queue. That part is empty exactly when the
      window is full. */
  method AppendText(r0: Rx, m0: Mbuf, ghost w: Peer, ghost n0: nat, ghost a: nat) returns (r: Rx, ghost n: nat)
    requires InOrder(r0, w, n0) && Segment(m0, w, a) && a <= n0 < a + |m0.data|
    ensures InOrder(r, w, n) && n + r.wnd == n0 + r0.wnd && r.ooo == r0.ooo
    ensures n == if a + |m0.data| <= n0 + r0.wnd then a + |m0.data| else n0 + r0.wnd
    ensures Grew(r0.q, r.q) && (r.q[|r.q| - 1].data == [] <==> r0.wnd == 0)
    ensures r.full <==> r0.full || r.wnd == 0
  {
    var m, taken := Clip(m0, r0.nxt, r0.wnd, w.stream, w.base, a, n0);
    assert r0.wnd >= taken;
    ReceivedAppend(r0.q, m, w.stream, w.base, w.from, n0);
    LinedAppend(r0.q, m, w.stream, w.base, w.from);
    r := r0.(nxt := m.end, wnd := r0.wnd - taken, full := r0.full || r0.wnd == taken, q := r0.q + [m]);
    n := n0 + taken;
  }

  /** One turn of the drain loop: the first out-of-order segment is dropped, appended, or stops the loop. */
  method DrainTop(r0: Rx, ghost w: Peer, ghost n0: nat, ghost at0: seq<nat>, ghost lo: int)
    returns (r: Rx, more: bool, appended: bool, ghost n: nat, ghost at: seq<nat>)
    requires InOrder(r0, w, n0) && lo <= n0 && n0 + r0.wnd <= lo + TCP_WIN && OutOfOrder(r0, w, at0, lo, n0 + r0.wnd) && r0.ooo != []
    ensures InOrder(r, w, n) && OutOfOrder(r, w, at, lo, n + r.wnd) && n0 + r0.wnd == n + r.wnd && n0 <= n
    ensures more <==> at0[0] <= n0
    ensures !more ==> r == r0 && n == n0 && at == at0 && !appended
    ensures more ==> r.ooo == r0.ooo[1..] && at == at0[1..]
    ensures appended <==> at0[0] <= n0 < at0[0] + |r0.ooo[0].data|
    ensures !appended ==> r.q == r0.q && n == n0
    ensures r.full <==> r0.full || r.wnd == 0
    ensures appended ==> Grew(r0.q, r.q) && (r.q[|r.q| - 1].data == [] <==> r0.wnd == 0)
    ensures appended ==> n == var to := at0[0] + |r0.ooo[0].data|; if to <= n0 + r0.wnd then to else n0 + r0.wnd
  {
    var pos := r0.ooo[0];
    ghost var a := at0[0];
    PopQueued(r0.ooo, at0, w.stream, w.base, lo, n0 + r0.wnd);
    Order(pos, w.stream, w.base, a, n0);
    r, n, at := r0, n0, at0;
    if WrapsLte(pos.end, r.nxt) {
      r, at := r.(ooo := r.ooo[1..]), at[1..];
      return r, true, false, n, at;
    }
    if WrapsGt(pos.seq_, r.nxt) {
      return r, false, false, n, at;
    }
    r, at := r.(ooo := r.ooo[1..]), at[1..];
    r, n := AppendText(r, pos, w, n, a);
    return r, true, true, n, at;
  }

  /** What a turn does to the outcome of draining. */
  lemma {:induction false} TurnOutcome(q: seq<Mbuf>, at: seq<nat>, n: nat, n': nat, edge: nat)
    requires |at| == |q| && q != [] && at[0] <= n <= edge
    requires n' == var to := at[0] + |q[0].data|; if to <= n then n else if to <= edge then to else edge
    ensures Drained(at, Ends(q, at), n, edge) == Drained(at[1..], Ends(q[1..], at[1..]), n', edge)
    ensures DrainsEmpty(at, Ends(q, at), n, edge) <==>
              (at[0] + |q[0].data| > n && n == edge) || DrainsEmpty(at[1..], Ends(q[1..], at[1..]), n', edge)
    ensures HeldExactly(q, at, n, q[1..], at[1..], n', edge, 0, 0)
  {
    PopEnds(q, at);
    PopHeld(q, at, n, n', edge);
  }

  /** The drain loop so far: `r1`, `n1`, `at1` is where it started. */
  ghost predicate Draining(r1: Rx, n1: nat, at1: seq<nat>, r: Rx, n: nat, at: seq<nat>, edge: nat) {
    && |at1| == |r1.ooo| && |at| == |r.ooo| && n1 <= n
    && HeldExactly(r1.ooo, at1, n1, r.ooo, at, n, edge, 0, 0)
    && Drained(at, Ends(r.ooo, at), n, edge) == Drained(at1, Ends(r1.ooo, at1), n1, edge)
    && (DrainsEmpty(at1, Ends(r1.ooo, at1), n1, edge) <==> DrainsEmpty(at, Ends(r.ooo, at), n, edge) || NewEmpty(r1.q, r.q))
    && Extends(r1.q, r.q) && (NewEmpty(r1.q, r.q) ==> n == edge && r.q[|r.q| - 1].data == [])
    && (r.full <==> r1.full || r.wnd == 0)
  }

  lemma {:induction false} DrainingStart(r: Rx, n: nat, at: seq<nat>, edge: nat)
    requires |at| == |r.ooo| && (r.wnd == 0 ==> r.full)
    ensures Draining(r, n, at, r, n, at, edge)
  {
    SameHeld(r.ooo, at, n, edge);
  }

  lemma {:induction false} DrainingTurn(r1: Rx, n1: nat, at1: seq<nat>, r: Rx, n: nat, at: seq<nat>, r': Rx, n': nat, at': seq<nat>, edge: nat, appended: bool)
    requires Draining(r1, n1, at1, r, n, at, edge) && r.ooo != [] && at[0] <= n <= edge
    requires r'.ooo == r.ooo[1..] && at' == at[1..] && (appended <==> at[0] <= n < at[0] + |r.ooo[0].data|)
    requires n' == var to := at[0] + |r.ooo[0].data|; if to <= n then n else if to <= edge then to else edge
    requires r'.wnd <= r.wnd && (r'.full <==> r.full || r'.wnd == 0)
    requires if appended then Grew(r.q, r'.q) && (r'.q[|r'.q| - 1].data == [] <==> n == edge) else r'.q == r.q
    ensures Draining(r1, n1, at1, r', n', at', edge)
  {
    TurnOutcome(r.ooo, at, n, n', edge);
    HeldTrans(r1.ooo, at1, n1, r.ooo, at, n, r'.ooo, at', n', edge, 0, 0);
    if appended {
      NewEmptyStep(r1.q, r.q, r'.q[|r'.q| - 1]);
    }
  }

  /** The drain loop of tcp_rx_text. */
  method Drain(r1: Rx, ghost w: Peer, ghost n1: nat, ghost at1: seq<nat>, ghost lo: int)
    returns (r: Rx, appended: bool, ghost n: nat, ghost at: seq<nat>)
    requires InOrder(r1, w, n1) && lo <= n1 && n1 + r1.wnd <= lo + TCP_WIN && OutOfOrder(r1, w, at1, lo, n1 + r1.wnd)
    ensures InOrder(r, w, n) && n + r.wnd == n1 + r1.wnd && OutOfOrder(r, w, at, n, n + r.wnd)
    ensures Draining(r1, n1, at1, r, n, at, n + r.wnd) && (appended <==> r.q != r1.q)
    ensures n == Drained(at1, Ends(r1.ooo, at1), n1, n1 + r1.wnd) && !DrainsEmpty(at, Ends(r.ooo, at), n, n + r.wnd)
    ensures at1 == [] || at1[0] > n1 ==> r == r1 && at == at1 && n == n1
  {
    r, n, at, appended := r1, n1, at1, false;
    ghost var edge := n1 + r1.wnd;
    DrainingStart(r1, n1, at1, edge);
    while r.ooo != []
      invariant InOrder(r, w, n) && n + r.wnd == edge && OutOfOrder(r, w, at, lo, edge) && n1 <= n
      invariant Draining(r1, n1, at1, r, n, at, edge) && (appended <==> r.q != r1.q)
      invariant at1 == [] || at1[0] > n1 ==> r == r1 && at == at1 && n == n1
      decreases |r.ooo|
    {
      ghost var r2, n2, at2 := r, n, at;
      var more, one;
      r, more, one, n, at := DrainTop(r, w, n, at, lo);
      if !more {
        break;
      }
      DrainingTurn(r1, n1, at1, r2, n2, at2, r, n, at, edge, one);
      appended := appended || one;
    }
    SortedBeyond(at, lo, n, edge);
    DrainingEnd(r1, n1, at1, r, n, at, edge);
  }

  lemma {:induction false} DrainingEnd(r1: Rx, n1: nat, at1: seq<nat>, r: Rx, n: nat, at: seq<nat>, edge: nat)
    requires Draining(r1, n1, at1, r, n, at, edge) && (at == [] || at[0] > n)
    ensures n == Drained(at1, Ends(r1.ooo, at1), n1, edge) && !DrainsEmpty(at, Ends(r.ooo, at), n, edge)
  {
  }

  lemma SortedBeyond(at: seq<nat>, lo: int, n: nat, edge: int)
    requires Ascending(at) && Between(at, lo, edge) && (at == [] || at[0] > n)
    ensures Between(at, n, edge)
  {
  }

  /** The segment only joined the out-of-order queue, at its place by start. */
  ghost predicate Waits(r0: Rx, at0: seq<nat>, m: Mbuf, a: nat, r: Rx, at: seq<nat>) {
    && |at0| == |r0.ooo| && at == InsertAt(at0, PlaceOf(at0, a), a)
    && r == r0.(ooo := InsertAt(r0.ooo, PlaceOf(at0, a), m))
  }

  /** When a segment out of order is refused: a queued one covers it, or it belongs at the end of a queue that is too
      long. */
  ghost predicate Refused(r: Rx, at: seq<nat>, m: Mbuf, a: nat)
    requires |at| == |r.ooo|
  {
    Covered(r.ooo, at, a, a + |m.data|) || (|r.ooo| >= TCP_OOO_MAX_SIZE && PlaceOf(at, a) == |at|)
  }

  /** The out-of-order half of the first part of tcp_rx_text: the segment is put in its place, or refused. */
  method Queue(r0: Rx, m: Mbuf, ghost w: Peer, ghost n: nat, ghost at0: seq<nat>, ghost a: nat)
    returns (r: Rx, ok: bool, ghost at: seq<nat>)
    requires InOrder(r0, w, n) && OutOfOrder(r0, w, at0, n, n + r0.wnd) && Segment(m, w, a) && n < a < n + r0.wnd
    ensures OutOfOrder(r, w, at, n, n + r.wnd) && (ok <==> !Refused(r0, at0, m, a)) && (!ok ==> r == r0 && at == at0)
    ensures ok ==> Waits(r0, at0, m, a, r, at) && HeldExactly(r0.ooo, at0, n, r.ooo, at, n, n + r.wnd, a, a + |m.data|)
    ensures ok ==> Ends(r.ooo, at) == InsertAt(Ends(r0.ooo, at0), PlaceOf(at0, a), a + |m.data|)
  {
    var i;
    r, at := r0, at0;
    ok, i := PlaceOoo(r.ooo, m, at, w.stream, w.base, a, n);
    if ok {
      PlaceUnique(at0, a, i);
      InsertQueued(r0.ooo, at0, w.stream, w.base, i, m, a);
      InsertAscending(at0, i, a, n, n + r0.wnd);
      InsertHeld(r0.ooo, at0, n, i, m, a, n + r0.wnd);
      InsertEnds(r0.ooo, at0, i, m, a);
      r, at := r.(ooo := InsertAt(r.ooo, i, m)), InsertAt(at, i, a);
    }
  }

  /** The ends of the segments, out-of-order ones and the new one, in the order in which they are looked at. */
  ghost function Line(r: Rx, at: seq<nat>, m: Mbuf, a: nat): seq<nat>
    requires |at| == |r.ooo|
  {
    InsertAt(Ends(r.ooo, at), PlaceOf(at, a), a + |m.data|)
  }

  /** The two halves of tcp_rx_text together: when a new buffer is empty. `to1` are the ends in the out-of-order queue once
      the segment from `a` to `b` has arrived. */
  lemma {:induction false} EmptyIff(r0: seq<Mbuf>, r1: seq<Mbuf>, r2: seq<Mbuf>, at0: seq<nat>, to0: seq<nat>, at1: seq<nat>, to1: seq<nat>,
                                    n1: nat, n2: nat, edge: nat, a: nat, b: nat, inOrder: bool)
    requires |to0| == |at0| && |to1| == |at1| && Between(at1, -1, edge) && n1 <= edge && n2 == Drained(at1, to1, n1, edge)
    requires Extends(r1, r2) && (NewEmpty(r1, r2) <==> DrainsEmpty(at1, to1, n1, edge))
    requires inOrder ==> Grew(r0, r1) && r1[|r1| - 1].data != [] && at1 == at0 && to1 == to0 && n1 == (if b <= edge then b else edge)
    requires inOrder ==> PlaceOf(at0, a) == 0
    requires !inOrder ==> r1 == r0 && n1 < edge && to1 == InsertAt(to0, PlaceOf(at0, a), b)
    ensures NewEmpty(r0, r2) <==> n2 == edge && Overshoots(InsertAt(to0, PlaceOf(at0, a), b), edge)
  {
    var line := InsertAt(to0, PlaceOf(at0, a), b);
    if inOrder {
      assert line[1..] == to0 && line[0] == b;
      ShiftBeyond(line, edge);
      LaterEmpty(r0, r1, r2);
      if b >= edge {
        FullDrain(at1, to1, edge);
        if Overshoots(to0, edge) {
          OvershootsBeyond(to0, edge);
        }
      } else {
        OpenDrain(at1, to1, n1, edge);
      }
    } else {
      OpenDrain(at1, to1, n1, edge);
    }
  }

  lemma {:induction false} LaterEmpty(r0: seq<Mbuf>, r1: seq<Mbuf>, r2: seq<Mbuf>)
    requires Grew(r0, r1) && r1[|r1| - 1].data != [] && Extends(r1, r2)
    ensures NewEmpty(r0, r2) <==> NewEmpty(r1, r2)
  {
    assert r2[|r0|] == r1[|r0|];
  }

  /** What tcp_rx_text did with a segment that it used. */
  ghost predicate Used(r0: Rx, n0: nat, at0: seq<nat>, m: Mbuf, a: nat, r: Rx, n: nat, at: seq<nat>)
    requires |at0| == |r0.ooo|
  {
    && Extends(r0.q, r.q) && n >= n0 && HeldExactly(r0.ooo, at0, n0, r.ooo, at, n, n + r.wnd, a, a + |m.data|)
    && (if a > n0 then n == n0 && Waits(r0, at0, m, a, r, at) else n > n0 && r.q != [])
    && (NewEmpty(r0.q, r.q) <==> r.wnd == 0 && Overshoots(Line(r0, at0, m, a), n + r.wnd))
    && (NewEmpty(r0.q, r.q) ==> r.q[|r.q| - 1].data == []) && (r.full <==> r0.full || r.wnd == 0)
  }

  /** The window is full afterwards exactly when every byte inside it had been received before or is in the segment. */
  lemma {:induction false} FullIff(r0: Rx, n0: nat, at0: seq<nat>, m: Mbuf, a: nat, r: Rx, n: nat, at: seq<nat>)
    requires |at0| == |r0.ooo| && Used(r0, n0, at0, m, a, r, n, at) && Between(at, n, n + r.wnd)
    ensures r.wnd == 0 <==> forall p: nat :: p < n + r.wnd ==> Holds(r0.ooo, at0, n0, p) || a <= p < a + |m.data|
  {
    assert !Holds(r.ooo, at, n, n);
    if r.wnd > 0 {
      assert !(Holds(r0.ooo, at0, n0, n) || a <= n < a + |m.data|);
    }
  }

  /** tcp_rx_text for a segment in order. */
  method TextInOrder(r0: Rx, m: Mbuf, ghost w: Peer, ghost n0: nat, ghost at0: seq<nat>, ghost a: nat)
    returns (r: Rx, wake: bool, ghost n: nat, ghost at: seq<nat>)
    requires InOrder(r0, w, n0) && OutOfOrder(r0, w, at0, n0, n0 + r0.wnd) && Segment(m, w, a)
    requires r0.wnd > 0 && a <= n0 < a + |m.data|
    ensures InOrder(r, w, n) && n + r.wnd == n0 + r0.wnd && OutOfOrder(r, w, at, n, n + r.wnd)
    ensures Used(r0, n0, at0, m, a, r, n, at) && (wake <==> m.push || r.wnd == 0)
  {
    wake := m.push;
    var r1, appended;
    ghost var n1;
    r1, n1 := AppendText(r0, m, w, n0, a);
    r, appended, n, at := Drain(r1, w, n1, at0, n0);
    wake := wake || (appended && m.push) || r.wnd == 0;
    InOrderUsed(r0, n0, at0, m, a, r1, n1, r, n, at);
  }

  lemma {:induction false} InOrderUsed(r0: Rx, n0: nat, at0: seq<nat>, m: Mbuf, a: nat, r1: Rx, n1: nat, r: Rx, n: nat, at: seq<nat>)
    requires |at0| == |r0.ooo| && Between(at0, n0, n0 + r0.wnd) && a <= n0 < n1 && r1.ooo == r0.ooo && n + r.wnd == n0 + r0.wnd
    requires n1 == (if a + |m.data| <= n + r.wnd then a + |m.data| else n + r.wnd)
    requires Grew(r0.q, r1.q) && r1.q[|r1.q| - 1].data != []
    requires Draining(r1, n1, at0, r, n, at, n + r.wnd) && n == Drained(at0, Ends(r0.ooo, at0), n1, n + r.wnd)
    requires !DrainsEmpty(at, Ends(r.ooo, at), n, n + r.wnd) && (r1.full <==> r0.full || r1.wnd == 0) && r.wnd <= r1.wnd
    ensures Used(r0, n0, at0, m, a, r, n, at)
  {
    var edge, to := n + r.wnd, Ends(r0.ooo, at0);
    assert HeldExactly(r0.ooo, at0, n0, r.ooo, at, n, edge, a, a + |m.data|) by {
      AppendHeld(r0.ooo, at0, n0, n1, edge, a, a + |m.data|);
      HeldTrans(r0.ooo, at0, n0, r1.ooo, at0, n1, r.ooo, at, n, edge, a, a + |m.data|);
    }
    PlaceUnique(at0, a, 0);
    EmptyIff(r0.q, r1.q, r.q, at0, to, at0, to, n1, n, edge, a, a + |m.data|, true);
    LastEmpty(r0.q, r1.q, r.q);
  }

  lemma {:induction false} LastEmpty(r0: seq<Mbuf>, r1: seq<Mbuf>, r2: seq<Mbuf>)
    requires Grew(r0, r1) && r1[|r1| - 1].data != [] && Extends(r1, r2) && (NewEmpty(r1, r2) ==> r2[|r2| - 1].data == [])
    ensures Extends(r0, r2) && r2 != [] && (NewEmpty(r0, r2) ==> r2[|r2| - 1].data == [])
  {
    LaterEmpty(r0, r1, r2);
  }

  /** tcp_rx_text for a segment out of order. */
  method TextOutOfOrder(r0: Rx, m: Mbuf, ghost w: Peer, ghost n0: nat, ghost at0: seq<nat>, ghost a: nat)
    returns (r: Rx, used: bool, wake: bool, ghost at: seq<nat>)
    requires InOrder(r0, w, n0) && OutOfOrder(r0, w, at0, n0, n0 + r0.wnd) && Segment(m, w, a)
    requires r0.wnd > 0 && n0 < a < n0 + r0.wnd
    ensures InOrder(r, w, n0) && r.wnd == r0.wnd && OutOfOrder(r, w, at, n0, n0 + r.wnd) && !wake
    ensures used <==> !Refused(r0, at0, m, a)
    ensures if used then Used(r0, n0, at0, m, a, r, n0, at) else r == r0 && at == at0
  {
    var r1, appended;
    ghost var at1, n;
    wake := false;
    r1, used, at1 := Queue(r0, m, w, n0, at0, a);
    if !used {
      return r1, false, false, at1;
    }
    r, appended, n, at := Drain(r1, w, n0, at1, n0);
    wake := (appended && m.push) || r.wnd == 0;
    NoNewEmpty(r0.q);
  }

  lemma NoNewEmpty(q: seq<Mbuf>)
    ensures !NewEmpty(q, q)
  {
  }

  /** tcp_rx_text on an open window. */
  method Text(r0: Rx, m: Mbuf, ghost w: Peer, ghost n0: nat, ghost at0: seq<nat>, ghost a: nat)
    returns (r: Rx, used: bool, wake: bool, ghost n: nat, ghost at: seq<nat>)
    requires InOrder(r0, w, n0) && OutOfOrder(r0, w, at0, n0, n0 + r0.wnd) && Segment(m, w, a)
    requires r0.wnd > 0 && n0 < a + |m.data| && a < n0 + r0.wnd
    ensures InOrder(r, w, n) && n + r.wnd == n0 + r0.wnd && OutOfOrder(r, w, at, n, n + r.wnd)
    ensures used <==> a <= n0 || !Refused(r0, at0, m, a)
    ensures if used then Used(r0, n0, at0, m, a, r, n, at) else r == r0 && n == n0 && at == at0
    ensures wake <==> a <= n0 && (m.push || r.wnd == 0)
  {
    Order(m, w.stream, w.base, a, n0);
    if WrapsLte(m.seq_, r0.nxt) {
      used := true;
      r, wake, n, at := TextInOrder(r0, m, w, n0, at0, a);
    } else {
      n := n0;
      r, used, wake, at := TextOutOfOrder(r0, m, w, n0, at0, a);
    }
  }

  /** The segment has text for the window. */
  method HasText(nxt: nat, wnd: nat, m: Mbuf, ghost stream: seq<Byte>, ghost base: nat, ghost n: nat, ghost a: nat) returns (fits: bool)
    requires CutAt(m, stream, base, a) && |m.data| <= MAX_SEGMENT && a < n + HALF && n < a + HALF
    requires wnd <= TCP_WIN && nxt == Num(base, n)
    ensures fits <==> |m.data| > 0 && Rfc793Acceptable(nxt, wnd, |m.data|, m.seq_)
    ensures fits ==> wnd > 0 && n < a + |m.data| && a < n + wnd
  {
    AcceptableIffRfc(wnd);
    fits := |m.data| > 0 && IsAcceptable(nxt, wnd, |m.data|, m.seq_);
    if fits {
      AcceptableText(base, n, wnd, |m.data|, a);
    }
  }

  /** The first bytes of the first buffer are copied out. */
  method PullFront(q0: seq<Mbuf>, len: nat, ghost stream: seq<Byte>, ghost base: nat, ghost from: nat, ghost n: nat)
    returns (bytes: seq<Byte>, q: seq<Mbuf>)
    requires Received(q0, stream, from, n) && Lined(q0, stream, base, from) && q0 != [] && len <= |q0[0].data|
    ensures from + len <= n && bytes == stream[from..from + len]
    ensures Received(q, stream, from + len, n) && Lined(q, stream, base, from + len)
  {
    var m := q0[0];
    ReceivedPop(q0, stream, from, n);
    bytes := m.data[..len];
    FrontOf(stream, from, |m.data|, len);
    var rest := m.(data := m.data[len..], seq_ := Add32(m.seq_, len));
    ReceivedPull(q0, rest, stream, from, n, len);
    LinedPull(q0, rest, stream, base, from, len);
    q := [rest] + q0[1..];
  }

  // ----- the connection -----

  class Conn {
    var rcvNxt: nat
    var rcvWnd: nat
    var rcvWndFull: bool
    var rxExclusive: bool
    var rxq: seq<Mbuf>
    var rxqOoo: seq<Mbuf>
    /** The bytes the peer sends, and the number of the first. */
    ghost const stream: seq<Byte>
    ghost const base: nat
    /** Positions: the bytes the reader has copied out, the next byte expected, and the starts of the out-of-order
        segments. */
    ghost var copied: nat
    ghost var next: nat
    ghost var at: seq<nat>
    /** Bytes of the first buffer promised to a reader that has not copied them yet. */
    ghost var claimed: nat

    /** The right edge of the window. */
    ghost function Edge(): nat
      reads this
    {
      next + rcvWnd
    }

    ghost function Pcb(): Rx
      reads this
    {
      Rx(rcvNxt, rcvWnd, rcvWndFull, rxq, rxqOoo)
    }

    ghost function World(): Peer
      reads this
    {
      Peer(stream, base, copied)
    }

    /** What was copied and what is queued is the stream up to the next byte expected, the out-of-order queue is sorted and
        lies beyond it, and the window and the bytes not yet promised to a reader add up to TCP_WIN. */
    ghost predicate Valid()
      reads this
    {
      && InOrder(Pcb(), World(), next) && OutOfOrder(Pcb(), World(), at, next, Edge())
      && Edge() == copied + claimed + TCP_WIN
      && (if rxExclusive then rxq != [] && 0 < claimed < |rxq[0].data| <= next - copied else claimed == 0)
    }

    constructor (ghost stream: seq<Byte>, irs: nat)
      ensures Valid() && this.stream == stream && base == irs + 1 && copied == 0 && next == 0 && rcvWnd == TCP_WIN
      ensures rxq == [] && rxqOoo == [] && !rxExclusive && !rcvWndFull
    {
      rcvNxt, rcvWnd, rcvWndFull, rxExclusive, rxq, rxqOoo := (irs + 1) % TWO32, TCP_WIN, false, false, [], [];
      this.stream, base, copied, next, claimed, at := stream, irs + 1, 0, 0, 0, [];
    }

    /** tcp_rx_text. */
    method RxText(m: Mbuf, ghost a: nat) returns (used: bool, wake: bool)
      requires Valid() && Segment(m, World(), a)
      requires rcvWnd > 0 ==> next < a + |m.data| && a < Edge()
      modifies `rcvNxt, `rcvWnd, `rcvWndFull, `rxq, `rxqOoo, `at, `next
      ensures Valid() && Edge() == old(Edge()) && (wake <==> used && a <= old(next) && (m.push || rcvWnd == 0))
      ensures used ==> Used(old(Pcb()), old(next), old(at), m, a, Pcb(), next, at)
      ensures !used ==> Pcb() == old(Pcb()) && at == old(at) && next == old(next)
      ensures used <==> old(rcvWnd) > 0 && (a <= old(next) || !Refused(old(Pcb()), old(at), m, a))
    {
      if rcvWnd == 0 {
        return false, false;
      }
      var r;
      ghost var n, at';
      r, used, wake, n, at' := Text(Rx(rcvNxt, rcvWnd, rcvWndFull, rxq, rxqOoo), m, World(), next, at, a);
      assert Extends(rxq, r.q) && n >= next;
      Install(r, n, at');
    }

    method Install(r: Rx, ghost n: nat, ghost at': seq<nat>)
      requires Valid() && InOrder(r, World(), n) && OutOfOrder(r, World(), at', n, n + r.wnd) && n + r.wnd == Edge()
      requires Extends(rxq, r.q) && n >= next
      modifies `rcvNxt, `rcvWnd, `rcvWndFull, `rxq, `rxqOoo, `at, `next
      ensures Valid() && Pcb() == r && next == n && at == at' && Edge() == old(Edge())
    {
      rcvNxt, rcvWnd, rcvWndFull, rxq, rxqOoo, next, at := r.nxt, r.wnd, r.full, r.q, r.ooo, n, at';
    }

    /** The text step of tcp_rx_conn: acceptability, then reassembly. An unacceptable segment changes nothing; an
        acceptable one in order is always used. An empty buffer is queued exactly when the window fills up, one segment
        reaches its edge and a later one goes beyond it. */
    method Receive(m: Mbuf, ghost a: nat) returns (used: bool, wake: bool)
      requires Valid() && CutAt(m, stream, base, a) && |m.data| <= MAX_SEGMENT
      requires a < next + HALF && next < a + HALF
      modifies `rcvNxt, `rcvWnd, `rcvWndFull, `rxq, `rxqOoo, `at, `next
      ensures Valid() && Edge() == old(Edge()) && !Holds(rxqOoo, at, next, next) && (wake ==> rxq != [])
      ensures wake <==> used && a <= old(next) && (m.push || rcvWnd == 0)
      ensures rcvWndFull <==> old(rcvWndFull) || rcvWnd == 0
      ensures used <==>
                && |m.data| > 0 && Rfc793Acceptable(old(rcvNxt), old(rcvWnd), |m.data|, m.seq_)
                && (a <= old(next) || !Refused(old(Pcb()), old(at), m, a))
      ensures used ==> Used(old(Pcb()), old(next), old(at), m, a, Pcb(), next, at)
      ensures !used ==> Pcb() == old(Pcb()) && at == old(at) && next == old(next)
    {
      var fits := HasText(rcvNxt, rcvWnd, m, stream, base, next, a);
      used, wake := false, false;
      if fits {
        used, wake := RxText(m, a);
      }
    }

    /** tcp_read_wait with buffers queued: whole buffers are handed over, and part of the next one is claimed. The window
        grows by what was promised. The result is 0 when only empty buffers were queued, although the stream is open. */
    method ReadWait(len: nat) returns (readlen: nat, q: seq<Mbuf>, ack: bool)
      requires Valid() && !rxExclusive && rxq != []
      modifies `rcvWnd, `rcvWndFull, `rxExclusive, `rxq, `copied, `claimed
      ensures Valid() && Edge() == old(Edge()) + readlen
      ensures readlen == if len <= old(next - copied) then len else old(next - copied)
      ensures readlen == 0 <==> len == 0 || Bytes(old(rxq)) == []
      ensures old(copied) <= copied <= |stream| && Bytes(q) == stream[old(copied)..copied] && readlen == |Bytes(q)| + claimed
      ensures old(rxq) == q + rxq && Needed(q, len)
      ensures ack <==> old(rcvWndFull) && rcvWnd >= TCP_WIN / 4
      ensures (rcvWndFull <==> old(rcvWndFull) && !ack) && (old(rcvWnd) == 0 && rcvWnd >= TCP_WIN / 4 ==> ack)
    {
      readlen, q := HandOver(len);
      ack := rcvWndFull && rcvWnd >= TCP_WIN / 4;
      rcvWndFull := rcvWndFull && !ack;
    }

    method HandOver(len: nat) returns (readlen: nat, q: seq<Mbuf>)
      requires Valid() && !rxExclusive
      modifies `rcvWnd, `rxExclusive, `rxq, `copied, `claimed
      ensures Valid() && Edge() == old(Edge()) + readlen && copied == old(copied) + |Bytes(q)|
      ensures HandedOver(old(rxq), stream, old(copied), next, len, readlen, q, rxq, claimed)
    {
      var rest, c;
      readlen, q, rest, c := TakeBuffers(rxq, len, stream, copied, next);
      LinedRest(q, rest, stream, base, copied);
      Take(readlen, |Bytes(q)|, rest, c);
    }

    method Take(readlen: nat, ghost k: nat, rest: seq<Mbuf>, c: nat)
      requires Valid() && !rxExclusive && readlen == k + c <= next - copied
      requires Received(rest, stream, copied + k, next) && Lined(rest, stream, base, copied + k)
      requires c > 0 ==> rest != [] && c < |rest[0].data| <= next - copied - k
      modifies `rcvWnd, `rxExclusive, `rxq, `copied, `claimed
      ensures Valid() && Edge() == old(Edge()) + readlen && rxq == rest && copied == old(copied) + k && claimed == c
      ensures rxExclusive == (c > 0)
    {
      WiderWindow(at, next, Edge(), Edge() + readlen);
      rxq, rxExclusive, rcvWnd := rest, c > 0, rcvWnd + readlen;
      copied, claimed := copied + k, c;
    }

    /** The copy from a claimed buffer in tcp_read, and tcp_read_finish. */
    method ReadFinish(cpylen: nat) returns (bytes: seq<Byte>)
      requires Valid() && rxExclusive && cpylen == claimed
      modifies `rxExclusive, `rxq, `copied, `claimed
      ensures Valid() && !rxExclusive && copied == old(copied) + cpylen && bytes == stream[old(copied)..copied]
      ensures Edge() == old(Edge()) && next == old(next)
    {
      bytes, rxq := PullFront(rxq, cpylen, stream, base, copied, next);
      copied, claimed, rxExclusive := copied + cpylen, 0, false;
    }
  }

  // ----- a read that returns 0 -----

  lemma {:induction false} Acceptable(base: nat, a: nat, len: nat)
    requires a < TCP_WIN && len > 0
    ensures Rfc793Acceptable(Num(base, 0), TCP_WIN, len, Num(base, a))
  {
    NumSub(base, a, 0);
  }

  /** All but the first byte of one window, and a byte more, arrive at a new connection. */
  method ReceiveLate(data: seq<Byte>, irs: nat) returns (c: Conn)
    requires |data| == TCP_WIN + 1
    ensures fresh(c) && c.Valid() && c.stream == data && c.base == irs + 1 && c.copied == 0 && c.next == 0 && !c.rxExclusive
    ensures c.rcvWnd == TCP_WIN && c.rxq == [] && |c.rxqOoo| == 1 && c.at == [1] && |c.rxqOoo[0].data| == TCP_WIN
  {
    c := new Conn(data, irs);
    var m := Mbuf(Num(irs + 1, 1), Num(irs + 1, TCP_WIN + 1), data[1..], false);
    Acceptable(irs + 1, 1, TCP_WIN);
    var used, wake := c.Receive(m, 1);
  }

  /** Then the whole window arrives: it fills up, and the segment that was waiting, which goes beyond the edge, is queued
      empty. */
  method FillWindow(data: seq<Byte>, irs: nat) returns (c: Conn)
    requires |data| == TCP_WIN + 1
    ensures fresh(c) && c.Valid() && c.stream == data && c.copied == 0 && c.next == TCP_WIN && !c.rxExclusive
    ensures c.rxq != [] && c.rxq[|c.rxq| - 1].data == []
  {
    c := ReceiveLate(data, irs);
    var m := Mbuf(Num(irs + 1, 0), Num(irs + 1, TCP_WIN), data[..TCP_WIN], false);
    Acceptable(irs + 1, 0, TCP_WIN);
    ghost var r0, at0 := c.Pcb(), c.at;
    var used, wake := c.Receive(m, 0);
    FullIff(r0, 0, at0, m, 0, c.Pcb(), c.next, c.at);
    ghost var line := Line(r0, at0, m, 0);
    assert line[0] == TCP_WIN && line[1] == TCP_WIN + 1;
    assert Overshoots(line, TCP_WIN);
  }

  /** An input on which reading an open connection returns 0: after a read of the whole window only the empty buffer is
      left. */
  method ZeroRead(data: seq<Byte>, irs: nat, len: nat) returns (c: Conn, readlen: nat)
    requires |data| == TCP_WIN + 1 && len > 0
    ensures fresh(c) && c.Valid() && c.stream == data && c.next < |data| && readlen == 0
  {
    c := FillWindow(data, irs);
    ghost var q0 := c.rxq;
    var q, ack;
    readlen, q, ack := c.ReadWait(TCP_WIN);
    if c.rxq == [] {
      LastAddsNothing(q);
    }
    readlen, q, ack := c.ReadWait(len);
  }

  lemma {:induction false} LastAddsNothing(q: seq<Mbuf>)
    requires q != [] && q[|q| - 1].data == []
    ensures Bytes(q[..|q| - 1]) == Bytes(q)
  {
    BytesAppend(q[..|q| - 1], q[|q| - 1]);
    assert q == q[..|q| - 1] + [q[|q| - 1]];
  }
}
