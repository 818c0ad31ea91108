/**
 Sequence numbers of TCP: 32-bit comparisons that survive wrap-around, and the acceptability test of
 section 3.3 of RFC 793, and buffers of text.
 */
module TcpSeq {
  import opened Words

  const TCP_MSS: nat := 1460
  const TCP_WIN: nat := (65535 / TCP_MSS) * TCP_MSS

  /** A 32-bit word read as a signed integer. */
  function Signed32(x: nat): int
    requires x < TWO32
  {
    if x >= TWO31 then x - TWO32 else x
  }

  predicate WrapsLt(a: nat, b: nat) { Signed32(Sub32(a, b)) < 0 }

  predicate WrapsLte(a: nat, b: nat) { Signed32(Sub32(a, b)) <= 0 }

  predicate WrapsGt(a: nat, b: nat) { Signed32(Sub32(b, a)) < 0 }

  function Add32(a: nat, b: nat): nat { (a + b) % TWO32 }

  /** The sequence number of byte `i` of a stream that starts at `base`. */
  function Num(base: nat, i: nat): nat { (base + i) % TWO32 }

  /** Adding to a sequence number moves the position. */
  lemma NumAdd(base: nat, n: nat, k: nat)
    ensures Add32(Num(base, n), k) == Num(base, n + k)
  {
  }

  lemma NumSub(base: nat, a: nat, b: nat)
    requires a < b + TWO31 && b < a + TWO31
    ensures Sub32(Num(base, a), Num(base, b)) == if a >= b then a - b else a - b + TWO32
  {
    var d := a - b;
    assert (base + a) % TWO32 - (base + b) % TWO32 == d + TWO32 * ((base + b) / TWO32 - (base + a) / TWO32);
  }

  /** Within half the number space the comparisons agree with those of the positions. */
  lemma WrapsCompare(base: nat, a: nat, b: nat)
    requires a < b + TWO31 && b < a + TWO31
    ensures WrapsLt(Num(base, a), Num(base, b)) <==> a < b
    ensures WrapsLte(Num(base, a), Num(base, b)) <==> a <= b
    ensures WrapsGt(Num(base, a), Num(base, b)) <==> a > b
  {
    NumSub(base, a, b);
    NumSub(base, b, a);
  }

  /** is_acceptable. */
  predicate IsAcceptable(nxt: nat, wnd: nat, len: nat, seq_: nat) {
    if len == 0 && wnd == 0 then seq_ == nxt
    else if len == 0 && wnd > 0 then WrapsLte(nxt, seq_) && WrapsLt(seq_, Add32(nxt, wnd))
    else if len > 0 && wnd == 0 then false
    else
      || (WrapsLte(nxt, seq_) && WrapsLt(seq_, Add32(nxt, wnd)))
      || (WrapsLte(nxt, Sub32(seq_ + len, 1)) && WrapsLt(Sub32(seq_ + len, 1), Add32(nxt, wnd)))
  }

  /** Number `x` lies in the window: RCV.NXT =< x < RCV.NXT+RCV.WND on the circle of numbers. */
  predicate InWindow(nxt: nat, wnd: nat, x: nat) { Sub32(x, nxt) < wnd }

  /** The four cases of section 3.3 of RFC 793. */
  predicate Rfc793Acceptable(nxt: nat, wnd: nat, len: nat, seq_: nat) {
    match (len == 0, wnd == 0)
    case (true, true) => seq_ == nxt
    case (true, false) => InWindow(nxt, wnd, seq_)
    case (false, true) => false
    case (false, false) => InWindow(nxt, wnd, seq_) || InWindow(nxt, wnd, Sub32(seq_ + len, 1))
  }

  lemma WindowTest(nxt: nat, wnd: nat, x: nat)
    requires nxt < TWO32 && x < TWO32 && 0 < wnd <= TWO31
    ensures WrapsLte(nxt, x) && WrapsLt(x, Add32(nxt, wnd)) <==> InWindow(nxt, wnd, x)
  {
    var e := Add32(nxt, wnd);
    assert e == if nxt + wnd < TWO32 then nxt + wnd else nxt + wnd - TWO32;
    SubCases(x, nxt);
    SubCases(nxt, x);
    SubCases(x, e);
  }

  /** The signed comparisons decide acceptability as the RFC does exactly when the window is at most half the number
      space. */
  lemma AcceptableIffRfc(wnd: nat)
    requires wnd < TWO32
    ensures wnd <= TWO31 <==>
              forall nxt: nat, len: nat, seq_: nat :: nxt < TWO32 && seq_ < TWO32 ==>
                (IsAcceptable(nxt, wnd, len, seq_) <==> Rfc793Acceptable(nxt, wnd, len, seq_))
  {
    if wnd <= TWO31 {
      forall nxt: nat, len: nat, seq_: nat | nxt < TWO32 && seq_ < TWO32
        ensures IsAcceptable(nxt, wnd, len, seq_) <==> Rfc793Acceptable(nxt, wnd, len, seq_)
      {
        if wnd > 0 {
          WindowTest(nxt, wnd, seq_);
          WindowTest(nxt, wnd, Sub32(seq_ + len, 1));
        }
      }
    } else {
      assert Rfc793Acceptable(0, wnd, 0, 0) && !IsAcceptable(0, wnd, 0, 0);
    }
  }

  // ----- buffers -----

  /** A buffer with text: `data` are the bytes numbered `seq_` up to, not including, `end`. */
  datatype Mbuf = Mbuf(seq_: nat, end: nat, data: seq<Byte>, push: bool)

  /** The buffer holds bytes `a` onwards of the stream. */
  ghost predicate CutAt(m: Mbuf, stream: seq<Byte>, base: nat, a: nat) {
    && a + |m.data| <= |stream| && m.data == stream[a..a + |m.data|]
    && m.seq_ == Num(base, a) && m.end == Num(base, a + |m.data|)
  }

  function Bytes(q: seq<Mbuf>): seq<Byte> {
    if q == [] then [] else q[0].data + Bytes(q[1..])
  }

  lemma {:induction false} BytesAppend(q: seq<Mbuf>, m: Mbuf)
    ensures Bytes(q + [m]) == Bytes(q) + m.data
  {
    if q == [] {
      assert (q + [m])[1..] == [];
    } else {
      BytesAppend(q[1..], m);
      assert (q + [m])[1..] == q[1..] + [m] && (q + [m])[0] == q[0];
    }
  }
}
