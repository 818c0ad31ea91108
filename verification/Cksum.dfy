/**
 The Internet checksum of RFC 1071 in two forms: a 64-bit add-with-carry loop, and a 32-bit sum of
 16-bit words. Words are read in little-endian order.
 */
module Cksum {
  import opened Words

  const M: nat := 65535

  // ----- one's complement sums -----

  function Word16(b: seq<Byte>): nat
    requires |b| >= 2
  {
    b[0] as int + 256 * (b[1] as int)
  }

  /** The sum of the 16-bit words; an odd last byte counts by itself. */
  function WordSum(b: seq<Byte>): nat {
    if |b| == 0 then 0
    else if |b| == 1 then b[0] as int
    else Word16(b) + WordSum(b[2..])
  }

  /** The 16-bit one's complement value of a sum: 0 only for 0. */
  function Canon(n: nat): nat { if n == 0 then 0 else (n - 1) % M + 1 }

  /** Two sums have the same one's complement value. */
  predicate Same(a: nat, b: nat) { a % M == b % M && (a == 0 <==> b == 0) }

  lemma {:induction false} CanonMod(n: nat)
    ensures n > 0 ==> Canon(n) == if n % M == 0 then M else n % M
  {
    if n > 0 {
      var q, r := n / M, n % M;
      assert n == q * M + r;
      if r == 0 {
        QuotRem(n - 1, M, q - 1, M - 1);
      } else {
        QuotRem(n - 1, M, q, r - 1);
      }
    }
  }

  lemma {:induction false} SameCanon(a: nat, b: nat)
    requires Same(a, b)
    ensures Canon(a) == Canon(b)
  {
    CanonMod(a);
    CanonMod(b);
  }

  lemma SameAdd(a: nat, b: nat, c: nat)
    requires Same(a, b)
    ensures Same(a + c, b + c)
  {
  }

  /** A number of 16 bits is its own value. */
  lemma CanonSmall(n: nat)
    requires n <= M
    ensures Canon(n) == n
  {
  }

  /** Moving a multiple of 2^16 down by 16 bits keeps the value. */
  lemma FoldSame(hi: nat, lo: nat)
    ensures Same(hi * TWO16 + lo, hi + lo)
  {
    assert hi * TWO16 + lo == hi + lo + hi * M;
    ModMultiple(hi + lo, hi);
  }

  lemma ModMultiple(a: nat, k: nat)
    ensures (a + k * M) % M == a % M
  {
  }

  lemma {:induction false} Two32Same(hi: nat, lo: nat)
    ensures Same(hi * TWO32 + lo, hi + lo)
  {
    FoldSame(hi * TWO16, lo);
    FoldSame(hi, lo);
    assert hi * TWO16 * TWO16 == hi * TWO32;
  }

  lemma {:induction false} Two64Same(hi: nat, lo: nat)
    ensures Same(hi * TWO64 + lo, hi + lo)
  {
    Two32Same(hi * TWO32, lo);
    Two32Same(hi, lo);
    assert hi * TWO32 * TWO32 == hi * TWO64;
  }

  // ----- the 32-bit form -----

  /** One reduction step. */
  function Fold32(sum: nat): nat { sum / TWO16 + sum % TWO16 }

  /** __raw_cksum_reduce. */
  function Reduce(sum: nat): nat { Fold32(Fold32(sum)) % TWO16 }

  lemma {:induction false} ReduceCanon(sum: nat)
    requires sum < TWO32
    ensures Reduce(sum) == Canon(sum)
  {
    var a := Fold32(sum);
    FoldSame(sum / TWO16, sum % TWO16);
    FoldSame(a / TWO16, a % TWO16);
    assert a <= 2 * M && Fold32(a) <= M;
    SameCanon(sum, Fold32(a));
    CanonSmall(Fold32(a));
  }

  lemma {:induction false} WordSumFour(b: seq<Byte>)
    requires |b| >= 8
    ensures WordSum(b) == Word16(b) + Word16(b[2..]) + Word16(b[4..]) + Word16(b[6..]) + WordSum(b[8..])
  {
    assert b[2..][2..] == b[4..] && b[4..][2..] == b[6..] && b[6..][2..] == b[8..];
    assert WordSum(b) == Word16(b) + WordSum(b[2..]);
    assert WordSum(b[2..]) == Word16(b[2..]) + WordSum(b[4..]);
    assert WordSum(b[4..]) == Word16(b[4..]) + WordSum(b[6..]);
    assert WordSum(b[6..]) == Word16(b[6..]) + WordSum(b[8..]);
  }

  lemma {:induction false} WordSumBound(b: seq<Byte>)
    ensures WordSum(b) <= ((|b| + 1) / 2) * M
  {
    if |b| >= 2 {
      WordSumBound(b[2..]);
      assert Word16(b) <= M;
    }
  }

  /** The longest buffers whose words always fit a 32-bit sum. */
  const MAX_RAW: nat := 131074

  lemma {:induction false} FitsIn32(b: seq<Byte>)
    requires |b| <= MAX_RAW
    ensures WordSum(b) < TWO32
  {
    WordSumBound(b);
    Scale((|b| + 1) / 2, 65537, M);
  }

  lemma AddMod(g: nat, x: nat)
    ensures (g % TWO32 + x) % TWO32 == (g + x) % TWO32
  {
  }

  /** __raw_cksum: the words are added up in 32 bits, four at a time and then one by one. */
  method RawSum(buf: seq<Byte>) returns (sum: nat)
    ensures sum == WordSum(buf) % TWO32
  {
    sum := 0;
    var p: nat := 0;
    ghost var g: nat := 0;
    assert buf[0..] == buf;
    while |buf| - p >= 8
      invariant p <= |buf| && sum == g % TWO32 && g + WordSum(buf[p..]) == WordSum(buf)
    {
      var b := buf[p..];
      WordSumFour(b);
      assert b[8..] == buf[p + 8..];
      sum := Add(sum, Word16(b), g);
      sum := Add(sum, Word16(b[2..]), g + Word16(b));
      sum := Add(sum, Word16(b[4..]), g + Word16(b) + Word16(b[2..]));
      sum := Add(sum, Word16(b[6..]), g + Word16(b) + Word16(b[2..]) + Word16(b[4..]));
      g := g + Word16(b) + Word16(b[2..]) + Word16(b[4..]) + Word16(b[6..]);
      p := p + 8;
    }
    while |buf| - p >= 2
      invariant p <= |buf| && sum == g % TWO32 && g + WordSum(buf[p..]) == WordSum(buf)
    {
      var b := buf[p..];
      assert b[2..] == buf[p + 2..];
      sum := Add(sum, Word16(b), g);
      g, p := g + Word16(b), p + 2;
    }
    if |buf| - p == 1 {
      assert buf[p..][0] == buf[p];
      sum := Add(sum, buf[p] as int, g);
    }
  }

  method Add(sum: nat, x: nat, ghost g: nat) returns (r: nat)
    requires sum == g % TWO32
    ensures r == (g + x) % TWO32
  {
    AddMod(g, x);
    r := (sum + x) % TWO32;
  }

  /** The 32-bit sum `n` keeps its one's complement value: it has not wrapped, or a multiple of M times, and not to 0. */
  predicate KeepsValue(n: nat) { n < TWO32 || ((n / TWO32) % M == 0 && n % TWO32 != 0) }

  /** raw_cksum: right exactly when the 32-bit sum keeps the value, as it does for every buffer of up to MAX_RAW bytes. */
  method RawCksum(buf: seq<Byte>) returns (r: nat)
    ensures r == Canon(WordSum(buf)) <==> KeepsValue(WordSum(buf))
    ensures |buf| <= MAX_RAW ==> r == Canon(WordSum(buf))
  {
    var sum := RawSum(buf);
    r := Reduce(sum);
    RawRightIff(buf);
    if |buf| <= MAX_RAW {
      FitsIn32(buf);
    }
  }

  /** What raw_cksum computes from a buffer, against the one's complement sum of its words. */
  lemma {:induction false} RawRightIff(buf: seq<Byte>)
    ensures Reduce(WordSum(buf) % TWO32) == Canon(WordSum(buf)) <==> KeepsValue(WordSum(buf))
  {
    var n := WordSum(buf);
    var k, lo := n / TWO32, n % TWO32;
    assert n == k * TWO32 + lo;
    ReduceCanon(lo);
    Two32Same(k, lo);
    SameCanon(n, k + lo);
    CanonShift(lo, k);
  }

  lemma {:induction false} CanonShift(a: nat, k: nat)
    ensures Canon(a + k) == Canon(a) <==> k == 0 || (k % M == 0 && a != 0)
  {
    CanonMod(a + k);
    CanonMod(a);
  }

  /** `n` bytes of all ones, then zeros. */
  function Ones(n: nat): seq<Byte> { seq(n, _ => 255 as Byte) }

  function Zeros(n: nat): seq<Byte> { seq(n, _ => 0 as Byte) }

  lemma {:induction false} OnesSum(k: nat)
    ensures WordSum(Ones(2 * k)) == k * M
  {
    if k > 0 {
      OnesSum(k - 1);
      assert Ones(2 * k)[2..] == Ones(2 * (k - 1));
    }
  }

  lemma {:induction false} ZerosSum(n: nat)
    ensures WordSum(Zeros(n)) == 0
  {
    if n >= 2 {
      ZerosSum(n - 2);
      assert Zeros(n)[2..] == Zeros(n - 2);
    }
  }

  /** A buffer of `n` bytes, more than MAX_RAW, whose sum wraps. */
  function WrappingBuffer(n: nat): (b: seq<Byte>)
    requires n > MAX_RAW
    ensures |b| == n
  {
    Ones(MAX_RAW) + ([255 as Byte] + Zeros(n - MAX_RAW - 1))
  }

  lemma {:induction false} WrappingSum(n: nat)
    requires n > MAX_RAW
    ensures WordSum(WrappingBuffer(n)) == TWO32 + 254
  {
    var b, tail := WrappingBuffer(n), [255 as Byte] + Zeros(n - MAX_RAW - 1);
    WordSumSplit(b, MAX_RAW);
    assert b[..MAX_RAW] == Ones(MAX_RAW) && b[MAX_RAW..] == tail;
    OnesSum(65537);
    if |tail| >= 2 {
      ZerosSum(|tail| - 2);
      assert tail[2..] == Zeros(|tail| - 2);
    }
  }

  /** The bound on the length is exact: at every greater length raw_cksum is wrong for some buffer. */
  lemma {:induction false} RawLengthExact(n: nat)
    ensures n <= MAX_RAW <==> forall b: seq<Byte> :: |b| == n ==> Reduce(WordSum(b) % TWO32) == Canon(WordSum(b))
  {
    if n <= MAX_RAW {
      forall b: seq<Byte> | |b| == n ensures Reduce(WordSum(b) % TWO32) == Canon(WordSum(b)) {
        RawRightIff(b);
        FitsIn32(b);
      }
    } else {
      var b := WrappingBuffer(n);
      WrappingSum(n);
      RawRightIff(b);
      assert !KeepsValue(TWO32 + 254);
    }
  }

  // ----- the 64-bit form -----

  /** `adcq`: the sum and the carry. */
  function Adc(sum: nat, x: nat, cf: nat): (r: (nat, nat))
    requires sum < TWO64 && x < TWO64 && cf <= 1
    ensures r.0 < TWO64 && r.1 <= 1 && sum + x + cf == r.1 * TWO64 + r.0
  {
    if sum + x + cf < TWO64 then (sum + x + cf, 0) else (sum + x + cf - TWO64, 1)
  }

  /** A little-endian number of any width. */
  function Load(b: seq<Byte>): (r: nat) {
    if b == [] then 0 else b[0] as int + 256 * Load(b[1..])
  }

  lemma {:induction false} LoadBound(b: seq<Byte>)
    ensures Load(b) < Pow2(8 * |b|)
  {
    if b != [] {
      LoadBound(b[1..]);
      Pow2Add(8, 8 * |b[1..]|);
      assert Pow2(8) == 256;
    }
  }

  /** A number stands for the sum of its 16-bit words. */
  lemma {:induction false} LoadSame(b: seq<Byte>)
    ensures Same(Load(b), WordSum(b))
  {
    if |b| == 1 {
      assert b[1..] == [];
    } else if |b| >= 2 {
      LoadSame(b[2..]);
      assert b[1..][1..] == b[2..] && b[1..][0] == b[1];
      assert Load(b) == Word16(b) + TWO16 * Load(b[2..]);
      FoldSame(Load(b[2..]), Word16(b));
      SameAdd(Load(b[2..]), WordSum(b[2..]), Word16(b));
    }
  }

  lemma {:induction false} WordSumSplit(b: seq<Byte>, k: nat)
    requires k <= |b| && k % 2 == 0
    ensures WordSum(b) == WordSum(b[..k]) + WordSum(b[k..])
  {
    if k == 0 {
      assert b[0..] == b;
    } else {
      WordSumSplit(b[2..], k - 2);
      assert b[2..][..k - 2] == b[..k][2..] && b[2..][k - 2..] == b[k..];
    }
  }

  /** Adding a chunk with carry keeps the value, and a carry never meets a sum of all ones. */
  lemma {:induction false} Absorb(sum: nat, cf: nat, x: nat, words: nat, rest: nat, total: nat)
    requires sum < TWO64 && x < TWO64 && cf <= 1 && (cf == 1 ==> sum <= TWO64 - 2)
    requires Same(sum + cf + words + rest, total) && Same(x, words)
    ensures var r := Adc(sum, x, cf); Same(r.0 + r.1 + rest, total) && (r.1 == 1 ==> r.0 <= TWO64 - 2)
  {
    var r := Adc(sum, x, cf);
    SameAdd(x, words, sum + cf + rest);
    Two64Same(r.1, r.0);
    SameAdd(r.1 * TWO64 + r.0, r.1 + r.0, rest);
  }

  lemma {:induction false} NextChunk(buf: seq<Byte>, p: nat, k: nat)
    requires p + k <= |buf| && k <= 8 && (k % 2 == 0 || p + k == |buf|)
    ensures WordSum(buf[p..]) == WordSum(buf[p..p + k]) + WordSum(buf[p + k..])
    ensures Same(Load(buf[p..p + k]), WordSum(buf[p..p + k])) && Load(buf[p..p + k]) < TWO64
  {
    var b := buf[p..];
    LoadSame(buf[p..p + k]);
    Small(buf[p..p + k]);
    if k % 2 == 0 {
      WordSumSplit(b, k);
      assert b[..k] == buf[p..p + k] && b[k..] == buf[p + k..];
    } else {
      assert b == buf[p..p + k];
    }
  }

  lemma {:induction false} Small(b: seq<Byte>)
    requires |b| <= 8
    ensures Load(b) < TWO64
  {
    LoadBound(b);
    Pow2Add(8 * |b|, 64 - 8 * |b|);
    Pow2Of32();
    Pow2Add(32, 32);
    Grows(Pow2(64 - 8 * |b|), Pow2(8 * |b|));
  }

  /** The loop over 8-byte chunks: `adcq` carries from one chunk to the next, and the last carry is added at the end. */
  method SumChunks(buf: seq<Byte>) returns (sum: nat, p: nat)
    ensures sum < TWO64 && p == |buf| / 8 * 8 && Same(sum + WordSum(buf[p..]), WordSum(buf))
  {
    sum, p := 0, 0;
    var cf := 0;
    var n: nat := |buf| / 8;
    assert buf[0..] == buf;
    while n > 0
      invariant n <= |buf| / 8 && p <= |buf| && p == (|buf| / 8 - n) * 8 && sum < TWO64 && cf <= 1 && (cf == 1 ==> sum <= TWO64 - 2)
      invariant Same(sum + cf + WordSum(buf[p..]), WordSum(buf))
    {
      NextChunk(buf, p, 8);
      Absorb(sum, cf, Load(buf[p..p + 8]), WordSum(buf[p..p + 8]), WordSum(buf[p + 8..]), WordSum(buf));
      var r := Adc(sum, Load(buf[p..p + 8]), cf);
      sum, cf := r.0, r.1;
      p, n := p + 8, n - 1;
    }
    sum := Adc(sum, 0, cf).0;
  }

  /** A rest of `k` bytes: `addq`, then `adcq $0`. */
  method AddRest(buf: seq<Byte>, sum0: nat, p: nat, k: nat, ghost total: nat) returns (sum: nat)
    requires sum0 < TWO64 && p + k <= |buf| && k <= 8 && (k % 2 == 0 || p + k == |buf|)
    requires Same(sum0 + WordSum(buf[p..]), total)
    ensures sum < TWO64 && Same(sum + WordSum(buf[p + k..]), total)
  {
    NextChunk(buf, p, k);
    var x := Load(buf[p..p + k]);
    Absorb(sum0, 0, x, WordSum(buf[p..p + k]), WordSum(buf[p + k..]), total);
    var r := Adc(sum0, x, 0);
    sum := Adc(r.0, 0, r.1).0;
  }

  /** The bytes after the last whole chunk: four, two and one, as the bits of the length say. */
  method AddTail(buf: seq<Byte>, sum0: nat, p0: nat, ghost total: nat) returns (sum: nat)
    requires sum0 < TWO64 && p0 == |buf| / 8 * 8 && Same(sum0 + WordSum(buf[p0..]), total)
    ensures sum < TWO64 && Same(sum, total)
  {
    LengthBits(|buf|);
    var p: nat;
    sum, p := AddIf(buf, sum0, p0, 4, |buf| / 4 % 2 == 1, total);
    sum, p := AddIf(buf, sum, p, 2, |buf| / 2 % 2 == 1, total);
    sum, p := AddIf(buf, sum, p, 1, |buf| % 2 == 1, total);
    assert buf[p..] == [];
  }

  method AddIf(buf: seq<Byte>, sum0: nat, p0: nat, k: nat, bit: bool, ghost total: nat) returns (sum: nat, p: nat)
    requires sum0 < TWO64 && p0 <= |buf| && k <= 8 && (bit ==> p0 + k <= |buf| && (k % 2 == 0 || p0 + k == |buf|))
    requires Same(sum0 + WordSum(buf[p0..]), total)
    ensures p == (if bit then p0 + k else p0) && sum < TWO64 && Same(sum + WordSum(buf[p..]), total)
  {
    sum, p := sum0, p0;
    if bit {
      sum := AddRest(buf, sum0, p0, k, total);
      p := p0 + k;
    }
  }

  lemma {:induction false} LengthBits(n: nat)
    ensures n / 4 * 4 == n / 8 * 8 + (if n / 4 % 2 == 1 then 4 else 0) <= n
    ensures n / 2 * 2 == n / 4 * 4 + (if n / 2 % 2 == 1 then 2 else 0) <= n
    ensures n == n / 2 * 2 + if n % 2 == 1 then 1 else 0
  {
    var h, q, e := n / 2, n / 4, n / 8;
    HalfMod(n, 2);
    HalfMod(n, 4);
    HalfMod(h, 2);
    assert q == h / 2 && e == q / 2;
    Halved(n);
    Halved(h);
    Halved(q);
  }

  lemma Halved(x: nat)
    ensures x == 2 * (x / 2) + x % 2 && (x % 2 == 0 || x % 2 == 1)
  {
  }

  /** Halving with an end-around carry: `shr`, `add`, `adc $0`. */
  function Halve(sum: nat, base: nat): nat
    requires base > 0
  {
    var t := sum / base + sum % base;
    if t < base then t else t - base + 1
  }

  lemma {:induction false} Halve32(sum: nat)
    requires sum < TWO64
    ensures Halve(sum, TWO32) < TWO32 && Same(Halve(sum, TWO32), sum)
  {
    var t := sum / TWO32 + sum % TWO32;
    Two32Same(sum / TWO32, sum % TWO32);
    if t >= TWO32 {
      Two32Same(1, t - TWO32);
    }
  }

  lemma {:induction false} Halve16(sum: nat)
    requires sum < TWO32
    ensures Halve(sum, TWO16) < TWO16 && Same(Halve(sum, TWO16), sum)
  {
    var t := sum / TWO16 + sum % TWO16;
    FoldSame(sum / TWO16, sum % TWO16);
    if t >= TWO16 {
      FoldSame(1, t - TWO16);
    }
  }

  /** cksum_internet: the complement of the one's complement sum, for every buffer. */
  method CksumInternet(buf: seq<Byte>) returns (r: nat)
    ensures r == M - Canon(WordSum(buf))
  {
    var sum, p := SumChunks(buf);
    sum := AddTail(buf, sum, p, WordSum(buf));
    Halve32(sum);
    Halve16(Halve(sum, TWO32));
    var folded := Halve(Halve(sum, TWO32), TWO16);
    SameCanon(folded, WordSum(buf));
    CanonSmall(folded);
    r := M - folded;
  }

  // ----- what the checksum is for -----

  /** The two forms agree on every buffer that the 32-bit one can sum. */
  method FormsAgree(buf: seq<Byte>) returns (raw: nat, full: nat)
    requires |buf| <= MAX_RAW
    ensures full == M - raw
  {
    raw := RawCksum(buf);
    full := CksumInternet(buf);
  }

  /** The buffer with a 16-bit field at byte `i` set to `c`. */
  function WithField(b: seq<Byte>, i: nat, c: nat): seq<Byte>
    requires i + 2 <= |b| && c <= M
  {
    b[i := (c % 256) as Byte][i + 1 := (c / 256) as Byte]
  }

  lemma {:induction false} FieldSum(b: seq<Byte>, i: nat, c: nat)
    requires i + 2 <= |b| && i % 2 == 0 && c <= M && b[i] == 0 && b[i + 1] == 0
    ensures WordSum(WithField(b, i, c)) == WordSum(b) + c
  {
    var b' := WithField(b, i, c);
    if i == 0 {
      assert b'[2..] == b[2..];
    } else {
      FieldSum(b[2..], i - 2, c);
      assert b'[2..] == WithField(b[2..], i - 2, c);
    }
  }

  /** Adding `c` to a sum gives all ones exactly when `c` is the complement, up to the two forms of zero. */
  lemma CanonFull(n: nat, c: nat)
    requires c <= M
    ensures Canon(n + c) == M <==> n + c > 0 && c % M == (M - Canon(n)) % M
  {
    var q := if n == 0 then 0 else (n - 1) / M;
    assert n == 0 || n == q * M + Canon(n);
  }

  /** Filling a zeroed, aligned field with the checksum makes the checksum of the whole 0, and no other value of the field
      does, up to the two forms of zero. */
  lemma {:induction false} FilledChecksZero(b: seq<Byte>, i: nat, c: nat)
    requires i + 2 <= |b| && i % 2 == 0 && c <= M && b[i] == 0 && b[i + 1] == 0
    ensures M - Canon(WordSum(WithField(b, i, c))) == 0 <==> WordSum(b) + c > 0 && c % M == (M - Canon(WordSum(b))) % M
    ensures c == M - Canon(WordSum(b)) ==> M - Canon(WordSum(WithField(b, i, c))) == 0
  {
    FieldSum(b, i, c);
    CanonFull(WordSum(b), c);
  }
}
