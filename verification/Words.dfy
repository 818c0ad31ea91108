/**
 Machine words as bounded naturals: powers of two, bitwise and, and 32-bit subtraction.
 */
module Words {

  newtype Byte = x: int | 0 <= x < 256

  const TWO16: nat := 0x1_0000
  const TWO31: nat := 0x8000_0000
  const TWO32: nat := 0x1_0000_0000
  const TWO63: nat := 0x8000_0000_0000_0000
  const TWO64: nat := 0x1_0000_0000_0000_0000

  function Pow2(n: nat): (r: nat)
    ensures r >= 1
  {
    if n == 0 then 1 else 2 * Pow2(n - 1)
  }

  lemma {:induction false} Pow2Add(a: nat, b: nat)
    ensures Pow2(a + b) == Pow2(a) * Pow2(b)
  {
    if a > 0 {
      Pow2Add(a - 1, b);
    }
  }

  lemma Pow2Of32()
    ensures Pow2(32) == TWO32
  {
    assert Pow2(8) == 256;
    Pow2Add(8, 8);
    Pow2Add(16, 16);
  }

  /** `a & b`. */
  function And(a: nat, b: nat): (r: nat)
    ensures r <= a && r <= b
  {
    if a == 0 || b == 0 then 0 else 2 * And(a / 2, b / 2) + (a % 2) * (b % 2)
  }

  /** `a - b` in 32 bits. */
  function Sub32(a: int, b: int): (r: nat)
    ensures r < TWO32
  {
    (a - b) % TWO32
  }

  lemma SubCases(x: nat, y: nat)
    requires x < TWO32 && y < TWO32
    ensures Sub32(x, y) == if x >= y then x - y else x - y + TWO32
  {
  }

  lemma {:induction false} HalfMod(a: nat, p: nat)
    requires p > 0
    ensures a % (2 * p) == 2 * ((a / 2) % p) + a % 2 && (a / 2) / p == a / (2 * p)
  {
    var q, r := (a / 2) / p, (a / 2) % p;
    assert a / 2 == q * p + r;
    assert a == 2 * (q * p + r) + a % 2;
    QuotRem(a, 2 * p, q, 2 * r + a % 2);
  }

  /** Quotient and remainder are unique. */
  lemma {:induction false} QuotRem(a: int, d: int, q: int, r: int)
    requires d > 0 && a == q * d + r && 0 <= r < d
    ensures a / d == q && a % d == r
  {
    var q', r' := a / d, a % d;
    assert a == q' * d + r';
    assert (q - q') * d == r' - r;
    Narrow(q - q', d);
  }

  lemma Narrow(x: int, d: int)
    requires d > 0 && -d < x * d < d
    ensures x == 0
  {
    assert x >= 1 ==> x * d >= d;
    assert x <= -1 ==> x * d <= -d;
  }

  /** Masking with `2^e - 1` is the remainder. */
  lemma {:induction false} AndMask(a: nat, e: nat)
    ensures And(a, Pow2(e) - 1) == a % Pow2(e)
  {
    if e > 0 {
      var p := Pow2(e - 1);
      HalfMod(a, p);
      AndMask(a / 2, e - 1);
      assert (2 * p - 1) / 2 == p - 1 && (2 * p - 1) % 2 == 1;
      if p == 1 {
        assert And(a, 1) == 2 * And(a / 2, 0) + a % 2 || a == 0;
      }
    }
  }

  lemma MaskIsRemainder(a: nat, mask: nat, e: nat)
    requires mask == Pow2(e) - 1
    ensures And(a, mask) == a % (mask + 1)
  {
    AndMask(a, e);
  }

  /** Testing bit `e` is the parity of the quotient. */
  lemma {:induction false} AndBit(a: nat, e: nat)
    ensures And(a, Pow2(e)) != 0 <==> (a / Pow2(e)) % 2 == 1
  {
    if e == 0 {
      assert And(a, 1) == if a == 0 then 0 else 2 * And(a / 2, 0) + a % 2;
    } else {
      var p := Pow2(e - 1);
      HalfMod(a, p);
      AndBit(a / 2, e - 1);
    }
  }

  /** Reducing modulo a multiple of `d` does not change the remainder by `d`. */
  lemma {:induction false} ModMod(a: nat, n: nat, d: nat)
    requires d > 0 && n > 0
    ensures (a % (n * d)) % d == a % d && n * d > 0
    ensures (a % (n * d)) / d == (a / d) % n
  {
    var q, r := a / (n * d), a % (n * d);
    assert a == (q * n) * d + r by {
      assert a == q * (n * d) + r;
    }
    var q', r' := r / d, r % d;
    assert r == q' * d + r';
    assert a == (q * n + q') * d + r';
    QuotRem(a, d, q * n + q', r');
    assert q' < n by {
      assert r < n * d;
      Below(q', n, d);
    }
    QuotRem(q * n + q', n, q, q');
  }

  lemma Below(q: int, n: int, d: int)
    requires d > 0 && q * d < n * d
    ensures q < n
  {
    assert q >= n ==> (q - n) * d >= 0;
  }

  /** Counts closer than `d` have different remainders. */
  lemma {:induction false} ModDistinct(a: nat, b: nat, d: nat)
    requires d > 0 && a < b < a + d
    ensures a % d != b % d
  {
    if a % d == b % d {
      assert b - a == (b / d - a / d) * d;
      Narrow(b / d - a / d, d);
    }
  }

  lemma {:induction false} NextLap(k: nat, d: nat)
    requires d > 0
    ensures (k + d) % d == k % d && (k + d) / d == k / d + 1
  {
    QuotRem(k + d, d, k / d + 1, k % d);
  }

  /** A power of two below 2^32 divides it an even number of times. */
  lemma {:induction false} Pow2Divides(e: nat)
    requires e < 32
    ensures TWO32 == Pow2(31 - e) * (2 * Pow2(e)) && Pow2(e) < TWO32
  {
    var p, q := Pow2(31 - e), Pow2(e);
    assert TWO32 == p * (2 * q) by {
      Pow2Of32();
      Pow2Add(31 - e, e + 1);
    }
    Grows(p, 2 * q);
  }

  lemma Scale(a: int, b: int, c: int)
    requires a <= b && c >= 0
    ensures a * c <= b * c
  {
  }

  lemma Distribute(x: int, t: int)
    ensures (x + 1) * t == x * t + t
  {
  }

  lemma Grows(p: int, q: int)
    requires p >= 1 && q >= 0
    ensures q <= p * q
  {
  }
}
