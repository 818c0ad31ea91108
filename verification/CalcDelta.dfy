/**
 The fixed-point division `__calc_delta` of the fair schedulers: delta * weight / total through a
 cached 32-bit inverse of the total, and the slices it gives.
 */
module CalcDelta {
  import opened Words

  const WMULT_CONST: nat := 0xFFFF_FFFF
  const WMULT_SHIFT: nat := 32
  const NICE_0_LOAD: nat := 1024

  // ----- the cached inverse -----

  /** A weight with its cached inverse; 0 means not cached. */
  datatype LoadWeight = LoadWeight(weight: nat, inv: nat)

  function Inverse(w: nat): nat {
    if w >= WMULT_CONST then 1 else if w == 0 then WMULT_CONST else WMULT_CONST / w
  }

  /** The cached inverse belongs to the weight, or nothing is cached. */
  predicate Cached(lw: LoadWeight) { lw.inv == 0 || lw.inv == Inverse(lw.weight) }

  function UpdateInvWeight(lw: LoadWeight): LoadWeight {
    if lw.inv != 0 then lw
    else if lw.weight >= WMULT_CONST then lw.(inv := 1)
    else if lw.weight == 0 then lw.(inv := WMULT_CONST)
    else lw.(inv := WMULT_CONST / lw.weight)
  }

  lemma InverseBound(w: nat)
    ensures 1 <= Inverse(w) <= WMULT_CONST
    ensures w <= TWO32 ==> Inverse(w) * w <= TWO32
  {
    if 0 < w < WMULT_CONST {
      var q := WMULT_CONST / w;
      assert q * w <= WMULT_CONST by {
        assert WMULT_CONST == q * w + WMULT_CONST % w;
      }
    }
  }

  // ----- halving until 32 bits are left -----

  lemma HalfMul(f: nat, n: nat, x: nat)
    requires f * Pow2(n) <= x
    ensures (f / 2) * Pow2(n + 1) <= x
  {
    assert (f / 2) * Pow2(n + 1) == (2 * (f / 2)) * Pow2(n);
    assert 2 * (f / 2) <= f;
    Scale(2 * (f / 2), f, Pow2(n));
  }

  /** How often `f` must be halved to fit 32 bits. */
  function Halvings(f: int): nat {
    if f < TWO32 then 0 else 1 + Halvings(f / 2)
  }

  lemma {:induction false} HalfDiv(x: nat, p: nat)
    requires p > 0
    ensures (x / p) / 2 == x / (2 * p)
  {
    var q, r := x / p, x % p;
    var h, o := q / 2, q % 2;
    assert x == q * p + r;
    Spread(h, o, p);
    assert 0 <= o * p <= p by {
      if o == 1 {
        assert o * p == p;
      }
    }
    QuotRem(x, 2 * p, h, o * p + r);
  }

  lemma Spread(h: int, o: int, p: int)
    ensures (2 * h + o) * p == h * (2 * p) + o * p
  {
  }

  /** The two shift loops: `fact` is cut to 32 bits, one bit of shift for each halving. */
  method Halve(fact0: nat, shift0: int) returns (fact: nat, shift: int)
    ensures fact < TWO32 && shift == shift0 - Halvings(fact0) && fact == fact0 / Pow2(Halvings(fact0))
    ensures fact * Pow2(Halvings(fact0)) <= fact0
  {
    fact, shift := fact0, shift0;
    ghost var n: nat := 0;
    while fact >= TWO32
      invariant shift == shift0 - n && fact * Pow2(n) <= fact0
      invariant n + Halvings(fact) == Halvings(fact0) && fact == fact0 / Pow2(n)
      decreases fact
    {
      HalfMul(fact, n, fact0);
      HalfDiv(fact0, Pow2(n));
      fact, shift, n := fact / 2, shift - 1, n + 1;
    }
  }

  lemma {:induction false} HalvingsBound(f: int, room: nat)
    requires f < TWO32 * Pow2(room)
    ensures Halvings(f) <= room
  {
    if f >= TWO32 {
      assert room > 0 && TWO32 * Pow2(room) == 2 * (TWO32 * Pow2(room - 1));
      HalvingsBound(f / 2, room - 1);
    }
  }

  lemma {:induction false} Halved(f: nat)
    ensures (f / Pow2(Halvings(f))) * Pow2(Halvings(f)) <= f
  {
    DivLe(f, Pow2(Halvings(f)));
  }

  // ----- mul_u64_u32_shr -----

  /** (a * mul) >> shift in 64-bit pieces; the upper piece may wrap. */
  function MulShr(a: int, mul: int, shift: nat): int
    requires shift <= 32
  {
    var al, ah := a % TWO32, a / TWO32;
    AddUpper(ah, (al * mul) / Pow2(shift), (ah * mul) * Pow2(32 - shift))
  }

  function AddUpper(ah: int, low: int, up: int): int {
    if ah != 0 then (low + up % TWO64) % TWO64 else low
  }

  /** update_inv_weight: the greatest inverse that keeps the product with the weight within WMULT_CONST, or within a weight
      above that. */
  lemma {:induction false} InverseGreatest(w: nat, x: nat)
    requires 1 <= x <= WMULT_CONST
    ensures x <= Inverse(w) <==> x * w <= if w > WMULT_CONST then w else WMULT_CONST
  {
    if w >= WMULT_CONST {
      if x > 1 {
        Scale(2, x, w);
      }
    } else if w > 0 {
      var q := WMULT_CONST / w;
      assert q * w <= WMULT_CONST < q * w + w;
      if x <= q {
        Scale(x, q, w);
      } else {
        Scale(q + 1, x, w);
        Distribute(q, w);
      }
    }
  }

  lemma DivLe(x: int, d: int)
    requires d > 0 && x >= 0
    ensures 0 <= x / d && (x / d) * d <= x
  {
  }

  lemma MulNat(x: int, y: int)
    requires x >= 0 && y >= 0
    ensures x * y >= 0
  {
  }

  lemma ModLe(x: int, m: int)
    requires x >= 0 && m > 0
    ensures 0 <= x % m <= x
  {
  }

  lemma MulShrPieces(a: int, mul: int, shift: nat)
    requires a >= 0 && mul >= 0 && shift <= 32
    ensures 0 <= MulShr(a, mul, shift) <= ((a % TWO32) * mul) / Pow2(shift) + ((a / TWO32) * mul) * Pow2(32 - shift)
  {
    var al, ah := a % TWO32, a / TWO32;
    MulNat(al, mul);
    MulNat(ah, mul);
    MulNat(ah * mul, Pow2(32 - shift));
    DivLe(al * mul, Pow2(shift));
    var low, up := (al * mul) / Pow2(shift), (ah * mul) * Pow2(32 - shift);
    ModLe(up, TWO64);
    ModLe(low + up % TWO64, TWO64);
  }

  lemma Combine(low: int, up: int, p: int, q: int, x: int, y: int)
    requires low * p <= x && up == y * q && q * p == TWO32
    ensures (low + up) * p <= x + y * TWO32
  {
    assert (low + up) * p == low * p + up * p;
    assert up * p == y * (q * p) by {
      assert up * p == (y * q) * p;
    }
  }

  lemma MulShrBound(a: int, mul: int, shift: nat)
    requires a >= 0 && mul >= 0 && shift <= 32
    ensures 0 <= MulShr(a, mul, shift) && MulShr(a, mul, shift) * Pow2(shift) <= a * mul
  {
    var al, ah, p, q := a % TWO32, a / TWO32, Pow2(shift), Pow2(32 - shift);
    MulShrPieces(a, mul, shift);
    MulNat(al, mul);
    DivLe(al * mul, p);
    Pow2Of32();
    Pow2Add(32 - shift, shift);
    var low := (al * mul) / p;
    var up := (ah * mul) * q;
    Combine(low, up, p, q, al * mul, ah * mul);
    Scale(MulShr(a, mul, shift), low + up, p);
    Split(a, mul);
  }

  lemma Split(a: int, mul: int)
    ensures a * mul == (a % TWO32) * mul + ((a / TWO32) * mul) * TWO32
  {
    var al, ah := a % TWO32, a / TWO32;
    assert a == al + ah * TWO32;
    assert (al + ah * TWO32) * mul == al * mul + (ah * TWO32) * mul;
    assert (ah * TWO32) * mul == (ah * mul) * TWO32;
  }

  /** mul_u64_u32_shr is the exact shifted product, reduced to 64 bits. */
  lemma {:induction false} MulShrExact(a: nat, mul: nat, shift: nat)
    requires a < TWO64 && mul < TWO32 && shift <= 32
    ensures MulShr(a, mul, shift) == ((a * mul) / Pow2(shift)) % TWO64
  {
    var x, y, p, q := (a % TWO32) * mul, (a / TWO32) * mul, Pow2(shift), Pow2(32 - shift);
    WordProduct(a % TWO32, mul);
    MulNat(a / TWO32, mul);
    MulNat(y, q);
    LowerThan(x, p);
    assert a / TWO32 == 0 ==> y == 0;
    MulShrParts(a, mul, shift, x / p, y * q);
    Pow2Of32();
    Pow2Add(32 - shift, shift);
    ShiftedSum(x, y, p, q);
    Split(a, mul);
  }

  lemma {:induction false} MulShrParts(a: nat, mul: nat, shift: nat, low: int, up: int)
    requires shift <= 32 && low == ((a % TWO32) * mul) / Pow2(shift) && up == ((a / TWO32) * mul) * Pow2(32 - shift)
    requires 0 <= low < TWO64 && up >= 0 && (a / TWO32 == 0 ==> up == 0)
    ensures MulShr(a, mul, shift) == (low + up) % TWO64
  {
    assert MulShr(a, mul, shift) == AddUpper(a / TWO32, low, up);
    WrapSum(a / TWO32, low, up);
  }

  lemma {:induction false} WrapSum(ah: int, low: int, up: int)
    requires 0 <= low < TWO64 && up >= 0 && (ah == 0 ==> up == 0)
    ensures AddUpper(ah, low, up) == (low + up) % TWO64
  {
    ModSum(low, up);
    if up == 0 {
      ModSmall(low);
    }
  }

  lemma {:induction false} ShiftedSum(x: int, y: int, p: int, q: int)
    requires p > 0 && q * p == TWO32 && x >= 0 && y >= 0
    ensures (x + y * TWO32) / p == x / p + y * q
  {
    Mul3(y, q, p);
    SumTimes(x / p, y * q, p);
    QuotRem(x + y * TWO32, p, x / p + y * q, x % p);
  }

  lemma SumTimes(a: int, b: int, p: int)
    ensures (a + b) * p == a * p + b * p
  {
  }

  lemma {:induction false} ModSum(x: int, y: int)
    requires x >= 0 && y >= 0
    ensures (x + y % TWO64) % TWO64 == (x + y) % TWO64
  {
    var z := x + y % TWO64;
    QuotRem(x + y, TWO64, z / TWO64 + y / TWO64, z % TWO64);
  }

  lemma LowerThan(x: int, p: int)
    requires 0 <= x < TWO64 && p >= 1
    ensures 0 <= x / p < TWO64
  {
    DivLe(x, p);
    ScaleLeft(x / p, 1, p);
  }

  // ----- __calc_delta -----

  lemma Mul3(a: int, b: int, c: int)
    ensures (a * b) * c == a * (b * c) && (a * b) * c == (a * c) * b
  {
  }

  lemma Cancel(x: int, y: int, p: int)
    requires x * p < y * p && p > 0
    ensures x < y
  {
  }

  lemma RoomStep(weight: int, inv: int, f: int, p: int, q: int, total: int)
    requires f * p <= weight && inv >= 0 && p > 0 && total == q * p && weight * inv < TWO32 * total
    ensures f * inv < TWO32 * q
  {
    Scale(f * p, weight, inv);
    Mul3(f, p, inv);
    Mul3(TWO32, q, p);
    Cancel(f * inv, TWO32 * q, p);
  }

  lemma ProductRoom(weight: int, inv: int, f: int, n: nat)
    requires f * Pow2(n) <= weight && inv >= 0 && n <= 32 && weight * inv < TWO32 * Pow2(32)
    ensures f * inv < TWO32 * Pow2(32 - n)
  {
    Pow2Add(32 - n, n);
    RoomStep(weight, inv, f, Pow2(n), Pow2(32 - n), Pow2(32));
  }

  /** r * o * q * p <= delta * f2 * q * p <= delta * f1 * inv * p <= delta * weight * inv. */
  lemma BoundSteps(delta: int, weight: int, inv: int, f1: int, f2: int, p: int, q: int, o: int, r: int)
    requires delta >= 0 && inv >= 0 && p > 0 && q > 0 && f1 * p <= weight && f2 * q <= f1 * inv && r * o <= delta * f2
    ensures ((r * o) * q) * p <= (delta * weight) * inv
  {
    Scale(r * o, delta * f2, q);
    Mul3(delta, f2, q);
    ScaleLeft(delta, f2 * q, f1 * inv);
    Scale((r * o) * q, delta * (f1 * inv), p);
    Mul3(delta, f1, inv);
    Mul3(delta * f1, inv, p);
    Mul3(delta, f1, p);
    ScaleLeft(delta, f1 * p, weight);
    Scale(delta * (f1 * p), delta * weight, inv);
  }

  lemma DeltaBound(delta: int, weight: int, inv: int, f1: int, f2: int, n1: nat, n2: nat, r: int)
    requires delta >= 0 && inv >= 0 && n1 + n2 <= 32
    requires f1 * Pow2(n1) <= weight && f2 * Pow2(n2) <= f1 * inv && r * Pow2(32 - n1 - n2) <= delta * f2
    ensures r * TWO32 <= (delta * weight) * inv
  {
    var p, q, o := Pow2(n1), Pow2(n2), Pow2(32 - n1 - n2);
    Pow2Of32();
    Pow2Add(32 - n1 - n2, n2);
    Pow2Add(32 - n1, n1);
    BoundSteps(delta, weight, inv, f1, f2, p, q, o, r);
    Mul3(r, o, q);
    Mul3(r, o * q, p);
  }

  lemma ScaleLeft(c: int, a: int, b: int)
    requires a <= b && c >= 0
    ensures c * a <= c * b
  {
  }

  lemma WeightRoom(weight: nat, inv: nat)
    requires inv >= 1
    ensures weight <= weight * inv
  {
    ScaleLeft(weight, 1, inv);
  }

  lemma Quotient(r: int, w: int, x: int, inv: int)
    requires r * TWO32 <= x * inv && inv * w <= TWO32 && w >= 0 && x >= 0
    ensures r * w <= x
  {
    Scale(r * TWO32, x * inv, w);
    assert (x * inv) * w == x * (inv * w);
    ScaleLeft(x, inv * w, TWO32);
    assert (r * TWO32) * w == (r * w) * TWO32;
  }

  /** The halvings do not use up more than the 32 bits of shift. */
  predicate FitsShift(weight: int, inv: int) {
    Halvings(weight) + Halvings((weight / Pow2(Halvings(weight))) * inv) <= 32
  }

  /** The value computed, in closed form. */
  function Quot(delta: int, weight: int, inv: int): int
    requires FitsShift(weight, inv)
  {
    var n1 := Halvings(weight);
    var f := (weight / Pow2(n1)) * inv;
    var n2 := Halvings(f);
    MulShr(delta, f / Pow2(n2), 32 - n1 - n2)
  }

  lemma {:induction false} QuotZero(weight: int, inv: int)
    requires FitsShift(weight, inv)
    ensures Quot(0, weight, inv) == 0
  {
    var n1 := Halvings(weight);
    var f := (weight / Pow2(n1)) * inv;
    ShrZero(f / Pow2(Halvings(f)), 32 - n1 - Halvings(f));
  }

  lemma {:induction false} ShrZero(mul: int, shift: nat)
    requires shift <= 32
    ensures MulShr(0, mul, shift) == 0
  {
    assert 0 * mul == 0 && 0 / Pow2(shift) == 0;
  }

  /** A product of weight and inverse below 2^64 leaves enough shift; so does every weight of 32 bits. */
  lemma {:induction false} ProductFits(weight: nat, inv: nat)
    requires inv >= 1 && weight * inv < TWO32 * Pow2(32)
    ensures FitsShift(weight, inv)
  {
    var n := Halvings(weight);
    WeightRoom(weight, inv);
    HalvingsBound(weight, 32);
    Halved(weight);
    ProductRoom(weight, inv, weight / Pow2(n), n);
    HalvingsBound((weight / Pow2(n)) * inv, 32 - n);
  }

  lemma {:induction false} WordFits(weight: nat, inv: nat)
    requires weight < TWO32 && 1 <= inv <= WMULT_CONST
    ensures FitsShift(weight, inv)
  {
    Pow2Of32();
    ScaleLeft(weight, inv, WMULT_CONST);
    Scale(weight, WMULT_CONST, WMULT_CONST);
    MulNat(weight, inv);
    ProductFits(weight, inv);
  }

  /** The result is at most delta * weight * inverse / 2^32. */
  lemma {:induction false} QuotUpperBound(delta: nat, weight: nat, inv: nat)
    requires FitsShift(weight, inv)
    ensures 0 <= Quot(delta, weight, inv) && Quot(delta, weight, inv) * TWO32 <= (delta * weight) * inv
  {
    var n1 := Halvings(weight);
    var f1 := weight / Pow2(n1);
    Halved(weight);
    DivLe(weight, Pow2(n1));
    MulNat(f1, inv);
    var n2 := Halvings(f1 * inv);
    var f2 := (f1 * inv) / Pow2(n2);
    Halved(f1 * inv);
    DivLe(f1 * inv, Pow2(n2));
    var r := Quot(delta, weight, inv);
    MulShrBound(delta, f2, 32 - n1 - n2);
    DeltaBound(delta, weight, inv, f1, f2, n1, n2, r);
  }

  /** For totals up to 2^32 it is never above the exact quotient. */
  lemma {:induction false} QuotNotAbove(delta: nat, weight: nat, total: nat)
    requires FitsShift(weight, Inverse(total)) && total <= TWO32
    ensures Quot(delta, weight, Inverse(total)) * total <= delta * weight
  {
    InverseBound(total);
    QuotUpperBound(delta, weight, Inverse(total));
    MulNat(delta, weight);
    Quotient(Quot(delta, weight, Inverse(total)), total, delta * weight, Inverse(total));
  }

  /** The division by shifts. It is defined as long as the shift does not become negative. */
  method Divide(delta: nat, weight: nat, inv: nat) returns (r: int, defined: bool)
    requires delta < TWO64 && inv >= 1
    ensures defined <==> FitsShift(weight, inv)
    ensures defined ==> r == Quot(delta, weight, inv)
  {
    var f1, shift1 := Halve(weight, WMULT_SHIFT);
    MulNat(f1, inv);
    var f2, shift := Halve(f1 * inv, shift1);
    defined := shift >= 0;
    r := 0;
    if defined {
      r := MulShr(delta, f2, shift);
    }
  }

  /** __calc_delta. It is defined exactly when the halvings leave some shift, as for every weight of 32 bits. The result is
      at most delta * weight * inverse / 2^32, and hence for totals up to 2^32 never above the exact quotient
      delta * weight / total. */
  method CalcDelta(delta: nat, weight: nat, lw0: LoadWeight) returns (r: int, lw: LoadWeight, defined: bool)
    requires delta < TWO64 && Cached(lw0)
    ensures lw.weight == lw0.weight && Cached(lw) && lw.inv == Inverse(lw.weight) >= 1
    ensures (defined <==> FitsShift(weight, lw.inv)) && (weight < TWO32 ==> defined)
    ensures defined ==> r == Quot(delta, weight, lw.inv) && 0 <= r && r * TWO32 <= (delta * weight) * lw.inv
    ensures defined && lw.weight <= TWO32 ==> r * lw.weight <= delta * weight
  {
    lw := UpdateInvWeight(lw0);
    InverseBound(lw.weight);
    r, defined := Divide(delta, weight, lw.inv);
    if weight < TWO32 {
      WordFits(weight, lw.inv);
    }
    if defined {
      QuotUpperBound(delta, weight, lw.inv);
      if lw.weight <= TWO32 {
        QuotNotAbove(delta, weight, lw.weight);
      }
    }
  }

  /** For totals above 2^32 the cached inverse is 1, and the result exceeds the exact quotient. */
  lemma {:induction false} LargeTotalOvershoots(delta: nat, weight: nat, total: nat)
    requires total > TWO32 && delta == TWO32 && weight == 1
    ensures Inverse(total) == 1 && FitsShift(weight, Inverse(total))
    ensures Quot(delta, weight, Inverse(total)) * total > delta * weight
  {
    var inv := Inverse(total);
    assert inv == 1;
    OneUnit(delta, weight, inv, total);
  }

  lemma {:induction false} OneUnit(delta: int, weight: int, inv: int, total: int)
    requires delta == TWO32 < total && weight == 1 && inv == 1
    ensures FitsShift(weight, inv) && Quot(delta, weight, inv) * total > delta * weight
  {
    ShiftedWord();
    assert weight * inv == 1;
    NoHalving(delta, weight, inv);
    assert Quot(delta, weight, inv) == 1;
  }

  lemma ShiftedWord()
    ensures MulShr(TWO32, 1, 32) == 1
  {
    Pow2Of32();
    assert TWO32 % TWO32 == 0 && TWO32 / TWO32 == 1;
    assert Pow2(0) == 1;
  }

  /** For a weight within the total no bit is shifted out, and the loss is below one unit plus delta * weight / 2^32. */
  lemma SliceLowerBound(delta: nat, weight: nat, total: nat)
    requires delta < TWO64 && weight <= total && 0 < total < WMULT_CONST
    ensures FitsShift(weight, Inverse(total))
    ensures (delta * weight) * (TWO32 - total) < ((Quot(delta, weight, Inverse(total)) + 1) * TWO32) * total
  {
    var inv := Inverse(total);
    InverseBound(total);
    InverseTight(total);
    ScaleLeft(inv, weight, total);
    MulNat(weight, inv);
    NoHalving(delta, weight, inv);
    var r := Quot(delta, weight, inv);
    ExactShr(delta, weight * inv);
    LowerSteps(delta, weight, inv, total, r);
  }

  lemma InverseTight(total: nat)
    requires 0 < total < WMULT_CONST
    ensures Inverse(total) * total <= WMULT_CONST && TWO32 - total <= Inverse(total) * total
  {
    assert WMULT_CONST == (WMULT_CONST / total) * total + WMULT_CONST % total;
  }

  lemma NoHalving(delta: int, weight: int, inv: int)
    requires weight < TWO32 && weight * inv < TWO32
    ensures FitsShift(weight, inv) && Quot(delta, weight, inv) == MulShr(delta, weight * inv, 32)
  {
    assert Pow2(0) == 1 && Halvings(weight) == 0 && weight / 1 == weight;
    assert Halvings(weight * inv) == 0;
  }

  /** (r + 1) * 2^32 > delta * fact, and fact * total >= weight * (2^32 - total). */
  lemma LowerSteps(delta: int, weight: int, inv: int, total: int, r: int)
    requires delta >= 0 && weight >= 0 && total > 0 && TWO32 - total <= inv * total
    requires delta * (weight * inv) < (r + 1) * TWO32
    ensures (delta * weight) * (TWO32 - total) < ((r + 1) * TWO32) * total
  {
    Scale(delta * (weight * inv) + 1, (r + 1) * TWO32, total);
    Distribute(delta * (weight * inv), total);
    ScaleLeft(weight, TWO32 - total, inv * total);
    Mul3(weight, inv, total);
    ScaleLeft(delta, weight * (TWO32 - total), (weight * inv) * total);
    Mul3(delta, weight * inv, total);
    Mul3(delta, weight, TWO32 - total);
  }

  /** With a shift of 32 nothing wraps: the result is the exact floor of delta * fact / 2^32. */
  lemma ExactShr(delta: nat, fact: nat)
    requires delta < TWO64 && fact < TWO32
    ensures delta * fact < (MulShr(delta, fact, 32) + 1) * TWO32
  {
    var x, y := (delta % TWO32) * fact, (delta / TWO32) * fact;
    Unwrapped(delta, fact);
    Split(delta, fact);
    assert x < (x / TWO32 + 1) * TWO32;
  }

  lemma {:induction false} Unwrapped(delta: nat, fact: nat)
    requires delta < TWO64 && fact < TWO32
    ensures MulShr(delta, fact, 32) == ((delta % TWO32) * fact) / TWO32 + (delta / TWO32) * fact
  {
    var al, ah := delta % TWO32, delta / TWO32;
    WordProduct(al, fact);
    WordProduct(ah, fact);
    Pow2Of32();
    Pieces(delta, fact, (al * fact) / TWO32, ah * fact);
  }

  lemma {:induction false} Pieces(delta: nat, fact: nat, low: int, y: int)
    requires Pow2(32) == TWO32 && low == ((delta % TWO32) * fact) / TWO32 && y == (delta / TWO32) * fact
    requires 0 <= low <= TWO32 - 2 && 0 <= y <= (TWO32 - 1) * (TWO32 - 1)
    ensures MulShr(delta, fact, 32) == low + y
  {
    assert Pow2(0) == 1 && y * 1 == y;
    ModSmall(y);
    ModSmall(low + y);
    assert delta / TWO32 == 0 ==> y == 0;
  }

  lemma ModSmall(x: int)
    requires 0 <= x < TWO64
    ensures x % TWO64 == x
  {
  }

  /** The product of two words is below 2^64 - 2^32, so its upper half is below 2^32 - 1. */
  lemma {:induction false} WordProduct(a: nat, b: nat)
    requires a < TWO32 && b < TWO32
    ensures 0 <= a * b <= (TWO32 - 1) * (TWO32 - 1) && a * b / TWO32 <= TWO32 - 2
  {
    MulNat(a, b);
    ScaleLeft(a, b, TWO32 - 1);
    Scale(a, TWO32 - 1, TWO32 - 1);
  }

  /** Halving to 32 bits keeps all but one part in 2^31. */
  lemma {:induction false} HalvedClose(f: nat)
    ensures ((f / Pow2(Halvings(f))) * Pow2(Halvings(f))) * TWO31 >= f * (TWO31 - 1)
  {
    var n := Halvings(f);
    var p, g := Pow2(n), f / Pow2(n);
    if n == 0 {
      assert p == 1;
    } else {
      HalvedLarge(f);
      CloseSteps(f, g, p);
    }
  }

  lemma {:induction false} HalvedLarge(f: nat)
    requires f >= TWO32
    ensures f / Pow2(Halvings(f)) >= TWO31
  {
    var h := f / 2;
    if h >= TWO32 {
      HalvedLarge(h);
    } else {
      assert Halvings(h) == 0 && Pow2(1) == 2 * Pow2(0) == 2;
    }
    HalfMod(f, Pow2(Halvings(h)));
  }

  lemma {:induction false} CloseSteps(f: int, g: int, p: int)
    requires p > 0 && f >= 0 && g == f / p && g >= TWO31
    ensures (g * p) * TWO31 >= f * (TWO31 - 1)
  {
    assert f < g * p + p;
    Scale(f, g * p + p, TWO31 - 1);
    SumTimes(g * p, p, TWO31 - 1);
    assert (g * p) * (TWO31 - 1) == (g * p) * TWO31 - g * p;
    Scale(TWO31, g, p);
  }

  /** How close the result comes to the exact quotient, for every weight of 32 bits and every quotient of 64 bits: one
      part in 2^31, one part in 2^32 for each unit of the total, and less than one unit are lost. */
  lemma {:induction false} QuotLowerBound(delta: nat, weight: nat, total: nat)
    requires delta < TWO64 && weight < TWO32 && 0 < total < WMULT_CONST && delta * weight < TWO64 * total
    ensures FitsShift(weight, Inverse(total))
    ensures ((Quot(delta, weight, Inverse(total)) + 1) * TWO63) * total > ((delta * weight) * (TWO32 - total)) * (TWO31 - 1)
  {
    InverseBound(total);
    InverseTight(total);
    QuotClose(delta, weight, Inverse(total), total);
  }

  lemma {:induction false} QuotClose(delta: nat, weight: nat, inv: nat, total: nat)
    requires delta < TWO64 && weight < TWO32 && 1 <= inv <= WMULT_CONST && 0 < total < TWO32 && delta * weight < TWO64 * total
    requires TWO32 - total <= inv * total <= TWO32
    ensures FitsShift(weight, inv)
    ensures ((Quot(delta, weight, inv) + 1) * TWO63) * total > ((delta * weight) * (TWO32 - total)) * (TWO31 - 1)
  {
    var n := WordShift(weight, inv);
    QuotShifted(delta, weight, inv, total, n);
    HalvedClose(weight * inv);
    HalvedSmall(weight * inv);
    Pow2Of32();
    Pow2Add(32 - n, n);
    LowerChain(delta, weight, inv, total, (weight * inv) / Pow2(n), Pow2(n), Pow2(32 - n), Quot(delta, weight, inv));
  }

  lemma {:induction false} WordShift(weight: nat, inv: nat) returns (n: nat)
    requires weight < TWO32 && 1 <= inv <= WMULT_CONST
    ensures FitsShift(weight, inv) && weight * inv >= 0 && n == Halvings(weight * inv) <= 32
    ensures forall delta :: Quot(delta, weight, inv) == MulShr(delta, (weight * inv) / Pow2(n), 32 - n)
  {
    WordFits(weight, inv);
    MulNat(weight, inv);
    n := Halvings(weight * inv);
    assert Halvings(weight) == 0 && Pow2(0) == 1 && weight / Pow2(0) == weight;
  }

  lemma {:induction false} QuotShifted(delta: nat, weight: nat, inv: nat, total: nat, n: nat)
    requires FitsShift(weight, inv) && weight * inv >= 0 && n == Halvings(weight * inv) <= 32
    requires Quot(delta, weight, inv) == MulShr(delta, (weight * inv) / Pow2(n), 32 - n)
    requires delta < TWO64 && inv * total <= TWO32 && delta * weight < TWO64 * total && total > 0
    ensures Quot(delta, weight, inv) == (delta * ((weight * inv) / Pow2(n))) / Pow2(32 - n)
  {
    var g := (weight * inv) / Pow2(n);
    HalvedSmall(weight * inv);
    MulShrExact(delta, g, 32 - n);
    NoWrap(delta, weight, inv, total, g, n);
    ModSmall((delta * g) / Pow2(32 - n));
  }

  lemma {:induction false} HalvedSmall(f: nat)
    ensures 0 <= f / Pow2(Halvings(f)) < TWO32
  {
    if f < TWO32 {
      assert Pow2(0) == 1;
    } else {
      HalvedSmall(f / 2);
      HalfMod(f, Pow2(Halvings(f / 2)));
    }
  }

  /** The quotient fits 64 bits if the exact one does. */
  lemma {:induction false} NoWrap(delta: nat, weight: nat, inv: nat, total: nat, g: nat, n: nat)
    requires n <= 32 && g == (weight * inv) / Pow2(n) && inv * total <= TWO32 && delta * weight < TWO64 * total && total > 0
    ensures 0 <= (delta * g) / Pow2(32 - n) < TWO64
  {
    var p, o := Pow2(n), Pow2(32 - n);
    var r := (delta * g) / o;
    MulNat(delta, g);
    DivLe(delta * g, o);
    MulNat(weight, inv);
    DivLe(weight * inv, p);
    Pow2Of32();
    Pow2Add(32 - n, n);
    BoundSteps(delta, weight, inv, weight, g, 1, p, o, r);
    Mul3(r, o, p);
    MulNat(delta, weight);
    Quotient(r, total, delta * weight, inv);
    Cancel(r, TWO64, total);
  }

  lemma {:induction false} LowerChain(delta: int, weight: int, inv: int, total: int, g: int, p: int, o: int, r: int)
    requires delta >= 0 && weight >= 0 && inv >= 0 && total > 0 && g >= 0 && p > 0 && o > 0 && o * p == TWO32
    requires r == (delta * g) / o && (g * p) * TWO31 >= (weight * inv) * (TWO31 - 1) && inv * total >= TWO32 - total && total < TWO32
    ensures ((r + 1) * TWO63) * total > ((delta * weight) * (TWO32 - total)) * (TWO31 - 1)
  {
    // (r + 1) * o > delta * g, times p: (r + 1) * 2^32 > delta * (g * p)
    assert delta * g < r * o + o;
    SumTimes(r, 1, o);
    StrictScale(delta * g, (r + 1) * o, p);
    Mul3(r + 1, o, p);
    Mul3(delta, g, p);
    // times 2^31, with g * p * 2^31 at least weight * inv * (2^31 - 1)
    ScaleLeft(delta, (weight * inv) * (TWO31 - 1), (g * p) * TWO31);
    Mul3(delta, g * p, TWO31);
    assert ((r + 1) * TWO32) * TWO31 == (r + 1) * TWO63;
    assert (r + 1) * TWO63 > delta * ((weight * inv) * (TWO31 - 1));
    // times total, with inv * total at least 2^32 - total
    StrictScale(delta * ((weight * inv) * (TWO31 - 1)), (r + 1) * TWO63, total);
    LowerLast(delta, weight, inv, total);
  }

  lemma StrictScale(a: int, b: int, c: int)
    requires a < b && c > 0
    ensures a * c < b * c
  {
  }

  lemma {:induction false} LowerLast(delta: int, weight: int, inv: int, total: int)
    requires delta >= 0 && weight >= 0 && inv * total >= TWO32 - total
    ensures (delta * ((weight * inv) * (TWO31 - 1))) * total >= ((delta * weight) * (TWO32 - total)) * (TWO31 - 1)
  {
    var d := delta * weight;
    MulNat(delta, weight);
    ScaleLeft(d, TWO32 - total, inv * total);
    Scale(d * (TWO32 - total), d * (inv * total), TWO31 - 1);
    Mul3(delta, weight * inv, TWO31 - 1);
    Mul3(delta, weight, inv);
    Mul3(d * inv, TWO31 - 1, total);
    Mul3(d, inv, total);
  }

  // ----- slices -----

  const SCHED_LATENCY: nat := 50000
  const MIN_GRANULARITY: nat := 12500
  const NR_LATENCY: nat := 4

  /** __sched_period. */
  function SchedPeriod(nr: nat): nat {
    if nr > NR_LATENCY then nr * MIN_GRANULARITY else SCHED_LATENCY
  }

  /** The least period that is not below the latency and gives each task at least the minimum granularity. */
  lemma PeriodLeast(nr: nat, p: nat)
    ensures p >= SchedPeriod(nr) <==> p >= SCHED_LATENCY && p >= nr * MIN_GRANULARITY
  {
  }

  function Sum(s: seq<int>): int {
    if s == [] then 0 else s[0] + Sum(s[1..])
  }

  /** Shares that each stay within period * weight / total sum to at most the period. */
  lemma {:induction false} SharesSum(period: int, ws: seq<int>, rs: seq<int>, total: int)
    requires |rs| == |ws| && forall i :: 0 <= i < |ws| ==> rs[i] * total <= period * ws[i]
    ensures Sum(rs) * total <= period * Sum(ws)
  {
    if ws != [] {
      SharesSum(period, ws[1..], rs[1..], total);
      assert (rs[0] + Sum(rs[1..])) * total == rs[0] * total + Sum(rs[1..]) * total;
      assert period * (ws[0] + Sum(ws[1..])) == period * ws[0] + period * Sum(ws[1..]);
    }
  }

  lemma {:induction false} SumSplit(a: seq<int>, b: seq<int>)
    ensures Sum(a + b) == Sum(a) + Sum(b)
  {
    if a == [] {
      assert a + b == b;
    } else {
      assert (a + b)[1..] == a[1..] + b;
      SumSplit(a[1..], b);
    }
  }

  lemma {:induction false} SumAtLeast(s: seq<int>, i: nat)
    requires i < |s| && forall j :: 0 <= j < |s| ==> s[j] >= 0
    ensures 0 <= s[i] <= Sum(s)
  {
    SumNonneg(s);
    if i > 0 {
      SumAtLeast(s[1..], i - 1);
    } else {
      SumNonneg(s[1..]);
    }
  }

  lemma {:induction false} SumNonneg(s: seq<int>)
    requires forall j :: 0 <= j < |s| ==> s[j] >= 0
    ensures Sum(s) >= 0
  {
    if s != [] {
      SumNonneg(s[1..]);
    }
  }

  /** The load of a CFS run queue. */
  class CfsRq {
    var load: LoadWeight
    var nrRunning: nat
    /** The weights of the runnable tasks. */
    ghost var weights: seq<int>

    ghost predicate Valid()
      reads this
    {
      && (forall i :: 0 <= i < |weights| ==> weights[i] >= 0)
      && load.weight == Sum(weights) && nrRunning == |weights| && Cached(load)
    }

    constructor ()
      ensures Valid() && weights == []
    {
      load, nrRunning, weights := LoadWeight(0, 0), 0, [];
    }

    /** enqueue_update. */
    method Enqueue(w: nat)
      requires Valid()
      modifies this
      ensures Valid() && weights == old(weights) + [w] && load.weight == old(load.weight) + w
    {
      SumSplit(weights, [w]);
      load := LoadWeight(load.weight + w, 0);
      nrRunning := nrRunning + 1;
      weights := weights + [w];
    }

    /** dequeue_update. */
    method Dequeue(w: nat, ghost i: nat)
      requires Valid() && i < |weights| && weights[i] == w
      modifies this
      ensures Valid() && weights == old(weights)[..i] + old(weights)[i + 1..] && load.weight == old(load.weight) - w
    {
      ghost var a, b := weights[..i], weights[i + 1..];
      assert weights == a + ([w] + b);
      SumSplit(a, [w] + b);
      SumSplit(a, b);
      SumAtLeast(weights, i);
      assert forall j :: 0 <= j < |a + b| ==> (a + b)[j] >= 0;
      load := LoadWeight(load.weight - w, 0);
      nrRunning := nrRunning - 1;
      weights := a + b;
    }

    /** sched_slice. A task that is not yet on the queue is counted in a copy of the load. */
    method SchedSlice(w: nat, onRq: bool) returns (slice: int, defined: bool)
      requires Valid() && nrRunning < TWO32
      modifies this`load
      ensures Valid() && load.weight == old(load.weight) && (w < TWO32 ==> defined)
      ensures var total := if onRq then load.weight else load.weight + w;
              var period := SchedPeriod(nrRunning + if onRq then 0 else 1);
              && (defined <==> FitsShift(w, Inverse(total)))
              && (defined ==> slice == Quot(period, w, Inverse(total)) && 0 <= slice && slice * TWO32 <= (period * w) * Inverse(total))
              && (defined && total <= TWO32 ==> slice * total <= period * w)
    {
      var period := SchedPeriod(nrRunning + if onRq then 0 else 1);
      var lw := if onRq then load else LoadWeight(load.weight + w, 0);
      slice, lw, defined := CalcDelta(period, w, lw);
      if onRq {
        load := lw;
      }
    }

    /** Over a whole queue whose slices are defined: together they are at most the period times load and inverse over 2^32,
        and hence fit into one scheduling period whenever the load is at most 2^32. */
    method AllSlices(ws: seq<int>) returns (slices: seq<int>)
      requires Valid() && ws == weights && nrRunning < TWO32
      requires forall i :: 0 <= i < |ws| ==> FitsShift(ws[i], Inverse(load.weight))
      modifies this`load
      ensures Valid() && |slices| == nrRunning && load.weight == old(load.weight)
      ensures Sum(slices) * TWO32 <= (SchedPeriod(nrRunning) * Inverse(load.weight)) * load.weight
      ensures load.weight <= TWO32 ==> Sum(slices) <= SchedPeriod(nrRunning)
      ensures forall i :: 0 <= i < |ws| ==> slices[i] == Quot(SchedPeriod(nrRunning), ws[i], Inverse(load.weight))
    {
      ghost var period, inv := SchedPeriod(nrRunning), Inverse(load.weight);
      slices := [];
      while |slices| < |ws|
        invariant Valid() && load.weight == old(load.weight) && |slices| <= |ws|
        invariant forall i :: 0 <= i < |slices| ==> slices[i] == Quot(period, ws[i], inv) && slices[i] * TWO32 <= (period * inv) * ws[i]
      {
        var slice, defined := SchedSlice(ws[|slices|], true);
        Mul3(period, ws[|slices|], inv);
        slices := slices + [slice];
      }
      InverseBound(load.weight);
      SlicesFitPeriod(period, inv, ws, slices);
    }
  }

  /** Slices that are each within their share of period times inverse. */
  lemma {:induction false} SlicesFitPeriod(period: nat, inv: nat, ws: seq<int>, slices: seq<int>)
    requires |slices| == |ws| && forall i :: 0 <= i < |ws| ==> slices[i] * TWO32 <= (period * inv) * ws[i]
    ensures Sum(slices) * TWO32 <= (period * inv) * Sum(ws)
    ensures inv * Sum(ws) <= TWO32 ==> Sum(slices) <= period
  {
    SharesSum(period * inv, ws, slices, TWO32);
    if inv * Sum(ws) <= TWO32 {
      Mul3(period, inv, Sum(ws));
      ScaleLeft(period, inv * Sum(ws), TWO32);
    }
  }

  /** Beyond that the slices need not fit: a single task of weight 2^33 gets twice the period. */
  lemma OverloadedSlice()
    ensures var w := 2 * TWO32;
            Inverse(w) == 1 && FitsShift(w, 1) && Quot(SchedPeriod(1), w, 1) == 2 * SchedPeriod(1)
  {
    var w := 2 * TWO32;
    assert Halvings(w / 2 / 2) == 0 && Halvings(w / 2) == 1 && Halvings(w) == 2;
    assert Pow2(2) == 4 && w / 4 == TWO31;
    assert Halvings(TWO31 * 1) == 0 && Pow2(0) == 1;
    Pow2Add(30, 2);
    Pow2Of32();
    assert Pow2(30) * 4 == TWO32;
    assert MulShr(50000, TWO31, 30) == (50000 * TWO31) / Pow2(30);
  }
}
