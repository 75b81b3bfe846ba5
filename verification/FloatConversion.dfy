/** Converting an unsigned 64-bit integer to a float with the signed conversion of the processor. Values are modelled as
    the integers they are: a float with p bits of significand holds the integers m * 2^e with m < 2^p. */
module FloatConversion {

  // m * 2^e
  function Shift(m: nat, e: nat): nat
    decreases e
  {
    if e == 0 then m else 2 * Shift(m, e - 1)
  }

  function Pow2(e: nat): nat {
    Shift(1, e)
  }

  // x / 2^e
  function ShiftRight(x: nat, e: nat): nat
    decreases e
  {
    if e == 0 then x else ShiftRight(x / 2, e - 1)
  }

  lemma {:induction false} ShiftAdd(a: nat, b: nat, e: nat)
    ensures Shift(a + b, e) == Shift(a, e) + Shift(b, e)
    decreases e
  {
    if e > 0 {
      ShiftAdd(a, b, e - 1);
    }
  }

  lemma {:induction false} ShiftShift(m: nat, a: nat, b: nat)
    ensures Shift(Shift(m, a), b) == Shift(m, a + b)
    decreases b
  {
    if b > 0 {
      ShiftShift(m, a, b - 1);
    }
  }

  lemma ShiftGrows(a: nat, b: nat, e: nat)
    requires a <= b
    ensures Shift(a, e) <= Shift(b, e)
  {
    ShiftAdd(a, b - a, e);
  }

  lemma {:induction false} ShiftIsPositive(m: nat, e: nat)
    requires m > 0
    ensures m <= Shift(m, e)
    decreases e
  {
    if e > 0 {
      ShiftIsPositive(m, e - 1);
    }
  }

  // The quotient of a division by 2^e
  lemma {:induction false} QuotientBounds(x: nat, e: nat)
    ensures Shift(ShiftRight(x, e), e) <= x < Shift(ShiftRight(x, e) + 1, e)
    decreases e
  {
    if e > 0 {
      QuotientBounds(x / 2, e - 1);
    }
  }

  lemma QuotientIs(x: nat, q: nat, e: nat)
    requires Shift(q, e) <= x < Shift(q + 1, e)
    ensures ShiftRight(x, e) == q
  {
    var q' := ShiftRight(x, e);
    QuotientBounds(x, e);
    if q' < q {
      ShiftGrows(q' + 1, q, e);
    } else if q < q' {
      ShiftGrows(q + 1, q', e);
    }
  }

  // ---------------------------------------------------------------------------------------
  // Rounding to nearest, ties to even (IEEE 754-2008, section 4.3.1)
  // ---------------------------------------------------------------------------------------

  // A float with the significand m and the exponent e
  predicate IsFloat(v: nat, p: nat, m: nat, e: nat) {
    m < Pow2(p) && v == Shift(m, e)
  }

  ghost predicate Representable(v: nat, p: nat) {
    exists m: nat, e: nat :: IsFloat(v, p, m, e)
  }

  // The last bit of a significand of p bits is 0.
  ghost predicate IsEvenFloat(v: nat, p: nat) {
    exists m: nat, e: nat :: IsFloat(v, p, m, e) && Pow2(p) <= 2 * m && m % 2 == 0
  }

  function Distance(a: nat, b: nat): nat {
    if a < b then b - a else a - b
  }

  // No float is nearer, and of two that are as near it is the even one.
  ghost predicate IsNearestEven(x: nat, v: nat, p: nat) {
    && Representable(v, p)
    && forall w: nat :: Representable(w, p) ==>
         && Distance(x, v) <= Distance(x, w)
         && (w != v && Distance(x, v) == Distance(x, w) ==> IsEvenFloat(v, p))
  }

  // The exponent of the last of p significand bits
  function Exponent(x: nat, p: nat): nat
    decreases x
  {
    if x < Pow2(p) || x == 0 then 0 else 1 + Exponent(x / 2, p)
  }

  // The multiple of 2^e that is nearest, and of two that are as near the even one
  function NearestMultiple(x: nat, e: nat): nat {
    var q := ShiftRight(x, e);
    var rest := x - Shift(q, e);
    if 2 * rest < Pow2(e) || (2 * rest == Pow2(e) && q % 2 == 0) then Shift(q, e) else Shift(q + 1, e)
  }

  // The conversion of the processor
  function Round(x: nat, p: nat): nat {
    NearestMultiple(x, Exponent(x, p))
  }

  lemma {:induction false} ExponentBounds(x: nat, p: nat)
    requires p > 0
    ensures x < Shift(Pow2(p), Exponent(x, p))
    ensures Exponent(x, p) > 0 ==> Shift(Pow2(p - 1), Exponent(x, p)) <= x
    decreases x
  {
    ShiftIsPositive(1, p);
    if x >= Pow2(p) {
      ExponentBounds(x / 2, p);
    }
  }

  lemma {:induction false} ExponentIs(x: nat, p: nat, e: nat)
    requires p > 0 && e > 0 && Shift(Pow2(p - 1), e) <= x < Shift(Pow2(p), e)
    ensures Exponent(x, p) == e
    decreases e
  {
    ShiftIsPositive(1, p);
    ShiftIsPositive(Pow2(p), e - 1);
    assert Pow2(p) == 2 * Pow2(p - 1);
    DoubledShift(Pow2(p - 1), e - 1);
    if e > 1 {
      ExponentIs(x / 2, p, e - 1);
    }
  }

  lemma DoubledShift(m: nat, e: nat)
    ensures Shift(2 * m, e) == Shift(m, e + 1) == 2 * Shift(m, e)
  {
    ShiftAdd(m, m, e);
  }

  // Between two neighbouring multiples of the unit there is no float.
  lemma NoneBetween(q: nat, p: nat, e: nat, w: nat)
    requires p > 0 && Pow2(p - 1) <= q && Representable(w, p)
    ensures w <= Shift(q, e) || Shift(q + 1, e) <= w
  {
    var m: nat, k: nat :| IsFloat(w, p, m, k);
    if k >= e {
      var n := Shift(m, k - e);
      ShiftShift(m, k - e, e);
      if n <= q {
        ShiftGrows(n, q, e);
      } else {
        ShiftGrows(q + 1, n, e);
      }
    } else {
      // A smaller exponent: w is below every float of this one.
      ShiftGrows(m, Pow2(p), k);
      ShiftShift(1, p, k);
      ShiftShift(1, p - 1, e);
      ShiftShift(1, p + k, e - 1 - k);
      ShiftIsPositive(1, p + k);
      ShiftIsPositive(Shift(1, p + k), e - 1 - k);
      ShiftGrows(Pow2(p - 1), q, e);
    }
  }

  // An even one of the two neighbours is an even float, also when it needs one bit more.
  lemma EvenNeighbour(q: nat, p: nat, e: nat)
    requires p > 1 && Pow2(p - 1) <= q <= Pow2(p) && q % 2 == 0
    ensures IsEvenFloat(Shift(q, e), p)
  {
    hide Shift;
    ShiftIsPositive(1, p - 2);
    DoubledShift(1, p - 2);
    DoubledShift(1, p - 1);
    if q < Pow2(p) {
      assert IsFloat(Shift(q, e), p, q, e);
    } else {
      DoubledShift(Pow2(p - 1), e);
      assert IsFloat(Shift(q, e), p, Pow2(p - 1), e + 1);
    }
  }

  lemma RoundIsNearestEven(x: nat, p: nat)
    requires p > 1
    ensures IsNearestEven(x, Round(x, p), p)
  {
    var e := Exponent(x, p);
    if e == 0 {
      ExponentBounds(x, p);
      assert IsFloat(x, p, x, 0);
    } else {
      ExponentBounds(x, p);
      QuotientBounds(x, e);
      var q := ShiftRight(x, e);
      if q < Pow2(p - 1) {
        ShiftGrows(q + 1, Pow2(p - 1), e);
      }
      if Pow2(p) <= q {
        ShiftGrows(Pow2(p), q, e);
      }
      RoundsBetween(x, q, p, e);
    }
  }

  lemma NeighboursAreFloats(q: nat, p: nat, e: nat)
    requires p > 1 && Pow2(p - 1) <= q < Pow2(p)
    ensures Representable(Shift(q, e), p) && Representable(Shift(q + 1, e), p)
    ensures IsEvenFloat(Shift(if q % 2 == 0 then q else q + 1, e), p)
  {
    assert Pow2(p) == 2 * Pow2(p - 1);
    assert IsFloat(Shift(q, e), p, q, e);
    if q % 2 == 0 {
      EvenNeighbour(q, p, e);
      assert IsFloat(Shift(q + 1, e), p, q + 1, e);
    } else {
      EvenNeighbour(q + 1, p, e);
    }
  }

  // The nearer of two neighbours is nearest.
  lemma NearestOfTwo(x: nat, low: nat, high: nat, v: nat, p: nat)
    requires low <= x < high && Representable(v, p)
    requires (v == low && 2 * (x - low) <= high - low) || (v == high && 2 * (x - low) >= high - low)
    requires 2 * (x - low) == high - low ==> IsEvenFloat(v, p)
    requires forall w: nat :: Representable(w, p) ==> w <= low || high <= w
    ensures IsNearestEven(x, v, p)
  {
  }

  lemma RoundsBetween(x: nat, q: nat, p: nat, e: nat)
    requires p > 1 && Pow2(p - 1) <= q < Pow2(p) && q == ShiftRight(x, e)
    ensures IsNearestEven(x, NearestMultiple(x, e), p)
  {
    var v := NearestMultiple(x, e);
    var low, high := Shift(q, e), Shift(q + 1, e);
    QuotientBounds(x, e);
    ShiftAdd(q, 1, e);
    NeighboursAreFloats(q, p, e);
    forall w: nat | Representable(w, p)
      ensures w <= low || high <= w
    {
      NoneBetween(q, p, e, w);
    }
    NearestOfTwo(x, low, high, v, p);
  }

  // ---------------------------------------------------------------------------------------
  // The emitted sequence
  // ---------------------------------------------------------------------------------------

  // or with the lowest bit
  function OrLowBit(h: nat, bit: nat): nat {
    if bit == 1 && h % 2 == 0 then h + 1 else h
  }

  // addsd or addss of a float to itself
  function AddToItself(v: nat, p: nat): nat {
    Round(2 * v, p)
  }

  // cvtsi2sd or cvtsi2ss of a register whose sign bit is not set
  function ConvertSigned(r: nat, p: nat): nat
    requires r < Pow2(63)
  {
    Round(r, p)
  }

  // What the sequence for a u64 leaves in the destination
  function U64ToFloat(a: nat, p: nat): nat
    requires a < Pow2(64)
  {
    if a < Pow2(63) then ConvertSigned(a, p) // test, js
    else
      var r11 := a / 2; // mov, shr
      var rax := a % 2; // mov, and
      assert Pow2(64) == 2 * Pow2(63) && Pow2(63) == 2 * Pow2(62);
      AddToItself(ConvertSigned(OrLowBit(r11, rax), p), p) // or, the conversion, the addition
  }

  // The lowest bit of the half says if anything was lost, so the half is on the same side of its middle.
  lemma HalfKeepsSides(x: nat, q: nat, e: nat)
    requires e >= 2 && Shift(q, e + 1) <= x < Shift(q + 1, e + 1)
    ensures var h := OrLowBit(x / 2, x % 2);
            var rest, half := x - Shift(q, e + 1), h - Shift(q, e);
            && Shift(q, e) <= h < Shift(q + 1, e)
            && (2 * half < Pow2(e) <==> 2 * rest < Pow2(e + 1))
            && (2 * half == Pow2(e) <==> 2 * rest == Pow2(e + 1))
  {
    ShiftAdd(q, 1, e);
    assert Shift(q, e) == 4 * Shift(q, e - 2) by {
      assert Shift(q, e) == 2 * Shift(q, e - 1) && Shift(q, e - 1) == 2 * Shift(q, e - 2);
    }
    assert Pow2(e) == 4 * Pow2(e - 2) by {
      assert Pow2(e) == 2 * Pow2(e - 1) && Pow2(e - 1) == 2 * Pow2(e - 2);
    }
  }

  // Rounding the half and doubling is rounding.
  lemma HalvedMultiple(x: nat, e: nat)
    requires e >= 2
    ensures 2 * NearestMultiple(OrLowBit(x / 2, x % 2), e) == NearestMultiple(x, e + 1)
  {
    var q := ShiftRight(x, e + 1);
    QuotientBounds(x, e + 1);
    HalfKeepsSides(x, q, e);
    QuotientIs(OrLowBit(x / 2, x % 2), q, e);
  }

  // Doubling a float is exact.
  lemma DoublingIsExact(v: nat, p: nat)
    requires p > 1 && Representable(v, p)
    ensures AddToItself(v, p) == 2 * v
  {
    var m: nat, e: nat :| IsFloat(v, p, m, e);
    assert IsFloat(2 * v, p, m, e + 1);
    RoundIsNearestEven(2 * v, p);
    assert Distance(2 * v, Round(2 * v, p)) <= Distance(2 * v, 2 * v);
  }

  // For every u64, and every significand that fits in 61 bits, such as the 53 of f64 and the 24 of f32
  lemma U64ToFloatRounds(x: nat, p: nat)
    requires x < Pow2(64) && 1 < p <= 61
    ensures U64ToFloat(x, p) == Round(x, p)
    ensures IsNearestEven(x, U64ToFloat(x, p), p)
  {
    RoundIsNearestEven(x, p);
    if x >= Pow2(63) {
      HalvedIsRounded(x, p, 63 - p);
    }
  }

  lemma HalvedIsRounded(x: nat, p: nat, e: nat)
    requires p > 1 && e > 1 && Pow2(p + e) <= x < Pow2(p + e + 1)
    ensures AddToItself(Round(OrLowBit(x / 2, x % 2), p), p) == Round(x, p)
  {
    var sticky := OrLowBit(x / 2, x % 2);
    ShiftShift(1, p - 1, e);
    ShiftShift(1, p, e);
    ShiftShift(1, p - 1, e + 1);
    ShiftShift(1, p, e + 1);
    assert Pow2(p + e) == 2 * Pow2(p - 1 + e) == 4 * Pow2(p - 1 + e - 1);
    ExponentIs(x, p, e + 1);
    ExponentIs(sticky, p, e);
    HalvedMultiple(x, e);
    RoundIsNearestEven(sticky, p);
    DoublingIsExact(Round(sticky, p), p);
  }
}
