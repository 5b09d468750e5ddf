/** Integer helpers of the math library: rounding division up and rounding
    up to a power of two, in 32-bit unsigned arithmetic. */
module MathUtils {

  const U32Limit: nat := 0x1_0000_0000

  /** `a / b` rounded up: the quotient, plus one when a remainder is left.
      The result is the least `q` with `q * b >= a`; it never exceeds
      `a`, so it cannot wrap around. */
  function CeilDivide(a: nat, b: nat): (q: nat)
    requires a < U32Limit && 0 < b < U32Limit
    ensures q * b >= a
    ensures q == 0 || (q - 1) * b < a
    ensures q <= a
  {
    QuotientBounds(a, b);
    var quotient := a / b;
    if a % b > 0 then quotient + 1 else quotient
  }

  /** The quotient rounded down and rounded up bracket `a`. */
  lemma QuotientBounds(a: nat, b: nat)
    requires 0 < b
    ensures (a / b) * b <= a < (a / b + 1) * b
    ensures a / b <= a
    ensures a % b == 0 <==> (a / b) * b == a
    ensures a / b > 0 ==> (a / b - 1) * b < a
    ensures a % b > 0 ==> a / b + 1 <= a
  {
    var q, r := a / b, a % b;
    DivMod(a, b);
    StepUp(q, b);
    NoShrink(q, b);
    if q > 0 {
      StepDown(q, b);
    }
    if r > 0 {
      assert b >= 2;
      Monotone(q, 2, b);
    }
  }

  lemma DivMod(a: nat, b: nat)
    requires 0 < b
    ensures a == (a / b) * b + a % b && 0 <= a % b < b
  {
  }

  lemma StepUp(q: nat, b: nat)
    ensures (q + 1) * b == q * b + b
  {
  }

  lemma NoShrink(q: nat, b: nat)
    requires 0 < b
    ensures q <= q * b
  {
  }

  lemma Monotone(q: nat, b: nat, c: nat)
    requires b <= c
    ensures q * b <= q * c
  {
  }

  lemma StepDown(q: nat, b: nat)
    requires 0 < q
    ensures (q - 1) * b == q * b - b
  {
  }

  /** Rounding up is exact exactly when `b` divides `a`. */
  lemma CeilDivideExact(a: nat, b: nat)
    requires a < U32Limit && 0 < b < U32Limit
    ensures CeilDivide(a, b) == a / b <==> a % b == 0
    ensures a % b != 0 ==> CeilDivide(a, b) == a / b + 1
  {
  }

  /** The smallest power of two at or above `x`: the bits below the highest
      set bit of `x - 1` are all set by shifting and or-ing, then one is
      added. All steps wrap around modulo 2^32. */
  function Pow2RoundUp(x: bv32): bv32 {
    var y0 := x - 1;
    var y1 := y0 | (y0 >> 1);
    var y2 := y1 | (y1 >> 2);
    var y3 := y2 | (y2 >> 4);
    var y4 := y3 | (y3 >> 8);
    var y5 := y4 | (y4 >> 16);
    y5 + 1
  }

  /** A single bit is set. */
  predicate IsPowerOfTwo(p: bv32) {
    p != 0 && p & (p - 1) == 0
  }

  /** For 1 <= x <= 2^31 the result is a power of two at least `x`, and no
      smaller power of two is at least `x`. */
  lemma Pow2RoundUpIsLeastPower(x: bv32, p: bv32)
    requires 1 <= x <= 0x8000_0000
    ensures IsPowerOfTwo(Pow2RoundUp(x)) && Pow2RoundUp(x) >= x
    ensures Pow2RoundUp(x) >> 1 < x
    ensures IsPowerOfTwo(p) && p >= x ==> p >= Pow2RoundUp(x)
  {
  }

  /** A power of two is its own round-up, so rounding up twice is rounding up once. */
  lemma Pow2RoundUpIdempotent(x: bv32)
    requires 1 <= x <= 0x8000_0000
    ensures forall p :: IsPowerOfTwo(p) ==> Pow2RoundUp(p) == p
    ensures Pow2RoundUp(Pow2RoundUp(x)) == Pow2RoundUp(x)
  {
  }

  /** Outside that range the arithmetic wraps: zero and every value above
      2^31 round up to zero. */
  lemma Pow2RoundUpWraps(x: bv32)
    ensures Pow2RoundUp(0) == 0
    ensures x > 0x8000_0000 ==> Pow2RoundUp(x) == 0
  {
  }
}
