// Fixed-point helpers shared by the self-guided restoration filter: powers of
// two, the round-half-up constant added before a right shift, and the
// arithmetic right shift itself.

module FixedPoint {

  /** 2^s. */
  function Pow2(s: nat): (p: nat)
    ensures p >= 1
  {
    if s == 0 then 1 else 2 * Pow2(s - 1)
  }

  lemma {:induction false} Pow2Add(a: nat, b: nat)
    ensures Pow2(a + b) == Pow2(a) * Pow2(b)
  {
    if b > 0 {
      Pow2Add(a, b - 1);
      assert Pow2(a + b) == 2 * Pow2(a + b - 1);
    }
  }

  lemma {:induction false} Pow2Monotone(a: nat, b: nat)
    requires a <= b
    ensures Pow2(a) <= Pow2(b)
  {
    if a < b {
      Pow2Monotone(a, b - 1);
    }
  }

  /** round_for_shift: (1 << shift) >> 1, the amount added before a
      right shift by `shift` so that the shift rounds half up. */
  function RoundForShift(shift: nat): (rnd: nat)
    ensures shift == 0 ==> rnd == 0
    ensures shift >= 1 ==> 2 * rnd == Pow2(shift)
    ensures rnd < Pow2(shift)
  {
    // (1 << shift) >> 1 drops the single set bit when shift is 0.
    if shift == 0 then 0 else Pow2(shift - 1)
  }

  /** Arithmetic right shift (srai): division by 2^s rounding toward minus
      infinity. Dafny's `/` by a positive divisor already floors. */
  function Shr(v: int, s: nat): int
  {
    v / Pow2(s)
  }

  /** Scaling by 2^s and shifting back with rounding returns the value:
      a rounding constant below 2^s is lost in the shift. */
  lemma {:induction false} ShrOfScaled(a: int, c: int, s: nat)
    requires 0 <= c < Pow2(s)
    ensures Shr(a * Pow2(s) + c, s) == a
  {
    var d := Pow2(s);
    assert a * d <= a * d + c < (a + 1) * d;
    DivBetween(a * d + c, d, a);
  }

  /** A value in [0, 2^s) shifts to zero. */
  lemma ShrSmall(c: int, s: nat)
    requires 0 <= c < Pow2(s)
    ensures Shr(c, s) == 0
  {
    DivBetween(c, Pow2(s), 0);
  }

  /** A whole multiple of 2^s passes through the shift unchanged. */
  lemma {:induction false} ShrAddMultiple(a: int, y: int, s: nat)
    ensures Shr(a * Pow2(s) + y, s) == a + Shr(y, s)
  {
    var d := Pow2(s);
    var q := y / d;
    DivFacts(y, d);
    assert (a + q) * d <= a * d + y < (a + q + 1) * d;
    DivBetween(a * d + y, d, a + q);
  }

  /** If q*d <= v < (q+1)*d then v / d == q. */
  lemma DivBetween(v: int, d: int, q: int)
    requires d > 0
    requires q * d <= v < (q + 1) * d
    ensures v / d == q
  {
    var r := v / d;
    assert r * d <= v < r * d + d;
    var k := r - q;
    assert k * d < d && -d < k * d;
    if k >= 1 {
      assert false;
    } else if k <= -1 {
      assert false;
    }
  }

  lemma MulLeft(x: int, y: int, k: int)
    requires x <= y && k > 0
    ensures x * k <= y * k
  {
  }

  lemma DivFacts(v: int, d: int)
    requires d > 0
    ensures (v / d) * d <= v < (v / d) * d + d
  {
  }

  function Min(a: int, b: int): int { if a <= b then a else b }
  function Max(a: int, b: int): int { if a >= b then a else b }

  /** Saturate v into [lo, hi]. */
  function Clamp(v: int, lo: int, hi: int): (c: int)
    requires lo <= hi
    ensures lo <= c <= hi
    ensures lo <= v <= hi ==> c == v
    ensures v < lo ==> c == lo
    ensures v > hi ==> c == hi
  {
    if v < lo then lo else if v > hi then hi else v
  }

  /** Right shifts preserve order. */
  lemma ShrMonotone(u: int, v: int, s: nat)
    requires u <= v
    ensures Shr(u, s) <= Shr(v, s)
  {
    var d := Pow2(s);
    DivFacts(u, d);
    DivFacts(v, d);
    if u / d > v / d {
      MulLeft(v / d + 1, u / d, d);
      assert false;
    }
  }

  /** A non-negative value shifts to a non-negative value. */
  lemma ShrNonNeg(v: int, s: nat)
    requires 0 <= v
    ensures 0 <= Shr(v, s)
  {
    ShrMonotone(0, v, s);
  }

  lemma MulNonNeg(x: int, y: int)
    requires 0 <= x && 0 <= y
    ensures 0 <= x * y
  {
  }
}

