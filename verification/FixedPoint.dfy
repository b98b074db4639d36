/** The 24.8 conversions of wayland-util.h, which read and write the bits of an IEEE 754
    binary64 number (sections 3.4 and 4.3.1 of IEEE 754-2008) through a union. */
module FixedPoint {
  import opened Basics

  const TWO51: int := 0x8_0000_0000_0000
  const TWO52: int := 0x10_0000_0000_0000
  const TWO53: int := 0x20_0000_0000_0000
  const TWO63: int := 0x8000_0000_0000_0000
  const TWO44: int := 0x1000_0000_0000
  const TWO45: int := 0x2000_0000_0000
  /** `3LL << 43` */
  const BIAS: int := 0x1800_0000_0000

  /** The low 32 bits as a signed number. */
  function Truncate(i: int): int { (i + 0x8000_0000) % UINT32 - 0x8000_0000 }

  // ----- powers of two -----

  function Pow2(e: int): (p: real)
    ensures p > 0.0
    decreases if e < 0 then -e else e
  {
    if e == 0 then 1.0 else if e > 0 then 2.0 * Pow2(e - 1) else Pow2(e + 1) / 2.0
  }

  lemma Pow2Up(e: int)
    ensures Pow2(e + 1) == 2.0 * Pow2(e)
  {
  }

  lemma {:induction false} Pow2Monotone(a: int, b: int)
    requires a <= b
    ensures Pow2(a) <= Pow2(b)
    decreases b - a
  {
    if a < b {
      Pow2Up(a);
      Pow2Monotone(a + 1, b);
    }
  }

  /** From -8 up, powers of two are multiples of 1/256. */
  lemma {:induction false} Pow2Multiple(e: int) returns (n: int)
    requires e >= -8
    ensures n > 0 && Pow2(e) == n as real / 256.0
    decreases e + 8
  {
    if e == -8 {
      n := 1;
      Pow2Small();
    } else {
      n := Pow2Multiple(e - 1);
      Pow2Up(e - 1);
      n := 2 * n;
    }
  }

  lemma Pow2Small()
    ensures Pow2(-8) == 1.0 / 256.0 && Pow2(-9) == 1.0 / 512.0
  {
    Pow2Up(-9); Pow2Up(-8); Pow2Up(-7); Pow2Up(-6); Pow2Up(-5); Pow2Up(-4); Pow2Up(-3); Pow2Up(-2); Pow2Up(-1);
  }

  lemma Pow2Large()
    ensures Pow2(44) == TWO44 as real && Pow2(43) == TWO44 as real / 2.0 && Pow2(45) == TWO45 as real
  {
    Pow2By8(0, 1); Pow2By8(8, 0x100); Pow2By8(16, 0x1_0000); Pow2By8(24, 0x100_0000); Pow2By8(32, 0x1_0000_0000);
    Pow2Up(40); Pow2Up(41); Pow2Up(42); Pow2Up(43); Pow2Up(44);
  }

  lemma Pow2By8(e: int, n: int)
    requires Pow2(e) == n as real
    ensures Pow2(e + 8) == (256 * n) as real
  {
    Pow2Up(e); Pow2Up(e + 1); Pow2Up(e + 2); Pow2Up(e + 3);
    Pow2Up(e + 4); Pow2Up(e + 5); Pow2Up(e + 6); Pow2Up(e + 7);
  }

  // ----- binary64 -----

  /** A finite double: a 53-bit significand and an exponent in range. */
  predicate IsScaled(x: real, m: int, e: int) {
    -TWO53 < m < TWO53 && -1074 <= e <= 971 && x == m as real * Pow2(e)
  }

  ghost predicate Representable(x: real) { exists m, e :: IsScaled(x, m, e) }

  function Abs(x: real): real { if x < 0.0 then -x else x }

  /** A result of rounding to nearest, whichever way ties go. */
  ghost predicate Rounded(exact: real, r: real) {
    Representable(r) && forall q :: Representable(q) ==> Abs(r - exact) <= Abs(q - exact)
  }

  lemma ExactStays(exact: real, r: real)
    requires Rounded(exact, r) && Representable(exact)
    ensures r == exact
  {
    assert Abs(r - exact) <= Abs(exact - exact);
  }

  /** The value of a positive normal number's 64 bits. */
  function Decode(bits: int): real
    requires TWO52 <= bits < TWO63 - TWO52
  {
    Pow2(bits / TWO52 - 1023) * (1.0 + (bits % TWO52) as real / TWO52 as real)
  }

  lemma Quarters(k: int)
    requires -TWO53 < k < TWO53
    ensures Representable(k as real / 256.0)
  {
    Pow2Small();
    assert IsScaled(k as real / 256.0, k, -8);
  }

  /** A double of 2^44 or more has an exponent of -8 or more. */
  lemma LargeExponent(x: real, m: int, e: int)
    requires IsScaled(x, m, e) && TWO44 as real <= x
    ensures e >= -8
  {
    assert TWO53 as real * (1.0 / 512.0) == TWO44 as real;
    Pow2Small();
    if e <= -9 {
      Pow2Monotone(e, -9);
      ProductBound(m as real, TWO53 as real, Pow2(e), 1.0 / 512.0);
    }
  }

  lemma ScaleByInt(r: real, m: int, p: real, n: int)
    requires r == m as real * p && p == n as real / 256.0
    ensures r == (m * n) as real / 256.0
  {
    assert (m * n) as real == m as real * n as real;
  }

  /** In [2^44, 2^45] doubles are the multiples of 1/256. */
  lemma StepIs256th(r: real) returns (k: int)
    requires Representable(r) && TWO44 as real <= r
    ensures r == k as real / 256.0
  {
    hide IsScaled;
    var m, e :| IsScaled(r, m, e);
    LargeExponent(r, m, e);
    k := ScaledStep(r, m, e);
  }

  lemma ScaledStep(r: real, m: int, e: int) returns (k: int)
    requires IsScaled(r, m, e) && e >= -8
    ensures r == k as real / 256.0
  {
    var n := Pow2Multiple(e);
    var p := Pow2(e);
    hide Pow2;
    ScaleByInt(r, m, p, n);
    k := m * n;
  }

  lemma ProductBound(a: real, b: real, p: real, q: real)
    requires a < b && 0.0 < b && 0.0 < p <= q
    ensures a * p < b * q
  {
    assert a * p < b * p;
    assert b * p <= b * q;
  }

  lemma CountSteps(k: int, m: int)
    requires k as real / 256.0 == TWO44 as real + m as real / 256.0
    ensures k == 256 * TWO44 + m
  {
    assert k as real == (256 * TWO44 + m) as real;
  }

  lemma ExponentIs44(e: int, frac: real)
    requires 0.0 <= frac < 1.0 && TWO44 as real <= Pow2(e) * (1.0 + frac) < TWO45 as real
    ensures e == 44
  {
    Pow2Large();
    ScaleBounds(Pow2(e), frac);
    if e > 44 { Pow2Monotone(45, e); }
    if e < 44 { Pow2Monotone(e, 43); }
  }

  /** Bits of a number in [2^44, 2^45): exponent field 1067, significand counting 256ths. */
  lemma BitsInBinade(bits: int, r: real, k: int)
    requires TWO52 <= bits < TWO63 - TWO52 && Decode(bits) == r
    requires TWO44 as real <= r < TWO45 as real && r == k as real / 256.0
    ensures bits == 1067 * TWO52 + (k - 256 * TWO44)
  {
    var m := bits % TWO52;
    var frac := m as real / TWO52 as real;
    ExponentIs44(bits / TWO52 - 1023, frac);
    Pow2Large();
    assert r == Pow2(44) * (1.0 + frac);
    hide Pow2, Decode;
    assert TWO44 as real * (1.0 + frac) == TWO44 as real + m as real / 256.0;
    CountSteps(k, m);
    assert bits == TWO52 * (bits / TWO52) + m;
  }

  lemma ScaleBounds(p: real, frac: real)
    requires 0.0 < p && 0.0 <= frac < 1.0
    ensures p <= p * (1.0 + frac) < 2.0 * p
  {
    assert p * (1.0 + frac) == p + p * frac;
    assert 0.0 <= p * frac < p;
  }

  lemma TruncateShifted(j: int)
    ensures Truncate(1067 * TWO52 + TWO51 + j) == Truncate(j)
  {
    assert 1067 * TWO52 + TWO51 == UINT32 * (1067 * 0x10_0000 + 0x8_0000);
    assert (UINT32 * (1067 * 0x10_0000 + 0x8_0000) + (j + 0x8000_0000)) % UINT32 == (j + 0x8000_0000) % UINT32;
  }

  // ----- the conversions -----

  /** `wl_fixed_to_double`: the bits written into the union */
  function ToDoubleBits(f: int): int { ((1023 + 44) * TWO52) + TWO51 + f }

  ghost predicate ToDouble(f: int, d: real)
    requires IsInt32(f)
  {
    Rounded(Decode(ToDoubleBits(f)) - BIAS as real, d)
  }

  /** `wl_fixed_from_double`: add, reread the bits as an integer, keep 32 of them. */
  ghost predicate FromDouble(d: real, f: int) {
    exists r, bits :: FromDoubleVia(d, r, bits) && f == Truncate(bits)
  }

  ghost predicate FromDoubleVia(d: real, r: real, bits: int) {
    Rounded(d + BIAS as real, r) && TWO52 <= bits < TWO63 - TWO52 && Decode(bits) == r
  }

  /** Every fixed-point number converts exactly. */
  lemma ToDoubleExact(f: int, d: real)
    requires IsInt32(f) && ToDouble(f, d)
    ensures d == f as real / 256.0
  {
    var m := TWO51 + f;
    assert ToDoubleBits(f) / TWO52 == 1067 && ToDoubleBits(f) % TWO52 == m;
    Pow2Large();
    assert Decode(ToDoubleBits(f)) == TWO44 as real * (1.0 + m as real / TWO52 as real);
    assert TWO44 as real * (m as real / TWO52 as real) == m as real / 256.0;
    Quarters(f);
    ExactStays(f as real / 256.0, d);
  }

  /** Converting any double of moderate size gives the low 32 bits of an integer within 1/2 of
      256 times it; so the result itself is that near exactly when that integer fits. */
  lemma FromDoubleNearest(d: real, f: int) returns (k: int)
    requires FromDouble(d, f) && Abs(d) <= (TWO44 / 4) as real
    ensures Abs(k as real - 256.0 * d) <= 0.5 && f == Truncate(k)
    ensures Abs(f as real - 256.0 * d) <= 0.5 <==> IsInt32(k)
  {
    var r, bits :| FromDoubleVia(d, r, bits) && f == Truncate(bits);
    var total := NearestStep(d + BIAS as real, r);
    hide Decode, Rounded;
    BitsInBinade(bits, r, total);
    k := total - 256 * BIAS;
    TruncateShifted(k);
    assert bits == 1067 * TWO52 + TWO51 + k;
    hide Abs, Truncate, IsInt32, Representable;
    ResultNear(d, r, k);
  }

  lemma ResultNear(d: real, r: real, k: int)
    requires r == (k + 256 * BIAS) as real / 256.0 && Abs(r - (d + BIAS as real)) <= 1.0 / 512.0
    ensures Abs(k as real - 256.0 * d) <= 0.5
    ensures Abs(Truncate(k) as real - 256.0 * d) <= 0.5 <==> IsInt32(k)
    ensures IsInt32(k) ==> Truncate(k) == k
  {
    TruncateFar(k);
    assert (k + 256 * BIAS) as real == k as real + (256 * BIAS) as real;
  }

  lemma TruncateFar(k: int)
    ensures IsInt32(Truncate(k)) && (IsInt32(k) <==> Truncate(k) == k)
    ensures !IsInt32(k) ==> Truncate(k) - k >= UINT32 || k - Truncate(k) >= UINT32
  {
    var q := (k + 0x8000_0000) / UINT32;
    assert k - Truncate(k) == UINT32 * q;
  }

  /** In this binade a rounded number is within half a step, 1/512, of the exact one. */
  lemma NearestStep(exact: real, r: real) returns (k: int)
    requires Rounded(exact, r) && TWO44 as real + 1.0 <= exact <= TWO45 as real - 1.0
    ensures r == k as real / 256.0 && Abs(r - exact) <= 1.0 / 512.0
  {
    var near := (256.0 * exact + 0.5).Floor;
    Quarters(near);
    assert Abs(near as real / 256.0 - exact) <= 1.0 / 512.0;
    assert Abs(r - exact) <= Abs(near as real / 256.0 - exact);
    k := StepIs256th(r);
  }

  /** Rounding is defined there: half up is one way to round to nearest. */
  lemma RoundingExists(exact: real) returns (k: int)
    requires TWO44 as real + 1.0 <= exact <= TWO45 as real - 1.0
    ensures k == (256.0 * exact + 0.5).Floor && Rounded(exact, k as real / 256.0)
  {
    k := (256.0 * exact + 0.5).Floor;
    var r := k as real / 256.0;
    Quarters(k);
    forall q | Representable(q)
      ensures Abs(r - exact) <= Abs(q - exact)
    {
      if Abs(q - exact) < 1.0 / 512.0 {
        var j := StepIs256th(q);
        assert j == k;
      }
    }
  }

  /** So the conversion has a result for every double of moderate size. */
  lemma FromDoubleDefined(d: real) returns (f: int)
    requires Abs(d) <= (TWO44 / 4) as real
    ensures FromDouble(d, f)
  {
    var k := RoundingExists(d + BIAS as real);
    var m := k - 256 * TWO44;
    var bits := 1067 * TWO52 + m;
    assert bits / TWO52 == 1067 && bits % TWO52 == m;
    Pow2Large();
    assert TWO44 as real * (1.0 + m as real / TWO52 as real) == k as real / 256.0;
    f := Truncate(bits);
    assert FromDoubleVia(d, k as real / 256.0, bits);
  }

  /** Going to double and back is the identity. */
  lemma FixedRoundTrip(f: int, d: real, g: int)
    requires IsInt32(f) && ToDouble(f, d) && FromDouble(d, g)
    ensures g == f
  {
    ToDoubleExact(f, d);
    var k := FromDoubleNearest(d, g);
    assert 256.0 * d == f as real;
  }
}
