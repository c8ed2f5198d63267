/**
 IEEE 754 binary32 and binary64 values as bit patterns, with the conversions that Rust's `as`
 performs: integer to `f64` and `f64` to `f32` round to nearest, ties to even; `f32` to `f64` is exact.
 */
module Floats {
  import opened Wrappers

  type F32 = b: nat | b < 0x1_0000_0000
  type F64 = b: nat | b < 0x1_0000_0000_0000_0000
  type FiniteF64 = b: F64 | IsFinite(b)


  function Sign64(f: F64): nat { f / 0x8000_0000_0000_0000 }
  function Exp64(f: F64): (e: nat) ensures e < 2048 { (f / 0x10_0000_0000_0000) % 2048 }
  function Man64(f: F64): (m: nat) ensures m < 0x10_0000_0000_0000 { f % 0x10_0000_0000_0000 }

  function Sign32(f: F32): nat { f / 0x8000_0000 }
  function Exp32(f: F32): (e: nat) ensures e < 256 { (f / 0x80_0000) % 256 }
  function Man32(f: F32): (m: nat) ensures m < 0x80_0000 { f % 0x80_0000 }

  predicate IsFinite(f: F64) { Exp64(f) != 2047 }
  predicate IsFinite32(f: F32) { Exp32(f) != 255 }
  predicate IsNaN(f: F64) { Exp64(f) == 2047 && Man64(f) != 0 }
  predicate IsNaN32(f: F32) { Exp32(f) == 255 && Man32(f) != 0 }

  /** `==` on `f64`: NaN differs from everything, and the two zeros are equal. */
  predicate Eq64(a: F64, b: F64) {
    !IsNaN(a) && !IsNaN(b) && (a == b || (a % 0x8000_0000_0000_0000 == 0 && b % 0x8000_0000_0000_0000 == 0))
  }

  /** `==` on `f32`. */
  predicate Eq32(a: F32, b: F32) {
    !IsNaN32(a) && !IsNaN32(b) && (a == b || (a % 0x8000_0000 == 0 && b % 0x8000_0000 == 0))
  }

  function Pow2(k: nat): (p: nat)
    ensures p > 0
  {
    if k == 0 then 1 else 2 * Pow2(k - 1)
  }

  /** The position of the highest set bit. */
  function Log2(n: nat): nat
    requires n > 0
  {
    if n == 1 then 0 else 1 + Log2(n / 2)
  }

  /** n / d rounded to the nearest integer, ties to even. */
  function RoundHalfEven(n: nat, d: nat): nat
    requires d > 0
  {
    var q, r := n / d, n % d;
    if 2 * r < d || (2 * r == d && q % 2 == 0) then q else q + 1
  }

  /** The significand of a non-negative integer, scaled to 53 bits (2^53 after a carry). */
  function Significand(n: nat): (m: nat)
    requires n > 0
    ensures 0x10_0000_0000_0000 <= m <= 0x20_0000_0000_0000
  {
    var e := Log2(n);
    Log2Bounds(n);
    Pow2Values();
    if e <= 52 then
      ScaleUp(n, e);
      n * Pow2(52 - e)
    else
      ScaleDown(n, e);
      RoundHalfEven(n, Pow2(e - 52))
  }

  /** `n as f64` for an integer of at most 64 bits. */
  function OfInt(n: int): F64
    requires -0x1_0000_0000_0000_0000 < n < 0x1_0000_0000_0000_0000
  {
    if n == 0 then 0
    else
      var a: nat := if n < 0 then -n else n;
      Pow2Values();
      Log2Small(a, 64);
      (if n < 0 then 0x8000_0000_0000_0000 else 0) + (Log2(a) + 1023) * 0x10_0000_0000_0000 +
        (Significand(a) - 0x10_0000_0000_0000)
  }

  /** The mathematical value of a finite float that has no fractional part (`fract() == 0.0`). */
  function Integral(f: F64): Option<int> {
    var e := if Exp64(f) == 0 then 1 else Exp64(f);
    var m := if Exp64(f) == 0 then Man64(f) else 0x10_0000_0000_0000 + Man64(f);
    if !IsFinite(f) then None
    else if e >= 1075 then Some(Signed(Sign64(f) == 1, m * Pow2(e - 1075)))
    else if m % Pow2(1075 - e) == 0 then Some(Signed(Sign64(f) == 1, m / Pow2(1075 - e)))
    else None
  }

  function Signed(negative: bool, a: int): int {
    if negative then -a else a
  }

  /** The integer that the nearest `f64` denotes. */
  function RoundToDouble(n: int): int
    requires -0x1_0000_0000_0000_0000 < n < 0x1_0000_0000_0000_0000
  {
    var a: nat := if n < 0 then -n else n;
    if a < 0x20_0000_0000_0000 then n
    else
      var k := Log2Excess(a);
      var r := RoundHalfEven(a, Pow2(k)) * Pow2(k);
      if n < 0 then -r else r
  }

  /** How many low bits of a 64-bit magnitude a 53-bit significand cannot hold. */
  function Log2Excess(a: nat): nat
    requires a >= 0x20_0000_0000_0000
  {
    Pow2Values();
    Log2AtLeast(a, 53);
    Log2(a) - 52
  }

  /** `f as f32`. */
  function Narrow(f: F64): F32 {
    var sign := if Sign64(f) == 1 then 0x8000_0000 else 0;
    var e, m := Exp64(f), Man64(f);
    if e == 2047 then
      if m == 0 then sign + 255 * 0x80_0000 else sign + 255 * 0x80_0000 + 0x80_0000 / 2
    else if e >= 1151 then sign + 255 * 0x80_0000
    else if e >= 897 then
      var bits := (e - 896) * 0x80_0000 + (RoundHalfEven(0x10_0000_0000_0000 + m, 0x2000_0000) - 0x80_0000);
      sign + bits
    else if e >= 873 then
      var bits := RoundHalfEven(0x10_0000_0000_0000 + m, Pow2(926 - e));
      SubnormalFits(e, m);
      sign + bits
    else sign
  }

  /** `f as f64`. */
  function Widen(f: F32): F64 {
    var sign := if Sign32(f) == 1 then 0x8000_0000_0000_0000 else 0;
    var e, m := Exp32(f), Man32(f);
    if e == 255 then
      if m == 0 then sign + 2047 * 0x10_0000_0000_0000 else sign + 2047 * 0x10_0000_0000_0000 + 0x10_0000_0000_0000 / 2
    else if e > 0 then sign + (e + 896) * 0x10_0000_0000_0000 + m * 0x2000_0000
    else if m == 0 then sign
    else
      Pow2Values();
      Log2Small(m, 23);
      Log2Bounds(m);
      ScaleUp(m, Log2(m));
      sign + (Log2(m) + 874) * 0x10_0000_0000_0000 + (m * Pow2(52 - Log2(m)) - 0x10_0000_0000_0000)
  }

  // Arithmetic behind the definitions.

  lemma {:induction false} Pow2Values()
    ensures Pow2(11) == 2048 && Pow2(23) == 0x80_0000 && Pow2(24) == 0x100_0000 && Pow2(29) == 0x2000_0000
    ensures Pow2(31) == 0x8000_0000 && Pow2(52) == 0x10_0000_0000_0000 && Pow2(53) == 0x20_0000_0000_0000
      && Pow2(63) == 0x8000_0000_0000_0000 && Pow2(64) == 0x1_0000_0000_0000_0000
  {
    assert Pow2(8) == 256;
    assert Pow2(16) == 0x1_0000;
    assert Pow2(24) == 0x100_0000;
    assert Pow2(32) == 0x1_0000_0000;
    assert Pow2(40) == 0x100_0000_0000;
    assert Pow2(48) == 0x1_0000_0000_0000;
    assert Pow2(56) == 0x100_0000_0000_0000;
  }

  lemma {:induction false} Pow2Add(a: nat, b: nat)
    ensures Pow2(a + b) == Pow2(a) * Pow2(b)
  {
    if a > 0 {
      Pow2Add(a - 1, b);
    }
  }

  lemma {:induction false} Pow2Monotone(a: nat, b: nat)
    requires a <= b
    ensures Pow2(a) <= Pow2(b)
  {
    if a < b { Pow2Monotone(a, b - 1); }
  }

  lemma {:induction false} Log2Bounds(n: nat)
    requires n > 0
    ensures Pow2(Log2(n)) <= n < Pow2(Log2(n) + 1)
  {
    if n > 1 { Log2Bounds(n / 2); }
  }

  lemma {:induction false} Log2Small(n: nat, k: nat)
    requires 0 < n < Pow2(k)
    ensures Log2(n) < k
  {
    if n > 1 { Log2Small(n / 2, k - 1); }
  }

  lemma {:induction false} Log2AtLeast(n: nat, k: nat)
    requires n >= Pow2(k)
    ensures Log2(n) >= k
  {
    Log2Bounds(n);
    if Log2(n) < k { Pow2Monotone(Log2(n) + 1, k); }
  }

  lemma {:induction false} ScaleUp(n: nat, e: nat)
    requires n > 0 && e == Log2(n) <= 52
    ensures 0x10_0000_0000_0000 <= n * Pow2(52 - e) < 0x20_0000_0000_0000
  {
    Log2Bounds(n);
    Pow2Add(e, 52 - e);
    Pow2Add(e + 1, 52 - e);
    assert Pow2(52) == 0x10_0000_0000_0000 && Pow2(53) == 0x20_0000_0000_0000 by { Pow2Values(); }
    ScaleBetween(Pow2(e), n, Pow2(e + 1), Pow2(52 - e));
  }

  lemma {:induction false} ScaleBetween(lo: nat, n: nat, hi: nat, p: nat)
    requires lo <= n < hi && p > 0
    ensures lo * p <= n * p < hi * p
  {
  }

  lemma {:induction false} ScaleDown(n: nat, e: nat)
    requires n > 0 && e == Log2(n) > 52
    ensures 0x10_0000_0000_0000 <= RoundHalfEven(n, Pow2(e - 52)) <= 0x20_0000_0000_0000
  {
    Log2Bounds(n);
    Pow2Values();
    Pow2Add(e - 52, 52);
    Pow2Add(e - 52, 53);
    RoundBounds(n, Pow2(e - 52), 0x10_0000_0000_0000, 0x20_0000_0000_0000);
  }

  lemma {:induction false} MulMonotone(a: nat, b: nat, c: nat)
    requires a <= b
    ensures a * c <= b * c
  {
  }

  /** Rounding n / d stays between bounds that are themselves multiples of d. */
  lemma {:induction false} RoundBounds(n: nat, d: nat, lo: nat, hi: nat)
    requires d > 0 && d * lo <= n <= d * hi
    ensures lo <= RoundHalfEven(n, d) <= hi
  {
    var q, r := n / d, n % d;
    assert n == d * q + r;
    if q < lo {
      MulMonotone(q + 1, lo, d);
      assert false;
    }
    if q >= hi {
      MulMonotone(hi, q, d);
      assert r == 0;
      if q > hi {
        MulMonotone(hi + 1, q, d);
        assert false;
      }
    }
  }

  lemma {:induction false} SubnormalFits(e: nat, m: nat)
    requires 873 <= e < 897 && m < 0x10_0000_0000_0000
    ensures RoundHalfEven(0x10_0000_0000_0000 + m, Pow2(926 - e)) <= 0x80_0000
  {
    Pow2Values();
    Pow2Add(30, 896 - e);
    assert Pow2(30) == 2 * Pow2(29);
    var d := Pow2(926 - e);
    MulMonotone(1, Pow2(896 - e), 0x20_0000_0000_0000);
    assert d * 0x80_0000 >= 0x20_0000_0000_0000 by {
      assert d == 2 * 0x2000_0000 * Pow2(896 - e);
      assert d * 0x80_0000 == Pow2(896 - e) * 0x20_0000_0000_0000;
    }
    RoundBounds(0x10_0000_0000_0000 + m, d, 0, 0x80_0000);
  }

  // Main facts.

  lemma {:induction false} Parts(f: F64, s: nat, e: nat, m: nat)
    requires s < 2 && e < 2048 && m < 0x10_0000_0000_0000
    requires f == s * 0x8000_0000_0000_0000 + e * 0x10_0000_0000_0000 + m
    ensures Sign64(f) == s && Exp64(f) == e && Man64(f) == m
  {
  }

  lemma {:induction false} Parts32(f: F32)
    ensures Sign32(f) < 2 && f == Sign32(f) * 0x8000_0000 + Exp32(f) * 0x80_0000 + Man32(f)
  {
  }

  lemma {:induction false} NarrowWidenNormal(f: F32)
    requires 0 < Exp32(f) < 255
    ensures IsFinite(Widen(f)) && Narrow(Widen(f)) == f
  {
    Parts32(f);
    var m := Man32(f) * 0x2000_0000;
    Parts(Widen(f), Sign32(f), Exp32(f) + 896, m);
    assert RoundHalfEven(0x10_0000_0000_0000 + m, 0x2000_0000) == 0x80_0000 + Man32(f);
  }

  lemma {:induction false} NarrowWidenSubnormal(f: F32)
    requires Exp32(f) == 0 && Man32(f) > 0
    ensures IsFinite(Widen(f)) && Narrow(Widen(f)) == f
  {
    Parts32(f);
    var k := Log2(Man32(f));
    assert k < 23 by {
      Pow2Values();
      Log2Small(Man32(f), 23);
    }
    ScaleUp(Man32(f), k);
    Parts(Widen(f), Sign32(f), k + 874, Man32(f) * Pow2(52 - k) - 0x10_0000_0000_0000);
    RoundExact(Man32(f), Pow2(52 - k));
  }

  /** Narrowing undoes widening for every finite `f32`, subnormals and both zeros included. */
  lemma {:induction false} NarrowWiden(f: F32)
    requires IsFinite32(f)
    ensures IsFinite(Widen(f)) && Narrow(Widen(f)) == f
  {
    if Exp32(f) > 0 {
      NarrowWidenNormal(f);
    } else if Man32(f) > 0 {
      NarrowWidenSubnormal(f);
    } else {
      Parts32(f);
      Parts(Widen(f), Sign32(f), 0, 0);
    }
  }

  /** Widening reports the infinities and NaNs of an `f32` as such. */
  lemma {:induction false} WidenFinite(f: F32)
    ensures IsFinite(Widen(f)) <==> IsFinite32(f)
  {
    if IsFinite32(f) {
      NarrowWiden(f);
    } else {
      Parts32(f);
      Parts(Widen(f), Sign32(f), 2047, if Man32(f) == 0 then 0 else 0x8_0000_0000_0000);
    }
  }

  /** Half an ulp above `f32::MAX`: the least magnitude that narrows to infinity. */
  const F32_OVERFLOW: F64 := 0x47EF_FFFF_F000_0000

  function Magnitude(f: F64): nat {
    f % 0x8000_0000_0000_0000
  }

  lemma {:induction false} MagnitudeParts(f: F64)
    ensures Magnitude(f) == Exp64(f) * 0x10_0000_0000_0000 + Man64(f)
  {
  }

  lemma {:induction false} Exponent32(bits: nat, negative: bool)
    requires bits < 256 * 0x80_0000
    ensures IsFinite32((if negative then 0x8000_0000 else 0) + bits) <==> bits < 255 * 0x80_0000
  {
  }

  /** A significand rounds up to the next binade from half a unit below it. */
  lemma {:induction false} RoundsUp(m: nat)
    requires m < 0x10_0000_0000_0000
    ensures RoundHalfEven(0x10_0000_0000_0000 + m, 0x2000_0000) <= 0x100_0000
    ensures RoundHalfEven(0x10_0000_0000_0000 + m, 0x2000_0000) == 0x100_0000 <==> m >= 0xF_FFFF_F000_0000
  {
  }

  /** A double narrows to a finite float exactly below the overflow threshold. */
  lemma {:induction false} NarrowFinite(f: F64)
    ensures IsFinite32(Narrow(f)) <==> Magnitude(f) < F32_OVERFLOW
  {
    hide RoundHalfEven, IsFinite32, Exp64, Man64, Sign64, Magnitude;
    MagnitudeParts(f);
    var e, m := Exp64(f), Man64(f);
    var negative := Sign64(f) == 1;
    if e == 2047 {
      Exponent32(if m == 0 then 255 * 0x80_0000 else 255 * 0x80_0000 + 0x80_0000 / 2, negative);
    } else if e >= 1151 {
      Exponent32(255 * 0x80_0000, negative);
    } else if e >= 897 {
      RoundsUp(m);
      Exponent32((e - 896) * 0x80_0000 + (RoundHalfEven(0x10_0000_0000_0000 + m, 0x2000_0000) - 0x80_0000), negative);
    } else if e >= 873 {
      SubnormalFits(e, m);
      Exponent32(RoundHalfEven(0x10_0000_0000_0000 + m, Pow2(926 - e)), negative);
    } else {
      Exponent32(0, negative);
    }
  }

  lemma {:induction false} RoundExact(n: nat, d: nat)
    requires d > 0
    ensures (n * d) % d == 0 && (n * d) / d == n && RoundHalfEven(n * d, d) == n
  {
    DivMul(n * d, n, d);
  }

  lemma {:induction false} DivMul(x: nat, n: nat, d: nat)
    requires d > 0 && x == n * d
    ensures x / d == n && x % d == 0
  {
    var q, r := x / d, x % d;
    assert x == d * q + r;
    assert d * (n - q) == r;
    if n - q >= 1 {
      MulMonotone(1, n - q, d);
    } else if n - q <= -1 {
      MulMonotone(1, q - n, d);
    }
  }

  lemma {:induction false} OfIntParts(n: int)
    requires -0x1_0000_0000_0000_0000 < n < 0x1_0000_0000_0000_0000 && n != 0
    ensures var a: nat := if n < 0 then -n else n; var m := Significand(a);
            && (Sign64(OfInt(n)) == 1) == (n < 0)
            && Log2(a) < 64
            && (m < 0x20_0000_0000_0000 ==>
              Exp64(OfInt(n)) == Log2(a) + 1023 && Man64(OfInt(n)) == m - 0x10_0000_0000_0000)
            && (m == 0x20_0000_0000_0000 ==> Exp64(OfInt(n)) == Log2(a) + 1024 && Man64(OfInt(n)) == 0)
  {
    var a: nat := if n < 0 then -n else n;
    var s := if n < 0 then 1 else 0;
    var m := Significand(a);
    assert Log2(a) < 64 by {
      Pow2Values();
      Log2Small(a, 64);
    }
    if m < 0x20_0000_0000_0000 {
      Parts(OfInt(n), s, Log2(a) + 1023, m - 0x10_0000_0000_0000);
    } else {
      Parts(OfInt(n), s, Log2(a) + 1024, 0);
    }
  }

  lemma {:induction false} SignificandExact(a: nat)
    requires a > 0 && Log2(a) <= 52
    ensures Significand(a) == a * Pow2(52 - Log2(a)) < 0x20_0000_0000_0000
    ensures Significand(a) % Pow2(52 - Log2(a)) == 0 && Significand(a) / Pow2(52 - Log2(a)) == a
  {
    ScaleUp(a, Log2(a));
    RoundExact(a, Pow2(52 - Log2(a)));
  }

  lemma {:induction false} OfIntSmall(n: int)
    requires -0x1_0000_0000_0000_0000 < n < 0x1_0000_0000_0000_0000 && n != 0
    requires Log2(if n < 0 then -n else n) <= 52
    ensures Integral(OfInt(n)) == Some(n)
  {
    var a: nat := if n < 0 then -n else n;
    hide Significand, OfInt, Log2;
    OfIntParts(n);
    SignificandExact(a);
    if Log2(a) == 52 {
      assert Pow2(0) == 1;
      assert Significand(a) == a;
    } else {
      assert Exp64(OfInt(n)) < 1075;
    }
  }

  lemma {:induction false} OfIntLarge(n: int)
    requires -0x1_0000_0000_0000_0000 < n < 0x1_0000_0000_0000_0000 && n != 0
    requires Log2(if n < 0 then -n else n) > 52
    ensures var a: nat := if n < 0 then -n else n; var d := Pow2(Log2(a) - 52);
            Integral(OfInt(n)) == Some(Signed(n < 0, RoundHalfEven(a, d) * d))
  {
    var a: nat := if n < 0 then -n else n;
    OfIntParts(n);
    if Significand(a) == 0x20_0000_0000_0000 {
      assert Pow2(Log2(a) - 51) == 2 * Pow2(Log2(a) - 52);
    }
  }

  /**
   Casting an integer to `f64` and reading it back rounds it to a multiple of a power of two; below 2^53 it
   is exact.
   */
  lemma {:induction false} OfIntValue(n: int)
    requires -0x1_0000_0000_0000_0000 < n < 0x1_0000_0000_0000_0000
    ensures Integral(OfInt(n)) == Some(RoundToDouble(n))
  {
    hide Integral, OfInt, Log2, RoundHalfEven, Pow2;
    if n == 0 {
      ZeroValue();
    } else {
      var a: nat := if n < 0 then -n else n;
      Log2Threshold(a);
      if Log2(a) <= 52 {
        OfIntSmall(n);
      } else {
        OfIntLarge(n);
      }
    }
  }

  lemma {:induction false} ZeroValue()
    ensures Integral(OfInt(0)) == Some(0)
  {
    assert Exp64(0) == 0 && Man64(0) == 0;
  }

  lemma {:induction false} Log2Threshold(a: nat)
    requires a > 0
    ensures Log2(a) <= 52 <==> a < 0x20_0000_0000_0000
  {
    Log2Bounds(a);
    Pow2Values();
    if Log2(a) <= 52 {
      Pow2Monotone(Log2(a) + 1, 53);
    } else {
      Pow2Monotone(53, Log2(a));
    }
  }
}
