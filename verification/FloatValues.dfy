/**
 What the float conversions do to values.

 The magnitude of a finite float is a whole number of units of 2^-1074, the least `f64`. Widening keeps it;
 narrowing and casting an integer find the nearest float there is, and of two nearest ones the one with an
 even mantissa. Equality is equality of values.
 */
module FloatValues {
  import opened Wrappers
  import opened Floats

  /** The magnitude of a finite `f64`, in units of 2^-1074. */
  function Units64(f: F64): nat {
    if Exp64(f) == 0 then Man64(f) else (0x10_0000_0000_0000 + Man64(f)) * Pow2(Exp64(f) - 1)
  }

  /** The magnitude of a finite `f32`, in units of 2^-149. */
  function Steps32(g: F32): nat {
    if Exp32(g) == 0 then Man32(g) else (0x80_0000 + Man32(g)) * Pow2(Exp32(g) - 1)
  }

  /** The same in units of 2^-1074. */
  function Units32(g: F32): nat {
    Steps32(g) * Pow2(925)
  }

  function Dist(a: nat, b: nat): nat {
    if a < b then b - a else a - b
  }

  // Products.

  lemma {:induction false} Less(a: nat, b: nat, w: nat)
    requires w > 0
    ensures a < b <==> a * w < b * w
    ensures a == b <==> a * w == b * w
  {
  }

  lemma {:induction false} Times(a: nat, b: nat, c: nat)
    ensures a * (b * c) == (a * b) * c
  {
  }

  lemma {:induction false} Minus(a: nat, b: nat, w: nat)
    requires b <= a
    ensures a * w - b * w == (a - b) * w
  {
  }

  lemma {:induction false} DistScales(a: nat, b: nat, w: nat)
    ensures Dist(a * w, b * w) == Dist(a, b) * w
  {
    if a < b { Minus(b, a, w); } else { Minus(a, b, w); }
    if w > 0 { Less(a, b, w); }
  }

  // Rounding a quotient.

  /** No multiple of `d` is nearer to `n` than the rounded quotient's, and on a tie that quotient is even. */
  lemma {:induction false} RoundsToNearest(n: nat, d: nat, k: nat)
    requires d > 0
    ensures var q := RoundHalfEven(n, d);
            && Dist(n, q * d) <= Dist(n, k * d)
            && (Dist(n, q * d) == Dist(n, k * d) && k != q ==> q % 2 == 0)
  {
    var q0, r := n / d, n % d;
    assert n == q0 * d + r;
    assert (q0 + 1) * d == q0 * d + d;
    if k < q0 {
      MulMonotone(k + 1, q0, d);
      assert (k + 1) * d == k * d + d;
    } else if k > q0 + 1 {
      MulMonotone(q0 + 2, k, d);
      assert (q0 + 2) * d == q0 * d + 2 * d;
    }
  }

  /**
   Rounding within a binade: `x` lies at or above `lo` steps of size `d`, and every candidate is a whole
   number of these steps or lies below `lo` of them.
   */
  lemma {:induction false} NearestStep(x: nat, d: nat, lo: nat, w: nat, y: nat, k: nat)
    requires d > 0 && w > 0 && lo * d <= x && (y == k * d * w || y < lo * d * w)
    ensures var q := RoundHalfEven(x, d);
            && Dist(x * w, q * d * w) <= Dist(x * w, y)
            && (Dist(x * w, q * d * w) == Dist(x * w, y) && y != q * d * w ==> q % 2 == 0)
  {
    hide RoundHalfEven;
    var q := RoundHalfEven(x, d);
    DistScales(x, q * d, w);
    if y == k * d * w {
      RoundsToNearest(x, d, k);
      DistScales(x, k * d, w);
      Less(Dist(x, q * d), Dist(x, k * d), w);
    } else {
      RoundsToNearest(x, d, lo);
      DistScales(x, lo * d, w);
      Less(Dist(x, q * d), Dist(x, lo * d), w);
      if lo * d < x { Less(lo * d, x, w); }
    }
  }

  // Magnitudes.

  lemma {:induction false} Split(a: nat, b: nat)
    requires a <= b
    ensures Pow2(b) == Pow2(b - a) * Pow2(a)
  {
    Pow2Add(b - a, a);
  }

  /** Above an exponent the steps are multiples of its own; below it the magnitudes are below its binade. */
  lemma {:induction false} Steps32At(g: F32, e: nat) returns (k: nat)
    requires e >= 1
    ensures Steps32(g) == k * Pow2(e - 1) || Steps32(g) < 0x80_0000 * Pow2(e - 1)
  {
    k := 0;
    if Exp32(g) >= e {
      Split(e - 1, Exp32(g) - 1);
      k := (0x80_0000 + Man32(g)) * Pow2(Exp32(g) - e);
      Times(0x80_0000 + Man32(g), Pow2(Exp32(g) - e), Pow2(e - 1));
    } else if Exp32(g) == 0 {
      MulMonotone(1, Pow2(e - 1), 0x80_0000);
    } else {
      Pow2Monotone(Exp32(g), e - 1);
      MulMonotone(Pow2(Exp32(g)), Pow2(e - 1), 0x80_0000);
      Less(0x80_0000 + Man32(g), 0x100_0000, Pow2(Exp32(g) - 1));
    }
  }

  lemma {:induction false} Units64At(f: F64, e: nat) returns (k: nat)
    requires e >= 1
    ensures Units64(f) == k * Pow2(e - 1) || Units64(f) < 0x10_0000_0000_0000 * Pow2(e - 1)
  {
    k := 0;
    if Exp64(f) >= e {
      Split(e - 1, Exp64(f) - 1);
      k := (0x10_0000_0000_0000 + Man64(f)) * Pow2(Exp64(f) - e);
      Times(0x10_0000_0000_0000 + Man64(f), Pow2(Exp64(f) - e), Pow2(e - 1));
    } else if Exp64(f) == 0 {
      MulMonotone(1, Pow2(e - 1), 0x10_0000_0000_0000);
    } else {
      Pow2Monotone(Exp64(f), e - 1);
      MulMonotone(Pow2(Exp64(f)), Pow2(e - 1), 0x10_0000_0000_0000);
      Less(0x10_0000_0000_0000 + Man64(f), 0x20_0000_0000_0000, Pow2(Exp64(f) - 1));
    }
  }

  // Narrowing.

  /** `g` is at least as far from `f` as `r` is, and on a tie `r` has an even mantissa. */
  predicate Nearest32(f: F64, r: F32, g: F32) {
    && Dist(Units64(f), Units32(r)) <= Dist(Units64(f), Units32(g))
    && (Dist(Units64(f), Units32(r)) == Dist(Units64(f), Units32(g)) && Units32(r) != Units32(g) ==> Man32(r) % 2 == 0)
  }

  /** `f as f32` is the nearest finite `f32`, of the same sign; on a tie it is the one with an even mantissa. */
  lemma {:induction false} NarrowIsNearest(f: F64, g: F32)
    requires Magnitude(f) < F32_OVERFLOW
    ensures Nearest32(f, Narrow(f), g) && Sign32(Narrow(f)) == Sign64(f)
  {
    hide Narrow, Nearest32, Exp64, RoundHalfEven, Sign64, Sign32, Magnitude;
    NarrowSign(f);
    BelowOverflow(f);
    if Exp64(f) >= 897 {
      NormalNearest(f, g);
    } else if Exp64(f) >= 873 {
      SubnormalNearest(f, g);
    } else {
      TinyNearest(f, g);
    }
  }

  lemma {:induction false} BelowOverflow(f: F64)
    requires Magnitude(f) < F32_OVERFLOW
    ensures Exp64(f) < 1151
  {
    MagnitudeParts(f);
  }

  lemma {:induction false} NarrowSign(f: F64)
    requires Magnitude(f) < F32_OVERFLOW
    ensures Sign32(Narrow(f)) == Sign64(f)
  {
    hide RoundHalfEven, Exp64, Man64, Magnitude, Pow2;
    NarrowFinite(f);
    BelowOverflow(f);
    var e, m := Exp64(f), Man64(f);
    if e >= 897 {
      RoundsUp(m);
    } else if e >= 873 {
      SubnormalFits(e, m);
    }
  }

  lemma {:induction false} Bits32(r: F32, s: nat, e: nat, m: nat)
    requires s < 2 && e < 256 && m < 0x80_0000 && r == s * 0x8000_0000 + e * 0x80_0000 + m
    ensures Exp32(r) == e && Man32(r) == m
  {
  }

  /** A normal result is a rounded significand of as many steps. */
  lemma {:induction false} NormalParts(f: F64)
    requires 897 <= Exp64(f) < 1151
    ensures var q := RoundHalfEven(0x10_0000_0000_0000 + Man64(f), 0x2000_0000);
            && Steps32(Narrow(f)) == q * Pow2(Exp64(f) - 897) && (q % 2 == 0 ==> Man32(Narrow(f)) % 2 == 0)
  {
    hide RoundHalfEven, Exp64, Man64, Pow2, Exp32, Man32, Steps32;
    var e, m := Exp64(f), Man64(f);
    var q := RoundHalfEven(0x10_0000_0000_0000 + m, 0x2000_0000);
    RoundsUp(m);
    RoundBounds(0x10_0000_0000_0000 + m, 0x2000_0000, 0x80_0000, 0x100_0000);
    var s := if Sign64(f) == 1 then 1 else 0;
    if q < 0x100_0000 {
      Bits32(Narrow(f), s, e - 896, q - 0x80_0000);
    } else {
      Bits32(Narrow(f), s, e - 895, 0);
    }
    RoundedSteps(Narrow(f), e - 896, q);
  }

  lemma {:induction false} RoundedSteps(r: F32, e: nat, q: nat)
    requires e >= 1 && 0x80_0000 <= q <= 0x100_0000
    requires q < 0x100_0000 ==> Exp32(r) == e && Man32(r) == q - 0x80_0000
    requires q == 0x100_0000 ==> Exp32(r) == e + 1 && Man32(r) == 0
    ensures Steps32(r) == q * Pow2(e - 1) && (q % 2 == 0 ==> Man32(r) % 2 == 0)
  {
    hide Pow2, Exp32, Man32;
    Pow2Add(1, e - 1);
    DoubleStep();
    if q == 0x100_0000 { Times(0x80_0000, 2, Pow2(e - 1)); }
  }

  lemma {:induction false} NormalNearest(f: F64, g: F32)
    requires 897 <= Exp64(f) < 1151
    ensures Nearest32(f, Narrow(f), g)
  {
    hide RoundHalfEven, Narrow, Exp64, Man64, Pow2, Steps32, Man32;
    var e, x := Exp64(f), 0x10_0000_0000_0000 + Man64(f);
    var q := RoundHalfEven(x, 0x2000_0000);
    NormalParts(f);
    var k := Steps32At(g, e - 896);
    Pow2Add(e - 897, 925);
    Pow2Add(29, e - 1);
    Pow2Values();
    StepsToUnits(q, e);
    StepsToUnits(k, e);
    StepsToUnits(0x80_0000, e);
    Less(Steps32(g), 0x80_0000 * Pow2(e - 897), Pow2(925));
    NearestStep(x, 0x2000_0000, 0x80_0000, Pow2(e - 1), Units32(g), k);
  }

  lemma {:induction false} StepsToUnits(k: nat, e: nat)
    requires e >= 897 && Pow2(e - 897) * Pow2(925) == Pow2(e + 28) == 0x2000_0000 * Pow2(e - 1)
    ensures k * Pow2(e - 897) * Pow2(925) == k * 0x2000_0000 * Pow2(e - 1)
  {
    hide Pow2;
    Times(k, Pow2(e - 897), Pow2(925));
    Times(k, 0x2000_0000, Pow2(e - 1));
  }

  lemma {:induction false} SubnormalParts(f: F64)
    requires 873 <= Exp64(f) < 897
    ensures var q := RoundHalfEven(0x10_0000_0000_0000 + Man64(f), Pow2(926 - Exp64(f)));
            Steps32(Narrow(f)) == q && (q % 2 == 0 ==> Man32(Narrow(f)) % 2 == 0)
  {
    hide RoundHalfEven, Exp64, Man64, Pow2;
    var e, m := Exp64(f), Man64(f);
    SubnormalFits(e, m);
    var q := RoundHalfEven(0x10_0000_0000_0000 + m, Pow2(926 - e));
    var s := if Sign64(f) == 1 then 1 else 0;
    if q < 0x80_0000 {
      Bits32(Narrow(f), s, 0, q);
    } else {
      Bits32(Narrow(f), s, 1, 0);
      OneStep();
    }
  }

  lemma {:induction false} OneStep()
    ensures Pow2(0) == 1
  {
  }

  lemma {:induction false} SubnormalNearest(f: F64, g: F32)
    requires 873 <= Exp64(f) < 897
    ensures Nearest32(f, Narrow(f), g)
  {
    hide RoundHalfEven, Narrow, Exp64, Man64, Pow2, Steps32, Man32;
    var e, x := Exp64(f), 0x10_0000_0000_0000 + Man64(f);
    var d := Pow2(926 - e);
    SubnormalParts(f);
    Pow2Add(926 - e, e - 1);
    Times(RoundHalfEven(x, d), d, Pow2(e - 1));
    Times(Steps32(g), d, Pow2(e - 1));
    NearestStep(x, d, 0, Pow2(e - 1), Units32(g), Steps32(g));
  }

  lemma {:induction false} TinyParts(f: F64)
    requires Exp64(f) < 873
    ensures Steps32(Narrow(f)) == 0 && Man32(Narrow(f)) == 0
  {
    hide Exp64, Man64, Pow2, RoundHalfEven;
    Bits32(Narrow(f), if Sign64(f) == 1 then 1 else 0, 0, 0);
  }

  /** Less than half the least `f32`. */
  lemma {:induction false} TinyUnits(f: F64)
    requires Exp64(f) < 873
    ensures 2 * Units64(f) < Pow2(925)
  {
    hide Exp64, Pow2;
    Pow2Values();
    Pow2Add(53, 871);
    Pow2Add(1, 924);
    OneStep();
    assert Pow2(1) == 2 by { DoubleStep(); }
    if Exp64(f) == 0 {
      Pow2Monotone(53, 924);
    } else {
      Pow2Monotone(Exp64(f) - 1, 871);
      Less(0x10_0000_0000_0000 + Man64(f), 0x20_0000_0000_0000, Pow2(Exp64(f) - 1));
      MulMonotone(Pow2(Exp64(f) - 1), Pow2(871), 0x20_0000_0000_0000);
    }
  }

  lemma {:induction false} DoubleStep()
    ensures Pow2(1) == 2
  {
    assert Pow2(0) == 1;
  }

  lemma {:induction false} TinyNearest(f: F64, g: F32)
    requires Exp64(f) < 873
    ensures Nearest32(f, Narrow(f), g)
  {
    hide Narrow, Exp64, Pow2, Steps32, Man32, Units64;
    TinyParts(f);
    TinyUnits(f);
    if Steps32(g) > 0 { MulMonotone(1, Steps32(g), Pow2(925)); }
  }

  // Widening.

  /** `f as f64` of a finite `f32` is the same number. */
  lemma {:induction false} WidenIsExact(g: F32)
    requires Exp32(g) < 255
    ensures Units64(Widen(g)) == Units32(g) && Sign64(Widen(g)) == Sign32(g)
  {
    hide Exp64, Man64, Sign64;
    Parts32(g);
    if Exp32(g) > 0 {
      WidenNormal(g);
    } else if Man32(g) > 0 {
      WidenSubnormal(g);
    } else {
      Parts(Widen(g), Sign32(g), 0, 0);
    }
  }

  lemma {:induction false} WidenNormal(g: F32)
    requires 0 < Exp32(g) < 255
    ensures Units64(Widen(g)) == Units32(g) && Sign64(Widen(g)) == Sign32(g)
  {
    hide Exp64, Man64, Sign64, Pow2, Exp32, Man32, Sign32;
    var e, m := Exp32(g), Man32(g);
    Parts32(g);
    Parts(Widen(g), Sign32(g), e + 896, m * 0x2000_0000);
    Pow2Add(29, e + 895);
    Pow2Add(e - 1, 925);
    Pow2Values();
    Times(0x80_0000 + m, 0x2000_0000, Pow2(e + 895));
    Times(0x80_0000 + m, Pow2(e - 1), Pow2(925));
    assert (0x80_0000 + m) * 0x2000_0000 == 0x10_0000_0000_0000 + m * 0x2000_0000;
  }

  lemma {:induction false} WidenSubnormal(g: F32)
    requires Exp32(g) == 0 && Man32(g) > 0
    ensures Units64(Widen(g)) == Units32(g) && Sign64(Widen(g)) == Sign32(g)
  {
    hide Exp64, Man64, Sign64, Pow2, Log2;
    Parts32(g);
    var m := Man32(g);
    var k := Log2(m);
    assert k < 23 by {
      Pow2Values();
      Log2Small(m, 23);
    }
    ScaleUp(m, k);
    Parts(Widen(g), Sign32(g), k + 874, m * Pow2(52 - k) - 0x10_0000_0000_0000);
    Pow2Add(52 - k, k + 873);
    Times(m, Pow2(52 - k), Pow2(k + 873));
  }

  // Integers.

  /** `n as f64` is the nearest double; on a tie it is the one with an even mantissa. */
  lemma {:induction false} CastIsNearest(n: int, g: F64)
    requires -0x1_0000_0000_0000_0000 < n < 0x1_0000_0000_0000_0000
    ensures var (r, x) := (OfInt(n), (if n < 0 then -n else n) * Pow2(1074));
            && (n != 0 ==> (Sign64(r) == 1 <==> n < 0))
            && Dist(x, Units64(r)) <= Dist(x, Units64(g))
            && (Dist(x, Units64(r)) == Dist(x, Units64(g)) && Units64(r) != Units64(g) ==> Man64(r) % 2 == 0)
  {
    hide OfInt, Pow2, Units64, Sign64, Man64, Log2;
    if n == 0 {
      ZeroUnits();
    } else {
      var a: nat := if n < 0 then -n else n;
      OfIntParts(n);
      if Log2(a) <= 52 { SmallCast(n, a); } else { LargeCast(n, a, g); }
    }
  }

  lemma {:induction false} ZeroUnits()
    ensures Units64(OfInt(0)) == 0
  {
    hide Pow2, Significand, Log2;
    assert OfInt(0) == 0 && Exp64(0) == 0 && Man64(0) == 0;
  }

  lemma {:induction false} SmallCast(n: int, a: nat)
    requires -0x1_0000_0000_0000_0000 < n < 0x1_0000_0000_0000_0000 && n != 0 && a == if n < 0 then -n else n
    requires Log2(a) <= 52
    ensures Units64(OfInt(n)) == a * Pow2(1074)
  {
    hide OfInt, Pow2, Log2, Exp64, Man64, Significand;
    OfIntParts(n);
    SignificandExact(a);
    Pow2Add(52 - Log2(a), Log2(a) + 1022);
    Times(a, Pow2(52 - Log2(a)), Pow2(Log2(a) + 1022));
  }

  lemma {:induction false} LargeCast(n: int, a: nat, g: F64)
    requires -0x1_0000_0000_0000_0000 < n < 0x1_0000_0000_0000_0000 && n != 0 && a == if n < 0 then -n else n
    requires Log2(a) > 52
    ensures var (r, x) := (OfInt(n), a * Pow2(1074));
            && Dist(x, Units64(r)) <= Dist(x, Units64(g))
            && (Dist(x, Units64(r)) == Dist(x, Units64(g)) && Units64(r) != Units64(g) ==> Man64(r) % 2 == 0)
  {
    hide OfInt, Pow2, Log2, Exp64, Man64, Units64, RoundHalfEven;
    var e := Log2(a);
    var d := Pow2(e - 52);
    var q := RoundHalfEven(a, d);
    LargeUnits(n, a);
    LowBinade(a);
    var k := Units64At(g, e + 1023);
    Pow2Add(e - 52, 1074);
    Times(k, d, Pow2(1074));
    Times(0x10_0000_0000_0000, d, Pow2(1074));
    NearestStep(a, d, 0x10_0000_0000_0000, Pow2(1074), Units64(g), k);
  }

  lemma {:induction false} LowBinade(a: nat)
    requires a > 0 && Log2(a) > 52
    ensures 0x10_0000_0000_0000 * Pow2(Log2(a) - 52) <= a
  {
    Log2Bounds(a);
    Pow2Add(52, Log2(a) - 52);
    Pow2Values();
  }

  lemma {:induction false} LargeUnits(n: int, a: nat)
    requires -0x1_0000_0000_0000_0000 < n < 0x1_0000_0000_0000_0000 && n != 0 && a == if n < 0 then -n else n
    requires Log2(a) > 52
    ensures var (d, r) := (Pow2(Log2(a) - 52), OfInt(n));
            && Units64(r) == RoundHalfEven(a, d) * d * Pow2(1074)
            && (RoundHalfEven(a, d) % 2 == 0 ==> Man64(r) % 2 == 0)
  {
    hide OfInt, Pow2, Log2, Exp64, Man64, RoundHalfEven, Units64;
    var e := Log2(a);
    OfIntParts(n);
    RoundedUnits(OfInt(n), e, Significand(a));
    Pow2Add(e - 52, 1074);
    Times(RoundHalfEven(a, Pow2(e - 52)), Pow2(e - 52), Pow2(1074));
  }

  /** A significand that rounded up to 2^53 is the next binade's first. */
  lemma {:induction false} RoundedUnits(r: F64, e: nat, q: nat)
    requires 0x10_0000_0000_0000 <= q <= 0x20_0000_0000_0000
    requires q < 0x20_0000_0000_0000 ==> Exp64(r) == e + 1023 && Man64(r) == q - 0x10_0000_0000_0000
    requires q == 0x20_0000_0000_0000 ==> Exp64(r) == e + 1024 && Man64(r) == 0
    ensures Units64(r) == q * Pow2(e + 1022) && (q % 2 == 0 ==> Man64(r) % 2 == 0)
  {
    hide Pow2, Exp64, Man64;
    Pow2Add(1, e + 1022);
    DoubleStep();
    if q == 0x20_0000_0000_0000 { Times(0x10_0000_0000_0000, 2, Pow2(e + 1022)); }
  }

  // Equality.

  lemma {:induction false} UnitsAscend(a: F64, b: F64)
    requires Magnitude(a) < Magnitude(b)
    ensures Units64(a) < Units64(b)
  {
    hide Pow2, Exp64, Man64;
    MagnitudeParts(a);
    MagnitudeParts(b);
    var e := Exp64(b);
    if Exp64(a) == e {
      if e > 0 { Less(0x10_0000_0000_0000 + Man64(a), 0x10_0000_0000_0000 + Man64(b), Pow2(e - 1)); }
    } else {
      MulMonotone(0x10_0000_0000_0000, 0x10_0000_0000_0000 + Man64(b), Pow2(e - 1));
      UnitsBelow(a, e);
    }
  }

  lemma {:induction false} UnitsBelow(a: F64, e: nat)
    requires Exp64(a) < e
    ensures Units64(a) < 0x10_0000_0000_0000 * Pow2(e - 1)
  {
    hide Exp64;
    if Exp64(a) == 0 {
      MulMonotone(1, Pow2(e - 1), 0x10_0000_0000_0000);
    } else {
      Pow2Monotone(Exp64(a), e - 1);
      MulMonotone(Pow2(Exp64(a)), Pow2(e - 1), 0x10_0000_0000_0000);
      Less(0x10_0000_0000_0000 + Man64(a), 0x20_0000_0000_0000, Pow2(Exp64(a) - 1));
    }
  }

  /** Finite doubles are `==` exactly if they are the same number. */
  lemma {:induction false} EqualIsSameValue(a: F64, b: F64)
    requires Exp64(a) < 2047 && Exp64(b) < 2047
    ensures Eq64(a, b) <==> Units64(a) == Units64(b) && (Sign64(a) == Sign64(b) || Units64(a) == 0)
  {
    hide Units64, Exp64;
    ZeroMagnitude(a);
    ZeroMagnitude(b);
    if Magnitude(a) < Magnitude(b) {
      UnitsAscend(a, b);
    } else if Magnitude(b) < Magnitude(a) {
      UnitsAscend(b, a);
    } else {
      SameMagnitude(a, b);
    }
  }

  lemma {:induction false} ZeroMagnitude(a: F64)
    ensures Units64(a) == 0 <==> Magnitude(a) == 0
  {
    hide Pow2;
    MagnitudeParts(a);
    if Exp64(a) > 0 { MulMonotone(1, Pow2(Exp64(a) - 1), 0x10_0000_0000_0000 + Man64(a)); }
  }

  lemma {:induction false} SameMagnitude(a: F64, b: F64)
    requires Magnitude(a) == Magnitude(b)
    ensures Units64(a) == Units64(b) && (a == b <==> Sign64(a) == Sign64(b))
  {
    hide Pow2;
    MagnitudeParts(a);
    MagnitudeParts(b);
  }

  /** So are finite `f32`s. */
  lemma {:induction false} EqualSingles(a: F32, b: F32)
    requires Exp32(a) < 255 && Exp32(b) < 255
    ensures Eq32(a, b) <==> Units32(a) == Units32(b) && (Sign32(a) == Sign32(b) || Units32(a) == 0)
  {
    hide Widen, Units64, Units32, Narrow, Exp64;
    WidenIsExact(a);
    WidenIsExact(b);
    NarrowWiden(a);
    NarrowWiden(b);
    FiniteParts(Widen(a));
    FiniteParts(Widen(b));
    EqualIsSameValue(Widen(a), Widen(b));
    ZeroUnits32(a);
    ZeroUnits32(b);
    ZeroMagnitude(Widen(a));
    ZeroMagnitude(Widen(b));
  }

  lemma {:induction false} FiniteParts(f: F64)
    ensures IsFinite(f) ==> Exp64(f) < 2047
  {
  }

  lemma {:induction false} ZeroUnits32(a: F32)
    ensures Units32(a) == 0 <==> a % 0x8000_0000 == 0
  {
    hide Pow2;
    if Exp32(a) > 0 { MulMonotone(1, Pow2(Exp32(a) - 1), 0x80_0000 + Man32(a)); }
    if Steps32(a) > 0 { MulMonotone(1, Steps32(a), Pow2(925)); }
  }

  // Integral values.

  /** A double counts as an integer exactly if it is one. */
  lemma {:induction false} IntegralIsExact(f: F64, x: int)
    requires Exp64(f) < 2047
    ensures Integral(f) == Some(x) <==>
            (if x < 0 then -x else x) * Pow2(1074) == Units64(f) && (x != 0 ==> (x < 0 <==> Sign64(f) == 1))
  {
    hide Integral, Units64, Pow2, Sign64, Exp64;
    var a: nat := if x < 0 then -x else x;
    var e := if Exp64(f) == 0 then 1 else Exp64(f);
    var m := if Exp64(f) == 0 then Man64(f) else 0x10_0000_0000_0000 + Man64(f);
    UnitsOf(f, e, m);
    if e >= 1075 {
      Pow2Add(e - 1075, 1074);
      Scaled(a, m, Pow2(e - 1075), Pow2(1074), Pow2(e - 1));
      IntegralAbove(f, e, m);
    } else {
      Pow2Add(1075 - e, e - 1);
      Scaled(m, a, Pow2(1075 - e), Pow2(e - 1), Pow2(1074));
      IntegralBelow(f, e, m);
      Divides(m, Pow2(1075 - e), a);
    }
  }

  lemma {:induction false} Scaled(a: nat, m: nat, p: nat, q: nat, r: nat)
    requires q > 0 && r == p * q
    ensures a == m * p <==> a * q == m * r
  {
    Times(m, p, q);
    Less(a, m * p, q);
  }

  lemma {:induction false} UnitsOf(f: F64, e: nat, m: nat)
    requires e == (if Exp64(f) == 0 then 1 else Exp64(f))
      && m == (if Exp64(f) == 0 then Man64(f) else 0x10_0000_0000_0000 + Man64(f))
    ensures Units64(f) == m * Pow2(e - 1)
  {
    hide Exp64, Man64;
    if Exp64(f) == 0 { OneStep(); }
  }

  lemma {:induction false} IntegralAbove(f: F64, e: nat, m: nat)
    requires e == (if Exp64(f) == 0 then 1 else Exp64(f)) < 2047 && e >= 1075
      && m == (if Exp64(f) == 0 then Man64(f) else 0x10_0000_0000_0000 + Man64(f))
    ensures Integral(f) == Some(if Sign64(f) == 1 then -(m * Pow2(e - 1075)) else m * Pow2(e - 1075))
  {
    hide Exp64, Man64, Sign64, Pow2;
  }

  lemma {:induction false} IntegralBelow(f: F64, e: nat, m: nat)
    requires e == (if Exp64(f) == 0 then 1 else Exp64(f)) && e < 1075
      && m == (if Exp64(f) == 0 then Man64(f) else 0x10_0000_0000_0000 + Man64(f))
    ensures var (d, negative) := (Pow2(1075 - e), Sign64(f) == 1);
            Integral(f) == if m % d != 0 then None else Some(if negative then -(m / d) else m / d)
  {
    hide Exp64, Man64, Sign64, Pow2;
  }

  lemma {:induction false} Divides(m: nat, d: nat, a: nat)
    requires d > 0
    ensures a * d == m <==> m % d == 0 && m / d == a
  {
    if a * d == m { DivMul(m, a, d); }
    if m % d == 0 { assert m == d * (m / d) + m % d; }
  }
}
