/** Binary floating-point numbers as bit patterns, and what the patterns mean (section 3.4 of IEEE 754). */
module Ieee754 {
  import opened Words

  /** k * 2^e */
  function Scaled(k: nat, e: int): real {
    if e >= 0 then (k * Pow2(e)) as real else k as real / Pow2(-e) as real
  }

  /** The value of a finite pattern without its sign bit; `scale` is bias plus fraction width. */
  function Magnitude(m: nat, fractionBits: nat, scale: nat): real {
    var e, f := m / Pow2(fractionBits), m % Pow2(fractionBits);
    if e == 0 then Scaled(f, 1 - scale) else Scaled(Pow2(fractionBits) + f, e - scale)
  }

  function Value32(b: uint32): real {
    if b >= 0x8000_0000 then 0.0 - Magnitude(b - 0x8000_0000, 23, 150) else Magnitude(b, 23, 150)
  }

  function Value64(b: uint64): real {
    if b >= TWO_63 then 0.0 - Magnitude(b - TWO_63, 52, 1075) else Magnitude(b, 52, 1075)
  }

  predicate Finite32(b: uint32) {
    b / 0x80_0000 % 0x100 != 0xFF
  }

  predicate Finite64(b: uint64) {
    b / 0x10_0000_0000_0000 % 0x800 != 0x7FF
  }

  /** A pattern is finite if without its sign bit it is below that of infinity. */
  lemma FinitePattern32(b: uint32)
    ensures Finite32(b) <==> b % 0x8000_0000 < 0x7F80_0000
  {
  }

  lemma FinitePattern64(b: uint64)
    ensures Finite64(b) <==> b % TWO_63 < 0x7FF0_0000_0000_0000
  {
  }

  lemma ScaledSign(k: nat, e: int)
    ensures Scaled(k, e) >= 0.0 && (Scaled(k, e) == 0.0 <==> k == 0)
  {
    if e >= 0 {
      if k > 0 {
        assert k * Pow2(e) > 0;
      }
    } else {
      var d := Pow2(-e) as real;
      assert d > 0.0;
      if k > 0 {
        assert k as real / d > 0.0;
      }
    }
  }

  lemma MagnitudeSign(m: nat, fractionBits: nat, scale: nat)
    ensures Magnitude(m, fractionBits, scale) >= 0.0
    ensures Magnitude(m, fractionBits, scale) == 0.0 <==> m == 0
  {
    hide Scaled;
    var p := Pow2(fractionBits);
    var e, f := m / p, m % p;
    assert m == p * e + f;
    if e == 0 {
      ScaledSign(f, 1 - scale);
    } else {
      MultipleSize(p, e);
      ScaledSign(p + f, e - scale);
    }
  }

  /** A value compares below zero exactly when the sign bit is set and something else is:
      negative zero is not below zero. */
  lemma NegativePattern(b: uint32)
    ensures Value32(b) < 0.0 <==> b > 0x8000_0000
  {
    if b >= 0x8000_0000 {
      MagnitudeSign(b - 0x8000_0000, 23, 150);
    } else {
      MagnitudeSign(b, 23, 150);
    }
  }

  /* ----- the order of the patterns is the order of the magnitudes ----- */

  /** A magnitude in units of the smallest one. */
  function Units(m: nat, fractionBits: nat): int {
    var e, f := m / Pow2(fractionBits), m % Pow2(fractionBits);
    if e <= 0 then f else (Pow2(fractionBits) + f) * Pow2(e - 1)
  }

  lemma ScaledUnits(k: nat, e: nat, scale: nat)
    requires e >= 1 && scale >= 1
    ensures Scaled(k, e - scale) * Pow2(scale - 1) as real == (k * Pow2(e - 1)) as real
  {
    hide *;
    var x, v, r := Scaled(k, e - scale), k as real, Pow2(scale - 1) as real;
    ProductAsReal(k, Pow2(e - 1));
    if e >= scale {
      PowersAsReal(e - scale, scale - 1, e - 1);
      ScaledUp(k, e - scale);
      Reassociate(v, Pow2(e - scale) as real, r);
    } else {
      PowersAsReal(scale - e, e - 1, scale - 1);
      ScaledDown(k, e - scale);
      assert -(e - scale) == scale - e;
      CancelFactor(x, v, Pow2(scale - e) as real, Pow2(e - 1) as real);
    }
  }

  lemma ScaledUp(k: nat, e: nat)
    ensures Scaled(k, e) == k as real * Pow2(e) as real
  {
    hide Pow2;
    ProductAsReal(k, Pow2(e));
  }

  lemma ScaledDown(k: nat, e: int)
    requires e < 0
    ensures Scaled(k, e) * Pow2(-e) as real == k as real
  {
    hide Pow2;
  }

  lemma ProductAsReal(a: nat, b: nat)
    ensures (a * b) as real == a as real * b as real
  {
  }

  lemma PowersAsReal(a: nat, b: nat, c: nat)
    requires c == a + b
    ensures Pow2(c) as real == Pow2(a) as real * Pow2(b) as real
  {
    hide *;
    Pow2Add(a, b);
    ProductAsReal(Pow2(a), Pow2(b));
  }

  lemma Reassociate(x: real, y: real, z: real)
    ensures x * y * z == x * (y * z)
  {
  }

  lemma CancelFactor(x: real, v: real, p: real, q: real)
    requires x * p == v
    ensures x * (p * q) == v * q
  {
    Reassociate(x, p, q);
  }

  lemma SmallestUnit(f: nat)
    ensures f * Pow2(1 - 1) == f
  {
  }

  lemma MagnitudeUnits(m: nat, fractionBits: nat, scale: nat)
    requires scale >= 1
    ensures Magnitude(m, fractionBits, scale) * Pow2(scale - 1) as real == Units(m, fractionBits) as real
  {
    hide Scaled, Pow2;
    var p := Pow2(fractionBits);
    var e, f := m / p, m % p;
    if e == 0 {
      assert Magnitude(m, fractionBits, scale) == Scaled(f, 1 - scale) && Units(m, fractionBits) == f;
      ScaledUnits(f, 1, scale);
      SmallestUnit(f);
    } else {
      assert Magnitude(m, fractionBits, scale) == Scaled(p + f, e - scale);
      assert Units(m, fractionBits) == (p + f) * Pow2(e - 1);
      hide Magnitude, Units;
      ScaledUnits(p + f, e, scale);
    }
  }

  lemma UnitsAre(m: nat, fractionBits: nat, e: nat, f: nat)
    requires m == Pow2(fractionBits) * e + f && f < Pow2(fractionBits)
    ensures Units(m, fractionBits) == if e == 0 then f else (Pow2(fractionBits) + f) * Pow2(e - 1)
  {
    hide Pow2;
    DivModUnique(m, Pow2(fractionBits), e, f);
  }

  lemma UnitsStep(m: nat, fractionBits: nat)
    ensures Units(m, fractionBits) < Units(m + 1, fractionBits)
  {
    hide *;
    var p := Pow2(fractionBits);
    var e: nat, f: nat := m / p, m % p;
    Division(m, p);
    if f + 1 < p {
      UnitsInside(m, fractionBits, e, f);
    } else {
      UnitsCarry(m, fractionBits, e, f);
    }
  }

  lemma Division(m: nat, p: nat)
    requires p > 0
    ensures m == p * (m / p) + m % p && m / p >= 0
  {
  }

  lemma UnitsInside(m: nat, fractionBits: nat, e: nat, f: nat)
    requires m == Pow2(fractionBits) * e + f && f + 1 < Pow2(fractionBits)
    ensures Units(m, fractionBits) < Units(m + 1, fractionBits)
  {
    hide *;
    UnitsAre(m, fractionBits, e, f);
    UnitsAre(m + 1, fractionBits, e, f + 1);
    if e > 0 {
      GrowProduct(Pow2(fractionBits) + f, Pow2(fractionBits) + f + 1, Pow2(e - 1));
    }
  }

  lemma UnitsCarry(m: nat, fractionBits: nat, e: nat, f: nat)
    requires m == Pow2(fractionBits) * e + f && f + 1 == Pow2(fractionBits)
    ensures Units(m, fractionBits) < Units(m + 1, fractionBits)
  {
    hide *;
    var p := Pow2(fractionBits);
    NextBinade(p, e, m, f);
    UnitsAre(m, fractionBits, e, f);
    UnitsAre(m + 1, fractionBits, e + 1, 0);
    Powers(e);
    if e > 0 {
      GrowProduct(p + f, 2 * p, Pow2(e - 1));
      Regroup(p, Pow2(e - 1));
    }
  }

  lemma Powers(e: nat)
    ensures Pow2(e) == if e == 0 then 1 else 2 * Pow2(e - 1)
  {
  }

  lemma NextBinade(p: nat, e: nat, m: nat, f: nat)
    requires m == p * e + f && f + 1 == p
    ensures m + 1 == p * (e + 1) + 0
  {
  }

  lemma Regroup(p: nat, q: nat)
    ensures 2 * p * q == p * (2 * q)
  {
  }

  lemma GrowProduct(a: nat, b: nat, p: nat)
    requires a < b && p > 0
    ensures a * p < b * p
  {
  }

  lemma {:induction false} UnitsGrow(m: nat, m': nat, fractionBits: nat)
    requires m < m'
    ensures Units(m, fractionBits) < Units(m', fractionBits)
    decreases m' - m
  {
    hide Units;
    UnitsStep(m' - 1, fractionBits);
    if m < m' - 1 {
      UnitsGrow(m, m' - 1, fractionBits);
    }
  }

  /** Larger patterns, larger magnitudes. */
  lemma MagnitudeGrows(m: nat, m': nat, fractionBits: nat, scale: nat)
    requires m < m' && scale >= 1
    ensures Magnitude(m, fractionBits, scale) < Magnitude(m', fractionBits, scale)
  {
    hide Magnitude, Units;
    MagnitudeUnits(m, fractionBits, scale);
    MagnitudeUnits(m', fractionBits, scale);
    UnitsGrow(m, m', fractionBits);
    assert Pow2(scale - 1) as real > 0.0;
    LessByFactor(Magnitude(m, fractionBits, scale), Magnitude(m', fractionBits, scale), Pow2(scale - 1) as real);
  }

  lemma LessByFactor(x: real, y: real, p: real)
    requires p > 0.0 && x * p < y * p
    ensures x < y
  {
  }

  const PATTERN_90: uint64 := 0x4056_8000_0000_0000
  const PATTERN_180: uint64 := 0x4066_8000_0000_0000

  lemma Patterns()
    ensures Magnitude(PATTERN_90, 52, 1075) == 90.0 && Magnitude(PATTERN_180, 52, 1075) == 180.0
  {
    Pow2Values();
    Pow2Add(32, 8);
    assert Pow2(5) == 32 && Pow2(6) == 64 && Pow2(4) == 16;
    Pow2Add(40, 5);
    Pow2Add(40, 6);
    Pow2Add(46, 6);
    assert Pow2(52) == 0x10_0000_0000_0000;
    DivModUnique(PATTERN_90, Pow2(52), 0x405, 0x6_8000_0000_0000);
    DivModUnique(PATTERN_180, Pow2(52), 0x406, 0x6_8000_0000_0000);
    assert Pow2(46) == 0x4000_0000_0000 && Pow2(45) == 0x2000_0000_0000;
  }

  /** A value lies between -x and x exactly when its pattern, without the sign, is at most that of x. */
  lemma WithinPattern(b: uint64, pattern: uint64, x: real)
    requires pattern < TWO_63 && Magnitude(pattern, 52, 1075) == x
    ensures -x <= Value64(b) <= x <==> b % TWO_63 <= pattern
  {
    hide Magnitude;
    var m: nat := b % TWO_63;
    assert m == if b >= TWO_63 then b - TWO_63 else b;
    MagnitudeSign(m, 52, 1075);
    MagnitudeSign(pattern, 52, 1075);
    if m < pattern {
      MagnitudeGrows(m, pattern, 52, 1075);
    } else if m > pattern {
      MagnitudeGrows(pattern, m, 52, 1075);
    }
  }
}
