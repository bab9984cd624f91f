/** Unsigned machine words as natural numbers.

    The source works on uint8_t, uint16_t, uint32_t and uint64_t.  Here a word is a `nat` below a
    power of two and the C++ operators are spelled out: `+` wraps only where `%` says so, and the
    bitwise operators are defined one bit at a time.  Read as polynomials over GF(2), `Xor` is
    addition and doubling is multiplication by x. */
module Words {

  const TWO_16 := 0x1_0000
  const TWO_32 := 0x1_0000_0000
  const TWO_63 := 0x8000_0000_0000_0000
  const TWO_64 := 0x1_0000_0000_0000_0000
  const MAX_64 := 0xFFFF_FFFF_FFFF_FFFF

  type byte = x: nat | x < 0x100
  type uint16 = x: nat | x < TWO_16
  type uint32 = x: nat | x < TWO_32
  type uint64 = x: nat | x < TWO_64

  function Min(a: int, b: int): int {
    if a <= b then a else b
  }

  function Max(a: int, b: int): int {
    if a <= b then b else a
  }

  /** The saturating addition of the tracker and of the health monitor. */
  function SaturatingAdd(value: uint64, increment: uint64): (r: uint64)
    ensures r == Min(value + increment, MAX_64)
  {
    if increment > MAX_64 - value then MAX_64 else value + increment
  }

  function Pow2(n: nat): (r: nat)
    ensures r > 0
  {
    if n == 0 then 1 else 2 * Pow2(n - 1)
  }

  /* ----- bitwise operators ----- */

  function Xor(a: nat, b: nat): nat
    decreases a + b
  {
    if a == 0 && b == 0 then 0 else 2 * Xor(a / 2, b / 2) + (a + b) % 2
  }

  function Or(a: nat, b: nat): nat
    decreases a + b
  {
    if a == 0 && b == 0 then 0 else 2 * Or(a / 2, b / 2) + Max(a % 2, b % 2)
  }

  function And(a: nat, b: nat): nat
    decreases a + b
  {
    if a == 0 && b == 0 then 0 else 2 * And(a / 2, b / 2) + Min(a % 2, b % 2)
  }

  /** `x << n` on uint64_t: the bits that leave at the top are lost. */
  function ShiftLeft64(x: uint64, n: nat): uint64 {
    if n == 0 then x else (2 * ShiftLeft64(x, n - 1)) % TWO_64
  }

  /** Whether bit i of x is set. */
  predicate Bit(x: nat, i: nat) {
    if i == 0 then x % 2 == 1 else Bit(x / 2, i - 1)
  }

  /* ----- the bitmap operations of the tracker ----- */

  lemma {:induction false} BitOfPow2(n: nat, i: nat)
    ensures Bit(Pow2(n), i) <==> i == n
  {
    if i == 0 {
    } else if n == 0 {
      BitOfZero(i - 1);
    } else {
      BitOfPow2(n - 1, i - 1);
    }
  }

  lemma {:induction false} BitOfZero(i: nat)
    ensures !Bit(0, i)
  {
    if i != 0 {
      BitOfZero(i - 1);
    }
  }

  lemma {:induction false} BitOfOr(a: nat, b: nat, i: nat)
    ensures Bit(Or(a, b), i) <==> Bit(a, i) || Bit(b, i)
  {
    if i != 0 {
      BitOfOr(a / 2, b / 2, i - 1);
    }
  }

  /** Testing a word against a one-bit mask is testing the bit. */
  lemma {:induction false} AndMask(x: nat, n: nat)
    ensures And(x, Pow2(n)) != 0 <==> Bit(x, n)
  {
    if n == 0 {
      AndZero(x / 2);
    } else {
      AndMask(x / 2, n - 1);
    }
  }

  lemma {:induction false} AndZero(x: nat)
    ensures And(x, 0) == 0
  {
    if x != 0 {
      AndZero(x / 2);
    }
  }

  lemma {:induction false} BitBelow(x: nat, n: nat, i: nat)
    requires i < n
    ensures Bit(x % Pow2(n), i) <==> Bit(x, i)
  {
    ModHalf(x, Pow2(n - 1));
    if i != 0 {
      BitBelow(x / 2, n - 1, i - 1);
    }
  }

  lemma ModHalf(x: nat, m: nat)
    requires m > 0
    ensures x % (2 * m) / 2 == (x / 2) % m
    ensures x % (2 * m) % 2 == x % 2
  {
    var q, r := x / (2 * m), x % (2 * m);
    assert x == (2 * m) * q + r;
    assert x == 2 * (m * q) + r;
    assert x / 2 == m * q + r / 2 && x % 2 == r % 2;
    DivModUnique(x / 2, m, q, r / 2);
  }

  lemma DivModUnique(x: int, m: nat, q: int, r: nat)
    requires m > 0 && r < m && x == m * q + r
    ensures x / m == q && x % m == r
  {
    var d := x / m - q;
    assert m * d == r - x % m by {
      assert m * (x / m) + x % m == x;
      assert m * d == m * (x / m) - m * q;
    }
    SmallMultiple(m, d);
  }

  lemma SmallMultiple(m: nat, d: int)
    requires 0 - m < m * d < m
    ensures d == 0
  {
    MultipleSize(m, d);
  }

  lemma MultipleSize(m: nat, d: int)
    ensures d >= 1 ==> m * d >= m
    ensures d <= -1 ==> m * d <= 0 - m
  {
    if d >= 1 {
      assert m * d == m + m * (d - 1);
    } else if d <= -1 {
      assert m * d == m * (d + 1) - m;
    }
  }

  lemma {:induction false} Pow2Add(a: nat, b: nat)
    ensures Pow2(a + b) == Pow2(a) * Pow2(b)
  {
    if a != 0 {
      Pow2Add(a - 1, b);
    }
  }

  lemma Pow2Values()
    ensures Pow2(8) == 0x100 && Pow2(16) == TWO_16 && Pow2(31) == 0x8000_0000 && Pow2(32) == TWO_32
    ensures Pow2(63) == TWO_63 && Pow2(64) == TWO_64
  {
    assert Pow2(3) == 8;
    assert Pow2(6) == 64;
    assert Pow2(8) == 0x100;
    Pow2Add(8, 8);
    Pow2Add(16, 16);
    Pow2Add(32, 32);
  }

  lemma {:induction false} BitOfShift(x: uint64, n: nat, i: nat)
    requires i < 64
    ensures Bit(ShiftLeft64(x, n), i) <==> i >= n && Bit(x, i - n)
  {
    if n != 0 {
      var y: nat := ShiftLeft64(x, n - 1);
      Pow2Values();
      BitBelow(2 * y, 64, i);
      if i != 0 {
        assert (2 * y) / 2 == y;
        BitOfShift(x, n - 1, i - 1);
      }
    }
  }

  /** `a | b` on uint64_t. */
  function Or64(a: uint64, b: uint64): uint64 {
    Pow2Values();
    OrBound(a, b, 64);
    Or(a, b)
  }

  /** `1 << n` is the mask of bit n. */
  lemma {:induction false} OneShifted(n: nat)
    requires n < 64
    ensures ShiftLeft64(1, n) == Pow2(n)
  {
    if n != 0 {
      OneShifted(n - 1);
      Pow2Values();
      MaskFits(n, 64);
      SmallMod(2 * ShiftLeft64(1, n - 1), TWO_64);
    }
  }

  lemma SmallMod(x: nat, m: nat)
    requires x < m
    ensures x % m == x
  {
  }

  lemma {:induction false} OrBound(a: nat, b: nat, n: nat)
    requires a < Pow2(n) && b < Pow2(n)
    ensures Or(a, b) < Pow2(n)
  {
    if n != 0 {
      OrBound(a / 2, b / 2, n - 1);
    }
  }

  lemma {:induction false} MaskFits(n: nat, m: nat)
    requires n < m
    ensures Pow2(n) < Pow2(m)
  {
    if n + 1 < m {
      MaskFits(n, m - 1);
    }
  }

  /* ----- Xor is the addition of GF(2)[x] ----- */

  lemma {:induction false} BitOfXor(a: nat, b: nat, i: nat)
    ensures Bit(Xor(a, b), i) <==> Bit(a, i) != Bit(b, i)
  {
    XorHalf(a, b);
    if i != 0 {
      BitOfXor(a / 2, b / 2, i - 1);
    }
  }

  lemma XorHalf(a: nat, b: nat)
    ensures Xor(a, b) / 2 == Xor(a / 2, b / 2) && Xor(a, b) % 2 == (a + b) % 2
  {
  }

  /** A number is its bits. */
  lemma {:induction false} BitExt(a: nat, b: nat)
    requires forall i: nat :: Bit(a, i) == Bit(b, i)
    ensures a == b
    decreases a + b
  {
    assert Bit(a, 0) == Bit(b, 0);
    if a != 0 || b != 0 {
      forall i: nat
        ensures Bit(a / 2, i) == Bit(b / 2, i)
      {
        assert Bit(a, i + 1) == Bit(b, i + 1);
      }
      BitExt(a / 2, b / 2);
    }
  }

  lemma XorComm(a: nat, b: nat)
    ensures Xor(a, b) == Xor(b, a)
  {
    forall i: nat
      ensures Bit(Xor(a, b), i) == Bit(Xor(b, a), i)
    {
      BitOfXor(a, b, i);
      BitOfXor(b, a, i);
    }
    BitExt(Xor(a, b), Xor(b, a));
  }

  lemma XorAssoc(a: nat, b: nat, c: nat)
    ensures Xor(Xor(a, b), c) == Xor(a, Xor(b, c))
  {
    forall i: nat
      ensures Bit(Xor(Xor(a, b), c), i) == Bit(Xor(a, Xor(b, c)), i)
    {
      BitOfXor(a, b, i);
      BitOfXor(b, c, i);
      BitOfXor(Xor(a, b), c, i);
      BitOfXor(a, Xor(b, c), i);
    }
    BitExt(Xor(Xor(a, b), c), Xor(a, Xor(b, c)));
  }

  lemma {:induction false} XorZero(a: nat)
    ensures Xor(a, 0) == a && Xor(0, a) == a
  {
    if a != 0 {
      XorZero(a / 2);
    }
  }

  lemma {:induction false} XorSelf(a: nat)
    ensures Xor(a, a) == 0
  {
    if a != 0 {
      XorSelf(a / 2);
    }
  }

  lemma XorCancel(a: nat, b: nat)
    ensures Xor(Xor(a, b), b) == a
  {
    XorAssoc(a, b, b);
    XorSelf(b);
    XorZero(a);
  }

  lemma XorInjective(a: nat, b: nat, c: nat)
    requires Xor(a, c) == Xor(b, c)
    ensures a == b
  {
    XorCancel(a, c);
    XorCancel(b, c);
  }

  /** Regrouping four terms. */
  lemma XorSwap(a: nat, b: nat, c: nat, d: nat)
    ensures Xor(Xor(a, b), Xor(c, d)) == Xor(Xor(a, c), Xor(b, d))
  {
    XorAssoc(a, b, Xor(c, d));
    XorAssoc(b, c, d);
    XorComm(b, c);
    XorAssoc(c, b, d);
    XorAssoc(a, c, Xor(b, d));
  }

  lemma XorDouble(a: nat, b: nat)
    ensures Xor(2 * a, 2 * b) == 2 * Xor(a, b)
  {
    assert 2 * a / 2 == a && 2 * b / 2 == b;
  }

  lemma {:induction false} XorBound(a: nat, b: nat, n: nat)
    requires a < Pow2(n) && b < Pow2(n)
    ensures Xor(a, b) < Pow2(n)
  {
    if n != 0 {
      XorBound(a / 2, b / 2, n - 1);
    }
  }

  /** Xor with a disjoint high part is addition. */
  lemma {:induction false} XorHigh(a: nat, b: nat, n: nat)
    requires a < Pow2(n)
    ensures Xor(a, b * Pow2(n)) == a + b * Pow2(n)
  {
    if n == 0 {
      XorZero(b);
    } else {
      var c := b * Pow2(n - 1);
      TwiceProduct(b, Pow2(n - 1));
      XorHigh(a / 2, b, n - 1);
      XorHighStep(a, c);
    }
  }

  lemma TwiceProduct(a: nat, b: nat)
    ensures a * (2 * b) == 2 * (a * b)
  {
  }

  lemma XorHighStep(a: nat, c: nat)
    requires Xor(a / 2, c) == a / 2 + c
    ensures Xor(a, 2 * c) == a + 2 * c
  {
    hide Xor;
    Doubled(a, c);
    XorHalf(a, 2 * c);
    Recombine(Xor(a, 2 * c), a, c);
  }

  lemma Doubled(a: nat, c: nat)
    ensures (2 * c) / 2 == c && (a + 2 * c) % 2 == a % 2
  {
  }

  lemma Recombine(x: nat, a: nat, c: nat)
    requires x / 2 == a / 2 + c && x % 2 == a % 2
    ensures x == a + 2 * c
  {
  }
}
