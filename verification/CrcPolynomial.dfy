/** The register of the bitwise loop is the remainder of polynomial division over GF(2).

    A natural number stands for the polynomial whose coefficients are its bits, so doubling is
    multiplication by x and `Xor` is addition. */
module CrcPolynomial {
  import opened Words
  import opened Crc

  /** x^32 + x^26 + x^23 + x^22 + x^16 + x^12 + x^11 + x^10 + x^8 + x^7 + x^5 + x^4 + x^2 + x + 1. */
  const GENERATOR := 0x1_04C1_1DB7

  type bit = b: nat | b < 2

  /** Product of polynomials, by Horner's rule. */
  function Product(q: nat, g: nat): nat {
    if q == 0 then 0 else Xor(2 * Product(q / 2, g), if q % 2 == 1 then g else 0)
  }

  /** The lowest n bits of s in reverse order. */
  function Reflect(s: nat, n: nat): nat
    decreases n, s
  {
    if n == 0 then 0 else TopBit(s, n - 1) + Reflect(s / 2, n - 1)
  }

  /** The lowest bit of s, moved to place n. */
  function TopBit(s: nat, n: nat): nat {
    Feedback(Pow2(n), s)
  }

  /** The bits of a message in transmission order: bytes in order, least significant bit first. */
  function BitsOf(b: nat, n: nat): (bits: seq<bit>)
    ensures |bits| == n
    decreases n, b
  {
    if n == 0 then [] else [b % 2] + BitsOf(b / 2, n - 1)
  }

  function MessageBits(bytes: seq<byte>): (bits: seq<bit>)
    ensures |bits| == 8 * |bytes|
  {
    if bytes == [] then [] else BitsOf(bytes[0], 8) + MessageBits(bytes[1..])
  }

  /** The message polynomial: the bit sent first is the leading coefficient. */
  function Polynomial(bits: seq<bit>): nat {
    if bits == [] then 0 else 2 * Polynomial(bits[..|bits| - 1]) + bits[|bits| - 1]
  }

  /* ----- the register, bit by bit ----- */

  function FeedBit(s: uint32, b: bit): uint32 {
    BitStep(Xor32(s, b))
  }

  function Feed(s: uint32, bits: seq<bit>): uint32 {
    if bits == [] then s else FeedBit(Feed(s, bits[..|bits| - 1]), bits[|bits| - 1])
  }

  lemma {:induction false} FeedConcat(s: uint32, a: seq<bit>, b: seq<bit>)
    ensures Feed(s, a + b) == Feed(Feed(s, a), b)
    decreases b
  {
    if b == [] {
      assert a + b == a;
    } else {
      assert (a + b)[..|a + b| - 1] == a + b[..|b| - 1];
      FeedConcat(s, a, b[..|b| - 1]);
    }
  }

  lemma FeedFirst(s: uint32, b: bit, rest: seq<bit>)
    ensures Feed(s, [b] + rest) == Feed(FeedBit(s, b), rest)
  {
    FeedConcat(s, [b], rest);
    assert [b][..0] == [];
    assert Feed(s, []) == s;
  }

  /** Adding n bits at once and stepping n times is feeding them one by one. */
  lemma {:induction false} StepsFeed(s: uint32, b: nat, n: nat)
    requires b < Pow2(n) && n <= 8
    ensures b < TWO_32 && BitSteps(Xor32(s, b), n) == Feed(s, BitsOf(b, n))
    decreases n
  {
    Pow2Values();
    if n == 0 {
      XorZero(s);
    } else {
      MaskFits(n, 32);
      FeedFirst(s, b % 2, BitsOf(b / 2, n - 1));
      StepsFeed(FeedBit(s, b % 2), b / 2, n - 1);
      OneBitIn(s, b);
    }
  }

  lemma OneBitIn(s: uint32, b: uint32)
    ensures BitStep(Xor32(s, b)) == Xor32(FeedBit(s, b % 2), b / 2)
  {
    hide Xor;
    var low: uint32, high: uint32 := b % 2, b / 2 * 2;
    assert Pow2(1) == 2;
    XorHigh(low, b / 2, 1);
    assert Xor(low, high) == b;
    XorAssoc(s, low, high);
    BitStepLinear(Xor32(s, low), high);
    assert BitStep(high) == b / 2;
  }

  lemma {:induction false} UpdateFeeds(s: uint32, bytes: seq<byte>)
    ensures Update(s, bytes) == Feed(s, MessageBits(bytes))
    decreases bytes
  {
    if bytes != [] {
      Pow2Values();
      StepsFeed(s, bytes[0], 8);
      UpdateFeeds(BitSteps(Xor32(s, bytes[0]), 8), bytes[1..]);
      FeedConcat(s, BitsOf(bytes[0], 8), MessageBits(bytes[1..]));
    }
  }

  /* ----- reflection ----- */

  lemma {:induction false} ReflectFits(s: nat, n: nat)
    ensures Reflect(s, n) < Pow2(n)
    decreases n
  {
    if n != 0 {
      ReflectFits(s / 2, n - 1);
    }
  }

  lemma SameTopBit(a: nat, b: nat, n: nat)
    requires a % 2 == b % 2
    ensures TopBit(a, n) == TopBit(b, n)
  {
  }

  lemma ReflectStep(s: nat, n: nat)
    ensures n > 0 ==> Reflect(s, n) == TopBit(s, n - 1) + Reflect(s / 2, n - 1)
    ensures n == 0 ==> Reflect(s, n) == 0
  {
  }

  lemma {:induction false} ReflectLinear(a: nat, b: nat, n: nat)
    ensures Reflect(Xor(a, b), n) == Xor(Reflect(a, n), Reflect(b, n))
    decreases n
  {
    hide *;
    ReflectStep(a, n);
    ReflectStep(b, n);
    ReflectStep(Xor(a, b), n);
    if n == 0 {
      XorZero(0);
    } else {
      ReflectLinear(a / 2, b / 2, n - 1);
      ReflectFits(a / 2, n - 1);
      ReflectFits(b / 2, n - 1);
      TopBits(a, Reflect(a / 2, n - 1), b, Reflect(b / 2, n - 1), n - 1);
      XorHalf(a, b);
      SameTopBit(Xor(a, b), a + b, n - 1);
    }
  }

  lemma TopBits(u: nat, x: nat, v: nat, y: nat, n: nat)
    requires x < Pow2(n) && y < Pow2(n)
    ensures Xor(TopBit(u, n) + x, TopBit(v, n) + y) == TopBit(u + v, n) + Xor(x, y)
  {
    hide Xor, Pow2;
    var a, b := TopBit(u, n), TopBit(v, n);
    TopBitXor(u, x, n);
    TopBitXor(v, y, n);
    XorSwap(a, x, b, y);
    FeedbackSum(Pow2(n), u, v, u + v);
    XorBound(x, y, n);
    TopBitXor(u + v, Xor(x, y), n);
  }

  lemma TopBitXor(u: nat, x: nat, n: nat)
    requires x < Pow2(n)
    ensures TopBit(u, n) + x == Xor(TopBit(u, n), x)
  {
    if u % 2 == 1 {
      XorBelow(x, 1, n);
    } else {
      XorZero(x);
    }
  }

  lemma XorBelow(a: nat, b: nat, n: nat)
    requires a < Pow2(n)
    ensures Xor(b * Pow2(n), a) == b * Pow2(n) + a
  {
    XorHigh(a, b, n);
    XorComm(a, b * Pow2(n));
  }

  lemma {:induction false} ReflectWider(s: nat, n: nat)
    requires s < Pow2(n)
    ensures Reflect(s, n + 1) == 2 * Reflect(s, n)
    decreases n
  {
    if n != 0 {
      ReflectWider(s / 2, n - 1);
    }
  }

  /** Reversal with an accumulator. */
  function Reverse(s: nat, n: nat, acc: nat): nat
    decreases n, s
  {
    if n == 0 then acc else Reverse(s / 2, n - 1, 2 * acc + s % 2)
  }

  lemma {:induction false} ReverseReflects(s: nat, n: nat, acc: nat)
    ensures Reverse(s, n, acc) == acc * Pow2(n) + Reflect(s, n)
    decreases n
  {
    if n != 0 {
      var p, bit, rest := Pow2(n - 1), s % 2, Reflect(s / 2, n - 1);
      ReverseReflects(s / 2, n - 1, 2 * acc + bit);
      assert Reverse(s, n, acc) == Reverse(s / 2, n - 1, 2 * acc + bit);
      assert Reflect(s, n) == TopBit(s, n - 1) + rest;
      Shifted(acc, bit, p, Pow2(n), TopBit(s, n - 1), rest);
    }
  }

  lemma Shifted(acc: nat, bit: nat, p: nat, q: nat, top: nat, rest: nat)
    requires q == 2 * p && bit < 2 && top == (if bit == 1 then p else 0)
    ensures (2 * acc + bit) * p + rest == acc * q + (top + rest)
  {
    Distribute(2 * acc, bit, p);
    assert 2 * acc * p == acc * (2 * p);
  }

  lemma Distribute(x: nat, y: nat, z: nat)
    ensures (x + y) * z == x * z + y * z
  {
  }

  lemma ReverseStep(s: nat, half: nat, low: bit, n: nat, acc: nat)
    requires s == 2 * half + low
    ensures Reverse(s, n + 1, acc) == Reverse(half, n, 2 * acc + low)
  {
    assert s / 2 == half && s % 2 == low;
  }

  lemma ReverseEnd(acc: nat)
    ensures Reverse(0, 0, acc) == acc
  {
  }

  lemma ReverseNibble(b0: bit, b1: bit, b2: bit, b3: bit, s: nat, high: nat, n: nat, acc: nat, acc': nat)
    requires s == b0 + 2 * b1 + 4 * b2 + 8 * b3 + 16 * high
    requires acc' == 16 * acc + 8 * b0 + 4 * b1 + 2 * b2 + b3
    ensures Reverse(s, n + 4, acc) == Reverse(high, n, acc')
  {
    hide Reverse;
    var s1, s2, s3 := b1 + 2 * b2 + 4 * b3 + 8 * high, b2 + 2 * b3 + 4 * high, b3 + 2 * high;
    var a1, a2, a3 := 2 * acc + b0, 4 * acc + 2 * b0 + b1, 8 * acc + 4 * b0 + 2 * b1 + b2;
    ReverseStep(s, s1, b0, n + 3, acc);
    ReverseStep(s1, s2, b1, n + 2, a1);
    ReverseStep(s2, s3, b2, n + 1, a2);
    ReverseStep(s3, high, b3, n, a3);
  }

  /** The loop's constant is the generator without its leading term, bits reversed. */
  lemma ReflectedGenerator()
    ensures TWO_32 + Reflect(POLYNOMIAL, 32) == GENERATOR
  {
    hide Reverse, Reflect;
    ReverseReflects(POLYNOMIAL, 32, 0);
    ReverseNibble(0, 0, 0, 0, 0xEDB8_8320, 0xEDB_8832, 28, 0, 0);
    ReverseNibble(0, 1, 0, 0, 0xEDB_8832, 0xED_B883, 24, 0, 0x4);
    ReverseNibble(1, 1, 0, 0, 0xED_B883, 0xE_DB88, 20, 0x4, 0x4C);
    ReverseNibble(0, 0, 0, 1, 0xE_DB88, 0xEDB8, 16, 0x4C, 0x4C1);
    ReverseNibble(0, 0, 0, 1, 0xEDB8, 0xEDB, 12, 0x4C1, 0x4C11);
    ReverseNibble(1, 1, 0, 1, 0xEDB, 0xED, 8, 0x4C11, 0x4_C11D);
    ReverseNibble(1, 0, 1, 1, 0xED, 0xE, 4, 0x4_C11D, 0x4C_11DB);
    ReverseNibble(0, 1, 1, 1, 0xE, 0, 0, 0x4C_11DB, 0x4C1_1DB7);
    ReverseEnd(0x4C1_1DB7);
  }

  /* ----- division ----- */

  function Remainder(s: uint32): nat {
    Reflect(s, 32)
  }

  /** Feeding a bit multiplies the remainder by x, adds the bit at x^32, and reduces once. */
  lemma FeedDivides(s: uint32, b: bit)
    ensures var c := (s + b) % 2;
            Remainder(FeedBit(s, b))
            == Xor(Xor(2 * Remainder(s), b * TWO_32), if c == 1 then GENERATOR else 0)
  {
    var y := Xor32(s, b);
    XorHalf(s, b);
    ReflectLinear(s, b, 32);
    ReflectBit(b);
    DoubleSum(Reflect(y, 32), Reflect(s, 32), b * 0x8000_0000, b * TWO_32);
    StepDivides(y);
  }

  lemma DoubleSum(sum: nat, a: nat, b: nat, twice: nat)
    requires sum == Xor(a, b) && twice == 2 * b
    ensures 2 * sum == Xor(2 * a, twice)
  {
    XorDouble(a, b);
  }

  lemma ReflectBit(b: bit)
    ensures Reflect(b, 32) == b * 0x8000_0000
  {
    Pow2Values();
    ReflectZero(31);
    assert b / 2 == 0;
    assert Reflect(b, 32) == TopBit(b, 31) + Reflect(0, 31);
  }

  lemma {:induction false} ReflectZero(n: nat)
    ensures Reflect(0, n) == 0
    decreases n
  {
    if n != 0 {
      ReflectZero(n - 1);
    }
  }

  lemma HighCancels(x: nat, y: nat)
    requires x < TWO_32 && y < TWO_32
    ensures Xor(TWO_32 + x, TWO_32 + y) == Xor(x, y)
  {
    Pow2Values();
    hide Xor, Pow2;
    TopBits(1, x, 1, y, 32);
  }

  lemma StepSplits(y: uint32)
    ensures Remainder(BitStep(y)) == if y % 2 == 1 then Xor(Reflect(y / 2, 32), Reflect(POLYNOMIAL, 32)) else Reflect(y / 2, 32)
  {
    hide Xor, Reflect;
    if y % 2 == 1 {
      ReflectLinear(y / 2, POLYNOMIAL, 32);
    }
  }

  lemma ReflectDoubles(y: uint32)
    ensures 2 * Reflect(y, 32) == (if y % 2 == 1 then TWO_32 else 0) + Reflect(y / 2, 32)
  {
    Pow2Values();
    ReflectWider(y / 2, 31);
  }

  lemma FitsWord(x: uint32)
    ensures Reflect(x, 32) < TWO_32
  {
    Pow2Values();
    hide Reflect;
    ReflectFits(x, 32);
  }

  lemma StepDivides(y: uint32)
    ensures Remainder(BitStep(y)) == Xor(2 * Reflect(y, 32), if y % 2 == 1 then GENERATOR else 0)
  {
    hide *;
    StepSplits(y);
    ReflectDoubles(y);
    FitsWord(y / 2);
    if y % 2 == 1 {
      ReflectedGenerator();
      FitsWord(POLYNOMIAL);
      HighCancels(Reflect(y / 2, 32), Reflect(POLYNOMIAL, 32));
    } else {
      XorZero(2 * Reflect(y, 32));
    }
  }

  function Quotient(s: uint32, bits: seq<bit>): nat {
    if bits == [] then 0
    else
      var init, b := bits[..|bits| - 1], bits[|bits| - 1];
      2 * Quotient(s, init) + (Feed(s, init) + b) % 2
  }

  /** The dividend: the message times x^32 plus the initial register times x^|message|. */
  function Dividend(s: uint32, bits: seq<bit>): nat {
    Xor(Polynomial(bits) * TWO_32, Remainder(s) * Pow2(|bits|))
  }

  /** Division with remainder: dividend = quotient * generator + register, for every message. */
  lemma {:induction false} FeedIsDivision(s: uint32, bits: seq<bit>)
    ensures Dividend(s, bits) == Xor(Product(Quotient(s, bits), GENERATOR), Remainder(Feed(s, bits)))
  {
    hide Xor, Product, Remainder;
    if bits == [] {
      NoBits(s);
    } else {
      var init, b := bits[..|bits| - 1], bits[|bits| - 1];
      FeedIsDivision(s, init);
      assert bits == init + [b];
      DividendStep(s, init, b);
      OneMoreBit(Dividend(s, init), Quotient(s, init), Feed(s, init), b);
    }
  }

  lemma NoBits(s: uint32)
    ensures Dividend(s, []) == Xor(Product(Quotient(s, []), GENERATOR), Remainder(Feed(s, [])))
  {
    assert Pow2(0) == 1;
  }

  lemma OneMoreBit(dividend: nat, q: nat, s: uint32, b: bit)
    requires dividend == Xor(Product(q, GENERATOR), Remainder(s))
    ensures Xor(2 * dividend, b * TWO_32)
         == Xor(Product(2 * q + (s + b) % 2, GENERATOR), Remainder(FeedBit(s, b)))
  {
    ProductStep(q, (s + b) % 2, GENERATOR);
    FeedDivides(s, b);
    DivisionStep(Product(q, GENERATOR), Remainder(s), b * TWO_32, if (s + b) % 2 == 1 then GENERATOR else 0);
  }

  /** (2q + g) + ((2r + t) + g) is 2(q + r) + t. */
  lemma DivisionStep(q: nat, r: nat, t: nat, g: nat)
    ensures Xor(Xor(2 * q, g), Xor(Xor(2 * r, t), g)) == Xor(2 * Xor(q, r), t)
  {
    XorSwap(2 * q, g, Xor(2 * r, t), g);
    XorSelf(g);
    XorZero(Xor(2 * q, Xor(2 * r, t)));
    XorAssoc(2 * q, 2 * r, t);
    XorDouble(q, r);
  }

  lemma ProductStep(q: nat, c: bit, g: nat)
    ensures Product(2 * q + c, g) == Xor(2 * Product(q, g), if c == 1 then g else 0)
  {
    assert (2 * q + c) / 2 == q;
    XorZero(0);
  }

  lemma DividendStep(s: uint32, init: seq<bit>, b: bit)
    ensures Dividend(s, init + [b]) == Xor(2 * Dividend(s, init), b * TWO_32)
  {
    hide Xor;
    assert (init + [b])[..|init|] == init;
    var m, i := Polynomial(init) * TWO_32, Remainder(s) * Pow2(|init|);
    assert Dividend(s, init + [b]) == Xor(Xor(2 * m, b * TWO_32), 2 * i) by {
      BitUnder(Polynomial(init), b);
      assert Remainder(s) * Pow2(|init| + 1) == 2 * i;
    }
    MoveLast(2 * m, b * TWO_32, 2 * i);
    XorDouble(m, i);
  }

  lemma MoveLast(x: nat, y: nat, z: nat)
    ensures Xor(Xor(x, y), z) == Xor(Xor(x, z), y)
  {
    XorAssoc(x, y, z);
    XorComm(y, z);
    XorAssoc(x, z, y);
  }

  lemma BitUnder(p: nat, b: bit)
    ensures (2 * p + b) * TWO_32 == Xor(2 * (p * TWO_32), b * TWO_32)
  {
    hide Xor;
    Pow2Add(1, 32);
    Pow2Values();
    XorBelow(b * TWO_32, p, 33);
  }

  /** The published checksum, complemented and reflected, is the remainder of the message (its first
      32 bits inverted by the initial value) divided by the generator. */
  lemma Crc32IsRemainder(bytes: seq<byte>)
    ensures var q := Quotient(INITIAL, MessageBits(bytes));
            Xor(Polynomial(MessageBits(bytes)) * TWO_32, INITIAL * Pow2(8 * |bytes|))
            == Xor(Product(q, GENERATOR), Remainder(Xor32(Crc32(bytes), INITIAL)))
  {
    var bits := MessageBits(bytes);
    assert Xor32(Crc32(bytes), INITIAL) == Feed(INITIAL, bits) by {
      UpdateFeeds(INITIAL, bytes);
      Uncomplemented(Update(INITIAL, bytes));
    }
    assert Dividend(INITIAL, bits) == Xor(Polynomial(bits) * TWO_32, INITIAL * Pow2(8 * |bytes|)) by {
      hide Xor, Polynomial;
      InitialRemainder();
    }
    FeedIsDivision(INITIAL, bits);
  }

  lemma Uncomplemented(s: uint32)
    ensures Xor32(Xor32(s, INITIAL), INITIAL) == s
  {
    hide Xor;
    XorCancel(s, INITIAL);
  }

  lemma InitialRemainder()
    ensures Remainder(INITIAL) == INITIAL
  {
    hide Reflect;
    Pow2Values();
    ReflectOnes(32);
  }

  lemma {:induction false} ReflectOnes(n: nat)
    ensures Reflect(Pow2(n) - 1, n) == Pow2(n) - 1
    decreases n
  {
    if n != 0 {
      assert (Pow2(n) - 1) / 2 == Pow2(n - 1) - 1;
      ReflectOnes(n - 1);
    }
  }

  /* ----- the remainder is unique ----- */

  lemma {:induction false} ProductLinear(a: nat, b: nat, g: nat)
    ensures Product(Xor(a, b), g) == Xor(Product(a, g), Product(b, g))
    decreases a + b
  {
    if a == 0 {
      XorZero(b);
      XorZero(Product(b, g));
    } else if b == 0 {
      XorZero(a);
      XorZero(Product(a, g));
    } else {
      ProductLinear(a / 2, b / 2, g);
      XorHalf(a, b);
      XorDouble(Product(a / 2, g), Product(b / 2, g));
      var ga, gb := if a % 2 == 1 then g else 0, if b % 2 == 1 then g else 0;
      XorSwap(2 * Product(a / 2, g), ga, 2 * Product(b / 2, g), gb);
      FeedbackLinear(g, a, b);
      if Xor(a, b) == 0 {
        XorZero(0);
      }
    }
  }

  lemma {:induction false} ProductLarge(q: nat)
    requires q > 0
    ensures Product(q, GENERATOR) >= TWO_32
  {
    XorZero(GENERATOR);
    if q > 1 {
      var x, g := 2 * Product(q / 2, GENERATOR), if q % 2 == 1 then GENERATOR else 0;
      ProductLarge(q / 2);
      Pow2Add(1, 32);
      Pow2Values();
      if Xor(x, g) < TWO_32 {
        XorBound(Xor(x, g), g, 33);
        XorCancel(x, g);
      }
    }
  }

  /** No other 32-bit remainder, and no other quotient, satisfies the division equation. */
  lemma RemainderUnique(q: nat, r: uint32, q': nat, r': uint32)
    requires Xor(Product(q, GENERATOR), r) == Xor(Product(q', GENERATOR), r')
    ensures q == q' && r == r'
  {
    var p, p' := Product(q, GENERATOR), Product(q', GENERATOR);
    ProductLinear(q, q', GENERATOR);
    XorSwap(p, r, p', r');
    XorSelf(Xor(p, r));
    XorCancel(Xor(p, p'), Xor(r, r'));
    XorZero(Xor(r, r'));
    Pow2Values();
    XorBound(r, r', 32);
    if Xor(q, q') != 0 {
      ProductLarge(Xor(q, q'));
    }
    XorCancel(q, q');
    XorZero(q');
    XorComm(p', r);
    XorComm(p', r');
    XorInjective(r, r', p');
  }
}
