/** The bitwise reflected CRC-32/ISO-HDLC of packet.cpp. */
module Crc {
  import opened Words

  const INITIAL: uint32 := 0xFFFF_FFFF
  const POLYNOMIAL: uint32 := 0xEDB8_8320

  /** One turn of the inner loop. */
  function BitStep(s: uint32): uint32 {
    Pow2Values();
    XorBound(s / 2, POLYNOMIAL, 32);
    if s % 2 == 1 then Xor(s / 2, POLYNOMIAL) else s / 2
  }

  function BitSteps(s: uint32, n: nat): uint32
    decreases n, s
  {
    if n == 0 then s else BitSteps(BitStep(s), n - 1)
  }

  function Xor32(a: uint32, b: uint32): uint32 {
    Pow2Values();
    XorBound(a, b, 32);
    Xor(a, b)
  }

  function Update(s: uint32, bytes: seq<byte>): uint32
    decreases bytes
  {
    if bytes == [] then s else Update(BitSteps(Xor32(s, bytes[0]), 8), bytes[1..])
  }

  function Crc32(bytes: seq<byte>): uint32 {
    Xor32(Update(INITIAL, bytes), INITIAL)
  }

  function PacketCrc(header: seq<byte>, payload: seq<byte>): uint32 {
    Xor32(Update(Update(INITIAL, header), payload), INITIAL)
  }

  /** The nested loops, with the source's branch-free mask. */
  method UpdateCrc(initial: uint32, bytes: seq<byte>) returns (state: uint32)
    ensures state == Update(initial, bytes)
  {
    hide Xor, And;
    state := initial;
    var i := 0;
    while i < |bytes|
      invariant i <= |bytes|
      invariant Update(state, bytes[i..]) == Update(initial, bytes)
    {
      ghost var before := state;
      state := Xor32(state, bytes[i]);
      var bit := 0;
      while bit < 8
        invariant bit <= 8
        invariant BitSteps(state, 8 - bit) == BitSteps(Xor32(before, bytes[i]), 8)
      {
        var mask: uint32 := (0 - state % 2) % TWO_32;
        MaskedPolynomial(state);
        state := BitStepMasked(state, mask);
        bit := bit + 1;
      }
      assert bytes[i..][1..] == bytes[i + 1..];
      i := i + 1;
    }
  }

  function BitStepMasked(s: uint32, mask: uint32): uint32 {
    Pow2Values();
    AndBound(POLYNOMIAL, mask, 32);
    XorBound(s / 2, And(POLYNOMIAL, mask), 32);
    Xor(s / 2, And(POLYNOMIAL, mask))
  }

  lemma MaskedPolynomial(s: uint32)
    ensures BitStepMasked(s, (0 - s % 2) % TWO_32) == BitStep(s)
  {
    hide And, Xor;
    if s % 2 == 1 {
      Pow2Values();
      AndOnes(POLYNOMIAL, 32);
    } else {
      AndZero(POLYNOMIAL);
      XorZero(s / 2);
    }
  }

  lemma {:induction false} AndOnes(x: nat, n: nat)
    requires x < Pow2(n)
    ensures And(x, Pow2(n) - 1) == x
  {
    if n != 0 {
      assert (Pow2(n) - 1) / 2 == Pow2(n - 1) - 1;
      AndOnes(x / 2, n - 1);
    }
  }

  lemma {:induction false} AndBound(a: nat, b: nat, n: nat)
    requires a < Pow2(n) && b < Pow2(n)
    ensures And(a, b) < Pow2(n)
  {
    if n != 0 {
      AndBound(a / 2, b / 2, n - 1);
    }
  }

  /* ----- compositional, linear, injective ----- */

  lemma {:induction false} UpdateConcat(s: uint32, a: seq<byte>, b: seq<byte>)
    ensures Update(s, a + b) == Update(Update(s, a), b)
    decreases a
  {
    if a == [] {
      assert a + b == b;
    } else {
      assert (a + b)[1..] == a[1..] + b;
      UpdateConcat(BitSteps(Xor32(s, a[0]), 8), a[1..], b);
    }
  }

  /** The packet checksum is the plain CRC of header prefix and payload put together. */
  lemma PacketCrcIsCrc32(header: seq<byte>, payload: seq<byte>)
    ensures PacketCrc(header, payload) == Crc32(header + payload)
  {
    UpdateConcat(INITIAL, header, payload);
  }

  /** The term that a bit step adds to the halved register: p if the bit shifted out is set. */
  function Feedback(p: nat, s: nat): nat {
    if s % 2 == 1 then p else 0
  }

  lemma BitStepSum(s: uint32)
    ensures BitStep(s) == Xor(s / 2, Feedback(POLYNOMIAL, s))
  {
    XorZero(s / 2);
  }

  lemma FeedbackLinear(p: nat, a: nat, b: nat)
    ensures Feedback(p, Xor(a, b)) == Xor(Feedback(p, a), Feedback(p, b))
  {
    assert Xor(a, b) % 2 == (a + b) % 2 by {
      XorHalf(a, b);
    }
    FeedbackSum(p, a, b, Xor(a, b));
  }

  lemma FeedbackSum(p: nat, a: nat, b: nat, c: nat)
    requires c % 2 == (a + b) % 2
    ensures Feedback(p, c) == Xor(Feedback(p, a), Feedback(p, b))
  {
    XorZero(p);
    XorZero(0);
    XorSelf(p);
    assert c % 2 == 1 <==> (a % 2 == 1) != (b % 2 == 1);
  }

  lemma BitStepLinear(a: uint32, b: uint32)
    ensures BitStep(Xor32(a, b)) == Xor32(BitStep(a), BitStep(b))
  {
    BitStepSum(a);
    BitStepSum(b);
    BitStepSum(Xor32(a, b));
    XorHalf(a, b);
    FeedbackLinear(POLYNOMIAL, a, b);
    XorSwap(a / 2, Feedback(POLYNOMIAL, a), b / 2, Feedback(POLYNOMIAL, b));
  }

  lemma {:induction false} BitStepsLinear(a: uint32, b: uint32, n: nat)
    ensures BitSteps(Xor32(a, b), n) == Xor32(BitSteps(a, n), BitSteps(b, n))
    decreases n
  {
    if n != 0 {
      BitStepLinear(a, b);
      BitStepsLinear(BitStep(a), BitStep(b), n - 1);
    }
  }

  function XorBytes(a: seq<byte>, b: seq<byte>): (c: seq<byte>)
    requires |a| == |b|
    ensures |c| == |a|
  {
    if a == [] then [] else
      Pow2Values();
      XorBound(a[0], b[0], 8);
      [Xor(a[0], b[0])] + XorBytes(a[1..], b[1..])
  }

  /** Linearity: the registers of two equally long inputs add up to the register of their sum. */
  lemma {:induction false} UpdateLinear(s: uint32, t: uint32, a: seq<byte>, b: seq<byte>)
    requires |a| == |b|
    ensures Update(Xor32(s, t), XorBytes(a, b)) == Xor32(Update(s, a), Update(t, b))
    decreases a
  {
    if a != [] {
      var s', t' := BitSteps(Xor32(s, a[0]), 8), BitSteps(Xor32(t, b[0]), 8);
      var c := XorBytes(a, b);
      assert c[1..] == XorBytes(a[1..], b[1..]);
      ByteLinear(s, t, a[0], b[0]);
      UpdateLinear(s', t', a[1..], b[1..]);
      assert Update(Xor32(s, t), c) == Update(BitSteps(Xor32(Xor32(s, t), c[0]), 8), c[1..]);
    }
  }

  lemma ByteLinear(s: uint32, t: uint32, a: byte, b: byte)
    ensures BitSteps(Xor32(Xor32(s, t), Xor32(a, b)), 8)
         == Xor32(BitSteps(Xor32(s, a), 8), BitSteps(Xor32(t, b), 8))
  {
    XorSwap(s, t, a, b);
    BitStepsLinear(Xor32(s, a), Xor32(t, b), 8);
  }

  lemma BitStepInjective(a: uint32, b: uint32)
    requires BitStep(a) == BitStep(b)
    ensures a == b
  {
    BitStepLinear(a, b);
    XorSelf(BitStep(a));
    BitStepZero(Xor32(a, b));
    XorCancel(a, b);
    XorZero(b);
  }

  lemma BitStepZero(x: uint32)
    requires BitStep(x) == 0
    ensures x == 0
  {
    if x % 2 == 1 {
      XorCancel(x / 2, POLYNOMIAL);
      XorZero(POLYNOMIAL);
    }
  }

  lemma {:induction false} BitStepsInjective(a: uint32, b: uint32, n: nat)
    requires BitSteps(a, n) == BitSteps(b, n)
    ensures a == b
    decreases n
  {
    if n != 0 {
      BitStepsInjective(BitStep(a), BitStep(b), n - 1);
      BitStepInjective(a, b);
    }
  }

  lemma {:induction false} UpdateInjective(s: uint32, t: uint32, bytes: seq<byte>)
    requires Update(s, bytes) == Update(t, bytes)
    ensures s == t
    decreases bytes
  {
    if bytes != [] {
      var s', t' := Xor32(s, bytes[0]), Xor32(t, bytes[0]);
      UpdateInjective(BitSteps(s', 8), BitSteps(t', 8), bytes[1..]);
      BitStepsInjective(s', t', 8);
      XorInjective(s, t, bytes[0]);
    }
  }

  /* ----- bursts of up to four bytes ----- */

  /** The bytes as one little-endian word. */
  function WordOf(bytes: seq<byte>): nat {
    if bytes == [] then 0 else bytes[0] + 0x100 * WordOf(bytes[1..])
  }

  lemma {:induction false} WordFits(bytes: seq<byte>)
    ensures WordOf(bytes) < Pow2(8 * |bytes|)
  {
    if bytes != [] {
      WordFits(bytes[1..]);
      Pow2Add(8, 8 * |bytes[1..]|);
      Pow2Values();
    }
  }

  lemma {:induction false} WordInjective(a: seq<byte>, b: seq<byte>)
    requires |a| == |b| && WordOf(a) == WordOf(b)
    ensures a == b
  {
    if a != [] {
      WordInjective(a[1..], b[1..]);
      assert a == [a[0]] + a[1..] && b == [b[0]] + b[1..];
    }
  }

  /** Zero bits at the bottom are shifted out unchanged. */
  lemma {:induction false} BitStepsShift(w: nat, n: nat)
    requires w * Pow2(n) < TWO_32
    ensures BitSteps(w * Pow2(n), n) == w
  {
    if n != 0 {
      assert w * Pow2(n) == 2 * (w * Pow2(n - 1));
      BitStepsShift(w, n - 1);
    }
  }

  /** Up to four bytes enter the register as one word. */
  lemma {:induction false} UpdateWord(s: uint32, bytes: seq<byte>)
    requires |bytes| <= 4
    ensures WordOf(bytes) < TWO_32
    ensures Update(s, bytes) == BitSteps(Xor32(s, WordOf(bytes)), 8 * |bytes|)
    decreases bytes
  {
    WordBelow32(bytes);
    if bytes == [] {
      XorZero(s);
    } else {
      var b, rest := bytes[0], bytes[1..];
      var w := WordOf(rest);
      WordBelow32(rest);
      ByteThenWord(s, b, w);
      var s' := BitSteps(Xor32(s, b), 8);
      UpdateWord(s', rest);
      BitStepsAdd(Xor32(s, WordOf(bytes)), 8, 8 * |rest|);
      assert 8 * |bytes| == 8 + 8 * |rest|;
    }
  }

  lemma ByteThenWord(s: uint32, b: byte, w: uint32)
    requires b + 0x100 * w < TWO_32
    ensures BitSteps(Xor32(s, b + 0x100 * w), 8) == Xor32(BitSteps(Xor32(s, b), 8), w)
  {
    hide Xor, BitStep;
    Pow2Values();
    XorHigh(b, w, 8);
    XorAssoc(s, b, w * 0x100);
    BitStepsLinear(Xor32(s, b), w * 0x100, 8);
    BitStepsShift(w, 8);
  }

  lemma WordBelow32(bytes: seq<byte>)
    requires |bytes| <= 4
    ensures WordOf(bytes) < TWO_32
  {
    WordFits(bytes);
    Pow2Add(8 * |bytes|, 32 - 8 * |bytes|);
    Pow2Values();
    MultipleSize(Pow2(8 * |bytes|), Pow2(32 - 8 * |bytes|));
  }

  lemma {:induction false} BitStepsAdd(s: uint32, m: nat, n: nat)
    ensures BitSteps(s, m + n) == BitSteps(BitSteps(s, m), n)
    decreases m
  {
    if m != 0 {
      BitStepsAdd(BitStep(s), m - 1, n);
    }
  }

  /** Any change confined to four consecutive bytes changes the checksum. */
  lemma BurstDetected(pre: seq<byte>, a: seq<byte>, b: seq<byte>, post: seq<byte>)
    requires |a| == |b| <= 4 && a != b
    ensures Crc32(pre + a + post) != Crc32(pre + b + post)
  {
    if Crc32(pre + a + post) == Crc32(pre + b + post) {
      XorInjective(Update(INITIAL, pre + a + post), Update(INITIAL, pre + b + post), INITIAL);
      UpdateConcat(INITIAL, pre + a, post);
      UpdateConcat(INITIAL, pre + b, post);
      UpdateInjective(Update(INITIAL, pre + a), Update(INITIAL, pre + b), post);
      UpdateConcat(INITIAL, pre, a);
      UpdateConcat(INITIAL, pre, b);
      WindowInjective(Update(INITIAL, pre), a, b);
    }
  }

  lemma WindowInjective(s: uint32, a: seq<byte>, b: seq<byte>)
    requires |a| == |b| <= 4 && Update(s, a) == Update(s, b)
    ensures a == b
  {
    UpdateWord(s, a);
    UpdateWord(s, b);
    BitStepsInjective(Xor32(s, WordOf(a)), Xor32(s, WordOf(b)), 8 * |a|);
    XorComm(s, WordOf(a));
    XorComm(s, WordOf(b));
    XorInjective(WordOf(a), WordOf(b), s);
    WordInjective(a, b);
  }

  /* ----- damage across the checksum field and the payload can pass ----- */

  /** One hexadecimal digit of an exclusive or. */
  lemma XorNibble(a: nat, b: nat, r: nat)
    requires Xor(a / 16, b / 16) == r / 16
    requires r % 2 == (a + b) % 2 && r / 2 % 2 == (a / 2 + b / 2) % 2
    requires r / 4 % 2 == (a / 4 + b / 4) % 2 && r / 8 % 2 == (a / 8 + b / 8) % 2
    ensures Xor(a, b) == r
  {
    hide Xor;
    TopDigits(a, b, r);
    TwoDigits(a, b, r);
  }

  lemma TopDigits(a: nat, b: nat, r: nat)
    requires Xor(a / 16, b / 16) == r / 16
    requires r / 4 % 2 == (a / 4 + b / 4) % 2 && r / 8 % 2 == (a / 8 + b / 8) % 2
    ensures Xor(a / 4, b / 4) == r / 4
  {
    hide Xor;
    Quarters(a);
    Quarters(b);
    Quarters(r);
    var x, y, z := a / 4, b / 4, r / 4;
    assert Xor(x / 4, y / 4) == z / 4 && z % 2 == (x + y) % 2 && z / 2 % 2 == (x / 2 + y / 2) % 2;
    TwoDigits(x, y, z);
  }

  lemma Quarters(x: nat)
    ensures x / 4 / 4 == x / 16 && x / 4 / 2 == x / 8
  {
  }

  lemma TwoDigits(a: nat, b: nat, r: nat)
    requires Xor(a / 4, b / 4) == r / 4
    requires r % 2 == (a + b) % 2 && r / 2 % 2 == (a / 2 + b / 2) % 2
    ensures Xor(a, b) == r
  {
    hide Xor;
    assert Xor(a / 2, b / 2) == r / 2 by {
      Halves(a);
      Halves(b);
      Halves(r);
      XorDigit(a / 2, b / 2, r / 2);
    }
    XorDigit(a, b, r);
  }

  lemma Halves(x: nat)
    ensures x / 2 / 2 == x / 4
  {
  }

  lemma XorDigit(a: nat, b: nat, r: nat)
    requires Xor(a / 2, b / 2) == r / 2 && r % 2 == (a + b) % 2
    ensures Xor(a, b) == r
  {
    hide Xor;
    XorHalf(a, b);
    SameHalves(Xor(a, b), r);
  }

  lemma SameHalves(x: nat, y: nat)
    requires x / 2 == y / 2 && x % 2 == y % 2
    ensures x == y
  {
  }

  lemma OddStep1()
    ensures BitStep(0x3A31) == 0xEDB89E38
  {
    hide Xor;
    XorZero(0xedb8);
    XorNibble(0x1, 0xedb88, 0xedb89);
    XorNibble(0x1d, 0xedb883, 0xedb89e);
    XorNibble(0x1d1, 0xedb8832, 0xedb89e3);
    XorNibble(0x1d18, 0xedb88320, 0xedb89e38);
    assert Xor(0x1D18, 0xEDB88320) == 0xEDB89E38;
  }

  lemma OddStep2()
    ensures BitStep(0x1DB713C7) == 0xE3630AC3
  {
    hide Xor;
    XorZero(0xe);
    XorNibble(0xe, 0xed, 0xe3);
    XorNibble(0xed, 0xedb, 0xe36);
    XorNibble(0xedb, 0xedb8, 0xe363);
    XorNibble(0xedb8, 0xedb88, 0xe3630);
    XorNibble(0xedb89, 0xedb883, 0xe3630a);
    XorNibble(0xedb89e, 0xedb8832, 0xe3630ac);
    XorNibble(0xedb89e3, 0xedb88320, 0xe3630ac3);
    assert Xor(0xEDB89E3, 0xEDB88320) == 0xE3630AC3;
  }

  lemma OddStep3()
    ensures BitStep(0xE3630AC3) == 0x9C090641
  {
    hide Xor;
    XorZero(0x0);
    XorNibble(0x7, 0xe, 0x9);
    XorNibble(0x71, 0xed, 0x9c);
    XorNibble(0x71b, 0xedb, 0x9c0);
    XorNibble(0x71b1, 0xedb8, 0x9c09);
    XorNibble(0x71b18, 0xedb88, 0x9c090);
    XorNibble(0x71b185, 0xedb883, 0x9c0906);
    XorNibble(0x71b1856, 0xedb8832, 0x9c09064);
    XorNibble(0x71b18561, 0xedb88320, 0x9c090641);
    assert Xor(0x71B18561, 0xEDB88320) == 0x9C090641;
  }

  lemma OddStep4()
    ensures BitStep(0x9C090641) == 0xA3BC0000
  {
    hide Xor;
    XorZero(0x0);
    XorNibble(0x4, 0xe, 0xa);
    XorNibble(0x4e, 0xed, 0xa3);
    XorNibble(0x4e0, 0xedb, 0xa3b);
    XorNibble(0x4e04, 0xedb8, 0xa3bc);
    XorNibble(0x4e048, 0xedb88, 0xa3bc0);
    XorNibble(0x4e0483, 0xedb883, 0xa3bc00);
    XorNibble(0x4e04832, 0xedb8832, 0xa3bc000);
    XorNibble(0x4e048320, 0xedb88320, 0xa3bc0000);
    assert Xor(0x4E048320, 0xEDB88320) == 0xA3BC0000;
  }

  lemma {:induction false} XorBytesCancel(a: seq<byte>, b: seq<byte>)
    requires |a| == |b|
    ensures XorBytes(a, XorBytes(a, b)) == b
    decreases |a|
  {
    if a != [] {
      XorBytesCancel(a[1..], b[1..]);
      assert XorBytes(a, b)[1..] == XorBytes(a[1..], b[1..]);
      XorTwice(a[0], b[0]);
      assert b == [b[0]] + b[1..];
    }
  }

  lemma XorTwice(a: nat, b: nat)
    ensures Xor(a, Xor(a, b)) == b
  {
    hide Xor;
    XorAssoc(a, a, b);
    XorSelf(a);
    XorZero(b);
  }

  /** The register after the bytes 49, 58 and 0, from zero, fits sixteen bits. */
  lemma SmallRegister()
    ensures Update(0, [49, 58, 0]) == 0x51DE
  {
    hide Xor, BitStep;
    var bytes: seq<byte> := [49, 58, 0];
    assert bytes[1..] == [58, 0] && bytes[1..][1..] == [0] && bytes[1..][1..][1..] == [];
    assert WordOf(bytes) == 0x3A31;
    UpdateWord(0, bytes);
    XorZero(0x3A31);
    Pow2Values();
    BitStepsAdd(0x3A31, 1, 23);
    BitStepsAdd(0xEDB8_9E38, 3, 20);
    BitStepsAdd(0x1DB7_13C7, 3, 17);
    OneStep(0x3A31);
    OddStep1();
    assert 0x1DB7_13C7 * Pow2(3) == 0xEDB8_9E38;
    BitStepsShift(0x1DB7_13C7, 3);
    ThreeSteps();
    Pow2Add(16, 1);
    assert 0x51DE * Pow2(17) == 0xA3BC_0000;
    BitStepsShift(0x51DE, 17);
  }

  lemma OneStep(s: uint32)
    ensures BitSteps(s, 1) == BitStep(s)
  {
  }

  lemma ThreeSteps()
    ensures BitSteps(0x1DB7_13C7, 3) == 0xA3BC_0000
  {
    OddStep2();
    OddStep3();
    OddStep4();
    hide BitStep;
    BitStepsAdd(0x1DB7_13C7, 1, 2);
    BitStepsAdd(0xE363_0AC3, 1, 1);
    OneStep(0x1DB7_13C7);
    OneStep(0xE363_0AC3);
    OneStep(0x9C09_0641);
  }
}
