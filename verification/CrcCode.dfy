/** Which code the checksum is: CRC-32/ISO-HDLC.

The register is a polynomial over the two-element field with its highest power in the
lowest bit.  One bit step multiplies it by x modulo the generator, and a buffer followed
by its own checksum always leaves the residue of the code.  Constants are computed on
machine words, whose operators are shown to be those of module Bits.
*/
module CrcCode {
  import opened Bits
  import opened Crc

  // ------------------------------------------------ machine words

  type Machine = bv32

  function Half(x: Machine): (r: Machine)
  {
    x >> 1
  }

  function Low(x: Machine): (r: nat)
    ensures r < 2
  {
    if x & 1 == 1 then 1 else 0
  }

  function Both(x: Machine, y: Machine): (r: Machine)
  {
    x & y
  }

  function Either(x: Machine, y: Machine): (r: Machine)
  {
    x | y
  }

  function Differ(x: Machine, y: Machine): (r: Machine)
  {
    x ^ y
  }

  /** The number that a machine word stands for. */
  function Number(x: Machine): (r: nat)
    decreases x
  {
    if x == 0 then 0 else Low(x) + 2 * Number(Half(x))
  }

  lemma NumberHalf(x: Machine)
    ensures Number(x) / 2 == Number(Half(x)) && (Odd(Number(x)) <==> Low(x) == 1)
  {
    BitAndHalf(Low(x), Number(Half(x)));
  }

  lemma HalfLess(x: Machine)
    ensures x != 0 ==> Half(x) < x
  {
  }

  lemma HalfDiffer(x: Machine, y: Machine)
    ensures Half(Differ(x, y)) == Differ(Half(x), Half(y))
  {
  }

  lemma HalfBoth(x: Machine, y: Machine)
    ensures Half(Both(x, y)) == Both(Half(x), Half(y))
  {
  }

  lemma HalfEither(x: Machine, y: Machine)
    ensures Half(Either(x, y)) == Either(Half(x), Half(y))
  {
  }

  lemma LowBits(x: Machine, y: Machine)
    ensures Low(Differ(x, y)) == 1 <==> (Low(x) == 1 <==> Low(y) != 1)
    ensures Low(Both(x, y)) == 1 <==> Low(x) == 1 && Low(y) == 1
  {
  }

  lemma Nothing(x: Machine, y: Machine)
    requires Either(x, y) == 0
    ensures Number(Differ(x, y)) == Xor(Number(x), Number(y))
    ensures Number(Both(x, y)) == And(Number(x), Number(y))
  {
    assert x == 0 && y == 0;
  }

  /** `Xor` and `And` are the operators of the machine. */
  lemma {:induction false} MachineOperators(x: Machine, y: Machine)
    ensures Number(Differ(x, y)) == Xor(Number(x), Number(y))
    ensures Number(Both(x, y)) == And(Number(x), Number(y))
    decreases Either(x, y)
  {
    hide *;
    if Either(x, y) == 0 {
      Nothing(x, y);
    } else {
      HalfEither(x, y);
      HalfLess(Either(x, y));
      MachineOperators(Half(x), Half(y));
      SameBits(x, y);
    }
  }

  lemma SameBits(x: Machine, y: Machine)
    requires Number(Differ(Half(x), Half(y))) == Xor(Number(Half(x)), Number(Half(y)))
    requires Number(Both(Half(x), Half(y))) == And(Number(Half(x)), Number(Half(y)))
    ensures Number(Differ(x, y)) == Xor(Number(x), Number(y))
    ensures Number(Both(x, y)) == And(Number(x), Number(y))
  {
    hide *;
    var a, b := Number(x), Number(y);
    HalfDiffer(x, y);
    HalfBoth(x, y);
    LowBits(x, y);
    NumberHalf(x);
    NumberHalf(y);
    NumberHalf(Differ(x, y));
    NumberHalf(Both(x, y));
    XorUnfold(a, b);
    AndUnfold(a, b);
    SameNumber(Number(Differ(x, y)), Xor(a, b));
    SameNumber(Number(Both(x, y)), And(a, b));
  }

  lemma AndUnfold(a: nat, b: nat)
    ensures Odd(And(a, b)) <==> Odd(a) && Odd(b)
    ensures And(a, b) / 2 == And(a / 2, b / 2)
  {
    if a != 0 && b != 0 {
      var h, bit := And(a / 2, b / 2), if a % 2 == 1 && b % 2 == 1 then 1 else 0;
      assert And(a, b) == bit + 2 * h;
      hide And;
      BitAndHalf(bit, h);
    }
  }

  // ------------------------------------------------ the residue

  const RESIDUE: Word := 0xDEBB_20E3

  /** The bit step as the machine computes it. */
  function MachineStep(c: Machine): (r: Machine)
  {
    Differ(Half(c), if Low(c) == 1 then 0xEDB8_8320 else 0)
  }

  function MachineSteps(c: Machine, n: nat): (r: Machine)
    decreases n, c
  {
    if n == 0 then c else MachineSteps(MachineStep(c), n - 1)
  }

  lemma NumberOfPolynomial()
    ensures Number(0) == 0 && Number(0xEDB8_8320) == POLYNOMIAL
  {
    assert Number(0xED) == 0xED;
    assert Number(0xEDB) == 0xEDB;
    assert Number(0xEDB8) == 0xEDB8;
    assert Number(0xE_DB88) == 0xE_DB88;
    assert Number(0xED_B883) == 0xED_B883;
    assert Number(0xEDB_8832) == 0xEDB_8832;
  }

  lemma NumberOfOnes()
    ensures Number(0xFFFF_FFFF) == ALL_ONES
  {
    assert Number(0xFF) == 0xFF;
    assert Number(0xFFFF) == 0xFFFF;
    assert Number(0xFF_FFFF) == 0xFF_FFFF;
  }

  lemma NumberOfResidue()
    ensures Number(0xDEBB_20E3) == RESIDUE
  {
    assert Number(0xDE) == 0xDE;
    assert Number(0xDEB) == 0xDEB;
    assert Number(0xDEBB) == 0xDEBB;
    assert Number(0xD_EBB2) == 0xD_EBB2;
    assert Number(0xDE_BB20) == 0xDE_BB20;
    assert Number(0xDEB_B20E) == 0xDEB_B20E;
  }

  lemma NumberOfChecksum()
    ensures Number(0x2144_DF1C) == 0x2144_DF1C
  {
    assert Number(0x21) == 0x21;
    assert Number(0x2144) == 0x2144;
    assert Number(0x21_44DF) == 0x21_44DF;
  }

  lemma StepAgrees(c: Machine)
    requires Number(c) < WORD_LIMIT
    ensures BitStep(Number(c)) == Number(MachineStep(c))
  {
    NumberOfPolynomial();
    NumberHalf(c);
    MachineOperators(Half(c), if Low(c) == 1 then 0xEDB8_8320 else 0);
    hide Number, Half, Low, Differ, Xor;
  }

  lemma {:induction false} StepsAgree(c: Machine, n: nat)
    requires Number(c) < WORD_LIMIT
    ensures BitSteps(Number(c), n) == Number(MachineSteps(c, n))
    decreases n
  {
    hide BitStep, MachineStep, Number;
    if n > 0 {
      StepAgrees(c);
      StepsAgree(MachineStep(c), n - 1);
    }
  }

  lemma OnesLeaveResidue()
    ensures BitSteps(ALL_ONES, 32) == RESIDUE
  {
    assert MachineSteps(0x00BE_26ED, 8) == 0xDEBB_20E3;
    assert MachineSteps(0xBE26_ED00, 16) == 0xDEBB_20E3;
    assert MachineSteps(0x2DFD_1072, 24) == 0xDEBB_20E3;
    assert MachineSteps(0xFFFF_FFFF, 32) == 0xDEBB_20E3;
    hide *;
    NumberOfOnes();
    NumberOfResidue();
    StepsAgree(0xFFFF_FFFF, 32);
  }

  lemma ComplementedIn(r: Word)
    ensures XorIn(r, XorIn(r, ALL_ONES)) == ALL_ONES
  {
    XorAssoc(r, r, ALL_ONES);
    XorSelf(r);
  }

  lemma SamePrefix(words: seq<Word>, w: Word)
    ensures Register(words + [w], 4 * |words|) == Register(words, 4 * |words|)
  {
    ByteAndWordFeedsAgree(words + [w], |words|);
    ByteAndWordFeedsAgree(words, |words|);
    RegisterPrefix(words + [w], words, |words|);
  }

  /** Every buffer followed by its own checksum leaves the residue of CRC-32/ISO-HDLC. */
  lemma ResidueLaw(words: seq<Word>)
    ensures Register(words + [Checksum(words)], 4 * (|words| + 1)) == RESIDUE
  {
    hide *;
    LastRound(words, Checksum(words));
    ChecksumRound(words);
    OnesLeaveResidue();
  }

  lemma LastRound(words: seq<Word>, c: Word)
    ensures Register(words + [c], 4 * (|words| + 1)) == WordRound(Register(words, 4 * |words|), c, 32)
  {
    hide *;
    SamePrefix(words, c);
    RegisterWord(words + [c], |words|);
  }

  lemma ChecksumRound(words: seq<Word>)
    ensures WordRound(Register(words, 4 * |words|), Checksum(words), 32) == BitSteps(ALL_ONES, 32)
  {
    hide Register, BitSteps;
    ComplementedIn(Register(words, 4 * |words|));
  }

  /** The checksum of one zero word. */
  lemma KnownChecksum()
    ensures Checksum([0]) == 0x2144_DF1C
  {
    RegisterWord([0], 0);
    assert Register([0], 0) == ALL_ONES && XorIn(ALL_ONES, 0) == ALL_ONES;
    OnesLeaveResidue();
    assert Differ(0xDEBB_20E3, 0xFFFF_FFFF) == 0x2144_DF1C;
    hide Number, Differ, Xor, BitSteps;
    NumberOfOnes();
    NumberOfResidue();
    NumberOfChecksum();
    MachineOperators(0xDEBB_20E3, 0xFFFF_FFFF);
  }

  // ------------------------------------------------ the generator

  /** Two numbers cut at bit k. */
  lemma {:induction false} XorParts(k: nat, l: nat, h: nat, m: nat, i: nat)
    requires l < Pow2(k) && m < Pow2(k)
    ensures Xor(l + Shl(h, k), m + Shl(i, k)) == Xor(l, m) + Shl(Xor(h, i), k)
  {
    hide Xor;
    if k > 0 {
      XorParts(k - 1, l / 2, h, m / 2, i);
      XorPartsStep(l, Shl(h, k - 1), m, Shl(i, k - 1), Shl(Xor(h, i), k - 1));
    } else {
      XorSelf(0);
    }
  }

  lemma HalfParts(l: nat, s: nat)
    ensures (l + 2 * s) / 2 == l / 2 + s && Odd(l + 2 * s) == Odd(l)
  {
  }

  lemma XorPartsStep(l: nat, s: nat, m: nat, t: nat, u: nat)
    requires Xor(l / 2 + s, m / 2 + t) == Xor(l / 2, m / 2) + u
    ensures Xor(l + 2 * s, m + 2 * t) == Xor(l, m) + 2 * u
  {
    hide Xor, Odd;
    HalfParts(l, s);
    HalfParts(m, t);
    HalfParts(Xor(l, m), u);
    XorUnfold(l, m);
    XorUnfold(l + 2 * s, m + 2 * t);
    SameNumber(Xor(l + 2 * s, m + 2 * t), Xor(l, m) + 2 * u);
  }

  function TopBit(c: nat, n: nat): (r: nat)
  {
    if c % 2 == 1 then Pow2(n) else 0
  }

  /** The low n bits in the opposite order. */
  function Mirror(c: nat, n: nat): (r: nat)
    ensures r < Pow2(n)
    decreases n, c
  {
    if n == 0 then 0 else Mirror(c / 2, n - 1) + TopBit(c, n - 1)
  }

  lemma {:induction false} ShlBit(c: nat, k: nat)
    ensures Shl(c % 2, k) == TopBit(c, k)
    decreases k
  {
    if k > 0 {
      ShlBit(c, k - 1);
    }
  }

  lemma XorBit(a: nat, b: nat)
    ensures Xor(a, b) % 2 == Xor(a % 2, b % 2)
  {
    XorUnfold(a, b);
    XorUnfold(a % 2, b % 2);
    assert Xor(0, 0) == 0;
  }

  /** Mirroring keeps exclusive or. */
  lemma {:induction false} MirrorXor(a: nat, b: nat, n: nat)
    ensures Mirror(Xor(a, b), n) == Xor(Mirror(a, n), Mirror(b, n))
    decreases n
  {
    hide Xor, Odd, Shl, TopBit;
    if n > 0 {
      MirrorXor(a / 2, b / 2, n - 1);
      XorUnfold(a, b);
      XorBit(a, b);
      ShlBit(a, n - 1);
      ShlBit(b, n - 1);
      ShlBit(Xor(a, b), n - 1);
      XorParts(n - 1, Mirror(a / 2, n - 1), a % 2, Mirror(b / 2, n - 1), b % 2);
    } else {
      XorSelf(0);
    }
  }

  lemma {:induction false} MirrorSmall(c: nat, n: nat)
    requires c < Pow2(n)
    ensures Mirror(c, n + 1) == 2 * Mirror(c, n)
    decreases n
  {
    if n > 0 {
      MirrorSmall(c / 2, n - 1);
    }
  }

  /** x^32 + x^26 + x^23 + x^22 + x^16 + x^12 + x^11 + x^10 + x^8 + x^7 + x^5 + x^4 + x^2 + x + 1. */
  const EXPONENTS: seq<nat> := [32, 26, 23, 22, 16, 12, 11, 10, 8, 7, 5, 4, 2, 1, 0]

  function Polynomial(exponents: seq<nat>): (p: nat)
    decreases |exponents|
  {
    if exponents == [] then 0 else Pow2(exponents[0]) + Polynomial(exponents[1..])
  }

  /** Multiplication by x modulo the generator, with the power k in bit k. */
  function TimesX(p: nat): (r: nat)
  {
    if 2 * p < WORD_LIMIT then 2 * p else Xor(2 * p, Polynomial(EXPONENTS))
  }

  lemma Generator()
    ensures Polynomial(EXPONENTS) == 0x04C1_1DB7 + WORD_LIMIT
  {
    Pow32();
    SmallPowers();
    LowTerms();
    hide Pow2;
    assert EXPONENTS[1..][1..][1..][1..][1..] == LOW_EXPONENTS;
  }

  const LOW_EXPONENTS: seq<nat> := [12, 11, 10, 8, 7, 5, 4, 2, 1, 0]

  lemma LowTerms()
    ensures Polynomial(LOW_EXPONENTS) == 0x1DB7
  {
    SmallPowers();
    hide Pow2;
    assert LOW_EXPONENTS[1..][1..][1..][1..][1..] == [5, 4, 2, 1, 0];
    assert Polynomial([5, 4, 2, 1, 0]) == 55;
  }

  lemma SmallPowers()
    ensures Pow2(0) == 1 && Pow2(1) == 2 && Pow2(2) == 4 && Pow2(4) == 16 && Pow2(5) == 32 && Pow2(7) == 128
    ensures Pow2(8) == 256 && Pow2(10) == 1024 && Pow2(11) == 2048 && Pow2(12) == 4096 && Pow2(16) == 65536
    ensures Pow2(22) == 0x40_0000 && Pow2(23) == 0x80_0000 && Pow2(26) == 0x400_0000
  {
  }

  lemma MirrorPolynomial()
    ensures Mirror(POLYNOMIAL, 32) == 0x04C1_1DB7
  {
    hide *;
    MirrorHigh();
    MirrorLow();
  }

  lemma MirrorHigh()
    ensures Mirror(0xEDB8, 16) == 0x1DB7
  {
    assert Mirror(0xE, 4) == 0x7;
    assert Mirror(0xED, 8) == 0xB7;
    assert Mirror(0xEDB, 12) == 0xDB7;
  }

  lemma MirrorLow()
    requires Mirror(0xEDB8, 16) == 0x1DB7
    ensures Mirror(POLYNOMIAL, 32) == 0x04C1_1DB7
  {
    SmallPowers();
    Pow32();
    assert Mirror(0xED_B883, 24) == 0xC1_1DB7;
  }

  lemma EvenStep(c: Word)
    requires c % 2 == 0
    ensures Mirror(BitStep(c), 32) == TimesX(Mirror(c, 32))
  {
    Pow32();
    assert BitStep(c) == c / 2;
    MirrorSmall(c / 2, 31);
    assert TopBit(c, 31) == 0;
    assert Mirror(c, 32) == Mirror(c / 2, 31);
    hide Mirror, BitStep, Xor, Polynomial;
  }

  lemma OddBitStep(c: Word)
    requires c % 2 == 1
    ensures BitStep(c) == Xor(c / 2, POLYNOMIAL)
  {
    hide Xor;
  }

  lemma OddMirror(c: Word)
    requires c % 2 == 1
    ensures Mirror(c / 2, 31) < 0x8000_0000
    ensures Mirror(c, 32) == Mirror(c / 2, 31) + 0x8000_0000
  {
    Pow32();
    assert TopBit(c, 31) == Pow2(31);
    hide Pow2;
  }

  /** Beyond 31 the generator comes in. */
  lemma TimesXOver(low: nat)
    requires low < 0x8000_0000
    ensures TimesX(low + 0x8000_0000) == Xor(2 * low, 0x04C1_1DB7)
  {
    Generator();
    hide Polynomial, Xor;
    XorTop(2 * low, 0x04C1_1DB7);
  }

  lemma OddStep(c: Word)
    requires c % 2 == 1
    ensures Mirror(BitStep(c), 32) == TimesX(Mirror(c, 32))
  {
    hide Mirror, Xor, BitStep, TimesX, Pow2, Shl, TopBit, Polynomial;
    Pow32();
    OddBitStep(c);
    OddMirror(c);
    MirrorSmall(c / 2, 31);
    MirrorXor(c / 2, POLYNOMIAL, 32);
    MirrorPolynomial();
    TimesXOver(Mirror(c / 2, 31));
  }

  /** Each bit step of the register multiplies its polynomial by x modulo the generator. */
  lemma BitStepIsTimesX(c: Word)
    ensures Mirror(BitStep(c), 32) == TimesX(Mirror(c, 32))
  {
    hide *;
    if c % 2 == 0 {
      EvenStep(c);
    } else {
      OddStep(c);
    }
  }

  /** Two numbers with bit 32 set lose it. */
  lemma XorTop(a: Word, b: Word)
    ensures Xor(a + WORD_LIMIT, b + WORD_LIMIT) == Xor(a, b)
  {
    Pow32();
    ShlBit(1, 32);
    ShlBit(0, 32);
    XorSelf(1);
    hide Xor, Shl, Pow2;
    XorParts(32, a, 1, b, 1);
  }
}
