/** The record checksum: CRC-32/ISO-HDLC computed byte by byte, bit by bit.

`CalcParamCrc` is the loop of the C code.  The specification side shows what makes
the checksum useful to the record store: feeding a little-endian word is one
exclusive or followed by 32 invertible bit steps, so two buffers that differ inside
a single aligned word never share a checksum.
*/
module Crc {
  import opened Bits

  const POLYNOMIAL: nat := 0xEDB8_8320

  /** One shift of the reflected register. */
  function BitStep(c: Word): (r: Word)
  {
    XorWord(c / 2, POLYNOMIAL);
    Xor(c / 2, if c % 2 == 1 then POLYNOMIAL else 0)
  }

  function BitSteps(c: Word, n: nat): (r: Word)
    decreases n, c
  {
    if n == 0 then c else BitSteps(BitStep(c), n - 1)
  }

  /** Byte j of a word as the little-endian core stores it. */
  function ByteOf(w: Word, j: nat): (b: nat)
    requires j < 4
    ensures b < 256
  {
    if j == 0 then w % 256
    else if j == 1 then w / 256 % 256
    else if j == 2 then w / 65536 % 256
    else w / 0x100_0000
  }

  function XorIn(c: Word, b: Word): (r: Word)
  {
    XorWord(c, b);
    Xor(c, b)
  }

  /** The register after the first n bytes of a word buffer. */
  function Register(words: seq<Word>, n: nat): (r: Word)
    requires n <= 4 * |words|
  {
    if n == 0 then ALL_ONES
    else BitSteps(XorIn(Register(words, n - 1), ByteOf(words[(n - 1) / 4], (n - 1) % 4)), 8)
  }

  /** The checksum of a buffer: the final register, complemented. */
  function Checksum(words: seq<Word>): (r: Word)
  {
    XorIn(Register(words, 4 * |words|), ALL_ONES)
  }

  /** The checksum loop of the record store (words of the buffer seen as bytes). */
  method CalcParamCrc(buf: seq<Word>, checksumOff: nat) returns (r: Word)
    ensures checksumOff > |buf| ==> r == 0
    ensures checksumOff <= |buf| ==> r == Checksum(buf[..checksumOff])
  {
    if checksumOff > |buf| {
      return 0;
    }
    var crc := FeedBytes(buf[..checksumOff]);
    r := XorIn(crc, ALL_ONES);
  }

  /** The outer loop: all bytes in order of address. */
  method FeedBytes(words: seq<Word>) returns (crc: Word)
    ensures crc == Register(words, 4 * |words|)
  {
    crc := ALL_ONES;
    var i := 0;
    assert Register(words, 0) == ALL_ONES;
    hide *;
    while i < 4 * |words|
      invariant 0 <= i <= 4 * |words|
      invariant crc == Register(words, i)
    {
      NextByte(words, i);
      var w := words[i / 4];
      crc := FeedByte(crc, ByteOf(w, i % 4));
      i := i + 1;
    }
  }

  lemma NextByte(words: seq<Word>, n: nat)
    requires n < 4 * |words|
    ensures Register(words, n + 1) == BitSteps(XorIn(Register(words, n), ByteOf(words[n / 4], n % 4)), 8)
  {
    hide BitSteps, XorIn, ByteOf;
  }

  /** The inner loop: one byte, eight bit steps. */
  method FeedByte(c: Word, b: Word) returns (crc: Word)
    ensures crc == BitSteps(XorIn(c, b), 8)
  {
    hide BitStep, XorIn;
    crc := XorIn(c, b);
    var k := 0;
    while k < 8
      invariant 0 <= k <= 8
      invariant BitSteps(crc, 8 - k) == BitSteps(XorIn(c, b), 8)
    {
      crc := BitStep(crc);
      k := k + 1;
    }
  }

  // ------------------------------------------------ algebra of the bit step

  lemma BitStepLinear(a: Word, b: Word)
    ensures Xor(a, b) < WORD_LIMIT
    ensures BitStep(Xor(a, b)) == Xor(BitStep(a), BitStep(b))
  {
    XorWord(a, b);
    XorUnfold(a, b);
    var pa := if a % 2 == 1 then POLYNOMIAL else 0;
    var pb := if b % 2 == 1 then POLYNOMIAL else 0;
    XorSelf(POLYNOMIAL);
    // (a/2 ^ b/2) ^ (pa ^ pb) == (a/2 ^ pa) ^ (b/2 ^ pb)
    XorAssoc(a / 2, b / 2, Xor(pa, pb));
    XorAssoc(b / 2, pa, pb);
    XorComm(b / 2, pa);
    XorAssoc(pa, b / 2, pb);
    XorAssoc(a / 2, pa, Xor(b / 2, pb));
  }

  /** The top bit of the result tells whether the polynomial was mixed in. */
  lemma BitStepTop(a: Word)
    ensures BitStep(a) >= 0x8000_0000 <==> a % 2 == 1
  {
    Pow32();
    if a % 2 == 1 {
      XorHighBit(31, a / 2, POLYNOMIAL);
    }
  }

  lemma BitStepInjective(a: Word, b: Word)
    requires BitStep(a) == BitStep(b)
    ensures a == b
  {
    BitStepTop(a);
    BitStepTop(b);
    if a % 2 == 1 {
      XorCancel(a / 2, b / 2, POLYNOMIAL);
    }
  }

  lemma {:induction false} BitStepsInjective(a: Word, b: Word, n: nat)
    requires BitSteps(a, n) == BitSteps(b, n)
    ensures a == b
    decreases n
  {
    if n > 0 {
      BitStepsInjective(BitStep(a), BitStep(b), n - 1);
      BitStepInjective(a, b);
    }
  }

  lemma {:induction false} BitStepsLinear(a: Word, b: Word, n: nat)
    ensures Xor(a, b) < WORD_LIMIT
    ensures BitSteps(Xor(a, b), n) == Xor(BitSteps(a, n), BitSteps(b, n))
    decreases n
  {
    hide Xor, BitStep;
    XorWord(a, b);
    if n > 0 {
      BitStepLinear(a, b);
      BitStepsLinear(BitStep(a), BitStep(b), n - 1);
    }
  }

  lemma {:induction false} BitStepsSplit(c: Word, m: nat, n: nat)
    ensures BitSteps(c, m + n) == BitSteps(BitSteps(c, m), n)
    decreases m
  {
    if m > 0 {
      BitStepsSplit(BitStep(c), m - 1, n);
    }
  }

  /** Bits above the first k merely move down during k steps. */
  lemma {:induction false} BitStepsShift(k: nat, rest: nat)
    requires Shl(rest, k) < WORD_LIMIT
    ensures rest < WORD_LIMIT
    ensures BitSteps(Shl(rest, k), k) == rest
  {
    if k > 0 {
      BitStepsShift(k - 1, rest);
    }
  }

  lemma ShiftOutByte(rest: nat)
    requires 256 * rest < WORD_LIMIT
    ensures BitSteps(256 * rest, 8) == rest
  {
    ShlByte(rest);
    BitStepsShift(8, rest);
  }

  lemma XorSplitByte(c: Word, b: nat, rest: nat)
    requires b < 256 && b + 256 * rest < WORD_LIMIT
    ensures Xor(c, b + 256 * rest) == Xor(XorIn(c, b), 256 * rest)
  {
    assert Pow2(8) == 256;
    ShlByte(rest);
    XorDisjoint(8, b, rest);
    XorAssoc(c, b, 256 * rest);
  }

  /** The register after one more byte. */
  function ByteRound(c: Word, b: Word): (r: Word)
  {
    BitSteps(XorIn(c, b), 8)
  }

  /** The register after one more word, fed whole. */
  function WordRound(c: Word, w: Word, n: nat): (r: Word)
  {
    BitSteps(XorIn(c, w), n)
  }

  /** Eight steps consume the low byte and leave the rest still to be fed. */
  lemma ShiftInByte(c: Word, b: nat, rest: nat, n: nat)
    requires b < 256 && b + 256 * rest < WORD_LIMIT
    ensures WordRound(c, b + 256 * rest, 8 + n) == WordRound(ByteRound(c, b), rest, n)
  {
    var x := XorIn(c, b);
    XorSplitByte(c, b, rest);
    BitStepsLinear(x, 256 * rest, 8);
    ShiftOutByte(rest);
    BitStepsSplit(XorIn(c, b + 256 * rest), 8, n);
  }

  // ------------------------------------------------ detection

  /** Four byte rounds equal one word exclusive or and 32 bit steps. */
  lemma FourByteRounds(c: Word, b0: nat, b1: nat, b2: nat, b3: nat)
    requires b0 < 256 && b1 < 256 && b2 < 256 && b3 < 256
    ensures ByteRound(ByteRound(ByteRound(ByteRound(c, b0), b1), b2), b3)
         == WordRound(c, b0 + 256 * (b1 + 256 * (b2 + 256 * b3)), 32)
  {
    hide ByteRound, WordRound;
    var c1 := ByteRound(c, b0);
    var c2 := ByteRound(c1, b1);
    ShiftInByte(c, b0, b1 + 256 * (b2 + 256 * b3), 24);
    ShiftInByte(c1, b1, b2 + 256 * b3, 16);
    ShiftInByte(c2, b2, b3, 8);
    LastByte(ByteRound(c2, b2), b3);
  }

  lemma LastByte(c: Word, b: Word)
    ensures WordRound(c, b, 8) == ByteRound(c, b)
  {
  }

  lemma BytesOfWord(w: Word)
    ensures w == ByteOf(w, 0) + 256 * (ByteOf(w, 1) + 256 * (ByteOf(w, 2) + 256 * ByteOf(w, 3)))
  {
    assert w / 256 / 256 == w / 65536;
    assert w / 65536 / 256 == w / 0x100_0000;
  }

  /** The register when the buffer is fed word by word. */
  function WordRegister(words: seq<Word>, k: nat): (r: Word)
    requires k <= |words|
  {
    if k == 0 then ALL_ONES else WordRound(WordRegister(words, k - 1), words[k - 1], 32)
  }

  lemma RegisterStep(words: seq<Word>, k: nat, j: nat)
    requires k < |words| && j < 4
    ensures Register(words, 4 * k + j + 1) == ByteRound(Register(words, 4 * k + j), ByteOf(words[k], j))
  {
    assert (4 * k + j) / 4 == k && (4 * k + j) % 4 == j;
  }

  /** Little-endian: the four byte rounds of a word are one word round. */
  lemma ByteRoundsOfWord(r: Word, w: Word)
    ensures ByteRound(ByteRound(ByteRound(ByteRound(r, ByteOf(w, 0)), ByteOf(w, 1)), ByteOf(w, 2)), ByteOf(w, 3))
         == WordRound(r, w, 32)
  {
    hide *;
    FourByteRounds(r, ByteOf(w, 0), ByteOf(w, 1), ByteOf(w, 2), ByteOf(w, 3));
    BytesOfWord(w);
  }

  lemma RegisterWord(words: seq<Word>, k: nat)
    requires k < |words|
    ensures Register(words, 4 * k + 4) == WordRound(Register(words, 4 * k), words[k], 32)
  {
    hide Register, ByteRound, WordRound, ByteOf;
    ByteRoundsOfWord(Register(words, 4 * k), words[k]);
    RegisterStep(words, k, 0);
    RegisterStep(words, k, 1);
    RegisterStep(words, k, 2);
    RegisterStep(words, k, 3);
  }

  /** Feeding whole words gives what feeding their bytes gives. */
  lemma {:induction false} ByteAndWordFeedsAgree(words: seq<Word>, k: nat)
    requires k <= |words|
    ensures Register(words, 4 * k) == WordRegister(words, k)
  {
    hide Register, WordRound;
    if k > 0 {
      ByteAndWordFeedsAgree(words, k - 1);
      RegisterWord(words, k - 1);
    } else {
      RegisterStart(words);
    }
  }

  lemma RegisterStart(words: seq<Word>)
    ensures Register(words, 0) == ALL_ONES
  {
  }

  /** A word round loses nothing, neither of the register nor of the word. */
  lemma WordRoundInjective(c: Word, d: Word, v: Word, w: Word, n: nat)
    requires WordRound(c, v, n) == WordRound(d, w, n)
    ensures c == d <==> v == w
  {
    BitStepsInjective(XorIn(c, v), XorIn(d, w), n);
    if v == w {
      XorCancel(c, d, v);
    }
    if c == d {
      XorComm(c, v);
      XorComm(c, w);
      XorCancel(v, w, c);
    }
  }

  lemma {:induction false} RegisterPrefix(a: seq<Word>, b: seq<Word>, k: nat)
    requires k <= |a| && k <= |b|
    requires forall i :: 0 <= i < k ==> a[i] == b[i]
    ensures WordRegister(a, k) == WordRegister(b, k)
  {
    if k > 0 {
      RegisterPrefix(a, b, k - 1);
    }
  }

  /** Registers that differ before a run of equal words still differ after it. */
  lemma {:induction false} DifferenceSurvives(a: seq<Word>, b: seq<Word>, j: nat, k: nat)
    requires j <= k <= |a| == |b|
    requires forall i :: j <= i < k ==> a[i] == b[i]
    requires WordRegister(a, j) != WordRegister(b, j)
    ensures WordRegister(a, k) != WordRegister(b, k)
    decreases k
  {
    hide *;
    if j < k {
      DifferenceSurvives(a, b, j, k - 1);
      AfterWord(a, b, k - 1);
    }
  }

  /** A difference in either the register or the next word, but not both, survives that word. */
  lemma AfterWord(a: seq<Word>, b: seq<Word>, k: nat)
    requires k < |a| == |b|
    requires WordRegister(a, k) == WordRegister(b, k) <==> a[k] != b[k]
    ensures WordRegister(a, k + 1) != WordRegister(b, k + 1)
  {
    var ra, rb := WordRegister(a, k), WordRegister(b, k);
    if WordRound(ra, a[k], 32) == WordRound(rb, b[k], 32) {
      WordRoundInjective(ra, rb, a[k], b[k], 32);
    }
  }

  lemma FinalXorInjective(a: Word, b: Word)
    requires XorIn(a, ALL_ONES) == XorIn(b, ALL_ONES)
    ensures a == b
  {
    XorCancel(a, b, ALL_ONES);
  }

  /** Two buffers that differ only inside one aligned word have different checksums. */
  lemma OneWordDetected(a: seq<Word>, b: seq<Word>, k: nat)
    requires |a| == |b| && k < |a|
    requires forall i :: 0 <= i < |a| && i != k ==> a[i] == b[i]
    requires a[k] != b[k]
    ensures Checksum(a) != Checksum(b)
  {
    RegisterPrefix(a, b, k);
    AfterWord(a, b, k);
    DifferenceSurvives(a, b, k + 1, |a|);
    ByteAndWordFeedsAgree(a, |a|);
    ByteAndWordFeedsAgree(b, |b|);
    if Checksum(a) == Checksum(b) {
      FinalXorInjective(Register(a, 4 * |a|), Register(b, 4 * |b|));
    }
  }
}
