/** Bitwise operations on unsigned machine words, defined bit by bit on naturals.

The C code works on `uint32_t`.  A word is a natural below 2^32 here, and `And`
and `Xor` are the C operators `&` and `^`.
*/
module Bits {

  const WORD_LIMIT: nat := 0x1_0000_0000
  const ALL_ONES: nat := 0xFFFF_FFFF

  type Word = x: nat | x < WORD_LIMIT

  /** Bitwise conjunction. */
  function And(a: nat, b: nat): (r: nat)
    ensures r <= a && r <= b
    decreases a
  {
    if a == 0 || b == 0 then 0
    else (if a % 2 == 1 && b % 2 == 1 then 1 else 0) + 2 * And(a / 2, b / 2)
  }

  /** Bitwise exclusive or. */
  function Xor(a: nat, b: nat): (r: nat)
    ensures a == 0 ==> r == b
    ensures b == 0 ==> r == a
    decreases a + b
  {
    if a == 0 then b
    else if b == 0 then a
    else (if a % 2 != b % 2 then 1 else 0) + 2 * Xor(a / 2, b / 2)
  }

  function Pow2(k: nat): (r: nat)
    ensures r > 0
  {
    if k == 0 then 1 else 2 * Pow2(k - 1)
  }

  predicate Odd(a: nat)
  {
    a % 2 == 1
  }

  lemma BitAndHalf(bit: nat, half: nat)
    requires bit < 2
    ensures (bit + 2 * half) % 2 == bit && (bit + 2 * half) / 2 == half
  {
  }

  /** A number is its lowest bit and its half. */
  lemma SameNumber(a: nat, b: nat)
    requires Odd(a) == Odd(b) && a / 2 == b / 2
    ensures a == b
  {
  }

  // ---------------------------------------------------------------- And

  /** Programming an erased word stores the data unchanged. */
  lemma {:induction false} AndBelowOnes(k: nat, d: nat)
    requires d < Pow2(k)
    ensures And(Pow2(k) - 1, d) == d
  {
    if d != 0 {
      assert k > 0;
      AndBelowOnes(k - 1, d / 2);
      assert (Pow2(k) - 1) / 2 == Pow2(k - 1) - 1;
    }
  }

  lemma {:induction false} AndSelf(a: nat)
    ensures And(a, a) == a
  {
    if a != 0 {
      AndSelf(a / 2);
    }
  }

  /** Counting up always raises some bit that was clear. */
  lemma {:induction false} AndSuccDiffers(s: nat)
    ensures And(s, s + 1) != s + 1
  {
    if s % 2 == 1 {
      AndSuccDiffers(s / 2);
      assert (s + 1) / 2 == s / 2 + 1;
    }
  }

  /** Counting up leaves the old value readable exactly when it was even. */
  lemma {:induction false} AndSuccKeeps(s: nat)
    ensures And(s, s + 1) == s <==> s % 2 == 0
  {
    if s != 0 {
      var h := And(s / 2, (s + 1) / 2);
      assert And(s, s + 1) == 2 * h;
      AndSelf(s / 2);
      hide And;
      BitAndHalf(0, h);
      if s % 2 == 0 {
        assert (s + 1) / 2 == s / 2;
      }
    }
  }

  lemma Pow32()
    ensures Pow2(31) == 0x8000_0000
    ensures Pow2(32) == WORD_LIMIT
  {
    assert Pow2(8) == 256;
    assert Pow2(16) == 65536;
    assert Pow2(24) == 0x100_0000;
    assert Pow2(31) == 0x8000_0000;
  }

  lemma AndOnes(d: Word)
    ensures And(ALL_ONES, d) == d
  {
    Pow32();
    AndBelowOnes(32, d);
  }

  // ---------------------------------------------------------------- Xor

  lemma {:induction false} XorUnfold(a: nat, b: nat)
    ensures Odd(Xor(a, b)) <==> (Odd(a) <==> !Odd(b))
    ensures Xor(a, b) / 2 == Xor(a / 2, b / 2)
  {
    if a != 0 && b != 0 {
      var h := Xor(a / 2, b / 2);
      var bit := if a % 2 != b % 2 then 1 else 0;
      assert Xor(a, b) == bit + 2 * h;
      hide Xor;
      BitAndHalf(bit, h);
    }
  }

  lemma {:induction false} XorComm(a: nat, b: nat)
    ensures Xor(a, b) == Xor(b, a)
    decreases a + b
  {
    if a != 0 && b != 0 {
      XorComm(a / 2, b / 2);
    }
  }

  lemma {:induction false} XorAssoc(a: nat, b: nat, c: nat)
    ensures Xor(Xor(a, b), c) == Xor(a, Xor(b, c))
    decreases a + b + c
  {
    if a != 0 && b != 0 && c != 0 {
      hide Xor, Odd;
      XorUnfold(a, b);
      XorUnfold(b, c);
      XorUnfold(Xor(a, b), c);
      XorUnfold(a, Xor(b, c));
      XorAssoc(a / 2, b / 2, c / 2);
      SameNumber(Xor(Xor(a, b), c), Xor(a, Xor(b, c)));
    }
  }

  lemma {:induction false} XorSelf(a: nat)
    ensures Xor(a, a) == 0
  {
    if a != 0 {
      XorSelf(a / 2);
    }
  }

  lemma XorCancel(a: nat, b: nat, c: nat)
    requires Xor(a, c) == Xor(b, c)
    ensures a == b
  {
    XorAssoc(a, c, c);
    XorAssoc(b, c, c);
    XorSelf(c);
  }

  lemma {:induction false} XorBound(k: nat, a: nat, b: nat)
    requires a < Pow2(k) && b < Pow2(k)
    ensures Xor(a, b) < Pow2(k)
  {
    if k > 0 {
      XorBound(k - 1, a / 2, b / 2);
      XorUnfold(a, b);
    }
  }

  /** A high bit set on one side only stays set. */
  lemma {:induction false} XorHighBit(k: nat, a: nat, b: nat)
    requires a < Pow2(k) <= b
    ensures Pow2(k) <= Xor(a, b)
  {
    if k == 0 {
    } else {
      XorHighBit(k - 1, a / 2, b / 2);
      XorUnfold(a, b);
    }
  }

  /** h moved up by k bits. */
  function Shl(h: nat, k: nat): (r: nat)
  {
    if k == 0 then h else 2 * Shl(h, k - 1)
  }

  lemma ShlByte(h: nat)
    ensures Shl(h, 8) == 256 * h
  {
    assert Shl(h, 1) == 2 * h;
    assert Shl(h, 3) == 4 * Shl(h, 1);
    assert Shl(h, 5) == 4 * Shl(h, 3);
    assert Shl(h, 7) == 4 * Shl(h, 5);
  }

  /** Numbers that occupy disjoint bit ranges add up by Xor. */
  lemma {:induction false} XorDisjoint(k: nat, low: nat, high: nat)
    requires low < Pow2(k)
    ensures Xor(low, Shl(high, k)) == low + Shl(high, k)
  {
    if k > 0 {
      hide Xor;
      XorDisjoint(k - 1, low / 2, high);
      XorShifted(low, Shl(high, k - 1));
    }
  }

  lemma XorShifted(low: nat, s: nat)
    requires Xor(low / 2, s) == low / 2 + s
    ensures Xor(low, 2 * s) == low + 2 * s
  {
    hide Xor;
    XorUnfold(low, 2 * s);
    BitAndHalf(0, s);
    BitAndHalf(low % 2, low / 2 + s);
    SameNumber(Xor(low, 2 * s), low + 2 * s);
  }

  lemma XorWord(a: Word, b: Word)
    ensures Xor(a, b) < WORD_LIMIT
  {
    Pow32();
    XorBound(32, a, b);
  }
}
