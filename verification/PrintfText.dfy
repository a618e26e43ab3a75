/** What a format string stands for.

Numbers are specified by their low-order digits, so that what is printed can be read back;
field width, precision, sign and padding follow the documented conversion syntax.
*/
module PrintfText {
  import opened Ring

  const LIMIT: nat := 0x1_0000_0000

  const SPACE: Byte := 0x20
  const HASH: Byte := 0x23
  const PERCENT: Byte := 0x25
  const PLUS: Byte := 0x2B
  const MINUS: Byte := 0x2D
  const DOT: Byte := 0x2E
  const ZERO: Byte := 0x30
  const NINE: Byte := 0x39

  // conversion letters: X c d h l p s u x
  const BIG_X: Byte := 0x58
  const LOW_C: Byte := 0x63
  const LOW_D: Byte := 0x64
  const LOW_H: Byte := 0x68
  const LOW_L: Byte := 0x6C
  const LOW_P: Byte := 0x70
  const LOW_S: Byte := 0x73
  const LOW_U: Byte := 0x75
  const LOW_X: Byte := 0x78

  // ------------------------------------------------ numbers

  function DigitChar(d: nat): (c: Byte)
    requires d < 16
  {
    if d < 10 then 0x30 + d else 0x41 + d - 10
  }

  function Pow(base: nat, k: nat): (r: nat)
    requires base > 0
    ensures r > 0
  {
    if k == 0 then 1 else base * Pow(base, k - 1)
  }

  /** How many digits v has. */
  function NumLen(v: nat, base: nat): (n: nat)
    requires base >= 2
    ensures n >= 1
    decreases v
  {
    if v < base then 1 else (DivSmaller(v, base); 1 + NumLen(v / base, base))
  }

  /** The k low-order digits of v, most significant first. */
  function LowDigits(v: nat, base: nat, k: nat): (s: seq<Byte>)
    requires 2 <= base <= 16
    ensures |s| == k
    decreases k
  {
    if k == 0 then [] else LowDigits(v / base, base, k - 1) + [DigitChar(v % base)]
  }

  /** Reading digits back. */
  function DigitValue(c: Byte): (d: nat)
  {
    if c >= 0x41 then c - 0x41 + 10 else if c >= 0x30 then c - 0x30 else 0
  }

  function Value(s: seq<Byte>, base: nat): (v: nat)
    decreases |s|
  {
    if s == [] then 0 else Value(s[..|s| - 1], base) * base + DigitValue(s[|s| - 1])
  }

  function Fill(c: Byte, n: nat): (s: seq<Byte>)
    ensures |s| == n && forall i :: 0 <= i < n ==> s[i] == c
  {
    seq(n, _ => c)
  }

  function Max(a: nat, b: nat): (r: nat)
  {
    if a < b then b else a
  }

  /** a - b, or zero. */
  function Short(a: nat, b: nat): (r: nat)
  {
    if a < b then 0 else a - b
  }

  datatype Flags = Flags(left: bool, zero: bool, plus: bool)

  /** The digits of a number: all of them, and at least as many as the precision asks for. */
  function Body(v: nat, base: nat, prec: nat): (s: seq<Byte>)
    requires 2 <= base <= 16
    ensures |s| == Max(NumLen(v, base), prec)
  {
    LowDigits(v, base, Max(NumLen(v, base), prec))
  }

  function UnsignedText(v: nat, base: nat, prec: nat, width: nat, f: Flags): (s: seq<Byte>)
    requires 2 <= base <= 16
  {
    var body := Body(v, base, prec);
    var pad := Short(width, |body|);
    if f.left then body + Fill(SPACE, pad)
    else Fill(if f.zero && prec == 0 then ZERO else SPACE, pad) + body
  }

  function Sign(v: int, f: Flags): (s: seq<Byte>)
    ensures |s| <= 1
  {
    if v < 0 then [MINUS] else if f.plus then [PLUS] else []
  }

  function Abs(v: int): (r: nat)
  {
    if v < 0 then -v else v
  }

  function IntText(v: int, base: nat, prec: nat, width: nat, f: Flags): (s: seq<Byte>)
    requires 2 <= base <= 16
  {
    var sign, body := Sign(v, f), Body(Abs(v), base, prec);
    var pad := Short(width, |sign| + |body|);
    if f.left then sign + body + Fill(SPACE, pad)
    else if f.zero && prec == 0 then sign + Fill(ZERO, pad) + body
    else Fill(SPACE, pad) + sign + body
  }

  // ------------------------------------------------ the format string

  datatype Arg = Int(v: int) | Str(s: seq<Byte>)

  /** The character at i, NUL behind the last. */
  function At(fmt: seq<Byte>, i: nat): (c: Byte)
  {
    if i < |fmt| then fmt[i] else 0
  }

  predicate IsFlag(c: Byte)
  {
    c == MINUS || c == ZERO || c == PLUS || c == HASH
  }

  predicate IsDigit(c: Byte)
  {
    ZERO <= c <= NINE
  }

  predicate IsLength(c: Byte)
  {
    c == LOW_L || c == LOW_H
  }

  function AddFlag(f: Flags, c: Byte): (g: Flags)
  {
    Flags(f.left || c == MINUS, f.zero || c == ZERO, f.plus || c == PLUS)
  }

  /** Flags from i on, and where they end. */
  function FlagsFrom(fmt: seq<Byte>, i: nat, f: Flags): (r: (Flags, nat))
    ensures r.1 >= i && (i <= |fmt| ==> r.1 <= |fmt|)
    decreases |fmt| - i
  {
    if i < |fmt| && IsFlag(fmt[i]) then FlagsFrom(fmt, i + 1, AddFlag(f, fmt[i])) else (f, i)
  }

  /** A decimal number from i on (in unsigned arithmetic), and where it ends. */
  function NumberFrom(fmt: seq<Byte>, i: nat, n: nat): (r: (nat, nat))
    requires n < LIMIT
    ensures r.1 >= i && r.0 < LIMIT && (i <= |fmt| ==> r.1 <= |fmt|)
    decreases |fmt| - i
  {
    if i < |fmt| && IsDigit(fmt[i]) then NumberFrom(fmt, i + 1, (n * 10 + (fmt[i] - ZERO)) % LIMIT) else (n, i)
  }

  function LengthFrom(fmt: seq<Byte>, i: nat): (j: nat)
    ensures j >= i && (i <= |fmt| ==> j <= |fmt|)
    decreases |fmt| - i
  {
    if i < |fmt| && IsLength(fmt[i]) then LengthFrom(fmt, i + 1) else i
  }

  datatype Spec = Spec(flags: Flags, width: nat, prec: nat)

  /** The conversion specification that starts at i; `next` is where its letter stands. */
  function SpecFrom(fmt: seq<Byte>, i: nat): (r: (Spec, nat))
    requires i <= |fmt|
    ensures i <= r.1 <= |fmt| && r.0.width < LIMIT && r.0.prec < LIMIT
  {
    var (f, a) := FlagsFrom(fmt, i, Flags(false, false, false));
    var (w, b) := NumberFrom(fmt, a, 0);
    var (p, c) := if At(fmt, b) == DOT then NumberFrom(fmt, b + 1, 0) else (0, b);
    (Spec(f, w, p), LengthFrom(fmt, c))
  }

  predicate TakesInt(c: Byte)
  {
    c == LOW_C || c == LOW_D || c == LOW_U || c == LOW_X || c == BIG_X || c == LOW_P
  }

  /** The conversion is one the formatter can carry out: its argument is there and of the right kind,
      an `int` other than the most negative one where a sign is printed, and the precision does not
      overflow the digit divisor. */
  predicate Accepts(sp: Spec, c: Byte, args: seq<Arg>)
  {
    && (TakesInt(c) ==> args != [] && args[0].Int? && -0x8000_0000 <= args[0].v < 0x8000_0000)
    && (c == LOW_S ==> args != [] && args[0].Str? && 0 !in args[0].s)
    && (c == LOW_D ==> args[0].v != -0x8000_0000)
    && (c == LOW_D || c == LOW_U ==> sp.prec <= 10)
    && (c == LOW_X || c == BIG_X ==> sp.prec <= 8)
  }

  function Unsigned(v: int): (r: nat)
    ensures r < LIMIT
  {
    v % LIMIT
  }

  /** The text of one conversion. */
  function Piece(sp: Spec, c: Byte, args: seq<Arg>): (s: seq<Byte>)
    requires Accepts(sp, c, args)
  {
    if c == LOW_C then [args[0].v % 256]
    else if c == LOW_D then IntText(args[0].v, 10, sp.prec, sp.width, sp.flags)
    else if c == LOW_U then UnsignedText(Unsigned(args[0].v), 10, sp.prec, sp.width, sp.flags)
    else if c == LOW_X || c == BIG_X then UnsignedText(Unsigned(args[0].v), 16, sp.prec, sp.width, sp.flags)
    else if c == LOW_S then args[0].s
    else if c == LOW_P then UnsignedText(Unsigned(args[0].v), 16, 8, 8, Flags(false, false, false))
    else if c == PERCENT then [PERCENT]
    else []
  }

  function Rest(c: Byte, args: seq<Arg>): (r: seq<Arg>)
  {
    if (TakesInt(c) || c == LOW_S) && args != [] then args[1..] else args
  }

  /** Every conversion from i on is complete and acceptable. */
  predicate WellFormed(fmt: seq<Byte>, i: nat, args: seq<Arg>)
    decreases |fmt| - i
  {
    if i >= |fmt| then true
    else if fmt[i] == 0 then false
    else if fmt[i] != PERCENT then WellFormed(fmt, i + 1, args)
    else
      var (sp, j) := SpecFrom(fmt, i + 1);
      j < |fmt| && fmt[j] != 0 && Accepts(sp, fmt[j], args) && WellFormed(fmt, j + 1, Rest(fmt[j], args))
  }

  /** The text the format stands for, from i on. */
  function TextFrom(fmt: seq<Byte>, i: nat, args: seq<Arg>): (s: seq<Byte>)
    requires WellFormed(fmt, i, args)
    decreases |fmt| - i
  {
    if i >= |fmt| then []
    else if fmt[i] != PERCENT then [fmt[i]] + TextFrom(fmt, i + 1, args)
    else
      var (sp, j) := SpecFrom(fmt, i + 1);
      Piece(sp, fmt[j], args) + TextFrom(fmt, j + 1, Rest(fmt[j], args))
  }

  // ------------------------------------------------ arithmetic of digits

  lemma {:induction false} MulLess(a: nat, b: nat, d: nat)
    requires a < b
    ensures a * d + d <= b * d
    decreases b
  {
    assert (b - 1) * d + d == b * d;
    if a < b - 1 {
      MulLess(a, b - 1, d);
    }
  }

  lemma DivSmaller(v: nat, base: nat)
    requires 2 <= base <= v
    ensures 0 < v / base < v
  {
    var q := v / base;
    assert v == q * base + v % base;
    if q >= v {
      AboveTimes(v, q, base);
      MulLess(1, base, v);
    }
  }

  lemma DivUnique(v: nat, d: nat, q: nat, r: nat)
    requires d > 0 && v == q * d + r && r < d
    ensures v / d == q && v % d == r
  {
    assert v == (v / d) * d + v % d;
    if v / d < q {
      MulLess(v / d, q, d);
    } else if v / d > q {
      MulLess(q, v / d, d);
    }
  }

  /** Dividing by b * p is dividing by p and then by b. */
  lemma DivDiv(v: nat, p: nat, b: nat)
    requires p > 0 && b > 0
    ensures b * p > 0
    ensures v / (b * p) == v / p / b
    ensures v % (b * p) == v / p % b * p + v % p
  {
    var q := v / p;
    assert v == q * p + v % p;
    assert q == (q / b) * b + q % b;
    assert q * p == (q / b) * b * p + q % b * p;
    assert (q / b) * b * p == (q / b) * (b * p);
    MulLess(q % b, b, p);
    DivUnique(v, b * p, q / b, q % b * p + v % p);
  }

  lemma {:induction false} PowMono(base: nat, a: nat, b: nat)
    requires base > 0 && a <= b
    ensures Pow(base, a) <= Pow(base, b)
    decreases b
  {
    if a < b {
      PowMono(base, a, b - 1);
      assert base * Pow(base, b - 1) >= Pow(base, b - 1);
    }
  }

  lemma BelowTimes(q: nat, p: nat, base: nat, r: nat)
    requires q < p && r < base
    ensures q * base + r < base * p
  {
    MulLess(q, p, base);
  }

  lemma AboveTimes(p: nat, q: nat, base: nat)
    requires p <= q
    ensures base * p <= q * base
  {
    if p < q {
      MulLess(p, q, base);
    }
  }

  lemma NumLenSmall(v: nat, base: nat)
    requires v < base && base >= 2
    ensures NumLen(v, base) == 1
  {
  }

  lemma NumLenStep(v: nat, base: nat)
    requires 2 <= base <= v
    ensures NumLen(v, base) == 1 + NumLen(v / base, base)
    ensures Pow(base, NumLen(v, base)) == base * Pow(base, NumLen(v / base, base))
  {
  }

  lemma PowSmall(base: nat)
    requires base > 0
    ensures Pow(base, 0) == 1 && Pow(base, 1) == base
  {
    assert Pow(base, 1) == base * Pow(base, 0);
  }

  /** If the quotient has n digits, the number has one more. */
  lemma OneDigitMore(v: nat, base: nat, n: nat)
    requires 2 <= base <= v && n >= 1 && v / base < Pow(base, n) && (n > 1 ==> Pow(base, n - 1) <= v / base)
    ensures v < base * Pow(base, n) && Pow(base, n) <= v
  {
    PowSmall(base);
    QuotientBounds(v, base, Pow(base, n));
    if n > 1 {
      assert Pow(base, n) == base * Pow(base, n - 1);
      hide Pow;
      var q := v / base;
      assert v == q * base + v % base;
      AboveTimes(Pow(base, n - 1), q, base);
    }
  }

  lemma QuotientBounds(v: nat, base: nat, p: nat)
    requires base > 0 && v / base < p
    ensures v < base * p
  {
    assert v == (v / base) * base + v % base;
    BelowTimes(v / base, p, base, v % base);
  }

  /** A number lies between two powers of the base. */
  lemma {:induction false} NumLenBounds(v: nat, base: nat)
    requires base >= 2
    ensures v < Pow(base, NumLen(v, base))
    ensures NumLen(v, base) > 1 ==> Pow(base, NumLen(v, base) - 1) <= v
    decreases v
  {
    hide NumLen, Pow;
    PowSmall(base);
    if v < base {
      NumLenSmall(v, base);
    } else {
      DivSmaller(v, base);
      var q, n := v / base, NumLen(v / base, base);
      NumLenBounds(q, base);
      NumLenStep(v, base);
      OneDigitMore(v, base, n);
    }
  }

  /** The low digits of a number below base^k read back as the number. */
  lemma {:induction false} DigitsReadBack(v: nat, base: nat, k: nat)
    requires 2 <= base <= 16 && v < Pow(base, k)
    ensures Value(LowDigits(v, base, k), base) == v
    decreases k
  {
    hide *;
    if k > 0 {
      HighPart(v, base, k);
      DigitsReadBack(v / base, base, k - 1);
      LastDigit(v, base, k);
    } else {
      NoDigits(v, base);
    }
  }

  lemma NoDigits(v: nat, base: nat)
    requires 2 <= base <= 16 && v < Pow(base, 0)
    ensures Value(LowDigits(v, base, 0), base) == v
  {
  }

  lemma HighPart(v: nat, base: nat, k: nat)
    requires 2 <= base && k > 0 && v < Pow(base, k)
    ensures v / base < Pow(base, k - 1)
  {
    var q := v / base;
    assert v == q * base + v % base;
    assert Pow(base, k) == base * Pow(base, k - 1);
    hide Pow;
    if q >= Pow(base, k - 1) {
      AboveTimes(Pow(base, k - 1), q, base);
    }
  }

  lemma LastDigit(v: nat, base: nat, k: nat)
    requires 2 <= base <= 16 && k > 0
    requires Value(LowDigits(v / base, base, k - 1), base) == v / base
    ensures Value(LowDigits(v, base, k), base) == v
  {
    var high, d := LowDigits(v / base, base, k - 1), DigitChar(v % base);
    assert LowDigits(v, base, k) == high + [d];
    hide LowDigits, DigitChar;
    ValueSnoc(high, d, base);
    DigitOfChar(v % base);
    DivRem(v, base);
  }

  lemma ValueSnoc(s: seq<Byte>, d: Byte, base: nat)
    ensures Value(s + [d], base) == Value(s, base) * base + DigitValue(d)
  {
    assert (s + [d])[..|s|] == s;
  }

  lemma DivRem(v: nat, base: nat)
    requires base > 0
    ensures v == (v / base) * base + v % base
  {
  }

  lemma DigitOfChar(d: nat)
    requires d < 16
    ensures DigitValue(DigitChar(d)) == d
  {
  }

  /** Printed numbers parse back to the value, whatever the precision. */
  lemma BodyReadsBack(v: nat, base: nat, prec: nat)
    requires 2 <= base <= 16
    ensures Value(Body(v, base, prec), base) == v
  {
    NumLenBounds(v, base);
    PowMono(base, NumLen(v, base), Max(NumLen(v, base), prec));
    DigitsReadBack(v, base, Max(NumLen(v, base), prec));
  }

  /** The field is as wide as asked for, and wider only when the number needs it. */
  lemma FieldWidth(v: int, base: nat, prec: nat, width: nat, f: Flags)
    requires 2 <= base <= 16
    ensures |IntText(v, base, prec, width, f)| == Max(width, |Sign(v, f)| + Max(NumLen(Abs(v), base), prec))
    ensures |UnsignedText(Abs(v), base, prec, width, f)| == Max(width, Max(NumLen(Abs(v), base), prec))
  {
  }

  lemma {:induction false} ZerosFirst(s: seq<Byte>, n: nat, base: nat)
    ensures Value(Fill(ZERO, n) + s, base) == Value(s, base)
    decreases |s|, n
  {
    var t := Fill(ZERO, n) + s;
    if s != [] {
      assert t[..|t| - 1] == Fill(ZERO, n) + s[..|s| - 1];
      ZerosFirst(s[..|s| - 1], n, base);
    } else if n > 0 {
      assert t[..|t| - 1] == Fill(ZERO, n - 1) + s;
      ZerosFirst(s, n - 1, base);
    }
  }

  /** Without the left flag a number field ends with digits that read back as the number, behind
      blanks and the sign. */
  lemma NumberReadsBack(v: int, base: nat, prec: nat, width: nat, f: Flags)
    requires 2 <= base <= 16 && !f.left && !(f.zero && prec == 0)
    ensures var s, b := IntText(v, base, prec, width, f), Body(Abs(v), base, prec);
      && |b| <= |s| && s[|s| - |b|..] == b && Value(b, base) == Abs(v)
      && |Sign(v, f)| + |b| <= |s|
      && s[..|s| - |b|] == Fill(SPACE, |s| - |b| - |Sign(v, f)|) + Sign(v, f)
  {
    hide Body, Value;
    BodyReadsBack(Abs(v), base, prec);
  }

  /** With zero padding the sign comes first, and all that follows reads back as the number. */
  lemma ZeroPaddedReadsBack(v: int, base: nat, width: nat, f: Flags)
    requires 2 <= base <= 16 && !f.left && f.zero
    ensures var s := IntText(v, base, 0, width, f);
      Sign(v, f) <= s && Value(s[|Sign(v, f)|..], base) == Abs(v)
  {
    hide Body, Value;
    var sign, b := Sign(v, f), Body(Abs(v), base, 0);
    var pad := Short(width, |sign| + |b|);
    BodyReadsBack(Abs(v), base, 0);
    ZerosFirst(b, pad, base);
    assert IntText(v, base, 0, width, f) == sign + (Fill(ZERO, pad) + b);
  }
}
