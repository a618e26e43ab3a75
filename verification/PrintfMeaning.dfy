/** What each conversion prints, said without the printing functions: the digits read back as the
argument in the base the letter stands for, and the flags, width and precision of the
format say where blanks, sign and zeros go.
*/
module PrintfMeaning {
  import opened Ring
  import opened PrintfText

  // ------------------------------------------------ number fields

  /** A digit of the base, in upper case. */
  predicate IsNumeral(c: Byte, base: nat)
  {
    (0x30 <= c <= 0x39 || 0x41 <= c <= 0x46) && DigitValue(c) < base
  }

  ghost predicate Numerals(s: seq<Byte>, base: nat)
  {
    forall i :: 0 <= i < |s| ==> IsNumeral(s[i], base)
  }

  function Blanks(n: nat): (s: seq<Byte>)
    ensures |s| == n && forall i :: 0 <= i < n ==> s[i] == 0x20
  {
    seq(n, _ => 0x20)
  }

  /** The fields of a number: a blanks, the sign, digits, b blanks.  Blanks stand on one side only and only
      to fill the width; zeros fill it on request; otherwise there are as many digits as the precision
      asks for, and more only when the number needs them. */
  ghost predicate NumberField(s: seq<Byte>, a: nat, sign: seq<Byte>, digits: seq<Byte>, b: nat,
                              v: nat, base: nat, sp: Spec)
  {
    && s == Blanks(a) + sign + digits + Blanks(b)
    && Numerals(digits, base) && Value(digits, base) == v && digits != []
    && |s| >= sp.width && |digits| >= sp.prec
    && (sp.flags.left ==> a == 0) && (!sp.flags.left ==> b == 0)
    && (sp.flags.zero && sp.prec == 0 && !sp.flags.left ==> a == 0)
    && (|s| > sp.width ==> a == 0 && b == 0)
    && (|digits| > Max(sp.prec, 1) ==>
          digits[0] != 0x30 || (sp.flags.zero && sp.prec == 0 && !sp.flags.left && |s| == sp.width))
  }

  lemma {:induction false} DigitsNumerals(v: nat, base: nat, k: nat)
    requires 2 <= base <= 16
    ensures Numerals(LowDigits(v, base, k), base)
    decreases k
  {
    if k > 0 {
      DigitsNumerals(v / base, base, k - 1);
      DigitNumeral(v % base, base);
    }
  }

  lemma DigitNumeral(d: nat, base: nat)
    requires d < base <= 16
    ensures IsNumeral(DigitChar(d), base) && (DigitChar(d) == 0x30 <==> d == 0)
  {
  }

  lemma {:induction false} TopDigit(v: nat, base: nat)
    requires 2 <= base <= 16
    ensures var s := LowDigits(v, base, NumLen(v, base));
      |s| > 1 ==> s[0] != 0x30
    decreases v
  {
    if v >= base {
      DivSmaller(v, base);
      TopDigit(v / base, base);
      if v / base < base {
        NumLenSmall(v / base, base);
        OneDigit(v / base, base);
      }
    }
  }

  lemma OneDigit(d: nat, base: nat)
    requires 0 < d < base <= 16
    ensures LowDigits(d, base, 1)[0] != 0x30
  {
    DigitNumeral(d, base);
    assert d % base == d;
  }

  /** The digits of a number field, before padding. */
  lemma BodyField(v: nat, base: nat, prec: nat)
    requires 2 <= base <= 16
    ensures var s := Body(v, base, prec);
      && Numerals(s, base) && Value(s, base) == v && |s| >= prec && |s| >= 1
      && (|s| > Max(prec, 1) ==> s[0] != 0x30)
  {
    BodyReadsBack(v, base, prec);
    DigitsNumerals(v, base, Max(NumLen(v, base), prec));
    TopDigit(v, base);
  }

  lemma FillBlanks(n: nat)
    ensures Fill(SPACE, n) == Blanks(n)
  {
  }

  /** Zeros in front of digits. */
  lemma ZeroFilled(digits: seq<Byte>, n: nat, base: nat)
    requires Numerals(digits, base) && base >= 2
    ensures Numerals(Fill(ZERO, n) + digits, base) && Value(Fill(ZERO, n) + digits, base) == Value(digits, base)
  {
    ZerosFirst(digits, n, base);
  }

  /** Sign and digits, padded to the width. */
  function Laid(sign: seq<Byte>, body: seq<Byte>, sp: Spec): (s: seq<Byte>)
  {
    var pad := Short(sp.width, |sign| + |body|);
    if sp.flags.left then sign + body + Fill(SPACE, pad)
    else if sp.flags.zero && sp.prec == 0 then sign + Fill(ZERO, pad) + body
    else Fill(SPACE, pad) + sign + body
  }

  lemma UnsignedLaid(v: nat, base: nat, sp: Spec)
    requires 2 <= base <= 16
    ensures UnsignedText(v, base, sp.prec, sp.width, sp.flags) == Laid([], Body(v, base, sp.prec), sp)
  {
    hide Body, Fill;
    var body := Body(v, base, sp.prec);
    var pad := Short(sp.width, |body|);
    assert [] + body == body && [] + Fill(ZERO, pad) == Fill(ZERO, pad) && Fill(SPACE, pad) + [] == Fill(SPACE, pad);
  }

  lemma SignedLaid(v: int, base: nat, sp: Spec)
    requires 2 <= base <= 16
    ensures IntText(v, base, sp.prec, sp.width, sp.flags) == Laid(Sign(v, sp.flags), Body(Abs(v), base, sp.prec), sp)
  {
    hide Body, Fill, Sign;
  }

  /** Where blanks, sign and digits of a padded number stand. */
  lemma LaidField(sign: seq<Byte>, body: seq<Byte>, v: nat, base: nat, sp: Spec)
    returns (a: nat, digits: seq<Byte>, b: nat)
    requires base >= 2 && Numerals(body, base) && Value(body, base) == v && |body| >= sp.prec && |body| >= 1
    requires |body| > Max(sp.prec, 1) ==> body[0] != 0x30
    ensures NumberField(Laid(sign, body, sp), a, sign, digits, b, v, base, sp)
  {
    hide Value, Fill, Numerals, Blanks;
    var pad := Short(sp.width, |sign| + |body|);
    FillBlanks(pad);
    NoBlanks();
    a, digits, b := 0, body, 0;
    if sp.flags.left {
      b := pad;
      assert Laid(sign, body, sp) == Blanks(0) + sign + body + Blanks(pad);
    } else if sp.flags.zero && sp.prec == 0 {
      ZeroFilled(body, pad, base);
      digits := Fill(ZERO, pad) + body;
      assert Laid(sign, body, sp) == Blanks(0) + sign + digits + Blanks(0);
    } else {
      a := pad;
      assert Laid(sign, body, sp) == Blanks(pad) + sign + body + Blanks(0);
    }
  }

  lemma NoBlanks()
    ensures Blanks(0) == []
  {
  }

  /** An unsigned field. */
  lemma UnsignedField(v: nat, base: nat, sp: Spec) returns (a: nat, digits: seq<Byte>, b: nat)
    requires 2 <= base <= 16
    ensures NumberField(UnsignedText(v, base, sp.prec, sp.width, sp.flags), a, [], digits, b, v, base, sp)
  {
    hide *;
    UnsignedLaid(v, base, sp);
    BodyField(v, base, sp.prec);
    a, digits, b := LaidField([], Body(v, base, sp.prec), v, base, sp);
  }

  /** A signed field: a minus for negative numbers, a plus for others on request. */
  lemma SignedField(v: int, base: nat, sp: Spec) returns (a: nat, sign: seq<Byte>, digits: seq<Byte>, b: nat)
    requires 2 <= base <= 16
    ensures sign == if v < 0 then [0x2D] else if sp.flags.plus then [0x2B] else []
    ensures NumberField(IntText(v, base, sp.prec, sp.width, sp.flags), a, sign, digits, b, if v < 0 then -v else v, base, sp)
  {
    hide NumberField, IntText, Body, Laid;
    SignedLaid(v, base, sp);
    BodyField(Abs(v), base, sp.prec);
    sign := Sign(v, sp.flags);
    a, digits, b := LaidField(sign, Body(Abs(v), base, sp.prec), Abs(v), base, sp);
  }

  // ------------------------------------------------ reading a conversion

  /** A conversion as it is written: flags, width, precision, length letters and its letter. */
  datatype Written = Written(flags: seq<Byte>, width: seq<Byte>, dot: bool, prec: seq<Byte>, length: seq<Byte>, letter: Byte)
  {
    /** Flags are of - 0 + #, numbers of decimal digits, lengths of l h; a width does not begin with zero. */
    ghost predicate Proper()
    {
      && (forall i :: 0 <= i < |flags| ==> flags[i] in {0x2D, 0x30, 0x2B, 0x23})
      && (forall i :: 0 <= i < |width| ==> 0x30 <= width[i] <= 0x39) && (width != [] ==> width[0] != 0x30)
      && (forall i :: 0 <= i < |prec| ==> 0x30 <= prec[i] <= 0x39) && (!dot ==> prec == [])
      && (forall i :: 0 <= i < |length| ==> length[i] in {0x6C, 0x68})
      && letter in {0x63, 0x64, 0x75, 0x78, 0x58, 0x73, 0x70, 0x25}
    }

    function Dotted(): (s: seq<Byte>)
    {
      if dot then [0x2E] + prec else []
    }

    function Text(): (s: seq<Byte>)
    {
      [0x25] + (flags + (width + (Dotted() + (length + [letter]))))
    }

    /** What it asks for. */
    function Asked(): (sp: Spec)
    {
      Spec(Flags(0x2D in flags, 0x30 in flags, 0x2B in flags), Value(width, 10) % LIMIT, Value(prec, 10) % LIMIT)
    }
  }

  /** The format reads `part` at position i. */
  ghost predicate Reads(fmt: seq<Byte>, i: nat, part: seq<Byte>)
  {
    i + |part| <= |fmt| && fmt[i..i + |part|] == part
  }

  function FlagsOf(s: seq<Byte>): (f: Flags)
  {
    Flags(0x2D in s, 0x30 in s, 0x2B in s)
  }

  lemma {:induction false} FlagsRead(fmt: seq<Byte>, i: nat, flags: seq<Byte>, j: nat)
    requires Reads(fmt, i, flags) && j <= |flags|
    requires forall k :: 0 <= k < |flags| ==> flags[k] in {0x2D, 0x30, 0x2B, 0x23}
    ensures FlagsFrom(fmt, i, Flags(false, false, false)) == FlagsFrom(fmt, i + j, FlagsOf(flags[..j]))
    decreases j
  {
    if j > 0 {
      FlagsRead(fmt, i, flags, j - 1);
      assert flags[..j] == flags[..j - 1] + [flags[j - 1]];
      assert fmt[i + j - 1] == flags[j - 1];
    }
  }

  lemma ModStep(x: nat, d: nat)
    ensures (x % LIMIT * 10 + d) % LIMIT == (x * 10 + d) % LIMIT
  {
    assert x * 10 + d == x % LIMIT * 10 + d + LIMIT * (x / LIMIT * 10);
  }

  lemma {:induction false} NumberReads(fmt: seq<Byte>, i: nat, digits: seq<Byte>, j: nat)
    requires Reads(fmt, i, digits) && j <= |digits|
    requires forall k :: 0 <= k < |digits| ==> 0x30 <= digits[k] <= 0x39
    ensures NumberFrom(fmt, i, 0) == NumberFrom(fmt, i + j, Value(digits[..j], 10) % LIMIT)
    decreases j
  {
    hide NumberFrom, Value;
    if j > 0 {
      var d := digits[j - 1];
      NumberReads(fmt, i, digits, j - 1);
      assert digits[..j] == digits[..j - 1] + [d] && fmt[i + j - 1] == d;
      ValueSnoc(digits[..j - 1], d, 10);
      ModStep(Value(digits[..j - 1], 10), d - 0x30);
      DigitStep(fmt, i + j - 1, Value(digits[..j - 1], 10) % LIMIT);
    } else {
      NoDigitsYet(digits);
    }
  }

  lemma NoDigitsYet(digits: seq<Byte>)
    ensures Value(digits[..0], 10) == 0
  {
  }

  lemma DigitStep(fmt: seq<Byte>, i: nat, n: nat)
    requires i < |fmt| && n < LIMIT && 0x30 <= fmt[i] <= 0x39
    ensures NumberFrom(fmt, i, n) == NumberFrom(fmt, i + 1, (n * 10 + (fmt[i] - 0x30)) % LIMIT)
  {
  }

  lemma {:induction false} LengthReads(fmt: seq<Byte>, i: nat, length: seq<Byte>, j: nat)
    requires Reads(fmt, i, length) && j <= |length| && forall k :: 0 <= k < |length| ==> length[k] in {0x6C, 0x68}
    ensures LengthFrom(fmt, i) == LengthFrom(fmt, i + j)
    decreases j
  {
    if j > 0 {
      LengthReads(fmt, i, length, j - 1);
      assert fmt[i + j - 1] == length[j - 1];
    }
  }

  /** A conversion written at position i is read as what it asks for, up to its letter. */
  lemma SpecReads(fmt: seq<Byte>, i: nat, w: Written)
    requires w.Proper() && Reads(fmt, i, w.Text())
    ensures SpecFrom(fmt, i + 1) == (w.Asked(), i + |w.Text()| - 1)
  {
    hide Reads, Value, FlagsFrom, NumberFrom, LengthFrom, Written.Text;
    var a := i + 1 + |w.flags|;
    var b := a + |w.width|;
    var c := b + |w.Dotted()|;
    Parts(fmt, i, w);
    Ends(fmt, i, w);
    FlagsPart(fmt, i + 1, w.flags);
    NumberPart(fmt, a, w.width);
    DottedPart(fmt, b, w);
    LengthPart(fmt, c, w.length);
  }

  lemma ReadsSplit(fmt: seq<Byte>, i: nat, x: seq<Byte>, y: seq<Byte>)
    requires Reads(fmt, i, x + y)
    ensures Reads(fmt, i, x) && Reads(fmt, i + |x|, y)
  {
    var all := fmt[i..i + |x + y|];
    assert fmt[i..i + |x|] == all[..|x|] && fmt[i + |x|..i + |x| + |y|] == all[|x|..];
  }

  /** Where the pieces of a written conversion stand. */
  lemma Parts(fmt: seq<Byte>, i: nat, w: Written)
    requires Reads(fmt, i, w.Text())
    ensures var a := i + 1 + |w.flags|;
      var b := a + |w.width|;
      var c := b + |w.Dotted()|;
      var d := c + |w.length|;
      && Reads(fmt, i, [0x25]) && Reads(fmt, i + 1, w.flags) && Reads(fmt, a, w.width) && Reads(fmt, b, w.Dotted())
      && Reads(fmt, c, w.length) && Reads(fmt, d, [w.letter]) && d == i + |w.Text()| - 1
  {
    hide Reads;
    var a := i + 1 + |w.flags|;
    var b := a + |w.width|;
    var c := b + |w.Dotted()|;
    ReadsSplit(fmt, i, [0x25], w.flags + (w.width + (w.Dotted() + (w.length + [w.letter]))));
    ReadsSplit(fmt, i + 1, w.flags, w.width + (w.Dotted() + (w.length + [w.letter])));
    ReadsSplit(fmt, a, w.width, w.Dotted() + (w.length + [w.letter]));
    ReadsSplit(fmt, b, w.Dotted(), w.length + [w.letter]);
    ReadsSplit(fmt, c, w.length, [w.letter]);
  }

  lemma FirstOf(fmt: seq<Byte>, i: nat, part: seq<Byte>)
    requires Reads(fmt, i, part) && part != []
    ensures i < |fmt| && fmt[i] == part[0]
  {
    assert fmt[i] == fmt[i..i + |part|][0];
  }

  /** Each piece ends where the next begins. */
  lemma Ends(fmt: seq<Byte>, i: nat, w: Written)
    requires w.Proper() && Reads(fmt, i, w.Text())
    ensures var a := i + 1 + |w.flags|;
      var b := a + |w.width|;
      var c := b + |w.Dotted()|;
      var d := c + |w.length|;
      && d < |fmt| && fmt[d] == w.letter && !IsLength(fmt[d])
      && !IsDigit(fmt[c]) && fmt[c] in {0x6C, 0x68, w.letter}
      && !IsDigit(fmt[b]) && !IsFlag(fmt[a]) && (w.dot <==> fmt[b] == 0x2E)
  {
    hide Reads, Written.Text;
    Parts(fmt, i, w);
    var a := i + 1 + |w.flags|;
    var b := a + |w.width|;
    var c := b + |w.Dotted()|;
    FirstOf(fmt, c + |w.length|, [w.letter]);
    if w.length != [] {
      FirstOf(fmt, c, w.length);
    }
    if w.dot {
      FirstOf(fmt, b, w.Dotted());
    }
    if w.width != [] {
      FirstOf(fmt, a, w.width);
    }
  }

  lemma DottedPart(fmt: seq<Byte>, b: nat, w: Written)
    requires w.Proper() && Reads(fmt, b, w.Dotted()) && b + |w.Dotted()| < |fmt| && !IsDigit(fmt[b + |w.Dotted()|])
    requires w.dot <==> fmt[b] == 0x2E
    ensures (if At(fmt, b) == DOT then NumberFrom(fmt, b + 1, 0) else (0, b)) == (Value(w.prec, 10) % LIMIT, b + |w.Dotted()|)
  {
    hide NumberFrom;
    if w.dot {
      ReadsSplit(fmt, b, [0x2E], w.prec);
      NumberPart(fmt, b + 1, w.prec);
    }
  }

  lemma LengthPart(fmt: seq<Byte>, i: nat, length: seq<Byte>)
    requires Reads(fmt, i, length) && i + |length| < |fmt| && !IsLength(fmt[i + |length|])
    requires forall k :: 0 <= k < |length| ==> length[k] in {0x6C, 0x68}
    ensures LengthFrom(fmt, i) == i + |length|
  {
    LengthReads(fmt, i, length, |length|);
  }

  lemma FlagsPart(fmt: seq<Byte>, i: nat, flags: seq<Byte>)
    requires Reads(fmt, i, flags) && i + |flags| < |fmt| && !IsFlag(fmt[i + |flags|])
    requires forall k :: 0 <= k < |flags| ==> flags[k] in {0x2D, 0x30, 0x2B, 0x23}
    ensures FlagsFrom(fmt, i, Flags(false, false, false)) == (FlagsOf(flags), i + |flags|)
  {
    FlagsRead(fmt, i, flags, |flags|);
    assert flags[..|flags|] == flags;
  }

  lemma NumberPart(fmt: seq<Byte>, i: nat, digits: seq<Byte>)
    requires Reads(fmt, i, digits) && i + |digits| < |fmt| && !IsDigit(fmt[i + |digits|])
    requires forall k :: 0 <= k < |digits| ==> 0x30 <= digits[k] <= 0x39
    ensures NumberFrom(fmt, i, 0) == (Value(digits, 10) % LIMIT, i + |digits|)
  {
    NumberReads(fmt, i, digits, |digits|);
    assert digits[..|digits|] == digits;
  }

  // ------------------------------------------------ whole formats

  /** Characters other than % stand for themselves. */
  lemma {:induction false} LiteralText(fmt: seq<Byte>, i: nat, j: nat, args: seq<Arg>)
    requires i <= j <= |fmt| && WellFormed(fmt, i, args) && 0x25 !in fmt[i..j]
    ensures WellFormed(fmt, j, args) && TextFrom(fmt, i, args) == fmt[i..j] + TextFrom(fmt, j, args)
    decreases j - i
  {
    hide WellFormed, TextFrom;
    if i < j {
      assert fmt[i] == fmt[i..j][0] && fmt[i..j] == [fmt[i]] + fmt[i + 1..j];
      LiteralStep(fmt, i, args);
      LiteralText(fmt, i + 1, j, args);
    }
  }

  lemma LiteralStep(fmt: seq<Byte>, i: nat, args: seq<Arg>)
    requires i < |fmt| && WellFormed(fmt, i, args) && fmt[i] != 0x25
    ensures WellFormed(fmt, i + 1, args) && TextFrom(fmt, i, args) == [fmt[i]] + TextFrom(fmt, i + 1, args)
  {
    hide SpecFrom, Accepts, Piece;
  }

  lemma ConversionStep(fmt: seq<Byte>, i: nat, args: seq<Arg>)
    requires i < |fmt| && WellFormed(fmt, i, args) && fmt[i] == 0x25
    ensures var (sp, j) := SpecFrom(fmt, i + 1);
      && j < |fmt| && Accepts(sp, fmt[j], args) && WellFormed(fmt, j + 1, Rest(fmt[j], args))
      && TextFrom(fmt, i, args) == Piece(sp, fmt[j], args) + TextFrom(fmt, j + 1, Rest(fmt[j], args))
  {
    hide SpecFrom, Accepts, Piece, Rest;
  }

  /** A conversion at position i prints its text and takes one argument, or none for %%. */
  lemma ConversionText(fmt: seq<Byte>, i: nat, w: Written, args: seq<Arg>)
    requires w.Proper() && Reads(fmt, i, w.Text()) && WellFormed(fmt, i, args)
    ensures Accepts(w.Asked(), w.letter, args)
    ensures w.letter != 0x25 ==> args != []
    ensures var j, rest := i + |w.Text()|, if w.letter == 0x25 then args else args[1..];
      && WellFormed(fmt, j, rest)
      && TextFrom(fmt, i, args) == Piece(w.Asked(), w.letter, args) + TextFrom(fmt, j, rest)
  {
    hide *;
    SpecReads(fmt, i, w);
    Parts(fmt, i, w);
    Ends(fmt, i, w);
    FirstOf(fmt, i, [0x25]);
    ConversionStep(fmt, i, args);
    ProperLetter(w);
    LetterArgs(w.Asked(), w.letter, args);
  }

  lemma ProperLetter(w: Written)
    requires w.Proper()
    ensures w.letter in {0x63, 0x64, 0x75, 0x78, 0x58, 0x73, 0x70, 0x25}
  {
  }

  lemma LetterArgs(sp: Spec, letter: Byte, args: seq<Arg>)
    requires Accepts(sp, letter, args) && letter in {0x63, 0x64, 0x75, 0x78, 0x58, 0x73, 0x70, 0x25}
    ensures letter != 0x25 ==> args != []
    ensures Rest(letter, args) == if letter == 0x25 then args else args[1..]
  {
  }

  /** A format that is one conversion. */
  lemma SingleText(w: Written, args: seq<Arg>)
    requires w.Proper() && WellFormed(w.Text(), 0, args)
    ensures Accepts(w.Asked(), w.letter, args) && (w.letter != 0x25 ==> args != [])
    ensures TextFrom(w.Text(), 0, args) == Piece(w.Asked(), w.letter, args)
  {
    hide WellFormed, Piece, Accepts;
    var fmt := w.Text();
    assert fmt[0..|fmt|] == fmt;
    ConversionText(fmt, 0, w, args);
    TextAtEnd(fmt, if w.letter == 0x25 then args else args[1..]);
  }

  lemma TextAtEnd(fmt: seq<Byte>, args: seq<Arg>)
    requires WellFormed(fmt, |fmt|, args)
    ensures TextFrom(fmt, |fmt|, args) == []
  {
  }

  // ------------------------------------------------ what each letter stands for

  /** %x and %X: the argument modulo 2^32 in base 16; %u: the same in base 10. */
  lemma UnsignedLetters(w: Written, args: seq<Arg>) returns (a: nat, digits: seq<Byte>, b: nat)
    requires w.Proper() && WellFormed(w.Text(), 0, args) && w.letter in {0x78, 0x58, 0x75}
    ensures args != [] && args[0].Int?
    ensures NumberField(TextFrom(w.Text(), 0, args), a, [], digits, b,
                        args[0].v % 0x1_0000_0000, if w.letter == 0x75 then 10 else 16, w.Asked())
  {
    hide UnsignedText, NumberField;
    SingleText(w, args);
    a, digits, b := UnsignedField(args[0].v % LIMIT, if w.letter == 0x75 then 10 else 16, w.Asked());
  }

  /** %p: eight base-16 digits of the argument modulo 2^32, whatever is asked for. */
  lemma PointerLetter(w: Written, args: seq<Arg>)
    requires w.Proper() && WellFormed(w.Text(), 0, args) && w.letter == 0x70
    ensures args != [] && args[0].Int?
    ensures var s := TextFrom(w.Text(), 0, args);
      |s| == 8 && Numerals(s, 16) && Value(s, 16) == args[0].v % 0x1_0000_0000
  {
    hide Body, Value, Numerals;
    SingleText(w, args);
    var v := args[0].v % LIMIT;
    EightDigits(v);
    BodyField(v, 16, 8);
    assert Fill(SPACE, 0) + Body(v, 16, 8) == Body(v, 16, 8);
  }

  lemma EightDigits(v: nat)
    requires v < LIMIT
    ensures NumLen(v, 16) <= 8
  {
    assert Pow(16, 3) == 4096;
    assert Pow(16, 5) == 1048576;
    assert Pow(16, 8) == LIMIT;
    hide Pow;
    NumLenBounds(v, 16);
    if NumLen(v, 16) > 8 {
      PowMono(16, 8, NumLen(v, 16) - 1);
    }
  }

  /** %d: sign and magnitude in base 10. */
  lemma SignedLetter(w: Written, args: seq<Arg>) returns (a: nat, sign: seq<Byte>, digits: seq<Byte>, b: nat)
    requires w.Proper() && WellFormed(w.Text(), 0, args) && w.letter == 0x64
    ensures args != [] && args[0].Int?
    ensures sign == if args[0].v < 0 then [0x2D] else if 0x2B in w.flags then [0x2B] else []
    ensures NumberField(TextFrom(w.Text(), 0, args), a, sign, digits, b,
                        if args[0].v < 0 then -args[0].v else args[0].v, 10, w.Asked())
  {
    hide *;
    SingleText(w, args);
    SignedPiece(w, args);
    a, sign, digits, b := SignedField(args[0].v, 10, w.Asked());
  }

  lemma SignedPiece(w: Written, args: seq<Arg>)
    requires Accepts(w.Asked(), w.letter, args) && w.letter == 0x64
    ensures args != [] && args[0].Int? && w.Asked().flags.plus == (0x2B in w.flags)
    ensures Piece(w.Asked(), w.letter, args)
         == IntText(args[0].v, 10, w.Asked().prec, w.Asked().width, w.Asked().flags)
  {
    hide IntText, Value;
  }

  /** %c is the byte, %s the string, %% one percent sign. */
  lemma OtherLetters(w: Written, args: seq<Arg>)
    requires w.Proper() && WellFormed(w.Text(), 0, args)
    ensures w.letter == 0x63 ==> args != [] && args[0].Int? && TextFrom(w.Text(), 0, args) == [args[0].v % 256]
    ensures w.letter == 0x73 ==> args != [] && args[0].Str? && TextFrom(w.Text(), 0, args) == args[0].s
    ensures w.letter == 0x25 ==> TextFrom(w.Text(), 0, args) == [0x25]
  {
    SingleText(w, args);
  }

  /** The bare conversions print just the sign and the digits, with no needless zero. */
  lemma PlainNumber(letter: Byte, args: seq<Arg>)
    requires letter in {0x64, 0x75, 0x78, 0x58} && WellFormed([0x25, letter], 0, args)
    ensures args != [] && args[0].Int?
    ensures var s, v, base := TextFrom([0x25, letter], 0, args), args[0].v, if letter == 0x64 || letter == 0x75 then 10 else 16;
      var digits := if letter == 0x64 && v < 0 then s[1..] else s;
      && (letter == 0x64 && v < 0 ==> s != [] && s[0] == 0x2D)
      && Numerals(digits, base) && digits != [] && (|digits| > 1 ==> digits[0] != 0x30)
      && Value(digits, base) == if letter != 0x64 then v % 0x1_0000_0000 else if v < 0 then -v else v
  {
    var w := Written([], [], false, [], [], letter);
    PlainText(w);
    hide Value, Numerals, WellFormed, TextFrom, Written.Text, Written.Asked;
    if letter == 0x64 {
      var a, sign, digits, b := SignedLetter(w, args);
      PlainField(TextFrom([0x25, letter], 0, args), a, sign, digits, b, if args[0].v < 0 then -args[0].v else args[0].v, 10);
    } else {
      var base := if letter == 0x75 then 10 else 16;
      var a, digits, b := UnsignedLetters(w, args);
      PlainField(TextFrom([0x25, letter], 0, args), a, [], digits, b, args[0].v % LIMIT, base);
    }
  }

  const PLAIN: Spec := Spec(Flags(false, false, false), 0, 0)

  lemma PlainText(w: Written)
    requires w.flags == [] && w.width == [] && !w.dot && w.prec == [] && w.length == []
    ensures w.Text() == [0x25, w.letter] && w.Asked() == PLAIN
  {
  }

  lemma PlainField(s: seq<Byte>, a: nat, sign: seq<Byte>, digits: seq<Byte>, b: nat, v: nat, base: nat)
    requires NumberField(s, a, sign, digits, b, v, base, PLAIN)
    ensures s == sign + digits && s[|sign|..] == digits
    ensures Numerals(digits, base) && digits != [] && Value(digits, base) == v && (|digits| > 1 ==> digits[0] != 0x30)
  {
    hide Numerals, Value;
    assert a == 0 && b == 0;
    assert Blanks(0) + sign + digits + Blanks(0) == sign + digits;
  }
}
