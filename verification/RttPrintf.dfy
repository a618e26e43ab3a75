/** The formatter as the target runs it: characters go through a 64-byte staging buffer whose
full chunks are written to the ring.  The contracts follow the characters end to end: what
the stream of the ring gains is the text of the format string, or a prefix of it.
*/
module RttPrintf {
  import opened Ring
  import opened RttBuffer
  import opened PrintfText

  const CHUNK: nat := 64

  /** The supported number bases, with the largest precision that does not overflow the divisor. */
  predicate Fits(base: nat, prec: nat)
  {
    (base == 10 && prec <= 10) || (base == 16 && prec <= 8)
  }

  /** The divisor of the first digit fits 32 bits exactly for these precisions. */
  lemma FitsExactly(base: nat, prec: nat)
    requires base in {10, 16} && prec > 0
    ensures Pow(base, prec - 1) < LIMIT <==> Fits(base, prec)
  {
    Powers();
    var most := if base == 10 then 9 else 7;
    if prec - 1 <= most {
      PowMono(base, prec - 1, most);
    } else {
      PowMono(base, most + 1, prec - 1);
    }
  }

  lemma Powers()
    ensures Pow(10, 9) == 1000000000 && Pow(10, 10) == 10000000000
    ensures Pow(16, 7) == 268435456 && Pow(16, 8) == LIMIT
  {
    assert Pow(10, 3) == 1000;
    assert Pow(10, 6) == 1000000;
    assert Pow(16, 3) == 4096;
    assert Pow(16, 5) == 1048576;
  }

  lemma DivBelow(v: nat, d: nat, base: nat)
    requires d > 0 && v / d < base
    ensures v < base * d
  {
    assert v == (v / d) * d + v % d;
    MulLess(v / d, base, d);
  }

  lemma DivAbove(v: nat, d: nat, base: nat)
    requires d > 0 && v / d >= base
    ensures base * d <= v
  {
    assert v == (v / d) * d + v % d;
    AboveTimes(base, v / d, d);
  }

  /** Where the divisor search ends: one power below the length of the printed number. */
  lemma DigitFound(v: nat, base: nat, prec: nat, j: nat)
    requires 2 <= base <= 16 && v < base * Pow(base, j) && j + 1 >= prec
    requires j + 1 == Max(prec, 1) || Pow(base, j) <= v
    ensures j + 1 == Max(NumLen(v, base), prec)
  {
    NumLenBounds(v, base);
    var n := NumLen(v, base);
    assert Pow(base, j + 1) == base * Pow(base, j);
    if n > j + 1 {
      PowMono(base, j + 1, n - 1);
    }
    if n < j + 1 {
      PowMono(base, n, j);
    }
  }

  lemma StartPower(base: nat)
    requires base > 0
    ensures Pow(base, 0) == 1
  {
  }

  lemma PowUp(base: nat, j: nat)
    requires base > 0
    ensures Pow(base, j + 1) == base * Pow(base, j)
  {
  }

  function Quot(v: nat, d: nat): (r: nat)
    requires d > 0
  {
    v / d
  }

  function Rem(v: nat, d: nat): (r: nat)
    requires d > 0
  {
    v % d
  }

  lemma LowDigitsStep(x: nat, base: nat, k: nat)
    requires 2 <= base <= 16
    ensures Rem(x, base) < 16
    ensures LowDigits(x, base, k + 1) == LowDigits(Quot(x, base), base, k) + [DigitChar(Rem(x, base))]
  {
  }

  lemma SplitDigit(v: nat, p: nat, b: nat, q: nat)
    requires p > 0 && 2 <= b <= 16 && q == b * p
    ensures q > 0 && Quot(v, q) == Quot(Quot(v, p), b)
    ensures Quot(Rem(v, q), p) == Rem(Quot(v, p), b)
    ensures Rem(v, q) - Rem(Quot(v, p), b) * p == Rem(v, p)
  {
    DivDiv(v, p, b);
    DivUnique(v % q, p, v / p % b, v % p);
  }

  /** One more digit from the left. */
  lemma NextDigit(v: nat, base: nat, p: nat, q: nat, k: nat)
    requires 2 <= base <= 16 && p > 0 && q == base * p
    ensures q > 0
    ensures var d := Quot(Rem(v, q), p);
      && d < 16 && Rem(v, q) - d * p == Rem(v, p)
      && LowDigits(Quot(v, q), base, k) + [DigitChar(d)] == LowDigits(Quot(v, p), base, k + 1)
  {
    hide LowDigits, Quot, Rem;
    SplitDigit(v, p, base, q);
    LowDigitsStep(Quot(v, p), base, k);
  }

  lemma {:induction false} LeadingDigits(v: nat, base: nat, k: nat, n: nat)
    requires 2 <= base <= 16 && n <= k
    ensures LowDigits(Quot(v, Pow(base, n)), base, k - n) <= LowDigits(v, base, k)
    decreases n
  {
    hide LowDigits, Pow, Quot, Rem;
    if n > 0 {
      LeadingDigits(v, base, k, n - 1);
      PowUp(base, n - 1);
      NextDigit(v, base, Pow(base, n - 1), Pow(base, n), k - n);
    } else {
      DigitsEnd(v, base);
    }
  }

  lemma DigitsEnd(v: nat, base: nat)
    requires base >= 2
    ensures Quot(v, Pow(base, 0)) == v
  {
  }

  lemma DigitsStart(v: nat, base: nat, prec: nat)
    requires 2 <= base <= 16
    ensures var k := Max(NumLen(v, base), prec);
      Rem(v, Pow(base, k)) == v && Quot(v, Pow(base, k)) == 0 && LowDigits(0, base, 0) == []
  {
    var k := Max(NumLen(v, base), prec);
    NumLenBounds(v, base);
    PowMono(base, NumLen(v, base), k);
    NoDigitsLeft(v, base, k);
  }

  lemma NoDigitsLeft(v: nat, base: nat, k: nat)
    requires 2 <= base <= 16 && v < Pow(base, k)
    ensures Rem(v, Pow(base, k)) == v && Quot(v, Pow(base, k)) == 0
  {
    DivUnique(v, Pow(base, k), 0, v);
  }

  lemma PowDown(base: nat, j: nat)
    requires base >= 2
    ensures Quot(Pow(base, j), base) == if j == 0 then 0 else Pow(base, j - 1)
  {
    if j > 0 {
      assert Pow(base, j) == Pow(base, j - 1) * base + 0;
      DivUnique(Pow(base, j), base, Pow(base, j - 1), 0);
    }
  }

  /** How the free space and the mode decide whether a chunk gets through. */
  lemma ChunkRefused(flags: nat, r: Ring, n: nat)
    requires r.Valid() && RoundSize(flags, r, n) < n && (flags == MODE_SKIP || flags == MODE_TRIM)
    ensures r.Avail() < n && (flags == MODE_SKIP ==> RoundSize(flags, r, n) == 0)
  {
  }

  lemma PutAvail(r: Ring, data: seq<Byte>)
    requires r.Valid() && |data| <= r.Avail()
    ensures Put(r, data).Avail() == r.Avail() - |data|
  {
    PutAppends(r, data);
  }

  /** From t0 to t the text gained all of piece, or a part of it before the failure. */
  ghost predicate Grew(t0: seq<Byte>, t: seq<Byte>, ok: bool, piece: seq<Byte>)
  {
    t0 <= t <= t0 + piece && (ok ==> t == t0 + piece)
  }

  lemma GrewThen(t0: seq<Byte>, t1: seq<Byte>, t2: seq<Byte>, ok: bool, a: seq<Byte>, b: seq<Byte>)
    requires Grew(t0, t1, true, a) && Grew(t1, t2, ok, b)
    ensures Grew(t0, t2, ok, a + b)
  {
    assert t0 + (a + b) == t0 + a + b;
  }

  lemma GrewStops(t0: seq<Byte>, t1: seq<Byte>, ok: bool, a: seq<Byte>, b: seq<Byte>)
    requires Grew(t0, t1, ok, a) && !ok
    ensures Grew(t0, t1, ok, a + b)
  {
    assert t0 + (a + b) == t0 + a + b;
  }

  lemma NothingGrew(t0: seq<Byte>)
    ensures Grew(t0, t0, true, [])
  {
  }

  lemma GrewAll(t0: seq<Byte>, t: seq<Byte>, ok: bool, piece: seq<Byte>)
    requires Grew(t0, t, true, piece)
    ensures Grew(t0, t, ok, piece) && t == t0 + piece
  {
  }

  lemma GrewPart(t0: seq<Byte>, t: seq<Byte>, ok: bool, a: seq<Byte>, b: seq<Byte>)
    requires Grew(t0, t, true, a) && a <= b && !ok
    ensures Grew(t0, t, ok, b)
  {
    assert t0 + b == t0 + a + b[|a|..];
  }

  /** Repeating one character. */
  lemma GrewFill(t0: seq<Byte>, t: seq<Byte>, t': seq<Byte>, ok: bool, c: Byte, m: nat, n: nat)
    requires Grew(t0, t, true, Fill(c, m)) && t' == t + [c] && m < n
    ensures Grew(t0, t', true, Fill(c, m + 1))
    ensures !ok ==> Grew(t0, t', ok, Fill(c, n))
  {
    assert Fill(c, m + 1) == Fill(c, m) + [c];
    assert Fill(c, n) == Fill(c, m + 1) + Fill(c, n - m - 1);
    GrewThen(t0, t, t', true, Fill(c, m), [c]);
    if !ok {
      GrewStops(t0, t', ok, Fill(c, m + 1), Fill(c, n - m - 1));
    }
  }

  lemma GrewChar(t0: seq<Byte>, t: seq<Byte>, ok: bool, a: seq<Byte>, c: Byte, whole: seq<Byte>)
    requires Grew(t0, t, true, a) && a + [c] <= whole
    ensures Grew(t0, t + [c], true, a + [c])
    ensures !ok ==> Grew(t0, t + [c], ok, whole)
  {
    hide Grew;
    assert Grew(t, t + [c], true, [c]) by { GrewOne(t, c); }
    GrewThen(t0, t, t + [c], true, a, [c]);
    if !ok {
      GrewPart(t0, t + [c], ok, a + [c], whole);
    }
  }

  lemma GrewOne(t: seq<Byte>, c: Byte)
    ensures Grew(t, t + [c], true, [c])
  {
  }

  class Printer {
    const ring: RttRing
    const buffer: array<Byte>
    var cnt: nat
    var ret: int
    ghost var text: seq<Byte>   // everything stored so far
    ghost var sent: nat         // how much of it the ring accepted
    ghost var before: seq<Byte> // the stream when printing began
    ghost var room: nat         // the free space when printing began

    ghost predicate Target()
      reads this, ring
    {
      buffer.Length == CHUNK && buffer != ring.buf && ring.Valid()
      && (ring.flags == MODE_BLOCK ==> ring.buf.Length >= 2)
    }

    /** All full chunks got through and the rest is staged. */
    ghost predicate Going()
      requires buffer.Length == CHUNK
      reads this, buffer
    {
      && ret == |text| && cnt < CHUNK && sent + cnt == |text| && sent % CHUNK == 0
      && buffer[..cnt] == text[sent..]
    }

    /** A full chunk was refused, in skip mode altogether. */
    ghost predicate Refused()
      reads this, ring
    {
      && ret == -1 && |text| % CHUNK == 0 && sent < |text| <= sent + CHUNK
      && ring.flags != MODE_BLOCK
      && (ring.flags == MODE_SKIP ==> sent + CHUNK == |text|)
      && (ring.flags == MODE_SKIP || ring.flags == MODE_TRIM ==> room < |text|)
    }

    ghost predicate Ok()
      reads this, ring, ring.buf, buffer
    {
      && Target()
      && sent <= |text|
      && ring.Stream() == before + text[..sent]
      && (ring.flags != MODE_BLOCK ==> ring.Abs().Avail() + sent >= room)
      && if ret >= 0 then Going() else Refused()
    }

    /** The text grew by all of piece, or printing failed inside it. */
    twostate predicate Wrote(piece: seq<Byte>)
      reads this, ring, ring.buf, buffer
    {
      Ok() && before == old(before) && room == old(room) && Grew(old(text), text, ret >= 0, piece)
    }

    constructor (ring: RttRing)
      requires ring.Valid() && (ring.flags == MODE_BLOCK ==> ring.buf.Length >= 2)
      ensures this.ring == ring && fresh(buffer) && Ok() && ret == 0 && text == [] && sent == 0
      ensures before == ring.Stream() && room == ring.Abs().Avail()
    {
      this.ring := ring;
      buffer := new Byte[CHUNK](_ => 0);
      cnt, ret := 0, 0;
      text, sent := [], 0;
      before := ring.Stream();
      room := ring.Abs().Avail();
    }

    method StoreChar(c: Byte)
      requires Ok() && ret >= 0
      modifies this, buffer, ring`wrOff, ring`rdOff, ring`delivered, ring.buf
      ensures Wrote([c]) && text == old(text) + [c]
    {
      hide Refused, Ring.Unread, Ring.Used, RttRing.Stream;
      if cnt + 1 <= CHUNK {
        buffer[cnt] := c;
        cnt := cnt + 1;
        ret := ret + 1;
        text := text + [c];
      }
      assert buffer[..cnt] == text[sent..];
      assert text[..sent] == old(text[..sent]);
      if cnt == CHUNK {
        FlushChunk();
      }
    }

    method FlushChunk()
      requires Target() && cnt == CHUNK && sent + CHUNK == |text| && sent % CHUNK == 0 && ret == |text|
      requires buffer[..] == text[sent..]
      requires ring.Stream() == before + text[..sent]
      requires ring.flags != MODE_BLOCK ==> ring.Abs().Avail() + sent >= room
      modifies this`cnt, this`ret, this`sent, ring`wrOff, ring`rdOff, ring`delivered, ring.buf
      ensures Ok()
    {
      hide Put, RoundSize, Ring.Unread, Ring.Used;
      var status := WriteStaged();
      if status != cnt {
        ret := -1;
      } else {
        cnt := 0;
      }
    }

    /** Writes the staged bytes; what the ring refuses depends on its mode and its free space, which the
        host may have enlarged by reading since the chunk before. */
    method WriteStaged() returns (status: nat)
      requires Target() && cnt <= CHUNK && sent + cnt == |text|
      requires buffer[..cnt] == text[sent..]
      requires ring.Stream() == before + text[..sent]
      requires ring.flags != MODE_BLOCK ==> ring.Abs().Avail() + sent >= room
      modifies this`sent, ring`wrOff, ring`rdOff, ring`delivered, ring.buf
      ensures Target() && status <= cnt && sent == old(sent) + status
      ensures ring.Stream() == before + text[..sent]
      ensures ring.flags != MODE_BLOCK ==> ring.Abs().Avail() + sent >= room
      ensures ring.flags == MODE_BLOCK ==> status == cnt
      ensures status < cnt && ring.flags == MODE_SKIP ==> status == 0
      ensures status < cnt && (ring.flags == MODE_SKIP || ring.flags == MODE_TRIM) ==> room < |text|
    {
      hide Put, RoundSize, Ring.Unread, Ring.Used, RttRing.Stream;
      ring.HostReads(0);
      ghost var r := ring.Abs();
      ghost var data := text[sent..];
      status := ring.WriteNoLock(buffer[..cnt]);
      assert text[..sent] + data[..status] == text[..sent + status];
      sent := sent + status;
      if ring.flags != MODE_BLOCK {
        PutAvail(r, data[..status]);
        if status < cnt && (ring.flags == MODE_SKIP || ring.flags == MODE_TRIM) {
          ChunkRefused(ring.flags, r, |data|);
        }
      }
    }

    /** Padding: one character for every column the number does not fill. */
    method Pad(c: Byte, width: nat, field: nat) returns (fw: nat)
      requires Ok() && ret >= 0 && width >= 1
      modifies this, buffer, ring`wrOff, ring`rdOff, ring`delivered, ring.buf
      ensures Wrote(Fill(c, Short(field, width)))
      ensures fw <= field && (ret >= 0 ==> fw == Min(field, width))
    {
      hide Ok, Grew;
      ghost var t0 := text;
      fw := field;
      NothingGrew(t0);
      while fw != 0 && width < fw
        invariant Ok() && ret >= 0 && before == old(before) && room == old(room)
        invariant fw <= field && (fw < field ==> width <= fw)
        invariant Grew(t0, text, true, Fill(c, field - fw))
      {
        ghost var t := text;
        fw := fw - 1;
        StoreChar(c);
        GrewFill(t0, t, text, ret >= 0, c, field - fw - 1, Short(field, width));
        if ret < 0 {
          return;
        }
      }
      GrewAll(t0, text, ret >= 0, Fill(c, field - fw));
    }

    /** The power of the base that extracts the first digit to print. */
    method FirstDigit(v: nat, base: nat, prec: nat) returns (digit: nat)
      requires v < LIMIT && Fits(base, prec)
      ensures digit == Pow(base, Max(NumLen(v, base), prec) - 1)
    {
      hide NumLen;
      var numDigits := prec;
      digit := 1;
      ghost var j := 0;
      FitsExactly(base, Max(prec, 1));
      StartPower(base);
      hide Pow;
      while true
        invariant digit == Pow(base, j) && digit < LIMIT
        invariant numDigits <= prec
        invariant if numDigits > 1 then j + numDigits == prec
                  else j + 1 >= prec && (j + 1 == Max(prec, 1) || digit <= v)
        decreases numDigits, LIMIT - digit
      {
        if numDigits > 1 {
          numDigits := numDigits - 1;
          PowMono(base, j + 1, prec - 1);
        } else {
          var div := v / digit;
          if div < base {
            DivBelow(v, digit, base);
            DigitFound(v, base, prec, j);
            break;
          }
          DivAbove(v, digit, base);
        }
        PowUp(base, j);
        digit := digit * base % LIMIT;
        j := j + 1;
      }
    }

    method StoreDigits(v: nat, base: nat, prec: nat)
      requires Ok() && ret >= 0 && v < LIMIT && Fits(base, prec)
      modifies this, buffer, ring`wrOff, ring`rdOff, ring`delivered, ring.buf
      ensures Wrote(Body(v, base, prec))
    {
      hide Ok, Grew, Pow, LowDigits, NumLen, Quot, Rem;
      ghost var t0 := text;
      var digit := FirstDigit(v, base, prec);
      ghost var k := Max(NumLen(v, base), prec);
      DigitsStart(v, base, prec);
      var rest := v;
      ghost var n := k;
      NothingGrew(t0);
      while digit != 0
        invariant Ok() && ret >= 0 && before == old(before) && room == old(room)
        invariant n <= k && digit == (if n == 0 then 0 else Pow(base, n - 1))
        invariant rest == Rem(v, Pow(base, n))
        invariant Grew(t0, text, true, LowDigits(Quot(v, Pow(base, n)), base, k - n))
        decreases n
      {
        n := n - 1;
        PowUp(base, n);
        NextDigit(v, base, Pow(base, n), Pow(base, n + 1), k - n - 1);
        var div := Quot(rest, digit);
        rest := rest - div * digit;
        LeadingDigits(v, base, k, n);
        ghost var t := text;
        StoreChar(DigitChar(div));
        GrewChar(t0, t, ret >= 0, LowDigits(Quot(v, Pow(base, n + 1)), base, k - n - 1), DigitChar(div), LowDigits(v, base, k));
        if ret < 0 {
          return;
        }
        PowDown(base, n);
        digit := Quot(digit, base);
      }
      DigitsEnd(v, base);
      GrewAll(t0, text, ret >= 0, LowDigits(v, base, k));
    }

    method CountDigits(v: nat, base: nat, prec: nat) returns (width: nat)
      requires 2 <= base <= 16
      ensures width == Max(NumLen(v, base), prec)
    {
      var number := v;
      width := 1;
      while number >= base
        invariant width >= 1 && number >= 0 && NumLen(number, base) + width - 1 == NumLen(v, base)
        decreases number
      {
        DivSmaller(number, base);
        number := number / base;
        width := width + 1;
      }
      if prec > width {
        width := prec;
      }
    }

    method PrintUnsigned(v: nat, base: nat, prec: nat, field: nat, f: Flags)
      requires Ok() && ret >= 0 && v < LIMIT && Fits(base, prec)
      modifies this, buffer, ring`wrOff, ring`rdOff, ring`delivered, ring.buf
      ensures Wrote(UnsignedText(v, base, prec, field, f))
    {
      hide Ok, Grew, NumLen, LowDigits;
      ghost var t0 := text;
      ghost var body := Body(v, base, prec);
      var width := CountDigits(v, base, prec);
      if !f.left {
        var c := if f.zero && prec == 0 then ZERO else SPACE;
        ghost var pad := Fill(c, Short(field, width));
        var _ := Pad(c, width, field);
        if ret >= 0 {
          ghost var t1 := text;
          StoreDigits(v, base, prec);
          GrewThen(t0, t1, text, ret >= 0, pad, body);
        } else {
          GrewStops(t0, text, ret >= 0, pad, body);
        }
      } else {
        ghost var pad := Fill(SPACE, Short(field, width));
        StoreDigits(v, base, prec);
        if ret >= 0 {
          ghost var t1 := text;
          var _ := Pad(SPACE, width, field);
          GrewThen(t0, t1, text, ret >= 0, body, pad);
        } else {
          GrewStops(t0, text, ret >= 0, body, pad);
        }
      }
    }

    /** Sign, padding and digits of a signed number. */
    method PrintInt(v: int, base: nat, prec: nat, field: nat, f: Flags)
      requires Ok() && ret >= 0 && -0x8000_0000 < v < 0x8000_0000 && Fits(base, prec)
      modifies this, buffer, ring`wrOff, ring`rdOff, ring`delivered, ring.buf
      ensures Wrote(IntText(v, base, prec, field, f))
    {
      hide Ok, Grew, NumLen, LowDigits, Body, UnsignedText, IntText, Fill;
      ghost var t0 := text;
      var number := if v < 0 then -v else v;
      var width := CountDigits(number, base, prec);
      var fw := field;
      if fw > 0 && (v < 0 || f.plus) {
        fw := fw - 1;
      }
      ghost var parts := IntParts(v, base, prec, field, f);
      IntTextParts(v, base, prec, field, f);
      fw := PadAndSign(v, width, fw, prec, f, parts);
      ghost var front := parts.blanks + parts.sign + parts.zeros;
      if ret < 0 {
        GrewStops(t0, text, ret >= 0, front, parts.number);
        return;
      }
      ghost var t1 := text;
      PrintUnsigned(number, base, prec, fw, f);
      GrewThen(t0, t1, text, ret >= 0, front, parts.number);
    }

    /** Blanks before the sign, or zeros behind it. */
    method PadAndSign(v: int, width: nat, field: nat, prec: nat, f: Flags, ghost parts: Parts) returns (fw: nat)
      requires Ok() && ret >= 0 && width >= 1
      requires parts.blanks == if (!f.zero || prec != 0) && !f.left then Fill(SPACE, Short(field, width)) else []
      requires parts.sign == Sign(v, f)
      requires parts.zeros == if f.zero && !f.left && prec == 0 then Fill(ZERO, Short(field, width)) else []
      modifies this, buffer, ring`wrOff, ring`rdOff, ring`delivered, ring.buf
      ensures Wrote(parts.blanks + parts.sign + parts.zeros)
      ensures ret >= 0 ==> fw == if f.left then field else Min(field, width)
    {
      hide Ok, Grew, Fill, Sign;
      ghost var t0 := text;
      fw := field;
      NothingGrew(t0);
      if (!f.zero || prec != 0) && !f.left {
        fw := Pad(SPACE, width, fw);
      }
      if ret >= 0 {
        ghost var t1 := text;
        StoreSign(v, f);
        GrewThen(t0, t1, text, ret >= 0, parts.blanks, parts.sign);
      } else {
        GrewStops(t0, text, ret >= 0, parts.blanks, parts.sign);
      }
      if ret >= 0 {
        ghost var t2 := text;
        NothingGrew(t2);
        if f.zero && !f.left && prec == 0 {
          fw := Pad(ZERO, width, fw);
        }
        GrewThen(t0, t2, text, ret >= 0, parts.blanks + parts.sign, parts.zeros);
      } else {
        GrewStops(t0, text, ret >= 0, parts.blanks + parts.sign, parts.zeros);
      }
    }

    method StoreSign(v: int, f: Flags)
      requires Ok() && ret >= 0
      modifies this, buffer, ring`wrOff, ring`rdOff, ring`delivered, ring.buf
      ensures Wrote(Sign(v, f))
    {
      if v < 0 {
        StoreChar(MINUS);
      } else if f.plus {
        StoreChar(PLUS);
      }
    }

    method StoreString(s: seq<Byte>)
      requires Ok() && ret >= 0
      modifies this, buffer, ring`wrOff, ring`rdOff, ring`delivered, ring.buf
      ensures Wrote(s)
    {
      hide Ok, Grew;
      ghost var t0 := text;
      NothingGrew(t0);
      assert s[..0] == [];
      var i := 0;
      while i < |s|
        invariant i <= |s| && Ok() && ret >= 0 && before == old(before) && room == old(room)
        invariant Grew(t0, text, true, s[..i])
      {
        ghost var t := text;
        StoreChar(s[i]);
        assert s[..i + 1] == s[..i] + [s[i]];
        GrewChar(t0, t, ret >= 0, s[..i], s[i], s);
        if ret < 0 {
          return;
        }
        i := i + 1;
      }
      assert s[..i] == s;
      GrewAll(t0, text, ret >= 0, s);
    }

    /** Carries out one conversion. */
    method Convert(sp: Spec, c: Byte, args: seq<Arg>)
      requires Ok() && ret >= 0 && Accepts(sp, c, args)
      modifies this, buffer, ring`wrOff, ring`rdOff, ring`delivered, ring.buf
      ensures Wrote(Piece(sp, c, args))
    {
      hide Ok, Grew, IntText, UnsignedText;
      if c == LOW_C {
        StoreChar(args[0].v % 256);
      } else if c == LOW_D {
        PrintInt(args[0].v, 10, sp.prec, sp.width, sp.flags);
      } else if c == LOW_U {
        PrintUnsigned(Unsigned(args[0].v), 10, sp.prec, sp.width, sp.flags);
      } else if c == LOW_X || c == BIG_X {
        PrintUnsigned(Unsigned(args[0].v), 16, sp.prec, sp.width, sp.flags);
      } else if c == LOW_S {
        StoreString(args[0].s);
      } else if c == LOW_P {
        PrintUnsigned(Unsigned(args[0].v), 16, 8, 8, Flags(false, false, false));
      } else if c == PERCENT {
        StoreChar(PERCENT);
      } else {
        NothingGrew(text);
      }
    }

    /** Prints the literal character or the conversion at i. */
    method PrintItem(fmt: seq<Byte>, i: nat, args: seq<Arg>) returns (j: nat, rest: seq<Arg>, ghost piece: seq<Byte>)
      requires Ok() && ret >= 0 && i < |fmt| && WellFormed(fmt, i, args)
      modifies this, buffer, ring`wrOff, ring`rdOff, ring`delivered, ring.buf
      ensures Wrote(piece) && i < j <= |fmt| && WellFormed(fmt, j, rest)
      ensures TextFrom(fmt, i, args) == piece + TextFrom(fmt, j, rest)
    {
      hide Ok, Grew, Piece, Accepts, SpecFrom;
      var c := At(fmt, i);
      rest := args;
      if c == PERCENT {
        var sp;
        sp, j := ReadSpec(fmt, i + 1);
        c := At(fmt, j);
        piece := Piece(sp, c, rest);
        Convert(sp, c, rest);
        rest := Rest(c, rest);
      } else {
        j := i;
        piece := [c];
        StoreChar(c);
      }
      j := j + 1;
    }

    /** Copies literal characters and carries out the conversions, until the end or a refused chunk. */
    method PrintAll(fmt: seq<Byte>, args: seq<Arg>)
      requires Ok() && ret >= 0 && WellFormed(fmt, 0, args)
      modifies this, buffer, ring`wrOff, ring`rdOff, ring`delivered, ring.buf
      ensures Wrote(TextFrom(fmt, 0, args))
    {
      hide Ok, Grew, WellFormed, TextFrom;
      ghost var t0 := text;
      ghost var full, done := TextFrom(fmt, 0, args), [];
      var i, rest := 0, args;
      NothingGrew(t0);
      assert [] + full == full;
      while true
        invariant Ok() && ret >= 0 && before == old(before) && room == old(room)
        invariant i <= |fmt| && WellFormed(fmt, i, rest)
        invariant Grew(t0, text, true, done) && done + TextFrom(fmt, i, rest) == full
        decreases |fmt| - i
      {
        FormatEnds(fmt, i, rest);
        if At(fmt, i) == 0 {
          assert done + [] == done;
          break;
        }
        ghost var t := text;
        ghost var piece;
        i, rest, piece := PrintItem(fmt, i, rest);
        ghost var tail := TextFrom(fmt, i, rest);
        assert done + (piece + tail) == done + piece + tail;
        GrewThen(t0, t, text, ret >= 0, done, piece);
        done := done + piece;
        if ret < 0 {
          GrewStops(t0, text, false, done, tail);
          break;
        }
      }
    }
  }

  lemma FormatEnds(fmt: seq<Byte>, i: nat, args: seq<Arg>)
    requires i <= |fmt| && WellFormed(fmt, i, args)
    ensures At(fmt, i) == 0 <==> i == |fmt|
    ensures i == |fmt| ==> TextFrom(fmt, i, args) == []
  {
  }

  /** A signed field in printing order. */
  datatype Parts = Parts(blanks: seq<Byte>, sign: seq<Byte>, zeros: seq<Byte>, number: seq<Byte>)

  function IntParts(v: int, base: nat, prec: nat, field: nat, f: Flags): (p: Parts)
    requires 2 <= base <= 16
  {
    var width := Max(NumLen(Abs(v), base), prec);
    var fw := if field > 0 && (v < 0 || f.plus) then field - 1 else field;
    if f.left then Parts([], Sign(v, f), [], UnsignedText(Abs(v), base, prec, fw, f))
    else if f.zero && prec == 0 then
      Parts([], Sign(v, f), Fill(ZERO, Short(fw, width)), UnsignedText(Abs(v), base, prec, Min(fw, width), f))
    else
      Parts(Fill(SPACE, Short(fw, width)), Sign(v, f), [], UnsignedText(Abs(v), base, prec, Min(fw, width), f))
  }

  /** Printed one after the other, the parts are the specified text. */
  lemma IntTextParts(v: int, base: nat, prec: nat, field: nat, f: Flags)
    requires 2 <= base <= 16
    ensures var p := IntParts(v, base, prec, field, f);
      && p.blanks + p.sign + p.zeros + p.number == IntText(v, base, prec, field, f)
      && p.blanks + (p.sign + p.zeros + p.number) == IntText(v, base, prec, field, f)
      && p.blanks + p.sign + (p.zeros + p.number) == IntText(v, base, prec, field, f)
  {
    hide LowDigits, NumLen, Body;
    var p, body := IntParts(v, base, prec, field, f), Body(Abs(v), base, prec);
    Regroup(p.blanks, p.sign, p.zeros, p.number);
    NumberPart(v, base, prec, field, f);
    PartsJoin(p.sign, body, Short(field, |p.sign| + |body|));
  }

  /** The digits, with the blanks of a left-justified field behind them. */
  lemma NumberPart(v: int, base: nat, prec: nat, field: nat, f: Flags)
    requires 2 <= base <= 16
    ensures var p, body := IntParts(v, base, prec, field, f), Body(Abs(v), base, prec);
      p.number == if f.left then body + Fill(SPACE, Short(field, |p.sign| + |body|)) else body
  {
    hide LowDigits, NumLen, Body;
    var body := Body(Abs(v), base, prec);
    NoFill(ZERO, body);
    NoFill(SPACE, body);
  }

  lemma NoFill(c: Byte, s: seq<Byte>)
    ensures Fill(c, 0) + s == s
  {
  }

  lemma PartsJoin(sign: seq<Byte>, body: seq<Byte>, pad: nat)
    ensures [] + sign + [] + (body + Fill(SPACE, pad)) == sign + body + Fill(SPACE, pad)
    ensures [] + sign + Fill(ZERO, pad) + body == sign + Fill(ZERO, pad) + body
    ensures Fill(SPACE, pad) + sign + [] + body == Fill(SPACE, pad) + sign + body
  {
  }

  lemma Regroup(a: seq<Byte>, b: seq<Byte>, c: seq<Byte>, d: seq<Byte>)
    ensures a + (b + c + d) == a + b + c + d && a + b + (c + d) == a + b + c + d
  {
  }

  // ------------------------------------------------ reading the format

  method ReadFlags(fmt: seq<Byte>, start: nat) returns (f: Flags, i: nat)
    requires start <= |fmt|
    ensures (f, i) == FlagsFrom(fmt, start, Flags(false, false, false))
  {
    f, i := Flags(false, false, false), start;
    while IsFlag(At(fmt, i))
      invariant i <= |fmt| && FlagsFrom(fmt, i, f) == FlagsFrom(fmt, start, Flags(false, false, false))
      decreases |fmt| - i
    {
      f := AddFlag(f, At(fmt, i));
      i := i + 1;
    }
  }

  method ReadNumber(fmt: seq<Byte>, start: nat) returns (n: nat, i: nat)
    requires start <= |fmt|
    ensures n < LIMIT && (n, i) == NumberFrom(fmt, start, 0)
  {
    n, i := 0, start;
    while IsDigit(At(fmt, i))
      invariant i <= |fmt| && n < LIMIT && NumberFrom(fmt, i, n) == NumberFrom(fmt, start, 0)
      decreases |fmt| - i
    {
      n := (n * 10 + (At(fmt, i) - ZERO)) % LIMIT;
      i := i + 1;
    }
  }

  method ReadSpec(fmt: seq<Byte>, start: nat) returns (sp: Spec, i: nat)
    requires start <= |fmt|
    ensures (sp, i) == SpecFrom(fmt, start)
  {
    var f, width;
    f, i := ReadFlags(fmt, start);
    width, i := ReadNumber(fmt, i);
    var prec := 0;
    if At(fmt, i) == DOT {
      prec, i := ReadNumber(fmt, i + 1);
    }
    ghost var j := i;
    while IsLength(At(fmt, i))
      invariant i <= |fmt| && LengthFrom(fmt, i) == LengthFrom(fmt, j)
      decreases |fmt| - i
    {
      i := i + 1;
    }
    sp := Spec(f, width, prec);
  }

  /** Prints a well-formed format.  `sent` bytes of its text reach the stream: all of it in blocking
      mode or when it fits, otherwise a prefix that in skip mode ends at a chunk boundary or with the
      text.  A result below zero means that a full chunk was refused; otherwise every full chunk got
      through and the last, partial one is counted twice. */
  method Vprintf(ring: RttRing, fmt: seq<Byte>, args: seq<Arg>) returns (r: int, ghost sent: nat)
    requires ring.Valid() && (ring.flags == MODE_BLOCK ==> ring.buf.Length >= 2)
    requires WellFormed(fmt, 0, args)
    modifies ring`wrOff, ring`rdOff, ring`delivered, ring.buf
    ensures ring.Valid()
    ensures var text := TextFrom(fmt, 0, args);
      && sent <= |text|
      && ring.Stream() == old(ring.Stream()) + text[..sent]
      && (r >= 0 ==> r == |text| + |text| % 64 && sent >= |text| - |text| % 64)
      && (r < 0 ==> r == -1 && sent < |text| - |text| % 64)
      && (ring.flags == MODE_SKIP ==> sent % 64 == 0 || sent == |text|)
      && (ring.flags == MODE_BLOCK ==> sent == |text|)
      && (ring.flags in {MODE_SKIP, MODE_TRIM} && |text| <= old(ring.Abs().Avail()) ==> sent == |text|)
  {
    var p := new Printer(ring);
    p.PrintAll(fmt, args);
    r, sent := Finish(p, TextFrom(fmt, 0, args));
  }

  lemma RestLength(sent: nat, cnt: nat)
    ensures sent % CHUNK == 0 && cnt < CHUNK ==> (sent + cnt) % CHUNK == cnt
  {
  }

  lemma ShortOf(sent: nat, chunks: nat, n: nat)
    ensures chunks % CHUNK == 0 && sent < chunks <= n ==> sent < n - n % CHUNK
    ensures chunks % CHUNK == 0 && sent + CHUNK == chunks ==> sent % CHUNK == 0
  {
  }

  /** Writes the staged rest, if any, and computes the result. */
  method Finish(p: Printer, ghost full: seq<Byte>) returns (r: int, ghost sent: nat)
    requires p.Ok() && p.text <= full && (p.ret >= 0 ==> p.text == full)
    modifies p, p.ring`wrOff, p.ring`rdOff, p.ring`delivered, p.ring.buf
    ensures p.ring.Valid() && sent <= |full| && p.ring.Stream() == old(p.before) + full[..sent]
    ensures r >= 0 ==> r == |full| + |full| % CHUNK && sent >= |full| - |full| % CHUNK
    ensures r < 0 ==> r == -1 && sent < |full| - |full| % CHUNK
    ensures p.ring.flags == MODE_SKIP ==> sent % CHUNK == 0 || sent == |full|
    ensures p.ring.flags == MODE_BLOCK ==> sent == |full|
    ensures p.ring.flags in {MODE_SKIP, MODE_TRIM} && |full| <= old(p.room) ==> sent == |full|
  {
    hide Ring.Unread, Ring.Used, RttRing.Stream;
    RestLength(p.sent, p.cnt);
    ShortOf(p.sent, |p.text|, |full|);
    r := p.ret;
    if r > 0 {
      if p.cnt != 0 {
        var _ := p.WriteStaged();
      }
      r := r + p.cnt;
    }
    sent := p.sent;
  }
}
