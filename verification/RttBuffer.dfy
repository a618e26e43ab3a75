/** The ring as the target runs it: one byte array and two offsets changed in place, with
every write path and the read path.  Each method is tied to the functions of module Ring.
`delivered` records what a host reading at its own pace has received.
*/
module RttBuffer {
  import opened Ring
  import opened RingOverwrite

  const UNSIGNED_LIMIT: nat := 0x1_0000_0000

  /** Subtraction of C `unsigned` values. */
  function SubU(a: nat, b: nat): (r: nat)
  {
    (a - b) % UNSIGNED_LIMIT
  }

  lemma SubSmall(a: nat, b: nat)
    ensures b <= a < UNSIGNED_LIMIT ==> SubU(a, b) == a - b
  {
  }

  /** Handing the oldest bytes to the host leaves the stream as it was. */
  lemma TakeStream(delivered: seq<Byte>, r: Ring, m: nat)
    requires r.Valid() && m <= r.Used()
    ensures delivered + r.Unread()[..m] + Take(r, m).Unread() == delivered + r.Unread()
    ensures Take(r, m).Used() == r.Used() - m
  {
    TakeUsed(r, m);
    hide *;
    TakeDrops(r, m);
    SplitJoin(delivered, r.Unread(), m);
  }

  lemma TakeUsed(r: Ring, m: nat)
    requires r.Valid() && m <= r.Used()
    ensures Take(r, m).Used() == r.Used() - m
  {
  }

  lemma SplitJoin(a: seq<Byte>, b: seq<Byte>, m: nat)
    requires m <= |b|
    ensures a + b[..m] + b[m..] == a + b
  {
  }

  lemma PutStream(delivered: seq<Byte>, r: Ring, data: seq<Byte>)
    requires r.Valid() && |data| <= r.Avail()
    ensures delivered + Put(r, data).Unread() == delivered + r.Unread() + data
  {
    PutAppends(r, data);
  }

  lemma RoundsStep(buf: seq<Byte>, wr: nat, data: seq<Byte>, avail: nat)
    requires |buf| >= 2 && 0 < avail && wr + avail <= |buf|
    ensures avail > |data| ==> Rounds(buf, wr, data, avail) == (Copy(buf, wr, data), wr + |data|)
    ensures avail <= |data| ==>
      Rounds(buf, wr, data, avail) ==
        if |data| == avail then (Copy(buf, wr, data[..avail]), 0)
        else Rounds(Copy(buf, wr, data[..avail]), 0, data[avail..], |buf| - 1)
  {
    hide Copy;
  }

  lemma PutNothing(r: Ring, data: seq<Byte>)
    requires r.Valid()
    ensures Put(r, data[..0]) == r
  {
    StageNone(r, data[..0]);
  }

  /** How a read of a wrapped ring cuts the oldest unread bytes in two: up to the end of the buffer,
      then from its start. */
  function FirstPiece(r: Ring, size: nat): (n: nat)
    requires r.Valid()
    ensures r.rd + n <= |r.buf| && n <= size
  {
    if r.rd > r.wr then Min(|r.buf| - r.rd, size) else 0
  }

  function SecondStart(r: Ring, size: nat): (at: nat)
    requires r.Valid()
    ensures at < |r.buf|
  {
    if r.rd + FirstPiece(r, size) == |r.buf| then 0 else r.rd + FirstPiece(r, size)
  }

  /** The count of the second piece may wrap below zero; it is then cut to what the caller takes. */
  lemma ReadCounts(r: Ring, size: nat)
    requires r.Valid() && |r.buf| < UNSIGNED_LIMIT
    ensures var first, at := FirstPiece(r, size), SecondStart(r, size);
      var second := Min(SubU(r.wr, at), size - first);
      && first + second == Min(size, r.Used())
      && at + second <= |r.buf|
      && Wrap(r.rd + first + second, |r.buf|) == at + second
  {
    hide SubU;
    SubSmall(r.wr, SecondStart(r, size));
  }

  lemma ReadBytes(r: Ring, size: nat)
    requires r.Valid()
    ensures var first, n := FirstPiece(r, size), Min(size, r.Used());
      && first <= n && SecondStart(r, size) + (n - first) <= |r.buf|
      && r.Unread()[..n] == r.buf[r.rd..r.rd + first] + r.buf[SecondStart(r, size)..SecondStart(r, size) + (n - first)]
  {
  }

  class RttRing {
    const buf: array<Byte>
    var wrOff: nat
    var rdOff: nat
    var flags: nat
    ghost var delivered: seq<Byte>

    ghost predicate Valid()
      reads this
    {
      buf.Length < UNSIGNED_LIMIT && wrOff < buf.Length && rdOff < buf.Length
    }

    ghost function Abs(): (r: Ring)
      reads this, buf
    {
      Ring(buf[..], wrOff, rdOff)
    }

    /** Everything accepted so far: what the host has, then what it can still read. */
    ghost function Stream(): (s: seq<Byte>)
      requires Valid()
      reads this, buf
    {
      delivered + Abs().Unread()
    }

    constructor (size: nat, flags: nat)
      requires 0 < size < UNSIGNED_LIMIT
      ensures Valid() && buf.Length == size && fresh(buf) && this.flags == flags
      ensures wrOff == rdOff == 0 && delivered == [] && Stream() == []
    {
      buf := new Byte[size](_ => 0);
      wrOff, rdOff := 0, 0;
      this.flags := flags;
      delivered := [];
    }

    /** memcpy into the buffer. */
    method CopyIn(at: nat, data: seq<Byte>)
      requires at + |data| <= buf.Length
      modifies buf
      ensures forall i :: 0 <= i < buf.Length ==>
                buf[i] == if at <= i < at + |data| then data[i - at] else old(buf[i])
    {
      forall i | 0 <= i < |data| {
        buf[at + i] := data[i];
      }
    }

    method GetAvailWriteSpace() returns (r: nat)
      requires Valid()
      ensures r == Abs().Avail()
    {
      if rdOff <= wrOff {
        r := buf.Length - 1 - wrOff + rdOff;
      } else {
        r := rdOff - wrOff - 1;
      }
    }

    /** Appends data that is known to fit, in one piece or around the end. */
    method WriteNoCheck(data: seq<Byte>)
      requires Valid() && |data| <= Abs().Avail()
      modifies this`wrOff, buf
      ensures Valid() && Abs() == Put(old(Abs()), data)
    {
      var rem := buf.Length - wrOff;
      if rem > |data| {
        CopyIn(wrOff, data);
        wrOff := wrOff + |data|;
      } else {
        CopyIn(wrOff, data[..rem]);
        CopyIn(0, data[rem..]);
        wrOff := |data| - rem;
      }
      assert buf[..] == Put(old(Abs()), data).buf;
    }

    /** The host reads some bytes, at least as many as it is held to. */
    method HostReads(least: nat)
      requires Valid() && least <= Abs().Used()
      modifies this`rdOff, this`delivered
      ensures Valid() && Abs().Avail() >= old(Abs().Avail()) + least
      ensures Stream() == old(Stream()) && old(delivered) <= delivered
    {
      hide Ring.Unread;
      ghost var before := Abs();
      var used := if rdOff <= wrOff then wrOff - rdOff else buf.Length - rdOff + wrOff;
      var m: nat :| least <= m <= used;
      rdOff := Wrap(rdOff + m, buf.Length);
      TakeStream(delivered, before, m);
      delivered := delivered + before.Unread()[..m];
      assert Abs() == Take(before, m);
    }

    /** A host that keeps up: it reads at least a byte when the ring is full. */
    method HostTurn()
      requires Valid() && buf.Length >= 2
      modifies this`rdOff, this`delivered
      ensures Valid() && Abs().Avail() >= 1 && Abs().Avail() >= old(Abs().Avail())
      ensures Stream() == old(Stream()) && old(delivered) <= delivered
    {
      hide Ring.Unread;
      var avail := GetAvailWriteSpace();
      HostReads(if avail == 0 then 1 else 0);
    }

    /** One round of a blocking write: as much as fits before the end of the buffer. */
    method BlockRound(data: seq<Byte>) returns (n: nat)
      requires Valid() && Abs().Avail() >= 1
      modifies this`wrOff, buf
      ensures Valid() && n == RoundSize(MODE_BLOCK, old(Abs()), |data|) && (data != [] ==> n > 0)
      ensures Abs() == Put(old(Abs()), data[..n])
    {
      n := if rdOff > wrOff then rdOff - wrOff - 1 else buf.Length - (wrOff - rdOff + 1);
      n := Min(n, buf.Length - wrOff);
      n := Min(n, |data|);
      CopyIn(wrOff, data[..n]);
      var w := wrOff + n;
      if w == buf.Length {
        w := 0;
      }
      wrOff := w;
      assert buf[..] == Put(old(Abs()), data[..n]).buf;
    }

    /** A round as the stream sees it. */
    method StoreRound(data: seq<Byte>) returns (n: nat)
      requires Valid() && Abs().Avail() >= 1
      modifies this`wrOff, buf
      ensures Valid() && n <= |data| && (data != [] ==> n > 0)
      ensures Stream() == old(Stream()) + data[..n]
    {
      hide Ring.Unread, Put, RoundSize;
      ghost var room := Abs();
      n := BlockRound(data);
      PutStream(delivered, room, data[..n]);
    }

    /** Writes everything, waiting for the host whenever the ring is full; it returns because the host
        keeps reading. */
    method WriteBlocking(data: seq<Byte>) returns (written: nat)
      requires Valid() && buf.Length >= 2
      modifies this`wrOff, this`rdOff, this`delivered, buf
      ensures Valid() && written == |data|
      ensures Stream() == old(Stream()) + data && old(delivered) <= delivered
    {
      hide Ring.Unread, Put, RoundSize, Stream;
      ghost var start := old(Stream());
      written := 0;
      var numBytes := |data|;
      var first := true;
      while first || numBytes != 0
        invariant Valid() && buf.Length >= 2
        invariant 0 <= numBytes && written + numBytes == |data|
        invariant old(delivered) <= delivered
        invariant Stream() == start + data[..written]
        decreases first, numBytes
      {
        HostTurn();
        var n := StoreRound(data[written..]);
        assert data[..written + n] == data[..written] + data[written..][..n];
        written := written + n;
        numBytes := numBytes - n;
        first := false;
      }
      assert data[..written] == data;
    }

    /** Writes according to the flags of the buffer; returns how many bytes were stored. */
    method WriteNoLock(data: seq<Byte>) returns (status: nat)
      requires Valid() && (flags == MODE_BLOCK ==> buf.Length >= 2)
      modifies this`wrOff, this`rdOff, this`delivered, buf
      ensures Valid() && old(delivered) <= delivered
      ensures flags == MODE_BLOCK ==> status == |data|
      ensures flags != MODE_BLOCK ==>
        && status == RoundSize(flags, old(Abs()), |data|)
        && Abs() == Put(old(Abs()), data[..status]) && delivered == old(delivered)
      ensures status <= |data| && Stream() == old(Stream()) + data[..status]
    {
      hide Put, RoundSize, Ring.Unread;
      if flags == MODE_BLOCK {
        status := WriteBlocking(data);
        assert data[..status] == data;
      } else {
        status := WriteNoWait(data);
        PutStream(delivered, old(Abs()), data[..status]);
      }
    }

    /** The modes that never wait. */
    method WriteNoWait(data: seq<Byte>) returns (status: nat)
      requires Valid() && flags != MODE_BLOCK
      modifies this`wrOff, buf
      ensures Valid() && status == RoundSize(flags, old(Abs()), |data|)
      ensures Abs() == Put(old(Abs()), data[..status])
    {
      StageNone(Abs(), data[..0]);
      if flags == MODE_SKIP {
        var avail := GetAvailWriteSpace();
        if avail < |data| {
          status := 0;
        } else {
          status := |data|;
          assert data[..status] == data;
          WriteNoCheck(data);
        }
      } else if flags == MODE_TRIM {
        var avail := GetAvailWriteSpace();
        status := if avail < |data| then avail else |data|;
        WriteNoCheck(data[..status]);
      } else {
        status := 0;
      }
    }

    /** Appends data that fits before the end of the buffer with room to spare. */
    method StoreLinear(data: seq<Byte>)
      requires Valid() && |data| <= Abs().Avail() && wrOff + |data| < buf.Length
      modifies this`wrOff, buf
      ensures Valid() && Abs() == Put(old(Abs()), data)
    {
      hide Ring.Unread;
      CopyIn(wrOff, data);
      wrOff := wrOff + |data|;
      assert buf[..] == Put(old(Abs()), data).buf;
    }

    /** Appends data in two pieces, the second at the start of the buffer. */
    method StoreAround(data: seq<Byte>)
      requires Valid() && |data| <= Abs().Avail() && wrOff + |data| >= buf.Length
      modifies this`wrOff, buf
      ensures Valid() && Abs() == Put(old(Abs()), data)
    {
      hide Ring.Unread;
      var rem := buf.Length - wrOff;
      CopyIn(wrOff, data[..rem]);
      var n := |data| - rem;
      if n != 0 {
        CopyIn(0, data[rem..]);
      }
      wrOff := n;
      assert buf[..] == Put(old(Abs()), data).buf;
    }

    /** The fast skip writer: same state as a skip-mode WriteNoLock, for every ring and every data. */
    method WriteSkipNoLock(data: seq<Byte>) returns (copied: nat)
      requires Valid()
      modifies this`wrOff, buf
      ensures Valid()
      ensures copied == if old(Abs().Avail()) >= |data| then 1 else 0
      ensures Abs() == Put(old(Abs()), data[..RoundSize(MODE_SKIP, old(Abs()), |data|)])
    {
      hide Put, Ring.Unread;
      PutNothing(Abs(), data);
      assert data[..|data|] == data;
      if rdOff <= wrOff {
        var avail := buf.Length - wrOff - 1;
        if avail >= |data| {
          StoreLinear(data);
          return 1;
        }
        avail := avail + rdOff;
        if avail >= |data| {
          StoreAround(data);
          return 1;
        }
      } else {
        var avail := rdOff - wrOff - 1;
        if avail >= |data| {
          StoreLinear(data);
          return 1;
        }
      }
      copied := 0;
    }

    /** The single-byte skip writer, again the state of a skip-mode WriteNoLock. */
    method PutCharSkipNoLock(c: Byte) returns (status: nat)
      requires Valid()
      modifies this`wrOff, buf
      ensures Valid()
      ensures status == RoundSize(MODE_SKIP, old(Abs()), 1)
      ensures Abs() == Put(old(Abs()), [c][..status])
    {
      ghost var before := Abs();
      StageNone(before, [c][..0]);
      var w := wrOff + 1;
      if w == buf.Length {
        w := 0;
      }
      if w != rdOff {
        buf[wrOff] := c;
        wrOff := w;
        status := 1;
        assert buf[..] == Put(before, [c]).buf;
      } else {
        status := 0;
      }
    }

    /** Writes all data, dropping the oldest bytes when there is no room. */
    method WriteWithOverwriteNoLock(data: seq<Byte>)
      requires Valid() && buf.Length >= 2
      modifies this`wrOff, this`rdOff, buf
      ensures Valid() && Abs() == Overwrite(old(Abs()), data)
    {
      var avail;
      if wrOff == rdOff {
        avail := buf.Length - 1;
      } else if wrOff < rdOff {
        avail := rdOff - wrOff - 1;
      } else {
        avail := rdOff - wrOff - 1 + buf.Length;
      }
      if |data| > avail {
        AdvanceRead(|data| - avail);
      }
      assert rdOff == NextRead(old(Abs()), |data|);
      CopyRounds(data);
    }

    method CopyRounds(data: seq<Byte>)
      requires Valid() && buf.Length >= 2
      modifies this`wrOff, buf
      ensures Valid() && (buf[..], wrOff) == Rounds(old(buf[..]), old(wrOff), data, buf.Length - old(wrOff))
    {
      hide Rounds, Copy, Ring.Unread;
      ghost var target := Rounds(buf[..], wrOff, data, buf.Length - wrOff);
      var rest := data;
      var avail := buf.Length - wrOff;
      while true
        invariant wrOff < buf.Length && 0 < avail && wrOff + avail <= buf.Length
        invariant Rounds(buf[..], wrOff, rest, avail) == target
        decreases |rest|
      {
        RoundsStep(buf[..], wrOff, rest, avail);
        if avail > |rest| {
          CopyRound(rest);
          wrOff := wrOff + |rest|;
          break;
        }
        CopyRound(rest[..avail]);
        wrOff := 0;
        rest := rest[avail..];
        avail := buf.Length - 1;
        if |rest| == 0 {
          break;
        }
      }
    }

    method CopyRound(data: seq<Byte>)
      requires wrOff + |data| <= buf.Length
      modifies buf
      ensures buf[..] == Copy(old(buf[..]), wrOff, data)
    {
      CopyIn(wrOff, data);
    }

    method AdvanceRead(n: nat)
      requires Valid()
      modifies this`rdOff
      ensures Valid() && rdOff == Reduce(old(rdOff) + n, buf.Length)
    {
      rdOff := rdOff + n;
      while rdOff >= buf.Length
        invariant 0 < buf.Length && Reduce(rdOff, buf.Length) == Reduce(old(rdOff) + n, buf.Length)
      {
        rdOff := rdOff - buf.Length;
      }
    }

    /** Reads the oldest unread bytes, at most `size` of them.  The second count may wrap below zero;
        it is then cut to the empty remainder of the caller's buffer. */
    method ReadNoLock(size: nat) returns (data: seq<Byte>)
      requires Valid() && size < UNSIGNED_LIMIT
      modifies this`rdOff, this`delivered
      ensures Valid() && data == old(Abs().Unread())[..Min(size, old(Abs().Used()))]
      ensures Abs() == Take(old(Abs()), |data|)
      ensures delivered == old(delivered) + data && Stream() == old(Stream())
    {
      hide Ring.Unread;
      ghost var before := Abs();
      var rd;
      data, rd := CopyOut(size);
      if |data| != 0 {
        rdOff := rd;
      }
      delivered := delivered + data;
      TakeStream(old(delivered), before, |data|);
      assert Abs() == Take(before, |data|);
    }

    /** memcpy out of the buffer. */
    method CopyFrom(at: nat, n: nat) returns (piece: seq<Byte>)
      requires at + n <= buf.Length
      ensures piece == Abs().buf[at..at + n]
    {
      piece := buf[at..at + n];
    }

    /** The bytes a read takes, up to the end of the buffer and then from its start. */
    method CopyOut(size: nat) returns (data: seq<Byte>, rd: nat)
      requires Valid() && size < UNSIGNED_LIMIT
      ensures data == Abs().Unread()[..Min(size, Abs().Used())]
      ensures rd == Wrap(rdOff + |data|, buf.Length)
    {
      hide *;
      RingOf();
      ReadCounts(Abs(), size);
      ReadBytes(Abs(), size);
      var room;
      data, rd, room := CopyFirst(size);
      var rem := Min(SubU(wrOff, rd), room);
      var piece := CopyFrom(rd, rem);
      data := data + piece;
      rd := rd + rem;
    }

    lemma RingOf()
      requires Valid()
      ensures var r := Abs();
        r.Valid() && r.buf == buf[..] && r.wr == wrOff && r.rd == rdOff && |r.buf| == buf.Length < UNSIGNED_LIMIT
    {
    }

    /** When the ring has wrapped: the bytes up to the end of the buffer. */
    method CopyFirst(size: nat) returns (data: seq<Byte>, rd: nat, room: nat)
      requires Valid()
      ensures var r := Abs();
        && data == r.buf[r.rd..r.rd + FirstPiece(r, size)]
        && rd == SecondStart(r, size) && room == size - FirstPiece(r, size)
    {
      room, rd, data := size, rdOff, [];
      if rd > wrOff {
        var rem := Min(buf.Length - rd, room);
        data := CopyFrom(rd, rem);
        room := room - rem;
        rd := rd + rem;
        if rd == buf.Length {
          rd := 0;
        }
      }
    }

    /** The byte count the API reports: right exactly when the ring has not wrapped, or the offsets are
        half the range of `unsigned` apart. */
    method GetBytesInBuffer() returns (r: nat)
      requires Valid()
      ensures r == Abs().Used() <==> rdOff <= wrOff || rdOff - wrOff == UNSIGNED_LIMIT / 2
    {
      if rdOff <= wrOff {
        r := wrOff - rdOff;
      } else {
        r := SubU(buf.Length, SubU(wrOff, rdOff));
      }
    }
  }
}
