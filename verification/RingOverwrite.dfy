/** The writer that drops the oldest bytes instead of waiting.

After the first wrap-around a round stores one byte less than the buffer holds, so the
writer keeps its promise - the ring ends up with the last bytes of old content plus data
- only for data that needs at most one wrap-around.  `OverwriteExact` gives that bound.
*/
module RingOverwrite {
  import opened Ring

  function Copy(buf: seq<Byte>, at: nat, data: seq<Byte>): (r: seq<Byte>)
    requires at + |data| <= |buf|
    ensures |r| == |buf|
    ensures forall i :: 0 <= i < |buf| ==> r[i] == if at <= i < at + |data| then data[i - at] else buf[i]
  {
    buf[..at] + data + buf[at + |data|..]
  }

  /** The copy rounds: `avail` bytes to the end of the buffer first, then size - 1 per round. */
  function Rounds(buf: seq<Byte>, wr: nat, data: seq<Byte>, avail: nat): (r: (seq<Byte>, nat))
    requires |buf| >= 2 && 0 < avail && wr + avail <= |buf|
    ensures |r.0| == |buf| && r.1 < |buf|
    decreases |data|
  {
    if avail > |data| then (Copy(buf, wr, data), wr + |data|)
    else
      var next := Copy(buf, wr, data[..avail]);
      if |data| == avail then (next, 0) else Rounds(next, 0, data[avail..], |buf| - 1)
  }

  function Overwrite(r: Ring, data: seq<Byte>): (s: Ring)
    requires r.Valid() && |r.buf| >= 2
    ensures s.Valid() && |s.buf| == |r.buf|
  {
    var (buf, wr) := Rounds(r.buf, r.wr, data, |r.buf| - r.wr);
    Ring(buf, wr, NextRead(r, |data|))
  }

  /** x less the buffer size as often as needed to get inside the buffer. */
  function Reduce(x: nat, size: nat): (r: nat)
    requires size > 0
    ensures r < size
  {
    if x < size then x else Reduce(x - size, size)
  }

  /** The read offset, moved on by the bytes that will be lost. */
  function NextRead(r: Ring, n: nat): (rd: nat)
    requires r.Valid()
    ensures rd < |r.buf|
  {
    if n > r.Avail() then Reduce(r.rd + n - r.Avail(), |r.buf|) else r.rd
  }

  /** The last n elements, or all when there are fewer. */
  function Last(s: seq<Byte>, n: nat): (t: seq<Byte>)
    ensures |t| == Min(|s|, n)
  {
    if |s| <= n then s else s[|s| - n..]
  }

  /** What a dropping writer should leave for the host. */
  ghost predicate KeepsNewest(r: Ring, data: seq<Byte>)
    requires r.Valid() && |r.buf| >= 2
  {
    Overwrite(r, data).Unread() == Last(r.Unread() + data, |r.buf| - 1)
  }

  /** Up to one wrap-around: the bytes land one after the other, going around. */
  lemma OneWrap(r: Ring, data: seq<Byte>)
    requires r.Valid() && |r.buf| >= 2 && |data| < 2 * |r.buf| - 1 - r.wr
    ensures var s := Overwrite(r, data);
      && s.wr == Wrap(r.wr + |data|, |r.buf|)
      && forall i :: 0 <= i < |r.buf| ==>
           s.buf[i] == if i < r.wr + |data| - |r.buf| then data[i + |r.buf| - r.wr]
                       else if r.wr <= i < r.wr + |data| then data[i - r.wr]
                       else r.buf[i]
  {
    var avail := |r.buf| - r.wr;
    if |data| > avail {
      var next := Copy(r.buf, r.wr, data[..avail]);
      assert Rounds(next, 0, data[avail..], |r.buf| - 1) == (Copy(next, 0, data[avail..]), |data| - avail);
    }
  }

  lemma OneWrapRead(r: Ring, n: nat)
    requires r.Valid() && |r.buf| >= 2 && r.Avail() < n < 2 * |r.buf| - 1 - r.wr
    ensures NextRead(r, n) == Wrap(Wrap(r.wr + n, |r.buf|) + 1, |r.buf|)
  {
    var x, size := r.rd + n - r.Avail(), |r.buf|;
    if x >= size {
      assert Reduce(x, size) == Reduce(x - size, size);
    }
  }

  lemma WithinBound(r: Ring, data: seq<Byte>)
    requires r.Valid() && |r.buf| >= 2 && |data| < 2 * |r.buf| - 1 - r.wr
    ensures KeepsNewest(r, data)
  {
    var s, size := Overwrite(r, data), |r.buf|;
    OneWrap(r, data);
    if |data| <= r.Avail() {
      assert s == Put(r, data) by { assert s.buf == Put(r, data).buf; }
      PutAppends(r, data);
    } else {
      OneWrapRead(r, |data|);
      assert s.Used() == size - 1;
      forall j | 0 <= j < size - 1
        ensures s.Unread()[j] == Last(r.Unread() + data, size - 1)[j]
      {
        WithinBoundAt(r, data, j);
      }
    }
  }

  /** The bytes of s, counted from the write offset of r. */
  ghost predicate Laid(r: Ring, s: Ring, data: seq<Byte>)
    requires r.Valid() && |r.buf| >= 2 && |data| < 2 * |r.buf| - 1 - r.wr
  {
    && s.Valid() && |s.buf| == |r.buf|
    && s.wr == Wrap(r.wr + |data|, |r.buf|)
    && s.rd == Wrap(s.wr + 1, |r.buf|)
    && forall i :: 0 <= i < |r.buf| ==>
         s.buf[i] == if i < r.wr + |data| - |r.buf| then data[i + |r.buf| - r.wr]
                     else if r.wr <= i < r.wr + |data| then data[i - r.wr]
                     else r.buf[i]
  }

  lemma NewByteAt(r: Ring, s: Ring, data: seq<Byte>, j: nat)
    requires r.Valid() && |r.buf| >= 2 && r.Avail() < |data| < 2 * |r.buf| - 1 - r.wr && Laid(r, s, data)
    requires j < |r.buf| - 1 <= |data| + j
    ensures s.buf[Wrap(s.rd + j, |r.buf|)] == data[|data| + j - (|r.buf| - 1)]
  {
  }

  lemma OldByteAt(r: Ring, s: Ring, data: seq<Byte>, j: nat)
    requires r.Valid() && |r.buf| >= 2 && r.Avail() < |data| < 2 * |r.buf| - 1 - r.wr && Laid(r, s, data)
    requires |data| + j < |r.buf| - 1
    ensures var k := r.Used() + |data| + j - (|r.buf| - 1);
      s.buf[Wrap(s.rd + j, |r.buf|)] == r.buf[Wrap(r.rd + k, |r.buf|)]
  {
  }

  lemma OverwriteLaid(r: Ring, data: seq<Byte>)
    requires r.Valid() && |r.buf| >= 2 && r.Avail() < |data| < 2 * |r.buf| - 1 - r.wr
    ensures Laid(r, Overwrite(r, data), data)
  {
    hide Rounds;
    OneWrap(r, data);
    OneWrapRead(r, |data|);
  }

  lemma LastAt(old': seq<Byte>, new': seq<Byte>, n: nat, j: nat)
    requires j < n <= |old'| + |new'|
    ensures var k := |old'| + |new'| - n + j;
      Last(old' + new', n)[j] == if k < |old'| then old'[k] else new'[k - |old'|]
  {
  }

  lemma WithinBoundAt(r: Ring, data: seq<Byte>, j: nat)
    requires r.Valid() && |r.buf| >= 2 && r.Avail() < |data| < 2 * |r.buf| - 1 - r.wr
    requires j < |r.buf| - 1 && Overwrite(r, data).Used() == |r.buf| - 1
    ensures Overwrite(r, data).Unread()[j] == Last(r.Unread() + data, |r.buf| - 1)[j]
  {
    hide Laid, Overwrite, Wrap, Last, Ring.Unread, Ring.Used;
    var s, size := Overwrite(r, data), |r.buf|;
    OverwriteLaid(r, data);
    UnreadAt(s, j);
    LastAt(r.Unread(), data, size - 1, j);
    LaidAt(r, s, data, j);
  }

  /** Position j past the read offset holds old or new content, whichever is due. */
  lemma LaidAt(r: Ring, s: Ring, data: seq<Byte>, j: nat)
    requires r.Valid() && |r.buf| >= 2 && r.Avail() < |data| < 2 * |r.buf| - 1 - r.wr && Laid(r, s, data)
    requires j < |r.buf| - 1
    ensures s.rd < |r.buf| == |s.buf|
    ensures var k := r.Used() + |data| - (|r.buf| - 1) + j;
      s.buf[Wrap(s.rd + j, |r.buf|)] == if k < r.Used() then r.Unread()[k] else data[k - r.Used()]
  {
    LaidShape(r, s, data);
    hide Laid, Wrap, Ring.Unread, Ring.Used;
    if |data| + j < |r.buf| - 1 {
      OldByteAt(r, s, data, j);
      UnreadAt(r, r.Used() + |data| + j - (|r.buf| - 1));
    } else {
      NewByteAt(r, s, data, j);
    }
  }

  lemma LaidShape(r: Ring, s: Ring, data: seq<Byte>)
    requires r.Valid() && |r.buf| >= 2 && |data| < 2 * |r.buf| - 1 - r.wr && Laid(r, s, data)
    ensures s.rd < |r.buf| == |s.buf|
  {
  }

  /** Once a second wrap-around is due, the last byte of the buffer is never written again. */
  lemma {:induction false} LastCellStays(buf: seq<Byte>, data: seq<Byte>)
    requires |buf| >= 2
    ensures Rounds(buf, 0, data, |buf| - 1).0[|buf| - 1] == buf[|buf| - 1]
    ensures Rounds(buf, 0, data, |buf| - 1).1 < |buf| - 1
    decreases |data|
  {
    if |data| >= |buf| - 1 {
      LastCellStays(Copy(buf, 0, data[..|buf| - 1]), data[|buf| - 1..]);
    }
  }

  /** Data that is zero everywhere except where it first reaches the end of the buffer. */
  function Marked(n: nat, k: nat): (data: seq<Byte>)
    ensures |data| == n
  {
    seq(n, i requires 0 <= i < n => if i == k then 1 else 0)
  }

  lemma RoundsPast(buf: seq<Byte>, wr: nat, data: seq<Byte>, avail: nat)
    requires |buf| >= 2 && 0 < avail < |data| && wr + avail <= |buf|
    ensures Rounds(buf, wr, data, avail) == Rounds(Copy(buf, wr, data[..avail]), 0, data[avail..], |buf| - 1)
  {
    hide Copy;
  }

  /** The mark stays in the last cell, and the write offset never gets there again. */
  lemma MarkStays(r: Ring, n: nat)
    requires r.Valid() && |r.buf| >= 2 && n >= 2 * |r.buf| - 1 - r.wr
    ensures var s := Overwrite(r, Marked(n, |r.buf| - r.wr - 1));
      s.buf[|r.buf| - 1] == 1 && s.wr < |r.buf| - 1
  {
    var size := |r.buf|;
    var avail := size - r.wr;
    var data := Marked(n, avail - 1);
    var next := Copy(r.buf, r.wr, data[..avail]);
    assert data[..avail][avail - 1] == 1;
    assert next[size - 1] == 1;
    RoundsPast(r.buf, r.wr, data, avail);
    hide Rounds, Copy;
    LastCellStays(next, data[avail..]);
  }

  lemma BeyondBound(r: Ring, n: nat)
    requires r.Valid() && |r.buf| >= 2 && n >= 2 * |r.buf| - 1 - r.wr
    ensures !KeepsNewest(r, Marked(n, |r.buf| - r.wr - 1))
  {
    hide Overwrite;
    var size := |r.buf|;
    var data := Marked(n, size - r.wr - 1);
    var s := Overwrite(r, data);
    MarkStays(r, n);
    if s.Used() == size - 1 {
      var j := size - 2 - s.wr;
      UnreadAt(s, j);
      assert s.Unread()[j] == 1;
      assert Last(r.Unread() + data, size - 1)[j] == data[n - 1 - s.wr];
    }
  }

  /** The dropping writer keeps the newest bytes for all data of n bytes exactly when n is below
      twice the buffer size minus one minus the write offset. */
  lemma OverwriteExact(r: Ring, n: nat)
    requires r.Valid() && |r.buf| >= 2
    ensures (forall data: seq<Byte> :: |data| == n ==> KeepsNewest(r, data)) <==> n < 2 * |r.buf| - 1 - r.wr
  {
    if n < 2 * |r.buf| - 1 - r.wr {
      forall data: seq<Byte> | |data| == n
        ensures KeepsNewest(r, data)
      {
        WithinBound(r, data);
      }
    } else {
      BeyondBound(r, n);
    }
  }
}
