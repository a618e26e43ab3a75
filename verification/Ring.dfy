/** The byte ring between target and host as a value.

The target owns the write offset, the host the read offset.  One byte stays unused so
that equal offsets mean an empty ring.  `Unread` is what the host can still read; the
lemmas say what copying, publishing and reading do to it.
*/
module Ring {

  type Byte = b: nat | b < 256

  function Min(a: nat, b: nat): (r: nat)
  {
    if a < b then a else b
  }

  /** An offset moved past the end of the buffer starts over. */
  function Wrap(x: nat, size: nat): (r: nat)
    requires x < 2 * size
    ensures r < size
  {
    if x >= size then x - size else x
  }

  datatype Ring = Ring(buf: seq<Byte>, wr: nat, rd: nat) {

    predicate Valid()
    {
      wr < |buf| && rd < |buf|
    }

    function Used(): (n: nat)
      requires Valid()
      ensures n < |buf|
    {
      if rd <= wr then wr - rd else |buf| - rd + wr
    }

    function Avail(): (n: nat)
      requires Valid()
    {
      |buf| - 1 - Used()
    }

    /** The bytes the host has not read yet, oldest first. */
    function Unread(): (s: seq<Byte>)
      requires Valid()
      ensures |s| == Used()
    {
      if rd <= wr then buf[rd..wr] else buf[rd..] + buf[..wr]
    }

    /** How far position i lies behind the write offset, going around. */
    function Ahead(i: nat): (d: nat)
      requires Valid() && i < |buf|
      ensures d < |buf| && Wrap(wr + d, |buf|) == i
    {
      if i >= wr then i - wr else i + |buf| - wr
    }
  }

  /** One byte stored k places past the write offset; nothing is published. */
  function Poke(r: Ring, k: nat, b: Byte): (s: Ring)
    requires r.Valid() && k < |r.buf|
    ensures s.Valid() && |s.buf| == |r.buf|
  {
    r.(buf := r.buf[Wrap(r.wr + k, |r.buf|) := b])
  }

  /** The first k bytes of data stored past the write offset. */
  function Stage(r: Ring, data: seq<Byte>, k: nat): (s: Ring)
    requires r.Valid() && k <= |data| && k < |r.buf|
    ensures s.Valid() && |s.buf| == |r.buf| && s.wr == r.wr && s.rd == r.rd
    ensures forall i :: 0 <= i < |r.buf| ==>
              s.buf[i] == if r.Ahead(i) < k then data[r.Ahead(i)] else r.buf[i]
  {
    r.(buf := seq(|r.buf|, i requires 0 <= i < |r.buf| =>
      if r.Ahead(i) < k then data[r.Ahead(i)] else r.buf[i]))
  }

  function Publish(r: Ring, n: nat): (s: Ring)
    requires r.Valid() && n < |r.buf|
    ensures s.Valid()
  {
    r.(wr := Wrap(r.wr + n, |r.buf|))
  }

  /** All of data appended. */
  function Put(r: Ring, data: seq<Byte>): (s: Ring)
    requires r.Valid() && |data| <= r.Avail()
    ensures s.Valid()
  {
    Publish(Stage(r, data, |data|), |data|)
  }

  /** The host took the oldest m bytes. */
  function Take(r: Ring, m: nat): (s: Ring)
    requires r.Valid() && m <= r.Used()
    ensures s.Valid()
  {
    r.(rd := Wrap(r.rd + m, |r.buf|))
  }

  // ------------------------------------------------ what the host can see

  lemma UnreadAt(r: Ring, i: nat)
    requires r.Valid() && i < r.Used()
    ensures r.Unread()[i] == r.buf[Wrap(r.rd + i, |r.buf|)]
  {
  }

  lemma StageNone(r: Ring, data: seq<Byte>)
    requires r.Valid()
    ensures Stage(r, data, 0) == r
  {
    assert Stage(r, data, 0).buf == r.buf;
  }

  /** A byte stored in free space is not one the host still has to read. */
  lemma PokeKeepsUnread(r: Ring, k: nat, b: Byte)
    requires r.Valid() && k < r.Avail()
    ensures Poke(r, k, b).Unread() == r.Unread()
  {
  }

  lemma StageKeepsUnread(r: Ring, data: seq<Byte>, k: nat)
    requires r.Valid() && k <= |data| && k <= r.Avail()
    ensures Stage(r, data, k).Unread() == r.Unread()
  {
    var s := Stage(r, data, k);
    forall i | 0 <= i < r.Used()
      ensures s.Unread()[i] == r.Unread()[i]
    {
      UnreadAt(r, i);
      UnreadAt(s, i);
    }
  }

  /** Publishing n bytes hands exactly the stored bytes to the host. */
  lemma PublishAppends(r: Ring, data: seq<Byte>)
    requires r.Valid() && |data| <= r.Avail()
    requires forall k :: 0 <= k < |data| ==> r.buf[Wrap(r.wr + k, |r.buf|)] == data[k]
    ensures Publish(r, |data|).Unread() == r.Unread() + data
  {
    var s := Publish(r, |data|);
    assert s.Used() == r.Used() + |data|;
    forall i | 0 <= i < s.Used()
      ensures s.Unread()[i] == (r.Unread() + data)[i]
    {
      UnreadAt(s, i);
      if i < r.Used() {
        UnreadAt(r, i);
      } else {
        assert Wrap(r.rd + i, |r.buf|) == Wrap(r.wr + (i - r.Used()), |r.buf|);
      }
    }
  }

  /** Appending appends. */
  lemma PutAppends(r: Ring, data: seq<Byte>)
    requires r.Valid() && |data| <= r.Avail()
    ensures Put(r, data).Unread() == r.Unread() + data
    ensures Put(r, data).rd == r.rd && |Put(r, data).buf| == |r.buf|
  {
    StageKeepsUnread(r, data, |data|);
    PublishAppends(Stage(r, data, |data|), data);
  }

  lemma TakeDrops(r: Ring, m: nat)
    requires r.Valid() && m <= r.Used()
    ensures Take(r, m).Unread() == r.Unread()[m..]
  {
    var s := Take(r, m);
    assert s.Used() == r.Used() - m;
    forall i | 0 <= i < s.Used()
      ensures s.Unread()[i] == r.Unread()[m..][i]
    {
      UnreadAt(s, i);
      UnreadAt(r, m + i);
    }
  }

  // ------------------------------------------------ write modes

  const MODE_SKIP: nat := 0
  const MODE_TRIM: nat := 1
  const MODE_BLOCK: nat := 2

  /** How many bytes one round of a write in this mode stores: all or nothing, what fits, or
      what fits before the end of the buffer.  Other flag values store nothing. */
  function RoundSize(flags: nat, r: Ring, n: nat): (k: nat)
    requires r.Valid()
    ensures k <= n && k <= r.Avail()
  {
    if flags == MODE_SKIP then (if r.Avail() < n then 0 else n)
    else if flags == MODE_TRIM then Min(r.Avail(), n)
    else if flags == MODE_BLOCK then Min(Min(r.Avail(), |r.buf| - r.wr), n)
    else 0
  }
}
