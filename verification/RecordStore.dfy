/** The flash record store as a function of its state.

A record is a block of words: head magic, sequence number, payload, checksum, tail
magic.  Saves append records to the current sector; a full sector is erased in place
until its erase count reaches MAX_ERASE_LIFE, then the store rotates to the next
sector.  A boot scans every sector and loads the record with the largest sequence
number.  Addresses count words; every operation on the flash is also written to a log,
so that a power cut is a cut of the log.
*/
module RecordStore {
  import opened Bits
  import opened Crc

  const SECTOR_WORDS: nat := 2048
  const MAX_RECORD_WORDS: nat := 64
  const MAX_ERASE_LIFE: nat := 10000
  const MAX_WRITE_RETRY: nat := 7

  type Record = seq<Word>

  datatype Option<T> = None | Some(value: T)

  /** Record layout and sector range of one instance.  Sectors are used downwards. */
  datatype Config = Config(
    size: nat, magicHead: Word, magicTail: Word,
    checksumOff: nat, seqOff: nat, eraseOff: nat,
    secStart: nat, secEnd: nat)
  {
    /** What both record structures of the firmware satisfy. */
    predicate Layout()
    {
      && 5 <= size <= MAX_RECORD_WORDS
      && seqOff == 1 && 2 <= eraseOff < checksumOff < size - 1
      && magicHead != ALL_ONES && magicTail != ALL_ONES
      && secEnd <= secStart
    }

    /** A word the engine itself owns; all others are the caller's payload. */
    predicate IsMeta(i: nat)
    {
      i == 0 || i == seqOff || i == eraseOff || i == checksumOff || i == size - 1
    }
  }

  /** An elementary flash operation. */
  datatype Op = EraseOp(sector: nat) | ProgramOp(addr: nat, data: Word)

  /** Flash, RAM record, current sector, write position and the log of flash operations. */
  datatype Store = Store(flash: seq<Word>, buf: Record, sec: nat, addr: nat, log: seq<Op>)

  datatype SaveResult = SaveResult(store: Store, ok: bool)

  function SectorBase(s: nat): (r: nat) { s * SECTOR_WORDS }

  predicate InFlash(cfg: Config, f: seq<Word>)
  {
    |f| >= SectorBase(cfg.secStart + 1)
  }

  // ------------------------------------------------ elementary operations

  function Erase(f: seq<Word>, s: nat): (r: seq<Word>)
    requires SectorBase(s + 1) <= |f|
    ensures |r| == |f|
    ensures forall i :: 0 <= i < |f| ==>
              r[i] == if SectorBase(s) <= i < SectorBase(s + 1) then ALL_ONES else f[i]
  {
    seq(|f|, i requires 0 <= i < |f| =>
      if SectorBase(s) <= i < SectorBase(s + 1) then ALL_ONES else f[i])
  }

  /** Programming can only clear bits. */
  function Program(f: seq<Word>, a: nat, d: Word): (r: seq<Word>)
    requires a < |f|
    ensures |r| == |f|
  {
    f[a := And(f[a], d)]
  }

  /** What an operation does; one that falls outside the flash does nothing. */
  function ApplyOp(f: seq<Word>, op: Op): (r: seq<Word>)
    ensures |r| == |f|
  {
    match op
    case EraseOp(s) => if SectorBase(s + 1) <= |f| then Erase(f, s) else f
    case ProgramOp(a, d) => if a < |f| then Program(f, a, d) else f
  }

  function Apply(f: seq<Word>, ops: seq<Op>): (r: seq<Word>)
    ensures |r| == |f|
    decreases |ops|
  {
    if ops == [] then f else Apply(ApplyOp(f, ops[0]), ops[1..])
  }

  // ------------------------------------------------ records and the boot scan

  function RecordAt(cfg: Config, f: seq<Word>, a: nat): (r: Record)
    requires a + cfg.size <= |f|
    ensures |r| == cfg.size
  {
    f[a..a + cfg.size]
  }

  predicate ValidRecord(cfg: Config, rec: Record)
    requires cfg.Layout() && |rec| == cfg.size
  {
    && rec[0] == cfg.magicHead
    && rec[cfg.size - 1] == cfg.magicTail
    && Checksum(rec[..cfg.checksumOff]) == rec[cfg.checksumOff]
  }

  /** The addresses of the valid records a scan of [a, end) comes across, in order. */
  function ScanFrom(cfg: Config, f: seq<Word>, a: nat, end: nat): (hits: seq<nat>)
    requires cfg.Layout() && end <= |f|
    ensures forall i :: 0 <= i < |hits| ==>
              a <= hits[i] && hits[i] + cfg.size <= end
    decreases end - a
  {
    if a + cfg.size > end then []
    else if f[a] == cfg.magicHead then
      (if ValidRecord(cfg, RecordAt(cfg, f, a)) then [a] else []) + ScanFrom(cfg, f, a + cfg.size, end)
    else if f[a] == ALL_ONES then []
    else ScanFrom(cfg, f, a + 1, end)
  }

  function ScanSector(cfg: Config, f: seq<Word>, s: nat): (hits: seq<nat>)
    requires cfg.Layout() && SectorBase(s + 1) <= |f|
    ensures forall i :: 0 <= i < |hits| ==> SectorBase(s) <= hits[i] && hits[i] + cfg.size <= SectorBase(s + 1)
  {
    ScanFrom(cfg, f, SectorBase(s), SectorBase(s + 1))
  }

  /** The hits of sectors s, s-1, ..., secEnd. */
  function HitsFrom(cfg: Config, f: seq<Word>, s: int): (hits: seq<nat>)
    requires cfg.Layout() && InFlash(cfg, f) && s <= cfg.secStart
    ensures forall i :: 0 <= i < |hits| ==> hits[i] + cfg.size <= |f|
    decreases s + 1 - cfg.secEnd
  {
    if s < cfg.secEnd then [] else ScanSector(cfg, f, s) + HitsFrom(cfg, f, s - 1)
  }

  function SeqAt(cfg: Config, f: seq<Word>, a: nat): (r: Word)
    requires cfg.Layout() && a + cfg.size <= |f|
  {
    f[a + cfg.seqOff]
  }

  /** The better of the best block so far and a newly found one; the earlier wins a tie. */
  function Better(cfg: Config, f: seq<Word>, best: Option<nat>, a: nat): (r: Option<nat>)
    requires cfg.Layout() && a + cfg.size <= |f|
    requires best.Some? ==> best.value + cfg.size <= |f|
    ensures r.Some? && r.value + cfg.size <= |f|
  {
    if best.None? || SeqAt(cfg, f, a) > SeqAt(cfg, f, best.value) then Some(a) else best
  }

  function Best(cfg: Config, f: seq<Word>, hits: seq<nat>, best: Option<nat>): (r: Option<nat>)
    requires cfg.Layout()
    requires forall i :: 0 <= i < |hits| ==> hits[i] + cfg.size <= |f|
    requires best.Some? ==> best.value + cfg.size <= |f|
    ensures r.Some? ==> r.value + cfg.size <= |f|
    decreases |hits|
  {
    if hits == [] then best else Best(cfg, f, hits[1..], Better(cfg, f, best, hits[0]))
  }

  function Newest(cfg: Config, f: seq<Word>): (r: Option<nat>)
    requires cfg.Layout() && InFlash(cfg, f)
    ensures r.Some? ==> r.value + cfg.size <= |f|
  {
    Best(cfg, f, HitsFrom(cfg, f, cfg.secStart), None)
  }

  // ------------------------------------------------ saving

  datatype Written = Written(flash: seq<Word>, log: seq<Op>, ok: bool)

  /** Programs rec[k..] at a+k onwards and stops at the first word that reads back wrong. */
  function WriteFrom(f: seq<Word>, log: seq<Op>, a: nat, rec: Record, k: nat): (w: Written)
    requires k <= |rec| && a + |rec| <= |f|
    ensures |w.flash| == |f|
    decreases |rec| - k
  {
    if k == |rec| then Written(f, log, true)
    else
      var f' := Program(f, a + k, rec[k]);
      var log' := log + [ProgramOp(a + k, rec[k])];
      if f'[a + k] != rec[k] then Written(f', log', false)
      else WriteFrom(f', log', a, rec, k + 1)
  }

  /** Raises the sequence number (modulo 2^32) and refreshes the checksum. */
  function Stamp(cfg: Config, rec: Record): (r: Record)
    requires cfg.Layout() && |rec| == cfg.size
    ensures |r| == cfg.size
  {
    var rec' := rec[cfg.seqOff := (rec[cfg.seqOff] + 1) % WORD_LIMIT];
    rec'[cfg.checksumOff := Checksum(rec'[..cfg.checksumOff])]
  }

  predicate Usable(cfg: Config, st: Store)
  {
    && cfg.Layout() && InFlash(cfg, st.flash)
    && |st.buf| == cfg.size
    && cfg.secEnd <= st.sec <= cfg.secStart
  }

  /** Makes room: when the record does not fit, erases the sector or moves to the next. */
  function MakeRoom(cfg: Config, st: Store): (r: Store)
    requires Usable(cfg, st)
    ensures Usable(cfg, r) && |r.flash| == |st.flash|
    ensures r.addr + cfg.size <= SectorBase(r.sec + 1)
  {
    if st.addr + cfg.size <= SectorBase(st.sec + 1) then st
    else
      var count := st.buf[cfg.eraseOff];
      if count < MAX_ERASE_LIFE then
        st.(flash := Erase(st.flash, st.sec), log := st.log + [EraseOp(st.sec)],
            addr := SectorBase(st.sec), buf := st.buf[cfg.eraseOff := count + 1])
      else
        var next := if st.sec <= cfg.secEnd then cfg.secStart else st.sec - 1;
        st.(flash := Erase(st.flash, next), log := st.log + [EraseOp(next)],
            sec := next, addr := SectorBase(next), buf := st.buf[cfg.eraseOff := 1])
  }

  /** One attempt: stamp the record, program it, read it back; the position moves on either way. */
  function Attempt(cfg: Config, st: Store): (r: SaveResult)
    requires Usable(cfg, st) && st.addr + cfg.size <= SectorBase(st.sec + 1)
    ensures Usable(cfg, r.store) && |r.store.flash| == |st.flash|
  {
    var rec := Stamp(cfg, st.buf);
    var w := WriteFrom(st.flash, st.log, st.addr, rec, 0);
    SaveResult(st.(flash := w.flash, log := w.log, buf := rec, addr := st.addr + cfg.size),
               w.ok && RecordAt(cfg, w.flash, st.addr) == rec)
  }

  /** Up to MAX_WRITE_RETRY attempts, each one slot further on. */
  function SaveFrom(cfg: Config, st: Store, retry: nat): (r: SaveResult)
    requires Usable(cfg, st)
    ensures Usable(cfg, r.store) && |r.store.flash| == |st.flash|
    decreases MAX_WRITE_RETRY - retry, cfg, st
  {
    if retry >= MAX_WRITE_RETRY then SaveResult(st, false)
    else
      var a := Attempt(cfg, MakeRoom(cfg, st));
      if a.ok then a else SaveFrom(cfg, a.store, retry + 1)
  }

  function Save(cfg: Config, st: Store): (r: SaveResult)
    requires Usable(cfg, st)
    ensures Usable(cfg, r.store) && |r.store.flash| == |st.flash|
  {
    SaveFrom(cfg, st, 0)
  }

  /** The record written when the scan finds nothing. */
  function FreshDefaults(cfg: Config, defaults: Record): (r: Record)
    requires cfg.Layout() && |defaults| == cfg.size
    ensures |r| == cfg.size
  {
    defaults[cfg.seqOff := 0][cfg.eraseOff := 1]
  }

  /** A boot: load the newest record, or erase the first sector and save the defaults. */
  function Boot(cfg: Config, defaults: Record, f: seq<Word>, log: seq<Op>): (st: Store)
    requires cfg.Layout() && InFlash(cfg, f) && |defaults| == cfg.size
    ensures Usable(cfg, st) && |st.flash| == |f|
  {
    match Newest(cfg, f)
    case Some(a) =>
      NewestInRange(cfg, f);
      Store(f, RecordAt(cfg, f, a), a / SECTOR_WORDS, a, log)
    case None =>
      var blank := Store(Erase(f, cfg.secStart), FreshDefaults(cfg, defaults),
                         cfg.secStart, SectorBase(cfg.secStart), log + [EraseOp(cfg.secStart)]);
      Save(cfg, blank).store
  }

  // ------------------------------------------------ what the scan finds

  lemma SeqInRecord(cfg: Config, f: seq<Word>, a: nat)
    requires cfg.Layout() && a + cfg.size <= |f|
    ensures SeqAt(cfg, f, a) == RecordAt(cfg, f, a)[cfg.seqOff]
  {
  }

  ghost predicate IsHit(cfg: Config, f: seq<Word>, s: nat, h: nat)
    requires cfg.Layout() && InFlash(cfg, f)
  {
    cfg.secEnd <= s <= cfg.secStart && h in ScanSector(cfg, f, s)
  }

  lemma {:induction false} HitIsListed(cfg: Config, f: seq<Word>, s: int, t: nat, h: nat)
    requires cfg.Layout() && InFlash(cfg, f) && t <= s <= cfg.secStart && IsHit(cfg, f, t, h)
    ensures h in HitsFrom(cfg, f, s)
    decreases s
  {
    hide ScanSector;
    if t < s {
      HitIsListed(cfg, f, s - 1, t, h);
    }
  }

  lemma {:induction false} ListedIsHit(cfg: Config, f: seq<Word>, s: int, h: nat) returns (t: nat)
    requires cfg.Layout() && InFlash(cfg, f) && s <= cfg.secStart && h in HitsFrom(cfg, f, s)
    ensures IsHit(cfg, f, t, h)
    decreases s + 1 - cfg.secEnd
  {
    if h in ScanSector(cfg, f, s) {
      t := s;
    } else {
      t := ListedIsHit(cfg, f, s - 1, h);
    }
  }

  lemma {:induction false} BestIsLargest(cfg: Config, f: seq<Word>, hits: seq<nat>, best: Option<nat>)
    requires cfg.Layout()
    requires forall i :: 0 <= i < |hits| ==> hits[i] + cfg.size <= |f|
    requires best.Some? ==> best.value + cfg.size <= |f|
    ensures Best(cfg, f, hits, best).None? <==> best.None? && hits == []
    ensures var r := Best(cfg, f, hits, best);
      r.Some? ==>
        && (r == best || r.value in hits)
        && (best.Some? ==> SeqAt(cfg, f, best.value) <= SeqAt(cfg, f, r.value))
        && forall i :: 0 <= i < |hits| ==> SeqAt(cfg, f, hits[i]) <= SeqAt(cfg, f, r.value)
    decreases |hits|
  {
    if hits != [] {
      BestIsLargest(cfg, f, hits[1..], Better(cfg, f, best, hits[0]));
      assert forall i :: 0 < i < |hits| ==> hits[i] == hits[1..][i - 1];
    }
  }

  /** Of several records with the largest number the scan keeps the one it came across first. */
  lemma {:induction false} TieGoesToFirst(cfg: Config, f: seq<Word>, hits: seq<nat>, best: Option<nat>)
    requires cfg.Layout()
    requires forall i :: 0 <= i < |hits| ==> hits[i] + cfg.size <= |f|
    requires best.Some? ==> best.value + cfg.size <= |f|
    ensures var r := Best(cfg, f, hits, best);
      && (r != best ==> r.Some? && exists i :: 0 <= i < |hits| && hits[i] == r.value && LargerThanAll(cfg, f, hits, best, i))
      && (best.Some? && (forall i :: 0 <= i < |hits| ==> SeqAt(cfg, f, hits[i]) <= SeqAt(cfg, f, best.value)) ==> r == best)
    decreases |hits|
  {
    if hits != [] {
      var next, rest := Better(cfg, f, best, hits[0]), hits[1..];
      TieGoesToFirst(cfg, f, rest, next);
      var r := Best(cfg, f, hits, best);
      if r != next {
        var i :| 0 <= i < |rest| && rest[i] == r.value && LargerThanAll(cfg, f, rest, next, i);
        assert hits[i + 1] == r.value && LargerThanAll(cfg, f, hits, best, i + 1);
      } else if next != best {
        assert hits[0] == r.value && LargerThanAll(cfg, f, hits, best, 0);
      }
    }
  }

  /** Hit i has a larger number than the best before the list and than all earlier hits. */
  ghost predicate LargerThanAll(cfg: Config, f: seq<Word>, hits: seq<nat>, best: Option<nat>, i: nat)
    requires cfg.Layout() && i < |hits|
    requires forall k :: 0 <= k < |hits| ==> hits[k] + cfg.size <= |f|
    requires best.Some? ==> best.value + cfg.size <= |f|
  {
    && (best.Some? ==> SeqAt(cfg, f, hits[i]) > SeqAt(cfg, f, best.value))
    && forall k :: 0 <= k < i ==> SeqAt(cfg, f, hits[i]) > SeqAt(cfg, f, hits[k])
  }

  /** The store after k failed attempts. */
  function Tried(cfg: Config, st: Store, k: nat): (r: Store)
    requires Usable(cfg, st)
    ensures Usable(cfg, r) && |r.flash| == |st.flash|
    decreases k, cfg, st
  {
    if k == 0 then st else Attempt(cfg, MakeRoom(cfg, Tried(cfg, st, k - 1))).store
  }

  predicate Succeeds(cfg: Config, st: Store, k: nat)
    requires Usable(cfg, st)
  {
    Attempt(cfg, MakeRoom(cfg, Tried(cfg, st, k))).ok
  }

  lemma {:induction false} TriedShift(cfg: Config, st: Store, k: nat)
    requires Usable(cfg, st)
    ensures Tried(cfg, st, k + 1) == Tried(cfg, Attempt(cfg, MakeRoom(cfg, st)).store, k)
    decreases k
  {
    hide Attempt, MakeRoom;
    if k > 0 {
      TriedShift(cfg, st, k - 1);
    } else {
      assert Tried(cfg, st, 0) == st;
    }
  }

  lemma {:induction false} SaveFromTries(cfg: Config, st: Store, retry: nat)
    requires Usable(cfg, st) && retry <= MAX_WRITE_RETRY
    ensures var r, left := SaveFrom(cfg, st, retry), MAX_WRITE_RETRY - retry;
      && (r.ok <==> exists k: nat :: k < left && Succeeds(cfg, st, k))
      && (!r.ok ==> r.store == Tried(cfg, st, left))
    decreases MAX_WRITE_RETRY - retry
  {
    hide Attempt, MakeRoom;
    if retry < MAX_WRITE_RETRY {
      var a := Attempt(cfg, MakeRoom(cfg, st));
      assert Tried(cfg, st, 0) == st;
      assert Succeeds(cfg, st, 0) == a.ok;
      if !a.ok {
        SaveFromTries(cfg, a.store, retry + 1);
        TriedShift(cfg, st, MAX_WRITE_RETRY - retry - 1);
        LaterSuccess(cfg, st, MAX_WRITE_RETRY - retry - 1);
      }
    }
  }

  lemma LaterSuccess(cfg: Config, st: Store, n: nat)
    requires Usable(cfg, st) && !Succeeds(cfg, st, 0)
    ensures var next := Attempt(cfg, MakeRoom(cfg, st)).store;
      (exists k: nat :: k < n + 1 && Succeeds(cfg, st, k)) <==> exists k: nat :: k < n && Succeeds(cfg, next, k)
  {
    hide Attempt, MakeRoom;
    var next := Attempt(cfg, MakeRoom(cfg, st)).store;
    forall k: nat
      ensures Succeeds(cfg, st, k + 1) == Succeeds(cfg, next, k)
    {
      TriedShift(cfg, st, k);
    }
    if k: nat :| k < n + 1 && Succeeds(cfg, st, k) {
      assert Succeeds(cfg, st, k - 1 + 1) == Succeeds(cfg, next, k - 1);
    }
    if k: nat :| k < n && Succeeds(cfg, next, k) {
      assert Succeeds(cfg, st, k + 1);
    }
  }

  /** A save fails exactly when seven attempts in a row do, each one slot further on. */
  lemma SavesUnlessSevenFail(cfg: Config, st: Store)
    requires Usable(cfg, st)
    ensures !Save(cfg, st).ok <==> forall k: nat :: k < 7 ==> !Succeeds(cfg, st, k)
    ensures !Save(cfg, st).ok ==> Save(cfg, st).store == Tried(cfg, st, 7)
  {
    hide Succeeds, Tried, SaveFrom;
    SaveFromTries(cfg, st, 0);
  }

  /** The scan finds a valid record exactly when there is one, and then a newest one. */
  lemma ScanFindsNewest(cfg: Config, f: seq<Word>)
    requires cfg.Layout() && InFlash(cfg, f)
    ensures Newest(cfg, f).None? <==> forall s: nat, h :: !IsHit(cfg, f, s, h)
    ensures Newest(cfg, f).Some? ==>
      var a := Newest(cfg, f).value;
      && (exists s: nat :: IsHit(cfg, f, s, a))
      && forall s: nat, h :: IsHit(cfg, f, s, h) ==> SeqAt(cfg, f, h) <= SeqAt(cfg, f, a)
  {
    var hits := HitsFrom(cfg, f, cfg.secStart);
    BestIsLargest(cfg, f, hits, None);
    forall s: nat, h | IsHit(cfg, f, s, h)
      ensures h in hits
    {
      HitIsListed(cfg, f, cfg.secStart, s, h);
    }
    if hits != [] {
      var s := ListedIsHit(cfg, f, cfg.secStart, Newest(cfg, f).value);
    }
  }

  lemma NewestInRange(cfg: Config, f: seq<Word>)
    requires cfg.Layout() && InFlash(cfg, f) && Newest(cfg, f).Some?
    ensures cfg.secEnd <= Newest(cfg, f).value / SECTOR_WORDS <= cfg.secStart
  {
    ScanFindsNewest(cfg, f);
    var s: nat :| IsHit(cfg, f, s, Newest(cfg, f).value);
    assert Newest(cfg, f).value / SECTOR_WORDS == s;
  }
}
