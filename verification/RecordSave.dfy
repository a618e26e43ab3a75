/** One save, seen against the invariant: it always succeeds, it makes the new record the
newest one, and no prefix of its flash operations leaves a mixed record behind.
*/
module RecordSave {
  import opened Bits
  import opened Crc
  import opened RecordStore
  import opened RecordInvariant

  // ------------------------------------------------ the log is the flash history

  lemma {:induction false} ApplyConcat(f: seq<Word>, a: seq<Op>, b: seq<Op>)
    ensures Apply(f, a + b) == Apply(Apply(f, a), b)
    decreases |a|
  {
    if a == [] {
      assert a + b == b;
    } else {
      assert (a + b)[0] == a[0] && (a + b)[1..] == a[1..] + b;
      ApplyConcat(ApplyOp(f, a[0]), a[1..], b);
    }
  }

  /** Between two moments the log grew by operations that explain the change of the flash. */
  ghost predicate Logged(f: seq<Word>, log: seq<Op>, f': seq<Word>, log': seq<Op>)
  {
    |log| <= |log'| && log == log'[..|log|] && Apply(f, log'[|log|..]) == f'
  }

  lemma LoggedThen(f: seq<Word>, log: seq<Op>, f1: seq<Word>, log1: seq<Op>, f2: seq<Word>, log2: seq<Op>)
    requires Logged(f, log, f1, log1) && Logged(f1, log1, f2, log2)
    ensures Logged(f, log, f2, log2)
  {
    assert log2[|log|..] == log1[|log|..] + log2[|log1|..];
    ApplyConcat(f, log1[|log|..], log2[|log1|..]);
  }

  lemma LoggedNone(f: seq<Word>, log: seq<Op>)
    ensures Logged(f, log, f, log)
  {
    assert log[|log|..] == [];
  }

  lemma LoggedOne(f: seq<Word>, log: seq<Op>, op: Op)
    ensures Logged(f, log, ApplyOp(f, op), log + [op])
  {
    assert (log + [op])[|log|..] == [op];
    assert Apply(f, [op]) == Apply(ApplyOp(f, op), [op][1..]);
  }

  lemma {:induction false} WriteLogged(f: seq<Word>, log: seq<Op>, a: nat, rec: Record, k: nat)
    requires k <= |rec| && a + |rec| <= |f|
    ensures var w := WriteFrom(f, log, a, rec, k); Logged(f, log, w.flash, w.log)
    decreases |rec| - k
  {
    if k < |rec| {
      var op := ProgramOp(a + k, rec[k]);
      var f' := Program(f, a + k, rec[k]);
      LoggedOne(f, log, op);
      if f'[a + k] == rec[k] {
        WriteLogged(f', log + [op], a, rec, k + 1);
        var w := WriteFrom(f', log + [op], a, rec, k + 1);
        LoggedThen(f, log, f', log + [op], w.flash, w.log);
      }
    }
  }

  lemma RoomLogged(cfg: Config, st: Store)
    requires Usable(cfg, st)
    ensures var r := MakeRoom(cfg, st); Logged(st.flash, st.log, r.flash, r.log)
  {
    var r := MakeRoom(cfg, st);
    if r != st {
      LoggedOne(st.flash, st.log, EraseOp(r.sec));
    } else {
      LoggedNone(st.flash, st.log);
    }
  }

  /** Replaying the operations a save logged gives exactly the flash it leaves. */
  lemma {:induction false} SaveLogged(cfg: Config, st: Store, retry: nat)
    requires Usable(cfg, st)
    ensures var r := SaveFrom(cfg, st, retry).store; Logged(st.flash, st.log, r.flash, r.log)
    decreases MAX_WRITE_RETRY - retry
  {
    hide Attempt, MakeRoom, Logged;
    if retry >= MAX_WRITE_RETRY {
      LoggedNone(st.flash, st.log);
    } else {
      var room := MakeRoom(cfg, st);
      var a := Attempt(cfg, room).store;
      RoomLogged(cfg, st);
      AttemptLogged(cfg, room);
      LoggedThen(st.flash, st.log, room.flash, room.log, a.flash, a.log);
      if !Attempt(cfg, room).ok {
        SaveLogged(cfg, a, retry + 1);
        var r := SaveFrom(cfg, a, retry + 1).store;
        LoggedThen(st.flash, st.log, a.flash, a.log, r.flash, r.log);
      }
    }
  }

  lemma AttemptLogged(cfg: Config, st: Store)
    requires Usable(cfg, st) && st.addr + cfg.size <= SectorBase(st.sec + 1)
    ensures var a := Attempt(cfg, st).store; Logged(st.flash, st.log, a.flash, a.log)
  {
    hide Checksum, Logged;
    WriteLogged(st.flash, st.log, st.addr, Stamp(cfg, st.buf), 0);
  }

  // ------------------------------------------------ writing into an erased slot

  function Programs(a: nat, rec: Record): (ops: seq<Op>)
    ensures |ops| == |rec|
    ensures forall i :: 0 <= i < |rec| ==> ops[i] == ProgramOp(a + i, rec[i])
  {
    seq(|rec|, i requires 0 <= i < |rec| => ProgramOp(a + i, rec[i]))
  }

  lemma PlaceNext(f: seq<Word>, a: nat, rec: Record, k: nat)
    requires k < |rec| && a + |rec| <= |f| && f[a + k] == ALL_ONES
    ensures Program(Place(f, a, rec, k), a + k, rec[k]) == Place(f, a, rec, k + 1)
  {
    hide And;
    AndOnes(rec[k]);
  }

  lemma {:induction false} BlankWrite(f: seq<Word>, log: seq<Op>, a: nat, rec: Record, k: nat)
    requires k <= |rec| && a + |rec| <= |f| && Blank(f, a, a + |rec|)
    ensures WriteFrom(Place(f, a, rec, k), log + Programs(a, rec)[..k], a, rec, k)
         == Written(Place(f, a, rec, |rec|), log + Programs(a, rec), true)
    decreases |rec| - k
  {
    hide And, Place;
    var ops := Programs(a, rec);
    if k == |rec| {
      assert ops[..k] == ops;
    } else {
      PlaceNext(f, a, rec, k);
      assert ops[..k + 1] == ops[..k] + [ProgramOp(a + k, rec[k])];
      assert log + ops[..k] + [ProgramOp(a + k, rec[k])] == log + ops[..k + 1];
      BlankWrite(f, log, a, rec, k + 1);
    }
  }

  lemma {:induction false} ReplayPrograms(f: seq<Word>, a: nat, rec: Record, k: nat)
    requires k <= |rec| && a + |rec| <= |f| && Blank(f, a, a + |rec|)
    ensures Apply(f, Programs(a, rec)[..k]) == Place(f, a, rec, k)
  {
    hide And, Place;
    var ops := Programs(a, rec);
    if k == 0 {
      assert Place(f, a, rec, 0) == f;
    } else {
      ReplayPrograms(f, a, rec, k - 1);
      PlaceNext(f, a, rec, k - 1);
      assert ops[..k] == ops[..k - 1] + [ops[k - 1]];
      ApplyConcat(f, ops[..k - 1], [ops[k - 1]]);
      var g := Apply(f, ops[..k - 1]);
      assert Apply(g, [ops[k - 1]]) == Apply(ApplyOp(g, ops[k - 1]), [ops[k - 1]][1..]);
    }
  }

  // ------------------------------------------------ the record being saved

  /** A buffer whose magic words are in place. */
  predicate Framed(cfg: Config, rec: Record)
    requires cfg.Layout()
  {
    |rec| == cfg.size && rec[0] == cfg.magicHead && rec[cfg.size - 1] == cfg.magicTail
  }

  lemma StampValid(cfg: Config, rec: Record)
    requires cfg.Layout() && Framed(cfg, rec)
    ensures ValidRecord(cfg, Stamp(cfg, rec)) && Framed(cfg, Stamp(cfg, rec))
  {
    var rec' := rec[cfg.seqOff := (rec[cfg.seqOff] + 1) % WORD_LIMIT];
    assert Stamp(cfg, rec)[..cfg.checksumOff] == rec'[..cfg.checksumOff];
  }

  /** Every record the scan can find has a sequence number up to s and was completed before. */
  ghost predicate Recorded(cfg: Config, f: seq<Word>, s: nat, done: set<Record>)
    requires cfg.Layout() && InFlash(cfg, f)
  {
    forall t: nat, h :: IsHit(cfg, f, t, h) ==> SeqAt(cfg, f, h) <= s && RecordAt(cfg, f, h) in done
  }

  /** The state between operations: the newest record is the last slot, and RAM holds it. */
  ghost predicate Live(cfg: Config, st: Store, end: nat, done: set<Record>)
  {
    && Usable(cfg, st)
    && LiveAt(cfg, st.flash, st.sec, end)
    && RecordAt(cfg, st.flash, end - cfg.size) == st.buf
    && (st.addr == end || st.addr == end - cfg.size)
    && Recorded(cfg, st.flash, st.buf[cfg.seqOff], done)
    && forall t: nat, h :: IsHit(cfg, st.flash, t, h) && h != end - cfg.size
         ==> SeqAt(cfg, st.flash, h) < st.buf[cfg.seqOff]
  }

  /** Ready to append: an open sector, older records only, a framed buffer. */
  ghost predicate Ready(cfg: Config, st: Store, done: set<Record>)
  {
    && Usable(cfg, st)
    && Open(cfg, st.flash, st.sec, st.addr)
    && Framed(cfg, st.buf)
    && Recorded(cfg, st.flash, st.buf[cfg.seqOff], done)
  }

  lemma RoomReady(cfg: Config, st: Store, done: set<Record>)
    requires Ready(cfg, st, done)
    ensures var r := MakeRoom(cfg, st);
      && Ready(cfg, r, done)
      && r.buf[cfg.seqOff] == st.buf[cfg.seqOff]
      && (r == st || (r.flash == Erase(st.flash, r.sec) && r.log == st.log + [EraseOp(r.sec)]))
  {
    hide Checksum, ScanSector, ValidRecord, Chain, Recorded, Blank;
    var r := MakeRoom(cfg, st);
    if r != st {
      hide Erase;
      ErasedOpen(cfg, st.flash, r.sec);
      ErasedRecorded(cfg, st.flash, r.sec, st.buf[cfg.seqOff], done);
    }
  }

  lemma ErasedRecorded(cfg: Config, f: seq<Word>, sec: nat, s: nat, done: set<Record>)
    requires cfg.Layout() && InFlash(cfg, f) && cfg.secEnd <= sec <= cfg.secStart && Recorded(cfg, f, s, done)
    ensures Recorded(cfg, Erase(f, sec), s, done)
  {
    hide Checksum, ScanSector, ValidRecord, RecordAt, Erase;
    var g := Erase(f, sec);
    forall t: nat, h | IsHit(cfg, g, t, h)
      ensures SeqAt(cfg, g, h) <= s && RecordAt(cfg, g, h) in done
    {
      ErasedHit(cfg, f, sec, t, h);
      SeqInRecord(cfg, g, h);
      SeqInRecord(cfg, f, h);
    }
  }

  /** The store after appending: the record in its slot, the position behind it. */
  function Appended(cfg: Config, room: Store): (r: Store)
    requires Usable(cfg, room) && room.addr + cfg.size <= SectorBase(room.sec + 1)
  {
    var rec := Stamp(cfg, room.buf);
    Store(Place(room.flash, room.addr, rec, cfg.size), rec, room.sec, room.addr + cfg.size,
          room.log + Programs(room.addr, rec))
  }

  lemma AppendAttempt(cfg: Config, room: Store, done: set<Record>)
    requires Ready(cfg, room, done) && room.addr + cfg.size <= SectorBase(room.sec + 1)
    ensures Attempt(cfg, room) == SaveResult(Appended(cfg, room), true)
  {
    hide Checksum, Stamp, ScanSector, Chain, WriteFrom;
    var rec := Stamp(cfg, room.buf);
    BlankWrite(room.flash, room.log, room.addr, rec, 0);
    assert Place(room.flash, room.addr, rec, 0) == room.flash;
    assert room.log + Programs(room.addr, rec)[..0] == room.log;
    assert RecordAt(cfg, Place(room.flash, room.addr, rec, cfg.size), room.addr) == rec;
  }

  lemma AppendResult(cfg: Config, st: Store, done: set<Record>, retry: nat)
    requires Ready(cfg, st, done) && retry < MAX_WRITE_RETRY
    ensures SaveFrom(cfg, st, retry) == SaveResult(Appended(cfg, MakeRoom(cfg, st)), true)
  {
    hide MakeRoom, Attempt, Appended, Recorded, Open;
    RoomReady(cfg, st, done);
    AppendAttempt(cfg, MakeRoom(cfg, st), done);
  }

  /** Every hit after appending is the new record or an older one. */
  lemma AppendedHit(cfg: Config, room: Store, done: set<Record>, t: nat, h: nat)
    requires Ready(cfg, room, done) && room.addr + cfg.size <= SectorBase(room.sec + 1)
    requires IsHit(cfg, Appended(cfg, room).flash, t, h)
    requires room.buf[cfg.seqOff] + 1 < WORD_LIMIT
    ensures var a := Appended(cfg, room);
      && SeqAt(cfg, a.flash, h) <= a.buf[cfg.seqOff]
      && RecordAt(cfg, a.flash, h) in done + {a.buf}
      && (h != room.addr ==> SeqAt(cfg, a.flash, h) < a.buf[cfg.seqOff])
  {
    hide Checksum, ScanSector, Chain, ValidRecord;
    var a := Appended(cfg, room);
    PlacedHit(cfg, room.flash, room.sec, room.addr, a.buf, cfg.size, t, h);
    assert SeqAt(cfg, a.flash, h) == RecordAt(cfg, a.flash, h)[cfg.seqOff];
    if IsHit(cfg, room.flash, t, h) {
      assert SeqAt(cfg, room.flash, h) == RecordAt(cfg, room.flash, h)[cfg.seqOff];
    }
  }

  /** Appending makes the new record the live one. */
  lemma AppendLive(cfg: Config, room: Store, done: set<Record>)
    requires Ready(cfg, room, done) && room.addr + cfg.size <= SectorBase(room.sec + 1)
    requires room.buf[cfg.seqOff] + 1 < WORD_LIMIT
    ensures var a := Appended(cfg, room);
      && a.buf[cfg.seqOff] == room.buf[cfg.seqOff] + 1
      && Live(cfg, a, a.addr, done + {a.buf})
  {
    hide Checksum, ValidRecord, ScanSector, Chain, Open, Programs, Place;
    var a := Appended(cfg, room);
    AppendedPlace(cfg, room, done);
    AppendedOlder(cfg, room, done);
  }

  lemma AppendedPlace(cfg: Config, room: Store, done: set<Record>)
    requires Ready(cfg, room, done) && room.addr + cfg.size <= SectorBase(room.sec + 1)
    ensures var a := Appended(cfg, room);
      && LiveAt(cfg, a.flash, a.sec, a.addr) && RecordAt(cfg, a.flash, room.addr) == a.buf
  {
    hide Checksum, ScanSector, Chain, Open, Programs, Place, Stamp, Recorded;
    StampValid(cfg, room.buf);
    PlacedOpen(cfg, room.flash, room.sec, room.addr, Stamp(cfg, room.buf));
    OpenBounds(cfg, room.flash, room.sec, room.addr);
  }

  lemma OpenBounds(cfg: Config, f: seq<Word>, sec: nat, end: nat)
    requires Open(cfg, f, sec, end)
    ensures SectorBase(sec) <= end <= SectorBase(sec + 1)
  {
  }

  lemma AppendedOlder(cfg: Config, room: Store, done: set<Record>)
    requires Ready(cfg, room, done) && room.addr + cfg.size <= SectorBase(room.sec + 1)
    requires room.buf[cfg.seqOff] + 1 < WORD_LIMIT
    ensures var a := Appended(cfg, room);
      && Recorded(cfg, a.flash, a.buf[cfg.seqOff], done + {a.buf})
      && forall t: nat, h :: IsHit(cfg, a.flash, t, h) && h != room.addr ==> SeqAt(cfg, a.flash, h) < a.buf[cfg.seqOff]
  {
    hide Checksum, ValidRecord, ScanSector, Chain, Open, Programs, Place, Stamp, RecordAt;
    var a := Appended(cfg, room);
    forall t: nat, h | IsHit(cfg, a.flash, t, h)
      ensures SeqAt(cfg, a.flash, h) <= a.buf[cfg.seqOff] && RecordAt(cfg, a.flash, h) in done + {a.buf}
      ensures h != room.addr ==> SeqAt(cfg, a.flash, h) < a.buf[cfg.seqOff]
    {
      AppendedHit(cfg, room, done, t, h);
    }
  }

  // ------------------------------------------------ the overwrite attempt after a boot

  /** The store after the first attempt that follows a boot. */
  function AfterClash(cfg: Config, st: Store): (r: Store)
    requires Usable(cfg, st) && st.addr + cfg.size <= |st.flash|
  {
    var rec := Stamp(cfg, st.buf);
    st.(flash := Spoil(cfg, st.flash, st.addr, And(st.flash[st.addr + cfg.seqOff], rec[cfg.seqOff])),
        log := st.log + [ProgramOp(st.addr, rec[0]), ProgramOp(st.addr + 1, rec[1])],
        buf := rec, addr := st.addr + cfg.size)
  }

  /** Programming s+1 over s never reads back, so the attempt fails at the sequence word. */
  lemma ClashWrite(cfg: Config, f: seq<Word>, log: seq<Op>, a: nat, rec: Record)
    requires cfg.Layout() && |rec| == cfg.size && a + cfg.size <= |f|
    requires f[a] == rec[0] && f[a + 1] < ALL_ONES && rec[1] == f[a + 1] + 1
    ensures WriteFrom(f, log, a, rec, 0)
         == Written(f[a + 1 := And(f[a + 1], rec[1])],
                    log + [ProgramOp(a, rec[0]), ProgramOp(a + 1, rec[1])], false)
  {
    AndSelf(rec[0]);
    AndSuccDiffers(f[a + 1]);
    var p0, p1 := ProgramOp(a, rec[0]), ProgramOp(a + 1, rec[1]);
    assert Program(f, a, rec[0]) == f;
    assert log + [p0] + [p1] == log + [p0, p1];
    assert WriteFrom(f, log, a, rec, 0) == WriteFrom(f, log + [p0], a, rec, 1);
  }

  lemma ClashSave(cfg: Config, st: Store)
    requires Usable(cfg, st) && Framed(cfg, st.buf)
    requires st.addr + cfg.size <= SectorBase(st.sec + 1)
    requires st.flash[st.addr] == cfg.magicHead
    requires st.flash[st.addr + 1] == st.buf[1] && st.buf[1] + 1 < WORD_LIMIT
    ensures SaveFrom(cfg, st, 0) == SaveFrom(cfg, AfterClash(cfg, st), 1)
  {
    hide Attempt;
    assert MakeRoom(cfg, st) == st;
    ClashAttempt(cfg, st);
  }

  lemma ClashAttempt(cfg: Config, st: Store)
    requires Usable(cfg, st) && Framed(cfg, st.buf)
    requires st.addr + cfg.size <= SectorBase(st.sec + 1)
    requires st.flash[st.addr] == cfg.magicHead
    requires st.flash[st.addr + 1] == st.buf[1] && st.buf[1] + 1 < WORD_LIMIT
    ensures Attempt(cfg, st) == SaveResult(AfterClash(cfg, st), false)
  {
    hide Checksum, WriteFrom;
    ClashWrite(cfg, st.flash, st.log, st.addr, Stamp(cfg, st.buf));
  }

  /** The caller's edited buffer: payload free, meta words still those of the live record. */
  ghost predicate Edited(cfg: Config, old': Record, rec: Record)
    requires cfg.Layout() && |old'| == cfg.size
  {
    && Framed(cfg, rec)
    && rec[cfg.seqOff] == old'[cfg.seqOff]
    && rec[cfg.eraseOff] == old'[cfg.eraseOff]
  }

  lemma ClashReady(cfg: Config, st: Store, end: nat, done: set<Record>, rec: Record)
    requires Live(cfg, st, end, done) && Edited(cfg, st.buf, rec) && st.addr == end - cfg.size
    requires st.buf[cfg.seqOff] + 1 < WORD_LIMIT
    ensures Ready(cfg, AfterClash(cfg, st.(buf := rec)), done)
    ensures AfterClash(cfg, st.(buf := rec)).buf[cfg.seqOff] == st.buf[cfg.seqOff] + 1
  {
    hide Checksum, ValidRecord, ScanSector, Chain, Blank, Recorded, Spoil, And;
    var next := AfterClash(cfg, st.(buf := rec));
    var x := And(st.flash[st.addr + cfg.seqOff], next.buf[cfg.seqOff]);
    StampValid(cfg, rec);
    SpoiltOpen(cfg, st.flash, st.sec, end, x);
    SpoiltRecorded(cfg, st.flash, st.sec, end, x, st.buf[cfg.seqOff], next.buf[cfg.seqOff], done);
  }

  lemma SpoiltRecorded(cfg: Config, f: seq<Word>, sec: nat, end: nat, x: Word, s: nat, s': nat, done: set<Record>)
    requires LiveAt(cfg, f, sec, end) && Recorded(cfg, f, s, done) && s <= s'
    ensures Recorded(cfg, Spoil(cfg, f, end - cfg.size, x), s', done)
  {
    hide Checksum, ValidRecord, ScanSector, Chain, RecordAt, Spoil;
    var g := Spoil(cfg, f, end - cfg.size, x);
    forall t: nat, h | IsHit(cfg, g, t, h)
      ensures SeqAt(cfg, g, h) <= s' && RecordAt(cfg, g, h) in done
    {
      SpoiltHit(cfg, f, sec, end, x, t, h);
      SeqInRecord(cfg, g, h);
      SeqInRecord(cfg, f, h);
    }
  }

  /** The state the successful attempt starts from: the given one, or the one after the clash. */
  function Start(cfg: Config, st: Store, clash: bool): (r: Store)
    requires Usable(cfg, st) && (clash ==> st.addr + cfg.size <= |st.flash|)
  {
    if clash then AfterClash(cfg, st) else st
  }

  lemma StartReady(cfg: Config, st: Store, end: nat, done: set<Record>, rec: Record)
    requires Live(cfg, st, end, done) && Edited(cfg, st.buf, rec)
    requires st.buf[cfg.seqOff] + 1 < WORD_LIMIT
    ensures var s := Start(cfg, st.(buf := rec), st.addr != end);
      && Ready(cfg, s, done)
      && s.buf[cfg.seqOff] == st.buf[cfg.seqOff] + (if st.addr == end then 0 else 1)
      && Save(cfg, st.(buf := rec)) == SaveFrom(cfg, s, if st.addr == end then 0 else 1)
  {
    if st.addr != end {
      ClashReady(cfg, st, end, done, rec);
      assert st.flash[st.addr] == RecordAt(cfg, st.flash, end - cfg.size)[0];
      assert st.flash[st.addr + 1] == RecordAt(cfg, st.flash, end - cfg.size)[1];
      ClashSave(cfg, st.(buf := rec));
    }
  }

  /** A save in the invariant state succeeds and re-establishes the invariant with its own record. */
  lemma SaveKeepsLive(cfg: Config, st: Store, end: nat, done: set<Record>, rec: Record)
    requires Live(cfg, st, end, done) && Edited(cfg, st.buf, rec)
    requires st.buf[cfg.seqOff] + 2 < WORD_LIMIT
    ensures var r := Save(cfg, st.(buf := rec));
      && r.ok
      && Live(cfg, r.store, r.store.addr, done + {r.store.buf})
      && st.buf[cfg.seqOff] < r.store.buf[cfg.seqOff] <= st.buf[cfg.seqOff] + 2
      && forall i :: 0 <= i < cfg.size && !cfg.IsMeta(i) ==> r.store.buf[i] == rec[i]
  {
    hide LiveAt, Recorded, SaveFrom, Appended, MakeRoom, AfterClash, Open;
    LiveFits(cfg, st, end, done);
    StartReady(cfg, st, end, done, rec);
    var s := Start(cfg, st.(buf := rec), st.addr != end);
    AppendResult(cfg, s, done, if st.addr == end then 0 else 1);
    RoomReady(cfg, s, done);
    AppendLive(cfg, MakeRoom(cfg, s), done);
    StartPayload(cfg, st.(buf := rec), st.addr != end);
  }

  lemma LiveFits(cfg: Config, st: Store, end: nat, done: set<Record>)
    requires Live(cfg, st, end, done)
    ensures cfg.size <= end <= |st.flash|
  {
  }

  /** Neither the clash nor the append touches the payload. */
  lemma StartPayload(cfg: Config, st: Store, clash: bool)
    requires Usable(cfg, st) && (clash ==> st.addr + cfg.size <= |st.flash|)
    ensures var s := Start(cfg, st, clash);
      Usable(cfg, s) &&
      forall i :: 0 <= i < cfg.size && !cfg.IsMeta(i) ==> Appended(cfg, MakeRoom(cfg, s)).buf[i] == st.buf[i]
  {
    hide Checksum, Programs, Place;
  }

  // ------------------------------------------------ booting

  lemma BootKeepsLive(cfg: Config, defaults: Record, st: Store, end: nat, done: set<Record>)
    requires Live(cfg, st, end, done) && |defaults| == cfg.size
    ensures var b := Boot(cfg, defaults, st.flash, st.log);
      && Live(cfg, b, end, done)
      && b == st.(addr := end - cfg.size)
  {
    hide Checksum, ScanSector, Chain, Blank, ValidRecord, Newest, Save, Recorded;
    NewestIsLive(cfg, st, end, done);
    assert (end - cfg.size) / SECTOR_WORDS == st.sec;
  }

  lemma NewestIsLive(cfg: Config, st: Store, end: nat, done: set<Record>)
    requires Live(cfg, st, end, done)
    ensures cfg.size <= end && Newest(cfg, st.flash) == Some(end - cfg.size)
  {
    hide Checksum, ScanSector, Open, ValidRecord, Newest, RecordAt;
    LiveIsHit(cfg, st.flash, st.sec, end);
    ScanFindsNewest(cfg, st.flash);
    SeqInRecord(cfg, st.flash, end - cfg.size);
  }

  /** The record the first boot writes. */
  function DefaultRecord(cfg: Config, defaults: Record): (r: Record)
    requires cfg.Layout() && |defaults| == cfg.size
    ensures |r| == cfg.size
  {
    Stamp(cfg, FreshDefaults(cfg, defaults))
  }

  lemma BootEmpty(cfg: Config, defaults: Record, f: seq<Word>, log: seq<Op>)
    requires cfg.Layout() && InFlash(cfg, f) && Framed(cfg, defaults) && Newest(cfg, f).None?
    ensures var b := Boot(cfg, defaults, f, log);
      && Live(cfg, b, b.addr, {b.buf})
      && b.buf == DefaultRecord(cfg, defaults)
      && b.buf[cfg.seqOff] == 1
      && b.log == log + [EraseOp(cfg.secStart)] + Programs(SectorBase(cfg.secStart), b.buf)
      && b.sec == cfg.secStart
  {
    hide Checksum, ScanSector, ValidRecord, Open, Live, Place, Programs, SaveFrom;
    ScanFindsNewest(cfg, f);
    var blank := Store(Erase(f, cfg.secStart), FreshDefaults(cfg, defaults),
                       cfg.secStart, SectorBase(cfg.secStart), log + [EraseOp(cfg.secStart)]);
    ErasedOpen(cfg, f, cfg.secStart);
    forall t: nat, h | IsHit(cfg, blank.flash, t, h)
      ensures false
    {
      ErasedHit(cfg, f, cfg.secStart, t, h);
    }
    assert Ready(cfg, blank, {});
    assert MakeRoom(cfg, blank) == blank;
    AppendResult(cfg, blank, {}, 0);
    AppendLive(cfg, blank, {});
    assert {} + {DefaultRecord(cfg, defaults)} == {DefaultRecord(cfg, defaults)};
  }
}
