/** When the newest record survives a cut save, and how evenly the sectors wear. */
module RecordSurvival {
  import opened Bits
  import opened Crc
  import opened RecordStore
  import opened RecordInvariant
  import opened RecordSave
  import opened RecordRuns

  // ------------------------------------------------ survival of the newest record

  /** After this cut the boot still loads the previous record, or already the new one. */
  ghost predicate Survives(cfg: Config, g: seq<Word>, prev: Record, next: Record)
    requires cfg.Layout() && InFlash(cfg, g)
  {
    && Newest(cfg, g).Some?
    && (RecordAt(cfg, g, Newest(cfg, g).value) == prev || RecordAt(cfg, g, Newest(cfg, g).value) == next)
  }

  /** rec sits at h as the strictly newest record of g. */
  ghost predicate Holds(cfg: Config, g: seq<Word>, t: nat, h: nat, rec: Record)
  {
    && cfg.Layout() && InFlash(cfg, g) && |rec| == cfg.size
    && IsHit(cfg, g, t, h)
    && h + cfg.size <= |g| && RecordAt(cfg, g, h) == rec
    && forall t': nat, h' :: IsHit(cfg, g, t', h') && h' != h ==> SeqAt(cfg, g, h') < rec[cfg.seqOff]
  }

  lemma LiveHolds(cfg: Config, st: Store, end: nat, done: set<Record>)
    requires Live(cfg, st, end, done)
    ensures Holds(cfg, st.flash, st.sec, end - cfg.size, st.buf)
  {
    LiveIsHit(cfg, st.flash, st.sec, end);
  }

  lemma HoldsSurvives(cfg: Config, g: seq<Word>, t: nat, h: nat, rec: Record, next: Record)
    requires Holds(cfg, g, t, h, rec)
    ensures Survives(cfg, g, rec, next)
  {
    hide ScanSector, Newest;
    ScanFindsNewest(cfg, g);
    assert SeqAt(cfg, g, h) == RecordAt(cfg, g, h)[cfg.seqOff];
  }

  /** Programming part of a newer record elsewhere in an open sector leaves rec findable. */
  lemma PlaceSurvives(cfg: Config, f: seq<Word>, t: nat, h: nat, rec: Record,
                      sec: nat, end: nat, next: Record, k: nat)
    requires Holds(cfg, f, t, h, rec)
    requires Open(cfg, f, sec, end) && end + cfg.size <= SectorBase(sec + 1)
    requires |next| == cfg.size && next[0] == cfg.magicHead && k <= cfg.size
    ensures Survives(cfg, Place(f, end, next, k), rec, next)
  {
    hide ScanFrom, Chain, Newest, ValidRecord;
    var g := Place(f, end, next, k);
    HitStays(cfg, f, t, h, sec, end, next, k);
    ScanFindsNewest(cfg, g);
    var a := Newest(cfg, g).value;
    var t' : nat :| IsHit(cfg, g, t', a);
    PlacedHit(cfg, f, sec, end, next, k, t', a);
    assert SeqAt(cfg, g, a) == RecordAt(cfg, g, a)[cfg.seqOff];
    if RecordAt(cfg, g, a) != next {
      assert SeqAt(cfg, f, a) == RecordAt(cfg, f, a)[cfg.seqOff];
      assert SeqAt(cfg, g, h) == RecordAt(cfg, g, h)[cfg.seqOff];
    }
  }

  lemma HitStays(cfg: Config, f: seq<Word>, t: nat, h: nat, sec: nat, end: nat, next: Record, k: nat)
    requires Open(cfg, f, sec, end) && end + cfg.size <= SectorBase(sec + 1)
    requires |next| == cfg.size && next[0] == cfg.magicHead && k <= cfg.size
    requires IsHit(cfg, f, t, h)
    ensures h + cfg.size <= |f|
    ensures IsHit(cfg, Place(f, end, next, k), t, h)
    ensures RecordAt(cfg, Place(f, end, next, k), h) == RecordAt(cfg, f, h)
  {
    hide ScanFrom, Chain, ValidRecord;
    var g := Place(f, end, next, k);
    if k == 0 {
      assert g == f;
    } else if t != sec {
      HitElsewhere(cfg, g, f, sec, end, t, h);
    } else {
      PlacedHits(cfg, f, sec, end, next, k);
      OpenScan(cfg, f, sec, end);
      HitBefore(cfg, f, g, sec, SectorBase(sec), end, h);
    }
  }

  /** Erasing another sector leaves rec in place. */
  lemma EraseHolds(cfg: Config, f: seq<Word>, t: nat, h: nat, rec: Record, s: nat)
    requires Holds(cfg, f, t, h, rec) && cfg.secEnd <= s <= cfg.secStart && s != t
    ensures Holds(cfg, Erase(f, s), t, h, rec)
  {
    hide ScanSector;
    var g := Erase(f, s);
    HitElsewhere(cfg, g, f, s, SectorBase(s), t, h);
    forall t': nat, h' | IsHit(cfg, g, t', h') && h' != h
      ensures SeqAt(cfg, g, h') < rec[cfg.seqOff]
    {
      ErasedHit(cfg, f, s, t', h');
      assert SeqAt(cfg, g, h') == RecordAt(cfg, g, h')[cfg.seqOff];
      assert SeqAt(cfg, f, h') == RecordAt(cfg, f, h')[cfg.seqOff];
    }
  }

  /** Once every findable record is older than prev, prev is lost. */
  lemma OlderOnly(cfg: Config, g: seq<Word>, prev: Record, next: Record)
    requires cfg.Layout() && InFlash(cfg, g) && |prev| == cfg.size && |next| == cfg.size
    requires prev[cfg.seqOff] < next[cfg.seqOff]
    requires forall t: nat, h :: IsHit(cfg, g, t, h) ==> SeqAt(cfg, g, h) < prev[cfg.seqOff]
    ensures !Survives(cfg, g, prev, next)
  {
    hide ScanSector, Newest;
    ScanFindsNewest(cfg, g);
    if Newest(cfg, g).Some? {
      var a := Newest(cfg, g).value;
      assert SeqAt(cfg, g, a) == RecordAt(cfg, g, a)[cfg.seqOff];
    }
  }

  /** What decides survival, readable before the save: an attempt right after a boot must find an even
      sequence number in the live slot, and a full sector must not be the one that gets erased. */
  predicate Gentle(cfg: Config, st: Store, end: nat)
    requires cfg.Layout() && |st.buf| == cfg.size
  {
    && (st.addr == end || st.buf[cfg.seqOff] % 2 == 0)
    && (end + cfg.size <= SectorBase(st.sec + 1)
        || (st.buf[cfg.eraseOff] >= MAX_ERASE_LIFE && cfg.secEnd < cfg.secStart))
  }

  /** The cut that loses the newest record when the save is not gentle. */
  function FatalCut(cfg: Config, st: Store, end: nat): (k: nat)
    requires cfg.Layout() && |st.buf| == cfg.size
  {
    if st.addr == end then 1
    else if st.buf[cfg.seqOff] % 2 == 1 then 2 else 3
  }

  ghost predicate EditedLive(cfg: Config, st: Store, end: nat, done: set<Record>, rec: Record)
  {
    Live(cfg, st, end, done) && Edited(cfg, st.buf, rec) && st.buf[cfg.seqOff] + 2 < WORD_LIMIT
    && end <= |st.flash|
  }

  lemma StampSeq(cfg: Config, rec: Record)
    requires cfg.Layout() && |rec| == cfg.size && rec[cfg.seqOff] + 1 < WORD_LIMIT
    ensures Stamp(cfg, rec)[cfg.seqOff] == rec[cfg.seqOff] + 1
  {
    hide Checksum;
  }

  /** The failed attempt after a boot only changes the sequence word of the live slot. */
  lemma ClashSpoils(cfg: Config, st: Store, end: nat, done: set<Record>, rec: Record)
    requires EditedLive(cfg, st, end, done, rec) && st.addr != end
    ensures cfg.size <= end
    ensures AfterClash(cfg, st.(buf := rec)).flash
         == Spoil(cfg, st.flash, end - cfg.size, And(st.buf[cfg.seqOff], st.buf[cfg.seqOff] + 1))
    ensures SeqAt(cfg, st.flash, end - cfg.size) == st.buf[cfg.seqOff]
  {
    hide Recorded, ScanSector, Chain, Blank, And, Checksum, ValidRecord;
    SeqInRecord(cfg, st.flash, end - cfg.size);
    StampSeq(cfg, rec);
  }

  /** With an even number it changes nothing; with an odd one the live record is no longer found. */
  lemma ClashHolds(cfg: Config, st: Store, end: nat, done: set<Record>, rec: Record)
    requires EditedLive(cfg, st, end, done, rec) && st.addr != end
    ensures st.buf[cfg.seqOff] % 2 == 0 ==>
      AfterClash(cfg, st.(buf := rec)).flash == st.flash
    ensures st.buf[cfg.seqOff] % 2 == 1 ==>
      forall t: nat, h :: IsHit(cfg, AfterClash(cfg, st.(buf := rec)).flash, t, h)
        ==> SeqAt(cfg, AfterClash(cfg, st.(buf := rec)).flash, h) < st.buf[cfg.seqOff]
  {
    hide ScanSector, Chain, And, AfterClash;
    var g := AfterClash(cfg, st.(buf := rec)).flash;
    var s := st.buf[cfg.seqOff];
    AndSuccKeeps(s);
    ClashSpoils(cfg, st, end, done, rec);
    if s % 2 == 1 {
      forall t: nat, h | IsHit(cfg, g, t, h)
        ensures SeqAt(cfg, g, h) < s
      {
        SpoiltHit(cfg, st.flash, st.sec, end, And(s, s + 1), t, h);
        assert SeqAt(cfg, g, h) == RecordAt(cfg, g, h)[cfg.seqOff];
        assert SeqAt(cfg, st.flash, h) == RecordAt(cfg, st.flash, h)[cfg.seqOff];
      }
    } else {
      assert Spoil(cfg, st.flash, end - cfg.size, s) == st.flash;
    }
  }

  lemma EraseLoses(cfg: Config, f: seq<Word>, sec: nat, live: nat, prev: Record)
    requires Holds(cfg, f, sec, live, prev)
    ensures forall t: nat, h :: IsHit(cfg, Erase(f, sec), t, h) ==> SeqAt(cfg, Erase(f, sec), h) < prev[cfg.seqOff]
  {
    hide ScanFrom;
    var g := Erase(f, sec);
    forall t: nat, h | IsHit(cfg, g, t, h)
      ensures SeqAt(cfg, g, h) < prev[cfg.seqOff]
    {
      ErasedHit(cfg, f, sec, t, h);
      assert SeqAt(cfg, g, h) == RecordAt(cfg, g, h)[cfg.seqOff];
      assert SeqAt(cfg, f, h) == RecordAt(cfg, f, h)[cfg.seqOff];
    }
  }

  /** A gentle append: at every cut the previous record or the new one is loaded. */
  lemma GentleAppend(cfg: Config, s: Store, done: set<Record>, t: nat, h: nat, prev: Record, k: nat)
    requires Ready(cfg, s, done) && Holds(cfg, s.flash, t, h, prev) && k <= |AppendOps(cfg, s)|
    requires MakeRoom(cfg, s) == s || MakeRoom(cfg, s).sec != t
    ensures Survives(cfg, CutFlash(s.flash, AppendOps(cfg, s), k), prev, Appended(cfg, MakeRoom(cfg, s)).buf)
  {
    hide MakeRoom, AppendOps, CutFlash, Chain, ScanSector, Programs, Survives, Holds;
    CutAppend(cfg, s, done, k);
    RoomReady(cfg, s, done);
    var room := MakeRoom(cfg, s);
    var erases := if room == s then 0 else 1;
    StampValid(cfg, room.buf);
    if k < erases {
      HoldsSurvives(cfg, s.flash, t, h, prev, Stamp(cfg, room.buf));
    } else {
      if room != s {
        EraseHolds(cfg, s.flash, t, h, prev, room.sec);
      }
      PlaceSurvives(cfg, room.flash, t, h, prev, room.sec, room.addr, Stamp(cfg, room.buf), k - erases);
    }
  }

  /** Which sector a full append erases. */
  lemma RoomSector(cfg: Config, st: Store, end: nat, rec: Record, s: Store)
    requires Usable(cfg, st) && Edited(cfg, st.buf, rec)
    requires Usable(cfg, s) && s.addr == end && s.sec == st.sec && s.buf[cfg.eraseOff] == st.buf[cfg.eraseOff]
    ensures MakeRoom(cfg, s) == s <==> end + cfg.size <= SectorBase(st.sec + 1)
    ensures MakeRoom(cfg, s) != s ==>
      (MakeRoom(cfg, s).sec != st.sec <==> st.buf[cfg.eraseOff] >= MAX_ERASE_LIFE && cfg.secEnd < cfg.secStart)
  {
  }

  lemma StartFacts(cfg: Config, st: Store, end: nat, done: set<Record>, rec: Record)
    requires EditedLive(cfg, st, end, done, rec)
    ensures var s := Start(cfg, st.(buf := rec), st.addr != end);
      && Usable(cfg, s) && s.addr == end && s.sec == st.sec
      && s.buf[cfg.eraseOff] == st.buf[cfg.eraseOff]
  {
    hide LiveAt, Recorded;
  }

  lemma GentleSurvives(cfg: Config, st: Store, end: nat, done: set<Record>, rec: Record, k: nat)
    requires EditedLive(cfg, st, end, done, rec) && Gentle(cfg, st, end)
    requires k <= |SaveOps(cfg, st.(buf := rec), st.addr != end)|
    ensures Survives(cfg, CutFlash(st.flash, SaveOps(cfg, st.(buf := rec), st.addr != end), k),
                     st.buf, Save(cfg, st.(buf := rec)).store.buf)
  {
    hide LiveAt, Recorded, SaveFrom, MakeRoom, Open, AppendOps, SaveOps, Stamp, CutFlash, Survives, Holds,
      Appended, AfterClash, ScanSector;
    LiveFits(cfg, st, end, done);
    var clash := st.addr != end;
    var s := Start(cfg, st.(buf := rec), clash);
    var next := Save(cfg, st.(buf := rec)).store.buf;
    StartReady(cfg, st, end, done, rec);
    StartFacts(cfg, st, end, done, rec);
    AppendResult(cfg, s, done, if clash then 1 else 0);
    RoomSector(cfg, st, end, rec, s);
    LiveHolds(cfg, st, end, done);
    CutSave(cfg, st, end, done, rec, k);
    var skip := if clash then 2 else 0;
    if clash {
      ClashHolds(cfg, st, end, done, rec);
    }
    if k < skip {
      HoldsSurvives(cfg, st.flash, st.sec, end - cfg.size, st.buf, next);
    } else {
      GentleAppend(cfg, s, done, st.sec, end - cfg.size, st.buf, k - skip);
    }
  }

  lemma HarshLoses(cfg: Config, st: Store, end: nat, done: set<Record>, rec: Record)
    requires EditedLive(cfg, st, end, done, rec) && !Gentle(cfg, st, end)
    ensures var ops := SaveOps(cfg, st.(buf := rec), st.addr != end);
      && FatalCut(cfg, st, end) <= |ops|
      && !Survives(cfg, CutFlash(st.flash, ops, FatalCut(cfg, st, end)), st.buf,
                   Save(cfg, st.(buf := rec)).store.buf)
  {
    hide LiveAt, Recorded, SaveFrom, Open, Stamp, CutFlash, Survives, Holds, Appended, AfterClash, Programs,
      ScanSector, MakeRoom, AppendOps;
    LiveFits(cfg, st, end, done);
    var clash := st.addr != end;
    var s := Start(cfg, st.(buf := rec), clash);
    var next := Save(cfg, st.(buf := rec)).store.buf;
    SaveKeepsLive(cfg, st, end, done, rec);
    StartReady(cfg, st, end, done, rec);
    StartFacts(cfg, st, end, done, rec);
    RoomSector(cfg, st, end, rec, s);
    RoomReady(cfg, s, done);
    LiveHolds(cfg, st, end, done);
    AppendOpsLength(cfg, s);
    var k := FatalCut(cfg, st, end);
    CutSave(cfg, st, end, done, rec, k);
    if clash {
      ClashHolds(cfg, st, end, done, rec);
    }
    if clash && st.buf[cfg.seqOff] % 2 == 1 {
      CutNone(s.flash, AppendOps(cfg, s));
      OlderOnly(cfg, s.flash, st.buf, next);
    } else {
      FirstAppendOp(cfg, s, done);
      EraseLoses(cfg, st.flash, st.sec, end - cfg.size, st.buf);
      OlderOnly(cfg, MakeRoom(cfg, s).flash, st.buf, next);
    }
  }

  /** A full append starts by erasing. */
  lemma FirstAppendOp(cfg: Config, s: Store, done: set<Record>)
    requires Ready(cfg, s, done) && MakeRoom(cfg, s) != s
    ensures |AppendOps(cfg, s)| >= 1
    ensures CutFlash(s.flash, AppendOps(cfg, s), 1) == MakeRoom(cfg, s).flash
  {
    hide Ready, MakeRoom, Stamp, CutFlash, Programs, AppendOps;
    ReadyUsable(cfg, s, done);
    AppendOpsLength(cfg, s);
    CutAppend(cfg, s, done, 1);
    var room := MakeRoom(cfg, s);
    assert Place(room.flash, room.addr, Stamp(cfg, room.buf), 0) == room.flash;
  }

  lemma AppendOpsLength(cfg: Config, s: Store)
    requires Usable(cfg, s)
    ensures |AppendOps(cfg, s)| == cfg.size + if MakeRoom(cfg, s) == s then 0 else 1
  {
  }

  /** The newest record survives every possible cut of a save exactly when the save is gentle. */
  lemma NewestSurvivesIff(cfg: Config, defaults: Record, f0: seq<Word>, evs: seq<Event>, payload: Record)
    requires Setup(cfg, defaults, f0) && History(cfg, evs) && |payload| == cfg.size
    ensures var st := After(cfg, defaults, f0, evs);
      var r := Save(cfg, st.(buf := Edit(cfg, st.buf, payload)));
      && |st.log| <= |r.store.log|
      && ((forall k :: 0 <= k <= |r.store.log| - |st.log| ==>
             Survives(cfg, CutFlash(st.flash, r.store.log[|st.log|..], k), st.buf, r.store.buf))
          <==> Gentle(cfg, st, st.addr + if JustBooted(evs) then cfg.size else 0))
  {
    hide LiveAt, Recorded, SaveFrom, CutFlash, Newest, ScanSector, Survives, Gentle, FatalCut, SaveOps;
    var end := RunInvariant(cfg, defaults, f0, evs);
    var st := After(cfg, defaults, f0, evs);
    var done := Completed(cfg, defaults, f0, evs);
    var rec := Edit(cfg, st.buf, payload);
    EditEdited(cfg, st, end, done, payload);
    SaveOpsLogged(cfg, st, end, done, rec);
    var ops := SaveOps(cfg, st.(buf := rec), st.addr != end);
    assert Save(cfg, st.(buf := rec)).store.log[|st.log|..] == ops;
    if Gentle(cfg, st, end) {
      forall k | 0 <= k <= |ops|
        ensures Survives(cfg, CutFlash(st.flash, ops, k), st.buf, Save(cfg, st.(buf := rec)).store.buf)
      {
        GentleSurvives(cfg, st, end, done, rec, k);
      }
    } else {
      HarshLoses(cfg, st, end, done, rec);
    }
  }

  /** It can be lost: restart once after the first power-up, save, and lose power after two
      operations.  The only record there was is gone. */
  lemma FirstRecordCanBeLost(cfg: Config, defaults: Record, f0: seq<Word>, payload: Record)
    requires Setup(cfg, defaults, f0) && |payload| == cfg.size
    ensures var st := After(cfg, defaults, f0, [RebootEvent]);
      var r := Save(cfg, st.(buf := Edit(cfg, st.buf, payload)));
      && 2 <= |r.store.log| - |st.log|
      && !Survives(cfg, CutFlash(st.flash, r.store.log[|st.log|..], 2), st.buf, r.store.buf)
  {
    hide LiveAt, Recorded, SaveFrom, CutFlash, Newest, ScanSector, Survives, SaveOps, Boot;
    var evs := [RebootEvent];
    var end := RunInvariant(cfg, defaults, f0, evs);
    var st := After(cfg, defaults, f0, evs);
    var done := Completed(cfg, defaults, f0, evs);
    var rec := Edit(cfg, st.buf, payload);
    var first := After(cfg, defaults, f0, []);
    assert evs[..0] == [];
    BootEmpty(cfg, defaults, f0, []);
    BootKeepsLive(cfg, defaults, first, first.addr, {first.buf});
    assert st.buf[cfg.seqOff] == 1;
    EditEdited(cfg, st, end, done, payload);
    SaveOpsLogged(cfg, st, end, done, rec);
    assert Save(cfg, st.(buf := rec)).store.log[|st.log|..] == SaveOps(cfg, st.(buf := rec), st.addr != end);
    HarshLoses(cfg, st, end, done, rec);
  }

  // ------------------------------------------------ wear levelling

  /** How often a sector was erased. */
  function Erases(log: seq<Op>, s: nat): (n: nat)
    decreases |log|
  {
    if log == [] then 0
    else Erases(log[..|log| - 1], s) + if log[|log| - 1] == EraseOp(s) then 1 else 0
  }

  lemma {:induction false} ErasesProgram(log: seq<Op>, ops: seq<Op>, s: nat)
    requires forall i :: 0 <= i < |ops| ==> ops[i].ProgramOp?
    ensures Erases(log + ops, s) == Erases(log, s)
    decreases |ops|
  {
    if ops == [] {
      assert log + ops == log;
    } else {
      var n := |ops| - 1;
      assert (log + ops)[..|log + ops| - 1] == log + ops[..n];
      ErasesProgram(log, ops[..n], s);
    }
  }

  lemma ErasesErase(log: seq<Op>, e: nat, s: nat)
    ensures Erases(log + [EraseOp(e)], s) == Erases(log, s) + if e == s then 1 else 0
  {
    assert (log + [EraseOp(e)])[..|log|] == log;
  }

  /** After `rounds` full cycles: sectors above the current one have had one visit more, the current
      one as many erases of this visit as its record says. */
  ghost predicate Worn(cfg: Config, log: seq<Op>, sec: nat, count: nat, rounds: nat)
  {
    && 1 <= count <= MAX_ERASE_LIFE
    && forall s :: cfg.secEnd <= s <= cfg.secStart ==>
         Erases(log, s) == rounds * MAX_ERASE_LIFE
           + if s > sec then MAX_ERASE_LIFE else if s == sec then count else 0
  }

  lemma RoomWorn(cfg: Config, st: Store, rounds: nat) returns (rounds': nat)
    requires Usable(cfg, st) && Worn(cfg, st.log, st.sec, st.buf[cfg.eraseOff], rounds)
    ensures var r := MakeRoom(cfg, st); Worn(cfg, r.log, r.sec, r.buf[cfg.eraseOff], rounds')
  {
    var r := MakeRoom(cfg, st);
    rounds' := if r != st && st.buf[cfg.eraseOff] >= MAX_ERASE_LIFE && st.sec <= cfg.secEnd then rounds + 1 else rounds;
    if r != st {
      forall s | cfg.secEnd <= s <= cfg.secStart
        ensures Erases(r.log, s) == Erases(st.log, s) + if r.sec == s then 1 else 0
      {
        ErasesErase(st.log, r.sec, s);
      }
    }
  }

  lemma WornProgram(cfg: Config, log: seq<Op>, ops: seq<Op>, sec: nat, count: nat, rounds: nat)
    requires Worn(cfg, log, sec, count, rounds)
    requires forall i :: 0 <= i < |ops| ==> ops[i].ProgramOp?
    ensures Worn(cfg, log + ops, sec, count, rounds)
  {
    forall s | cfg.secEnd <= s <= cfg.secStart
      ensures Erases(log + ops, s) == Erases(log, s)
    {
      ErasesProgram(log, ops, s);
    }
  }

  lemma SaveWorn(cfg: Config, st: Store, end: nat, done: set<Record>, rec: Record, rounds: nat)
    returns (rounds': nat)
    requires EditedLive(cfg, st, end, done, rec)
    requires Worn(cfg, st.log, st.sec, st.buf[cfg.eraseOff], rounds)
    ensures var r := Save(cfg, st.(buf := rec)).store;
      Worn(cfg, r.log, r.sec, r.buf[cfg.eraseOff], rounds')
  {
    hide LiveAt, Recorded, SaveFrom, Open, Worn, MakeRoom;
    var clash := st.addr != end;
    var e := st.(buf := rec);
    var s := Start(cfg, e, clash);
    StartReady(cfg, st, end, done, rec);
    StartFacts(cfg, st, end, done, rec);
    AppendResult(cfg, s, done, if clash then 1 else 0);
    if clash {
      WornProgram(cfg, st.log, ClashOps(cfg, e), st.sec, st.buf[cfg.eraseOff], rounds);
    }
    rounds' := RoomWorn(cfg, s, rounds);
    var room := MakeRoom(cfg, s);
    RoomReady(cfg, s, done);
    WornProgram(cfg, room.log, Programs(room.addr, Stamp(cfg, room.buf)), room.sec, room.buf[cfg.eraseOff], rounds');
  }

  lemma FirstWorn(cfg: Config, rec: Record)
    requires cfg.Layout() && |rec| == cfg.size && rec[cfg.eraseOff] == 1
    ensures Worn(cfg, [] + [EraseOp(cfg.secStart)] + Programs(SectorBase(cfg.secStart), rec),
                 cfg.secStart, rec[cfg.eraseOff], 0)
  {
    forall s | cfg.secEnd <= s <= cfg.secStart
      ensures Erases([] + [EraseOp(cfg.secStart)], s) == if s == cfg.secStart then 1 else 0
    {
      ErasesErase([], cfg.secStart, s);
    }
    WornProgram(cfg, [] + [EraseOp(cfg.secStart)], Programs(SectorBase(cfg.secStart), rec), cfg.secStart, 1, 0);
  }

  lemma {:induction false} RunWorn(cfg: Config, defaults: Record, f0: seq<Word>, evs: seq<Event>)
    returns (rounds: nat)
    requires Setup(cfg, defaults, f0) && History(cfg, evs)
    ensures var st := After(cfg, defaults, f0, evs); Worn(cfg, st.log, st.sec, st.buf[cfg.eraseOff], rounds)
    decreases |evs|
  {
    hide LiveAt, Recorded, SaveFrom, Boot, Worn, Newest, Completed, IsHit;
    if evs == [] {
      BootEmpty(cfg, defaults, f0, []);
      FirstWorn(cfg, After(cfg, defaults, f0, evs).buf);
      rounds := 0;
    } else {
      var before := evs[..|evs| - 1];
      var st := After(cfg, defaults, f0, before);
      var done := Completed(cfg, defaults, f0, before);
      var end := RunInvariant(cfg, defaults, f0, before);
      rounds := RunWorn(cfg, defaults, f0, before);
      match evs[|evs| - 1]
      case SaveEvent(payload) =>
        EditEdited(cfg, st, end, done, payload);
        LiveFits(cfg, st, end, done);
        rounds := SaveWorn(cfg, st, end, done, Edit(cfg, st.buf, payload), rounds);
      case RebootEvent =>
        BootKeepsLive(cfg, defaults, st, end, done);
    }
  }

  /** Wear levelling: in every run the erase counts of any two sectors differ by at most one life. */
  lemma WearLevelled(cfg: Config, defaults: Record, f0: seq<Word>, evs: seq<Event>, s: nat, t: nat)
    requires Setup(cfg, defaults, f0) && History(cfg, evs)
    requires cfg.secEnd <= s <= cfg.secStart && cfg.secEnd <= t <= cfg.secStart
    ensures var log := After(cfg, defaults, f0, evs).log;
      Erases(log, s) <= Erases(log, t) + 10000
  {
    hide After, Newest;
    var rounds := RunWorn(cfg, defaults, f0, evs);
  }
}
