/** Whole histories of saves and reboots: round trip, power cuts and wear levelling. */
module RecordRuns {
  import opened Bits
  import opened RecordStore
  import opened RecordInvariant
  import opened RecordSave

  /** A step of a history: the application saves some payload, or the device restarts. */
  datatype Event = SaveEvent(payload: Record) | RebootEvent

  /** The caller writes payload words only; the engine's own words stay. */
  function Edit(cfg: Config, buf: Record, payload: Record): (r: Record)
    requires |buf| == cfg.size && |payload| == cfg.size
    ensures |r| == cfg.size
    ensures forall i :: 0 <= i < cfg.size ==> r[i] == if cfg.IsMeta(i) then buf[i] else payload[i]
  {
    seq(cfg.size, i requires 0 <= i < cfg.size => if cfg.IsMeta(i) then buf[i] else payload[i])
  }

  /** A configured instance whose region holds no valid record yet. */
  ghost predicate Setup(cfg: Config, defaults: Record, f0: seq<Word>)
  {
    cfg.Layout() && InFlash(cfg, f0) && Framed(cfg, defaults) && Newest(cfg, f0).None?
  }

  ghost predicate History(cfg: Config, evs: seq<Event>)
  {
    && 2 * |evs| + 4 < WORD_LIMIT
    && forall i :: 0 <= i < |evs| ==> evs[i].SaveEvent? ==> |evs[i].payload| == cfg.size
  }

  function Step(cfg: Config, defaults: Record, st: Store, e: Event): (r: Store)
    requires Usable(cfg, st) && |defaults| == cfg.size
    requires e.SaveEvent? ==> |e.payload| == cfg.size
    ensures Usable(cfg, r)
  {
    match e
    case SaveEvent(payload) => Save(cfg, st.(buf := Edit(cfg, st.buf, payload))).store
    case RebootEvent => Boot(cfg, defaults, st.flash, st.log)
  }

  /** The state after first power-up and the given events. */
  ghost function After(cfg: Config, defaults: Record, f0: seq<Word>, evs: seq<Event>): (st: Store)
    requires Setup(cfg, defaults, f0) && History(cfg, evs)
    ensures Usable(cfg, st)
    decreases |evs|
  {
    if evs == [] then Boot(cfg, defaults, f0, [])
    else Step(cfg, defaults, After(cfg, defaults, f0, evs[..|evs| - 1]), evs[|evs| - 1])
  }

  /** All records completed so far. */
  ghost function Completed(cfg: Config, defaults: Record, f0: seq<Word>, evs: seq<Event>): (done: set<Record>)
    requires Setup(cfg, defaults, f0) && History(cfg, evs)
    decreases |evs|
  {
    {After(cfg, defaults, f0, evs).buf}
    + if evs == [] then {} else Completed(cfg, defaults, f0, evs[..|evs| - 1])
  }

  /** The payload last saved: that of the last save event, the defaults before the first. */
  ghost function LastPayload(defaults: Record, evs: seq<Event>): (r: Record)
    decreases |evs|
  {
    if evs == [] then defaults
    else match evs[|evs| - 1]
      case SaveEvent(payload) => payload
      case RebootEvent => LastPayload(defaults, evs[..|evs| - 1])
  }

  /** The device restarted and nothing was saved since: the write position is the live record. */
  predicate JustBooted(evs: seq<Event>)
  {
    evs != [] && evs[|evs| - 1].RebootEvent?
  }

  // ------------------------------------------------ the invariant of every run

  lemma EditEdited(cfg: Config, st: Store, end: nat, done: set<Record>, payload: Record)
    requires Live(cfg, st, end, done) && |payload| == cfg.size
    ensures Edited(cfg, st.buf, Edit(cfg, st.buf, payload))
  {
  }

  lemma DefaultPayload(cfg: Config, defaults: Record)
    requires cfg.Layout() && |defaults| == cfg.size
    ensures forall i :: 0 <= i < cfg.size && !cfg.IsMeta(i) ==> DefaultRecord(cfg, defaults)[i] == defaults[i]
  {
  }

  lemma StepInvariant(cfg: Config, defaults: Record, st: Store, end: nat, done: set<Record>, e: Event)
    returns (end': nat)
    requires Live(cfg, st, end, done) && |defaults| == cfg.size && st.buf in done
    requires e.SaveEvent? ==> |e.payload| == cfg.size
    requires st.buf[cfg.seqOff] + 2 < WORD_LIMIT
    ensures var r := Step(cfg, defaults, st, e);
      && Live(cfg, r, end', {r.buf} + done)
      && end' == r.addr + (if e.RebootEvent? then cfg.size else 0)
      && r.buf[cfg.seqOff] <= st.buf[cfg.seqOff] + 2
      && (e.RebootEvent? ==> r.buf == st.buf)
      && (e.SaveEvent? ==> Save(cfg, st.(buf := Edit(cfg, st.buf, e.payload))).ok)
      && (e.SaveEvent? ==>
            forall i :: 0 <= i < cfg.size && !cfg.IsMeta(i) ==> r.buf[i] == e.payload[i])
  {
    hide LiveAt, Recorded, Save, Boot, IsHit;
    match e
    case SaveEvent(payload) =>
      EditEdited(cfg, st, end, done, payload);
      SaveKeepsLive(cfg, st, end, done, Edit(cfg, st.buf, payload));
      var r := Step(cfg, defaults, st, e);
      assert done + {r.buf} == {r.buf} + done;
      end' := r.addr;
    case RebootEvent =>
      BootKeepsLive(cfg, defaults, st, end, done);
      assert {st.buf} + done == done;
      end' := end;
  }

  /** Every run keeps the invariant; every save in it succeeded. */
  lemma {:induction false} RunInvariant(cfg: Config, defaults: Record, f0: seq<Word>, evs: seq<Event>)
    returns (end: nat)
    requires Setup(cfg, defaults, f0) && History(cfg, evs)
    ensures var st := After(cfg, defaults, f0, evs);
      && Live(cfg, st, end, Completed(cfg, defaults, f0, evs))
      && end == st.addr + (if JustBooted(evs) then cfg.size else 0)
      && st.buf[cfg.seqOff] <= 2 * |evs| + 1
      && forall i :: 0 <= i < cfg.size && !cfg.IsMeta(i) && |LastPayload(defaults, evs)| == cfg.size
           ==> st.buf[i] == LastPayload(defaults, evs)[i]
    decreases |evs|
  {
    hide Live, Step, Boot, Newest;
    if evs == [] {
      BootEmpty(cfg, defaults, f0, []);
      DefaultPayload(cfg, defaults);
      end := After(cfg, defaults, f0, evs).addr;
      assert Completed(cfg, defaults, f0, []) == {After(cfg, defaults, f0, []).buf};
    } else {
      var before := evs[..|evs| - 1];
      var prev := RunInvariant(cfg, defaults, f0, before);
      var st := After(cfg, defaults, f0, before);
      end := StepInvariant(cfg, defaults, st, prev, Completed(cfg, defaults, f0, before), evs[|evs| - 1]);
    }
  }

  lemma {:induction false} LastPayloadSize(cfg: Config, defaults: Record, evs: seq<Event>)
    requires History(cfg, evs) && |defaults| == cfg.size
    ensures |LastPayload(defaults, evs)| == cfg.size
    decreases |evs|
  {
    if evs != [] {
      LastPayloadSize(cfg, defaults, evs[..|evs| - 1]);
    }
  }

  /** Round trip: whatever was saved and however often the device restarted, booting now loads
      exactly the record of the last successful save, with the payload it was given. */
  lemma RoundTrip(cfg: Config, defaults: Record, f0: seq<Word>, evs: seq<Event>)
    requires Setup(cfg, defaults, f0) && History(cfg, evs)
    ensures var st := After(cfg, defaults, f0, evs);
      && Boot(cfg, defaults, st.flash, st.log).buf == st.buf
      && Boot(cfg, defaults, st.flash, st.log).flash == st.flash
      && |LastPayload(defaults, evs)| == cfg.size
      && forall i :: 0 <= i < cfg.size && !cfg.IsMeta(i) ==> st.buf[i] == LastPayload(defaults, evs)[i]
  {
    hide LiveAt, Recorded, IsHit, Boot, Newest;
    var end := RunInvariant(cfg, defaults, f0, evs);
    LastPayloadSize(cfg, defaults, evs);
    BootKeepsLive(cfg, defaults, After(cfg, defaults, f0, evs), end, Completed(cfg, defaults, f0, evs));
  }

  /** Every save in every run reports success. */
  lemma SavesSucceed(cfg: Config, defaults: Record, f0: seq<Word>, evs: seq<Event>, payload: Record)
    requires Setup(cfg, defaults, f0) && History(cfg, evs) && |payload| == cfg.size
    ensures var st := After(cfg, defaults, f0, evs);
      Save(cfg, st.(buf := Edit(cfg, st.buf, payload))).ok
  {
    hide LiveAt, Recorded, IsHit, Save, Newest;
    var end := RunInvariant(cfg, defaults, f0, evs);
    var st := After(cfg, defaults, f0, evs);
    EditEdited(cfg, st, end, Completed(cfg, defaults, f0, evs), payload);
    SaveKeepsLive(cfg, st, end, Completed(cfg, defaults, f0, evs), Edit(cfg, st.buf, payload));
  }

  // ------------------------------------------------ power cuts

  /** The flash when power fails after the first k operations. */
  function CutFlash(f: seq<Word>, ops: seq<Op>, k: nat): (g: seq<Word>)
    requires k <= |ops|
    ensures |g| == |f|
  {
    Apply(f, ops[..k])
  }

  lemma CutSplit(f: seq<Word>, a: seq<Op>, b: seq<Op>, k: nat)
    requires k <= |a| + |b|
    ensures k <= |a| ==> CutFlash(f, a + b, k) == CutFlash(f, a, k)
    ensures k > |a| ==> CutFlash(f, a + b, k) == CutFlash(Apply(f, a), b, k - |a|)
  {
    if k <= |a| {
      assert (a + b)[..k] == a[..k];
    } else {
      assert (a + b)[..k] == a + b[..k - |a|];
      ApplyConcat(f, a, b[..k - |a|]);
    }
  }

  lemma CutNone(f: seq<Word>, ops: seq<Op>)
    ensures CutFlash(f, ops, 0) == f
  {
    assert ops[..0] == [];
  }

  lemma CutAll(f: seq<Word>, ops: seq<Op>)
    ensures CutFlash(f, ops, |ops|) == Apply(f, ops)
  {
    assert ops[..|ops|] == ops;
  }

  /** The operations of an append out of a ready state. */
  function AppendOps(cfg: Config, st: Store): (ops: seq<Op>)
    requires Usable(cfg, st)
  {
    var room := MakeRoom(cfg, st);
    (if room == st then [] else [EraseOp(room.sec)]) + Programs(room.addr, Stamp(cfg, room.buf))
  }

  lemma AppendOpsLogged(cfg: Config, st: Store, done: set<Record>)
    requires Ready(cfg, st, done)
    ensures Appended(cfg, MakeRoom(cfg, st)).log == st.log + AppendOps(cfg, st)
  {
    hide MakeRoom, Ready, Programs, Place, Stamp;
    RoomReady(cfg, st, done);
  }

  /** A cut append leaves the old flash, the roomy flash, or the roomy flash with part of the record. */
  lemma CutAppend(cfg: Config, st: Store, done: set<Record>, k: nat)
    requires Ready(cfg, st, done) && k <= |AppendOps(cfg, st)|
    ensures var room := MakeRoom(cfg, st);
      var g := CutFlash(st.flash, AppendOps(cfg, st), k);
      var erases := if room == st then 0 else 1;
      && (k < erases ==> g == st.flash)
      && (k >= erases ==>
            && k - erases <= cfg.size
            && g == Place(room.flash, room.addr, Stamp(cfg, room.buf), k - erases))
  {
    hide Stamp, Recorded, Chain;
    RoomReady(cfg, st, done);
    var room := MakeRoom(cfg, st);
    var rec := Stamp(cfg, room.buf);
    var ops := Programs(room.addr, rec);
    if room == st {
      assert AppendOps(cfg, st) == ops;
      ReplayPrograms(room.flash, room.addr, rec, k);
    } else {
      var e := [EraseOp(room.sec)];
      CutSplit(st.flash, e, ops, k);
      if k == 0 {
        CutNone(st.flash, e);
      } else {
        ReplayPrograms(room.flash, room.addr, rec, k - 1);
        EraseReplay(st.flash, room.sec);
        if k == 1 {
          CutAll(st.flash, e);
        }
      }
    }
  }

  lemma EraseReplay(f: seq<Word>, s: nat)
    requires SectorBase(s + 1) <= |f|
    ensures Apply(f, [EraseOp(s)]) == Erase(f, s)
  {
    assert Apply(f, [EraseOp(s)]) == Apply(ApplyOp(f, EraseOp(s)), [EraseOp(s)][1..]);
  }

  /** Whatever a scan finds after a cut append is the new record or an older completed one. */
  lemma CutAppendHit(cfg: Config, st: Store, done: set<Record>, k: nat, t: nat, h: nat)
    requires Ready(cfg, st, done) && k <= |AppendOps(cfg, st)|
    requires IsHit(cfg, CutFlash(st.flash, AppendOps(cfg, st), k), t, h)
    ensures RecordAt(cfg, CutFlash(st.flash, AppendOps(cfg, st), k), h)
              in done + {Appended(cfg, MakeRoom(cfg, st)).buf}
  {
    hide MakeRoom, AppendOps, CutFlash, Chain, ScanSector, Programs;
    CutAppend(cfg, st, done, k);
    RoomReady(cfg, st, done);
    var room := MakeRoom(cfg, st);
    var erases := if room == st then 0 else 1;
    if k >= erases {
      var rec := Stamp(cfg, room.buf);
      StampValid(cfg, room.buf);
      PlacedHit(cfg, room.flash, room.sec, room.addr, rec, k - erases, t, h);
    }
  }

  /** The two operations of the failed attempt that follows a boot. */
  function ClashOps(cfg: Config, st: Store): (ops: seq<Op>)
    requires Usable(cfg, st)
    ensures |ops| == 2
  {
    var rec := Stamp(cfg, st.buf);
    [ProgramOp(st.addr, rec[0]), ProgramOp(st.addr + 1, rec[1])]
  }

  lemma ApplyOne(f: seq<Word>, op: Op)
    ensures Apply(f, [op]) == ApplyOp(f, op)
  {
    hide ApplyOp;
    assert [op][1..] == [];
    assert Apply(f, [op]) == Apply(ApplyOp(f, op), []);
  }

  lemma ApplyTwo(f: seq<Word>, a: Op, b: Op)
    ensures Apply(f, [a, b]) == ApplyOp(ApplyOp(f, a), b)
  {
    hide ApplyOp;
    assert [a, b][1..] == [b];
    assert Apply(f, [a, b]) == Apply(ApplyOp(f, a), [b]);
    ApplyOne(ApplyOp(f, a), b);
  }

  /** Programming what is there already changes nothing. */
  lemma SameWord(f: seq<Word>, a: nat)
    requires a < |f|
    ensures ApplyOp(f, ProgramOp(a, f[a])) == f
  {
    AndSelf(f[a]);
  }

  lemma CutClash(cfg: Config, st: Store, k: nat)
    requires Usable(cfg, st) && Framed(cfg, st.buf) && k <= 2
    requires st.addr + cfg.size <= |st.flash| && st.flash[st.addr] == cfg.magicHead
    ensures CutFlash(st.flash, ClashOps(cfg, st), k)
         == if k < 2 then st.flash else AfterClash(cfg, st).flash
  {
    hide And, Stamp, Apply, ApplyOp;
    var ops, rec := ClashOps(cfg, st), Stamp(cfg, st.buf);
    StampHead(cfg, st.buf);
    SameWord(st.flash, st.addr);
    if k == 0 {
      CutNone(st.flash, ops);
    } else if k == 1 {
      assert ops[..1] == [ops[0]];
      ApplyOne(st.flash, ops[0]);
    } else {
      assert ops[..2] == [ops[0], ops[1]];
      ApplyTwo(st.flash, ops[0], ops[1]);
      ClashFlash(cfg, st);
    }
  }

  lemma StampHead(cfg: Config, rec: Record)
    requires cfg.Layout() && |rec| == cfg.size
    ensures Stamp(cfg, rec)[0] == rec[0]
  {
  }

  lemma ClashFlash(cfg: Config, st: Store)
    requires Usable(cfg, st) && st.addr + cfg.size <= |st.flash|
    ensures ApplyOp(st.flash, ProgramOp(st.addr + 1, Stamp(cfg, st.buf)[1])) == AfterClash(cfg, st).flash
  {
    hide And, Stamp;
  }

  /** The operations of a whole save in the invariant state. */
  function SaveOps(cfg: Config, st: Store, clash: bool): (ops: seq<Op>)
    requires Usable(cfg, st) && (clash ==> st.addr + cfg.size <= |st.flash|)
  {
    (if clash then ClashOps(cfg, st) else []) + AppendOps(cfg, Start(cfg, st, clash))
  }

  lemma SaveOpsLogged(cfg: Config, st: Store, end: nat, done: set<Record>, rec: Record)
    requires Live(cfg, st, end, done) && Edited(cfg, st.buf, rec) && st.buf[cfg.seqOff] + 2 < WORD_LIMIT
    ensures end <= |st.flash|
    ensures Save(cfg, st.(buf := rec)).store.log == st.log + SaveOps(cfg, st.(buf := rec), st.addr != end)
  {
    hide LiveAt, Recorded, SaveFrom, MakeRoom, Open, AppendOps, Stamp;
    LiveFits(cfg, st, end, done);
    StartReady(cfg, st, end, done, rec);
    var s := Start(cfg, st.(buf := rec), st.addr != end);
    AppendResult(cfg, s, done, if st.addr == end then 0 else 1);
    AppendOpsLogged(cfg, s, done);
    assert s.log == st.log + if st.addr != end then ClashOps(cfg, st.(buf := rec)) else [];
  }

  /** Cutting a save: before the clash is complete nothing changed, afterwards the append is cut. */
  lemma CutSave(cfg: Config, st: Store, end: nat, done: set<Record>, rec: Record, k: nat)
    requires Live(cfg, st, end, done) && Edited(cfg, st.buf, rec) && st.buf[cfg.seqOff] + 2 < WORD_LIMIT
    requires end <= |st.flash| && k <= |SaveOps(cfg, st.(buf := rec), st.addr != end)|
    ensures var clash := st.addr != end;
      var s := Start(cfg, st.(buf := rec), clash);
      var skip := if clash then 2 else 0;
      var g := CutFlash(st.flash, SaveOps(cfg, st.(buf := rec), clash), k);
      && Usable(cfg, s)
      && (k < skip ==> g == st.flash)
      && (k >= skip ==> k - skip <= |AppendOps(cfg, s)| && g == CutFlash(s.flash, AppendOps(cfg, s), k - skip))
  {
    hide Live, Ready, AppendOps, CutFlash, AfterClash, ClashOps, Save, SaveFrom, Stamp, Apply;
    LiveHead(cfg, st, end, done);
    StartReady(cfg, st, end, done, rec);
    var clash := st.addr != end;
    var e := st.(buf := rec);
    var s := Start(cfg, e, clash);
    ReadyUsable(cfg, s, done);
    if clash {
      ClashThenAppend(cfg, e, k);
    } else {
      assert [] + AppendOps(cfg, s) == AppendOps(cfg, s);
    }
  }

  lemma ReadyUsable(cfg: Config, s: Store, done: set<Record>)
    requires Ready(cfg, s, done)
    ensures Usable(cfg, s)
  {
  }

  /** After a boot the write position stands on a slot with the head magic. */
  lemma LiveHead(cfg: Config, st: Store, end: nat, done: set<Record>)
    requires Live(cfg, st, end, done)
    ensures Usable(cfg, st)
    ensures st.addr != end ==> st.addr + cfg.size <= |st.flash| && st.flash[st.addr] == cfg.magicHead
  {
    hide Recorded, Chain, Blank, ScanSector;
    if st.addr != end {
      assert st.flash[st.addr] == RecordAt(cfg, st.flash, end - cfg.size)[0];
    }
  }

  lemma ClashThenAppend(cfg: Config, e: Store, k: nat)
    requires Usable(cfg, e) && Framed(cfg, e.buf)
    requires e.addr + cfg.size <= |e.flash| && e.flash[e.addr] == cfg.magicHead
    requires k <= 2 + |AppendOps(cfg, AfterClash(cfg, e))|
    ensures var s := AfterClash(cfg, e);
      var g := CutFlash(e.flash, ClashOps(cfg, e) + AppendOps(cfg, s), k);
      && (k < 2 ==> g == e.flash)
      && (k >= 2 ==> g == CutFlash(s.flash, AppendOps(cfg, s), k - 2))
  {
    hide AppendOps, CutFlash, ClashOps, Apply, Spoil, Stamp, And;
    var s := AfterClash(cfg, e);
    CutSplit(e.flash, ClashOps(cfg, e), AppendOps(cfg, s), k);
    CutClash(cfg, e, if k < 2 then k else 2);
    CutAll(e.flash, ClashOps(cfg, e));
    CutNone(s.flash, AppendOps(cfg, s));
  }

  lemma CutSaveHit(cfg: Config, st: Store, end: nat, done: set<Record>, rec: Record, k: nat, t: nat, h: nat)
    requires Live(cfg, st, end, done) && Edited(cfg, st.buf, rec) && st.buf[cfg.seqOff] + 2 < WORD_LIMIT
    requires end <= |st.flash| && k <= |SaveOps(cfg, st.(buf := rec), st.addr != end)|
    requires IsHit(cfg, CutFlash(st.flash, SaveOps(cfg, st.(buf := rec), st.addr != end), k), t, h)
    ensures RecordAt(cfg, CutFlash(st.flash, SaveOps(cfg, st.(buf := rec), st.addr != end), k), h)
              in done + {Save(cfg, st.(buf := rec)).store.buf}
  {
    hide LiveAt, Open, MakeRoom, AppendOps, SaveOps, Appended, Stamp, CutFlash, SaveFrom, AfterClash, ScanSector;
    CutSave(cfg, st, end, done, rec, k);
    StartReady(cfg, st, end, done, rec);
    var clash := st.addr != end;
    var s := Start(cfg, st.(buf := rec), clash);
    var skip := if clash then 2 else 0;
    AppendResult(cfg, s, done, if clash then 1 else 0);
    if k >= skip {
      CutAppendHit(cfg, s, done, k - skip, t, h);
    }
  }

  /** Power-cut atomicity: cut one save of any run after any number of flash operations.  The next
      boot loads the record being saved, or one an earlier save completed, or the defaults. */
  lemma PowerCut(cfg: Config, defaults: Record, f0: seq<Word>, evs: seq<Event>, payload: Record, k: nat)
    requires Setup(cfg, defaults, f0) && History(cfg, evs) && |payload| == cfg.size
    requires var st := After(cfg, defaults, f0, evs);
      k <= |Save(cfg, st.(buf := Edit(cfg, st.buf, payload))).store.log| - |st.log|
    ensures var st := After(cfg, defaults, f0, evs);
      var r := Save(cfg, st.(buf := Edit(cfg, st.buf, payload)));
      var ops := r.store.log[|st.log|..];
      var loaded := Boot(cfg, defaults, CutFlash(st.flash, ops, k), []).buf;
      && Apply(st.flash, ops) == r.store.flash
      && if Newest(cfg, CutFlash(st.flash, ops, k)).Some?
         then loaded in Completed(cfg, defaults, f0, evs) + {r.store.buf}
         else loaded == DefaultRecord(cfg, defaults)
  {
    hide LiveAt, Recorded, SaveFrom, CutFlash, Newest, ScanSector;
    var end := RunInvariant(cfg, defaults, f0, evs);
    var st := After(cfg, defaults, f0, evs);
    var done := Completed(cfg, defaults, f0, evs);
    var rec := Edit(cfg, st.buf, payload);
    EditEdited(cfg, st, end, done, payload);
    SaveLogged(cfg, st.(buf := rec), 0);
    SaveOpsLogged(cfg, st, end, done, rec);
    var ops := SaveOps(cfg, st.(buf := rec), st.addr != end);
    assert Save(cfg, st.(buf := rec)).store.log[|st.log|..] == ops;
    CutLoads(cfg, defaults, st, end, done, rec, k);
  }

  lemma CutLoads(cfg: Config, defaults: Record, st: Store, end: nat, done: set<Record>, rec: Record, k: nat)
    requires Live(cfg, st, end, done) && Edited(cfg, st.buf, rec) && st.buf[cfg.seqOff] + 2 < WORD_LIMIT
    requires Framed(cfg, defaults)
    requires end <= |st.flash| && k <= |SaveOps(cfg, st.(buf := rec), st.addr != end)|
    ensures var g := CutFlash(st.flash, SaveOps(cfg, st.(buf := rec), st.addr != end), k);
      var loaded := Boot(cfg, defaults, g, []).buf;
      if Newest(cfg, g).Some? then loaded in done + {Save(cfg, st.(buf := rec)).store.buf}
      else loaded == DefaultRecord(cfg, defaults)
  {
    hide LiveAt, Recorded, SaveFrom, CutFlash, SaveOps, ScanSector, Newest, DefaultRecord;
    var g := CutFlash(st.flash, SaveOps(cfg, st.(buf := rec), st.addr != end), k);
    ScanFindsNewest(cfg, g);
    if Newest(cfg, g).Some? {
      var t: nat :| IsHit(cfg, g, t, Newest(cfg, g).value);
      CutSaveHit(cfg, st, end, done, rec, k, t, Newest(cfg, g).value);
    } else {
      BootEmpty(cfg, defaults, g, []);
    }
  }
}
