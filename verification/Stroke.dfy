/** Saving the rod position when the supply fails and restoring it at the next start.

The record store is the one of module RecordStore, with the layout of the stroke record; the
position is the one of module Rod, moved and calibrated by its tick.  The record holds the
position as a 32-bit pattern.
*/
module Stroke {
  import opened Bits
  import opened RecordStore
  import opened RecordInvariant
  import opened RecordSave
  import opened ParamManager
  import opened Rod

  const MAGIC_HEAD: Word := 0x66AA_66AA
  const MAGIC_TAIL: Word := 0xAA66_AA66
  const POSITION: nat := 3
  const WAIT_TICKS: nat := 2

  /** Head, sequence, erase count, position, checksum, tail; sectors 60 down to 51. */
  const CFG: Config := Config(6, MAGIC_HEAD, MAGIC_TAIL, 4, 1, 2, 60, 51)

  const DEFAULTS: Record := [MAGIC_HEAD, 0, 0, 0, 0, MAGIC_TAIL]

  /** How positions are written as words; a position may come back rounded. */
  datatype Codec = Codec(bits: real -> Word, value: Word -> real)
  {
    function Rounded(mm: real): (r: real)
    {
      value(bits(mm))
    }
  }

  /** Record store, position with its calibration flag, and the save request. */
  datatype Device = Device(store: Store, pos: Position, pending: bool, wait: nat)

  /** The position object right after its initialisation, with its mechanical parameters. */
  function Initial(par: Position): (p: Position)
  {
    par.(mm := 0.0, calibrated := false, pending := true, allowed := true,
         zoneMin := false, zoneMax := false, minHit := false, maxHit := false)
  }

  predicate Sound(d: Device)
  {
    Usable(CFG, d.store)
  }

  /** Start-up: load the record, and restore the position unless the record is the default fill. */
  function PowerUp(c: Codec, par: Position, flash: seq<Word>, log: seq<Op>): (d: Device)
    requires InFlash(CFG, flash)
    ensures Sound(d) && |d.store.flash| == |flash|
  {
    var st := Boot(CFG, DEFAULTS, flash, log);
    var defaulted := Newest(CFG, flash).None?;
    if defaulted || st.buf[CFG.seqOff] <= 1 then Device(st, Initial(par), false, 0)
    else Device(st, Initial(par).(mm := c.value(st.buf[POSITION]), calibrated := true), false, 0)
  }

  function Request(d: Device): (r: Device)
  {
    if d.pending then d else d.(pending := true, wait := 0)
  }

  function SaveStroke(c: Codec, d: Device): (r: Device)
    requires Sound(d)
    ensures Sound(r) && |r.store.flash| == |d.store.flash|
  {
    d.(store := Save(CFG, d.store.(buf := d.store.buf[POSITION := c.bits(d.pos.mm)])).store)
  }

  /** Polled every rod tick: wait for the brake, then save a calibrated position. */
  function Poll(c: Codec, d: Device): (r: Device)
    requires Sound(d)
    ensures Sound(r) && |r.store.flash| == |d.store.flash|
  {
    if !d.pending then d
    else if d.wait + 1 < WAIT_TICKS then d.(wait := d.wait + 1)
    else
      var e := d.(pending := false, wait := 0);
      if e.pos.calibrated then SaveStroke(c, e) else e
  }

  datatype Action =
    | Tick(pulses: int, req: CalibReq)  // position step of a rod tick
    | RequestSave                       // under-voltage edge
    | PollSave                          // rod tick
    | Restart(par: Position)

  function Step(c: Codec, d: Device, a: Action): (r: Device)
    requires Sound(d) && InFlash(CFG, d.store.flash)
    ensures Sound(r) && InFlash(CFG, r.store.flash)
  {
    match a
    case Tick(pulses, req) => d.(pos := TickPosition(d.pos, pulses, req))
    case RequestSave => Request(d)
    case PollSave => Poll(c, d)
    case Restart(par) => PowerUp(c, par, d.store.flash, d.store.log)
  }

  /** A run from a flash without any valid stroke record, few enough saves for the sequence number. */
  ghost predicate IsRun(c: Codec, par: Position, f0: seq<Word>, ds: seq<Device>, acts: seq<Action>)
  {
    && InFlash(CFG, f0) && Newest(CFG, f0).None?
    && |ds| == |acts| + 1 && 2 * |acts| + 4 < WORD_LIMIT
    && (forall i :: 0 <= i < |ds| ==> Sound(ds[i]) && InFlash(CFG, ds[i].store.flash))
    && ds[0] == PowerUp(c, par, f0, [])
    && forall i :: 0 <= i < |acts| ==> ds[i + 1] == Step(c, ds[i], acts[i])
  }

  /** A limit is really reached: the tick carries a limit request the position module allows. */
  predicate AtLimit(d: Device, a: Action)
  {
    a.Tick? && a.req != NoReq && Moved(d.pos, a.pulses).allowed
  }

  /** Some limit was really reached before state i. */
  ghost predicate Reached(ds: seq<Device>, acts: seq<Action>, i: nat)
  {
    exists k :: 0 <= k < i && k < |acts| && k < |ds| && AtLimit(ds[k], acts[k])
  }

  /** w is the pattern of what was the calibrated position in some state up to i. */
  ghost predicate WasCalibrated(c: Codec, ds: seq<Device>, i: nat, w: Word)
  {
    exists k :: 0 <= k <= i && k < |ds| && ds[k].pos.calibrated && c.bits(ds[k].pos.mm) == w
  }

  /** Only a limit calibrates, and it puts the position at that limit. */
  lemma OnlyLimitsCalibrate(p: Position, pulses: int, req: CalibReq)
    ensures var q, m := TickPosition(p, pulses, req), Moved(p, pulses);
      && (q.calibrated <==> p.calibrated || (req != NoReq && m.allowed))
      && (req != NoReq && m.allowed ==> q.mm == if req == ReqMin then 0.0 else p.stroke)
      && (!p.calibrated ==> m.allowed)
  {
  }

  /** The store is sound, and a record other than the default fill holds a calibrated position. */
  ghost predicate Inv(c: Codec, ds: seq<Device>, acts: seq<Action>, i: nat, end: nat, done: set<Record>)
    requires i < |ds|
  {
    && Live(CFG, ds[i].store, end, done)
    && 1 <= ds[i].store.buf[CFG.seqOff] <= 2 * i + 1
    && (ds[i].store.buf[CFG.seqOff] > 1 ==> WasCalibrated(c, ds, i, ds[i].store.buf[POSITION]) && Reached(ds, acts, i))
    && (ds[i].pos.calibrated ==> Reached(ds, acts, i))
  }

  lemma Later(c: Codec, ds: seq<Device>, acts: seq<Action>, i: nat, w: Word)
    requires i + 1 < |ds|
    ensures WasCalibrated(c, ds, i, w) ==> WasCalibrated(c, ds, i + 1, w)
    ensures Reached(ds, acts, i) ==> Reached(ds, acts, i + 1)
  {
  }

  lemma Layout()
    ensures CFG.Layout() && Framed(CFG, DEFAULTS)
  {
  }

  lemma StrokeEdited(d: Device, w: Word, end: nat, done: set<Record>)
    requires Live(CFG, d.store, end, done)
    ensures Edited(CFG, d.store.buf, d.store.buf[POSITION := w])
  {
    hide Recorded, ScanSector, Chain;
  }

  /** A save of a calibrated position keeps the store sound and raises the sequence number. */
  lemma SaveSound(c: Codec, d: Device, end: nat, done: set<Record>)
    returns (end': nat, done': set<Record>)
    requires Live(CFG, d.store, end, done) && d.store.buf[CFG.seqOff] + 2 < WORD_LIMIT
    ensures var r := SaveStroke(c, d);
      && Live(CFG, r.store, end', done')
      && d.store.buf[CFG.seqOff] < r.store.buf[CFG.seqOff] <= d.store.buf[CFG.seqOff] + 2
      && r.store.buf[POSITION] == c.bits(d.pos.mm)
      && r == d.(store := r.store)
  {
    hide LiveAt, Recorded, Save;
    StrokeEdited(d, c.bits(d.pos.mm), end, done);
    var rec := d.store.buf[POSITION := c.bits(d.pos.mm)];
    SaveKeepsLive(CFG, d.store, end, done, rec);
    var r := SaveStroke(c, d);
    assert !CFG.IsMeta(POSITION);
    end', done' := r.store.addr, done + {r.store.buf};
  }

  /** A restart loads the record that was last in RAM. */
  lemma RestartSound(c: Codec, par: Position, d: Device, end: nat, done: set<Record>)
    requires Live(CFG, d.store, end, done)
    ensures InFlash(CFG, d.store.flash)
    ensures var r := PowerUp(c, par, d.store.flash, d.store.log);
      && Live(CFG, r.store, end, done) && r.store.buf == d.store.buf
      && (r.pos.calibrated ==> r.store.buf[CFG.seqOff] > 1 && r.pos.mm == c.value(r.store.buf[POSITION]))
      && !r.pending
  {
    hide Live, Newest, Boot;
    Loads(d, end, done);
  }

  /** The start-up scan finds the live record. */
  lemma Loads(d: Device, end: nat, done: set<Record>)
    requires Live(CFG, d.store, end, done)
    ensures InFlash(CFG, d.store.flash) && Newest(CFG, d.store.flash).Some?
    ensures var st := Boot(CFG, DEFAULTS, d.store.flash, d.store.log);
      Live(CFG, st, end, done) && st.buf == d.store.buf
  {
    hide Boot, Newest, ScanSector, Chain, Recorded;
    Layout();
    var st := d.store;
    LiveIsHit(CFG, st.flash, st.sec, end);
    ScanFindsNewest(CFG, st.flash);
    BootKeepsLive(CFG, DEFAULTS, st, end, done);
  }

  // ------------------------------------------------ whole runs

  lemma FirstPowerUp(c: Codec, par: Position, f0: seq<Word>)
    returns (end: nat, done: set<Record>)
    requires InFlash(CFG, f0) && Newest(CFG, f0).None?
    ensures var d := PowerUp(c, par, f0, []);
      Live(CFG, d.store, end, done) && d.store.buf[CFG.seqOff] == 1 && !d.pos.calibrated
  {
    hide Live, Boot, Newest;
    Layout();
    BootEmpty(CFG, DEFAULTS, f0, []);
    var b := Boot(CFG, DEFAULTS, f0, []);
    end, done := b.addr, {b.buf};
  }

  lemma PollStep(c: Codec, ds: seq<Device>, acts: seq<Action>, i: nat, end: nat, done: set<Record>)
    returns (end': nat, done': set<Record>)
    requires i < |acts| && |ds| == |acts| + 1 && acts[i] == PollSave && Inv(c, ds, acts, i, end, done)
    requires Sound(ds[i]) && ds[i + 1] == Poll(c, ds[i]) && 2 * i + 4 < WORD_LIMIT
    ensures Inv(c, ds, acts, i + 1, end', done')
  {
    hide Live, SaveStroke, AtLimit;
    var d := ds[i];
    Later(c, ds, acts, i, d.store.buf[POSITION]);
    end', done' := end, done;
    if d.pending && d.wait + 1 >= WAIT_TICKS && d.pos.calibrated {
      var e := d.(pending := false, wait := 0);
      end', done' := SaveSound(c, e, end, done);
      assert WasCalibrated(c, ds, i + 1, c.bits(d.pos.mm)) by { assert ds[i].pos.calibrated; }
    }
  }

  lemma TickStep(c: Codec, ds: seq<Device>, acts: seq<Action>, i: nat, end: nat, done: set<Record>)
    requires i < |acts| && |ds| == |acts| + 1 && acts[i].Tick? && Inv(c, ds, acts, i, end, done)
    requires Sound(ds[i]) && ds[i + 1] == ds[i].(pos := TickPosition(ds[i].pos, acts[i].pulses, acts[i].req))
    ensures Inv(c, ds, acts, i + 1, end, done)
  {
    hide Live, TickPosition, Moved;
    var d := ds[i];
    Later(c, ds, acts, i, d.store.buf[POSITION]);
    OnlyLimitsCalibrate(d.pos, acts[i].pulses, acts[i].req);
    if AtLimit(d, acts[i]) {
      assert Reached(ds, acts, i + 1);
    }
  }

  lemma StepInv(c: Codec, par: Position, f0: seq<Word>, ds: seq<Device>, acts: seq<Action>, i: nat,
                end: nat, done: set<Record>)
    returns (end': nat, done': set<Record>)
    requires IsRun(c, par, f0, ds, acts) && i < |acts| && Inv(c, ds, acts, i, end, done)
    ensures Inv(c, ds, acts, i + 1, end', done')
  {
    hide Live, Poll, PowerUp, AtLimit, TickPosition, Newest;
    var d, a := ds[i], acts[i];
    assert ds[i + 1] == Step(c, d, a);
    Later(c, ds, acts, i, d.store.buf[POSITION]);
    end', done' := end, done;
    match a
    case Tick(_, _) => TickStep(c, ds, acts, i, end, done);
    case RequestSave =>
    case PollSave => end', done' := PollStep(c, ds, acts, i, end, done);
    case Restart(p) => RestartSound(c, p, d, end, done);
  }

  lemma BaseInv(c: Codec, par: Position, f0: seq<Word>, ds: seq<Device>, acts: seq<Action>)
    returns (end: nat, done: set<Record>)
    requires IsRun(c, par, f0, ds, acts)
    ensures Inv(c, ds, acts, 0, end, done)
  {
    hide Live, PowerUp, Step, Newest;
    end, done := FirstPowerUp(c, par, f0);
  }

  lemma {:induction false} RunInv(c: Codec, par: Position, f0: seq<Word>, ds: seq<Device>, acts: seq<Action>, i: nat)
    returns (end: nat, done: set<Record>)
    requires IsRun(c, par, f0, ds, acts) && |ds| == |acts| + 1 && i <= |acts|
    ensures Inv(c, ds, acts, i, end, done)
  {
    hide Inv, Step, PowerUp, IsRun;
    if i == 0 {
      end, done := BaseInv(c, par, f0, ds, acts);
    } else {
      var e, q := RunInv(c, par, f0, ds, acts, i - 1);
      end, done := StepInv(c, par, f0, ds, acts, i - 1, e, q);
    }
  }

  /** No false calibration: in every run the position counts as calibrated only after the position
      module really took a limit, which put it at zero or at the full stroke, in this or an earlier
      power cycle. */
  lemma CalibratedOnlyByLimit(c: Codec, par: Position, f0: seq<Word>, ds: seq<Device>, acts: seq<Action>, i: nat)
    requires IsRun(c, par, f0, ds, acts) && i <= |acts| && ds[i].pos.calibrated
    ensures exists k :: 0 <= k < i && AtLimit(ds[k], acts[k]) && AtItsLimit(ds[k + 1], acts[k])
  {
    hide Live, PowerUp, AtLimit, TickPosition, Moved, Newest;
    var end, done := RunInv(c, par, f0, ds, acts, i);
    var k :| 0 <= k < i && k < |acts| && k < |ds| && AtLimit(ds[k], acts[k]);
    LimitTaken(c, ds[k], acts[k]);
    assert ds[k + 1] == Step(c, ds[k], acts[k]);
    assert AtItsLimit(ds[k + 1], acts[k]);
  }

  predicate AtItsLimit(d: Device, a: Action)
  {
    a.Tick? && d.pos.calibrated && d.pos.mm == if a.req == ReqMin then 0.0 else d.pos.stroke
  }

  lemma LimitTaken(c: Codec, d: Device, a: Action)
    requires AtLimit(d, a) && Sound(d) && InFlash(CFG, d.store.flash)
    ensures AtItsLimit(Step(c, d, a), a)
  {
  }

  /** A restart restores only what was once the calibrated position, as the record can hold it. */
  lemma RestoredWasCalibrated(c: Codec, par: Position, f0: seq<Word>, ds: seq<Device>, acts: seq<Action>, i: nat)
    requires IsRun(c, par, f0, ds, acts) && i < |acts| && acts[i].Restart? && ds[i + 1].pos.calibrated
    ensures exists k :: 0 <= k <= i && ds[k].pos.calibrated && ds[i + 1].pos.mm == c.Rounded(ds[k].pos.mm)
  {
    hide Live, PowerUp, Newest, AtLimit;
    var end, done := RunInv(c, par, f0, ds, acts, i);
    assert ds[i + 1] == Step(c, ds[i], acts[i]);
    RestartSound(c, acts[i].par, ds[i], end, done);
    var k :| 0 <= k <= i && k < |ds| && ds[k].pos.calibrated && c.bits(ds[k].pos.mm) == ds[i].store.buf[POSITION];
    assert ds[i + 1].pos.mm == c.Rounded(ds[k].pos.mm);
  }

  /** What a completed save wrote is what the next restart restores, calibrated. */
  lemma SavedIsRestored(c: Codec, par: Position, f0: seq<Word>, ds: seq<Device>, acts: seq<Action>, i: nat, next: Position)
    requires IsRun(c, par, f0, ds, acts) && i < |acts| && acts[i] == PollSave
    requires ds[i].pending && ds[i].wait + 1 >= WAIT_TICKS && ds[i].pos.calibrated
    ensures var r := PowerUp(c, next, ds[i + 1].store.flash, ds[i + 1].store.log);
      r.pos.calibrated && r.pos.mm == c.Rounded(ds[i].pos.mm)
  {
    hide Live, SaveStroke, PowerUp, Newest, AtLimit;
    var end, done := RunInv(c, par, f0, ds, acts, i);
    var e := ds[i].(pending := false, wait := 0);
    var end', done' := SaveSound(c, e, end, done);
    assert ds[i + 1] == Step(c, ds[i], acts[i]);
    assert ds[i + 1] == SaveStroke(c, e);
    Restores(c, next, ds[i + 1], end', done');
  }

  /** How often the save was polled from step a up to step b. */
  function Polls(acts: seq<Action>, a: nat, b: nat): (n: nat)
    requires a <= b <= |acts|
    decreases b
  {
    if a == b then 0 else Polls(acts, a, b - 1) + if acts[b - 1] == PollSave then 1 else 0
  }

  /** While the device stays on, a request waits, and counts the polls. */
  lemma {:induction false} RequestWaits(c: Codec, par: Position, f0: seq<Word>, ds: seq<Device>, acts: seq<Action>, i: nat, j: nat)
    requires IsRun(c, par, f0, ds, acts) && i < j <= |acts| && acts[i] == RequestSave && !ds[i].pending
    requires (forall k :: i < k < j ==> !acts[k].Restart?) && Polls(acts, i + 1, j) < WAIT_TICKS
    ensures ds[j].pending && ds[j].wait == Polls(acts, i + 1, j)
    ensures ds[j].store == ds[i].store
    decreases j
  {
    hide SaveStroke, PowerUp, TickPosition, Newest;
    assert ds[j] == Step(c, ds[j - 1], acts[j - 1]);
    if i + 1 < j {
      RequestWaits(c, par, f0, ds, acts, i, j - 1);
    }
  }

  /** A save request is carried out at the second poll after it, and not before: the position of that
      moment, if it is calibrated, is what the next start restores; otherwise nothing is written. */
  lemma RequestedIsSaved(c: Codec, par: Position, f0: seq<Word>, ds: seq<Device>, acts: seq<Action>, i: nat, j: nat, next: Position)
    requires IsRun(c, par, f0, ds, acts) && i < j < |acts| && acts[i] == RequestSave && !ds[i].pending
    requires (forall k :: i < k < j ==> !acts[k].Restart?) && acts[j] == PollSave && Polls(acts, i + 1, j) == 1
    ensures ds[j].store == ds[i].store && !ds[j + 1].pending
    ensures ds[j].pos.calibrated ==>
      var r := PowerUp(c, next, ds[j + 1].store.flash, ds[j + 1].store.log);
      r.pos.calibrated && r.pos.mm == c.Rounded(ds[j].pos.mm)
    ensures !ds[j].pos.calibrated ==> ds[j + 1].store == ds[i].store
  {
    hide SaveStroke, PowerUp, Newest, Live;
    RequestWaits(c, par, f0, ds, acts, i, j);
    assert ds[j + 1] == Step(c, ds[j], acts[j]);
    if ds[j].pos.calibrated {
      SavedIsRestored(c, par, f0, ds, acts, j, next);
      SaveKeepsRequest(c, ds[j].(pending := false, wait := 0));
    }
  }

  lemma SaveKeepsRequest(c: Codec, d: Device)
    requires Sound(d)
    ensures SaveStroke(c, d).pending == d.pending
  {
    hide Save;
  }

  lemma Restores(c: Codec, par: Position, d: Device, end: nat, done: set<Record>)
    requires Live(CFG, d.store, end, done) && d.store.buf[CFG.seqOff] > 1
    ensures InFlash(CFG, d.store.flash)
    ensures var r := PowerUp(c, par, d.store.flash, d.store.log);
      r.pos.calibrated && r.pos.mm == c.value(d.store.buf[POSITION])
  {
    hide Live, Newest, Boot;
    Loads(d, end, done);
  }

  // ------------------------------------------------ the stroke block as the firmware runs it

  class StrokeBlock {
    const codec: Codec
    const store: ParamStore
    var pos: Position
    var pending: bool
    var wait: nat

    ghost predicate Valid()
      reads this, store
    {
      store.cfg == CFG && store.Valid()
    }

    ghost function View(): (d: Device)
      requires Valid()
      reads this, store, store.flash, store.buf
    {
      Device(store.Abs(), pos, pending, wait)
    }

    constructor (codec: Codec, store: ParamStore, par: Position)
      requires store.cfg == CFG && store.Valid()
      ensures this.codec == codec && this.store == store && Valid() && pos == Initial(par) && !pending
    {
      this.codec, this.store := codec, store;
      pos, pending, wait := Initial(par), false, 0;
    }

    /** Scan, load, and take the loaded position over unless it is the default fill. */
    method InitAndApply(par: Position)
      requires Valid()
      modifies this, store`currSec, store`currAddr, store`log, store.flash, store.buf
      ensures Valid() && View() == PowerUp(codec, par, old(store.flash[..]), old(store.log))
    {
      hide Boot, Newest;
      pos, pending, wait := Initial(par), false, 0;
      var _, defaulted := store.InitStore(DEFAULTS);
      if defaulted {
        return;
      }
      if store.buf[CFG.seqOff] <= 1 {
        return;
      }
      pos := pos.(mm := codec.value(store.buf[POSITION]), calibrated := true);
    }

    method SaveRequest()
      requires Valid()
      modifies this
      ensures Valid() && View() == Request(old(View()))
    {
      if !pending {
        pending := true;
        wait := 0;
      }
    }

    method RodSave()
      requires Valid() && Sound(View())
      modifies store`currSec, store`currAddr, store`log, store.flash, store.buf
      ensures Valid() && View() == SaveStroke(codec, old(View()))
    {
      hide Save;
      ghost var rec := store.buf[..][POSITION := codec.bits(pos.mm)];
      store.buf[POSITION] := codec.bits(pos.mm);
      assert store.buf[..] == rec && store.flash[..] == old(store.flash[..]);
      var _ := store.SaveRecord();
    }

    method PollSave()
      requires Valid() && Sound(View())
      modifies this, store`currSec, store`currAddr, store`log, store.flash, store.buf
      ensures Valid() && View() == Poll(codec, old(View()))
    {
      hide SaveStroke;
      if !pending {
        return;
      }
      wait := wait + 1;
      if wait < WAIT_TICKS {
        return;
      }
      pending := false;
      wait := 0;
      if !pos.calibrated {
        return;
      }
      RodSave();
    }
  }
}
