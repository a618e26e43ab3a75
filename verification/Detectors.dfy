/** The 1 ms detectors: over-current with a mask after every start or reversal of the motor, and
over/under-voltage with hysteresis and a recovery delay.
*/
module CurrentDetector {

  datatype Dir = Halted | Forward | Backward

  /** Threshold in mA, window and mask in ms; all constant between resets. */
  datatype Config = Config(threshold: real, window: nat, blockMs: nat, invert: bool)

  /** Mask left, ms above the threshold, latched over-current, last direction written to the pins. */
  datatype Sensor = Sensor(block: nat, over: nat, status: bool, dir: Dir)

  datatype Action = Sample(ma: real) | WritePins(fwd: bool, rev: bool)

  function Reset(): (s: Sensor)
  {
    Sensor(0, 0, false, Halted)
  }

  /** The millisecond interrupt; the second component tells whether the event is sent. */
  function Isr(cfg: Config, s: Sensor, ma: real): (r: (Sensor, bool))
  {
    if s.block != 0 then (s.(block := s.block - 1, over := 0, status := false), false)
    else if ma > cfg.threshold then
      var over := if s.over < cfg.window then s.over + 1 else s.over;
      var status := over >= cfg.window || s.status;
      (s.(over := over, status := status), status && !s.status)
    else (s.(over := 0, status := false), false)
  }

  /** The direction a pair of pin levels means: both or none is a stop. */
  function Driven(cfg: Config, fwd: bool, rev: bool): (d: Dir)
  {
    var f, r := if cfg.invert then rev else fwd, if cfg.invert then fwd else rev;
    if f && !r then Forward else if r && !f then Backward else Halted
  }

  /** Writing the pins arms the mask when motion starts or reverses. */
  function Write(cfg: Config, s: Sensor, fwd: bool, rev: bool): (r: Sensor)
  {
    var d := Driven(cfg, fwd, rev);
    s.(dir := d, block := if d != Halted && d != s.dir && cfg.blockMs != 0 then cfg.blockMs else s.block)
  }

  function Step(cfg: Config, s: Sensor, a: Action): (r: (Sensor, bool))
  {
    match a
    case Sample(ma) => Isr(cfg, s, ma)
    case WritePins(fwd, rev) => (Write(cfg, s, fwd, rev), false)
  }

  function After(cfg: Config, s: Sensor, acts: seq<Action>): (r: Sensor)
    decreases |acts|
  {
    if acts == [] then s else Step(cfg, After(cfg, s, acts[..|acts| - 1]), acts[|acts| - 1]).0
  }

  /** How many milliseconds passed. */
  function Millis(acts: seq<Action>): (n: nat)
    decreases |acts|
  {
    if acts == [] then 0 else Millis(acts[..|acts| - 1]) + Millis1(acts[|acts| - 1])
  }

  function Millis1(a: Action): (n: nat)
  {
    if a.Sample? then 1 else 0
  }

  /** Whether the last action sends the over-current event. */
  predicate Alarm(cfg: Config, s: Sensor, acts: seq<Action>)
  {
    acts != [] && Step(cfg, After(cfg, s, acts[..|acts| - 1]), acts[|acts| - 1]).1
  }

  function Max1(n: nat): (r: nat)
  {
    if n == 0 then 1 else n
  }

  /** Motion starts or reverses with this write. */
  predicate Starts(cfg: Config, s: Sensor, fwd: bool, rev: bool)
  {
    Driven(cfg, fwd, rev) != Halted && Driven(cfg, fwd, rev) != s.dir
  }

  // ------------------------------------------------ the earliest alarm

  /** How many milliseconds pass at least until the next over-current event: the rest of the mask
      and a whole window, or a release and a whole window while latched, or the rest of the window. */
  function Earliest(cfg: Config, s: Sensor): (n: nat)
    ensures n > 0
  {
    if s.block > 0 then s.block + Max1(cfg.window)
    else if s.status then 1 + Max1(cfg.window)
    else if s.over < cfg.window then cfg.window - s.over
    else 1
  }

  /** The mask never exceeds its setting; without masking a mask left over just runs out. */
  predicate MaskInRange(cfg: Config, s: Sensor)
  {
    s.block <= cfg.blockMs || cfg.blockMs == 0
  }

  /** One action brings the earliest event nearer by the time it takes, and never more. */
  lemma EarliestStep(cfg: Config, s: Sensor, a: Action)
    requires MaskInRange(cfg, s)
    ensures var (r, sent) := Step(cfg, s, a);
      && MaskInRange(cfg, r)
      && Earliest(cfg, r) + Millis1(a) >= Earliest(cfg, s)
      && (sent ==> a.Sample? && Earliest(cfg, s) == 1)
  {
  }

  lemma {:induction false} EarliestRun(cfg: Config, s: Sensor, acts: seq<Action>)
    requires MaskInRange(cfg, s)
    ensures MaskInRange(cfg, After(cfg, s, acts))
    ensures Earliest(cfg, After(cfg, s, acts)) + Millis(acts) >= Earliest(cfg, s)
    decreases |acts|
  {
    if acts != [] {
      hide Step, Earliest, MaskInRange;
      var before := acts[..|acts| - 1];
      EarliestRun(cfg, s, before);
      EarliestStep(cfg, After(cfg, s, before), acts[|acts| - 1]);
    }
  }

  /** Whatever is measured and whatever the pins are told, no event comes before its time. */
  lemma NotBeforeEarliest(cfg: Config, s: Sensor, acts: seq<Action>)
    requires MaskInRange(cfg, s) && Alarm(cfg, s, acts)
    ensures Millis(acts) >= Earliest(cfg, s)
  {
    hide Step, Earliest, MaskInRange;
    var before := acts[..|acts| - 1];
    EarliestRun(cfg, s, before);
    EarliestStep(cfg, After(cfg, s, before), acts[|acts| - 1]);
  }

  /** A stalled motor: every sample above the threshold. */
  function Stalled(ma: real, n: nat): (acts: seq<Action>)
    ensures |acts| == n && forall i :: 0 <= i < n ==> acts[i] == Sample(ma)
  {
    seq(n, _ => Sample(ma))
  }

  /** Under a stall the earliest event comes a millisecond nearer each millisecond, until it is sent
      and stays latched. */
  lemma {:induction false} StalledState(cfg: Config, s: Sensor, ma: real, n: nat)
    requires ma > cfg.threshold && (s.block > 0 || !s.status)
    ensures Millis(Stalled(ma, n)) == n
    ensures var r := After(cfg, s, Stalled(ma, n));
      && (n < Earliest(cfg, s) ==> (r.block > 0 || !r.status) && Earliest(cfg, r) == Earliest(cfg, s) - n)
      && (n >= Earliest(cfg, s) ==> r.block == 0 && r.status)
    decreases n
  {
    if n > 0 {
      var acts := Stalled(ma, n);
      assert acts[..n - 1] == Stalled(ma, n - 1);
      StalledState(cfg, s, ma, n - 1);
      StalledStep(cfg, After(cfg, s, acts[..n - 1]), ma);
    }
  }

  lemma StalledStep(cfg: Config, s: Sensor, ma: real)
    requires ma > cfg.threshold
    ensures var (r, sent) := Isr(cfg, s, ma);
      if s.block == 0 && s.status then r.block == 0 && r.status && !sent
      else if Earliest(cfg, s) == 1 then r.block == 0 && r.status && sent
      else (r.block > 0 || !r.status) && Earliest(cfg, r) == Earliest(cfg, s) - 1 && !sent
  {
  }

  /** A stalled motor raises the event in exactly the earliest millisecond, from every state in which
      it is not latched already. */
  lemma AlarmIsDue(cfg: Config, s: Sensor, ma: real, n: nat)
    requires ma > cfg.threshold
    ensures Alarm(cfg, s, Stalled(ma, n)) <==> (s.block > 0 || !s.status) && n == Earliest(cfg, s)
  {
    if n > 0 {
      hide Isr, Earliest;
      var acts := Stalled(ma, n);
      assert acts[..n - 1] == Stalled(ma, n - 1);
      if s.block > 0 || !s.status {
        StalledState(cfg, s, ma, n - 1);
      } else {
        LatchStays(cfg, s, ma, n - 1);
      }
      StalledStep(cfg, After(cfg, s, acts[..n - 1]), ma);
    }
  }

  lemma {:induction false} LatchStays(cfg: Config, s: Sensor, ma: real, n: nat)
    requires ma > cfg.threshold && s.block == 0 && s.status
    ensures After(cfg, s, Stalled(ma, n)).block == 0 && After(cfg, s, Stalled(ma, n)).status
    decreases n
  {
    if n > 0 {
      assert Stalled(ma, n)[..n - 1] == Stalled(ma, n - 1);
      LatchStays(cfg, s, ma, n - 1);
    }
  }

  /** One sample that is not above the threshold ends an alarm and the window: a stall after it is
      reported again, after a whole window. */
  lemma LowSampleReleases(cfg: Config, s: Sensor, low: real, ma: real, n: nat)
    requires s.block == 0 && low <= cfg.threshold < ma
    ensures Alarm(cfg, Isr(cfg, s, low).0, Stalled(ma, n)) <==> n == Max1(cfg.window)
  {
    AlarmIsDue(cfg, Isr(cfg, s, low).0, ma, n);
  }

  // ------------------------------------------------ after a start or a reversal

  /** What has to hold before a start for the quiet time promised after it. */
  predicate QuietStart(cfg: Config, s: Sensor)
  {
    cfg.blockMs > 0 || s.block > 0 || s.over == 0 || s.status || cfg.window <= 1
  }

  /** Motion starts or reverses: no over-current event comes in the first
      blockMs + max(1, window) - 1 ms, whatever is measured and whatever the pins are told meanwhile,
      exactly when masking is on, or the window is not running. */
  lemma NoEarlyAlarm(cfg: Config, s: Sensor, fwd: bool, rev: bool)
    requires Starts(cfg, s, fwd, rev)
    ensures (forall acts :: Millis(acts) < cfg.blockMs + Max1(cfg.window)
               ==> !Alarm(cfg, Write(cfg, s, fwd, rev), acts))
      <==> QuietStart(cfg, s)
  {
    var t, ma := Write(cfg, s, fwd, rev), cfg.threshold + 1.0;
    if QuietStart(cfg, s) {
      assert Earliest(cfg, t) >= cfg.blockMs + Max1(cfg.window);
      forall acts | Millis(acts) < cfg.blockMs + Max1(cfg.window)
        ensures !Alarm(cfg, t, acts)
      {
        if Alarm(cfg, t, acts) {
          NotBeforeEarliest(cfg, t, acts);
        }
      }
    } else {
      var n := Earliest(cfg, t);
      AlarmIsDue(cfg, t, ma, n);
      StalledState(cfg, t, ma, n);
      assert n < cfg.blockMs + Max1(cfg.window) && Alarm(cfg, t, Stalled(ma, n));
    }
  }

  /** Masking switched off: two milliseconds of high current before a reversal count towards the
      window of the new direction, and the event comes one millisecond after it. */
  lemma EarlyAlarmWithoutMask()
    ensures var cfg := Config(100.0, 3, 0, false);
      var s := After(cfg, Reset(), [WritePins(true, false), Sample(200.0), Sample(200.0)]);
      && Starts(cfg, s, false, true)
      && Alarm(cfg, Write(cfg, s, false, true), [Sample(200.0)])
      && Millis([Sample(200.0)]) == 1 < cfg.blockMs + Max1(cfg.window)
  {
    var cfg := Config(100.0, 3, 0, false);
    var acts := [WritePins(true, false), Sample(200.0), Sample(200.0)];
    assert acts[..2] == [WritePins(true, false), Sample(200.0)];
    assert acts[..2][..1] == [WritePins(true, false)];
    assert After(cfg, Reset(), acts[..2][..1]) == Sensor(0, 0, false, Forward);
    assert After(cfg, Reset(), acts[..2]) == Sensor(0, 1, false, Forward);
    assert After(cfg, Reset(), acts) == Sensor(0, 2, false, Forward);
    AlarmIsDue(cfg, Sensor(0, 2, false, Backward), 200.0, 1);
    assert Stalled(200.0, 1) == [Sample(200.0)];
  }

  /** Samples above the threshold at the end, whatever was written to the pins in between. */
  function Above(cfg: Config, acts: seq<Action>): (n: nat)
    decreases |acts|
  {
    if acts == [] then 0
    else match acts[|acts| - 1]
      case WritePins(_, _) => Above(cfg, acts[..|acts| - 1])
      case Sample(ma) => if ma > cfg.threshold then Above(cfg, acts[..|acts| - 1]) + 1 else 0
  }

  lemma {:induction false} CountsAbove(cfg: Config, acts: seq<Action>)
    ensures After(cfg, Reset(), acts).over <= Above(cfg, acts)
    decreases |acts|
  {
    if acts != [] {
      CountsAbove(cfg, acts[..|acts| - 1]);
    }
  }

  /** No event without cause: in every run from reset an over-current event follows at least
      max(1, window) consecutive samples above the threshold. */
  lemma AlarmNeedsWindow(cfg: Config, acts: seq<Action>)
    requires Alarm(cfg, Reset(), acts)
    ensures Above(cfg, acts) >= Max1(cfg.window)
  {
    CountsAbove(cfg, acts[..|acts| - 1]);
  }

  /** Exactly one active pin is a direction, and inverting exchanges the two. */
  lemma PinsMeanDirection(cfg: Config, fwd: bool, rev: bool)
    ensures Driven(cfg, fwd, rev) != Halted <==> fwd != rev
    ensures fwd && !rev ==> Driven(cfg, fwd, rev) == if cfg.invert then Backward else Forward
    ensures rev && !fwd ==> Driven(cfg, fwd, rev) == if cfg.invert then Forward else Backward
  {
  }

  /** Only a start or a reversal arms the mask: writing the same direction again changes nothing. */
  lemma SameDirectionNeverRearms(cfg: Config, s: Sensor, fwd: bool, rev: bool)
    ensures Driven(cfg, fwd, rev) == s.dir ==> Write(cfg, s, fwd, rev) == s
    ensures Write(cfg, s, fwd, rev).block != s.block ==>
      Starts(cfg, s, fwd, rev) && Write(cfg, s, fwd, rev).block == cfg.blockMs > 0
  {
  }

  class CurrentSensor {
    const cfg: Config
    var block: nat
    var over: nat
    var status: bool
    var dir: Dir
    ghost var alarms: nat

    ghost function View(): (s: Sensor)
      reads this
    {
      Sensor(block, over, status, dir)
    }

    constructor (cfg: Config)
      ensures this.cfg == cfg && View() == Reset() && alarms == 0
    {
      this.cfg := cfg;
      block, over, status, dir, alarms := 0, 0, false, Halted, 0;
    }

    method Isr1ms(ma: real)
      modifies this
      ensures View() == Isr(cfg, old(View()), ma).0
      ensures alarms == old(alarms) + if Isr(cfg, old(View()), ma).1 then 1 else 0
    {
      if block != 0 {
        block := block - 1;
        over := 0;
        status := false;
        return;
      }
      var prev := status;
      if ma > cfg.threshold {
        if over < cfg.window {
          over := over + 1;
        }
        if over >= cfg.window {
          status := true;
        }
      } else {
        over := 0;
        status := false;
      }
      if status != prev && status {
        alarms := alarms + 1;
      }
    }

    method WritePair(fwd: bool, rev: bool)
      modifies this
      ensures View() == Write(cfg, old(View()), fwd, rev) && alarms == old(alarms)
    {
      var f, r := fwd, rev;
      if cfg.invert {
        f, r := rev, fwd;
      }
      var next := if f && !r then Forward else if r && !f then Backward else Halted;
      if next != Halted && next != dir && cfg.blockMs != 0 {
        block := cfg.blockMs;
      }
      dir := next;
    }
  }
}

module VoltageDetector {

  datatype Fault = NoFault | Under | Over

  datatype Config = Config(overTh: real, underTh: real, hyst: real, recoverMs: nat)

  datatype Detector = Detector(fault: Fault, waiting: bool, count: nat)

  datatype Event = OverEvent | UnderEvent | NormalEvent

  function Reset(): (d: Detector)
  {
    Detector(NoFault, false, 0)
  }

  /** Back inside the band, beyond the hysteresis. */
  predicate Recovered(cfg: Config, f: Fault, volt: real)
  {
    if f == Over then volt < cfg.overTh - cfg.hyst else volt > cfg.underTh + cfg.hyst
  }

  function Isr(cfg: Config, d: Detector, volt: real): (r: Detector)
  {
    if d.fault != NoFault then
      if Recovered(cfg, d.fault, volt) then
        if !d.waiting then d.(waiting := true, count := 0)
        else if d.count + 1 >= cfg.recoverMs then Reset()
        else d.(count := d.count + 1)
      else d.(waiting := false, count := 0)
    else if volt > cfg.overTh then d.(fault := Over)
    else if volt < cfg.underTh then d.(fault := Under)
    else d
  }

  /** What a change of the fault state tells the system. */
  function Events(before: Fault, after: Fault): (e: seq<Event>)
  {
    if before == after then []
    else match after
      case Over => [OverEvent]
      case Under => [UnderEvent]
      case NoFault => [NormalEvent]
  }

  function After(cfg: Config, volts: seq<real>): (d: Detector)
    decreases |volts|
  {
    if volts == [] then Reset() else Isr(cfg, After(cfg, volts[..|volts| - 1]), volts[|volts| - 1])
  }

  /** All fault and recovery events of a sequence of samples. */
  function Log(cfg: Config, volts: seq<real>): (log: seq<Event>)
    decreases |volts|
  {
    if volts == [] then []
    else
      var before := volts[..|volts| - 1];
      Log(cfg, before) + Events(After(cfg, before).fault, After(cfg, volts).fault)
  }

  /** Fault and recovery events alternate, starting with a fault; a fault is pending exactly after an
      odd number of events. */
  lemma {:induction false} EventsAlternate(cfg: Config, volts: seq<real>)
    ensures var log := Log(cfg, volts);
      && (forall i :: 0 <= i < |log| ==> (log[i] == NormalEvent <==> i % 2 == 1))
      && (After(cfg, volts).fault != NoFault <==> |log| % 2 == 1)
    decreases |volts|
  {
    if volts != [] {
      EventsAlternate(cfg, volts[..|volts| - 1]);
    }
  }

  /** Consecutive recovered samples at the end, counted while the same fault lasts. */
  function Streak(cfg: Config, volts: seq<real>): (n: nat)
    decreases |volts|
  {
    if volts == [] then 0
    else
      var before := volts[..|volts| - 1];
      var f := After(cfg, before).fault;
      if f != NoFault && After(cfg, volts).fault == f && Recovered(cfg, f, volts[|volts| - 1])
      then Streak(cfg, before) + 1 else 0
  }

  function Max1(n: nat): (r: nat)
  {
    if n == 0 then 1 else n
  }

  /** The counter is the streak. */
  lemma {:induction false} CounterIsStreak(cfg: Config, volts: seq<real>)
    ensures var d := After(cfg, volts);
      && (d.waiting <==> Streak(cfg, volts) > 0)
      && (d.waiting ==> d.count + 1 == Streak(cfg, volts) && d.count < Max1(cfg.recoverMs))
      && (d.waiting ==> d.fault != NoFault)
    decreases |volts|
  {
    if volts != [] {
      CounterIsStreak(cfg, volts[..|volts| - 1]);
    }
  }

  /** A streak of n means: n samples in a row, all recovered from the fault that is still pending. */
  lemma {:induction false} StreakMeaning(cfg: Config, volts: seq<real>)
    ensures Streak(cfg, volts) <= |volts|
    ensures forall i :: |volts| - Streak(cfg, volts) <= i < |volts| ==>
      After(cfg, volts[..i]).fault == After(cfg, volts).fault && Recovered(cfg, After(cfg, volts).fault, volts[i])
    decreases |volts|
  {
    if Streak(cfg, volts) > 0 {
      var before := volts[..|volts| - 1];
      StreakMeaning(cfg, before);
      forall i | |volts| - Streak(cfg, volts) <= i < |volts|
        ensures After(cfg, volts[..i]).fault == After(cfg, volts).fault
        ensures Recovered(cfg, After(cfg, volts).fault, volts[i])
      {
        if i < |before| {
          assert volts[..i] == before[..i] && volts[i] == before[i];
        } else {
          assert volts[..i] == before;
        }
      }
    }
  }

  /** A recovery is reported exactly at the end of 1 + max(1, recoverMs) consecutive recovered samples
      of a pending fault. */
  lemma NormalExactly(cfg: Config, volts: seq<real>)
    requires volts != []
    ensures var before := volts[..|volts| - 1];
      var f := After(cfg, before).fault;
      && (After(cfg, volts).fault == NoFault && f != NoFault <==>
            f != NoFault && Recovered(cfg, f, volts[|volts| - 1]) && Streak(cfg, before) == Max1(cfg.recoverMs))
      && (f != NoFault && After(cfg, volts).fault != f ==> After(cfg, volts).fault == NoFault)
  {
    CounterIsStreak(cfg, volts[..|volts| - 1]);
  }

  /** What each sample adds to the events, in full: a fault as soon as a limit is crossed while none is
      pending, a recovery after the last of the recovered samples, nothing else. */
  lemma EventsExactly(cfg: Config, volts: seq<real>)
    requires volts != []
    ensures var before, v := volts[..|volts| - 1], volts[|volts| - 1];
      var f := After(cfg, before).fault;
      Log(cfg, volts) == Log(cfg, before) +
        if f == NoFault then (if v > cfg.overTh then [OverEvent] else if v < cfg.underTh then [UnderEvent] else [])
        else if (if f == Over then v < cfg.overTh - cfg.hyst else v > cfg.underTh + cfg.hyst)
                && Streak(cfg, before) == Max1(cfg.recoverMs) then [NormalEvent]
        else []
  {
    NormalExactly(cfg, volts);
  }

  /** The pending fault is that of the last fault event. */
  lemma PendingFault(cfg: Config, volts: seq<real>)
    requires volts != [] && After(cfg, volts[..|volts| - 1]).fault == NoFault
    ensures var v := volts[|volts| - 1];
      After(cfg, volts).fault == if v > cfg.overTh then Over else if v < cfg.underTh then Under else NoFault
  {
  }

  /** So every recovery event has that many recovered samples of the same fault right before it. */
  lemma NormalNeedsRecovery(cfg: Config, volts: seq<real>, i: nat)
    requires volts != []
    requires After(cfg, volts[..|volts| - 1]).fault != NoFault && After(cfg, volts).fault == NoFault
    requires i < 1 + Max1(cfg.recoverMs)
    ensures i < |volts|
    ensures var k, f := |volts| - 1 - i, After(cfg, volts[..|volts| - 1]).fault;
      After(cfg, volts[..k]).fault == f && Recovered(cfg, f, volts[k])
  {
    hide After, Streak, Recovered;
    var before := volts[..|volts| - 1];
    NormalExactly(cfg, volts);
    StreakMeaning(cfg, before);
    if i > 0 {
      var k := |volts| - 1 - i;
      assert volts[..k] == before[..k] && volts[k] == before[k];
    }
  }

  class BusVoltage {
    const cfg: Config
    var fault: Fault
    var waiting: bool
    var count: nat
    ghost var sent: seq<Event>

    ghost function View(): (d: Detector)
      reads this
    {
      Detector(fault, waiting, count)
    }

    constructor (cfg: Config)
      ensures this.cfg == cfg && View() == Reset() && sent == []
    {
      this.cfg := cfg;
      fault, waiting, count, sent := NoFault, false, 0, [];
    }

    method Isr1ms(volt: real)
      modifies this
      ensures View() == Isr(cfg, old(View()), volt)
      ensures sent == old(sent) + Events(old(fault), fault)
    {
      var prev := fault;
      if fault != NoFault {
        var recover := if fault == Over then volt < cfg.overTh - cfg.hyst else volt > cfg.underTh + cfg.hyst;
        if recover {
          if !waiting {
            waiting := true;
            count := 0;
          } else {
            count := count + 1;
            if count >= cfg.recoverMs {
              fault := NoFault;
              waiting := false;
              count := 0;
            }
          }
        } else {
          waiting := false;
          count := 0;
        }
      } else if volt > cfg.overTh {
        fault := Over;
      } else if volt < cfg.underTh {
        fault := Under;
      }
      if fault != prev {
        sent := sent + [if fault == Over then OverEvent else if fault == Under then UnderEvent else NormalEvent];
      }
    }
  }
}
