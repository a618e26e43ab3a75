/** The H-bridge ramp: two duty cycles that approach their targets step by step, polarity
switched only at the balanced 50/50 point.
*/
module Pwm {

  const RUN_DUTY: nat := 20
  const STEP_RUN: nat := 2
  const STEP_STOP: nat := 10
  const DUTY_MIN: nat := 2
  const DUTY_MAX: nat := 98
  const NOT_APPLIED: nat := 0xFF

  datatype Dir = StopDir | FwdDir | RevDir

  datatype Mode = Stopped | Ramping | Running

  datatype Polarity = RunPol | StopPol

  /** A write of the polarity register, with the duty both compare registers held at that moment. */
  datatype PolarityWrite = PolarityWrite(pol: Polarity, u: nat, v: nat)

  /** Command, ramp state, what was written last, the registers and the polarity writes so far. */
  datatype Motor = Motor(
    dir: Dir, duty: nat, mode: Mode, runDir: Dir,
    u: nat, v: nat, uApplied: nat, vApplied: nat,
    uReg: nat, vReg: nat, polarity: Polarity, writes: seq<PolarityWrite>)

  function Abs(x: int): (r: nat)
  {
    if x < 0 then -x else x
  }

  /** The distance left after a step. */
  function Less(a: nat, b: nat): (r: nat)
  {
    if a < b then 0 else a - b
  }

  /** One step of an 8-bit duty: the distance to the target shrinks by the step, the side stays. */
  function RampStep(cur: nat, tgt: nat, step: nat): (r: nat)
    ensures Abs(r - tgt) == Less(Abs(cur - tgt), step)
    ensures cur <= r <= tgt || tgt <= r <= cur
  {
    if cur < tgt then (if cur + step > tgt then tgt else cur + step)
    else if cur > tgt then (if cur > tgt + step then cur - step else tgt)
    else cur
  }

  /** The effective duty: the default for zero, clamped. */
  function Effective(duty: nat): (e: nat)
    ensures DUTY_MIN <= e <= DUTY_MAX
  {
    var e := if duty == 0 then RUN_DUTY else duty;
    if e < DUTY_MIN then DUTY_MIN else if e > DUTY_MAX then DUTY_MAX else e
  }

  function TargetU(dir: Dir, duty: nat): (t: nat)
    ensures DUTY_MIN <= t <= DUTY_MAX
  {
    match dir
    case StopDir => 50
    case FwdDir => 100 - Effective(duty)
    case RevDir => Effective(duty)
  }

  function TargetV(dir: Dir, duty: nat): (t: nat)
    ensures DUTY_MIN <= t <= DUTY_MAX && t == 100 - TargetU(dir, duty)
  {
    match dir
    case StopDir => 50
    case FwdDir => Effective(duty)
    case RevDir => 100 - Effective(duty)
  }

  function StepOf(dir: Dir): (s: nat)
    ensures s > 0
  {
    if dir == StopDir then STEP_STOP else STEP_RUN
  }

  function SetPolarity(m: Motor, pol: Polarity): (r: Motor)
  {
    m.(polarity := pol,
       writes := m.writes + [PolarityWrite(pol, m.uReg, m.vReg), PolarityWrite(pol, m.uReg, m.vReg)])
  }

  /** Writes both compare registers where they differ from what was written last. */
  function Apply(m: Motor): (r: Motor)
  {
    m.(uReg := if m.uApplied != m.u then m.u else m.uReg, uApplied := m.u,
       vReg := if m.vApplied != m.v then m.v else m.vReg, vApplied := m.v)
  }

  function Start(m: Motor): (r: Motor)
  {
    SetPolarity(m.(runDir := m.dir, u := 50, v := 50, uApplied := NOT_APPLIED, vApplied := NOT_APPLIED), RunPol)
      .(mode := Ramping)
  }

  /** The ramp of a tick: step both duties, write them, settle the mode. */
  function Advance(m: Motor): (r: Motor)
  {
    var ut, vt, step := TargetU(m.dir, m.duty), TargetV(m.dir, m.duty), StepOf(m.dir);
    var w := Apply(m.(u := RampStep(m.u, ut, step), v := RampStep(m.v, vt, step)));
    if w.u == ut && w.v == vt then
      (if m.dir == StopDir then SetPolarity(w, StopPol).(mode := Stopped)
       else w.(runDir := m.dir, mode := Running))
    else w.(mode := Ramping, runDir := if m.dir != StopDir then m.dir else m.runDir)
  }

  function Tick(m: Motor): (r: Motor)
  {
    if m.mode == Stopped && m.dir == StopDir then m
    else Advance(if m.mode == Stopped then Start(m) else m)
  }

  function Post(m: Motor, dir: Dir, duty: nat): (r: Motor)
  {
    m.(dir := dir, duty := duty)
  }

  /** The emergency stop: command withdrawn, both halves at 50 %, braking polarity, at once. */
  function EStop(m: Motor): (r: Motor)
  {
    SetPolarity(m.(dir := StopDir, duty := 0, uReg := 50, vReg := 50), StopPol)
      .(u := 50, v := 50, uApplied := 50, vApplied := 50, mode := Stopped)
  }

  function PoweredUp(): (m: Motor)
  {
    Motor(StopDir, 0, Stopped, StopDir, 50, 50, NOT_APPLIED, NOT_APPLIED, 50, 50, StopPol, [])
  }

  // ------------------------------------------------ every command sequence

  datatype Action = PostAct(dir: Dir, duty: nat) | TickAct | EStopAct

  function Step(m: Motor, a: Action): (r: Motor)
  {
    match a
    case PostAct(dir, duty) => Post(m, dir, duty)
    case TickAct => Tick(m)
    case EStopAct => EStop(m)
  }

  function After(actions: seq<Action>): (m: Motor)
    decreases |actions|
  {
    if actions == [] then PoweredUp() else Step(After(actions[..|actions| - 1]), actions[|actions| - 1])
  }

  /** What counts as written is what the registers hold. */
  predicate Synced(m: Motor)
  {
    m.uApplied in {NOT_APPLIED, m.uReg} && m.vApplied in {NOT_APPLIED, m.vReg}
  }

  /** Balanced duties in range, registers in step with them, stopped only at 50/50 with the braking
      polarity, and no polarity write away from 50/50. */
  ghost predicate Inv(m: Motor)
  {
    && m.u + m.v == 100 && DUTY_MIN <= m.u <= DUTY_MAX && DUTY_MIN <= m.v <= DUTY_MAX
    && m.uReg == m.u && m.vReg == m.v && Synced(m)
    && (m.mode == Stopped ==> m.u == 50 && m.polarity == StopPol)
    && (m.mode != Stopped ==> m.polarity == RunPol)
    && forall i :: 0 <= i < |m.writes| ==> m.writes[i].u == 50 && m.writes[i].v == 50
  }

  lemma PolarityAt50(m: Motor, pol: Polarity)
    requires m.uReg == 50 && m.vReg == 50
    requires forall i :: 0 <= i < |m.writes| ==> m.writes[i].u == 50 && m.writes[i].v == 50
    ensures var r := SetPolarity(m, pol);
      forall i :: 0 <= i < |r.writes| ==> r.writes[i].u == 50 && r.writes[i].v == 50
  {
  }

  lemma AdvanceKeeps(m: Motor)
    requires m.u + m.v == 100 && DUTY_MIN <= m.u <= DUTY_MAX && m.polarity == RunPol
    requires m.uReg == m.u && m.vReg == m.v && Synced(m)
    requires forall i :: 0 <= i < |m.writes| ==> m.writes[i].u == 50 && m.writes[i].v == 50
    ensures Inv(Advance(m))
  {
    hide SetPolarity;
    var ut, vt, step := TargetU(m.dir, m.duty), TargetV(m.dir, m.duty), StepOf(m.dir);
    var w := Apply(m.(u := RampStep(m.u, ut, step), v := RampStep(m.v, vt, step)));
    if w.u == ut && m.dir == StopDir {
      PolarityAt50(w, StopPol);
      PolarityFields(w, StopPol);
    }
  }

  lemma PolarityFields(m: Motor, pol: Polarity)
    ensures SetPolarity(m, pol) == m.(polarity := pol, writes := SetPolarity(m, pol).writes)
  {
  }

  lemma StepKeeps(m: Motor, a: Action)
    requires Inv(m)
    ensures Inv(Step(m, a))
    ensures a.TickAct? ==>
      var r := Step(m, a);
      Abs(r.u - m.u) <= StepOf(m.dir) && Abs(r.v - m.v) <= StepOf(m.dir)
  {
    match a
    case PostAct(_, _) =>
    case TickAct =>
      if !(m.mode == Stopped && m.dir == StopDir) {
        if m.mode == Stopped {
          PolarityAt50(m.(runDir := m.dir, u := 50, v := 50, uApplied := NOT_APPLIED, vApplied := NOT_APPLIED), RunPol);
        }
        AdvanceKeeps(if m.mode == Stopped then Start(m) else m);
      }
    case EStopAct =>
      PolarityAt50(m.(dir := StopDir, duty := 0, uReg := 50, vReg := 50), StopPol);
  }

  /** After any commands, ticks and emergency stops: U + V = 100, both duties in [2, 98], registers as
      computed, and every polarity write ever made happened at 50/50. */
  lemma {:induction false} RampInvariant(actions: seq<Action>)
    ensures Inv(After(actions))
    decreases |actions|
  {
    if actions != [] {
      hide Step;
      RampInvariant(actions[..|actions| - 1]);
      StepKeeps(After(actions[..|actions| - 1]), actions[|actions| - 1]);
    }
  }

  /** Every tick of every run moves each duty by at most 2 while running and 10 while stopping. */
  lemma RampStepBounded(actions: seq<Action>)
    ensures var m := After(actions);
      var most := if m.dir == StopDir then 10 else 2;
      Abs(Tick(m).u - m.u) <= most && Abs(Tick(m).v - m.v) <= most
  {
    hide Inv, Tick, After, Abs;
    RampInvariant(actions);
    StepKeeps(After(actions), TickAct);
  }

  // ------------------------------------------------ how long a ramp takes

  /** n ticks without a new command. */
  function Ticks(m: Motor, n: nat): (r: Motor)
    decreases n
  {
    if n == 0 then m else Tick(Ticks(m, n - 1))
  }

  function Distance(m: Motor): (d: nat)
  {
    Abs(m.u - TargetU(m.dir, m.duty))
  }

  lemma TickApproaches(m: Motor)
    requires Inv(m)
    ensures Inv(Tick(m)) && Tick(m).dir == m.dir && Tick(m).duty == m.duty
    ensures Distance(Tick(m)) == Less(Distance(m), StepOf(m.dir))
  {
    StepKeeps(m, TickAct);
    StartDuties(m);
    AdvanceDuties(if m.mode == Stopped then Start(m) else m);
    hide Advance, Start, TargetU, RampStep;
  }

  lemma StartDuties(m: Motor)
    ensures var r := Start(m); r.u == 50 && r.dir == m.dir && r.duty == m.duty
  {
  }

  lemma AdvanceDuties(m: Motor)
    ensures var r := Advance(m);
      r.u == RampStep(m.u, TargetU(m.dir, m.duty), StepOf(m.dir)) && r.dir == m.dir && r.duty == m.duty
  {
    hide RampStep, TargetU, TargetV, StepOf;
  }

  lemma {:induction false} TicksApproach(m: Motor, n: nat)
    requires Inv(m)
    ensures Inv(Ticks(m, n)) && Ticks(m, n).dir == m.dir && Ticks(m, n).duty == m.duty
    ensures Distance(Ticks(m, n)) == Less(Distance(m), n * StepOf(m.dir))
    decreases n
  {
    hide Tick, Inv, Distance;
    if n > 0 {
      TicksApproach(m, n - 1);
      TickApproaches(Ticks(m, n - 1));
      assert n * StepOf(m.dir) == (n - 1) * StepOf(m.dir) + StepOf(m.dir);
    }
  }

  /** A constant command reaches its target after exactly as many ticks as steps cover the distance:
      not earlier, and then it stays; a stop command then leaves the motor stopped. */
  lemma RampReaches(actions: seq<Action>, n: nat)
    ensures var m := After(actions);
      var r := Ticks(m, n);
      && (r.u == TargetU(m.dir, m.duty) && r.v == TargetV(m.dir, m.duty) <==> n * StepOf(m.dir) >= Distance(m))
      && (n > 0 && n * StepOf(m.dir) >= Distance(m) ==> r.mode == if m.dir == StopDir then Stopped else Running)
  {
    hide Inv, Tick, Distance, TargetU, TargetV, StepOf;
    RampInvariant(actions);
    var m := After(actions);
    TicksApproach(m, n);
    AtTarget(Ticks(m, n));
    if n > 0 {
      TicksApproach(m, n - 1);
      SettledMode(Ticks(m, n - 1));
    }
  }

  lemma AtTarget(m: Motor)
    requires Inv(m)
    ensures Distance(m) == 0 <==> m.u == TargetU(m.dir, m.duty) && m.v == TargetV(m.dir, m.duty)
  {
  }

  lemma SettledMode(m: Motor)
    requires Inv(m)
    ensures var r := Tick(m);
      Distance(r) == 0 ==> r.mode == if m.dir == StopDir then Stopped else Running
  {
    StepKeeps(m, TickAct);
  }

  /** The duty a commanded percentage settles at: zero stands for 20, the rest is kept in 2..98. */
  predicate SettlesAt(duty: nat, d: nat)
  {
    && (duty == 0 ==> d == 20) && (duty == 1 ==> d == 2)
    && (2 <= duty <= 98 ==> d == duty) && (duty > 98 ==> d == 98)
  }

  /** Any command of any run, given 48 ticks: forward leaves the commanded duty on V and its complement
      on U, reverse the other way round, a stop both at 50 with the braking polarity. */
  lemma CommandSettles(actions: seq<Action>, dir: Dir, duty: nat, n: nat)
    requires n >= 48
    ensures var r := Ticks(After(actions + [PostAct(dir, duty)]), n);
      match dir
      case FwdDir => SettlesAt(duty, r.vReg) && r.uReg == 100 - r.vReg && r.polarity == RunPol && r.mode == Running
      case RevDir => SettlesAt(duty, r.uReg) && r.vReg == 100 - r.uReg && r.polarity == RunPol && r.mode == Running
      case StopDir => r.uReg == 50 && r.vReg == 50 && r.polarity == StopPol && r.mode == Stopped
  {
    var acts := actions + [PostAct(dir, duty)];
    assert acts[..|actions|] == actions;
    assert After(acts) == Post(After(actions), dir, duty);
    var m := After(acts);
    hide Ticks, After, Inv, Tick, Distance, TargetU, TargetV, StepOf, Effective;
    RampInvariant(acts);
    TicksApproach(m, n);
    Enough(m, n);
    RampReaches(acts, n);
    Targets(dir, duty);
    Settled(Ticks(m, n));
  }

  lemma Enough(m: Motor, n: nat)
    requires Inv(m) && n >= 48
    ensures n * StepOf(m.dir) >= Distance(m)
  {
    assert n * 2 >= 96 && n * 10 >= 96;
  }

  lemma Targets(dir: Dir, duty: nat)
    ensures match dir
      case FwdDir => SettlesAt(duty, TargetV(dir, duty)) && TargetU(dir, duty) == 100 - TargetV(dir, duty)
      case RevDir => SettlesAt(duty, TargetU(dir, duty)) && TargetV(dir, duty) == 100 - TargetU(dir, duty)
      case StopDir => TargetU(dir, duty) == 50 && TargetV(dir, duty) == 50
  {
  }

  lemma Settled(m: Motor)
    requires Inv(m)
    ensures m.uReg == m.u && m.vReg == m.v && m.polarity == if m.mode == Stopped then StopPol else RunPol
  {
  }

  /** An emergency stop holds: without a new command the motor stays braked at 50/50. */
  lemma {:induction false} EStopHolds(m: Motor, n: nat)
    ensures Ticks(EStop(m), n) == EStop(m)
    ensures var r := EStop(m); r.uReg == 50 && r.vReg == 50 && r.polarity == StopPol && r.mode == Stopped
  {
    if n > 0 {
      EStopHolds(m, n - 1);
    }
  }

  // ------------------------------------------------ the tick as the firmware runs it

  class PwmMotor {
    var dir: Dir
    var duty: nat
    var mode: Mode
    var runDir: Dir
    var u: nat
    var v: nat
    var uApplied: nat
    var vApplied: nat
    var uReg: nat
    var vReg: nat
    var polarity: Polarity
    ghost var writes: seq<PolarityWrite>

    ghost function View(): (m: Motor)
      reads this
    {
      Motor(dir, duty, mode, runDir, u, v, uApplied, vApplied, uReg, vReg, polarity, writes)
    }

    constructor ()
      ensures View() == PoweredUp()
    {
      dir, duty, mode, runDir := StopDir, 0, Stopped, StopDir;
      u, v, uApplied, vApplied, uReg, vReg := 50, 50, NOT_APPLIED, NOT_APPLIED, 50, 50;
      polarity := StopPol;
      writes := [];
    }

    method WritePolarity(pol: Polarity)
      modifies this
      ensures View() == SetPolarity(old(View()), pol)
    {
      polarity := pol;
      writes := writes + [PolarityWrite(pol, uReg, vReg), PolarityWrite(pol, uReg, vReg)];
    }

    method ApplyDuties()
      modifies this
      ensures View() == Apply(old(View()))
    {
      if uApplied != u {
        uReg := u;
        uApplied := u;
      }
      if vApplied != v {
        vReg := v;
        vApplied := v;
      }
    }

    method RampTick()
      modifies this
      ensures View() == Tick(old(View()))
    {
      hide Advance;
      if mode == Stopped {
        if dir == StopDir {
          return;
        }
        runDir := dir;
        u, v, uApplied, vApplied := 50, 50, NOT_APPLIED, NOT_APPLIED;
        WritePolarity(RunPol);
        mode := Ramping;
      }
      RampOn();
    }

    method RampOn()
      modifies this
      ensures View() == Advance(old(View()))
    {
      hide RampStep, TargetU, TargetV;
      var ut, vt := TargetU(dir, duty), TargetV(dir, duty);
      var step := if dir == StopDir then STEP_STOP else STEP_RUN;
      u := RampStep(u, ut, step);
      v := RampStep(v, vt, step);
      ApplyDuties();
      if u == ut && v == vt {
        if dir == StopDir {
          WritePolarity(StopPol);
          mode := Stopped;
        } else {
          runDir := dir;
          mode := Running;
        }
      } else {
        mode := Ramping;
        if dir != StopDir {
          runDir := dir;
        }
      }
    }

    /** The duties a stopped motor holds, taken as written. */
    method HoldBalanced()
      modifies this
      ensures View() == old(View()).(u := 50, v := 50, uApplied := 50, vApplied := 50, mode := Stopped)
    {
      u, v, uApplied, vApplied := 50, 50, 50, 50;
      mode := Stopped;
    }

    method EmergencyStop()
      modifies this
      ensures View() == EStop(old(View()))
    {
      dir, duty := StopDir, 0;
      uReg, vReg := 50, 50;
      WritePolarity(StopPol);
      HoldBalanced();
    }
  }
}
