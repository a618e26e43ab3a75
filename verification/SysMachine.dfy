/** The control side as the firmware runs it: table look-ups, a state object whose fields the
enter actions change, an event dispatcher and the rod tick.  Every method is tied to the
functions of SysProtocol and Rod.
*/
module SysMachine {
  import opened Arbitration
  import opened Rod
  import opened SysProtocol
  import opened ArbAxis

  datatype Row = Row(cur: SysState, event: Event, target: SysState)

  const SYS_JUMP: seq<Row> := [
    Row(Init, InitDone, Idle),
    Row(Idle, WorkEnable, Run), Row(Idle, FaultEvt, Fault), Row(Idle, EmergencyEvt, Emergency),
    Row(Idle, WorkError, Halted), Row(Idle, VoltOver, Emergency), Row(Idle, VoltUnder, Emergency),
    Row(Idle, OverCurrent, Emergency), Row(Idle, RodLimitFault, Emergency),
    Row(Run, FaultEvt, Fault), Row(Run, EmergencyEvt, Emergency), Row(Run, WorkError, Halted),
    Row(Run, VoltOver, Emergency), Row(Run, VoltUnder, Emergency), Row(Run, OverCurrent, Emergency),
    Row(Run, RodLimitFault, Emergency),
    Row(Halted, WorkEnable, Run), Row(Halted, Recovery, Idle),
    Row(Fault, Recovery, Idle),
    Row(Emergency, FaultEvt, Fault), Row(Emergency, Recovery, Idle)]

  /** Every row says what the transition function says, and every transition has its row. */
  lemma SysTable(s: SysState, e: Event)
    ensures forall k :: 0 <= k < |SYS_JUMP| && SYS_JUMP[k].cur == s && SYS_JUMP[k].event == e ==>
              SYS_JUMP[k].target == Target(s, e)
    ensures Target(s, e) != s ==> Row(s, e, Target(s, e)) in SYS_JUMP
  {
    hide Target;
    SysRows(s, e);
    SysHasRow(s, e);
  }

  lemma SysRows(s: SysState, e: Event)
    ensures forall k :: 0 <= k < |SYS_JUMP| && SYS_JUMP[k].cur == s && SYS_JUMP[k].event == e ==>
              SYS_JUMP[k].target == Target(s, e)
  {
    hide Target;
    forall k | 0 <= k < |SYS_JUMP|
      ensures SYS_JUMP[k].target == Target(SYS_JUMP[k].cur, SYS_JUMP[k].event)
    {
      if k < 9 { SysRowsLow(k); } else { SysRowsHigh(k); }
    }
  }

  lemma SysRowsLow(k: nat)
    requires k < 9
    ensures SYS_JUMP[k].target == Target(SYS_JUMP[k].cur, SYS_JUMP[k].event)
  {
  }

  lemma SysRowsHigh(k: nat)
    requires 9 <= k < |SYS_JUMP|
    ensures SYS_JUMP[k].target == Target(SYS_JUMP[k].cur, SYS_JUMP[k].event)
  {
  }

  lemma SysHasRow(s: SysState, e: Event)
    ensures Target(s, e) != s ==> Row(s, e, Target(s, e)) in SYS_JUMP
  {
  }

  datatype RodRow = RodRow(cur: RodState, event: RodEvent, target: RodState)

  const ROD_JUMP: seq<RodRow> := [
    RodRow(Unknown, CmdStop, Stopped), RodRow(Unknown, CmdExtend, Extending),
    RodRow(Unknown, CmdRetract, Retracting), RodRow(Unknown, AtMax, ExtLimit), RodRow(Unknown, AtMin, RetLimit),
    RodRow(Stopped, CmdExtend, Extending), RodRow(Stopped, CmdRetract, Retracting),
    RodRow(Stopped, AtMax, ExtLimit), RodRow(Stopped, AtMin, RetLimit),
    RodRow(Extending, CmdStop, Stopped), RodRow(Extending, CmdRetract, Retracting),
    RodRow(Extending, AtMax, ExtLimit), RodRow(Extending, Timeout, ExtFault), RodRow(Extending, SensorFault, ExtFault),
    RodRow(Retracting, CmdStop, Stopped), RodRow(Retracting, CmdExtend, Extending),
    RodRow(Retracting, AtMin, RetLimit), RodRow(Retracting, Timeout, RetFault), RodRow(Retracting, SensorFault, RetFault),
    RodRow(ExtLimit, CmdRetract, Retracting),
    RodRow(RetLimit, CmdExtend, Extending),
    RodRow(ExtFault, CmdStop, Stopped), RodRow(ExtFault, CmdExtend, Extending), RodRow(ExtFault, CmdRetract, Retracting),
    RodRow(RetFault, CmdStop, Stopped), RodRow(RetFault, CmdExtend, Extending), RodRow(RetFault, CmdRetract, Retracting)]

  lemma RodTable(s: RodState, e: RodEvent)
    ensures forall k :: 0 <= k < |ROD_JUMP| && ROD_JUMP[k].cur == s && ROD_JUMP[k].event == e ==>
              ROD_JUMP[k].target == Jump(s, e)
    ensures Jump(s, e) != s ==> RodRow(s, e, Jump(s, e)) in ROD_JUMP
  {
    hide Jump;
    RodRows(s, e);
    RodHasRow(s, e);
  }

  lemma RodRows(s: RodState, e: RodEvent)
    ensures forall k :: 0 <= k < |ROD_JUMP| && ROD_JUMP[k].cur == s && ROD_JUMP[k].event == e ==>
              ROD_JUMP[k].target == Jump(s, e)
  {
    hide Jump;
    forall k | 0 <= k < |ROD_JUMP|
      ensures ROD_JUMP[k].target == Jump(ROD_JUMP[k].cur, ROD_JUMP[k].event)
    {
      if k < 14 { RodRowsLow(k); } else { RodRowsHigh(k); }
    }
  }

  lemma RodRowsLow(k: nat)
    requires k < 14
    ensures ROD_JUMP[k].target == Jump(ROD_JUMP[k].cur, ROD_JUMP[k].event)
  {
  }

  lemma RodRowsHigh(k: nat)
    requires 14 <= k < |ROD_JUMP|
    ensures ROD_JUMP[k].target == Jump(ROD_JUMP[k].cur, ROD_JUMP[k].event)
  {
  }

  lemma RodHasRow(s: RodState, e: RodEvent)
    ensures Jump(s, e) != s ==> RodRow(s, e, Jump(s, e)) in ROD_JUMP
  {
  }

  /** The engine's search: the first row for state and event, the state itself when there is none. */
  method FindTarget(cur: SysState, e: Event) returns (target: SysState)
    ensures target == Target(cur, e)
  {
    SysTable(cur, e);
    target := cur;
    var i := 0;
    while i < |SYS_JUMP|
      invariant i <= |SYS_JUMP| && target == cur
      invariant forall k :: 0 <= k < i ==> SYS_JUMP[k].cur != cur || SYS_JUMP[k].event != e
    {
      if SYS_JUMP[i].cur == cur && SYS_JUMP[i].event == e {
        return SYS_JUMP[i].target;
      }
      i := i + 1;
    }
  }

  method FindRodTarget(cur: RodState, e: RodEvent) returns (target: RodState)
    ensures target == Jump(cur, e)
  {
    RodTable(cur, e);
    target := cur;
    var i := 0;
    while i < |ROD_JUMP|
      invariant i <= |ROD_JUMP| && target == cur
      invariant forall k :: 0 <= k < i ==> ROD_JUMP[k].cur != cur || ROD_JUMP[k].event != e
    {
      if ROD_JUMP[i].cur == cur && ROD_JUMP[i].event == e {
        return ROD_JUMP[i].target;
      }
      i := i + 1;
    }
  }

  lemma SendFew(p: Plant, a: Msg, b: Msg)
    requires p.Valid()
    ensures SendAll(p, 0, [b]) == Send(p, 0, b) && SendAll(p, 0, [] + [b]) == Send(p, 0, b)
    ensures SendAll(p, 0, [a] + [b]) == Send(Send(p, 0, a), 0, b)
  {
    hide Send;
    assert ([a] + [b])[1..] == [b] && [b][1..] == [] && [] + [b] == [b];
    assert SendAll(p, 0, [a] + [b]) == SendAll(Send(p, 0, a), 0, [b]);
    assert SendAll(Send(p, 0, a), 0, [b]) == SendAll(Send(Send(p, 0, a), 0, b), 0, []);
    assert SendAll(p, 0, [b]) == SendAll(Send(p, 0, b), 0, []);
  }

  class System {
    var state: SysState
    var previous: SysState
    var prevState: SysState
    var bits: Bits
    var error: ErrorCode
    var overcurDir: Polarity
    const axis0: Axis
    const axis1: Axis
    var pos: Position
    var rod: Ctx
    ghost var log: seq<Note>

    /** The two axes share nothing with each other or with the system. */
    ghost predicate Valid()
      reads axis0.repr, axis1.repr
    {
      && this !in axis0.repr && this !in axis1.repr && axis0.repr !! axis1.repr
      && axis0 in axis0.repr && axis1 in axis1.repr
      && axis0.Valid() && axis1.Valid()
    }

    ghost function Abs(): (p: Plant)
      requires Valid()
      reads this, axis0.repr, axis1.repr
    {
      Plant(state, previous, prevState, bits, error, overcurDir, [axis0.Abs(), axis1.Abs()], pos, rod, log)
    }

    constructor (pos: Position, timeout: nat)
      ensures Valid() && Booted(Abs()) && this.pos == pos && rod.timeout == timeout
      ensures fresh(axis0.repr) && fresh(axis1.repr)
    {
      state, previous, prevState := Init, Init, Init;
      bits, error, overcurDir := NO_BITS, NoError, PolUnknown;
      axis0 := new Axis();
      axis1 := new Axis();
      this.pos := pos;
      rod := Ctx(Unknown, NoReq, 0, timeout, false, false);
      log := [];
    }

    method SendCommand(axis: nat, m: Msg)
      requires Valid() && axis < AXES
      modifies this`log, axis0.repr, axis1.repr
      ensures Valid() && Abs() == Send(old(Abs()), axis, m)
    {
      hide Handle, Axis.Abs, Axis.Valid;
      if axis == 0 {
        axis0.HandleMessage(m);
        log := log + [Out(0, Handle(old(axis0.Abs()), m).1)];
      } else {
        axis1.HandleMessage(m);
        log := log + [Out(1, Handle(old(axis1.Abs()), m).1)];
      }
    }

    method SetArbEnable(axis: nat, on: bool)
      requires Valid() && axis < AXES
      modifies axis0.repr, axis1.repr
      ensures Valid() && Abs() == SetEnable(old(Abs()), axis, on)
    {
      hide Axis.Abs, Axis.Valid;
      if axis == 0 {
        axis0.SetEnable(on);
      } else {
        axis1.SetEnable(on);
      }
    }

    method InitArb()
      requires Valid()
      modifies axis0.repr, axis1.repr
      ensures Valid() && Abs() == old(Abs()).(arb := [Cleared(), Cleared()])
    {
      hide Axis.Abs, Axis.Valid, Cleared;
      axis0.Init();
      axis1.Init();
    }

    method ResyncActFromFault(env: Env)
      requires Valid()
      modifies this, axis0.repr, axis1.repr
      ensures Valid() && Abs() == Resync(old(Abs()), env)
    {
      hide Send, Axis.Abs, Axis.Valid;
      SetArbEnable(0, true);
      SetArbEnable(1, true);
      if env.polarity == PolFwd {
        SendCommand(0, PowerMsg(DEV_POWER_POS, RunFwd, env.duty, env.now));
      } else if env.polarity == PolRev {
        SendCommand(0, PowerMsg(DEV_POWER_NEG, RunRev, env.duty, env.now));
      } else {
        SendCommand(0, PowerMsg(DEV_POWER_POS, ClearAllowFwd, 0, env.now));
        SendCommand(0, PowerMsg(DEV_POWER_POS, ClearAllowRev, 0, env.now));
      }
    }

    method EnterFault(now: nat)
      requires Valid()
      modifies this, axis0.repr, axis1.repr
      ensures Valid() && Abs() == LockAxis(LockAxis(old(Abs()), 0, now), 1, now)
    {
      hide Send, Axis.Abs, Axis.Valid;
      SetArbEnable(0, false);
      SendCommand(0, EmergencyMsg(now));
      SetArbEnable(1, false);
      SendCommand(1, EmergencyMsg(now));
    }

    /** The emergency action: stop both axes, then send the event that leads to FAULT from inside. */
    method EnterEmergency(env: Env)
      requires Valid() && state == Emergency
      modifies this, axis0.repr, axis1.repr
      ensures Valid() && Abs() == SysProtocol.EnterEmergency(old(Abs()), env)
      decreases 0, 2
    {
      hide Send, Axis.Abs, Axis.Valid;
      SendCommand(0, EmergencyMsg(env.now));
      SendCommand(1, EmergencyMsg(env.now));
      SendEvent(FaultEvt, env);
    }

    method SendEvent(e: Event, env: Env)
      requires Valid()
      modifies this, axis0.repr, axis1.repr
      ensures Valid() && Abs() == SysProtocol.SendEvent(old(Abs()), e, env)
      decreases Rank(state), 1
    {
      hide Target, LockAxis, Resync, Cleared, Axis.Abs, Axis.Valid;
      var target := FindTarget(state, e);
      if target == state {
        return;
      }
      previous := state;
      state := target;
      log := log + [Enter(target)];
      match target {
        case Idle => InitArb();
        case Run =>
          if previous == Fault {
            ResyncActFromFault(env);
          }
        case Fault => EnterFault(env.now);
        case Emergency => EnterEmergency(env);
        case _ =>
      }
    }

    method RememberState()
      requires Valid()
      modifies this
      ensures Valid() && Abs() == Remember(old(Abs()))
    {
      if bits == NO_BITS {
        prevState := state;
      }
    }

    /** What an over-current means; a limit also leaves a calibration request. */
    method JudgeOverCurrent() returns (r: CalibResult)
      requires Valid()
      modifies this`rod
      ensures Valid() && r == OnOverCurrent(old(Abs()).pos, old(Abs()).arb[0])
      ensures Abs() == old(Abs()).(rod :=
        match r
        case CalibMax => old(rod).(req := ReqMax)
        case CalibMin => old(rod).(req := ReqMin)
        case _ => old(rod))
    {
      hide Axis.Abs, Axis.Valid;
      var enable, dir := axis0.GetData();
      if !enable || dir == None {
        r := Ignored;
      } else if dir == Fwd {
        if !pos.calibrated || pos.zoneMax {
          rod := rod.(req := ReqMax);
          r := CalibMax;
        } else {
          r := FaultFwd;
        }
      } else if !pos.calibrated || pos.zoneMin {
        rod := rod.(req := ReqMin);
        r := CalibMin;
      } else {
        r := FaultRev;
      }
    }

    method OverCurrentEvent(env: Env)
      requires Valid()
      modifies this, axis0.repr, axis1.repr
      ensures Valid() && Abs() == OnOverCurrentEvt(old(Abs()), env)
    {
      hide Send, SysProtocol.SendEvent, OnOverCurrent, Axis.Abs, Axis.Valid;
      var r := JudgeOverCurrent();
      match r {
        case CalibMax => SendCommand(0, PowerMsg(DEV_POWER_POS, ClearAllowFwd, 0, env.now));
        case CalibMin => SendCommand(0, PowerMsg(DEV_POWER_POS, ClearAllowRev, 0, env.now));
        case Ignored =>
        case _ => RecordOverCurrent(if r == FaultFwd then PolFwd else PolRev, env);
      }
    }

    method RecordOverCurrent(dir: Polarity, env: Env)
      requires Valid()
      modifies this, axis0.repr, axis1.repr
      ensures Valid()
      ensures var q := Remember(old(Abs()).(overcurDir := dir, error := OverCurrentError));
        Abs() == SysProtocol.SendEvent(q.(bits := q.bits.(overCurrent := true)), OverCurrent, env)
    {
      hide SysProtocol.SendEvent, Axis.Abs, Axis.Valid;
      overcurDir := dir;
      error := OverCurrentError;
      RememberState();
      bits := bits.(overCurrent := true);
      SendEvent(OverCurrent, env);
    }

    method VoltFaultEvent(e: Event, env: Env)
      requires Valid() && e in {VoltOver, VoltUnder}
      modifies this, axis0.repr, axis1.repr
      ensures Valid()
      ensures Abs() == if e == VoltOver then OnVoltOverEvt(old(Abs()), env) else OnVoltUnderEvt(old(Abs()), env)
    {
      hide SysProtocol.SendEvent, Axis.Abs, Axis.Valid;
      error := if e == VoltOver then VoltOverError else VoltUnderError;
      RememberState();
      bits := if e == VoltOver then bits.(overVolt := true) else bits.(underVolt := true);
      SendEvent(e, env);
    }

    method RecoverWhenClear(env: Env)
      requires Valid()
      modifies this, axis0.repr, axis1.repr
      ensures Valid()
      ensures Abs() == if old(bits) == NO_BITS then AutoRecover(old(Abs()), env) else old(Abs())
    {
      hide SysProtocol.SendEvent, Axis.Abs, Axis.Valid;
      if bits == NO_BITS {
        error := NoError;
        SendEvent(Recovery, env);
        if prevState == Run {
          SendEvent(WorkEnable, env);
        }
      }
    }

    /** Handles one event of the pending set. */
    method HandleEvent(e: Event, env: Env)
      requires Valid()
      modifies this, axis0.repr, axis1.repr
      ensures Valid() && Abs() == OnEvent(old(Abs()), e, env)
    {
      hide Send, SysProtocol.SendEvent, AutoRecover, OnOverCurrentEvt, Axis.Abs, Axis.Valid;
      match e {
        case OverCurrent => OverCurrentEvent(env);
        case RodLimitFault =>
          error := RodLimitError;
          bits := bits.(rodLimit := true);
          SendEvent(e, env);
        case VoltOver => VoltFaultEvent(e, env);
        case VoltUnder => VoltFaultEvent(e, env);
        case Recovery =>
          error := NoError;
          bits := NO_BITS;
          SendEvent(e, env);
        case VoltNormal =>
          bits := bits.(overVolt := false, underVolt := false);
          RecoverWhenClear(env);
        case VoltRecoverWait =>
        case PolarityChg =>
          if bits.overCurrent && overcurDir != PolUnknown && env.polarity != overcurDir {
            bits := bits.(overCurrent := false);
            RecoverWhenClear(env);
          }
        case _ => SendEvent(e, env);
      }
    }

    /** Handles a set of pending events in the fixed order of the dispatcher. */
    method DispatchEvents(events: set<Event>, env: Env)
      requires Valid()
      modifies this, axis0.repr, axis1.repr
      ensures Valid() && Abs() == Dispatch(old(Abs()), events, env)
    {
      hide OnEvent, Axis.Abs, Axis.Valid;
      var i := 0;
      while i < |ORDER|
        invariant i <= |ORDER| && Valid()
        invariant DispatchFrom(Abs(), events, env, i) == Dispatch(old(Abs()), events, env)
      {
        if ORDER[i] in events {
          HandleEvent(ORDER[i], env);
        }
        i := i + 1;
      }
    }

    /** One 10 ms tick of the rod: position, calibration, direction, state machine, commands. */
    method ActuatorTick(pulses: int, tick: nat, now: nat)
      requires Valid()
      modifies this, axis0.repr, axis1.repr
      ensures Valid() && Abs() == RodTick(old(Abs()), pulses, tick, now)
    {
      hide Send, SendAll, TickPosition, Synthesize, TickRod, TickCommands, Axis.Abs, Axis.Valid;
      UpdatePosition(pulses);
      var enable, active := axis0.GetData();
      var dir := None;
      if enable {
        dir := active;
      }
      RodUpdate(dir, tick, now);
    }

    method UpdatePosition(pulses: int)
      modifies this`pos
      ensures pos == TickPosition(old(pos), pulses, rod.req)
    {
      hide Moved, AtMinLimit, AtMaxLimit;
      pos := Moved(pos, pulses);
      if rod.req == ReqMin {
        pos := AtMinLimit(pos);
      } else if rod.req == ReqMax {
        pos := AtMaxLimit(pos);
      }
    }

    /** The state machine with its context, then the commands of the tick. */
    method RodUpdate(dir: Dir, tick: nat, now: nat)
      requires Valid()
      modifies this, axis0.repr, axis1.repr
      ensures Valid()
      ensures var p := old(Abs());
        var next := TickRod(p.rod, Synthesize(p.rod, p.pos, dir, tick), tick);
        Abs() == SendAll(p.(rod := next), 0, TickCommands(p.rod.state, next.state, now))
    {
      hide Synthesize, SendAll, TickCommands, TickRod, Jump, Axis.Abs, Axis.Valid;
      var prev := rod.state;
      var e := Synthesize(rod, pos, dir, tick);
      SwitchRod(e, tick);
      SendLimits(prev, rod.state, now);
    }

    /** The rod engine and what the context remembers of a transition. */
    method SwitchRod(e: RodEvent, tick: nat)
      modifies this`rod
      ensures rod == TickRod(old(rod), e, tick)
    {
      hide Jump;
      var prev := rod.state;
      var cur := FindRodTarget(prev, e);
      rod := rod.(state := cur, req := NoReq);
      if cur == Extending {
        if prev != Extending {
          rod := rod.(moveStart := tick);
        }
        if prev == RetLimit {
          rod := rod.(retSent := false);
        }
      } else if cur == Retracting {
        if prev != Retracting {
          rod := rod.(moveStart := tick);
        }
        if prev == ExtLimit {
          rod := rod.(extSent := false);
        }
      } else if cur == ExtLimit && prev != ExtLimit {
        rod := rod.(extSent := true);
      } else if cur == RetLimit && prev != RetLimit {
        rod := rod.(retSent := true);
      }
    }

    /** Lifts the block of a limit that was left, sets the block of the limit the rod is at. */
    method SendLimits(prev: RodState, cur: RodState, now: nat)
      requires Valid()
      modifies this`log, axis0.repr, axis1.repr
      ensures Valid() && Abs() == SendAll(old(Abs()), 0, TickCommands(prev, cur, now))
    {
      hide Send, SendAll, Axis.Abs, Axis.Valid;
      ghost var p := Abs();
      SendNone(p);
      if cur == Extending {
        if prev == RetLimit {
          var unblock := LimitMsg(DEV_ROD_LIMIT_REV, UnblockRev, now);
          SendFew(p, unblock, unblock);
          SendCommand(0, unblock);
        }
      } else if cur == Retracting {
        if prev == ExtLimit {
          var unblock := LimitMsg(DEV_ROD_LIMIT_FWD, UnblockFwd, now);
          SendFew(p, unblock, unblock);
          SendCommand(0, unblock);
        }
      } else if cur == ExtLimit {
        var clear, block := LimitMsg(DEV_ROD_LIMIT_FWD, ClearAllowFwd, now), LimitMsg(DEV_ROD_LIMIT_FWD, BlockFwd, now);
        SendFew(p, clear, block);
        if prev != ExtLimit {
          SendCommand(0, clear);
        }
        SendCommand(0, block);
      } else if cur == RetLimit {
        var clear, block := LimitMsg(DEV_ROD_LIMIT_REV, ClearAllowRev, now), LimitMsg(DEV_ROD_LIMIT_REV, BlockRev, now);
        SendFew(p, clear, block);
        if prev != RetLimit {
          SendCommand(0, clear);
        }
        SendCommand(0, block);
      }
    }
  }

  lemma SendNone(p: Plant)
    requires p.Valid()
    ensures SendAll(p, 0, []) == p
  {
  }
}
