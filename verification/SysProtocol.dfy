/** The whole control protocol as steps on one state: system state machine, arbitration of both
axes, rod.

A sent command is handled before its sender goes on, because the arbitration thread
outranks its senders; a rod tick and an event dispatch are atomic.  `log` notes, in order,
every state entered and every arbitration decision.
*/
module SysProtocol {
  import opened Arbitration
  import opened Rod

  datatype SysState = Init | Idle | Run | Fault | Emergency | Halted

  datatype Event =
    | InitDone | FaultEvt | EmergencyEvt | Recovery | VoltNormal | VoltOver | VoltUnder | WorkEnable
    | OverCurrent | RodLimitFault | VoltRecoverWait | PolarityChg | WorkError

  datatype Polarity = PolUnknown | PolFwd | PolRev

  datatype Bits = Bits(overCurrent: bool, overVolt: bool, underVolt: bool, rodLimit: bool)

  const NO_BITS: Bits := Bits(false, false, false, false)

  datatype ErrorCode = NoError | OverCurrentError | VoltOverError | VoltUnderError | RodLimitError

  datatype Note = Enter(state: SysState) | Out(axis: nat, output: Output)

  datatype Plant = Plant(
    state: SysState, previous: SysState, prevState: SysState,
    bits: Bits, error: ErrorCode, overcurDir: Polarity,
    arb: seq<Arb>, pos: Position, rod: Ctx, log: seq<Note>)
  {
    predicate Valid()
    {
      |arb| == AXES
    }
  }

  /** The transition table of the system. */
  function Target(s: SysState, e: Event): (t: SysState)
  {
    match s
    case Init => if e == InitDone then Idle else s
    case Idle =>
      (match e case WorkEnable => Run case FaultEvt => Fault case EmergencyEvt => Emergency
       case WorkError => Halted case VoltOver => Emergency case VoltUnder => Emergency
       case OverCurrent => Emergency case RodLimitFault => Emergency case _ => s)
    case Run =>
      (match e case FaultEvt => Fault case EmergencyEvt => Emergency case WorkError => Halted
       case VoltOver => Emergency case VoltUnder => Emergency case OverCurrent => Emergency
       case RodLimitFault => Emergency case _ => s)
    case Halted => (match e case WorkEnable => Run case Recovery => Idle case _ => s)
    case Fault => if e == Recovery then Idle else s
    case Emergency => (match e case FaultEvt => Fault case Recovery => Idle case _ => s)
  }

  // ------------------------------------------------ commands

  function Send(p: Plant, axis: nat, m: Msg): (r: Plant)
    requires p.Valid() && axis < AXES
    ensures r.Valid() && r == p.(arb := r.arb, log := r.log)
  {
    var (a, out) := Handle(p.arb[axis], m);
    p.(arb := p.arb[axis := a], log := p.log + [Out(axis, out)])
  }

  function SendAll(p: Plant, axis: nat, msgs: seq<Msg>): (r: Plant)
    requires p.Valid() && axis < AXES
    ensures r.Valid() && r == p.(arb := r.arb, log := r.log)
    decreases |msgs|
  {
    if msgs == [] then p else SendAll(Send(p, axis, msgs[0]), axis, msgs[1..])
  }

  function SetEnable(p: Plant, axis: nat, on: bool): (r: Plant)
    requires p.Valid() && axis < AXES
    ensures r.Valid()
  {
    p.(arb := p.arb[axis := p.arb[axis].(enable := on)])
  }

  function EmergencyMsg(now: nat): (m: Msg)
  {
    Msg(DEV_EMERGENCY, PRIO_EMERGENCY, EmergencyStop, 0, now)
  }

  function PowerMsg(dev: nat, cmd: Cmd, duty: nat, now: nat): (m: Msg)
  {
    Msg(dev, PRIO_POWER, cmd, duty, now)
  }

  // ------------------------------------------------ entering a state

  /** Inputs of a dispatch: the sampled polarity, the run duty and the time of the messages. */
  datatype Env = Env(polarity: Polarity, duty: nat, now: nat)

  function LockAxis(p: Plant, axis: nat, now: nat): (r: Plant)
    requires p.Valid() && axis < AXES
    ensures r.Valid()
  {
    Send(SetEnable(p, axis, false), axis, EmergencyMsg(now))
  }

  /** Re-enables both axes and repeats the run command of the supply direction. */
  function Resync(p: Plant, env: Env): (r: Plant)
    requires p.Valid()
    ensures r.Valid()
  {
    var q := SetEnable(SetEnable(p, 0, true), 1, true);
    match env.polarity
    case PolFwd => Send(q, 0, PowerMsg(DEV_POWER_POS, RunFwd, env.duty, env.now))
    case PolRev => Send(q, 0, PowerMsg(DEV_POWER_NEG, RunRev, env.duty, env.now))
    case PolUnknown =>
      Send(Send(q, 0, PowerMsg(DEV_POWER_POS, ClearAllowFwd, 0, env.now)),
           0, PowerMsg(DEV_POWER_POS, ClearAllowRev, 0, env.now))
  }

  /** Changes the state and notes it. */
  function Switch(p: Plant, t: SysState): (r: Plant)
    requires p.Valid()
    ensures r.Valid()
  {
    p.(previous := p.state, state := t, log := p.log + [Enter(t)])
  }

  function Rank(s: SysState): (r: nat)
  {
    if s == Emergency then 0 else 1
  }

  /** The engine: look up the target, switch, run the enter action.  Entering EMERGENCY sends the next
      event from inside; it leads to FAULT, whose action sends none. */
  function SendEvent(p: Plant, e: Event, env: Env): (r: Plant)
    requires p.Valid()
    ensures r.Valid()
    decreases Rank(p.state), 1
  {
    var t := Target(p.state, e);
    if t == p.state then p
    else
      var q := Switch(p, t);
      match t
      case Idle => q.(arb := [Cleared(), Cleared()])
      case Run => if q.previous == Fault then Resync(q, env) else q
      case Fault => LockAxis(LockAxis(q, 0, env.now), 1, env.now)
      case Emergency => EnterEmergency(q, env)
      case _ => q
  }

  function EnterEmergency(p: Plant, env: Env): (r: Plant)
    requires p.Valid() && p.state == Emergency
    ensures r.Valid()
    decreases 0, 2
  {
    SendEvent(Send(Send(p, 0, EmergencyMsg(env.now)), 1, EmergencyMsg(env.now)), FaultEvt, env)
  }

  // ------------------------------------------------ dispatching an event set

  /** The state to return to is taken when the first fault arrives. */
  function Remember(p: Plant): (r: Plant)
    ensures p.Valid() ==> r.Valid()
  {
    if p.bits == NO_BITS then p.(prevState := p.state) else p
  }

  function OnOverCurrentEvt(p: Plant, env: Env): (r: Plant)
    requires p.Valid()
    ensures r.Valid()
  {
    match OnOverCurrent(p.pos, p.arb[0])
    case CalibMax =>
      Send(p.(rod := p.rod.(req := ReqMax)), 0, PowerMsg(DEV_POWER_POS, ClearAllowFwd, 0, env.now))
    case CalibMin =>
      Send(p.(rod := p.rod.(req := ReqMin)), 0, PowerMsg(DEV_POWER_POS, ClearAllowRev, 0, env.now))
    case Ignored => p
    case fault =>
      var q := Remember(p.(overcurDir := if fault == FaultFwd then PolFwd else PolRev, error := OverCurrentError));
      SendEvent(q.(bits := q.bits.(overCurrent := true)), OverCurrent, env)
  }

  function OnRodLimitEvt(p: Plant, env: Env): (r: Plant)
    requires p.Valid()
    ensures r.Valid()
  {
    SendEvent(p.(error := RodLimitError, bits := p.bits.(rodLimit := true)), RodLimitFault, env)
  }

  function OnVoltOverEvt(p: Plant, env: Env): (r: Plant)
    requires p.Valid()
    ensures r.Valid()
  {
    var q := Remember(p.(error := VoltOverError));
    SendEvent(q.(bits := q.bits.(overVolt := true)), VoltOver, env)
  }

  function OnVoltUnderEvt(p: Plant, env: Env): (r: Plant)
    requires p.Valid()
    ensures r.Valid()
  {
    var q := Remember(p.(error := VoltUnderError));
    SendEvent(q.(bits := q.bits.(underVolt := true)), VoltUnder, env)
  }

  function OnRecoveryEvt(p: Plant, env: Env): (r: Plant)
    requires p.Valid()
    ensures r.Valid()
  {
    SendEvent(p.(error := NoError, bits := NO_BITS), Recovery, env)
  }

  /** All faults gone: recover, and go on running when that was interrupted. */
  function AutoRecover(p: Plant, env: Env): (r: Plant)
    requires p.Valid()
    ensures r.Valid()
  {
    var q := SendEvent(p.(error := NoError), Recovery, env);
    if q.prevState == Run then SendEvent(q, WorkEnable, env) else q
  }

  function OnVoltNormalEvt(p: Plant, env: Env): (r: Plant)
    requires p.Valid()
    ensures r.Valid()
  {
    var q := p.(bits := p.bits.(overVolt := false, underVolt := false));
    if q.bits == NO_BITS then AutoRecover(q, env) else q
  }

  function OnPolarityEvt(p: Plant, env: Env): (r: Plant)
    requires p.Valid()
    ensures r.Valid()
  {
    if p.bits.overCurrent && p.overcurDir != PolUnknown && env.polarity != p.overcurDir then
      var q := p.(bits := p.bits.(overCurrent := false));
      if q.bits == NO_BITS then AutoRecover(q, env) else q
    else p
  }

  /** The handling of one event of the set. */
  function OnEvent(p: Plant, e: Event, env: Env): (r: Plant)
    requires p.Valid()
    ensures r.Valid()
  {
    match e
    case OverCurrent => OnOverCurrentEvt(p, env)
    case RodLimitFault => OnRodLimitEvt(p, env)
    case VoltOver => OnVoltOverEvt(p, env)
    case VoltUnder => OnVoltUnderEvt(p, env)
    case Recovery => OnRecoveryEvt(p, env)
    case VoltNormal => OnVoltNormalEvt(p, env)
    case VoltRecoverWait => p
    case PolarityChg => OnPolarityEvt(p, env)
    case _ => SendEvent(p, e, env)
  }

  /** The order in which a set of pending events is handled, whatever the order they were raised in. */
  const ORDER: seq<Event> :=
    [OverCurrent, RodLimitFault, VoltOver, VoltUnder, FaultEvt, EmergencyEvt, Recovery, VoltNormal,
     VoltRecoverWait, PolarityChg, InitDone, WorkEnable, WorkError]

  function DispatchFrom(p: Plant, events: set<Event>, env: Env, i: nat): (r: Plant)
    requires p.Valid() && i <= |ORDER|
    ensures r.Valid()
    decreases |ORDER| - i
  {
    if i == |ORDER| then p
    else DispatchFrom(if ORDER[i] in events then OnEvent(p, ORDER[i], env) else p, events, env, i + 1)
  }

  function Dispatch(p: Plant, events: set<Event>, env: Env): (r: Plant)
    requires p.Valid()
    ensures r.Valid()
  {
    DispatchFrom(p, events, env, 0)
  }

  // ------------------------------------------------ the rod tick and the other steps

  function RodTick(p: Plant, pulses: int, tick: nat, now: nat): (r: Plant)
    requires p.Valid()
    ensures r.Valid()
  {
    var pos := TickPosition(p.pos, pulses, p.rod.req);
    var dir := if p.arb[0].enable then p.arb[0].dir else None;
    var e := Synthesize(p.rod, pos, dir, tick);
    var rod := TickRod(p.rod, e, tick);
    SendAll(p.(pos := pos, rod := rod), 0, TickCommands(p.rod.state, rod.state, now))
  }

  datatype Action =
    | DispatchAct(events: set<Event>, env: Env)
    | CommandAct(axis: nat, msg: Msg)
    | TickAct(pulses: int, tick: nat, now: nat)
    | RecoverAct

  /** Other sources send acceptable messages under their own device numbers. */
  predicate Allowed(a: Action)
  {
    a.CommandAct? ==>
      a.axis < AXES && Acceptable(a.msg) && a.msg.dev != DEV_ROD_LIMIT_FWD && a.msg.dev != DEV_ROD_LIMIT_REV
  }

  function Step(p: Plant, a: Action): (r: Plant)
    requires p.Valid() && Allowed(a)
    ensures r.Valid()
  {
    match a
    case DispatchAct(events, env) => Dispatch(p, events, env)
    case CommandAct(axis, m) => Send(p, axis, m)
    case TickAct(pulses, tick, now) => RodTick(p, pulses, tick, now)
    case RecoverAct => p.(error := NoError, bits := NO_BITS)
  }

  /** Right after power-up: both axes enabled and empty, the rod state unknown. */
  predicate Booted(p: Plant)
  {
    && p.arb == [Cleared(), Cleared()] && p.state == Init && p.prevState == Init
    && p.bits == NO_BITS && p.error == NoError && p.overcurDir == PolUnknown
    && p.rod.state == Unknown && p.rod.req == NoReq && p.log == []
  }

  ghost predicate IsRun(ps: seq<Plant>, acts: seq<Action>)
  {
    && |ps| == |acts| + 1
    && Booted(ps[0])
    && (forall i :: 0 <= i < |ps| ==> ps[i].Valid())
    && (forall i :: 0 <= i < |acts| ==> Allowed(acts[i]))
    && forall i :: 0 <= i < |acts| ==> ps[i + 1] == Step(ps[i], acts[i])
  }
}
