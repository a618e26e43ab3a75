/** The push-rod: position from motor pulses, calibration at the limits, and the state machine
that turns direction and limit events into rod states.  Lengths are reals.
*/
module Rod {
  import opened Arbitration

  datatype RodState = Unknown | Stopped | Extending | ExtLimit | ExtFault | Retracting | RetLimit | RetFault

  datatype RodEvent = CmdStop | CmdExtend | CmdRetract | AtMax | AtMin | Timeout | SensorFault

  datatype CalibReq = NoReq | ReqMax | ReqMin

  datatype Position = Position(
    mm: real, calibrated: bool, pending: bool, allowed: bool, zoneMin: bool, zoneMax: bool,
    minHit: bool, maxHit: bool,
    stroke: real, pulseToMm: real, winA: real, winB: real, winC: real, winD: real, stopMargin: real)

  /** State machine, pending calibration request, start of the movement and what was announced. */
  datatype Ctx = Ctx(state: RodState, req: CalibReq, moveStart: nat, timeout: nat, extSent: bool, retSent: bool)

  const TICK_LIMIT: nat := 0x1_0000_0000

  /** The transition table; events without a row change nothing. */
  function Jump(st: RodState, e: RodEvent): (t: RodState)
  {
    match st
    case Unknown =>
      (match e case CmdStop => Stopped case CmdExtend => Extending case CmdRetract => Retracting
       case AtMax => ExtLimit case AtMin => RetLimit case _ => st)
    case Stopped =>
      (match e case CmdExtend => Extending case CmdRetract => Retracting
       case AtMax => ExtLimit case AtMin => RetLimit case _ => st)
    case Extending =>
      (match e case CmdStop => Stopped case CmdRetract => Retracting case AtMax => ExtLimit
       case Timeout => ExtFault case SensorFault => ExtFault case _ => st)
    case Retracting =>
      (match e case CmdStop => Stopped case CmdExtend => Extending case AtMin => RetLimit
       case Timeout => RetFault case SensorFault => RetFault case _ => st)
    case ExtLimit => (match e case CmdRetract => Retracting case _ => st)
    case RetLimit => (match e case CmdExtend => Extending case _ => st)
    case ExtFault =>
      (match e case CmdStop => Stopped case CmdExtend => Extending case CmdRetract => Retracting case _ => st)
    case RetFault =>
      (match e case CmdStop => Stopped case CmdExtend => Extending case CmdRetract => Retracting case _ => st)
  }

  function InWindow(mm: real, lo: real, hi: real): (r: bool)
  {
    lo <= mm <= hi
  }

  /** Pulses to millimetres, without clamping; then the calibration windows. */
  function Moved(p: Position, pulses: int): (r: Position)
  {
    var mm := p.mm + pulses as real * p.pulseToMm;
    var zmin := if p.winA < p.winB then InWindow(mm, p.winA, p.winB) else mm <= p.winA;
    var zmax := if p.winC > p.winD then InWindow(mm, p.winD, p.winC) else mm >= p.winC;
    p.(mm := mm, zoneMin := zmin, zoneMax := zmax, allowed := !p.calibrated || zmin || zmax)
  }

  function AtMinLimit(p: Position): (r: Position)
  {
    var q := p.(minHit := true);
    if p.allowed then q.(mm := 0.0, calibrated := true, pending := false) else q
  }

  function AtMaxLimit(p: Position): (r: Position)
  {
    var q := p.(maxHit := true);
    if p.allowed then q.(mm := p.stroke, calibrated := true, pending := false) else q
  }

  /** The position step of a tick: pulses, then the calibration a limit request asks for. */
  function TickPosition(p: Position, pulses: int, req: CalibReq): (r: Position)
  {
    var moved := Moved(p, pulses);
    match req
    case ReqMin => AtMinLimit(moved)
    case ReqMax => AtMaxLimit(moved)
    case NoReq => moved
  }

  /** The event of a tick: limit requests first, then the position stop, then the time limit, then
      the direction. */
  function Synthesize(c: Ctx, p: Position, dir: Dir, tick: nat): (e: RodEvent)
  {
    if c.req == ReqMax then AtMax
    else if c.req == ReqMin then AtMin
    else if p.calibrated && p.mm >= p.stroke - p.stopMargin && c.state in {Unknown, Stopped, Extending, ExtLimit} then AtMax
    else if c.state in {Extending, Retracting} && c.timeout != 0 && (tick - c.moveStart) % TICK_LIMIT >= c.timeout then Timeout
    else match dir case Fwd => CmdExtend case Rev => CmdRetract case None => CmdStop
  }

  /** The rod context after a tick. */
  function TickRod(c: Ctx, e: RodEvent, tick: nat): (r: Ctx)
  {
    var next := Jump(c.state, e);
    var d := c.(state := next, req := NoReq);
    if next == Extending then
      d.(moveStart := if c.state != Extending then tick else c.moveStart,
         retSent := if c.state == RetLimit then false else c.retSent)
    else if next == Retracting then
      d.(moveStart := if c.state != Retracting then tick else c.moveStart,
         extSent := if c.state == ExtLimit then false else c.extSent)
    else if next == ExtLimit && c.state != ExtLimit then d.(extSent := true)
    else if next == RetLimit && c.state != RetLimit then d.(retSent := true)
    else d
  }

  function LimitMsg(dev: nat, cmd: Cmd, now: nat): (m: Msg)
  {
    Msg(dev, PRIO_LIMIT, cmd, 0, now)
  }

  /** The arbitration commands of a tick, by the states before and after it. */
  function TickCommands(prev: RodState, cur: RodState, now: nat): (msgs: seq<Msg>)
  {
    if cur == Extending then
      (if prev == RetLimit then [LimitMsg(DEV_ROD_LIMIT_REV, UnblockRev, now)] else [])
    else if cur == Retracting then
      (if prev == ExtLimit then [LimitMsg(DEV_ROD_LIMIT_FWD, UnblockFwd, now)] else [])
    else if cur == ExtLimit then
      (if prev != ExtLimit then [LimitMsg(DEV_ROD_LIMIT_FWD, ClearAllowFwd, now)] else [])
      + [LimitMsg(DEV_ROD_LIMIT_FWD, BlockFwd, now)]
    else if cur == RetLimit then
      (if prev != RetLimit then [LimitMsg(DEV_ROD_LIMIT_REV, ClearAllowRev, now)] else [])
      + [LimitMsg(DEV_ROD_LIMIT_REV, BlockRev, now)]
    else []
  }

  datatype CalibResult = Ignored | CalibMax | CalibMin | FaultFwd | FaultRev

  /** What an over-current means: nothing while stopped or disabled, a limit reached inside the
      calibration window or before the first calibration, an obstacle elsewhere. */
  function OnOverCurrent(p: Position, a: Arb): (r: CalibResult)
  {
    if !a.enable || a.dir == None then Ignored
    else if a.dir == Fwd then (if !p.calibrated || p.zoneMax then CalibMax else FaultFwd)
    else (if !p.calibrated || p.zoneMin then CalibMin else FaultRev)
  }
}
