/** What the rod state means: how it follows the direction the motor is driven in, when a movement
times out, what an over-current at the end of the way does, and where the position is.
*/
module RodMeaning {
  import opened Arbitration
  import opened Rod
  import opened SysProtocol
  import opened SysSafety

  /** The direction the motor is driven in, none while arbitration is disabled. */
  function Driven(p: Plant): (d: Dir)
    requires p.Valid()
  {
    if p.arb[0].enable then p.arb[0].dir else None
  }

  /** The rod has passed its soft stop, in a state that heeds it. */
  predicate PastStop(s: RodState, pos: Position)
  {
    pos.calibrated && pos.mm >= pos.stroke - pos.stopMargin && s in {Unknown, Stopped, Extending, ExtLimit}
  }

  /** The movement under way has lasted as long as the limit allows. */
  predicate Overdue(c: Ctx, tick: nat)
  {
    c.timeout != 0 && (tick - c.moveStart) % TICK_LIMIT >= c.timeout && c.state in {Extending, Retracting}
  }

  // ------------------------------------------------ the tick

  lemma TickRodState(p: Plant, pulses: int, tick: nat, now: nat)
    requires p.Valid()
    ensures var r := RodTick(p, pulses, tick, now);
      && r.pos == TickPosition(p.pos, pulses, p.rod.req)
      && r.rod == TickRod(p.rod, Synthesize(p.rod, r.pos, Driven(p), tick), tick)
  {
    hide TickPosition, Synthesize, TickRod, TickCommands, Handle;
  }

  lemma TickJump(c: Ctx, e: RodEvent, tick: nat)
    ensures TickRod(c, e, tick).state == Jump(c.state, e)
  {
  }

  /** The state after a tick without a limit request, in full: past the stop the rod is at its extended
      limit; a movement that is overdue is a fault; otherwise the rod extends exactly while driven
      forward, retracts exactly while driven in reverse and is stopped exactly while not driven, save
      that a limit is left only by driving away from it. */
  lemma FollowsDirection(p: Plant, pulses: int, tick: nat, now: nat)
    requires p.Valid() && p.rod.req == NoReq
    ensures var r := RodTick(p, pulses, tick, now);
      var s, d := p.rod.state, Driven(p);
      var free := !PastStop(s, r.pos) && !Overdue(p.rod, tick);
      && (r.rod.state == Extending <==> free && d == Fwd && s != ExtLimit)
      && (r.rod.state == Retracting <==> free && d == Rev && s != RetLimit)
      && (r.rod.state == Stopped <==> free && d == None && s !in {ExtLimit, RetLimit})
      && (r.rod.state == ExtLimit <==> PastStop(s, r.pos) || (s == ExtLimit && d != Rev))
      && (r.rod.state == RetLimit <==> s == RetLimit && d != Fwd)
      && (r.rod.state == ExtFault <==> s == Extending && Overdue(p.rod, tick) && !PastStop(s, r.pos))
      && (r.rod.state == RetFault <==> s == Retracting && Overdue(p.rod, tick))
  {
    TickRodState(p, pulses, tick, now);
    var r := RodTick(p, pulses, tick, now);
    TickJump(p.rod, Synthesize(p.rod, r.pos, Driven(p), tick), tick);
    hide RodTick, TickRod, Driven;
  }

  /** A limit request puts the rod at that limit, unless it moves the other way or has failed. */
  lemma RequestReaches(p: Plant, pulses: int, tick: nat, now: nat)
    requires p.Valid() && p.rod.req != NoReq
    ensures var r := RodTick(p, pulses, tick, now);
      && r.rod.req == NoReq
      && (p.rod.req == ReqMax && p.rod.state in {Unknown, Stopped, Extending, ExtLimit} ==> r.rod.state == ExtLimit)
      && (p.rod.req == ReqMin && p.rod.state in {Unknown, Stopped, Retracting, RetLimit} ==> r.rod.state == RetLimit)
      && (r.rod.state != p.rod.state ==> r.rod.state == if p.rod.req == ReqMax then ExtLimit else RetLimit)
  {
    TickRodState(p, pulses, tick, now);
    var r := RodTick(p, pulses, tick, now);
    hide RodTick;
  }

  // ------------------------------------------------ time limit of a movement

  /** Events leave the rod alone, except for a limit request. */
  lemma OnEventRod(p: Plant, e: Event, env: Env)
    requires p.Valid()
    ensures OnEvent(p, e, env).rod == p.rod.(req := OnEvent(p, e, env).rod.req)
    ensures OnEvent(p, e, env).pos == p.pos
  {
    OnEventWay(p, e, env);
    hide OnEvent, SendEvent, AutoRecover, WayOf, OnOverCurrent, Handle;
    var q := Prepared(p, e, env);
    SendEventFrame(q, e, env);
    AutoRod(q, env);
  }

  lemma AutoRod(p: Plant, env: Env)
    requires p.Valid()
    ensures AutoRecover(p, env).rod == p.rod && AutoRecover(p, env).pos == p.pos
  {
    hide SendEvent;
    var q := p.(error := NoError);
    SendEventFrame(q, Recovery, env);
    SendEventFrame(SendEvent(q, Recovery, env), WorkEnable, env);
  }

  lemma {:induction false} DispatchRod(p: Plant, events: set<Event>, env: Env, i: nat)
    requires p.Valid() && i <= |ORDER|
    ensures var q := DispatchFrom(p, events, env, i);
      q.rod == p.rod.(req := q.rod.req) && q.pos == p.pos
    decreases |ORDER| - i
  {
    hide OnEvent;
    if i < |ORDER| {
      OnEventRod(p, ORDER[i], env);
      DispatchRod(if ORDER[i] in events then OnEvent(p, ORDER[i], env) else p, events, env, i + 1);
    }
  }

  /** Only a tick changes the rod's state or the start of its movement. */
  lemma OnlyTicksMove(p: Plant, a: Action)
    requires p.Valid() && Allowed(a) && !a.TickAct?
    ensures var q := Step(p, a);
      q.rod.state == p.rod.state && q.rod.moveStart == p.rod.moveStart && q.rod.timeout == p.rod.timeout
  {
    hide DispatchFrom, Handle;
    match a
    case DispatchAct(events, env) => DispatchRod(p, events, env, 0);
    case _ =>
  }

  predicate Moving(p: Plant)
  {
    p.rod.state in {Extending, Retracting}
  }

  /** The movement seen at i began with the tick at k and has gone on since. */
  ghost predicate Began(ps: seq<Plant>, acts: seq<Action>, k: nat, i: nat)
    requires k < i < |ps| && i <= |acts|
  {
    && acts[k].TickAct? && ps[i].rod.moveStart == acts[k].tick && ps[k].rod.state != ps[i].rod.state
    && forall n :: k < n <= i ==> ps[n].rod.state == ps[i].rod.state
  }

  /** In every run the start of a movement is the tick that entered it. */
  lemma {:induction false} MovementBegan(ps: seq<Plant>, acts: seq<Action>, i: nat) returns (k: nat)
    requires IsRun(ps, acts) && i < |ps| && Moving(ps[i])
    ensures k < i && Began(ps, acts, k, i)
    decreases i
  {
    hide Step, TickPosition, Synthesize;
    k := i - 1;
    var p, a := ps[i - 1], acts[i - 1];
    assert ps[i] == Step(p, a);
    if a.TickAct? {
      TickStart(p, a.pulses, a.tick, a.now);
      StepTick(p, a.pulses, a.tick, a.now);
    } else {
      OnlyTicksMove(p, a);
    }
    if p.rod.state == ps[i].rod.state {
      k := MovementBegan(ps, acts, i - 1);
    }
  }

  lemma StepTick(p: Plant, pulses: int, tick: nat, now: nat)
    requires p.Valid()
    ensures Step(p, TickAct(pulses, tick, now)) == RodTick(p, pulses, tick, now)
  {
  }

  lemma TickStart(p: Plant, pulses: int, tick: nat, now: nat)
    requires p.Valid()
    ensures var r := RodTick(p, pulses, tick, now);
      && r.rod.timeout == p.rod.timeout
      && (Moving(r) ==> r.rod.moveStart == if r.rod.state == p.rod.state then p.rod.moveStart else tick)
  {
    TickRodState(p, pulses, tick, now);
    hide RodTick, Synthesize, TickPosition;
  }

  /** In every run a movement ends in its fault state exactly at the first tick that comes at least the
      time limit after the tick it began with, unless the rod passes its stop. */
  lemma TimesOut(ps: seq<Plant>, acts: seq<Action>, i: nat) returns (k: nat)
    requires IsRun(ps, acts) && i < |acts| && acts[i].TickAct? && Moving(ps[i]) && ps[i].rod.req == NoReq
    ensures k < i && Began(ps, acts, k, i)
    ensures ps[i + 1].rod.state == (if ps[i].rod.state == Extending then ExtFault else RetFault) <==>
      && ps[i].rod.timeout != 0 && (acts[i].tick - acts[k].tick) % TICK_LIMIT >= ps[i].rod.timeout
      && !PastStop(ps[i].rod.state, ps[i + 1].pos)
  {
    hide Step, RodTick;
    k := MovementBegan(ps, acts, i);
    StepTick(ps[i], acts[i].pulses, acts[i].tick, acts[i].now);
    assert ps[i + 1] == Step(ps[i], acts[i]);
    FollowsDirection(ps[i], acts[i].pulses, acts[i].tick, acts[i].now);
  }

  // ------------------------------------------------ the position

  function Sum(pulses: seq<int>): (n: int)
    decreases |pulses|
  {
    if pulses == [] then 0 else Sum(pulses[..|pulses| - 1]) + pulses[|pulses| - 1]
  }

  /** Ticks without limit requests. */
  function Ticked(pos: Position, pulses: seq<int>): (r: Position)
    decreases |pulses|
  {
    if pulses == [] then pos else TickPosition(Ticked(pos, pulses[..|pulses| - 1]), pulses[|pulses| - 1], NoReq)
  }

  lemma Distribute(a: int, b: int, c: real)
    ensures (a + b) as real * c == a as real * c + b as real * c
  {
  }

  /** Between limits the position is the start plus all pulses counted, forward ones positive; it is not
      clamped to the stroke. */
  lemma {:induction false} PositionIsSum(pos: Position, pulses: seq<int>)
    ensures var r := Ticked(pos, pulses);
      && r.mm == pos.mm + Sum(pulses) as real * pos.pulseToMm
      && r == r.(stroke := pos.stroke, pulseToMm := pos.pulseToMm, calibrated := pos.calibrated)
    decreases |pulses|
  {
    if pulses != [] {
      var before, n := pulses[..|pulses| - 1], pulses[|pulses| - 1];
      PositionIsSum(pos, before);
      Distribute(Sum(before), n, pos.pulseToMm);
    }
  }

  // ------------------------------------------------ over-current at the end of the way

  /** The window at the extended end in which an over-current means the limit. */
  predicate NearMax(pos: Position)
  {
    if pos.winD < pos.winC then pos.winD <= pos.mm <= pos.winC else pos.winC <= pos.mm
  }

  predicate NearMin(pos: Position)
  {
    if pos.winA < pos.winB then pos.winA <= pos.mm <= pos.winB else pos.mm <= pos.winA
  }

  /** An over-current while driven forward near the extended end, or before any calibration: no fault, the
      forward queue is cleared at once, and the next tick puts the rod at its extended limit with the
      position set to the full stroke. */
  lemma StallForward(before: Position, pulses: int, p: Plant, env: Env, more: int, tick: nat, now: nat)
    requires p.Valid() && p.pos == Moved(before, pulses) && Driven(p) == Fwd
    requires !p.pos.calibrated || NearMax(p.pos)
    ensures var q := Dispatch(p, {OverCurrent}, env);
      var r := RodTick(q, more, tick, now);
      && q.bits == p.bits && q.state == p.state && q.arb[0].allowFwd == []
      && (p.rod.state in {Unknown, Stopped, Extending, ExtLimit} ==> r.rod.state == ExtLimit)
      && (Moved(p.pos, more).allowed ==> r.pos.calibrated && r.pos.mm == p.pos.stroke)
  {
    DispatchOne(p, OverCurrent, env);
    hide Dispatch;
    var q := OnEvent(p, OverCurrent, env);
    ForwardLimit(before, pulses, p, env);
    RequestReaches(q, more, tick, now);
    TickRodState(q, more, tick, now);
    hide RodTick, OnEvent;
  }

  lemma ForwardLimit(before: Position, pulses: int, p: Plant, env: Env)
    requires p.Valid() && p.pos == Moved(before, pulses) && Driven(p) == Fwd
    requires !p.pos.calibrated || NearMax(p.pos)
    ensures var q := OnEvent(p, OverCurrent, env);
      q.bits == p.bits && q.state == p.state && q.arb[0].allowFwd == [] && q.rod == p.rod.(req := ReqMax) && q.pos == p.pos
  {
    hide Decide;
    DecideQueues(Process(p.arb[0], PowerMsg(DEV_POWER_POS, ClearAllowFwd, 0, env.now)));
  }

  /** The same at the retracted end. */
  lemma StallReverse(before: Position, pulses: int, p: Plant, env: Env, more: int, tick: nat, now: nat)
    requires p.Valid() && p.pos == Moved(before, pulses) && Driven(p) == Rev
    requires !p.pos.calibrated || NearMin(p.pos)
    ensures var q := Dispatch(p, {OverCurrent}, env);
      var r := RodTick(q, more, tick, now);
      && q.bits == p.bits && q.state == p.state && q.arb[0].allowRev == []
      && (p.rod.state in {Unknown, Stopped, Retracting, RetLimit} ==> r.rod.state == RetLimit)
      && (Moved(p.pos, more).allowed ==> r.pos.calibrated && r.pos.mm == 0.0)
  {
    DispatchOne(p, OverCurrent, env);
    hide Dispatch;
    var q := OnEvent(p, OverCurrent, env);
    ReverseLimit(before, pulses, p, env);
    RequestReaches(q, more, tick, now);
    TickRodState(q, more, tick, now);
    hide RodTick, OnEvent;
  }

  lemma ReverseLimit(before: Position, pulses: int, p: Plant, env: Env)
    requires p.Valid() && p.pos == Moved(before, pulses) && Driven(p) == Rev
    requires !p.pos.calibrated || NearMin(p.pos)
    ensures var q := OnEvent(p, OverCurrent, env);
      q.bits == p.bits && q.state == p.state && q.arb[0].allowRev == [] && q.rod == p.rod.(req := ReqMin) && q.pos == p.pos
  {
    hide Decide;
    DecideQueues(Process(p.arb[0], PowerMsg(DEV_POWER_POS, ClearAllowRev, 0, env.now)));
  }

  /** Anywhere else on the way it is an obstacle: the fault is recorded with the direction it was met in,
      and a working system stops in FAULT. */
  lemma Obstructed(before: Position, pulses: int, p: Plant, env: Env)
    requires p.Valid() && p.pos == Moved(before, pulses) && p.pos.calibrated && p.state in {Idle, Run}
    requires (Driven(p) == Fwd && !NearMax(p.pos)) || (Driven(p) == Rev && !NearMin(p.pos))
    ensures var q := Dispatch(p, {OverCurrent}, env);
      q.bits.overCurrent && q.state == Fault && q.overcurDir == if Driven(p) == Fwd then PolFwd else PolRev
  {
    DispatchOne(p, OverCurrent, env);
    OnEventFields(p, OverCurrent, env);
    OnEventState(p, OverCurrent, env);
    hide Dispatch, OnEvent;
  }

  /** Without a driven direction an over-current means nothing. */
  lemma IdleCurrentIgnored(p: Plant, env: Env)
    requires p.Valid() && Driven(p) == None
    ensures Dispatch(p, {OverCurrent}, env) == p
  {
    DispatchOne(p, OverCurrent, env);
    hide Dispatch;
  }
}
