/** Safety of every run of the control protocol: fault lock-out and fault bits. */
module SysSafety {
  import opened Arbitration
  import opened Rod
  import opened SysProtocol

  // ------------------------------------------------ what an event leaves alone

  /** The fields the state engine and its enter actions never touch. */
  ghost predicate SameFaults(p: Plant, q: Plant)
  {
    && q.bits == p.bits && q.error == p.error && q.overcurDir == p.overcurDir
    && q.prevState == p.prevState && q.pos == p.pos && q.rod == p.rod
  }

  lemma SendEventFrame(p: Plant, e: Event, env: Env)
    requires p.Valid()
    ensures SameFaults(p, SendEvent(p, e, env))
    decreases Rank(p.state), 1
  {
    hide Handle, Cleared;
    if Target(p.state, e) == Emergency && p.state != Emergency {
      var q := Switch(p, Emergency);
      SendEventFrame(Send(Send(q, 0, EmergencyMsg(env.now)), 1, EmergencyMsg(env.now)), FaultEvt, env);
    }
  }

  /** The state after an event, all enter actions included: EMERGENCY has already become FAULT. */
  lemma SendEventState(p: Plant, e: Event, env: Env)
    requires p.Valid()
    ensures var t := Target(p.state, e);
      SendEvent(p, e, env).state == if t == Emergency && p.state != Emergency then Fault else t
    decreases Rank(p.state), 1
  {
    hide Handle, Cleared;
    if Target(p.state, e) == Emergency && p.state != Emergency {
      var q := Switch(p, Emergency);
      SendEventState(Send(Send(q, 0, EmergencyMsg(env.now)), 1, EmergencyMsg(env.now)), FaultEvt, env);
    }
  }

  /** EMERGENCY is never where an outermost event ends. */
  lemma NeverLeftInEmergency(p: Plant, e: Event, env: Env)
    requires p.Valid() && p.state != Emergency
    ensures SendEvent(p, e, env).state != Emergency
  {
    SendEventState(p, e, env);
  }

  // ------------------------------------------------ the ways an event is handled

  /** Handed to the engine, answered by a recovery, taken as a limit, or only noted in the fields. */
  datatype Way = Engine | Auto | Calib | Quiet

  function WayOf(p: Plant, e: Event, env: Env): (w: Way)
    requires p.Valid()
  {
    match e
    case OverCurrent =>
      (match OnOverCurrent(p.pos, p.arb[0]) case CalibMax => Calib case CalibMin => Calib case Ignored => Quiet case _ => Engine)
    case VoltNormal => if Prepared(p, e, env).bits == NO_BITS then Auto else Quiet
    case PolarityChg => if p.bits.overCurrent && Reversed(p, env) && Prepared(p, e, env).bits == NO_BITS then Auto else Quiet
    case VoltRecoverWait => Quiet
    case _ => Engine
  }

  /** A polarity change that reads another direction than the one the over-current was latched in. */
  predicate Reversed(p: Plant, env: Env)
  {
    p.overcurDir != PolUnknown && env.polarity != p.overcurDir
  }

  /** The fields as they stand when the engine is called: faults recorded or cleared. */
  function Prepared(p: Plant, e: Event, env: Env): (q: Plant)
    requires p.Valid()
    ensures q.Valid()
    ensures q == p.(bits := q.bits, error := q.error, overcurDir := q.overcurDir, prevState := q.prevState, rod := q.rod)
    ensures e != OverCurrent ==> q.rod == p.rod && q.overcurDir == p.overcurDir
  {
    match e
    case OverCurrent =>
      (match OnOverCurrent(p.pos, p.arb[0])
       case CalibMax => p.(rod := p.rod.(req := ReqMax))
       case CalibMin => p.(rod := p.rod.(req := ReqMin))
       case Ignored => p
       case fault =>
         var q := Remember(p.(overcurDir := if fault == FaultFwd then PolFwd else PolRev, error := OverCurrentError));
         q.(bits := q.bits.(overCurrent := true)))
    case RodLimitFault => p.(error := RodLimitError, bits := p.bits.(rodLimit := true))
    case VoltOver => var q := Remember(p.(error := VoltOverError)); q.(bits := q.bits.(overVolt := true))
    case VoltUnder => var q := Remember(p.(error := VoltUnderError)); q.(bits := q.bits.(underVolt := true))
    case Recovery => p.(error := NoError, bits := NO_BITS)
    case VoltNormal => p.(bits := p.bits.(overVolt := false, underVolt := false))
    case PolarityChg => if p.bits.overCurrent && Reversed(p, env) then p.(bits := p.bits.(overCurrent := false)) else p
    case _ => p
  }

  function CalibMsg(p: Plant, env: Env): (m: Msg)
    requires p.Valid()
  {
    PowerMsg(DEV_POWER_POS, if OnOverCurrent(p.pos, p.arb[0]) == CalibMax then ClearAllowFwd else ClearAllowRev, 0, env.now)
  }

  /** Every handler prepares the fields and then goes one of these ways. */
  lemma OnEventWay(p: Plant, e: Event, env: Env)
    requires p.Valid()
    ensures var q := Prepared(p, e, env);
      OnEvent(p, e, env) ==
        match WayOf(p, e, env)
        case Engine => SendEvent(q, e, env)
        case Auto => AutoRecover(q, env)
        case Calib => Send(q, 0, CalibMsg(p, env))
        case Quiet => q
  {
    hide SendEvent, AutoRecover, Send, OnOverCurrent;
  }

  /** Fault bits and the latched direction are settled before the engine is called. */
  lemma OnEventFields(p: Plant, e: Event, env: Env)
    requires p.Valid()
    ensures var q := OnEvent(p, e, env);
      q.bits == Prepared(p, e, env).bits && q.overcurDir == Prepared(p, e, env).overcurDir
  {
    hide Prepared, WayOf, OnEvent, SendEvent, AutoRecover;
    OnEventWay(p, e, env);
    SendEventFrame(Prepared(p, e, env), e, env);
    AutoFrame(Prepared(p, e, env), env);
  }

  lemma AutoFrame(p: Plant, env: Env)
    requires p.Valid()
    ensures AutoRecover(p, env).bits == p.bits && AutoRecover(p, env).overcurDir == p.overcurDir
  {
    hide SendEvent;
    var q := p.(error := NoError);
    SendEventFrame(q, Recovery, env);
    SendEventFrame(SendEvent(q, Recovery, env), WorkEnable, env);
  }

  // ------------------------------------------------ the lock in the log

  /** Whether the last entry to FAULT has not been followed by an entry to IDLE. */
  function Locked(log: seq<Note>): (r: bool)
    decreases |log|
  {
    if log == [] then false
    else
      var last := log[|log| - 1];
      if last == Enter(Fault) then true
      else if last == Enter(Idle) then false
      else Locked(log[..|log| - 1])
  }

  lemma LockedNext(log: seq<Note>, n: Note)
    ensures Locked(log + [n]) == if n == Enter(Fault) then true else if n == Enter(Idle) then false else Locked(log)
  {
    assert (log + [n])[..|log|] == log;
  }

  /** Every decision taken while locked is a stop. */
  ghost predicate StopsWhileLocked(log: seq<Note>)
  {
    forall j :: 0 <= j < |log| ==> log[j].Out? && Locked(log[..j]) ==> log[j].output == Halt
  }

  lemma StopsNext(log: seq<Note>, n: Note)
    requires StopsWhileLocked(log) && (n.Out? && Locked(log) ==> n.output == Halt)
    ensures StopsWhileLocked(log + [n])
  {
    var next := log + [n];
    forall j | 0 <= j < |next|
      ensures next[j].Out? && Locked(next[..j]) ==> next[j].output == Halt
    {
      if j < |log| {
        assert next[..j] == log[..j];
      } else {
        assert next[..j] == log;
      }
    }
  }

  /** Locked means enabled nowhere and every decision a stop. */
  ghost predicate LockInv(p: Plant)
  {
    && p.Valid()
    && (Locked(p.log) <==> p.state == Fault)
    && (p.arb[0].enable <==> p.state != Fault) && (p.arb[1].enable <==> p.state != Fault)
    && StopsWhileLocked(p.log)
  }

  lemma SendKeepsLock(p: Plant, axis: nat, m: Msg)
    requires p.Valid() && axis < AXES && StopsWhileLocked(p.log)
    requires Locked(p.log) ==> !p.arb[axis].enable
    ensures StopsWhileLocked(Send(p, axis, m).log) && Locked(Send(p, axis, m).log) == Locked(p.log)
    ensures forall i :: 0 <= i < AXES ==> Send(p, axis, m).arb[i].enable == p.arb[i].enable
  {
    hide Handle;
    var n := Out(axis, Handle(p.arb[axis], m).1);
    LockedNext(p.log, n);
    StopsNext(p.log, n);
  }

  lemma SwitchKeepsLock(p: Plant, t: SysState)
    requires LockInv(p)
    ensures var q := Switch(p, t);
      && StopsWhileLocked(q.log) && q.arb == p.arb
      && (Locked(q.log) <==> t == Fault || (t != Idle && p.state == Fault))
  {
    LockedNext(p.log, Enter(t));
    StopsNext(p.log, Enter(t));
  }

  lemma LockAxesKeeps(q: Plant, now: nat)
    requires q.Valid() && StopsWhileLocked(q.log) && Locked(q.log) && q.state == Fault
    ensures LockInv(LockAxis(LockAxis(q, 0, now), 1, now))
  {
    hide Locked, StopsWhileLocked, Send;
    SendKeepsLock(SetEnable(q, 0, false), 0, EmergencyMsg(now));
    var r := LockAxis(q, 0, now);
    SendKeepsLock(SetEnable(r, 1, false), 1, EmergencyMsg(now));
  }

  lemma SendEventKeepsLock(p: Plant, e: Event, env: Env)
    requires LockInv(p)
    ensures LockInv(SendEvent(p, e, env))
    decreases Rank(p.state), 1
  {
    hide Locked, StopsWhileLocked, Send, Resync, LockAxis;
    var t := Target(p.state, e);
    if t != p.state {
      var q := Switch(p, t);
      SwitchKeepsLock(p, t);
      match t
      case Fault => LockAxesKeeps(q, env.now);
      case Emergency =>
        SendKeepsLock(q, 0, EmergencyMsg(env.now));
        var r := Send(q, 0, EmergencyMsg(env.now));
        SendKeepsLock(r, 1, EmergencyMsg(env.now));
        SendEventKeepsLock(Send(r, 1, EmergencyMsg(env.now)), FaultEvt, env);
      case _ =>
    }
  }

  // ------------------------------------------------ every step keeps the lock

  lemma SendLock(p: Plant, axis: nat, m: Msg)
    requires LockInv(p) && axis < AXES
    ensures LockInv(Send(p, axis, m)) && Send(p, axis, m).state == p.state
  {
    hide Locked, StopsWhileLocked, Handle;
    SendKeepsLock(p, axis, m);
  }

  lemma {:induction false} SendAllLock(p: Plant, axis: nat, msgs: seq<Msg>)
    requires p.Valid() && LockInv(p) && axis < AXES
    ensures LockInv(SendAll(p, axis, msgs)) && SendAll(p, axis, msgs).state == p.state
    decreases |msgs|
  {
    hide LockInv, Send;
    if msgs != [] {
      SendLock(p, axis, msgs[0]);
      SendAllLock(Send(p, axis, msgs[0]), axis, msgs[1..]);
    }
  }

  lemma AutoRecoverLock(p: Plant, env: Env)
    requires LockInv(p)
    ensures LockInv(AutoRecover(p, env))
  {
    hide SendEvent, Locked, StopsWhileLocked;
    var q := p.(error := NoError);
    SendEventKeepsLock(q, Recovery, env);
    SendEventKeepsLock(SendEvent(q, Recovery, env), WorkEnable, env);
  }

  lemma OnEventLock(p: Plant, e: Event, env: Env)
    requires LockInv(p)
    ensures LockInv(OnEvent(p, e, env))
  {
    hide SendEvent, Locked, StopsWhileLocked, Send, AutoRecover, OnEvent, Prepared, WayOf;
    OnEventWay(p, e, env);
    var q := Prepared(p, e, env);
    match WayOf(p, e, env)
    case Engine => SendEventKeepsLock(q, e, env);
    case Auto => AutoRecoverLock(q, env);
    case Calib => SendLock(q, 0, CalibMsg(p, env));
    case Quiet =>
  }

  lemma {:induction false} DispatchLock(p: Plant, events: set<Event>, env: Env, i: nat)
    requires p.Valid() && LockInv(p) && i <= |ORDER|
    ensures LockInv(DispatchFrom(p, events, env, i))
    decreases |ORDER| - i
  {
    hide LockInv, OnEvent;
    if i < |ORDER| {
      OnEventLock(p, ORDER[i], env);
      DispatchLock(if ORDER[i] in events then OnEvent(p, ORDER[i], env) else p, events, env, i + 1);
    }
  }

  lemma StepLock(p: Plant, a: Action)
    requires LockInv(p) && Allowed(a)
    ensures LockInv(Step(p, a))
  {
    hide Locked, StopsWhileLocked, Send, SendAll, DispatchFrom, TickPosition, Synthesize, TickRod, TickCommands;
    match a
    case DispatchAct(events, env) => DispatchLock(p, events, env, 0);
    case CommandAct(axis, m) => SendLock(p, axis, m);
    case TickAct(pulses, tick, now) =>
      var pos := TickPosition(p.pos, pulses, p.rod.req);
      var dir := if p.arb[0].enable then p.arb[0].dir else None;
      var rod := TickRod(p.rod, Synthesize(p.rod, pos, dir, tick), tick);
      SendAllLock(p.(pos := pos, rod := rod), 0, TickCommands(p.rod.state, rod.state, now));
    case RecoverAct =>
  }

  lemma {:induction false} RunLock(ps: seq<Plant>, acts: seq<Action>, i: nat)
    requires IsRun(ps, acts) && i < |ps|
    ensures LockInv(ps[i])
  {
    if i > 0 {
      hide LockInv, Step;
      RunLock(ps, acts, i - 1);
      StepLock(ps[i - 1], acts[i - 1]);
      assert ps[i] == Step(ps[i - 1], acts[i - 1]);
    }
  }

  lemma {:induction false} StillLocked(log: seq<Note>, i: nat, j: nat)
    requires i < j <= |log| && log[i] == Enter(Fault)
    requires forall k :: i < k < j ==> log[k] != Enter(Idle)
    ensures Locked(log[..j])
    decreases j
  {
    var part := log[..j];
    assert part[|part| - 1] == log[j - 1] && part[..|part| - 1] == log[..j - 1];
    if j - 1 > i {
      StillLocked(log, i, j - 1);
    }
  }

  /** Fault lock-out: in every run, from an entry to FAULT until the next entry to IDLE every
      arbitration decision on every axis is a stop, whatever commands arrive. */
  lemma FaultLockOut(ps: seq<Plant>, acts: seq<Action>, n: nat, i: nat, j: nat)
    requires IsRun(ps, acts) && n < |ps|
    requires i < j < |ps[n].log| && ps[n].log[i] == Enter(Fault) && ps[n].log[j].Out?
    requires forall k :: i < k < j ==> ps[n].log[k] != Enter(Idle)
    ensures ps[n].log[j].output == Halt
  {
    hide Locked;
    RunLock(ps, acts, n);
    StillLocked(ps[n].log, i, j);
  }

  /** In every state of every run both axes are enabled, except in FAULT, where both are disabled. */
  lemma EnabledOutsideFault(ps: seq<Plant>, acts: seq<Action>, n: nat)
    requires IsRun(ps, acts) && n < |ps|
    ensures ps[n].arb[0].enable <==> ps[n].state != Fault
    ensures ps[n].arb[1].enable <==> ps[n].state != Fault
  {
    hide Locked, StopsWhileLocked;
    RunLock(ps, acts, n);
  }

  // ------------------------------------------------ IDLE forgets

  predicate Forgotten(p: Plant)
  {
    p.arb == [Cleared(), Cleared()] && p.state in {Idle, Run, Halted}
  }

  /** What every dispatch that passes through IDLE ends with. */
  ghost predicate NewIdle(p: Plant, q: Plant)
  {
    p.log <= q.log && Enter(Idle) in q.log[|p.log|..]
  }

  lemma NewIdleSplit(p: Plant, q: Plant, r: Plant)
    requires p.log <= q.log <= r.log
    ensures p.log <= r.log && (NewIdle(p, r) ==> NewIdle(p, q) || NewIdle(q, r))
  {
    assert r.log[|p.log|..] == q.log[|p.log|..] + r.log[|q.log|..];
  }

  lemma EventForgets(p: Plant, e: Event, env: Env)
    requires p.Valid() && e in {Recovery, InitDone, WorkEnable, WorkError}
    requires Forgotten(p) || (p.state != Idle && Target(p.state, e) == Idle)
    ensures Forgotten(SendEvent(p, e, env))
  {
  }

  /** Handling commands adds decisions to the log, and no state. */
  ghost predicate OnlyOutputs(p: Plant, q: Plant)
  {
    p.log <= q.log && forall n :: n in q.log[|p.log|..] ==> n.Out?
  }

  lemma SendOutputs(p: Plant, q: Plant, axis: nat, m: Msg)
    requires q.Valid() && axis < AXES && OnlyOutputs(p, q)
    ensures OnlyOutputs(p, Send(q, axis, m))
  {
    hide Handle;
    var n := Out(axis, Handle(q.arb[axis], m).1);
    assert (q.log + [n])[|p.log|..] == q.log[|p.log|..] + [n];
  }

  lemma LockOutputs(p: Plant, now: nat)
    requires p.Valid()
    ensures OnlyOutputs(p, LockAxis(LockAxis(p, 0, now), 1, now))
  {
    hide Send, OnlyOutputs;
    var q := SetEnable(p, 0, false);
    SameLog(p, p, q);
    SendOutputs(p, q, 0, EmergencyMsg(now));
    var r := LockAxis(p, 0, now);
    SameLog(p, r, SetEnable(r, 1, false));
    SendOutputs(p, SetEnable(r, 1, false), 1, EmergencyMsg(now));
  }

  lemma SameLog(p: Plant, q: Plant, r: Plant)
    requires (p.log == q.log || OnlyOutputs(p, q)) && r.log == q.log
    ensures OnlyOutputs(p, r)
  {
  }

  /** Outputs after entering a state: the only state noted is that one. */
  lemma EnteredOnce(p: Plant, t: SysState, r: Plant)
    requires p.Valid() && OnlyOutputs(Switch(p, t), r)
    ensures p.log <= r.log && (NewIdle(p, r) ==> t == Idle)
  {
    assert r.log[|p.log|..] == [Enter(t)] + r.log[|p.log| + 1..];
  }

  /** An event adds notes, and a note of entering IDLE only when its row of the table says so. */
  lemma {:induction false} EventNotes(p: Plant, e: Event, env: Env)
    requires p.Valid()
    ensures p.log <= SendEvent(p, e, env).log
    ensures NewIdle(p, SendEvent(p, e, env)) ==> p.state != Idle && Target(p.state, e) == Idle
    decreases Rank(p.state), 1
  {
    hide Send, Cleared, LockAxis, Resync, NewIdle, OnlyOutputs;
    var t := Target(p.state, e);
    if t == p.state {
      NothingNew(p);
    } else {
      var q := Switch(p, t);
      SameLog(q, q, q);
      match t
      case Emergency =>
        var msg := EmergencyMsg(env.now);
        SendOutputs(q, q, 0, msg);
        SendOutputs(q, Send(q, 0, msg), 1, msg);
        var r := Send(Send(q, 0, msg), 1, msg);
        EnteredOnce(p, t, r);
        EventNotes(r, FaultEvt, env);
        NewIdleSplit(p, r, SendEvent(r, FaultEvt, env));
      case Fault =>
        LockOutputs(q, env.now);
        EnteredOnce(p, t, LockAxis(LockAxis(q, 0, env.now), 1, env.now));
      case Idle =>
        SameLog(q, q, q.(arb := [Cleared(), Cleared()]));
        EnteredOnce(p, t, q.(arb := [Cleared(), Cleared()]));
      case _ => EnteredOnce(p, t, q);
    }
  }

  lemma NothingNew(p: Plant)
    ensures !NewIdle(p, p)
  {
  }

  lemma AutoForgets(p: Plant, env: Env)
    requires p.Valid()
    ensures p.log <= AutoRecover(p, env).log
    ensures Forgotten(p) || NewIdle(p, AutoRecover(p, env)) ==> Forgotten(AutoRecover(p, env))
  {
    hide SendEvent, Cleared;
    var q := p.(error := NoError);
    var r := SendEvent(q, Recovery, env);
    EventNotes(q, Recovery, env);
    EventNotes(r, WorkEnable, env);
    if Forgotten(p) || NewIdle(q, r) {
      EventForgets(q, Recovery, env);
      EventForgets(r, WorkEnable, env);
    }
    NewIdleSplit(q, r, SendEvent(r, WorkEnable, env));
  }

  const LATE: set<Event> := {Recovery, VoltNormal, VoltRecoverWait, PolarityChg, InitDone, WorkEnable, WorkError}

  /** The events that can lead to IDLE send no command afterwards. */
  lemma OnEventForgets(p: Plant, e: Event, env: Env)
    requires p.Valid()
    ensures p.log <= OnEvent(p, e, env).log
    ensures NewIdle(p, OnEvent(p, e, env)) ==> e in LATE
    ensures e in LATE && (Forgotten(p) || NewIdle(p, OnEvent(p, e, env))) ==> Forgotten(OnEvent(p, e, env))
  {
    hide SendEvent, Send, AutoRecover, OnEvent, Prepared, NewIdle, OnlyOutputs, Cleared;
    OnEventWay(p, e, env);
    var q := Prepared(p, e, env);
    SameStart(p, q, OnEvent(p, e, env));
    WayLate(p, e, env);
    match WayOf(p, e, env)
    case Engine => EngineForgets(q, e, env);
    case Auto => AutoForgets(q, env);
    case Calib =>
      SameLog(q, q, q);
      SendOutputs(q, q, 0, CalibMsg(p, env));
      OutputsNotIdle(q, Send(q, 0, CalibMsg(p, env)));
    case Quiet => NothingNew(q);
  }

  lemma SameStart(p: Plant, q: Plant, r: Plant)
    requires p.log == q.log
    ensures NewIdle(p, r) <==> NewIdle(q, r)
  {
  }

  lemma OutputsNotIdle(p: Plant, q: Plant)
    requires OnlyOutputs(p, q)
    ensures p.log <= q.log && !NewIdle(p, q)
  {
  }

  lemma WayLate(p: Plant, e: Event, env: Env)
    requires p.Valid()
    ensures WayOf(p, e, env) == Auto ==> e in LATE
    ensures WayOf(p, e, env) == Calib ==> e !in LATE
    ensures WayOf(p, e, env) == Engine && e in LATE ==> e in {Recovery, InitDone, WorkEnable, WorkError}
  {
    hide Prepared, OnOverCurrent;
  }

  lemma EngineForgets(p: Plant, e: Event, env: Env)
    requires p.Valid()
    ensures p.log <= SendEvent(p, e, env).log
    ensures NewIdle(p, SendEvent(p, e, env)) ==> e in LATE
    ensures e in {Recovery, InitDone, WorkEnable, WorkError} && (Forgotten(p) || NewIdle(p, SendEvent(p, e, env))) ==>
      Forgotten(SendEvent(p, e, env))
  {
    hide SendEvent, NewIdle, Cleared;
    EventNotes(p, e, env);
    if e in {Recovery, InitDone, WorkEnable, WorkError} && (Forgotten(p) || NewIdle(p, SendEvent(p, e, env))) {
      EventForgets(p, e, env);
    }
  }

  lemma {:induction false} DispatchForgets(p: Plant, events: set<Event>, env: Env, i: nat)
    requires p.Valid() && i <= |ORDER|
    ensures p.log <= DispatchFrom(p, events, env, i).log
    ensures NewIdle(p, DispatchFrom(p, events, env, i)) ==> Forgotten(DispatchFrom(p, events, env, i))
    ensures i >= 6 && Forgotten(p) ==> Forgotten(DispatchFrom(p, events, env, i))
    decreases |ORDER| - i
  {
    hide OnEvent, Forgotten;
    if i < |ORDER| {
      assert i >= 6 <==> ORDER[i] in LATE;
      OnEventForgets(p, ORDER[i], env);
      var q := if ORDER[i] in events then OnEvent(p, ORDER[i], env) else p;
      DispatchForgets(q, events, env, i + 1);
      NewIdleSplit(p, q, DispatchFrom(q, events, env, i + 1));
    }
  }

  /** Entering IDLE forgets: in every run, a step during which IDLE is entered ends with all queues of
      both axes empty and both axes enabled and stopped. */
  lemma IdleForgets(ps: seq<Plant>, acts: seq<Action>, i: nat)
    requires IsRun(ps, acts) && i < |acts| && NewIdle(ps[i], ps[i + 1])
    ensures ps[i + 1].arb == [Cleared(), Cleared()]
  {
    var p := ps[i];
    match acts[i]
    case DispatchAct(events, env) => DispatchForgets(p, events, env, 0);
    case CommandAct(axis, m) =>
    case TickAct(pulses, tick, now) =>
      var pos := TickPosition(p.pos, pulses, p.rod.req);
      var dir := if p.arb[0].enable then p.arb[0].dir else None;
      var rod := TickRod(p.rod, Synthesize(p.rod, pos, dir, tick), tick);
      SendAllNotes(p.(pos := pos, rod := rod), 0, TickCommands(p.rod.state, rod.state, now));
    case RecoverAct =>
  }

  lemma {:induction false} SendAllNotes(p: Plant, axis: nat, msgs: seq<Msg>)
    requires p.Valid() && axis < AXES
    ensures p.log <= SendAll(p, axis, msgs).log && !NewIdle(p, SendAll(p, axis, msgs))
    decreases |msgs|
  {
    if msgs != [] {
      var q := Send(p, axis, msgs[0]);
      SendAllNotes(q, axis, msgs[1..]);
      NewIdleSplit(p, q, SendAll(q, axis, msgs[1..]));
    }
  }

  // ------------------------------------------------ fault bits

  const FAULTS: set<Event> := {OverCurrent, RodLimitFault, VoltOver, VoltUnder}

  /** A recorded fault means that the system is in FAULT. */
  ghost predicate BitInv(p: Plant)
  {
    p.Valid() && (p.bits != NO_BITS ==> p.state == Fault) && p.state != Emergency
  }

  /** The states whose table has no row for a fault. */
  predicate Deaf(s: SysState)
  {
    s in {Init, Halted}
  }

  /** Whether the over-current event of a set is recorded as a fault. */
  predicate Obstacle(p: Plant, events: set<Event>)
    requires p.Valid()
  {
    OverCurrent in events && OnOverCurrent(p.pos, p.arb[0]) in {FaultFwd, FaultRev}
  }

  lemma EventOutcome(p: Plant, e: Event, env: Env)
    requires p.Valid()
    ensures var q := SendEvent(p, e, env);
      && SameFaults(p, q)
      && q.state == if Target(p.state, e) == Emergency && p.state != Emergency then Fault else Target(p.state, e)
  {
    SendEventFrame(p, e, env);
    SendEventState(p, e, env);
  }

  lemma AutoOutcome(p: Plant, env: Env)
    requires p.Valid() && p.state != Emergency
    ensures var q := AutoRecover(p, env);
      && q.bits == p.bits && q.overcurDir == p.overcurDir && q.rod == p.rod
      && (p.state == Init ==> q.state == Init) && (p.state != Init ==> q.state in {Idle, Run})
  {
    hide SendEvent;
    var q := p.(error := NoError);
    EventOutcome(q, Recovery, env);
    EventOutcome(SendEvent(q, Recovery, env), WorkEnable, env);
  }

  /** The state after one event, by the way it is handled. */
  lemma OnEventState(p: Plant, e: Event, env: Env)
    requires p.Valid() && p.state != Emergency
    ensures var q := OnEvent(p, e, env);
      match WayOf(p, e, env)
      case Engine => q.state == (if Target(p.state, e) == Emergency then Fault else Target(p.state, e))
      case Auto => if p.state == Init then q.state == Init else q.state in {Idle, Run}
      case _ => q.state == p.state
  {
    hide Prepared, WayOf, OnEvent, SendEvent, AutoRecover, Handle;
    OnEventWay(p, e, env);
    EventOutcome(Prepared(p, e, env), e, env);
    AutoOutcome(Prepared(p, e, env), env);
  }

  lemma OnEventBits(p: Plant, e: Event, env: Env)
    requires BitInv(p) && !(Deaf(p.state) && e in FAULTS)
    ensures BitInv(OnEvent(p, e, env))
  {
    hide OnEvent, OnOverCurrent;
    OnEventFields(p, e, env);
    OnEventState(p, e, env);
  }

  /** Faults come first in the order, so a system that starts a dispatch able to answer stays so
      while they are handled. */
  lemma {:induction false} DispatchBits(p: Plant, events: set<Event>, env: Env, i: nat)
    requires BitInv(p) && i <= |ORDER| && (i < 4 ==> !Deaf(p.state))
    ensures BitInv(DispatchFrom(p, events, env, i))
    decreases |ORDER| - i
  {
    hide OnEvent, BitInv;
    if i < |ORDER| {
      NotEmergency(p);
      var e, q := ORDER[i], if ORDER[i] in events then OnEvent(p, ORDER[i], env) else p;
      assert e in FAULTS <==> i < 4;
      OnEventBits(p, e, env);
      FaultKeepsHearing(p, e, env);
      DispatchBits(q, events, env, i + 1);
    }
  }

  lemma NotEmergency(p: Plant)
    requires BitInv(p)
    ensures p.Valid() && p.state != Emergency
  {
  }

  lemma FaultKeepsHearing(p: Plant, e: Event, env: Env)
    requires p.Valid() && p.state != Emergency
    ensures e in FAULTS && !Deaf(p.state) ==> !Deaf(OnEvent(p, e, env).state)
  {
    hide OnEvent, OnOverCurrent, Prepared;
    OnEventState(p, e, env);
  }

  /** From index i on, the events of the set leave no bit recorded. */
  predicate Gone(p: Plant, events: set<Event>, env: Env, i: nat)
  {
    || (i <= 6 && Recovery in events)
    || (&& !p.bits.rodLimit && !(i <= 1 && RodLimitFault in events)
        && (|| (i <= 7 && VoltNormal in events)
            || (!p.bits.overVolt && !p.bits.underVolt && !(i <= 2 && VoltOver in events) && !(i <= 3 && VoltUnder in events)))
        && (!p.bits.overCurrent || (i <= 9 && PolarityChg in events && Reversed(p, env))))
  }

  lemma GoneStep(p: Plant, events: set<Event>, env: Env, i: nat)
    requires p.Valid() && 1 <= i < |ORDER|
    ensures Gone(p, events, env, i) <==>
      Gone(if ORDER[i] in events then OnEvent(p, ORDER[i], env) else p, events, env, i + 1)
  {
    hide OnEvent;
    if ORDER[i] in events {
      OnEventFields(p, ORDER[i], env);
    }
  }

  lemma {:induction false} GoneFrom(p: Plant, events: set<Event>, env: Env, i: nat)
    requires p.Valid() && 1 <= i <= |ORDER|
    ensures DispatchFrom(p, events, env, i).bits == NO_BITS <==> Gone(p, events, env, i)
    decreases |ORDER| - i
  {
    if i < |ORDER| {
      hide OnEvent, Gone;
      GoneStep(p, events, env, i);
      GoneFrom(if ORDER[i] in events then OnEvent(p, ORDER[i], env) else p, events, env, i + 1);
    }
  }

  /** What a caller can see before a dispatch: the set itself takes back every fault it brings. */
  predicate TakenBack(p: Plant, events: set<Event>, env: Env)
    requires p.Valid()
  {
    || Recovery in events
    || (&& RodLimitFault !in events
        && (VoltNormal in events || (VoltOver !in events && VoltUnder !in events))
        && (Obstacle(p, events) ==>
              PolarityChg in events && env.polarity != if OnOverCurrent(p.pos, p.arb[0]) == FaultFwd then PolFwd else PolRev))
  }

  lemma TakenBackExactly(p: Plant, events: set<Event>, env: Env)
    requires p.Valid() && p.bits == NO_BITS
    ensures Dispatch(p, events, env).bits == NO_BITS <==> TakenBack(p, events, env)
  {
    hide OnEvent, OnOverCurrent;
    OnEventFields(p, OverCurrent, env);
    var q := if OverCurrent in events then OnEvent(p, OverCurrent, env) else p;
    assert ORDER[0] == OverCurrent;
    assert Dispatch(p, events, env) == DispatchFrom(q, events, env, 1);
    GoneFrom(q, events, env, 1);
  }

  /** While deaf no event of the fault half changes the state, and the later ones never lead to FAULT. */
  lemma {:induction false} DeafDispatch(p: Plant, events: set<Event>, env: Env, i: nat)
    requires p.Valid() && i <= |ORDER| && (Deaf(p.state) || (i > 6 && p.state in {Idle, Run}))
    ensures DispatchFrom(p, events, env, i).state !in {Fault, Emergency}
    decreases |ORDER| - i
  {
    hide OnEvent;
    if i < |ORDER| {
      var e := ORDER[i];
      DeafStep(p, e, env);
      assert i < 6 <==> e !in LATE;
      DeafDispatch(if e in events then OnEvent(p, e, env) else p, events, env, i + 1);
    }
  }

  lemma DeafStep(p: Plant, e: Event, env: Env)
    requires p.Valid() && (Deaf(p.state) || (e in LATE && p.state in {Idle, Run}))
    ensures var q := OnEvent(p, e, env);
      q.state in {Init, Halted, Idle, Run} && (e !in LATE ==> q.state == p.state)
  {
    hide OnEvent, OnOverCurrent, Prepared;
    OnEventState(p, e, env);
    WayLate(p, e, env);
  }

  /** When a dispatch answers its faults: some row is there for them, or the set takes them back. */
  predicate Answered(p: Plant, events: set<Event>, env: Env)
    requires p.Valid()
  {
    Deaf(p.state) ==> TakenBack(p, events, env)
  }

  /** One dispatch, any set of events: recorded faults still mean FAULT exactly when it was answered. */
  lemma AnsweredExactly(p: Plant, events: set<Event>, env: Env)
    requires BitInv(p)
    ensures BitInv(Dispatch(p, events, env)) <==> Answered(p, events, env)
  {
    hide DispatchFrom, TakenBack;
    if Deaf(p.state) {
      DeafDispatch(p, events, env, 0);
      TakenBackExactly(p, events, env);
    } else {
      DispatchBits(p, events, env, 0);
    }
  }

  lemma StepBits(p: Plant, a: Action)
    requires BitInv(p) && Allowed(a)
    ensures BitInv(Step(p, a)) <==> a.DispatchAct? ==> Answered(p, a.events, a.env)
  {
    hide Dispatch, Handle, RodTick, Answered;
    match a
    case DispatchAct(events, env) => AnsweredExactly(p, events, env);
    case CommandAct(_, _) =>
    case TickAct(pulses, tick, now) => TickFrame(p, pulses, tick, now);
    case RecoverAct =>
  }

  /** Whether every dispatch before step i was answered. */
  ghost predicate AllAnswered(ps: seq<Plant>, acts: seq<Action>, i: nat)
    requires IsRun(ps, acts) && i < |ps|
  {
    forall k :: 0 <= k < i && acts[k].DispatchAct? ==> Answered(ps[k], acts[k].events, acts[k].env)
  }

  /** Fault-bit invariant, exactly: up to any point of any run a recorded fault always meant FAULT if
      and only if every dispatch so far was answered.  A work error by itself does no harm. */
  lemma {:induction false} FaultBitsMeanFault(ps: seq<Plant>, acts: seq<Action>, i: nat)
    requires IsRun(ps, acts) && i < |ps|
    ensures (forall k :: 0 <= k <= i ==> BitInv(ps[k])) <==> AllAnswered(ps, acts, i)
    decreases i
  {
    if i > 0 {
      hide Step, Answered;
      FaultBitsMeanFault(ps, acts, i - 1);
      var p, a := ps[i - 1], acts[i - 1];
      assert ps[i] == Step(p, a);
      if AllAnswered(ps, acts, i - 1) {
        assert BitInv(p);
        StepBits(p, a);
        assert AllAnswered(ps, acts, i) <==> a.DispatchAct? ==> Answered(p, a.events, a.env);
      } else {
        assert !AllAnswered(ps, acts, i);
      }
    }
  }

  /** A run in which no fault event arrives while the system is starting up or halted. */
  lemma QuietWhileDeaf(ps: seq<Plant>, acts: seq<Action>, i: nat)
    requires IsRun(ps, acts) && i < |ps|
    requires forall k :: 0 <= k < i && acts[k].DispatchAct? && Deaf(ps[k].state) ==> acts[k].events !! FAULTS
    ensures BitInv(ps[i])
  {
    hide Step, BitInv;
    FaultBitsMeanFault(ps, acts, i);
    assert AllAnswered(ps, acts, i);
  }

  lemma TickFrame(p: Plant, pulses: int, tick: nat, now: nat)
    requires p.Valid()
    ensures var q := RodTick(p, pulses, tick, now);
      q.bits == p.bits && q.state == p.state && q.overcurDir == p.overcurDir
  {
  }

  /** Which states answer a fault: a fault event alone, with none recorded before, is always recorded,
      and leads to FAULT exactly when the system is neither starting up nor halted. */
  lemma FaultNeedsRow(p: Plant, e: Event, env: Env)
    requires p.Valid() && p.bits == NO_BITS && p.state != Emergency && e in FAULTS
    requires e == OverCurrent ==> Obstacle(p, {e})
    ensures var q := Dispatch(p, {e}, env);
      && q.bits != NO_BITS
      && (q.state == Fault <==> !Deaf(p.state))
  {
    hide OnEvent, OnOverCurrent, DispatchFrom;
    DispatchOne(p, e, env);
    OnEventFields(p, e, env);
    OnEventState(p, e, env);
  }

  /** Where an event stands in the order. */
  function Place(e: Event): (k: nat)
    ensures k < |ORDER| && ORDER[k] == e
  {
    match e
    case OverCurrent => 0 case RodLimitFault => 1 case VoltOver => 2 case VoltUnder => 3 case FaultEvt => 4
    case EmergencyEvt => 5 case Recovery => 6 case VoltNormal => 7 case VoltRecoverWait => 8
    case PolarityChg => 9 case InitDone => 10 case WorkEnable => 11 case WorkError => 12
  }

  lemma PlaceOfOrder(i: nat)
    requires i < |ORDER|
    ensures Place(ORDER[i]) == i
  {
  }

  lemma {:induction false} DispatchOneFrom(p: Plant, e: Event, env: Env, i: nat)
    requires p.Valid() && i <= |ORDER|
    ensures DispatchFrom(p, {e}, env, i) == if i <= Place(e) then OnEvent(p, e, env) else p
    decreases |ORDER| - i
  {
    hide OnEvent, Place;
    if i < |ORDER| {
      PlaceOfOrder(i);
      DispatchOneFrom(if ORDER[i] == e then OnEvent(p, e, env) else p, e, env, i + 1);
    }
  }

  /** A single pending event is handled alone. */
  lemma DispatchOne(p: Plant, e: Event, env: Env)
    requires p.Valid()
    ensures Dispatch(p, {e}, env) == OnEvent(p, e, env)
  {
    DispatchOneFrom(p, e, env, 0);
  }

  // ------------------------------------------------ the over-current bit

  /** What one event does to the over-current bit and to the latched direction. */
  lemma OnEventOverCurrent(p: Plant, e: Event, env: Env)
    requires p.Valid()
    ensures var q := OnEvent(p, e, env);
      && (e != OverCurrent ==> q.overcurDir == p.overcurDir)
      && (p.bits.overCurrent && !q.bits.overCurrent ==> e == Recovery || (e == PolarityChg && Reversed(p, env)))
  {
    hide OnEvent, OnOverCurrent;
    OnEventFields(p, e, env);
  }

  /** The over-current event comes first, so the latched direction stays for the rest of a dispatch. */
  lemma {:induction false} LatchedDirStays(p: Plant, events: set<Event>, env: Env, i: nat)
    requires p.Valid() && 1 <= i <= |ORDER|
    ensures DispatchFrom(p, events, env, i).overcurDir == p.overcurDir
    decreases |ORDER| - i
  {
    hide OnEvent;
    if i < |ORDER| {
      OnEventOverCurrent(p, ORDER[i], env);
      LatchedDirStays(if ORDER[i] in events then OnEvent(p, ORDER[i], env) else p, events, env, i + 1);
    }
  }

  lemma {:induction false} DispatchOverCurrent(p: Plant, events: set<Event>, env: Env, i: nat)
    requires p.Valid() && p.bits.overCurrent && i <= |ORDER|
    requires !DispatchFrom(p, events, env, i).bits.overCurrent
    ensures Recovery in events || (PolarityChg in events && Reversed(DispatchFrom(p, events, env, i), env))
    decreases |ORDER| - i
  {
    hide OnEvent;
    if i < |ORDER| {
      OnEventOverCurrent(p, ORDER[i], env);
      var q := if ORDER[i] in events then OnEvent(p, ORDER[i], env) else p;
      if q.bits.overCurrent {
        DispatchOverCurrent(q, events, env, i + 1);
      } else {
        LatchedDirStays(q, events, env, i + 1);
      }
    }
  }

  /** The over-current bit goes away only by a recovery event, by the manual recovery, or by a
      polarity change that reads another direction than the latched one. */
  lemma OverCurrentCleared(ps: seq<Plant>, acts: seq<Action>, i: nat)
    requires IsRun(ps, acts) && i < |acts|
    requires ps[i].bits.overCurrent && !ps[i + 1].bits.overCurrent
    ensures acts[i].RecoverAct? || acts[i].DispatchAct?
    ensures acts[i].DispatchAct? ==>
      Recovery in acts[i].events || (PolarityChg in acts[i].events && Reversed(ps[i + 1], acts[i].env))
  {
    hide DispatchFrom, Send, RodTick;
    var p := ps[i];
    assert ps[i + 1] == Step(p, acts[i]);
    match acts[i]
    case DispatchAct(events, env) => DispatchOverCurrent(p, events, env, 0);
    case CommandAct(_, _) =>
    case TickAct(pulses, tick, now) => TickFrame(p, pulses, tick, now);
    case RecoverAct =>
  }
}
