/** Where a recovered fault leaves the system.

The first recorded fault of an episode remembers the state it interrupted; the rod limit
fault is the exception, it remembers nothing.  When the last fault is cleared by a normal
voltage or by a polarity change, the system recovers to IDLE and goes on to RUN if that is
what was remembered.
*/
module SysRecovery {
  import opened Arbitration
  import opened Rod
  import opened SysProtocol
  import opened SysSafety

  /** A fault is recorded and s is the state to return to. */
  predicate Episode(p: Plant, s: SysState)
  {
    p.Valid() && p.bits != NO_BITS && p.state == Fault && p.prevState == s
  }

  /** No fault is recorded, and the system works. */
  predicate Working(p: Plant, s: SysState)
  {
    p.Valid() && p.bits == NO_BITS && p.state in {Idle, Run} && p.prevState == s
  }

  /** Where an automatic recovery leads. */
  function Home(s: SysState): (r: SysState)
  {
    if s == Run then Run else Idle
  }

  /** An event among FAULTS that is recorded as a fault. */
  predicate Records(p: Plant, e: Event)
    requires p.Valid()
  {
    e in FAULTS && (e == OverCurrent ==> Obstacle(p, {e}))
  }

  // ------------------------------------------------ one event

  lemma EngineKeepsMemory(p: Plant, e: Event, env: Env)
    requires p.Valid()
    ensures SendEvent(p, e, env).prevState == p.prevState
    ensures AutoRecover(p, env).prevState == p.prevState
  {
    hide SendEvent;
    SendEventFrame(p, e, env);
    var q := p.(error := NoError);
    SendEventFrame(q, Recovery, env);
    SendEventFrame(SendEvent(q, Recovery, env), WorkEnable, env);
  }

  lemma OnEventMemory(p: Plant, e: Event, env: Env)
    requires p.Valid()
    ensures OnEvent(p, e, env).prevState == Prepared(p, e, env).prevState
  {
    hide Prepared, WayOf, OnEvent, SendEvent, AutoRecover;
    OnEventWay(p, e, env);
    EngineKeepsMemory(Prepared(p, e, env), e, env);
  }

  /** An automatic recovery ends where the memory says. */
  lemma AutoLeadsHome(p: Plant, env: Env)
    requires p.Valid() && p.state in {Idle, Run, Fault}
    ensures AutoRecover(p, env).state == if p.prevState == Run || p.state == Run then Run else Idle
  {
    hide SendEvent;
    var q := p.(error := NoError);
    EventOutcome(q, Recovery, env);
    EventOutcome(SendEvent(q, Recovery, env), WorkEnable, env);
  }

  /** A fault taken while working starts an episode; voltage and over-current faults remember the state
      they interrupt, the rod limit fault leaves the memory alone. */
  lemma FaultStarts(p: Plant, e: Event, env: Env)
    requires p.Valid() && p.bits == NO_BITS && p.state in {Idle, Run} && Records(p, e)
    ensures Episode(OnEvent(p, e, env), if e == RodLimitFault then p.prevState else p.state)
  {
    hide OnEvent, OnOverCurrent;
    OnEventFields(p, e, env);
    OnEventState(p, e, env);
    OnEventMemory(p, e, env);
  }

  /** Inside an episode every event keeps it, or clears the last fault: recovery then leads to IDLE, a
      normal voltage or a polarity change to where the memory says. */
  lemma EpisodeStep(p: Plant, e: Event, env: Env, s: SysState)
    requires Episode(p, s)
    ensures var q := OnEvent(p, e, env);
      || Episode(q, s)
      || (e == Recovery && Working(q, s) && q.state == Idle)
      || (e in {VoltNormal, PolarityChg} && Working(q, s) && q.state == Home(s))
  {
    hide OnEvent, OnOverCurrent, AutoRecover, SendEvent;
    OnEventFields(p, e, env);
    OnEventState(p, e, env);
    OnEventMemory(p, e, env);
    OnEventWay(p, e, env);
    AutoLeadsHome(Prepared(p, e, env), env);
  }

  // ------------------------------------------------ a whole dispatch

  /** The event is still to be handled from index i on. */
  predicate Due(events: set<Event>, e: Event, i: nat)
  {
    e in events && i <= Place(e)
  }

  /** How a dispatch ends that clears the last fault: a work error halts; otherwise RUN when work is
      enabled or when an automatic recovery finds RUN remembered; otherwise IDLE.  A recovery event
      alone takes the chance of an automatic one. */
  function Ending(events: set<Event>, s: SysState, i: nat): (r: SysState)
  {
    if Due(events, WorkError, i) then Halted
    else if Due(events, WorkEnable, i) || (s == Run && (!Due(events, Recovery, i) || Due(events, VoltNormal, i))) then Run
    else Idle
  }

  /** After the last fault was cleared, from index i on. */
  lemma {:induction false} WorkingFrom(p: Plant, events: set<Event>, env: Env, i: nat, s: SysState)
    requires Working(p, s) && 7 <= i <= |ORDER|
    ensures var r := DispatchFrom(p, events, env, i);
      && r.bits == NO_BITS
      && r.state == (if WorkError in events && i <= 12 then Halted
                     else if p.state == Run || (WorkEnable in events && i <= 11) || (s == Run && VoltNormal in events && i <= 7) then Run
                     else Idle)
    decreases |ORDER| - i
  {
    if i == 12 {
      LastEvent(p, events, env);
    } else if i < |ORDER| {
      hide OnEvent, DispatchFrom;
      DispatchStep(p, events, env, i);
      if ORDER[i] in events {
        WorkingStep(p, ORDER[i], env, s, i);
        WorkingFrom(OnEvent(p, ORDER[i], env), events, env, i + 1, s);
      } else {
        WorkingFrom(p, events, env, i + 1, s);
      }
    }
  }

  lemma DispatchStep(p: Plant, events: set<Event>, env: Env, i: nat)
    requires p.Valid() && i < |ORDER|
    ensures DispatchFrom(p, events, env, i)
         == DispatchFrom(if ORDER[i] in events then OnEvent(p, ORDER[i], env) else p, events, env, i + 1)
  {
    hide OnEvent;
  }

  lemma LastEvent(p: Plant, events: set<Event>, env: Env)
    requires p.Valid() && p.bits == NO_BITS && p.state in {Idle, Run}
    ensures var r := DispatchFrom(p, events, env, 12);
      r.bits == NO_BITS && r.state == if WorkError in events then Halted else p.state
  {
    hide OnEvent, OnOverCurrent;
    OnEventFields(p, WorkError, env);
    OnEventState(p, WorkError, env);
    DispatchStep(p, events, env, 12);
  }

  lemma WorkingStep(p: Plant, e: Event, env: Env, s: SysState, i: nat)
    requires Working(p, s) && 7 <= i < 12 && ORDER[i] == e
    ensures var q := OnEvent(p, e, env);
      && Working(q, s)
      && q.state == if p.state == Run || e == WorkEnable || (e == VoltNormal && s == Run) then Run else Idle
  {
    hide OnEvent, OnOverCurrent, AutoRecover, SendEvent;
    assert e in {VoltNormal, VoltRecoverWait, PolarityChg, InitDone, WorkEnable};
    OnEventFields(p, e, env);
    OnEventState(p, e, env);
    OnEventMemory(p, e, env);
    OnEventWay(p, e, env);
    AutoLeadsHome(Prepared(p, e, env), env);
  }

  /** The last events of the order clear no fault. */
  lemma {:induction false} EpisodeStays(p: Plant, events: set<Event>, env: Env, i: nat, s: SysState)
    requires Episode(p, s) && 10 <= i <= |ORDER|
    ensures Episode(DispatchFrom(p, events, env, i), s)
    decreases |ORDER| - i
  {
    hide OnEvent, DispatchFrom;
    if i < |ORDER| {
      DispatchStep(p, events, env, i);
      assert ORDER[i] in {InitDone, WorkEnable, WorkError};
      EpisodeStep(p, ORDER[i], env, s);
      EpisodeStays(if ORDER[i] in events then OnEvent(p, ORDER[i], env) else p, events, env, i + 1, s);
    } else {
      DispatchEnd(p, events, env);
    }
  }

  lemma DispatchEnd(p: Plant, events: set<Event>, env: Env)
    requires p.Valid()
    ensures DispatchFrom(p, events, env, |ORDER|) == p
  {
  }

  lemma EndingNext(events: set<Event>, s: SysState, i: nat)
    requires i < 10 && (i == 6 ==> Recovery !in events)
    ensures Ending(events, s, i) == Ending(events, s, i + 1)
  {
  }

  /** What a recovery at index i leaves to do. */
  lemma EndingHere(events: set<Event>, s: SysState, i: nat, state: SysState)
    requires 6 <= i < 10 && ORDER[i] in events
    requires i == 6 ==> state == Idle
    requires i in {7, 9} ==> state == Home(s)
    requires i != 8
    ensures Ending(events, s, i) ==
      (if WorkError in events then Halted
       else if state == Run || WorkEnable in events || (s == Run && VoltNormal in events && i + 1 <= 7) then Run
       else Idle)
  {
  }

  /** Inside an episode, from index i on. */
  lemma {:induction false} EpisodeFrom(p: Plant, events: set<Event>, env: Env, i: nat, s: SysState)
    requires Episode(p, s) && i <= |ORDER|
    ensures var r := DispatchFrom(p, events, env, i);
      if r.bits != NO_BITS then Episode(r, s) else r.state == Ending(events, s, i)
    decreases |ORDER| - i
  {
    hide OnEvent, DispatchFrom, Ending;
    if i >= 10 {
      EpisodeStays(p, events, env, i, s);
    } else {
      DispatchStep(p, events, env, i);
      if ORDER[i] in events {
        EpisodeTakes(p, events, env, i, s);
      } else {
        EndingNext(events, s, i);
        EpisodeFrom(p, events, env, i + 1, s);
      }
    }
  }

  lemma {:induction false} EpisodeTakes(p: Plant, events: set<Event>, env: Env, i: nat, s: SysState)
    requires Episode(p, s) && i < 10 && ORDER[i] in events
    ensures var r := DispatchFrom(OnEvent(p, ORDER[i], env), events, env, i + 1);
      if r.bits != NO_BITS then Episode(r, s) else r.state == Ending(events, s, i)
    decreases |ORDER| - i, 0
  {
    hide OnEvent, DispatchFrom, Ending, Prepared;
    var e, q := ORDER[i], OnEvent(p, ORDER[i], env);
    EpisodeStep(p, e, env, s);
    RecoveryClears(p, e, env);
    if Episode(q, s) {
      EndingNext(events, s, i);
      EpisodeFrom(q, events, env, i + 1, s);
    } else {
      EndingHere(events, s, i, q.state);
      WorkingFrom(q, events, env, i + 1, s);
    }
  }

  lemma RecoveryClears(p: Plant, e: Event, env: Env)
    requires p.Valid()
    ensures e == Recovery ==> OnEvent(p, e, env).bits == NO_BITS
  {
    hide OnEvent;
    OnEventFields(p, e, env);
  }

  // ------------------------------------------------ laws of dispatches

  /** A dispatch in FAULT, any set of events: as long as a fault stays recorded the system stays in FAULT
      and the memory stays; when none is left, the ending is as given. */
  lemma EpisodeDispatch(p: Plant, events: set<Event>, env: Env, s: SysState)
    requires Episode(p, s)
    ensures var r := Dispatch(p, events, env);
      if r.bits != NO_BITS then Episode(r, s) else r.state == Ending(events, s, 0)
  {
    EpisodeFrom(p, events, env, 0, s);
  }

  /** The first recorded fault of a set, in the order of handling. */
  predicate RodLimitFirst(p: Plant, events: set<Event>)
    requires p.Valid()
  {
    RodLimitFault in events && !Obstacle(p, events)
  }

  predicate AnyRecorded(p: Plant, events: set<Event>)
    requires p.Valid()
  {
    Obstacle(p, events) || RodLimitFault in events || VoltOver in events || VoltUnder in events
  }

  /** A dispatch while working, any set of events with a fault in it: the state it interrupts is
      remembered, unless a rod limit fault is recorded first. */
  lemma FaultDispatch(p: Plant, events: set<Event>, env: Env)
    requires p.Valid() && p.bits == NO_BITS && p.state in {Idle, Run} && AnyRecorded(p, events)
    ensures var r, s := Dispatch(p, events, env), if RodLimitFirst(p, events) then p.prevState else p.state;
      if r.bits != NO_BITS then Episode(r, s) else r.state == Ending(events, s, 0)
  {
    hide OnEvent, DispatchFrom, OnOverCurrent, Ending;
    DispatchStep(p, events, env, 0);
    if Obstacle(p, events) {
      FaultStarts(p, OverCurrent, env);
      EpisodeFrom(OnEvent(p, OverCurrent, env), events, env, 1, p.state);
      EndingEarly(events, p.state, 1);
    } else {
      if OverCurrent in events {
        NotRecorded(p, events, env);
      }
      FirstFault(p, if OverCurrent in events then OnEvent(p, OverCurrent, env) else p, events, env, 1);
    }
  }

  lemma EndingEarly(events: set<Event>, s: SysState, i: nat)
    requires i <= 6
    ensures Ending(events, s, i) == Ending(events, s, 0)
  {
  }

  /** An over-current that is ignored or taken as a limit records nothing. */
  lemma NotRecorded(p: Plant, events: set<Event>, env: Env)
    requires p.Valid() && OverCurrent in events && !Obstacle(p, events)
    ensures var q := OnEvent(p, OverCurrent, env);
      q.bits == p.bits && q.state == p.state && q.prevState == p.prevState
  {
    hide OnEvent, OnOverCurrent, SendEvent;
    OnEventFields(p, OverCurrent, env);
    OnEventMemory(p, OverCurrent, env);
    OnEventWay(p, OverCurrent, env);
  }

  /** The faults other than over-current, in the order of handling; p0 is where the dispatch began. */
  lemma {:induction false} FirstFault(p0: Plant, p: Plant, events: set<Event>, env: Env, i: nat)
    requires p.Valid() && p.bits == NO_BITS && p.state in {Idle, Run} && 1 <= i < 4
    requires p.state == p0.state && p.prevState == p0.prevState
    requires (i <= 1 && RodLimitFault in events) || (i <= 2 && VoltOver in events) || VoltUnder in events
    ensures var r := DispatchFrom(p, events, env, i);
      var s := if RodLimitFault in events && i <= 1 then p0.prevState else p0.state;
      if r.bits != NO_BITS then Episode(r, s) else r.state == Ending(events, s, 0)
    decreases 4 - i
  {
    hide OnEvent, DispatchFrom, OnOverCurrent, Ending;
    DispatchStep(p, events, env, i);
    var e := ORDER[i];
    assert e == if i == 1 then RodLimitFault else if i == 2 then VoltOver else VoltUnder;
    if e in events {
      var s := if e == RodLimitFault then p.prevState else p.state;
      FaultStarts(p, e, env);
      EpisodeFrom(OnEvent(p, e, env), events, env, i + 1, s);
      EndingEarly(events, s, i + 1);
    } else {
      FirstFault(p0, p, events, env, i + 1);
    }
  }

  // ------------------------------------------------ every run

  lemma NonDispatchKeeps(p: Plant, a: Action, s: SysState)
    requires Episode(p, s) && Allowed(a) && !a.DispatchAct? && !a.RecoverAct?
    ensures Episode(Step(p, a), s)
  {
    hide Handle, TickPosition, Synthesize, TickRod, TickCommands, SendAll;
  }

  /** From the fault to any later state with a fault still recorded. */
  lemma {:induction false} RunEpisode(ps: seq<Plant>, acts: seq<Action>, i: nat, j: nat, s: SysState)
    requires IsRun(ps, acts) && i <= j < |ps| && Episode(ps[i], s)
    requires forall k :: i <= k <= j ==> ps[k].bits != NO_BITS
    ensures Episode(ps[j], s)
    decreases j
  {
    if i < j {
      hide Step, Dispatch;
      RunEpisode(ps, acts, i, j - 1, s);
      var p, a := ps[j - 1], acts[j - 1];
      assert ps[j] == Step(p, a);
      match a
      case DispatchAct(events, env) => StepDispatch(p, events, env); EpisodeDispatch(p, events, env, s);
      case RecoverAct => StepRecover(p);
      case _ => NonDispatchKeeps(p, a, s);
    }
  }

  lemma StepDispatch(p: Plant, events: set<Event>, env: Env)
    requires p.Valid()
    ensures Step(p, DispatchAct(events, env)) == Dispatch(p, events, env)
  {
  }

  lemma StepRecover(p: Plant)
    requires p.Valid()
    ensures Step(p, RecoverAct) == p.(error := NoError, bits := NO_BITS)
  {
  }

  /** In every run: a dispatch records faults while the system works, a later dispatch clears the last of
      them, some fault being recorded all the time between.  The system then returns to the state the
      first fault interrupted; only a recovery, work-enable or work-error event in the clearing set, or
      a rod limit fault recorded first, changes that. */
  lemma ReturnsToWork(ps: seq<Plant>, acts: seq<Action>, i: nat, j: nat)
    requires IsRun(ps, acts) && i < j < |acts| && acts[i].DispatchAct? && acts[j].DispatchAct?
    requires ps[i].bits == NO_BITS && ps[i].state in {Idle, Run} && AnyRecorded(ps[i], acts[i].events)
    requires (forall k :: i < k <= j ==> ps[k].bits != NO_BITS) && ps[j + 1].bits == NO_BITS
    ensures var s := if RodLimitFirst(ps[i], acts[i].events) then ps[i].prevState else ps[i].state;
      ps[j + 1].state == Ending(acts[j].events, s, 0)
    ensures !RodLimitFirst(ps[i], acts[i].events) && acts[j].events !! {Recovery, WorkEnable, WorkError} ==>
      ps[j + 1].state == ps[i].state
  {
    hide Dispatch, Step, OnOverCurrent;
    var s := if RodLimitFirst(ps[i], acts[i].events) then ps[i].prevState else ps[i].state;
    StepDispatch(ps[i], acts[i].events, acts[i].env);
    FaultDispatch(ps[i], acts[i].events, acts[i].env);
    assert ps[i + 1] == Step(ps[i], acts[i]);
    RunEpisode(ps, acts, i + 1, j, s);
    StepDispatch(ps[j], acts[j].events, acts[j].env);
    EpisodeDispatch(ps[j], acts[j].events, acts[j].env, s);
    assert ps[j + 1] == Step(ps[j], acts[j]);
  }

  lemma {:induction false} UnlockNeedsIdle(log: seq<Note>, log': seq<Note>)
    requires log <= log' && Locked(log) && !Locked(log')
    ensures Enter(Idle) in log'[|log|..]
    decreases |log'|
  {
    var last := log'[|log'| - 1];
    assert log' != log;
    assert last in log'[|log|..];
    if last != Enter(Idle) {
      var before := log'[..|log'| - 1];
      UnlockNeedsIdle(log, before);
      assert log'[|log|..] == before[|log|..] + [last];
    }
  }

  /** Leaving FAULT passes through IDLE, so the system comes back with every queue empty: also in RUN the
      motor rests until a new command arrives. */
  lemma ReturnsEmpty(ps: seq<Plant>, acts: seq<Action>, j: nat)
    requires IsRun(ps, acts) && j < |acts| && ps[j].state == Fault && ps[j + 1].state != Fault
    ensures ps[j + 1].arb == [Cleared(), Cleared()]
  {
    hide StopsWhileLocked, Locked, Step;
    RunLock(ps, acts, j);
    RunLock(ps, acts, j + 1);
    LogGrows(ps, acts, j);
    UnlockNeedsIdle(ps[j].log, ps[j + 1].log);
    IdleForgets(ps, acts, j);
  }

  lemma LogGrows(ps: seq<Plant>, acts: seq<Action>, j: nat)
    requires IsRun(ps, acts) && j < |acts|
    ensures ps[j].log <= ps[j + 1].log
  {
    hide Handle, DispatchFrom, SendAll, TickPosition, Synthesize, TickRod, TickCommands;
    var p := ps[j];
    match acts[j]
    case DispatchAct(events, env) => DispatchForgets(p, events, env, 0);
    case CommandAct(axis, m) =>
    case TickAct(pulses, tick, now) =>
      var pos := TickPosition(p.pos, pulses, p.rod.req);
      var dir := if p.arb[0].enable then p.arb[0].dir else None;
      var rod := TickRod(p.rod, Synthesize(p.rod, pos, dir, tick), tick);
      SendAllNotes(p.(pos := pos, rod := rod), 0, TickCommands(p.rod.state, rod.state, now));
    case RecoverAct =>
  }

  /** RUN is never entered out of FAULT, so the commands meant for that case are never sent. */
  lemma RunNotFromFault(s: SysState, e: Event)
    ensures s != Run && Target(s, e) == Run ==> s in {Idle, Halted}
  {
  }

  // ------------------------------------------------ what each event does

  const STOPPING: set<Event> := {FaultEvt, EmergencyEvt, VoltOver, VoltUnder, OverCurrent, RodLimitFault}

  /** The state an outermost event ends in. */
  lemma StateAfter(p: Plant, e: Event, env: Env)
    requires p.Valid() && p.state != Emergency
    ensures var t := SendEvent(p, e, env).state;
      match p.state
      case Init => t == if e == InitDone then Idle else Init
      case Fault => t == if e == Recovery then Idle else Fault
      case Halted => t == if e == WorkEnable then Run else if e == Recovery then Idle else Halted
      case _ => t == if e in STOPPING then Fault else if e == WorkError then Halted else if e == WorkEnable then Run else p.state
  {
    SendEventState(p, e, env);
    hide SendEvent;
  }

  /** Nothing allowed, nothing driven. */
  predicate AtRest(a: Arb)
  {
    a.allowFwd == [] && a.allowRev == [] && a.dir == None && !a.running && !a.enable
  }

  lemma LockRests(p: Plant, axis: nat, now: nat)
    requires p.Valid() && axis < AXES
    ensures var q := LockAxis(p, axis, now);
      AtRest(q.arb[axis]) && forall i :: 0 <= i < AXES && i != axis ==> q.arb[i] == p.arb[i]
  {
  }

  /** Whatever leads to FAULT leaves both axes disabled and at rest, with no command remembered. */
  lemma FaultEmpties(p: Plant, e: Event, env: Env)
    requires p.Valid() && p.state in {Idle, Run} && e in STOPPING
    ensures var q := SendEvent(p, e, env); AtRest(q.arb[0]) && AtRest(q.arb[1])
  {
    hide Send, LockAxis, Cleared;
    if e == FaultEvt {
      IntoFault(Switch(p, Fault), env);
    } else {
      var q := Switch(p, Emergency);
      var r := Send(Send(q, 0, EmergencyMsg(env.now)), 1, EmergencyMsg(env.now));
      assert SendEvent(r, FaultEvt, env) == LockAxis(LockAxis(Switch(r, Fault), 0, env.now), 1, env.now);
      IntoFault(Switch(r, Fault), env);
    }
  }

  lemma IntoFault(p: Plant, env: Env)
    requires p.Valid()
    ensures var q := LockAxis(LockAxis(p, 0, env.now), 1, env.now); AtRest(q.arb[0]) && AtRest(q.arb[1])
  {
    hide LockAxis;
    LockRests(p, 0, env.now);
    LockRests(LockAxis(p, 0, env.now), 1, env.now);
  }

  /** A single recorded fault sets its own bit and no other, and names itself in the error code; the
      return of a normal voltage clears the code with the last bit. */
  lemma ErrorNamesFault(p: Plant, e: Event, env: Env)
    requires p.Valid() && p.bits == NO_BITS && p.state != Emergency && Records(p, e)
    ensures var q := Dispatch(p, {e}, env);
      && q.bits == Bits(e == OverCurrent, e == VoltOver, e == VoltUnder, e == RodLimitFault)
      && (e == OverCurrent ==> q.error == OverCurrentError) && (e == VoltOver ==> q.error == VoltOverError)
      && (e == VoltUnder ==> q.error == VoltUnderError) && (e == RodLimitFault ==> q.error == RodLimitError)
  {
    DispatchOne(p, e, env);
    OnEventWay(p, e, env);
    hide Dispatch, OnEvent, SendEvent, OnOverCurrent;
    SendEventFrame(Prepared(p, e, env), e, env);
  }

  lemma ErrorCleared(p: Plant, env: Env)
    requires p.Valid() && p.bits.overCurrent == false && p.bits.rodLimit == false
    ensures var q := Dispatch(p, {VoltNormal}, env); q.bits == NO_BITS && q.error == NoError
  {
    DispatchOne(p, VoltNormal, env);
    OnEventWay(p, VoltNormal, env);
    hide Dispatch, OnEvent, SendEvent;
    var q := Prepared(p, VoltNormal, env).(error := NoError);
    SendEventFrame(q, Recovery, env);
    SendEventFrame(SendEvent(q, Recovery, env), WorkEnable, env);
  }

  // ------------------------------------------------ manual recovery

  /** What the manual recovery sends after clearing the faults. */
  function RecoverEvents(p: Plant): (events: set<Event>)
  {
    if p.prevState == Run then {Recovery, WorkEnable} else {Recovery}
  }

  lemma {:induction false} SkipTo(p: Plant, events: set<Event>, env: Env, i: nat, k: nat)
    requires p.Valid() && i <= k <= |ORDER| && forall n :: i <= n < k ==> ORDER[n] !in events
    ensures DispatchFrom(p, events, env, i) == DispatchFrom(p, events, env, k)
    decreases k - i
  {
    hide OnEvent, DispatchFrom;
    if i < k {
      DispatchStep(p, events, env, i);
      SkipTo(p, events, env, i + 1, k);
    }
  }

  /** A manual recovery ends where the memory says. */
  lemma ManualRecovery(p: Plant, env: Env, s: SysState)
    requires Episode(p, s)
    ensures var r := Dispatch(Step(p, RecoverAct), RecoverEvents(p), env);
      r.bits == NO_BITS && r.state == Home(s)
  {
    hide OnEvent, DispatchFrom, OnOverCurrent, SendEvent;
    var q, events := Step(p, RecoverAct), RecoverEvents(p);
    SkipTo(q, events, env, 0, 6);
    DispatchStep(q, events, env, 6);
    OnEventFields(q, Recovery, env);
    OnEventState(q, Recovery, env);
    OnEventMemory(q, Recovery, env);
    WorkingFrom(OnEvent(q, Recovery, env), events, env, 7, s);
  }

  /** A rod limit fault remembers nothing: after it, a manual recovery returns to the interrupted state
      exactly when an older memory happens to say so. */
  lemma RodLimitReturn(p: Plant, env: Env)
    requires p.Valid() && p.bits == NO_BITS && p.state in {Idle, Run}
    ensures var q := Dispatch(p, {RodLimitFault}, env);
      var r := Dispatch(Step(q, RecoverAct), RecoverEvents(q), env);
      && q.bits != NO_BITS && q.state == Fault
      && r.state == Home(p.prevState)
      && (r.state == p.state <==> (p.prevState == Run <==> p.state == Run))
  {
    hide OnEvent, Dispatch, Step, OnOverCurrent;
    DispatchOne(p, RodLimitFault, env);
    FaultStarts(p, RodLimitFault, env);
    var q := Dispatch(p, {RodLimitFault}, env);
    ManualRecovery(q, env, p.prevState);
  }

  /** One pending event of a fault-free system. */
  lemma OneStep(p: Plant, e: Event, env: Env)
    requires p.Valid() && p.bits == NO_BITS && p.state != Emergency && e in {InitDone, WorkEnable, WorkError, Recovery}
    ensures var q := Dispatch(p, {e}, env);
      q.bits == NO_BITS && q.state == Target(p.state, e) && q.prevState == p.prevState
  {
    hide OnEvent, Dispatch, OnOverCurrent;
    DispatchOne(p, e, env);
    OnEventFields(p, e, env);
    OnEventState(p, e, env);
    OnEventMemory(p, e, env);
  }

  /** It can be wrong: start up, run, over-voltage and back to RUN, halt, recover to IDLE, rod limit fault
      in IDLE - and the manual recovery sets the system to RUN. */
  lemma RodLimitMisleads(p: Plant, env: Env)
    requires p.Valid() && p.bits == NO_BITS && p.state == Init
    ensures var a := Dispatch(Dispatch(p, {InitDone}, env), {WorkEnable}, env);
      var b := Dispatch(Dispatch(a, {VoltOver}, env), {VoltNormal}, env);
      var c := Dispatch(Dispatch(b, {WorkError}, env), {Recovery}, env);
      var d := Dispatch(c, {RodLimitFault}, env);
      && a.state == Run && b.state == Run && c.state == Idle && d.state == Fault
      && Dispatch(Step(d, RecoverAct), RecoverEvents(d), env).state == Run
  {
    hide OnEvent, Dispatch, Step, OnOverCurrent;
    var a0 := Dispatch(p, {InitDone}, env);
    OneStep(p, InitDone, env);
    OneStep(a0, WorkEnable, env);
    var a := Dispatch(a0, {WorkEnable}, env);
    OverVoltageReturns(a, env);
    var b := Dispatch(Dispatch(a, {VoltOver}, env), {VoltNormal}, env);
    OneStep(b, WorkError, env);
    var c0 := Dispatch(b, {WorkError}, env);
    OneStep(c0, Recovery, env);
    RodLimitReturn(Dispatch(c0, {Recovery}, env), env);
  }

  /** An over-voltage and its end, alone: from RUN back to RUN, from IDLE back to IDLE. */
  lemma OverVoltageReturns(p: Plant, env: Env)
    requires p.Valid() && p.bits == NO_BITS && p.state in {Idle, Run}
    ensures var q := Dispatch(p, {VoltOver}, env);
      var r := Dispatch(q, {VoltNormal}, env);
      q.bits != NO_BITS && q.state == Fault && r.bits == NO_BITS && r.state == p.state && r.prevState == p.state
  {
    hide OnEvent, Dispatch, OnOverCurrent, AutoRecover;
    DispatchOne(p, VoltOver, env);
    FaultStarts(p, VoltOver, env);
    OnEventFields(p, VoltOver, env);
    var q := Dispatch(p, {VoltOver}, env);
    DispatchOne(q, VoltNormal, env);
    OnEventFields(q, VoltNormal, env);
    EpisodeStep(q, VoltNormal, env, p.state);
  }
}
