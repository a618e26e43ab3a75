/** The limit interlock: at an end of its travel the rod blocks the direction that leads further,
and nothing remembered from before can drive it there.

Both ends are treated at once; `d` is Fwd for the extended end and Rev for the retracted
one.
*/
module RodSafety {
  import opened Arbitration
  import opened Rod
  import opened SysProtocol
  import opened SysSafety

  function LimitDev(d: Dir): (r: nat)
  {
    if d == Fwd then DEV_ROD_LIMIT_FWD else DEV_ROD_LIMIT_REV
  }

  function LimitState(d: Dir): (r: RodState)
  {
    if d == Fwd then ExtLimit else RetLimit
  }

  function BlockOf(a: Arb, d: Dir): (q: Queue)
  {
    if d == Fwd then a.blockFwd else a.blockRev
  }

  function AllowOf(a: Arb, d: Dir): (q: Queue)
  {
    if d == Fwd then a.allowFwd else a.allowRev
  }

  ghost predicate Blocked(a: Arb, d: Dir)
  {
    Has(BlockOf(a, d), LimitDev(d))
  }

  /** The part of the arbitration invariant that needs no clock. */
  ghost predicate Core(a: Arb)
  {
    BlockOk(a.blockFwd) && BlockOk(a.blockRev) && All(a.allowFwd, RunFwd) && All(a.allowRev, RunRev)
  }

  // ------------------------------------------------ one message

  lemma RemoveAll(q: Queue, dev: nat, cmd: Cmd)
    requires All(q, cmd)
    ensures All(Remove(q, dev), cmd)
  {
    RemoveKeeps(q, dev, 0, cmd);
  }

  lemma SetAllowAll(q: Queue, block: Queue, x: Rec)
    requires All(q, x.cmd)
    ensures All(SetAllow(q, block, x), x.cmd)
  {
    hide Insert, Remove, All;
    RemoveAll(q, x.dev, x.cmd);
    InsertKeeps(Remove(q, x.dev), x, 0, x.cmd);
  }

  lemma DropCore(a: Arb, m: Msg)
    requires Core(a)
    ensures var b := DropOppositePower(a, m);
      && Core(b) && b.blockFwd == a.blockFwd && b.blockRev == a.blockRev
      && (a.allowFwd == [] ==> b.allowFwd == []) && (a.allowRev == [] ==> b.allowRev == [])
  {
    hide BlockOk, All;
    RemoveAll(a.allowRev, DEV_POWER_NEG, RunRev);
    RemoveAll(a.allowFwd, DEV_POWER_POS, RunFwd);
  }

  lemma ProcessCore(a0: Arb, m: Msg)
    requires Core(a0)
    ensures Core(Process(a0, m))
  {
    hide BlockOk, All, Remove, SetAllow, SetBlock, DropOppositePower;
    DropCore(a0, m);
    var a := DropOppositePower(a0, m);
    NoneAll();
    match m.cmd
    case RunFwd =>
      RemoveBlockOk(a.blockFwd, m.dev);
      SetAllowAll(a.allowFwd, Remove(a.blockFwd, m.dev), RecordOf(m));
    case RunRev =>
      RemoveBlockOk(a.blockRev, m.dev);
      SetAllowAll(a.allowRev, Remove(a.blockRev, m.dev), RecordOf(m));
    case Stop =>
      RemoveAll(a.allowFwd, m.dev, RunFwd);
      RemoveAll(a.allowRev, m.dev, RunRev);
    case BlockFwd => SetBlockOk(a.blockFwd, RecordOf(m).(duty := 0));
    case BlockRev => SetBlockOk(a.blockRev, RecordOf(m).(duty := 0));
    case UnblockFwd => RemoveBlockOk(a.blockFwd, m.dev);
    case UnblockRev => RemoveBlockOk(a.blockRev, m.dev);
    case _ =>
  }

  lemma NoneAll()
    ensures forall cmd :: All([], cmd)
  {
  }

  /** A message of another device leaves the limit blocks as they are. */
  lemma ForeignKeepsBlock(a0: Arb, m: Msg, d: Dir)
    requires Core(a0) && m.dev != DEV_ROD_LIMIT_FWD && m.dev != DEV_ROD_LIMIT_REV
    ensures Blocked(Process(a0, m), d) <==> Blocked(a0, d)
  {
    hide All, Has, Remove, SetAllow, SetBlock, DropOppositePower;
    DropCore(a0, m);
    RemoveBlockOk(a0.blockFwd, m.dev);
    RemoveBlockOk(a0.blockRev, m.dev);
    SetBlockOk(a0.blockFwd, RecordOf(m).(duty := 0));
    SetBlockOk(a0.blockRev, RecordOf(m).(duty := 0));
  }

  lemma DecideQueues(a: Arb)
    ensures var r := Decide(a).0;
      r.blockFwd == a.blockFwd && r.blockRev == a.blockRev && r.allowFwd == a.allowFwd && r.allowRev == a.allowRev
  {
  }

  lemma HandleCore(a: Arb, m: Msg)
    requires Core(a)
    ensures Core(Handle(a, m).0)
  {
    hide Process, Decide, BlockOk, All;
    ProcessCore(a, m);
    DecideQueues(Process(a, m));
  }

  /** With nothing allowed in a direction no decision drives that way. */
  lemma NothingToDrive(a: Arb, d: Dir)
    requires Core(a) && d != None && AllowOf(a, d) == []
    ensures !(Decide(a).1.Drive? && Decide(a).1.dir == d)
  {
  }

  /** Blocked at the limit, with nothing allowed. */
  ghost predicate Held(a: Arb, d: Dir)
  {
    Core(a) && Blocked(a, d) && AllowOf(a, d) == []
  }

  lemma HeldStays(a: Arb, m: Msg, d: Dir)
    requires Held(a, d) && d != None && m.dev != DEV_ROD_LIMIT_FWD && m.dev != DEV_ROD_LIMIT_REV
    ensures Held(Handle(a, m).0, d) && !(Handle(a, m).1.Drive? && Handle(a, m).1.dir == d)
  {
    hide BlockOk, All, Decide;
    ProcessCore(a, m);
    ForeignKeepsBlock(a, m, d);
    NothingAllowed(a, m, d);
    DecideQueues(Process(a, m));
    NothingToDrive(Process(a, m), d);
  }

  lemma NothingAllowed(a: Arb, m: Msg, d: Dir)
    requires Held(a, d) && d != None && m.dev != DEV_ROD_LIMIT_FWD && m.dev != DEV_ROD_LIMIT_REV
    ensures AllowOf(Process(a, m), d) == []
  {
    DropCore(a, m);
    RemoveBlockOk(BlockOf(a, d), m.dev);
    assert Remove(BlockOf(a, d), m.dev) != [];
  }

  // ------------------------------------------------ the commands of a tick

  /** The rod's own block takes effect when the queue has room, its own unblock always. */
  lemma OwnCommands(a: Arb, d: Dir, now: nat)
    requires Core(a) && d != None
    ensures var block := LimitMsg(LimitDev(d), if d == Fwd then BlockFwd else BlockRev, now);
      && Core(Process(a, block)) && AllowOf(Process(a, block), d) == AllowOf(a, d)
      && (Blocked(a, d) || |BlockOf(a, d)| < QUEUE_SIZE ==> Blocked(Process(a, block), d))
      && (Blocked(Process(a, block), Opposite(d)) <==> Blocked(a, Opposite(d)))
    ensures var unblock := LimitMsg(LimitDev(d), if d == Fwd then UnblockFwd else UnblockRev, now);
      && Core(Process(a, unblock)) && AllowOf(Process(a, unblock), d) == AllowOf(a, d)
      && !Blocked(Process(a, unblock), d)
      && (Blocked(Process(a, unblock), Opposite(d)) <==> Blocked(a, Opposite(d)))
    ensures var clear := LimitMsg(LimitDev(d), if d == Fwd then ClearAllowFwd else ClearAllowRev, now);
      && Core(Process(a, clear)) && AllowOf(Process(a, clear), d) == []
      && BlockOf(Process(a, clear), d) == BlockOf(a, d)
      && (Blocked(Process(a, clear), Opposite(d)) <==> Blocked(a, Opposite(d)))
  {
    hide All, Has, Remove, SetBlock, BlockOk;
    NoneAll();
    var q := BlockOf(a, d);
    RemoveBlockOk(q, LimitDev(d));
    SetBlockOk(q, RecordOf(LimitMsg(LimitDev(d), if d == Fwd then BlockFwd else BlockRev, now)).(duty := 0));
  }

  /** From p to q the log gained no decision that drives axis 0 towards d. */
  ghost predicate NoDrive(p: Plant, q: Plant, d: Dir)
  {
    && p.log <= q.log
    && forall k :: |p.log| <= k < |q.log| ==>
         !(q.log[k].Out? && q.log[k].axis == 0 && q.log[k].output.Drive? && q.log[k].output.dir == d)
  }

  lemma NoDriveThen(p: Plant, q: Plant, r: Plant, d: Dir)
    requires NoDrive(p, q, d) && NoDrive(q, r, d)
    ensures NoDrive(p, r, d)
  {
  }

  lemma OwnSend(p: Plant, m: Msg, d: Dir)
    requires p.Valid() && d != None && Core(Process(p.arb[0], m)) && AllowOf(Process(p.arb[0], m), d) == []
    ensures var q := Send(p, 0, m);
      && NoDrive(p, q, d) && AllowOf(q.arb[0], d) == []
  {
    hide Process, Decide, Core;
    DecideQueues(Process(p.arb[0], m));
    NothingToDrive(Process(p.arb[0], m), d);
  }

  lemma SendQueues(p: Plant, m: Msg)
    requires p.Valid()
    ensures var a, b := Process(p.arb[0], m), Send(p, 0, m).arb[0];
      && b.blockFwd == a.blockFwd && b.blockRev == a.blockRev
      && b.allowFwd == a.allowFwd && b.allowRev == a.allowRev
  {
    hide Process, Decide;
    DecideQueues(Process(p.arb[0], m));
  }

  /** Between ticks a limit block never outlives the limit. */
  ghost predicate LinkInv(p: Plant)
  {
    && p.Valid() && Core(p.arb[0])
    && (Blocked(p.arb[0], Fwd) ==> p.rod.state == ExtLimit)
    && (Blocked(p.arb[0], Rev) ==> p.rod.state == RetLimit)
  }

  ghost predicate Roomy(p: Plant)
    requires p.Valid()
  {
    |p.arb[0].blockFwd| < QUEUE_SIZE && |p.arb[0].blockRev| < QUEUE_SIZE
  }

  function Ticked(p: Plant, pulses: int, tick: nat): (q: Plant)
    requires p.Valid()
    ensures q.Valid() && q.arb == p.arb && q.log == p.log
  {
    var pos := TickPosition(p.pos, pulses, p.rod.req);
    var dir := if p.arb[0].enable then p.arb[0].dir else None;
    p.(pos := pos, rod := TickRod(p.rod, Synthesize(p.rod, pos, dir, tick), tick))
  }

  /** How a tick can move the rod, as far as the limits are concerned. */
  lemma TickMoves(p: Plant, pulses: int, tick: nat)
    requires p.Valid()
    ensures var cur := Ticked(p, pulses, tick).rod.state;
      && (p.rod.state == ExtLimit ==> cur == ExtLimit || cur == Retracting)
      && (p.rod.state == RetLimit ==> cur == RetLimit || cur == Extending)
  {
    hide Synthesize, TickPosition;
  }

  /** The tick at or into a limit: block, and on the way in clear first. */
  lemma LimitTick(p: Plant, d: Dir, prev: RodState, now: nat)
    requires p.Valid() && Core(p.arb[0]) && d != None && p.rod.state == LimitState(d)
    requires Blocked(p.arb[0], d) || |BlockOf(p.arb[0], d)| < QUEUE_SIZE
    requires !Blocked(p.arb[0], Opposite(d))
    ensures var q := SendAll(p, 0, TickCommands(prev, p.rod.state, now));
      && Core(q.arb[0]) && Blocked(q.arb[0], d) && !Blocked(q.arb[0], Opposite(d))
      && (prev != p.rod.state || AllowOf(p.arb[0], d) == [] ==> AllowOf(q.arb[0], d) == [] && NoDrive(p, q, d))
  {
    hide Process, Has, BlockOk, All, Send;
    var block := LimitMsg(LimitDev(d), if d == Fwd then BlockFwd else BlockRev, now);
    var clear := LimitMsg(LimitDev(d), if d == Fwd then ClearAllowFwd else ClearAllowRev, now);
    if prev == p.rod.state {
      assert TickCommands(prev, p.rod.state, now) == [block];
      assert [block][1..] == [];
      OneOwn(p, d, now);
    } else {
      assert TickCommands(prev, p.rod.state, now) == [clear, block];
      assert [clear, block][1..] == [block] && [block][1..] == [];
      OwnCommands(p.arb[0], d, now);
      SendQueues(p, clear);
      OwnSend(p, clear, d);
      var q := Send(p, 0, clear);
      assert SendAll(p, 0, [clear, block]) == SendAll(q, 0, [block]);
      assert SendAll(q, 0, [block]) == SendAll(Send(q, 0, block), 0, []);
      OneOwn(q, d, now);
      if AllowOf(q.arb[0], d) == [] {
        NoDriveThen(p, q, Send(q, 0, block), d);
      }
    }
  }

  lemma OneOwn(p: Plant, d: Dir, now: nat)
    requires p.Valid() && Core(p.arb[0]) && d != None
    requires Blocked(p.arb[0], d) || |BlockOf(p.arb[0], d)| < QUEUE_SIZE
    requires !Blocked(p.arb[0], Opposite(d))
    ensures var q := Send(p, 0, LimitMsg(LimitDev(d), if d == Fwd then BlockFwd else BlockRev, now));
      && Core(q.arb[0]) && Blocked(q.arb[0], d) && !Blocked(q.arb[0], Opposite(d))
      && (AllowOf(p.arb[0], d) == [] ==> AllowOf(q.arb[0], d) == [] && NoDrive(p, q, d))
  {
    hide Process, Has, BlockOk, All, Send;
    var block := LimitMsg(LimitDev(d), if d == Fwd then BlockFwd else BlockRev, now);
    OwnCommands(p.arb[0], d, now);
    SendQueues(p, block);
    if AllowOf(p.arb[0], d) == [] {
      OwnSend(p, block, d);
    }
  }

  /** The tick that leaves a limit lifts its block. */
  lemma ReleaseTick(p: Plant, d: Dir, now: nat)
    requires p.Valid() && Core(p.arb[0]) && d != None && !Blocked(p.arb[0], Opposite(d))
    requires p.rod.state == if d == Fwd then Retracting else Extending
    ensures var q := SendAll(p, 0, TickCommands(LimitState(d), p.rod.state, now));
      && Core(q.arb[0]) && !Blocked(q.arb[0], Fwd) && !Blocked(q.arb[0], Rev)
      && (AllowOf(p.arb[0], d) == [] ==> AllowOf(q.arb[0], d) == [] && NoDrive(p, q, d))
  {
    hide Process, Has, BlockOk, All, Send;
    var unblock := LimitMsg(LimitDev(d), if d == Fwd then UnblockFwd else UnblockRev, now);
    assert TickCommands(LimitState(d), p.rod.state, now) == [unblock];
    assert [unblock][1..] == [];
    OwnCommands(p.arb[0], d, now);
    SendQueues(p, unblock);
    if AllowOf(p.arb[0], d) == [] {
      OwnSend(p, unblock, d);
    }
  }

  /** After a tick the rod's block is in place exactly at the limit it belongs to. */
  lemma TickInterlock(p: Plant, pulses: int, tick: nat, now: nat, d: Dir)
    requires LinkInv(p) && Roomy(p) && d != None
    ensures var q := RodTick(p, pulses, tick, now);
      && Core(q.arb[0])
      && (Blocked(q.arb[0], Fwd) <==> q.rod.state == ExtLimit)
      && (Blocked(q.arb[0], Rev) <==> q.rod.state == RetLimit)
      && (p.rod.state != LimitState(d) && q.rod.state == LimitState(d) ==> AllowOf(q.arb[0], d) == [] && NoDrive(p, q, d))
      && (p.rod.state == LimitState(d) && AllowOf(p.arb[0], d) == [] ==> AllowOf(q.arb[0], d) == [] && NoDrive(p, q, d))
  {
    hide Synthesize, TickPosition, TickRod, Core, Blocked, SendAll, NoDrive;
    var r := Ticked(p, pulses, tick);
    TickMoves(p, pulses, tick);
    var cur := r.rod.state;
    assert RodTick(p, pulses, tick, now) == SendAll(r, 0, TickCommands(p.rod.state, cur, now));
    if cur == ExtLimit {
      LimitTick(r, Fwd, p.rod.state, now);
      SameLog(p, r, SendAll(r, 0, TickCommands(p.rod.state, cur, now)), Fwd);
    } else if cur == RetLimit {
      LimitTick(r, Rev, p.rod.state, now);
      SameLog(p, r, SendAll(r, 0, TickCommands(p.rod.state, cur, now)), Rev);
    } else if p.rod.state == ExtLimit {
      ReleaseTick(r, Fwd, now);
      SameLog(p, r, SendAll(r, 0, TickCommands(p.rod.state, cur, now)), Fwd);
    } else if p.rod.state == RetLimit {
      ReleaseTick(r, Rev, now);
      SameLog(p, r, SendAll(r, 0, TickCommands(p.rod.state, cur, now)), Rev);
    } else {
      QuietTick(r, p.rod.state, now);
    }
  }

  lemma SameLog(p: Plant, r: Plant, q: Plant, d: Dir)
    requires r.log == p.log
    ensures NoDrive(r, q, d) ==> NoDrive(p, q, d)
  {
  }

  lemma QuietTick(p: Plant, prev: RodState, now: nat)
    requires p.Valid() && p.rod.state !in {ExtLimit, RetLimit} && prev !in {ExtLimit, RetLimit}
    ensures SendAll(p, 0, TickCommands(prev, p.rod.state, now)) == p
  {
  }

  // ------------------------------------------------ the position stop

  /** Calibrated and within the stop margin of the full stroke. */
  predicate Beyond(p: Position)
  {
    p.calibrated && p.mm >= p.stroke - p.stopMargin
  }

  lemma TickStates(p: Plant, pulses: int, tick: nat, now: nat)
    requires p.Valid()
    ensures var q, r := RodTick(p, pulses, tick, now), Ticked(p, pulses, tick);
      q.rod == r.rod && q.pos == r.pos && q.rod.req == NoReq
  {
    hide Synthesize, TickPosition, SendAll;
  }

  /** The rod does not extend past its stop: once it is extending, the next tick that finds it beyond
      the stop puts it at the extended limit, with the forward direction blocked and cleared. */
  lemma PositionStop(p: Plant, pulses: int, tick: nat, now: nat, pulses': int, tick': nat, now': nat)
    requires LinkInv(p) && Roomy(p)
    requires RodTick(p, pulses, tick, now).rod.state in {Unknown, Stopped, Extending, ExtLimit}
    requires Roomy(RodTick(p, pulses, tick, now))
    ensures var q := RodTick(p, pulses, tick, now);
      var r := RodTick(q, pulses', tick', now');
      && (Beyond(r.pos) ==> r.rod.state == ExtLimit && Blocked(r.arb[0], Fwd))
      && (Beyond(r.pos) && q.rod.state != ExtLimit ==> r.arb[0].allowFwd == [] && NoDrive(q, r, Fwd))
      && (r.rod.state == Extending ==> !Beyond(r.pos))
  {
    hide Core, Blocked, RodTick, NoDrive;
    var q := RodTick(p, pulses, tick, now);
    TickStates(p, pulses, tick, now);
    TickStates(q, pulses', tick', now');
    TickInterlock(p, pulses, tick, now, Fwd);
    TickInterlock(q, pulses', tick', now', Fwd);
  }

  // ------------------------------------------------ commands of others and dispatches

  /** A step of the system: blocks only vanish, and a held direction stays held and undriven until
      IDLE is entered. */
  ghost predicate Foreign(p: Plant, q: Plant)
  {
    && p.Valid() && q.Valid() && p.log <= q.log && q.rod.state == p.rod.state
    && (Core(p.arb[0]) ==> Core(q.arb[0]))
    && (forall d: Dir :: Core(p.arb[0]) && Blocked(q.arb[0], d) ==> Blocked(p.arb[0], d))
    && (forall d: Dir :: d != None && Held(p.arb[0], d) && !NewIdle(p, q) ==> Held(q.arb[0], d) && NoDrive(p, q, d))
  }

  lemma ForeignThen(p: Plant, q: Plant, r: Plant)
    requires Foreign(p, q) && Foreign(q, r)
    ensures Foreign(p, r)
  {
    hide Core, Blocked, NewIdle, NoDrive;
    NewIdleJoin(p, q, r);
    forall d: Dir | d != None && Held(p.arb[0], d) && !NewIdle(p, r)
      ensures Held(r.arb[0], d) && NoDrive(p, r, d)
    {
      NoDriveThen(p, q, r, d);
    }
  }

  lemma NewIdleJoin(p: Plant, q: Plant, r: Plant)
    requires p.log <= q.log <= r.log
    ensures p.log <= r.log && (NewIdle(p, q) || NewIdle(q, r) ==> NewIdle(p, r))
  {
    assert r.log[|p.log|..] == q.log[|p.log|..] + r.log[|q.log|..];
  }

  /** Steps that touch neither arbitration nor the log. */
  lemma ForeignSame(p: Plant, q: Plant)
    requires p.Valid() && q.arb == p.arb && q.log == p.log && q.rod.state == p.rod.state
    ensures Foreign(p, q)
  {
  }

  lemma ForeignNote(p: Plant, q: Plant, n: Note)
    requires p.Valid() && q.arb == p.arb && q.log == p.log + [n] && n.Enter? && q.rod.state == p.rod.state
    ensures Foreign(p, q)
  {
  }

  lemma ForeignSend(p: Plant, axis: nat, m: Msg)
    requires p.Valid() && axis < AXES && m.dev != DEV_ROD_LIMIT_FWD && m.dev != DEV_ROD_LIMIT_REV
    ensures Foreign(p, Send(p, axis, m))
  {
    hide Handle;
    var q := Send(p, axis, m);
    if axis == 0 && Core(p.arb[0]) {
      HandleCore(p.arb[0], m);
      forall d: Dir
        ensures Blocked(q.arb[0], d) ==> Blocked(p.arb[0], d)
      {
        HandleBlocked(p.arb[0], m, d);
      }
      forall d: Dir | d != None && Held(p.arb[0], d)
        ensures Held(q.arb[0], d) && NoDrive(p, q, d)
      {
        HeldStays(p.arb[0], m, d);
      }
    }
  }

  lemma HandleBlocked(a: Arb, m: Msg, d: Dir)
    requires Core(a) && m.dev != DEV_ROD_LIMIT_FWD && m.dev != DEV_ROD_LIMIT_REV
    ensures Blocked(Handle(a, m).0, d) <==> Blocked(a, d)
  {
    hide Process, Decide, Core, Has;
    ForeignKeepsBlock(a, m, d);
    DecideQueues(Process(a, m));
  }

  lemma ForeignEnable(p: Plant, axis: nat, on: bool)
    requires p.Valid() && axis < AXES
    ensures Foreign(p, SetEnable(p, axis, on))
  {
  }

  lemma ForeignIdle(p: Plant, q: Plant)
    requires p.Valid() && q.arb == [Cleared(), Cleared()] && q.log == p.log + [Enter(Idle)] && q.rod.state == p.rod.state
    ensures Foreign(p, q)
  {
    assert q.log[|p.log|..] == [Enter(Idle)];
    HasNone();
  }

  lemma ForeignLock(p: Plant, axis: nat, now: nat)
    requires p.Valid() && axis < AXES
    ensures Foreign(p, LockAxis(p, axis, now))
  {
    hide Foreign, Send, SetEnable;
    ForeignEnable(p, axis, false);
    ForeignSend(SetEnable(p, axis, false), axis, EmergencyMsg(now));
    ForeignThen(p, SetEnable(p, axis, false), LockAxis(p, axis, now));
  }

  lemma ForeignResync(p: Plant, env: Env)
    requires p.Valid()
    ensures Foreign(p, Resync(p, env))
  {
    hide Foreign, Send, SetEnable;
    var a := SetEnable(p, 0, true);
    var q := SetEnable(a, 1, true);
    ForeignEnable(p, 0, true);
    ForeignEnable(a, 1, true);
    ForeignThen(p, a, q);
    match env.polarity
    case PolFwd =>
      var m := PowerMsg(DEV_POWER_POS, RunFwd, env.duty, env.now);
      ForeignSend(q, 0, m);
      ForeignThen(p, q, Send(q, 0, m));
    case PolRev =>
      var m := PowerMsg(DEV_POWER_NEG, RunRev, env.duty, env.now);
      ForeignSend(q, 0, m);
      ForeignThen(p, q, Send(q, 0, m));
    case PolUnknown =>
      var m, n := PowerMsg(DEV_POWER_POS, ClearAllowFwd, 0, env.now), PowerMsg(DEV_POWER_POS, ClearAllowRev, 0, env.now);
      ForeignSend(q, 0, m);
      ForeignSend(Send(q, 0, m), 0, n);
      ForeignThen(p, q, Send(q, 0, m));
      ForeignThen(p, Send(q, 0, m), Send(Send(q, 0, m), 0, n));
  }

  lemma {:induction false} ForeignEvent(p: Plant, e: Event, env: Env)
    requires p.Valid()
    ensures Foreign(p, SendEvent(p, e, env))
    decreases Rank(p.state), 1
  {
    hide Foreign, Send, Resync, LockAxis, Cleared;
    var t := Target(p.state, e);
    if t == p.state {
      ForeignSame(p, p);
    } else {
      var q := Switch(p, t);
      var r := SendEvent(p, e, env);
      ForeignNote(p, q, Enter(t));
      match t
      case Idle => ForeignIdle(p, r);
      case Run =>
        if q.previous == Fault {
          ForeignResync(q, env);
          ForeignThen(p, q, r);
        }
      case Fault =>
        var a := LockAxis(q, 0, env.now);
        ForeignLock(q, 0, env.now);
        ForeignLock(a, 1, env.now);
        ForeignThen(p, q, a);
        ForeignThen(p, a, r);
      case Emergency =>
        var m := EmergencyMsg(env.now);
        var a := Send(q, 0, m);
        var b := Send(a, 1, m);
        ForeignSend(q, 0, m);
        ForeignSend(a, 1, m);
        ForeignEvent(b, FaultEvt, env);
        assert r == EnterEmergency(q, env) == SendEvent(b, FaultEvt, env);
        ForeignThen(p, q, a);
        ForeignThen(p, a, b);
        ForeignThen(p, b, r);
      case _ =>
    }
  }

  /** An event handled after a step that touches neither arbitration nor the log. */
  lemma ForeignAfter(p: Plant, q: Plant, e: Event, env: Env)
    requires p.Valid() && q.arb == p.arb && q.log == p.log && q.rod.state == p.rod.state
    ensures q.Valid() && Foreign(p, SendEvent(q, e, env))
  {
    hide Foreign, SendEvent;
    ForeignSame(p, q);
    ForeignEvent(q, e, env);
    ForeignThen(p, q, SendEvent(q, e, env));
  }

  lemma ForeignAuto(p: Plant, q: Plant, env: Env)
    requires p.Valid() && q.arb == p.arb && q.log == p.log && q.rod.state == p.rod.state
    ensures q.Valid() && Foreign(p, AutoRecover(q, env))
  {
    hide Foreign, SendEvent;
    var r := q.(error := NoError);
    ForeignAfter(p, r, Recovery, env);
    var s := SendEvent(r, Recovery, env);
    ForeignEvent(s, WorkEnable, env);
    ForeignThen(p, s, SendEvent(s, WorkEnable, env));
  }

  lemma ForeignOnEvent(p: Plant, e: Event, env: Env)
    requires p.Valid()
    ensures Foreign(p, OnEvent(p, e, env))
  {
    hide Foreign, SendEvent, Send, AutoRecover, OnOverCurrent;
    match e
    case OverCurrent =>
      var dir := if OnOverCurrent(p.pos, p.arb[0]) == FaultFwd then PolFwd else PolRev;
      var q := Remember(p.(overcurDir := dir, error := OverCurrentError));
      ForeignAfter(p, q.(bits := q.bits.(overCurrent := true)), OverCurrent, env);
      ForeignRequest(p, ReqMax, ClearAllowFwd, env);
      ForeignRequest(p, ReqMin, ClearAllowRev, env);
      ForeignSame(p, p);
    case RodLimitFault => ForeignAfter(p, p.(error := RodLimitError, bits := p.bits.(rodLimit := true)), e, env);
    case VoltOver =>
      var q := Remember(p.(error := VoltOverError));
      ForeignAfter(p, q.(bits := q.bits.(overVolt := true)), e, env);
    case VoltUnder =>
      var q := Remember(p.(error := VoltUnderError));
      ForeignAfter(p, q.(bits := q.bits.(underVolt := true)), e, env);
    case Recovery => ForeignAfter(p, p.(error := NoError, bits := NO_BITS), e, env);
    case VoltNormal =>
      var q := p.(bits := p.bits.(overVolt := false, underVolt := false));
      ForeignAuto(p, q, env);
      ForeignSame(p, q);
    case PolarityChg =>
      var q := p.(bits := p.bits.(overCurrent := false));
      ForeignAuto(p, q, env);
      ForeignSame(p, q);
      ForeignSame(p, p);
    case VoltRecoverWait => ForeignSame(p, p);
    case _ => ForeignEvent(p, e, env);
  }

  lemma ForeignRequest(p: Plant, req: CalibReq, cmd: Cmd, env: Env)
    requires p.Valid()
    ensures Foreign(p, Send(p.(rod := p.rod.(req := req)), 0, PowerMsg(DEV_POWER_POS, cmd, 0, env.now)))
  {
    hide Foreign, Send;
    var q := p.(rod := p.rod.(req := req));
    var m := PowerMsg(DEV_POWER_POS, cmd, 0, env.now);
    ForeignSame(p, q);
    ForeignSend(q, 0, m);
    ForeignThen(p, q, Send(q, 0, m));
  }

  lemma {:induction false} ForeignDispatch(p: Plant, events: set<Event>, env: Env, i: nat)
    requires p.Valid() && i <= |ORDER|
    ensures Foreign(p, DispatchFrom(p, events, env, i))
    decreases |ORDER| - i
  {
    hide Foreign, OnEvent;
    if i == |ORDER| {
      ForeignSame(p, p);
    } else {
      ForeignOnEvent(p, ORDER[i], env);
      ForeignSame(p, p);
      var q := if ORDER[i] in events then OnEvent(p, ORDER[i], env) else p;
      ForeignDispatch(q, events, env, i + 1);
      ForeignThen(p, q, DispatchFrom(q, events, env, i + 1));
    }
  }

  /** Every step other than a rod tick is foreign to the rod's blocks. */
  lemma ForeignStep(p: Plant, a: Action)
    requires p.Valid() && Allowed(a) && !a.TickAct?
    ensures Foreign(p, Step(p, a))
  {
    hide Foreign, DispatchFrom, Send;
    match a
    case DispatchAct(events, env) => ForeignDispatch(p, events, env, 0);
    case CommandAct(axis, m) => ForeignSend(p, axis, m);
    case RecoverAct => ForeignSame(p, Step(p, a));
  }

  // ------------------------------------------------ whole runs

  /** No rod tick of the first n steps finds a block queue full. */
  ghost predicate RoomAtTicks(ps: seq<Plant>, acts: seq<Action>, n: nat)
    requires IsRun(ps, acts) && n <= |acts|
  {
    forall k :: 0 <= k < n && acts[k].TickAct? ==> Roomy(ps[k])
  }

  lemma {:induction false} RunLink(ps: seq<Plant>, acts: seq<Action>, i: nat)
    requires IsRun(ps, acts) && i <= |acts| && RoomAtTicks(ps, acts, i)
    ensures LinkInv(ps[i])
  {
    if i == 0 {
      HasNone();
    } else {
      hide Core, Blocked, Foreign, Step;
      RunLink(ps, acts, i - 1);
      StepLink(ps[i - 1], acts[i - 1]);
      assert ps[i] == Step(ps[i - 1], acts[i - 1]);
    }
  }

  lemma StepLink(p: Plant, a: Action)
    requires LinkInv(p) && Allowed(a) && (a.TickAct? ==> Roomy(p))
    ensures LinkInv(Step(p, a))
  {
    hide Core, Blocked, RodTick, Dispatch, Send;
    if a.TickAct? {
      TickInterlock(p, a.pulses, a.tick, a.now, Fwd);
    } else {
      ForeignStep(p, a);
    }
  }

  /** Limit interlock: after every rod tick of every run the rod's forward block is in place exactly
      when the rod is at the extended limit, its reverse block exactly at the retracted one. */
  lemma LimitInterlock(ps: seq<Plant>, acts: seq<Action>, i: nat)
    requires IsRun(ps, acts) && i < |acts| && acts[i].TickAct? && RoomAtTicks(ps, acts, i + 1)
    ensures Blocked(ps[i + 1].arb[0], Fwd) <==> ps[i + 1].rod.state == ExtLimit
    ensures Blocked(ps[i + 1].arb[0], Rev) <==> ps[i + 1].rod.state == RetLimit
  {
    hide Core, Blocked, RodTick;
    RunLink(ps, acts, i);
    assert ps[i + 1] == Step(ps[i], acts[i]);
    TickInterlock(ps[i], acts[i].pulses, acts[i].tick, acts[i].now, Fwd);
  }

  /** One step of a stay at a limit. */
  lemma StayStep(p: Plant, a: Action, d: Dir)
    requires LinkInv(p) && Allowed(a) && (a.TickAct? ==> Roomy(p)) && d != None
    requires p.rod.state == LimitState(d) && Held(p.arb[0], d)
    ensures var q := Step(p, a);
      p.log <= q.log && (!NewIdle(p, q) ==>
        && NoDrive(p, q, d) && AllowOf(q.arb[0], d) == []
        && (q.rod.state == LimitState(d) ==> Held(q.arb[0], d)))
  {
    hide Core, Blocked, RodTick, Dispatch, Send, NewIdle;
    if a.TickAct? {
      TickInterlock(p, a.pulses, a.tick, a.now, d);
    } else {
      ForeignStep(p, a);
    }
  }

  /** A stay: step i is the tick that reaches the limit; the rod is there at least until state j. */
  ghost predicate Stay(ps: seq<Plant>, acts: seq<Action>, i: nat, j: nat, d: Dir)
  {
    && IsRun(ps, acts) && i < j <= |acts| && acts[i].TickAct? && d != None
    && ps[i].rod.state != LimitState(d)
    && forall k :: i < k < j ==> ps[k].rod.state == LimitState(d)
  }

  lemma {:induction false} StayHolds(ps: seq<Plant>, acts: seq<Action>, i: nat, j: nat, d: Dir)
    requires Stay(ps, acts, i, j, d) && ps[i + 1].rod.state == LimitState(d) && RoomAtTicks(ps, acts, j)
    ensures ps[i].log <= ps[j].log
    ensures !NewIdle(ps[i], ps[j]) ==>
      && NoDrive(ps[i], ps[j], d) && AllowOf(ps[j].arb[0], d) == []
      && (ps[j].rod.state == LimitState(d) ==> Held(ps[j].arb[0], d))
    decreases j
  {
    hide Core, Blocked, RodTick, NoDrive, NewIdle, Dispatch, Send;
    assert ps[j] == Step(ps[j - 1], acts[j - 1]);
    RunLink(ps, acts, j - 1);
    if j == i + 1 {
      TickInterlock(ps[i], acts[i].pulses, acts[i].tick, acts[i].now, d);
      assert NoDrive(ps[i], ps[j], d);
      DriveLog(ps[i], ps[j], d);
    } else {
      StayHolds(ps, acts, i, j - 1, d);
      if !NewIdle(ps[i], ps[j - 1]) {
        StayStep(ps[j - 1], acts[j - 1], d);
        NewIdleJoin(ps[i], ps[j - 1], ps[j]);
        if !NewIdle(ps[j - 1], ps[j]) {
          NoDriveThen(ps[i], ps[j - 1], ps[j], d);
        }
        NewIdleSplit(ps[i], ps[j - 1], ps[j]);
      } else {
        StepNotes(ps[j - 1], acts[j - 1]);
        NewIdleJoin(ps[i], ps[j - 1], ps[j]);
      }
    }
  }

  lemma DriveLog(p: Plant, q: Plant, d: Dir)
    requires NoDrive(p, q, d)
    ensures p.log <= q.log
  {
  }

  lemma StepNotes(p: Plant, a: Action)
    requires p.Valid() && Allowed(a)
    ensures p.log <= Step(p, a).log
  {
    hide DispatchFrom, Send;
    match a
    case TickAct(pulses, tick, now) =>
      var r := Ticked(p, pulses, tick);
      SendAllNotes(r, 0, TickCommands(p.rod.state, r.rod.state, now));
    case DispatchAct(events, env) => DispatchForgets(p, events, env, 0);
    case CommandAct(axis, m) => ForeignSend(p, axis, m);
    case RecoverAct =>
  }

  /** A stay at a limit: from the tick that reaches the limit up to and including the step that leaves
      it, as long as IDLE is not entered, no decision drives the rod further that way, and nothing
      allowed in that direction survives - whatever was accepted before is gone. */
  lemma NothingSurvivesTheStay(ps: seq<Plant>, acts: seq<Action>, i: nat, j: nat, d: Dir)
    requires Stay(ps, acts, i, j, d) && ps[i + 1].rod.state == LimitState(d) && RoomAtTicks(ps, acts, j)
    requires !NewIdle(ps[i], ps[j])
    ensures NoDrive(ps[i], ps[j], d)
    ensures AllowOf(ps[j].arb[0], d) == []
  {
    hide NoDrive, NewIdle;
    StayHolds(ps, acts, i, j, d);
  }
}
