/** What the arbitration commands mean: which records a message puts into a queue, which it
withdraws, and so which devices are allowed or blocked after any sequence of messages.
*/
module ArbMeaning {
  import opened Arbitration

  function Allow(a: Arb, dir: Dir): (q: Queue)
    requires dir != None
  {
    if dir == Fwd then a.allowFwd else a.allowRev
  }

  function Block(a: Arb, dir: Dir): (q: Queue)
    requires dir != None
  {
    if dir == Fwd then a.blockFwd else a.blockRev
  }

  /** The command asks to run in this direction. */
  predicate Asks(m: Msg, dir: Dir)
  {
    m.cmd == (match dir case Fwd => RunFwd case Rev => RunRev case None => NoCmd)
  }

  /** A run command of one supply polarity replaces the other polarity's record: positive supply takes
      the negative one's record out of reverse, and the other way round. */
  predicate Supersedes(m: Msg, dir: Dir, dev: nat)
  {
    && (m.cmd == RunFwd || m.cmd == RunRev)
    && ((m.dev == DEV_POWER_POS && dir == Rev && dev == DEV_POWER_NEG)
        || (m.dev == DEV_POWER_NEG && dir == Fwd && dev == DEV_POWER_POS))
  }

  /** Nobody but the sender blocks the direction, and the queue has room once the sender's own record
      and a superseded one are taken out. */
  ghost predicate Accepted(a: Arb, m: Msg, dir: Dir)
  {
    && dir != None && Asks(m, dir)
    && (forall x :: x in Block(a, dir) ==> x.dev == m.dev)
    && (|Allow(a, dir)| < 10
        || exists x :: x in Allow(a, dir) && (x.dev == m.dev || Supersedes(m, dir, x.dev)))
  }

  /** The message takes away what dev is allowed in this direction. */
  predicate Withdraws(m: Msg, dir: Dir, dev: nat)
  {
    || m.cmd == EmergencyStop
    || (m.cmd == ClearAllowFwd && dir == Fwd) || (m.cmd == ClearAllowRev && dir == Rev)
    || (m.cmd == Stop && m.dev == dev)
    || Supersedes(m, dir, dev)
  }

  /** The message as it is remembered: all that the sender gave. */
  predicate Remembers(x: Rec, m: Msg)
  {
    x.dev == m.dev && x.prio == m.prio && x.cmd == m.cmd && x.duty == m.duty && x.time == m.time
  }

  ghost predicate Sane(a: Arb)
  {
    BlockOk(a.blockFwd) && BlockOk(a.blockRev) && BlockOk(a.allowFwd) && BlockOk(a.allowRev)
  }

  // ------------------------------------------------ queues as sets of records

  /** With unique devices, removing a device removes exactly its record. */
  lemma RemoveMembers(q: Queue, dev: nat)
    requires Unique(q)
    ensures forall x :: x in Remove(q, dev) <==> x in q && x.dev != dev
    ensures |Remove(q, dev)| == |q| - (if exists x :: x in q && x.dev == dev then 1 else 0)
  {
    hide Remove;
    var k := RemoveIndex(q, dev);
    if k < |q| {
      CutMembers(q, k);
      assert q[k] in q;
    }
  }

  lemma CutMembers(q: Queue, k: nat)
    requires Unique(q) && k < |q|
    ensures forall x :: x in Cut(q, k) <==> x in q && x.dev != q[k].dev
  {
    var r := Cut(q, k);
    forall x | x in q && x.dev != q[k].dev
      ensures x in r
    {
      var i :| 0 <= i < |q| && q[i] == x;
      assert r[if i < k then i else i - 1] == x;
    }
    forall x | x in r
      ensures x in q && x.dev != q[k].dev
    {
      var i :| 0 <= i < |r| && r[i] == x;
      assert q[if i < k then i else i + 1] == x;
    }
  }

  lemma InsertMembers(q: Queue, x: Rec)
    ensures forall y :: y in Insert(q, x) <==> y in q || y == x
  {
    hide Insert;
    var k := InsertIndex(q, x);
    var r := Splice(q, k, x);
    forall y | y in q || y == x
      ensures y in r
    {
      if y != x {
        var i :| 0 <= i < |q| && q[i] == y;
        assert r[if i < k then i else i + 1] == y;
      } else {
        assert r[k] == y;
      }
    }
  }

  lemma SetAllowMembers(q: Queue, block: Queue, x: Rec)
    requires BlockOk(q)
    ensures block != [] ==> SetAllow(q, block, x) == q
    ensures block == [] && |q| >= QUEUE_SIZE && (forall y :: y in q ==> y.dev != x.dev) ==>
      forall y :: y in SetAllow(q, block, x) <==> y in q
    ensures block == [] && (|q| < QUEUE_SIZE || exists y :: y in q && y.dev == x.dev) ==>
      forall y :: y in SetAllow(q, block, x) <==> (y in q && y.dev != x.dev) || y == x
  {
    hide Remove, Insert, Unique;
    RemoveMembers(q, x.dev);
    InsertMembers(Remove(q, x.dev), x);
  }

  lemma SetBlockMembers(q: Queue, x: Rec, d: nat)
    ensures Has(SetBlock(q, x), d) <==> Has(q, d) || (d == x.dev && |q| < QUEUE_SIZE)
  {
    var r := SetBlock(q, x);
    if r != q {
      assert r[|q|] == x;
      if Has(q, d) {
        var i :| 0 <= i < |q| && q[i].dev == d;
        assert r[i] == q[i];
      }
    }
  }

  lemma OnlyOwn(q: Queue, dev: nat)
    requires Unique(q)
    ensures Remove(q, dev) == [] <==> forall x :: x in q ==> x.dev == dev
  {
    hide Remove;
    RemoveMembers(q, dev);
    if Remove(q, dev) != [] {
      assert Remove(q, dev)[0] in Remove(q, dev);
    }
  }

  // ------------------------------------------------ one message

  lemma DropMembers(a: Arb, m: Msg, dir: Dir)
    requires Sane(a) && dir != None
    ensures var d := DropOppositePower(a, m);
      && Sane(d) && Block(d, dir) == Block(a, dir)
      && (forall x :: x in Allow(d, dir) <==> x in Allow(a, dir) && !Supersedes(m, dir, x.dev))
      && |Allow(d, dir)| == |Allow(a, dir)| - (if exists x :: x in Allow(a, dir) && Supersedes(m, dir, x.dev) then 1 else 0)
  {
    hide Remove, Unique;
    RemoveMembers(a.allowRev, DEV_POWER_NEG);
    RemoveMembers(a.allowFwd, DEV_POWER_POS);
    RemoveBlockOk(a.allowRev, DEV_POWER_NEG);
    RemoveBlockOk(a.allowFwd, DEV_POWER_POS);
  }

  /** A run command of this direction. */
  lemma RunMeaning(a: Arb, m: Msg, dir: Dir)
    requires Sane(a) && dir != None && Asks(m, dir)
    ensures forall x :: x in Allow(Process(a, m), dir) <==>
      if Accepted(a, m, dir) then Remembers(x, m) || (x in Allow(a, dir) && !Supersedes(m, dir, x.dev) && x.dev != m.dev)
      else x in Allow(a, dir) && !Supersedes(m, dir, x.dev)
  {
    hide Remove, SetAllow, Unique, DropOppositePower, Supersedes;
    DropMembers(a, m, dir);
    var d := DropOppositePower(a, m);
    OnlyOwn(Block(d, dir), m.dev);
    SetAllowMembers(Allow(d, dir), Remove(Block(d, dir), m.dev), RecordOf(m));
    OwnNotSuperseded(m, dir);
    RoomAfterDrop(a, m, dir);
    assert Allow(Process(a, m), dir) == SetAllow(Allow(d, dir), Remove(Block(d, dir), m.dev), RecordOf(m));
  }

  lemma OwnNotSuperseded(m: Msg, dir: Dir)
    ensures !Supersedes(m, dir, m.dev)
  {
  }

  lemma RoomAfterDrop(a: Arb, m: Msg, dir: Dir)
    requires Sane(a) && dir != None
    ensures var d := DropOppositePower(a, m);
      (|Allow(d, dir)| < QUEUE_SIZE || exists x :: x in Allow(d, dir) && x.dev == m.dev)
      <==> (|Allow(a, dir)| < QUEUE_SIZE
            || exists x :: x in Allow(a, dir) && (x.dev == m.dev || Supersedes(m, dir, x.dev)))
  {
    hide DropOppositePower, Supersedes, Unique;
    DropMembers(a, m, dir);
    OwnNotSuperseded(m, dir);
  }

  /** Any other message. */
  lemma OtherMeaning(a: Arb, m: Msg, dir: Dir)
    requires Sane(a) && dir != None && !Asks(m, dir)
    ensures forall x :: x in Allow(Process(a, m), dir) <==> x in Allow(a, dir) && !Withdraws(m, dir, x.dev)
  {
    hide Remove, SetAllow, SetBlock, Unique, DropOppositePower;
    DropMembers(a, m, dir);
    var d := DropOppositePower(a, m);
    RemoveMembers(Allow(d, dir), m.dev);
    if m.cmd != RunFwd && m.cmd != RunRev {
      NoneSuperseded(a, m, dir);
    }
  }

  lemma NoneSuperseded(a: Arb, m: Msg, dir: Dir)
    requires m.cmd != RunFwd && m.cmd != RunRev
    ensures DropOppositePower(a, m) == a && forall d: nat :: !Supersedes(m, dir, d)
  {
  }

  /** What every message does to an allow queue, by membership: an accepted run command is there as it
      was sent, in place of its sender's earlier record; what the message withdraws is gone; every
      other record stays, and nothing else comes in. */
  lemma MessageMeaning(a: Arb, m: Msg, dir: Dir)
    requires Sane(a) && dir != None
    ensures forall x :: x in Allow(Process(a, m), dir) <==>
      || (Accepted(a, m, dir) && Remembers(x, m))
      || (x in Allow(a, dir) && !Withdraws(m, dir, x.dev) && !(Accepted(a, m, dir) && x.dev == m.dev))
  {
    hide Process, Unique;
    if Asks(m, dir) {
      RunMeaning(a, m, dir);
    } else {
      OtherMeaning(a, m, dir);
    }
  }

  /** A refused run command leaves the queue as it was, but for a superseded record. */
  lemma RefusedLeaves(a: Arb, m: Msg, dir: Dir)
    requires Sane(a) && dir != None && Asks(m, dir) && !Accepted(a, m, dir)
    requires forall x :: x in Allow(a, dir) ==> !Supersedes(m, dir, x.dev)
    ensures forall x :: x in Allow(Process(a, m), dir) <==> x in Allow(a, dir)
  {
    hide Process, Unique;
    MessageMeaning(a, m, dir);
  }

  /** The sender's block is lifted by its own run or unblock command, and by nothing else. */
  predicate Lifts(m: Msg, dir: Dir, dev: nat)
  {
    m.dev == dev && (Asks(m, dir) || m.cmd == (if dir == Fwd then UnblockFwd else UnblockRev))
  }

  predicate AsksBlock(m: Msg, dir: Dir)
  {
    m.cmd == if dir == Fwd then BlockFwd else BlockRev
  }

  lemma BlockMeaning(a: Arb, m: Msg, dir: Dir, dev: nat)
    requires Sane(a) && dir != None
    ensures Has(Block(Process(a, m), dir), dev) <==>
      || (Has(Block(a, dir), dev) && !Lifts(m, dir, dev))
      || (AsksBlock(m, dir) && m.dev == dev && |Block(a, dir)| < 10)
  {
    hide Remove, SetAllow, SetBlock, Unique, DropOppositePower;
    DropMembers(a, m, dir);
    RemoveBlockOk(Block(a, dir), m.dev);
    SetBlockMembers(Block(a, dir), RecordOf(m).(duty := 0), dev);
  }

  // ------------------------------------------------ every sequence of messages

  lemma DatedOk(q: Queue, msgs: seq<Msg>)
    requires BlockOk(q)
    ensures BlockOk(DatedQueue(q, msgs))
  {
  }

  lemma AfterSane(msgs: seq<Msg>)
    ensures Sane(After(msgs))
  {
    hide Unique, Sorted, Until, All, Has, Sent;
    QueuesOk(msgs);
    var a := After(Numbered(msgs));
    DatedOk(a.blockFwd, msgs);
    DatedOk(a.blockRev, msgs);
    DatedOk(a.allowFwd, msgs);
    DatedOk(a.allowRev, msgs);
  }

  lemma AfterLast(msgs: seq<Msg>, dir: Dir)
    requires msgs != [] && dir != None
    ensures var r := Process(After(msgs[..|msgs| - 1]), msgs[|msgs| - 1]);
      Allow(After(msgs), dir) == Allow(r, dir) && Block(After(msgs), dir) == Block(r, dir)
  {
    hide Process;
    DecideQueues(Process(After(msgs[..|msgs| - 1]), msgs[|msgs| - 1]));
  }

  /** Message k was accepted in this direction. */
  ghost predicate Put(msgs: seq<Msg>, k: nat, dir: Dir)
    requires k < |msgs|
  {
    Accepted(After(msgs[..k]), msgs[k], dir)
  }

  /** Message k is a run command of dev that was accepted, and nothing later withdrew it. */
  ghost predicate Stands(msgs: seq<Msg>, k: nat, dir: Dir, dev: nat)
  {
    && k < |msgs| && Put(msgs, k, dir) && msgs[k].dev == dev
    && forall j :: k < j < |msgs| ==> !Withdraws(msgs[j], dir, dev)
  }

  lemma HasMember(q: Queue, dev: nat)
    ensures Has(q, dev) <==> exists x :: x in q && x.dev == dev
  {
    if Has(q, dev) {
      var i :| 0 <= i < |q| && q[i].dev == dev;
      assert q[i] in q;
    }
  }

  /** One message, seen by device. */
  lemma DeviceStep(a: Arb, m: Msg, dir: Dir, dev: nat)
    requires Sane(a) && dir != None
    ensures Has(Allow(Process(a, m), dir), dev) <==>
      (Accepted(a, m, dir) && m.dev == dev) || (Has(Allow(a, dir), dev) && !Withdraws(m, dir, dev))
  {
    hide Process, Has, Unique, Accepted, Withdraws;
    MessageMeaning(a, m, dir);
    HasMember(Allow(Process(a, m), dir), dev);
    HasMember(Allow(a, dir), dev);
    assert Remembers(Rec(m.dev, m.prio, m.cmd, m.duty, m.time), m);
  }

  /** In every sequence of messages a device is allowed in a direction exactly when one of its run
      commands was accepted and no later message withdrew it. */
  lemma {:induction false} AllowedIff(msgs: seq<Msg>, dir: Dir, dev: nat)
    requires dir != None
    ensures Has(Allow(After(msgs), dir), dev) <==> exists k: nat :: Stands(msgs, k, dir, dev)
    decreases |msgs|
  {
    hide Has, Process, Accepted, Withdraws, After;
    if msgs == [] {
      NothingAllowed(dir, dev);
    } else {
      var before, n := msgs[..|msgs| - 1], |msgs| - 1;
      AllowedIff(before, dir, dev);
      AfterSane(before);
      AfterLast(msgs, dir);
      DeviceStep(After(before), msgs[n], dir, dev);
      StandsLonger(msgs, dir, dev);
    }
  }

  lemma NothingAllowed(dir: Dir, dev: nat)
    requires dir != None
    ensures !Has(Allow(After([]), dir), dev) && !Has(Block(After([]), dir), dev)
  {
  }

  lemma StandsLonger(msgs: seq<Msg>, dir: Dir, dev: nat)
    requires msgs != []
    ensures var before, m := msgs[..|msgs| - 1], msgs[|msgs| - 1];
      (exists k: nat :: Stands(msgs, k, dir, dev)) <==>
        (Accepted(After(before), m, dir) && m.dev == dev)
        || ((exists k: nat :: Stands(before, k, dir, dev)) && !Withdraws(m, dir, dev))
  {
    hide Accepted, After, Withdraws;
    var before, n := msgs[..|msgs| - 1], |msgs| - 1;
    assert forall k :: 0 <= k <= n ==> msgs[..k] == before[..k];
    if k: nat :| Stands(msgs, k, dir, dev) {
      assert k < n ==> Stands(before, k, dir, dev);
    }
    if Accepted(After(before), msgs[n], dir) && msgs[n].dev == dev {
      assert Stands(msgs, n, dir, dev);
    }
    if (exists k: nat :: Stands(before, k, dir, dev)) && !Withdraws(msgs[n], dir, dev) {
      var k: nat :| Stands(before, k, dir, dev);
      assert Stands(msgs, k, dir, dev);
    }
  }

  /** Message k blocked the direction for dev, and dev has not lifted it since. */
  ghost predicate Bars(msgs: seq<Msg>, k: nat, dir: Dir, dev: nat)
  {
    && k < |msgs| && dir != None && AsksBlock(msgs[k], dir) && msgs[k].dev == dev
    && |Block(After(msgs[..k]), dir)| < 10
    && forall j :: k < j < |msgs| ==> !Lifts(msgs[j], dir, dev)
  }

  lemma BarsLonger(msgs: seq<Msg>, dir: Dir, dev: nat)
    requires msgs != [] && dir != None
    ensures var before, m := msgs[..|msgs| - 1], msgs[|msgs| - 1];
      (exists k: nat :: Bars(msgs, k, dir, dev)) <==>
        (AsksBlock(m, dir) && m.dev == dev && |Block(After(before), dir)| < 10)
        || ((exists k: nat :: Bars(before, k, dir, dev)) && !Lifts(m, dir, dev))
  {
    hide After, Lifts, AsksBlock, Block;
    var before, n := msgs[..|msgs| - 1], |msgs| - 1;
    assert forall k :: 0 <= k <= n ==> msgs[..k] == before[..k];
    if k: nat :| Bars(msgs, k, dir, dev) {
      assert k < n ==> Bars(before, k, dir, dev);
    }
    if AsksBlock(msgs[n], dir) && msgs[n].dev == dev && |Block(After(before), dir)| < 10 {
      assert Bars(msgs, n, dir, dev);
    }
    if (exists k: nat :: Bars(before, k, dir, dev)) && !Lifts(msgs[n], dir, dev) {
      var k: nat :| Bars(before, k, dir, dev);
      assert Bars(msgs, k, dir, dev);
    }
  }

  /** A device blocks a direction exactly when it asked to, found room, and has neither unblocked it nor
      asked to run that way since. */
  lemma {:induction false} BlockedIff(msgs: seq<Msg>, dir: Dir, dev: nat)
    requires dir != None
    ensures Has(Block(After(msgs), dir), dev) <==> exists k: nat :: Bars(msgs, k, dir, dev)
    decreases |msgs|
  {
    hide Has, Process, After, Lifts, AsksBlock;
    if msgs == [] {
      NothingAllowed(dir, dev);
    } else {
      var before, n := msgs[..|msgs| - 1], |msgs| - 1;
      BlockedIff(before, dir, dev);
      AfterSane(before);
      AfterLast(msgs, dir);
      BlockMeaning(After(before), msgs[n], dir, dev);
      BarsLonger(msgs, dir, dev);
    }
  }

  // ------------------------------------------------ what makes the motor run

  lemma InvSane(a: Arb, time: nat)
    requires Inv(a, time)
    ensures Sane(a)
  {
    hide Unique, Sorted, Until, All, Has;
  }

  /** An accepted command that beats the rest of its queue stands first in it, unblocked. */
  lemma AcceptedLeads(a: Arb, m: Msg, dir: Dir)
    requires Inv(a, m.time) && Accepted(a, m, dir)
    requires forall x :: x in Allow(Process(a, m), dir) && x.dev != m.dev ==> m.prio < x.prio
    ensures var q := Allow(Process(a, m), dir);
      q != [] && Remembers(q[0], m) && Block(Process(a, m), dir) == []
  {
    hide Process, Unique, Has, Supersedes, Withdraws, AllowOk, Sane;
    InvSane(a, m.time);
    MessageMeaning(a, m, dir);
    ProcessKeeps(a, m);
    UnblockedNow(a, m, dir);
    var q, x := Allow(Process(a, m), dir), Rec(m.dev, m.prio, m.cmd, m.duty, m.time);
    assert Remembers(x, m) && x in q;
    HeadFirst(q, if dir == Fwd then RunFwd else RunRev, m.time + 1, x);
    assert q[0] in q;
  }

  lemma UnblockedNow(a: Arb, m: Msg, dir: Dir)
    requires Sane(a) && Accepted(a, m, dir)
    ensures Block(Process(a, m), dir) == []
  {
    hide Remove, SetAllow, Unique, DropOppositePower;
    DropMembers(a, m, dir);
    OnlyOwn(Block(a, dir), m.dev);
  }

  /** After an accepted run command that beats all other records, the motor is driven the way it asks,
      with its duty. */
  lemma RunDrives(a: Arb, m: Msg, dir: Dir)
    requires Inv(a, m.time) && a.enable && Accepted(a, m, dir)
    requires forall x :: x in Allow(Process(a, m), dir) && x.dev != m.dev ==> m.prio < x.prio
    requires Block(Process(a, m), Opposite(dir)) != []
      || forall x :: x in Allow(Process(a, m), Opposite(dir)) ==> m.prio < x.prio && x.dev != m.dev
    ensures Handle(a, m).1 == Drive(dir, m.duty)
  {
    AcceptedAsks(a, m, dir);
    hide *;
    AcceptedLeads(a, m, dir);
    LeaderDrives(Process(a, m), m, dir);
    HandleDecides(a, m);
  }

  lemma HandleDecides(a: Arb, m: Msg)
    ensures Handle(a, m) == Decide(Process(a, m)) && Process(a, m).enable == a.enable
  {
    hide Process, Decide;
  }

  lemma LeaderDrives(r: Arb, m: Msg, dir: Dir)
    requires dir != None && Asks(m, dir) && r.enable
    requires Allow(r, dir) != [] && Remembers(Allow(r, dir)[0], m) && Block(r, dir) == []
    requires Block(r, Opposite(dir)) != []
      || forall x :: x in Allow(r, Opposite(dir)) ==> m.prio < x.prio && x.dev != m.dev
    ensures Decide(r).1 == Drive(dir, m.duty)
  {
    var p := Allow(r, Opposite(dir));
    assert p != [] ==> p[0] in p;
  }

  lemma AcceptedAsks(a: Arb, m: Msg, dir: Dir)
    requires Accepted(a, m, dir)
    ensures dir != None && Asks(m, dir)
  {
  }

  /** With nothing queued, any run command drives the motor its way with its duty. */
  lemma FirstCommandDrives(m: Msg, dir: Dir)
    requires dir != None && Asks(m, dir)
    ensures Handle(Cleared(), m).1 == Drive(dir, m.duty)
  {
    assert Insert([], RecordOf(m)) == [RecordOf(m)];
  }

  /** A conflict is reported exactly when the axis is enabled, both directions have an unblocked record,
      and either neither side's best priority beats the other's or one device leads on both sides; every
      decision of an enabled axis is counted. */
  lemma ConflictMeans(a: Arb, time: nat)
    requires Inv(a, time)
    ensures var r := Decide(a).0;
      && (r.conflict <==>
            && a.enable && a.blockFwd == [] && a.blockRev == []
            && (exists f, b :: Leads(a.allowFwd, f) && Leads(a.allowRev, b) && (f.prio == b.prio || f.dev == b.dev)))
      && r.count == a.count + if a.enable then 1 else 0
  {
    hide AllowOk, Has;
    HeadLeads(a.allowFwd, RunFwd, time);
    HeadLeads(a.allowRev, RunRev, time);
    hide Leads;
  }

  /** x comes before every other record of the queue. */
  ghost predicate Leads(q: Queue, x: Rec)
  {
    x in q && forall y :: y in q && y != x ==> x.prio < y.prio || (x.prio == y.prio && x.time < y.time)
  }

  lemma HeadLeads(q: Queue, cmd: Cmd, time: nat)
    requires AllowOk(q, cmd, time)
    ensures forall x :: Leads(q, x) <==> q != [] && x == q[0]
  {
    if q != [] {
      assert q[0] in q;
      forall y | y in q
        ensures y == q[0] || q[0].prio < y.prio || (q[0].prio == y.prio && q[0].time < y.time)
      {
        HeadFirst(q, cmd, time, y);
      }
    }
  }
}
