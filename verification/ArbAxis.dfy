/** Arbitration as the firmware runs it: fixed arrays whose records are shifted in place, and
an axis object whose fields every decision overwrites.
*/
module ArbAxis {
  import opened Arbitration

  const EMPTY: Rec := Rec(0, 0, NoCmd, 0, 0)

  lemma RemoveFirst(q: Queue, dev: nat, i: nat)
    requires i <= |q| && (forall k :: 0 <= k < i ==> q[k].dev != dev) && (i < |q| ==> q[i].dev == dev)
    ensures Remove(q, dev) == if i < |q| then Cut(q, i) else q
  {
    var k := RemoveIndex(q, dev);
  }

  lemma InsertFirst(q: Queue, x: Rec, i: nat)
    requires i <= |q| && (forall k :: 0 <= k < i ==> q[k].prio <= x.prio) && (i < |q| ==> x.prio < q[i].prio)
    ensures Insert(q, x) == Splice(q, i, x)
  {
    var k := InsertIndex(q, x);
  }

  lemma NothingDropped(a: Arb, m: Msg)
    requires m.cmd !in {RunFwd, RunRev}
    ensures DropOppositePower(a, m) == a
  {
  }

  class CommandQueue {
    const records: array<Rec>
    var count: nat

    ghost predicate Valid()
      reads this
    {
      records.Length == QUEUE_SIZE && count <= QUEUE_SIZE
    }

    ghost function Contents(): (q: Queue)
      requires Valid()
      reads this, records
    {
      records[..count]
    }

    constructor ()
      ensures Valid() && fresh(records) && Contents() == []
    {
      records := new Rec[QUEUE_SIZE](_ => EMPTY);
      count := 0;
    }

    /** Closes the gap at i by moving the later records down. */
    method ShiftDown(i: nat)
      requires Valid() && i < count
      modifies this, records
      ensures Valid() && Contents() == Cut(old(Contents()), i)
    {
      ghost var q := Contents();
      var j := i;
      while j < count - 1
        invariant i <= j <= count - 1 && count == |q| <= records.Length == QUEUE_SIZE
        invariant forall k :: 0 <= k < i || j <= k < |q| ==> records[k] == q[k]
        invariant forall k :: i <= k < j ==> records[k] == q[k + 1]
      {
        records[j] := records[j + 1];
        assert records[j] == q[j + 1];
        j := j + 1;
      }
      count := count - 1;
      if count < QUEUE_SIZE {
        records[count] := EMPTY;
      }
      assert Contents() == Cut(q, i);
    }

    method RemoveDevice(dev: nat)
      requires Valid()
      modifies this, records
      ensures Valid() && Contents() == Remove(old(Contents()), dev)
    {
      ghost var q := Contents();
      var i := 0;
      while i < count
        invariant i <= count && Valid() && Contents() == q
        invariant forall k :: 0 <= k < i ==> q[k].dev != dev
      {
        if records[i].dev == dev {
          assert q[i] == records[i];
          RemoveFirst(q, dev, i);
          ShiftDown(i);
          return;
        }
        assert q[i] == records[i];
        i := i + 1;
      }
      RemoveFirst(q, dev, i);
    }

    /** Makes room at `index` by moving the later records up, and stores x there. */
    method PutAt(index: nat, x: Rec)
      requires Valid() && index <= count < QUEUE_SIZE
      modifies this, records
      ensures Valid() && Contents() == Splice(old(Contents()), index, x)
    {
      ghost var q := Contents();
      var i := count;
      while i > index
        invariant index <= i <= count && count == |q| < QUEUE_SIZE == records.Length
        invariant forall k :: 0 <= k < i ==> records[k] == q[k]
        invariant forall k :: i < k <= count ==> records[k] == q[k - 1]
      {
        records[i] := records[i - 1];
        i := i - 1;
      }
      records[index] := x;
      count := count + 1;
      assert Contents() == Splice(q, index, x);
    }

    method AllowCommand(block: CommandQueue, x: Rec)
      requires Valid() && block.Valid() && block != this && block.records != records
      modifies this, records
      ensures Valid() && Contents() == SetAllow(old(Contents()), block.Contents(), x)
    {
      if block.count > 0 {
        return;
      }
      RemoveDevice(x.dev);
      if count >= QUEUE_SIZE {
        return;
      }
      ghost var q := Contents();
      var index := 0;
      while index < count
        invariant index <= count && Valid() && Contents() == q
        invariant forall k :: 0 <= k < index ==> q[k].prio <= x.prio
      {
        assert q[index] == records[index];
        if x.prio < records[index].prio {
          break;
        }
        index := index + 1;
      }
      InsertFirst(q, x, index);
      PutAt(index, x);
    }

    method BlockCommand(x: Rec)
      requires Valid()
      modifies this, records
      ensures Valid() && Contents() == SetBlock(old(Contents()), x)
    {
      ghost var q := Contents();
      var i := 0;
      while i < count
        invariant i <= count && Valid() && Contents() == q
        invariant forall k :: 0 <= k < i ==> q[k].dev != x.dev
      {
        assert q[i] == records[i];
        if records[i].dev == x.dev {
          return;
        }
        i := i + 1;
      }
      if count >= QUEUE_SIZE {
        return;
      }
      records[count] := x;
      count := count + 1;
      assert Contents() == q + [x];
    }

    method ClearAll()
      requires Valid()
      modifies this, records
      ensures Valid() && Contents() == []
    {
      forall i | 0 <= i < QUEUE_SIZE {
        records[i] := EMPTY;
      }
      count := 0;
    }
  }

  class Axis {
    const blockFwd: CommandQueue
    const blockRev: CommandQueue
    const allowFwd: CommandQueue
    const allowRev: CommandQueue
    var enable: bool
    var dir: Dir
    var dev: nat
    var duty: nat
    var running: bool
    var conflict: bool
    var count: nat
    ghost var outputs: seq<Output>  // what the motor driver was told
    ghost const repr: set<object>

    /** The four queues share no storage. */
    ghost predicate Separate()
    {
      && blockFwd != blockRev && blockFwd != allowFwd && blockFwd != allowRev
      && blockRev != allowFwd && blockRev != allowRev && allowFwd != allowRev
      && blockFwd.records != blockRev.records && blockFwd.records != allowFwd.records
      && blockFwd.records != allowRev.records && blockRev.records != allowFwd.records
      && blockRev.records != allowRev.records && allowFwd.records != allowRev.records
    }

    ghost predicate Valid()
      reads repr
    {
      && repr == {this, blockFwd, blockRev, allowFwd, allowRev,
                  blockFwd.records, blockRev.records, allowFwd.records, allowRev.records}
      && Separate() && blockFwd.Valid() && blockRev.Valid() && allowFwd.Valid() && allowRev.Valid()
    }

    ghost function Abs(): (a: Arb)
      requires Valid()
      reads repr
    {
      Arb(blockFwd.Contents(), blockRev.Contents(), allowFwd.Contents(), allowRev.Contents(),
          enable, dir, dev, duty, running, conflict, count)
    }

    constructor ()
      ensures Valid() && Abs() == Cleared() && outputs == [] && fresh(repr)
    {
      var bf := new CommandQueue();
      var br := new CommandQueue();
      var af := new CommandQueue();
      var ar := new CommandQueue();
      blockFwd, blockRev, allowFwd, allowRev := bf, br, af, ar;
      repr := {this, bf, br, af, ar, bf.records, br.records, af.records, ar.records};
      enable, dir, dev, duty, running, conflict, count := true, None, 0, 0, false, false, 0;
      outputs := [];
    }

    /** Module initialisation: empty queues, enabled and stopped. */
    method Init()
      requires Valid()
      modifies repr
      ensures Valid() && Abs() == Cleared() && outputs == old(outputs)
    {
      hide CommandQueue.Contents;
      ClearQueues();
      enable, dir, dev, duty, running, conflict, count := true, None, 0, 0, false, false, 0;
    }

    method ClearQueues()
      requires Valid()
      modifies blockFwd, blockRev, allowFwd, allowRev
      modifies blockFwd.records, blockRev.records, allowFwd.records, allowRev.records
      ensures Valid()
      ensures blockFwd.Contents() == blockRev.Contents() == allowFwd.Contents() == allowRev.Contents() == []
    {
      hide CommandQueue.Contents;
      blockFwd.ClearAll();
      blockRev.ClearAll();
      allowFwd.ClearAll();
      allowRev.ClearAll();
    }

    method GetData() returns (enable: bool, dir: Dir)
      requires Valid()
      ensures enable == Abs().enable && dir == Abs().dir
    {
      enable, dir := this.enable, this.dir;
    }

    method SetEnable(on: bool)
      requires Valid()
      modifies this
      ensures Valid() && Abs() == old(Abs()).(enable := on) && outputs == old(outputs)
    {
      enable := on;
    }

    method RemoveOppositePowerAllow(m: Msg)
      requires Valid()
      modifies allowFwd, allowRev, allowFwd.records, allowRev.records
      ensures Valid() && Abs() == DropOppositePower(old(Abs()), m)
    {
      if m.cmd != RunFwd && m.cmd != RunRev {
        return;
      }
      if m.dev == DEV_POWER_POS {
        allowRev.RemoveDevice(DEV_POWER_NEG);
      } else if m.dev == DEV_POWER_NEG {
        allowFwd.RemoveDevice(DEV_POWER_POS);
      }
    }

    method ProcessMessage(m: Msg)
      requires Valid()
      modifies blockFwd, blockRev, allowFwd, allowRev
      modifies blockFwd.records, blockRev.records, allowFwd.records, allowRev.records
      ensures Valid() && Abs() == Process(old(Abs()), m)
    {
      hide Remove, SetAllow, SetBlock, DropOppositePower, CommandQueue.Contents;
      RemoveOppositePowerAllow(m);
      match m.cmd {
        case RunFwd =>
          blockFwd.RemoveDevice(m.dev);
          allowFwd.AllowCommand(blockFwd, RecordOf(m));
        case RunRev =>
          blockRev.RemoveDevice(m.dev);
          allowRev.AllowCommand(blockRev, RecordOf(m));
        case Stop =>
          allowFwd.RemoveDevice(m.dev);
          allowRev.RemoveDevice(m.dev);
        case EmergencyStop =>
          allowFwd.ClearAll();
          allowRev.ClearAll();
        case _ =>
          NothingDropped(old(Abs()), m);
          ChangeOneQueue(m);
      }
    }

    /** The commands that concern one queue only. */
    method ChangeOneQueue(m: Msg)
      requires Valid() && m.cmd !in {RunFwd, RunRev, Stop, EmergencyStop}
      modifies blockFwd, blockRev, allowFwd, allowRev
      modifies blockFwd.records, blockRev.records, allowFwd.records, allowRev.records
      ensures Valid() && Abs() == Process(old(Abs()), m)
    {
      hide Remove, SetAllow, SetBlock, CommandQueue.Contents;
      match m.cmd {
        case BlockFwd => blockFwd.BlockCommand(RecordOf(m).(duty := 0));
        case BlockRev => blockRev.BlockCommand(RecordOf(m).(duty := 0));
        case UnblockFwd => blockFwd.RemoveDevice(m.dev);
        case UnblockRev => blockRev.RemoveDevice(m.dev);
        case ClearAllowFwd => allowFwd.ClearAll();
        case ClearAllowRev => allowRev.ClearAll();
        case _ =>
      }
    }

    method ApplyStop()
      requires Valid()
      modifies this
      ensures Valid() && Abs() == Stopped(old(Abs())) && outputs == old(outputs) + [Halt]
    {
      dev, dir, duty, running := 0, None, 0, false;
      outputs := outputs + [Halt];
    }

    /** The record to execute, if any; the directions may also conflict. */
    method SelectCommand() returns (c: Choice)
      requires Valid()
      ensures c == Choose(Abs())
    {
      var fwd := blockFwd.count == 0 && allowFwd.count > 0;
      var rev := blockRev.count == 0 && allowRev.count > 0;
      c := Nothing;
      if fwd && rev {
        var f, r := allowFwd.records[0], allowRev.records[0];
        if f.dev == r.dev {
          c := Clash;
        } else if f.prio < r.prio {
          c := Chosen(f);
        } else if r.prio < f.prio {
          c := Chosen(r);
        } else {
          c := Clash;
        }
      } else if fwd {
        c := Chosen(allowFwd.records[0]);
      } else if rev {
        c := Chosen(allowRev.records[0]);
      }
    }

    method Execute(c: Choice)
      requires Valid()
      modifies this
      ensures Valid() && Abs() == Settle(old(Abs()), c).0
      ensures outputs == old(outputs) + [Settle(old(Abs()), c).1]
    {
      hide CommandQueue.Contents;
      conflict := c.Clash?;
      count := count + 1;
      if c.Chosen? {
        ApplyRun(c.rec);
      } else {
        ApplyStop();
      }
    }

    method ApplyRun(x: Rec)
      requires Valid()
      modifies this
      ensures Valid()
      ensures var way := if x.cmd == RunFwd then Fwd else Rev;
        && Abs() == old(Abs()).(dev := x.dev, duty := x.duty, running := true, dir := way)
        && outputs == old(outputs) + [Drive(way, x.duty)]
    {
      hide CommandQueue.Contents;
      dev, duty, running := x.dev, x.duty, true;
      dir := if x.cmd == RunFwd then Fwd else Rev;
      outputs := outputs + [Drive(dir, duty)];
    }

    method Decision()
      requires Valid()
      modifies this
      ensures Valid() && Abs() == Decide(old(Abs())).0
      ensures outputs == old(outputs) + [Decide(old(Abs())).1]
    {
      hide Choose, Settle, Stopped;
      if !enable {
        conflict := false;
        ApplyStop();
        return;
      }
      var c := SelectCommand();
      Execute(c);
    }

    /** One message received by the arbitration thread. */
    method HandleMessage(m: Msg)
      requires Valid()
      modifies repr
      ensures Valid() && Abs() == Handle(old(Abs()), m).0
      ensures outputs == old(outputs) + [Handle(old(Abs()), m).1]
    {
      ProcessMessage(m);
      Decision();
    }
  }
}
