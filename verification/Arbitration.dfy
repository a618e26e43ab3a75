/** Motor arbitration of one axis as a function of its state.

Sources send run and block commands; four bounded queues remember them; each message is
followed by a decision that picks one direction or stops.  Lower numbers mean higher
priority.
*/
module Arbitration {

  const QUEUE_SIZE: nat := 10
  const AXES: nat := 2

  const DEV_POWER_POS: nat := 1
  const DEV_POWER_NEG: nat := 2
  const DEV_EMERGENCY: nat := 8
  const DEV_ROD_LIMIT_FWD: nat := 17
  const DEV_ROD_LIMIT_REV: nat := 18
  const DEV_MAX: nat := 19

  const PRIO_EMERGENCY: nat := 0
  const PRIO_LIMIT: nat := 1
  const PRIO_POWER: nat := 5

  datatype Cmd =
    | NoCmd | RunFwd | RunRev | Stop | BlockFwd | BlockRev | UnblockFwd | UnblockRev
    | ClearAllowFwd | ClearAllowRev | EmergencyStop

  datatype Msg = Msg(dev: nat, prio: nat, cmd: Cmd, duty: nat, time: nat)

  datatype Rec = Rec(dev: nat, prio: nat, cmd: Cmd, duty: nat, time: nat)

  type Queue = seq<Rec>

  datatype Dir = None | Fwd | Rev

  /** The queues, the outcome of the last decision and the enable switch. */
  datatype Arb = Arb(
    blockFwd: Queue, blockRev: Queue, allowFwd: Queue, allowRev: Queue,
    enable: bool, dir: Dir, dev: nat, duty: nat, running: bool, conflict: bool, count: nat)

  /** What a decision tells the motor driver. */
  datatype Output = Drive(dir: Dir, duty: nat) | Halt

  function Cleared(): (a: Arb)
  {
    Arb([], [], [], [], true, None, 0, 0, false, false, 0)
  }

  /** What the sending function lets through. */
  predicate Acceptable(m: Msg)
  {
    0 < m.dev < DEV_MAX && m.prio <= PRIO_POWER && m.duty <= 100 && m.cmd != NoCmd
  }

  // ------------------------------------------------ queue operations

  predicate Has(q: Queue, dev: nat)
  {
    exists i :: 0 <= i < |q| && q[i].dev == dev
  }

  /** Without the first record of dev. */
  function Remove(q: Queue, dev: nat): (r: Queue)
    ensures |r| <= |q|
    decreases |q|
  {
    if q == [] then [] else if q[0].dev == dev then q[1..] else [q[0]] + Remove(q[1..], dev)
  }

  /** Behind every record that is not of lower priority. */
  function Insert(q: Queue, x: Rec): (r: Queue)
    ensures |r| == |q| + 1
    decreases |q|
  {
    if q == [] || x.prio < q[0].prio then [x] + q else [q[0]] + Insert(q[1..], x)
  }

  function SetAllow(q: Queue, block: Queue, x: Rec): (r: Queue)
  {
    if block != [] then q
    else
      var without := Remove(q, x.dev);
      if |without| >= QUEUE_SIZE then without else Insert(without, x)
  }

  function SetBlock(q: Queue, x: Rec): (r: Queue)
  {
    if Has(q, x.dev) || |q| >= QUEUE_SIZE then q else q + [x]
  }

  // ------------------------------------------------ one message, one decision

  /** The positive and the negative supply are one physical source: a new direction replaces the old. */
  function DropOppositePower(a: Arb, m: Msg): (r: Arb)
  {
    if m.cmd != RunFwd && m.cmd != RunRev then a
    else if m.dev == DEV_POWER_POS then a.(allowRev := Remove(a.allowRev, DEV_POWER_NEG))
    else if m.dev == DEV_POWER_NEG then a.(allowFwd := Remove(a.allowFwd, DEV_POWER_POS))
    else a
  }

  function RecordOf(m: Msg): (x: Rec)
  {
    Rec(m.dev, m.prio, m.cmd, m.duty, m.time)
  }

  function Process(a0: Arb, m: Msg): (r: Arb)
    ensures r.enable == a0.enable
  {
    var a := DropOppositePower(a0, m);
    match m.cmd
    case RunFwd =>
      var block := Remove(a.blockFwd, m.dev);
      a.(blockFwd := block, allowFwd := SetAllow(a.allowFwd, block, RecordOf(m)))
    case RunRev =>
      var block := Remove(a.blockRev, m.dev);
      a.(blockRev := block, allowRev := SetAllow(a.allowRev, block, RecordOf(m)))
    case Stop => a.(allowFwd := Remove(a.allowFwd, m.dev), allowRev := Remove(a.allowRev, m.dev))
    case BlockFwd => a.(blockFwd := SetBlock(a.blockFwd, RecordOf(m).(duty := 0)))
    case BlockRev => a.(blockRev := SetBlock(a.blockRev, RecordOf(m).(duty := 0)))
    case UnblockFwd => a.(blockFwd := Remove(a.blockFwd, m.dev))
    case UnblockRev => a.(blockRev := Remove(a.blockRev, m.dev))
    case ClearAllowFwd => a.(allowFwd := [])
    case ClearAllowRev => a.(allowRev := [])
    case EmergencyStop => a.(allowFwd := [], allowRev := [])
    case NoCmd => a
  }

  datatype Choice = Nothing | Clash | Chosen(rec: Rec)

  /** The best record of each unblocked direction; the same device or equal priority in both clash. */
  function Choose(a: Arb): (c: Choice)
  {
    var fwd := a.blockFwd == [] && a.allowFwd != [];
    var rev := a.blockRev == [] && a.allowRev != [];
    if fwd && rev then
      var f, r := a.allowFwd[0], a.allowRev[0];
      if f.dev == r.dev then Clash
      else if f.prio < r.prio then Chosen(f)
      else if r.prio < f.prio then Chosen(r)
      else Clash
    else if fwd then Chosen(a.allowFwd[0])
    else if rev then Chosen(a.allowRev[0])
    else Nothing
  }

  function Stopped(a: Arb): (r: Arb)
  {
    a.(dev := 0, dir := None, duty := 0, running := false)
  }

  /** Carries out a choice. */
  function Settle(a: Arb, c: Choice): (r: (Arb, Output))
    ensures r.0.enable == a.enable
  {
    var next := a.(conflict := c.Clash?, count := a.count + 1);
    match c
    case Chosen(x) =>
      var dir := if x.cmd == RunFwd then Fwd else Rev;
      (next.(dev := x.dev, duty := x.duty, running := true, dir := dir), Drive(dir, x.duty))
    case _ => (Stopped(next), Halt)
  }

  function Decide(a: Arb): (r: (Arb, Output))
    ensures r.0.enable == a.enable
    ensures !a.enable ==> r.1 == Halt
  {
    if !a.enable then (Stopped(a.(conflict := false)), Halt) else Settle(a, Choose(a))
  }

  /** One turn of the arbitration thread. */
  function Handle(a: Arb, m: Msg): (r: (Arb, Output))
    ensures r.0.enable == a.enable && (!a.enable ==> r.1 == Halt)
  {
    Decide(Process(a, m))
  }

  // ------------------------------------------------ what queues keep

  ghost predicate Unique(q: Queue)
  {
    forall i, j :: 0 <= i < j < |q| ==> q[i].dev != q[j].dev
  }

  /** By priority, and within a priority strictly by arrival. */
  ghost predicate Sorted(q: Queue)
  {
    forall i, j :: 0 <= i < j < |q| ==>
      q[i].prio < q[j].prio || (q[i].prio == q[j].prio && q[i].time < q[j].time)
  }

  ghost predicate Until(q: Queue, time: nat)
  {
    forall i :: 0 <= i < |q| ==> q[i].time < time
  }

  ghost predicate All(q: Queue, cmd: Cmd)
  {
    forall i :: 0 <= i < |q| ==> q[i].cmd == cmd
  }

  /** Without position k. */
  function Cut(q: Queue, k: nat): (r: Queue)
    requires k < |q|
    ensures |r| == |q| - 1
    ensures forall i :: 0 <= i < |r| ==> r[i] == if i < k then q[i] else q[i + 1]
  {
    q[..k] + q[k + 1..]
  }

  /** Removing cuts out the first record of the device, if there is one. */
  lemma {:induction false} RemoveIndex(q: Queue, dev: nat) returns (k: nat)
    ensures k <= |q|
    ensures forall i :: 0 <= i < k ==> q[i].dev != dev
    ensures k < |q| ==> q[k].dev == dev
    ensures Remove(q, dev) == if k < |q| then Cut(q, k) else q
    decreases |q|
  {
    if q == [] {
      k := 0;
    } else if q[0].dev == dev {
      k := 0;
      assert Cut(q, 0) == q[1..];
    } else {
      var j := RemoveIndex(q[1..], dev);
      k := j + 1;
      assert [q[0]] + q[1..] == q;
      if k < |q| {
        assert Cut(q, k) == [q[0]] + Cut(q[1..], j);
      }
    }
  }

  lemma CutOrder(q: Queue, k: nat, time: nat, cmd: Cmd)
    requires k < |q|
    ensures Sorted(q) ==> Sorted(Cut(q, k))
    ensures Until(q, time) ==> Until(Cut(q, k), time)
    ensures All(q, cmd) ==> All(Cut(q, k), cmd)
  {
  }

  lemma CutUnique(q: Queue, k: nat)
    requires k < |q| && Unique(q)
    ensures Unique(Cut(q, k)) && !Has(Cut(q, k), q[k].dev)
  {
  }

  lemma CutHas(q: Queue, k: nat, d: nat)
    requires k < |q| && q[k].dev != d
    ensures Has(Cut(q, k), d) <==> Has(q, d)
  {
    var r := Cut(q, k);
    if Has(q, d) {
      var i :| 0 <= i < |q| && q[i].dev == d;
      assert r[if i < k then i else i - 1] == q[i];
    }
    if Has(r, d) {
      var i :| 0 <= i < |r| && r[i].dev == d;
      assert r[i] == q[if i < k then i else i + 1];
    }
  }

  lemma RemoveKeeps(q: Queue, dev: nat, time: nat, cmd: Cmd)
    ensures Unique(q) ==> Unique(Remove(q, dev)) && !Has(Remove(q, dev), dev)
    ensures Sorted(q) ==> Sorted(Remove(q, dev))
    ensures Until(q, time) ==> Until(Remove(q, dev), time)
    ensures All(q, cmd) ==> All(Remove(q, dev), cmd)
    ensures forall d: nat :: d != dev ==> (Has(Remove(q, dev), d) <==> Has(q, d))
  {
    hide Sorted, Until, All, Unique, Remove;
    var k := RemoveIndex(q, dev);
    if k < |q| {
      CutOrder(q, k, time, cmd);
      if Unique(q) {
        CutUnique(q, k);
      }
      forall d: nat | d != dev
        ensures Has(Cut(q, k), d) <==> Has(q, d)
      {
        CutHas(q, k, d);
      }
    }
  }

  /** Where the new record goes. */
  lemma {:induction false} InsertIndex(q: Queue, x: Rec) returns (k: nat)
    ensures k <= |q| && Insert(q, x) == Splice(q, k, x)
    ensures forall i :: 0 <= i < k ==> q[i].prio <= x.prio
    ensures k < |q| ==> x.prio < q[k].prio
    decreases |q|
  {
    if q == [] || x.prio < q[0].prio {
      k := 0;
      assert Splice(q, 0, x) == [x] + q;
    } else {
      var j := InsertIndex(q[1..], x);
      k := j + 1;
      assert [q[0]] + Splice(q[1..], j, x) == Splice(q, k, x);
      assert forall i :: 1 <= i < k ==> q[i] == q[1..][i - 1];
    }
  }

  /** x put in at position k. */
  function Splice(q: Queue, k: nat, x: Rec): (r: Queue)
    requires k <= |q|
    ensures |r| == |q| + 1
    ensures forall i :: 0 <= i < |r| ==> r[i] == if i < k then q[i] else if i == k then x else q[i - 1]
  {
    q[..k] + [x] + q[k..]
  }

  lemma SpliceHas(q: Queue, k: nat, x: Rec, d: nat)
    requires k <= |q|
    ensures Has(Splice(q, k, x), d) <==> d == x.dev || Has(q, d)
  {
    var r := Splice(q, k, x);
    assert r[k] == x;
    if Has(q, d) {
      var i :| 0 <= i < |q| && q[i].dev == d;
      assert r[if i < k then i else i + 1] == q[i];
    }
  }

  lemma SpliceKeeps(q: Queue, k: nat, x: Rec, time: nat, cmd: Cmd)
    requires k <= |q|
    ensures Unique(q) && !Has(q, x.dev) ==> Unique(Splice(q, k, x))
    ensures Until(q, time) && x.time < time ==> Until(Splice(q, k, x), time)
    ensures All(q, cmd) && x.cmd == cmd ==> All(Splice(q, k, x), cmd)
  {
  }

  lemma InsertKeeps(q: Queue, x: Rec, time: nat, cmd: Cmd)
    ensures Unique(q) && !Has(q, x.dev) ==> Unique(Insert(q, x))
    ensures Sorted(q) && Until(q, x.time) ==> Sorted(Insert(q, x))
    ensures Until(q, time) && x.time < time ==> Until(Insert(q, x), time)
    ensures All(q, cmd) && x.cmd == cmd ==> All(Insert(q, x), cmd)
    ensures forall d: nat :: Has(Insert(q, x), d) <==> d == x.dev || Has(q, d)
  {
    hide Sorted, Until, All, Unique, Insert, Has;
    var k := InsertIndex(q, x);
    SpliceKeeps(q, k, x, time, cmd);
    forall d: nat
      ensures Has(Splice(q, k, x), d) <==> d == x.dev || Has(q, d)
    {
      SpliceHas(q, k, x, d);
    }
    if Sorted(q) && Until(q, x.time) {
      SortedAt(q, x, k);
    }
  }

  lemma SortedAt(q: Queue, x: Rec, k: nat)
    requires k <= |q| && Sorted(q) && Until(q, x.time)
    requires forall i :: 0 <= i < k ==> q[i].prio <= x.prio
    requires k < |q| ==> x.prio < q[k].prio
    ensures Sorted(Splice(q, k, x))
  {
    forall j | k <= j < |q|
      ensures x.prio < q[j].prio
    {
      if k < j {
        assert q[k].prio <= q[j].prio;
      }
    }
  }

  // ------------------------------------------------ the invariant of every message sequence

  ghost predicate AllowOk(q: Queue, cmd: Cmd, time: nat)
  {
    |q| <= QUEUE_SIZE && Unique(q) && Sorted(q) && Until(q, time) && All(q, cmd)
  }

  ghost predicate BlockOk(q: Queue)
  {
    |q| <= QUEUE_SIZE && Unique(q)
  }

  ghost predicate Inv(a: Arb, time: nat)
  {
    && AllowOk(a.allowFwd, RunFwd, time) && AllowOk(a.allowRev, RunRev, time)
    && BlockOk(a.blockFwd) && BlockOk(a.blockRev)
    && !(Has(a.allowFwd, DEV_POWER_POS) && Has(a.allowRev, DEV_POWER_NEG))
  }

  lemma RemoveAllowOk(q: Queue, dev: nat, cmd: Cmd, time: nat)
    requires AllowOk(q, cmd, time)
    ensures AllowOk(Remove(q, dev), cmd, time) && !Has(Remove(q, dev), dev)
    ensures forall d: nat :: d != dev ==> (Has(Remove(q, dev), d) <==> Has(q, d))
  {
    hide Has, Unique, Sorted, Until, All;
    RemoveKeeps(q, dev, time, cmd);
  }

  lemma RemoveBlockOk(q: Queue, dev: nat)
    requires BlockOk(q)
    ensures BlockOk(Remove(q, dev)) && !Has(Remove(q, dev), dev)
    ensures forall d: nat :: d != dev ==> (Has(Remove(q, dev), d) <==> Has(q, d))
  {
    hide Has, Unique, Sorted, Until, All;
    RemoveKeeps(q, dev, 0, NoCmd);
  }

  lemma SetAllowOk(q: Queue, block: Queue, x: Rec)
    requires AllowOk(q, x.cmd, x.time)
    ensures AllowOk(SetAllow(q, block, x), x.cmd, x.time + 1)
    ensures forall d: nat :: d != x.dev ==> (Has(SetAllow(q, block, x), d) <==> Has(q, d))
  {
    hide Has, Unique, Sorted, Until, All;
    LaterOk(q, x.cmd, x.time, x.time + 1);
    RemoveAllowOk(q, x.dev, x.cmd, x.time);
    RemoveAllowOk(q, x.dev, x.cmd, x.time + 1);
    InsertKeeps(Remove(q, x.dev), x, x.time + 1, x.cmd);
  }

  lemma SetBlockOk(q: Queue, x: Rec)
    requires BlockOk(q)
    ensures BlockOk(SetBlock(q, x))
    ensures forall d: nat :: d != x.dev ==> (Has(SetBlock(q, x), d) <==> Has(q, d))
    ensures |q| < QUEUE_SIZE ==> Has(SetBlock(q, x), x.dev)
    ensures Has(q, x.dev) ==> Has(SetBlock(q, x), x.dev)
  {
    var r := SetBlock(q, x);
    if r != q {
      assert r[|q|] == x;
      forall d: nat | d != x.dev
        ensures Has(r, d) <==> Has(q, d)
      {
        if Has(q, d) {
          var i :| 0 <= i < |q| && q[i].dev == d;
          assert r[i] == q[i];
        }
      }
    }
  }

  lemma LaterOk(q: Queue, cmd: Cmd, time: nat, later: nat)
    requires AllowOk(q, cmd, time) && time <= later
    ensures AllowOk(q, cmd, later)
  {
  }

  lemma NoneOk(cmd: Cmd, time: nat)
    ensures AllowOk([], cmd, time)
  {
  }

  lemma DropKeeps(a: Arb, m: Msg)
    requires Inv(a, m.time)
    ensures Inv(DropOppositePower(a, m), m.time)
    ensures m.dev == DEV_POWER_POS && (m.cmd == RunFwd || m.cmd == RunRev) ==>
      !Has(DropOppositePower(a, m).allowRev, DEV_POWER_NEG)
    ensures m.dev == DEV_POWER_NEG && (m.cmd == RunFwd || m.cmd == RunRev) ==>
      !Has(DropOppositePower(a, m).allowFwd, DEV_POWER_POS)
  {
    hide Has, AllowOk;
    RemoveAllowOk(a.allowRev, DEV_POWER_NEG, RunRev, m.time);
    RemoveAllowOk(a.allowFwd, DEV_POWER_POS, RunFwd, m.time);
  }

  /** Every message keeps the invariant, as long as messages are numbered in the order they arrive. */
  lemma ProcessKeeps(a0: Arb, m: Msg)
    requires Inv(a0, m.time)
    ensures Inv(Process(a0, m), m.time + 1)
  {
    hide AllowOk, BlockOk, Remove, SetAllow, SetBlock, DropOppositePower, Has;
    DropKeeps(a0, m);
    var a := DropOppositePower(a0, m);
    var next := m.time + 1;
    LaterOk(a.allowFwd, RunFwd, m.time, next);
    LaterOk(a.allowRev, RunRev, m.time, next);
    NoneOk(RunFwd, next);
    NoneOk(RunRev, next);
    assert !Has([], DEV_POWER_POS) && !Has([], DEV_POWER_NEG) by { HasNone(); }
    match m.cmd
    case RunFwd =>
      RemoveBlockOk(a.blockFwd, m.dev);
      SetAllowOk(a.allowFwd, Remove(a.blockFwd, m.dev), RecordOf(m));
    case RunRev =>
      RemoveBlockOk(a.blockRev, m.dev);
      SetAllowOk(a.allowRev, Remove(a.blockRev, m.dev), RecordOf(m));
    case Stop =>
      RemoveAllowOk(a.allowFwd, m.dev, RunFwd, next);
      RemoveAllowOk(a.allowRev, m.dev, RunRev, next);
    case BlockFwd => SetBlockOk(a.blockFwd, RecordOf(m).(duty := 0));
    case BlockRev => SetBlockOk(a.blockRev, RecordOf(m).(duty := 0));
    case UnblockFwd => RemoveBlockOk(a.blockFwd, m.dev);
    case UnblockRev => RemoveBlockOk(a.blockRev, m.dev);
    case _ =>
  }

  lemma HasNone()
    ensures forall d: nat :: !Has([], d)
  {
  }

  /** The state after a sequence of messages, each followed by its decision. */
  function After(msgs: seq<Msg>): (a: Arb)
    decreases |msgs|
  {
    if msgs == [] then Cleared() else Handle(After(msgs[..|msgs| - 1]), msgs[|msgs| - 1]).0
  }

  // ------------------------------------------------ order of arrival

  /** The messages with their number of arrival in place of the timestamp. */
  function Numbered(msgs: seq<Msg>): (r: seq<Msg>)
    ensures |r| == |msgs| && forall i :: 0 <= i < |r| ==> r[i] == msgs[i].(time := i)
  {
    seq(|msgs|, i requires 0 <= i < |msgs| => msgs[i].(time := i))
  }

  /** A numbered record with its timestamp put back. */
  function Dated(x: Rec, msgs: seq<Msg>): (r: Rec)
  {
    if x.time < |msgs| then x.(time := msgs[x.time].time) else x
  }

  function DatedQueue(q: Queue, msgs: seq<Msg>): (r: Queue)
    ensures |r| == |q| && forall i :: 0 <= i < |r| ==> r[i] == Dated(q[i], msgs)
  {
    seq(|q|, i requires 0 <= i < |q| => Dated(q[i], msgs))
  }

  function DatedArb(a: Arb, msgs: seq<Msg>): (r: Arb)
  {
    a.(blockFwd := DatedQueue(a.blockFwd, msgs), blockRev := DatedQueue(a.blockRev, msgs),
       allowFwd := DatedQueue(a.allowFwd, msgs), allowRev := DatedQueue(a.allowRev, msgs))
  }

  lemma DatedCons(x: Rec, q: Queue, msgs: seq<Msg>)
    ensures DatedQueue([x] + q, msgs) == [Dated(x, msgs)] + DatedQueue(q, msgs)
  {
    hide Dated;
  }

  lemma DatedTail(q: Queue, msgs: seq<Msg>)
    requires q != []
    ensures DatedQueue(q, msgs)[0] == Dated(q[0], msgs) && DatedQueue(q, msgs)[1..] == DatedQueue(q[1..], msgs)
  {
    hide Dated;
  }

  lemma DatedSame(x: Rec, msgs: seq<Msg>)
    ensures Dated(x, msgs).dev == x.dev && Dated(x, msgs).prio == x.prio
  {
  }

  lemma {:induction false} RemoveDated(q: Queue, dev: nat, msgs: seq<Msg>)
    ensures Remove(DatedQueue(q, msgs), dev) == DatedQueue(Remove(q, dev), msgs)
  {
    hide DatedQueue, Dated;
    if q != [] {
      DatedTail(q, msgs);
      DatedSame(q[0], msgs);
      RemoveDated(q[1..], dev, msgs);
      DatedCons(q[0], Remove(q[1..], dev), msgs);
    }
  }

  lemma {:induction false} InsertDated(q: Queue, x: Rec, msgs: seq<Msg>)
    ensures Insert(DatedQueue(q, msgs), Dated(x, msgs)) == DatedQueue(Insert(q, x), msgs)
  {
    hide DatedQueue, Dated;
    DatedSame(x, msgs);
    DatedCons(x, q, msgs);
    if q != [] {
      DatedTail(q, msgs);
      DatedSame(q[0], msgs);
      InsertDated(q[1..], x, msgs);
      DatedCons(q[0], Insert(q[1..], x), msgs);
    }
  }

  lemma HasDated(q: Queue, dev: nat, msgs: seq<Msg>)
    ensures Has(DatedQueue(q, msgs), dev) == Has(q, dev)
  {
    if Has(q, dev) {
      var i :| 0 <= i < |q| && q[i].dev == dev;
      assert DatedQueue(q, msgs)[i].dev == dev;
    }
    if Has(DatedQueue(q, msgs), dev) {
      var i :| 0 <= i < |q| && DatedQueue(q, msgs)[i].dev == dev;
      assert q[i].dev == dev;
    }
  }

  lemma SetAllowDated(q: Queue, block: Queue, x: Rec, msgs: seq<Msg>)
    ensures SetAllow(DatedQueue(q, msgs), DatedQueue(block, msgs), Dated(x, msgs)) == DatedQueue(SetAllow(q, block, x), msgs)
  {
    hide Remove, Insert;
    RemoveDated(q, x.dev, msgs);
    InsertDated(Remove(q, x.dev), x, msgs);
  }

  lemma SetBlockDated(q: Queue, x: Rec, msgs: seq<Msg>)
    ensures SetBlock(DatedQueue(q, msgs), Dated(x, msgs)) == DatedQueue(SetBlock(q, x), msgs)
  {
    hide Has;
    HasDated(q, x.dev, msgs);
    assert DatedQueue(q + [x], msgs) == DatedQueue(q, msgs) + [Dated(x, msgs)];
  }

  /** Arbitration never looks at a timestamp. */
  lemma ProcessDated(a0: Arb, m: Msg, msgs: seq<Msg>)
    requires m.time < |msgs|
    ensures Process(DatedArb(a0, msgs), m.(time := msgs[m.time].time)) == DatedArb(Process(a0, m), msgs)
  {
    hide Remove, SetAllow, SetBlock, DatedQueue;
    DropDated(a0, m, msgs);
    var a, x := DropOppositePower(a0, m), RecordOf(m);
    match m.cmd
    case RunFwd =>
      RemoveDated(a.blockFwd, m.dev, msgs);
      SetAllowDated(a.allowFwd, Remove(a.blockFwd, m.dev), x, msgs);
    case RunRev =>
      RemoveDated(a.blockRev, m.dev, msgs);
      SetAllowDated(a.allowRev, Remove(a.blockRev, m.dev), x, msgs);
    case Stop =>
      RemoveDated(a.allowFwd, m.dev, msgs);
      RemoveDated(a.allowRev, m.dev, msgs);
    case BlockFwd => SetBlockDated(a.blockFwd, x.(duty := 0), msgs);
    case BlockRev => SetBlockDated(a.blockRev, x.(duty := 0), msgs);
    case UnblockFwd => RemoveDated(a.blockFwd, m.dev, msgs);
    case UnblockRev => RemoveDated(a.blockRev, m.dev, msgs);
    case _ => NoneDated(msgs);
  }

  lemma NoneDated(msgs: seq<Msg>)
    ensures DatedQueue([], msgs) == []
  {
  }

  lemma DropDated(a: Arb, m: Msg, msgs: seq<Msg>)
    requires m.time < |msgs|
    ensures DropOppositePower(DatedArb(a, msgs), m.(time := msgs[m.time].time)) == DatedArb(DropOppositePower(a, m), msgs)
  {
    hide Remove, DatedQueue;
    RemoveDated(a.allowRev, DEV_POWER_NEG, msgs);
    RemoveDated(a.allowFwd, DEV_POWER_POS, msgs);
  }

  lemma ChooseDated(a: Arb, msgs: seq<Msg>)
    ensures Choose(DatedArb(a, msgs)) ==
      match Choose(a) case Chosen(x) => Chosen(Dated(x, msgs)) case c => c
  {
  }

  lemma DecideDated(a: Arb, msgs: seq<Msg>)
    ensures Decide(DatedArb(a, msgs)) == (DatedArb(Decide(a).0, msgs), Decide(a).1)
  {
    hide Choose, DatedQueue;
    ChooseDated(a, msgs);
  }

  /** The allow queues hold nothing but messages that arrived, as they arrived. */
  ghost predicate Sent(q: Queue, msgs: seq<Msg>)
  {
    forall x :: x in q ==> x.time < |msgs| && x == RecordOf(msgs[x.time])
  }

  lemma RemoveAmong(q: Queue, dev: nat, x: Rec)
    requires x in Remove(q, dev)
    ensures x in q
  {
    var k := RemoveIndex(q, dev);
  }

  lemma InsertAmong(q: Queue, x: Rec, y: Rec)
    requires y in Insert(q, x)
    ensures y in q || y == x
  {
    var k := InsertIndex(q, x);
  }

  lemma SetAllowAmong(q: Queue, block: Queue, x: Rec, y: Rec)
    requires y in SetAllow(q, block, x)
    ensures y in q || y == x
  {
    hide Remove, Insert;
    if y !in q {
      if y in Remove(q, x.dev) {
        RemoveAmong(q, x.dev, y);
      } else {
        InsertAmong(Remove(q, x.dev), x, y);
      }
    }
  }

  lemma ProcessAmong(a: Arb, m: Msg, y: Rec)
    ensures y in Process(a, m).allowFwd ==> y in a.allowFwd || y == RecordOf(m)
    ensures y in Process(a, m).allowRev ==> y in a.allowRev || y == RecordOf(m)
  {
    hide Remove, SetAllow, SetBlock;
    var d, x := DropOppositePower(a, m), RecordOf(m);
    RemovedAmong(a.allowFwd, DEV_POWER_POS, y);
    RemovedAmong(a.allowRev, DEV_POWER_NEG, y);
    RemovedAmong(d.allowFwd, m.dev, y);
    RemovedAmong(d.allowRev, m.dev, y);
    if y in SetAllow(d.allowFwd, Remove(d.blockFwd, m.dev), x) {
      SetAllowAmong(d.allowFwd, Remove(d.blockFwd, m.dev), x, y);
    }
    if y in SetAllow(d.allowRev, Remove(d.blockRev, m.dev), x) {
      SetAllowAmong(d.allowRev, Remove(d.blockRev, m.dev), x, y);
    }
  }

  lemma RemovedAmong(q: Queue, dev: nat, x: Rec)
    ensures x in Remove(q, dev) ==> x in q
  {
    if x in Remove(q, dev) {
      RemoveAmong(q, dev, x);
    }
  }

  lemma SentStep(a: Arb, m: Msg, msgs: seq<Msg>)
    requires m.time == |msgs| && Sent(a.allowFwd, msgs) && Sent(a.allowRev, msgs)
    ensures Sent(Process(a, m).allowFwd, msgs + [m]) && Sent(Process(a, m).allowRev, msgs + [m])
  {
    hide Process;
    forall x | x in Process(a, m).allowFwd || x in Process(a, m).allowRev
      ensures x.time < |msgs| + 1 && x == RecordOf((msgs + [m])[x.time])
    {
      ProcessAmong(a, m, x);
    }
  }

  /** Queue discipline after any messages whatever: bounded queues without duplicate devices, allow
      queues by priority and strictly first come first served, made of messages that arrived, never
      both supply directions allowed.  The queues are the real ones up to the timestamps, which are
      replaced by numbers of arrival. */
  lemma {:induction false} QueuesOk(msgs: seq<Msg>)
    ensures var a := After(Numbered(msgs));
      && Inv(a, |msgs|)
      && Sent(a.allowFwd, Numbered(msgs)) && Sent(a.allowRev, Numbered(msgs))
      && After(msgs) == DatedArb(a, msgs)
    decreases |msgs|
  {
    NumberedPrefix(msgs, |msgs|);
    assert Numbered(msgs)[..|msgs|] == Numbered(msgs) && msgs[..|msgs|] == msgs;
  }

  lemma {:induction false} NumberedPrefix(msgs: seq<Msg>, n: nat)
    requires n <= |msgs|
    ensures var a := After(Numbered(msgs)[..n]);
      && Inv(a, n)
      && Sent(a.allowFwd, Numbered(msgs)[..n]) && Sent(a.allowRev, Numbered(msgs)[..n])
      && After(msgs[..n]) == DatedArb(a, msgs)
    decreases n
  {
    hide AllowOk, BlockOk, Handle, Has;
    if n == 0 {
      EmptyOk();
    } else {
      NumberedPrefix(msgs, n - 1);
      NumberedStep(msgs, n);
    }
  }

  lemma EmptyOk()
    ensures Inv(Cleared(), 0)
  {
    HasNone();
  }

  lemma NumberedStep(msgs: seq<Msg>, n: nat)
    requires 0 < n <= |msgs|
    requires var a := After(Numbered(msgs)[..n - 1]);
      && Inv(a, n - 1)
      && Sent(a.allowFwd, Numbered(msgs)[..n - 1]) && Sent(a.allowRev, Numbered(msgs)[..n - 1])
      && After(msgs[..n - 1]) == DatedArb(a, msgs)
    ensures var a := After(Numbered(msgs)[..n]);
      && Inv(a, n)
      && Sent(a.allowFwd, Numbered(msgs)[..n]) && Sent(a.allowRev, Numbered(msgs)[..n])
      && After(msgs[..n]) == DatedArb(a, msgs)
  {
    hide *;
    var ns, m := Numbered(msgs), Numbered(msgs)[n - 1];
    NumberedAt(msgs, n - 1);
    AfterPrefix(ns, n);
    AfterPrefix(msgs, n);
    assert ns[..n] == ns[..n - 1] + [m];
    var a := After(ns[..n - 1]);
    ProcessKeeps(a, m);
    SentStep(a, m, ns[..n - 1]);
    ProcessDated(a, m, msgs);
    DecideDated(Process(a, m), msgs);
    DecideKeeps(Process(a, m), n);
  }

  lemma AfterPrefix(msgs: seq<Msg>, n: nat)
    requires 0 < n <= |msgs|
    ensures After(msgs[..n]) == Decide(Process(After(msgs[..n - 1]), msgs[n - 1])).0
  {
    hide Process, Decide;
    assert msgs[..n][..n - 1] == msgs[..n - 1];
  }

  lemma DecideKeeps(a: Arb, n: nat)
    requires Inv(a, n)
    ensures var r := Decide(a).0;
      Inv(r, n) && r.allowFwd == a.allowFwd && r.allowRev == a.allowRev
  {
    hide AllowOk, BlockOk, Has;
    DecideQueues(a);
  }

  lemma NumberedAt(msgs: seq<Msg>, i: nat)
    requires i < |msgs|
    ensures Numbered(msgs)[i] == msgs[i].(time := i) && msgs[i].(time := i).(time := msgs[i].time) == msgs[i]
  {
  }

  lemma DecideQueues(a: Arb)
    ensures var r := Decide(a).0;
      r.blockFwd == a.blockFwd && r.blockRev == a.blockRev && r.allowFwd == a.allowFwd && r.allowRev == a.allowRev
  {
  }

  // ------------------------------------------------ what a decision means

  /** x may drive the motor: it is allowed and its direction is not blocked. */
  ghost predicate Candidate(a: Arb, x: Rec, dir: Dir)
  {
    match dir
    case Fwd => a.blockFwd == [] && x in a.allowFwd
    case Rev => a.blockRev == [] && x in a.allowRev
    case None => false
  }

  function Opposite(dir: Dir): (r: Dir)
  {
    match dir case Fwd => Rev case Rev => Fwd case None => None
  }

  /** x beats every other candidate of its own direction, first come first served, and strictly every
      candidate of the opposite one. */
  ghost predicate Wins(a: Arb, x: Rec, dir: Dir)
  {
    && Candidate(a, x, dir)
    && (forall y :: Candidate(a, y, dir) && y != x ==> x.prio < y.prio || (x.prio == y.prio && x.time < y.time))
    && (forall y :: Candidate(a, y, Opposite(dir)) ==> x.prio < y.prio)
  }

  /** The first record of each unblocked direction names the same device. */
  predicate SameSource(a: Arb)
  {
    && a.blockFwd == [] && a.blockRev == [] && a.allowFwd != [] && a.allowRev != []
    && a.allowFwd[0].dev == a.allowRev[0].dev
  }

  /** A decision drives in a direction exactly when the axis is enabled, no single source claims both
      directions and a winner of that direction exists; it then drives with the winner's duty. */
  lemma DecisionRefines(a: Arb, time: nat, dir: Dir)
    requires Inv(a, time) && dir != None
    ensures var (r, out) := Decide(a);
      && (out.Drive? && out.dir == dir <==> a.enable && !SameSource(a) && exists x :: Wins(a, x, dir))
      && (out.Drive? ==> r.running && r.dir == out.dir && r.duty == out.duty)
      && (out.Drive? && out.dir == dir ==>
            exists x :: Wins(a, x, dir) && r.dev == x.dev && out.duty == x.duty)
      && (out.Halt? ==> !r.running && r.dir == None && r.duty == 0 && r.dev == 0)
  {
    var q := if dir == Fwd then a.allowFwd else a.allowRev;
    if q != [] {
      assert q[0] in q;
    }
    if a.allowFwd != [] && a.allowRev != [] {
      assert a.allowFwd[0] in a.allowFwd && a.allowRev[0] in a.allowRev;
    }
    if Decide(a).1.Drive? && Decide(a).1.dir == dir {
      HeadWins(a, time, dir);
    }
    if a.enable && !SameSource(a) && exists x :: Wins(a, x, dir) {
      var x :| Wins(a, x, dir);
      WinnerIsHead(a, time, dir, x);
    }
  }

  /** So it is for every decision of every sequence of messages: the queues right before it, numbered
      by arrival, tell which direction the last message makes the motor take. */
  lemma EveryDecisionRefines(msgs: seq<Msg>, dir: Dir)
    requires msgs != [] && dir != None
    ensures var n := |msgs| - 1;
      var a := Process(After(Numbered(msgs)[..n]), Numbered(msgs)[n]);
      var out := Handle(After(msgs[..n]), msgs[n]).1;
      && Inv(a, |msgs|)
      && (out.Drive? && out.dir == dir <==> a.enable && !SameSource(a) && exists x :: Wins(a, x, dir))
      && (out.Drive? && out.dir == dir ==> exists x :: Wins(a, x, dir) && out.duty == x.duty)
  {
    hide Process, Inv, Wins, SameSource, Decide, Numbered, DatedArb, Sent, After;
    var n, m := |msgs| - 1, Numbered(msgs)[|msgs| - 1];
    NumberedPrefix(msgs, n);
    NumberedAt(msgs, n);
    var a := After(Numbered(msgs)[..n]);
    ProcessKeeps(a, m);
    ProcessDated(a, m, msgs);
    DecideDated(Process(a, m), msgs);
    DecisionRefines(Process(a, m), |msgs|, dir);
  }

  lemma HeadFirst(q: Queue, cmd: Cmd, time: nat, y: Rec)
    requires AllowOk(q, cmd, time) && y in q
    ensures y == q[0] || q[0].prio < y.prio || (q[0].prio == y.prio && q[0].time < y.time)
  {
  }

  lemma HeadWins(a: Arb, time: nat, dir: Dir)
    requires Inv(a, time) && dir != None && Decide(a).1.Drive? && Decide(a).1.dir == dir
    ensures var q := if dir == Fwd then a.allowFwd else a.allowRev;
      q != [] && Wins(a, q[0], dir) && Decide(a).0.dev == q[0].dev && Decide(a).1.duty == q[0].duty
  {
    hide Sorted, Until, Unique, Has;
    forall y | y in a.allowFwd
      ensures y == a.allowFwd[0] || a.allowFwd[0].prio < y.prio || (a.allowFwd[0].prio == y.prio && a.allowFwd[0].time < y.time)
    {
      HeadFirst(a.allowFwd, RunFwd, time, y);
    }
    forall y | y in a.allowRev
      ensures y == a.allowRev[0] || a.allowRev[0].prio < y.prio || (a.allowRev[0].prio == y.prio && a.allowRev[0].time < y.time)
    {
      HeadFirst(a.allowRev, RunRev, time, y);
    }
    assert a.allowFwd != [] ==> a.allowFwd[0] in a.allowFwd;
    assert a.allowRev != [] ==> a.allowRev[0] in a.allowRev;
  }

  lemma WinnerIsHead(a: Arb, time: nat, dir: Dir, x: Rec)
    requires Inv(a, time) && dir != None && Wins(a, x, dir) && a.enable && !SameSource(a)
    ensures Decide(a).1.Drive? && Decide(a).1.dir == dir
  {
    hide Sorted, Until, Unique, Has;
    if a.allowFwd != [] {
      assert a.allowFwd[0] in a.allowFwd;
      assert a.allowFwd[0].cmd == RunFwd;
    }
    if a.allowRev != [] {
      assert a.allowRev[0] in a.allowRev;
      assert a.allowRev[0].cmd == RunRev;
    }
    if dir == Fwd {
      HeadFirst(a.allowFwd, RunFwd, time, x);
      if Candidate(a, a.allowFwd[0], Fwd) && a.blockRev == [] && a.allowRev != [] {
        assert Candidate(a, a.allowRev[0], Rev);
      }
    } else {
      HeadFirst(a.allowRev, RunRev, time, x);
      if Candidate(a, a.allowRev[0], Rev) && a.blockFwd == [] && a.allowFwd != [] {
        assert Candidate(a, a.allowFwd[0], Fwd);
      }
    }
  }
}
