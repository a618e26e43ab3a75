/** Target and host working on the ring at the same time.

The target samples the read offset, copies byte by byte and only then publishes its
write offset; the host may read between any two of these steps.  Whatever the
interleaving, the host receives the accepted bytes in order, and no byte it has not
read yet is overwritten.
*/
module RingRuns {
  import opened Ring

  /** Where the target is: no write under way, about to sample the read offset, or copying
      the k-th of n bytes of a round. */
  datatype Phase =
    | Idle
    | Waiting(flags: nat, rest: seq<Byte>)
    | Copying(flags: nat, rest: seq<Byte>, n: nat, k: nat)

  /** Ring and target, with what the writes were given, what was published and what the host got. */
  datatype State = State(ring: Ring, phase: Phase, posted: seq<Byte>, accepted: seq<Byte>, delivered: seq<Byte>)

  datatype Action =
    | BeginWrite(flags: nat, data: seq<Byte>)
    | SampleRead
    | CopyByte
    | PublishWrite
    | HostRead(m: nat)

  predicate Enabled(s: State, a: Action)
    requires s.ring.Valid()
  {
    match a
    case BeginWrite(_, _) => s.phase.Idle?
    case SampleRead => s.phase.Waiting?
    case CopyByte => s.phase.Copying? && s.phase.k < s.phase.n && s.phase.k < |s.ring.buf| && s.phase.n <= |s.phase.rest|
    case PublishWrite =>
      s.phase.Copying? && s.phase.k == s.phase.n && s.phase.n < |s.ring.buf| && s.phase.n <= |s.phase.rest|
    case HostRead(m) => m <= s.ring.Used()
  }

  function Step(s: State, a: Action): (t: State)
    requires s.ring.Valid() && Enabled(s, a)
    ensures t.ring.Valid()
  {
    match a
    case BeginWrite(flags, data) =>
      s.(phase := Waiting(flags, data), posted := s.posted + if flags == MODE_BLOCK then data else [])
    case SampleRead =>
      var Waiting(flags, rest) := s.phase;
      var n := RoundSize(flags, s.ring, |rest|);
      s.(phase := Copying(flags, rest, n, 0),
         posted := s.posted + if flags == MODE_BLOCK then [] else rest[..n])
    case CopyByte =>
      s.(ring := Poke(s.ring, s.phase.k, s.phase.rest[s.phase.k]), phase := s.phase.(k := s.phase.k + 1))
    case PublishWrite =>
      var Copying(flags, rest, n, _) := s.phase;
      s.(ring := Publish(s.ring, n),
         accepted := s.accepted + rest[..n],
         phase := if flags == MODE_BLOCK && n < |rest| then Waiting(flags, rest[n..]) else Idle)
    case HostRead(m) =>
      s.(ring := Take(s.ring, m), delivered := s.delivered + s.ring.Unread()[..m])
  }

  /** What the write under way will still publish of what was posted. */
  function Pending(p: Phase): (data: seq<Byte>)
    requires p.Copying? ==> p.n <= |p.rest|
  {
    match p
    case Idle => []
    case Waiting(flags, rest) => if flags == MODE_BLOCK then rest else []
    case Copying(flags, rest, n, _) => if flags == MODE_BLOCK then rest else rest[..n]
  }

  /** The first k bytes of rest sit where a publish will expose them. */
  ghost predicate Staged(r: Ring, rest: seq<Byte>, k: nat)
    requires r.Valid() && k <= |rest| && k < |r.buf|
  {
    forall j :: 0 <= j < k ==> r.buf[Wrap(r.wr + j, |r.buf|)] == rest[j]
  }

  ghost predicate Inv(s: State)
  {
    && s.ring.Valid()
    && s.delivered + s.ring.Unread() == s.accepted
    && (s.phase.Copying? ==>
          && s.phase.k <= s.phase.n <= |s.phase.rest|
          && s.phase.n <= s.ring.Avail()
          && Staged(s.ring, s.phase.rest, s.phase.k))
    && s.accepted + Pending(s.phase) == s.posted
  }

  lemma PokeStages(r: Ring, rest: seq<Byte>, k: nat)
    requires r.Valid() && k < |rest| && k + 1 < |r.buf| && Staged(r, rest, k)
    ensures Staged(Poke(r, k, rest[k]), rest, k + 1)
  {
  }

  lemma NothingStaged(r: Ring, rest: seq<Byte>)
    requires r.Valid()
    ensures Staged(r, rest, 0)
  {
  }

  lemma CopyKeeps(s: State)
    requires Inv(s) && Enabled(s, CopyByte)
    ensures Inv(Step(s, CopyByte)) && Step(s, CopyByte).ring.Unread() == s.ring.Unread()
  {
    hide Wrap;
    PokeKeepsUnread(s.ring, s.phase.k, s.phase.rest[s.phase.k]);
    PokeStages(s.ring, s.phase.rest, s.phase.k);
  }

  lemma PublishKeeps(s: State)
    requires Inv(s) && Enabled(s, PublishWrite)
    ensures Inv(Step(s, PublishWrite))
    ensures Step(s, PublishWrite).ring.Unread() == s.ring.Unread() + s.phase.rest[..s.phase.n]
  {
    hide Wrap, Ring.Unread, Ring.Used;
    PublishAppends(s.ring, s.phase.rest[..s.phase.n]);
    PublishPending(s);
  }

  lemma TakeFrees(r: Ring, m: nat)
    requires r.Valid() && m <= r.Used()
    ensures Take(r, m).Avail() == r.Avail() + m
  {
  }

  lemma TakeStaged(r: Ring, rest: seq<Byte>, k: nat, m: nat)
    requires r.Valid() && k <= |rest| && k < |r.buf| && m <= r.Used() && Staged(r, rest, k)
    ensures Staged(Take(r, m), rest, k)
  {
  }

  lemma ReadKeeps(s: State, m: nat)
    requires Inv(s) && Enabled(s, HostRead(m))
    ensures Inv(Step(s, HostRead(m)))
    ensures Step(s, HostRead(m)).ring.Unread() == s.ring.Unread()[m..]
  {
    hide Wrap, Ring.Unread, Staged;
    TakeDrops(s.ring, m);
    TakeFrees(s.ring, m);
    if s.phase.Copying? {
      TakeStaged(s.ring, s.phase.rest, s.phase.k, m);
    }
    var unread := s.ring.Unread();
    assert s.delivered + unread[..m] + unread[m..] == s.delivered + unread;
  }

  /** Every step keeps the invariant; a step of the target only ever adds to what the host can read. */
  lemma StepKeeps(s: State, a: Action)
    requires Inv(s) && Enabled(s, a)
    ensures Inv(Step(s, a))
    ensures s.accepted <= Step(s, a).accepted && s.delivered <= Step(s, a).delivered
    ensures !a.HostRead? ==> s.ring.Unread() <= Step(s, a).ring.Unread()
  {
    hide Wrap, Staged;
    match a
    case BeginWrite(_, _) =>
    case SampleRead =>
      NothingStaged(s.ring, s.phase.rest);
    case CopyByte => CopyKeeps(s);
    case PublishWrite => PublishKeeps(s);
    case HostRead(m) => ReadKeeps(s, m);
  }

  lemma PublishPending(s: State)
    requires Inv(s) && Enabled(s, PublishWrite)
    ensures var t := Step(s, PublishWrite); t.accepted + Pending(t.phase) == t.posted
  {
    hide Wrap, Ring.Unread, Ring.Used, Staged;
    var rest, n := s.phase.rest, s.phase.n;
    assert s.accepted + rest == s.accepted + rest[..n] + rest[n..];
    if n == |rest| {
      assert rest[..n] == rest;
    }
  }

  // ------------------------------------------------ whole runs

  ghost predicate IsRun(states: seq<State>, actions: seq<Action>)
  {
    && |states| == |actions| + 1
    && (forall i :: 0 <= i < |states| ==> states[i].ring.Valid())
    && forall i :: 0 <= i < |actions| ==> Enabled(states[i], actions[i]) && states[i + 1] == Step(states[i], actions[i])
  }

  predicate Start(s: State)
  {
    s.ring.Valid() && s.ring.wr == s.ring.rd && s.phase.Idle? && s.posted == [] && s.accepted == [] && s.delivered == []
  }

  /** Position p of the buffer holds a byte the host has not read. */
  predicate Occupied(r: Ring, p: nat)
  {
    p < |r.buf| && if r.rd <= r.wr then r.rd <= p < r.wr else p >= r.rd || p < r.wr
  }

  lemma {:induction false} RunInv(states: seq<State>, actions: seq<Action>, i: nat)
    requires IsRun(states, actions) && Start(states[0]) && i < |states|
    ensures Inv(states[i])
  {
    if i > 0 {
      RunInv(states, actions, i - 1);
      StepKeeps(states[i - 1], actions[i - 1]);
      assert states[i] == Step(states[i - 1], actions[i - 1]);
    }
  }

  /** FIFO under every interleaving: what the host got, followed by what is still in the ring and by
      what the write under way will publish, is exactly what the writes posted, in order. */
  lemma Fifo(states: seq<State>, actions: seq<Action>, i: nat)
    requires IsRun(states, actions) && Start(states[0]) && i < |states|
    ensures states[i].phase.Copying? ==> states[i].phase.n <= |states[i].phase.rest|
    ensures states[i].delivered + states[i].ring.Unread() + Pending(states[i].phase) == states[i].posted
    ensures states[i].phase.Idle? ==> states[i].delivered + states[i].ring.Unread() == states[i].posted
  {
    RunInv(states, actions, i);
  }

  /** No byte the host has not read is overwritten: in any run, a step other than a host read leaves
      the unread bytes in place, and a write only ever touches free positions. */
  lemma UnreadNeverOverwritten(states: seq<State>, actions: seq<Action>, i: nat)
    requires IsRun(states, actions) && Start(states[0]) && i < |actions|
    ensures !actions[i].HostRead? ==> states[i].ring.Unread() <= states[i + 1].ring.Unread()
    ensures forall p: nat :: Occupied(states[i].ring, p) ==>
      p < |states[i + 1].ring.buf| && states[i + 1].ring.buf[p] == states[i].ring.buf[p]
  {
    RunInv(states, actions, i);
    StepKeeps(states[i], actions[i]);
    PositionsKept(states[i], actions[i]);
  }

  lemma PositionsKept(s: State, a: Action)
    requires Inv(s) && Enabled(s, a)
    ensures forall p: nat :: Occupied(s.ring, p) ==> p < |Step(s, a).ring.buf| && Step(s, a).ring.buf[p] == s.ring.buf[p]
  {
  }

  /** A skip write is all or nothing, decided by the space at the sample. */
  lemma SkipAllOrNothing(s: State)
    requires Inv(s) && s.phase.Waiting? && s.phase.flags == MODE_SKIP
    ensures Step(s, SampleRead).posted
         == s.posted + if s.ring.Avail() >= |s.phase.rest| then s.phase.rest else []
  {
    assert s.phase.rest[..|s.phase.rest|] == s.phase.rest;
  }

  /** A trimming write takes as much as fits at its sample, and no less. */
  lemma TrimTakesWhatFits(s: State)
    requires Inv(s) && s.phase.Waiting? && s.phase.flags == MODE_TRIM
    ensures var t := Step(s, SampleRead);
      exists n: nat :: n <= |s.phase.rest| && n <= s.ring.Avail() && (n == |s.phase.rest| || n == s.ring.Avail())
        && t.posted == s.posted + s.phase.rest[..n]
  {
    var n := RoundSize(MODE_TRIM, s.ring, |s.phase.rest|);
    assert Step(s, SampleRead).posted == s.posted + s.phase.rest[..n];
  }

  /** A round of a blocking write stores something whenever there is room. */
  lemma BlockingRoundProgresses(s: State)
    requires Inv(s) && s.phase.Waiting? && s.phase.flags == MODE_BLOCK && s.phase.rest != [] && s.ring.Avail() > 0
    ensures Step(s, SampleRead).phase.n > 0
  {
  }
}
