/** Terminal framing on channel 0: the byte 0xFF followed by a terminal digit switches the
host's view to another terminal.

`Emit` is what each API call adds to the stream.  The host's decoder is defined
independently; the run theorem says that it always ends where the target believes it is
and sorts every text byte to the terminal it was meant for.
*/
module Terminal {
  import opened Ring
  import opened RttBuffer

  const TERMINALS: nat := 16
  const SWITCH: Byte := 0xFF

  /** '0'..'9', 'A'..'F'. */
  function IdByte(t: nat): (b: Byte)
    requires t < TERMINALS
    ensures b != SWITCH
  {
    if t < 10 then 0x30 + t else 0x41 + t - 10
  }

  datatype Call = SetTerminal(id: nat) | TerminalOut(id: nat, text: seq<Byte>) | Write(text: seq<Byte>)

  datatype Effect = Effect(bytes: seq<Byte>, active: nat, status: int)

  function SwitchTo(t: nat): (s: seq<Byte>)
    requires t < TERMINALS
  {
    [SWITCH, IdByte(t)]
  }

  /** Switch, text, switch back. */
  function Frame(id: nat, text: seq<Byte>, active: nat): (s: seq<Byte>)
    requires id < TERMINALS && active < TERMINALS
  {
    SwitchTo(id) + text + SwitchTo(active)
  }

  /** What a call adds to the stream, the terminal that is active afterwards and the result. */
  function Emit(flags: nat, avail: nat, active: nat, c: Call): (e: Effect)
    requires active < TERMINALS
    ensures e.active < TERMINALS
  {
    var mode := flags % 4;
    match c
    case SetTerminal(id) =>
      if id < TERMINALS && (mode == MODE_BLOCK || avail >= 2) then Effect(SwitchTo(id), id, 0)
      else Effect([], active, -1)
    case TerminalOut(id, text) =>
      if id >= TERMINALS then Effect([], active, -1)
      else if mode == MODE_SKIP then
        (if avail < |text| + 4 then Effect([], active, 0) else Effect(Frame(id, text, active), active, |text|))
      else if mode == MODE_TRIM then
        (if avail < 4 then Effect([], active, -1)
         else var n := Min(|text|, avail - 4); Effect(Frame(id, text[..n], active), active, n))
      else if mode == MODE_BLOCK then Effect(Frame(id, text, active), active, |text|)
      else Effect([], active, -1)
    case Write(text) =>
      var n := WriteSize(flags, avail, |text|);
      Effect(text[..n], active, n)
  }

  /** How much of a plain write is stored; the flags are compared unmasked here. */
  function WriteSize(flags: nat, avail: nat, n: nat): (k: nat)
    ensures k <= n
  {
    if flags == MODE_SKIP then (if avail < n then 0 else n)
    else if flags == MODE_TRIM then Min(avail, n)
    else if flags == MODE_BLOCK then n
    else 0
  }

  // ------------------------------------------------ the host

  /** Terminal shown, and whether a switch byte has been seen whose digit is still to come. */
  datatype Host = Host(term: nat, escaped: bool)

  type Tagged = seq<(nat, Byte)>

  function Digit(b: Byte): (t: nat)
  {
    if 0x30 <= b < 0x3A then b - 0x30 else if 0x41 <= b < 0x47 then b - 0x41 + 10 else TERMINALS
  }

  function HostByte(h: Host, b: Byte): (r: (Host, Tagged))
  {
    if h.escaped then (Host(if Digit(b) < TERMINALS then Digit(b) else h.term, false), [])
    else if b == 0xFF then (Host(h.term, true), [])
    else (h, [(h.term, b)])
  }

  function Decode(h: Host, s: seq<Byte>): (r: (Host, Tagged))
    decreases |s|
  {
    if s == [] then (h, [])
    else
      var (h1, out1) := HostByte(h, s[0]);
      var (h2, out2) := Decode(h1, s[1..]);
      (h2, out1 + out2)
  }

  lemma {:induction false} DecodeConcat(h: Host, a: seq<Byte>, b: seq<Byte>)
    ensures var (h1, out1) := Decode(h, a);
      var (h2, out2) := Decode(h1, b);
      Decode(h, a + b) == (h2, out1 + out2)
    decreases |a|
  {
    if a == [] {
      assert a + b == b;
      assert [] + Decode(h, b).1 == Decode(h, b).1;
    } else {
      assert (a + b)[1..] == a[1..] + b;
      var (h1, out1) := HostByte(h, a[0]);
      DecodeConcat(h1, a[1..], b);
      var (h2, out2) := Decode(h1, a[1..]);
      assert out1 + (out2 + Decode(h2, b).1) == out1 + out2 + Decode(h2, b).1;
    }
  }

  lemma DecodeSwitch(h: Host, t: nat)
    requires t < TERMINALS && !h.escaped
    ensures Decode(h, SwitchTo(t)) == (Host(t, false), [])
  {
    var s := SwitchTo(t);
    assert s[1..] == [IdByte(t)] && s[1..][1..] == [];
    assert Decode(Host(t, false), []) == (Host(t, false), []);
    assert Decode(Host(h.term, true), [IdByte(t)]).1 == [] + [];
  }

  /** Text as the host shows it on terminal t. */
  function Tag(t: nat, text: seq<Byte>): (r: Tagged)
  {
    seq(|text|, i requires 0 <= i < |text| => (t, text[i]))
  }

  lemma {:induction false} DecodeText(h: Host, text: seq<Byte>)
    requires !h.escaped && SWITCH !in text
    ensures Decode(h, text) == (h, Tag(h.term, text))
    decreases |text|
  {
    if text == [] {
      assert Tag(h.term, text) == [];
    } else {
      DecodeText(h, text[1..]);
      assert Tag(h.term, text) == [(h.term, text[0])] + Tag(h.term, text[1..]);
    }
  }

  lemma DecodeFrame(id: nat, text: seq<Byte>, active: nat)
    requires id < TERMINALS && active < TERMINALS && SWITCH !in text
    ensures Decode(Host(active, false), Frame(id, text, active)) == (Host(active, false), Tag(id, text))
  {
    DecodeConcat(Host(active, false), SwitchTo(id) + text, SwitchTo(active));
    DecodeConcat(Host(active, false), SwitchTo(id), text);
    DecodeSwitch(Host(active, false), id);
    DecodeText(Host(id, false), text);
    DecodeSwitch(Host(id, false), active);
    assert [] + Tag(id, text) + [] == Tag(id, text);
  }

  // ------------------------------------------------ whole runs

  /** A call with the flags and the free space it met. */
  datatype Event = Event(flags: nat, avail: nat, call: Call)

  predicate PlainText(c: Call)
  {
    c.SetTerminal? || SWITCH !in c.text
  }

  /** The part of its text a call delivers, with the terminal it belongs to. */
  function Intended(e: Event, active: nat): (r: Tagged)
    requires active < TERMINALS
  {
    match e.call
    case SetTerminal(_) => []
    case TerminalOut(id, text) =>
      if id < TERMINALS && Emit(e.flags, e.avail, active, e.call).bytes != []
      then Tag(id, text[..Min(|text|, if e.flags % 4 == MODE_TRIM then e.avail - 4 else |text|)])
      else []
    case Write(text) => Tag(active, text[..WriteSize(e.flags, e.avail, |text|)])
  }

  /** The stream, the active terminal and the intended output after a sequence of calls. */
  datatype Run = Run(stream: seq<Byte>, active: nat, intended: Tagged)

  function After(events: seq<Event>): (r: Run)
    ensures r.active < TERMINALS
    decreases |events|
  {
    if events == [] then Run([], 0, [])
    else
      var r := After(events[..|events| - 1]);
      var e := events[|events| - 1];
      var f := Emit(e.flags, e.avail, r.active, e.call);
      Run(r.stream + f.bytes, f.active, r.intended + Intended(e, r.active))
  }

  lemma EmitDecodes(e: Event, active: nat)
    requires active < TERMINALS && PlainText(e.call)
    ensures var f := Emit(e.flags, e.avail, active, e.call);
      Decode(Host(active, false), f.bytes) == (Host(f.active, false), Intended(e, active))
  {
    var f := Emit(e.flags, e.avail, active, e.call);
    match e.call
    case SetTerminal(id) =>
      if f.bytes != [] {
        DecodeSwitch(Host(active, false), id);
      }
    case TerminalOut(id, text) =>
      if f.bytes != [] {
        var n := Min(|text|, if e.flags % 4 == MODE_TRIM then e.avail - 4 else |text|);
        assert text[..|text|] == text;
        DecodeFrame(id, text[..n], active);
      }
    case Write(text) =>
      DecodeText(Host(active, false), f.bytes);
  }

  /** Framing: after any calls with text free of the switch byte, decoding the whole stream ends
      outside any switch pair, on the terminal the target holds active, and shows exactly the
      delivered text of each call on its own terminal. */
  lemma {:induction false} StreamDecodes(events: seq<Event>)
    requires forall i :: 0 <= i < |events| ==> PlainText(events[i].call)
    ensures var r := After(events);
      Decode(Host(0, false), r.stream) == (Host(r.active, false), r.intended)
    decreases |events|
  {
    if events != [] {
      var r := After(events[..|events| - 1]);
      var e := events[|events| - 1];
      StreamDecodes(events[..|events| - 1]);
      EmitDecodes(e, r.active);
      DecodeConcat(Host(0, false), r.stream, Emit(e.flags, e.avail, r.active, e.call).bytes);
    }
  }

  /** A host that has only received part of the stream shows a prefix of the intended output. */
  lemma PrefixDecodes(events: seq<Event>, received: seq<Byte>)
    requires forall i :: 0 <= i < |events| ==> PlainText(events[i].call)
    requires received <= After(events).stream
    ensures Decode(Host(0, false), received).1 <= After(events).intended
  {
    var s := After(events).stream;
    StreamDecodes(events);
    assert s == received + s[|received|..];
    DecodeConcat(Host(0, false), received, s[|received|..]);
  }

  /** A TerminalOut adds nothing, or one complete frame with all of its text; in trim mode the text
      may be cut, but only to what fits beside the two switches. */
  lemma OutIsFrame(flags: nat, avail: nat, active: nat, id: nat, text: seq<Byte>)
    requires active < TERMINALS && id < TERMINALS
    ensures var b := Emit(flags, avail, active, TerminalOut(id, text)).bytes;
      || b == []
      || b == Frame(id, text, active)
      || (flags % 4 == MODE_TRIM && |text| + 4 > avail >= 4 && |b| == avail && b == Frame(id, text[..avail - 4], active))
  {
    assert text[..|text|] == text;
  }

  /** How much of a text TerminalOut lets through: all of it, what fits beside the two switches, or, as
      a negative number, nothing at all. */
  ghost predicate LetsThrough(flags: nat, avail: nat, id: nat, size: nat, n: int)
  {
    var mode := flags % 4;
    if id >= 16 || mode == 3 then n == -1
    else if mode == 2 then n == size
    else if mode == 0 then n == if size + 4 <= avail then size else 0
    else if avail < 4 then n == -1
    else n <= size && n + 4 <= avail && (n == size || n + 4 == avail)
  }

  /** What the host shows of a TerminalOut: exactly the part of the text that is let through, on its own
      terminal, and then the active terminal again; the result counts that part. */
  lemma OutShown(flags: nat, avail: nat, active: nat, id: nat, text: seq<Byte>)
    requires active < TERMINALS && SWITCH !in text
    ensures var e := Emit(flags, avail, active, TerminalOut(id, text));
      && LetsThrough(flags, avail, id, |text|, e.status) && e.status <= |text| && e.active == active
      && Decode(Host(active, false), e.bytes) == (Host(active, false), if e.status >= 0 then Tag(id, text[..e.status]) else [])
      && (e.bytes == [] <==> e.status == -1 || (flags % 4 == 0 && avail < |text| + 4))
  {
    hide Decode, Tag;
    DecodeNone(active, id);
    var e := Emit(flags, avail, active, TerminalOut(id, text));
    assert text[..|text|] == text && text[..0] == [];
    if e.bytes != [] {
      DecodeFrame(id, text[..e.status], active);
    }
  }

  lemma DecodeNone(active: nat, id: nat)
    ensures Decode(Host(active, false), []) == (Host(active, false), []) && Tag(id, []) == []
  {
  }

  /** Selecting a terminal succeeds exactly when it exists and the pair goes through; the host then
      shows that terminal, otherwise nothing changes. */
  lemma SetShown(flags: nat, avail: nat, active: nat, id: nat)
    requires active < TERMINALS
    ensures var e := Emit(flags, avail, active, Call.SetTerminal(id));
      && (e.status == 0 <==> id < 16 && (flags % 4 == 2 || avail >= 2)) && (e.status != 0 ==> e.status == -1)
      && Decode(Host(active, false), e.bytes) == (Host(if e.status == 0 then id else active, false), [])
      && e.active == if e.status == 0 then id else active
  {
    hide Decode;
    DecodeNone(active, 0);
    if id < TERMINALS {
      DecodeSwitch(Host(active, false), id);
    }
  }

  /** A plain write shows the part it stores on the active terminal: all in blocking mode, all or nothing
      in skip mode, what fits in trim mode, nothing under any other flag value. */
  lemma WriteShown(flags: nat, avail: nat, active: nat, text: seq<Byte>)
    requires active < TERMINALS && SWITCH !in text
    ensures var e := Emit(flags, avail, active, Write(text));
      && 0 <= e.status <= |text| && e.active == active
      && Decode(Host(active, false), e.bytes) == (Host(active, false), Tag(active, text[..e.status]))
      && (flags == 2 ==> e.status == |text|) && (flags > 2 ==> e.status == 0)
      && (flags == 0 ==> e.status == if |text| <= avail then |text| else 0)
      && (flags == 1 ==> e.status <= avail && (e.status == |text| || e.status == avail))
  {
    hide Decode, Tag;
    DecodeText(Host(active, false), text[..WriteSize(flags, avail, |text|)]);
  }

  lemma FrameParts(s: seq<Byte>, id: nat, text: seq<Byte>, active: nat)
    requires id < TERMINALS && active < TERMINALS
    ensures s + SwitchTo(id) + text + SwitchTo(active) == s + Frame(id, text, active)
  {
  }

  // ------------------------------------------------ the calls as the target runs them

  class TerminalChannel {
    const ring: RttRing
    var active: nat

    ghost predicate Valid()
      reads this, ring
    {
      ring.Valid() && active < TERMINALS
    }

    constructor (ring: RttRing)
      requires ring.Valid()
      ensures Valid() && this.ring == ring && active == 0
    {
      this.ring := ring;
      active := 0;
    }

    method PostTerminalSwitch(id: nat)
      requires ring.Valid() && ring.buf.Length >= 2 && id < TERMINALS
      modifies ring`wrOff, ring`rdOff, ring`delivered, ring.buf
      ensures ring.Valid() && ring.Stream() == old(ring.Stream()) + SwitchTo(id)
      ensures old(ring.delivered) <= ring.delivered
    {
      var _ := ring.WriteBlocking([SWITCH, IdByte(id)]);
    }

    method SetTerminal(id: nat) returns (r: int)
      requires Valid() && (ring.flags % 4 == MODE_BLOCK ==> ring.buf.Length >= 2)
      modifies this`active, ring`wrOff, ring`rdOff, ring`delivered, ring.buf
      ensures Valid() && old(ring.delivered) <= ring.delivered
      ensures var e := Emit(ring.flags, old(ring.Abs().Avail()), old(active), Call.SetTerminal(id));
        active == e.active && r == e.status && ring.Stream() == old(ring.Stream()) + e.bytes
    {
      r := 0;
      if id < TERMINALS {
        var ac := [SWITCH, IdByte(id)];
        if ring.flags % 4 == MODE_BLOCK {
          active := id;
          var _ := ring.WriteBlocking(ac);
        } else {
          var avail := ring.GetAvailWriteSpace();
          if avail >= 2 {
            active := id;
            PutStream(ring.delivered, ring.Abs(), ac);
            ring.WriteNoCheck(ac);
          } else {
            r := -1;
          }
        }
      } else {
        r := -1;
      }
    }

    method PostFrame(id: nat, text: seq<Byte>) returns (status: int)
      requires Valid() && ring.buf.Length >= 2 && id < TERMINALS
      modifies ring`wrOff, ring`rdOff, ring`delivered, ring.buf
      ensures Valid() && old(ring.delivered) <= ring.delivered && status == |text|
      ensures ring.Stream() == old(ring.Stream()) + Frame(id, text, active)
    {
      hide SwitchTo, RttRing.Stream;
      FrameParts(ring.Stream(), id, text, active);
      PostTerminalSwitch(id);
      status := ring.WriteBlocking(text);
      PostTerminalSwitch(active);
    }

    method TerminalOut(id: nat, text: seq<Byte>) returns (status: int)
      requires Valid() && (ring.flags % 4 == MODE_BLOCK ==> ring.buf.Length >= 2)
      modifies ring`wrOff, ring`rdOff, ring`delivered, ring.buf
      ensures Valid() && old(ring.delivered) <= ring.delivered
      ensures var e := Emit(ring.flags, old(ring.Abs().Avail()), active, Call.TerminalOut(id, text));
        e.active == active && status == e.status && ring.Stream() == old(ring.Stream()) + e.bytes
    {
      status := -1;
      if id < TERMINALS {
        var avail := ring.GetAvailWriteSpace();
        var mode := ring.flags % 4;
        if mode == MODE_SKIP {
          if avail < |text| + 4 {
            status := 0;
          } else {
            status := PostFrame(id, text);
          }
        } else if mode == MODE_TRIM {
          if avail >= 4 {
            status := PostFrame(id, text[..if |text| < avail - 4 then |text| else avail - 4]);
          }
        } else if mode == MODE_BLOCK {
          status := PostFrame(id, text);
        }
      }
    }
  }
}
