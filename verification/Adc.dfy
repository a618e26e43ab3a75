/** The sampling interrupt of one ADC channel: a ring of converted values and a sliding sum of
raw values.  Both are caches of the sample history, and the lemmas say so.
*/
module Adc {

  const RING_SIZE: nat := 256
  const MEAN_WINDOW: nat := 20

  type Raw = x: nat | x < 4096

  /** Conversion of a raw value to the channel's unit. */
  datatype Scale = Scale(vref: real, gain: real, offset: real, positive: bool)

  function Convert(sc: Scale, raw: nat): (r: real)
    ensures sc.positive ==> r >= 0.0
  {
    var x := raw as real * sc.vref / 4096.0 * sc.gain + sc.offset;
    if sc.positive && x < 0.0 then -x else x
  }

  /** The raw value can be read off the converted one: less the offset, as a fraction of the full range
      of 4096, it is raw times reference voltage times gain.  An absolute channel shows the magnitude. */
  lemma RawRecovered(sc: Scale, raw: nat)
    ensures var r := Convert(sc, raw);
      || (r - sc.offset) * 4096.0 == raw as real * (sc.vref * sc.gain)
      || (sc.positive && (-r - sc.offset) * 4096.0 == raw as real * (sc.vref * sc.gain))
    ensures !sc.positive ==> (Convert(sc, raw) - sc.offset) * 4096.0 == raw as real * (sc.vref * sc.gain)
    ensures sc.positive ==> Convert(sc, raw) >= 0.0
  {
    Scaled(raw as real, sc.vref, sc.gain);
  }

  lemma Scaled(x: real, v: real, g: real)
    ensures x * v / 4096.0 * g * 4096.0 == x * (v * g)
  {
    var y := x * v / 4096.0;
    assert y * 4096.0 == x * v;
    assert y * g * 4096.0 == (y * 4096.0) * g;
  }

  datatype Channel = Channel(
    ring: seq<real>, writeIdx: nat, count: nat,
    win: seq<nat>, meanIdx: nat, meanCnt: nat, sum: int)

  predicate Shaped(c: Channel)
  {
    |c.ring| == RING_SIZE && |c.win| == MEAN_WINDOW && c.writeIdx < RING_SIZE && c.meanIdx < MEAN_WINDOW
    && c.count <= RING_SIZE
  }

  function Cleared(): (c: Channel)
    ensures Shaped(c)
  {
    Channel(seq(RING_SIZE, _ => 0.0), 0, 0, seq(MEAN_WINDOW, _ => 0), 0, 0, 0)
  }

  /** What the interrupt does with one sample. */
  function Sample(c: Channel, sc: Scale, raw: Raw): (r: Channel)
    requires Shaped(c)
    ensures Shaped(r)
  {
    var a := c.(ring := c.ring[c.writeIdx := Convert(sc, raw)],
                writeIdx := (c.writeIdx + 1) % RING_SIZE,
                count := if c.count < RING_SIZE then c.count + 1 else c.count);
    if c.meanCnt < MEAN_WINDOW then
      a.(sum := c.sum + raw, win := c.win[c.meanIdx := raw],
         meanIdx := (c.meanIdx + 1) % MEAN_WINDOW, meanCnt := c.meanCnt + 1)
    else
      a.(sum := c.sum - c.win[c.meanIdx] + raw, win := c.win[c.meanIdx := raw],
         meanIdx := (c.meanIdx + 1) % MEAN_WINDOW)
  }

  function After(sc: Scale, hist: seq<Raw>): (c: Channel)
    ensures Shaped(c)
    decreases |hist|
  {
    if hist == [] then Cleared() else Sample(After(sc, hist[..|hist| - 1]), sc, hist[|hist| - 1])
  }

  function Min(a: nat, b: nat): (r: nat)
  {
    if a < b then a else b
  }

  /** The sum of the last k samples. */
  function SumLast(hist: seq<Raw>, k: nat): (s: nat)
    requires k <= |hist|
    decreases k
  {
    if k == 0 then 0 else SumLast(hist[..|hist| - 1], k - 1) + hist[|hist| - 1]
  }

  /** One more at the old end. */
  lemma {:induction false} SumLastOldest(hist: seq<Raw>, k: nat)
    requires k < |hist|
    ensures SumLast(hist, k + 1) == SumLast(hist, k) + hist[|hist| - 1 - k]
    decreases k
  {
    if k > 0 {
      SumLastOldest(hist[..|hist| - 1], k - 1);
    }
  }

  /** The caches of a channel hold the newest samples. */
  ghost predicate Agrees(c: Channel, sc: Scale, hist: seq<Raw>)
  {
    && Shaped(c)
    && c.count == Min(|hist|, RING_SIZE) && c.writeIdx == |hist| % RING_SIZE
    && (forall i :: |hist| - c.count <= i < |hist| ==> c.ring[i % RING_SIZE] == Convert(sc, hist[i]))
    && c.meanCnt == Min(|hist|, MEAN_WINDOW) && c.meanIdx == |hist| % MEAN_WINDOW
    && (forall i :: |hist| - c.meanCnt <= i < |hist| ==> c.win[i % MEAN_WINDOW] == hist[i])
    && c.sum == SumLast(hist, c.meanCnt)
  }

  /** Positions less than a ring apart do not collide, and the index goes round. */
  lemma RingIndex(i: nat, n: nat)
    ensures i < n < i + RING_SIZE ==> i % RING_SIZE != n % RING_SIZE
    ensures (n % RING_SIZE + 1) % RING_SIZE == (n + 1) % RING_SIZE
  {
  }

  lemma WindowApart(i: nat, n: nat)
    requires i < n < i + MEAN_WINDOW
    ensures i % MEAN_WINDOW != n % MEAN_WINDOW
  {
    var q := n / MEAN_WINDOW - i / MEAN_WINDOW;
    assert n - i == MEAN_WINDOW * q + (n % MEAN_WINDOW - i % MEAN_WINDOW);
  }

  lemma WindowNext(n: nat)
    ensures (n % MEAN_WINDOW + 1) % MEAN_WINDOW == (n + 1) % MEAN_WINDOW
  {
  }

  lemma WindowRound(i: nat)
    ensures (i + MEAN_WINDOW) % MEAN_WINDOW == i % MEAN_WINDOW
  {
  }

  lemma RingKeeps(c: Channel, sc: Scale, hist: seq<Raw>, raw: Raw)
    requires Agrees(c, sc, hist)
    ensures var r, h := Sample(c, sc, raw), hist + [raw];
      && r.count == Min(|h|, RING_SIZE) && r.writeIdx == |h| % RING_SIZE
      && forall i :: |h| - r.count <= i < |h| ==> r.ring[i % RING_SIZE] == Convert(sc, h[i])
  {
    var r, h := Sample(c, sc, raw), hist + [raw];
    hide Convert;
    RingIndex(0, |hist|);
    forall i | |h| - r.count <= i < |h|
      ensures r.ring[i % RING_SIZE] == Convert(sc, h[i])
    {
      if i < |hist| {
        RingIndex(i, |hist|);
      }
    }
  }

  lemma WindowKeeps(c: Channel, sc: Scale, hist: seq<Raw>, raw: Raw)
    requires Agrees(c, sc, hist)
    ensures var r, h := Sample(c, sc, raw), hist + [raw];
      && r.meanCnt == Min(|h|, MEAN_WINDOW) && r.meanIdx == |h| % MEAN_WINDOW
      && forall i :: |h| - r.meanCnt <= i < |h| ==> r.win[i % MEAN_WINDOW] == h[i]
  {
    var r, h := Sample(c, sc, raw), hist + [raw];
    hide Convert;
    WindowNext(|hist|);
    forall i | |h| - r.meanCnt <= i < |h|
      ensures r.win[i % MEAN_WINDOW] == h[i]
    {
      if i < |hist| {
        WindowApart(i, |hist|);
      }
    }
  }

  lemma SumKeeps(c: Channel, sc: Scale, hist: seq<Raw>, raw: Raw)
    requires Agrees(c, sc, hist)
    ensures var r, h := Sample(c, sc, raw), hist + [raw];
      r.meanCnt <= |h| && r.sum == SumLast(h, r.meanCnt)
  {
    var h := hist + [raw];
    assert h[..|h| - 1] == hist;
    if c.meanCnt == MEAN_WINDOW {
      var k := |hist| - MEAN_WINDOW;
      SumLastOldest(hist, MEAN_WINDOW - 1);
      WindowRound(k);
      assert c.win[k % MEAN_WINDOW] == hist[k];
      assert SumLast(h, MEAN_WINDOW) == SumLast(hist, MEAN_WINDOW - 1) + raw;
    }
  }

  lemma AfterStep(sc: Scale, hist: seq<Raw>, raw: Raw)
    ensures After(sc, hist + [raw]) == Sample(After(sc, hist), sc, raw)
  {
    hide Sample;
    assert (hist + [raw])[..|hist|] == hist;
  }

  /** After any number of samples the caches agree with the history. */
  lemma {:induction false} CachesAgree(sc: Scale, hist: seq<Raw>)
    ensures Agrees(After(sc, hist), sc, hist)
    decreases |hist|
  {
    if hist != [] {
      hide Sample, Convert;
      var before, raw := hist[..|hist| - 1], hist[|hist| - 1];
      CachesAgree(sc, before);
      assert before + [raw] == hist;
      RingKeeps(After(sc, before), sc, before, raw);
      WindowKeeps(After(sc, before), sc, before, raw);
      SumKeeps(After(sc, before), sc, before, raw);
    }
  }

  /** Count and sum behind the mean: that of the last min(n, 20) raw samples. */
  lemma WindowSum(sc: Scale, hist: seq<Raw>)
    ensures var c := After(sc, hist);
      c.meanCnt == Min(|hist|, 20) && c.sum == SumLast(hist, c.meanCnt)
  {
    CachesAgree(sc, hist);
  }

  /** The floor average of the last min(n, 20) samples. */
  function Mean(hist: seq<Raw>): (m: nat)
    requires hist != []
  {
    SumLast(hist, Min(|hist|, MEAN_WINDOW)) / Min(|hist|, MEAN_WINDOW)
  }

  /** The newest samples, newest first. */
  function Newest(sc: Scale, hist: seq<Raw>, n: nat): (r: seq<real>)
    requires n <= |hist|
    ensures |r| == n
  {
    seq(n, i requires 0 <= i < n => Convert(sc, hist[|hist| - 1 - i]))
  }

  // ------------------------------------------------ the channel as the firmware runs it

  class AdcChannel {
    const sc: Scale
    const ring: array<real>
    const win: array<nat>
    var writeIdx: nat
    var count: nat
    var meanIdx: nat
    var meanCnt: nat
    var sum: int
    ghost var hist: seq<Raw>

    ghost function View(): (c: Channel)
      reads this, ring, win
    {
      Channel(ring[..], writeIdx, count, win[..], meanIdx, meanCnt, sum)
    }

    ghost predicate Valid()
      reads this, ring, win
    {
      View() == After(sc, hist)
    }

    constructor (sc: Scale)
      ensures this.sc == sc && Valid() && hist == [] && fresh(ring) && fresh(win)
    {
      this.sc := sc;
      ring := new real[RING_SIZE](_ => 0.0);
      win := new nat[MEAN_WINDOW](_ => 0);
      writeIdx, count, meanIdx, meanCnt, sum, hist := 0, 0, 0, 0, 0, [];
      new;
      assert ring[..] == Cleared().ring && win[..] == Cleared().win;
    }

    /** The end-of-conversion interrupt. */
    method OnSample(raw: Raw)
      requires Valid()
      modifies this`writeIdx, this`count, this`meanIdx, this`meanCnt, this`sum, this`hist, ring, win
      ensures Valid() && hist == old(hist) + [raw]
    {
      hide Convert, After;
      ghost var c := View();
      AfterStep(sc, hist, raw);
      ring[writeIdx] := Convert(sc, raw);
      writeIdx := (writeIdx + 1) % RING_SIZE;
      if count < RING_SIZE {
        count := count + 1;
      }
      if meanCnt < MEAN_WINDOW {
        sum := sum + raw;
        win[meanIdx] := raw;
        meanIdx := (meanIdx + 1) % MEAN_WINDOW;
        meanCnt := meanCnt + 1;
      } else {
        sum := sum - win[meanIdx];
        sum := sum + raw;
        win[meanIdx] := raw;
        meanIdx := (meanIdx + 1) % MEAN_WINDOW;
      }
      hist := hist + [raw];
      assert ring[..] == Sample(c, sc, raw).ring && win[..] == Sample(c, sc, raw).win;
    }

    method GetMean() returns (r: real)
      requires Valid()
      ensures r == if hist == [] then 0.0 else Convert(sc, Mean(hist))
    {
      hide Convert, After, SumLast;
      WindowSum(sc, hist);
      if meanCnt == 0 {
        return 0.0;
      }
      r := Convert(sc, sum / meanCnt);
    }

    /** Copies at most `max` samples, newest first. */
    method ReadRing(max: nat) returns (data: seq<real>)
      requires Valid()
      ensures data == Newest(sc, hist, Min(Min(|hist|, 256), max))
    {
      hide Convert, After, Agrees;
      CachesAgree(sc, hist);
      RingCount(View(), sc, hist);
      var n := if count < max then count else max;
      data := [];
      var i := 0;
      while i < n
        invariant 0 <= i <= n && |data| == i
        invariant forall k :: 0 <= k < i ==> data[k] == Convert(sc, hist[|hist| - 1 - k])
      {
        RingBack(View(), sc, hist, i);
        data := data + [ring[(writeIdx + RING_SIZE - 1 - i) % RING_SIZE]];
        i := i + 1;
      }
    }
  }

  lemma BackIndex(n: nat, i: nat)
    requires i < n && i < RING_SIZE
    ensures (n % RING_SIZE + RING_SIZE - 1 - i) % RING_SIZE == (n - 1 - i) % RING_SIZE
  {
  }

  lemma RingCount(c: Channel, sc: Scale, hist: seq<Raw>)
    requires Agrees(c, sc, hist)
    ensures Shaped(c) && c.count == Min(|hist|, RING_SIZE)
  {
  }

  /** Where the ring keeps the sample i places before the newest. */
  lemma RingBack(c: Channel, sc: Scale, hist: seq<Raw>, i: nat)
    requires Agrees(c, sc, hist) && i < c.count
    ensures |c.ring| == RING_SIZE && i < |hist|
    ensures c.ring[(c.writeIdx + RING_SIZE - 1 - i) % RING_SIZE] == Convert(sc, hist[|hist| - 1 - i])
  {
    hide Convert;
    BackIndex(|hist|, i);
  }
}
