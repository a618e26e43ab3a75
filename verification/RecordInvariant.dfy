/** What every save keeps true of the flash.

The used part of the current sector is a chain of slots that all start with the head
magic, followed by erased words.  The lemmas say how the scan sees each change a save
can make: a slot programmed partly or fully, a sequence word spoilt by an attempt to
overwrite the live record, a sector erased.
*/
module RecordInvariant {
  import opened Bits
  import opened Crc
  import opened RecordStore

  ghost predicate Blank(f: seq<Word>, a: nat, end: nat)
    requires end <= |f|
  {
    forall i :: a <= i < end ==> f[i] == ALL_ONES
  }

  /** Slots from a to exactly e, each with the head magic. */
  ghost predicate Chain(cfg: Config, f: seq<Word>, a: nat, e: nat)
    requires cfg.Layout() && e <= |f|
    decreases e - a
  {
    a == e || (a + cfg.size <= e && f[a] == cfg.magicHead && Chain(cfg, f, a + cfg.size, e))
  }

  /** The first k words of rec, placed at a. */
  function Place(f: seq<Word>, a: nat, rec: Record, k: nat): (r: seq<Word>)
    requires k <= |rec| && a + |rec| <= |f|
    ensures |r| == |f|
    ensures forall i :: 0 <= i < |f| ==> r[i] == if a <= i < a + k then rec[i - a] else f[i]
  {
    seq(|f|, i requires 0 <= i < |f| => if a <= i < a + k then rec[i - a] else f[i])
  }

  // ------------------------------------------------ the scan along a chain

  lemma SameRecord(cfg: Config, f: seq<Word>, g: seq<Word>, a: nat)
    requires a + cfg.size <= |f| && a + cfg.size <= |g|
    requires forall i :: a <= i < a + cfg.size ==> f[i] == g[i]
    ensures RecordAt(cfg, f, a) == RecordAt(cfg, g, a)
  {
  }

  lemma {:induction false} ScanFrame(cfg: Config, f: seq<Word>, g: seq<Word>, a: nat, end: nat)
    requires cfg.Layout() && end <= |f| && end <= |g|
    requires forall i :: a <= i < end ==> f[i] == g[i]
    ensures ScanFrom(cfg, f, a, end) == ScanFrom(cfg, g, a, end)
    decreases end - a
  {
    hide ValidRecord, RecordAt;
    if a + cfg.size <= end {
      if f[a] == cfg.magicHead {
        SameRecord(cfg, f, g, a);
        ScanFrame(cfg, f, g, a + cfg.size, end);
      } else if f[a] != ALL_ONES {
        ScanFrame(cfg, f, g, a + 1, end);
      }
    }
  }

  lemma {:induction false} ChainFrame(cfg: Config, f: seq<Word>, g: seq<Word>, a: nat, e: nat)
    requires cfg.Layout() && e <= |f| && e <= |g| && Chain(cfg, f, a, e)
    requires forall i :: a <= i < e ==> f[i] == cfg.magicHead ==> g[i] == cfg.magicHead
    ensures Chain(cfg, g, a, e)
    decreases e - a
  {
    if a != e {
      ChainFrame(cfg, f, g, a + cfg.size, e);
    }
  }

  /** Past the end of a chain the scan stops. */
  lemma {:induction false} ScanStops(cfg: Config, f: seq<Word>, a: nat, e: nat, lim: nat)
    requires cfg.Layout() && a <= e <= lim <= |f| && Chain(cfg, f, a, e)
    requires e + cfg.size > lim || f[e] == ALL_ONES
    ensures ScanFrom(cfg, f, a, lim) == ScanFrom(cfg, f, a, e)
    decreases e - a
  {
    if a != e {
      ScanStops(cfg, f, a + cfg.size, e, lim);
    }
  }

  lemma {:induction false} ScanAppend(cfg: Config, f: seq<Word>, a: nat, e: nat)
    requires cfg.Layout() && a <= e && e + cfg.size <= |f| && Chain(cfg, f, a, e)
    requires f[e] == cfg.magicHead
    ensures Chain(cfg, f, a, e + cfg.size)
    ensures ScanFrom(cfg, f, a, e + cfg.size)
         == ScanFrom(cfg, f, a, e) + if ValidRecord(cfg, RecordAt(cfg, f, e)) then [e] else []
    decreases e - a
  {
    if a != e {
      ScanAppend(cfg, f, a + cfg.size, e);
    }
  }

  lemma {:induction false} ChainLast(cfg: Config, f: seq<Word>, a: nat, e: nat)
    requires cfg.Layout() && a < e <= |f| && Chain(cfg, f, a, e)
    ensures a <= e - cfg.size && Chain(cfg, f, a, e - cfg.size) && f[e - cfg.size] == cfg.magicHead
    decreases e - a
  {
    if a + cfg.size != e {
      ChainLast(cfg, f, a + cfg.size, e);
    }
  }

  // ------------------------------------------------ what the scan finds

  /** Everything the scan finds is a valid record. */
  lemma {:induction false} ScanSound(cfg: Config, f: seq<Word>, a: nat, end: nat, h: nat)
    requires cfg.Layout() && end <= |f| && h in ScanFrom(cfg, f, a, end)
    ensures a <= h && h + cfg.size <= end && f[h] == cfg.magicHead && ValidRecord(cfg, RecordAt(cfg, f, h))
    decreases end - a
  {
    hide ValidRecord, RecordAt;
    if f[a] == cfg.magicHead {
      if h != a || h !in (if ValidRecord(cfg, RecordAt(cfg, f, a)) then [a] else []) {
        ScanSound(cfg, f, a + cfg.size, end, h);
      }
    } else {
      ScanSound(cfg, f, a + 1, end, h);
    }
  }

  /** Words that are neither erased nor a head magic. */
  ghost predicate Noise(cfg: Config, f: seq<Word>, a: nat, e: nat)
    requires e <= |f|
  {
    forall i :: a <= i < e ==> f[i] != cfg.magicHead && f[i] != ALL_ONES
  }

  lemma {:induction false} ScanSkipsNoise(cfg: Config, f: seq<Word>, a: nat, e: nat, end: nat)
    requires cfg.Layout() && a <= e && e + cfg.size <= end <= |f| && Noise(cfg, f, a, e)
    ensures ScanFrom(cfg, f, a, end) == ScanFrom(cfg, f, e, end)
    decreases e - a
  {
    hide ValidRecord, RecordAt;
    if a < e {
      ScanSkipsNoise(cfg, f, a + 1, e, end);
    }
  }

  lemma {:induction false} ScanPassesChain(cfg: Config, f: seq<Word>, a: nat, e: nat, end: nat, h: nat)
    requires cfg.Layout() && a <= e <= end <= |f| && Chain(cfg, f, a, e) && h in ScanFrom(cfg, f, e, end)
    ensures h in ScanFrom(cfg, f, a, end)
    decreases e - a
  {
    hide ValidRecord, RecordAt;
    if a != e {
      ScanPassesChain(cfg, f, a + cfg.size, e, end, h);
    }
  }

  /** The scan misses no valid record that stands behind spoilt words and any number of slots: it looks
      past what it does not know, slot by slot past what it knows. */
  lemma ScanComplete(cfg: Config, f: seq<Word>, sec: nat, e: nat, h: nat)
    requires cfg.Layout() && InFlash(cfg, f) && cfg.secEnd <= sec <= cfg.secStart
    requires SectorBase(sec) <= e <= h && h + cfg.size <= SectorBase(sec + 1)
    requires Noise(cfg, f, SectorBase(sec), e) && Chain(cfg, f, e, h)
    requires ValidRecord(cfg, RecordAt(cfg, f, h))
    ensures IsHit(cfg, f, sec, h)
  {
    assert f[h] == RecordAt(cfg, f, h)[0];
    assert h in ScanFrom(cfg, f, h, SectorBase(sec + 1));
    hide ScanFrom, ValidRecord, RecordAt, Chain, Noise;
    ScanPassesChain(cfg, f, e, h, SectorBase(sec + 1), h);
    ScanSkipsNoise(cfg, f, SectorBase(sec), e, SectorBase(sec + 1));
  }

  // ------------------------------------------------ one sector open for writing

  /** The current sector: a chain up to end, erased words after it. */
  ghost predicate Open(cfg: Config, f: seq<Word>, sec: nat, end: nat)
  {
    && cfg.Layout() && InFlash(cfg, f)
    && cfg.secEnd <= sec <= cfg.secStart
    && SectorBase(sec) <= end <= SectorBase(sec + 1)
    && Chain(cfg, f, SectorBase(sec), end)
    && Blank(f, end, SectorBase(sec + 1))
  }

  lemma OpenScan(cfg: Config, f: seq<Word>, sec: nat, end: nat)
    requires Open(cfg, f, sec, end)
    ensures ScanSector(cfg, f, sec) == ScanFrom(cfg, f, SectorBase(sec), end)
  {
    ScanStops(cfg, f, SectorBase(sec), end, SectorBase(sec + 1));
  }

  /** g differs from f only inside sector sec, and only at or after address a. */
  ghost predicate SameBefore(f: seq<Word>, g: seq<Word>, sec: nat, a: nat)
  {
    && |f| == |g|
    && forall i :: 0 <= i < |f| && !(a <= i < SectorBase(sec + 1)) ==> f[i] == g[i]
  }

  /** A hit outside the changed part was a hit before, with the same record. */
  lemma HitElsewhere(cfg: Config, f: seq<Word>, g: seq<Word>, sec: nat, a: nat, t: nat, h: nat)
    requires cfg.Layout() && InFlash(cfg, f) && SameBefore(f, g, sec, a)
    requires SectorBase(sec) <= a && t != sec && IsHit(cfg, g, t, h)
    ensures IsHit(cfg, f, t, h) && RecordAt(cfg, f, h) == RecordAt(cfg, g, h)
  {
    hide Checksum, ScanFrom;
    ScanFrame(cfg, f, g, SectorBase(t), SectorBase(t + 1));
  }

  /** Programming k words of a new record adds a hit only when the record is complete. */
  lemma PlacedHits(cfg: Config, f: seq<Word>, sec: nat, end: nat, rec: Record, k: nat)
    requires Open(cfg, f, sec, end) && end + cfg.size <= SectorBase(sec + 1)
    requires |rec| == cfg.size && rec[0] == cfg.magicHead && 0 < k <= cfg.size
    ensures var g := Place(f, end, rec, k);
      && Chain(cfg, g, SectorBase(sec), end + cfg.size)
      && ScanSector(cfg, g, sec) == ScanSector(cfg, f, sec)
                                    + if k == cfg.size && ValidRecord(cfg, rec) then [end] else []
  {
    hide Checksum, ScanFrom, Chain;
    var g := Place(f, end, rec, k);
    var base, lim := SectorBase(sec), SectorBase(sec + 1);
    ChainFrame(cfg, f, g, base, end);
    ScanAppend(cfg, g, base, end);
    ScanStops(cfg, g, base, end + cfg.size, lim);
    ScanFrame(cfg, f, g, base, end);
    OpenScan(cfg, f, sec, end);
    if k == cfg.size {
      assert RecordAt(cfg, g, end) == rec;
    } else {
      assert g[end + cfg.size - 1] == ALL_ONES;
    }
  }

  /** A hit before the write position kept its record. */
  lemma HitBefore(cfg: Config, f: seq<Word>, g: seq<Word>, sec: nat, a: nat, end: nat, h: nat)
    requires cfg.Layout() && InFlash(cfg, f) && SameBefore(f, g, sec, end)
    requires end <= |f| && h in ScanFrom(cfg, f, a, end)
    ensures h + cfg.size <= end && RecordAt(cfg, g, h) == RecordAt(cfg, f, h)
  {
    hide Checksum;
    assert forall i :: h <= i < h + cfg.size ==> f[i] == g[i];
  }

  lemma PlacedHit(cfg: Config, f: seq<Word>, sec: nat, end: nat, rec: Record, k: nat, t: nat, h: nat)
    requires Open(cfg, f, sec, end) && end + cfg.size <= SectorBase(sec + 1)
    requires |rec| == cfg.size && rec[0] == cfg.magicHead && k <= cfg.size
    requires IsHit(cfg, Place(f, end, rec, k), t, h)
    ensures var g := Place(f, end, rec, k);
      || (h == end && k == cfg.size && RecordAt(cfg, g, h) == rec)
      || (IsHit(cfg, f, t, h) && RecordAt(cfg, g, h) == RecordAt(cfg, f, h))
  {
    hide Checksum, ScanFrom, Chain;
    var g := Place(f, end, rec, k);
    if k == 0 {
      assert g == f;
    } else if t != sec {
      HitElsewhere(cfg, f, g, sec, end, t, h);
    } else {
      PlacedHits(cfg, f, sec, end, rec, k);
      PlacedHitHere(cfg, f, sec, end, rec, k, h);
    }
  }

  lemma PlacedHitHere(cfg: Config, f: seq<Word>, sec: nat, end: nat, rec: Record, k: nat, h: nat)
    requires Open(cfg, f, sec, end) && end + cfg.size <= SectorBase(sec + 1)
    requires |rec| == cfg.size && k <= cfg.size
    requires h in ScanSector(cfg, f, sec) || (h == end && k == cfg.size)
    ensures var g := Place(f, end, rec, k);
      || (h == end && k == cfg.size && RecordAt(cfg, g, h) == rec)
      || (h in ScanSector(cfg, f, sec) && RecordAt(cfg, g, h) == RecordAt(cfg, f, h))
  {
    hide Checksum, ScanFrom, Chain;
    var g := Place(f, end, rec, k);
    OpenScan(cfg, f, sec, end);
    if h in ScanSector(cfg, f, sec) {
      HitBefore(cfg, f, g, sec, SectorBase(sec), end, h);
    } else {
      assert RecordAt(cfg, g, end) == rec;
    }
  }

  lemma PlacedOpen(cfg: Config, f: seq<Word>, sec: nat, end: nat, rec: Record)
    requires Open(cfg, f, sec, end) && end + cfg.size <= SectorBase(sec + 1)
    requires |rec| == cfg.size && rec[0] == cfg.magicHead && ValidRecord(cfg, rec)
    ensures var g := Place(f, end, rec, cfg.size);
      && Open(cfg, g, sec, end + cfg.size)
      && RecordAt(cfg, g, end) == rec
      && IsHit(cfg, g, sec, end)
  {
    PlacedHits(cfg, f, sec, end, rec, cfg.size);
  }

  // ------------------------------------------------ erasing a sector

  lemma {:induction false} BlankScan(cfg: Config, f: seq<Word>, s: nat)
    requires cfg.Layout() && InFlash(cfg, f) && s <= cfg.secStart
    requires Blank(f, SectorBase(s), SectorBase(s + 1))
    ensures ScanSector(cfg, f, s) == []
  {
    assert f[SectorBase(s)] == ALL_ONES;
  }

  lemma ErasedOpen(cfg: Config, f: seq<Word>, s: nat)
    requires cfg.Layout() && InFlash(cfg, f) && cfg.secEnd <= s <= cfg.secStart
    ensures Open(cfg, Erase(f, s), s, SectorBase(s))
  {
  }

  lemma ErasedHit(cfg: Config, f: seq<Word>, s: nat, t: nat, h: nat)
    requires cfg.Layout() && InFlash(cfg, f) && cfg.secEnd <= s <= cfg.secStart
    requires IsHit(cfg, Erase(f, s), t, h)
    ensures t != s && IsHit(cfg, f, t, h) && RecordAt(cfg, Erase(f, s), h) == RecordAt(cfg, f, h)
  {
    var g := Erase(f, s);
    BlankScan(cfg, g, s);
    HitElsewhere(cfg, f, g, s, SectorBase(s), t, h);
  }

  // ------------------------------------------------ spoiling the live record

  /** A record whose sequence word changed fails its checksum. */
  lemma SpoiltInvalid(cfg: Config, rec: Record, x: Word)
    requires cfg.Layout() && |rec| == cfg.size && ValidRecord(cfg, rec) && x != rec[cfg.seqOff]
    ensures !ValidRecord(cfg, rec[cfg.seqOff := x])
  {
    var spoilt := rec[cfg.seqOff := x];
    OneWordDetected(rec[..cfg.checksumOff], spoilt[..cfg.checksumOff], cfg.seqOff);
  }

  ghost predicate LiveAt(cfg: Config, f: seq<Word>, sec: nat, end: nat)
  {
    && Open(cfg, f, sec, end)
    && SectorBase(sec) + cfg.size <= end
    && ValidRecord(cfg, RecordAt(cfg, f, end - cfg.size))
  }

  function Spoil(cfg: Config, f: seq<Word>, live: nat, x: Word): (g: seq<Word>)
    requires cfg.Layout() && live + cfg.size <= |f|
    ensures |g| == |f|
  {
    f[live + cfg.seqOff := x]
  }

  lemma SpoiltOpen(cfg: Config, f: seq<Word>, sec: nat, end: nat, x: Word)
    requires LiveAt(cfg, f, sec, end)
    ensures Open(cfg, Spoil(cfg, f, end - cfg.size, x), sec, end)
    ensures Chain(cfg, f, SectorBase(sec), end - cfg.size)
    ensures Chain(cfg, Spoil(cfg, f, end - cfg.size, x), SectorBase(sec), end - cfg.size)
    ensures f[end - cfg.size] == cfg.magicHead
  {
    hide Checksum, ScanFrom;
    var base, live := SectorBase(sec), end - cfg.size;
    var g := Spoil(cfg, f, live, x);
    ChainLast(cfg, f, base, end);
    ChainFrame(cfg, f, g, base, live);
    ScanAppend(cfg, g, base, live);
  }

  lemma LastScan(cfg: Config, g: seq<Word>, sec: nat, end: nat)
    requires Open(cfg, g, sec, end) && SectorBase(sec) + cfg.size <= end
    ensures ScanSector(cfg, g, sec) == ScanFrom(cfg, g, SectorBase(sec), end - cfg.size)
              + if ValidRecord(cfg, RecordAt(cfg, g, end - cfg.size)) then [end - cfg.size] else []
  {
    hide Checksum, ScanFrom, Chain;
    OpenScan(cfg, g, sec, end);
    ChainLast(cfg, g, SectorBase(sec), end);
    ScanAppend(cfg, g, SectorBase(sec), end - cfg.size);
  }

  /** The scan of the current sector ends with the live record, unless it was spoilt. */
  lemma SpoiltScan(cfg: Config, f: seq<Word>, sec: nat, end: nat, x: Word)
    requires LiveAt(cfg, f, sec, end)
    ensures ScanSector(cfg, Spoil(cfg, f, end - cfg.size, x), sec)
         == ScanFrom(cfg, f, SectorBase(sec), end - cfg.size)
            + if x == SeqAt(cfg, f, end - cfg.size) then [end - cfg.size] else []
  {
    hide Checksum, ScanFrom, Chain;
    var base, live := SectorBase(sec), end - cfg.size;
    var g := Spoil(cfg, f, live, x);
    SpoiltOpen(cfg, f, sec, end, x);
    LastScan(cfg, g, sec, end);
    ScanFrame(cfg, f, g, base, live);
    SpoiltRecord(cfg, f, live, x);
  }

  lemma SpoiltRecord(cfg: Config, f: seq<Word>, live: nat, x: Word)
    requires cfg.Layout() && live + cfg.size <= |f| && ValidRecord(cfg, RecordAt(cfg, f, live))
    ensures ValidRecord(cfg, RecordAt(cfg, Spoil(cfg, f, live, x), live)) <==> x == SeqAt(cfg, f, live)
  {
    var rec := RecordAt(cfg, f, live);
    assert RecordAt(cfg, Spoil(cfg, f, live, x), live) == rec[cfg.seqOff := x];
    if x != rec[cfg.seqOff] {
      SpoiltInvalid(cfg, rec, x);
    } else {
      assert rec[cfg.seqOff := x] == rec;
    }
  }

  lemma SpoiltHit(cfg: Config, f: seq<Word>, sec: nat, end: nat, x: Word, t: nat, h: nat)
    requires LiveAt(cfg, f, sec, end)
    requires IsHit(cfg, Spoil(cfg, f, end - cfg.size, x), t, h)
    ensures IsHit(cfg, f, t, h)
    ensures RecordAt(cfg, Spoil(cfg, f, end - cfg.size, x), h) == RecordAt(cfg, f, h)
    ensures h == end - cfg.size ==> x == SeqAt(cfg, f, h)
  {
    hide Checksum, ScanFrom, Chain;
    var live := end - cfg.size;
    var g := Spoil(cfg, f, live, x);
    if x == SeqAt(cfg, f, live) {
      assert g == f;
    } else if t != sec {
      HitElsewhere(cfg, f, g, sec, live, t, h);
    } else {
      SpoiltScan(cfg, f, sec, end, x);
      SpoiltScan(cfg, f, sec, end, SeqAt(cfg, f, live));
      assert Spoil(cfg, f, live, SeqAt(cfg, f, live)) == f;
      HitBefore(cfg, f, g, sec, SectorBase(sec), live, h);
    }
  }

  /** The live record of an open sector is a hit. */
  lemma LiveIsHit(cfg: Config, f: seq<Word>, sec: nat, end: nat)
    requires LiveAt(cfg, f, sec, end)
    ensures IsHit(cfg, f, sec, end - cfg.size)
  {
    SpoiltScan(cfg, f, sec, end, SeqAt(cfg, f, end - cfg.size));
    assert Spoil(cfg, f, end - cfg.size, SeqAt(cfg, f, end - cfg.size)) == f;
  }
}
