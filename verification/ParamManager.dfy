/** The record store as the firmware runs it: flash and record buffer changed in place,
with the scan, write, verify and retry loops.  Every method is tied to the functions of
RecordStore, about which the run theorems are proved.
*/
module ParamManager {
  import opened Bits
  import opened Crc
  import opened RecordStore

  const PARAM_OK: int := 0
  const PARAM_ERR: int := -1
  const PARAM_ERR_INVD_PARAM: int := -3

  predicate SizeAccepted(cfg: Config)
  {
    0 < cfg.size <= MAX_RECORD_WORDS
  }

  /** How one found block, or none, moves the scan on. */
  lemma BestStep(cfg: Config, f: seq<Word>, found: bool, a: nat, rest: seq<nat>, later: seq<nat>, best: Option<nat>)
    requires cfg.Layout() && (found ==> a + cfg.size <= |f|)
    requires forall i :: 0 <= i < |rest| ==> rest[i] + cfg.size <= |f|
    requires forall i :: 0 <= i < |later| ==> later[i] + cfg.size <= |f|
    requires best.Some? ==> best.value + cfg.size <= |f|
    ensures Best(cfg, f, ((if found then [a] else []) + rest) + later, best)
         == Best(cfg, f, rest + later, if found then Better(cfg, f, best, a) else best)
  {
    if found {
      assert ([a] + rest) + later == [a] + (rest + later);
      assert ([a] + (rest + later))[1..] == rest + later;
    } else {
      assert ([] + rest) + later == rest + later;
    }
  }

  class ParamStore {
    const cfg: Config
    const flash: array<Word>
    const buf: array<Word>
    var currSec: nat
    var currAddr: nat
    ghost var log: seq<Op>

    ghost predicate Valid()
      reads this
    {
      flash != buf && buf.Length == cfg.size && cfg.Layout() && flash.Length >= SectorBase(cfg.secStart + 1)
    }

    ghost function Abs(): (st: Store)
      reads this, flash, buf
    {
      Store(flash[..], buf[..], currSec, currAddr, log)
    }

    constructor (cfg: Config, flash: array<Word>, buf: array<Word>)
      ensures this.cfg == cfg && this.flash == flash && this.buf == buf && log == []
    {
      this.cfg := cfg;
      this.flash := flash;
      this.buf := buf;
      currSec, currAddr := 0, 0;
      log := [];
    }

    /** Erasing sets every bit of the sector. */
    method EraseSector(s: nat)
      requires Valid() && s <= cfg.secStart
      modifies flash, this`log
      ensures Abs() == old(Abs()).(flash := Erase(old(flash[..]), s), log := old(log) + [EraseOp(s)])
    {
      forall i | SectorBase(s) <= i < SectorBase(s + 1) {
        flash[i] := ALL_ONES;
      }
      log := log + [EraseOp(s)];
      assert flash[..] == Erase(old(flash[..]), s);
      assert buf[..] == old(buf[..]);
    }

    /** Programming clears bits; success means the word reads back as written. */
    method WriteWord(a: nat, d: Word) returns (ok: bool)
      requires Valid() && a < flash.Length
      modifies flash, this`log
      ensures Abs() == old(Abs()).(flash := Program(old(flash[..]), a, d), log := old(log) + [ProgramOp(a, d)])
      ensures ok <==> flash[a] == d
    {
      flash[a] := And(flash[a], d);
      log := log + [ProgramOp(a, d)];
      ok := flash[a] == d;
      assert flash[..] == Program(old(flash[..]), a, d);
      assert buf[..] == old(buf[..]);
    }

    method WriteBuffer(a: nat) returns (ok: bool)
      requires Valid() && a + cfg.size <= flash.Length
      modifies flash, this`log
      ensures var w := WriteFrom(old(flash[..]), old(log), a, buf[..], 0);
        && Abs() == old(Abs()).(flash := w.flash, log := w.log)
        && ok == w.ok
    {
      ghost var rec := buf[..];
      var i := 0;
      while i < cfg.size
        invariant 0 <= i <= cfg.size
        invariant buf[..] == rec && |rec| == cfg.size
        invariant WriteFrom(flash[..], log, a, rec, i) == WriteFrom(old(flash[..]), old(log), a, rec, 0)
      {
        ghost var before := flash[..];
        ok := WriteWord(a + i, buf[i]);
        assert flash[..][a + i] == flash[a + i];
        if !ok {
          return false;
        }
        i := i + 1;
      }
      ok := true;
    }

    method VerifyBuffer(a: nat) returns (same: bool)
      requires Valid() && a + cfg.size <= flash.Length
      ensures same <==> RecordAt(cfg, flash[..], a) == buf[..]
    {
      var i := 0;
      while i < cfg.size
        invariant 0 <= i <= cfg.size
        invariant forall j :: 0 <= j < i ==> flash[a + j] == buf[j]
      {
        if flash[a + i] != buf[i] {
          assert RecordAt(cfg, flash[..], a)[i] != buf[..][i];
          return false;
        }
        i := i + 1;
      }
      same := true;
    }

    /** Makes room for one record: erases the full sector, or the next one when this one is worn. */
    method PrepareSlot()
      requires Valid() && Usable(cfg, Abs())
      modifies this`currSec, this`currAddr, this`log, flash, buf
      ensures Abs() == MakeRoom(cfg, old(Abs()))
    {
      if currAddr + cfg.size > SectorBase(currSec + 1) {
        var count := buf[cfg.eraseOff];
        if count < MAX_ERASE_LIFE {
          EraseSector(currSec);
          buf[cfg.eraseOff] := count + 1;
        } else {
          currSec := if currSec <= cfg.secEnd then cfg.secStart else currSec - 1;
          EraseSector(currSec);
          buf[cfg.eraseOff] := 1;
        }
        currAddr := SectorBase(currSec);
        assert buf[..] == MakeRoom(cfg, old(Abs())).buf;
        assert flash[..] == MakeRoom(cfg, old(Abs())).flash;
      }
    }

    method StampBuffer()
      requires Valid()
      modifies buf
      ensures buf[..] == Stamp(cfg, old(buf[..]))
    {
      buf[cfg.seqOff] := (buf[cfg.seqOff] + 1) % WORD_LIMIT;
      ghost var rec := old(buf[..])[cfg.seqOff := (old(buf[cfg.seqOff]) + 1) % WORD_LIMIT];
      assert buf[..] == rec;
      var crc := CalcParamCrc(buf[..], cfg.checksumOff);
      buf[cfg.checksumOff] := crc;
    }

    method TryOnce() returns (ok: bool)
      requires Valid() && Usable(cfg, Abs()) && currAddr + cfg.size <= SectorBase(currSec + 1)
      modifies this`currAddr, this`log, flash, buf
      ensures Abs() == Attempt(cfg, old(Abs())).store
      ensures ok == Attempt(cfg, old(Abs())).ok
    {
      StampBuffer();
      assert flash[..] == old(flash[..]);
      ok := WriteBuffer(currAddr);
      if ok {
        ok := VerifyBuffer(currAddr);
      }
      currAddr := currAddr + cfg.size;
    }

    /** Appends the buffer as a new record, retrying one slot further on after a failure. */
    method SaveRecord() returns (res: int)
      requires Valid() && Usable(cfg, Abs())
      modifies this`currSec, this`currAddr, this`log, flash, buf
      ensures Abs() == Save(cfg, old(Abs())).store
      ensures res == if Save(cfg, old(Abs())).ok then PARAM_OK else PARAM_ERR
    {
      hide Attempt, MakeRoom;
      var retry := 0;
      while retry < MAX_WRITE_RETRY
        invariant 0 <= retry <= MAX_WRITE_RETRY
        invariant Usable(cfg, Abs())
        invariant SaveFrom(cfg, Abs(), retry) == Save(cfg, old(Abs()))
      {
        PrepareSlot();
        var ok := TryOnce();
        if ok {
          return PARAM_OK;
        }
        retry := retry + 1;
      }
      res := PARAM_ERR;
    }

    /** Reads a candidate block as the scan does: tail magic first, then the checksum. */
    method CheckBlock(a: nat) returns (valid: bool)
      requires Valid() && a + cfg.size <= flash.Length && flash[a] == cfg.magicHead
      ensures valid <==> ValidRecord(cfg, RecordAt(cfg, flash[..], a))
    {
      hide Checksum;
      var block := flash[a..a + cfg.size];
      assert block == RecordAt(cfg, flash[..], a);
      valid := false;
      if block[cfg.size - 1] == cfg.magicTail {
        var crc := CalcParamCrc(block, cfg.checksumOff);
        valid := crc == block[cfg.checksumOff];
      }
    }

    method KeepBetter(best: Option<nat>, a: nat) returns (r: Option<nat>)
      requires Valid() && a + cfg.size <= flash.Length
      requires best.Some? ==> best.value + cfg.size <= flash.Length
      ensures r == Better(cfg, flash[..], best, a)
    {
      if best.None? || flash[a + cfg.seqOff] > flash[best.value + cfg.seqOff] {
        r := Some(a);
      } else {
        r := best;
      }
    }

    /** Scans one sector, keeping the best block seen so far; `later` are the hits still to come. */
    method ScanOneSector(s: nat, best: Option<nat>, ghost later: seq<nat>) returns (r: Option<nat>)
      requires Valid() && s <= cfg.secStart
      requires best.Some? ==> best.value + cfg.size <= flash.Length
      requires forall i :: 0 <= i < |later| ==> later[i] + cfg.size <= flash.Length
      ensures r.Some? ==> r.value + cfg.size <= flash.Length
      ensures Best(cfg, flash[..], later, r) == Best(cfg, flash[..], ScanSector(cfg, flash[..], s) + later, best)
    {
      hide ValidRecord, Best, Better, Checksum, HitsFrom, RecordAt;
      ghost var f := flash[..];
      var a, end := SectorBase(s), SectorBase(s + 1);
      r := best;
      while a + cfg.size <= end
        invariant a <= end && flash[..] == f
        invariant r.Some? ==> r.value + cfg.size <= |f|
        invariant Best(cfg, f, ScanFrom(cfg, f, a, end) + later, r)
               == Best(cfg, f, ScanSector(cfg, f, s) + later, best)
        decreases end - a
      {
        var head := flash[a];
        ghost var hits := ScanFrom(cfg, f, a, end);
        if head == cfg.magicHead {
          var valid := CheckBlock(a);
          BestStep(cfg, f, valid, a, ScanFrom(cfg, f, a + cfg.size, end), later, r);
          if valid {
            r := KeepBetter(r, a);
          }
          a := a + cfg.size;
        } else if head == ALL_ONES {
          assert hits + later == later;
          return;
        } else {
          a := a + 1;
        }
      }
      assert ScanFrom(cfg, f, a, end) + later == later;
    }

    /** Boots the store: loads the newest valid record, or starts over with the defaults, in which case
        the caller's default-setting callback has run. */
    method InitStore(defaults: seq<Word>) returns (res: int, defaulted: bool)
      requires SizeAccepted(cfg) ==> Valid() && |defaults| == cfg.size
      modifies this`currSec, this`currAddr, this`log, flash, buf
      ensures !SizeAccepted(cfg) ==> res == PARAM_ERR_INVD_PARAM && Abs() == old(Abs())
      ensures SizeAccepted(cfg) ==>
        && res == PARAM_OK && Abs() == Boot(cfg, defaults, old(flash[..]), old(log))
        && defaulted == Newest(cfg, old(flash[..])).None?
    {
      defaulted := false;
      if cfg.size == 0 || cfg.size > MAX_RECORD_WORDS {
        return PARAM_ERR_INVD_PARAM, false;
      }
      var best := FindNewest();
      if best.Some? {
        hide Newest, Save;
        LoadBlock(best.value);
        currSec, currAddr := best.value / SECTOR_WORDS, best.value;
      } else {
        defaulted := true;
        StartOver(defaults);
      }
      res := PARAM_OK;
    }

    method LoadBlock(a: nat)
      requires Valid() && a + cfg.size <= flash.Length
      modifies buf
      ensures buf[..] == RecordAt(cfg, flash[..], a)
    {
      forall i | 0 <= i < cfg.size {
        buf[i] := flash[a + i];
      }
    }

    method FindNewest() returns (best: Option<nat>)
      requires Valid()
      ensures best == Newest(cfg, flash[..])
    {
      hide ScanSector, Better;
      ghost var f := flash[..];
      best := None;
      var s: int := cfg.secStart;
      while s >= cfg.secEnd
        invariant cfg.secEnd - 1 <= s <= cfg.secStart && flash[..] == f
        invariant best.Some? ==> best.value + cfg.size <= |f|
        invariant Best(cfg, f, HitsFrom(cfg, f, s), best) == Newest(cfg, f)
        decreases s + 1 - cfg.secEnd
      {
        best := ScanOneSector(s, best, HitsFrom(cfg, f, s - 1));
        s := s - 1;
      }
    }

    /** No valid record anywhere: erase the first sector and save the defaults there. */
    method StartOver(defaults: seq<Word>)
      requires Valid() && |defaults| == cfg.size
      requires Newest(cfg, flash[..]).None?
      modifies this`currSec, this`currAddr, this`log, flash, buf
      ensures Abs() == Boot(cfg, defaults, old(flash[..]), old(log))
    {
      hide Newest, Save;
      forall i | 0 <= i < cfg.size {
        buf[i] := defaults[i];
      }
      EraseSector(cfg.secStart);
      currSec, currAddr := cfg.secStart, SectorBase(cfg.secStart);
      buf[cfg.seqOff] := 0;
      buf[cfg.eraseOff] := 1;
      assert buf[..] == FreshDefaults(cfg, defaults);
      ghost var blank := Store(Erase(old(flash[..]), cfg.secStart), FreshDefaults(cfg, defaults),
                               cfg.secStart, SectorBase(cfg.secStart), old(log) + [EraseOp(cfg.secStart)]);
      assert Abs() == blank;
      var _ := SaveRecord();
      assert Boot(cfg, defaults, old(flash[..]), old(log)) == Save(cfg, blank).store;
    }
  }
}
