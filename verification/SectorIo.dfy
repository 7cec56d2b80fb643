/** Byte-granular reads and writes on a device that only moves whole sectors. */
module SectorIo {
  import opened Sectors
  import opened Wire

  /** The device contents after writing `buf` at byte `offset`. */
  function Overlay(data: seq<Byte>, offset: nat, buf: seq<Byte>): (r: seq<Byte>)
    requires offset + |buf| <= |data|
    ensures |r| == |data|
  {
    data[..offset] + buf + data[offset + |buf|..]
  }

  /** Each byte outside the range is as before, each inside is old or new. */
  ghost predicate Between(was: seq<Byte>, now: seq<Byte>, offset: nat, buf: seq<Byte>) {
    && |now| == |was|
    && forall i :: 0 <= i < |was| ==> now[i] == was[i] || (offset <= i < offset + |buf| && now[i] == buf[i - offset])
  }

  /** Two adjacent writes are one. */
  lemma OverlayTwice(data: seq<Byte>, offset: nat, a: seq<Byte>, b: seq<Byte>)
    requires offset + |a| + |b| <= |data|
    ensures Overlay(Overlay(data, offset, a), offset + |a|, b) == Overlay(data, offset, a + b)
  {
  }

  /** A sector read, changed from `at` on and written back. */
  lemma OverlayInSector(data: seq<Byte>, s: nat, at: nat, buf: seq<Byte>)
    requires s * SECTOR + SECTOR <= |data| && at + |buf| <= SECTOR
    ensures Overlay(data, s * SECTOR, Overlay(data[s * SECTOR..s * SECTOR + SECTOR], at, buf))
         == Overlay(data, s * SECTOR + at, buf)
  {
  }

  lemma OverlayBetween(data: seq<Byte>, offset: nat, a: seq<Byte>, buf: seq<Byte>)
    requires offset + |a| <= |data| && a <= buf
    ensures Between(data, Overlay(data, offset, a), offset, buf)
  {
  }

  /** What a read sees of a write: the new bytes where the two ranges meet, the
      old ones elsewhere. */
  lemma ReadAfterWrite(data: seq<Byte>, offset: nat, buf: seq<Byte>, at: nat, n: nat, i: nat)
    requires offset + |buf| <= |data| && at + n <= |data| && i < n
    ensures Overlay(data, offset, buf)[at..at + n][i] ==
            if offset <= at + i < offset + |buf| then buf[at + i - offset] else data[at + i]
  {
  }

  /** On a device of whole sectors, a sector is there if any byte of it is. */
  lemma TailFits(total: nat, sector: nat, part: nat)
    requires total % SECTOR == 0 && 0 < part <= SECTOR
    ensures sector * SECTOR + SECTOR <= total <==> sector * SECTOR + part <= total
  {
  }

  class Device {
    var data: seq<Byte>

    ghost predicate Valid()
      reads this
    {
      |data| % SECTOR == 0
    }

    constructor (sectors: nat)
      ensures Valid() && data == seq(sectors * SECTOR, _ => 0)
    {
      data := seq(sectors * SECTOR, _ => 0);
    }

    method ReadSectors(s: nat, nb: nat) returns (ok: bool, buf: seq<Byte>)
      ensures ok <==> (s + nb) * SECTOR <= |data|
      ensures ok ==> buf == data[s * SECTOR..(s + nb) * SECTOR]
    {
      ok := (s + nb) * SECTOR <= |data|;
      buf := if ok then data[s * SECTOR..(s + nb) * SECTOR] else [];
    }

    method WriteSectors(s: nat, buf: seq<Byte>) returns (ok: bool)
      requires |buf| % SECTOR == 0
      modifies this
      ensures ok <==> s * SECTOR + |buf| <= |old(data)|
      ensures data == if ok then Overlay(old(data), s * SECTOR, buf) else old(data)
    {
      ok := s * SECTOR + |buf| <= |data|;
      if ok {
        data := data[..s * SECTOR] + buf + data[s * SECTOR + |buf|..];
      }
    }

    /** Reads `count` bytes from a sector boundary on: whole sectors in place, then
        the beginning of a last one. */
    method PreadAligned(first: nat, count: nat) returns (ok: bool, buf: seq<Byte>)
      requires Valid()
      ensures ok <==> count == 0 || first * SECTOR + count <= |data|
      ensures ok && count > 0 ==> buf == data[first * SECTOR..first * SECTOR + count]
      ensures ok ==> |buf| == count
    {
      buf := [];
      var sector, left, nb := first, count, count / SECTOR;
      if nb > 0 {
        ok, buf := ReadSectors(sector, nb);
        if !ok { return; }
        sector := sector + nb;
        left := left - nb * SECTOR;
      }
      if left > 0 {
        TailFits(|data|, sector, left);
        var tmp;
        ok, tmp := ReadSectors(sector, 1);
        if !ok { return; }
        assert tmp[..left] == data[sector * SECTOR..sector * SECTOR + left];
        buf := buf + tmp[..left];
      }
      ok := true;
    }

    /** Reads `count` bytes: the end of a first sector, then the aligned rest.  It
        fails exactly when the range leaves the device. */
    method Pread(offset: nat, count: nat) returns (ok: bool, buf: seq<Byte>)
      requires Valid()
      ensures ok <==> count == 0 || offset + count <= |data|
      ensures ok && count > 0 ==> buf == data[offset..offset + count]
      ensures ok ==> |buf| == count
    {
      var len := (SECTOR - offset % SECTOR) % SECTOR;
      if len > count {
        len := count;
      }
      var sector := offset / SECTOR;
      buf := [];
      if len > 0 {
        TailFits(|data|, sector, offset % SECTOR + len);
        var tmp;
        ok, tmp := ReadSectors(sector, 1);
        if !ok { return; }
        var at := offset % SECTOR;
        assert tmp[at..at + len] == data[offset..offset + len];
        buf := tmp[at..at + len];
        if count == len { return; }
        sector := sector + 1;
      }
      var rest;
      ok, rest := PreadAligned(sector, count - len);
      if ok {
        buf := buf + rest;
      }
    }

    /** Reads a sector, changes part of it and writes it back. */
    method Patch(sector: nat, at: nat, part: seq<Byte>) returns (ok: bool)
      requires Valid() && at + |part| <= SECTOR
      modifies this
      ensures Valid() && (ok <==> sector * SECTOR + SECTOR <= |old(data)|)
      ensures !ok ==> data == old(data)
      ensures ok ==> data == Overlay(old(data), sector * SECTOR + at, part)
    {
      var tmp;
      ok, tmp := ReadSectors(sector, 1);
      if !ok { return; }
      OverlayInSector(data, sector, at, part);
      tmp := tmp[..at] + part + tmp[at + |part|..];
      ok := WriteSectors(sector, tmp);
    }

    /** Writes `buf`; exactly the bytes of the range change.  It fails exactly when
        the range leaves the device, and then has changed nothing outside it. */
    method Pwrite(offset: nat, buf: seq<Byte>) returns (ok: bool)
      requires Valid()
      modifies this
      ensures Valid() && |data| == |old(data)|
      ensures ok <==> |buf| == 0 || offset + |buf| <= |old(data)|
      ensures ok && |buf| > 0 ==> data == Overlay(old(data), offset, buf)
      ensures ok && |buf| == 0 ==> data == old(data)
      ensures !ok ==> Between(old(data), data, offset, buf)
    {
      ghost var was := data;
      var done := 0;
      var len := (SECTOR - offset % SECTOR) % SECTOR;
      if len > |buf| {
        len := |buf|;
      }
      var sector := offset / SECTOR;
      if len > 0 {
        TailFits(|was|, sector, offset % SECTOR + len);
        ok := Patch(sector, offset % SECTOR, buf[..len]);
        if !ok { return; }
        done := len;
        if done == |buf| {
          assert buf[..len] == buf;
          return;
        }
        sector := sector + 1;
      }
      ok := PwriteRest(offset, buf, done, sector, was);
      assert buf[..|buf|] == buf;
    }

    /** What has been written so far is a first part of the range. */
    ghost predicate Written(was: seq<Byte>, offset: nat, buf: seq<Byte>, done: nat)
      reads this
    {
      && Valid() && |data| == |was| && done <= |buf|
      && (if done == 0 then data == was else offset + done <= |was| && data == Overlay(was, offset, buf[..done]))
    }

    /** The whole sectors of a write. */
    method PwriteMiddle(offset: nat, buf: seq<Byte>, start: nat, first: nat, ghost was: seq<Byte>)
      returns (ok: bool, nb: nat, done: nat)
      requires Written(was, offset, buf, start) && (start < |buf| ==> offset + start == first * SECTOR)
      modifies this
      ensures done == start + nb * SECTOR && done <= |buf| < done + SECTOR
      ensures ok ==> Written(was, offset, buf, done)
      ensures !ok ==> Written(was, offset, buf, start) && offset + |buf| > |was| && start < |buf|
    {
      nb := (|buf| - start) / SECTOR;
      done := start + nb * SECTOR;
      ok := true;
      if nb > 0 {
        var mid := buf[start..done];
        ok := WriteSectors(first, mid);
        if ok {
          Joined(was, offset, buf, start, mid, data);
        }
      }
    }

    /** The part of a write that starts on a sector boundary. */
    method PwriteRest(offset: nat, buf: seq<Byte>, start: nat, first: nat, ghost was: seq<Byte>) returns (ok: bool)
      requires Written(was, offset, buf, start) && (start < |buf| ==> offset + start == first * SECTOR)
      modifies this
      ensures Valid() && |data| == |was|
      ensures ok <==> start == |buf| || offset + |buf| <= |was|
      ensures ok ==> Written(was, offset, buf, |buf|)
      ensures !ok ==> Between(was, data, offset, buf)
    {
      hide Between, Overlay;
      var nb, done;
      ok, nb, done := PwriteMiddle(offset, buf, start, first, was);
      if !ok {
        PartlyWritten(was, offset, buf, start);
        return;
      }
      if |buf| - done > 0 {
        var sector := first + nb;
        assert offset + done == sector * SECTOR;
        TailFits(|was|, sector, |buf| - done);
        ok := Patch(sector, 0, buf[done..]);
        if !ok {
          PartlyWritten(was, offset, buf, done);
          return;
        }
        Joined(was, offset, buf, done, buf[done..], data);
      }
      ok := true;
    }

    lemma PartlyWritten(was: seq<Byte>, offset: nat, buf: seq<Byte>, done: nat)
      requires Written(was, offset, buf, done)
      ensures Between(was, data, offset, buf)
    {
      if done > 0 { OverlayBetween(was, offset, buf[..done], buf); }
    }

    lemma Joined(was: seq<Byte>, offset: nat, buf: seq<Byte>, done: nat, part: seq<Byte>, now: seq<Byte>)
      requires done + |part| <= |buf| && part == buf[done..done + |part|] && offset + done + |part| <= |was|
      requires var mid := if done == 0 then was else Overlay(was, offset, buf[..done]);
               now == Overlay(mid, offset + done, part)
      ensures now == Overlay(was, offset, buf[..done + |part|])
    {
      assert buf[..done] + part == buf[..done + |part|];
      OverlayTwice(was, offset, buf[..done], part);
      if done == 0 { assert Overlay(was, offset, []) == was; }
    }
  }
}
