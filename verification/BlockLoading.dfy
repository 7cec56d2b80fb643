/** The loading side of disk migration as it runs: a loop over records that writes
    the destination's disks in place and remembers the last device. */
module BlockLoading {
  import opened BlockStream
  import opened DiskMigration
  import opened Sectors
  import opened Wire
  import opened Wrappers

  class BlockLoader {
    const names: Names
    var disks: Disks

    constructor (names: Names, disks: Disks)
      requires |disks| == |names|
      ensures this.names == names && this.disks == disks
    {
      this.names, this.disks := names, disks;
    }

    /** Looks a device up by name, walking the list. */
    method FindDevice(id: seq<Byte>) returns (d: nat)
      ensures d == Find(names, id, 0)
    {
      d := 0;
      while d < |names|
        invariant d <= |names| && Find(names, id, 0) == Find(names, id, d)
      {
        if names[d] == id { return; }
        d := d + 1;
      }
    }

    /** Writes the sectors of a buffer one after the other. */
    method WriteSectors(d: nat, addr: nat, buf: seq<Byte>, nr: nat)
      requires d < |disks| && addr < |disks[d]| && |buf| == BLOCK_SIZE && nr == Extent(|disks[d]|, addr)
      modifies `disks
      ensures disks == old(disks)[d := WriteRow(old(disks)[d], addr, buf)]
    {
      var row: seq<Sector> := disks[d];
      var i := 0;
      while i < nr
        invariant i <= nr && |row| == |disks[d]| && disks == old(disks)
        invariant forall x :: 0 <= x < |row| ==>
                    row[x] == if addr <= x < addr + i then SectorAt(buf, x - addr) else disks[d][x]
      {
        row := row[addr + i := SectorAt(buf, i)];
        i := i + 1;
      }
      assert row == WriteRow(disks[d], addr, buf);
      disks := disks[d := row];
    }

    /** The branch of a device record. The device's size is asked for only when the
        device differs from the previous record's. */
    method LoadDevice(addr: nat, s: seq<Byte>, previous: nat, size: nat)
      returns (r: Result<seq<Byte>>, d: nat, total: nat)
      requires |disks| == |names|
      requires previous < |names| ==> size == |disks[previous]| && size != 0
      modifies `disks
      ensures r.Ok? ==> |disks| == |names| && d < |names| && total == |disks[d]| && total != 0
      ensures r == DeviceOutcome(names, old(disks), addr, s).0 && disks == DeviceOutcome(names, old(disks), addr, s).1
    {
      hide WriteRow, Find;
      d, total := previous, size;
      if |s| < 1 || |s| - 1 < s[0] { return Err(EndOfStream), d, total; }
      var rest := s[1..][s[0]..];
      d := FindDevice(CStr(s[1..][..s[0]]));
      if d == |names| { return Err(BadStream), d, total; }
      if d != previous {
        total := |disks[d]|;
        if total == 0 { return Err(BadStream), d, total; }
      }
      if |rest| < BLOCK_SIZE { return Err(EndOfStream), d, total; }
      if addr >= total { return Err(Fault), d, total; }
      var nr := if total - addr < CHUNK then total - addr else CHUNK;
      WriteSectors(d, addr, rest[..BLOCK_SIZE], nr);
      r := Ok(rest[BLOCK_SIZE..]);
    }

    /** One load call: records up to the end marker are written to the disks. */
    method Load(stream: seq<Byte>) returns (r: Result<seq<Byte>>)
      requires |disks| == |names|
      modifies `disks
      ensures var spec := LoadSection(names, old(disks), stream);
              if spec.Err? then r == Err(spec.error) else r == Ok(spec.value.1) && disks == spec.value.0
    {
      hide Find, BeValue, DeviceOutcome;
      var s, previous: nat, size: nat := stream, |names|, 0;
      while true
        invariant |disks| == |names|
        invariant previous < |names| ==> size == |disks[previous]| && size != 0
        invariant LoadSection(names, old(disks), stream) == LoadSection(names, disks, s)
        decreases |s|
      {
        if |s| < 8 { return Err(EndOfStream); }
        RecordCases(names, disks, s);
        var v, rest := BeValue(s[..8]), s[8..];
        var flags, addr := v % SECTOR, v / SECTOR;
        if flags % 2 == 1 {
          var step;
          step, previous, size := LoadDevice(addr, rest, previous, size);
          if step.Err? { return Err(step.error); }
          rest := step.value;
        } else if flags / FLAG_PROGRESS % 2 == 0 && flags / FLAG_EOS % 2 == 0 {
          return Err(BadStream);
        }
        s := rest;
        if flags / FLAG_EOS % 2 == 1 { return Ok(s); }
      }
    }
  }

  /** What a device record does after its flags word: the result and the disks. */
  ghost function DeviceOutcome(names: Names, dst: Disks, addr: nat, s: seq<Byte>): (o: (Result<seq<Byte>>, Disks))
    requires |dst| == |names|
  {
    if |s| < 1 || |s| - 1 < s[0] then (Err(EndOfStream), dst)
    else
      var d, s2 := Find(names, CStr(s[1..][..s[0]]), 0), s[1..][s[0]..];
      if d == |names| || |dst[d]| == 0 then (Err(BadStream), dst)
      else if |s2| < BLOCK_SIZE then (Err(EndOfStream), dst)
      else if addr >= |dst[d]| then (Err(Fault), dst)
      else (Ok(s2[BLOCK_SIZE..]), dst[d := WriteRow(dst[d], addr, s2[..BLOCK_SIZE])])
  }

  lemma RecordCases(names: Names, dst: Disks, s: seq<Byte>)
    requires |dst| == |names| && |s| >= 8
    ensures var v, rest := BeValue(s[..8]), s[8..];
            var flags, o := v % SECTOR, DeviceOutcome(names, dst, v / SECTOR, rest);
            flags % 2 == 1 ==>
              LoadRecord(names, dst, s) == if o.0.Err? then Err(o.0.error) else Ok((o.1, flags, o.0.value))
  {
    hide Find, BeValue, WriteRow;
  }
}
