/** The disk migration stream: one record per chunk with the device name and a
    buffer of fixed size, progress notes and an end marker, and its loader. */
module BlockStream {
  import opened DiskMigration
  import opened DiskOutcome
  import opened Sectors
  import opened Wire
  import opened Wrappers

  const BLOCK_SIZE: nat := 1048576

  const FLAG_DEVICE_BLOCK: nat := 0x01
  const FLAG_EOS: nat := 0x02
  const FLAG_PROGRESS: nat := 0x04

  type Names = seq<seq<Byte>>

  ghost predicate NamesOk(names: Names) {
    && (forall d :: 0 <= d < |names| ==> |names[d]| < 256 && forall i :: 0 <= i < |names[d]| ==> names[d][i] != 0)
    && (forall d, e :: 0 <= d < e < |names| ==> names[d] != names[e])
  }

  // -------------------------------------------------------------------- saving

  datatype Record =
    | Device(dev: nat, sector: nat, buf: seq<Byte>)
    | Progress(percent: nat)
    | Eos

  ghost predicate RecordOk(names: Names, r: Record) {
    match r
    case Device(d, sector, buf) => d < |names| && sector * SECTOR + SECTOR < TWO64 && |buf| == BLOCK_SIZE
    case Progress(p) => p <= 100
    case Eos => true
  }

  function Encode(names: Names, r: Record): seq<Byte>
    requires NamesOk(names) && RecordOk(names, r)
  {
    match r
    case Device(d, sector, buf) => Be64(sector * SECTOR + FLAG_DEVICE_BLOCK) + Counted(names[d]) + buf
    case Progress(p) => Be64(p * SECTOR + FLAG_PROGRESS)
    case Eos => Be64(FLAG_EOS)
  }

  // ------------------------------------------------------------------- loading

  function Find(names: Names, id: seq<Byte>, i: nat): (r: nat)
    requires i <= |names|
    ensures i <= r <= |names| && (r < |names| ==> names[r] == id)
    ensures forall d :: i <= d < r ==> names[d] != id
    decreases |names| - i
  {
    if i == |names| || names[i] == id then i else Find(names, id, i + 1)
  }

  function SectorAt(buf: seq<Byte>, k: nat): Sector
    requires k * SECTOR + SECTOR <= |buf|
  {
    buf[k * SECTOR..k * SECTOR + SECTOR]
  }

  /** The number of sectors of a block that lie on the disk. */
  function Extent(total: nat, addr: nat): nat
    requires addr < total
  {
    if total - addr < CHUNK then total - addr else CHUNK
  }

  /** Sector `x` of a row after the block `buf` was written at `addr`. */
  function RowSector(row: seq<Sector>, addr: nat, buf: seq<Byte>, x: nat): Sector
    requires addr < |row| && |buf| == BLOCK_SIZE && x < |row|
  {
    if addr <= x < addr + Extent(|row|, addr) then SectorAt(buf, x - addr) else row[x]
  }

  function WriteRow(row: seq<Sector>, addr: nat, buf: seq<Byte>): (e: seq<Sector>)
    requires addr < |row| && |buf| == BLOCK_SIZE
    ensures |e| == |row|
  {
    seq(|row|, x requires 0 <= x < |row| => RowSector(row, addr, buf, x))
  }

  /** One turn of the loading loop. */
  function LoadRecord(names: Names, dst: Disks, s: seq<Byte>): (r: Result<(Disks, nat, seq<Byte>)>)
    requires |dst| == |names|
    ensures r.Ok? ==> SameShape(dst, r.value.0) && |r.value.2| < |s|
  {
    if |s| < 8 then Err(EndOfStream)
    else
      var v, s1 := BeValue(s[..8]), s[8..];
      var flags, addr := v % SECTOR, v / SECTOR;
      if flags % 2 == 1 then
        if |s1| < 1 || |s1| - 1 < s1[0] then Err(EndOfStream)
        else
          var d, s2 := Find(names, CStr(s1[1..][..s1[0]]), 0), s1[1..][s1[0]..];
          if d == |names| || |dst[d]| == 0 then Err(BadStream)
          else if |s2| < BLOCK_SIZE then Err(EndOfStream)
          else if addr >= |dst[d]| then Err(Fault)
          else Ok((dst[d := WriteRow(dst[d], addr, s2[..BLOCK_SIZE])], flags, s2[BLOCK_SIZE..]))
      else if flags / FLAG_PROGRESS % 2 == 1 || flags / FLAG_EOS % 2 == 1 then Ok((dst, flags, s1))
      else Err(BadStream)
  }

  /** One load call: records up to the end marker. */
  function LoadSection(names: Names, dst: Disks, s: seq<Byte>): (r: Result<(Disks, seq<Byte>)>)
    requires |dst| == |names|
    ensures r.Ok? ==> SameShape(dst, r.value.0) && |r.value.1| < |s|
    decreases |s|
  {
    var (dst', flags, s') :- LoadRecord(names, dst, s);
    if flags / FLAG_EOS % 2 == 1 then Ok((dst', s')) else LoadSection(names, dst', s')
  }

  // ---------------------------------------------------------------- round trip

  function ApplyRecord(dst: Disks, r: Record): Disks {
    if r.Device? && r.dev < |dst| && r.sector < |dst[r.dev]| && |r.buf| == BLOCK_SIZE
    then dst[r.dev := WriteRow(dst[r.dev], r.sector, r.buf)]
    else dst
  }

  function FlagsOf(r: Record): nat {
    match r
    case Device(_, _, _) => FLAG_DEVICE_BLOCK
    case Progress(_) => FLAG_PROGRESS
    case Eos => FLAG_EOS
  }

  lemma NumberFront(v: nat, rest: seq<Byte>)
    requires v < TWO64
    ensures var s := Be64(v) + rest; |s| >= 8 && BeValue(s[..8]) == v && s[8..] == rest
  {
    Be64Front(v, rest);
  }

  lemma NameFront(names: Names, d: nat, rest: seq<Byte>)
    requires NamesOk(names) && d < |names|
    ensures var s := Counted(names[d]) + rest;
            && |s| >= 1 && |s| - 1 >= s[0]
            && Find(names, CStr(s[1..][..s[0]]), 0) == d && s[1..][s[0]..] == rest
  {
    CountedFront(names[d], rest);
    CStrOfName(names[d]);
  }

  lemma DeviceRoundTrip(names: Names, dst: Disks, r: Record, rest: seq<Byte>)
    requires NamesOk(names) && RecordOk(names, r) && |dst| == |names| && r.Device? && r.sector < |dst[r.dev]|
    ensures LoadRecord(names, dst, Encode(names, r) + rest) == Ok((ApplyRecord(dst, r), FLAG_DEVICE_BLOCK, rest))
  {
    hide Be64, Counted, BeValue, Find, CStr, WriteRow;
    var v := r.sector * SECTOR + FLAG_DEVICE_BLOCK;
    var tail := Counted(names[r.dev]) + (r.buf + rest);
    assert Encode(names, r) + rest == Be64(v) + tail;
    NumberFront(v, tail);
    NameFront(names, r.dev, r.buf + rest);
    assert (r.buf + rest)[..BLOCK_SIZE] == r.buf && (r.buf + rest)[BLOCK_SIZE..] == rest;
  }

  /** Every record written is loaded as that record, and nothing else is read. */
  lemma RecordRoundTrip(names: Names, dst: Disks, r: Record, rest: seq<Byte>)
    requires NamesOk(names) && RecordOk(names, r) && |dst| == |names|
    requires r.Device? ==> r.sector < |dst[r.dev]|
    ensures LoadRecord(names, dst, Encode(names, r) + rest) == Ok((ApplyRecord(dst, r), FlagsOf(r), rest))
  {
    hide Be64, BeValue;
    match r
    case Device(_, _, _) => DeviceRoundTrip(names, dst, r, rest);
    case Progress(p) => NumberFront(p * SECTOR + FLAG_PROGRESS, rest);
    case Eos => NumberFront(FLAG_EOS, rest);
  }

  /** The bytes of the records, in numbers. */
  lemma RecordBytes(names: Names, r: Record)
    requires NamesOk(names) && RecordOk(names, r)
    ensures r.Device? ==>
              var id := names[r.dev]; Encode(names, r) == Be64(r.sector * 512 + 0x01) + [|id|] + id + r.buf
    ensures r.Progress? ==> Encode(names, r) == Be64(r.percent * 512 + 0x04)
    ensures r.Eos? ==> Encode(names, r) == [0, 0, 0, 0, 0, 0, 0, 0x02]
  {
    Be64Bytes(0x02);
  }

  lemma UnknownName(names: Names, id: seq<Byte>, rest: seq<Byte>)
    requires |id| < 256 && (forall i :: 0 <= i < |id| ==> id[i] != 0) && forall d :: 0 <= d < |names| ==> names[d] != id
    ensures var s := Counted(id) + rest;
            |s| >= 1 && |s| - 1 >= s[0] && Find(names, CStr(s[1..][..s[0]]), 0) == |names|
  {
    CountedFront(id, rest);
    CStrOfName(id);
  }

  /** A record for a device that is not there, or without a known flag, is refused. */
  lemma UnknownDevice(names: Names, dst: Disks, sector: nat, id: seq<Byte>, rest: seq<Byte>)
    requires |dst| == |names| && sector * SECTOR + SECTOR < TWO64 && |id| < 256
    requires (forall i :: 0 <= i < |id| ==> id[i] != 0) && forall d :: 0 <= d < |names| ==> names[d] != id
    ensures LoadRecord(names, dst, Be64(sector * SECTOR + 0x01) + (Counted(id) + rest)) == Err(BadStream)
    ensures LoadRecord(names, dst, Be64(sector * SECTOR + 0x08) + rest) == Err(BadStream)
  {
    hide Be64, Counted, BeValue, CStr, WriteRow;
    NumberFront(sector * SECTOR + 0x01, Counted(id) + rest);
    NumberFront(sector * SECTOR + 0x08, rest);
    UnknownName(names, id, rest);
  }

  // ------------------------------------------------------------- whole streams

  /** All records can be encoded and hit the disks of the destination. */
  ghost predicate RecordsOk(names: Names, shape: Disks, rs: seq<Record>) {
    |shape| == |names| &&
    forall i :: 0 <= i < |rs| ==> RecordOk(names, rs[i]) && (rs[i].Device? ==> rs[i].sector < |shape[rs[i].dev]|)
  }

  function EncodeAll(names: Names, shape: Disks, rs: seq<Record>): (s: seq<Byte>)
    requires NamesOk(names) && RecordsOk(names, shape, rs)
    ensures rs != [] ==> s != []
    decreases |rs|
  {
    if rs == [] then [] else Encode(names, rs[0]) + EncodeAll(names, shape, rs[1..])
  }

  function LoadStream(names: Names, dst: Disks, s: seq<Byte>): (r: Result<Disks>)
    requires |dst| == |names|
    ensures r.Ok? ==> SameShape(dst, r.value)
    decreases |s|
  {
    if s == [] then Ok(dst)
    else
      var (dst', s') :- LoadSection(names, dst, s);
      LoadStream(names, dst', s')
  }

  function ApplyAll(dst: Disks, rs: seq<Record>): Disks
    decreases |rs|
  {
    if rs == [] then dst else ApplyAll(ApplyRecord(dst, rs[0]), rs[1..])
  }

  lemma ApplyShape(dst: Disks, r: Record)
    ensures SameShape(dst, ApplyRecord(dst, r))
  {
    hide WriteRow;
  }

  lemma {:induction false} StreamRoundTrip(names: Names, dst: Disks, rs: seq<Record>)
    requires NamesOk(names) && RecordsOk(names, dst, rs)
    requires rs != [] ==> rs[|rs| - 1].Eos?
    ensures LoadStream(names, dst, EncodeAll(names, dst, rs)) == Ok(ApplyAll(dst, rs))
    decreases |rs|
  {
    hide LoadRecord, NamesOk, Encode, ApplyRecord, SameShape;
    if rs == [] {
    } else {
      var r, tail := rs[0], rs[1..];
      ApplyShape(dst, r);
      KeepsRecordsOk(names, dst, ApplyRecord(dst, r), tail);
      SameEncoding(names, dst, ApplyRecord(dst, r), tail);
      RecordRoundTrip(names, dst, r, EncodeAll(names, dst, tail));
      StreamRoundTrip(names, ApplyRecord(dst, r), tail);
    }
  }

  lemma KeepsRecordsOk(names: Names, a: Disks, b: Disks, rs: seq<Record>)
    requires SameShape(a, b) && RecordsOk(names, a, rs)
    ensures RecordsOk(names, b, rs)
  {
  }

  lemma {:induction false} SameEncoding(names: Names, a: Disks, b: Disks, rs: seq<Record>)
    requires NamesOk(names) && RecordsOk(names, a, rs) && RecordsOk(names, b, rs)
    ensures EncodeAll(names, a, rs) == EncodeAll(names, b, rs)
    decreases |rs|
  {
    hide Encode, NamesOk;
    if rs == [] {
    } else {
      SameEncoding(names, a, b, rs[1..]);
    }
  }

  // ------------------------------------------------------- records and messages

  /** The record of a read: the buffer starts with the sectors read; whatever it
      holds beyond the end of the disk is not written. */
  ghost predicate Carries(shape: Disks, rec: Record, r: Read) {
    && rec.Device? && rec.dev == r.c.dev && rec.sector == r.c.idx * CHUNK && |rec.buf| == BLOCK_SIZE
    && rec.dev < |shape| && rec.sector < |shape[rec.dev]|
    && (forall x: nat :: InChunk(shape, r.c, x) ==> x in r.data && SectorAt(rec.buf, x - rec.sector) == r.data[x])
  }

  lemma CarriedRow(dst: Disks, rec: Record, r: Read, x: nat)
    requires Carries(dst, rec, r) && x < |dst[rec.dev]|
    ensures WriteRow(dst[rec.dev], rec.sector, rec.buf)[x] == Deliver(dst, r)[rec.dev][x]
  {
    assert OnDisk(dst, rec.dev, x);
    assert InChunk(dst, r.c, x) <==> rec.sector <= x < rec.sector + Extent(|dst[rec.dev]|, rec.sector);
  }

  /** Loading the record of a read is delivering the read. */
  lemma CarriedDelivered(dst: Disks, rec: Record, r: Read)
    requires Carries(dst, rec, r)
    ensures ApplyRecord(dst, rec) == Deliver(dst, r)
  {
    hide WriteRow, Deliver;
    var a, b := ApplyRecord(dst, rec), Deliver(dst, r);
    ApplyShape(dst, rec);
    forall d: nat, x: nat | OnDisk(a, d, x) ensures a[d][x] == b[d][x] {
      assert OnDisk(dst, d, x);
      if d == rec.dev { CarriedRow(dst, rec, r, x); }
    }
    EqualDisks(a, b);
  }

  /** The chunk records among `rs` are those of the reads `ms`, in order. */
  ghost predicate Transmits(shape: Disks, rs: seq<Record>, ms: seq<Read>)
    decreases |rs|
  {
    if rs == [] then ms == []
    else if rs[0].Device? then ms != [] && Carries(shape, rs[0], ms[0]) && Transmits(shape, rs[1..], ms[1..])
    else Transmits(shape, rs[1..], ms)
  }

  lemma {:induction false} TransmitsElsewhere(a: Disks, b: Disks, rs: seq<Record>, ms: seq<Read>)
    requires SameShape(a, b) && Transmits(a, rs, ms)
    ensures Transmits(b, rs, ms)
    decreases |rs|
  {
    if rs == [] {
    } else {
      if rs[0].Device? {
        assert forall x: nat :: InChunk(b, ms[0].c, x) ==> InChunk(a, ms[0].c, x);
        TransmitsElsewhere(a, b, rs[1..], ms[1..]);
      } else {
        TransmitsElsewhere(a, b, rs[1..], ms);
      }
    }
  }

  lemma {:induction false} ReplayCons(dst: Disks, m: Read, ms: seq<Read>)
    ensures Replay(dst, [m] + ms) == Replay(Deliver(dst, m), ms)
    decreases |ms|
  {
    hide Deliver;
    if ms == [] {
      assert [m] + ms == [m] && [m][..0] == [];
    } else {
      assert ([m] + ms)[..|ms|] == [m] + ms[..|ms| - 1];
      ReplayCons(dst, m, ms[..|ms| - 1]);
    }
  }

  lemma {:induction false} ApplyAllIsReplay(dst: Disks, rs: seq<Record>, ms: seq<Read>)
    requires Transmits(dst, rs, ms)
    ensures ApplyAll(dst, rs) == Replay(dst, ms)
    decreases |rs|
  {
    hide ApplyRecord, Deliver, Carries, SameShape;
    if rs == [] {
    } else {
      ApplyShape(dst, rs[0]);
      if rs[0].Device? {
        CarriedDelivered(dst, rs[0], ms[0]);
        TransmitsElsewhere(dst, ApplyRecord(dst, rs[0]), rs[1..], ms[1..]);
        ApplyAllIsReplay(ApplyRecord(dst, rs[0]), rs[1..], ms[1..]);
        assert [ms[0]] + ms[1..] == ms;
        ReplayCons(dst, ms[0], ms[1..]);
      } else {
        NoteIgnored(dst, rs[0]);
        ApplyAllIsReplay(dst, rs[1..], ms);
      }
    }
  }

  lemma NoteIgnored(dst: Disks, r: Record)
    requires !r.Device?
    ensures ApplyRecord(dst, r) == dst
  {
  }

  /** The bytes of any stream that transmits the reads of a run, with whatever
      progress notes and section ends, load to the replay of these reads. */
  lemma StreamDelivers(names: Names, ms: seq<Read>, rs: seq<Record>, dst: Disks)
    requires NamesOk(names) && RecordsOk(names, dst, rs) && (rs != [] ==> rs[|rs| - 1].Eos?)
    requires Transmits(dst, rs, ms)
    ensures LoadStream(names, dst, EncodeAll(names, dst, rs)) == Ok(Replay(dst, ms))
  {
    hide LoadStream, EncodeAll, ApplyAll, Transmits, NamesOk, RecordsOk;
    StreamRoundTrip(names, dst, rs);
    ApplyAllIsReplay(dst, rs, ms);
  }

  // ------------------------------------------------------- the record of a read

  /** The buffer of a read: its sectors one after the other, zeroes elsewhere. */
  function Buffer(r: Read): (buf: seq<Byte>)
    ensures |buf| == BLOCK_SIZE
  {
    seq(BLOCK_SIZE, i requires 0 <= i < BLOCK_SIZE => BufferByte(r, i))
  }

  function BufferByte(r: Read, i: nat): Byte {
    var x := r.c.idx * CHUNK + i / SECTOR;
    if x in r.data then r.data[x][i % SECTOR] else 0
  }

  function RecordOf(r: Read): Record { Device(r.c.dev, r.c.idx * CHUNK, Buffer(r)) }

  lemma BufferSector(r: Read, k: nat)
    requires k < CHUNK && r.c.idx * CHUNK + k in r.data
    ensures SectorAt(Buffer(r), k) == r.data[r.c.idx * CHUNK + k]
  {
    var s, v := SectorAt(Buffer(r), k), r.data[r.c.idx * CHUNK + k];
    forall j | 0 <= j < SECTOR ensures s[j] == v[j] {
      DivModSector(k, j);
      assert s[j] == Buffer(r)[k * SECTOR + j] == BufferByte(r, k * SECTOR + j);
    }
  }

  lemma DivModSector(k: nat, j: nat)
    requires j < SECTOR
    ensures (k * SECTOR + j) / SECTOR == k && (k * SECTOR + j) % SECTOR == j
  {
  }

  lemma RecordCarries(shape: Disks, r: Read)
    requires Captured(shape, r) && Exists(shape, r.c)
    ensures Carries(shape, RecordOf(r), r)
  {
    hide Buffer, SectorAt;
    forall x: nat | InChunk(shape, r.c, x)
      ensures x in r.data && x >= r.c.idx * CHUNK && SectorAt(Buffer(r), x - r.c.idx * CHUNK) == r.data[x]
    {
      BufferSector(r, x - r.c.idx * CHUNK);
    }
  }

  /** What the saver writes for the reads it has sent, a final note and the end
      marker behind them. */
  function RecordsOf(ms: seq<Read>): (rs: seq<Record>)
    ensures rs != [] && rs[|rs| - 1].Eos?
    ensures forall i :: 0 <= i < |rs| && rs[i].Device? ==> i < |ms| && rs[i] == RecordOf(ms[i])
    decreases |ms|
  {
    if ms == [] then [Progress(100), Eos] else [RecordOf(ms[0])] + RecordsOf(ms[1..])
  }

  ghost predicate Sendable(shape: Disks, ms: seq<Read>) {
    Whole(shape, ms) && forall r :: r in ms ==> Exists(shape, r.c)
  }

  lemma {:induction false} RecordsTransmit(shape: Disks, ms: seq<Read>)
    requires Sendable(shape, ms)
    ensures Transmits(shape, RecordsOf(ms), ms)
    decreases |ms|
  {
    hide Carries, RecordOf, Captured, Exists;
    if ms == [] {
      var rs := RecordsOf(ms);
      assert rs[1..] == [Eos] && rs[1..][1..] == [];
      assert Transmits(shape, rs[1..][1..], []);
      assert Transmits(shape, rs[1..], []);
    } else {
      RecordCarries(shape, ms[0]);
      assert RecordsOf(ms)[1..] == RecordsOf(ms[1..]);
      RecordsTransmit(shape, ms[1..]);
      RecordIsDevice(ms[0]);
    }
  }

  lemma RecordIsDevice(r: Read)
    ensures RecordOf(r).Device?
  {
  }

  /** Every device has a name and a size that its sector numbers fit. */
  ghost predicate SizesOk(names: Names, shape: Disks) {
    |shape| == |names| && forall d :: 0 <= d < |shape| ==> |shape[d]| * SECTOR + SECTOR < TWO64
  }

  lemma {:induction false} RecordsFit(names: Names, shape: Disks, ms: seq<Read>)
    requires SizesOk(names, shape) && Sendable(shape, ms)
    ensures RecordsOk(names, shape, RecordsOf(ms))
    decreases |ms|
  {
    hide Buffer, Captured;
    if ms == [] {
    } else {
      RecordsFit(names, shape, ms[1..]);
      assert ms[0] in ms && Exists(shape, ms[0].c);
    }
  }

  /** Every run sends only reads that are whole and on the disks. */
  lemma SentSendable(m: Mig, dst: Disks)
    requires Inv(m) && SameShape(m.disks, dst)
    ensures Sendable(dst, m.sent)
  {
    hide Covered, Numbered, Captured, Exists;
    WholeElsewhere(m.disks, dst, m.sent);
    SamePlaces(m.disks, dst);
    assert forall r :: r in m.sent ==> r in Pipeline(m);
  }

  /** The bytes the saver writes over any run, whatever the interleaving, load to
      the replay of the reads it sent. */
  lemma RunDelivers(names: Names, m: Mig, steps: seq<Step>, dst: Disks)
    requires Started(m) && ValidRun(m, steps) && SameShape(Exec(m, steps).disks, dst)
    requires NamesOk(names) && SizesOk(names, dst)
    ensures RecordsOk(names, dst, RecordsOf(Exec(m, steps).sent))
    ensures LoadStream(names, dst, EncodeAll(names, dst, RecordsOf(Exec(m, steps).sent))) ==
              Ok(Replay(dst, Exec(m, steps).sent))
  {
    hide LoadStream, EncodeAll, Transmits, NamesOk, RecordsOk, SizesOk, Sendable, Exec, ValidRun, Started, SameShape,
         Inv, RecordsOf;
    var e := Exec(m, steps);
    StartedInv(m);
    RunInv(m, steps);
    SentSendable(e, dst);
    RecordsTransmit(dst, e.sent);
    RecordsFit(names, dst, e.sent);
    LastIsEnd(e.sent);
    StreamDelivers(names, e.sent, RecordsOf(e.sent), dst);
  }

  lemma LastIsEnd(ms: seq<Read>)
    ensures RecordsOf(ms) != [] && RecordsOf(ms)[|RecordsOf(ms)| - 1].Eos?
  {
  }

  /** The whole migration, bytes included, exactly: the bytes of a finished run
      load to the source's disks if and only if of every chunk the last read to
      complete agrees with the last one submitted. */
  lemma StreamExact(names: Names, m: Mig, steps: seq<Step>, dst: Disks)
    requires Started(m) && ValidRun(m, steps) && Finished(Exec(m, steps)) && SameShape(Exec(m, steps).disks, dst)
    requires NamesOk(names) && SizesOk(names, dst)
    ensures RecordsOk(names, dst, RecordsOf(Exec(m, steps).sent))
    ensures var e := Exec(m, steps);
            LoadStream(names, dst, EncodeAll(names, dst, RecordsOf(e.sent))) == Ok(e.disks) <==> NotOvertaken(e)
  {
    hide LoadStream, EncodeAll, NamesOk, RecordsOk, SizesOk, Exec, ValidRun, Started, SameShape, Finished,
         NotOvertaken, RecordsOf;
    RunDelivers(names, m, steps, dst);
    MigrationExact(m, steps, dst);
  }

  /** So with completions in order the bytes load to the source's disks. */
  lemma StreamPreservesDisks(names: Names, m: Mig, steps: seq<Step>, dst: Disks)
    requires Started(m) && ValidRun(m, steps) && InOrderRun(m, steps) && Finished(Exec(m, steps))
    requires SameShape(Exec(m, steps).disks, dst) && NamesOk(names) && SizesOk(names, dst)
    ensures RecordsOk(names, dst, RecordsOf(Exec(m, steps).sent))
    ensures LoadStream(names, dst, EncodeAll(names, dst, RecordsOf(Exec(m, steps).sent))) == Ok(Exec(m, steps).disks)
  {
    hide LoadStream, EncodeAll, NamesOk, RecordsOk, SizesOk, Exec, ValidRun, InOrderRun, Started, SameShape, Finished,
         RecordsOf;
    RunDelivers(names, m, steps, dst);
    MigrationPreservesDisks(m, steps, dst);
  }
}
