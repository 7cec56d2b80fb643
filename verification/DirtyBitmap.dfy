/** Dirty tracking of a disk: one bit per chunk, and a running count of them. */
module DirtyBitmap {
  import opened Bitmaps
  import opened Sectors
  import opened Words

  /** The chunks from that of the first sector to that of the last one; the
      division of a negative last sector truncates to zero. */
  function FirstChunk(sector: nat): nat { sector / CHUNK }

  function LastChunk(sector: nat, nb: nat): nat {
    if sector + nb == 0 then 0 else (sector + nb - 1) / CHUNK
  }

  predicate Touches(sector: nat, nb: nat, c: nat) {
    FirstChunk(sector) <= c <= LastChunk(sector, nb)
  }

  function Chunks(sector: nat, nb: nat): set<nat> {
    set c: nat | c <= LastChunk(sector, nb) && Touches(sector, nb, c)
  }

  /** A non-empty range touches exactly the chunks it has a sector in. */
  lemma ChunksMeetRange(sector: nat, nb: nat, c: nat)
    requires nb > 0
    ensures c in Chunks(sector, nb) <==> exists x: nat :: sector <= x < sector + nb && x / CHUNK == c
  {
    if c in Chunks(sector, nb) {
      assert Touches(sector, nb, c);
      var x: nat := if sector / CHUNK == c then sector else CHUNK * c;
      assert sector <= x < sector + nb && x / CHUNK == c;
    }
    forall x: nat | sector <= x < sector + nb && x / CHUNK == c ensures c in Chunks(sector, nb) {
      assert Touches(sector, nb, c);
    }
  }

  /** An empty range still touches the chunk of its sector, unless that is the first of
      a chunk other than chunk 0. */
  lemma EmptyRange(sector: nat, c: nat)
    ensures c in Chunks(sector, 0) <==> c == sector / CHUNK && (sector == 0 || sector % CHUNK != 0)
  {
    assert c in Chunks(sector, 0) <==> Touches(sector, 0, c);
  }

  ghost function SetBits(bm: Bitmap): set<nat> {
    set i: nat | i < BITS * |bm| && Bit(bm, i)
  }

  lemma SetOne(bm: Bitmap, i: nat, v: bool)
    requires i < BITS * |bm|
    ensures var w: Word := bm[i / BITS][i % BITS := v];
            SetBits(bm[i / BITS := w]) == if v then SetBits(bm) + {i} else SetBits(bm) - {i}
  {
    var w: Word := bm[i / BITS][i % BITS := v];
    var e: Bitmap := bm[i / BITS := w];
    forall j: nat | j < BITS * |bm| ensures Bit(e, j) == if j == i then v else Bit(bm, j) {
      if j / BITS == i / BITS && j % BITS == i % BITS { assert j == i; }
    }
    assert SetBits(e) == if v then SetBits(bm) + {i} else SetBits(bm) - {i};
  }

  lemma BitIsMember(bm: Bitmap, i: nat)
    requires i < BITS * |bm|
    ensures i in SetBits(bm) <==> bm[i / BITS][i % BITS]
  {
  }

  lemma SameBit(bm: Bitmap, i: nat)
    requires i < BITS * |bm|
    ensures bm[i / BITS := bm[i / BITS]] == bm
  {
  }

  /** A set of chunks after marking or resetting some. */
  function Marked(was: set<nat>, some: set<nat>, dirty: bool): set<nat> {
    if dirty then was + some else was - some
  }

  lemma NothingMarked(was: set<nat>, dirty: bool)
    ensures Marked(was, {}, dirty) == was
  {
  }

  lemma MarkedMore(was: set<nat>, done: set<nat>, c: nat, dirty: bool)
    ensures Marked(Marked(was, done, dirty), {c}, dirty) == Marked(was, done + {c}, dirty)
  {
  }

  lemma AllChunks(sector: nat, nb: nat, done: set<nat>)
    requires forall c :: c in done <==> FirstChunk(sector) <= c <= LastChunk(sector, nb)
    ensures done == Chunks(sector, nb)
  {
    assert forall c :: c in done <==> Touches(sector, nb, c);
  }

  /** The bytes allocated for the bitmap of a device; it is read and written in
      words of eight bytes. */
  function AllocatedBytes(sectors: nat): nat { (sectors + CHUNK * 8 - 1) / (CHUNK * 8) }

  /** They are just enough for one bit for each chunk. */
  lemma AllocatedLeast(sectors: nat)
    ensures sectors <= CHUNK * 8 * AllocatedBytes(sectors)
    ensures forall bytes: nat :: sectors <= CHUNK * 8 * bytes ==> AllocatedBytes(sectors) <= bytes
  {
  }

  /** The word with the bit of chunk `c` lies within the allocation. */
  predicate WordAllocated(sectors: nat, c: nat) { 8 * (c / BITS) + 8 <= AllocatedBytes(sectors) }

  /** The words of all chunks of a device are allocated if and only if the number of
      bytes is a multiple of eight. */
  lemma AllocationExact(sectors: nat)
    ensures (forall c: nat :: c * CHUNK < sectors ==> WordAllocated(sectors, c)) <==> AllocatedBytes(sectors) % 8 == 0
  {
    var bytes := AllocatedBytes(sectors);
    AllocatedLeast(sectors);
    hide AllocatedBytes;
    if bytes % 8 == 0 {
      forall c: nat | c * CHUNK < sectors ensures WordAllocated(sectors, c) {
        assert c < 8 * bytes;
      }
    } else {
      assert sectors > CHUNK * 8 * (bytes - 1);
      var c := (sectors - 1) / CHUNK;
      assert c >= 8 * (bytes - 1) && c * CHUNK < sectors;
      assert !WordAllocated(sectors, c);
    }
  }

  /** A disk of one sector has one byte, and its bit is in a word of eight. */
  lemma OneSectorOverruns()
    ensures AllocatedBytes(1) == 1 && !WordAllocated(1, 0)
  {
  }

  class DirtyTracker {
    const sectors: nat
    var bitmap: Bitmap
    var tracking: bool
    var dirtyCount: int

    ghost predicate Valid()
      reads this
    {
      if tracking then sectors <= CHUNK * (BITS * |bitmap|) && dirtyCount == |SetBits(bitmap)|
      else bitmap == [] && dirtyCount == 0
    }

    constructor (sectors: nat)
      ensures Valid() && !tracking && this.sectors == sectors
    {
      this.sectors, this.bitmap, this.tracking, this.dirtyCount := sectors, [], false, 0;
    }

    /** Switching tracking on from off, or off, starts with a clear bitmap.
        Switching it on again zeroes the count but keeps the bitmap, so the count
        is then right exactly if no bit was set. */
    method SetTracking(enable: bool)
      requires Valid()
      modifies this
      ensures tracking == enable
      ensures !(enable && old(tracking)) ==> Valid() && SetBits(bitmap) == {}
      ensures enable && old(tracking) ==> bitmap == old(bitmap) && (Valid() <==> SetBits(bitmap) == {})
    {
      dirtyCount := 0;
      if enable {
        if !tracking {
          bitmap := seq((AllocatedBytes(sectors) + 7) / 8, _ => Zero());
          assert SetBits(bitmap) == {};
        }
      } else {
        bitmap := [];
      }
      tracking := enable;
    }

    /** Marks or resets every chunk of the range and keeps the count. */
    method SetDirty(sector: nat, nb: nat, dirty: bool)
      requires Valid() && tracking && LastChunk(sector, nb) < BITS * |bitmap|
      modifies `bitmap, `dirtyCount
      ensures Valid() && |bitmap| == |old(bitmap)|
      ensures SetBits(bitmap) == Marked(old(SetBits(bitmap)), Chunks(sector, nb), dirty)
    {
      hide SetBits, FirstChunk, LastChunk, Marked, Chunks;
      ghost var was := SetBits(bitmap);
      var start: int, end := FirstChunk(sector), LastChunk(sector, nb);
      ghost var done: set<nat> := {};
      NothingMarked(was, dirty);
      while start <= end
        invariant FirstChunk(sector) <= start && Valid() && tracking && |bitmap| == |old(bitmap)|
        invariant forall c :: c in done <==> FirstChunk(sector) <= c < start && c <= end
        invariant SetBits(bitmap) == Marked(was, done, dirty)
        decreases end + 1 - start
      {
        MarkedMore(was, done, start, dirty);
        MarkOne(start, dirty);
        done := done + {start};
        start := start + 1;
      }
      AllChunks(sector, nb, done);
    }

    method MarkOne(chunk: nat, dirty: bool)
      requires Valid() && tracking && chunk < BITS * |bitmap|
      modifies `bitmap, `dirtyCount
      ensures Valid() && |bitmap| == |old(bitmap)|
      ensures SetBits(bitmap) == Marked(old(SetBits(bitmap)), {chunk}, dirty)
    {
      hide SetBits;
      var idx, bit := chunk / BITS, chunk % BITS;
      var val := bitmap[idx];
      SetOne(bitmap, chunk, dirty);
      BitIsMember(bitmap, chunk);
      SameBit(bitmap, chunk);
      if dirty {
        if !val[bit] {
          dirtyCount := dirtyCount + 1;
          val := val[bit := true];
        }
      } else {
        if val[bit] {
          dirtyCount := dirtyCount - 1;
          val := val[bit := false];
        }
      }
      bitmap := bitmap[idx := val];
    }

    /** A sector beyond the end, or without tracking, is not dirty. */
    method GetDirty(sector: nat) returns (r: bool)
      requires Valid()
      ensures r <==> tracking && sector < sectors && sector / CHUNK in SetBits(bitmap)
    {
      r := false;
      if tracking && sector < sectors {
        r := bitmap[sector / CHUNK / BITS][sector / CHUNK % BITS];
      }
    }
  }

  // ---------------------------------------------------------------------- runs

  datatype Op = Write(sector: nat, nb: nat) | Reset(sector: nat, nb: nat)

  /** The dirty chunks after a sequence of writes and resets. */
  function DirtyAfter(ops: seq<Op>): set<nat> {
    if ops == [] then {}
    else
      var was, op := DirtyAfter(ops[..|ops| - 1]), ops[|ops| - 1];
      Marked(was, Chunks(op.sector, op.nb), op.Write?)
  }

  /** Operation `i` writes to chunk `c` and no later one resets it. */
  ghost predicate WrittenSince(ops: seq<Op>, i: nat, c: nat) {
    && i < |ops| && ops[i].Write? && c in Chunks(ops[i].sector, ops[i].nb)
    && forall j :: i < j < |ops| && ops[j].Reset? ==> c !in Chunks(ops[j].sector, ops[j].nb)
  }

  /** A chunk is dirty exactly when it was written since it was last reset. */
  lemma {:induction false} DirtyExact(ops: seq<Op>, c: nat)
    ensures c in DirtyAfter(ops) <==> exists i: nat :: WrittenSince(ops, i, c)
    decreases |ops|
  {
    hide Chunks;
    if ops == [] {
    } else {
      var n := |ops| - 1;
      var front, op := ops[..n], ops[n];
      DirtyExact(front, c);
      forall i: nat | WrittenSince(front, i, c) && (op.Write? || c !in Chunks(op.sector, op.nb))
               ensures WrittenSince(ops, i, c) {}
      forall i: nat | i < n && WrittenSince(ops, i, c) ensures WrittenSince(front, i, c) {}
      if op.Write? && c in Chunks(op.sector, op.nb) { assert WrittenSince(ops, n, c); }
    }
  }

  /** Applies a sequence of writes and resets to a tracker. */
  method ApplyOps(t: DirtyTracker, ops: seq<Op>)
    requires t.Valid() && t.tracking && SetBits(t.bitmap) == {}
    requires forall i :: 0 <= i < |ops| ==> LastChunk(ops[i].sector, ops[i].nb) < BITS * |t.bitmap|
    modifies t`bitmap, t`dirtyCount
    ensures t.Valid() && SetBits(t.bitmap) == DirtyAfter(ops)
  {
    hide SetBits, Chunks, Marked, LastChunk;
    var i := 0;
    while i < |ops|
      invariant i <= |ops| && t.Valid() && |t.bitmap| == |old(t.bitmap)|
      invariant SetBits(t.bitmap) == DirtyAfter(ops[..i])
    {
      t.SetDirty(ops[i].sector, ops[i].nb, ops[i].Write?);
      assert ops[..i + 1][..i] == ops[..i];
      i := i + 1;
    }
    assert ops[..i] == ops;
  }

  /** After any writes and resets a sector is reported dirty if and only if its
      chunk was written since it was last reset. */
  method DirtySince(t: DirtyTracker, ops: seq<Op>, sector: nat) returns (r: bool)
    requires t.Valid() && t.tracking && SetBits(t.bitmap) == {}
    requires forall i :: 0 <= i < |ops| ==> LastChunk(ops[i].sector, ops[i].nb) < BITS * |t.bitmap|
    modifies t`bitmap, t`dirtyCount
    ensures r <==> sector < t.sectors && exists i: nat :: WrittenSince(ops, i, sector / CHUNK)
  {
    hide SetBits, WrittenSince, LastChunk;
    ApplyOps(t, ops);
    r := t.GetDirty(sector);
    DirtyExact(ops, sector / CHUNK);
  }
}
