/** Disk migration while the guest writes: asynchronous chunk reads, a bulk pass,
    passes over dirty chunks, a queue of finished reads and the stream.  A read
    may see its sectors at different times, reads may complete in any order, and a
    guest write reaches the disk before its chunk is marked dirty. */
module DiskMigration {
  import opened Sectors

  datatype Chunk = Chunk(dev: nat, idx: nat)

  /** A read of one chunk: the sectors seen so far, and its submission number,
      which only the proofs look at. */
  datatype Read = Read(c: Chunk, data: map<nat, Sector>, no: nat)

  type Disks = seq<seq<Sector>>

  datatype Mig = Mig(
    disks: Disks,
    dirty: set<Chunk>,        // the block layer's dirty bitmap
    unmarked: set<Chunk>,     // written by the guest, bitmap not yet updated
    cursor: seq<nat>,         // next sector of the bulk pass, per device
    aio: set<Chunk>,          // in-flight bits of the dirty pass
    inFlight: seq<Read>,      // submitted reads, oldest first
    queue: seq<Read>,         // finished reads waiting for the stream
    sent: seq<Read>,
    issued: nat)              // the next submission number

  function ChunkOf(dev: nat, x: nat): Chunk { Chunk(dev, x / CHUNK) }

  predicate OnDisk(disks: Disks, dev: nat, x: nat) {
    dev < |disks| && x < |disks[dev]|
  }

  predicate InChunk(disks: Disks, c: Chunk, x: nat) {
    OnDisk(disks, c.dev, x) && ChunkOf(c.dev, x) == c
  }

  /** The chunk has a sector on its disk. */
  predicate Exists(disks: Disks, c: Chunk) { OnDisk(disks, c.dev, c.idx * CHUNK) }

  ghost predicate Captured(disks: Disks, r: Read) {
    forall x: nat :: InChunk(disks, r.c, x) ==> x in r.data
  }

  predicate BulkDone(m: Mig) {
    |m.cursor| == |m.disks| && forall d :: 0 <= d < |m.disks| ==> m.cursor[d] >= |m.disks[d]|
  }

  function NextCursor(len: nat, cur: nat): nat {
    if len - cur < CHUNK then len else cur + CHUNK
  }

  datatype Step =
    | Bulk(dev: nat)
    | Resend(c: Chunk)
    | Capture(i: nat, xs: set<nat>)
    | Complete(i: nat)
    | Flush
    | SyncSend(c: Chunk)
    | Land(dev: nat, x: nat, v: Sector)
    | MarkDirty(c: Chunk)

  /** All of a chunk, read in one go. */
  function Snapshot(disks: Disks, c: Chunk): map<nat, Sector> {
    map x: nat | c.dev < |disks| && x < |disks[c.dev]| && InChunk(disks, c, x) :: disks[c.dev][x]
  }

  /** A read after seeing the sectors `xs` as they are now. */
  function Seen(disks: Disks, r: Read, xs: set<nat>): (e: Read)
    requires forall x :: x in xs ==> InChunk(disks, r.c, x)
    ensures e.c == r.c && e.no == r.no
  {
    r.(data := r.data + map x: nat | x in xs && InChunk(disks, r.c, x) :: disks[r.c.dev][x])
  }

  function Written(disks: Disks, d: nat, x: nat, v: Sector): Disks
    requires OnDisk(disks, d, x)
  {
    var row: seq<Sector> := disks[d][x := v];
    disks[d := row]
  }

  ghost predicate Enabled(m: Mig, s: Step) {
    match s
    case Bulk(d) => d < |m.disks| && |m.cursor| == |m.disks| && m.cursor[d] < |m.disks[d]|
    case Resend(c) => c in m.dirty && c !in m.aio && BulkDone(m)
    case Capture(i, xs) => i < |m.inFlight| && forall x :: x in xs ==> InChunk(m.disks, m.inFlight[i].c, x)
    case Complete(i) => i < |m.inFlight| && Captured(m.disks, m.inFlight[i])
    case Flush => m.queue != []
    case SyncSend(c) => c in m.dirty && BulkDone(m) && m.inFlight == []
    case Land(d, x, _) => OnDisk(m.disks, d, x)
    case MarkDirty(c) => Exists(m.disks, c)
  }

  ghost function Apply(m: Mig, s: Step): Mig
    requires Enabled(m, s)
  {
    match s
    case Bulk(d) =>
      var c := ChunkOf(d, m.cursor[d]);
      m.(inFlight := m.inFlight + [Read(c, map[], m.issued)], issued := m.issued + 1, dirty := m.dirty - {c},
         cursor := m.cursor[d := NextCursor(|m.disks[d]|, m.cursor[d])])
    case Resend(c) =>
      m.(inFlight := m.inFlight + [Read(c, map[], m.issued)], issued := m.issued + 1, dirty := m.dirty - {c},
         aio := m.aio + {c})
    case Capture(i, xs) => m.(inFlight := m.inFlight[i := Seen(m.disks, m.inFlight[i], xs)])
    case Complete(i) =>
      var r := m.inFlight[i];
      m.(inFlight := m.inFlight[..i] + m.inFlight[i + 1..], queue := m.queue + [r], aio := m.aio - {r.c})
    case Flush => m.(queue := m.queue[1..], sent := m.sent + [m.queue[0]])
    case SyncSend(c) =>
      m.(sent := m.sent + [Read(c, Snapshot(m.disks, c), m.issued)], issued := m.issued + 1, dirty := m.dirty - {c})
    case Land(d, x, v) =>
      m.(disks := Written(m.disks, d, x, v), unmarked := m.unmarked + {ChunkOf(d, x)})
    case MarkDirty(c) => m.(dirty := m.dirty + {c}, unmarked := m.unmarked - {c})
  }

  // ------------------------------------------------------ messages of one chunk

  function Of(c: Chunk, rs: seq<Read>): (ms: seq<Read>)
    ensures forall i :: 0 <= i < |ms| ==> ms[i].c == c && ms[i] in rs
  {
    if rs == [] then [] else Of(c, rs[..|rs| - 1]) + if rs[|rs| - 1].c == c then [rs[|rs| - 1]] else []
  }

  lemma OfAppend(c: Chunk, rs: seq<Read>, r: Read)
    ensures Of(c, rs + [r]) == Of(c, rs) + if r.c == c then [r] else []
  {
    assert (rs + [r])[..|rs|] == rs;
  }

  lemma {:induction false} OfConcat(c: Chunk, a: seq<Read>, b: seq<Read>)
    ensures Of(c, a + b) == Of(c, a) + Of(c, b)
    decreases |b|
  {
    if b == [] {
      assert a + b == a;
    } else {
      var front, r := b[..|b| - 1], b[|b| - 1];
      assert a + b == (a + front) + [r] && b == front + [r];
      OfAppend(c, a + front, r);
      OfAppend(c, front, r);
      OfConcat(c, a, front);
    }
  }

  lemma {:induction false} OfNone(c: Chunk, rs: seq<Read>)
    ensures Of(c, rs) == [] <==> forall r :: r in rs ==> r.c != c
  {
    if rs == [] {
    } else {
      OfNone(c, rs[..|rs| - 1]);
      assert rs == rs[..|rs| - 1] + [rs[|rs| - 1]];
    }
  }

  /** `r` is the read of chunk `c` in `rs` that was submitted last. */
  ghost predicate IsNewest(rs: seq<Read>, c: Chunk, r: Read) {
    r in rs && r.c == c && forall q :: q in rs && q.c == c ==> q.no <= r.no
  }

  ghost predicate Unique(rs: seq<Read>) {
    forall i, j :: 0 <= i < j < |rs| ==> rs[i].no != rs[j].no
  }

  lemma NewestUnique(rs: seq<Read>, c: Chunk, r: Read, q: Read)
    requires Unique(rs) && IsNewest(rs, c, r) && IsNewest(rs, c, q)
    ensures r == q
  {
    var i :| 0 <= i < |rs| && rs[i] == r;
    var j :| 0 <= j < |rs| && rs[j] == q;
    assert r.no == q.no;
    assert i == j;
  }

  lemma UniqueRemove(a: seq<Read>, r: Read, b: seq<Read>)
    requires Unique(a + [r] + b)
    ensures Unique(a + b) && forall q :: q in a + b ==> q.no != r.no
  {
    var all, rest := a + [r] + b, a + b;
    assert all[|a|] == r;
    assert forall i :: 0 <= i < |rest| ==> rest[i] == all[if i < |a| then i else i + 1];
  }

  lemma UniqueInsert(a: seq<Read>, r: Read, b: seq<Read>)
    requires Unique(a + b) && forall q :: q in a + b ==> q.no != r.no
    ensures Unique(a + [r] + b)
  {
    var all, rest := a + [r] + b, a + b;
    assert forall i :: 0 <= i < |all| && i != |a| ==> all[i] == rest[if i < |a| then i else i - 1];
    assert forall i :: 0 <= i < |all| && i != |a| ==> all[i] in rest;
  }

  // ----------------------------------------------------------------- invariant

  /** Everything on its way, in the order it would reach the stream if nothing
      overtook anything. */
  function Pipeline(m: Mig): seq<Read> { m.sent + m.queue + m.inFlight }

  /** The newest read of a chunk shows sector `x` as it is, or has not read it. */
  ghost predicate Fresh(m: Mig, c: Chunk, x: nat)
    requires InChunk(m.disks, c, x)
  {
    exists r :: IsNewest(Pipeline(m), c, r) && (x in r.data ==> r.data[x] == m.disks[c.dev][x])
  }

  predicate Behind(m: Mig, c: Chunk, x: nat) {
    c.dev < |m.cursor| && x < m.cursor[c.dev]
  }

  /** Behind the bulk cursor every sector's chunk is dirty, about to be marked
      dirty, or the newest read of it is right. */
  ghost predicate Covered(m: Mig) {
    forall c: Chunk, x: nat :: InChunk(m.disks, c, x) && Behind(m, c, x) ==>
      c in m.dirty || c in m.unmarked || Fresh(m, c, x)
  }

  /** The bulk cursor stands at the start of a chunk or at the end of the disk. */
  predicate CursorOk(m: Mig) {
    |m.cursor| == |m.disks| &&
    forall d :: 0 <= d < |m.disks| ==>
             m.cursor[d] <= |m.disks[d]| && (m.cursor[d] % CHUNK == 0 || m.cursor[d] == |m.disks[d]|)
  }

  ghost predicate Whole(disks: Disks, rs: seq<Read>) {
    forall r :: r in rs ==> Captured(disks, r)
  }

  ghost predicate Numbered(m: Mig) {
    Unique(Pipeline(m)) && forall r :: r in Pipeline(m) ==> r.no < m.issued
  }

  /** Only chunks that are there are marked and read. */
  ghost predicate Placed(m: Mig) {
    (forall c :: c in m.dirty ==> Exists(m.disks, c)) && forall r :: r in Pipeline(m) ==> Exists(m.disks, r.c)
  }

  ghost predicate Inv(m: Mig) {
    && CursorOk(m) && Whole(m.disks, m.queue) && Whole(m.disks, m.sent)
    && Numbered(m) && Placed(m) && Covered(m)
  }

  // -------------------------------------------------------------- preservation

  /** A read just submitted covers its chunk if what it has seen is right; the
      other chunks keep their newest read. */
  lemma SubmitCovered(m: Mig, r: Read, e: Mig)
    requires Covered(m) && Numbered(m) && r.no == m.issued
    requires e.disks == m.disks && e.dirty == m.dirty - {r.c} && e.unmarked == m.unmarked
    requires forall q :: q in Pipeline(e) <==> q in Pipeline(m) || q == r
    requires forall x: nat :: InChunk(m.disks, r.c, x) && x in r.data ==> r.data[x] == m.disks[r.c.dev][x]
    requires forall k: Chunk, x: nat :: InChunk(m.disks, k, x) && Behind(e, k, x) && k != r.c ==> Behind(m, k, x)
    ensures Covered(e)
  {
    hide Pipeline, Unique;
    forall k: Chunk, x: nat | InChunk(e.disks, k, x) && Behind(e, k, x)
      ensures k in e.dirty || k in e.unmarked || Fresh(e, k, x)
    {
      if k == r.c {
        assert IsNewest(Pipeline(e), k, r);
      } else if k !in m.dirty && k !in m.unmarked {
        assert Behind(m, k, x) && Fresh(m, k, x);
        var q :| IsNewest(Pipeline(m), k, q) && (x in q.data ==> q.data[x] == m.disks[k.dev][x]);
        assert IsNewest(Pipeline(e), k, q);
      }
    }
  }

  lemma SubmitNumbered(m: Mig, a: seq<Read>, r: Read, b: seq<Read>, e: Mig)
    requires Numbered(m) && Placed(m) && r.no == m.issued && e.issued == m.issued + 1 && Exists(m.disks, r.c)
    requires e.disks == m.disks && e.dirty <= m.dirty
    requires Pipeline(m) == a + b && Pipeline(e) == a + [r] + b
    ensures Numbered(e) && Placed(e)
    ensures forall q :: q in Pipeline(e) <==> q in Pipeline(m) || q == r
  {
    hide Pipeline, Unique;
    UniqueInsert(a, r, b);
  }

  lemma SubmitInv(m: Mig, c: Chunk, e: Mig)
    requires Inv(m) && Exists(m.disks, c) && CursorOk(e)
    requires e == m.(inFlight := m.inFlight + [Read(c, map[], m.issued)], issued := m.issued + 1,
                     dirty := m.dirty - {c}, cursor := e.cursor, aio := e.aio)
    requires forall k: Chunk, x: nat :: InChunk(m.disks, k, x) && Behind(e, k, x) && k != c ==> Behind(m, k, x)
    ensures Inv(e)
  {
    hide Numbered, Placed, Covered, Fresh, Captured;
    var r := Read(c, map[], m.issued);
    assert Pipeline(m) == Pipeline(m) + [] && Pipeline(e) == Pipeline(m) + [r] + [];
    SubmitNumbered(m, Pipeline(m), r, [], e);
    SubmitCovered(m, r, e);
  }

  lemma BulkInv(m: Mig, d: nat)
    requires Inv(m) && Enabled(m, Bulk(d))
    ensures Inv(Apply(m, Bulk(d)))
  {
    hide Numbered, Placed, Covered, Whole;
    var e := Apply(m, Bulk(d));
    SubmitInv(m, ChunkOf(d, m.cursor[d]), e);
  }

  lemma ResendInv(m: Mig, c: Chunk)
    requires Inv(m) && Enabled(m, Resend(c))
    ensures Inv(Apply(m, Resend(c)))
  {
    hide Numbered, Covered, Whole;
    SubmitInv(m, c, Apply(m, Resend(c)));
  }

  /** One read of the pipeline has seen more sectors, as they are now. */
  lemma SeenCovered(m: Mig, e: Mig, t: nat, xs: set<nat>)
    requires Covered(m) && e.disks == m.disks && e.dirty == m.dirty && e.unmarked == m.unmarked && e.cursor == m.cursor
    requires t < |Pipeline(m)| && forall x :: x in xs ==> InChunk(m.disks, Pipeline(m)[t].c, x)
    requires Pipeline(e) == Pipeline(m)[t := Seen(m.disks, Pipeline(m)[t], xs)]
    ensures Covered(e)
  {
    hide Pipeline;
    var was, now := Pipeline(m)[t], Pipeline(e)[t];
    assert forall q :: q in Pipeline(e) ==> q == now || q in Pipeline(m);
    assert now in Pipeline(e);
    forall k: Chunk, x: nat | InChunk(e.disks, k, x) && Behind(e, k, x)
      ensures k in e.dirty || k in e.unmarked || Fresh(e, k, x)
    {
      assert InChunk(m.disks, k, x) && Behind(m, k, x);
      if k !in m.dirty && k !in m.unmarked {
        assert Fresh(m, k, x);
        var q :| IsNewest(Pipeline(m), k, q) && (x in q.data ==> q.data[x] == m.disks[k.dev][x]);
        if q == was {
          assert IsNewest(Pipeline(e), k, now);
        } else {
          var i :| 0 <= i < |Pipeline(m)| && Pipeline(m)[i] == q;
          assert Pipeline(e)[i] == q;
          assert IsNewest(Pipeline(e), k, q);
        }
      }
    }
  }

  lemma SeenNumbered(m: Mig, e: Mig, t: nat, r: Read)
    requires Numbered(m) && Placed(m) && e.disks == m.disks && e.dirty == m.dirty && e.issued == m.issued
    requires t < |Pipeline(m)| && r.c == Pipeline(m)[t].c && r.no == Pipeline(m)[t].no
    requires Pipeline(e) == Pipeline(m)[t := r]
    ensures Numbered(e) && Placed(e)
  {
    hide Pipeline;
    assert forall q :: q in Pipeline(e) ==> q == r || q in Pipeline(m);
    assert Pipeline(m)[t] in Pipeline(m);
  }

  lemma CaptureInv(m: Mig, i: nat, xs: set<nat>)
    requires Inv(m) && Enabled(m, Capture(i, xs))
    ensures Inv(Apply(m, Capture(i, xs)))
  {
    hide Numbered, Placed, Covered, Whole, InChunk, Seen;
    var e := Apply(m, Capture(i, xs));
    var t := |m.sent| + |m.queue| + i;
    assert Pipeline(m)[t] == m.inFlight[i];
    assert Pipeline(e) == Pipeline(m)[t := e.inFlight[i]];
    SeenNumbered(m, e, t, e.inFlight[i]);
    SeenCovered(m, e, t, xs);
  }

  /** The same reads in another order. */
  lemma SameReadsCovered(m: Mig, e: Mig)
    requires Covered(m) && e.disks == m.disks && e.cursor == m.cursor && e.dirty == m.dirty && e.unmarked == m.unmarked
    requires forall q :: q in Pipeline(e) <==> q in Pipeline(m)
    ensures Covered(e)
  {
    hide Pipeline;
    forall k: Chunk, x: nat | InChunk(e.disks, k, x) && Behind(e, k, x)
      ensures k in e.dirty || k in e.unmarked || Fresh(e, k, x)
    {
      assert InChunk(m.disks, k, x) && Behind(m, k, x);
      if k !in m.dirty && k !in m.unmarked {
        assert Fresh(m, k, x);
        var q :| IsNewest(Pipeline(m), k, q) && (x in q.data ==> q.data[x] == m.disks[k.dev][x]);
        assert IsNewest(Pipeline(e), k, q);
      }
    }
  }

  /** A completed read moves to the front of those in flight. */
  lemma CompletePipeline(m: Mig, i: nat)
    requires Enabled(m, Complete(i))
    ensures var a, f, r := m.sent + m.queue, m.inFlight, m.inFlight[i];
            && Pipeline(m) == (a + f[..i]) + [r] + f[i + 1..]
            && Pipeline(Apply(m, Complete(i))) == a + [r] + (f[..i] + f[i + 1..])
  {
    hide Captured;
  }

  lemma CompleteInv(m: Mig, i: nat)
    requires Inv(m) && Enabled(m, Complete(i))
    ensures Inv(Apply(m, Complete(i)))
  {
    hide Pipeline, Unique, Covered, Captured;
    var e := Apply(m, Complete(i));
    CompletePipeline(m, i);
    var a, f, r := m.sent + m.queue, m.inFlight, m.inFlight[i];
    UniqueRemove(a + f[..i], r, f[i + 1..]);
    assert (a + f[..i]) + f[i + 1..] == a + (f[..i] + f[i + 1..]);
    UniqueInsert(a, r, f[..i] + f[i + 1..]);
    SameReadsCovered(m, e);
  }

  lemma FlushInv(m: Mig)
    requires Inv(m) && Enabled(m, Flush)
    ensures Inv(Apply(m, Flush))
  {
    hide Unique, Covered, Captured;
    var e := Apply(m, Flush);
    assert m.queue == [m.queue[0]] + m.queue[1..];
    assert Pipeline(e) == Pipeline(m);
    SameReadsCovered(m, e);
  }

  /** A synchronous read is the newest of its chunk, wherever it is put. */
  lemma SyncInv(m: Mig, c: Chunk)
    requires Inv(m) && Enabled(m, SyncSend(c))
    ensures Inv(Apply(m, SyncSend(c)))
  {
    hide Numbered, Covered, Fresh;
    var r := Read(c, Snapshot(m.disks, c), m.issued);
    var e := Apply(m, SyncSend(c));
    assert Pipeline(m) == m.sent + m.queue && Pipeline(e) == m.sent + [r] + m.queue;
    SubmitNumbered(m, m.sent, r, m.queue, e);
    SubmitCovered(m, r, e);
  }

  lemma SamePlaces(a: Disks, b: Disks)
    requires SameShape(a, b)
    ensures forall d: nat, x: nat :: OnDisk(b, d, x) <==> OnDisk(a, d, x)
    ensures forall c: Chunk, x: nat :: InChunk(b, c, x) <==> InChunk(a, c, x)
    ensures forall c :: Exists(b, c) <==> Exists(a, c)
    ensures forall r: Read :: Captured(a, r) <==> Captured(b, r)
  {
    assert forall d: nat, x: nat :: OnDisk(b, d, x) <==> OnDisk(a, d, x);
    assert forall c: Chunk, x: nat :: InChunk(b, c, x) <==> InChunk(a, c, x);
  }

  /** A guest write leaves its chunk waiting for its mark. */
  lemma LandInv(m: Mig, d: nat, x: nat, v: Sector)
    requires Inv(m) && Enabled(m, Land(d, x, v))
    ensures Inv(Apply(m, Land(d, x, v)))
  {
    hide IsNewest, Unique, Captured;
    var e := Apply(m, Land(d, x, v));
    SamePlaces(m.disks, e.disks);
    assert Pipeline(e) == Pipeline(m);
    forall k: Chunk, y: nat | InChunk(e.disks, k, y) && Behind(e, k, y)
      ensures k in e.dirty || k in e.unmarked || Fresh(e, k, y)
    {
      assert InChunk(m.disks, k, y) && Behind(m, k, y);
      if k !in m.dirty && k !in e.unmarked {
        assert Fresh(m, k, y);
        var q :| IsNewest(Pipeline(m), k, q) && (y in q.data ==> q.data[y] == m.disks[k.dev][y]);
        assert IsNewest(Pipeline(e), k, q);
      }
    }
  }

  lemma MarkInv(m: Mig, c: Chunk)
    requires Inv(m) && Enabled(m, MarkDirty(c))
    ensures Inv(Apply(m, MarkDirty(c)))
  {
    hide IsNewest, Unique, Captured;
    var e := Apply(m, MarkDirty(c));
    assert Pipeline(e) == Pipeline(m);
    forall k: Chunk, y: nat | InChunk(e.disks, k, y) && Behind(e, k, y)
      ensures k in e.dirty || k in e.unmarked || Fresh(e, k, y)
    {
      assert InChunk(m.disks, k, y) && Behind(m, k, y);
      if k !in e.dirty && k !in m.unmarked {
        assert Fresh(m, k, y);
        var q :| IsNewest(Pipeline(m), k, q) && (y in q.data ==> q.data[y] == m.disks[k.dev][y]);
        assert IsNewest(Pipeline(e), k, q);
      }
    }
  }

  // ---------------------------------------------------------------------- runs

  lemma StepInv(m: Mig, s: Step)
    requires Inv(m) && Enabled(m, s)
    ensures Inv(Apply(m, s))
  {
    hide Inv, Captured;
    match s
    case Bulk(d) => BulkInv(m, d);
    case Resend(c) => ResendInv(m, c);
    case Capture(i, xs) => CaptureInv(m, i, xs);
    case Complete(i) => CompleteInv(m, i);
    case Flush => FlushInv(m);
    case SyncSend(c) => SyncInv(m, c);
    case Land(d, x, v) => LandInv(m, d, x, v);
    case MarkDirty(c) => MarkInv(m, c);
  }

  ghost predicate ValidRun(m: Mig, steps: seq<Step>)
    decreases |steps|
  {
    steps == [] || (Enabled(m, steps[0]) && ValidRun(Apply(m, steps[0]), steps[1..]))
  }

  ghost function Exec(m: Mig, steps: seq<Step>): Mig
    requires ValidRun(m, steps)
    decreases |steps|
  {
    if steps == [] then m else Exec(Apply(m, steps[0]), steps[1..])
  }

  lemma {:induction false} RunInv(m: Mig, steps: seq<Step>)
    requires Inv(m) && ValidRun(m, steps)
    ensures Inv(Exec(m, steps))
    decreases |steps|
  {
    hide Inv, Enabled, Apply;
    if steps == [] {
    } else {
      StepInv(m, steps[0]);
      RunInv(Apply(m, steps[0]), steps[1..]);
    }
  }

  lemma {:induction false} ExecSnoc(m: Mig, steps: seq<Step>, s: Step)
    requires ValidRun(m, steps) && Enabled(Exec(m, steps), s)
    ensures ValidRun(m, steps + [s]) && Exec(m, steps + [s]) == Apply(Exec(m, steps), s)
    decreases |steps|
  {
    hide Enabled, Apply;
    if steps == [] {
      assert steps + [s] == [s] && [s][1..] == [];
      assert ValidRun(Apply(m, s), []);
    } else {
      ExecSnoc(Apply(m, steps[0]), steps[1..], s);
      assert (steps + [s])[1..] == steps[1..] + [s];
    }
  }

  /** Dirty tracking has just been switched on; the bulk pass is about to start. */
  predicate Started(m: Mig) {
    && |m.cursor| == |m.disks| && (forall d :: 0 <= d < |m.cursor| ==> m.cursor[d] == 0)
    && m.dirty == {} && m.inFlight == [] && m.queue == [] && m.sent == []
  }

  lemma StartedInv(m: Mig)
    requires Started(m)
    ensures Inv(m)
  {
    assert Pipeline(m) == [];
  }

  predicate SameShape(a: Disks, b: Disks) {
    |a| == |b| && forall d :: 0 <= d < |a| ==> |a[d]| == |b[d]|
  }

  // --------------------------------------------------------------- destination

  /** The load side writes the sectors of one message. */
  function Deliver(dst: Disks, r: Read): (e: Disks)
    ensures SameShape(dst, e)
    ensures forall d: nat, x: nat :: OnDisk(dst, d, x) ==>
              e[d][x] == if InChunk(dst, r.c, x) && d == r.c.dev && x in r.data then r.data[x] else dst[d][x]
  {
    if r.c.dev < |dst| then dst[r.c.dev := DeliverRow(dst, r)] else dst
  }

  function DeliverRow(dst: Disks, r: Read): (row: seq<Sector>)
    requires r.c.dev < |dst|
    ensures |row| == |dst[r.c.dev]|
    ensures forall x: nat :: x < |row| ==>
              row[x] == if InChunk(dst, r.c, x) && x in r.data then r.data[x] else dst[r.c.dev][x]
  {
    seq(|dst[r.c.dev]|, x requires 0 <= x < |dst[r.c.dev]| =>
          if InChunk(dst, r.c, x) && x in r.data then r.data[x] else dst[r.c.dev][x])
  }

  function Replay(dst: Disks, rs: seq<Read>): (e: Disks)
    ensures SameShape(dst, e)
  {
    if rs == [] then dst else Deliver(Replay(dst, rs[..|rs| - 1]), rs[|rs| - 1])
  }

  /** A sector ends up as the last message about its chunk says. */
  lemma {:induction false} LastWins(dst: Disks, rs: seq<Read>, c: Chunk, x: nat)
    requires Whole(dst, rs) && InChunk(dst, c, x)
    ensures var ms := Of(c, rs);
            if ms == [] then Replay(dst, rs)[c.dev][x] == dst[c.dev][x]
            else x in ms[|ms| - 1].data && Replay(dst, rs)[c.dev][x] == ms[|ms| - 1].data[x]
    decreases |rs|
  {
    if rs == [] {
    } else {
      var front, r := rs[..|rs| - 1], rs[|rs| - 1];
      LastWins(dst, front, c, x);
      assert Captured(dst, r);
      var was := Replay(dst, front);
      assert InChunk(was, c, x);
      if r.c == c {
        assert x in r.data;
      }
    }
  }

  lemma WholeElsewhere(a: Disks, b: Disks, rs: seq<Read>)
    requires SameShape(a, b) && Whole(a, rs)
    ensures Whole(b, rs)
  {
    hide Captured;
    SamePlaces(a, b);
  }

  lemma EqualDisks(a: Disks, b: Disks)
    requires SameShape(a, b)
    requires forall d: nat, x: nat :: OnDisk(a, d, x) ==> a[d][x] == b[d][x]
    ensures a == b
  {
    forall d | 0 <= d < |a| ensures a[d] == b[d] {
      forall x | 0 <= x < |a[d]| ensures a[d][x] == b[d][x] {
        assert OnDisk(a, d, x);
      }
    }
  }
}
