/** What a disk migration leaves at the destination: exactly when it is the
    source's disks, with completions in any order and a queue that may have been
    left behind; and two runs in which it is not. */
module DiskOutcome {
  import opened DiskMigration
  import opened Sectors
  import opened Wire

  // --------------------------------------------------------------------- stage 3

  /** Of the reads `all` of a chunk, the last one in `arrived` shows sector `x`
      like the one submitted last. */
  ghost predicate LastAgrees(arrived: seq<Read>, all: seq<Read>, c: Chunk, x: nat) {
    var ms := Of(c, arrived);
    && ms != [] && x in ms[|ms| - 1].data
    && exists r :: IsNewest(all, c, r) && x in r.data && r.data[x] == ms[|ms| - 1].data[x]
  }

  /** The final pass reads and sends the dirty chunks `cs`. */
  function Snapshots(disks: Disks, cs: seq<Chunk>, no: nat): seq<Read> {
    if cs == [] then []
    else Snapshots(disks, cs[..|cs| - 1], no) + [Read(cs[|cs| - 1], Snapshot(disks, cs[|cs| - 1]), no + |cs| - 1)]
  }

  lemma {:induction false} SnapshotsWhole(disks: Disks, cs: seq<Chunk>, no: nat)
    ensures Whole(disks, Snapshots(disks, cs, no))
    decreases |cs|
  {
    if cs == [] {
    } else {
      SnapshotsWhole(disks, cs[..|cs| - 1], no);
      assert Captured(disks, Read(cs[|cs| - 1], Snapshot(disks, cs[|cs| - 1]), no + |cs| - 1));
    }
  }

  lemma {:induction false} SnapshotMessages(disks: Disks, cs: seq<Chunk>, no: nat, c: Chunk)
    ensures var ms := Of(c, Snapshots(disks, cs, no));
            if c in cs then ms != [] && ms[|ms| - 1].data == Snapshot(disks, c) else ms == []
    decreases |cs|
  {
    hide Of, Snapshot;
    OfNone(c, []);
    if cs == [] {
    } else {
      var front, k := cs[..|cs| - 1], cs[|cs| - 1];
      SnapshotMessages(disks, front, no, c);
      OfAppend(c, Snapshots(disks, front, no), Read(k, Snapshot(disks, k), no + |cs| - 1));
      assert cs == front + [k];
    }
  }

  /** The stream after the final pass; what is still queued has been dropped. */
  function StageThree(m: Mig, cs: seq<Chunk>): seq<Read> { m.sent + Snapshots(m.disks, cs, m.issued) }

  /** The final pass can begin: the guest is stopped and every read has finished. */
  ghost predicate Quiet(m: Mig) {
    Inv(m) && BulkDone(m) && m.unmarked == {} && m.inFlight == []
  }

  ghost predicate Lists(cs: seq<Chunk>, dirty: set<Chunk>) { forall k :: k in cs <==> k in dirty }

  /** What the destination gets for one sector. */
  lemma StageThreeSector(m: Mig, cs: seq<Chunk>, dst: Disks, c: Chunk, x: nat)
    requires Quiet(m) && Lists(cs, m.dirty) && SameShape(m.disks, dst) && InChunk(m.disks, c, x)
    ensures var e, ms := Replay(dst, StageThree(m, cs))[c.dev][x], Of(c, m.sent);
            if c in m.dirty then e == m.disks[c.dev][x]
            else if ms == [] then e == dst[c.dev][x]
            else x in ms[|ms| - 1].data && e == ms[|ms| - 1].data[x]
  {
    hide Of, Replay, Snapshots, Numbered, Placed, Covered, Captured;
    var snaps := Snapshots(m.disks, cs, m.issued);
    SnapshotMessages(m.disks, cs, m.issued, c);
    SnapshotsWhole(m.disks, cs, m.issued);
    OfConcat(c, m.sent, snaps);
    WholeElsewhere(m.disks, dst, m.sent + snaps);
    LastWins(dst, m.sent + snaps, c, x);
  }

  /** A clean chunk's newest read, sent or queued, shows the disk as it is. */
  lemma NewestIsRight(m: Mig, c: Chunk, x: nat, r: Read)
    requires Quiet(m) && InChunk(m.disks, c, x) && c !in m.dirty && IsNewest(m.sent + m.queue, c, r)
    ensures x in r.data && r.data[x] == m.disks[c.dev][x]
  {
    hide Captured, Placed, IsNewest, Unique;
    assert m.sent + m.queue + m.inFlight == m.sent + m.queue;
    assert Behind(m, c, x) && Fresh(m, c, x);
    var q :| IsNewest(Pipeline(m), c, q) && (x in q.data ==> q.data[x] == m.disks[c.dev][x]);
    NewestUnique(Pipeline(m), c, r, q);
    InTheReads(m.disks, m.sent, m.queue, c, r, x);
  }

  lemma InTheReads(disks: Disks, sent: seq<Read>, queue: seq<Read>, c: Chunk, r: Read, x: nat)
    requires Whole(disks, sent) && Whole(disks, queue) && IsNewest(sent + queue, c, r) && InChunk(disks, c, x)
    ensures x in r.data
  {
    assert r in sent || r in queue;
    assert Captured(disks, r);
  }

  lemma HasNewest(m: Mig, c: Chunk, x: nat) returns (r: Read)
    requires Quiet(m) && InChunk(m.disks, c, x) && c !in m.dirty
    ensures IsNewest(m.sent + m.queue, c, r)
  {
    hide Captured, Placed, IsNewest, Unique;
    assert m.sent + m.queue + m.inFlight == m.sent + m.queue;
    assert Behind(m, c, x) && Fresh(m, c, x);
    r :| IsNewest(Pipeline(m), c, r);
  }

  lemma AgreesIsRight(m: Mig, c: Chunk, x: nat)
    requires Quiet(m) && InChunk(m.disks, c, x) && c !in m.dirty
    ensures var ms := Of(c, m.sent);
            LastAgrees(m.sent, m.sent + m.queue, c, x) <==>
            ms != [] && x in ms[|ms| - 1].data && ms[|ms| - 1].data[x] == m.disks[c.dev][x]
  {
    hide Quiet, IsNewest, Of, InChunk;
    var r := HasNewest(m, c, x);
    NewestIsRight(m, c, x, r);
    if LastAgrees(m.sent, m.sent + m.queue, c, x) {
      var ms := Of(c, m.sent);
      var q :| IsNewest(m.sent + m.queue, c, q) && x in q.data && q.data[x] == ms[|ms| - 1].data[x];
      NewestIsRight(m, c, x, q);
    }
  }

  /** Every clean chunk arrived as it was last read. */
  ghost predicate AllAgree(m: Mig) {
    forall c: Chunk, x: nat :: InChunk(m.disks, c, x) && c !in m.dirty ==> LastAgrees(m.sent, m.sent + m.queue, c, x)
  }

  lemma AgreeSuffices(m: Mig, cs: seq<Chunk>, dst: Disks)
    requires Quiet(m) && Lists(cs, m.dirty) && SameShape(m.disks, dst) && AllAgree(m)
    ensures Replay(dst, StageThree(m, cs)) == m.disks
  {
    hide Quiet, Replay, StageThree, LastAgrees, Of;
    var e := Replay(dst, StageThree(m, cs));
    forall d: nat, x: nat | OnDisk(e, d, x) ensures e[d][x] == m.disks[d][x] {
      var c := ChunkOf(d, x);
      assert InChunk(m.disks, c, x);
      StageThreeSector(m, cs, dst, c, x);
      if c !in m.dirty { AgreesIsRight(m, c, x); }
    }
    EqualDisks(e, m.disks);
  }

  /** A sector that is not this one. */
  function Other(v: Sector): (w: Sector)
    ensures w != v
  {
    var b: Byte := if v[0] == 0 then 1 else 0;
    var w: Sector := v[0 := b];
    assert w[0] != v[0];
    w
  }

  lemma AgreeNeeded(m: Mig, cs: seq<Chunk>, c: Chunk, x: nat)
    requires Quiet(m) && Lists(cs, m.dirty) && InChunk(m.disks, c, x) && c !in m.dirty
    requires forall dst :: SameShape(m.disks, dst) ==> Replay(dst, StageThree(m, cs)) == m.disks
    ensures LastAgrees(m.sent, m.sent + m.queue, c, x)
  {
    hide Quiet, Replay, StageThree, LastAgrees, Of;
    var dst := Written(m.disks, c.dev, x, Other(m.disks[c.dev][x]));
    assert SameShape(m.disks, dst);
    StageThreeSector(m, cs, dst, c, x);
    AgreesIsRight(m, c, x);
  }

  /** Stage 3 with nothing assumed about the order of completions or about the
      queue: every destination ends up with the source's disks if and only if, of
      each clean chunk, the read that was sent last agrees with the one that was
      submitted last.  The saver has both at hand; neither the disks nor the
      destination are asked. */
  lemma StageThreeExact(m: Mig, cs: seq<Chunk>)
    requires Quiet(m) && Lists(cs, m.dirty)
    ensures (forall dst :: SameShape(m.disks, dst) ==> Replay(dst, StageThree(m, cs)) == m.disks) <==> AllAgree(m)
  {
    hide Quiet, Replay, StageThree, LastAgrees, SameShape, Lists;
    if AllAgree(m) {
      forall dst | SameShape(m.disks, dst) ensures Replay(dst, StageThree(m, cs)) == m.disks {
        AgreeSuffices(m, cs, dst);
      }
    }
    if forall dst :: SameShape(m.disks, dst) ==> Replay(dst, StageThree(m, cs)) == m.disks {
      forall c: Chunk, x: nat | InChunk(m.disks, c, x) && c !in m.dirty
        ensures LastAgrees(m.sent, m.sent + m.queue, c, x)
      {
        AgreeNeeded(m, cs, c, x);
      }
    }
  }

  // -------------------------------------------------------------------- exactness

  /** Nothing left to do: no dirty chunk, no read under way, nothing queued. */
  predicate Finished(m: Mig) {
    BulkDone(m) && m.dirty == {} && m.unmarked == {} && m.inFlight == [] && m.queue == []
  }

  /** Of every chunk, the last read to complete agrees with the last submitted. */
  ghost predicate NotOvertaken(m: Mig) {
    forall c: Chunk, x: nat :: InChunk(m.disks, c, x) ==> LastAgrees(m.sent, m.sent, c, x)
  }

  lemma FinishedExact(m: Mig, dst: Disks)
    requires Inv(m) && Finished(m) && SameShape(m.disks, dst)
    ensures Replay(dst, m.sent) == m.disks <==> NotOvertaken(m)
  {
    hide Inv, Replay, LastAgrees, Of;
    assert m.sent + m.queue == m.sent && StageThree(m, []) == m.sent;
    if NotOvertaken(m) { AgreeSuffices(m, [], dst); }
    if Replay(dst, m.sent) == m.disks {
      forall c: Chunk, x: nat | InChunk(m.disks, c, x) ensures LastAgrees(m.sent, m.sent, c, x) {
        var r := HasNewest(m, c, x);
        SomeMessage(m.sent, c, r);
        StageThreeSector(m, [], dst, c, x);
        AgreesIsRight(m, c, x);
      }
    }
  }

  lemma SomeMessage(rs: seq<Read>, c: Chunk, r: Read)
    requires IsNewest(rs, c, r)
    ensures Of(c, rs) != []
  {
    OfNone(c, rs);
  }

  /** For every interleaving of guest writes, marks, reads, completions in any
      order and flushes that ends with nothing left to do: the destination has the
      source's disks, whatever it held before, if and only if of every chunk the
      last read to complete agrees with the last one submitted. */
  lemma MigrationExact(m: Mig, steps: seq<Step>, dst: Disks)
    requires Started(m) && ValidRun(m, steps) && Finished(Exec(m, steps))
    requires SameShape(Exec(m, steps).disks, dst)
    ensures Replay(dst, Exec(m, steps).sent) == Exec(m, steps).disks <==> NotOvertaken(Exec(m, steps))
  {
    hide Inv, Enabled, Apply, Replay, NotOvertaken;
    StartedInv(m);
    RunInv(m, steps);
    FinishedExact(Exec(m, steps), dst);
  }

  // ------------------------------------------------------------------ in order

  /** What the migration code relies on at a step: reads of one chunk complete in
      the order they were submitted, and the final pass finds the queue flushed. */
  predicate InOrder(m: Mig, s: Step) {
    && (s.Complete? && s.i < |m.inFlight| ==> forall j :: 0 <= j < s.i ==> m.inFlight[j].c != m.inFlight[s.i].c)
    && (s.SyncSend? ==> m.queue == [])
  }

  ghost predicate InOrderRun(m: Mig, steps: seq<Step>)
    requires ValidRun(m, steps)
    decreases |steps|
  {
    steps == [] || (InOrder(m, steps[0]) && InOrderRun(Apply(m, steps[0]), steps[1..]))
  }

  /** The reads of each chunk stand in the order of their submission. */
  ghost predicate Ordered(rs: seq<Read>) {
    forall i, j :: 0 <= i < j < |rs| && rs[i].c == rs[j].c ==> rs[i].no < rs[j].no
  }

  lemma OrderedAppend(rs: seq<Read>, r: Read)
    requires Ordered(rs) && forall q :: q in rs ==> q.no < r.no
    ensures Ordered(rs + [r])
  {
  }

  lemma OrderedMoved(a: seq<Read>, f: seq<Read>, r: Read, g: seq<Read>)
    requires Ordered((a + f) + [r] + g) && forall j :: 0 <= j < |f| ==> f[j].c != r.c
    ensures Ordered(a + [r] + (f + g))
  {
    var was, now := (a + f) + [r] + g, a + [r] + (f + g);
    forall i, j | 0 <= i < j < |now| && now[i].c == now[j].c ensures now[i].no < now[j].no {
      var p := Before(|a|, |f|, i);
      var q := Before(|a|, |f|, j);
      assert was[p] == now[i] && was[q] == now[j];
      assert p < q;
    }
  }

  /** Where the element now at `i` stood before it was moved past `f` others. */
  function Before(a: nat, f: nat, i: nat): nat {
    if i < a then i else if i == a then a + f else if i <= a + f then i - 1 else i
  }

  lemma OrderedUpdated(rs: seq<Read>, t: nat, r: Read)
    requires Ordered(rs) && t < |rs| && r.c == rs[t].c && r.no == rs[t].no
    ensures Ordered(rs[t := r])
  {
  }

  lemma StepOrdered(m: Mig, s: Step)
    requires Inv(m) && Enabled(m, s) && InOrder(m, s) && Ordered(Pipeline(m))
    ensures Ordered(Pipeline(Apply(m, s)))
  {
    hide Ordered, Captured, Covered, Placed, Whole, Unique;
    var e := Apply(m, s);
    match s
    case Bulk(d) =>
      assert Pipeline(e) == Pipeline(m) + [e.inFlight[|m.inFlight|]];
      OrderedAppend(Pipeline(m), e.inFlight[|m.inFlight|]);
    case Resend(c) =>
      assert Pipeline(e) == Pipeline(m) + [e.inFlight[|m.inFlight|]];
      OrderedAppend(Pipeline(m), e.inFlight[|m.inFlight|]);
    case Capture(i, _) =>
      var t := |m.sent| + |m.queue| + i;
      assert Pipeline(m)[t] == m.inFlight[i] && Pipeline(e) == Pipeline(m)[t := e.inFlight[i]];
      OrderedUpdated(Pipeline(m), t, e.inFlight[i]);
    case Complete(i) =>
      CompletePipeline(m, i);
      OrderedMoved(m.sent + m.queue, m.inFlight[..i], m.inFlight[i], m.inFlight[i + 1..]);
    case Flush =>
      assert m.queue == [m.queue[0]] + m.queue[1..];
      assert Pipeline(e) == Pipeline(m);
    case SyncSend(c) =>
      assert Pipeline(m) == m.sent && Pipeline(e) == m.sent + [e.sent[|m.sent|]];
      OrderedAppend(m.sent, e.sent[|m.sent|]);
    case Land(_, _, _) => assert Pipeline(e) == Pipeline(m);
    case MarkDirty(_) => assert Pipeline(e) == Pipeline(m);
  }

  lemma {:induction false} RunOrdered(m: Mig, steps: seq<Step>)
    requires Inv(m) && Ordered(Pipeline(m)) && ValidRun(m, steps) && InOrderRun(m, steps)
    ensures Ordered(Pipeline(Exec(m, steps)))
    decreases |steps|
  {
    hide Inv, Ordered, Enabled, Apply, InOrder;
    if steps == [] {
    } else {
      StepInv(m, steps[0]);
      StepOrdered(m, steps[0]);
      RunOrdered(Apply(m, steps[0]), steps[1..]);
    }
  }

  lemma {:induction false} LastIsNewest(c: Chunk, rs: seq<Read>)
    requires Ordered(rs) && Of(c, rs) != []
    ensures IsNewest(rs, c, Of(c, rs)[|Of(c, rs)| - 1])
    decreases |rs|
  {
    var front, r := rs[..|rs| - 1], rs[|rs| - 1];
    assert rs == front + [r];
    if r.c == c {
      forall q | q in rs && q.c == c ensures q.no <= r.no {
        var i :| 0 <= i < |rs| && rs[i] == q;
      }
    } else {
      LastIsNewest(c, front);
    }
  }

  /** A clean chunk that waits in the queue had been sent before as it is there. */
  ghost predicate SentAlready(m: Mig, c: Chunk, x: nat) {
    var was, now := Of(c, m.sent), Of(c, m.queue);
    && was != [] && now != [] && x in was[|was| - 1].data && x in now[|now| - 1].data
    && was[|was| - 1].data[x] == now[|now| - 1].data[x]
  }

  lemma LeftoverChunk(m: Mig, c: Chunk, x: nat)
    requires Quiet(m) && Ordered(Pipeline(m)) && InChunk(m.disks, c, x) && c !in m.dirty
    ensures LastAgrees(m.sent, m.sent + m.queue, c, x) <==> Of(c, m.queue) == [] || SentAlready(m, c, x)
  {
    hide Of, Ordered, InChunk, Captured, Numbered, Placed, Covered, IsNewest;
    assert Pipeline(m) == m.sent + m.queue;
    var was, now, all := Of(c, m.sent), Of(c, m.queue), Of(c, m.sent + m.queue);
    OfConcat(c, m.sent, m.queue);
    var r := HasNewest(m, c, x);
    SomeMessage(m.sent + m.queue, c, r);
    LastIsNewest(c, m.sent + m.queue);
    NewestIsRight(m, c, x, all[|all| - 1]);
    AgreesIsRight(m, c, x);
    assert all[|all| - 1] == if now == [] then was[|was| - 1] else now[|now| - 1];
  }

  /** Completions in order overtake nothing: with the queue flushed every clean
      chunk was last sent as it was last read. */
  lemma OrderedAgrees(m: Mig)
    requires Quiet(m) && Ordered(Pipeline(m)) && m.queue == []
    ensures AllAgree(m)
  {
    hide Quiet, Ordered, Of, InChunk, LastAgrees, SentAlready;
    forall c: Chunk, x: nat | InChunk(m.disks, c, x) && c !in m.dirty
      ensures LastAgrees(m.sent, m.sent + m.queue, c, x)
    {
      OfNone(c, m.queue);
      LeftoverChunk(m, c, x);
    }
  }

  lemma OrderedNotOvertaken(m: Mig)
    requires Inv(m) && Finished(m) && Ordered(Pipeline(m))
    ensures NotOvertaken(m)
  {
    hide Inv, Ordered, InChunk, LastAgrees;
    OrderedAgrees(m);
    assert m.sent + m.queue == m.sent;
  }

  /** So with completions in order every finished run is right. */
  lemma MigrationPreservesDisks(m: Mig, steps: seq<Step>, dst: Disks)
    requires Started(m) && ValidRun(m, steps) && InOrderRun(m, steps) && Finished(Exec(m, steps))
    requires SameShape(Exec(m, steps).disks, dst)
    ensures Replay(dst, Exec(m, steps).sent) == Exec(m, steps).disks
  {
    hide Inv, Enabled, Apply, Replay, NotOvertaken, InOrder;
    StartedInv(m);
    assert Pipeline(m) == [];
    RunInv(m, steps);
    RunOrdered(m, steps);
    OrderedNotOvertaken(Exec(m, steps));
    MigrationExact(m, steps, dst);
  }

  /** With completions in order, dropping the queue is harmless for every
      destination if and only if each clean chunk that waits in it had been sent
      before with the same content. */
  lemma LeftoverExact(m: Mig, cs: seq<Chunk>)
    requires Quiet(m) && Lists(cs, m.dirty) && Ordered(Pipeline(m))
    ensures (forall dst :: SameShape(m.disks, dst) ==> Replay(dst, StageThree(m, cs)) == m.disks) <==>
            forall c: Chunk, x: nat :: InChunk(m.disks, c, x) && c !in m.dirty && Of(c, m.queue) != [] ==>
                     SentAlready(m, c, x)
  {
    hide Quiet, Ordered, Replay, StageThree, LastAgrees, SentAlready, Of, InChunk, SameShape;
    StageThreeExact(m, cs);
    forall c: Chunk, x: nat | InChunk(m.disks, c, x) && c !in m.dirty
      ensures LastAgrees(m.sent, m.sent + m.queue, c, x) <==> Of(c, m.queue) == [] || SentAlready(m, c, x)
    {
      LeftoverChunk(m, c, x);
    }
  }

  // ------------------------------------------------------------- two bad runs

  /** One disk of one sector. */
  function OneSector(v: Sector): Mig { Mig([[v]], {}, {}, [0], {}, [], [], [], 0) }

  const ONLY: Chunk := Chunk(0, 0)

  /** The bulk read is overtaken by the read of the same chunk that the dirty pass
      submits later; the bulk path leaves no in-flight bit to prevent that. */
  function Overtaking(w: Sector): (steps: seq<Step>)
    ensures |steps| == 10
  {
    [Bulk(0), Capture(0, {0}), Land(0, 0, w), MarkDirty(ONLY), Resend(ONLY), Capture(1, {0}), Complete(1),
        Complete(0), Flush, Flush]
  }

  function Overtaken(v: Sector, w: Sector, k: nat): Mig {
    var none, r, q := map[], Read(ONLY, map[0 := v], 0), Read(ONLY, map[0 := w], 1);
    match k
    case 0 => OneSector(v)
    case 1 => Mig([[v]], {}, {}, [1], {}, [Read(ONLY, none, 0)], [], [], 1)
    case 2 => Mig([[v]], {}, {}, [1], {}, [r], [], [], 1)
    case 3 => Mig([[w]], {}, {ONLY}, [1], {}, [r], [], [], 1)
    case 4 => Mig([[w]], {ONLY}, {}, [1], {}, [r], [], [], 1)
    case 5 => Mig([[w]], {}, {}, [1], {ONLY}, [r, Read(ONLY, none, 1)], [], [], 2)
    case 6 => Mig([[w]], {}, {}, [1], {ONLY}, [r, q], [], [], 2)
    case 7 => Mig([[w]], {}, {}, [1], {}, [r], [q], [], 2)
    case 8 => Mig([[w]], {}, {}, [1], {}, [], [q, r], [], 2)
    case 9 => Mig([[w]], {}, {}, [1], {}, [], [r], [q], 2)
    case _ => Mig([[w]], {}, {}, [1], {}, [], [], [q, r], 2)
  }

  lemma OvertakingStep(v: Sector, w: Sector, k: nat)
    requires k < 10
    ensures var m, s := Overtaken(v, w, k), Overtaking(w)[k]; Enabled(m, s) && Apply(m, s) == Overtaken(v, w, k + 1)
  {
    if k < 2 { OvertakingFirst(v, w, k); }
    else if k < 5 { OvertakingStarts(v, w, k); }
    else if k < 6 { OvertakingSecond(v, w); }
    else if k < 8 { OvertakingMiddle(v, w, k); }
    else { OvertakingEnds(v, w, k); }
  }

  lemma OvertakingFirst(v: Sector, w: Sector, k: nat)
    requires k < 2
    ensures var m, s := Overtaken(v, w, k), Overtaking(w)[k]; Enabled(m, s) && Apply(m, s) == Overtaken(v, w, k + 1)
  {
    assert Seen([[v]], Read(ONLY, map[], 0), {0}).data == map[0 := v];
  }

  lemma OvertakingStarts(v: Sector, w: Sector, k: nat)
    requires 2 <= k < 5
    ensures var m, s := Overtaken(v, w, k), Overtaking(w)[k]; Enabled(m, s) && Apply(m, s) == Overtaken(v, w, k + 1)
  {
    assert [v][0 := w] == [w];
  }

  lemma OvertakingSecond(v: Sector, w: Sector)
    ensures var m, s := Overtaken(v, w, 5), Overtaking(w)[5]; Enabled(m, s) && Apply(m, s) == Overtaken(v, w, 6)
  {
    assert Seen([[w]], Read(ONLY, map[], 1), {0}).data == map[0 := w];
  }

  lemma OvertakingMiddle(v: Sector, w: Sector, k: nat)
    requires 6 <= k < 8
    ensures var m, s := Overtaken(v, w, k), Overtaking(w)[k]; Enabled(m, s) && Apply(m, s) == Overtaken(v, w, k + 1)
  {
  }

  lemma OvertakingEnds(v: Sector, w: Sector, k: nat)
    requires 8 <= k < 10
    ensures var m, s := Overtaken(v, w, k), Overtaking(w)[k]; Enabled(m, s) && Apply(m, s) == Overtaken(v, w, k + 1)
  {
  }

  lemma {:induction false} OvertakingRun(v: Sector, w: Sector, k: nat)
    requires k <= 10
    ensures ValidRun(Overtaken(v, w, k), Overtaking(w)[k..])
    ensures Exec(Overtaken(v, w, k), Overtaking(w)[k..]) == Overtaken(v, w, 10)
    decreases 10 - k
  {
    hide Enabled, Apply, Overtaken, Overtaking;
    if k == 10 {
    } else {
      OvertakingStep(v, w, k);
      assert Overtaking(w)[k..][1..] == Overtaking(w)[k + 1..];
      OvertakingRun(v, w, k + 1);
    }
  }

  lemma ReplayTwo(dst: Disks, q: Read, r: Read)
    ensures Replay(dst, [q, r]) == Deliver(Deliver(dst, q), r)
  {
    hide Deliver;
    var none, one, two := [], [q], [q, r];
    assert one[..0] == none && two[..1] == one;
    assert Replay(dst, none) == dst;
    assert Replay(dst, one) == Deliver(Replay(dst, one[..0]), q);
    assert Replay(dst, two) == Deliver(Replay(dst, two[..1]), r);
  }

  /** So the order of completions matters: in this run everything is finished and
      the destination is left with the overwritten sector. */
  lemma OvertakenBulkRead(v: Sector, w: Sector)
    ensures Started(OneSector(v)) && ValidRun(OneSector(v), Overtaking(w))
    ensures var e := Exec(OneSector(v), Overtaking(w));
            Finished(e) && e.disks == [[w]] && Replay([[v]], e.sent) == [[v]]
  {
    hide Enabled, Apply, Overtaking;
    OvertakingRun(v, w, 0);
    assert Overtaking(w)[0..] == Overtaking(w);
    var r, q := Read(ONLY, map[0 := v], 0), Read(ONLY, map[0 := w], 1);
    ReplayTwo([[v]], q, r);
    var e := Replay([[v]], [q, r]);
    assert SameShape([[v]], e) && OnDisk([[v]], 0, 0);
    assert InChunk(Deliver([[v]], q), ONLY, 0);
    assert e[0][0] == v;
    assert e[0] == [v];
  }

  /** A queue that was not flushed: the bulk read has completed, the rate limit
      kept it from the stream, and the final pass finds nothing dirty. */
  function Unflushed(): seq<Step> { [Bulk(0), Capture(0, {0}), Complete(0)] }

  lemma UnflushedRun(v: Sector)
    ensures ValidRun(OneSector(v), Unflushed()) && InOrderRun(OneSector(v), Unflushed())
    ensures Exec(OneSector(v), Unflushed()) == Mig([[v]], {}, {}, [1], {}, [], [Read(ONLY, map[0 := v], 0)], [], 1)
  {
    hide Enabled, Apply;
    var m0, m1, m2 := OneSector(v), Overtaken(v, v, 1), Overtaken(v, v, 2);
    var m3 := Mig([[v]], {}, {}, [1], {}, [], [Read(ONLY, map[0 := v], 0)], [], 1);
    OvertakingFirst(v, v, 0);
    OvertakingFirst(v, v, 1);
    LastUnflushed(v);
    assert Exec(m3, []) == m3;
    assert Unflushed()[1..] == [Capture(0, {0}), Complete(0)] && Unflushed()[1..][1..] == [Complete(0)];
    assert [Complete(0)][1..] == [];
    assert ValidRun(m3, []) && ValidRun(m2, [Complete(0)]) && ValidRun(m1, Unflushed()[1..]);
    assert InOrderRun(m2, [Complete(0)]) && InOrderRun(m1, Unflushed()[1..]);
    assert Exec(m2, [Complete(0)]) == m3 && Exec(m1, Unflushed()[1..]) == m3;
  }

  lemma LastUnflushed(v: Sector)
    ensures var m := Overtaken(v, v, 2);
            && Enabled(m, Complete(0))
            && Apply(m, Complete(0)) == Mig([[v]], {}, {}, [1], {}, [], [Read(ONLY, map[0 := v], 0)], [], 1)
  {
  }

  /** Nothing is dirty, the queue is dropped, and the destination keeps whatever
      it held. */
  lemma LeftoverDropped(v: Sector, w: Sector)
    ensures ValidRun(OneSector(v), Unflushed()) && InOrderRun(OneSector(v), Unflushed())
    ensures var e := Exec(OneSector(v), Unflushed());
            BulkDone(e) && e.dirty == {} && e.disks == [[v]] && Replay([[w]], StageThree(e, [])) == [[w]]
  {
    UnflushedRun(v);
  }
}
