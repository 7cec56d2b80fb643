/** What the cursor and the in-flight bits are for: the bulk pass reads every chunk
    once and ends, and after it no two reads of one chunk are ever under way, so that
    none can overtake another. */
module DiskDirtyPass {
  import opened Sectors
  import opened DiskMigration
  import opened DiskOutcome

  // -------------------------------------------------------------- the bulk pass

  function BulkSteps(steps: seq<Step>, d: nat): nat {
    if steps == [] then 0 else (if steps[0] == Bulk(d) then 1 else 0) + BulkSteps(steps[1..], d)
  }

  function Least(a: nat, b: nat): nat { if a < b then a else b }

  /** The cursor of a device after `k` more chunks. */
  ghost predicate CursorMoved(m: Mig, e: Mig, d: nat, k: nat) {
    && |m.cursor| == |e.cursor| == |m.disks| == |e.disks| && d < |m.disks| && |e.disks[d]| == |m.disks[d]|
    && e.cursor[d] == Least(|m.disks[d]|, m.cursor[d] + CHUNK * k)
  }

  lemma StepCursor(m: Mig, s: Step, d: nat)
    requires Inv(m) && Enabled(m, s) && d < |m.disks|
    ensures CursorMoved(m, Apply(m, s), d, if s == Bulk(d) then 1 else 0)
  {
    hide Covered, Numbered, Placed, Whole, Captured, Snapshot, Seen;
  }

  lemma {:induction false} RunCursor(m: Mig, steps: seq<Step>, d: nat)
    requires Inv(m) && ValidRun(m, steps) && d < |m.disks|
    ensures CursorMoved(m, Exec(m, steps), d, BulkSteps(steps, d))
    decreases |steps|
  {
    hide Covered, Numbered, Placed, Whole, Enabled, Apply;
    if steps == [] {
    } else {
      StepCursor(m, steps[0], d);
      StepInv(m, steps[0]);
      RunCursor(Apply(m, steps[0]), steps[1..], d);
    }
  }

  /** A bulk read is of exactly the sectors the cursor passes. */
  lemma BulkReads(m: Mig, d: nat, x: nat)
    requires Inv(m) && Enabled(m, Bulk(d)) && x < |m.disks[d]|
    ensures var e := Apply(m, Bulk(d));
            && |e.inFlight| == |m.inFlight| + 1 && e.inFlight[|m.inFlight|].c.dev == d
            && (m.cursor[d] <= x < e.cursor[d] <==> InChunk(m.disks, e.inFlight[|m.inFlight|].c, x))
  {
    hide Covered, Numbered, Placed, Whole;
  }

  /** The bulk pass of a device ends: it is through exactly when it has taken as many
      steps as the device has chunks, and it never takes more. */
  lemma BulkEnds(m: Mig, steps: seq<Step>, d: nat)
    requires Started(m) && ValidRun(m, steps) && d < |m.disks|
    ensures var e, chunks := Exec(m, steps), (|m.disks[d]| + CHUNK - 1) / CHUNK;
            && |e.cursor| == |e.disks| == |m.disks| && BulkSteps(steps, d) <= chunks
            && (e.cursor[d] >= |e.disks[d]| <==> BulkSteps(steps, d) == chunks)
  {
    hide Inv, Enabled, Apply;
    StartedInv(m);
    RunCursor(m, steps, d);
    NoMoreBulk(m, steps, d);
  }

  /** A bulk step is only taken while there is something left. */
  lemma {:induction false} NoMoreBulk(m: Mig, steps: seq<Step>, d: nat)
    requires Inv(m) && ValidRun(m, steps) && d < |m.disks| && d < |m.cursor| && m.cursor[d] <= |m.disks[d]|
    ensures BulkSteps(steps, d) <= (|m.disks[d]| - m.cursor[d] + CHUNK - 1) / CHUNK
    decreases |steps|
  {
    hide Covered, Numbered, Placed, Whole, Apply;
    if steps == [] {
    } else {
      StepCursor(m, steps[0], d);
      StepInv(m, steps[0]);
      NoMoreBulk(Apply(m, steps[0]), steps[1..], d);
    }
  }

  // ----------------------------------------------------------- the in-flight bits

  /** The reads under way are of different chunks, and the bits tell which. */
  ghost predicate OneEach(m: Mig) {
    && (forall i, j :: 0 <= i < j < |m.inFlight| ==> m.inFlight[i].c != m.inFlight[j].c)
    && (forall c :: c in m.aio <==> exists i :: 0 <= i < |m.inFlight| && m.inFlight[i].c == c)
  }

  lemma ResendOneEach(m: Mig, c: Chunk)
    requires OneEach(m) && Enabled(m, Resend(c))
    ensures OneEach(Apply(m, Resend(c)))
  {
    var e := Apply(m, Resend(c));
    forall k ensures k in e.aio <==> exists i :: 0 <= i < |e.inFlight| && e.inFlight[i].c == k {
      if k == c {
        assert e.inFlight[|m.inFlight|].c == k;
      } else if k in m.aio {
        var i :| 0 <= i < |m.inFlight| && m.inFlight[i].c == k;
        assert e.inFlight[i].c == k;
      }
    }
  }

  lemma CaptureOneEach(m: Mig, i: nat, xs: set<nat>)
    requires OneEach(m) && Enabled(m, Capture(i, xs))
    ensures OneEach(Apply(m, Capture(i, xs)))
  {
    hide Seen, InChunk;
    var e := Apply(m, Capture(i, xs));
    assert forall j :: 0 <= j < |m.inFlight| ==> e.inFlight[j].c == m.inFlight[j].c;
    forall k ensures k in e.aio <==> exists j :: 0 <= j < |e.inFlight| && e.inFlight[j].c == k {
      if k in m.aio {
        var j :| 0 <= j < |m.inFlight| && m.inFlight[j].c == k;
        assert e.inFlight[j].c == k;
      }
    }
  }

  lemma CompleteOneEach(m: Mig, i: nat)
    requires OneEach(m) && Enabled(m, Complete(i))
    ensures OneEach(Apply(m, Complete(i)))
  {
    hide Captured;
    var e := Apply(m, Complete(i));
    assert forall j :: 0 <= j < |e.inFlight| ==> e.inFlight[j] == m.inFlight[if j < i then j else j + 1];
    forall k ensures k in e.aio <==> exists j :: 0 <= j < |e.inFlight| && e.inFlight[j].c == k {
      if k in e.aio {
        var j :| 0 <= j < |m.inFlight| && m.inFlight[j].c == k;
        assert e.inFlight[if j < i then j else j - 1].c == k;
      }
    }
  }

  lemma StepOneEach(m: Mig, s: Step)
    requires OneEach(m) && BulkDone(m) && Enabled(m, s)
    ensures OneEach(Apply(m, s)) && BulkDone(Apply(m, s))
  {
    hide OneEach, Captured, Snapshot, Seen;
    match s
    case Bulk(_) => assert false;
    case Resend(c) => ResendOneEach(m, c);
    case Capture(i, xs) => CaptureOneEach(m, i, xs);
    case Complete(i) => CompleteOneEach(m, i);
    case _ => SameReads(m, Apply(m, s));
  }

  lemma SameReads(m: Mig, e: Mig)
    requires OneEach(m) && e.inFlight == m.inFlight && e.aio == m.aio
    ensures OneEach(e)
  {
  }

  lemma {:induction false} RunOneEach(m: Mig, steps: seq<Step>)
    requires OneEach(m) && BulkDone(m) && ValidRun(m, steps)
    ensures OneEach(Exec(m, steps)) && BulkDone(Exec(m, steps))
    decreases |steps|
  {
    hide OneEach, BulkDone, Enabled, Apply;
    if steps == [] {
    } else {
      StepOneEach(m, steps[0]);
      RunOneEach(Apply(m, steps[0]), steps[1..]);
    }
  }

  /** With the bulk phase done, no read under way and no bit set, every run whatever
      keeps the reads under way apart, as the bits say. */
  lemma DirtyPassKeepsApart(m: Mig, steps: seq<Step>)
    requires BulkDone(m) && m.inFlight == [] && m.aio == {} && ValidRun(m, steps)
    ensures OneEach(Exec(m, steps))
  {
    hide Enabled, Apply;
    RunOneEach(m, steps);
  }

  /** The final pass finds the queue flushed. */
  ghost predicate FlushedRun(m: Mig, steps: seq<Step>)
    requires ValidRun(m, steps)
    decreases |steps|
  {
    steps == [] || ((steps[0].SyncSend? ==> m.queue == []) && FlushedRun(Apply(m, steps[0]), steps[1..]))
  }

  lemma {:induction false} OneEachInOrder(m: Mig, steps: seq<Step>)
    requires OneEach(m) && BulkDone(m) && ValidRun(m, steps) && FlushedRun(m, steps)
    ensures InOrderRun(m, steps)
    decreases |steps|
  {
    hide BulkDone, Enabled, Apply;
    if steps == [] {
    } else {
      StepOneEach(m, steps[0]);
      OneEachInOrder(Apply(m, steps[0]), steps[1..]);
    }
  }

  lemma {:induction false} RunJoin(m: Mig, a: seq<Step>, b: seq<Step>)
    requires ValidRun(m, a) && ValidRun(Exec(m, a), b)
    ensures ValidRun(m, a + b) && Exec(m, a + b) == Exec(Exec(m, a), b)
    ensures InOrderRun(m, a) && InOrderRun(Exec(m, a), b) ==> InOrderRun(m, a + b)
    decreases |a|
  {
    hide Enabled, Apply, InOrder;
    if a == [] {
      assert a + b == b;
    } else {
      RunJoin(Apply(m, a[0]), a[1..], b);
      assert (a + b)[1..] == a[1..] + b;
    }
  }

  /** So the order of completions has to be assumed of the bulk phase only: if its
      reads completed in order and were drained, whatever follows is right once
      finished. */
  lemma DrainedBulkPreservesDisks(m: Mig, bulk: seq<Step>, rest: seq<Step>, dst: Disks)
    requires Started(m) && ValidRun(m, bulk) && InOrderRun(m, bulk)
    requires BulkDone(Exec(m, bulk)) && Exec(m, bulk).inFlight == [] && Exec(m, bulk).aio == {}
    requires ValidRun(Exec(m, bulk), rest) && FlushedRun(Exec(m, bulk), rest)
    requires Finished(Exec(Exec(m, bulk), rest)) && SameShape(Exec(Exec(m, bulk), rest).disks, dst)
    ensures Replay(dst, Exec(Exec(m, bulk), rest).sent) == Exec(Exec(m, bulk), rest).disks
  {
    hide Started, ValidRun, Exec, InOrderRun, FlushedRun, Finished, SameShape, Replay;
    OneEachInOrder(Exec(m, bulk), rest);
    RunJoin(m, bulk, rest);
    MigrationPreservesDisks(m, bulk + rest, dst);
  }
}
