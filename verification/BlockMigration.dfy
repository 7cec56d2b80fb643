/** The disk migration code as it runs: device cursors, the in-flight bits, the
    queue of finished reads and the counters, updated in place; each method is
    proved to take steps of the migration protocol. */
module BlockMigration {
  import opened DiskMigration
  import opened DiskOutcome
  import opened Sectors

  /** The sectors of its chunk that a read has not seen yet. */
  ghost function Missing(disks: Disks, r: Read): set<nat> {
    set x: nat | r.c.dev < |disks| && x < |disks[r.c.dev]| && InChunk(disks, r.c, x) && x !in r.data
  }

  /** The rest of a read: sectors not seen so far are seen now. */
  function Filled(disks: Disks, r: Read): Read { r.(data := Snapshot(disks, r.c) + r.data) }

  lemma FilledSeen(disks: Disks, r: Read)
    ensures Filled(disks, r) == Seen(disks, r, Missing(disks, r)) && Captured(disks, Filled(disks, r))
  {
    assert Filled(disks, r).data == Seen(disks, r, Missing(disks, r)).data;
  }

  /** Every in-flight bit belongs to a submitted read. */
  ghost predicate Backed(aio: set<Chunk>, inFlight: seq<Read>) {
    forall c :: c in aio ==> exists j :: 0 <= j < |inFlight| && inFlight[j].c == c
  }

  lemma CompleteBacked(aio: set<Chunk>, inFlight: seq<Read>, i: nat)
    requires Backed(aio, inFlight) && i < |inFlight|
    ensures Backed(aio - {inFlight[i].c}, inFlight[..i] + inFlight[i + 1..])
  {
    var rest := inFlight[..i] + inFlight[i + 1..];
    forall c | c in aio - {inFlight[i].c} ensures exists j :: 0 <= j < |rest| && rest[j].c == c {
      var j :| 0 <= j < |inFlight| && inFlight[j].c == c;
      assert rest[if j < i then j else j - 1].c == c;
    }
  }

  lemma SubmitBacked(aio: set<Chunk>, inFlight: seq<Read>, bits: set<Chunk>, r: Read)
    requires Backed(aio, inFlight) && bits <= aio + {r.c}
    ensures Backed(bits, inFlight + [r])
  {
    var all := inFlight + [r];
    forall c | c in bits ensures exists j :: 0 <= j < |all| && all[j].c == c {
      if c == r.c {
        assert all[|inFlight|].c == c;
      } else {
        var j :| 0 <= j < |inFlight| && inFlight[j].c == c;
        assert all[j].c == c;
      }
    }
  }

  lemma FilledBacked(disks: Disks, aio: set<Chunk>, inFlight: seq<Read>, i: nat)
    requires Backed(aio, inFlight) && i < |inFlight|
    ensures Backed(aio, inFlight[i := Filled(disks, inFlight[i])])
  {
    var now := inFlight[i := Filled(disks, inFlight[i])];
    forall c | c in aio ensures exists j :: 0 <= j < |now| && now[j].c == c {
      var j :| 0 <= j < |inFlight| && inFlight[j].c == c;
      assert now[j].c == c;
    }
  }

  lemma NothingBacked(aio: set<Chunk>)
    requires Backed(aio, [])
    ensures aio == {}
  {
  }

  /** No dirty chunk is left before the dirty cursor of its device. */
  ghost predicate CleanBehind(dirty: set<Chunk>, curDirty: seq<nat>) {
    forall c :: c in dirty && c.dev < |curDirty| ==> curDirty[c.dev] <= c.idx * CHUNK
  }

  lemma FewerClean(a: set<Chunk>, b: set<Chunk>, curDirty: seq<nat>)
    requires CleanBehind(a, curDirty) && b <= a
    ensures CleanBehind(b, curDirty)
  {
  }

  lemma SetFacts(dirty: set<Chunk>, past: set<Chunk>, marked: set<Chunk>, more: set<Chunk>)
    ensures (dirty + marked) - (past + marked) - more == dirty - past - (marked + more)
    ensures past + marked + more == past + (marked + more) && dirty + marked + more == dirty + (marked + more)
  {
  }

  /** No chunk of the same device before this one is dirty. */
  ghost predicate NoneBefore(dirty: set<Chunk>, c: Chunk) {
    forall k :: k in dirty && k.dev == c.dev ==> c.idx <= k.idx
  }

  lemma AtCursor(dirty: set<Chunk>, curDirty: seq<nat>, d: nat)
    requires CleanBehind(dirty, curDirty) && d < |curDirty|
    ensures NoneBefore(dirty, ChunkOf(d, curDirty[d]))
  {
  }

  /** A cursor at the end means that its device has no dirty chunk, but for those
      the guest has marked meanwhile. */
  lemma DeviceClean(m: Mig, dirty: set<Chunk>, curDirty: seq<nat>, d: nat)
    requires Inv(m) && |curDirty| == |m.disks| && dirty <= m.dirty && CleanBehind(dirty, curDirty)
    requires d < |curDirty| && curDirty[d] >= |m.disks[d]|
    ensures forall k :: k in dirty ==> k.dev != d
  {
    hide Covered, Numbered, Whole;
    forall k | k in dirty ensures k.dev != d {
      assert Exists(m.disks, k);
    }
  }

  /** The bulk read of the next chunk of device `d`, if there is one. */
  ghost function BulkChunk(m: Mig, d: nat): Mig
    requires Inv(m) && d < |m.disks|
  {
    if m.cursor[d] < |m.disks[d]| then Apply(m, Bulk(d)) else m
  }

  ghost predicate FirstUndone(completed: seq<bool>, d: nat) {
    d < |completed| && !completed[d] && forall k :: 0 <= k < d ==> completed[k]
  }

  /** A guest write reaches a disk, or the bitmap. */
  predicate GuestStep(disks: Disks, s: Step) {
    (s.Land? && OnDisk(disks, s.dev, s.x)) || (s.MarkDirty? && Exists(disks, s.c))
  }

  ghost predicate GuestSteps(disks: Disks, guest: seq<Step>) {
    forall i :: 0 <= i < |guest| ==> GuestStep(disks, guest[i])
  }

  lemma GuestStill(a: Disks, b: Disks, guest: seq<Step>)
    requires SameShape(a, b) && GuestSteps(a, guest)
    ensures GuestSteps(b, guest)
  {
    SamePlaces(a, b);
  }

  lemma SomeGuestLeft(disks: Disks, guest: seq<Step>)
    requires guest != [] && GuestSteps(disks, guest)
    ensures GuestStep(disks, guest[0]) && GuestSteps(disks, guest[1..])
  {
  }

  /** The step that handles a dirty chunk. */
  function DirtyStep(c: Chunk, isAsync: bool): Step { if isAsync then Resend(c) else SyncSend(c) }

  class BlkMigState {
    var disks: Disks
    var dirty: set<Chunk>
    ghost var unmarked: set<Chunk>
    var cursor: seq<nat>
    var bulkCompleted: seq<bool>
    var curDirty: seq<nat>
    var aio: set<Chunk>
    var inFlight: seq<Read>
    var queue: seq<Read>
    var sent: seq<Read>
    var submitted: int
    var readDone: int
    var transferred: int
    var issued: nat

    ghost function State(): Mig
      reads this
    {
      Mig(disks, dirty, unmarked, cursor, aio, inFlight, queue, sent, issued)
    }

    ghost predicate Valid()
      reads this
    {
      && Inv(State())
      && submitted == |inFlight| && readDone == |queue| && |cursor| == |disks|
      && Backed(aio, inFlight)
      && |bulkCompleted| == |disks| && |curDirty| == |disks|
      && (forall d :: 0 <= d < |disks| ==> bulkCompleted[d] ==> cursor[d] >= |disks[d]|)
      && (forall d :: 0 <= d < |disks| ==> curDirty[d] % CHUNK == 0)
    }

    /** Dirty tracking has just been switched on. */
    constructor (disks: Disks)
      ensures Valid() && Started(State()) && this.disks == disks
    {
      this.disks, dirty, unmarked, aio := disks, {}, {}, {};
      cursor, curDirty := seq(|disks|, _ => 0), seq(|disks|, _ => 0);
      bulkCompleted := seq(|disks|, _ => false);
      inFlight, queue, sent := [], [], [];
      submitted, readDone, transferred, issued := 0, 0, 0, 0;
      new;
      StartedInv(State());
    }

    /** Submits the read of the next chunk of device `d`, and resets its dirty
        bit; true when that was the last one. */
    method SaveDeviceBulk(d: nat) returns (done: bool)
      requires Valid() && d < |disks|
      modifies `inFlight, `dirty, `cursor, `submitted, `issued
      ensures Valid() && (done <==> cursor[d] >= |disks[d]|)
      ensures State() == BulkChunk(old(State()), d)
    {
      hide Inv, Covered, Backed;
      var total, cur := |disks[d]|, cursor[d];
      if cur >= total {
        return true;
      }
      BulkInv(State(), d);
      AlignedCursor(State(), d);
      cur := cur - cur % CHUNK;
      var nr := CHUNK;
      if total - cur < CHUNK {
        nr := total - cur;
      }
      var r := Read(ChunkOf(d, cur), map[], issued);
      SubmitBacked(aio, inFlight, aio, r);
      inFlight, issued := inFlight + [r], issued + 1;
      submitted := submitted + 1;
      dirty := dirty - {ChunkOf(d, cur)};
      cursor := cursor[d := cur + nr];
      done := cursor[d] >= total;
    }

    /** One bulk chunk of the first device that still has some; false when all
        devices are through. */
    method SaveBulkedBlock() returns (more: bool)
      requires Valid()
      modifies `inFlight, `dirty, `cursor, `submitted, `bulkCompleted, `issued
      ensures Valid()
      ensures !more ==> State() == old(State()) && BulkDone(State())
      ensures disks == old(disks)
      ensures more ==>
                exists d: nat :: FirstUndone(old(bulkCompleted), d) && State() == BulkChunk(old(State()), d)
    {
      hide Inv, Backed;
      var d := 0;
      while d < |disks|
        invariant d <= |disks| && Valid() && State() == old(State()) && unchanged(`disks)
        invariant bulkCompleted == old(bulkCompleted) && forall k :: 0 <= k < d ==> bulkCompleted[k]
      {
        if !bulkCompleted[d] {
          assert FirstUndone(bulkCompleted, d);
          var done := SaveDeviceBulk(d);
          if done {
            bulkCompleted := bulkCompleted[d := true];
          }
          return true;
        }
        d := d + 1;
      }
      more := false;
    }

    /** A read has finished: queue it, clear its in-flight bit, keep count.  Any
        read may be the next to finish. */
    method ReadCallback(i: nat)
      requires Valid() && i < |inFlight| && Captured(disks, inFlight[i])
      modifies `inFlight, `queue, `aio, `submitted, `readDone
      ensures Valid() && State() == Apply(old(State()), Complete(i)) && submitted >= 0
    {
      hide Inv, Backed;
      CompleteInv(State(), i);
      CompleteBacked(aio, inFlight, i);
      var r := inFlight[i];
      queue := queue + [r];
      aio := aio - {r.c};
      inFlight := inFlight[..i] + inFlight[i + 1..];
      submitted := submitted - 1;
      readDone := readDone + 1;
    }

    /** The driver finishes read `i`: it sees what is missing, and calls back. */
    method Finish(i: nat, ghost start: Mig, ghost before: seq<Step>) returns (ghost steps: seq<Step>)
      requires Valid() && i < |inFlight| && ValidRun(start, before) && State() == Exec(start, before)
      modifies `inFlight, `queue, `aio, `submitted, `readDone
      ensures Valid() && |inFlight| == |old(inFlight)| - 1
      ensures ValidRun(start, steps) && State() == Exec(start, steps)
    {
      hide Inv, Backed, Captured, ValidRun, Exec, Seen, Filled, Missing;
      ghost var look := Capture(i, Missing(disks, inFlight[i]));
      MissingInChunk(disks, inFlight[i]);
      FilledSeen(disks, inFlight[i]);
      FilledBacked(disks, aio, inFlight, i);
      CaptureInv(State(), i, look.xs);
      ExecSnoc(start, before, look);
      inFlight := inFlight[i := Filled(disks, inFlight[i])];
      ghost var middle := before + [look];
      assert State() == Exec(start, middle);
      ExecSnoc(start, middle, Complete(i));
      ReadCallback(i);
      steps := middle + [Complete(i)];
    }

    /** A guest write goes on while the migration waits. */
    method GuestGoesOn(s: Step, ghost start: Mig, ghost before: seq<Step>)
      returns (ghost marked: set<Chunk>, ghost steps: seq<Step>)
      requires Valid() && GuestStep(disks, s) && ValidRun(start, before) && State() == Exec(start, before)
      modifies `disks, `dirty, `unmarked
      ensures Valid() && SameShape(old(disks), disks) && dirty == old(dirty) + marked
      ensures ValidRun(start, steps) && State() == Exec(start, steps)
    {
      hide Inv, Backed, ValidRun, Exec;
      StepInv(State(), s);
      ExecSnoc(start, before, s);
      steps := before + [s];
      if s.Land? {
        disks := Written(disks, s.dev, s.x, s.v);
        unmarked := unmarked + {ChunkOf(s.dev, s.x)};
        marked := {};
      } else {
        dirty := dirty + {s.c};
        unmarked := unmarked - {s.c};
        marked := {s.c};
      }
    }

    /** Waits for all reads; they finish in any order, and some of the `guest`
        writes that are under way, which mark the chunks `marked`, go on between. */
    method DrainAll(guest: seq<Step>, ghost start: Mig, ghost before: seq<Step>)
      returns (rest: seq<Step>, ghost marked: set<Chunk>, ghost steps: seq<Step>)
      requires Valid() && ValidRun(start, before) && State() == Exec(start, before) && GuestSteps(disks, guest)
      modifies `disks, `dirty, `unmarked, `inFlight, `queue, `aio, `submitted, `readDone
      ensures Valid() && inFlight == [] && aio == {}
      ensures SameShape(old(disks), disks) && dirty == old(dirty) + marked && GuestSteps(disks, rest)
      ensures ValidRun(start, steps) && State() == Exec(start, steps)
    {
      hide Inv, Captured, Backed, ValidRun, Exec, GuestStep, GuestSteps;
      steps, rest, marked := before, guest, {};
      while inFlight != []
        invariant Valid() && ValidRun(start, steps) && State() == Exec(start, steps)
        invariant SameShape(old(disks), disks) && dirty == old(dirty) + marked && GuestSteps(disks, rest)
        decreases |inFlight| + |rest|
      {
        var goOn: bool := *;
        if rest != [] && goOn {
          ghost var was, more := disks, {};
          SomeGuestLeft(disks, rest);
          more, steps := GuestGoesOn(rest[0], start, steps);
          GuestStill(was, disks, rest[1..]);
          marked, rest := marked + more, rest[1..];
        } else {
          var i: nat :| i < |inFlight|;
          steps := Finish(i, start, steps);
        }
      }
      NothingBacked(aio);
    }

    /** Sends finished reads until the queue is empty or the rate limit, here a
        number of blocks, stops it. */
    method FlushBlocks(limit: nat, ghost start: Mig, ghost before: seq<Step>) returns (ghost steps: seq<Step>)
      requires Valid() && ValidRun(start, before) && State() == Exec(start, before)
      modifies `queue, `sent, `readDone, `transferred
      ensures Valid() && sent + queue == old(sent + queue)
      ensures |queue| == if |old(queue)| <= limit then 0 else |old(queue)| - limit
      ensures transferred - old(transferred) == old(readDone) - readDone
      ensures ValidRun(start, steps) && State() == Exec(start, steps)
    {
      hide Inv, Backed, ValidRun, Exec;
      steps := before;
      var n := 0;
      while queue != []
        invariant Valid() && ValidRun(start, steps) && State() == Exec(start, steps)
        invariant sent + queue == old(sent + queue) && n + |queue| == |old(queue)| && n <= limit
        invariant transferred - old(transferred) == old(readDone) - readDone
        decreases |queue|
      {
        if n == limit {
          break;
        }
        ExecSnoc(start, steps, Flush);
        FlushOne();
        steps := steps + [Flush];
        n := n + 1;
      }
    }

    method FlushOne()
      requires Valid() && queue != []
      modifies `queue, `sent, `readDone, `transferred
      ensures Valid() && State() == Apply(old(State()), Flush) && sent + queue == old(sent + queue)
      ensures |queue| == |old(queue)| - 1
      ensures transferred == old(transferred) + 1 && readDone == old(readDone) - 1
    {
      hide Inv, Backed;
      FlushInv(State());
      var blk := queue[0];
      assert sent + queue == (sent + [blk]) + queue[1..];
      sent := sent + [blk];
      queue := queue[1..];
      readDone := readDone - 1;
      transferred := transferred + 1;
    }

    /** Submits one dirty chunk for reading and sets its in-flight bit. */
    method SubmitDirty(c: Chunk)
      requires Valid() && BulkDone(State()) && c in dirty && c !in aio
      modifies `inFlight, `dirty, `aio, `submitted, `issued
      ensures Valid() && State() == Apply(old(State()), Resend(c))
    {
      hide Inv, Backed;
      ResendInv(State(), c);
      SubmitBacked(aio, inFlight, aio + {c}, Read(c, map[], issued));
      inFlight, issued := inFlight + [Read(c, map[], issued)], issued + 1;
      submitted := submitted + 1;
      aio := aio + {c};
      dirty := dirty - {c};
    }

    /** Reads one dirty chunk and sends it on the spot. */
    method SendDirty(c: Chunk)
      requires Valid() && BulkDone(State()) && c in dirty && inFlight == []
      modifies `sent, `dirty, `issued
      ensures Valid() && State() == Apply(old(State()), SyncSend(c))
    {
      hide Inv, Backed;
      SyncInv(State(), c);
      sent, issued := sent + [Read(c, Snapshot(disks, c), issued)], issued + 1;
      dirty := dirty - {c};
    }

    /** The branch on the kind of pass. */
    method HandleDirty(c: Chunk, isAsync: bool)
      requires Valid() && BulkDone(State()) && c in dirty && (if isAsync then c !in aio else inFlight == [])
      modifies `dirty, `aio, `inFlight, `sent, `submitted, `issued
      ensures Valid() && State() == Apply(old(State()), DirtyStep(c, isAsync)) && dirty == old(dirty) - {c}
      ensures !isAsync ==> inFlight == []
    {
      hide Inv, Backed;
      if isAsync {
        SubmitDirty(c);
      } else {
        SendDirty(c);
      }
    }

    /** Looks for a dirty chunk of device `d` from its cursor on and handles the
        first one found; true when the cursor has reached the end.  Chunks that a
        guest write marks during a wait may be left behind the cursor. */
    method SaveDeviceDirty(d: nat, isAsync: bool, guest: seq<Step>, ghost past: set<Chunk>, ghost start: Mig,
                           ghost before: seq<Step>)
      returns (done: bool, rest: seq<Step>, ghost marked: set<Chunk>, ghost steps: seq<Step>)
      requires Valid() && BulkDone(State()) && d < |disks| && CleanBehind(dirty - past, curDirty)
      requires ValidRun(start, before) && State() == Exec(start, before) && GuestSteps(disks, guest)
      requires !isAsync ==> inFlight == []
      modifies `disks, `dirty, `unmarked, `curDirty, `aio, `inFlight, `queue, `sent, `submitted, `readDone, `issued
      ensures Valid() && BulkDone(State()) && SameShape(old(disks), disks) && GuestSteps(disks, rest)
      ensures CleanBehind(dirty - (past + marked), curDirty)
      ensures ValidRun(start, steps) && State() == Exec(start, steps)
      ensures !isAsync ==> inFlight == [] && disks == old(disks) && marked == {}
      ensures done ==>
                && dirty == old(dirty) + marked && (forall k :: k in old(dirty) - past - marked ==> k.dev != d)
                && (!isAsync ==> steps == before)
      ensures !done ==>
                var c := ChunkOf(d, curDirty[d]);
                && c in old(dirty) + marked && NoneBefore(old(dirty) - past - marked, c)
                && dirty == old(dirty) + marked - {c}
                && steps != [] && steps[|steps| - 1] == DirtyStep(c, isAsync)
                && (!isAsync ==> steps == before + [SyncSend(c)])
    {
      hide Inv, Backed, CleanBehind, ValidRun, Exec, Enabled, Apply, NoneBefore, GuestSteps;
      steps, rest, marked := before, guest, {};
      assert dirty - past - marked == dirty - past;
      while curDirty[d] < |disks[d]|
        invariant Valid() && BulkDone(State()) && SameShape(old(disks), disks) && GuestSteps(disks, rest)
        invariant dirty == old(dirty) + marked && CleanBehind(old(dirty) - past - marked, curDirty)
        invariant ValidRun(start, steps) && State() == Exec(start, steps)
        invariant !isAsync ==> inFlight == [] && steps == before && disks == old(disks) && marked == {}
        decreases |disks[d]| - curDirty[d]
      {
        var c := ChunkOf(d, curDirty[d]);
        if inFlight == [] { NothingBacked(aio); }
        if c in aio {
          ghost var more;
          rest, more, steps := DrainAll(rest, start, steps);
          FewerClean(old(dirty) - past - marked, old(dirty) - past - (marked + more), curDirty);
          marked := marked + more;
        }
        if c in dirty {
          AtCursor(old(dirty) - past - marked, curDirty, d);
          FewerClean(old(dirty) - past - marked, dirty - {c} - (past + marked), curDirty);
          DirtyStepEnabled(State(), c, isAsync);
          ExecSnoc(start, steps, DirtyStep(c, isAsync));
          HandleDirty(c, isAsync);
          steps := steps + [DirtyStep(c, isAsync)];
          return false, rest, marked, steps;
        }
        Advance(d, old(dirty) - past - marked);
      }
      DeviceClean(State(), old(dirty) - past - marked, curDirty, d);
      FewerClean(old(dirty) - past - marked, dirty - (past + marked), curDirty);
      done := true;
    }

    method Advance(d: nat, ghost left: set<Chunk>)
      requires Valid() && d < |disks| && CleanBehind(left, curDirty) && ChunkOf(d, curDirty[d]) !in left
      modifies `curDirty
      ensures Valid() && CleanBehind(left, curDirty) && curDirty == old(curDirty)[d := old(curDirty)[d] + CHUNK]
    {
      hide Inv, Backed;
      curDirty := curDirty[d := curDirty[d] + CHUNK];
    }

    /** One dirty chunk of the first device that has one; false when none has.
        `past` are chunks marked since the pass began, which it may have missed. */
    method SaveDirtyBlock(isAsync: bool, guest: seq<Step>, ghost past: set<Chunk>, ghost start: Mig,
                          ghost before: seq<Step>)
      returns (more: bool, rest: seq<Step>, ghost c: Chunk, ghost marked: set<Chunk>, ghost steps: seq<Step>)
      requires Valid() && BulkDone(State()) && CleanBehind(dirty - past, curDirty)
      requires ValidRun(start, before) && State() == Exec(start, before) && GuestSteps(disks, guest)
      requires !isAsync ==> inFlight == []
      modifies `disks, `dirty, `unmarked, `curDirty, `aio, `inFlight, `queue, `sent, `submitted, `readDone, `issued
      ensures Valid() && BulkDone(State()) && SameShape(old(disks), disks) && GuestSteps(disks, rest)
      ensures CleanBehind(dirty - (past + marked), curDirty)
      ensures ValidRun(start, steps) && State() == Exec(start, steps)
      ensures !isAsync ==> inFlight == [] && disks == old(disks) && marked == {}
      ensures more ==>
                && c in old(dirty) + marked && NoneBefore(old(dirty) - past - marked, c)
                && (forall k :: k in old(dirty) - past - marked ==> c.dev <= k.dev)
                && dirty == old(dirty) + marked - {c}
                && steps != [] && steps[|steps| - 1] == DirtyStep(c, isAsync)
                && (!isAsync ==> steps == before + [SyncSend(c)])
      ensures !more ==> dirty == old(dirty) + marked && dirty <= past + marked && (!isAsync ==> steps == before)
    {
      hide Inv, Backed, CleanBehind, ValidRun, Exec, NoneBefore, GuestSteps;
      steps, rest, marked, c := before, guest, {}, ChunkOf(0, 0);
      assert past + marked == past;
      var d := 0;
      while d < |disks|
        invariant d <= |disks| && Valid() && BulkDone(State()) && SameShape(old(disks), disks)
        invariant dirty == old(dirty) + marked && CleanBehind(dirty - (past + marked), curDirty)
        invariant ValidRun(start, steps) && State() == Exec(start, steps) && GuestSteps(disks, rest)
        invariant !isAsync ==> inFlight == [] && steps == before && disks == old(disks) && marked == {}
        invariant forall k :: k in old(dirty) - past - marked ==> d <= k.dev
      {
        var done;
        ghost var later;
        ghost var was := dirty;
        done, rest, later, steps := SaveDeviceDirty(d, isAsync, rest, past + marked, start, steps);
        SetFacts(old(dirty), past, marked, later);
        marked := marked + later;
        if !done {
          c := ChunkOf(d, curDirty[d]);
          return true, rest, c, marked, steps;
        }
        d := d + 1;
      }
      NoDevice(State(), old(dirty) - past - marked);
      more := false;
    }

    /** Stage 3: with the guest stopped and every read finished, sends what is
        dirty.  Whatever order reads completed in and whatever is left in the
        queue, which is dropped: every destination then has the source's disks if
        and only if every clean chunk was last sent as it was last read. */
    method StageThreePass() returns (ghost cs: seq<Chunk>)
      requires Valid() && Quiet(State())
      modifies `disks, `dirty, `unmarked, `curDirty, `aio, `inFlight, `queue, `sent, `submitted, `readDone, `issued
      ensures Valid() && dirty == {} && disks == old(disks)
      ensures Lists(cs, old(dirty)) && sent == StageThree(old(State()), cs)
      ensures (forall dst :: SameShape(disks, dst) ==> Replay(dst, sent) == disks) <==> AllAgree(old(State()))
    {
      hide Inv, Backed, AllAgree, Replay, SameShape, StageThree;
      ghost var start := State();
      cs := SendAllDirty();
      StageThreeExact(start, cs);
    }

    /** The loop of stage 3: one chunk after the other, from the first device on. */
    method SendAllDirty() returns (ghost cs: seq<Chunk>)
      requires Valid() && Quiet(State())
      modifies `disks, `dirty, `unmarked, `curDirty, `aio, `inFlight, `queue, `sent, `submitted, `readDone, `issued
      ensures Valid() && dirty == {} && disks == old(disks)
      ensures Lists(cs, old(dirty)) && sent == StageThree(old(State()), cs)
    {
      hide Inv, Backed, StageThree, CleanBehind, Snapshot;
      ghost var start := State();
      curDirty := seq(|disks|, _ => 0);
      AllAhead(dirty, curDirty);
      cs := [];
      NothingSentYet(start);
      var more := true;
      while more
        invariant Valid() && BulkDone(State()) && inFlight == [] && CleanBehind(dirty, curDirty)
        invariant disks == old(disks) && issued == start.issued + |cs| && sent == StageThree(start, cs)
        invariant forall k :: k in start.dirty <==> k in cs || k in dirty
        invariant !more ==> dirty == {}
        decreases |dirty|, more
      {
        ghost var c;
        more, c := SendNextDirty();
        if more {
          SentOneMore(start, cs, c);
          cs := cs + [c];
        }
      }
    }

    method SendNextDirty() returns (more: bool, ghost c: Chunk)
      requires Valid() && BulkDone(State()) && inFlight == [] && CleanBehind(dirty, curDirty)
      modifies `disks, `dirty, `unmarked, `curDirty, `aio, `inFlight, `queue, `sent, `submitted, `readDone, `issued
      ensures Valid() && BulkDone(State()) && inFlight == [] && CleanBehind(dirty, curDirty) && disks == old(disks)
      ensures !more ==> State() == old(State()) && dirty == {}
      ensures more ==>
                && c in old(dirty) && dirty == old(dirty) - {c} && issued == old(issued) + 1
                && sent == old(sent) + [Read(c, Snapshot(disks, c), old(issued))]
    {
      hide Inv, Backed, CleanBehind, ValidRun, Exec;
      ghost var m, steps, marked := State(), [], {};
      var rest;
      NoSteps(m);
      assert dirty - {} == dirty;
      more, rest, c, marked, steps := SaveDirtyBlock(false, [], {}, m, []);
      assert dirty - ({} + marked) == dirty;
      if more {
        OneStep(m, SyncSend(c), steps);
      }
    }
  }

  lemma AllAhead(dirty: set<Chunk>, curDirty: seq<nat>)
    requires forall d :: 0 <= d < |curDirty| ==> curDirty[d] == 0
    ensures CleanBehind(dirty, curDirty)
  {
  }

  lemma NoSteps(m: Mig)
    ensures ValidRun(m, []) && Exec(m, []) == m
  {
  }

  lemma OneStep(m: Mig, s: Step, steps: seq<Step>)
    requires steps == [] + [s] && ValidRun(m, steps)
    ensures Enabled(m, s) && Exec(m, steps) == Apply(m, s)
  {
    assert steps[1..] == [];
  }

  lemma NothingSentYet(m: Mig)
    ensures StageThree(m, []) == m.sent
  {
  }

  lemma SentOneMore(m: Mig, cs: seq<Chunk>, c: Chunk)
    ensures StageThree(m, cs + [c]) == StageThree(m, cs) + [Read(c, Snapshot(m.disks, c), m.issued + |cs|)]
  {
    assert (cs + [c])[..|cs|] == cs;
  }

  lemma AlignedCursor(m: Mig, d: nat)
    requires Inv(m) && d < |m.disks| && m.cursor[d] < |m.disks[d]|
    ensures m.cursor[d] % CHUNK == 0
  {
  }

  lemma MissingInChunk(disks: Disks, r: Read)
    ensures forall x :: x in Missing(disks, r) ==> InChunk(disks, r.c, x)
  {
  }

  lemma DirtyStepEnabled(m: Mig, c: Chunk, isAsync: bool)
    requires BulkDone(m) && c in m.dirty && (if isAsync then c !in m.aio else m.inFlight == [])
    ensures Enabled(m, DirtyStep(c, isAsync))
  {
  }

  lemma NoDevice(m: Mig, dirty: set<Chunk>)
    requires Inv(m) && dirty <= m.dirty && forall k :: k in dirty ==> |m.disks| <= k.dev
    ensures dirty == {}
  {
    hide Covered, Numbered, Whole;
    assert forall k :: k in dirty ==> Exists(m.disks, k);
  }
}
