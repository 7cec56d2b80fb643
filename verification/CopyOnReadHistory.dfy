/** What the requests of a run do, told from the steps alone: the data a guest write
    was submitted with is what the guest sees, reads return what the guest saw, and a
    copy-on-read leaves its range in the image. */
module CopyOnReadHistory {
  import opened Clusters
  import opened CopyOnRead
  import opened Sectors
  import opened Wrappers

  // --------------------------------------------------------------------- steps

  /** The step that submitted request `i`. */
  function Submission(steps: seq<Step>, i: Id): Option<Step> {
    if steps == [] then None
    else if steps[|steps| - 1].Submit? && steps[|steps| - 1].id == i then Some(steps[|steps| - 1])
    else Submission(steps[..|steps| - 1], i)
  }

  datatype GuestWrite = GuestWrite(x: nat, value: Sector)

  /** The sectors guest writes put into the image, in order, with the data they were
      submitted with. */
  function GuestWrites(steps: seq<Step>): seq<GuestWrite> {
    if steps == [] then []
    else
      var front, s := steps[..|steps| - 1], steps[|steps| - 1];
      var r := if s.DriverWrite? then Submission(front, s.id) else None;
      if r.None? || !r.value.Submit? then GuestWrites(front)
      else
        match r.value.kind
        case Write(data) =>
          var k := s.x - r.value.span.start;
          GuestWrites(front) + if 0 <= k < |data| then [GuestWrite(s.x, data[k])] else []
        case WriteZeroes => GuestWrites(front) + [GuestWrite(s.x, ZeroSector())]
        case Read(_) => GuestWrites(front)
  }

  /** Sector `x` after the writes, starting from `v`. */
  function Overlay(ws: seq<GuestWrite>, x: nat, v: Sector): Sector {
    if ws == [] then v
    else if ws[|ws| - 1].x == x then ws[|ws| - 1].value
    else Overlay(ws[..|ws| - 1], x, v)
  }

  lemma {:induction false} RunSnoc(d: Device, steps: seq<Step>)
    requires ValidRun(d, steps) && steps != []
    ensures var front, s := steps[..|steps| - 1], steps[|steps| - 1];
            ValidRun(d, front) && Enabled(Exec(d, front), s) && Exec(d, steps) == Apply(Exec(d, front), s)
    decreases |steps|
  {
    hide Enabled, Apply;
    var front, s := steps[..|steps| - 1], steps[|steps| - 1];
    if |steps| == 1 {
      assert front == [] && steps[1..] == [];
    } else {
      RunSnoc(Apply(d, steps[0]), steps[1..]);
      assert steps[1..][..|steps| - 2] == front[1..];
    }
  }

  /** Waiting and joining change a request's phase only, ending one wakes others. */
  lemma AdmitKeeps(d: Device, i: Id, retry: bool)
    requires TrackedKnown(d) && i in d.cos
    ensures var e := Admit(d, i, retry);
            && e.cos == d.cos[i := d.cos[i].(phase := e.cos[i].phase)] && e.top == d.top && e.cluster == d.cluster
            && (e.cos[i].phase.Asleep? || e.cos[i].phase == FirstPhase(d.cos[i].kind))
  {
    hide RoundToClusters, FirstOverlap;
  }

  lemma EndKeeps(d: Device, i: Id, ok: bool)
    requires i in d.cos
    ensures var e := End(d, i, ok);
            && (forall j :: j in e.cos <==> j in d.cos) && e.top == d.top && e.cluster == d.cluster
            && (forall j :: j in d.cos ==> e.cos[j] == d.cos[j].(phase := e.cos[j].phase))
            && (forall j :: j in d.cos && j != i ==>
                  e.cos[j].phase == d.cos[j].phase || (d.cos[j].phase.Asleep? && e.cos[j].phase.Woken?))
            && e.cos[i].phase == Done(ok)
  {
  }

  /** A step submits one request at most, and changes neither kind nor range of the
      others. */
  lemma StepRequests(d: Device, s: Step)
    requires Enabled(d, s)
    ensures var e := Apply(d, s);
            && (forall j :: j in e.cos <==> j in d.cos || (s.Submit? && j == s.id))
            && (forall j :: j in d.cos ==> e.cos[j].kind == d.cos[j].kind && e.cos[j].span == d.cos[j].span)
            && (s.Submit? ==> s.id !in d.cos && e.cos[s.id].kind == s.kind && e.cos[s.id].span == s.span)
  {
    hide RoundToClusters, Admit, End, NeedsCopy, Visible, FillFromBacking, FillOk, Complete, WritesZeroes, Payload;
    match s
    case Submit(i, kind, span) => AdmitKeeps(Enroll(d, i, kind, span), i, false);
    case Resume(i) => AdmitKeeps(d, i, true);
    case Finish(i) => EndKeeps(d, i, true);
    case Fail(i) => EndKeeps(d, i, false);
    case _ =>
  }

  /** The requests of a reachable state are those submitted, as they were submitted. */
  lemma {:induction false} Submitted(d: Device, steps: seq<Step>, i: Id)
    requires Initial(d) && ValidRun(d, steps)
    ensures var e, r := Exec(d, steps), Submission(steps, i);
            && (i in e.cos <==> r.Some?)
            && (r.Some? ==> r.value == Submit(i, e.cos[i].kind, e.cos[i].span))
    decreases |steps|
  {
    hide Apply, Enabled;
    if steps == [] {
    } else {
      var front, s := steps[..|steps| - 1], steps[|steps| - 1];
      RunSnoc(d, steps);
      Submitted(d, front, i);
      StepRequests(Exec(d, front), s);
    }
  }

  lemma ReachableInv(d: Device, steps: seq<Step>)
    requires Initial(d) && ValidRun(d, steps)
    ensures Inv(Exec(d, steps))
  {
    InitialInv(d);
    RunInv(d, steps);
  }

  // ------------------------------------------------------------------- content

  lemma OverlayAppend(ws: seq<GuestWrite>, w: GuestWrite, x: nat, v: Sector)
    ensures Overlay(ws + [w], x, v) == if w.x == x then w.value else Overlay(ws, x, v)
  {
    assert (ws + [w])[..|ws|] == ws;
  }

  /** Copy-on-read is invisible: over every run what the guest sees is what it saw at
      first, overlaid with the sectors of the submitted writes in the order in which
      they reached the image. */
  lemma {:induction false} RunContent(d: Device, steps: seq<Step>, x: nat)
    requires Initial(d) && ValidRun(d, steps)
    ensures Visible(Exec(d, steps), x) == Overlay(GuestWrites(steps), x, Visible(d, x))
    decreases |steps|
  {
    hide Inv, Apply, Enabled, Visible, Overlay;
    if steps == [] {
      assert Overlay([], x, Visible(d, x)) == Visible(d, x) by { NoWrites(x, Visible(d, x)); }
    } else {
      var front, s := steps[..|steps| - 1], steps[|steps| - 1];
      RunSnoc(d, steps);
      ReachableInv(d, front);
      var m := Exec(d, front);
      StepContent(m, s, x);
      RunContent(d, front, x);
      if s.DriverWrite? {
        DriverKnows(m, s);
        Submitted(d, front, s.id);
        if m.cos[s.id].kind.Write? {
          WriteInRange(m, s);
          var w := GuestWrite(s.x, m.cos[s.id].kind.data[s.x - m.cos[s.id].span.start]);
          OverlayAppend(GuestWrites(front), w, x, Visible(d, x));
        } else {
          OverlayAppend(GuestWrites(front), GuestWrite(s.x, ZeroSector()), x, Visible(d, x));
        }
      }
    }
  }

  lemma NoWrites(x: nat, v: Sector)
    ensures Overlay([], x, v) == v
  {
  }

  lemma DriverKnows(d: Device, s: Step)
    requires Enabled(d, s) && !s.Submit?
    ensures s.id in d.cos
  {
  }

  lemma WriteInRange(d: Device, s: Step)
    requires Inv(d) && Enabled(d, s) && s.DriverWrite? && s.id in d.cos && d.cos[s.id].kind.Write?
    ensures d.cos[s.id].span.start <= s.x < d.cos[s.id].span.start + |d.cos[s.id].kind.data|
  {
    hide RoundToClusters, Exclusive, Counted, Landed;
    WriterKind(d, s.id);
  }

  // ---------------------------------------------------------------------- writes

  /** Only the driver's own steps change what a request has read and written. */
  lemma StepBuffers(d: Device, s: Step, i: Id)
    requires Enabled(d, s) && i in Apply(d, s).cos
    ensures var e := Apply(d, s);
            && (s.Submit? && s.id == i ==> e.cos[i].buf == map[] && e.cos[i].put == {})
            && (!(s.Submit? && s.id == i) ==>
                  && i in d.cos
                  && e.cos[i].put == d.cos[i].put + (if s.DriverWrite? && s.id == i then {s.x} else {})
                  && e.cos[i].buf ==
                     if s.DriverRead? && s.id == i then d.cos[i].buf[s.x := Visible(d, s.x)] else d.cos[i].buf)
  {
    hide RoundToClusters, Admit, End, NeedsCopy, Visible, FillFromBacking, FillOk, Complete, WritesZeroes, Payload;
    match s
    case Submit(j, kind, span) => AdmitKeeps(Enroll(d, j, kind, span), j, false);
    case Resume(j) => AdmitKeeps(d, j, true);
    case Finish(j) => EndKeeps(d, j, true);
    case Fail(j) => EndKeeps(d, j, false);
    case _ =>
  }

  /** No other guest write reaches sector `x`. */
  ghost predicate OnlyWriter(steps: seq<Step>, i: Id, x: nat) {
    forall k :: 0 <= k < |steps| && steps[k].DriverWrite? && steps[k].x == x && steps[k].id != i ==>
      var r := Submission(steps, steps[k].id); r.Some? && r.value.Submit? && r.value.kind.Read?
  }

  lemma {:induction false} OnlyWriterContent(d: Device, steps: seq<Step>, i: Id, x: nat)
    requires Initial(d) && ValidRun(d, steps) && i in Exec(d, steps).cos && Exec(d, steps).cos[i].kind.Write?
    requires OnlyWriter(steps, i, x) && x in Exec(d, steps).cos[i].put
    ensures var co := Exec(d, steps).cos[i];
            && co.span.start <= x < co.span.start + |co.kind.data|
            && Visible(Exec(d, steps), x) == co.kind.data[x - co.span.start]
    decreases |steps|
  {
    hide Apply, Enabled, Visible, Inv;
    if steps == [] {
    } else {
      var front, s := steps[..|steps| - 1], steps[|steps| - 1];
      RunSnoc(d, steps);
      ReachableInv(d, front);
      var m := Exec(d, front);
      StepBuffers(m, s, i);
      StepRequests(m, s);
      StepContent(m, s, x);
      if s.DriverWrite? && s.x == x && s.id == i {
      } else {
        FrontOnlyWriter(d, steps, i, x);
        OnlyWriterContent(d, front, i, x);
        if s.DriverWrite? && s.x == x {
          DriverKnows(m, s);
          Submitted(d, steps, s.id);
          assert steps[|steps| - 1] == s;
        }
      }
    }
  }

  lemma FrontOnlyWriter(d: Device, steps: seq<Step>, i: Id, x: nat)
    requires Initial(d) && ValidRun(d, steps) && steps != [] && OnlyWriter(steps, i, x)
    ensures OnlyWriter(steps[..|steps| - 1], i, x)
  {
    hide Apply, Enabled;
    var front, s := steps[..|steps| - 1], steps[|steps| - 1];
    RunSnoc(d, steps);
    forall k | 0 <= k < |front| && front[k].DriverWrite? && front[k].x == x && front[k].id != i
      ensures var r := Submission(front, front[k].id); r.Some? && r.value.Submit? && r.value.kind.Read?
    {
      assert steps[k] == front[k];
      WriterSubmitted(d, front, k);
      if s.Submit? && s.id == front[k].id {
        Submitted(d, front, s.id);
        StepRequests(Exec(d, front), s);
      }
    }
  }

  /** The request of every step of a run was submitted before. */
  lemma {:induction false} WriterSubmitted(d: Device, steps: seq<Step>, k: nat)
    requires Initial(d) && ValidRun(d, steps) && k < |steps| && !steps[k].Submit?
    ensures Submission(steps, steps[k].id).Some?
    decreases |steps|
  {
    hide Apply, Enabled;
    var front, s := steps[..|steps| - 1], steps[|steps| - 1];
    RunSnoc(d, steps);
    if k == |steps| - 1 {
      DriverKnows(Exec(d, front), s);
      Submitted(d, front, s.id);
    } else {
      assert front[k] == steps[k];
      WriterSubmitted(d, front, k);
    }
  }

  lemma WriteComplete(d: Device, i: Id)
    requires Inv(d) && Enabled(d, Finish(i)) && d.cos[i].kind.Write?
    ensures |d.cos[i].kind.data| == d.cos[i].span.len && forall x: nat :: In(x, d.cos[i].span) ==> x in d.cos[i].put
  {
    hide RoundToClusters, Exclusive, Counted, Bounces, Landed, Listed;
    WriterKind(d, i);
  }

  /** A guest write that finishes, and whose range no other guest write reached, has
      left exactly its data where the guest sees it. */
  lemma WriteResult(d: Device, steps: seq<Step>, i: Id)
    requires Initial(d) && ValidRun(d, steps) && Enabled(Exec(d, steps), Finish(i))
    requires Exec(d, steps).cos[i].kind.Write?
    requires forall x: nat :: In(x, Exec(d, steps).cos[i].span) ==> OnlyWriter(steps, i, x)
    ensures var co := Exec(d, steps).cos[i];
            && |co.kind.data| == co.span.len
            && forall k: nat :: k < co.span.len ==>
                 Visible(Apply(Exec(d, steps), Finish(i)), co.span.start + k) == co.kind.data[k]
  {
    hide OnlyWriter, Visible, Inv, Apply, Exec, ValidRun;
    ReachableInv(d, steps);
    var e := Exec(d, steps);
    WriteComplete(e, i);
    var co := e.cos[i];
    forall k: nat | k < co.span.len ensures Visible(Apply(e, Finish(i)), co.span.start + k) == co.kind.data[k] {
      assert In(co.span.start + k, co.span);
      OnlyWriterContent(d, steps, i, co.span.start + k);
      StepContent(e, Finish(i), co.span.start + k);
    }
  }

  // ----------------------------------------------------------------------- reads

  /** Sector `x` as the guest saw it when step `k` read it for request `i`. */
  ghost predicate ReadAt(d: Device, steps: seq<Step>, i: Id, x: nat, v: Sector, k: nat) {
    && k < |steps| && steps[k] == DriverRead(i, x)
    && ValidRun(d, steps[..k]) && v == Visible(Exec(d, steps[..k]), x)
  }

  lemma {:induction false} BufferByStep(d: Device, steps: seq<Step>, i: Id, x: nat) returns (k: nat)
    requires Initial(d) && ValidRun(d, steps) && i in Exec(d, steps).cos && x in Exec(d, steps).cos[i].buf
    ensures ReadAt(d, steps, i, x, Exec(d, steps).cos[i].buf[x], k)
    decreases |steps|
  {
    hide Apply, Enabled, Visible;
    if steps == [] {
      assert false;
    } else {
      var front, s := steps[..|steps| - 1], steps[|steps| - 1];
      RunSnoc(d, steps);
      StepBuffers(Exec(d, front), s, i);
      if s == DriverRead(i, x) {
        k := |front|;
      } else {
        k := BufferByStep(d, front, i, x);
        assert steps[..k] == front[..k];
      }
    }
  }

  /** A read that finishes returns, for each sector, what the guest saw when the
      driver read it. */
  lemma ReadResult(d: Device, steps: seq<Step>, i: Id, x: nat) returns (k: nat)
    requires Initial(d) && ValidRun(d, steps) && Enabled(Exec(d, steps), Finish(i))
    requires Exec(d, steps).cos[i].kind.Read? && In(x, Exec(d, steps).cos[i].span)
    ensures x in Exec(d, steps).cos[i].buf && ReadAt(d, steps, i, x, Exec(d, steps).cos[i].buf[x], k)
  {
    hide RoundToClusters, Visible, Exclusive, Counted;
    ReachableInv(d, steps);
    var e := Exec(d, steps);
    WriterKind(e, i);
    assert BounceCurrent(e, e.cos[i]);
    RoundingCovers(e.cluster, e.cos[i].span);
    k := BufferByStep(d, steps, i, x);
  }

  // ---------------------------------------------------------------- copy-on-read

  ghost predicate Allocated(top: map<nat, Sector>, s: Span) { forall x: nat :: In(x, s) ==> x in top }

  /** A copy-on-read that reads the image itself has its range there. */
  ghost predicate ReadsAllocated(d: Device) {
    forall i :: i in d.cos && d.cos[i].Cor() && d.cos[i].phase.Reading? ==> Allocated(d.top, d.cos[i].span)
  }

  lemma TopGrows(d: Device, s: Step)
    requires Enabled(d, s)
    ensures d.top.Keys <= Apply(d, s).top.Keys
  {
    hide RoundToClusters, Admit, End, NeedsCopy, Visible, Complete, WritesZeroes, Payload;
    match s
    case Submit(j, kind, span) => AdmitKeeps(Enroll(d, j, kind, span), j, false);
    case Resume(j) => AdmitKeeps(d, j, true);
    case Finish(j) => EndKeeps(d, j, true);
    case Fail(j) => EndKeeps(d, j, false);
    case _ =>
  }

  /** Only the answer to the allocation query lets a copy-on-read read directly. */
  lemma NowReading(d: Device, s: Step, i: Id)
    requires Enabled(d, s) && i in Apply(d, s).cos && Apply(d, s).cos[i].Cor() && Apply(d, s).cos[i].phase.Reading?
    ensures i in d.cos && d.cos[i].Cor() && d.cos[i].span == Apply(d, s).cos[i].span
    ensures d.cos[i].phase.Reading? || (s == Probed(i) && !NeedsCopy(d.top, d.cos[i].span) && Apply(d, s).top == d.top)
  {
    hide RoundToClusters, Admit, End, NeedsCopy, Visible, FillFromBacking, FillOk, Complete, WritesZeroes, Payload;
    match s
    case Submit(j, kind, span) => AdmitKeeps(Enroll(d, j, kind, span), j, false);
    case Resume(j) => AdmitKeeps(d, j, true);
    case Finish(j) => EndKeeps(d, j, true);
    case Fail(j) => EndKeeps(d, j, false);
    case _ =>
  }

  lemma StepReadsAllocated(d: Device, s: Step)
    requires ReadsAllocated(d) && Enabled(d, s)
    ensures ReadsAllocated(Apply(d, s))
  {
    hide Apply, Enabled, NeedsCopy;
    var e := Apply(d, s);
    TopGrows(d, s);
    forall i | i in e.cos && e.cos[i].Cor() && e.cos[i].phase.Reading? ensures Allocated(e.top, e.cos[i].span) {
      NowReading(d, s, i);
      if !d.cos[i].phase.Reading? && d.cos[i].span.len > 0 { NeedsCopyExact(d.top, d.cos[i].span); }
    }
  }

  lemma {:induction false} RunReadsAllocated(d: Device, steps: seq<Step>)
    requires Initial(d) && ValidRun(d, steps)
    ensures ReadsAllocated(Exec(d, steps))
    decreases |steps|
  {
    hide Apply, Enabled;
    if steps == [] {
    } else {
      RunSnoc(d, steps);
      RunReadsAllocated(d, steps[..|steps| - 1]);
      StepReadsAllocated(Exec(d, steps[..|steps| - 1]), steps[|steps| - 1]);
    }
  }

  /** A copy-on-read that finishes hands the guest what the guest sees at that moment,
      and its whole range is in the image then. */
  lemma CopyOnReadResult(d: Device, steps: seq<Step>, i: Id)
    requires Initial(d) && ValidRun(d, steps)
    requires Enabled(Exec(d, steps), Finish(i)) && Exec(d, steps).cos[i].Cor()
    ensures var e := Exec(d, steps); var after := Apply(e, Finish(i));
            && Allocated(after.top, e.cos[i].span)
            && forall x: nat :: In(x, e.cos[i].span) ==>
                 x in e.cos[i].buf && after.cos[i].buf[x] == Visible(after, x)
  {
    hide RoundToClusters, Exclusive, Counted;
    ReachableInv(d, steps);
    RunReadsAllocated(d, steps);
    var e := Exec(d, steps);
    WriterKind(e, i);
    assert BounceCurrent(e, e.cos[i]);
    RoundingCovers(e.cluster, e.cos[i].span);
  }

  predicate Copying(co: Co) { co.phase.Fetching? || co.phase.Storing? }

  lemma StepCopying(d: Device, s: Step, i: Id)
    requires Enabled(d, s) && i in d.cos && (Copying(d.cos[i]) || d.cos[i].phase.Done?)
    ensures var e := Apply(d, s); i in e.cos && (Copying(e.cos[i]) || e.cos[i].phase.Done?)
  {
    hide RoundToClusters, Admit, End, NeedsCopy, Visible, FillFromBacking, FillOk, Complete, WritesZeroes, Payload;
    match s
    case Submit(j, kind, span) => AdmitKeeps(Enroll(d, j, kind, span), j, false);
    case Resume(j) => AdmitKeeps(d, j, true);
    case Finish(j) => EndKeeps(d, j, true);
    case Fail(j) => EndKeeps(d, j, false);
    case _ =>
  }

  lemma {:induction false} StaysCopying(d: Device, steps: seq<Step>, i: Id)
    requires ValidRun(d, steps) && i in d.cos && (Copying(d.cos[i]) || d.cos[i].phase.Done?)
    ensures var e := Exec(d, steps); i in e.cos && (Copying(e.cos[i]) || e.cos[i].phase.Done?)
    decreases |steps|
  {
    hide Apply, Enabled;
    if steps == [] {
    } else {
      StepCopying(d, steps[0], i);
      StaysCopying(Apply(d, steps[0]), steps[1..], i);
    }
  }

  /** If a sector of the range was missing from the image when the allocation query was
      answered, every sector of the clusters touched is there when the request ends. */
  lemma MissingIsCopied(d: Device, before: seq<Step>, i: Id, later: seq<Step>, x: nat, y: nat)
    requires Initial(d) && ValidRun(d, before) && Enabled(Exec(d, before), Probed(i))
    requires ValidRun(Apply(Exec(d, before), Probed(i)), later)
    requires Enabled(Exec(Apply(Exec(d, before), Probed(i)), later), Finish(i))
    requires !Allocated(Exec(d, before).top, Exec(d, before).cos[i].span)
    requires In(x, Exec(d, before).cos[i].span) && SameCluster(d, x, y)
    ensures y in Apply(Exec(Apply(Exec(d, before), Probed(i)), later), Finish(i)).top
  {
    hide RoundToClusters, Inv, NeedsCopy, Exec, ValidRun, Apply, Enabled;
    var m := Exec(d, before);
    var p := Apply(m, Probed(i));
    var e := Exec(p, later);
    ProbedCopies(m, i);
    StaysCopying(p, later, i);
    ReachableInv(d, before);
    StepInv(m, Probed(i));
    RunInv(p, later);
    SameGround(d, before);
    SameGroundOn(p, later, i);
    CopyComplete(e, i, x, y);
  }

  lemma ProbedCopies(d: Device, i: Id)
    requires Enabled(d, Probed(i)) && !Allocated(d.top, d.cos[i].span)
    ensures var p := Apply(d, Probed(i));
            i in p.cos && Copying(p.cos[i]) && p.cos[i].span == d.cos[i].span && p.cluster == d.cluster
  {
    hide NeedsCopy;
    NeedsCopyExact(d.top, d.cos[i].span);
  }

  lemma CopyComplete(d: Device, i: Id, x: nat, y: nat)
    requires Inv(d) && Enabled(d, Finish(i)) && (Copying(d.cos[i]) || d.cos[i].phase.Done?)
    requires In(x, d.cos[i].span) && SameCluster(d, x, y)
    ensures y in Apply(d, Finish(i)).top
  {
    hide RoundToClusters, Exclusive, Counted, Bounces, Shapes, Listed;
    RoundingIsClusterClosure(d.cluster, d.cos[i].span, y);
    assert In(y, Target(d, d.cos[i]));
    EndKeeps(d, i, true);
  }

  /** The cluster size never changes, nor does the range of a request. */
  lemma StepGround(d: Device, s: Step)
    requires Enabled(d, s)
    ensures Apply(d, s).cluster == d.cluster
  {
    hide RoundToClusters, Admit, End, NeedsCopy, Visible, FillFromBacking, FillOk, Complete, WritesZeroes, Payload;
    match s
    case Submit(j, kind, span) => AdmitKeeps(Enroll(d, j, kind, span), j, false);
    case Resume(j) => AdmitKeeps(d, j, true);
    case Finish(j) => EndKeeps(d, j, true);
    case Fail(j) => EndKeeps(d, j, false);
    case _ =>
  }

  lemma {:induction false} SameGround(d: Device, steps: seq<Step>)
    requires ValidRun(d, steps)
    ensures Exec(d, steps).cluster == d.cluster
    decreases |steps|
  {
    hide Apply, Enabled;
    if steps == [] {
    } else {
      StepGround(d, steps[0]);
      SameGround(Apply(d, steps[0]), steps[1..]);
    }
  }

  lemma {:induction false} SameGroundOn(d: Device, steps: seq<Step>, i: Id)
    requires ValidRun(d, steps) && i in d.cos
    ensures Exec(d, steps).cluster == d.cluster
    ensures i in Exec(d, steps).cos && Exec(d, steps).cos[i].span == d.cos[i].span
    decreases |steps|
  {
    hide Apply, Enabled;
    if steps == [] {
    } else {
      StepGround(d, steps[0]);
      StepRequests(d, steps[0]);
      SameGroundOn(Apply(d, steps[0]), steps[1..], i);
    }
  }

  /** The clusters fetched are written back as zeroes if and only if the driver can do
      that and every sector fetched is zero. */
  lemma ZeroesWrittenBack(d: Device, i: Id)
    requires Enabled(d, Fetched(i))
    ensures Apply(d, Fetched(i)).cos[i].phase == Storing(true) <==>
            d.hasWriteZeroes && forall x :: x in d.cos[i].buf ==> d.cos[i].buf[x] == ZeroSector()
  {
    hide RoundToClusters, Complete;
  }

  /** A request that ends tells whether it failed. */
  lemma RequestOutcome(d: Device, i: Id, ok: bool)
    requires Enabled(d, if ok then Finish(i) else Fail(i))
    ensures Apply(d, if ok then Finish(i) else Fail(i)).cos[i].phase == Done(ok)
  {
    hide RoundToClusters, Complete;
    EndKeeps(d, i, ok);
  }

  /** A request that has to wait waits for the newest of those it overlaps. */
  lemma {:induction false} NewestOverlap(cos: map<Id, Co>, tracked: seq<Id>, rounded: Span)
    requires (forall i :: i in tracked ==> i in cos) && FirstOverlap(cos, tracked, rounded).Some?
    ensures exists k :: 0 <= k < |tracked| && tracked[k] == FirstOverlap(cos, tracked, rounded).value &&
              forall j :: 0 <= j < k ==> tracked[j] in cos && !Overlaps(cos[tracked[j]].span, rounded)
    decreases |tracked|
  {
    hide Overlaps;
    if Overlaps(cos[tracked[0]].span, rounded) {
      assert tracked[0] == FirstOverlap(cos, tracked, rounded).value;
    } else {
      NewestOverlap(cos, tracked[1..], rounded);
      var k :| 0 <= k < |tracked[1..]| && tracked[1..][k] == FirstOverlap(cos, tracked[1..], rounded).value &&
               forall j :: 0 <= j < k ==> tracked[1..][j] in cos && !Overlaps(cos[tracked[1..][j]].span, rounded);
      assert tracked[k + 1] == tracked[1..][k];
      forall j | 0 <= j < k + 1 ensures tracked[j] in cos && !Overlaps(cos[tracked[j]].span, rounded) {
        if j > 0 { assert tracked[j] == tracked[1..][j - 1]; }
      }
    }
  }
}
