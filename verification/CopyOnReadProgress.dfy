/** The copy-on-read protocol gets done: without new requests, and as long as the
    driver does not repeat itself, every run is finite, and it can only stop when
    every request has finished. */
module CopyOnReadProgress {
  import opened Arithmetic
  import opened Clusters
  import opened CopyOnRead

  // ---------------------------------------------------------------------- sums

  function Sum(ids: seq<Id>, f: Id -> nat): nat {
    if ids == [] then 0 else f(ids[0]) + Sum(ids[1..], f)
  }

  ghost predicate Below(ids: seq<Id>, f: Id -> nat, g: Id -> nat) {
    forall i :: i in ids ==> f(i) <= g(i)
  }

  lemma {:induction false} SumBelow(ids: seq<Id>, f: Id -> nat, g: Id -> nat)
    requires Below(ids, f, g)
    ensures Sum(ids, f) <= Sum(ids, g)
    ensures (exists i :: i in ids && f(i) < g(i)) ==> Sum(ids, f) < Sum(ids, g)
    decreases |ids|
  {
    if ids == [] {
    } else {
      assert ids[0] in ids && ids == [ids[0]] + ids[1..];
      assert forall i :: i in ids[1..] ==> i in ids;
      SumBelow(ids[1..], f, g);
      if i :| i in ids && f(i) < g(i) {
        if i != ids[0] { assert i in ids[1..]; }
      }
    }
  }

  // ------------------------------------------------------------------ the work

  /** The sectors of a range that are not among `done`. */
  function Missing(s: Span, done: set<nat>): set<nat> {
    set x: nat | s.start <= x < s.start + s.len && x !in done
  }

  lemma {:induction false} MissingBound(s: Span, done: set<nat>)
    ensures |Missing(s, done)| <= s.len
    decreases s.len
  {
    if s.len == 0 {
      assert Missing(s, done) == {};
    } else {
      var t := Span(s.start, s.len - 1);
      MissingBound(t, done);
      assert Missing(s, done) <= Missing(t, done) + {s.start + s.len - 1};
      CardinalityBelow(Missing(s, done), Missing(t, done) + {s.start + s.len - 1});
    }
  }

  lemma {:induction false} CardinalityBelow(a: set<nat>, b: set<nat>)
    requires a <= b
    ensures |a| <= |b|
    decreases |a|
  {
    if a == {} {
    } else {
      var x :| x in a;
      CardinalityBelow(a - {x}, b - {x});
    }
  }

  lemma MissingLess(s: Span, done: set<nat>, x: nat)
    requires In(x, s) && x !in done
    ensures |Missing(s, done + {x})| < |Missing(s, done)|
  {
    assert Missing(s, done + {x}) == Missing(s, done) - {x} && x in Missing(s, done);
  }

  /** The driver's answers a request still waits for in this turn at the driver. */
  function Work(d: Device, co: Co): nat {
    match co.phase
    case Probing => 2 * Footprint(d, co).len + co.span.len + 2
    case Fetching => |Missing(Footprint(d, co), co.buf.Keys)| + Footprint(d, co).len + 1
    case Storing(_) => |Missing(Footprint(d, co), co.put)|
    case Reading => |Missing(co.span, co.buf.Keys)|
    case Writing => |Missing(co.span, co.put)|
    case _ => 0
  }

  function Cap(d: Device, co: Co): nat { 2 * Footprint(d, co).len + co.span.len + 2 }

  lemma WorkBound(d: Device, co: Co)
    ensures Work(d, co) <= Cap(d, co)
  {
    hide RoundToClusters, Missing;
    MissingBound(Footprint(d, co), co.buf.Keys);
    MissingBound(Footprint(d, co), co.put);
    MissingBound(co.span, co.buf.Keys);
    MissingBound(co.span, co.put);
  }

  function UnfinishedOf(d: Device): Id -> nat { i => if i in d.cos && !d.cos[i].phase.Done? then 1 else 0 }
  function WokenOf(d: Device): Id -> nat { i => if i in d.cos && d.cos[i].phase.Woken? then 1 else 0 }
  function WorkOf(d: Device): Id -> nat { i => if i in d.cos then Work(d, d.cos[i]) else 0 }
  function CapOf(d: Device): Id -> nat { i => if i in d.cos then Cap(d, d.cos[i]) else 0 }
  function OneOf(): Id -> nat { _ => 1 }

  /** Unfinished requests weigh more than woken ones, and these more than work. */
  function Weigh(unfinished: nat, woken: nat, work: nat, n: nat, room: nat): nat {
    unfinished * ((n + 1) * room) + woken * room + work
  }

  function Measure(d: Device, ids: seq<Id>): nat {
    Weigh(Sum(ids, UnfinishedOf(d)), Sum(ids, WokenOf(d)), Sum(ids, WorkOf(d)), |ids|, Sum(ids, CapOf(d)) + 1)
  }

  // --------------------------------------------------------------- every step

  /** No new request, and no sector asked of the driver twice. */
  ghost predicate Fresh(d: Device, s: Step)
    requires Enabled(d, s)
  {
    && !s.Submit?
    && (s.DriverRead? ==> s.x !in d.cos[s.id].buf)
    && (s.DriverWrite? ==> s.x !in d.cos[s.id].put)
  }

  ghost predicate Covers(d: Device, ids: seq<Id>) { forall i :: i in d.cos ==> i in ids }

  /** A step keeps the requests and their ranges. */
  lemma SameRequests(d: Device, s: Step)
    requires Enabled(d, s) && Fresh(d, s)
    ensures var e := Apply(d, s);
            && e.cluster == d.cluster && e.cos.Keys == d.cos.Keys
            && forall i :: i in d.cos ==> e.cos[i].span == d.cos[i].span
  {
    hide RoundToClusters, FirstOverlap, NeedsCopy, Visible, FillFromBacking, FillOk, Complete;
  }

  lemma SameCaps(d: Device, s: Step, ids: seq<Id>)
    requires Enabled(d, s) && Fresh(d, s)
    ensures Sum(ids, CapOf(Apply(d, s))) == Sum(ids, CapOf(d))
  {
    hide RoundToClusters, Apply, Enabled;
    SameRequests(d, s);
    SumBelow(ids, CapOf(Apply(d, s)), CapOf(d));
    SumBelow(ids, CapOf(d), CapOf(Apply(d, s)));
  }

  /** Ending a request leaves one fewer unfinished. */
  lemma EndUnfinished(d: Device, s: Step, ids: seq<Id>)
    requires Enabled(d, s) && (s.Finish? || s.Fail?) && Covers(d, ids)
    ensures Sum(ids, UnfinishedOf(Apply(d, s))) < Sum(ids, UnfinishedOf(d))
  {
    hide RoundToClusters, Complete;
    var f, g := UnfinishedOf(Apply(d, s)), UnfinishedOf(d);
    assert s.id in ids && f(s.id) < g(s.id);
    assert Below(ids, f, g);
    SumBelow(ids, f, g);
  }

  /** The other steps finish nothing and wake nobody. */
  lemma OthersUnfinished(d: Device, s: Step, ids: seq<Id>)
    requires Enabled(d, s) && Fresh(d, s) && !s.Finish? && !s.Fail?
    ensures Sum(ids, UnfinishedOf(Apply(d, s))) <= Sum(ids, UnfinishedOf(d))
    ensures Sum(ids, WokenOf(Apply(d, s))) <= Sum(ids, WokenOf(d))
  {
    hide RoundToClusters, FirstOverlap, NeedsCopy, Visible, FillFromBacking, FillOk, Complete, WritesZeroes, Payload;
    var e := Apply(d, s);
    OnlyOneMoves(d, s);
    SumBelow(ids, UnfinishedOf(e), UnfinishedOf(d));
    SumBelow(ids, WokenOf(e), WokenOf(d));
  }

  lemma OnlyOneMoves(d: Device, s: Step)
    requires Enabled(d, s) && Fresh(d, s) && !s.Finish? && !s.Fail?
    ensures var e := Apply(d, s);
            && s.id in d.cos && e.cos.Keys == d.cos.Keys
            && (forall i :: i in d.cos && i != s.id ==> e.cos[i] == d.cos[i])
            && !d.cos[s.id].phase.Done? && !e.cos[s.id].phase.Done? && !e.cos[s.id].phase.Woken?
  {
    hide RoundToClusters, FirstOverlap, NeedsCopy, Visible, FillFromBacking, FillOk, Complete, WritesZeroes, Payload;
  }

  /** Resuming takes one from the woken. */
  lemma ResumeWoken(d: Device, s: Step, ids: seq<Id>)
    requires Enabled(d, s) && s.Resume? && Covers(d, ids)
    ensures Sum(ids, WokenOf(Apply(d, s))) < Sum(ids, WokenOf(d))
  {
    hide Apply;
    OnlyOneMoves(d, s);
    var f, g := WokenOf(Apply(d, s)), WokenOf(d);
    assert s.id in ids && f(s.id) < g(s.id);
    SumBelow(ids, f, g);
  }

  /** The driver's answers are used up. */
  lemma AnswerWork(d: Device, s: Step)
    requires Enabled(d, s) && Fresh(d, s) && (s.Probed? || s.DriverRead? || s.Fetched? || s.DriverWrite?)
    ensures Work(Apply(d, s), Apply(d, s).cos[s.id]) < Work(d, d.cos[s.id])
  {
    hide RoundToClusters, FirstOverlap, NeedsCopy, Visible, FillFromBacking, FillOk, Complete, WritesZeroes, Payload,
         Missing, In;
    var co, after := d.cos[s.id], Apply(d, s).cos[s.id];
    assert Footprint(Apply(d, s), after) == Footprint(d, co);
    match s
    case Probed(_) => WorkProbed(d, co);
    case DriverRead(_, x) =>
      assert after.buf.Keys == co.buf.Keys + {x};
      MissingLess(Target(d, co), co.buf.Keys, x);
    case Fetched(_) => MissingBound(Footprint(d, co), co.put);
    case DriverWrite(_, x, _) => MissingLess(Target(d, co), co.put, x);
  }

  lemma WorkProbed(d: Device, co: Co)
    ensures Work(d, co.(phase := Fetching)) < Cap(d, co) && Work(d, co.(phase := Reading)) < Cap(d, co)
  {
    hide RoundToClusters, Missing;
    MissingBound(Footprint(d, co), co.buf.Keys);
    MissingBound(co.span, co.buf.Keys);
  }

  lemma AnswersWork(d: Device, s: Step, ids: seq<Id>)
    requires Enabled(d, s) && Fresh(d, s) && (s.Probed? || s.DriverRead? || s.Fetched? || s.DriverWrite?) &&
             Covers(d, ids)
    ensures Sum(ids, WorkOf(Apply(d, s))) < Sum(ids, WorkOf(d))
  {
    hide Apply, Enabled, Fresh;
    OnlyOneMoves(d, s);
    SameRequests(d, s);
    AnswerWork(d, s);
    var e := Apply(d, s);
    forall i | i in ids ensures WorkOf(e)(i) <= WorkOf(d)(i) {
      if i in d.cos && i != s.id { SameWork(d, e, d.cos[i]); }
    }
    assert s.id in ids && WorkOf(e)(s.id) < WorkOf(d)(s.id);
    SumBelow(ids, WorkOf(e), WorkOf(d));
  }

  lemma SameWork(d: Device, e: Device, co: Co)
    requires e.cluster == d.cluster
    ensures Work(e, co) == Work(d, co)
  {
  }

  // ------------------------------------------------------------------- measure

  lemma MeasureParts(d: Device, ids: seq<Id>)
    ensures Sum(ids, WokenOf(d)) <= |ids| && Sum(ids, WorkOf(d)) <= Sum(ids, CapOf(d))
  {
    hide RoundToClusters, Work, Cap;
    SumOnes(ids);
    SumBelow(ids, WokenOf(d), OneOf());
    forall i | i in ids ensures WorkOf(d)(i) <= CapOf(d)(i) {
      if i in d.cos { WorkBound(d, d.cos[i]); }
    }
    SumBelow(ids, WorkOf(d), CapOf(d));
  }

  lemma {:induction false} SumOnes(ids: seq<Id>)
    ensures Sum(ids, OneOf()) == |ids|
    decreases |ids|
  {
    if ids == [] {
    } else {
      SumOnes(ids[1..]);
    }
  }

  /** One less of a heavier part outweighs the lighter ones. */
  lemma Outweighs(u: nat, w: nat, l: nat, v: nat, x: nat, m: nat, n: nat, room: nat)
    requires x <= n && m < room
    requires v < u || (v == u && x < w) || (v == u && x == w && m < l)
    ensures Weigh(v, x, m, n, room) < Weigh(u, w, l, n, room)
  {
    var heavy := (n + 1) * room;
    assert heavy == n * room + room;
    MulMonotone(x, n, room);
    if v < u {
      MulMonotone(v + 1, u, heavy);
      assert (v + 1) * heavy == v * heavy + heavy;
    } else if x < w {
      MulMonotone(x + 1, w, room);
      assert (x + 1) * room == x * room + room;
    }
  }

  /** Every fresh step makes the measure smaller. */
  lemma StepDecreases(d: Device, s: Step, ids: seq<Id>)
    requires Enabled(d, s) && Fresh(d, s) && Covers(d, ids)
    ensures Measure(Apply(d, s), ids) < Measure(d, ids)
  {
    hide Enabled, Apply, Fresh, Covers, Sum, UnfinishedOf, WokenOf, WorkOf, CapOf, Weigh;
    var e := Apply(d, s);
    SameCaps(d, s, ids);
    MeasureParts(e, ids);
    if s.Finish? || s.Fail? {
      EndUnfinished(d, s, ids);
    } else {
      OthersUnfinished(d, s, ids);
      if s.Resume? {
        ResumeWoken(d, s, ids);
      } else {
        NotSubmitted(d, s);
        AnswersWork(d, s, ids);
      }
    }
    Outweighs(
      Sum(ids, UnfinishedOf(d)), Sum(ids, WokenOf(d)), Sum(ids, WorkOf(d)),
      Sum(ids, UnfinishedOf(e)), Sum(ids, WokenOf(e)), Sum(ids, WorkOf(e)), |ids|, Sum(ids, CapOf(d)) + 1);
  }

  lemma NotSubmitted(d: Device, s: Step)
    requires Enabled(d, s) && Fresh(d, s)
    ensures !s.Submit?
  {
  }

  // ---------------------------------------------------------------------- runs

  ghost predicate FreshRun(d: Device, steps: seq<Step>)
    requires ValidRun(d, steps)
    decreases |steps|
  {
    steps == [] || (Fresh(d, steps[0]) && FreshRun(Apply(d, steps[0]), steps[1..]))
  }

  lemma CoversStill(d: Device, s: Step, ids: seq<Id>)
    requires Enabled(d, s) && Fresh(d, s) && Covers(d, ids)
    ensures Covers(Apply(d, s), ids)
  {
    hide Apply, Enabled, Fresh;
    SameRequests(d, s);
  }

  /** Every run without new requests or repeated driver work is finite: it has no
      more steps than the measure of the state it starts from. */
  lemma {:induction false} RunBounded(d: Device, steps: seq<Step>, ids: seq<Id>)
    requires ValidRun(d, steps) && FreshRun(d, steps) && Covers(d, ids)
    ensures |steps| + Measure(Exec(d, steps), ids) <= Measure(d, ids)
    decreases |steps|
  {
    hide Apply, Enabled, Fresh, Covers, Measure;
    if steps == [] {
    } else {
      StepDecreases(d, steps[0], ids);
      CoversStill(d, steps[0], ids);
      RunBounded(Apply(d, steps[0]), steps[1..], ids);
    }
  }

  ghost predicate AllDone(d: Device) { forall i :: i in d.cos ==> d.cos[i].phase.Done? }

  /** And it stops only when every request is done: until then a fresh step is
      possible. */
  lemma OnlyDoneStops(d: Device) returns (s: Step)
    requires Inv(d) && !AllDone(d)
    ensures Enabled(d, s) && Fresh(d, s) && !s.Fail?
  {
    hide RoundToClusters, Exclusive, Bounces, Counted, Shapes, Landed;
    var i :| i in d.cos && !d.cos[i].phase.Done?;
    var phase := d.cos[i].phase;
    if phase.Woken? {
      s := Resume(i);
    } else {
      s := TrackedCanMove(d, if phase.Asleep? then phase.on else i);
    }
  }

  /** So from every reachable state all requests can be finished, and however the
      fresh steps are chosen they will be. */
  lemma {:induction false} AllFinish(d: Device, ids: seq<Id>) returns (steps: seq<Step>)
    requires Inv(d) && Covers(d, ids)
    ensures ValidRun(d, steps) && FreshRun(d, steps) && AllDone(Exec(d, steps))
    decreases Measure(d, ids)
  {
    hide Inv, Apply, Enabled, Fresh, Covers, Measure, AllDone;
    if AllDone(d) {
      steps := [];
    } else {
      var s := OnlyDoneStops(d);
      StepInv(d, s);
      StepDecreases(d, s, ids);
      CoversStill(d, s, ids);
      var rest := AllFinish(Apply(d, s), ids);
      steps := [s] + rest;
      assert steps[1..] == rest;
    }
  }
}
