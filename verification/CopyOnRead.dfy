/** The tracked-request protocol that serialises copy-on-read.

    Each request runs as a coroutine.  What a coroutine does between two yields
    is one step; at every yield any other coroutine, or the driver working for
    it, may step.  The driver moves one sector at a time, in any order. */
module CopyOnRead {
  import opened Clusters
  import opened Sectors
  import opened Wrappers

  type Id = nat

  datatype Kind =
    | Read(copyOnRead: bool)
    | Write(data: seq<Sector>)
    | WriteZeroes

  datatype Phase =
    | Asleep(on: Id)        // in the wait queue of a tracked request
    | Woken                 // restarted, about to scan again
    | Probing               // asked the driver which sectors are allocated
    | Fetching              // driver reads whole clusters into the bounce buffer
    | Storing(zero: bool)   // driver writes the bounce buffer (or zeroes) back
    | Reading               // plain driver read
    | Writing               // guest write
    | Done(ok: bool)

  /** `buf` holds what the driver has read so far, `put` what it has written. */
  datatype Co = Co(kind: Kind, span: Span, phase: Phase, buf: map<nat, Sector>, put: set<nat>)
  {
    predicate Cor() { kind.Read? && kind.copyOnRead }
    /** A copy-on-read whose buffer is being filled or written back. */
    predicate Buffering() { phase.Fetching? || phase.Storing? || (phase.Reading? && Cor()) }
    predicate Tracked() { !phase.Asleep? && !phase.Woken? && !phase.Done? }
    predicate WellFormed() { kind.Write? ==> |kind.data| == span.len }
  }

  /** A block device: its requests, the tracked list (newest first), the number
      of copy-on-read requests in flight, the image and its backing file. */
  datatype Device = Device(
    cluster: nat, hasWriteZeroes: bool,
    cos: map<Id, Co>, tracked: seq<Id>, inFlight: nat,
    top: map<nat, Sector>, base: map<nat, Sector>)

  /** What the guest sees at sector `x`. */
  function Visible(d: Device, x: nat): Sector {
    if x in d.top then d.top[x]
    else if x in d.base then d.base[x]
    else ZeroSector()
  }

  /** The clusters of a request, as sectors. */
  function Footprint(d: Device, co: Co): Span {
    RoundToClusters(d.cluster, co.span)
  }

  // --------------------------------------------------------------------- steps

  /** The scan of the tracked list, newest request first, for an overlap. */
  function FirstOverlap(cos: map<Id, Co>, tracked: seq<Id>, rounded: Span): (r: Option<Id>)
    requires forall i :: i in tracked ==> i in cos
    ensures r.Some? ==> r.value in tracked && Overlaps(cos[r.value].span, rounded)
    ensures r.None? ==> forall i :: i in tracked ==> !Overlaps(cos[i].span, rounded)
  {
    if tracked == [] then None
    else if Overlaps(cos[tracked[0]].span, rounded) then Some(tracked[0])
    else FirstOverlap(cos, tracked[1..], rounded)
  }

  ghost predicate TrackedKnown(d: Device) {
    forall i :: i in d.tracked ==> i in d.cos
  }

  function FirstPhase(kind: Kind): Phase {
    match kind
    case Read(cor) => if cor then Probing else Reading
    case _ => Writing
  }

  /** A request enters; a copy-on-read is counted before it waits. */
  function Enroll(d: Device, i: Id, kind: Kind, span: Span): Device {
    var co := Co(kind, span, Woken, map[], {});
    d.(cos := d.cos[i := co], inFlight := if co.Cor() then d.inFlight + 1 else d.inFlight)
  }

  /** Coroutine `i` reaches the overlap test: it sleeps or becomes tracked.  The
      count of copy-on-reads is looked at on entry only; a request that has slept
      is in the retry loop and scans the list in any case. */
  function Admit(d: Device, i: Id, retry: bool): Device
    requires TrackedKnown(d) && i in d.cos
  {
    var co := d.cos[i];
    var hit := if retry || d.inFlight > 0 then FirstOverlap(d.cos, d.tracked, Footprint(d, co)) else None;
    match hit
    case Some(r) => d.(cos := d.cos[i := co.(phase := Asleep(r))])
    case None => d.(cos := d.cos[i := co.(phase := FirstPhase(co.kind))], tracked := [i] + d.tracked)
  }

  function Remove(s: seq<Id>, i: Id): (r: seq<Id>)
    ensures forall j :: j in r <==> j in s && j != i
  {
    if s == [] then [] else if s[0] == i then Remove(s[1..], i) else [s[0]] + Remove(s[1..], i)
  }

  function WakeOne(co: Co, i: Id): Co {
    if co.phase == Asleep(i) then co.(phase := Woken) else co
  }

  function WakeAll(cos: map<Id, Co>, i: Id): map<Id, Co> {
    map j | j in cos :: WakeOne(cos[j], i)
  }

  /** Request `i` leaves the tracked list and restarts everyone waiting on it. */
  function End(d: Device, i: Id, ok: bool): Device
    requires i in d.cos
  {
    var co := d.cos[i].(phase := Done(ok));
    d.(cos := WakeAll(d.cos, i)[i := co],
       tracked := Remove(d.tracked, i),
       inFlight := if co.Cor() && d.inFlight > 0 then d.inFlight - 1 else d.inFlight)
  }

  /** The sectors the driver is asked for in the current phase. */
  function Target(d: Device, co: Co): Span {
    if co.phase.Fetching? || co.phase.Storing? then Footprint(d, co) else co.span
  }

  ghost predicate Complete(s: Span, xs: set<nat>) {
    forall x: nat :: In(x, s) ==> x in xs
  }

  /** What the driver writes at sector `x` for this request. */
  function Payload(co: Co, x: nat): Sector {
    match co.kind
    case Read(_) => if co.phase == Storing(false) && x in co.buf then co.buf[x] else ZeroSector()
    case Write(data) => if In(x, co.span) && x - co.span.start < |data| then data[x - co.span.start] else ZeroSector()
    case WriteZeroes => ZeroSector()
  }

  /** Length of the run of sectors from `x` on in the same allocation state. */
  function RunLength(top: map<nat, Sector>, x: nat, n: nat, state: bool): nat
    decreases n
  {
    if n == 0 || (x in top) != state then 0 else 1 + RunLength(top, x + 1, n - 1, state)
  }

  /** The branch taken on the answer of the allocation query. */
  predicate NeedsCopy(top: map<nat, Sector>, s: Span) {
    var ret := s.start in top;
    var pnum := RunLength(top, s.start, s.len, ret);
    !ret || pnum != s.len
  }

  datatype Step =
    | Submit(id: Id, kind: Kind, span: Span)
    | Resume(id: Id)
    | Probed(id: Id)
    | DriverRead(id: Id, x: nat)
    | Fetched(id: Id)
    | DriverWrite(id: Id, x: nat, fill: set<nat>)
    | Finish(id: Id)
    | Fail(id: Id)

  /** An allocating write may fill the rest of the cluster from the backing file. */
  ghost predicate FillOk(d: Device, x: nat, fill: set<nat>) {
    forall y :: y in fill ==> y !in d.top && ClusterOf(d.cluster, y) == ClusterOf(d.cluster, x)
  }

  ghost predicate Enabled(d: Device, s: Step) {
    TrackedKnown(d) &&
    match s
    case Submit(i, kind, span) => i !in d.cos && Co(kind, span, Woken, map[], {}).WellFormed()
    case Resume(i) => i in d.cos && d.cos[i].phase.Woken?
    case Probed(i) => i in d.cos && d.cos[i].phase.Probing?
    case DriverRead(i, x) =>
      i in d.cos && (d.cos[i].phase.Fetching? || d.cos[i].phase.Reading?) && In(x, Target(d, d.cos[i]))
    case Fetched(i) =>
      i in d.cos && d.cos[i].phase.Fetching? && Complete(Footprint(d, d.cos[i]), d.cos[i].buf.Keys)
    case DriverWrite(i, x, fill) =>
      i in d.cos && (d.cos[i].phase.Storing? || d.cos[i].phase.Writing?) && In(x, Target(d, d.cos[i])) &&
      FillOk(d, x, fill)
    case Finish(i) =>
      i in d.cos &&
      (if d.cos[i].phase.Reading? then Complete(d.cos[i].span, d.cos[i].buf.Keys)
       else (d.cos[i].phase.Storing? || d.cos[i].phase.Writing?) && Complete(Target(d, d.cos[i]), d.cos[i].put))
    case Fail(i) => i in d.cos && d.cos[i].Tracked()
  }

  function FillFromBacking(d: Device, fill: set<nat>): map<nat, Sector> {
    map y | y in fill :: Visible(d, y)
  }

  /** Everything in the bounce buffer is zero. */
  predicate AllZero(buf: map<nat, Sector>) {
    forall x :: x in buf ==> buf[x] == ZeroSector()
  }

  predicate WritesZeroes(d: Device, co: Co) {
    d.hasWriteZeroes && AllZero(co.buf)
  }

  ghost function Apply(d: Device, s: Step): Device
    requires Enabled(d, s)
  {
    match s
    case Submit(i, kind, span) =>
      Admit(Enroll(d, i, kind, span), i, false)
    case Resume(i) => Admit(d, i, true)
    case Probed(i) =>
      var co := d.cos[i];
      d.(cos := d.cos[i := co.(phase := if NeedsCopy(d.top, co.span) then Fetching else Reading)])
    case DriverRead(i, x) =>
      var co := d.cos[i];
      d.(cos := d.cos[i := co.(buf := co.buf[x := Visible(d, x)])])
    case Fetched(i) =>
      var co := d.cos[i];
      d.(cos := d.cos[i := co.(phase := Storing(WritesZeroes(d, co)))])
    case DriverWrite(i, x, fill) =>
      var co := d.cos[i];
      d.(cos := d.cos[i := co.(put := co.put + {x})],
         top := (d.top + FillFromBacking(d, fill))[x := Payload(co, x)])
    case Finish(i) => End(d, i, true)
    case Fail(i) => End(d, i, false)
  }

  // ----------------------------------------------------------------- invariant

  /** No tracked request touches a cluster of another, tracked, copy-on-read. */
  ghost predicate Exclusive(d: Device)
    requires TrackedKnown(d)
  {
    forall i, j :: i in d.tracked && j in d.tracked && i != j && d.cos[i].Cor() ==>
      Disjoint(Footprint(d, d.cos[i]), Footprint(d, d.cos[j]))
  }

  /** The bounce buffer of a running copy-on-read holds what the guest sees. */
  ghost predicate BounceCurrent(d: Device, co: Co) {
    co.Buffering() ==>
      && co.Cor()
      && (forall x :: x in co.buf ==> In(x, Footprint(d, co)) && co.buf[x] == Visible(d, x))
      && (co.phase.Storing? ==> Complete(Footprint(d, co), co.buf.Keys))
      && (co.phase == Storing(true) ==> AllZero(co.buf))
  }

  ghost function CorIds(d: Device): set<Id> {
    set i | i in d.cos && d.cos[i].Cor() && !d.cos[i].phase.Done?
  }

  /** Nobody sleeps in the queue of a request that has already ended. */
  ghost predicate SleepersWaitOnTracked(d: Device) {
    forall i :: i in d.cos && d.cos[i].phase.Asleep? ==> d.cos[i].phase.on in d.tracked
  }

  predicate PhaseFits(co: Co) {
    && (co.phase.Writing? ==> !co.kind.Read?)
    && (co.phase.Reading? ==> co.kind.Read?)
    && (co.phase.Probing? ==> co.Cor())
    && (co.phase.Asleep? || co.phase.Woken? || co.phase.Probing? ==> co.buf == map[])
  }

  ghost predicate Listed(d: Device) {
    forall i :: i in d.cos ==> (i in d.tracked <==> d.cos[i].Tracked())
  }

  ghost predicate Counted(d: Device) {
    d.inFlight == |CorIds(d)|
  }

  ghost predicate Bounces(d: Device) {
    forall i :: i in d.cos ==> BounceCurrent(d, d.cos[i])
  }

  ghost predicate Shapes(d: Device) {
    forall i :: i in d.cos ==> d.cos[i].WellFormed() && PhaseFits(d.cos[i])
  }

  /** What a request has written is allocated in the image. */
  ghost predicate Landed(d: Device) {
    forall i :: i in d.cos ==> d.cos[i].put <= d.top.Keys
  }

  ghost predicate Inv(d: Device) {
    && TrackedKnown(d)
    && Landed(d)
    && Listed(d)
    && Counted(d)
    && Exclusive(d)
    && SleepersWaitOnTracked(d)
    && Bounces(d)
    && Shapes(d)
  }

  predicate Initial(d: Device) {
    d.cos == map[] && d.tracked == [] && d.inFlight == 0
  }

  lemma InitialInv(d: Device)
    requires Initial(d)
    ensures Inv(d)
  {
    assert CorIds(d) == {};
  }

  // -------------------------------------------------------------- preservation

  /** Two devices with the same image: what a request has read stays current. */
  lemma BouncesFrame(d: Device, e: Device)
    requires Bounces(d) && e.cluster == d.cluster && e.top == d.top && e.base == d.base
    requires forall j :: j in e.cos ==> BounceCurrent(d, e.cos[j])
    ensures Bounces(e)
  {
    hide RoundToClusters;
    forall j | j in e.cos ensures BounceCurrent(e, e.cos[j]) {
      assert BounceCurrent(d, e.cos[j]);
      forall x ensures Visible(e, x) == Visible(d, x) {}
    }
  }

  lemma ExclusiveFrame(d: Device, e: Device)
    requires TrackedKnown(d) && TrackedKnown(e) && Exclusive(d) && e.cluster == d.cluster
    requires forall j :: j in e.tracked ==> j in d.tracked
    requires forall j :: j in e.tracked ==> e.cos[j].span == d.cos[j].span && e.cos[j].kind == d.cos[j].kind
    ensures Exclusive(e)
  {
    hide RoundToClusters, Disjoint;
    forall j, k | j in e.tracked && k in e.tracked && j != k && e.cos[j].Cor()
      ensures Disjoint(Footprint(e, e.cos[j]), Footprint(e, e.cos[k]))
    {
      assert Disjoint(Footprint(d, d.cos[j]), Footprint(d, d.cos[k]));
    }
  }

  lemma EnrollCounted(d: Device, i: Id, kind: Kind, span: Span)
    requires Counted(d) && i !in d.cos
    ensures Counted(Enroll(d, i, kind, span))
  {
    var e := Enroll(d, i, kind, span);
    var joined := if e.cos[i].Cor() then {i} else {};
    forall j ensures j in CorIds(e) <==> j in CorIds(d) + joined {
      if j in d.cos { assert e.cos[j] == d.cos[j]; }
    }
    assert CorIds(e) == CorIds(d) + joined;
  }

  lemma EnrollInv(d: Device, i: Id, kind: Kind, span: Span)
    requires Inv(d) && i !in d.cos && Co(kind, span, Woken, map[], {}).WellFormed()
    ensures Inv(Enroll(d, i, kind, span))
  {
    hide RoundToClusters, Exclusive, BounceCurrent, Counted;
    var e := Enroll(d, i, kind, span);
    EnrollCounted(d, i, kind, span);
    IdleBounce(d, e.cos[i]);
    BouncesFrame(d, e);
    ExclusiveFrame(d, e);
  }

  lemma IdleBounce(d: Device, co: Co)
    requires !co.Buffering()
    ensures BounceCurrent(d, co)
  {
  }

  /** A coroutine that found no overlap, or saw no copy-on-read in flight, can
      join the tracked list without breaking exclusion. */
  lemma AdmitExclusive(d: Device, i: Id, retry: bool)
    requires TrackedKnown(d) && Listed(d) && Counted(d) && Exclusive(d)
    requires i in d.cos && d.cos[i].phase.Woken?
    ensures TrackedKnown(Admit(d, i, retry)) && Exclusive(Admit(d, i, retry))
  {
    hide RoundToClusters;
    var e := Admit(d, i, retry);
    forall j, k | j in e.tracked && k in e.tracked && j != k && e.cos[j].Cor()
      ensures Disjoint(Footprint(e, e.cos[j]), Footprint(e, e.cos[k]))
    {
      if j in d.tracked && k in d.tracked {
        assert Disjoint(Footprint(d, d.cos[j]), Footprint(d, d.cos[k]));
      } else {
        assert j in CorIds(d);
        var other := if j == i then k else j;
        assert other in d.tracked && !Overlaps(d.cos[other].span, Footprint(d, d.cos[i]));
        NoOverlapMeansDisjoint(d.cluster, d.cos[i].span, d.cos[other].span);
      }
    }
  }

  lemma AdmitCounted(d: Device, i: Id, retry: bool)
    requires TrackedKnown(d) && Counted(d) && i in d.cos && d.cos[i].phase.Woken?
    ensures Counted(Admit(d, i, retry))
  {
    hide RoundToClusters, FirstOverlap;
    var e := Admit(d, i, retry);
    assert CorIds(e) == CorIds(d);
  }

  lemma AdmitLists(d: Device, i: Id, retry: bool)
    requires TrackedKnown(d) && Listed(d) && SleepersWaitOnTracked(d)
    requires i in d.cos && d.cos[i].phase.Woken?
    ensures var e := Admit(d, i, retry); Listed(e) && SleepersWaitOnTracked(e)
  {
    hide RoundToClusters, Overlaps;
    var e := Admit(d, i, retry);
    assert forall j :: j in d.cos && j != i ==> e.cos[j] == d.cos[j];
  }

  lemma AdmitShapes(d: Device, i: Id, retry: bool)
    requires TrackedKnown(d) && Shapes(d) && Landed(d) && i in d.cos && d.cos[i].phase.Woken?
    ensures Shapes(Admit(d, i, retry)) && Landed(Admit(d, i, retry))
  {
    hide RoundToClusters, Overlaps, FirstOverlap;
  }

  lemma AdmitBounces(d: Device, i: Id, retry: bool)
    requires TrackedKnown(d) && Bounces(d) && i in d.cos && d.cos[i].phase.Woken?
    ensures Bounces(Admit(d, i, retry))
  {
    hide RoundToClusters, Overlaps, BounceCurrent, FirstOverlap;
    var e := Admit(d, i, retry);
    IdleBounce(d, e.cos[i]);
    BouncesFrame(d, e);
  }

  lemma AdmitInv(d: Device, i: Id, retry: bool)
    requires Inv(d) && i in d.cos && d.cos[i].phase.Woken?
    ensures Inv(Admit(d, i, retry))
  {
    hide Admit, Exclusive, Listed, Counted, SleepersWaitOnTracked, Bounces, Shapes, Landed;
    AdmitExclusive(d, i, retry);
    AdmitCounted(d, i, retry);
    AdmitLists(d, i, retry);
    AdmitShapes(d, i, retry);
    AdmitBounces(d, i, retry);
  }

  /** Changing only the progress fields of one tracked request, which stays
      tracked, keeps everything that does not depend on its buffer. */
  lemma ProgressInv(d: Device, i: Id, co: Co)
    requires Inv(d) && i in d.tracked
    requires co.kind == d.cos[i].kind && co.span == d.cos[i].span && co.Tracked()
    requires BounceCurrent(d, co) && PhaseFits(co) && co.put <= d.top.Keys
    ensures Inv(d.(cos := d.cos[i := co]))
  {
    hide RoundToClusters, Disjoint, Visible, Exclusive, BounceCurrent;
    var e := d.(cos := d.cos[i := co]);
    assert CorIds(e) == CorIds(d);
    BouncesFrame(d, e);
    ExclusiveFrame(d, e);
  }

  lemma EndCounted(d: Device, i: Id, ok: bool)
    requires Counted(d) && i in d.cos && d.cos[i].Tracked()
    ensures Counted(End(d, i, ok))
  {
    var e := End(d, i, ok);
    assert forall j :: j in d.cos ==> (e.cos[j].Cor() <==> d.cos[j].Cor());
    assert forall j :: j in d.cos && j != i ==> (e.cos[j].phase.Done? <==> d.cos[j].phase.Done?);
    assert CorIds(e) == CorIds(d) - {i};
    assert d.cos[i].Cor() ==> i in CorIds(d);
  }

  lemma EndLists(d: Device, i: Id, ok: bool)
    requires TrackedKnown(d) && Listed(d) && SleepersWaitOnTracked(d)
    requires i in d.cos && d.cos[i].Tracked()
    ensures var e := End(d, i, ok); TrackedKnown(e) && Listed(e) && SleepersWaitOnTracked(e)
  {
  }

  lemma EndBounces(d: Device, i: Id, ok: bool)
    requires Bounces(d) && i in d.cos
    ensures Bounces(End(d, i, ok))
  {
    hide RoundToClusters, BounceCurrent;
    var e := End(d, i, ok);
    forall j | j in e.cos ensures BounceCurrent(d, e.cos[j]) {
      if j == i || d.cos[j].phase == Asleep(i) { IdleBounce(d, e.cos[j]); }
    }
    BouncesFrame(d, e);
  }

  lemma EndShapes(d: Device, i: Id, ok: bool)
    requires Shapes(d) && Landed(d) && i in d.cos && !d.cos[i].phase.Woken? && !d.cos[i].phase.Asleep?
    ensures Shapes(End(d, i, ok)) && Landed(End(d, i, ok))
  {
  }

  lemma EndInv(d: Device, i: Id, ok: bool)
    requires Inv(d) && i in d.cos && d.cos[i].Tracked()
    ensures Inv(End(d, i, ok))
  {
    hide RoundToClusters, Exclusive, Bounces, Listed, Counted, SleepersWaitOnTracked, Shapes, Landed;
    EndLists(d, i, ok);
    EndCounted(d, i, ok);
    EndBounces(d, i, ok);
    EndShapes(d, i, ok);
    ExclusiveFrame(d, End(d, i, ok));
  }

  // -------------------------------------------------------------- image writes

  lemma VisibleAfterWrite(d: Device, s: Step, y: nat)
    requires Enabled(d, s) && s.DriverWrite?
    ensures Visible(Apply(d, s), y) ==
            if y == s.x then Payload(d.cos[s.id], s.x) else Visible(d, y)
  {
  }

  /** Writing the bounce buffer back never changes what the guest sees. */
  lemma WriteBackInvisible(d: Device, s: Step, y: nat)
    requires Inv(d) && Enabled(d, s) && s.DriverWrite? && d.cos[s.id].phase.Storing?
    ensures Visible(Apply(d, s), y) == Visible(d, y)
  {
    hide RoundToClusters;
    var co := d.cos[s.id];
    assert BounceCurrent(d, co);
    VisibleAfterWrite(d, s, y);
  }

  /** No write reaches a sector that another request has in its bounce buffer. */
  lemma BounceUntouched(d: Device, s: Step, j: Id)
    requires Inv(d) && Enabled(d, s) && s.DriverWrite?
    requires j in d.cos && j != s.id && d.cos[j].Buffering()
    ensures s.x !in d.cos[j].buf
  {
    hide RoundToClusters;
    var co := d.cos[s.id];
    RoundingCovers(d.cluster, co.span);
    assert In(s.x, Footprint(d, co));
    assert BounceCurrent(d, d.cos[j]);
    assert Disjoint(Footprint(d, d.cos[j]), Footprint(d, co));
  }

  lemma BufferKeptByWrite(d: Device, s: Step, j: Id, x: nat)
    requires Inv(d) && Enabled(d, s) && s.DriverWrite?
    requires j in d.cos && d.cos[j].Buffering() && x in d.cos[j].buf
    ensures Visible(Apply(d, s), x) == Visible(d, x)
  {
    hide Inv, Apply, Visible, FillOk;
    VisibleAfterWrite(d, s, x);
    if j != s.id { BounceUntouched(d, s, j); } else { WriteBackInvisible(d, s, x); }
  }

  lemma WriteBounces(d: Device, s: Step)
    requires Inv(d) && Enabled(d, s) && s.DriverWrite?
    ensures Bounces(Apply(d, s))
  {
    hide RoundToClusters, Visible, Exclusive, Payload, Listed, Counted, SleepersWaitOnTracked, Shapes, Landed,
         FillFromBacking, FillOk;
    var e := Apply(d, s);
    forall j | j in e.cos ensures BounceCurrent(e, e.cos[j]) {
      assert BounceCurrent(d, d.cos[j]);
      if d.cos[j].Buffering() {
        forall x | x in d.cos[j].buf ensures Visible(e, x) == Visible(d, x) {
          BufferKeptByWrite(d, s, j, x);
        }
      }
    }
  }

  lemma WriteInv(d: Device, s: Step)
    requires Inv(d) && Enabled(d, s) && s.DriverWrite?
    ensures Inv(Apply(d, s))
  {
    hide RoundToClusters, Disjoint, Visible, Exclusive, BounceCurrent;
    var e := Apply(d, s);
    assert CorIds(e) == CorIds(d);
    ExclusiveFrame(d, e);
    WriteBounces(d, s);
  }

  /** A step that moves one coroutine to the driver's next answer. */
  lemma DriverAnswerInv(d: Device, s: Step)
    requires Inv(d) && Enabled(d, s) && (s.Probed? || s.DriverRead? || s.Fetched?)
    ensures Inv(Apply(d, s))
  {
    hide RoundToClusters, Exclusive, Counted, SleepersWaitOnTracked, NeedsCopy, Visible;
    assert BounceCurrent(d, d.cos[s.id]);
    RoundingCovers(d.cluster, d.cos[s.id].span);
    ProgressInv(d, s.id, Apply(d, s).cos[s.id]);
  }

  /** Every step keeps the invariant. */
  lemma StepInv(d: Device, s: Step)
    requires Inv(d) && Enabled(d, s)
    ensures Inv(Apply(d, s))
  {
    hide Exclusive, Counted, SleepersWaitOnTracked, Bounces, Shapes, Listed, Admit, End, FillOk, Complete, In;
    match s
    case Submit(i, kind, span) =>
      EnrollInv(d, i, kind, span);
      AdmitInv(Enroll(d, i, kind, span), i, false);
    case Resume(i) => AdmitInv(d, i, true);
    case DriverWrite(_, _, _) => WriteInv(d, s);
    case Finish(i) => EndInv(d, i, true);
    case Fail(i) => EndInv(d, i, false);
    case _ => DriverAnswerInv(d, s);
  }

  // ---------------------------------------------------------------------- runs

  ghost predicate ValidRun(d: Device, steps: seq<Step>)
    decreases |steps|
  {
    steps == [] || (Enabled(d, steps[0]) && ValidRun(Apply(d, steps[0]), steps[1..]))
  }

  ghost function Exec(d: Device, steps: seq<Step>): Device
    requires ValidRun(d, steps)
    decreases |steps|
  {
    if steps == [] then d else Exec(Apply(d, steps[0]), steps[1..])
  }

  lemma WriterKind(d: Device, i: Id)
    requires Inv(d) && i in d.cos
    ensures d.cos[i].WellFormed()
    ensures (d.cos[i].phase.Storing? ==> d.cos[i].Cor()) && (d.cos[i].phase.Writing? ==> !d.cos[i].kind.Read?)
  {
    assert BounceCurrent(d, d.cos[i]);
  }

  /** What one step does to sector `x`: a guest write that reaches it leaves its own
      sector, or zeroes, there, and nothing else changes it. */
  lemma StepContent(d: Device, s: Step, x: nat)
    requires Inv(d) && Enabled(d, s)
    ensures var reached := s.DriverWrite? && s.x == x && !d.cos[s.id].kind.Read?;
            && (!reached ==> Visible(Apply(d, s), x) == Visible(d, x))
            && (reached && d.cos[s.id].kind.WriteZeroes? ==> Visible(Apply(d, s), x) == ZeroSector())
            && (reached && d.cos[s.id].kind.Write? ==>
                  var co := d.cos[s.id];
                  && co.span.start <= x < co.span.start + |co.kind.data|
                  && Visible(Apply(d, s), x) == co.kind.data[x - co.span.start])
  {
    hide RoundToClusters, Inv, FirstOverlap, NeedsCopy;
    if s.DriverWrite? {
      WriterKind(d, s.id);
      if d.cos[s.id].phase.Storing? { WriteBackInvisible(d, s, x); } else { VisibleAfterWrite(d, s, x); }
    }
  }

  lemma {:induction false} RunInv(d: Device, steps: seq<Step>)
    requires Inv(d) && ValidRun(d, steps)
    ensures Inv(Exec(d, steps))
    decreases |steps|
  {
    if steps == [] {
    } else {
      StepInv(d, steps[0]);
      RunInv(Apply(d, steps[0]), steps[1..]);
    }
  }

  /** In every reachable state no tracked request touches a cluster of another
      tracked request that is a copy-on-read. */
  lemma RunExclusive(d: Device, steps: seq<Step>, i: Id, j: Id)
    requires Initial(d) && ValidRun(d, steps)
    ensures var e := Exec(d, steps);
            TrackedKnown(e) &&
            (i in e.tracked && j in e.tracked && i != j && e.cos[i].Cor() ==>
               !ShareCluster(e.cluster, e.cos[i].span, e.cos[j].span))
  {
    hide RoundToClusters;
    InitialInv(d);
    RunInv(d, steps);
    var e := Exec(d, steps);
    if i in e.tracked && j in e.tracked && i != j && e.cos[i].Cor() &&
        ShareCluster(e.cluster, e.cos[i].span, e.cos[j].span) {
      var s, t := e.cos[i].span, e.cos[j].span;
      assert Disjoint(Footprint(e, e.cos[i]), Footprint(e, e.cos[j]));
      var x: nat, y: nat :| In(x, s) && In(y, t) && ClusterOf(e.cluster, x) == ClusterOf(e.cluster, y);
      RoundingIsClusterClosure(e.cluster, s, y);
      RoundingCovers(e.cluster, t);
    }
  }

  // ------------------------------------------------------------------- results

  lemma {:induction false} RunLengthFull(top: map<nat, Sector>, x: nat, n: nat)
    ensures RunLength(top, x, n, true) <= n
    ensures RunLength(top, x, n, true) == n <==> forall y: nat :: x <= y < x + n ==> y in top
    decreases n
  {
    if n == 0 {
    } else {
      RunLengthFull(top, x + 1, n - 1);
      if x in top {
        assert (forall y: nat :: x <= y < x + n ==> y in top) <==>
               (forall y: nat :: x + 1 <= y < x + 1 + (n - 1) ==> y in top);
      }
    }
  }

  /** The allocation query leads to a copy exactly when a sector is missing. */
  lemma NeedsCopyExact(top: map<nat, Sector>, s: Span)
    requires s.len > 0
    ensures NeedsCopy(top, s) <==> exists x: nat :: In(x, s) && x !in top
  {
    RunLengthFull(top, s.start, s.len);
    if s.start !in top { assert In(s.start, s); }
    if s.start in top && !(forall y: nat :: s.start <= y < s.start + s.len ==> y in top) {
      var y: nat :| s.start <= y < s.start + s.len && y !in top;
      assert In(y, s);
    }
  }

  predicate SameCluster(d: Device, x: nat, y: nat) { ClusterOf(d.cluster, x) == ClusterOf(d.cluster, y) }

  /** A step the coroutine, or the driver on its behalf, can take; the driver need
      not repeat itself. */
  lemma TrackedCanMove(d: Device, i: Id) returns (s: Step)
    requires Inv(d) && i in d.tracked
    ensures !s.Submit? && !s.Fail? && s.id == i && Enabled(d, s)
    ensures s.DriverRead? ==> s.x !in d.cos[i].buf
    ensures s.DriverWrite? ==> s.x !in d.cos[i].put
  {
    hide RoundToClusters, Exclusive, BounceCurrent, Counted, SleepersWaitOnTracked;
    var co := d.cos[i];
    if co.phase.Probing? {
      s := Probed(i);
    } else if co.phase.Fetching? || co.phase.Reading? {
      var t := Target(d, co);
      if Complete(t, co.buf.Keys) {
        s := if co.phase.Fetching? then Fetched(i) else Finish(i);
      } else {
        var x: nat :| In(x, t) && x !in co.buf.Keys;
        s := DriverRead(i, x);
      }
    } else {
      var t := Target(d, co);
      if Complete(t, co.put) {
        s := Finish(i);
      } else {
        var x: nat :| In(x, t) && x !in co.put;
        s := DriverWrite(i, x, {});
      }
    }
  }

  /** The protocol cannot deadlock: as long as a request is unfinished, somebody
      can move; a sleeper waits for another request, which is still tracked. */
  lemma NoDeadlock(d: Device, steps: seq<Step>, i: Id) returns (s: Step)
    requires Initial(d) && ValidRun(d, steps)
    requires i in Exec(d, steps).cos && !Exec(d, steps).cos[i].phase.Done?
    ensures !s.Submit? && !s.Fail? && Enabled(Exec(d, steps), s)
    ensures Exec(d, steps).cos[i].phase.Asleep? ==>
              s.id == Exec(d, steps).cos[i].phase.on && s.id != i && s.id in Exec(d, steps).tracked
  {
    hide RoundToClusters, Exclusive, Bounces, Counted, Shapes;
    InitialInv(d);
    RunInv(d, steps);
    var e := Exec(d, steps);
    var phase := e.cos[i].phase;
    if phase.Woken? {
      s := Resume(i);
    } else {
      s := TrackedCanMove(e, if phase.Asleep? then phase.on else i);
    }
  }
}
