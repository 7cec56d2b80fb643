/** RAM migration while the guest runs: guest stores interleave with every single
    step of saving a page - clearing its dirty bit, comparing its bytes, copying
    them - and the destination still ends up equal to the source. */
module RamSafety {
  import opened RamStream
  import opened Wire
  import opened Wrappers

  /** Where the saver stands with the page it is sending. */
  datatype Phase =
    | Idle
    | Cleared(a: Addr)                          // dirty bit reset, nothing read yet
    | Comparing(a: Addr, first: Byte, i: nat)   // uniform up to byte `i`
    | Filling(a: Addr)                          // found uniform, value to be read again
    | Copying(a: Addr, seen: seq<Byte>)         // page being copied to the stream

  /** Source memory, the migration dirty bits, the stores logged since the last
      synchronisation, and the records sent so far. */
  datatype Source = Source(ram: Ram, dirty: set<Addr>, log: set<Addr>, phase: Phase, sent: seq<Record>)

  predicate Touched(s: Source, a: Addr) {
    a in s.dirty || a in s.log
  }

  datatype Step =
    | Store(a: Addr, page: Page, logged: bool)
    | Sync
    | Clear(a: Addr)
    | ReadFirst
    | Compare
    | EmitFill
    | Copy
    | EmitFull
    | Mark(r: Record)

  ghost predicate Enabled(layout: Layout, s: Source, step: Step) {
    Fits(layout, s.ram) &&
    match step
    case Store(a, _, _) => Inside(layout, a)
    case Sync => true
    case Clear(a) => s.phase.Idle? && a in s.dirty && Inside(layout, a)
    case ReadFirst => s.phase.Cleared? && Inside(layout, s.phase.a)
    case Compare => s.phase.Comparing? && Inside(layout, s.phase.a) && s.phase.i < PAGE
    case EmitFill => s.phase.Filling? && Inside(layout, s.phase.a)
    case Copy => s.phase.Copying? && Inside(layout, s.phase.a) && |s.phase.seen| < PAGE
    case EmitFull => s.phase.Copying? && Inside(layout, s.phase.a) && |s.phase.seen| == PAGE
    case Mark(r) => s.phase.Idle? && (r.Sizes? || r.Eos?)
  }

  function Apply(layout: Layout, s: Source, step: Step): Source
    requires Enabled(layout, s, step)
  {
    match step
    case Store(a, page, logged) =>
      var ram := Put(layout, s.ram, a, page);
      if logged then s.(ram := ram, log := s.log + {a}) else s.(ram := ram, dirty := s.dirty + {a})
    case Sync => s.(dirty := s.dirty + s.log, log := {})
    case Clear(a) => s.(dirty := s.dirty - {a}, phase := Cleared(a))
    case ReadFirst => s.(phase := Comparing(s.phase.a, At(layout, s.ram, s.phase.a)[0], 0))
    case Compare =>
      var Comparing(a, first, i) := s.phase;
      if At(layout, s.ram, a)[i] != first then s.(phase := Copying(a, []))
      else if i + 1 == PAGE then s.(phase := Filling(a))
      else s.(phase := Comparing(a, first, i + 1))
    case EmitFill => s.(phase := Idle, sent := s.sent + [Fill(s.phase.a, At(layout, s.ram, s.phase.a)[0])])
    case Copy =>
      var Copying(a, seen) := s.phase;
      s.(phase := Copying(a, seen + [At(layout, s.ram, a)[|seen|]]))
    case EmitFull => s.(phase := Idle, sent := s.sent + [Full(s.phase.a, s.phase.seen)])
    case Mark(r) => s.(sent := s.sent + [r])
  }

  // ----------------------------------------------------------------- invariant

  /** What has been read of the page in flight is still its content, unless a
      store has marked the page again. */
  ghost predicate InFlightOk(layout: Layout, s: Source)
    requires Fits(layout, s.ram)
  {
    !s.phase.Idle? ==>
      && Inside(layout, s.phase.a)
      && (Touched(s, s.phase.a) ||
          var page := At(layout, s.ram, s.phase.a);
          match s.phase
          case Comparing(_, first, i) => i < PAGE && page[0] == first && forall k :: 0 <= k < i ==> page[k] == first
          case Filling(_) => forall k :: 0 <= k < PAGE ==> page[k] == page[0]
          case Copying(_, seen) => seen <= page
          case _ => true)
  }

  /** Every page is dirty, logged, being saved, or already right on the other side. */
  ghost predicate Covered(layout: Layout, dst: Ram, s: Source)
    requires Fits(layout, dst) && Fits(layout, s.ram) && RecordsOk(layout, s.sent)
  {
    forall a :: Inside(layout, a) ==>
      Touched(s, a) || (!s.phase.Idle? && s.phase.a == a) ||
          At(layout, Replay(layout, dst, s.sent), a) == At(layout, s.ram, a)
  }

  ghost predicate Inv(layout: Layout, dst: Ram, s: Source) {
    && Fits(layout, dst) && Fits(layout, s.ram) && RecordsOk(layout, s.sent)
    && InFlightOk(layout, s)
    && Covered(layout, dst, s)
  }

  lemma {:induction false} ReplayAppend(layout: Layout, ram: Ram, rs: seq<Record>, r: Record)
    requires Fits(layout, ram) && RecordsOk(layout, rs) && RecordOk(layout, r)
    ensures RecordsOk(layout, rs + [r])
    ensures Replay(layout, ram, rs + [r]) == ApplyRecord(layout, Replay(layout, ram, rs), r)
    decreases |rs|
  {
    hide ApplyRecord, Fits;
    if rs == [] {
      assert [] + [r] == [r];
      assert Replay(layout, ram, [r]) == Replay(layout, ApplyRecord(layout, ram, r), [r][1..]);
    } else {
      assert (rs + [r])[1..] == rs[1..] + [r];
      ReplayAppend(layout, ApplyRecord(layout, ram, rs[0]), rs[1..], r);
    }
  }

  lemma StoreInv(layout: Layout, dst: Ram, s: Source, step: Step)
    requires Inv(layout, dst, s) && Enabled(layout, s, step) && step.Store?
    ensures Inv(layout, dst, Apply(layout, s, step))
  {
    hide Put, Replay, Fits;
    var e := Apply(layout, s, step);
    assert Touched(e, step.a);
    assert forall a :: Touched(s, a) ==> Touched(e, a);
  }

  /** Steps of the saver that read memory but send nothing. */
  lemma ReadInv(layout: Layout, dst: Ram, s: Source, step: Step)
    requires Inv(layout, dst, s) && Enabled(layout, s, step)
    requires step.ReadFirst? || step.Compare? || step.Copy?
    ensures Inv(layout, dst, Apply(layout, s, step))
  {
    hide Replay, Fits;
  }

  /** A page record whose content is the page, or whose page was marked again. */
  lemma EmitInv(layout: Layout, dst: Ram, s: Source, r: Record)
    requires Inv(layout, dst, s) && !s.phase.Idle? && (r.Fill? || r.Full?) && r.a == s.phase.a
    requires Touched(s, r.a) || Content(r) == At(layout, s.ram, r.a)
    ensures Inv(layout, dst, s.(phase := Idle, sent := s.sent + [r]))
  {
    hide Replay, Fits, Content;
    ReplayAppend(layout, dst, s.sent, r);
  }

  lemma MarkInv(layout: Layout, dst: Ram, s: Source, r: Record)
    requires Inv(layout, dst, s) && s.phase.Idle? && (r.Sizes? || r.Eos?)
    ensures Inv(layout, dst, s.(sent := s.sent + [r]))
  {
    hide Replay, Fits;
    ReplayAppend(layout, dst, s.sent, r);
  }

  lemma StepInv(layout: Layout, dst: Ram, s: Source, step: Step)
    requires Inv(layout, dst, s) && Enabled(layout, s, step)
    ensures Inv(layout, dst, Apply(layout, s, step))
  {
    hide Replay, Fits;
    match step
    case Store(_, _, _) => StoreInv(layout, dst, s, step);
    case Sync =>
    case Clear(_) =>
    case EmitFill =>
      var page := At(layout, s.ram, s.phase.a);
      assert !Touched(s, s.phase.a) ==> Uniform(page[0]) == page;
      EmitInv(layout, dst, s, Fill(s.phase.a, page[0]));
    case EmitFull =>
      var page := At(layout, s.ram, s.phase.a);
      assert !Touched(s, s.phase.a) ==> s.phase.seen == page;
      EmitInv(layout, dst, s, Full(s.phase.a, s.phase.seen));
    case Mark(r) => MarkInv(layout, dst, s, r);
    case _ => ReadInv(layout, dst, s, step);
  }

  // ---------------------------------------------------------------------- runs

  ghost predicate ValidRun(layout: Layout, s: Source, steps: seq<Step>)
    decreases |steps|
  {
    steps == [] || (Enabled(layout, s, steps[0]) && ValidRun(layout, Apply(layout, s, steps[0]), steps[1..]))
  }

  ghost function Exec(layout: Layout, s: Source, steps: seq<Step>): Source
    requires ValidRun(layout, s, steps)
    decreases |steps|
  {
    if steps == [] then s else Exec(layout, Apply(layout, s, steps[0]), steps[1..])
  }

  /** The state stage 1 sets up: every dirty bit set, the size table sent. */
  ghost predicate Started(layout: Layout, s: Source) {
    && Fits(layout, s.ram)
    && (forall a :: Inside(layout, a) ==> a in s.dirty)
    && s.phase.Idle? && s.sent == [Sizes]
  }

  lemma {:induction false} RunInv(layout: Layout, dst: Ram, s: Source, steps: seq<Step>)
    requires Inv(layout, dst, s) && ValidRun(layout, s, steps)
    ensures Inv(layout, dst, Exec(layout, s, steps))
    decreases |steps|
  {
    hide Inv, Enabled, Apply;
    if steps == [] {
    } else {
      StepInv(layout, dst, s, steps[0]);
      RunInv(layout, dst, Apply(layout, s, steps[0]), steps[1..]);
    }
  }

  /** Stage 3 ends with nothing dirty and nothing logged. */
  predicate Drained(layout: Layout, s: Source) {
    s.phase.Idle? && s.dirty == {} && s.log == {}
  }

  /** The last section has its end marker. */
  predicate SectionClosed(sent: seq<Record>) {
    |sent| > 0 && sent[|sent| - 1].Eos?
  }

  lemma DrainedEqual(layout: Layout, dst: Ram, s: Source)
    requires Inv(layout, dst, s) && Drained(layout, s)
    ensures Replay(layout, dst, s.sent) == s.ram
  {
    hide Replay;
    var r := Replay(layout, dst, s.sent);
    forall b | 0 <= b < |r| ensures r[b] == s.ram[b] {
      forall p | 0 <= p < |r[b]| ensures r[b][p] == s.ram[b][p] {
        assert Inside(layout, Addr(b, p));
        assert At(layout, r, Addr(b, p)) == At(layout, s.ram, Addr(b, p));
      }
    }
  }

  /** Whatever the guest stored and whenever: loading the bytes of the stream
      leaves the destination with the source's memory, whatever it held before. */
  lemma MigrationPreservesRam(layout: Layout, s: Source, steps: seq<Step>, dst: Loader)
    requires LayoutOk(layout) && Fits(layout, dst.ram)
    requires Started(layout, s) && ValidRun(layout, s, steps)
    requires Drained(layout, Exec(layout, s, steps))
    requires SectionClosed(Exec(layout, s, steps).sent)
    ensures var e := Exec(layout, s, steps);
            && RecordsOk(layout, e.sent)
            && var r := LoadStream(layout, dst, EncodeAll(layout, None, e.sent));
               r.Ok? && r.value.ram == e.ram
  {
    hide Replay, Fits, LayoutOk, EncodeAll, LoadStream, Apply, Enabled;
    assert Inv(layout, dst.ram, s);
    RunInv(layout, dst.ram, s, steps);
    var e := Exec(layout, s, steps);
    DrainedEqual(layout, dst.ram, e);
    StreamRoundTrip(layout, None, dst, e.sent);
  }
}
