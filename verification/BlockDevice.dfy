/** The coroutine code of the block layer itself: a device object whose methods
    are the stretches between two yields, each proved to be one protocol step. */
module BlockDevice {
  import opened Clusters
  import opened CopyOnRead
  import opened Sectors
  import opened Wrappers

  class BlockDriverState {
    const cluster: nat
    const hasWriteZeroes: bool
    const base: map<nat, Sector>
    var cos: map<Id, Co>
    var tracked: seq<Id>
    var inFlight: nat
    var top: map<nat, Sector>

    function State(): Device
      reads this
    {
      Device(cluster, hasWriteZeroes, cos, tracked, inFlight, top, base)
    }

    constructor (cluster: nat, hasWriteZeroes: bool, top: map<nat, Sector>, base: map<nat, Sector>)
      ensures Initial(State()) && Inv(State())
      ensures State().top == top && State().base == base && State().cluster == cluster
    {
      this.cluster, this.hasWriteZeroes, this.base := cluster, hasWriteZeroes, base;
      this.cos, this.tracked, this.inFlight, this.top := map[], [], 0, top;
      new;
      InitialInv(State());
    }

    /** Walks the tracked list from the newest request on. */
    method FindOverlap(rounded: Span) returns (hit: Option<Id>)
      requires TrackedKnown(State())
      ensures hit == FirstOverlap(cos, tracked, rounded)
    {
      var k := 0;
      while k < |tracked|
        invariant 0 <= k <= |tracked|
        invariant FirstOverlap(cos, tracked, rounded) == FirstOverlap(cos, tracked[k..], rounded)
      {
        if Overlaps(cos[tracked[k]].span, rounded) {
          return Some(tracked[k]);
        }
        k := k + 1;
      }
      hit := None;
    }

    /** The overlap test and, when it lets the request through, its tracking. */
    method AdmitOrWait(i: Id, retry: bool)
      requires Inv(State()) && i in cos && cos[i].phase.Woken?
      modifies `cos, `tracked
      ensures State() == Admit(old(State()), i, retry) && Inv(State())
    {
      AdmitInv(State(), i, retry);
      var co := cos[i];
      var hit := None;
      if retry || inFlight > 0 {
        hit := FindOverlap(RoundToClusters(cluster, co.span));
      }
      if hit.Some? {
        cos := cos[i := co.(phase := Asleep(hit.value))];
      } else {
        tracked := [i] + tracked;
        cos := cos[i := co.(phase := FirstPhase(co.kind))];
      }
    }

    /** A read or write enters, up to its first yield. */
    method SubmitRequest(i: Id, kind: Kind, span: Span)
      requires Inv(State()) && Enabled(State(), Submit(i, kind, span))
      modifies `cos, `tracked, `inFlight
      ensures State() == Apply(old(State()), Submit(i, kind, span)) && Inv(State())
    {
      EnrollInv(State(), i, kind, span);
      var co := Co(kind, span, Woken, map[], {});
      if co.Cor() {
        inFlight := inFlight + 1;
      }
      cos := cos[i := co];
      AdmitOrWait(i, false);
    }

    /** A request whose wait is over repeats the scan, whatever the count is now. */
    method ResumeRequest(i: Id)
      requires Inv(State()) && Enabled(State(), Resume(i))
      modifies `cos, `tracked
      ensures State() == Apply(old(State()), Resume(i)) && Inv(State())
    {
      AdmitOrWait(i, true);
    }

    /** The allocation query returns; the read copies or goes straight on. */
    method AllocationAnswered(i: Id)
      requires Inv(State()) && Enabled(State(), Probed(i))
      modifies `cos
      ensures State() == Apply(old(State()), Probed(i)) && Inv(State())
    {
      StepInv(State(), Probed(i));
      var co := cos[i];
      if NeedsCopy(top, co.span) {
        cos := cos[i := co.(phase := Fetching)];
      } else {
        cos := cos[i := co.(phase := Reading)];
      }
    }

    /** The clusters are in the bounce buffer; they are written back, as zeroes
        when the driver can do that and the buffer holds nothing else. */
    method ClustersFetched(i: Id)
      requires Inv(State()) && Enabled(State(), Fetched(i))
      modifies `cos
      ensures State() == Apply(old(State()), Fetched(i)) && Inv(State())
    {
      StepInv(State(), Fetched(i));
      var co := cos[i];
      if hasWriteZeroes && AllZero(co.buf) {
        cos := cos[i := co.(phase := Storing(true))];
      } else {
        cos := cos[i := co.(phase := Storing(false))];
      }
    }

    method Unlink(i: Id)
      modifies `tracked
      ensures tracked == Remove(old(tracked), i)
    {
      var k, rest := 0, [];
      while k < |tracked|
        invariant 0 <= k <= |tracked| && tracked == old(tracked)
        invariant rest + Remove(tracked[k..], i) == Remove(tracked, i)
      {
        if tracked[k] != i {
          rest := rest + [tracked[k]];
        }
        k := k + 1;
      }
      assert rest + [] == rest;
      tracked := rest;
    }

    /** The driver returned, with or without an error: the request leaves the
        list, its waiters are restarted, a copy-on-read is no longer in flight. */
    method RequestEnds(i: Id, ok: bool)
      requires Inv(State()) && Enabled(State(), if ok then Finish(i) else Fail(i))
      modifies `cos, `tracked, `inFlight
      ensures State() == Apply(old(State()), if ok then Finish(i) else Fail(i)) && Inv(State())
    {
      hide Exclusive, Bounces, Shapes, Landed, Listed, SleepersWaitOnTracked, Complete;
      EndInv(State(), i, ok);
      assert cos[i].Cor() ==> i in CorIds(State());
      Unlink(i);
      var co := cos[i];
      cos := WakeAll(cos, i)[i := co.(phase := Done(ok))];
      if co.Cor() {
        inFlight := inFlight - 1;
      }
    }
  }
}
