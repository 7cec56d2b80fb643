/** Bottom halves over whole runs, told from the steps: what was deleted or cancelled
    does not run, what was deleted is freed, and a poll runs what was due. */
module BottomHalfRuns {
  import opened BottomHalves
  import opened Wrappers

  /** No run of `p` is logged from position `since` on. */
  ghost predicate NoRuns(s: Sys, since: nat, p: Ptr) {
    since <= |s.log| && forall i :: since <= i < |s.log| ==> s.log[i] != Ran(p)
  }

  // ------------------------------------------------------------------- deletion

  ghost predicate Gone(s: Sys, p: Ptr) { p in s.heap ==> s.heap[p].deleted }

  lemma StepGone(s: Sys, step: Step, p: Ptr, since: nat)
    requires Gone(s, p) && NoRuns(s, since, p) && Defined(s, step) && step != New(p)
    ensures Gone(Apply(s, step), p) && NoRuns(Apply(s, step), since, p)
  {
    hide Kept, DueNow;
  }

  lemma {:induction false} StaysGone(s: Sys, steps: seq<Step>, p: Ptr, since: nat)
    requires Gone(s, p) && NoRuns(s, since, p) && ValidRun(s, steps) && New(p) !in steps
    ensures Gone(Exec(s, steps), p) && NoRuns(Exec(s, steps), since, p)
    decreases |steps|
  {
    hide Apply, Enabled, Gone, NoRuns;
    if steps == [] {
    } else {
      StepGone(s, steps[0], p, since);
      StaysGone(Apply(s, steps[0]), steps[1..], p, since);
    }
  }

  /** A deleted bottom half does not run, however it is scheduled and polled, until
      its address is given to a new one. */
  lemma DeletedNeverRuns(s: Sys, p: Ptr, steps: seq<Step>)
    requires Enabled(s, Delete(p)) && ValidRun(Apply(s, Delete(p)), steps) && New(p) !in steps
    ensures NoRuns(Exec(Apply(s, Delete(p)), steps), |s.log|, p)
  {
    hide ValidRun, Exec;
    StaysGone(Apply(s, Delete(p)), steps, p, |s.log|);
  }

  /** And it is off the heap as soon as the outermost poll has finished. */
  lemma DeletedIsFreed(s: Sys, p: Ptr, steps: seq<Step>)
    requires Inv(s) && Enabled(s, Delete(p)) && ValidRun(Apply(s, Delete(p)), steps) && New(p) !in steps
    requires var e := Exec(Apply(s, Delete(p)), steps); Enabled(e, Finish) && |e.stack| == 1
    ensures p !in Apply(Exec(Apply(s, Delete(p)), steps), Finish).heap
  {
    hide ValidRun, Exec, FramesOk, RunsPaid, Kept;
    var m := Apply(s, Delete(p));
    var e := Exec(m, steps);
    StaysGone(m, steps, p, |s.log|);
    StepInv(s, Delete(p));
    RunInv(m, steps);
    AllLive(e);
    KeptFacts(e.heap, e.list);
  }

  lemma AllLive(s: Sys)
    requires Inv(s)
    ensures (forall p :: p in s.list ==> p in s.heap) && Distinct(s.list)
  {
  }

  // ---------------------------------------------------------------- cancellation

  ghost predicate Idle(s: Sys, p: Ptr) { p in s.heap ==> !s.heap[p].scheduled }

  lemma StepIdle(s: Sys, step: Step, p: Ptr, since: nat)
    requires Idle(s, p) && NoRuns(s, since, p) && Defined(s, step) && !(step.Schedule? && step.p == p)
    ensures Idle(Apply(s, step), p) && NoRuns(Apply(s, step), since, p)
  {
    hide Kept, DueNow;
  }

  ghost predicate NotScheduled(steps: seq<Step>, p: Ptr) {
    forall i :: 0 <= i < |steps| ==> !(steps[i].Schedule? && steps[i].p == p)
  }

  lemma {:induction false} StaysIdle(s: Sys, steps: seq<Step>, p: Ptr, since: nat)
    requires Idle(s, p) && NoRuns(s, since, p) && ValidRun(s, steps) && NotScheduled(steps, p)
    ensures Idle(Exec(s, steps), p) && NoRuns(Exec(s, steps), since, p)
    decreases |steps|
  {
    hide Apply, Enabled, Idle, NoRuns;
    if steps == [] {
    } else {
      StepIdle(s, steps[0], p, since);
      StaysIdle(Apply(s, steps[0]), steps[1..], p, since);
    }
  }

  /** A cancelled bottom half does not run before it is scheduled again. */
  lemma CancelledWaits(s: Sys, p: Ptr, steps: seq<Step>)
    requires Enabled(s, Cancel(p)) && ValidRun(Apply(s, Cancel(p)), steps) && NotScheduled(steps, p)
    ensures NoRuns(Exec(Apply(s, Cancel(p)), steps), |s.log|, p)
  {
    hide ValidRun, Exec;
    StaysIdle(Apply(s, Cancel(p)), steps, p, |s.log|);
  }

  // ------------------------------------------------------------------- schedules

  function ScheduleSteps(steps: seq<Step>, p: Ptr): nat {
    if steps == [] then 0
    else (if steps[0].Schedule? && steps[0].p == p then 1 else 0) + ScheduleSteps(steps[1..], p)
  }

  lemma StepSchedules(s: Sys, step: Step, p: Ptr)
    requires Defined(s, step)
    ensures Count(Apply(s, step).log, Scheduled(p)) <=
            Count(s.log, Scheduled(p)) + if step.Schedule? && step.p == p then 1 else 0
  {
    hide Count, Kept, DueNow, Relink;
    var e := Apply(s, step);
    if e.log != s.log { CountAppend(s.log, Scheduled(p), e.log[|s.log|]); }
  }

  lemma {:induction false} RunSchedules(s: Sys, steps: seq<Step>, p: Ptr)
    requires ValidRun(s, steps)
    ensures Count(Exec(s, steps).log, Scheduled(p)) <= Count(s.log, Scheduled(p)) + ScheduleSteps(steps, p)
    decreases |steps|
  {
    hide Apply, Enabled, Count;
    if steps == [] {
    } else {
      StepSchedules(s, steps[0], p);
      RunSchedules(Apply(s, steps[0]), steps[1..], p);
    }
  }

  /** Over every run nothing runs more often than it is asked to. */
  lemma RunsAskedFor(s: Sys, steps: seq<Step>, p: Ptr)
    requires Initial(s) && ValidRun(s, steps)
    ensures Count(Exec(s, steps).log, Ran(p)) <= ScheduleSteps(steps, p)
  {
    hide Apply, Enabled, ValidRun, Exec;
    OneRunPerSchedule(s, steps, p);
    RunSchedules(s, steps, p);
  }

  // ----------------------------------------------------------------------- polls

  /** The walk at position `k` of the stack is active all along. */
  ghost predicate Within(s: Sys, steps: seq<Step>, k: nat)
    requires ValidRun(s, steps)
    decreases |steps|
  {
    |s.stack| > k && (steps == [] || Within(Apply(s, steps[0]), steps[1..], k))
  }

  ghost predicate LeftAlone(steps: seq<Step>, p: Ptr) {
    forall i :: 0 <= i < |steps| ==> steps[i] != Cancel(p) && steps[i] != Delete(p)
  }

  ghost predicate Owes(s: Sys, k: nat, since: nat, p: Ptr) {
    k < |s.stack| && s.stack[k].since == since && p in s.stack[k].due
  }

  lemma StepOwes(s: Sys, step: Step, k: nat, since: nat, p: Ptr)
    requires Owes(s, k, since, p) && Defined(s, step) && step != Cancel(p) && step != Delete(p)
    requires |Apply(s, step).stack| > k
    ensures Owes(Apply(s, step), k, since, p)
  {
    hide Kept, DueNow, Relink;
  }

  lemma {:induction false} StillOwes(s: Sys, steps: seq<Step>, k: nat, since: nat, p: Ptr)
    requires Owes(s, k, since, p) && ValidRun(s, steps) && Within(s, steps, k) && LeftAlone(steps, p)
    ensures Owes(Exec(s, steps), k, since, p)
    decreases |steps|
  {
    hide Apply, Enabled, Owes;
    if steps == [] {
    } else {
      assert Within(Apply(s, steps[0]), steps[1..], k);
      StepOwes(s, steps[0], k, since, p);
      StillOwes(Apply(s, steps[0]), steps[1..], k, since, p);
    }
  }

  /** Whatever is ready when a poll begins, and is neither cancelled nor deleted while
      the poll is active, has run when it ends, in this walk or a nested one. */
  lemma PollRunsWhatIsDue(s: Sys, p: Ptr, steps: seq<Step>)
    requires Inv(s) && Enabled(s, Poll) && Ready(s.heap, p)
    requires ValidRun(Apply(s, Poll), steps) && Within(Apply(s, Poll), steps, |s.stack|) && LeftAlone(steps, p)
    requires var e := Exec(Apply(s, Poll), steps); |e.stack| == |s.stack| + 1 && Enabled(e, Finish)
    ensures RanSince(Exec(Apply(s, Poll), steps).log, |s.log|, p)
  {
    hide ValidRun, Exec, Within, RunsPaid, Linked;
    var m := Apply(s, Poll);
    var e := Exec(m, steps);
    StillOwes(m, steps, |s.stack|, |s.log|, p);
    StepInv(s, Poll);
    RunInv(m, steps);
    FinishedWalk(e, p);
  }

  lemma FinishedWalk(s: Sys, p: Ptr)
    requires Inv(s) && Enabled(s, Finish) && p in Top(s).due
    ensures RanSince(s.log, Top(s).since, p)
  {
    hide RunsPaid;
    assert FrameOk(s, Top(s));
  }

  // ----------------------------------------------------------------------- kinds

  /** Scheduled with this kind and not run since. */
  ghost predicate Pending(s: Sys, p: Ptr, idle: bool, since: nat) {
    |s.notes| == |s.log| && NoRuns(s, since, p) && Ready(s.heap, p) && s.heap[p].idle == idle
  }

  /** The first run since then was of this kind. */
  ghost predicate RanAs(s: Sys, p: Ptr, idle: bool, since: nat) {
    |s.notes| == |s.log| &&
    exists i :: since <= i < |s.log| && s.log[i] == Ran(p) && s.notes[i].idle == idle &&
      forall j :: since <= j < i ==> s.log[j] != Ran(p)
  }

  lemma StepPending(s: Sys, step: Step, p: Ptr, idle: bool, since: nat)
    requires Pending(s, p, idle, since) && Defined(s, step) && step != Cancel(p) && step != Delete(p)
    requires Inv(s)
    ensures var e := Apply(s, step); Pending(e, p, idle, since) || RanAs(e, p, idle, since)
  {
    hide DueNow, FramesOk, RunsPaid, Kept;
    var e := Apply(s, step);
    if step.Finish? {
      AllLive(s);
      KeptFacts(s.heap, s.list);
    }
    if e.log == s.log + [Ran(p)] {
      assert e.log[|s.log|] == Ran(p) && e.notes[|s.log|].idle == idle;
      assert forall j :: since <= j < |s.log| ==> e.log[j] == s.log[j];
    }
  }

  lemma StepRanAs(s: Sys, step: Step, p: Ptr, idle: bool, since: nat)
    requires RanAs(s, p, idle, since) && Defined(s, step)
    ensures RanAs(Apply(s, step), p, idle, since)
  {
    hide DueNow, Kept, Relink;
    var e := Apply(s, step);
    var i :| since <= i < |s.log| && s.log[i] == Ran(p) && s.notes[i].idle == idle &&
             forall j :: since <= j < i ==> s.log[j] != Ran(p);
    assert e.log[i] == s.log[i] && e.notes[i] == s.notes[i];
    assert forall j :: since <= j < i ==> e.log[j] == s.log[j];
  }

  lemma {:induction false} RunPending(s: Sys, steps: seq<Step>, p: Ptr, idle: bool, since: nat)
    requires Inv(s) && ValidRun(s, steps) && LeftAlone(steps, p)
    requires Pending(s, p, idle, since) || RanAs(s, p, idle, since)
    ensures var e := Exec(s, steps); Pending(e, p, idle, since) || RanAs(e, p, idle, since)
    decreases |steps|
  {
    hide Apply, Enabled, Inv, Pending, RanAs;
    if steps == [] {
    } else {
      if Pending(s, p, idle, since) {
        StepPending(s, steps[0], p, idle, since);
      } else {
        StepRanAs(s, steps[0], p, idle, since);
      }
      StepInv(s, steps[0]);
      RunPending(Apply(s, steps[0]), steps[1..], p, idle, since);
    }
  }

  /** A bottom half that is scheduled, and then neither cancelled nor deleted, either
      still waits or has first run as the kind it was scheduled as. */
  lemma RunsAsScheduled(s: Sys, p: Ptr, idle: bool, steps: seq<Step>)
    requires Inv(s) && |s.notes| == |s.log| && Enabled(s, Schedule(p, idle))
    requires !s.heap[p].scheduled && !s.heap[p].deleted
    requires ValidRun(Apply(s, Schedule(p, idle)), steps) && LeftAlone(steps, p)
    ensures var e := Exec(Apply(s, Schedule(p, idle)), steps);
            Pending(e, p, idle, |s.log|) || RanAs(e, p, idle, |s.log|)
  {
    hide Inv, ValidRun, Exec;
    StepInv(s, Schedule(p, idle));
    RunPending(Apply(s, Schedule(p, idle)), steps, p, idle, |s.log|);
  }
}
