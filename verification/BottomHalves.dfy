/** Bottom halves: a linked list of callbacks that may create, schedule, cancel,
    delete and poll while the list is being walked, to any depth. */
module BottomHalves {
  import opened Wrappers

  type Ptr = nat

  datatype Bh = Bh(scheduled: bool, idle: bool, deleted: bool, next: Option<Ptr>)

  datatype Event = Scheduled(p: Ptr) | Ran(p: Ptr)

  /** What goes with an event: the number of active walks, and whether the bottom
      half is of the idle kind. */
  datatype Note = Note(depth: nat, idle: bool)

  /** An active walk: the saved next pointer and the callback it is inside of.
      `left` nodes of the list are still ahead; `due` are the bottom halves that
      were scheduled when it began, at log position `since`, and left alone. */
  datatype Frame = Frame(next: Option<Ptr>, running: Option<Ptr>, ret: bool, left: nat, since: nat, due: set<Ptr>)

  /** The nodes on the heap, the anchor of the list, the active walks (the nesting
      depth is their number), the nodes in list order and what has happened, with a
      note to each event. */
  datatype Sys = Sys(
    heap: map<Ptr, Bh>, first: Option<Ptr>, stack: seq<Frame>, list: seq<Ptr>,
    log: seq<Event>, notes: seq<Note>)

  function LinkAt(list: seq<Ptr>, i: nat): Option<Ptr> {
    if i < |list| then Some(list[i]) else None
  }

  ghost predicate NodeOk(heap: map<Ptr, Bh>, list: seq<Ptr>, i: nat) {
    i < |list| && list[i] in heap && heap[list[i]].next == LinkAt(list, i + 1)
  }

  ghost predicate Distinct(list: seq<Ptr>) {
    forall i, j :: 0 <= i < j < |list| ==> list[i] != list[j]
  }

  /** The links on the heap spell out `list`, and nothing else is on it. */
  ghost predicate Linked(heap: map<Ptr, Bh>, first: Option<Ptr>, list: seq<Ptr>) {
    && first == LinkAt(list, 0)
    && (forall i: nat :: i < |list| ==> NodeOk(heap, list, i))
    && Distinct(list)
    && (forall p :: p in heap <==> p in list)
  }

  // --------------------------------------------------------------------- sweep

  function Kept(heap: map<Ptr, Bh>, list: seq<Ptr>): seq<Ptr> {
    if list == [] then []
    else
      var front, p := Kept(heap, list[..|list| - 1]), list[|list| - 1];
      if p in heap && heap[p].deleted then front else front + [p]
  }

  /** The heap that links `keep`, with the flags of `heap`. */
  function Relink(heap: map<Ptr, Bh>, keep: seq<Ptr>): map<Ptr, Bh> {
    map p | p in keep && p in heap :: heap[p].(next := NextIn(keep, p))
  }

  function NextIn(keep: seq<Ptr>, p: Ptr): Option<Ptr> {
    if keep == [] then None
    else if keep[0] == p then LinkAt(keep, 1)
    else NextIn(keep[1..], p)
  }

  // --------------------------------------------------------------------- steps

  datatype Step =
    | New(p: Ptr)
    | Schedule(p: Ptr, idle: bool)
    | Cancel(p: Ptr)
    | Delete(p: Ptr)
    | Poll
    | Visit
    | Return
    | Finish

  /** Ordinary code runs: no walk is active, or the innermost is in a callback. */
  predicate InCode(s: Sys) {
    s.stack == [] || s.stack[|s.stack| - 1].running.Some?
  }

  function Top(s: Sys): Frame
    requires s.stack != []
  {
    s.stack[|s.stack| - 1]
  }

  /** What callers must respect; that the walk itself only touches live nodes is
      not assumed but proved. */
  predicate Enabled(s: Sys, step: Step) {
    match step
    case New(p) => InCode(s) && p !in s.heap
    case Schedule(p, _) => InCode(s) && p in s.heap
    case Cancel(p) => InCode(s) && p in s.heap
    case Delete(p) => InCode(s) && p in s.heap
    case Poll => InCode(s)
    case Visit => !InCode(s) && Top(s).next.Some?
    case Return => s.stack != [] && Top(s).running.Some?
    case Finish => !InCode(s) && Top(s).next.None?
  }

  predicate Ready(heap: map<Ptr, Bh>, p: Ptr) {
    p in heap && heap[p].scheduled && !heap[p].deleted
  }

  function LeaveAlone(stack: seq<Frame>, p: Ptr): (r: seq<Frame>)
    ensures |r| == |stack|
    ensures forall i :: 0 <= i < |stack| ==> r[i] == stack[i].(due := stack[i].due - {p})
  {
    seq(|stack|, i requires 0 <= i < |stack| => stack[i].(due := stack[i].due - {p}))
  }

  function SetTop(s: Sys, f: Frame): seq<Frame>
    requires s.stack != []
  {
    s.stack[..|s.stack| - 1] + [f]
  }

  /** `Visit` of a dangling pointer would have no defined effect. */
  function Apply(s: Sys, step: Step): Sys
    requires Enabled(s, step) && (step.Visit? ==> Top(s).next.value in s.heap)
  {
    match step
    case New(p) =>
      s.(heap := s.heap[p := Bh(false, false, false, s.first)], first := Some(p), list := [p] + s.list)
    case Schedule(p, idle) =>
      if s.heap[p].scheduled then s
      else
        s.(heap := s.heap[p := s.heap[p].(scheduled := true, idle := idle)],
           log := s.log + [Scheduled(p)], notes := s.notes + [Note(|s.stack|, idle)])
    case Cancel(p) =>
      s.(heap := s.heap[p := s.heap[p].(scheduled := false)], stack := LeaveAlone(s.stack, p))
    case Delete(p) =>
      s.(heap := s.heap[p := s.heap[p].(scheduled := false, deleted := true)], stack := LeaveAlone(s.stack, p))
    case Poll =>
      s.(stack := s.stack + [Frame(s.first, None, false, |s.list|, |s.log|, DueNow(s.heap))])
    case Visit =>
      var f := Top(s);
      var p := f.next.value;
      var bh := s.heap[p];
      var moved := f.(next := bh.next, left := if f.left > 0 then f.left - 1 else 0);
      if !bh.deleted && bh.scheduled then
        s.(heap := s.heap[p := bh.(scheduled := false, idle := false)],
           stack := SetTop(s, moved.(running := Some(p), ret := f.ret || !bh.idle)),
           log := s.log + [Ran(p)], notes := s.notes + [Note(|s.stack|, bh.idle)])
      else s.(stack := SetTop(s, moved))
    case Return => s.(stack := SetTop(s, Top(s).(running := None)))
    case Finish =>
      var stack := s.stack[..|s.stack| - 1];
      if stack != [] then s.(stack := stack)
      else
        var keep := Kept(s.heap, s.list);
        s.(stack := [], heap := Relink(s.heap, keep), first := LinkAt(keep, 0), list := keep)
  }

  function DueNow(heap: map<Ptr, Bh>): set<Ptr> {
    set p | p in heap && Ready(heap, p)
  }

  // ----------------------------------------------------------------- invariant

  ghost predicate RanSince(log: seq<Event>, since: nat, p: Ptr) {
    exists i :: since <= i < |log| && log[i] == Ran(p)
  }

  /** Among the last `left` nodes of the list. */
  ghost predicate Ahead(list: seq<Ptr>, left: nat, p: Ptr) {
    exists i :: 0 <= i < |list| <= i + left && list[i] == p
  }

  /** A walk's saved pointer is the list node with `left` nodes ahead, and whoever
      was due has run or is still ready and ahead. */
  ghost predicate FrameOk(s: Sys, f: Frame) {
    && f.left <= |s.list| && f.next == LinkAt(s.list, |s.list| - f.left) && f.since <= |s.log|
    && forall p :: p in f.due ==> RanSince(s.log, f.since, p) || (Ready(s.heap, p) && Ahead(s.list, f.left, p))
  }

  ghost predicate FramesOk(s: Sys) {
    forall i :: 0 <= i < |s.stack| ==> FrameOk(s, s.stack[i])
  }

  function Count(log: seq<Event>, e: Event): nat {
    if log == [] then 0 else Count(log[..|log| - 1], e) + if log[|log| - 1] == e then 1 else 0
  }

  lemma CountAppend(log: seq<Event>, e: Event, x: Event)
    ensures Count(log + [x], e) == Count(log, e) + if x == e then 1 else 0
  {
    assert (log + [x])[..|log|] == log;
  }

  /** A bottom half has run at most as often as it has been scheduled, one pending
      schedule included. */
  ghost predicate RunsPaid(s: Sys) {
    forall p :: Count(s.log, Ran(p)) +
             (if p in s.heap && s.heap[p].scheduled then 1 else 0) <= Count(s.log, Scheduled(p))
  }

  ghost predicate Inv(s: Sys) {
    Linked(s.heap, s.first, s.list) && FramesOk(s) && RunsPaid(s)
  }

  /** The walk never follows a pointer to a freed node. */
  lemma WalkIsSafe(s: Sys)
    requires Inv(s) && Enabled(s, Visit)
    ensures Top(s).next.value in s.heap && Top(s).left > 0
    ensures Top(s).next.value == s.list[|s.list| - Top(s).left]
  {
    hide RunsPaid;
    var f := Top(s);
    assert FrameOk(s, f);
    assert NodeOk(s.heap, s.list, |s.list| - f.left);
  }

  // --------------------------------------------------------------- sweep proved

  lemma {:induction false} KeptFacts(heap: map<Ptr, Bh>, list: seq<Ptr>)
    requires (forall p :: p in list ==> p in heap) && Distinct(list)
    ensures var k := Kept(heap, list);
            Distinct(k) && forall p :: p in k <==> p in list && !heap[p].deleted
  {
    if list == [] {
    } else {
      var front, p := list[..|list| - 1], list[|list| - 1];
      KeptFacts(heap, front);
      assert list == front + [p];
      assert p !in front;
    }
  }

  lemma {:induction false} NextInList(keep: seq<Ptr>, i: nat)
    requires i < |keep| && Distinct(keep)
    ensures NextIn(keep, keep[i]) == LinkAt(keep, i + 1)
    decreases |keep|
  {
    if i == 0 {
    } else {
      assert keep[1..][i - 1] == keep[i];
      NextInList(keep[1..], i - 1);
    }
  }

  lemma SweepLinked(heap: map<Ptr, Bh>, first: Option<Ptr>, list: seq<Ptr>)
    requires Linked(heap, first, list)
    ensures var keep := Kept(heap, list); Linked(Relink(heap, keep), LinkAt(keep, 0), keep)
  {
    hide NodeOk, Kept, NextIn;
    var keep := Kept(heap, list);
    KeptFacts(heap, list);
    forall i: nat | i < |keep| ensures NodeOk(Relink(heap, keep), keep, i) {
      RelinkedNode(heap, keep, i);
    }
  }

  lemma RelinkedNode(heap: map<Ptr, Bh>, keep: seq<Ptr>, i: nat)
    requires i < |keep| && Distinct(keep) && keep[i] in heap
    ensures NodeOk(Relink(heap, keep), keep, i)
  {
    assert keep[i] in keep;
    NextInList(keep, i);
  }

  // -------------------------------------------------------------- preservation

  /** Changing flags of one node keeps the links. */
  lemma FlagsLinked(heap: map<Ptr, Bh>, first: Option<Ptr>, list: seq<Ptr>, p: Ptr, bh: Bh)
    requires Linked(heap, first, list) && p in heap && bh.next == heap[p].next
    ensures Linked(heap[p := bh], first, list)
  {
    var h := heap[p := bh];
    forall i: nat | i < |list| ensures NodeOk(h, list, i) {
      assert NodeOk(heap, list, i);
    }
  }

  lemma NewLinked(heap: map<Ptr, Bh>, first: Option<Ptr>, list: seq<Ptr>, p: Ptr)
    requires Linked(heap, first, list) && p !in heap
    ensures Linked(heap[p := Bh(false, false, false, first)], Some(p), [p] + list)
  {
    var h, l := heap[p := Bh(false, false, false, first)], [p] + list;
    forall i: nat | i < |l| ensures NodeOk(h, l, i) {
      if i > 0 { assert NodeOk(heap, list, i - 1); }
    }
    assert p !in list;
  }

  /** A walk stays right when the log grows and nodes still due stay ready. */
  lemma FrameKept(s: Sys, e: Sys, f: Frame, g: Frame)
    requires FrameOk(s, f) && g.since == f.since && g.left == f.left && g.next == f.next && g.due <= f.due
    requires s.log <= e.log && (e.list == s.list || (|e.list| == |s.list| + 1 && e.list[1..] == s.list))
    requires forall q :: q in g.due && Ready(s.heap, q) ==> Ready(e.heap, q)
    ensures FrameOk(e, g)
  {
    hide Ready;
    forall q | q in g.due ensures RanSince(e.log, g.since, q) || (Ready(e.heap, q) && Ahead(e.list, g.left, q)) {
      if RanSince(s.log, f.since, q) {
        var i :| f.since <= i < |s.log| && s.log[i] == Ran(q);
        assert e.log[i] == Ran(q);
      } else {
        var j :| 0 <= j < |s.list| <= j + f.left && s.list[j] == q;
        assert e.list[j + |e.list| - |s.list|] == q;
      }
    }
    if |e.list| == |s.list| + 1 && f.left > 0 {
      assert e.list[|e.list| - f.left] == e.list[1..][|s.list| - f.left];
    }
  }

  /** The ledger of schedules and runs after one more event. */
  lemma PaidAfter(s: Sys, e: Sys, x: Event)
    requires RunsPaid(s) && e.log == s.log + [x]
    requires forall q :: q in e.heap && q != x.p ==> q in s.heap && e.heap[q].scheduled == s.heap[q].scheduled
    requires x.p in s.heap && x.p in e.heap && (x.Ran? ==> s.heap[x.p].scheduled && !e.heap[x.p].scheduled)
    requires x.Scheduled? ==> !s.heap[x.p].scheduled
    ensures RunsPaid(e)
  {
    hide Count;
    forall q ensures Count(e.log, Ran(q)) +
             (if q in e.heap && e.heap[q].scheduled then 1 else 0) <= Count(e.log, Scheduled(q)) {
      CountAppend(s.log, Ran(q), x);
      CountAppend(s.log, Scheduled(q), x);
    }
  }

  lemma PaidStill(s: Sys, e: Sys)
    requires RunsPaid(s) && e.log == s.log
    requires forall q :: q in e.heap && e.heap[q].scheduled ==> q in s.heap && s.heap[q].scheduled
    ensures RunsPaid(e)
  {
    hide Count;
  }

  lemma NewInv(s: Sys, p: Ptr)
    requires Inv(s) && Enabled(s, New(p))
    ensures Inv(Apply(s, New(p)))
  {
    hide Linked, FrameOk, RunsPaid;
    var e := Apply(s, New(p));
    NewLinked(s.heap, s.first, s.list, p);
    PaidStill(s, e);
    forall i | 0 <= i < |e.stack| ensures FrameOk(e, e.stack[i]) {
      FrameKept(s, e, s.stack[i], e.stack[i]);
    }
  }

  lemma ScheduleInv(s: Sys, p: Ptr, idle: bool)
    requires Inv(s) && Enabled(s, Schedule(p, idle))
    ensures Inv(Apply(s, Schedule(p, idle)))
  {
    hide Linked, FrameOk, RunsPaid;
    if !s.heap[p].scheduled {
      var e := Apply(s, Schedule(p, idle));
      FlagsLinked(s.heap, s.first, s.list, p, e.heap[p]);
      PaidAfter(s, e, Scheduled(p));
      forall i | 0 <= i < |e.stack| ensures FrameOk(e, e.stack[i]) {
        FrameKept(s, e, s.stack[i], e.stack[i]);
      }
    }
  }

  /** Cancelling and deleting: the bottom half no longer counts as left alone. */
  lemma WithdrawInv(s: Sys, p: Ptr, step: Step)
    requires Inv(s) && Enabled(s, step) && (step == Cancel(p) || step == Delete(p))
    ensures Inv(Apply(s, step))
  {
    hide Linked, FrameOk, RunsPaid;
    var e := Apply(s, step);
    FlagsLinked(s.heap, s.first, s.list, p, e.heap[p]);
    PaidStill(s, e);
    forall i | 0 <= i < |e.stack| ensures FrameOk(e, e.stack[i]) {
      FrameKept(s, e, s.stack[i], e.stack[i]);
    }
  }

  lemma NewFrameOk(s: Sys)
    requires Linked(s.heap, s.first, s.list)
    ensures FrameOk(s, Frame(s.first, None, false, |s.list|, |s.log|, DueNow(s.heap)))
  {
    forall p | p in DueNow(s.heap) ensures Ahead(s.list, |s.list|, p) {
      assert p in s.list;
    }
  }

  lemma PollInv(s: Sys)
    requires Inv(s) && Enabled(s, Poll)
    ensures Inv(Apply(s, Poll))
  {
    hide Linked, FrameOk, RunsPaid, DueNow;
    var e := Apply(s, Poll);
    PaidStill(s, e);
    NewFrameOk(s);
    forall i | 0 <= i < |e.stack| ensures FrameOk(e, e.stack[i]) {
      var f := if i < |s.stack| then s.stack[i] else e.stack[i];
      FrameKept(s, e, f, e.stack[i]);
    }
  }

  /** The walk that visits a node: the node has run or was not ready. */
  lemma WalkerOk(s: Sys, e: Sys, g: Frame)
    requires Inv(s) && Enabled(s, Visit) && Top(s).next.value in s.heap && e == Apply(s, Visit)
    requires g.since == Top(s).since && g.due == Top(s).due && g.left == Top(s).left - 1 &&
             g.next == s.heap[Top(s).next.value].next
    ensures FrameOk(e, g)
  {
    hide RunsPaid, Distinct;
    WalkIsSafe(s);
    var f, p := Top(s), Top(s).next.value;
    assert FrameOk(s, f);
    assert NodeOk(s.heap, s.list, |s.list| - f.left);
    forall q | q in g.due ensures RanSince(e.log, g.since, q) || (Ready(e.heap, q) && Ahead(e.list, g.left, q)) {
      if RanSince(s.log, f.since, q) {
        if Ready(s.heap, p) { RanLater(s.log, Ran(p), f.since, q); }
      } else if q == p {
        assert e.log[|s.log|] == Ran(p);
      } else {
        var j :| 0 <= j < |s.list| <= j + f.left && s.list[j] == q;
        assert e.list[j] == q;
      }
    }
  }

  lemma RanLater(log: seq<Event>, e: Event, since: nat, p: Ptr)
    requires RanSince(log, since, p)
    ensures RanSince(log + [e], since, p)
  {
    var i :| since <= i < |log| && log[i] == Ran(p);
    assert (log + [e])[i] == Ran(p);
  }

  /** The other walks: what was due and has just run is accounted for. */
  lemma BystanderOk(s: Sys, e: Sys, f: Frame)
    requires FrameOk(s, f) && e.list == s.list
    requires (e.log == s.log && e.heap == s.heap) ||
             exists p :: e.log == s.log + [Ran(p)] && forall q :: q != p && Ready(s.heap, q) ==> Ready(e.heap, q)
    ensures FrameOk(e, f)
  {
    hide Ready;
    if !(e.log == s.log && e.heap == s.heap) {
      var p :| e.log == s.log + [Ran(p)] && forall q :: q != p && Ready(s.heap, q) ==> Ready(e.heap, q);
      forall q | q in f.due ensures RanSince(e.log, f.since, q) || (Ready(e.heap, q) && Ahead(e.list, f.left, q)) {
        if RanSince(s.log, f.since, q) {
          RanLater(s.log, Ran(p), f.since, q);
        } else if q == p {
          assert e.log[|s.log|] == Ran(p);
        }
      }
    }
  }

  lemma VisitEffect(s: Sys)
    requires Inv(s) && Enabled(s, Visit) && Top(s).next.value in s.heap
    ensures var e, p := Apply(s, Visit), Top(s).next.value;
            && Linked(e.heap, e.first, e.list) && RunsPaid(e)
            && ((e.log == s.log && e.heap == s.heap) ||
                (e.log == s.log + [Ran(p)] && forall q :: q != p && Ready(s.heap, q) ==> Ready(e.heap, q)))
  {
    hide Linked, FrameOk, RunsPaid;
    var e, p := Apply(s, Visit), Top(s).next.value;
    if Ready(s.heap, p) {
      FlagsLinked(s.heap, s.first, s.list, p, e.heap[p]);
      PaidAfter(s, e, Ran(p));
    } else {
      PaidStill(s, e);
    }
  }

  lemma VisitInv(s: Sys)
    requires Inv(s) && Enabled(s, Visit)
    ensures Top(s).next.value in s.heap && Inv(Apply(s, Visit))
  {
    hide Linked, FrameOk, RunsPaid, Ready;
    WalkIsSafe(s);
    VisitEffect(s);
    var e := Apply(s, Visit);
    forall i | 0 <= i < |e.stack| ensures FrameOk(e, e.stack[i]) {
      if i < |s.stack| - 1 {
        BystanderOk(s, e, s.stack[i]);
      } else {
        WalkerOk(s, e, e.stack[i]);
      }
    }
  }

  lemma FinishInv(s: Sys)
    requires Inv(s) && Enabled(s, Finish)
    ensures Inv(Apply(s, Finish))
  {
    hide Linked, FrameOk, RunsPaid, Kept, NextIn;
    var e := Apply(s, Finish);
    PaidStill(s, e);
    SweepLinked(s.heap, s.first, s.list);
    if e.stack != [] {
      forall i | 0 <= i < |e.stack| ensures FrameOk(e, e.stack[i]) {
        FrameKept(s, e, s.stack[i], e.stack[i]);
      }
    }
  }

  lemma ReturnInv(s: Sys)
    requires Inv(s) && Enabled(s, Return)
    ensures Inv(Apply(s, Return))
  {
    hide Linked, FrameOk, RunsPaid;
    var e := Apply(s, Return);
    PaidStill(s, e);
    forall i | 0 <= i < |e.stack| ensures FrameOk(e, e.stack[i]) {
      FrameKept(s, e, s.stack[i], e.stack[i]);
    }
  }

  lemma StepInv(s: Sys, step: Step)
    requires Inv(s) && Enabled(s, step)
    ensures step.Visit? ==> Top(s).next.value in s.heap
    ensures Inv(Apply(s, step))
  {
    hide Inv;
    match step
    case New(p) => NewInv(s, p);
    case Schedule(p, idle) => ScheduleInv(s, p, idle);
    case Cancel(p) => WithdrawInv(s, p, step);
    case Delete(p) => WithdrawInv(s, p, step);
    case Poll => PollInv(s);
    case Visit => VisitInv(s);
    case Return => ReturnInv(s);
    case Finish => FinishInv(s);
  }

  // ---------------------------------------------------------------------- runs

  predicate Initial(s: Sys) {
    s.heap == map[] && s.first == None && s.stack == [] && s.list == [] && s.log == [] && s.notes == []
  }

  predicate Defined(s: Sys, step: Step) {
    Enabled(s, step) && (step.Visit? ==> Top(s).next.value in s.heap)
  }

  ghost predicate ValidRun(s: Sys, steps: seq<Step>)
    decreases |steps|
  {
    steps == [] || (Defined(s, steps[0]) && ValidRun(Apply(s, steps[0]), steps[1..]))
  }

  ghost function Exec(s: Sys, steps: seq<Step>): Sys
    requires ValidRun(s, steps)
    decreases |steps|
  {
    if steps == [] then s else Exec(Apply(s, steps[0]), steps[1..])
  }

  lemma {:induction false} RunInv(s: Sys, steps: seq<Step>)
    requires Inv(s) && ValidRun(s, steps)
    ensures Inv(Exec(s, steps))
    decreases |steps|
  {
    hide Inv, Enabled, Apply;
    if steps == [] {
    } else {
      StepInv(s, steps[0]);
      RunInv(Apply(s, steps[0]), steps[1..]);
    }
  }

  // -------------------------------------------------------- the result of a poll

  /** The walk at this depth has run a bottom half that was not idle. */
  ghost predicate RanHurried(s: Sys, since: nat, depth: nat)
    requires |s.notes| == |s.log|
  {
    exists i :: since <= i < |s.log| && s.log[i].Ran? && s.notes[i] == Note(depth, false)
  }

  ghost predicate ResultsOk(s: Sys) {
    && |s.notes| == |s.log|
    && forall k :: 0 <= k < |s.stack| ==>
         s.stack[k].since <= |s.log| && (s.stack[k].ret <==> RanHurried(s, s.stack[k].since, k + 1))
  }

  /** One more event: it counts for the walk at its depth, if it is a hurried run. */
  lemma HurriedAppend(s: Sys, e: Sys, event: Event, note: Note, since: nat, depth: nat)
    requires |s.notes| == |s.log| && since <= |s.log|
    requires e.log == s.log + [event] && e.notes == s.notes + [note]
    ensures RanHurried(e, since, depth) <==> RanHurried(s, since, depth) || (event.Ran? && note == Note(depth, false))
  {
    assert e.log[|s.log|] == event && e.notes[|s.log|] == note;
    if RanHurried(s, since, depth) {
      var i :| since <= i < |s.log| && s.log[i].Ran? && s.notes[i] == Note(depth, false);
      assert e.log[i] == s.log[i] && e.notes[i] == s.notes[i];
    }
  }

  lemma SameHurried(s: Sys, e: Sys, since: nat, depth: nat)
    requires |s.notes| == |s.log| && e.log == s.log && e.notes == s.notes
    ensures RanHurried(e, since, depth) <==> RanHurried(s, since, depth)
  {
  }

  lemma StepResults(s: Sys, step: Step)
    requires ResultsOk(s) && Defined(s, step)
    ensures ResultsOk(Apply(s, step))
  {
    hide RanHurried, DueNow, Relink, Kept;
    var e := Apply(s, step);
    forall k | 0 <= k < |e.stack|
      ensures e.stack[k].since <= |e.log| && (e.stack[k].ret <==> RanHurried(e, e.stack[k].since, k + 1))
    {
      if e.log != s.log {
        HurriedAppend(s, e, e.log[|s.log|], e.notes[|s.log|], e.stack[k].since, k + 1);
      } else {
        SameHurried(s, e, e.stack[k].since, k + 1);
        if step.Poll? && k == |s.stack| { NothingYet(s, k + 1); }
      }
    }
  }

  lemma NothingYet(s: Sys, depth: nat)
    requires |s.notes| == |s.log|
    ensures !RanHurried(s, |s.log|, depth)
  {
  }

  lemma {:induction false} RunResults(s: Sys, steps: seq<Step>)
    requires ResultsOk(s) && ValidRun(s, steps)
    ensures ResultsOk(Exec(s, steps))
    decreases |steps|
  {
    hide ResultsOk, Enabled, Apply;
    if steps == [] {
    } else {
      StepResults(s, steps[0]);
      RunResults(Apply(s, steps[0]), steps[1..]);
    }
  }

  /** When a poll ends, at whatever depth, its result is true if and only if this
      walk itself ran a bottom half that was not idle. */
  lemma PollResult(s: Sys, steps: seq<Step>)
    requires Initial(s) && ValidRun(s, steps) && Enabled(Exec(s, steps), Finish)
    ensures var e := Exec(s, steps);
            |e.notes| == |e.log| && (Top(e).ret <==> RanHurried(e, Top(e).since, |e.stack|))
  {
    hide RanHurried, Apply;
    RunResults(s, steps);
  }

  /** Follows `k` links. */
  function Follow(heap: map<Ptr, Bh>, link: Option<Ptr>, k: nat): Option<Ptr>
    decreases k
  {
    if k == 0 || link.None? || link.value !in heap then link else Follow(heap, heap[link.value].next, k - 1)
  }

  lemma {:induction false} FollowList(heap: map<Ptr, Bh>, first: Option<Ptr>, list: seq<Ptr>, i: nat, k: nat)
    requires Linked(heap, first, list) && i <= |list|
    ensures var r := Follow(heap, LinkAt(list, i), k); r.Some? ==> r.value in heap
    decreases k
  {
    hide Distinct;
    if i >= |list| {
    } else {
      assert NodeOk(heap, list, i);
      if k > 0 { FollowList(heap, first, list, i + 1, k - 1); }
    }
  }

  /** In every reachable state, at any nesting depth: whatever can be reached from
      any active walk's saved pointer is still on the heap. */
  lemma NothingReachableIsFreed(s: Sys, steps: seq<Step>, i: nat, k: nat)
    requires Initial(s) && ValidRun(s, steps) && i < |Exec(s, steps).stack|
    ensures var e := Exec(s, steps); var r := Follow(e.heap, e.stack[i].next, k);
            r.Some? ==> r.value in e.heap
  {
    hide Apply, Enabled, Follow;
    assert Inv(s);
    RunInv(s, steps);
    var e := Exec(s, steps);
    assert FrameOk(e, e.stack[i]);
    FollowList(e.heap, e.first, e.list, |e.list| - e.stack[i].left, k);
  }

  /** So every step that is possible is also defined: a walk can always go on. */
  lemma EveryStepDefined(s: Sys, steps: seq<Step>, step: Step)
    requires Initial(s) && ValidRun(s, steps) && Enabled(Exec(s, steps), step)
    ensures Defined(Exec(s, steps), step)
  {
    hide Apply;
    assert Inv(s);
    RunInv(s, steps);
    if step.Visit? { WalkIsSafe(Exec(s, steps)); }
  }

  /** Nothing runs more often than it is scheduled. */
  lemma OneRunPerSchedule(s: Sys, steps: seq<Step>, p: Ptr)
    requires Initial(s) && ValidRun(s, steps)
    ensures Count(Exec(s, steps).log, Ran(p)) <= Count(Exec(s, steps).log, Scheduled(p))
  {
    hide Apply, Count;
    assert Inv(s) by { assert forall q :: Count([], Ran(q)) == 0 by { NoEvents(); } }
    RunInv(s, steps);
  }

  lemma NoEvents()
    ensures forall e :: Count([], e) == 0
  {
  }

  /** A callback starts only for a bottom half that is scheduled and not deleted,
      and starting it uses the schedule up. */
  lemma OnlyReadyRuns(s: Sys, step: Step, p: Ptr)
    requires Inv(s) && Enabled(s, step) && (step.Visit? ==> Top(s).next.value in s.heap)
    requires Apply(s, step).log == s.log + [Ran(p)]
    ensures Ready(s.heap, p) && !Ready(Apply(s, step).heap, p)
  {
    hide Inv;
    assert (s.log + [Ran(p)])[|s.log|] == Ran(p);
    var e := Apply(s, step);
    assert e.log[|s.log|] == Ran(p);
  }

  // ------------------------------------------------------------------ the code

  lemma KeptSnoc(heap: map<Ptr, Bh>, before: seq<Ptr>, p: Ptr)
    requires p in heap
    ensures Kept(heap, before + [p]) == if heap[p].deleted then Kept(heap, before) else Kept(heap, before) + [p]
  {
    assert (before + [p])[..|before|] == before;
  }

  class Context {
    var heap: map<Ptr, Bh>
    var first: Option<Ptr>
    ghost var list: seq<Ptr>

    ghost predicate Valid()
      reads this
    {
      Linked(heap, first, list)
    }

    constructor ()
      ensures Valid() && heap == map[] && first == None && list == []
    {
      heap, first, list := map[], None, [];
    }

    /** The new node goes to the head of the list. */
    method BhNew(p: Ptr)
      requires Valid() && p !in heap
      modifies this
      ensures Valid() && list == [p] + old(list) && heap == old(heap)[p := Bh(false, false, false, old(first))]
    {
      NewLinked(heap, first, list, p);
      heap := heap[p := Bh(false, false, false, first)];
      first := Some(p);
      list := [p] + list;
    }

    /** Scheduling twice changes nothing; `idle` marks the unhurried kind. */
    method BhSchedule(p: Ptr, idle: bool)
      requires Valid() && p in heap
      modifies `heap
      ensures Valid()
      ensures heap == if old(heap)[p].scheduled then old(heap)
                else old(heap)[p := old(heap)[p].(scheduled := true, idle := idle)]
    {
      if heap[p].scheduled {
        return;
      }
      FlagsLinked(heap, first, list, p, heap[p].(scheduled := true, idle := idle));
      heap := heap[p := heap[p].(scheduled := true, idle := idle)];
    }

    /** Cancelling withdraws the schedule; deleting also leaves the node to be freed
        by the next sweep. */
    method BhCancel(p: Ptr)
      requires Valid() && p in heap
      modifies `heap
      ensures Valid() && heap == old(heap)[p := old(heap)[p].(scheduled := false)]
    {
      FlagsLinked(heap, first, list, p, heap[p].(scheduled := false));
      heap := heap[p := heap[p].(scheduled := false)];
    }

    method BhDelete(p: Ptr)
      requires Valid() && p in heap
      modifies `heap
      ensures Valid() && heap == old(heap)[p := old(heap)[p].(scheduled := false, deleted := true)]
    {
      FlagsLinked(heap, first, list, p, heap[p].(scheduled := false, deleted := true));
      heap := heap[p := heap[p].(scheduled := false, deleted := true)];
    }

    /** A bottom half to run at once asks for no waiting at all, an idle one for at
        most ten milliseconds. */
    method UpdateTimeout(timeout: int) returns (t: int)
      requires Valid()
      ensures (exists p :: Ready(heap, p) && !heap[p].idle) ==> t == 0
      ensures !(exists p :: Ready(heap, p) && !heap[p].idle) && (exists p :: Ready(heap, p)) ==>
                t == if timeout < 10 then timeout else 10
      ensures !(exists p :: Ready(heap, p)) ==> t == timeout
    {
      t := timeout;
      var bh := first;
      ghost var k := 0;
      while bh.Some?
        invariant k <= |list| && bh == LinkAt(list, k)
        invariant forall i :: 0 <= i < k ==> !Ready(heap, list[i]) || heap[list[i]].idle
        invariant t == if exists i :: 0 <= i < k && Ready(heap, list[i]) then (if timeout < 10 then timeout else 10)
                    else timeout
        decreases |list| - k
      {
        assert NodeOk(heap, list, k);
        if !heap[bh.value].deleted && heap[bh.value].scheduled {
          assert Ready(heap, list[k]);
          if heap[bh.value].idle {
            t := if t < 10 then t else 10;
          } else {
            return 0;
          }
        }
        bh := heap[bh.value].next;
        k := k + 1;
      }
      assert forall p :: Ready(heap, p) ==> p in list;
    }

    /** Points the link that led to a node, the anchor or that of `prev`, past it. */
    method SetLink(prev: Option<Ptr>, target: Option<Ptr>)
      requires prev.Some? ==> prev.value in heap
      modifies `heap, `first
      ensures prev.None? ==> first == target && heap == old(heap)
      ensures prev.Some? ==>
                first == old(first) && heap == old(heap)[prev.value := old(heap)[prev.value].(next := target)]
    {
      if prev.None? {
        first := target;
      } else {
        heap := heap[prev.value := heap[prev.value].(next := target)];
      }
    }

    /** Reads that link. */
    function GetLink(prev: Option<Ptr>): Option<Ptr>
      requires prev.Some? ==> prev.value in heap
      reads this
    {
      if prev.None? then first else heap[prev.value].next
    }

    /** Takes node `bh` out of the list and frees it. */
    method FreeNode(prev: Option<Ptr>, bh: Ptr, ghost done: seq<Ptr>, ghost rest: seq<Ptr>)
      requires Valid() && list == done + [bh] + rest && prev == LastLink(done)
      modifies this
      ensures Valid() && list == done + rest && (prev.Some? ==> prev.value in heap) && GetLink(prev) == LinkAt(rest, 0)
      ensures forall p :: p in heap ==> p in old(heap) && heap[p] == old(heap)[p].(next := heap[p].next)
    {
      hide Linked;
      MiddleNode(heap, first, done, bh, rest);
      Unlink(heap, first, done, bh, rest);
      SetLink(prev, heap[bh].next);
      heap := heap - {bh};
      list := done + rest;
    }

    /** Unlinks and frees the deleted nodes; the others keep their order and flags. */
    method SweepDeleted()
      requires Valid()
      modifies this
      ensures Valid() && list == Kept(old(heap), old(list))
      ensures forall p :: p in heap ==> p in old(heap) && heap[p] == old(heap)[p].(next := heap[p].next)
    {
      hide Linked, Kept;
      ghost var was, rest := heap, list;
      ghost var before: seq<Ptr>, done: seq<Ptr> := [], [];
      var prev: Option<Ptr> := None;
      SweepStart(heap, first, list);
      while GetLink(prev).Some?
        invariant before + rest == old(list) && done == Kept(was, before)
        invariant list == done + rest && Linked(heap, first, list)
        invariant prev == LastLink(done) && (prev.Some? ==> prev.value in heap)
        invariant GetLink(prev) == LinkAt(rest, 0)
        invariant forall p :: p in heap ==> p in was && heap[p] == was[p].(next := heap[p].next)
        decreases |rest|
      {
        var bh := GetLink(prev).value;
        ghost var tail := rest[1..];
        Regroup(done, rest);
        Regroup(before, rest);
        MiddleNode(heap, first, done, bh, tail);
        KeptSnoc(was, before, bh);
        if heap[bh].deleted {
          FreeNode(prev, bh, done, tail);
        } else {
          prev := Some(bh);
          done := done + [bh];
        }
        before, rest := before + [bh], tail;
      }
      assert before + [] == before && done + [] == done;
    }
  }

  function LastLink(done: seq<Ptr>): Option<Ptr> {
    if done == [] then None else Some(done[|done| - 1])
  }

  lemma Regroup(a: seq<Ptr>, rest: seq<Ptr>)
    requires rest != []
    ensures a + rest == a + [rest[0]] + rest[1..]
  {
  }

  lemma SweepStart(heap: map<Ptr, Bh>, first: Option<Ptr>, list: seq<Ptr>)
    requires Linked(heap, first, list)
    ensures first == LinkAt(list, 0) && Kept(heap, []) == []
    ensures [] + list == list
  {
  }

  /** A node in the middle, and the link into it. */
  lemma MiddleNode(heap: map<Ptr, Bh>, first: Option<Ptr>, a: seq<Ptr>, b: Ptr, c: seq<Ptr>)
    requires Linked(heap, first, a + [b] + c)
    ensures b in heap && heap[b].next == LinkAt(c, 0) && b !in a && b !in c
    ensures forall p :: p in a ==> p in heap
  {
    var list := a + [b] + c;
    assert NodeOk(heap, list, |a|);
    assert list[|a|] == b;
    assert c != [] ==> list[|a| + 1] == c[0];
    forall p | p in a ensures p in heap && p != b {
      assert p in list;
      var i :| 0 <= i < |a| && a[i] == p;
      assert list[i] == p;
    }
    forall p | p in c ensures p != b {
      var i :| 0 <= i < |c| && c[i] == p;
      assert list[|a| + 1 + i] == p;
    }
  }

  /** Taking a node out: the link before it skips it, and it is freed. */
  lemma Unlink(heap: map<Ptr, Bh>, first: Option<Ptr>, a: seq<Ptr>, b: Ptr, c: seq<Ptr>)
    requires Linked(heap, first, a + [b] + c)
    ensures b in heap && (a != [] ==> a[|a| - 1] in heap)
    ensures var h := if a == [] then heap else heap[a[|a| - 1] := heap[a[|a| - 1]].(next := heap[b].next)];
            Linked(h - {b}, if a == [] then heap[b].next else first, a + c)
    ensures a != [] ==>
              (heap[a[|a| - 1] := heap[a[|a| - 1]].(next := heap[b].next)] - {b})[a[|a| - 1]].next == LinkAt(c, 0)
  {
    MiddleNode(heap, first, a, b, c);
    var list, rest := a + [b] + c, a + c;
    var h := if a == [] then heap else heap[a[|a| - 1] := heap[a[|a| - 1]].(next := heap[b].next)];
    var g := h - {b};
    forall i: nat | i < |rest| ensures NodeOk(g, rest, i) {
      var j := if i < |a| then i else i + 1;
      assert NodeOk(heap, list, j) && list[j] == rest[i];
      assert rest[i] != b;
      if |a| > 0 && i != |a| - 1 { assert list[|a| - 1] == a[|a| - 1] && rest[i] != a[|a| - 1]; }
    }
    forall i, j | 0 <= i < j < |rest| ensures rest[i] != rest[j] {
      assert list[if i < |a| then i else i + 1] == rest[i] && list[if j < |a| then j else j + 1] == rest[j];
    }
    forall p ensures p in g <==> p in rest {
      assert p in list <==> p in rest || p == b;
    }
  }
}
