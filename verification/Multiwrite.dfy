/** Merging a sorted batch of writes.  Requests are scatter lists of cells (bytes,
    in the program); a cell's address is its byte offset on the disk. */
module Multiwrite {
  import opened Sectors

  const IOV_MAX: nat := 1024

  /** A scatter list; its pieces are written one after the other. */
  type Qiov<T> = seq<seq<T>>

  datatype Req<T> = Req(sector: nat, nb: nat, qiov: Qiov<T>)

  function Flat<T>(q: Qiov<T>): seq<T> {
    if q == [] then [] else q[0] + Flat(q[1..])
  }

  predicate WellFormed<T(==)>(r: Req<T>) {
    |Flat(r.qiov)| == r.nb * SECTOR
  }

  function Start<T>(r: Req<T>): nat { r.sector * SECTOR }
  function End<T>(r: Req<T>): nat { (r.sector + r.nb) * SECTOR }

  predicate Covers<T>(r: Req<T>, a: nat) { Start(r) <= a < End(r) }

  function Cell<T>(r: Req<T>, a: nat): T
    requires WellFormed(r) && Covers(r, a)
  {
    Flat(r.qiov)[a - Start(r)]
  }

  ghost predicate AllWellFormed<T>(rs: seq<Req<T>>) {
    forall i :: 0 <= i < |rs| ==> WellFormed(rs[i])
  }

  ghost predicate Sorted<T>(rs: seq<Req<T>>) {
    forall i, j :: 0 <= i < j < |rs| ==> rs[i].sector <= rs[j].sector
  }

  /** The cell at address `a` after the writes, in order, on a disk holding `v`. */
  function After<T>(rs: seq<Req<T>>, a: nat, v: T): T
    requires AllWellFormed(rs)
  {
    if rs == [] then v
    else if Covers(rs[|rs| - 1], a) then Cell(rs[|rs| - 1], a)
    else After(rs[..|rs| - 1], a, v)
  }

  // ------------------------------------------------------------------- merging

  /** The pieces that make up the first `size` cells; empty pieces are dropped. */
  function Prefix<T>(q: Qiov<T>, size: nat): (p: Qiov<T>)
    ensures |p| <= |q|
  {
    if q == [] || size == 0 then []
    else if |q[0]| == 0 then Prefix(q[1..], size)
    else if |q[0]| > size then [q[0][..size]]
    else [q[0]] + Prefix(q[1..], size - |q[0]|)
  }

  predicate Merges<T>(prior: Req<T>, r: Req<T>) {
    r.sector <= prior.sector + prior.nb && |prior.qiov| + |r.qiov| + 1 <= IOV_MAX
  }

  /** The first request up to where the second starts, then the second. */
  function Merged<T>(prior: Req<T>, r: Req<T>): Req<T>
    requires prior.sector <= r.sector
  {
    var q := Prefix(prior.qiov, (r.sector - prior.sector) * SECTOR) + Prefix(r.qiov, |Flat(r.qiov)|);
    Req(prior.sector, |Flat(q)| / SECTOR, q)
  }

  function Push<T>(out: seq<Req<T>>, r: Req<T>): seq<Req<T>> {
    if out == [] then [r]
    else
      var last := out[|out| - 1];
      if last.sector <= r.sector && Merges(last, r) then out[..|out| - 1] + [Merged(last, r)]
      else out + [r]
  }

  function MergeAll<T>(rs: seq<Req<T>>): seq<Req<T>> {
    if rs == [] then [] else Push(MergeAll(rs[..|rs| - 1]), rs[|rs| - 1])
  }

  lemma {:induction false} FlatConcat<T>(p: Qiov<T>, q: Qiov<T>)
    ensures Flat(p + q) == Flat(p) + Flat(q)
  {
    if p == [] {
      assert p + q == q;
    } else {
      assert (p + q)[1..] == p[1..] + q;
      FlatConcat(p[1..], q);
    }
  }

  lemma {:induction false} FlatPrefix<T>(q: Qiov<T>, size: nat)
    requires size <= |Flat(q)|
    ensures Flat(Prefix(q, size)) == Flat(q)[..size]
    decreases |q|
  {
    if q == [] || size == 0 {
    } else {
      if |q[0]| == 0 {
        FlatPrefix(q[1..], size);
      } else if |q[0]| > size {
        var one := [q[0][..size]];
        assert one[1..] == [];
        assert Flat(one) == q[0][..size] + Flat([]);
        assert Flat(q)[..size] == q[0][..size];
      } else {
        FlatPrefix(q[1..], size - |q[0]|);
        var p := [q[0]] + Prefix(q[1..], size - |q[0]|);
        assert p[1..] == Prefix(q[1..], size - |q[0]|);
      }
    }
  }

  /** A merged request holds the first one's cells before the second's start and
      all of the second's; cells of the first beyond that are gone. */
  lemma MergedCells<T>(prior: Req<T>, r: Req<T>)
    requires WellFormed(prior) && WellFormed(r) && prior.sector <= r.sector <= prior.sector + prior.nb
    ensures var m := Merged(prior, r);
            && WellFormed(m) && Start(m) == Start(prior) && End(m) == End(r)
            && (forall a: nat :: Covers(m, a) && a < Start(r) ==> Covers(prior, a) && Cell(m, a) == Cell(prior, a))
            && (forall a: nat :: Covers(r, a) ==> Covers(m, a) && Cell(m, a) == Cell(r, a))
  {
    hide Prefix, Flat;
    var size := (r.sector - prior.sector) * SECTOR;
    FlatPrefix(prior.qiov, size);
    FlatPrefix(r.qiov, |Flat(r.qiov)|);
    var p, q := Prefix(prior.qiov, size), Prefix(r.qiov, |Flat(r.qiov)|);
    FlatConcat(p, q);
    assert Flat(p + q) == Flat(prior.qiov)[..size] + Flat(r.qiov);
    assert |Flat(p + q)| == (r.sector - prior.sector + r.nb) * SECTOR;
  }

  // ----------------------------------------------------------- what merging does

  /** The number of the last request that writes address `a`, or -1. */
  function LastCover<T>(rs: seq<Req<T>>, a: nat): (k: int)
    ensures -1 <= k < |rs|
    ensures k >= 0 ==> Covers(rs[k], a)
    ensures forall j :: k < j < |rs| ==> !Covers(rs[j], a)
  {
    if rs == [] then -1
    else if Covers(rs[|rs| - 1], a) then |rs| - 1
    else LastCover(rs[..|rs| - 1], a)
  }

  /** Request `i` is merged into what the ones before it became. */
  predicate MergedAt<T>(rs: seq<Req<T>>, i: nat)
    requires i < |rs|
  {
    var out := MergeAll(rs[..i]);
    out != [] && out[|out| - 1].sector <= rs[i].sector && Merges(out[|out| - 1], rs[i])
  }

  /** The last write to `a` is cut off by merging the next request, which ends
      before `a`. */
  predicate Lost<T>(rs: seq<Req<T>>, a: nat) {
    var k := LastCover(rs, a);
    0 <= k && k + 1 < |rs| && End(rs[k + 1]) <= a && MergedAt(rs, k + 1)
  }

  /** Merging request `k + 1` cuts off the write of request `k` to `a`. */
  predicate CutOff<T>(rs: seq<Req<T>>, k: nat, a: nat) {
    k + 1 < |rs| && MergedAt(rs, k + 1) && End(rs[k + 1]) <= a < End(rs[k])
  }

  /** No write is cut off, except where a later one writes again. */
  ghost predicate LosesNothing<T>(rs: seq<Req<T>>) {
    forall k: nat, a: nat :: CutOff(rs, k, a) ==> exists j: nat :: k + 1 < j < |rs| && Covers(rs[j], a)
  }

  lemma LostIsCutOff<T>(rs: seq<Req<T>>, a: nat)
    requires Sorted(rs) && LosesNothing(rs)
    ensures !Lost(rs, a)
  {
    hide MergedAt;
    assert Lost(rs, a) ==> LastCover(rs, a) >= 0 && CutOff(rs, LastCover(rs, a), a);
  }

  lemma CutOffIsLost<T>(rs: seq<Req<T>>, k: nat, a: nat)
    requires Sorted(rs) && CutOff(rs, k, a) && !(exists j: nat :: k + 1 < j < |rs| && Covers(rs[j], a))
    ensures Lost(rs, a) && LastCover(rs, a) == k
  {
    hide MergedAt;
    assert rs[k].sector <= rs[k + 1].sector;
    assert Covers(rs[k], a) && !Covers(rs[k + 1], a);
  }

  // --------------------------------------------------------------------- proof

  lemma PushShape<T>(out: seq<Req<T>>, r: Req<T>)
    requires AllWellFormed(out) && WellFormed(r)
    ensures var e := Push(out, r);
            AllWellFormed(e) && e != [] && End(e[|e| - 1]) == End(r)
            && (out != [] && out[|out| - 1].sector <= r.sector ==> e[|e| - 1].sector <= r.sector)
            && (out == [] ==> e[|e| - 1].sector <= r.sector)
  {
    hide Merged, Flat;
    if out != [] {
      var last := out[|out| - 1];
      if last.sector <= r.sector && Merges(last, r) { MergedCells(last, r); }
    }
  }

  lemma {:induction false} PrefixShort<T>(q: Qiov<T>, size: nat)
    ensures |Prefix(q, size)| <= |q|
    decreases |q|
  {
    if q == [] {
    } else {
      PrefixShort(q[1..], size);
      if size > 0 && |q[0]| <= size { PrefixShort(q[1..], size - |q[0]|); }
    }
  }

  /** No output request has more pieces than a vector may have. */
  lemma {:induction false} PiecesFit<T>(rs: seq<Req<T>>, k: nat)
    requires (forall i :: 0 <= i < |rs| ==> |rs[i].qiov| <= 1024) && k < |MergeAll(rs)|
    ensures |MergeAll(rs)[k].qiov| <= 1024
    decreases |rs|
  {
    if rs == [] {
    } else {
      var out, r := MergeAll(rs[..|rs| - 1]), rs[|rs| - 1];
      if k < |out| { PiecesFit(rs[..|rs| - 1], k); }
      if out != [] && out[|out| - 1].sector <= r.sector {
        var last := out[|out| - 1];
        PrefixShort(last.qiov, (r.sector - last.sector) * SECTOR);
        PrefixShort(r.qiov, |Flat(r.qiov)|);
      }
    }
  }

  /** Two requests become one if and only if the second starts within the first or
      right behind it and a vector can hold their pieces and one more. */
  lemma PairMerges<T>(prior: Req<T>, r: Req<T>)
    requires prior.sector <= r.sector
    ensures |MergeAll([prior, r])| == 1 <==>
            r.sector <= prior.sector + prior.nb && |prior.qiov| + |r.qiov| + 1 <= 1024
    ensures |MergeAll([prior, r])| <= 2
  {
    var both := [prior, r];
    assert both[..1] == [prior] && [prior][..0] == [];
    assert MergeAll([prior][..0]) == [];
    assert MergeAll(both[..1]) == [prior];
  }

  /** What the requests so far have become: the last of them ends where the last
      request ends. */
  lemma {:induction false} MergeShape<T>(rs: seq<Req<T>>)
    requires Sorted(rs) && AllWellFormed(rs)
    ensures var out := MergeAll(rs);
            AllWellFormed(out) && (rs == [] <==> out == [])
            && (rs != [] ==> out[|out| - 1].sector <= rs[|rs| - 1].sector && End(out[|out| - 1]) == End(rs[|rs| - 1]))
    decreases |rs|
  {
    hide Push, WellFormed;
    if rs == [] {
    } else {
      var front, r := rs[..|rs| - 1], rs[|rs| - 1];
      MergeShape(front);
      PushShape(MergeAll(front), r);
    }
  }

  lemma AfterAppend<T>(rs: seq<Req<T>>, r: Req<T>, a: nat, v: T)
    requires AllWellFormed(rs) && WellFormed(r)
    ensures AllWellFormed(rs + [r])
    ensures After(rs + [r], a, v) == if Covers(r, a) then Cell(r, a) else After(rs, a, v)
  {
    assert (rs + [r])[..|rs|] == rs;
  }

  /** The effect of one more request on the merged batch at address `a`. */
  lemma PushEffect<T>(out: seq<Req<T>>, r: Req<T>, a: nat, v: T)
    requires AllWellFormed(out) && WellFormed(r)
    ensures AllWellFormed(Push(out, r))
    ensures Covers(r, a) ==> After(Push(out, r), a, v) == Cell(r, a)
    ensures !Covers(r, a) && (out == [] || !(out[|out| - 1].sector <= r.sector && Merges(out[|out| - 1], r)) ||
            a < Start(r) || !Covers(out[|out| - 1], a)) ==>
              After(Push(out, r), a, v) == After(out, a, v)
    ensures !Covers(r, a) && out != [] && out[|out| - 1].sector <= r.sector && Merges(out[|out| - 1], r) &&
            End(r) <= a ==>
              After(Push(out, r), a, v) == After(out[..|out| - 1], a, v)
  {
    hide Merged, Flat, WellFormed, Cell;
    PushShape(out, r);
    if out == [] {
      assert [] + [r] == [r];
      AfterAppend([], r, a, v);
    } else {
      var front, last := out[..|out| - 1], out[|out| - 1];
      assert out == front + [last];
      AfterAppend(front, last, a, v);
      if last.sector <= r.sector && Merges(last, r) {
        MergedCells(last, r);
        AfterAppend(front, Merged(last, r), a, v);
      } else {
        AfterAppend(out, r, a, v);
      }
    }
  }

  lemma MergedAtFront<T>(rs: seq<Req<T>>, i: nat)
    requires i < |rs| - 1
    ensures MergedAt(rs[..|rs| - 1], i) == MergedAt(rs, i)
  {
    assert rs[..|rs| - 1][..i] == rs[..i];
  }

  lemma LastCoverFront<T>(rs: seq<Req<T>>, a: nat)
    requires rs != [] && !Covers(rs[|rs| - 1], a)
    ensures LastCover(rs[..|rs| - 1], a) == LastCover(rs, a)
  {
    hide Covers;
  }

  lemma LostFront<T>(rs: seq<Req<T>>, a: nat)
    requires rs != [] && !Covers(rs[|rs| - 1], a)
    ensures LastCover(rs[..|rs| - 1], a) == LastCover(rs, a)
    ensures LastCover(rs, a) + 2 < |rs| ==> (Lost(rs[..|rs| - 1], a) <==> Lost(rs, a))
    ensures LastCover(rs, a) + 2 == |rs| ==> !Lost(rs[..|rs| - 1], a)
    ensures LastCover(rs, a) + 2 == |rs| && |rs| >= 2 ==>
              (Lost(rs, a) <==> End(rs[|rs| - 1]) <= a && MergedAt(rs, |rs| - 1))
  {
    hide MergedAt, Covers, LastCover;
    var k, front := LastCover(rs, a), rs[..|rs| - 1];
    LastCoverFront(rs, a);
    if 0 <= k && k + 2 < |rs| { MergedAtFront(rs, k + 1); }
  }

  /** Wherever the last write is not cut off, merging changes nothing. */
  lemma {:induction false} MergeKeeps<T>(rs: seq<Req<T>>, a: nat, v: T)
    requires Sorted(rs) && AllWellFormed(rs) && !Lost(rs, a)
    ensures AllWellFormed(MergeAll(rs)) && After(MergeAll(rs), a, v) == After(rs, a, v)
    decreases |rs|
  {
    hide Push, WellFormed, Lost, Cell;
    MergeShape(rs);
    if rs == [] {
    } else {
      var n := |rs| - 1;
      var front, r := rs[..n], rs[n];
      var out := MergeAll(front);
      MergeShape(front);
      PushEffect(out, r, a, v);
      if !Covers(r, a) {
        LostFront(rs, a);
        MergeKeeps(front, a, v);
        if n > 0 && MergedAt(rs, n) && End(r) <= a && Covers(out[|out| - 1], a) {
          assert Covers(rs[n - 1], a);
        }
      }
    }
  }

  /** Issuing the merged requests leaves the same disk as issuing the sorted ones,
      whatever they write, if no write is cut off for good. */
  lemma MergePreserves<T>(rs: seq<Req<T>>)
    requires Sorted(rs) && AllWellFormed(rs) && LosesNothing(rs)
    ensures AllWellFormed(MergeAll(rs))
    ensures forall a: nat, v: T :: After(MergeAll(rs), a, v) == After(rs, a, v)
  {
    MergeShape(rs);
    forall a: nat, v: T ensures After(MergeAll(rs), a, v) == After(rs, a, v) {
      LostIsCutOff(rs, a);
      MergeKeeps(rs, a, v);
    }
  }

  /** Ends that do not decrease are enough. */
  lemma MonotoneEndsLoseNothing<T>(rs: seq<Req<T>>)
    requires forall k: nat :: k + 1 < |rs| ==> End(rs[k]) <= End(rs[k + 1])
    ensures LosesNothing(rs)
  {
    hide MergedAt;
  }

  // ------------------------------------------------------------- and only then

  /** Requests that show who wrote a cell: request `i` writes the number `i`. */
  ghost predicate Tagged(rs: seq<Req<nat>>) {
    AllWellFormed(rs) && forall i: nat, a: nat :: i < |rs| && Covers(rs[i], a) ==> Cell(rs[i], a) == i
  }

  ghost predicate CellsBelow(rs: seq<Req<nat>>, n: nat)
    requires AllWellFormed(rs)
  {
    forall i: nat, a: nat :: i < |rs| && Covers(rs[i], a) ==> Cell(rs[i], a) < n
  }

  lemma {:induction false} AfterBelow(rs: seq<Req<nat>>, n: nat, a: nat, v: nat)
    requires AllWellFormed(rs) && CellsBelow(rs, n)
    ensures After(rs, a, v) == v || After(rs, a, v) < n
    decreases |rs|
  {
    hide Cell, WellFormed;
    if rs == [] {
    } else {
      var front := rs[..|rs| - 1];
      assert forall i: nat, b: nat :: i < |front| && Covers(front[i], b) ==> rs[i] == front[i] && Cell(rs[i], b) < n;
      AfterBelow(front, n, a, v);
    }
  }

  /** Everything but the last merged request stems from requests before the last. */
  lemma {:induction false} MergeTags(rs: seq<Req<nat>>)
    requires Sorted(rs) && Tagged(rs) && rs != []
    ensures var out := MergeAll(rs);
            && AllWellFormed(out) && out != [] && AllWellFormed(out[..|out| - 1])
            && CellsBelow(out, |rs|) && CellsBelow(out[..|out| - 1], |rs| - 1)
    decreases |rs|
  {
    hide WellFormed, Cell, Push, Merged;
    MergeShape(rs);
    var n := |rs| - 1;
    var front, r := rs[..n], rs[n];
    var was, out := MergeAll(front), MergeAll(rs);
    MergeShape(front);
    if n == 0 {
      PushEmpty(r);
    } else {
      assert forall i: nat, b: nat :: i < |front| && Covers(front[i], b) ==> rs[i] == front[i] && Cell(rs[i], b) == i;
      MergeTags(front);
      PushTags(was, r, n);
    }
  }

  lemma PushEmpty<T>(r: Req<T>)
    ensures Push([], r) == [r]
  {
  }

  lemma PushTags(out: seq<Req<nat>>, r: Req<nat>, n: nat)
    requires AllWellFormed(out) && WellFormed(r) && out != [] && AllWellFormed(out[..|out| - 1]) && n > 0
    requires CellsBelow(out, n) && CellsBelow(out[..|out| - 1], n - 1)
    requires forall a: nat :: Covers(r, a) ==> Cell(r, a) == n
    ensures var e := Push(out, r);
            && AllWellFormed(e) && e != [] && AllWellFormed(e[..|e| - 1])
            && CellsBelow(e, n + 1) && CellsBelow(e[..|e| - 1], n)
  {
    hide WellFormed, Cell, Merged;
    PushShape(out, r);
    var last, e := out[|out| - 1], Push(out, r);
    if last.sector <= r.sector && Merges(last, r) {
      MergedCells(last, r);
      assert e[..|e| - 1] == out[..|out| - 1];
    } else {
      assert e[..|e| - 1] == out;
    }
  }

  /** Where a write is cut off, the merged batch leaves what was there before. */
  lemma {:induction false} LostIsWrong(rs: seq<Req<nat>>, a: nat, v: nat)
    requires Sorted(rs) && Tagged(rs) && Lost(rs, a)
    ensures AllWellFormed(MergeAll(rs))
    ensures After(MergeAll(rs), a, v) == v || After(MergeAll(rs), a, v) < LastCover(rs, a)
    decreases |rs|
  {
    hide Push, WellFormed, Cell, Lost;
    LostFacts(rs, a);
    MergeShape(rs);
    var n, k := |rs| - 1, LastCover(rs, a);
    var front, r := rs[..n], rs[n];
    var out := MergeAll(front);
    MergeShape(front);
    PushEffect(out, r, a, v);
    LostFront(rs, a);
    assert forall i: nat, b: nat :: i < |front| && Covers(front[i], b) ==> rs[i] == front[i] && Cell(rs[i], b) == i;
    if k + 1 == n {
      MergeTags(front);
      AfterBelow(out[..|out| - 1], k, a, v);
    } else {
      LostIsWrong(front, a, v);
    }
  }

  lemma LostFacts<T>(rs: seq<Req<T>>, a: nat)
    requires Lost(rs, a)
    ensures 0 <= LastCover(rs, a) && LastCover(rs, a) + 1 < |rs| && !Covers(rs[|rs| - 1], a)
  {
    hide MergedAt;
  }

  lemma {:induction false} AfterLastCover<T>(rs: seq<Req<T>>, a: nat, v: T)
    requires AllWellFormed(rs) && LastCover(rs, a) >= 0
    ensures After(rs, a, v) == Cell(rs[LastCover(rs, a)], a)
    decreases |rs|
  {
    hide Cell, WellFormed;
    if rs == [] || Covers(rs[|rs| - 1], a) {
    } else {
      AfterLastCover(rs[..|rs| - 1], a, v);
    }
  }

  /** Exactly when merging is right: with requests that tell who wrote a cell, the
      merged batch agrees with the sorted one everywhere if and only if no write
      is cut off for good. */
  lemma MergeExact(rs: seq<Req<nat>>)
    requires Sorted(rs) && Tagged(rs)
    ensures AllWellFormed(MergeAll(rs))
    ensures (forall a: nat, v: nat :: After(MergeAll(rs), a, v) == After(rs, a, v)) <==> LosesNothing(rs)
  {
    hide Cell, WellFormed, After, Lost, MergedAt;
    MergeShape(rs);
    if LosesNothing(rs) {
      MergePreserves(rs);
    } else {
      var k: nat, a: nat :| CutOff(rs, k, a) && !(exists j: nat :: k + 1 < j < |rs| && Covers(rs[j], a));
      CutOffIsLost(rs, k, a);
      LostIsWrong(rs, a, k + 1);
      AfterLastCover(rs, a, k + 1);
      assert After(MergeAll(rs), a, k + 1) != After(rs, a, k + 1);
    }
  }

  /** The tail of an enclosing request is dropped: three sectors, then one sector
      inside them. */
  lemma EnclosingRequestLosesTail<T>(x: T)
    ensures var big, small := Req(0, 3, [seq(3 * SECTOR, _ => x)]), Req(1, 1, [seq(SECTOR, _ => x)]);
            var out := MergeAll([big, small]);
            |out| == 1 && End(out[0]) == 2 * SECTOR && !LosesNothing([big, small])
  {
    var big, small := Req(0, 3, [seq(3 * SECTOR, _ => x)]), Req(1, 1, [seq(SECTOR, _ => x)]);
    var rs := [big, small];
    FlatOne(seq(3 * SECTOR, _ => x));
    FlatOne(seq(SECTOR, _ => x));
    assert rs[..1] == [big] && [big][..0] == [];
    assert MergeAll([big]) == [big];
    MergedCells(big, small);
    assert MergeAll(rs) == [] + [Merged(big, small)];
    assert MergedAt(rs, 1);
    assert CutOff(rs, 0, 2 * SECTOR);
  }

  lemma FlatOne<T>(d: seq<T>)
    ensures Flat([d]) == d
  {
    assert [d][1..] == [];
    assert Flat([d]) == d + Flat([]);
  }

  // ------------------------------------------------------------------ the code

  /** Appends to `dst` the pieces of `src` up to `size` cells. */
  method IovConcat<T>(dst: Qiov<T>, src: Qiov<T>, size: nat) returns (q: Qiov<T>)
    ensures q == dst + Prefix(src, size)
  {
    q := dst;
    var i, done := 0, 0;
    assert src[0..] == src;
    while i < |src| && done != size
      invariant i <= |src| && done <= size
      invariant q + Prefix(src[i..], size - done) == dst + Prefix(src, size)
    {
      var iov := src[i];
      assert src[i..][1..] == src[i + 1..];
      if 0 >= |iov| {
        i := i + 1;
        continue;
      }
      if done + |iov| > size {
        q := q + [iov[..size - done]];
        return;
      }
      q := q + [iov];
      done := done + |iov|;
      i := i + 1;
    }
    assert Prefix(src[i..], size - done) == [];
  }

  /** One turn of the merge loop: request `i` joins the last output request or
      becomes the next one. */
  method MergeNext<T>(reqs: array<Req<T>>, outidx: nat, i: nat) returns (next: nat)
    requires outidx < i < reqs.Length && reqs[outidx].sector <= reqs[i].sector
    modifies reqs
    ensures outidx <= next <= i && reqs[..next + 1] == Push(old(reqs[..outidx + 1]), old(reqs[i]))
    ensures forall k :: i < k < reqs.Length ==> reqs[k] == old(reqs[k])
  {
    hide Merged, Push;
    ghost var out := reqs[..outidx + 1];
    assert out[|out| - 1] == reqs[outidx] && out[..|out| - 1] == reqs[..outidx];
    PushTakesBranch(out, reqs[i]);
    var prior, r := reqs[outidx], reqs[i];
    var merge := false;
    if r.sector <= prior.sector + prior.nb {
      merge := true;
    }
    if |prior.qiov| + |r.qiov| + 1 > IOV_MAX {
      merge := false;
    }
    next := outidx;
    if merge {
      var m := MergeTwo(prior, r);
      reqs[next] := m;
      assert reqs[..next + 1] == reqs[..next] + [m];
    } else {
      next := outidx + 1;
      reqs[next] := r;
      assert reqs[..next + 1] == reqs[..outidx + 1] + [r];
    }
  }

  lemma MergePrefix<T>(rs: seq<Req<T>>, i: nat)
    requires Sorted(rs) && AllWellFormed(rs) && 0 < i < |rs|
    ensures MergeAll(rs[..i + 1]) == Push(MergeAll(rs[..i]), rs[i])
    ensures var out := MergeAll(rs[..i]); out != [] && out[|out| - 1].sector <= rs[i].sector
  {
    hide Push, WellFormed;
    assert rs[..i + 1][..i] == rs[..i];
    MergeShape(rs[..i]);
    assert rs[i - 1].sector <= rs[i].sector;
  }

  /** Merges a sorted batch in place and returns how many requests remain. */
  method MultiwriteMerge<T>(reqs: array<Req<T>>, num: nat) returns (n: nat)
    requires 0 < num <= reqs.Length && Sorted(reqs[..num]) && AllWellFormed(reqs[..num])
    modifies reqs
    ensures 1 <= n <= num && reqs[..n] == MergeAll(old(reqs[..num]))
  {
    hide Push, MergeAll, AllWellFormed, Sorted;
    ghost var was := reqs[..num];
    var outidx, i := 0, 1;
    MergeFirst(was);
    while i < num
      invariant 0 <= outidx < i <= num
      invariant reqs[..outidx + 1] == MergeAll(was[..i])
      invariant forall k :: i <= k < num ==> reqs[k] == was[k]
    {
      MergePrefix(was, i);
      assert reqs[outidx] == reqs[..outidx + 1][outidx];
      outidx := MergeNext(reqs, outidx, i);
      i := i + 1;
    }
    assert was[..num] == was;
    n := outidx + 1;
  }

  lemma MergeFirst<T>(rs: seq<Req<T>>)
    requires rs != []
    ensures MergeAll(rs[..1]) == rs[..1]
  {
    PushEmpty(rs[0]);
    assert rs[..1] == [rs[0]] && rs[..1][..0] == [];
  }

  method MergeTwo<T>(prior: Req<T>, r: Req<T>) returns (m: Req<T>)
    requires prior.sector <= r.sector
    ensures m == Merged(prior, r)
  {
    var q := IovConcat([], prior.qiov, (r.sector - prior.sector) * SECTOR);
    q := IovConcat(q, r.qiov, |Flat(r.qiov)|);
    assert [] + Prefix(prior.qiov, (r.sector - prior.sector) * SECTOR) ==
             Prefix(prior.qiov, (r.sector - prior.sector) * SECTOR);
    m := Req(prior.sector, |Flat(q)| / SECTOR, q);
  }

  lemma PushTakesBranch<T>(out: seq<Req<T>>, r: Req<T>)
    requires out != [] && out[|out| - 1].sector <= r.sector
    ensures Push(out, r) == if Merges(out[|out| - 1], r) then out[..|out| - 1] + [Merged(out[|out| - 1], r)]
              else out + [r]
  {
  }
}
