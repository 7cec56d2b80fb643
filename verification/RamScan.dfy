/** The cyclic order in which the saver looks at pages. */
module RamScan {
  import opened RamStream

  /** The page after `a`: next in the block, first of the next block, or the
      first page of all. */
  function Next(layout: Layout, a: Addr): Addr
    requires Inside(layout, a)
  {
    if a.p + 1 < layout[a.b].pages then Addr(a.b, a.p + 1)
    else if a.b + 1 < |layout| then Addr(a.b + 1, 0)
    else Addr(0, 0)
  }

  ghost predicate NoEmptyBlock(layout: Layout) {
    forall b :: 0 <= b < |layout| ==> layout[b].pages > 0
  }

  function Walk(layout: Layout, a: Addr, k: nat): Addr
    requires NoEmptyBlock(layout) && Inside(layout, a)
    ensures Inside(layout, Walk(layout, a, k))
  {
    if k == 0 then a else Next(layout, Walk(layout, a, k - 1))
  }

  /** The number of a page, counted over all blocks. */
  function Flat(layout: Layout, a: Addr): nat
    requires Inside(layout, a)
  {
    TotalPages(layout[..a.b]) + a.p
  }

  lemma {:induction false} TotalPagesConcat(x: Layout, y: Layout)
    ensures TotalPages(x + y) == TotalPages(x) + TotalPages(y)
  {
    if x == [] {
      assert x + y == y;
    } else {
      assert (x + y)[1..] == x[1..] + y;
      TotalPagesConcat(x[1..], y);
    }
  }

  lemma PrefixStep(layout: Layout, b: nat)
    requires b < |layout|
    ensures TotalPages(layout[..b + 1]) == TotalPages(layout[..b]) + layout[b].pages
  {
    assert layout[..b + 1] == layout[..b] + [layout[b]];
    TotalPagesConcat(layout[..b], [layout[b]]);
    assert [layout[b]][1..] == [];
  }

  lemma {:induction false} PrefixMonotone(layout: Layout, b: nat, c: nat)
    requires b <= c <= |layout|
    ensures TotalPages(layout[..b]) <= TotalPages(layout[..c])
    decreases c
  {
    if b >= c {
    } else {
      PrefixStep(layout, c - 1);
      PrefixMonotone(layout, b, c - 1);
    }
  }

  lemma FlatBound(layout: Layout, a: Addr)
    requires Inside(layout, a)
    ensures Flat(layout, a) < TotalPages(layout[..a.b + 1]) <= TotalPages(layout)
  {
    PrefixStep(layout, a.b);
    PrefixMonotone(layout, a.b + 1, |layout|);
    assert layout[..|layout|] == layout;
  }

  lemma FlatInjective(layout: Layout, a: Addr, c: Addr)
    requires Inside(layout, a) && Inside(layout, c) && Flat(layout, a) == Flat(layout, c)
    ensures a == c
  {
    FlatBound(layout, a);
    FlatBound(layout, c);
    if a.b < c.b {
      PrefixMonotone(layout, a.b + 1, c.b);
    } else if c.b < a.b {
      PrefixMonotone(layout, c.b + 1, a.b);
    }
  }

  lemma FlatNext(layout: Layout, a: Addr)
    requires NoEmptyBlock(layout) && Inside(layout, a)
    ensures Flat(layout, Next(layout, a)) == if Flat(layout, a) + 1 == TotalPages(layout) then 0
              else Flat(layout, a) + 1
  {
    var n := Next(layout, a);
    FlatBound(layout, a);
    FlatBound(layout, n);
    PrefixStep(layout, a.b);
    assert layout[..|layout|] == layout;
    assert layout[..0] == [];
  }

  function Wrap(i: nat, n: nat): nat {
    if i < n then i else i - n
  }

  lemma {:induction false} WalkFlat(layout: Layout, a: Addr, k: nat)
    requires NoEmptyBlock(layout) && Inside(layout, a) && k <= TotalPages(layout)
    ensures Flat(layout, Walk(layout, a, k)) == Wrap(Flat(layout, a) + k, TotalPages(layout))
  {
    hide Flat, Next, TotalPages;
    FlatBound(layout, a);
    if k == 0 {
    } else {
      WalkFlat(layout, a, k - 1);
      FlatNext(layout, Walk(layout, a, k - 1));
    }
  }

  /** One cycle visits every page... */
  lemma WalkCovers(layout: Layout, a: Addr, c: Addr) returns (k: nat)
    requires NoEmptyBlock(layout) && Inside(layout, a) && Inside(layout, c)
    ensures k < TotalPages(layout) && Walk(layout, a, k) == c
  {
    hide Flat, Next, TotalPages, Walk;
    FlatBound(layout, a);
    FlatBound(layout, c);
    var n, i, j := TotalPages(layout), Flat(layout, a), Flat(layout, c);
    k := if i <= j then j - i else j + n - i;
    WalkFlat(layout, a, k);
    FlatInjective(layout, Walk(layout, a, k), c);
  }

  /** ...exactly once... */
  lemma WalkOnce(layout: Layout, a: Addr, j: nat, k: nat)
    requires NoEmptyBlock(layout) && Inside(layout, a) && j < k < TotalPages(layout)
    ensures Walk(layout, a, j) != Walk(layout, a, k)
  {
    hide Flat, Next, TotalPages, Walk;
    FlatBound(layout, a);
    WalkFlat(layout, a, j);
    WalkFlat(layout, a, k);
  }

  /** ...and ends where it began. */
  lemma WalkReturns(layout: Layout, a: Addr)
    requires NoEmptyBlock(layout) && Inside(layout, a)
    ensures Walk(layout, a, TotalPages(layout)) == a
  {
    hide Flat, Next, TotalPages, Walk;
    FlatBound(layout, a);
    WalkFlat(layout, a, TotalPages(layout));
    FlatInjective(layout, Walk(layout, a, TotalPages(layout)), a);
  }
}
