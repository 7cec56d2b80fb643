/** Sector ranges and their rounding to whole clusters, as the tracked-request
    code of the block layer uses them. */
module Clusters {
  import opened Arithmetic

  /** `len` sectors from sector `start` on. */
  datatype Span = Span(start: nat, len: nat)

  predicate In(x: nat, s: Span) {
    s.start <= x < s.start + s.len
  }

  ghost predicate Disjoint(s: Span, t: Span) {
    forall x: nat :: !(In(x, s) && In(x, t))
  }

  function AlignDown(n: nat, m: nat): (r: nat)
    requires m > 0
    ensures r <= n < r + m
  {
    assert n == n / m * m + n % m;
    n / m * m
  }

  function AlignUp(n: nat, m: nat): nat
    requires m > 0
  {
    AlignDown(n + m - 1, m)
  }

  /** `c` is the cluster size in sectors, 0 when the driver reports none. */
  function RoundToClusters(c: nat, s: Span): Span {
    if c == 0 then s
    else
      var start := AlignDown(s.start, c);
      Span(start, AlignUp(s.start - start + s.len, c))
  }

  /** The test of a stored request `req` against a range. */
  predicate Overlaps(req: Span, s: Span) {
    !(s.start >= req.start + req.len) && !(req.start >= s.start + s.len)
  }

  /** The cluster a sector lies in; without clusters every sector is its own. */
  function ClusterOf(c: nat, x: nat): nat {
    if c == 0 then x else x / c
  }

  ghost predicate ShareCluster(c: nat, s: Span, t: Span) {
    exists x: nat, y: nat :: In(x, s) && In(y, t) && ClusterOf(c, x) == ClusterOf(c, y)
  }

  // ------------------------------------------------------------------ rounding

  /** The rounded range consists of the clusters `first..past`. */
  function FirstCluster(c: nat, s: Span): nat
    requires c > 0
  {
    s.start / c
  }

  function PastCluster(c: nat, s: Span): nat
    requires c > 0
  {
    if s.len == 0 && s.start % c == 0 then s.start / c
    else (s.start + s.len + c - 1) / c
  }

  lemma RoundedBounds(c: nat, s: Span)
    requires c > 0
    ensures var r := RoundToClusters(c, s);
            r.start == FirstCluster(c, s) * c && r.start + r.len == PastCluster(c, s) * c
  {
    var q := s.start / c;
    DivSplit(s.start, c);
    DivRest(s.start, c);
    var rest := s.start - q * c;
    var n := rest + s.len + c - 1;
    assert s.start + s.len + c - 1 == q * c + n;
    DivShift(q, n, c);
    MulSum(q, n / c, c);
    if s.len == 0 && s.start % c == 0 {
      DivBetween(c - 1, c, 0, 1);
    }
  }

  /** A sector is in the rounded range exactly when its cluster is one of them. */
  lemma RoundedMembership(c: nat, s: Span, x: nat)
    requires c > 0
    ensures In(x, RoundToClusters(c, s)) <==> FirstCluster(c, s) <= x / c < PastCluster(c, s)
  {
    RoundedBounds(c, s);
    DivBetween(x, c, FirstCluster(c, s), PastCluster(c, s));
  }

  lemma RoundingCovers(c: nat, s: Span)
    ensures forall x: nat :: In(x, s) ==> In(x, RoundToClusters(c, s))
  {
    if c > 0 {
      forall x: nat | In(x, s) ensures In(x, RoundToClusters(c, s)) {
        RoundedMembership(c, s, x);
        DivMonotone(s.start, x, c);
        DivShift(1, x, c);
        DivMonotone(x + c, s.start + s.len + c - 1, c);
      }
    }
  }

  /** Rounding yields exactly the sectors of the clusters the range touches. */
  lemma RoundingIsClusterClosure(c: nat, s: Span, x: nat)
    requires s.len > 0
    ensures In(x, RoundToClusters(c, s)) <==> exists y: nat :: In(y, s) && ClusterOf(c, x) == ClusterOf(c, y)
  {
    if c > 0 {
      RoundedMembership(c, s, x);
      var last := s.start + s.len - 1;
      DivShift(1, last, c);
      assert PastCluster(c, s) == last / c + 1;
      if s.start / c <= x / c <= last / c {
        var y := WitnessIn(c, s, x / c);
        assert ClusterOf(c, x) == ClusterOf(c, y);
      }
      forall y: nat | In(y, s) && ClusterOf(c, x) == ClusterOf(c, y)
        ensures s.start / c <= x / c <= last / c
      {
        DivMonotone(s.start, y, c);
        DivMonotone(y, last, c);
      }
    }
  }

  lemma WitnessIn(c: nat, s: Span, q: nat) returns (y: nat)
    requires c > 0 && s.len > 0
    requires s.start / c <= q <= (s.start + s.len - 1) / c
    ensures In(y, s) && y / c == q
  {
    if q == s.start / c {
      y := s.start;
    } else {
      y := q * c;
      DivSplit(s.start, c);
      MulMonotone(s.start / c + 1, q, c);
      DivSplit(s.start + s.len - 1, c);
      MulMonotone(q, (s.start + s.len - 1) / c, c);
      DivShift(q, 0, c);
    }
  }

  /** Rounding only the newcomer `s` finds the stored `t` exactly when the two
      touch a common cluster. */
  lemma OverlapDetectsSharedCluster(c: nat, s: Span, t: Span)
    requires s.len > 0 && t.len > 0
    ensures Overlaps(t, RoundToClusters(c, s)) <==> ShareCluster(c, s, t)
  {
    var r := RoundToClusters(c, s);
    if Overlaps(t, r) {
      RoundingCovers(c, s);
      assert In(s.start, r);
      var y := if r.start <= t.start then t.start else r.start;
      assert In(y, t) && In(y, r);
      RoundingIsClusterClosure(c, s, y);
      var x: nat :| In(x, s) && ClusterOf(c, y) == ClusterOf(c, x);
      assert In(x, s) && In(y, t) && ClusterOf(c, x) == ClusterOf(c, y);
    }
    if ShareCluster(c, s, t) {
      var x: nat, y: nat :| In(x, s) && In(y, t) && ClusterOf(c, x) == ClusterOf(c, y);
      RoundingIsClusterClosure(c, s, y);
    }
  }

  /** For every length, zero included: a range that the test lets through has no
      sector in common with the stored request's own clusters. */
  lemma NoOverlapMeansDisjoint(c: nat, s: Span, t: Span)
    requires !Overlaps(t, RoundToClusters(c, s))
    ensures Disjoint(RoundToClusters(c, s), RoundToClusters(c, t))
  {
    forall x: nat | In(x, RoundToClusters(c, s)) && In(x, RoundToClusters(c, t))
      ensures false
    {
      if c > 0 {
        RoundedMembership(c, s, x);
        RoundedMembership(c, t, x);
        RoundedBounds(c, s);
        SeparatedClusters(c, s, t);
      }
    }
  }

  /** A range that ends at or before cluster `a` has all its clusters before it. */
  lemma EndsBefore(c: nat, t: Span, a: nat)
    requires c > 0 && t.start + t.len <= a * c
    ensures PastCluster(c, t) <= a
  {
    if t.len == 0 && t.start % c == 0 {
      DivShift(a, 0, c);
      DivMonotone(t.start, a * c, c);
    } else {
      DivShift(a, c - 1, c);
      DivBetween(c - 1, c, 0, 1);
      DivMonotone(t.start + t.len + c - 1, a * c + (c - 1), c);
    }
  }

  lemma StartsAfter(c: nat, t: Span, b: nat)
    requires c > 0 && b * c <= t.start
    ensures b <= FirstCluster(c, t)
  {
    DivShift(b, 0, c);
    DivMonotone(b * c, t.start, c);
  }

  lemma SeparatedClusters(c: nat, s: Span, t: Span)
    requires c > 0
    requires !Overlaps(t, RoundToClusters(c, s))
    ensures PastCluster(c, s) <= FirstCluster(c, t) || PastCluster(c, t) <= FirstCluster(c, s)
  {
    hide RoundToClusters, FirstCluster, PastCluster;
    RoundedBounds(c, s);
    if t.start >= PastCluster(c, s) * c {
      StartsAfter(c, t, PastCluster(c, s));
    } else {
      EndsBefore(c, t, FirstCluster(c, s));
    }
  }
}
