/** The saving side of RAM migration as it runs: the uniform-page test on machine
    words, the cyclic search for a dirty page, and the three stages. */
module RamSaving {
  import opened RamSafety
  import opened RamScan
  import opened RamStream
  import opened Wire
  import opened Wrappers

  // ------------------------------------------------------------- uniform pages

  /** ~0UL / 255. */
  const ONES: nat := 0x0101_0101_0101_0101

  ghost predicate AllEqual(s: seq<Byte>, v: Byte) {
    forall i :: 0 <= i < |s| ==> s[i] == v
  }

  lemma {:induction false} BeInjective(s: seq<Byte>, t: seq<Byte>)
    requires |s| == |t| && BeValue(s) == BeValue(t)
    ensures s == t
  {
    if s == [] {
    } else {
      BeInjective(s[..|s| - 1], t[..|t| - 1]);
      assert s == s[..|s| - 1] + [s[|s| - 1]];
      assert t == t[..|t| - 1] + [t[|t| - 1]];
    }
  }

  function Repeat(v: Byte, n: nat): seq<Byte> { seq(n, _ => v) }

  lemma {:induction false} RepeatValue(v: Byte, n: nat)
    ensures BeValue(Repeat(v, n + 1)) == BeValue(Repeat(v, n)) * 256 + v
  {
    assert Repeat(v, n + 1)[..n] == Repeat(v, n);
  }

  lemma SplatValue(v: Byte)
    ensures BeValue(Repeat(v, 8)) == v * ONES
  {
    assert Repeat(v, 0) == [];
    RepeatValue(v, 0);
    RepeatValue(v, 1);
    RepeatValue(v, 2);
    RepeatValue(v, 3);
    RepeatValue(v, 4);
    RepeatValue(v, 5);
    RepeatValue(v, 6);
    RepeatValue(v, 7);
  }

  /** A machine word equals the splatted byte exactly when all its bytes do. */
  lemma SplatExact(w: seq<Byte>, v: Byte)
    requires |w| == 8
    ensures BeValue(w) == v * ONES <==> AllEqual(w, v)
  {
    SplatValue(v);
    if BeValue(w) == v * ONES { BeInjective(w, Repeat(v, 8)); }
    if AllEqual(w, v) { assert w == Repeat(v, 8); }
  }

  lemma NextWord(page: Page, i: nat, v: Byte)
    requires 8 * i + 8 <= PAGE
    ensures AllEqual(page[..8 * i + 8], v) <==> AllEqual(page[..8 * i], v) && AllEqual(page[8 * i..8 * i + 8], v)
  {
    var front, word, both := page[..8 * i], page[8 * i..8 * i + 8], page[..8 * i + 8];
    assert both == front + word;
    if AllEqual(both, v) {
      forall k | 0 <= k < |word| ensures word[k] == v {
        assert both[8 * i + k] == v;
      }
      forall k | 0 <= k < |front| ensures front[k] == v {
        assert both[k] == v;
      }
    }
  }

  method IsDupPage(page: Page) returns (dup: bool)
    ensures dup <==> AllEqual(page, page[0])
  {
    var val := page[0] * ONES;
    var i := 0;
    assert page[..0] == [];
    while i < PAGE / 8
      invariant i <= PAGE / 8 && AllEqual(page[..8 * i], page[0])
    {
      NextWord(page, i, page[0]);
      SplatExact(page[8 * i..8 * i + 8], page[0]);
      if BeValue(page[8 * i..8 * i + 8]) != val {
        assert !AllEqual(page[..8 * i + 8], page[0]);
        return false;
      }
      i := i + 1;
    }
    assert page[..PAGE] == page;
    dup := true;
  }

  // ------------------------------------------------------------------- encoder

  function LastOf(last: Option<nat>, rs: seq<Record>): Option<nat> {
    if rs == [] then last else LastAfter(LastOf(last, rs[..|rs| - 1]), rs[|rs| - 1])
  }

  lemma LastOfAppend(last: Option<nat>, rs: seq<Record>, r: Record)
    ensures LastOf(last, rs + [r]) == LastAfter(LastOf(last, rs), r)
  {
    assert (rs + [r])[..|rs|] == rs;
  }

  lemma {:induction false} LastOfCons(last: Option<nat>, r: Record, rs: seq<Record>)
    ensures LastOf(last, [r] + rs) == LastOf(LastAfter(last, r), rs)
    decreases |rs|
  {
    if rs == [] {
      assert [r] + rs == [] + [r];
      LastOfAppend(last, [], r);
    } else {
      var front, end := rs[..|rs| - 1], rs[|rs| - 1];
      assert rs == front + [end] && [r] + rs == ([r] + front) + [end];
      LastOfAppend(last, [r] + front, end);
      LastOfAppend(LastAfter(last, r), front, end);
      LastOfCons(last, r, front);
    }
  }

  /** Bytes are only ever appended: the next record is encoded after the block
      the previous ones left behind. */
  lemma {:induction false} EncodeAppend(layout: Layout, last: Option<nat>, rs: seq<Record>, r: Record)
    requires LayoutOk(layout) && RecordsOk(layout, rs) && RecordOk(layout, r)
    ensures RecordsOk(layout, rs + [r])
    ensures EncodeAll(layout, last, rs + [r]) == EncodeAll(layout, last, rs) + Encode(layout, LastOf(last, rs), r)
    decreases |rs|
  {
    hide Encode, LayoutOk;
    if rs == [] {
      assert [] + [r] == [r];
      assert [r][1..] == [];
      assert EncodeAll(layout, last, [r]) == Encode(layout, last, r) + EncodeAll(layout, LastAfter(last, r), []);
      assert Encode(layout, last, r) + [] == Encode(layout, last, r) == [] + Encode(layout, last, r);
    } else {
      var head, tail := rs[0], rs[1..];
      assert (rs + [r])[1..] == tail + [r] && rs == [head] + tail;
      EncodeAppend(layout, LastAfter(last, head), tail, r);
      LastOfCons(last, head, tail);
    }
  }

  /** What sending page `a` puts on the stream. */
  ghost function RecordFor(layout: Layout, ram: Ram, a: Addr): Record
    requires Fits(layout, ram) && Inside(layout, a)
  {
    var page := At(layout, ram, a);
    if AllEqual(page, page[0]) then Fill(a, page[0]) else Full(a, page)
  }

  lemma RecordForContent(layout: Layout, ram: Ram, a: Addr)
    requires Fits(layout, ram) && Inside(layout, a)
    ensures RecordOk(layout, RecordFor(layout, ram, a)) && Content(RecordFor(layout, ram, a)) == At(layout, ram, a)
  {
    var page := At(layout, ram, a);
    if AllEqual(page, page[0]) { assert Uniform(page[0]) == page; }
  }

  /** Sending a page keeps the migration invariant. */
  lemma SendKeepsInv(layout: Layout, dst: Ram, s: Source, a: Addr)
    requires Inv(layout, dst, s) && s.phase.Idle? && Inside(layout, a)
    ensures Inv(layout, dst, s.(dirty := s.dirty - {a}, sent := s.sent + [RecordFor(layout, s.ram, a)]))
  {
    hide Fits, Replay, RecordFor;
    RecordForContent(layout, s.ram, a);
    var c := s.(dirty := s.dirty - {a}, phase := Cleared(a));
    assert Inv(layout, dst, c);
    assert RecordFor(layout, s.ram, a).a == a by { SameAddr(layout, s.ram, a); }
    EmitInv(layout, dst, c, RecordFor(layout, s.ram, a));
  }

  lemma {:induction false} RunCons(layout: Layout, s: Source, step: Step, steps: seq<Step>)
    requires Enabled(layout, s, step) && ValidRun(layout, Apply(layout, s, step), steps)
    ensures ValidRun(layout, s, [step] + steps)
    ensures Exec(layout, s, [step] + steps) == Exec(layout, Apply(layout, s, step), steps)
  {
    assert ([step] + steps)[1..] == steps;
  }

  lemma RunNothing(layout: Layout, s: Source)
    ensures ValidRun(layout, s, []) && Exec(layout, s, []) == s
  {
  }

  /** The rest of a copy. */
  lemma {:induction false} CopyRun(layout: Layout, s: Source) returns (steps: seq<Step>)
    requires Fits(layout, s.ram) && s.phase.Copying? && Inside(layout, s.phase.a)
    requires s.phase.seen <= At(layout, s.ram, s.phase.a)
    ensures ValidRun(layout, s, steps)
    ensures Exec(layout, s, steps) ==
              s.(phase := Idle, sent := s.sent + [Full(s.phase.a, At(layout, s.ram, s.phase.a))])
    decreases PAGE - |s.phase.seen|
  {
    hide ValidRun, Exec, Fits;
    var page := At(layout, s.ram, s.phase.a);
    if |s.phase.seen| == PAGE {
      assert s.phase.seen == page;
      RunNothing(layout, Apply(layout, s, EmitFull));
      RunCons(layout, s, EmitFull, []);
      steps := [EmitFull] + [];
    } else {
      var rest := CopyRun(layout, Apply(layout, s, Copy));
      RunCons(layout, s, Copy, rest);
      steps := [Copy] + rest;
    }
  }

  /** The rest of a comparison and what follows from it. */
  lemma {:induction false} CompareRun(layout: Layout, s: Source) returns (steps: seq<Step>)
    requires Fits(layout, s.ram) && s.phase.Comparing? && Inside(layout, s.phase.a) && s.phase.i < PAGE
    requires s.phase.first == At(layout, s.ram, s.phase.a)[0]
    requires forall k :: 0 <= k < s.phase.i ==> At(layout, s.ram, s.phase.a)[k] == s.phase.first
    ensures ValidRun(layout, s, steps)
    ensures Exec(layout, s, steps) == s.(phase := Idle, sent := s.sent + [RecordFor(layout, s.ram, s.phase.a)])
    decreases PAGE - s.phase.i
  {
    hide ValidRun, Exec, Fits;
    var next := Apply(layout, s, Compare);
    var rest;
    if next.phase.Copying? {
      assert [] <= At(layout, s.ram, s.phase.a);
      rest := CopyRun(layout, next);
    } else if next.phase.Filling? {
      RunNothing(layout, Apply(layout, next, EmitFill));
      RunCons(layout, next, EmitFill, []);
      rest := [EmitFill] + [];
    } else {
      rest := CompareRun(layout, next);
    }
    RunCons(layout, s, Compare, rest);
    steps := [Compare] + rest;
  }

  /** Sending a dirty page without interference is a run of the step system from
      idle to idle: the bit is cleared, the bytes compared, and the record sent. */
  lemma SendIsRun(layout: Layout, s: Source, a: Addr) returns (steps: seq<Step>)
    requires Fits(layout, s.ram) && s.phase.Idle? && Inside(layout, a) && a in s.dirty
    ensures ValidRun(layout, s, steps)
    ensures Exec(layout, s, steps) == s.(dirty := s.dirty - {a}, sent := s.sent + [RecordFor(layout, s.ram, a)])
  {
    hide ValidRun, Exec, Fits, RecordFor;
    var cleared := Apply(layout, s, Clear(a));
    var begun := Apply(layout, cleared, ReadFirst);
    var rest := CompareRun(layout, begun);
    RunCons(layout, cleared, ReadFirst, rest);
    RunCons(layout, s, Clear(a), [ReadFirst] + rest);
    steps := [Clear(a)] + ([ReadFirst] + rest);
  }

  lemma SameAddr(layout: Layout, ram: Ram, a: Addr)
    requires Fits(layout, ram) && Inside(layout, a)
    ensures !RecordFor(layout, ram, a).Sizes? && !RecordFor(layout, ram, a).Eos? && RecordFor(layout, ram, a).a == a
  {
  }

  // --------------------------------------------------------------------- saver

  class RamSaver {
    const layout: Layout
    var ram: Ram
    var dirty: set<Addr>
    var lastBlock: Option<nat>
    var lastPage: nat
    var out: seq<Byte>
    ghost var sent: seq<Record>

    /** The saver's state in the terms of the step system, between two pages and
        with the guest's stores synchronised. */
    ghost function State(): Source
      reads this
    {
      Source(ram, dirty, {}, Idle, sent)
    }

    ghost predicate Valid()
      reads this
    {
      && LayoutOk(layout) && |layout| > 0 && NoEmptyBlock(layout)
      && Fits(layout, ram)
      && (forall a :: a in dirty ==> Inside(layout, a))
      && (lastBlock.Some? ==> Inside(layout, Addr(lastBlock.value, lastPage)))
      && (lastBlock.None? ==> lastPage == 0)
      && RecordsOk(layout, sent) && out == EncodeAll(layout, None, sent)
      && lastBlock == LastOf(None, sent)
    }

    constructor (layout: Layout, ram: Ram)
      requires LayoutOk(layout) && |layout| > 0 && NoEmptyBlock(layout) && Fits(layout, ram)
      ensures Valid() && this.layout == layout && this.ram == ram && dirty == {} && out == [] && sent == []
    {
      this.layout, this.ram, this.dirty := layout, ram, {};
      this.lastBlock, this.lastPage, this.out, this.sent := None, 0, [], [];
    }

    /** Where the next search begins. */
    function Start(): Addr
      reads this
    {
      Addr(if lastBlock.Some? then lastBlock.value else 0, lastPage)
    }

    /** Writes one record and remembers its block. */
    method Emit(ghost r: Record, bytes: seq<Byte>)
      requires Valid() && RecordOk(layout, r) && bytes == Encode(layout, lastBlock, r)
      modifies `out, `sent
      ensures sent == old(sent) + [r] && RecordsOk(layout, sent) && out == EncodeAll(layout, None, sent)
      ensures LastOf(None, sent) == LastAfter(old(lastBlock), r)
    {
      EncodeAppend(layout, None, sent, r);
      LastOfAppend(None, sent, r);
      out := out + bytes;
      sent := sent + [r];
    }

    /** Clears the dirty bit of page `a` and sends the page. */
    method SendPage(a: Addr, ghost dst: Ram) returns (bytes: nat)
      requires Valid() && Inside(layout, a) && Inv(layout, dst, State())
      modifies `dirty, `out, `sent, `lastBlock, `lastPage
      ensures Valid() && Inv(layout, dst, State())
      ensures bytes == (if RecordFor(layout, ram, a).Fill? then 1 else PAGE) && dirty == old(dirty) - {a}
      ensures sent == old(sent) + [RecordFor(layout, ram, a)]
      ensures lastBlock == Some(a.b) && lastPage == a.p
    {
      hide EncodeAll, Inv, LayoutOk, Fits, PageHeader, LastOf, NoEmptyBlock;
      SendKeepsInv(layout, dst, State(), a);
      RecordForContent(layout, ram, a);
      dirty := dirty - {a};
      var page := At(layout, ram, a);
      var dup := IsDupPage(page);
      if dup {
        Emit(Fill(a, page[0]), PageHeader(layout, lastBlock, a, FLAG_COMPRESS) + [page[0]]);
        bytes := 1;
      } else {
        Emit(Full(a, page), PageHeader(layout, lastBlock, a, FLAG_PAGE) + page);
        bytes := PAGE;
      }
      lastBlock, lastPage := Some(a.b), a.p;
    }

    /** Looks at pages in cyclic order until one is dirty or, once a page has
        been sent before, the search is back where it began.  Before that only a
        dirty page stops it, so there must be one. */
    method FindDirty() returns (found: bool, a: Addr, ghost k: nat)
      requires Valid() && (lastBlock.Some? || dirty != {})
      ensures found <==> dirty != {}
      ensures Start() == if lastBlock.Some? then Addr(lastBlock.value, lastPage) else Addr(0, 0)
      ensures Inside(layout, Start()) && NoEmptyBlock(layout)
      ensures found ==> a == Walk(layout, Start(), k) && a in dirty && Inside(layout, a)
      ensures found ==> forall j: nat :: j < k ==> Walk(layout, Start(), j) !in dirty
    {
      hide EncodeAll, LayoutOk, Fits, LastOf, NoEmptyBlock, Next, TotalPages;
      StartInside();
      ghost var start, n := Start(), TotalPages(layout);
      ghost var bound := n;
      FlatBound(layout, start);
      if dirty != {} {
        ghost var d :| d in dirty;
        bound := WalkCovers(layout, start, d);
      }
      a, k := Start(), 0;
      while true
        invariant Inside(layout, a) && a == Walk(layout, start, k) && k < n && k <= bound
        invariant forall j: nat :: j < k ==> Walk(layout, start, j) !in dirty
        decreases n - k
      {
        if a in dirty {
          return true, a, k;
        }
        a, k := Next(layout, a), k + 1;
        assert a == Walk(layout, start, k);
        WalkReturns(layout, start);
        if lastBlock.Some? && a.b == lastBlock.value && a.p == lastPage {
          BackAtStart(layout, start, k);
          NothingDirty(layout, start, dirty);
          return false, a, k;
        }
      }
    }

    /** Sends the first dirty page in cyclic order from where the last one was
        sent, or reports that there is none. */
    method RamSaveBlock(ghost dst: Ram) returns (bytes: nat, ghost k: nat)
      requires Valid() && Inv(layout, dst, State()) && (lastBlock.Some? || dirty != {})
      modifies `dirty, `out, `sent, `lastBlock, `lastPage
      ensures Valid() && Inv(layout, dst, State())
      ensures bytes == 0 <==> old(dirty) == {}
      ensures bytes == 0 ==> dirty == old(dirty) && out == old(out) && sent == old(sent)
      ensures bytes == 0 ==> lastBlock == old(lastBlock) && lastPage == old(lastPage)
      ensures Inside(layout, old(Start())) && NoEmptyBlock(layout)
      ensures bytes != 0 ==>
                var a := Walk(layout, old(Start()), k);
                && a in old(dirty) && dirty == old(dirty) - {a}
                && (forall j: nat :: j < k ==> Walk(layout, old(Start()), j) !in old(dirty))
                && sent == old(sent) + [RecordFor(layout, ram, a)]
                && lastBlock == Some(a.b) && lastPage == a.p
                && bytes == if RecordFor(layout, ram, a).Fill? then 1 else PAGE
    {
      hide EncodeAll, Inv, LayoutOk, Fits, LastOf, NoEmptyBlock, RecordFor, Walk;
      var found, a;
      found, a, k := FindDirty();
      bytes := 0;
      if found {
        bytes := SendPage(a, dst);
      }
    }

    /** Counts the dirty pages, block by block. */
    method SaveRemaining() returns (count: nat)
      requires Valid()
      ensures count == |dirty|
    {
      hide EncodeAll, LayoutOk, Fits, LastOf, RecordsOk;
      var b := 0;
      count := 0;
      assert Before(dirty, 0, 0) == {};
      while b < |layout|
        invariant b <= |layout| && count == |Before(dirty, b, 0)|
      {
        var p := 0;
        while p < layout[b].pages
          invariant p <= layout[b].pages && count == |Before(dirty, b, p)|
        {
          BeforeStep(dirty, b, p);
          if Addr(b, p) in dirty {
            count := count + 1;
          }
          p := p + 1;
        }
        assert Before(dirty, b, layout[b].pages) == Before(dirty, b + 1, 0) by {
          assert forall a :: a in dirty && a.b == b ==> Inside(layout, a);
        }
        b := b + 1;
      }
      assert Before(dirty, |layout|, 0) == dirty;
    }

    /** Stage 1: forget the last position, mark every page, send the table. */
    method Begin(ghost dst: Ram)
      requires LayoutOk(layout) && |layout| > 0 && NoEmptyBlock(layout) && Fits(layout, ram) && Fits(layout, dst)
      requires forall a :: a in dirty ==> Inside(layout, a)
      requires out == [] && sent == []
      modifies `dirty, `out, `sent, `lastBlock, `lastPage
      ensures Valid() && Inv(layout, dst, State())
      ensures Started(layout, State()) && lastBlock == None && dirty != {}
    {
      hide EncodeAll, LayoutOk, Fits, Replay;
      lastBlock, lastPage := None, 0;
      MarkAll();
      assert Inside(layout, Addr(0, 0));
      EmptyStream(layout);
      Emit(Sizes, Encode(layout, None, Sizes));
      assert [] + [Sizes] == [Sizes];
    }

    method MarkAll()
      requires forall a :: a in dirty ==> Inside(layout, a)
      modifies `dirty
      ensures forall a :: a in dirty <==> Inside(layout, a)
    {
      var b := 0;
      while b < |layout|
        invariant b <= |layout| && (forall a :: a in dirty ==> Inside(layout, a))
        invariant forall a :: Inside(layout, a) && a.b < b ==> a in dirty
      {
        var p := 0;
        while p < layout[b].pages
          invariant p <= layout[b].pages && (forall a :: a in dirty ==> Inside(layout, a))
          invariant forall a :: Inside(layout, a) && (a.b < b || (a.b == b && a.p < p)) ==> a in dirty
        {
          if Addr(b, p) !in dirty {
            dirty := dirty + {Addr(b, p)};
          }
          p := p + 1;
        }
        b := b + 1;
      }
    }

    /** Sends pages while the rate limit, here a number of pages, allows. */
    method Iterate(limit: nat, ghost dst: Ram)
      requires Valid() && Inv(layout, dst, State()) && (lastBlock.Some? || dirty != {})
      modifies `dirty, `out, `sent, `lastBlock, `lastPage
      ensures Valid() && Inv(layout, dst, State()) && (lastBlock.Some? || dirty != {})
      ensures dirty <= old(dirty) && |sent| == |old(sent)| + |old(dirty) - dirty|
      ensures |old(dirty) - dirty| == if limit < |old(dirty)| then limit else |old(dirty)|
    {
      hide EncodeAll, Inv, LayoutOk, Fits, LastOf, NoEmptyBlock, RecordFor, Walk, RecordsOk;
      var n := 0;
      while n < limit
        invariant n <= limit && Valid() && Inv(layout, dst, State()) && (lastBlock.Some? || dirty != {})
        invariant dirty <= old(dirty) && |old(dirty)| - |dirty| == n && |sent| == |old(sent)| + n
      {
        var bytes, k := RamSaveBlock(dst);
        if bytes == 0 {
          break;
        }
        n := n + 1;
      }
      SmallerBy(old(dirty), dirty);
    }

    /** Stage 3: sends whatever is left, regardless of the rate limit, then the
        end marker; from then on the records replay to the source's memory. */
    method Finish(ghost dst: Ram)
      requires Valid() && Inv(layout, dst, State()) && (lastBlock.Some? || dirty != {})
      modifies `dirty, `out, `sent, `lastBlock, `lastPage
      ensures Valid() && Inv(layout, dst, State())
      ensures dirty == {} && Drained(layout, State()) && SectionClosed(sent)
      ensures Fits(layout, dst) && Replay(layout, dst, sent) == ram
    {
      hide EncodeAll, Inv, LayoutOk, Fits, LastOf, NoEmptyBlock, RecordFor, Walk, RecordsOk, Replay;
      while true
        invariant Valid() && Inv(layout, dst, State()) && (lastBlock.Some? || dirty != {})
        decreases |dirty|
      {
        var bytes, k := RamSaveBlock(dst);
        if bytes == 0 {
          break;
        }
      }
      CloseSection(dst);
      FitsOf(layout, dst, State());
      DrainedEqual(layout, dst, State());
    }

    method CloseSection(ghost dst: Ram)
      requires Valid() && Inv(layout, dst, State())
      modifies `out, `sent
      ensures Valid() && Inv(layout, dst, State()) && SectionClosed(sent) && sent == old(sent) + [Eos]
    {
      hide EncodeAll, Inv, LayoutOk, Fits, LastOf, NoEmptyBlock, RecordsOk, Replay;
      MarkInv(layout, dst, State(), Eos);
      Emit(Eos, Be64(FLAG_EOS));
    }

    lemma StartInside()
      requires Valid()
      ensures Inside(layout, Start()) && NoEmptyBlock(layout)
    {
      assert layout[0].pages > 0;
    }
  }

  lemma {:induction false} SmallerBy(a: set<Addr>, b: set<Addr>)
    requires b <= a
    ensures |a - b| == |a| - |b|
    decreases |b|
  {
    if b == {} {
      assert a - b == a;
    } else {
      var x :| x in b;
      SmallerBy(a - {x}, b - {x});
      assert (a - {x}) - (b - {x}) == a - b;
    }
  }

  /** The walk is back at its start only after a whole cycle. */
  lemma BackAtStart(layout: Layout, start: Addr, k: nat)
    requires NoEmptyBlock(layout) && Inside(layout, start) && 0 < k <= TotalPages(layout)
    requires Walk(layout, start, k) == start
    ensures k == TotalPages(layout)
  {
    hide TotalPages;
    if k < TotalPages(layout) {
      WalkOnce(layout, start, 0, k);
    }
  }

  /** A whole cycle without a dirty page means that there is none. */
  lemma NothingDirty(layout: Layout, start: Addr, dirty: set<Addr>)
    requires NoEmptyBlock(layout) && Inside(layout, start)
    requires forall a :: a in dirty ==> Inside(layout, a)
    requires forall j: nat :: j < TotalPages(layout) ==> Walk(layout, start, j) !in dirty
    ensures dirty == {}
  {
    hide TotalPages;
    forall a | a in dirty ensures false {
      var k := WalkCovers(layout, start, a);
    }
  }

  /** The dirty pages that come before page `p` of block `b`. */
  ghost function Before(dirty: set<Addr>, b: nat, p: nat): set<Addr> {
    set a | a in dirty && (a.b < b || (a.b == b && a.p < p))
  }

  lemma BeforeStep(dirty: set<Addr>, b: nat, p: nat)
    ensures |Before(dirty, b, p + 1)| == |Before(dirty, b, p)| + if Addr(b, p) in dirty then 1 else 0
  {
    if Addr(b, p) in dirty {
      assert Before(dirty, b, p + 1) == Before(dirty, b, p) + {Addr(b, p)};
    } else {
      assert Before(dirty, b, p + 1) == Before(dirty, b, p);
    }
  }

  lemma EmptyStream(layout: Layout)
    requires LayoutOk(layout)
    ensures EncodeAll(layout, None, []) == [] && LastOf(None, []) == None
  {
  }

  lemma FitsOf(layout: Layout, dst: Ram, s: Source)
    requires Inv(layout, dst, s)
    ensures Fits(layout, dst)
  {
  }

  /** The search loop ends at its turn `k`. */
  predicate StopsAt(layout: Layout, last: Option<nat>, page: nat, dirty: set<Addr>, k: nat)
    requires |layout| > 0 && NoEmptyBlock(layout) && Inside(layout, Addr(if last.Some? then last.value else 0, page))
  {
    var start := Addr(if last.Some? then last.value else 0, page);
    var a := Walk(layout, start, k);
    a in dirty || (k > 0 && last.Some? && a == start)
  }

  /** The search loop ends exactly when a page has been sent before or some page
      is dirty; on a first call with nothing dirty it runs for ever. */
  lemma SearchStops(layout: Layout, last: Option<nat>, page: nat, dirty: set<Addr>)
    requires |layout| > 0 && NoEmptyBlock(layout) && Inside(layout, Addr(if last.Some? then last.value else 0, page))
    requires forall a :: a in dirty ==> Inside(layout, a)
    ensures (exists k: nat :: StopsAt(layout, last, page, dirty, k)) <==> last.Some? || dirty != {}
  {
    hide TotalPages, Walk;
    var start := Addr(if last.Some? then last.value else 0, page);
    FlatBound(layout, start);
    if last.Some? {
      WalkReturns(layout, start);
      assert StopsAt(layout, last, page, dirty, TotalPages(layout));
    } else if dirty != {} {
      var d :| d in dirty;
      var k := WalkCovers(layout, start, d);
      assert StopsAt(layout, last, page, dirty, k);
    }
  }
}
