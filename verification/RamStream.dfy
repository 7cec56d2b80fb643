/** The RAM migration stream: what the saver writes for the size table, a uniform
    page, a full page and the end of a section, and how the loader reads it. */
module RamStream {
  import opened Wire
  import opened Wrappers

  const PAGE: nat := 4096

  const FLAG_COMPRESS: nat := 0x02
  const FLAG_MEM_SIZE: nat := 0x04
  const FLAG_PAGE: nat := 0x08
  const FLAG_EOS: nat := 0x10
  const FLAG_CONTINUE: nat := 0x20

  // -------------------------------------------------------------------- memory

  datatype Block = Block(id: seq<Byte>, pages: nat)

  type Layout = seq<Block>
  type Page = s: seq<Byte> | |s| == PAGE witness seq(PAGE, _ => 0)
  type Ram = seq<seq<Page>>

  datatype Addr = Addr(b: nat, p: nat)

  predicate NameOk(id: seq<Byte>) {
    |id| < 256 && forall i :: 0 <= i < |id| ==> id[i] != 0
  }

  function TotalPages(layout: Layout): nat {
    if layout == [] then 0 else layout[0].pages + TotalPages(layout[1..])
  }

  ghost predicate LayoutOk(layout: Layout) {
    && (forall b :: 0 <= b < |layout| ==> NameOk(layout[b].id) && layout[b].pages > 0)
    && (forall b, c :: 0 <= b < c < |layout| ==> layout[b].id != layout[c].id)
    && TotalPages(layout) * PAGE < TWO64
  }

  predicate Inside(layout: Layout, a: Addr) {
    a.b < |layout| && a.p < layout[a.b].pages
  }

  predicate Fits(layout: Layout, ram: Ram) {
    |ram| == |layout| && forall b :: 0 <= b < |layout| ==> |ram[b]| == layout[b].pages
  }

  function At(layout: Layout, ram: Ram, a: Addr): Page
    requires Fits(layout, ram) && Inside(layout, a)
  {
    ram[a.b][a.p]
  }

  function Put(layout: Layout, ram: Ram, a: Addr, page: Page): (r: Ram)
    requires Fits(layout, ram) && Inside(layout, a)
    ensures Fits(layout, r) && At(layout, r, a) == page
    ensures forall c :: Inside(layout, c) && c != a ==> At(layout, r, c) == At(layout, ram, c)
  {
    var row: seq<Page> := ram[a.b][..a.p] + [page] + ram[a.b][a.p + 1..];
    ram[..a.b] + [row] + ram[a.b + 1..]
  }

  function Uniform(ch: Byte): Page {
    seq(PAGE, _ => ch)
  }

  // ------------------------------------------------------------------- records

  datatype Record =
    | Sizes
    | Fill(a: Addr, ch: Byte)
    | Full(a: Addr, data: Page)
    | Eos

  predicate RecordOk(layout: Layout, r: Record) {
    r.Fill? || r.Full? ==> Inside(layout, r.a)
  }

  /** The page a record leaves at its address. */
  function Content(r: Record): Page
    requires r.Fill? || r.Full?
  {
    if r.Fill? then Uniform(r.ch) else r.data
  }

  function ApplyRecord(layout: Layout, ram: Ram, r: Record): (ram': Ram)
    requires Fits(layout, ram) && RecordOk(layout, r)
    ensures Fits(layout, ram')
  {
    if r.Fill? || r.Full? then Put(layout, ram, r.a, Content(r)) else ram
  }

  // -------------------------------------------------------------------- saving

  function SizeTable(layout: Layout): seq<Byte>
    requires forall b :: 0 <= b < |layout| ==> NameOk(layout[b].id)
  {
    if layout == [] then []
    else
      assert NameOk(layout[0].id);
      Counted(layout[0].id) + Be64(layout[0].pages * PAGE) + SizeTable(layout[1..])
  }

  /** The first eight bytes of a page record and the name unless continued. */
  function PageHeader(layout: Layout, last: Option<nat>, a: Addr, flag: nat): (s: seq<Byte>)
    requires LayoutOk(layout) && Inside(layout, a)
    ensures |s| >= 8
  {
    var cont := last == Some(a.b);
    Be64(a.p * PAGE + flag + if cont then FLAG_CONTINUE else 0)
    + if cont then [] else Counted(layout[a.b].id)
  }

  function Encode(layout: Layout, last: Option<nat>, r: Record): (s: seq<Byte>)
    requires LayoutOk(layout) && RecordOk(layout, r)
    ensures |s| >= 8
  {
    match r
    case Sizes => Be64(TotalPages(layout) * PAGE + FLAG_MEM_SIZE) + SizeTable(layout)
    case Fill(a, ch) => PageHeader(layout, last, a, FLAG_COMPRESS) + [ch]
    case Full(a, data) => PageHeader(layout, last, a, FLAG_PAGE) + data
    case Eos => Be64(FLAG_EOS)
  }

  /** The block the saver remembers after a record; the size table opens a new
      migration, which forgets it. */
  function LastAfter(last: Option<nat>, r: Record): Option<nat> {
    match r
    case Sizes => None
    case Fill(a, _) => Some(a.b)
    case Full(a, _) => Some(a.b)
    case Eos => last
  }

  // ------------------------------------------------------------------- loading

  function TakeBytes(s: seq<Byte>, n: nat): Result<(seq<Byte>, seq<Byte>)> {
    if |s| < n then Err(EndOfStream) else Ok((s[..n], s[n..]))
  }

  function TakeBe64(s: seq<Byte>): Result<(nat, seq<Byte>)> {
    if |s| < 8 then Err(EndOfStream) else Ok((BeValue(s[..8]), s[8..]))
  }

  /** A counted name, as the string functions will see it. */
  function TakeName(s: seq<Byte>): Result<(seq<Byte>, seq<Byte>)> {
    if |s| < 1 || |s| - 1 < s[0] then Err(EndOfStream)
    else Ok((CStr(s[1..][..s[0]]), s[1..][s[0]..]))
  }

  function FindBlock(layout: Layout, id: seq<Byte>): (r: Option<nat>)
    ensures r.Some? ==> r.value < |layout| && layout[r.value].id == id
    ensures r.Some? ==> forall b :: 0 <= b < r.value ==> layout[b].id != id
    ensures r.None? ==> forall b :: 0 <= b < |layout| ==> layout[b].id != id
  {
    FindBlockFrom(layout, id, 0)
  }

  function FindBlockFrom(layout: Layout, id: seq<Byte>, i: nat): (r: Option<nat>)
    requires i <= |layout|
    ensures r.Some? ==> i <= r.value < |layout| && layout[r.value].id == id
    ensures r.Some? ==> forall b :: i <= b < r.value ==> layout[b].id != id
    ensures r.None? ==> forall b :: i <= b < |layout| ==> layout[b].id != id
    decreases |layout| - i
  {
    if i == |layout| then None
    else if layout[i].id == id then Some(i)
    else FindBlockFrom(layout, id, i + 1)
  }

  /** The size table: every entry must name a block of the same length. */
  function LoadSizes(layout: Layout, total: nat, s: seq<Byte>): (r: Result<seq<Byte>>)
    ensures r.Ok? ==> |r.value| <= |s|
    decreases |s|
  {
    if total == 0 then Ok(s)
    else
      var (id, s1) :- TakeName(s);
      var (length, s2) :- TakeBe64(s1);
      match FindBlock(layout, id)
      case None => Err(BadStream)
      case Some(b) =>
        if layout[b].pages * PAGE != length then Err(BadStream)
        else LoadSizes(layout, (total - length) % TWO64, s2)
  }

  predicate Has(flags: nat, flag: nat)
    requires flag > 0
  {
    flags / flag % 2 == 1
  }

  /** The block a page record belongs to: the remembered one, or by name. */
  function HostBlock(layout: Layout, block: Option<nat>, flags: nat, s: seq<Byte>): Result<(nat, seq<Byte>)> {
    if Has(flags, FLAG_CONTINUE) then
      if block.None? then Err(BadStream) else Ok((block.value, s))
    else
      var (id, rest) :- TakeName(s);
      match FindBlock(layout, id)
      case None => Err(BadStream)
      case Some(b) => Ok((b, rest))
  }

  /** A full page is read to wherever the lookup points, found or not. */
  function Unchecked<T>(r: Result<T>): Result<T> {
    if r == Err(BadStream) then Err(Fault) else r
  }

  /** Destination memory and the loader's static block. */
  datatype Loader = Loader(ram: Ram, block: Option<nat>)

  function LoadPage(layout: Layout, st: Loader, addr: nat, flags: nat, s: seq<Byte>): (r: Result<(Loader, seq<Byte>)>)
    requires Fits(layout, st.ram)
    ensures r.Ok? ==> Fits(layout, r.value.0.ram) && |r.value.1| <= |s|
  {
    if Has(flags, FLAG_COMPRESS) then
      var (b, s1) :- HostBlock(layout, st.block, flags, s);
      var (ch, s2) :- TakeBytes(s1, 1);
      if !Inside(layout, Addr(b, addr / PAGE)) then Err(Fault)
      else Ok((Loader(Put(layout, st.ram, Addr(b, addr / PAGE), Uniform(ch[0])), Some(b)), s2))
    else if Has(flags, FLAG_PAGE) then
      var (b, s1) :- Unchecked(HostBlock(layout, st.block, flags, s));
      var (data, s2) :- TakeBytes(s1, PAGE);
      if !Inside(layout, Addr(b, addr / PAGE)) then Err(Fault)
      else Ok((Loader(Put(layout, st.ram, Addr(b, addr / PAGE), data), Some(b)), s2))
    else Ok((st, s))
  }

  /** One turn of the loading loop; the flags tell whether it was the last. */
  function LoadRecord(layout: Layout, st: Loader, s: seq<Byte>): (r: Result<(Loader, nat, seq<Byte>)>)
    requires Fits(layout, st.ram)
    ensures r.Ok? ==> Fits(layout, r.value.0.ram) && |r.value.2| < |s|
  {
    var (v, s1) :- TakeBe64(s);
    var flags := v % PAGE;
    var addr := v - flags;
    var s2 :- if Has(flags, FLAG_MEM_SIZE) then LoadSizes(layout, addr, s1) else Ok(s1);
    var (st', s3) :- LoadPage(layout, st, addr, flags, s2);
    Ok((st', flags, s3))
  }

  /** One section: records up to and including the end marker. */
  function LoadSection(layout: Layout, st: Loader, s: seq<Byte>): (r: Result<(Loader, seq<Byte>)>)
    requires Fits(layout, st.ram)
    ensures r.Ok? ==> Fits(layout, r.value.0.ram) && |r.value.1| < |s|
    decreases |s|
  {
    var (st', flags, s') :- LoadRecord(layout, st, s);
    if Has(flags, FLAG_EOS) then Ok((st', s')) else LoadSection(layout, st', s')
  }

  // ---------------------------------------------------------------- round trip

  lemma TakeCountedName(id: seq<Byte>, rest: seq<Byte>)
    requires NameOk(id)
    ensures TakeName(Counted(id) + rest) == Ok((id, rest))
  {
    CountedFront(id, rest);
    CStrOfName(id);
  }

  lemma TakeNumber(v: nat, rest: seq<Byte>)
    requires v < TWO64
    ensures TakeBe64(Be64(v) + rest) == Ok((v, rest))
  {
    Be64Front(v, rest);
  }

  lemma FindByOwnName(layout: Layout, b: nat)
    requires LayoutOk(layout) && b < |layout|
    ensures FindBlock(layout, layout[b].id) == Some(b)
  {
    assert layout[b].id == layout[b].id;
  }

  lemma {:induction false} TotalPagesSplit(layout: Layout, k: nat)
    requires k < |layout|
    ensures TotalPages(layout[k..]) == layout[k].pages + TotalPages(layout[k + 1..])
    ensures TotalPages(layout[k..]) <= TotalPages(layout)
  {
    assert layout[k..][1..] == layout[k + 1..];
    if k > 0 {
      TotalPagesSplit(layout, k - 1);
    } else {
      assert layout[0..] == layout;
    }
  }

  lemma PagesBounded(layout: Layout, b: nat)
    requires LayoutOk(layout) && b < |layout|
    ensures layout[b].pages * PAGE < TWO64
  {
    TotalPagesSplit(layout, b);
  }

  lemma SizeTableSplit(layout: Layout, k: nat)
    requires k < |layout| && forall b :: 0 <= b < |layout| ==> NameOk(layout[b].id)
    ensures NameOk(layout[k].id)
    ensures SizeTable(layout[k..]) == Counted(layout[k].id) + Be64(layout[k].pages * PAGE) + SizeTable(layout[k + 1..])
  {
    assert layout[k..][1..] == layout[k + 1..];
  }

  lemma EmptyLayout(rest: seq<Byte>)
    ensures TotalPages([]) == 0 && SizeTable([]) + rest == rest
  {
  }

  /** The block is there: the first of its name has its length. */
  ghost predicate HasBlock(layout: Layout, block: Block) {
    exists b :: 0 <= b < |layout| && layout[b] == block && forall c :: 0 <= c < b ==> layout[c].id != block.id
  }

  ghost predicate HasBlocks(layout: Layout, blocks: Layout, k: nat) {
    forall j :: k <= j < |blocks| ==> HasBlock(layout, blocks[j])
  }

  lemma FindIsHas(layout: Layout, block: Block)
    ensures var r := FindBlock(layout, block.id);
            HasBlock(layout, block) <==> r.Some? && layout[r.value].pages == block.pages
  {
    var r := FindBlock(layout, block.id);
    if HasBlock(layout, block) {
      var b :| 0 <= b < |layout| && layout[b] == block && forall c :: 0 <= c < b ==> layout[c].id != block.id;
      assert r.value == b;
    }
    if r.Some? && layout[r.value].pages == block.pages {
      assert layout[r.value] == block;
    }
  }

  /** The table loop accepts the table of `src` if and only if every block of it is in
      the local list with the same name and length, and then consumes exactly the
      table; any other table is refused. */
  lemma {:induction false} SizesExact(src: Layout, dst: Layout, k: nat, rest: seq<Byte>)
    requires LayoutOk(src) && k <= |src|
    ensures LoadSizes(dst, TotalPages(src[k..]) * PAGE, SizeTable(src[k..]) + rest) ==
            if HasBlocks(dst, src, k) then Ok(rest) else Err(BadStream)
    decreases |src| - k
  {
    hide TakeName, TakeBe64, Be64, Counted, FindBlock, SizeTable, TotalPages, HasBlock;
    if k == |src| {
      assert src[k..] == [];
      EmptyLayout(rest);
    } else {
      SizeTableSplit(src, k);
      TotalPagesSplit(src, k);
      PagesBounded(src, k);
      var id, len, tail := src[k].id, src[k].pages * PAGE, SizeTable(src[k + 1..]) + rest;
      var s := SizeTable(src[k..]) + rest;
      assert s == Counted(id) + (Be64(len) + tail);
      TakeCountedName(id, Be64(len) + tail);
      TakeNumber(len, tail);
      FindIsHas(dst, src[k]);
      var total := TotalPages(src[k..]) * PAGE;
      assert (total - len) % TWO64 == TotalPages(src[k + 1..]) * PAGE;
      SizesExact(src, dst, k + 1, rest);
      assert HasBlocks(dst, src, k) <==> HasBlock(dst, src[k]) && HasBlocks(dst, src, k + 1);
    }
  }

  /** So a table is accepted by the layout it was made from. */
  lemma SizesRoundTrip(layout: Layout, k: nat, rest: seq<Byte>)
    requires LayoutOk(layout) && k <= |layout|
    ensures LoadSizes(layout, TotalPages(layout[k..]) * PAGE, SizeTable(layout[k..]) + rest) == Ok(rest)
  {
    hide LoadSizes, SizeTable, TotalPages;
    SizesExact(layout, layout, k, rest);
    forall j | k <= j < |layout| ensures HasBlock(layout, layout[j]) {
      assert layout[j] == layout[j];
    }
  }

  /** The flag bits survive in the low bits of a page-aligned number. */
  lemma FlagsSplit(p: nat, flags: nat)
    requires flags < PAGE
    ensures (p * PAGE + flags) % PAGE == flags && (p * PAGE + flags) - flags == p * PAGE && p * PAGE / PAGE == p
  {
  }

  lemma HostRoundTrip(layout: Layout, block: Option<nat>, a: Addr, flags: nat, name: seq<Byte>, rest: seq<Byte>)
    requires LayoutOk(layout) && Inside(layout, a)
    requires if Has(flags, FLAG_CONTINUE) then name == [] && block == Some(a.b) else name == Counted(layout[a.b].id)
    ensures HostBlock(layout, block, flags, name + rest) == Ok((a.b, rest))
  {
    hide Has, Counted, TakeName, FindBlock;
    if Has(flags, FLAG_CONTINUE) {
      assert [] + rest == rest;
    } else {
      TakeCountedName(layout[a.b].id, rest);
      FindByOwnName(layout, a.b);
    }
  }

  lemma HeaderRoundTrip(layout: Layout, last: Option<nat>, st: Loader, a: Addr, flag: nat, rest: seq<Byte>)
    requires LayoutOk(layout) && Inside(layout, a) && (flag == FLAG_COMPRESS || flag == FLAG_PAGE)
    requires last.Some? ==> st.block == last
    ensures var s := PageHeader(layout, last, a, flag) + rest;
            var cont := last == Some(a.b);
            var flags := flag + if cont then FLAG_CONTINUE else 0;
            && TakeBe64(s) == Ok((a.p * PAGE + flags, s[8..]))
            && HostBlock(layout, st.block, flags, s[8..]) == Ok((a.b, rest))
  {
    hide HostBlock, TakeBe64, Be64, Counted;
    var cont := last == Some(a.b);
    var flags := flag + if cont then FLAG_CONTINUE else 0;
    var name := if cont then [] else Counted(layout[a.b].id);
    var s := PageHeader(layout, last, a, flag) + rest;
    PagesBounded(layout, a.b);
    assert s == Be64(a.p * PAGE + flags) + (name + rest);
    TakeNumber(a.p * PAGE + flags, name + rest);
    assert s[8..] == name + rest;
    HostRoundTrip(layout, st.block, a, flags, name, rest);
  }

  function FlagsOf(last: Option<nat>, r: Record): nat {
    match r
    case Sizes => FLAG_MEM_SIZE
    case Fill(a, _) => FLAG_COMPRESS + if last == Some(a.b) then FLAG_CONTINUE else 0
    case Full(a, _) => FLAG_PAGE + if last == Some(a.b) then FLAG_CONTINUE else 0
    case Eos => FLAG_EOS
  }

  lemma LoadedPage(layout: Layout, st: Loader, r: Record, flags: nat, s: seq<Byte>, rest: seq<Byte>)
    requires RecordOk(layout, r) && Fits(layout, st.ram) && (r.Fill? || r.Full?)
    requires var kind := if r.Fill? then FLAG_COMPRESS else FLAG_PAGE;
             flags == kind || flags == FLAG_CONTINUE + kind
    requires HostBlock(layout, st.block, flags, s) == Ok((r.a.b, (if r.Fill? then [r.ch] else r.data) + rest))
    ensures LoadPage(layout, st, r.a.p * PAGE, flags, s)
         == Ok((Loader(ApplyRecord(layout, st.ram, r), Some(r.a.b)), rest))
  {
    hide HostBlock, Put, Fits, Uniform;
    var body := if r.Fill? then [r.ch] else r.data;
    FlagsSplit(r.a.p, flags);
    assert (body + rest)[..|body|] == body && (body + rest)[|body|..] == rest;
    assert Has(flags, FLAG_COMPRESS) <==> r.Fill?;
    assert r.Full? ==> Has(flags, FLAG_PAGE);
  }

  /** A record without the size-table bit goes straight to its page. */
  lemma LoadRecordStep(layout: Layout, st: Loader, s: seq<Byte>, p: nat, flags: nat, s1: seq<Byte>)
    requires Fits(layout, st.ram) && flags < PAGE && !Has(flags, FLAG_MEM_SIZE)
    requires TakeBe64(s) == Ok((p * PAGE + flags, s1)) && LoadPage(layout, st, p * PAGE, flags, s1).Ok?
    ensures LoadRecord(layout, st, s) ==
            var (st', s3) := LoadPage(layout, st, p * PAGE, flags, s1).value; Ok((st', flags, s3))
  {
    hide TakeBe64, LoadPage, Fits;
    FlagsSplit(p, flags);
  }

  lemma PageRoundTrip(layout: Layout, last: Option<nat>, st: Loader, r: Record, rest: seq<Byte>)
    requires LayoutOk(layout) && RecordOk(layout, r) && Fits(layout, st.ram) && (r.Fill? || r.Full?)
    requires last.Some? ==> st.block == last
    ensures LoadRecord(layout, st, Encode(layout, last, r) + rest)
         == Ok((Loader(ApplyRecord(layout, st.ram, r), Some(r.a.b)), FlagsOf(last, r), rest))
  {
    hide TakeBe64, LoadPage, LoadRecord, HostBlock, PageHeader, ApplyRecord, LayoutOk, Fits;
    var flag := if r.Fill? then FLAG_COMPRESS else FLAG_PAGE;
    var flags := FlagsOf(last, r);
    var body := if r.Fill? then [r.ch] else r.data;
    var s := Encode(layout, last, r) + rest;
    assert s == PageHeader(layout, last, r.a, flag) + (body + rest);
    HeaderRoundTrip(layout, last, st, r.a, flag, body + rest);
    LoadedPage(layout, st, r, flags, s[8..], rest);
    LoadRecordStep(layout, st, s, r.a.p, flags, s[8..]);
  }

  /** The bytes of the records, in numbers. */
  lemma RecordBytes(layout: Layout, last: Option<nat>, r: Record)
    requires LayoutOk(layout) && RecordOk(layout, r)
    ensures r.Sizes? ==> Encode(layout, last, r) == Be64(TotalPages(layout) * 4096 + 0x04) + SizeTable(layout)
    ensures r.Fill? ==>
              var id := layout[r.a.b].id;
              Encode(layout, last, r) ==
              if last == Some(r.a.b) then Be64(r.a.p * 4096 + 0x22) + [r.ch]
              else Be64(r.a.p * 4096 + 0x02) + ([|id|] + id) + [r.ch]
    ensures r.Full? ==>
              var id := layout[r.a.b].id;
              Encode(layout, last, r) ==
              if last == Some(r.a.b) then Be64(r.a.p * 4096 + 0x28) + r.data
              else Be64(r.a.p * 4096 + 0x08) + ([|id|] + id) + r.data
    ensures r.Eos? ==> Encode(layout, last, r) == [0, 0, 0, 0, 0, 0, 0, 0x10]
  {
    hide TotalPages, SizeTable, Be64, BeBytes;
    if r.Eos? {
      Be64Bytes(0x10);
    } else if r.Fill? || r.Full? {
      HeaderBytes(layout, last, r.a, if r.Fill? then FLAG_COMPRESS else FLAG_PAGE);
    }
  }

  lemma HeaderBytes(layout: Layout, last: Option<nat>, a: Addr, flag: nat)
    requires LayoutOk(layout) && Inside(layout, a)
    ensures last == Some(a.b) ==> PageHeader(layout, last, a, flag) == Be64(a.p * 4096 + flag + 0x20)
    ensures last != Some(a.b) ==>
              var id := layout[a.b].id;
              |id| < 256 && PageHeader(layout, last, a, flag) == Be64(a.p * 4096 + flag) + ([|id|] + id)
  {
    hide Be64, TotalPages;
    assert last == Some(a.b) ==> Be64(a.p * 4096 + flag + 0x20) + [] == Be64(a.p * 4096 + flag + 0x20);
  }

  /** A uniform page for a block that is not there is refused; a full page is not: it
      faults. */
  lemma UnknownBlock(layout: Layout, st: Loader, p: nat, id: seq<Byte>, rest: seq<Byte>)
    requires Fits(layout, st.ram) && NameOk(id) && p * PAGE + PAGE < TWO64
    requires forall b :: 0 <= b < |layout| ==> layout[b].id != id
    ensures LoadRecord(layout, st, Be64(p * PAGE + 0x02) + (Counted(id) + rest)) == Err(BadStream)
    ensures LoadRecord(layout, st, Be64(p * PAGE + 0x08) + (Counted(id) + rest)) == Err(Fault)
  {
    hide TakeBe64, TakeName, Fits, Be64, Counted;
    TakeCountedName(id, rest);
    TakeNumber(p * PAGE + 0x02, Counted(id) + rest);
    TakeNumber(p * PAGE + 0x08, Counted(id) + rest);
    FlagsSplit(p, 0x02);
    FlagsSplit(p, 0x08);
  }

  /** The same for a page that continues a block when none was named before. */
  lemma NothingToContinue(layout: Layout, st: Loader, p: nat, rest: seq<Byte>)
    requires Fits(layout, st.ram) && st.block == None && p * PAGE + PAGE < TWO64
    ensures LoadRecord(layout, st, Be64(p * PAGE + 0x22) + rest) == Err(BadStream)
    ensures LoadRecord(layout, st, Be64(p * PAGE + 0x28) + rest) == Err(Fault)
  {
    hide TakeBe64, TakeName, Fits, Be64;
    TakeNumber(p * PAGE + 0x22, rest);
    TakeNumber(p * PAGE + 0x28, rest);
    FlagsSplit(p, 0x22);
    FlagsSplit(p, 0x28);
  }

  lemma SizeRecordRoundTrip(layout: Layout, st: Loader, rest: seq<Byte>)
    requires LayoutOk(layout) && Fits(layout, st.ram)
    ensures LoadRecord(layout, st, Encode(layout, None, Sizes) + rest) == Ok((st, FLAG_MEM_SIZE, rest))
  {
    hide TakeBe64, LoadSizes, SizeTable, TotalPages, Fits, Be64;
    var total := TotalPages(layout) * PAGE;
    var s := Encode(layout, None, Sizes) + rest;
    assert s == Be64(total + FLAG_MEM_SIZE) + (SizeTable(layout) + rest);
    TakeNumber(total + FLAG_MEM_SIZE, SizeTable(layout) + rest);
    FlagsSplit(TotalPages(layout), FLAG_MEM_SIZE);
    assert layout[0..] == layout;
    SizesRoundTrip(layout, 0, rest);
  }

  lemma EosRoundTrip(layout: Layout, last: Option<nat>, st: Loader, rest: seq<Byte>)
    requires LayoutOk(layout) && Fits(layout, st.ram)
    ensures LoadRecord(layout, st, Encode(layout, last, Eos) + rest) == Ok((st, FLAG_EOS, rest))
  {
    hide TakeBe64, Be64, LoadSizes, HostBlock, Fits;
    TakeNumber(FLAG_EOS, rest);
    FlagsSplit(0, FLAG_EOS);
  }

  /** Whatever record the saver writes, the loader applies exactly that record
      and leaves the rest of the stream. */
  lemma RecordRoundTrip(layout: Layout, last: Option<nat>, st: Loader, r: Record, rest: seq<Byte>)
    requires LayoutOk(layout) && RecordOk(layout, r) && Fits(layout, st.ram)
    requires last.Some? ==> st.block == last
    ensures LoadRecord(layout, st, Encode(layout, last, r) + rest)
         == Ok((Loader(ApplyRecord(layout, st.ram, r), if r.Fill? || r.Full? then Some(r.a.b) else st.block),
             FlagsOf(last, r), rest))
  {
    hide LoadRecord, LayoutOk, Fits, SizeTable;
    match r
    case Fill(_, _) => PageRoundTrip(layout, last, st, r, rest);
    case Full(_, _) => PageRoundTrip(layout, last, st, r, rest);
    case Eos => EosRoundTrip(layout, last, st, rest);
    case Sizes => SizeRecordRoundTrip(layout, st, rest);
  }

  // ------------------------------------------------------------- whole streams

  ghost predicate RecordsOk(layout: Layout, rs: seq<Record>) {
    forall i :: 0 <= i < |rs| ==> RecordOk(layout, rs[i])
  }

  function EncodeAll(layout: Layout, last: Option<nat>, rs: seq<Record>): (s: seq<Byte>)
    requires LayoutOk(layout) && RecordsOk(layout, rs)
    ensures rs != [] ==> s != []
    decreases |rs|
  {
    if rs == [] then [] else Encode(layout, last, rs[0]) + EncodeAll(layout, LastAfter(last, rs[0]), rs[1..])
  }

  /** Destination memory after a sequence of records. */
  function Replay(layout: Layout, ram: Ram, rs: seq<Record>): (r: Ram)
    requires Fits(layout, ram) && RecordsOk(layout, rs)
    ensures Fits(layout, r)
    decreases |rs|
  {
    if rs == [] then ram else Replay(layout, ApplyRecord(layout, ram, rs[0]), rs[1..])
  }

  /** All sections of a stream, one load call each. */
  function LoadStream(layout: Layout, st: Loader, s: seq<Byte>): (r: Result<Loader>)
    requires Fits(layout, st.ram)
    ensures r.Ok? ==> Fits(layout, r.value.ram)
    decreases |s|
  {
    if s == [] then Ok(st)
    else
      var (st', s') :- LoadSection(layout, st, s);
      LoadStream(layout, st', s')
  }

  lemma EosFlag(last: Option<nat>, r: Record)
    ensures Has(FlagsOf(last, r), FLAG_EOS) <==> r.Eos?
  {
  }

  /** Loading what was saved, over any number of stages, writes exactly the saved
      pages: the destination is the replay of the records. */
  lemma {:induction false} StreamRoundTrip(layout: Layout, last: Option<nat>, st: Loader, rs: seq<Record>)
    requires LayoutOk(layout) && RecordsOk(layout, rs) && Fits(layout, st.ram)
    requires last.Some? ==> st.block == last
    requires rs != [] ==> rs[|rs| - 1].Eos?
    ensures var r := LoadStream(layout, st, EncodeAll(layout, last, rs));
            r.Ok? && r.value.ram == Replay(layout, st.ram, rs)
    decreases |rs|
  {
    hide LoadRecord, LayoutOk, Fits, Encode, ApplyRecord;
    if rs == [] {
    } else {
      var r, tail := rs[0], rs[1..];
      var rest := EncodeAll(layout, LastAfter(last, r), tail);
      var st' := Loader(ApplyRecord(layout, st.ram, r), if r.Fill? || r.Full? then Some(r.a.b) else st.block);
      RecordRoundTrip(layout, last, st, r, rest);
      EosFlag(last, r);
      StreamRoundTrip(layout, LastAfter(last, r), st', tail);
    }
  }
}
