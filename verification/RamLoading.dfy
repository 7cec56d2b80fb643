/** The loading side of RAM migration as it runs: a loop over records that
    updates destination memory and the remembered block in place. */
module RamLoading {
  import opened RamStream
  import opened Wire
  import opened Wrappers

  class RamLoader {
    const layout: Layout
    var ram: Ram
    var block: Option<nat>

    constructor (layout: Layout, ram: Ram)
      requires Fits(layout, ram)
      ensures this.layout == layout && this.ram == ram && block == None
    {
      this.layout, this.ram, this.block := layout, ram, None;
    }

    /** Looks a block up by name, walking the list. */
    method Find(id: seq<Byte>) returns (r: Option<nat>)
      ensures r == FindBlock(layout, id)
    {
      var i := 0;
      while i < |layout|
        invariant i <= |layout| && FindBlockFrom(layout, id, 0) == FindBlockFrom(layout, id, i)
      {
        if layout[i].id == id {
          return Some(i);
        }
        i := i + 1;
      }
      r := None;
    }

    /** Checks the size table against the local blocks. */
    method ReadSizes(bytes: nat, stream: seq<Byte>) returns (r: Result<seq<Byte>>)
      ensures r == LoadSizes(layout, bytes, stream)
    {
      var total: nat, s := bytes, stream;
      while total != 0
        invariant LoadSizes(layout, bytes, stream) == LoadSizes(layout, total, s)
        decreases |s|
      {
        var name := TakeName(s);
        if name.Err? { return Err(name.error); }
        var number := TakeBe64(name.value.1);
        if number.Err? { return Err(number.error); }
        var found := Find(name.value.0);
        if found.None? { return Err(BadStream); }
        if layout[found.value].pages * PAGE != number.value.0 { return Err(BadStream); }
        total, s := (total - number.value.0) % TWO64, number.value.1;
      }
      r := Ok(s);
    }

    /** The block a page record is for: the remembered one or the one named. */
    method HostFromStream(flags: nat, s: seq<Byte>) returns (r: Result<(nat, seq<Byte>)>)
      ensures r == HostBlock(layout, block, flags, s)
    {
      if Has(flags, FLAG_CONTINUE) {
        if block.None? { return Err(BadStream); }
        return Ok((block.value, s));
      }
      var name := TakeName(s);
      if name.Err? { return Err(name.error); }
      var found := Find(name.value.0);
      if found.None? { return Err(BadStream); }
      r := Ok((found.value, name.value.1));
    }

    /** A page full of one byte, as memset leaves it. */
    method FillPage(ch: Byte) returns (page: Page)
      ensures page == Uniform(ch)
    {
      var bytes: seq<Byte> := [];
      while |bytes| < PAGE
        invariant |bytes| <= PAGE && forall i :: 0 <= i < |bytes| ==> bytes[i] == ch
      {
        bytes := bytes + [ch];
      }
      assert bytes == Uniform(ch);
      page := bytes;
    }

    /** The page of a record, uniform or full, goes to its place in memory. */
    method StorePage(addr: nat, flags: nat, s: seq<Byte>) returns (r: Result<seq<Byte>>)
      requires Fits(layout, ram)
      modifies `ram, `block
      ensures Fits(layout, ram)
      ensures var spec := LoadPage(layout, Loader(old(ram), old(block)), addr, flags, s);
              if spec.Err? then r == Err(spec.error)
              else r == Ok(spec.value.1) && spec.value.0 == Loader(ram, block)
    {
      hide HostBlock, Fits, Has, Uniform;
      if !Has(flags, FLAG_COMPRESS) && !Has(flags, FLAG_PAGE) { return Ok(s); }
      var host := HostFromStream(flags, s);
      if host.Err? {
        return if Has(flags, FLAG_COMPRESS) then Err(host.error) else Unchecked(Err(host.error));
      }
      var at := Addr(host.value.0, addr / PAGE);
      var size := if Has(flags, FLAG_COMPRESS) then 1 else PAGE;
      var data := TakeBytes(host.value.1, size);
      if data.Err? { return Err(data.error); }
      if !Inside(layout, at) { return Err(Fault); }
      var page: Page;
      if Has(flags, FLAG_COMPRESS) {
        page := FillPage(data.value.0[0]);
      } else {
        page := data.value.0;
      }
      ram, block := Put(layout, ram, at, page), Some(host.value.0);
      r := Ok(data.value.1);
    }

    /** One turn of the loading loop. */
    method LoadOne(s: seq<Byte>) returns (r: Result<(nat, seq<Byte>)>)
      requires Fits(layout, ram)
      modifies `ram, `block
      ensures Fits(layout, ram)
      ensures var spec := LoadRecord(layout, Loader(old(ram), old(block)), s);
              if spec.Err? then r == Err(spec.error)
              else r == Ok((spec.value.1, spec.value.2)) && spec.value.0 == Loader(ram, block)
    {
      hide LoadPage, LoadSizes, Fits, Has;
      var head := TakeBe64(s);
      if head.Err? { return Err(head.error); }
      var flags := head.value.0 % PAGE;
      var addr := head.value.0 - flags;
      var rest := head.value.1;
      if Has(flags, FLAG_MEM_SIZE) {
        var sizes := ReadSizes(addr, rest);
        if sizes.Err? { return Err(sizes.error); }
        rest := sizes.value;
      }
      var page := StorePage(addr, flags, rest);
      if page.Err? { return Err(page.error); }
      r := Ok((flags, page.value));
    }

    /** One load call: records up to the end marker are applied to memory. */
    method Load(stream: seq<Byte>) returns (r: Result<seq<Byte>>)
      requires Fits(layout, ram)
      modifies `ram, `block
      ensures Fits(layout, ram)
      ensures var spec := LoadSection(layout, Loader(old(ram), old(block)), stream);
              if spec.Err? then r == Err(spec.error)
              else r == Ok(spec.value.1) && spec.value.0 == Loader(ram, block)
    {
      hide LoadRecord, Fits, Has;
      var s := stream;
      while true
        invariant Fits(layout, ram)
        invariant LoadSection(layout, Loader(old(ram), old(block)), stream) ==
                    LoadSection(layout, Loader(ram, block), s)
        decreases |s|
      {
        var one := LoadOne(s);
        if one.Err? { return Err(one.error); }
        s := one.value.1;
        if Has(one.value.0, FLAG_EOS) {
          return Ok(s);
        }
      }
    }
  }
}
