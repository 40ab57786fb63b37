/** The allocator of one process as the memory server runs it: a list of blocks updated in place. */
module AllocatorProcess {
  import opened Base
  import opened Allocator
  import opened AllocatorTheorems

  lemma DivisionBounds(a: nat, ps: nat)
    requires ps >= 1
    ensures (a / ps) * ps <= a < (a / ps + 1) * ps
  {
    assert a == (a / ps) * ps + a % ps;
  }

  lemma DivisionGrows(a: nat, b: nat, ps: nat)
    requires ps >= 1 && a <= b
    ensures a / ps <= b / ps
  {
    DivisionBounds(a, ps);
    DivisionBounds(b, ps);
    if b / ps < a / ps {
      Scaled(b / ps + 1, a / ps, ps);
      assert false;
    }
  }

  /** The first byte of a page strictly between two others lies between them. */
  lemma PageStart(addr: nat, last: nat, page: nat, ps: nat)
    requires ps >= 1 && addr / ps < page <= last / ps
    ensures addr <= page * ps <= last && (page * ps) / ps == page
  {
    DivisionBounds(addr, ps);
    DivisionBounds(last, ps);
    Scaled(addr / ps + 1, page, ps);
    Scaled(page, last / ps, ps);
    WholePages(page, ps);
  }

  lemma WholePages(page: nat, ps: nat)
    requires ps >= 1
    ensures (page * ps) / ps == page
  {
    var q := (page * ps) / ps;
    DivisionBounds(page * ps, ps);
    assert (page + 1) * ps == page * ps + ps;
    if q < page {
      Scaled(q + 1, page, ps);
    } else if page < q {
      Scaled(page + 1, q, ps);
    }
  }

  /** A page lies between two pages exactly when some byte on the way is on it. */
  lemma SomeByteOnPage(addr: nat, last: nat, page: nat, ps: nat)
    requires ps >= 1 && addr <= last
    ensures addr / ps <= page <= last / ps <==> exists a :: addr <= a <= last && a / ps == page
  {
    if addr / ps < page <= last / ps {
      PageStart(addr, last, page, ps);
      assert addr <= page * ps <= last && (page * ps) / ps == page;
    }
    if a :| addr <= a <= last && a / ps == page {
      DivisionGrows(addr, a, ps);
      DivisionGrows(a, last, ps);
    }
  }

  class Process {
    const cfg: Config
    var blocks: seq<Block>
    var pages: nat

    function Now(): Heap
      reads this
    {
      Heap(blocks, pages)
    }

    constructor (cfg: Config)
      ensures this.cfg == cfg && Now() == Heap([], 0)
    {
      this.cfg := cfg;
      blocks, pages := [], 0;
    }

    // -------------------------------------------------------------- lookups

    /** `obtener_alloc_de_un_carpincho` */
    method FindCovering(pos: int) returns (i: nat)
      ensures i == First(blocks, Covers(pos))
    {
      i := 0;
      while i < |blocks|
        invariant i <= |blocks| && forall k :: 0 <= k < i ==> !Covers(pos)(blocks[k])
      {
        if blocks[i].addr + HEADER <= pos <= blocks[i].addr + HEADER + blocks[i].size - 1 {
          return;
        }
        i := i + 1;
      }
    }

    /** `obtener_alloc_con_inicio_de_direccion_de_dato_de_un_carpincho` */
    method FindData(pos: int) returns (i: nat)
      ensures i == First(blocks, DataAt(pos))
    {
      i := 0;
      while i < |blocks|
        invariant i <= |blocks| && forall k :: 0 <= k < i ==> !DataAt(pos)(blocks[k])
      {
        if pos == blocks[i].addr + HEADER {
          return;
        }
        i := i + 1;
      }
    }

    /** `obtener_indice_de_alloc` */
    method IndexOf(addr: int) returns (i: nat)
      ensures i == First(blocks, StartsAt(addr))
    {
      i := 0;
      while i < |blocks|
        invariant i <= |blocks| && forall k :: 0 <= k < i ==> !StartsAt(addr)(blocks[k])
      {
        if blocks[i].addr == addr {
          return;
        }
        i := i + 1;
      }
    }

    // -------------------------------------------------------------- allocation

    /** `check_alloc` */
    method Plan(size: nat, answer: int) returns (plan: Allocator.Plan)
      requires cfg.Valid()
      ensures plan == CheckAlloc(cfg, Now(), size, answer)
    {
      var occupied, i := 0, 0;
      while i < |blocks|
        invariant i <= |blocks| && occupied == Occupied(blocks[..i])
        invariant forall k :: 0 <= k < i ==> !Fitting(size)(blocks[k])
      {
        if blocks[i].free && blocks[i].size >= size {
          return InFree;
        }
        assert blocks[..i + 1][..i] == blocks[..i];
        occupied, i := occupied + blocks[i].size + HEADER, i + 1;
      }
      assert blocks[..i] == blocks;
      var room := pages * cfg.pageSize - occupied;
      if room >= size + HEADER {
        return AtEnd;
      }
      if cfg.allocation.Fixed? {
        if (cfg.quota - pages) * cfg.pageSize + room >= size + HEADER && answer != 0 {
          return NewPages;
        }
      } else if answer != 0 {
        return NewPages;
      }
      plan := NoSpace;
    }

    /** The first loop of `memalloc_asignar_en_paginas_nuevas` */
    method MeasureRoom() returns (room: int)
      requires cfg.Valid()
      ensures room == Room(cfg, Now())
    {
      var occupied, i := 0, 0;
      while i < |blocks|
        invariant i <= |blocks| && occupied == Occupied(blocks[..i])
      {
        assert blocks[..i + 1][..i] == blocks[..i];
        occupied, i := occupied + blocks[i].size + HEADER, i + 1;
      }
      assert blocks[..i] == blocks;
      room := pages * cfg.pageSize - occupied;
    }

    /** `memalloc_asignar_en_heap_libre`; also tells which block, if any, holds the remainder */
    method TakeFree(size: nat) returns (pos: int, rest: Option<Block>)
      requires FirstFit(blocks, size) < |blocks|
      modifies this`blocks
      ensures (blocks, pos) == AssignInFree(cfg, old(blocks), size)
      ensures var b := old(blocks)[FirstFit(old(blocks), size)];
              rest ==
              if Splits(b, size) then Some(Block(b.addr + size + HEADER, b.size - size - HEADER, true)) else None
    {
      var i := 0;
      while !(blocks[i].free && blocks[i].size >= size)
        invariant i <= FirstFit(blocks, size)
        invariant forall k :: 0 <= k < i ==> !Fitting(size)(blocks[k])
        decreases |blocks| - i
      {
        i := i + 1;
      }
      var b := blocks[i];
      pos, rest := b.addr + HEADER, None;
      if b.size > size && b.size - size > HEADER {
        var cut := Block(b.addr + size + HEADER, b.size - size - HEADER, true);
        var index := 0;
        if cfg.lookup.ByAddress? {
          index := IndexOf(b.addr);
        }
        blocks := Insert(blocks[i := Block(b.addr, size, false)], index + 1, cut);
        rest := Some(cut);
      } else {
        blocks := blocks[i := b.(free := false)];
      }
    }

    /** `memalloc_asignar_en_pagina_con_espacio` */
    method TakeAtEnd(size: nat) returns (pos: int)
      modifies this`blocks
      ensures (blocks, pos) == AssignAtEnd(old(blocks), size)
    {
      pos := HEADER;
      if |blocks| > 0 {
        var last := blocks[|blocks| - 1];
        pos := last.addr + HEADER + last.size + HEADER;
      }
      blocks := blocks + [Block(pos - HEADER, size, false)];
    }

    // -------------------------------------------------------------- release

    /** Joins block `i` with its left neighbour when that one is free. */
    method JoinLeft(i: nat) returns (at: nat)
      requires i < |blocks|
      modifies this`blocks
      ensures (blocks, at) == MergeLeft(old(blocks), i)
    {
      at := i;
      if at >= 1 && blocks[at - 1].free {
        var prev := blocks[at - 1];
        blocks := blocks[at := Block(prev.addr, prev.size + blocks[at].size + HEADER, blocks[at].free)];
        blocks := blocks[..at - 1] + blocks[at..];
        at := at - 1;
        assert blocks == MergeLeft(old(blocks), i).0;
      }
    }

    /** Joins block `i` with its right neighbour when that one is free. */
    method JoinRight(i: nat)
      requires i < |blocks|
      modifies this`blocks
      ensures blocks == MergeRight(old(blocks), i)
    {
      if i + 1 < |blocks| && blocks[i + 1].free {
        var next := blocks[i + 1];
        blocks := blocks[i := blocks[i].(size := next.size + blocks[i].size + HEADER)];
        blocks := blocks[..i + 1] + blocks[i + 2..];
        assert blocks == MergeRight(old(blocks), i);
      }
    }

    /** `memory_memfree` up to its compaction; also tells which block had its header rewritten */
    method Release(pos: nat) returns (reply: Reply, at: nat)
      requires cfg.Valid()
      modifies this`blocks
      ensures (Now(), reply) == Free(cfg, old(Now()), pos)
      ensures var i := Freeable(cfg, old(Now()), pos);
              i.Some? ==> at == Allocator.Release(old(blocks), i.value).1
    {
      hide MergeLeft, MergeRight;
      if pages > 0 && pos / cfg.pageSize > pages - 1 {
        return Invalid, 0;
      }
      var i := FindData(pos);
      if i == |blocks| || blocks[i].free {
        return Invalid, 0;
      }
      blocks := blocks[i := blocks[i].(free := true)];
      at := JoinLeft(i);
      MergedInRange(old(blocks)[i := old(blocks)[i].(free := true)], i);
      JoinRight(at);
      reply := Done;
    }

    lemma MergedInRange(list: seq<Block>, i: nat)
      requires i < |list|
      ensures MergeLeft(list, i).1 < |MergeLeft(list, i).0|
    {
    }

    // -------------------------------------------------------------- compaction

    /** `alloc_esta_en_pagina` */
    method IsOnPage(b: Block, page: nat) returns (on: bool)
      requires cfg.Valid() && b.addr >= 0
      ensures on <==> OnPage(cfg, b, page)
    {
      SomeByteOnPage(b.addr, 2 * b.addr + HEADER + b.size - 1, page, cfg.pageSize);
      var i := 0;
      while i <= b.addr + HEADER + b.size - 1
        invariant 0 <= i <= b.addr + HEADER + b.size
        invariant forall k :: b.addr <= k < b.addr + i ==> k / cfg.pageSize != page
      {
        if (b.addr + i) / cfg.pageSize == page {
          return true;
        }
        i := i + 1;
      }
      on := false;
    }

    /** `obtener_todos_los_allocs_de_carpincho_de_una_pagina`, for the first page */
    method ListFirstPage() returns (list: seq<Block>)
      requires cfg.Valid() && forall k :: 0 <= k < |blocks| ==> blocks[k].addr >= 0
      ensures list == OnFirstPage(cfg, blocks)
    {
      list := [];
      var i := 0;
      while i < |blocks|
        invariant i <= |blocks| && list == OnFirstPage(cfg, blocks[..i])
      {
        assert blocks[..i + 1][..i] == blocks[..i];
        var on := IsOnPage(blocks[i], 0);
        if on {
          list := list + [blocks[i]];
        }
        i := i + 1;
      }
      assert blocks[..i] == blocks;
    }

    /** `todos_los_allocs_estan_libres` */
    method AreAllFree(list: seq<Block>) returns (free: bool)
      ensures free <==> AllFree(list)
    {
      if |list| == 0 {
        return false;
      }
      var i := 0;
      while i < |list|
        invariant i <= |list| && forall k :: 0 <= k < i ==> list[k].free
      {
        if !list[i].free {
          return false;
        }
        i := i + 1;
      }
      free := true;
    }

    lemma {:induction false} RemoveNext(list: seq<Block>, i: nat, from: seq<Block>)
      requires i <= |list|
      ensures i == |list| ==> RemoveAll(from, list[i..]) == from
      ensures i < |list| ==> RemoveAll(from, list[i..]) == RemoveAll(Remove(from, list[i].addr), list[i + 1..])
    {
      if i < |list| {
        assert list[i..][1..] == list[i + 1..];
      }
    }

    /** The first loop of `compactar_pagina`; the length it returns is that of the last block removed. */
    method RemoveListed(list: seq<Block>) returns (freed: int)
      requires |list| > 0
      modifies this`blocks
      ensures blocks == RemoveAll(old(blocks), list) && freed == list[|list| - 1].size + HEADER
    {
      hide RemoveAll;
      freed := 0;
      var i := 0;
      assert list[0..] == list;
      while i < |list|
        invariant i <= |list|
        invariant RemoveAll(old(blocks), list) == RemoveAll(blocks, list[i..])
        invariant i > 0 ==> freed == list[i - 1].size + HEADER
      {
        RemoveNext(list, i, blocks);
        freed := list[i].size + HEADER;
        var k := IndexOf(list[i].addr);
        if k < |blocks| {
          blocks := blocks[..k] + blocks[k + 1..];
        }
        i := i + 1;
      }
      RemoveNext(list, i, blocks);
    }

    /** The last loop of `compactar_pagina` */
    method ShiftFrom(from: nat, freed: int)
      modifies this`blocks
      ensures blocks == Shift(old(blocks), from, freed)
    {
      var k := from;
      while k < |blocks|
        invariant from <= k && |blocks| == |old(blocks)|
        invariant forall j :: 0 <= j < |blocks| ==>
                    blocks[j] ==
                    if from <= j < k then old(blocks)[j].(addr := old(blocks)[j].addr - freed) else old(blocks)[j]
      {
        blocks := blocks[k := blocks[k].(addr := blocks[k].addr - freed)];
        k := k + 1;
      }
    }

    /** `compactar_pagina` */
    method CompactPage(list: seq<Block>)
      requires cfg.Valid() && pages > 0 && list == OnFirstPage(cfg, blocks) && AllFree(list)
      modifies this
      ensures Now() == CompactOnce(cfg, old(Now()))
    {
      hide OnFirstPage, RemoveAll, Shift;
      var freed := RemoveListed(list);
      pages := pages - 1;
      ShiftFrom(|list| - 1, freed);
    }

    /**
      `compactar`; with no pages the source runs off the end of the function, and here the answer is no.
     */
    method Compact() returns (again: bool)
      requires cfg.Valid() && Inv(cfg, Now())
      modifies this
      ensures again <==> Compacts(cfg, old(Now()))
      ensures Now() == if again then CompactOnce(cfg, old(Now())) else old(Now())
    {
      if pages == 0 {
        return false;
      }
      forall k | 0 <= k < |blocks|
        ensures blocks[k].addr >= 0
      {
        TiledIsNonNegative(blocks, k);
      }
      var list := ListFirstPage();
      again := AreAllFree(list);
      if again {
        CompactPage(list);
      }
    }

    /** The loop at the end of `memory_memfree`; it runs its body at most once. */
    method CompactLoop()
      requires cfg.Valid() && Inv(cfg, Now())
      modifies this
      ensures Now() == CompactAll(cfg, old(Now())) && Inv(cfg, Now())
    {
      CompactsAtMostOnce(cfg, Now());
      var again := Compact();
      if again {
        CompactionKeeps(cfg, old(Now()));
      }
      while again
        invariant Inv(cfg, Now()) && Now() == CompactAll(cfg, old(Now())) && !Compacts(cfg, Now())
        decreases again
      {
        again := Compact();
      }
    }

    // -------------------------------------------------------------- ranges

    /** `validar_direccion_logica_escritura_con_size` */
    method IsRangeValid(pos: nat, size: nat) returns (valid: bool)
      requires cfg.Valid()
      ensures valid <==> RangeValid(cfg, Now(), pos, size)
    {
      var i := 0;
      while i < size
        invariant i <= size && forall a :: pos <= a < pos + i ==> ByteValid(cfg, Now(), a)
      {
        if pages > 0 && (pos + i) / cfg.pageSize > pages - 1 {
          assert !ByteValid(cfg, Now(), pos + i);
          return false;
        }
        var k := FindCovering(pos + i);
        if k == |blocks| {
          assert !ByteValid(cfg, Now(), pos + i);
          return false;
        }
        i := i + 1;
      }
      valid := true;
    }
  }
}
