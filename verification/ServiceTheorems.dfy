/** What the requests of the memory server promise about the bytes of a block, over whole runs. */
module ServiceTheorems {
  import opened Base
  import opened Allocator
  import opened AllocatorTheorems
  import opened Transfer
  import opened Service
  import Paging

  // ---------------------------------------------------------------- allocation

  /** The data of every block in use, and that block itself, are still there. */
  ghost predicate Spares(img: Image, after: Image, b: Block) {
    && b in after.heap.blocks
    && |img.space| <= |after.space|
    && Same(img.space, after.space, b.Data(), b.End())
  }

  /** Every block after an allocation was there before, or is the one granted or the remainder. */
  lemma AllocatedBlocks(cfg: Config, h: Heap, size: nat, plan: Plan)
    requires cfg.Valid() && Inv(cfg, h)
    requires plan.InFree? ==> FirstFit(h.blocks, size) < |h.blocks| && !Misplaces(cfg, h.blocks, size)
    requires plan.NewPages? ==> Room(cfg, h) < size + HEADER
    ensures var (h', reply) := Allocate(cfg, h, size, plan);
            var rest := Remainder(h.blocks, size, plan);
            && (forall b :: b in h'.blocks ==>
                b in h.blocks || (reply.Granted? && b.Data() == reply.pos) || rest == Some(b))
            && (rest.Some? ==> rest.value in h'.blocks && reply.Granted?)
  {
    var (h', reply) := Allocate(cfg, h, size, plan);
    if plan.InFree? {
      var i := FirstFit(h.blocks, size);
      IndexByAddress(h.blocks, i);
      if Splits(h.blocks[i], size) {
        assert h'.blocks[i + 1] == Remainder(h.blocks, size, plan).value;
      }
    }
  }

  /** The image when the pages have been added and the list has been changed, but no header written. */
  lemma GrownKeeps(cfg: Config, img: Image, h: Heap)
    requires cfg.Valid() && |img.space| == img.heap.pages * cfg.pageSize && h.pages >= img.heap.pages
    ensures var after := Grow(cfg, img, h);
            && after.heap == h && |after.space| == h.pages * cfg.pageSize && |img.space| <= |after.space|
            && (forall k :: 0 <= k < |img.space| ==> after.space[k] == img.space[k])
            && (forall k :: |img.space| <= k < |after.space| ==> after.space[k] == 95)
            && (forall b :: Flagged(img.space, b) ==> Flagged(after.space, b))
  {
    assert h.pages * cfg.pageSize == img.heap.pages * cfg.pageSize + (h.pages - img.heap.pages) * cfg.pageSize;
  }

  /** Sealing an allocation writes the flags that were missing and touches no data. */
  lemma SealedKeeps(cfg: Config, img: Image, rest: Option<Block>, reply: Reply)
    requires cfg.Valid() && Tiled(img.heap.blocks) && End(img.heap.blocks) <= |img.space|
    requires rest.Some? ==> rest.value in img.heap.blocks
    ensures var space, blocks := Sealed(cfg, img, rest, reply).space, img.heap.blocks;
            && (forall u :: u in blocks ==> Same(img.space, space, u.Data(), u.End()))
            && (cfg.pageSize >= 8 && reply.Granted? ==> forall u :: u in blocks ==>
                  Flagged(img.space, u) || rest == Some(u) || (u.Data() == reply.pos && u.size >= 1) ==>
                      Flagged(space, u))
  {
    hide Persist, Flagged;
    var blocks := img.heap.blocks;
    if reply.Granted? {
      var first := WithRest(cfg, img, rest);
      if rest.Some? {
        PersistKeeps(cfg, img, rest.value);
      }
      var i := First(blocks, Covers(reply.pos));
      if i < |blocks| {
        PersistKeeps(cfg, first, blocks[i]);
      }
      forall u | u in blocks && u.Data() == reply.pos && u.size >= 1
        ensures i < |blocks| && u == blocks[i]
      {
        CoveringIsFound(blocks, u, reply.pos);
      }
    }
  }

  lemma {:induction false} CoveringIsFound(blocks: seq<Block>, u: Block, pos: int)
    requires Tiled(blocks) && u in blocks && u.Data() <= pos < u.End()
    ensures var i := First(blocks, Covers(pos)); i < |blocks| && blocks[i] == u
  {
    var k :| 0 <= k < |blocks| && blocks[k] == u;
    assert Covers(pos)(blocks[k]);
    CoveredOnce(blocks, First(blocks, Covers(pos)), k, pos);
  }

  /** The step from a heap to the next one, seen in the image: what was there stays, what is new is sealed. */
  lemma AllocationKeeps(cfg: Config, img: Image, h: Heap, rest: Option<Block>, reply: Reply)
    requires Intact(cfg, img) && cfg.Valid() && Inv(cfg, h) && h.pages >= img.heap.pages && reply.Granted?
    requires forall b :: b in h.blocks ==> b in img.heap.blocks || b.Data() == reply.pos || rest == Some(b)
    requires rest.Some? ==> rest.value in h.blocks
    ensures var after := Sealed(cfg, Grow(cfg, img, h), rest, reply);
            && Intact(cfg, after) && after.heap == h
            && (forall b :: b in img.heap.blocks && b in h.blocks ==> Spares(img, after, b))
  {
    hide Sealed, Grow, Coalesced, Flagged;
    GrownKeeps(cfg, img, h);
    SealedKeeps(cfg, Grow(cfg, img, h), rest, reply);
  }

  /** A request that does not kill the server: the blocks in use are all still there. */
  lemma AllocationSpares(cfg: Config, h: Heap, size: nat, answer: int)
    requires cfg.Valid() && Inv(cfg, h)
    requires CheckAlloc(cfg, h, size, answer).InFree? ==> !Misplaces(cfg, h.blocks, size)
    requires Allocator.Memalloc(cfg, h, size, answer).1 != Crash
    ensures var (h', reply) := Allocator.Memalloc(cfg, h, size, answer);
            && Inv(cfg, h') && (reply == OutOfSpace || reply.Granted?)
            && (reply == OutOfSpace <==> CheckAlloc(cfg, h, size, answer) == NoSpace)
            && (forall b :: b in h.blocks && !b.free ==> b in h'.blocks)
  {
    hide Tiled, Fits, Coalesced, Misplaces;
    if size >= 1 {
      var at := MemallocGrants(cfg, h, size, answer);
    } else {
      ZeroBytesCrash(cfg, h, answer);
      if CheckAlloc(cfg, h, size, answer).InFree? {
        var at := GrantInFree(cfg, h.blocks, size);
      }
    }
  }

  /**
    `memory_memalloc` keeps every block in use with all its bytes, and the stored flags agree with the
    list afterwards.
   */
  lemma MemallocKeeps(cfg: Config, img: Image, size: nat, answer: int)
    requires cfg.Valid() && Intact(cfg, img) && Service.Memalloc(cfg, img, size, answer).1 != Crash
    requires CheckAlloc(cfg, img.heap, size, answer).InFree? ==> !Misplaces(cfg, img.heap.blocks, size)
    ensures var (after, reply) := Service.Memalloc(cfg, img, size, answer);
            && Intact(cfg, after)
            && (reply == OutOfSpace ==> after == img)
            && (reply == OutOfSpace || reply.Granted?)
            && (forall b :: b in img.heap.blocks && !b.free ==> Spares(img, after, b))
  {
    hide Sealed, Grow, Intact, Spares, Remainder, Tiled, Fits, Coalesced, Misplaces;
    SoundHeap(cfg, img);
    var plan := CheckAlloc(cfg, img.heap, size, answer);
    AllocationSpares(cfg, img.heap, size, answer);
    var (h, reply) := Allocator.Memalloc(cfg, img.heap, size, answer);
    PlanIsReady(cfg, img.heap, size, answer);
    hide CheckAlloc, Inv;
    AllocatedBlocks(cfg, img.heap, size, plan);
    if reply.Granted? {
      hide Allocate, Allocator.Memalloc;
      AllocationKeeps(cfg, img, h, Remainder(img.heap.blocks, size, plan), reply);
    } else {
      NothingGrown(cfg, img, Remainder(img.heap.blocks, size, plan));
    }
  }

  lemma SoundHeap(cfg: Config, img: Image)
    requires Intact(cfg, img)
    ensures Inv(cfg, img.heap)
  {
  }

  lemma PlanIsReady(cfg: Config, h: Heap, size: nat, answer: int)
    requires cfg.Valid() && Inv(cfg, h)
    ensures CheckAlloc(cfg, h, size, answer).InFree? ==> FirstFit(h.blocks, size) < |h.blocks|
    ensures CheckAlloc(cfg, h, size, answer).NewPages? ==> Room(cfg, h) < size + HEADER
  {
  }

  lemma NothingGrown(cfg: Config, img: Image, rest: Option<Block>)
    requires cfg.Valid()
    ensures Sealed(cfg, Grow(cfg, img, img.heap), rest, OutOfSpace) == img
    ensures forall b :: b in img.heap.blocks ==> Spares(img, img, b)
  {
  }

  /** The first allocation of a process: as above, with no blocks and no pages to begin with. */
  lemma MemallocFirstKeeps(cfg: Config, size: nat, answer: int)
    requires cfg.Valid() && Service.MemallocFirst(cfg, size, answer).1 != Crash
    ensures var (after, reply) := Service.MemallocFirst(cfg, size, answer);
            && Intact(cfg, after)
            && (reply == OutOfSpace <==> answer == 0)
            && (answer != 0 ==> reply.Granted?)
  {
    hide Sealed, Grow, Intact, Remainder, Coalesced, Misplaces;
    var none := Image(Heap([], 0), []);
    var plan := if answer != 0 then NewPages else NoSpace;
    NoneIsIntact(cfg, none);
    assert Remainder([], size, plan) == None by { NoRemainder(size, plan); }
    var (h, reply) := Allocate(cfg, none.heap, size, plan);
    if reply.Granted? {
      assert h.blocks == [Block(0, size, false)];
      assert size >= 1;
      assert Covers(reply.pos)(h.blocks[0]);
      AllocateKeeps(cfg, none.heap, size, plan);
      AllocatedBlocks(cfg, none.heap, size, plan);
      AllocationKeeps(cfg, none, h, None, reply);
    } else {
      NothingGrown(cfg, none, None);
    }
  }

  lemma NoneIsIntact(cfg: Config, none: Image)
    requires none == Image(Heap([], 0), [])
    ensures Intact(cfg, none)
  {
  }

  lemma NoRemainder(size: nat, plan: Plan)
    ensures Remainder([], size, plan) == None
  {
  }

  // ---------------------------------------------------------------- the bytes of a header

  /** Where the header of block `i` is, its neighbours in the list and its flag are stored. */
  ghost predicate StoresHeader(space: Bytes, blocks: seq<Block>, i: nat) {
    && i < |blocks| && 0 <= blocks[i].addr && blocks[i].Data() <= |space|
    && var at: nat := blocks[i].addr;
       && Part(space, at, 4) == Word(if i > 0 then blocks[i - 1].addr else 0)
       && Part(space, at + 4, 4) == Word(if i + 1 < |blocks| then blocks[i + 1].addr else 0)
       && Part(space, at + 8, 1) == [Flag(blocks[i])]
  }

  lemma PersistIsExact(cfg: Config, img: Image, i: nat)
    requires cfg.Valid() && cfg.pageSize >= 8 && Tiled(img.heap.blocks) && End(img.heap.blocks) <= |img.space|
    requires i < |img.heap.blocks|
    ensures var b, space := img.heap.blocks[i], Persist(cfg, img, img.heap.blocks[i]).space;
            && 0 <= b.addr && b.Data() <= |img.space|
            && StoresHeader(space, img.heap.blocks, i) && SameBut(img.space, space, b.addr, b.Data())
  {
    hide Persist;
    BlockInSpace(img.heap.blocks, i);
    PersistIsLocal(cfg, img, img.heap.blocks[i]);
    PersistStoresNeighbours(cfg, img, i);
  }

  /** Changing bytes elsewhere leaves a header as it is. */
  lemma HeaderStays(space: Bytes, after: Bytes, blocks: seq<Block>, i: nat, from: int, to: int)
    requires StoresHeader(space, blocks, i) && SameBut(space, after, from, to)
    requires to <= blocks[i].addr || blocks[i].Data() <= from
    ensures StoresHeader(after, blocks, i)
  {
    var at: nat := blocks[i].addr;
    assert Part(after, at, 4) == Part(space, at, 4);
    assert Part(after, at + 4, 4) == Part(space, at + 4, 4);
    assert Part(after, at + 8, 1) == Part(space, at + 8, 1);
  }

  /** The address is in the header of block `i`. */
  predicate InHeader(blocks: seq<Block>, i: nat, a: int) {
    i < |blocks| && blocks[i].addr <= a < blocks[i].Data()
  }

  /** Outside the headers of blocks `i` and `j` the bytes are those of before, and new pages are blank. */
  ghost predicate OnlyHeaders(before: Bytes, after: Bytes, blocks: seq<Block>, i: nat, j: nat) {
    |before| <= |after| &&
    forall a :: 0 <= a < |after| && !InHeader(blocks, i, a) && !InHeader(blocks, j, a) ==>
        after[a] == if a < |before| then before[a] else 95
  }

  lemma {:induction false} SealedWrites(cfg: Config, img: Image, rest: Option<Block>, reply: Reply, i: nat)
    requires cfg.Valid() && cfg.pageSize >= 8 && Tiled(img.heap.blocks) && End(img.heap.blocks) <= |img.space|
    requires i < |img.heap.blocks| && reply == Granted(img.heap.blocks[i].Data())
    requires rest.Some? ==> i + 1 < |img.heap.blocks| && rest.value == img.heap.blocks[i + 1]
    ensures var space, blocks := Sealed(cfg, img, rest, reply).space, img.heap.blocks;
            && StoresHeader(space, blocks, i) && (rest.Some? ==> StoresHeader(space, blocks, i + 1))
            && OnlyHeaders(img.space, space, blocks, i, if rest.Some? then i + 1 else i)
  {
    hide Persist, StoresHeader;
    var blocks := img.heap.blocks;
    assert blocks[i].size >= 1;
    CoveringIsFound(blocks, blocks[i], reply.pos);
    SameIndex(blocks, i, First(blocks, Covers(reply.pos)));
    var first := WithRest(cfg, img, rest);
    PersistIsExact(cfg, first, i);
    if rest.Some? {
      PersistIsExact(cfg, img, i + 1);
      HeaderStays(first.space, Sealed(cfg, img, rest, reply).space, blocks, i + 1, blocks[i].addr, blocks[i].Data());
    }
  }

  lemma SameIndex(blocks: seq<Block>, i: nat, j: nat)
    requires Tiled(blocks) && i < |blocks| && j < |blocks| && blocks[i] == blocks[j]
    ensures i == j
  {
    if i != j {
      DataIsDistinct(blocks, i, j);
    }
  }

  /**
    Every byte an allocation writes: the header of the block granted, as its neighbours and flag are in the new list,
    that of the remainder behind it when the block was cut, and blanks in new pages; no other byte changes.
   */
  lemma MemallocWrites(cfg: Config, img: Image, size: nat, answer: int) returns (i: nat)
    requires cfg.Valid() && cfg.pageSize >= 8 && Intact(cfg, img) && size >= 1
    requires CheckAlloc(cfg, img.heap, size, answer).InFree? ==> !Misplaces(cfg, img.heap.blocks, size)
    requires Service.Memalloc(cfg, img, size, answer).1.Granted?
    ensures var (after, reply) := Service.Memalloc(cfg, img, size, answer);
            var blocks := after.heap.blocks;
            var cut := |blocks| > |img.heap.blocks| && i + 1 < |blocks|;
            && (after.heap, reply) == Allocator.Memalloc(cfg, img.heap, size, answer)
            && i < |blocks| && blocks[i].Data() == reply.pos && |after.space| == after.heap.pages * cfg.pageSize
            && StoresHeader(after.space, blocks, i) && (cut ==> StoresHeader(after.space, blocks, i + 1))
            && OnlyHeaders(img.space, after.space, blocks, i, if cut then i + 1 else i)
  {
    hide Sealed, Grow, Intact, Tiled, Fits, Coalesced, Misplaces, StoresHeader, OnlyHeaders;
    SoundHeap(cfg, img);
    SpaceFits(cfg, img);
    var plan, rest := CheckAlloc(cfg, img.heap, size, answer),
        Remainder(img.heap.blocks, size, CheckAlloc(cfg, img.heap, size, answer));
    var at := MemallocGrants(cfg, img.heap, size, answer);
    var (h, reply) := Allocator.Memalloc(cfg, img.heap, size, answer);
    i := WhereGranted(cfg, img.heap, size, answer);
    GrownKeeps(cfg, img, h);
    SpaceHolds(cfg, h);
    SealedWrites(cfg, Grow(cfg, img, h), rest, reply, i);
    GrownThenSealed(img.space, Grow(cfg, img, h).space, Sealed(cfg, Grow(cfg, img, h), rest, reply).space, h.blocks, i,
        if rest.Some? then i + 1 else i);
  }

  lemma SpaceFits(cfg: Config, img: Image)
    requires Intact(cfg, img)
    ensures |img.space| == img.heap.pages * cfg.pageSize
  {
  }

  lemma SpaceHolds(cfg: Config, h: Heap)
    requires Inv(cfg, h)
    ensures Tiled(h.blocks) && End(h.blocks) <= h.pages * cfg.pageSize
  {
  }

  lemma GrownThenSealed(before: Bytes, grown: Bytes, after: Bytes, blocks: seq<Block>, i: nat, j: nat)
    requires |before| <= |grown| && OnlyHeaders(grown, after, blocks, i, j) && |after| == |grown|
    requires forall k :: 0 <= k < |grown| ==> grown[k] == if k < |before| then before[k] else 95
    ensures OnlyHeaders(before, after, blocks, i, j)
  {
  }

  /** Where the block granted is in the new list, and when there is a remainder behind it. */
  lemma WhereGranted(cfg: Config, h: Heap, size: nat, answer: int) returns (i: nat)
    requires cfg.Valid() && Inv(cfg, h) && size >= 1 && Allocator.Memalloc(cfg, h, size, answer).1.Granted?
    requires CheckAlloc(cfg, h, size, answer).InFree? ==> !Misplaces(cfg, h.blocks, size)
    ensures var (h', reply) := Allocator.Memalloc(cfg, h, size, answer);
            var rest := Remainder(h.blocks, size, CheckAlloc(cfg, h, size, answer));
            && h'.pages >= h.pages && i < |h'.blocks| && reply == Granted(h'.blocks[i].Data())
            && (rest.Some? <==> |h'.blocks| > |h.blocks| && i + 1 < |h'.blocks|)
            && (rest.Some? ==> rest.value == h'.blocks[i + 1])
  {
    hide Tiled, Fits, Coalesced, FirstFit, Room, PagesNeeded, Misplaces;
    i := |h.blocks|;
    if CheckAlloc(cfg, h, size, answer).InFree? {
      i := FirstFit(h.blocks, size);
      InFreeEntries(cfg, h.blocks, size);
      hide AssignInFree;
    }
  }

  /** The same for the first allocation of a process: a header at the start, and blanks. */
  lemma MemallocFirstWrites(cfg: Config, size: nat, answer: int)
    requires cfg.Valid() && cfg.pageSize >= 8 && size >= 1 && answer != 0
    ensures var (after, reply) := Service.MemallocFirst(cfg, size, answer);
            && (after.heap, reply) == Allocator.MemallocFirst(cfg, size, answer)
            && |after.space| == after.heap.pages * cfg.pageSize
            && StoresHeader(after.space, after.heap.blocks, 0) && OnlyHeaders([], after.space, after.heap.blocks, 0, 0)
  {
    hide Sealed, Grow, Tiled, Fits, Coalesced, StoresHeader, OnlyHeaders, PagesNeeded;
    var none := Image(Heap([], 0), []);
    var (h, reply) := Allocate(cfg, none.heap, size, NewPages);
    assert h.blocks == [Block(0, size, false)];
    assert Covers(reply.pos)(h.blocks[0]);
    NoneIsIntact(cfg, none);
    SoundHeap(cfg, none);
    AllocateKeeps(cfg, none.heap, size, NewPages);
    GrownKeeps(cfg, none, h);
    SpaceHolds(cfg, h);
    SealedWrites(cfg, Grow(cfg, none, h), None, reply, 0);
    GrownThenSealed([], Grow(cfg, none, h).space, Sealed(cfg, Grow(cfg, none, h), None, reply).space, h.blocks, 0, 0);
  }

  /** The one header a release writes is that of the block that has swallowed the one released. */
  lemma MemfreeWrites(cfg: Config, img: Image, pos: nat) returns (k: nat)
    requires cfg.Valid() && cfg.pageSize >= 8 && Intact(cfg, img) && Service.Memfree(cfg, img, pos).1 == Done
    ensures var after := Service.Memfree(cfg, img, pos).0;
            && k < |after.heap.blocks| && Covers(pos)(after.heap.blocks[k]) && |after.space| == |img.space|
            && StoresHeader(after.space, after.heap.blocks, k)
            && OnlyHeaders(img.space, after.space, after.heap.blocks, k, k)
  {
    hide Release, Persist, Coalesced, InPages, StoresHeader;
    var blocks, i := img.heap.blocks, Freeable(cfg, img.heap, pos).value;
    ReleaseKeeps(blocks, i);
    var (freed, at) := Release(blocks, i);
    k := at;
    PersistIsExact(cfg, Image(Heap(freed, img.heap.pages), img.space), k);
  }

  // ---------------------------------------------------------------- release

  /** `b` is in the list, at another position than `i`. */
  ghost predicate Other(blocks: seq<Block>, i: nat, b: Block) {
    exists n :: 0 <= n < |blocks| && n != i && blocks[n] == b
  }

  lemma MergedLeft(blocks: seq<Block>, i: nat)
    requires i < |blocks|
    ensures var (after, k) := MergeLeft(blocks, i);
            k < |after| && forall j :: 0 <= j < |after| && j != k ==> Other(blocks, i, after[j])
  {
    var (after, k) := MergeLeft(blocks, i);
    forall j | 0 <= j < |after| && j != k
      ensures Other(blocks, i, after[j])
    {
      var m := if j < k then j else j + (i - k);
      assert 0 <= m < |blocks| && m != i && blocks[m] == after[j];
    }
  }

  lemma MergedRight(blocks: seq<Block>, i: nat)
    requires i < |blocks|
    ensures var after := MergeRight(blocks, i);
            i < |after| && forall j :: 0 <= j < |after| && j != i ==> Other(blocks, i, after[j])
  {
    var after := MergeRight(blocks, i);
    forall j | 0 <= j < |after| && j != i
      ensures Other(blocks, i, after[j])
    {
      var m := if j < i then j else j + (|blocks| - |after|);
      assert 0 <= m < |blocks| && m != i && blocks[m] == after[j];
    }
  }

  /** Every block after a release was there before, or is the joined one. */
  lemma ReleasedBlocks(blocks: seq<Block>, i: nat)
    requires i < |blocks|
    ensures var (after, k) := Release(blocks, i);
            k < |after| && forall b :: b in after ==> b in blocks || b == after[k]
  {
    var marked := blocks[i := blocks[i].(free := true)];
    MergedLeft(marked, i);
    var (left, k) := MergeLeft(marked, i);
    MergedRight(left, k);
    var after := Release(blocks, i).0;
    forall j | 0 <= j < |after| && j != k
      ensures after[j] in blocks
    {
      var n :| 0 <= n < |left| && n != k && left[n] == after[j];
      var m :| 0 <= m < |marked| && m != i && marked[m] == left[n];
    }
  }

  /** `memory_memfree`, up to compaction, keeps every other block in use with all its bytes. */
  lemma MemfreeKeeps(cfg: Config, img: Image, pos: nat)
    requires cfg.Valid() && Intact(cfg, img)
    ensures var (after, reply) := Service.Memfree(cfg, img, pos);
            && Intact(cfg, after)
            && (after.heap, reply) == Free(cfg, img.heap, pos)
            && (reply == Invalid ==> after == img)
            && (forall b :: b in img.heap.blocks && !b.free && b.Data() != pos ==> Spares(img, after, b))
  {
    hide Release, Persist, Coalesced, InPages;
    var blocks := img.heap.blocks;
    if Freeable(cfg, img.heap, pos).Some? {
      var i := Freeable(cfg, img.heap, pos).value;
      ReleaseKeeps(blocks, i);
      ReleasedBlocks(blocks, i);
      var (freed, k) := Release(blocks, i);
      var without := Image(Heap(freed, img.heap.pages), img.space);
      PersistKeeps(cfg, without, freed[k]);
      hide Flagged;
    }
  }

  // ---------------------------------------------------------------- writing and reading

  /** The data of some block holds the whole range. */
  ghost predicate InOneBlock(blocks: seq<Block>, pos: int, size: nat) {
    exists b :: b in blocks && b.Data() <= pos && pos + size <= b.End()
  }

  lemma RangeCases(cfg: Config, h: Heap, pos: nat, size: nat)
    requires cfg.Valid() && Inv(cfg, h) && size >= 1
    ensures RangeValid(cfg, h, pos, size) <==> InOneBlock(h.blocks, pos, size)
    ensures RangeValid(cfg, h, pos, size) ==>
              var i := First(h.blocks, Covers(pos));
              i < |h.blocks| && pos + size <= h.blocks[i].End()
  {
    RangeIsInOneBlock(cfg, h, pos, size);
    hide RangeValid, Inv;
    if i :| 0 <= i < |h.blocks| && h.blocks[i].Data() <= pos && pos + size <= h.blocks[i].End() {
      assert h.blocks[i] in h.blocks;
    }
  }

  /** A range in the data of a block shares nothing with any header or with any other block's data. */
  lemma DataIsApart(blocks: seq<Block>, b: Block, u: Block)
    requires Tiled(blocks) && b in blocks && u in blocks
    ensures b != u ==> b.End() <= u.Data() || u.End() <= b.Data()
    ensures b.End() <= u.addr || u.Data() <= b.Data()
    ensures 0 <= b.addr && b.End() <= End(blocks)
  {
    HeadersAvoidData(blocks, u, b);
    HeadersAvoidData(blocks, b, u);
    if b != u {
      var i :| 0 <= i < |blocks| && blocks[i] == b;
      var j :| 0 <= j < |blocks| && blocks[j] == u;
      if i < j {
        TiledIsOrdered(blocks, i, j);
      } else {
        TiledIsOrdered(blocks, j, i);
      }
    }
  }

  /** Changing bytes inside the data of one block keeps the image intact and every other block's bytes. */
  lemma PatchKeeps(cfg: Config, img: Image, pos: nat, data: Bytes, b: Block)
    requires cfg.Valid() && Intact(cfg, img) && b in img.heap.blocks && b.Data() <= pos && pos + |data| <= b.End()
    ensures var after := img.(space := Paging.Patch(img.space, pos, data));
            && Intact(cfg, after)
            && pos + |data| <= |img.space|
            && SameBut(img.space, after.space, pos, pos + |data|)
            && forall u :: u in img.heap.blocks && u != b ==> Spares(img, after, u)
  {
    var after := img.(space := Paging.Patch(img.space, pos, data));
    forall u | u in img.heap.blocks
      ensures b != u ==> b.End() <= u.Data() || u.End() <= b.Data()
      ensures b.End() <= u.addr || u.Data() <= b.Data()
      ensures 0 <= b.addr && b.End() <= |img.space|
    {
      DataIsApart(img.heap.blocks, b, u);
    }
    hide Tiled, Coalesced;
  }

  /**
    `memory_memwrite` accepts a range exactly when the data of one block holds all of it, the empty range
    apart; it then changes that range only, and the bytes it puts there are `Mixed`.
   */
  lemma MemwriteKeeps(cfg: Config, img: Image, pos: nat, data: Bytes)
    requires cfg.Valid() && Intact(cfg, img)
    ensures var (after, reply) := Memwrite(cfg, img, pos, data);
            && Intact(cfg, after) && after.heap == img.heap
            && (|data| >= 1 ==> reply == if InOneBlock(img.heap.blocks, pos, |data|) then Done else Invalid)
            && (|data| == 0 ==>
                reply == if First(img.heap.blocks, Covers(pos)) < |img.heap.blocks| then Done else Crash)
            && (reply != Done ==> after == img)
            && (reply == Done ==>
                  && pos + |data| <= |img.space|
                  && after.space == Paging.Patch(img.space, pos, Mixed(pos, data, cfg.pageSize))
                  && forall b :: b in img.heap.blocks && !(b.Data() <= pos < b.End()) ==> Spares(img, after, b))
  {
    hide Intact, Scatter, Pieces, Paging.Patch, Mixed, InOneBlock, Inv, Spares;
    var blocks, i := img.heap.blocks, First(img.heap.blocks, Covers(pos));
    SoundHeap(cfg, img);
    if |data| >= 1 {
      RangeCases(cfg, img.heap, pos, |data|);
    }
    if i < |blocks| && pos + |data| <= blocks[i].End() {
      PatchKeeps(cfg, img, pos, Mixed(pos, data, cfg.pageSize), blocks[i]);
      ScatterWhole(img.space, cfg.pageSize, pos, data);
      assert blocks[i] in blocks && Covers(pos)(blocks[i]);
    }
  }

  /** `memory_memread` accepts the same ranges, and a short range comes back as it is in the space. */
  lemma MemreadReturns(cfg: Config, img: Image, pos: nat, buffer: Bytes)
    requires cfg.Valid() && Intact(cfg, img) && |buffer| >= 1
    ensures Memread(cfg, img, pos, buffer).Some? <==> InOneBlock(img.heap.blocks, pos, |buffer|)
    ensures Memread(cfg, img, pos, buffer).Some? ==> pos + |buffer| <= |img.space|
    ensures Memread(cfg, img, pos, buffer).Some? && Short(pos, |buffer|, cfg.pageSize) ==>
              Memread(cfg, img, pos, buffer).value == Part(img.space, pos, |buffer|)
  {
    hide Gather, Pieces, Short, InOneBlock, Part;
    RangeCases(cfg, img.heap, pos, |buffer|);
    var i := First(img.heap.blocks, Covers(pos));
    if RangeValid(cfg, img.heap, pos, |buffer|) {
      BlockInSpace(img.heap.blocks, i);
      hide Inv, RangeValid;
      if Short(pos, |buffer|, cfg.pageSize) {
        ShortGather(img.space, cfg.pageSize, pos, buffer);
      }
    }
  }

  /**
    What is written is read back, whatever the bytes and the buffer, exactly when the range touches at
    most two pages.
   */
  lemma WriteThenRead(cfg: Config, img: Image, pos: nat, n: nat)
    requires cfg.Valid() && Intact(cfg, img) && n >= 1 && InOneBlock(img.heap.blocks, pos, n)
    ensures Short(pos, n, cfg.pageSize) <==>
            forall data: Bytes, buffer: Bytes :: |data| == n && |buffer| == n ==>
              Memread(cfg, Memwrite(cfg, img, pos, data).0, pos, buffer) == Some(data)
  {
    hide Intact, Memwrite, Memread, Short, InOneBlock;
    if Short(pos, n, cfg.pageSize) {
      forall data: Bytes, buffer: Bytes | |data| == n && |buffer| == n
        ensures Memread(cfg, Memwrite(cfg, img, pos, data).0, pos, buffer) == Some(data)
      {
        ShortRoundTrip(cfg, img, pos, data, buffer);
      }
    } else {
      var data: Bytes, buffer: Bytes := seq(n, _ => 0), seq(n, _ => 1);
      LongRoundTrip(cfg, img, pos, data, buffer);
      assert data[n - 1] != buffer[n - 1];
    }
  }

  lemma ShortRoundTrip(cfg: Config, img: Image, pos: nat, data: Bytes, buffer: Bytes)
    requires cfg.Valid() && Intact(cfg, img) && |data| >= 1 && |buffer| == |data|
    requires InOneBlock(img.heap.blocks, pos, |data|) && Short(pos, |data|, cfg.pageSize)
    ensures Memread(cfg, Memwrite(cfg, img, pos, data).0, pos, buffer) == Some(data)
  {
    hide Intact, Memwrite, Memread, Short, InOneBlock, Mixed;
    MemwriteKeeps(cfg, img, pos, data);
    ShortIsExact(pos, data, cfg.pageSize);
    MemreadReturns(cfg, Memwrite(cfg, img, pos, data).0, pos, buffer);
  }

  lemma LongRoundTrip(cfg: Config, img: Image, pos: nat, data: Bytes, buffer: Bytes)
    requires cfg.Valid() && Intact(cfg, img) && |data| >= 1 && |buffer| == |data|
    requires InOneBlock(img.heap.blocks, pos, |data|) && !Short(pos, |data|, cfg.pageSize)
    ensures var r := Memread(cfg, Memwrite(cfg, img, pos, data).0, pos, buffer);
            r.Some? && |r.value| == |data| && r.value[|data| - 1] == buffer[|data| - 1]
  {
    hide Intact, Memwrite, Short, InOneBlock, Mixed, Gather, Pieces, RangeValid;
    MemwriteKeeps(cfg, img, pos, data);
    var after := Memwrite(cfg, img, pos, data).0;
    MemreadReturns(cfg, after, pos, buffer);
    LongReadStopsShort(after.space, cfg.pageSize, pos, buffer);
  }
}
