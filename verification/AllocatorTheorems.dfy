/** What every allocation, release and compaction keeps, and what the planner promises. */
module AllocatorTheorems {
  import opened Base
  import opened Allocator

  // ---------------------------------------------------------------- invariants

  /** The blocks start at 0, follow each other without gaps, and hold at least one byte each. */
  ghost predicate Tiled(blocks: seq<Block>) {
    && (|blocks| > 0 ==> blocks[0].addr == 0)
    && (forall i :: 0 <= i < |blocks| ==> blocks[i].size >= 1)
    && forall i :: 0 < i < |blocks| ==> blocks[i].addr == blocks[i - 1].End()
  }

  ghost predicate Fits(cfg: Config, h: Heap) {
    End(h.blocks) <= h.pages * cfg.pageSize
  }

  ghost predicate Coalesced(blocks: seq<Block>) {
    forall i :: 0 < i < |blocks| ==> !(blocks[i - 1].free && blocks[i].free)
  }

  ghost predicate Inv(cfg: Config, h: Heap) {
    Tiled(h.blocks) && Fits(cfg, h) && Coalesced(h.blocks)
  }

  /** In a tiling, later blocks lie beyond earlier ones. */
  lemma {:induction false} TiledIsOrdered(blocks: seq<Block>, i: nat, j: nat)
    requires Tiled(blocks) && i < j < |blocks|
    ensures 0 <= blocks[i].addr && blocks[i].End() <= blocks[j].addr
    decreases j
  {
    TiledIsNonNegative(blocks, i);
    if i + 1 < j {
      TiledIsOrdered(blocks, i, j - 1);
    }
  }

  lemma {:induction false} TiledIsNonNegative(blocks: seq<Block>, i: nat)
    requires Tiled(blocks) && i < |blocks|
    ensures blocks[i].addr >= 0
  {
    if i > 0 {
      TiledIsNonNegative(blocks, i - 1);
    }
  }

  /** The bytes in use are exactly those before the end of the last block. */
  lemma {:induction false} OccupiedIsEnd(blocks: seq<Block>)
    requires Tiled(blocks)
    ensures Occupied(blocks) == End(blocks)
  {
    if |blocks| > 0 {
      OccupiedIsEnd(blocks[..|blocks| - 1]);
    }
  }

  /** No two blocks of a tiling share a byte, header or data, so a position belongs to at most one. */
  lemma CoveredOnce(blocks: seq<Block>, i: nat, j: nat, pos: int)
    requires Tiled(blocks) && i < |blocks| && j < |blocks|
    requires blocks[i].addr <= pos < blocks[i].End() && blocks[j].addr <= pos < blocks[j].End()
    ensures i == j
  {
    if i < j {
      TiledIsOrdered(blocks, i, j);
    } else if j < i {
      TiledIsOrdered(blocks, j, i);
    }
  }

  // ---------------------------------------------------------------- splitting a block

  /** In a tiling the lookup by address finds the block itself. */
  lemma {:induction false} IndexByAddress(blocks: seq<Block>, i: nat)
    requires Tiled(blocks) && i < |blocks|
    ensures First(blocks, StartsAt(blocks[i].addr)) == i
  {
    var r := First(blocks, StartsAt(blocks[i].addr));
    assert StartsAt(blocks[i].addr)(blocks[i]);
    assert r <= i;
    if r < i {
      TiledIsOrdered(blocks, r, i);
    }
  }

  /** The call that would put the remainder of a split in the wrong place of the list. */
  predicate Misplaces(cfg: Config, blocks: seq<Block>, size: nat) {
    var i := FirstFit(blocks, size);
    cfg.lookup.Shadowed? && 0 < i < |blocks| && Splits(blocks[i], size)
  }

  lemma SplitEntries(blocks: seq<Block>, i: nat, b: Block, rest: Block)
    requires i < |blocks|
    ensures var after := Insert(blocks[i := b], i + 1, rest);
            && |after| == |blocks| + 1 && after[i] == b && after[i + 1] == rest
            && (forall k :: 0 <= k < i ==> after[k] == blocks[k])
            && (forall k :: i + 1 < k < |after| ==> after[k] == blocks[k - 1])
  {
  }

  /** The two halves of a split where they belong. */
  lemma SplitKeeps(blocks: seq<Block>, i: nat, size: nat)
    requires Tiled(blocks) && i < |blocks| && Splits(blocks[i], size) && size >= 1
    ensures var b := blocks[i];
            var rest := Block(b.addr + size + HEADER, b.size - size - HEADER, true);
            var after := Insert(blocks[i := Block(b.addr, size, false)], i + 1, rest);
            Tiled(after) && End(after) == End(blocks)
  {
    hide Insert;
    var b := blocks[i];
    var rest := Block(b.addr + size + HEADER, b.size - size - HEADER, true);
    SplitEntries(blocks, i, Block(b.addr, size, false), rest);
    var after := Insert(blocks[i := Block(b.addr, size, false)], i + 1, rest);
    forall k | 0 < k < |after|
      ensures after[k].addr == after[k - 1].End()
    {
      if k > i + 1 {
        assert blocks[k - 1].addr == blocks[k - 2].End();
      } else if k < i {
        assert blocks[k].addr == blocks[k - 1].End();
      }
    }
  }

  lemma MisplacedBreaks(blocks: seq<Block>, i: nat, size: nat)
    requires Tiled(blocks) && 0 < i < |blocks| && Splits(blocks[i], size)
    ensures var b := blocks[i];
            !Tiled(Insert(blocks[i := Block(b.addr, size, false)], 1,
                Block(b.addr + size + HEADER, b.size - size - HEADER, true)))
  {
    TiledIsOrdered(blocks, 0, i);
    var b := blocks[i];
    var after := Insert(blocks[i := Block(b.addr, size, false)], 1,
        Block(b.addr + size + HEADER, b.size - size - HEADER, true));
    assert after[0].End() <= b.addr && after[1].addr == b.addr + size + HEADER;
  }

  /** Changing the free flag of a block moves nothing. */
  lemma FlagKeeps(blocks: seq<Block>, i: nat, free: bool)
    requires Tiled(blocks) && i < |blocks|
    ensures Tiled(blocks[i := blocks[i].(free := free)]) && End(blocks[i := blocks[i].(free := free)]) == End(blocks)
  {
  }

  /**
    First fit keeps the tiling exactly when it does not misplace a remainder: with the shadowed lookup,
    when the block it cuts is the first one or nothing is cut off.
   */
  lemma InFreeKeepsTiling(cfg: Config, blocks: seq<Block>, size: nat)
    requires Tiled(blocks) && size >= 1 && FirstFit(blocks, size) < |blocks|
    ensures var (after, pos) := AssignInFree(cfg, blocks, size);
            && (Tiled(after) <==> !Misplaces(cfg, blocks, size))
            && (Tiled(after) ==> End(after) == End(blocks))
  {
    hide Tiled, End, Insert, FirstFit, Splits;
    var i := FirstFit(blocks, size);
    FitIsFree(blocks, size);
    IndexByAddress(blocks, i);
    if !Splits(blocks[i], size) {
      FlagKeeps(blocks, i, false);
    } else if Misplaces(cfg, blocks, size) {
      MisplacedBreaks(blocks, i, size);
    } else {
      SplitKeeps(blocks, i, size);
    }
  }

  /** The list after a first-fit allocation, entry by entry. */
  function AssignedAt(blocks: seq<Block>, size: nat, k: nat): Block
    requires FirstFit(blocks, size) < |blocks|
        && k < |blocks| + if Splits(blocks[FirstFit(blocks, size)], size) then 1 else 0
  {
    var i := FirstFit(blocks, size);
    var b := blocks[i];
    if k < i then blocks[k]
    else if k == i then Block(b.addr, if Splits(b, size) then size else b.size, false)
    else if !Splits(b, size) then blocks[k]
    else if k == i + 1 then Block(b.addr + size + HEADER, b.size - size - HEADER, true)
    else blocks[k - 1]
  }

  lemma InFreeEntries(cfg: Config, blocks: seq<Block>, size: nat)
    requires Tiled(blocks) && FirstFit(blocks, size) < |blocks| && !Misplaces(cfg, blocks, size)
    ensures var (after, pos) := AssignInFree(cfg, blocks, size);
            && |after| == |blocks| + (if Splits(blocks[FirstFit(blocks, size)], size) then 1 else 0)
            && pos == blocks[FirstFit(blocks, size)].Data()
            && forall k :: 0 <= k < |after| ==> after[k] == AssignedAt(blocks, size, k)
  {
    hide Tiled, FirstFit;
    IndexByAddress(blocks, FirstFit(blocks, size));
  }

  /** The remainder's right neighbour was in use, because its left neighbour, the block cut, was free. */
  lemma InFreeKeepsCoalesced(cfg: Config, blocks: seq<Block>, size: nat)
    requires Tiled(blocks) && Coalesced(blocks) && FirstFit(blocks, size) < |blocks|
    requires !Misplaces(cfg, blocks, size)
    ensures Coalesced(AssignInFree(cfg, blocks, size).0)
  {
    hide Tiled, AssignInFree, Misplaces, Splits, FirstFit;
    FitIsFree(blocks, size);
    InFreeEntries(cfg, blocks, size);
    assert forall k :: 0 < k < |blocks| ==> !(blocks[k - 1].free && blocks[k].free);
  }

  lemma NothingFits(blocks: seq<Block>, size: nat)
    requires FirstFit(blocks, size) >= |blocks|
    ensures forall b :: b in blocks && b.free ==> b.size < size
  {
    assert forall k :: 0 <= k < |blocks| ==> !Fitting(size)(blocks[k]);
  }

  lemma FitIsFree(blocks: seq<Block>, size: nat)
    requires FirstFit(blocks, size) < |blocks|
    ensures blocks[FirstFit(blocks, size)].free && blocks[FirstFit(blocks, size)].size >= size
  {
  }

  /** A concrete list that the shadowed lookup breaks: the second block is cut and the remainder lands before it. */
  lemma ShadowedLookupBreaksTiling()
    ensures var cfg := Config(32, Dynamic, 0, Shadowed);
            var blocks := [Block(0, 5, false), Block(14, 40, true)];
            Tiled(blocks) && !Tiled(AssignInFree(cfg, blocks, 10).0)
  {
    var cfg := Config(32, Dynamic, 0, Shadowed);
    var blocks := [Block(0, 5, false), Block(14, 40, true)];
    assert !Fitting(10)(blocks[0]) && Fitting(10)(blocks[1]);
    assert FirstFit(blocks, 10) == 1;
    MisplacedBreaks(blocks, 1, 10);
  }

  // ---------------------------------------------------------------- the planner

  lemma RoundedUp(need: nat, ps: nat, q: nat)
    requires need >= 1 && ps >= 1
    requires q == if need % ps == 0 then need / ps else need / ps + 1
    ensures q >= 1 && (q - 1) * ps < need <= q * ps
  {
    assert need == (need / ps) * ps + need % ps;
    assert (need / ps + 1) * ps == (need / ps) * ps + ps;
    assert (need / ps - 1) * ps == (need / ps) * ps - ps;
  }

  lemma Scaled(a: int, b: int, ps: nat)
    requires a <= b
    ensures a * ps <= b * ps
  {
    assert (b - a) * ps >= 0;
  }

  /** `calcular_cantidad_paginas_necesaria` asks for the least number of pages that is enough. */
  lemma PagesNeededIsLeast(cfg: Config, room: int, size: nat, n: nat)
    requires cfg.Valid() && room < size + HEADER
    ensures room + PagesNeeded(cfg, room, size) * cfg.pageSize >= size + HEADER
    ensures PagesNeeded(cfg, room, size) >= 1
    ensures room + n * cfg.pageSize >= size + HEADER ==> n >= PagesNeeded(cfg, room, size)
  {
    var q := PagesNeeded(cfg, room, size);
    RoundedUp(size + HEADER - room, cfg.pageSize, q);
    if n <= q - 1 {
      Scaled(n, q - 1, cfg.pageSize);
    }
  }

  /**
    Each answer of the planner means what its strategy needs: a free block that is large enough; enough
    bytes after the last block; or, for new pages, that neither is there.  It refuses only for the quota,
    or because the swap server is gone; a plain no of the swap server counts as a yes.
   */
  lemma PlannerIsRight(cfg: Config, h: Heap, size: nat, answer: int)
    requires cfg.Valid() && Inv(cfg, h)
    ensures match CheckAlloc(cfg, h, size, answer)
            case InFree => exists b :: b in h.blocks && b.free && b.size >= size
            case AtEnd =>
              && (forall b :: b in h.blocks && b.free ==> b.size < size)
              && End(h.blocks) + HEADER + size <= h.pages * cfg.pageSize
            case NewPages =>
              && (forall b :: b in h.blocks && b.free ==> b.size < size)
              && h.pages * cfg.pageSize < End(h.blocks) + HEADER + size
              && (cfg.allocation.Fixed? ==> End(h.blocks) + HEADER + size <= cfg.quota * cfg.pageSize)
              && answer != 0
            case NoSpace =>
              && (forall b :: b in h.blocks && b.free ==> b.size < size)
              && h.pages * cfg.pageSize < End(h.blocks) + HEADER + size
              && (answer == 0 || (cfg.allocation.Fixed? && cfg.quota * cfg.pageSize < End(h.blocks) + HEADER + size))
  {
    hide FirstFit, Tiled, Coalesced;
    OccupiedIsEnd(h.blocks);
    if FirstFit(h.blocks, size) < |h.blocks| {
      FitIsFree(h.blocks, size);
      assert h.blocks[FirstFit(h.blocks, size)] in h.blocks;
    } else {
      NothingFits(h.blocks, size);
    }
    assert (cfg.quota - h.pages) * cfg.pageSize == cfg.quota * cfg.pageSize - h.pages * cfg.pageSize;
  }

  lemma AtEndKeeps(blocks: seq<Block>, size: nat)
    requires Tiled(blocks) && size >= 1
    ensures var after := AssignAtEnd(blocks, size).0;
            && Tiled(after) && End(after) == End(blocks) + HEADER + size
            && (Coalesced(blocks) ==> Coalesced(after))
  {
  }

  lemma EnoughPages(cfg: Config, room: int, size: nat, n: int)
    requires cfg.Valid() && room < size + HEADER && n * cfg.pageSize + room >= size + HEADER
    ensures PagesNeeded(cfg, room, size) <= n
  {
    hide PagesNeeded;
    if n <= 0 {
      Scaled(n, 0, cfg.pageSize);
    } else {
      PagesNeededIsLeast(cfg, room, size, n);
    }
  }

  /** Under the fixed policy an existing process never gets more pages than its quota of frames. */
  lemma NewPagesWithinQuota(cfg: Config, h: Heap, size: nat, answer: int)
    requires cfg.Valid() && Inv(cfg, h) && cfg.allocation.Fixed?
    requires CheckAlloc(cfg, h, size, answer) == NewPages
    ensures h.pages + PagesNeeded(cfg, Room(cfg, h), size) <= cfg.quota
  {
    hide FirstFit, Room, PagesNeeded, Inv;
    EnoughPages(cfg, Room(cfg, h), size, cfg.quota - h.pages);
  }

  // ---------------------------------------------------------------- allocation

  lemma AllocateKeeps(cfg: Config, h: Heap, size: nat, plan: Plan)
    requires cfg.Valid() && Inv(cfg, h) && size >= 1
    requires plan.InFree? ==> FirstFit(h.blocks, size) < |h.blocks| && !Misplaces(cfg, h.blocks, size)
    requires plan.NewPages? ==> Room(cfg, h) < size + HEADER
    requires plan.AtEnd? ==> Room(cfg, h) >= size + HEADER
    ensures Inv(cfg, Allocate(cfg, h, size, plan).0)
  {
    OccupiedIsEnd(h.blocks);
    match plan
    case NoSpace =>
    case InFree =>
      InFreeKeepsTiling(cfg, h.blocks, size);
      InFreeKeepsCoalesced(cfg, h.blocks, size);
    case AtEnd =>
      AtEndKeeps(h.blocks, size);
    case NewPages =>
      AtEndKeeps(h.blocks, size);
      PagesNeededIsLeast(cfg, Room(cfg, h), size, 0);
      var q := PagesNeeded(cfg, Room(cfg, h), size);
      assert (h.pages + q) * cfg.pageSize == h.pages * cfg.pageSize + q * cfg.pageSize;
  }

  /** `i` is the first free block of at least `size` bytes. */
  ghost predicate FitsFirst(blocks: seq<Block>, size: nat, i: nat) {
    && i < |blocks| && blocks[i].free && blocks[i].size >= size
    && forall k :: 0 <= k < i ==> !blocks[k].free || blocks[k].size < size
  }

  /**
    The list after block `i` has been given away for `size` bytes: whole, when at most nine bytes would be left over;
    otherwise cut to that size, with the rest free, behind the block or, with the shadowed lookup, behind the first.
   */
  ghost predicate GivesBlock(cfg: Config, before: seq<Block>, i: nat, size: nat, after: seq<Block>) {
    i < |before| &&
    var b := before[i];
    if b.size - size <= 9 then after == before[i := Block(b.addr, b.size, false)]
    else
      var at := if cfg.lookup.Shadowed? then 1 else i + 1;
      && |after| == |before| + 1
      && after[at] == Block(b.addr + 9 + size, b.size - size - 9, true)
      && after[..at] + after[at + 1..] == before[i := Block(b.addr, size, false)]
  }

  /** `n` is the least number of pages that leaves room for a header and `size` bytes after the last block. */
  ghost predicate LeastPages(cfg: Config, h: Heap, size: nat, n: nat) {
    && h.pages <= n && End(h.blocks) + 9 + size <= n * cfg.pageSize
    && forall m :: h.pages <= m < n ==> m * cfg.pageSize < End(h.blocks) + 9 + size
  }

  /**
    The whole of an allocation for a process that exists.  It takes the first free block that is large enough; when
    there is none, the place after the last block, in as few pages as are enough; and nothing when the quota does not
    allow those or the swap server is gone.  At the end a block has exactly the size asked for.
   */
  lemma {:induction false} MemallocIsExact(cfg: Config, h: Heap, size: nat, answer: int)
    requires cfg.Valid() && Inv(cfg, h)
    ensures var (h', reply) := Memalloc(cfg, h, size, answer);
            && (forall i: nat :: FitsFirst(h.blocks, size, i) ==>
                  && GivesBlock(cfg, h.blocks, i, size, h'.blocks) && h'.pages == h.pages
                  && (reply == Granted(h.blocks[i].addr + 9) || reply == Crash))
            && ((forall i :: 0 <= i < |h.blocks| && h.blocks[i].free ==> h.blocks[i].size < size) ==>
                  var need := End(h.blocks) + 9 + size;
                  if h.pages * cfg.pageSize < need
                     && (answer == 0 || (cfg.allocation.Fixed? && cfg.quota * cfg.pageSize < need)) then
                    h' == h && reply == OutOfSpace
                  else
                    && h'.blocks == h.blocks + [Block(End(h.blocks), size, false)]
                    && LeastPages(cfg, h, size, h'.pages)
                    && (reply == Granted(End(h.blocks) + 9) || reply == Crash))
  {
    hide Tiled, Coalesced, FirstFit, Room, PagesNeeded, AssignInFree, End;
    if i: nat :| FitsFirst(h.blocks, size, i) {
      FitsFirstIs(h.blocks, size, i);
      GivesIt(cfg, h.blocks, i, size);
      forall j: nat | FitsFirst(h.blocks, size, j)
        ensures j == i
      {
        FitsFirstIs(h.blocks, size, j);
      }
    } else {
      NoneFits(h.blocks, size);
      PlannerIsRight(cfg, h, size, answer);
      GrowsExactly(cfg, h, size);
    }
  }

  lemma FitsFirstIs(blocks: seq<Block>, size: nat, i: nat)
    requires FitsFirst(blocks, size, i)
    ensures FirstFit(blocks, size) == i
  {
    assert Fitting(size)(blocks[i]);
    assert forall k :: 0 <= k < i ==> !Fitting(size)(blocks[k]);
  }

  lemma {:induction false} NoneFits(blocks: seq<Block>, size: nat)
    requires forall i: nat :: !FitsFirst(blocks, size, i)
    ensures FirstFit(blocks, size) == |blocks|
  {
    if FirstFit(blocks, size) < |blocks| {
      assert FitsFirst(blocks, size, FirstFit(blocks, size));
    }
  }

  lemma GivesIt(cfg: Config, blocks: seq<Block>, i: nat, size: nat)
    requires Tiled(blocks) && i < |blocks| && FirstFit(blocks, size) == i
    ensures var (after, pos) := AssignInFree(cfg, blocks, size);
            GivesBlock(cfg, blocks, i, size, after) && pos == blocks[i].addr + 9
  {
    hide FirstFit, Tiled, Insert;
    IndexByAddress(blocks, i);
    var b := blocks[i];
    InsertAt(blocks[i := Block(b.addr, size, false)], if cfg.lookup.Shadowed? then 1 else i + 1,
        Block(b.addr + size + HEADER, if Splits(b, size) then b.size - size - HEADER else 0, true));
  }

  lemma InsertAt(blocks: seq<Block>, i: nat, b: Block)
    requires i <= |blocks|
    ensures var after := Insert(blocks, i, b);
            |after| == |blocks| + 1 && after[i] == b && after[..i] + after[i + 1..] == blocks
  {
    assert blocks[..i] + blocks[i..] == blocks;
  }

  lemma {:induction false} GrowsExactly(cfg: Config, h: Heap, size: nat)
    requires cfg.Valid() && Inv(cfg, h)
    ensures Room(cfg, h) >= size + HEADER ==> LeastPages(cfg, h, size, h.pages)
    ensures Room(cfg, h) < size + HEADER ==> LeastPages(cfg, h, size, h.pages + PagesNeeded(cfg, Room(cfg, h), size))
  {
    hide PagesNeeded, End, Tiled, Coalesced;
    OccupiedIsEnd(h.blocks);
    if Room(cfg, h) < size + HEADER {
      var q := PagesNeeded(cfg, Room(cfg, h), size);
      PagesNeededIsLeast(cfg, Room(cfg, h), size, q);
      assert (h.pages + q) * cfg.pageSize == h.pages * cfg.pageSize + q * cfg.pageSize;
      forall m: nat | h.pages <= m < h.pages + q
        ensures m * cfg.pageSize < End(h.blocks) + 9 + size
      {
        PagesNeededIsLeast(cfg, Room(cfg, h), size, m - h.pages);
        assert m * cfg.pageSize == h.pages * cfg.pageSize + (m - h.pages) * cfg.pageSize;
      }
    }
  }

  /** The first allocation of a process: one block at the start, in as few pages as are enough, whatever the quota. */
  lemma {:induction false} MemallocFirstIsExact(cfg: Config, size: nat, answer: int)
    requires cfg.Valid()
    ensures var (h', reply) := MemallocFirst(cfg, size, answer);
            if answer == 0 then h' == Heap([], 0) && reply == OutOfSpace
            else
              && h'.blocks == [Block(0, size, false)] && LeastPages(cfg, Heap([], 0), size, h'.pages)
              && reply == if size == 0 then Crash else Granted(9)
  {
    hide PagesNeeded;
    GrowsExactly(cfg, Heap([], 0), size);
    if answer != 0 {
      var blocks := MemallocFirst(cfg, size, answer).0.blocks;
      assert blocks == [Block(0, size, false)];
      assert Covers(HEADER)(blocks[0]) <==> size >= 1;
    }
  }

  /** Where the granted block is, and that the blocks in use before are still there, and no others. */
  ghost predicate GrantsOne(before: seq<Block>, after: seq<Block>, pos: int, size: nat, at: nat) {
    && at < |after| && after[at].Data() == pos && after[at].size >= size && !after[at].free
    && (forall k :: 0 <= k < |after| && !after[k].free && k != at ==> after[k] in before)
    && (forall k :: 0 <= k < |before| && !before[k].free ==> before[k] in after && before[k].addr != after[at].addr)
  }

  lemma GrantInFree(cfg: Config, blocks: seq<Block>, size: nat) returns (at: nat)
    requires Tiled(blocks) && FirstFit(blocks, size) < |blocks| && !Misplaces(cfg, blocks, size)
    ensures var (after, pos) := AssignInFree(cfg, blocks, size); GrantsOne(blocks, after, pos, size, at)
  {
    hide Tiled, AssignInFree, Misplaces, Splits, FirstFit;
    FitIsFree(blocks, size);
    InFreeEntries(cfg, blocks, size);
    var i := FirstFit(blocks, size);
    var after := AssignInFree(cfg, blocks, size).0;
    at := i;
    forall k | 0 <= k < |blocks| && !blocks[k].free
      ensures blocks[k] in after && blocks[k].addr != blocks[i].addr
    {
      if k < i {
        TiledIsOrdered(blocks, k, i);
        assert after[k] == blocks[k];
      } else {
        TiledIsOrdered(blocks, i, k);
        assert after[if Splits(blocks[i], size) then k + 1 else k] == blocks[k];
      }
    }
  }

  lemma GrantAtEnd(blocks: seq<Block>, size: nat)
    requires Tiled(blocks) && size >= 1
    ensures var (after, pos) := AssignAtEnd(blocks, size); GrantsOne(blocks, after, pos, size, |blocks|)
  {
    var after := AssignAtEnd(blocks, size).0;
    AtEndKeeps(blocks, size);
    forall k | 0 <= k < |blocks|
      ensures blocks[k] in after && blocks[k].addr != after[|blocks|].addr
    {
      TiledIsOrdered(after, k, |blocks|);
      assert after[k] == blocks[k];
    }
  }

  /**
    Allocation keeps the invariant, and what it grants is a block of at least the size asked for, inside
    the pages, that shares no byte with any block in use.
   */
  lemma MemallocGrants(cfg: Config, h: Heap, size: nat, answer: int) returns (at: nat)
    requires cfg.Valid() && Inv(cfg, h) && size >= 1
    requires CheckAlloc(cfg, h, size, answer).InFree? ==> !Misplaces(cfg, h.blocks, size)
    ensures var (h', reply) := Memalloc(cfg, h, size, answer);
            && Inv(cfg, h')
            && (reply == OutOfSpace || reply.Granted?)
            && (reply == OutOfSpace <==> CheckAlloc(cfg, h, size, answer) == NoSpace)
            && (reply == OutOfSpace ==> h' == h)
            && (reply.Granted? ==> GrantsOne(h.blocks, h'.blocks, reply.pos, size, at)
                                   && reply.pos + size <= h'.pages * cfg.pageSize)
  {
    var plan := CheckAlloc(cfg, h, size, answer);
    AllocateKeeps(cfg, h, size, plan);
    var (h', reply) := Allocate(cfg, h, size, plan);
    at := 0;
    match plan {
      case NoSpace =>
      case InFree => at := GrantInFree(cfg, h.blocks, size);
      case AtEnd => GrantAtEnd(h.blocks, size); at := |h.blocks|;
      case NewPages => GrantAtEnd(h.blocks, size); at := |h.blocks|;
    }
    if reply.Granted? {
      hide Coalesced, Allocate, CheckAlloc;
      GrantIsInside(cfg, h', reply.pos, size, at);
    }
  }

  lemma GrantIsInside(cfg: Config, h: Heap, pos: int, size: nat, at: nat)
    requires Tiled(h.blocks) && Fits(cfg, h) && size >= 1
    requires at < |h.blocks| && h.blocks[at].Data() == pos && h.blocks[at].size >= size
    ensures First(h.blocks, Covers(pos)) == at && pos + size <= h.pages * cfg.pageSize && pos >= HEADER
  {
    assert Covers(pos)(h.blocks[at]);
    var r := First(h.blocks, Covers(pos));
    TiledIsNonNegative(h.blocks, at);
    CoveredOnce(h.blocks, r, at, pos);
    if at < |h.blocks| - 1 {
      TiledIsOrdered(h.blocks, at, |h.blocks| - 1);
    }
  }

  // ---------------------------------------------------------------- release

  /** After the release of block `i`, block `k` of `after` is the free block that has swallowed it. */
  ghost predicate ReleasesOne(before: seq<Block>, i: nat, after: seq<Block>, k: nat) {
    && i < |before| && k < |after| && after[k].free
    && after[k].addr <= before[i].addr && before[i].End() <= after[k].End()
    && (forall j :: 0 <= j < |before| && !before[j].free && j != i ==> before[j] in after)
    && (forall j :: 0 <= j < |after| && !after[j].free ==> after[j] in before && after[j] != before[i])
  }

  lemma MergeLeftTiles(blocks: seq<Block>, i: nat)
    requires Tiled(blocks) && i < |blocks| && blocks[i].free
    ensures var (after, k) := MergeLeft(blocks, i);
            && Tiled(after) && End(after) == End(blocks) && k < |after| && after[k].free
            && after[k].addr <= blocks[i].addr && after[k].End() == blocks[i].End()
  {
    var (after, k) := MergeLeft(blocks, i);
    if i > 0 && blocks[i - 1].free {
      assert forall j :: 0 <= j < |after| && j != k ==> after[j] == if j < k then blocks[j] else blocks[j + 1];
    }
  }

  lemma MergeLeftKeeps(blocks: seq<Block>, i: nat)
    requires i < |blocks| && blocks[i].free
    requires forall k :: 0 < k < |blocks| && k != i && k != i + 1 ==> !(blocks[k - 1].free && blocks[k].free)
    ensures var (after, k) := MergeLeft(blocks, i);
            && (forall j :: 0 < j < |after| && j != k + 1 ==> !(after[j - 1].free && after[j].free))
            && (forall j :: 0 <= j < |blocks| && !blocks[j].free ==> blocks[j] in after)
            && (forall j :: 0 <= j < |after| && !after[j].free ==> after[j] in blocks)
  {
    var (after, k) := MergeLeft(blocks, i);
    if i > 0 && blocks[i - 1].free {
      assert forall j :: 0 <= j < |after| && j != k ==> after[j] == if j < k then blocks[j] else blocks[j + 1];
      forall j | 0 <= j < |blocks| && !blocks[j].free
        ensures blocks[j] in after
      {
        assert after[if j < i then j else j - 1] == blocks[j];
      }
    }
  }

  lemma MergeRightTiles(blocks: seq<Block>, i: nat)
    requires Tiled(blocks) && i < |blocks|
    ensures var after := MergeRight(blocks, i);
            && Tiled(after) && End(after) == End(blocks) && i < |after| && after[i].free == blocks[i].free
            && after[i].addr == blocks[i].addr && after[i].End() >= blocks[i].End()
  {
    var after := MergeRight(blocks, i);
    if i + 1 < |blocks| && blocks[i + 1].free {
      assert forall j :: 0 <= j < |after| && j != i ==> after[j] == if j < i then blocks[j] else blocks[j + 1];
    }
  }

  lemma MergeRightKeeps(blocks: seq<Block>, i: nat)
    requires i < |blocks| && blocks[i].free
    requires forall k :: 0 < k < |blocks| && k != i + 1 ==> !(blocks[k - 1].free && blocks[k].free)
    ensures var after := MergeRight(blocks, i);
            && Coalesced(after)
            && (forall j :: 0 <= j < |blocks| && !blocks[j].free ==> blocks[j] in after)
            && (forall j :: 0 <= j < |after| && !after[j].free ==> after[j] in blocks)
  {
    var after := MergeRight(blocks, i);
    if i + 1 < |blocks| && blocks[i + 1].free {
      assert forall j :: 0 <= j < |after| && j != i ==> after[j] == if j < i then blocks[j] else blocks[j + 1];
      forall j | 0 <= j < |blocks| && !blocks[j].free
        ensures blocks[j] in after
      {
        assert after[if j < i then j else j - 1] == blocks[j];
      }
    }
  }

  /** Both merges together restore coalescing, keep the tiling and move no block in use. */
  lemma ReleaseKeeps(blocks: seq<Block>, i: nat)
    requires Tiled(blocks) && Coalesced(blocks) && i < |blocks| && !blocks[i].free
    ensures var (after, k) := Release(blocks, i);
            Tiled(after) && Coalesced(after) && End(after) == End(blocks) && ReleasesOne(blocks, i, after, k)
  {
    hide MergeLeft, MergeRight, Tiled, Coalesced, End;
    var marked := blocks[i := blocks[i].(free := true)];
    FlagKeeps(blocks, i, true);
    OnlyAround(blocks, i);
    MergeLeftTiles(marked, i);
    MergeLeftKeeps(marked, i);
    var (left, k) := MergeLeft(marked, i);
    MergeRightTiles(left, k);
    MergeRightKeeps(left, k);
    var after := MergeRight(left, k);
    forall j | 0 <= j < |blocks| && !blocks[j].free && j != i
      ensures blocks[j] in after
    {
      assert marked[j] in left;
    }
    forall j | 0 <= j < |after| && !after[j].free
      ensures after[j] in blocks && after[j] != blocks[i]
    {
      assert after[j] in left && after[j] in marked;
      FreedIsGone(blocks, i, after[j]);
    }
  }

  /** Freeing one block of a coalesced list leaves neighbours to join only on its two sides. */
  lemma OnlyAround(blocks: seq<Block>, i: nat)
    requires Coalesced(blocks) && i < |blocks|
    ensures var marked := blocks[i := blocks[i].(free := true)];
            forall k :: 0 < k < |marked| && k != i && k != i + 1 ==> !(marked[k - 1].free && marked[k].free)
  {
  }

  lemma FreedIsGone(blocks: seq<Block>, i: nat, b: Block)
    requires Tiled(blocks) && i < |blocks| && !b.free && b in blocks[i := blocks[i].(free := true)]
    ensures b in blocks && b != blocks[i]
  {
    var n :| 0 <= n < |blocks| && blocks[i := blocks[i].(free := true)][n] == b;
    if n < i {
      TiledIsOrdered(blocks, n, i);
    } else if i < n {
      TiledIsOrdered(blocks, i, n);
    }
  }

  /** `memory_memfree` frees exactly a block in use whose data starts at the given position. */
  lemma FreeReleases(cfg: Config, h: Heap, pos: nat)
    requires cfg.Valid() && Inv(cfg, h)
    ensures var (h', reply) := Free(cfg, h, pos);
            && Inv(cfg, h') && h'.pages == h.pages
            && (reply == Done || (reply == Invalid && h' == h))
            && (reply == Done <==> exists i :: 0 <= i < |h.blocks| && h.blocks[i].Data() == pos && !h.blocks[i].free)
            && (reply == Done ==> exists i :: 0 <= i < |h.blocks| && h.blocks[i].Data() == pos && !h.blocks[i].free
                                    && ReleasesOne(h.blocks, i, h'.blocks, Release(h.blocks, i).1))
  {
    var i := First(h.blocks, DataAt(pos));
    if Freeable(cfg, h, pos).Some? {
      ReleaseKeeps(h.blocks, i);
    }
    if j :| 0 <= j < |h.blocks| && h.blocks[j].Data() == pos && !h.blocks[j].free {
      assert DataAt(pos)(h.blocks[j]);
      if i < j {
        TiledIsOrdered(h.blocks, i, j);
      }
      DataIsInPages(cfg, h, j);
    }
  }

  lemma DataIsInPages(cfg: Config, h: Heap, j: nat)
    requires cfg.Valid() && Tiled(h.blocks) && Fits(cfg, h) && j < |h.blocks|
    ensures h.blocks[j].Data() >= 0
    ensures forall a: nat :: a < h.blocks[j].End() ==> InPages(cfg, h, a)
  {
    TiledIsNonNegative(h.blocks, j);
    if j < |h.blocks| - 1 {
      TiledIsOrdered(h.blocks, j, |h.blocks| - 1);
    }
    forall a: nat | a < h.blocks[j].End()
      ensures InPages(cfg, h, a)
    {
      BelowIsInPages(cfg, h, a);
    }
  }

  lemma BelowIsInPages(cfg: Config, h: Heap, a: nat)
    requires cfg.Valid() && a < h.pages * cfg.pageSize
    ensures InPages(cfg, h, a)
  {
    if h.pages <= a / cfg.pageSize {
      Scaled(h.pages, a / cfg.pageSize, cfg.pageSize);
      assert false;
    }
  }

  // ---------------------------------------------------------------- compaction

  /** For the first page, the only one compaction asks about, the test is right despite its long loop. */
  lemma FirstPageTestIsRight(cfg: Config, b: Block)
    requires cfg.Valid() && b.addr >= 0
    ensures OnPage(cfg, b, 0) <==> b.addr < cfg.pageSize
  {
    assert (2 * b.addr + HEADER + b.size - 1) / cfg.pageSize >= 0;
    if b.addr < cfg.pageSize {
      assert b.addr / cfg.pageSize == 0;
    }
  }

  lemma {:induction false} OnFirstPageAll(cfg: Config, blocks: seq<Block>)
    requires cfg.Valid()
    ensures forall k :: 0 <= k < |blocks| && OnPage(cfg, blocks[k], 0) ==> blocks[k] in OnFirstPage(cfg, blocks)
  {
    if |blocks| > 0 {
      var n := |blocks| - 1;
      OnFirstPageAll(cfg, blocks[..n]);
      forall k | 0 <= k < |blocks| && OnPage(cfg, blocks[k], 0)
        ensures blocks[k] in OnFirstPage(cfg, blocks)
      {
        assert k < n ==> blocks[..n][k] == blocks[k];
        assert OnFirstPage(cfg, blocks) ==
               OnFirstPage(cfg, blocks[..n]) + if OnPage(cfg, blocks[n], 0) then [blocks[n]] else [];
      }
    }
  }

  lemma {:induction false} OnlyTheFirst(cfg: Config, blocks: seq<Block>)
    requires cfg.Valid() && |blocks| > 0 && OnPage(cfg, blocks[0], 0)
    requires forall k :: 1 <= k < |blocks| ==> !OnPage(cfg, blocks[k], 0)
    ensures OnFirstPage(cfg, blocks) == [blocks[0]]
  {
    var n := |blocks| - 1;
    if n > 0 {
      OnlyTheFirst(cfg, blocks[..n]);
    } else {
      assert blocks[..0] == [];
    }
  }

  /** When every block on the first page is free there is exactly one such block, and it covers the page. */
  lemma {:induction false} CompactsOneBlock(cfg: Config, h: Heap)
    requires cfg.Valid() && Inv(cfg, h) && Compacts(cfg, h)
    ensures |h.blocks| > 0 && h.blocks[0].free && OnFirstPage(cfg, h.blocks) == [h.blocks[0]]
    ensures |h.blocks| > 1 ==> !h.blocks[1].free && h.blocks[0].End() >= cfg.pageSize
  {
    var blocks, list := h.blocks, OnFirstPage(cfg, h.blocks);
    OnFirstPageAll(cfg, blocks);
    forall k | 0 <= k < |blocks|
      ensures OnPage(cfg, blocks[k], 0) <==> blocks[k].addr < cfg.pageSize
    {
      TiledIsNonNegative(blocks, k);
      FirstPageTestIsRight(cfg, blocks[k]);
    }
    assert blocks[0] in list;
    if |blocks| > 1 {
      assert !OnPage(cfg, blocks[1], 0);
    }
    forall k | 1 <= k < |blocks|
      ensures !OnPage(cfg, blocks[k], 0)
    {
      if k > 1 {
        TiledIsOrdered(blocks, 1, k);
      }
    }
    OnlyTheFirst(cfg, blocks);
  }

  /** A process is compacted exactly when its first block is free and reaches over the first page or to the end. */
  lemma {:induction false} CompactsExactly(cfg: Config, h: Heap)
    requires cfg.Valid() && Inv(cfg, h) && |h.blocks| > 0
    ensures Compacts(cfg, h) <==> h.blocks[0].free && (|h.blocks| > 1 ==> h.blocks[0].End() >= cfg.pageSize)
  {
    var blocks := h.blocks;
    if Compacts(cfg, h) {
      CompactsOneBlock(cfg, h);
    } else if blocks[0].free && (|blocks| > 1 ==> blocks[0].End() >= cfg.pageSize) {
      FirstPageTestIsRight(cfg, blocks[0]);
      forall k | 1 <= k < |blocks|
        ensures !OnPage(cfg, blocks[k], 0)
      {
        TiledIsOrdered(blocks, 0, k);
        FirstPageTestIsRight(cfg, blocks[k]);
      }
      OnlyTheFirst(cfg, blocks);
      TiledIsNonNegative(blocks, |blocks| - 1);
      assert false;
    }
  }

  /** In a tiling no two blocks have their data at the same position. */
  lemma {:induction false} DataIsDistinct(blocks: seq<Block>, i: nat, j: nat)
    requires Tiled(blocks) && i < |blocks| && j < |blocks| && i != j
    ensures blocks[i].Data() != blocks[j].Data()
  {
    TiledIsOrdered(blocks, if i < j then i else j, if i < j then j else i);
  }

  lemma {:induction false} AllReleased(before: seq<Block>, i: nat, after: seq<Block>, k: nat)
    requires Tiled(before) && ReleasesOne(before, i, after, k) && Coalesced(after)
    requires forall j :: 0 <= j < |before| && before[j].Data() != before[i].Data() ==> before[j].free
    ensures |after| == 1 && after[0].free
  {
    assert |after| > 1 ==> !(after[0].free && after[1].free);
    forall j | 0 <= j < |after|
      ensures after[j].free
    {
      if !after[j].free {
        var l :| 0 <= l < |before| && before[l] == after[j];
        DataIsDistinct(before, l, i);
      }
    }
  }

  /** So a process that releases its last block in use is always compacted. */
  lemma {:induction false} LastReleaseCompacts(cfg: Config, h: Heap, pos: nat)
    requires cfg.Valid() && Inv(cfg, h) && Free(cfg, h, pos).1 == Done
    requires forall i :: 0 <= i < |h.blocks| && h.blocks[i].Data() != pos ==> h.blocks[i].free
    ensures Compacts(cfg, Free(cfg, h, pos).0)
  {
    FreeReleases(cfg, h, pos);
    var h' := Free(cfg, h, pos).0;
    hide Free, Compacts, ReleasesOne, Tiled, Coalesced, Release;
    var i :| 0 <= i < |h.blocks| && h.blocks[i].Data() == pos && !h.blocks[i].free
             && ReleasesOne(h.blocks, i, h'.blocks, Release(h.blocks, i).1);
    AllReleased(h.blocks, i, h'.blocks, Release(h.blocks, i).1);
    CompactsExactly(cfg, h');
  }

  lemma CompactedBlocks(cfg: Config, h: Heap)
    requires cfg.Valid() && Inv(cfg, h) && Compacts(cfg, h)
    ensures |h.blocks| > 0
    ensures CompactOnce(cfg, h) == Heap(Shift(h.blocks[1..], 0, h.blocks[0].End()), h.pages - 1)
  {
    CompactsOneBlock(cfg, h);
    var gone := OnFirstPage(cfg, h.blocks);
    assert StartsAt(gone[0].addr)(h.blocks[0]);
    assert h.blocks[..0] + h.blocks[1..] == h.blocks[1..];
    assert gone[1..] == [];
    assert RemoveAll(h.blocks, gone) == RemoveAll(Remove(h.blocks, gone[0].addr), gone[1..]);
  }

  /** `after` is `before` without its first block: the others keep order, size and flag, and move down by its length. */
  ghost predicate MovedDown(before: seq<Block>, after: seq<Block>) {
    && |before| == |after| + 1
    && forall k :: 0 <= k < |after| ==>
         && after[k].size == before[k + 1].size && after[k].free == before[k + 1].free
         && after[k].addr == before[k + 1].addr - (before[0].size + HEADER)
  }

  /**
    Removing the first page and its one free block leaves the other blocks in order, with their sizes and flags, and
    keeps the invariant with one page fewer.
   */
  lemma CompactionKeeps(cfg: Config, h: Heap)
    requires cfg.Valid() && Inv(cfg, h) && Compacts(cfg, h)
    ensures var h' := CompactOnce(cfg, h);
            && Inv(cfg, h') && h'.pages == h.pages - 1 && !Compacts(cfg, h')
            && MovedDown(h.blocks, h'.blocks)
  {
    hide OnFirstPage, CompactOnce, OnPage, Shift, MovedDown, Tiled, Coalesced, End;
    CompactsOneBlock(cfg, h);
    CompactedBlocks(cfg, h);
    ShiftMovesDown(h.blocks);
    var h' := CompactOnce(cfg, h);
    assert (h.pages - 1) * cfg.pageSize == h.pages * cfg.pageSize - cfg.pageSize;
    if |h'.blocks| > 0 {
      CompactsExactly(cfg, h');
    } else {
      NothingCompacts(cfg, h');
    }
  }

  lemma NothingCompacts(cfg: Config, h: Heap)
    requires cfg.Valid() && h.blocks == []
    ensures !Compacts(cfg, h)
  {
  }

  lemma ShiftMovesDown(blocks: seq<Block>)
    requires Tiled(blocks) && Coalesced(blocks) && |blocks| > 0
    ensures var after := Shift(blocks[1..], 0, blocks[0].End());
            && Tiled(after) && Coalesced(after) && MovedDown(blocks, after)
            && (|blocks| > 1 ==> after[0].free == blocks[1].free && End(after) == End(blocks) - blocks[0].End())
            && (|blocks| == 1 ==> after == [] && End(after) == 0)
  {
  }

  /** So the loop of `memory_memfree` compacts at most once. */
  lemma {:induction false} CompactsAtMostOnce(cfg: Config, h: Heap)
    requires cfg.Valid() && Inv(cfg, h)
    ensures CompactAll(cfg, h) == if Compacts(cfg, h) then CompactOnce(cfg, h) else h
    ensures Inv(cfg, CompactAll(cfg, h))
  {
    if Compacts(cfg, h) {
      CompactionKeeps(cfg, h);
      assert CompactAll(cfg, CompactOnce(cfg, h)) == CompactOnce(cfg, h);
    }
  }

  /**
    The whole of a release.  It is done exactly at the data of a block in use; that block is freed and joined with its
    free neighbours; and when the first block is free then, and is the only one or reaches over the first page, that
    block and one page are gone and the others have moved down.
   */
  lemma MemfreeIsExact(cfg: Config, h: Heap, pos: nat) returns (freed: seq<Block>)
    requires cfg.Valid() && Inv(cfg, h)
    ensures var (h', reply) := Allocator.Memfree(cfg, h, pos);
            && (reply == Done <==> exists i :: 0 <= i < |h.blocks| && h.blocks[i].Data() == pos && !h.blocks[i].free)
            && (reply != Done ==> reply == Invalid && h' == h)
            && (reply == Done ==>
                  && (exists i, k :: 0 <= i < |h.blocks| && h.blocks[i].Data() == pos && !h.blocks[i].free
                                       && ReleasesOne(h.blocks, i, freed, k))
                  && Tiled(freed) && Coalesced(freed) && End(freed) == End(h.blocks) && |freed| > 0
                  && if freed[0].free && (|freed| > 1 ==> freed[0].End() >= cfg.pageSize) then
                       MovedDown(freed, h'.blocks) && h'.pages == h.pages - 1
                     else h' == Heap(freed, h.pages))
  {
    FreeReleases(cfg, h, pos);
    var (h1, reply) := Free(cfg, h, pos);
    freed := h1.blocks;
    if reply == Done {
      FreedKeepsEnd(cfg, h, pos);
      hide Free, Compacts, ReleasesOne, Tiled, Coalesced, Release, CompactOnce, Fits;
      CompactsAtMostOnce(cfg, h1);
      SomeBlockIsLeft(h.blocks, freed);
      CompactsExactly(cfg, h1);
      if Compacts(cfg, h1) {
        CompactionKeeps(cfg, h1);
      }
    }
  }

  lemma FreedKeepsEnd(cfg: Config, h: Heap, pos: nat)
    requires cfg.Valid() && Inv(cfg, h) && Free(cfg, h, pos).1 == Done
    ensures End(Free(cfg, h, pos).0.blocks) == End(h.blocks)
  {
    ReleaseKeeps(h.blocks, First(h.blocks, DataAt(pos)));
  }

  lemma SomeBlockIsLeft(before: seq<Block>, after: seq<Block>)
    requires exists i, k :: ReleasesOne(before, i, after, k)
    ensures |after| > 0
  {
  }

  // ---------------------------------------------------------------- ranges of data

  /**
    The byte-by-byte test of a range accepts exactly the ranges that lie in the data of one block, so the
    later test of the remaining bytes never refuses anything.
   */
  lemma RangeIsInOneBlock(cfg: Config, h: Heap, pos: nat, size: nat)
    requires cfg.Valid() && Inv(cfg, h) && size >= 1
    ensures RangeValid(cfg, h, pos, size) <==>
            exists i :: 0 <= i < |h.blocks| && h.blocks[i].Data() <= pos && pos + size <= h.blocks[i].End()
    ensures RangeValid(cfg, h, pos, size) ==>
              var i := First(h.blocks, Covers(pos));
              i < |h.blocks| && h.blocks[i].Data() <= pos && pos + size <= h.blocks[i].End()
  {
    if RangeValid(cfg, h, pos, size) {
      assert ByteValid(cfg, h, pos);
      var i := First(h.blocks, Covers(pos));
      if pos + size > h.blocks[i].End() {
        var next: nat := h.blocks[i].End();
        assert ByteValid(cfg, h, next);
        var j := First(h.blocks, Covers(next));
        NoDataAtAnEnd(h.blocks, i, j);
        assert false;
      }
    }
    if i :| 0 <= i < |h.blocks| && h.blocks[i].Data() <= pos && pos + size <= h.blocks[i].End() {
      DataIsInPages(cfg, h, i);
      forall a | pos <= a < pos + size
        ensures ByteValid(cfg, h, a)
      {
        assert Covers(a)(h.blocks[i]);
      }
    }
  }

  lemma NoDataAtAnEnd(blocks: seq<Block>, i: nat, j: nat)
    requires Tiled(blocks) && i < |blocks| && j < |blocks|
    ensures !Covers(blocks[i].End())(blocks[j])
  {
    if j < i {
      TiledIsOrdered(blocks, j, i);
    } else if i + 1 < j {
      TiledIsOrdered(blocks, i + 1, j);
    }
  }

  // ---------------------------------------------------------------- runs

  /** No data byte can be found at `pos`. */
  predicate Uncovered(blocks: seq<Block>, pos: int) {
    First(blocks, Covers(pos)) == |blocks|
  }

  lemma NoneCovers(blocks: seq<Block>, pos: int)
    requires forall k :: 0 <= k < |blocks| ==> !(blocks[k].Data() <= pos < blocks[k].End())
    ensures Uncovered(blocks, pos)
  {
  }

  lemma EmptyBlockInFree(cfg: Config, blocks: seq<Block>)
    requires Tiled(blocks) && FirstFit(blocks, 0) < |blocks| && !Misplaces(cfg, blocks, 0)
    ensures var (after, pos) := AssignInFree(cfg, blocks, 0);
            if Splits(blocks[FirstFit(blocks, 0)], 0) then Uncovered(after, pos)
            else !Uncovered(after, pos) && Tiled(after) && End(after) == End(blocks)
  {
    hide AssignInFree, Misplaces, FirstFit;
    InFreeEntries(cfg, blocks, 0);
    var i := FirstFit(blocks, 0);
    var (after, pos) := AssignInFree(cfg, blocks, 0);
    if Splits(blocks[i], 0) {
      forall k | 0 <= k < |after|
        ensures !(after[k].Data() <= pos < after[k].End())
      {
        if k < i {
          TiledIsOrdered(blocks, k, i);
        } else if k > i + 1 {
          TiledIsOrdered(blocks, i, k - 1);
        }
      }
      NoneCovers(after, pos);
    } else {
      FlagKeeps(blocks, i, false);
      assert after == blocks[i := blocks[i].(free := false)];
      assert Covers(pos)(after[i]);
    }
  }

  lemma EmptyBlockAtEnd(blocks: seq<Block>)
    requires Tiled(blocks)
    ensures var (after, pos) := AssignAtEnd(blocks, 0); Uncovered(after, pos)
  {
    var (after, pos) := AssignAtEnd(blocks, 0);
    forall k | 0 <= k < |after|
      ensures !(after[k].Data() <= pos < after[k].End())
    {
      if k < |blocks| - 1 {
        TiledIsOrdered(blocks, k, |blocks| - 1);
      }
    }
    NoneCovers(after, pos);
  }

  /** A request for no bytes: it is harmless only when a small free block is given away whole. */
  lemma ZeroBytesCrash(cfg: Config, h: Heap, answer: int)
    requires cfg.Valid() && Inv(cfg, h)
    requires CheckAlloc(cfg, h, 0, answer).InFree? ==> !Misplaces(cfg, h.blocks, 0)
    ensures var (h', reply) := Memalloc(cfg, h, 0, answer);
            var plan := CheckAlloc(cfg, h, 0, answer);
            && (reply == Crash <==>
                plan.AtEnd? || plan.NewPages? || (plan.InFree? && Splits(h.blocks[FirstFit(h.blocks, 0)], 0)))
            && (reply != Crash ==> Inv(cfg, h'))
  {
    hide Tiled, Coalesced, Misplaces, Splits, AssignInFree, AssignAtEnd, Room, Covers;
    var plan := CheckAlloc(cfg, h, 0, answer);
    if plan.InFree? {
      EmptyBlockInFree(cfg, h.blocks);
      InFreeKeepsCoalesced(cfg, h.blocks, 0);
    } else if plan.AtEnd? || plan.NewPages? {
      EmptyBlockAtEnd(h.blocks);
    }
  }

  /** With a common pool the second request of a process, for no bytes, kills the server. */
  lemma ZeroBytesDoCrash(cfg: Config, size: nat, answer: int)
    requires cfg.Valid() && cfg.allocation.Dynamic? && size >= 1 && answer != 0
    ensures var (h, reply) := MemallocFirst(cfg, size, answer);
            reply.Granted? && Memalloc(cfg, h, 0, answer).1 == Crash
  {
    var h := MemallocFirst(cfg, size, answer).0;
    assert h.blocks == [Block(0, size, false)];
    assert Covers(HEADER)(h.blocks[0]);
    EmptyBlockAtEnd(h.blocks);
  }

  datatype Op = Alloc(size: nat, answer: int) | Dealloc(pos: nat)

  function Step(cfg: Config, h: Heap, op: Op): (Heap, Reply)
    requires cfg.Valid()
  {
    match op
    case Alloc(size, answer) => Memalloc(cfg, h, size, answer)
    case Dealloc(pos) => Memfree(cfg, h, pos)
  }

  /** No allocation of the run misplaces a remainder, and none kills the server. */
  predicate Sound(cfg: Config, h: Heap, run: seq<Op>)
    requires cfg.Valid()
    decreases |run|
  {
    |run| > 0 ==>
      && (run[0].Alloc? && CheckAlloc(cfg, h, run[0].size, run[0].answer).InFree? ==>
          !Misplaces(cfg, h.blocks, run[0].size))
      && Step(cfg, h, run[0]).1 != Crash
      && Sound(cfg, Step(cfg, h, run[0]).0, run[1..])
  }

  function After(cfg: Config, h: Heap, run: seq<Op>): Heap
    requires cfg.Valid()
    decreases |run|
  {
    if |run| == 0 then h else After(cfg, Step(cfg, h, run[0]).0, run[1..])
  }

  lemma StepKeeps(cfg: Config, h: Heap, op: Op)
    requires cfg.Valid() && Inv(cfg, h) && Step(cfg, h, op).1 != Crash
    requires op.Alloc? && CheckAlloc(cfg, h, op.size, op.answer).InFree? ==> !Misplaces(cfg, h.blocks, op.size)
    ensures Inv(cfg, Step(cfg, h, op).0)
  {
    match op
    case Alloc(size, answer) =>
      if size == 0 {
        ZeroBytesCrash(cfg, h, answer);
      } else {
        var _ := MemallocGrants(cfg, h, size, answer);
      }
    case Dealloc(pos) =>
      FreeReleases(cfg, h, pos);
      CompactsAtMostOnce(cfg, Free(cfg, h, pos).0);
  }

  /**
    In every reachable state of every run of allocations and releases, compaction included, the blocks
    tile an initial part of the pages and no two free blocks are neighbours.  With the lookup by address
    no run is excluded but those that kill the server.
   */
  lemma {:induction false} EveryRunKeeps(cfg: Config, h: Heap, run: seq<Op>)
    requires cfg.Valid() && Inv(cfg, h) && Sound(cfg, h, run)
    ensures Inv(cfg, After(cfg, h, run))
    decreases |run|
  {
    if |run| > 0 {
      StepKeeps(cfg, h, run[0]);
      EveryRunKeeps(cfg, Step(cfg, h, run[0]).0, run[1..]);
    }
  }
}
