/**
  The requests of the memory server on values: every process has a heap and an address space, the bytes
  of its pages one after another.  Block headers are stored in the space too.  Runs are described here
  up to the first compaction.
 */
module Service {
  import opened Base
  import opened Allocator
  import opened AllocatorTheorems
  import opened Transfer
  import Paging

  datatype Image = Image(heap: Heap, space: Bytes)

  // ---------------------------------------------------------------- headers

  /** `t_heap_metadata`: the addresses of both neighbours in the list, then the flag */
  function Header(blocks: seq<Block>, b: Block): (h: Bytes)
    ensures |h| == HEADER && h[HEADER - 1] == if b.free then 1 else 0
  {
    var i := First(blocks, StartsAt(b.addr));
    var prev := if i > 0 then blocks[i - 1].addr else 0;
    var next := if i + 1 < |blocks| then blocks[i + 1].addr else 0;
    Word(prev) + Word(next) + [if b.free then 1 else 0]
  }

  /** `persistir_metadata_heap` */
  function Persist(cfg: Config, img: Image, b: Block): (r: Image)
    requires cfg.Valid()
    ensures r.heap == img.heap && |r.space| == |img.space|
  {
    var ps := cfg.pageSize;
    if b.addr < 0 then img
    else img.(space := Scatter(img.space, ps, Pieces(b.addr, HEADER, ps), Header(img.heap.blocks, b), 0))
  }

  // ---------------------------------------------------------------- requests

  function Blanks(n: nat): (r: Bytes)
    ensures |r| == n
  {
    seq(n, _ => 95 as Byte)
  }

  /** The image with another heap; pages it has more are blank. */
  function Grow(cfg: Config, img: Image, h: Heap): Image {
    Image(h, img.space + if h.pages > img.heap.pages then Blanks((h.pages - img.heap.pages) * cfg.pageSize) else [])
  }

  /** The block that a first-fit allocation cuts off. */
  function Remainder(blocks: seq<Block>, size: nat, plan: Plan): Option<Block> {
    var i := FirstFit(blocks, size);
    if plan.InFree? && i < |blocks| && Splits(blocks[i], size)
    then Some(Block(blocks[i].addr + size + HEADER, blocks[i].size - size - HEADER, true))
    else None
  }

  /** Writes the header of the remainder, if there is one. */
  function WithRest(cfg: Config, img: Image, rest: Option<Block>): (r: Image)
    requires cfg.Valid()
    ensures r.heap == img.heap && |r.space| == |img.space|
  {
    if rest.Some? then Persist(cfg, img, rest.value) else img
  }

  /** The image when the pages, the block and its remainder are there, but not the header of the block. */
  function Assigned(cfg: Config, img: Image, size: nat, plan: Plan): Image
    requires cfg.Valid()
    requires plan.InFree? ==> FirstFit(img.heap.blocks, size) < |img.heap.blocks|
    requires plan.NewPages? ==> Room(cfg, img.heap) < size + HEADER
  {
    WithRest(cfg, Grow(cfg, img, Allocate(cfg, img.heap, size, plan).0), Remainder(img.heap.blocks, size, plan))
  }

  /** Writes the header of the remainder, if there is one, and then that of the block granted. */
  function Sealed(cfg: Config, img: Image, rest: Option<Block>, reply: Reply): (r: Image)
    requires cfg.Valid()
    ensures r.heap == img.heap && |r.space| == |img.space|
  {
    if !reply.Granted? then img
    else
      var first, i := WithRest(cfg, img, rest), First(img.heap.blocks, Covers(reply.pos));
      if i < |img.heap.blocks| then Persist(cfg, first, img.heap.blocks[i]) else first
  }

  /** `memory_memalloc` for a process that exists */
  function Memalloc(cfg: Config, img: Image, size: nat, answer: int): (Image, Reply)
    requires cfg.Valid()
  {
    var plan := CheckAlloc(cfg, img.heap, size, answer);
    var (h, reply) := Allocator.Memalloc(cfg, img.heap, size, answer);
    (Sealed(cfg, Grow(cfg, img, h), Remainder(img.heap.blocks, size, plan), reply), reply)
  }

  /** `memory_memalloc` for a process that does not exist yet */
  function MemallocFirst(cfg: Config, size: nat, answer: int): (Image, Reply)
    requires cfg.Valid()
  {
    var (h, reply) := Allocator.MemallocFirst(cfg, size, answer);
    (Sealed(cfg, Grow(cfg, Image(Heap([], 0), []), h), None, reply), reply)
  }

  /** `memory_memfree` up to its compaction */
  function Memfree(cfg: Config, img: Image, pos: nat): (Image, Reply)
    requires cfg.Valid()
  {
    match Freeable(cfg, img.heap, pos)
    case None => (img, Invalid)
    case Some(i) =>
      var (blocks, k) := Release(img.heap.blocks, i);
      var freed := Image(Heap(blocks, img.heap.pages), img.space);
      (if k < |blocks| then Persist(cfg, freed, blocks[k]) else freed, Done)
  }

  /** `memory_memwrite`: a request for no bytes outside every block dereferences a null block. */
  function Memwrite(cfg: Config, img: Image, pos: nat, data: Bytes): (Image, Reply)
    requires cfg.Valid()
  {
    var ps, i := cfg.pageSize, First(img.heap.blocks, Covers(pos));
    if !RangeValid(cfg, img.heap, pos, |data|) then (img, Invalid)
    else if i == |img.heap.blocks| then (img, Crash)
    else if img.heap.blocks[i].End() - pos < |data| then (img, Invalid)
    else (img.(space := Scatter(img.space, ps, Pieces(pos, |data|, ps), data, 0)), Done)
  }

  /** `memory_memread`, into a buffer as long as the range */
  function Memread(cfg: Config, img: Image, pos: nat, buffer: Bytes): Option<Bytes>
    requires cfg.Valid()
  {
    if !RangeValid(cfg, img.heap, pos, |buffer|) then None
    else Some(Gather(img.space, cfg.pageSize, Pieces(pos, |buffer|, cfg.pageSize), buffer, 0))
  }

  // ---------------------------------------------------------------- what an image keeps

  function Flag(b: Block): Byte {
    if b.free then 1 else 0
  }

  /** The ninth byte of the header of a block is its flag. */
  ghost predicate Flagged(space: Bytes, b: Block) {
    0 <= b.addr && b.Data() <= |space| && space[b.addr + 8] == Flag(b)
  }

  ghost predicate Intact(cfg: Config, img: Image) {
    && Inv(cfg, img.heap)
    && |img.space| == img.heap.pages * cfg.pageSize
    && (cfg.pageSize >= 8 ==> forall b :: b in img.heap.blocks ==> Flagged(img.space, b))
  }

  /** The bytes of a range are the same in both spaces. */
  ghost predicate Same(a: Bytes, b: Bytes, from: int, to: int) {
    forall k :: from <= k < to && 0 <= k < |a| && 0 <= k < |b| ==> a[k] == b[k]
  }

  /** All bytes outside a range are the same in both spaces. */
  ghost predicate SameBut(a: Bytes, b: Bytes, from: int, to: int) {
    |a| == |b| && forall k :: 0 <= k < |a| && !(from <= k < to) ==> a[k] == b[k]
  }

  lemma {:induction false} ScatterWhole(space: Bytes, ps: nat, pos: nat, data: Bytes)
    requires ps >= 1 && pos + |data| <= |space|
    ensures Scatter(space, ps, Pieces(pos, |data|, ps), data, 0) == Paging.Patch(space, pos, Mixed(pos, data, ps))
  {
    hide Scatter, Pieces, Paging.Patch, Mixed;
    ScatterIsPatch(space, ps, pos, data, 0);
    assert Mixed(pos, data, ps)[0..] == Mixed(pos, data, ps);
  }

  /** Writing a header changes no byte but the nine of that header, and its last byte is the flag. */
  lemma PersistIsLocal(cfg: Config, img: Image, b: Block)
    requires cfg.Valid() && 0 <= b.addr && b.Data() <= |img.space|
    ensures var space := Persist(cfg, img, b).space;
            && SameBut(img.space, space, b.addr, b.Data())
            && (cfg.pageSize >= 8 ==> space[b.addr + 8] == Flag(b))
  {
    hide Scatter, Pieces, Mixed, Header, Short;
    var header := Header(img.heap.blocks, b);
    ScatterWhole(img.space, cfg.pageSize, b.addr, header);
    if cfg.pageSize >= 8 {
      HeadersFitTwoPages(cfg.pageSize);
      ShortIsExact(b.addr, header, cfg.pageSize);
    }
  }

  /**
    On pages of at least eight bytes a header holds the addresses of both neighbours in the list, 0 for none, and the
    flag.
   */
  lemma PersistStoresNeighbours(cfg: Config, img: Image, i: nat)
    requires cfg.Valid() && cfg.pageSize >= 8 && Tiled(img.heap.blocks) && i < |img.heap.blocks|
    requires 0 <= img.heap.blocks[i].addr && img.heap.blocks[i].Data() <= |img.space|
    ensures var blocks, at: nat := img.heap.blocks, img.heap.blocks[i].addr;
            var space := Persist(cfg, img, blocks[i]).space;
            && Part(space, at, 4) == Word(if i > 0 then blocks[i - 1].addr else 0)
            && Part(space, at + 4, 4) == Word(if i + 1 < |blocks| then blocks[i + 1].addr else 0)
            && Part(space, at + 8, 1) == [Flag(blocks[i])]
  {
    hide Scatter, Pieces, Mixed, Short, Tiled;
    var blocks, at: nat := img.heap.blocks, img.heap.blocks[i].addr;
    var header := Header(blocks, blocks[i]);
    IndexByAddress(blocks, i);
    ScatterWhole(img.space, cfg.pageSize, at, header);
    HeadersFitTwoPages(cfg.pageSize);
    ShortIsExact(at, header, cfg.pageSize);
    assert header[0..4] == Word(if i > 0 then blocks[i - 1].addr else 0);
    assert header[4..8] == Word(if i + 1 < |blocks| then blocks[i + 1].addr else 0);
    assert header[8..9] == [Flag(blocks[i])];
    PatchedPart(img.space, at, header, 0, 4);
    PatchedPart(img.space, at, header, 4, 8);
    PatchedPart(img.space, at, header, 8, 9);
  }

  lemma PatchedPart(space: Bytes, at: nat, data: Bytes, from: nat, to: nat)
    requires at + |data| <= |space| && from <= to <= |data|
    ensures Part(Paging.Patch(space, at, data), at + from, to - from) == data[from..to]
  {
  }

  lemma BlockInSpace(blocks: seq<Block>, i: nat)
    requires Tiled(blocks) && i < |blocks|
    ensures 0 <= blocks[i].addr && blocks[i].End() <= End(blocks)
  {
    TiledIsNonNegative(blocks, i);
    if i < |blocks| - 1 {
      TiledIsOrdered(blocks, i, |blocks| - 1);
    }
  }

  /** No header shares a byte with the data of any block, its own included, or with another header. */
  lemma HeadersAvoidData(blocks: seq<Block>, b: Block, u: Block)
    requires Tiled(blocks) && b in blocks && u in blocks
    ensures b.Data() <= u.Data() || u.End() <= b.addr
    ensures b != u ==> b.Data() <= u.addr || u.Data() <= b.addr
    ensures 0 <= b.addr && b.End() <= End(blocks)
  {
    var i :| 0 <= i < |blocks| && blocks[i] == b;
    var j :| 0 <= j < |blocks| && blocks[j] == u;
    BlockInSpace(blocks, i);
    if i < j {
      TiledIsOrdered(blocks, i, j);
    } else if j < i {
      TiledIsOrdered(blocks, j, i);
    }
  }

  /** Writing a header keeps the data of every block and the flags of all others. */
  lemma PersistKeeps(cfg: Config, img: Image, b: Block)
    requires cfg.Valid() && Tiled(img.heap.blocks) && End(img.heap.blocks) <= |img.space| && b in img.heap.blocks
    ensures var space, blocks := Persist(cfg, img, b).space, img.heap.blocks;
            && (forall u :: u in blocks ==> Same(img.space, space, u.Data(), u.End()))
            && (forall u :: u in blocks && u != b && Flagged(img.space, u) ==> Flagged(space, u))
            && (cfg.pageSize >= 8 ==> Flagged(space, b))
  {
    var space, blocks := Persist(cfg, img, b).space, img.heap.blocks;
    HeadersAvoidData(blocks, b, b);
    PersistIsLocal(cfg, img, b);
    hide Persist, Tiled;
    forall u | u in blocks
      ensures Same(img.space, space, u.Data(), u.End())
      ensures u != b && Flagged(img.space, u) ==> Flagged(space, u)
    {
      HeadersAvoidData(blocks, b, u);
    }
  }
}
