/**
  The block allocator of one process: an ordered list of blocks over the pages of the process.  Every
  block is a nine-byte header followed by its data.
 */
module Allocator {
  import opened Base

  const HEADER: nat := 9

  /**
    Where the remainder of a split block goes in the list.  `Shadowed` is `list_get_index_alloc`, which
    compares a block with itself and so answers 0 for every block; `ByAddress` is
    `obtener_indice_de_alloc`, the lookup the rest of the source uses.
   */
  datatype Lookup = Shadowed | ByAddress

  datatype Config = Config(pageSize: nat, allocation: Allocation, quota: nat, lookup: Lookup) {
    predicate Valid() {
      pageSize >= 1
    }
  }

  datatype Block = Block(addr: int, size: nat, free: bool) {
    function End(): int {
      addr + HEADER + size
    }

    function Data(): int {
      addr + HEADER
    }
  }

  datatype Heap = Heap(blocks: seq<Block>, pages: nat)

  // ---------------------------------------------------------------- lookups

  function Fitting(size: nat): Block -> bool {
    (b: Block) => b.free && b.size >= size
  }

  function StartsAt(addr: int): Block -> bool {
    (b: Block) => b.addr == addr
  }

  function DataAt(pos: int): Block -> bool {
    (b: Block) => b.Data() == pos
  }

  function Covers(pos: int): Block -> bool {
    (b: Block) => b.Data() <= pos < b.End()
  }

  function FirstFit(blocks: seq<Block>, size: nat): nat {
    First(blocks, Fitting(size))
  }

  function IndexFor(cfg: Config, blocks: seq<Block>, b: Block): nat {
    if cfg.lookup.Shadowed? then 0 else First(blocks, StartsAt(b.addr))
  }

  // ---------------------------------------------------------------- planning an allocation

  datatype Plan = InFree | AtEnd | NewPages | NoSpace

  function Occupied(blocks: seq<Block>): nat {
    if |blocks| == 0 then 0 else Occupied(blocks[..|blocks| - 1]) + blocks[|blocks| - 1].size + HEADER
  }

  function Room(cfg: Config, h: Heap): int {
    h.pages * cfg.pageSize - Occupied(h.blocks)
  }

  /** `calcular_cantidad_paginas_necesaria`, for a request that does not fit in `room` bytes */
  function PagesNeeded(cfg: Config, room: int, size: nat): nat
    requires cfg.Valid() && room < size + HEADER
  {
    var need := size + HEADER - room;
    if need % cfg.pageSize == 0 then need / cfg.pageSize else need / cfg.pageSize + 1
  }

  /**
    `check_alloc`.  `answer` is what the swap server said when asked for the pages: 1, -1, or 0 when it
    is not there any more; the source turns it into a boolean, so only 0 counts as a refusal.
   */
  function CheckAlloc(cfg: Config, h: Heap, size: nat, answer: int): Plan {
    if FirstFit(h.blocks, size) < |h.blocks| then InFree
    else if Room(cfg, h) >= size + HEADER then AtEnd
    else if cfg.allocation.Fixed? && (cfg.quota - h.pages) * cfg.pageSize + Room(cfg, h) < size + HEADER then NoSpace
    else if answer != 0 then NewPages
    else NoSpace
  }

  // ---------------------------------------------------------------- the three strategies

  function Insert(blocks: seq<Block>, i: nat, b: Block): seq<Block> {
    if i <= |blocks| then blocks[..i] + [b] + blocks[i..] else blocks + [b]
  }

  /** A remainder must hold a header and at least one byte. */
  predicate Splits(b: Block, size: nat) {
    b.size > size + HEADER
  }

  /** `memalloc_asignar_en_heap_libre`: first fit, cutting off what is left over */
  function AssignInFree(cfg: Config, blocks: seq<Block>, size: nat): (seq<Block>, int)
    requires FirstFit(blocks, size) < |blocks|
  {
    var i := FirstFit(blocks, size);
    var b := blocks[i];
    if Splits(b, size) then
      var rest := Block(b.addr + size + HEADER, b.size - size - HEADER, true);
      (Insert(blocks[i := Block(b.addr, size, false)], IndexFor(cfg, blocks, b) + 1, rest), b.Data())
    else (blocks[i := b.(free := false)], b.Data())
  }

  function End(blocks: seq<Block>): int {
    if |blocks| == 0 then 0 else blocks[|blocks| - 1].End()
  }

  /** `memalloc_asignar_en_pagina_con_espacio` */
  function AssignAtEnd(blocks: seq<Block>, size: nat): (seq<Block>, int) {
    (blocks + [Block(End(blocks), size, false)], End(blocks) + HEADER)
  }

  datatype Reply = Granted(pos: int) | OutOfSpace | Invalid | Done | Crash

  function Allocate(cfg: Config, h: Heap, size: nat, plan: Plan): (Heap, Reply)
    requires cfg.Valid()
    requires plan.InFree? ==> FirstFit(h.blocks, size) < |h.blocks|
    requires plan.NewPages? ==> Room(cfg, h) < size + HEADER
  {
    match plan
    case NoSpace => (h, OutOfSpace)
    case InFree =>
      var (blocks, pos) := AssignInFree(cfg, h.blocks, size);
      (Heap(blocks, h.pages), Granted(pos))
    case AtEnd =>
      var (blocks, pos) := AssignAtEnd(h.blocks, size);
      (Heap(blocks, h.pages), Granted(pos))
    case NewPages =>
      var (blocks, pos) := AssignAtEnd(h.blocks, size);
      (Heap(blocks, h.pages + PagesNeeded(cfg, Room(cfg, h), size)), Granted(pos))
  }

  /**
    `memory_memalloc` for a process that exists.  Before answering, the source looks the granted block
    up again to write its header, and dies when no data byte can be found at the granted position.
   */
  function Memalloc(cfg: Config, h: Heap, size: nat, answer: int): (Heap, Reply)
    requires cfg.Valid()
  {
    var (h', reply) := Allocate(cfg, h, size, CheckAlloc(cfg, h, size, answer));
    if reply.Granted? && First(h'.blocks, Covers(reply.pos)) == |h'.blocks| then (h', Crash) else (h', reply)
  }

  /** `memory_memalloc` for a process that does not exist yet: straight to new pages, whatever the quota. */
  function MemallocFirst(cfg: Config, size: nat, answer: int): (Heap, Reply)
    requires cfg.Valid()
  {
    var (h', reply) := Allocate(cfg, Heap([], 0), size, if answer != 0 then NewPages else NoSpace);
    if reply.Granted? && First(h'.blocks, Covers(reply.pos)) == |h'.blocks| then (h', Crash) else (h', reply)
  }

  // ---------------------------------------------------------------- freeing

  /** `validar_direccion_logica`: with no pages the unsigned comparison of the source accepts everything. */
  predicate InPages(cfg: Config, h: Heap, pos: nat)
    requires cfg.Valid()
  {
    h.pages == 0 || pos / cfg.pageSize <= h.pages - 1
  }

  function MergeLeft(blocks: seq<Block>, i: nat): (seq<Block>, nat)
    requires i < |blocks|
  {
    if i > 0 && blocks[i - 1].free then
      var prev := blocks[i - 1];
      (blocks[..i - 1] + [Block(prev.addr, prev.size + blocks[i].size + HEADER, blocks[i].free)] + blocks[i + 1..],
          i - 1)
    else (blocks, i)
  }

  function MergeRight(blocks: seq<Block>, i: nat): seq<Block>
    requires i < |blocks|
  {
    if i + 1 < |blocks| && blocks[i + 1].free then
      blocks[..i] + [blocks[i].(size := blocks[i + 1].size + blocks[i].size + HEADER)] + blocks[i + 2..]
    else blocks
  }

  /** Marks block `i` free and joins it with its free neighbours; also tells where the joined block is. */
  function Release(blocks: seq<Block>, i: nat): (seq<Block>, nat)
    requires i < |blocks|
  {
    var (left, k) := MergeLeft(blocks[i := blocks[i].(free := true)], i);
    (MergeRight(left, k), k)
  }

  /** The block whose data starts at `pos`, if it may be freed. */
  function Freeable(cfg: Config, h: Heap, pos: nat): Option<nat>
    requires cfg.Valid()
  {
    var i := First(h.blocks, DataAt(pos));
    if !InPages(cfg, h, pos) || i == |h.blocks| || h.blocks[i].free then None else Some(i)
  }

  // ---------------------------------------------------------------- compaction

  /** `alloc_esta_en_pagina`: its loop runs `addr` positions too far. */
  predicate OnPage(cfg: Config, b: Block, page: nat)
    requires cfg.Valid()
  {
    0 <= b.addr && b.addr / cfg.pageSize <= page <= (2 * b.addr + HEADER + b.size - 1) / cfg.pageSize
  }

  function OnFirstPage(cfg: Config, blocks: seq<Block>): seq<Block>
    requires cfg.Valid()
  {
    if |blocks| == 0 then []
    else
      var n := |blocks| - 1;
      OnFirstPage(cfg, blocks[..n]) + if OnPage(cfg, blocks[n], 0) then [blocks[n]] else []
  }

  /** `todos_los_allocs_estan_libres` */
  predicate AllFree(blocks: seq<Block>) {
    |blocks| > 0 && forall i :: 0 <= i < |blocks| ==> blocks[i].free
  }

  function Remove(blocks: seq<Block>, addr: int): seq<Block> {
    var i := First(blocks, StartsAt(addr));
    if i < |blocks| then blocks[..i] + blocks[i + 1..] else blocks
  }

  function RemoveAll(blocks: seq<Block>, gone: seq<Block>): seq<Block> {
    if |gone| == 0 then blocks else RemoveAll(Remove(blocks, gone[0].addr), gone[1..])
  }

  /** Subtracts `delta` from the address of every block from position `from` on. */
  function Shift(blocks: seq<Block>, from: nat, delta: int): seq<Block> {
    seq(|blocks|, i requires 0 <= i < |blocks| =>
      if i < from then blocks[i] else blocks[i].(addr := blocks[i].addr - delta))
  }

  /** Whether the next call of `compactar` will remove the first page. */
  predicate Compacts(cfg: Config, h: Heap)
    requires cfg.Valid()
  {
    h.pages > 0 && AllFree(OnFirstPage(cfg, h.blocks))
  }

  /** `compactar_pagina` on the first page: the shift is the length of the last block removed. */
  function CompactOnce(cfg: Config, h: Heap): Heap
    requires cfg.Valid() && Compacts(cfg, h)
  {
    var gone := OnFirstPage(cfg, h.blocks);
    var freed := gone[|gone| - 1].size + HEADER;
    Heap(Shift(RemoveAll(h.blocks, gone), |gone| - 1, freed), h.pages - 1)
  }

  /** `memory_memfree` up to its compaction */
  function Free(cfg: Config, h: Heap, pos: nat): (Heap, Reply)
    requires cfg.Valid()
  {
    match Freeable(cfg, h, pos)
    case None => (h, Invalid)
    case Some(i) => (Heap(Release(h.blocks, i).0, h.pages), Done)
  }

  /** The loop of `memory_memfree`: compacts for as long as there is something to compact. */
  function CompactAll(cfg: Config, h: Heap): Heap
    requires cfg.Valid()
    decreases h.pages
  {
    if Compacts(cfg, h) then CompactAll(cfg, CompactOnce(cfg, h)) else h
  }

  /** `memory_memfree` */
  function Memfree(cfg: Config, h: Heap, pos: nat): (Heap, Reply)
    requires cfg.Valid()
  {
    var (h', reply) := Free(cfg, h, pos);
    if reply.Done? then (CompactAll(cfg, h'), Done) else (h', reply)
  }

  // ---------------------------------------------------------------- addresses of data

  predicate ByteValid(cfg: Config, h: Heap, pos: nat)
    requires cfg.Valid()
  {
    InPages(cfg, h, pos) && First(h.blocks, Covers(pos)) < |h.blocks|
  }

  /** `validar_direccion_logica_escritura_con_size` */
  predicate RangeValid(cfg: Config, h: Heap, pos: nat, size: nat)
    requires cfg.Valid()
  {
    forall a :: pos <= a < pos + size ==> ByteValid(cfg, h, a)
  }
}
