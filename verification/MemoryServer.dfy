/**
  The memory server: one pager for everybody, one block list per process.  Every request is proved to do
  what Service.dfy says, with the space of a process spread over frames and swap slots.
 */
module MemoryServer {
  import opened Base
  import opened Allocator
  import opened AllocatorTheorems
  import opened Transfer
  import opened Service
  import opened ServiceTheorems
  import opened ServiceRuns
  import opened Spaces
  import AllocatorProcess
  import Capacity
  import Compaction
  import opened Completion
  import Paging
  import PagingInvariant
  import PagingRun
  import Pager

  // ---------------------------------------------------------------- one step of a transfer

  /** The first piece of what is left of a range, once `j` bytes have been moved. */
  lemma NextPiece(pos: nat, data: Bytes, j: nat, ps: nat, count: nat)
    requires ps >= 1 && j < |data| && Starts(pos, j, ps) && pos + |data| <= count * ps
    ensures var n, list := |data|, Pieces(pos + j, |data| - j, ps);
            && |list| >= 1
            && var take := list[0].size;
            && 1 <= take <= n - j
            && list[0] == PieceAt(pos + j, take, ps)
            && list[0].offset + take <= ps && list[0].page < count
            && Source(pos, j, ps) + take <= n
            && list[1..] == Pieces(pos + j + take, n - j - take, ps)
            && (j + take < n ==> Starts(pos, j + take, ps) && Source(pos, j + take, ps) == take)
  {
    hide PageOf, OffsetOf, Left, AddressOf, Starts, Source;
    var at, n := pos + j, |data|;
    var take := Min(n - j, Left(at, ps));
    Decomposes(at, ps);
    MixedPiece(pos, data, ps, j, take);
    PageInCount(at, count, ps);
    if take == n - j {
      assert Pieces(at, n - j, ps)[1..] == [];
    } else {
      SourceAtNext(pos, j, ps);
      assert Pieces(at, n - j, ps)[1..] == Pieces(at + take, n - j - take, ps);
    }
  }

  lemma PageInCount(a: nat, count: nat, ps: nat)
    requires ps >= 1 && a < count * ps
    ensures PageOf(a, ps) < count
  {
    if count <= a / ps {
      Scaled(count, a / ps, ps);
      assert false;
    }
  }

  // ---------------------------------------------------------------- the pages of a transfer

  /** The pages that a list of pieces lies on. */
  function PagesOf(pid: nat, list: seq<Piece>): (ps: seq<PageId>)
    ensures |ps| == |list|
  {
    seq(|list|, i requires 0 <= i < |list| => PageId(pid, list[i].page + 1))
  }

  lemma PagesOfParts(pid: nat, list: seq<Piece>, i: nat)
    requires i < |list|
    ensures PagesOf(pid, list[..i + 1]) == PagesOf(pid, list[..i]) + [PageId(pid, list[i].page + 1)]
    ensures PagesOf(pid, list) == PagesOf(pid, list[..i + 1]) + PagesOf(pid, list[i + 1..])
  {
  }

  lemma RangeGoesOn(cfg: Paging.Config, s: Paging.State, s1: Paging.State, pid: nat, list: seq<Piece>, i: nat, ok: bool)
    requires i < |list| && Completes(cfg, s, PagesOf(pid, list[..i]), true)
        && Leaving(cfg, s, s1, PagesOf(pid, list[..i]))
    requires PageId(pid, list[i].page + 1) in s1.pages && Completes(cfg, s1, [PageId(pid, list[i].page + 1)], ok)
    ensures Completes(cfg, s, PagesOf(pid, list[..i + 1]), ok)
    ensures !ok ==> Completes(cfg, s, PagesOf(pid, list), false)
  {
    hide Completes, PagesOf, Capacity.FreeSlots, Capacity.FreeFrames, Capacity.SamePresence;
    PagesOfParts(pid, list, i);
    CompletesBoth(cfg, s, s1, PagesOf(pid, list[..i]), [PageId(pid, list[i].page + 1)], ok);
    if !ok {
      CompletesNoMore(cfg, s, PagesOf(pid, list[..i + 1]), PagesOf(pid, list[i + 1..]));
    }
  }

  lemma RangeLeaves(cfg: Paging.Config, s: Paging.State, s1: Paging.State, s2: Paging.State, pid: nat, list: seq<Piece>,
      i: nat)
    requires i < |list| && Leaving(cfg, s, s1, PagesOf(pid, list[..i])) && PageId(pid, list[i].page + 1) in s1.pages
    requires Leaving(cfg, s1, s2, [PageId(pid, list[i].page + 1)])
    ensures Leaving(cfg, s, s2, PagesOf(pid, list[..i + 1]))
  {
    hide PagesOf, Capacity.FreeSlots, Capacity.FreeFrames, Capacity.SamePresence;
    PagesOfParts(pid, list, i);
    LeavingBoth(cfg, s, s1, s2, PagesOf(pid, list[..i]), [PageId(pid, list[i].page + 1)]);
  }

  lemma RangeStarts(cfg: Paging.Config, s: Paging.State, pid: nat, list: seq<Piece>)
    ensures Completes(cfg, s, PagesOf(pid, list[..0]), true) && Leaving(cfg, s, s, PagesOf(pid, list[..0]))
  {
    CompletesNothing(cfg, s);
    assert PagesOf(pid, list[..0]) == [];
  }

  /** The allocator and the pager read one configuration file. */
  predicate Agreed(cfg: Config, pager: Paging.Config) {
    cfg.pageSize == pager.pageSize && cfg.allocation == pager.allocation && cfg.quota == pager.quota
  }

  class Server {
    const cfg: Config
    const memory: Pager.Memory
    var procs: map<nat, AllocatorProcess.Process>
    ghost var flat: PagingRun.Flat
    ghost var spoilt: set<nat> // processes whose list was misordered, or whose pages were compacted
    ghost var dangling: bool // the lists that victims are taken from hold a descriptor that has been freed

    /**
      The pager holds exactly the flat memory and follows the configuration the allocator goes by; the frames that
      are lost were lost by processes that are spoilt.
     */
    ghost predicate Backed()
      reads this, memory, memory.cache, memory.cache.buffer, memory.swap
    {
      && cfg.Valid() && Agreed(cfg, memory.cfg) && memory.Valid(flat) && |memory.tlb| >= 1
      && Compaction.LostTo(memory.frames, spoilt)
    }

    /** The tables of the pager. */
    ghost function Tables(): Paging.State
      reads memory, memory.cache, memory.cache.buffer, memory.swap
    {
      if memory.Shaped() then memory.Now() else Paging.Boot(memory.cfg, 0, 0, 0)
    }

    /** `inicializarMemoria` */
    constructor (cfg: Config, pager: Paging.Config, frames: nat, entries: nat, slots: nat)
      requires cfg.Valid() && Agreed(cfg, pager) && frames >= 1 && entries >= 1
      ensures Backed() && procs == map[] && fresh(memory) && fresh(memory.cache.buffer) && fresh(memory.swap)
      ensures flat.counts == map[] && spoilt == {} && Valid()
      ensures Tables() == Paging.Boot(pager, frames, entries, slots)
    {
      this.cfg := cfg;
      memory := new Pager.Memory(pager, frames, entries, slots);
      procs := map[];
      flat := PagingRun.Flat(map[], map[], []);
      spoilt, dangling := {}, false;
    }

    // -------------------------------------------------------------- pages

    /** `escribir_en_pagina` for one piece; `choice` is the TLB entry its replacement policy would give up. */
    method WritePiece(pid: nat, piece: Piece, bytes: Bytes) returns (r: Result<()>)
      requires Backed() && OnOnePage(flat, pid, piece.page, piece.offset, |bytes|, cfg.pageSize)
      modifies this`flat, memory, memory.cache.buffer, memory.swap
      ensures r.Ok? ==> Backed()
      ensures r.Ok? ==> var space := Space(old(flat), pid, cfg.pageSize);
                        Becomes(old(flat), flat, cfg.pageSize, pid,
                            Paging.Patch(space, Where(piece, cfg.pageSize), bytes))
      ensures Completes(memory.cfg, old(Tables()), [PageId(pid, piece.page + 1)], r.Ok?)
      ensures r.Ok? ==> Leaving(memory.cfg, old(Tables()), Tables(), [PageId(pid, piece.page + 1)])
      ensures r.Ok? ==> IsHere(Tables(), PageId(pid, piece.page + 1))
    {
      hide PagingRun.Sound, Space, PageOf, OffsetOf, AddressOf, Paging.Patch, Becomes, Completes, Leaving,
        Paging.WritePage, Paging.Resolve;
      ghost var s := Tables();
      var choice :| 0 <= choice < |memory.tlb|;
      var p := PageId(pid, piece.page + 1);
      WriteCompletes(memory.cfg, Tables(), flat, p, piece.offset, bytes, choice);
      var written := memory.Write(p, piece.offset, bytes, choice, flat);
      if written.Fail? {
        return Fail(written.fault);
      }
      WriteLosesNone(memory.cfg, s, flat, p, piece.offset, bytes, choice, Tables(), spoilt);
      flat := PagingRun.Flat(flat.mem[p := Paging.Patch(flat.mem[p], piece.offset, bytes)], flat.counts,
          flat.trace + [p]);
      WriteOnPage(old(flat), flat, pid, piece.page, piece.offset, bytes, cfg.pageSize);
      r := Ok(());
    }

    /** `leer_en_pagina` for one piece */
    method ReadPiece(pid: nat, piece: Piece) returns (r: Result<Bytes>)
      requires Backed() && OnOnePage(flat, pid, piece.page, piece.offset, piece.size, cfg.pageSize)
      modifies this`flat, memory, memory.cache.buffer, memory.swap
      ensures r.Ok? ==> Backed() && flat.mem == old(flat.mem) && flat.counts == old(flat.counts)
      ensures r.Ok? ==> r.value == Part(Space(old(flat), pid, cfg.pageSize), Where(piece, cfg.pageSize), piece.size)
      ensures Completes(memory.cfg, old(Tables()), [PageId(pid, piece.page + 1)], r.Ok?)
      ensures r.Ok? ==> Leaving(memory.cfg, old(Tables()), Tables(), [PageId(pid, piece.page + 1)])
    {
      hide PagingRun.Sound, PageOf, OffsetOf, AddressOf, Paging.Slice, Space, Part, Completes, Leaving,
        Paging.ReadPage, Paging.Resolve;
      ghost var s := Tables();
      var choice :| 0 <= choice < |memory.tlb|;
      var p := PageId(pid, piece.page + 1);
      ReadCompletes(memory.cfg, Tables(), flat, p, piece.offset, piece.size, choice);
      var read := memory.Read(p, piece.offset, piece.size, choice, flat);
      if read.Fail? {
        return Fail(read.fault);
      }
      ReadLosesNone(memory.cfg, s, flat, p, piece.offset, piece.size, choice, Tables(), spoilt);
      ReadOnPage(flat, pid, piece.page, piece.offset, piece.size, cfg.pageSize);
      flat := flat.(trace := flat.trace + [p]);
      r := Ok(read.value.value);
    }

    lemma PageExists(pid: nat, page: nat, offset: nat, size: nat)
      requires Backed() && pid in flat.counts && page < flat.counts[pid] && offset + size <= cfg.pageSize
      ensures OnOnePage(flat, pid, page, offset, size, cfg.pageSize)
    {
      PageIsSized(memory.cfg, Tables(), flat, PageId(pid, page + 1));
    }

    lemma PageIsInTables(pid: nat, page: nat, offset: nat, size: nat)
      requires Backed() && OnOnePage(flat, pid, page, offset, size, cfg.pageSize)
      ensures PageId(pid, page + 1) in Tables().pages
    {
      PageIsKnown(memory.cfg, Tables(), flat, PageId(pid, page + 1));
    }

    /** What is left to do after `i` pieces and `j` bytes of a range, the next byte being at `start` of the data. */
    ghost predicate Progress(list: seq<Piece>, i: nat, pos: nat, data: Bytes, j: nat, start: nat)
      requires cfg.Valid()
    {
      var ps := cfg.pageSize;
      && i <= |list| && j <= |data|
      && list[i..] == Pieces(pos + j, |data| - j, ps)
      && (j < |data| ==> Starts(pos, j, ps) && start == Source(pos, j, ps))
    }

    lemma {:induction false} Begins(list: seq<Piece>, pos: nat, data: Bytes)
      requires cfg.Valid() && list == Pieces(pos, |data|, cfg.pageSize)
      ensures Progress(list, 0, pos, data, 0, 0)
    {
      assert list[0..] == list;
    }

    /** The next piece is on a page of the process, its bytes are in the data, and the rest is smaller. */
    lemma Advances(list: seq<Piece>, i: nat, pos: nat, data: Bytes, j: nat, start: nat, count: nat)
      requires cfg.Valid() && Progress(list, i, pos, data, j, start) && i < |list|
          && pos + |data| <= count * cfg.pageSize
      ensures var piece := list[i];
              && piece.offset + piece.size <= cfg.pageSize && piece.page < count && start + piece.size <= |data|
              && j + piece.size <= |data|
              && Progress(list, i + 1, pos, data, j + piece.size, piece.size)
    {
      hide PageOf, OffsetOf, Left, Starts, Source, Pieces;
      if j == |data| {
        NoPieces(pos + j, cfg.pageSize);
        assert false;
      } else {
        NextPiece(pos, data, j, cfg.pageSize, count);
        assert list[i..][0] == list[i] && list[i..][1..] == list[i + 1..];
      }
    }

    /**
      The second loop of `memory_memwrite` and of `escribir_heap_memoria_fisica`.  Whether it completes is
      decided by the pages of the range and the free slots there are when it starts.
     */
    method WriteRange(pid: nat, pos: nat, data: Bytes) returns (r: Result<()>)
      requires Backed() && pid in flat.counts && pos + |data| <= Length(flat, pid, cfg.pageSize)
      modifies this`flat, memory, memory.cache.buffer, memory.swap
      ensures r.Ok? ==> Backed()
      ensures r.Ok? ==> var ps := cfg.pageSize;
                        var before := Space(old(flat), pid, ps);
                        Becomes(old(flat), flat, ps, pid, Scatter(before, ps, Pieces(pos, |data|, ps), data, 0))
      ensures var pages := PagesOf(pid, Pieces(pos, |data|, cfg.pageSize));
              && Completes(memory.cfg, old(Tables()), pages, r.Ok?)
              && (r.Ok? ==> Leaving(memory.cfg, old(Tables()), Tables(), pages))
      ensures r.Ok? && |data| > 0 && flat.counts[pid] == 1 ==> IsHere(Tables(), PageId(pid, 1))
    {
      hide PageOf, OffsetOf, AddressOf, Space, Progress, Scatter, Pieces, PagingRun.Sound, Paging.Patch,
        Completes, Leaving, PagesOf, IsHere;
      LastPieceOnPages(pos, |data|, cfg.pageSize, flat.counts[pid]);
      var list := BuildPieces(pos, |data|, cfg.pageSize);
      var i: nat, start: nat := 0, 0;
      ghost var j: nat, s := 0, Tables();
      Begins(list, pos, data);
      RangeStarts(memory.cfg, s, pid, list);
      ghost var goal := Scatter(Space(flat, pid, cfg.pageSize), cfg.pageSize, list, data, 0);
      assert list[0..] == list;
      while i < |list|
        invariant i <= |list| && Backed() && Progress(list, i, pos, data, j, start)
        invariant Becomes(old(flat), flat, cfg.pageSize, pid, Space(flat, pid, cfg.pageSize))
        invariant Scatter(Space(flat, pid, cfg.pageSize), cfg.pageSize, list[i..], data, start) == goal
        invariant Completes(memory.cfg, s, PagesOf(pid, list[..i]), true)
        invariant Leaving(memory.cfg, s, Tables(), PagesOf(pid, list[..i]))
        invariant i > 0 ==> IsHere(Tables(), PageId(pid, list[i - 1].page + 1))
      {
        Advances(list, i, pos, data, j, start, flat.counts[pid]);
        PageExists(pid, list[i].page, list[i].offset, list[i].size);
        PageIsInTables(pid, list[i].page, list[i].offset, list[i].size);
        var bytes := data[start..start + list[i].size];
        ScatterStep(Space(flat, pid, cfg.pageSize), cfg.pageSize, list, i, data, start);
        ghost var s1 := Tables();
        var written := WritePiece(pid, list[i], bytes);
        RangeGoesOn(memory.cfg, s, s1, pid, list, i, written.Ok?);
        if written.Fail? {
          return written;
        }
        RangeLeaves(memory.cfg, s, s1, Tables(), pid, list, i);
        start, j, i := list[i].size, j + list[i].size, i + 1;
      }
      ScatterDone(Space(flat, pid, cfg.pageSize), cfg.pageSize, list[i..], data, start);
      assert list[..i] == list;
      r := Ok(());
    }

    /** The second loop of `memory_memread`; it completes under the same conditions. */
    method ReadRange(pid: nat, pos: nat, buffer: Bytes) returns (r: Result<Bytes>)
      requires Backed() && pid in flat.counts && (|buffer| == 0 || pos + |buffer| <= Length(flat, pid, cfg.pageSize))
      modifies this`flat, memory, memory.cache.buffer, memory.swap
      ensures r.Ok? ==> Backed() && flat.mem == old(flat.mem) && flat.counts == old(flat.counts)
      ensures r.Ok? ==> var ps := cfg.pageSize;
                        r.value == Gather(Space(old(flat), pid, ps), ps, Pieces(pos, |buffer|, ps), buffer, 0)
      ensures var pages := PagesOf(pid, Pieces(pos, |buffer|, cfg.pageSize));
              && Completes(memory.cfg, old(Tables()), pages, r.Ok?)
              && (r.Ok? ==> Leaving(memory.cfg, old(Tables()), Tables(), pages))
    {
      hide PageOf, OffsetOf, AddressOf, Space, Progress, Gather, Pieces, PagingRun.Sound, Paging.Patch, Completes,
        Leaving, PagesOf;
      var list := BuildPieces(pos, |buffer|, cfg.pageSize);
      var filled := buffer;
      var i: nat, start: nat := 0, 0;
      ghost var j: nat, space, s := 0, Space(flat, pid, cfg.pageSize), Tables();
      Begins(list, pos, buffer);
      RangeStarts(memory.cfg, s, pid, list);
      NoPieces(pos, cfg.pageSize);
      assert list[0..] == list;
      while i < |list|
        invariant i <= |list| && Backed() && Progress(list, i, pos, buffer, j, start) && |filled| == |buffer|
        invariant flat.mem == old(flat.mem) && flat.counts == old(flat.counts)
        invariant Gather(space, cfg.pageSize, list[i..], filled, start) == Gather(space, cfg.pageSize, list, buffer, 0)
        invariant Completes(memory.cfg, s, PagesOf(pid, list[..i]), true)
        invariant Leaving(memory.cfg, s, Tables(), PagesOf(pid, list[..i]))
      {
        Advances(list, i, pos, buffer, j, start, flat.counts[pid]);
        PageExists(pid, list[i].page, list[i].offset, list[i].size);
        PageIsInTables(pid, list[i].page, list[i].offset, list[i].size);
        GatherStep(space, cfg.pageSize, list, i, filled, start);
        SameSpace(old(flat), flat, pid, cfg.pageSize);
        ghost var s1 := Tables();
        var bytes := ReadPiece(pid, list[i]);
        RangeGoesOn(memory.cfg, s, s1, pid, list, i, bytes.Ok?);
        if bytes.Fail? {
          return bytes;
        }
        RangeLeaves(memory.cfg, s, s1, Tables(), pid, list, i);
        filled := Paging.Patch(filled, start, bytes.value);
        start, j, i := list[i].size, j + list[i].size, i + 1;
      }
      GatherDone(space, cfg.pageSize, list[i..], filled, start);
      assert list[..i] == list;
      r := Ok(filled);
    }

    // -------------------------------------------------------------- processes

    /** Every process of the pager has its block list, on its own and, unless it is spoilt, with as many pages. */
    ghost predicate Matched()
      reads this, memory, memory.cache, memory.cache.buffer, memory.swap, procs.Values
    {
      && Backed() && procs.Keys == flat.counts.Keys
      && (forall k :: k in procs ==> procs[k].cfg == cfg && (k !in spoilt ==> procs[k].pages == flat.counts[k]))
      && forall k, l :: k in procs && l in procs && k != l ==> procs[k] != procs[l]
    }

    ghost function ImageOf(pid: nat): Image
      reads `flat, `procs, procs.Values
    {
      Image(if pid in procs then procs[pid].Now() else Heap([], 0), Space(flat, pid, cfg.pageSize))
    }

    ghost function Now(): System
      reads `flat, `procs, procs.Values
    {
      map pid | pid in procs :: ImageOf(pid)
    }

    ghost predicate Valid()
      reads this, memory, memory.cache, memory.cache.buffer, memory.swap, procs.Values
    {
      Matched() && !dangling && forall k :: k in procs && k !in spoilt ==> Inv(cfg, procs[k].Now())
    }

    /** Valid but for the list of `pid`. */
    ghost predicate ValidBut(pid: nat)
      reads this, memory, memory.cache, memory.cache.buffer, memory.swap, procs.Values
    {
      Matched() && !dangling && forall k :: k in procs && k !in spoilt && k != pid ==> Inv(cfg, procs[k].Now())
    }

    /** `create_pagina` */
    method CreateOne(pid: nat) returns (r: Result<()>)
      requires Backed() && pid in flat.counts && pid !in spoilt
      modifies this`flat, memory, memory.cache.buffer, memory.swap
      ensures r.Ok? ==> Backed() && Extends(old(flat), flat, cfg.pageSize, pid, 1)
      ensures Creates(memory.cfg, old(Tables()), 1, r.Ok?)
      ensures r.Ok? ==> Grows(memory.cfg, old(Tables()), Tables(), 1)
    {
      hide PagingRun.Sound, Space, Extends, PagingRun.FlatStep, Creates, Grows, Paging.CreatePage;
      var choice :| 0 <= choice < |memory.tlb|;
      ghost var s := Tables();
      CreateCompletes(memory.cfg, Tables(), flat, pid, choice);
      var page := memory.AddPage(pid, choice, flat);
      if page.Fail? {
        return Fail(page.fault);
      }
      CreateLosesNone(memory.cfg, s, flat, pid, choice, Tables(), spoilt);
      CreateOnSpace(memory.cfg, flat, pid, cfg.pageSize);
      flat := PagingRun.FlatStep(memory.cfg, flat, PagingRun.Create(pid)).0;
      r := Ok(());
    }

    method AddPage(pid: nat, process: AllocatorProcess.Process) returns (r: Result<()>)
      requires Matched() && pid in procs && procs[pid] == process && pid !in spoilt
      modifies this`flat, memory, memory.cache.buffer, memory.swap, process`pages
      ensures r.Ok? ==> Matched() && Extends(old(flat), flat, cfg.pageSize, pid, 1)
      ensures Creates(memory.cfg, old(Tables()), 1, r.Ok?)
      ensures r.Ok? ==> Grows(memory.cfg, old(Tables()), Tables(), 1)
    {
      hide Backed, Space, Creates, Grows, Tables;
      BackedConfig();
      r := CreateOne(pid);
      if r.Ok? {
        ExtendsCounts(old(flat), flat, cfg.pageSize, pid, 1);
        label Created:
        process.pages := process.pages + 1;
        StillBacked@Created();
      }
    }

    /** `asignar_paginas_carpincho` */
    method AddPages(pid: nat, process: AllocatorProcess.Process, count: nat) returns (r: Result<()>)
      requires Matched() && pid in procs && procs[pid] == process && pid !in spoilt
      modifies this`flat, memory, memory.cache.buffer, memory.swap, process`pages
      ensures r.Ok? ==> Matched() && Extends(old(flat), flat, cfg.pageSize, pid, count)
      ensures Creates(memory.cfg, old(Tables()), count, r.Ok?)
      ensures r.Ok? ==> Grows(memory.cfg, old(Tables()), Tables(), count)
    {
      hide Matched, Extends, Space, Creates, Grows;
      var i := 0;
      ghost var s := Tables();
      assert cfg.Valid() && pid in flat.counts by { MatchedFacts(pid); }
      ExtendsNone(flat, cfg.pageSize, pid);
      CreatesNone(memory.cfg, s);
      while i < count
        invariant i <= count && Matched() && Extends(old(flat), flat, cfg.pageSize, pid, i)
        invariant Creates(memory.cfg, s, i, true) && Grows(memory.cfg, s, Tables(), i)
      {
        ghost var before, s1 := flat, Tables();
        r := AddPage(pid, process);
        CreatesMore(memory.cfg, s, s1, i, 1, r.Ok?);
        if r.Fail? {
          CreatesNoMore(memory.cfg, s, i + 1, count);
          return;
        }
        ExtendsMore(old(flat), before, flat, cfg.pageSize, pid, i, 1);
        GrowsMore(memory.cfg, s, s1, Tables(), i, 1);
        i := i + 1;
      }
      r := Ok(());
    }

    lemma MatchedFacts(pid: nat)
      requires Matched() && pid in procs
      ensures Backed() && cfg.Valid() && pid in flat.counts && procs[pid].cfg == cfg
      ensures pid !in spoilt ==> procs[pid].pages == flat.counts[pid]
    {
    }

    /** Every page of a range inside the pages of a process is in the tables. */
    lemma {:induction false} RangeIsKnown(pid: nat, pos: nat, n: nat)
      requires Backed() && pid in flat.counts && pos + n <= Length(flat, pid, cfg.pageSize)
      ensures Known(Tables(), PagesOf(pid, Pieces(pos, n, cfg.pageSize)))
    {
      hide Pieces, PagingRun.Sound;
      PiecesOnPages(pos, n, cfg.pageSize, flat.counts[pid]);
      var list := Pieces(pos, n, cfg.pageSize);
      forall i | 0 <= i < |list|
        ensures PageId(pid, list[i].page + 1) in Tables().pages
      {
        PageExists(pid, list[i].page, 0, 0);
        PageIsInTables(pid, list[i].page, 0, 0);
      }
    }

    /** `persistir_metadata_heap` */
    method Persist(pid: nat, b: Block) returns (r: Result<()>)
      requires Matched() && pid in procs && 0 <= b.addr && b.Data() <= Length(flat, pid, cfg.pageSize)
      modifies this`flat, memory, memory.cache.buffer, memory.swap
      ensures r.Ok? ==> Matched()
      ensures r.Ok? ==> Becomes(old(flat), flat, cfg.pageSize, pid, Service.Persist(cfg, old(ImageOf(pid)), b).space)
      ensures Completes(memory.cfg, old(Tables()), HeaderPages(pid, b, cfg.pageSize), r.Ok?)
      ensures r.Ok? ==> Leaving(memory.cfg, old(Tables()), Tables(), HeaderPages(pid, b, cfg.pageSize))
      ensures Enough(memory.cfg, old(Tables()), 0) ==> r.Ok?
      ensures r.Ok? ==> Costs(memory.cfg, old(Tables()), Tables(), 0)
      ensures r.Ok? && flat.counts[pid] == 1 ==> IsHere(Tables(), PageId(pid, 1))
    {
      hide Matched, Backed, PagingRun.Sound, Space, Becomes, Scatter, Pieces, Completes, Leaving, Enough, Costs,
        PagesOf, Tables, IsHere;
      MatchedFacts(pid);
      ghost var s, before := Tables(), flat;
      RangeIsKnown(pid, b.addr, HEADER);
      var blocks := procs[pid].blocks;
      var i := procs[pid].IndexOf(b.addr);
      var prev := if i > 0 then blocks[i - 1].addr else 0;
      var next := if i + 1 < |blocks| then blocks[i + 1].addr else 0;
      BackedPager();
      r := WriteRange(pid, b.addr, Word(prev) + Word(next) + [if b.free then 1 else 0]);
      BecomesCounts(old(flat), flat, cfg.pageSize, pid);
      RoomDecides(memory.cfg, s, before, HeaderPages(pid, b, cfg.pageSize), r.Ok?);
      if r.Ok? {
        StillMatched();
        LeavingCosts(memory.cfg, s, Tables(), HeaderPages(pid, b, cfg.pageSize));
      }
    }

    lemma BackedPager()
      requires Backed()
      ensures PagingRun.Sound(memory.cfg, Tables(), flat)
    {
      hide PagingRun.Sound;
    }

    /** As long as the numbers of pages stay, the lists still match. */
    twostate lemma StillMatched()
      requires old(Matched()) && Backed() && procs == old(procs) && spoilt == old(spoilt)
          && flat.counts == old(flat.counts)
      requires forall k :: k in procs ==> procs[k].pages == old(procs[k].pages)
      ensures Matched()
    {
      hide PagingRun.Sound, Backed;
    }

    // -------------------------------------------------------------- allocation

    /** `memalloc_asignar_en_heap_libre` */
    method TakeFree(pid: nat, process: AllocatorProcess.Process, size: nat) returns (r: Result<int>)
      requires Matched() && pid in procs && procs[pid] == process && pid !in spoilt && Inv(cfg, process.Now())
      requires FirstFit(process.blocks, size) < |process.blocks|
      modifies this`flat, memory, memory.cache.buffer, memory.swap, process`blocks
      ensures r.Ok? ==> Matched() && Alone(old(flat), flat, cfg.pageSize, pid)
      ensures r.Ok? ==> r.value == AssignInFree(cfg, old(process.blocks), size).1
      ensures r.Ok? ==> ImageOf(pid) == Assigned(cfg, old(ImageOf(pid)), size, InFree)
      ensures Enough(memory.cfg, old(Tables()), 0) ==> r.Ok?
      ensures r.Ok? ==> Costs(memory.cfg, old(Tables()), Tables(), 0)
    {
      hide Backed, PagingRun.Sound, Space, Becomes, Service.Persist, Alone, AssignInFree, Inv, FirstFit, Splits,
        Completes, Leaving, Enough, Costs;
      BackedConfig();
      ghost var img := ImageOf(pid);
      CostsNothing(memory.cfg, Tables());
      var pos, rest := process.TakeFree(size);
      AloneItself(flat, cfg.pageSize, pid);
      AssignedInFree(cfg, img, size, process.blocks, rest);
      if rest.Some? {
        RestInside(cfg, img.heap, size, rest.value, Length(flat, pid, cfg.pageSize));
        var done := Persist(pid, rest.value);
        if done.Fail? {
          return Fail(done.fault);
        }
        BecomesCounts(old(flat), flat, cfg.pageSize, pid);
        AreAlone(old(flat), flat, cfg.pageSize, pid, Space(flat, pid, cfg.pageSize), 0);
      }
      r := Ok(pos);
    }

    /** `memalloc_asignar_en_pagina_con_espacio` */
    method TakeAtEnd(pid: nat, process: AllocatorProcess.Process, size: nat) returns (pos: int)
      requires Matched() && pid in procs && procs[pid] == process
      modifies process`blocks
      ensures Matched() && pos == AssignAtEnd(old(process.blocks), size).1
      ensures ImageOf(pid) == Assigned(cfg, old(ImageOf(pid)), size, AtEnd)
    {
      hide Backed, PagingRun.Sound, Space;
      BackedConfig();
      ghost var img := ImageOf(pid);
      pos := process.TakeAtEnd(size);
      assert img.space + [] == img.space;
    }

    /** `memalloc_asignar_en_paginas_nuevas` */
    method TakeNewPages(pid: nat, process: AllocatorProcess.Process, size: nat) returns (r: Result<int>)
      requires Matched() && pid in procs && procs[pid] == process && pid !in spoilt
      requires Room(cfg, process.Now()) < size + HEADER
      modifies this`flat, memory, memory.cache.buffer, memory.swap, process
      ensures r.Ok? ==> Matched() && Alone(old(flat), flat, cfg.pageSize, pid)
      ensures r.Ok? ==> r.value == AssignAtEnd(old(process.blocks), size).1
      ensures r.Ok? ==> ImageOf(pid) == Assigned(cfg, old(ImageOf(pid)), size, NewPages)
      ensures var count := Asked(cfg, old(process.Now()), size, NewPages);
              && (Enough(memory.cfg, old(Tables()), count) ==> r.Ok?)
              && (r.Ok? ==> Costs(memory.cfg, old(Tables()), Tables(), count))
    {
      hide Matched, PagingRun.Sound, Space, Alone, Extends, Room, AssignAtEnd, PagesNeeded, Creates, Grows,
        Enough, Costs;
      MatchedFacts(pid);
      ghost var img, s := ImageOf(pid), Tables();
      var room := process.MeasureRoom();
      var count := PagesNeeded(cfg, room, size);
      PagesNeededIsLeast(cfg, room, size, 0);
      var added := AddPages(pid, process, count);
      EnoughCreates(memory.cfg, s, count, added.Ok?);
      if added.Fail? {
        return Fail(added.fault);
      }
      GrowsCosts(memory.cfg, s, Tables(), count);
      MatchedFacts(pid);
      ExtendsSpace(old(flat), flat, cfg.pageSize, pid, count);
      AreAlone(old(flat), flat, cfg.pageSize, pid, [], count);
      AssignedNew(cfg, img, size, ImageOf(pid));
      var pos := TakeAtEnd(pid, process, size);
      r := Ok(pos);
    }

    /** The end of `memory_memalloc`: the block is looked up again to write its header. */
    method Confirm(pid: nat, process: AllocatorProcess.Process, pos: int) returns (r: Result<bool>)
      requires Matched() && pid in procs && procs[pid] == process
      requires var i := First(process.blocks, Covers(pos));
               i < |process.blocks| ==> Inside(process.blocks[i], Length(flat, pid, cfg.pageSize))
      modifies this`flat, memory, memory.cache.buffer, memory.swap
      ensures r.Ok? ==> Matched() && Alone(old(flat), flat, cfg.pageSize, pid)
      ensures var i := First(process.blocks, Covers(pos));
              r.Ok? ==> r.value == (i < |process.blocks|)
                        && (r.value ==> ImageOf(pid) == Service.Persist(cfg, old(ImageOf(pid)), process.blocks[i]))
      ensures Enough(memory.cfg, old(Tables()), 0) ==> r.Ok?
      ensures r.Ok? ==> Costs(memory.cfg, old(Tables()), Tables(), 0)
    {
      hide Backed, PagingRun.Sound, Space, Becomes, Service.Persist, Alone, Completes, Leaving, Enough, Costs;
      BackedConfig();
      AloneItself(flat, cfg.pageSize, pid);
      CostsNothing(memory.cfg, Tables());
      var i := process.FindCovering(pos);
      if i == |process.blocks| {
        return Ok(false);
      }
      ghost var img := ImageOf(pid);
      var done := Persist(pid, process.blocks[i]);
      if done.Fail? {
        return Fail(done.fault);
      }
      BecomesCounts(old(flat), flat, cfg.pageSize, pid);
      AreAlone(old(flat), flat, cfg.pageSize, pid, Space(flat, pid, cfg.pageSize), 0);
      r := Ok(true);
    }

    method Assign(pid: nat, process: AllocatorProcess.Process, size: nat, plan: Plan) returns (r: Result<int>)
      requires Matched() && pid in procs && procs[pid] == process && pid !in spoilt
      requires Inv(cfg, process.Now()) && plan != NoSpace
      requires plan.InFree? ==> FirstFit(process.blocks, size) < |process.blocks|
      requires plan.NewPages? ==> Room(cfg, process.Now()) < size + HEADER
      modifies this`flat, memory, memory.cache.buffer, memory.swap, process
      ensures r.Ok? ==> Matched() && Alone(old(flat), flat, cfg.pageSize, pid)
      ensures r.Ok? ==> Allocate(cfg, old(process.Now()), size, plan).1 == Granted(r.value)
      ensures r.Ok? ==> ImageOf(pid) == Assigned(cfg, old(ImageOf(pid)), size, plan)
      ensures var count := Asked(cfg, old(process.Now()), size, plan);
              && (Enough(memory.cfg, old(Tables()), count) ==> r.Ok?)
              && (r.Ok? ==> Costs(memory.cfg, old(Tables()), Tables(), count))
    {
      hide Backed, PagingRun.Sound, Space, Alone, Assigned, Inv, FirstFit, Room, AssignInFree, AssignAtEnd,
        Enough, Costs;
      BackedConfig();
      match plan
      case InFree => r := TakeFree(pid, process, size);
      case NewPages => r := TakeNewPages(pid, process, size);
      case AtEnd =>
        AloneItself(flat, cfg.pageSize, pid);
        CostsNothing(memory.cfg, Tables());
        var pos := TakeAtEnd(pid, process, size);
        r := Ok(pos);
    }

    /** The block is assigned and, when it is found again, its header written: the part that all strategies share. */
    method Grant(pid: nat, process: AllocatorProcess.Process, size: nat, plan: Plan) returns (r: Result<Reply>)
      requires Matched() && pid in procs && procs[pid] == process && pid !in spoilt
      requires Inv(cfg, process.Now()) && plan != NoSpace
      requires plan.InFree? ==> FirstFit(process.blocks, size) < |process.blocks|
      requires plan.NewPages? ==> Room(cfg, process.Now()) < size + HEADER
      requires FoundIsInside(cfg, process.Now(), size, plan)
      modifies this`flat, memory, memory.cache.buffer, memory.swap, process
      ensures var (h, reply) := Allocate(cfg, old(process.Now()), size, plan);
              && reply.Granted?
              && var i := First(h.blocks, Covers(reply.pos));
                 r.Ok? ==>
                   && r.value == (if i < |h.blocks| then reply else Crash)
                   && (i < |h.blocks| ==>
                         && Matched() && Alone(old(flat), flat, cfg.pageSize, pid) && process.Now() == h
                         && ImageOf(pid) ==
                            Service.Persist(cfg, Assigned(cfg, old(ImageOf(pid)), size, plan), h.blocks[i]))
      ensures var count := Asked(cfg, old(process.Now()), size, plan);
              && (Enough(memory.cfg, old(Tables()), count) ==> r.Ok?)
              && (r.Ok? ==> Costs(memory.cfg, old(Tables()), Tables(), count))
    {
      hide Matched, PagingRun.Sound, Space, Alone, Assigned, Inv, FirstFit, Room, Allocate, Enough, Costs, Asked,
        Service.Persist, Inside;
      MatchedFacts(pid);
      AllocateGrants(cfg, process.Now(), size, plan);
      ghost var img, s, count := ImageOf(pid), Tables(), Asked(cfg, process.Now(), size, plan);
      var pos := Assign(pid, process, size, plan);
      if pos.Fail? {
        return Fail(pos.fault);
      }
      ghost var middle, s1 := flat, Tables();
      MatchedFacts(pid);
      AssignedHeap(cfg, img, size, plan);
      var found := Confirm(pid, process, pos.value);
      if Enough(memory.cfg, s, count) {
        StillEnough(memory.cfg, s, s1, count);
      }
      if found.Fail? {
        return Fail(found.fault);
      }
      CostsMore(memory.cfg, s, s1, Tables(), count, 0);
      AloneAgain(old(flat), middle, flat, cfg.pageSize, pid);
      r := Ok(if found.value then Granted(pos.value) else Crash);
    }

    /** `memory_memalloc` for a process that exists */
    method MemallocKnown(pid: nat, process: AllocatorProcess.Process, size: nat, answer: int) returns (r: Result<Reply>)
      requires Matched() && pid in procs && procs[pid] == process && pid !in spoilt && Inv(cfg, process.Now())
      modifies this`flat, memory, memory.cache.buffer, memory.swap, process
      ensures r.Ok? ==> r.value == Service.Memalloc(cfg, old(ImageOf(pid)), size, answer).1
      ensures r.Ok? && r.value != Crash ==>
                && Matched() && Alone(old(flat), flat, cfg.pageSize, pid)
                && (!Misorders(cfg, old(process.Now()), size, answer) ==> Inv(cfg, process.Now()))
                && ImageOf(pid) == Service.Memalloc(cfg, old(ImageOf(pid)), size, answer).0
      ensures var count := AskedFor(cfg, old(process.Now()), size, answer);
              && (Enough(memory.cfg, old(Tables()), count) ==> r.Ok?)
              && (r.Ok? && r.value != Crash ==> Costs(memory.cfg, old(Tables()), Tables(), count))
      ensures r.Ok? && r.value == OutOfSpace ==> Tables() == old(Tables())
    {
      hide Matched, PagingRun.Sound, Space, Alone, Assigned, Inv, FirstFit, Room, Allocate, CheckAlloc, Enough,
        Costs, Service.Memalloc, Service.Persist, Allocator.Memalloc, Misorders, Asked, FoundIsInside;
      MatchedFacts(pid);
      ghost var img := ImageOf(pid);
      AloneItself(flat, cfg.pageSize, pid);
      CostsNothing(memory.cfg, Tables());
      var plan := process.Plan(size, answer);
      MemallocParts(cfg, img, size, answer);
      if plan == NoSpace {
        NothingAsked(cfg, img.heap, size);
        return Ok(OutOfSpace);
      }
      r := Grant(pid, process, size, plan);
    }

    /** `create_carpincho` */
    method AddProcess(pid: nat) returns (process: AllocatorProcess.Process)
      requires Matched() && pid !in procs && pid !in spoilt
      modifies this`flat, this`procs, memory
      ensures Matched() && fresh(process) && procs == old(procs)[pid := process]
      ensures Alone(old(flat), flat, cfg.pageSize, pid) && ImageOf(pid) == Image(Heap([], 0), [])
      ensures Tables() == Paging.Register(old(Tables()), pid)
    {
      hide PagingRun.Sound, Space, Alone, PagingRun.FlatStep, Paging.Register;
      process := new AllocatorProcess.Process(cfg);
      RegisterAlone(memory.cfg, flat, pid, cfg.pageSize);
      memory.AddProcess(pid, flat);
      flat := PagingRun.FlatStep(memory.cfg, flat, PagingRun.Register(pid)).0;
      procs := procs[pid := process];
    }

    /** The first block of a process that has just been created */
    method FillNew(pid: nat, process: AllocatorProcess.Process, size: nat, answer: int) returns (r: Result<Reply>)
      requires Matched() && pid in procs && procs[pid] == process && pid !in spoilt
      requires ImageOf(pid) == Image(Heap([], 0), []) && answer != 0
      modifies this`flat, memory, memory.cache.buffer, memory.swap, process
      ensures r.Ok? ==> r.value == Service.MemallocFirst(cfg, size, answer).1
      ensures r.Ok? && r.value.Granted? ==>
                && Matched() && Alone(old(flat), flat, cfg.pageSize, pid) && Inv(cfg, process.Now())
                && ImageOf(pid) == Service.MemallocFirst(cfg, size, answer).0
      ensures var count := Asked(cfg, Heap([], 0), size, NewPages);
              && (Enough(memory.cfg, old(Tables()), count) ==> r.Ok?)
              && (r.Ok? && r.value.Granted? ==> Costs(memory.cfg, old(Tables()), Tables(), count))
    {
      hide Matched, PagingRun.Sound, Space, Alone, Assigned, Inv, Service.Persist, Service.MemallocFirst,
        Allocate, Room, Asked, Enough, Costs, FoundIsInside;
      MatchedFacts(pid);
      FirstParts(cfg, size, answer);
      r := Grant(pid, process, size, NewPages);
    }

    /** `memory_memalloc` for a process that does not exist yet */
    method MemallocNew(pid: nat, size: nat, answer: int) returns (r: Result<Reply>)
      requires Matched() && pid !in procs && pid !in spoilt
      modifies this`flat, this`procs, memory, memory.cache.buffer, memory.swap
      ensures r.Ok? ==> r.value == Service.MemallocFirst(cfg, size, answer).1
      ensures answer == 0 ==> r == Ok(OutOfSpace) && unchanged(this) && Matched() && Tables() == old(Tables())
      ensures r.Ok? && r.value.Granted? ==>
                && Matched() && Alone(old(flat), flat, cfg.pageSize, pid)
                && pid in procs && fresh(procs[pid]) && procs == old(procs)[pid := procs[pid]]
                    && Inv(cfg, procs[pid].Now())
                && ImageOf(pid) == Service.MemallocFirst(cfg, size, answer).0
      ensures answer != 0 ==>
                var s, count := Paging.Register(old(Tables()), pid), Asked(cfg, Heap([], 0), size, NewPages);
                && (Enough(memory.cfg, s, count) ==> r.Ok?)
                && (r.Ok? && r.value.Granted? ==> Costs(memory.cfg, s, Tables(), count))
    {
      hide Matched, PagingRun.Sound, Space, Alone, Inv, Service.MemallocFirst, Asked, Enough, Costs,
        Paging.Register;
      MatchedIsBacked();
      FirstParts(cfg, size, answer);
      if answer == 0 {
        return Ok(OutOfSpace);
      }
      var process := AddProcess(pid);
      ghost var created := flat;
      r := FillNew(pid, process, size, answer);
      if r.Ok? && r.value.Granted? {
        AloneAgain(old(flat), created, flat, cfg.pageSize, pid);
      }
    }

    lemma MatchedIsBacked()
      requires Matched()
      ensures Backed() && cfg.Valid()
    {
    }

    /** The pager does not look at the block lists. */
    twostate lemma StillBacked()
      requires old(Backed()) && unchanged(this, memory, memory.cache, memory.cache.buffer, memory.swap)
      ensures Backed()
    {
      hide PagingRun.Sound;
    }

    lemma BackedConfig()
      requires Backed()
      ensures cfg.Valid()
    {
    }

    lemma NowHas()
      ensures Now().Keys == procs.Keys && forall k :: k in procs ==> Now()[k] == ImageOf(k)
    {
    }

    /** Only the image of `pid` has changed. */
    twostate lemma OnlyOne(pid: nat)
      requires cfg.Valid() && pid in procs && procs.Keys == old(procs.Keys) + {pid}
      requires forall k :: k in old(procs) && k != pid ==>
          procs[k] == old(procs[k]) && procs[k].Now() == old(procs[k].Now())
      requires Alone(old(flat), flat, cfg.pageSize, pid)
      ensures Now() == old(Now())[pid := ImageOf(pid)]
    {
      hide Space;
    }

    /** Nothing has happened to the lists of the others. */
    twostate lemma OthersStayValid(pid: nat)
      requires old(Valid()) && Matched() && spoilt == old(spoilt) && dangling == old(dangling)
          && procs.Keys <= old(procs.Keys) + {pid}
      requires forall k :: k in old(procs) && k != pid ==>
                 k in procs && procs[k] == old(procs[k]) && procs[k].Now() == old(procs[k].Now())
      ensures ValidBut(pid)
    {
      hide PagingRun.Sound, Backed, Inv, Matched;
    }

    lemma AllValid(pid: nat)
      requires ValidBut(pid) && (pid in procs && pid !in spoilt ==> Inv(cfg, procs[pid].Now()))
      ensures Valid()
    {
      hide PagingRun.Sound, Backed, Inv, Matched;
    }

    /** From here on nothing is said about the list and the pages of `pid`. */
    ghost method Spoil(pid: nat)
      requires ValidBut(pid)
      modifies this`spoilt
      ensures spoilt == old(spoilt) + {pid} && Valid() && Now() == old(Now())
    {
      hide PagingRun.Sound, Space, Inv;
      spoilt := spoilt + {pid};
    }

    /** `memory_memalloc` */
    method Memalloc(pid: nat, size: nat, answer: int) returns (r: Result<Reply>)
      requires Valid() && pid !in spoilt
      modifies this, memory, memory.cache.buffer, memory.swap, procs.Values
      ensures r.Ok? ==> r.value == Serve(cfg, old(Now()), Call(pid, Malloc(size, answer))).1
      ensures r.Ok? && r.value != Crash ==>
                && Valid() && Now() == Serve(cfg, old(Now()), Call(pid, Malloc(size, answer))).0
                && spoilt == old(spoilt) +
                             if Spoils(cfg, old(Now()), Call(pid, Malloc(size, answer))) then {pid} else {}
      ensures var s, count := Paging.Register(old(Tables()), pid), PagesAsked(cfg, old(Now()), pid, size, answer);
              && (Enough(memory.cfg, s, count) ==> r.Ok?)
              && (r.Ok? && r.value.Granted? ==> Costs(memory.cfg, s, Tables(), count))
      ensures r.Ok? && r.value == OutOfSpace ==> Tables() == old(Tables())
    {
      hide PagingRun.Sound, Space, Inv, Service.Memalloc, Service.MemallocFirst, CheckAlloc, Misplaces, Enough,
        Costs, Backed, Asked, Valid, Matched, ValidBut, Serve, Tables, Now, ImageOf, PagesAsked, Paging.Register,
        Spoils;
      assert cfg.Valid() by { ValidIsMatched(); }
      if pid !in procs {
        NewIsNotSpoilt(cfg, Now(), Call(pid, Malloc(size, answer))) by { NowHas(); }
      }
      if pid in procs {
        ghost var spoils := Spoils(cfg, Now(), Call(pid, Malloc(size, answer)));
        r := MemallocOld(pid, procs[pid], size, answer);
        if r.Ok? && r.value != Crash && spoils {
          Spoil(pid);
        }
      } else {
        r := MemallocFirst(pid, size, answer);
      }
      assert spoilt + {} == spoilt;
    }

    lemma ValidIsMatched()
      requires Valid()
      ensures Matched() && cfg.Valid()
    {
    }

    method MemallocOld(pid: nat, process: AllocatorProcess.Process, size: nat, answer: int) returns (r: Result<Reply>)
      requires Valid() && pid in procs && procs[pid] == process && pid !in spoilt
      modifies this`flat, memory, memory.cache.buffer, memory.swap, process
      ensures r.Ok? ==> r.value == Serve(cfg, old(Now()), Call(pid, Malloc(size, answer))).1
      ensures r.Ok? && r.value != Crash ==>
                && ValidBut(pid) && Now() == Serve(cfg, old(Now()), Call(pid, Malloc(size, answer))).0
                && (!Spoils(cfg, old(Now()), Call(pid, Malloc(size, answer))) ==> Valid())
      ensures var s, count := Paging.Register(old(Tables()), pid), PagesAsked(cfg, old(Now()), pid, size, answer);
              && (Enough(memory.cfg, s, count) ==> r.Ok?)
              && (r.Ok? && r.value.Granted? ==> Costs(memory.cfg, s, Tables(), count))
      ensures r.Ok? && r.value == OutOfSpace ==> Tables() == old(Tables())
    {
      hide PagingRun.Sound, Space, Inv, Service.Memalloc, CheckAlloc, Misplaces, Alone, Backed, Enough, Costs,
        Asked, Tables, Paging.Register, Matched, Valid, ValidBut;
      ValidIsMatched();
      ValidFacts(pid);
      RegisteredInPager(pid);
      r := MemallocKnown(pid, process, size, answer);
      if r.Ok? && r.value != Crash {
        OthersStayValid(pid);
        if !Spoils(cfg, old(Now()), Call(pid, Malloc(size, answer))) {
          AllValid(pid);
        }
        OnlyOne(pid);
      }
    }

    lemma RegisteredInPager(pid: nat)
      requires Matched() && pid in procs
      ensures pid in memory.procs && Paging.Register(Tables(), pid) == Tables()
    {
      hide PagingInvariant.Core, PagingInvariant.Refines, PagingRun.Follows;
    }

    method MemallocFirst(pid: nat, size: nat, answer: int) returns (r: Result<Reply>)
      requires Valid() && pid !in procs && pid !in spoilt
      modifies this`flat, this`procs, memory, memory.cache.buffer, memory.swap
      ensures r.Ok? ==> r.value == Serve(cfg, old(Now()), Call(pid, Malloc(size, answer))).1
      ensures r.Ok? && r.value != Crash ==>
                Valid() && Now() == Serve(cfg, old(Now()), Call(pid, Malloc(size, answer))).0
      ensures var s, count := Paging.Register(old(Tables()), pid), PagesAsked(cfg, old(Now()), pid, size, answer);
              && (Enough(memory.cfg, s, count) ==> r.Ok?)
              && (r.Ok? && r.value.Granted? ==> Costs(memory.cfg, s, Tables(), count))
      ensures r.Ok? && r.value == OutOfSpace ==> Tables() == old(Tables())
    {
      hide PagingRun.Sound, Space, Inv, Service.MemallocFirst, Alone, Backed, Enough, Costs, Asked,
        Paging.Register, Matched, Valid, ValidBut, Tables, Serve, PagesAsked, Now, ImageOf;
      ValidIsMatched();
      NowHas();
      FirstReplies(cfg, size, answer);
      ServeNew(cfg, Now(), pid, size, answer);
      r := MemallocNew(pid, size, answer);
      if r.Ok? && r.value != Crash {
        OthersStayValid(pid);
        AllValid(pid);
      }
      if r.Ok? && r.value.Granted? {
        OnlyOne(pid);
      }
    }

    // -------------------------------------------------------------- release

    /** `memory_memfree` up to its compaction, for a process that exists */
    method Discard(pid: nat, process: AllocatorProcess.Process, pos: nat) returns (r: Result<Reply>)
      requires Matched() && pid in procs && procs[pid] == process && pid !in spoilt && Inv(cfg, process.Now())
      modifies this`flat, memory, memory.cache.buffer, memory.swap, process`blocks
      ensures r.Ok? ==> r.value == Service.Memfree(cfg, old(ImageOf(pid)), pos).1 && Inv(cfg, process.Now())
      ensures r.Ok? ==> Matched() && Alone(old(flat), flat, cfg.pageSize, pid)
      ensures r.Ok? ==> ImageOf(pid) == Service.Memfree(cfg, old(ImageOf(pid)), pos).0
      ensures var pages := FreedPages(cfg, old(process.Now()), pid, pos);
              && Completes(memory.cfg, old(Tables()), pages, r.Ok?)
              && (r.Ok? ==> Leaving(memory.cfg, old(Tables()), Tables(), pages))
      ensures Enough(memory.cfg, old(Tables()), 0) ==> r.Ok?
      ensures r == Ok(Done) && pid in flat.counts && flat.counts[pid] == 1 ==> IsHere(Tables(), PageId(pid, 1))
    {
      hide Matched, Backed, PagingRun.Sound, Space, Alone, Becomes, Service.Persist, Freeable, Allocator.Release,
        Inv, Completes, Leaving, Enough, Costs, HeaderPages, Tables, IsHere;
      MatchedFacts(pid);
      ghost var img := ImageOf(pid);
      AloneItself(flat, cfg.pageSize, pid);
      CompletesNothing(memory.cfg, Tables());
      FreedBlock(cfg, img.heap, pos);
      var reply, at := process.Release(pos);
      if reply == Invalid {
        return Ok(Invalid);
      }
      StillMatched();
      BlockInside(cfg, process.Now(), at, Length(flat, pid, cfg.pageSize));
      ghost var freed := ImageOf(pid);
      var done := Persist(pid, process.blocks[at]);
      if done.Fail? {
        return Fail(done.fault);
      }
      BecomesCounts(old(flat), flat, cfg.pageSize, pid);
      AreAlone(old(flat), flat, cfg.pageSize, pid, Space(flat, pid, cfg.pageSize), 0);
      r := Ok(Done);
    }

    /**
      `memory_memfree`.  After a compaction the list is right but the pages are not: the source neither moves bytes
      nor renumbers pages, so the process is spoilt then.  Under quotas the others never notice.  Under the common
      pool the frame of a process with one page is lost, and the others keep their bytes for as long as they can
      reach them; from a process with more pages the source also frees the descriptor of the page that follows, which
      stays in the lists that later victims are taken from, and nothing holds any more.  `middle` are the tables when
      the compaction starts.
     */
    method Memfree(pid: nat, pos: nat) returns (r: Result<Reply>, compacted: bool, ghost middle: Paging.State)
      requires Valid() && pid !in spoilt
      modifies this`flat, this`spoilt, this`dangling, memory, memory.cache.buffer, memory.swap, procs.Values
      ensures r.Ok? ==> r.value == Serve(cfg, old(Now()), Call(pid, Request.Release(pos))).1
      ensures r.Ok? ==>
                && Now().Keys == old(Now()).Keys
                && (compacted <==> Spoils(cfg, old(Now()), Call(pid, Request.Release(pos))))
                && spoilt == (old(spoilt) + if compacted then {pid} else {})
                && (forall k :: k in procs && k != pid ==> ImageOf(k) == old(ImageOf(k)))
                && (!compacted ==> Now() == Serve(cfg, old(Now()), Call(pid, Request.Release(pos))).0)
      ensures r.Ok? && pid in procs ==>
          (procs[pid].Now(), r.value) == Allocator.Memfree(cfg, old(procs[pid].Now()), pos)
      ensures r.Ok? ==>
                var loses := compacted && cfg.allocation.Dynamic?;
                && (!loses ==> Valid() && Tables() == middle)
                && (loses && old(Now())[pid].heap.pages == 1 ==> Valid() && Tables() == Paging.Orphaned(middle, pid))
                && (dangling <==> loses && old(Now())[pid].heap.pages != 1)
      ensures var pages := if pid in procs then FreedPages(cfg, old(procs[pid].Now()), pid, pos) else [];
              && Completes(memory.cfg, old(Tables()), pages, r.Ok?)
              && (r.Ok? ==> Leaving(memory.cfg, old(Tables()), middle, pages))
      ensures Enough(memory.cfg, old(Tables()), 0) ==> r.Ok?
    {
      hide PagingRun.Sound, Space, Backed, Inv, Service.Memfree, Allocator.Memfree, Compacts, Completes, Leaving,
        Enough, FreedPages, Paging.Orphaned;
      BackedConfig();
      if pid !in procs {
        CompletesNothing(memory.cfg, Tables());
        assert spoilt + {} == spoilt;
        return Ok(Invalid), false, Tables();
      }
      r, compacted, middle := DiscardAndCompact(pid, procs[pid], pos);
    }

    method DiscardAndCompact(pid: nat, process: AllocatorProcess.Process, pos: nat)
      returns (r: Result<Reply>, compacted: bool, ghost middle: Paging.State)
      requires Valid() && pid in procs && procs[pid] == process && pid !in spoilt
      modifies this`flat, this`spoilt, this`dangling, memory, memory.cache.buffer, memory.swap, process
      ensures var (img, reply) := Service.Memfree(cfg, old(ImageOf(pid)), pos);
              r.Ok? ==>
                && r.value == reply
                && (process.Now(), reply) == Allocator.Memfree(cfg, old(process.Now()), pos)
                && (compacted <==> reply == Done && Compacts(cfg, img.heap))
                && spoilt == (old(spoilt) + if compacted then {pid} else {})
                && (forall k :: k in procs && k != pid ==> ImageOf(k) == old(ImageOf(k)))
                && (!compacted ==> Now() == old(Now())[pid := img])
      ensures r.Ok? ==>
                var loses := compacted && cfg.allocation.Dynamic?;
                && (!loses ==> Valid() && Tables() == middle)
                && (loses && old(process.pages) == 1 ==> Valid() && Tables() == Paging.Orphaned(middle, pid))
                && (dangling <==> loses && old(process.pages) != 1)
      ensures var pages := FreedPages(cfg, old(process.Now()), pid, pos);
              && Completes(memory.cfg, old(Tables()), pages, r.Ok?)
              && (r.Ok? ==> Leaving(memory.cfg, old(Tables()), middle, pages))
      ensures Enough(memory.cfg, old(Tables()), 0) ==> r.Ok?
    {
      hide PagingRun.Sound, Space, Alone, Backed, Inv, Service.Memfree, CompactAll, Compacts, Free, Valid,
        Matched, Completes, Leaving, Enough, FreedPages, ValidBut, Tables, IsHere, Paging.Orphaned;
      assert cfg.Valid() && Inv(cfg, process.Now()) by { ValidFacts(pid); }
      PagesCounted(pid);
      MemfreeHeap(cfg, ImageOf(pid), pos);
      r := DiscardOnly(pid, process, pos);
      compacted, middle := false, Tables();
      assert spoilt + {} == spoilt;
      if r.Ok? && r.value == Done {
        compacted := CompactDiscarded(pid, process);
      }
    }

    /** A process that is about to be compacted is spoilt. */
    ghost method SpoilIfCompacted(pid: nat, compacts: bool)
      requires Valid()
      modifies this`spoilt
      ensures spoilt == old(spoilt) + (if compacts then {pid} else {}) && Valid()
    {
      hide PagingRun.Sound, Inv, Valid, ValidBut, Backed, Matched;
      ValidIsValidBut(pid);
      if compacts {
        Spoil(pid);
      }
      assert spoilt + {} == spoilt;
    }

    /** The loop at the end of `memory_memfree`, for a process that is spoilt by now if it has to be */
    method CompactSpoilt(pid: nat, process: AllocatorProcess.Process) returns (compacted: bool)
      requires Valid() && pid in procs && procs[pid] == process && cfg.Valid() && process.cfg == cfg
      requires Inv(cfg, process.Now()) && (pid in spoilt <==> Compacts(cfg, process.Now()))
      modifies process
      ensures Valid() && process.Now() == CompactAll(cfg, old(process.Now()))
      ensures compacted <==> Compacts(cfg, old(process.Now()))
      ensures forall k :: k in procs && k != pid ==> ImageOf(k) == old(ImageOf(k))
      ensures !compacted ==> Now() == old(Now())
    {
      hide PagingRun.Sound, Space, Backed, Inv, CompactAll, Compacts;
      CompactChanges(cfg, process.Now());
      compacted := CompactIfNeeded(process);
    }

    /** `compactar`, for the list of the process and then for its pages */
    method CompactDiscarded(pid: nat, process: AllocatorProcess.Process) returns (compacted: bool)
      requires Valid() && pid in procs && procs[pid] == process && pid !in spoilt
      requires pid in flat.counts && flat.counts[pid] == 1 ==> IsHere(Tables(), PageId(pid, 1))
      modifies this`flat, this`spoilt, this`dangling, memory, process
      ensures process.Now() == CompactAll(cfg, old(process.Now()))
      ensures compacted <==> Compacts(cfg, old(process.Now()))
      ensures spoilt == old(spoilt) + if compacted then {pid} else {}
      ensures forall k :: k in procs && k != pid ==> ImageOf(k) == old(ImageOf(k))
      ensures !compacted ==> Now() == old(Now())
      ensures var loses := compacted && cfg.allocation.Dynamic?;
              && (!loses ==> Valid() && Tables() == old(Tables()))
              && (loses && old(process.pages) == 1 ==> Valid() && Tables() == Paging.Orphaned(old(Tables()), pid))
              && (dangling <==> loses && old(process.pages) != 1)
    {
      hide PagingRun.Sound, Space, Backed, Inv, CompactAll, Compacts, Valid, Matched, Now, ImageOf, Paging.Orphaned,
        IsHere;
      ValidFacts(pid);
      PagesCounted(pid);
      var before := process.pages;
      SpoilIfCompacted(pid, Compacts(cfg, process.Now()));
      compacted := CompactSpoilt(pid, process);
      if compacted && cfg.allocation.Dynamic? {
        if before == 1 {
          LoseFrame(pid);
        } else {
          dangling := true;
        }
      }
    }

    lemma PagesCounted(pid: nat)
      requires Valid() && pid in procs && pid !in spoilt
      ensures pid in flat.counts && procs[pid].pages == flat.counts[pid] && !dangling
    {
      hide PagingRun.Sound, Inv;
    }

    /** The only page of a spoilt process leaves the tables. */
    method LoseFrame(pid: nat)
      requires Valid() && pid in procs && pid in spoilt && pid in flat.counts && flat.counts[pid] == 1
      requires IsHere(Tables(), PageId(pid, 1))
      modifies this`flat, memory
      ensures Valid() && Tables() == Paging.Orphaned(old(Tables()), pid)
      ensures forall k :: k in procs && k != pid ==> ImageOf(k) == old(ImageOf(k))
    {
      hide PagingRun.Sound, Space, Inv, Paging.Orphaned, Compaction.LostTo, Compaction.Dropped, IsHere;
      OnlyPage(Tables(), flat, pid);
      OrphanLoses(Tables(), flat, pid, spoilt);
      memory.Orphan(pid, flat);
      flat := Compaction.Dropped(flat, pid);
      DroppedAlone(old(flat), pid, cfg.pageSize);
    }

    lemma ValidIsValidBut(pid: nat)
      requires Valid()
      ensures ValidBut(pid)
    {
    }

    lemma ValidFacts(pid: nat)
      requires Valid() && pid in procs
      ensures cfg.Valid() && procs[pid].cfg == cfg && (pid !in spoilt ==> Inv(cfg, procs[pid].Now()))
      ensures forall k :: k in procs && k != pid ==> procs[k] != procs[pid]
    {
    }

    method DiscardOnly(pid: nat, process: AllocatorProcess.Process, pos: nat) returns (r: Result<Reply>)
      requires Valid() && pid in procs && procs[pid] == process && pid !in spoilt
      modifies this`flat, memory, memory.cache.buffer, memory.swap, process`blocks
      ensures var (img, reply) := Service.Memfree(cfg, old(ImageOf(pid)), pos);
              r.Ok? ==> r.value == reply && Valid() && Now() == old(Now())[pid := img] && ImageOf(pid) == img
      ensures r.Ok? ==> forall k :: k in procs && k != pid ==> ImageOf(k) == old(ImageOf(k))
      ensures var pages := FreedPages(cfg, old(process.Now()), pid, pos);
              && Completes(memory.cfg, old(Tables()), pages, r.Ok?)
              && (r.Ok? ==> Leaving(memory.cfg, old(Tables()), Tables(), pages))
      ensures Enough(memory.cfg, old(Tables()), 0) ==> r.Ok?
      ensures r == Ok(Done) && pid in flat.counts && flat.counts[pid] == 1 ==> IsHere(Tables(), PageId(pid, 1))
    {
      hide PagingRun.Sound, Space, Alone, Backed, Inv, Service.Memfree, Completes, Leaving, Enough, FreedPages,
        Matched, Valid, ValidBut, Tables, IsHere;
      ValidIsMatched();
      ValidFacts(pid);
      r := Discard(pid, process, pos);
      if r.Ok? {
        OthersStayValid(pid);
        AllValid(pid);
        OnlyOne(pid);
        forall k | k in procs && k != pid
          ensures ImageOf(k) == old(ImageOf(k))
        {
          assert Now()[k] == old(Now())[k];
        }
      }
    }

    method CompactIfNeeded(process: AllocatorProcess.Process) returns (compacted: bool)
      requires cfg.Valid() && process.cfg == cfg && Inv(cfg, process.Now())
      modifies process
      ensures process.Now() == CompactAll(cfg, old(process.Now()))
      ensures compacted <==> Compacts(cfg, old(process.Now()))
    {
      hide CompactAll, Compacts, Inv;
      CompactChanges(cfg, process.Now());
      var before := process.pages;
      process.CompactLoop();
      compacted := process.pages < before;
    }

    // -------------------------------------------------------------- writing and reading

    /** `memory_memwrite` for a process that exists */
    method MemwriteKnown(pid: nat, process: AllocatorProcess.Process, pos: nat, data: Bytes) returns (r: Result<Reply>)
      requires Matched() && pid in procs && procs[pid] == process && pid !in spoilt && Inv(cfg, process.Now())
      modifies this`flat, memory, memory.cache.buffer, memory.swap
      ensures r.Ok? ==> Matched() && Alone(old(flat), flat, cfg.pageSize, pid)
      ensures r.Ok? ==> (ImageOf(pid), r.value) == Service.Memwrite(cfg, old(ImageOf(pid)), pos, data)
      ensures var accepted := Service.Memwrite(cfg, old(ImageOf(pid)), pos, data).1 == Done;
              var pages := if accepted then PagesOf(pid, Pieces(pos, |data|, cfg.pageSize)) else [];
              && Completes(memory.cfg, old(Tables()), pages, r.Ok?)
              && (r.Ok? ==> Leaving(memory.cfg, old(Tables()), Tables(), pages))
    {
      hide Matched, Backed, PagingRun.Sound, Space, Becomes, Inv, RangeValid, Scatter, Pieces, Alone, Completes,
        Leaving, PagesOf, Tables;
      MatchedFacts(pid);
      ghost var img := ImageOf(pid);
      AloneItself(flat, cfg.pageSize, pid);
      CompletesNothing(memory.cfg, Tables());
      var valid := process.IsRangeValid(pos, |data|);
      if !valid {
        return Ok(Invalid);
      }
      var i := process.FindCovering(pos);
      if i == |process.blocks| {
        return Ok(Crash);
      }
      var left := process.blocks[i].addr + HEADER + process.blocks[i].size - pos;
      if left < |data| {
        return Ok(Invalid);
      }
      CoveredInside(cfg, img.heap, i, pos, |data|, Length(flat, pid, cfg.pageSize));
      var done := WriteRange(pid, pos, data);
      if done.Fail? {
        return Fail(done.fault);
      }
      BecomesCounts(old(flat), flat, cfg.pageSize, pid);
      StillMatched();
      AreAlone(old(flat), flat, cfg.pageSize, pid, Space(flat, pid, cfg.pageSize), 0);
      r := Ok(Done);
    }

    /** `memory_memwrite`: a request that is not accepted touches no page. */
    method Memwrite(pid: nat, pos: nat, data: Bytes) returns (r: Result<Reply>)
      requires Valid() && pid !in spoilt
      modifies this`flat, memory, memory.cache.buffer, memory.swap
      ensures r.Ok? ==> Valid() && (Now(), r.value) == Serve(cfg, old(Now()), Call(pid, Store(pos, data)))
      ensures var accepted := Serve(cfg, old(Now()), Call(pid, Store(pos, data))).1 == Done;
              var pages := if accepted then PagesOf(pid, Pieces(pos, |data|, cfg.pageSize)) else [];
              && Completes(memory.cfg, old(Tables()), pages, r.Ok?)
              && (r.Ok? ==> Leaving(memory.cfg, old(Tables()), Tables(), pages))
    {
      hide PagingRun.Sound, Space, Inv, Alone, Service.Memwrite, Backed, Completes, Leaving, PagesOf, Pieces,
        Matched, Valid, ValidBut, Tables;
      ValidIsMatched();
      CompletesNothing(memory.cfg, Tables());
      if pid !in procs {
        return Ok(Invalid);
      }
      ValidFacts(pid);
      r := MemwriteKnown(pid, procs[pid], pos, data);
      if r.Ok? {
        OthersStayValid(pid);
        AllValid(pid);
        OnlyOne(pid);
      }
    }

    /** `memory_memread` for a process that exists */
    method MemreadKnown(pid: nat, process: AllocatorProcess.Process, pos: nat, buffer: Bytes)
      returns (r: Result<Option<Bytes>>)
      requires Matched() && pid in procs && procs[pid] == process && pid !in spoilt && Inv(cfg, process.Now())
      modifies this`flat, memory, memory.cache.buffer, memory.swap
      ensures r.Ok? ==> Backed() && flat.mem == old(flat.mem) && flat.counts == old(flat.counts)
      ensures r.Ok? ==> r.value == Service.Memread(cfg, old(ImageOf(pid)), pos, buffer)
      ensures var accepted := Service.Memread(cfg, old(ImageOf(pid)), pos, buffer).Some?;
              var pages := if accepted then PagesOf(pid, Pieces(pos, |buffer|, cfg.pageSize)) else [];
              && Completes(memory.cfg, old(Tables()), pages, r.Ok?)
              && (r.Ok? ==> Leaving(memory.cfg, old(Tables()), Tables(), pages))
    {
      hide Backed, PagingRun.Sound, Inv, RangeValid, Gather, Pieces, Space, Completes, Leaving, PagesOf;
      BackedConfig();
      CompletesNothing(memory.cfg, Tables());
      ghost var img := ImageOf(pid);
      var valid := process.IsRangeValid(pos, |buffer|);
      if !valid {
        return Ok(None);
      }
      ValidInside(cfg, img.heap, pos, |buffer|, Length(flat, pid, cfg.pageSize));
      var read := ReadRange(pid, pos, buffer);
      if read.Fail? {
        return Fail(read.fault);
      }
      r := Ok(Some(read.value));
    }

    /** `memory_memread`; the answer is missing when the range is refused. */
    method Memread(pid: nat, pos: nat, buffer: Bytes) returns (r: Result<Option<Bytes>>)
      requires Valid() && pid !in spoilt
      modifies this`flat, memory, memory.cache.buffer, memory.swap
      ensures r.Ok? ==> Valid() && Now() == old(Now())
      ensures r.Ok? ==> r.value == if pid in Now() then Service.Memread(cfg, Now()[pid], pos, buffer) else None
      ensures var accepted := pid in old(Now()) && Service.Memread(cfg, old(Now())[pid], pos, buffer).Some?;
              var pages := if accepted then PagesOf(pid, Pieces(pos, |buffer|, cfg.pageSize)) else [];
              && Completes(memory.cfg, old(Tables()), pages, r.Ok?)
              && (r.Ok? ==> Leaving(memory.cfg, old(Tables()), Tables(), pages))
    {
      hide PagingRun.Sound, Inv, Pieces, Space, Completes, Leaving, PagesOf, Service.Memread, Backed;
      BackedConfig();
      CompletesNothing(memory.cfg, Tables());
      if pid !in procs {
        return Ok(None);
      }
      r := MemreadKnown(pid, procs[pid], pos, buffer);
      if r.Ok? {
        SameImages();
      }
    }

    /** The images depend on the pages and the lists only. */
    twostate lemma SameImages()
      requires cfg.Valid() && flat.mem == old(flat.mem) && flat.counts == old(flat.counts) && procs == old(procs)
      requires forall k :: k in procs ==> unchanged(procs[k])
      ensures Now() == old(Now())
    {
      hide Space;
      forall k: nat
        ensures Space(flat, k, cfg.pageSize) == Space(old(flat), k, cfg.pageSize)
      {
        SameSpace(old(flat), flat, k, cfg.pageSize);
      }
    }
  }

  // ---------------------------------------------------------------- what a request does to the frames

  lemma WriteLosesNone(cfg: Paging.Config, s: Paging.State, f: PagingRun.Flat, p: PageId, offset: nat, data: Bytes,
      choice: nat, s': Paging.State, gone: set<nat>)
    requires PagingRun.Sound(cfg, s, f) && p in f.mem && choice < |s.tlb| && Compaction.LostTo(s.frames, gone)
    requires Paging.WritePage(cfg, s, p, offset, data, choice).Ok?
        && Paging.WritePage(cfg, s, p, offset, data, choice).value.0 == s'
    ensures Compaction.LostTo(s'.frames, gone) && IsHere(s', p)
  {
    hide PagingRun.Sound, Compaction.LostTo, Compaction.SameLost, Paging.WritePage;
    Compaction.StepLosesNone(cfg, s, f, PagingRun.Write(p, offset, data), choice, s', None);
    Compaction.LostToAgain(s.frames, s'.frames, gone);
  }

  lemma ReadLosesNone(cfg: Paging.Config, s: Paging.State, f: PagingRun.Flat, p: PageId, offset: nat, size: nat,
      choice: nat, s': Paging.State, gone: set<nat>)
    requires PagingRun.Sound(cfg, s, f) && p in f.mem && choice < |s.tlb| && Compaction.LostTo(s.frames, gone)
    requires Paging.ReadPage(cfg, s, p, offset, size, choice).Ok?
        && Paging.ReadPage(cfg, s, p, offset, size, choice).value.0 == s'
    ensures Compaction.LostTo(s'.frames, gone)
  {
    hide PagingRun.Sound, Compaction.LostTo, Compaction.SameLost, Paging.ReadPage;
    Compaction.StepLosesNone(cfg, s, f, PagingRun.Read(p, offset, size), choice, s',
        Paging.ReadPage(cfg, s, p, offset, size, choice).value.1);
    Compaction.LostToAgain(s.frames, s'.frames, gone);
  }

  lemma CreateLosesNone(cfg: Paging.Config, s: Paging.State, f: PagingRun.Flat, pid: nat, choice: nat,
      s': Paging.State, gone: set<nat>)
    requires PagingRun.Sound(cfg, s, f) && pid in f.counts && choice < |s.tlb| && Compaction.LostTo(s.frames, gone)
    requires Paging.CreatePage(cfg, s, pid, choice) == Ok(s')
    ensures Compaction.LostTo(s'.frames, gone)
  {
    hide PagingRun.Sound, Compaction.LostTo, Compaction.SameLost, Paging.CreatePage;
    Compaction.StepLosesNone(cfg, s, f, PagingRun.Create(pid), choice, s', None);
    Compaction.LostToAgain(s.frames, s'.frames, gone);
  }

  lemma OnlyPage(s: Paging.State, f: PagingRun.Flat, pid: nat)
    requires pid in f.counts && f.counts[pid] == 1 && IsHere(s, PageId(pid, 1))
    ensures Compaction.HasOnePage(s, f, pid)
  {
  }

  lemma OrphanLoses(s: Paging.State, f: PagingRun.Flat, pid: nat, gone: set<nat>)
    requires Compaction.LostTo(s.frames, gone) && pid in gone
    ensures Compaction.LostTo(Paging.Orphaned(s, pid).frames, gone) && |Paging.Orphaned(s, pid).tlb| == |s.tlb|
  {
  }

  lemma DroppedAlone(f: PagingRun.Flat, pid: nat, ps: nat)
    requires pid in f.counts
    ensures Alone(f, Compaction.Dropped(f, pid), ps, pid) && Compaction.Dropped(f, pid).counts == f.counts[pid := 0]
  {
    hide PageOf, OffsetOf;
  }

  // ---------------------------------------------------------------- what a request asks of the pager

  predicate Inside(b: Block, length: int) {
    0 <= b.addr && b.Data() <= length
  }

  /** The block that an allocation looks up again is inside the pages. */
  predicate FoundIsInside(cfg: Config, h: Heap, size: nat, plan: Plan)
    requires cfg.Valid()
    requires plan.InFree? ==> FirstFit(h.blocks, size) < |h.blocks|
    requires plan.NewPages? ==> Room(cfg, h) < size + HEADER
  {
    var (h', reply) := Allocate(cfg, h, size, plan);
    reply.Granted? ==>
      var i := First(h'.blocks, Covers(reply.pos));
      i < |h'.blocks| ==> Inside(h'.blocks[i], h'.pages * cfg.pageSize)
  }

  lemma AllocateGrants(cfg: Config, h: Heap, size: nat, plan: Plan)
    requires cfg.Valid() && plan != NoSpace
    requires plan.InFree? ==> FirstFit(h.blocks, size) < |h.blocks|
    requires plan.NewPages? ==> Room(cfg, h) < size + HEADER
    ensures Allocate(cfg, h, size, plan).1.Granted?
  {
    hide FirstFit, Room, AssignInFree, AssignAtEnd;
  }

  /** The pages of the header of a block. */
  function HeaderPages(pid: nat, b: Block, ps: nat): seq<PageId>
    requires ps >= 1
  {
    if b.addr < 0 then [] else PagesOf(pid, Pieces(b.addr, HEADER, ps))
  }

  /** The pages of the header that a release writes. */
  function FreedPages(cfg: Config, h: Heap, pid: nat, pos: nat): seq<PageId>
    requires cfg.Valid()
  {
    match Freeable(cfg, h, pos)
    case None => []
    case Some(i) =>
      var (blocks, k) := Allocator.Release(h.blocks, i);
      if k < |blocks| then HeaderPages(pid, blocks[k], cfg.pageSize) else []
  }

  /** How many pages a strategy creates. */
  function Asked(cfg: Config, h: Heap, size: nat, plan: Plan): nat
    requires cfg.Valid()
  {
    if plan.NewPages? && Room(cfg, h) < size + HEADER then PagesNeeded(cfg, Room(cfg, h), size) else 0
  }

  function AskedFor(cfg: Config, h: Heap, size: nat, answer: int): nat
    requires cfg.Valid()
  {
    Asked(cfg, h, size, CheckAlloc(cfg, h, size, answer))
  }

  /** How many pages an allocation creates. */
  function PagesAsked(cfg: Config, sys: System, pid: nat, size: nat, answer: int): nat
    requires cfg.Valid()
  {
    if pid in sys then AskedFor(cfg, sys[pid].heap, size, answer)
    else if answer == 0 then 0
    else Asked(cfg, Heap([], 0), size, NewPages)
  }

  predicate Misorders(cfg: Config, h: Heap, size: nat, answer: int) {
    CheckAlloc(cfg, h, size, answer).InFree? && Misplaces(cfg, h.blocks, size)
  }

  lemma NewIsNotSpoilt(cfg: Config, sys: System, call: Call)
    requires cfg.Valid() && call.pid !in sys
    ensures !Spoils(cfg, sys, call)
  {
  }

  lemma ServeNew(cfg: Config, sys: System, pid: nat, size: nat, answer: int)
    requires cfg.Valid() && pid !in sys
    ensures var (img, reply) := Service.MemallocFirst(cfg, size, answer);
            Serve(cfg, sys, Call(pid, Malloc(size, answer))) ==
                (if reply == OutOfSpace then sys else sys[pid := img], reply)
    ensures PagesAsked(cfg, sys, pid, size, answer) ==
            if answer == 0 then 0 else Asked(cfg, Heap([], 0), size, NewPages)
  {
    hide Service.MemallocFirst, Asked;
  }

  lemma NothingAsked(cfg: Config, h: Heap, size: nat)
    requires cfg.Valid()
    ensures Asked(cfg, h, size, NoSpace) == 0
  {
  }

  lemma {:induction false} PiecesOnPages(pos: nat, n: nat, ps: nat, count: nat)
    requires ps >= 1 && pos + n <= count * ps
    ensures forall i :: 0 <= i < |Pieces(pos, n, ps)| ==> Pieces(pos, n, ps)[i].page < count
    decreases n
  {
    hide PageOf, OffsetOf, Left;
    if n > 0 {
      PageInCount(pos, count, ps);
      if n > Left(pos, ps) {
        PiecesOnPages(pos + Left(pos, ps), n - Left(pos, ps), ps, count);
      }
    }
  }

  lemma {:induction false} LastPieceOnPages(pos: nat, n: nat, ps: nat, count: nat)
    requires ps >= 1 && pos + n <= count * ps
    ensures var list := Pieces(pos, n, ps); n > 0 ==> |list| > 0 && list[|list| - 1].page < count
  {
    PiecesOnPages(pos, n, ps, count);
    hide PageOf, OffsetOf, Left;
  }

  lemma RoomDecides(cfg: Paging.Config, s: Paging.State, f: PagingRun.Flat, ps: seq<PageId>, ok: bool)
    requires PagingRun.Sound(cfg, s, f) && Known(s, ps) && Completes(cfg, s, ps, ok)
    ensures Enough(cfg, s, 0) ==> ok
  {
    hide PagingRun.Sound, Completes, Enough, Known;
    if Enough(cfg, s, 0) {
      EnoughCompletes(cfg, s, f, ps, ok);
    }
  }

  lemma EnoughCreates(cfg: Paging.Config, s: Paging.State, n: nat, ok: bool)
    requires Creates(cfg, s, n, ok)
    ensures Enough(cfg, s, n) ==> ok
  {
    hide Capacity.Spare, Capacity.AllSaved;
  }

  lemma {:induction false} NoPieces(pos: nat, ps: nat)
    requires ps >= 1
    ensures Pieces(pos, 0, ps) == []
  {
  }

  lemma {:induction false} ScatterStep(space: Bytes, ps: nat, list: seq<Piece>, i: nat, data: Bytes, start: nat)
    requires i < |list| && start + list[i].size <= |data|
    ensures Scatter(space, ps, list[i..], data, start) ==
            Scatter(Paging.Patch(space, Where(list[i], ps), data[start..start + list[i].size]), ps, list[i + 1..], data,
                list[i].size)
  {
    hide Paging.Patch, AddressOf;
    assert list[i..][1..] == list[i + 1..];
  }

  lemma {:induction false} ScatterDone(space: Bytes, ps: nat, list: seq<Piece>, data: Bytes, start: nat)
    requires |list| == 0
    ensures Scatter(space, ps, list, data, start) == space
  {
  }

  lemma PageIsSized(cfg: Paging.Config, s: Paging.State, flat: PagingRun.Flat, p: PageId)
    requires PagingRun.Sound(cfg, s, flat) && p.pid in flat.counts && 1 <= p.num <= flat.counts[p.pid]
    ensures p in flat.mem && |flat.mem[p]| == cfg.pageSize
  {
    hide PagingRun.Follows;
  }

  lemma {:induction false} GatherStep(space: Bytes, ps: nat, list: seq<Piece>, i: nat, buffer: Bytes, start: nat)
    requires i < |list|
    ensures Gather(space, ps, list[i..], buffer, start) ==
            Gather(space, ps, list[i + 1..], Paging.Patch(buffer, start, Part(space, Where(list[i], ps), list[i].size)),
                list[i].size)
  {
    hide Paging.Patch, AddressOf, Part;
    assert list[i..][1..] == list[i + 1..];
  }

  lemma {:induction false} GatherDone(space: Bytes, ps: nat, list: seq<Piece>, buffer: Bytes, start: nat)
    requires |list| == 0
    ensures Gather(space, ps, list, buffer, start) == buffer
  {
  }

  lemma SameSpace(before: PagingRun.Flat, after: PagingRun.Flat, pid: nat, ps: nat)
    requires ps >= 1 && after.mem == before.mem && after.counts == before.counts
    ensures Space(after, pid, ps) == Space(before, pid, ps)
  {
    hide PageOf, OffsetOf;
  }

  lemma BecomesCounts(before: PagingRun.Flat, after: PagingRun.Flat, ps: nat, pid: nat)
    requires ps >= 1
    ensures forall space :: Becomes(before, after, ps, pid, space) ==>
        after.counts == before.counts && Space(after, pid, ps) == space
  {
  }

  lemma ExtendsCounts(before: PagingRun.Flat, after: PagingRun.Flat, ps: nat, pid: nat, count: nat)
    requires ps >= 1 && Extends(before, after, ps, pid, count)
    ensures pid in before.counts && after.counts == before.counts[pid := before.counts[pid] + count]
  {
  }

  lemma AloneItself(flat: PagingRun.Flat, ps: nat, pid: nat)
    requires ps >= 1
    ensures Alone(flat, flat, ps, pid)
  {
  }

  lemma AssignedInFree(cfg: Config, img: Image, size: nat, blocks: seq<Block>, rest: Option<Block>)
    requires cfg.Valid() && FirstFit(img.heap.blocks, size) < |img.heap.blocks|
        && blocks == AssignInFree(cfg, img.heap.blocks, size).0
    requires var b := img.heap.blocks[FirstFit(img.heap.blocks, size)];
             rest == if Splits(b, size) then Some(Block(b.addr + size + HEADER, b.size - size - HEADER, true)) else None
    ensures var taken := Image(Heap(blocks, img.heap.pages), img.space);
            Assigned(cfg, img, size, InFree) == if rest.Some? then Service.Persist(cfg, taken, rest.value) else taken
  {
    hide AssignInFree, Service.Persist, FirstFit, Splits;
    assert img.space + [] == img.space;
  }

  lemma RestInside(cfg: Config, h: Heap, size: nat, rest: Block, length: nat)
    requires cfg.Valid() && Inv(cfg, h) && FirstFit(h.blocks, size) < |h.blocks| && length == h.pages * cfg.pageSize
    requires var b := h.blocks[FirstFit(h.blocks, size)]; Splits(b, size) && rest.addr == b.addr + size + HEADER
    ensures 0 <= rest.addr && rest.Data() <= length
  {
    BlockInSpace(h.blocks, FirstFit(h.blocks, size));
  }

  lemma ExtendsSpace(before: PagingRun.Flat, after: PagingRun.Flat, ps: nat, pid: nat, count: nat)
    requires ps >= 1 && Extends(before, after, ps, pid, count)
    ensures pid in before.counts && pid in after.counts && after.counts[pid] == before.counts[pid] + count
    ensures Space(after, pid, ps) == Space(before, pid, ps) + Blanks(count * ps)
  {
  }

  /** Taking new pages is adding them and then taking the end. */
  lemma AssignedNew(cfg: Config, img: Image, size: nat, grown: Image)
    requires cfg.Valid() && Room(cfg, img.heap) < size + HEADER
    requires var count := PagesNeeded(cfg, Room(cfg, img.heap), size);
             count >= 1 && grown ==
                 Image(Heap(img.heap.blocks, img.heap.pages + count), img.space + Blanks(count * cfg.pageSize))
    ensures Assigned(cfg, img, size, NewPages) == Assigned(cfg, grown, size, AtEnd)
  {
    hide Room, PagesNeeded, AssignAtEnd;
    assert grown.space + [] == grown.space;
  }

  lemma BlockInside(cfg: Config, h: Heap, i: nat, length: nat)
    requires cfg.Valid() && Inv(cfg, h) && i < |h.blocks| && length == h.pages * cfg.pageSize
    ensures 0 <= h.blocks[i].addr && h.blocks[i].Data() <= length
  {
    BlockInSpace(h.blocks, i);
  }

  lemma AssignedHeap(cfg: Config, img: Image, size: nat, plan: Plan)
    requires cfg.Valid()
    requires plan.InFree? ==> FirstFit(img.heap.blocks, size) < |img.heap.blocks|
    requires plan.NewPages? ==> Room(cfg, img.heap) < size + HEADER
    ensures Assigned(cfg, img, size, plan).heap == Allocate(cfg, img.heap, size, plan).0
  {
    hide Allocate, Service.Persist;
  }

  /** The blocks that a first-fit allocation leaves are inside the pages, wherever the remainder is put. */
  lemma InFreeInside(cfg: Config, blocks: seq<Block>, size: nat, length: nat)
    requires Tiled(blocks) && End(blocks) <= length && FirstFit(blocks, size) < |blocks|
    ensures forall b :: b in AssignInFree(cfg, blocks, size).0 ==> Inside(b, length)
  {
    var i := FirstFit(blocks, size);
    forall k: nat | k < |blocks|
      ensures Inside(blocks[k], length) && blocks[k].End() <= length && 0 <= blocks[k].addr
    {
      BlockInSpace(blocks, k);
    }
    hide Tiled, FirstFit;
  }

  lemma HeapInside(cfg: Config, h: Heap)
    requires cfg.Valid() && Inv(cfg, h)
    ensures forall b :: b in h.blocks ==> Inside(b, h.pages * cfg.pageSize)
  {
    forall k: nat | k < |h.blocks|
      ensures Inside(h.blocks[k], h.pages * cfg.pageSize)
    {
      BlockInSpace(h.blocks, k);
    }
  }

  /** The block found for the header is inside the pages. */
  lemma FoundInside(cfg: Config, h: Heap, size: nat, answer: int)
    requires cfg.Valid() && Inv(cfg, h)
    requires Allocator.Memalloc(cfg, h, size, answer).1 != Crash
    ensures var h' := Allocator.Memalloc(cfg, h, size, answer).0;
            && (forall b :: b in h'.blocks ==> Inside(b, h'.pages * cfg.pageSize))
            && (!Misorders(cfg, h, size, answer) ==> Inv(cfg, h'))
  {
    hide Inv, Misplaces, AssignInFree, AssignAtEnd, PagesNeeded, Room, FirstFit;
    var h' := Allocator.Memalloc(cfg, h, size, answer).0;
    if Misorders(cfg, h, size, answer) {
      PlanIsReady(cfg, h, size, answer);
      TiledInside(cfg, h);
      InFreeInside(cfg, h.blocks, size, h.pages * cfg.pageSize);
    } else {
      AllocationSpares(cfg, h, size, answer);
      HeapInside(cfg, h');
    }
  }

  lemma TiledInside(cfg: Config, h: Heap)
    requires cfg.Valid() && Inv(cfg, h)
    ensures Tiled(h.blocks) && End(h.blocks) <= h.pages * cfg.pageSize
  {
  }

  /** An allocation in the steps the source takes: assign, look the block up again, write its header. */
  lemma MemallocParts(cfg: Config, img: Image, size: nat, answer: int)
    requires cfg.Valid() && Inv(cfg, img.heap)
    ensures var plan := CheckAlloc(cfg, img.heap, size, answer);
            && (plan.InFree? ==> FirstFit(img.heap.blocks, size) < |img.heap.blocks|)
            && (plan.NewPages? ==> Room(cfg, img.heap) < size + HEADER)
            && (plan == NoSpace ==>
                  Service.Memalloc(cfg, img, size, answer) == (img, OutOfSpace)
                      && !Misorders(cfg, img.heap, size, answer))
            && (plan != NoSpace ==>
                  var (h, reply) := Allocate(cfg, img.heap, size, plan);
                  && reply.Granted? && FoundIsInside(cfg, img.heap, size, plan)
                  && var i := First(h.blocks, Covers(reply.pos));
                     if i < |h.blocks|
                     then
                       && (!Misorders(cfg, img.heap, size, answer) ==> Inv(cfg, h))
                       && Service.Memalloc(cfg, img, size, answer) ==
                            (Service.Persist(cfg, Assigned(cfg, img, size, plan), h.blocks[i]), reply)
                     else Service.Memalloc(cfg, img, size, answer).1 == Crash)
  {
    hide Inv, FirstFit, Misplaces, Room, CheckAlloc, Service.Persist, Remainder, AssignInFree, AssignAtEnd, Inside;
    PlanIsReady(cfg, img.heap, size, answer);
    var plan := CheckAlloc(cfg, img.heap, size, answer);
    if plan == NoSpace {
      NothingGrown(cfg, img, Remainder(img.heap.blocks, size, plan));
    } else if Allocator.Memalloc(cfg, img.heap, size, answer).1 != Crash {
      FoundInside(cfg, img.heap, size, answer);
    }
  }

  lemma RegisterAlone(cfg: Paging.Config, flat: PagingRun.Flat, pid: nat, ps: nat)
    requires ps >= 1 && pid !in flat.counts
    ensures var after := PagingRun.FlatStep(cfg, flat, PagingRun.Register(pid)).0;
            Alone(flat, after, ps, pid) && Space(after, pid, ps) == [] && after.counts == flat.counts[pid := 0]
  {
    forall k: nat
      ensures Space(PagingRun.FlatStep(cfg, flat, PagingRun.Register(pid)).0, k, ps) == Space(flat, k, ps)
    {
      RegisterOnSpace(cfg, flat, pid, ps, k);
    }
    assert 0 * ps == 0;
    hide ByteAt;
  }

  lemma FirstReplies(cfg: Config, size: nat, answer: int)
    requires cfg.Valid()
    ensures var reply := Service.MemallocFirst(cfg, size, answer).1;
            (reply == OutOfSpace || reply.Granted? || reply == Crash) && (reply == OutOfSpace <==> answer == 0)
  {
    hide Sealed, Grow;
  }

  lemma FirstParts(cfg: Config, size: nat, answer: int)
    requires cfg.Valid()
    ensures Room(cfg, Heap([], 0)) == 0
    ensures answer == 0 ==> Service.MemallocFirst(cfg, size, answer).1 == OutOfSpace
    ensures answer != 0 ==>
              var none := Image(Heap([], 0), []);
              var (h, reply) := Allocate(cfg, none.heap, size, NewPages);
              var i := First(h.blocks, Covers(reply.pos));
              && reply == Granted(AssignAtEnd([], size).1) && Inv(cfg, none.heap)
              && FoundIsInside(cfg, none.heap, size, NewPages)
              && if i < |h.blocks|
                 then
                   && Inv(cfg, h)
                   && Service.MemallocFirst(cfg, size, answer) ==
                        (Service.Persist(cfg, Assigned(cfg, none, size, NewPages), h.blocks[i]), reply)
                 else Service.MemallocFirst(cfg, size, answer).1 == Crash
  {
    assert Room(cfg, Heap([], 0)) == 0 * cfg.pageSize;
    hide Service.Persist, Coalesced;
    if answer != 0 {
      var none := Image(Heap([], 0), []);
      var h := Allocate(cfg, none.heap, size, NewPages).0;
      assert h.blocks == [Block(0, size, false)];
      if size >= 1 {
        NoneIsIntact(cfg, none);
        AllocateKeeps(cfg, none.heap, size, NewPages);
        NoRemainder(size, NewPages);
        HeapInside(cfg, h);
      }
    }
  }

  lemma FreedBlock(cfg: Config, h: Heap, pos: nat)
    requires cfg.Valid() && Inv(cfg, h)
    ensures Freeable(cfg, h, pos).Some? ==>
              var i := Freeable(cfg, h, pos).value;
              i < |h.blocks| && Allocator.Release(h.blocks, i).1 < |Allocator.Release(h.blocks, i).0|
    ensures Inv(cfg, Free(cfg, h, pos).0)
  {
    FreeReleases(cfg, h, pos);
    hide Allocator.Release;
    if Freeable(cfg, h, pos).Some? {
      ReleasedBlocks(h.blocks, Freeable(cfg, h, pos).value);
    }
  }

  lemma MemfreeHeap(cfg: Config, img: Image, pos: nat)
    requires cfg.Valid()
    ensures var (after, reply) := Service.Memfree(cfg, img, pos);
            && (after.heap, reply) == Free(cfg, img.heap, pos)
            && (reply == Done || (reply == Invalid && after == img))
  {
    hide Allocator.Release, Service.Persist, Freeable;
  }

  lemma {:induction false} CompactChanges(cfg: Config, h: Heap)
    requires cfg.Valid() && Inv(cfg, h)
    ensures CompactAll(cfg, h).pages == h.pages - (if Compacts(cfg, h) then 1 else 0)
    ensures !Compacts(cfg, h) ==> CompactAll(cfg, h) == h
  {
    CompactsAtMostOnce(cfg, h);
    hide Compacts, Inv;
  }

  lemma CoveredInside(cfg: Config, h: Heap, i: nat, pos: nat, size: nat, length: nat)
    requires cfg.Valid() && Inv(cfg, h) && i < |h.blocks| && length == h.pages * cfg.pageSize
        && pos + size <= h.blocks[i].End()
    ensures pos + size <= length
  {
    BlockInSpace(h.blocks, i);
  }

  lemma ValidInside(cfg: Config, h: Heap, pos: nat, size: nat, length: nat)
    requires cfg.Valid() && Inv(cfg, h) && RangeValid(cfg, h, pos, size) && length == h.pages * cfg.pageSize
    ensures size == 0 || pos + size <= length
  {
    if size >= 1 {
      RangeCases(cfg, h, pos, size);
      BlockInSpace(h.blocks, First(h.blocks, Covers(pos)));
    }
  }
}
