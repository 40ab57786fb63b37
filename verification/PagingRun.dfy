/**
  Whole runs of the pager, against a memory that never evicts anything: requests by any processes, in any
  order, under both replacement algorithms and both allocation policies.
 */
module PagingRun {
  import opened Base
  import Swamp
  import opened Paging
  import opened PagingInvariant

  datatype Op =
    | Register(pid: nat)
    | Create(pid: nat)
    | Read(page: PageId, offset: nat, size: nat)
    | Write(page: PageId, offset: nat, data: Bytes)

  /** One request to the pager; `choice` is the TLB entry its replacement policy would give up. */
  function Step(cfg: Config, s: State, op: Op, choice: nat): Result<(State, Option<Bytes>)> {
    match op
    case Register(pid) => Ok((Paging.Register(s, pid), None))
    case Create(pid) =>
      var s' :- CreatePage(cfg, s, pid, choice);
      Ok((s', None))
    case Read(p, offset, size) => ReadPage(cfg, s, p, offset, size, choice)
    case Write(p, offset, data) =>
      var r :- WritePage(cfg, s, p, offset, data, choice);
      Ok((r.0, None))
  }

  // ---------------------------------------------------------------- the memory without paging

  /** Page contents, the pages of each process, and the pages in the order they were accessed. */
  datatype Flat = Flat(mem: map<PageId, Bytes>, counts: map<nat, nat>, trace: seq<PageId>)

  predicate Enabled(f: Flat, op: Op) {
    match op
    case Register(_) => true
    case Create(pid) => pid in f.counts
    case Read(p, _, _) => p in f.mem
    case Write(p, _, _) => p in f.mem
  }

  function FlatStep(cfg: Config, f: Flat, op: Op): (Flat, Option<Bytes>)
    requires Enabled(f, op)
  {
    match op
    case Register(pid) => (if pid in f.counts then f else f.(counts := f.counts[pid := 0]), None)
    case Create(pid) =>
      var p := PageId(pid, f.counts[pid] + 1);
      (Flat(f.mem[p := Blank(cfg)], f.counts[pid := p.num], f.trace + [p]), None)
    case Read(p, offset, size) => (f.(trace := f.trace + [p]), Slice(f.mem[p], offset, size))
    case Write(p, offset, data) =>
      (Flat(f.mem[p := Patch(f.mem[p], offset, data)], f.counts, f.trace + [p]), None)
  }

  // ---------------------------------------------------------------- the pager can always go on

  /** How many frames may be emptied on behalf of `pid`. */
  function Choices(cfg: Config, frames: seq<Frame>, pid: nat): nat {
    Count(frames, Wanted(cfg, pid))
  }

  ghost predicate Full(frames: seq<Frame>) {
    forall i :: 0 <= i < |frames| ==> frames[i].Holds?
  }

  /** No frame has been lost. */
  ghost predicate Whole(frames: seq<Frame>) {
    forall i :: 0 <= i < |frames| ==> !frames[i].Lost?
  }

  /**
    No frame is lost and the clock hands point into their candidate lists; under the fixed policy every process
    respects its quota and, once it has a page, keeps a frame; under the common pool nothing is absent until
    memory is full.
   */
  ghost predicate Ready(cfg: Config, s: State) {
    && |s.frames| >= 1 && |s.tlb| >= 1 && Whole(s.frames)
    && (forall pid :: Hand(cfg, s, pid) == 0 || Hand(cfg, s, pid) < Choices(cfg, s.frames, pid))
    && (cfg.allocation.Fixed? ==> forall pid :: pid in s.procs ==>
          && Choices(cfg, s.frames, pid) <= cfg.quota
          && (s.procs[pid].pages >= 1 ==> Choices(cfg, s.frames, pid) >= 1))
    && (cfg.allocation.Dynamic? ==> Full(s.frames) || forall p :: p in s.pages ==> s.pages[p].present)
  }

  // ---------------------------------------------------------------- recency

  /** One more than the position of the last access to `p`, or 0 when there was none. */
  function Last(trace: seq<PageId>, p: PageId): (r: nat)
    ensures r <= |trace|
  {
    if |trace| == 0 then 0
    else if trace[|trace| - 1] == p then |trace|
    else Last(trace[..|trace| - 1], p)
  }

  lemma {:induction false} LastOfLonger(trace: seq<PageId>, x: PageId, p: PageId)
    ensures Last(trace + [x], p) == if x == p then |trace| + 1 else Last(trace, p)
  {
    assert (trace + [x])[..|trace|] == trace;
  }

  /** Under LRU, time stamps order the pages as their last accesses do. */
  ghost predicate Follows(cfg: Config, s: State, trace: seq<PageId>) {
    cfg.replacement.Lru? ==>
      forall p, q :: p in s.pages && q in s.pages ==>
        (s.pages[p].stamp < s.pages[q].stamp <==> Last(trace, p) < Last(trace, q))
  }

  /** The pager holds the flat memory, whether or not it can go on. */
  ghost predicate Sound(cfg: Config, s: State, f: Flat) {
    && Core(cfg, s)
    && Refines(cfg, s, f.mem)
    && Follows(cfg, s, f.trace)
    && s.procs.Keys == f.counts.Keys
    && (forall pid :: pid in f.counts ==> s.procs[pid].pages == f.counts[pid])
    && forall p: PageId :: p in f.mem <==> p.pid in f.counts && 1 <= p.num <= f.counts[p.pid]
  }

  ghost predicate Simulates(cfg: Config, s: State, f: Flat) {
    Sound(cfg, s, f) && Ready(cfg, s)
  }

  // ---------------------------------------------------------------- accesses

  /** Same pages up to where they are; same processes up to their hands. */
  ghost predicate Moved(s: State, s': State) {
    && s'.pages.Keys == s.pages.Keys && s'.procs.Keys == s.procs.Keys
    && s'.clock == s.clock && |s'.tlb| == |s.tlb| && |s'.frames| == |s.frames|
    && (forall k :: k in s.procs ==> s'.procs[k].pages == s.procs[k].pages)
    && forall p :: p in s.pages ==> s'.pages[p].stamp == s.pages[p].stamp && s'.pages[p].modified == s.pages[p].modified
  }

  lemma PickMoves(cfg: Config, s: State, pid: nat, s': State, q: PageId)
    requires PickVictim(cfg, s, pid) == Ok((s', q))
    ensures Moved(s, s')
    ensures forall k ::
              Hand(cfg, s', k) == Hand(cfg, s, k)
              || (Hand(cfg, s', k) <= Choices(cfg, s.frames, pid) - 1 && (cfg.allocation.Fixed? ==> k == pid))
  {
  }

  lemma EvictMoves(cfg: Config, s: State, pid: nat, s': State, m: nat)
    requires Linked(s) && Evict(cfg, s, pid) == Ok((s', m))
    ensures Moved(s, s')
    ensures forall k ::
              Hand(cfg, s', k) == Hand(cfg, s, k)
              || (Hand(cfg, s', k) <= Choices(cfg, s.frames, pid) - 1 && (cfg.allocation.Fixed? ==> k == pid))
  {
    hide Evict, PickVictim, Saved, IsHeld;
    var s1, q, swap := EvictUnfolds(cfg, s, pid);
    PickMoves(cfg, s, pid, s1, q);
    PickedIsHeld(cfg, s, pid, s1, q);
    ReleaseTakes(cfg, s1, q, swap, pid);
  }

  lemma FaultInMoves(cfg: Config, s: State, p: PageId, s': State, m: nat)
    requires Linked(s) && p in s.pages && FaultIn(cfg, s, p) == Ok((s', m))
    ensures Moved(s, s')
    ensures forall k ::
              Hand(cfg, s', k) == Hand(cfg, s, k)
              || (Hand(cfg, s', k) <= Choices(cfg, s.frames, p.pid) - 1 && (cfg.allocation.Fixed? ==> k == p.pid))
  {
    hide Evict, Swamp.Read;
    EvictMoves(cfg, s, p.pid, Evict(cfg, s, p.pid).value.0, m);
  }

  /** Handing a frame of `pid` to a page of `pid` leaves every count of candidates as it was. */
  lemma TakesKeepsChoices(cfg: Config, s: State, s': State, pid: nat, m: nat, p: PageId, k: nat)
    requires Takes(cfg, s, s', pid, m, Holds(p)) && p.pid == pid
    ensures Choices(cfg, s'.frames, k) == Choices(cfg, s.frames, k)
    ensures Full(s.frames) ==> Full(s'.frames)
  {
    CountUpdate(s.frames, Wanted(cfg, k), m, Holds(p));
  }

  /** A page fault needs no candidate it cannot have. */
  lemma FaultInReady(cfg: Config, s: State, p: PageId, s': State, m: nat)
    requires Linked(s) && Ready(cfg, s) && p in s.pages && !s.pages[p].present
    requires FaultIn(cfg, s, p) == Ok((s', m)) && Takes(cfg, s, s', p.pid, m, Holds(p))
    ensures Ready(cfg, s')
  {
    hide FaultIn, Hand;
    FaultInMoves(cfg, s, p, s', m);
    forall k: nat
      ensures Choices(cfg, s'.frames, k) == Choices(cfg, s.frames, k) && (Full(s.frames) ==> Full(s'.frames))
    {
      TakesKeepsChoices(cfg, s, s', p.pid, m, p, k);
    }
    TakesKeepsChoices(cfg, s, s', p.pid, m, p, p.pid);
    forall k: nat
      ensures Hand(cfg, s', k) == 0 || Hand(cfg, s', k) < Choices(cfg, s'.frames, k)
    {
      if cfg.allocation.Dynamic? {
        SameChoices(cfg, s.frames, k, p.pid);
      }
    }
  }

  lemma {:induction false} SameChoices(cfg: Config, frames: seq<Frame>, a: nat, b: nat)
    requires cfg.allocation.Dynamic?
    ensures Choices(cfg, frames, a) == Choices(cfg, frames, b)
  {
    if |frames| > 0 {
      SameChoices(cfg, frames[..|frames| - 1], a, b);
    }
  }

  /** The tables agree, and the content is that of `mem`. */
  ghost predicate Good(cfg: Config, s: State, mem: map<PageId, Bytes>) {
    Core(cfg, s) && Refines(cfg, s, mem)
  }

  lemma ResolveHit(cfg: Config, s: State, p: PageId, choice: nat)
    requires Core(cfg, s) && p in s.pages && InTlb(s.tlb, p)
    ensures Resolve(cfg, s, p, choice) == Ok(s) && s.pages[p].present
  {
    hide FaultIn, Swamp.Inv;
    TablesAgree(cfg, s, p);
    PlaceAgain(s.pages, p);
  }

  lemma ResolveFound(cfg: Config, s: State, p: PageId, choice: nat)
    requires Core(cfg, s) && !InTlb(s.tlb, p) && FrameOf(s.frames, p) < |s.frames| && choice < |s.tlb|
    ensures var tlb := Load(s.tlb, p, FrameOf(s.frames, p), choice);
            && Resolve(cfg, s, p, choice) == Ok(s.(tlb := tlb)) && p in s.pages && s.pages[p].present
            && TlbAgrees(tlb, s.frames) && InTlb(tlb, p)
  {
    hide FaultIn, Swamp.Inv;
    TablesAgree(cfg, s, p);
    LoadKeeps(s.tlb, s.frames, p, FrameOf(s.frames, p), choice);
    PlaceAgain(s.pages, p);
  }

  lemma ResolveUnfolds(cfg: Config, s: State, p: PageId, choice: nat, s': State) returns (s1: State, m: nat)
    requires !InTlb(s.tlb, p) && FrameOf(s.frames, p) == |s.frames| && Resolve(cfg, s, p, choice) == Ok(s')
    ensures FaultIn(cfg, s, p) == Ok((s1, m))
    ensures s' == s1.(tlb := Load(s1.tlb, p, m, choice), pages := Place(s1.pages, p, m))
  {
    hide FaultIn;
    s1, m := FaultIn(cfg, s, p).value.0, FaultIn(cfg, s, p).value.1;
  }

  /** Writing down what a descriptor already says changes nothing. */
  lemma PlaceAgain(pages: map<PageId, Page>, p: PageId)
    requires p in pages && pages[p].present
    ensures Place(pages, p, pages[p].frame) == pages
  {
  }

  lemma ResolveFault(cfg: Config, s: State, p: PageId, choice: nat, mem: map<PageId, Bytes>, s': State)
    requires Good(cfg, s, mem) && p in s.pages && choice < |s.tlb|
    requires !InTlb(s.tlb, p) && FrameOf(s.frames, p) == |s.frames| && Resolve(cfg, s, p, choice) == Ok(s')
    ensures !s.pages[p].present
    ensures Good(cfg, s', mem) && Moved(s, s') && p in s'.pages && s'.pages[p].present && InTlb(s'.tlb, p)
    ensures Ready(cfg, s) ==> Ready(cfg, s')
  {
    hide Resolve, FaultIn, Linked, Resident, Sized, SwapAgrees, TlbAgrees, Stamped, Refines, Ready;
    var s1, m := ResolveUnfolds(cfg, s, p, choice, s');
    AbsentWhenNotFound(s, p);
    FaultInKeeps(cfg, s, p, mem, s1, m);
    PlaceAgain(s1.pages, p);
    FaultInMoves(cfg, s, p, s1, m);
    LoadKeeps(s1.tlb, s1.frames, p, m, choice);
    LoadedTlb(cfg, s1, s'.tlb, mem);
    if Ready(cfg, s) {
      FaultInReady(cfg, s, p, s1, m);
      LoadedReady(cfg, s1, s'.tlb);
    }
  }

  /**
    Resolving an address changes no content, keeps every table together, and leaves the page in memory and in the TLB.
   */
  lemma ResolveKeeps(cfg: Config, s: State, p: PageId, choice: nat, mem: map<PageId, Bytes>, s': State)
    requires Good(cfg, s, mem) && p in s.pages && choice < |s.tlb|
    requires Resolve(cfg, s, p, choice) == Ok(s')
    ensures Good(cfg, s', mem) && Moved(s, s') && p in s'.pages && s'.pages[p].present && InTlb(s'.tlb, p)
    ensures Ready(cfg, s) ==> Ready(cfg, s')
  {
    hide Resolve, Linked, Resident, Sized, SwapAgrees, TlbAgrees, Stamped, Refines, Ready;
    if InTlb(s.tlb, p) {
      ResolveHit(cfg, s, p, choice);
    } else if FrameOf(s.frames, p) < |s.frames| {
      ResolveFound(cfg, s, p, choice);
      LoadedTlb(cfg, s, s'.tlb, mem);
      if Ready(cfg, s) {
        LoadedReady(cfg, s, s'.tlb);
      }
    } else {
      ResolveFault(cfg, s, p, choice, mem, s');
    }
  }

  lemma AbsentWhenNotFound(s: State, p: PageId)
    requires Resident(s) && p in s.pages && FrameOf(s.frames, p) == |s.frames|
    ensures !s.pages[p].present
  {
    assert forall i :: 0 <= i < |s.frames| ==> !Is(p)(s.frames[i]);
  }

  /** Loading the TLB matters to the TLB only. */
  lemma LoadedTlb(cfg: Config, s: State, tlb: seq<Entry>, mem: map<PageId, Bytes>)
    requires Core(cfg, s) && Refines(cfg, s, mem) && TlbAgrees(tlb, s.frames)
    ensures Core(cfg, s.(tlb := tlb)) && Refines(cfg, s.(tlb := tlb), mem)
  {
    hide Refines, Swamp.Inv, Swamp.Fetch;
    LoadedContent(cfg, s, tlb, mem);
  }

  lemma LoadedContent(cfg: Config, s: State, tlb: seq<Entry>, mem: map<PageId, Bytes>)
    requires Refines(cfg, s, mem)
    ensures Refines(cfg, s.(tlb := tlb), mem)
  {
    hide Swamp.Fetch;
    assert forall p :: Content(s.(tlb := tlb), p) == Content(s, p);
  }

  lemma LoadedReady(cfg: Config, s: State, tlb: seq<Entry>)
    requires Ready(cfg, s) && |tlb| == |s.tlb|
    ensures Ready(cfg, s.(tlb := tlb))
  {
    assert forall pid :: Hand(cfg, s.(tlb := tlb), pid) == Hand(cfg, s, pid);
    hide Hand;
  }

  // ---------------------------------------------------------------- reading and writing

  /** Replaces the content of the frame of `p` and marks the access. */
  function Accessed(cfg: Config, s: State, p: PageId, content: Bytes, ticks: nat, write: bool): State {
    Touch(cfg, s.(cache := Put(s.cache, At(s.pages, p).frame, content)), p, ticks, write)
  }

  lemma AccessedTables(cfg: Config, s: State, p: PageId, content: Bytes, ticks: nat, write: bool)
    requires Core(cfg, s) && p in s.pages && s.pages[p].present && |content| == cfg.pageSize
    ensures var s' := Accessed(cfg, s, p, content, ticks, write);
            Linked(s') && Resident(s') && Sized(cfg, s') && TlbAgrees(s'.tlb, s'.frames) && Stamped(cfg, s')
  {
    hide Swamp.Inv, Swamp.Fetch, SwapAgrees;
    assert s.frames[s.pages[p].frame] == Holds(p);
  }

  lemma AccessedSwapAgrees(cfg: Config, s: State, p: PageId, content: Bytes, ticks: nat, write: bool)
    requires SwapAgrees(cfg, s) && p in s.pages && s.pages[p].present
    ensures SwapAgrees(cfg, Accessed(cfg, s, p, content, ticks, write))
  {
    hide Swamp.Inv, Swamp.Fetch;
  }

  lemma AccessedContent(cfg: Config, s: State, p: PageId, content: Bytes, ticks: nat, write: bool, q: PageId)
    requires Linked(s) && Resident(s) && p in s.pages && s.pages[p].present
    ensures Content(Accessed(cfg, s, p, content, ticks, write), q) == if q == p then content else Content(s, q)
  {
    hide Swamp.Fetch;
    if q != p && q in s.pages && s.pages[q].present {
      assert s.pages[q].frame != s.pages[p].frame;
    }
  }

  lemma AccessedRefines(cfg: Config, s: State, p: PageId, content: Bytes, ticks: nat, write: bool,
      mem: map<PageId, Bytes>)
    requires Linked(s) && Resident(s) && Refines(cfg, s, mem)
    requires p in s.pages && s.pages[p].present && |content| == cfg.pageSize && (write || content == Content(s, p))
    ensures Refines(cfg, Accessed(cfg, s, p, content, ticks, write), mem[p := content])
  {
    hide Swamp.Fetch, Content, Linked, Resident, Accessed;
    var s' := Accessed(cfg, s, p, content, ticks, write);
    AccessedPages(cfg, s, p, content, ticks, write);
    forall q | q in s.pages
      ensures Content(s', q) == if q == p then content else Content(s, q)
    {
      AccessedContent(cfg, s, p, content, ticks, write, q);
    }
  }

  lemma AccessedPages(cfg: Config, s: State, p: PageId, content: Bytes, ticks: nat, write: bool)
    requires p in s.pages
    ensures var pages := Accessed(cfg, s, p, content, ticks, write).pages;
            && pages.Keys == s.pages.Keys
            && (forall q :: q in s.pages && q != p ==> pages[q] == s.pages[q])
            && pages[p].present == s.pages[p].present
            && (cfg.replacement.MClock? ==> pages[p].modified == (s.pages[p].modified || write))
            && (cfg.replacement.Lru? ==> pages[p].modified == s.pages[p].modified)
  {
  }

  lemma AccessedReady(cfg: Config, s: State, p: PageId, content: Bytes, ticks: nat, write: bool)
    requires Ready(cfg, s) && p in s.pages && s.pages[p].present
    ensures Ready(cfg, Accessed(cfg, s, p, content, ticks, write))
  {
    var s' := Accessed(cfg, s, p, content, ticks, write);
    assert forall k :: Hand(cfg, s', k) == Hand(cfg, s, k);
  }

  /** An access to a page in memory writes its content to the flat memory, and nothing else. */
  lemma AccessedKeeps(cfg: Config, s: State, p: PageId, content: Bytes, ticks: nat, write: bool,
      mem: map<PageId, Bytes>)
    requires Good(cfg, s, mem) && p in s.pages && s.pages[p].present && |content| == cfg.pageSize
    requires write || content == Content(s, p)
    ensures Good(cfg, Accessed(cfg, s, p, content, ticks, write), mem[p := content])
    ensures Ready(cfg, s) ==> Ready(cfg, Accessed(cfg, s, p, content, ticks, write))
  {
    hide Accessed, Content, Linked, Resident, Sized, SwapAgrees, TlbAgrees, Stamped, Refines, Ready;
    AccessedTables(cfg, s, p, content, ticks, write);
    AccessedSwapAgrees(cfg, s, p, content, ticks, write);
    AccessedRefines(cfg, s, p, content, ticks, write, mem);
    if Ready(cfg, s) {
      AccessedReady(cfg, s, p, content, ticks, write);
    }
  }

  lemma AccessedFollows(cfg: Config, s: State, p: PageId, content: Bytes, ticks: nat, write: bool, trace: seq<PageId>)
    requires Stamped(cfg, s) && Follows(cfg, s, trace) && p in s.pages
    ensures Follows(cfg, Accessed(cfg, s, p, content, ticks, write), trace + [p])
  {
    forall q | q in s.pages
      ensures Last(trace + [p], q) == if q == p then |trace| + 1 else Last(trace, q)
    {
      LastOfLonger(trace, p, q);
    }
  }

  lemma MovedFollows(cfg: Config, s: State, s': State, trace: seq<PageId>)
    requires Follows(cfg, s, trace) && Moved(s, s')
    ensures Follows(cfg, s', trace)
  {
  }

  /** The content found in the frame of a resolved page is that of the flat memory. */
  lemma ResidentContent(cfg: Config, s: State, p: PageId, mem: map<PageId, Bytes>)
    requires Core(cfg, s) && Refines(cfg, s, mem) && p in s.pages && s.pages[p].present
    ensures Cached(s, At(s.pages, p).frame) == Content(s, p) == mem[p] && |mem[p]| == cfg.pageSize
    ensures Put(s.cache, At(s.pages, p).frame, mem[p]) == s.cache
  {
    hide Swamp.Inv, Swamp.Fetch;
  }

  /** A completed read answers with the flat bytes; a pager that could go on still can. */
  lemma ReadKeeps(cfg: Config, s: State, f: Flat, p: PageId, offset: nat, size: nat, choice: nat, s': State,
      out: Option<Bytes>)
    requires Sound(cfg, s, f) && p in f.mem && choice < |s.tlb|
    requires ReadPage(cfg, s, p, offset, size, choice) == Ok((s', out))
    ensures Sound(cfg, s', f.(trace := f.trace + [p])) && out == Slice(f.mem[p], offset, size)
    ensures (Ready(cfg, s) ==> Ready(cfg, s')) && |s'.tlb| == |s.tlb|
  {
    hide Resolve, Linked, Resident, Sized, SwapAgrees, TlbAgrees, Refines, Ready, Follows, Slice, Cached;
    assert p in s.pages by { RefinesKeys(cfg, s, f.mem); }
    var s1 := Resolve(cfg, s, p, choice).value;
    var ticks := Ticks(cfg, s, p);
    hide Ticks;
    ResolveKeeps(cfg, s, p, choice, f.mem, s1);
    ResidentContent(cfg, s1, p, f.mem);
    assert s' == Accessed(cfg, s1, p, f.mem[p], ticks, false);
    MovedFollows(cfg, s, s1, f.trace);
    AccessedFollows(cfg, s1, p, f.mem[p], ticks, false, f.trace);
    AccessedKeeps(cfg, s1, p, f.mem[p], ticks, false, f.mem);
    assert f.mem[p := f.mem[p]] == f.mem;
  }

  /** Byte for byte: a read answers unless the range leaves the page, and then with what the flat memory holds there. */
  lemma ReadReturns(cfg: Config, s: State, f: Flat, p: PageId, offset: nat, size: nat, choice: nat, s': State,
      out: Option<Bytes>)
    requires Sound(cfg, s, f) && p in f.mem && choice < |s.tlb|
    requires ReadPage(cfg, s, p, offset, size, choice) == Ok((s', out))
    ensures out.Some? <==> offset + size <= |f.mem[p]|
    ensures out.Some? ==> |out.value| == size && forall k :: 0 <= k < size ==> out.value[k] == f.mem[p][offset + k]
  {
    hide Sound, ReadPage, Slice;
    ReadKeeps(cfg, s, f, p, offset, size, choice, s', out);
    SliceReads(f.mem[p], offset, size);
  }

  lemma RefinesKeys(cfg: Config, s: State, mem: map<PageId, Bytes>)
    requires Refines(cfg, s, mem)
    ensures mem.Keys == s.pages.Keys
  {
  }

  /** A completed write patches the flat page; a pager that could go on still can. */
  lemma WriteKeeps(cfg: Config, s: State, f: Flat, p: PageId, offset: nat, data: Bytes, choice: nat, s': State,
      fits: bool)
    requires Sound(cfg, s, f) && p in f.mem && choice < |s.tlb|
    requires WritePage(cfg, s, p, offset, data, choice) == Ok((s', fits))
    ensures Sound(cfg, s', Flat(f.mem[p := Patch(f.mem[p], offset, data)], f.counts, f.trace + [p]))
    ensures Ready(cfg, s) ==> Ready(cfg, s')
    ensures (fits <==> offset + |data| <= cfg.pageSize) && |s'.tlb| == |s.tlb|
  {
    hide Resolve, Linked, Resident, Sized, SwapAgrees, TlbAgrees, Refines, Ready, Follows, Cached;
    assert p in s.pages by { RefinesKeys(cfg, s, f.mem); }
    var s1 := Resolve(cfg, s, p, choice).value;
    var ticks := Ticks(cfg, s, p);
    hide Ticks;
    ResolveKeeps(cfg, s, p, choice, f.mem, s1);
    ResidentContent(cfg, s1, p, f.mem);
    var content := Patch(f.mem[p], offset, data);
    hide Patch;
    assert s' == Accessed(cfg, s1, p, content, ticks, true);
    MovedFollows(cfg, s, s1, f.trace);
    AccessedFollows(cfg, s1, p, content, ticks, true, f.trace);
    AccessedKeeps(cfg, s1, p, content, ticks, true, f.mem);
  }

  // ---------------------------------------------------------------- creating pages

  /** Present pages never outnumber the frames, so that test of the source never decides anything. */
  lemma PresentBounded(s: State)
    requires Linked(s) && Resident(s)
    ensures |Present(s.pages)| <= |s.frames|
  {
    forall p | p in Present(s.pages)
      ensures p in HeldBy(s.frames)
    {
      assert s.frames[s.pages[p].frame] == Holds(p);
    }
    HeldBounded(s.frames);
    SubsetBounded(Present(s.pages), HeldBy(s.frames));
  }

  function HeldBy(frames: seq<Frame>): (r: set<PageId>)
    ensures forall i :: 0 <= i < |frames| && frames[i].Holds? ==> frames[i].page in r
  {
    if |frames| == 0 then {}
    else HeldBy(frames[1..]) + if frames[0].Holds? then {frames[0].page} else {}
  }

  lemma {:induction false} HeldBounded(frames: seq<Frame>)
    ensures |HeldBy(frames)| <= |frames|
  {
    if |frames| > 0 {
      HeldBounded(frames[1..]);
    }
  }

  lemma SubsetBounded(a: set<PageId>, b: set<PageId>)
    requires a <= b
    ensures |a| <= |b|
  {
    assert b == a + (b - a);
  }

  lemma CreatedStamped(cfg: Config, s: State, pid: nat, m: nat, choice: nat)
    requires Stamped(cfg, s)
    ensures Stamped(cfg, Created(cfg, s, pid, m, choice))
  {
    hide Load;
  }

  lemma CreatedTlb(cfg: Config, s: State, p: PageId, m: nat, choice: nat)
    requires Linked(s) && TlbAgrees(s.tlb, s.frames) && m < |s.frames| && s.frames[m].Free? && choice < |s.tlb|
    requires p !in s.pages && NotLost(s.frames, p)
    ensures TlbAgrees(Load(s.tlb, p, m, choice), s.frames[m := Holds(p)])
  {
    AbsentIsNotInTlb(s, p);
    FilledFrameAgrees(s.tlb, s.frames, p, m);
    LoadKeeps(s.tlb, s.frames[m := Holds(p)], p, m, choice);
  }

  lemma BringIsLocal(cfg: Config, s: State, tlb: seq<Entry>, procs: map<nat, Process>, clock: nat)
    requires Linked(s) && Resident(s) && Sized(cfg, s)
    ensures var s' := s.(tlb := tlb, procs := procs, clock := clock); Linked(s') && Resident(s') && Sized(cfg, s')
  {
  }

  lemma CreatedTables(cfg: Config, s: State, pid: nat, m: nat, choice: nat)
    requires Core(cfg, s) && m < |s.frames| && s.frames[m].Free? && choice < |s.tlb|
    requires var p := PageId(pid, Proc(s, pid).pages + 1); p !in s.pages && NotLost(s.frames, p)
    ensures var s' := Created(cfg, s, pid, m, choice);
            Linked(s') && Resident(s') && Sized(cfg, s') && TlbAgrees(s'.tlb, s'.frames)
  {
    hide SwapAgrees, Resident, TlbAgrees, Stamped, Load;
    var p := PageId(pid, Proc(s, pid).pages + 1);
    var page := Page(m, true, cfg.replacement.MClock?, false, if cfg.replacement.MClock? then 0 else s.clock);
    CreatedTlb(cfg, s, p, m, choice);
    var s' := Created(cfg, s, pid, m, choice);
    var s1 := Bring(s, p, m, Cached(s, m), page, s.swap);
    assert s'.frames == s.frames[m := Holds(p)] && s' == s1.(tlb := s'.tlb, procs := s'.procs, clock := s'.clock);
    assert |Cached(s, m)| == cfg.pageSize;
    hide Linked, Sized, Created, Bring;
    BringKeepsTables(cfg, s, p, m, Cached(s, m), page, s.swap);
    BringIsLocal(cfg, s1, s'.tlb, s'.procs, s'.clock);
  }

  lemma CreatedSwapAgrees(cfg: Config, s: State, pid: nat, m: nat, choice: nat)
    requires SwapAgrees(cfg, s) && PageId(pid, Proc(s, pid).pages + 1) !in s.pages
    ensures SwapAgrees(cfg, Created(cfg, s, pid, m, choice))
  {
    hide Swamp.Inv, Swamp.Fetch, Load;
  }

  lemma CreatedContent(cfg: Config, s: State, pid: nat, m: nat, choice: nat, q: PageId)
    requires Linked(s) && Resident(s) && Sized(cfg, s) && m < |s.frames| && s.frames[m].Free?
    requires q in s.pages || q == PageId(pid, Proc(s, pid).pages + 1)
    requires PageId(pid, Proc(s, pid).pages + 1) !in s.pages
    ensures Content(Created(cfg, s, pid, m, choice), q) ==
            if q == PageId(pid, Proc(s, pid).pages + 1) then Blank(cfg) else Content(s, q)
  {
    hide Load, Swamp.Fetch;
    var p := PageId(pid, Proc(s, pid).pages + 1);
    var page := Page(m, true, cfg.replacement.MClock?, false, if cfg.replacement.MClock? then 0 else s.clock);
    BroughtContent(s, p, m, Cached(s, m), page, s.swap, q);
  }

  lemma CreatedRefines(cfg: Config, s: State, pid: nat, m: nat, choice: nat, mem: map<PageId, Bytes>)
    requires Linked(s) && Resident(s) && Sized(cfg, s) && Refines(cfg, s, mem)
    requires m < |s.frames| && s.frames[m].Free? && PageId(pid, Proc(s, pid).pages + 1) !in s.pages
    ensures Refines(cfg, Created(cfg, s, pid, m, choice), mem[PageId(pid, Proc(s, pid).pages + 1) := Blank(cfg)])
  {
    hide Swamp.Fetch, Content, Load, Linked, Resident, Sized;
    var s' := Created(cfg, s, pid, m, choice);
    forall q | q in s'.pages
      ensures Content(s', q) == if q == PageId(pid, Proc(s, pid).pages + 1) then Blank(cfg) else Content(s, q)
    {
      CreatedContent(cfg, s, pid, m, choice, q);
    }
  }

  lemma CreatedFollows(cfg: Config, s: State, pid: nat, m: nat, choice: nat, trace: seq<PageId>)
    requires Stamped(cfg, s) && Follows(cfg, s, trace)
    requires PageId(pid, Proc(s, pid).pages + 1) !in s.pages
    ensures Follows(cfg, Created(cfg, s, pid, m, choice), trace + [PageId(pid, Proc(s, pid).pages + 1)])
  {
    var p := PageId(pid, Proc(s, pid).pages + 1);
    hide Load;
    forall q | q in s.pages || q == p
      ensures Last(trace + [p], q) == if q == p then |trace| + 1 else Last(trace, q)
    {
      LastOfLonger(trace, p, q);
    }
  }

  /** A new page starts blank, in its own frame and in the TLB. */
  lemma CreatedKeeps(cfg: Config, s: State, pid: nat, m: nat, choice: nat, mem: map<PageId, Bytes>)
    requires Core(cfg, s) && Refines(cfg, s, mem) && m < |s.frames| && s.frames[m].Free? && choice < |s.tlb|
    requires var p := PageId(pid, Proc(s, pid).pages + 1); p !in s.pages && NotLost(s.frames, p)
    ensures Core(cfg, Created(cfg, s, pid, m, choice))
    ensures Refines(cfg, Created(cfg, s, pid, m, choice), mem[PageId(pid, Proc(s, pid).pages + 1) := Blank(cfg)])
  {
    hide Created, Linked, Resident, Sized, SwapAgrees, TlbAgrees, Stamped, Refines;
    CreatedTables(cfg, s, pid, m, choice);
    CreatedStamped(cfg, s, pid, m, choice);
    CreatedSwapAgrees(cfg, s, pid, m, choice);
    CreatedRefines(cfg, s, pid, m, choice, mem);
  }

  lemma CreatedReadyFree(cfg: Config, s: State, pid: nat, m: nat, choice: nat)
    requires Ready(cfg, s) && pid in s.procs && m < |s.frames| && s.frames[m].Free?
    requires cfg.allocation.Fixed? ==> Choices(cfg, s.frames, pid) < cfg.quota
    ensures Ready(cfg, Created(cfg, s, pid, m, choice))
  {
    var s' := Created(cfg, s, pid, m, choice);
    forall k: nat
      ensures Hand(cfg, s', k) == Hand(cfg, s, k)
      ensures Choices(cfg, s'.frames, k) ==
              Choices(cfg, s.frames, k) + if cfg.allocation.Dynamic? || k == pid then 1 else 0
    {
      CountUpdate(s.frames, Wanted(cfg, k), m, s'.frames[m]);
    }
  }

  /** `Ready` seen through the counts and the hands only. */
  lemma ReadyAgain(cfg: Config, s: State, s': State, pid: nat)
    requires Ready(cfg, s) && |s'.frames| == |s.frames| && |s'.tlb| == |s.tlb| && s'.procs.Keys == s.procs.Keys
    requires forall k :: Choices(cfg, s'.frames, k) == Choices(cfg, s.frames, k)
    requires forall k ::
               Hand(cfg, s', k) == Hand(cfg, s, k)
               || (Hand(cfg, s', k) <= Choices(cfg, s.frames, pid) - 1 && (cfg.allocation.Fixed? ==> k == pid))
    requires forall k :: k in s.procs && k != pid ==> s'.procs[k].pages == s.procs[k].pages
    requires Choices(cfg, s.frames, pid) >= 1
    requires forall i :: 0 <= i < |s.frames| && s'.frames[i].Lost? ==> s.frames[i].Lost?
    requires cfg.allocation.Dynamic? ==> Full(s'.frames)
    ensures Ready(cfg, s')
  {
    hide Hand;
    forall k: nat
      ensures Hand(cfg, s', k) == 0 || Hand(cfg, s', k) < Choices(cfg, s'.frames, k)
    {
      if cfg.allocation.Dynamic? {
        SameChoices(cfg, s.frames, k, pid);
      }
    }
  }

  lemma CreatedShape(cfg: Config, s: State, pid: nat, m: nat, choice: nat)
    ensures var s', p := Created(cfg, s, pid, m, choice), PageId(pid, Proc(s, pid).pages + 1);
            && s'.frames == Put(s.frames, m, Holds(p)) && |s'.tlb| == |s.tlb| && s'.procs.Keys == s.procs.Keys + {pid}
            && (forall k :: k in s.procs && k != pid ==> s'.procs[k] == s.procs[k])
            && (forall q :: q in s.pages && q != p ==> q in s'.pages && s'.pages[q] == s.pages[q])
            && forall k :: Hand(cfg, s', k) == Hand(cfg, s, k)
  {
    hide Load;
  }

  lemma CreatedReadyEvicted(cfg: Config, s: State, pid: nat, s1: State, m: nat, choice: nat)
    requires Linked(s) && Ready(cfg, s) && pid in s.procs && Evict(cfg, s, pid) == Ok((s1, m))
    requires Takes(cfg, s, s1, pid, m, Free)
    requires cfg.allocation.Dynamic? ==> Full(s.frames)
    ensures Ready(cfg, Created(cfg, s1, pid, m, choice))
  {
    hide Created, Evict, Ready, Linked, Hand;
    var s', p := Created(cfg, s1, pid, m, choice), PageId(pid, Proc(s1, pid).pages + 1);
    EvictMoves(cfg, s, pid, s1, m);
    CreatedShape(cfg, s1, pid, m, choice);
    assert s'.frames == s.frames[m := Holds(p)];
    forall k: nat
      ensures Choices(cfg, s'.frames, k) == Choices(cfg, s.frames, k)
    {
      CountUpdate(s.frames, Wanted(cfg, k), m, Holds(p));
    }
    EvictedOwns(cfg, s, pid, m);
    ReadyAgain(cfg, s, s', pid);
  }

  lemma EvictedOwns(cfg: Config, s: State, pid: nat, m: nat)
    requires m < |s.frames| && Wanted(cfg, pid)(s.frames[m])
    ensures Choices(cfg, s.frames, pid) >= 1
  {
    CountPositive(s.frames, Wanted(cfg, pid));
  }

  lemma CreateUnfolds(cfg: Config, s: State, pid: nat, choice: nat, s': State) returns (s1: State, m: nat)
    requires CreatePage(cfg, s, pid, choice) == Ok(s')
    ensures if MayTakeFrame(cfg, s, pid) then s1 == s && m == First(s.frames, IsFree())
            else Evict(cfg, s, pid) == Ok((s1, m))
    ensures s' == Created(cfg, s1, pid, m, choice)
  {
    hide MayTakeFrame, Evict, Created;
    if MayTakeFrame(cfg, s, pid) {
      s1, m := s, First(s.frames, IsFree());
    } else {
      s1, m := Evict(cfg, s, pid).value.0, Evict(cfg, s, pid).value.1;
    }
  }

  lemma {:induction false} NoFreeFrameIsFull(frames: seq<Frame>)
    ensures First(frames, IsFree()) == |frames| && Whole(frames) ==> Full(frames)
  {
    if First(frames, IsFree()) == |frames| {
      assert forall i :: 0 <= i < |frames| ==> !IsFree()(frames[i]);
    }
  }

  lemma CreateGood(cfg: Config, s: State, f: Flat, pid: nat, choice: nat, s': State)
    returns (s1: State, m: nat)
    requires Sound(cfg, s, f) && pid in f.counts && choice < |s.tlb|
    requires NotLost(s.frames, PageId(pid, f.counts[pid] + 1))
    requires CreatePage(cfg, s, pid, choice) == Ok(s')
    ensures Core(cfg, s1) && Refines(cfg, s1, f.mem) && Moved(s, s1) && m < |s1.frames| && s1.frames[m].Free?
    ensures s' == Created(cfg, s1, pid, m, choice) && (Ready(cfg, s) ==> Ready(cfg, s')) && |s'.tlb| == |s1.tlb|
    ensures NotLost(s1.frames, PageId(pid, f.counts[pid] + 1))
  {
    hide CreatePage, Evict, Created, Sized, SwapAgrees, TlbAgrees, Stamped, Refines, Ready, Whole;
    s1, m := CreateUnfolds(cfg, s, pid, choice, s');
    CreatedShape(cfg, s1, pid, m, choice);
    if MayTakeFrame(cfg, s, pid) {
      if Ready(cfg, s) {
        CreatedReadyFree(cfg, s, pid, m, choice);
      }
    } else {
      EvictKeeps(cfg, s, pid, f.mem, s1, m);
      EvictMoves(cfg, s, pid, s1, m);
      if Ready(cfg, s) {
        NoneFreeIsFull(cfg, s, pid);
        CreatedReadyEvicted(cfg, s, pid, s1, m, choice);
      }
    }
  }

  /** Under the common pool a page that may not take a free frame finds memory full. */
  lemma NoneFreeIsFull(cfg: Config, s: State, pid: nat)
    requires Linked(s) && Resident(s) && Ready(cfg, s) && !MayTakeFrame(cfg, s, pid)
    ensures cfg.allocation.Dynamic? ==> Full(s.frames)
  {
    PresentBounded(s);
    NoFreeFrameIsFull(s.frames);
    hide Hand, Choices;
  }

  /** A new page is blank and the others keep their content; a pager that could go on still can. */
  lemma CreateKeeps(cfg: Config, s: State, f: Flat, pid: nat, choice: nat, s': State)
    requires Sound(cfg, s, f) && pid in f.counts && choice < |s.tlb|
    requires NotLost(s.frames, PageId(pid, f.counts[pid] + 1))
    requires CreatePage(cfg, s, pid, choice) == Ok(s')
    ensures Sound(cfg, s', FlatStep(cfg, f, Create(pid)).0) && |s'.tlb| == |s.tlb|
    ensures Ready(cfg, s) ==> Ready(cfg, s')
  {
    hide CreatePage, Linked, Resident, Sized, SwapAgrees, TlbAgrees, Ready, Follows, Stamped, Load;
    var s1, m := CreateGood(cfg, s, f, pid, choice, s');
    var p := PageId(pid, f.counts[pid] + 1);
    CreatedKeeps(cfg, s1, pid, m, choice, f.mem);
    MovedFollows(cfg, s, s1, f.trace);
    CreatedFollows(cfg, s1, pid, m, choice, f.trace);
    hide Refines;
  }
}
