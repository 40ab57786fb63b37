/**
  What `compactar_pagina` does to the pager: it takes the descriptor of a page away from its process and leaves the
  frame of the page marked, so the frame is neither free nor a candidate ever again.  This is worked out for processes
  with one page, whose compaction touches nothing else; with more pages the source frees the descriptor of the page
  that follows while that one is still in the list, and what later scans then read is undefined.
 */
module Compaction {
  import opened Base
  import Swamp
  import opened Paging
  import opened PagingInvariant
  import opened PagingRun
  import opened PagingTheorems
  import opened Capacity

  /** The flat memory once the only page of `pid` has gone. */
  function Dropped(f: Flat, pid: nat): Flat {
    Flat(f.mem - {PageId(pid, 1)}, f.counts[pid := 0], f.trace)
  }

  /** `pid` has one page, and it is in memory. */
  ghost predicate HasOnePage(s: State, f: Flat, pid: nat) {
    pid in f.counts && f.counts[pid] == 1 && At(s.pages, PageId(pid, 1)).present
  }

  // ---------------------------------------------------------------- what stays

  lemma OrphanShape(s: State, f: Flat, pid: nat)
    requires Linked(s) && Resident(s) && HasOnePage(s, f, pid)
    ensures var p, m := PageId(pid, 1), At(s.pages, PageId(pid, 1)).frame;
            && p in s.pages && m < |s.frames| && s.frames[m] == Holds(p)
            && Orphaned(s, pid).frames == s.frames[m := Lost(p)]
  {
  }

  lemma OrphanedTables(cfg: Config, s: State, f: Flat, pid: nat)
    requires Linked(s) && Resident(s) && Sized(cfg, s) && TlbAgrees(s.tlb, s.frames) && Stamped(cfg, s)
    requires HasOnePage(s, f, pid)
    ensures var s' := Orphaned(s, pid);
            Linked(s') && Resident(s') && Sized(cfg, s') && TlbAgrees(s'.tlb, s'.frames) && Stamped(cfg, s')
  {
    OrphanShape(s, f, pid);
  }

  lemma OrphanedSwap(cfg: Config, s: State, f: Flat, pid: nat)
    requires SwapAgrees(cfg, s) && HasOnePage(s, f, pid)
    ensures SwapAgrees(cfg, Orphaned(s, pid))
  {
    hide Swamp.Inv, Swamp.Fetch;
  }

  lemma OrphanedRefines(cfg: Config, s: State, f: Flat, pid: nat)
    requires Refines(cfg, s, f.mem)
    ensures Refines(cfg, Orphaned(s, pid), Dropped(f, pid).mem)
  {
    hide Swamp.Fetch;
    var s', mem := Orphaned(s, pid), Dropped(f, pid).mem;
    assert mem.Keys == s'.pages.Keys;
    assert forall p :: p in mem ==> Content(s', p) == Content(s, p);
  }

  /** The pages of the others keep their content and their places, and the frame of the page is lost. */
  lemma OrphanKeeps(cfg: Config, s: State, f: Flat, pid: nat)
    requires Sound(cfg, s, f) && HasOnePage(s, f, pid)
    ensures Sound(cfg, Orphaned(s, pid), Dropped(f, pid)) && |Orphaned(s, pid).tlb| == |s.tlb|
    ensures LostFrames(Orphaned(s, pid)) == LostFrames(s) + 1 && FreeFrames(Orphaned(s, pid)) == FreeFrames(s)
    ensures forall p :: p in s.pages && p.pid != pid ==>
              p in Orphaned(s, pid).pages && Orphaned(s, pid).pages[p] == s.pages[p]
  {
    hide Linked, Resident, Sized, SwapAgrees, TlbAgrees, Stamped, Refines, Count;
    OrphanedTables(cfg, s, f, pid);
    OrphanedSwap(cfg, s, f, pid);
    OrphanedRefines(cfg, s, f, pid);
    OrphanShape(s, f, pid);
    CountUpdate(s.frames, IsLost(), At(s.pages, PageId(pid, 1)).frame, Lost(PageId(pid, 1)));
    CountUpdate(s.frames, Paging.IsFree(), At(s.pages, PageId(pid, 1)).frame, Lost(PageId(pid, 1)));
  }

  // ---------------------------------------------------------------- runs with compactions

  datatype Event = Ask(request: Request) | Compacts(pid: nat)

  function EventStep(cfg: Config, s: State, e: Event): Result<(State, Option<Bytes>)> {
    match e
    case Ask(r) => Step(cfg, s, r.op, r.choice)
    case Compacts(pid) => Ok((Orphaned(s, pid), None))
  }

  /**
    A process is compacted right after `memory_memfree` has written the header on its page, and asks for nothing
    afterwards; `gone` are the processes compacted so far.
   */
  predicate Happens(f: Flat, gone: set<nat>, e: Event) {
    match e
    case Ask(r) => Enabled(f, r.op) && Asking(r.op) !in gone
    case Compacts(pid) =>
      && pid in f.counts && pid !in gone && f.counts[pid] == 1
      && |f.trace| > 0 && f.trace[|f.trace| - 1] == PageId(pid, 1)
  }

  function FlatEvent(cfg: Config, f: Flat, gone: set<nat>, e: Event): (Flat, Option<Bytes>)
    requires Happens(f, gone, e)
  {
    match e
    case Ask(r) => FlatStep(cfg, f, r.op)
    case Compacts(pid) => (Dropped(f, pid), None)
  }

  function Gone(gone: set<nat>, e: Event): set<nat> {
    if e.Compacts? then gone + {e.pid} else gone
  }

  /** The page accessed last is in memory. */
  ghost predicate LastIsHere(s: State, f: Flat) {
    |f.trace| > 0 && f.trace[|f.trace| - 1] in f.mem ==> At(s.pages, f.trace[|f.trace| - 1]).present
  }

  /** Lost frames are marked with pages of compacted processes. */
  ghost predicate LostTo(frames: seq<Frame>, gone: set<nat>) {
    forall i :: 0 <= i < |frames| && frames[i].Lost? ==> frames[i].page.pid in gone
  }

  /** Under the common pool nothing is absent while a frame is free. */
  ghost predicate Filled(cfg: Config, s: State) {
    cfg.allocation.Dynamic? && FreeFrames(s) > 0 ==> forall p :: p in s.pages ==> s.pages[p].present
  }

  /** The pager holds the flat memory, with one frame lost for each of the processes in `gone`. */
  ghost predicate Holding(cfg: Config, s: State, f: Flat, gone: set<nat>) {
    && Sound(cfg, s, f) && LastIsHere(s, f) && Filled(cfg, s)
    && LostTo(s.frames, gone) && LostFrames(s) == |gone|
  }

  ghost predicate SameLost(frames: seq<Frame>, frames': seq<Frame>) {
    && |frames'| == |frames|
    && forall i :: 0 <= i < |frames| && (frames[i].Lost? || frames'[i].Lost?) ==> frames'[i] == frames[i]
  }

  lemma LostToAgain(frames: seq<Frame>, frames': seq<Frame>, gone: set<nat>)
    requires SameLost(frames, frames') && LostTo(frames, gone)
    ensures LostTo(frames', gone)
  {
  }

  lemma {:induction false} SameLostCount(frames: seq<Frame>, frames': seq<Frame>)
    requires SameLost(frames, frames')
    ensures Count(frames', IsLost()) == Count(frames, IsLost())
  {
    if |frames| > 0 {
      var n := |frames| - 1;
      assert forall i :: 0 <= i < n ==> frames[..n][i] == frames[i] && frames'[..n][i] == frames'[i];
      SameLostCount(frames[..n], frames'[..n]);
    }
  }

  /** No request loses a frame. */
  lemma ResolveLosesNone(cfg: Config, s: State, p: PageId, choice: nat, mem: map<PageId, Bytes>, s': State)
    requires Good(cfg, s, mem) && p in s.pages && choice < |s.tlb| && Resolve(cfg, s, p, choice) == Ok(s')
    ensures SameLost(s.frames, s'.frames)
  {
    hide Resolve, Linked, Resident, Sized, SwapAgrees, TlbAgrees, Stamped, Refines;
    if InTlb(s.tlb, p) {
      ResolveHit(cfg, s, p, choice);
    } else if FrameOf(s.frames, p) < |s.frames| {
      ResolveFound(cfg, s, p, choice);
    } else {
      var s1, m := ResolveUnfolds(cfg, s, p, choice, s');
      AbsentWhenNotFound(s, p);
      FaultInKeeps(cfg, s, p, mem, s1, m);
    }
  }

  lemma CreateLosesNone(cfg: Config, s: State, mem: map<PageId, Bytes>, pid: nat, choice: nat, s': State)
    requires Good(cfg, s, mem) && CreatePage(cfg, s, pid, choice) == Ok(s')
    ensures SameLost(s.frames, s'.frames)
  {
    hide CreatePage, Created, Evict, MayTakeFrame, Linked, Resident, Sized, SwapAgrees, TlbAgrees, Stamped, Refines;
    var s1, m := CreateUnfolds(cfg, s, pid, choice, s');
    CreatedShape(cfg, s1, pid, m, choice);
    if !MayTakeFrame(cfg, s, pid) {
      EvictKeeps(cfg, s, pid, mem, s1, m);
    }
  }

  /** A completed request loses no frame, and the page it was for is in memory. */
  lemma StepLosesNone(cfg: Config, s: State, f: Flat, op: Op, choice: nat, s': State, out: Option<Bytes>)
    requires Sound(cfg, s, f) && Enabled(f, op) && choice < |s.tlb| && Step(cfg, s, op, choice) == Ok((s', out))
    ensures SameLost(s.frames, s'.frames)
    ensures LastIsHere(s, f) ==> LastIsHere(s', FlatStep(cfg, f, op).0)
    ensures op.Read? || op.Write? ==> op.page in s'.pages && s'.pages[op.page].present
  {
    hide Core, Refines, Follows, Resolve, CreatePage, Ticks, Slice, Patch, Cached;
    RefinesKeys(cfg, s, f.mem);
    match op
    case Register(pid) =>
    case Create(pid) =>
      CreateLosesNone(cfg, s, f.mem, pid, choice, s');
      CreateLeaves(cfg, s, f, pid, choice, s');
    case Read(p, _, _) =>
      var s1 := Resolve(cfg, s, p, choice).value;
      ResolveLosesNone(cfg, s, p, choice, f.mem, s1);
      ResolveKeeps(cfg, s, p, choice, f.mem, s1);
    case Write(p, _, _) =>
      var s1 := Resolve(cfg, s, p, choice).value;
      ResolveLosesNone(cfg, s, p, choice, f.mem, s1);
      ResolveKeeps(cfg, s, p, choice, f.mem, s1);
  }

  /** With a free frame a new page moves no other. */
  lemma CreateFills(cfg: Config, s: State, f: Flat, pid: nat, choice: nat, s': State)
    requires Sound(cfg, s, f) && pid in f.counts && choice < |s.tlb| && CreatePage(cfg, s, pid, choice) == Ok(s')
    ensures Filled(cfg, s) ==> Filled(cfg, s')
  {
    hide CreatePage, Evict, Created, Sound, FreeFrames, FreeSlots, Moved;
    CreateIsNew(cfg, s, f, pid);
    var s1, m := CreateUnfolds(cfg, s, pid, choice, s');
    if MayTakeFrame(cfg, s, pid) {
      FirstFree(cfg, s, pid);
      CreatedShape(cfg, s, pid, m, choice);
      CreatedLeaves(cfg, s, pid, m, choice);
    } else if cfg.allocation.Dynamic? {
      NoneFree(cfg, s, f, pid);
      EvictLeaves(cfg, s, f, pid, s1, m);
      MovedProc(s, s1, pid);
      CreatedLeaves(cfg, s1, pid, m, choice);
    }
  }

  lemma {:induction false} FirstIsCounted(frames: seq<Frame>)
    ensures First(frames, Paging.IsFree()) < |frames| <==> Count(frames, Paging.IsFree()) > 0
  {
    CountPositive(frames, Paging.IsFree());
    if Count(frames, Paging.IsFree()) > 0 {
      var i :| 0 <= i < |frames| && Paging.IsFree()(frames[i]);
      assert First(frames, Paging.IsFree()) <= i;
    }
  }

  /** Under the common pool a page may take any free frame. */
  lemma {:induction false} NoneFree(cfg: Config, s: State, f: Flat, pid: nat)
    requires Sound(cfg, s, f) && cfg.allocation.Dynamic?
    ensures MayTakeFrame(cfg, s, pid) <==> FreeFrames(s) > 0
  {
    CoreIsLinked(cfg, s);
    hide Core, Refines, Follows;
    PresentBounded(s);
    FirstIsCounted(s.frames);
  }

  lemma StepFills(cfg: Config, s: State, f: Flat, op: Op, choice: nat, s': State, out: Option<Bytes>)
    requires Sound(cfg, s, f) && Enabled(f, op) && choice < |s.tlb| && Step(cfg, s, op, choice) == Ok((s', out))
    ensures Filled(cfg, s) ==> Filled(cfg, s')
  {
    hide Sound, CreatePage, ReadPage, WritePage, FreeFrames, FreeSlots;
    match op
    case Register(_) => SamePlaces(s, s');
    case Create(pid) => CreateFills(cfg, s, f, pid, choice, s');
    case Read(_, _, _) => AccessLeaves(cfg, s, f, op, choice, s', out);
    case Write(_, _, _) => AccessLeaves(cfg, s, f, op, choice, s', out);
  }

  lemma OnePageIsHere(cfg: Config, s: State, f: Flat, gone: set<nat>, pid: nat)
    requires Holding(cfg, s, f, gone) && Happens(f, gone, Compacts(pid))
    ensures HasOnePage(s, f, pid)
  {
    hide Core, Refines, Follows;
  }

  lemma OrphanedFilled(cfg: Config, s: State, pid: nat)
    requires Filled(cfg, s) && FreeFrames(Orphaned(s, pid)) == FreeFrames(s)
    ensures Filled(cfg, Orphaned(s, pid))
  {
    hide FreeFrames;
  }

  lemma OrphanedLostTo(s: State, f: Flat, pid: nat, gone: set<nat>)
    requires LostTo(s.frames, gone) && Linked(s) && Resident(s) && HasOnePage(s, f, pid)
    ensures LostTo(Orphaned(s, pid).frames, gone + {pid})
  {
    OrphanShape(s, f, pid);
    hide Linked, Resident, Orphaned;
  }

  lemma CompactKeeps(cfg: Config, s: State, f: Flat, gone: set<nat>, pid: nat)
    requires Holding(cfg, s, f, gone) && Happens(f, gone, Compacts(pid))
    ensures Holding(cfg, Orphaned(s, pid), Dropped(f, pid), gone + {pid}) && |Orphaned(s, pid).tlb| == |s.tlb|
  {
    OnePageIsHere(cfg, s, f, gone, pid);
    CoreIsLinked(cfg, s);
    hide Sound, LostFrames, FreeFrames, Orphaned, LostTo, Filled, HasOnePage, Linked, Resident;
    OrphanKeeps(cfg, s, f, pid);
    OrphanedFilled(cfg, s, pid);
    OrphanedLostTo(s, f, pid, gone);
  }

  lemma AskKeeps(cfg: Config, s: State, f: Flat, gone: set<nat>, r: Request, s': State, out: Option<Bytes>)
    requires Holding(cfg, s, f, gone) && Happens(f, gone, Ask(r)) && Step(cfg, s, r.op, r.choice) == Ok((s', out))
    requires r.choice < |s.tlb|
    ensures Holding(cfg, s', FlatStep(cfg, f, r.op).0, gone) && out == FlatStep(cfg, f, r.op).1 && |s'.tlb| == |s.tlb|
  {
    hide Sound, Step, FlatStep, Enabled, LastIsHere, Filled;
    SoundStep(cfg, s, f, r.op, r.choice, s', out);
    StepLosesNone(cfg, s, f, r.op, r.choice, s', out);
    SameLostCount(s.frames, s'.frames);
    StepFills(cfg, s, f, r.op, r.choice, s', out);
  }

  lemma EventKeeps(cfg: Config, s: State, f: Flat, gone: set<nat>, e: Event, s': State, out: Option<Bytes>)
    requires Holding(cfg, s, f, gone) && Happens(f, gone, e) && EventStep(cfg, s, e) == Ok((s', out))
    requires e.Ask? ==> e.request.choice < |s.tlb|
    ensures Holding(cfg, s', FlatEvent(cfg, f, gone, e).0, Gone(gone, e)) && out == FlatEvent(cfg, f, gone, e).1
    ensures |s'.tlb| == |s.tlb| && SameSize(s, s')
  {
    hide Holding, Step, FlatStep, Dropped;
    match e
    case Ask(r) =>
      AskKeeps(cfg, s, f, gone, r, s', out);
      HoldingIsSound(cfg, s, f, gone);
      StepLeaves(cfg, s, f, r.op, r.choice, s', out);
    case Compacts(pid) => CompactKeeps(cfg, s, f, gone, pid);
  }

  lemma HoldingIsSound(cfg: Config, s: State, f: Flat, gone: set<nat>)
    requires Holding(cfg, s, f, gone)
    ensures Sound(cfg, s, f) && Core(cfg, s) && Refines(cfg, s, f.mem) && LostFrames(s) == |gone|
  {
    hide Core, Refines, Follows;
  }

  predicate AllHappen(cfg: Config, f: Flat, gone: set<nat>, run: seq<Event>)
    decreases |run|
  {
    |run| > 0 ==>
      Happens(f, gone, run[0]) && AllHappen(cfg, FlatEvent(cfg, f, gone, run[0]).0, Gone(gone, run[0]), run[1..])
  }

  function EventRun(cfg: Config, s: State, run: seq<Event>): Result<(State, seq<Option<Bytes>>)>
    decreases |run|
  {
    if |run| == 0 then Ok((s, []))
    else
      var first :- EventStep(cfg, s, run[0]);
      var rest :- EventRun(cfg, first.0, run[1..]);
      Ok((rest.0, [first.1] + rest.1))
  }

  function FlatEvents(cfg: Config, f: Flat, gone: set<nat>, run: seq<Event>): (Flat, set<nat>, seq<Option<Bytes>>)
    requires AllHappen(cfg, f, gone, run)
    decreases |run|
  {
    if |run| == 0 then (f, gone, [])
    else
      var (f1, out) := FlatEvent(cfg, f, gone, run[0]);
      var (f2, gone2, outs) := FlatEvents(cfg, f1, Gone(gone, run[0]), run[1..]);
      (f2, gone2, [out] + outs)
  }

  /**
    Compaction corrupts nobody: in every run of requests and compactions that completes, under every policy, all reads
    are answered as by the memory without paging, and the pager ends in a state that holds exactly that memory.
   */
  lemma {:induction false} CompactionIsInvisible(cfg: Config, s: State, f: Flat, gone: set<nat>, run: seq<Event>,
      s': State, outs: seq<Option<Bytes>>)
    requires Holding(cfg, s, f, gone) && AllHappen(cfg, f, gone, run)
    requires forall i :: 0 <= i < |run| && run[i].Ask? ==> run[i].request.choice < |s.tlb|
    requires EventRun(cfg, s, run) == Ok((s', outs))
    ensures var (f', gone', answers) := FlatEvents(cfg, f, gone, run); Holding(cfg, s', f', gone') && outs == answers
    ensures |s'.tlb| == |s.tlb| && SameSize(s, s')
    decreases |run|
  {
    if |run| > 0 {
      hide Holding, EventStep, FlatEvent, Happens;
      var (s1, out) := EventStep(cfg, s, run[0]).value;
      EventKeeps(cfg, s, f, gone, run[0], s1, out);
      var rest := EventRun(cfg, s1, run[1..]).value;
      CompactionIsInvisible(cfg, s1, FlatEvent(cfg, f, gone, run[0]).0, Gone(gone, run[0]), run[1..], rest.0, rest.1);
    }
  }

  // ---------------------------------------------------------------- when the others can go on

  /** Under the common pool every frame is free, lost or held by a candidate. */
  lemma {:induction false} FreeLostOrCandidate(cfg: Config, frames: seq<Frame>, pid: nat)
    requires cfg.allocation.Dynamic?
    ensures Choices(cfg, frames, pid) + Count(frames, Paging.IsFree()) + Count(frames, IsLost()) == |frames|
  {
    if |frames| > 0 {
      FreeLostOrCandidate(cfg, frames[..|frames| - 1], pid);
    }
  }

  /**
    Under the common pool, after any number of requests and compactions: an access fails exactly when its page is
    absent and there are not enough frames left beyond the clock hand, or the victim cannot be stored, or the page
    was lost; creating a page fails exactly when no frame is free and there is no victim or it cannot be stored.
   */
  lemma PoolGoesOn(cfg: Config, s: State, f: Flat, gone: set<nat>, p: PageId, choice: nat)
    requires cfg.allocation.Dynamic? && Holding(cfg, s, f, gone) && p.pid in f.counts && choice < |s.tlb|
    ensures p in f.mem ==>
              && p in s.pages
              && (Resolve(cfg, s, p, choice).Fail? <==>
                  && !s.pages[p].present
                  && (Hand(cfg, s, p.pid) >= |s.frames| - |gone| || Blocked(cfg, s, p.pid) || !Saves(cfg, s.pages[p])))
    ensures CreatePage(cfg, s, p.pid, choice).Fail? <==>
            FreeFrames(s) == 0 && (Hand(cfg, s, p.pid) >= |s.frames| - |gone| || Blocked(cfg, s, p.pid))
  {
    hide Core, Refines, Follows, Resolve, CreatePage, PickVictim, Hand, Blocked, Choices, Saves;
    FreeLostOrCandidate(cfg, s.frames, p.pid);
    PickFails(cfg, s, p.pid);
    if p in f.mem {
      ResolveFails(cfg, s, f, p, choice);
    }
    NoneFree(cfg, s, f, p.pid);
    CreateDecides(cfg, s, f, p.pid, choice);
  }

  lemma CreateDecides(cfg: Config, s: State, f: Flat, pid: nat, choice: nat)
    requires Sound(cfg, s, f)
    ensures CreatePage(cfg, s, pid, choice).Fail? <==>
            !MayTakeFrame(cfg, s, pid) && (PickVictim(cfg, s, pid).Fail? || Blocked(cfg, s, pid))
  {
    assert Swamp.Inv(s.swap);
    hide Sound, PickVictim, Blocked, MayTakeFrame, Load;
    EvictFails(cfg, s, pid);
  }

  /** Fewer processes have been compacted than there are frames, and pages and lost frames leave a place over. */
  predicate GoesOn(s: State, f: Flat, gone: set<nat>) {
    |gone| < |s.frames| && |f.mem| + |gone| < |s.frames| + |s.swap.slots|
  }

  /**
    Under LRU with the common pool, after any number of requests and compactions: an access to an absent page
    completes, and a page can be created, exactly while the server goes on; from then on both end it.
   */
  lemma LruGoesOn(cfg: Config, s: State, f: Flat, gone: set<nat>, p: PageId, choice: nat)
    requires cfg.replacement.Lru? && cfg.allocation.Dynamic? && cfg.swap.allocation.Dynamic?
    requires Holding(cfg, s, f, gone) && p.pid in f.counts && choice < |s.tlb|
    ensures p in f.mem ==>
        p in s.pages && (Resolve(cfg, s, p, choice).Ok? <==> s.pages[p].present || GoesOn(s, f, gone))
    ensures CreatePage(cfg, s, p.pid, choice).Ok? <==> GoesOn(s, f, gone)
  {
    hide Core, Refines, Follows, Resolve, CreatePage, PickVictim;
    PoolGoesOn(cfg, s, f, gone, p, choice);
    PickFails(cfg, s, p.pid);
    FreeLostOrCandidate(cfg, s.frames, p.pid);
    RoomIsAFreeSlot(s);
    assert AllSaved(cfg, s);
    PlacesConserved(cfg, s);
    SamePages(cfg, s, f.mem);
  }

  /** The same for every run since memory was started, in terms of what was asked for. */
  lemma {:induction false} LruRunsGoOn(cfg: Config, frames: nat, entries: nat, slots: nat, run: seq<Event>, s: State,
      outs: seq<Option<Bytes>>, p: PageId, choice: nat)
    requires cfg.replacement.Lru? && cfg.allocation.Dynamic? && cfg.swap.allocation.Dynamic? && choice < entries
    requires frames >= 1 && AllHappen(cfg, Flat(map[], map[], []), {}, run)
    requires forall i :: 0 <= i < |run| && run[i].Ask? ==> run[i].request.choice < entries
    requires EventRun(cfg, Boot(cfg, frames, entries, slots), run) == Ok((s, outs))
    ensures var (f, gone, answers) := FlatEvents(cfg, Flat(map[], map[], []), {}, run);
            var goesOn := |gone| < frames && |f.mem| + |gone| < frames + slots;
            && outs == answers
            && (p in f.mem ==> p in s.pages && (Resolve(cfg, s, p, choice).Ok? <==> s.pages[p].present || goesOn))
            && (p.pid in f.counts ==> (CreatePage(cfg, s, p.pid, choice).Ok? <==> goesOn))
  {
    hide Holding, EventRun, AllHappen, FlatEvents, Resolve, CreatePage, Boot;
    BootHolds(cfg, frames, entries, slots);
    CompactionIsInvisible(cfg, Boot(cfg, frames, entries, slots), Flat(map[], map[], []), {}, run, s, outs);
    var (f, gone, answers) := FlatEvents(cfg, Flat(map[], map[], []), {}, run);
    if p in f.mem {
      HoldingIsSound(cfg, s, f, gone);
      PageHasProcess(cfg, s, f, p);
    }
    if p.pid in f.counts {
      LruGoesOn(cfg, s, f, gone, p, choice);
    }
  }

  // ---------------------------------------------------------------- a run that ends the server

  lemma BootHolds(cfg: Config, frames: nat, entries: nat, slots: nat)
    requires frames >= 1 && entries >= 1
    ensures var boot := Boot(cfg, frames, entries, slots);
            && Holding(cfg, boot, Flat(map[], map[], []), {})
            && |boot.frames| == frames && |boot.tlb| == entries && |boot.swap.slots| == slots
  {
    BootSimulates(cfg, frames, entries, slots);
    var boot := Boot(cfg, frames, entries, slots);
    WholeLosesNone(boot.frames);
    hide Sound;
  }

  lemma LruStepCompletes(cfg: Config, s: State, f: Flat, gone: set<nat>, op: Op)
    requires cfg.replacement.Lru? && cfg.allocation.Dynamic? && cfg.swap.allocation.Dynamic?
    requires Holding(cfg, s, f, gone) && Enabled(f, op) && |s.tlb| > 0 && !op.Read?
    requires op.Register? || GoesOn(s, f, gone)
    ensures Step(cfg, s, op, 0).Ok? && Step(cfg, s, op, 0).value.1 == None
  {
    hide Holding, Resolve, CreatePage, GoesOn;
    match op
    case Register(_) =>
    case Create(pid) => LruGoesOn(cfg, s, f, gone, PageId(pid, 1), 0);
    case Write(p, _, _) =>
      HoldingIsSound(cfg, s, f, gone);
      PageHasProcess(cfg, s, f, p);
      LruGoesOn(cfg, s, f, gone, p, 0);
  }

  /** While the server goes on, requests complete. */
  lemma LruStep(cfg: Config, s: State, f: Flat, gone: set<nat>, op: Op) returns (s': State, f': Flat)
    requires cfg.replacement.Lru? && cfg.allocation.Dynamic? && cfg.swap.allocation.Dynamic?
    requires Holding(cfg, s, f, gone) && Happens(f, gone, Ask(Request(op, 0))) && |s.tlb| > 0 && !op.Read?
    requires op.Register? || GoesOn(s, f, gone)
    ensures Step(cfg, s, op, 0) == Ok((s', None)) && f' == FlatStep(cfg, f, op).0
    ensures Holding(cfg, s', f', gone) && |s'.tlb| == |s.tlb| && SameSize(s, s')
  {
    hide Holding, Step, GoesOn, FlatStep, Enabled;
    HoldingIsSound(cfg, s, f, gone);
    LruStepCompletes(cfg, s, f, gone, op);
    s', f' := Step(cfg, s, op, 0).value.0, FlatStep(cfg, f, op).0;
    AskKeeps(cfg, s, f, gone, Request(op, 0), s', None);
    StepLeaves(cfg, s, f, op, 0, s', None);
  }

  lemma PageHasProcess(cfg: Config, s: State, f: Flat, p: PageId)
    requires Sound(cfg, s, f) && p in f.mem
    ensures p.pid in f.counts
  {
    hide Core, Refines, Follows;
  }

  lemma {:induction false} EventFirst(cfg: Config, s: State, e: Event, s': State, run: seq<Event>)
    requires EventStep(cfg, s, e) == Ok((s', None)) && EventRun(cfg, s', run).Ok?
    ensures EventRun(cfg, s, [e] + run).Ok?
    ensures EventRun(cfg, s, [e] + run).value.0 == EventRun(cfg, s', run).value.0
  {
    hide EventStep;
    assert ([e] + run)[1..] == run;
  }

  /** A process comes, gets a page and writes on it. */
  function Comes(pid: nat, data: Bytes): seq<Event> {
    [Ask(Request(Register(pid), 0)), Ask(Request(Create(pid), 0)), Ask(Request(Write(PageId(pid, 1), 0, data), 0))]
  }

  /** Two places are enough to let a process come. */
  predicate Welcome(s: State, f: Flat, gone: set<nat>, pid: nat) {
    && pid !in f.counts && pid !in gone && |s.tlb| > 0
    && |gone| < |s.frames| && |f.mem| + 1 + |gone| < |s.frames| + |s.swap.slots|
  }

  /** The flat memory once a process has come. */
  lemma FlatComes(cfg: Config, f: Flat, pid: nat)
    requires pid !in f.counts && PageId(pid, 1) !in f.mem
    ensures var p, f1 := PageId(pid, 1), FlatStep(cfg, f, Register(pid)).0;
            && f1.mem == f.mem && pid in f1.counts && f1.counts[pid] == 0
            && var f2 := FlatStep(cfg, f1, Create(pid)).0;
               f2.mem.Keys == f.mem.Keys + {p} && |f2.mem| == |f.mem| + 1 && f2.counts == f.counts[pid := 1]
  {
    hide Blank;
    OneMore(f.mem, PageId(pid, 1), Blank(cfg));
    assert f.counts[pid := 0][pid := 1] == f.counts[pid := 1];
  }

  lemma NotKnown(cfg: Config, s: State, f: Flat, gone: set<nat>, p: PageId)
    requires Holding(cfg, s, f, gone) && p.pid !in f.counts
    ensures p !in f.mem
  {
    hide Core, Refines, Follows;
  }

  lemma CreatesFirst(cfg: Config, s: State, f: Flat, gone: set<nat>, pid: nat) returns (s2: State, f2: Flat)
    requires cfg.replacement.Lru? && cfg.allocation.Dynamic? && cfg.swap.allocation.Dynamic?
    requires Holding(cfg, s, f, gone) && Welcome(s, f, gone, pid)
    ensures Step(cfg, s, Register(pid), 0) == Ok((Paging.Register(s, pid), None))
    ensures Step(cfg, Paging.Register(s, pid), Create(pid), 0) == Ok((s2, None))
    ensures f2.mem.Keys == f.mem.Keys + {PageId(pid, 1)} && f2.counts == f.counts[pid := 1]
    ensures |f2.mem| == |f.mem| + 1 && GoesOn(s2, f2, gone)
    ensures Holding(cfg, s2, f2, gone) && |s2.tlb| == |s.tlb| && SameSize(s, s2)
  {
    hide Holding, Step, FlatStep;
    NotKnown(cfg, s, f, gone, PageId(pid, 1));
    FlatComes(cfg, f, pid);
    var s1, f1 := LruStep(cfg, s, f, gone, Register(pid));
    assert s1 == Paging.Register(s, pid) by { RegisterIsStep(cfg, s, pid); }
    s2, f2 := LruStep(cfg, s1, f1, gone, Create(pid));
  }

  lemma RegisterIsStep(cfg: Config, s: State, pid: nat)
    ensures Step(cfg, s, Register(pid), 0) == Ok((Paging.Register(s, pid), None))
  {
  }

  lemma Writes(cfg: Config, s: State, f: Flat, gone: set<nat>, p: PageId, data: Bytes) returns (s1: State, f1: Flat)
    requires cfg.replacement.Lru? && cfg.allocation.Dynamic? && cfg.swap.allocation.Dynamic?
    requires Holding(cfg, s, f, gone) && GoesOn(s, f, gone) && p in f.mem && p.pid !in gone && |s.tlb| > 0
    ensures Step(cfg, s, Write(p, 0, data), 0) == Ok((s1, None))
    ensures f1.mem.Keys == f.mem.Keys && |f1.mem| == |f.mem| && f1.counts == f.counts && f1.trace == f.trace + [p]
    ensures Holding(cfg, s1, f1, gone) && |s1.tlb| == |s.tlb| && SameSize(s, s1)
  {
    hide Holding, Step, GoesOn, Patch;
    s1, f1 := LruStep(cfg, s, f, gone, Write(p, 0, data));
    SameNumber(f1.mem, f.mem);
  }

  lemma NewProcess(cfg: Config, s: State, f: Flat, gone: set<nat>, pid: nat, data: Bytes) returns (s3: State, f3: Flat)
    requires cfg.replacement.Lru? && cfg.allocation.Dynamic? && cfg.swap.allocation.Dynamic?
    requires Holding(cfg, s, f, gone) && Welcome(s, f, gone, pid)
    ensures EventRun(cfg, s, Comes(pid, data)).Ok? && s3 == EventRun(cfg, s, Comes(pid, data)).value.0
    ensures f3.mem.Keys == f.mem.Keys + {PageId(pid, 1)} && f3.counts == f.counts[pid := 1] && |f3.mem| == |f.mem| + 1
    ensures |f3.trace| > 0 && f3.trace[|f3.trace| - 1] == PageId(pid, 1)
    ensures Holding(cfg, s3, f3, gone) && |s3.tlb| == |s.tlb| && SameSize(s, s3)
  {
    hide Holding, Step, EventRun, Paging.Register, Comes, FlatStep, Blank, GoesOn;
    var s2, f2 := CreatesFirst(cfg, s, f, gone, pid);
    s3, f3 := Writes(cfg, s2, f2, gone, PageId(pid, 1), data);
    ThreeEvents(cfg, s, Paging.Register(s, pid), s2, s3, pid, data);
  }

  lemma {:induction false} ThreeEvents(cfg: Config, s: State, s1: State, s2: State, s3: State, pid: nat, data: Bytes)
    requires Step(cfg, s, Register(pid), 0) == Ok((s1, None)) && Step(cfg, s1, Create(pid), 0) == Ok((s2, None))
    requires Step(cfg, s2, Write(PageId(pid, 1), 0, data), 0) == Ok((s3, None))
    ensures EventRun(cfg, s, Comes(pid, data)).Ok? && EventRun(cfg, s, Comes(pid, data)).value.0 == s3
  {
    hide Step, EventRun;
    var run := Comes(pid, data);
    EmptyRun(cfg, s3);
    EventFirst(cfg, s2, run[2], s3, []);
    EventFirst(cfg, s1, run[1], s2, [run[2]] + []);
    EventFirst(cfg, s, run[0], s1, [run[1]] + ([run[2]] + []));
    assert run == [run[0]] + ([run[1]] + ([run[2]] + []));
  }

  lemma {:induction false} EmptyRun(cfg: Config, s: State)
    ensures EventRun(cfg, s, []) == Ok((s, []))
  {
  }

  /** A run in two parts. */
  lemma {:induction false} EventsThen(cfg: Config, s: State, run: seq<Event>, s1: State, rest: seq<Event>)
    requires EventRun(cfg, s, run).Ok? && EventRun(cfg, s, run).value.0 == s1 && EventRun(cfg, s1, rest).Ok?
    ensures EventRun(cfg, s, run + rest).Ok? && EventRun(cfg, s, run + rest).value.0 == EventRun(cfg, s1, rest).value.0
    decreases |run|
  {
    hide EventStep;
    if |run| == 0 {
      assert run + rest == rest;
    } else {
      assert (run + rest)[0] == run[0] && (run + rest)[1..] == run[1..] + rest;
      EventsThen(cfg, EventStep(cfg, s, run[0]).value.0, run[1..], s1, rest);
    }
  }

  /**
    In one frame, under LRU and the common pool: process `a` writes on its page, process `b` takes the frame, writes
    on its page and releases its only block.  Before the compaction that this starts `a` can reach its page; after it
    there is no candidate left and the server ends.
   */
  lemma {:induction false} CompactionEndsTheServer(cfg: Config, entries: nat, slots: nat, a: nat, b: nat, data: Bytes,
      header: Bytes)
    requires cfg.replacement.Lru? && cfg.allocation.Dynamic? && cfg.swap.allocation.Dynamic?
    requires entries >= 1 && slots >= 2 && a != b
    ensures var boot, p := Boot(cfg, 1, entries, slots), PageId(a, 1);
            var before := EventRun(cfg, boot, Comes(a, data) + Comes(b, header));
            var after := EventRun(cfg, boot, Comes(a, data) + Comes(b, header) + [Compacts(b)]);
            && before.Ok? && p in before.value.0.pages && Resolve(cfg, before.value.0, p, 0).Ok?
            && after.Ok? && p in after.value.0.pages && !after.value.0.pages[p].present
            && Resolve(cfg, after.value.0, p, 0).Fail? && PickVictim(cfg, after.value.0, a) == Fail(NoCandidate)
  {
    hide Holding, EventRun, Boot, Resolve, PickVictim, Comes, Orphaned, GoesOn, Happens;
    var s6, f6 := BothCome(cfg, entries, slots, a, b, data, header);
    var s7 := LastFrameGoes(cfg, s6, f6, a, b);
    OneEvent(cfg, s6, b);
    EventsThen(cfg, Boot(cfg, 1, entries, slots), Comes(a, data) + Comes(b, header), s6, [Compacts(b)]);
  }

  lemma BothCome(cfg: Config, entries: nat, slots: nat, a: nat, b: nat, data: Bytes, header: Bytes)
    returns (s6: State, f6: Flat)
    requires cfg.replacement.Lru? && cfg.allocation.Dynamic? && cfg.swap.allocation.Dynamic?
    requires entries >= 1 && slots >= 2 && a != b
    ensures var run := EventRun(cfg, Boot(cfg, 1, entries, slots), Comes(a, data) + Comes(b, header));
            run.Ok? && s6 == run.value.0
    ensures Holding(cfg, s6, f6, {}) && Happens(f6, {}, Compacts(b)) && PageId(a, 1) in f6.mem && a in f6.counts
    ensures |s6.frames| == 1 && |s6.tlb| > 0 && GoesOn(s6, f6, {})
  {
    hide Holding, EventRun, Boot, Comes;
    BootHolds(cfg, 1, entries, slots);
    var s3, f3 := NewProcess(cfg, Boot(cfg, 1, entries, slots), Flat(map[], map[], []), {}, a, data);
    s6, f6 := NewProcess(cfg, s3, f3, {}, b, header);
    EventsThen(cfg, Boot(cfg, 1, entries, slots), Comes(a, data), s3, Comes(b, header));
  }

  lemma LastFrameGoes(cfg: Config, s: State, f: Flat, a: nat, b: nat) returns (s': State)
    requires cfg.replacement.Lru? && cfg.allocation.Dynamic? && cfg.swap.allocation.Dynamic? && |s.tlb| > 0 && a != b
    requires Holding(cfg, s, f, {}) && Happens(f, {}, Compacts(b)) && PageId(a, 1) in f.mem && a in f.counts
    requires |s.frames| == 1 && GoesOn(s, f, {})
    ensures s' == Orphaned(s, b) && PageId(a, 1) in s.pages && Resolve(cfg, s, PageId(a, 1), 0).Ok?
    ensures PageId(a, 1) in s'.pages && !s'.pages[PageId(a, 1)].present
    ensures Resolve(cfg, s', PageId(a, 1), 0).Fail? && PickVictim(cfg, s', a) == Fail(NoCandidate)
  {
    hide Holding, Resolve, PickVictim, Orphaned;
    s' := Orphaned(s, b);
    LruGoesOn(cfg, s, f, {}, PageId(a, 1), 0);
    CompactKeeps(cfg, s, f, {}, b);
    OrphanSize(s, b);
    LruGoesOn(cfg, s', Dropped(f, b), {} + {b}, PageId(a, 1), 0);
    AbsentThen(cfg, s, f, a, b, s', Dropped(f, b));
  }

  lemma OrphanSize(s: State, pid: nat)
    ensures SameSize(s, Orphaned(s, pid))
  {
  }

  lemma {:induction false} OneEvent(cfg: Config, s: State, pid: nat)
    ensures EventRun(cfg, s, [Compacts(pid)]).Ok? && EventRun(cfg, s, [Compacts(pid)]).value.0 == Orphaned(s, pid)
  {
    hide EventRun;
    EmptyRun(cfg, Orphaned(s, pid));
    EventFirst(cfg, s, Compacts(pid), Orphaned(s, pid), []);
    assert [Compacts(pid)] + [] == [Compacts(pid)];
  }

  /** What is left when the process that held the only frame has been compacted. */
  lemma AbsentThen(cfg: Config, s: State, f: Flat, a: nat, b: nat, s': State, f': Flat)
    requires cfg.allocation.Dynamic? && cfg.replacement.Lru?
    requires Holding(cfg, s, f, {}) && Happens(f, {}, Compacts(b)) && |s.frames| == 1 && a != b && PageId(a, 1) in f.mem
    requires s' == Orphaned(s, b) && Holding(cfg, s', f', {} + {b})
    ensures PageId(a, 1) in s'.pages && !s'.pages[PageId(a, 1)].present
    ensures PickVictim(cfg, s', a) == Fail(NoCandidate)
  {
    OnePageIsHere(cfg, s, f, {}, b);
    HoldingIsSound(cfg, s, f, {});
    HoldingIsSound(cfg, s', f', {} + {b});
    RefinesKeys(cfg, s, f.mem);
    OneAtATime(cfg, s, PageId(a, 1), PageId(b, 1));
    OrphanKeeps(cfg, s, f, b);
    FreeLostOrCandidate(cfg, s'.frames, a);
    PickFails(cfg, s', a);
    hide Holding, Sound, Core, Refines, Orphaned;
  }
}
