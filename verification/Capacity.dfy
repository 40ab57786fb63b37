/** How much fits in memory and swap together, and which runs complete. */
module Capacity {
  import opened Base
  import Swamp
  import opened Paging
  import opened PagingInvariant
  import opened PagingRun
  import opened PagingTheorems

  function InSlots(slots: seq<Swamp.Slot>): (r: set<PageId>)
  {
    if |slots| == 0 then {}
    else
      var n := |slots| - 1;
      InSlots(slots[..n]) + if slots[n].index >= 0 then {PageId(slots[n].pid, slots[n].index)} else {}
  }

  lemma {:induction false} InSlotsIff(slots: seq<Swamp.Slot>, p: PageId)
    ensures p in InSlots(slots) <==> exists i :: 0 <= i < |slots| && Swamp.Keeps(p)(slots[i])
  {
    if |slots| > 0 {
      var n := |slots| - 1;
      InSlotsIff(slots[..n], p);
      if i :| 0 <= i < n && Swamp.Keeps(p)(slots[..n][i]) {
        assert Swamp.Keeps(p)(slots[i]);
      }
      if i :| 0 <= i < |slots| && Swamp.Keeps(p)(slots[i]) {
        assert i < n ==> Swamp.Keeps(p)(slots[..n][i]);
      }
    }
  }

  lemma {:induction false} InSlotsSize(slots: seq<Swamp.Slot>)
    requires Swamp.NoDuplicate(slots)
    requires forall i :: 0 <= i < |slots| ==> slots[i].index == -1 || slots[i].index >= 1
    ensures |InSlots(slots)| + Count(slots, Swamp.IsFree()) == |slots|
  {
    if |slots| > 0 {
      var n := |slots| - 1;
      assert forall i :: 0 <= i < n ==> slots[..n][i] == slots[i];
      InSlotsSize(slots[..n]);
      if slots[n].index != -1 {
        var p := PageId(slots[n].pid, slots[n].index);
        InSlotsIff(slots[..n], p);
      }
    }
  }

  function InFrames(frames: seq<Frame>): set<PageId> {
    if |frames| == 0 then {}
    else
      var n := |frames| - 1;
      InFrames(frames[..n]) + if frames[n].Holds? then {frames[n].page} else {}
  }

  lemma {:induction false} InFramesIff(frames: seq<Frame>, p: PageId)
    ensures p in InFrames(frames) <==> exists i :: 0 <= i < |frames| && frames[i] == Holds(p)
  {
    if |frames| > 0 {
      var n := |frames| - 1;
      InFramesIff(frames[..n], p);
      if i :| 0 <= i < n && frames[..n][i] == Holds(p) {
        assert frames[i] == Holds(p);
      }
      if i :| 0 <= i < |frames| && frames[i] == Holds(p) {
        assert i < n ==> frames[..n][i] == Holds(p);
      }
    }
  }

  function IsLost(): Frame -> bool {
    (f: Frame) => f.Lost?
  }

  lemma {:induction false} InFramesSize(frames: seq<Frame>)
    requires forall i, j :: 0 <= i < j < |frames| && frames[i].Holds? ==> frames[i] != frames[j]
    ensures |InFrames(frames)| + Count(frames, Paging.IsFree()) + Count(frames, IsLost()) == |frames|
  {
    if |frames| > 0 {
      var n := |frames| - 1;
      assert forall i :: 0 <= i < n ==> frames[..n][i] == frames[i];
      InFramesSize(frames[..n]);
      if frames[n].Holds? {
        InFramesIff(frames[..n], frames[n].page);
      }
    }
  }

  lemma StoredIff(swap: Swamp.State, p: PageId)
    requires Swamp.Inv(swap)
    ensures p in InSlots(swap.slots) <==> Swamp.Fetch(swap, p).Some?
  {
    InSlotsIff(swap.slots, p);
  }

  /** No page is lost when it leaves its frame: always so under LRU, once all are written under the clock. */
  ghost predicate AllSaved(cfg: Config, s: State) {
    forall p :: p in s.pages ==> Saves(cfg, s.pages[p])
  }

  lemma PagesPartition(cfg: Config, s: State)
    requires Core(cfg, s) && AllSaved(cfg, s)
    ensures s.pages.Keys == InFrames(s.frames) + InSlots(s.swap.slots)
    ensures InFrames(s.frames) !! InSlots(s.swap.slots)
  {
    forall p
      ensures p in InFrames(s.frames) <==> p in s.pages && s.pages[p].present
      ensures p in InSlots(s.swap.slots) <==> p in s.pages && !s.pages[p].present
    {
      InFramesIff(s.frames, p);
      StoredIff(s.swap, p);
      hide Swamp.Inv, Swamp.Fetch, InFrames, InSlots;
    }
  }

  function FreeFrames(s: State): nat {
    Count(s.frames, Paging.IsFree())
  }

  function FreeSlots(s: State): nat {
    Count(s.swap.slots, Swamp.IsFree())
  }

  function LostFrames(s: State): nat {
    Count(s.frames, IsLost())
  }

  /**
    Between the two servers no place is lost but the frames a compaction leaves behind: pages, free frames, lost
    frames and free slots always add up to the size of memory and swap together.
   */
  lemma PlacesConserved(cfg: Config, s: State)
    requires Core(cfg, s) && AllSaved(cfg, s)
    ensures |s.pages| + FreeFrames(s) + LostFrames(s) + FreeSlots(s) == |s.frames| + |s.swap.slots|
    ensures Whole(s.frames) <==> LostFrames(s) == 0
  {
    PagesPartition(cfg, s);
    InFramesSize(s.frames);
    InSlotsSize(s.swap.slots);
    WholeLosesNone(s.frames);
    assert |s.pages| == |s.pages.Keys|;
  }

  lemma RoomIsAFreeSlot(s: State)
    ensures Swamp.HasRoom(s.swap) <==> FreeSlots(s) > 0
  {
    CountPositive(s.swap.slots, Swamp.IsFree());
    if Swamp.HasRoom(s.swap) {
      assert Swamp.IsFree()(s.swap.slots[Swamp.FreeSlot(s.swap.slots)]);
    }
  }

  lemma {:induction false} WholeLosesNone(frames: seq<Frame>)
    ensures Whole(frames) <==> Count(frames, IsLost()) == 0
  {
    CountPositive(frames, IsLost());
    if !Whole(frames) {
      var i :| 0 <= i < |frames| && frames[i].Lost?;
      assert IsLost()(frames[i]);
    }
  }

  lemma ReadyIsWhole(cfg: Config, s: State)
    requires Ready(cfg, s)
    ensures Whole(s.frames)
  {
    hide Hand, Choices;
  }

  lemma {:induction false} FullHasNoFreeFrame(cfg: Config, s: State)
    requires Ready(cfg, s)
    ensures Full(s.frames) <==> FreeFrames(s) == 0
  {
    ReadyIsWhole(cfg, s);
    hide Ready;
    CountPositive(s.frames, Paging.IsFree());
    if FreeFrames(s) == 0 {
      assert forall i :: 0 <= i < |s.frames| ==> !Paging.IsFree()(s.frames[i]);
    }
  }

  // ---------------------------------------------------------------- one request

  /** The victim of a process has to be stored under LRU, and when every page has been written. */
  lemma VictimSaved(cfg: Config, s: State, pid: nat)
    requires Linked(s) && AllSaved(cfg, s) && PickVictim(cfg, s, pid).Ok?
    ensures Saves(cfg, At(s.pages, PickVictim(cfg, s, pid).value.1))
  {
    var (s1, q) := PickVictim(cfg, s, pid).value;
    PickedIsHeld(cfg, s, pid, s1, q);
    hide PickVictim;
  }

  /**
    With any free slot an access completes when its page is present or will be saved, under both algorithms
    and both policies of memory.  When no page can be lost an access fails exactly when its page is absent
    and no slot is free: a fault stores its victim before it gives a slot back.
   */
  lemma AccessNeedsRoom(cfg: Config, s: State, f: Flat, p: PageId, choice: nat)
    requires cfg.swap.allocation.Dynamic?
    requires Simulates(cfg, s, f) && p in f.mem && choice < |s.tlb|
    ensures p in s.pages
    ensures s.pages[p].present || (Saves(cfg, s.pages[p]) && FreeSlots(s) > 0) ==> Resolve(cfg, s, p, choice).Ok?
    ensures AllSaved(cfg, s) ==> (Resolve(cfg, s, p, choice).Fail? <==> !s.pages[p].present && FreeSlots(s) == 0)
  {
    hide Core, Refines, Follows, Resolve, PickVictim, Hand, Swamp.Inv, Ready, Saves;
    AccessFails(cfg, s, f, p, choice);
    ClockAlwaysFinds(cfg, s, f, p);
    RoomIsAFreeSlot(s);
    CoreIsLinked(cfg, s);
    if AllSaved(cfg, s) && !s.pages[p].present {
      VictimSaved(cfg, s, p.pid);
    }
  }

  lemma CoreIsLinked(cfg: Config, s: State)
    requires Core(cfg, s)
    ensures Linked(s) && Resident(s)
  {
  }

  /** The places a new page may come to need: under quotas a free frame may belong to somebody else. */
  function Spare(cfg: Config, s: State): nat {
    FreeSlots(s) + if cfg.allocation.Dynamic? then FreeFrames(s) else 0
  }

  /** What is absent could not be kept in memory, so what is spare then is a slot. */
  lemma SpareIsASlot(cfg: Config, s: State, p: PageId)
    requires Ready(cfg, s) && p in s.pages && !s.pages[p].present
    ensures Spare(cfg, s) == FreeSlots(s)
  {
    hide Hand;
    FullHasNoFreeFrame(cfg, s);
  }

  /** The same with a common pool: an access fails when there are as many pages as frames and slots together. */
  lemma AccessFailsWhenFull(cfg: Config, s: State, f: Flat, p: PageId, choice: nat)
    requires cfg.allocation.Dynamic? && cfg.swap.allocation.Dynamic? && AllSaved(cfg, s)
    requires Simulates(cfg, s, f) && p in f.mem && choice < |s.tlb|
    ensures p in s.pages
    ensures Resolve(cfg, s, p, choice).Fail? <==> !s.pages[p].present && |f.mem| == |s.frames| + |s.swap.slots|
    ensures |f.mem| <= |s.frames| + |s.swap.slots|
  {
    hide Core, Refines, Follows, Resolve, Ready, AllSaved;
    AccessNeedsRoom(cfg, s, f, p, choice);
    PlacesConserved(cfg, s);
    ReadyIsWhole(cfg, s);
    if !s.pages[p].present {
      SpareIsASlot(cfg, s, p);
    }
    SamePages(cfg, s, f.mem);
  }

  lemma SamePages(cfg: Config, s: State, mem: map<PageId, Bytes>)
    requires Refines(cfg, s, mem)
    ensures |mem| == |s.pages| && mem.Keys == s.pages.Keys
  {
    RefinesKeys(cfg, s, mem);
    assert |mem| == |mem.Keys| && |s.pages| == |s.pages.Keys|;
  }

  lemma FreeFramesMayBeTaken(cfg: Config, s: State, pid: nat)
    requires cfg.allocation.Dynamic? && Core(cfg, s) && Ready(cfg, s)
    ensures MayTakeFrame(cfg, s, pid) <==> !Full(s.frames)
    ensures Full(s.frames) ==> Choices(cfg, s.frames, pid) > 0 && PickVictim(cfg, s, pid).Ok?
  {
    hide Sized, TlbAgrees, SwapAgrees, Stamped, Hand, Keys, MoveHand, Swept, Rank;
    PresentBounded(s);
    NoFreeFrameIsFull(s.frames);
    if Full(s.frames) {
      assert Wanted(cfg, pid)(s.frames[0]);
      CountPositive(s.frames, Wanted(cfg, pid));
    }
  }

  /** With a common pool, creating a page fails exactly when memory and swap are full of pages. */
  lemma CreateFailsWhenFull(cfg: Config, s: State, f: Flat, pid: nat, choice: nat)
    requires cfg.allocation.Dynamic? && cfg.swap.allocation.Dynamic? && AllSaved(cfg, s)
    requires Simulates(cfg, s, f) && pid in f.counts && choice < |s.tlb|
    ensures CreatePage(cfg, s, pid, choice).Fail? <==> |f.mem| == |s.frames| + |s.swap.slots|
  {
    hide Core, Refines, Follows, PickVictim, Hand, Swamp.Inv, Full, CreatePage, MayTakeFrame, Saves, Ready;
    CreateFails(cfg, s, f, pid, choice);
    PlacesConserved(cfg, s);
    ReadyIsWhole(cfg, s);
    RoomIsAFreeSlot(s);
    FullHasNoFreeFrame(cfg, s);
    SamePages(cfg, s, f.mem);
    FreeFramesMayBeTaken(cfg, s, pid);
    CoreIsLinked(cfg, s);
    if Full(s.frames) {
      VictimSaved(cfg, s, pid);
    }
  }

  // ---------------------------------------------------------------- quotas

  function Among(ps: set<nat>): Frame -> bool {
    (f: Frame) => f.Holds? && f.page.pid in ps
  }

  lemma {:induction false} OneLess(cfg: Config, frames: seq<Frame>, ps: set<nat>, pid: nat)
    requires cfg.allocation.Fixed? && pid in ps
    ensures Count(frames, Among(ps)) == Count(frames, Among(ps - {pid})) + Choices(cfg, frames, pid)
  {
    if |frames| > 0 {
      OneLess(cfg, frames[..|frames| - 1], ps, pid);
    }
  }

  lemma {:induction false} NobodyHolds(frames: seq<Frame>)
    ensures Count(frames, Among({})) == 0
  {
    if Count(frames, Among({})) > 0 {
      CountPositive(frames, Among({}));
    }
  }

  lemma OneTimesMore(quota: nat, n: nat)
    ensures quota * (n + 1) == quota * n + quota
  {
  }

  lemma {:induction false} HeldAmong(cfg: Config, frames: seq<Frame>, ps: set<nat>)
    requires cfg.allocation.Fixed? && forall k :: k in ps ==> Choices(cfg, frames, k) <= cfg.quota
    ensures Count(frames, Among(ps)) <= cfg.quota * |ps|
    decreases |ps|
  {
    hide Choices, Count;
    if ps == {} {
      NobodyHolds(frames);
    } else {
      var k :| k in ps;
      OneLess(cfg, frames, ps, k);
      HeldAmong(cfg, frames, ps - {k});
      OneTimesMore(cfg.quota, |ps - {k}|);
    }
  }

  lemma {:induction false} FreeOrAmong(frames: seq<Frame>, ps: set<nat>)
    requires Whole(frames) && forall i :: 0 <= i < |frames| && frames[i].Holds? ==> frames[i].page.pid in ps
    ensures Count(frames, Among(ps)) + Count(frames, Paging.IsFree()) == |frames|
  {
    if |frames| > 0 {
      FreeOrAmong(frames[..|frames| - 1], ps);
    }
  }

  /** The quotas of `count` processes fit in memory. */
  predicate QuotasFit(cfg: Config, frames: nat, count: nat) {
    cfg.allocation.Fixed? ==> cfg.quota >= 1 && cfg.quota * count <= frames
  }

  /** When the quotas fit, a process without a frame finds a free one. */
  lemma {:induction false} SomeFrameIsFree(cfg: Config, frames: seq<Frame>, ps: set<nat>, pid: nat)
    requires cfg.allocation.Fixed? && cfg.quota >= 1 && cfg.quota * |ps| <= |frames|
    requires pid in ps && Choices(cfg, frames, pid) == 0
    requires forall k :: k in ps ==> Choices(cfg, frames, k) <= cfg.quota
    requires Whole(frames) && forall i :: 0 <= i < |frames| && frames[i].Holds? ==> frames[i].page.pid in ps
    ensures Count(frames, Paging.IsFree()) > 0
  {
    hide Choices, Count;
    OneLess(cfg, frames, ps, pid);
    HeldAmong(cfg, frames, ps - {pid});
    FreeOrAmong(frames, ps);
    OneTimesMore(cfg.quota, |ps - {pid}|);
  }

  lemma QuotasHold(cfg: Config, s: State)
    requires cfg.allocation.Fixed? && Linked(s) && Ready(cfg, s)
    requires forall p :: p in s.pages ==> p.pid in s.procs
    ensures forall k :: k in s.procs ==> Choices(cfg, s.frames, k) <= cfg.quota
    ensures forall i :: 0 <= i < |s.frames| && s.frames[i].Holds? ==> s.frames[i].page.pid in s.procs
  {
    hide Hand, Choices;
  }

  lemma QuotasLeaveRoom(cfg: Config, s: State, pid: nat)
    requires cfg.allocation.Fixed? && Linked(s) && Resident(s) && Ready(cfg, s) && pid in s.procs
    requires forall p :: p in s.pages ==> p.pid in s.procs
    requires QuotasFit(cfg, |s.frames|, |s.procs|) && Choices(cfg, s.frames, pid) == 0
    ensures MayTakeFrame(cfg, s, pid)
  {
    QuotasHold(cfg, s);
    PresentBounded(s);
    ReadyIsWhole(cfg, s);
    hide Hand, Linked, Resident, Ready, Count;
    assert |s.procs| == |s.procs.Keys|;
    SomeFrameIsFree(cfg, s.frames, s.procs.Keys, pid);
    FullHasNoFreeFrame(cfg, s);
    NoFreeFrameIsFull(s.frames);
  }

  /** A page can be created when a place is spare, and under quotas when they fit in memory. */
  lemma CreateNeedsSpare(cfg: Config, s: State, f: Flat, pid: nat, choice: nat)
    requires cfg.swap.allocation.Dynamic? && QuotasFit(cfg, |s.frames|, |f.counts|)
    requires Simulates(cfg, s, f) && pid in f.counts && choice < |s.tlb| && Spare(cfg, s) > 0
    ensures CreatePage(cfg, s, pid, choice).Ok?
  {
    hide Core, Refines, Follows, PickVictim, Hand, Swamp.Inv, Full, CreatePage, MayTakeFrame, Saves, Ready;
    CreateFails(cfg, s, f, pid, choice);
    RoomIsAFreeSlot(s);
    CoreIsLinked(cfg, s);
    if cfg.allocation.Dynamic? {
      FullHasNoFreeFrame(cfg, s);
      FreeFramesMayBeTaken(cfg, s, pid);
    } else {
      SamePages(cfg, s, f.mem);
      assert |s.procs| == |s.procs.Keys| && |f.counts| == |f.counts.Keys|;
      if Choices(cfg, s.frames, pid) == 0 {
        QuotasLeaveRoom(cfg, s, pid);
      }
    }
  }

  // ---------------------------------------------------------------- what a request leaves

  lemma WriteTakesASlot(cfg: Swamp.Config, st: Swamp.State, p: PageId, page: Bytes)
    ensures var (st', reply) := Swamp.Write(cfg, st, p, page);
            reply == Swamp.Stored ==>
              && |st'.slots| == |st.slots|
              && Count(st'.slots, Swamp.IsFree()) + 1 == Count(st.slots, Swamp.IsFree())
  {
    hide Swamp.Admission, Swamp.Registered, Swamp.Adjusted;
    if Swamp.HasRoom(st) {
      CountUpdate(st.slots, Swamp.IsFree(), Swamp.FreeSlot(st.slots), Swamp.Slot(p.num, p.pid));
    }
  }

  lemma ReadGivesASlot(st: Swamp.State, p: PageId)
    ensures var (st', reply) := Swamp.Read(st, p);
            reply.Content? ==>
              && |st'.slots| == |st.slots|
              && Count(st'.slots, Swamp.IsFree()) == Count(st.slots, Swamp.IsFree()) + 1
  {
    hide Swamp.Adjusted;
    if Swamp.Stores(st, p) {
      CountUpdate(st.slots, Swamp.IsFree(), Swamp.SlotOf(st.slots, p), Swamp.Slot(-1, p.pid));
    }
  }

  /** Neither memory nor swap ever changes its size. */
  ghost predicate SameSize(s: State, s': State) {
    |s'.frames| == |s.frames| && |s'.swap.slots| == |s.swap.slots|
  }

  /** What has been written once stays so, and no page disappears. */
  ghost predicate SavesStay(cfg: Config, s: State, s': State) {
    forall p :: p in s.pages ==> p in s'.pages && (Saves(cfg, s.pages[p]) ==> Saves(cfg, s'.pages[p]))
  }

  lemma EvictLeaves(cfg: Config, s: State, f: Flat, pid: nat, s': State, m: nat)
    requires Sound(cfg, s, f) && Evict(cfg, s, pid) == Ok((s', m))
    ensures SameSize(s, s') && FreeSlots(s') + 1 >= FreeSlots(s) && FreeFrames(s') == FreeFrames(s) + 1
    ensures m < |s'.frames| && s'.frames[m].Free? && Moved(s, s')
  {
    hide Evict, PickVictim, Saved, Core, Refines, Follows, Ready, Moved, Candidates, Count, IsHeld;
    CoreIsLinked(cfg, s);
    EvictMoves(cfg, s, pid, s', m);
    EvictKeeps(cfg, s, pid, f.mem, s', m);
    CountUpdate(s.frames, Paging.IsFree(), m, Free);
    var s1, q, swap := EvictUnfolds(cfg, s, pid);
    PickedIsHeld(cfg, s, pid, s1, q);
    SavedTakes(cfg, s1, q);
    assert s'.swap == swap;
  }

  lemma SavedTakes(cfg: Config, s: State, q: PageId)
    ensures Saved(cfg, s, q).Ok? ==>
              var swap := Saved(cfg, s, q).value;
              && |swap.slots| == |s.swap.slots|
              && Count(swap.slots, Swamp.IsFree()) + 1 >= FreeSlots(s)
  {
    hide Swamp.Write;
    WriteTakesASlot(cfg.swap, s.swap, q, Cached(s, At(s.pages, q).frame));
  }

  lemma FaultLeaves(cfg: Config, s: State, f: Flat, p: PageId, s': State, m: nat)
    requires Sound(cfg, s, f) && p in s.pages && FaultIn(cfg, s, p) == Ok((s', m))
    ensures SameSize(s, s') && FreeSlots(s') >= FreeSlots(s) && FreeFrames(s') == FreeFrames(s)
  {
    hide Evict, Swamp.Read, Core, Refines, Follows, Ready;
    var s1 := Evict(cfg, s, p.pid).value.0;
    EvictLeaves(cfg, s, f, p.pid, s1, m);
    ReadGivesASlot(s1.swap, p);
    CountUpdate(s1.frames, Paging.IsFree(), m, Holds(p));
  }

  /** An access keeps every free place, and an access to a page in memory moves no page. */
  lemma ResolveLeaves(cfg: Config, s: State, f: Flat, p: PageId, choice: nat, s': State)
    requires Sound(cfg, s, f) && p in s.pages && choice < |s.tlb| && Resolve(cfg, s, p, choice) == Ok(s')
    ensures SameSize(s, s') && FreeSlots(s') >= FreeSlots(s) && FreeFrames(s') == FreeFrames(s)
    ensures Moved(s, s') && p in s'.pages && s'.pages[p].present
    ensures s.pages[p].present ==> s'.pages == s.pages && FreeSlots(s') == FreeSlots(s)
  {
    hide Resolve, FaultIn, Load, Core, Refines, Ready, Follows, Moved, FreeSlots, FreeFrames;
    ResolveKeeps(cfg, s, p, choice, f.mem, s');
    if InTlb(s.tlb, p) {
      ResolveHit(cfg, s, p, choice);
    } else if FrameOf(s.frames, p) < |s.frames| {
      ResolveFound(cfg, s, p, choice);
      SamePlaces(s, s');
    } else {
      CoreIsLinked(cfg, s);
      AbsentWhenNotFound(s, p);
      var s1, m := ResolveUnfolds(cfg, s, p, choice, s');
      FaultLeaves(cfg, s, f, p, s1, m);
      SamePlaces(s1, s');
    }
  }

  lemma SamePlaces(s: State, s': State)
    requires s'.frames == s.frames && s'.swap == s.swap
    ensures FreeSlots(s') == FreeSlots(s) && FreeFrames(s') == FreeFrames(s)
  {
  }

  /** Nothing is used up: sizes and places stay, and what has been written stays so. */
  ghost predicate Leaves(cfg: Config, s: State, s': State) {
    && SameSize(s, s') && FreeSlots(s') >= FreeSlots(s) && FreeFrames(s') == FreeFrames(s)
    && s'.pages.Keys == s.pages.Keys && s'.procs.Keys == s.procs.Keys && SavesStay(cfg, s, s')
  }

  ghost predicate SamePresence(s: State, s': State) {
    forall q :: q in s.pages ==> q in s'.pages && s'.pages[q].present == s.pages[q].present
  }

  lemma AccessedLeaves(cfg: Config, s: State, p: PageId, content: Bytes, ticks: nat, write: bool)
    requires p in s.pages
    ensures var s' := Accessed(cfg, s, p, content, ticks, write);
            && Leaves(cfg, s, s') && SamePresence(s, s') && (write ==> Saves(cfg, s'.pages[p]))
            && FreeSlots(s') == FreeSlots(s)
  {
    hide Count;
  }

  lemma MovedSaves(cfg: Config, s: State, s': State)
    requires Moved(s, s')
    ensures SavesStay(cfg, s, s') && s'.pages.Keys == s.pages.Keys && s'.procs.Keys == s.procs.Keys
  {
  }

  lemma LeavesThen(cfg: Config, s: State, s1: State, s': State)
    requires Leaves(cfg, s, s1) && Leaves(cfg, s1, s')
    ensures Leaves(cfg, s, s')
  {
    hide FreeSlots, FreeFrames, Saves;
  }

  lemma ResolvedLeaves(cfg: Config, s: State, f: Flat, p: PageId, choice: nat, s1: State)
    requires Sound(cfg, s, f) && p in s.pages && choice < |s.tlb| && Resolve(cfg, s, p, choice) == Ok(s1)
    ensures p in s1.pages && Leaves(cfg, s, s1)
    ensures s.pages[p].present ==> SamePresence(s, s1) && FreeSlots(s1) == FreeSlots(s)
  {
    hide Core, Refines, Ready, Follows, Resolve, FreeSlots, FreeFrames, Saves;
    ResolveLeaves(cfg, s, f, p, choice, s1);
    MovedSaves(cfg, s, s1);
  }

  lemma AccessThen(cfg: Config, s: State, s1: State, p: PageId, content: Bytes, ticks: nat, write: bool)
    requires p in s.pages && p in s1.pages && Leaves(cfg, s, s1)
    requires s.pages[p].present ==> SamePresence(s, s1) && FreeSlots(s1) == FreeSlots(s)
    ensures var s' := Accessed(cfg, s1, p, content, ticks, write);
            && Leaves(cfg, s, s') && (write ==> Saves(cfg, s'.pages[p]))
            && (s.pages[p].present ==> SamePresence(s, s') && FreeSlots(s') == FreeSlots(s))
  {
    hide Accessed, Leaves, Saves, FreeSlots;
    AccessedLeaves(cfg, s1, p, content, ticks, write);
    LeavesThen(cfg, s, s1, Accessed(cfg, s1, p, content, ticks, write));
  }

  /** A completed read or write, seen from the places it leaves. */
  lemma AccessLeaves(cfg: Config, s: State, f: Flat, op: Op, choice: nat, s': State, out: Option<Bytes>)
    requires Sound(cfg, s, f) && Enabled(f, op) && choice < |s.tlb| && (op.Read? || op.Write?)
    requires Step(cfg, s, op, choice) == Ok((s', out))
    ensures op.page in s.pages && Leaves(cfg, s, s') && (op.Write? ==> Saves(cfg, s'.pages[op.page]))
    ensures s.pages[op.page].present ==> SamePresence(s, s') && FreeSlots(s') == FreeSlots(s)
  {
    hide Core, Ready, Follows, Resolve, Patch, Cached, Ticks, Slice, Leaves, SamePresence, Accessed, Saves, Touch,
      FreeSlots;
    var p := op.page;
    RefinesKeys(cfg, s, f.mem);
    hide Refines;
    var s1 := Resolve(cfg, s, p, choice).value;
    ResolvedLeaves(cfg, s, f, p, choice, s1);
    var m := At(s1.pages, p).frame;
    match op
    case Read(_, _, _) =>
      AccessThen(cfg, s, s1, p, Cached(s1, m), Ticks(cfg, s, p), false);
      ReadIsAccessed(cfg, s1, p, Ticks(cfg, s, p));
    case Write(_, offset, data) =>
      AccessThen(cfg, s, s1, p, Patch(Cached(s1, m), offset, data), Ticks(cfg, s, p), true);
      WriteIsAccessed(cfg, s1, p, Patch(Cached(s1, m), offset, data), Ticks(cfg, s, p));
  }

  lemma ReadIsAccessed(cfg: Config, s: State, p: PageId, ticks: nat)
    ensures Touch(cfg, s, p, ticks, false) == Accessed(cfg, s, p, Cached(s, At(s.pages, p).frame), ticks, false)
  {
    var m := At(s.pages, p).frame;
    assert Put(s.cache, m, Cached(s, m)) == s.cache;
  }

  lemma WriteIsAccessed(cfg: Config, s: State, p: PageId, content: Bytes, ticks: nat)
    ensures var m := At(s.pages, p).frame;
            Touch(cfg, s.(cache := Put(s.cache, m, content)), p, ticks, true) ==
                Accessed(cfg, s, p, content, ticks, true)
  {
  }

  lemma CreatedLeaves(cfg: Config, s: State, pid: nat, m: nat, choice: nat)
    requires m < |s.frames| && s.frames[m].Free? && PageId(pid, Proc(s, pid).pages + 1) !in s.pages
    ensures var s', p := Created(cfg, s, pid, m, choice), PageId(pid, Proc(s, pid).pages + 1);
            && SameSize(s, s') && FreeSlots(s') == FreeSlots(s) && FreeFrames(s') + 1 == FreeFrames(s)
            && SavesStay(cfg, s, s') && s'.pages.Keys == s.pages.Keys + {p} && s'.pages[p].present
  {
    hide Load, Count;
    CountUpdate(s.frames, Paging.IsFree(), m, Holds(PageId(pid, Proc(s, pid).pages + 1)));
  }

  /** The tables have grown by the page `p`, which is in memory. */
  ghost predicate Grown(cfg: Config, s: State, s': State, p: PageId) {
    SameSize(s, s') && SavesStay(cfg, s, s') && s'.pages.Keys == s.pages.Keys + {p} && s'.pages[p].present
  }

  lemma GrownThen(cfg: Config, s: State, s1: State, s': State, p: PageId)
    requires SameSize(s, s1) && Moved(s, s1) && Grown(cfg, s1, s', p)
    ensures Grown(cfg, s, s', p)
  {
    MovedSaves(cfg, s, s1);
    hide Moved, Saves;
  }

  /** A page created after an eviction */
  lemma EvictedLeaves(cfg: Config, s: State, f: Flat, pid: nat, s1: State, m: nat, choice: nat)
    requires Sound(cfg, s, f) && pid in s.procs && Evict(cfg, s, pid) == Ok((s1, m))
    requires PageId(pid, Proc(s, pid).pages + 1) !in s.pages
    ensures var s' := Created(cfg, s1, pid, m, choice);
            Grown(cfg, s, s', PageId(pid, Proc(s, pid).pages + 1)) && Spare(cfg, s') + 1 >= Spare(cfg, s)
  {
    hide Evict, Created, Sound, FreeSlots, FreeFrames, Moved, SavesStay;
    EvictLeaves(cfg, s, f, pid, s1, m);
    MovedProc(s, s1, pid);
    CreatedLeaves(cfg, s1, pid, m, choice);
    GrownThen(cfg, s, s1, Created(cfg, s1, pid, m, choice), PageId(pid, Proc(s, pid).pages + 1));
  }

  /** A completed creation uses up one place at most, and the new page is in memory. */
  lemma CreateLeaves(cfg: Config, s: State, f: Flat, pid: nat, choice: nat, s': State)
    requires Sound(cfg, s, f) && pid in f.counts && choice < |s.tlb|
    requires CreatePage(cfg, s, pid, choice) == Ok(s')
    ensures var p := PageId(pid, f.counts[pid] + 1);
            p !in s.pages && Grown(cfg, s, s', p) && Spare(cfg, s') + 1 >= Spare(cfg, s)
  {
    hide CreatePage, Evict, Created, Sound, FreeSlots, FreeFrames, MayTakeFrame, SavesStay;
    CreateIsNew(cfg, s, f, pid);
    var s1, m := CreateUnfolds(cfg, s, pid, choice, s');
    if MayTakeFrame(cfg, s, pid) {
      FirstFree(cfg, s, pid);
      CreatedLeaves(cfg, s, pid, m, choice);
    } else {
      EvictedLeaves(cfg, s, f, pid, s1, m, choice);
    }
  }

  lemma MovedProc(s: State, s': State, pid: nat)
    requires Moved(s, s') && pid in s.procs
    ensures Proc(s', pid).pages == Proc(s, pid).pages && s'.pages.Keys == s.pages.Keys
  {
  }

  lemma FirstFree(cfg: Config, s: State, pid: nat)
    requires MayTakeFrame(cfg, s, pid)
    ensures var m := First(s.frames, Paging.IsFree()); m < |s.frames| && s.frames[m].Free?
  {
  }

  lemma CreateIsNew(cfg: Config, s: State, f: Flat, pid: nat)
    requires Sound(cfg, s, f) && pid in f.counts
    ensures pid in s.procs && Proc(s, pid).pages == f.counts[pid] && PageId(pid, f.counts[pid] + 1) !in s.pages
  {
    hide Core, Ready, Follows;
    RefinesKeys(cfg, s, f.mem);
    hide Refines;
  }

  // ---------------------------------------------------------------- runs that fit always complete

  /** Under the clock, every page is written straight after it has been created; under LRU no run is excluded. */
  predicate Careful(cfg: Config, f: Flat, run: seq<Request>)
    requires AllEnabled(cfg, f, run)
    decreases |run|
  {
    |run| > 0 ==>
      && (cfg.replacement.MClock? && run[0].op.Create? && |run| > 1 ==>
            run[1].op.Write? && run[1].op.page == PageId(run[0].op.pid, f.counts[run[0].op.pid] + 1))
      && Careful(cfg, FlatStep(cfg, f, run[0].op).0, run[1..])
  }

  /** Whatever has not been written is in memory, and is what the run writes next. */
  ghost predicate Pending(cfg: Config, s: State, run: seq<Request>) {
    forall p :: p in s.pages && !Saves(cfg, s.pages[p]) ==>
      s.pages[p].present && (|run| > 0 ==> run[0].op.Write? && run[0].op.page == p)
  }

  lemma {:induction false} FlatOnlyGrows(cfg: Config, f: Flat, run: seq<Request>)
    requires AllEnabled(cfg, f, run)
    ensures |f.mem| <= |FlatRun(cfg, f, run).0.mem| && |f.counts| <= |FlatRun(cfg, f, run).0.counts|
    decreases |run|
  {
    if |run| > 0 {
      var f1 := FlatStep(cfg, f, run[0].op).0;
      FlatOnlyGrows(cfg, f1, run[1..]);
      SubsetBounded(f.mem.Keys, f1.mem.Keys);
      PidsBounded(f.counts.Keys, f1.counts.Keys);
      assert |f.mem| == |f.mem.Keys| && |f1.mem| == |f1.mem.Keys|;
      assert |f.counts| == |f.counts.Keys| && |f1.counts| == |f1.counts.Keys|;
    }
  }

  lemma PidsBounded(a: set<nat>, b: set<nat>)
    requires a <= b
    ensures |a| <= |b|
  {
    assert b == a + (b - a);
  }

  lemma FewerQuotasFit(cfg: Config, frames: nat, fewer: nat, more: nat)
    requires QuotasFit(cfg, frames, more) && fewer <= more
    ensures QuotasFit(cfg, frames, fewer)
  {
    assert cfg.quota * more == cfg.quota * fewer + cfg.quota * (more - fewer);
  }

  /** Under LRU nothing is asked of a run. */
  lemma {:induction false} LruIsCareful(cfg: Config, s: State, f: Flat, run: seq<Request>)
    requires cfg.replacement.Lru? && AllEnabled(cfg, f, run)
    ensures Careful(cfg, f, run) && Pending(cfg, s, run) && AllSaved(cfg, s)
    decreases |run|
  {
    hide FlatStep, Enabled;
    if |run| > 0 {
      LruIsCareful(cfg, s, FlatStep(cfg, f, run[0].op).0, run[1..]);
    }
  }

  predicate Accesses(op: Op) {
    op.Read? || op.Write?
  }

  /** The request is for an absent page, and nothing is spare to store a victim in. */
  predicate Misses(cfg: Config, s: State, op: Op) {
    Accesses(op) && Spare(cfg, s) == 0 && !At(s.pages, op.page).present
  }

  /** With room for the page it creates, a request fails exactly when it misses. */
  lemma StepCompletes(cfg: Config, s: State, f: Flat, run: seq<Request>)
    requires cfg.swap.allocation.Dynamic? && QuotasFit(cfg, |s.frames|, |f.counts|)
    requires Simulates(cfg, s, f) && |run| > 0 && Enabled(f, run[0].op) && run[0].choice < |s.tlb|
    requires (run[0].op.Create? ==> Spare(cfg, s) > 0) && Pending(cfg, s, run)
    ensures Step(cfg, s, run[0].op, run[0].choice).Ok? <==> !Misses(cfg, s, run[0].op)
  {
    hide Resolve, CreatePage, QuotasFit, Core, Refines, Follows, Spare, Pending;
    match run[0].op
    case Register(_) =>
    case Create(pid) => CreateNeedsSpare(cfg, s, f, pid, run[0].choice);
    case Read(p, _, _) => AccessCompletes(cfg, s, f, run, p, run[0].choice);
    case Write(p, _, _) => AccessCompletes(cfg, s, f, run, p, run[0].choice);
  }

  lemma AccessCompletes(cfg: Config, s: State, f: Flat, run: seq<Request>, p: PageId, choice: nat)
    requires cfg.swap.allocation.Dynamic? && Simulates(cfg, s, f) && p in f.mem && choice < |s.tlb|
    requires Pending(cfg, s, run) && |run| > 0 && Accesses(run[0].op) && run[0].op.page == p
    ensures Resolve(cfg, s, p, choice).Ok? <==> !Misses(cfg, s, run[0].op)
  {
    hide Resolve, Core, Refines, Follows, Ready, FreeSlots, FreeFrames, Saves, Pending;
    AccessNeedsRoom(cfg, s, f, p, choice);
    if !s.pages[p].present {
      SpareIsASlot(cfg, s, p);
      NothingPending(cfg, s, run, p);
    }
  }

  /** A run that goes on with an absent page has nothing left to write. */
  lemma NothingPending(cfg: Config, s: State, run: seq<Request>, p: PageId)
    requires Pending(cfg, s, run) && |run| > 0 && Accesses(run[0].op) && run[0].op.page == p
    requires p in s.pages && !s.pages[p].present
    ensures AllSaved(cfg, s)
  {
    hide Saves;
  }

  lemma StepLeaves(cfg: Config, s: State, f: Flat, op: Op, choice: nat, s': State, out: Option<Bytes>)
    requires Sound(cfg, s, f) && Enabled(f, op) && choice < |s.tlb| && Step(cfg, s, op, choice) == Ok((s', out))
    ensures SameSize(s, s') && |FlatStep(cfg, f, op).0.mem| + Spare(cfg, s') >= |f.mem| + Spare(cfg, s)
  {
    hide Sound, ReadPage, WritePage, CreatePage, FreeSlots, FreeFrames, SavesStay, SamePresence, Saves, Slice,
      Patch;
    match op
    case Register(pid) => SamePlaces(s, s');
    case Create(pid) =>
      CreateLeaves(cfg, s, f, pid, choice, s');
      assert PageId(pid, f.counts[pid] + 1) !in f.mem by { NotYet(cfg, s, f, pid); }
    case Read(p, _, _) => AccessLeaves(cfg, s, f, op, choice, s', out);
    case Write(p, _, _) =>
      AccessLeaves(cfg, s, f, op, choice, s', out);
      assert FlatStep(cfg, f, op).0.mem.Keys == f.mem.Keys;
      SameNumber(FlatStep(cfg, f, op).0.mem, f.mem);
  }

  lemma SameNumber(a: map<PageId, Bytes>, b: map<PageId, Bytes>)
    requires a.Keys == b.Keys
    ensures |a| == |b|
  {
    assert |a| == |a.Keys| && |b| == |b.Keys|;
  }

  lemma NotYet(cfg: Config, s: State, f: Flat, pid: nat)
    requires Sound(cfg, s, f) && pid in f.counts
    ensures PageId(pid, f.counts[pid] + 1) !in f.mem
  {
    hide Core, Refines, Ready, Follows;
  }

  lemma {:induction false} StepPending(cfg: Config, s: State, f: Flat, run: seq<Request>, s': State, out: Option<Bytes>)
    requires Sound(cfg, s, f) && |run| > 0 && AllEnabled(cfg, f, run) && Careful(cfg, f, run)
    requires run[0].choice < |s.tlb| && Step(cfg, s, run[0].op, run[0].choice) == Ok((s', out)) && Pending(cfg, s, run)
    ensures Pending(cfg, s', run[1..])
  {
    hide Sound, ReadPage, WritePage, CreatePage, FreeSlots, FreeFrames;
    var op, choice := run[0].op, run[0].choice;
    match op
    case Register(pid) =>
    case Create(pid) => CreateLeaves(cfg, s, f, pid, choice, s');
    case Read(p, _, _) => AccessLeaves(cfg, s, f, op, choice, s', out);
    case Write(p, _, _) => AccessLeaves(cfg, s, f, op, choice, s', out);
  }

  /** No request of the run misses, up to the first one that fails. */
  predicate NoneMisses(cfg: Config, s: State, run: seq<Request>)
    decreases |run|
  {
    |run| > 0 ==>
      && !Misses(cfg, s, run[0].op)
      && var first := Step(cfg, s, run[0].op, run[0].choice);
         first.Ok? ==> NoneMisses(cfg, first.value.0, run[1..])
  }

  /** Whoever creates a page of the run finds a place spare. */
  lemma {:induction false} CreatorFindsSpare(cfg: Config, s: State, f: Flat, run: seq<Request>)
    requires AllEnabled(cfg, f, run) && |run| > 0 && run[0].op.Create? && Sound(cfg, s, f)
    requires |FlatRun(cfg, f, run).0.mem| <= |f.mem| + Spare(cfg, s)
    ensures Spare(cfg, s) > 0
  {
    hide Sound, Spare;
    FlatOnlyGrows(cfg, FlatStep(cfg, f, run[0].op).0, run[1..]);
    NotYet(cfg, s, f, run[0].op.pid);
    OneMore(f.mem, PageId(run[0].op.pid, f.counts[run[0].op.pid] + 1), Blank(cfg));
  }

  lemma OneMore(mem: map<PageId, Bytes>, p: PageId, content: Bytes)
    requires p !in mem
    ensures |mem[p := content]| == |mem| + 1
  {
    assert mem[p := content].Keys == mem.Keys + {p} && |mem| == |mem.Keys|;
  }

  /**
    A run that needs no more places than are spare completes exactly when no request in it misses, and then with
    the answers of the flat memory; when it leaves one place spare it always completes.  So it is under LRU and,
    when pages are written as soon as they are created, under the clock; with a common pool, and with quotas that
    fit in memory.
   */
  lemma {:induction false} FittingRunsComplete(cfg: Config, s: State, f: Flat, run: seq<Request>)
    requires cfg.swap.allocation.Dynamic? && Simulates(cfg, s, f) && AllEnabled(cfg, f, run)
    requires Careful(cfg, f, run) && Pending(cfg, s, run)
    requires forall i :: 0 <= i < |run| ==> run[i].choice < |s.tlb|
    requires QuotasFit(cfg, |s.frames|, |FlatRun(cfg, f, run).0.counts|)
    requires |FlatRun(cfg, f, run).0.mem| <= |f.mem| + Spare(cfg, s)
    ensures Run(cfg, s, run).Ok? <==> NoneMisses(cfg, s, run)
    ensures Run(cfg, s, run).Ok? ==> Run(cfg, s, run).value.1 == FlatRun(cfg, f, run).1
    ensures |FlatRun(cfg, f, run).0.mem| < |f.mem| + Spare(cfg, s) ==> Run(cfg, s, run).Ok?
    decreases |run|
  {
    hide Sound, Ready, Step, FlatStep, Enabled, Spare, Pending, QuotasFit;
    if |run| > 0 {
      var op, choice := run[0].op, run[0].choice;
      FlatOnlyGrows(cfg, f, run);
      FewerQuotasFit(cfg, |s.frames|, |f.counts|, |FlatRun(cfg, f, run).0.counts|);
      if op.Create? {
        CreatorFindsSpare(cfg, s, f, run);
      }
      StepCompletes(cfg, s, f, run);
      if !Misses(cfg, s, op) {
        var (s1, out) := Step(cfg, s, op, choice).value;
        StepKeeps(cfg, s, f, op, choice, s1, out);
        StepLeaves(cfg, s, f, op, choice, s1, out);
        StepPending(cfg, s, f, run, s1, out);
        FittingRunsComplete(cfg, s1, FlatStep(cfg, f, op).0, run[1..]);
      }
    }
  }

  /** No request of the run creates a page, and every one for a page is for one that is in memory now. */
  predicate StaysIn(s: State, run: seq<Request>) {
    forall i :: 0 <= i < |run| ==> !run[i].op.Create? && (Accesses(run[i].op) ==> At(s.pages, run[i].op.page).present)
  }

  /**
    Once nothing is spare the pages in memory stay where they are, so a run that creates none misses exactly when
    it asks for a page that was absent then.
   */
  lemma {:induction false} OnceFull(cfg: Config, s: State, f: Flat, run: seq<Request>)
    requires Simulates(cfg, s, f) && AllEnabled(cfg, f, run) && Spare(cfg, s) == 0
    requires forall i :: 0 <= i < |run| ==> !run[i].op.Create? && run[i].choice < |s.tlb|
    requires cfg.swap.allocation.Dynamic? && AllSaved(cfg, s)
    ensures NoneMisses(cfg, s, run) <==> StaysIn(s, run)
    decreases |run|
  {
    hide Simulates, Step, FlatStep, Enabled, Spare, AllSaved, SamePresence;
    if |run| > 0 && !Misses(cfg, s, run[0].op) {
      var op, choice := run[0].op, run[0].choice;
      var s1, f1 := Still(cfg, s, f, op, choice);
      StaysInAgain(s, s1, run);
      OnceFull(cfg, s1, f1, run[1..]);
    }
  }

  lemma {:induction false} StaysInAgain(s: State, s1: State, run: seq<Request>)
    requires |run| > 0 && !run[0].op.Create? && (Accesses(run[0].op) ==> At(s.pages, run[0].op.page).present)
    requires SamePresence(s, s1) && s1.pages.Keys == s.pages.Keys
    ensures StaysIn(s1, run[1..]) <==> StaysIn(s, run)
  {
    assert forall i :: 0 < i < |run| ==> run[i] == run[1..][i - 1];
    assert forall p :: At(s1.pages, p).present == At(s.pages, p).present;
    hide SamePresence, At;
  }

  /** A request that neither creates a page nor misses completes and moves no page. */
  lemma Still(cfg: Config, s: State, f: Flat, op: Op, choice: nat) returns (s1: State, f1: Flat)
    requires Simulates(cfg, s, f) && Enabled(f, op) && Spare(cfg, s) == 0 && choice < |s.tlb| && !op.Create?
    requires cfg.swap.allocation.Dynamic? && AllSaved(cfg, s) && !Misses(cfg, s, op)
    ensures Step(cfg, s, op, choice).Ok? && s1 == Step(cfg, s, op, choice).value.0 && f1 == FlatStep(cfg, f, op).0
    ensures Simulates(cfg, s1, f1) && |s1.tlb| == |s.tlb| && Spare(cfg, s1) == 0 && AllSaved(cfg, s1)
    ensures SamePresence(s, s1) && s1.pages.Keys == s.pages.Keys
  {
    hide Sound, Ready, Resolve, FreeSlots, FreeFrames, Saves, ReadPage, WritePage;
    f1 := FlatStep(cfg, f, op).0;
    if op.Register? {
      s1 := Paging.Register(s, op.pid);
      StepKeeps(cfg, s, f, op, choice, s1, None);
      SamePlaces(s, s1);
    } else {
      PresentCompletes(cfg, s, f, op, choice);
      s1 := Step(cfg, s, op, choice).value.0;
      var out := Step(cfg, s, op, choice).value.1;
      StepKeeps(cfg, s, f, op, choice, s1, out);
      AccessLeaves(cfg, s, f, op, choice, s1, out);
    }
  }

  lemma PresentCompletes(cfg: Config, s: State, f: Flat, op: Op, choice: nat)
    requires Simulates(cfg, s, f) && Enabled(f, op) && choice < |s.tlb| && Accesses(op) && At(s.pages, op.page).present
    ensures Step(cfg, s, op, choice).Ok?
  {
    hide Simulates, Resolve, Blocked;
    AccessFails(cfg, s, f, op.page, choice);
  }

  lemma BootIsSpare(cfg: Config, frames: nat, entries: nat, slots: nat)
    ensures FreeFrames(Boot(cfg, frames, entries, slots)) == frames
    ensures FreeSlots(Boot(cfg, frames, entries, slots)) == slots
  {
    var s := Boot(cfg, frames, entries, slots);
    AllCounted(s.frames, Paging.IsFree());
    AllCounted(s.swap.slots, Swamp.IsFree());
  }

  lemma {:induction false} AllCounted<T>(xs: seq<T>, f: T -> bool)
    requires forall i :: 0 <= i < |xs| ==> f(xs[i])
    ensures Count(xs, f) == |xs|
  {
    if |xs| > 0 {
      AllCounted(xs[..|xs| - 1], f);
    }
  }

  /** The same from the start, where the number of pages the run creates is what counts. */
  lemma {:induction false} FittingRunsCompleteFromBoot(
      cfg: Config, frames: nat, entries: nat, slots: nat, run: seq<Request>)
    requires cfg.swap.allocation.Dynamic? && frames >= 1 && entries >= 1
    requires AllEnabled(cfg, Flat(map[], map[], []), run) && Careful(cfg, Flat(map[], map[], []), run)
    requires forall i :: 0 <= i < |run| ==> run[i].choice < entries
    requires QuotasFit(cfg, frames, |FlatRun(cfg, Flat(map[], map[], []), run).0.counts|)
    requires var places := slots + if cfg.allocation.Dynamic? then frames else 0;
             |FlatRun(cfg, Flat(map[], map[], []), run).0.mem| <= places
    ensures var boot := Boot(cfg, frames, entries, slots);
            var places := slots + if cfg.allocation.Dynamic? then frames else 0;
            && (Run(cfg, boot, run).Ok? <==> NoneMisses(cfg, boot, run))
            && (Run(cfg, boot, run).Ok? ==> Run(cfg, boot, run).value.1 == FlatRun(cfg, Flat(map[], map[], []), run).1)
            && (|FlatRun(cfg, Flat(map[], map[], []), run).0.mem| < places ==> Run(cfg, boot, run).Ok?)
  {
    hide Simulates, Run, AllEnabled, FlatRun, Careful, NoneMisses;
    BootSimulates(cfg, frames, entries, slots);
    BootIsSpare(cfg, frames, entries, slots);
    FittingRunsComplete(cfg, Boot(cfg, frames, entries, slots), Flat(map[], map[], []), run);
  }

  // ---------------------------------------------------------------- a run that loses a page

  ghost predicate Unwritten(s: State) {
    forall p :: p in s.pages ==> !s.pages[p].modified
  }

  /** Creating pages writes none. */
  lemma CreateWritesNothing(cfg: Config, s: State, f: Flat, pid: nat, choice: nat, s': State)
    requires Simulates(cfg, s, f) && pid in f.counts && CreatePage(cfg, s, pid, choice) == Ok(s') && Unwritten(s)
    ensures Unwritten(s')
  {
    hide CreatePage, Evict, Core, Refines, Ready, Follows, Load, MayTakeFrame;
    CoreIsLinked(cfg, s);
    var s1, m := CreateUnfolds(cfg, s, pid, choice, s');
    if !MayTakeFrame(cfg, s, pid) {
      EvictMoves(cfg, s, pid, s1, m);
    }
  }

  /** Under the clock unwritten pages need no slot, so with a common pool one more can always be created. */
  lemma UnwrittenGrows(cfg: Config, s: State, f: Flat, pid: nat, choice: nat)
    requires cfg.replacement.MClock? && cfg.allocation.Dynamic?
    requires Simulates(cfg, s, f) && pid in f.counts && choice < |s.tlb| && Unwritten(s)
    ensures CreatePage(cfg, s, pid, choice).Ok?
    ensures var s' := CreatePage(cfg, s, pid, choice).value;
            && Simulates(cfg, s', FlatStep(cfg, f, Create(pid)).0) && Unwritten(s')
            && |s'.tlb| == |s.tlb| && Grown(cfg, s, s', PageId(pid, f.counts[pid] + 1))
  {
    hide CreatePage, Core, Refines, Ready, Follows, MayTakeFrame, PickVictim, Grown;
    CreateFails(cfg, s, f, pid, choice);
    if PickVictim(cfg, s, pid).Ok? {
      VictimIsKnown(cfg, s, pid);
    }
    var s' := CreatePage(cfg, s, pid, choice).value;
    CreateLeaves(cfg, s, f, pid, choice, s');
    CreateWritesNothing(cfg, s, f, pid, choice, s');
    StepKeeps(cfg, s, f, Create(pid), choice, s', None);
  }

  lemma VictimIsKnown(cfg: Config, s: State, pid: nat)
    requires Core(cfg, s) && PickVictim(cfg, s, pid).Ok?
    ensures PickVictim(cfg, s, pid).value.1 in s.pages
  {
    var (s1, q) := PickVictim(cfg, s, pid).value;
    PickedIsHeld(cfg, s, pid, s1, q);
    hide PickVictim;
  }

  lemma OneAtATime(cfg: Config, s: State, p: PageId, q: PageId)
    requires Core(cfg, s) && |s.frames| == 1 && p in s.pages && q in s.pages && p != q && s.pages[q].present
    ensures !s.pages[p].present
  {
  }

  /** In one frame the second page of a process takes the place of the first, which was never stored. */
  lemma SecondTakesItsPlace(cfg: Config, s: State, f: Flat, pid: nat)
    requires cfg.replacement.MClock? && cfg.allocation.Dynamic? && Simulates(cfg, s, f) && Unwritten(s)
    requires |s.frames| == 1 && |s.tlb| >= 1 && pid in f.counts && f.counts[pid] == 0
    ensures CreatePage(cfg, s, pid, 0).Ok? && CreatePage(cfg, CreatePage(cfg, s, pid, 0).value, pid, 0).Ok?
    ensures var s' := CreatePage(cfg, CreatePage(cfg, s, pid, 0).value, pid, 0).value;
            var p := PageId(pid, 1);
            p in s'.pages && !s'.pages[p].present && Resolve(cfg, s', p, 0).Fail?
  {
    hide CreatePage, Simulates, Resolve, SavesStay, Unwritten;
    UnwrittenGrows(cfg, s, f, pid, 0);
    var s2, f2 := CreatePage(cfg, s, pid, 0).value, FlatStep(cfg, f, Create(pid)).0;
    assert pid in f2.counts && f2.counts[pid] == 1;
    UnwrittenGrows(cfg, s2, f2, pid, 0);
    var s3, f3 := CreatePage(cfg, s2, pid, 0).value, FlatStep(cfg, f2, Create(pid)).0;
    hide FlatStep;
    LostOne(cfg, s3, f3, PageId(pid, 1), PageId(pid, 2));
  }

  /**
    Under the clock an access can fail: in one frame, a page is created, a second one takes its place, and
    the first is asked for.
   */
  lemma {:induction false} UnwrittenPageIsLost(cfg: Config, entries: nat, slots: nat, pid: nat)
    requires cfg.replacement.MClock? && cfg.allocation.Dynamic? && entries >= 1
    ensures var run := [Request(Register(pid), 0), Request(Create(pid), 0), Request(Create(pid), 0)];
            var p := PageId(pid, 1);
            && Run(cfg, Boot(cfg, 1, entries, slots), run).Ok?
            && var s := Run(cfg, Boot(cfg, 1, entries, slots), run).value.0;
               p in s.pages && !s.pages[p].present && Resolve(cfg, s, p, 0).Fail?
  {
    hide CreatePage, Simulates, Resolve, Boot, Run, Paging.Register, Unwritten;
    var boot, none := Boot(cfg, 1, entries, slots), Flat(map[], map[], []);
    BootSimulates(cfg, 1, entries, slots);
    BootIsEmpty(cfg, entries, slots, pid);
    StepKeeps(cfg, boot, none, Register(pid), 0, Paging.Register(boot, pid), None);
    SecondTakesItsPlace(cfg, Paging.Register(boot, pid), FlatStep(cfg, none, Register(pid)).0, pid);
    ThreeSteps(cfg, boot, pid);
  }

  lemma BootIsEmpty(cfg: Config, entries: nat, slots: nat, pid: nat)
    ensures var s := Paging.Register(Boot(cfg, 1, entries, slots), pid);
            Unwritten(s) && |s.frames| == 1 && |s.tlb| == |Boot(cfg, 1, entries, slots).tlb| == entries
  {
  }

  lemma LostOne(cfg: Config, s: State, f: Flat, p: PageId, q: PageId)
    requires cfg.replacement.MClock? && Simulates(cfg, s, f) && |s.frames| == 1 && Unwritten(s) && |s.tlb| >= 1
    requires p in s.pages && q in s.pages && p != q && s.pages[q].present
    ensures !s.pages[p].present && Resolve(cfg, s, p, 0).Fail?
  {
    hide Core, Refines, Ready, Follows, Resolve, Blocked;
    RefinesKeys(cfg, s, f.mem);
    OneAtATime(cfg, s, p, q);
    AccessFails(cfg, s, f, p, 0);
  }

  lemma {:induction false} OneStepFirst(cfg: Config, s: State, op: Op, s': State, run: seq<Request>)
    requires Step(cfg, s, op, 0) == Ok((s', None)) && Run(cfg, s', run).Ok?
    ensures Run(cfg, s, [Request(op, 0)] + run).Ok?
    ensures Run(cfg, s, [Request(op, 0)] + run).value.0 == Run(cfg, s', run).value.0
  {
    hide Step;
    assert ([Request(op, 0)] + run)[1..] == run;
  }

  lemma {:induction false} ThreeSteps(cfg: Config, s: State, pid: nat)
    requires var s1 := Paging.Register(s, pid);
             CreatePage(cfg, s1, pid, 0).Ok? && CreatePage(cfg, CreatePage(cfg, s1, pid, 0).value, pid, 0).Ok?
    ensures var run := [Request(Register(pid), 0), Request(Create(pid), 0), Request(Create(pid), 0)];
            var s2 := CreatePage(cfg, Paging.Register(s, pid), pid, 0).value;
            Run(cfg, s, run).Ok? && Run(cfg, s, run).value.0 == CreatePage(cfg, s2, pid, 0).value
  {
    hide CreatePage, Paging.Register;
    var s1 := Paging.Register(s, pid);
    var s2 := CreatePage(cfg, s1, pid, 0).value;
    var s3 := CreatePage(cfg, s2, pid, 0).value;
    var create := [Request(Create(pid), 0)];
    OneStepFirst(cfg, s2, Create(pid), s3, []);
    assert create + [] == create;
    OneStepFirst(cfg, s1, Create(pid), s2, create);
    OneStepFirst(cfg, s, Register(pid), s1, create + create);
    assert [Request(Register(pid), 0)] + (create + create) == [Request(Register(pid), 0), create[0], create[0]];
  }
}
