/** When accesses to several pages, and the creation of several pages, complete, and what they leave. */
module Completion {
  import opened Base
  import opened Paging
  import opened PagingInvariant
  import opened PagingRun
  import opened PagingTheorems
  import opened Capacity
  import opened Compaction

  predicate IsHere(s: State, p: PageId) {
    p in s.pages && s.pages[p].present
  }

  /** All pages of a list are in memory. */
  ghost predicate Here(s: State, ps: seq<PageId>) {
    forall i :: 0 <= i < |ps| ==> IsHere(s, ps[i])
  }

  /** All pages of a list are stored when they leave memory. */
  ghost predicate Safe(cfg: Config, s: State, ps: seq<PageId>) {
    forall i :: 0 <= i < |ps| ==> ps[i] in s.pages && Saves(cfg, s.pages[ps[i]])
  }

  /** LRU with a common pool, in memory and in swap: what can be said there does not depend on the clock hands. */
  predicate Pooled(cfg: Config) {
    cfg.replacement.Lru? && cfg.allocation.Dynamic? && cfg.swap.allocation.Dynamic?
  }

  /** Some frame has not been lost and is not free, so there is a page to evict. */
  predicate CandidateLeft(s: State) {
    FreeFrames(s) + LostFrames(s) < |s.frames|
  }

  /**
    When accesses to the pages of a list, one after another, complete: certainly when all are in memory.  Under LRU
    with a common pool, whatever has been compacted, otherwise only when a page can be evicted and a slot is free.
    As long as the pager can go on, also when all are stored on leaving memory and a slot is free, and when no page
    can be lost, in these cases only.
   */
  ghost predicate Completes(cfg: Config, s: State, ps: seq<PageId>, ok: bool) {
    && (Here(s, ps) ==> ok)
    && (Ready(cfg, s) ==> Decided(cfg, s, ps, ok))
    && (Pooled(cfg) ==> (ok <==> Here(s, ps) || (CandidateLeft(s) && FreeSlots(s) > 0)))
  }

  ghost predicate Decided(cfg: Config, s: State, ps: seq<PageId>, ok: bool) {
    && (cfg.swap.allocation.Dynamic? && Safe(cfg, s, ps) && FreeSlots(s) > 0 ==> ok)
    && (cfg.swap.allocation.Dynamic? && AllSaved(cfg, s) ==> (ok <==> Here(s, ps) || FreeSlots(s) > 0))
  }

  /**
    What completed accesses leave: every place there was and, with all pages in memory, everything where it was.  No
    frame is lost, and a pager that could go on still can.
   */
  ghost predicate Leaving(cfg: Config, s: State, s': State, ps: seq<PageId>) {
    && Leaves(cfg, s, s') && LostFrames(s') == LostFrames(s) && (Ready(cfg, s) ==> Ready(cfg, s'))
    && (Here(s, ps) ==> SamePresence(s, s') && FreeSlots(s') == FreeSlots(s))
  }

  lemma ReadCompletes(cfg: Config, s: State, f: Flat, p: PageId, offset: nat, size: nat, choice: nat)
    requires Sound(cfg, s, f) && p in f.mem && choice < |s.tlb|
    ensures p in s.pages && Completes(cfg, s, [p], Resolve(cfg, s, p, choice).Ok?)
    ensures var r := ReadPage(cfg, s, p, offset, size, choice); r.Ok? ==> Leaving(cfg, s, r.value.0, [p])
  {
    hide Sound, Ready, Resolve, Leaves, SamePresence, FreeSlots, Completes, ReadPage, SameLost, Count;
    PageIsKnown(cfg, s, f, p);
    AccessOutcome(cfg, s, f, p, choice);
    var r := ReadPage(cfg, s, p, offset, size, choice);
    if r.Ok? {
      ReadKeeps(cfg, s, f, p, offset, size, choice, r.value.0, r.value.1);
      AccessLeaves(cfg, s, f, Read(p, offset, size), choice, r.value.0, r.value.1);
      StepLosesNone(cfg, s, f, Read(p, offset, size), choice, r.value.0, r.value.1);
      SameLostCount(s.frames, r.value.0.frames);
    }
    assert Here(s, [p]) <==> IsHere(s, [p][0]);
  }

  lemma WriteCompletes(cfg: Config, s: State, f: Flat, p: PageId, offset: nat, data: Bytes, choice: nat)
    requires Sound(cfg, s, f) && p in f.mem && choice < |s.tlb|
    ensures p in s.pages && Completes(cfg, s, [p], Resolve(cfg, s, p, choice).Ok?)
    ensures var r := WritePage(cfg, s, p, offset, data, choice); r.Ok? ==> Leaving(cfg, s, r.value.0, [p])
  {
    hide Sound, Ready, Resolve, Leaves, SamePresence, FreeSlots, Completes, WritePage, SameLost, Count;
    PageIsKnown(cfg, s, f, p);
    AccessOutcome(cfg, s, f, p, choice);
    var r := WritePage(cfg, s, p, offset, data, choice);
    if r.Ok? {
      PagingRun.WriteKeeps(cfg, s, f, p, offset, data, choice, r.value.0, r.value.1);
      AccessLeaves(cfg, s, f, Write(p, offset, data), choice, r.value.0, None);
      StepLosesNone(cfg, s, f, Write(p, offset, data), choice, r.value.0, None);
      SameLostCount(s.frames, r.value.0.frames);
    }
    assert Here(s, [p]) <==> IsHere(s, [p][0]);
  }

  lemma PageIsKnown(cfg: Config, s: State, f: Flat, p: PageId)
    requires Sound(cfg, s, f) && p in f.mem
    ensures p in s.pages
  {
    RefinesKeys(cfg, s, f.mem);
  }

  lemma AccessOutcome(cfg: Config, s: State, f: Flat, p: PageId, choice: nat)
    requires Sound(cfg, s, f) && p in f.mem && choice < |s.tlb|
    ensures p in s.pages && Completes(cfg, s, [p], Resolve(cfg, s, p, choice).Ok?)
  {
    hide Core, Refines, Ready, Follows, Resolve, FreeSlots, AllSaved, Saves, Blocked, PickVictim;
    ResolveFails(cfg, s, f, p, choice);
    assert Here(s, [p]) <==> IsHere(s, [p][0]);
    assert Safe(cfg, s, [p]) <==> Saves(cfg, s.pages[[p][0]]);
    if cfg.swap.allocation.Dynamic? && Ready(cfg, s) {
      AccessNeedsRoom(cfg, s, f, p, choice);
    }
    if Pooled(cfg) {
      PooledAccess(cfg, s, f, p, choice);
    }
  }

  /** An absent page needs a page to evict and a slot to put that one in. */
  lemma PooledAccess(cfg: Config, s: State, f: Flat, p: PageId, choice: nat)
    requires Pooled(cfg) && Sound(cfg, s, f) && p in f.mem && choice < |s.tlb|
    ensures p in s.pages
    ensures Resolve(cfg, s, p, choice).Ok? <==> s.pages[p].present || (CandidateLeft(s) && FreeSlots(s) > 0)
  {
    hide Core, Refines, Follows, Resolve, PickVictim;
    ResolveFails(cfg, s, f, p, choice);
    PickFails(cfg, s, p.pid);
    FreeLostOrCandidate(cfg, s.frames, p.pid);
    RoomIsAFreeSlot(s);
  }

  lemma CompletesNothing(cfg: Config, s: State)
    ensures Completes(cfg, s, [], true) && Leaving(cfg, s, s, [])
  {
  }

  lemma HereBoth(s: State, ps: seq<PageId>, qs: seq<PageId>)
    ensures Here(s, ps + qs) <==> Here(s, ps) && Here(s, qs)
  {
    if Here(s, ps + qs) {
      assert forall i :: 0 <= i < |ps| ==> ps[i] == (ps + qs)[i];
      assert forall i :: 0 <= i < |qs| ==> qs[i] == (ps + qs)[|ps| + i];
    }
  }

  lemma SafeBoth(cfg: Config, s: State, ps: seq<PageId>, qs: seq<PageId>)
    ensures Safe(cfg, s, ps + qs) <==> Safe(cfg, s, ps) && Safe(cfg, s, qs)
  {
    if Safe(cfg, s, ps + qs) {
      assert forall i :: 0 <= i < |ps| ==> ps[i] == (ps + qs)[i];
      assert forall i :: 0 <= i < |qs| ==> qs[i] == (ps + qs)[|ps| + i];
    }
  }

  ghost predicate Known(s: State, ps: seq<PageId>) {
    forall i :: 0 <= i < |ps| ==> ps[i] in s.pages
  }

  lemma StillSafe(cfg: Config, s: State, s1: State, ps: seq<PageId>)
    requires Leaves(cfg, s, s1)
    ensures Safe(cfg, s, ps) ==> Safe(cfg, s1, ps)
    ensures AllSaved(cfg, s) ==> AllSaved(cfg, s1)
  {
    hide FreeSlots, FreeFrames, Saves;
  }

  lemma StillHere(s: State, s1: State, ps: seq<PageId>)
    requires SamePresence(s, s1) && Known(s, ps)
    ensures Here(s1, ps) <==> Here(s, ps)
  {
  }

  /** Accesses after completed accesses. */
  lemma CompletesBoth(cfg: Config, s: State, s1: State, ps: seq<PageId>, qs: seq<PageId>, ok: bool)
    requires Known(s, qs) && Completes(cfg, s, ps, true) && Leaving(cfg, s, s1, ps) && Completes(cfg, s1, qs, ok)
    ensures Completes(cfg, s, ps + qs, ok)
  {
    assert FreeSlots(s1) >= FreeSlots(s) && (CandidateLeft(s1) <==> CandidateLeft(s));
    hide FreeSlots, FreeFrames, LostFrames, AllSaved, Leaves, SamePresence, Here, Safe, Ready;
    HereBoth(s, ps, qs);
    SafeBoth(cfg, s, ps, qs);
    StillSafe(cfg, s, s1, qs);
    if Here(s, ps) {
      StillHere(s, s1, qs);
    }
  }

  lemma LeavingBoth(cfg: Config, s: State, s1: State, s2: State, ps: seq<PageId>, qs: seq<PageId>)
    requires Known(s, qs) && Leaving(cfg, s, s1, ps) && Leaving(cfg, s1, s2, qs)
    ensures Leaving(cfg, s, s2, ps + qs)
  {
    LeavesThen(cfg, s, s1, s2);
    hide FreeSlots, FreeFrames, LostFrames, Leaves, Here, Ready;
    HereBoth(s, ps, qs);
    if Here(s, ps) {
      StillHere(s, s1, qs);
    }
  }

  /** A list is not completed once a part of it at the start is not. */
  lemma CompletesNoMore(cfg: Config, s: State, ps: seq<PageId>, qs: seq<PageId>)
    requires Completes(cfg, s, ps, false)
    ensures Completes(cfg, s, ps + qs, false)
  {
    hide FreeSlots, FreeFrames, LostFrames, AllSaved, Here, Safe, Ready;
    HereBoth(s, ps, qs);
    SafeBoth(cfg, s, ps, qs);
  }

  // ---------------------------------------------------------------- creating pages

  /**
    When `n` pages can be created: under LRU with a common pool exactly when not every frame is lost and as many
    places are spare; otherwise, as long as the pager can go on, with as many places spare and quotas that fit.
   */
  ghost predicate Creates(cfg: Config, s: State, n: nat, ok: bool) {
    && (cfg.swap.allocation.Dynamic? && Ready(cfg, s) && QuotasFit(cfg, |s.frames|, |s.procs|) ==>
        (Spare(cfg, s) >= n ==> ok))
    && (Pooled(cfg) ==> (ok <==> n == 0 || (LostFrames(s) < |s.frames| && Spare(cfg, s) >= n)))
  }

  /**
    What the creation of `n` pages leaves: at most `n` places less, no frame lost, and a pager that can go on if it
    could.
   */
  ghost predicate Grows(cfg: Config, s: State, s': State, n: nat) {
    && SameSize(s, s') && SavesStay(cfg, s, s') && s'.procs.Keys == s.procs.Keys && LostFrames(s') == LostFrames(s)
    && Spare(cfg, s') + n >= Spare(cfg, s) && (Ready(cfg, s) ==> Ready(cfg, s'))
    && (cfg.allocation.Dynamic? && cfg.replacement.Lru? ==> Spare(cfg, s') + n == Spare(cfg, s))
  }

  /** With a common pool and LRU, what is spare is what the pages and the lost frames leave. */
  lemma SpareIsTheRest(cfg: Config, s: State, f: Flat)
    requires Sound(cfg, s, f) && cfg.replacement.Lru? && cfg.allocation.Dynamic?
    ensures |f.mem| + LostFrames(s) + Spare(cfg, s) == |s.frames| + |s.swap.slots|
  {
    hide Core, Refines, Follows, FreeSlots, FreeFrames, LostFrames;
    LruSaves(cfg, s);
    PlacesConserved(cfg, s);
    SamePages(cfg, s, f.mem);
  }

  lemma CreateCompletes(cfg: Config, s: State, f: Flat, pid: nat, choice: nat)
    requires Sound(cfg, s, f) && pid in f.counts && choice < |s.tlb|
    requires NotLost(s.frames, PageId(pid, f.counts[pid] + 1))
    ensures var r := CreatePage(cfg, s, pid, choice);
            Creates(cfg, s, 1, r.Ok?) && (r.Ok? ==> Grows(cfg, s, r.value, 1))
  {
    hide CreatePage, Sound, Ready, Spare, QuotasFit, SavesStay, SameSize, NotLost, LostFrames;
    SameProcs(cfg, s, f);
    var r := CreatePage(cfg, s, pid, choice);
    if r.Ok? {
      CreatedGrows(cfg, s, f, pid, choice, r.value);
    }
    if cfg.swap.allocation.Dynamic? && Ready(cfg, s) && QuotasFit(cfg, |s.frames|, |s.procs|) && Spare(cfg, s) >= 1 {
      CreateNeedsSpare(cfg, s, f, pid, choice);
    }
    if Pooled(cfg) {
      PooledCreate(cfg, s, f, pid, choice);
    }
  }

  lemma PooledCreate(cfg: Config, s: State, f: Flat, pid: nat, choice: nat)
    requires Pooled(cfg) && Sound(cfg, s, f)
    ensures CreatePage(cfg, s, pid, choice).Ok? <==> LostFrames(s) < |s.frames| && Spare(cfg, s) >= 1
  {
    hide Core, Refines, Follows, CreatePage, MayTakeFrame;
    NoneFree(cfg, s, f, pid);
    CreateDecides(cfg, s, f, pid, choice);
    PickFails(cfg, s, pid);
    FreeLostOrCandidate(cfg, s.frames, pid);
    RoomIsAFreeSlot(s);
    hide PickVictim, Count;
  }

  lemma LruSaves(cfg: Config, s: State)
    requires cfg.replacement.Lru?
    ensures AllSaved(cfg, s)
  {
  }

  lemma SameProcs(cfg: Config, s: State, f: Flat)
    requires Sound(cfg, s, f)
    ensures |s.procs| == |f.counts| && s.procs.Keys == f.counts.Keys
  {
    assert |s.procs| == |s.procs.Keys| && |f.counts| == |f.counts.Keys|;
    hide Core, Refines, Ready, Follows;
  }

  lemma OnePageMore(cfg: Config, s: State, f: Flat, pid: nat)
    requires Sound(cfg, s, f) && pid in f.counts
    ensures var f1 := FlatStep(cfg, f, Create(pid)).0; |f1.mem| == |f.mem| + 1 && f1.counts.Keys == f.counts.Keys
  {
    NotYet(cfg, s, f, pid);
    hide Sound;
    assert f.counts[pid := f.counts[pid] + 1].Keys == f.counts.Keys;
  }

  lemma CreatedGrows(cfg: Config, s: State, f: Flat, pid: nat, choice: nat, s': State)
    requires Sound(cfg, s, f) && pid in f.counts && choice < |s.tlb|
    requires NotLost(s.frames, PageId(pid, f.counts[pid] + 1))
    requires CreatePage(cfg, s, pid, choice) == Ok(s')
    ensures Grows(cfg, s, s', 1)
  {
    hide CreatePage, Sound, Ready, NotLost, Spare, SavesStay, FlatStep, LostFrames, SameLost;
    CreateLeaves(cfg, s, f, pid, choice, s');
    CreateKeeps(cfg, s, f, pid, choice, s');
    SameLosses(cfg, s, f, pid, choice, s');
    var f1 := FlatStep(cfg, f, Create(pid)).0;
    OnePageMore(cfg, s, f, pid);
    SameProcs(cfg, s, f);
    SameProcs(cfg, s', f1);
    if cfg.allocation.Dynamic? && cfg.replacement.Lru? {
      SpareIsTheRest(cfg, s, f);
      SpareIsTheRest(cfg, s', f1);
    }
  }

  lemma SameLosses(cfg: Config, s: State, f: Flat, pid: nat, choice: nat, s': State)
    requires Sound(cfg, s, f) && pid in f.counts && choice < |s.tlb| && CreatePage(cfg, s, pid, choice) == Ok(s')
    ensures LostFrames(s') == LostFrames(s)
  {
    hide CreatePage, Sound, SameLost;
    StepLosesNone(cfg, s, f, Create(pid), choice, s', None);
    SameLostCount(s.frames, s'.frames);
  }

  lemma CreatesNone(cfg: Config, s: State)
    ensures Creates(cfg, s, 0, true) && Grows(cfg, s, s, 0)
  {
  }

  /** Creations after completed creations. */
  lemma CreatesMore(cfg: Config, s: State, s1: State, n: nat, m: nat, ok: bool)
    requires Creates(cfg, s, n, true) && Grows(cfg, s, s1, n) && Creates(cfg, s1, m, ok)
    ensures Creates(cfg, s, n + m, ok)
  {
    hide Spare, QuotasFit, SavesStay, Ready, LostFrames;
    assert |s.procs| == |s.procs.Keys| && |s1.procs| == |s1.procs.Keys|;
  }

  lemma GrowsMore(cfg: Config, s: State, s1: State, s2: State, n: nat, m: nat)
    requires Grows(cfg, s, s1, n) && Grows(cfg, s1, s2, m)
    ensures Grows(cfg, s, s2, n + m)
  {
    hide Spare, Ready, LostFrames;
  }

  lemma CreatesNoMore(cfg: Config, s: State, n: nat, m: nat)
    requires Creates(cfg, s, n, false) && m >= n
    ensures Creates(cfg, s, m, false)
  {
    hide Spare, QuotasFit, Ready, LostFrames;
  }

  // ---------------------------------------------------------------- both

  /**
    The pager can go on, with room for `n` new pages and whatever has to be brought back: under the clock a page may
    be lost before its first write, so there all pages must have been written and none be created.
   */
  ghost predicate Enough(cfg: Config, s: State, n: nat) {
    && Ready(cfg, s) && cfg.swap.allocation.Dynamic? && AllSaved(cfg, s) && (n == 0 || cfg.replacement.Lru?)
    && QuotasFit(cfg, |s.frames|, |s.procs|) && Spare(cfg, s) > n
  }

  /** With enough room every access completes. */
  lemma EnoughCompletes(cfg: Config, s: State, f: Flat, ps: seq<PageId>, ok: bool)
    requires Sound(cfg, s, f) && Enough(cfg, s, 0) && Known(s, ps) && Completes(cfg, s, ps, ok)
    ensures ok
  {
    hide Core, Refines, Follows, FreeSlots, FreeFrames, AllSaved, Spare, Ready;
    if !Here(s, ps) {
      var i :| 0 <= i < |ps| && !IsHere(s, ps[i]);
      SpareIsASlot(cfg, s, ps[i]);
    }
  }

  /** At most `n` pages have been created, at most `n` places are gone, and a pager that could go on still can. */
  ghost predicate Costs(cfg: Config, s: State, s': State, n: nat) {
    && SameSize(s, s') && SavesStay(cfg, s, s') && s'.procs.Keys == s.procs.Keys
    && Spare(cfg, s') + n >= Spare(cfg, s) && (Ready(cfg, s) ==> Ready(cfg, s'))
    && (n == 0 ==> s'.pages.Keys == s.pages.Keys)
  }

  lemma CostsNothing(cfg: Config, s: State)
    ensures Costs(cfg, s, s, 0)
  {
  }

  lemma LeavingCosts(cfg: Config, s: State, s': State, ps: seq<PageId>)
    requires Leaving(cfg, s, s', ps)
    ensures Costs(cfg, s, s', 0)
  {
    hide FreeSlots, FreeFrames, Ready;
  }

  lemma GrowsCosts(cfg: Config, s: State, s': State, n: nat)
    requires Grows(cfg, s, s', n) && n >= 1
    ensures Costs(cfg, s, s', n)
  {
    hide Spare, Ready;
  }

  lemma StillEnough(cfg: Config, s: State, s': State, n: nat)
    requires Enough(cfg, s, n) && Costs(cfg, s, s', n)
    ensures Enough(cfg, s', 0)
  {
    hide Spare, QuotasFit, Ready;
    assert |s.procs| == |s.procs.Keys| && |s'.procs| == |s'.procs.Keys|;
  }

  lemma CostsMore(cfg: Config, s: State, s1: State, s2: State, n: nat, m: nat)
    requires Costs(cfg, s, s1, n) && Costs(cfg, s1, s2, m)
    ensures Costs(cfg, s, s2, n + m)
  {
    hide Spare, Ready;
  }
}
