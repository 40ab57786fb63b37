/**
  Under quotas a compaction makes no difference to anybody else: it commutes with every request of the others, so
  the tables they work on may as well be left as they were.
 */
module Quotas {
  import opened Base
  import Swamp
  import opened Paging
  import opened PagingInvariant
  import opened PagingRun
  import opened PagingTheorems
  import opened Capacity
  import opened Compaction

  /** A result, once `pid` has been compacted as well. */
  function Without<T>(pid: nat, r: Result<(State, T)>): Result<(State, T)> {
    match r
    case Ok((s, answer)) => Ok((Orphaned(s, pid), answer))
    case Fail(fault) => Fail(fault)
  }

  /** The one page of `pid` is in memory, where its descriptor says. */
  ghost predicate Sits(s: State, pid: nat) {
    var p := PageId(pid, 1);
    p in s.pages && s.pages[p].present && s.pages[p].frame < |s.frames| && s.frames[s.pages[p].frame] == Holds(p)
  }

  // ---------------------------------------------------------------- victims

  lemma {:induction false} SameCandidates(cfg: Config, frames: seq<Frame>, m: nat, f: Frame, k: nat)
    requires m < |frames| && !Wanted(cfg, k)(frames[m]) && !Wanted(cfg, k)(f)
    ensures Candidates(cfg, frames[m := f], k) == Candidates(cfg, frames, k)
  {
    var n := |frames| - 1;
    if m == n {
      assert frames[m := f][..n] == frames[..n];
    } else {
      assert frames[m := f][..n] == frames[..n][m := f];
      SameCandidates(cfg, frames[..n], m, f, k);
    }
  }

  lemma {:induction false} OwnCandidates(cfg: Config, s: State, pid: nat, k: nat)
    requires cfg.allocation.Fixed? && Sits(s, pid) && k != pid
    ensures Candidates(cfg, Orphaned(s, pid).frames, k) == Candidates(cfg, s.frames, k)
    ensures forall q :: q in Candidates(cfg, s.frames, k) ==> q.pid == k
  {
    SameCandidates(cfg, s.frames, s.pages[PageId(pid, 1)].frame, Lost(PageId(pid, 1)), k);
    forall q | q in Candidates(cfg, s.frames, k)
      ensures q.pid == k
    {
      CandidateIsHeld(cfg, s.frames, k, q);
    }
  }

  lemma ClearCommutes(pages: map<PageId, Page>, passed: seq<PageId>, p: PageId)
    requires p !in passed
    ensures ClearUsed(pages - {p}, passed) == ClearUsed(pages, passed) - {p}
    ensures p in pages ==> ClearUsed(pages, passed)[p] == pages[p]
  {
  }

  lemma HandCommutes(cfg: Config, s: State, pid: nat, k: nat, j: nat, n: nat, passed: seq<PageId>)
    requires cfg.allocation.Fixed? && k != pid && PageId(pid, 1) !in passed
    ensures MoveHand(cfg, Orphaned(s, pid), k, j, n).(pages := ClearUsed(Orphaned(s, pid).pages, passed)) ==
            Orphaned(MoveHand(cfg, s, k, j, n).(pages := ClearUsed(s.pages, passed)), pid)
  {
    ClearCommutes(s.pages, passed, PageId(pid, 1));
    hide ClearUsed;
  }

  lemma SameKeys(cfg: Config, s: State, pid: nat, k: nat, c: seq<PageId>)
    requires k != pid && forall q :: q in c ==> q.pid == k
    ensures Keys(cfg, Orphaned(s, pid).pages, c) == Keys(cfg, s.pages, c)
    ensures Hand(cfg, Orphaned(s, pid), k) == Hand(cfg, s, k)
  {
    hide Rank;
    assert forall i :: 0 <= i < |c| ==> c[i] in c;
  }

  lemma NotPassed(c: seq<PageId>, from: nat, to: nat, k: nat, p: PageId)
    requires p.pid != k && forall q :: q in c ==> q.pid == k
    ensures from <= to <= |c| ==> p !in c[from..to]
  {
  }

  lemma {:induction false} PickCommutes(cfg: Config, s: State, pid: nat, k: nat)
    requires cfg.allocation.Fixed? && Sits(s, pid) && k != pid
    ensures PickVictim(cfg, Orphaned(s, pid), k) == Without(pid, PickVictim(cfg, s, k))
    ensures PickVictim(cfg, s, k).Ok? ==>
              var (s1, q) := PickVictim(cfg, s, k).value; q.pid == k && Sits(s1, pid) && s1.frames == s.frames
  {
    hide Candidates, Keys, Least, Hand, Orphaned, ClearUsed, MoveHand, Wanted;
    OwnCandidates(cfg, s, pid, k);
    var c, hand := Candidates(cfg, s.frames, k), Hand(cfg, s, k);
    SameKeys(cfg, s, pid, k, c);
    if hand < |c| {
      var keys := Keys(cfg, s.pages, c);
      var j := Least(keys, hand);
      assert j < |c| && c[j] in c;
      var end := if cfg.replacement.Lru? then hand else Swept(|c|, hand, j, keys[j]);
      NotPassed(c, hand, end, k, PageId(pid, 1));
      HandCommutes(cfg, s, pid, k, j, |c|, c[hand..end]);
      ClearCommutes(s.pages, c[hand..end], PageId(pid, 1));
    }
  }

  // ---------------------------------------------------------------- moving pages

  lemma ReleaseCommutes(cfg: Config, s: State, pid: nat, q: PageId, swap: Swamp.State)
    requires Sits(s, pid) && q.pid != pid && At(s.pages, q).frame != At(s.pages, PageId(pid, 1)).frame
    ensures Release(cfg, Orphaned(s, pid), q, swap) == Orphaned(Release(cfg, s, q, swap), pid)
    ensures Sits(Release(cfg, s, q, swap), pid)
  {
    hide Forget;
    var s', t := Release(cfg, Orphaned(s, pid), q, swap), Orphaned(Release(cfg, s, q, swap), pid);
    assert s'.frames == t.frames;
    assert s'.pages == t.pages;
  }

  lemma SavedCommutes(cfg: Config, s: State, pid: nat, q: PageId)
    requires q.pid != pid
    ensures Saved(cfg, Orphaned(s, pid), q) == Saved(cfg, s, q)
  {
    hide Swamp.Write;
  }

  lemma EvictCommutes(cfg: Config, s: State, pid: nat, k: nat)
    requires cfg.allocation.Fixed? && Linked(s) && Resident(s) && Sits(s, pid) && k != pid
    ensures Evict(cfg, Orphaned(s, pid), k) == Without(pid, Evict(cfg, s, k))
    ensures Evict(cfg, s, k).Ok? ==> Sits(Evict(cfg, s, k).value.0, pid)
  {
    hide PickVictim, Saved, Release, Orphaned;
    PickCommutes(cfg, s, pid, k);
    if PickVictim(cfg, s, k).Ok? {
      var (s1, q) := PickVictim(cfg, s, k).value;
      VictimElsewhere(cfg, s, pid, k, s1, q);
      SavedCommutes(cfg, s1, pid, q);
      OrphanSpares(s1, pid, q);
      if Saved(cfg, s1, q).Ok? {
        ReleaseCommutes(cfg, s1, pid, q, Saved(cfg, s1, q).value);
      }
    }
  }

  lemma VictimElsewhere(cfg: Config, s: State, pid: nat, k: nat, s1: State, q: PageId)
    requires Linked(s) && Sits(s, pid) && k != pid && PickVictim(cfg, s, k) == Ok((s1, q))
    requires Sits(s1, pid) && q.pid == k
    ensures At(s1.pages, q).frame != At(s1.pages, PageId(pid, 1)).frame
  {
    PickedIsHeld(cfg, s, k, s1, q);
    hide PickVictim;
  }

  lemma OrphanSpares(s: State, pid: nat, q: PageId)
    requires q.pid != pid
    ensures At(Orphaned(s, pid).pages, q) == At(s.pages, q)
    ensures Orphaned(s, pid).swap == s.swap && Orphaned(s, pid).tlb == s.tlb && Orphaned(s, pid).cache == s.cache
    ensures Orphaned(s, pid).clock == s.clock
  {
  }

  lemma BringCommutes(s: State, pid: nat, q: PageId, m: nat, content: Bytes, page: Page, swap: Swamp.State)
    requires Sits(s, pid) && q.pid != pid && m != At(s.pages, PageId(pid, 1)).frame
    ensures Bring(Orphaned(s, pid), q, m, content, page, swap) == Orphaned(Bring(s, q, m, content, page, swap), pid)
    ensures Sits(Bring(s, q, m, content, page, swap), pid)
  {
    var s', t := Bring(Orphaned(s, pid), q, m, content, page, swap), Orphaned(Bring(s, q, m, content, page, swap), pid);
    assert s'.frames == t.frames;
    assert s'.pages == t.pages;
  }

  lemma EvictEmpties(cfg: Config, s: State, k: nat, s1: State, m: nat)
    requires Evict(cfg, s, k) == Ok((s1, m))
    ensures m < |s1.frames| ==> s1.frames[m].Free?
  {
    hide PickVictim, Saved;
    var s0, q, swap := EvictUnfolds(cfg, s, k);
  }

  lemma FaultInCommutes(cfg: Config, s: State, pid: nat, q: PageId)
    requires cfg.allocation.Fixed? && Linked(s) && Resident(s) && Sits(s, pid) && q.pid != pid
    ensures FaultIn(cfg, Orphaned(s, pid), q) == Without(pid, FaultIn(cfg, s, q))
    ensures FaultIn(cfg, s, q).Ok? ==> Sits(FaultIn(cfg, s, q).value.0, pid)
  {
    hide Evict, Orphaned, Swamp.Read, Bring, Linked, Resident;
    EvictCommutes(cfg, s, pid, q.pid);
    if Evict(cfg, s, q.pid).Ok? {
      var (s1, m) := Evict(cfg, s, q.pid).value;
      EvictEmpties(cfg, s, q.pid, s1, m);
      OrphanSpares(s1, pid, q);
      var (swap, reply) := Swamp.Read(s1.swap, q);
      if reply.Content? {
        BringCommutes(s1, pid, q, m, reply.bytes, At(s1.pages, q), swap);
      }
    }
  }

  lemma TlbCommutes(s: State, pid: nat, tlb: seq<Entry>)
    requires Sits(s, pid)
    ensures Orphaned(s, pid).(tlb := tlb) == Orphaned(s.(tlb := tlb), pid) && Sits(s.(tlb := tlb), pid)
  {
  }

  lemma PlaceCommutes(s: State, pid: nat, q: PageId, m: nat)
    requires Sits(s, pid) && q.pid != pid
    ensures Orphaned(s, pid).(pages := Place(Orphaned(s, pid).pages, q, m)) ==
            Orphaned(s.(pages := Place(s.pages, q, m)), pid)
    ensures Sits(s.(pages := Place(s.pages, q, m)), pid)
  {
    assert Orphaned(s, pid).(pages := Place(Orphaned(s, pid).pages, q, m)).pages ==
        Orphaned(s.(pages := Place(s.pages, q, m)), pid).pages;
  }

  lemma {:induction false} SameFrameOf(s: State, pid: nat, q: PageId)
    requires Sits(s, pid) && q.pid != pid
    ensures FrameOf(Orphaned(s, pid).frames, q) == FrameOf(s.frames, q)
    ensures |Orphaned(s, pid).frames| == |s.frames|
  {
    var frames := Orphaned(s, pid).frames;
    assert forall i :: 0 <= i < |s.frames| ==> (Is(q)(frames[i]) <==> Is(q)(s.frames[i]));
  }

  lemma SearchCommutes(cfg: Config, s: State, pid: nat, q: PageId, choice: nat)
    requires cfg.allocation.Fixed? && Linked(s) && Resident(s) && Sits(s, pid) && q.pid != pid
    ensures Search(cfg, Orphaned(s, pid), q, choice) == Without(pid, Search(cfg, s, q, choice))
    ensures Search(cfg, s, q, choice).Ok? ==> Sits(Search(cfg, s, q, choice).value.0, pid)
  {
    hide FaultIn, Orphaned, Load, FrameOf, Linked, Resident, Sits;
    SameFrameOf(s, pid, q);
    FaultInCommutes(cfg, s, pid, q);
    var m := FrameOf(s.frames, q);
    var found := if m < |s.frames| then Ok((s, m)) else FaultIn(cfg, s, q);
    if found.Ok? {
      OrphanSpares(found.value.0, pid, q);
      TlbCommutes(found.value.0, pid, Load(found.value.0.tlb, q, found.value.1, choice));
    }
  }

  function WithoutState(pid: nat, r: Result<State>): Result<State> {
    match r
    case Ok(s) => Ok(Orphaned(s, pid))
    case Fail(fault) => Fail(fault)
  }

  lemma ResolveCommutes(cfg: Config, s: State, pid: nat, q: PageId, choice: nat)
    requires cfg.allocation.Fixed? && Linked(s) && Resident(s) && Sits(s, pid) && q.pid != pid
    ensures Resolve(cfg, Orphaned(s, pid), q, choice) == WithoutState(pid, Resolve(cfg, s, q, choice))
    ensures Resolve(cfg, s, q, choice).Ok? ==> Sits(Resolve(cfg, s, q, choice).value, pid)
  {
    hide Search, Orphaned, First, Place, Linked, Resident, Sits;
    SearchCommutes(cfg, s, pid, q, choice);
    OrphanSpares(s, pid, q);
    var i := First(s.tlb, For(q));
    var found := if i < |s.tlb| then Ok((s, s.tlb[i].frame)) else Search(cfg, s, q, choice);
    if found.Ok? {
      PlaceCommutes(found.value.0, pid, q, found.value.1);
    }
  }

  // ---------------------------------------------------------------- requests

  lemma TouchCommutes(cfg: Config, s: State, pid: nat, q: PageId, ticks: nat, write: bool, cache: seq<Bytes>)
    requires Sits(s, pid) && q.pid != pid
    ensures Touch(cfg, Orphaned(s, pid).(cache := cache), q, ticks, write) ==
            Orphaned(Touch(cfg, s.(cache := cache), q, ticks, write), pid)
    ensures Sits(Touch(cfg, s.(cache := cache), q, ticks, write), pid)
  {
    assert Touch(cfg, Orphaned(s, pid).(cache := cache), q, ticks, write).pages ==
        Orphaned(Touch(cfg, s.(cache := cache), q, ticks, write), pid).pages;
  }

  lemma ReadCommutes(cfg: Config, s: State, pid: nat, q: PageId, offset: nat, size: nat, choice: nat)
    requires cfg.allocation.Fixed? && Linked(s) && Resident(s) && Sits(s, pid) && q.pid != pid
    ensures ReadPage(cfg, Orphaned(s, pid), q, offset, size, choice) ==
            Without(pid, ReadPage(cfg, s, q, offset, size, choice))
    ensures var r := ReadPage(cfg, s, q, offset, size, choice); r.Ok? ==> Sits(r.value.0, pid)
  {
    hide Resolve, Orphaned, Touch, Slice, At, Linked, Resident, Sits, First;
    ResolveCommutes(cfg, s, pid, q, choice);
    OrphanSpares(s, pid, q);
    if Resolve(cfg, s, q, choice).Ok? {
      var s1 := Resolve(cfg, s, q, choice).value;
      OrphanSpares(s1, pid, q);
      TouchCommutes(cfg, s1, pid, q, Ticks(cfg, s, q), false, s1.cache);
      assert Orphaned(s1, pid).(cache := s1.cache) == Orphaned(s1, pid) && s1.(cache := s1.cache) == s1;
    }
  }

  lemma WriteCommutes(cfg: Config, s: State, pid: nat, q: PageId, offset: nat, data: Bytes, choice: nat)
    requires cfg.allocation.Fixed? && Linked(s) && Resident(s) && Sits(s, pid) && q.pid != pid
    ensures WritePage(cfg, Orphaned(s, pid), q, offset, data, choice) ==
            Without(pid, WritePage(cfg, s, q, offset, data, choice))
    ensures var r := WritePage(cfg, s, q, offset, data, choice); r.Ok? ==> Sits(r.value.0, pid)
  {
    hide Resolve, Orphaned, Touch, Patch, At, Linked, Resident, Sits, First;
    ResolveCommutes(cfg, s, pid, q, choice);
    OrphanSpares(s, pid, q);
    if Resolve(cfg, s, q, choice).Ok? {
      var s1 := Resolve(cfg, s, q, choice).value;
      OrphanSpares(s1, pid, q);
      var m := At(s1.pages, q).frame;
      TouchCommutes(cfg, s1, pid, q, Ticks(cfg, s, q), true, Put(s1.cache, m, Patch(Cached(s1, m), offset, data)));
    }
  }

  lemma {:induction false} SameFree(cfg: Config, s: State, pid: nat)
    requires Sits(s, pid)
    ensures First(Orphaned(s, pid).frames, Paging.IsFree()) == First(s.frames, Paging.IsFree())
  {
    var frames := Orphaned(s, pid).frames;
    assert forall i :: 0 <= i < |s.frames| ==> (Paging.IsFree()(frames[i]) <==> Paging.IsFree()(s.frames[i]));
  }

  lemma FewerPresent(s: State, pid: nat)
    requires Linked(s) && Resident(s)
    ensures |Present(s.pages)| <= |s.frames| && |Present(Orphaned(s, pid).pages)| <= |s.frames|
  {
    PresentBounded(s);
    SubsetBounded(Present(Orphaned(s, pid).pages), Present(s.pages));
  }

  lemma SameRoom(cfg: Config, s: State, pid: nat, k: nat)
    requires cfg.allocation.Fixed? && Linked(s) && Resident(s) && Sits(s, pid) && k != pid
    ensures MayTakeFrame(cfg, Orphaned(s, pid), k) <==> MayTakeFrame(cfg, s, k)
  {
    hide Linked, Resident, Present, Count, First;
    FewerPresent(s, pid);
    SameFree(cfg, s, pid);
    CountUpdate(s.frames, Wanted(cfg, k), s.pages[PageId(pid, 1)].frame, Lost(PageId(pid, 1)));
  }

  lemma CreatedCommutes(cfg: Config, s: State, pid: nat, k: nat, m: nat, choice: nat)
    requires Sits(s, pid) && k != pid && m != At(s.pages, PageId(pid, 1)).frame
    ensures Created(cfg, Orphaned(s, pid), k, m, choice) == Orphaned(Created(cfg, s, k, m, choice), pid)
    ensures Sits(Created(cfg, s, k, m, choice), pid)
  {
    hide Load, Bring, Orphaned, Sits;
    var clocked, p := cfg.replacement.MClock?, PageId(k, Proc(s, k).pages + 1);
    var page := Page(m, true, clocked, false, if clocked then 0 else s.clock);
    OrphanSpares(s, pid, p);
    SameProc(s, pid, k);
    BringCommutes(s, pid, p, m, Cached(s, m), page, s.swap);
    var s1 := Bring(s, p, m, Cached(s, m), page, s.swap);
    CountedCommutes(s1, pid, k, Proc(s, k).(pages := p.num), Load(s.tlb, p, m, choice),
        if clocked then s.clock else s.clock + 1);
    BringKeepsProcs(s, p, m, Cached(s, m), page, s.swap);
    BringKeepsProcs(Orphaned(s, pid), p, m, Cached(s, m), page, s.swap);
  }

  lemma SameProc(s: State, pid: nat, k: nat)
    requires k != pid
    ensures Proc(Orphaned(s, pid), k) == Proc(s, k)
  {
  }

  lemma BringKeepsProcs(s: State, q: PageId, m: nat, content: Bytes, page: Page, swap: Swamp.State)
    ensures Bring(s, q, m, content, page, swap).procs == s.procs
  {
  }

  lemma CountedCommutes(s: State, pid: nat, k: nat, proc: Process, tlb: seq<Entry>, clock: nat)
    requires Sits(s, pid) && k != pid
    ensures var s' := Orphaned(s, pid);
            s'.(tlb := tlb, procs := s'.procs[k := proc], clock := clock) ==
            Orphaned(s.(tlb := tlb, procs := s.procs[k := proc], clock := clock), pid)
    ensures Sits(s.(tlb := tlb, procs := s.procs[k := proc], clock := clock), pid)
  {
    var s', t := Orphaned(s, pid), s.(tlb := tlb, procs := s.procs[k := proc], clock := clock);
    assert s'.procs[k := proc] == Orphaned(t, pid).procs;
  }

  lemma CreateCommutes(cfg: Config, s: State, pid: nat, k: nat, choice: nat)
    requires cfg.allocation.Fixed? && Linked(s) && Resident(s) && Sits(s, pid) && k != pid
    ensures CreatePage(cfg, Orphaned(s, pid), k, choice) == WithoutState(pid, CreatePage(cfg, s, k, choice))
    ensures CreatePage(cfg, s, k, choice).Ok? ==> Sits(CreatePage(cfg, s, k, choice).value, pid)
  {
    hide Evict, MayTakeFrame, Created, Orphaned, Linked, Resident;
    SameRoom(cfg, s, pid, k);
    EvictCommutes(cfg, s, pid, k);
    if MayTakeFrame(cfg, s, k) {
      SameFree(cfg, s, pid);
      FirstFree(cfg, s, k);
      CreatedCommutes(cfg, s, pid, k, First(s.frames, Paging.IsFree()), choice);
    } else if Evict(cfg, s, k).Ok? {
      var (s1, m) := Evict(cfg, s, k).value;
      EvictEmpties(cfg, s, k, s1, m);
      CreatedCommutes(cfg, s1, pid, k, m, choice);
    }
  }

  lemma RegisterCommutes(s: State, pid: nat, k: nat)
    requires Sits(s, pid) && k != pid
    ensures Paging.Register(Orphaned(s, pid), k) == Orphaned(Paging.Register(s, k), pid)
    ensures Sits(Paging.Register(s, k), pid)
  {
    assert Paging.Register(Orphaned(s, pid), k).procs == Orphaned(Paging.Register(s, k), pid).procs;
  }

  /** Under quotas a compaction commutes with every request of another process, answer and failure included. */
  lemma StepCommutes(cfg: Config, s: State, pid: nat, op: Op, choice: nat)
    requires cfg.allocation.Fixed? && Linked(s) && Resident(s) && Sits(s, pid) && Asking(op) != pid
    ensures Step(cfg, Orphaned(s, pid), op, choice) == Without(pid, Step(cfg, s, op, choice))
    ensures Step(cfg, s, op, choice).Ok? ==> Sits(Step(cfg, s, op, choice).value.0, pid)
  {
    hide ReadPage, WritePage, CreatePage, Orphaned, Paging.Register, Linked, Resident, Sits;
    match op
    case Register(k) => RegisterCommutes(s, pid, k);
    case Create(k) => CreateCommutes(cfg, s, pid, k, choice);
    case Read(q, offset, size) => ReadCommutes(cfg, s, pid, q, offset, size, choice);
    case Write(q, offset, data) => WriteCommutes(cfg, s, pid, q, offset, data, choice);
  }

  /**
    Under quotas nobody notices a compaction: after it, and after those in `gone` before it, a run of requests of the
    others completes or fails as it does without it, with the same answers, and ends in the same state but for the
    page that has gone.
   */
  lemma {:induction false} CompactionCommutes(cfg: Config, s: State, f: Flat, gone: set<nat>, pid: nat,
      run: seq<Request>)
    requires cfg.allocation.Fixed? && Sound(cfg, s, f) && LostTo(s.frames, gone) && Sits(s, pid)
    requires AllEnabled(cfg, f, run)
    requires forall i :: 0 <= i < |run| ==>
                 Asking(run[i].op) != pid && Asking(run[i].op) !in gone && run[i].choice < |s.tlb|
    ensures Run(cfg, Orphaned(s, pid), run) == Without(pid, Run(cfg, s, run))
    decreases |run|
  {
    hide Sound, Step, FlatStep, Orphaned, Sits, Linked, Resident, SameLost, LostTo;
    if |run| > 0 {
      SoundIsLinked(cfg, s, f);
      var op, choice := run[0].op, run[0].choice;
      StepCommutes(cfg, s, pid, op, choice);
      if Step(cfg, s, op, choice).Ok? {
        var (s1, out) := Step(cfg, s, op, choice).value;
        NotGone(s.frames, gone, op, f);
        SoundStep(cfg, s, f, op, choice, s1, out);
        StepLosesNone(cfg, s, f, op, choice, s1, out);
        LostToAgain(s.frames, s1.frames, gone);
        CompactionCommutes(cfg, s1, FlatStep(cfg, f, op).0, gone, pid, run[1..]);
      }
    }
  }

  lemma NotGone(frames: seq<Frame>, gone: set<nat>, op: Op, f: Flat)
    requires LostTo(frames, gone) && Enabled(f, op) && Asking(op) !in gone
    ensures op.Create? ==> NotLost(frames, PageId(op.pid, f.counts[op.pid] + 1))
  {
  }

  lemma SoundIsLinked(cfg: Config, s: State, f: Flat)
    requires Sound(cfg, s, f)
    ensures Linked(s) && Resident(s)
  {
    CoreIsLinked(cfg, s);
  }
}
