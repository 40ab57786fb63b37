/** What a request does to the TLB: no entry is lost but that of a page evicted and the one given up for a new one. */
module Tlb {
  import opened Base
  import Swamp
  import opened Paging
  import opened PagingInvariant
  import opened PagingRun
  import opened PagingTheorems

  /** The entries of frame `m` are empty in `after`, all others are as in `before`. */
  ghost predicate Emptied(before: seq<Entry>, after: seq<Entry>, m: nat) {
    && |after| == |before|
    && forall k :: 0 <= k < |before| ==>
         after[k] == if before[k].Maps? && before[k].frame == m then Empty else before[k]
  }

  /** `p` has been put into the first empty entry or, when none was empty, into entry `choice`. */
  ghost predicate Entered(before: seq<Entry>, after: seq<Entry>, p: PageId, m: nat, choice: nat) {
    exists i :: 0 <= i < |before| && EnteredAt(before, after, p, m, choice, i)
  }

  ghost predicate EnteredAt(before: seq<Entry>, after: seq<Entry>, p: PageId, m: nat, choice: nat, i: nat) {
    && i < |before| && after == before[i := Maps(p, m)]
    && if before[i].Empty? then forall k :: 0 <= k < i ==> before[k].Maps?
       else i == choice && forall k :: 0 <= k < |before| ==> before[k].Maps?
  }

  /** Entries of pages that are in memory no more are empty in `after`, all others are as in `before`. */
  ghost predicate Cleaned(before: seq<Entry>, after: seq<Entry>, s: State) {
    && |after| == |before|
    && forall k :: 0 <= k < |before| ==>
         after[k] ==
         if before[k].Maps? && before[k].page in s.pages && !s.pages[before[k].page].present then Empty else before[k]
  }

  lemma ForgetEmpties(tlb: seq<Entry>, frames: seq<Frame>, m: nat)
    requires TlbAgrees(tlb, frames) && m < |frames|
    ensures Emptied(tlb, Forget(tlb, m), m)
  {
    var i := First(tlb, On(m));
    forall k | 0 <= k < |tlb| && On(m)(tlb[k])
      ensures k == i
    {
      assert i <= k;
      assert Marked(frames[tlb[k].frame], tlb[k].page) && Marked(frames[tlb[i].frame], tlb[i].page);
    }
    assert forall k :: 0 <= k < |tlb| ==> (On(m)(tlb[k]) <==> tlb[k].Maps? && tlb[k].frame == m);
  }

  lemma {:induction false} LoadEnters(tlb: seq<Entry>, p: PageId, m: nat, choice: nat)
    requires choice < |tlb| && First(tlb, On(m)) == |tlb|
    ensures Entered(tlb, Load(tlb, p, m, choice), p, m, choice)
  {
    var e := First(tlb, IsEmpty());
    assert forall k :: 0 <= k < e ==> !IsEmpty()(tlb[k]);
    assert EnteredAt(tlb, Load(tlb, p, m, choice), p, m, choice, if e < |tlb| then e else choice);
  }

  lemma EvictEmptiesTlb(cfg: Config, s: State, pid: nat, s1: State, m: nat)
    requires Linked(s) && TlbAgrees(s.tlb, s.frames) && Evict(cfg, s, pid) == Ok((s1, m))
    ensures Emptied(s.tlb, s1.tlb, m) && m < |s.frames|
  {
    hide Evict, PickVictim, Saved, TlbAgrees, Emptied;
    var s0, q, swap := EvictUnfolds(cfg, s, pid);
    PickedIsHeld(cfg, s, pid, s0, q);
    VictimFrame(cfg, s, pid, s0, q);
    ForgetEmpties(s.tlb, s.frames, m);
  }

  lemma VictimFrame(cfg: Config, s: State, pid: nat, s0: State, q: PageId)
    requires Linked(s) && SameButUse(s, s0) && IsHeld(cfg, s.frames, pid, q)
    ensures At(s0.pages, q).frame < |s.frames|
  {
  }

  /** Emptying the entries of a frame cleans the TLB, when its page is the only one that has left memory. */
  lemma EmptiedIsCleaned(tlb: seq<Entry>, after: seq<Entry>, s: State, s': State, m: nat)
    requires TlbAgrees(tlb, s.frames) && Linked(s) && Emptied(tlb, after, m) && m < |s.frames| && s.frames[m].Holds?
    requires s.frames[m].page in s'.pages && !s'.pages[s.frames[m].page].present
    requires forall q :: q in s.pages && s.pages[q].present && q != s.frames[m].page ==>
                           q in s'.pages && s'.pages[q].present
    requires forall q :: q in s'.pages && q !in s.pages ==> s'.pages[q].present
    ensures Cleaned(tlb, after, s')
  {
    forall k | 0 <= k < |tlb| && tlb[k].Maps?
      ensures tlb[k].frame == m <==> tlb[k].page in s'.pages && !s'.pages[tlb[k].page].present
    {
      assert Marked(s.frames[tlb[k].frame], tlb[k].page);
    }
  }

  lemma NothingToClean(s: State, s': State)
    requires TlbAgrees(s.tlb, s.frames) && Linked(s)
    requires forall q :: q in s.pages && s.pages[q].present ==> q in s'.pages && s'.pages[q].present
    requires forall q :: q in s'.pages && q !in s.pages ==> s'.pages[q].present
    ensures Cleaned(s.tlb, s.tlb, s')
  {
    forall k | 0 <= k < |s.tlb| && s.tlb[k].Maps?
      ensures s.tlb[k].page in s'.pages ==> s'.pages[s.tlb[k].page].present
    {
      assert Marked(s.frames[s.tlb[k].frame], s.tlb[k].page);
    }
  }

  // ---------------------------------------------------------------- requests

  /** The page in the frame taken for `p` is in memory no more, and it is the only one. */
  lemma OnlyOneLeaves(cfg: Config, s: State, s': State, p: PageId, m: nat)
    requires Linked(s) && Resident(s) && Linked(s') && Resident(s') && p in s.pages && !s.pages[p].present
    requires Takes(cfg, s, s', p.pid, m, Holds(p)) && OthersKeep(s, s', m, {p}) && s'.pages[p].present
    ensures s.frames[m].page in s'.pages && !s'.pages[s.frames[m].page].present
    ensures forall q :: q in s.pages && s.pages[q].present && q != s.frames[m].page ==>
                          q in s'.pages && s'.pages[q].present
  {
    var v := s.frames[m].page;
    if s'.pages[v].present {
      assert false;
    }
  }

  /** The pages in memory are the same in both states. */
  ghost predicate SamePresence(s: State, s': State) {
    s'.pages.Keys == s.pages.Keys && forall q :: q in s.pages ==> s'.pages[q].present == s.pages[q].present
  }

  lemma CleanedAlike(before: seq<Entry>, after: seq<Entry>, s: State, s': State)
    requires Cleaned(before, after, s) && SamePresence(s, s')
    ensures Cleaned(before, after, s')
  {
  }

  lemma FaultCleans(cfg: Config, s: State, p: PageId, mem: map<PageId, Bytes>, s': State, m: nat)
    requires Core(cfg, s) && Refines(cfg, s, mem) && p in s.pages && !s.pages[p].present
    requires FaultIn(cfg, s, p) == Ok((s', m))
    ensures Cleaned(s.tlb, s'.tlb, s')
  {
    hide Evict, Swamp.Read, Sized, SwapAgrees, Stamped, Refines, Emptied, Cleaned, Linked, Resident, TlbAgrees;
    FaultInKeeps(cfg, s, p, mem, s', m);
    var s1 := Evict(cfg, s, p.pid).value.0;
    EvictEmptiesTlb(cfg, s, p.pid, s1, m);
    OnlyOneLeaves(cfg, s, s', p, m);
    hide OthersKeep;
    EmptiedIsCleaned(s.tlb, s'.tlb, s, s', m);
  }

  /** The TLB once `p` has been resolved, `mid` being the TLB without the page evicted for it. */
  ghost predicate Looked(s: State, mid: seq<Entry>, s': State, p: PageId, choice: nat) {
    && p in s'.pages && Cleaned(s.tlb, mid, s')
    && if InTlb(s.tlb, p) then s'.tlb == mid == s.tlb else Entered(mid, s'.tlb, p, s'.pages[p].frame, choice)
  }

  lemma ResolveLooks(cfg: Config, s: State, p: PageId, choice: nat, mem: map<PageId, Bytes>, s': State)
    returns (mid: seq<Entry>)
    requires Good(cfg, s, mem) && p in s.pages && choice < |s.tlb| && Resolve(cfg, s, p, choice) == Ok(s')
    ensures Looked(s, mid, s', p, choice)
  {
    hide Resolve, Linked, Resident, Sized, SwapAgrees, TlbAgrees, Stamped, Refines, Load, Cleaned, Entered;
    mid := s.tlb;
    if InTlb(s.tlb, p) {
      ResolveHit(cfg, s, p, choice);
      NothingToClean(s, s);
    } else if FrameOf(s.frames, p) < |s.frames| {
      ResolveFound(cfg, s, p, choice);
      FoundIsThere(cfg, s, p);
      NothingToClean(s, s');
      LoadEnters(s.tlb, p, FrameOf(s.frames, p), choice);
    } else {
      mid := FaultLooks(cfg, s, p, choice, mem, s');
    }
  }

  lemma FaultLooks(cfg: Config, s: State, p: PageId, choice: nat, mem: map<PageId, Bytes>, s': State)
    returns (mid: seq<Entry>)
    requires Good(cfg, s, mem) && p in s.pages && choice < |s.tlb| && Resolve(cfg, s, p, choice) == Ok(s')
    requires !InTlb(s.tlb, p) && FrameOf(s.frames, p) == |s.frames|
    ensures Looked(s, mid, s', p, choice)
  {
    hide Resolve, Linked, Resident, Sized, SwapAgrees, TlbAgrees, Stamped, Refines, Load, Cleaned, Entered;
    AbsentWhenNotFound(s, p);
    var s1, m := ResolveUnfolds(cfg, s, p, choice, s');
    FaultInKeeps(cfg, s, p, mem, s1, m);
    FaultCleans(cfg, s, p, mem, s1, m);
    LoadKeeps(s1.tlb, s1.frames, p, m, choice);
    LoadEnters(s1.tlb, p, m, choice);
    CleanedAlike(s.tlb, s1.tlb, s1, s');
    mid := s1.tlb;
  }

  lemma FoundIsThere(cfg: Config, s: State, p: PageId)
    requires Core(cfg, s) && FrameOf(s.frames, p) < |s.frames| && !InTlb(s.tlb, p)
    ensures p in s.pages && s.pages[p].present && s.pages[p].frame == FrameOf(s.frames, p)
    ensures First(s.tlb, On(FrameOf(s.frames, p))) == |s.tlb|
  {
    TablesAgree(cfg, s, p);
  }

  /**
    A read or write loses no entry of the TLB but that of the page it evicts.  The page it is for is put into the
    first empty entry, or in the place of the entry chosen when none is empty; when it had one nothing changes.
   */
  lemma AccessLooks(cfg: Config, s: State, f: Flat, op: Op, choice: nat, s': State, out: Option<Bytes>)
    returns (mid: seq<Entry>)
    requires Sound(cfg, s, f) && Enabled(f, op) && choice < |s.tlb| && (op.Read? || op.Write?)
    requires Step(cfg, s, op, choice) == Ok((s', out))
    ensures Looked(s, mid, s', op.page, choice)
  {
    hide Core, Follows, Resolve, Ticks, Slice, Patch, Cached, Cleaned, Entered, InTlb;
    RefinesKeys(cfg, s, f.mem);
    hide Refines;
    var s1 := Resolve(cfg, s, op.page, choice).value;
    mid := ResolveLooks(cfg, s, op.page, choice, f.mem, s1);
    CleanedAlike(s.tlb, mid, s1, s');
  }

  /** The same for a new page, which is never in the TLB before. */
  lemma CreateLooks(cfg: Config, s: State, f: Flat, pid: nat, choice: nat, s': State) returns (mid: seq<Entry>)
    requires Sound(cfg, s, f) && pid in f.counts && choice < |s.tlb|
    requires NotLost(s.frames, PageId(pid, f.counts[pid] + 1))
    requires CreatePage(cfg, s, pid, choice) == Ok(s')
    ensures !InTlb(s.tlb, PageId(pid, f.counts[pid] + 1))
    ensures Looked(s, mid, s', PageId(pid, f.counts[pid] + 1), choice)
  {
    hide CreatePage, Evict, MayTakeFrame, Sized, SwapAgrees, Stamped, Refines, Follows, Load, Cleaned, Entered,
      TlbAgrees, Linked, Resident;
    var p := PageId(pid, f.counts[pid] + 1);
    NewPageIsUnknown(cfg, s, f, pid);
    AbsentIsNotInTlb(s, p);
    var s1, m := CreateUnfolds(cfg, s, pid, choice, s');
    if MayTakeFrame(cfg, s, pid) {
      FreeHasNoEntry(cfg, s, pid);
      NothingToClean(s, s');
    } else {
      EvictKeeps(cfg, s, pid, f.mem, s1, m);
      EvictEmptiesTlb(cfg, s, pid, s1, m);
      EvictLeavesOne(cfg, s, s1, pid, m);
      EvictMoves(cfg, s, pid, s1, m);
      EmptiedIsCleaned(s.tlb, s1.tlb, s, s', m);
    }
    mid := s1.tlb;
    TablesAgree(cfg, s1, p);
    LoadEnters(s1.tlb, p, m, choice);
  }

  lemma NewPageIsUnknown(cfg: Config, s: State, f: Flat, pid: nat)
    requires Sound(cfg, s, f) && pid in f.counts
    ensures pid in s.procs && Proc(s, pid).pages == f.counts[pid] && PageId(pid, f.counts[pid] + 1) !in s.pages
  {
    hide Core, Follows;
    RefinesKeys(cfg, s, f.mem);
    hide Refines;
  }

  lemma FreeHasNoEntry(cfg: Config, s: State, pid: nat)
    requires MayTakeFrame(cfg, s, pid)
    ensures var m := First(s.frames, Paging.IsFree()); m < |s.frames| && s.frames[m].Free?
  {
  }

  lemma EvictLeavesOne(cfg: Config, s: State, s1: State, pid: nat, m: nat)
    requires Linked(s) && Resident(s) && Linked(s1) && Resident(s1)
    requires Takes(cfg, s, s1, pid, m, Free) && OthersKeep(s, s1, m, {})
    ensures s.frames[m].page in s1.pages && !s1.pages[s.frames[m].page].present
    ensures forall q :: q in s.pages && s.pages[q].present && q != s.frames[m].page ==>
                          q in s1.pages && s1.pages[q].present
  {
    var v := s.frames[m].page;
    if s1.pages[v].present {
      assert false;
    }
  }
}
