/** What holds between the frame table, the TLB, the page descriptors and the swap server. */
module PagingInvariant {
  import opened Base
  import Swamp
  import opened Paging

  /** A frame in use holds a page that knows it is there; a lost one is marked with a page nobody knows. */
  ghost predicate Linked(s: State) {
    && |s.cache| == |s.frames|
    && (forall i :: 0 <= i < |s.frames| && s.frames[i].Holds? ==>
          && s.frames[i].page in s.pages
          && s.pages[s.frames[i].page].present
          && s.pages[s.frames[i].page].frame == i)
    && forall i :: 0 <= i < |s.frames| && s.frames[i].Lost? ==> s.frames[i].page !in s.pages
  }

  /** No lost frame is marked with `p`. */
  ghost predicate NotLost(frames: seq<Frame>, p: PageId) {
    forall i :: 0 <= i < |frames| ==> frames[i] != Lost(p)
  }

  /** A page marked present is in the frame its descriptor names. */
  ghost predicate Resident(s: State) {
    forall p :: p in s.pages && s.pages[p].present ==>
      s.pages[p].frame < |s.frames| && s.frames[s.pages[p].frame] == Holds(p)
  }

  ghost predicate Sized(cfg: Config, s: State) {
    && (forall i :: 0 <= i < |s.cache| ==> |s.cache[i]| == cfg.pageSize)
    && (forall i :: 0 <= i < |s.frames| && i < |s.cache| && s.frames[i].Free? ==> s.cache[i] == Blank(cfg))
    && forall p :: p in s.pages ==> p.num >= 1
  }

  predicate Marked(f: Frame, p: PageId) {
    f == Holds(p) || f == Lost(p)
  }

  /** Every occupied entry names a frame that is marked with that same page, and no page has two entries. */
  ghost predicate TlbAgrees(tlb: seq<Entry>, frames: seq<Frame>) {
    && (forall i :: 0 <= i < |tlb| && tlb[i].Maps? ==>
          tlb[i].frame < |frames| && Marked(frames[tlb[i].frame], tlb[i].page))
    && forall i, j :: 0 <= i < j < |tlb| && tlb[i].Maps? && tlb[j].Maps? ==> tlb[i].page != tlb[j].page
  }

  /** Whether an absent page is worth a slot: always under LRU, only once written under the clock. */
  predicate Saves(cfg: Config, page: Page) {
    cfg.replacement.Lru? || page.modified
  }

  /** A page owns a swap slot exactly when it is absent and was saved. */
  ghost predicate SwapAgrees(cfg: Config, s: State) {
    && Swamp.Inv(s.swap)
    && forall p ::
         var stored := Swamp.Fetch(s.swap, p);
         && (stored.Some? <==> p in s.pages && !s.pages[p].present && Saves(cfg, s.pages[p]))
         && (stored.Some? ==> |stored.value| == cfg.pageSize)
  }

  /** Under LRU the time stamps are in the past and pairwise distinct. */
  ghost predicate Stamped(cfg: Config, s: State) {
    cfg.replacement.Lru? ==>
      && (forall p :: p in s.pages ==> s.pages[p].stamp < s.clock)
      && forall p, q :: p in s.pages && q in s.pages && p != q ==> s.pages[p].stamp != s.pages[q].stamp
  }

  ghost predicate Core(cfg: Config, s: State) {
    && Linked(s)
    && Resident(s)
    && Sized(cfg, s)
    && TlbAgrees(s.tlb, s.frames)
    && SwapAgrees(cfg, s)
    && Stamped(cfg, s)
  }

  /** Whether the content of a page is anywhere at all. */
  predicate Kept(cfg: Config, page: Page) {
    page.present || Saves(cfg, page)
  }

  function Content(s: State, p: PageId): Bytes {
    if At(s.pages, p).present then Cached(s, s.pages[p].frame) else Swamp.Fetch(s.swap, p).GetOr([])
  }

  /** The pager holds the flat memory `mem`; the only content it may have lost was never written. */
  ghost predicate Refines(cfg: Config, s: State, mem: map<PageId, Bytes>) {
    && mem.Keys == s.pages.Keys
    && (forall p :: p in mem && Kept(cfg, s.pages[p]) ==> mem[p] == Content(s, p))
    && (forall p :: p in mem && cfg.replacement.MClock? && !s.pages[p].modified ==> mem[p] == Blank(cfg))
    && forall p :: p in mem ==> |mem[p]| == cfg.pageSize
  }

  // ---------------------------------------------------------------- consequences

  /**
    A page is in exactly one frame or in exactly one swap slot, never in both; only a page that was
    never written, under the clock, may be in neither.
   */
  lemma SingleCopy(cfg: Config, s: State, p: PageId)
    requires Core(cfg, s) && p in s.pages
    ensures s.pages[p].present <==> FrameOf(s.frames, p) < |s.frames|
    ensures s.pages[p].present ==> !Swamp.Fetch(s.swap, p).Some?
    ensures !s.pages[p].present && Saves(cfg, s.pages[p]) ==> Swamp.Fetch(s.swap, p).Some?
    ensures !s.pages[p].present && Swamp.Fetch(s.swap, p).None? ==> cfg.replacement.MClock? && !s.pages[p].modified
    ensures forall i, j :: 0 <= i < j < |s.frames| && s.frames[i] == Holds(p) ==> s.frames[j] != Holds(p)
    ensures forall i, j :: 0 <= i < j < |s.swap.slots| && Swamp.Keeps(p)(s.swap.slots[i]) ==>
        !Swamp.Keeps(p)(s.swap.slots[j])
  {
    if s.pages[p].present {
      assert Is(p)(s.frames[s.pages[p].frame]);
    }
  }

  lemma {:induction false} EntriesAgree(tlb: seq<Entry>, frames: seq<Frame>)
    requires TlbAgrees(tlb, frames)
    ensures forall m :: 0 <= m < |frames| && frames[m].Free? ==> First(tlb, On(m)) == |tlb|
    ensures forall i, j :: 0 <= i < j < |tlb| && tlb[i].Maps? && tlb[j].Maps? ==> tlb[i].frame != tlb[j].frame
  {
  }

  /** Frames are in use at most once, and a TLB entry, a frame and a descriptor always tell the same story. */
  lemma TablesAgree(cfg: Config, s: State, p: PageId)
    requires Core(cfg, s)
    ensures InTlb(s.tlb, p) ==>
              var e := s.tlb[First(s.tlb, For(p))];
              if p in s.pages then
                e.frame == FrameOf(s.frames, p) == s.pages[p].frame < |s.frames| && s.pages[p].present
              else e.frame < |s.frames| && s.frames[e.frame] == Lost(p)
    ensures FrameOf(s.frames, p) < |s.frames| && !InTlb(s.tlb, p) ==> First(s.tlb, On(FrameOf(s.frames, p))) == |s.tlb|
    ensures FrameOf(s.frames, p) < |s.frames| ==>
        p in s.pages && s.pages[p].present && s.pages[p].frame == FrameOf(s.frames, p)
    ensures forall m :: 0 <= m < |s.frames| && s.frames[m].Free? ==> First(s.tlb, On(m)) == |s.tlb|
    ensures forall i, j :: 0 <= i < j < |s.tlb| && s.tlb[i].Maps? && s.tlb[j].Maps? ==> s.tlb[i].frame != s.tlb[j].frame
  {
    EntriesAgree(s.tlb, s.frames);
    hide SwapAgrees, Stamped, Sized;
    var m := FrameOf(s.frames, p);
    if InTlb(s.tlb, p) {
      var e := s.tlb[First(s.tlb, For(p))];
      assert Marked(s.frames[e.frame], p);
      assert p in s.pages ==> Is(p)(s.frames[e.frame]);
    }
    if m < |s.frames| && First(s.tlb, On(m)) < |s.tlb| {
      var e := s.tlb[First(s.tlb, On(m))];
      assert For(p)(e);
    }
  }

  // ---------------------------------------------------------------- the TLB

  lemma ForgetKeeps(tlb: seq<Entry>, frames: seq<Frame>, m: nat)
    requires TlbAgrees(tlb, frames) && m < |frames|
    ensures TlbAgrees(Forget(tlb, m), frames[m := Free])
  {
    var i := First(tlb, On(m));
    var after := Forget(tlb, m);
    forall k | 0 <= k < |after| && after[k].Maps?
      ensures after[k].frame != m
    {
      assert k < i ==> !On(m)(tlb[k]);
      assert i < k ==> tlb[k].page != tlb[i].page;
    }
  }

  lemma {:induction false} LoadKeeps(tlb: seq<Entry>, frames: seq<Frame>, p: PageId, m: nat, choice: nat)
    requires TlbAgrees(tlb, frames) && choice < |tlb|
    requires m < |frames| && frames[m] == Holds(p) && !InTlb(tlb, p)
    ensures TlbAgrees(Load(tlb, p, m, choice), frames)
    ensures First(tlb, On(m)) == |tlb| && InTlb(Load(tlb, p, m, choice), p)
  {
    forall j | 0 <= j < |tlb|
      ensures !On(m)(tlb[j])
    {
      assert !For(p)(tlb[j]);
    }
    var i := First(tlb, IsEmpty());
    var k := if i < |tlb| then i else choice;
    var after := Load(tlb, p, m, choice);
    assert For(p)(after[k]);
    assert forall j :: 0 <= j < |tlb| ==> !For(p)(tlb[j]);
  }

  lemma FilledFrameAgrees(tlb: seq<Entry>, frames: seq<Frame>, p: PageId, m: nat)
    requires TlbAgrees(tlb, frames) && m < |frames| && frames[m].Free?
    ensures TlbAgrees(tlb, frames[m := Holds(p)])
  {
  }

  // ---------------------------------------------------------------- choosing a victim

  /** Use bits and clock hands may differ, nothing else. */
  ghost predicate SameButUse(s: State, s': State) {
    && s'.frames == s.frames && s'.cache == s.cache && s'.tlb == s.tlb && s'.clock == s.clock && s'.swap == s.swap
    && s'.pages.Keys == s.pages.Keys && s'.procs.Keys == s.procs.Keys
    && (forall p :: p in s.pages ==> s'.pages[p] == s.pages[p].(used := s'.pages[p].used))
    && forall k :: k in s.procs ==> s'.procs[k].pages == s.procs[k].pages
  }

  lemma PickedIsHeld(cfg: Config, s: State, pid: nat, s': State, q: PageId)
    requires PickVictim(cfg, s, pid) == Ok((s', q))
    ensures SameButUse(s, s') && IsHeld(cfg, s.frames, pid, q)
  {
    var c := Candidates(cfg, s.frames, pid);
    assert q in c;
    CandidateIsHeld(cfg, s.frames, pid, q);
  }

  lemma UseIsIrrelevantToTables(cfg: Config, s: State, s': State)
    requires SameButUse(s, s')
    ensures Linked(s) ==> Linked(s')
    ensures Resident(s) ==> Resident(s')
    ensures Sized(cfg, s) ==> Sized(cfg, s')
    ensures Stamped(cfg, s) ==> Stamped(cfg, s')
  {
    assert forall p :: p in s.pages ==>
        s'.pages[p].present == s.pages[p].present && s'.pages[p].frame == s.pages[p].frame
                                        && s'.pages[p].stamp == s.pages[p].stamp;
  }

  lemma UseIsIrrelevantToContent(cfg: Config, s: State, s': State, mem: map<PageId, Bytes>)
    requires SameButUse(s, s')
    ensures SwapAgrees(cfg, s) ==> SwapAgrees(cfg, s')
    ensures Refines(cfg, s, mem) ==> Refines(cfg, s', mem)
  {
    hide Swamp.Inv, Swamp.Fetch;
    assert forall p :: p in s.pages ==>
        s'.pages[p].present == s.pages[p].present && s'.pages[p].frame == s.pages[p].frame
                                        && s'.pages[p].modified == s.pages[p].modified;
    assert forall p :: p in s.pages ==> Content(s', p) == Content(s, p);
  }

  lemma PickKeeps(cfg: Config, s: State, pid: nat, mem: map<PageId, Bytes>, s': State, q: PageId)
    requires Core(cfg, s) && Refines(cfg, s, mem) && PickVictim(cfg, s, pid) == Ok((s', q))
    ensures Core(cfg, s') && Refines(cfg, s', mem) && SameButUse(s, s')
    ensures IsHeld(cfg, s'.frames, pid, q)
  {
    hide PickVictim, Linked, Resident, Sized, SwapAgrees, Stamped, TlbAgrees, Refines;
    PickedIsHeld(cfg, s, pid, s', q);
    UseIsIrrelevantToTables(cfg, s, s');
    UseIsIrrelevantToContent(cfg, s, s', mem);
  }

  // ---------------------------------------------------------------- eviction

  lemma ReleaseKeepsTables(cfg: Config, s: State, q: PageId, swap: Swamp.State)
    requires Linked(s) && Resident(s) && Sized(cfg, s) && TlbAgrees(s.tlb, s.frames) && Stamped(cfg, s)
    requires q in s.pages && s.pages[q].present
    ensures var s' := Release(cfg, s, q, swap);
            Linked(s') && Resident(s') && Sized(cfg, s') && TlbAgrees(s'.tlb, s'.frames) && Stamped(cfg, s')
  {
    ForgetKeeps(s.tlb, s.frames, s.pages[q].frame);
  }

  /** `swap'` differs from `swap` in the page `p` at most. */
  ghost predicate OnlyAbout(swap: Swamp.State, swap': Swamp.State, p: PageId) {
    forall q :: q != p ==> Swamp.Fetch(swap', q) == Swamp.Fetch(swap, q)
  }

  /** Saving the victim gives it a slot holding its frame's content; a clean victim gets none. */
  lemma SavedKeeps(cfg: Config, s: State, q: PageId, swap: Swamp.State)
    requires Sized(cfg, s) && SwapAgrees(cfg, s) && q in s.pages && s.pages[q].present
    requires Saved(cfg, s, q) == Ok(swap)
    ensures Swamp.Inv(swap) && OnlyAbout(s.swap, swap, q)
    ensures Swamp.Fetch(swap, q) == if Saves(cfg, s.pages[q]) then Some(Cached(s, s.pages[q].frame)) else None
  {
    assert Swamp.Fetch(s.swap, q).None?;
    if Saves(cfg, s.pages[q]) {
      Swamp.WriteKeeps(cfg.swap, s.swap, q, Cached(s, s.pages[q].frame));
    }
  }

  lemma ReleasedContent(cfg: Config, s: State, q: PageId, swap: Swamp.State, p: PageId)
    requires Linked(s) && Resident(s) && q in s.pages && s.pages[q].present && OnlyAbout(s.swap, swap, q)
    requires p != q || Swamp.Fetch(swap, q) == Some(Cached(s, s.pages[q].frame))
    ensures Content(Release(cfg, s, q, swap), p) == Content(s, p)
  {
    hide Swamp.Fetch;
    if p != q && p in s.pages && s.pages[p].present {
      assert s.pages[p].frame != s.pages[q].frame;
    }
  }

  lemma ReleasedSwapAgrees(cfg: Config, s: State, q: PageId, swap: Swamp.State)
    requires SwapAgrees(cfg, s) && q in s.pages && s.pages[q].present
    requires |Cached(s, s.pages[q].frame)| == cfg.pageSize
    requires Swamp.Inv(swap) && OnlyAbout(s.swap, swap, q)
    requires Swamp.Fetch(swap, q) == if Saves(cfg, s.pages[q]) then Some(Cached(s, s.pages[q].frame)) else None
    ensures SwapAgrees(cfg, Release(cfg, s, q, swap))
  {
    hide Swamp.Inv, Swamp.Fetch, Cached;
  }

  lemma ReleasedRefines(cfg: Config, s: State, q: PageId, swap: Swamp.State, mem: map<PageId, Bytes>)
    requires Linked(s) && Resident(s) && q in s.pages && s.pages[q].present && OnlyAbout(s.swap, swap, q)
    requires Swamp.Fetch(swap, q) == if Saves(cfg, s.pages[q]) then Some(Cached(s, s.pages[q].frame)) else None
    requires Refines(cfg, s, mem)
    ensures Refines(cfg, Release(cfg, s, q, swap), mem)
  {
    var s' := Release(cfg, s, q, swap);
    forall p | p in mem && Kept(cfg, s'.pages[p])
      ensures mem[p] == Content(s', p)
    {
      ReleasedContent(cfg, s, q, swap, p);
    }
  }

  /** After its content has been saved, or was clean, the victim may leave its frame. */
  lemma ReleaseKeeps(cfg: Config, s: State, q: PageId, swap: Swamp.State, mem: map<PageId, Bytes>)
    requires Core(cfg, s) && Refines(cfg, s, mem) && q in s.pages && s.pages[q].present
    requires Saved(cfg, s, q) == Ok(swap)
    ensures Core(cfg, Release(cfg, s, q, swap)) && Refines(cfg, Release(cfg, s, q, swap), mem)
  {
    assert |Cached(s, s.pages[q].frame)| == cfg.pageSize;
    hide Swamp.Inv, Swamp.Fetch, Saved, Release, Cached, Linked, Resident, Sized, SwapAgrees, Stamped, TlbAgrees,
      Refines;
    SavedKeeps(cfg, s, q, swap);
    ReleaseKeepsTables(cfg, s, q, swap);
    ReleasedSwapAgrees(cfg, s, q, swap);
    ReleasedRefines(cfg, s, q, swap, mem);
  }

  /** From `s` to `s'` frame `m`, held by a page that `pid` may evict, passed to `frame`. */
  ghost predicate Takes(cfg: Config, s: State, s': State, pid: nat, m: nat, frame: Frame) {
    && m < |s.frames| && s'.frames == s.frames[m := frame] && s.frames[m].Holds? && Wanted(cfg, pid)(s.frames[m])
    && s'.clock == s.clock && |s'.tlb| == |s.tlb|
    && s'.procs.Keys == s.procs.Keys && s'.pages.Keys == s.pages.Keys
    && forall k :: k in s.procs ==> s'.procs[k].pages == s.procs[k].pages
  }

  /** Pages absent before, and pages in other frames, keep their descriptors but for the use bit. */
  ghost predicate OthersKeep(s: State, s': State, m: nat, except: set<PageId>) {
    forall p :: p in s.pages && p in s'.pages && p !in except && (s.pages[p].present ==> s.pages[p].frame != m) ==>
      s'.pages[p] == s.pages[p].(used := s'.pages[p].used)
  }

  lemma ReleaseTakes(cfg: Config, s: State, q: PageId, swap: Swamp.State, pid: nat)
    requires Linked(s) && IsHeld(cfg, s.frames, pid, q)
    ensures q in s.pages && s.pages[q].present
    ensures var s', m := Release(cfg, s, q, swap), At(s.pages, q).frame;
            Takes(cfg, s, s', pid, m, Free) && OthersKeep(s, s', m, {})
  {
  }

  lemma EvictUnfolds(cfg: Config, s: State, pid: nat) returns (s1: State, q: PageId, swap: Swamp.State)
    requires Evict(cfg, s, pid).Ok?
    ensures PickVictim(cfg, s, pid) == Ok((s1, q)) && Saved(cfg, s1, q) == Ok(swap)
    ensures Evict(cfg, s, pid) == Ok((Release(cfg, s1, q, swap), At(s1.pages, q).frame))
  {
    hide PickVictim, Saved, Release;
    s1, q := PickVictim(cfg, s, pid).value.0, PickVictim(cfg, s, pid).value.1;
    swap := Saved(cfg, s1, q).value;
  }

  lemma EvictKeeps(cfg: Config, s: State, pid: nat, mem: map<PageId, Bytes>, s': State, m: nat)
    requires Core(cfg, s) && Refines(cfg, s, mem) && Evict(cfg, s, pid) == Ok((s', m))
    ensures Core(cfg, s') && Refines(cfg, s', mem)
    ensures Takes(cfg, s, s', pid, m, Free) && OthersKeep(s, s', m, {})
  {
    hide Evict, PickVictim, Saved, Release, Linked, Resident, Sized, SwapAgrees, Stamped, TlbAgrees, Refines, IsHeld;
    var s1, q, swap := EvictUnfolds(cfg, s, pid);
    PickKeeps(cfg, s, pid, mem, s1, q);
    ReleaseTakes(cfg, s1, q, swap, pid);
    ReleaseKeeps(cfg, s1, q, swap, mem);
  }

  // ---------------------------------------------------------------- filling a frame

  lemma BringKeepsTables(cfg: Config, s: State, p: PageId, m: nat, content: Bytes, page: Page, swap: Swamp.State)
    requires Linked(s) && Resident(s) && Sized(cfg, s) && TlbAgrees(s.tlb, s.frames)
    requires m < |s.frames| && s.frames[m].Free? && |content| == cfg.pageSize && p.num >= 1
    requires !At(s.pages, p).present && NotLost(s.frames, p)
    ensures var s' := Bring(s, p, m, content, page, swap);
            Linked(s') && Resident(s') && Sized(cfg, s') && TlbAgrees(s'.tlb, s'.frames)
  {
    FilledFrameAgrees(s.tlb, s.frames, p, m);
  }

  lemma BroughtContent(s: State, p: PageId, m: nat, content: Bytes, page: Page, swap: Swamp.State, q: PageId)
    requires Linked(s) && Resident(s) && m < |s.frames| && s.frames[m].Free?
    requires OnlyAbout(s.swap, swap, p)
    ensures Content(Bring(s, p, m, content, page, swap), q) == if q == p then content else Content(s, q)
  {
    hide Swamp.Fetch;
    if q != p && q in s.pages && s.pages[q].present {
      assert s.pages[q].frame != m;
    }
  }

  lemma BroughtSwapAgrees(cfg: Config, s: State, p: PageId, m: nat, content: Bytes, page: Page, swap: Swamp.State)
    requires SwapAgrees(cfg, s) && Swamp.Inv(swap) && OnlyAbout(s.swap, swap, p) && Swamp.Fetch(swap, p).None?
    ensures SwapAgrees(cfg, Bring(s, p, m, content, page, swap))
  {
    hide Swamp.Inv, Swamp.Fetch;
  }

  lemma BroughtRefines(cfg: Config, s: State, p: PageId, m: nat, content: Bytes, swap: Swamp.State,
      mem: map<PageId, Bytes>)
    requires Linked(s) && Resident(s) && m < |s.frames| && s.frames[m].Free?
    requires OnlyAbout(s.swap, swap, p)
    requires Refines(cfg, s, mem) && p in s.pages && Kept(cfg, s.pages[p]) && Content(s, p) == content
    ensures Refines(cfg, Bring(s, p, m, content, s.pages[p], swap), mem)
  {
    var s' := Bring(s, p, m, content, s.pages[p], swap);
    forall q | q in mem && Kept(cfg, s'.pages[q])
      ensures mem[q] == Content(s', q)
    {
      BroughtContent(s, p, m, content, s.pages[p], swap, q);
    }
  }

  lemma StoredIsSized(cfg: Config, s: State, p: PageId)
    requires SwapAgrees(cfg, s) && Sized(cfg, s) && p in s.pages
    ensures p.num >= 1
    ensures Swamp.Fetch(s.swap, p).Some? ==> Saves(cfg, s.pages[p]) && |Swamp.Fetch(s.swap, p).value| == cfg.pageSize
  {
    hide Swamp.Inv, Swamp.Fetch;
  }

  lemma BroughtStamped(cfg: Config, s: State, p: PageId, m: nat, content: Bytes, swap: Swamp.State)
    requires Stamped(cfg, s) && p in s.pages
    ensures Stamped(cfg, Bring(s, p, m, content, s.pages[p], swap))
  {
  }

  /** Putting an absent page back into a free frame, once swap holds no copy of it. */
  lemma BringKeeps(cfg: Config, s: State, p: PageId, m: nat, content: Bytes, swap: Swamp.State, mem: map<PageId, Bytes>)
    requires Core(cfg, s) && Refines(cfg, s, mem)
    requires m < |s.frames| && s.frames[m].Free?
    requires p in s.pages && !s.pages[p].present && Swamp.Fetch(s.swap, p) == Some(content)
    requires Swamp.Inv(swap) && OnlyAbout(s.swap, swap, p) && Swamp.Fetch(swap, p).None?
    ensures Core(cfg, Bring(s, p, m, content, s.pages[p], swap))
    ensures Refines(cfg, Bring(s, p, m, content, s.pages[p], swap), mem)
  {
    hide Swamp.Inv, Swamp.Fetch, Bring, Linked, Resident, Sized, SwapAgrees, TlbAgrees, Stamped, Refines;
    assert NotLost(s.frames, p) by { KnownIsNotLost(s, p); }
    StoredIsSized(cfg, s, p);
    BroughtStamped(cfg, s, p, m, content, swap);
    BringKeepsTables(cfg, s, p, m, content, s.pages[p], swap);
    BroughtSwapAgrees(cfg, s, p, m, content, s.pages[p], swap);
    BroughtRefines(cfg, s, p, m, content, swap, mem);
  }

  lemma KnownIsNotLost(s: State, p: PageId)
    requires Linked(s) && p in s.pages
    ensures NotLost(s.frames, p)
  {
  }

  lemma AbsentIsNotInTlb(s: State, p: PageId)
    requires Linked(s) && TlbAgrees(s.tlb, s.frames) && !At(s.pages, p).present && NotLost(s.frames, p)
    ensures !InTlb(s.tlb, p)
  {
    assert forall i :: 0 <= i < |s.tlb| ==> !For(p)(s.tlb[i]);
  }

  /** A page fault keeps the tables together and the flat memory unchanged. */
  lemma FaultInKeeps(cfg: Config, s: State, p: PageId, mem: map<PageId, Bytes>, s': State, m: nat)
    requires Core(cfg, s) && Refines(cfg, s, mem) && p in s.pages && !s.pages[p].present
    requires FaultIn(cfg, s, p) == Ok((s', m))
    ensures Core(cfg, s') && Refines(cfg, s', mem)
    ensures Takes(cfg, s, s', p.pid, m, Holds(p)) && OthersKeep(s, s', m, {p})
    ensures p in s'.pages && s'.pages[p].present && s'.pages[p].frame == m && !InTlb(s'.tlb, p)
  {
    hide Evict, Swamp.Read, Swamp.Inv, Swamp.Fetch, Linked, Resident, Sized, SwapAgrees, TlbAgrees, Stamped, Refines;
    var s1 := Evict(cfg, s, p.pid).value.0;
    EvictKeeps(cfg, s, p.pid, mem, s1, m);
    assert Swamp.Inv(s1.swap) && p.num >= 1 by {
      SwapAgreesIsInv(cfg, s1, p);
    }
    Swamp.ReadKeeps(s1.swap, p);
    var (swap, reply) := Swamp.Read(s1.swap, p);
    BringKeeps(cfg, s1, p, m, reply.bytes, swap, mem);
    KnownIsNotLost(s1, p);
    AbsentIsNotInTlb(s1, p);
  }

  lemma SwapAgreesIsInv(cfg: Config, s: State, p: PageId)
    requires SwapAgrees(cfg, s) && Sized(cfg, s) && p in s.pages
    ensures Swamp.Inv(s.swap) && p.num >= 1
  {
  }
}
