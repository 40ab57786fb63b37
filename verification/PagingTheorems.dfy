/** The main results about the pager: invisibility, victims, isolation, and exactly when a request fails. */
module PagingTheorems {
  import opened Base
  import Swamp
  import opened Paging
  import opened PagingInvariant
  import opened PagingRun

  // ---------------------------------------------------------------- paging is invisible

  lemma RegisterContent(cfg: Config, s: State, pid: nat, mem: map<PageId, Bytes>)
    requires Core(cfg, s) && Refines(cfg, s, mem)
    ensures Core(cfg, Paging.Register(s, pid)) && Refines(cfg, Paging.Register(s, pid), mem)
  {
    hide Swamp.Inv, Swamp.Fetch, Refines;
    RegisterRefines(cfg, s, pid, mem);
  }

  lemma RegisterRefines(cfg: Config, s: State, pid: nat, mem: map<PageId, Bytes>)
    requires Refines(cfg, s, mem)
    ensures Refines(cfg, Paging.Register(s, pid), mem)
  {
    hide Swamp.Fetch;
    assert forall p :: Content(Paging.Register(s, pid), p) == Content(s, p);
  }

  lemma RegisterReady(cfg: Config, s: State, pid: nat)
    requires Ready(cfg, s) && Core(cfg, s) && forall p :: p in s.pages ==> p.pid in s.procs
    ensures Ready(cfg, Paging.Register(s, pid))
  {
    hide Resident, Sized, TlbAgrees, SwapAgrees, Stamped;
    var s' := Paging.Register(s, pid);
    assert forall k :: Hand(cfg, s', k) == Hand(cfg, s, k);
    hide Hand;
    if pid !in s.procs && cfg.allocation.Fixed? {
      CountPositive(s.frames, Wanted(cfg, pid));
    }
  }

  lemma PagesAreKnown(cfg: Config, s: State, f: Flat)
    requires Sound(cfg, s, f)
    ensures forall p :: p in s.pages ==> p.pid in s.procs
  {
    hide Core, Follows;
    RefinesKeys(cfg, s, f.mem);
    hide Refines;
  }

  lemma RegisterKeeps(cfg: Config, s: State, f: Flat, pid: nat)
    requires Sound(cfg, s, f)
    ensures Sound(cfg, Paging.Register(s, pid), FlatStep(cfg, f, Register(pid)).0)
    ensures Ready(cfg, s) ==> Ready(cfg, Paging.Register(s, pid))
    ensures |Paging.Register(s, pid).tlb| == |s.tlb|
  {
    hide Core, Refines, Ready;
    PagesAreKnown(cfg, s, f);
    RegisterContent(cfg, s, pid, f.mem);
    if Ready(cfg, s) {
      RegisterReady(cfg, s, pid);
    }
  }

  /**
    One request: if it completes, it answers and leaves behind what the memory without paging would, as long as no
    lost frame is marked with the page it creates.  A pager that could go on still can.
   */
  lemma SoundStep(cfg: Config, s: State, f: Flat, op: Op, choice: nat, s': State, out: Option<Bytes>)
    requires Sound(cfg, s, f) && Enabled(f, op) && choice < |s.tlb| && Step(cfg, s, op, choice) == Ok((s', out))
    requires op.Create? ==> NotLost(s.frames, PageId(op.pid, f.counts[op.pid] + 1))
    ensures Sound(cfg, s', FlatStep(cfg, f, op).0) && out == FlatStep(cfg, f, op).1 && |s'.tlb| == |s.tlb|
    ensures Ready(cfg, s) ==> Ready(cfg, s')
  {
    hide Sound, Ready, CreatePage, ReadPage, WritePage, Paging.Register;
    match op
    case Register(pid) => RegisterKeeps(cfg, s, f, pid);
    case Create(pid) => CreateKeeps(cfg, s, f, pid, choice, s');
    case Read(p, offset, size) => ReadKeeps(cfg, s, f, p, offset, size, choice, s', out);
    case Write(p, offset, data) =>
        WriteKeeps(cfg, s, f, p, offset, data, choice, s', WritePage(cfg, s, p, offset, data, choice).value.1);
  }

  lemma StepKeeps(cfg: Config, s: State, f: Flat, op: Op, choice: nat, s': State, out: Option<Bytes>)
    requires Simulates(cfg, s, f) && Enabled(f, op) && choice < |s.tlb| && Step(cfg, s, op, choice) == Ok((s', out))
    ensures Simulates(cfg, s', FlatStep(cfg, f, op).0) && out == FlatStep(cfg, f, op).1 && |s'.tlb| == |s.tlb|
  {
    hide Sound, Hand, Choices, Full, Step, FlatStep;
    SoundStep(cfg, s, f, op, choice, s', out);
  }

  datatype Request = Request(op: Op, choice: nat)

  /** A run of requests; it stops at the first one that fails. */
  function Run(cfg: Config, s: State, run: seq<Request>): Result<(State, seq<Option<Bytes>>)>
    decreases |run|
  {
    if |run| == 0 then Ok((s, []))
    else
      var first :- Step(cfg, s, run[0].op, run[0].choice);
      var rest :- Run(cfg, first.0, run[1..]);
      Ok((rest.0, [first.1] + rest.1))
  }

  predicate AllEnabled(cfg: Config, f: Flat, run: seq<Request>)
    decreases |run|
  {
    |run| > 0 ==> Enabled(f, run[0].op) && AllEnabled(cfg, FlatStep(cfg, f, run[0].op).0, run[1..])
  }

  function FlatRun(cfg: Config, f: Flat, run: seq<Request>): (Flat, seq<Option<Bytes>>)
    requires AllEnabled(cfg, f, run)
    decreases |run|
  {
    if |run| == 0 then (f, [])
    else
      var (f1, out) := FlatStep(cfg, f, run[0].op);
      var (f2, outs) := FlatRun(cfg, f1, run[1..]);
      (f2, [out] + outs)
  }

  /**
    Paging is invisible.  In every run that completes, under LRU or the clock, with quotas or a common
    pool, and whatever entries the TLB gives up, every read returns the bytes last written at that page
    and offset, and the pager ends in a state that holds exactly the flat memory.
   */
  lemma {:induction false} PagingIsInvisible(cfg: Config, s: State, f: Flat, run: seq<Request>, s': State,
      outs: seq<Option<Bytes>>)
    requires Simulates(cfg, s, f) && AllEnabled(cfg, f, run)
    requires forall i :: 0 <= i < |run| ==> run[i].choice < |s.tlb|
    requires Run(cfg, s, run) == Ok((s', outs))
    ensures Simulates(cfg, s', FlatRun(cfg, f, run).0)
    ensures outs == FlatRun(cfg, f, run).1
    decreases |run|
  {
    if |run| > 0 {
      hide Simulates, Step, FlatStep;
      var s1, out := Step(cfg, s, run[0].op, run[0].choice).value.0, Step(cfg, s, run[0].op, run[0].choice).value.1;
      StepKeeps(cfg, s, f, run[0].op, run[0].choice, s1, out);
      var rest := Run(cfg, s1, run[1..]).value;
      PagingIsInvisible(cfg, s1, FlatStep(cfg, f, run[0].op).0, run[1..], rest.0, rest.1);
    }
  }

  lemma BootSimulates(cfg: Config, frames: nat, entries: nat, slots: nat)
    requires frames >= 1 && entries >= 1
    ensures Simulates(cfg, Boot(cfg, frames, entries, slots), Flat(map[], map[], []))
  {
    Swamp.FreshKeeps(slots, cfg.pageSize);
    hide Swamp.Inv, Swamp.Fetch, Swamp.Fresh;
  }

  /** The same, from the moment memory starts with at least one frame and one TLB entry. */
  lemma {:induction false} EveryRunIsInvisible(cfg: Config, frames: nat, entries: nat, slots: nat, run: seq<Request>,
      s': State, outs: seq<Option<Bytes>>)
    requires frames >= 1 && entries >= 1 && AllEnabled(cfg, Flat(map[], map[], []), run)
    requires forall i :: 0 <= i < |run| ==> run[i].choice < entries
    requires Run(cfg, Boot(cfg, frames, entries, slots), run) == Ok((s', outs))
    ensures outs == FlatRun(cfg, Flat(map[], map[], []), run).1
    ensures Simulates(cfg, s', FlatRun(cfg, Flat(map[], map[], []), run).0)
  {
    BootSimulates(cfg, frames, entries, slots);
    PagingIsInvisible(cfg, Boot(cfg, frames, entries, slots), Flat(map[], map[], []), run, s', outs);
  }

  // ---------------------------------------------------------------- victims

  /** Under LRU the victim is the candidate whose last creation, read or write is the oldest. */
  lemma {:induction false} LruEvictsTheOldest(cfg: Config, s: State, f: Flat, pid: nat, s': State, q: PageId, c: PageId)
    requires cfg.replacement.Lru? && Sound(cfg, s, f) && PickVictim(cfg, s, pid) == Ok((s', q))
    requires IsHeld(cfg, s.frames, pid, c) && c != q
    ensures IsHeld(cfg, s.frames, pid, q) && Last(f.trace, q) < Last(f.trace, c) && s' == s
  {
    hide Swamp.Inv, Swamp.Fetch, SwapAgrees, TlbAgrees, Refines;
    var cands := Candidates(cfg, s.frames, pid);
    CandidateIsHeld(cfg, s.frames, pid, c);
    CandidateIsHeld(cfg, s.frames, pid, q);
    var keys := Keys(cfg, s.pages, cands);
    var k :| 0 <= k < |cands| && cands[k] == c;
    assert keys[k] == s.pages[c].stamp;
    assert q in cands && keys[Least(keys, 0)] == s.pages[q].stamp;
    assert s'.pages == s.pages;
  }

  /** The clock would rather evict `a` than `b`: the use bit counts first, then the modified bit. */
  predicate Rather(a: Page, b: Page) {
    (!a.used && b.used) || (a.used == b.used && !a.modified && b.modified)
  }

  lemma RankIsRather(a: Page, b: Page)
    ensures Rank(a) < Rank(b) <==> Rather(a, b)
    ensures Rank(a) == 0 <==> !a.used && !a.modified
    ensures Rank(a) >= 2 <==> a.used
  {
  }

  /** From position `hand` on, `j` is the first of the candidates the clock would rather evict than any other. */
  ghost predicate FirstChoice(pages: map<PageId, Page>, c: seq<PageId>, hand: nat, j: nat) {
    && hand <= j < |c|
    && (forall k :: hand <= k < |c| ==> !Rather(At(pages, c[k]), At(pages, c[j])))
    && forall k :: hand <= k < j ==> Rather(At(pages, c[j]), At(pages, c[k]))
  }

  /**
    With `victim` at position `j`, the second sweep went over `p`: there was no (0,0) page, and `p` comes before the
    first (0,1) page if there is one.
   */
  ghost predicate SweptOver(c: seq<PageId>, hand: nat, j: nat, victim: Page, p: PageId) {
    (victim.used || victim.modified) && exists k :: hand <= k < |c| && c[k] == p && (k < j || victim.used)
  }

  lemma SweptSlice(c: seq<PageId>, hand: nat, j: nat, victim: Page, p: PageId)
    requires hand <= j < |c|
    ensures p in c[hand..Swept(|c|, hand, j, Rank(victim))] <==> SweptOver(c, hand, j, victim, p)
  {
    var end := Swept(|c|, hand, j, Rank(victim));
    if p in c[hand..end] {
      var k :| 0 <= k < end - hand && c[hand..end][k] == p;
      assert c[hand + k] == p;
    }
    if victim.used || victim.modified {
      if k :| hand <= k < |c| && c[k] == p && (k < j || victim.used) {
        assert c[hand..end][k - hand] == p;
      }
    }
  }

  lemma {:induction false} LeastIsFirstChoice(pages: map<PageId, Page>, c: seq<PageId>, keys: seq<nat>, hand: nat)
    requires hand < |c| && |keys| == |c| && forall k :: 0 <= k < |c| ==> keys[k] == Rank(At(pages, c[k]))
    ensures FirstChoice(pages, c, hand, Least(keys, hand))
  {
    var j := Least(keys, hand);
    forall k | hand <= k < |c|
      ensures !Rather(At(pages, c[k]), At(pages, c[j])) && (k < j ==> Rather(At(pages, c[j]), At(pages, c[k])))
    {
      assert keys[j] <= keys[k] && (k < j ==> keys[j] < keys[k]);
      RankIsRather(At(pages, c[k]), At(pages, c[j]));
      RankIsRather(At(pages, c[j]), At(pages, c[k]));
    }
  }

  /**
    The clock: among the candidates from the hand to the end, in frame order, the victim is the first choice by use
    bit and modified bit; a use bit changes exactly when the second sweep went over it; the hand ends up behind it.
   */
  lemma ClockMeetsItsSpecification(cfg: Config, s: State, pid: nat, s': State, q: PageId) returns (j: nat)
    requires cfg.replacement.MClock? && PickVictim(cfg, s, pid) == Ok((s', q))
    ensures var c, hand := Candidates(cfg, s.frames, pid), Hand(cfg, s, pid);
            && FirstChoice(s.pages, c, hand, j) && q == c[j]
            && (pid in s.procs ==> Hand(cfg, s', pid) == if j + 1 == |c| then 0 else j + 1)
            && (forall p :: p in s.pages ==>
                  (s'.pages[p].used <==> s.pages[p].used && !SweptOver(c, hand, j, At(s.pages, q), p)))
  {
    var c, hand := Candidates(cfg, s.frames, pid), Hand(cfg, s, pid);
    var keys := Keys(cfg, s.pages, c);
    j := Least(keys, hand);
    assert c == Candidates(cfg, s.frames, pid);
    assert forall k :: 0 <= k < |c| ==> keys[k] == Rank(At(s.pages, c[k]));
    LeastIsFirstChoice(s.pages, c, keys, hand);
    hide Candidates, Rank, Wanted, FirstChoice;
    forall p
      ensures p in c[hand..Swept(|c|, hand, j, keys[j])] <==> SweptOver(c, hand, j, At(s.pages, q), p)
    {
      SweptSlice(c, hand, j, At(s.pages, q), p);
    }
    hide SweptOver, Swept;
  }

  /** A request for a page that exists always finds a candidate: the four sweeps never come back empty. */
  lemma ClockAlwaysFinds(cfg: Config, s: State, f: Flat, p: PageId)
    requires Simulates(cfg, s, f) && p in s.pages
    ensures s.pages[p].present || PickVictim(cfg, s, p.pid).Ok?
  {
    hide Swamp.Inv, Swamp.Fetch, SwapAgrees, TlbAgrees, Hand;
    if !s.pages[p].present && cfg.allocation.Dynamic? {
      assert Wanted(cfg, p.pid)(s.frames[0]);
      CountPositive(s.frames, Wanted(cfg, p.pid));
    }
  }

  // ---------------------------------------------------------------- isolation under quotas

  /** Which pages of other processes are in memory, and where, has not changed; nobody has lost a frame. */
  ghost predicate Isolated(cfg: Config, s: State, s': State, pid: nat) {
    && (forall q :: q in s.pages && q.pid != pid ==>
          q in s'.pages && s'.pages[q].present == s.pages[q].present && s'.pages[q].frame == s.pages[q].frame)
    && forall k :: Choices(cfg, s'.frames, k) >= Choices(cfg, s.frames, k)
  }

  lemma TakesIsolates(cfg: Config, s: State, s': State, p: PageId, m: nat)
    requires cfg.allocation.Fixed? && Resident(s)
    requires Takes(cfg, s, s', p.pid, m, Holds(p)) && OthersKeep(s, s', m, {p})
    ensures Isolated(cfg, s, s', p.pid)
  {
    forall k: nat
      ensures Choices(cfg, s'.frames, k) == Choices(cfg, s.frames, k)
    {
      TakesKeepsChoices(cfg, s, s', p.pid, m, p, k);
    }
  }

  lemma SamePlacesIsolate(cfg: Config, s: State, s': State, pid: nat)
    requires s'.frames == s.frames && s'.pages == s.pages
    ensures Isolated(cfg, s, s', pid)
  {
  }

  lemma FaultIsolates(cfg: Config, s: State, p: PageId, choice: nat, mem: map<PageId, Bytes>, s': State)
    requires cfg.allocation.Fixed? && Core(cfg, s) && Refines(cfg, s, mem) && p in s.pages
    requires !InTlb(s.tlb, p) && FrameOf(s.frames, p) == |s.frames| && Resolve(cfg, s, p, choice) == Ok(s')
    ensures Isolated(cfg, s, s', p.pid)
  {
    hide Resolve, FaultIn, Load, Linked, Sized, SwapAgrees, TlbAgrees, Stamped, Refines, Takes, OthersKeep, Choices;
    var s1, m := ResolveUnfolds(cfg, s, p, choice, s');
    AbsentWhenNotFound(s, p);
    FaultInKeeps(cfg, s, p, mem, s1, m);
    PlaceAgain(s1.pages, p);
    TakesIsolates(cfg, s, s1, p, m);
  }

  lemma ResolveIsolates(cfg: Config, s: State, p: PageId, choice: nat, mem: map<PageId, Bytes>, s': State)
    requires cfg.allocation.Fixed? && Good(cfg, s, mem) && p in s.pages && choice < |s.tlb|
    requires Resolve(cfg, s, p, choice) == Ok(s')
    ensures Isolated(cfg, s, s', p.pid)
  {
    hide Resolve, Load, Linked, Resident, Sized, SwapAgrees, TlbAgrees, Stamped, Refines, Ready, Isolated;
    if InTlb(s.tlb, p) {
      ResolveHit(cfg, s, p, choice);
      SamePlacesIsolate(cfg, s, s', p.pid);
    } else if FrameOf(s.frames, p) < |s.frames| {
      ResolveFound(cfg, s, p, choice);
      SamePlacesIsolate(cfg, s, s', p.pid);
    } else {
      FaultIsolates(cfg, s, p, choice, mem, s');
    }
  }

  /** Filling the free frame `m` moves no other page. */
  lemma CreatedIsolates(cfg: Config, s: State, pid: nat, m: nat, choice: nat)
    requires m < |s.frames| && s.frames[m].Free?
    ensures Isolated(cfg, s, Created(cfg, s, pid, m, choice), pid)
  {
    CreatedShape(cfg, s, pid, m, choice);
    hide Created;
    forall k: nat
      ensures Choices(cfg, Created(cfg, s, pid, m, choice).frames, k) >= Choices(cfg, s.frames, k)
    {
      CountUpdate(s.frames, Wanted(cfg, k), m, Holds(PageId(pid, Proc(s, pid).pages + 1)));
    }
  }

  /** Emptying a frame of `pid` and filling it again moves no page of another process. */
  lemma EvictedIsolates(cfg: Config, s: State, s1: State, pid: nat, m: nat, choice: nat)
    requires cfg.allocation.Fixed? && Linked(s) && Resident(s)
    requires Takes(cfg, s, s1, pid, m, Free) && OthersKeep(s, s1, m, {})
    ensures Isolated(cfg, s, Created(cfg, s1, pid, m, choice), pid)
  {
    var p := PageId(pid, Proc(s1, pid).pages + 1);
    CreatedShape(cfg, s1, pid, m, choice);
    hide Created, Linked;
    var s' := Created(cfg, s1, pid, m, choice);
    assert s'.frames == s.frames[m := Holds(p)];
    forall k: nat
      ensures Choices(cfg, s'.frames, k) == Choices(cfg, s.frames, k)
    {
      CountUpdate(s.frames, Wanted(cfg, k), m, Holds(p));
    }
  }

  lemma CreateIsolates(cfg: Config, s: State, f: Flat, pid: nat, choice: nat, s': State)
    requires cfg.allocation.Fixed? && Simulates(cfg, s, f) && pid in f.counts && choice < |s.tlb|
    requires CreatePage(cfg, s, pid, choice) == Ok(s')
    ensures Isolated(cfg, s, s', pid)
  {
    hide CreatePage, Evict, Created, Sized, SwapAgrees, TlbAgrees, Stamped, Refines, Ready, Load, Isolated, Linked,
      Resident, Follows;
    var s1, m := CreateUnfolds(cfg, s, pid, choice, s');
    if MayTakeFrame(cfg, s, pid) {
      CreatedIsolates(cfg, s, pid, m, choice);
    } else {
      EvictKeeps(cfg, s, pid, f.mem, s1, m);
      EvictedIsolates(cfg, s, s1, pid, m, choice);
    }
  }

  function Asking(op: Op): nat {
    match op
    case Register(pid) => pid
    case Create(pid) => pid
    case Read(p, _, _) => p.pid
    case Write(p, _, _) => p.pid
  }

  lemma TouchedIsolates(cfg: Config, s: State, s1: State, p: PageId, cache: seq<Bytes>, ticks: nat, write: bool)
    requires Isolated(cfg, s, s1, p.pid)
    ensures Isolated(cfg, s, Touch(cfg, s1.(cache := cache), p, ticks, write), p.pid)
  {
  }

  lemma AccessIsolates(cfg: Config, s: State, f: Flat, op: Op, choice: nat, s': State, out: Option<Bytes>)
    requires cfg.allocation.Fixed? && Simulates(cfg, s, f) && Enabled(f, op) && choice < |s.tlb|
    requires (op.Read? || op.Write?) && Step(cfg, s, op, choice) == Ok((s', out))
    ensures Isolated(cfg, s, s', op.page.pid)
  {
    hide Core, Refines, Resolve, Ready, Follows, Isolated, Ticks, Touch, Patch, Cached, Slice;
    var p := op.page;
    RefinesKeys(cfg, s, f.mem);
    var s1 := Resolve(cfg, s, p, choice).value;
    ResolveIsolates(cfg, s, p, choice, f.mem, s1);
    match op
    case Read(_, offset, size) =>
      TouchedIsolates(cfg, s, s1, p, s1.cache, Ticks(cfg, s, p), false);
    case Write(_, offset, data) =>
      var m := At(s1.pages, p).frame;
      TouchedIsolates(cfg, s, s1, p, Put(s1.cache, m, Patch(Cached(s1, m), offset, data)), Ticks(cfg, s, p), true);
  }

  lemma QuotaHolds(cfg: Config, s: State, f: Flat)
    requires cfg.allocation.Fixed? && Simulates(cfg, s, f)
    ensures forall pid :: pid in s.procs ==> Choices(cfg, s.frames, pid) <= cfg.quota
  {
    hide Core, Refines, Follows, Hand;
  }

  /**
    Under the fixed policy a request of one process never changes which pages of another are in
    memory, no process exceeds its quota, and no process ever loses a frame.
   */
  lemma QuotasIsolate(cfg: Config, s: State, f: Flat, op: Op, choice: nat, s': State, out: Option<Bytes>)
    requires cfg.allocation.Fixed? && Simulates(cfg, s, f) && Enabled(f, op) && choice < |s.tlb|
    requires Step(cfg, s, op, choice) == Ok((s', out))
    ensures Isolated(cfg, s, s', Asking(op))
    ensures forall pid :: pid in s'.procs ==> Choices(cfg, s'.frames, pid) <= cfg.quota
  {
    hide Simulates, CreatePage, ReadPage, WritePage, Isolated;
    StepKeeps(cfg, s, f, op, choice, s', out);
    QuotaHolds(cfg, s', FlatStep(cfg, f, op).0);
    match op
    case Register(pid) => SamePlacesIsolate(cfg, s, s', pid);
    case Create(pid) => CreateIsolates(cfg, s, f, pid, choice, s');
    case Read(_, _, _) => AccessIsolates(cfg, s, f, op, choice, s', out);
    case Write(_, _, _) => AccessIsolates(cfg, s, f, op, choice, s', out);
  }

  // ---------------------------------------------------------------- exactly when a request fails

  /** The victim on behalf of `pid` would have to be stored, and the swap server would not store it. */
  predicate Blocked(cfg: Config, s: State, pid: nat) {
    var r := PickVictim(cfg, s, pid);
    && r.Ok?
    && Saves(cfg, At(s.pages, r.value.1))
    && !Swamp.Admits(cfg.swap, s.swap, r.value.1.pid)
  }

  /** A victim is found exactly when the hand is inside the list of candidates. */
  lemma PickFails(cfg: Config, s: State, pid: nat)
    ensures PickVictim(cfg, s, pid) == Fail(NoCandidate) <==> Hand(cfg, s, pid) >= Choices(cfg, s.frames, pid)
    ensures PickVictim(cfg, s, pid).Fail? ==> PickVictim(cfg, s, pid) == Fail(NoCandidate)
  {
    hide Hand, Keys, MoveHand;
  }

  /** The swap server dies of a page of `pid`: it is full, or under its fixed policy the first account is another's. */
  predicate Dies(cfg: Swamp.Config, swap: Swamp.State, pid: nat) {
    !Swamp.HasRoom(swap) || (cfg.allocation.Fixed? && |swap.accounts| > 0 && swap.accounts[0].pid != pid)
  }

  /** Whose page would have to be evicted on behalf of `pid`. */
  function VictimOf(cfg: Config, s: State, pid: nat): nat {
    var r := PickVictim(cfg, s, pid);
    if r.Ok? then r.value.1.pid else pid
  }

  lemma EvictFails(cfg: Config, s: State, pid: nat)
    requires Swamp.Inv(s.swap)
    ensures Evict(cfg, s, pid).Fail? <==> PickVictim(cfg, s, pid).Fail? || Blocked(cfg, s, pid)
    ensures Evict(cfg, s, pid) == Fail(NoCandidate) <==> Hand(cfg, s, pid) >= Choices(cfg, s.frames, pid)
    ensures Evict(cfg, s, pid) == Fail(SwapCrash) <==>
            Blocked(cfg, s, pid) && Dies(cfg.swap, s.swap, VictimOf(cfg, s, pid))
    ensures Evict(cfg, s, pid) == Fail(SwapRefused) <==>
            Blocked(cfg, s, pid) && !Dies(cfg.swap, s.swap, VictimOf(cfg, s, pid))
  {
    PickFails(cfg, s, pid);
    hide Swamp.Inv, Swamp.Write, Swamp.Admits, Swamp.HasRoom, Hand, Choices;
    if PickVictim(cfg, s, pid).Ok? {
      var s1, q := PickVictim(cfg, s, pid).value.0, PickVictim(cfg, s, pid).value.1;
      PickedIsHeld(cfg, s, pid, s1, q);
      assert At(s1.pages, q).modified == At(s.pages, q).modified;
      hide PickVictim;
      Swamp.WriteAccepted(cfg.swap, s.swap, q, Cached(s1, At(s1.pages, q).frame));
    }
  }

  /** A read or write fails exactly when its page is absent and cannot be brought in. */
  lemma ResolveFails(cfg: Config, s: State, f: Flat, p: PageId, choice: nat)
    requires Sound(cfg, s, f) && p in f.mem && choice < |s.tlb|
    ensures p in s.pages
    ensures Resolve(cfg, s, p, choice).Fail? <==>
        !s.pages[p].present && (PickVictim(cfg, s, p.pid).Fail? || Blocked(cfg, s, p.pid) || !Saves(cfg, s.pages[p]))
    ensures Resolve(cfg, s, p, choice) == Fail(NoCandidate) <==>
        !s.pages[p].present && Hand(cfg, s, p.pid) >= Choices(cfg, s.frames, p.pid)
    ensures Resolve(cfg, s, p, choice) == Fail(SwapCrash) <==>
        !s.pages[p].present && Blocked(cfg, s, p.pid) && Dies(cfg.swap, s.swap, VictimOf(cfg, s, p.pid))
    ensures Resolve(cfg, s, p, choice) == Fail(SwapRefused) <==>
        !s.pages[p].present && Blocked(cfg, s, p.pid) && !Dies(cfg.swap, s.swap, VictimOf(cfg, s, p.pid))
    ensures Resolve(cfg, s, p, choice) == Fail(SwapMissing) <==>
        !s.pages[p].present && PickVictim(cfg, s, p.pid).Ok? && !Blocked(cfg, s, p.pid) && !Saves(cfg, s.pages[p])
  {
    RefinesKeys(cfg, s, f.mem);
    hide Linked, Sized, TlbAgrees, Stamped, Refines, Follows, Blocked, PickVictim, Swamp.Inv, Swamp.Fetch, Dies,
      Hand, Choices, VictimOf;
    if InTlb(s.tlb, p) {
      ResolveHit(cfg, s, p, choice);
    } else if FrameOf(s.frames, p) < |s.frames| {
      ResolveFound(cfg, s, p, choice);
    } else {
      AbsentWhenNotFound(s, p);
      FaultInFails(cfg, s, f, p);
      EvictFails(cfg, s, p.pid) by { SoundSwap(cfg, s, f); }
      hide Evict;
      hide FaultIn;
      assert Resolve(cfg, s, p, choice).Fail? <==> FaultIn(cfg, s, p).Fail?;
      assert forall e :: Resolve(cfg, s, p, choice) == Fail(e) <==> FaultIn(cfg, s, p) == Fail(e);
    }
  }

  /**
    As long as the pager can go on, a read or write fails exactly when its page is absent and either the victim
    cannot be stored, or the page itself was never stored because it was evicted before its first write.
   */
  lemma AccessFails(cfg: Config, s: State, f: Flat, p: PageId, choice: nat)
    requires Simulates(cfg, s, f) && p in f.mem && choice < |s.tlb|
    ensures p in s.pages
    ensures Resolve(cfg, s, p, choice).Fail? <==>
        !s.pages[p].present && (Blocked(cfg, s, p.pid) || !Saves(cfg, s.pages[p]))
  {
    hide Resolve, Core, Refines, Ready, Follows, Blocked, PickVictim;
    ResolveFails(cfg, s, f, p, choice);
    ClockAlwaysFinds(cfg, s, f, p);
  }

  lemma SoundSwap(cfg: Config, s: State, f: Flat)
    requires Sound(cfg, s, f)
    ensures Swamp.Inv(s.swap)
  {
  }

  lemma FaultInFails(cfg: Config, s: State, f: Flat, p: PageId)
    requires Sound(cfg, s, f) && p in s.pages && !s.pages[p].present
    ensures FaultIn(cfg, s, p).Fail? <==>
        PickVictim(cfg, s, p.pid).Fail? || Blocked(cfg, s, p.pid) || !Saves(cfg, s.pages[p])
    ensures Evict(cfg, s, p.pid).Fail? ==> FaultIn(cfg, s, p) == Fail(Evict(cfg, s, p.pid).fault)
    ensures Evict(cfg, s, p.pid).Ok? && FaultIn(cfg, s, p).Fail? ==> FaultIn(cfg, s, p) == Fail(SwapMissing)
  {
    hide Linked, Resident, Sized, TlbAgrees, Stamped, Refines, Follows, Blocked, PickVictim, Swamp.Inv,
      Swamp.Fetch, Swamp.Read, Evict;
    EvictFails(cfg, s, p.pid);
    if Evict(cfg, s, p.pid).Ok? {
      var s1, m := Evict(cfg, s, p.pid).value.0, Evict(cfg, s, p.pid).value.1;
      EvictKeeps(cfg, s, p.pid, f.mem, s1, m);
      HeldIsPresent(s, m);
      StoredIsSized(cfg, s1, p);
      Swamp.ReadKeeps(s1.swap, p);
    }
  }

  lemma HeldIsPresent(s: State, m: nat)
    requires Linked(s) && m < |s.frames| && s.frames[m].Holds?
    ensures s.frames[m].page in s.pages && s.pages[s.frames[m].page].present
  {
  }

  /** Some frame is free and, under quotas, `pid` has fewer frames than its quota. */
  ghost predicate HasRoom(cfg: Config, s: State, pid: nat) {
    && (exists m :: 0 <= m < |s.frames| && s.frames[m].Free?)
    && (cfg.allocation.Fixed? ==> Choices(cfg, s.frames, pid) < cfg.quota)
  }

  lemma {:induction false} RoomIsTaken(cfg: Config, s: State, pid: nat)
    requires Linked(s) && Resident(s)
    ensures MayTakeFrame(cfg, s, pid) <==> HasRoom(cfg, s, pid)
  {
    PresentBounded(s);
    if m :| 0 <= m < |s.frames| && s.frames[m].Free? {
      assert Paging.IsFree()(s.frames[m]);
    }
    hide Linked, Resident;
  }

  lemma {:induction false} FirstFreeFrame(frames: seq<Frame>, m: nat)
    requires m < |frames| && frames[m].Free? && forall k :: 0 <= k < m ==> !frames[k].Free?
    ensures First(frames, Paging.IsFree()) == m
  {
    assert Paging.IsFree()(frames[m]);
    assert forall k :: 0 <= k < m ==> !Paging.IsFree()(frames[k]);
  }

  /**
    With room for it, a page is always created, in the first free frame: nothing is evicted, no other page and no
    hand moves, swap is not asked, and the process owns one frame more.
   */
  lemma CreateTakesFree(cfg: Config, s: State, f: Flat, pid: nat, choice: nat, m: nat)
    requires Sound(cfg, s, f) && pid in f.counts && HasRoom(cfg, s, pid)
    requires m < |s.frames| && s.frames[m].Free? && forall k :: 0 <= k < m ==> !s.frames[k].Free?
    ensures CreatePage(cfg, s, pid, choice).Ok?
    ensures var s', p := CreatePage(cfg, s, pid, choice).value, PageId(pid, f.counts[pid] + 1);
            && s'.frames == s.frames[m := Holds(p)] && s'.swap == s.swap && s'.pages.Keys == s.pages.Keys + {p}
            && s'.pages[p].present && s'.pages[p].frame == m
            && (forall q :: q in s.pages && q != p ==> s'.pages[q] == s.pages[q])
            && (forall k :: Hand(cfg, s', k) == Hand(cfg, s, k))
            && Choices(cfg, s'.frames, pid) == Choices(cfg, s.frames, pid) + 1
  {
    hide Sized, SwapAgrees, TlbAgrees, Stamped, Refines, Follows, Hand, Load, First, MayTakeFrame, HasRoom, Linked,
      Resident;
    RoomIsTaken(cfg, s, pid);
    FirstFreeFrame(s.frames, m);
    CreatedShape(cfg, s, pid, m, choice);
    CountUpdate(s.frames, Wanted(cfg, pid), m, Holds(PageId(pid, f.counts[pid] + 1)));
  }

  /** Without room, a page created takes the frame of the victim, and nobody else's, and no free frame. */
  lemma CreateEvicts(cfg: Config, s: State, f: Flat, pid: nat, choice: nat)
    requires Sound(cfg, s, f) && pid in f.counts && !HasRoom(cfg, s, pid)
    ensures CreatePage(cfg, s, pid, choice).Fail? <==> PickVictim(cfg, s, pid).Fail? || Blocked(cfg, s, pid)
    ensures CreatePage(cfg, s, pid, choice).Ok? ==>
              var s', p := CreatePage(cfg, s, pid, choice).value, PageId(pid, f.counts[pid] + 1);
              var q := PickVictim(cfg, s, pid).value.1;
              && q in s.pages && s.pages[q].present && s.pages[q].frame < |s.frames|
              && s'.frames == s.frames[s.pages[q].frame := Holds(p)]
              && p in s'.pages && s'.pages[p].present && s'.pages[p].frame == s.pages[q].frame
  {
    hide Sized, TlbAgrees, Stamped, Refines, Follows, Load, MayTakeFrame, HasRoom, Evict, Blocked, PickVictim,
      Swamp.Inv, Created, Linked, Resident;
    RoomIsTaken(cfg, s, pid);
    EvictFails(cfg, s, pid);
    if CreatePage(cfg, s, pid, choice).Ok? {
      TakenFromVictim(cfg, s, pid, choice);
    }
  }

  lemma TakenFromVictim(cfg: Config, s: State, pid: nat, choice: nat)
    requires Core(cfg, s) && pid in s.procs && Evict(cfg, s, pid).Ok?
    ensures PickVictim(cfg, s, pid).Ok?
    ensures var s1, m := Evict(cfg, s, pid).value.0, Evict(cfg, s, pid).value.1;
            var s', p := Created(cfg, s1, pid, m, choice), PageId(pid, Proc(s, pid).pages + 1);
            var q := PickVictim(cfg, s, pid).value.1;
            && q in s.pages && s.pages[q].present && s.pages[q].frame < |s.frames|
            && s'.frames == s.frames[s.pages[q].frame := Holds(p)]
            && p in s'.pages && s'.pages[p].present && s'.pages[p].frame == s.pages[q].frame
  {
    hide Sized, TlbAgrees, Stamped, Refines, Follows, Load, Evict, Saved, Release, PickVictim, Swamp.Inv, Swamp.Fetch;
    var s1, q, swap := EvictUnfolds(cfg, s, pid);
    PickedIsHeld(cfg, s, pid, s1, q);
    ReleaseTakes(cfg, s1, q, swap, pid) by { UseIsIrrelevantToTables(cfg, s, s1); }
    ReleasedFrames(cfg, s1, q, swap);
    CreatedShape(cfg, Release(cfg, s1, q, swap), pid, At(s1.pages, q).frame, choice);
  }

  lemma ReleasedFrames(cfg: Config, s: State, q: PageId, swap: Swamp.State)
    ensures Release(cfg, s, q, swap).frames == Put(s.frames, At(s.pages, q).frame, Free)
    ensures Release(cfg, s, q, swap).procs == s.procs
  {
  }

  /**
    Creating a page fails exactly when it may not take a free frame and either the process has no frame
    of its own to give up, which needs the fixed policy, or its victim cannot be stored.
   */
  lemma CreateFails(cfg: Config, s: State, f: Flat, pid: nat, choice: nat)
    requires Simulates(cfg, s, f) && pid in f.counts
    ensures CreatePage(cfg, s, pid, choice).Fail? <==>
            !MayTakeFrame(cfg, s, pid) && (Choices(cfg, s.frames, pid) == 0 || Blocked(cfg, s, pid))
    ensures !MayTakeFrame(cfg, s, pid) && Choices(cfg, s.frames, pid) == 0 ==> cfg.allocation.Fixed?
    ensures MayTakeFrame(cfg, s, pid) <==> HasRoom(cfg, s, pid)
  {
    RoomIsTaken(cfg, s, pid);
    hide Linked, Resident, Sized, TlbAgrees, Stamped, Refines, Follows, Blocked, Swamp.Inv, Swamp.Fetch, Swamp.Write,
      Hand;
    EvictFails(cfg, s, pid);
    if !MayTakeFrame(cfg, s, pid) && cfg.allocation.Dynamic? {
      PresentBounded(s);
      NoFreeFrameIsFull(s.frames);
      assert Wanted(cfg, pid)(s.frames[0]);
      CountPositive(s.frames, Wanted(cfg, pid));
    }
  }
}
