/** The pager as the memory server runs it: tables, TLB and descriptors updated in place. */
module Pager {
  import opened Base
  import Swamp
  import Cache
  import opened Paging
  import opened PagingInvariant
  import opened PagingRun
  import opened PagingTheorems
  import Compaction

  /** `list_filter` followed by the first element: the scan behind every lookup of the tables. */
  method Find<T>(xs: seq<T>, f: T -> bool) returns (i: nat)
    ensures i == First(xs, f)
  {
    i := 0;
    while i < |xs|
      invariant i <= |xs|
      invariant forall k :: 0 <= k < i ==> !f(xs[k])
    {
      if f(xs[i]) {
        return;
      }
      i := i + 1;
    }
  }

  method HowMany<T>(xs: seq<T>, f: T -> bool) returns (n: nat)
    ensures n == Count(xs, f)
  {
    n := 0;
    var i := 0;
    while i < |xs|
      invariant i <= |xs| && n == Count(xs[..i], f)
    {
      assert xs[..i + 1][..i] == xs[..i];
      n, i := n + (if f(xs[i]) then 1 else 0), i + 1;
    }
    assert xs[..i] == xs;
  }

  lemma {:induction false} LeastIs(keys: seq<nat>, from: nat, j: nat)
    requires from <= j < |keys|
    requires forall k :: from <= k < |keys| ==> keys[j] <= keys[k]
    requires forall k :: from <= k < j ==> keys[j] < keys[k]
    ensures j == Least(keys, from)
  {
  }

  class Memory {
    const cfg: Config
    const cache: Cache.Frames
    const swap: Swamp.Server
    var frames: seq<Frame>
    var tlb: seq<Entry>
    var pages: map<PageId, Page>
    var procs: map<nat, Process>
    var hand: nat
    var clock: nat

    ghost predicate Shaped()
      reads this, swap
    {
      |swap.file| == |swap.slots| && cache.Valid() && cache.size == cfg.pageSize && swap.cfg == cfg.swap
          && cache.count == |frames|
    }

    function Now(): State
      requires Shaped()
      reads this, cache, cache.buffer, swap
    {
      State(frames, cache.Contents(), tlb, pages, procs, hand, clock, swap.Contents())
    }

    ghost predicate Valid(flat: Flat)
      reads this, cache, cache.buffer, swap
    {
      Shaped() && Sound(cfg, Now(), flat)
    }

    /** `inicializarMemoria` */
    constructor (cfg: Config, frameCount: nat, entries: nat, slots: nat)
      requires frameCount >= 1 && entries >= 1
      ensures Valid(Flat(map[], map[], [])) && Ready(cfg, Now()) && |tlb| == entries && this.cfg == cfg
      ensures fresh(cache) && fresh(cache.buffer) && fresh(swap)
      ensures Now() == Boot(cfg, frameCount, entries, slots)
    {
      this.cfg := cfg;
      cache := new Cache.Frames(cfg.pageSize, frameCount);
      swap := new Swamp.Server(cfg.swap, slots, cfg.pageSize);
      frames := seq(frameCount, _ => Free);
      tlb := seq(entries, _ => Empty);
      pages, procs, hand, clock := map[], map[], 0, 0;
      new;
      BootSimulates(cfg, frameCount, entries, slots);
    }

    // -------------------------------------------------------------- victims

    /** `get_pages_in_cache_by_carpincho_pid` or `get_all_pages_in_cache`, sorted by frame */
    method ListCandidates(pid: nat) returns (c: seq<PageId>)
      ensures c == Candidates(cfg, frames, pid)
    {
      c := [];
      var i := 0;
      while i < |frames|
        invariant i <= |frames| && c == Candidates(cfg, frames[..i], pid)
      {
        assert frames[..i + 1][..i] == frames[..i];
        if frames[i].Holds? && (cfg.allocation.Dynamic? || frames[i].page.pid == pid) {
          c := c + [frames[i].page];
        }
        i := i + 1;
      }
      assert frames[..i] == frames;
    }

    /** `get_proxima_a_swampear_by_lru` */
    method Oldest(c: seq<PageId>) returns (j: nat)
      requires |c| > 0 && cfg.replacement.Lru? && forall k :: 0 <= k < |c| ==> c[k] in pages
      ensures j == Least(Keys(cfg, pages, c), 0)
    {
      j := 0;
      var i := 1;
      while i < |c|
        invariant 0 <= j < i <= |c|
        invariant forall k :: 0 <= k < i ==> pages[c[j]].stamp <= pages[c[k]].stamp
        invariant forall k :: 0 <= k < j ==> pages[c[j]].stamp < pages[c[k]].stamp
      {
        if pages[c[i]].stamp < pages[c[j]].stamp {
          j := i;
        }
        i := i + 1;
      }
      LeastIs(Keys(cfg, pages, c), 0, j);
    }

    /** How far the use bits have been cleared while sweep number `sweep` is at position `j`. */
    static function Cleared(n: nat, start: nat, j: nat, sweep: nat): nat {
      if sweep == 0 then start else if sweep == 1 then j else n
    }

    /** The descriptors once the use bits of the candidates from `start` to before `end` have been cleared. */
    static function Clear(before: map<PageId, Page>, c: seq<PageId>, start: nat, end: nat): map<PageId, Page> {
      if start <= end <= |c| then ClearUsed(before, c[start..end]) else before
    }

    /**
      One sweep from the hand to the end of the list.  The first and the third look for (0,0), the others for
      (0,1); the second one clears the use bits it goes over, so that sweep `k` looks for what had rank `k`.
     */
    method SweepOnce(c: seq<PageId>, start: nat, sweep: nat, ghost before: map<PageId, Page>) returns (j: nat)
      requires sweep < 4 && start < |c| && Sweepable(before, c)
      requires forall k :: start <= k < |c| ==> Rank(before[c[k]]) >= sweep
      requires pages == Clear(before, c, start, Cleared(|c|, start, start, sweep))
      modifies this`pages
      ensures start <= j <= |c| && (sweep == 3 ==> j == start)
      ensures forall k :: start <= k < j ==> Rank(before[c[k]]) != sweep
      ensures j < |c| ==> Rank(before[c[j]]) == sweep
      ensures pages == Clear(before, c, start, Cleared(|c|, start, j, sweep))
    {
      hide Clear;
      var edit := sweep == 1 || sweep == 3;
      j := start;
      while j < |c|
        invariant start <= j <= |c| && (sweep == 3 ==> j == start)
        invariant pages == Clear(before, c, start, Cleared(|c|, start, j, sweep))
        invariant forall k :: start <= k < j ==> Rank(before[c[k]]) != sweep
      {
        Passing(before, c, start, j, sweep);
        var page := pages[c[j]];
        if !page.used && page.modified == edit {
          return;
        }
        if sweep == 1 {
          ClearedOneMore(before, c, start, j);
          pages := pages[c[j] := page.(used := false)];
        }
        j := j + 1;
      }
    }

    ghost predicate Sweepable(before: map<PageId, Page>, c: seq<PageId>) {
      && (forall k :: 0 <= k < |c| ==> c[k] in before)
      && forall a, b :: 0 <= a < b < |c| ==> c[a] != c[b]
    }

    /** `get_proxima_a_swampear_by_m_clock`: four sweeps, until one of them finds a page */
    method ClockSweeps(c: seq<PageId>, start: nat) returns (j: nat)
      requires cfg.replacement.MClock? && start < |c| && Sweepable(pages, c)
      modifies this`pages
      ensures var keys := Keys(cfg, old(pages), c);
              && j == Least(keys, start)
              && pages == ClearUsed(old(pages), c[start..Swept(|c|, start, j, keys[j])])
    {
      hide ClearUsed, Least, Rank;
      ghost var before := pages;
      ghost var keys := Keys(cfg, before, c);
      NothingCleared(before, c, start);
      var sweep := 0;
      while sweep < 4
        invariant sweep <= 3
        invariant pages == Clear(before, c, start, Cleared(|c|, start, start, sweep))
        invariant forall k :: start <= k < |c| ==> Rank(before[c[k]]) >= sweep
      {
        j := SweepOnce(c, start, sweep, before);
        if j < |c| {
          LeastIs(keys, start, j);
          return;
        }
        sweep := sweep + 1;
      }
    }

    lemma NothingCleared(before: map<PageId, Page>, c: seq<PageId>, start: nat)
      requires start <= |c|
      ensures Clear(before, c, start, start) == before
    {
    }

    lemma ClearedOneMore(before: map<PageId, Page>, c: seq<PageId>, start: nat, j: nat)
      requires start <= j < |c| && c[j] in before
      ensures var now := Clear(before, c, start, j);
              c[j] in now && now[c[j] := now[c[j]].(used := false)] == Clear(before, c, start, j + 1)
    {
      assert c[start..j + 1] == c[start..j] + [c[j]];
    }

    /** What the sweep sees at position `j`, in terms of the bits before the first sweep. */
    lemma Passing(before: map<PageId, Page>, c: seq<PageId>, start: nat, j: nat, sweep: nat)
      requires start <= j < |c| && Sweepable(before, c)
      ensures var now := Clear(before, c, start, Cleared(|c|, start, j, sweep));
              c[j] in now && now[c[j]] == if sweep < 2 then before[c[j]] else before[c[j]].(used := false)
    {
      if sweep >= 2 {
        assert c[start..|c|][j - start] == c[j];
      }
    }

    /** The victim on behalf of `pid`; the clock leaves its hand just after it. */
    method ChooseVictim(pid: nat) returns (r: Result<PageId>)
      requires Shaped() && Linked(Now()) && pid in procs
      modifies this`pages, this`procs, this`hand
      ensures Shaped()
      ensures r.Fail? <==> PickVictim(cfg, old(Now()), pid).Fail?
      ensures r.Ok? ==> PickVictim(cfg, old(Now()), pid) == Ok((Now(), r.value))
    {
      ghost var s := Now();
      var c := ListCandidates(pid);
      CandidatesKnown(pid, c);
      hide Linked, Candidates;
      var start := if cfg.replacement.Lru? then 0 else if cfg.allocation.Fixed? then procs[pid].hand else hand;
      if start >= |c| {
        return Fail(NoCandidate);
      }
      var j;
      if cfg.replacement.Lru? {
        j := Oldest(c);
        assert ClearUsed(pages, c[0..0]) == pages;
      } else {
        j := ClockSweeps(c, start);
        AdvanceHand(pid, j, |c|);
      }
      r := Ok(c[j]);
    }

    method AdvanceHand(pid: nat, j: nat, n: nat)
      requires Shaped() && cfg.replacement.MClock? && pid in procs
      modifies this`procs, this`hand
      ensures Shaped() && Now() == MoveHand(cfg, old(Now()), pid, j, n)
    {
      var next := if j + 1 >= n then 0 else j + 1;
      if cfg.allocation.Fixed? {
        procs := procs[pid := procs[pid].(hand := next)];
      } else {
        hand := next;
      }
    }

    lemma {:induction false} CandidatesKnown(pid: nat, c: seq<PageId>)
      requires Shaped() && Linked(Now()) && c == Candidates(cfg, frames, pid)
      ensures forall k :: 0 <= k < |c| ==> c[k] in pages
      ensures forall a, b :: 0 <= a < b < |c| ==> c[a] != c[b]
    {
      forall k | 0 <= k < |c|
        ensures c[k] in pages
      {
        CandidateIsHeld(cfg, frames, pid, c[k]);
      }
      CandidatesInFrameOrder(cfg, frames, pid);
      assert c == Candidates(cfg, frames, pid);
    }

    // -------------------------------------------------------------- moving pages

    /** `vaciar_marco_en_cache` */
    method EmptyFrame(m: nat)
      requires Shaped() && m < |frames|
      modifies this`frames, this`tlb, cache.buffer
      ensures Shaped()
      ensures Now() == old(Now()).(
                frames := old(frames)[m := Free], cache := old(cache.Contents())[m := Blank(cfg)],
                    tlb := Forget(old(tlb), m))
    {
      cache.Clear(m);
      var i := Find(tlb, On(m));
      if i < |tlb| {
        tlb := tlb[i := Empty];
      }
      frames := frames[m := Free];
    }

    /** Sends the page to swap, except a clean one under the clock. */
    method Save(q: PageId) returns (r: Result<()>)
      requires Shaped() && q in pages && pages[q].frame < |frames|
      modifies swap
      ensures Shaped()
      ensures r.Fail? <==> Saved(cfg, old(Now()), q).Fail?
      ensures r.Ok? ==> Saved(cfg, old(Now()), q) == Ok(swap.Contents())
    {
      if cfg.replacement.MClock? && !pages[q].modified {
        return Ok(());
      }
      hide Swamp.Write;
      var m := pages[q].frame;
      var content := cache.Read(m, 0, cfg.pageSize);
      WholeFrame(m);
      assert content.value == Cached(Now(), m);
      var reply := swap.WritePage(q, content.value);
      match reply
      case Stored => r := Ok(());
      case Refused => r := Fail(SwapRefused);
      case Crashed => r := Fail(SwapCrash);
    }

    /** The first half of `swampear_pagina` and of `swampear_pagina_when_create_page` */
    method MakeRoom(pid: nat) returns (r: Result<nat>)
      requires Shaped() && Linked(Now()) && pid in procs
      modifies this, cache.buffer, swap
      ensures Shaped() && |frames| == old(|frames|)
      ensures r.Fail? <==> Evict(cfg, old(Now()), pid).Fail?
      ensures r.Ok? ==> Evict(cfg, old(Now()), pid) == Ok((Now(), r.value)) && r.value < |frames|
    {
      ghost var s := Now();
      hide PickVictim, Saved, Linked;
      var picked := ChooseVictim(pid);
      if picked.Fail? {
        return Fail(picked.fault);
      }
      var q := picked.value;
      ghost var s1 := Now();
      PickedPlace(s, pid, s1, q);
      var m := pages[q].frame;
      var saved := Save(q);
      if saved.Fail? {
        return Fail(saved.fault);
      }
      EmptyFrame(m);
      pages := pages[q := pages[q].(present := false, frame := 0)];
      r := Ok(m);
    }

    lemma WholeFrame(m: nat)
      requires Shaped() && m < |frames|
      ensures |cache.Contents()[m]| == cfg.pageSize
      ensures Slice(cache.Contents()[m], 0, cfg.pageSize) == Some(cache.Contents()[m])
    {
      Cache.InRange(m, cache.size, cache.count);
      var content := cache.Contents()[m];
      assert content[0..cfg.pageSize] == content;
    }

    lemma PickedPlace(s: State, pid: nat, s1: State, q: PageId)
      requires Linked(s) && PickVictim(cfg, s, pid) == Ok((s1, q))
      ensures q in s1.pages && s1.pages[q].frame < |s.frames| == |s1.frames| && s1.pages.Keys == s.pages.Keys
    {
      PickedIsHeld(cfg, s, pid, s1, q);
    }

    /** The second half of `swampear_pagina`: the page comes back from swap into the frame emptied for it. */
    method Refill(p: PageId, m: nat) returns (ok: bool)
      requires Shaped() && m < |frames| && p in pages
      requires var reply := Swamp.Read(swap.Contents(), p).1; reply.Content? ==> |reply.bytes| == cfg.pageSize
      modifies this`frames, this`pages, cache.buffer, swap
      ensures Shaped() && |frames| == old(|frames|)
      ensures var (after, reply) := Swamp.Read(old(swap.Contents()), p);
              && ok == reply.Content?
              && (ok ==> Now() == Bring(old(Now()), p, m, reply.bytes, At(old(pages), p), after))
    {
      hide Swamp.Read;
      frames := frames[m := Holds(p)];
      var reply := swap.ReadPage(p);
      if !reply.Content? {
        return false;
      }
      WholeFrame(m);
      assert Patch(cache.Contents()[m], 0, reply.bytes) == reply.bytes;
      var written := cache.Write(m, 0, reply.bytes);
      pages := pages[p := pages[p].(frame := m, present := true)];
      ok := true;
    }

    /** `swampear_pagina` */
    method Fault(p: PageId, ghost flat: Flat) returns (r: Result<nat>)
      requires Valid(flat) && p in pages && !pages[p].present
      modifies this, cache.buffer, swap
      ensures Shaped() && |frames| == old(|frames|)
      ensures r.Fail? <==> FaultIn(cfg, old(Now()), p).Fail?
      ensures r.Ok? ==> FaultIn(cfg, old(Now()), p) == Ok((Now(), r.value))
    {
      ghost var s := Now();
      KnownProcess(s, flat, p);
      hide Evict, Bring, Sound, Swamp.Read, Swamp.Fetch, Linked;
      var room := MakeRoom(p.pid);
      if room.Fail? {
        return Fail(room.fault);
      }
      StoredSize(s, flat, p, Now(), room.value);
      var ok := Refill(p, room.value);
      r := if ok then Ok(room.value) else Fail(SwapMissing);
    }

    lemma KnownProcess(s: State, flat: Flat, p: PageId)
      requires Sound(cfg, s, flat) && p in s.pages
      ensures Linked(s) && p.pid in s.procs && p in flat.mem
    {
      RefinesKeys(cfg, s, flat.mem);
      hide Linked, Refines, Core;
    }

    /** What an eviction leaves of the absent page it was made for. */
    lemma StoredSize(s: State, flat: Flat, p: PageId, s1: State, m: nat)
      requires Sound(cfg, s, flat) && p in s.pages && !s.pages[p].present && Evict(cfg, s, p.pid) == Ok((s1, m))
      ensures p in s1.pages
      ensures Swamp.Read(s1.swap, p).1.Content? ==> |Swamp.Read(s1.swap, p).1.bytes| == cfg.pageSize
    {
      hide Evict, Swamp.Read, Swamp.Inv, Swamp.Fetch, Linked, Resident, Sized, TlbAgrees, Stamped, Refines,
        Follows;
      EvictKeeps(cfg, s, p.pid, flat.mem, s1, m);
      StoredIsSized(cfg, s1, p);
      Swamp.ReadKeeps(s1.swap, p);
    }

    /**
      `actualizar_tlb`, with `choice` the entry its replacement policy gives up.  The first branch, which
      the source takes when the frame already has an entry, is never reached from a valid state.
     */
    method UpdateTlb(p: PageId, m: nat, choice: nat)
      requires Shaped()
      modifies this`tlb
      ensures Shaped() && tlb == Load(old(tlb), p, m, choice)
    {
      var known := Find(tlb, On(m));
      if known < |tlb| {
        return;
      }
      var empty := Find(tlb, IsEmpty());
      if empty == |tlb| {
        tlb := Put(tlb, choice, Empty);
        empty := choice;
      }
      tlb := Put(tlb, empty, Maps(p, m));
    }

    /** The part of `obtener_marco_para_pagina` that runs on a TLB miss */
    method SearchPage(p: PageId, choice: nat, ghost flat: Flat) returns (r: Result<nat>)
      requires Valid(flat) && p in pages && choice < |tlb|
      modifies this, cache.buffer, swap
      ensures Shaped() && |frames| == old(|frames|)
      ensures r.Fail? <==> Search(cfg, old(Now()), p, choice).Fail?
      ensures r.Ok? ==> Search(cfg, old(Now()), p, choice) == Ok((Now(), r.value))
    {
      CoreFacts(Now(), flat, p);
      hide Sound, FaultIn, Load;
      r := LocateFrame(p, flat);
      if r.Ok? {
        UpdateTlb(p, r.value, choice);
      }
    }

    method LocateFrame(p: PageId, ghost flat: Flat) returns (r: Result<nat>)
      requires Valid(flat) && p in pages
      modifies this, cache.buffer, swap
      ensures Shaped() && |frames| == old(|frames|)
      ensures var m := FrameOf(old(frames), p);
              var found := if m < |old(frames)| then Ok((old(Now()), m)) else FaultIn(cfg, old(Now()), p);
              && (r.Fail? <==> found.Fail?)
              && (r.Ok? ==> found == Ok((Now(), r.value)))
    {
      CoreFacts(Now(), flat, p);
      hide Sound, FaultIn, Load;
      var m := Find(frames, Is(p));
      if m < |frames| {
        return Ok(m);
      }
      r := Fault(p, flat);
    }

    /** The frame of a page that is in the TLB; the recovery the source has ready is never needed. */
    method FromTlb(p: PageId, entry: nat, ghost flat: Flat) returns (m: nat)
      requires Valid(flat) && p in pages && entry == First(tlb, For(p)) < |tlb|
      ensures m == tlb[entry].frame < |frames| && frames[m] == Holds(p)
    {
      CoreFacts(Now(), flat, p);
      hide Sound, Search;
      m := tlb[entry].frame;
      if frames[m] != Holds(p) {
        assert false;
      }
    }

    /** `obtener_marco_para_pagina`, and the refresh of the descriptor that follows every call of it */
    method Locate(p: PageId, choice: nat, ghost flat: Flat) returns (r: Result<nat>)
      requires Valid(flat) && p in pages && choice < |tlb|
      modifies this, cache.buffer, swap
      ensures Shaped() && |frames| == old(|frames|)
      ensures r.Fail? <==> Resolve(cfg, old(Now()), p, choice).Fail?
      ensures r.Ok? ==> Resolve(cfg, old(Now()), p, choice) == Ok(Now()) && p in pages && pages[p].frame == r.value
    {
      hide Sound, Search, First;
      var entry := Find(tlb, For(p));
      if entry < |tlb| {
        var m := FromTlb(p, entry, flat);
        r := Ok(m);
      } else {
        r := SearchPage(p, choice, flat);
        if r.Fail? {
          return;
        }
      }
      pages := pages[p := At(pages, p).(frame := r.value, present := true)];
    }

    /** The facts that make the recovery branches of the source unreachable. */
    lemma CoreFacts(s: State, flat: Flat, p: PageId)
      requires Sound(cfg, s, flat) && p in s.pages
      ensures forall i :: 0 <= i < |s.tlb| && For(p)(s.tlb[i]) ==>
          s.tlb[i].frame < |s.frames| && s.frames[s.tlb[i].frame] == Holds(p)
      ensures FrameOf(s.frames, p) == |s.frames| ==> !s.pages[p].present
    {
      hide SwapAgrees, Refines, Follows, Sized, Stamped;
      if FrameOf(s.frames, p) == |s.frames| {
        AbsentWhenNotFound(s, p);
      }
    }

    // -------------------------------------------------------------- requests

    /** The bookkeeping at the end of `leer_en_pagina` and `escribir_en_pagina` */
    method Mark(p: PageId, ticks: nat, write: bool)
      requires Shaped() && p in pages
      modifies this`pages, this`clock
      ensures Shaped() && Now() == Touch(cfg, old(Now()), p, ticks, write)
    {
      clock := clock + ticks;
      if cfg.replacement.MClock? {
        pages := pages[p := pages[p].(used := true, modified := pages[p].modified || write)];
      } else {
        pages := pages[p := pages[p].(stamp := clock)];
        clock := clock + 1;
      }
    }

    method TlbTicks(p: PageId) returns (ticks: nat)
      requires Shaped()
      ensures ticks == Ticks(cfg, Now(), p)
    {
      var entry := Find(tlb, For(p));
      ticks := if cfg.tlbLru && entry < |tlb| then 2 else 0;
    }

    /** The steps of `leer_en_pagina` */
    method ReadLocated(p: PageId, offset: nat, size: nat, choice: nat, ghost flat: Flat)
      returns (r: Result<Option<Bytes>>)
      requires Valid(flat) && p in pages && choice < |tlb|
      modifies this, cache.buffer, swap
      ensures Shaped()
      ensures r.Fail? <==> Resolve(cfg, old(Now()), p, choice).Fail?
      ensures r.Ok? ==> ReadPage(cfg, old(Now()), p, offset, size, choice) == Ok((Now(), r.value))
    {
      ghost var s := Now();
      hide Sound, Resolve, Touch, Ticks, Slice, ReadPage;
      ReadUnfolds(s, p, offset, size, choice);
      var ticks := TlbTicks(p);
      var located := Locate(p, choice, flat);
      if located.Fail? {
        return Fail(located.fault);
      }
      FrameInRange(s, flat, p, choice, Now());
      var bytes := cache.Read(located.value, offset, size);
      Mark(p, ticks, false);
      r := Ok(bytes);
    }

    lemma ReadUnfolds(s: State, p: PageId, offset: nat, size: nat, choice: nat)
      ensures var resolved := Resolve(cfg, s, p, choice);
              resolved.Ok? ==>
                var s1 := resolved.value;
                ReadPage(cfg, s, p, offset, size, choice) ==
                Ok((Touch(cfg, s1, p, Ticks(cfg, s, p), false), Slice(Cached(s1, At(s1.pages, p).frame), offset, size)))
    {
      hide Resolve, Touch, Ticks, Slice;
    }

    /**
      `leer_en_pagina`: a read that completes returns the bytes the flat memory holds, and nothing when
      the range leaves the page.
     */
    method Read(p: PageId, offset: nat, size: nat, choice: nat, ghost flat: Flat) returns (r: Result<Option<Bytes>>)
      requires Valid(flat) && p in flat.mem && choice < |tlb|
      modifies this, cache.buffer, swap
      ensures r.Fail? <==> Resolve(cfg, old(Now()), p, choice).Fail?
      ensures r.Ok? ==> Valid(flat.(trace := flat.trace + [p])) && r.value == Slice(flat.mem[p], offset, size)
      ensures r.Ok? ==> |tlb| == old(|tlb|)
      ensures r.Ok? ==> ReadPage(cfg, old(Now()), p, offset, size, choice) == Ok((Now(), r.value))
      ensures r.Ok? && Ready(cfg, old(Now())) ==> Ready(cfg, Now())
    {
      hide Sound, Ready, Resolve, ReadPage, Slice;
      ghost var s := Now();
      KnownPage(s, flat, p);
      r := ReadLocated(p, offset, size, choice, flat);
      if r.Ok? {
        ReadKeeps(cfg, s, flat, p, offset, size, choice, Now(), r.value);
      }
    }

    lemma KnownPage(s: State, flat: Flat, p: PageId)
      requires Sound(cfg, s, flat) && p in flat.mem
      ensures p in s.pages
    {
      RefinesKeys(cfg, s, flat.mem);
    }

    lemma FrameInRange(s: State, flat: Flat, p: PageId, choice: nat, s1: State)
      requires Sound(cfg, s, flat) && p in s.pages && choice < |s.tlb| && Resolve(cfg, s, p, choice) == Ok(s1)
      ensures p in s1.pages && s1.pages[p].frame < |s1.frames|
    {
      hide Resolve, Linked, Sized, SwapAgrees, TlbAgrees, Stamped, Refines, Follows;
      ResolveKeeps(cfg, s, p, choice, flat.mem, s1);
    }

    /** The steps of `escribir_en_pagina` */
    method WriteLocated(p: PageId, offset: nat, data: Bytes, choice: nat, ghost flat: Flat) returns (r: Result<bool>)
      requires Valid(flat) && p in pages && choice < |tlb|
      modifies this, cache.buffer, swap
      ensures Shaped()
      ensures r.Fail? <==> Resolve(cfg, old(Now()), p, choice).Fail?
      ensures r.Ok? ==> WritePage(cfg, old(Now()), p, offset, data, choice) == Ok((Now(), r.value))
    {
      ghost var s := Now();
      hide Sound, Resolve, Touch, Ticks, WritePage;
      WriteUnfolds(s, p, offset, data, choice);
      var ticks := TlbTicks(p);
      var located := Locate(p, choice, flat);
      if located.Fail? {
        return Fail(located.fault);
      }
      FrameInRange(s, flat, p, choice, Now());
      WholeFrame(located.value);
      var fits := cache.Write(located.value, offset, data);
      hide Patch;
      Mark(p, ticks, true);
      r := Ok(fits);
    }

    lemma WriteUnfolds(s: State, p: PageId, offset: nat, data: Bytes, choice: nat)
      ensures var resolved := Resolve(cfg, s, p, choice);
              resolved.Ok? ==>
                var s1 := resolved.value;
                var m := At(s1.pages, p).frame;
                var s2 := s1.(cache := Put(s1.cache, m, Patch(Cached(s1, m), offset, data)));
                WritePage(cfg, s, p, offset, data, choice) ==
                Ok((Touch(cfg, s2, p, Ticks(cfg, s, p), true), offset + |data| <= |Cached(s1, m)|))
    {
      hide Resolve, Touch, Ticks, Patch;
    }

    /** `escribir_en_pagina`: a write that completes changes that range of the flat memory and no other byte. */
    method Write(p: PageId, offset: nat, data: Bytes, choice: nat, ghost flat: Flat) returns (r: Result<bool>)
      requires Valid(flat) && p in flat.mem && choice < |tlb|
      modifies this, cache.buffer, swap
      ensures r.Fail? <==> Resolve(cfg, old(Now()), p, choice).Fail?
      ensures r.Ok? ==>
                && Valid(Flat(flat.mem[p := Patch(flat.mem[p], offset, data)], flat.counts, flat.trace + [p]))
                && (r.value <==> offset + |data| <= cfg.pageSize)
                && |tlb| == old(|tlb|)
      ensures r.Ok? ==> WritePage(cfg, old(Now()), p, offset, data, choice) == Ok((Now(), r.value))
      ensures r.Ok? && Ready(cfg, old(Now())) ==> Ready(cfg, Now())
    {
      hide Sound, Ready, Resolve, WritePage, Patch;
      ghost var s := Now();
      KnownPage(s, flat, p);
      r := WriteLocated(p, offset, data, choice, flat);
      if r.Ok? {
        PagingRun.WriteKeeps(cfg, s, flat, p, offset, data, choice, Now(), r.value);
      }
    }

    /** `create_carpincho` */
    method AddProcess(pid: nat, ghost flat: Flat)
      requires Valid(flat)
      modifies this`procs
      ensures Valid(FlatStep(cfg, flat, Register(pid)).0) && pid in procs
      ensures Now() == Paging.Register(old(Now()), pid)
      ensures Ready(cfg, old(Now())) ==> Ready(cfg, Now())
    {
      ghost var s := Now();
      if pid !in procs {
        procs := procs[pid := Process(0, 0)];
      }
      hide Sound, Ready;
      RegisterKeeps(cfg, s, flat, pid);
    }

    /** `can_carpincho_add_marco_to_page` */
    method MayTake(pid: nat) returns (may: bool)
      requires Shaped()
      ensures may <==> MayTakeFrame(cfg, Now(), pid)
    {
      var free := Find(frames, Paging.IsFree());
      var owned := HowMany(frames, Wanted(cfg, pid));
      may := |Present(pages)| <= |frames| && free < |frames| && (cfg.allocation.Fixed? ==> owned < cfg.quota);
    }

    /** The frame of a new page: a free one if it may be taken, or one emptied for it. */
    method RoomForPage(pid: nat) returns (r: Result<nat>)
      requires Shaped() && Linked(Now()) && pid in procs
      modifies this, cache.buffer, swap
      ensures Shaped() && |frames| == old(|frames|)
      ensures var may := MayTakeFrame(cfg, old(Now()), pid);
              && (r.Fail? <==> !may && Evict(cfg, old(Now()), pid).Fail?)
              && (r.Ok? ==> r.value < |frames|)
              && (r.Ok? && may ==> Now() == old(Now()) && r.value == First(old(frames), Paging.IsFree()))
              && (r.Ok? && !may ==> Evict(cfg, old(Now()), pid) == Ok((Now(), r.value)))
    {
      hide Evict, Linked;
      var may := MayTake(pid);
      if may {
        var m := Find(frames, Paging.IsFree());
        return Ok(m);
      }
      hide MayTakeFrame;
      r := MakeRoom(pid);
    }

    /** The second half of `create_pagina` */
    method Occupy(pid: nat, m: nat, choice: nat) returns (p: PageId)
      requires Shaped() && m < |frames| && pid in procs
      modifies this
      ensures Shaped() && Now() == Created(cfg, old(Now()), pid, m, choice)
      ensures p == PageId(pid, old(procs)[pid].pages + 1)
    {
      hide Load;
      SameCache(m);
      p := PageId(pid, procs[pid].pages + 1);
      frames := frames[m := Holds(p)];
      UpdateTlb(p, m, choice);
      var clocked := cfg.replacement.MClock?;
      pages := pages[p := Page(m, true, clocked, false, if clocked then 0 else clock)];
      procs := procs[pid := procs[pid].(pages := procs[pid].pages + 1)];
      clock := if clocked then clock else clock + 1;
    }

    /** `create_pagina`: the new page is blank, and no other page changes. */
    method AddPage(pid: nat, choice: nat, ghost flat: Flat) returns (r: Result<PageId>)
      requires Valid(flat) && pid in flat.counts && choice < |tlb|
      requires NotLost(frames, PageId(pid, flat.counts[pid] + 1))
      modifies this, cache.buffer, swap
      ensures r.Fail? <==> CreatePage(cfg, old(Now()), pid, choice).Fail?
      ensures r.Ok? ==> Valid(FlatStep(cfg, flat, Create(pid)).0) && |tlb| == old(|tlb|)
      ensures r.Ok? ==> r.value == PageId(pid, flat.counts[pid] + 1)
      ensures r.Ok? ==> CreatePage(cfg, old(Now()), pid, choice) == Ok(Now())
      ensures r.Ok? && Ready(cfg, old(Now())) ==> Ready(cfg, Now())
    {
      hide Sound, Ready, Evict, MayTakeFrame, Linked, Created, CreatePage, FlatStep;
      ghost var s := Now();
      ProcessKnown(s, flat, pid);
      ghost var may := MayTakeFrame(cfg, s, pid);
      var room := RoomForPage(pid);
      CreateNeedsRoom(s, pid, choice);
      if room.Fail? {
        return Fail(room.fault);
      }
      ghost var s1 := Now();
      EvictedProcs(s, pid, s1, room.value, may);
      var p := Occupy(pid, room.value, choice);
      CreatedIsCreate(s, pid, s1, room.value, choice, may);
      CreateKeeps(cfg, s, flat, pid, choice, Now());
      r := Ok(p);
    }

    /**
      `compactar_pagina` for a process with one page: the descriptor leaves the list of the process.  Nothing is done
      to the frame; `Lost` says that no list leads to it any more.
     */
    method Orphan(pid: nat, ghost flat: Flat)
      requires Valid(flat) && Compaction.HasOnePage(Now(), flat, pid)
      modifies this`frames, this`pages, this`procs
      ensures Valid(Compaction.Dropped(flat, pid)) && Now() == Orphaned(old(Now()), pid)
    {
      hide Sound, Compaction.Dropped;
      Compaction.OrphanKeeps(cfg, Now(), flat, pid);
      var p := PageId(pid, 1);
      frames := Put(frames, At(pages, p).frame, Lost(p));
      pages := pages - {p};
      procs := procs[pid := (if pid in procs then procs[pid] else Process(0, 0)).(pages := 0)];
    }

    lemma ProcessKnown(s: State, flat: Flat, pid: nat)
      requires Sound(cfg, s, flat) && pid in flat.counts
      ensures Linked(s) && pid in s.procs && s.procs[pid].pages == flat.counts[pid]
    {
      hide Linked, Resident, Sized, SwapAgrees, TlbAgrees, Stamped, Refines, Follows;
    }

    lemma CreateNeedsRoom(s: State, pid: nat, choice: nat)
      ensures CreatePage(cfg, s, pid, choice).Fail? <==> !MayTakeFrame(cfg, s, pid) && Evict(cfg, s, pid).Fail?
    {
      hide MayTakeFrame, Evict, Load;
    }

    lemma SameCache(m: nat)
      requires Shaped() && m < |frames|
      ensures Put(cache.Contents(), m, cache.Contents()[m]) == cache.Contents()
    {
    }

    lemma EvictedProcs(s: State, pid: nat, s1: State, m: nat, may: bool)
      requires Linked(s) && pid in s.procs
      requires if may then s1 == s else Evict(cfg, s, pid) == Ok((s1, m))
      ensures pid in s1.procs && s1.procs[pid].pages == s.procs[pid].pages
    {
      hide Evict;
      if !may {
        EvictMoves(cfg, s, pid, s1, m);
      }
    }

    lemma CreatedIsCreate(s: State, pid: nat, s1: State, m: nat, choice: nat, may: bool)
      requires may <==> MayTakeFrame(cfg, s, pid)
      requires if may then s1 == s && m == First(s.frames, Paging.IsFree()) else Evict(cfg, s, pid) == Ok((s1, m))
      ensures CreatePage(cfg, s, pid, choice) == Ok(Created(cfg, s1, pid, m, choice))
    {
      hide Evict, MayTakeFrame, Created;
    }
  }
}
