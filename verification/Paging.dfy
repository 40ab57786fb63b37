/**
  The pager of the memory server, as a machine over values: the frame table, the frame contents, the
  TLB, the page descriptors, the processes, the clock and the swap server it talks to.  The class that
  updates these in place is in Pager.dfy and is proved equal to the functions of this module.
 */
module Paging {
  import opened Base
  import Swamp

  datatype Replacement = Lru | MClock

  datatype Config = Config(
    pageSize: nat,
    replacement: Replacement,
    allocation: Allocation,
    quota: nat,
    tlbLru: bool,
    swap: Swamp.Config)

  /** A lost frame is still marked with a page, but no descriptor of that page is left. */
  datatype Frame = Free | Holds(page: PageId) | Lost(page: PageId)

  datatype Entry = Empty | Maps(page: PageId, frame: nat)

  datatype Page = Page(frame: nat, present: bool, used: bool, modified: bool, stamp: nat)

  /** A process: its own clock hand and the number of pages created for it so far. */
  datatype Process = Process(hand: nat, pages: nat)

  datatype State = State(
    frames: seq<Frame>,
    cache: seq<Bytes>,
    tlb: seq<Entry>,
    pages: map<PageId, Page>,
    procs: map<nat, Process>,
    hand: nat,
    clock: nat,
    swap: Swamp.State)

  /** An empty frame is filled with underscores. */
  function Blank(cfg: Config): (r: Bytes)
    ensures |r| == cfg.pageSize && forall k :: 0 <= k < |r| ==> r[k] == '_' as Byte
  {
    seq(cfg.pageSize, _ => 95 as Byte)
  }

  // ---------------------------------------------------------------- frame table and TLB

  function IsFree(): Frame -> bool {
    (f: Frame) => f.Free?
  }

  function Is(p: PageId): Frame -> bool {
    (f: Frame) => f == Holds(p)
  }

  function FrameOf(frames: seq<Frame>, p: PageId): (m: nat)
    ensures m <= |frames|
  {
    First(frames, Is(p))
  }

  function IsEmpty(): Entry -> bool {
    (e: Entry) => e.Empty?
  }

  function For(p: PageId): Entry -> bool {
    (e: Entry) => e.Maps? && e.page == p
  }

  function On(m: nat): Entry -> bool {
    (e: Entry) => e.Maps? && e.frame == m
  }

  predicate InTlb(tlb: seq<Entry>, p: PageId) {
    First(tlb, For(p)) < |tlb|
  }

  /** Drops the entry of frame `m`, if there is one. */
  function Forget(tlb: seq<Entry>, m: nat): seq<Entry> {
    var i := First(tlb, On(m));
    if i < |tlb| then tlb[i := Empty] else tlb
  }

  /**
    Records that `p` is in frame `m`, in the first empty entry or, when none is empty, in the entry
    `choice` picked by the replacement policy.  When the frame already has an entry nothing is loaded.
   */
  function Load(tlb: seq<Entry>, p: PageId, m: nat, choice: nat): (r: seq<Entry>)
    ensures |r| == |tlb|
  {
    var i := First(tlb, IsEmpty());
    if First(tlb, On(m)) < |tlb| then tlb
    else Put(tlb, if i < |tlb| then i else choice, Maps(p, m))
  }

  // ---------------------------------------------------------------- choosing a victim

  /** The frames whose page may be evicted on behalf of `pid`. */
  function Wanted(cfg: Config, pid: nat): Frame -> bool {
    (f: Frame) => f.Holds? && (cfg.allocation.Dynamic? || f.page.pid == pid)
  }

  /** The candidate pages, in frame order. */
  function Candidates(cfg: Config, frames: seq<Frame>, pid: nat): (c: seq<PageId>)
    ensures |c| == Count(frames, Wanted(cfg, pid))
  {
    if |frames| == 0 then []
    else
      var n := |frames| - 1;
      Candidates(cfg, frames[..n], pid) + if Wanted(cfg, pid)(frames[n]) then [frames[n].page] else []
  }

  /** The position of the first least key at or after `from`. */
  function Least(keys: seq<nat>, from: nat): (r: nat)
    requires from < |keys|
    ensures from <= r < |keys|
    ensures forall k :: from <= k < |keys| ==> keys[r] <= keys[k]
    ensures forall k :: from <= k < r ==> keys[r] < keys[k]
    decreases |keys| - from
  {
    if from == |keys| - 1 then from
    else
      var r := Least(keys, from + 1);
      if keys[from] <= keys[r] then from else r
  }

  /** (0,0) < (0,1) < (1,0) < (1,1), reading the use bit first. */
  function Rank(page: Page): nat {
    (if page.used then 2 else 0) + if page.modified then 1 else 0
  }

  /** How far the second sweep of the clock got when the victim is at `j`. */
  function Swept(n: nat, hand: nat, j: nat, rank: nat): nat {
    if rank == 0 then hand else if rank == 1 then j else n
  }

  function ClearUsed(pages: map<PageId, Page>, passed: seq<PageId>): (r: map<PageId, Page>)
    ensures r.Keys == pages.Keys
    ensures forall p :: p in pages ==> r[p] == pages[p].(used := pages[p].used && p !in passed)
  {
    map p | p in pages :: if p in passed then pages[p].(used := false) else pages[p]
  }

  /** Some frame `pid` may evict holds `p`. */
  ghost predicate IsHeld(cfg: Config, frames: seq<Frame>, pid: nat, p: PageId) {
    exists i :: 0 <= i < |frames| && frames[i] == Holds(p) && Wanted(cfg, pid)(frames[i])
  }

  lemma {:induction false} CandidateIsHeld(cfg: Config, frames: seq<Frame>, pid: nat, p: PageId)
    ensures p in Candidates(cfg, frames, pid) <==> IsHeld(cfg, frames, pid, p)
  {
    if |frames| > 0 {
      var n := |frames| - 1;
      CandidateIsHeld(cfg, frames[..n], pid, p);
      if IsHeld(cfg, frames[..n], pid, p) {
        var i :| 0 <= i < n && frames[..n][i] == Holds(p) && Wanted(cfg, pid)(frames[..n][i]);
        assert frames[i] == Holds(p);
      }
      if i :| 0 <= i < |frames| && frames[i] == Holds(p) && Wanted(cfg, pid)(frames[i]) {
        assert i < n ==> frames[..n][i] == Holds(p);
      }
    }
  }

  lemma FrameOfPrefix(frames: seq<Frame>, n: nat, p: PageId)
    requires n <= |frames| && FrameOf(frames[..n], p) < n
    ensures FrameOf(frames, p) == FrameOf(frames[..n], p)
  {
    var i := FrameOf(frames[..n], p);
    assert frames[i] == frames[..n][i];
    assert forall k :: 0 <= k < i ==> frames[k] == frames[..n][k];
  }

  lemma FrameOfLast(frames: seq<Frame>, n: nat)
    requires n + 1 == |frames| && frames[n].Holds?
    requires forall k :: 0 <= k < n ==> frames[k] != frames[n]
    ensures FrameOf(frames, frames[n].page) == n
  {
    assert Is(frames[n].page)(frames[n]);
  }

  /** The list the victim is taken from is sorted by frame number, as the sort in the source leaves it. */
  lemma {:induction false} CandidatesInFrameOrder(cfg: Config, frames: seq<Frame>, pid: nat)
    requires forall i, j :: 0 <= i < j < |frames| && frames[i].Holds? ==> frames[i] != frames[j]
    ensures var c := Candidates(cfg, frames, pid);
            && (forall a :: 0 <= a < |c| ==> FrameOf(frames, c[a]) < |frames|)
            && (forall a, b :: 0 <= a < b < |c| ==> FrameOf(frames, c[a]) < FrameOf(frames, c[b]))
  {
    hide FrameOf, Wanted;
    if |frames| > 0 {
      var n := |frames| - 1;
      var c, d := Candidates(cfg, frames, pid), Candidates(cfg, frames[..n], pid);
      CandidatesInFrameOrder(cfg, frames[..n], pid);
      assert d == Candidates(cfg, frames[..n], pid);
      forall a | 0 <= a < |d|
        ensures FrameOf(frames, d[a]) == FrameOf(frames[..n], d[a]) < n
      {
        FrameOfPrefix(frames, n, d[a]);
      }
      if Wanted(cfg, pid)(frames[n]) {
        WantedHolds(cfg, pid, frames[n]);
        FrameOfLast(frames, n);
        assert c == d + [frames[n].page];
      } else {
        assert c == d;
      }
    }
  }

  lemma WantedHolds(cfg: Config, pid: nat, f: Frame)
    requires Wanted(cfg, pid)(f)
    ensures f.Holds?
  {
  }

  /** The descriptor of a page; a blank one stands for a page the process does not have. */
  function At(pages: map<PageId, Page>, p: PageId): Page {
    if p in pages then pages[p] else Page(0, false, false, false, 0)
  }

  /** The candidates seen as keys: their rank under the clock, their time stamp under LRU. */
  function Keys(cfg: Config, pages: map<PageId, Page>, c: seq<PageId>): (keys: seq<nat>)
    ensures |keys| == |c|
  {
    seq(|c|, i requires 0 <= i < |c| => if cfg.replacement.Lru? then At(pages, c[i]).stamp else Rank(At(pages, c[i])))
  }

  function Hand(cfg: Config, s: State, pid: nat): nat {
    if cfg.replacement.Lru? then 0
    else if cfg.allocation.Dynamic? then s.hand
    else if pid in s.procs then s.procs[pid].hand
    else 0
  }

  /** Leaves the hand just after position `j` of `n`, back at the start when that is the end. */
  function MoveHand(cfg: Config, s: State, pid: nat, j: nat, n: nat): (r: State)
    ensures r == s.(hand := r.hand, procs := r.procs) && r.procs.Keys == s.procs.Keys
    ensures forall k :: k in s.procs ==> r.procs[k].pages == s.procs[k].pages
  {
    var next := if j + 1 >= n then 0 else j + 1;
    if cfg.replacement.Lru? then s
    else if cfg.allocation.Dynamic? then s.(hand := next)
    else if pid in s.procs then s.(procs := s.procs[pid := s.procs[pid].(hand := next)])
    else s
  }

  /** The victim chosen on behalf of `pid`, with the use bits and the hand as the choice leaves them. */
  function PickVictim(cfg: Config, s: State, pid: nat): Result<(State, PageId)> {
    var c := Candidates(cfg, s.frames, pid);
    var hand := Hand(cfg, s, pid);
    if hand >= |c| then Fail(NoCandidate)
    else
      var keys := Keys(cfg, s.pages, c);
      var j := Least(keys, hand);
      var end := if cfg.replacement.Lru? then hand else Swept(|c|, hand, j, keys[j]);
      var moved := MoveHand(cfg, s, pid, j, |c|);
      Ok((moved.(pages := ClearUsed(s.pages, c[hand..end])), c[j]))
  }

  // ---------------------------------------------------------------- moving pages

  /** The content of a frame. */
  function Cached(s: State, m: nat): Bytes {
    if m < |s.cache| then s.cache[m] else []
  }

  /** Empties the frame of `q` and marks the page absent; swap is as saving `q` left it. */
  function Release(cfg: Config, s: State, q: PageId, swap: Swamp.State): State {
    var m := At(s.pages, q).frame;
    s.(frames := Put(s.frames, m, Free),
       cache := Put(s.cache, m, Blank(cfg)),
       tlb := Forget(s.tlb, m),
       pages := s.pages[q := At(s.pages, q).(present := false, frame := 0)],
       swap := swap)
  }

  /** The swap state once `q` may be dropped: clean pages are not sent under the clock algorithm. */
  function Saved(cfg: Config, s: State, q: PageId): Result<Swamp.State> {
    if cfg.replacement.MClock? && !At(s.pages, q).modified then Ok(s.swap)
    else
      match Swamp.Write(cfg.swap, s.swap, q, Cached(s, At(s.pages, q).frame))
      case (swap, Stored) => Ok(swap)
      case (_, Refused) => Fail(SwapRefused)
      case (_, Crashed) => Fail(SwapCrash)
  }

  /** Frees one frame for `pid`: picks a victim, saves it if need be, and empties its frame. */
  function Evict(cfg: Config, s: State, pid: nat): Result<(State, nat)> {
    var picked :- PickVictim(cfg, s, pid);
    var (s1, q) := picked;
    var swap :- Saved(cfg, s1, q);
    Ok((Release(cfg, s1, q, swap), At(s1.pages, q).frame))
  }

  /** Puts `p`, with descriptor `page`, into frame `m` with the given content. */
  function Bring(s: State, p: PageId, m: nat, content: Bytes, page: Page, swap: Swamp.State): State {
    s.(frames := Put(s.frames, m, Holds(p)),
       cache := Put(s.cache, m, content),
       pages := s.pages[p := page.(frame := m, present := true)],
       swap := swap)
  }

  /** Brings an absent page back from swap into a frame freed for it. */
  function FaultIn(cfg: Config, s: State, p: PageId): Result<(State, nat)> {
    var evicted :- Evict(cfg, s, p.pid);
    var (s1, m) := evicted;
    match Swamp.Read(s1.swap, p)
    case (swap, Content(bytes)) => Ok((Bring(s1, p, m, bytes, At(s1.pages, p), swap), m))
    case _ => Fail(SwapMissing)
  }

  /** On a TLB miss: finds the frame of `p` in the frame table, or faults it in, and loads the TLB. */
  function Search(cfg: Config, s: State, p: PageId, choice: nat): Result<(State, nat)> {
    var m := FrameOf(s.frames, p);
    var found :- if m < |s.frames| then Ok((s, m)) else FaultIn(cfg, s, p);
    Ok((found.0.(tlb := Load(found.0.tlb, p, found.1, choice)), found.1))
  }

  /** Writes down that `p` is in frame `m`. */
  function Place(pages: map<PageId, Page>, p: PageId, m: nat): map<PageId, Page> {
    pages[p := At(pages, p).(frame := m, present := true)]
  }

  /** Finds the frame of `p` through the TLB, the frame table or swap, and refreshes its descriptor. */
  function Resolve(cfg: Config, s: State, p: PageId, choice: nat): Result<State> {
    var i := First(s.tlb, For(p));
    var found :- if i < |s.tlb| then Ok((s, s.tlb[i].frame)) else Search(cfg, s, p, choice);
    Ok(found.0.(pages := Place(found.0.pages, p, found.1)))
  }

  /** The time stamps spent on one access: the TLB refreshes on a hit draw from the same counter. */
  function Ticks(cfg: Config, s: State, p: PageId): nat {
    if cfg.tlbLru && InTlb(s.tlb, p) then 2 else 0
  }

  /** Marks an access to `p`: its use bit under the clock, its time stamp under LRU. */
  function Touch(cfg: Config, s: State, p: PageId, ticks: nat, write: bool): State {
    var page := At(s.pages, p);
    if cfg.replacement.MClock? then
      s.(clock := s.clock + ticks, pages := s.pages[p := page.(used := true, modified := page.modified || write)])
    else
      s.(clock := s.clock + ticks + 1, pages := s.pages[p := page.(stamp := s.clock + ticks)])
  }

  /** `leer_en_pagina`: nothing is returned when the range leaves the page. */
  function ReadPage(cfg: Config, s: State, p: PageId, offset: nat, size: nat, choice: nat)
    : Result<(State, Option<Bytes>)>
  {
    var s1 :- Resolve(cfg, s, p, choice);
    var content := Cached(s1, At(s1.pages, p).frame);
    Ok((Touch(cfg, s1, p, Ticks(cfg, s, p), false), Slice(content, offset, size)))
  }

  /** A range of bytes, unless it leaves them. */
  function Slice(bytes: Bytes, offset: nat, size: nat): Option<Bytes> {
    if offset + size <= |bytes| then Some(bytes[offset..offset + size]) else None
  }

  lemma SliceReads(bytes: Bytes, offset: nat, size: nat)
    ensures var r := Slice(bytes, offset, size);
            && (r.Some? <==> offset + size <= |bytes|)
            && (r.Some? ==> |r.value| == size && forall k :: 0 <= k < size ==> r.value[k] == bytes[offset + k])
  {
  }

  /** Overwrites a range; a range that leaves `bytes` changes nothing. */
  function Patch(bytes: Bytes, offset: nat, data: Bytes): (r: Bytes)
    ensures |r| == |bytes|
    ensures forall k :: 0 <= k < |bytes| ==>
              r[k] == if offset <= k < offset + |data| <= |bytes| then data[k - offset] else bytes[k]
  {
    if offset + |data| <= |bytes| then bytes[..offset] + data + bytes[offset + |data|..] else bytes
  }

  /** `escribir_en_pagina`: a range that leaves the page changes no byte, but still marks the page. */
  function WritePage(cfg: Config, s: State, p: PageId, offset: nat, data: Bytes, choice: nat): Result<(State, bool)> {
    var s1 :- Resolve(cfg, s, p, choice);
    var m := At(s1.pages, p).frame;
    var s2 := s1.(cache := Put(s1.cache, m, Patch(Cached(s1, m), offset, data)));
    Ok((Touch(cfg, s2, p, Ticks(cfg, s, p), true), offset + |data| <= |Cached(s1, m)|))
  }

  // ---------------------------------------------------------------- processes and their pages

  function Present(pages: map<PageId, Page>): set<PageId> {
    set p | p in pages && pages[p].present
  }

  /** Whether a new page of `pid` may take a free frame. */
  predicate MayTakeFrame(cfg: Config, s: State, pid: nat) {
    && |Present(s.pages)| <= |s.frames|
    && First(s.frames, IsFree()) < |s.frames|
    && (cfg.allocation.Fixed? ==> Count(s.frames, Wanted(cfg, pid)) < cfg.quota)
  }

  function Register(s: State, pid: nat): State {
    if pid in s.procs then s else s.(procs := s.procs[pid := Process(0, 0)])
  }

  function Proc(s: State, pid: nat): Process {
    if pid in s.procs then s.procs[pid] else Process(0, 0)
  }

  /** The state once a new page of `pid` has been put into the free frame `m`. */
  function Created(cfg: Config, s: State, pid: nat, m: nat, choice: nat): State {
    var p := PageId(pid, Proc(s, pid).pages + 1);
    var clocked := cfg.replacement.MClock?;
    Bring(s, p, m, Cached(s, m), Page(m, true, clocked, false, if clocked then 0 else s.clock), s.swap).(
      tlb := Load(s.tlb, p, m, choice),
      procs := s.procs[pid := Proc(s, pid).(pages := p.num)],
      clock := if clocked then s.clock else s.clock + 1)
  }

  /** `create_pagina` */
  function CreatePage(cfg: Config, s: State, pid: nat, choice: nat): Result<State> {
    var room :- if MayTakeFrame(cfg, s, pid) then Ok((s, First(s.frames, IsFree()))) else Evict(cfg, s, pid);
    Ok(Created(cfg, room.0, pid, room.1, choice))
  }

  /**
    `compactar_pagina`, seen from the pager, for a process with one page: the descriptor of the page leaves the
    list of its process.  Nothing is done to its frame, to the TLB or to swap.
   */
  function Orphaned(s: State, pid: nat): State {
    var p := PageId(pid, 1);
    s.(frames := Put(s.frames, At(s.pages, p).frame, Lost(p)),
       pages := s.pages - {p},
       procs := s.procs[pid := Proc(s, pid).(pages := 0)])
  }

  /** The state after `inicializarMemoria`. */
  function Boot(cfg: Config, frames: nat, entries: nat, slots: nat): State {
    State(
      seq(frames, _ => Free), seq(frames, _ => Blank(cfg)), seq(entries, _ => Empty),
      map[], map[], 0, 0, Swamp.Fresh(slots, cfg.pageSize))
  }
}
