/**
  What the bits of M-CLOCK say about the past: a page is marked as used exactly when it has been created, read or
  written after the last sweep that went over it, and as modified exactly when it has ever been written.
 */
module ClockHistory {
  import opened Base
  import Swamp
  import opened Paging
  import opened PagingInvariant
  import opened PagingRun
  import opened PagingTheorems

  // ---------------------------------------------------------------- one request

  /** The request creates, reads or writes page `q`. */
  predicate Touches(s: State, op: Op, q: PageId) {
    match op
    case Register(_) => false
    case Create(pid) => q == PageId(pid, Proc(s, pid).pages + 1)
    case Read(p, _, _) => q == p
    case Write(p, _, _) => q == p
  }

  predicate Writes(op: Op, q: PageId) {
    op.Write? && op.page == q
  }

  /** The request cannot do without a frame of another page. */
  ghost predicate Evicts(cfg: Config, s: State, op: Op) {
    match op
    case Register(_) => false
    case Create(pid) => !HasRoom(cfg, s, pid)
    case Read(p, _, _) => !At(s.pages, p).present
    case Write(p, _, _) => !At(s.pages, p).present
  }

  /** The request evicts a page, and its second sweep goes over `q` on the way. */
  ghost predicate Clears(cfg: Config, s: State, op: Op, q: PageId) {
    var c, hand := Candidates(cfg, s.frames, Asking(op)), Hand(cfg, s, Asking(op));
    Evicts(cfg, s, op) &&
    exists j: nat :: FirstChoice(s.pages, c, hand, j) && SweptOver(c, hand, j, At(s.pages, c[j]), q)
  }

  /** The bits of `q` after the request, from those before it. */
  ghost predicate Marked(cfg: Config, s: State, op: Op, s': State, q: PageId) {
    && (q in s'.pages <==> q in s.pages || Touches(s, op, q))
    && (q in s'.pages ==>
          && (s'.pages[q].used <==> Touches(s, op, q) || (q in s.pages && s.pages[q].used && !Clears(cfg, s, op, q)))
          && (s'.pages[q].modified <==> Writes(op, q) || (q in s.pages && s.pages[q].modified)))
  }

  /** What the choice of a victim on behalf of `pid` does to the bits. */
  ghost predicate BitsSwept(cfg: Config, s: State, pid: nat, s': State) {
    && s'.pages.Keys == s.pages.Keys
    && forall q :: q in s.pages ==>
         && s'.pages[q].modified == s.pages[q].modified
         && (s'.pages[q].used <==> s.pages[q].used && !SweptFor(cfg, s, pid, q))
  }

  ghost predicate SweptFor(cfg: Config, s: State, pid: nat, q: PageId) {
    var c, hand := Candidates(cfg, s.frames, pid), Hand(cfg, s, pid);
    exists j: nat :: FirstChoice(s.pages, c, hand, j) && SweptOver(c, hand, j, At(s.pages, c[j]), q)
  }

  lemma OneFirstChoice(pages: map<PageId, Page>, c: seq<PageId>, hand: nat, i: nat, j: nat)
    requires FirstChoice(pages, c, hand, i) && FirstChoice(pages, c, hand, j)
    ensures i == j
  {
    hide Rather;
    assert !Rather(At(pages, c[i]), At(pages, c[j])) && !Rather(At(pages, c[j]), At(pages, c[i]));
  }

  lemma PickedFirst(cfg: Config, s: State, pid: nat, s': State, q: PageId) returns (j: nat)
    requires cfg.replacement.MClock? && PickVictim(cfg, s, pid) == Ok((s', q))
    ensures var c, hand := Candidates(cfg, s.frames, pid), Hand(cfg, s, pid);
            && FirstChoice(s.pages, c, hand, j)
            && forall p :: p in s.pages && p in s'.pages ==>
                 (s'.pages[p].used <==> s.pages[p].used && !SweptOver(c, hand, j, At(s.pages, c[j]), p))
  {
    hide PickVictim, Candidates, Hand, SweptOver, FirstChoice;
    j := ClockMeetsItsSpecification(cfg, s, pid, s', q);
  }

  lemma {:induction false} SweptForIs(cfg: Config, s: State, pid: nat, j: nat, p: PageId)
    requires FirstChoice(s.pages, Candidates(cfg, s.frames, pid), Hand(cfg, s, pid), j)
    ensures var c, hand := Candidates(cfg, s.frames, pid), Hand(cfg, s, pid);
            SweptFor(cfg, s, pid, p) <==> SweptOver(c, hand, j, At(s.pages, c[j]), p)
  {
    var c, hand := Candidates(cfg, s.frames, pid), Hand(cfg, s, pid);
    hide Candidates, Hand, SweptOver;
    if i: nat :| FirstChoice(s.pages, c, hand, i) && SweptOver(c, hand, i, At(s.pages, c[i]), p) {
      OneFirstChoice(s.pages, c, hand, i, j);
    }
  }

  lemma PickSweeps(cfg: Config, s: State, pid: nat, s': State, q: PageId)
    requires cfg.replacement.MClock? && PickVictim(cfg, s, pid) == Ok((s', q))
    ensures BitsSwept(cfg, s, pid, s')
  {
    hide PickVictim, Candidates, Hand, SweptOver, FirstChoice, SweptFor, IsHeld;
    PickedIsHeld(cfg, s, pid, s', q);
    var j := PickedFirst(cfg, s, pid, s', q);
    forall p | p in s.pages
      ensures s'.pages[p].used <==> s.pages[p].used && !SweptFor(cfg, s, pid, p)
    {
      SweptForIs(cfg, s, pid, j, p);
    }
  }

  /** Emptying the frame of the victim changes no bit. */
  lemma ReleaseBits(cfg: Config, s: State, q: PageId, swap: Swamp.State)
    requires q in s.pages
    ensures var s' := Release(cfg, s, q, swap);
            && s'.pages.Keys == s.pages.Keys
            && forall p :: p in s.pages ==>
                 s'.pages[p].used == s.pages[p].used && s'.pages[p].modified == s.pages[p].modified
  {
  }

  lemma EvictSweeps(cfg: Config, s: State, pid: nat, s': State, m: nat)
    requires cfg.replacement.MClock? && Linked(s) && Evict(cfg, s, pid) == Ok((s', m))
    ensures BitsSwept(cfg, s, pid, s')
  {
    hide Evict, PickVictim, Saved, Release, SweptFor, Linked;
    var s1, q, swap := EvictUnfolds(cfg, s, pid);
    PickSweeps(cfg, s, pid, s1, q);
    assert q in s1.pages by { VictimKnown(cfg, s, pid, s1, q); }
    ReleaseBits(cfg, s1, q, swap);
  }

  lemma VictimKnown(cfg: Config, s: State, pid: nat, s1: State, q: PageId)
    requires Linked(s) && PickVictim(cfg, s, pid) == Ok((s1, q))
    ensures q in s1.pages
  {
    PickedIsHeld(cfg, s, pid, s1, q);
    hide PickVictim;
  }

  lemma FaultSweeps(cfg: Config, s: State, p: PageId, s': State, m: nat)
    requires cfg.replacement.MClock? && Linked(s) && p in s.pages && FaultIn(cfg, s, p) == Ok((s', m))
    ensures BitsSwept(cfg, s, p.pid, s')
  {
    hide Evict, Swamp.Read, SweptFor, Linked;
    EvictSweeps(cfg, s, p.pid, Evict(cfg, s, p.pid).value.0, m);
  }

  lemma PlaceBits(cfg: Config, s: State, p: PageId, s1: State, m: nat, s': State)
    requires BitsSwept(cfg, s, p.pid, s1) && p in s.pages && s'.pages == Place(s1.pages, p, m)
    ensures BitsSwept(cfg, s, p.pid, s')
  {
    hide SweptFor;
  }

  /** The bits once an address has been resolved: those the sweep has left, when the page was absent. */
  lemma ResolveSweeps(cfg: Config, s: State, p: PageId, choice: nat, s': State)
    requires cfg.replacement.MClock? && Core(cfg, s) && p in s.pages && choice < |s.tlb|
    requires Resolve(cfg, s, p, choice) == Ok(s')
    ensures if s.pages[p].present then s'.pages == s.pages else BitsSwept(cfg, s, p.pid, s')
  {
    hide Resolve, Linked, Resident, Sized, SwapAgrees, TlbAgrees, Stamped, BitsSwept;
    if InTlb(s.tlb, p) {
      ResolveHit(cfg, s, p, choice);
    } else if FrameOf(s.frames, p) < |s.frames| {
      ResolveFound(cfg, s, p, choice);
    } else {
      AbsentWhenNotFound(s, p);
      var s1, m := ResolveUnfolds(cfg, s, p, choice, s');
      FaultSweeps(cfg, s, p, s1, m);
      PlaceBits(cfg, s, p, s1, m, s');
    }
  }

  /** An access marks its page as used, a write also as modified. */
  lemma AccessMarks(cfg: Config, s: State, f: Flat, op: Op, choice: nat, s': State, out: Option<Bytes>, q: PageId)
    requires cfg.replacement.MClock? && Sound(cfg, s, f) && Enabled(f, op) && choice < |s.tlb|
    requires (op.Read? || op.Write?) && Step(cfg, s, op, choice) == Ok((s', out))
    ensures Marked(cfg, s, op, s', q)
  {
    hide Core, Refines, Follows, Resolve, Ticks, Slice, Patch, Cached, BitsSwept, Marked;
    RefinesKeys(cfg, s, f.mem);
    var s1 := Resolve(cfg, s, op.page, choice).value;
    ResolveSweeps(cfg, s, op.page, choice, s1);
    assert op.page in s1.pages by { SameKeys(cfg, s, op.page, s1); }
    TouchedMarks(cfg, s, op, s1, s', q);
  }

  lemma SameKeys(cfg: Config, s: State, p: PageId, s1: State)
    requires p in s.pages && if s.pages[p].present then s1.pages == s.pages else BitsSwept(cfg, s, p.pid, s1)
    ensures s1.pages.Keys == s.pages.Keys
  {
    hide SweptFor;
  }

  lemma TouchedMarks(cfg: Config, s: State, op: Op, s1: State, s': State, q: PageId)
    requires (op.Read? || op.Write?) && op.page in s.pages && op.page in s1.pages
    requires if s.pages[op.page].present then s1.pages == s.pages else BitsSwept(cfg, s, op.page.pid, s1)
    requires s'.pages == s1.pages[op.page := s1.pages[op.page].(used := true,
                                  modified := s1.pages[op.page].modified || op.Write?)]
    ensures Marked(cfg, s, op, s', q)
  {
    hide SweptFor, Clears;
    ClearsIs(cfg, s, op, q);
  }

  lemma ClearsIs(cfg: Config, s: State, op: Op, q: PageId)
    ensures Clears(cfg, s, op, q) <==> Evicts(cfg, s, op) && SweptFor(cfg, s, Asking(op), q)
  {
  }

  /** A new page starts as used and not modified, and the others are swept over when it needs a victim. */
  lemma CreateMarks(cfg: Config, s: State, f: Flat, pid: nat, choice: nat, s': State, q: PageId)
    requires cfg.replacement.MClock? && Sound(cfg, s, f) && pid in f.counts
    requires CreatePage(cfg, s, pid, choice) == Ok(s')
    ensures Marked(cfg, s, Create(pid), s', q)
  {
    hide Follows, CreatePage, Evict, MayTakeFrame, HasRoom, SweptFor, Sized, SwapAgrees, TlbAgrees, Stamped, Refines,
      Load;
    var s1, m := CreateUnfolds(cfg, s, pid, choice, s');
    RoomIsTaken(cfg, s, pid);
    ClearsIs(cfg, s, Create(pid), q);
    NewPage(cfg, s, f, pid);
    if !MayTakeFrame(cfg, s, pid) {
      EvictSweeps(cfg, s, pid, s1, m);
      EvictMoves(cfg, s, pid, s1, m);
    }
    hide Clears, Linked, Resident;
  }

  lemma NewPage(cfg: Config, s: State, f: Flat, pid: nat)
    requires Sound(cfg, s, f) && pid in f.counts
    ensures pid in s.procs && PageId(pid, Proc(s, pid).pages + 1) !in s.pages
  {
    hide Core, Follows;
    RefinesKeys(cfg, s, f.mem);
    hide Refines;
  }

  /** After a request the page it was for is used; any other keeps its use bit unless the request swept over it. */
  lemma StepMarks(cfg: Config, s: State, f: Flat, op: Op, choice: nat, s': State, out: Option<Bytes>, q: PageId)
    requires cfg.replacement.MClock? && Sound(cfg, s, f) && Enabled(f, op) && choice < |s.tlb|
    requires Step(cfg, s, op, choice) == Ok((s', out))
    ensures Marked(cfg, s, op, s', q)
  {
    hide Sound, Marked, CreatePage, ReadPage, WritePage;
    match op
    case Register(_) => RegisterMarks(cfg, s, op, s', q);
    case Create(pid) => CreateMarks(cfg, s, f, pid, choice, s', q);
    case Read(_, _, _) => AccessMarks(cfg, s, f, op, choice, s', out, q);
    case Write(_, _, _) => AccessMarks(cfg, s, f, op, choice, s', out, q);
  }

  lemma RegisterMarks(cfg: Config, s: State, op: Op, s': State, q: PageId)
    requires op.Register? && s'.pages == s.pages
    ensures Marked(cfg, s, op, s', q)
  {
  }

  // ---------------------------------------------------------------- whole runs

  /** The state before request number `i` of a run. */
  function StateAt(cfg: Config, s: State, run: seq<Request>, i: nat): State
    decreases i
  {
    if i == 0 || |run| == 0 then s
    else
      match Step(cfg, s, run[0].op, run[0].choice)
      case Ok(next) => StateAt(cfg, next.0, run[1..], i - 1)
      case Fail(_) => s
  }

  /** No request from number `i` on sweeps over `q`. */
  ghost predicate NotCleared(cfg: Config, s: State, run: seq<Request>, q: PageId, i: nat) {
    forall j :: i <= j < |run| ==> !Clears(cfg, StateAt(cfg, s, run, j), run[j].op, q)
  }

  /** Some request creates, reads or writes `q`, and none after it sweeps over it. */
  ghost predicate UsedLast(cfg: Config, s: State, run: seq<Request>, q: PageId) {
    exists i :: 0 <= i < |run| && UsedAt(cfg, s, run, q, i)
  }

  ghost predicate UsedAt(cfg: Config, s: State, run: seq<Request>, q: PageId, i: nat) {
    i < |run| && Touches(StateAt(cfg, s, run, i), run[i].op, q) && NotCleared(cfg, s, run, q, i + 1)
  }

  ghost predicate EverWritten(run: seq<Request>, q: PageId) {
    exists i :: 0 <= i < |run| && Writes(run[i].op, q)
  }

  lemma {:induction false} OneStepOn(cfg: Config, s: State, run: seq<Request>, s1: State, q: PageId)
    requires |run| > 0 && Step(cfg, s, run[0].op, run[0].choice).Ok?
    requires Step(cfg, s, run[0].op, run[0].choice).value.0 == s1
    ensures forall i: nat :: NotCleared(cfg, s, run, q, i + 1) <==> NotCleared(cfg, s1, run[1..], q, i)
    ensures UsedLast(cfg, s, run, q) <==> UsedAt(cfg, s, run, q, 0) || UsedLast(cfg, s1, run[1..], q)
    ensures EverWritten(run, q) <==> Writes(run[0].op, q) || EverWritten(run[1..], q)
  {
    hide Step, Clears, Touches, Writes;
    forall i: nat
      ensures StateAt(cfg, s, run, i + 1) == StateAt(cfg, s1, run[1..], i)
    {
    }
    hide StateAt;
    forall i: nat
      ensures NotCleared(cfg, s, run, q, i + 1) <==> NotCleared(cfg, s1, run[1..], q, i)
    {
      ShiftedBack(cfg, s, run, s1, q, i);
    }
    hide NotCleared;
    forall i: nat
      ensures UsedAt(cfg, s, run, q, i + 1) <==> UsedAt(cfg, s1, run[1..], q, i)
    {
    }
    hide UsedAt;
    if i: nat :| i < |run| && UsedAt(cfg, s, run, q, i) {
      assert i > 0 ==> UsedAt(cfg, s1, run[1..], q, i - 1);
    }
    if i: nat :| i < |run| - 1 && UsedAt(cfg, s1, run[1..], q, i) {
      assert UsedAt(cfg, s, run, q, i + 1);
    }
    if i: nat :| i < |run| && Writes(run[i].op, q) {
      assert i > 0 ==> Writes(run[1..][i - 1].op, q);
    }
    if i: nat :| i < |run| - 1 && Writes(run[1..][i].op, q) {
      assert Writes(run[i + 1].op, q);
    }
  }

  lemma FirstOfRun(cfg: Config, s: State, run: seq<Request>, q: PageId)
    requires |run| > 0
    ensures NotCleared(cfg, s, run, q, 0) <==> !Clears(cfg, s, run[0].op, q) && NotCleared(cfg, s, run, q, 1)
    ensures UsedAt(cfg, s, run, q, 0) <==> Touches(s, run[0].op, q) && NotCleared(cfg, s, run, q, 1)
  {
    hide Clears, Touches;
    assert StateAt(cfg, s, run, 0) == s;
  }

  lemma ShiftedBack(cfg: Config, s: State, run: seq<Request>, s1: State, q: PageId, i: nat)
    requires |run| > 0 && forall j: nat :: StateAt(cfg, s, run, j + 1) == StateAt(cfg, s1, run[1..], j)
    ensures NotCleared(cfg, s, run, q, i + 1) <==> NotCleared(cfg, s1, run[1..], q, i)
  {
    hide Clears, StateAt;
    if NotCleared(cfg, s, run, q, i + 1) {
      forall j | i <= j < |run| - 1
        ensures !Clears(cfg, StateAt(cfg, s1, run[1..], j), run[1..][j].op, q)
      {
        assert !Clears(cfg, StateAt(cfg, s, run, j + 1), run[j + 1].op, q);
      }
    }
    if NotCleared(cfg, s1, run[1..], q, i) {
      forall j | i + 1 <= j < |run|
        ensures !Clears(cfg, StateAt(cfg, s, run, j), run[j].op, q)
      {
        assert !Clears(cfg, StateAt(cfg, s1, run[1..], j - 1), run[1..][j - 1].op, q);
      }
    }
  }

  /**
    Page `q` is marked as used exactly when it has been created, read or written in the run after the last sweep over
    it, and as modified exactly when it has been written; the bits it had before count as long as nothing did either.
   */
  ghost predicate TellThePast(cfg: Config, s: State, run: seq<Request>, s': State, q: PageId) {
    q in s'.pages ==>
      && (s'.pages[q].used <==>
            UsedLast(cfg, s, run, q) || (q in s.pages && s.pages[q].used && NotCleared(cfg, s, run, q, 0)))
      && (s'.pages[q].modified <==> EverWritten(run, q) || (q in s.pages && s.pages[q].modified))
  }

  lemma OneMoreTells(cfg: Config, s: State, run: seq<Request>, s1: State, s': State, q: PageId)
    requires |run| > 0 && Step(cfg, s, run[0].op, run[0].choice).Ok?
    requires Step(cfg, s, run[0].op, run[0].choice).value.0 == s1
    requires Marked(cfg, s, run[0].op, s1, q) && TellThePast(cfg, s1, run[1..], s', q)
    ensures TellThePast(cfg, s, run, s', q)
  {
    hide Step, UsedLast, EverWritten, NotCleared, Clears, UsedAt;
    OneStepOn(cfg, s, run, s1, q);
    assert NotCleared(cfg, s, run, q, 0 + 1) <==> NotCleared(cfg, s1, run[1..], q, 0);
    FirstOfRun(cfg, s, run, q);
  }

  lemma NothingTells(cfg: Config, s: State, run: seq<Request>, q: PageId)
    requires |run| == 0
    ensures TellThePast(cfg, s, run, s, q)
  {
    hide Clears, Touches, Writes;
  }

  /** Over every run of M-CLOCK the bits tell the past. */
  lemma {:induction false} BitsTellThePast(cfg: Config, s: State, f: Flat, run: seq<Request>, s': State,
      outs: seq<Option<Bytes>>, q: PageId)
    requires cfg.replacement.MClock? && Simulates(cfg, s, f) && AllEnabled(cfg, f, run)
    requires forall i :: 0 <= i < |run| ==> run[i].choice < |s.tlb|
    requires Run(cfg, s, run) == Ok((s', outs))
    ensures TellThePast(cfg, s, run, s', q)
    decreases |run|
  {
    if |run| == 0 {
      NothingTells(cfg, s, run, q);
    } else {
      hide Simulates, Step, FlatStep, Enabled, TellThePast, Marked;
      var op, choice := run[0].op, run[0].choice;
      var (s1, out) := Step(cfg, s, op, choice).value;
      StepKeeps(cfg, s, f, op, choice, s1, out);
      StepMarks(cfg, s, f, op, choice, s1, out, q) by { SimulatesIsSound(cfg, s, f); }
      var rest := Run(cfg, s1, run[1..]).value;
      BitsTellThePast(cfg, s1, FlatStep(cfg, f, op).0, run[1..], rest.0, rest.1, q);
      OneMoreTells(cfg, s, run, s1, s', q);
    }
  }

  /** From the moment the server starts, with nothing before. */
  lemma {:induction false} BitsTellTheWholePast(cfg: Config, frames: nat, entries: nat, slots: nat, run: seq<Request>,
      s': State, outs: seq<Option<Bytes>>, q: PageId)
    requires cfg.replacement.MClock? && frames >= 1 && entries >= 1 && AllEnabled(cfg, Flat(map[], map[], []), run)
    requires forall i :: 0 <= i < |run| ==> run[i].choice < entries
    requires Run(cfg, Boot(cfg, frames, entries, slots), run) == Ok((s', outs)) && q in s'.pages
    ensures s'.pages[q].used <==> UsedLast(cfg, Boot(cfg, frames, entries, slots), run, q)
    ensures s'.pages[q].modified <==> EverWritten(run, q)
  {
    hide Simulates, Run, AllEnabled, UsedLast, EverWritten, NotCleared;
    BootSimulates(cfg, frames, entries, slots);
    BitsTellThePast(cfg, Boot(cfg, frames, entries, slots), Flat(map[], map[], []), run, s', outs, q);
  }

  lemma SimulatesIsSound(cfg: Config, s: State, f: Flat)
    requires Simulates(cfg, s, f)
    ensures Sound(cfg, s, f)
  {
  }
}
