/** Whole runs of requests by any processes, and what they leave of the bytes of a block. */
module ServiceRuns {
  import opened Base
  import opened Allocator
  import opened AllocatorTheorems
  import opened Transfer
  import opened Service
  import opened ServiceTheorems

  type System = map<nat, Image>

  datatype Request =
    | Malloc(size: nat, answer: int)
    | Release(pos: nat)
    | Store(pos: nat, data: Bytes)
    | Load(pos: nat, buffer: Bytes)

  datatype Call = Call(pid: nat, request: Request)

  /** One request of one process; the server has one image for each process it knows. */
  function Serve(cfg: Config, sys: System, call: Call): (System, Reply)
    requires cfg.Valid()
  {
    var pid := call.pid;
    if pid !in sys then
      match call.request
      case Malloc(size, answer) =>
        var (img, reply) := Service.MemallocFirst(cfg, size, answer);
        (if reply == OutOfSpace then sys else sys[pid := img], reply)
      case _ => (sys, Invalid)
    else
      var (img, reply) := ServeOne(cfg, sys[pid], call.request);
      (sys[pid := img], reply)
  }

  function ServeOne(cfg: Config, img: Image, request: Request): (Image, Reply)
    requires cfg.Valid()
  {
    match request
    case Malloc(size, answer) => Service.Memalloc(cfg, img, size, answer)
    case Release(pos) => Service.Memfree(cfg, img, pos)
    case Store(pos, data) => Memwrite(cfg, img, pos, data)
    case Load(pos, buffer) => (img, if Memread(cfg, img, pos, buffer).Some? then Done else Invalid)
  }

  /** The call is a release that ends with the compaction of its process. */
  predicate StartsCompaction(cfg: Config, sys: System, call: Call)
    requires cfg.Valid()
  {
    && call.pid in sys && call.request.Release?
    && var (img, reply) := ServeOne(cfg, sys[call.pid], call.request); reply == Done && Compacts(cfg, img.heap)
  }

  /**
    The call leaves its process with a list, or with pages, that are no longer what the requests after it
    would take them for: it misplaces a remainder, or starts a compaction.
   */
  predicate Spoils(cfg: Config, sys: System, call: Call)
    requires cfg.Valid()
  {
    || StartsCompaction(cfg, sys, call)
    || (call.pid in sys && call.request.Malloc?
        && CheckAlloc(cfg, sys[call.pid].heap, call.request.size, call.request.answer).InFree?
        && Misplaces(cfg, sys[call.pid].heap.blocks, call.request.size))
  }

  /** The call neither kills the server nor spoils its process. */
  predicate Calm(cfg: Config, sys: System, call: Call)
    requires cfg.Valid()
  {
    Serve(cfg, sys, call).1 != Crash && !Spoils(cfg, sys, call)
  }

  /**
    No call kills the server, and none spoils `pid`.  The list of another process may be misordered and, under
    quotas, its pages may be compacted; those that are spoilt, `spoilt` and the ones that join them, make no further
    call.  With a common pool nobody is compacted: what that costs the others is worked out for the pager.
   */
  predicate AllCalm(cfg: Config, sys: System, pid: nat, spoilt: set<nat>, run: seq<Call>)
    requires cfg.Valid()
    decreases |run|
  {
    |run| > 0 ==>
      && run[0].pid !in spoilt && Serve(cfg, sys, run[0]).1 != Crash
      && (run[0].pid == pid ==> !Spoils(cfg, sys, run[0]))
      && (cfg.allocation.Dynamic? ==> !StartsCompaction(cfg, sys, run[0]))
      && AllCalm(cfg, Serve(cfg, sys, run[0]).0, pid, spoilt + (if Spoils(cfg, sys, run[0]) then {run[0].pid} else {}),
                 run[1..])
  }

  function Final(cfg: Config, sys: System, run: seq<Call>): System
    requires cfg.Valid()
    decreases |run|
  {
    if |run| == 0 then sys else Final(cfg, Serve(cfg, sys, run[0]).0, run[1..])
  }

  /** The call is not about block `b` of process `pid`: it neither frees it nor writes into it. */
  predicate Elsewhere(call: Call, pid: nat, b: Block) {
    call.pid != pid ||
      match call.request
      case Release(pos) => pos != b.Data()
      case Store(pos, _) => !(b.Data() <= pos < b.End())
      case _ => true
  }

  lemma ServeOneKeeps(cfg: Config, sys: System, call: Call)
    requires cfg.Valid() && call.pid in sys && Intact(cfg, sys[call.pid]) && Calm(cfg, sys, call)
    ensures var after := ServeOne(cfg, sys[call.pid], call.request).0;
            && Intact(cfg, after)
            && forall b :: b in sys[call.pid].heap.blocks && !b.free && Elsewhere(call, call.pid, b) ==>
                 Spares(sys[call.pid], after, b)
  {
    hide Intact, Spares, Memwrite, Memread, Service.Memalloc, Service.Memfree, Misplaces, Compacts;
    var img := sys[call.pid];
    match call.request
    case Malloc(size, answer) => MemallocKeeps(cfg, img, size, answer);
    case Release(pos) => MemfreeKeeps(cfg, img, pos);
    case Store(pos, data) =>
      MemwriteKeeps(cfg, img, pos, data);
      SparesItself(img);
    case Load(pos, buffer) => SparesItself(img);
  }

  lemma SparesItself(img: Image)
    ensures forall b :: b in img.heap.blocks ==> Spares(img, img, b)
  {
  }

  /** Whatever a process that has never been granted anything asks for, but a first allocation, is refused. */
  lemma UnknownIsRefused(cfg: Config, sys: System, call: Call)
    requires cfg.Valid() && call.pid !in sys && !call.request.Malloc?
    ensures Serve(cfg, sys, call) == (sys, Invalid)
  {
  }

  /** The call is a first allocation that the swap server has not answered with 0. */
  predicate Joins(sys: System, call: Call) {
    call.pid !in sys && call.request.Malloc? && call.request.answer != 0
  }

  /**
    Who is known after a call and what it is told: a process joins with its first allocation, nobody
    leaves, the image of nobody else changes, and reading changes nothing and succeeds exactly inside one block.
   */
  lemma ServeIsExact(cfg: Config, sys: System, call: Call)
    requires cfg.Valid() && (call.pid in sys ==> Intact(cfg, sys[call.pid]))
    ensures var (after, reply) := Serve(cfg, sys, call);
            && (after.Keys == sys.Keys + if Joins(sys, call) then {call.pid} else {})
            && (forall p :: p in sys && p != call.pid ==> p in after && after[p] == sys[p])
            && (Joins(sys, call) ==> after[call.pid].heap.blocks == [Block(0, call.request.size, false)])
            && (call.pid !in sys && call.request.Malloc? ==>
                  reply == if call.request.answer == 0 then OutOfSpace
                           else if call.request.size == 0 then Crash else Granted(HEADER))
            && (call.pid in sys && call.request.Load? ==>
                  && after == sys
                  && var pos, n := call.request.pos, |call.request.buffer|;
                  reply == if n == 0 || InOneBlock(sys[call.pid].heap.blocks, pos, n) then Done else Invalid)
  {
    hide Intact, Service.Memalloc, Service.MemallocFirst, Service.Memfree, Memwrite, Memread, InOneBlock;
    match call.request
    case Malloc(size, answer) =>
      FirstGrant(cfg, size, answer);
    case Load(pos, buffer) =>
      if call.pid in sys && |buffer| >= 1 {
        MemreadReturns(cfg, sys[call.pid], pos, buffer);
      } else if call.pid in sys {
        EmptyReadIsTaken(cfg, sys[call.pid], pos, buffer);
      }
    case _ =>
  }

  lemma FirstGrant(cfg: Config, size: nat, answer: int)
    requires cfg.Valid()
    ensures var (after, reply) := Service.MemallocFirst(cfg, size, answer);
            if answer == 0 then reply == OutOfSpace
            else
              && reply == (if size == 0 then Crash else Granted(HEADER))
              && after.heap.blocks == [Block(0, size, false)]
  {
    hide Sealed, Grow, Allocator.MemallocFirst;
    MemallocFirstIsExact(cfg, size, answer);
    GrowSetsHeap(cfg, Image(Heap([], 0), []), Allocator.MemallocFirst(cfg, size, answer).0);
  }

  lemma GrowSetsHeap(cfg: Config, img: Image, h: Heap)
    ensures Grow(cfg, img, h).heap == h
  {
  }

  lemma EmptyReadIsTaken(cfg: Config, img: Image, pos: nat, buffer: Bytes)
    requires cfg.Valid() && |buffer| == 0
    ensures Memread(cfg, img, pos, buffer).Some?
  {
  }

  /**
    One call keeps the image of a process intact and spares every block of it in use that it is not about.
    Of the calls of other processes nothing is asked.
   */
  lemma ServeKeeps(cfg: Config, sys: System, call: Call, pid: nat)
    requires cfg.Valid() && pid in sys && Intact(cfg, sys[pid]) && (call.pid == pid ==> Calm(cfg, sys, call))
    ensures var after := Serve(cfg, sys, call).0;
            && pid in after && Intact(cfg, after[pid])
            && forall b :: b in sys[pid].heap.blocks && !b.free && Elsewhere(call, pid, b) ==>
                 Spares(sys[pid], after[pid], b)
  {
    hide Intact, Spares, ServeOne, Service.MemallocFirst, Calm, Elsewhere;
    SparesItself(sys[pid]);
    if call.pid == pid {
      ServeOneKeeps(cfg, sys, call);
    }
  }

  /** The call with which a process appears leaves it intact. */
  lemma ServeStarts(cfg: Config, sys: System, call: Call, pid: nat)
    requires cfg.Valid() && pid !in sys && Serve(cfg, sys, call).1 != Crash && pid in Serve(cfg, sys, call).0
    ensures Intact(cfg, Serve(cfg, sys, call).0[pid])
  {
    hide Intact, ServeOne, Service.MemallocFirst;
    if call.pid == pid && call.request.Malloc? {
      MemallocFirstKeeps(cfg, call.request.size, call.request.answer);
    }
  }

  lemma SparesOn(cfg: Config, a: Image, b: Image, c: Image, block: Block)
    requires Intact(cfg, a) && block in a.heap.blocks && Spares(a, b, block) && Spares(b, c, block)
    ensures Spares(a, c, block)
  {
  }

  /**
    Over a whole run of requests by any processes, a block in use keeps its place and all its bytes as
    long as nobody frees it or writes into it, even while, under quotas, other processes are compacted.
   */
  lemma {:induction false} RunSpares(cfg: Config, sys: System, spoilt: set<nat>, run: seq<Call>, pid: nat, b: Block)
    requires cfg.Valid() && pid in sys && Intact(cfg, sys[pid]) && AllCalm(cfg, sys, pid, spoilt, run)
    requires b in sys[pid].heap.blocks && !b.free
    requires forall i :: 0 <= i < |run| ==> Elsewhere(run[i], pid, b)
    ensures var after := Final(cfg, sys, run);
            pid in after && Intact(cfg, after[pid]) && Spares(sys[pid], after[pid], b)
    decreases |run|
  {
    hide Intact, Serve, Spoils, Elsewhere;
    if |run| > 0 {
      var next := Serve(cfg, sys, run[0]).0;
      ServeKeeps(cfg, sys, run[0], pid);
      RunSpares(cfg, next, spoilt + (if Spoils(cfg, sys, run[0]) then {run[0].pid} else {}), run[1..], pid, b);
      SparesOn(cfg, sys[pid], next[pid], Final(cfg, sys, run)[pid], b);
    } else {
      SparesItself(sys[pid]);
    }
  }

  lemma {:induction false} RunAppends(cfg: Config, sys: System, pid: nat, spoilt: set<nat>, call: Call, run: seq<Call>)
    requires cfg.Valid() && AllCalm(cfg, sys, pid, spoilt, [call] + run) && call.pid == pid
    ensures Calm(cfg, sys, call) && AllCalm(cfg, Serve(cfg, sys, call).0, pid, spoilt, run)
    ensures Final(cfg, sys, [call] + run) == Final(cfg, Serve(cfg, sys, call).0, run)
  {
    assert ([call] + run)[1..] == run;
    assert spoilt + {} == spoilt;
  }

  /**
    End to end: what a successful write of at most two pages puts into a block in use, a later read of the
    same range returns, whatever has been asked for in between, as long as nobody has freed that block or
    written into it and, with a common pool, nobody has been compacted.
   */
  lemma {:induction false} WriteIsRemembered(cfg: Config, sys: System, spoilt: set<nat>, pid: nat, pos: nat,
      data: Bytes, run: seq<Call>, b: Block, buffer: Bytes)
    requires cfg.Valid() && pid in sys && Intact(cfg, sys[pid])
    requires AllCalm(cfg, sys, pid, spoilt, [Call(pid, Store(pos, data))] + run)
    requires b in sys[pid].heap.blocks && !b.free
    requires |data| >= 1 && b.Data() <= pos && pos + |data| <= b.End() && Short(pos, |data|, cfg.pageSize)
    requires forall i :: 0 <= i < |run| ==> Elsewhere(run[i], pid, b)
    requires |buffer| == |data|
    ensures var after := Final(cfg, sys, [Call(pid, Store(pos, data))] + run);
            && pid in after
            && Memread(cfg, after[pid], pos, buffer) == Some(data)
  {
    hide Intact, Serve, Calm, Elsewhere, Memwrite, Memread, Short, Mixed, AllCalm, Final;
    var call := Call(pid, Store(pos, data));
    RunAppends(cfg, sys, pid, spoilt, call, run);
    var next := Serve(cfg, sys, call).0;
    StoreWrites(cfg, sys, pid, pos, data, b);
    ServeKeeps(cfg, sys, call, pid);
    RunSpares(cfg, next, spoilt, run, pid, b);
    var after := Final(cfg, next, run)[pid];
    SparesRange(cfg, next[pid], after, b, pos, data);
    MemreadReturns(cfg, after, pos, buffer);
  }

  lemma StoreWrites(cfg: Config, sys: System, pid: nat, pos: nat, data: Bytes, b: Block)
    requires cfg.Valid() && pid in sys && Intact(cfg, sys[pid]) && b in sys[pid].heap.blocks
    requires |data| >= 1 && b.Data() <= pos && pos + |data| <= b.End() && Short(pos, |data|, cfg.pageSize)
    ensures var next := Serve(cfg, sys, Call(pid, Store(pos, data))).0;
            && pid in next && next[pid].heap == sys[pid].heap
            && Part(next[pid].space, pos, |data|) == data && pos + |data| <= |next[pid].space|
  {
    hide Intact, Memwrite, Short, Mixed;
    MemwriteKeeps(cfg, sys[pid], pos, data);
    ShortIsExact(pos, data, cfg.pageSize);
  }

  lemma SparesRange(cfg: Config, img: Image, after: Image, b: Block, pos: nat, data: Bytes)
    requires Spares(img, after, b) && b.Data() <= pos && pos + |data| <= b.End()
    requires Part(img.space, pos, |data|) == data && pos + |data| <= |img.space|
    ensures Part(after.space, pos, |data|) == data && InOneBlock(after.heap.blocks, pos, |data|)
  {
    forall k | 0 <= k < |data|
      ensures after.space[pos + k] == data[k]
    {
      assert Part(img.space, pos, |data|)[k] == img.space[pos + k];
    }
  }

  lemma {:induction false} RunIntact(cfg: Config, sys: System, pid: nat, spoilt: set<nat>, run: seq<Call>)
    requires cfg.Valid() && AllCalm(cfg, sys, pid, spoilt, run) && (pid in sys ==> Intact(cfg, sys[pid]))
    ensures var after := Final(cfg, sys, run); pid in after ==> Intact(cfg, after[pid])
    decreases |run|
  {
    hide Intact, Serve, Spoils;
    if |run| > 0 {
      var next := Serve(cfg, sys, run[0]).0;
      if pid in sys {
        ServeKeeps(cfg, sys, run[0], pid);
      } else if pid in next {
        ServeStarts(cfg, sys, run[0], pid);
      }
      RunIntact(cfg, next, pid, spoilt + (if Spoils(cfg, sys, run[0]) then {run[0].pid} else {}), run[1..]);
    }
  }

  /**
    In every state reached from the start the blocks of a process that has not been spoilt tile its pages, no
    two free ones are neighbours, and, on pages of at least eight bytes, the last byte of every stored header
    is the flag of its block.
   */
  lemma {:induction false} StoredFlagsAgree(cfg: Config, run: seq<Call>, pid: nat, b: Block)
    requires cfg.Valid() && AllCalm(cfg, map[], pid, {}, run)
    requires pid in Final(cfg, map[], run) && b in Final(cfg, map[], run)[pid].heap.blocks
    ensures var img := Final(cfg, map[], run)[pid];
            && Inv(cfg, img.heap) && |img.space| == img.heap.pages * cfg.pageSize
            && (cfg.pageSize >= 8 ==> Flagged(img.space, b))
  {
    hide Serve, AllCalm, Final;
    RunIntact(cfg, map[], pid, {}, run);
  }
}
