/**
  The scheduler threads of the kernel as a machine.  A step is what one thread does between two points
  where another thread may run: a semaphore operation or one change of one queue.  Lists are read and
  changed by several threads without a common lock, so where the source removes the entry it has just
  found, the step removes any entry, and a search may pass over an entry that moves.
 */
module Kernel {
  import opened Base

  /** `planificadorLargoPlazo` */
  datatype Long =
    | Idle           // before sem_wait(procesoNuevo)
    | Awake          // before the two tests
    | Waiting        // before sem_wait(puedeEntrarAlSistema)
    | Allowed        // holds one permission, before queue_pop(processNew)
    | Moving(pid: nat)
    | Added          // before sem_post(cantidadCarpinchosEnReady)
    | Posted         // before the test of READY and of the use bit

  /** `planificarPorSJFSinDesalojo` */
  datatype Short =
    | Resting        // before sem_wait(cantidadCarpinchosEnReady)
    | Called         // before sem_wait(planificar)
    | Choosing       // about to look at READY

  /** `planificadorMedianoPlazo` */
  datatype Medium =
    | Sleeping       // before sem_wait(planifMedianoPlazo)
    | Woken          // before the test
    | Carrying(pid: nat)
    | Locking(pid: nat) // owns m_colaSuspendedBlocked
    | Stuck          // waiting for m_colaSuspendedBlocked, which it owns

  /** `finalizarProceso` */
  datatype Finisher = Calm | Roused | Retiring(pid: nat)

  /** An entry of processBlocked: a process that waits for IO or for a semaphore. */
  datatype Sleeper = Sleeper(pid: nat, io: bool)

  /** Lists of PIDs, values of semaphores, positions of threads, and, last, what has happened so far. */
  datatype State = State(
    newcomers: seq<nat>,   // processNew
    ready: seq<nat>,       // processReady
    running: seq<nat>,     // chosen, and not yet handed over to another list
    asking: seq<nat>,      // an IO request queued, not yet in processBlocked
    blocked: seq<Sleeper>, // processBlocked
    waking: seq<nat>,      // out of processBlocked, not yet in processReady
    leaving: seq<nat>,     // processExit
    suspended: seq<nat>,   // processSuspendedBlocked
    resumable: seq<nat>,   // processSuspendedReady
    io: seq<nat>,          // colaIO
    unposted: nat,         // added to READY by an unblocking thread that has not posted yet
    arrival: nat,          // procesoNuevo
    entry: nat,            // puedeEntrarAlSistema
    queued: nat,           // cantidadCarpinchosEnReady
    plan: nat,             // planificar
    medium: nat,           // planifMedianoPlazo
    exits: nat,            // semFinalizarProceso
    long: Long,
    short: Short,
    swapper: Medium,
    finisher: Finisher,
    arrived: seq<nat>,     // every process that has come in, in order
    admitted: seq<nat>,    // every process that has been admitted, in order
    gone: seq<nat>,        // finished, or terminated by the deadlock detector
    killed: nat,           // how many the detector has terminated
    leaked: nat,           // tokens of READY thrown away, and processes put into READY without one
    orphaned: seq<nat>,    // processes whose IO request was served without waking them from it
    stolen: seq<nat>)      // processes taken from their wait for IO by anything but their own request

  datatype Arriving = Arrive(pid: nat) | Announce

  datatype LongMove = LongWake | LongTest | LongEnter | LongPop | LongAdd | LongPost | LongKick(kick: bool)

  datatype ShortMove = ShortWake | ShortPlan | ShortPick(i: nat) | ShortSkip

  datatype CpuMove = WaitSemaphore(i: nat) | AskIo(i: nat) | Park(i: nat) | Exit(i: nat) | AnnounceExit | FreeCpu

  datatype WakerMove = Unblock(i: nat) | Requeue(i: nat) | PostReady | UnblockSuspended(i: nat)

  datatype MediumMove = MediumWake | MediumTest | MediumLock | MediumAdd

  datatype FinishMove = FinishWake | FinishPop | FinishPost

  datatype DetectorMove = Kill(i: nat) | Revive(i: nat)

  datatype Step =
    | MainThread(a: Arriving)
    | LongTerm(l: LongMove)
    | ShortTerm(m: ShortMove)
    | Cpu(c: CpuMove)
    | Device(found: Option<nat>)
    | Waker(w: WakerMove)
    | MediumTerm(d: MediumMove)
    | Ending(f: FinishMove)
    | Detector(k: DetectorMove)

  /** How often an entry is in a list. */
  function Times<T(==)>(list: seq<T>, x: T): nat {
    multiset(list)[x]
  }

  function Held(b: bool): nat {
    if b then 1 else 0
  }

  function Without<T(==,!new)>(list: seq<T>, i: nat): (r: seq<T>)
    ensures i < |list| ==> |r| == |list| - 1 && forall x :: Times(list, x) == Times(r, x) + Held(list[i] == x)
    ensures i >= |list| ==> r == list
  {
    if i < |list| then
      assert list == list[..i] + [list[i]] + list[i + 1..];
      list[..i] + list[i + 1..]
    else list
  }

  function With<T(==,!new)>(list: seq<T>, x: T): (r: seq<T>)
    ensures |r| == |list| + 1 && forall y :: Times(r, y) == Times(list, y) + Held(x == y)
  {
    list + [x]
  }

  /** The list of stolen processes once entry `e` has been taken by a thread it was not waiting for. */
  function Stolen(s: State, e: Sleeper): seq<nat> {
    if e.io then With(s.stolen, e.pid) else s.stolen
  }

  function Boot(degree: nat): State {
    State(
      [], [], [], [], [], [], [], [], [], [], 0, 0, degree, 0, 1, 0, 0, Idle, Resting, Sleeping, Calm,
      [], [], [], 0, 0, [], [])
  }

  /** The thread has `m_colaSuspendedBlocked`. */
  predicate OwnsSuspended(m: Medium) {
    m.Locking? || m.Stuck?
  }

  /** The main thread: `queue_push(processNew)`, then `sem_post(procesoNuevo)` */
  function NextMain(s: State, move: Arriving): Option<State> {
    match move
    case Arrive(pid) => Some(s.(newcomers := With(s.newcomers, pid), arrived := With(s.arrived, pid)))
    case Announce => Some(s.(arrival := s.arrival + 1))
  }

  /** `planificadorLargoPlazo`; whether it posts `planificar` depends on a bit that other threads flip */
  function NextLong(s: State, move: LongMove): Option<State> {
    match move
    case LongWake => if s.long.Idle? && s.arrival > 0 then Some(s.(arrival := s.arrival - 1, long := Awake)) else None
    case LongTest =>
      var admits := |s.newcomers| > 0 && |s.resumable| == 0;
      if s.long.Awake? then Some(s.(long := if admits then Waiting else Idle)) else None
    case LongEnter => if s.long.Waiting? && s.entry > 0 then Some(s.(entry := s.entry - 1, long := Allowed)) else None
    case LongPop =>
      if s.long.Allowed? && |s.newcomers| > 0 then
        Some(s.(newcomers := Without(s.newcomers, 0), long := Moving(s.newcomers[0]),
            admitted := With(s.admitted, s.newcomers[0])))
      else None
    case LongAdd => if s.long.Moving? then Some(s.(ready := With(s.ready, s.long.pid), long := Added)) else None
    case LongPost => if s.long.Added? then Some(s.(queued := s.queued + 1, long := Posted)) else None
    case LongKick(kick) =>
      if s.long.Posted? then Some(s.(plan := if kick then s.plan + 1 else s.plan, long := Idle)) else None
  }

  /** `planificarPorSJFSinDesalojo`; `planificacion` is written by every thread, so both branches are possible */
  function NextShort(s: State, move: ShortMove): Option<State> {
    match move
    case ShortWake =>
      if s.short.Resting? && s.queued > 0 then Some(s.(queued := s.queued - 1, short := Called)) else None
    case ShortPlan => if s.short.Called? && s.plan > 0 then Some(s.(plan := s.plan - 1, short := Choosing)) else None
    case ShortPick(i) =>
      if s.short.Choosing? && i < |s.ready| then
        Some(s.(ready := Without(s.ready, i), running := With(s.running, s.ready[i]), short := Resting))
      else None
    case ShortSkip => if s.short.Choosing? then Some(s.(short := Resting, leaked := s.leaked + 1)) else None
  }

  /** `ejecutarCarpincho`: IO is requested before the process is put into BLOCKED */
  function NextCpu(s: State, move: CpuMove): Option<State> {
    match move
    case WaitSemaphore(i) =>
      if i < |s.running| then
        Some(s.(running := Without(s.running, i), blocked := With(s.blocked, Sleeper(s.running[i], false))))
      else None
    case AskIo(i) =>
      if i < |s.running| then
        Some(s.(running := Without(s.running, i), asking := With(s.asking, s.running[i]),
            io := With(s.io, s.running[i])))
      else None
    case Park(i) =>
      if i < |s.asking| then
        Some(s.(asking := Without(s.asking, i), blocked := With(s.blocked, Sleeper(s.asking[i], true))))
      else None
    case Exit(i) =>
      if i < |s.running| then
        Some(s.(running := Without(s.running, i), leaving := With(s.leaving, s.running[i])))
      else None
    case AnnounceExit => Some(s.(exits := s.exits + 1))
    case FreeCpu => Some(s.(medium := s.medium + 1, plan := s.plan + 1))
  }

  /**
    `planificadorIO`: serves the oldest request and looks for its process in BLOCKED.  It takes the entry at
    `found`, or none; a process it finds suspended makes it wait for a lock that is never given back.
   */
  function NextDevice(s: State, found: Option<nat>): Option<State> {
    if |s.io| == 0 then None
    else
      var p, io := s.io[0], Without(s.io, 0);
      if found.None? then
        if p in s.suspended then None else Some(s.(io := io, orphaned := With(s.orphaned, p)))
      else if found.value < |s.blocked| then
        var e := s.blocked[found.value];
        var right := e == Sleeper(p, true);
        Some(s.(io := io, blocked := Without(s.blocked, found.value), waking := With(s.waking, e.pid),
                orphaned := if right then s.orphaned else With(s.orphaned, p),
                stolen := if right then s.stolen else Stolen(s, e)))
      else None
  }

  /** `desbloquearProcesoPorSemaforo`, and the rest of `desbloquearPID` */
  function NextWaker(s: State, move: WakerMove): Option<State> {
    match move
    case Unblock(i) =>
      if i < |s.blocked| then
        var e := s.blocked[i];
        Some(s.(blocked := Without(s.blocked, i), waking := With(s.waking, e.pid), stolen := Stolen(s, e)))
      else None
    case Requeue(i) =>
      if i < |s.waking| then
        Some(s.(waking := Without(s.waking, i), ready := With(s.ready, s.waking[i]), unposted := s.unposted + 1))
      else None
    case PostReady => if s.unposted > 0 then Some(s.(unposted := s.unposted - 1, queued := s.queued + 1)) else None
    case UnblockSuspended(i) =>
      if i < |s.suspended| && !OwnsSuspended(s.swapper) then
        Some(s.(suspended := Without(s.suspended, i), resumable := With(s.resumable, s.suspended[i])))
      else None
  }

  /** `planificadorMedianoPlazo`, which locks `m_colaSuspendedBlocked` twice */
  function NextMedium(s: State, move: MediumMove): Option<State> {
    match move
    case MediumWake =>
      if s.swapper.Sleeping? && s.medium > 0 then Some(s.(medium := s.medium - 1, swapper := Woken)) else None
    case MediumTest =>
      if !s.swapper.Woken? then None
      else if |s.ready| == 0 && |s.blocked| > 0 && |s.newcomers| > 0 then
        var e := s.blocked[|s.blocked| - 1];
        Some(s.(blocked := Without(s.blocked, |s.blocked| - 1), swapper := Carrying(e.pid), stolen := Stolen(s, e)))
      else Some(s.(swapper := Sleeping))
    case MediumLock => if s.swapper.Carrying? then Some(s.(swapper := Locking(s.swapper.pid))) else None
    case MediumAdd =>
      if s.swapper.Locking? then Some(s.(suspended := With(s.suspended, s.swapper.pid), swapper := Stuck)) else None
  }

  /** `finalizarProceso` */
  function NextFinish(s: State, move: FinishMove): Option<State> {
    match move
    case FinishWake =>
      if s.finisher.Calm? && s.exits > 0 then Some(s.(exits := s.exits - 1, finisher := Roused)) else None
    case FinishPop =>
      if !s.finisher.Roused? then None
      else if |s.leaving| > 0 then Some(s.(leaving := Without(s.leaving, 0), finisher := Retiring(s.leaving[0])))
      else Some(s.(finisher := Calm))
    case FinishPost =>
      if s.finisher.Retiring? then
        Some(s.(entry := s.entry + 1, finisher := Calm, gone := With(s.gone, s.finisher.pid)))
      else None
  }

  /** `terminarProceso` and `pasarDeBloqueadoAReady` */
  function NextDetector(s: State, move: DetectorMove): Option<State> {
    match move
    case Kill(i) =>
      if i < |s.blocked| then
        var e := s.blocked[i];
        Some(s.(blocked := Without(s.blocked, i), gone := With(s.gone, e.pid), killed := s.killed + 1,
            stolen := Stolen(s, e)))
      else None
    case Revive(i) =>
      if i < |s.blocked| then
        var e := s.blocked[i];
        Some(s.(blocked := Without(s.blocked, i), ready := With(s.ready, e.pid), leaked := s.leaked + 1,
            stolen := Stolen(s, e)))
      else None
  }

  /** The state after a step, or nothing when the thread cannot take it now. */
  function Next(s: State, step: Step): Option<State> {
    match step
    case MainThread(a) => NextMain(s, a)
    case LongTerm(l) => NextLong(s, l)
    case ShortTerm(m) => NextShort(s, m)
    case Cpu(c) => NextCpu(s, c)
    case Device(found) => NextDevice(s, found)
    case Waker(w) => NextWaker(s, w)
    case MediumTerm(d) => NextMedium(s, d)
    case Ending(f) => NextFinish(s, f)
    case Detector(k) => NextDetector(s, k)
  }

  // ---------------------------------------------------------------- invariants

  /** How often a process is in processBlocked. */
  function Asleep(s: State, p: nat): nat {
    Times(s.blocked, Sleeper(p, true)) + Times(s.blocked, Sleeper(p, false))
  }

  /** In how many places inside the system a process is: admitted, neither finished nor terminated. */
  function Inside(s: State, p: nat): nat {
    Times(s.ready, p) + Times(s.running, p) + Times(s.asking, p) + Asleep(s, p) + Times(s.waking, p)
    + Times(s.leaving, p) + Times(s.suspended, p) + Times(s.resumable, p) + Held(s.long == Moving(p))
    + Held(s.swapper == Carrying(p) || s.swapper == Locking(p)) + Held(s.finisher == Retiring(p))
  }

  /** Tokens of READY that a thread has taken and not used, or is about to post. */
  function Tokens(s: State): nat {
    (if s.short.Resting? then 0 else 1) + (if s.long.Added? then 1 else 0) + s.unposted
  }

  /** How many processes are inside. */
  function Population(s: State): nat {
    |s.ready| + |s.running| + |s.asking| + |s.blocked| + |s.waking| + |s.leaving| + |s.suspended| + |s.resumable|
    + Held(s.long.Moving?) + Held(s.swapper.Carrying? || s.swapper.Locking?) + Held(s.finisher.Retiring?)
  }

  /** Processes are admitted in the order in which they came. */
  ghost predicate InOrder(s: State) {
    && s.arrived == s.admitted + s.newcomers
    && (s.long.Waiting? || s.long.Allowed? ==> |s.newcomers| > 0)
  }

  /** A process admitted is in exactly one place, or gone. */
  predicate AccountedFor(s: State, p: nat) {
    Times(s.admitted, p) == Inside(s, p) + Times(s.gone, p)
  }

  ghost predicate Accounted(s: State) {
    forall p :: AccountedFor(s, p)
  }

  /** Permissions are conserved, except those of the processes the deadlock detector terminates. */
  ghost predicate Permitted(degree: nat, s: State) {
    Population(s) + Held(s.long.Allowed?) + s.entry + s.killed == degree
  }

  /** Every token of READY, posted or not, stands for a process in READY. */
  ghost predicate Backed(s: State) {
    s.queued + Tokens(s) + s.leaked == |s.ready|
  }

  /** Only the thread that cannot go on has suspended anything. */
  ghost predicate SuspendedOnce(s: State) {
    && |s.resumable| == 0
    && |s.suspended| == Held(s.swapper.Stuck?)
  }

  ghost predicate Counted(degree: nat, s: State) {
    Permitted(degree, s) && Backed(s) && SuspendedOnce(s)
  }

  ghost predicate Inv(degree: nat, s: State) {
    InOrder(s) && Accounted(s) && Counted(degree, s)
  }

  lemma BootHolds(degree: nat)
    ensures Inv(degree, Boot(degree))
  {
  }

  lemma MainAccounts(s: State, move: Arriving, p: nat)
    requires AccountedFor(s, p) && NextMain(s, move).Some?
    ensures AccountedFor(NextMain(s, move).value, p)
  {
    hide Without, With, Times;
  }

  lemma MainCounts(degree: nat, s: State, move: Arriving)
    requires Counted(degree, s) && NextMain(s, move).Some?
    ensures Counted(degree, NextMain(s, move).value)
  {
    hide Without, With, Times;
  }

  lemma LongAccounts(s: State, move: LongMove, p: nat)
    requires AccountedFor(s, p) && NextLong(s, move).Some?
    ensures AccountedFor(NextLong(s, move).value, p)
  {
    hide Without, With, Times;
  }

  lemma LongCounts(degree: nat, s: State, move: LongMove)
    requires Counted(degree, s) && NextLong(s, move).Some?
    ensures Counted(degree, NextLong(s, move).value)
  {
    hide Without, With, Times;
  }

  lemma ShortAccounts(s: State, move: ShortMove, p: nat)
    requires AccountedFor(s, p) && NextShort(s, move).Some?
    ensures AccountedFor(NextShort(s, move).value, p)
  {
    hide Without, With, Times;
  }

  lemma ShortCounts(degree: nat, s: State, move: ShortMove)
    requires Counted(degree, s) && NextShort(s, move).Some?
    ensures Counted(degree, NextShort(s, move).value)
  {
    hide Without, With, Times;
  }

  lemma CpuAccounts(s: State, move: CpuMove, p: nat)
    requires AccountedFor(s, p) && NextCpu(s, move).Some?
    ensures AccountedFor(NextCpu(s, move).value, p)
  {
    hide Without, With, Times;
  }

  lemma CpuCounts(degree: nat, s: State, move: CpuMove)
    requires Counted(degree, s) && NextCpu(s, move).Some?
    ensures Counted(degree, NextCpu(s, move).value)
  {
    hide Without, With, Times;
  }

  lemma DeviceAccounts(s: State, found: Option<nat>, p: nat)
    requires AccountedFor(s, p) && NextDevice(s, found).Some?
    ensures AccountedFor(NextDevice(s, found).value, p)
  {
    hide Without, With, Times, Stolen;
  }

  lemma DeviceCounts(degree: nat, s: State, found: Option<nat>)
    requires Counted(degree, s) && NextDevice(s, found).Some?
    ensures Counted(degree, NextDevice(s, found).value)
  {
    hide Without, With, Times, Stolen;
  }

  lemma WakerAccounts(s: State, move: WakerMove, p: nat)
    requires AccountedFor(s, p) && NextWaker(s, move).Some?
    ensures AccountedFor(NextWaker(s, move).value, p)
  {
    hide Without, With, Times, Stolen;
  }

  lemma WakerCounts(degree: nat, s: State, move: WakerMove)
    requires Counted(degree, s) && NextWaker(s, move).Some?
    ensures Counted(degree, NextWaker(s, move).value)
  {
    hide Without, With, Times, Stolen;
  }

  lemma MediumAccounts(s: State, move: MediumMove, p: nat)
    requires AccountedFor(s, p) && NextMedium(s, move).Some?
    ensures AccountedFor(NextMedium(s, move).value, p)
  {
    hide Without, With, Times, Stolen;
  }

  lemma MediumCounts(degree: nat, s: State, move: MediumMove)
    requires Counted(degree, s) && NextMedium(s, move).Some?
    ensures Counted(degree, NextMedium(s, move).value)
  {
    hide Without, With, Times, Stolen;
  }

  lemma FinishAccounts(s: State, move: FinishMove, p: nat)
    requires AccountedFor(s, p) && NextFinish(s, move).Some?
    ensures AccountedFor(NextFinish(s, move).value, p)
  {
    hide Without, With, Times;
  }

  lemma FinishCounts(degree: nat, s: State, move: FinishMove)
    requires Counted(degree, s) && NextFinish(s, move).Some?
    ensures Counted(degree, NextFinish(s, move).value)
  {
    hide Without, With, Times;
  }

  lemma DetectorAccounts(s: State, move: DetectorMove, p: nat)
    requires AccountedFor(s, p) && NextDetector(s, move).Some?
    ensures AccountedFor(NextDetector(s, move).value, p)
  {
    hide Without, With, Times, Stolen;
  }

  lemma DetectorCounts(degree: nat, s: State, move: DetectorMove)
    requires Counted(degree, s) && NextDetector(s, move).Some?
    ensures Counted(degree, NextDetector(s, move).value)
  {
    hide Without, With, Times, Stolen;
  }

  lemma StepAccounts(s: State, step: Step, p: nat)
    requires AccountedFor(s, p) && Next(s, step).Some?
    ensures AccountedFor(Next(s, step).value, p)
  {
    hide AccountedFor, NextMain, NextLong, NextShort, NextCpu, NextDevice, NextWaker, NextMedium, NextFinish,
      NextDetector;
    match step
    case MainThread(a) => MainAccounts(s, a, p);
    case LongTerm(l) => LongAccounts(s, l, p);
    case ShortTerm(m) => ShortAccounts(s, m, p);
    case Cpu(c) => CpuAccounts(s, c, p);
    case Device(found) => DeviceAccounts(s, found, p);
    case Waker(w) => WakerAccounts(s, w, p);
    case MediumTerm(d) => MediumAccounts(s, d, p);
    case Ending(f) => FinishAccounts(s, f, p);
    case Detector(k) => DetectorAccounts(s, k, p);
  }

  lemma StepCounts(degree: nat, s: State, step: Step)
    requires Counted(degree, s) && Next(s, step).Some?
    ensures Counted(degree, Next(s, step).value)
  {
    hide Counted, NextMain, NextLong, NextShort, NextCpu, NextDevice, NextWaker, NextMedium, NextFinish, NextDetector;
    match step
    case MainThread(a) => MainCounts(degree, s, a);
    case LongTerm(l) => LongCounts(degree, s, l);
    case ShortTerm(m) => ShortCounts(degree, s, m);
    case Cpu(c) => CpuCounts(degree, s, c);
    case Device(found) => DeviceCounts(degree, s, found);
    case Waker(w) => WakerCounts(degree, s, w);
    case MediumTerm(d) => MediumCounts(degree, s, d);
    case Ending(f) => FinishCounts(degree, s, f);
    case Detector(k) => DetectorCounts(degree, s, k);
  }

  lemma LongOrders(s: State, move: LongMove)
    requires InOrder(s) && NextLong(s, move).Some?
    ensures InOrder(NextLong(s, move).value)
  {
    hide Times, Without;
    if |s.newcomers| > 0 {
      FirstOut(s.newcomers);
    }
  }

  lemma FirstOut(list: seq<nat>)
    requires |list| > 0
    ensures list == [list[0]] + Without(list, 0)
  {
  }

  /** Only the main thread and the long-term scheduler touch NEW. */
  lemma StepOrders(s: State, step: Step)
    requires InOrder(s) && Next(s, step).Some?
    ensures InOrder(Next(s, step).value)
  {
    hide Times, Without, NextLong;
    if step.LongTerm? {
      LongOrders(s, step.l);
    }
  }

  /** Every step of every thread keeps the invariant. */
  lemma StepKeeps(degree: nat, s: State, step: Step)
    requires Inv(degree, s) && Next(s, step).Some?
    ensures Inv(degree, Next(s, step).value)
  {
    hide InOrder, AccountedFor, Counted, Next;
    StepOrders(s, step);
    StepCounts(degree, s, step);
    forall p: nat
      ensures AccountedFor(Next(s, step).value, p)
    {
      StepAccounts(s, step, p);
    }
  }

  // ---------------------------------------------------------------- runs

  /** A run of steps in any order; a step that cannot be taken is not part of a run. */
  ghost predicate Runs(s: State, run: seq<Step>, after: State)
    decreases |run|
  {
    if |run| == 0 then after == s
    else Next(s, run[0]).Some? && Runs(Next(s, run[0]).value, run[1..], after)
  }

  lemma {:induction false} RunKeeps(degree: nat, s: State, run: seq<Step>, after: State)
    requires Inv(degree, s) && Runs(s, run, after)
    ensures Inv(degree, after)
    decreases |run|
  {
    hide Inv, Next;
    if |run| > 0 {
      StepKeeps(degree, s, run[0]);
      RunKeeps(degree, Next(s, run[0]).value, run[1..], after);
    }
  }

  /**
    Admission is safe over every interleaving: the processes inside and the value of the semaphore never
    exceed the multiprogramming degree together, and they make it up exactly but for a permission the
    long-term scheduler holds and for those lost with the processes the deadlock detector has terminated.
   */
  lemma {:induction false} AdmissionIsSafe(degree: nat, run: seq<Step>, s: State)
    requires Runs(Boot(degree), run, s)
    ensures Population(s) + s.entry <= degree
    ensures degree - (Population(s) + s.entry) == Held(s.long.Allowed?) + s.killed
  {
    BootHolds(degree);
    RunKeeps(degree, Boot(degree), run, s);
  }

  /** Processes are admitted in the order of arrival, and each is in exactly one place or gone. */
  lemma {:induction false} NobodyIsLost(degree: nat, run: seq<Step>, s: State, p: nat)
    requires Runs(Boot(degree), run, s)
    ensures s.arrived == s.admitted + s.newcomers
    ensures Times(s.arrived, p) == Times(s.newcomers, p) + Inside(s, p) + Times(s.gone, p)
    ensures s.long.Allowed? ==> |s.newcomers| > 0
  {
    BootHolds(degree);
    RunKeeps(degree, Boot(degree), run, s);
    assert AccountedFor(s, p);
  }

  /**
    The tokens of READY never exceed its length, so the short-term scheduler never looks at an empty
    list; the difference is what has leaked.
   */
  lemma {:induction false} ReadyIsNeverEmpty(degree: nat, run: seq<Step>, s: State)
    requires Runs(Boot(degree), run, s)
    ensures s.queued + Tokens(s) <= |s.ready| && |s.ready| - (s.queued + Tokens(s)) == s.leaked
    ensures s.short.Choosing? ==> |s.ready| > 0 && Next(s, ShortTerm(ShortPick(0))).Some?
  {
    BootHolds(degree);
    RunKeeps(degree, Boot(degree), run, s);
    hide NextShort, Accounted;
    assert s.short.Choosing? ==> |s.ready| > 0;
    if s.short.Choosing? {
      ChoosingCanPick(s);
    }
  }

  lemma ChoosingCanPick(s: State)
    requires s.short.Choosing? && |s.ready| > 0
    ensures Next(s, ShortTerm(ShortPick(0))).Some?
  {
  }

  lemma {:induction false} LeaksGrow(s: State, run: seq<Step>, after: State)
    requires Runs(s, run, after)
    ensures after.leaked >= s.leaked
    decreases |run|
  {
    if |run| > 0 {
      LeakStep(s, run[0]);
      hide Next;
      LeaksGrow(Next(s, run[0]).value, run[1..], after);
    }
  }

  lemma LeakStep(s: State, step: Step)
    requires Next(s, step).Some?
    ensures Next(s, step).value.leaked >= s.leaked
  {
    hide With, Without;
  }

  /**
    A token thrown away is never made up for: from then on, whatever happens, that many processes are in
    READY that nobody will be called for.
   */
  lemma {:induction false} LeaksNeverHeal(degree: nat, first: seq<Step>, s: State, later: seq<Step>, after: State)
    requires Runs(Boot(degree), first, s) && Runs(s, later, after)
    ensures |after.ready| >= s.leaked + after.queued + Tokens(after)
  {
    BootHolds(degree);
    RunKeeps(degree, Boot(degree), first, s);
    RunKeeps(degree, s, later, after);
    LeaksGrow(s, later, after);
  }

  // ---------------------------------------------------------------- semaphores

  /** How often a step has been taken. */
  function Taken(run: seq<Step>, step: Step): nat {
    Times(run, step)
  }

  /** The values of the semaphores before the run and the posts in it are those after it and the waits in it. */
  ghost predicate Settled(s: State, run: seq<Step>, after: State) {
    && after.arrival + Taken(run, LongTerm(LongWake)) == s.arrival + Taken(run, MainThread(Announce))
    && after.entry + Taken(run, LongTerm(LongEnter)) == s.entry + Taken(run, Ending(FinishPost))
    && after.queued + Taken(run, ShortTerm(ShortWake)) ==
       s.queued + Taken(run, LongTerm(LongPost)) + Taken(run, Waker(PostReady))
    && after.plan + Taken(run, ShortTerm(ShortPlan)) ==
       s.plan + Taken(run, Cpu(FreeCpu)) + Taken(run, LongTerm(LongKick(true)))
    && after.medium + Taken(run, MediumTerm(MediumWake)) == s.medium + Taken(run, Cpu(FreeCpu))
    && after.exits + Taken(run, Ending(FinishWake)) == s.exits + Taken(run, Cpu(AnnounceExit))
  }

  lemma TakenFirst(run: seq<Step>, step: Step)
    requires |run| > 0
    ensures Taken(run, step) == Taken(run[1..], step) + Held(run[0] == step)
  {
    assert run == [run[0]] + run[1..];
  }

  lemma TakenOnce(step: Step)
    ensures forall x: Step :: Taken([step], x) == Held(step == x)
  {
  }

  lemma AdmissionsSettle(s: State, step: Step)
    requires Next(s, step).Some?
    ensures var after := Next(s, step).value;
            && after.arrival + Held(step == LongTerm(LongWake)) == s.arrival + Held(step == MainThread(Announce))
            && after.entry + Held(step == LongTerm(LongEnter)) == s.entry + Held(step == Ending(FinishPost))
            && after.exits + Held(step == Ending(FinishWake)) == s.exits + Held(step == Cpu(AnnounceExit))
  {
    hide With, Without, Stolen;
  }

  lemma CallsSettle(s: State, step: Step)
    requires Next(s, step).Some?
    ensures var after := Next(s, step).value;
            && after.queued + Held(step == ShortTerm(ShortWake)) ==
               s.queued + Held(step == LongTerm(LongPost)) + Held(step == Waker(PostReady))
            && after.plan + Held(step == ShortTerm(ShortPlan)) ==
               s.plan + Held(step == Cpu(FreeCpu)) + Held(step == LongTerm(LongKick(true)))
            && after.medium + Held(step == MediumTerm(MediumWake)) == s.medium + Held(step == Cpu(FreeCpu))
  {
    hide With, Without, Stolen;
  }

  lemma StepSettles(s: State, step: Step)
    requires Next(s, step).Some?
    ensures Settled(s, [step], Next(s, step).value)
  {
    hide Taken, Next;
    TakenOnce(step);
    AdmissionsSettle(s, step);
    CallsSettle(s, step);
  }

  /** Over every interleaving no post and no wait on a semaphore is lost: a CPU that is freed calls the scheduler. */
  lemma {:induction false} SemaphoresSettle(s: State, run: seq<Step>, after: State)
    requires Runs(s, run, after)
    ensures Settled(s, run, after)
    decreases |run|
  {
    if |run| > 0 {
      hide Next, Times;
      var next := Next(s, run[0]).value;
      StepSettles(s, run[0]);
      SemaphoresSettle(next, run[1..], after);
      TakenSplits(run);
    }
  }

  lemma TakenSplits(run: seq<Step>)
    requires |run| > 0
    ensures forall step: Step :: Taken(run, step) == Taken(run[1..], step) + Taken([run[0]], step)
  {
    hide Times, Taken;
    TakenOnce(run[0]);
    forall step: Step
      ensures Taken(run, step) == Taken(run[1..], step) + Taken([run[0]], step)
    {
      TakenFirst(run, step);
    }
  }

  /** Every time a thread wakes up it goes through its test, or its next wait, once. */
  ghost predicate Paced(s: State, run: seq<Step>, after: State) {
    && Taken(run, LongTerm(LongTest)) + Held(after.long.Awake?) == Taken(run, LongTerm(LongWake)) + Held(s.long.Awake?)
    && Taken(run, ShortTerm(ShortPlan)) + Held(after.short.Called?) ==
       Taken(run, ShortTerm(ShortWake)) + Held(s.short.Called?)
    && Taken(run, MediumTerm(MediumTest)) + Held(after.swapper.Woken?) ==
       Taken(run, MediumTerm(MediumWake)) + Held(s.swapper.Woken?)
    && Taken(run, Ending(FinishPop)) + Held(after.finisher.Roused?) ==
       Taken(run, Ending(FinishWake)) + Held(s.finisher.Roused?)
  }

  /** A thread moves only by its own steps. */
  lemma OthersStay(s: State, step: Step)
    requires Next(s, step).Some?
    ensures var after := Next(s, step).value;
            && (!step.LongTerm? ==> after.long == s.long) && (!step.ShortTerm? ==> after.short == s.short)
            && (!step.MediumTerm? ==> after.swapper == s.swapper) && (!step.Ending? ==> after.finisher == s.finisher)
  {
    hide With, Without, Stolen;
  }

  lemma LongPaces(s: State, move: LongMove)
    requires NextLong(s, move).Some?
    ensures Held(move.LongTest?) + Held(NextLong(s, move).value.long.Awake?) ==
            Held(move.LongWake?) + Held(s.long.Awake?)
  {
    hide With, Without;
  }

  lemma ShortPaces(s: State, move: ShortMove)
    requires NextShort(s, move).Some?
    ensures Held(move.ShortPlan?) + Held(NextShort(s, move).value.short.Called?) ==
            Held(move.ShortWake?) + Held(s.short.Called?)
  {
    hide With, Without;
  }

  lemma MediumPaces(s: State, move: MediumMove)
    requires NextMedium(s, move).Some?
    ensures Held(move.MediumTest?) + Held(NextMedium(s, move).value.swapper.Woken?) ==
            Held(move.MediumWake?) + Held(s.swapper.Woken?)
  {
    hide With, Without, Stolen;
  }

  lemma EndingPaces(s: State, move: FinishMove)
    requires NextFinish(s, move).Some?
    ensures Held(move.FinishPop?) + Held(NextFinish(s, move).value.finisher.Roused?) ==
            Held(move.FinishWake?) + Held(s.finisher.Roused?)
  {
    hide With, Without;
  }

  lemma StepPaces(s: State, step: Step)
    requires Next(s, step).Some?
    ensures Paced(s, [step], Next(s, step).value)
  {
    hide NextLong, NextShort, NextMedium, NextFinish, NextMain, NextCpu, NextDevice, NextWaker, NextDetector, Taken;
    TakenOnce(step);
    OthersStay(s, step);
    match step
    case LongTerm(l) => LongPaces(s, l);
    case ShortTerm(m) => ShortPaces(s, m);
    case MediumTerm(d) => MediumPaces(s, d);
    case Ending(f) => EndingPaces(s, f);
    case _ =>
  }

  /** Over every interleaving a thread runs its test once for every time it has been woken, whatever the test finds. */
  lemma {:induction false} WakesAreTested(s: State, run: seq<Step>, after: State)
    requires Runs(s, run, after)
    ensures Paced(s, run, after)
    decreases |run|
  {
    if |run| > 0 {
      hide Next, Times;
      var next := Next(s, run[0]).value;
      StepPaces(s, run[0]);
      WakesAreTested(next, run[1..], after);
      TakenSplits(run);
    }
  }

  // ---------------------------------------------------------------- suspension

  lemma StuckStays(degree: nat, s: State, step: Step)
    requires Inv(degree, s) && s.swapper.Stuck? && Next(s, step).Some?
    ensures Next(s, step).value.swapper.Stuck? && Next(s, step).value.suspended == s.suspended
  {
    hide With, Without, Times, Stolen;
  }

  /**
    At most one process is ever suspended.  The thread that suspends it waits for a lock it already has,
    nobody else gets the lock, and the process stays suspended for good.  Its permission is never given
    back: all others together, those inside and those that may enter, stay one below the degree.
   */
  lemma {:induction false} SuspensionIsFinal(degree: nat, s: State, run: seq<Step>, after: State)
    requires Inv(degree, s) && Runs(s, run, after)
    ensures |after.suspended| <= 1 && |after.resumable| == 0
    ensures |s.suspended| == 1 ==> after.suspended == s.suspended && after.swapper.Stuck?
    ensures |s.suspended| == 1 ==>
        (Population(after) - 1) + Held(after.long.Allowed?) + after.entry + after.killed == degree - 1
    decreases |run|
  {
    RunKeeps(degree, s, run, after);
    if |run| > 0 {
      StepKeeps(degree, s, run[0]);
      if s.swapper.Stuck? {
        StuckStays(degree, s, run[0]);
      }
      hide Next;
      SuspensionIsFinal(degree, Next(s, run[0]).value, run[1..], after);
    }
  }

  // ---------------------------------------------------------------- wake-ups

  /** The wait of a process for IO: before it is in BLOCKED, and in BLOCKED. */
  function Awaiting(s: State, p: nat): nat {
    Times(s.asking, p) + Times(s.blocked, Sleeper(p, true))
  }

  ghost predicate Balanced(s: State, p: nat) {
    Awaiting(s, p) + Times(s.stolen, p) == Times(s.io, p) + Times(s.orphaned, p)
  }

  lemma CpuBalances(s: State, move: CpuMove, p: nat)
    requires Balanced(s, p) && NextCpu(s, move).Some?
    ensures Balanced(NextCpu(s, move).value, p)
  {
    hide Without, With, Times;
  }

  lemma DeviceBalances(s: State, found: Option<nat>, p: nat)
    requires Balanced(s, p) && NextDevice(s, found).Some?
    ensures Balanced(NextDevice(s, found).value, p)
  {
    hide Without, With, Times;
  }

  lemma WakerBalances(s: State, move: WakerMove, p: nat)
    requires Balanced(s, p) && NextWaker(s, move).Some?
    ensures Balanced(NextWaker(s, move).value, p)
  {
    hide Without, With, Times;
  }

  lemma MediumBalances(s: State, move: MediumMove, p: nat)
    requires Balanced(s, p) && NextMedium(s, move).Some?
    ensures Balanced(NextMedium(s, move).value, p)
  {
    hide Without, With, Times;
  }

  lemma DetectorBalances(s: State, move: DetectorMove, p: nat)
    requires Balanced(s, p) && NextDetector(s, move).Some?
    ensures Balanced(NextDetector(s, move).value, p)
  {
    hide Without, With, Times;
  }

  lemma OthersBalance(s: State, step: Step, p: nat)
    requires Balanced(s, p) && Next(s, step).Some?
    requires step.MainThread? || step.LongTerm? || step.ShortTerm? || step.Ending?
    ensures Balanced(Next(s, step).value, p)
  {
    hide Without, With, Times;
  }

  lemma StepBalances(s: State, step: Step, p: nat)
    requires Balanced(s, p) && Next(s, step).Some?
    ensures Balanced(Next(s, step).value, p)
  {
    hide Balanced, NextMain, NextLong, NextShort, NextCpu, NextDevice, NextWaker, NextMedium, NextFinish,
      NextDetector;
    match step
    case Cpu(c) => CpuBalances(s, c, p);
    case Device(found) => DeviceBalances(s, found, p);
    case Waker(w) => WakerBalances(s, w, p);
    case MediumTerm(d) => MediumBalances(s, d, p);
    case Detector(k) => DetectorBalances(s, k, p);
    case _ => OthersBalance(s, step, p);
  }

  lemma {:induction false} RunBalances(s: State, run: seq<Step>, after: State, p: nat)
    requires Balanced(s, p) && Runs(s, run, after)
    ensures Balanced(after, p)
    decreases |run|
  {
    hide Balanced, Next;
    if |run| > 0 {
      StepBalances(s, run[0], p);
      RunBalances(Next(s, run[0]).value, run[1..], after, p);
    }
  }

  /** The device takes the entry of the process whose request it has served; true of every other step. */
  predicate Wakes(s: State, step: Step) {
    step.Device? ==>
      && |s.io| > 0 && step.found.Some? && step.found.value < |s.blocked|
      && s.blocked[step.found.value] == Sleeper(s.io[0], true)
  }

  /** The step takes a process out of its wait for IO, other than by serving its request. */
  predicate Steals(s: State, step: Step) {
    match step
    case Device(found) => found.Some? && found.value < |s.blocked| && s.blocked[found.value].io && !Wakes(s, step)
    case Waker(Unblock(i)) => i < |s.blocked| && s.blocked[i].io
    case MediumTerm(MediumTest) =>
      |s.ready| == 0 && |s.blocked| > 0 && |s.newcomers| > 0 && s.blocked[|s.blocked| - 1].io
    case Detector(Kill(i)) => i < |s.blocked| && s.blocked[i].io
    case Detector(Revive(i)) => i < |s.blocked| && s.blocked[i].io
    case _ => false
  }

  lemma StepCounted(s: State, step: Step)
    requires Next(s, step).Some?
    ensures |Next(s, step).value.orphaned| == |s.orphaned| + Held(!Wakes(s, step))
    ensures |Next(s, step).value.stolen| == |s.stolen| + Held(Steals(s, step))
  {
    hide Without, With, Times;
  }

  predicate AllWake(s: State, run: seq<Step>)
    decreases |run|
  {
    |run| > 0 && Next(s, run[0]).Some? ==> Wakes(s, run[0]) && AllWake(Next(s, run[0]).value, run[1..])
  }

  predicate NoneSteals(s: State, run: seq<Step>)
    decreases |run|
  {
    |run| > 0 && Next(s, run[0]).Some? ==> !Steals(s, run[0]) && NoneSteals(Next(s, run[0]).value, run[1..])
  }

  lemma {:induction false} RunCounted(s: State, run: seq<Step>, after: State)
    requires Runs(s, run, after)
    ensures |after.orphaned| >= |s.orphaned| && (|after.orphaned| == |s.orphaned| <==> AllWake(s, run))
    ensures |after.stolen| >= |s.stolen| && (|after.stolen| == |s.stolen| <==> NoneSteals(s, run))
    decreases |run|
  {
    hide Next, Wakes, Steals;
    if |run| > 0 {
      StepCounted(s, run[0]);
      RunCounted(Next(s, run[0]).value, run[1..], after);
    }
  }

  lemma FirstIsIn(list: seq<nat>)
    requires |list| > 0
    ensures Times(list, list[0]) > 0
  {
    assert list[0] in multiset(list);
  }

  lemma NobodyIn(list: seq<nat>)
    ensures |list| == 0 <==> forall p :: Times(list, p) == 0
  {
    if |list| > 0 {
      FirstIsIn(list);
    } else {
      assert forall p :: Times(list, p) == 0;
    }
  }

  /**
    Over every interleaving the waits of a process for IO, and the times it was taken out of one by
    something else, are as many as its requests still queued and those served without waking it.  So a
    wait has no request behind it exactly when more requests were served like that than waits were ended.
   */
  lemma {:induction false} WaitsAreAnswered(degree: nat, run: seq<Step>, s: State, p: nat)
    requires Runs(Boot(degree), run, s)
    ensures Awaiting(s, p) + Times(s.stolen, p) == Times(s.io, p) + Times(s.orphaned, p)
    ensures Awaiting(s, p) > Times(s.io, p) <==> Times(s.orphaned, p) > Times(s.stolen, p)
  {
    hide Next, Runs;
    RunBalances(Boot(degree), run, s, p);
  }

  /**
    When nothing else ends a wait for IO, no wake-up is lost exactly when the device always finds the
    process it has served: then, and only then, every process waits for exactly the requests it has queued.
   */
  lemma {:induction false} WakeUpsAreKept(degree: nat, run: seq<Step>, s: State)
    requires Runs(Boot(degree), run, s) && NoneSteals(Boot(degree), run)
    ensures (forall p :: Awaiting(s, p) == Times(s.io, p)) <==> AllWake(Boot(degree), run)
  {
    hide Next, Runs, AllWake, NoneSteals, Times;
    RunCounted(Boot(degree), run, s);
    forall p: nat
      ensures Awaiting(s, p) + Times(s.stolen, p) == Times(s.io, p) + Times(s.orphaned, p)
    {
      WaitsAreAnswered(degree, run, s, p);
    }
    NobodyIn(s.stolen);
    NobodyIn(s.orphaned);
    hide Awaiting;
  }

  /**
    As long as nothing else has ended a wait of the process and no wake-up of it is lost, the device can miss
    it in three ways only: it is not in BLOCKED yet, the search passes over it, or another entry is taken,
    and then the process of that entry goes on without having been waited for.
   */
  lemma MissesHaveThreeCauses(s: State, found: Option<nat>)
    requires |s.io| > 0 && Next(s, Device(found)).Some? && !Wakes(s, Device(found))
    requires Balanced(s, s.io[0]) && Times(s.stolen, s.io[0]) == 0 && Times(s.orphaned, s.io[0]) == 0
    ensures var p, after := s.io[0], Next(s, Device(found)).value;
            && Awaiting(after, p) > Times(after.io, p)
            && (found.None? ==> Times(s.asking, p) > 0 || Times(s.blocked, Sleeper(p, true)) > 0)
            && (found.Some? ==>
                  var e := s.blocked[found.value];
                  e != Sleeper(p, true) && after.blocked == Without(s.blocked, found.value)
                      && after.waking == With(s.waking, e.pid))
  {
    hide Without, With;
    FirstIsIn(s.io);
    hide Times;
  }

  // ---------------------------------------------------------------- runs that go wrong

  /** One more step at the end of a run. */
  lemma {:induction false} OneMore(s: State, run: seq<Step>, middle: State, step: Step) returns (longer: seq<Step>)
    requires Runs(s, run, middle) && Next(middle, step).Some?
    ensures Runs(s, longer, Next(middle, step).value)
    decreases |run|
  {
    hide Next;
    longer := [step];
    if |run| > 0 {
      var rest := OneMore(Next(s, run[0]).value, run[1..], middle, step);
      longer := [run[0]] + rest;
      assert longer[1..] == rest;
    }
  }

  lemma {:induction false} NoSteps(s: State)
    ensures Runs(s, [], s)
  {
  }

  lemma OnlyOne(x: nat)
    ensures Without(With([], x), 0) == []
  {
  }

  /** A process arrives, and the long-term scheduler is about to wait for a permission. */
  lemma Comes(boot: State, run: seq<Step>, s: State, pid: nat) returns (longer: seq<Step>, after: State)
    requires Runs(boot, run, s)
    requires s.long.Idle? && s.arrival == 0 && |s.resumable| == 0
    ensures Runs(boot, longer, after)
    ensures after == s.(newcomers := With(s.newcomers, pid), arrived := With(s.arrived, pid), long := Waiting)
  {
    hide Runs, Times;
    longer := OneMore(boot, run, s, MainThread(Arrive(pid)));
    after := Next(s, MainThread(Arrive(pid))).value;
    longer := OneMore(boot, longer, after, MainThread(Announce));
    after := Next(after, MainThread(Announce)).value;
    longer := OneMore(boot, longer, after, LongTerm(LongWake));
    after := Next(after, LongTerm(LongWake)).value;
    longer := OneMore(boot, longer, after, LongTerm(LongTest));
    after := Next(after, LongTerm(LongTest)).value;
  }

  /** The only process in NEW is added to READY. */
  lemma Enters(boot: State, run: seq<Step>, s: State, pid: nat) returns (longer: seq<Step>, after: State)
    requires Runs(boot, run, s)
    requires s.long.Waiting? && s.entry > 0 && s.newcomers == With([], pid)
    ensures Runs(boot, longer, after)
    ensures after == s.(newcomers := [], entry := s.entry - 1, admitted := With(s.admitted, pid),
                        ready := With(s.ready, pid), long := Added)
  {
    hide Runs, Times;
    OnlyOne(pid);
    longer := OneMore(boot, run, s, LongTerm(LongEnter));
    after := Next(s, LongTerm(LongEnter)).value;
    longer := OneMore(boot, longer, after, LongTerm(LongPop));
    after := Next(after, LongTerm(LongPop)).value;
    longer := OneMore(boot, longer, after, LongTerm(LongAdd));
    after := Next(after, LongTerm(LongAdd)).value;
  }

  /** The token is posted and the short-term scheduler called. */
  lemma IsCalled(boot: State, run: seq<Step>, s: State) returns (longer: seq<Step>, after: State)
    requires Runs(boot, run, s)
    requires s.long.Added? && s.short.Resting?
    ensures Runs(boot, longer, after)
    ensures after == s.(long := Idle, plan := s.plan + 1, short := Called)
  {
    hide Runs, Times;
    longer := OneMore(boot, run, s, LongTerm(LongPost));
    after := Next(s, LongTerm(LongPost)).value;
    longer := OneMore(boot, longer, after, LongTerm(LongKick(true)));
    after := Next(after, LongTerm(LongKick(true))).value;
    longer := OneMore(boot, longer, after, ShortTerm(ShortWake));
    after := Next(after, ShortTerm(ShortWake)).value;
  }

  /** The only process in READY is chosen. */
  lemma IsChosen(boot: State, run: seq<Step>, s: State, pid: nat) returns (longer: seq<Step>, after: State)
    requires Runs(boot, run, s)
    requires s.short.Called? && s.plan > 0 && s.ready == With([], pid)
    ensures Runs(boot, longer, after)
    ensures after == s.(ready := [], running := With(s.running, pid), plan := s.plan - 1, short := Resting)
  {
    hide Runs, Times;
    OnlyOne(pid);
    longer := OneMore(boot, run, s, ShortTerm(ShortPlan));
    after := Next(s, ShortTerm(ShortPlan)).value;
    longer := OneMore(boot, longer, after, ShortTerm(ShortPick(0)));
    after := Next(after, ShortTerm(ShortPick(0))).value;
  }

  /** Nobody is on the way into the system, and there is room for one more. */
  predicate Quiet(s: State) {
    && s.long.Idle? && s.short.Resting?
    && s.newcomers == [] && s.ready == [] && s.resumable == []
    && s.arrival == 0 && s.entry > 0
  }

  /** In a quiet system a process can come and be given a CPU. */
  lemma Starts(boot: State, run: seq<Step>, s: State, pid: nat) returns (longer: seq<Step>, after: State)
    requires Runs(boot, run, s) && Quiet(s)
    ensures Runs(boot, longer, after)
    ensures after == s.(entry := s.entry - 1, running := With(s.running, pid),
                        arrived := With(s.arrived, pid), admitted := With(s.admitted, pid))
  {
    hide Runs, Times, With, Without, Next;
    longer, after := Comes(boot, run, s, pid);
    longer, after := Enters(boot, longer, after, pid);
    longer, after := IsCalled(boot, longer, after);
    longer, after := IsChosen(boot, longer, after, pid);
  }

  /**
    The first cause: the IO request is queued before the process is in BLOCKED, and the device may finish
    before.  Then the process is blocked, its request is gone, and no wake-up for it is on its way.
   */
  lemma WakeUpsCanBeLost(pid: nat) returns (run: seq<Step>, s: State)
    ensures Runs(Boot(1), run, s) && NoneSteals(Boot(1), run) && !AllWake(Boot(1), run)
    ensures s.blocked == [Sleeper(pid, true)] && s.io == [] && s.waking == [] && s.unposted == 0
  {
    hide Runs, Times, AllWake, NoneSteals;
    NoSteps(Boot(1));
    run, s := Starts(Boot(1), [], Boot(1), pid);
    OnlyOne(pid);
    run := OneMore(Boot(1), run, s, Cpu(AskIo(0)));
    s := Next(s, Cpu(AskIo(0))).value;
    run := OneMore(Boot(1), run, s, Device(None));
    s := Next(s, Device(None)).value;
    run := OneMore(Boot(1), run, s, Cpu(Park(0)));
    s := Next(s, Cpu(Park(0))).value;
    RunCounted(Boot(1), run, s);
  }

  /** Three processes come in: `x` waits for a semaphore, then `p` and `q` for IO. */
  lemma ThreeWait(x: nat, p: nat, q: nat) returns (run: seq<Step>, s: State)
    ensures Runs(Boot(3), run, s)
    ensures s.blocked == With(With(With([], Sleeper(x, false)), Sleeper(p, true)), Sleeper(q, true))
    ensures s.io == With(With([], p), q) && s.waking == [] && s.orphaned == [] && s.stolen == [] && s.unposted == 0
  {
    hide Runs, Times, With, Without;
    NoSteps(Boot(3));
    run, s := Starts(Boot(3), [], Boot(3), x);
    OnlyOne(x);
    OnlyIndex(x);
    run := OneMore(Boot(3), run, s, Cpu(WaitSemaphore(0)));
    s := Next(s, Cpu(WaitSemaphore(0))).value;
    run, s := AsksForIo(Boot(3), run, s, p);
    run, s := AsksForIo(Boot(3), run, s, q);
  }

  /** In a quiet system with nobody running, a process can come, ask for IO and be put into BLOCKED. */
  lemma AsksForIo(boot: State, run: seq<Step>, s: State, pid: nat) returns (longer: seq<Step>, after: State)
    requires Runs(boot, run, s) && Quiet(s) && s.running == [] && s.asking == []
    ensures Runs(boot, longer, after)
    ensures after == s.(entry := s.entry - 1, io := With(s.io, pid), blocked := With(s.blocked, Sleeper(pid, true)),
                        arrived := With(s.arrived, pid), admitted := With(s.admitted, pid))
  {
    hide Runs, Times, With, Without;
    longer, after := Starts(boot, run, s, pid);
    OnlyOne(pid);
    OnlyIndex(pid);
    longer := OneMore(boot, longer, after, Cpu(AskIo(0)));
    after := Next(after, Cpu(AskIo(0))).value;
    longer := OneMore(boot, longer, after, Cpu(Park(0)));
    after := Next(after, Cpu(Park(0))).value;
  }

  lemma OnlyIndex(pid: nat)
    ensures |With([], pid)| == 1 && With([], pid)[0] == pid
  {
  }

  /**
    The other cause: the device has found `p` at index 1, another thread removes the entry before it, and the
    device takes the entry that is at index 1 now.  Then `p` waits without a request, and `q` goes on while
    its request is still queued.
   */
  lemma AnotherIsWoken(x: nat, p: nat, q: nat) returns (run: seq<Step>, s: State)
    requires p != q
    ensures Runs(Boot(3), run, s)
    ensures s.blocked == [Sleeper(p, true)] && s.io == [q] && s.waking == [x, q] && s.unposted == 0
    ensures s.orphaned == [p] && s.stolen == [q]
  {
    hide Runs, Times;
    run, s := ThreeWait(x, p, q);
    run, s := LosesTheFirst(Boot(3), run, s, x, p, q);
    TakesTheSecond(s, p, q);
    hide Next;
    run := OneMore(Boot(3), run, s, Device(Some(1)));
    s := Next(s, Device(Some(1))).value;
  }

  lemma LosesTheFirst(boot: State, run: seq<Step>, s: State, x: nat, p: nat, q: nat)
    returns (longer: seq<Step>, after: State)
    requires Runs(boot, run, s)
    requires s.blocked == With(With(With([], Sleeper(x, false)), Sleeper(p, true)), Sleeper(q, true))
    ensures Runs(boot, longer, after)
    ensures after == s.(blocked := [Sleeper(p, true), Sleeper(q, true)], waking := With(s.waking, x))
  {
    hide Runs, Times;
    longer := OneMore(boot, run, s, Waker(Unblock(0)));
    after := Next(s, Waker(Unblock(0))).value;
    assert after.blocked == [Sleeper(p, true), Sleeper(q, true)];
  }

  lemma TakesTheSecond(s: State, p: nat, q: nat)
    requires p != q && s.blocked == [Sleeper(p, true), Sleeper(q, true)] && s.io == With(With([], p), q)
    ensures Next(s, Device(Some(1))) == Some(s.(blocked := [Sleeper(p, true)], io := [q], waking := With(s.waking, q),
                                                orphaned := With(s.orphaned, p), stolen := With(s.stolen, q)))
  {
    hide Times;
    assert Without(s.io, 0) == [q] && Without(s.blocked, 1) == [Sleeper(p, true)];
  }

  /** The thread of `planificadorMedianoPlazo` does suspend a process, and stays where it is. */
  lemma SuspensionHappens(p: nat, q: nat) returns (run: seq<Step>, s: State)
    ensures Runs(Boot(1), run, s)
    ensures s.suspended == [p] && s.swapper.Stuck?
  {
    hide Runs, Times;
    NoSteps(Boot(1));
    run, s := Starts(Boot(1), [], Boot(1), p);
    OnlyOne(p);
    run := OneMore(Boot(1), run, s, Cpu(WaitSemaphore(0)));
    s := Next(s, Cpu(WaitSemaphore(0))).value;
    run := OneMore(Boot(1), run, s, Cpu(FreeCpu));
    s := Next(s, Cpu(FreeCpu)).value;
    run, s := Comes(Boot(1), run, s, q);
    run, s := Suspends(Boot(1), run, s, p);
  }

  lemma Suspends(boot: State, run: seq<Step>, s: State, p: nat) returns (longer: seq<Step>, after: State)
    requires Runs(boot, run, s)
    requires s.swapper.Sleeping? && s.medium > 0 && s.ready == [] && |s.newcomers| > 0 && s.suspended == []
    requires s.blocked == [Sleeper(p, false)]
    ensures Runs(boot, longer, after)
    ensures after.suspended == [p] && after.swapper.Stuck?
  {
    hide Runs, Times;
    longer := OneMore(boot, run, s, MediumTerm(MediumWake));
    after := Next(s, MediumTerm(MediumWake)).value;
    longer := OneMore(boot, longer, after, MediumTerm(MediumTest));
    after := Next(after, MediumTerm(MediumTest)).value;
    longer := OneMore(boot, longer, after, MediumTerm(MediumLock));
    after := Next(after, MediumTerm(MediumLock)).value;
    longer := OneMore(boot, longer, after, MediumTerm(MediumAdd));
    after := Next(after, MediumTerm(MediumAdd)).value;
  }
}
