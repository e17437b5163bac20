/**
 The thread pool of Source/RKThreadPool.m as a state machine: any number of callers of
 threadFunction:argument: ("dispatchers"), n worker threads and n job slots, interleaved
 step by step. Condition locks are taken and released atomically here; module ConditionLock
 proves that the mutex and condition variable underneath behave like that.
 */
module ThreadPool {
  import opened Base

  /** RKJobCondition... of Source/Headers/RegexKit/RKThreadPool.h. */
  datatype JobCondition = Available | Executing | Finishing | Completed

  /** RKThreadCondition...; a pool that is never stopped has no NotRunning. */
  datatype ThreadCondition = Starting | Sleeping | Wakeup | Awake | RunningJob

  /** The function and the argument of a call, which is known by its number. */
  datatype Function = FunctionOf(call: nat)
  datatype Argument = ArgumentOf(call: nat)

  datatype Owner = Free | ByDispatcher(d: nat) | ByWorker(w: nat)

  /** A job slot. `holder` is a history variable: the dispatcher the slot is claimed by. */
  datatype Job = Job(
    condition: JobCondition, owner: Owner, active: nat,
    jobFunction: Option<Function>, argument: Option<Argument>,
    holder: Option<nat>)

  /** A worker's lock. `partner` is a history variable: the dispatcher waking this worker. */
  datatype ThreadLock = ThreadLock(condition: ThreadCondition, owner: Owner, partner: Option<nat>)

  /** Where a dispatcher is in threadFunction:argument:. */
  datatype DispatcherPc =
    | Outside        // not in a call
    | Claim          // lines 231-236: trying slot `at`
    | SetFunction    // line 255
    | SetArgument    // line 256
    | Publish        // line 257
    | While          // line 259
    | For            // line 260
    | Try            // line 261: trying thread `at`
    | Got            // line 262
    | Wake           // lines 263-264
    | Await          // line 265
    | Run            // lines 266-267
    | Counted        // line 268
    | Undo           // line 270
    | Odd            // lines 278-284: "no job threads were started"
    | WaitDone       // line 286
    | ClearFunction  // line 290
    | ClearArgument  // line 291
    | Release        // line 292

  /** Where a worker is in workerThreadStart:. */
  datatype WorkerPc =
    | NotStarted     // before line 325
    | StartingUp     // line 327
    | Started        // line 329
    | Asleep         // line 334
    | Woken          // lines 338-339
    | Join           // lines 340-341
    | JoinUnlock     // line 342
    | WakeUnlock     // lines 343-346
    | ReadFunction   // line 349, reading jobFunction
    | ReadArgument   // line 349, reading jobArgument
    | Inside         // line 349, in the call
    | LeaveLock      // line 350
    | Leave          // lines 352-356
    | AwaitRun       // line 359
    | Ran            // line 360

  /** A caller in its latest call. */
  datatype Dispatcher = Dispatcher(pc: DispatcherPc, call: nat, slot: nat, started: nat, at: nat)

  /** `wake` is a history variable: the call that last woke this worker. */
  datatype Worker = Worker(
    pc: WorkerPc, current: Option<nat>, jobFunction: Option<Function>, argument: Option<Argument>, wake: nat)

  datatype Pool = Pool(
    dispatchers: seq<Dispatcher>, workers: seq<Worker>,
    jobs: seq<Job>, locks: seq<ThreadLock>, queue: seq<Option<nat>>,
    live: nat, nextCall: nat)
  {
    function Size(): nat {
      |workers|
    }
  }

  // ---------------------------------------------------------------------------------------
  // Steps
  // ---------------------------------------------------------------------------------------

  ghost predicate Shaped(s: Pool) {
    && |s.jobs| == s.Size() && |s.locks| == s.Size() && |s.queue| == s.Size()
    && (forall d :: 0 <= d < |s.dispatchers| ==> DispatcherShaped(s, s.dispatchers[d]))
    && (forall w :: 0 <= w < s.Size() ==> WorkerShaped(s, s.workers[w], s.queue[w]))
  }

  /** The indices a dispatcher's next step uses are in range. */
  ghost predicate DispatcherShaped(s: Pool, x: Dispatcher) {
    && (x.pc == Claim ==> x.at < s.Size())
    && (HoldsSlot(x.pc) ==> x.slot < s.Size())
    && (x.pc == Try || InHandshake(x.pc) ==> x.at < s.Size())
  }

  ghost predicate WorkerShaped(s: Pool, x: Worker, q: Option<nat>) {
    && (q.Some? ==> q.value < s.Size())
    && (x.pc in {Woken, Join, JoinUnlock} ==> q.Some?)
    && (x.current.Some? ==> x.current.value < s.Size())
    && (x.pc in {ReadFunction, ReadArgument, Inside, LeaveLock, Leave} ==> x.current.Some?)
  }

  predicate HoldsSlot(pc: DispatcherPc) {
    pc != Outside && pc != Claim
  }

  /** From the publishing of the job to its completion. */
  predicate JobIsOut(pc: DispatcherPc) {
    pc in {While, For, Try, Got, Wake, Await, Run, Counted, Undo, WaitDone}
  }

  predicate OwnsJobLock(pc: DispatcherPc) {
    pc in {SetFunction, SetArgument, Publish, ClearFunction, ClearArgument, Release}
  }

  /** Between taking a sleeping worker's lock and letting go of that worker. */
  predicate InHandshake(pc: DispatcherPc) {
    pc in {Got, Wake, Undo, Await, Run}
  }

  /** The dispatcher's next step can be taken: the lock it wants, if any, can be had. */
  ghost predicate DispatcherEnabled(s: Pool, d: nat)
    requires Shaped(s) && d < |s.dispatchers|
  {
    var x := s.dispatchers[d];
    match x.pc
    case Outside => false
    case Odd => false
    case Claim => s.jobs[x.at].owner == Free && s.jobs[x.at].condition == Available
    case Try => s.locks[x.at].owner == Free && s.locks[x.at].condition == Sleeping
    case Await => s.locks[x.at].owner == Free && s.locks[x.at].condition == Awake
    case WaitDone => s.jobs[x.slot].owner == Free && s.jobs[x.slot].condition == Completed
    case _ => true
  }

  ghost function AfterClaim(s: Pool, d: nat): Pool
    requires Shaped(s) && d < |s.dispatchers| && s.dispatchers[d].pc == Claim
  {
    var x := s.dispatchers[d];
    s.(jobs := s.jobs[x.at := s.jobs[x.at].(owner := ByDispatcher(d), holder := Some(d))],
       dispatchers := s.dispatchers[d := x.(pc := SetFunction, slot := x.at, started := 0)])
  }

  ghost function AfterSetFunction(s: Pool, d: nat): Pool
    requires Shaped(s) && d < |s.dispatchers| && s.dispatchers[d].pc == SetFunction
  {
    var x := s.dispatchers[d];
    s.(jobs := s.jobs[x.slot := s.jobs[x.slot].(jobFunction := Some(FunctionOf(x.call)))],
       dispatchers := s.dispatchers[d := x.(pc := SetArgument)])
  }

  ghost function AfterSetArgument(s: Pool, d: nat): Pool
    requires Shaped(s) && d < |s.dispatchers| && s.dispatchers[d].pc == SetArgument
  {
    var x := s.dispatchers[d];
    s.(jobs := s.jobs[x.slot := s.jobs[x.slot].(argument := Some(ArgumentOf(x.call)))],
       dispatchers := s.dispatchers[d := x.(pc := Publish)])
  }

  ghost function AfterPublish(s: Pool, d: nat): Pool
    requires Shaped(s) && d < |s.dispatchers| && s.dispatchers[d].pc == Publish
  {
    var x := s.dispatchers[d];
    s.(jobs := s.jobs[x.slot := s.jobs[x.slot].(owner := Free, condition := Executing)],
       dispatchers := s.dispatchers[d := x.(pc := While)])
  }

  ghost function AfterWhile(s: Pool, d: nat): Pool
    requires Shaped(s) && d < |s.dispatchers| && s.dispatchers[d].pc == While
  {
    var x := s.dispatchers[d];
    s.(dispatchers := s.dispatchers[d :=
         if s.jobs[x.slot].condition == Executing && x.started < s.live then x.(pc := For, at := 0)
         else x.(pc := if x.started == 0 then Odd else WaitDone)])
  }

  ghost function AfterFor(s: Pool, d: nat): Pool
    requires Shaped(s) && d < |s.dispatchers| && s.dispatchers[d].pc == For
  {
    var x := s.dispatchers[d];
    s.(dispatchers := s.dispatchers[d :=
         x.(pc := if x.at < s.Size() && s.jobs[x.slot].condition == Executing then Try else While)])
  }

  ghost function AfterTry(s: Pool, d: nat): Pool
    requires Shaped(s) && d < |s.dispatchers| && s.dispatchers[d].pc == Try
  {
    var x := s.dispatchers[d];
    s.(locks := s.locks[x.at := s.locks[x.at].(owner := ByDispatcher(d), partner := Some(d))],
       dispatchers := s.dispatchers[d := x.(pc := Got)])
  }

  ghost function AfterGot(s: Pool, d: nat): Pool
    requires Shaped(s) && d < |s.dispatchers| && s.dispatchers[d].pc == Got
  {
    var x := s.dispatchers[d];
    s.(dispatchers := s.dispatchers[d :=
         x.(pc := if s.jobs[x.slot].condition == Executing then Wake else Undo)])
  }

  ghost function AfterWake(s: Pool, d: nat): Pool
    requires Shaped(s) && d < |s.dispatchers| && s.dispatchers[d].pc == Wake
  {
    var x := s.dispatchers[d];
    s.(queue := s.queue[x.at := Some(x.slot)],
       workers := s.workers[x.at := s.workers[x.at].(wake := x.call)],
       locks := s.locks[x.at := s.locks[x.at].(owner := Free, condition := Wakeup)],
       dispatchers := s.dispatchers[d := x.(pc := Await)])
  }

  ghost function AfterAwait(s: Pool, d: nat): Pool
    requires Shaped(s) && d < |s.dispatchers| && s.dispatchers[d].pc == Await
  {
    var x := s.dispatchers[d];
    s.(locks := s.locks[x.at := s.locks[x.at].(owner := ByDispatcher(d))],
       dispatchers := s.dispatchers[d := x.(pc := Run)])
  }

  ghost function AfterRun(s: Pool, d: nat): Pool
    requires Shaped(s) && d < |s.dispatchers| && s.dispatchers[d].pc == Run
  {
    var x := s.dispatchers[d];
    s.(locks := s.locks[x.at := s.locks[x.at].(owner := Free, condition := RunningJob, partner := None)],
       dispatchers := s.dispatchers[d := x.(pc := Counted, started := x.started + 1)])
  }

  ghost function AfterCounted(s: Pool, d: nat): Pool
    requires Shaped(s) && d < |s.dispatchers| && s.dispatchers[d].pc == Counted
  {
    var x := s.dispatchers[d];
    s.(dispatchers := s.dispatchers[d :=
         if x.started >= s.live then x.(pc := if x.started == 0 then Odd else WaitDone)
         else x.(pc := For, at := x.at + 1)])
  }

  ghost function AfterUndo(s: Pool, d: nat): Pool
    requires Shaped(s) && d < |s.dispatchers| && s.dispatchers[d].pc == Undo
  {
    var x := s.dispatchers[d];
    s.(locks := s.locks[x.at := s.locks[x.at].(owner := Free, condition := Sleeping, partner := None)],
       dispatchers := s.dispatchers[d := x.(pc := For, at := x.at + 1)])
  }

  ghost function AfterWaitDone(s: Pool, d: nat): Pool
    requires Shaped(s) && d < |s.dispatchers| && s.dispatchers[d].pc == WaitDone
  {
    var x := s.dispatchers[d];
    s.(jobs := s.jobs[x.slot := s.jobs[x.slot].(owner := ByDispatcher(d))],
       dispatchers := s.dispatchers[d := x.(pc := ClearFunction)])
  }

  ghost function AfterClearFunction(s: Pool, d: nat): Pool
    requires Shaped(s) && d < |s.dispatchers| && s.dispatchers[d].pc == ClearFunction
  {
    var x := s.dispatchers[d];
    s.(jobs := s.jobs[x.slot := s.jobs[x.slot].(jobFunction := None)],
       dispatchers := s.dispatchers[d := x.(pc := ClearArgument)])
  }

  ghost function AfterClearArgument(s: Pool, d: nat): Pool
    requires Shaped(s) && d < |s.dispatchers| && s.dispatchers[d].pc == ClearArgument
  {
    var x := s.dispatchers[d];
    s.(jobs := s.jobs[x.slot := s.jobs[x.slot].(argument := None)],
       dispatchers := s.dispatchers[d := x.(pc := Release)])
  }

  ghost function AfterRelease(s: Pool, d: nat): Pool
    requires Shaped(s) && d < |s.dispatchers| && s.dispatchers[d].pc == Release
  {
    var x := s.dispatchers[d];
    s.(jobs := s.jobs[x.slot := s.jobs[x.slot].(owner := Free, condition := Available, holder := None)],
       dispatchers := s.dispatchers[d := x.(pc := Outside)])
  }

  ghost function DispatcherNext(s: Pool, d: nat): Pool
    requires Shaped(s) && d < |s.dispatchers| && DispatcherEnabled(s, d)
  {
    match s.dispatchers[d].pc
    case Claim => AfterClaim(s, d)
    case SetFunction => AfterSetFunction(s, d)
    case SetArgument => AfterSetArgument(s, d)
    case Publish => AfterPublish(s, d)
    case While => AfterWhile(s, d)
    case For => AfterFor(s, d)
    case Try => AfterTry(s, d)
    case Got => AfterGot(s, d)
    case Wake => AfterWake(s, d)
    case Await => AfterAwait(s, d)
    case Run => AfterRun(s, d)
    case Counted => AfterCounted(s, d)
    case Undo => AfterUndo(s, d)
    case WaitDone => AfterWaitDone(s, d)
    case ClearFunction => AfterClearFunction(s, d)
    case ClearArgument => AfterClearArgument(s, d)
    case Release => AfterRelease(s, d)
  }

  /** A lock attempt that gives up, which a try lock and a timed lock may always do. */
  ghost predicate AttemptFails(s: Pool, d: nat, s': Pool)
    requires Shaped(s) && d < |s.dispatchers|
  {
    var x := s.dispatchers[d];
    || (x.pc == Claim && s' == s.(dispatchers := s.dispatchers[d := x.(at := (x.at + 1) % s.Size())]))
    || (x.pc == Try && s' == s.(dispatchers := s.dispatchers[d := x.(pc := For, at := x.at + 1)]))
  }

  /** A new call of threadFunction:argument: that finds live workers and starts to look for a slot. */
  ghost predicate Begin(s: Pool, d: nat, s': Pool)
    requires Shaped(s) && d < |s.dispatchers|
  {
    && s.dispatchers[d].pc == Outside && 0 < s.live && 0 < s.Size()
    && s' == s.(dispatchers := s.dispatchers[d := Dispatcher(Claim, s.nextCall, 0, 0, 0)],
                nextCall := s.nextCall + 1)
  }

  ghost predicate WorkerEnabled(s: Pool, w: nat)
    requires Shaped(s) && w < s.Size()
  {
    var l := s.locks[w];
    match s.workers[w].pc
    case StartingUp => l.owner == Free && l.condition == Starting
    case Asleep => l.owner == Free && l.condition == Wakeup
    case Woken => s.jobs[s.queue[w].value].owner == Free
    case LeaveLock => s.jobs[s.workers[w].current.value].owner == Free
    case AwaitRun => l.owner == Free && l.condition == RunningJob
    case _ => true
  }

  ghost function AfterNotStarted(s: Pool, w: nat): Pool
    requires Shaped(s) && w < s.Size() && s.workers[w].pc == NotStarted
  {
    var x := s.workers[w];
    s.(live := s.live + 1, workers := s.workers[w := x.(pc := StartingUp)])
  }

  ghost function AfterStartingUp(s: Pool, w: nat): Pool
    requires Shaped(s) && w < s.Size() && s.workers[w].pc == StartingUp
  {
    var x := s.workers[w];
    var l := s.locks[w];
    s.(locks := s.locks[w := l.(owner := ByWorker(w))], workers := s.workers[w := x.(pc := Started)])
  }

  ghost function AfterStarted(s: Pool, w: nat): Pool
    requires Shaped(s) && w < s.Size() && s.workers[w].pc == Started
  {
    var x := s.workers[w];
    var l := s.locks[w];
    s.(locks := s.locks[w := l.(owner := Free, condition := Sleeping)],
       workers := s.workers[w := x.(pc := Asleep)])
  }

  ghost function AfterAsleep(s: Pool, w: nat): Pool
    requires Shaped(s) && w < s.Size() && s.workers[w].pc == Asleep
  {
    var x := s.workers[w];
    var l := s.locks[w];
    s.(locks := s.locks[w := l.(owner := ByWorker(w))], workers := s.workers[w := x.(pc := Woken)])
  }

  ghost function AfterWoken(s: Pool, w: nat): Pool
    requires Shaped(s) && w < s.Size() && s.workers[w].pc == Woken
  {
    var x := s.workers[w];
    var j := s.queue[w].value;
    s.(jobs := s.jobs[j := s.jobs[j].(owner := ByWorker(w))], workers := s.workers[w := x.(pc := Join)])
  }

  ghost function AfterJoin(s: Pool, w: nat): Pool
    requires Shaped(s) && w < s.Size() && s.workers[w].pc == Join
  {
    var x := s.workers[w];
    var j := s.queue[w].value;
    if s.jobs[j].condition == Executing then
      s.(jobs := s.jobs[j := s.jobs[j].(active := s.jobs[j].active + 1)],
         workers := s.workers[w := x.(pc := JoinUnlock, current := Some(j))])
    else
      s.(workers := s.workers[w := x.(pc := JoinUnlock)])
  }

  ghost function AfterJoinUnlock(s: Pool, w: nat): Pool
    requires Shaped(s) && w < s.Size() && s.workers[w].pc == JoinUnlock
  {
    var x := s.workers[w];
    var j := s.queue[w].value;
    s.(jobs := s.jobs[j := s.jobs[j].(owner := Free)], workers := s.workers[w := x.(pc := WakeUnlock)])
  }

  ghost function AfterWakeUnlock(s: Pool, w: nat): Pool
    requires Shaped(s) && w < s.Size() && s.workers[w].pc == WakeUnlock
  {
    var x := s.workers[w];
    var l := s.locks[w];
    s.(queue := s.queue[w := None], locks := s.locks[w := l.(owner := Free, condition := Awake)],
       workers := s.workers[w := x.(pc := if x.current.Some? then ReadFunction else AwaitRun)])
  }

  ghost function AfterReadFunction(s: Pool, w: nat): Pool
    requires Shaped(s) && w < s.Size() && s.workers[w].pc == ReadFunction
  {
    var x := s.workers[w];
    s.(workers := s.workers[w := x.(pc := ReadArgument, jobFunction := s.jobs[x.current.value].jobFunction)])
  }

  ghost function AfterReadArgument(s: Pool, w: nat): Pool
    requires Shaped(s) && w < s.Size() && s.workers[w].pc == ReadArgument
  {
    var x := s.workers[w];
    s.(workers := s.workers[w := x.(pc := Inside, argument := s.jobs[x.current.value].argument)])
  }

  ghost function AfterInside(s: Pool, w: nat): Pool
    requires Shaped(s) && w < s.Size() && s.workers[w].pc == Inside
  {
    var x := s.workers[w];
    s.(workers := s.workers[w := x.(pc := LeaveLock)])
  }

  ghost function AfterLeaveLock(s: Pool, w: nat): Pool
    requires Shaped(s) && w < s.Size() && s.workers[w].pc == LeaveLock
  {
    var x := s.workers[w];
    var j := x.current.value;
    s.(jobs := s.jobs[j := s.jobs[j].(owner := ByWorker(w))], workers := s.workers[w := x.(pc := Leave)])
  }

  ghost function AfterLeave(s: Pool, w: nat): Pool
    requires Shaped(s) && w < s.Size() && s.workers[w].pc == Leave
  {
    var x := s.workers[w];
    var j := x.current.value;
    var left := if s.jobs[j].active == 0 then 0 else s.jobs[j].active - 1;
    s.(jobs := s.jobs[j := s.jobs[j].(active := left, owner := Free,
                                      condition := if left == 0 then Completed else Finishing)],
       workers := s.workers[w := x.(pc := AwaitRun, current := None)])
  }

  ghost function AfterAwaitRun(s: Pool, w: nat): Pool
    requires Shaped(s) && w < s.Size() && s.workers[w].pc == AwaitRun
  {
    var x := s.workers[w];
    var l := s.locks[w];
    s.(locks := s.locks[w := l.(owner := ByWorker(w))], workers := s.workers[w := x.(pc := Ran)])
  }

  ghost function AfterRan(s: Pool, w: nat): Pool
    requires Shaped(s) && w < s.Size() && s.workers[w].pc == Ran
  {
    var x := s.workers[w];
    var l := s.locks[w];
    s.(locks := s.locks[w := l.(owner := Free, condition := Sleeping)],
       workers := s.workers[w := x.(pc := Asleep)])
  }

  ghost function WorkerNext(s: Pool, w: nat): Pool
    requires Shaped(s) && w < s.Size() && WorkerEnabled(s, w)
  {
    match s.workers[w].pc
    case NotStarted => AfterNotStarted(s, w)
    case StartingUp => AfterStartingUp(s, w)
    case Started => AfterStarted(s, w)
    case Asleep => AfterAsleep(s, w)
    case Woken => AfterWoken(s, w)
    case Join => AfterJoin(s, w)
    case JoinUnlock => AfterJoinUnlock(s, w)
    case WakeUnlock => AfterWakeUnlock(s, w)
    case ReadFunction => AfterReadFunction(s, w)
    case ReadArgument => AfterReadArgument(s, w)
    case Inside => AfterInside(s, w)
    case LeaveLock => AfterLeaveLock(s, w)
    case Leave => AfterLeave(s, w)
    case AwaitRun => AfterAwaitRun(s, w)
    case Ran => AfterRan(s, w)
  }

  ghost predicate Step(s: Pool, s': Pool)
    requires Shaped(s)
  {
    || (exists d: nat :: d < |s.dispatchers| && DispatcherEnabled(s, d) && s' == DispatcherNext(s, d))
    || (exists w: nat :: w < s.Size() && WorkerEnabled(s, w) && s' == WorkerNext(s, w))
    || (exists d: nat :: d < |s.dispatchers| && AttemptFails(s, d, s'))
    || (exists d: nat :: d < |s.dispatchers| && Begin(s, d, s'))
  }

  ghost predicate Initial(s: Pool) {
    && Shaped(s) && s.live == 0
    && (forall d :: 0 <= d < |s.dispatchers| ==> s.dispatchers[d] == Dispatcher(Outside, 0, 0, 0, 0))
    && (forall w :: 0 <= w < s.Size() ==> s.workers[w].pc == NotStarted && s.workers[w].current == None)
    && (forall w :: 0 <= w < s.Size() ==> s.locks[w] == ThreadLock(Starting, Free, None) && s.queue[w] == None)
    && (forall j :: 0 <= j < s.Size() ==> s.jobs[j] == Job(Available, Free, 0, None, None, None))
  }

  // ---------------------------------------------------------------------------------------
  // The invariant
  // ---------------------------------------------------------------------------------------

  ghost function Joined(s: Pool, j: nat): nat {
    CountIf((x: Worker) => x.current == Some(j), s.workers)
  }

  ghost function NotLive(s: Pool): nat {
    CountIf((x: Worker) => x.pc == NotStarted, s.workers)
  }

  /** If the job is still Executing then somebody is working on it. */
  ghost predicate SomebodyJoined(job: Job) {
    job.condition == Executing ==> 0 < job.active
  }

  /** Nobody has worked on the job yet. */
  ghost predicate Untouched(job: Job) {
    job.condition == Executing && job.active == 0
  }

  ghost predicate DispatcherOk(s: Pool, d: nat)
    requires Shaped(s) && d < |s.dispatchers|
  {
    var x := s.dispatchers[d];
    && (x.pc != Outside ==> x.call < s.nextCall && 0 < s.live)
    && x.pc != Odd
    && (HoldsSlot(x.pc) ==> SlotOk(s, d))
    && (InHandshake(x.pc) ==> HandshakeOk(s, d))
    && (x.pc in {Counted, WaitDone, ClearFunction, ClearArgument, Release} ==> 0 < x.started)
    && x.started <= s.live
    && (x.pc in {For, Try, Got, Wake, Await, Run, Undo} ==> x.started < s.live)
    && (x.pc in {SetFunction, SetArgument, Publish} ==> x.started == 0)
  }

  ghost predicate SlotOk(s: Pool, d: nat)
    requires Shaped(s) && d < |s.dispatchers| && HoldsSlot(s.dispatchers[d].pc)
  {
    var x := s.dispatchers[d];
    var job := s.jobs[x.slot];
    && job.holder == Some(d)
    && (OwnsJobLock(x.pc) <==> job.owner == ByDispatcher(d))
    && job.jobFunction == (if x.pc in {SetFunction, ClearArgument, Release} then None else Some(FunctionOf(x.call)))
    && job.argument == (if x.pc in {SetFunction, SetArgument, Release} then None else Some(ArgumentOf(x.call)))
    && (x.pc in {SetFunction, SetArgument, Publish} ==> job.condition == Available)
    && (x.pc in {ClearFunction, ClearArgument, Release} ==> job.condition == Completed)
    && (JobIsOut(x.pc) ==> job.condition != Available)
    && (x.pc == Undo ==> job.condition != Executing)
    && (JobIsOut(x.pc) && 0 < x.started ==> SomebodyJoined(job))
    && (x.pc in {While, For, Try, Got, Wake} && x.started == 0 ==> Untouched(job))
    && (x.pc == Undo ==> 0 < x.started)
  }

  ghost predicate HandshakeOk(s: Pool, d: nat)
    requires Shaped(s) && d < |s.dispatchers|
    requires InHandshake(s.dispatchers[d].pc) && HoldsSlot(s.dispatchers[d].pc)
  {
    var x := s.dispatchers[d];
    var l := s.locks[x.at];
    var job := s.jobs[x.slot];
    && l.partner == Some(d)
    && (x.pc in {Got, Wake, Undo} ==> l.condition == Sleeping && l.owner == ByDispatcher(d))
    && (x.pc == Run ==> l.condition == Awake && l.owner == ByDispatcher(d) && SomebodyJoined(job))
    && (x.pc == Await ==>
          && l.condition in {Wakeup, Awake} && l.owner != ByDispatcher(d)
          && s.workers[x.at].wake == x.call
          && (l.condition == Wakeup ==> s.queue[x.at] == Some(x.slot))
          && (l.condition == Awake || s.workers[x.at].pc in {JoinUnlock, WakeUnlock} ==> SomebodyJoined(job))
          && (l.condition == Wakeup && s.workers[x.at].pc !in {JoinUnlock, WakeUnlock} && x.started == 0 ==>
                Untouched(job)))
  }

  /** What the lock, the queue entry and the history of worker w look like at each point of its loop. */
  ghost predicate LockOk(s: Pool, w: nat)
    requires Shaped(s) && w < s.Size()
  {
    var x := s.workers[w];
    var l := s.locks[w];
    && (l.partner.Some? ==> l.partner.value < |s.dispatchers|
                            && InHandshake(s.dispatchers[l.partner.value].pc)
                            && s.dispatchers[l.partner.value].at == w)
    && (forall d: nat :: l.owner == ByDispatcher(d) ==> l.partner == Some(d))
    && match x.pc
       case NotStarted => l == ThreadLock(Starting, Free, None)
       case StartingUp => l == ThreadLock(Starting, Free, None)
       case Started => l == ThreadLock(Starting, ByWorker(w), None)
       case Asleep =>
         || (l.condition == Sleeping && (l.partner.None? ==> l.owner == Free)
             && (l.partner.Some? ==> l.owner == ByDispatcher(l.partner.value)))
         || (l.condition == Wakeup && l.owner == Free && l.partner.Some?)
       case Woken => l.condition == Wakeup && l.owner == ByWorker(w) && l.partner.Some?
       case Join => l.condition == Wakeup && l.owner == ByWorker(w) && l.partner.Some?
       case JoinUnlock => l.condition == Wakeup && l.owner == ByWorker(w) && l.partner.Some?
       case WakeUnlock => l.condition == Wakeup && l.owner == ByWorker(w) && l.partner.Some?
       case Ran => l == ThreadLock(RunningJob, ByWorker(w), None)
       case _ =>
         || (l.condition == Awake && l.partner.Some? && l.owner in {Free, ByDispatcher(l.partner.value)})
         || l == ThreadLock(RunningJob, Free, None)
  }

  ghost predicate WorkerOk(s: Pool, w: nat)
    requires Shaped(s) && w < s.Size()
  {
    var x := s.workers[w];
    && LockOk(s, w)
    && (s.queue[w].Some? <==> s.locks[w].condition == Wakeup)
    && (x.current.Some? ==> x.pc in {JoinUnlock, WakeUnlock, ReadFunction, ReadArgument, Inside, LeaveLock, Leave})
    && (x.current.Some? && x.pc in {JoinUnlock, WakeUnlock} ==> x.current == s.queue[w])
    && (x.current.Some? ==> WorkOk(s, w))
    && (x.pc in {Join, JoinUnlock} ==> s.jobs[s.queue[w].value].owner == ByWorker(w))
    && (x.pc == Leave ==> s.jobs[x.current.value].owner == ByWorker(w))
  }

  /** A worker with a current job works for the call that woke it, and that call is still waiting. */
  ghost predicate WorkOk(s: Pool, w: nat)
    requires Shaped(s) && w < s.Size() && s.workers[w].current.Some?
  {
    var x := s.workers[w];
    var job := s.jobs[x.current.value];
    && job.condition in {Executing, Finishing}
    && job.holder.Some? && job.holder.value < |s.dispatchers|
    && JobIsOut(s.dispatchers[job.holder.value].pc)
    && s.dispatchers[job.holder.value].call == x.wake
    && (x.pc in {ReadArgument, Inside} ==> x.jobFunction == Some(FunctionOf(x.wake)))
    && (x.pc == Inside ==> x.argument == Some(ArgumentOf(x.wake)))
  }

  ghost predicate JobOk(s: Pool, j: nat)
    requires Shaped(s) && j < s.Size()
  {
    var job := s.jobs[j];
    && job.active == Joined(s, j)
    && (job.holder == None ==> job == Job(Available, Free, 0, None, None, None))
    && (job.holder.Some? ==> job.holder.value < |s.dispatchers|
                             && HoldsSlot(s.dispatchers[job.holder.value].pc)
                             && s.dispatchers[job.holder.value].slot == j)
    && (forall d: nat :: job.owner == ByDispatcher(d) ==> job.holder == Some(d))
    && (forall w: nat :: job.owner == ByWorker(w) ==>
          && w < s.Size()
          && (|| (s.workers[w].pc in {Join, JoinUnlock} && s.queue[w] == Some(j))
              || (s.workers[w].pc == Leave && s.workers[w].current == Some(j))))
    && (job.condition in {Available, Completed} ==> job.active == 0)
    && (job.condition == Finishing ==> 0 < job.active)
  }

  ghost predicate Inv(s: Pool) {
    && Shaped(s)
    && (forall d :: 0 <= d < |s.dispatchers| ==> DispatcherOk(s, d))
    && (forall w :: 0 <= w < s.Size() ==> WorkerOk(s, w))
    && (forall j :: 0 <= j < s.Size() ==> JobOk(s, j))
    && s.live + NotLive(s) == s.Size()
  }
}
