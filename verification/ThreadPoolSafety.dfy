/** What the thread pool guarantees in every state of every run (Source/RKThreadPool.m:221-363). */
module ThreadPoolSafety {
  import opened Base
  import opened ThreadPool
  import opened ThreadPoolSteps

  /** A run of a pool that is never told to stop. */
  ghost predicate IsRun(run: seq<Pool>) {
    && run != [] && Initial(run[0])
    && forall i :: 0 <= i < |run| - 1 ==> StepAt(run, i)
  }

  ghost predicate StepAt(run: seq<Pool>, i: nat)
    requires i + 1 < |run|
  {
    Next(run[i], run[i + 1])
  }

  ghost predicate Next(s: Pool, s': Pool) {
    Shaped(s) && Step(s, s')
  }

  lemma InitialInv(s: Pool)
    requires Initial(s)
    ensures Inv(s)
  {
    CountIfAll((x: Worker) => x.pc == NotStarted, s.workers);
    forall j: nat
      ensures Joined(s, j) == 0
    {
      if Joined(s, j) > 0 {
        var w := CountIfWitness((x: Worker) => x.current == Some(j), s.workers);
      }
    }
  }

  lemma StepKeepsInv(s: Pool, s': Pool)
    requires Inv(s) && Next(s, s')
    ensures Inv(s')
  {
    if d: nat :| d < |s.dispatchers| && DispatcherEnabled(s, d) && s' == DispatcherNext(s, d) {
      DispatcherStepKeeps(s, d);
    } else if w: nat :| w < s.Size() && WorkerEnabled(s, w) && s' == WorkerNext(s, w) {
      WorkerStepKeeps(s, w);
    } else if d: nat :| d < |s.dispatchers| && AttemptFails(s, d, s') {
      AttemptFailsKeeps(s, s', d);
    } else {
      var d: nat :| d < |s.dispatchers| && Begin(s, d, s');
      BeginKeeps(s, s', d);
    }
  }

  /** The invariant holds in every reachable state. */
  lemma {:induction false} RunInv(run: seq<Pool>, i: nat)
    requires IsRun(run) && i < |run|
    ensures Inv(run[i])
  {
    if i == 0 {
      InitialInv(run[0]);
    } else {
      RunInv(run, i - 1);
      RunStepKeepsInv(run, i - 1);
    }
  }

  lemma RunStepKeepsInv(run: seq<Pool>, i: nat)
    requires IsRun(run) && i + 1 < |run| && Inv(run[i])
    ensures Inv(run[i + 1])
  {
    assert StepAt(run, i);
    StepKeepsInv(run[i], run[i + 1]);
  }

  // ------------------------------------------------------------------ arguments do not escape

  /** Call c was made and threadFunction:argument: has returned from it. */
  ghost predicate Returned(s: Pool, c: nat) {
    c < s.nextCall && forall d :: 0 <= d < |s.dispatchers| && s.dispatchers[d].call == c ==> s.dispatchers[d].pc == Outside
  }

  /** Worker w has, or is about to read, the function or the argument of call c. */
  ghost predicate Uses(s: Pool, w: nat, c: nat)
    requires Shaped(s) && w < s.Size()
  {
    var x := s.workers[w];
    || (x.current.Some? && s.jobs[x.current.value].jobFunction == Some(FunctionOf(c)))
    || (x.current.Some? && s.jobs[x.current.value].argument == Some(ArgumentOf(c)))
    || (x.pc in {ReadArgument, Inside} && x.jobFunction == Some(FunctionOf(c)))
    || (x.pc == Inside && x.argument == Some(ArgumentOf(c)))
  }

  lemma NotUsedOnceReturned(s: Pool, w: nat, c: nat)
    requires Inv(s) && w < s.Size() && Returned(s, c)
    ensures !Uses(s, w, c)
  {
    assert WorkerOk(s, w);
    if s.workers[w].current.Some? {
      var j := s.workers[w].current.value;
      assert JobOk(s, j) && DispatcherOk(s, s.jobs[j].holder.value);
    }
  }

  lemma DispatcherKeepsReturned(s: Pool, d: nat, c: nat)
    requires Inv(s) && d < |s.dispatchers| && DispatcherEnabled(s, d) && Returned(s, c)
    ensures Returned(DispatcherNext(s, d), c)
  {
    assert s.dispatchers[d].pc != Outside && s.dispatchers[d].call != c;
    DispatcherKeepsCallers(s, d);
  }

  lemma WorkerKeepsReturned(s: Pool, w: nat, c: nat)
    requires Shaped(s) && w < s.Size() && WorkerEnabled(s, w) && Returned(s, c)
    ensures Returned(WorkerNext(s, w), c)
  {
    WorkerKeepsCallers(s, w);
  }

  lemma ReturnedStays(s: Pool, s': Pool, c: nat)
    requires Inv(s) && Next(s, s') && Returned(s, c)
    ensures Returned(s', c)
  {
    if d: nat :| d < |s.dispatchers| && DispatcherEnabled(s, d) && s' == DispatcherNext(s, d) {
      DispatcherKeepsReturned(s, d, c);
    } else if w: nat :| w < s.Size() && WorkerEnabled(s, w) && s' == WorkerNext(s, w) {
      WorkerKeepsReturned(s, w, c);
    }
  }

  lemma {:induction false} ReturnedForGood(run: seq<Pool>, i: nat, k: nat, c: nat)
    requires IsRun(run) && i <= k < |run| && Returned(run[i], c)
    ensures Returned(run[k], c)
    decreases k
  {
    if i < k {
      ReturnedForGood(run, i, k - 1, c);
      RunStepKeepsReturned(run, k - 1, c);
    }
  }

  lemma RunStepKeepsReturned(run: seq<Pool>, i: nat, c: nat)
    requires IsRun(run) && i + 1 < |run| && Returned(run[i], c)
    ensures Returned(run[i + 1], c)
  {
    RunInv(run, i);
    assert StepAt(run, i);
    ReturnedStays(run[i], run[i + 1], c);
  }

  /**
   Once a call has returned, no worker is inside its function or holds its argument, at that
   moment or at any later one: a stack-allocated argument does not outlive its frame.
   */
  lemma ArgumentDoesNotEscape(run: seq<Pool>, i: nat, k: nat, w: nat, c: nat)
    requires IsRun(run) && i <= k < |run| && Shaped(run[k]) && w < run[k].Size()
    requires Returned(run[i], c)
    ensures !Uses(run[k], w, c)
  {
    RunInv(run, k);
    ReturnedForGood(run, i, k, c);
    NotUsedOnceReturned(run[k], w, c);
  }

  /**
   A worker that calls a job function calls the function of the very call that woke it, with the
   argument of that call, and the caller is still waiting: never NULL, never a later job's.
   */
  lemma CallsWhatItWasWokenFor(run: seq<Pool>, i: nat, w: nat)
    requires IsRun(run) && i < |run| && w < run[i].Size() && run[i].workers[w].pc == Inside
    ensures run[i].workers[w].jobFunction == Some(FunctionOf(run[i].workers[w].wake))
    ensures run[i].workers[w].argument == Some(ArgumentOf(run[i].workers[w].wake))
    ensures exists d :: 0 <= d < |run[i].dispatchers| && run[i].dispatchers[d].call == run[i].workers[w].wake
                        && JobIsOut(run[i].dispatchers[d].pc)
                        && run[i].workers[w].current == Some(run[i].dispatchers[d].slot)
  {
    RunInv(run, i);
    var s := run[i];
    assert WorkerOk(s, w);
    assert JobOk(s, s.workers[w].current.value);
    var d := s.jobs[s.workers[w].current.value].holder.value;
    assert s.dispatchers[d].call == s.workers[w].wake;
  }

  // ------------------------------------------------------------------ the job slots

  /** activeThreadsCount counts the workers that joined and have not left, and bounds the condition. */
  lemma ActiveCount(run: seq<Pool>, i: nat, j: nat)
    requires IsRun(run) && i < |run| && j < |run[i].jobs|
    ensures run[i].jobs[j].active == CountIf((x: Worker) => x.current == Some(j), run[i].workers)
    ensures run[i].jobs[j].condition in {Available, Completed} ==> run[i].jobs[j].active == 0
    ensures run[i].jobs[j].condition == Finishing ==> 0 < run[i].jobs[j].active
  {
    RunInv(run, i);
    assert JobOk(run[i], j);
  }

  /** Job j is over or being wound up, and nobody new is on it. */
  ghost predicate StaysClosed(s: Pool, s': Pool, j: nat) {
    && |s'.jobs| == |s.jobs| && s'.Size() == s.Size() && j < |s.jobs|
    && (forall w :: 0 <= w < s.Size() && s'.workers[w].current == Some(j) ==> s.workers[w].current == Some(j))
    && s'.jobs[j].condition != Executing
    && (s'.jobs[j].condition == Available ==> s'.jobs[j].holder == None)
  }

  lemma DispatcherKeepsClosed(s: Pool, d: nat, j: nat)
    requires Inv(s) && d < |s.dispatchers| && DispatcherEnabled(s, d) && j < s.Size()
    requires s.jobs[j].condition in {Finishing, Completed}
    ensures StaysClosed(s, DispatcherNext(s, d), j)
  {
    assert DispatcherOk(s, d);
  }

  lemma WorkerKeepsClosed(s: Pool, v: nat, j: nat)
    requires Inv(s) && v < s.Size() && WorkerEnabled(s, v) && j < s.Size()
    requires s.jobs[j].condition in {Finishing, Completed}
    ensures StaysClosed(s, WorkerNext(s, v), j)
  {
    assert WorkerOk(s, v);
  }

  lemma StepKeepsClosed(s: Pool, s': Pool, j: nat)
    requires Inv(s) && Next(s, s') && j < s.Size()
    requires s.jobs[j].condition in {Finishing, Completed}
    ensures StaysClosed(s, s', j)
  {
    if d: nat :| d < |s.dispatchers| && DispatcherEnabled(s, d) && s' == DispatcherNext(s, d) {
      DispatcherKeepsClosed(s, d, j);
    } else if v: nat :| v < s.Size() && WorkerEnabled(s, v) && s' == WorkerNext(s, v) {
      WorkerKeepsClosed(s, v, j);
    }
  }

  lemma RunStepKeepsClosed(run: seq<Pool>, i: nat, j: nat)
    requires IsRun(run) && i + 1 < |run| && j < |run[i].jobs|
    requires run[i].jobs[j].condition in {Finishing, Completed}
    ensures StaysClosed(run[i], run[i + 1], j)
  {
    RunInv(run, i);
    assert StepAt(run, i);
    StepKeepsClosed(run[i], run[i + 1], j);
  }

  /** The slot was given back at some point after state i, up to state k. */
  ghost predicate GivenBack(run: seq<Pool>, i: nat, k: nat, j: nat) {
    exists m :: i < m <= k < |run| && j < |run[m].jobs| && run[m].jobs[j].condition == Available
  }

  /** Once a worker has left a job, nobody joins it until the slot has been given back. */
  lemma {:induction false} ClosedAfterFirstLeave(run: seq<Pool>, i: nat, k: nat, j: nat)
    requires IsRun(run) && i <= k < |run| && j < |run[i].jobs|
    requires run[i].jobs[j].condition in {Finishing, Completed} && !GivenBack(run, i, k, j)
    ensures |run[k].jobs| == |run[i].jobs| && run[k].Size() == run[i].Size()
    ensures run[k].jobs[j].condition in {Finishing, Completed}
    ensures forall w :: 0 <= w < run[k].Size() && run[k].workers[w].current == Some(j) ==> run[i].workers[w].current == Some(j)
    decreases k
  {
    if i < k {
      ClosedAfterFirstLeave(run, i, k - 1, j);
      RunStepKeepsClosed(run, k - 1, j);
      assert run[k].jobs[j].condition != Available;
    }
  }

  /** The first worker woken for a call always joins it. */
  lemma FirstWokenJoins(run: seq<Pool>, i: nat, d: nat, w: nat)
    requires IsRun(run) && i < |run| && d < |run[i].dispatchers| && w < run[i].Size()
    requires run[i].dispatchers[d].pc == Await && run[i].dispatchers[d].at == w && run[i].dispatchers[d].started == 0
    requires run[i].workers[w].pc == Join
    ensures Shaped(run[i]) && AfterJoin(run[i], w).workers[w].current == Some(run[i].dispatchers[d].slot)
  {
    RunInv(run, i);
    assert DispatcherOk(run[i], d);
    assert WorkerOk(run[i], w);
  }

  /** The branch for "no job threads were started" is never taken. */
  lemma OddIsUnreachable(run: seq<Pool>, i: nat, d: nat)
    requires IsRun(run) && i < |run| && d < |run[i].dispatchers|
    ensures run[i].dispatchers[d].pc != Odd
  {
    RunInv(run, i);
    assert DispatcherOk(run[i], d);
  }

  /** A dispatcher that waits for Completed has Completed already, or a worker still on the job. */
  lemma WaiterHasWorker(run: seq<Pool>, i: nat, d: nat)
    requires IsRun(run) && i < |run| && d < |run[i].dispatchers| && run[i].dispatchers[d].pc == WaitDone
    ensures run[i].dispatchers[d].slot < |run[i].jobs|
    ensures || run[i].jobs[run[i].dispatchers[d].slot].condition == Completed
            || exists w :: 0 <= w < run[i].Size() && run[i].workers[w].current == Some(run[i].dispatchers[d].slot)
  {
    RunInv(run, i);
    var s := run[i];
    assert DispatcherOk(s, d);
    var j := s.dispatchers[d].slot;
    assert JobOk(s, j);
    if s.jobs[j].condition != Completed {
      var w := CountIfWitness((x: Worker) => x.current == Some(j), s.workers);
    }
  }

  /** The conditions asserted at lines 247-251 of Source/RKThreadPool.m: a claimed slot is pristine. */
  lemma ClaimedSlotIsPristine(run: seq<Pool>, i: nat, d: nat)
    requires IsRun(run) && i < |run| && d < |run[i].dispatchers| && run[i].dispatchers[d].pc == SetFunction
    ensures run[i].dispatchers[d].slot < |run[i].jobs|
    ensures run[i].jobs[run[i].dispatchers[d].slot] == Job(Available, ByDispatcher(d), 0, None, None, Some(d))
  {
    RunInv(run, i);
    assert DispatcherOk(run[i], d);
    assert JobOk(run[i], run[i].dispatchers[d].slot);
  }

  /** The condition asserted at line 351, and that the decrement at line 352 does not underflow. */
  lemma LeavingWorkerIsCounted(run: seq<Pool>, i: nat, w: nat)
    requires IsRun(run) && i < |run| && w < run[i].Size() && run[i].workers[w].pc == Leave
    ensures run[i].workers[w].current.Some? && run[i].workers[w].current.value < |run[i].jobs|
    ensures run[i].jobs[run[i].workers[w].current.value].condition in {Executing, Finishing}
    ensures 0 < run[i].jobs[run[i].workers[w].current.value].active
  {
    RunInv(run, i);
    var s := run[i];
    assert WorkerOk(s, w);
    assert JobOk(s, s.workers[w].current.value);
    CountIfPositive((x: Worker) => x.current == s.workers[w].current, s.workers, w);
  }

  // ------------------------------------------------------------------ the handshake

  /** The one condition a worker's lock may move to from c. */
  function NextCondition(c: ThreadCondition): ThreadCondition {
    match c
    case Starting => Sleeping
    case Sleeping => Wakeup
    case Wakeup => Awake
    case Awake => RunningJob
    case RunningJob => Sleeping
  }

  /** Whose unlock moves the lock of worker w on from condition c: the worker's, or that of the dispatcher waking it. */
  predicate MovedBy(c: ThreadCondition, owner: Owner, w: nat) {
    if c in {Sleeping, Awake} then owner.ByDispatcher? else owner == ByWorker(w)
  }

  /** The lock of worker w keeps its condition, or its owner moves it on by letting go of it. */
  ghost predicate LockMovesOn(s: Pool, s': Pool, w: nat) {
    && w < |s.locks| == |s'.locks|
    && (|| s'.locks[w].condition == s.locks[w].condition
        || (&& s'.locks[w].condition == NextCondition(s.locks[w].condition)
            && MovedBy(s.locks[w].condition, s.locks[w].owner, w) && s'.locks[w].owner == Free))
  }

  lemma DispatcherMovesLock(s: Pool, d: nat, w: nat)
    requires Inv(s) && d < |s.dispatchers| && DispatcherEnabled(s, d) && w < s.Size()
    ensures LockMovesOn(s, DispatcherNext(s, d), w)
  {
    assert DispatcherOk(s, d);
  }

  lemma WorkerMovesLock(s: Pool, v: nat, w: nat)
    requires Inv(s) && v < s.Size() && WorkerEnabled(s, v) && w < s.Size()
    ensures LockMovesOn(s, WorkerNext(s, v), w)
  {
    assert WorkerOk(s, v);
  }

  /**
   The condition of a worker's lock goes round Sleeping, Wakeup, Awake, RunningJob, and moves
   only when the one party entitled to that move, holding the lock, lets go of it.
   */
  lemma HandshakeCycle(s: Pool, s': Pool, w: nat)
    requires Inv(s) && Next(s, s') && w < s.Size()
    ensures LockMovesOn(s, s', w)
  {
    if d: nat :| d < |s.dispatchers| && DispatcherEnabled(s, d) && s' == DispatcherNext(s, d) {
      DispatcherMovesLock(s, d, w);
    } else if v: nat :| v < s.Size() && WorkerEnabled(s, v) && s' == WorkerNext(s, v) {
      WorkerMovesLock(s, v, w);
    }
  }

  /**
   threadQueue[w] is set exactly while one dispatcher and worker w are in a handshake over it;
   no second dispatcher is in a handshake with w; the worker has no other job meanwhile.
   */
  lemma QueueOnlyInHandshake(run: seq<Pool>, i: nat, w: nat, d: nat, e: nat)
    requires IsRun(run) && i < |run| && w < run[i].Size() && |run[i].queue| == |run[i].locks| == run[i].Size()
    requires d < |run[i].dispatchers| && e < |run[i].dispatchers|
    ensures (InHandshake(run[i].dispatchers[d].pc) && InHandshake(run[i].dispatchers[e].pc)
             && run[i].dispatchers[d].at == run[i].dispatchers[e].at) ==> d == e
    ensures run[i].queue[w].Some? <==>
              exists p :: 0 <= p < |run[i].dispatchers|
                          && run[i].dispatchers[p].pc == Await && run[i].dispatchers[p].at == w
                          && run[i].locks[w].condition == Wakeup
                          && run[i].queue[w] == Some(run[i].dispatchers[p].slot)
    ensures run[i].queue[w].Some? ==> run[i].workers[w].current in {None, run[i].queue[w]}
  {
    RunInv(run, i);
    var s := run[i];
    assert DispatcherOk(s, d) && DispatcherOk(s, e);
    assert WorkerOk(s, w);
    if s.queue[w].Some? {
      var p := s.locks[w].partner.value;
      assert DispatcherOk(s, p);
      assert s.dispatchers[p].pc == Await;
    }
  }
}
