/**
 Calls are executed: no call of threadFunction:argument: returns before a worker has been inside its function
 with its argument, and every worker that joined it has been (Source/RKThreadPool.m:255-294, 338-357).
 */
module ThreadPoolExecution {
  import opened Base
  import opened ThreadPool
  import opened ThreadPoolSteps
  import opened ThreadPoolSafety

  /** Worker w is inside the function of call c, with the argument of call c. */
  ghost predicate Executes(s: Pool, w: nat, c: nat) {
    w < s.Size() && s.workers[w].pc == Inside && s.workers[w].jobFunction == Some(FunctionOf(c)) && s.workers[w].argument == Some(ArgumentOf(c))
  }

  /** Before state i, worker w has executed call c. */
  ghost predicate ExecutedBy(run: seq<Pool>, i: nat, w: nat, c: nat) {
    exists k: nat :: k < i && k < |run| && Executes(run[k], w, c)
  }

  ghost predicate Executed(run: seq<Pool>, i: nat, c: nat) {
    exists w: nat :: ExecutedBy(run, i, w, c)
  }

  // ------------------------------------------------------------------ a worker that leaves a job has executed it

  lemma DispatcherKeepsBusyWorker(s: Pool, d: nat, w: nat)
    requires Inv(s) && d < |s.dispatchers| && DispatcherEnabled(s, d) && w < s.Size()
    ensures var s' := DispatcherNext(s, d);
            && s'.Size() == s.Size() && s'.workers[w].pc == s.workers[w].pc && s'.workers[w].current == s.workers[w].current
            && (s.workers[w].current.Some? ==> s'.workers[w].wake == s.workers[w].wake)
  {
    assert DispatcherOk(s, d);
    assert WorkerOk(s, w);
  }

  /** A worker is about to leave its job only from inside the function, and drops its job only in leaving. */
  lemma WorkerLeavesFromInside(s: Pool, v: nat, w: nat)
    requires Inv(s) && v < s.Size() && WorkerEnabled(s, v) && w < s.Size()
    ensures var s' := WorkerNext(s, v);
            && s'.Size() == s.Size() && s'.workers[w].wake == s.workers[w].wake
            && (s'.workers[w].pc in {LeaveLock, Leave} ==>
                  s.workers[w].pc in {Inside, LeaveLock, Leave} && s'.workers[w].current == s.workers[w].current)
            && (s.workers[w].current.Some? && s'.workers[w].current != s.workers[w].current ==> s.workers[w].pc == Leave)
  {
    assert WorkerOk(s, w);
  }

  lemma IdleKeepsWork(s: Pool, s': Pool, d: nat)
    requires Shaped(s) && d < |s.dispatchers| && (Begin(s, d, s') || AttemptFails(s, d, s'))
    ensures s'.workers == s.workers && s'.jobs == s.jobs && |s'.dispatchers| == |s.dispatchers|
    ensures forall e :: 0 <= e < |s.dispatchers| && HoldsSlot(s.dispatchers[e].pc) ==> s'.dispatchers[e].call == s.dispatchers[e].call
    ensures forall e :: 0 <= e < |s.dispatchers| && s'.dispatchers[e].pc == WaitDone ==> s.dispatchers[e].pc == WaitDone
  {
  }

  lemma StepLeavesFromInside(s: Pool, s': Pool, w: nat)
    requires Inv(s) && Next(s, s') && w < s.Size()
    ensures s'.Size() == s.Size()
    ensures s'.workers[w].pc in {LeaveLock, Leave} ==>
              && s.workers[w].pc in {Inside, LeaveLock, Leave} && s.workers[w].current.Some?
              && s'.workers[w].current == s.workers[w].current
    ensures s.workers[w].current.Some? ==> s'.workers[w].wake == s.workers[w].wake
    ensures s.workers[w].current.Some? && s'.workers[w].current != s.workers[w].current ==> s.workers[w].pc == Leave
  {
    if d: nat :| d < |s.dispatchers| && DispatcherEnabled(s, d) && s' == DispatcherNext(s, d) {
      DispatcherKeepsBusyWorker(s, d, w);
    } else if v: nat :| v < s.Size() && WorkerEnabled(s, v) && s' == WorkerNext(s, v) {
      WorkerLeavesFromInside(s, v, w);
    } else {
      var d: nat :| d < |s.dispatchers| && (Begin(s, d, s') || AttemptFails(s, d, s'));
      IdleKeepsWork(s, s', d);
    }
  }

  lemma RunStepLeavesFromInside(run: seq<Pool>, i: nat, w: nat)
    requires IsRun(run) && i + 1 < |run| && w < run[i].Size()
    ensures run[i + 1].Size() == run[i].Size()
    ensures run[i + 1].workers[w].pc in {LeaveLock, Leave} ==>
              run[i].workers[w].pc in {Inside, LeaveLock, Leave} && run[i + 1].workers[w].wake == run[i].workers[w].wake
    ensures run[i].workers[w].current.Some? ==> run[i + 1].workers[w].wake == run[i].workers[w].wake
    ensures run[i].workers[w].current.Some? && run[i + 1].workers[w].current != run[i].workers[w].current ==> run[i].workers[w].pc == Leave
  {
    RunInv(run, i);
    assert StepAt(run, i);
    StepLeavesFromInside(run[i], run[i + 1], w);
  }

  lemma {:induction false} SizeStays(run: seq<Pool>, i: nat, k: nat)
    requires IsRun(run) && i <= k < |run|
    ensures run[k].Size() == run[i].Size()
    decreases k
  {
    if i < k {
      SizeStays(run, i, k - 1);
      RunStepKeepsSize(run, k - 1);
    }
  }

  lemma RunStepKeepsSize(run: seq<Pool>, i: nat)
    requires IsRun(run) && i + 1 < |run|
    ensures run[i + 1].Size() == run[i].Size()
  {
    RunInv(run, i);
    assert StepAt(run, i);
    StepKeepsSize(run[i], run[i + 1]);
  }

  lemma StepKeepsSize(s: Pool, s': Pool)
    requires Next(s, s')
    ensures s'.Size() == s.Size()
  {
    if d: nat :| d < |s.dispatchers| && DispatcherEnabled(s, d) && s' == DispatcherNext(s, d) {
      DispatcherKeepsCallers(s, d);
    } else if w: nat :| w < s.Size() && WorkerEnabled(s, w) && s' == WorkerNext(s, w) {
      WorkerKeepsCallers(s, w);
    }
  }

  /** A worker on its way out of a job has been inside its function, with the argument of the call that woke it. */
  lemma {:induction false} LeavesAfterExecuting(run: seq<Pool>, i: nat, w: nat)
    requires IsRun(run) && i < |run| && w < run[i].Size() && run[i].workers[w].pc in {LeaveLock, Leave}
    ensures ExecutedBy(run, i, w, run[i].workers[w].wake)
  {
    if i > 0 {
      SizeStays(run, i - 1, i);
      RunStepLeavesFromInside(run, i - 1, w);
      if run[i - 1].workers[w].pc == Inside {
        CallsWhatItWasWokenFor(run, i - 1, w);
        assert Executes(run[i - 1], w, run[i].workers[w].wake);
      } else {
        LeavesAfterExecuting(run, i - 1, w);
      }
    }
  }

  // ------------------------------------------------------------------ a job that is over has been executed

  /** Nothing but a worker that leaves the job brings it to Finishing or Completed. */
  ghost predicate ClosedByLeaving(s: Pool, s': Pool, j: nat)
    requires Shaped(s)
  {
    && |s'.jobs| == |s.jobs| && j < |s.jobs| && |s'.dispatchers| == |s.dispatchers|
    && s'.jobs[j].holder == s.jobs[j].holder && s.jobs[j].holder.Some? && s.jobs[j].holder.value < |s.dispatchers|
    && s'.dispatchers[s.jobs[j].holder.value].call == s.dispatchers[s.jobs[j].holder.value].call
    && (s.jobs[j].condition in {Finishing, Completed} || exists w: nat :: w < s.Size() && s.workers[w].pc == Leave && s.workers[w].current == Some(j))
  }

  lemma DispatcherClosesNothing(s: Pool, d: nat, j: nat)
    requires Inv(s) && d < |s.dispatchers| && DispatcherEnabled(s, d) && j < s.Size()
    requires |DispatcherNext(s, d).jobs| == |s.jobs| && DispatcherNext(s, d).jobs[j].condition in {Finishing, Completed}
    ensures ClosedByLeaving(s, DispatcherNext(s, d), j)
  {
    assert DispatcherOk(s, d);
    assert JobOk(s, j);
  }

  lemma WorkerClosesByLeaving(s: Pool, v: nat, j: nat)
    requires Inv(s) && v < s.Size() && WorkerEnabled(s, v) && j < s.Size()
    requires |WorkerNext(s, v).jobs| == |s.jobs| && WorkerNext(s, v).jobs[j].condition in {Finishing, Completed}
    ensures ClosedByLeaving(s, WorkerNext(s, v), j)
  {
    assert WorkerOk(s, v);
    assert JobOk(s, j);
  }

  lemma StepClosesByLeaving(s: Pool, s': Pool, j: nat)
    requires Inv(s) && Next(s, s') && |s'.jobs| == |s.jobs| && j < s.Size() && s'.jobs[j].condition in {Finishing, Completed}
    ensures ClosedByLeaving(s, s', j)
  {
    assert JobOk(s, j);
    if d: nat :| d < |s.dispatchers| && DispatcherEnabled(s, d) && s' == DispatcherNext(s, d) {
      DispatcherClosesNothing(s, d, j);
    } else if v: nat :| v < s.Size() && WorkerEnabled(s, v) && s' == WorkerNext(s, v) {
      WorkerClosesByLeaving(s, v, j);
    } else {
      var d: nat :| d < |s.dispatchers| && (Begin(s, d, s') || AttemptFails(s, d, s'));
      IdleKeepsWork(s, s', d);
    }
  }

  /** Slot j is claimed for call c. */
  ghost predicate ClaimedFor(s: Pool, j: nat, c: nat) {
    && j < |s.jobs| && s.jobs[j].holder.Some? && s.jobs[j].holder.value < |s.dispatchers|
    && s.dispatchers[s.jobs[j].holder.value].call == c
  }

  lemma LeaverWorksForHolder(s: Pool, w: nat)
    requires Inv(s) && w < s.Size() && s.workers[w].current.Some?
    ensures ClaimedFor(s, s.workers[w].current.value, s.workers[w].wake)
  {
    assert WorkerOk(s, w);
  }

  /** A job is over in state i + 1: it was over before, or a worker is leaving it; and it is for the same call. */
  lemma RunStepCloses(run: seq<Pool>, i: nat, j: nat, c: nat)
    requires IsRun(run) && i + 1 < |run| && ClaimedFor(run[i + 1], j, c) && run[i + 1].jobs[j].condition in {Finishing, Completed}
    ensures ClaimedFor(run[i], j, c)
    ensures run[i].jobs[j].condition in {Finishing, Completed} || Executed(run, i, c)
  {
    RunInv(run, i);
    RunInv(run, i + 1);
    RunStepKeepsSize(run, i);
    assert StepAt(run, i);
    StepClosesByLeaving(run[i], run[i + 1], j);
    if run[i].jobs[j].condition !in {Finishing, Completed} {
      LeftJobWasExecuted(run, i, j, c);
    }
  }

  lemma LeftJobWasExecuted(run: seq<Pool>, i: nat, j: nat, c: nat)
    requires IsRun(run) && i < |run| && Inv(run[i]) && ClaimedFor(run[i], j, c)
    requires exists w: nat :: w < run[i].Size() && run[i].workers[w].pc == Leave && run[i].workers[w].current == Some(j)
    ensures Executed(run, i, c)
  {
    var w: nat :| w < run[i].Size() && run[i].workers[w].pc == Leave && run[i].workers[w].current == Some(j);
    LeaverWorksForHolder(run[i], w);
    LeavesAfterExecuting(run, i, w);
  }

  /** A job comes to Finishing or Completed only for a call that a worker has executed. */
  lemma {:induction false} ClosedJobWasExecuted(run: seq<Pool>, i: nat, j: nat, c: nat)
    requires IsRun(run) && i < |run| && ClaimedFor(run[i], j, c) && run[i].jobs[j].condition in {Finishing, Completed}
    ensures Executed(run, i, c)
  {
    if i > 0 {
      RunStepCloses(run, i - 1, j, c);
      if run[i - 1].jobs[j].condition in {Finishing, Completed} {
        ClosedJobWasExecuted(run, i - 1, j, c);
      }
      ExecutedStays(run, i - 1, c);
    }
  }

  lemma ExecutedStays(run: seq<Pool>, i: nat, c: nat)
    requires Executed(run, i, c)
    ensures Executed(run, i + 1, c)
  {
    var w: nat :| ExecutedBy(run, i, w, c);
    var k: nat :| k < i && k < |run| && Executes(run[k], w, c);
    assert ExecutedBy(run, i + 1, w, c);
  }

  /** The conditions asserted at lines 288-289: when the caller goes on, workers were started, one has executed the call,
      and all have left the job. */
  lemma CompletedJobIsIdle(run: seq<Pool>, i: nat, d: nat)
    requires IsRun(run) && i < |run| && d < |run[i].dispatchers| && run[i].dispatchers[d].pc == ClearFunction
    ensures run[i].dispatchers[d].slot < |run[i].jobs| && 0 < run[i].dispatchers[d].started
    ensures run[i].jobs[run[i].dispatchers[d].slot].active == 0
    ensures forall w :: 0 <= w < run[i].Size() ==> run[i].workers[w].current != Some(run[i].dispatchers[d].slot)
    ensures Executed(run, i, run[i].dispatchers[d].call)
  {
    RunInv(run, i);
    var s := run[i];
    assert DispatcherOk(s, d);
    var j := s.dispatchers[d].slot;
    assert JobOk(s, j);
    CountIfZero((x: Worker) => x.current == Some(j), s.workers);
    ClosedJobWasExecuted(run, i, j, s.dispatchers[d].call);
  }

  // ------------------------------------------------------------------ a call that has returned was executed

  lemma DispatcherReturns(s: Pool, d: nat, c: nat)
    requires Inv(s) && d < |s.dispatchers| && DispatcherEnabled(s, d) && Returned(DispatcherNext(s, d), c)
    ensures Returned(s, c) || (s.dispatchers[d].call == c && s.dispatchers[d].pc == Release)
  {
    DispatcherKeepsCallers(s, d);
  }

  lemma OthersReturnNothing(s: Pool, s': Pool, d: nat, c: nat)
    requires Shaped(s) && d < |s.dispatchers| && (Begin(s, d, s') || AttemptFails(s, d, s')) && Returned(s', c)
    ensures Returned(s, c)
  {
    assert s'.dispatchers[d].call == s.dispatchers[d].call || s'.dispatchers[d].call == s.nextCall;
    forall e | 0 <= e < |s.dispatchers| && s.dispatchers[e].call == c
      ensures s.dispatchers[e].pc == Outside
    {
      assert e != d ==> s'.dispatchers[e] == s.dispatchers[e];
    }
  }

  /** A call returns by the step that gives its slot back. */
  lemma StepReturns(s: Pool, s': Pool, c: nat)
    requires Inv(s) && Next(s, s') && Returned(s', c)
    ensures Returned(s, c) || exists d :: 0 <= d < |s.dispatchers| && s.dispatchers[d].call == c && s.dispatchers[d].pc == Release
  {
    if d: nat :| d < |s.dispatchers| && DispatcherEnabled(s, d) && s' == DispatcherNext(s, d) {
      DispatcherReturns(s, d, c);
    } else if w: nat :| w < s.Size() && WorkerEnabled(s, w) && s' == WorkerNext(s, w) {
      WorkerKeepsCallers(s, w);
    } else {
      var d: nat :| d < |s.dispatchers| && (Begin(s, d, s') || AttemptFails(s, d, s'));
      OthersReturnNothing(s, s', d, c);
    }
  }

  lemma RunStepReturns(run: seq<Pool>, i: nat, c: nat)
    requires IsRun(run) && i + 1 < |run| && Returned(run[i + 1], c)
    ensures Returned(run[i], c) || Executed(run, i, c)
  {
    RunInv(run, i);
    assert StepAt(run, i);
    StepReturns(run[i], run[i + 1], c);
    if d: nat :| d < |run[i].dispatchers| && run[i].dispatchers[d].call == c && run[i].dispatchers[d].pc == Release {
      assert DispatcherOk(run[i], d);
      ClosedJobWasExecuted(run, i, run[i].dispatchers[d].slot, c);
    }
  }

  /** No call returns unexecuted: before a call made in this run has returned, a worker was inside its function
      with its argument. */
  lemma {:induction false} ReturnedCallWasExecuted(run: seq<Pool>, i: nat, c: nat)
    requires IsRun(run) && i < |run| && run[0].nextCall <= c && Returned(run[i], c)
    ensures Executed(run, i, c)
  {
    if i > 0 {
      RunStepReturns(run, i - 1, c);
      if Returned(run[i - 1], c) {
        ReturnedCallWasExecuted(run, i - 1, c);
      }
      ExecutedStays(run, i - 1, c);
    }
  }

  /** A worker stays on its job, or has executed the call that woke it. */
  lemma {:induction false} StaysOrHasExecuted(run: seq<Pool>, m: nat, i: nat, w: nat)
    requires IsRun(run) && m <= i < |run| && w < run[m].Size() && run[m].workers[w].current.Some?
    ensures run[i].Size() == run[m].Size()
    ensures || ExecutedBy(run, i, w, run[m].workers[w].wake)
            || (run[i].workers[w].current == run[m].workers[w].current && run[i].workers[w].wake == run[m].workers[w].wake)
    decreases i
  {
    if m < i {
      StaysOrHasExecuted(run, m, i - 1, w);
      RunStepLeavesFromInside(run, i - 1, w);
      if run[i].workers[w].current != run[m].workers[w].current && run[i - 1].workers[w].current == run[m].workers[w].current {
        LeavesAfterExecuting(run, i - 1, w);
      }
    }
  }

  /** Every worker that joins a call has been inside its function, with its argument, by the time it returns. */
  lemma EveryJoinerExecutes(run: seq<Pool>, m: nat, i: nat, w: nat, d: nat)
    requires IsRun(run) && m <= i < |run| && w < run[m].Size() && d < |run[m].dispatchers|
    requires HoldsSlot(run[m].dispatchers[d].pc) && run[m].workers[w].current == Some(run[m].dispatchers[d].slot)
    requires Returned(run[i], run[m].dispatchers[d].call)
    ensures ExecutedBy(run, i, w, run[m].dispatchers[d].call)
  {
    RunInv(run, m);
    RunInv(run, i);
    assert DispatcherOk(run[m], d);
    LeaverWorksForHolder(run[m], w);
    StaysOrHasExecuted(run, m, i, w);
    if run[i].workers[w].current.Some? && run[i].workers[w].wake == run[m].dispatchers[d].call {
      assert WorkerOk(run[i], w);
    }
  }

  // ------------------------------------------------------------------ how many workers a caller starts

  /** What a caller that starts to wait for Completed has seen. */
  ghost predicate Served(s: Pool, d: nat)
    requires d < |s.dispatchers|
  {
    var x := s.dispatchers[d];
    x.slot < |s.jobs| && (s.jobs[x.slot].condition != Executing || x.started >= s.live)
  }

  lemma DispatcherStopsLookingWhenServed(s: Pool, e: nat, d: nat)
    requires Inv(s) && e < |s.dispatchers| && DispatcherEnabled(s, e) && d < |s.dispatchers| && s.dispatchers[d].pc != WaitDone
    requires |DispatcherNext(s, e).dispatchers| == |s.dispatchers| && DispatcherNext(s, e).dispatchers[d].pc == WaitDone
    ensures Served(s, d)
  {
  }

  /** A caller stops looking for workers only when its job is no longer Executing, or it has started as many as are live. */
  lemma StopsLookingWhenServed(s: Pool, s': Pool, d: nat)
    requires Inv(s) && Next(s, s') && d < |s.dispatchers| == |s'.dispatchers|
    requires s.dispatchers[d].pc != WaitDone && s'.dispatchers[d].pc == WaitDone
    ensures s.dispatchers[d].slot < |s.jobs|
    ensures s.jobs[s.dispatchers[d].slot].condition != Executing || s.dispatchers[d].started >= s.live
  {
    if e: nat :| e < |s.dispatchers| && DispatcherEnabled(s, e) && s' == DispatcherNext(s, e) {
      DispatcherStopsLookingWhenServed(s, e, d);
    } else if w: nat :| w < s.Size() && WorkerEnabled(s, w) && s' == WorkerNext(s, w) {
      WorkerKeepsCallers(s, w);
      assert false;
    } else {
      var e: nat :| e < |s.dispatchers| && (Begin(s, e, s') || AttemptFails(s, e, s'));
      IdleKeepsWork(s, s', e);
      assert false;
    }
  }
}
