/**
 Safety of the thread pool: every step keeps the invariant of module ThreadPool.
 The steps of one party change little, so each is checked against the few facts that speak of
 what it changes; everything else is carried over by the "Keeps" lemmas.
 */
module ThreadPoolSteps {
  import opened Base
  import opened ThreadPool

  lemma SameCounts(s: Pool, s': Pool)
    requires |s.workers| == |s'.workers|
    requires forall w :: 0 <= w < |s.workers| ==>
               s.workers[w].current == s'.workers[w].current && s.workers[w].pc == s'.workers[w].pc
    ensures forall j: nat :: Joined(s', j) == Joined(s, j)
    ensures NotLive(s') == NotLive(s)
  {
    forall j: nat
      ensures Joined(s', j) == Joined(s, j)
    {
      CountIfSame((x: Worker) => x.current == Some(j), s.workers, s'.workers);
    }
    CountIfSame((x: Worker) => x.pc == NotStarted, s.workers, s'.workers);
  }

  lemma DispatcherKeepsCallers(s: Pool, d: nat)
    requires Shaped(s) && d < |s.dispatchers| && DispatcherEnabled(s, d)
    ensures var s' := DispatcherNext(s, d);
            && s'.nextCall == s.nextCall && s'.Size() == s.Size() && |s'.dispatchers| == |s.dispatchers|
            && s'.dispatchers[d].call == s.dispatchers[d].call
            && forall e :: 0 <= e < |s.dispatchers| && e != d ==> s'.dispatchers[e] == s.dispatchers[e]
  {
  }

  lemma WorkerKeepsCallers(s: Pool, w: nat)
    requires Shaped(s) && w < s.Size() && WorkerEnabled(s, w)
    ensures var s' := WorkerNext(s, w);
            s'.nextCall == s.nextCall && s'.Size() == s.Size() && s'.dispatchers == s.dispatchers
  {
  }

  // ------------------------------------------------------------------ dispatcher steps

  /** What a step of dispatcher d leaves alone. */
  ghost predicate DispatcherTouches(s: Pool, s': Pool, d: nat)
    requires Shaped(s) && d < |s.dispatchers|
  {
    var x := s.dispatchers[d];
    && Shaped(s') && |s'.dispatchers| == |s.dispatchers| && s'.Size() == s.Size()
    && s'.live == s.live && s'.nextCall == s.nextCall
    && (forall e :: 0 <= e < |s.dispatchers| && e != d ==> s'.dispatchers[e] == s.dispatchers[e])
    && (forall w :: 0 <= w < s.Size() && !(Reaches(x.pc) && w == x.at) ==>
          s'.workers[w] == s.workers[w] && s'.locks[w] == s.locks[w] && s'.queue[w] == s.queue[w])
    && (forall w :: 0 <= w < s.Size() ==>
          s'.workers[w].pc == s.workers[w].pc && s'.workers[w].current == s.workers[w].current)
    && (x.pc == Try ==> s.locks[x.at].owner == Free && s.locks[x.at].condition == Sleeping)
    && var x' := s'.dispatchers[d];
       && x'.call == x.call && HoldsSlot(x.pc)
       && (HoldsSlot(x'.pc) ==> x'.slot == x.slot)
       && (InHandshake(x'.pc) ==> x'.at == x.at)
       && (forall j :: 0 <= j < s.Size() && j != x.slot ==> s'.jobs[j] == s.jobs[j])
       && (|| (s'.jobs == s.jobs && JobIsOut(x.pc) && JobIsOut(x'.pc))
           || (s.jobs[x.slot].condition in {Available, Completed} && !s.jobs[x.slot].owner.ByWorker?))
  }

  /** The dispatcher's step may change the lock, the queue entry or the history of thread `at`. */
  predicate Reaches(pc: DispatcherPc) {
    InHandshake(pc) || pc == Try
  }

  lemma KeepsOtherDispatcher(s: Pool, s': Pool, d: nat, e: nat)
    requires Shaped(s) && d < |s.dispatchers| && e < |s.dispatchers| && e != d
    requires DispatcherTouches(s, s', d) && DispatcherOk(s, d) && DispatcherOk(s, e)
    ensures DispatcherOk(s', e)
  {
  }

  /** A worker's state says nothing about what differs between s and s'. */
  lemma WorkerFrame(s: Pool, s': Pool, w: nat)
    requires Shaped(s) && Shaped(s') && w < s.Size() == s'.Size() && |s.dispatchers| == |s'.dispatchers|
    requires WorkerOk(s, w)
    requires s'.workers[w] == s.workers[w] && s'.locks[w] == s.locks[w] && s'.queue[w] == s.queue[w]
    requires s.locks[w].partner.Some? ==>
               var p := s.locks[w].partner.value;
               InHandshake(s'.dispatchers[p].pc) && s'.dispatchers[p].at == w
    requires s.workers[w].current.Some? ==> WorkOk(s', w)
    requires s.workers[w].pc in {Join, JoinUnlock} ==> s'.jobs[s.queue[w].value].owner == ByWorker(w)
    requires s.workers[w].pc == Leave ==> s'.jobs[s.workers[w].current.value].owner == ByWorker(w)
    ensures WorkerOk(s', w)
  {
  }

  lemma KeepsWork(s: Pool, s': Pool, d: nat, w: nat)
    requires Shaped(s) && d < |s.dispatchers| && w < s.Size()
    requires DispatcherTouches(s, s', d) && s.workers[w].current.Some? && WorkOk(s, w)
    requires DispatcherOk(s, d) && JobOk(s, s.workers[w].current.value)
    requires !(Reaches(s.dispatchers[d].pc) && w == s.dispatchers[d].at)
    ensures WorkOk(s', w)
  {
  }

  lemma KeepsWorker(s: Pool, s': Pool, d: nat, w: nat)
    requires Shaped(s) && d < |s.dispatchers| && w < s.Size()
    requires DispatcherTouches(s, s', d) && DispatcherOk(s, d) && WorkerOk(s, w)
    requires s.workers[w].current.Some? ==> JobOk(s, s.workers[w].current.value)
    requires !(Reaches(s.dispatchers[d].pc) && w == s.dispatchers[d].at)
    ensures WorkerOk(s', w)
  {
    if s.workers[w].current.Some? {
      KeepsWork(s, s', d, w);
    }
    WorkerFrame(s, s', w);
  }

  lemma KeepsOtherJob(s: Pool, s': Pool, d: nat, j: nat)
    requires Shaped(s) && d < |s.dispatchers| && j < s.Size()
    requires DispatcherTouches(s, s', d) && DispatcherOk(s, d) && JobOk(s, j)
    requires s.jobs[j].owner.ByWorker? ==> s.jobs[j].owner.w < s.Size() && WorkerOk(s, s.jobs[j].owner.w)
    requires j != s.dispatchers[d].slot
    ensures JobOk(s', j)
  {
    SameCounts(s, s');
  }

  lemma KeepsOthers(s: Pool, s': Pool, d: nat)
    requires Inv(s) && d < |s.dispatchers| && DispatcherTouches(s, s', d)
    requires DispatcherOk(s', d) && JobOk(s', s.dispatchers[d].slot)
    requires Reaches(s.dispatchers[d].pc) ==> WorkerOk(s', s.dispatchers[d].at)
    ensures Inv(s')
  {
    assert DispatcherOk(s, d);
    SameCounts(s, s');
    forall e | 0 <= e < |s'.dispatchers|
      ensures DispatcherOk(s', e)
    {
      if e != d {
        assert DispatcherOk(s, e);
        KeepsOtherDispatcher(s, s', d, e);
      }
    }
    forall w | 0 <= w < s'.Size()
      ensures WorkerOk(s', w)
    {
      if !(Reaches(s.dispatchers[d].pc) && w == s.dispatchers[d].at) {
        assert WorkerOk(s, w);
        KeepsWorker(s, s', d, w);
      }
    }
    forall j | 0 <= j < s'.Size()
      ensures JobOk(s', j)
    {
      if j != s.dispatchers[d].slot {
        assert JobOk(s, j);
        KeepsOtherJob(s, s', d, j);
      }
    }
  }

  // What a step of dispatcher d is checked against, and what it must establish.

  ghost predicate DispatcherContext(s: Pool, d: nat) {
    && Shaped(s) && d < |s.dispatchers|
    && var x := s.dispatchers[d];
       && HoldsSlot(x.pc) && DispatcherOk(s, d) && JobOk(s, x.slot)
       && (Reaches(x.pc) ==> WorkerOk(s, x.at))
  }

  ghost predicate DispatcherOutcome(s: Pool, s': Pool, d: nat)
    requires DispatcherContext(s, d)
  {
    && DispatcherTouches(s, s', d)
    && DispatcherOk(s', d) && JobOk(s', s.dispatchers[d].slot)
    && (Reaches(s.dispatchers[d].pc) ==> WorkerOk(s', s.dispatchers[d].at))
  }

  lemma SetFunctionKeeps(s: Pool, d: nat)
    requires DispatcherContext(s, d) && s.dispatchers[d].pc == SetFunction
    ensures DispatcherOutcome(s, AfterSetFunction(s, d), d)
  {
    var s' := AfterSetFunction(s, d);
    SameCounts(s, s');
    assert DispatcherTouches(s, s', d);
    assert DispatcherOk(s', d);
  }

  lemma SetArgumentKeeps(s: Pool, d: nat)
    requires DispatcherContext(s, d) && s.dispatchers[d].pc == SetArgument
    ensures DispatcherOutcome(s, AfterSetArgument(s, d), d)
  {
    var s' := AfterSetArgument(s, d);
    SameCounts(s, s');
    assert DispatcherTouches(s, s', d);
    assert DispatcherOk(s', d);
  }

  lemma PublishKeeps(s: Pool, d: nat)
    requires DispatcherContext(s, d) && s.dispatchers[d].pc == Publish
    ensures DispatcherOutcome(s, AfterPublish(s, d), d)
  {
    var s' := AfterPublish(s, d);
    SameCounts(s, s');
    assert DispatcherTouches(s, s', d);
    assert DispatcherOk(s', d);
  }

  lemma WhileKeeps(s: Pool, d: nat)
    requires DispatcherContext(s, d) && s.dispatchers[d].pc == While
    ensures DispatcherOutcome(s, AfterWhile(s, d), d)
  {
    var s' := AfterWhile(s, d);
    SameCounts(s, s');
    assert DispatcherTouches(s, s', d);
    assert DispatcherOk(s', d);
  }

  lemma ForKeeps(s: Pool, d: nat)
    requires DispatcherContext(s, d) && s.dispatchers[d].pc == For
    ensures DispatcherOutcome(s, AfterFor(s, d), d)
  {
    var s' := AfterFor(s, d);
    SameCounts(s, s');
    assert DispatcherTouches(s, s', d);
    assert DispatcherOk(s', d);
  }

  lemma TryKeepsWorker(s: Pool, d: nat)
    requires DispatcherContext(s, d) && s.dispatchers[d].pc == Try && DispatcherEnabled(s, d)
    ensures DispatcherTouches(s, AfterTry(s, d), d) && WorkerOk(AfterTry(s, d), s.dispatchers[d].at)
  {
  }

  lemma TryKeeps(s: Pool, d: nat)
    requires DispatcherContext(s, d) && s.dispatchers[d].pc == Try && DispatcherEnabled(s, d)
    ensures DispatcherOutcome(s, AfterTry(s, d), d)
  {
    var s' := AfterTry(s, d);
    SameCounts(s, s');
    TryKeepsWorker(s, d);
    assert DispatcherOk(s', d);
  }

  lemma GotKeepsWorker(s: Pool, d: nat)
    requires DispatcherContext(s, d) && s.dispatchers[d].pc == Got
    ensures DispatcherTouches(s, AfterGot(s, d), d) && WorkerOk(AfterGot(s, d), s.dispatchers[d].at)
  {
  }

  lemma GotKeeps(s: Pool, d: nat)
    requires DispatcherContext(s, d) && s.dispatchers[d].pc == Got
    ensures DispatcherOutcome(s, AfterGot(s, d), d)
  {
    var s' := AfterGot(s, d);
    SameCounts(s, s');
    GotKeepsWorker(s, d);
    assert DispatcherOk(s', d);
  }

  lemma WakeKeepsWorker(s: Pool, d: nat)
    requires DispatcherContext(s, d) && s.dispatchers[d].pc == Wake
    ensures DispatcherTouches(s, AfterWake(s, d), d) && WorkerOk(AfterWake(s, d), s.dispatchers[d].at)
  {
  }

  lemma WakeKeeps(s: Pool, d: nat)
    requires DispatcherContext(s, d) && s.dispatchers[d].pc == Wake
    ensures DispatcherOutcome(s, AfterWake(s, d), d)
  {
    var s' := AfterWake(s, d);
    SameCounts(s, s');
    WakeKeepsWorker(s, d);
    assert DispatcherOk(s', d);
  }

  lemma AwaitKeepsWorker(s: Pool, d: nat)
    requires DispatcherContext(s, d) && s.dispatchers[d].pc == Await && DispatcherEnabled(s, d)
    ensures DispatcherTouches(s, AfterAwait(s, d), d) && WorkerOk(AfterAwait(s, d), s.dispatchers[d].at)
  {
  }

  lemma AwaitKeeps(s: Pool, d: nat)
    requires DispatcherContext(s, d) && s.dispatchers[d].pc == Await && DispatcherEnabled(s, d)
    ensures DispatcherOutcome(s, AfterAwait(s, d), d)
  {
    var s' := AfterAwait(s, d);
    SameCounts(s, s');
    AwaitKeepsWorker(s, d);
    assert DispatcherOk(s', d);
  }

  lemma RunKeepsWorker(s: Pool, d: nat)
    requires DispatcherContext(s, d) && s.dispatchers[d].pc == Run
    ensures DispatcherTouches(s, AfterRun(s, d), d) && WorkerOk(AfterRun(s, d), s.dispatchers[d].at)
  {
  }

  lemma RunKeeps(s: Pool, d: nat)
    requires DispatcherContext(s, d) && s.dispatchers[d].pc == Run
    ensures DispatcherOutcome(s, AfterRun(s, d), d)
  {
    var s' := AfterRun(s, d);
    SameCounts(s, s');
    RunKeepsWorker(s, d);
    assert DispatcherOk(s', d);
  }

  lemma CountedTouches(s: Pool, d: nat)
    requires DispatcherContext(s, d) && s.dispatchers[d].pc == Counted
    ensures DispatcherTouches(s, AfterCounted(s, d), d)
  {
  }

  lemma CountedKeeps(s: Pool, d: nat)
    requires DispatcherContext(s, d) && s.dispatchers[d].pc == Counted
    ensures DispatcherOutcome(s, AfterCounted(s, d), d)
  {
    var s' := AfterCounted(s, d);
    SameCounts(s, s');
    CountedTouches(s, d);
    assert DispatcherOk(s', d);
  }

  lemma UndoKeepsWorker(s: Pool, d: nat)
    requires DispatcherContext(s, d) && s.dispatchers[d].pc == Undo
    ensures DispatcherTouches(s, AfterUndo(s, d), d) && WorkerOk(AfterUndo(s, d), s.dispatchers[d].at)
  {
  }

  lemma UndoKeeps(s: Pool, d: nat)
    requires DispatcherContext(s, d) && s.dispatchers[d].pc == Undo
    ensures DispatcherOutcome(s, AfterUndo(s, d), d)
  {
    var s' := AfterUndo(s, d);
    SameCounts(s, s');
    UndoKeepsWorker(s, d);
    assert DispatcherOk(s', d);
  }

  lemma WaitDoneKeeps(s: Pool, d: nat)
    requires DispatcherContext(s, d) && s.dispatchers[d].pc == WaitDone && DispatcherEnabled(s, d)
    ensures DispatcherOutcome(s, AfterWaitDone(s, d), d)
  {
    var s' := AfterWaitDone(s, d);
    SameCounts(s, s');
    assert DispatcherTouches(s, s', d);
    assert DispatcherOk(s', d);
  }

  lemma ClearFunctionKeeps(s: Pool, d: nat)
    requires DispatcherContext(s, d) && s.dispatchers[d].pc == ClearFunction
    ensures DispatcherOutcome(s, AfterClearFunction(s, d), d)
  {
    var s' := AfterClearFunction(s, d);
    SameCounts(s, s');
    assert DispatcherTouches(s, s', d);
    assert DispatcherOk(s', d);
  }

  lemma ClearArgumentTouches(s: Pool, d: nat)
    requires DispatcherContext(s, d) && s.dispatchers[d].pc == ClearArgument
    ensures DispatcherTouches(s, AfterClearArgument(s, d), d)
  {
  }

  lemma ClearArgumentKeeps(s: Pool, d: nat)
    requires DispatcherContext(s, d) && s.dispatchers[d].pc == ClearArgument
    ensures DispatcherOutcome(s, AfterClearArgument(s, d), d)
  {
    var s' := AfterClearArgument(s, d);
    SameCounts(s, s');
    ClearArgumentTouches(s, d);
    assert DispatcherOk(s', d);
  }

  lemma ReleaseKeeps(s: Pool, d: nat)
    requires DispatcherContext(s, d) && s.dispatchers[d].pc == Release
    ensures DispatcherOutcome(s, AfterRelease(s, d), d)
  {
    var s' := AfterRelease(s, d);
    SameCounts(s, s');
    assert DispatcherTouches(s, s', d);
    assert DispatcherOk(s', d);
  }

  lemma ClaimedSlotIsBusy(s: Pool, j: nat)
    requires Inv(s) && j < s.Size() && s.jobs[j].holder.Some?
    ensures s.jobs[j].owner != Free || s.jobs[j].condition != Available
  {
    assert JobOk(s, j);
    assert DispatcherOk(s, s.jobs[j].holder.value);
  }

  lemma FreeSlotIsUnclaimed(s: Pool, j: nat)
    requires Inv(s) && j < s.Size() && s.jobs[j].owner == Free && s.jobs[j].condition == Available
    ensures s.jobs[j].holder == None
  {
    if s.jobs[j].holder.Some? {
      ClaimedSlotIsBusy(s, j);
    }
  }

  lemma ClaimKeeps(s: Pool, d: nat)
    requires Inv(s) && d < |s.dispatchers| && s.dispatchers[d].pc == Claim && DispatcherEnabled(s, d)
    ensures Inv(AfterClaim(s, d))
  {
    var s' := AfterClaim(s, d);
    var i := s.dispatchers[d].at;
    assert DispatcherOk(s, d);
    assert JobOk(s, i);
    FreeSlotIsUnclaimed(s, i);
    SameCounts(s, s');
    forall e | 0 <= e < |s'.dispatchers|
      ensures DispatcherOk(s', e)
    {
      assert DispatcherOk(s, e);
    }
    forall w | 0 <= w < s'.Size()
      ensures WorkerOk(s', w)
    {
      assert WorkerOk(s, w);
      ClaimKeepsWorker(s, d, w);
    }
    forall j | 0 <= j < s'.Size()
      ensures JobOk(s', j)
    {
      assert JobOk(s, j);
      ClaimKeepsJob(s, d, j);
    }
  }

  lemma ClaimKeepsJob(s: Pool, d: nat, j: nat)
    requires Shaped(s) && d < |s.dispatchers| && s.dispatchers[d].pc == Claim && DispatcherEnabled(s, d)
    requires j < s.Size() && JobOk(s, j) && s.jobs[s.dispatchers[d].at].holder == None
    ensures Shaped(AfterClaim(s, d)) && JobOk(AfterClaim(s, d), j)
  {
    SameCounts(s, AfterClaim(s, d));
  }

  lemma ClaimKeepsWorker(s: Pool, d: nat, w: nat)
    requires Shaped(s) && d < |s.dispatchers| && s.dispatchers[d].pc == Claim && DispatcherEnabled(s, d)
    requires w < s.Size() && WorkerOk(s, w)
    ensures Shaped(AfterClaim(s, d)) && WorkerOk(AfterClaim(s, d), w)
  {
    if s.workers[w].current.Some? {
      assert WorkOk(s, w);
    }
    WorkerFrame(s, AfterClaim(s, d), w);
  }

  lemma DispatcherStepOutcome(s: Pool, d: nat)
    requires DispatcherContext(s, d) && DispatcherEnabled(s, d)
    ensures DispatcherOutcome(s, DispatcherNext(s, d), d)
  {
    match s.dispatchers[d].pc {
      case SetFunction => SetFunctionKeeps(s, d);
      case SetArgument => SetArgumentKeeps(s, d);
      case Publish => PublishKeeps(s, d);
      case While => WhileKeeps(s, d);
      case For => ForKeeps(s, d);
      case Try => TryKeeps(s, d);
      case Got => GotKeeps(s, d);
      case Wake => WakeKeeps(s, d);
      case Await => AwaitKeeps(s, d);
      case Run => RunKeeps(s, d);
      case Counted => CountedKeeps(s, d);
      case Undo => UndoKeeps(s, d);
      case WaitDone => WaitDoneKeeps(s, d);
      case ClearFunction => ClearFunctionKeeps(s, d);
      case ClearArgument => ClearArgumentKeeps(s, d);
      case Release => ReleaseKeeps(s, d);
    }
  }

  /** Every step of a dispatcher keeps the invariant. */
  lemma DispatcherStepKeeps(s: Pool, d: nat)
    requires Inv(s) && d < |s.dispatchers| && DispatcherEnabled(s, d)
    ensures Inv(DispatcherNext(s, d))
    ensures s.dispatchers[d].pc != Claim ==> DispatcherTouches(s, DispatcherNext(s, d), d)
  {
    var x := s.dispatchers[d];
    assert DispatcherOk(s, d);
    if x.pc == Claim {
      ClaimKeeps(s, d);
    } else {
      assert JobOk(s, x.slot);
      assert Reaches(x.pc) ==> WorkerOk(s, x.at);
      DispatcherStepOutcome(s, d);
      KeepsOthers(s, DispatcherNext(s, d), d);
    }
  }

  /** A step that changes only where a dispatcher stands outside its handshakes. */
  ghost predicate MovesOnly(s: Pool, s': Pool, d: nat)
    requires Shaped(s) && d < |s.dispatchers|
  {
    && s' == s.(dispatchers := s'.dispatchers, nextCall := s'.nextCall)
    && |s'.dispatchers| == |s.dispatchers| && s'.dispatchers == s.dispatchers[d := s'.dispatchers[d]]
    && s.nextCall <= s'.nextCall
    && var x, x' := s.dispatchers[d], s'.dispatchers[d];
       && !InHandshake(x.pc) && !InHandshake(x'.pc)
       && (JobIsOut(x.pc) <==> JobIsOut(x'.pc)) && (HoldsSlot(x.pc) <==> HoldsSlot(x'.pc))
       && (HoldsSlot(x.pc) ==> x'.slot == x.slot && x'.call == x.call)
  }

  lemma MoveKeeps(s: Pool, s': Pool, d: nat)
    requires Inv(s) && d < |s.dispatchers| && MovesOnly(s, s', d) && Shaped(s') && DispatcherOk(s', d)
    ensures Inv(s')
  {
    SameCounts(s, s');
    forall e | 0 <= e < |s'.dispatchers| && e != d
      ensures DispatcherOk(s', e)
    {
      assert DispatcherOk(s, e);
    }
    forall w | 0 <= w < s'.Size()
      ensures WorkerOk(s', w)
    {
      assert WorkerOk(s, w);
      if s.workers[w].current.Some? {
        MoveKeepsWork(s, s', d, w);
      }
      WorkerFrame(s, s', w);
    }
    forall j | 0 <= j < s'.Size()
      ensures JobOk(s', j)
    {
      assert JobOk(s, j);
    }
  }

  lemma MoveKeepsWork(s: Pool, s': Pool, d: nat, w: nat)
    requires Shaped(s) && d < |s.dispatchers| && MovesOnly(s, s', d) && Shaped(s')
    requires w < s.Size() && s.workers[w].current.Some? && WorkOk(s, w)
    ensures WorkOk(s', w)
  {
  }

  lemma AttemptFailsKeeps(s: Pool, s': Pool, d: nat)
    requires Inv(s) && d < |s.dispatchers| && AttemptFails(s, d, s')
    ensures Inv(s')
  {
    assert DispatcherOk(s, d);
    MoveKeeps(s, s', d);
  }

  lemma BeginKeeps(s: Pool, s': Pool, d: nat)
    requires Inv(s) && d < |s.dispatchers| && Begin(s, d, s')
    ensures Inv(s')
  {
    MoveKeeps(s, s', d);
  }

  // ------------------------------------------------------------------ worker steps

  /** The job whose slot worker w's next step may change. */
  ghost function TouchedJob(s: Pool, w: nat): Option<nat>
    requires Shaped(s) && w < s.Size()
  {
    match s.workers[w].pc
    case Woken => s.queue[w]
    case Join => s.queue[w]
    case JoinUnlock => s.queue[w]
    case LeaveLock => s.workers[w].current
    case Leave => s.workers[w].current
    case ReadFunction => s.workers[w].current
    case ReadArgument => s.workers[w].current
    case _ => None
  }

  /** What a step of worker w leaves alone. */
  ghost predicate WorkerTouches(s: Pool, s': Pool, w: nat)
    requires Shaped(s) && w < s.Size()
  {
    var j := TouchedJob(s, w);
    var x, x' := s.workers[w], if w < s'.Size() then s'.workers[w] else s.workers[w];
    && Shaped(s') && s'.Size() == s.Size()
    && s'.dispatchers == s.dispatchers && s'.nextCall == s.nextCall && s.live <= s'.live
    && s'.workers == s.workers[w := x']
    && (forall v :: 0 <= v < s.Size() && v != w ==> s'.locks[v] == s.locks[v] && s'.queue[v] == s.queue[v])
    && s'.locks[w].partner == s.locks[w].partner
    && (x'.current == x.current || (j.Some? && x.current in {None, j} && x'.current in {None, j}))
    && (j.None? ==> s'.jobs == s.jobs)
    && (j.Some? ==>
          var i := j.value;
          && (forall k :: 0 <= k < s.Size() && k != i ==> s'.jobs[k] == s.jobs[k])
          && s'.jobs[i].holder == s.jobs[i].holder
          && (|| s'.jobs[i] == s.jobs[i]
              || (s.jobs[i].owner in {Free, ByWorker(w)} && s'.jobs[i].owner in {Free, ByWorker(w)}))
          && (|| s'.jobs[i].condition in {s.jobs[i].condition, Finishing}
              || (forall v :: 0 <= v < s.Size() && v != w ==> s.workers[v].current != j)))
  }

  /** The dispatchers that speak of worker w or of the job it touches. */
  ghost predicate Concerned(s: Pool, w: nat, e: nat)
    requires Shaped(s) && w < s.Size() && e < |s.dispatchers|
  {
    || s.locks[w].partner == Some(e)
    || (TouchedJob(s, w).Some? && HoldsSlot(s.dispatchers[e].pc)
        && s.dispatchers[e].slot == TouchedJob(s, w).value)
  }

  lemma Counts(s: Pool, s': Pool, w: nat)
    requires w < |s.workers| && w < |s'.workers| && s'.workers == s.workers[w := s'.workers[w]]
    ensures forall j: nat ::
              Joined(s', j) + (if s.workers[w].current == Some(j) then 1 else 0)
              == Joined(s, j) + (if s'.workers[w].current == Some(j) then 1 else 0)
    ensures NotLive(s') + (if s.workers[w].pc == NotStarted then 1 else 0)
            == NotLive(s) + (if s'.workers[w].pc == NotStarted then 1 else 0)
  {
    forall j: nat
      ensures Joined(s', j) + (if s.workers[w].current == Some(j) then 1 else 0)
              == Joined(s, j) + (if s'.workers[w].current == Some(j) then 1 else 0)
    {
      CountIfUpdate((x: Worker) => x.current == Some(j), s.workers, w, s'.workers[w]);
    }
    CountIfUpdate((x: Worker) => x.pc == NotStarted, s.workers, w, s'.workers[w]);
  }

  lemma KeepsUnconcerned(s: Pool, s': Pool, w: nat, e: nat)
    requires Shaped(s) && w < s.Size() && e < |s.dispatchers|
    requires WorkerTouches(s, s', w) && DispatcherOk(s, e) && !Concerned(s, w, e)
    ensures DispatcherOk(s', e)
  {
  }

  lemma KeepsOtherWorker(s: Pool, s': Pool, w: nat, v: nat)
    requires Shaped(s) && w < s.Size() && v < s.Size() && v != w
    requires WorkerTouches(s, s', w) && WorkerOk(s, v)
    ensures WorkerOk(s', v)
  {
    if s.workers[v].current.Some? {
      assert WorkOk(s, v);
    }
    WorkerFrame(s, s', v);
  }

  lemma KeepsUntouchedJob(s: Pool, s': Pool, w: nat, k: nat)
    requires Shaped(s) && w < s.Size() && k < s.Size()
    requires WorkerTouches(s, s', w) && WorkerOk(s, w) && JobOk(s, k) && TouchedJob(s, w) != Some(k)
    ensures JobOk(s', k)
  {
    Counts(s, s', w);
  }

  // What a step of worker w is checked against, and what it must establish.

  ghost predicate WorkerContext(s: Pool, w: nat) {
    && Shaped(s) && w < s.Size() && WorkerOk(s, w)
    && (TouchedJob(s, w).Some? ==> JobOk(s, TouchedJob(s, w).value))
    && (forall e :: 0 <= e < |s.dispatchers| && Concerned(s, w, e) ==> DispatcherOk(s, e))
  }

  ghost predicate WorkerOutcome(s: Pool, s': Pool, w: nat)
    requires WorkerContext(s, w)
  {
    && WorkerTouches(s, s', w) && WorkerOk(s', w)
    && s.live + NotLive(s) == s'.live + NotLive(s')
    && (TouchedJob(s, w).Some? ==> JobOk(s', TouchedJob(s, w).value))
    && (forall e :: 0 <= e < |s.dispatchers| && Concerned(s, w, e) ==> DispatcherOk(s', e))
  }

  lemma NotStartedKeeps(s: Pool, w: nat)
    requires WorkerContext(s, w) && s.workers[w].pc == NotStarted
    ensures WorkerOutcome(s, AfterNotStarted(s, w), w)
  {
    Counts(s, AfterNotStarted(s, w), w);
  }

  lemma StartingUpKeeps(s: Pool, w: nat)
    requires WorkerContext(s, w) && s.workers[w].pc == StartingUp && WorkerEnabled(s, w)
    ensures WorkerOutcome(s, AfterStartingUp(s, w), w)
  {
    Counts(s, AfterStartingUp(s, w), w);
  }

  lemma StartedKeeps(s: Pool, w: nat)
    requires WorkerContext(s, w) && s.workers[w].pc == Started
    ensures WorkerOutcome(s, AfterStarted(s, w), w)
  {
    Counts(s, AfterStarted(s, w), w);
  }

  lemma AsleepKeepsDispatcher(s: Pool, w: nat, e: nat)
    requires WorkerContext(s, w) && s.workers[w].pc == Asleep && WorkerEnabled(s, w)
    requires e < |s.dispatchers| && Concerned(s, w, e) && DispatcherOk(s, e)
    ensures Shaped(AfterAsleep(s, w)) && DispatcherOk(AfterAsleep(s, w), e)
  {
  }

  lemma AsleepKeeps(s: Pool, w: nat)
    requires WorkerContext(s, w) && s.workers[w].pc == Asleep && WorkerEnabled(s, w)
    ensures WorkerOutcome(s, AfterAsleep(s, w), w)
  {
    var s' := AfterAsleep(s, w);
    Counts(s, s', w);
    forall e | 0 <= e < |s.dispatchers| && Concerned(s, w, e)
      ensures DispatcherOk(s', e)
    {
      AsleepKeepsDispatcher(s, w, e);
    }
  }

  lemma WokenKeepsDispatcher(s: Pool, w: nat, e: nat)
    requires WorkerContext(s, w) && s.workers[w].pc == Woken && WorkerEnabled(s, w)
    requires e < |s.dispatchers| && Concerned(s, w, e) && DispatcherOk(s, e)
    ensures Shaped(AfterWoken(s, w)) && DispatcherOk(AfterWoken(s, w), e)
  {
    assert DispatcherOk(s, s.locks[w].partner.value);
  }

  lemma WokenTouches(s: Pool, w: nat)
    requires WorkerContext(s, w) && s.workers[w].pc == Woken && WorkerEnabled(s, w)
    ensures WorkerTouches(s, AfterWoken(s, w), w) && WorkerOk(AfterWoken(s, w), w)
  {
    assert DispatcherOk(s, s.locks[w].partner.value);
  }

  lemma WokenKeeps(s: Pool, w: nat)
    requires WorkerContext(s, w) && s.workers[w].pc == Woken && WorkerEnabled(s, w)
    ensures WorkerOutcome(s, AfterWoken(s, w), w)
  {
    var s' := AfterWoken(s, w);
    WokenTouches(s, w);
    Counts(s, s', w);
    assert DispatcherOk(s, s.locks[w].partner.value);
    forall e | 0 <= e < |s.dispatchers| && Concerned(s, w, e)
      ensures DispatcherOk(s', e)
    {
      WokenKeepsDispatcher(s, w, e);
    }
  }

  lemma JoinKeepsDispatcher(s: Pool, w: nat, e: nat)
    requires WorkerContext(s, w) && s.workers[w].pc == Join
    requires e < |s.dispatchers| && Concerned(s, w, e) && DispatcherOk(s, e)
    ensures Shaped(AfterJoin(s, w)) && DispatcherOk(AfterJoin(s, w), e)
  {
    assert DispatcherOk(s, s.locks[w].partner.value);
  }

  lemma JoinTouches(s: Pool, w: nat)
    requires WorkerContext(s, w) && s.workers[w].pc == Join
    ensures WorkerTouches(s, AfterJoin(s, w), w) && WorkerOk(AfterJoin(s, w), w)
  {
    assert DispatcherOk(s, s.locks[w].partner.value);
  }

  lemma JoinKeeps(s: Pool, w: nat)
    requires WorkerContext(s, w) && s.workers[w].pc == Join
    ensures WorkerOutcome(s, AfterJoin(s, w), w)
  {
    var s' := AfterJoin(s, w);
    JoinTouches(s, w);
    Counts(s, s', w);
    forall e | 0 <= e < |s.dispatchers| && Concerned(s, w, e)
      ensures DispatcherOk(s', e)
    {
      JoinKeepsDispatcher(s, w, e);
    }
  }

  lemma JoinUnlockKeepsDispatcher(s: Pool, w: nat, e: nat)
    requires WorkerContext(s, w) && s.workers[w].pc == JoinUnlock
    requires e < |s.dispatchers| && Concerned(s, w, e) && DispatcherOk(s, e)
    ensures Shaped(AfterJoinUnlock(s, w)) && DispatcherOk(AfterJoinUnlock(s, w), e)
  {
    assert DispatcherOk(s, s.locks[w].partner.value);
  }

  lemma JoinUnlockTouches(s: Pool, w: nat)
    requires WorkerContext(s, w) && s.workers[w].pc == JoinUnlock
    ensures WorkerTouches(s, AfterJoinUnlock(s, w), w) && WorkerOk(AfterJoinUnlock(s, w), w)
  {
    assert DispatcherOk(s, s.locks[w].partner.value);
  }

  lemma JoinUnlockKeeps(s: Pool, w: nat)
    requires WorkerContext(s, w) && s.workers[w].pc == JoinUnlock
    ensures WorkerOutcome(s, AfterJoinUnlock(s, w), w)
  {
    var s' := AfterJoinUnlock(s, w);
    JoinUnlockTouches(s, w);
    Counts(s, s', w);
    forall e | 0 <= e < |s.dispatchers| && Concerned(s, w, e)
      ensures DispatcherOk(s', e)
    {
      JoinUnlockKeepsDispatcher(s, w, e);
    }
  }

  lemma WakeUnlockKeepsDispatcher(s: Pool, w: nat, e: nat)
    requires WorkerContext(s, w) && s.workers[w].pc == WakeUnlock
    requires e < |s.dispatchers| && Concerned(s, w, e) && DispatcherOk(s, e)
    ensures Shaped(AfterWakeUnlock(s, w)) && DispatcherOk(AfterWakeUnlock(s, w), e)
  {
  }

  lemma WakeUnlockTouches(s: Pool, w: nat)
    requires WorkerContext(s, w) && s.workers[w].pc == WakeUnlock
    ensures WorkerTouches(s, AfterWakeUnlock(s, w), w) && WorkerOk(AfterWakeUnlock(s, w), w)
  {
  }

  lemma WakeUnlockKeeps(s: Pool, w: nat)
    requires WorkerContext(s, w) && s.workers[w].pc == WakeUnlock
    ensures WorkerOutcome(s, AfterWakeUnlock(s, w), w)
  {
    var s' := AfterWakeUnlock(s, w);
    WakeUnlockTouches(s, w);
    Counts(s, s', w);
    forall e | 0 <= e < |s.dispatchers| && Concerned(s, w, e)
      ensures DispatcherOk(s', e)
    {
      WakeUnlockKeepsDispatcher(s, w, e);
    }
  }

  lemma ReadFunctionKeepsDispatcher(s: Pool, w: nat, e: nat)
    requires WorkerContext(s, w) && s.workers[w].pc == ReadFunction
    requires e < |s.dispatchers| && Concerned(s, w, e) && DispatcherOk(s, e)
    ensures Shaped(AfterReadFunction(s, w)) && DispatcherOk(AfterReadFunction(s, w), e)
  {
  }

  lemma ReadFunctionTouches(s: Pool, w: nat)
    requires WorkerContext(s, w) && s.workers[w].pc == ReadFunction
    ensures WorkerTouches(s, AfterReadFunction(s, w), w) && WorkerOk(AfterReadFunction(s, w), w)
  {
    assert WorkOk(s, w) && DispatcherOk(s, s.jobs[s.workers[w].current.value].holder.value);
  }

  lemma ReadFunctionKeeps(s: Pool, w: nat)
    requires WorkerContext(s, w) && s.workers[w].pc == ReadFunction
    ensures WorkerOutcome(s, AfterReadFunction(s, w), w)
  {
    var s' := AfterReadFunction(s, w);
    ReadFunctionTouches(s, w);
    Counts(s, s', w);
    forall e | 0 <= e < |s.dispatchers| && Concerned(s, w, e)
      ensures DispatcherOk(s', e)
    {
      ReadFunctionKeepsDispatcher(s, w, e);
    }
  }

  lemma ReadArgumentKeepsDispatcher(s: Pool, w: nat, e: nat)
    requires WorkerContext(s, w) && s.workers[w].pc == ReadArgument
    requires e < |s.dispatchers| && Concerned(s, w, e) && DispatcherOk(s, e)
    ensures Shaped(AfterReadArgument(s, w)) && DispatcherOk(AfterReadArgument(s, w), e)
  {
  }

  lemma ReadArgumentTouches(s: Pool, w: nat)
    requires WorkerContext(s, w) && s.workers[w].pc == ReadArgument
    ensures WorkerTouches(s, AfterReadArgument(s, w), w) && WorkerOk(AfterReadArgument(s, w), w)
  {
    assert WorkOk(s, w) && DispatcherOk(s, s.jobs[s.workers[w].current.value].holder.value);
  }

  lemma ReadArgumentKeeps(s: Pool, w: nat)
    requires WorkerContext(s, w) && s.workers[w].pc == ReadArgument
    ensures WorkerOutcome(s, AfterReadArgument(s, w), w)
  {
    var s' := AfterReadArgument(s, w);
    ReadArgumentTouches(s, w);
    Counts(s, s', w);
    forall e | 0 <= e < |s.dispatchers| && Concerned(s, w, e)
      ensures DispatcherOk(s', e)
    {
      ReadArgumentKeepsDispatcher(s, w, e);
    }
  }

  lemma InsideKeepsDispatcher(s: Pool, w: nat, e: nat)
    requires WorkerContext(s, w) && s.workers[w].pc == Inside
    requires e < |s.dispatchers| && Concerned(s, w, e) && DispatcherOk(s, e)
    ensures Shaped(AfterInside(s, w)) && DispatcherOk(AfterInside(s, w), e)
  {
  }

  lemma InsideTouches(s: Pool, w: nat)
    requires WorkerContext(s, w) && s.workers[w].pc == Inside
    ensures WorkerTouches(s, AfterInside(s, w), w) && WorkerOk(AfterInside(s, w), w)
  {
  }

  lemma InsideKeeps(s: Pool, w: nat)
    requires WorkerContext(s, w) && s.workers[w].pc == Inside
    ensures WorkerOutcome(s, AfterInside(s, w), w)
  {
    var s' := AfterInside(s, w);
    InsideTouches(s, w);
    Counts(s, s', w);
    forall e | 0 <= e < |s.dispatchers| && Concerned(s, w, e)
      ensures DispatcherOk(s', e)
    {
      InsideKeepsDispatcher(s, w, e);
    }
  }

  lemma LeaveLockKeepsDispatcher(s: Pool, w: nat, e: nat)
    requires WorkerContext(s, w) && s.workers[w].pc == LeaveLock && WorkerEnabled(s, w)
    requires e < |s.dispatchers| && Concerned(s, w, e) && DispatcherOk(s, e)
    ensures Shaped(AfterLeaveLock(s, w)) && DispatcherOk(AfterLeaveLock(s, w), e)
  {
  }

  lemma LeaveLockTouches(s: Pool, w: nat)
    requires WorkerContext(s, w) && s.workers[w].pc == LeaveLock && WorkerEnabled(s, w)
    ensures WorkerTouches(s, AfterLeaveLock(s, w), w) && WorkerOk(AfterLeaveLock(s, w), w)
  {
  }

  lemma LeaveLockKeeps(s: Pool, w: nat)
    requires WorkerContext(s, w) && s.workers[w].pc == LeaveLock && WorkerEnabled(s, w)
    ensures WorkerOutcome(s, AfterLeaveLock(s, w), w)
  {
    var s' := AfterLeaveLock(s, w);
    LeaveLockTouches(s, w);
    Counts(s, s', w);
    forall e | 0 <= e < |s.dispatchers| && Concerned(s, w, e)
      ensures DispatcherOk(s', e)
    {
      LeaveLockKeepsDispatcher(s, w, e);
    }
  }

  lemma LeaveKeepsSlot(s: Pool, w: nat, e: nat)
    requires WorkerContext(s, w) && s.workers[w].pc == Leave
    requires e < |s.dispatchers| && HoldsSlot(s.dispatchers[e].pc) && DispatcherOk(s, e)
    ensures Shaped(AfterLeave(s, w)) && SlotOk(AfterLeave(s, w), e)
  {
    LeaverIsCounted(s, w);
    assert WorkOk(s, w);
  }

  lemma LeaveKeepsHandshake(s: Pool, w: nat, e: nat)
    requires WorkerContext(s, w) && s.workers[w].pc == Leave
    requires e < |s.dispatchers| && InHandshake(s.dispatchers[e].pc) && DispatcherOk(s, e)
    ensures Shaped(AfterLeave(s, w)) && HandshakeOk(AfterLeave(s, w), e)
  {
    LeaverIsCounted(s, w);
    assert WorkOk(s, w);
  }

  lemma LeaveKeepsDispatcher(s: Pool, w: nat, e: nat)
    requires WorkerContext(s, w) && s.workers[w].pc == Leave
    requires e < |s.dispatchers| && Concerned(s, w, e) && DispatcherOk(s, e)
    ensures Shaped(AfterLeave(s, w)) && DispatcherOk(AfterLeave(s, w), e)
  {
    if HoldsSlot(s.dispatchers[e].pc) {
      LeaveKeepsSlot(s, w, e);
    }
    if InHandshake(s.dispatchers[e].pc) {
      LeaveKeepsHandshake(s, w, e);
    }
  }

  lemma LeaverIsCounted(s: Pool, w: nat)
    requires WorkerContext(s, w) && s.workers[w].pc == Leave
    ensures 0 < s.jobs[s.workers[w].current.value].active
  {
    var j := s.workers[w].current.value;
    CountIfPositive((x: Worker) => x.current == Some(j), s.workers, w);
  }

  /** When the count falls to zero nobody else is on the job. */
  lemma LastOneLeaves(s: Pool, w: nat)
    requires WorkerContext(s, w) && s.workers[w].pc == Leave && s.jobs[s.workers[w].current.value].active <= 1
    ensures forall v :: 0 <= v < s.Size() && v != w ==> s.workers[v].current != s.workers[w].current
  {
    var s', j := AfterLeave(s, w), s.workers[w].current.value;
    LeaverIsCounted(s, w);
    Counts(s, s', w);
    forall v | 0 <= v < s.Size() && v != w
      ensures s.workers[v].current != Some(j)
    {
      if s'.workers[v].current == Some(j) {
        CountIfPositive((x: Worker) => x.current == Some(j), s'.workers, v);
      }
    }
  }

  lemma LeaveTouches(s: Pool, w: nat)
    requires WorkerContext(s, w) && s.workers[w].pc == Leave
    ensures WorkerTouches(s, AfterLeave(s, w), w) && WorkerOk(AfterLeave(s, w), w)
  {
    LeaverIsCounted(s, w);
    if s.jobs[s.workers[w].current.value].active <= 1 {
      LastOneLeaves(s, w);
    }
  }

  lemma LeaveKeeps(s: Pool, w: nat)
    requires WorkerContext(s, w) && s.workers[w].pc == Leave
    ensures WorkerOutcome(s, AfterLeave(s, w), w)
  {
    var s' := AfterLeave(s, w);
    LeaveTouches(s, w);
    Counts(s, s', w);
    LeaverIsCounted(s, w);
    forall e | 0 <= e < |s.dispatchers| && Concerned(s, w, e)
      ensures DispatcherOk(s', e)
    {
      LeaveKeepsDispatcher(s, w, e);
    }
  }

  lemma AwaitRunKeeps(s: Pool, w: nat)
    requires WorkerContext(s, w) && s.workers[w].pc == AwaitRun && WorkerEnabled(s, w)
    ensures WorkerOutcome(s, AfterAwaitRun(s, w), w)
  {
    Counts(s, AfterAwaitRun(s, w), w);
  }

  lemma RanKeeps(s: Pool, w: nat)
    requires WorkerContext(s, w) && s.workers[w].pc == Ran
    ensures WorkerOutcome(s, AfterRan(s, w), w)
  {
    Counts(s, AfterRan(s, w), w);
  }

  lemma WorkerStepOutcome(s: Pool, w: nat)
    requires WorkerContext(s, w) && WorkerEnabled(s, w)
    ensures WorkerOutcome(s, WorkerNext(s, w), w)
  {
    match s.workers[w].pc {
      case NotStarted => NotStartedKeeps(s, w);
      case StartingUp => StartingUpKeeps(s, w);
      case Started => StartedKeeps(s, w);
      case Asleep => AsleepKeeps(s, w);
      case Woken => WokenKeeps(s, w);
      case Join => JoinKeeps(s, w);
      case JoinUnlock => JoinUnlockKeeps(s, w);
      case WakeUnlock => WakeUnlockKeeps(s, w);
      case ReadFunction => ReadFunctionKeeps(s, w);
      case ReadArgument => ReadArgumentKeeps(s, w);
      case Inside => InsideKeeps(s, w);
      case LeaveLock => LeaveLockKeeps(s, w);
      case Leave => LeaveKeeps(s, w);
      case AwaitRun => AwaitRunKeeps(s, w);
      case Ran => RanKeeps(s, w);
    }
  }

  /** Every step of a worker keeps the invariant. */
  lemma WorkerStepKeeps(s: Pool, w: nat)
    requires Inv(s) && w < s.Size() && WorkerEnabled(s, w)
    ensures Inv(WorkerNext(s, w)) && WorkerTouches(s, WorkerNext(s, w), w)
  {
    assert WorkerOk(s, w);
    assert TouchedJob(s, w).Some? ==> JobOk(s, TouchedJob(s, w).value);
    WorkerStepOutcome(s, w);
    WorkerRestKept(s, WorkerNext(s, w), w);
  }

  lemma WorkerRestKept(s: Pool, s': Pool, w: nat)
    requires Inv(s) && WorkerContext(s, w) && WorkerOutcome(s, s', w)
    ensures Inv(s')
  {
    forall e | 0 <= e < |s'.dispatchers|
      ensures DispatcherOk(s', e)
    {
      if !Concerned(s, w, e) {
        assert DispatcherOk(s, e);
        KeepsUnconcerned(s, s', w, e);
      }
    }
    forall v | 0 <= v < s'.Size()
      ensures WorkerOk(s', v)
    {
      if v != w {
        assert WorkerOk(s, v);
        KeepsOtherWorker(s, s', w, v);
      }
    }
    forall k | 0 <= k < s'.Size()
      ensures JobOk(s', k)
    {
      if TouchedJob(s, w) != Some(k) {
        assert JobOk(s, k);
        KeepsUntouchedJob(s, s', w, k);
      }
    }
  }
}
