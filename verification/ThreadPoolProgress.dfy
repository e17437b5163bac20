/**
 The thread pool cannot deadlock, and it does a bounded amount of work for each call: in every run the
 steps that count, which are all but rounds of polling and failed attempts to take a lock, are at most a
 fixed number for each call (Source/RKThreadPool.m:231-294, 321-360). Job functions are taken to return; a
 pool is never told to stop.
 */
module ThreadPoolProgress {
  import opened Base
  import opened ThreadPool
  import opened ThreadPoolSteps
  import opened ThreadPoolSafety

  ghost predicate AllOutside(s: Pool) {
    forall d :: 0 <= d < |s.dispatchers| ==> s.dispatchers[d].pc == Outside
  }

  /** The caller goes round the loop of lines 259-260, looking for a sleeping worker while the job is Executing. */
  ghost predicate Polls(s: Pool, d: nat)
    requires Shaped(s) && d < |s.dispatchers|
  {
    var x := s.dispatchers[d];
    && x.pc in {While, For} && s.jobs[x.slot].condition == Executing
    && (x.pc == While ==> x.started < s.live)
  }

  ghost predicate DispatcherCounts(s: Pool, d: nat)
    requires Shaped(s) && d < |s.dispatchers|
  {
    DispatcherEnabled(s, d) && !Polls(s, d)
  }

  /** A step that counts: it is no round of polling, no failed attempt and no new call. */
  ghost predicate CountingStep(s: Pool, s': Pool) {
    && Shaped(s)
    && (|| (exists d: nat :: d < |s.dispatchers| && DispatcherCounts(s, d) && s' == DispatcherNext(s, d))
        || (exists w: nat :: w < s.Size() && WorkerEnabled(s, w) && s' == WorkerNext(s, w)))
  }

  ghost predicate IdleStep(s: Pool, s': Pool, d: nat)
    requires Shaped(s) && d < |s.dispatchers|
  {
    (Polls(s, d) && s' == DispatcherNext(s, d)) || AttemptFails(s, d, s')
  }

  /** Some party can take a step that counts. */
  ghost predicate CanMove(s: Pool)
    requires Shaped(s)
  {
    || (exists d: nat :: d < |s.dispatchers| && DispatcherCounts(s, d))
    || (exists w: nat :: w < s.Size() && WorkerEnabled(s, w))
  }

  // ------------------------------------------------------------------ the rank

  /** How many steps a worker has before it, at most, until it sleeps again. */
  ghost function WorkerRank(x: Worker, l: ThreadLock): nat {
    match x.pc
    case NotStarted => 3
    case StartingUp => 2
    case Started => 1
    case Asleep => if l.condition == Wakeup then 12 else 0
    case Woken => 11
    case Join => 10
    case JoinUnlock => 9
    case WakeUnlock => 8
    case ReadFunction => 7
    case ReadArgument => 6
    case Inside => 5
    case LeaveLock => 4
    case Leave => 3
    case AwaitRun => 2
    case Ran => 1
  }

  /** The same for a dispatcher, whose handshakes also pay for the workers they wake. */
  ghost function DispatcherRank(x: Dispatcher, jobs: seq<Job>): nat {
    var n := |jobs|;
    var executing := x.slot < n && jobs[x.slot].condition == Executing;
    var left := if x.started + (if InHandshake(x.pc) then 1 else 0) <= n
                then n - x.started - (if InHandshake(x.pc) then 1 else 0) else 0;
    match x.pc
    case Outside => 0
    case Odd => 0
    case Claim => 30 * n + 14
    case SetFunction => 30 * n + 13
    case SetArgument => 30 * n + 12
    case Publish => 30 * n + 11
    case ClearFunction => 3
    case ClearArgument => 2
    case Release => 1
    case pc => if executing then 30 * left + ExecutingRank(pc) else ClosingRank(pc)
  }

  ghost function ExecutingRank(pc: DispatcherPc): nat {
    match pc
    case For => 8
    case While => 8
    case Try => 8
    case Got => 27
    case Wake => 26
    case Await => 13
    case Run => 12
    case Counted => 11
    case Undo => 7
    case _ => 4
  }

  ghost function ClosingRank(pc: DispatcherPc): nat {
    match pc
    case For => 6
    case While => 5
    case Try => 24
    case Got => 23
    case Wake => 22
    case Await => 9
    case Run => 8
    case Counted => 7
    case Undo => 7
    case _ => 4
  }

  ghost function DispatcherRanks(s: Pool): seq<nat> {
    seq(|s.dispatchers|, d requires 0 <= d < |s.dispatchers| => DispatcherRank(s.dispatchers[d], s.jobs))
  }

  ghost function WorkerRanks(s: Pool): seq<nat>
    requires |s.locks| == s.Size()
  {
    seq(s.Size(), w requires 0 <= w < s.Size() => WorkerRank(s.workers[w], s.locks[w]))
  }

  ghost function Rank(s: Pool): nat
    requires |s.locks| == s.Size()
  {
    Sum(DispatcherRanks(s)) + Sum(WorkerRanks(s))
  }

  ghost predicate Pays(s: Pool, s': Pool, d: nat)
    requires d < |s.dispatchers|
  {
    var x := s.dispatchers[d];
    && |s'.dispatchers| == |s.dispatchers|
    && DispatcherRank(s'.dispatchers[d], s'.jobs) + (if x.pc == Wake then 12 else 0) < DispatcherRank(x, s.jobs)
  }

  lemma OpeningPays(s: Pool, d: nat)
    requires Inv(s) && d < |s.dispatchers| && DispatcherCounts(s, d)
    requires s.dispatchers[d].pc in {Claim, SetFunction, SetArgument, Publish, While, For, Try}
    ensures Pays(s, DispatcherNext(s, d), d)
  {
    assert DispatcherOk(s, d);
  }

  lemma WakingPays(s: Pool, d: nat)
    requires Inv(s) && d < |s.dispatchers| && DispatcherCounts(s, d)
    requires s.dispatchers[d].pc in {Got, Wake, Await, Run, Counted, Undo}
    ensures Pays(s, DispatcherNext(s, d), d)
  {
    assert DispatcherOk(s, d);
  }

  /** A dispatcher's own rank falls with a step that counts, by enough to pay for a worker it wakes. */
  lemma DispatcherPays(s: Pool, d: nat)
    requires Inv(s) && d < |s.dispatchers| && DispatcherCounts(s, d)
    ensures Pays(s, DispatcherNext(s, d), d)
  {
    if s.dispatchers[d].pc in {Claim, SetFunction, SetArgument, Publish, While, For, Try} {
      OpeningPays(s, d);
    } else if s.dispatchers[d].pc in {Got, Wake, Await, Run, Counted, Undo} {
      WakingPays(s, d);
    }
  }

  /** The ranks of the other dispatchers do not change. */
  lemma OtherDispatchersRest(s: Pool, d: nat, e: nat)
    requires Inv(s) && d < |s.dispatchers| && DispatcherEnabled(s, d) && e < |s.dispatchers| && e != d
    ensures var s' := DispatcherNext(s, d);
            |s'.dispatchers| == |s.dispatchers|
            && DispatcherRank(s'.dispatchers[e], s'.jobs) == DispatcherRank(s.dispatchers[e], s.jobs)
  {
    assert DispatcherOk(s, d) && DispatcherOk(s, e);
    if s.dispatchers[d].pc != Claim {
      DispatcherStepKeeps(s, d);
      UntouchedDispatcherRests(s, DispatcherNext(s, d), d, e);
    }
  }

  lemma UntouchedDispatcherRests(s: Pool, s': Pool, d: nat, e: nat)
    requires Shaped(s) && d < |s.dispatchers| && DispatcherOk(s, d) && DispatcherTouches(s, s', d)
    requires e < |s.dispatchers| && e != d && DispatcherOk(s, e)
    ensures DispatcherRank(s'.dispatchers[e], s'.jobs) == DispatcherRank(s.dispatchers[e], s.jobs)
  {
  }

  /** A dispatcher's step raises the rank of no worker, but for the one it wakes. */
  lemma WorkersRest(s: Pool, d: nat, w: nat)
    requires Inv(s) && d < |s.dispatchers| && DispatcherEnabled(s, d) && w < s.Size()
    ensures var s' := DispatcherNext(s, d);
            var x := s.dispatchers[d];
            s'.Size() == s.Size() == |s'.locks|
            && WorkerRank(s'.workers[w], s'.locks[w])
               <= WorkerRank(s.workers[w], s.locks[w]) + (if x.pc == Wake && x.at == w then 12 else 0)
  {
    assert DispatcherOk(s, d) && WorkerOk(s, w);
  }

  lemma DispatcherStepLowersRank(s: Pool, d: nat)
    requires Inv(s) && d < |s.dispatchers| && DispatcherCounts(s, d)
    ensures |DispatcherNext(s, d).locks| == DispatcherNext(s, d).Size()
    ensures Rank(DispatcherNext(s, d)) < Rank(s)
  {
    var s' := DispatcherNext(s, d);
    var x := s.dispatchers[d];
    DispatcherStepKeeps(s, d);
    DispatcherPays(s, d);
    forall e | 0 <= e < |s.dispatchers| && e != d
      ensures DispatcherRanks(s')[e] <= DispatcherRanks(s)[e]
    {
      OtherDispatchersRest(s, d, e);
    }
    SumAtMost(DispatcherRanks(s'), DispatcherRanks(s), d);
    forall w | 0 <= w < s.Size()
      ensures WorkerRanks(s')[w] <= WorkerRanks(s)[w] + (if x.pc == Wake && x.at == w then 12 else 0)
    {
      WorkersRest(s, d, w);
    }
    if x.pc == Wake {
      SumAtMost(WorkerRanks(s'), WorkerRanks(s), x.at);
    } else {
      SumMonotone(WorkerRanks(s'), WorkerRanks(s));
    }
  }

  lemma OnlyDispatcherMoves(s: Pool, s': Pool, d: nat)
    requires Shaped(s) && d < |s.dispatchers| && (IdleStep(s, s', d) || Begin(s, d, s'))
    ensures |s'.dispatchers| == |s.dispatchers| && s'.jobs == s.jobs && s'.workers == s.workers && s'.locks == s.locks
    ensures forall e :: 0 <= e < |s.dispatchers| && e != d ==> s'.dispatchers[e] == s.dispatchers[e]
  {
  }

  /** A step in which only dispatcher d moves raises the rank by no more than its own. */
  lemma OnlyDispatcherRank(s: Pool, s': Pool, d: nat)
    requires Shaped(s) && d < |s.dispatchers| && (IdleStep(s, s', d) || Begin(s, d, s'))
    ensures |s'.dispatchers| == |s.dispatchers| && |s'.locks| == s'.Size() == s.Size()
    ensures Rank(s') + DispatcherRank(s.dispatchers[d], s.jobs) <= Rank(s) + DispatcherRank(s'.dispatchers[d], s'.jobs)
  {
    OnlyDispatcherMoves(s, s', d);
    assert WorkerRanks(s') == WorkerRanks(s);
    forall e | 0 <= e < |s.dispatchers| && e != d
      ensures DispatcherRanks(s')[e] <= DispatcherRanks(s)[e]
    {
    }
    SumAtMost(DispatcherRanks(s'), DispatcherRanks(s), d);
  }

  /** Rounds of polling and failed attempts do not raise the rank. */
  lemma IdleStepKeepsRank(s: Pool, s': Pool, d: nat)
    requires Inv(s) && d < |s.dispatchers| && IdleStep(s, s', d)
    ensures |s'.locks| == s'.Size() && Rank(s') <= Rank(s) && s'.nextCall == s.nextCall && s'.Size() == s.Size()
  {
    assert DispatcherOk(s, d);
    OnlyDispatcherRank(s, s', d);
  }

  /** What one call adds. */
  function CallCost(size: nat): nat {
    30 * size + 14
  }

  lemma BeginRaisesRank(s: Pool, s': Pool, d: nat)
    requires Inv(s) && d < |s.dispatchers| && Begin(s, d, s')
    ensures |s'.locks| == s'.Size() == s.Size() && Rank(s') <= Rank(s) + CallCost(s.Size())
  {
    OnlyDispatcherRank(s, s', d);
  }

  /** A worker changes the condition of a job only by leaving it. */
  lemma WorkersKeepConditions(s: Pool, w: nat, j: nat)
    requires Shaped(s) && w < s.Size() && WorkerEnabled(s, w) && s.workers[w].pc != Leave && j < s.Size()
    ensures var s' := WorkerNext(s, w);
            s'.dispatchers == s.dispatchers && |s'.jobs| == |s.jobs| && s'.jobs[j].condition == s.jobs[j].condition
  {
  }

  /** A job that a worker leaves is Executing no more. */
  lemma LeavingLowersRank(s: Pool, w: nat, e: nat)
    requires Inv(s) && w < s.Size() && s.workers[w].pc == Leave && e < |s.dispatchers|
    ensures var s' := AfterLeave(s, w);
            s'.dispatchers == s.dispatchers
            && DispatcherRank(s'.dispatchers[e], s'.jobs) <= DispatcherRank(s.dispatchers[e], s.jobs)
  {
    assert DispatcherOk(s, e);
  }

  lemma DispatchersRest(s: Pool, w: nat, e: nat)
    requires Inv(s) && w < s.Size() && WorkerEnabled(s, w) && e < |s.dispatchers|
    ensures var s' := WorkerNext(s, w);
            s'.dispatchers == s.dispatchers
            && DispatcherRank(s'.dispatchers[e], s'.jobs) <= DispatcherRank(s.dispatchers[e], s.jobs)
  {
    if s.workers[w].pc == Leave {
      LeavingLowersRank(s, w, e);
    } else if s.Size() > 0 {
      var slot := s.dispatchers[e].slot;
      WorkersKeepConditions(s, w, if slot < s.Size() then slot else 0);
    }
  }

  lemma WorkerStepLowersRank(s: Pool, w: nat)
    requires Inv(s) && w < s.Size() && WorkerEnabled(s, w)
    ensures |WorkerNext(s, w).locks| == WorkerNext(s, w).Size()
    ensures Rank(WorkerNext(s, w)) < Rank(s)
  {
    var s' := WorkerNext(s, w);
    WorkerStepKeeps(s, w);
    forall e | 0 <= e < |s.dispatchers|
      ensures DispatcherRanks(s')[e] <= DispatcherRanks(s)[e]
    {
      DispatchersRest(s, w, e);
    }
    SumMonotone(DispatcherRanks(s'), DispatcherRanks(s));
    OwnRankFalls(s, w);
    forall v | 0 <= v < s.Size() && v != w
      ensures WorkerRanks(s')[v] <= WorkerRanks(s)[v]
    {
    }
    SumAtMost(WorkerRanks(s'), WorkerRanks(s), w);
  }

  lemma OwnRankFalls(s: Pool, w: nat)
    requires Inv(s) && w < s.Size() && WorkerEnabled(s, w)
    ensures var s' := WorkerNext(s, w);
            s'.Size() == s.Size() == |s'.locks|
            && WorkerRank(s'.workers[w], s'.locks[w]) < WorkerRank(s.workers[w], s.locks[w])
  {
    assert WorkerOk(s, w);
  }

  // ------------------------------------------------------------------ no deadlock

  /** Whoever holds the lock of a job slot can go on. */
  lemma JobOwnerMoves(s: Pool, j: nat)
    requires Inv(s) && j < s.Size() && s.jobs[j].owner != Free
    ensures CanMove(s)
  {
    assert JobOk(s, j);
    match s.jobs[j].owner {
      case ByDispatcher(d) =>
        assert DispatcherOk(s, d);
        assert DispatcherCounts(s, d);
      case ByWorker(w) =>
        assert WorkerEnabled(s, w);
    }
  }

  /** A worker that is not asleep behind a free lock is being moved on, by itself or by somebody else. */
  lemma BusyWorkerMoves(s: Pool, w: nat)
    requires Inv(s) && w < s.Size()
    requires s.locks[w].owner != Free || s.locks[w].condition != Sleeping
    ensures CanMove(s)
  {
    assert WorkerOk(s, w);
    var l := s.locks[w];
    if WorkerEnabled(s, w) {
    } else if s.workers[w].pc == Woken {
      JobOwnerMoves(s, s.queue[w].value);
    } else if s.workers[w].pc == LeaveLock {
      JobOwnerMoves(s, s.workers[w].current.value);
    } else {
      var p := l.partner.value;
      assert DispatcherOk(s, p);
      assert DispatcherCounts(s, p);
    }
  }

  lemma SlotHolderMoves(s: Pool, d: nat)
    requires Inv(s) && d < |s.dispatchers| && HoldsSlot(s.dispatchers[d].pc)
    ensures CanMove(s) || Polls(s, d)
  {
    var x := s.dispatchers[d];
    assert DispatcherOk(s, d);
    if DispatcherEnabled(s, d) {
      assert DispatcherCounts(s, d) || Polls(s, d);
    } else if x.pc in {Try, Await} {
      BusyWorkerMoves(s, x.at);
    } else {
      assert JobOk(s, x.slot);
      if s.jobs[x.slot].owner != Free {
        JobOwnerMoves(s, x.slot);
      } else {
        var w := CountIfWitness((y: Worker) => y.current == Some(x.slot), s.workers);
        assert WorkerOk(s, w);
        BusyWorkerMoves(s, w);
      }
    }
  }

  /** While a call is outstanding, somebody can take a step that counts, or goes round the loop in search of a worker. */
  lemma SomebodyMoves(s: Pool)
    requires Inv(s) && !AllOutside(s)
    ensures CanMove(s) || exists d: nat :: d < |s.dispatchers| && Polls(s, d)
  {
    var d: nat :| d < |s.dispatchers| && s.dispatchers[d].pc != Outside;
    if HoldsSlot(s.dispatchers[d].pc) {
      SlotHolderMoves(s, d);
    } else if DispatcherEnabled(s, d) {
      assert DispatcherCounts(s, d);
    } else {
      var j := s.dispatchers[d].at;
      assert JobOk(s, j);
      SlotHolderMoves(s, s.jobs[j].holder.value);
    }
  }

  /** How many rounds of polling are left before a worker is tried. */
  ghost function RoundsLeft(x: Dispatcher, size: nat): nat {
    if x.pc == While then 1 else if x.at < size then 0 else 2
  }

  /** When nobody else can move, all workers sleep, and a caller in search of one gets nearer to it. */
  lemma PollsTowardsWorker(s: Pool, d: nat)
    requires Inv(s) && d < |s.dispatchers| && Polls(s, d) && !CanMove(s)
    ensures var s' := DispatcherNext(s, d);
            && Inv(s')
            && (|| CanMove(s')
                || (d < |s'.dispatchers| && Polls(s', d)
                    && RoundsLeft(s'.dispatchers[d], s'.Size()) < RoundsLeft(s.dispatchers[d], s.Size())))
  {
    var s', x := DispatcherNext(s, d), s.dispatchers[d];
    assert DispatcherOk(s, d);
    DispatcherStepKeeps(s, d);
    if x.pc == For && x.at < s.Size() {
      if s.locks[x.at].owner != Free || s.locks[x.at].condition != Sleeping {
        BusyWorkerMoves(s, x.at);
      }
      assert DispatcherCounts(s', d);
    }
  }

  /** The steps of a path: no call is begun on it. */
  ghost predicate Continues(s: Pool, s': Pool) {
    Shaped(s) && (CountingStep(s, s') || exists d: nat :: d < |s.dispatchers| && IdleStep(s, s', d))
  }

  ghost predicate PollsOn(s: Pool, s': Pool, d: nat) {
    Shaped(s) && d < |s.dispatchers| && Polls(s, d) && s' == DispatcherNext(s, d)
  }

  /** Caller d polls from each state of the run to the next. */
  ghost predicate Polling(run: seq<Pool>, d: nat) {
    forall i, j {:trigger run[i], run[j]} :: 0 <= i && j == i + 1 < |run| ==> PollsOn(run[i], run[j], d)
  }

  lemma PollingCons(s: Pool, rest: seq<Pool>, d: nat)
    requires rest != [] && Polling(rest, d) && PollsOn(s, rest[0], d)
    ensures Polling([s] + rest, d)
  {
    var run := [s] + rest;
    forall i, j | 0 <= i && j == i + 1 < |run|
      ensures PollsOn(run[i], run[j], d)
    {
      assert run[j] == rest[j - 1];
      assert i > 0 ==> run[i] == rest[i - 1];
    }
  }

  /** After at most so many rounds somebody can take a step that counts. */
  lemma {:induction false} PollingLeads(s: Pool, d: nat) returns (run: seq<Pool>)
    requires Inv(s) && d < |s.dispatchers| && Polls(s, d)
    ensures 0 < |run| <= RoundsLeft(s.dispatchers[d], s.Size()) + 2 && run[0] == s && Polling(run, d)
    ensures Inv(run[|run| - 1]) && CanMove(run[|run| - 1]) && Rank(run[|run| - 1]) <= Rank(s)
    decreases RoundsLeft(s.dispatchers[d], s.Size())
  {
    run := [s];
    if !CanMove(s) {
      var s' := DispatcherNext(s, d);
      PollsTowardsWorker(s, d);
      IdleStepKeepsRank(s, s', d);
      var rest := [s'];
      if !CanMove(s') {
        rest := PollingLeads(s', d);
      }
      PollingCons(s, rest, d);
      run := [s] + rest;
    }
  }

  /** No deadlock: while a call is outstanding, a step that counts can be taken, if need be after at most
      three rounds of polling by one caller. */
  lemma NoDeadlock(s: Pool) returns (run: seq<Pool>, d: nat)
    requires Inv(s) && !AllOutside(s)
    ensures 0 < |run| <= 4 && run[0] == s && Polling(run, d)
    ensures Inv(run[|run| - 1]) && CanMove(run[|run| - 1]) && Rank(run[|run| - 1]) <= Rank(s)
  {
    run, d := [s], 0;
    SomebodyMoves(s);
    if !CanMove(s) {
      d :| d < |s.dispatchers| && Polls(s, d);
      run := PollingLeads(s, d);
    }
  }

  /** Every step that counts lowers the rank. */
  lemma CountingStepLowersRank(s: Pool, s': Pool)
    requires Inv(s) && CountingStep(s, s')
    ensures Inv(s') && Rank(s') < Rank(s) && s'.nextCall == s.nextCall && s'.Size() == s.Size()
  {
    if d: nat :| d < |s.dispatchers| && DispatcherCounts(s, d) && s' == DispatcherNext(s, d) {
      DispatcherStepKeeps(s, d);
      DispatcherStepLowersRank(s, d);
      DispatcherKeepsCallers(s, d);
    } else {
      var w: nat :| w < s.Size() && WorkerEnabled(s, w) && s' == WorkerNext(s, w);
      WorkerStepKeeps(s, w);
      WorkerStepLowersRank(s, w);
      WorkerKeepsCallers(s, w);
    }
  }

  // ------------------------------------------------------------------ whole runs

  /** How many of the first k steps of a run count. */
  ghost function CountingSteps(run: seq<Pool>, k: nat): nat
    requires k < |run|
  {
    if k == 0 then 0 else CountingSteps(run, k - 1) + (if CountingStep(run[k - 1], run[k]) then 1 else 0)
  }

  lemma StepKinds(s: Pool, s': Pool)
    requires Next(s, s')
    ensures || CountingStep(s, s')
            || (exists d: nat :: d < |s.dispatchers| && IdleStep(s, s', d))
            || (exists d: nat :: d < |s.dispatchers| && Begin(s, d, s'))
  {
    if d: nat :| d < |s.dispatchers| && DispatcherEnabled(s, d) && s' == DispatcherNext(s, d) {
      assert DispatcherCounts(s, d) || IdleStep(s, s', d);
    } else if d: nat :| d < |s.dispatchers| && AttemptFails(s, d, s') {
      assert IdleStep(s, s', d);
    }
  }

  function Added(before: nat, after: nat, size: nat): nat {
    if before < after then CallCost(size) else 0
  }

  /** A step counts and lowers the rank, or does not raise it, or begins a call and raises it by the cost of one. */
  lemma StepMovesRank(s: Pool, s': Pool)
    requires Inv(s) && Next(s, s')
    ensures |s'.locks| == s'.Size() == s.Size() && s.nextCall <= s'.nextCall <= s.nextCall + 1
    ensures Rank(s') + (if CountingStep(s, s') then 1 else 0) <= Rank(s) + Added(s.nextCall, s'.nextCall, s.Size())
  {
    StepKinds(s, s');
    if CountingStep(s, s') {
      CountingStepLowersRank(s, s');
    } else if d: nat :| d < |s.dispatchers| && IdleStep(s, s', d) {
      IdleStepKeepsRank(s, s', d);
    } else {
      var d: nat :| d < |s.dispatchers| && Begin(s, d, s');
      BeginRaisesRank(s, s', d);
    }
  }

  lemma RunStepMovesRank(run: seq<Pool>, i: nat)
    requires IsRun(run) && i + 1 < |run| && |run[i].locks| == run[i].Size()
    ensures |run[i + 1].locks| == run[i + 1].Size() == run[i].Size()
    ensures run[i].nextCall <= run[i + 1].nextCall <= run[i].nextCall + 1
    ensures Rank(run[i + 1]) + (if CountingStep(run[i], run[i + 1]) then 1 else 0)
            <= Rank(run[i]) + Added(run[i].nextCall, run[i + 1].nextCall, run[i].Size())
  {
    RunInv(run, i);
    assert StepAt(run, i);
    StepMovesRank(run[i], run[i + 1]);
  }

  lemma {:induction false} SumThrees(s: seq<nat>)
    requires forall i :: 0 <= i < |s| ==> s[i] == 3
    ensures Sum(s) == 3 * |s|
  {
    if s != [] {
      SumThrees(s[..|s| - 1]);
    }
  }

  lemma InitialRank(s: Pool)
    requires Initial(s)
    ensures Rank(s) == 3 * s.Size()
  {
    SumZero(DispatcherRanks(s));
    SumThrees(WorkerRanks(s));
  }

  /** Three steps to start each worker, and the cost of each call. */
  function Allowance(size: nat, calls: nat): nat {
    3 * size + calls * CallCost(size)
  }

  lemma AllowanceGrows(size: nat, first: nat, before: nat, after: nat)
    requires first <= before <= after <= before + 1
    ensures Allowance(size, before - first) + Added(before, after, size) == Allowance(size, after - first)
  {
    var calls, cost := before - first, CallCost(size);
    assert (calls + 1) * cost == calls * cost + cost;
  }

  /** The steps that count, and the rank that is left, against the allowance for the calls begun so far. */
  ghost predicate WithinAllowance(run: seq<Pool>, k: nat)
    requires k < |run|
  {
    && run[k].Size() == run[0].Size() == |run[k].locks| && run[0].nextCall <= run[k].nextCall
    && CountingSteps(run, k) + Rank(run[k]) <= Allowance(run[0].Size(), run[k].nextCall - run[0].nextCall)
  }

  lemma StaysWithinAllowance(run: seq<Pool>, k: nat)
    requires IsRun(run) && k + 1 < |run| && WithinAllowance(run, k)
    ensures WithinAllowance(run, k + 1)
  {
    RunStepMovesRank(run, k);
    AllowanceGrows(run[0].Size(), run[0].nextCall, run[k].nextCall, run[k + 1].nextCall);
  }

  /** In every run, with any number of failed attempts, the steps that count are at most three for each worker, to start
      it, and a fixed number for each call that was begun. */
  lemma {:induction false} WorkIsBounded(run: seq<Pool>, k: nat)
    requires IsRun(run) && k < |run|
    ensures WithinAllowance(run, k)
  {
    if k == 0 {
      InitialRank(run[0]);
    } else {
      WorkIsBounded(run, k - 1);
      StaysWithinAllowance(run, k - 1);
    }
  }

  // ------------------------------------------------------------------ every call can return

  /** Consecutive states of the path are steps apart in which no call is begun. */
  ghost predicate IsPath(run: seq<Pool>) {
    forall i, j {:trigger run[i], run[j]} :: 0 <= i && j == i + 1 < |run| ==> Continues(run[i], run[j])
  }

  lemma PollingIsPath(run: seq<Pool>, d: nat)
    requires Polling(run, d)
    ensures IsPath(run)
  {
    forall i, j | 0 <= i && j == i + 1 < |run|
      ensures Continues(run[i], run[j])
    {
      assert PollsOn(run[i], run[j], d);
      assert IdleStep(run[i], run[j], d);
    }
  }

  lemma PathsJoin(a: seq<Pool>, b: seq<Pool>)
    requires a != [] && b != [] && IsPath(a) && IsPath(b) && Continues(a[|a| - 1], b[0])
    ensures IsPath(a + b)
  {
    var run := a + b;
    forall i, j | 0 <= i && j == i + 1 < |run|
      ensures Continues(run[i], run[j])
    {
      if j < |a| {
        assert Continues(a[i], a[j]);
      } else if i >= |a| {
        assert Continues(b[i - |a|], b[j - |a|]);
      }
    }
  }

  /** From every reachable state there is a way to go on in which every outstanding call returns. */
  lemma {:induction false} EveryCallCanReturn(s: Pool) returns (run: seq<Pool>)
    requires Inv(s)
    ensures run != [] && run[0] == s && IsPath(run) && AllOutside(run[|run| - 1])
    ensures |run| <= 4 * Rank(s) + 1
    decreases Rank(s)
  {
    if AllOutside(s) {
      run := [s];
    } else {
      var polls, d := NoDeadlock(s);
      PollingIsPath(polls, d);
      var now := polls[|polls| - 1];
      var next :| CountingStep(now, next) by { SomeCountingStep(now); }
      CountingStepLowersRank(now, next);
      var rest := EveryCallCanReturn(next);
      PathsJoin(polls, rest);
      run := polls + rest;
    }
  }

  lemma SomeCountingStep(s: Pool)
    requires Inv(s) && CanMove(s)
    ensures exists s' :: CountingStep(s, s')
  {
    if d: nat :| d < |s.dispatchers| && DispatcherCounts(s, d) {
      assert CountingStep(s, DispatcherNext(s, d));
    } else {
      var w: nat :| w < s.Size() && WorkerEnabled(s, w);
      assert CountingStep(s, WorkerNext(s, w));
    }
  }
}
