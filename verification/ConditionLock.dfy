/**
 The condition lock of Source/RKLock.m: three fields guarded by a mutex and a condition
 variable. Seen from outside it is one atomic operation, "wait until the lock is free and its
 condition is the wanted one, then take it", and this module proves that.
 */
module ConditionLock {
  import opened Base

  /** conditionIsLocked, lockOwner and currentLockCondition. The owner of a free lock is stale. */
  datatype Fields = Fields(locked: bool, owner: nat, condition: int)

  /** RKConditionLockStrategy: whether the call may block, block for a time, or only try. */
  datatype Kind = Block | Timed | Try

  /** RKConditionUnlockStrategy. */
  datatype Wake = WakeNone | WakeOne | WakeAll

  /** A call of RKFastConditionLock. */
  datatype Request = Request(any: bool, wanted: int, kind: Kind)

  predicate Admits(f: Fields, r: Request) {
    !f.locked && (r.any || f.condition == r.wanted)
  }

  predicate OwnedBy(f: Fields, t: nat) {
    f.locked && f.owner == t
  }

  function Taken(f: Fields, t: nat): Fields {
    Fields(true, t, f.condition)
  }

  function Given(f: Fields, c: int): Fields {
    Fields(false, f.owner, c)
  }

  // ---------------------------------------------------------------------------------------
  // The threads around them
  // ---------------------------------------------------------------------------------------

  datatype Pc =
    | Idle          // in no call
    | PreCheck      // line 663: a try lock looks without the mutex
    | Enter         // line 674
    | Check         // lines 681-705, with the mutex
    | Asleep        // lines 686-687, in the queue of the condition variable
    | Waking        // lines 686-687, out of the queue, getting the mutex back
    | Finish        // lines 709 and 723, with the mutex
    | UnlockEnter   // line 714
    | UnlockSet     // lines 715-718, with the mutex
    | UnlockWake    // lines 720-721, with the mutex
    | Raised        // an exception of line 681 or 715

  datatype Thread = Thread(pc: Pc, request: Request, timedOut: bool, didLock: bool, to: int, wake: Wake)

  datatype State = State(fields: Fields, mutex: Option<nat>, threads: seq<Thread>)

  predicate HasMutex(pc: Pc) {
    pc in {Check, Finish, UnlockSet, UnlockWake}
  }

  function Moved(s: State, t: nat, x: Thread): State
    requires t < |s.threads|
  {
    s.(threads := s.threads[t := x])
  }

  /** A thread calls the lock function; it must not own the lock already. */
  ghost predicate CallLock(s: State, t: nat, r: Request, s': State)
    requires t < |s.threads|
  {
    var x := s.threads[t];
    && x.pc == Idle && !OwnedBy(s.fields, t)
    && s' == Moved(s, t, x.(pc := if r.kind == Try then PreCheck else Enter, request := r,
                            timedOut := false, didLock := false))
  }

  /** A thread calls the unlock function; it must own the lock. */
  ghost predicate CallUnlock(s: State, t: nat, c: int, wake: Wake, s': State)
    requires t < |s.threads|
  {
    var x := s.threads[t];
    && x.pc == Idle && OwnedBy(s.fields, t)
    && s' == Moved(s, t, x.(pc := UnlockEnter, to := c, wake := wake, didLock := false))
  }

  ghost predicate LockStep(s: State, t: nat, s': State)
    requires t < |s.threads|
  {
    var x := s.threads[t];
    match x.pc
    case PreCheck =>
      s' == Moved(s, t, x.(pc := if Admits(s.fields, x.request) then Enter else Idle))
    case Enter =>
      || (s.mutex == None && s' == Moved(s, t, x.(pc := Check)).(mutex := Some(t)))
      || (x.request.kind == Try && s' == Moved(s, t, x.(pc := Idle)))
    case Check =>
      if OwnedBy(s.fields, t) then
        s' == Moved(s, t, x.(pc := Raised))
      else if !x.timedOut && Admits(s.fields, x.request) then
        s' == Moved(s, t, x.(pc := Finish, didLock := true)).(fields := Taken(s.fields, t))
      else if x.timedOut || x.request.kind == Try then
        s' == Moved(s, t, x.(pc := Finish))
      else
        s' == Moved(s, t, x.(pc := Asleep)).(mutex := None)
    case Asleep =>
      // A timeout, or a spurious wake-up.
      || (x.request.kind == Timed && s' == Moved(s, t, x.(pc := Waking, timedOut := true)))
      || s' == Moved(s, t, x.(pc := Waking))
    case Waking =>
      s.mutex == None && s' == Moved(s, t, x.(pc := Check)).(mutex := Some(t))
    case Finish =>
      s' == Moved(s, t, x.(pc := Idle)).(mutex := None)
    case _ => false
  }

  ghost predicate UnlockStep(s: State, t: nat, s': State)
    requires t < |s.threads|
  {
    var x := s.threads[t];
    match x.pc
    case UnlockEnter =>
      s.mutex == None && s' == Moved(s, t, x.(pc := UnlockSet)).(mutex := Some(t))
    case UnlockSet =>
      if OwnedBy(s.fields, t) then
        s' == Moved(s, t, x.(pc := UnlockWake)).(fields := Given(s.fields, x.to))
      else
        s' == Moved(s, t, x.(pc := Raised))
    case UnlockWake =>
      (match x.wake
       case WakeAll => s' == s.(threads := Awakened(s.threads)[t := x.(pc := Finish)])
       case WakeOne => Signals(s, t, s')
       case WakeNone => s' == Moved(s, t, x.(pc := Finish)))
    case _ => false
  }

  /** pthread_cond_signal: one of those in the queue, if any, starts to get the mutex back. */
  ghost predicate Signals(s: State, t: nat, s': State)
    requires t < |s.threads|
  {
    var x := s.threads[t];
    || ((forall u :: 0 <= u < |s.threads| ==> s.threads[u].pc != Asleep) && s' == Moved(s, t, x.(pc := Finish)))
    || exists u: nat :: u < |s.threads| && s.threads[u].pc == Asleep
                        && s' == Moved(Moved(s, u, s.threads[u].(pc := Waking)), t, x.(pc := Finish))
  }

  /** pthread_cond_broadcast: everybody in the queue starts to get the mutex back. */
  function Awakened(threads: seq<Thread>): seq<Thread> {
    seq(|threads|, u requires 0 <= u < |threads| =>
      if threads[u].pc == Asleep then threads[u].(pc := Waking) else threads[u])
  }

  ghost predicate StepOf(s: State, t: nat, s': State)
    requires t < |s.threads|
  {
    || LockStep(s, t, s')
    || UnlockStep(s, t, s')
    || (exists r :: CallLock(s, t, r, s'))
    || (exists c, wake :: CallUnlock(s, t, c, wake, s'))
  }

  ghost predicate Initial(s: State) {
    && s.mutex == None && !s.fields.locked
    && forall t :: 0 <= t < |s.threads| ==> s.threads[t].pc == Idle
  }

  // ---------------------------------------------------------------------------------------
  // Refinement
  // ---------------------------------------------------------------------------------------

  /** The lock as its users see it: who has it, and its condition. */
  datatype Atomic = Atomic(owner: Option<nat>, condition: int)

  function Abstract(f: Fields): Atomic {
    Atomic(if f.locked then Some(f.owner) else None, f.condition)
  }

  /** Wait until the lock is free and has the wanted condition, then take it: one step. */
  predicate Acquire(a: Atomic, t: nat, r: Request, a': Atomic) {
    && a.owner == None && (r.any || a.condition == r.wanted)
    && a' == Atomic(Some(t), a.condition)
  }

  /** The lock could be taken now. */
  ghost predicate CanAcquire(a: Atomic, t: nat, r: Request): (b: bool)
    ensures b <==> a.owner == None && (r.any || a.condition == r.wanted)
  {
    assert Acquire(a, t, r, Atomic(Some(t), a.condition)) <==> a.owner == None && (r.any || a.condition == r.wanted);
    exists a' :: Acquire(a, t, r, a')
  }

  predicate LetGo(a: Atomic, t: nat, c: int, a': Atomic) {
    a.owner == Some(t) && a' == Atomic(None, c)
  }

  ghost predicate ThreadOk(s: State, t: nat)
    requires t < |s.threads|
  {
    var x := s.threads[t];
    && (HasMutex(x.pc) <==> s.mutex == Some(t))
    && x.pc != Raised
    && (x.pc in {UnlockEnter, UnlockSet} ==> OwnedBy(s.fields, t))
    && (x.pc in {PreCheck, Enter, Check, Asleep, Waking} ==> !OwnedBy(s.fields, t) && !x.didLock)
    && (x.pc in {UnlockEnter, UnlockSet, UnlockWake} ==> !x.didLock)
    && (x.pc in {PreCheck, Enter, Check, Asleep, Waking} && x.timedOut ==> x.request.kind == Timed)
    && (x.pc == Finish ==> (x.didLock <==> OwnedBy(s.fields, t)))
    && (x.pc == UnlockWake ==> !s.fields.locked)
  }

  ghost predicate Inv(s: State) {
    && (forall t :: 0 <= t < |s.threads| ==> ThreadOk(s, t))
    && (s.mutex.Some? ==> s.mutex.value < |s.threads|)
  }

  /** Thread u sleeps although it could have the lock. */
  ghost predicate Waits(s: State, u: nat)
    requires u < |s.threads|
  {
    s.threads[u].pc == Asleep && CanAcquire(Abstract(s.fields), u, s.threads[u].request)
  }

  ghost predicate SomebodyWaits(s: State) {
    exists u: nat :: u < |s.threads| && Waits(s, u)
  }

  /** The wake-up of this unlock reaches whoever sleeps on a guard that holds: it goes to all, or to one and there
      is no other sleeper to get it, or nobody needs it. */
  ghost predicate WakesEnough(s: State, t: nat)
    requires t < |s.threads|
  {
    match s.threads[t].wake
    case WakeAll => true
    case WakeOne => forall u: nat, v: nat :: u < |s.threads| && v < |s.threads| && Waits(s, u) && s.threads[v].pc == Asleep ==> u == v
    case WakeNone => !SomebodyWaits(s)
  }

  /** Every wake-up that is due reaches whoever needs it. */
  ghost predicate AllWakeEnough(s: State) {
    forall t: nat :: t < |s.threads| && s.threads[t].pc == UnlockWake ==> WakesEnough(s, t)
  }

  /** Every unlock under way wakes all sleepers. */
  ghost predicate Broadcasts(s: State) {
    forall t :: 0 <= t < |s.threads| && s.threads[t].pc in {UnlockEnter, UnlockSet, UnlockWake} ==>
      s.threads[t].wake == WakeAll
  }

  /** A sleeper whose guard holds is about to be woken: an unlock is between its two halves. */
  ghost predicate NobodyForgotten(s: State) {
    forall t :: 0 <= t < |s.threads| && Waits(s, t) ==>
      s.mutex.Some? && s.mutex.value < |s.threads| && s.threads[s.mutex.value].pc == UnlockWake
  }

  lemma InitialInv(s: State)
    requires Initial(s)
    ensures Inv(s) && NobodyForgotten(s)
  {
  }

  lemma LockStepKeeps(s: State, t: nat, s': State)
    requires Inv(s) && t < |s.threads| && LockStep(s, t, s')
    ensures Inv(s')
  {
    assert ThreadOk(s, t);
    forall u | 0 <= u < |s'.threads|
      ensures ThreadOk(s', u)
    {
      assert ThreadOk(s, u);
    }
  }

  lemma UnlockStepKeeps(s: State, t: nat, s': State)
    requires Inv(s) && t < |s.threads| && UnlockStep(s, t, s')
    ensures Inv(s')
  {
    assert ThreadOk(s, t);
    forall u | 0 <= u < |s'.threads|
      ensures ThreadOk(s', u)
    {
      assert ThreadOk(s, u);
    }
  }

  /**
   Every step keeps the invariant; in particular no exception is ever raised, so long as
   threads lock only what they do not own and unlock only what they own.
   */
  lemma StepKeepsInv(s: State, t: nat, s': State)
    requires Inv(s) && t < |s.threads| && StepOf(s, t, s')
    ensures Inv(s')
  {
    if LockStep(s, t, s') {
      LockStepKeeps(s, t, s');
    } else if UnlockStep(s, t, s') {
      UnlockStepKeeps(s, t, s');
    } else {
      forall u | 0 <= u < |s'.threads|
        ensures ThreadOk(s', u)
      {
        assert ThreadOk(s, u);
      }
    }
  }

  /**
   The lock refines the atomic one. A step of thread t changes nothing users can see, or it is t
   taking the free lock with the condition t asked for, or it is t giving the lock back. The
   lock call reports success exactly when t has come to own the lock.
   */
  lemma RefinesAtomic(s: State, t: nat, s': State)
    requires Inv(s) && t < |s.threads| && StepOf(s, t, s')
    ensures |s'.threads| == |s.threads|
    ensures var a, a' := Abstract(s.fields), Abstract(s'.fields);
            || a' == a
            || (s.threads[t].pc == Check && Acquire(a, t, s.threads[t].request, a'))
            || (s.threads[t].pc == UnlockSet && LetGo(a, t, s.threads[t].to, a'))
    ensures s.threads[t].pc == Finish && !OwnedBy(s.fields, t) ==> !s.threads[t].didLock
    ensures s.threads[t].pc == Finish && s.threads[t].didLock ==> Abstract(s'.fields).owner == Some(t)
    ensures s.threads[t].pc in {PreCheck, Enter} && s'.threads[t].pc == Idle ==> Abstract(s'.fields) == Abstract(s.fields)
  {
    assert ThreadOk(s, t);
  }

  /**
   A lock that is to be had is taken: a thread with the mutex takes it whenever it could be acquired, unless its time
   was up before; it goes to sleep only when the lock could not be acquired. A call comes back empty-handed only if
   it may: a try lock that could not be acquired, or a timed one whose time was up.
   */
  lemma TakesWhatItCan(s: State, t: nat, s': State)
    requires Inv(s) && t < |s.threads| && LockStep(s, t, s')
    ensures |s'.threads| == |s.threads|
    ensures var x, x', can := s.threads[t], s'.threads[t], CanAcquire(Abstract(s.fields), t, s.threads[t].request);
            && (x.pc == PreCheck ==> (x'.pc == Idle <==> !can))
            && (x.pc == Check && !x.timedOut && can ==> x'.didLock && Acquire(Abstract(s.fields), t, x.request, Abstract(s'.fields)))
            && (x.pc == Check && x'.pc == Asleep ==> !can && x.request.kind != Try)
            && (x.pc == Check && x'.pc != Asleep && !x'.didLock ==>
                  (x.request.kind == Try && !can) || (x.request.kind == Timed && x.timedOut))
  {
    assert ThreadOk(s, t);
  }

  lemma SignalForgetsIff(s: State, t: nat)
    requires t < |s.threads| && s.threads[t].pc == UnlockWake && s.threads[t].wake == WakeOne
    ensures (exists s' :: Signals(s, t, s') && SomebodyWaits(s')) <==> !WakesEnough(s, t)
  {
    if s' :| Signals(s, t, s') && SomebodyWaits(s') {
      var u: nat :| u < |s'.threads| && Waits(s', u);
      var v: nat :| v < |s.threads| && s.threads[v].pc == Asleep
                    && s' == Moved(Moved(s, v, s.threads[v].(pc := Waking)), t, s.threads[t].(pc := Finish));
      assert Waits(s, u) && u != v;
    }
    if u: nat, v: nat :| u < |s.threads| && v < |s.threads| && Waits(s, u) && s.threads[v].pc == Asleep && u != v {
      var s' := Moved(Moved(s, v, s.threads[v].(pc := Waking)), t, s.threads[t].(pc := Finish));
      assert Signals(s, t, s') && Waits(s', u);
    }
  }

  /** The wake-up of an unlock can leave a thread asleep whose guard holds exactly if it does not wake enough: never
      when it goes to all; when it goes to one, if such a thread and another one sleep; when it goes to none, if such
      a thread sleeps. */
  lemma WakeForgetsIff(s: State, t: nat)
    requires t < |s.threads| && s.threads[t].pc == UnlockWake
    ensures (exists s' :: UnlockStep(s, t, s') && SomebodyWaits(s')) <==> !WakesEnough(s, t)
  {
    match s.threads[t].wake
    case WakeAll =>
      forall s' | UnlockStep(s, t, s')
        ensures !SomebodyWaits(s')
      {
      }
    case WakeOne =>
      SignalForgetsIff(s, t);
      assert forall s' :: UnlockStep(s, t, s') == Signals(s, t, s');
    case WakeNone =>
      var s' := Moved(s, t, s.threads[t].(pc := Finish));
      assert UnlockStep(s, t, s');
      forall u: nat | u < |s.threads|
        ensures Waits(s', u) == Waits(s, u)
      {
      }
  }

  /** Nobody comes to sleep on a guard that holds but by an unlock between its two halves. */
  lemma OthersForgetNobody(s: State, t: nat, s': State)
    requires Inv(s) && t < |s.threads| && StepOf(s, t, s') && NobodyForgotten(s) && s.threads[t].pc != UnlockWake
    ensures NobodyForgotten(s')
  {
    assert ThreadOk(s, t);
    forall u | 0 <= u < |s'.threads| && Waits(s', u) && s.threads[t].pc != UnlockSet
      ensures s'.mutex.Some? && s'.mutex.value < |s'.threads| && s'.threads[s'.mutex.value].pc == UnlockWake
    {
      assert u != t && Waits(s, u);
      assert ThreadOk(s, s.mutex.value);
    }
  }

  /** With wake-ups that reach whoever needs them, no sleeper whose guard holds is ever left behind. */
  lemma StepForgetsNobody(s: State, t: nat, s': State)
    requires Inv(s) && t < |s.threads| && StepOf(s, t, s') && AllWakeEnough(s) && NobodyForgotten(s)
    ensures NobodyForgotten(s')
  {
    if s.threads[t].pc == UnlockWake {
      assert UnlockStep(s, t, s');
      WakeForgetsIff(s, t);
      assert !SomebodyWaits(s');
    } else {
      OthersForgetNobody(s, t, s');
    }
  }

  // ---------------------------------------------------------------------------------------
  // Whole runs
  // ---------------------------------------------------------------------------------------

  ghost predicate Next(s: State, s': State) {
    exists t: nat :: t < |s.threads| && StepOf(s, t, s')
  }

  ghost predicate StepAt(run: seq<State>, i: nat)
    requires i + 1 < |run|
  {
    Next(run[i], run[i + 1])
  }

  ghost predicate IsRun(run: seq<State>) {
    run != [] && Initial(run[0]) && forall i :: 0 <= i < |run| - 1 ==> StepAt(run, i)
  }

  lemma RunStep(run: seq<State>, i: nat)
    requires IsRun(run) && i + 1 < |run| && Inv(run[i])
    ensures Inv(run[i + 1])
    ensures AllWakeEnough(run[i]) && NobodyForgotten(run[i]) ==> NobodyForgotten(run[i + 1])
  {
    assert StepAt(run, i);
    var t: nat :| t < |run[i].threads| && StepOf(run[i], t, run[i + 1]);
    StepKeepsInv(run[i], t, run[i + 1]);
    if AllWakeEnough(run[i]) && NobodyForgotten(run[i]) {
      StepForgetsNobody(run[i], t, run[i + 1]);
    }
  }

  /** In every run nobody is sent an exception. */
  lemma {:induction false} RunInv(run: seq<State>, i: nat)
    requires IsRun(run) && i < |run|
    ensures Inv(run[i]) && forall t :: 0 <= t < |run[i].threads| ==> run[i].threads[t].pc != Raised
  {
    if i == 0 {
      InitialInv(run[0]);
    } else {
      RunInv(run, i - 1);
      RunStep(run, i - 1);
    }
    forall t | 0 <= t < |run[i].threads|
      ensures run[i].threads[t].pc != Raised
    {
      assert ThreadOk(run[i], t);
    }
  }

  /** No lost wake-up: in a run whose wake-ups reach whoever needs them, as they do if all unlocks broadcast,
      nobody sleeps on a lock that could be acquired whenever the mutex is free. */
  lemma {:induction false} NoLostWakeup(run: seq<State>, i: nat)
    requires IsRun(run) && i < |run|
    requires forall k :: 0 <= k < i ==> AllWakeEnough(run[k])
    ensures NobodyForgotten(run[i])
    ensures forall t: nat :: run[i].mutex == None && t < |run[i].threads| && run[i].threads[t].pc == Asleep ==>
              !CanAcquire(Abstract(run[i].fields), t, run[i].threads[t].request)
  {
    if i == 0 {
      InitialInv(run[0]);
    } else {
      NoLostWakeup(run, i - 1);
      RunInv(run, i - 1);
      RunStep(run, i - 1);
    }
    forall t: nat | run[i].mutex == None && t < |run[i].threads| && run[i].threads[t].pc == Asleep
      ensures !CanAcquire(Abstract(run[i].fields), t, run[i].threads[t].request)
    {
      assert !Waits(run[i], t);
    }
  }

  lemma BroadcastsWakeEnough(s: State)
    requires Broadcasts(s)
    ensures AllWakeEnough(s)
  {
  }

  // ---------------------------------------------------------------------------------------
  // The critical sections, as methods of the lock object
  // ---------------------------------------------------------------------------------------

  class RKConditionLock {
    var conditionIsLocked: bool
    var lockOwner: nat
    var currentLockCondition: int

    function View(): Fields
      reads this
    {
      Fields(conditionIsLocked, lockOwner, currentLockCondition)
    }

    constructor (initCondition: int)
      ensures !conditionIsLocked && currentLockCondition == initCondition
    {
      conditionIsLocked, lockOwner, currentLockCondition := false, 0, initCondition;
    }

    /** Lines 681-705, each time the thread has the mutex: it is the machine's step, and takes the lock as the
        atomic lock would, or leaves the lock as it is. */
    method Take(self: nat, x: Thread, ghost s: State) returns (x': Thread, ghost s': State)
      requires self < |s.threads| && s.threads[self] == x && s.fields == View()
      requires x.pc == Check && !x.didLock
      modifies this
      ensures LockStep(s, self, s') && s'.fields == View() && |s'.threads| == |s.threads| && s'.threads[self] == x'
      ensures x'.didLock <==> !x.timedOut && CanAcquire(Abstract(old(View())), self, x.request)
      ensures if x'.didLock then Acquire(Abstract(old(View())), self, x.request, Abstract(View())) else View() == old(View())
    {
      x' := x;
      var request := x.request;
      if conditionIsLocked && lockOwner == self {
        x' := x.(pc := Raised);
      } else if !conditionIsLocked && !x.timedOut && (currentLockCondition == request.wanted || request.any) {
        conditionIsLocked := true;
        lockOwner := self;
        currentLockCondition := if request.any then currentLockCondition else request.wanted;
        x' := x.(pc := Finish, didLock := true);
      } else {
        x' := x.(pc := if x.timedOut || request.kind == Try then Finish else Asleep);
      }
      s' := Moved(s, self, x').(fields := View(), mutex := if x'.pc == Asleep then None else s.mutex);
    }

    /** Lines 715-718: it is the machine's step, gives the lock back as the atomic lock would, or raises for
        a thread that does not own it. */
    method Release(self: nat, x: Thread, ghost s: State) returns (x': Thread, ghost s': State)
      requires self < |s.threads| && s.threads[self] == x && s.fields == View() && x.pc == UnlockSet
      modifies this
      ensures UnlockStep(s, self, s') && s'.fields == View() && |s'.threads| == |s.threads| && s'.threads[self] == x'
      ensures if x'.pc == Raised then View() == old(View()) && Abstract(View()).owner != Some(self)
              else LetGo(Abstract(old(View())), self, x.to, Abstract(View()))
    {
      x' := x.(pc := Raised);
      if conditionIsLocked && lockOwner == self {
        conditionIsLocked := false;
        currentLockCondition := x.to;
        x' := x.(pc := UnlockWake);
      }
      s' := Moved(s, self, x').(fields := View());
    }
  }
}
