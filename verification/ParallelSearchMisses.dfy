/**
 What a search by several workers can get wrong, and exactly when: it can come back empty although a regex
 matches, and it can record an index that is not the least. Both come of a worker that has claimed a slot
 and drops it, because another one has marked the search as finished.
 */
module ParallelSearchMisses {
  import opened Base
  import opened ParallelSearch
  import opened ParallelSearchResults
  import HitOrder

  // ---------------------------------------------------------------------------------------
  // A search that misses has many workers
  // ---------------------------------------------------------------------------------------

  /** The slots whose regex the search should return. */
  ghost function Answering(q: Query): set<nat>
    requires q.collection.Valid()
  {
    set k: nat | k < q.collection.Count() && Answers(q, k)
  }

  ghost predicate IsComplete(q: Query, n: nat, run: seq<State>) {
    IsRun(q, run) && |run[0].workers| == n && AllDone(run[|run| - 1])
  }

  ghost predicate CanComeBackEmpty(q: Query, n: nat) {
    exists run: seq<State> :: IsComplete(q, n, run) && run[|run| - 1].matched == None
  }

  lemma StepKeepsWorkers(q: Query, s: State, s': State)
    requires Step(q, s, s')
    ensures |s'.workers| == |s.workers|
  {
  }

  lemma {:induction false} WorkersStay(q: Query, run: seq<State>, i: nat)
    requires IsRun(q, run) && i < |run|
    ensures |run[i].workers| == |run[0].workers|
  {
    if i > 0 {
      WorkersStay(q, run, i - 1);
      assert StepAt(q, run, i - 1);
      StepKeepsWorkers(q, run[i - 1], run[i]);
    }
  }

  /** Each of these slots was dropped by a worker of its own, none of which ended the search. */
  lemma {:induction false} DroppersDiffer(q: Query, s: State, slots: set<nat>) returns (droppers: set<nat>)
    requires Inv(q, s) && s.matched == None
    requires forall k :: k in slots ==> k < q.collection.Count() && s.fates[k].Dropped?
    ensures |droppers| == |slots|
    ensures forall w :: w in droppers ==> w < |s.workers| && s.finisher != Some(w) && s.workers[w].slot in slots
    decreases |slots|
  {
    if slots == {} {
      droppers := {};
    } else {
      var k :| k in slots;
      droppers := DroppersDiffer(q, s, slots - {k});
      assert DropOk(q, s, k);
      droppers := droppers + {s.fates[k].worker};
    }
  }

  /** One worker for each dropped slot, and the one that ended the search. */
  lemma DroppersAndFinisher(q: Query, s: State, slots: set<nat>)
    requires Inv(q, s) && s.matched == None && slots != {}
    requires forall k :: k in slots ==> k < q.collection.Count() && s.fates[k].Dropped?
    ensures |slots| < |s.workers|
  {
    var droppers := DroppersDiffer(q, s, slots);
    var k :| k in slots;
    assert DropOk(q, s, k);
    RangeSize(|s.workers|, droppers + {s.finisher.value});
  }

  lemma EmptyNeedsMoreWorkersThanAnswering(q: Query, run: seq<State>, i: nat)
    requires IsRun(q, run) && i < |run| && AllDone(run[i]) && run[i].matched == None
    ensures q.collection.Valid() && (Answering(q) != {} ==> |Answering(q)| < |run[i].workers|)
  {
    RunInv(q, run, i);
    forall k | k in Answering(q)
      ensures run[i].fates[k].Dropped?
    {
      EmptyMeansDropped(q, run, i, k);
    }
    if Answering(q) != {} {
      DroppersAndFinisher(q, run[i], Answering(q));
    }
  }

  // ---------------------------------------------------------------------------------------
  // A schedule in which workers sit on slots
  // ---------------------------------------------------------------------------------------

  /** A search by n workers can get to s. */
  ghost predicate GetsTo(q: Query, n: nat, s: State) {
    exists run: seq<State> :: IsRun(q, run) && |run[0].workers| == n && run[|run| - 1] == s
  }

  lemma ExtendRun(q: Query, run: seq<State>, s': State)
    requires IsRun(q, run) && Step(q, run[|run| - 1], s')
    ensures IsRun(q, run + [s']) && (run + [s'])[0] == run[0]
  {
    var longer := run + [s'];
    forall i | 0 <= i < |longer| - 1
      ensures StepAt(q, longer, i)
    {
      if i + 1 < |run| {
        assert StepAt(q, run, i);
      }
    }
  }

  lemma GetsToNext(q: Query, n: nat, s: State, s': State)
    requires GetsTo(q, n, s) && Step(q, s, s')
    ensures GetsTo(q, n, s')
  {
    var run: seq<State> :| IsRun(q, run) && |run[0].workers| == n && run[|run| - 1] == s;
    ExtendRun(q, run, s');
    var longer := run + [s'];
    assert longer[|longer| - 1] == s';
  }

  lemma OthersStay(q: Query, s: State, w: nat)
    requires Shaped(q, s) && w < |s.workers| && s.workers[w].pc != Done
    ensures |Next(q, s, w).workers| == |s.workers|
    ensures forall v :: 0 <= v < |s.workers| && v != w ==> Next(q, s, w).workers[v] == s.workers[v]
  {
  }

  lemma Extend(q: Query, n: nat, s: State, w: nat) returns (s': State)
    requires GetsTo(q, n, s) && Inv(q, s) && w < |s.workers| == n && s.workers[w].pc != Done
    ensures s' == Next(q, s, w) && GetsTo(q, n, s') && Inv(q, s') && |s'.workers| == n
    ensures forall v :: 0 <= v < n && v != w ==> s'.workers[v] == s.workers[v]
  {
    s' := Next(q, s, w);
    OthersStay(q, s, w);
    GetsToNext(q, n, s, s');
    StepKeepsInv(q, s, w);
  }

  /** How many of the slots below i are among these. */
  ghost function Below(slots: set<nat>, i: nat): nat {
    if i == 0 then 0 else Below(slots, i - 1) + (if i - 1 in slots then 1 else 0)
  }

  lemma {:induction false} BelowGrows(slots: set<nat>, i: nat, j: nat)
    requires i <= j
    ensures Below(slots, i) <= Below(slots, j)
    decreases j
  {
    if i < j {
      BelowGrows(slots, i, j - 1);
    }
  }

  lemma {:induction false} BelowIsSize(slots: set<nat>, i: nat)
    requires forall k :: k in slots ==> k < i
    ensures Below(slots, i) == |slots|
  {
    if i > 0 {
      BelowIsSize(slots - {i - 1}, i - 1);
      BelowSame(slots, slots - {i - 1}, i - 1);
    }
  }

  lemma {:induction false} BelowSame(a: set<nat>, b: set<nat>, i: nat)
    requires forall k :: k < i ==> (k in a <==> k in b)
    ensures Below(a, i) == Below(b, i)
  {
    if i > 0 {
      BelowSame(a, b, i - 1);
    }
  }

  /** The worker that sits on this slot. */
  ghost function Seat(slots: set<nat>, k: nat): nat {
    Below(slots, k) + 1
  }

  /** The first i slots are gone through: a worker sits on each of the chosen ones, and worker 0 tried the others. */
  ghost predicate Gathered(q: Query, s: State, slots: set<nat>, i: nat) {
    && Inv(q, s) && i <= q.collection.Count() && |s.workers| > Below(slots, i)
    && s.atSortedIndex == i && s.matched == None && s.highest > 0
    && (if s.finished then i == q.collection.Count() && s.workers[0].pc.Last? else s.workers[0].pc.Claim?)
    && (forall w :: 1 <= w <= Below(slots, i) ==> s.workers[w].pc.Guard?)
    && (forall w :: Below(slots, i) < w < |s.workers| ==> s.workers[w].pc.Enter?)
  }

  /** Each of the chosen slots below i has its worker. */
  ghost predicate Seated(s: State, slots: set<nat>, i: nat) {
    forall k :: k in slots && k < i ==>
      Seat(slots, k) < |s.workers| && s.workers[Seat(slots, k)].pc.Guard? && s.workers[Seat(slots, k)].slot == k
  }

  lemma Start(q: Query, n: nat, slots: set<nat>) returns (s: State)
    requires q.collection.Valid() && q.collection.Count() > 0 && n > 0
    ensures GetsTo(q, n, s) && |s.workers| == n && Gathered(q, s, slots, 0) && Seated(s, slots, 0)
  {
    s := State(0, NO_INDEX, false, None, 0, 0, seq(n, w => Worker(Enter, 0, 0)),
               seq(q.collection.Count(), i => Unclaimed), None, None);
    assert IsRun(q, [s]);
    InitialInv(q, s);
    s := Extend(q, n, s, 0);
  }

  /** Worker 0 claims the next slot and passes the guard. */
  lemma TakeNext(q: Query, n: nat, s: State, slots: set<nat>) returns (s': State)
    requires GetsTo(q, n, s) && |s.workers| == n && Gathered(q, s, slots, s.atSortedIndex)
    requires s.atSortedIndex < q.collection.Count()
    ensures GetsTo(q, n, s') && |s'.workers| == n && Inv(q, s')
    ensures s'.workers[0].pc.Bound? && s'.workers[0].slot == s.atSortedIndex
    ensures s'.atSortedIndex == s.atSortedIndex + 1 && s'.matched == None && s'.highest > 0 && !s'.finished
    ensures forall v :: 1 <= v < n ==> s'.workers[v] == s.workers[v]
  {
    s' := Extend(q, n, s, 0);
    s' := Extend(q, n, s', 0);
  }

  lemma HighestStaysPositive(q: Query, s: State)
    requires Inv(q, s)
    ensures s.highest > 0
  {
    assert HighestOk(q, s);
  }

  /** Worker 0 is alone in recording an index. */
  lemma Lower(q: Query, n: nat, s: State) returns (s': State)
    requires GetsTo(q, n, s) && |s.workers| == n > 0 && Inv(q, s)
    requires s.workers[0].pc.LowRead? && s.matched == None && !s.finished
    ensures GetsTo(q, n, s') && |s'.workers| == n && Inv(q, s') && s'.workers[0].pc.Claim?
    ensures s'.atSortedIndex == s.atSortedIndex && s'.matched == None && !s'.finished
    ensures forall v :: 1 <= v < n ==> s'.workers[v] == s.workers[v]
  {
    s' := Extend(q, n, s, 0);
    s' := Extend(q, n, s', 0);
  }

  /** With the slot tried, its index is recorded if it is lower. */
  lemma Record(q: Query, n: nat, s: State) returns (s': State)
    requires GetsTo(q, n, s) && |s.workers| == n > 0 && Inv(q, s)
    requires s.workers[0].pc.LowTest? && s.matched == None && !s.finished
    ensures GetsTo(q, n, s') && |s'.workers| == n && Inv(q, s') && s'.workers[0].pc.Claim?
    ensures s'.atSortedIndex == s.atSortedIndex && s'.matched == None && !s'.finished
    ensures forall v :: 1 <= v < n ==> s'.workers[v] == s.workers[v]
  {
    s' := Extend(q, n, s, 0);
    if s'.workers[0].pc.LowRead? {
      s' := Lower(q, n, s');
    }
  }

  /** Worker 0 tries the regex of the slot, without publishing it. */
  lemma TryMatch(q: Query, n: nat, s: State) returns (s': State)
    requires GetsTo(q, n, s) && |s.workers| == n > 0 && Inv(q, s)
    requires s.workers[0].pc.Match? && !Answers(q, s.workers[0].slot) && s.matched == None && !s.finished
    ensures GetsTo(q, n, s') && |s'.workers| == n && Inv(q, s') && (s'.workers[0].pc.Claim? || s'.workers[0].pc.Tail?)
    ensures s'.atSortedIndex == s.atSortedIndex && s'.matched == None && !s'.finished
    ensures forall v :: 1 <= v < n ==> s'.workers[v] == s.workers[v]
  {
    s' := Extend(q, n, s, 0);
    if s'.workers[0].pc.LowTest? {
      s' := Record(q, n, s');
    }
  }

  /** Worker 0 skips the slot or tries its regex, without publishing it. */
  lemma TryIt(q: Query, n: nat, s: State) returns (s': State)
    requires GetsTo(q, n, s) && |s.workers| == n > 0 && Inv(q, s)
    requires s.workers[0].pc.Bound? && !Answers(q, s.workers[0].slot) && s.matched == None && !s.finished
    ensures GetsTo(q, n, s') && |s'.workers| == n && Inv(q, s') && (s'.workers[0].pc.Claim? || s'.workers[0].pc.Tail?)
    ensures s'.atSortedIndex == s.atSortedIndex && s'.matched == None && !s'.finished
    ensures forall v :: 1 <= v < n ==> s'.workers[v] == s.workers[v]
  {
    s' := Extend(q, n, s, 0);
    if s'.workers[0].pc.Match? {
      s' := TryMatch(q, n, s');
    }
  }

  /** Having tried the slot, worker 0 goes on to claim the next, or ends the search. */
  lemma CloseUp(q: Query, n: nat, s: State) returns (s': State)
    requires GetsTo(q, n, s) && |s.workers| == n > 0 && Inv(q, s)
    requires (s.workers[0].pc.Claim? || s.workers[0].pc.Tail?) && s.matched == None && !s.finished
    ensures GetsTo(q, n, s') && |s'.workers| == n && Inv(q, s')
    ensures s'.atSortedIndex == s.atSortedIndex && s'.matched == None
    ensures if s'.finished then s.atSortedIndex >= q.collection.Count() && s'.workers[0].pc.Last? else s'.workers[0].pc.Claim?
    ensures forall v :: 1 <= v < n ==> s'.workers[v] == s.workers[v]
  {
    s' := s;
    if s.workers[0].pc.Tail? {
      s' := Extend(q, n, s, 0);
    }
  }

  lemma PassOver(q: Query, n: nat, s: State, slots: set<nat>) returns (s': State)
    requires GetsTo(q, n, s) && |s.workers| == n && Gathered(q, s, slots, s.atSortedIndex) && Seated(s, slots, s.atSortedIndex)
    requires s.atSortedIndex < q.collection.Count() && s.atSortedIndex !in slots && !Answers(q, s.atSortedIndex)
    ensures GetsTo(q, n, s') && |s'.workers| == n
    ensures Gathered(q, s', slots, s.atSortedIndex + 1) && Seated(s', slots, s.atSortedIndex + 1)
  {
    s' := TakeNext(q, n, s, slots);
    s' := TryIt(q, n, s');
    s' := CloseUp(q, n, s');
    HighestStaysPositive(q, s');
  }

  lemma SitOn(q: Query, n: nat, s: State, slots: set<nat>) returns (s': State)
    requires GetsTo(q, n, s) && |s.workers| == n && Gathered(q, s, slots, s.atSortedIndex) && Seated(s, slots, s.atSortedIndex)
    requires s.atSortedIndex < q.collection.Count() && s.atSortedIndex in slots && Below(slots, s.atSortedIndex) + 1 < n
    ensures GetsTo(q, n, s') && |s'.workers| == n
    ensures Gathered(q, s', slots, s.atSortedIndex + 1) && Seated(s', slots, s.atSortedIndex + 1)
  {
    var w := Seat(slots, s.atSortedIndex);
    s' := Extend(q, n, s, w);
    s' := Extend(q, n, s', w);
    forall k | k in slots && k < s.atSortedIndex
      ensures Seat(slots, k) < w
    {
      BelowGrows(slots, k + 1, s.atSortedIndex);
    }
  }

  lemma {:induction false} Gather(q: Query, n: nat, slots: set<nat>, i: nat) returns (s: State)
    requires q.collection.Valid() && 0 < q.collection.Count() && i <= q.collection.Count()
    requires Answering(q) <= slots && Below(slots, q.collection.Count()) < n
    ensures GetsTo(q, n, s) && |s.workers| == n && Gathered(q, s, slots, i) && Seated(s, slots, i)
  {
    if i == 0 {
      s := Start(q, n, slots);
    } else {
      s := Gather(q, n, slots, i - 1);
      BelowGrows(slots, i, q.collection.Count());
      if i - 1 in slots {
        s := SitOn(q, n, s, slots);
      } else {
        s := PassOver(q, n, s, slots);
      }
    }
  }

  /** Everything is claimed and the search is marked finished; whoever has not left only has to leave. */
  ghost predicate Draining(q: Query, s: State, k: nat) {
    && Inv(q, s) && s.finished && s.matched == None && k <= |s.workers|
    && (forall w :: 0 <= w < k ==> s.workers[w].pc.Done?)
    && (forall w :: k <= w < |s.workers| ==> s.workers[w].pc.Guard? || s.workers[w].pc.Enter? || s.workers[w].pc.Last?)
  }

  /** No slot was tried on the way from s to s'. */
  ghost predicate NothingTried(s: State, s': State) {
    |s'.fates| == |s.fates| && forall k :: 0 <= k < |s.fates| && s'.fates[k].Tested? ==> s.fates[k].Tested?
  }

  /** The next worker finds the search finished. */
  lemma TurnAway(q: Query, n: nat, s: State, k: nat) returns (s': State)
    requires GetsTo(q, n, s) && |s.workers| == n && k < n && Draining(q, s, k)
    ensures GetsTo(q, n, s') && |s'.workers| == n && Draining(q, s', k) && s'.workers[k].pc.Last? && NothingTried(s, s')
  {
    s' := s;
    if !s.workers[k].pc.Last? {
      s' := Extend(q, n, s, k);
    }
  }

  /** The next worker leaves. */
  lemma Depart(q: Query, n: nat, s: State, k: nat) returns (s': State)
    requires GetsTo(q, n, s) && |s.workers| == n && k < n && Draining(q, s, k) && s.workers[k].pc.Last?
    ensures GetsTo(q, n, s') && |s'.workers| == n && Draining(q, s', k + 1) && NothingTried(s, s')
  {
    s' := Extend(q, n, s, k);
  }

  lemma {:induction false} Drain(q: Query, n: nat, s: State, k: nat) returns (s': State)
    requires GetsTo(q, n, s) && |s.workers| == n > 0 && k <= n && Draining(q, s, k)
    ensures GetsTo(q, n, s') && Inv(q, s') && AllDone(s') && s'.matched == None && NothingTried(s, s')
    decreases n - k
  {
    s' := s;
    if k < n {
      s' := TurnAway(q, n, s, k);
      s' := Depart(q, n, s', k);
      s' := Drain(q, n, s', k + 1);
    }
  }

  /** Worker 0 claims a slot past the end and marks the search finished. */
  lemma Finish(q: Query, n: nat, s: State, slots: set<nat>) returns (s': State)
    requires GetsTo(q, n, s) && |s.workers| == n && Gathered(q, s, slots, q.collection.Count())
    ensures GetsTo(q, n, s') && |s'.workers| == n > 0 && Draining(q, s', 1) && NothingTried(s, s')
  {
    s' := s;
    if !s.finished {
      s' := Extend(q, n, s', 0);
      s' := Extend(q, n, s', 0);
    }
    s' := Extend(q, n, s', 0);
  }

  /** With a worker to spare for each of these slots, a search can end without having tried any of them. */
  lemma LeavesUntried(q: Query, n: nat, slots: set<nat>) returns (s: State)
    requires q.collection.Valid() && 0 < q.collection.Count() && Answering(q) <= slots
    requires (forall k :: k in slots ==> k < q.collection.Count()) && |slots| < n
    ensures GetsTo(q, n, s) && Inv(q, s) && AllDone(s) && s.matched == None
    ensures forall k :: k in slots ==> !s.fates[k].Tested?
  {
    BelowIsSize(slots, q.collection.Count());
    var gathered := Gather(q, n, slots, q.collection.Count());
    forall k | k in slots
      ensures !gathered.fates[k].Tested?
    {
      assert WorkerOk(q, gathered, Seat(slots, k));
    }
    s := Finish(q, n, gathered, slots);
    s := Drain(q, n, s, 1);
  }

  lemma AnsweringInRange(q: Query)
    requires q.collection.Valid()
    ensures forall k :: k in Answering(q) ==> k < q.collection.Count()
  {
  }

  /** A search that should return something can come back empty exactly when there are more workers than
      regexes it could return: in particular never with a single worker. In any mode those are the regexes
      that match; in lowest-index mode only the one at index 0, so there two workers are enough. */
  lemma MissesIff(q: Query, n: nat)
    requires q.collection.Valid() && Answering(q) != {}
    ensures CanComeBackEmpty(q, n) <==> |Answering(q)| < n
  {
    if CanComeBackEmpty(q, n) {
      var run: seq<State> :| IsComplete(q, n, run) && run[|run| - 1].matched == None;
      WorkersStay(q, run, |run| - 1);
      EmptyNeedsMoreWorkersThanAnswering(q, run, |run| - 1);
    }
    if |Answering(q)| < n {
      AnsweringInRange(q);
      var s := LeavesUntried(q, n, Answering(q));
      var run: seq<State> :| IsRun(q, run) && |run[0].workers| == n && run[|run| - 1] == s;
      assert IsComplete(q, n, run);
    }
  }

  // ---------------------------------------------------------------------------------------
  // The recorded index
  // ---------------------------------------------------------------------------------------

  /** The regex of this slot matches, and no matching one has a lower index. */
  ghost predicate LeastHit(q: Query, slot: nat)
    requires q.collection.Valid()
  {
    && slot < q.collection.Count() && q.Hit(slot)
    && forall k :: 0 <= k < q.collection.Count() && q.Hit(k) ==> q.collection.sorted[slot] <= q.collection.sorted[k]
  }

  /** A complete search by n workers can end with an index on record that is not the one of this slot. */
  ghost predicate CanRecordOther(q: Query, n: nat, slot: nat)
    requires slot < q.collection.Count()
  {
    exists run: seq<State> :: IsComplete(q, n, run) && run[|run| - 1].highest != q.collection.sorted[slot]
  }

  lemma UntriedIsNotRecorded(q: Query, s: State, slot: nat)
    requires Inv(q, s) && HitOrder.Distinct(q.collection.sorted) && slot < q.collection.Count() && !s.fates[slot].Tested?
    ensures s.highest != q.collection.sorted[slot]
  {
    assert HighestOk(q, s);
  }

  /** What a single worker keeps while it can publish nothing: the index on record bounds all the slots that are settled. */
  ghost predicate SoloOk(q: Query, s: State)
    requires Shaped(q, s)
  {
    && |s.workers| == 1
    && (forall k :: 0 <= k < q.collection.Count() ==> SoloSlotOk(q, s, k))
    && var x := s.workers[0];
       && (x.pc.LowRead? ==> s.highest > q.collection.sorted[x.slot])
       && (x.pc.LowSwap? ==> s.highest == x.expected && x.expected > q.collection.sorted[x.slot])
  }

  ghost predicate SoloSlotOk(q: Query, s: State, k: nat)
    requires Shaped(q, s) && k < q.collection.Count() && |s.workers| > 0
  {
    && (s.fates[k].Tested? && q.Hit(k) ==>
          s.highest <= q.collection.sorted[k] || (Lowers(s.workers[0].pc) && s.workers[0].slot == k))
    && (s.fates[k].Skipped? ==> s.highest < q.collection.sorted[k])
  }

  lemma SoloStepSlot(q: Query, s: State, k: nat)
    requires Inv(q, s) && Answering(q) == {} && SoloOk(q, s) && s.workers[0].pc != Done && k < q.collection.Count()
    ensures Shaped(q, Next(q, s, 0)) && |Next(q, s, 0).workers| == 1 && SoloSlotOk(q, Next(q, s, 0), k)
  {
    assert WorkerOk(q, s, 0) && SlotOk(q, s, k) && SoloSlotOk(q, s, k);
    assert k !in Answering(q);
    KeepsShape(q, s, 0);
  }

  lemma SoloStep(q: Query, s: State)
    requires Inv(q, s) && Answering(q) == {} && SoloOk(q, s) && s.workers[0].pc != Done
    ensures Inv(q, Next(q, s, 0)) && SoloOk(q, Next(q, s, 0))
  {
    StepKeepsInv(q, s, 0);
    forall k | 0 <= k < q.collection.Count()
      ensures SoloSlotOk(q, Next(q, s, 0), k)
    {
      SoloStepSlot(q, s, k);
    }
  }

  lemma SoloRunStep(q: Query, run: seq<State>, i: nat)
    requires IsRun(q, run) && i + 1 < |run| && Inv(q, run[i]) && Answering(q) == {} && SoloOk(q, run[i])
    ensures Inv(q, run[i + 1]) && SoloOk(q, run[i + 1])
  {
    assert StepAt(q, run, i);
    SoloStep(q, run[i]);
  }

  lemma SoloStart(q: Query, s: State)
    requires Initial(q, s) && |s.workers| == 1
    ensures Inv(q, s) && SoloOk(q, s)
  {
    InitialInv(q, s);
  }

  lemma {:induction false} SoloRun(q: Query, run: seq<State>, i: nat)
    requires IsRun(q, run) && |run[0].workers| == 1 && i < |run| && q.collection.Valid() && Answering(q) == {}
    ensures Inv(q, run[i]) && SoloOk(q, run[i])
  {
    if i == 0 {
      SoloStart(q, run[0]);
    } else {
      SoloRun(q, run, i - 1);
      SoloRunStep(q, run, i - 1);
    }
  }

  lemma PublishedAnswers(q: Query, s: State)
    requires Inv(q, s) && s.matched.Some?
    ensures Answering(q) != {}
  {
    assert PublishedOk(q, s);
    assert s.workers[s.publisher.value].slot in Answering(q);
  }

  /** With one worker and nothing to publish, no slot is dropped. */
  lemma SoloDropsNothing(q: Query, s: State, slot: nat)
    requires Inv(q, s) && |s.workers| == 1 && Answering(q) == {} && slot < q.collection.Count()
    ensures s.matched == None && !s.fates[slot].Dropped?
  {
    assert PublishedOk(q, s) && FinisherOk(q, s) && DropOk(q, s, slot);
    if s.matched.Some? {
      PublishedAnswers(q, s);
    }
  }

  lemma SoloRecordsLeast(q: Query, run: seq<State>, slot: nat)
    requires q.collection.Valid() && Answering(q) == {} && LeastHit(q, slot) && IsComplete(q, 1, run)
    ensures run[|run| - 1].highest == q.collection.sorted[slot]
  {
    var s := run[|run| - 1];
    SoloRun(q, run, |run| - 1);
    SoloDropsNothing(q, s, slot);
    EmptyMeansDropped(q, run, |run| - 1, slot);
    assert SoloSlotOk(q, s, slot) && HighestOk(q, s);
  }

  /** When some regex matches but none may be published, which happens in lowest-index mode, a search can record
      an index that is not the least matching one, or none, exactly if it has more than one worker. */
  lemma RecordsOtherIff(q: Query, n: nat, slot: nat)
    requires q.collection.Valid() && HitOrder.Distinct(q.collection.sorted)
    requires LeastHit(q, slot) && Answering(q) == {}
    ensures CanRecordOther(q, n, slot) <==> n >= 2
  {
    if CanRecordOther(q, n, slot) {
      var run: seq<State> :| IsComplete(q, n, run) && run[|run| - 1].highest != q.collection.sorted[slot];
      WorkersStay(q, run, |run| - 1);
      if n == 1 {
        SoloRecordsLeast(q, run, slot);
      }
    }
    if n >= 2 {
      var s := LeavesUntried(q, n, {slot});
      UntriedIsNotRecorded(q, s, slot);
      var run: seq<State> :| IsRun(q, run) && |run[0].workers| == n && run[|run| - 1] == s;
      assert IsComplete(q, n, run);
    }
  }
}
