/** What a whole search delivers: every slot is claimed once, and a published regex is a real match. */
module ParallelSearchResults {
  import opened Base
  import opened ParallelSearch

  // ---------------------------------------------------------------------------------------
  // Every slot is claimed once
  // ---------------------------------------------------------------------------------------

  /** The fates a slot may come to: claimed once, then settled once, by the worker that claimed it. */
  predicate FateAfter(before: Fate, after: Fate) {
    || before == after || before.Unclaimed?
    || (before.InFlight? && (after == Tested(before.worker) || after == Skipped(before.worker) || after == Dropped(before.worker)))
  }

  lemma FateStep(q: Query, s: State, w: nat, slot: nat)
    requires Shaped(q, s) && w < |s.workers| && s.workers[w].pc != Done && slot < q.collection.Count()
    requires WorkerOk(q, s, w) && SlotOk(q, s, slot)
    ensures |Next(q, s, w).fates| == q.collection.Count() && FateAfter(s.fates[slot], Next(q, s, w).fates[slot])
  {
  }

  lemma FateRunStep(q: Query, run: seq<State>, i: nat, slot: nat)
    requires IsRun(q, run) && i + 1 < |run| && slot < q.collection.Count()
    ensures |run[i].fates| == |run[i + 1].fates| == q.collection.Count()
    ensures FateAfter(run[i].fates[slot], run[i + 1].fates[slot])
  {
    RunInv(q, run, i);
    assert StepAt(q, run, i);
    var s, s' := run[i], run[i + 1];
    var w: nat :| w < |s.workers| && s.workers[w].pc != Done && s' == Next(q, s, w);
    assert WorkerOk(q, s, w) && SlotOk(q, s, slot);
    FateStep(q, s, w, slot);
  }

  lemma {:induction false} ClaimedOnce(q: Query, run: seq<State>, i: nat, j: nat, slot: nat)
    requires IsRun(q, run) && i <= j < |run| && slot < q.collection.Count()
    ensures |run[i].fates| == |run[j].fates| == q.collection.Count()
    ensures FateAfter(run[i].fates[slot], run[j].fates[slot])
    decreases j - i
  {
    RunInv(q, run, i);
    if i < j {
      ClaimedOnce(q, run, i, j - 1, slot);
      FateRunStep(q, run, j - 1, slot);
    }
  }

  /** Two workers between claiming and testing never hold the same slot. */
  lemma ClaimsAreDistinct(q: Query, run: seq<State>, i: nat, v: nat, w: nat)
    requires IsRun(q, run) && i < |run| && v < |run[i].workers| && w < |run[i].workers| && v != w
    requires Holds(run[i].workers[v].pc) && Holds(run[i].workers[w].pc)
    requires run[i].workers[v].slot < q.collection.Count()
    ensures run[i].workers[v].slot != run[i].workers[w].slot
  {
    RunInv(q, run, i);
    assert WorkerOk(q, run[i], v) && WorkerOk(q, run[i], w);
  }

  // ---------------------------------------------------------------------------------------
  // The result of a search
  // ---------------------------------------------------------------------------------------

  ghost predicate AllDone(s: State) {
    |s.workers| > 0 && forall w :: 0 <= w < |s.workers| ==> s.workers[w].pc == Done
  }

  /** A published regex matches the subject and is the one at the indexes recorded beside it. */
  lemma PublishedRegexMatches(q: Query, run: seq<State>, i: nat)
    requires IsRun(q, run) && i < |run| && AllDone(run[i]) && run[i].matched.Some?
    ensures run[i].finished && run[i].matchingSorted < q.collection.Count()
    ensures run[i].matched.value == q.collection.RegexAt(run[i].matchingSorted)
    ensures run[i].matchingCollection == q.collection.sorted[run[i].matchingSorted]
    ensures q.matches(run[i].matched.value) && q.Publishes(run[i].matchingSorted)
  {
    RunInv(q, run, i);
  }

  /** Once published, the match is never replaced. */
  lemma {:induction false} PublishedOnce(q: Query, run: seq<State>, i: nat, j: nat)
    requires IsRun(q, run) && i <= j < |run| && run[i].matched.Some?
    ensures run[j].matched == run[i].matched
    decreases j - i
  {
    if i < j {
      PublishedOnce(q, run, i, j - 1);
      assert StepAt(q, run, j - 1);
      MatchedStays(q, run[j - 1], run[j]);
    }
  }

  lemma MatchedStays(q: Query, s: State, s': State)
    requires Step(q, s, s') && s.matched.Some?
    ensures s'.matched == s.matched
  {
  }

  /** The regex of this slot is one the search should return. */
  predicate Answers(q: Query, slot: nat)
    requires q.collection.Valid() && slot < q.collection.Count()
  {
    q.Hit(slot) && q.Publishes(slot)
  }

  /** When all workers are done the search is marked as finished and every slot is settled, and the search is empty only if every slot that could answer was dropped. */
  lemma EmptyMeansDropped(q: Query, run: seq<State>, i: nat, slot: nat)
    requires IsRun(q, run) && i < |run| && AllDone(run[i]) && slot < q.collection.Count()
    ensures run[i].finished
    ensures run[i].matched == None ==> |run[i].fates| == q.collection.Count()
    ensures run[i].matched == None ==> run[i].fates[slot].Tested? || run[i].fates[slot].Skipped? || run[i].fates[slot].Dropped?
    ensures run[i].matched == None && Answers(q, slot) ==> run[i].fates[slot].Dropped?
  {
    RunInv(q, run, i);
    assert WorkerOk(q, run[i], 0) && SlotOk(q, run[i], slot) && TestOk(q, run[i], slot);
  }

  /** In every state the index on record is of a regex that was tried and matches, or none. */
  lemma RecordedIndexMatches(q: Query, run: seq<State>, i: nat)
    requires IsRun(q, run) && i < |run| && run[i].highest != NO_INDEX
    ensures 0 < run[i].highest < q.collection.Count()
    ensures q.collection.Valid() && q.matches(q.collection.regexes[run[i].highest])
  {
    RunInv(q, run, i);
    assert HighestOk(q, run[i]);
  }
}
