/**
 The hit counts and the lazy re-sort of Source/RKSortedRegexCollection.m:270-287 and 338-343, with any
 number of concurrent callers under the collection's read/write lock. The search itself is
 left to the matcher: it finds some slot or none.
 */
module HitCounts {
  import opened Base
  import opened HitOrder

  datatype Pc =
    | Outside
    | AwaitRead       // lines 275 and 279: waiting for the read lock
    | TryWrite        // line 279: trying for the write lock
    | Sorting         // line 281
    | Clearing        // line 282
    | Searching       // lines 295-336
    | Counting        // line 339
    | Comparing       // line 340: the two hit counts, neither read yet
    | ReadOwn         // line 340: this slot's count read
    | ReadPrevious    // line 340: the previous slot's count read
    | Flagging        // line 340: resortRequired = 1
    | Leaving         // line 343

  datatype Caller = Caller(pc: Pc, slot: nat, seen: nat, writing: bool)

  /** The fields of the collection, its callers, and the number of hits so far. */
  datatype State = State(hits: seq<nat>, sorted: seq<nat>, resort: bool, callers: seq<Caller>, total: nat)

  predicate HoldsLock(c: Caller) {
    !(c.pc.Outside? || c.pc.AwaitRead? || c.pc.TryWrite?)
  }

  predicate Found(c: Caller) {
    c.pc.Counting? || c.pc.Comparing? || c.pc.ReadOwn? || c.pc.ReadPrevious? || c.pc.Flagging?
  }

  predicate NobodyHolds(s: State) {
    forall c :: 0 <= c < |s.callers| ==> !HoldsLock(s.callers[c])
  }

  predicate NobodyWrites(s: State) {
    forall c :: 0 <= c < |s.callers| ==> !(HoldsLock(s.callers[c]) && s.callers[c].writing)
  }

  predicate Shaped(s: State) {
    && |s.sorted| == |s.hits| && Indexes(s.hits, s.sorted)
    && forall c :: 0 <= c < |s.callers| && Found(s.callers[c]) ==>
         s.callers[c].slot < |s.sorted| && (s.callers[c].pc.Counting? || 0 < s.callers[c].slot)
  }

  function Moves(s: State, c: nat, x: Caller): State
    requires c < |s.callers|
  {
    s.(callers := s.callers[c := x])
  }

  /** Line 339: the atomic increment. */
  function Counted(s: State, c: nat): State
    requires Shaped(s) && c < |s.callers| && s.callers[c].pc.Counting?
  {
    var x := s.callers[c];
    var e := s.sorted[x.slot];
    Moves(s, c, x.(pc := if x.slot > 0 then Comparing else Leaving)).(
      hits := s.hits[e := s.hits[e] + 1], total := s.total + 1)
  }

  /** Caller c moves; the reads of line 340 may come in either order. */
  ghost predicate Moved(s: State, s': State, c: nat)
    requires Shaped(s) && c < |s.callers|
  {
    var x := s.callers[c];
    match x.pc
    case Outside => s' == Moves(s, c, x.(pc := if s.resort then TryWrite else AwaitRead))
    case AwaitRead => NobodyWrites(s) && s' == Moves(s, c, x.(pc := Searching, writing := false))
    case TryWrite =>
      || (NobodyHolds(s) && s' == Moves(s, c, x.(pc := Sorting, writing := true)))
      || s' == Moves(s, c, x.(pc := AwaitRead))
    case Sorting => s' == Moves(s, c, x.(pc := Clearing)).(sorted := SortByHits(s.hits, s.sorted))
    case Clearing => s' == Moves(s, c, x.(pc := Searching)).(resort := false)
    case Searching =>
      || s' == Moves(s, c, x.(pc := Leaving))
      || exists i: nat :: i < |s.sorted| && s' == Moves(s, c, x.(pc := Counting, slot := i))
    case Counting => s' == Counted(s, c)
    case Comparing =>
      || s' == Moves(s, c, x.(pc := ReadOwn, seen := s.hits[s.sorted[x.slot]]))
      || s' == Moves(s, c, x.(pc := ReadPrevious, seen := s.hits[s.sorted[x.slot - 1]]))
    case ReadOwn =>
      s' == Moves(s, c, x.(pc := if x.seen > s.hits[s.sorted[x.slot - 1]] then Flagging else Leaving))
    case ReadPrevious =>
      s' == Moves(s, c, x.(pc := if s.hits[s.sorted[x.slot]] > x.seen then Flagging else Leaving))
    case Flagging => s' == Moves(s, c, x.(pc := Leaving)).(resort := true)
    case Leaving => s' == Moves(s, c, x.(pc := Outside))
  }

  ghost predicate Step(s: State, s': State) {
    Shaped(s) && exists c: nat :: c < |s.callers| && Moved(s, s', c)
  }

  ghost predicate Initial(s: State) {
    && |s.sorted| == |s.hits|
    && (forall i :: 0 <= i < |s.hits| ==> s.hits[i] == 0 && s.sorted[i] == i)
    && !s.resort && s.total == 0
    && forall c :: 0 <= c < |s.callers| ==> s.callers[c].pc.Outside?
  }

  ghost predicate IsRun(run: seq<State>) {
    && run != [] && Initial(run[0])
    && forall i :: 0 <= i < |run| - 1 ==> StepAt(run, i)
  }

  ghost predicate StepAt(run: seq<State>, i: nat)
    requires i + 1 < |run|
  {
    Step(run[i], run[i + 1])
  }

  // ---------------------------------------------------------------------------------------
  // The invariant
  // ---------------------------------------------------------------------------------------

  /** Caller x is about to notice that the slot is out of order. */
  predicate Notices(s: State, x: Caller, slot: nat)
    requires Shaped(s) && 0 < slot < |s.sorted|
  {
    || x.pc.Flagging?
    || (x.pc.Comparing? && x.slot == slot)
    || (x.pc.ReadOwn? && x.slot == slot && x.seen == s.hits[s.sorted[slot]])
    || (x.pc.ReadPrevious? && x.slot == slot && x.seen <= s.hits[s.sorted[slot - 1]])
  }

  /** Out of order slots are flagged, or about to be. */
  ghost predicate Watched(s: State, slot: nat)
    requires Shaped(s) && 0 < slot < |s.sorted|
  {
    || InOrder(s.hits, s.sorted, slot) || s.resort
    || exists c: nat :: c < |s.callers| && Notices(s, s.callers[c], slot)
  }

  ghost predicate Exclusive(s: State) {
    forall c, d :: 0 <= c < |s.callers| && 0 <= d < |s.callers| && c != d ==>
      !(HoldsLock(s.callers[c]) && s.callers[c].writing && HoldsLock(s.callers[d]))
  }

  ghost predicate Roles(s: State) {
    forall c :: 0 <= c < |s.callers| && (s.callers[c].pc.Sorting? || s.callers[c].pc.Clearing?) ==> s.callers[c].writing
  }

  ghost predicate JustSorted(s: State)
    requires Shaped(s)
  {
    forall c :: 0 <= c < |s.callers| && s.callers[c].pc.Clearing? ==> Descending(s.hits, s.sorted)
  }

  ghost predicate Inv(s: State) {
    && Shaped(s) && Permutes(s.hits, s.sorted) && Sum(s.hits) == s.total
    && Exclusive(s) && Roles(s) && JustSorted(s)
    && forall i :: 0 < i < |s.sorted| ==> Watched(s, i)
  }

  lemma InitialInv(s: State)
    requires Initial(s)
    ensures Inv(s)
  {
    SumZero(s.hits);
  }

  lemma KeepsCallers(s: State, s': State, c: nat)
    requires Shaped(s) && c < |s.callers| && Moved(s, s', c)
    ensures |s'.callers| == |s.callers| && |s'.hits| == |s.hits|
    ensures forall d :: 0 <= d < |s.callers| && d != c ==> s'.callers[d] == s.callers[d]
  {
  }

  lemma KeepsSlotOfMover(s: State, s': State, c: nat)
    requires Shaped(s) && c < |s.callers| && Moved(s, s', c)
    ensures |s'.sorted| == |s'.hits| && Indexes(s'.hits, s'.sorted) && c < |s'.callers|
    ensures Found(s'.callers[c]) ==> s'.callers[c].slot < |s'.sorted| && (s'.callers[c].pc.Counting? || 0 < s'.callers[c].slot)
  {
  }

  lemma KeepsShape(s: State, s': State, c: nat)
    requires Shaped(s) && c < |s.callers| && Moved(s, s', c)
    ensures Shaped(s') && |s'.callers| == |s.callers| && |s'.hits| == |s.hits|
    ensures forall d :: 0 <= d < |s.callers| && d != c ==> s'.callers[d] == s.callers[d]
  {
    KeepsCallers(s, s', c);
    KeepsSlotOfMover(s, s', c);
  }

  lemma KeepsPermutation(s: State, s': State, c: nat)
    requires Shaped(s) && c < |s.callers| && Moved(s, s', c) && Permutes(s.hits, s.sorted)
    ensures Permutes(s'.hits, s'.sorted)
  {
    SortPermutes(s.hits, s.sorted);
  }

  lemma KeepsTotal(s: State, s': State, c: nat)
    requires Shaped(s) && c < |s.callers| && Moved(s, s', c) && Sum(s.hits) == s.total
    ensures Sum(s'.hits) == s'.total
  {
    if s.callers[c].pc.Counting? {
      var e := s.sorted[s.callers[c].slot];
      SumUpdate(s.hits, e, s.hits[e] + 1);
    }
  }

  lemma KeepsExclusive(s: State, s': State, c: nat)
    requires Shaped(s) && c < |s.callers| && Moved(s, s', c) && Exclusive(s) && Roles(s)
    ensures Exclusive(s') && Roles(s')
  {
    KeepsShape(s, s', c);
  }

  lemma KeepsSorted(s: State, s': State, c: nat)
    requires Shaped(s) && c < |s.callers| && Moved(s, s', c) && Exclusive(s) && Roles(s) && JustSorted(s)
    ensures Shaped(s') && JustSorted(s')
  {
    KeepsShape(s, s', c);
    SortIsSorted(s.hits, s.sorted);
  }

  /** A count that is raised belongs to a caller that is about to compare it. */
  lemma CountingKeepsWatch(s: State, c: nat, slot: nat)
    requires Shaped(s) && c < |s.callers| && s.callers[c].pc.Counting? && Distinct(s.sorted)
    requires 0 < slot < |s.sorted| && Watched(s, slot)
    ensures Shaped(Counted(s, c)) && Watched(Counted(s, c), slot)
  {
    var s' := Counted(s, c);
    if s.callers[c].slot == slot {
      assert Notices(s', s'.callers[c], slot);
    } else if !InOrder(s.hits, s.sorted, slot) && !s.resort {
      var d: nat :| d < |s.callers| && Notices(s, s.callers[d], slot);
      assert Notices(s', s'.callers[d], slot);
    }
  }

  /** A re-sort happens with nobody else inside, and leaves nothing out of order. */
  lemma SortingKeepsWatch(s: State, s': State, c: nat, slot: nat)
    requires Shaped(s) && c < |s.callers| && Moved(s, s', c) && JustSorted(s)
    requires s.callers[c].pc.Sorting? || s.callers[c].pc.Clearing?
    requires 0 < slot < |s.sorted|
    ensures Shaped(s') && Watched(s', slot)
  {
    KeepsShape(s, s', c);
    SortIsSorted(s.hits, s.sorted);
  }

  lemma OthersKeepWatch(s: State, s': State, c: nat, slot: nat)
    requires Shaped(s) && c < |s.callers| && Moved(s, s', c)
    requires !(s.callers[c].pc.Counting? || s.callers[c].pc.Sorting? || s.callers[c].pc.Clearing?)
    requires 0 < slot < |s.sorted| && Watched(s, slot)
    ensures Shaped(s') && |s'.sorted| == |s.sorted| && Watched(s', slot)
  {
    KeepsShape(s, s', c);
    if !InOrder(s.hits, s.sorted, slot) && !s.resort && !s'.resort {
      var d: nat :| d < |s.callers| && Notices(s, s.callers[d], slot);
      assert Notices(s', s'.callers[d], slot);
    }
  }

  lemma StepKeepsInv(s: State, s': State)
    requires Inv(s) && Step(s, s')
    ensures Inv(s')
  {
    var c: nat :| c < |s.callers| && Moved(s, s', c);
    KeepsShape(s, s', c);
    KeepsPermutation(s, s', c);
    KeepsTotal(s, s', c);
    KeepsExclusive(s, s', c);
    KeepsSorted(s, s', c);
    forall i | 0 < i < |s'.sorted|
      ensures Watched(s', i)
    {
      if s.callers[c].pc.Counting? {
        CountingKeepsWatch(s, c, i);
      } else if s.callers[c].pc.Sorting? || s.callers[c].pc.Clearing? {
        SortingKeepsWatch(s, s', c, i);
      } else {
        OthersKeepWatch(s, s', c, i);
      }
    }
  }

  lemma {:induction false} RunInv(run: seq<State>, i: nat)
    requires IsRun(run) && i < |run|
    ensures Inv(run[i])
  {
    if i == 0 {
      InitialInv(run[0]);
    } else {
      RunInv(run, i - 1);
      assert StepAt(run, i - 1);
      StepKeepsInv(run[i - 1], run[i]);
    }
  }

  /** Whenever nobody is inside: the order is a permutation of the elements, every hit was
      counted, and unless a re-sort is due the order is by descending hit count. */
  lemma QuietStateIsSorted(run: seq<State>, i: nat)
    requires IsRun(run) && i < |run| && NobodyHolds(run[i])
    ensures Permutes(run[i].hits, run[i].sorted) && Sum(run[i].hits) == run[i].total
    ensures !run[i].resort ==> Descending(run[i].hits, run[i].sorted)
  {
    RunInv(run, i);
    var s := run[i];
    if !s.resort {
      forall k | 0 < k < |s.sorted|
        ensures InOrder(s.hits, s.sorted, k)
      {
        assert Watched(s, k);
      }
    }
  }

  /** In this step a caller counts a hit of element e. */
  ghost predicate CountsHit(s: State, s': State, e: nat)
    requires Shaped(s) && |s'.callers| == |s.callers|
  {
    exists c: nat :: c < |s.callers| && s.callers[c].pc.Counting? && !s'.callers[c].pc.Counting? && s.sorted[s.callers[c].slot] == e
  }

  lemma StepCountsHit(s: State, s': State, e: nat)
    requires Step(s, s') && e < |s.hits|
    ensures |s'.callers| == |s.callers| && |s'.hits| == |s.hits|
    ensures s'.hits[e] == s.hits[e] + (if CountsHit(s, s', e) then 1 else 0)
  {
    var c: nat :| c < |s.callers| && Moved(s, s', c);
    KeepsShape(s, s', c);
    if s.callers[c].pc.Counting? && s.sorted[s.callers[c].slot] == e {
      assert CountsHit(s, s', e);
    }
  }

  /** How many of the first k steps of the run count a hit of element e. */
  ghost function HitsCounted(run: seq<State>, k: nat, e: nat): nat
    requires k < |run|
  {
    if k == 0 then 0
    else HitsCounted(run, k - 1, e) + (if Shaped(run[k - 1]) && |run[k].callers| == |run[k - 1].callers| && CountsHit(run[k - 1], run[k], e) then 1 else 0)
  }

  /** No hit is lost, whatever callers do at the same time: the hit count of an element is the number of times it was
      counted as the one found. */
  lemma {:induction false} NoHitIsLost(run: seq<State>, i: nat, e: nat)
    requires IsRun(run) && i < |run| && e < |run[0].hits|
    ensures |run[i].hits| == |run[0].hits| && run[i].hits[e] == HitsCounted(run, i, e)
  {
    if i > 0 {
      NoHitIsLost(run, i - 1, e);
      assert StepAt(run, i - 1);
      StepCountsHit(run[i - 1], run[i], e);
    }
  }

  /** A slot that a caller has found still holds the same element until that caller has counted the hit. */
  lemma FoundSlotStays(run: seq<State>, i: nat, c: nat)
    requires IsRun(run) && i + 1 < |run| && c < |run[i].callers| && HoldsLock(run[i].callers[c])
    requires !run[i].callers[c].pc.Sorting?
    ensures run[i + 1].sorted == run[i].sorted
  {
    RunInv(run, i);
    var s, s' := run[i], run[i + 1];
    assert StepAt(run, i);
    var d: nat :| d < |s.callers| && Moved(s, s', d);
  }
}
