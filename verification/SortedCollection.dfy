/**
 RKSortedRegexCollection used by one thread at a time (Source/RKSortedRegexCollection.m:270-398): the
 search run by a single worker, the hit counts, the re-sort, and the table of missed objects.
 */
module SortedCollection {
  import opened Base
  import opened HitOrder
  import opened ParallelSearch
  import opened MissTable

  /** RKSortedRegexCollectionThreadMatchState, cleared as lines 319-323 do. */
  class MatchState {
    var atSortedIndex: nat
    var highest: nat
    var finished: bool
    var matched: Option<nat>
    var matchingSorted: nat
    var matchingCollection: nat

    constructor ()
      ensures atSortedIndex == 0 && highest == NO_INDEX && !finished && matched == None
      ensures matchingSorted == 0 && matchingCollection == 0
    {
      atSortedIndex, highest, finished := 0, NO_INDEX, false;
      matched, matchingSorted, matchingCollection := None, 0, 0;
    }
  }

  /** The slot is the first one whose regex the search publishes. */
  predicate FirstPublished(q: Query, slot: nat)
    requires q.collection.Valid()
  {
    && slot < q.collection.Count() && q.Hit(slot) && q.Publishes(slot)
    && forall k :: 0 <= k < slot ==> !(q.Hit(k) && q.Publishes(k))
  }

  predicate NothingPublished(q: Query, below: nat)
    requires q.collection.Valid() && below <= q.collection.Count()
  {
    forall k :: 0 <= k < below ==> !(q.Hit(k) && q.Publishes(k))
  }

  /** index is the least one among the matching regexes of the slots below the bound, or there is none. */
  predicate LeastBelow(q: Query, below: nat, index: nat)
    requires q.collection.Valid() && below <= q.collection.Count()
  {
    && (forall k :: 0 <= k < below && q.Hit(k) ==> index <= q.collection.sorted[k])
    && (index == NO_INDEX || exists k :: 0 <= k < below && q.Hit(k) && q.collection.sorted[k] == index)
  }

  /** threadMatchEntryFunction run by a single worker: it publishes the first regex, in sorted order, that
      it may publish; with none, it records the least matching index. */
  method SearchAlone(q: Query, state: MatchState)
    requires q.collection.Valid() && q.collection.Count() > 0
    requires state.atSortedIndex == 0 && state.highest == NO_INDEX && !state.finished && state.matched == None
    modifies state
    ensures state.finished
    ensures state.matched.Some? ==> FirstPublished(q, state.matchingSorted)
                                    && state.matched == Some(q.collection.RegexAt(state.matchingSorted))
                                    && state.matchingCollection == q.collection.sorted[state.matchingSorted]
    ensures state.matched == None ==> NothingPublished(q, q.collection.Count())
                                      && LeastBelow(q, q.collection.Count(), state.highest)
  {
    var n := q.collection.Count();
    if !state.finished && state.matched == None && state.atSortedIndex < n {
      state.atSortedIndex := state.atSortedIndex + 1;
      var slot := state.atSortedIndex - 1;
      while !state.finished && state.matched == None && slot < n && state.highest > 0
        invariant state.matched == None ==> 0 < state.highest && slot <= n
        invariant state.matched == None ==> state.atSortedIndex == (if state.finished then n else slot + 1)
        invariant state.matched == None ==> NothingPublished(q, if state.finished then n else slot)
        invariant state.matched == None ==> LeastBelow(q, if state.finished then n else slot, state.highest)
        invariant state.matched.Some? ==> state.finished && FirstPublished(q, state.matchingSorted)
                                          && state.matched == Some(q.collection.RegexAt(state.matchingSorted))
                                          && state.matchingCollection == q.collection.sorted[state.matchingSorted]
        decreases n - slot
      {
        var index := q.collection.sorted[slot];
        if index > state.highest {
          state.atSortedIndex := state.atSortedIndex + 1;
          slot := state.atSortedIndex - 1;
          continue;
        }
        if q.Hit(slot) {
          if q.Publishes(slot) {
            if state.matched == None {
              state.matched := Some(q.collection.RegexAt(slot));
              state.matchingSorted := slot;
              state.matchingCollection := index;
              state.finished := true;
            }
            break;
          } else if state.highest > index {
            state.highest := index;  // the compare-and-swap of a single worker succeeds
          }
          state.atSortedIndex := state.atSortedIndex + 1;
          slot := state.atSortedIndex - 1;
          continue;
        }
        if state.atSortedIndex >= n {
          state.finished := true;
          break;
        }
        state.atSortedIndex := state.atSortedIndex + 1;
        slot := state.atSortedIndex - 1;
      }
    }
    if (state.matched != None || state.atSortedIndex >= n) && !state.finished {
      state.finished := true;
    }
  }

  /** Some regex of the collection matches. */
  ghost predicate AnyMatches(regexes: seq<nat>, matches: nat -> bool) {
    exists e :: 0 <= e < |regexes| && matches(regexes[e])
  }

  /** What an uncached search finds: in any mode, and for a set, something if anything matches; in
      lowest-index mode only the regex at index 0. */
  ghost predicate Finds(regexes: seq<nat>, isSet: bool, lowest: bool, matches: nat -> bool) {
    if !lowest || isSet then AnyMatches(regexes, matches) else |regexes| > 0 && matches(regexes[0])
  }

  lemma FindsIff(regexes: seq<nat>, isSet: bool, lowest: bool, matches: nat -> bool)
    ensures Finds(regexes, isSet, lowest, matches) <==>
              exists e :: 0 <= e < |regexes| && matches(regexes[e]) && (!lowest || isSet || e == 0)
  {
  }

  /** The answer of a search over any order of the elements. */
  lemma PublishesIff(q: Query, hits: seq<nat>)
    requires q.collection.Valid() && Permutes(hits, q.collection.sorted)
    ensures NothingPublished(q, q.collection.Count()) <==>
              !Finds(q.collection.regexes, q.collection.isSet, q.findLowest, q.matches)
  {
    if e: nat :| e < |q.collection.regexes| && q.matches(q.collection.regexes[e])
                 && (!q.findLowest || q.collection.isSet || e == 0) {
      var slot := ElementHasSlot(hits, q.collection.sorted, e);
      assert q.Hit(slot) && q.Publishes(slot);
    }
  }

  /** With nothing published, the recorded index is the least of all that match. */
  lemma RecordsLeast(q: Query, hits: seq<nat>, highest: nat)
    requires q.collection.Valid() && Permutes(hits, q.collection.sorted)
    requires LeastBelow(q, q.collection.Count(), highest)
    ensures forall e :: 0 <= e < |q.collection.regexes| && q.matches(q.collection.regexes[e]) ==> highest <= e
    ensures highest == NO_INDEX || (highest < |q.collection.regexes| && q.matches(q.collection.regexes[highest]))
  {
    forall e | 0 <= e < |q.collection.regexes| && q.matches(q.collection.regexes[e])
      ensures highest <= e
    {
      var slot := ElementHasSlot(hits, q.collection.sorted, e);
      assert q.Hit(slot);
    }
  }

  /** Element e is the one to return: of those that match, and in lowest-index mode on an array have index 0, it
      comes first in the order. */
  ghost predicate FirstInOrder(regexes: seq<nat>, isSet: bool, lowest: bool, matches: nat -> bool, order: seq<nat>, e: nat) {
    && e < |regexes| && matches(regexes[e]) && (!lowest || isSet || e == 0)
    && forall x :: 0 <= x < |regexes| && Precedes(order, x, e) ==> !(matches(regexes[x]) && (!lowest || isSet || x == 0))
  }

  lemma PublishedIsFirst(q: Query, hits: seq<nat>, slot: nat)
    requires q.collection.Valid() && Permutes(hits, q.collection.sorted) && FirstPublished(q, slot)
    ensures q.collection.RegexAt(slot) == q.collection.regexes[q.collection.sorted[slot]]
    ensures FirstInOrder(q.collection.regexes, q.collection.isSet, q.findLowest, q.matches, q.collection.sorted, q.collection.sorted[slot])
  {
    var c := q.collection;
    forall x | 0 <= x < |c.regexes| && Precedes(c.sorted, x, c.sorted[slot])
      ensures !(q.matches(c.regexes[x]) && (!q.findLowest || c.isSet || x == 0))
    {
      var i, k :| 0 <= i < k < |c.sorted| && c.sorted[i] == x && c.sorted[k] == c.sorted[slot];
      assert k == slot;
      assert !(q.Hit(i) && q.Publishes(i));
    }
  }

  class RKSortedRegexCollection {
    const regexes: seq<nat>
    const isSet: bool
    const hitCounts: array<nat>
    const sortedElements: array<nat>
    const missedObjectHashCache: array<nat>
    var resortRequired: bool

    ghost predicate Valid()
      reads this, hitCounts, sortedElements, missedObjectHashCache
    {
      && hitCounts != sortedElements && sortedElements != missedObjectHashCache && hitCounts != missedObjectHashCache
      && 0 < hitCounts.Length == |regexes| < NO_INDEX && missedObjectHashCache.Length == BUCKETS
      && Permutes(hitCounts[..], sortedElements[..])
      && (!resortRequired ==> Descending(hitCounts[..], sortedElements[..]))
    }

    constructor (regexes: seq<nat>, isSet: bool)
      requires 0 < |regexes| < NO_INDEX
      ensures Valid() && this.regexes == regexes && this.isSet == isSet && !resortRequired
      ensures fresh(hitCounts) && fresh(sortedElements) && fresh(missedObjectHashCache)
      ensures forall i :: 0 <= i < |regexes| ==> hitCounts[i] == 0 && sortedElements[i] == i
      ensures missedObjectHashCache[..] == seq(BUCKETS, i => 0)
    {
      this.regexes, this.isSet, resortRequired := regexes, isSet, false;
      hitCounts := new nat[|regexes|](i => 0);
      sortedElements := new nat[|regexes|](i => 0);
      missedObjectHashCache := new nat[BUCKETS](i => 0);
      new;
      for atIndex := 0 to |regexes|
        invariant forall i :: 0 <= i < atIndex ==> sortedElements[i] == i
        invariant forall i :: 0 <= i < |regexes| ==> hitCounts[i] == 0
        invariant missedObjectHashCache[..] == seq(BUCKETS, i => 0) && !resortRequired
      {
        sortedElements[atIndex] := atIndex;
      }
    }

    /** Lines 281-282. */
    method Resort()
      requires Valid()
      modifies this, sortedElements
      ensures Valid() && !resortRequired
      ensures hitCounts[..] == old(hitCounts[..])
      ensures sortedElements[..] == SortByHits(hitCounts[..], old(sortedElements[..]))
    {
      ghost var hits := hitCounts[..];
      var order := SortByHits(hitCounts[..], sortedElements[..]);
      SortPermutes(hits, sortedElements[..]);
      SortIsSorted(hits, sortedElements[..]);
      forall i | 0 <= i < sortedElements.Length {
        sortedElements[i] := order[i];
      }
      assert sortedElements[..] == order && hitCounts[..] == hits;
      resortRequired := false;
    }

    /** Lines 339-340: the hit is counted, and a re-sort requested if the slot now leads the one before. */
    method CountHit(slot: nat)
      requires Valid() && slot < sortedElements.Length
      modifies this, hitCounts
      ensures Valid() && sortedElements[..] == old(sortedElements[..])
      ensures hitCounts[..] == old(hitCounts[..])[sortedElements[slot] := old(hitCounts[sortedElements[slot]]) + 1]
      ensures Sum(hitCounts[..]) == Sum(old(hitCounts[..])) + 1
      ensures resortRequired <==>
                old(resortRequired) || (slot > 0 && hitCounts[sortedElements[slot]] > hitCounts[sortedElements[slot - 1]])
    {
      ghost var hits, e := hitCounts[..], sortedElements[slot];
      hitCounts[sortedElements[slot]] := hitCounts[sortedElements[slot]] + 1;
      assert hitCounts[..] == hits[e := hits[e] + 1];
      SumUpdate(hits, e, hits[e] + 1);
      if slot > 0 && hitCounts[sortedElements[slot]] > hitCounts[sortedElements[slot - 1]] {
        resortRequired := true;
      }
      if !resortRequired {
        forall i | 0 < i < sortedElements.Length
          ensures InOrder(hitCounts[..], sortedElements[..], i)
        {
          assert InOrder(hits, sortedElements[..], i);
        }
      }
    }

    /** Lines 318-341: the search of the elements in their present order, and the hit it finds counted. The ghost
        result is the element found. */
    method Search(matches: nat -> bool, lowest: bool) returns (r: Option<nat>, ghost winner: Option<nat>)
      requires Valid()
      modifies this, hitCounts
      ensures Valid() && sortedElements[..] == old(sortedElements[..])
      ensures r.Some? <==> winner.Some?
      ensures r.Some? <==> Finds(regexes, isSet, lowest, matches)
      ensures r == None ==> hitCounts[..] == old(hitCounts[..]) && resortRequired == old(resortRequired)
      ensures r.Some? ==>
                && FirstInOrder(regexes, isSet, lowest, matches, sortedElements[..], winner.value) && r == Some(regexes[winner.value])
                && hitCounts[..] == old(hitCounts[..])[winner.value := old(hitCounts[winner.value]) + 1]
                && Sum(hitCounts[..]) == Sum(old(hitCounts[..])) + 1
    {
      var q := Query(Collection(regexes, sortedElements[..], isSet), lowest, matches);
      PublishesIff(q, hitCounts[..]);
      var state := new MatchState();
      SearchAlone(q, state);
      r, winner := state.matched, None;
      if r != None {
        PublishedIsFirst(q, hitCounts[..], state.matchingSorted);
        winner := Some(sortedElements[state.matchingSorted]);
        CountHit(state.matchingSorted);
      }
    }

    /** regexMatching:lowestIndexInCollection: for an object of this hash. It returns the first regex, in
        order of hits, that the search may publish, unless the table holds the object's hash. */
    method RegexMatching(hash: nat, matches: nat -> bool, lowest: bool) returns (r: Option<nat>, ghost winner: Option<nat>)
      requires Valid()
      modifies this, hitCounts, sortedElements, missedObjectHashCache
      ensures Valid() && sortedElements[..] == SortByHits(old(hitCounts[..]), old(sortedElements[..]))
      ensures r.Some? <==> winner.Some?
      ensures r.Some? <==>
                && old(missedObjectHashCache[Bucket(hash)]) != hash
                && exists e :: 0 <= e < |regexes| && matches(regexes[e]) && (!lowest || isSet || e == 0)
      ensures r == None ==> hitCounts[..] == old(hitCounts[..]) && !resortRequired
      ensures r.Some? ==>
                && FirstInOrder(regexes, isSet, lowest, matches, sortedElements[..], winner.value) && r == Some(regexes[winner.value])
                && hitCounts[..] == old(hitCounts[..])[winner.value := old(hitCounts[winner.value]) + 1]
                && Sum(hitCounts[..]) == Sum(old(hitCounts[..])) + 1
      ensures missedObjectHashCache[..] ==
              AfterCall(World(o => hash, c => r.Some?), old(missedObjectHashCache[..]), Call(0, lowest))
    {
      winner := None;
      if resortRequired {
        Resort();
      } else {
        SortKeepsOrder(hitCounts[..], sortedElements[..]);
      }
      var cell := Bucket(hash);
      if missedObjectHashCache[cell] == hash {
        return None, None;
      }
      FindsIff(regexes, isSet, lowest, matches);
      r, winner := Search(matches, lowest);
      if r == None {
        missedObjectHashCache[cell] := hash;
      }
    }
  }

  /** What a sequence of calls depends on: the hashes of the objects, and which regex matches which object. */
  ghost function WorldOf(regexes: seq<nat>, isSet: bool, hash: nat -> nat, matches: (nat, nat) -> bool): World {
    World(hash, (c: Call) => Finds(regexes, isSet, c.lowest, (regex: nat) => matches(c.target, regex)))
  }

  lemma CallFinds(regexes: seq<nat>, isSet: bool, hash: nat -> nat, matches: (nat, nat) -> bool, c: Call, of: nat -> bool)
    requires forall regex: nat :: of(regex) == matches(c.target, regex)
    ensures WorldOf(regexes, isSet, hash, matches).finds(c) == Finds(regexes, isSet, c.lowest, of)
    ensures !c.lowest ==> WorldOf(regexes, isSet, hash, matches).finds(c) == AnyMatches(regexes, of)
  {
  }

  /** In this order, element e is the first that may answer the call. */
  ghost predicate FirstToAnswer(regexes: seq<nat>, isSet: bool, matches: (nat, nat) -> bool, call: Call, order: seq<nat>, e: nat) {
    && e < |regexes| && matches(call.target, regexes[e]) && (!call.lowest || isSet || e == 0)
    && forall x :: 0 <= x < |regexes| && Precedes(order, x, e) ==> !(matches(call.target, regexes[x]) && (!call.lowest || isSet || x == 0))
  }

  /** The answer of a call is the regex of the winner, which is the first in order that may answer. */
  ghost predicate AnsweredBy(regexes: seq<nat>, isSet: bool, matches: (nat, nat) -> bool, call: Call, order: seq<nat>,
                             answer: Option<nat>, winner: Option<nat>) {
    if winner.Some? then FirstToAnswer(regexes, isSet, matches, call, order, winner.value) && answer == Some(regexes[winner.value])
    else answer == None
  }

  /** The hit counts after a call. */
  function HitsAfter(hits: seq<nat>, winner: Option<nat>): seq<nat> {
    if winner.Some? && winner.value < |hits| then hits[winner.value := hits[winner.value] + 1] else hits
  }

  /** One call, seen as the specification of the table has it. */
  method CallOnce(collection: RKSortedRegexCollection, call: Call, hash: nat -> nat, matches: (nat, nat) -> bool)
    returns (answer: Option<nat>, ghost winner: Option<nat>)
    requires collection.Valid()
    modifies collection, collection.hitCounts, collection.sortedElements, collection.missedObjectHashCache
    ensures collection.Valid()
    ensures var w, h := WorldOf(collection.regexes, collection.isSet, hash, matches), hash(call.target);
            && (answer.Some? <==> old(collection.missedObjectHashCache[..])[Bucket(h)] != h && w.finds(call))
            && collection.missedObjectHashCache[..] == AfterCall(w, old(collection.missedObjectHashCache[..]), call)
    ensures collection.sortedElements[..] == SortByHits(old(collection.hitCounts[..]), old(collection.sortedElements[..]))
    ensures collection.hitCounts[..] == HitsAfter(old(collection.hitCounts[..]), winner)
    ensures AnsweredBy(collection.regexes, collection.isSet, matches, call, collection.sortedElements[..], answer, winner)
  {
    var of := (regex: nat) => matches(call.target, regex);
    CallFinds(collection.regexes, collection.isSet, hash, matches, call, of);
    FindsIff(collection.regexes, collection.isSet, call.lowest, of);
    answer, winner := collection.RegexMatching(hash(call.target), of, call.lowest);
  }

  // ---------------------------------------------------------------------------------------
  // A sequence of calls
  // ---------------------------------------------------------------------------------------

  /** How many of the first k calls element e has answered. */
  ghost function AnswersOf(winners: seq<Option<nat>>, e: nat, k: nat): nat
    requires k <= |winners|
  {
    if k == 0 then 0 else AnswersOf(winners, e, k - 1) + (if winners[k - 1] == Some(e) then 1 else 0)
  }

  lemma {:induction false} AnswersOfMore(winners: seq<Option<nat>>, more: seq<Option<nat>>, e: nat, k: nat)
    requires k <= |winners|
    ensures AnswersOf(winners + more, e, k) == AnswersOf(winners, e, k)
  {
    if k > 0 {
      AnswersOfMore(winners, more, e, k - 1);
    }
  }

  /** The hit counts are the numbers of calls answered so far. */
  ghost predicate CountsAnswers(hits: seq<nat>, winners: seq<Option<nat>>) {
    forall e :: 0 <= e < |hits| ==> hits[e] == AnswersOf(winners, e, |winners|)
  }

  /** The order of call i has all elements; one comes before another exactly if it has answered more calls so far, or as
      many and it came before the other at the call before. */
  ghost predicate OrderFollowsAnswers(n: nat, winners: seq<Option<nat>>, i: nat, before: seq<nat>, order: seq<nat>)
    requires i <= |winners|
  {
    && Distinct(order) && (forall e :: e in order <==> 0 <= e < n)
    && forall x, y :: 0 <= x < n && 0 <= y < n && x != y ==>
         (Precedes(order, x, y) <==>
            || AnswersOf(winners, x, i) > AnswersOf(winners, y, i)
            || (AnswersOf(winners, x, i) == AnswersOf(winners, y, i) && Precedes(before, x, y)))
  }

  /** The order of a new collection. */
  function InitialOrder(n: nat): seq<nat> {
    seq(n, i => i)
  }

  /** The order of the call before. */
  function OrderBefore(n: nat, orders: seq<seq<nat>>, i: nat): seq<nat>
    requires i <= |orders|
  {
    if i == 0 then InitialOrder(n) else orders[i - 1]
  }

  /** The order of call i, after those before it. */
  ghost predicate OrderTold(n: nat, orders: seq<seq<nat>>, winners: seq<Option<nat>>, i: nat)
    requires i < |orders| && i <= |winners|
  {
    OrderFollowsAnswers(n, winners, i, OrderBefore(n, orders, i), orders[i])
  }

  /** The answer of call i. */
  ghost predicate AnswerTold(regexes: seq<nat>, isSet: bool, matches: (nat, nat) -> bool, calls: seq<Call>, answers: seq<Option<nat>>,
                             orders: seq<seq<nat>>, winners: seq<Option<nat>>, i: nat)
    requires i < |orders| && i < |winners| && i < |answers| && i < |calls|
  {
    AnsweredBy(regexes, isSet, matches, calls[i], orders[i], answers[i], winners[i])
  }

  /** What is known of the first calls: their orders, winners and answers. */
  ghost predicate CallsTold(regexes: seq<nat>, isSet: bool, matches: (nat, nat) -> bool, calls: seq<Call>, answers: seq<Option<nat>>,
                            orders: seq<seq<nat>>, winners: seq<Option<nat>>) {
    && |orders| == |winners| == |answers| <= |calls|
    && (forall i :: 0 <= i < |orders| ==> OrderTold(|regexes|, orders, winners, i))
    && (forall i :: 0 <= i < |orders| ==> AnswerTold(regexes, isSet, matches, calls, answers, orders, winners, i))
  }

  lemma SortFollowsAnswers(hits: seq<nat>, winners: seq<Option<nat>>, before: seq<nat>)
    requires Permutes(hits, before) && CountsAnswers(hits, winners)
    ensures OrderFollowsAnswers(|hits|, winners, |winners|, before, SortByHits(hits, before))
  {
    var order := SortByHits(hits, before);
    SortPermutes(hits, before);
    forall e | 0 <= e < |hits|
      ensures e in order
    {
      var slot := ElementHasSlot(hits, order, e);
    }
    forall x, y | 0 <= x < |hits| && 0 <= y < |hits| && x != y
      ensures Precedes(order, x, y) <==> hits[x] > hits[y] || (hits[x] == hits[y] && Precedes(before, x, y))
    {
      SortDecides(hits, before, x, y);
    }
  }

  lemma OrderStillFollows(n: nat, winners: seq<Option<nat>>, more: seq<Option<nat>>, i: nat, before: seq<nat>, order: seq<nat>)
    requires i <= |winners| && OrderFollowsAnswers(n, winners, i, before, order)
    ensures OrderFollowsAnswers(n, winners + more, i, before, order)
  {
    forall e: nat
      ensures AnswersOf(winners + more, e, i) == AnswersOf(winners, e, i)
    {
      AnswersOfMore(winners, more, e, i);
    }
  }

  lemma CountsOneMore(hits: seq<nat>, winners: seq<Option<nat>>, winner: Option<nat>)
    requires CountsAnswers(hits, winners)
    ensures CountsAnswers(HitsAfter(hits, winner), winners + [winner])
  {
    forall e: nat | e < |hits|
      ensures HitsAfter(hits, winner)[e] == AnswersOf(winners + [winner], e, |winners| + 1)
    {
      AnswersOfMore(winners, [winner], e, |winners|);
    }
  }

  lemma OrderStaysTold(n: nat, orders: seq<seq<nat>>, winners: seq<Option<nat>>, order: seq<nat>, winner: Option<nat>, i: nat)
    requires |orders| == |winners| && i < |orders| && OrderTold(n, orders, winners, i)
    ensures OrderTold(n, orders + [order], winners + [winner], i)
  {
    assert OrderBefore(n, orders + [order], i) == OrderBefore(n, orders, i);
    OrderStillFollows(n, winners, [winner], i, OrderBefore(n, orders, i), orders[i]);
  }

  lemma LastOrderTold(n: nat, orders: seq<seq<nat>>, winners: seq<Option<nat>>, order: seq<nat>, winner: Option<nat>)
    requires |orders| == |winners| && OrderFollowsAnswers(n, winners, |winners|, OrderBefore(n, orders, |orders|), order)
    ensures OrderTold(n, orders + [order], winners + [winner], |orders|)
  {
    assert OrderBefore(n, orders + [order], |orders|) == OrderBefore(n, orders, |orders|);
    OrderStillFollows(n, winners, [winner], |orders|, OrderBefore(n, orders, |orders|), order);
  }

  lemma AnswerStaysTold(regexes: seq<nat>, isSet: bool, matches: (nat, nat) -> bool, calls: seq<Call>, answers: seq<Option<nat>>,
                        orders: seq<seq<nat>>, winners: seq<Option<nat>>, order: seq<nat>, answer: Option<nat>, winner: Option<nat>, i: nat)
    requires |orders| == |winners| == |answers| < |calls| && i <= |orders|
    requires if i < |orders| then AnswerTold(regexes, isSet, matches, calls, answers, orders, winners, i)
             else AnsweredBy(regexes, isSet, matches, calls[i], order, answer, winner)
    ensures AnswerTold(regexes, isSet, matches, calls, answers + [answer], orders + [order], winners + [winner], i)
  {
  }

  lemma ToldOneMore(regexes: seq<nat>, isSet: bool, matches: (nat, nat) -> bool, calls: seq<Call>, answers: seq<Option<nat>>,
                    orders: seq<seq<nat>>, winners: seq<Option<nat>>, order: seq<nat>, answer: Option<nat>, winner: Option<nat>)
    requires CallsTold(regexes, isSet, matches, calls, answers, orders, winners) && |orders| < |calls|
    requires OrderFollowsAnswers(|regexes|, winners, |winners|, OrderBefore(|regexes|, orders, |orders|), order)
    requires AnsweredBy(regexes, isSet, matches, calls[|orders|], order, answer, winner)
    ensures CallsTold(regexes, isSet, matches, calls, answers + [answer], orders + [order], winners + [winner])
  {
    LastOrderTold(|regexes|, orders, winners, order, winner);
    forall i | 0 <= i < |orders|
      ensures OrderTold(|regexes|, orders + [order], winners + [winner], i)
    {
      OrderStaysTold(|regexes|, orders, winners, order, winner, i);
    }
    forall i | 0 <= i <= |orders|
      ensures AnswerTold(regexes, isSet, matches, calls, answers + [answer], orders + [order], winners + [winner], i)
    {
      AnswerStaysTold(regexes, isSet, matches, calls, answers, orders, winners, order, answer, winner, i);
    }
  }

  /** The first calls are answered, and the table is as they leave it. */
  ghost predicate Answered(w: World, calls: seq<Call>, table: seq<nat>, answers: seq<Option<nat>>) {
    && |answers| <= |calls| && table == After(w, calls[..|answers|])
    && forall k :: 0 <= k < |answers| ==> (answers[k].Some? <==> Returns(w, calls, k))
  }

  lemma OneMoreAnswer(w: World, calls: seq<Call>, table: seq<nat>, answers: seq<Option<nat>>, next: seq<nat>, answer: Option<nat>)
    requires Answered(w, calls, table, answers) && |answers| < |calls| && |table| == BUCKETS
    requires var call := calls[|answers|];
             && next == AfterCall(w, table, call)
             && (answer.Some? <==> table[Bucket(w.hash(call.target))] != w.hash(call.target) && w.finds(call))
    ensures Answered(w, calls, next, answers + [answer])
  {
    var i := |answers|;
    assert calls[..i + 1][..i] == calls[..i] && calls[..i + 1][i] == calls[i];
  }

  /** Any-mode calls on objects with distinct hashes, none of them zero. */
  predicate AnyModeOnDistinct(calls: seq<Call>, hash: nat -> nat) {
    && (forall i :: 0 <= i < |calls| ==> !calls[i].lowest && hash(calls[i].target) != 0)
    && (forall i, k :: 0 <= i < |calls| && 0 <= k < |calls| && hash(calls[i].target) == hash(calls[k].target) ==>
          calls[i].target == calls[k].target)
  }

  lemma AnyModeCallsAreRight(w: World, calls: seq<Call>)
    ensures AnyModeOnDistinct(calls, w.hash) ==> forall i :: 0 <= i < |calls| ==> Returns(w, calls, i) == w.finds(calls[i])
  {
    if AnyModeOnDistinct(calls, w.hash) {
      forall i | 0 <= i < |calls|
        ensures Returns(w, calls, i) == w.finds(calls[i])
      {
        AnyModeAnswersRight(w, calls, i);
      }
    }
  }

  /** A sequence of calls on a new collection. Each returns a regex exactly if the specification of the table says so; if all
      are any-mode calls on objects with distinct non-zero hashes, exactly if an uncached search finds one. What it returns
      is the first regex that may answer, in an order by the number of calls answered so far; at the end
      these numbers are the hit counts. */
  method CallAll(collection: RKSortedRegexCollection, calls: seq<Call>, hash: nat -> nat, matches: (nat, nat) -> bool)
    returns (answers: seq<Option<nat>>, ghost orders: seq<seq<nat>>, ghost winners: seq<Option<nat>>)
    requires collection.Valid() && collection.missedObjectHashCache[..] == seq(BUCKETS, i => 0)
    requires forall i :: 0 <= i < |collection.regexes| ==> collection.hitCounts[i] == 0 && collection.sortedElements[i] == i
    modifies collection, collection.hitCounts, collection.sortedElements, collection.missedObjectHashCache
    ensures collection.Valid() && |answers| == |orders| == |winners| == |calls|
    ensures var w := WorldOf(collection.regexes, collection.isSet, hash, matches);
            && (forall i :: 0 <= i < |calls| ==> (answers[i].Some? <==> Returns(w, calls, i)))
            && (AnyModeOnDistinct(calls, hash) ==> forall i :: 0 <= i < |calls| ==> (answers[i].Some? <==> w.finds(calls[i])))
    ensures CallsTold(collection.regexes, collection.isSet, matches, calls, answers, orders, winners)
    ensures forall e :: 0 <= e < |collection.regexes| ==> collection.hitCounts[e] == AnswersOf(winners, e, |calls|)
  {
    ghost var w, n := WorldOf(collection.regexes, collection.isSet, hash, matches), |collection.regexes|;
    answers, orders, winners := [], [], [];
    assert calls[..0] == [];
    assert collection.sortedElements[..] == InitialOrder(n);
    for i := 0 to |calls|
      invariant collection.Valid() && |answers| == i
      invariant Answered(w, calls, collection.missedObjectHashCache[..], answers)
      invariant CallsTold(collection.regexes, collection.isSet, matches, calls, answers, orders, winners)
      invariant CountsAnswers(collection.hitCounts[..], winners)
      invariant collection.sortedElements[..] == OrderBefore(n, orders, i)
    {
      ghost var table, hits := collection.missedObjectHashCache[..], collection.hitCounts[..];
      var answer;
      ghost var winner;
      answer, winner := CallOnce(collection, calls[i], hash, matches);
      OneMoreAnswer(w, calls, table, answers, collection.missedObjectHashCache[..], answer);
      SortFollowsAnswers(hits, winners, OrderBefore(n, orders, i));
      ToldOneMore(collection.regexes, collection.isSet, matches, calls, answers, orders, winners, collection.sortedElements[..], answer, winner);
      CountsOneMore(hits, winners, winner);
      answers, orders, winners := answers + [answer], orders + [collection.sortedElements[..]], winners + [winner];
    }
    assert forall e :: 0 <= e < n ==> collection.hitCounts[..][e] == AnswersOf(winners, e, |winners|);
    AnyModeCallsAreRight(w, calls);
  }
}
