/**
 RKDoArrayAction (Source/NSArray.m:56-124): scanning an array for the objects that match a regex, and
 adding or removing them in place.
 */
module ArrayAction {
  import opened Base

  datatype Action =
    | IndexOfFirstMatch
    | ArrayOfMatchingObjects
    | CountOfMatchingObjects
    | AddMatches
    | RemoveMatches
    | IndexSetOfMatchingObjects

  /** What the actions return; a range beyond the array raises an exception. */
  datatype Result =
    | RangeException
    | Index(index: Option<nat>)
    | Objects(objects: seq<nat>)
    | Count(count: nat)
    | Indexes(indexes: set<nat>)
    | Done

  /** The sequence without its i-th element. */
  function Without(s: seq<nat>, i: nat): seq<nat>
    requires i < |s|
  {
    s[..i] + s[i + 1..]
  }

  class NSMutableArray {
    var objects: seq<nat>

    constructor (objects: seq<nat>)
      ensures this.objects == objects
    {
      this.objects := objects;
    }

    method AddObject(o: nat)
      modifies this
      ensures objects == old(objects) + [o]
    {
      objects := objects + [o];
    }

    method RemoveObjectAtIndex(i: nat)
      requires i < |objects|
      modifies this
      ensures objects == old(objects)[..i] + old(objects)[i + 1..]
    {
      objects := Without(objects, i);
    }
  }

  // ---------------------------------------------------------------------------------------
  // The matching objects of a range
  // ---------------------------------------------------------------------------------------

  /** The indexes below j, from lo on, of the objects that match, in ascending order. */
  function MatchedIndexes(s: seq<nat>, matches: nat -> bool, lo: nat, j: nat): seq<nat>
    requires lo <= j <= |s|
  {
    if j == lo then []
    else MatchedIndexes(s, matches, lo, j - 1) + (if matches(s[j - 1]) then [j - 1] else [])
  }

  function MatchedObjects(s: seq<nat>, matches: nat -> bool, lo: nat, j: nat): seq<nat>
    requires lo <= j <= |s|
  {
    if j == lo then []
    else MatchedObjects(s, matches, lo, j - 1) + (if matches(s[j - 1]) then [s[j - 1]] else [])
  }

  /** The first j objects without those of the range lo to hi that match. */
  function Unmatched(s: seq<nat>, matches: nat -> bool, lo: nat, hi: nat, j: nat): seq<nat>
    requires j <= |s|
  {
    if j == 0 then []
    else Unmatched(s, matches, lo, hi, j - 1) + (if lo <= j - 1 < hi && matches(s[j - 1]) then [] else [s[j - 1]])
  }

  /** The matched indexes are the indexes of matching objects, in ascending order, and no others. */
  lemma {:induction false} MatchedIndexesAreAscending(s: seq<nat>, matches: nat -> bool, lo: nat, j: nat)
    requires lo <= j <= |s|
    ensures var list := MatchedIndexes(s, matches, lo, j);
            && (forall x :: 0 <= x < |list| ==> lo <= list[x] < j && matches(s[list[x]]))
            && (forall x, y :: 0 <= x < y < |list| ==> list[x] < list[y])
    ensures forall i :: lo <= i < j && matches(s[i]) ==> i in MatchedIndexes(s, matches, lo, j)
    ensures |MatchedObjects(s, matches, lo, j)| == |MatchedIndexes(s, matches, lo, j)|
    ensures forall x :: 0 <= x < |MatchedIndexes(s, matches, lo, j)| ==>
              MatchedIndexes(s, matches, lo, j)[x] < |s|
              && MatchedObjects(s, matches, lo, j)[x] == s[MatchedIndexes(s, matches, lo, j)[x]]
  {
    if lo < j {
      MatchedIndexesAreAscending(s, matches, lo, j - 1);
    }
  }

  /** How many objects are dropped: the length falls by the number of matches. */
  lemma {:induction false} KeptLength(s: seq<nat>, matches: nat -> bool, lo: nat, hi: nat, j: nat)
    requires lo <= hi <= |s| && j <= |s|
    ensures j <= lo ==> |Unmatched(s, matches, lo, hi, j)| == j
    ensures lo <= j <= hi ==> |Unmatched(s, matches, lo, hi, j)| == j - |MatchedIndexes(s, matches, lo, j)|
    ensures hi <= j ==> |Unmatched(s, matches, lo, hi, j)| == j - |MatchedIndexes(s, matches, lo, hi)|
  {
    if j > 0 {
      KeptLength(s, matches, lo, hi, j - 1);
    }
  }

  /** Where nothing is dropped, the objects move over unchanged. */
  lemma {:induction false} NothingDropped(s: seq<nat>, matches: nat -> bool, lo: nat, hi: nat, i: nat, j: nat)
    requires i <= j <= |s| && forall k :: i <= k < j ==> !(lo <= k < hi && matches(s[k]))
    ensures Unmatched(s, matches, lo, hi, i) + s[i..] == Unmatched(s, matches, lo, hi, j) + s[j..]
    decreases j
  {
    if i < j {
      NothingDropped(s, matches, lo, hi, i, j - 1);
      assert s[j - 1..] == [s[j - 1]] + s[j..];
      Associate(Unmatched(s, matches, lo, hi, j - 1), [s[j - 1]], s[j..]);
    }
  }

  /** The x-th matched index has x matches before it, and none between it and its predecessor. */
  lemma {:induction false} MatchedIndexAt(s: seq<nat>, matches: nat -> bool, lo: nat, hi: nat, x: nat)
    requires lo <= hi <= |s| && x < |MatchedIndexes(s, matches, lo, hi)|
    ensures var list := MatchedIndexes(s, matches, lo, hi);
            && lo <= list[x] < hi && matches(s[list[x]]) && |MatchedIndexes(s, matches, lo, list[x])| == x
            && (forall k :: (if x == 0 then lo else list[x - 1] + 1) <= k < list[x] ==> !matches(s[k]))
    decreases hi
  {
    var shorter := MatchedIndexes(s, matches, lo, hi - 1);
    if x < |shorter| {
      MatchedIndexAt(s, matches, lo, hi - 1, x);
    } else {
      NoneAfterLast(s, matches, lo, hi - 1);
    }
  }

  lemma {:induction false} NoneAfterLast(s: seq<nat>, matches: nat -> bool, lo: nat, hi: nat)
    requires lo <= hi <= |s|
    ensures var list := MatchedIndexes(s, matches, lo, hi);
            forall k :: (if list == [] then lo else list[|list| - 1] + 1) <= k < hi ==> !matches(s[k])
    decreases hi
  {
    if lo < hi {
      NoneAfterLast(s, matches, lo, hi - 1);
    }
  }

  // ---------------------------------------------------------------------------------------
  // The actions
  // ---------------------------------------------------------------------------------------

  /** Lines 89-95: the scan. */
  method Scan(arrayObjects: seq<nat>, lo: nat, hi: nat, matches: nat -> bool, firstOnly: bool)
    returns (matchedIndexes: seq<nat>, matchedObjects: seq<nat>, first: Option<nat>)
    requires lo <= hi <= |arrayObjects|
    ensures first.Some? ==> firstOnly && lo <= first.value < hi && matches(arrayObjects[first.value])
                            && forall i :: lo <= i < first.value ==> !matches(arrayObjects[i])
    ensures firstOnly && first == None ==> forall i :: lo <= i < hi ==> !matches(arrayObjects[i])
    ensures first == None ==> matchedIndexes == MatchedIndexes(arrayObjects, matches, lo, hi)
                              && matchedObjects == MatchedObjects(arrayObjects, matches, lo, hi)
  {
    matchedIndexes, matchedObjects, first := [], [], None;
    for at := lo to hi
      invariant matchedIndexes == MatchedIndexes(arrayObjects, matches, lo, at)
      invariant matchedObjects == MatchedObjects(arrayObjects, matches, lo, at)
      invariant firstOnly ==> forall i :: lo <= i < at ==> !matches(arrayObjects[i])
    {
      if matches(arrayObjects[at]) {
        if firstOnly {
          first := Some(at);
          return;
        }
        matchedIndexes := matchedIndexes + [at];
        matchedObjects := matchedObjects + [arrayObjects[at]];
      }
    }
  }

  /** The array after the first x removals: what is kept up to the last of them, and the rest. */
  ghost function AfterRemovals(s: seq<nat>, matches: nat -> bool, lo: nat, hi: nat, x: nat): seq<nat>
    requires lo <= hi <= |s| && x <= |MatchedIndexes(s, matches, lo, hi)|
  {
    MatchedIndexesAreAscending(s, matches, lo, hi);
    var done := if x == 0 then 0 else MatchedIndexes(s, matches, lo, hi)[x - 1] + 1;
    Unmatched(s, matches, lo, hi, done) + s[done..]
  }

  lemma RemoveBehind(kept: seq<nat>, s: seq<nat>, i: nat)
    requires i < |s|
    ensures var all := kept + s[i..];
            |kept| < |all| && Without(all, |kept|) == kept + s[i + 1..]
  {
    var all := kept + s[i..];
    assert all[..|kept|] == kept && all[|kept| + 1..] == s[i + 1..];
  }

  /** The array just before the removal of the x-th match, with the match at i behind what is kept. */
  lemma BeforeRemoval(s: seq<nat>, matches: nat -> bool, lo: nat, hi: nat, x: nat) returns (i: nat)
    requires lo <= hi <= |s| && x < |MatchedIndexes(s, matches, lo, hi)|
    ensures i == MatchedIndexes(s, matches, lo, hi)[x] < |s|
    ensures x <= i && |Unmatched(s, matches, lo, hi, i)| == i - x
    ensures AfterRemovals(s, matches, lo, hi, x) == Unmatched(s, matches, lo, hi, i) + s[i..]
  {
    MatchedIndexAt(s, matches, lo, hi, x);
    MatchedIndexesAreAscending(s, matches, lo, hi);
    var list := MatchedIndexes(s, matches, lo, hi);
    i := list[x];
    NothingDropped(s, matches, lo, hi, if x == 0 then 0 else list[x - 1] + 1, i);
    KeptLength(s, matches, lo, hi, i);
  }

  lemma AfterRemoval(s: seq<nat>, matches: nat -> bool, lo: nat, hi: nat, x: nat)
    requires lo <= hi <= |s| && x < |MatchedIndexes(s, matches, lo, hi)|
    ensures var i := MatchedIndexes(s, matches, lo, hi)[x];
            i < |s| && AfterRemovals(s, matches, lo, hi, x + 1) == Unmatched(s, matches, lo, hi, i) + s[i + 1..]
  {
    MatchedIndexAt(s, matches, lo, hi, x);
    var i := MatchedIndexes(s, matches, lo, hi)[x];
    assert Unmatched(s, matches, lo, hi, i + 1) == Unmatched(s, matches, lo, hi, i) + [];
  }

  /** The index to remove at lies behind what is kept, and removing there keeps what should be. */
  lemma RemovalStep(s: seq<nat>, matches: nat -> bool, lo: nat, hi: nat, x: nat)
    requires lo <= hi <= |s| && x < |MatchedIndexes(s, matches, lo, hi)|
    ensures var i, all := MatchedIndexes(s, matches, lo, hi)[x], AfterRemovals(s, matches, lo, hi, x);
            && x <= i && i - x < |all|
            && Without(all, i - x) == AfterRemovals(s, matches, lo, hi, x + 1)
  {
    var i := BeforeRemoval(s, matches, lo, hi, x);
    AfterRemoval(s, matches, lo, hi, x);
    RemoveBehind(Unmatched(s, matches, lo, hi, i), s, i);
  }

  lemma RemovalsStart(s: seq<nat>, matches: nat -> bool, lo: nat, hi: nat)
    requires lo <= hi <= |s|
    ensures AfterRemovals(s, matches, lo, hi, 0) == s
  {
    assert AfterRemovals(s, matches, lo, hi, 0) == [] + s[0..] == s;
  }

  lemma RemovalsEnd(s: seq<nat>, matches: nat -> bool, lo: nat, hi: nat)
    requires lo <= hi <= |s|
    ensures var n := |MatchedIndexes(s, matches, lo, hi)|;
            && AfterRemovals(s, matches, lo, hi, n) == Unmatched(s, matches, lo, hi, |s|)
            && |Unmatched(s, matches, lo, hi, |s|)| == |s| - n
  {
    var list := MatchedIndexes(s, matches, lo, hi);
    MatchedIndexesAreAscending(s, matches, lo, hi);
    NoneAfterLast(s, matches, lo, hi);
    NothingDropped(s, matches, lo, hi, if list == [] then 0 else list[|list| - 1] + 1, |s|);
    KeptLength(s, matches, lo, hi, |s|);
    assert Unmatched(s, matches, lo, hi, |s|) + s[|s|..] == Unmatched(s, matches, lo, hi, |s|);
  }

  /** The array after the first x of the removals. */
  ghost predicate Removing(s: seq<nat>, matches: nat -> bool, lo: nat, hi: nat, list: seq<nat>, x: nat, objects: seq<nat>) {
    && lo <= hi <= |s| && list == MatchedIndexes(s, matches, lo, hi) && x <= |list|
    && objects == AfterRemovals(s, matches, lo, hi, x)
  }

  lemma RemovingStarts(s: seq<nat>, matches: nat -> bool, lo: nat, hi: nat, list: seq<nat>)
    requires lo <= hi <= |s| && list == MatchedIndexes(s, matches, lo, hi)
    ensures Removing(s, matches, lo, hi, list, 0, s)
  {
    RemovalsStart(s, matches, lo, hi);
  }

  lemma RemovingStep(s: seq<nat>, matches: nat -> bool, lo: nat, hi: nat, list: seq<nat>, x: nat, objects: seq<nat>)
    requires Removing(s, matches, lo, hi, list, x, objects) && x < |list|
    ensures x <= list[x] && list[x] - x < |objects|
    ensures Removing(s, matches, lo, hi, list, x + 1, Without(objects, list[x] - x))
  {
    RemovalStep(s, matches, lo, hi, x);
  }

  lemma RemovingEnds(s: seq<nat>, matches: nat -> bool, lo: nat, hi: nat, list: seq<nat>, objects: seq<nat>)
    requires Removing(s, matches, lo, hi, list, |list|, objects)
    ensures objects == Unmatched(s, matches, lo, hi, |s|) && |objects| == |s| - |list|
  {
    RemovalsEnd(s, matches, lo, hi);
  }

  /** Line 108: each index is reduced by the number of objects removed before it. */
  method RemoveAll(self: NSMutableArray, matchedIndexes: seq<nat>, ghost matches: nat -> bool, ghost lo: nat, ghost hi: nat)
    requires lo <= hi <= |self.objects| && matchedIndexes == MatchedIndexes(self.objects, matches, lo, hi)
    modifies self
    ensures self.objects == Unmatched(old(self.objects), matches, lo, hi, |old(self.objects)|)
    ensures |self.objects| == |old(self.objects)| - |matchedIndexes|
  {
    ghost var s := self.objects;
    RemovingStarts(s, matches, lo, hi, matchedIndexes);
    for x := 0 to |matchedIndexes|
      invariant Removing(s, matches, lo, hi, matchedIndexes, x, self.objects)
    {
      RemovingStep(s, matches, lo, hi, matchedIndexes, x, self.objects);
      self.RemoveObjectAtIndex(matchedIndexes[x] - x);
    }
    RemovingEnds(s, matches, lo, hi, matchedIndexes, self.objects);
  }

  /** RKDoArrayAction */
  method DoArrayAction(self: NSMutableArray, matchAgainstArray: NSMutableArray, againstRange: Option<Range>,
                       matches: nat -> bool, action: Action)
    returns (r: Result)
    requires action.RemoveMatches? ==> self == matchAgainstArray
    modifies self
    ensures var s := old(matchAgainstArray.objects);
            var range := if againstRange.Some? then againstRange.value else Range(0, |s|);
            if range.Max() > |s| then r == RangeException && self.objects == old(self.objects)
            else
              var lo, hi := range.location, range.Max();
              match action
              case IndexOfFirstMatch =>
                && self.objects == old(self.objects) && r.Index?
                && (r.index.Some? ==> lo <= r.index.value < hi && matches(s[r.index.value])
                                      && forall i :: lo <= i < r.index.value ==> !matches(s[i]))
                && (r.index == None ==> forall i :: lo <= i < hi ==> !matches(s[i]))
              case ArrayOfMatchingObjects => r == Objects(MatchedObjects(s, matches, lo, hi)) && self.objects == old(self.objects)
              case CountOfMatchingObjects => r == Count(|MatchedIndexes(s, matches, lo, hi)|) && self.objects == old(self.objects)
              case AddMatches => r == Done && self.objects == old(self.objects) + MatchedObjects(s, matches, lo, hi)
              case RemoveMatches => r == Done && self.objects == Unmatched(s, matches, lo, hi, |s|)
              case IndexSetOfMatchingObjects =>
                && self.objects == old(self.objects)
                && r == Indexes(set i: nat | lo <= i < hi && matches(s[i]))
  {
    var s := matchAgainstArray.objects;
    var matchRange := if againstRange.Some? then againstRange.value else Range(0, |s|);
    if matchRange.location > |s| || matchRange.location + matchRange.length > |s| {
      return RangeException;
    }
    var lo, hi := matchRange.location, matchRange.Max();
    var matchedIndexes, matchedObjects, first := Scan(s, lo, hi, matches, action.IndexOfFirstMatch?);
    match action {
      case IndexOfFirstMatch => r := Index(first);
      case ArrayOfMatchingObjects => r := Objects(matchedObjects);
      case CountOfMatchingObjects => r := Count(|matchedIndexes|);
      case AddMatches =>
        for x := 0 to |matchedObjects|
          invariant self.objects == old(self.objects) + matchedObjects[..x]
        {
          self.AddObject(matchedObjects[x]);
        }
        r := Done;
      case RemoveMatches =>
        RemoveAll(self, matchedIndexes, matches, lo, hi);
        r := Done;
      case IndexSetOfMatchingObjects =>
        var indexSet: set<nat> := {};
        for x := 0 to |matchedIndexes|
          invariant indexSet == set i | i in matchedIndexes[..x]
        {
          indexSet := indexSet + {matchedIndexes[x]};
        }
        MatchedIndexesAreAscending(s, matches, lo, hi);
        assert matchedIndexes[..|matchedIndexes|] == matchedIndexes;
        r := Indexes(indexSet);
    }
  }

  /** Where a removal leaves an object that stays: as many places further to the front as matching objects of the range
      were before it. With the number of objects left this says what the array is. */
  lemma {:induction false} KeptAt(s: seq<nat>, matches: nat -> bool, lo: nat, hi: nat, j: nat, k: nat)
    requires lo <= hi <= |s| && k < j <= |s| && !(lo <= k < hi && matches(s[k]))
    ensures var removed := |MatchedIndexes(s, matches, lo, if k < lo then lo else if k < hi then k else hi)|;
            removed <= k && k - removed < |Unmatched(s, matches, lo, hi, j)| && Unmatched(s, matches, lo, hi, j)[k - removed] == s[k]
    decreases j
  {
    KeptLength(s, matches, lo, hi, k);
    if k < j - 1 {
      KeptAt(s, matches, lo, hi, j - 1, k);
    }
  }

  /** Removing keeps exactly the objects that are outside the range or do not match, in order, and
      counting beforehand says how many go. */
  lemma RemoveAgreesWithCount(s: seq<nat>, matches: nat -> bool, lo: nat, hi: nat)
    requires lo <= hi <= |s|
    ensures |Unmatched(s, matches, lo, hi, |s|)| == |s| - |MatchedIndexes(s, matches, lo, hi)|
    ensures lo == 0 && hi == |s| ==> forall o :: o in Unmatched(s, matches, lo, hi, |s|) <==> o in s && !matches(o)
    ensures lo == 0 && hi == |s| ==> MatchedIndexes(Unmatched(s, matches, lo, hi, |s|), matches, 0, |Unmatched(s, matches, lo, hi, |s|)|) == []
  {
    KeptLength(s, matches, lo, hi, |s|);
    if lo == 0 && hi == |s| {
      KeptObjects(s, matches, |s|);
      assert s[..|s|] == s;
      var kept := Unmatched(s, matches, lo, hi, |s|);
      NoMatches(kept, matches, |kept|);
    }
  }

  lemma {:induction false} NoMatches(s: seq<nat>, matches: nat -> bool, j: nat)
    requires j <= |s| && forall o :: o in s ==> !matches(o)
    ensures MatchedIndexes(s, matches, 0, j) == []
  {
    if j > 0 {
      NoMatches(s, matches, j - 1);
    }
  }

  lemma {:induction false} KeptObjects(s: seq<nat>, matches: nat -> bool, j: nat)
    requires j <= |s|
    ensures forall o :: o in Unmatched(s, matches, 0, |s|, j) <==> o in s[..j] && !matches(o)
  {
    if j > 0 {
      KeptObjects(s, matches, j - 1);
      assert s[..j] == s[..j - 1] + [s[j - 1]];
    }
  }
}
