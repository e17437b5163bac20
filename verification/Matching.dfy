/**
 The matcher and the successive matches that the replace loop (Source/NSString.m:772-782) and the
 enumerator (Source/RKEnumerator.m:321-336) take: each search starts where the last match ended.
 The matcher itself is left open; what it finds lies in the range it is given.
 */
module Matching {
  import opened Base

  /** find(from, to) searches the bytes from up to to, and gives the ranges of the captures. */
  datatype Matcher = Matcher(captureCount: nat, find: (nat, nat) -> Option<seq<Range>>)

  ghost predicate Proper(matcher: Matcher, length: nat, from: nat, to: nat) {
    matcher.find(from, to).Some? ==>
      var ranges := matcher.find(from, to).value;
      && |ranges| == matcher.captureCount && ranges != []
      && from <= ranges[0].location && ranges[0].Max() <= to
      && forall i :: 0 <= i < |ranges| && ranges[i].length > 0 ==> ranges[i].Max() <= length
  }

  /** What is asked of the matcher on a subject of this length. */
  ghost predicate Sound(matcher: Matcher, length: nat) {
    forall from, to :: 0 <= from <= to <= length ==> Proper(matcher, length, from, to)
  }

  /** The matcher never finds an empty match. */
  ghost predicate NonEmpty(matcher: Matcher, length: nat) {
    forall from, to :: 0 <= from <= to <= length && matcher.find(from, to).Some? && matcher.find(from, to).value != [] ==>
      matcher.find(from, to).value[0].length > 0
  }

  /** A match is found at from. */
  predicate Finds(matcher: Matcher, from: nat, to: nat) {
    matcher.find(from, to).Some? && matcher.find(from, to).value != []
  }

  /** The first n matches from here on. */
  function Found(matcher: Matcher, from: nat, to: nat, n: nat): seq<seq<Range>>
    decreases n
  {
    if n == 0 || !Finds(matcher, from, to) then []
    else
      var ranges := matcher.find(from, to).value;
      [ranges] + Found(matcher, ranges[0].Max(), to, n - 1)
  }

  /** The first n matches that the replace loop takes: it does not search once it is at the end. */
  function Taken(matcher: Matcher, from: nat, to: nat, n: nat): seq<seq<Range>>
    decreases n
  {
    if n == 0 || from >= to || !Finds(matcher, from, to) then []
    else
      var ranges := matcher.find(from, to).value;
      [ranges] + Taken(matcher, ranges[0].Max(), to, n - 1)
  }

  /** The end of a match. */
  function End(ranges: seq<Range>): nat {
    if ranges == [] then 0 else ranges[0].Max()
  }

  function Start(ranges: seq<Range>): nat {
    if ranges == [] then 0 else ranges[0].location
  }

  /** Where the search goes on after these matches. */
  function After(from: nat, list: seq<seq<Range>>, k: nat): nat
    requires k <= |list|
  {
    if k == 0 then from else End(list[k - 1])
  }

  /** The matches lie one after the other in the range. */
  ghost predicate Ascending(list: seq<seq<Range>>, from: nat, to: nat) {
    && (forall k :: 0 <= k < |list| ==> list[k] != [] && from <= Start(list[k]) <= End(list[k]) <= to)
    && (forall i, k :: 0 <= i < k < |list| ==> End(list[i]) <= Start(list[k]))
  }

  lemma ProperAt(matcher: Matcher, length: nat, from: nat, to: nat)
    requires Sound(matcher, length) && from <= to <= length && Finds(matcher, from, to)
    ensures var ranges := matcher.find(from, to).value;
            && |ranges| == matcher.captureCount && from <= ranges[0].location && ranges[0].Max() <= to
            && forall i :: 0 <= i < |ranges| && ranges[i].length > 0 ==> ranges[i].Max() <= length
  {
    assert Proper(matcher, length, from, to);
  }

  lemma AscendingCons(first: seq<Range>, list: seq<seq<Range>>, from: nat, to: nat)
    requires first != [] && from <= first[0].location && first[0].Max() <= to && Ascending(list, first[0].Max(), to)
    ensures Ascending([first] + list, from, to)
  {
    var all: seq<seq<Range>> := [first] + list;
    forall k: nat | 0 < k < |all|
      ensures all[k] == list[k - 1]
    {
    }
    forall i: nat, k: nat | i < k < |all|
      ensures End(all[i]) <= Start(all[k])
    {
      if i > 0 {
        assert End(list[i - 1]) <= Start(list[k - 1]);
      }
    }
  }

  /** Successive matches are disjoint, in ascending order, and inside the search range. */
  lemma {:induction false} FoundIsAscending(matcher: Matcher, length: nat, from: nat, to: nat, n: nat)
    requires Sound(matcher, length) && from <= to <= length
    ensures Ascending(Found(matcher, from, to, n), from, to) && |Found(matcher, from, to, n)| <= n
    decreases n
  {
    if n > 0 && Finds(matcher, from, to) {
      ProperAt(matcher, length, from, to);
      var ranges := matcher.find(from, to).value;
      FoundIsAscending(matcher, length, ranges[0].Max(), to, n - 1);
      AscendingCons(ranges, Found(matcher, ranges[0].Max(), to, n - 1), from, to);
    }
  }

  lemma {:induction false} TakenIsAscending(matcher: Matcher, length: nat, from: nat, to: nat, n: nat)
    requires Sound(matcher, length) && from <= to <= length
    ensures Ascending(Taken(matcher, from, to, n), from, to) && |Taken(matcher, from, to, n)| <= n
    decreases n
  {
    if n > 0 && from < to && Finds(matcher, from, to) {
      ProperAt(matcher, length, from, to);
      var ranges := matcher.find(from, to).value;
      TakenIsAscending(matcher, length, ranges[0].Max(), to, n - 1);
      AscendingCons(ranges, Taken(matcher, ranges[0].Max(), to, n - 1), from, to);
    }
  }

  /** Non-empty matches: at most one for each byte of the range, and the same for the loop and the enumerator. */
  lemma {:induction false} NonEmptyMatchesAreFew(matcher: Matcher, length: nat, from: nat, to: nat, n: nat)
    requires Sound(matcher, length) && NonEmpty(matcher, length) && from <= to <= length
    ensures |Found(matcher, from, to, n)| <= to - from
    ensures Taken(matcher, from, to, n) == Found(matcher, from, to, n)
    decreases n
  {
    if Finds(matcher, from, to) {
      ProperAt(matcher, length, from, to);
      var ranges := matcher.find(from, to).value;
      assert ranges[0].length > 0;
      if n > 0 {
        NonEmptyMatchesAreFew(matcher, length, ranges[0].Max(), to, n - 1);
      }
    }
  }

  /** Asking for one more match gives it, if there is one. */
  lemma {:induction false} FoundSnoc(matcher: Matcher, from: nat, to: nat, n: nat)
    ensures var list := Found(matcher, from, to, n);
            && |list| <= n
            && Found(matcher, from, to, n + 1) ==
               list + (if |list| == n then Found(matcher, After(from, list, n), to, 1) else [])
    decreases n
  {
    if n > 0 && Finds(matcher, from, to) {
      var ranges := matcher.find(from, to).value;
      var next := ranges[0].Max();
      FoundSnoc(matcher, next, to, n - 1);
      var rest := Found(matcher, next, to, n - 1);
      assert |rest| == n - 1 ==> After(from, [ranges] + rest, n) == After(next, rest, n - 1);
      Associate([ranges], rest, if |rest| == n - 1 then Found(matcher, After(next, rest, n - 1), to, 1) else []);
    }
  }

  lemma {:induction false} TakenSnoc(matcher: Matcher, from: nat, to: nat, n: nat)
    ensures var list := Taken(matcher, from, to, n);
            && |list| <= n
            && Taken(matcher, from, to, n + 1) ==
               list + (if |list| == n then Taken(matcher, After(from, list, n), to, 1) else [])
    decreases n
  {
    if n > 0 && from < to && Finds(matcher, from, to) {
      var ranges := matcher.find(from, to).value;
      var next := ranges[0].Max();
      TakenSnoc(matcher, next, to, n - 1);
      var rest := Taken(matcher, next, to, n - 1);
      assert |rest| == n - 1 ==> After(from, [ranges] + rest, n) == After(next, rest, n - 1);
      Associate([ranges], rest, if |rest| == n - 1 then Taken(matcher, After(next, rest, n - 1), to, 1) else []);
    }
  }

  /** Once fewer matches than asked for are there, asking for more gives no more. */
  lemma {:induction false} TakenIsFinal(matcher: Matcher, from: nat, to: nat, n: nat, all: nat)
    requires |Taken(matcher, from, to, n)| < n <= all
    ensures Taken(matcher, from, to, all) == Taken(matcher, from, to, n)
    decreases n
  {
    if from < to && Finds(matcher, from, to) {
      TakenIsFinal(matcher, matcher.find(from, to).value[0].Max(), to, n - 1, all - 1);
    }
  }

  /** Each of the matches is what the search finds from the end of the one before, the first from where it starts. */
  ghost predicate Successive(matcher: Matcher, from: nat, to: nat, list: seq<seq<Range>>) {
    forall k :: 0 <= k < |list| ==> list[k] != [] && matcher.find(After(from, list, k), to) == Some(list[k])
  }

  lemma SuccessiveCons(matcher: Matcher, from: nat, to: nat, first: seq<Range>, list: seq<seq<Range>>)
    requires matcher.find(from, to) == Some(first) && first != [] && Successive(matcher, first[0].Max(), to, list)
    ensures Successive(matcher, from, to, [first] + list)
    ensures After(from, [first] + list, |list| + 1) == After(first[0].Max(), list, |list|)
  {
    var all: seq<seq<Range>> := [first] + list;
    forall k: nat | 0 < k < |all|
      ensures all[k] == list[k - 1] && After(from, all, k) == After(first[0].Max(), list, k - 1)
    {
    }
  }

  /** The matches of the enumerator are successive, as many as asked for unless there are no more. */
  lemma {:induction false} FoundAreSuccessive(matcher: Matcher, from: nat, to: nat, n: nat)
    ensures var list := Found(matcher, from, to, n);
            Successive(matcher, from, to, list) && |list| <= n && (|list| == n || !Finds(matcher, After(from, list, |list|), to))
    decreases n
  {
    if n > 0 && Finds(matcher, from, to) {
      var first := matcher.find(from, to).value;
      FoundAreSuccessive(matcher, first[0].Max(), to, n - 1);
      SuccessiveCons(matcher, from, to, first, Found(matcher, first[0].Max(), to, n - 1));
    }
  }

  /** The matches of the replace loop are successive, as many as asked for unless there are no more or it is at the end. */
  lemma {:induction false} TakenAreSuccessive(matcher: Matcher, from: nat, to: nat, n: nat)
    ensures var list := Taken(matcher, from, to, n);
            && Successive(matcher, from, to, list) && |list| <= n
            && (|list| == n || After(from, list, |list|) >= to || !Finds(matcher, After(from, list, |list|), to))
    decreases n
  {
    if n > 0 && from < to && Finds(matcher, from, to) {
      var first := matcher.find(from, to).value;
      TakenAreSuccessive(matcher, first[0].Max(), to, n - 1);
      SuccessiveCons(matcher, from, to, first, Taken(matcher, first[0].Max(), to, n - 1));
    }
  }

  // ---------------------------------------------------------------------------------------
  // When replacing all matches goes on for ever
  // ---------------------------------------------------------------------------------------

  /** The replace-all loop never ends: it has an n-th match for every n. */
  ghost predicate Diverges(matcher: Matcher, from: nat, to: nat) {
    forall n: nat :: |Taken(matcher, from, to, n)| == n
  }

  /** After k matches the search is at an empty match, short of the end. */
  ghost predicate StuckAfter(matcher: Matcher, from: nat, to: nat, k: nat) {
    var list := Taken(matcher, from, to, k);
    && |list| == k
    && var at := After(from, list, k);
       at < to && Finds(matcher, at, to) && matcher.find(at, to).value[0] == Range(at, 0)
  }

  lemma {:induction false} EmptyMatchRepeats(matcher: Matcher, at: nat, to: nat, n: nat)
    requires at < to && Finds(matcher, at, to) && matcher.find(at, to).value[0] == Range(at, 0)
    ensures |Taken(matcher, at, to, n)| == n
  {
    if n > 0 {
      EmptyMatchRepeats(matcher, at, to, n - 1);
    }
  }

  lemma {:induction false} StuckDiverges(matcher: Matcher, from: nat, to: nat, k: nat, n: nat)
    requires StuckAfter(matcher, from, to, k)
    ensures |Taken(matcher, from, to, n)| == n
    decreases k
  {
    if k == 0 {
      EmptyMatchRepeats(matcher, from, to, n);
    } else if n > 0 {
      var ranges := matcher.find(from, to).value;
      var rest := Taken(matcher, ranges[0].Max(), to, k - 1);
      assert After(from, [ranges] + rest, k) == After(ranges[0].Max(), rest, k - 1);
      StuckDiverges(matcher, ranges[0].Max(), to, k - 1, n - 1);
    }
  }

  /** Unless it gets stuck, the loop advances with every match. */
  lemma {:induction false} AdvancesOrSticks(matcher: Matcher, length: nat, from: nat, to: nat, n: nat) returns (k: nat)
    requires Sound(matcher, length) && from <= to <= length && |Taken(matcher, from, to, n)| > to - from
    ensures k <= to - from && StuckAfter(matcher, from, to, k)
    decreases n
  {
    ProperAt(matcher, length, from, to);
    var ranges := matcher.find(from, to).value;
    if ranges[0] == Range(from, 0) {
      k := 0;
    } else {
      var next := ranges[0].Max();
      k := AdvancesOrSticks(matcher, length, next, to, n - 1);
      k := k + 1;
      var rest := Taken(matcher, next, to, k - 1);
      assert After(from, [ranges] + rest, k) == After(next, rest, k - 1);
      assert Taken(matcher, from, to, k) == [ranges] + rest;
    }
  }

  /** Replacing all matches goes on for ever if and only if, before the end of the range, the loop
      reaches a position with an empty match at itself. */
  lemma DivergesIff(matcher: Matcher, length: nat, from: nat, to: nat)
    requires Sound(matcher, length) && from <= to <= length
    ensures Diverges(matcher, from, to) <==> exists k: nat :: k <= to - from && StuckAfter(matcher, from, to, k)
  {
    if Diverges(matcher, from, to) {
      assert |Taken(matcher, from, to, to - from + 1)| == to - from + 1;
      var k := AdvancesOrSticks(matcher, length, from, to, to - from + 1);
    }
    if k: nat :| k <= to - from && StuckAfter(matcher, from, to, k) {
      forall n: nat
        ensures |Taken(matcher, from, to, n)| == n
      {
        StuckDiverges(matcher, from, to, k, n);
      }
    }
  }

  // ---------------------------------------------------------------------------------------
  // When an enumerator never comes to an end
  // ---------------------------------------------------------------------------------------

  /** The enumerator, which searches at the end of the range as well, has an n-th match for every n. */
  ghost predicate Endless(matcher: Matcher, from: nat, to: nat) {
    forall n: nat :: |Found(matcher, from, to, n)| == n
  }

  /** After k matches the search is at an empty match, be it at the very end. */
  ghost predicate SticksAfter(matcher: Matcher, from: nat, to: nat, k: nat) {
    var list := Found(matcher, from, to, k);
    && |list| == k
    && var at := After(from, list, k);
       Finds(matcher, at, to) && matcher.find(at, to).value[0] == Range(at, 0)
  }

  lemma {:induction false} SticksForever(matcher: Matcher, from: nat, to: nat, k: nat, n: nat)
    requires SticksAfter(matcher, from, to, k)
    ensures |Found(matcher, from, to, n)| == n
    decreases k, n
  {
    if n > 0 {
      if k == 0 {
        SticksForever(matcher, from, to, 0, n - 1);
      } else {
        var ranges := matcher.find(from, to).value;
        var rest := Found(matcher, ranges[0].Max(), to, k - 1);
        assert After(from, [ranges] + rest, k) == After(ranges[0].Max(), rest, k - 1);
        SticksForever(matcher, ranges[0].Max(), to, k - 1, n - 1);
      }
    }
  }

  lemma {:induction false} AdvancesUntilItSticks(matcher: Matcher, length: nat, from: nat, to: nat, n: nat) returns (k: nat)
    requires Sound(matcher, length) && from <= to <= length && |Found(matcher, from, to, n)| > to - from
    ensures k <= to - from && SticksAfter(matcher, from, to, k)
    decreases n
  {
    ProperAt(matcher, length, from, to);
    var ranges := matcher.find(from, to).value;
    if ranges[0] == Range(from, 0) {
      k := 0;
    } else {
      var next := ranges[0].Max();
      k := AdvancesUntilItSticks(matcher, length, next, to, n - 1);
      k := k + 1;
      var rest := Found(matcher, next, to, k - 1);
      assert After(from, [ranges] + rest, k) == After(next, rest, k - 1);
      assert Found(matcher, from, to, k) == [ranges] + rest;
    }
  }

  /** An enumerator is never exhausted if and only if it reaches a position with an empty match at itself, the
      end of the range included. */
  lemma EndlessIff(matcher: Matcher, length: nat, from: nat, to: nat)
    requires Sound(matcher, length) && from <= to <= length
    ensures Endless(matcher, from, to) <==> exists k: nat :: k <= to - from && SticksAfter(matcher, from, to, k)
  {
    if Endless(matcher, from, to) {
      assert |Found(matcher, from, to, to - from + 1)| == to - from + 1;
      var k := AdvancesUntilItSticks(matcher, length, from, to, to - from + 1);
    }
    if k: nat :| k <= to - from && SticksAfter(matcher, from, to, k) {
      forall n: nat
        ensures |Found(matcher, from, to, n)| == n
      {
        SticksForever(matcher, from, to, k, n);
      }
    }
  }
}
