/**
 RKEnumerator (Source/RKEnumerator.m): the current match, the step to the next one, and the exhausted
 state. The conversion of ranges to UTF-16 is a parameter.
 */
module Enumerator {
  import opened Base
  import opened Matching

  class RKEnumerator {
    const matcher: Matcher
    const searchByteRange: Range
    const toUTF16: Range -> Range
    var atBufferLocation: nat
    var hasPerformedMatch: bool
    var resultUTF8Ranges: seq<Range>
    var resultUTF16Ranges: seq<Range>
    ghost var length: nat
    ghost var seen: seq<seq<Range>>  // the matches enumerated so far

    ghost predicate Valid()
      reads this
    {
      var from, to := searchByteRange.location, searchByteRange.Max();
      && Sound(matcher, length) && to <= length < NOT_FOUND
      && seen == Found(matcher, from, to, |seen|)
      && (if atBufferLocation == NOT_FOUND then Found(matcher, from, to, |seen| + 1) == seen
          else atBufferLocation == After(from, seen, |seen|) && from <= atBufferLocation <= to)
      && (hasPerformedMatch <==> seen != [] || atBufferLocation == NOT_FOUND)
      && (atBufferLocation != NOT_FOUND && seen != [] ==>
            && resultUTF8Ranges == seen[|seen| - 1] && resultUTF8Ranges != []
            && |resultUTF16Ranges| == |resultUTF8Ranges|
            && forall i :: 0 <= i < |resultUTF8Ranges| ==> resultUTF16Ranges[i] == toUTF16(resultUTF8Ranges[i]))
    }

    /** The enumerator has run out of matches. */
    predicate Exhausted()
      reads this
    {
      atBufferLocation == NOT_FOUND
    }

    constructor (matcher: Matcher, range: Range, toUTF16: Range -> Range, ghost length: nat)
      requires Sound(matcher, length) && range.Max() <= length < NOT_FOUND
      ensures Valid() && seen == [] && !Exhausted() && !hasPerformedMatch
      ensures this.matcher == matcher && searchByteRange == range && this.toUTF16 == toUTF16 && this.length == length
    {
      this.matcher, searchByteRange, this.toUTF16, this.length := matcher, range, toUTF16, length;
      atBufferLocation, hasPerformedMatch, seen := range.location, false, [];
      resultUTF8Ranges := seq(matcher.captureCount, i => Range(NOT_FOUND, 0));
      resultUTF16Ranges := seq(matcher.captureCount, i => Range(NOT_FOUND, 0));
    }

    /** _updateToNextMatch: takes the next match, or becomes exhausted for good. */
    method UpdateToNextMatch() returns (updated: bool)
      requires Valid()
      modifies this
      ensures Valid() && length == old(length)
      ensures seen == Found(matcher, searchByteRange.location, searchByteRange.Max(), |old(seen)| + 1)
      ensures old(seen) <= seen && |seen| <= |old(seen)| + 1
      ensures updated <==> |seen| == |old(seen)| + 1
      ensures updated <==> !Exhausted()
      ensures old(Exhausted()) ==> Exhausted()
    {
      if atBufferLocation == NOT_FOUND {
        return false;
      }
      ghost var from, to := searchByteRange.location, searchByteRange.Max();
      FoundSnoc(matcher, from, to, |seen|);
      var matched := matcher.find(atBufferLocation, searchByteRange.Max());
      assert Proper(matcher, length, atBufferLocation, to);
      hasPerformedMatch := true;
      if matched.Some? {
        resultUTF8Ranges := matched.value;
        seen := seen + [matched.value];
        assert Found(matcher, atBufferLocation, to, 1) == [matched.value];
        atBufferLocation := resultUTF8Ranges[0].location + resultUTF8Ranges[0].length;
        var ranges := matched.value;
        resultUTF16Ranges := seq(|ranges|, i requires 0 <= i < |ranges| => toUTF16(ranges[i]));
        return true;
      }
      ReleaseAllResources();
      return false;
    }

    /** releaseAllResources */
    method ReleaseAllResources()
      modifies this
      ensures Exhausted() && seen == old(seen) && length == old(length) && hasPerformedMatch == old(hasPerformedMatch)
    {
      resultUTF8Ranges, resultUTF16Ranges := [], [];
      atBufferLocation := NOT_FOUND;
    }

    /** currentRange; None is the exception for asking before the first match. */
    method CurrentRange() returns (r: Option<Range>)
      requires Valid()
      ensures Exhausted() ==> r == Some(Range(NOT_FOUND, 0))
      ensures !Exhausted() ==> (r == None <==> seen == [])
      ensures !Exhausted() && seen != [] ==> r == Some(toUTF16(seen[|seen| - 1][0]))
    {
      if atBufferLocation == NOT_FOUND {
        return Some(Range(NOT_FOUND, 0));
      }
      if !hasPerformedMatch {
        return None;
      }
      return Some(resultUTF16Ranges[0]);
    }

    /** nextRange: the next match, or the range of NSNotFound at the end and ever after. */
    method NextRange() returns (r: Range)
      requires Valid()
      modifies this
      ensures Valid() && length == old(length) && (old(Exhausted()) ==> Exhausted())
      ensures seen == Found(matcher, searchByteRange.location, searchByteRange.Max(), |old(seen)| + 1)
      ensures old(seen) <= seen && |seen| <= |old(seen)| + 1 && (|seen| > |old(seen)| <==> !Exhausted())
      ensures if Exhausted() then r == Range(NOT_FOUND, 0) else seen != [] && r == toUTF16(seen[|seen| - 1][0])
    {
      if atBufferLocation == NOT_FOUND {
        return Range(NOT_FOUND, 0);
      }
      var updated := UpdateToNextMatch();
      var current := CurrentRange();
      r := current.value;
    }

    /** nextObject: the ranges of all captures of the next match, or NULL. */
    method NextObject() returns (r: Option<seq<Range>>)
      requires Valid()
      modifies this
      ensures Valid() && length == old(length) && (old(Exhausted()) ==> Exhausted())
      ensures seen == Found(matcher, searchByteRange.location, searchByteRange.Max(), |old(seen)| + 1)
      ensures r.Some? <==> |seen| > |old(seen)|
      ensures r.Some? ==> |r.value| == |seen[|seen| - 1]|
                          && forall i :: 0 <= i < |r.value| ==> r.value[i] == toUTF16(seen[|seen| - 1][i])
    {
      if atBufferLocation == NOT_FOUND {
        return None;
      }
      var updated := UpdateToNextMatch();
      if !updated {
        return None;
      }
      return Some(resultUTF16Ranges);
    }
  }

  /** An enumerator that has become exhausted has come to the end of its matches, so one that reaches an empty match at its
      own position never does. */
  lemma ExhaustedHasEnd(e: RKEnumerator)
    requires e.Valid() && e.Exhausted()
    ensures var from, to := e.searchByteRange.location, e.searchByteRange.Max();
            && !Endless(e.matcher, from, to)
            && forall k: nat :: k <= to - from ==> !SticksAfter(e.matcher, from, to, k)
  {
    var from, to := e.searchByteRange.location, e.searchByteRange.Max();
    assert |Found(e.matcher, from, to, |e.seen| + 1)| != |e.seen| + 1;
    EndlessIff(e.matcher, e.length, from, to);
  }

  /** The converted ranges of these matches. */
  ghost predicate Enumerated(toUTF16: Range -> Range, seen: seq<seq<Range>>, ranges: seq<Range>) {
    |ranges| == |seen| && forall k :: 0 <= k < |ranges| ==> seen[k] != [] && ranges[k] == toUTF16(seen[k][0])
  }

  lemma EnumeratedAll(matcher: Matcher, length: nat, from: nat, to: nat, seen: seq<seq<Range>>)
    requires Sound(matcher, length) && NonEmpty(matcher, length) && from <= to <= length
    requires seen == Found(matcher, from, to, |seen|) == Found(matcher, from, to, |seen| + 1)
    ensures |seen| <= to - from && seen == Taken(matcher, from, to, to - from + 1) && Ascending(seen, from, to)
  {
    NonEmptyMatchesAreFew(matcher, length, from, to, |seen| + 1);
    NonEmptyMatchesAreFew(matcher, length, from, to, to - from + 1);
    TakenIsFinal(matcher, from, to, |seen| + 1, to - from + 1);
    FoundIsAscending(matcher, length, from, to, |seen|);
  }

  /** With a matcher of non-empty matches, a new enumerator is exhausted after at most as many steps as
      the range has bytes and one more; what it enumerates is what the replace-all loop takes. */
  method EnumerateAll(e: RKEnumerator) returns (ranges: seq<Range>)
    requires e.Valid() && e.seen == [] && !e.Exhausted() && NonEmpty(e.matcher, e.length)
    modifies e
    ensures e.Valid() && e.Exhausted() && |ranges| == |e.seen| <= e.searchByteRange.length
    ensures var from, to := e.searchByteRange.location, e.searchByteRange.Max();
            e.seen == Taken(e.matcher, from, to, e.searchByteRange.length + 1) && Ascending(e.seen, from, to)
    ensures Enumerated(e.toUTF16, e.seen, ranges)
  {
    ghost var from, to, n := e.searchByteRange.location, e.searchByteRange.Max(), e.searchByteRange.length;
    ranges := [];
    var more := true;
    while more
      invariant e.Valid() && e.length == old(e.length) && |ranges| == |e.seen| && (more <==> !e.Exhausted())
      invariant Enumerated(e.toUTF16, e.seen, ranges)
      decreases n - |e.seen|, more
    {
      NonEmptyMatchesAreFew(e.matcher, e.length, from, to, |e.seen| + 1);
      var r := e.NextRange();
      if r.location == NOT_FOUND && e.atBufferLocation == NOT_FOUND {
        more := false;
      } else {
        ranges := ranges + [r];
      }
    }
    EnumeratedAll(e.matcher, e.length, from, to, e.seen);
  }
}
