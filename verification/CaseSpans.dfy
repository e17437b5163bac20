/**
 Templates with one case operation, and exactly when applying their instructions (Source/NSString.m:938-982)
 gives the direct expansion for every case mapping.
 */
module CaseSpans {
  import opened Base
  import opened Instructions
  import opened CaseExpansion

  /** Plain copies, a case operation, the copies of its run up to \E or the end, and plain copies behind \E. */
  predicate OneCase(parts: seq<Part>, first: nat, last: nat) {
    && first < last <= |parts| && WellFormed(parts)
    && parts[first].Case? && (IsSpan(parts[first].op) || IsNext(parts[first].op))
    && (last < |parts| ==> parts[last] == Case(ChangeCaseEnd))
    && forall k :: 0 <= k < |parts| && k != first && k != last ==> parts[k].Text?
  }

  /** The copy at k is empty. */
  predicate EmptyAt(parts: seq<Part>, k: nat) {
    k < |parts| && parts[k] == Text([])
  }

  /** An empty copy takes effect: in the run of \U or \L, one beside a copy that is not empty; in the run of
      \u or \l, one that comes first, with a copy behind it that is not empty. */
  predicate PartlyEmpty(parts: seq<Part>, first: nat, last: nat)
    requires OneCase(parts, first, last)
  {
    && (exists k :: first < k < last && !EmptyAt(parts, k))
    && if IsSpan(parts[first].op) then exists k :: first < k < last && EmptyAt(parts, k) else EmptyAt(parts, first + 1)
  }

  /** The text of the copies of the run from the k-th part on. */
  function RunText(parts: seq<Part>, k: nat, last: nat): seq<byte>
    requires k <= last <= |parts|
    decreases last - k
  {
    if k == last then [] else (if parts[k].Text? then parts[k].bytes else []) + RunText(parts, k + 1, last)
  }

  /** The text of the plain copies behind the run. */
  function Rest(m: CaseMap, parts: seq<Part>, last: nat): seq<byte>
    requires last <= |parts|
  {
    if last == |parts| then [] else Meaning(m, parts, last + 1, Stop, [])
  }

  lemma {:induction false} RunMeaning(m: CaseMap, parts: seq<Part>, first: nat, last: nat, k: nat, span: seq<byte>)
    requires OneCase(parts, first, last) && first < k <= last
    ensures Meaning(m, parts, k, parts[first].op, span) == Finish(m, parts[first].op, span + RunText(parts, k, last)) + Rest(m, parts, last)
    decreases last - k
  {
    if k == last {
      assert span + [] == span;
      assert Finish(m, parts[first].op, span) + [] == Finish(m, parts[first].op, span);
    } else {
      RunMeaning(m, parts, first, last, k + 1, span + parts[k].bytes);
      Associate(span, parts[k].bytes, RunText(parts, k + 1, last));
    }
  }

  lemma {:induction false} RunTextEmptyIff(parts: seq<Part>, first: nat, last: nat, k: nat)
    requires OneCase(parts, first, last) && first < k <= last
    ensures RunText(parts, k, last) == [] <==> forall i :: k <= i < last ==> EmptyAt(parts, i)
    decreases last - k
  {
    if k < last {
      RunTextEmptyIff(parts, first, last, k + 1);
      assert EmptyAt(parts, k) == (parts[k].bytes == []);
    }
  }

  /** A run begins with a whole character, as its first copy that is not empty does. */
  lemma {:induction false} RunTextIsWhole(parts: seq<Part>, first: nat, last: nat, k: nat)
    requires OneCase(parts, first, last) && first < k <= last
    ensures Whole(RunText(parts, k, last))
    decreases last - k
  {
    if k < last {
      RunTextIsWhole(parts, first, last, k + 1);
      assert Whole(parts[k].bytes);
    }
  }

  // ---------------------------------------------------------------------------------------
  // The case operation lost
  // ---------------------------------------------------------------------------------------

  /** With the operation lost and text pending, the loop ends in its assertion. */
  lemma {:induction false} LostTextRaises(m: CaseMap, parts: seq<Part>, first: nat, last: nat, k: nat, pending: seq<byte>)
    requires OneCase(parts, first, last) && first < k <= |parts| && pending != []
    ensures Apply(m, parts, k, Stop, pending).Raised?
    decreases |parts| - k
  {
    if k < |parts| {
      LostTextRaises(m, parts, first, last, k + 1, pending);
    }
  }

  /** With text pending, an empty copy leaves it pending for good. */
  lemma {:induction false} EmptyAfterTextRaises(m: CaseMap, parts: seq<Part>, first: nat, last: nat, k: nat, pending: seq<byte>)
    requires OneCase(parts, first, last) && IsSpan(parts[first].op) && first < k <= last && pending != []
    requires exists i :: k <= i < last && EmptyAt(parts, i)
    ensures Apply(m, parts, k, parts[first].op, pending).Raised?
    decreases last - k
  {
    if parts[k].bytes == [] {
      LostTextRaises(m, parts, first, last, k + 1, pending);
    } else {
      EmptyAfterTextRaises(m, parts, first, last, k + 1, pending + parts[k].bytes);
    }
  }

  lemma {:induction false} PlainRest(m: CaseMap, parts: seq<Part>, k: nat)
    requires k <= |parts| && WellFormed(parts) && forall i :: k <= i < |parts| ==> parts[i].Text?
    ensures Apply(m, parts, k, Stop, []) == Emitted(Meaning(m, parts, k, Stop, []))
    decreases |parts| - k
  {
    if k < |parts| {
      PlainRest(m, parts, k + 1);
      PlainTextComesFirst(m, parts, k + 1, [] + parts[k].bytes);
      assert [] + parts[k].bytes == parts[k].bytes;
      assert [] + Meaning(m, parts, k + 1, Stop, []) == Meaning(m, parts, k + 1, Stop, []);
    }
  }

  /** With the operation lost before the first text of the run, all of the run comes out unconverted. */
  lemma {:induction false} LostSpanIsPlain(m: CaseMap, parts: seq<Part>, first: nat, last: nat, k: nat)
    requires OneCase(parts, first, last) && first < k <= last
    ensures Apply(m, parts, k, Stop, []) == Emitted(RunText(parts, k, last) + Rest(m, parts, last))
    decreases last - k
  {
    if k == last {
      if last < |parts| {
        PlainRest(m, parts, last + 1);
      }
      assert [] + Rest(m, parts, last) == Rest(m, parts, last);
    } else {
      LostSpanIsPlain(m, parts, first, last, k + 1);
      Associate(parts[k].bytes, RunText(parts, k + 1, last), Rest(m, parts, last));
      assert [] + RunText(parts, k + 1, last) == RunText(parts, k + 1, last);
    }
  }

  // ---------------------------------------------------------------------------------------
  // A case map that shows it
  // ---------------------------------------------------------------------------------------

  function Marks(n: nat): (s: seq<byte>)
    ensures |s| == n
  {
    if n == 0 then [] else [1] + Marks(n - 1)
  }

  lemma {:induction false} MarksAreCString(n: nat)
    ensures CString(Marks(n)) == Marks(n)
  {
    if n > 0 {
      MarksAreCString(n - 1);
      assert Marks(n)[1..] == Marks(n - 1);
    }
  }

  /** Converts every text to n marks. */
  function MarkMap(n: nat): CaseMap {
    CaseMap(text => Marks(n), text => Marks(n))
  }

  lemma ConvertedRunIsLonger(parts: seq<Part>, first: nat, last: nat, n: nat)
    requires OneCase(parts, first, last) && RunText(parts, first + 1, last) != [] && n > |RunText(parts, first + 1, last)|
    ensures |Finish(MarkMap(n), parts[first].op, RunText(parts, first + 1, last))| > |RunText(parts, first + 1, last)|
  {
    RunTextIsWhole(parts, first, last, first + 1);
    MarksAreCString(n);
  }

  /** Before the case operation both agree, whatever is empty. */
  lemma {:induction false} PlainStart(m: CaseMap, parts: seq<Part>, first: nat, last: nat, k: nat)
    requires OneCase(parts, first, last) && k <= first
    ensures Apply(m, parts, k, Stop, []) == Emitted(Meaning(m, parts, k, Stop, [])) <==>
            Apply(m, parts, first + 1, parts[first].op, []) == Emitted(Meaning(m, parts, first + 1, parts[first].op, []))
    decreases first - k
  {
    if k < first {
      var bytes, rest := parts[k].bytes, Meaning(m, parts, k + 1, Stop, []);
      PlainStart(m, parts, first, last, k + 1);
      PlainTextComesFirst(m, parts, k + 1, [] + bytes);
      assert [] + bytes == bytes;
      var applied := Apply(m, parts, k + 1, Stop, []);
      if applied.Emitted? {
        assert (bytes + applied.bytes)[|bytes|..] == applied.bytes && (bytes + rest)[|bytes|..] == rest;
      }
    } else {
      assert [] + Meaning(m, parts, first + 1, parts[first].op, []) == Meaning(m, parts, first + 1, parts[first].op, []);
    }
  }

  /** There is a case map for which a template with a partly empty run goes wrong. */
  lemma PartlyEmptyGoesWrong(parts: seq<Part>, first: nat, last: nat) returns (m: CaseMap)
    requires OneCase(parts, first, last) && PartlyEmpty(parts, first, last)
    ensures Apply(m, parts, 0, Stop, []) != Emitted(Expansion(m, parts))
  {
    var op, text := parts[first].op, RunText(parts, first + 1, last);
    m := MarkMap(|text| + 1);
    RunTextEmptyIff(parts, first, last, first + 1);
    ConvertedRunIsLonger(parts, first, last, |text| + 1);
    RunMeaning(m, parts, first, last, first + 1, []);
    assert [] + text == text;
    if EmptyAt(parts, first + 1) {
      LostSpanIsPlain(m, parts, first, last, first + 2);
      assert text == [] + RunText(parts, first + 2, last) == RunText(parts, first + 2, last);
    } else {
      EmptyAfterTextRaises(m, parts, first, last, first + 2, [] + parts[first + 1].bytes);
    }
    PlainStart(m, parts, first, last, 0);
  }

  // ---------------------------------------------------------------------------------------
  // Where no empty copy takes effect
  // ---------------------------------------------------------------------------------------

  lemma {:induction false} PlainIsUnbroken(parts: seq<Part>, k: nat)
    requires k <= |parts| && forall i :: k <= i < |parts| ==> parts[i].Text? || parts[i] == Case(ChangeCaseEnd)
    ensures Unbroken(parts, k, Stop, false, false)
    decreases |parts| - k
  {
    if k < |parts| {
      PlainIsUnbroken(parts, k + 1);
    }
  }

  lemma {:induction false} EvenRunIsUnbroken(parts: seq<Part>, first: nat, last: nat, k: nat, broken: bool, any: bool)
    requires OneCase(parts, first, last) && first < k <= last
    requires broken ==> !any && forall i :: k <= i < last ==> EmptyAt(parts, i)
    requires !broken ==> (forall i :: k <= i < last ==> !EmptyAt(parts, i)) || (!any && forall i :: k <= i < last ==> EmptyAt(parts, i))
                         || (k < last && IsNext(parts[first].op) && !any && !EmptyAt(parts, k))
    requires any ==> IsSpan(parts[first].op)
    ensures Unbroken(parts, k, parts[first].op, broken, any)
    decreases last - k
  {
    var op := parts[first].op;
    if k == last {
      if last < |parts| {
        PlainIsUnbroken(parts, last + 1);
      }
    } else if EmptyAt(parts, k) {
      EvenRunIsUnbroken(parts, first, last, k + 1, true, any);
    } else if IsSpan(op) {
      EvenRunIsUnbroken(parts, first, last, k + 1, false, true);
    } else {
      PlainIsUnbroken(parts, k + 1);
    }
  }

  lemma {:induction false} EvenCaseIsUnbroken(parts: seq<Part>, first: nat, last: nat, k: nat)
    requires OneCase(parts, first, last) && !PartlyEmpty(parts, first, last) && k <= first
    ensures Unbroken(parts, k, Stop, false, false)
    decreases first - k
  {
    if k < first {
      EvenCaseIsUnbroken(parts, first, last, k + 1);
    } else {
      EvenRunIsUnbroken(parts, first, last, first + 1, false, false);
    }
  }

  /** A template with one case operation comes out right for every case map if and only if no empty copy takes
      effect: for \U and \L, the copies of the run are all empty or all not empty; for \u and \l, the first
      copy of the run is not empty, or none is. */
  lemma OneCaseIsRightIff(parts: seq<Part>, first: nat, last: nat)
    requires OneCase(parts, first, last)
    ensures (forall m: CaseMap :: Apply(m, parts, 0, Stop, []) == Emitted(Expansion(m, parts))) <==> !PartlyEmpty(parts, first, last)
  {
    if PartlyEmpty(parts, first, last) {
      var m := PartlyEmptyGoesWrong(parts, first, last);
    } else {
      EvenCaseIsUnbroken(parts, first, last, 0);
      forall m: CaseMap
        ensures Apply(m, parts, 0, Stop, []) == Emitted(Expansion(m, parts))
      {
        ApplyFollowsMeaning(m, parts, 0, Stop, false, []);
      }
    }
  }

  /** With a second case operation the leftover text of the first span can come out right by accident: here the
      second, which has no text of its own, picks it up. So for templates with more of them, that an empty copy
      takes effect does not say that the result is wrong. */
  lemma RightByAccident(m: CaseMap, text: seq<byte>)
    requires text != []
    ensures var parts := [Case(UppercaseBegin), Text(text), Text([]), Case(ChangeCaseEnd), Case(UppercaseBegin), Case(ChangeCaseEnd)];
            && !Unbroken(parts, 0, Stop, false, false)
            && Apply(m, parts, 0, Stop, []) == Emitted(Expansion(m, parts))
  {
    var parts := [Case(UppercaseBegin), Text(text), Text([]), Case(ChangeCaseEnd), Case(UppercaseBegin), Case(ChangeCaseEnd)];
    var converted := Finish(m, UppercaseBegin, text);
    assert [] + text == text && text + [] == text;
    assert Unbroken(parts, 3, UppercaseBegin, true, true) == false;
    assert Unbroken(parts, 1, UppercaseBegin, false, false) == Unbroken(parts, 2, UppercaseBegin, false, true) == false;
    assert Meaning(m, parts, 6, Stop, []) == [] && Meaning(m, parts, 5, UppercaseBegin, []) == [] + [];
    assert Meaning(m, parts, 4, Stop, []) == [] + ([] + []);
    assert Meaning(m, parts, 3, UppercaseBegin, text) == converted + ([] + ([] + [])) == converted;
    assert Meaning(m, parts, 1, UppercaseBegin, []) == Meaning(m, parts, 2, UppercaseBegin, text) == converted;
    assert Expansion(m, parts) == [] + converted == converted;
    assert Apply(m, parts, 5, UppercaseBegin, text) == Before(converted, Emitted([])) == Emitted(converted);
    assert Apply(m, parts, 3, Stop, text) == Apply(m, parts, 4, Stop, text) == Apply(m, parts, 5, UppercaseBegin, text);
    assert Apply(m, parts, 1, UppercaseBegin, []) == Apply(m, parts, 2, UppercaseBegin, text) == Apply(m, parts, 3, Stop, text);
  }
}
