/**
 Search and replace: RKStringByMatchingAndExpandingX (Source/NSString.m:731-797). The loop copies the gap
 before each match and the expansion of the template for it; what is left of the subject follows.
 */
module Replacer {
  import opened Base
  import opened Instructions
  import opened CaseExpansion
  import opened ReferenceCompiler
  import opened Applier
  import opened Expander
  import opened Matching

  /** Where the subject lies, and how long it is. */
  datatype Subject = Subject(ptr: nat, length: nat)

  function MatchOf(subject: Subject, ranges: seq<Range>): Match {
    Match(subject.ptr, subject.length, ranges)
  }

  /** What is asked of the matcher for this subject and regex: its captures are whole characters of the subject. */
  ghost predicate Suits(regex: Regex, matcher: Matcher, mem: seq<byte>, subject: Subject) {
    && subject.ptr + subject.length <= |mem|
    && Sound(matcher, subject.length) && matcher.captureCount == regex.captureCount
    && forall from, to :: 0 <= from <= to <= subject.length && matcher.find(from, to).Some? ==>
         WholeCaptures(mem, MatchOf(subject, matcher.find(from, to).value))
  }

  // ---------------------------------------------------------------------------------------
  // The meaning of a replacement
  // ---------------------------------------------------------------------------------------

  /** The bytes of the subject from one position to another. */
  ghost function Gap(mem: seq<byte>, subject: Subject, from: nat, to: nat): seq<byte> {
    if from <= to then Piece(mem, subject.ptr + from, to - from) else []
  }

  /** The gap before a match, if gaps are copied. */
  ghost function GapBefore(mem: seq<byte>, subject: Subject, at: nat, ranges: seq<Range>, replace: bool): seq<byte> {
    if replace then Gap(mem, subject, at, Start(ranges)) else []
  }

  ghost function Then(before: Outcome, gap: seq<byte>, expansion: Outcome): Outcome {
    if before.Raised? || expansion.Raised? then Raised else Emitted(before.bytes + gap + expansion.bytes)
  }

  /** The result up to the end of the k-th match: the prefix, and for each match the gap before it and what the
      instructions give for it. A call that only expands leaves out prefix and gaps. */
  ghost function Rendered(m: CaseMap, mem: seq<byte>, subject: Subject, list: seq<Reference>, from: nat,
                          matches: seq<seq<Range>>, k: nat, replace: bool): Outcome
    requires list != [] && k <= |matches|
  {
    if k == 0 then Emitted(if replace then Gap(mem, subject, 0, from) else [])
    else
      Then(Rendered(m, mem, subject, list, from, matches, k - 1, replace),
           GapBefore(mem, subject, After(from, matches, k - 1), matches[k - 1], replace),
           Applied(m, mem, MatchOf(subject, matches[k - 1]), list))
  }

  /** The direct form: the prefix, and for each match the gap before it and the expansion of the template's elements. */
  ghost function Replaced(m: CaseMap, mem: seq<byte>, subject: Subject, elements: seq<Element>, from: nat,
                          matches: seq<seq<Range>>, k: nat, replace: bool): seq<byte>
    requires k <= |matches|
  {
    if k == 0 then (if replace then Gap(mem, subject, 0, from) else [])
    else
      Replaced(m, mem, subject, elements, from, matches, k - 1, replace)
      + GapBefore(mem, subject, After(from, matches, k - 1), matches[k - 1], replace)
      + Intended(m, mem, MatchOf(subject, matches[k - 1]), elements)
  }

  // ---------------------------------------------------------------------------------------
  // One match
  // ---------------------------------------------------------------------------------------

  /** The template that was compiled, in the memory at the start. */
  ghost predicate Template(regex: Regex, mem: seq<byte>, t: seq<byte>, base: nat, list: seq<Reference>, elements: seq<Element>) {
    base + |t| <= |mem| && mem[base..base + |t|] == t && Finished(regex, t, base, list, elements)
  }

  /** The instructions can be applied to the match. */
  ghost predicate Ready(mem: seq<byte>, x: Match, list: seq<Reference>) {
    list != [] && Fits(mem, x) && Executable(mem, x, list) && WellFormed(Parts(mem, x, list))
  }

  lemma SettingOf(regex: Regex, matcher: Matcher, mem: seq<byte>, subject: Subject, t: seq<byte>, base: nat, list: seq<Reference>,
                  elements: seq<Element>, from: nat, to: nat)
    requires Suits(regex, matcher, mem, subject) && Template(regex, mem, t, base, list, elements)
    requires from <= to <= subject.length && matcher.find(from, to).Some?
    ensures var x := MatchOf(subject, matcher.find(from, to).value);
            Setting(regex, mem, x, t, base, list, elements) && WholeCaptures(mem, x) && Ready(mem, x, list)
  {
    var x := MatchOf(subject, matcher.find(from, to).value);
    assert Proper(matcher, subject.length, from, to);
    assert Fits(mem, x);
    SettingIsCompiled(regex, mem, x, t, base, list, elements);
    PartsAreWellFormed(regex, mem, x, t, base, list, elements);
  }

  lemma NextIsReady(regex: Regex, matcher: Matcher, mem: seq<byte>, subject: Subject, t: seq<byte>, base: nat, list: seq<Reference>,
                    elements: seq<Element>, from: nat, to: nat, ranges: seq<Range>)
    requires Suits(regex, matcher, mem, subject) && Template(regex, mem, t, base, list, elements)
    requires from <= to <= subject.length && matcher.find(from, to) == Some(ranges)
    ensures ranges != [] && from <= ranges[0].location && ranges[0].Max() <= to && Ready(mem, MatchOf(subject, ranges), list)
  {
    SettingOf(regex, matcher, mem, subject, t, base, list, elements, from, to);
    assert Proper(matcher, subject.length, from, to);
  }

  /** Applies the template to one match, with more text in memory by now. */
  method ExpandMatch(m: CaseMap, memory: Memory, x: Match, references: InstructionsBuffer<Reference>, copies: CopyInstructionsBuffer,
                     ghost mem: seq<byte>)
    returns (raised: bool)
    requires references.Valid() && references.zero == ZERO_REFERENCE && mem <= memory.bytes && Ready(mem, x, references.log)
    requires copies.Valid() && InMemory(memory.bytes, copies.Log())
    modifies memory, copies, copies.cells
    ensures copies.Valid() && old(memory.bytes) <= memory.bytes && InMemory(memory.bytes, copies.Log())
    ensures raised <==> Applied(m, mem, x, references.log).Raised?
    ensures !raised ==> Flatten(memory.bytes, copies.Log()) ==
                        old(Flatten(memory.bytes, copies.Log())) + Applied(m, mem, x, references.log).bytes
    ensures |copies.Log()| <= |old(copies.Log())| + 2 * |references.log|
    ensures HasNoCase(references.log) ==> copies.Log() == LogAfter(x, references.log, old(copies.Log()))
  {
    PartsStay(mem, memory.bytes, x, references.log);
    raised := ApplyReferences(m, memory, x, references, copies);
  }

  /** Appends a piece of the subject, with more text in memory by now. */
  method AppendGap(memory: Memory, subject: Subject, from: nat, to: nat, copies: CopyInstructionsBuffer, ghost mem: seq<byte>)
    requires mem <= memory.bytes && from <= to <= subject.length && subject.ptr + subject.length <= |mem|
    requires copies.Valid() && InMemory(memory.bytes, copies.Log())
    modifies copies, copies.cells
    ensures copies.Valid() && InMemory(memory.bytes, copies.Log())
    ensures Flatten(memory.bytes, copies.Log()) == old(Flatten(memory.bytes, copies.Log())) + Gap(mem, subject, from, to)
    ensures copies.Log() == Coalesced(old(copies.Log()), subject.ptr + from, to - from)
  {
    PieceStays(mem, memory.bytes, subject.ptr + from, to - from);
    EmitPiece(memory, copies, subject.ptr, Range(from, to - from));
  }

  // ---------------------------------------------------------------------------------------
  // The copy instructions
  // ---------------------------------------------------------------------------------------

  /** The copy instructions after the piece of the subject from one position to another. */
  function LogAfterGap(subject: Subject, from: nat, to: nat, log: seq<Copy>): seq<Copy> {
    if from <= to then Coalesced(log, subject.ptr + from, to - from) else log
  }

  /** The copy instructions up to the end of the k-th match, for a template without case operations. They depend on
      where things lie, and not on what is there. */
  function ReplacedLog(subject: Subject, list: seq<Reference>, from: nat, matches: seq<seq<Range>>, k: nat, replace: bool): seq<Copy>
    requires k <= |matches|
  {
    if k == 0 then (if replace then LogAfterGap(subject, 0, from, []) else [])
    else
      var log := ReplacedLog(subject, list, from, matches, k - 1, replace);
      LogAfter(MatchOf(subject, matches[k - 1]), list,
               if replace then LogAfterGap(subject, After(from, matches, k - 1), Start(matches[k - 1]), log) else log)
  }

  /** All copy instructions, with that for the rest of the subject. */
  function FinalLog(subject: Subject, list: seq<Reference>, from: nat, matches: seq<seq<Range>>, replace: bool): seq<Copy> {
    var log := ReplacedLog(subject, list, from, matches, |matches|, replace);
    if replace then LogAfterGap(subject, After(from, matches, |matches|), subject.length, log) else log
  }

  /** No template appends more than two copies for each instruction; each match is preceded by a gap. */
  function CopyBound(matches: nat, instructions: nat): nat {
    1 + matches * (1 + 2 * instructions)
  }

  lemma CopyBoundGrows(matches: nat, instructions: nat)
    ensures CopyBound(matches + 1, instructions) == CopyBound(matches, instructions) + 1 + 2 * instructions
  {
  }

  lemma {:induction false} ReplacedLogPrefix(subject: Subject, list: seq<Reference>, from: nat, a: seq<seq<Range>>, b: seq<seq<Range>>,
                                             k: nat, replace: bool)
    requires k <= |a| && k <= |b| && forall i :: 0 <= i < k ==> a[i] == b[i]
    ensures ReplacedLog(subject, list, from, a, k, replace) == ReplacedLog(subject, list, from, b, k, replace)
  {
    if k > 0 {
      ReplacedLogPrefix(subject, list, from, a, b, k - 1, replace);
    }
  }

  /** What the copy instructions are after these matches, and how many at most. */
  ghost predicate Logged(subject: Subject, list: seq<Reference>, copies: seq<Copy>, from: nat, seen: seq<seq<Range>>, replace: bool) {
    && |copies| <= CopyBound(|seen|, |list|)
    && (HasNoCase(list) ==> copies == ReplacedLog(subject, list, from, seen, |seen|, replace))
  }

  lemma LoggedStep(subject: Subject, list: seq<Reference>, copies: seq<Copy>, gapped: seq<Copy>, more: seq<Copy>, from: nat,
                   seen: seq<seq<Range>>, ranges: seq<Range>, replace: bool)
    requires Logged(subject, list, copies, from, seen, replace)
    requires gapped == if replace then LogAfterGap(subject, After(from, seen, |seen|), Start(ranges), copies) else copies
    requires |more| <= |gapped| + 2 * |list| && (HasNoCase(list) ==> more == LogAfter(MatchOf(subject, ranges), list, gapped))
    ensures Logged(subject, list, more, from, seen + [ranges], replace)
  {
    CopyBoundGrows(|seen|, |list|);
    ReplacedLogPrefix(subject, list, from, seen, seen + [ranges], |seen|, replace);
    assert After(from, seen + [ranges], |seen|) == After(from, seen, |seen|);
  }

  // ---------------------------------------------------------------------------------------
  // The loop
  // ---------------------------------------------------------------------------------------

  lemma {:induction false} RenderedPrefix(m: CaseMap, mem: seq<byte>, subject: Subject, list: seq<Reference>, from: nat,
                                          a: seq<seq<Range>>, b: seq<seq<Range>>, k: nat, replace: bool)
    requires list != [] && k <= |a| && k <= |b| && forall i :: 0 <= i < k ==> a[i] == b[i]
    ensures Rendered(m, mem, subject, list, from, a, k, replace) == Rendered(m, mem, subject, list, from, b, k, replace)
  {
    if k > 0 {
      RenderedPrefix(m, mem, subject, list, from, a, b, k - 1, replace);
    }
  }

  lemma RenderedSnoc(m: CaseMap, mem: seq<byte>, subject: Subject, list: seq<Reference>, from: nat,
                     matches: seq<seq<Range>>, ranges: seq<Range>, replace: bool)
    requires list != []
    ensures Rendered(m, mem, subject, list, from, matches + [ranges], |matches| + 1, replace) ==
            Then(Rendered(m, mem, subject, list, from, matches, |matches|, replace),
                 GapBefore(mem, subject, After(from, matches, |matches|), ranges, replace),
                 Applied(m, mem, MatchOf(subject, ranges), list))
  {
    RenderedPrefix(m, mem, subject, list, from, matches, matches + [ranges], |matches|, replace);
    assert After(from, matches + [ranges], |matches|) == After(from, matches, |matches|);
  }

  /** Line 778. */
  method CopyGap(memory: Memory, subject: Subject, searchIndex: nat, ranges: seq<Range>, replace: bool, copies: CopyInstructionsBuffer,
                 ghost mem: seq<byte>)
    requires mem <= memory.bytes && subject.ptr + subject.length <= |mem|
    requires ranges != [] && searchIndex <= ranges[0].location && ranges[0].Max() <= subject.length
    requires copies.Valid() && InMemory(memory.bytes, copies.Log())
    modifies copies, copies.cells
    ensures copies.Valid() && InMemory(memory.bytes, copies.Log())
    ensures Flatten(memory.bytes, copies.Log()) == old(Flatten(memory.bytes, copies.Log())) + GapBefore(mem, subject, searchIndex, ranges, replace)
    ensures copies.Log() == if replace then LogAfterGap(subject, searchIndex, Start(ranges), old(copies.Log())) else old(copies.Log())
  {
    if replace {
      AppendGap(memory, subject, searchIndex, ranges[0].location, copies, mem);
    } else {
      NothingAdded(Flatten(memory.bytes, copies.Log()), []);
    }
  }

  /** One iteration (lines 778-781): the gap, then the expansion. */
  method ReplaceOne(m: CaseMap, memory: Memory, subject: Subject, references: InstructionsBuffer<Reference>, copies: CopyInstructionsBuffer,
                    searchIndex: nat, ranges: seq<Range>, replace: bool, ghost mem: seq<byte>)
    returns (raised: bool, next: nat, ghost gapped: seq<Copy>)
    requires references.Valid() && references.zero == ZERO_REFERENCE && mem <= memory.bytes
    requires subject.ptr + subject.length <= |mem| && ranges != [] && searchIndex <= ranges[0].location && ranges[0].Max() <= subject.length
    requires Ready(mem, MatchOf(subject, ranges), references.log)
    requires copies.Valid() && InMemory(memory.bytes, copies.Log())
    modifies memory, copies, copies.cells
    ensures copies.Valid() && old(memory.bytes) <= memory.bytes && InMemory(memory.bytes, copies.Log()) && next == End(ranges)
    ensures raised <==> Applied(m, mem, MatchOf(subject, ranges), references.log).Raised?
    ensures !raised ==> Flatten(memory.bytes, copies.Log()) ==
                        old(Flatten(memory.bytes, copies.Log())) + GapBefore(mem, subject, searchIndex, ranges, replace)
                        + Applied(m, mem, MatchOf(subject, ranges), references.log).bytes
    ensures gapped == if replace then LogAfterGap(subject, searchIndex, Start(ranges), old(copies.Log())) else old(copies.Log())
    ensures |copies.Log()| <= |gapped| + 2 * |references.log|
    ensures HasNoCase(references.log) ==> copies.Log() == LogAfter(MatchOf(subject, ranges), references.log, gapped)
  {
    CopyGap(memory, subject, searchIndex, ranges, replace, copies, mem);
    gapped := copies.Log();
    next := ranges[0].location + ranges[0].length;
    raised := ExpandMatch(m, memory, MatchOf(subject, ranges), references, copies, mem);
  }

  /** What the loop keeps: after the matches so far the copy instructions stand for what they render. */
  ghost predicate Looping(m: CaseMap, mem: seq<byte>, bytes: seq<byte>, subject: Subject, matcher: Matcher, list: seq<Reference>,
                          copies: seq<Copy>, from: nat, to: nat, seen: seq<seq<Range>>, at: nat, replace: bool)
    requires list != []
  {
    && mem <= bytes && InMemory(bytes, copies)
    && seen == Taken(matcher, from, to, |seen|) && at == After(from, seen, |seen|) && from <= at <= to
    && Rendered(m, mem, subject, list, from, seen, |seen|, replace) == Emitted(Flatten(bytes, copies))
  }

  /** How many matches the loop takes at most. */
  ghost function Limit(count: Option<nat>, bound: nat): nat {
    if count.Some? then count.value else bound
  }

  /** The matches are taken in turn, each found from the end of the one before; no more than count of them, and fewer only
      if the search is at the end of the range or finds none. */
  ghost predicate TakesInTurn(matcher: Matcher, from: nat, to: nat, count: Option<nat>, matches: seq<seq<Range>>) {
    && Successive(matcher, from, to, matches)
    && (count.Some? ==> |matches| <= count.value)
    && (count == None || |matches| < count.value ==>
          After(from, matches, |matches|) >= to || !Finds(matcher, After(from, matches, |matches|), to))
  }

  lemma LimitTakesInTurn(matcher: Matcher, from: nat, to: nat, count: Option<nat>, bound: nat)
    requires count == None ==> |Taken(matcher, from, to, bound)| < bound
    ensures TakesInTurn(matcher, from, to, count, Taken(matcher, from, to, Limit(count, bound)))
  {
    TakenAreSuccessive(matcher, from, to, Limit(count, bound));
  }

  /** One more match keeps what the loop keeps. */
  lemma LoopingStep(m: CaseMap, mem: seq<byte>, bytes: seq<byte>, longer: seq<byte>, subject: Subject, matcher: Matcher, list: seq<Reference>,
                    copies: seq<Copy>, more: seq<Copy>, from: nat, to: nat, seen: seq<seq<Range>>, at: nat, replace: bool, ranges: seq<Range>)
    requires list != [] && Looping(m, mem, bytes, subject, matcher, list, copies, from, to, seen, at, replace)
    requires at < to && matcher.find(at, to) == Some(ranges) && ranges != [] && at <= ranges[0].location && ranges[0].Max() <= to
    requires mem <= longer && InMemory(longer, more) && Applied(m, mem, MatchOf(subject, ranges), list).Emitted?
    requires Flatten(longer, more) == Flatten(bytes, copies) + GapBefore(mem, subject, at, ranges, replace)
                                      + Applied(m, mem, MatchOf(subject, ranges), list).bytes
    ensures Looping(m, mem, longer, subject, matcher, list, more, from, to, seen + [ranges], End(ranges), replace)
  {
    OneMoreTaken(matcher, from, to, seen, at, ranges);
    RenderedSnoc(m, mem, subject, list, from, seen, ranges, replace);
  }

  lemma OneMoreTaken(matcher: Matcher, from: nat, to: nat, seen: seq<seq<Range>>, at: nat, ranges: seq<Range>)
    requires seen == Taken(matcher, from, to, |seen|) && at == After(from, seen, |seen|)
    requires at < to && matcher.find(at, to) == Some(ranges) && ranges != []
    ensures seen + [ranges] == Taken(matcher, from, to, |seen| + 1) && After(from, seen + [ranges], |seen| + 1) == End(ranges)
  {
    TakenSnoc(matcher, from, to, |seen|);
    assert Taken(matcher, at, to, 1) == [ranges];
  }

  /** No match, or no more to be taken: the loop has all of its matches. */
  lemma LoopEnds(matcher: Matcher, from: nat, to: nat, seen: seq<seq<Range>>, at: nat, n: nat)
    requires seen == Taken(matcher, from, to, |seen|) && at == After(from, seen, |seen|) && |seen| <= n
    requires |seen| == n || at >= to || matcher.find(at, to) == None
    ensures Taken(matcher, from, to, n) == seen
  {
    if |seen| < n {
      TakenSnoc(matcher, from, to, |seen|);
      assert Taken(matcher, at, to, 1) == [];
      assert seen + [] == seen;
      TakenIsFinal(matcher, from, to, |seen| + 1, n);
    }
  }

  /** The loop takes no more matches than the bound. */
  lemma LoopIsBounded(matcher: Matcher, from: nat, to: nat, seen: seq<seq<Range>>, bound: nat)
    requires seen == Taken(matcher, from, to, |seen|) && |Taken(matcher, from, to, bound)| < bound
    ensures |seen| < bound
  {
    if |seen| >= bound {
      TakenIsFinal(matcher, from, to, bound, |seen|);
    }
  }

  /** The instructions raise an exception for the match after k matches. */
  ghost predicate RaisesAt(m: CaseMap, mem: seq<byte>, subject: Subject, matcher: Matcher, list: seq<Reference>, from: nat, to: nat, k: nat)
    requires list != []
  {
    var seen := Taken(matcher, from, to, k + 1);
    |seen| == k + 1 && Applied(m, mem, MatchOf(subject, seen[k]), list).Raised?
  }

  lemma RaisesNow(m: CaseMap, mem: seq<byte>, subject: Subject, matcher: Matcher, list: seq<Reference>, from: nat, to: nat,
                  seen: seq<seq<Range>>, at: nat, ranges: seq<Range>)
    requires list != [] && seen == Taken(matcher, from, to, |seen|) && at == After(from, seen, |seen|)
    requires at < to && matcher.find(at, to) == Some(ranges) && ranges != []
    requires Applied(m, mem, MatchOf(subject, ranges), list).Raised?
    ensures RaisesAt(m, mem, subject, matcher, list, from, to, |seen|)
  {
    OneMoreTaken(matcher, from, to, seen, at, ranges);
  }

  /** One iteration with its match, after those seen so far. */
  method ReplaceNext(m: CaseMap, memory: Memory, subject: Subject, matcher: Matcher, searchRange: Range,
                     references: InstructionsBuffer<Reference>, copies: CopyInstructionsBuffer, searchIndex: nat, ranges: seq<Range>,
                     replace: bool, ghost mem: seq<byte>, ghost seen: seq<seq<Range>>)
    returns (raised: bool, next: nat)
    requires references.Valid() && references.zero == ZERO_REFERENCE && Ready(mem, MatchOf(subject, ranges), references.log)
    requires searchIndex < searchRange.Max() <= subject.length && subject.ptr + subject.length <= |mem|
    requires matcher.find(searchIndex, searchRange.Max()) == Some(ranges)
    requires ranges != [] && searchIndex <= ranges[0].location && ranges[0].Max() <= searchRange.Max()
    requires copies.Valid()
    requires Looping(m, mem, memory.bytes, subject, matcher, references.log, copies.Log(), searchRange.location, searchRange.Max(), seen,
                     searchIndex, replace)
    requires Logged(subject, references.log, copies.Log(), searchRange.location, seen, replace)
    modifies memory, copies, copies.cells
    ensures copies.Valid()
    ensures raised ==> RaisesAt(m, mem, subject, matcher, references.log, searchRange.location, searchRange.Max(), |seen|)
    ensures !raised ==> Logged(subject, references.log, copies.Log(), searchRange.location, seen + [ranges], replace)
    ensures !raised ==> Looping(m, mem, memory.bytes, subject, matcher, references.log, copies.Log(), searchRange.location, searchRange.Max(),
                                seen + [ranges], next, replace)
  {
    ghost var from, to, list, bytes, log := searchRange.location, searchRange.Max(), references.log, memory.bytes, copies.Log();
    ghost var gapped;
    raised, next, gapped := ReplaceOne(m, memory, subject, references, copies, searchIndex, ranges, replace, mem);
    if raised {
      RaisesNow(m, mem, subject, matcher, list, from, to, seen, searchIndex, ranges);
    } else {
      LoggedStep(subject, list, log, gapped, copies.Log(), from, seen, ranges, replace);
      LoopingStep(m, mem, bytes, memory.bytes, subject, matcher, list, log, copies.Log(), from, to, seen, searchIndex, replace, ranges);
    }
  }

  /** The loop goes on from here, with the matches of the whole within the bound. */
  ghost predicate GoesOn(regex: Regex, matcher: Matcher, mem: seq<byte>, subject: Subject, t: seq<byte>, base: nat, list: seq<Reference>,
                         elements: seq<Element>, searchRange: Range, count: Option<nat>, bound: nat) {
    && Suits(regex, matcher, mem, subject) && Template(regex, mem, t, base, list, elements) && searchRange.Max() <= subject.length
    && (count == None ==> |Taken(matcher, searchRange.location, searchRange.Max(), bound)| < bound)
  }

  /** What the next search finds is a match that can be replaced, and one more than before within the bound. */
  lemma NextMatch(regex: Regex, matcher: Matcher, mem: seq<byte>, subject: Subject, t: seq<byte>, base: nat, list: seq<Reference>,
                  elements: seq<Element>, searchRange: Range, count: Option<nat>, bound: nat, seen: seq<seq<Range>>, at: nat, ranges: seq<Range>)
    requires GoesOn(regex, matcher, mem, subject, t, base, list, elements, searchRange, count, bound)
    requires seen == Taken(matcher, searchRange.location, searchRange.Max(), |seen|) && searchRange.location <= at <= searchRange.Max()
    requires matcher.find(at, searchRange.Max()) == Some(ranges)
    ensures ranges != [] && at <= ranges[0].location && ranges[0].Max() <= searchRange.Max() && Ready(mem, MatchOf(subject, ranges), list)
    ensures count == None ==> |seen| < bound
  {
    NextIsReady(regex, matcher, mem, subject, t, base, list, elements, at, searchRange.Max(), ranges);
    if count == None {
      LoopIsBounded(matcher, searchRange.location, searchRange.Max(), seen, bound);
    }
  }

  /** The loop of lines 772-782. It ends when count matches were taken, or none is left; without a count the
      ghost bound says that it is not one that goes on for ever. */
  method ReplaceAll(regex: Regex, m: CaseMap, memory: Memory, subject: Subject, matcher: Matcher, searchRange: Range,
                    references: InstructionsBuffer<Reference>, copies: CopyInstructionsBuffer, count: Option<nat>, replace: bool,
                    ghost mem: seq<byte>, ghost t: seq<byte>, ghost base: nat, ghost elements: seq<Element>, ghost bound: nat)
    returns (raised: bool, searchIndex: nat, matchedCount: nat, ghost matches: seq<seq<Range>>)
    requires references.Valid() && references.zero == ZERO_REFERENCE && references.log != [] && copies.Valid()
    requires GoesOn(regex, matcher, mem, subject, t, base, references.log, elements, searchRange, count, bound)
    requires subject.ptr + subject.length <= |mem| && searchRange.Max() <= subject.length
    requires Looping(m, mem, memory.bytes, subject, matcher, references.log, copies.Log(), searchRange.location, searchRange.Max(), [],
                     searchRange.location, replace)
    requires Logged(subject, references.log, copies.Log(), searchRange.location, [], replace)
    modifies memory, copies, copies.cells
    ensures copies.Valid()
    ensures !raised ==> Logged(subject, references.log, copies.Log(), searchRange.location, matches, replace)
    ensures !raised ==>
              && matches == Taken(matcher, searchRange.location, searchRange.Max(), Limit(count, bound))
              && matchedCount == |matches|
              && Looping(m, mem, memory.bytes, subject, matcher, references.log, copies.Log(), searchRange.location, searchRange.Max(),
                         matches, searchIndex, replace)
    ensures raised ==> |matches| < Limit(count, bound)
                       && RaisesAt(m, mem, subject, matcher, references.log, searchRange.location, searchRange.Max(), |matches|)
  {
    ghost var from, to, n := searchRange.location, searchRange.Max(), Limit(count, bound);
    searchIndex, matchedCount, matches, raised := searchRange.location, 0, [], false;
    while searchIndex < searchRange.Max() && (count == None || matchedCount < count.value)
      invariant copies.Valid() && matchedCount == |matches| <= n
      invariant Looping(m, mem, memory.bytes, subject, matcher, references.log, copies.Log(), from, to, matches, searchIndex, replace)
      invariant Logged(subject, references.log, copies.Log(), from, matches, replace)
      decreases n - matchedCount
    {
      var matched := matcher.find(searchIndex, searchRange.Max());
      if matched == None {
        break;
      }
      var ranges := matched.value;
      NextMatch(regex, matcher, mem, subject, t, base, references.log, elements, searchRange, count, bound, matches, searchIndex, ranges);
      raised, searchIndex := ReplaceNext(m, memory, subject, matcher, searchRange, references, copies, searchIndex, ranges, replace, mem, matches);
      if raised {
        return;
      }
      matches := matches + [ranges];
      matchedCount := matchedCount + 1;
    }
    LoopEnds(matcher, from, to, matches, searchIndex, n);
  }

  /** Lines 786-790: the text of the matches is followed by the rest of the subject. */
  ghost function WithRest(mem: seq<byte>, subject: Subject, text: seq<byte>, at: nat, replace: bool): seq<byte> {
    if replace then text + Gap(mem, subject, at, subject.length) else text
  }

  /** Line 770: what the copy instructions hold before the loop. */
  method AppendPrefix(m: CaseMap, memory: Memory, subject: Subject, matcher: Matcher, searchRange: Range, ghost list: seq<Reference>,
                      copies: CopyInstructionsBuffer, replace: bool)
    requires list != [] && searchRange.Max() <= subject.length && subject.ptr + subject.length <= |memory.bytes|
    requires copies.Valid() && copies.Log() == []
    modifies copies, copies.cells
    ensures copies.Valid()
    ensures Looping(m, memory.bytes, memory.bytes, subject, matcher, list, copies.Log(), searchRange.location, searchRange.Max(), [],
                    searchRange.location, replace)
    ensures Logged(subject, list, copies.Log(), searchRange.location, [], replace)
  {
    assert Flatten(memory.bytes, copies.Log()) == [];
    if replace && searchRange.location != 0 {
      AppendGap(memory, subject, 0, searchRange.location, copies, memory.bytes);
    }
    assert Flatten(memory.bytes, copies.Log()) == if replace then Gap(memory.bytes, subject, 0, searchRange.location) else [];
  }

  /** Line 789. */
  method CopyRest(memory: Memory, subject: Subject, searchIndex: nat, copyBuffer: CopyInstructionsBuffer, replace: bool, ghost mem: seq<byte>)
    requires mem <= memory.bytes && searchIndex <= subject.length && subject.ptr + subject.length <= |mem|
    requires copyBuffer.Valid() && InMemory(memory.bytes, copyBuffer.Log())
    modifies copyBuffer, copyBuffer.cells
    ensures copyBuffer.Valid() && InMemory(memory.bytes, copyBuffer.Log())
    ensures Flatten(memory.bytes, copyBuffer.Log()) ==
            WithRest(mem, subject, old(Flatten(memory.bytes, copyBuffer.Log())), searchIndex, replace)
    ensures copyBuffer.Log() ==
            if replace then LogAfterGap(subject, searchIndex, subject.length, old(copyBuffer.Log())) else old(copyBuffer.Log())
  {
    if replace {
      AppendGap(memory, subject, searchIndex, subject.length, copyBuffer, mem);
    }
  }

  /** Lines 786-792: the rest of the subject, and the evaluation. */
  method Conclude(memory: Memory, subject: Subject, searchIndex: nat, copyBuffer: CopyInstructionsBuffer, replace: bool, ghost mem: seq<byte>)
    returns (r: Result, ghost copies: seq<Copy>)
    requires mem <= memory.bytes && searchIndex <= subject.length && subject.ptr + subject.length <= |mem|
    requires copyBuffer.Valid() && InMemory(memory.bytes, copyBuffer.Log())
    modifies copyBuffer, copyBuffer.cells
    ensures r.Buffer? || r.Unchanged?
    ensures r.Buffer? ==>
              Evaluated(memory.bytes, copies, WithRest(mem, subject, old(Flatten(memory.bytes, copyBuffer.Log())), searchIndex, replace), r.buffer)
    ensures r.Unchanged? ==> replace && old(copyBuffer.Log()) == [] && searchIndex == 0 == subject.length
    ensures r.Buffer? ==>
              copies == if replace then LogAfterGap(subject, searchIndex, subject.length, old(copyBuffer.Log())) else old(copyBuffer.Log())
  {
    if replace && copyBuffer.cells.length == 0 && searchIndex == 0 && subject.length - searchIndex == 0 {
      return Unchanged, [];
    }
    CopyRest(memory, subject, searchIndex, copyBuffer, replace, mem);
    copies := copyBuffer.Log();
    var buffer := StringFromCopyInstructions(memory.bytes, copyBuffer);
    r := Buffer(buffer);
  }

  /** The result is the rendering of these matches, with the rest of the subject behind it. */
  ghost predicate Delivers(m: CaseMap, mem: seq<byte>, bytes: seq<byte>, subject: Subject, list: seq<Reference>, from: nat,
                           matches: seq<seq<Range>>, replace: bool, copies: seq<Copy>, r: Result)
    requires list != []
  {
    var rendered := Rendered(m, mem, subject, list, from, matches, |matches|, replace);
    && rendered.Emitted?
    && var text := WithRest(mem, subject, rendered.bytes, After(from, matches, |matches|), replace);
       if r.Buffer? then Evaluated(bytes, copies, text, r.buffer)
       else r.Unchanged? && text == [] && replace && subject.length == 0
  }

  /** What the loop leaves, concluded. */
  lemma ConcludedDelivers(m: CaseMap, mem: seq<byte>, before: seq<byte>, bytes: seq<byte>, subject: Subject, matcher: Matcher, list: seq<Reference>,
                          log: seq<Copy>, copies: seq<Copy>, from: nat, to: nat, matches: seq<seq<Range>>, at: nat, replace: bool, r: Result)
    requires list != [] && Looping(m, mem, before, subject, matcher, list, log, from, to, matches, at, replace) && to <= subject.length
    requires r.Buffer? || r.Unchanged?
    requires r.Buffer? ==> Evaluated(bytes, copies, WithRest(mem, subject, Flatten(before, log), at, replace), r.buffer)
    requires r.Unchanged? ==> replace && log == [] && at == 0 == subject.length
    ensures Delivers(m, mem, bytes, subject, list, from, matches, replace, copies, r)
  {
    if r.Unchanged? {
      NothingAdded([], Gap(mem, subject, 0, 0));
    }
  }

  /** The copy instructions that are evaluated, and how many at most. */
  ghost predicate LoggedAll(subject: Subject, list: seq<Reference>, copies: seq<Copy>, from: nat, matches: seq<seq<Range>>, replace: bool) {
    && |copies| <= CopyBound(|matches|, |list|) + 1
    && (HasNoCase(list) ==> copies == FinalLog(subject, list, from, matches, replace))
  }

  lemma ConcludedLogged(subject: Subject, list: seq<Reference>, log: seq<Copy>, copies: seq<Copy>, from: nat, matches: seq<seq<Range>>,
                        at: nat, replace: bool)
    requires Logged(subject, list, log, from, matches, replace) && at == After(from, matches, |matches|)
    requires copies == if replace then LogAfterGap(subject, at, subject.length, log) else log
    ensures LoggedAll(subject, list, copies, from, matches, replace)
  {
  }

  /** The replacement with a compiled template (lines 768-792). */
  method Replace(regex: Regex, m: CaseMap, memory: Memory, subject: Subject, matcher: Matcher, searchRange: Range,
                 references: InstructionsBuffer<Reference>, copyBuffer: CopyInstructionsBuffer, count: Option<nat>, replace: bool,
                 ghost t: seq<byte>, ghost base: nat, ghost elements: seq<Element>, ghost bound: nat)
    returns (r: Result, matchedCount: nat, ghost copies: seq<Copy>, ghost matches: seq<seq<Range>>)
    requires references.Valid() && references.zero == ZERO_REFERENCE
    requires Suits(regex, matcher, memory.bytes, subject) && Template(regex, memory.bytes, t, base, references.log, elements)
    requires searchRange.Max() <= subject.length && copyBuffer.Valid() && copyBuffer.Log() == []
    requires count == None ==> |Taken(matcher, searchRange.location, searchRange.Max(), bound)| < bound
    modifies memory, copyBuffer, copyBuffer.cells
    ensures !r.Rejected?
    ensures r.Exception? ==>
              && |matches| < Limit(count, bound)
              && RaisesAt(m, old(memory.bytes), subject, matcher, references.log, searchRange.location, searchRange.Max(), |matches|)
    ensures !r.Exception? ==>
              && matches == Taken(matcher, searchRange.location, searchRange.Max(), Limit(count, bound))
              && matchedCount == |matches|
              && Delivers(m, old(memory.bytes), memory.bytes, subject, references.log, searchRange.location, matches, replace, copies, r)
    ensures r.Buffer? ==> LoggedAll(subject, references.log, copies, searchRange.location, matches, replace) && old(memory.bytes) <= memory.bytes
  {
    ghost var mem, from, to := memory.bytes, searchRange.location, searchRange.Max();
    AppendPrefix(m, memory, subject, matcher, searchRange, references.log, copyBuffer, replace);
    var raised, searchIndex;
    raised, searchIndex, matchedCount, matches := ReplaceAll(regex, m, memory, subject, matcher, searchRange, references, copyBuffer,
                                                             count, replace, mem, t, base, elements, bound);
    if raised {
      return Exception, matchedCount, [], matches;
    }
    ghost var before, log := memory.bytes, copyBuffer.Log();
    r, copies := Conclude(memory, subject, searchIndex, copyBuffer, replace, mem);
    ConcludedDelivers(m, mem, before, memory.bytes, subject, matcher, references.log, log, copies, from, to, matches, searchIndex, replace, r);
    if r.Buffer? {
      ConcludedLogged(subject, references.log, log, copies, from, matches, searchIndex, replace);
    }
  }

  /** RKStringByMatchingAndExpandingX for a search range in bytes. The ghost results are the copy instructions and the
      matches. Without a count, the ghost bound says that the loop is not one that goes on for ever. */
  method StringByMatchingAndExpanding(regex: Regex, m: CaseMap, memory: Memory, subject: Subject, matcher: Matcher, searchRange: Range,
                                      t: seq<byte>, base: nat, count: Option<nat>, replace: bool,
                                      stackReferences: seq<Reference>, stackCopies: seq<Copy>, ghost bound: nat)
    returns (r: Result, matchedCount: nat, ghost copies: seq<Copy>, ghost matches: seq<seq<Range>>)
    requires |stackReferences| == STACK_INSTRUCTIONS == |stackCopies|
    requires WholeCharacters(t) && base + |t| <= |memory.bytes| && memory.bytes[base..base + |t|] == t
    requires Suits(regex, matcher, memory.bytes, subject) && searchRange.Max() <= subject.length
    requires count == None ==> |Taken(matcher, searchRange.location, searchRange.Max(), bound)| < bound
    modifies memory
    ensures r.Rejected? <==> Parse(regex, t, 0).Failed?
    ensures r.Rejected? ==> r.error == Parse(regex, t, 0).error
    ensures var list := InstructionsOf(regex, t, base);
            !r.Rejected? ==>
              && Template(regex, old(memory.bytes), t, base, list, Parse(regex, t, 0).list)
              && if r.Exception? then
                   && |matches| < Limit(count, bound)
                   && RaisesAt(m, old(memory.bytes), subject, matcher, list, searchRange.location, searchRange.Max(), |matches|)
                 else
                   && matches == Taken(matcher, searchRange.location, searchRange.Max(), Limit(count, bound))
                   && matchedCount == |matches| && TakesInTurn(matcher, searchRange.location, searchRange.Max(), count, matches)
                   && Delivers(m, old(memory.bytes), memory.bytes, subject, list, searchRange.location, matches, replace, copies, r)
                   && (r.Buffer? ==> LoggedAll(subject, list, copies, searchRange.location, matches, replace)
                                     && old(memory.bytes) <= memory.bytes)
  {
    matchedCount, copies, matches := 0, [], [];
    var referenceBuffer := new InstructionsBuffer(ZERO_REFERENCE, stackReferences);
    var copyBuffer := new CopyInstructionsBuffer(stackCopies);
    var error := Compile(regex, t, base, referenceBuffer);
    if error.Some? {
      r := Rejected(error.value);
      return;
    }
    r, matchedCount, copies, matches := Replace(regex, m, memory, subject, matcher, searchRange, referenceBuffer, copyBuffer,
                                                count, replace, t, base, Parse(regex, t, 0).list, bound);
    LimitTakesInTurn(matcher, searchRange.location, searchRange.Max(), count, bound);
  }
}
