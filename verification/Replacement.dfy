/**
 What a replacement means: for clean templates the gaps of the subject with the expansions of the template
 between them, exactly when the string that is returned is that, and the subject itself when every match is
 replaced by $0.
 */
module Replacement {
  import opened Base
  import opened Instructions
  import opened CaseExpansion
  import opened ReferenceCompiler
  import opened Applier
  import opened Expander
  import opened Matching
  import opened Replacer
  import Unicode

  /** Every match that was taken is one that the matcher finds. */
  lemma {:induction false} TakenAreFound(matcher: Matcher, length: nat, from: nat, to: nat, n: nat, k: nat) returns (at: nat)
    requires Sound(matcher, length) && from <= to <= length && k < |Taken(matcher, from, to, n)|
    ensures from <= at < to && matcher.find(at, to) == Some(Taken(matcher, from, to, n)[k])
    decreases n
  {
    ProperAt(matcher, length, from, to);
    if k == 0 {
      at := from;
    } else {
      at := TakenAreFound(matcher, length, matcher.find(from, to).value[0].Max(), to, n - 1, k - 1);
    }
  }

  /** Asking for more matches leaves those taken as they are. */
  lemma {:induction false} TakenStay(matcher: Matcher, from: nat, to: nat, a: nat, b: nat, k: nat)
    requires a <= b && k < |Taken(matcher, from, to, a)|
    ensures k < |Taken(matcher, from, to, b)| && Taken(matcher, from, to, b)[k] == Taken(matcher, from, to, a)[k]
    decreases a
  {
    if k > 0 {
      TakenStay(matcher, matcher.find(from, to).value[0].Max(), to, a - 1, b - 1, k - 1);
    }
  }

  // ---------------------------------------------------------------------------------------
  // Clean templates
  // ---------------------------------------------------------------------------------------

  /** The template is clean for each of these matches. */
  ghost predicate AllClean(mem: seq<byte>, subject: Subject, elements: seq<Element>, matches: seq<seq<Range>>) {
    forall k :: 0 <= k < |matches| ==> Clean(mem, MatchOf(subject, matches[k]), elements)
  }

  /** What a replacement is meant to give: the prefix, the gaps between the matches and the rest of the subject, with
      the expansion of each match between them; without replacing, the expansions alone. */
  ghost function DirectText(m: CaseMap, mem: seq<byte>, subject: Subject, elements: seq<Element>, from: nat,
                            matches: seq<seq<Range>>, replace: bool): seq<byte> {
    WithRest(mem, subject, Replaced(m, mem, subject, elements, from, matches, |matches|, replace), After(from, matches, |matches|), replace)
  }

  /** The instructions give the expansion of the elements for this match. */
  ghost predicate GivesExpansion(m: CaseMap, mem: seq<byte>, subject: Subject, list: seq<Reference>, elements: seq<Element>, ranges: seq<Range>)
    requires list != []
  {
    Applied(m, mem, MatchOf(subject, ranges), list) == Emitted(Intended(m, mem, MatchOf(subject, ranges), elements))
  }

  lemma CleanMatchApplies(regex: Regex, m: CaseMap, matcher: Matcher, mem: seq<byte>, subject: Subject, t: seq<byte>, base: nat, list: seq<Reference>,
                          elements: seq<Element>, from: nat, to: nat, n: nat, k: nat)
    requires Suits(regex, matcher, mem, subject) && Template(regex, mem, t, base, list, elements) && |list| <= STACK_INSTRUCTIONS
    requires from <= to <= subject.length && k < |Taken(matcher, from, to, n)|
    requires Clean(mem, MatchOf(subject, Taken(matcher, from, to, n)[k]), elements)
    ensures GivesExpansion(m, mem, subject, list, elements, Taken(matcher, from, to, n)[k])
  {
    var at := TakenAreFound(matcher, subject.length, from, to, n, k);
    SettingOf(regex, matcher, mem, subject, t, base, list, elements, at, to);
    CleanTemplatesApply(regex, m, mem, MatchOf(subject, Taken(matcher, from, to, n)[k]), t, base, list, elements);
  }

  lemma ThenEmits(before: seq<byte>, gap: seq<byte>, expansion: seq<byte>)
    ensures Then(Emitted(before), gap, Emitted(expansion)) == Emitted(before + gap + expansion)
  {
  }

  lemma {:induction false} RenderedIsDirect(m: CaseMap, mem: seq<byte>, subject: Subject, list: seq<Reference>, elements: seq<Element>, from: nat,
                                            matches: seq<seq<Range>>, k: nat, replace: bool)
    requires list != [] && k <= |matches| && forall i :: 0 <= i < k ==> GivesExpansion(m, mem, subject, list, elements, matches[i])
    ensures Rendered(m, mem, subject, list, from, matches, k, replace) == Emitted(Replaced(m, mem, subject, elements, from, matches, k, replace))
  {
    if k > 0 {
      RenderedIsDirect(m, mem, subject, list, elements, from, matches, k - 1, replace);
      assert GivesExpansion(m, mem, subject, list, elements, matches[k - 1]);
      ThenEmits(Replaced(m, mem, subject, elements, from, matches, k - 1, replace),
                GapBefore(mem, subject, After(from, matches, k - 1), matches[k - 1], replace),
                Intended(m, mem, MatchOf(subject, matches[k - 1]), elements));
    }
  }

  /** A clean template of at most 64 instructions renders as the direct form, and raises for no match. */
  lemma CleanReplacementIsDirect(regex: Regex, m: CaseMap, matcher: Matcher, mem: seq<byte>, subject: Subject, t: seq<byte>,
                                 base: nat, list: seq<Reference>, elements: seq<Element>, from: nat, to: nat, n: nat, replace: bool)
    requires Suits(regex, matcher, mem, subject) && Template(regex, mem, t, base, list, elements) && |list| <= STACK_INSTRUCTIONS
    requires from <= to <= subject.length && AllClean(mem, subject, elements, Taken(matcher, from, to, n))
    ensures var matches := Taken(matcher, from, to, n);
            Rendered(m, mem, subject, list, from, matches, |matches|, replace)
            == Emitted(Replaced(m, mem, subject, elements, from, matches, |matches|, replace))
    ensures forall k: nat :: k < n ==> !RaisesAt(m, mem, subject, matcher, list, from, to, k)
  {
    var matches := Taken(matcher, from, to, n);
    forall i | 0 <= i < |matches|
      ensures GivesExpansion(m, mem, subject, list, elements, matches[i])
    {
      CleanMatchApplies(regex, m, matcher, mem, subject, t, base, list, elements, from, to, n, i);
    }
    RenderedIsDirect(m, mem, subject, list, elements, from, matches, |matches|, replace);
    forall k: nat | k < n
      ensures !RaisesAt(m, mem, subject, matcher, list, from, to, k)
    {
      if |Taken(matcher, from, to, k + 1)| == k + 1 {
        TakenStay(matcher, from, to, k + 1, n, k);
        assert GivesExpansion(m, mem, subject, list, elements, matches[k]);
      }
    }
  }

  lemma EmptySubject(m: CaseMap, matcher: Matcher, mem: seq<byte>, subject: Subject, list: seq<Reference>, elements: seq<Element>, n: nat)
    requires subject.length == 0
    ensures Taken(matcher, 0, 0, n) == []
    ensures DirectText(m, mem, subject, elements, 0, [], true) == [] && FinalLog(subject, list, 0, [], true) == []
  {
  }

  /** The string that is returned is the direct form, if no buffer can overflow: the template is clean for the matches
      that are taken and has at most 64 instructions, and there are few enough of both. */
  method ReplaceClean(regex: Regex, m: CaseMap, memory: Memory, subject: Subject, matcher: Matcher, searchRange: Range,
                      t: seq<byte>, base: nat, count: Option<nat>, replace: bool,
                      stackReferences: seq<Reference>, stackCopies: seq<Copy>, ghost bound: nat)
    returns (r: Result, matchedCount: nat)
    requires |stackReferences| == STACK_INSTRUCTIONS == |stackCopies|
    requires WholeCharacters(t) && base + |t| <= |memory.bytes| && memory.bytes[base..base + |t|] == t
    requires Suits(regex, matcher, memory.bytes, subject) && searchRange.Max() <= subject.length && Parse(regex, t, 0).Elements?
    requires count == None ==> |Taken(matcher, searchRange.location, searchRange.Max(), bound)| < bound
    requires var matches := Taken(matcher, searchRange.location, searchRange.Max(), Limit(count, bound));
             && AllClean(memory.bytes, subject, Parse(regex, t, 0).list, matches)
             && |InstructionsOf(regex, t, base)| <= STACK_INSTRUCTIONS
             && 2 + |matches| * (1 + 2 * |InstructionsOf(regex, t, base)|) <= STACK_INSTRUCTIONS
    modifies memory
    ensures var matches := Taken(matcher, searchRange.location, searchRange.Max(), Limit(count, bound));
            var direct := DirectText(m, old(memory.bytes), subject, Parse(regex, t, 0).list, searchRange.location, matches, replace);
            && matchedCount == |matches|
            && if r.Unchanged? then subject.length == 0 && direct == [] else r == Buffer(direct + [0])
  {
    ghost var mem, elements, list := memory.bytes, Parse(regex, t, 0).list, InstructionsOf(regex, t, base);
    ghost var from, to, n := searchRange.location, searchRange.Max(), Limit(count, bound);
    ghost var copies, matches;
    r, matchedCount, copies, matches := StringByMatchingAndExpanding(regex, m, memory, subject, matcher, searchRange, t, base, count, replace,
                                                                     stackReferences, stackCopies, bound);
    CleanReplacementIsDirect(regex, m, matcher, mem, subject, t, base, list, elements, from, to, n, replace);
  }

  // ---------------------------------------------------------------------------------------
  // Templates without case operations: exactly when the string is the direct form
  // ---------------------------------------------------------------------------------------

  /** The string that is returned: the search string, or one made of the buffer. */
  ghost function StringReturned(mem: seq<byte>, subject: Subject, r: Result): seq<byte>
    requires r.Unchanged? || r.Buffer?
  {
    if r.Unchanged? then Piece(mem, subject.ptr, subject.length) else StringOf(r.buffer)
  }

  /** The template expands to nothing for each of these matches. */
  ghost predicate ExpandsToNothing(m: CaseMap, mem: seq<byte>, subject: Subject, elements: seq<Element>, matches: seq<seq<Range>>, k: nat)
    requires k <= |matches|
  {
    forall i :: 0 <= i < k ==> Intended(m, mem, MatchOf(subject, matches[i]), elements) == []
  }

  /** With a template of more than 64 instructions the expansions are missing. */
  lemma {:induction false} TooLongLosesExpansions(m: CaseMap, mem: seq<byte>, subject: Subject, list: seq<Reference>, elements: seq<Element>,
                                                  from: nat, matches: seq<seq<Range>>, k: nat, replace: bool)
    requires |list| > STACK_INSTRUCTIONS && k <= |matches|
    ensures var rendered := Rendered(m, mem, subject, list, from, matches, k, replace);
            var direct := Replaced(m, mem, subject, elements, from, matches, k, replace);
            && rendered.Emitted?
            && if ExpandsToNothing(m, mem, subject, elements, matches, k) then rendered.bytes == direct else |rendered.bytes| < |direct|
  {
    if k > 0 {
      TooLongLosesExpansions(m, mem, subject, list, elements, from, matches, k - 1, replace);
      var before := Rendered(m, mem, subject, list, from, matches, k - 1, replace).bytes;
      var direct := Replaced(m, mem, subject, elements, from, matches, k - 1, replace);
      var gap := GapBefore(mem, subject, After(from, matches, k - 1), matches[k - 1], replace);
      ThenEmits(before, gap, []);
      Lengths(before, gap, []);
      Lengths(direct, gap, Intended(m, mem, MatchOf(subject, matches[k - 1]), elements));
    }
  }

  lemma Lengths(before: seq<byte>, gap: seq<byte>, expansion: seq<byte>)
    ensures |before + gap + expansion| == |before| + |gap| + |expansion|
    ensures expansion == [] ==> before + gap + expansion == before + gap
  {
  }

  /** What is evaluated is the direct form, or shorter: it is the direct form if the template has at most 64
      instructions, or expands to nothing. */
  lemma RenderedAgainstDirect(regex: Regex, m: CaseMap, matcher: Matcher, mem: seq<byte>, subject: Subject, t: seq<byte>, base: nat,
                              list: seq<Reference>, elements: seq<Element>, from: nat, to: nat, n: nat, replace: bool)
    requires Suits(regex, matcher, mem, subject) && Template(regex, mem, t, base, list, elements)
    requires from <= to <= subject.length && AllClean(mem, subject, elements, Taken(matcher, from, to, n))
    ensures var matches := Taken(matcher, from, to, n);
            var rendered := Rendered(m, mem, subject, list, from, matches, |matches|, replace);
            var direct := Replaced(m, mem, subject, elements, from, matches, |matches|, replace);
            && rendered.Emitted?
            && if |list| <= STACK_INSTRUCTIONS || ExpandsToNothing(m, mem, subject, elements, matches, |matches|)
               then rendered.bytes == direct else |rendered.bytes| < |direct|
    ensures forall k: nat :: k < n ==> !RaisesAt(m, mem, subject, matcher, list, from, to, k)
  {
    if |list| <= STACK_INSTRUCTIONS {
      CleanReplacementIsDirect(regex, m, matcher, mem, subject, t, base, list, elements, from, to, n, replace);
    } else {
      var matches := Taken(matcher, from, to, n);
      TooLongLosesExpansions(m, mem, subject, list, elements, from, matches, |matches|, replace);
    }
  }

  lemma PlainIsClean(m: CaseMap, mem: seq<byte>, subject: Subject, elements: seq<Element>, matches: seq<seq<Range>>)
    requires forall k :: 0 <= k < |elements| ==> !elements[k].Change?
    ensures AllClean(mem, subject, elements, matches)
  {
    forall k | 0 <= k < |matches|
      ensures Clean(mem, MatchOf(subject, matches[k]), elements)
    {
      CleanWithoutCaseOperations(m, mem, MatchOf(subject, matches[k]), elements);
    }
  }

  lemma RestIsAdded(mem: seq<byte>, subject: Subject, a: seq<byte>, b: seq<byte>, at: nat, replace: bool)
    requires a == b || |a| < |b|
    ensures WithRest(mem, subject, a, at, replace) == WithRest(mem, subject, b, at, replace) <==> a == b
    ensures a != b ==> |WithRest(mem, subject, a, at, replace)| < |WithRest(mem, subject, b, at, replace)|
  {
  }

  /** For a template without case operations, the string that is returned is the direct form if and only if that has
      no NUL, the template has at most 64 instructions or expands to nothing, and the copies, joined where they are
      adjacent, are at most 64. All of this can be seen before the call. */
  method ReplacePlain(regex: Regex, m: CaseMap, memory: Memory, subject: Subject, matcher: Matcher, searchRange: Range,
                      t: seq<byte>, base: nat, count: Option<nat>, replace: bool,
                      stackReferences: seq<Reference>, stackCopies: seq<Copy>, ghost bound: nat)
    returns (r: Result, matchedCount: nat, ghost copies: seq<Copy>)
    requires |stackReferences| == STACK_INSTRUCTIONS == |stackCopies|
    requires WholeCharacters(t) && base + |t| <= |memory.bytes| && memory.bytes[base..base + |t|] == t
    requires Suits(regex, matcher, memory.bytes, subject) && searchRange.Max() <= subject.length && Parse(regex, t, 0).Elements?
    requires forall k :: 0 <= k < |Parse(regex, t, 0).list| ==> !Parse(regex, t, 0).list[k].Change?
    requires count == None ==> |Taken(matcher, searchRange.location, searchRange.Max(), bound)| < bound
    modifies memory
    ensures r.Buffer? || (r.Unchanged? && subject.length == 0)
    ensures var matches := Taken(matcher, searchRange.location, searchRange.Max(), Limit(count, bound));
            var list, elements := InstructionsOf(regex, t, base), Parse(regex, t, 0).list;
            var direct := DirectText(m, old(memory.bytes), subject, elements, searchRange.location, matches, replace);
            && matchedCount == |matches|
            && (StringReturned(old(memory.bytes), subject, r) == direct <==>
                  && 0 !in direct
                  && (|list| <= STACK_INSTRUCTIONS || ExpandsToNothing(m, old(memory.bytes), subject, elements, matches, |matches|))
                  && |FinalLog(subject, list, searchRange.location, matches, replace)| <= STACK_INSTRUCTIONS)
            && (r.Buffer? ==> copies == FinalLog(subject, list, searchRange.location, matches, replace)
                              && old(memory.bytes) <= memory.bytes && HoldsText(r.buffer, Flatten(memory.bytes, Kept(copies))))
  {
    ghost var mem, elements, list := memory.bytes, Parse(regex, t, 0).list, InstructionsOf(regex, t, base);
    ghost var from, to, n := searchRange.location, searchRange.Max(), Limit(count, bound);
    ghost var matches;
    r, matchedCount, copies, matches := StringByMatchingAndExpanding(regex, m, memory, subject, matcher, searchRange, t, base, count, replace,
                                                                     stackReferences, stackCopies, bound);
    NoCaseInstructions(regex, t, base, list, elements);
    PlainIsClean(m, mem, subject, elements, Taken(matcher, from, to, n));
    RenderedAgainstDirect(regex, m, matcher, mem, subject, t, base, list, elements, from, to, n, replace);
    ReturnedIsDirectIff(m, matcher, mem, memory.bytes, subject, list, elements, from, to, n, replace, copies, r);
  }

  lemma ReturnedIsDirectIff(m: CaseMap, matcher: Matcher, mem: seq<byte>, bytes: seq<byte>, subject: Subject, list: seq<Reference>,
                            elements: seq<Element>, from: nat, to: nat, n: nat, replace: bool, copies: seq<Copy>, r: Result)
    requires list != [] && from <= to <= subject.length && (r.Unchanged? || r.Buffer?)
    requires var matches := Taken(matcher, from, to, n);
             && Delivers(m, mem, bytes, subject, list, from, matches, replace, copies, r)
             && (r.Buffer? ==> copies == FinalLog(subject, list, from, matches, replace))
             && var rendered := Rendered(m, mem, subject, list, from, matches, |matches|, replace);
                var direct := Replaced(m, mem, subject, elements, from, matches, |matches|, replace);
                rendered.Emitted?
                && if |list| <= STACK_INSTRUCTIONS || ExpandsToNothing(m, mem, subject, elements, matches, |matches|)
                   then rendered.bytes == direct else |rendered.bytes| < |direct|
    ensures var matches := Taken(matcher, from, to, n);
            var direct := DirectText(m, mem, subject, elements, from, matches, replace);
            StringReturned(mem, subject, r) == direct <==>
              && 0 !in direct
              && (|list| <= STACK_INSTRUCTIONS || ExpandsToNothing(m, mem, subject, elements, matches, |matches|))
              && |FinalLog(subject, list, from, matches, replace)| <= STACK_INSTRUCTIONS
  {
    var matches := Taken(matcher, from, to, n);
    var rendered := Rendered(m, mem, subject, list, from, matches, |matches|, replace).bytes;
    var direct := Replaced(m, mem, subject, elements, from, matches, |matches|, replace);
    var at := After(from, matches, |matches|);
    if r.Unchanged? {
      EmptySubject(m, matcher, mem, subject, list, elements, n);
    } else {
      RestIsAdded(mem, subject, rendered, direct, at, replace);
      StringIsTextIff(bytes, copies, WithRest(mem, subject, rendered, at, replace), r.buffer, WithRest(mem, subject, direct, at, replace));
    }
  }

  // ---------------------------------------------------------------------------------------
  // A replacement that loses its beginning
  // ---------------------------------------------------------------------------------------

  /** Matches every byte. */
  function EveryByte(): Matcher {
    Matcher(1, (from: nat, to: nat) => if from < to then Some([Range(from, 1)]) else None)
  }

  /** The byte x, n times. */
  function Repeated(x: byte, n: nat): (s: seq<byte>)
    ensures |s| == n && forall i :: 0 <= i < n ==> s[i] == x
  {
    if n == 0 then [] else Repeated(x, n - 1) + [x]
  }

  lemma {:induction false} EveryByteTaken(from: nat, to: nat, n: nat)
    requires from <= to
    ensures |Taken(EveryByte(), from, to, n)| == (if n <= to - from then n else to - from)
    ensures forall k :: 0 <= k < |Taken(EveryByte(), from, to, n)| ==> Taken(EveryByte(), from, to, n)[k] == [Range(from + k, 1)]
    decreases n
  {
    if n > 0 && from < to {
      EveryByteTaken(from + 1, to, n - 1);
    }
  }

  /** The instructions of a template of one literal byte. */
  lemma OneByteTemplate(regex: Regex, x: byte, base: nat)
    requires x != DOLLAR && x != BACKSLASH && x < 128
    ensures WholeCharacters([x]) && Parse(regex, [x], 0) == Elements([Literal(x)])
    ensures InstructionsOf(regex, [x], base) == [Reference(CopyRange, base, Range(0, 1)), STOP]
  {
    var t := [x];
    assert CharacterAt(t, 0);
    assert ElementAt(regex, t, 0) == Take(Literal(x), 1);
    assert Parse(regex, t, 1) == Elements([]);
    assert InstructionsFrom(regex, t, base, 0, 1) == RunOf(base, 0, 1) + [STOP];
  }

  /** The copies of the one byte of the template, which do not lie one behind the other. */
  function ByteCopies(base: nat, n: nat): (list: seq<Copy>)
    ensures |list| == n && forall i :: 0 <= i < n ==> list[i] == Copy(base, 1)
  {
    if n == 0 then [] else ByteCopies(base, n - 1) + [Copy(base, 1)]
  }

  lemma OneByteLog(x: Match, base: nat, log: seq<Copy>)
    requires log != [] ==> log[|log| - 1] == Copy(base, 1)
    ensures LogAfter(x, [Reference(CopyRange, base, Range(0, 1)), STOP], log) == log + [Copy(base, 1)]
  {
    var list := [Reference(CopyRange, base, Range(0, 1)), STOP];
    assert AppliedLog(x, list, 0, log) == log;
    assert AppliedLog(x, list, 1, log) == AppendedBy(x, list[0], log);
  }

  lemma {:induction false} EveryByteLog(subject: Subject, base: nat, matches: seq<seq<Range>>, k: nat)
    requires k <= |matches| && forall i :: 0 <= i < |matches| ==> matches[i] == [Range(i, 1)]
    ensures ReplacedLog(subject, [Reference(CopyRange, base, Range(0, 1)), STOP], 0, matches, k, true) == ByteCopies(base, k)
    ensures After(0, matches, k) == k
  {
    if k > 0 {
      EveryByteLog(subject, base, matches, k - 1);
      OneByteLog(MatchOf(subject, matches[k - 1]), base, ByteCopies(base, k - 1));
    }
  }

  lemma {:induction false} ByteCopiesText(mem: seq<byte>, base: nat, list: seq<Copy>, k: nat)
    requires base < |mem| && k <= |list| && forall i :: 0 <= i < |list| ==> list[i] == Copy(base, 1)
    ensures TextOf(mem, list, k) == Repeated(mem[base], k)
  {
    if k > 0 {
      ByteCopiesText(mem, base, list, k - 1);
      PieceIsSlice(mem, base, 1);
    }
  }

  lemma EveryByteSuits(regex: Regex, mem: seq<byte>, subject: Subject)
    requires subject.ptr + subject.length <= |mem| && regex.captureCount == 1
    requires forall i :: subject.ptr <= i < subject.ptr + subject.length ==> mem[i] < 128
    ensures Suits(regex, EveryByte(), mem, subject)
  {
    forall from, to | 0 <= from <= to <= subject.length && EveryByte().find(from, to).Some?
      ensures WholeCaptures(mem, MatchOf(subject, EveryByte().find(from, to).value))
    {
      PieceIsSlice(mem, subject.ptr + from, 1);
    }
    assert Sound(EveryByte(), subject.length);
  }

  lemma EveryByteCopies(subject: Subject, base: nat)
    requires subject.length > 0
    ensures var n := subject.length;
            && |Taken(EveryByte(), 0, n, n + 1)| == n
            && FinalLog(subject, [Reference(CopyRange, base, Range(0, 1)), STOP], 0, Taken(EveryByte(), 0, n, n + 1), true) == ByteCopies(base, n)
  {
    var n := subject.length;
    EveryByteTaken(0, n, n + 1);
    EveryByteLog(subject, base, Taken(EveryByte(), 0, n, n + 1), n);
  }

  lemma EveryByteString(mem: seq<byte>, base: nat, x: byte, n: nat, buffer: seq<byte>)
    requires base < |mem| && mem[base] == x && x != 0 && HoldsText(buffer, Flatten(mem, Kept(ByteCopies(base, n))))
    ensures StringOf(buffer) == Repeated(x, if n <= STACK_INSTRUCTIONS then n else n - STACK_INSTRUCTIONS)
  {
    var kept := Kept(ByteCopies(base, n));
    ByteCopiesText(mem, base, kept, |kept|);
    StringHeld(buffer, Flatten(mem, kept));
  }

  /** Replacing every byte of an ASCII subject by the byte x: of up to 64 bytes each is replaced, of n more only n come
      back. A subject of 65 bytes becomes a single x. */
  method ReplaceEveryByte(regex: Regex, m: CaseMap, memory: Memory, subject: Subject, x: byte, base: nat,
                          stackReferences: seq<Reference>, stackCopies: seq<Copy>)
    returns (r: Result)
    requires |stackReferences| == STACK_INSTRUCTIONS == |stackCopies| && regex.captureCount == 1
    requires base < |memory.bytes| && memory.bytes[base] == x && x != DOLLAR && x != BACKSLASH && 0 < x < 128
    requires 0 < subject.length && subject.ptr + subject.length <= |memory.bytes|
    requires forall i :: subject.ptr <= i < subject.ptr + subject.length ==> memory.bytes[i] < 128
    modifies memory
    ensures r.Buffer?
    ensures StringOf(r.buffer) == Repeated(x, if subject.length <= STACK_INSTRUCTIONS then subject.length else subject.length - STACK_INSTRUCTIONS)
  {
    OneByteTemplate(regex, x, base);
    EveryByteSuits(regex, memory.bytes, subject);
    EveryByteCopies(subject, base);
    var matchedCount;
    ghost var copies;
    r, matchedCount, copies := ReplacePlain(regex, m, memory, subject, EveryByte(), Range(0, subject.length), [x], base, None, true,
                                            stackReferences, stackCopies, subject.length + 1);
    EveryByteString(memory.bytes, base, x, subject.length, r.buffer);
  }

  lemma StringHeld(buffer: seq<byte>, text: seq<byte>)
    requires HoldsText(buffer, text) && 0 !in text
    ensures StringOf(buffer) == text
  {
    StringUpToNul(buffer, |text|);
  }

  lemma {:induction false} StringUpToNul(s: seq<byte>, i: nat)
    requires i < |s| && s[i] == 0 && forall k :: 0 <= k < i ==> s[k] != 0
    ensures CString(s) == s[..i]
  {
    if i > 0 {
      StringUpToNul(s[1..], i - 1);
      assert s[..i] == [s[0]] + s[1..][..i - 1];
    }
  }

  // ---------------------------------------------------------------------------------------
  // Replacing every match by itself
  // ---------------------------------------------------------------------------------------

  /** The template $0, compiled. */
  predicate IsWholeMatch(list: seq<Reference>) {
    |list| == 2 && list[0].op.CopyCaptureIndex? && list[0].range.location == 0 && list[1].op.Stop?
  }

  /** One copy instruction for the first n bytes of the subject. */
  function OneCopy(subject: Subject, n: nat): seq<Copy> {
    if n == 0 then [] else [Copy(subject.ptr, n)]
  }

  lemma WholeMatchLog(x: Match, list: seq<Reference>, log: seq<Copy>)
    requires IsWholeMatch(list) && x.ranges != []
    ensures HasNoCase(list) && LogAfter(x, list, log) == Coalesced(log, x.subject + x.ranges[0].location, x.ranges[0].length)
  {
    assert AppliedLog(x, list, 0, log) == log;
    assert AppliedLog(x, list, 1, log) == AppendedBy(x, list[0], log);
  }

  lemma GapExtendsCopy(subject: Subject, from: nat, to: nat)
    requires from <= to
    ensures LogAfterGap(subject, from, to, OneCopy(subject, from)) == OneCopy(subject, to)
  {
  }

  /** Prefix, gaps and matches lie one behind the other, and are joined. */
  lemma {:induction false} WholeMatchesJoin(subject: Subject, list: seq<Reference>, from: nat, to: nat, matches: seq<seq<Range>>, k: nat)
    requires IsWholeMatch(list) && Ascending(matches, from, to) && from <= to && k <= |matches|
    ensures from <= After(from, matches, k) <= to
    ensures ReplacedLog(subject, list, from, matches, k, true) == OneCopy(subject, After(from, matches, k))
  {
    if k == 0 {
      GapExtendsCopy(subject, 0, from);
    } else {
      WholeMatchesJoin(subject, list, from, to, matches, k - 1);
      NextStartsLater(matches, from, to, k - 1);
      GapExtendsCopy(subject, After(from, matches, k - 1), Start(matches[k - 1]));
      WholeMatchLog(MatchOf(subject, matches[k - 1]), list, OneCopy(subject, Start(matches[k - 1])));
      GapExtendsCopy(subject, Start(matches[k - 1]), End(matches[k - 1]));
    }
  }

  lemma GapsJoin(mem: seq<byte>, subject: Subject, i: nat, j: nat, k: nat)
    requires i <= j <= k
    ensures Gap(mem, subject, i, j) + Gap(mem, subject, j, k) == Gap(mem, subject, i, k)
  {
    PieceSplits(mem, subject.ptr + i, j - i, k - j);
  }

  lemma WholeMatchText(m: CaseMap, mem: seq<byte>, x: Match)
    requires x.ranges != []
    ensures Clean(mem, x, [Capture(0)])
    ensures Intended(m, mem, x, [Capture(0)]) == Piece(mem, x.subject + x.ranges[0].location, x.ranges[0].length)
  {
    CleanWithoutCaseOperations(m, mem, x, [Capture(0)]);
    assert PlainText(mem, x, [Capture(0)], 1) == [];
    NothingAdded(Piece(mem, x.subject + x.ranges[0].location, x.ranges[0].length), []);
  }

  /** The gap before a match and the match join the subject before them. */
  lemma WholeMatchJoins(m: CaseMap, mem: seq<byte>, subject: Subject, ranges: seq<Range>, at: nat)
    requires ranges != [] && at <= Start(ranges)
    ensures Gap(mem, subject, 0, at) + Gap(mem, subject, at, Start(ranges)) + Intended(m, mem, MatchOf(subject, ranges), [Capture(0)])
         == Gap(mem, subject, 0, End(ranges))
  {
    WholeMatchText(m, mem, MatchOf(subject, ranges));
    GapsJoin(mem, subject, 0, at, Start(ranges));
    GapsJoin(mem, subject, 0, Start(ranges), End(ranges));
  }

  lemma NextStartsLater(matches: seq<seq<Range>>, from: nat, to: nat, k: nat)
    requires Ascending(matches, from, to) && from <= to && k < |matches|
    ensures matches[k] != [] && from <= After(from, matches, k) <= Start(matches[k]) <= End(matches[k]) <= to
  {
    if k > 0 {
      assert End(matches[k - 1]) <= Start(matches[k]);
    }
  }

  /** With $0 for each match, what is rendered is the subject up to the end of the last match. */
  lemma {:induction false} WholeMatchesGiveSubject(m: CaseMap, mem: seq<byte>, subject: Subject, from: nat, to: nat, matches: seq<seq<Range>>, k: nat)
    requires Ascending(matches, from, to) && from <= to && k <= |matches|
    ensures from <= After(from, matches, k) <= to
    ensures Replaced(m, mem, subject, [Capture(0)], from, matches, k, true) == Gap(mem, subject, 0, After(from, matches, k))
  {
    if k > 0 {
      WholeMatchesGiveSubject(m, mem, subject, from, to, matches, k - 1);
      NextStartsLater(matches, from, to, k - 1);
      WholeMatchJoins(m, mem, subject, matches[k - 1], After(from, matches, k - 1));
    }
  }

  /** The bytes of the template $0. */
  const WHOLE_MATCH: seq<byte> := [36, 48]

  lemma WholeMatchCompiles(regex: Regex, base: nat)
    requires regex.captureCount > 0
    ensures WholeCharacters(WHOLE_MATCH) && Parse(regex, WHOLE_MATCH, 0) == Elements([Capture(0)])
    ensures IsWholeMatch(InstructionsOf(regex, WHOLE_MATCH, base))
  {
    var t := WHOLE_MATCH;
    assert CharacterAt(t, 0) && CharacterAt(t, 1);
    assert ElementAt(regex, t, 0) == Take(Capture(0), 2);
    assert Parse(regex, t, 2) == Elements([]);
    assert InstructionsFrom(regex, t, base, 2, 2) == [] + [STOP];
  }

  /** With $0 for each match the direct form is the subject, in a single copy instruction. */
  lemma WholeMatchesAreSubject(m: CaseMap, matcher: Matcher, mem: seq<byte>, subject: Subject, list: seq<Reference>, from: nat, to: nat, n: nat)
    requires Sound(matcher, subject.length) && from <= to <= subject.length && IsWholeMatch(list)
    ensures var matches := Taken(matcher, from, to, n);
            && AllClean(mem, subject, [Capture(0)], matches)
            && DirectText(m, mem, subject, [Capture(0)], from, matches, true) == Piece(mem, subject.ptr, subject.length)
            && FinalLog(subject, list, from, matches, true) == OneCopy(subject, subject.length)
  {
    var matches := Taken(matcher, from, to, n);
    var at := After(from, matches, |matches|);
    TakenIsAscending(matcher, subject.length, from, to, n);
    forall k | 0 <= k < |matches|
      ensures Clean(mem, MatchOf(subject, matches[k]), [Capture(0)])
    {
      WholeMatchText(m, mem, MatchOf(subject, matches[k]));
    }
    WholeMatchesGiveSubject(m, mem, subject, from, to, matches, |matches|);
    WholeMatchesJoin(subject, list, from, to, matches, |matches|);
    GapsJoin(mem, subject, 0, at, subject.length);
    GapExtendsCopy(subject, at, subject.length);
  }

  /** Replacing every match by $0 gives the subject back, and takes a single copy instruction: the pieces
      lie one behind the other in memory and are joined. This holds for any search range and any count. */
  method ReplaceByWholeMatch(regex: Regex, m: CaseMap, memory: Memory, subject: Subject, matcher: Matcher, searchRange: Range, base: nat,
                             count: Option<nat>, stackReferences: seq<Reference>, stackCopies: seq<Copy>, ghost bound: nat)
    returns (r: Result, ghost copies: seq<Copy>)
    requires |stackReferences| == STACK_INSTRUCTIONS == |stackCopies| && regex.captureCount > 0
    requires base + 2 <= |memory.bytes| && memory.bytes[base..base + 2] == WHOLE_MATCH
    requires Suits(regex, matcher, memory.bytes, subject) && searchRange.Max() <= subject.length
    requires count == None ==> |Taken(matcher, searchRange.location, searchRange.Max(), bound)| < bound
    modifies memory
    ensures if r.Buffer? then r.buffer == Piece(old(memory.bytes), subject.ptr, subject.length) + [0] else r.Unchanged? && subject.length == 0
    ensures r.Buffer? ==> copies == OneCopy(subject, subject.length)
  {
    ghost var mem, from, to, n := memory.bytes, searchRange.location, searchRange.Max(), Limit(count, bound);
    ghost var list, matches := InstructionsOf(regex, WHOLE_MATCH, base), [];
    WholeMatchCompiles(regex, base);
    var matchedCount;
    r, matchedCount, copies, matches := StringByMatchingAndExpanding(regex, m, memory, subject, matcher, searchRange, WHOLE_MATCH, base,
                                                                    count, true, stackReferences, stackCopies, bound);
    WholeMatchLog(Match(0, 0, [Range(0, 0)]), list, []);
    WholeMatchesAreSubject(m, matcher, mem, subject, list, from, to, n);
    CleanReplacementIsDirect(regex, m, matcher, mem, subject, WHOLE_MATCH, base, list, [Capture(0)], from, to, n, true);
  }
}
