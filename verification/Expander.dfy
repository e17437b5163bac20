/**
 Expanding a template for one match: RKStringFromReferenceStringX (Source/NSString.m:815-830) compiles,
 applies and evaluates. The result is the direct expansion of the template's elements.
 */
module Expander {
  import opened Base
  import opened Instructions
  import opened CaseExpansion
  import opened ReferenceCompiler
  import opened Applier
  import Unicode

  /** An element with the captures of the match filled in. */
  ghost function FilledOne(mem: seq<byte>, x: Match, e: Element): Part {
    match e
    case Literal(c) => Text([c])
    case Capture(index) =>
      if index < |x.ranges| then Text(Piece(mem, x.subject + x.ranges[index].location, x.ranges[index].length)) else Text([])
    case Change(op) => Case(op)
  }

  ghost function Filled(mem: seq<byte>, x: Match, elements: seq<Element>): (parts: seq<Part>)
    ensures |parts| == |elements|
  {
    seq(|elements|, i requires 0 <= i < |elements| => FilledOne(mem, x, elements[i]))
  }

  // ---------------------------------------------------------------------------------------
  // Instructions and elements mean the same
  // ---------------------------------------------------------------------------------------

  lemma {:induction false} LiteralsAt(t: seq<byte>, i: nat, j: nat, d: nat)
    requires i + d < j <= |t|
    ensures Literals(t, i, j)[d] == Literal(t[i + d])
  {
    if i + d < j - 1 {
      LiteralsAt(t, i, j - 1, d);
    }
  }

  lemma PrefixOfMore(a: seq<Element>, b: seq<Element>, more: seq<Element>)
    requires a <= b
    ensures a <= b + more
  {
  }

  lemma {:induction false} DecodedIsPrefix(t: seq<byte>, list: seq<Reference>, k: nat, n: nat)
    requires k <= n <= |list|
    ensures Decoded(t, list, k) <= Decoded(t, list, n)
    decreases n
  {
    if k < n {
      DecodedIsPrefix(t, list, k, n - 1);
      PrefixOfMore(Decoded(t, list, k), Decoded(t, list, n - 1), ElementsOf(t, list[n - 1]));
    }
  }

  /** The own elements of an instruction, behind those before it. */
  lemma OwnElements(before: seq<Element>, own: seq<Element>, elements: seq<Element>, d: nat)
    requires before + own <= elements && d < |own|
    ensures |before| + d < |elements| && elements[|before| + d] == own[d]
  {
    assert (before + own)[|before| + d] == own[d];
  }

  /** The n parts from the j-th on are the bytes of this text, one by one. */
  ghost predicate Spells(parts: seq<Part>, j: nat, text: seq<byte>) {
    j + |text| <= |parts| && forall d :: 0 <= d < |text| ==> parts[j + d] == Text([text[d]])
  }

  lemma {:induction false} SpelledMeaning(m: CaseMap, parts: seq<Part>, j: nat, text: seq<byte>, n: nat, op: Op, span: seq<byte>)
    requires Spells(parts, j, text) && n <= |text|
    ensures Meaning(m, parts, j, op, span) == Meaning(m, parts, j + n, op, span + text[..n])
  {
    if n == 0 {
      assert span + text[..0] == span;
    } else {
      SpelledMeaning(m, parts, j, text, n - 1, op, span);
      assert parts[j + (n - 1)] == Text([text[n - 1]]);
      assert text[..n] == text[..n - 1] + [text[n - 1]];
      Associate(span, text[..n - 1], [text[n - 1]]);
    }
  }

  /** Spelling out a non-empty text does not break or mend a span. */
  lemma {:induction false} SpelledUnbroken(parts: seq<Part>, j: nat, text: seq<byte>, n: nat, op: Op, broken: bool, any: bool)
    requires Spells(parts, j, text) && 0 < n <= |text|
    ensures Unbroken(parts, j, op, broken, any) ==
            if op.Stop? then Unbroken(parts, j + n, Stop, false, false)
            else !broken && Unbroken(parts, j + n, if IsSpan(op) then op else Stop, false, IsSpan(op))
  {
    assert parts[j + (n - 1)] == Text([text[n - 1]]);
    if n > 1 {
      SpelledUnbroken(parts, j, text, n - 1, op, broken, any);
    }
  }

  /** A part is spelled out, or stays as it is. */
  ghost predicate PartIsSpelled(part: Part, filled: seq<Part>, j: nat, next: nat) {
    || (part.Text? && part.bytes != [] && next == j + |part.bytes| && Spells(filled, j, part.bytes))
    || (j < |filled| && next == j + 1 && filled[j] == part)
  }

  /** filled is parts with some texts spelled out; offsets says where the k-th part is. */
  ghost predicate SpelledOut(parts: seq<Part>, filled: seq<Part>, offsets: seq<nat>) {
    && |offsets| == |parts| + 1 && offsets[|parts|] == |filled|
    && forall k :: 0 <= k < |parts| ==> PartIsSpelled(parts[k], filled, offsets[k], offsets[k + 1])
  }

  lemma SpelledTextMeaning(m: CaseMap, bytes: seq<byte>, filled: seq<Part>, j: nat, next: nat, op: Op, span: seq<byte>)
    requires PartIsSpelled(Text(bytes), filled, j, next)
    ensures j < |filled| && next <= |filled| && Meaning(m, filled, j, op, span) == Meaning(m, filled, next, op, span + bytes)
  {
    if bytes != [] && next == j + |bytes| && Spells(filled, j, bytes) {
      SpelledMeaning(m, filled, j, bytes, |bytes|, op, span);
      assert bytes[..|bytes|] == bytes;
    }
  }

  lemma {:induction false} SpellingKeepsMeaning(m: CaseMap, parts: seq<Part>, filled: seq<Part>, offsets: seq<nat>, k: nat, op: Op, span: seq<byte>)
    requires SpelledOut(parts, filled, offsets) && k <= |parts|
    ensures offsets[k] <= |filled| && Meaning(m, parts, k, op, span) == Meaning(m, filled, offsets[k], op, span)
    decreases |parts| - k
  {
    if k < |parts| {
      assert PartIsSpelled(parts[k], filled, offsets[k], offsets[k + 1]);
      match parts[k]
      case Text(bytes) =>
        SpellingKeepsMeaning(m, parts, filled, offsets, k + 1, op, span + bytes);
        SpelledTextMeaning(m, bytes, filled, offsets[k], offsets[k + 1], op, span);
      case Case(next) =>
        SpellingKeepsMeaning(m, parts, filled, offsets, k + 1, op, span);
        SpellingKeepsMeaning(m, parts, filled, offsets, k + 1, CaseAfter(next), []);
    }
  }

  lemma {:induction false} SpellingKeepsUnbroken(parts: seq<Part>, filled: seq<Part>, offsets: seq<nat>, k: nat, op: Op, broken: bool, any: bool)
    requires SpelledOut(parts, filled, offsets) && k <= |parts|
    ensures offsets[k] <= |filled| && Unbroken(parts, k, op, broken, any) == Unbroken(filled, offsets[k], op, broken, any)
    decreases |parts| - k
  {
    if k < |parts| {
      assert PartIsSpelled(parts[k], filled, offsets[k], offsets[k + 1]);
      match parts[k]
      case Text(bytes) =>
        SpellingKeepsUnbroken(parts, filled, offsets, k + 1, Stop, false, false);
        SpellingKeepsUnbroken(parts, filled, offsets, k + 1, op, true, any);
        SpellingKeepsUnbroken(parts, filled, offsets, k + 1, if IsSpan(op) then op else Stop, false, IsSpan(op));
        if bytes != [] && Spells(filled, offsets[k], bytes) {
          SpelledUnbroken(filled, offsets[k], bytes, |bytes|, op, broken, any);
        }
      case Case(next) =>
        SpellingKeepsUnbroken(parts, filled, offsets, k + 1, op, false, any);
        SpellingKeepsUnbroken(parts, filled, offsets, k + 1, CaseAfter(next), false, false);
    }
  }

  /** The template at address base, the match, and what was compiled. */
  ghost predicate Setting(regex: Regex, mem: seq<byte>, x: Match, t: seq<byte>, base: nat, list: seq<Reference>, elements: seq<Element>) {
    && base + |t| <= |mem| && mem[base..base + |t|] == t
    && Fits(mem, x) && |x.ranges| == regex.captureCount && Finished(regex, t, base, list, elements)
  }

  lemma SettingIsCompiled(regex: Regex, mem: seq<byte>, x: Match, t: seq<byte>, base: nat, list: seq<Reference>, elements: seq<Element>)
    requires Setting(regex, mem, x, t, base, list, elements)
    ensures Executable(mem, x, list)
  {
    assert forall i :: 0 <= i < |list| - 1 ==> GoodInstruction(regex, t, base, list[i]);
  }

  /** The elements of a run are its bytes. */
  lemma RunSpells(mem: seq<byte>, x: Match, t: seq<byte>, base: nat, range: Range, before: seq<Element>, elements: seq<Element>)
    requires base + |t| <= |mem| && mem[base..base + |t|] == t && range.Max() <= |t|
    requires before + Literals(t, range.location, range.Max()) <= elements
    ensures Spells(Filled(mem, x, elements), |before|, Piece(mem, base + range.location, range.length))
  {
    var text := Piece(mem, base + range.location, range.length);
    forall d | 0 <= d < |text|
      ensures Filled(mem, x, elements)[|before| + d] == Text([text[d]])
    {
      OwnElements(before, Literals(t, range.location, range.Max()), elements, d);
      LiteralsAt(t, range.location, range.Max(), d);
      assert mem[base..base + |t|][range.location + d] == mem[base + range.location + d];
    }
  }

  lemma OneIsFilled(mem: seq<byte>, x: Match, e: Element, before: seq<Element>, elements: seq<Element>)
    requires before + [e] <= elements
    ensures |before| < |elements| && Filled(mem, x, elements)[|before|] == FilledOne(mem, x, e)
  {
    OwnElements(before, [e], elements, 0);
  }

  /** The part of an instruction, behind the elements of those before it. */
  lemma InstructionIsSpelled(regex: Regex, mem: seq<byte>, x: Match, t: seq<byte>, base: nat, r: Reference, before: seq<Element>,
                             elements: seq<Element>)
    requires base + |t| <= |mem| && mem[base..base + |t|] == t && |x.ranges| == regex.captureCount
    requires GoodInstruction(regex, t, base, r) && before + ElementsOf(t, r) <= elements
    ensures PartIsSpelled(PartOf(mem, x, r), Filled(mem, x, elements), |before|, |before| + |ElementsOf(t, r)|)
  {
    if r.op.CopyRange? {
      RunSpells(mem, x, t, base, r.range, before, elements);
    } else {
      OneIsFilled(mem, x, ElementsOf(t, r)[0], before, elements);
    }
  }

  ghost function Offsets(t: seq<byte>, list: seq<Reference>): (offsets: seq<nat>)
    requires list != []
    ensures |offsets| == |list|
  {
    seq(|list|, k requires 0 <= k < |list| => |Decoded(t, list, k)|)
  }

  /** The elements before the k-th instruction, and its own behind them. */
  lemma DecodedStep(t: seq<byte>, list: seq<Reference>, k: nat) returns (before: seq<Element>)
    requires k + 1 < |list|
    ensures before + ElementsOf(t, list[k]) <= Decoded(t, list, |list|)
    ensures Offsets(t, list)[k] == |before| && Offsets(t, list)[k + 1] == |before| + |ElementsOf(t, list[k])|
  {
    before := Decoded(t, list, k);
    DecodedIsPrefix(t, list, k + 1, |list|);
  }

  lemma ListedIsSpelled(regex: Regex, mem: seq<byte>, x: Match, t: seq<byte>, base: nat, list: seq<Reference>, elements: seq<Element>, k: nat)
    requires Setting(regex, mem, x, t, base, list, elements) && k < |list| - 1
    ensures PartIsSpelled(Parts(mem, x, list)[k], Filled(mem, x, elements), Offsets(t, list)[k], Offsets(t, list)[k + 1])
  {
    assert GoodInstruction(regex, t, base, list[k]);
    var before := DecodedStep(t, list, k);
    InstructionIsSpelled(regex, mem, x, t, base, list[k], before, elements);
  }

  lemma LastDecodesToNothing(regex: Regex, t: seq<byte>, base: nat, list: seq<Reference>, elements: seq<Element>)
    requires Finished(regex, t, base, list, elements)
    ensures Offsets(t, list)[|list| - 1] == |elements|
  {
  }

  /** The parts of the instructions are the elements, with the runs in one piece. */
  lemma InstructionsSpellOut(regex: Regex, mem: seq<byte>, x: Match, t: seq<byte>, base: nat, list: seq<Reference>, elements: seq<Element>)
    requires Setting(regex, mem, x, t, base, list, elements)
    ensures SpelledOut(Parts(mem, x, list), Filled(mem, x, elements), Offsets(t, list))
  {
    forall k | 0 <= k < |list| - 1
      ensures PartIsSpelled(Parts(mem, x, list)[k], Filled(mem, x, elements), Offsets(t, list)[k], Offsets(t, list)[k + 1])
    {
      ListedIsSpelled(regex, mem, x, t, base, list, elements, k);
    }
    LastDecodesToNothing(regex, t, base, list, elements);
  }

  /** The parts of the instructions mean what the elements of the template mean. */
  lemma InstructionsMeanElements(regex: Regex, m: CaseMap, mem: seq<byte>, x: Match, t: seq<byte>, base: nat, list: seq<Reference>,
                                 elements: seq<Element>)
    requires Setting(regex, mem, x, t, base, list, elements)
    ensures Expansion(m, Parts(mem, x, list)) == Expansion(m, Filled(mem, x, elements))
    ensures Unbroken(Parts(mem, x, list), 0, Stop, false, false) == Unbroken(Filled(mem, x, elements), 0, Stop, false, false)
  {
    InstructionsSpellOut(regex, mem, x, t, base, list, elements);
    assert Offsets(t, list)[0] == |Decoded(t, list, 0)| == 0;
    SpellingKeepsMeaning(m, Parts(mem, x, list), Filled(mem, x, elements), Offsets(t, list), 0, Stop, []);
    SpellingKeepsUnbroken(Parts(mem, x, list), Filled(mem, x, elements), Offsets(t, list), 0, Stop, false, false);
  }

  // ---------------------------------------------------------------------------------------
  // Expanding a template
  // ---------------------------------------------------------------------------------------

  /** The captures of a match consist of whole characters. */
  ghost predicate WholeCaptures(mem: seq<byte>, x: Match) {
    forall i :: 0 <= i < |x.ranges| ==> Whole(Piece(mem, x.subject + x.ranges[i].location, x.ranges[i].length))
  }

  lemma PartsAreWellFormed(regex: Regex, mem: seq<byte>, x: Match, t: seq<byte>, base: nat, list: seq<Reference>, elements: seq<Element>)
    requires Setting(regex, mem, x, t, base, list, elements) && WholeCaptures(mem, x)
    ensures WellFormed(Parts(mem, x, list))
  {
    forall k | 0 <= k < |list| - 1
      ensures PartIsWellFormed(PartOf(mem, x, list[k]))
    {
      assert GoodInstruction(regex, t, base, list[k]);
      if list[k].op.CopyRange? {
        assert mem[base..base + |t|][list[k].range.location] == t[list[k].range.location];
      }
    }
    assert forall k :: 0 <= k < |list| - 1 ==> PartIsWellFormed(Parts(mem, x, list)[k]);
  }

  predicate PartIsWellFormed(part: Part) {
    if part.Text? then Whole(part.bytes) else IsCase(part.op)
  }

  /** What a caller gets: an error of the template, an exception, the search string itself, or the buffer that
      was filled. */
  datatype Result = Rejected(error: ParseError) | Exception | Unchanged | Buffer(buffer: seq<byte>)

  /** What applying the elements of a template gives, if no buffer overflows. */
  ghost function Intended(m: CaseMap, mem: seq<byte>, x: Match, elements: seq<Element>): seq<byte> {
    Expansion(m, Filled(mem, x, elements))
  }

  /** No empty capture takes effect in a case span of the template. */
  ghost predicate Clean(mem: seq<byte>, x: Match, elements: seq<Element>) {
    Unbroken(Filled(mem, x, elements), 0, Stop, false, false)
  }

  /** Applying a clean template of at most 64 instructions gives its direct expansion. */
  lemma CleanTemplatesApply(regex: Regex, m: CaseMap, mem: seq<byte>, x: Match, t: seq<byte>, base: nat, list: seq<Reference>, elements: seq<Element>)
    requires Setting(regex, mem, x, t, base, list, elements) && WholeCaptures(mem, x)
    requires |list| <= STACK_INSTRUCTIONS && Clean(mem, x, elements)
    ensures Applied(m, mem, x, list) == Emitted(Intended(m, mem, x, elements))
  {
    PartsAreWellFormed(regex, mem, x, t, base, list, elements);
    InstructionsMeanElements(regex, m, mem, x, t, base, list, elements);
    ApplyFollowsMeaning(m, Parts(mem, x, list), 0, Stop, false, []);
  }

  /** The buffer holds this text and a terminator; what is behind is left over. */
  predicate HoldsText(buffer: seq<byte>, text: seq<byte>) {
    |text| < |buffer| && buffer[..|text|] == text && buffer[|text|] == 0
  }

  /** What evaluating copy instructions leaves in the buffer: all of the text, unless the stack buffer overflowed. */
  ghost predicate Evaluated(mem: seq<byte>, copies: seq<Copy>, text: seq<byte>, buffer: seq<byte>) {
    && Flatten(mem, copies) == text && HoldsText(buffer, Flatten(mem, Kept(copies)))
    && (if |copies| <= STACK_INSTRUCTIONS then buffer == text + [0] else |Flatten(mem, Kept(copies))| < |text| < |buffer|)
  }

  /** Evaluates the copy instructions into a new buffer (lines 842-872). */
  method StringFromCopyInstructions(mem: seq<byte>, copyBuffer: CopyInstructionsBuffer) returns (buffer: seq<byte>)
    requires copyBuffer.Valid() && InMemory(mem, copyBuffer.Log())
    ensures Evaluated(mem, copyBuffer.Log(), Flatten(mem, copyBuffer.Log()), buffer)
  {
    var toBuffer := new byte[copyBuffer.copiedLength + 1];
    Evaluate(mem, copyBuffer, toBuffer);
    buffer := toBuffer[..];
    TextLength(mem, copyBuffer.Log(), |copyBuffer.Log()|);
    ghost var kept := Flatten(mem, Kept(copyBuffer.Log()));
    KeptLength(copyBuffer.Log());
    TextLength(mem, Kept(copyBuffer.Log()), |Kept(copyBuffer.Log())|);
    assert |copyBuffer.Log()| <= STACK_INSTRUCTIONS ==> buffer == buffer[..|kept|] + [buffer[|kept|]];
  }

  // ---------------------------------------------------------------------------------------
  // What callers can check
  // ---------------------------------------------------------------------------------------

  /** A template is clean for a match in which every capture it copies is non-empty. */
  lemma CleanWhenCapturesHaveText(mem: seq<byte>, x: Match, elements: seq<Element>)
    requires forall k :: 0 <= k < |elements| && elements[k].Capture? ==>
               elements[k].index < |x.ranges| && x.ranges[elements[k].index].length > 0
    ensures Clean(mem, x, elements)
  {
    var parts := Filled(mem, x, elements);
    forall k | 0 <= k < |parts| && parts[k].Text?
      ensures parts[k].bytes != []
    {
      assert parts[k] == FilledOne(mem, x, elements[k]);
    }
    NoEmptyTextsIsUnbroken(parts, 0, Stop, false);
  }

  /** A template without case operations is clean for every match, and its expansion just copies. */
  lemma CleanWithoutCaseOperations(m: CaseMap, mem: seq<byte>, x: Match, elements: seq<Element>)
    requires forall k :: 0 <= k < |elements| ==> !elements[k].Change?
    ensures Clean(mem, x, elements) && Intended(m, mem, x, elements) == PlainText(mem, x, elements, 0)
  {
    var parts := Filled(mem, x, elements);
    forall k | 0 <= k < |parts|
      ensures parts[k].Text?
    {
      assert parts[k] == FilledOne(mem, x, elements[k]);
    }
    PlainTemplatesAreUnbroken(parts, 0);
    PlainMeaning(m, mem, x, elements, 0);
  }

  /** The texts of the elements from the k-th on, one after the other. */
  ghost function PlainText(mem: seq<byte>, x: Match, elements: seq<Element>, k: nat): seq<byte>
    requires k <= |elements|
    decreases |elements| - k
  {
    if k == |elements| then []
    else
      var part := FilledOne(mem, x, elements[k]);
      (if part.Text? then part.bytes else []) + PlainText(mem, x, elements, k + 1)
  }

  lemma {:induction false} PlainMeaning(m: CaseMap, mem: seq<byte>, x: Match, elements: seq<Element>, k: nat)
    requires k <= |elements| && forall i :: 0 <= i < |elements| ==> !elements[i].Change?
    ensures Meaning(m, Filled(mem, x, elements), k, Stop, []) == PlainText(mem, x, elements, k)
    decreases |elements| - k
  {
    if k < |elements| {
      PlainMeaning(m, mem, x, elements, k + 1);
      var part := FilledOne(mem, x, elements[k]);
      assert Filled(mem, x, elements)[k] == part;
      PlainTextComesFirst(m, Filled(mem, x, elements), k + 1, [] + part.bytes);
      assert [] + part.bytes == part.bytes;
    }
  }

  /** RKStringFromReferenceStringX for the template at address base. The ghost result is the list of copy
      instructions that were appended. The call fails where the grammar does, raises where the loop does,
      and otherwise evaluates what the loop emits; for a clean template of at most 64 instructions this is its
      direct expansion. */
  method StringFromReference(regex: Regex, m: CaseMap, memory: Memory, x: Match, t: seq<byte>, base: nat,
                             stackReferences: seq<Reference>, stackCopies: seq<Copy>)
    returns (r: Result, ghost copies: seq<Copy>)
    requires |stackReferences| == STACK_INSTRUCTIONS == |stackCopies|
    requires WholeCharacters(t) && base + |t| <= |memory.bytes| && memory.bytes[base..base + |t|] == t
    requires Fits(memory.bytes, x) && |x.ranges| == regex.captureCount && WholeCaptures(memory.bytes, x)
    modifies memory
    ensures !r.Unchanged? && (r.Rejected? <==> Parse(regex, t, 0).Failed?)
    ensures r.Rejected? ==> r.error == Parse(regex, t, 0).error
    ensures var list := InstructionsOf(regex, t, base);
            !r.Rejected? ==>
              && Setting(regex, old(memory.bytes), x, t, base, list, Parse(regex, t, 0).list)
              && |copies| <= 2 * |list| && (HasNoCase(list) ==> copies == LogAfter(x, list, []))
              && (r.Exception? <==> Applied(m, old(memory.bytes), x, list).Raised?)
              && (r.Buffer? ==> Evaluated(memory.bytes, copies, Applied(m, old(memory.bytes), x, list).bytes, r.buffer))
  {
    ghost var mem := memory.bytes;
    copies := [];
    var referenceBuffer := new InstructionsBuffer(ZERO_REFERENCE, stackReferences);
    var copyBuffer := new CopyInstructionsBuffer(stackCopies);
    var error := Compile(regex, t, base, referenceBuffer);
    if error.Some? {
      return Rejected(error.value), [];
    }
    ghost var list, elements := referenceBuffer.log, Parse(regex, t, 0).list;
    SettingIsCompiled(regex, mem, x, t, base, list, elements);
    PartsAreWellFormed(regex, mem, x, t, base, list, elements);
    var raised := ApplyReferences(m, memory, x, referenceBuffer, copyBuffer);
    copies := copyBuffer.Log();
    if raised {
      return Exception, copies;
    }
    var buffer := StringFromCopyInstructions(memory.bytes, copyBuffer);
    r := Buffer(buffer);
  }

  /** A clean template of at most 32 instructions fits both stack buffers, and always gives its direct expansion. */
  method ShortTemplatesExpand(regex: Regex, m: CaseMap, memory: Memory, x: Match, t: seq<byte>, base: nat,
                              stackReferences: seq<Reference>, stackCopies: seq<Copy>)
    returns (r: Result)
    requires |stackReferences| == STACK_INSTRUCTIONS == |stackCopies|
    requires WholeCharacters(t) && base + |t| <= |memory.bytes| && memory.bytes[base..base + |t|] == t
    requires Fits(memory.bytes, x) && |x.ranges| == regex.captureCount && WholeCaptures(memory.bytes, x)
    requires Parse(regex, t, 0).Elements? && Clean(memory.bytes, x, Parse(regex, t, 0).list)
    requires 2 * |InstructionsOf(regex, t, base)| <= STACK_INSTRUCTIONS
    modifies memory
    ensures r == Buffer(Intended(m, old(memory.bytes), x, Parse(regex, t, 0).list) + [0])
  {
    ghost var mem := memory.bytes;
    ghost var copies;
    r, copies := StringFromReference(regex, m, memory, x, t, base, stackReferences, stackCopies);
    CleanTemplatesApply(regex, m, mem, x, t, base, InstructionsOf(regex, t, base), Parse(regex, t, 0).list);
  }

  lemma OneElementIsFew(base: nat, start: nat, at: nat, e: Element)
    requires start <= at
    ensures |InstructionsFor(base, start, at, e)| <= at - start + 1
  {
  }

  /** The compiler makes no more instructions than the template has bytes, and one. */
  lemma {:induction false} InstructionsAreFew(regex: Regex, t: seq<byte>, base: nat, start: nat, at: nat)
    requires start <= at <= |t|
    ensures |InstructionsFrom(regex, t, base, start, at)| <= |t| + 1 - start
    decreases |t| - at
  {
    if at < |t| && ElementAt(regex, t, at).Take? {
      if JoinsRun(regex, t, at) {
        InstructionsAreFew(regex, t, base, start, at + 1);
      } else {
        var next := at + ElementAt(regex, t, at).length;
        OneElementIsFew(base, start, at, ElementAt(regex, t, at).e);
        InstructionsAreFew(regex, t, base, next, next);
      }
    }
  }

  // ---------------------------------------------------------------------------------------
  // Templates without case operations: exactly when the string is the expansion
  // ---------------------------------------------------------------------------------------

  /** The string that is made of the filled buffer: it ends at the first NUL. */
  function StringOf(buffer: seq<byte>): seq<byte> {
    CString(buffer)
  }

  lemma {:induction false} StringEnds(s: seq<byte>, i: nat)
    requires i < |s| && s[i] == 0
    ensures |CString(s)| <= i
  {
    if i > 0 && s[0] != 0 {
      StringEnds(s[1..], i - 1);
    }
  }

  lemma {:induction false} StringHasNoNul(s: seq<byte>)
    ensures 0 !in CString(s)
  {
    if s != [] && s[0] != 0 {
      StringHasNoNul(s[1..]);
    }
  }

  lemma {:induction false} StringOfText(text: seq<byte>)
    requires 0 !in text
    ensures CString(text + [0]) == text
  {
    if text != [] {
      assert text == [text[0]] + text[1..];
      assert (text + [0])[1..] == text[1..] + [0];
      StringOfText(text[1..]);
    }
  }

  /** The string is a text of which what was evaluated is the whole, or less, exactly if it has no NUL, is what was
      evaluated, and the copy instructions fit the stack buffer. */
  lemma StringIsTextIff(mem: seq<byte>, copies: seq<Copy>, evaluated: seq<byte>, buffer: seq<byte>, text: seq<byte>)
    requires Evaluated(mem, copies, evaluated, buffer) && (evaluated == text || |evaluated| < |text|)
    ensures StringOf(buffer) == text <==> 0 !in text && evaluated == text && |copies| <= STACK_INSTRUCTIONS
  {
    StringHasNoNul(buffer);
    StringEnds(buffer, |Flatten(mem, Kept(copies))|);
    if 0 !in text {
      StringOfText(text);
    }
  }

  lemma NoCaseInstructions(regex: Regex, t: seq<byte>, base: nat, list: seq<Reference>, elements: seq<Element>)
    requires Finished(regex, t, base, list, elements) && forall k :: 0 <= k < |elements| ==> !elements[k].Change?
    ensures HasNoCase(list)
  {
    forall i | 0 <= i < |list|
      ensures !IsCase(list[i].op)
    {
      if IsCase(list[i].op) {
        var before := DecodedStep(t, list, i);
        OwnElements(before, ElementsOf(t, list[i]), elements, 0);
      }
    }
  }

  /** For a template without case operations the string is the direct expansion if and only if that has no NUL,
      the template has at most 64 instructions or expands to nothing, and its copies, joined where
      they are adjacent, are at most 64. */
  method ExpandPlain(regex: Regex, m: CaseMap, memory: Memory, x: Match, t: seq<byte>, base: nat,
                     stackReferences: seq<Reference>, stackCopies: seq<Copy>)
    returns (r: Result)
    requires |stackReferences| == STACK_INSTRUCTIONS == |stackCopies|
    requires WholeCharacters(t) && base + |t| <= |memory.bytes| && memory.bytes[base..base + |t|] == t
    requires Fits(memory.bytes, x) && |x.ranges| == regex.captureCount && WholeCaptures(memory.bytes, x)
    requires Parse(regex, t, 0).Elements? && forall k :: 0 <= k < |Parse(regex, t, 0).list| ==> !Parse(regex, t, 0).list[k].Change?
    modifies memory
    ensures r.Buffer?
    ensures var list, text := InstructionsOf(regex, t, base), PlainText(old(memory.bytes), x, Parse(regex, t, 0).list, 0);
            StringOf(r.buffer) == text <==>
              && 0 !in text && (|list| <= STACK_INSTRUCTIONS || text == [])
              && |LogAfter(x, list, [])| <= STACK_INSTRUCTIONS
  {
    ghost var mem, list, elements := memory.bytes, InstructionsOf(regex, t, base), Parse(regex, t, 0).list;
    ghost var copies;
    r, copies := StringFromReference(regex, m, memory, x, t, base, stackReferences, stackCopies);
    NoCaseInstructions(regex, t, base, list, elements);
    CleanWithoutCaseOperations(m, mem, x, elements);
    if |list| <= STACK_INSTRUCTIONS {
      CleanTemplatesApply(regex, m, mem, x, t, base, list, elements);
    }
    StringIsTextIff(memory.bytes, copies, Applied(m, mem, x, list).bytes, r.buffer, PlainText(mem, x, elements, 0));
  }

  /** Well-formed UTF-8 consists of whole characters. */
  lemma Utf8IsWhole(cs: seq<Unicode.Scalar>)
    ensures WholeCharacters(Unicode.Encode8(cs))
  {
    var t := Unicode.Encode8(cs);
    forall i: nat | i < |t|
      ensures CharacterAt(t, i)
    {
      Utf8CharacterAt(cs, i);
    }
  }

  /** Behind an ASCII byte, and at the start, a character begins. */
  lemma AfterAsciiIsLead(cs: seq<Unicode.Scalar>, i: nat)
    requires i < |Unicode.Encode8(cs)| && (i == 0 || Unicode.Encode8(cs)[i - 1] < 128)
    ensures !Unicode.IsTrail(Unicode.Encode8(cs)[i])
  {
    if i == 0 {
      var k := Unicode.OwnerOfByte(cs, 0);
    } else {
      var k := AsciiEndsAt(cs, i - 1);
      Unicode.LeadAtOffset(cs, k);
      Unicode.TablesAreRight(cs[k]);
      Unicode.CharAtOffset(cs, k);
      assert Unicode.Encode8(cs)[i] == Unicode.Encode8(cs)[i..i + |Unicode.Char8(cs[k])|][0];
    }
  }

  /** The character behind an ASCII byte starts right after it. */
  lemma AsciiEndsAt(cs: seq<Unicode.Scalar>, i: nat) returns (k: nat)
    requires i + 1 < |Unicode.Encode8(cs)| && Unicode.Encode8(cs)[i] < 128
    ensures k < |cs| && Unicode.Offset8(cs, k) == i + 1
  {
    var before := Unicode.OwnerOfByte(cs, i);
    assert Unicode.Offset8(cs, before) == i;
    Unicode.LeadAtOffset(cs, before);
    assert Unicode.LengthOfCharacter(Unicode.Encode8(cs)[i]) == 1;
    k := before + 1;
  }

  lemma TrailsFollowLead(cs: seq<Unicode.Scalar>, i: nat)
    requires i < |Unicode.Encode8(cs)| && !Unicode.IsTrail(Unicode.Encode8(cs)[i])
    ensures var n := Unicode.LengthOfCharacter(Unicode.Encode8(cs)[i]);
            && i + n <= |Unicode.Encode8(cs)|
            && forall j :: i < j < i + n ==> Unicode.IsTrail(Unicode.Encode8(cs)[j])
  {
    var k := Unicode.OwnerOfByte(cs, i);
    Unicode.LeadAtOffset(cs, k);
    Unicode.RangeFits(cs, k, k + 1);
    forall j | i < j < Unicode.Offset8(cs, k + 1)
      ensures Unicode.IsTrail(Unicode.Encode8(cs)[j])
    {
      Unicode.TrailsOf(cs, k, j);
    }
  }

  lemma Utf8CharacterAt(cs: seq<Unicode.Scalar>, i: nat)
    requires i < |Unicode.Encode8(cs)|
    ensures CharacterAt(Unicode.Encode8(cs), i)
  {
    if i == 0 || Unicode.Encode8(cs)[i - 1] < 128 {
      AfterAsciiIsLead(cs, i);
    }
    if !Unicode.IsTrail(Unicode.Encode8(cs)[i]) {
      TrailsFollowLead(cs, i);
    }
  }
}
