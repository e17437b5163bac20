/**
 The compiler of replacement templates: RKCompileReferenceStringX (Source/NSString.m:1004-1075) and
 RKParseReference (lines 1166-1257) as the compiler calls it, without conversions. Templates are
 byte strings with a NUL behind them.
 */
module ReferenceCompiler {
  import opened Base
  import opened Instructions
  import opened CaseExpansion
  import Unicode

  const DOLLAR: byte := 36
  const BACKSLASH: byte := 92
  const OPEN: byte := 123
  const CLOSE: byte := 125

  /** What the compiler asks of the regex: its number of captures, and the index of a named capture. */
  datatype Regex = Regex(captureCount: nat, indexOf: seq<byte> -> Option<nat>)

  datatype ParseError = NotValid | UnbalancedCurlyBrackets | NamedCaptureUndefined | CaptureGreaterThanRegexCaptures

  /** One element of a template as its grammar has it: a byte, a capture, a change of case. */
  datatype Element = Literal(c: byte) | Capture(index: nat) | Change(op: Op)

  datatype Parsed = Failed(error: ParseError) | Elements(list: seq<Element>)

  // ---------------------------------------------------------------------------------------
  // The grammar
  // ---------------------------------------------------------------------------------------

  predicate IsDigit(c: byte) {
    48 <= c <= 57
  }

  predicate IsWord(c: byte) {
    IsDigit(c) || 65 <= c <= 90 || 97 <= c <= 122 || c == 95
  }

  function Digit(c: byte): nat
    requires IsDigit(c)
  {
    (c - 48) as nat
  }

  /** The end of the run of word characters that starts at i. */
  function WordEnd(t: seq<byte>, i: nat): (e: nat)
    requires i <= |t|
    ensures i <= e <= |t| && !IsWord(At(t, e))
    decreases |t| - i
  {
    if IsWord(At(t, i)) then WordEnd(t, i + 1) else i
  }

  /** The end of the text before the next closing bracket or NUL. */
  function BracketEnd(t: seq<byte>, i: nat): (e: nat)
    requires i <= |t|
    ensures i <= e <= |t| && (At(t, e) == CLOSE || At(t, e) == 0)
    decreases |t| - i
  {
    if At(t, i) == CLOSE || At(t, i) == 0 then i else BracketEnd(t, i + 1)
  }

  /** The capture number that the word t[i..j] spells, in 64-bit arithmetic; NSNotFound when it is a name. */
  function Number(t: seq<byte>, i: nat, j: nat): nat
    requires i <= j <= |t|
  {
    if i == j then 0
    else if Number(t, i, j - 1) != NOT_FOUND && IsDigit(t[j - 1]) then
      (Number(t, i, j - 1) * 10 + Digit(t[j - 1])) % WORD
    else NOT_FOUND
  }

  datatype ParsedReference = Invalid(error: ParseError) | Valid(index: nat, length: nat)

  /** The capture of an index: it must be one of the regex. */
  function Checked(regex: Regex, index: Option<nat>, length: nat): ParsedReference {
    if index == None then Invalid(NamedCaptureUndefined)
    else if index.value >= regex.captureCount then Invalid(CaptureGreaterThanRegexCaptures)
    else Valid(index.value, length)
  }

  /** The reference whose dollar sign is at i: $d, or ${word}. */
  function ReferenceAt(regex: Regex, t: seq<byte>, i: nat): (r: ParsedReference)
    requires i < |t|
    ensures r.Valid? ==> r.index < regex.captureCount && 2 <= r.length <= |t| - i && t[i + r.length - 1] < 128
  {
    if IsDigit(At(t, i + 1)) then Checked(regex, Some(Digit(t[i + 1])), 2)
    else if At(t, i + 1) != OPEN then Invalid(NotValid)
    else
      var e := WordEnd(t, i + 2);
      if e == i + 2 then Invalid(NotValid)
      else if At(t, e) == CLOSE then
        var n := Number(t, i + 2, e);
        Checked(regex, if n == NOT_FOUND then regex.indexOf(t[i + 2..e]) else Some(n), e + 1 - i)
      else if At(t, BracketEnd(t, e)) == CLOSE then Invalid(NotValid)
      else Invalid(UnbalancedCurlyBrackets)
  }

  /** The case operation that follows a backslash; Stop for none. */
  function CaseEscape(c: byte): Op {
    if c == 117 then UppercaseNextChar else if c == 108 then LowercaseNextChar
    else if c == 85 then UppercaseBegin else if c == 76 then LowercaseBegin
    else if c == 69 then ChangeCaseEnd else Stop
  }

  function Prefixed(list: seq<Element>, rest: Parsed): Parsed {
    if rest.Failed? then rest else Elements(list + rest.list)
  }

  datatype Step = Bad(error: ParseError) | Take(e: Element, length: nat)

  /** The element that starts at i. */
  function ElementAt(regex: Regex, t: seq<byte>, i: nat): (r: Step)
    requires i < |t|
    ensures r.Take? ==> 1 <= r.length <= |t| - i && (r.length > 1 ==> t[i + r.length - 1] < 128)
  {
    if t[i] == DOLLAR && At(t, i + 1) == DOLLAR then Take(Literal(DOLLAR), 2)
    else if t[i] == DOLLAR then
      var r := ReferenceAt(regex, t, i);
      if r.Invalid? then Bad(r.error) else Take(Capture(r.index), r.length)
    else if t[i] == BACKSLASH && IsDigit(At(t, i + 1)) then
      if Digit(t[i + 1]) >= regex.captureCount then Bad(CaptureGreaterThanRegexCaptures)
      else Take(Capture(Digit(t[i + 1])), 2)
    else if t[i] == BACKSLASH && !CaseEscape(At(t, i + 1)).Stop? then Take(Change(CaseEscape(t[i + 1])), 2)
    else Take(Literal(t[i]), 1)
  }

  /** The elements of the template from i on. */
  function Parse(regex: Regex, t: seq<byte>, i: nat): Parsed
    requires i <= |t|
    decreases |t| - i
  {
    if i == |t| then Elements([])
    else match ElementAt(regex, t, i)
      case Bad(error) => Failed(error)
      case Take(e, length) => Prefixed([e], Parse(regex, t, i + length))
  }

  // ---------------------------------------------------------------------------------------
  // Capture numbers
  // ---------------------------------------------------------------------------------------

  /** The value of a decimal numeral. */
  function Decimal(t: seq<byte>, i: nat, j: nat): nat
    requires i <= j <= |t| && forall k :: i <= k < j ==> IsDigit(t[k])
  {
    if i == j then 0 else Decimal(t, i, j - 1) * 10 + Digit(t[j - 1])
  }

  lemma {:induction false} DecimalGrows(t: seq<byte>, i: nat, k: nat, j: nat)
    requires i <= k <= j <= |t| && forall k :: i <= k < j ==> IsDigit(t[k])
    ensures Decimal(t, i, k) <= Decimal(t, i, j)
    decreases j
  {
    if k < j {
      DecimalGrows(t, i, k, j - 1);
    }
  }

  /** A numeral below NSNotFound is read as its value; a word with another character is a name. */
  lemma {:induction false} NumberIsDecimal(t: seq<byte>, i: nat, j: nat)
    requires i <= j <= |t|
    ensures (forall k :: i <= k < j ==> IsDigit(t[k])) && Decimal(t, i, j) < NOT_FOUND ==> Number(t, i, j) == Decimal(t, i, j)
    ensures (exists k :: i <= k < j && !IsDigit(t[k])) ==> Number(t, i, j) == NOT_FOUND
  {
    if i < j {
      NumberIsDecimal(t, i, j - 1);
      if (forall k :: i <= k < j ==> IsDigit(t[k])) && Decimal(t, i, j) < NOT_FOUND {
        DecimalGrows(t, i, j - 1, j);
        assert Number(t, i, j) == (Decimal(t, i, j - 1) * 10 + Digit(t[j - 1])) % WORD;
      }
    }
  }

  // ---------------------------------------------------------------------------------------
  // The parser of references
  // ---------------------------------------------------------------------------------------

  /** Lines 1211-1217: the word in brackets, and the capture number it spells. */
  method ScanWord(t: seq<byte>, from: nat) returns (end: nat, captureIndex: nat)
    requires from <= |t|
    ensures end == WordEnd(t, from) && captureIndex == Number(t, from, end)
  {
    captureIndex, end := 0, from;
    while end < |t| && t[end] != 0 && t[end] != 58 && t[end] != CLOSE
      invariant from <= end <= |t| && WordEnd(t, end) == WordEnd(t, from)
      invariant captureIndex == Number(t, from, end)
      decreases |t| - end
    {
      if captureIndex != NOT_FOUND && IsDigit(t[end]) {
        captureIndex := (captureIndex * 10 + Digit(t[end])) % WORD;
        end := end + 1;
        continue;
      }
      if IsWord(t[end]) {
        captureIndex := NOT_FOUND;
        end := end + 1;
        continue;
      }
      break;
    }
  }

  /** Lines 1237-1246: a word without its bracket is an error, one or the other. */
  method ScanBracket(t: seq<byte>, from: nat) returns (error: ParseError)
    requires from <= |t|
    ensures error == if At(t, BracketEnd(t, from)) == CLOSE then NotValid else UnbalancedCurlyBrackets
  {
    var end := from;
    while end < |t| && t[end] != 0 && t[end] != CLOSE
      invariant from <= end <= |t| && BracketEnd(t, end) == BracketEnd(t, from)
    {
      end := end + 1;
    }
    error := if At(t, end) == CLOSE then NotValid else UnbalancedCurlyBrackets;
  }

  /** RKParseReference with the flags of the compiler: capture names are checked, conversions ignored. */
  method ParseReference(regex: Regex, t: seq<byte>, at: nat) returns (r: ParsedReference)
    requires at < |t| && t[at] == DOLLAR
    ensures r == ReferenceAt(regex, t, at)
  {
    if IsDigit(At(t, at + 1)) {
      return Checked(regex, Some(Digit(t[at + 1])), 2);
    }
    if At(t, at + 1) != OPEN {
      return Invalid(NotValid);
    }
    if IsDigit(At(t, at + 2)) && At(t, at + 3) == CLOSE {
      OneDigit(t, at + 2);
      return Checked(regex, Some(Digit(t[at + 2])), 4);
    }
    var end, captureIndex := ScanWord(t, at + 2);
    if end == at + 2 {
      return Invalid(NotValid);
    }
    if At(t, end) != CLOSE {
      var error := ScanBracket(t, end);
      return Invalid(error);
    }
    var index := if captureIndex == NOT_FOUND then regex.indexOf(t[at + 2..end]) else Some(captureIndex);
    r := Checked(regex, index, end + 1 - at);
  }

  lemma OneDigit(t: seq<byte>, i: nat)
    requires i + 1 < |t| && IsDigit(t[i]) && t[i + 1] == CLOSE
    ensures WordEnd(t, i) == i + 1 && Number(t, i, i + 1) == Digit(t[i])
  {
    assert WordEnd(t, i + 1) == i + 1;
    assert Number(t, i, i) == 0;
  }

  // ---------------------------------------------------------------------------------------
  // The compiler
  // ---------------------------------------------------------------------------------------

  /** The bytes t[i..j] as elements. */
  ghost function Literals(t: seq<byte>, i: nat, j: nat): (list: seq<Element>)
    requires i <= j <= |t|
    ensures |list| == j - i
  {
    if i == j then [] else Literals(t, i, j - 1) + [Literal(t[j - 1])]
  }

  /** The elements that an instruction compiled from t stands for. */
  ghost function ElementsOf(t: seq<byte>, r: Reference): seq<Element> {
    match r.op
    case Stop => []
    case CopyRange => if r.range.Max() <= |t| then Literals(t, r.range.location, r.range.Max()) else []
    case CopyCaptureIndex => [Capture(r.range.location)]
    case _ => [Change(r.op)]
  }

  /** The elements that the first k instructions stand for. */
  ghost function Decoded(t: seq<byte>, list: seq<Reference>, k: nat): seq<Element>
    requires k <= |list|
  {
    if k == 0 then [] else Decoded(t, list, k - 1) + ElementsOf(t, list[k - 1])
  }

  lemma {:induction false} DecodedPrefix(t: seq<byte>, a: seq<Reference>, b: seq<Reference>, k: nat)
    requires k <= |a| && k <= |b| && forall i :: 0 <= i < k ==> a[i] == b[i]
    ensures Decoded(t, a, k) == Decoded(t, b, k)
  {
    if k > 0 {
      DecodedPrefix(t, a, b, k - 1);
    }
  }

  lemma DecodedSnoc(t: seq<byte>, list: seq<Reference>, r: Reference)
    ensures Decoded(t, list + [r], |list| + 1) == Decoded(t, list, |list|) + ElementsOf(t, r)
  {
    DecodedPrefix(t, list, list + [r], |list|);
  }

  /** The byte at i is consistent with well-formed UTF-8: no trail byte follows an ASCII byte, and a
      character is followed by its trail bytes. */
  ghost predicate CharacterAt(t: seq<byte>, i: nat)
    requires i < |t|
  {
    && (i == 0 || t[i - 1] < 128 ==> !Unicode.IsTrail(t[i]))
    && (!Unicode.IsTrail(t[i]) ==>
          && i + Unicode.LengthOfCharacter(t[i]) <= |t|
          && forall j :: i < j < i + Unicode.LengthOfCharacter(t[i]) ==> Unicode.IsTrail(t[j]))
  }

  /** A text of well-formed UTF-8, as far as this model needs to know: it consists of whole characters. */
  ghost predicate WholeCharacters(t: seq<byte>) {
    forall i {:trigger CharacterAt(t, i)} :: 0 <= i < |t| ==> CharacterAt(t, i)
  }

  /** An instruction of a compiled template: it copies whole characters of the template, or a capture of the regex. */
  ghost predicate GoodInstruction(regex: Regex, t: seq<byte>, base: nat, r: Reference) {
    match r.op
    case Stop => false
    case CopyRange => r.ptr == base && 0 < r.range.length && r.range.Max() <= |t|
                      && Unicode.LengthOfCharacter(t[r.range.location]) <= r.range.length
    case CopyCaptureIndex => r.range.location < regex.captureCount
    case CopyCaptureName => false
    case _ => IsCase(r.op)
  }

  ghost predicate GoodInstructions(regex: Regex, t: seq<byte>, base: nat, list: seq<Reference>) {
    forall i :: 0 <= i < |list| ==> GoodInstruction(regex, t, base, list[i])
  }

  /** A run that starts with a character and stops at an ASCII byte or the end holds the whole character. */
  lemma RunIsWhole(t: seq<byte>, i: nat, j: nat)
    requires WholeCharacters(t) && i < j <= |t| && !Unicode.IsTrail(t[i])
    requires j == |t| || t[j] < 128
    ensures Unicode.LengthOfCharacter(t[i]) <= j - i
  {
    assert CharacterAt(t, i) && (j < |t| ==> !Unicode.IsTrail(t[j]));
  }

  /** The run before an ASCII byte, with or without that byte. */
  lemma RunBefore(t: seq<byte>, start: nat, at: nat)
    requires WholeCharacters(t) && start <= at < |t| && t[at] < 128 && !Unicode.IsTrail(t[start])
    ensures Unicode.LengthOfCharacter(t[start]) <= at + 1 - start
    ensures start < at ==> Unicode.LengthOfCharacter(t[start]) <= at - start
  {
    if start < at {
      RunIsWhole(t, start, at);
    }
  }

  lemma AfterAscii(t: seq<byte>, i: nat)
    requires WholeCharacters(t) && i < |t| && t[i] < 128
    ensures i + 1 < |t| ==> !Unicode.IsTrail(t[i + 1])
  {
    assert i + 1 < |t| ==> CharacterAt(t, i + 1);
  }

  lemma PrefixedTwice(a: seq<Element>, b: seq<Element>, rest: Parsed)
    ensures Prefixed(a, Prefixed(b, rest)) == Prefixed(a + b, rest)
  {
    if rest.Elements? {
      Associate(a, b, rest.list);
    }
  }

  /** Lines 1036-1057: the instruction for the element that starts with the backslash, if it is not just a byte. */
  method ParseEscape(regex: Regex, t: seq<byte>, at: nat) returns (appendOp: Op, location: nat, error: Option<ParseError>)
    requires at < |t| && t[at] == BACKSLASH
    ensures error.Some? ==> ElementAt(regex, t, at) == Bad(error.value)
    ensures error == None && appendOp.Stop? ==> ElementAt(regex, t, at) == Take(Literal(BACKSLASH), 1)
    ensures error == None && !appendOp.Stop? ==>
              && ElementAt(regex, t, at).Take? && !ElementAt(regex, t, at).e.Literal? && ElementAt(regex, t, at).length == 2
              && ElementsOf(t, Reference(appendOp, 0, Range(location, 0))) == [ElementAt(regex, t, at).e]
              && (!appendOp.CopyCaptureIndex? ==> location == 0)
  {
    var nextChar := At(t, at + 1);
    appendOp, location, error := Stop, 0, None;
    if IsDigit(nextChar) {
      appendOp, location := CopyCaptureIndex, Digit(nextChar);
      if location >= regex.captureCount {
        error := Some(CaptureGreaterThanRegexCaptures);
      }
    } else {
      appendOp := CaseEscape(nextChar);
    }
  }

  /** What the buffer, the run of literal bytes not yet appended, and the rest of the template stand for. */
  ghost function Pending(regex: Regex, t: seq<byte>, list: seq<Reference>, start: nat, at: nat): Parsed
    requires start <= at <= |t|
  {
    Prefixed(Decoded(t, list, |list|) + Literals(t, start, at), Parse(regex, t, at))
  }

  /** The instruction for the run t[start..end], if it is not empty. */
  function RunOf(base: nat, start: nat, end: nat): seq<Reference>
    requires start <= end
  {
    if start == end then [] else [Reference(CopyRange, base, Range(start, end - start))]
  }

  /** The instructions for a run and the element behind it: the dollar sign of $$ joins the run. */
  function InstructionsFor(base: nat, start: nat, at: nat, e: Element): seq<Reference>
    requires start <= at
  {
    match e
    case Literal(_) => RunOf(base, start, at + 1)
    case Capture(index) => RunOf(base, start, at) + [Reference(CopyCaptureIndex, 0, Range(index, 0))]
    case Change(op) => RunOf(base, start, at) + [Reference(op, 0, Range(0, 0))]
  }

  /** The last instruction of a template. */
  const STOP := Reference(Stop, 0, Range(NOT_FOUND, 0))

  /** The byte at this place just joins the run. */
  predicate JoinsRun(regex: Regex, t: seq<byte>, at: nat)
    requires at < |t|
  {
    ElementAt(regex, t, at) == Take(Literal(t[at]), 1)
  }

  /** The instructions for the template from here on, with a run of literal bytes since start. */
  function InstructionsFrom(regex: Regex, t: seq<byte>, base: nat, start: nat, at: nat): seq<Reference>
    requires start <= at <= |t|
    decreases |t| - at
  {
    if at == |t| then RunOf(base, start, at) + [STOP]
    else match ElementAt(regex, t, at)
      case Bad(_) => []
      case Take(e, length) =>
        if JoinsRun(regex, t, at) then InstructionsFrom(regex, t, base, start, at + 1)
        else InstructionsFor(base, start, at, e) + InstructionsFrom(regex, t, base, at + length, at + length)
  }

  /** The instructions for a template at address base. */
  function InstructionsOf(regex: Regex, t: seq<byte>, base: nat): seq<Reference> {
    InstructionsFrom(regex, t, base, 0, 0)
  }

  lemma RunDecodes(t: seq<byte>, base: nat, list: seq<Reference>, start: nat, end: nat)
    requires start <= end <= |t|
    ensures var longer := list + RunOf(base, start, end);
            Decoded(t, longer, |longer|) == Decoded(t, list, |list|) + Literals(t, start, end)
  {
    if start == end {
      assert list + [] == list;
      assert Decoded(t, list, |list|) + [] == Decoded(t, list, |list|);
    } else {
      DecodedSnoc(t, list, Reference(CopyRange, base, Range(start, end - start)));
    }
  }

  lemma RunIsGood(regex: Regex, t: seq<byte>, base: nat, list: seq<Reference>, start: nat, end: nat)
    requires start <= end <= |t| && GoodInstructions(regex, t, base, list)
    requires start < end ==> Unicode.LengthOfCharacter(t[start]) <= end - start
    ensures GoodInstructions(regex, t, base, list + RunOf(base, start, end))
  {
  }

  lemma RunAndOneDecode(t: seq<byte>, base: nat, list: seq<Reference>, start: nat, at: nat, r: Reference)
    requires start <= at <= |t|
    ensures var longer := list + (RunOf(base, start, at) + [r]);
            Decoded(t, longer, |longer|) == Decoded(t, list, |list|) + Literals(t, start, at) + ElementsOf(t, r)
  {
    var run := list + RunOf(base, start, at);
    RunDecodes(t, base, list, start, at);
    DecodedSnoc(t, run, r);
    Associate(list, RunOf(base, start, at), [r]);
  }

  lemma LiteralDecodes(t: seq<byte>, base: nat, list: seq<Reference>, start: nat, at: nat)
    requires start <= at < |t|
    ensures var longer := list + RunOf(base, start, at + 1);
            Decoded(t, longer, |longer|) == Decoded(t, list, |list|) + Literals(t, start, at) + [Literal(t[at])]
  {
    var before := Decoded(t, list, |list|);
    RunDecodes(t, base, list, start, at + 1);
    Associate(before, Literals(t, start, at), [Literal(t[at])]);
  }

  /** What a run and an element decode to. */
  lemma CompiledDecodes(t: seq<byte>, base: nat, list: seq<Reference>, start: nat, at: nat, e: Element)
    requires start <= at < |t| && (e.Literal? ==> e.c == t[at]) && (e.Change? ==> IsCase(e.op))
    ensures var longer := list + InstructionsFor(base, start, at, e);
            Decoded(t, longer, |longer|) == Decoded(t, list, |list|) + Literals(t, start, at) + [e]
  {
    match e
    case Literal(_) => LiteralDecodes(t, base, list, start, at);
    case Capture(index) => RunAndOneDecode(t, base, list, start, at, Reference(CopyCaptureIndex, 0, Range(index, 0)));
    case Change(op) => RunAndOneDecode(t, base, list, start, at, Reference(op, 0, Range(0, 0)));
  }

  lemma CompiledIsGood(regex: Regex, t: seq<byte>, base: nat, list: seq<Reference>, start: nat, at: nat, e: Element)
    requires start <= at < |t| && GoodInstructions(regex, t, base, list) && (e.Change? ==> IsCase(e.op))
    requires e.Capture? ==> e.index < regex.captureCount
    requires WholeCharacters(t) && t[at] < 128 && !Unicode.IsTrail(t[start])
    ensures GoodInstructions(regex, t, base, list + InstructionsFor(base, start, at, e))
  {
    RunBefore(t, start, at);
  }

  /** An element taken from the template and appended with the run before it. */
  lemma Consumed(before: seq<Element>, run: seq<Element>, e: Element, decoded: seq<Element>, empty: seq<Element>, rest: Parsed)
    requires decoded == before + run + [e] && |empty| == 0
    ensures Prefixed(decoded + empty, rest) == Prefixed(before + run, Prefixed([e], rest))
  {
    PrefixedTwice(before + run, [e], rest);
    assert decoded + empty == decoded;
  }

  /** An element of a dollar sign or a backslash: appended, it stands for the same template. */
  lemma ConsumedStep(regex: Regex, t: seq<byte>, base: nat, list: seq<Reference>, start: nat, at: nat)
    requires start <= at < |t| && ElementAt(regex, t, at).Take?
    requires t[at] == DOLLAR || (t[at] == BACKSLASH && !ElementAt(regex, t, at).e.Literal?)
    ensures var taken := ElementAt(regex, t, at);
            Pending(regex, t, list + InstructionsFor(base, start, at, taken.e), at + taken.length, at + taken.length)
            == Pending(regex, t, list, start, at)
  {
    var taken := ElementAt(regex, t, at);
    var longer, next := list + InstructionsFor(base, start, at, taken.e), at + taken.length;
    CompiledDecodes(t, base, list, start, at, taken.e);
    Consumed(Decoded(t, list, |list|), Literals(t, start, at), taken.e,
             Decoded(t, longer, |longer|), Literals(t, next, next), Parse(regex, t, next));
  }

  /** A literal byte joins the run. */
  lemma Joined(regex: Regex, t: seq<byte>, list: seq<Reference>, start: nat, at: nat)
    requires start <= at < |t| && ElementAt(regex, t, at) == Take(Literal(t[at]), 1)
    ensures Pending(regex, t, list, start, at + 1) == Pending(regex, t, list, start, at)
  {
    Associate(Decoded(t, list, |list|), Literals(t, start, at), [Literal(t[at])]);
    PrefixedTwice(Decoded(t, list, |list|) + Literals(t, start, at), [Literal(t[at])], Parse(regex, t, at + 1));
  }

  /** The byte at this place joins the run, with next left where it is; or the run and the instruction for the
      element that starts here are appended, and next is behind it. */
  ghost predicate Advanced(regex: Regex, t: seq<byte>, base: nat, list: seq<Reference>, start: nat, at: nat, longer: seq<Reference>, next: nat)
    requires start <= at < |t|
  {
    if next == at then JoinsRun(regex, t, at) && longer == list
    else
      && ElementAt(regex, t, at).Take? && next == at + ElementAt(regex, t, at).length
      && (t[at] == DOLLAR || (t[at] == BACKSLASH && !ElementAt(regex, t, at).e.Literal?))
      && longer == list + InstructionsFor(base, start, at, ElementAt(regex, t, at).e)
  }

  /** A dollar sign, at the start of $$ or of a reference. */
  method CompileDollar(regex: Regex, t: seq<byte>, base: nat, buffer: InstructionsBuffer<Reference>, start: nat, at: nat)
    returns (next: nat, error: Option<ParseError>)
    requires buffer.Valid() && start <= at < |t| && t[at] == DOLLAR
    modifies buffer
    ensures error.Some? ==> ElementAt(regex, t, at) == Bad(error.value)
    ensures error == None ==> buffer.Valid() && Advanced(regex, t, base, old(buffer.log), start, at, buffer.log, next)
  {
    ghost var list := buffer.log;
    next, error := at, None;
    if At(t, at + 1) == DOLLAR {
      AppendInstruction(buffer, CopyRange, base, Range(start, at + 1 - start));
      next := at + 2;
    } else {
      var r := ParseReference(regex, t, at);
      if r.Invalid? {
        error := Some(r.error);
        return;
      }
      AppendInstruction(buffer, CopyRange, base, Range(start, at - start));
      AppendInstruction(buffer, CopyCaptureIndex, 0, Range(r.index, 0));
      next := at + r.length;
      Associate(list, RunOf(base, start, at), [Reference(CopyCaptureIndex, 0, Range(r.index, 0))]);
    }
  }

  /** A backslash that starts a capture or a case operation; next is at for one that does not. */
  method CompileBackslash(regex: Regex, t: seq<byte>, base: nat, buffer: InstructionsBuffer<Reference>, start: nat, at: nat)
    returns (next: nat, error: Option<ParseError>)
    requires buffer.Valid() && start <= at < |t| && t[at] == BACKSLASH
    modifies buffer
    ensures error.Some? ==> ElementAt(regex, t, at) == Bad(error.value)
    ensures error == None ==> buffer.Valid() && Advanced(regex, t, base, old(buffer.log), start, at, buffer.log, next)
  {
    ghost var list := buffer.log;
    next := at;
    var appendOp, location;
    appendOp, location, error := ParseEscape(regex, t, at);
    if error == None && appendOp != Stop {
      AppendInstruction(buffer, CopyRange, base, Range(start, at - start));
      AppendInstruction(buffer, appendOp, 0, Range(location, 0));
      next := at + 2;
      Associate(list, RunOf(base, start, at), [Reference(appendOp, 0, Range(location, 0))]);
    }
  }

  /** The run that has not been appended starts with a character, and there are no more instructions than bytes before it. */
  ghost predicate Scanning(regex: Regex, t: seq<byte>, base: nat, list: seq<Reference>, start: nat, at: nat) {
    && GoodInstructions(regex, t, base, list)
    && |list| <= start <= at <= |t| && (start < |t| ==> !Unicode.IsTrail(t[start]))
  }

  /** The state of the compiler between two elements. */
  ghost predicate Compiling(regex: Regex, t: seq<byte>, base: nat, list: seq<Reference>, start: nat, at: nat, whole: Parsed) {
    && Scanning(regex, t, base, list, start, at)
    && Pending(regex, t, list, start, at) == whole
    && list + InstructionsFrom(regex, t, base, start, at) == InstructionsOf(regex, t, base)
  }

  lemma CompilingStarts(regex: Regex, t: seq<byte>, base: nat)
    requires WholeCharacters(t)
    ensures Compiling(regex, t, base, [], 0, 0, Parse(regex, t, 0))
  {
    assert t != [] ==> CharacterAt(t, 0);
    assert Decoded(t, [], 0) + Literals(t, 0, 0) == [];
    assert [] + InstructionsOf(regex, t, base) == InstructionsOf(regex, t, base);
    PrefixedByNothing(Parse(regex, t, 0));
  }

  /** The instructions of an element that is taken, with those of the rest behind them. */
  lemma TakesInstructions(regex: Regex, t: seq<byte>, base: nat, list: seq<Reference>, start: nat, at: nat)
    requires start <= at < |t| && ElementAt(regex, t, at).Take? && !JoinsRun(regex, t, at)
    ensures var taken := ElementAt(regex, t, at);
            list + InstructionsFrom(regex, t, base, start, at) ==
            list + InstructionsFor(base, start, at, taken.e) + InstructionsFrom(regex, t, base, at + taken.length, at + taken.length)
  {
    var taken := ElementAt(regex, t, at);
    Associate(list, InstructionsFor(base, start, at, taken.e), InstructionsFrom(regex, t, base, at + taken.length, at + taken.length));
  }

  /** An element that starts with a dollar sign or a backslash ends in an ASCII byte, and has, with the run before it,
      no fewer bytes than instructions. */
  lemma ElementLength(regex: Regex, t: seq<byte>, base: nat, start: nat, at: nat)
    requires start <= at < |t| && ElementAt(regex, t, at).Take?
    requires t[at] == DOLLAR || (t[at] == BACKSLASH && !ElementAt(regex, t, at).e.Literal?)
    ensures var taken := ElementAt(regex, t, at);
            && 2 <= taken.length <= |t| - at && t[at + taken.length - 1] < 128 && t[at] < 128
            && |InstructionsFor(base, start, at, taken.e)| <= at + taken.length - start
            && (taken.e.Change? ==> IsCase(taken.e.op)) && (taken.e.Capture? ==> taken.e.index < regex.captureCount)
  {
  }

  lemma ScanningTakes(regex: Regex, t: seq<byte>, base: nat, list: seq<Reference>, start: nat, at: nat)
    requires Scanning(regex, t, base, list, start, at) && WholeCharacters(t)
    requires at < |t| && ElementAt(regex, t, at).Take?
    requires t[at] == DOLLAR || (t[at] == BACKSLASH && !ElementAt(regex, t, at).e.Literal?)
    ensures var taken := ElementAt(regex, t, at);
            Scanning(regex, t, base, list + InstructionsFor(base, start, at, taken.e), at + taken.length, at + taken.length)
  {
    var taken := ElementAt(regex, t, at);
    ElementLength(regex, t, base, start, at);
    CompiledIsGood(regex, t, base, list, start, at, taken.e);
    AfterAscii(t, at + taken.length - 1);
  }

  lemma CompilingTakes(regex: Regex, t: seq<byte>, base: nat, list: seq<Reference>, start: nat, at: nat, whole: Parsed)
    requires Compiling(regex, t, base, list, start, at, whole) && WholeCharacters(t)
    requires at < |t| && ElementAt(regex, t, at).Take?
    requires t[at] == DOLLAR || (t[at] == BACKSLASH && !ElementAt(regex, t, at).e.Literal?)
    ensures var taken := ElementAt(regex, t, at);
            Compiling(regex, t, base, list + InstructionsFor(base, start, at, taken.e), at + taken.length, at + taken.length, whole)
  {
    ScanningTakes(regex, t, base, list, start, at);
    ConsumedStep(regex, t, base, list, start, at);
    TakesInstructions(regex, t, base, list, start, at);
  }

  lemma CompilingJoins(regex: Regex, t: seq<byte>, base: nat, list: seq<Reference>, start: nat, at: nat, whole: Parsed)
    requires Compiling(regex, t, base, list, start, at, whole)
    requires at < |t| && ElementAt(regex, t, at) == Take(Literal(t[at]), 1)
    ensures Compiling(regex, t, base, list, start, at + 1, whole)
  {
    Joined(regex, t, list, start, at);
  }

  lemma CompilingAdvances(regex: Regex, t: seq<byte>, base: nat, list: seq<Reference>, start: nat, at: nat, whole: Parsed,
                          longer: seq<Reference>, next: nat)
    requires Compiling(regex, t, base, list, start, at, whole) && WholeCharacters(t)
    requires at < |t| && Advanced(regex, t, base, list, start, at, longer, next)
    ensures if next == at then Compiling(regex, t, base, longer, start, at + 1, whole)
            else at < next && Compiling(regex, t, base, longer, next, next, whole)
  {
    if next == at {
      CompilingJoins(regex, t, base, list, start, at, whole);
    } else {
      CompilingTakes(regex, t, base, list, start, at, whole);
    }
  }

  lemma CompilingFails(regex: Regex, t: seq<byte>, base: nat, list: seq<Reference>, start: nat, at: nat, whole: Parsed)
    requires Compiling(regex, t, base, list, start, at, whole) && at < |t| && ElementAt(regex, t, at).Bad?
    ensures whole == Failed(ElementAt(regex, t, at).error)
  {
  }

  lemma PlainByte(regex: Regex, t: seq<byte>, at: nat)
    requires at < |t| && t[at] != DOLLAR && t[at] != BACKSLASH
    ensures ElementAt(regex, t, at) == Take(Literal(t[at]), 1)
  {
  }

  /** What a finished buffer holds: the instructions of the template, which stand for these elements, with one
      Stop at the end and besides it no more than the template has bytes. */
  ghost predicate Finished(regex: Regex, t: seq<byte>, base: nat, list: seq<Reference>, elements: seq<Element>) {
    && 0 < |list| <= |t| + 1 && list[|list| - 1].op.Stop?
    && (forall i :: 0 <= i < |list| - 1 ==> GoodInstruction(regex, t, base, list[i]))
    && Decoded(t, list, |list|) == elements && list == InstructionsOf(regex, t, base)
  }

  lemma CompilingEnds(regex: Regex, t: seq<byte>, base: nat, list: seq<Reference>, start: nat, whole: Parsed)
    requires Compiling(regex, t, base, list, start, |t|, whole) && WholeCharacters(t)
    ensures whole.Elements? && Finished(regex, t, base, list + RunOf(base, start, |t|) + [STOP], whole.list)
  {
    if start < |t| {
      RunIsWhole(t, start, |t|);
    }
    var all := list + RunOf(base, start, |t|);
    RunIsGood(regex, t, base, list, start, |t|);
    RunDecodes(t, base, list, start, |t|);
    DecodedSnoc(t, all, STOP);
    Associate(list, RunOf(base, start, |t|), [STOP]);
    assert Decoded(t, all, |all|) + [] == Decoded(t, all, |all|);
  }

  lemma PrefixedByNothing(p: Parsed)
    ensures Prefixed([], p) == p
  {
    assert p.Elements? ==> [] + p.list == p.list;
  }

  /** One iteration of the compiler's loop: start is the beginning of the run of literal bytes. */
  method CompileOne(regex: Regex, t: seq<byte>, base: nat, buffer: InstructionsBuffer<Reference>, start: nat, at: nat, ghost whole: Parsed)
    returns (run: nat, next: nat, error: Option<ParseError>)
    requires WholeCharacters(t) && at < |t|
    requires buffer.Valid() && Compiling(regex, t, base, buffer.log, start, at, whole)
    modifies buffer
    ensures error.Some? ==> whole == Failed(error.value)
    ensures error == None ==> at < next && buffer.Valid() && Compiling(regex, t, base, buffer.log, run, next, whole)
  {
    ghost var list := buffer.log;
    run := start;
    if t[at] == DOLLAR {
      next, error := CompileDollar(regex, t, base, buffer, start, at);
    } else if t[at] == BACKSLASH {
      next, error := CompileBackslash(regex, t, base, buffer, start, at);
    } else {
      next, error := at, None;
      PlainByte(regex, t, at);
    }
    if error.Some? {
      CompilingFails(regex, t, base, list, start, at, whole);
      return;
    }
    CompilingAdvances(regex, t, base, list, start, at, whole, buffer.log, next);
    if next != at {
      run := next;
    } else {
      next := at + 1;
    }
  }

  /** RKCompileReferenceStringX for a template at address base: it fails where the grammar does, and else
      the instructions stand for the elements of the template, with one Stop at the end. */
  method Compile(regex: Regex, t: seq<byte>, base: nat, buffer: InstructionsBuffer<Reference>) returns (error: Option<ParseError>)
    requires buffer.Valid() && buffer.log == [] && WholeCharacters(t)
    modifies buffer
    ensures error.Some? ==> Parse(regex, t, 0) == Failed(error.value)
    ensures error == None ==> Parse(regex, t, 0).Elements? && buffer.Valid()
                              && Finished(regex, t, base, buffer.log, Parse(regex, t, 0).list)
  {
    var start: nat, at: nat := 0, 0;
    ghost var whole := Parse(regex, t, 0);
    CompilingStarts(regex, t, base);
    while at < |t|
      invariant buffer.Valid() && Compiling(regex, t, base, buffer.log, start, at, whole)
      decreases |t| - at
    {
      start, at, error := CompileOne(regex, t, base, buffer, start, at, whole);
      if error.Some? {
        return;
      }
    }
    CompilingEnds(regex, t, base, buffer.log, start, whole);
    AppendInstruction(buffer, CopyRange, base, Range(start, at - start));
    AppendInstruction(buffer, Stop, 0, Range(NOT_FOUND, 0));
    error := None;
  }
}
