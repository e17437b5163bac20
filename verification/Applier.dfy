/**
 RKApplyReferenceInstructions (Source/NSString.m:890-985): the loop that runs the compiled template for
 one match, appending copy instructions and placing converted text in memory.
 */
module Applier {
  import opened Base
  import opened Instructions
  import opened CaseExpansion
  import Unicode

  /** The memory that instructions point into: texts placed in it stay where they are. */
  class Memory {
    var bytes: seq<byte>

    constructor (bytes: seq<byte>)
      ensures this.bytes == bytes
    {
      this.bytes := bytes;
    }

    /** A C string of its own: the text and a terminator. */
    method Place(text: seq<byte>) returns (ptr: nat)
      modifies this
      ensures ptr == |old(bytes)| && bytes == old(bytes) + (text + [0])
    {
      ptr := |bytes|;
      bytes := bytes + (text + [0]);
    }
  }

  /** A match: where the subject lies, its length, and the ranges of the captures. A capture that did not
      take part has length zero. */
  datatype Match = Match(subject: nat, length: nat, ranges: seq<Range>)

  ghost predicate Fits(mem: seq<byte>, x: Match) {
    && x.subject + x.length <= |mem|
    && forall i :: 0 <= i < |x.ranges| && x.ranges[i].length > 0 ==> x.ranges[i].Max() <= x.length
  }

  /** A compiled template: copies, case operations, and one Stop at the end. */
  ghost predicate Executable(mem: seq<byte>, x: Match, list: seq<Reference>) {
    && list != [] && list[|list| - 1].op.Stop?
    && forall i :: 0 <= i < |list| - 1 ==>
         match list[i].op
         case CopyRange => list[i].ptr + list[i].range.Max() <= |mem|
         case CopyCaptureIndex => list[i].range.location < |x.ranges|
         case _ => IsCase(list[i].op)
  }

  /** The bytes or the case operation that an instruction stands for. */
  ghost function PartOf(mem: seq<byte>, x: Match, r: Reference): Part {
    if r.op.CopyRange? then Text(Piece(mem, r.ptr + r.range.location, r.range.length))
    else if r.op.CopyCaptureIndex? && r.range.location < |x.ranges| then
      var range := x.ranges[r.range.location];
      Text(Piece(mem, x.subject + range.location, range.length))
    else Case(r.op)
  }

  ghost function Parts(mem: seq<byte>, x: Match, list: seq<Reference>): (parts: seq<Part>)
    requires list != []
    ensures |parts| == |list| - 1
  {
    seq(|list| - 1, i requires 0 <= i < |list| - 1 => PartOf(mem, x, list[i]))
  }

  /** Appending a piece of memory adds its bytes. */
  method EmitPiece(memory: Memory, copies: CopyInstructionsBuffer, ptr: nat, range: Range)
    requires copies.Valid() && InMemory(memory.bytes, copies.Log())
    requires range.length > 0 ==> ptr + range.Max() <= |memory.bytes|
    modifies copies, copies.cells
    ensures copies.Valid() && InMemory(memory.bytes, copies.Log())
    ensures Flatten(memory.bytes, copies.Log()) ==
            old(Flatten(memory.bytes, copies.Log())) + Piece(memory.bytes, ptr + range.location, range.length)
    ensures copies.Log() == Coalesced(old(copies.Log()), ptr + range.location, range.length)
    ensures |copies.Log()| <= |old(copies.Log())| + 1
  {
    CoalescedKeepsText(memory.bytes, copies.Log(), ptr + range.location, range.length);
    CoalescedInMemory(memory.bytes, copies.Log(), ptr + range.location, range.length);
    copies.Append(ptr, range);
  }

  lemma BehindPrefix(a: seq<byte>, b: seq<byte>, c: seq<byte>)
    ensures (a + (b + c))[|a|..|a| + |b|] == b
  {
    assert (a + (b + c))[|a|..] == b + c;
  }

  lemma PlacedPiece(mem: seq<byte>, text: seq<byte>, longer: seq<byte>)
    requires longer == mem + (text + [0])
    ensures Piece(longer, |mem|, |text|) == text
  {
    BehindPrefix(mem, text, [0]);
    PieceIsSlice(longer, |mem|, |text|);
  }

  /** Lines 950-956 and 967-971: a text is converted, placed in memory, and appended up to its first NUL. */
  method EmitConverted(m: CaseMap, op: Op, text: seq<byte>, memory: Memory, copies: CopyInstructionsBuffer)
    requires copies.Valid() && InMemory(memory.bytes, copies.Log())
    modifies memory, copies, copies.cells
    ensures copies.Valid() && old(memory.bytes) <= memory.bytes && InMemory(memory.bytes, copies.Log())
    ensures Flatten(memory.bytes, copies.Log()) == old(Flatten(memory.bytes, copies.Log())) + Convert(m, op, text)
    ensures |copies.Log()| <= |old(copies.Log())| + 1
  {
    var converted := Convert(m, op, text);
    ghost var mem, log := memory.bytes, copies.Log();
    var ptr := memory.Place(converted);
    TextInLongerMemory(mem, memory.bytes, log, |log|);
    PlacedPiece(mem, converted, memory.bytes);
    EmitPiece(memory, copies, ptr, Range(0, |converted|));
  }

  /** Lines 946-957: the text collected for a span is converted and appended. */
  method EmitSpan(m: CaseMap, op: Op, conversionString: seq<byte>, memory: Memory, copies: CopyInstructionsBuffer)
    returns (ghost emitted: seq<byte>)
    requires copies.Valid() && InMemory(memory.bytes, copies.Log()) && IsSpan(op)
    modifies memory, copies, copies.cells
    ensures copies.Valid() && old(memory.bytes) <= memory.bytes && InMemory(memory.bytes, copies.Log())
    ensures emitted == Finish(m, op, conversionString)
    ensures Flatten(memory.bytes, copies.Log()) == old(Flatten(memory.bytes, copies.Log())) + emitted
    ensures |copies.Log()| <= |old(copies.Log())| + 1
  {
    emitted := [];
    NothingAdded(Flatten(memory.bytes, copies.Log()), []);
    if conversionString != [] {
      EmitConverted(m, op, conversionString, memory, copies);
      emitted := Convert(m, op, conversionString);
    }
  }

  /** One iteration of the loop (lines 924-979) for an instruction that is not Stop: thisOp is its case
      operation, or Stop for a copy of the given piece. */
  method ApplyOne(m: CaseMap, memory: Memory, copies: CopyInstructionsBuffer, thisOp: Op, fromPtr: nat, fromRange: Range,
                  current: Op, pending: seq<byte>, ghost parts: seq<Part>, ghost k: nat)
    returns (currentOp: Op, conversionString: seq<byte>, raised: bool, ghost emitted: seq<byte>)
    requires copies.Valid() && InMemory(memory.bytes, copies.Log())
    requires fromRange.length > 0 ==> fromPtr + fromRange.Max() <= |memory.bytes|
    requires k < |parts| && WellFormed(parts) && (current.Stop? || IsSpan(current) || IsNext(current))
    requires thisOp.Stop? ==> parts[k] == Text(Piece(memory.bytes, fromPtr + fromRange.location, fromRange.length))
    requires !thisOp.Stop? ==> parts[k] == Case(thisOp) && fromRange.length == 0
    modifies memory, copies, copies.cells
    ensures copies.Valid() && old(memory.bytes) <= memory.bytes && InMemory(memory.bytes, copies.Log())
    ensures Flatten(memory.bytes, copies.Log()) == old(Flatten(memory.bytes, copies.Log())) + emitted
    ensures |copies.Log()| <= |old(copies.Log())| + 2
    ensures currentOp.Stop? || IsSpan(currentOp) || IsNext(currentOp)
    ensures thisOp.Stop? && current.Stop? ==>
              && copies.Log() == Coalesced(old(copies.Log()), fromPtr + fromRange.location, fromRange.length)
              && memory.bytes == old(memory.bytes) && currentOp.Stop? && conversionString == pending && !raised
    ensures Apply(m, parts, k, current, pending) ==
            if raised then Raised else Before(emitted, Apply(m, parts, k + 1, currentOp, conversionString))
  {
    currentOp, conversionString, raised, emitted := current, pending, false, [];
    NothingAdded(Flatten(memory.bytes, copies.Log()), []);
    NothingBefore(Apply(m, parts, k + 1, Stop, pending));
    if currentOp == Stop && thisOp == ChangeCaseEnd {
      return;
    }
    if thisOp == ChangeCaseEnd && (IsNext(currentOp) || IsSpan(currentOp)) && conversionString == [] {
      currentOp := Stop;
      return;
    }
    if currentOp == Stop && thisOp == Stop && fromRange.length > 0 {
      emitted := parts[k].bytes;
      EmitPiece(memory, copies, fromPtr, fromRange);
      return;
    }
    if IsSpan(currentOp) && thisOp == Stop && fromRange.length > 0 {
      PieceIsSlice(memory.bytes, fromPtr + fromRange.location, fromRange.length);
      conversionString := conversionString + memory.bytes[fromPtr + fromRange.location..fromPtr + fromRange.Max()];
      NothingBefore(Apply(m, parts, k + 1, currentOp, conversionString));
      return;
    }
    if IsSpan(currentOp) && thisOp != currentOp && thisOp != Stop {
      emitted := EmitSpan(m, currentOp, conversionString, memory, copies);
      conversionString := [];
      currentOp := Stop;
      if thisOp == ChangeCaseEnd {
        return;
      }
    }
    if IsNext(currentOp) && thisOp == Stop && fromRange.length > 0 {
      emitted := EmitNext(m, currentOp, memory, copies, fromPtr, fromRange);
      currentOp := Stop;
      return;
    }
    if thisOp == ChangeCaseEnd {
      raised := true;
      return;
    }
    currentOp := thisOp;
    NothingBefore(Apply(m, parts, k + 1, currentOp, conversionString));
  }

  lemma NothingBefore(o: Outcome)
    ensures Before([], o) == o
  {
    assert o.Emitted? ==> [] + o.bytes == o.bytes;
  }

  /** Lines 961-976: the first character of a piece is converted, the rest copied. */
  method EmitNext(m: CaseMap, op: Op, memory: Memory, copies: CopyInstructionsBuffer, fromPtr: nat, fromRange: Range)
    returns (ghost emitted: seq<byte>)
    requires copies.Valid() && InMemory(memory.bytes, copies.Log()) && IsNext(op)
    requires fromRange.length > 0 && fromPtr + fromRange.Max() <= |memory.bytes|
    requires Whole(Piece(memory.bytes, fromPtr + fromRange.location, fromRange.length))
    modifies memory, copies, copies.cells
    ensures copies.Valid() && old(memory.bytes) <= memory.bytes && InMemory(memory.bytes, copies.Log())
    ensures emitted == Finish(m, op, old(Piece(memory.bytes, fromPtr + fromRange.location, fromRange.length)))
    ensures Flatten(memory.bytes, copies.Log()) == old(Flatten(memory.bytes, copies.Log())) + emitted
    ensures |copies.Log()| <= |old(copies.Log())| + 2
  {
    var fromBasePtr := fromPtr + fromRange.location;
    var fromLength := Unicode.LengthOfCharacter(memory.bytes[fromBasePtr]);
    FinishOfPiece(m, op, memory.bytes, fromBasePtr, fromRange.length);
    emitted := Convert(m, op, Piece(memory.bytes, fromBasePtr, fromLength))
               + Piece(memory.bytes, fromBasePtr + fromLength, fromRange.length - fromLength);
    assert emitted == Finish(m, op, Piece(memory.bytes, fromBasePtr, fromRange.length));
    EmitFirst(m, op, memory, copies, fromBasePtr, fromLength, fromRange.length - fromLength);
  }

  /** The converted first bytes, then the others as they are. */
  method EmitFirst(m: CaseMap, op: Op, memory: Memory, copies: CopyInstructionsBuffer, ptr: nat, first: nat, others: nat)
    requires copies.Valid() && InMemory(memory.bytes, copies.Log()) && ptr + first + others <= |memory.bytes|
    modifies memory, copies, copies.cells
    ensures copies.Valid() && old(memory.bytes) <= memory.bytes && InMemory(memory.bytes, copies.Log())
    ensures Flatten(memory.bytes, copies.Log()) == old(Flatten(memory.bytes, copies.Log()))
            + (Convert(m, op, old(Piece(memory.bytes, ptr, first))) + Piece(old(memory.bytes), ptr + first, others))
    ensures |copies.Log()| <= |old(copies.Log())| + 2
  {
    ghost var mem, before, rest := memory.bytes, Flatten(memory.bytes, copies.Log()), Piece(memory.bytes, ptr + first, others);
    PieceIsSlice(mem, ptr, first);
    var text := memory.bytes[ptr..ptr + first];
    EmitConverted(m, op, text, memory, copies);
    PieceStays(mem, memory.bytes, ptr + first, others);
    EmitPiece(memory, copies, ptr + first, Range(0, others));
    Associate(before, Convert(m, op, text), rest);
  }

  lemma FinishOfPiece(m: CaseMap, op: Op, mem: seq<byte>, ptr: nat, length: nat)
    requires IsNext(op) && length > 0 && ptr + length <= |mem| && Whole(Piece(mem, ptr, length))
    ensures var n := Unicode.LengthOfCharacter(mem[ptr]);
            && n <= length && mem[ptr..ptr + n] == Piece(mem, ptr, n)
            && Finish(m, op, Piece(mem, ptr, length)) == Convert(m, op, Piece(mem, ptr, n)) + Piece(mem, ptr + n, length - n)
  {
    var n := Unicode.LengthOfCharacter(mem[ptr]);
    var text := Piece(mem, ptr, length);
    assert text[0] == mem[ptr];
    PieceIsSlice(mem, ptr, n);
    PieceSplits(mem, ptr, n, length - n);
    assert text[..n] == Piece(mem, ptr, n) && text[n..] == Piece(mem, ptr + n, length - n);
  }

  lemma BeforeTwice(a: seq<byte>, b: seq<byte>, o: Outcome)
    ensures Before(a, Before(b, o)) == Before(a + b, o)
  {
    if o.Emitted? {
      Associate(a, b, o.bytes);
    }
  }

  /** The parts, read off the instructions now or after more text was placed in memory. */
  lemma PartsStay(mem: seq<byte>, longer: seq<byte>, x: Match, list: seq<Reference>)
    requires mem <= longer && list != [] && Executable(mem, x, list) && Fits(mem, x)
    ensures Executable(longer, x, list) && Fits(longer, x) && Parts(longer, x, list) == Parts(mem, x, list)
  {
    forall i | 0 <= i < |list| - 1
      ensures PartOf(longer, x, list[i]) == PartOf(mem, x, list[i])
    {
      var r := list[i];
      PieceStays(mem, longer, r.ptr + r.range.location, if r.op.CopyRange? then r.range.length else 0);
      if r.op.CopyCaptureIndex? {
        var range := x.ranges[r.range.location];
        PieceStays(mem, longer, x.subject + range.location, range.length);
      }
    }
  }

  /** What a template of these instructions gives: with more than 64, the first is a cleared one, Stop, and
      the template gives nothing. */
  ghost function Applied(m: CaseMap, mem: seq<byte>, x: Match, list: seq<Reference>): Outcome
    requires list != []
  {
    if |list| <= STACK_INSTRUCTIONS then Apply(m, Parts(mem, x, list), 0, Stop, []) else Emitted([])
  }

  /** The copy instructions after an instruction that is not a case operation. */
  function AppendedBy(x: Match, r: Reference, log: seq<Copy>): seq<Copy> {
    if r.op.CopyRange? then Coalesced(log, r.ptr + r.range.location, r.range.length)
    else if r.op.CopyCaptureIndex? && r.range.location < |x.ranges| then
      Coalesced(log, x.subject + x.ranges[r.range.location].location, x.ranges[r.range.location].length)
    else log
  }

  /** The copy instructions after the first k instructions of a template without case operations. */
  function AppliedLog(x: Match, list: seq<Reference>, k: nat, log: seq<Copy>): seq<Copy>
    requires k <= |list|
  {
    if k == 0 then log else AppendedBy(x, list[k - 1], AppliedLog(x, list, k - 1, log))
  }

  predicate HasNoCase(list: seq<Reference>) {
    forall i :: 0 <= i < |list| ==> !IsCase(list[i].op)
  }

  /** The loop after Stop: its last assertion wants the conversion string empty. */
  function AtEnd(conversionString: seq<byte>): Outcome {
    if conversionString == [] then Emitted([]) else Raised
  }

  /** What is left to emit after an instruction with this op. */
  function Remaining(m: CaseMap, parts: seq<Part>, op: Op, k: nat, currentOp: Op, conversionString: seq<byte>): Outcome {
    if op.Stop? then AtEnd(conversionString)
    else if k <= |parts| then Apply(m, parts, k, currentOp, conversionString) else Raised
  }

  /** The iteration for Stop: an open span is converted. */
  method ApplyStop(m: CaseMap, memory: Memory, copies: CopyInstructionsBuffer, currentOp: Op, pending: seq<byte>, ghost parts: seq<Part>)
    returns (conversionString: seq<byte>, ghost emitted: seq<byte>)
    requires copies.Valid() && InMemory(memory.bytes, copies.Log())
    modifies memory, copies, copies.cells
    ensures copies.Valid() && old(memory.bytes) <= memory.bytes && InMemory(memory.bytes, copies.Log())
    ensures Flatten(memory.bytes, copies.Log()) == old(Flatten(memory.bytes, copies.Log())) + emitted
    ensures |copies.Log()| <= |old(copies.Log())| + 2
    ensures pending == [] ==> conversionString == [] && copies.Log() == old(copies.Log()) && memory.bytes == old(memory.bytes)
    ensures Apply(m, parts, |parts|, currentOp, pending) == Before(emitted, AtEnd(conversionString))
  {
    conversionString, emitted := pending, [];
    NothingAdded(Flatten(memory.bytes, copies.Log()), []);
    NothingBefore(AtEnd(pending));
    if IsSpan(currentOp) && conversionString != [] {
      EmitConverted(m, currentOp, conversionString, memory, copies);
      emitted := Convert(m, currentOp, conversionString);
      conversionString := [];
      NothingAdded(emitted, []);
    }
  }

  /** What one iteration did: the instruction emitted a step, or raised. */
  ghost predicate Iterated(m: CaseMap, mem: seq<byte>, before: seq<byte>, bytes: seq<byte>, x: Match, list: seq<Reference>, log: seq<Copy>,
                           more: seq<Copy>, k: nat, current: Op, pending: seq<byte>, currentOp: Op, conversionString: seq<byte>,
                           raised: bool, step: seq<byte>)
    requires k < |list|
  {
    && before <= bytes && InMemory(bytes, more) && |more| <= |log| + 2
    && Flatten(bytes, more) == Flatten(before, log) + step
    && (currentOp.Stop? || IsSpan(currentOp) || IsNext(currentOp))
    && (current.Stop? && pending == [] && !IsCase(list[k].op) ==>
          && more == AppendedBy(x, list[k], log) && bytes == before && currentOp.Stop? && conversionString == [] && !raised)
    && Apply(m, Parts(mem, x, list), k, current, pending) ==
       if raised then Raised else Before(step, Remaining(m, Parts(mem, x, list), list[k].op, k + 1, currentOp, conversionString))
  }

  /** The piece of memory that the instruction copies, or its case operation. */
  predicate IsFetched(x: Match, r: Reference, fromPtr: nat, fromRange: Range, thisOp: Op) {
    match r.op
    case CopyRange => fromPtr == r.ptr && fromRange == r.range && thisOp.Stop?
    case CopyCaptureIndex =>
      r.range.location < |x.ranges| && fromPtr == x.subject && fromRange == x.ranges[r.range.location] && thisOp.Stop?
    case _ => fromRange.length == 0 && thisOp == r.op
  }

  /** Lines 905-920. */
  method Fetch(x: Match, r: Reference) returns (fromPtr: nat, fromRange: Range, thisOp: Op)
    requires r.op.CopyCaptureIndex? ==> r.range.location < |x.ranges|
    ensures IsFetched(x, r, fromPtr, fromRange, thisOp)
  {
    fromPtr, fromRange, thisOp := 0, Range(0, 0), Stop;
    match r.op {
      case CopyRange => fromPtr, fromRange := r.ptr, r.range;
      case CopyCaptureIndex => fromPtr, fromRange := x.subject, x.ranges[r.range.location];
      case Stop =>
      case _ => thisOp := r.op;
    }
  }

  lemma FetchedRange(mem: seq<byte>, longer: seq<byte>, x: Match, list: seq<Reference>, k: nat)
    requires mem <= longer && list != [] && Executable(mem, x, list) && k < |list| - 1 && list[k].op.CopyRange?
    ensures list[k].ptr + list[k].range.Max() <= |longer|
    ensures Parts(mem, x, list)[k] == Text(Piece(longer, list[k].ptr + list[k].range.location, list[k].range.length))
  {
    PieceStays(mem, longer, list[k].ptr + list[k].range.location, list[k].range.length);
  }

  lemma FetchedCapture(mem: seq<byte>, longer: seq<byte>, x: Match, list: seq<Reference>, k: nat)
    requires mem <= longer && list != [] && Executable(mem, x, list) && Fits(mem, x) && k < |list| - 1 && list[k].op.CopyCaptureIndex?
    ensures list[k].range.location < |x.ranges|
    ensures var range := x.ranges[list[k].range.location];
            && (range.length > 0 ==> x.subject + range.Max() <= |longer|)
            && Parts(mem, x, list)[k] == Text(Piece(longer, x.subject + range.location, range.length))
  {
    var range := x.ranges[list[k].range.location];
    PieceStays(mem, longer, x.subject + range.location, range.length);
  }

  lemma FetchedLog(x: Match, r: Reference, fromPtr: nat, fromRange: Range, thisOp: Op, log: seq<Copy>)
    requires IsFetched(x, r, fromPtr, fromRange, thisOp) && thisOp.Stop? && !r.op.Stop?
    ensures AppendedBy(x, r, log) == Coalesced(log, fromPtr + fromRange.location, fromRange.length)
  {
  }

  /** What the k-th instruction copies lies in memory, and is its part. */
  lemma FetchedPart(mem: seq<byte>, longer: seq<byte>, x: Match, list: seq<Reference>, k: nat, fromPtr: nat, fromRange: Range, thisOp: Op)
    requires mem <= longer && list != [] && Executable(mem, x, list) && Fits(mem, x) && k < |list| && !list[k].op.Stop?
    requires IsFetched(x, list[k], fromPtr, fromRange, thisOp)
    ensures k < |list| - 1 && (thisOp.Stop? <==> !IsCase(list[k].op))
    ensures thisOp.Stop? ==>
              && (fromRange.length > 0 ==> fromPtr + fromRange.Max() <= |longer|)
              && Parts(mem, x, list)[k] == Text(Piece(longer, fromPtr + fromRange.location, fromRange.length))
    ensures !thisOp.Stop? ==> fromRange.length == 0 && Parts(mem, x, list)[k] == Case(thisOp)
  {
    assert k < |list| - 1;
    match list[k].op {
      case CopyRange => FetchedRange(mem, longer, x, list, k);
      case CopyCaptureIndex => FetchedCapture(mem, longer, x, list, k);
      case _ =>
    }
  }

  /** One iteration of the loop for the k-th instruction, which is not Stop. */
  method ApplyFetched(m: CaseMap, memory: Memory, x: Match, r: Reference, copies: CopyInstructionsBuffer, current: Op, pending: seq<byte>,
                      ghost mem: seq<byte>, ghost list: seq<Reference>, ghost k: nat)
    returns (currentOp: Op, conversionString: seq<byte>, raised: bool, ghost emitted: seq<byte>)
    requires copies.Valid() && InMemory(memory.bytes, copies.Log())
    requires mem <= memory.bytes && Fits(mem, x) && list != [] && Executable(mem, x, list) && WellFormed(Parts(mem, x, list))
    requires k < |list| && r == list[k] && !r.op.Stop? && (current.Stop? || IsSpan(current) || IsNext(current))
    modifies memory, copies, copies.cells
    ensures copies.Valid() && old(memory.bytes) <= memory.bytes && InMemory(memory.bytes, copies.Log())
    ensures Flatten(memory.bytes, copies.Log()) == old(Flatten(memory.bytes, copies.Log())) + emitted
    ensures |copies.Log()| <= |old(copies.Log())| + 2
    ensures currentOp.Stop? || IsSpan(currentOp) || IsNext(currentOp)
    ensures current.Stop? && pending == [] && !IsCase(r.op) ==>
              && copies.Log() == AppendedBy(x, r, old(copies.Log())) && memory.bytes == old(memory.bytes)
              && currentOp.Stop? && conversionString == [] && !raised
    ensures k + 1 < |list| && Apply(m, Parts(mem, x, list), k, current, pending) ==
            if raised then Raised else Before(emitted, Apply(m, Parts(mem, x, list), k + 1, currentOp, conversionString))
  {
    var fromPtr, fromRange, thisOp := Fetch(x, r);
    FetchedPart(mem, memory.bytes, x, list, k, fromPtr, fromRange, thisOp);
    if thisOp.Stop? {
      FetchedLog(x, r, fromPtr, fromRange, thisOp, copies.Log());
    }
    currentOp, conversionString, raised, emitted := ApplyOne(m, memory, copies, thisOp, fromPtr, fromRange, current, pending,
                                                             Parts(mem, x, list), k);
  }

  /** One iteration of the loop for the k-th instruction. */
  method ApplyInstruction(m: CaseMap, memory: Memory, x: Match, r: Reference, copies: CopyInstructionsBuffer, current: Op, pending: seq<byte>,
                          ghost mem: seq<byte>, ghost list: seq<Reference>, ghost k: nat)
    returns (currentOp: Op, conversionString: seq<byte>, raised: bool, ghost emitted: seq<byte>)
    requires copies.Valid() && InMemory(memory.bytes, copies.Log())
    requires mem <= memory.bytes && Fits(mem, x) && list != [] && Executable(mem, x, list) && WellFormed(Parts(mem, x, list))
    requires k < |list| && r == list[k] && (current.Stop? || IsSpan(current) || IsNext(current))
    modifies memory, copies, copies.cells
    ensures copies.Valid()
    ensures Iterated(m, mem, old(memory.bytes), memory.bytes, x, list, old(copies.Log()), copies.Log(), k, current, pending,
                     currentOp, conversionString, raised, emitted)
  {
    if r.op.Stop? {
      conversionString, emitted := ApplyStop(m, memory, copies, current, pending, Parts(mem, x, list));
      currentOp, raised := Stop, false;
    } else {
      currentOp, conversionString, raised, emitted := ApplyFetched(m, memory, x, r, copies, current, pending, mem, list, k);
    }
  }

  /** The copy instructions after a template without case operations: one of more than 64 instructions adds none. */
  function LogAfter(x: Match, list: seq<Reference>, log: seq<Copy>): seq<Copy> {
    if |list| <= STACK_INSTRUCTIONS then AppliedLog(x, list, |list|, log) else log
  }

  /** The state of the loop after k instructions: what has been emitted, and with what is left, the outcome of all. */
  ghost predicate Applying(m: CaseMap, mem: seq<byte>, bytes: seq<byte>, x: Match, list: seq<Reference>, start: seq<Copy>, log: seq<Copy>,
                           k: nat, emitted: seq<byte>, lastOp: Op, currentOp: Op, conversionString: seq<byte>)
    requires list != []
  {
    && k <= |list| && mem <= bytes && InMemory(bytes, log)
    && Flatten(bytes, log) == Flatten(mem, start) + emitted
    && |log| <= |start| + 2 * k
    && (currentOp.Stop? || IsSpan(currentOp) || IsNext(currentOp))
    && (HasNoCase(list) ==> currentOp.Stop? && conversionString == [] && bytes == mem && log == AppliedLog(x, list, k, start))
    && Apply(m, Parts(mem, x, list), 0, Stop, []) ==
       Before(emitted, Remaining(m, Parts(mem, x, list), lastOp, k, currentOp, conversionString))
  }

  lemma ApplyingStarts(m: CaseMap, mem: seq<byte>, x: Match, list: seq<Reference>, start: seq<Copy>, lastOp: Op)
    requires list != [] && InMemory(mem, start) && !lastOp.Stop?
    ensures Applying(m, mem, mem, x, list, start, start, 0, [], lastOp, Stop, [])
  {
    NothingAdded(Flatten(mem, start), []);
    NothingBefore(Apply(m, Parts(mem, x, list), 0, Stop, []));
  }

  /** One more instruction keeps the state of the loop. */
  lemma ApplyingStep(m: CaseMap, mem: seq<byte>, before: seq<byte>, bytes: seq<byte>, x: Match, list: seq<Reference>, start: seq<Copy>,
                     log: seq<Copy>, more: seq<Copy>, k: nat, emitted: seq<byte>, step: seq<byte>, lastOp: Op, current: Op, pending: seq<byte>,
                     currentOp: Op, conversionString: seq<byte>)
    requires list != [] && k < |list| && !lastOp.Stop?
    requires Applying(m, mem, before, x, list, start, log, k, emitted, lastOp, current, pending)
    requires before <= bytes && InMemory(bytes, more) && |more| <= |log| + 2
    requires Flatten(bytes, more) == Flatten(before, log) + step
    requires currentOp.Stop? || IsSpan(currentOp) || IsNext(currentOp)
    requires HasNoCase(list) ==> more == AppendedBy(x, list[k], log) && bytes == before && currentOp.Stop? && conversionString == []
    requires Apply(m, Parts(mem, x, list), k, current, pending) ==
             Before(step, Remaining(m, Parts(mem, x, list), list[k].op, k + 1, currentOp, conversionString))
    ensures Applying(m, mem, bytes, x, list, start, more, k + 1, emitted + step, list[k].op, currentOp, conversionString)
  {
    BeforeTwice(emitted, step, Remaining(m, Parts(mem, x, list), list[k].op, k + 1, currentOp, conversionString));
    Associate(Flatten(mem, start), emitted, step);
  }

  /** After Stop the state of the loop says what all instructions give. */
  lemma ApplyingEnds(m: CaseMap, mem: seq<byte>, bytes: seq<byte>, x: Match, list: seq<Reference>, start: seq<Copy>, log: seq<Copy>,
                     emitted: seq<byte>, currentOp: Op, conversionString: seq<byte>)
    requires list != [] && |list| <= STACK_INSTRUCTIONS
    requires Applying(m, mem, bytes, x, list, start, log, |list|, emitted, Stop, currentOp, conversionString)
    ensures conversionString != [] <==> Applied(m, mem, x, list).Raised?
    ensures conversionString == [] ==> Flatten(bytes, log) == Flatten(mem, start) + Applied(m, mem, x, list).bytes
    ensures HasNoCase(list) ==> conversionString == [] && bytes == mem && log == LogAfter(x, list, start)
  {
    NothingAdded(emitted, []);
  }

  /** With Stop as the first instruction the loop is not entered: the template is empty, or has more than 64
      instructions, of which the first were cleared. */
  lemma StopGivesNothing(m: CaseMap, mem: seq<byte>, x: Match, list: seq<Reference>, start: seq<Copy>)
    requires |list| > STACK_INSTRUCTIONS || (|list| == 1 && list[0].op.Stop?)
    ensures Applied(m, mem, x, list) == Emitted([]) && Flatten(mem, start) == Flatten(mem, start) + []
    ensures LogAfter(x, list, start) == start
  {
    NothingAdded(Flatten(mem, start), []);
    assert |list| == 1 ==> AppliedLog(x, list, 1, start) == AppendedBy(x, list[0], AppliedLog(x, list, 0, start));
  }

  /** What the loop keeps. It is not entered when the first instruction is Stop. */
  ghost predicate InLoop(m: CaseMap, mem: seq<byte>, bytes: seq<byte>, x: Match, list: seq<Reference>, start: seq<Copy>, log: seq<Copy>,
                         k: nat, emitted: seq<byte>, lastOp: Op, currentOp: Op, conversionString: seq<byte>)
    requires list != []
  {
    if k == 0 && lastOp.Stop? then
      && (|list| > STACK_INSTRUCTIONS || (|list| == 1 && list[0].op.Stop?))
      && conversionString == [] && bytes == mem && log == start && InMemory(bytes, log)
    else
      && |list| <= STACK_INSTRUCTIONS && (if lastOp.Stop? then k == |list| else k < |list|)
      && Applying(m, mem, bytes, x, list, start, log, k, emitted, lastOp, currentOp, conversionString)
  }

  lemma LoopStarts(m: CaseMap, mem: seq<byte>, x: Match, list: seq<Reference>, start: seq<Copy>, lastOp: Op)
    requires list != [] && InMemory(mem, start) && Executable(mem, x, list)
    requires lastOp == if |list| <= STACK_INSTRUCTIONS then list[0].op else Stop
    ensures InLoop(m, mem, mem, x, list, start, start, 0, [], lastOp, Stop, [])
  {
    if !lastOp.Stop? {
      ApplyingStarts(m, mem, x, list, start, lastOp);
    }
  }

  lemma LoopStep(m: CaseMap, mem: seq<byte>, before: seq<byte>, bytes: seq<byte>, x: Match, list: seq<Reference>, start: seq<Copy>,
                 log: seq<Copy>, more: seq<Copy>, k: nat, emitted: seq<byte>, step: seq<byte>, lastOp: Op, current: Op, pending: seq<byte>,
                 currentOp: Op, conversionString: seq<byte>, raised: bool)
    requires list != [] && k < |list| && !lastOp.Stop? && Executable(mem, x, list)
    requires InLoop(m, mem, before, x, list, start, log, k, emitted, lastOp, current, pending)
    requires Iterated(m, mem, before, bytes, x, list, log, more, k, current, pending, currentOp, conversionString, raised, step)
    ensures raised ==> Applied(m, mem, x, list).Raised? && !HasNoCase(list) && |more| <= |start| + 2 * |list|
    ensures !raised ==> InLoop(m, mem, bytes, x, list, start, more, k + 1, emitted + step, list[k].op, currentOp, conversionString)
  {
    if !raised {
      ApplyingStep(m, mem, before, bytes, x, list, start, log, more, k, emitted, step, lastOp, current, pending, currentOp, conversionString);
    }
  }

  lemma LoopEnds(m: CaseMap, mem: seq<byte>, bytes: seq<byte>, x: Match, list: seq<Reference>, start: seq<Copy>, log: seq<Copy>,
                 k: nat, emitted: seq<byte>, currentOp: Op, conversionString: seq<byte>)
    requires list != [] && InLoop(m, mem, bytes, x, list, start, log, k, emitted, Stop, currentOp, conversionString)
    ensures mem <= bytes && InMemory(bytes, log) && |log| <= |start| + 2 * |list|
    ensures conversionString != [] <==> Applied(m, mem, x, list).Raised?
    ensures conversionString == [] ==> Flatten(bytes, log) == Flatten(mem, start) + Applied(m, mem, x, list).bytes
    ensures HasNoCase(list) ==> conversionString == [] && bytes == mem && log == LogAfter(x, list, start)
  {
    if k > 0 {
      ApplyingEnds(m, mem, bytes, x, list, start, log, emitted, currentOp, conversionString);
    } else {
      StopGivesNothing(m, mem, x, list, start);
    }
  }

  /** RKApplyReferenceInstructions */
  method ApplyReferences(m: CaseMap, memory: Memory, x: Match, references: InstructionsBuffer<Reference>, copies: CopyInstructionsBuffer)
    returns (raised: bool)
    requires references.Valid() && references.zero == ZERO_REFERENCE
    requires Fits(memory.bytes, x) && Executable(memory.bytes, x, references.log)
    requires WellFormed(Parts(memory.bytes, x, references.log))
    requires copies.Valid() && InMemory(memory.bytes, copies.Log())
    modifies memory, copies, copies.cells
    ensures copies.Valid() && old(memory.bytes) <= memory.bytes && InMemory(memory.bytes, copies.Log())
    ensures raised <==> Applied(m, old(memory.bytes), x, references.log).Raised?
    ensures !raised ==> Flatten(memory.bytes, copies.Log()) ==
                        old(Flatten(memory.bytes, copies.Log())) + Applied(m, old(memory.bytes), x, references.log).bytes
    ensures |copies.Log()| <= |old(copies.Log())| + 2 * |references.log|
    ensures HasNoCase(references.log) ==>
              !raised && memory.bytes == old(memory.bytes) && copies.Log() == LogAfter(x, references.log, old(copies.Log()))
  {
    ghost var mem, list, start := memory.bytes, references.log, copies.Log();
    ghost var emitted: seq<byte> := [];
    var currentOp, lastOp := Stop, references.instructions[0].op;
    var conversionString, instructionIndex := [], 0;
    raised := false;
    assert references.instructions[0] == references.instructions[..references.length][0];
    LoopStarts(m, mem, x, list, start, lastOp);
    while lastOp != Stop && instructionIndex < references.length
      invariant copies.Valid() && instructionIndex <= |list|
      invariant InLoop(m, mem, memory.bytes, x, list, start, copies.Log(), instructionIndex, emitted, lastOp, currentOp, conversionString)
      decreases |list| - instructionIndex
    {
      var atInstruction := references.instructions[instructionIndex];
      assert atInstruction == references.instructions[..references.length][instructionIndex] == list[instructionIndex];
      ghost var step, before, log, current, pending, was := [], memory.bytes, copies.Log(), currentOp, conversionString, lastOp;
      currentOp, conversionString, raised, step := ApplyInstruction(m, memory, x, atInstruction, copies, currentOp,
                                                                    conversionString, mem, list, instructionIndex);
      LoopStep(m, mem, before, memory.bytes, x, list, start, log, copies.Log(), instructionIndex, emitted, step, was, current, pending,
               currentOp, conversionString, raised);
      if raised {
        return;
      }
      lastOp := atInstruction.op;
      emitted := emitted + step;
      instructionIndex := instructionIndex + 1;
    }
    LoopEnds(m, mem, memory.bytes, x, list, start, copies.Log(), instructionIndex, emitted, currentOp, conversionString);
    raised := conversionString != [];
  }
}
