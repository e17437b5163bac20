/**
 The instruction buffers of search and replace (Source/NSString.m:874-888 and 1082-1158): reference
 instructions compiled from a template, copy instructions that say which bytes make the result. All
 texts lie in one flat memory, so that pieces adjacent in memory can be told by their addresses.
 */
module Instructions {
  import opened Base

  /** RK_DEFAULT_STACK_INSTRUCTIONS */
  const STACK_INSTRUCTIONS: nat := 64

  /** The op codes of NSStringPrivate.h:136-145, in the order of their values; Stop is 0. */
  datatype Op =
    | Stop
    | CopyCaptureIndex
    | CopyCaptureName
    | CopyRange
    | UppercaseNextChar
    | LowercaseNextChar
    | UppercaseBegin
    | LowercaseBegin
    | ChangeCaseEnd

  datatype Reference = Reference(op: Op, ptr: nat, range: Range)

  datatype Copy = Copy(ptr: nat, length: nat)

  const ZERO_REFERENCE := Reference(Stop, 0, Range(0, 0))
  const ZERO_COPY := Copy(0, 0)

  /** What a buffer holds after these appends: past the stack buffer's capacity the first 64 are cleared. */
  function Stored<T>(log: seq<T>, zero: T): (r: seq<T>)
    ensures |r| == |log|
  {
    if |log| <= STACK_INSTRUCTIONS then log else seq(STACK_INSTRUCTIONS, i => zero) + log[STACK_INSTRUCTIONS..]
  }

  /** The common part of RKReferenceInstructionsBuffer and RKCopyInstructionsBuffer. The ghost log is the
      list of instructions that were appended. */
  class InstructionsBuffer<T> {
    const zero: T
    var length: nat
    var capacity: nat
    var instructions: seq<T>
    var onHeap: bool  // mutableData != NULL
    ghost var log: seq<T>

    ghost predicate Valid()
      reads this
    {
      && length == |log| <= capacity <= |instructions|
      && instructions[..length] == Stored(log, zero)
      && (if onHeap then |log| > STACK_INSTRUCTIONS else capacity == STACK_INSTRUCTIONS == |instructions|)
    }

    /** An empty buffer over 64 instructions on the stack, whatever they contain. */
    constructor (zero: T, stack: seq<T>)
      requires |stack| == STACK_INSTRUCTIONS
      ensures Valid() && log == [] && this.zero == zero
    {
      this.zero, length, capacity, instructions, onHeap, log := zero, 0, STACK_INSTRUCTIONS, stack, false, [];
    }

    /** Lines 1087-1107 and 1131-1151. The heap buffer is created zero-filled, and the instructions on the
        stack are appended behind the zeros. */
    method Push(x: T)
      requires Valid()
      modifies this
      ensures Valid() && log == old(log) + [x]
    {
      if length >= capacity {
        if !onHeap {
          instructions := seq(capacity + STACK_INSTRUCTIONS, i => zero) + instructions[..capacity];
          onHeap := true;
        } else {
          instructions := instructions + seq(STACK_INSTRUCTIONS, i => zero);
        }
        capacity := capacity + STACK_INSTRUCTIONS;
      }
      instructions := instructions[length := x];
      length := length + 1;
      log := log + [x];
      assert instructions[..length] == Stored(log, zero);
    }

    method ReplaceLast(x: T)
      requires Valid() && log != []
      modifies this
      ensures Valid() && log == old(log)[|old(log)| - 1 := x]
    {
      instructions := instructions[length - 1 := x];
      log := log[|log| - 1 := x];
      assert instructions[..length] == Stored(log, zero);
    }
  }

  /** RKAppendInstruction */
  method AppendInstruction(buffer: InstructionsBuffer<Reference>, op: Op, ptr: nat, range: Range)
    requires buffer.Valid()
    modifies buffer
    ensures buffer.Valid()
    ensures buffer.log == old(buffer.log) + (if op == CopyRange && range.length == 0 then [] else [Reference(op, ptr, range)])
  {
    if range.length == 0 && op == CopyRange {
      return;
    }
    buffer.Push(Reference(op, ptr, range));
  }

  // ---------------------------------------------------------------------------------------
  // Copy instructions
  // ---------------------------------------------------------------------------------------

  ghost predicate InMemory(mem: seq<byte>, list: seq<Copy>) {
    forall i :: 0 <= i < |list| ==> list[i].ptr + list[i].length <= |mem|
  }

  /** The bytes of one piece of memory. */
  ghost function Piece(mem: seq<byte>, ptr: nat, length: nat): (r: seq<byte>)
    ensures |r| == length && forall i :: 0 <= i < length && ptr + i < |mem| ==> r[i] == mem[ptr + i]
  {
    if length == 0 then []
    else Piece(mem, ptr, length - 1) + [if ptr + length <= |mem| then mem[ptr + length - 1] else 0]
  }

  lemma {:induction false} PieceIsSlice(mem: seq<byte>, ptr: nat, length: nat)
    requires ptr + length <= |mem|
    ensures Piece(mem, ptr, length) == mem[ptr..ptr + length]
  {
    if length > 0 {
      PieceIsSlice(mem, ptr, length - 1);
    }
  }

  lemma {:induction false} PieceSplits(mem: seq<byte>, ptr: nat, length: nat, more: nat)
    ensures Piece(mem, ptr, length + more) == Piece(mem, ptr, length) + Piece(mem, ptr + length, more)
  {
    if more == 0 {
      NothingAdded(Piece(mem, ptr, length), []);
    } else {
      PieceSplits(mem, ptr, length, more - 1);
      var last := [if ptr + length + more <= |mem| then mem[ptr + length + more - 1] else 0];
      assert Piece(mem, ptr, length + more) == Piece(mem, ptr, length + more - 1) + last;
      Associate(Piece(mem, ptr, length), Piece(mem, ptr + length, more - 1), last);
    }
  }

  lemma {:induction false} PieceStays(mem: seq<byte>, longer: seq<byte>, ptr: nat, length: nat)
    requires mem <= longer && (length > 0 ==> ptr + length <= |mem|)
    ensures Piece(longer, ptr, length) == Piece(mem, ptr, length)
  {
    if length > 0 {
      PieceStays(mem, longer, ptr, length - 1);
    }
  }

  lemma NothingAdded(text: seq<byte>, piece: seq<byte>)
    requires |piece| == 0
    ensures text + piece == text
  {
  }

  /** The bytes that the first k copy instructions stand for. */
  ghost function TextOf(mem: seq<byte>, list: seq<Copy>, k: nat): seq<byte>
    requires k <= |list|
  {
    if k == 0 then [] else TextOf(mem, list, k - 1) + Piece(mem, list[k - 1].ptr, list[k - 1].length)
  }

  ghost function LengthOf(list: seq<Copy>, k: nat): nat
    requires k <= |list|
  {
    if k == 0 then 0 else LengthOf(list, k - 1) + list[k - 1].length
  }

  /** The bytes that a list of copy instructions stands for. */
  ghost function Flatten(mem: seq<byte>, list: seq<Copy>): seq<byte> {
    TextOf(mem, list, |list|)
  }

  ghost function TotalLength(list: seq<Copy>): nat {
    LengthOf(list, |list|)
  }

  /** The list after one append: a piece that starts where the last one ends only lengthens it. */
  function Coalesced(list: seq<Copy>, ptr: nat, length: nat): seq<Copy> {
    if length == 0 then list
    else if list != [] && list[|list| - 1].ptr + list[|list| - 1].length == ptr then
      list[|list| - 1 := Copy(list[|list| - 1].ptr, list[|list| - 1].length + length)]
    else list + [Copy(ptr, length)]
  }

  lemma {:induction false} SamePrefix(mem: seq<byte>, a: seq<Copy>, b: seq<Copy>, k: nat)
    requires k <= |a| && k <= |b| && forall i :: 0 <= i < k ==> a[i] == b[i]
    ensures TextOf(mem, a, k) == TextOf(mem, b, k) && LengthOf(a, k) == LengthOf(b, k)
  {
    if k > 0 {
      SamePrefix(mem, a, b, k - 1);
    }
  }

  lemma CoalescedInMemory(mem: seq<byte>, list: seq<Copy>, ptr: nat, length: nat)
    requires InMemory(mem, list) && (length > 0 ==> ptr + length <= |mem|)
    ensures InMemory(mem, Coalesced(list, ptr, length))
  {
  }

  lemma LengthenedText(mem: seq<byte>, list: seq<Copy>, longer: seq<Copy>, more: nat)
    requires list != [] && |longer| == |list| && forall i :: 0 <= i < |list| - 1 ==> longer[i] == list[i]
    requires longer[|list| - 1] == Copy(list[|list| - 1].ptr, list[|list| - 1].length + more)
    ensures Flatten(mem, longer) == Flatten(mem, list) + Piece(mem, list[|list| - 1].ptr + list[|list| - 1].length, more)
  {
    var n := |list| - 1;
    var last, front := list[n], TextOf(mem, list, n);
    SamePrefix(mem, list, longer, n);
    assert Flatten(mem, list) == front + Piece(mem, last.ptr, last.length);
    assert Flatten(mem, longer) == front + Piece(mem, last.ptr, last.length + more);
    PieceSplits(mem, last.ptr, last.length, more);
    Associate(front, Piece(mem, last.ptr, last.length), Piece(mem, last.ptr + last.length, more));
  }

  lemma AppendedText(mem: seq<byte>, list: seq<Copy>, c: Copy)
    ensures Flatten(mem, list + [c]) == Flatten(mem, list) + Piece(mem, c.ptr, c.length)
  {
    SamePrefix(mem, list, list + [c], |list|);
  }

  /** Coalescing keeps the text: an append adds exactly the bytes of its piece. */
  lemma CoalescedKeepsText(mem: seq<byte>, list: seq<Copy>, ptr: nat, length: nat)
    ensures Flatten(mem, Coalesced(list, ptr, length)) == Flatten(mem, list) + Piece(mem, ptr, length)
  {
    if length == 0 {
      NothingAdded(Flatten(mem, list), Piece(mem, ptr, 0));
    } else if list != [] && list[|list| - 1].ptr + list[|list| - 1].length == ptr {
      LengthenedText(mem, list, Coalesced(list, ptr, length), length);
    } else {
      AppendedText(mem, list, Copy(ptr, length));
    }
  }

  lemma {:induction false} TextLength(mem: seq<byte>, list: seq<Copy>, k: nat)
    requires k <= |list|
    ensures |TextOf(mem, list, k)| == LengthOf(list, k)
  {
    if k > 0 {
      TextLength(mem, list, k - 1);
    }
  }

  lemma {:induction false} TextOfConcat(mem: seq<byte>, a: seq<Copy>, b: seq<Copy>, k: nat)
    requires k <= |b|
    ensures TextOf(mem, a + b, |a| + k) == Flatten(mem, a) + TextOf(mem, b, k)
    ensures LengthOf(a + b, |a| + k) == TotalLength(a) + LengthOf(b, k)
  {
    if k == 0 {
      SamePrefix(mem, a + b, a, |a|);
      NothingAdded(Flatten(mem, a), TextOf(mem, b, 0));
    } else {
      TextOfConcat(mem, a, b, k - 1);
      var c := b[k - 1];
      assert (a + b)[|a| + k - 1] == c;
      assert TextOf(mem, a + b, |a| + k) == TextOf(mem, a + b, |a| + k - 1) + Piece(mem, c.ptr, c.length);
      Associate(Flatten(mem, a), TextOf(mem, b, k - 1), Piece(mem, c.ptr, c.length));
    }
  }

  /** Bytes placed in memory later do not change what a list stands for. */
  lemma {:induction false} TextInLongerMemory(mem: seq<byte>, longer: seq<byte>, list: seq<Copy>, k: nat)
    requires mem <= longer && k <= |list| && InMemory(mem, list)
    ensures TextOf(longer, list, k) == TextOf(mem, list, k)
  {
    if k > 0 {
      TextInLongerMemory(mem, longer, list, k - 1);
      PieceStays(mem, longer, list[k - 1].ptr, list[k - 1].length);
    }
  }

  lemma {:induction false} ZerosAreEmpty(mem: seq<byte>, list: seq<Copy>, k: nat)
    requires k <= |list| && forall i :: 0 <= i < k ==> list[i] == ZERO_COPY
    ensures TextOf(mem, list, k) == [] && LengthOf(list, k) == 0
  {
    if k > 0 {
      ZerosAreEmpty(mem, list, k - 1);
      NothingAdded([], Piece(mem, 0, 0));
    }
  }

  /** The instructions that take part in the result: past 64 the first 64 do not. */
  function Kept(log: seq<Copy>): seq<Copy> {
    if |log| <= STACK_INSTRUCTIONS then log else log[STACK_INSTRUCTIONS..]
  }

  /** What the stored instructions stand for. */
  lemma StoredText(mem: seq<byte>, log: seq<Copy>)
    ensures Flatten(mem, Stored(log, ZERO_COPY)) == Flatten(mem, Kept(log))
    ensures TotalLength(Stored(log, ZERO_COPY)) == TotalLength(Kept(log))
  {
    if |log| > STACK_INSTRUCTIONS {
      var zeros := seq(STACK_INSTRUCTIONS, i => ZERO_COPY);
      ZerosAreEmpty(mem, zeros, |zeros|);
      TextOfConcat(mem, zeros, Kept(log), |Kept(log)|);
    }
  }

  predicate NoEmptyCopies(list: seq<Copy>) {
    forall i :: 0 <= i < |list| ==> list[i].length > 0
  }

  /** The copied length counts all instructions, and so more than the kept ones if some were lost. */
  lemma KeptLength(log: seq<Copy>)
    requires NoEmptyCopies(log)
    ensures TotalLength(Kept(log)) <= TotalLength(log)
    ensures TotalLength(Kept(log)) == TotalLength(log) <==> |log| <= STACK_INSTRUCTIONS
  {
    if |log| > STACK_INSTRUCTIONS {
      var lost := log[..STACK_INSTRUCTIONS];
      assert log == lost + Kept(log);
      TextOfConcat([], lost, Kept(log), |Kept(log)|);
    }
  }

  /** The stored instructions stand for the whole text if and only if they fit the stack buffer. */
  lemma StoredTextIsWholeIff(mem: seq<byte>, log: seq<Copy>)
    requires NoEmptyCopies(log)
    ensures Flatten(mem, Stored(log, ZERO_COPY)) == Flatten(mem, log) <==> |log| <= STACK_INSTRUCTIONS
  {
    StoredText(mem, log);
    KeptLength(log);
    TextLength(mem, log, |log|);
    TextLength(mem, Kept(log), |Kept(log)|);
  }

  class CopyInstructionsBuffer {
    const cells: InstructionsBuffer<Copy>
    var copiedLength: nat

    ghost predicate Valid()
      reads this, cells
    {
      && cells.Valid() && cells.zero == ZERO_COPY
      && copiedLength == TotalLength(cells.log) && NoEmptyCopies(cells.log)
    }

    ghost function Log(): seq<Copy>
      reads this, cells
    {
      cells.log
    }

    constructor (stack: seq<Copy>)
      requires |stack| == STACK_INSTRUCTIONS
      ensures Valid() && Log() == [] && fresh(cells)
    {
      cells := new InstructionsBuffer(ZERO_COPY, stack);
      copiedLength := 0;
    }

    /** RKAppendCopyInstruction */
    method Append(ptr: nat, range: Range)
      requires Valid()
      modifies this, cells
      ensures Valid() && Log() == Coalesced(old(Log()), ptr + range.location, range.length)
    {
      if range.length == 0 {
        return;
      }
      CoalescedLength(cells.log, ptr + range.location, range.length);
      if cells.length > 0 {
        var last := cells.instructions[cells.length - 1];
        assert last == cells.log[|cells.log| - 1];
        if last.ptr + last.length == ptr + range.location {
          cells.ReplaceLast(Copy(last.ptr, last.length + range.length));
          copiedLength := copiedLength + range.length;
          return;
        }
      }
      cells.Push(Copy(ptr + range.location, range.length));
      copiedLength := copiedLength + range.length;
    }
  }

  lemma CoalescedLength(list: seq<Copy>, ptr: nat, length: nat)
    ensures TotalLength(Coalesced(list, ptr, length)) == TotalLength(list) + length
  {
    if length > 0 {
      var r := Coalesced(list, ptr, length);
      SamePrefix([], list, r, |r| - 1);
    }
  }

  ghost predicate Holds(a: array<byte>, n: nat, text: seq<byte>)
    reads a
  {
    n == |text| <= a.Length && forall i :: 0 <= i < n ==> a[i] == text[i]
  }

  /** memcpy of one piece behind the text so far */
  method CopyBytes(to: array<byte>, at: nat, mem: seq<byte>, ptr: nat, length: nat, ghost text: seq<byte>)
    requires at + length <= to.Length && ptr + length <= |mem| && Holds(to, at, text)
    modifies to
    ensures Holds(to, at + length, text + Piece(mem, ptr, length))
  {
    ghost var piece := Piece(mem, ptr, length);
    forall i | 0 <= i < length {
      to[at + i] := mem[ptr + i];
    }
    assert forall i :: at <= i < at + length ==> to[i] == piece[i - at];
  }

  lemma {:induction false} LengthGrows(list: seq<Copy>, k: nat)
    requires k <= |list|
    ensures LengthOf(list, k) <= TotalLength(list)
    decreases |list| - k
  {
    if k < |list| {
      LengthGrows(list, k + 1);
    }
  }

  /** RKEvaluateCopyInstructions: the buffer of copiedLength + 1 bytes is filled with the text of the kept
      instructions and a terminator, without running over. */
  method Evaluate(mem: seq<byte>, buffer: CopyInstructionsBuffer, toBuffer: array<byte>)
    requires buffer.Valid() && InMemory(mem, buffer.Log()) && toBuffer.Length == buffer.copiedLength + 1
    modifies toBuffer
    ensures var text := Flatten(mem, Kept(buffer.Log()));
            |text| < toBuffer.Length && toBuffer[..|text|] == text && toBuffer[|text|] == 0
    ensures |buffer.Log()| <= STACK_INSTRUCTIONS <==> |Flatten(mem, Kept(buffer.Log()))| + 1 == toBuffer.Length
  {
    var bufferLength := toBuffer.Length;
    var instructionIndex, copyBufferIndex := 0, 0;
    ghost var stored := Stored(buffer.Log(), ZERO_COPY);
    StoredText(mem, buffer.Log());
    KeptLength(buffer.Log());
    while instructionIndex < buffer.cells.length && copyBufferIndex <= bufferLength
      invariant instructionIndex <= |stored| && copyBufferIndex == LengthOf(stored, instructionIndex) < bufferLength
      invariant Holds(toBuffer, copyBufferIndex, TextOf(mem, stored, instructionIndex))
    {
      var atInstruction := buffer.cells.instructions[instructionIndex];
      assert atInstruction == buffer.cells.instructions[..buffer.cells.length][instructionIndex] == stored[instructionIndex];
      LengthGrows(stored, instructionIndex + 1);
      CopyBytes(toBuffer, copyBufferIndex, mem, atInstruction.ptr, atInstruction.length, TextOf(mem, stored, instructionIndex));
      copyBufferIndex := copyBufferIndex + atInstruction.length;
      instructionIndex := instructionIndex + 1;
    }
    toBuffer[copyBufferIndex] := 0;
    assert toBuffer[..copyBufferIndex] == Flatten(mem, stored);
  }
}
