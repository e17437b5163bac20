/**
 What a replacement template means for one match, and what applying its compiled instructions
 (Source/NSString.m:890-985) does instead when a capture in a case span is empty. Case mapping is
 left to the case map; a converted text is copied up to its first NUL.
 */
module CaseExpansion {
  import opened Base
  import opened Instructions
  import Unicode

  /** One part of a template with the captures filled in: bytes to copy, or a change of case. */
  datatype Part = Text(bytes: seq<byte>) | Case(op: Op)

  /** uppercaseString and lowercaseString on UTF-8 text. */
  datatype CaseMap = CaseMap(upper: seq<byte> -> seq<byte>, lower: seq<byte> -> seq<byte>)

  predicate IsSpan(op: Op) {
    op.UppercaseBegin? || op.LowercaseBegin?
  }

  predicate IsNext(op: Op) {
    op.UppercaseNextChar? || op.LowercaseNextChar?
  }

  /** The bytes before the first NUL. */
  function CString(s: seq<byte>): seq<byte> {
    if s == [] || s[0] == 0 then [] else [s[0]] + CString(s[1..])
  }

  function Convert(m: CaseMap, op: Op, text: seq<byte>): seq<byte> {
    CString(if op.UppercaseBegin? || op.UppercaseNextChar? then m.upper(text) else m.lower(text))
  }

  /** The length of the first character of a text. */
  function FirstLength(text: seq<byte>): nat
    requires text != []
  {
    Unicode.LengthOfCharacter(text[0])
  }

  /** The text starts with a whole character, as well-formed UTF-8 does. */
  predicate Whole(text: seq<byte>) {
    text != [] ==> FirstLength(text) <= |text|
  }

  // ---------------------------------------------------------------------------------------
  // The meaning of a template
  // ---------------------------------------------------------------------------------------

  /** The result of one span: all of it converted, its first character converted, or as it is. */
  function Finish(m: CaseMap, op: Op, span: seq<byte>): seq<byte> {
    if span == [] then []
    else if IsSpan(op) then Convert(m, op, span)
    else if IsNext(op) && Whole(span) then Convert(m, op, span[..FirstLength(span)]) + span[FirstLength(span)..]
    else span
  }

  /** The case in force after a case operation; Stop is none. */
  function CaseAfter(op: Op): Op {
    if op.ChangeCaseEnd? then Stop else op
  }

  /** The text of the parts from the k-th on, with the current span collected so far. Repeating the
      operation of a span continues it. */
  function Meaning(m: CaseMap, parts: seq<Part>, k: nat, op: Op, span: seq<byte>): seq<byte>
    requires k <= |parts|
    decreases |parts| - k
  {
    if k == |parts| then Finish(m, op, span)
    else match parts[k]
      case Text(bytes) => Meaning(m, parts, k + 1, op, span + bytes)
      case Case(next) =>
        if next == op && IsSpan(op) then Meaning(m, parts, k + 1, op, span)
        else Finish(m, op, span) + Meaning(m, parts, k + 1, CaseAfter(next), [])
  }

  /** The direct expansion of a template. */
  function Expansion(m: CaseMap, parts: seq<Part>): seq<byte> {
    Meaning(m, parts, 0, Stop, [])
  }

  // ---------------------------------------------------------------------------------------
  // What the loop does
  // ---------------------------------------------------------------------------------------

  /** The loop emits bytes, or one of its assertions raises an exception. */
  datatype Outcome = Raised | Emitted(bytes: seq<byte>)

  function Before(bytes: seq<byte>, rest: Outcome): Outcome {
    if rest.Raised? then Raised else Emitted(bytes + rest.bytes)
  }

  /** The loop from the k-th part on: current is currentOp, and pending the conversion string. */
  function Apply(m: CaseMap, parts: seq<Part>, k: nat, current: Op, pending: seq<byte>): Outcome
    requires k <= |parts|
    decreases |parts| - k
  {
    if k == |parts| then
      if IsSpan(current) then Emitted(Finish(m, current, pending))
      else if pending == [] then Emitted([]) else Raised
    else match parts[k]
      case Text(bytes) =>
        if bytes == [] then Apply(m, parts, k + 1, Stop, pending)
        else if IsSpan(current) then Apply(m, parts, k + 1, current, pending + bytes)
        else Before(Finish(m, current, bytes), Apply(m, parts, k + 1, Stop, pending))
      case Case(next) =>
        if next.ChangeCaseEnd? && (current.Stop? || pending == []) then Apply(m, parts, k + 1, Stop, pending)
        else if IsSpan(current) && next != current then
          Before(Finish(m, current, pending), Apply(m, parts, k + 1, CaseAfter(next), []))
        else if next.ChangeCaseEnd? then Raised
        else Apply(m, parts, k + 1, next, pending)
  }

  // ---------------------------------------------------------------------------------------
  // When the two agree
  // ---------------------------------------------------------------------------------------

  predicate WellFormed(parts: seq<Part>) {
    forall k :: 0 <= k < |parts| ==> (if parts[k].Text? then Whole(parts[k].bytes) else IsCase(parts[k].op))
  }

  predicate IsCase(op: Op) {
    IsSpan(op) || IsNext(op) || op.ChangeCaseEnd?
  }

  /** No empty copy takes effect: after one, the span has no more text, and if it had some it is resumed by
      its own operation before anything else. op is the case in force, broken tells that an empty copy was seen
      in its span, and any that the span has text. */
  predicate Unbroken(parts: seq<Part>, k: nat, op: Op, broken: bool, any: bool)
    requires k <= |parts|
    decreases |parts| - k
  {
    if k == |parts| then !(broken && any)
    else match parts[k]
      case Text(bytes) =>
        if op.Stop? then Unbroken(parts, k + 1, Stop, false, false)
        else if bytes == [] then Unbroken(parts, k + 1, op, true, any)
        else !broken && Unbroken(parts, k + 1, if IsSpan(op) then op else Stop, false, IsSpan(op))
      case Case(next) =>
        if next == op && IsSpan(op) then Unbroken(parts, k + 1, op, false, any)
        else !(broken && any) && Unbroken(parts, k + 1, CaseAfter(next), false, false)
  }

  lemma {:induction false} PlainTextComesFirst(m: CaseMap, parts: seq<Part>, k: nat, span: seq<byte>)
    requires k <= |parts|
    ensures Meaning(m, parts, k, Stop, span) == span + Meaning(m, parts, k, Stop, [])
    decreases |parts| - k
  {
    if k < |parts| && parts[k].Text? {
      var bytes := parts[k].bytes;
      PlainTextComesFirst(m, parts, k + 1, span + bytes);
      PlainTextComesFirst(m, parts, k + 1, [] + bytes);
      assert [] + bytes == bytes;
      Associate(span, bytes, Meaning(m, parts, k + 1, Stop, []));
    }
  }

  lemma FinishNextExtends(m: CaseMap, op: Op, span: seq<byte>, bytes: seq<byte>)
    requires IsNext(op) && span != [] && Whole(span)
    ensures Whole(span + bytes) && Finish(m, op, span + bytes) == Finish(m, op, span) + bytes
  {
    var n := FirstLength(span);
    assert (span + bytes)[..n] == span[..n] && (span + bytes)[n..] == span[n..] + bytes;
    Associate(Convert(m, op, span[..n]), span[n..], bytes);
  }

  /** Once the first character is converted, the rest of the span is plain text. */
  lemma {:induction false} NextActsOnce(m: CaseMap, parts: seq<Part>, k: nat, op: Op, span: seq<byte>)
    requires k <= |parts| && IsNext(op) && span != [] && Whole(span)
    ensures Meaning(m, parts, k, op, span) == Finish(m, op, span) + Meaning(m, parts, k, Stop, [])
    decreases |parts| - k
  {
    if k == |parts| {
    } else if parts[k].Text? {
      var bytes := parts[k].bytes;
      FinishNextExtends(m, op, span, bytes);
      NextActsOnce(m, parts, k + 1, op, span + bytes);
      PlainTextComesFirst(m, parts, k + 1, [] + bytes);
      assert [] + bytes == bytes;
      Associate(Finish(m, op, span), bytes, Meaning(m, parts, k + 1, Stop, []));
    }
  }

  /** Where no empty copy takes effect, applying the instructions gives the direct expansion. */
  lemma {:induction false} ApplyFollowsMeaning(m: CaseMap, parts: seq<Part>, k: nat, op: Op, broken: bool, pending: seq<byte>)
    requires k <= |parts| && WellFormed(parts) && (op.Stop? || IsSpan(op) || IsNext(op))
    requires (IsSpan(op) || pending == []) && (broken ==> !op.Stop?)
    requires Unbroken(parts, k, op, broken, pending != [])
    ensures Apply(m, parts, k, if broken then Stop else op, pending) == Emitted(Meaning(m, parts, k, op, pending))
    decreases |parts| - k
  {
    if k == |parts| {
    } else if parts[k].Text? {
      var bytes := parts[k].bytes;
      if bytes == [] {
        assert pending + bytes == pending;
        ApplyFollowsMeaning(m, parts, k + 1, op, !op.Stop?, pending);
      } else if IsSpan(op) {
        ApplyFollowsMeaning(m, parts, k + 1, op, false, pending + bytes);
      } else {
        ApplyFollowsMeaning(m, parts, k + 1, Stop, false, []);
        assert [] + bytes == bytes;
        if IsNext(op) {
          NextActsOnce(m, parts, k + 1, op, bytes);
        } else {
          PlainTextComesFirst(m, parts, k + 1, bytes);
        }
      }
    } else {
      var next := parts[k].op;
      if next == op && IsSpan(op) {
        ApplyFollowsMeaning(m, parts, k + 1, op, false, pending);
      } else {
        ApplyFollowsMeaning(m, parts, k + 1, CaseAfter(next), false, []);
      }
    }
  }

  /** The parts never copy nothing inside a case span: a condition on the captures of the match alone. */
  predicate NoEmptyTexts(parts: seq<Part>) {
    forall k :: 0 <= k < |parts| && parts[k].Text? ==> parts[k].bytes != []
  }

  lemma {:induction false} NoEmptyTextsIsUnbroken(parts: seq<Part>, k: nat, op: Op, any: bool)
    requires k <= |parts| && NoEmptyTexts(parts)
    ensures Unbroken(parts, k, op, false, any)
    decreases |parts| - k
  {
    if k < |parts| {
      match parts[k]
      case Text(_) => NoEmptyTextsIsUnbroken(parts, k + 1, if IsSpan(op) then op else Stop, IsSpan(op));
                      NoEmptyTextsIsUnbroken(parts, k + 1, Stop, false);
      case Case(next) => NoEmptyTextsIsUnbroken(parts, k + 1, op, any);
                         NoEmptyTextsIsUnbroken(parts, k + 1, CaseAfter(next), false);
    }
  }

  /** Templates without case operations expand as they should whatever is empty. */
  lemma {:induction false} PlainTemplatesAreUnbroken(parts: seq<Part>, k: nat)
    requires k <= |parts| && forall i :: 0 <= i < |parts| ==> parts[i].Text?
    ensures Unbroken(parts, k, Stop, false, false)
    decreases |parts| - k
  {
    if k < |parts| {
      PlainTemplatesAreUnbroken(parts, k + 1);
    }
  }
}
