/**
 Search and replace with a template as it is written (Source/NSString.m:731-797): which string comes back, said of the
 bytes of the subject, the ranges of the matches and the items of the template, and exactly when.
 */
module WrittenReplacement {
  import opened Base
  import opened Instructions
  import opened CaseExpansion
  import opened ReferenceCompiler
  import opened Applier
  import opened Expander
  import opened Matching
  import opened Replacer
  import opened Replacement
  import opened TemplateTexts
  import opened TemplateExpansion

  /** The matches lie in the subject, one behind the other, with the captures of the regex. */
  ghost predicate Placed(regex: Regex, mem: seq<byte>, subject: Subject, from: nat, to: nat, matches: seq<seq<Range>>) {
    && from <= to <= subject.length && subject.ptr + subject.length <= |mem| && Ascending(matches, from, to)
    && forall k :: 0 <= k < |matches| ==> Captured(regex, mem, MatchOf(subject, matches[k]))
  }

  /** The subject from one place to another. */
  function Between(mem: seq<byte>, subject: Subject, from: nat, to: nat): seq<byte>
    requires from <= to <= subject.length && subject.ptr + subject.length <= |mem|
  {
    mem[subject.ptr + from..subject.ptr + to]
  }

  /** The text before match k, from the end of the match before it. */
  ghost function GapText(regex: Regex, mem: seq<byte>, subject: Subject, from: nat, to: nat, matches: seq<seq<Range>>, k: nat): seq<byte>
    requires Placed(regex, mem, subject, from, to, matches) && k < |matches|
  {
    var at := if k == 0 then from else matches[k - 1][0].location + matches[k - 1][0].length;
    assert at <= matches[k][0].location by {
      assert k > 0 ==> Matching.End(matches[k - 1]) <= Matching.Start(matches[k]);
    }
    Between(mem, subject, at, matches[k][0].location)
  }

  /** What the template stands for at each match, with the gaps before the matches if they are copied. */
  ghost function Pieces(regex: Regex, mem: seq<byte>, subject: Subject, items: seq<Item>, from: nat, to: nat, matches: seq<seq<Range>>,
                        replace: bool): (pieces: seq<seq<byte>>)
    requires Placed(regex, mem, subject, from, to, matches) && AllWritten(regex, items)
    ensures |pieces| == |matches|
  {
    seq(|matches|, k requires 0 <= k < |matches| =>
      (if replace then GapText(regex, mem, subject, from, to, matches, k) else []) + Meant(regex, mem, MatchOf(subject, matches[k]), items))
  }

  /** The string that is asked for: what comes before the search range, the gaps and for each match what the template stands
      for, and the rest of the subject; without replacing, only what the template stands for at each match. */
  ghost function ResultText(regex: Regex, mem: seq<byte>, subject: Subject, items: seq<Item>, from: nat, to: nat, matches: seq<seq<Range>>,
                            replace: bool): seq<byte>
    requires Placed(regex, mem, subject, from, to, matches) && AllWritten(regex, items)
  {
    var pieces := Concatenated(Pieces(regex, mem, subject, items, from, to, matches, replace), |matches|);
    var at := if matches == [] then from else matches[|matches| - 1][0].location + matches[|matches| - 1][0].length;
    if replace then Between(mem, subject, 0, from) + pieces + Between(mem, subject, at, subject.length) else pieces
  }

  lemma GapIsBetween(mem: seq<byte>, subject: Subject, from: nat, to: nat)
    requires from <= to <= subject.length && subject.ptr + subject.length <= |mem|
    ensures Gap(mem, subject, from, to) == Between(mem, subject, from, to)
  {
    PieceIsSlice(mem, subject.ptr + from, to - from);
  }

  /** One match in the direct form. */
  lemma OnePiece(regex: Regex, m: CaseMap, mem: seq<byte>, subject: Subject, items: seq<Item>, from: nat, to: nat, matches: seq<seq<Range>>,
                 k: nat, replace: bool)
    requires Placed(regex, mem, subject, from, to, matches) && AllWritten(regex, items) && k < |matches|
    ensures GapBefore(mem, subject, After(from, matches, k), matches[k], replace)
            + Intended(m, mem, MatchOf(subject, matches[k]), ElementsOfItems(regex, items))
            == Pieces(regex, mem, subject, items, from, to, matches, replace)[k]
  {
    ItemsExpand(regex, m, mem, MatchOf(subject, matches[k]), items);
    assert k > 0 ==> Matching.End(matches[k - 1]) <= Matching.Start(matches[k]);
    GapIsBetween(mem, subject, After(from, matches, k), matches[k][0].location);
  }

  lemma {:induction false} ReplacedIsPieces(regex: Regex, m: CaseMap, mem: seq<byte>, subject: Subject, items: seq<Item>, from: nat, to: nat,
                                            matches: seq<seq<Range>>, k: nat, replace: bool)
    requires Placed(regex, mem, subject, from, to, matches) && AllWritten(regex, items) && k <= |matches|
    ensures Replaced(m, mem, subject, ElementsOfItems(regex, items), from, matches, k, replace) ==
            (if replace then Between(mem, subject, 0, from) else [])
            + Concatenated(Pieces(regex, mem, subject, items, from, to, matches, replace), k)
  {
    var start := if replace then Between(mem, subject, 0, from) else [];
    if k == 0 {
      GapIsBetween(mem, subject, 0, from);
      assert start + [] == start;
    } else {
      var pieces := Pieces(regex, mem, subject, items, from, to, matches, replace);
      ReplacedIsPieces(regex, m, mem, subject, items, from, to, matches, k - 1, replace);
      OnePiece(regex, m, mem, subject, items, from, to, matches, k - 1, replace);
      Associate(start + Concatenated(pieces, k - 1), GapBefore(mem, subject, After(from, matches, k - 1), matches[k - 1], replace),
                Intended(m, mem, MatchOf(subject, matches[k - 1]), ElementsOfItems(regex, items)));
      Associate(start, Concatenated(pieces, k - 1), pieces[k - 1]);
    }
  }

  /** The direct form is the string that is asked for. */
  lemma DirectIsResult(regex: Regex, m: CaseMap, mem: seq<byte>, subject: Subject, items: seq<Item>, from: nat, to: nat, matches: seq<seq<Range>>,
                       replace: bool)
    requires Placed(regex, mem, subject, from, to, matches) && AllWritten(regex, items)
    ensures DirectText(m, mem, subject, ElementsOfItems(regex, items), from, matches, replace)
            == ResultText(regex, mem, subject, items, from, to, matches, replace)
  {
    var pieces := Concatenated(Pieces(regex, mem, subject, items, from, to, matches, replace), |matches|);
    ReplacedIsPieces(regex, m, mem, subject, items, from, to, matches, |matches|, replace);
    GapIsBetween(mem, subject, After(from, matches, |matches|), subject.length);
    assert [] + pieces == pieces;
  }

  lemma TakenArePlaced(regex: Regex, matcher: Matcher, mem: seq<byte>, subject: Subject, from: nat, to: nat, n: nat)
    requires Suits(regex, matcher, mem, subject) && from <= to <= subject.length
    ensures Placed(regex, mem, subject, from, to, Taken(matcher, from, to, n))
  {
    var matches := Taken(matcher, from, to, n);
    TakenIsAscending(matcher, subject.length, from, to, n);
    forall k | 0 <= k < |matches|
      ensures Captured(regex, mem, MatchOf(subject, matches[k]))
    {
      var at := TakenAreFound(matcher, subject.length, from, to, n, k);
      assert Proper(matcher, subject.length, at, to);
    }
  }

  /** The template stands for nothing at any of the matches. */
  ghost predicate MeansNothing(regex: Regex, mem: seq<byte>, subject: Subject, items: seq<Item>, from: nat, to: nat, matches: seq<seq<Range>>)
    requires Placed(regex, mem, subject, from, to, matches) && AllWritten(regex, items)
  {
    forall k :: 0 <= k < |matches| ==> Meant(regex, mem, MatchOf(subject, matches[k]), items) == []
  }

  lemma NothingIsNothing(regex: Regex, m: CaseMap, mem: seq<byte>, subject: Subject, items: seq<Item>, from: nat, to: nat, matches: seq<seq<Range>>)
    requires Placed(regex, mem, subject, from, to, matches) && AllWritten(regex, items)
    ensures ExpandsToNothing(m, mem, subject, ElementsOfItems(regex, items), matches, |matches|)
            <==> MeansNothing(regex, mem, subject, items, from, to, matches)
  {
    forall k | 0 <= k < |matches|
      ensures Intended(m, mem, MatchOf(subject, matches[k]), ElementsOfItems(regex, items)) == Meant(regex, mem, MatchOf(subject, matches[k]), items)
    {
      ItemsExpand(regex, m, mem, MatchOf(subject, matches[k]), items);
    }
  }

  /** What is said of elements in the direct form, said of the items as they are written. */
  lemma SaidOfItems(regex: Regex, m: CaseMap, matcher: Matcher, mem: seq<byte>, subject: Subject, items: seq<Item>, from: nat, to: nat, n: nat,
                    replace: bool)
    requires Suits(regex, matcher, mem, subject) && from <= to <= subject.length && AllWritten(regex, items)
    ensures var matches, elements := Taken(matcher, from, to, n), ElementsOfItems(regex, items);
            && Parse(regex, TemplateTexts.Text(regex, items), 0) == Elements(elements)
            && (forall k :: 0 <= k < |elements| ==> !elements[k].Change?)
            && Placed(regex, mem, subject, from, to, matches)
            && DirectText(m, mem, subject, elements, from, matches, replace) == ResultText(regex, mem, subject, items, from, to, matches, replace)
            && (ExpandsToNothing(m, mem, subject, elements, matches, |matches|) <==> MeansNothing(regex, mem, subject, items, from, to, matches))
  {
    var matches := Taken(matcher, from, to, n);
    ParseReadsBack(regex, items);
    TakenArePlaced(regex, matcher, mem, subject, from, to, n);
    DirectIsResult(regex, m, mem, subject, items, from, to, matches, replace);
    NothingIsNothing(regex, m, mem, subject, items, from, to, matches);
  }

  /** For a template of bytes and captures, replacing or expanding the matches taken in turn, no more than count of them, gives
      back the string that is asked for if and only if that has no NUL, the template has at most 64 instructions or stands
      for nothing at every match, and the copies, joined where they are adjacent, are at most 64. */
  method ReplaceItems(regex: Regex, m: CaseMap, memory: Memory, subject: Subject, matcher: Matcher, searchRange: Range,
                      items: seq<Item>, t: seq<byte>, base: nat, count: Option<nat>, replace: bool,
                      stackReferences: seq<Reference>, stackCopies: seq<Copy>, ghost bound: nat)
    returns (r: Result, matchedCount: nat, ghost matches: seq<seq<Range>>)
    requires |stackReferences| == 64 == |stackCopies|
    requires AllWritten(regex, items) && t == TemplateTexts.Text(regex, items)
    requires WholeCharacters(t) && base + |t| <= |memory.bytes| && memory.bytes[base..base + |t|] == t
    requires Suits(regex, matcher, memory.bytes, subject) && searchRange.Max() <= subject.length
    requires count == None ==> |Taken(matcher, searchRange.location, searchRange.Max(), bound)| < bound
    modifies memory
    ensures r.Buffer? || (r.Unchanged? && subject.length == 0)
    ensures TakesInTurn(matcher, searchRange.location, searchRange.Max(), count, matches) && matchedCount == |matches|
    ensures var mem, from, to := old(memory.bytes), searchRange.location, searchRange.Max();
            && Placed(regex, mem, subject, from, to, matches)
            && var text := ResultText(regex, mem, subject, items, from, to, matches, replace);
               StringReturned(mem, subject, r) == text <==>
                 && 0 !in text
                 && (|InstructionsOf(regex, t, base)| <= 64 || MeansNothing(regex, mem, subject, items, from, to, matches))
                 && |FinalLog(subject, InstructionsOf(regex, t, base), from, matches, replace)| <= 64
  {
    ghost var mem, from, to, n := memory.bytes, searchRange.location, searchRange.Max(), Limit(count, bound);
    ghost var copies;
    matches := Taken(matcher, from, to, n);
    SaidOfItems(regex, m, matcher, mem, subject, items, from, to, n, replace);
    LimitTakesInTurn(matcher, from, to, count, bound);
    r, matchedCount, copies := ReplacePlain(regex, m, memory, subject, matcher, searchRange, t, base, count, replace,
                                            stackReferences, stackCopies, bound);
  }
}
