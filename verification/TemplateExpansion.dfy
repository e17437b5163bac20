/**
 What a template as it is written comes out as (Source/NSString.m:815-985): bytes and captures copied, and the text
 between \U, \L, \u or \l and \E in capital or small letters.
 */
module TemplateExpansion {
  import opened Base
  import opened Instructions
  import opened CaseExpansion
  import opened ReferenceCompiler
  import opened Applier
  import opened Expander
  import opened TemplateTexts
  import CaseSpans
  import Unicode

  // ---------------------------------------------------------------------------------------
  // What items mean for a match
  // ---------------------------------------------------------------------------------------

  /** The match has the captures of the regex, inside the subject. */
  ghost predicate Captured(regex: Regex, mem: seq<byte>, x: Match) {
    Fits(mem, x) && |x.ranges| == regex.captureCount
  }

  /** The bytes of a capture. */
  ghost function CaptureText(regex: Regex, mem: seq<byte>, x: Match, n: nat): seq<byte>
    requires Captured(regex, mem, x) && n < regex.captureCount
  {
    var range := x.ranges[n];
    if range.length == 0 then [] else mem[x.subject + range.location..x.subject + range.location + range.length]
  }

  ghost function ItemMeans(regex: Regex, mem: seq<byte>, x: Match, item: Item): seq<byte>
    requires Captured(regex, mem, x) && Written(regex, item)
  {
    match item
    case Byte(c) => [c]
    case DollarSign => Ascii("$")
    case Numbered(_, n) => CaptureText(regex, mem, x, n)
    case Named(name) => CaptureText(regex, mem, x, regex.indexOf(Ascii(name)).value)
  }

  /** What each item stands for. */
  ghost function Meanings(regex: Regex, mem: seq<byte>, x: Match, items: seq<Item>): (texts: seq<seq<byte>>)
    requires Captured(regex, mem, x) && AllWritten(regex, items)
    ensures |texts| == |items|
  {
    seq(|items|, k requires 0 <= k < |items| => ItemMeans(regex, mem, x, items[k]))
  }

  /** The text that items stand for. */
  ghost function Meant(regex: Regex, mem: seq<byte>, x: Match, items: seq<Item>): seq<byte>
    requires Captured(regex, mem, x) && AllWritten(regex, items)
  {
    Concatenated(Meanings(regex, mem, x, items), |items|)
  }

  lemma ItemIsFilled(regex: Regex, mem: seq<byte>, x: Match, item: Item)
    requires Captured(regex, mem, x) && Written(regex, item)
    ensures FilledOne(mem, x, ElementOf(regex, item)) == CaseExpansion.Text(ItemMeans(regex, mem, x, item))
  {
    match item
    case Byte(_) =>
    case DollarSign =>
    case Numbered(_, n) => CaptureIsPiece(regex, mem, x, n);
    case Named(name) => CaptureIsPiece(regex, mem, x, regex.indexOf(Ascii(name)).value);
  }

  lemma CaptureIsPiece(regex: Regex, mem: seq<byte>, x: Match, n: nat)
    requires Captured(regex, mem, x) && n < regex.captureCount
    ensures Piece(mem, x.subject + x.ranges[n].location, x.ranges[n].length) == CaptureText(regex, mem, x, n)
  {
    if x.ranges[n].length > 0 {
      PieceIsSlice(mem, x.subject + x.ranges[n].location, x.ranges[n].length);
    }
  }

  /** The elements of items, filled in. */
  lemma ItemsAreFilled(regex: Regex, mem: seq<byte>, x: Match, items: seq<Item>, list: seq<Element>, i: nat)
    requires Captured(regex, mem, x) && AllWritten(regex, items)
    requires i + |items| <= |list| && list[i..i + |items|] == ElementsOfItems(regex, items)
    ensures TextsAt(Filled(mem, x, list), i, Meanings(regex, mem, x, items))
  {
    forall k | 0 <= k < |items|
      ensures Filled(mem, x, list)[i + k] == CaseExpansion.Text(Meanings(regex, mem, x, items)[k])
    {
      ItemIsFilled(regex, mem, x, items[k]);
      assert list[i + k] == list[i..i + |items|][k];
    }
  }

  // ---------------------------------------------------------------------------------------
  // Texts among the parts
  // ---------------------------------------------------------------------------------------

  /** The parts from the i-th on are these texts. */
  predicate TextsAt(parts: seq<Part>, i: nat, texts: seq<seq<byte>>) {
    i + |texts| <= |parts| && forall k :: 0 <= k < |texts| ==> parts[i + k] == CaseExpansion.Text(texts[k])
  }

  lemma TextsAtEach(parts: seq<Part>, i: nat, texts: seq<seq<byte>>)
    requires TextsAt(parts, i, texts)
    ensures forall k :: i <= k < i + |texts| ==> parts[k] == CaseExpansion.Text(texts[k - i])
  {
    forall k | i <= k < i + |texts|
      ensures parts[k] == CaseExpansion.Text(texts[k - i])
    {
      assert parts[i + (k - i)] == CaseExpansion.Text(texts[k - i]);
    }
  }

  /** At this place f adds a text to what it is given, and goes on. */
  ghost predicate Adds(f: (nat, seq<byte>) -> seq<byte>, at: nat, text: seq<byte>) {
    forall span: seq<byte> {:trigger f(at, span)} :: f(at, span) == f(at + 1, span + text)
  }

  lemma {:induction false} AddsAll(f: (nat, seq<byte>) -> seq<byte>, i: nat, texts: seq<seq<byte>>, k: nat)
    requires k <= |texts| && forall j :: 0 <= j < |texts| ==> Adds(f, i + j, texts[j])
    ensures f(i, []) == f(i + k, Concatenated(texts, k))
  {
    if k > 0 {
      AddsAll(f, i, texts, k - 1);
      assert Adds(f, i + (k - 1), texts[k - 1]);
    }
  }

  /** The meaning of the parts from each place on, with a case in force. */
  function MeaningFrom(m: CaseMap, parts: seq<Part>, op: Op): (nat, seq<byte>) -> seq<byte> {
    (i: nat, span: seq<byte>) => if i <= |parts| then Meaning(m, parts, i, op, span) else []
  }

  lemma TextIsAdded(m: CaseMap, parts: seq<Part>, i: nat, op: Op, text: seq<byte>)
    requires i < |parts| && parts[i] == CaseExpansion.Text(text)
    ensures Adds(MeaningFrom(m, parts, op), i, text)
  {
  }

  lemma AllTextsAdd(m: CaseMap, parts: seq<Part>, i: nat, texts: seq<seq<byte>>, op: Op)
    requires TextsAt(parts, i, texts)
    ensures forall j :: 0 <= j < |texts| ==> Adds(MeaningFrom(m, parts, op), i + j, texts[j])
  {
    forall j | 0 <= j < |texts|
      ensures Adds(MeaningFrom(m, parts, op), i + j, texts[j])
    {
      TextIsAdded(m, parts, i + j, op, texts[j]);
    }
  }

  /** Texts one after the other are what an empty span comes to hold. */
  lemma TextsAreCollected(m: CaseMap, parts: seq<Part>, i: nat, next: nat, texts: seq<seq<byte>>, op: Op, text: seq<byte>)
    requires TextsAt(parts, i, texts) && next == i + |texts| && text == Concatenated(texts, |texts|)
    ensures Meaning(m, parts, i, op, []) == Meaning(m, parts, next, op, text)
  {
    AllTextsAdd(m, parts, i, texts, op);
    AddsAll(MeaningFrom(m, parts, op), i, texts, |texts|);
  }

  // ---------------------------------------------------------------------------------------
  // Templates without case operations
  // ---------------------------------------------------------------------------------------

  lemma TextsMean(m: CaseMap, parts: seq<Part>, texts: seq<seq<byte>>)
    requires TextsAt(parts, 0, texts) && |parts| == |texts|
    ensures Expansion(m, parts) == Concatenated(texts, |texts|)
  {
    TextsAreCollected(m, parts, 0, |parts|, texts, Stop, Concatenated(texts, |texts|));
  }

  lemma ItemsExpand(regex: Regex, m: CaseMap, mem: seq<byte>, x: Match, items: seq<Item>)
    requires Captured(regex, mem, x) && AllWritten(regex, items)
    ensures var list := ElementsOfItems(regex, items);
            Clean(mem, x, list) && Intended(m, mem, x, list) == Meant(regex, mem, x, items)
  {
    var list := ElementsOfItems(regex, items);
    CleanWithoutCaseOperations(m, mem, x, list);
    assert list[0..|items|] == list;
    ItemsAreFilled(regex, mem, x, items, list, 0);
    TextsMean(m, Filled(mem, x, list), Meanings(regex, mem, x, items));
  }

  /** A template of bytes and captures, of at most 32 instructions, comes out as those bytes and the texts of those captures. */
  method ExpandItems(regex: Regex, m: CaseMap, memory: Memory, x: Match, items: seq<Item>, t: seq<byte>, base: nat,
                     stackReferences: seq<Reference>, stackCopies: seq<Copy>)
    returns (r: Result)
    requires |stackReferences| == STACK_INSTRUCTIONS == |stackCopies|
    requires AllWritten(regex, items) && t == TemplateTexts.Text(regex, items) && 2 * |InstructionsOf(regex, t, base)| <= STACK_INSTRUCTIONS
    requires WholeCharacters(t) && base + |t| <= |memory.bytes| && memory.bytes[base..base + |t|] == t
    requires Captured(regex, memory.bytes, x) && WholeCaptures(memory.bytes, x)
    modifies memory
    ensures r == Buffer(Meant(regex, old(memory.bytes), x, items) + [0])
  {
    ParseReadsBack(regex, items);
    ItemsExpand(regex, m, memory.bytes, x, items);
    r := ShortTemplatesExpand(regex, m, memory, x, t, base, stackReferences, stackCopies);
  }

  // ---------------------------------------------------------------------------------------
  // Templates with one case operation
  // ---------------------------------------------------------------------------------------

  /** The letters of the case operations, and the one that ends them. */
  predicate IsLetter(letter: char) {
    letter == 'U' || letter == 'L' || letter == 'u' || letter == 'l' || letter == 'E'
  }

  function OpOf(letter: char): Op
    requires IsLetter(letter)
  {
    match letter
    case 'U' => UppercaseBegin
    case 'L' => LowercaseBegin
    case 'u' => UppercaseNextChar
    case 'l' => LowercaseNextChar
    case _ => ChangeCaseEnd
  }

  /** A backslash and a letter. */
  function Switch(letter: char): (s: seq<byte>)
    requires IsLetter(letter)
    ensures |s| == 2
  {
    Ascii("\\") + Ascii([letter])
  }

  lemma SwitchIsRead(regex: Regex, t: seq<byte>, i: nat, letter: char)
    requires IsLetter(letter) && Stands(t, i, Switch(letter))
    ensures ReadsAs(Parser(regex, t), i, i + 2, [Change(OpOf(letter))])
  {
    TwoStand(t, i, Switch(letter));
    assert Switch(letter)[0] == 92 && Switch(letter)[1] as int == letter as int;
    TakenIsRead(regex, t, i, Change(OpOf(letter)), 2);
  }

  /** A template with one case operation, around the text that it is for. */
  function CaseTemplate(regex: Regex, before: seq<Item>, letter: char, text: seq<Item>, behind: seq<Item>): seq<byte>
    requires AllWritten(regex, before) && AllWritten(regex, text) && AllWritten(regex, behind) && IsLetter(letter)
  {
    TemplateTexts.Text(regex, before)
    + (Switch(letter) + (TemplateTexts.Text(regex, text) + (Switch('E') + TemplateTexts.Text(regex, behind))))
  }

  function CaseElements(regex: Regex, before: seq<Item>, letter: char, text: seq<Item>, behind: seq<Item>): seq<Element>
    requires AllWritten(regex, before) && AllWritten(regex, text) && AllWritten(regex, behind) && IsLetter(letter)
  {
    ElementsOfItems(regex, before)
    + (([Change(OpOf(letter))] + ElementsOfItems(regex, text)) + ([Change(ChangeCaseEnd)] + ElementsOfItems(regex, behind)))
  }

  /** The pieces of the template, each in its place. */
  lemma PiecesStand(t: seq<byte>, a: seq<byte>, letter: char, b: seq<byte>, c: seq<byte>)
    requires IsLetter(letter) && t == a + (Switch(letter) + (b + (Switch('E') + c)))
    ensures Stands(t, 0, a) && Stands(t, |a|, Switch(letter)) && Stands(t, |a| + 2, b)
    ensures Stands(t, |a| + 2 + |b|, Switch('E')) && Stands(t, |a| + 4 + |b|, c) && |t| == |a| + 4 + |b| + |c|
  {
    StandsSplit(t, 0, a, Switch(letter) + (b + (Switch('E') + c)));
    StandsSplit(t, |a|, Switch(letter), b + (Switch('E') + c));
    StandsSplit(t, |a| + 2, b, Switch('E') + c);
    StandsSplit(t, |a| + 2 + |b|, Switch('E'), c);
  }

  /** A case operation and items behind it. */
  lemma SwitchAndItemsAreRead(regex: Regex, t: seq<byte>, i: nat, letter: char, items: seq<Item>, next: nat)
    requires IsLetter(letter) && AllWritten(regex, items) && next == i + 2 + |TemplateTexts.Text(regex, items)|
    requires Stands(t, i, Switch(letter)) && Stands(t, i + 2, TemplateTexts.Text(regex, items))
    ensures ReadsAs(Parser(regex, t), i, next, [Change(OpOf(letter))] + ElementsOfItems(regex, items))
  {
    SwitchIsRead(regex, t, i, letter);
    ItemsAreRead(regex, t, i + 2, next, items);
    ReadsTogether(Parser(regex, t), i, i + 2, next, [Change(OpOf(letter))], ElementsOfItems(regex, items));
  }

  lemma ThreeReadTogether(parse: nat -> Parsed, i: nat, j: nat, end: nat, a: seq<Element>, b: seq<Element>, c: seq<Element>)
    requires ReadsAs(parse, 0, i, a) && ReadsAs(parse, i, j, b) && ReadsAs(parse, j, end, c)
    ensures ReadsAs(parse, 0, end, a + (b + c))
  {
    ReadsTogether(parse, i, j, end, b, c);
    ReadsTogether(parse, 0, i, end, a, b + c);
  }

  /** The template is read as what is written. */
  lemma CaseTemplateIsRead(regex: Regex, before: seq<Item>, letter: char, text: seq<Item>, behind: seq<Item>, t: seq<byte>)
    requires AllWritten(regex, before) && AllWritten(regex, text) && AllWritten(regex, behind) && IsLetter(letter)
    requires t == CaseTemplate(regex, before, letter, text, behind)
    ensures Parse(regex, t, 0) == Elements(CaseElements(regex, before, letter, text, behind))
  {
    var i := |TemplateTexts.Text(regex, before)|;
    var j := i + 2 + |TemplateTexts.Text(regex, text)|;
    PiecesStand(t, TemplateTexts.Text(regex, before), letter, TemplateTexts.Text(regex, text), TemplateTexts.Text(regex, behind));
    ItemsAreRead(regex, t, 0, i, before);
    SwitchAndItemsAreRead(regex, t, i, letter, text, j);
    SwitchAndItemsAreRead(regex, t, j, 'E', behind, |t|);
    ThreeReadTogether(Parser(regex, t), i, j, |t|, ElementsOfItems(regex, before), [Change(OpOf(letter))] + ElementsOfItems(regex, text),
                      [Change(ChangeCaseEnd)] + ElementsOfItems(regex, behind));
    ReadsToEnd(regex, t, CaseElements(regex, before, letter, text, behind));
  }

  /** A case operation and its end, with texts before it, between them and behind. */
  predicate Surrounded(parts: seq<Part>, op: Op, before: seq<seq<byte>>, text: seq<seq<byte>>, behind: seq<seq<byte>>) {
    var first, last := |before|, |before| + 1 + |text|;
    && |parts| == last + 1 + |behind|
    && parts[first] == Case(op) && parts[last] == Case(ChangeCaseEnd) && (IsSpan(op) || IsNext(op))
    && TextsAt(parts, 0, before) && TextsAt(parts, first + 1, text) && TextsAt(parts, last + 1, behind)
  }

  lemma SliceOfFive(a: seq<Element>, b: Element, c: seq<Element>, d: Element, e: seq<Element>)
    ensures var s := a + (([b] + c) + ([d] + e));
            var first, last := |a|, |a| + 1 + |c|;
            && |s| == last + 1 + |e| && s[0..0 + first] == a && s[first] == b && s[first + 1..first + 1 + |c|] == c
            && s[last] == d && s[last + 1..last + 1 + |e|] == e
  {
  }

  lemma ElementsAreSurrounded(regex: Regex, mem: seq<byte>, x: Match, before: seq<Item>, op: Op, text: seq<Item>, behind: seq<Item>, list: seq<Element>)
    requires Captured(regex, mem, x) && (IsSpan(op) || IsNext(op))
    requires AllWritten(regex, before) && AllWritten(regex, text) && AllWritten(regex, behind)
    requires var first, last := |before|, |before| + 1 + |text|;
             && |list| == last + 1 + |behind| && list[first] == Change(op) && list[last] == Change(ChangeCaseEnd)
             && list[0..0 + first] == ElementsOfItems(regex, before) && list[first + 1..first + 1 + |text|] == ElementsOfItems(regex, text)
             && list[last + 1..last + 1 + |behind|] == ElementsOfItems(regex, behind)
    ensures Surrounded(Filled(mem, x, list), op, Meanings(regex, mem, x, before), Meanings(regex, mem, x, text), Meanings(regex, mem, x, behind))
  {
    ItemsAreFilled(regex, mem, x, before, list, 0);
    ItemsAreFilled(regex, mem, x, text, list, |before| + 1);
    ItemsAreFilled(regex, mem, x, behind, list, |before| + 2 + |text|);
  }

  lemma CaseIsSurrounded(regex: Regex, mem: seq<byte>, x: Match, before: seq<Item>, letter: char, text: seq<Item>, behind: seq<Item>)
    requires Captured(regex, mem, x) && IsLetter(letter) && letter != 'E'
    requires AllWritten(regex, before) && AllWritten(regex, text) && AllWritten(regex, behind)
    ensures Surrounded(Filled(mem, x, CaseElements(regex, before, letter, text, behind)), OpOf(letter),
                       Meanings(regex, mem, x, before), Meanings(regex, mem, x, text), Meanings(regex, mem, x, behind))
  {
    SliceOfFive(ElementsOfItems(regex, before), Change(OpOf(letter)), ElementsOfItems(regex, text), Change(ChangeCaseEnd),
                ElementsOfItems(regex, behind));
    ElementsAreSurrounded(regex, mem, x, before, OpOf(letter), text, behind, CaseElements(regex, before, letter, text, behind));
  }

  lemma MeaningAtEnd(m: CaseMap, parts: seq<Part>, last: nat, op: Op, span: seq<byte>, rest: seq<byte>)
    requires last < |parts| && parts[last] == Case(ChangeCaseEnd) && (IsSpan(op) || IsNext(op))
    requires Meaning(m, parts, last + 1, Stop, []) == rest
    ensures Meaning(m, parts, last, op, span) == Finish(m, op, span) + rest
  {
  }

  lemma MeaningAtSwitch(m: CaseMap, parts: seq<Part>, first: nat, op: Op, before: seq<byte>, rest: seq<byte>)
    requires first < |parts| && parts[first] == Case(op) && (IsSpan(op) || IsNext(op))
    requires Meaning(m, parts, first + 1, op, []) == rest
    ensures Meaning(m, parts, first, Stop, before) == before + rest
  {
  }

  /** From the end of the case operation on. */
  lemma MeaningBehind(m: CaseMap, parts: seq<Part>, op: Op, before: seq<seq<byte>>, text: seq<seq<byte>>, behind: seq<seq<byte>>, span: seq<byte>)
    requires Surrounded(parts, op, before, text, behind)
    ensures Meaning(m, parts, |before| + 1 + |text|, op, span) == Finish(m, op, span) + Concatenated(behind, |behind|)
  {
    TextsAreCollected(m, parts, |before| + 2 + |text|, |parts|, behind, Stop, Concatenated(behind, |behind|));
    MeaningAtEnd(m, parts, |before| + 1 + |text|, op, span, Concatenated(behind, |behind|));
  }

  /** The text between the case operation and its end is collected. */
  lemma SpanIsCollected(m: CaseMap, parts: seq<Part>, op: Op, before: seq<seq<byte>>, text: seq<seq<byte>>, behind: seq<seq<byte>>, span: seq<byte>)
    requires Surrounded(parts, op, before, text, behind) && span == Concatenated(text, |text|)
    ensures Meaning(m, parts, |before| + 1, op, []) == Meaning(m, parts, |before| + 1 + |text|, op, span)
  {
    TextsAreCollected(m, parts, |before| + 1, |before| + 1 + |text|, text, op, span);
  }

  /** From behind the case operation on. */
  lemma MeaningInside(m: CaseMap, parts: seq<Part>, op: Op, before: seq<seq<byte>>, text: seq<seq<byte>>, behind: seq<seq<byte>>, span: seq<byte>)
    requires Surrounded(parts, op, before, text, behind) && span == Concatenated(text, |text|)
    ensures Meaning(m, parts, |before| + 1, op, []) == Finish(m, op, span) + Concatenated(behind, |behind|)
  {
    SpanIsCollected(m, parts, op, before, text, behind, span);
    MeaningBehind(m, parts, op, before, text, behind, span);
  }

  /** From the case operation on. */
  lemma MeaningFromSwitch(m: CaseMap, parts: seq<Part>, op: Op, before: seq<seq<byte>>, text: seq<seq<byte>>, behind: seq<seq<byte>>, span: seq<byte>)
    requires Surrounded(parts, op, before, text, behind)
    ensures Meaning(m, parts, |before|, Stop, span) ==
            span + (Finish(m, op, Concatenated(text, |text|)) + Concatenated(behind, |behind|))
  {
    MeaningInside(m, parts, op, before, text, behind, Concatenated(text, |text|));
    MeaningAtSwitch(m, parts, |before|, op, span, Finish(m, op, Concatenated(text, |text|)) + Concatenated(behind, |behind|));
  }

  /** The text goes through the operation, what is around it stays. */
  lemma SurroundedMeaning(m: CaseMap, parts: seq<Part>, op: Op, before: seq<seq<byte>>, text: seq<seq<byte>>, behind: seq<seq<byte>>)
    requires Surrounded(parts, op, before, text, behind)
    ensures Expansion(m, parts) ==
            Concatenated(before, |before|) + (Finish(m, op, Concatenated(text, |text|)) + Concatenated(behind, |behind|))
  {
    TextsAreCollected(m, parts, 0, |before|, before, Stop, Concatenated(before, |before|));
    MeaningFromSwitch(m, parts, op, before, text, behind, Concatenated(before, |before|));
  }

  lemma {:induction false} FullRunIsUnbroken(parts: seq<Part>, k: nat, last: nat, op: Op, any: bool)
    requires k <= last < |parts| && parts[last] == Case(ChangeCaseEnd)
    requires forall i :: k <= i < last ==> parts[i].Text? && parts[i].bytes != []
    requires forall i :: last < i < |parts| ==> parts[i].Text?
    requires op.Stop? || IsSpan(op) || IsNext(op)
    ensures Unbroken(parts, k, op, false, any)
    decreases last - k
  {
    if k < last {
      FullRunIsUnbroken(parts, k + 1, last, if IsSpan(op) then op else Stop, IsSpan(op));
      FullRunIsUnbroken(parts, k + 1, last, Stop, false);
    } else {
      CaseSpans.PlainIsUnbroken(parts, last + 1);
    }
  }

  lemma {:induction false} PlainBeforeIsUnbroken(parts: seq<Part>, k: nat, first: nat)
    requires k <= first <= |parts| && (forall i :: k <= i < first ==> parts[i].Text?) && Unbroken(parts, first, Stop, false, false)
    ensures Unbroken(parts, k, Stop, false, false)
    decreases first - k
  {
    if k < first {
      PlainBeforeIsUnbroken(parts, k + 1, first);
    }
  }

  predicate NoneEmpty(texts: seq<seq<byte>>) {
    forall k :: 0 <= k < |texts| ==> texts[k] != []
  }

  lemma TextsAreFull(parts: seq<Part>, i: nat, texts: seq<seq<byte>>)
    requires TextsAt(parts, i, texts) && NoneEmpty(texts)
    ensures forall k :: i <= k < i + |texts| ==> parts[k].Text? && parts[k].bytes != []
  {
    TextsAtEach(parts, i, texts);
  }

  lemma UnbrokenAround(parts: seq<Part>, first: nat, last: nat, op: Op)
    requires first < last < |parts| && parts[first] == Case(op) && parts[last] == Case(ChangeCaseEnd) && (IsSpan(op) || IsNext(op))
    requires (forall k :: 0 <= k < first ==> parts[k].Text?) && (forall k :: last < k < |parts| ==> parts[k].Text?)
    requires forall k :: first < k < last ==> parts[k].Text? && parts[k].bytes != []
    ensures Unbroken(parts, 0, Stop, false, false)
  {
    FullRunIsUnbroken(parts, first + 1, last, op, false);
    PlainBeforeIsUnbroken(parts, 0, first);
  }

  lemma SurroundedIsUnbroken(parts: seq<Part>, op: Op, before: seq<seq<byte>>, text: seq<seq<byte>>, behind: seq<seq<byte>>)
    requires Surrounded(parts, op, before, text, behind) && NoneEmpty(text)
    ensures Unbroken(parts, 0, Stop, false, false)
  {
    TextsAtEach(parts, 0, before);
    TextsAreFull(parts, |before| + 1, text);
    TextsAtEach(parts, |before| + 2 + |text|, behind);
    UnbrokenAround(parts, |before|, |before| + 1 + |text|, op);
  }

  /** A text up to its first NUL. */
  predicate UpToNul(text: seq<byte>, r: seq<byte>) {
    |r| <= |text| && text[..|r|] == r && 0 !in r && (|r| == |text| || text[|r|] == 0)
  }

  lemma {:induction false} CStringEnds(text: seq<byte>)
    ensures UpToNul(text, CString(text))
  {
    if text != [] && text[0] != 0 {
      CStringEnds(text[1..]);
      var rest := CString(text[1..]);
      assert text[1..][..|rest|] == text[1..1 + |rest|];
      assert text[..1 + |rest|] == [text[0]] + text[1..1 + |rest|];
    }
  }

  /** What the case operations make of a text: \U and \L convert all of it, \u and \l its first character. */
  ghost predicate Cased(m: CaseMap, letter: char, text: seq<byte>, first: Unicode.Scalar, rest: seq<byte>, r: seq<byte>) {
    match letter
    case 'U' => UpToNul(m.upper(text), r)
    case 'L' => UpToNul(m.lower(text), r)
    case 'u' => |rest| <= |r| && r[|r| - |rest|..] == rest && UpToNul(m.upper(Unicode.Char8(first)), r[..|r| - |rest|])
    case 'l' => |rest| <= |r| && r[|r| - |rest|..] == rest && UpToNul(m.lower(Unicode.Char8(first)), r[..|r| - |rest|])
    case _ => false
  }

  lemma FinishIsCased(m: CaseMap, letter: char, text: seq<byte>, first: Unicode.Scalar, rest: seq<byte>)
    requires IsLetter(letter) && letter != 'E' && text != []
    requires letter == 'u' || letter == 'l' ==> text == Unicode.Char8(first) + rest
    ensures Cased(m, letter, text, first, rest, Finish(m, OpOf(letter), text))
  {
    CStringEnds(m.upper(text));
    CStringEnds(m.lower(text));
    if letter == 'u' || letter == 'l' {
      var n := |Unicode.Char8(first)|;
      Unicode.TablesAreRight(first);
      assert text[0] == Unicode.Char8(first)[0] && text[..n] == Unicode.Char8(first) && text[n..] == rest;
      CStringEnds(m.upper(Unicode.Char8(first)));
      CStringEnds(m.lower(Unicode.Char8(first)));
    }
  }

  lemma SomeText(texts: seq<seq<byte>>)
    requires texts != [] && NoneEmpty(texts)
    ensures Concatenated(texts, |texts|) != []
  {
    assert texts[|texts| - 1] != [];
  }

  /** A template of bytes and captures with one case operation and the \E that ends it, of at most 32 instructions: what is
      around comes out as it is; what is between, if no capture there is empty, comes out as the operation says. For
      \u and \l the ghost arguments are the first character of that text and the rest of it. */
  method ExpandCase(regex: Regex, m: CaseMap, memory: Memory, x: Match, before: seq<Item>, letter: char, text: seq<Item>, behind: seq<Item>,
                    t: seq<byte>, base: nat, stackReferences: seq<Reference>, stackCopies: seq<Copy>,
                    ghost first: Unicode.Scalar, ghost rest: seq<byte>)
    returns (r: Result, ghost cased: seq<byte>)
    requires |stackReferences| == STACK_INSTRUCTIONS == |stackCopies|
    requires AllWritten(regex, before) && AllWritten(regex, text) && AllWritten(regex, behind) && IsLetter(letter) && letter != 'E'
    requires t == CaseTemplate(regex, before, letter, text, behind) && 2 * |InstructionsOf(regex, t, base)| <= STACK_INSTRUCTIONS
    requires WholeCharacters(t) && base + |t| <= |memory.bytes| && memory.bytes[base..base + |t|] == t
    requires Captured(regex, memory.bytes, x) && WholeCaptures(memory.bytes, x)
    requires text != [] && NoneEmpty(Meanings(regex, memory.bytes, x, text))
    requires letter == 'u' || letter == 'l' ==> Meant(regex, memory.bytes, x, text) == Unicode.Char8(first) + rest
    modifies memory
    ensures r == Buffer(Meant(regex, old(memory.bytes), x, before) + (cased + Meant(regex, old(memory.bytes), x, behind)) + [0])
    ensures Cased(m, letter, Meant(regex, old(memory.bytes), x, text), first, rest, cased)
  {
    ghost var mem, parts := memory.bytes, Filled(memory.bytes, x, CaseElements(regex, before, letter, text, behind));
    ghost var a, b, c := Meanings(regex, mem, x, before), Meanings(regex, mem, x, text), Meanings(regex, mem, x, behind);
    CaseTemplateIsRead(regex, before, letter, text, behind, t);
    CaseIsSurrounded(regex, mem, x, before, letter, text, behind);
    SurroundedMeaning(m, parts, OpOf(letter), a, b, c);
    SurroundedIsUnbroken(parts, OpOf(letter), a, b, c);
    SomeText(b);
    cased := Finish(m, OpOf(letter), Meant(regex, mem, x, text));
    FinishIsCased(m, letter, Meant(regex, mem, x, text), first, rest);
    r := ShortTemplatesExpand(regex, m, memory, x, t, base, stackReferences, stackCopies);
  }
}
