/**
 Templates written out (Source/NSString.m:1004-1075 and 1166-1257): how each element is spelled, that the
 compiler reads back what is spelled, and what \U, \L, \u, \l and \E make of the text behind them.
 */
module TemplateTexts {
  import opened Base
  import opened Instructions
  import opened CaseExpansion
  import opened ReferenceCompiler
  import opened Applier
  import opened Expander
  import NumberReader
  import Unicode

  datatype Form = Dollar | Backslash | Braces

  /** What can be written in a template besides changes of case: a byte, a dollar sign, a capture by number or by name. */
  datatype Item = Byte(c: byte) | DollarSign | Numbered(form: Form, index: nat) | Named(name: string)

  /** A name of letters, digits and underscores, not all of them digits. */
  predicate IsName(name: string) {
    && (forall k :: 0 <= k < |name| ==>
          '0' <= name[k] <= '9' || 'A' <= name[k] <= 'Z' || 'a' <= name[k] <= 'z' || name[k] == '_')
    && exists k :: 0 <= k < |name| && !('0' <= name[k] <= '9')
  }

  /** There is a text for the item. */
  predicate Spellable(item: Item) {
    match item
    case Numbered(form, n) => form.Braces? || n < 10
    case Named(name) => IsName(name)
    case _ => true
  }

  function ItemText(item: Item): seq<byte>
    requires Spellable(item)
  {
    match item
    case Byte(c) => [c]
    case DollarSign => Ascii("$$")
    case Numbered(Dollar, n) => Ascii("$") + [Ascii("0123456789")[n]]
    case Numbered(Backslash, n) => Ascii("\\") + [Ascii("0123456789")[n]]
    case Numbered(Braces, n) => Ascii("${") + NumberReader.Digits(false, 10, n) + Ascii("}")
    case Named(name) => Ascii("${") + Ascii(name) + Ascii("}")
  }

  /** An item as it may be written for the regex. */
  predicate Written(regex: Regex, item: Item) {
    match item
    case Byte(c) => c !in Ascii("$\\")
    case DollarSign => true
    case Numbered(form, n) => n < regex.captureCount && n < NOT_FOUND && (form.Braces? || n < 10)
    case Named(name) => IsName(name) && regex.indexOf(Ascii(name)).Some? && regex.indexOf(Ascii(name)).value < regex.captureCount
  }

  predicate AllWritten(regex: Regex, items: seq<Item>) {
    forall k :: 0 <= k < |items| ==> Written(regex, items[k])
  }

  function ItemTexts(regex: Regex, items: seq<Item>): (texts: seq<seq<byte>>)
    requires AllWritten(regex, items)
    ensures |texts| == |items|
  {
    seq(|items|, k requires 0 <= k < |items| => ItemText(items[k]))
  }

  /** The template text of a list of items. */
  function Text(regex: Regex, items: seq<Item>): seq<byte>
    requires AllWritten(regex, items)
  {
    Concatenated(ItemTexts(regex, items), |items|)
  }

  /** The element that an item is read as. */
  function ElementOf(regex: Regex, item: Item): Element
    requires Written(regex, item)
  {
    match item
    case Byte(c) => Literal(c)
    case DollarSign => Literal(36)
    case Numbered(_, n) => Capture(n)
    case Named(name) => Capture(regex.indexOf(Ascii(name)).value)
  }

  function ElementsOfItems(regex: Regex, items: seq<Item>): (list: seq<Element>)
    requires AllWritten(regex, items)
    ensures |list| == |items|
  {
    seq(|items|, k requires 0 <= k < |items| => ElementOf(regex, items[k]))
  }

  // ---------------------------------------------------------------------------------------
  // The compiler reads what is written
  // ---------------------------------------------------------------------------------------

  /** The text stands in t at i. */
  predicate Stands(t: seq<byte>, i: nat, text: seq<byte>) {
    i + |text| <= |t| && forall k :: 0 <= k < |text| ==> t[i + k] == text[k]
  }

  lemma DigitIsRead(n: nat)
    requires n < 10
    ensures var c := Ascii("0123456789")[n];
            IsDigit(c) && Digit(c) == n && c != 36 && c != 123
  {
    assert "0123456789"[n] as int == 48 + n;
  }

  lemma {:induction false} WordRuns(t: seq<byte>, i: nat, j: nat)
    requires i <= j <= |t| && (forall k :: i <= k < j ==> IsWord(t[k])) && !IsWord(At(t, j))
    ensures WordEnd(t, i) == j
    decreases j - i
  {
    if i < j {
      WordRuns(t, i + 1, j);
    }
  }

  lemma StandsSplit(t: seq<byte>, i: nat, a: seq<byte>, b: seq<byte>)
    requires Stands(t, i, a + b)
    ensures Stands(t, i, a) && Stands(t, i + |a|, b)
  {
    forall k | 0 <= k < |a|
      ensures t[i + k] == a[k]
    {
      assert t[i + k] == (a + b)[k];
    }
    forall k | 0 <= k < |b|
      ensures t[i + |a| + k] == b[k]
    {
      assert t[i + (|a| + k)] == (a + b)[|a| + k];
    }
  }

  lemma StandsIsSlice(t: seq<byte>, i: nat, text: seq<byte>)
    requires Stands(t, i, text)
    ensures t[i..i + |text|] == text
    ensures forall k :: i <= k < i + |text| ==> t[k] == text[k - i]
  {
    forall k | i <= k < i + |text|
      ensures t[k] == text[k - i]
    {
      assert t[i + (k - i)] == text[k - i];
    }
  }

  lemma OneStands(t: seq<byte>, i: nat, c: byte)
    requires Stands(t, i, [c])
    ensures i < |t| && t[i] == c
  {
    assert t[i + 0] == [c][0];
  }

  lemma TwoStand(t: seq<byte>, i: nat, text: seq<byte>)
    requires Stands(t, i, text) && |text| == 2
    ensures i + 1 < |t| && t[i] == text[0] && t[i + 1] == text[1]
  {
    assert t[i + 0] == text[0];
  }

  /** A dollar sign and an opening brace, and a word. */
  lemma OpenBrace(t: seq<byte>, i: nat, word: seq<byte>)
    requires Stands(t, i, Ascii("${") + word)
    ensures i + 2 + |word| <= |t| && t[i] == 36 && At(t, i + 1) == 123
    ensures t[i + 2..i + 2 + |word|] == word && Stands(t, i + 2, word)
    ensures forall k :: i + 2 <= k < i + 2 + |word| ==> t[k] == word[k - i - 2]
  {
    StandsSplit(t, i, Ascii("${"), word);
    TwoStand(t, i, Ascii("${"));
    StandsIsSlice(t, i + 2, word);
  }

  predicate AllWord(word: seq<byte>) {
    word != [] && forall k :: 0 <= k < |word| ==> IsWord(word[k])
  }

  /** A word in braces, up to its end. */
  lemma BracesEnclose(t: seq<byte>, i: nat, word: seq<byte>)
    requires AllWord(word) && Stands(t, i, Ascii("${") + word + Ascii("}"))
    ensures i + 3 + |word| <= |t| && t[i] == 36 && At(t, i + 1) == 123 && At(t, i + 2 + |word|) == 125
    ensures t[i + 2..i + 2 + |word|] == word && Stands(t, i + 2, word) && WordEnd(t, i + 2) == i + 2 + |word|
  {
    StandsSplit(t, i, Ascii("${") + word, Ascii("}"));
    assert Ascii("}") == [125];
    OneStands(t, i + 2 + |word|, 125);
    OpenBrace(t, i, word);
    WordRuns(t, i + 2, i + 2 + |word|);
  }

  /** The number or the name in braces. */
  lemma BracesAreRead(regex: Regex, t: seq<byte>, i: nat, word: seq<byte>, number: nat)
    requires i + 3 + |word| <= |t| && At(t, i + 1) == 123 && At(t, i + 2 + |word|) == 125 && word != []
    requires t[i + 2..i + 2 + |word|] == word && WordEnd(t, i + 2) == i + 2 + |word|
    requires Number(t, i + 2, i + 2 + |word|) == number
    ensures ReferenceAt(regex, t, i) == Checked(regex, if number == NOT_FOUND then regex.indexOf(word) else Some(number), |word| + 3)
  {
  }

  lemma {:induction false} ValueIsDecimal(t: seq<byte>, i: nat, j: nat)
    requires i <= j <= |t| && forall k :: i <= k < j ==> IsDigit(t[k])
    ensures NumberReader.Value(t, 10, i, j) == Decimal(t, i, j)
  {
    if i < j {
      ValueIsDecimal(t, i, j - 1);
    }
  }

  lemma DigitsStand(t: seq<byte>, i: nat, n: nat)
    requires Stands(t, i, NumberReader.Digits(false, 10, n))
    ensures forall k :: i <= k < i + |NumberReader.Digits(false, 10, n)| ==> IsDigit(t[k])
  {
    var digits := NumberReader.Digits(false, 10, n);
    NumberReader.DigitsAreDigits(false, 10, n);
    StandsIsSlice(t, i, digits);
    forall k | i <= k < i + |digits|
      ensures IsDigit(t[k])
    {
      assert NumberReader.JustDigit(digits[k - i], 10);
    }
  }

  lemma DigitsHaveValue(t: seq<byte>, i: nat, n: nat)
    requires Stands(t, i, NumberReader.Digits(false, 10, n))
    ensures NumberReader.Value(t, 10, i, i + |NumberReader.Digits(false, 10, n)|) == n
  {
    var digits := NumberReader.Digits(false, 10, n);
    var before, end := t[..i], i + |digits|;
    StandsIsSlice(t, i, digits);
    assert t[..end] == before + digits;
    assert NumberReader.Value(before, 10, i, i) == 0;
    NumberReader.DigitsSpell(before, i, false, 10, n, t[..end]);
    NumberReader.SamePrefixValue(t[..end], t, 10, i, end);
  }

  /** Decimal digits are read as their number. */
  lemma NumeralIsRead(t: seq<byte>, i: nat, n: nat)
    requires Stands(t, i, NumberReader.Digits(false, 10, n)) && n < NOT_FOUND
    ensures Number(t, i, i + |NumberReader.Digits(false, 10, n)|) == n
  {
    var end := i + |NumberReader.Digits(false, 10, n)|;
    DigitsStand(t, i, n);
    DigitsHaveValue(t, i, n);
    ValueIsDecimal(t, i, end);
    NumberIsDecimal(t, i, end);
  }

  lemma DigitsAreWord(n: nat)
    ensures AllWord(NumberReader.Digits(false, 10, n))
  {
    var digits := NumberReader.Digits(false, 10, n);
    NumberReader.DigitsAreDigits(false, 10, n);
    forall k | 0 <= k < |digits|
      ensures IsWord(digits[k])
    {
      assert NumberReader.JustDigit(digits[k], 10);
    }
  }

  lemma NumberedIsRead(regex: Regex, t: seq<byte>, i: nat, n: nat)
    requires Stands(t, i, Ascii("${") + NumberReader.Digits(false, 10, n) + Ascii("}")) && n < NOT_FOUND
    ensures i < |t| && t[i] == 36 && At(t, i + 1) == 123
    ensures ReferenceAt(regex, t, i) == Checked(regex, Some(n), |NumberReader.Digits(false, 10, n)| + 3)
  {
    DigitsAreWord(n);
    BracesEnclose(t, i, NumberReader.Digits(false, 10, n));
    NumeralIsRead(t, i + 2, n);
    BracesAreRead(regex, t, i, NumberReader.Digits(false, 10, n), n);
  }

  lemma NameIsWord(name: string) returns (k: nat)
    requires IsName(name)
    ensures AllWord(Ascii(name)) && k < |name| && !IsDigit(Ascii(name)[k])
  {
    k :| 0 <= k < |name| && !('0' <= name[k] <= '9');
  }

  lemma NoNumberIsRead(t: seq<byte>, i: nat, word: seq<byte>, k: nat)
    requires Stands(t, i, word) && k < |word| && !IsDigit(word[k])
    ensures Number(t, i, i + |word|) == NOT_FOUND
  {
    StandsIsSlice(t, i, word);
    assert !IsDigit(t[i + k]);
    NumberIsDecimal(t, i, i + |word|);
  }

  lemma NamedIsRead(regex: Regex, t: seq<byte>, i: nat, name: string)
    requires IsName(name) && Stands(t, i, Ascii("${") + Ascii(name) + Ascii("}"))
    ensures i < |t| && t[i] == 36 && At(t, i + 1) == 123
    ensures ReferenceAt(regex, t, i) == Checked(regex, regex.indexOf(Ascii(name)), |name| + 3)
  {
    var k := NameIsWord(name);
    BracesEnclose(t, i, Ascii(name));
    NoNumberIsRead(t, i + 2, Ascii(name), k);
    BracesAreRead(regex, t, i, Ascii(name), NOT_FOUND);
  }

  lemma PlainByteIsRead(regex: Regex, t: seq<byte>, i: nat, c: byte)
    requires c !in Ascii("$\\") && Stands(t, i, [c])
    ensures i < |t| && ElementAt(regex, t, i) == Take(Literal(c), 1)
  {
    OneStands(t, i, c);
    assert Ascii("$\\")[0] == 36 && Ascii("$\\")[1] == 92;
    PlainByte(regex, t, i);
  }

  /** Two bytes: an escaped dollar sign, or a capture of one digit. */
  lemma TwoAreRead(regex: Regex, t: seq<byte>, i: nat, item: Item)
    requires item.DollarSign? || (item.Numbered? && !item.form.Braces? && item.index < 10)
    requires Stands(t, i, ItemText(item))
    ensures i < |t|
    ensures item.DollarSign? ==> ElementAt(regex, t, i) == Take(Literal(36), 2)
    ensures item.Numbered? ==>
              ElementAt(regex, t, i) == if item.index < regex.captureCount then Take(Capture(item.index), 2) else Bad(CaptureGreaterThanRegexCaptures)
  {
    var text := ItemText(item);
    TwoStand(t, i, text);
    if item.Numbered? {
      DigitIsRead(item.index);
      assert text[0] == if item.form.Dollar? then 36 else 92;
    }
  }

  /** Each item is read as its element, whatever stands behind it. */
  lemma ItemIsRead(regex: Regex, t: seq<byte>, i: nat, item: Item)
    requires Written(regex, item) && Stands(t, i, ItemText(item))
    ensures i < |t| && ElementAt(regex, t, i) == Take(ElementOf(regex, item), |ItemText(item)|)
  {
    match item
    case Byte(c) => PlainByteIsRead(regex, t, i, c);
    case DollarSign => TwoAreRead(regex, t, i, item);
    case Numbered(form, n) =>
      if form.Braces? {
        NumberedIsRead(regex, t, i, n);
      } else {
        TwoAreRead(regex, t, i, item);
      }
    case Named(name) => NamedIsRead(regex, t, i, name);
  }

  /** What the template is read as from each place on. */
  ghost function Parser(regex: Regex, t: seq<byte>): nat -> Parsed {
    (i: nat) => if i <= |t| then Parse(regex, t, i) else Failed(NotValid)
  }

  /** From i to end the elements are these. */
  ghost predicate ReadsAs(parse: nat -> Parsed, i: nat, end: nat, list: seq<Element>) {
    i <= end && parse(i) == Prefixed(list, parse(end))
  }

  lemma ReadsTogether(parse: nat -> Parsed, i: nat, j: nat, end: nat, a: seq<Element>, b: seq<Element>)
    requires ReadsAs(parse, i, j, a) && ReadsAs(parse, j, end, b)
    ensures ReadsAs(parse, i, end, a + b)
  {
    PrefixedTwice(a, b, parse(end));
  }

  lemma NothingReads(parse: nat -> Parsed, i: nat)
    ensures ReadsAs(parse, i, i, [])
  {
    PrefixedByNothing(parse(i));
  }

  /** Wherever the text stands in t, it is read as the element. */
  ghost predicate IsReadAs(t: seq<byte>, parse: nat -> Parsed, text: seq<byte>, e: Element) {
    forall i: nat :: Stands(t, i, text) ==> ReadsAs(parse, i, i + |text|, [e])
  }

  lemma {:induction false} PieceStands(t: seq<byte>, i: nat, texts: seq<seq<byte>>, n: nat, k: nat)
    requires k < n <= |texts| && Stands(t, i, Concatenated(texts, n))
    ensures Stands(t, i + |Concatenated(texts, k)|, texts[k])
    decreases n
  {
    StandsSplit(t, i, Concatenated(texts, n - 1), texts[n - 1]);
    if k < n - 1 {
      PieceStands(t, i, texts, n - 1, k);
    }
  }

  lemma TextIsRead(t: seq<byte>, parse: nat -> Parsed, i: nat, at: nat, first: seq<Element>, text: seq<byte>, e: Element)
    requires ReadsAs(parse, i, at, first) && Stands(t, at, text) && IsReadAs(t, parse, text, e)
    ensures ReadsAs(parse, i, at + |text|, first + [e])
  {
    ReadsTogether(parse, i, at, at + |text|, first, [e]);
  }

  lemma OneMore(list: seq<Element>, k: nat)
    requires k < |list|
    ensures list[..k + 1] == list[..k] + [list[k]]
  {
  }

  lemma {:induction false} TextsAreRead(t: seq<byte>, parse: nat -> Parsed, i: nat, texts: seq<seq<byte>>, list: seq<Element>, k: nat)
    requires |texts| == |list| && k <= |list| && Stands(t, i, Concatenated(texts, |texts|))
    requires forall j :: 0 <= j < |list| ==> IsReadAs(t, parse, texts[j], list[j])
    ensures ReadsAs(parse, i, i + |Concatenated(texts, k)|, list[..k])
  {
    if k == 0 {
      NothingReads(parse, i);
    } else {
      TextsAreRead(t, parse, i, texts, list, k - 1);
      PieceStands(t, i, texts, |texts|, k - 1);
      TextIsRead(t, parse, i, i + |Concatenated(texts, k - 1)|, list[..k - 1], texts[k - 1], list[k - 1]);
      OneMore(list, k - 1);
    }
  }

  lemma TakenIsRead(regex: Regex, t: seq<byte>, i: nat, e: Element, length: nat)
    requires i < |t| && ElementAt(regex, t, i) == Take(e, length)
    ensures ReadsAs(Parser(regex, t), i, i + length, [e])
  {
  }

  lemma ItemReadsAsElement(regex: Regex, t: seq<byte>, item: Item)
    requires Written(regex, item)
    ensures IsReadAs(t, Parser(regex, t), ItemText(item), ElementOf(regex, item))
  {
    forall i: nat | Stands(t, i, ItemText(item))
      ensures ReadsAs(Parser(regex, t), i, i + |ItemText(item)|, [ElementOf(regex, item)])
    {
      ItemIsRead(regex, t, i, item);
      TakenIsRead(regex, t, i, ElementOf(regex, item), |ItemText(item)|);
    }
  }

  /** Items are read as their elements, one after the other. */
  lemma ItemsAreRead(regex: Regex, t: seq<byte>, i: nat, end: nat, items: seq<Item>)
    requires AllWritten(regex, items) && Stands(t, i, Text(regex, items)) && end == i + |Text(regex, items)|
    ensures ReadsAs(Parser(regex, t), i, end, ElementsOfItems(regex, items))
  {
    var texts, list := ItemTexts(regex, items), ElementsOfItems(regex, items);
    forall j | 0 <= j < |items|
      ensures IsReadAs(t, Parser(regex, t), texts[j], list[j])
    {
      ItemReadsAsElement(regex, t, items[j]);
    }
    TextsAreRead(t, Parser(regex, t), i, texts, list, |items|);
    assert list[..|items|] == list;
  }

  lemma ReadsToEnd(regex: Regex, t: seq<byte>, list: seq<Element>)
    requires ReadsAs(Parser(regex, t), 0, |t|, list)
    ensures Parse(regex, t, 0) == Elements(list)
  {
    assert list + [] == list;
  }

  /** What is written is read back. */
  lemma ParseReadsBack(regex: Regex, items: seq<Item>)
    requires AllWritten(regex, items)
    ensures Parse(regex, Text(regex, items), 0) == Elements(ElementsOfItems(regex, items))
  {
    var t := Text(regex, items);
    ItemsAreRead(regex, t, 0, |t|, items);
    ReadsToEnd(regex, t, ElementsOfItems(regex, items));
  }

  // ---------------------------------------------------------------------------------------
  // What is refused
  // ---------------------------------------------------------------------------------------

  /** Something that looks like a reference and is none. */
  datatype Fault =
    | NoSuchNumber(form: Form, index: nat)
    | NoSuchName(name: string)
    | LoneDollar(next: byte)
    | NeverClosed(word: string)
    | ClosedTooLate(word: string, junk: byte)

  predicate IsFault(regex: Regex, fault: Fault) {
    match fault
    case NoSuchNumber(form, n) => regex.captureCount <= n < NOT_FOUND && (form.Braces? || n < 10)
    case NoSuchName(name) => IsName(name) && regex.indexOf(Ascii(name)) == None
    case LoneDollar(next) => next !in Ascii("0123456789${")
    case NeverClosed(word) => IsName(word)
    case ClosedTooLate(word, junk) => IsName(word) && junk in Ascii(" :-.%$")
  }

  function FaultText(fault: Fault): seq<byte>
    requires fault.NoSuchNumber? ==> Spellable(Numbered(fault.form, fault.index))
    requires fault.NoSuchName? ==> IsName(fault.name)
    requires fault.NeverClosed? || fault.ClosedTooLate? ==> IsName(fault.word)
  {
    match fault
    case NoSuchNumber(form, n) => ItemText(Numbered(form, n))
    case NoSuchName(name) => ItemText(Named(name))
    case LoneDollar(next) => Ascii("$") + [next]
    case NeverClosed(word) => Ascii("${") + Ascii(word)
    case ClosedTooLate(word, junk) => Ascii("${") + Ascii(word) + ([junk] + Ascii("}"))
  }

  function ErrorOf(fault: Fault): ParseError {
    match fault
    case NoSuchNumber(_, _) => CaptureGreaterThanRegexCaptures
    case NoSuchName(_) => NamedCaptureUndefined
    case LoneDollar(_) => NotValid
    case NeverClosed(_) => UnbalancedCurlyBrackets
    case ClosedTooLate(_, _) => NotValid
  }

  lemma DigitsAndBracesAreListed(c: byte)
    requires IsDigit(c) || c == 36 || c == 123
    ensures c in Ascii("0123456789${")
  {
    var list := Ascii("0123456789${");
    assert forall n :: 0 <= n < 10 ==> "0123456789${"[n] as int == 48 + n;
    assert list[if c == 36 then 10 else if c == 123 then 11 else Digit(c)] == c;
  }

  lemma LoneDollarIsRefused(regex: Regex, t: seq<byte>, i: nat, next: byte)
    requires next !in Ascii("0123456789${") && Stands(t, i, Ascii("$") + [next])
    ensures i < |t| && ElementAt(regex, t, i) == Bad(NotValid)
  {
    TwoStand(t, i, Ascii("$") + [next]);
    if IsDigit(next) || next == 36 || next == 123 {
      DigitsAndBracesAreListed(next);
    }
  }

  /** The end of the template ends the word. */
  lemma NeverClosedIsRefused(regex: Regex, t: seq<byte>, i: nat, word: seq<byte>)
    requires AllWord(word) && Stands(t, i, Ascii("${") + word) && i + 2 + |word| == |t|
    ensures i < |t| && ElementAt(regex, t, i) == Bad(UnbalancedCurlyBrackets)
  {
    OpenBrace(t, i, word);
    WordRuns(t, i + 2, |t|);
  }

  lemma JunkIsNoWord(junk: byte)
    requires junk in Ascii(" :-.%$")
    ensures !IsWord(junk) && junk != CLOSE && junk != 0
  {
    assert forall k :: 0 <= k < 6 ==> Ascii(" :-.%$")[k] in {32, 58, 45, 46, 37, 36};
  }

  lemma LateBrace(t: seq<byte>, i: nat, word: seq<byte>, junk: byte)
    requires AllWord(word) && !IsWord(junk) && Stands(t, i, Ascii("${") + word + ([junk] + Ascii("}")))
    ensures i + 2 + |word| + 1 < |t| && t[i] == 36 && At(t, i + 1) == 123
    ensures WordEnd(t, i + 2) == i + 2 + |word| && At(t, i + 2 + |word|) == junk && At(t, i + 2 + |word| + 1) == 125
  {
    var end := i + 2 + |word|;
    StandsSplit(t, i, Ascii("${") + word, [junk] + Ascii("}"));
    TwoStand(t, end, [junk] + Ascii("}"));
    OpenBrace(t, i, word);
    WordRuns(t, i + 2, end);
  }

  lemma LateBraceIsRefused(regex: Regex, t: seq<byte>, i: nat, end: nat)
    requires i + 2 < end && end + 1 < |t| && t[i] == 36 && At(t, i + 1) == 123 && WordEnd(t, i + 2) == end
    requires t[end] != CLOSE && t[end] != 0 && t[end + 1] == CLOSE
    ensures ElementAt(regex, t, i) == Bad(NotValid)
  {
    assert BracketEnd(t, end + 1) == end + 1;
  }

  lemma ClosedTooLateIsRefused(regex: Regex, t: seq<byte>, i: nat, word: seq<byte>, junk: byte)
    requires AllWord(word) && !IsWord(junk) && junk != CLOSE && junk != 0
    requires Stands(t, i, Ascii("${") + word + ([junk] + Ascii("}")))
    ensures i < |t| && ElementAt(regex, t, i) == Bad(NotValid)
  {
    LateBrace(t, i, word, junk);
    LateBraceIsRefused(regex, t, i, i + 2 + |word|);
  }

  /** Each fault is refused with its error; one that never closes, if it ends the template. */
  lemma FaultIsRefused(regex: Regex, t: seq<byte>, i: nat, fault: Fault)
    requires IsFault(regex, fault) && Stands(t, i, FaultText(fault)) && (fault.NeverClosed? ==> i + |FaultText(fault)| == |t|)
    ensures i < |t| && ElementAt(regex, t, i) == Bad(ErrorOf(fault))
  {
    match fault
    case NoSuchNumber(form, n) =>
      if form.Braces? {
        NumberedIsRead(regex, t, i, n);
      } else {
        TwoAreRead(regex, t, i, Numbered(form, n));
      }
    case NoSuchName(name) => NamedIsRead(regex, t, i, name);
    case LoneDollar(next) => LoneDollarIsRefused(regex, t, i, next);
    case NeverClosed(word) =>
      var k := NameIsWord(word);
      NeverClosedIsRefused(regex, t, i, Ascii(word));
    case ClosedTooLate(word, junk) =>
      var k := NameIsWord(word);
      JunkIsNoWord(junk);
      ClosedTooLateIsRefused(regex, t, i, Ascii(word), junk);
  }

  lemma ReadsAsFault(regex: Regex, t: seq<byte>, at: nat, list: seq<Element>, error: ParseError)
    requires at < |t| && ReadsAs(Parser(regex, t), 0, at, list) && ElementAt(regex, t, at) == Bad(error)
    ensures Parse(regex, t, 0) == Failed(error)
  {
  }

  /** The first fault of a template decides its error, whatever comes behind it. */
  lemma FirstFaultDecides(regex: Regex, items: seq<Item>, fault: Fault, rest: seq<byte>, t: seq<byte>)
    requires AllWritten(regex, items) && IsFault(regex, fault) && (fault.NeverClosed? ==> rest == [])
    requires t == Text(regex, items) + (FaultText(fault) + rest)
    ensures Parse(regex, t, 0) == Failed(ErrorOf(fault))
  {
    var at := |Text(regex, items)|;
    StandsSplit(t, 0, Text(regex, items), FaultText(fault) + rest);
    StandsSplit(t, at, FaultText(fault), rest);
    ItemsAreRead(regex, t, 0, at, items);
    FaultIsRefused(regex, t, at, fault);
    ReadsAsFault(regex, t, at, ElementsOfItems(regex, items), ErrorOf(fault));
  }
}
