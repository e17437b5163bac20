/**
 The inline reader of 32-bit integers, Source/NSString.m:1282-1316: the conversions %d, %i, %o (signed) and
 %u, %x, %X (unsigned) of a captured text. It is modified from the libc routine, with a limit that is
 too small for signed decimal numbers.
 */
module NumberReader {
  import opened Base

  const UINT_MAX: nat := 4294967295
  const INT_MAX: nat := 2147483647
  const INT_MIN: int := -2147483648

  predicate IsSpace(c: byte) {
    9 <= c <= 13 || c == 32
  }

  /** The value of a digit; 16 for any other byte. */
  function DigitValue(c: byte): nat {
    if 48 <= c <= 57 then (c - 48) as nat
    else if 65 <= c <= 70 then (c - 55) as nat
    else if 97 <= c <= 102 then (c - 87) as nat
    else 16
  }

  // ---------------------------------------------------------------------------------------
  // What a text says
  // ---------------------------------------------------------------------------------------

  function SkipSpaces(s: seq<byte>, i: nat): (j: nat)
    requires i <= |s|
    ensures i <= j <= |s| && !IsSpace(At(s, j))
    decreases |s| - i
  {
    if IsSpace(At(s, i)) then SkipSpaces(s, i + 1) else i
  }

  /** A sign, a base, and where the digits start. */
  datatype Numeral = Numeral(neg: bool, base: nat, from: nat)

  /** A number may be preceded by space and a sign; 0x makes it hexadecimal, another leading 0 octal. */
  function NumeralIn(s: seq<byte>): (n: Numeral)
    ensures n.base == 8 || n.base == 10 || n.base == 16
    ensures n.from <= |s|
  {
    var i := SkipSpaces(s, 0);
    var neg := At(s, i) == 45;
    var j := if neg || At(s, i) == 43 then i + 1 else i;
    if At(s, j) == 48 && (At(s, j + 1) == 120 || At(s, j + 1) == 88) then Numeral(neg, 16, j + 2)
    else Numeral(neg, if At(s, j) == 48 then 8 else 10, j)
  }

  /** The end of the longest run of digits of the base. */
  function DigitsEnd(s: seq<byte>, base: nat, i: nat): (j: nat)
    requires i <= |s| && base <= 16
    ensures i <= j <= |s|
    decreases |s| - i
  {
    if i < |s| && DigitValue(s[i]) < base then DigitsEnd(s, base, i + 1) else i
  }

  /** The number that the digits s[i..j] spell. */
  function Value(s: seq<byte>, base: nat, i: nat, j: nat): nat
    requires i <= j <= |s|
  {
    if i == j then 0 else Value(s, base, i, j - 1) * base + DigitValue(s[j - 1])
  }

  /** The largest magnitude that is not clamped: for signed decimal numbers short of the largest integer. */
  function Limit(unsigned: bool, neg: bool, base: nat): nat {
    if unsigned then UINT_MAX
    else if base == 10 then 2147483644
    else if neg then INT_MAX + 1
    else INT_MAX
  }

  /** The 32-bit word of an integer. */
  function Word(n: int): nat {
    n % (UINT_MAX + 1)
  }

  /** A magnitude with its sign, clamped to what the conversion can hold. */
  function Clamped(unsigned: bool, neg: bool, base: nat, magnitude: int): nat {
    if magnitude <= Limit(unsigned, neg, base) then (if neg then Word(-magnitude) else Word(magnitude))
    else if unsigned then UINT_MAX
    else if neg then Word(INT_MIN)
    else INT_MAX
  }

  /** The magnitude of the number in a text. */
  function Magnitude(s: seq<byte>, n: Numeral): nat
    requires n.from <= |s| && n.base <= 16
  {
    Value(s, n.base, n.from, DigitsEnd(s, n.base, n.from))
  }

  /** What the conversion stores for a text. */
  function StoredWord(s: seq<byte>, unsigned: bool): nat {
    var n := NumeralIn(s);
    Clamped(unsigned, n.neg, n.base, Magnitude(s, n))
  }

  // ---------------------------------------------------------------------------------------
  // The reader
  // ---------------------------------------------------------------------------------------

  /** Lines 1298-1300: space, sign and prefix. c is the byte in hand, and at the index behind it. */
  method ReadPrefix(s: seq<byte>) returns (neg: bool, base: nat, c: byte, at: nat)
    ensures 1 <= at <= |s| + 1 && c == At(s, at - 1) && NumeralIn(s) == Numeral(neg, base, at - 1)
  {
    neg, at := false, 0;
    c, at := At(s, at), at + 1;
    while IsSpace(c) && at <= |s|
      invariant 1 <= at <= |s| + 1 && c == At(s, at - 1) && SkipSpaces(s, at - 1) == SkipSpaces(s, 0)
    {
      c, at := At(s, at), at + 1;
    }
    if c == 45 {
      neg := true;
      c, at := At(s, at), at + 1;
    } else if c == 43 {
      c, at := At(s, at), at + 1;
    }
    if c == 48 && (At(s, at) == 120 || At(s, at) == 88) && at <= |s| {
      c, at, base := At(s, at + 1), at + 2, 16;
    } else {
      base := if c == 48 then 8 else 10;
    }
  }

  /** The quotients behind the limits. */
  lemma Quotients(n: nat, base: nat)
    requires base == 8 || base == 10 || base == 16
    requires n == UINT_MAX || n == INT_MAX || n == INT_MAX + 1
    ensures n / base == if base == 8 then n / 8 else if base == 10 then n / 10 else n / 16
    ensures n / base * base + n % base == n
    ensures n != UINT_MAX ==> (n / base) % base == if base == 10 then 4 else if n == INT_MAX then base - 1 else 0
    ensures n != UINT_MAX && base != 10 ==> (n / base) % base == n % base
    ensures n != UINT_MAX && base == 10 ==> n / base * base == 2147483640
  {
    if base == 8 {
    } else if base == 10 {
    } else {
    }
  }

  /** Lines 1302-1303: the limit as a quotient and a last digit. */
  method Cutoff(unsigned: bool, neg: bool, base: nat) returns (cutoff: nat, cutlim: nat)
    requires base == 8 || base == 10 || base == 16
    ensures cutoff * base + cutlim == Limit(unsigned, neg, base) && cutlim < base
  {
    Quotients(if unsigned then UINT_MAX else if neg then INT_MAX + 1 else INT_MAX, base);
    if unsigned {
      cutoff, cutlim := UINT_MAX / base, UINT_MAX % base;
    } else {
      cutoff := (if neg then INT_MAX + 1 else INT_MAX) / base;
      cutlim := cutoff % base;
    }
  }

  /** any and acc stand for the value of the digits so far: it is acc, or above the limit if any is negative. */
  predicate Accumulates(any: int, acc: nat, value: nat, limit: nat) {
    if any < 0 then value > limit else acc == value <= limit
  }

  /** Lines 1308-1309: one more digit. The products stay within 32 bits. */
  method Accumulate(any: int, acc: nat, base: nat, digit: nat, cutoff: nat, cutlim: nat, ghost value: nat, ghost limit: nat)
    returns (any': int, acc': nat)
    requires cutlim < base && digit < base && limit == cutoff * base + cutlim <= UINT_MAX
    requires Accumulates(any, acc, value, limit)
    ensures Accumulates(any', acc', value * base + digit, limit)
  {
    any', acc' := any, acc;
    LimitReached(acc, cutoff, cutlim, base, digit);
    StillAbove(value, base, digit, limit);
    if any < 0 || acc > cutoff || (acc == cutoff && digit > cutlim) {
      any' := -1;
    } else {
      any' := 1;
      assert acc' * base + digit <= UINT_MAX;
      acc' := acc' * base;
      acc' := acc' + digit;
    }
  }

  /** Lines 1305-1310: the digits. */
  method ReadDigits(s: seq<byte>, base: nat, from: nat, cutoff: nat, cutlim: nat, ghost limit: nat) returns (any: int, acc: nat)
    requires 8 <= base <= 16 && from <= |s| && cutlim < base && limit == cutoff * base + cutlim <= UINT_MAX
    ensures Accumulates(any, acc, Value(s, base, from, DigitsEnd(s, base, from)), limit)
  {
    var c, at := At(s, from), from + 1;
    any, acc := 0, 0;
    ghost var end := DigitsEnd(s, base, from);
    assert Value(s, base, from, from) == 0;
    while true
      invariant from < at <= |s| + 1 && c == At(s, at - 1) && at - 1 <= end == DigitsEnd(s, base, at - 1)
      invariant Accumulates(any, acc, Value(s, base, from, at - 1), limit)
      decreases |s| + 1 - at
    {
      var digit := DigitValue(c);
      if digit == 16 || digit >= base {
        break;
      }
      any, acc := Accumulate(any, acc, base, digit, cutoff, cutlim, Value(s, base, from, at - 1), limit);
      c, at := At(s, at), at + 1;
      if c == 0 || at > |s| {
        break;
      }
    }
    assert at - 1 == end;
  }

  lemma ClampedFromAccumulator(any: int, acc: nat, value: nat, unsigned: bool, neg: bool, base: nat)
    requires Accumulates(any, acc, value, Limit(unsigned, neg, base))
    ensures Clamped(unsigned, neg, base, value) ==
            if any < 0 then (if unsigned then UINT_MAX else if neg then Word(INT_MIN) else INT_MAX)
            else if neg then Word(-(acc as int)) else acc
  {
  }

  /** The conversion */
  method ReadInteger(s: seq<byte>, unsigned: bool) returns (word: nat)
    ensures word == StoredWord(s, unsigned) && word <= UINT_MAX
  {
    var neg, base, c, at := ReadPrefix(s);
    var cutoff, cutlim := Cutoff(unsigned, neg, base);
    var any, acc := ReadDigits(s, base, at - 1, cutoff, cutlim, Limit(unsigned, neg, base));
    ClampedFromAccumulator(any, acc, Magnitude(s, NumeralIn(s)), unsigned, neg, base);
    if any < 0 {
      word := if unsigned then UINT_MAX else if neg then Word(INT_MIN) else INT_MAX;
    } else {
      word := if neg then Word(-(acc as int)) else acc;
    }
  }

  lemma LimitReached(acc: nat, cutoff: nat, cutlim: nat, base: nat, digit: nat)
    requires cutlim < base && digit < base
    ensures acc * base + digit > cutoff * base + cutlim <==> acc > cutoff || (acc == cutoff && digit > cutlim)
  {
    if acc > cutoff {
      assert acc * base >= (cutoff + 1) * base == cutoff * base + base;
    } else if acc < cutoff {
      assert cutoff * base >= (acc + 1) * base == acc * base + base;
    }
  }

  lemma StillAbove(v: nat, base: nat, digit: nat, limit: nat)
    requires base >= 1
    ensures v > limit ==> v * base + digit > limit
  {
    assert v * base >= v;
  }

  // ---------------------------------------------------------------------------------------
  // Reading back written numbers
  // ---------------------------------------------------------------------------------------

  const DIGITS := "0123456789abcdef"
  const CAPITAL_DIGITS := "0123456789ABCDEF"

  /** The digit of a value below 16, in small or in capital letters. */
  function DigitOf(capitals: bool, v: nat): byte
    requires v < 16
  {
    ((if capitals then CAPITAL_DIGITS else DIGITS)[v] as int) as byte
  }

  predicate IsBase(base: nat) {
    base == 8 || base == 10 || base == 16
  }

  /** A number without its last digit. */
  function Front(n: nat, base: nat): (r: nat)
    requires IsBase(base)
    ensures n >= base ==> 0 < r < n
  {
    if base == 8 then n / 8 else if base == 10 then n / 10 else n / 16
  }

  /** The last digit of a number. */
  function Last(n: nat, base: nat): (r: nat)
    requires IsBase(base)
    ensures r < base && Front(n, base) * base + r == n
  {
    if base == 8 then n % 8 else if base == 10 then n % 10 else n % 16
  }

  /** The digits of a number, the most significant first. */
  function Digits(capitals: bool, base: nat, n: nat): (s: seq<byte>)
    requires IsBase(base)
    ensures s != []
    decreases n
  {
    if n < base then [DigitOf(capitals, n)] else Digits(capitals, base, Front(n, base)) + [DigitOf(capitals, Last(n, base))]
  }

  /** How a number is written: decimal, octal behind a 0, or hexadecimal behind 0x or 0X. */
  datatype Notation = Decimal | Octal | Hexadecimal(capitalX: bool, capitals: bool)

  function BaseOf(notation: Notation): nat {
    match notation
    case Decimal => 10
    case Octal => 8
    case Hexadecimal(_, _) => 16
  }

  function PrefixOf(notation: Notation): seq<byte> {
    match notation
    case Decimal => []
    case Octal => Ascii("0")
    case Hexadecimal(capitalX, _) => if capitalX then Ascii("0X") else Ascii("0x")
  }

  /** A sign, the prefix of the notation, and the digits. */
  function NumberText(sign: string, notation: Notation, n: nat): seq<byte>
    requires sign == "" || sign == "+" || sign == "-"
  {
    Ascii(sign) + PrefixOf(notation) + Digits(notation.Hexadecimal? && notation.capitals, BaseOf(notation), n)
  }

  /** The byte is no digit of the base. */
  predicate NoDigit(c: byte, base: nat)
    requires base <= 16
  {
    c !in Ascii(DIGITS[..base]) && c !in Ascii(CAPITAL_DIGITS[..base])
  }

  /** The word that a conversion should store for a number with its sign, with its limits written out. */
  function WordFor(neg: bool, decimal: bool, n: nat, unsigned: bool): nat {
    var limit := if unsigned then 4294967295 else if decimal then 2147483644 else if neg then 2147483648 else 2147483647;
    if n > limit then (if unsigned then 4294967295 else if neg then 2147483648 else 2147483647)
    else if neg && n > 0 then 4294967296 - n
    else n
  }

  lemma DigitHasValue(capitals: bool, v: nat)
    requires v < 16
    ensures DigitValue(DigitOf(capitals, v)) == v
    ensures !IsSpace(DigitOf(capitals, v)) && DigitOf(capitals, v) !in {43, 45, 88, 120} && (DigitOf(capitals, v) == 48 <==> v == 0)
  {
    assert DIGITS[v] as int == if v < 10 then 48 + v else 87 + v;
    assert CAPITAL_DIGITS[v] as int == if v < 10 then 48 + v else 55 + v;
  }

  lemma DigitIsListed(c: byte, base: nat)
    requires base <= 16 && DigitValue(c) < base
    ensures !NoDigit(c, base)
  {
    var v := DigitValue(c);
    assert DIGITS[v] as int == if v < 10 then 48 + v else 87 + v;
    assert CAPITAL_DIGITS[v] as int == if v < 10 then 48 + v else 55 + v;
    assert Ascii(DIGITS[..base])[v] as int == DIGITS[v] as int;
    assert Ascii(CAPITAL_DIGITS[..base])[v] as int == CAPITAL_DIGITS[v] as int;
  }

  lemma {:induction false} SpacesAreSkipped(s: seq<byte>, i: nat, j: nat)
    requires i <= j < |s| && (forall k :: i <= k < j ==> s[k] in {9, 10, 11, 12, 13, 32}) && !IsSpace(s[j])
    ensures SkipSpaces(s, i) == j
    decreases j - i
  {
    if i < j {
      SpacesAreSkipped(s, i + 1, j);
    }
  }

  lemma {:induction false} RunOfDigits(s: seq<byte>, base: nat, i: nat, j: nat)
    requires base <= 16 && i <= j <= |s| && (forall k :: i <= k < j ==> DigitValue(s[k]) < base)
    requires j == |s| || DigitValue(s[j]) >= base
    ensures DigitsEnd(s, base, i) == j
    decreases j - i
  {
    if i < j {
      RunOfDigits(s, base, i + 1, j);
    }
  }

  lemma {:induction false} SamePrefixValue(a: seq<byte>, b: seq<byte>, base: nat, i: nat, j: nat)
    requires i <= j <= |a| && a <= b
    ensures Value(a, base, i, j) == Value(b, base, i, j)
  {
    if i < j {
      SamePrefixValue(a, b, base, i, j - 1);
    }
  }

  /** A digit, and no other byte that the reader looks for. */
  predicate JustDigit(c: byte, base: nat) {
    DigitValue(c) < base && !IsSpace(c) && c !in {43, 45, 88, 120}
  }

  lemma {:induction false} DigitsAreDigits(capitals: bool, base: nat, n: nat)
    requires IsBase(base)
    ensures forall k :: 0 <= k < |Digits(capitals, base, n)| ==> JustDigit(Digits(capitals, base, n)[k], base)
    ensures n > 0 ==> Digits(capitals, base, n)[0] != 48
    decreases n
  {
    DigitHasValue(capitals, Last(n, base));
    if n < base {
      DigitHasValue(capitals, n);
    } else {
      DigitsAreDigits(capitals, base, Front(n, base));
      var shorter, last := Digits(capitals, base, Front(n, base)), DigitOf(capitals, Last(n, base));
      assert forall k :: 0 <= k < |shorter| ==> (shorter + [last])[k] == shorter[k];
    }
  }

  lemma OneMoreDigit(s: seq<byte>, i: nat, base: nat, c: byte, quotient: nat, n: nat)
    requires i <= |s| && Value(s, base, i, |s|) == quotient && n == quotient * base + DigitValue(c)
    ensures Value(s + [c], base, i, |s + [c]|) == n
  {
    SamePrefixValue(s, s + [c], base, i, |s|);
    assert (s + [c])[|s|] == c;
  }

  /** Behind a text that says zero, digits spell their number. */
  lemma {:induction false} DigitsSpell(before: seq<byte>, i: nat, capitals: bool, base: nat, n: nat, s: seq<byte>)
    requires IsBase(base) && i <= |before| && Value(before, base, i, |before|) == 0
    requires s == before + Digits(capitals, base, n)
    ensures Value(s, base, i, |s|) == n
    decreases n
  {
    if n < base {
      DigitHasValue(capitals, n);
      OneMoreDigit(before, i, base, DigitOf(capitals, n), 0, n);
    } else {
      var shorter := before + Digits(capitals, base, Front(n, base));
      DigitsSpell(before, i, capitals, base, Front(n, base), shorter);
      DigitHasValue(capitals, Last(n, base));
      OneMoreDigit(shorter, i, base, DigitOf(capitals, Last(n, base)), Front(n, base), n);
      assert s == shorter + [DigitOf(capitals, Last(n, base))];
    }
  }

  lemma Regroup(a: seq<byte>, b: seq<byte>, c: seq<byte>, d: seq<byte>)
    ensures a + (b + c + d) == a + b + c + d
  {
    Associate(b, c, d);
    Associate(a, b, c + d);
    Associate(a + b, c, d);
  }

  /** What comes before the digits of a number text, and where the reader starts to look for digits. */
  lemma DigitsInText(spaces: seq<byte>, sign: string, notation: Notation, n: nat, rest: seq<byte>, s: seq<byte>)
    returns (before: seq<byte>, from: nat)
    requires sign == "" || sign == "+" || sign == "-"
    requires s == spaces + NumberText(sign, notation, n) + rest
    ensures before == spaces + Ascii(sign) + PrefixOf(notation)
    ensures s == before + Digits(notation.Hexadecimal? && notation.capitals, BaseOf(notation), n) + rest
    ensures from == |spaces| + |sign| + (if notation.Hexadecimal? then 2 else 0)
    ensures from == |before| || (notation.Octal? && from + 1 == |before| && before[from] == 48)
  {
    before := spaces + Ascii(sign) + PrefixOf(notation);
    from := |spaces| + |sign| + (if notation.Hexadecimal? then 2 else 0);
    var digits := Digits(notation.Hexadecimal? && notation.capitals, BaseOf(notation), n);
    Regroup(spaces, Ascii(sign), PrefixOf(notation), digits);
  }

  /** The first bytes of a number text, behind its spaces. */
  lemma FirstBytes(spaces: seq<byte>, sign: string, notation: Notation, n: nat, rest: seq<byte>)
    requires sign == "" || sign == "+" || sign == "-"
    ensures var s, i := spaces + NumberText(sign, notation, n) + rest, |spaces|;
            var digits := Digits(notation.Hexadecimal? && notation.capitals, BaseOf(notation), n);
            && i + |sign| < |s| && !IsSpace(s[i])
            && (forall k :: 0 <= k < i ==> s[k] == spaces[k])
            && (s[i] == 45 <==> sign == "-") && (s[i] == 43 <==> sign == "+")
            && match notation
               case Decimal => s[i + |sign|] == digits[0]
               case Octal => s[i + |sign|] == 48 && i + |sign| + 1 < |s| && s[i + |sign| + 1] == digits[0]
               case Hexadecimal(_, _) => s[i + |sign|] == 48 && i + |sign| + 1 < |s| && s[i + |sign| + 1] in {88, 120}
  {
    var s := spaces + NumberText(sign, notation, n) + rest;
    var before, from := DigitsInText(spaces, sign, notation, n, rest, s);
    var digits := Digits(notation.Hexadecimal? && notation.capitals, BaseOf(notation), n);
    DigitsAreDigits(notation.Hexadecimal? && notation.capitals, BaseOf(notation), n);
    assert s[|before|] == digits[0];
    assert forall k :: 0 <= k < |before| ==> s[k] == before[k];
    assert forall k :: 0 <= k < |sign| ==> before[|spaces| + k] == Ascii(sign)[k];
    assert forall k :: 0 <= k < |PrefixOf(notation)| ==> before[|spaces| + |sign| + k] == PrefixOf(notation)[k];
  }

  /** Sign and base of a number text are read as written. */
  lemma NumeralOf(spaces: seq<byte>, sign: string, notation: Notation, n: nat, rest: seq<byte>)
    requires sign == "" || sign == "+" || sign == "-"
    requires (forall k :: 0 <= k < |spaces| ==> spaces[k] in {9, 10, 11, 12, 13, 32}) && (notation.Decimal? ==> n > 0)
    ensures NumeralIn(spaces + NumberText(sign, notation, n) + rest) ==
            Numeral(sign == "-", BaseOf(notation), |spaces| + |sign| + (if notation.Hexadecimal? then 2 else 0))
  {
    var s := spaces + NumberText(sign, notation, n) + rest;
    FirstBytes(spaces, sign, notation, n, rest);
    DigitsAreDigits(notation.Hexadecimal? && notation.capitals, BaseOf(notation), n);
    SpacesAreSkipped(s, 0, |spaces|);
  }

  lemma EndOfDigits(before: seq<byte>, from: nat, capitals: bool, base: nat, n: nat, rest: seq<byte>, s: seq<byte>)
    requires IsBase(base) && from <= |before| && (forall k :: from <= k < |before| ==> DigitValue(before[k]) < base)
    requires s == before + Digits(capitals, base, n) + rest && (rest == [] || NoDigit(rest[0], base))
    ensures DigitsEnd(s, base, from) == |before + Digits(capitals, base, n)|
  {
    var digits := Digits(capitals, base, n);
    DigitsAreDigits(capitals, base, n);
    forall k | from <= k < |before + digits|
      ensures DigitValue(s[k]) < base
    {
      assert s[k] == if k < |before| then before[k] else digits[k - |before|];
    }
    if rest != [] {
      assert s[|before + digits|] == rest[0];
      if DigitValue(rest[0]) < base {
        DigitIsListed(rest[0], base);
      }
    }
    RunOfDigits(s, base, from, |before + digits|);
  }

  /** Before the digits there is nothing, or the zero of an octal number. */
  lemma NothingOrZero(before: seq<byte>, from: nat, base: nat)
    requires IsBase(base) && (from == |before| || (from + 1 == |before| && before[from] == 48))
    ensures from <= |before| && Value(before, base, from, |before|) == 0
    ensures forall k :: from <= k < |before| ==> DigitValue(before[k]) < base
  {
    assert Value(before, base, from, from) == 0;
  }

  /** The digits from here on spell the number. */
  predicate Spells(s: seq<byte>, base: nat, from: nat, n: nat)
    requires IsBase(base)
  {
    from <= |s| && Value(s, base, from, DigitsEnd(s, base, from)) == n
  }

  lemma ValueOfDigits(before: seq<byte>, from: nat, capitals: bool, base: nat, n: nat, rest: seq<byte>, s: seq<byte>)
    requires IsBase(base) && (from == |before| || (from + 1 == |before| && before[from] == 48))
    requires s == before + Digits(capitals, base, n) + rest && (rest == [] || NoDigit(rest[0], base))
    ensures Spells(s, base, from, n)
  {
    var text := before + Digits(capitals, base, n);
    NothingOrZero(before, from, base);
    EndOfDigits(before, from, capitals, base, n, rest, s);
    DigitsSpell(before, from, capitals, base, n, text);
    SamePrefixValue(text, s, base, from, |text|);
  }

  /** The digits of a number text spell its number. */
  lemma MagnitudeOf(spaces: seq<byte>, sign: string, notation: Notation, n: nat, rest: seq<byte>, s: seq<byte>)
    requires sign == "" || sign == "+" || sign == "-"
    requires rest == [] || NoDigit(rest[0], BaseOf(notation))
    requires s == spaces + NumberText(sign, notation, n) + rest
    ensures var from := |spaces| + |sign| + (if notation.Hexadecimal? then 2 else 0);
            Spells(s, BaseOf(notation), from, n)
  {
    var before, from := DigitsInText(spaces, sign, notation, n, rest, s);
    ValueOfDigits(before, from, notation.Hexadecimal? && notation.capitals, BaseOf(notation), n, rest, s);
  }

  lemma ClampedIsWordFor(neg: bool, notation: Notation, n: nat, unsigned: bool)
    ensures Clamped(unsigned, neg, BaseOf(notation), n) == WordFor(neg, notation.Decimal?, n, unsigned)
  {
  }

  /** What the conversions store for a number text with spaces before it and anything but a digit behind it: the number with
      its sign, clamped above the largest word of the kind; in a signed decimal number, above 2147483644. */
  lemma StoredForText(spaces: seq<byte>, sign: string, notation: Notation, n: nat, rest: seq<byte>, unsigned: bool)
    requires sign == "" || sign == "+" || sign == "-"
    requires (forall k :: 0 <= k < |spaces| ==> spaces[k] in {9, 10, 11, 12, 13, 32}) && (notation.Decimal? ==> n > 0)
    requires rest == [] || NoDigit(rest[0], BaseOf(notation))
    ensures StoredWord(spaces + NumberText(sign, notation, n) + rest, unsigned) == WordFor(sign == "-", notation.Decimal?, n, unsigned)
  {
    NumeralOf(spaces, sign, notation, n, rest);
    MagnitudeOf(spaces, sign, notation, n, rest, spaces + NumberText(sign, notation, n) + rest);
    ClampedIsWordFor(sign == "-", notation, n, unsigned);
  }

  lemma StoredAlone(sign: string, notation: Notation, n: nat, unsigned: bool)
    requires (sign == "" || sign == "+" || sign == "-") && (notation.Decimal? ==> n > 0)
    ensures StoredWord(NumberText(sign, notation, n), unsigned) == WordFor(sign == "-", notation.Decimal?, n, unsigned)
  {
    assert [] + NumberText(sign, notation, n) + [] == NumberText(sign, notation, n);
    StoredForText([], sign, notation, n, [], unsigned);
  }

  /** The decimal text of an integer. */
  function DecimalText(n: int): seq<byte> {
    if n < 0 then NumberText("-", Decimal, -n) else NumberText("", Decimal, n)
  }

  /** The text 0 is octal for the reader. */
  lemma ZeroStored(unsigned: bool)
    ensures StoredWord(DecimalText(0), unsigned) == 0
  {
    var s := DecimalText(0);
    assert s == [48] && SkipSpaces(s, 0) == 0;
    assert DigitsEnd(s, 8, 1) == 1;
    assert Value(s, 8, 0, 0) == 0;
  }

  /** The signed conversion of the decimal text of a 32-bit integer gives that integer back if and only if
      its magnitude is at most 2147483644, or it is the largest or the smallest integer itself. */
  lemma ReadsBackIff(n: int)
    requires -2147483648 <= n <= 2147483647
    ensures StoredWord(DecimalText(n), false) == (if n < 0 then n + 4294967296 else n) <==>
            -2147483644 <= n <= 2147483644 || n == 2147483647 || n == -2147483648
  {
    if n == 0 {
      ZeroStored(false);
    } else {
      StoredAlone(if n < 0 then "-" else "", Decimal, if n < 0 then -n else n, false);
    }
  }

  /** The unsigned conversion reads back every 32-bit number from its decimal text. */
  lemma UnsignedReadsBack(n: nat)
    requires n <= 4294967295
    ensures StoredWord(DecimalText(n), true) == n
  {
    if n == 0 {
      ZeroStored(true);
    } else {
      StoredAlone("", Decimal, n, true);
    }
  }

  /** In octal and hexadecimal both conversions read back every number of their kind, in small and in capital letters. */
  lemma OctalAndHexReadBack(n: int, notation: Notation, unsigned: bool)
    requires !notation.Decimal? && if unsigned then 0 <= n <= 4294967295 else -2147483648 <= n <= 2147483647
    ensures StoredWord(NumberText(if n < 0 then "-" else "", notation, if n < 0 then -n else n), unsigned) ==
            if n < 0 then n + 4294967296 else n
  {
    StoredAlone(if n < 0 then "-" else "", notation, if n < 0 then -n else n, unsigned);
  }
}
