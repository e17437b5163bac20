/**
 The conversions between UTF-8 and UTF-16 ranges of Source/RKUnicode.m:43-173, over well-formed UTF-8
 (section 3 of RFC 3629) and UTF-16 (section 2.1 of RFC 2781).
 */
module Unicode {
  import opened Base

  // ---------------------------------------------------------------------------------------
  // The two encodings
  // ---------------------------------------------------------------------------------------

  /** A Unicode scalar value: a code point that is not a surrogate. */
  predicate IsScalar(c: nat) {
    c < 0xD800 || 0xE000 <= c < 0x11_0000
  }

  type Scalar = c: nat | IsScalar(c)

  function Char8(c: Scalar): (s: seq<byte>)
    ensures 1 <= |s| <= 4
  {
    if c < 0x80 then [c as byte]
    else if c < 0x800 then [(0xC0 + c / 64) as byte, Trail(c)]
    else if c < 0x1_0000 then [(0xE0 + c / 4096) as byte, Trail(c / 64), Trail(c)]
    else assert IsScalar(c); [(0xF0 + c / 262144) as byte, Trail(c / 4096), Trail(c / 64), Trail(c)]
  }

  function Trail(c: nat): (b: byte)
    ensures IsTrail(b)
  {
    (0x80 + c % 64) as byte
  }

  predicate IsTrail(b: byte) {
    0x80 <= b < 0xC0
  }

  function Char16(c: Scalar): (s: seq<nat>)
    ensures 1 <= |s| <= 2
  {
    if c < 0x1_0000 then [c] else [0xD800 + (c - 0x1_0000) / 1024, 0xDC00 + (c - 0x1_0000) % 1024]
  }

  lemma TrailSays(c: nat)
    ensures Trail(c) as int - 0x80 == c % 64 && c / 64 * 64 + c % 64 == c
  {
  }

  lemma SixBits(c: nat)
    ensures c / 64 / 64 == c / 4096 && c / 4096 / 64 == c / 262144
  {
  }

  lemma TrailsAreTrails(c: Scalar)
    ensures forall i :: 0 < i < |Char8(c)| ==> 0x80 <= Char8(c)[i] < 0xC0
  {
  }

  /** What a character in UTF-8 says, as section 3 of RFC 3629 has it: the shortest sequence for its value, which is
      the low bits of the first byte followed by six bits of each trail byte. */
  lemma Char8Decodes(c: Scalar)
    ensures var s := Char8(c);
            && (forall i :: 0 < i < |s| ==> 0x80 <= s[i] < 0xC0)
            && if c < 0x80 then |s| == 1 && s[0] as int == c
               else if c < 0x800 then |s| == 2 && 0xC0 <= s[0] < 0xE0 && (s[0] as int - 0xC0) * 64 + (s[1] as int - 0x80) == c
               else if c < 0x1_0000 then
                 && |s| == 3 && 0xE0 <= s[0] < 0xF0
                 && ((s[0] as int - 0xE0) * 64 + (s[1] as int - 0x80)) * 64 + (s[2] as int - 0x80) == c
               else
                 && |s| == 4 && 0xF0 <= s[0] < 0xF8
                 && (((s[0] as int - 0xF0) * 64 + (s[1] as int - 0x80)) * 64 + (s[2] as int - 0x80)) * 64 + (s[3] as int - 0x80) == c
  {
    assert IsScalar(c);
    TrailsAreTrails(c);
    SixBits(c);
    TrailSays(c);
    TrailSays(c / 64);
    TrailSays(c / 4096);
  }

  /** What a character in UTF-16 says, as section 2.1 of RFC 2781 has it: one code unit that is no surrogate, or a high and a low
      surrogate with ten bits each of its value less 0x10000. */
  lemma Char16Decodes(c: Scalar)
    ensures var s := Char16(c);
            if c < 0x1_0000 then s == [c] && !(0xD800 <= s[0] < 0xE000)
            else
              && |s| == 2 && 0xD800 <= s[0] < 0xDC00 && 0xDC00 <= s[1] < 0xE000
              && 0x1_0000 + (s[0] - 0xD800) * 1024 + (s[1] - 0xDC00) == c
  {
    assert IsScalar(c);
  }

  /** The first k characters in UTF-8. */
  function First8(cs: seq<Scalar>, k: nat): seq<byte>
    requires k <= |cs|
  {
    if k == 0 then [] else First8(cs, k - 1) + Char8(cs[k - 1])
  }

  /** The first k characters in UTF-16. */
  function First16(cs: seq<Scalar>, k: nat): seq<nat>
    requires k <= |cs|
  {
    if k == 0 then [] else First16(cs, k - 1) + Char16(cs[k - 1])
  }

  function Encode8(cs: seq<Scalar>): seq<byte> {
    First8(cs, |cs|)
  }

  function Encode16(cs: seq<Scalar>): seq<nat> {
    First16(cs, |cs|)
  }

  /** Where the k-th character starts, in bytes and in UTF-16 code units. */
  function Offset8(cs: seq<Scalar>, k: nat): nat
    requires k <= |cs|
  {
    |First8(cs, k)|
  }

  function Offset16(cs: seq<Scalar>, k: nat): nat
    requires k <= |cs|
  {
    |First16(cs, k)|
  }

  lemma OffsetNext(cs: seq<Scalar>, k: nat)
    requires k < |cs|
    ensures Offset8(cs, k + 1) == Offset8(cs, k) + |Char8(cs[k])|
    ensures Offset16(cs, k + 1) == Offset16(cs, k) + |Char16(cs[k])|
  {
  }

  lemma {:induction false} OffsetsGrow(cs: seq<Scalar>, i: nat, k: nat)
    requires i <= k <= |cs|
    ensures Offset8(cs, i) + (k - i) <= Offset8(cs, k)
    ensures Offset16(cs, i) + (k - i) <= Offset16(cs, k)
    decreases k
  {
    if i < k {
      OffsetsGrow(cs, i, k - 1);
      OffsetNext(cs, k - 1);
    }
  }

  lemma {:induction false} FirstIsPrefix(cs: seq<Scalar>, i: nat, k: nat)
    requires i <= k <= |cs|
    ensures First8(cs, i) <= First8(cs, k)
    decreases k
  {
    if i < k {
      FirstIsPrefix(cs, i, k - 1);
    }
  }

  /** The k-th character of the text is where its offset says. */
  lemma CharAtOffset(cs: seq<Scalar>, k: nat)
    requires k < |cs|
    ensures Offset8(cs, k) + |Char8(cs[k])| <= |Encode8(cs)|
    ensures Encode8(cs)[Offset8(cs, k)..Offset8(cs, k) + |Char8(cs[k])|] == Char8(cs[k])
  {
    FirstIsPrefix(cs, k + 1, |cs|);
    assert First8(cs, k + 1)[Offset8(cs, k)..] == Char8(cs[k]);
    SliceOfPrefix(First8(cs, k + 1), Encode8(cs), Offset8(cs, k));
  }

  lemma SliceOfPrefix(a: seq<byte>, b: seq<byte>, i: nat)
    requires a <= b && i <= |a|
    ensures b[i..|a|] == a[i..]
  {
  }

  // ---------------------------------------------------------------------------------------
  // The tables
  // ---------------------------------------------------------------------------------------

  /** The entries of utf8ExtraBytes, indexed by the low six bits of a lead byte. */
  function ExtraBytes(i: nat): nat
    requires i < 64
  {
    if i < 32 then 1 else if i < 48 then 2 else if i < 56 then 3 else if i < 60 then 4 else 5
  }

  /** The entries of utf8ExtraUTF16Characters. */
  function ExtraUnits(i: nat): nat
    requires i < 64
  {
    if i < 48 then 0 else if i < 60 then 1 else 2
  }

  /** c & 0x3f */
  function TableIndex(c: byte): (i: nat)
    ensures i < 64
  {
    (c % 64) as nat
  }

  /** RKLengthOfUTF8Character on the first byte of a character. */
  function LengthOfCharacter(c: byte): (n: nat)
    ensures 1 <= n
  {
    if c < 128 then 1 else ExtraBytes(TableIndex(c)) + 1
  }

  function UnitsOfCharacter(c: byte): nat {
    if c < 128 then 1 else ExtraUnits(TableIndex(c)) + 1
  }

  lemma LeadIndex(c: Scalar)
    requires c >= 0x80
    ensures Char8(c)[0] >= 0x80
    ensures TableIndex(Char8(c)[0]) == (if c < 0x800 then c / 64 else if c < 0x1_0000 then 32 + c / 4096 else 48 + c / 262144)
  {
  }

  /** The tables, read at the first byte of a character, give its length in either encoding. */
  lemma TablesAreRight(c: Scalar)
    ensures LengthOfCharacter(Char8(c)[0]) == |Char8(c)|
    ensures UnitsOfCharacter(Char8(c)[0]) == |Char16(c)|
    ensures !IsTrail(Char8(c)[0])
  {
    assert IsScalar(c);
    if c >= 0x80 {
      LeadIndex(c);
    }
  }

  // ---------------------------------------------------------------------------------------
  // The range conversions
  // ---------------------------------------------------------------------------------------

  /** The range of the characters from the i-th up to the j-th, in either encoding. */
  function Range8(cs: seq<Scalar>, i: nat, j: nat): Range
    requires i <= j <= |cs|
  {
    OffsetsGrow(cs, i, j);
    Range(Offset8(cs, i), Offset8(cs, j) - Offset8(cs, i))
  }

  function Range16(cs: seq<Scalar>, i: nat, j: nat): Range
    requires i <= j <= |cs|
  {
    OffsetsGrow(cs, i, j);
    Range(Offset16(cs, i), Offset16(cs, j) - Offset16(cs, i))
  }

  lemma LeadAtOffset(cs: seq<Scalar>, k: nat)
    requires k < |cs|
    ensures Offset8(cs, k) < |Encode8(cs)|
    ensures LengthOfCharacter(Encode8(cs)[Offset8(cs, k)]) == Offset8(cs, k + 1) - Offset8(cs, k)
    ensures UnitsOfCharacter(Encode8(cs)[Offset8(cs, k)]) == Offset16(cs, k + 1) - Offset16(cs, k)
  {
    CharAtOffset(cs, k);
    OffsetNext(cs, k);
    TablesAreRight(cs[k]);
    assert Encode8(cs)[Offset8(cs, k)] == Encode8(cs)[Offset8(cs, k)..Offset8(cs, k) + |Char8(cs[k])|][0];
  }

  lemma RangeFits(cs: seq<Scalar>, i: nat, j: nat)
    requires i <= j <= |cs|
    ensures Range8(cs, i, j).Max() == Offset8(cs, j) <= |Encode8(cs)|
    ensures Range16(cs, i, j).Max() == Offset16(cs, j) <= |Encode16(cs)|
  {
    OffsetsGrow(cs, i, j);
    OffsetsGrow(cs, j, |cs|);
  }

  ghost function Offset(cs: seq<Scalar>, in8: bool, k: nat): nat
    requires k <= |cs|
  {
    if in8 then Offset8(cs, k) else Offset16(cs, k)
  }

  /** The character boundary at this location, of those below the k-th, if there is one. */
  ghost predicate StartFound(cs: seq<Scalar>, in8: bool, k: nat, location: nat, start: Option<nat>)
    requires k <= |cs|
  {
    if start.Some? then start.value <= k && Offset(cs, in8, start.value) == location
    else forall m :: 0 <= m < k ==> Offset(cs, in8, m) != location
  }

  lemma StartBefore(cs: seq<Scalar>, k: nat, start: Option<nat>)
    requires k <= |cs| && (start.Some? ==> start.value <= k)
    ensures start.Some? ==> Offset8(cs, start.value) <= Offset8(cs, k) && Offset16(cs, start.value) <= Offset16(cs, k)
  {
    if start.Some? {
      OffsetsGrow(cs, start.value, k);
    }
  }

  /** p and utf16len are the offsets of the k-th boundary. */
  ghost predicate AtBoundary(cs: seq<Scalar>, k: nat, p: nat, utf16len: nat) {
    k <= |cs| && p == Offset8(cs, k) && utf16len == Offset16(cs, k)
  }

  /** The body of either loop moves to the next boundary. */
  lemma NextBoundary(cs: seq<Scalar>, in8: bool, k: nat, p: nat, utf16len: nat, limit: nat)
    requires AtBoundary(cs, k, p, utf16len) && (if in8 then p else utf16len) < limit <= Offset(cs, in8, |cs|)
    ensures k < |cs| && p < |Encode8(cs)| && Offset(cs, in8, k) < limit
    ensures AtBoundary(cs, k + 1, p + LengthOfCharacter(Encode8(cs)[p]), utf16len + UnitsOfCharacter(Encode8(cs)[p]))
  {
    LeadAtOffset(cs, k);
  }

  /** The same, with the text at hand. */
  lemma NextInText(s: seq<byte>, cs: seq<Scalar>, in8: bool, k: nat, p: nat, utf16len: nat, limit: nat, location: nat, start: Option<nat>)
    requires s == Encode8(cs) && AtBoundary(cs, k, p, utf16len) && StartFound(cs, in8, k, location, start)
    requires (if in8 then p else utf16len) < limit <= Offset(cs, in8, |cs|)
    ensures k < |cs| && p < |s| && Offset(cs, in8, k) < limit
    ensures AtBoundary(cs, k + 1, p + LengthOfCharacter(s[p]), utf16len + UnitsOfCharacter(s[p]))
    ensures StartFound(cs, in8, k + 1, location, if (if in8 then p else utf16len) == location then Some(k) else start)
    ensures Offset(cs, !in8, k) == if in8 then utf16len else p
  {
    NextBoundary(cs, in8, k, p, utf16len, limit);
    NextStart(cs, in8, k, location, start);
  }

  lemma NextStart(cs: seq<Scalar>, in8: bool, k: nat, location: nat, start: Option<nat>)
    requires k < |cs| && StartFound(cs, in8, k, location, start)
    ensures StartFound(cs, in8, k + 1, location, if Offset(cs, in8, k) == location then Some(k) else start)
  {
  }

  /** The loop of either conversion ends at the first boundary not before the end of the range. */
  lemma LoopFindsRange(cs: seq<Scalar>, in8: bool, i: nat, j: nat, k: nat, start: Option<nat>)
    requires i <= j <= |cs| && k <= |cs|
    requires Offset(cs, in8, k) >= Offset(cs, in8, j) && (k > 0 ==> Offset(cs, in8, k - 1) < Offset(cs, in8, j))
    requires StartFound(cs, in8, k, Offset(cs, in8, i), start)
    requires start == None ==> Offset(cs, in8, k) != Offset(cs, in8, i)
    ensures k == j && start == Some(i)
  {
    OffsetsDiffer(cs, k, j);
    OffsetsDiffer(cs, k - 1, j);
    if start.Some? {
      OffsetsDiffer(cs, start.value, i);
    }
  }

  lemma OffsetsDiffer(cs: seq<Scalar>, i: int, j: int)
    requires i <= |cs| && 0 <= j <= |cs|
    ensures 0 <= i < j ==> Offset8(cs, i) < Offset8(cs, j) && Offset16(cs, i) < Offset16(cs, j)
    ensures 0 <= j < i ==> Offset8(cs, j) < Offset8(cs, i) && Offset16(cs, j) < Offset16(cs, i)
  {
    if 0 <= i < j {
      OffsetsGrow(cs, i, j);
    } else if j < i {
      OffsetsGrow(cs, j, i);
    }
  }

  /** If the range is that of the characters from the i-th to the j-th, it is converted to the range of the same characters. */
  ghost predicate Exact8(cs: seq<Scalar>, range: Range, r: Option<Range>) {
    forall i: nat, j: nat :: i <= j <= |cs| && range == Range8(cs, i, j) ==> r == Some(Range16(cs, i, j))
  }

  lemma BeyondIsNotAligned8(cs: seq<Scalar>, range: Range)
    requires range.Max() > |Encode8(cs)|
    ensures forall r :: Exact8(cs, range, r)
  {
    forall i: nat, j: nat | i <= j <= |cs|
      ensures range != Range8(cs, i, j)
    {
      RangeFits(cs, i, j);
    }
  }

  /** What the walk to the end of the range found is the converted range. */
  lemma WalkIsExact8(cs: seq<Scalar>, range: Range, k: nat, start: Option<nat>)
    requires k <= |cs| && range.Max() <= Offset(cs, true, k) && (k > 0 ==> Offset(cs, true, k - 1) < range.Max())
    requires StartFound(cs, true, k, range.location, start) && (start == None ==> Offset(cs, true, k) != range.location)
    ensures start.Some? ==> Offset(cs, false, start.value) <= Offset(cs, false, k)
    ensures start.Some? ==> Exact8(cs, range, Some(Range(Offset(cs, false, start.value),
                                                        Offset(cs, false, k) - Offset(cs, false, start.value))))
    ensures start == None ==> forall r :: Exact8(cs, range, r)
  {
    StartBefore(cs, k, start);
    forall i: nat, j: nat | i <= j <= |cs| && range == Range8(cs, i, j)
      ensures k == j && start == Some(i)
    {
      RangeFits(cs, i, j);
      LoopFindsRange(cs, true, i, j, k, start);
    }
  }

  /** Lines 120-126 and 164-170: over one character. */
  method SkipCharacter(s: seq<byte>, at: nat, units: nat) returns (p: nat, utf16len: nat)
    requires at < |s|
    ensures p == at + LengthOfCharacter(s[at]) && utf16len == units + UnitsOfCharacter(s[at])
  {
    p, utf16len := at, units;
    var c := s[p];
    p := p + 1;
    utf16len := utf16len + 1;
    if c >= 128 {
      var idx := TableIndex(c);
      p := p + ExtraBytes(idx);
      utf16len := utf16len + ExtraUnits(idx);
    }
  }

  /** The loop of ConvertUTF8ToUTF16: it stops at the first character boundary not before the end of the range. */
  method WalkToByte(s: seq<byte>, location: nat, limit: nat, ghost cs: seq<Scalar>)
    returns (p: nat, utf16len: nat, found: nat, ghost k: nat, ghost start: Option<nat>)
    requires s == Encode8(cs) && limit <= Offset(cs, true, |cs|)
    ensures AtBoundary(cs, k, p, utf16len)
    ensures limit <= p && (k > 0 ==> Offset(cs, true, k - 1) < limit)
    ensures StartFound(cs, true, k, location, start) && (start == None ==> p != location)
    ensures found == (if start.Some? then Offset16(cs, start.value) else NOT_FOUND)
  {
    p, utf16len, found := 0, 0, NOT_FOUND;
    k, start := 0, None;
    while p < limit
      invariant AtBoundary(cs, k, p, utf16len)
      invariant k > 0 ==> Offset(cs, true, k - 1) < limit
      invariant StartFound(cs, true, k, location, start)
      invariant found == (if start.Some? then Offset16(cs, start.value) else NOT_FOUND)
      decreases |cs| - k
    {
      NextInText(s, cs, true, k, p, utf16len, limit, location, start);
      if p == location {
        found := utf16len;
        start := Some(k);
      }
      k := k + 1;
      p, utf16len := SkipCharacter(s, p, utf16len);
    }
    if p == location {
      found := utf16len;
      start := Some(k);
    }
  }

  /** RKConvertUTF8ToUTF16RangeForStringBuffer on a UTF-8 buffer; None is the range exception. Ranges that are
      aligned to characters convert exactly; one that starts inside a character gets the location NSNotFound. */
  method ConvertUTF8ToUTF16(s: seq<byte>, utf8Range: Range, ghost cs: seq<Scalar>) returns (r: Option<Range>)
    requires s == Encode8(cs) && |s| < NOT_FOUND
    ensures utf8Range.location == NOT_FOUND ==> r == Some(utf8Range)
    ensures utf8Range.location != NOT_FOUND ==> (r == None <==> utf8Range.Max() > |s|)
    ensures Exact8(cs, utf8Range, r)
    ensures r.Some? && (forall i :: 0 <= i <= |cs| ==> utf8Range.location != Offset8(cs, i)) ==> r.value.location == NOT_FOUND
  {
    UnitsFewerThanBytes(cs, |cs|);
    if utf8Range.location == NOT_FOUND || utf8Range.Max() > |s| {
      BeyondIsNotAligned8(cs, utf8Range);
    }
    if utf8Range.location == NOT_FOUND {
      return Some(utf8Range);
    }
    if utf8Range.location > |s| || utf8Range.Max() > |s| {
      return None;
    }
    var p, utf16len, location: nat;
    ghost var k, start;
    p, utf16len, location, k, start := WalkToByte(s, utf8Range.location, utf8Range.Max(), cs);
    StartBefore(cs, k, start);
    var length: int := utf16len - location;
    r := Some(Range(location, if length >= 0 then length else length + WORD));
    WalkIsExact8(cs, utf8Range, k, start);
  }

  /** If the range is that of the characters from the i-th to the j-th, it is converted to the range of the same characters. */
  ghost predicate Exact16(cs: seq<Scalar>, range: Range, r: Option<Range>) {
    forall i: nat, j: nat :: i <= j <= |cs| && range == Range16(cs, i, j) ==> r == Some(Range8(cs, i, j))
  }

  lemma BeyondIsNotAligned16(cs: seq<Scalar>, range: Range)
    requires range.Max() > |Encode16(cs)|
    ensures forall r :: Exact16(cs, range, r)
  {
    forall i: nat, j: nat | i <= j <= |cs|
      ensures range != Range16(cs, i, j)
    {
      RangeFits(cs, i, j);
    }
  }

  /** What the walk to the end of the range found is the converted range. */
  lemma WalkIsExact16(cs: seq<Scalar>, range: Range, k: nat, start: Option<nat>)
    requires k <= |cs| && range.Max() <= Offset(cs, false, k) && (k > 0 ==> Offset(cs, false, k - 1) < range.Max())
    requires StartFound(cs, false, k, range.location, start) && (start == None ==> Offset(cs, false, k) != range.location)
    ensures start.Some? ==> Offset(cs, true, start.value) <= Offset(cs, true, k)
    ensures start.Some? ==> Exact16(cs, range, Some(Range(Offset(cs, true, start.value),
                                                        Offset(cs, true, k) - Offset(cs, true, start.value))))
    ensures start == None ==> forall r :: Exact16(cs, range, r)
  {
    StartBefore(cs, k, start);
    forall i: nat, j: nat | i <= j <= |cs| && range == Range16(cs, i, j)
      ensures k == j && start == Some(i)
    {
      RangeFits(cs, i, j);
      LoopFindsRange(cs, false, i, j, k, start);
    }
  }

  /** The loop of ConvertUTF16ToUTF8: it stops at the first character boundary not before the end of the range. */
  method WalkToUnit(s: seq<byte>, location: nat, limit: nat, ghost cs: seq<Scalar>)
    returns (p: nat, utf16len: nat, found: nat, ghost k: nat, ghost start: Option<nat>)
    requires s == Encode8(cs) && limit <= Offset(cs, false, |cs|)
    ensures AtBoundary(cs, k, p, utf16len)
    ensures limit <= utf16len && (k > 0 ==> Offset(cs, false, k - 1) < limit)
    ensures StartFound(cs, false, k, location, start) && (start == None ==> utf16len != location)
    ensures found == (if start.Some? then Offset8(cs, start.value) else NOT_FOUND)
  {
    p, utf16len, found := 0, 0, NOT_FOUND;
    k, start := 0, None;
    while utf16len < limit
      invariant AtBoundary(cs, k, p, utf16len)
      invariant k > 0 ==> Offset(cs, false, k - 1) < limit
      invariant StartFound(cs, false, k, location, start)
      invariant found == (if start.Some? then Offset8(cs, start.value) else NOT_FOUND)
      decreases |cs| - k
    {
      NextInText(s, cs, false, k, p, utf16len, limit, location, start);
      if utf16len == location {
        found := p;
        start := Some(k);
      }
      k := k + 1;
      p, utf16len := SkipCharacter(s, p, utf16len);
    }
    if utf16len == location {
      found := p;
      start := Some(k);
    }
  }

  /** RKConvertUTF16ToUTF8RangeForStringBuffer on a UTF-8 buffer, whose string has stringLength code units. */
  method ConvertUTF16ToUTF8(s: seq<byte>, stringLength: nat, utf16Range: Range, ghost cs: seq<Scalar>) returns (r: Option<Range>)
    requires s == Encode8(cs) && stringLength == |Encode16(cs)| && |s| < NOT_FOUND
    ensures utf16Range.location == NOT_FOUND ==> r == Some(utf16Range)
    ensures utf16Range.location != NOT_FOUND ==> (r == None <==> utf16Range.Max() > stringLength)
    ensures Exact16(cs, utf16Range, r)
    ensures r.Some? && (forall i :: 0 <= i <= |cs| ==> utf16Range.location != Offset16(cs, i)) ==> r.value.location == NOT_FOUND
  {
    UnitsFewerThanBytes(cs, |cs|);
    if utf16Range.location == NOT_FOUND || utf16Range.Max() > stringLength {
      BeyondIsNotAligned16(cs, utf16Range);
    }
    if utf16Range.location == NOT_FOUND {
      return Some(utf16Range);
    }
    if utf16Range.location > stringLength || utf16Range.Max() > stringLength {
      return None;
    }
    var p, utf16len, location: nat;
    ghost var k, start;
    p, utf16len, location, k, start := WalkToUnit(s, utf16Range.location, utf16Range.Max(), cs);
    StartBefore(cs, k, start);
    var length: int := p - location;
    r := Some(Range(location, if length >= 0 then length else length + WORD));
    WalkIsExact16(cs, utf16Range, k, start);
  }

  lemma {:induction false} UnitsFewerThanBytes(cs: seq<Scalar>, k: nat)
    requires k <= |cs|
    ensures Offset16(cs, k) <= Offset8(cs, k)
  {
    if k > 0 {
      UnitsFewerThanBytes(cs, k - 1);
    }
  }

  /** The range of the characters from the i-th to the j-th, converted. */
  method ConvertAligned8(s: seq<byte>, utf8Range: Range, ghost cs: seq<Scalar>, ghost i: nat, ghost j: nat) returns (r: Option<Range>)
    requires s == Encode8(cs) && |s| < NOT_FOUND && i <= j <= |cs| && utf8Range == Range8(cs, i, j)
    ensures r == Some(Range16(cs, i, j))
  {
    RangeFits(cs, i, j);
    r := ConvertUTF8ToUTF16(s, utf8Range, cs);
  }

  method ConvertAligned16(s: seq<byte>, stringLength: nat, utf16Range: Range, ghost cs: seq<Scalar>, ghost i: nat, ghost j: nat)
    returns (r: Option<Range>)
    requires s == Encode8(cs) && stringLength == |Encode16(cs)| && |s| < NOT_FOUND && i <= j <= |cs| && utf16Range == Range16(cs, i, j)
    ensures r == Some(Range8(cs, i, j))
  {
    RangeFits(cs, i, j);
    r := ConvertUTF16ToUTF8(s, stringLength, utf16Range, cs);
  }

  /** Both conversions there and back are the identity on aligned ranges. */
  method RoundTrip(s: seq<byte>, stringLength: nat, utf8Range: Range, utf16Range: Range, ghost cs: seq<Scalar>, ghost i: nat, ghost j: nat)
    returns (there8: Option<Range>, back8: Option<Range>, there16: Option<Range>, back16: Option<Range>)
    requires s == Encode8(cs) && stringLength == |Encode16(cs)| && i <= j <= |cs| && |s| < NOT_FOUND
    requires utf8Range == Range8(cs, i, j) && utf16Range == Range16(cs, i, j)
    ensures there8 == Some(utf16Range) && back8 == Some(utf8Range)
    ensures there16 == Some(utf8Range) && back16 == Some(utf16Range)
  {
    there8 := ConvertAligned8(s, utf8Range, cs, i, j);
    back8 := ConvertAligned16(s, stringLength, there8.value, cs, i, j);
    there16 := ConvertAligned16(s, stringLength, utf16Range, cs, i, j);
    back16 := ConvertAligned8(s, there16.value, cs, i, j);
  }

  lemma RangesAreAdditive(cs: seq<Scalar>, i: nat, j: nat, k: nat)
    requires i <= j <= k <= |cs|
    ensures Range8(cs, i, j).Max() == Range8(cs, j, k).location && Range16(cs, i, j).Max() == Range16(cs, j, k).location
    ensures Range16(cs, i, k) == Range(Range16(cs, i, j).location, Range16(cs, i, j).length + Range16(cs, j, k).length)
    ensures Range8(cs, i, k) == Range(Range8(cs, i, j).location, Range8(cs, i, j).length + Range8(cs, j, k).length)
  {
    OffsetsGrow(cs, i, j);
    OffsetsGrow(cs, j, k);
  }

  /** b lies behind a, and whole is both. */
  predicate Joins(a: Range, b: Range, whole: Range) {
    a.Max() == b.location && whole == Range(a.location, a.length + b.length)
  }

  /** Converting adjacent ranges of bytes gives adjacent ranges of code units, and together the range of the whole. */
  method ConversionIsAdditive(s: seq<byte>, a: Range, b: Range, ghost cs: seq<Scalar>, ghost i: nat, ghost j: nat, ghost k: nat)
    returns (first: Option<Range>, second: Option<Range>, whole: Option<Range>)
    requires s == Encode8(cs) && |s| < NOT_FOUND && i <= j <= k <= |cs|
    requires a == Range8(cs, i, j) && b == Range8(cs, j, k)
    ensures first.Some? && second.Some? && whole.Some? && Joins(first.value, second.value, whole.value)
  {
    RangesAreAdditive(cs, i, j, k);
    first := ConvertAligned8(s, a, cs, i, j);
    second := ConvertAligned8(s, b, cs, j, k);
    whole := ConvertAligned8(s, Range(a.location, a.length + b.length), cs, i, k);
  }

  /** The same in the other direction. */
  method ConversionBackIsAdditive(s: seq<byte>, stringLength: nat, a: Range, b: Range,
                                  ghost cs: seq<Scalar>, ghost i: nat, ghost j: nat, ghost k: nat)
    returns (first: Option<Range>, second: Option<Range>, whole: Option<Range>)
    requires s == Encode8(cs) && stringLength == |Encode16(cs)| && |s| < NOT_FOUND && i <= j <= k <= |cs|
    requires a == Range16(cs, i, j) && b == Range16(cs, j, k)
    ensures first.Some? && second.Some? && whole.Some? && Joins(first.value, second.value, whole.value)
  {
    RangesAreAdditive(cs, i, j, k);
    first := ConvertAligned16(s, stringLength, a, cs, i, j);
    second := ConvertAligned16(s, stringLength, b, cs, j, k);
    whole := ConvertAligned16(s, stringLength, Range(a.location, a.length + b.length), cs, i, k);
  }

  /** Every byte belongs to one character. */
  lemma {:induction false} OwnerBelow(cs: seq<Scalar>, at: nat, n: nat) returns (k: nat)
    requires n <= |cs| && at < Offset8(cs, n)
    ensures k < n && Offset8(cs, k) <= at < Offset8(cs, k + 1)
  {
    k := n - 1;
    if at < Offset8(cs, k) {
      k := OwnerBelow(cs, at, k);
    }
  }

  /** Only the first byte of a character is not a trail byte. */
  lemma TrailsOf(cs: seq<Scalar>, k: nat, at: nat)
    requires k < |cs| && Offset8(cs, k) <= at < Offset8(cs, k + 1)
    ensures Offset8(cs, k + 1) <= |Encode8(cs)| && (IsTrail(Encode8(cs)[at]) <==> at != Offset8(cs, k))
  {
    OffsetNext(cs, k);
    CharAtOffset(cs, k);
    FirstByteIsLead(cs[k]);
    ByteOfSlice(Encode8(cs), Offset8(cs, k), Offset8(cs, k + 1), at);
  }

  lemma ByteOfSlice(s: seq<byte>, i: nat, j: nat, at: nat)
    requires i <= at < j <= |s|
    ensures s[at] == s[i..j][at - i]
  {
  }

  /** The character that holds a byte. */
  lemma OwnerOfByte(cs: seq<Scalar>, at: nat) returns (k: nat)
    requires at < |Encode8(cs)|
    ensures k < |cs| && Offset8(cs, k) <= at < Offset8(cs, k + 1)
    ensures IsTrail(Encode8(cs)[at]) <==> at != Offset8(cs, k)
  {
    k := OwnerBelow(cs, at, |cs|);
    TrailsOf(cs, k, at);
  }

  lemma FirstByteIsLead(c: Scalar)
    ensures forall i :: 0 <= i < |Char8(c)| ==> (IsTrail(Char8(c)[i]) <==> i > 0)
  {
    TablesAreRight(c);
  }

  /** RKRangeForUTF8CharacterAtLocation: the range of the character that holds the byte, and at the end of
      a text that of its last character. At location 0 of an empty text it reads the terminator. */
  method RangeForCharacterAtLocation(s: seq<byte>, utf8Location: nat, ghost cs: seq<Scalar>) returns (r: Range, ghost k: nat)
    requires s == Encode8(cs) && utf8Location <= |s|
    ensures s == [] ==> r == Range(0, 1)
    ensures s != [] ==> k < |cs| && r == Range8(cs, k, k + 1)
    ensures s != [] ==> r.location <= utf8Location && (utf8Location < |s| ==> utf8Location < r.Max())
    ensures s != [] && utf8Location == |s| ==> k == |cs| - 1
  {
    var at := utf8Location;
    if |s| == at && at > 0 {
      at := at - 1;
    }
    if s == [] {
      return Range(0, 1), 0;
    }
    k := OwnerOfByte(cs, at);
    OffsetsGrow(cs, k + 1, |cs|);
    if IsTrail(s[at]) {
      while at > 0 && IsTrail(s[at])
        invariant Offset8(cs, k) <= at < Offset8(cs, k + 1) <= |s|
      {
        TrailsOf(cs, k, at);
        at := at - 1;
      }
      TrailsOf(cs, k, at);
    }
    LeadAtOffset(cs, k);
    OffsetNext(cs, k);
    r := Range(at, LengthOfCharacter(s[at]));
  }
}
