/** Types and counting shared by the modules of this project. */
module Base {

  datatype Option<+T> = None | Some(value: T)

  /** Foundation's NSRange: a location and a length. */
  datatype Range = Range(location: nat, length: nat) {
    function Max(): nat {
      location + length
    }
  }

  lemma Associate<T>(a: seq<T>, b: seq<T>, c: seq<T>)
    ensures a + b + c == a + (b + c)
  {
  }

  /** NSNotFound on a 64-bit system. */
  const NOT_FOUND: nat := 0x7FFF_FFFF_FFFF_FFFF

  /** 2 to the 64: the number of values of an unsigned 64-bit integer. */
  const WORD: nat := 0x1_0000_0000_0000_0000

  newtype byte = x: int | 0 <= x < 256

  /** The byte at i of a text, or the NUL behind it. */
  function At(s: seq<byte>, i: nat): byte {
    if i < |s| then s[i] else 0
  }

  /** A text in ASCII, as bytes. */
  function Ascii(text: string): (s: seq<byte>)
    requires forall i :: 0 <= i < |text| ==> text[i] as int < 128
    ensures |s| == |text| && forall i :: 0 <= i < |s| ==> s[i] as int == text[i] as int
  {
    seq(|text|, i requires 0 <= i < |text| => (text[i] as int) as byte)
  }

  /** The first k texts, one behind the other. */
  function Concatenated(texts: seq<seq<byte>>, k: nat): seq<byte>
    requires k <= |texts|
  {
    if k == 0 then [] else Concatenated(texts, k - 1) + texts[k - 1]
  }

  /** How many elements of s satisfy p. */
  ghost function CountIf<T>(p: T -> bool, s: seq<T>): nat {
    if s == [] then 0
    else CountIf(p, s[..|s| - 1]) + (if p(s[|s| - 1]) then 1 else 0)
  }

  lemma {:induction false} CountIfUpdate<T>(p: T -> bool, s: seq<T>, i: nat, x: T)
    requires i < |s|
    ensures CountIf(p, s[i := x]) + (if p(s[i]) then 1 else 0) == CountIf(p, s) + (if p(x) then 1 else 0)
  {
    var n := |s| - 1;
    if i == n {
      assert s[i := x][..n] == s[..n];
    } else {
      assert s[i := x][..n] == s[..n][i := x];
      CountIfUpdate(p, s[..n], i, x);
    }
  }

  lemma {:induction false} CountIfPositive<T>(p: T -> bool, s: seq<T>, i: nat)
    requires i < |s| && p(s[i])
    ensures CountIf(p, s) > 0
  {
    if i < |s| - 1 {
      CountIfPositive(p, s[..|s| - 1], i);
    }
  }

  /** A positive count has a witness. */
  lemma {:induction false} CountIfWitness<T>(p: T -> bool, s: seq<T>) returns (i: nat)
    requires CountIf(p, s) > 0
    ensures i < |s| && p(s[i])
  {
    i := |s| - 1;
    if !p(s[i]) {
      i := CountIfWitness(p, s[..i]);
    }
  }

  lemma {:induction false} CountIfSame<T>(p: T -> bool, s: seq<T>, t: seq<T>)
    requires |s| == |t| && forall i :: 0 <= i < |s| ==> p(s[i]) == p(t[i])
    ensures CountIf(p, s) == CountIf(p, t)
  {
    if s != [] {
      CountIfSame(p, s[..|s| - 1], t[..|s| - 1]);
    }
  }

  lemma {:induction false} CountIfAll<T>(p: T -> bool, s: seq<T>)
    requires forall i :: 0 <= i < |s| ==> p(s[i])
    ensures CountIf(p, s) == |s|
  {
    if s != [] {
      CountIfAll(p, s[..|s| - 1]);
    }
  }

  lemma {:induction false} CountIfZero<T>(p: T -> bool, s: seq<T>)
    requires CountIf(p, s) == 0
    ensures forall i :: 0 <= i < |s| ==> !p(s[i])
  {
    if s != [] {
      CountIfZero(p, s[..|s| - 1]);
      assert s == s[..|s| - 1] + [s[|s| - 1]];
    }
  }

  function Sum(s: seq<nat>): nat {
    if s == [] then 0 else Sum(s[..|s| - 1]) + s[|s| - 1]
  }

  lemma {:induction false} SumUpdate(s: seq<nat>, i: nat, x: nat)
    requires i < |s|
    ensures Sum(s[i := x]) == Sum(s) - s[i] + x
  {
    var n := |s| - 1;
    if i < n {
      SumUpdate(s[..n], i, x);
      assert s[i := x][..n] == s[..n][i := x];
    } else {
      assert s[i := x][..n] == s[..n];
    }
  }

  lemma {:induction false} SumZero(s: seq<nat>)
    requires forall i :: 0 <= i < |s| ==> s[i] == 0
    ensures Sum(s) == 0
  {
    if s != [] {
      SumZero(s[..|s| - 1]);
    }
  }

  lemma {:induction false} SumAtMost(a: seq<nat>, b: seq<nat>, i: nat)
    requires |a| == |b| && i < |a|
    requires forall k :: 0 <= k < |a| && k != i ==> a[k] <= b[k]
    ensures Sum(a) + b[i] <= Sum(b) + a[i]
  {
    var n := |a| - 1;
    if i < n {
      SumAtMost(a[..n], b[..n], i);
    } else {
      SumMonotone(a[..n], b[..n]);
    }
  }

  lemma {:induction false} SumMonotone(a: seq<nat>, b: seq<nat>)
    requires |a| == |b|
    requires forall k :: 0 <= k < |a| ==> a[k] <= b[k]
    ensures Sum(a) <= Sum(b)
  {
    if a != [] {
      SumMonotone(a[..|a| - 1], b[..|a| - 1]);
    }
  }

  /** A set of numbers below n has at most n elements. */
  lemma {:induction false} RangeSize(n: nat, s: set<nat>)
    requires forall x :: x in s ==> x < n
    ensures |s| <= n
  {
    if n == 0 {
      assert s == {};
    } else {
      RangeSize(n - 1, s - {n - 1});
    }
  }
}
