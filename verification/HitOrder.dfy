/**
 The order regexes are tried in (Source/RKSortedRegexCollection.m:417-421): a stable sort of the
 elements by descending hit count, as mergesort(3) performs it with the comparator.
 */
module HitOrder {
  import opened Base

  /** sortRegexCollectionItems: negative when the first element goes first. */
  function Compare(hits: seq<nat>, a: nat, b: nat): int
    requires a < |hits| && b < |hits|
  {
    if hits[a] > hits[b] then -1 else if hits[a] < hits[b] then 1 else 0
  }

  /** Every entry of sorted is an element. */
  predicate Indexes(hits: seq<nat>, sorted: seq<nat>) {
    forall i :: 0 <= i < |sorted| ==> sorted[i] < |hits|
  }

  predicate Distinct(sorted: seq<nat>) {
    forall i, k :: 0 <= i < k < |sorted| ==> sorted[i] != sorted[k]
  }

  /** sorted holds every element exactly once. */
  predicate Permutes(hits: seq<nat>, sorted: seq<nat>) {
    |sorted| == |hits| && Indexes(hits, sorted) && Distinct(sorted)
  }

  /** The slot does not hold more hits than the one before it. */
  predicate InOrder(hits: seq<nat>, sorted: seq<nat>, slot: nat)
    requires Indexes(hits, sorted) && 0 < slot < |sorted|
  {
    hits[sorted[slot]] <= hits[sorted[slot - 1]]
  }

  predicate Descending(hits: seq<nat>, sorted: seq<nat>)
    requires Indexes(hits, sorted)
  {
    forall i :: 0 < i < |sorted| ==> InOrder(hits, sorted, i)
  }

  function Insert(hits: seq<nat>, x: nat, sorted: seq<nat>): (r: seq<nat>)
    requires x < |hits| && Indexes(hits, sorted)
    ensures |r| == |sorted| + 1 && Indexes(hits, r)
  {
    if sorted == [] || Compare(hits, x, sorted[0]) <= 0 then [x] + sorted
    else [sorted[0]] + Insert(hits, x, sorted[1..])
  }

  function SortByHits(hits: seq<nat>, sorted: seq<nat>): (r: seq<nat>)
    requires Indexes(hits, sorted)
    ensures |r| == |sorted| && Indexes(hits, r)
  {
    if sorted == [] then [] else Insert(hits, sorted[0], SortByHits(hits, sorted[1..]))
  }

  lemma {:induction false} InsertAdds(hits: seq<nat>, x: nat, sorted: seq<nat>)
    requires x < |hits| && Indexes(hits, sorted)
    ensures multiset(Insert(hits, x, sorted)) == multiset([x] + sorted)
  {
    if sorted != [] && Compare(hits, x, sorted[0]) > 0 {
      InsertAdds(hits, x, sorted[1..]);
      assert sorted == [sorted[0]] + sorted[1..];
    }
  }

  lemma DescendingTail(hits: seq<nat>, sorted: seq<nat>)
    requires Indexes(hits, sorted) && sorted != [] && Descending(hits, sorted)
    ensures Descending(hits, sorted[1..])
  {
    forall i | 0 < i < |sorted[1..]|
      ensures InOrder(hits, sorted[1..], i)
    {
      assert InOrder(hits, sorted, i + 1);
    }
  }

  lemma DescendingCons(hits: seq<nat>, x: nat, rest: seq<nat>)
    requires x < |hits| && Indexes(hits, rest) && Descending(hits, rest)
    requires rest != [] ==> hits[rest[0]] <= hits[x]
    ensures Descending(hits, [x] + rest)
  {
    forall i | 0 < i < |rest| + 1
      ensures InOrder(hits, [x] + rest, i)
    {
      if i > 1 {
        assert InOrder(hits, rest, i - 1);
      }
    }
  }

  lemma {:induction false} InsertDescends(hits: seq<nat>, x: nat, sorted: seq<nat>)
    requires x < |hits| && Indexes(hits, sorted) && Descending(hits, sorted)
    ensures Descending(hits, Insert(hits, x, sorted))
  {
    if sorted != [] && Compare(hits, x, sorted[0]) > 0 {
      DescendingTail(hits, sorted);
      InsertDescends(hits, x, sorted[1..]);
      assert |sorted| > 1 ==> InOrder(hits, sorted, 1);
      DescendingCons(hits, sorted[0], Insert(hits, x, sorted[1..]));
    } else {
      DescendingCons(hits, x, sorted);
    }
  }

  /** The sort returns the same elements, in descending order of hits. */
  lemma {:induction false} SortIsSorted(hits: seq<nat>, sorted: seq<nat>)
    requires Indexes(hits, sorted)
    ensures multiset(SortByHits(hits, sorted)) == multiset(sorted)
    ensures Descending(hits, SortByHits(hits, sorted))
  {
    if sorted != [] {
      SortIsSorted(hits, sorted[1..]);
      InsertAdds(hits, sorted[0], SortByHits(hits, sorted[1..]));
      InsertDescends(hits, sorted[0], SortByHits(hits, sorted[1..]));
      assert sorted == [sorted[0]] + sorted[1..];
    }
  }

  /** The sort is stable: elements with equal hits keep their order. */
  lemma {:induction false} SortIsStable(hits: seq<nat>, sorted: seq<nat>, count: nat)
    requires Indexes(hits, sorted)
    ensures WithHits(hits, SortByHits(hits, sorted), count) == WithHits(hits, sorted, count)
  {
    if sorted != [] {
      SortIsStable(hits, sorted[1..], count);
      InsertIsStable(hits, sorted[0], SortByHits(hits, sorted[1..]), count);
      WithHitsCons(hits, sorted[0], sorted[1..], count);
      assert [sorted[0]] + sorted[1..] == sorted;
    }
  }

  /** The elements with exactly this many hits, in order. */
  function WithHits(hits: seq<nat>, sorted: seq<nat>, count: nat): seq<nat>
    requires Indexes(hits, sorted)
  {
    if sorted == [] then []
    else (if hits[sorted[0]] == count then [sorted[0]] else []) + WithHits(hits, sorted[1..], count)
  }

  lemma WithHitsCons(hits: seq<nat>, x: nat, rest: seq<nat>, count: nat)
    requires x < |hits| && Indexes(hits, rest)
    ensures WithHits(hits, [x] + rest, count) ==
            if hits[x] == count then [x] + WithHits(hits, rest, count) else WithHits(hits, rest, count)
  {
    assert ([x] + rest)[1..] == rest;
    assert [] + WithHits(hits, rest, count) == WithHits(hits, rest, count);
  }

  lemma {:induction false} InsertIsStable(hits: seq<nat>, x: nat, sorted: seq<nat>, count: nat)
    requires x < |hits| && Indexes(hits, sorted)
    ensures WithHits(hits, Insert(hits, x, sorted), count) ==
            if hits[x] == count then [x] + WithHits(hits, sorted, count) else WithHits(hits, sorted, count)
  {
    if sorted != [] && Compare(hits, x, sorted[0]) > 0 {
      InsertIsStable(hits, x, sorted[1..], count);
      WithHitsCons(hits, sorted[0], Insert(hits, x, sorted[1..]), count);
      WithHitsCons(hits, sorted[0], sorted[1..], count);
      assert [sorted[0]] + sorted[1..] == sorted;
    } else {
      WithHitsCons(hits, x, sorted, count);
    }
  }

  lemma {:induction false} FirstHasMost(hits: seq<nat>, sorted: seq<nat>, i: nat)
    requires Indexes(hits, sorted) && Descending(hits, sorted) && i < |sorted|
    ensures hits[sorted[i]] <= hits[sorted[0]]
  {
    if i > 0 {
      FirstHasMost(hits, sorted, i - 1);
      assert InOrder(hits, sorted, i);
    }
  }

  lemma {:induction false} SomeWithHits(hits: seq<nat>, sorted: seq<nat>, count: nat) returns (i: nat)
    requires Indexes(hits, sorted) && WithHits(hits, sorted, count) != []
    ensures i < |sorted| && hits[sorted[i]] == count
  {
    i := 0;
    if hits[sorted[0]] != count {
      i := SomeWithHits(hits, sorted[1..], count);
      i := i + 1;
    }
  }

  /** Two descending lists with the same elements in the same order at every count begin alike. */
  lemma SameFirst(hits: seq<nat>, a: seq<nat>, b: seq<nat>)
    requires Indexes(hits, a) && Indexes(hits, b) && Descending(hits, a) && Descending(hits, b) && a != []
    requires forall count :: WithHits(hits, a, count) == WithHits(hits, b, count)
    ensures b != [] && a[0] == b[0]
  {
    var most := hits[a[0]];
    assert WithHits(hits, a, most)[0] == a[0];
    assert WithHits(hits, b, most) != [];
    var i := SomeWithHits(hits, b, most);
    FirstHasMost(hits, b, i);
    assert WithHits(hits, b, hits[b[0]])[0] == b[0];
    assert WithHits(hits, a, hits[b[0]]) != [];
    var k := SomeWithHits(hits, a, hits[b[0]]);
    FirstHasMost(hits, a, k);
  }

  lemma {:induction false} SameOrder(hits: seq<nat>, a: seq<nat>, b: seq<nat>)
    requires Indexes(hits, a) && Indexes(hits, b) && Descending(hits, a) && Descending(hits, b)
    requires forall count :: WithHits(hits, a, count) == WithHits(hits, b, count)
    ensures a == b
  {
    if a == [] {
      if b != [] {
        SameFirst(hits, b, a);
      }
    } else {
      SameFirst(hits, a, b);
      DescendingTail(hits, a);
      DescendingTail(hits, b);
      forall count
        ensures WithHits(hits, a[1..], count) == WithHits(hits, b[1..], count)
      {
        TailWithHits(hits, a, count);
        TailWithHits(hits, b, count);
      }
      SameOrder(hits, a[1..], b[1..]);
      assert a == [a[0]] + a[1..] && b == [b[0]] + b[1..];
    }
  }

  lemma TailWithHits(hits: seq<nat>, sorted: seq<nat>, count: nat)
    requires Indexes(hits, sorted) && sorted != []
    ensures WithHits(hits, sorted[1..], count) ==
            if hits[sorted[0]] == count then WithHits(hits, sorted, count)[1..] else WithHits(hits, sorted, count)
  {
    assert [sorted[0]] + sorted[1..] == sorted;
    WithHitsCons(hits, sorted[0], sorted[1..], count);
  }

  /** Any list in descending order that keeps the order of elements with equal hits is the one this sort returns: whatever
      stable sort the system has, it gives this order. */
  lemma StableSortIsUnique(hits: seq<nat>, sorted: seq<nat>, r: seq<nat>)
    requires Indexes(hits, sorted) && Indexes(hits, r) && Descending(hits, r)
    requires forall count :: WithHits(hits, r, count) == WithHits(hits, sorted, count)
    ensures r == SortByHits(hits, sorted)
  {
    SortIsSorted(hits, sorted);
    forall count
      ensures WithHits(hits, SortByHits(hits, sorted), count) == WithHits(hits, r, count)
    {
      SortIsStable(hits, sorted, count);
    }
    SameOrder(hits, r, SortByHits(hits, sorted));
  }

  lemma {:induction false} MultisetDistinct(s: seq<nat>, i: nat, k: nat)
    requires i < k < |s| && s[i] == s[k]
    ensures multiset(s)[s[i]] >= 2
  {
    assert s == s[..k] + s[k..];
    assert s[i] in s[..k] && s[k] in s[k..];
  }

  lemma {:induction false} DistinctMultiset(s: seq<nat>, x: nat)
    requires Distinct(s)
    ensures multiset(s)[x] <= 1
  {
    if s != [] {
      var n := |s| - 1;
      DistinctMultiset(s[..n], x);
      assert s == s[..n] + [s[n]];
      if s[n] == x {
        assert x !in s[..n];
      }
    }
  }

  lemma SortPermutes(hits: seq<nat>, sorted: seq<nat>)
    requires Permutes(hits, sorted)
    ensures Permutes(hits, SortByHits(hits, sorted))
  {
    SortIsSorted(hits, sorted);
    var r := SortByHits(hits, sorted);
    forall i, k | 0 <= i < k < |r|
      ensures r[i] != r[k]
    {
      if r[i] == r[k] {
        MultisetDistinct(r, i, k);
        DistinctMultiset(sorted, r[i]);
      }
    }
  }

  lemma {:induction false} DistinctSize(s: seq<nat>) returns (elements: set<nat>)
    requires Distinct(s)
    ensures |elements| == |s| && forall x :: x in elements <==> x in s
  {
    if s == [] {
      elements := {};
    } else {
      var n := |s| - 1;
      elements := DistinctSize(s[..n]);
      assert s == s[..n] + [s[n]];
      elements := elements + {s[n]};
    }
  }

  /** Every element has a slot. */
  lemma ElementHasSlot(hits: seq<nat>, sorted: seq<nat>, e: nat) returns (slot: nat)
    requires Permutes(hits, sorted) && e < |hits|
    ensures slot < |sorted| && sorted[slot] == e
  {
    var elements := DistinctSize(sorted);
    if e !in elements {
      RangeSize(|hits|, elements + {e});
      assert false;
    }
    slot :| slot < |sorted| && sorted[slot] == e;
  }

  // ---------------------------------------------------------------------------------------
  // Which element comes before which
  // ---------------------------------------------------------------------------------------

  /** Element x comes before element y. */
  ghost predicate Precedes(sorted: seq<nat>, x: nat, y: nat) {
    exists i, k :: 0 <= i < k < |sorted| && sorted[i] == x && sorted[k] == y
  }

  lemma PrecedesBehind(sorted: seq<nat>, h: nat, x: nat, y: nat)
    requires Precedes(sorted, x, y)
    ensures Precedes([h] + sorted, x, y)
  {
    var i, k :| 0 <= i < k < |sorted| && sorted[i] == x && sorted[k] == y;
    assert ([h] + sorted)[i + 1] == x && ([h] + sorted)[k + 1] == y;
  }

  lemma FirstPrecedes(h: nat, sorted: seq<nat>, y: nat)
    requires y in sorted
    ensures Precedes([h] + sorted, h, y)
  {
    var k :| 0 <= k < |sorted| && sorted[k] == y;
    assert ([h] + sorted)[0] == h && ([h] + sorted)[k + 1] == y;
  }

  lemma PrecedesIn(sorted: seq<nat>, x: nat, y: nat)
    requires sorted != [] && Precedes(sorted, x, y)
    ensures (x == sorted[0] && y in sorted[1..]) || Precedes(sorted[1..], x, y)
  {
    var i, k :| 0 <= i < k < |sorted| && sorted[i] == x && sorted[k] == y;
    assert sorted[1..][k - 1] == y;
    if i > 0 {
      assert sorted[1..][i - 1] == x;
    }
  }

  lemma {:induction false} InsertKeepsPrecedes(hits: seq<nat>, h: nat, sorted: seq<nat>, x: nat, y: nat)
    requires h < |hits| && Indexes(hits, sorted) && Precedes(sorted, x, y)
    ensures Precedes(Insert(hits, h, sorted), x, y)
  {
    if sorted == [] || Compare(hits, h, sorted[0]) <= 0 {
      PrecedesBehind(sorted, h, x, y);
    } else {
      var rest := Insert(hits, h, sorted[1..]);
      PrecedesIn(sorted, x, y);
      InsertAdds(hits, h, sorted[1..]);
      if Precedes(sorted[1..], x, y) {
        InsertKeepsPrecedes(hits, h, sorted[1..], x, y);
        PrecedesBehind(rest, sorted[0], x, y);
      } else {
        assert y in multiset([h] + sorted[1..]);
        FirstPrecedes(sorted[0], rest, y);
      }
    }
  }

  /** An element is inserted before those with as many hits. */
  lemma {:induction false} InsertedPrecedes(hits: seq<nat>, x: nat, sorted: seq<nat>, y: nat)
    requires x < |hits| && Indexes(hits, sorted) && y in sorted && hits[y] == hits[x]
    ensures Precedes(Insert(hits, x, sorted), x, y)
  {
    if Compare(hits, x, sorted[0]) <= 0 {
      FirstPrecedes(x, sorted, y);
    } else {
      InsertedPrecedes(hits, x, sorted[1..], y);
      PrecedesBehind(Insert(hits, x, sorted[1..]), sorted[0], x, y);
    }
  }

  lemma {:induction false} TiesKeepPrecedence(hits: seq<nat>, sorted: seq<nat>, x: nat, y: nat)
    requires Indexes(hits, sorted) && Precedes(sorted, x, y) && x < |hits| && y < |hits| && hits[x] == hits[y]
    ensures Precedes(SortByHits(hits, sorted), x, y)
  {
    PrecedesIn(sorted, x, y);
    SortIsSorted(hits, sorted[1..]);
    if Precedes(sorted[1..], x, y) {
      TiesKeepPrecedence(hits, sorted[1..], x, y);
      InsertKeepsPrecedes(hits, sorted[0], SortByHits(hits, sorted[1..]), x, y);
    } else {
      assert y in multiset(sorted[1..]);
      InsertedPrecedes(hits, x, SortByHits(hits, sorted[1..]), y);
    }
  }

  lemma {:induction false} DescendingFrom(hits: seq<nat>, sorted: seq<nat>, i: nat, k: nat)
    requires Indexes(hits, sorted) && Descending(hits, sorted) && i <= k < |sorted|
    ensures hits[sorted[i]] >= hits[sorted[k]]
  {
    if i < k {
      DescendingFrom(hits, sorted, i, k - 1);
      assert InOrder(hits, sorted, k);
    }
  }

  /** Of two elements one comes before the other. */
  lemma OneComesFirst(hits: seq<nat>, sorted: seq<nat>, x: nat, y: nat)
    requires Permutes(hits, sorted) && x < |hits| && y < |hits| && x != y
    ensures Precedes(sorted, x, y) <==> !Precedes(sorted, y, x)
  {
    var i := ElementHasSlot(hits, sorted, x);
    var k := ElementHasSlot(hits, sorted, y);
    assert i < k ==> Precedes(sorted, x, y);
    assert k < i ==> Precedes(sorted, y, x);
  }

  lemma MoreHitsPrecede(hits: seq<nat>, sorted: seq<nat>, x: nat, y: nat)
    requires Permutes(hits, sorted) && Descending(hits, sorted) && x < |hits| && y < |hits| && hits[x] > hits[y]
    ensures Precedes(sorted, x, y)
  {
    OneComesFirst(hits, sorted, x, y);
    if Precedes(sorted, y, x) {
      var i, k :| 0 <= i < k < |sorted| && sorted[i] == y && sorted[k] == x;
      DescendingFrom(hits, sorted, i, k);
    }
  }

  /** After the sort an element comes before another one exactly if it has more hits, or as many and came before it. */
  lemma SortDecides(hits: seq<nat>, sorted: seq<nat>, x: nat, y: nat)
    requires Permutes(hits, sorted) && x < |hits| && y < |hits| && x != y
    ensures Precedes(SortByHits(hits, sorted), x, y) <==> hits[x] > hits[y] || (hits[x] == hits[y] && Precedes(sorted, x, y))
  {
    var r := SortByHits(hits, sorted);
    SortIsSorted(hits, sorted);
    SortPermutes(hits, sorted);
    OneComesFirst(hits, r, x, y);
    OneComesFirst(hits, sorted, x, y);
    if hits[x] > hits[y] {
      MoreHitsPrecede(hits, r, x, y);
    } else if hits[x] < hits[y] {
      MoreHitsPrecede(hits, r, y, x);
    } else if Precedes(sorted, x, y) {
      TiesKeepPrecedence(hits, sorted, x, y);
    } else {
      TiesKeepPrecedence(hits, sorted, y, x);
    }
  }

  /** An order that is descending already stays as it is. */
  lemma SortKeepsOrder(hits: seq<nat>, sorted: seq<nat>)
    requires Indexes(hits, sorted) && Descending(hits, sorted)
    ensures SortByHits(hits, sorted) == sorted
  {
    StableSortIsUnique(hits, sorted, sorted);
  }
}
