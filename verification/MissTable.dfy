/**
 The table of missed objects (Source/RKSortedRegexCollection.m:295-314 and 347): one hash per bucket, all
 zero at first, consulted before every search and written after every search that returns nothing.
 */
module MissTable {
  /** RK_SORTED_REGEX_COLLECTION_CACHE_BUCKETS */
  const BUCKETS: nat := 251

  /** One call of regexMatching:lowestIndexInCollection: on an object. */
  datatype Call = Call(target: nat, lowest: bool)

  /** What the calls depend on: the hash of an object, and whether an uncached search returns a regex. */
  datatype World = World(hash: nat -> nat, finds: Call -> bool)

  function Bucket(hash: nat): nat {
    hash % BUCKETS
  }

  /** The table after one call. */
  function AfterCall(w: World, table: seq<nat>, c: Call): seq<nat>
    requires |table| == BUCKETS
  {
    var h := w.hash(c.target);
    if table[Bucket(h)] == h || w.finds(c) then table else table[Bucket(h) := h]
  }

  /** The table after a sequence of calls on a new collection. */
  function After(w: World, calls: seq<Call>): (table: seq<nat>)
    ensures |table| == BUCKETS
  {
    if calls == [] then seq(BUCKETS, i => 0)
    else AfterCall(w, After(w, calls[..|calls| - 1]), calls[|calls| - 1])
  }

  /** Whether call i of the sequence returns a regex. */
  predicate Returns(w: World, calls: seq<Call>, i: nat)
    requires i < |calls|
  {
    var h := w.hash(calls[i].target);
    After(w, calls[..i])[Bucket(h)] != h && w.finds(calls[i])
  }

  /** Call k is a miss of this bucket. */
  predicate MissIn(w: World, calls: seq<Call>, k: nat, bucket: nat)
    requires k < |calls|
  {
    Bucket(w.hash(calls[k].target)) == bucket && !w.finds(calls[k])
  }

  /** Call k is the last miss of its bucket. */
  predicate LastMiss(w: World, calls: seq<Call>, k: nat, bucket: nat)
    requires k < |calls|
  {
    MissIn(w, calls, k, bucket) && forall m :: k < m < |calls| ==> !MissIn(w, calls, m, bucket)
  }

  /** A bucket holds the hash of its last miss, whether that was searched or answered from the table. */
  lemma {:induction false} BucketHoldsLastMiss(w: World, calls: seq<Call>, bucket: nat, k: nat)
    requires bucket < BUCKETS && k < |calls| && LastMiss(w, calls, k, bucket)
    ensures After(w, calls)[bucket] == w.hash(calls[k].target)
  {
    var n := |calls| - 1;
    if k < n {
      var prior := calls[..n];
      assert !MissIn(w, calls, n, bucket);
      assert MissIn(w, prior, k, bucket);
      assert forall m :: k < m < n ==> MissIn(w, prior, m, bucket) == MissIn(w, calls, m, bucket);
      BucketHoldsLastMiss(w, prior, bucket, k);
    }
  }

  lemma {:induction false} BucketWithoutMiss(w: World, calls: seq<Call>, bucket: nat)
    requires bucket < BUCKETS && forall k :: 0 <= k < |calls| ==> !MissIn(w, calls, k, bucket)
    ensures After(w, calls)[bucket] == 0
  {
    if calls != [] {
      var n := |calls| - 1;
      var prior := calls[..n];
      assert !MissIn(w, calls, n, bucket);
      assert forall k :: 0 <= k < n ==> MissIn(w, prior, k, bucket) == MissIn(w, calls, k, bucket);
      BucketWithoutMiss(w, prior, bucket);
    }
  }

  lemma {:induction false} SomeLastMiss(w: World, calls: seq<Call>, bucket: nat) returns (k: nat)
    requires exists m :: 0 <= m < |calls| && MissIn(w, calls, m, bucket)
    ensures k < |calls| && LastMiss(w, calls, k, bucket)
  {
    var n := |calls| - 1;
    if MissIn(w, calls, n, bucket) {
      k := n;
    } else {
      var prior := calls[..n];
      assert forall m :: 0 <= m < n ==> MissIn(w, calls, m, bucket) == MissIn(w, prior, m, bucket);
      k := SomeLastMiss(w, prior, bucket);
    }
  }

  lemma MissesEnd(w: World, calls: seq<Call>, k: nat, m: nat, bucket: nat)
    requires k < |calls| && m < |calls| && LastMiss(w, calls, k, bucket) && MissIn(w, calls, m, bucket)
    ensures m <= k
  {
  }

  /** The table changes the answer of call i exactly when its search would have found a regex and either an
      object of the same hash was the last miss of the bucket, or the bucket has had no miss and the hash is zero. */
  lemma WrongAnswerIff(w: World, calls: seq<Call>, i: nat)
    requires i < |calls|
    ensures Returns(w, calls, i) != w.finds(calls[i]) <==>
              && w.finds(calls[i])
              && var h := w.hash(calls[i].target);
                 || (exists k :: 0 <= k < i && LastMiss(w, calls[..i], k, Bucket(h)) && w.hash(calls[k].target) == h)
                 || (h == 0 && forall k :: 0 <= k < i ==> !MissIn(w, calls[..i], k, Bucket(h)))
  {
    var h := w.hash(calls[i].target);
    var prior := calls[..i];
    if exists m :: 0 <= m < |prior| && MissIn(w, prior, m, Bucket(h)) {
      var k := SomeLastMiss(w, prior, Bucket(h));
      BucketHoldsLastMiss(w, prior, Bucket(h), k);
      assert calls[k] == prior[k];
      forall m | 0 <= m < i && LastMiss(w, prior, m, Bucket(h))
        ensures m == k
      {
        MissesEnd(w, prior, k, m, Bucket(h));
        MissesEnd(w, prior, m, k, Bucket(h));
      }
    } else {
      BucketWithoutMiss(w, prior, Bucket(h));
    }
  }

  /** Any-mode calls on objects with distinct non-zero hashes are all answered as an uncached search would. */
  lemma AnyModeAnswersRight(w: World, calls: seq<Call>, i: nat)
    requires i < |calls|
    requires forall k :: 0 <= k <= i ==> !calls[k].lowest && w.hash(calls[k].target) != 0
    requires forall k :: 0 <= k < i && w.hash(calls[k].target) == w.hash(calls[i].target) ==> calls[k].target == calls[i].target
    ensures Returns(w, calls, i) == w.finds(calls[i])
  {
    WrongAnswerIff(w, calls, i);
    var h := w.hash(calls[i].target);
    if k: int :| 0 <= k < i && LastMiss(w, calls[..i], k, Bucket(h)) && w.hash(calls[k].target) == h {
      assert calls[..i][k] == calls[i];
    }
  }

  /** A call that finds nothing makes every later call on an object of the same hash return nothing, until another
      hash is missed in the bucket, whatever the modes of the calls and whatever came before: so a
      lowest-index call poisons the any-mode calls after it. */
  lemma LowestMissPoisons(w: World, calls: seq<Call>, i: nat, j: nat)
    requires i < j < |calls| && !w.finds(calls[i]) && w.hash(calls[j].target) == w.hash(calls[i].target)
    requires forall k :: i < k < j && MissIn(w, calls, k, Bucket(w.hash(calls[i].target))) ==>
               w.hash(calls[k].target) == w.hash(calls[i].target)
    ensures !Returns(w, calls, j)
  {
    var prior, bucket := calls[..j], Bucket(w.hash(calls[i].target));
    assert MissIn(w, prior, i, bucket);
    var k := SomeLastMiss(w, prior, bucket);
    MissesEnd(w, prior, k, i, bucket);
    assert MissIn(w, calls, k, bucket);
    BucketHoldsLastMiss(w, prior, bucket, k);
  }
}
