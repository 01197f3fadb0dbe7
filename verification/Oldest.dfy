/** Bounded reads in age order: ORDER BY an instant, LIMIT n, ties broken in any way. */
module Oldest {
  import opened Common

  predicate Distinct<K(==)>(s: seq<K>) {
    forall i, j :: 0 <= i < j < |s| ==> s[i] != s[j]
  }

  function Elements<K>(s: seq<K>): set<K> { set k | k in s }

  /** A legal answer: the right number of due rows, oldest first, none older left out. */
  ghost predicate OldestFirst<K(!new)>(batch: seq<K>, due: set<K>, age: map<K, int>, limit: nat)
    requires due <= age.Keys
  {
    && |batch| == Min(limit, |due|)
    && Distinct(batch)
    && (forall k :: k in batch ==> k in due)
    && (forall i, j :: 0 <= i < j < |batch| ==> batch[i] in due && batch[j] in due && age[batch[i]] <= age[batch[j]])
    && (forall b, k :: b in batch && k in due && k !in batch ==> age[b] <= age[k])
  }

  lemma {:induction false} SomeOldest<K>(due: set<K>, age: map<K, int>) returns (k: K)
    requires due != {} && due <= age.Keys
    ensures k in due && forall other :: other in due ==> age[k] <= age[other]
  {
    k :| k in due;
    var rest := due - {k};
    assert forall x :: x in due ==> x == k || x in rest;
    if rest != {} {
      var other := SomeOldest(rest, age);
      if age[other] < age[k] { k := other; }
    }
  }

  lemma {:induction false} DistinctSize<K>(s: seq<K>)
    requires Distinct(s)
    ensures |Elements(s)| == |s|
  {
    if s != [] {
      var rest := s[..|s| - 1];
      DistinctSize(rest);
      assert s == rest + [s[|s| - 1]];
      assert Elements(s) == Elements(rest) + {s[|s| - 1]};
    }
  }

  /** The oldest row followed by a legal answer over the others. */
  lemma OldestThenRest<K(!new)>(k: K, others: seq<K>, due: set<K>, age: map<K, int>, limit: nat)
    requires due <= age.Keys && k in due && limit > 0 && forall other :: other in due ==> age[k] <= age[other]
    requires OldestFirst(others, due - {k}, age, limit - 1)
    ensures OldestFirst([k] + others, due, age, limit)
  {
    var batch := [k] + others;
    assert forall x :: x in others ==> x in due - {k} && x in due && x != k;
    assert forall x :: x in due && x !in batch ==> x in due - {k} && x !in others;
  }

  /** There is always a legal answer. */
  lemma {:induction false} SomeBatch<K(!new)>(due: set<K>, age: map<K, int>, limit: nat) returns (batch: seq<K>)
    requires due <= age.Keys
    ensures OldestFirst(batch, due, age, limit)
    decreases limit
  {
    batch := [];
    if limit > 0 && due != {} {
      var k := SomeOldest(due, age);
      var others := SomeBatch(due - {k}, age, limit - 1);
      OldestThenRest(k, others, due, age, limit);
      batch := [k] + others;
    }
  }

  /** Takes the oldest due rows up to the limit; which of two equally old rows goes first is not fixed. */
  method SelectOldest<K(==,!new)>(due: set<K>, age: map<K, int>, limit: nat) returns (batch: seq<K>)
    requires due <= age.Keys
    ensures OldestFirst(batch, due, age, limit)
  {
    batch := [];
    var left := due;
    while left != {} && |batch| < limit
      invariant left <= due && |batch| <= limit && |batch| + |left| == |due|
      invariant Distinct(batch)
      invariant forall k :: k in batch ==> k in due && k !in left
      invariant forall k :: k in due ==> k in batch || k in left
      invariant forall i, j :: 0 <= i < j < |batch| ==> age[batch[i]] <= age[batch[j]]
      invariant forall b, k :: b in batch && k in left ==> age[b] <= age[k]
    {
      ghost var first := SomeOldest(left, age);
      assert first in left && forall other :: other in left ==> age[first] <= age[other];
      var k :| k in left && forall other :: other in left ==> age[k] <= age[other];
      batch := batch + [k];
      left := left - {k};
    }
  }

  lemma OldestMembers<K(!new)>(batch: seq<K>, due: set<K>, age: map<K, int>, limit: nat)
    requires due <= age.Keys && OldestFirst(batch, due, age, limit)
    ensures |batch| == Min(limit, |due|) && Distinct(batch) && forall k :: k in batch ==> k in due
  {}

  /** A due row is left out only by a full batch. */
  lemma OnlyFullLeavesOut<K(!new)>(batch: seq<K>, due: set<K>, age: map<K, int>, limit: nat)
    requires due <= age.Keys && OldestFirst(batch, due, age, limit)
    ensures forall k :: k in due && k !in batch ==> |batch| == limit
  {
    if |due| <= limit { WholeSet(batch, due, age); }
    assert forall k :: k in due && k !in batch ==> k !in Elements(batch);
  }

  lemma DistinctJoin<K>(a: seq<K>, b: seq<K>)
    requires Distinct(a) && Distinct(b) && forall k :: k in b ==> k !in a
    ensures Distinct(a + b)
  {
    forall i, j | 0 <= i < j < |a + b| ensures (a + b)[i] != (a + b)[j] {
      if i < |a| <= j { assert (a + b)[j] in b; }
    }
  }

  /** Reading one row further than needed and cutting it off leaves the oldest rows. */
  lemma PrefixIsOldest<K(!new)>(rows: seq<K>, due: set<K>, age: map<K, int>, limit: nat)
    requires due <= age.Keys && OldestFirst(rows, due, age, limit + 1)
    ensures OldestFirst(rows[..Min(limit, |rows|)], due, age, limit)
    ensures |rows| > limit <==> |due| > limit
  {
    var batch := rows[..Min(limit, |rows|)];
    forall b, k | b in batch && k in due && k !in batch ensures age[b] <= age[k] {
      if k in rows {
        var i :| 0 <= i < |batch| && batch[i] == b;
        var j :| 0 <= j < |rows| && rows[j] == k;
        assert rows[i] == b && i < j;
      }
    }
  }

  /** Reads one row more than the limit to learn whether any are left, and keeps the first `limit`. */
  method ReadBatch<K(==,!new)>(due: set<K>, age: map<K, int>, limit: nat) returns (batch: seq<K>, more: bool)
    requires due <= age.Keys
    ensures OldestFirst(batch, due, age, limit)
    ensures more <==> |due| > limit
  {
    var rows := SelectOldest(due, age, limit + 1);
    PrefixIsOldest(rows, due, age, limit);
    more := |rows| > limit;
    batch := rows[..Min(limit, |rows|)];
  }

  /** Taking the oldest rows batch after batch takes them oldest first over all. */
  lemma OldestJoin<K(!new)>(a: seq<K>, b: seq<K>, due: set<K>, age: map<K, int>, limit: nat)
    requires due <= age.Keys && OldestFirst(a, due, age, |a|) && OldestFirst(b, due - Elements(a), age, limit)
    ensures OldestFirst(a + b, due, age, |a| + |b|)
    ensures |due - Elements(a + b)| == |due| - |a| - |b|
  {
    DistinctSize(a);
    assert Elements(a) <= due;
    assert forall k :: k in b ==> k in due - Elements(a) && k in due && k !in a;
    DistinctJoin(a, b);
    DistinctSize(a + b);
    assert Elements(a + b) <= due;
    assert forall k :: k in due && k !in a ==> k in due - Elements(a);
  }

  /** A batch as large as the due set is the whole due set. */
  lemma WholeSet<K(!new)>(batch: seq<K>, due: set<K>, age: map<K, int>)
    requires due <= age.Keys && OldestFirst(batch, due, age, |batch|) && |batch| == |due|
    ensures Elements(batch) == due
  {
    DistinctSize(batch);
    assert Elements(batch) <= due;
    if exists k :: k in due && k !in Elements(batch) {
      var k :| k in due && k !in Elements(batch);
      SmallerWithout(Elements(batch), due, k);
    }
  }

  lemma SmallerWithout<T>(small: set<T>, large: set<T>, x: T)
    requires small <= large && x in large && x !in small
    ensures |small| < |large|
  {
    SizeMonotone(small, large - {x});
  }

  lemma {:induction false} SizeMonotone<T>(small: set<T>, large: set<T>)
    requires small <= large
    ensures |small| <= |large|
  {
    if small != {} {
      var x :| x in small;
      SizeMonotone(small - {x}, large - {x});
    }
  }
}
