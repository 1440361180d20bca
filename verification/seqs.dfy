/**
  Generic facts about sequences used by the classifier and the lexicon
  builder: occurrence counts, the position of the first occurrence of a
  value, and a declarative description of "remove duplicates, keeping the
  first occurrence of each value in its original order".
 */
module Seqs {

  /** Number of occurrences of `x` in `s`. */
  function Count<T(==)>(s: seq<T>, x: T): (n: nat)
    ensures n <= |s|
    ensures n > 0 <==> x in s
  {
    if |s| == 0 then 0
    else
      assert s == s[..|s| - 1] + [s[|s| - 1]];
      Count(s[..|s| - 1], x) + (if s[|s| - 1] == x then 1 else 0)
  }

  /** Appending one value adds one occurrence of that value and none of any other. */
  lemma CountAppend<T>(s: seq<T>, y: T, x: T)
    ensures Count(s + [y], x) == Count(s, x) + (if y == x then 1 else 0)
  {
    assert (s + [y])[..|s|] == s;
  }

  /** A sequence has no duplicates exactly when its tail has none and does not hold its head. */
  lemma NoDupCons<T>(x: T, s: seq<T>)
    ensures NoDup([x] + s) <==> NoDup(s) && x !in s
  {
    var c := [x] + s;
    assert c[1..] == s;
    if NoDup(c) {
      forall j | 0 <= j < |s|
        ensures s[j] != x
      {
        assert c[0] != c[j + 1];
      }
    }
  }

  /** Occurrences in a concatenation add up. */
  lemma {:induction false} CountConcat<T>(a: seq<T>, b: seq<T>, x: T)
    ensures Count(a + b, x) == Count(a, x) + Count(b, x)
  {
    if |b| == 0 {
      assert a + b == a;
    } else {
      var b' := b[..|b| - 1];
      assert (a + b)[..|a + b| - 1] == a + b';
      CountConcat(a, b', x);
    }
  }

  /** True iff no value occurs twice in `s`. */
  predicate NoDup<T(==)>(s: seq<T>)
  {
    forall i, j :: 0 <= i < j < |s| ==> s[i] != s[j]
  }

  /** Position of the first occurrence of `x` in `s`, or `|s|` when `x` does not occur. */
  function FirstIndex<T(==)>(s: seq<T>, x: T): (i: nat)
    ensures i <= |s|
    ensures i < |s| <==> x in s
    ensures i < |s| ==> s[i] == x
    ensures x !in s[..i]
  {
    if |s| == 0 then 0
    else if s[0] == x then 0
    else
      var i := FirstIndex(s[1..], x);
      assert s[..1 + i] == [s[0]] + s[1..][..i];
      1 + i
  }

  /** A position holding `x` with no earlier `x` is the first index of `x`. */
  lemma FirstIndexAt<T>(s: seq<T>, x: T, i: nat)
    requires i < |s| && s[i] == x && x !in s[..i]
    ensures FirstIndex(s, x) == i
  {
  }

  /** In a sequence without duplicates, each element's first index is its position. */
  lemma FirstIndexOfNoDup<T>(s: seq<T>, i: nat)
    requires NoDup(s) && i < |s|
    ensures FirstIndex(s, s[i]) == i
  {
    FirstIndexAt(s, s[i], i);
  }

  /** Appending to `s` does not move the first occurrence of a value already in `s`. */
  lemma FirstIndexAppend<T>(s: seq<T>, z: T, y: T)
    requires y in s
    ensures FirstIndex(s + [z], y) == FirstIndex(s, y)
  {
    var k := FirstIndex(s, y);
    assert (s + [z])[..k] == s[..k];
    FirstIndexAt(s + [z], y, k);
  }

  /** The elements of `r` appear in the order of their first occurrences in `s`. */
  predicate InFirstSeenOrder<T(==)>(r: seq<T>, s: seq<T>)
  {
    forall i, j :: 0 <= i < j < |r| ==> FirstIndex(s, r[i]) < FirstIndex(s, r[j])
  }

  /**
    `r` is `s` with duplicates removed, keeping first occurrences in order:
    no duplicates, the same elements as `s`, and ordered by first occurrence.
   */
  predicate IsFirstSeenDedup<T(==)>(r: seq<T>, s: seq<T>)
  {
    && NoDup(r)
    && (forall i :: 0 <= i < |r| ==> r[i] in s)
    && (forall i :: 0 <= i < |s| ==> s[i] in r)
    && InFirstSeenOrder(r, s)
  }

  /** Positions of values already in `s` are the same in `s + [x]`. */
  lemma FirstIndexesAppend<T>(s: seq<T>, x: T)
    ensures forall y :: y in s ==> FirstIndex(s + [x], y) == FirstIndex(s, y)
  {
    forall y | y in s
      ensures FirstIndex(s + [x], y) == FirstIndex(s, y)
    {
      FirstIndexAppend(s, x, y);
    }
  }

  /**
    One step of "append the value unless it is already present" extends a
    first-seen deduplication of `s` to one of `s + [x]`.
   */
  lemma FirstSeenDedupStep<T>(r: seq<T>, s: seq<T>, x: T)
    requires IsFirstSeenDedup(r, s)
    ensures IsFirstSeenDedup(if x in r then r else r + [x], s + [x])
  {
    if x in r {
      FirstSeenDedupKeep(r, s, x);
    } else {
      FirstSeenDedupAdd(r, s, x);
    }
  }

  lemma FirstSeenDedupKeep<T>(r: seq<T>, s: seq<T>, x: T)
    requires IsFirstSeenDedup(r, s) && x in r
    ensures IsFirstSeenDedup(r, s + [x])
  {
    FirstIndexesAppend(s, x);
    forall i, j | 0 <= i < j < |r|
      ensures FirstIndex(s + [x], r[i]) < FirstIndex(s + [x], r[j])
    {
      assert r[i] in s && r[j] in s;
    }
  }

  lemma FirstSeenDedupAdd<T>(r: seq<T>, s: seq<T>, x: T)
    requires IsFirstSeenDedup(r, s) && x !in r
    ensures IsFirstSeenDedup(r + [x], s + [x])
  {
    assert x !in s;
    AppendNoDup(r, x);
    AppendInFirstSeenOrder(r, s, x);
    assert forall i :: 0 <= i < |r| ==> (r + [x])[i] == r[i];
    assert forall i :: 0 <= i < |s| ==> (s + [x])[i] == s[i];
  }

  /** Appending a new value to both sides keeps the first-seen order. */
  lemma AppendInFirstSeenOrder<T>(r: seq<T>, s: seq<T>, x: T)
    requires InFirstSeenOrder(r, s) && x !in s
    requires forall i :: 0 <= i < |r| ==> r[i] in s
    ensures InFirstSeenOrder(r + [x], s + [x])
  {
    var r', s' := r + [x], s + [x];
    FirstIndexesAppend(s, x);
    FirstIndexAt(s', x, |s|);
    forall i, j | 0 <= i < j < |r'|
      ensures FirstIndex(s', r'[i]) < FirstIndex(s', r'[j])
    {
      assert r'[i] == r[i] && r[i] in s;
      if j < |r| {
        assert r'[j] == r[j] && r[j] in s;
      }
    }
  }

  lemma AppendNoDup<T>(r: seq<T>, x: T)
    requires NoDup(r) && x !in r
    ensures NoDup(r + [x])
  {
  }

  /** In a sequence without duplicates, the value at `k` does not occur before `k`. */
  lemma NoDupNotInPrefix<T>(r: seq<T>, k: nat)
    requires NoDup(r) && k < |r|
    ensures r[k] !in r[..k]
  {
    assert forall j :: 0 <= j < k ==> r[..k][j] == r[j];
  }

  /** A value that does not occur in the first `k` elements first occurs at `k` or later. */
  lemma FirstIndexAfterPrefix<T>(s: seq<T>, x: T, k: nat)
    requires k <= |s| && x !in s[..k]
    ensures FirstIndex(s, x) >= k
  {
    assert forall j :: 0 <= j < k ==> s[j] == s[..k][j];
  }

  /** Two first-seen deduplications of the same sequence that agree before index `k` agree at `k`. */
  lemma FirstSeenDedupAgreeAt<T>(r1: seq<T>, r2: seq<T>, s: seq<T>, k: nat)
    requires IsFirstSeenDedup(r1, s) && IsFirstSeenDedup(r2, s)
    requires k < |r1| && k < |r2|
    requires r1[..k] == r2[..k]
    ensures r1[k] == r2[k]
  {
    var a, b := r1[k], r2[k];
    assert a in s && b in s;
    NoDupNotInPrefix(r1, k);
    NoDupNotInPrefix(r2, k);
    FirstIndexAfterPrefix(r2, a, k);
    FirstIndexAfterPrefix(r1, b, k);
    var m, m' := FirstIndex(r2, a), FirstIndex(r1, b);
    assert m < |r2| && r2[m] == a;
    assert m' < |r1| && r1[m'] == b;
  }

  /** The values of a duplicate-free sequence are as many as its length. */
  lemma {:induction false} NoDupCardinality<T>(s: seq<T>)
    requires NoDup(s)
    ensures |(set x | x in s)| == |s|
  {
    if |s| > 0 {
      var s' := s[..|s| - 1];
      NoDupCardinality(s');
      assert (set x | x in s) == (set x | x in s') + {s[|s| - 1]};
      assert s[|s| - 1] !in s';
    }
  }

  /** Two first-seen deduplications of the same sequence have the same length. */
  lemma FirstSeenDedupLength<T>(r1: seq<T>, r2: seq<T>, s: seq<T>)
    requires IsFirstSeenDedup(r1, s) && IsFirstSeenDedup(r2, s)
    ensures |r1| == |r2|
  {
    assert (set x | x in r1) == (set x | x in r2);
    NoDupCardinality(r1);
    NoDupCardinality(r2);
  }

  /** The first-seen deduplication of a sequence is unique. */
  lemma {:induction false} FirstSeenDedupUnique<T>(r1: seq<T>, r2: seq<T>, s: seq<T>)
    requires IsFirstSeenDedup(r1, s) && IsFirstSeenDedup(r2, s)
    ensures r1 == r2
  {
    FirstSeenDedupLength(r1, r2, s);
    var k := 0;
    while k < |r1|
      invariant 0 <= k <= |r1|
      invariant r1[..k] == r2[..k]
    {
      FirstSeenDedupAgreeAt(r1, r2, s, k);
      assert r1[..k + 1] == r1[..k] + [r1[k]];
      assert r2[..k + 1] == r2[..k] + [r2[k]];
      k := k + 1;
    }
    assert r1 == r1[..k] && r2 == r2[..k];
  }
}
