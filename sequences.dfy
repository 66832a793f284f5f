/**
 * Sequence operations behind the `java.util.List` calls the app makes:
 * order-preserving filtering, `indexOf`, `remove(Object)`, `subList(0, k)`
 * and the stable sort `List.sort` performs.
 */
module Sequences {

  /** The elements of `s` that satisfy `p`, in their original order (built from the back). */
  function Filter<T>(s: seq<T>, p: T -> bool): (r: seq<T>)
    ensures |r| <= |s|
    ensures forall i :: 0 <= i < |r| ==> p(r[i])
  {
    if s == [] then []
    else
      assert s == s[..|s| - 1] + [s[|s| - 1]];
      Filter(s[..|s| - 1], p) + (if p(s[|s| - 1]) then [s[|s| - 1]] else [])
  }

  /** Filtering never adds an element, nor a copy of one. */
  lemma {:induction false} FilterMultiset<T>(s: seq<T>, p: T -> bool)
    ensures multiset(Filter(s, p)) <= multiset(s)
  {
    if s != [] {
      var init := s[..|s| - 1];
      FilterMultiset(init, p);
      assert s == init + [s[|s| - 1]];
    }
  }

  /** Filtering distributes over concatenation, so relative order is kept. */
  lemma {:induction false} FilterAppend<T>(a: seq<T>, b: seq<T>, p: T -> bool)
    ensures Filter(a + b, p) == Filter(a, p) + Filter(b, p)
    decreases |b|
  {
    if b == [] {
      assert a + b == a;
    } else {
      var b' := b[..|b| - 1];
      assert (a + b)[..|a + b| - 1] == a + b';
      FilterAppend(a, b', p);
    }
  }

  /** Filtering keeps everything when every element passes. */
  lemma FilterAll<T>(s: seq<T>, p: T -> bool)
    requires forall i :: 0 <= i < |s| ==> p(s[i])
    ensures Filter(s, p) == s
  {
    FilterAllPrefix(s, p, |s|);
    assert s[..|s|] == s;
  }

  /** Every prefix of a sequence whose elements all pass is kept whole. */
  lemma {:induction false} FilterAllPrefix<T>(s: seq<T>, p: T -> bool, k: nat)
    requires k <= |s| && forall i :: 0 <= i < |s| ==> p(s[i])
    ensures Filter(s[..k], p) == s[..k]
  {
    if k > 0 {
      FilterAllPrefix(s, p, k - 1);
      FilterStep(s, k - 1, p);
      assert s[..k] == s[..k - 1] + [s[k - 1]];
    }
  }

  /** Filtering twice by the same test is filtering once. */
  lemma {:induction false} FilterIdempotent<T>(s: seq<T>, p: T -> bool)
    ensures Filter(Filter(s, p), p) == Filter(s, p)
  {
    FilterAll(Filter(s, p), p);
  }

  /** An element is kept exactly when it is in the sequence and passes the test. */
  lemma {:induction false} FilterMembers<T>(s: seq<T>, p: T -> bool)
    ensures forall x :: x in Filter(s, p) <==> x in s && p(x)
  {
    FilterMultiset(s, p);
    forall x | x in Filter(s, p) ensures x in s {
      assert x in multiset(Filter(s, p));
    }
    if s != [] {
      var init := s[..|s| - 1];
      FilterMembers(init, p);
      assert s == init + [s[|s| - 1]];
    }
  }

  /** One loop step: extending the prefix by one element extends the filtered prefix the same way. */
  lemma FilterStep<T>(s: seq<T>, i: nat, p: T -> bool)
    requires i < |s|
    ensures Filter(s[..i + 1], p) == Filter(s[..i], p) + (if p(s[i]) then [s[i]] else [])
  {
    assert s[..i + 1][..i] == s[..i];
  }

  /** `List.indexOf(x)`: the first index holding `x`, or -1. */
  function IndexOf<T(==)>(s: seq<T>, x: T): (k: int)
    ensures -1 <= k < |s|
    ensures k == -1 <==> x !in s
    ensures 0 <= k ==> s[k] == x && x !in s[..k]
  {
    if s == [] then -1
    else if s[0] == x then 0
    else
      var k := IndexOf(s[1..], x);
      assert s[1..] == s[1..][..] && (0 <= k ==> s[..k + 1] == [s[0]] + s[1..][..k]);
      if k < 0 then -1 else k + 1
  }

  /** A slice holds no more of any element than the whole. */
  lemma SliceMultiset<T>(s: seq<T>, i: nat, j: nat)
    requires i <= j <= |s|
    ensures multiset(s[i..j]) <= multiset(s)
  {
    assert s == s[..i] + s[i..j] + s[j..];
  }

  /** A slice of a sorted sequence is sorted. */
  lemma SliceSorted<T>(s: seq<T>, i: nat, j: nat, before: (T, T) -> bool)
    requires i <= j <= |s| && SortedBy(s, before)
    ensures SortedBy(s[i..j], before)
  {
    forall a, b | 0 <= a < b < j - i ensures before(s[i..j][a], s[i..j][b]) {
      assert s[i..j][a] == s[i + a] && s[i..j][b] == s[i + b];
    }
  }

  /** The index of the first element that passes `p`, or -1 when none does. */
  function FirstIndexWhere<T>(s: seq<T>, p: T -> bool): (k: int)
    ensures -1 <= k < |s|
    ensures k == -1 <==> forall i :: 0 <= i < |s| ==> !p(s[i])
    ensures 0 <= k ==> p(s[k]) && forall i :: 0 <= i < k ==> !p(s[i])
  {
    if s == [] then -1
    else if p(s[0]) then 0
    else
      var k := FirstIndexWhere(s[1..], p);
      assert forall i :: 1 <= i < |s| ==> s[i] == s[1..][i - 1];
      if k < 0 then -1 else k + 1
  }

  /** `List.remove(Object)`: drop the first occurrence of `x`, if any. */
  function RemoveFirst<T(==)>(s: seq<T>, x: T): (r: seq<T>)
    ensures x !in s ==> r == s
    ensures x in s ==> |r| == |s| - 1 && r == s[..IndexOf(s, x)] + s[IndexOf(s, x) + 1..]
  {
    var k := IndexOf(s, x);
    if k < 0 then s else s[..k] + s[k + 1..]
  }

  /** Removing an element keeps every other element with its multiplicity. */
  lemma RemoveFirstMultiset<T>(s: seq<T>, x: T)
    ensures multiset(RemoveFirst(s, x)) == multiset(s) - multiset{x}
  {
    var k := IndexOf(s, x);
    if k >= 0 {
      assert s == s[..k] + [x] + s[k + 1..];
    }
  }

  /** The elements after a removal, by index: those before the removed one, then those after it. */
  lemma RemoveFirstAt<T>(s: seq<T>, x: T, i: nat)
    requires x in s && i < |RemoveFirst(s, x)|
    ensures RemoveFirst(s, x)[i] == if i < IndexOf(s, x) then s[i] else s[i + 1]
  {
  }

  /** Removing from a duplicate-free list leaves it duplicate-free, with no copy of the removed value. */
  lemma RemoveFirstNoDuplicates<T>(s: seq<T>, x: T)
    requires NoDuplicates(s)
    ensures NoDuplicates(RemoveFirst(s, x))
    ensures x !in RemoveFirst(s, x)
  {
    var r := RemoveFirst(s, x);
    if x in s {
      var k := IndexOf(s, x);
      forall i | 0 <= i < |r| ensures r[i] != x {
        RemoveFirstAt(s, x, i);
      }
      forall i, j | 0 <= i < j < |r| ensures r[i] != r[j] {
        RemoveFirstAt(s, x, i);
        RemoveFirstAt(s, x, j);
      }
    }
  }

  /** `subList(0, min(n, size))`: the first `n` elements, or all of them. */
  function Take<T>(s: seq<T>, n: nat): (r: seq<T>)
    ensures |r| == if n < |s| then n else |s|
    ensures r <= s
  {
    if n < |s| then s[..n] else s
  }

  predicate NoDuplicates<T(==)>(s: seq<T>)
  {
    forall i, j :: 0 <= i < j < |s| ==> s[i] != s[j]
  }

  // ---------------------------------------------------------------- sorting

  /**
   * `s` is ordered by `before`: every element goes before every later one.
   * For a comparator `c`, `before(x, y)` stands for `c.compare(x, y) <= 0`.
   */
  ghost predicate SortedBy<T>(s: seq<T>, before: (T, T) -> bool)
  {
    forall i, j :: 0 <= i < j < |s| ==> before(s[i], s[j])
  }

  /** `before` is total and transitive on the elements of `s`, like a consistent comparator. */
  ghost predicate TotalPreorderOn<T(!new)>(s: seq<T>, before: (T, T) -> bool)
  {
    (forall x, y :: x in s && y in s ==> before(x, y) || before(y, x))
    && (forall x, y, z :: x in s && y in s && z in s && before(x, y) && before(y, z) ==> before(x, z))
  }

  /** Insert `x` in front of the first element it goes before (after all elements it does not). */
  function Insert<T>(x: T, s: seq<T>, before: (T, T) -> bool): (r: seq<T>)
    ensures |r| == |s| + 1
    ensures multiset(r) == multiset(s) + multiset{x}
  {
    if s == [] || before(x, s[0]) then [x] + s
    else
      assert s == [s[0]] + s[1..];
      [s[0]] + Insert(x, s[1..], before)
  }

  /**
   * The stable sort of `List.sort`: an insertion sort where an element stays
   * ahead of every later element it goes before.
   */
  function SortBy<T>(s: seq<T>, before: (T, T) -> bool): (r: seq<T>)
    ensures |r| == |s|
    ensures multiset(r) == multiset(s)
  {
    if s == [] then []
    else
      assert s == [s[0]] + s[1..];
      Insert(s[0], SortBy(s[1..], before), before)
  }

  lemma {:induction false} InsertSorted<T(!new)>(x: T, s: seq<T>, before: (T, T) -> bool)
    requires SortedBy(s, before)
    requires TotalPreorderOn([x] + s, before)
    ensures SortedBy(Insert(x, s, before), before)
    decreases |s|
  {
    var r := Insert(x, s, before);
    if s == [] {
    } else if before(x, s[0]) {
      assert r == [x] + s;
      forall i, j | 0 <= i < j < |r| ensures before(r[i], r[j]) {
        if i == 0 && j > 1 {
          assert s[0] in [x] + s && s[j - 1] in [x] + s;
        }
      }
    } else {
      var t := s[1..];
      forall y | y in [x] + t ensures y in [x] + s {
        if y != x { assert y in s; }
      }
      InsertSorted(x, t, before);
      var rest := Insert(x, t, before);
      assert r == [s[0]] + rest;
      assert s[0] in [x] + s;
      assert before(s[0], x);
      forall k | 0 <= k < |rest| ensures before(s[0], rest[k]) {
        assert rest[k] in multiset(rest);
        assert rest[k] == x || rest[k] in t;
        if rest[k] != x {
          var m :| 0 <= m < |t| && t[m] == rest[k];
          assert s[m + 1] == rest[k];
        }
      }
    }
  }

  /** With a consistent comparator, the sort orders its result. */
  lemma {:induction false} SortBySorted<T(!new)>(s: seq<T>, before: (T, T) -> bool)
    requires TotalPreorderOn(s, before)
    ensures SortedBy(SortBy(s, before), before)
  {
    if s != [] {
      var t := s[1..];
      forall y | y in t ensures y in s { }
      SortBySorted(t, before);
      var st := SortBy(t, before);
      forall y | y in [s[0]] + st ensures y in s {
        if y != s[0] {
          assert y in multiset(st);
        }
      }
      InsertSorted(s[0], st, before);
    }
  }
}
