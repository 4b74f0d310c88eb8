/**
 * Sequence operations shared by the pages: JavaScript's `Array.prototype.filter`
 * (by value and by index), the "includes ? remove : append" toggle that several
 * pages use on string lists, and the order-preserving subsequence relation that
 * every filter result stands in to its source list.
 */
module Seqs {

  /** `a` can be obtained from `b` by deleting elements, keeping the rest in order. */
  predicate IsSubsequence<T(==)>(a: seq<T>, b: seq<T>)
    decreases |b|
  {
    if |a| == 0 then true
    else if |b| == 0 then false
    else if a[0] == b[0] then IsSubsequence(a[1..], b[1..])
    else IsSubsequence(a, b[1..])
  }

  /** No element occurs twice. */
  predicate NoDuplicates<T(==)>(s: seq<T>) {
    forall i, j :: 0 <= i < j < |s| ==> s[i] != s[j]
  }

  /** Appending a value the sequence does not hold keeps it free of duplicates. */
  lemma AppendAbsentNoDuplicates<T>(s: seq<T>, x: T)
    requires NoDuplicates(s) && x !in s
    ensures NoDuplicates(s + [x])
  {
    var r := s + [x];
    forall i, j | 0 <= i < j < |r|
      ensures r[i] != r[j]
    {
      assert r[i] == s[i];
      if j < |s| {
        assert r[j] == s[j];
      }
    }
  }

  /** `s.filter(p)`: the elements of `s` that satisfy `p`, in their original order. */
  function Filter<T(==,!new)>(s: seq<T>, p: T -> bool): (r: seq<T>)
    ensures |r| <= |s|
    decreases |s|
  {
    if |s| == 0 then []
    else if p(s[0]) then [s[0]] + Filter(s[1..], p)
    else Filter(s[1..], p)
  }

  /** The filter keeps exactly the elements of the list that pass the test. */
  lemma {:induction false} FilterMembers<T(!new)>(s: seq<T>, p: T -> bool)
    ensures forall x :: x in Filter(s, p) <==> x in s && p(x)
    decreases |s|
  {
    if |s| > 0 {
      FilterMembers(s[1..], p);
      assert s == [s[0]] + s[1..];
    }
  }

  /** Each value the test keeps occurs in the result as often as in the input; a rejected one not at all. */
  lemma {:induction false} FilterMultiset<T(!new)>(s: seq<T>, p: T -> bool)
    ensures forall x :: multiset(Filter(s, p))[x] == if p(x) then multiset(s)[x] else 0
    decreases |s|
  {
    if |s| > 0 {
      FilterMultiset(s[1..], p);
      var rest := Filter(s[1..], p);
      assert s == [s[0]] + s[1..];
      assert multiset(s) == multiset{s[0]} + multiset(s[1..]);
      if p(s[0]) {
        assert multiset([s[0]] + rest) == multiset{s[0]} + multiset(rest);
      }
    }
  }

  lemma {:induction false} SubsequenceOfEmpty<T>(b: seq<T>)
    ensures IsSubsequence([], b)
  {
  }

  /** Skipping one more element of `b` keeps `a` a subsequence. */
  lemma {:induction false} SubsequenceOfTail<T>(a: seq<T>, b: seq<T>)
    requires |b| > 0
    requires IsSubsequence(a, b[1..])
    ensures IsSubsequence(a, b)
    decreases |b|, |a|
  {
    if |a| == 0 {
    } else if a[0] == b[0] {
      // b[0] matches a[0], so what remains of a must fit in b[1..]
      SubsequenceTailOfBoth(a, b[1..]);
    }
  }

  /** If `a` is a subsequence of `b`, so is `a` without its first element. */
  lemma {:induction false} SubsequenceTailOfBoth<T>(a: seq<T>, b: seq<T>)
    requires |a| > 0
    requires IsSubsequence(a, b)
    ensures IsSubsequence(a[1..], b)
    decreases |b|, |a|
  {
    assert |b| > 0;
    if a[0] == b[0] {
      SubsequenceOfTail(a[1..], b);
    } else {
      SubsequenceTailOfBoth(a, b[1..]);
      SubsequenceOfTail(a[1..], b);
    }
  }

  /** Every sequence is a subsequence of itself. */
  lemma {:induction false} SubsequenceReflexive<T>(s: seq<T>)
    ensures IsSubsequence(s, s)
    decreases |s|
  {
    if |s| > 0 {
      SubsequenceReflexive(s[1..]);
    }
  }

  /** A filter keeps the survivors in the order they had: its result is a subsequence. */
  lemma {:induction false} FilterIsSubsequence<T(!new)>(s: seq<T>, p: T -> bool)
    ensures IsSubsequence(Filter(s, p), s)
    decreases |s|
  {
    if |s| > 0 {
      FilterIsSubsequence(s[1..], p);
      var rest := Filter(s[1..], p);
      if p(s[0]) {
        assert Filter(s, p) == [s[0]] + rest;
        assert ([s[0]] + rest)[1..] == rest;
      } else {
        SubsequenceOfTail(rest, s);
      }
    }
  }

  /** When every element passes, a filter returns its input unchanged. */
  lemma {:induction false} FilterAllPass<T(!new)>(s: seq<T>, p: T -> bool)
    requires forall i :: 0 <= i < |s| ==> p(s[i])
    ensures Filter(s, p) == s
    decreases |s|
  {
    if |s| > 0 {
      FilterAllPass(s[1..], p);
      assert [s[0]] + s[1..] == s;
    }
  }

  /** Filters with tests that agree on every element of the list return the same list. */
  lemma {:induction false} FilterCongruent<T(!new)>(s: seq<T>, p: T -> bool, q: T -> bool)
    requires forall i :: 0 <= i < |s| ==> p(s[i]) == q(s[i])
    ensures Filter(s, p) == Filter(s, q)
    decreases |s|
  {
    if |s| > 0 {
      FilterCongruent(s[1..], p, q);
    }
  }

  /** `s.map(f)`. */
  function Map<T, U>(s: seq<T>, f: T -> U): (r: seq<U>)
    ensures |r| == |s| && forall k :: 0 <= k < |s| ==> r[k] == f(s[k])
    decreases |s|
  {
    if |s| == 0 then [] else [f(s[0])] + Map(s[1..], f)
  }

  /** Filtering a concatenation filters each part. */
  lemma {:induction false} FilterAppend<T(!new)>(a: seq<T>, b: seq<T>, p: T -> bool)
    ensures Filter(a + b, p) == Filter(a, p) + Filter(b, p)
    decreases |a|
  {
    if |a| == 0 {
      assert a + b == b;
    } else {
      var tail := a[1..];
      FilterAppend(tail, b, p);
      assert (a + b)[0] == a[0] && (a + b)[1..] == tail + b;
      var ft, fb := Filter(tail, p), Filter(b, p);
      if p(a[0]) {
        assert [a[0]] + (ft + fb) == [a[0]] + ft + fb;
      }
    }
  }

  /** Filtering a list with a known first element. */
  lemma FilterCons<T(!new)>(x: T, s: seq<T>, p: T -> bool)
    ensures Filter([x] + s, p) == if p(x) then [x] + Filter(s, p) else Filter(s, p)
  {
    assert ([x] + s)[1..] == s;
  }

  /** Mapping with a function the test cannot see commutes with filtering. */
  lemma {:induction false} FilterMapCommute<T(!new)>(s: seq<T>, f: T -> T, p: T -> bool)
    requires forall x :: p(f(x)) == p(x)
    ensures Filter(Map(s, f), p) == Map(Filter(s, p), f)
    decreases |s|
  {
    if |s| > 0 {
      var tail := Map(s[1..], f);
      var rest := Filter(s[1..], p);
      FilterMapCommute(s[1..], f, p);
      FilterCons(f(s[0]), tail, p);
      if p(s[0]) {
        assert ([s[0]] + rest)[1..] == rest;
      }
    }
  }

  /** A filter of a duplicate-free list is duplicate-free. */
  lemma {:induction false} FilterNoDuplicates<T(!new)>(s: seq<T>, p: T -> bool)
    requires NoDuplicates(s)
    ensures NoDuplicates(Filter(s, p))
    decreases |s|
  {
    if |s| > 0 {
      assert NoDuplicates(s[1..]) by {
        forall i, j | 0 <= i < j < |s[1..]|
          ensures s[1..][i] != s[1..][j]
        {
          assert s[1..][i] == s[i + 1] && s[1..][j] == s[j + 1];
        }
      }
      FilterNoDuplicates(s[1..], p);
      FilterMembers(s[1..], p);
      var rest := Filter(s[1..], p);
      if p(s[0]) {
        assert s[0] !in s[1..] by {
          forall k | 0 <= k < |s[1..]|
            ensures s[1..][k] != s[0]
          {
            assert s[1..][k] == s[k + 1];
          }
        }
        assert s[0] !in rest;
        var r := [s[0]] + rest;
        forall i, j | 0 <= i < j < |r|
          ensures r[i] != r[j]
        {
          if i == 0 {
            assert r[j] == rest[j - 1];
            assert r[j] in rest;
          } else {
            assert r[i] == rest[i - 1] && r[j] == rest[j - 1];
          }
        }
      }
    }
  }

  /**
   * The list-membership toggle: a present `x` is removed (every copy of it),
   * an absent one is appended at the end.
   */
  function Toggle<T(==,!new)>(s: seq<T>, x: T): (r: seq<T>)
    ensures x in r <==> x !in s
    ensures forall y :: y != x ==> (y in r <==> y in s)
    ensures x !in s ==> |r| == |s| + 1 && r[..|s|] == s && r[|s|] == x
    ensures x in s ==> IsSubsequence(r, s) && |r| < |s|
    ensures x in s ==> multiset(r) == multiset(s)[x := 0]
  {
    if x in s then
      var r := Filter(s, y => y != x);
      FilterMembers(s, y => y != x);
      FilterMultiset(s, y => y != x);
      assert multiset(r) == multiset(s)[x := 0];
      FilterIsSubsequence(s, y => y != x);
      FilterShorterWhenRejecting(s, y => y != x, x);
      r
    else
      assert (s + [x])[..|s|] == s;
      s + [x]
  }

  /** A filter that rejects some element of its input returns a strictly shorter list. */
  lemma {:induction false} FilterShorterWhenRejecting<T(!new)>(s: seq<T>, p: T -> bool, x: T)
    requires x in s && !p(x)
    ensures |Filter(s, p)| < |s|
    decreases |s|
  {
    if s[0] != x {
      FilterShorterWhenRejecting(s[1..], p, x);
    }
  }

  /** Toggling the same value twice restores whether it is present. */
  lemma ToggleTwiceMembership<T(!new)>(s: seq<T>, x: T, y: T)
    ensures y in Toggle(Toggle(s, x), x) <==> y in s
  {
  }

  /** Toggling an absent value twice restores the list exactly. */
  lemma {:induction false} ToggleTwiceAbsentRestores<T(!new)>(s: seq<T>, x: T)
    requires x !in s
    ensures Toggle(Toggle(s, x), x) == s
  {
    var t := Toggle(s, x);
    assert t == s + [x];
    FilterAllPass(s, y => y != x);
    FilterAppendRejected(s, y => y != x, x);
  }

  /** Filtering `s + [x]` with a test `x` fails is filtering `s`. */
  lemma {:induction false} FilterAppendRejected<T(!new)>(s: seq<T>, p: T -> bool, x: T)
    requires !p(x)
    ensures Filter(s + [x], p) == Filter(s, p)
    decreases |s|
  {
    if |s| == 0 {
      assert Filter([x], p) == Filter([x][1..], p);
    } else {
      assert (s + [x])[1..] == s[1..] + [x];
      FilterAppendRejected(s[1..], p, x);
    }
  }

  /** Toggling never introduces a duplicate. */
  lemma {:induction false} ToggleNoDuplicates<T(!new)>(s: seq<T>, x: T)
    requires NoDuplicates(s)
    ensures NoDuplicates(Toggle(s, x))
  {
    if x in s {
      FilterNoDuplicates(s, y => y != x);
    } else {
      var r := s + [x];
      forall i, j | 0 <= i < j < |r|
        ensures r[i] != r[j]
      {
        if j == |s| {
          assert r[i] == s[i];
        } else {
          assert r[i] == s[i] && r[j] == s[j];
        }
      }
    }
  }

  /**
   * `s.filter((_, k) => k !== i)` on the part of a list whose first element
   * has index `offset`: the literal index filter.
   */
  function FilterIndex<T>(s: seq<T>, i: int, offset: int): seq<T>
    decreases |s|
  {
    if |s| == 0 then []
    else (if offset == i then [] else [s[0]]) + FilterIndex(s[1..], i, offset + 1)
  }

  /** The list without position `i`; out-of-range positions leave it as it is. */
  function RemoveAt<T>(s: seq<T>, i: int): (r: seq<T>)
    ensures 0 <= i < |s| ==> |r| == |s| - 1
    ensures 0 <= i < |s| ==> forall k :: 0 <= k < i ==> r[k] == s[k]
    ensures 0 <= i < |s| ==> forall k :: i <= k < |r| ==> r[k] == s[k + 1]
    ensures !(0 <= i < |s|) ==> r == s
  {
    if 0 <= i < |s| then s[..i] + s[i + 1..] else s
  }

  /** Removing a later position keeps the head and removes from the tail. */
  lemma RemoveAtCons<T>(s: seq<T>, k: int)
    requires 0 < k < |s|
    ensures RemoveAt(s, k) == [s[0]] + RemoveAt(s[1..], k - 1)
  {
    var tail := s[1..];
    assert s[..k] == [s[0]] + tail[..k - 1];
    assert s[k + 1..] == tail[k..];
  }

  /** A filter whose test fails at position `k` alone removes exactly that position. */
  lemma FilterRejectingOnlyAt<T(!new)>(s: seq<T>, k: nat, p: T -> bool)
    requires k < |s|
    requires !p(s[k]) && forall i :: 0 <= i < |s| && i != k ==> p(s[i])
    ensures Filter(s, p) == RemoveAt(s, k)
  {
    var before, rest, after := s[..k], s[k..], s[k + 1..];
    assert Filter(before, p) == before by {
      forall i | 0 <= i < |before|
        ensures p(before[i])
      {
        assert before[i] == s[i];
      }
      FilterAllPass(before, p);
    }
    assert Filter(rest, p) == after by {
      forall i | 0 <= i < |after|
        ensures p(after[i])
      {
        assert after[i] == s[k + 1 + i];
      }
      FilterAllPass(after, p);
      assert rest[0] == s[k] && rest[1..] == after;
    }
    FilterAppend(before, rest, p);
    assert before + rest == s;
  }

  /** The index filter removes exactly position `i - offset` of the list. */
  lemma {:induction false} FilterIndexIsRemoveAt<T>(s: seq<T>, i: int, offset: int)
    ensures FilterIndex(s, i, offset) == RemoveAt(s, i - offset)
    decreases |s|
  {
    if |s| > 0 {
      FilterIndexIsRemoveAt(s[1..], i, offset + 1);
      assert s == [s[0]] + s[1..];
      if offset == i {
        assert RemoveAt(s[1..], -1) == s[1..];
      } else if 0 <= i - offset < |s| {
        RemoveAtCons(s, i - offset);
      } else {
        assert [s[0]] + s[1..] == s;
      }
    }
  }

  /** Removing a position keeps only elements of the list and keeps them distinct. */
  lemma RemoveAtNoDuplicates<T>(s: seq<T>, i: int)
    requires NoDuplicates(s)
    ensures NoDuplicates(RemoveAt(s, i))
    ensures forall x :: x in RemoveAt(s, i) ==> x in s
  {
    var r := RemoveAt(s, i);
    if 0 <= i < |s| {
      forall a, b | 0 <= a < b < |r|
        ensures r[a] != r[b]
      {
        var a' := if a < i then a else a + 1;
        var b' := if b < i then b else b + 1;
        assert r[a] == s[a'] && r[b] == s[b'];
      }
      forall x | x in r
        ensures x in s
      {
        var k :| 0 <= k < |r| && r[k] == x;
        assert x == s[if k < i then k else k + 1];
      }
    }
  }
}
