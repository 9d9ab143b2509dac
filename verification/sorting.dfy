/** Ordering panel ids by the vertical coordinate of their centroid, largest
    first. The centroid lookup is abstracted to a total key function from
    panel id to an integer; the source sorts with an unstable sort, so the
    only promise is a permutation that is non-increasing in the key, and the
    insertion sort below is one order that keeps that promise. */
module Sorting {

  /** The key never increases along `s`. */
  predicate NonIncreasing(s: seq<int>, key: int -> int)
  {
    forall i, j :: 0 <= i < j < |s| ==> key(s[i]) >= key(s[j])
  }

  /** No id occurs twice in `s`. */
  predicate Distinct(s: seq<int>)
  {
    forall i, j :: 0 <= i < j < |s| ==> s[i] != s[j]
  }

  /** Puts `x` in front of the first element whose key is not larger. */
  function Insert(x: int, s: seq<int>, key: int -> int): (r: seq<int>)
    requires NonIncreasing(s, key)
    ensures |r| == |s| + 1
    ensures multiset(r) == multiset(s) + multiset{x}
    ensures NonIncreasing(r, key)
    ensures |s| > 0 ==> r[0] == x || r[0] == s[0]
  {
    if |s| == 0 then [x]
    else if key(x) >= key(s[0]) then [x] + s
    else
      var t := Insert(x, s[1..], key);
      assert s == [s[0]] + s[1..];
      assert forall k :: 0 <= k < |t| ==> key(s[0]) >= key(t[k]) by {
        forall k | 0 <= k < |t|
          ensures key(s[0]) >= key(t[k])
        {
          assert key(s[0]) >= key(t[0]);
          if k > 0 {
            assert key(t[0]) >= key(t[k]);
          }
        }
      }
      [s[0]] + t
  }

  /** Sorts `s` so that the key never increases. */
  function SortByKey(s: seq<int>, key: int -> int): (r: seq<int>)
    ensures |r| == |s|
    ensures multiset(r) == multiset(s)
    ensures NonIncreasing(r, key)
  {
    if |s| == 0 then []
    else
      assert s == [s[0]] + s[1..];
      Insert(s[0], SortByKey(s[1..], key), key)
  }

  /** An id occurs at most once in a sequence without repetitions. */
  lemma {:induction false} DistinctCount(s: seq<int>, x: int)
    requires Distinct(s)
    ensures multiset(s)[x] <= 1
  {
    if |s| > 0 {
      assert s == [s[0]] + s[1..];
      DistinctCount(s[1..], x);
      if s[0] == x {
        assert x !in s[1..];
      }
    }
  }

  /** Reordering a sequence without repetitions cannot create one. */
  lemma PermutationKeepsDistinct(a: seq<int>, b: seq<int>)
    requires multiset(a) == multiset(b)
    requires Distinct(a)
    ensures Distinct(b)
  {
    forall i, j | 0 <= i < j < |b|
      ensures b[i] != b[j]
    {
      if b[i] == b[j] {
        var x := b[i];
        assert b == b[..j] + b[j..];
        assert x in b[..j];
        assert x in b[j..];
        assert multiset(b)[x] == multiset(b[..j])[x] + multiset(b[j..])[x];
        DistinctCount(a, x);
        assert false;
      }
    }
  }
}
