/**
 * Ascending sort of a sequence of reals (the model of Python's `sorted` on a
 * list of numbers), together with the facts about sorted sequences that the
 * median computation relies on: uniqueness of the sorted permutation, ranks
 * (order statistics), and the least and greatest element.
 */
module Sorting {

  /** Every element is at most every later element. */
  predicate Sorted(s: seq<real>)
  {
    forall i, j :: 0 <= i <= j < |s| ==> s[i] <= s[j]
  }

  /** Inserts `x` before the first element that is not smaller than it. */
  function Insert(x: real, s: seq<real>): (r: seq<real>)
    ensures |r| == |s| + 1
  {
    if s == [] || x <= s[0] then [x] + s else [s[0]] + Insert(x, s[1..])
  }

  /** Insertion adds exactly one occurrence of `x`. */
  lemma {:induction false} InsertPermutation(x: real, s: seq<real>)
    ensures multiset(Insert(x, s)) == multiset(s) + multiset{x}
  {
    if s != [] && !(x <= s[0]) {
      InsertPermutation(x, s[1..]);
      assert s == [s[0]] + s[1..];
    }
  }

  /** Inserting into a sorted sequence keeps it sorted. */
  lemma {:induction false} InsertSorted(x: real, s: seq<real>)
    requires Sorted(s)
    ensures Sorted(Insert(x, s))
  {
    if s != [] && !(x <= s[0]) {
      var tail := s[1..];
      assert Sorted(tail);
      InsertSorted(x, tail);
      InsertPermutation(x, tail);
      var t := Insert(x, tail);
      forall e | e in t ensures s[0] <= e {
        assert e in multiset(t);
        assert e == x || e in multiset(tail);
      }
      var r := Insert(x, s);
      assert r == [s[0]] + t;
      forall i, j | 0 <= i <= j < |r| ensures r[i] <= r[j] {
        if i == 0 {
          assert r[j] in t || j == 0;
        } else {
          assert r[i] == t[i - 1] && r[j] == t[j - 1];
        }
      }
    }
  }

  /** Insertion sort (the model of Python's `sorted`). */
  function SortAsc(s: seq<real>): (r: seq<real>)
    ensures |r| == |s|
  {
    if s == [] then [] else Insert(s[0], SortAsc(s[1..]))
  }

  /** `SortAsc(s)` is ascending and a permutation of `s`. */
  lemma {:induction false} SortAscSortedPermutation(s: seq<real>)
    ensures Sorted(SortAsc(s))
    ensures multiset(SortAsc(s)) == multiset(s)
  {
    if s != [] {
      SortAscSortedPermutation(s[1..]);
      InsertSorted(s[0], SortAsc(s[1..]));
      InsertPermutation(s[0], SortAsc(s[1..]));
      assert s == [s[0]] + s[1..];
    }
  }

  /** The head of a sorted sequence is at most each of its elements. */
  lemma SortedHeadLeast(a: seq<real>, x: real)
    requires Sorted(a) && x in multiset(a)
    ensures a[0] <= x
  {
    var i :| 0 <= i < |a| && a[i] == x;
  }

  /** The tail of a sorted sequence is sorted. */
  lemma SortedTail(a: seq<real>)
    requires Sorted(a) && a != []
    ensures Sorted(a[1..])
  {
  }

  /** Two sorted sequences holding the same elements are the same sequence. */
  lemma {:induction false} SortedPermutationUnique(a: seq<real>, b: seq<real>)
    requires Sorted(a) && Sorted(b)
    requires multiset(a) == multiset(b)
    ensures a == b
  {
    if a == [] {
      assert |multiset(b)| == 0;
    } else {
      assert |b| == |multiset(b)| == |multiset(a)| == |a|;
      assert a[0] in multiset(a) && b[0] in multiset(b);
      SortedHeadLeast(b, a[0]);
      SortedHeadLeast(a, b[0]);
      assert a[0] == b[0];
      var a', b' := a[1..], b[1..];
      assert a == [a[0]] + a';
      assert b == [b[0]] + b';
      assert multiset(a) == multiset{a[0]} + multiset(a');
      assert multiset(b) == multiset{b[0]} + multiset(b');
      assert multiset(a') == multiset(a) - multiset{a[0]};
      assert multiset(b') == multiset(b) - multiset{b[0]};
      SortedTail(a);
      SortedTail(b);
      SortedPermutationUnique(a', b');
    }
  }

  /** Any ascending permutation of `s` is the one `SortAsc` computes. */
  lemma SortAscCharacterised(s: seq<real>, r: seq<real>)
    requires Sorted(r) && multiset(r) == multiset(s)
    ensures r == SortAsc(s)
  {
    SortAscSortedPermutation(s);
    SortedPermutationUnique(r, SortAsc(s));
  }

  /** Sorting forgets the input order: permutations sort to the same sequence. */
  lemma SortAscPermutationInvariant(s: seq<real>, t: seq<real>)
    requires multiset(s) == multiset(t)
    ensures SortAsc(s) == SortAsc(t)
  {
    SortAscSortedPermutation(s);
    SortAscSortedPermutation(t);
    SortedPermutationUnique(SortAsc(s), SortAsc(t));
  }

  /** An already ascending sequence is its own sort. */
  lemma SortAscOfSorted(s: seq<real>)
    requires Sorted(s)
    ensures SortAsc(s) == s
  {
    SortAscCharacterised(s, s);
  }

  /** `x < v`, or `x <= v` when `inclusive`. */
  predicate Below(x: real, v: real, inclusive: bool)
  {
    if inclusive then x <= v else x < v
  }

  /** How many elements of `s` lie below `v` (strictly, or not when `inclusive`). */
  function CountBelow(s: seq<real>, v: real, inclusive: bool): (c: nat)
    ensures c <= |s|
  {
    if s == [] then 0
    else (if Below(s[0], v, inclusive) then 1 else 0) + CountBelow(s[1..], v, inclusive)
  }

  /**
   * `v` is a value of rank `k` (0-based) in `s`: fewer than `k + 1` elements are
   * smaller than `v` and more than `k` elements are at most `v`.
   */
  ghost predicate IsOrderStatistic(s: seq<real>, k: nat, v: real)
  {
    CountBelow(s, v, false) <= k < CountBelow(s, v, true)
  }

  lemma {:induction false} CountBelowInsert(x: real, s: seq<real>, v: real, inclusive: bool)
    ensures CountBelow(Insert(x, s), v, inclusive)
         == CountBelow(s, v, inclusive) + (if Below(x, v, inclusive) then 1 else 0)
  {
    if s != [] && !(x <= s[0]) {
      CountBelowInsert(x, s[1..], v, inclusive);
      assert Insert(x, s)[1..] == Insert(x, s[1..]);
    }
  }

  /** Counting below a value does not depend on the order of the elements. */
  lemma {:induction false} CountBelowSortAsc(s: seq<real>, v: real, inclusive: bool)
    ensures CountBelow(SortAsc(s), v, inclusive) == CountBelow(s, v, inclusive)
  {
    if s != [] {
      CountBelowSortAsc(s[1..], v, inclusive);
      CountBelowInsert(s[0], SortAsc(s[1..]), v, inclusive);
    }
  }

  /** In a sorted sequence the elements below `v` are exactly a prefix. */
  lemma {:induction false} CountBelowSorted(s: seq<real>, v: real, inclusive: bool, k: nat)
    requires Sorted(s) && k < |s|
    ensures k < CountBelow(s, v, inclusive) <==> Below(s[k], v, inclusive)
  {
    var tail := s[1..];
    assert Sorted(tail);
    if Below(s[0], v, inclusive) {
      if k > 0 {
        CountBelowSorted(tail, v, inclusive, k - 1);
      }
    } else if |tail| > 0 {
      // s[0] is not below v, and neither is anything after it.
      CountBelowSorted(tail, v, inclusive, 0);
      assert !Below(tail[0], v, inclusive);
      assert CountBelow(tail, v, inclusive) == 0;
    }
  }

  /**
   * The element at position `k` of the sorted sequence is exactly the value
   * of rank `k`: an independent characterisation of `SortAsc(s)[k]`.
   */
  lemma OrderStatistic(s: seq<real>, k: nat, v: real)
    requires k < |s|
    ensures SortAsc(s)[k] == v <==> IsOrderStatistic(s, k, v)
  {
    var r := SortAsc(s);
    SortAscSortedPermutation(s);
    CountBelowSortAsc(s, v, false);
    CountBelowSortAsc(s, v, true);
    CountBelowSorted(r, v, false, k);
    CountBelowSorted(r, v, true, k);
  }

  /** The least element of a non-empty sequence (Python's `min`). */
  function Min(s: seq<real>): (m: real)
    requires |s| >= 1
    ensures m in s
    ensures forall i :: 0 <= i < |s| ==> m <= s[i]
  {
    if |s| == 1 then s[0]
    else
      var rest := Min(s[1..]);
      assert forall i :: 1 <= i < |s| ==> s[i] == s[1..][i - 1];
      if s[0] <= rest then s[0] else rest
  }

  /** The greatest element of a non-empty sequence (Python's `max`). */
  function Max(s: seq<real>): (m: real)
    requires |s| >= 1
    ensures m in s
    ensures forall i :: 0 <= i < |s| ==> s[i] <= m
  {
    if |s| == 1 then s[0]
    else
      var rest := Max(s[1..]);
      assert forall i :: 1 <= i < |s| ==> s[i] == s[1..][i - 1];
      if s[0] >= rest then s[0] else rest
  }

  /** Every element of the sorted sequence lies between the input's extremes. */
  lemma SortAscWithinRange(s: seq<real>, k: nat)
    requires k < |s|
    ensures Min(s) <= SortAsc(s)[k] <= Max(s)
    ensures SortAsc(s)[k] in s
  {
    var r := SortAsc(s);
    SortAscSortedPermutation(s);
    assert r[k] in multiset(s);
    var i :| 0 <= i < |s| && s[i] == r[k];
  }
}
