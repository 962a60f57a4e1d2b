/**
 * The co-sorted variant of the median survival time: each subject's time and
 * status travel together through a stable sort by time, and the selection is
 * then made on the sorted subjects. It is not what `median_survival_time`
 * computes; it serves as the reference against which the unpaired reading of
 * the statuses is compared.
 */
module PairedSurvival {
  import opened Wrappers
  import opened Sorting
  import opened Survival

  datatype Subject = Subject(time: real, status: int)

  /** Pairs up the two parallel lists, position by position. */
  function Zip(times: seq<real>, statuses: seq<int>): (subjects: seq<Subject>)
    requires |statuses| == |times|
    ensures |subjects| == |times|
  {
    seq(|times|, i requires 0 <= i < |times| => Subject(times[i], statuses[i]))
  }

  function Times(subjects: seq<Subject>): (times: seq<real>)
    ensures |times| == |subjects|
  {
    seq(|subjects|, i requires 0 <= i < |subjects| => subjects[i].time)
  }

  function Statuses(subjects: seq<Subject>): (statuses: seq<int>)
    ensures |statuses| == |subjects|
  {
    seq(|subjects|, i requires 0 <= i < |subjects| => subjects[i].status)
  }

  /**
   * Inserts `x` before the first subject whose time is not smaller; since the
   * sort below inserts each subject into the sort of the ones after it, ties
   * keep their original order (a stable sort).
   */
  function InsertByTime(x: Subject, s: seq<Subject>): (r: seq<Subject>)
    ensures |r| == |s| + 1
  {
    if s == [] || x.time <= s[0].time then [x] + s else [s[0]] + InsertByTime(x, s[1..])
  }

  /** Stable sort of the subjects by time. */
  function SortByTime(s: seq<Subject>): (r: seq<Subject>)
    ensures |r| == |s|
  {
    if s == [] then [] else InsertByTime(s[0], SortByTime(s[1..]))
  }

  /** Inserting a subject adds exactly one occurrence of it. */
  lemma {:induction false} InsertByTimePermutation(x: Subject, s: seq<Subject>)
    ensures multiset(InsertByTime(x, s)) == multiset(s) + multiset{x}
  {
    if s != [] && !(x.time <= s[0].time) {
      InsertByTimePermutation(x, s[1..]);
      assert s == [s[0]] + s[1..];
    }
  }

  /** Inserting a subject inserts its time among the times. */
  lemma {:induction false} InsertByTimeTimes(x: Subject, s: seq<Subject>)
    ensures Times(InsertByTime(x, s)) == Insert(x.time, Times(s))
  {
    var r := InsertByTime(x, s);
    if s == [] || x.time <= s[0].time {
      assert Times(r) == [x.time] + Times(s);
    } else {
      var t := InsertByTime(x, s[1..]);
      InsertByTimeTimes(x, s[1..]);
      assert Times(s)[1..] == Times(s[1..]);
      assert Times(r) == [s[0].time] + Times(t);
    }
  }

  /** The sort is a permutation of the subjects. */
  lemma {:induction false} SortByTimePermutation(s: seq<Subject>)
    ensures multiset(SortByTime(s)) == multiset(s)
  {
    if s != [] {
      SortByTimePermutation(s[1..]);
      InsertByTimePermutation(s[0], SortByTime(s[1..]));
      assert s == [s[0]] + s[1..];
    }
  }

  /** The sort carries the times exactly as sorting the times alone would. */
  lemma {:induction false} SortByTimeTimes(s: seq<Subject>)
    ensures Times(SortByTime(s)) == SortAsc(Times(s))
  {
    if s != [] {
      SortByTimeTimes(s[1..]);
      InsertByTimeTimes(s[0], SortByTime(s[1..]));
      assert Times(s)[1..] == Times(s[1..]);
    }
  }

  /** The subjects of `s` observed at time `t`, in listing order. */
  function WithTime(s: seq<Subject>, t: real): (r: seq<Subject>)
    ensures |r| <= |s|
  {
    if s == [] then [] else (if s[0].time == t then [s[0]] else []) + WithTime(s[1..], t)
  }

  /**
   * Insertion puts `x` ahead of every subject with its time, and does not
   * reorder subjects with any other time.
   */
  lemma {:induction false} InsertByTimeStable(x: Subject, s: seq<Subject>, t: real)
    ensures WithTime(InsertByTime(x, s), t) == (if x.time == t then [x] else []) + WithTime(s, t)
  {
    var r := InsertByTime(x, s);
    var head := if x.time == t then [x] else [];
    if s == [] || x.time <= s[0].time {
      assert r == [x] + s && r[1..] == s;
      assert WithTime(r, t) == head + WithTime(s, t);
    } else {
      var rest := InsertByTime(x, s[1..]);
      assert r == [s[0]] + rest && r[1..] == rest;
      InsertByTimeStable(x, s[1..], t);
      var first := if s[0].time == t then [s[0]] else [];
      assert WithTime(r, t) == first + WithTime(rest, t);
      assert WithTime(s, t) == first + WithTime(s[1..], t);
      assert s[0].time < x.time;
      assert x.time == t ==> first == [];
    }
  }

  /** The sort is stable: subjects sharing a time keep their listing order. */
  lemma {:induction false} SortByTimeStable(s: seq<Subject>, t: real)
    ensures WithTime(SortByTime(s), t) == WithTime(s, t)
  {
    if s != [] {
      SortByTimeStable(s[1..], t);
      InsertByTimeStable(s[0], SortByTime(s[1..]), t);
    }
  }

  /**
   * The median read from the co-sorted subjects: a reported value lies between
   * the lower and the upper median of their times, and so within their range.
   */
  function PairedMedianSurvivalTime(subjects: seq<Subject>): (r: Option<real>)
    requires |subjects| >= 1
    ensures var n := |subjects|;
      r.Some? ==> SortAsc(Times(subjects))[(n - 1) / 2] <= r.value <= SortAsc(Times(subjects))[n / 2]
    ensures r.Some? ==> Min(Times(subjects)) <= r.value <= Max(Times(subjects))
  {
    var sorted := SortByTime(subjects);
    SortByTimeTimes(subjects);
    SortAscSortedPermutation(Times(subjects));
    SortAscWithinRange(Times(subjects), (|subjects| - 1) / 2);
    SortAscWithinRange(Times(subjects), |subjects| / 2);
    MedianOfSorted(Times(sorted), Statuses(sorted))
  }

  /**
   * The paired median is the source's computation applied to the statuses
   * in co-sorted order: the two differ only in which statuses are read.
   */
  lemma PairedReadsCoSortedStatuses(times: seq<real>, statuses: seq<int>)
    requires |times| >= 1 && |statuses| == |times|
    ensures PairedMedianSurvivalTime(Zip(times, statuses))
         == MedianSurvivalTime(times, Statuses(SortByTime(Zip(times, statuses))))
  {
    var z := Zip(times, statuses);
    assert Times(z) == times;
    SortByTimeTimes(z);
  }

  /** A stable sort leaves subjects already in time order where they are. */
  lemma {:induction false} SortByTimeOfSorted(s: seq<Subject>)
    requires Sorted(Times(s))
    ensures SortByTime(s) == s
  {
    if s != [] {
      assert Times(s)[1..] == Times(s[1..]);
      SortedTail(Times(s));
      SortByTimeOfSorted(s[1..]);
      if |s| > 1 {
        assert Times(s)[0] <= Times(s)[1];
      }
      assert s == [s[0]] + s[1..];
    }
  }

  /** When the times arrive in ascending order the two readings agree. */
  lemma AgreeOnSortedTimes(times: seq<real>, statuses: seq<int>)
    requires |times| >= 1 && |statuses| == |times| && Sorted(times)
    ensures PairedMedianSurvivalTime(Zip(times, statuses)) == MedianSurvivalTime(times, statuses)
  {
    var z := Zip(times, statuses);
    assert Times(z) == times;
    assert Statuses(z) == statuses;
    SortByTimeOfSorted(z);
    MedianOfAlreadySorted(times, statuses);
  }

  /** No two different subjects share a time (identical duplicates are allowed). */
  ghost predicate TimesIdentifySubjects(s: seq<Subject>)
  {
    forall p, q :: p in s && q in s && p.time == q.time ==> p == q
  }

  /** Every element of a time-ordered list is no earlier than its head. */
  lemma HeadEarliest(s: seq<Subject>, x: Subject)
    requires Sorted(Times(s)) && x in multiset(s)
    ensures s[0].time <= x.time
  {
    var i :| 0 <= i < |s| && s[i] == x;
    assert Times(s)[0] <= Times(s)[i];
  }

  /** The tail of a time-ordered list is time-ordered. */
  lemma TimeOrderedTail(s: seq<Subject>)
    requires Sorted(Times(s)) && s != []
    ensures Sorted(Times(s[1..]))
  {
    assert Times(s)[1..] == Times(s[1..]);
    SortedTail(Times(s));
  }

  /**
   * Two time-ordered lists of the same subjects are equal when no two
   * different subjects share a time.
   */
  lemma {:induction false} TimeOrderUnique(a: seq<Subject>, b: seq<Subject>)
    requires Sorted(Times(a)) && Sorted(Times(b))
    requires multiset(a) == multiset(b)
    requires TimesIdentifySubjects(a)
    ensures a == b
  {
    if a == [] {
      assert |multiset(b)| == 0;
    } else {
      assert |b| == |multiset(b)| == |multiset(a)| == |a|;
      assert a[0] in multiset(a) && b[0] in multiset(b);
      HeadEarliest(b, a[0]);
      HeadEarliest(a, b[0]);
      assert b[0] in a;
      assert a[0] == b[0];
      var a', b' := a[1..], b[1..];
      assert a == [a[0]] + a';
      assert b == [b[0]] + b';
      assert multiset(a') == multiset(a) - multiset{a[0]};
      assert multiset(b') == multiset(b) - multiset{b[0]};
      TimeOrderedTail(a);
      TimeOrderedTail(b);
      assert TimesIdentifySubjects(a') by {
        forall p | p in a' ensures p in a {
        }
      }
      TimeOrderUnique(a', b');
    }
  }

  /** The condition that times identify subjects depends only on which subjects occur. */
  lemma IdentifyBySameSubjects(a: seq<Subject>, b: seq<Subject>)
    requires multiset(a) == multiset(b) && TimesIdentifySubjects(b)
    ensures TimesIdentifySubjects(a)
  {
    forall p | p in a ensures p in b {
      assert p in multiset(a);
    }
  }

  /**
   * The paired median does not depend on the order in which subjects are
   * listed, as long as no two different subjects share a time.
   */
  lemma PairedOrderIndependent(s: seq<Subject>, s': seq<Subject>)
    requires |s| >= 1 && multiset(s') == multiset(s)
    requires TimesIdentifySubjects(s)
    ensures |s'| == |s|
    ensures PairedMedianSurvivalTime(s') == PairedMedianSurvivalTime(s)
  {
    assert |s'| == |multiset(s')| == |multiset(s)| == |s|;
    var sorted, sorted' := SortByTime(s), SortByTime(s');
    SortByTimePermutation(s);
    SortByTimePermutation(s');
    SortByTimeTimes(s);
    SortByTimeTimes(s');
    SortAscSortedPermutation(Times(s));
    SortAscSortedPermutation(Times(s'));
    IdentifyBySameSubjects(sorted, s);
    TimeOrderUnique(sorted, sorted');
  }

  /** On subjects already in time order, the selection reads them as listed. */
  lemma PairedOfSorted(s: seq<Subject>)
    requires |s| >= 1 && Sorted(Times(s))
    ensures PairedMedianSurvivalTime(s) == MedianOfSorted(Times(s), Statuses(s))
  {
    SortByTimeOfSorted(s);
  }

  /**
   * Without the condition above the order can matter: with tied times the
   * stable sort keeps the listing order, and the middle status can then
   * depend on it.
   */
  lemma TiesMakePairedOrderDependent()
    ensures PairedMedianSurvivalTime([Subject(1.0, 1), Subject(1.0, 0), Subject(1.0, 1)]) == None
    ensures PairedMedianSurvivalTime([Subject(1.0, 0), Subject(1.0, 1), Subject(1.0, 1)]) == Some(1.0)
  {
    var s := [Subject(1.0, 1), Subject(1.0, 0), Subject(1.0, 1)];
    var s' := [Subject(1.0, 0), Subject(1.0, 1), Subject(1.0, 1)];
    var t, st, t', st' := Times(s), Statuses(s), Times(s'), Statuses(s');
    assert t == [1.0, 1.0, 1.0] == t' && st == [1, 0, 1] && st' == [0, 1, 1];
    assert MedianOfSorted(t, st) == None;
    assert MedianOfSorted(t', st') == Some(1.0);
    PairedOfSorted(s);
    PairedOfSorted(s');
  }

  /**
   * Ties do not always make the order matter: two different subjects sharing
   * a time give the same paired median in both listings.
   */
  lemma TiesCanAgree()
    ensures !TimesIdentifySubjects([Subject(1.0, 0), Subject(1.0, 1)])
    ensures PairedMedianSurvivalTime([Subject(1.0, 0), Subject(1.0, 1)]) == Some(1.0)
    ensures PairedMedianSurvivalTime([Subject(1.0, 1), Subject(1.0, 0)]) == Some(1.0)
  {
    var s := [Subject(1.0, 0), Subject(1.0, 1)];
    var s' := [Subject(1.0, 1), Subject(1.0, 0)];
    assert s[0] in s && s[1] in s && s[0].time == s[1].time && s[0] != s[1];
    var t, st, t', st' := Times(s), Statuses(s), Times(s'), Statuses(s');
    assert t == [1.0, 1.0] == t' && st == [0, 1] && st' == [1, 0];
    assert MedianOfSorted(t, st) == Some(1.0);
    assert MedianOfSorted(t', st') == Some(1.0);
    PairedOfSorted(s);
    PairedOfSorted(s');
  }

  /** Listed in time order, the subjects (1, event), (2, event), (3, censored) have a median of 2. */
  lemma PairedSortedExample()
    ensures PairedMedianSurvivalTime([Subject(1.0, 1), Subject(2.0, 1), Subject(3.0, 0)]) == Some(2.0)
  {
    var sorted := [Subject(1.0, 1), Subject(2.0, 1), Subject(3.0, 0)];
    var t, st := Times(sorted), Statuses(sorted);
    assert t == [1.0, 2.0, 3.0] && st == [1, 1, 0];
    assert MedianOfSorted(t, st) == Some(2.0);
    PairedOfSorted(sorted);
  }

  /** The same subjects in another order have the same paired median. */
  lemma PairedExample()
    ensures PairedMedianSurvivalTime([Subject(1.0, 1), Subject(3.0, 0), Subject(2.0, 1)]) == Some(2.0)
  {
    var z := [Subject(1.0, 1), Subject(3.0, 0), Subject(2.0, 1)];
    var sorted := [Subject(1.0, 1), Subject(2.0, 1), Subject(3.0, 0)];
    assert multiset(sorted) == multiset(z);
    assert TimesIdentifySubjects(sorted);
    PairedOrderIndependent(sorted, z);
    PairedSortedExample();
  }

  /**
   * On unsorted input the source's reading and the paired one can disagree:
   * for the subjects above the source reads the censored status at
   * position 1 and reports None.
   */
  lemma UnpairedDiffersFromPaired()
    ensures MedianSurvivalTime([1.0, 3.0, 2.0], [1, 0, 1]) == None
    ensures PairedMedianSurvivalTime(Zip([1.0, 3.0, 2.0], [1, 0, 1])) == Some(2.0)
  {
    StatusesNotCoSorted();
    var times, statuses := [1.0, 3.0, 2.0], [1, 0, 1];
    var z := Zip(times, statuses);
    assert z == [Subject(1.0, 1), Subject(3.0, 0), Subject(2.0, 1)];
    PairedExample();
  }
}
