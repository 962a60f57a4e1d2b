/**
 * Median survival time of right-censored data, as computed by
 * `median_survival_time`: sort the observed times, take the middle rank (odd
 * count) or the mean of the two middle ranks (even count), and report it only
 * when the status at the same position(s) of the ORIGINAL, unsorted status
 * list says an event was observed.
 *
 * Statuses are integers; Python truthiness of a status is `status != 0`.
 * Two behaviours of the source are reproduced as they are:
 *  - the statuses are not reordered along with the times;
 *  - in the even case the first middle status is tested for truthiness and
 *    the second for equality with 1, and either one suffices.
 */
module Survival {
  import opened Wrappers
  import opened Sorting

  /**
   * The inputs on which the source neither raises `IndexError` nor falls back
   * on Python's negative indexing: at least one time, and a status at every
   * middle position it reads. For an even count the second middle status is
   * read only when the first is falsy (`or` short-circuits), so a list that
   * ends at the first middle position is enough when that status is truthy.
   * Statuses beyond the middle are never read.
   */
  predicate WellFormed(times: seq<real>, statuses: seq<int>)
  {
    var n := |times|;
    && n >= 1
    && (|statuses| > n / 2 || (n % 2 == 0 && |statuses| == n / 2 && statuses[n / 2 - 1] != 0))
  }

  /**
   * The selection step: given the times in ascending order and the status
   * list, the middle value, the mean of the two middle values, or None when
   * the status test at those positions fails. On ascending times a reported
   * value lies between the lower median (position (n-1)/2) and the upper
   * median (position n/2).
   */
  function MedianOfSorted(sortedTimes: seq<real>, statuses: seq<int>): (r: Option<real>)
    requires WellFormed(sortedTimes, statuses)
    ensures var n := |sortedTimes|;
      Sorted(sortedTimes) && r.Some? ==> sortedTimes[(n - 1) / 2] <= r.value <= sortedTimes[n / 2]
  {
    var n := |sortedTimes|;
    if n % 2 == 0 then
      var m1, m2 := n / 2 - 1, n / 2;
      if statuses[m1] != 0 || statuses[m2] == 1 then
        Some((sortedTimes[m1] + sortedTimes[m2]) / 2.0)
      else
        None
    else
      var m := n / 2;
      if statuses[m] == 1 then Some(sortedTimes[m]) else None
  }

  /**
   * `median_survival_time(times, statuses)`: defined exactly when the status
   * test at the middle position(s) of the unsorted list passes, and then a
   * value between the lower and the upper median of the times, and so within
   * their range.
   */
  function MedianSurvivalTime(times: seq<real>, statuses: seq<int>): (r: Option<real>)
    requires WellFormed(times, statuses)
    ensures var n := |times|;
      r.Some? <==> (if n % 2 == 0 then statuses[n / 2 - 1] != 0 || statuses[n / 2] == 1
                    else statuses[n / 2] == 1)
    ensures var n := |times|;
      r.Some? ==> SortAsc(times)[(n - 1) / 2] <= r.value <= SortAsc(times)[n / 2]
    ensures r.Some? ==> Min(times) <= r.value <= Max(times)
  {
    SortAscSortedPermutation(times);
    SortAscWithinRange(times, (|times| - 1) / 2);
    SortAscWithinRange(times, |times| / 2);
    MedianOfSorted(SortAsc(times), statuses)
  }

  /**
   * Odd count: defined exactly when the status at the middle position of the
   * unsorted list is 1, and then the value is an observed time of rank n/2.
   */
  lemma OddMedian(times: seq<real>, statuses: seq<int>)
    requires WellFormed(times, statuses) && |times| % 2 == 1
    ensures var r := MedianSurvivalTime(times, statuses);
      && (r.Some? <==> statuses[|times| / 2] == 1)
      && (r.Some? ==> r.value in times && IsOrderStatistic(times, |times| / 2, r.value))
      && (r.Some? ==> forall v :: IsOrderStatistic(times, |times| / 2, v) ==> v == r.value)
  {
    var m := |times| / 2;
    var r := MedianSurvivalTime(times, statuses);
    if r.Some? {
      SortAscWithinRange(times, m);
      OrderStatistic(times, m, r.value);
      forall v | IsOrderStatistic(times, m, v) ensures v == r.value {
        OrderStatistic(times, m, v);
      }
    }
  }

  /**
   * Even count: defined exactly when the first middle status is truthy or
   * the second is 1, and then the value is the mean of the values of ranks
   * n/2-1 and n/2, so it lies between them.
   */
  lemma EvenMedian(times: seq<real>, statuses: seq<int>)
    requires WellFormed(times, statuses) && |times| % 2 == 0
    ensures var r := MedianSurvivalTime(times, statuses);
      var m1, m2 := |times| / 2 - 1, |times| / 2;
      && (r.Some? <==> statuses[m1] != 0 || statuses[m2] == 1)
      && (r.Some? ==> SortAsc(times)[m1] <= r.value <= SortAsc(times)[m2])
      && (r.Some? ==> forall a, b :: IsOrderStatistic(times, m1, a) && IsOrderStatistic(times, m2, b)
                        ==> r.value == (a + b) / 2.0)
  {
    var n := |times|;
    var m1, m2 := n / 2 - 1, n / 2;
    assert 0 <= m1 < m2 < n;
    var s := SortAsc(times);
    SortAscSortedPermutation(times);
    var r := MedianOfSorted(s, statuses);
    if r.Some? {
      assert r.value == (s[m1] + s[m2]) / 2.0;
      assert s[m1] <= s[m2];
      forall a, b | IsOrderStatistic(times, m1, a) && IsOrderStatistic(times, m2, b)
        ensures r.value == (a + b) / 2.0
      {
        OrderStatistic(times, m1, a);
        OrderStatistic(times, m2, b);
      }
    }
  }

  /**
   * Only the sorted times and the fixed status positions are read, so
   * reordering the times while keeping the statuses in place changes nothing.
   */
  lemma PermutingTimesKeepsMedian(times: seq<real>, times': seq<real>, statuses: seq<int>)
    requires WellFormed(times, statuses)
    requires multiset(times') == multiset(times)
    ensures |times'| == |times|
    ensures MedianSurvivalTime(times', statuses) == MedianSurvivalTime(times, statuses)
  {
    assert |times'| == |multiset(times')| == |multiset(times)| == |times|;
    SortAscPermutationInvariant(times, times');
  }

  /** On times that are already ascending, the selection reads them as given. */
  lemma MedianOfAlreadySorted(times: seq<real>, statuses: seq<int>)
    requires WellFormed(times, statuses) && Sorted(times)
    ensures MedianSurvivalTime(times, statuses) == MedianOfSorted(times, statuses)
  {
    SortAscOfSorted(times);
  }

  /** Worked examples with an odd number of subjects. */
  lemma OddExamples()
    ensures MedianSurvivalTime([1.0, 3.0, 5.0], [1, 1, 1]) == Some(3.0)
    ensures MedianSurvivalTime([1.0, 3.0, 5.0], [1, 0, 1]) == None
  {
    var odd := [1.0, 3.0, 5.0];
    MedianOfAlreadySorted(odd, [1, 1, 1]);
    MedianOfAlreadySorted(odd, [1, 0, 1]);
  }

  /** Worked examples with an even number of subjects. */
  lemma EvenExamples()
    ensures MedianSurvivalTime([1.0, 2.0, 3.0, 4.0], [1, 1, 1, 1]) == Some(2.5)
    ensures MedianSurvivalTime([1.0, 2.0, 3.0, 4.0], [1, 1, 0, 1]) == Some(2.5)
    ensures MedianSurvivalTime([1.0, 2.0, 3.0, 4.0], [1, 0, 0, 1]) == None
  {
    var even := [1.0, 2.0, 3.0, 4.0];
    MedianOfAlreadySorted(even, [1, 1, 1, 1]);
    MedianOfAlreadySorted(even, [1, 1, 0, 1]);
    MedianOfAlreadySorted(even, [1, 0, 0, 1]);
  }

  /**
   * The two middle statuses are not tested alike: a status of 2 counts as an
   * event in the first middle position but not in the second.
   */
  lemma AsymmetricEvenTest()
    ensures MedianSurvivalTime([1.0, 2.0, 3.0, 4.0], [1, 2, 0, 1]) == Some(2.5)
    ensures MedianSurvivalTime([1.0, 2.0, 3.0, 4.0], [1, 0, 2, 1]) == None
  {
    var even := [1.0, 2.0, 3.0, 4.0];
    MedianOfAlreadySorted(even, [1, 2, 0, 1]);
    MedianOfAlreadySorted(even, [1, 0, 2, 1]);
  }

  /**
   * The statuses are read at sorted positions of the unsorted list: the same
   * subjects (time 1 event, time 2 event, time 3 censored) listed in another
   * order change the answer.
   */
  lemma StatusesNotCoSorted()
    ensures MedianSurvivalTime([1.0, 2.0, 3.0], [1, 1, 0]) == Some(2.0)
    ensures MedianSurvivalTime([1.0, 3.0, 2.0], [1, 0, 1]) == None
  {
    var sorted, shuffled := [1.0, 2.0, 3.0], [1.0, 3.0, 2.0];
    MedianOfAlreadySorted(sorted, [1, 1, 0]);
    MedianOfAlreadySorted(sorted, [1, 0, 1]);
    assert multiset(shuffled) == multiset(sorted);
    PermutingTimesKeepsMedian(sorted, shuffled, [1, 0, 1]);
  }

  /**
   * With a truthy first middle status the second is never read: two times and
   * a single status still give a median.
   */
  lemma ShortStatusList()
    ensures WellFormed([1.0, 2.0], [1])
    ensures MedianSurvivalTime([1.0, 2.0], [1]) == Some(1.5)
  {
    MedianOfAlreadySorted([1.0, 2.0], [1]);
  }
}
