/**
  The numeric core of the performance report: an ascending sort of a copy of
  the samples, the number of values trimmed from each end, the trimmed mean,
  and the untrimmed minimum and maximum.
 */
module TrimmedStats {

  /** Sum of a sequence, accumulated front to back as the averaging loop does. */
  function Sum(s: seq<real>): real
  {
    if s == [] then 0.0 else Sum(s[..|s| - 1]) + s[|s| - 1]
  }

  predicate SortedAscending(s: seq<real>)
  {
    forall i, j :: 0 <= i <= j < |s| ==> s[i] <= s[j]
  }

  /** The first value of an ascending sequence is at most each of its values. */
  lemma HeadIsLeast(s: seq<real>, v: real)
    requires SortedAscending(s)
    requires v in multiset(s)
    ensures s[0] <= v
  {
    var k :| 0 <= k < |s| && s[k] == v;
  }

  /** Dropping the first value keeps a sequence ascending. */
  lemma SortedTail(s: seq<real>)
    requires |s| > 0 && SortedAscending(s)
    ensures SortedAscending(s[1..])
  {
    forall i, j | 0 <= i <= j < |s| - 1 ensures s[1..][i] <= s[1..][j] {
      assert s[1..][i] == s[i + 1] && s[1..][j] == s[j + 1];
    }
  }

  /** Inserts x before the first value of s that is not smaller than x. */
  function Insert(x: real, s: seq<real>): (r: seq<real>)
    ensures |r| == |s| + 1
  {
    if s == [] || x <= s[0] then [x] + s else [s[0]] + Insert(x, s[1..])
  }

  /** The ascending sort applied to the copy of the data (std::sort), as an insertion sort. */
  function SortAscending(s: seq<real>): (r: seq<real>)
    ensures |r| == |s|
  {
    if s == [] then [] else Insert(s[0], SortAscending(s[1..]))
  }

  /** Inserting adds exactly x to the values. */
  lemma {:induction false} InsertValues(x: real, s: seq<real>)
    ensures multiset(Insert(x, s)) == multiset(s) + multiset{x}
  {
    if s != [] && x > s[0] {
      assert s == [s[0]] + s[1..];
      InsertValues(x, s[1..]);
    }
  }

  /** Every value of an ascending sequence is at least its first. */
  lemma HeadBelowAll(s: seq<real>, x: real, r: seq<real>)
    requires |s| > 0 && SortedAscending(s)
    requires s[0] < x
    requires multiset(r) == multiset(s[1..]) + multiset{x}
    ensures forall k :: 0 <= k < |r| ==> s[0] <= r[k]
  {
    forall k | 0 <= k < |r| ensures s[0] <= r[k] {
      assert r[k] in multiset(r);
      if r[k] != x {
        assert s == [s[0]] + s[1..];
        assert r[k] in multiset(s[1..]);
        assert r[k] in multiset(s);
        HeadIsLeast(s, r[k]);
      }
    }
  }

  /** A value no larger than every value of an ascending sequence may go in front of it. */
  lemma ConsSorted(v: real, rest: seq<real>)
    requires SortedAscending(rest)
    requires forall k :: 0 <= k < |rest| ==> v <= rest[k]
    ensures SortedAscending([v] + rest)
  {
    var r := [v] + rest;
    forall i, j | 0 <= i <= j < |r| ensures r[i] <= r[j] {
      if i > 0 {
        assert r[i] == rest[i - 1] && r[j] == rest[j - 1];
      } else if j > 0 {
        assert r[j] == rest[j - 1];
      }
    }
  }

  /** Inserting into an ascending sequence keeps it ascending. */
  lemma {:induction false} InsertSorted(x: real, s: seq<real>)
    requires SortedAscending(s)
    ensures SortedAscending(Insert(x, s))
  {
    if s == [] || x <= s[0] {
      ConsSorted(x, s);
    } else {
      SortedTail(s);
      InsertSorted(x, s[1..]);
      InsertValues(x, s[1..]);
      HeadBelowAll(s, x, Insert(x, s[1..]));
      ConsSorted(s[0], Insert(x, s[1..]));
    }
  }

  /** The sort yields an ascending arrangement of exactly the given values. */
  lemma {:induction false} SortAscendingSorts(s: seq<real>)
    ensures SortedAscending(SortAscending(s))
    ensures multiset(SortAscending(s)) == multiset(s)
  {
    if s != [] {
      assert s == [s[0]] + s[1..];
      SortAscendingSorts(s[1..]);
      InsertSorted(s[0], SortAscending(s[1..]));
      InsertValues(s[0], SortAscending(s[1..]));
    }
  }

  /** Two ascending sequences holding the same values are equal: any sort gives the same result. */
  lemma {:induction false} SortedPermutationsEqual(a: seq<real>, b: seq<real>)
    requires SortedAscending(a) && SortedAscending(b)
    requires multiset(a) == multiset(b)
    ensures a == b
  {
    if a == [] {
      assert |b| == |multiset(b)| == 0;
    } else {
      assert |b| == |multiset(b)| == |a|;
      assert a[0] == b[0] by {
        assert a[0] in multiset(b) && b[0] in multiset(a);
        HeadIsLeast(a, b[0]);
        HeadIsLeast(b, a[0]);
      }
      assert a[1..] == b[1..] by {
        TailValues(a);
        TailValues(b);
        SortedTail(a);
        SortedTail(b);
        SortedPermutationsEqual(a[1..], b[1..]);
      }
      assert a == [a[0]] + a[1..];
      assert b == [b[0]] + b[1..];
    }
  }

  /** The values after the first are the values less one copy of the first. */
  lemma TailValues(s: seq<real>)
    requires |s| > 0
    ensures multiset(s[1..]) == multiset(s) - multiset{s[0]}
  {
    assert s == [s[0]] + s[1..];
  }

  /** Number of values left out at each end: floor(n * fraction). */
  function TrimCount(n: nat, fraction: real): (t: nat)
    requires 0.0 <= fraction <= 1.0
    ensures t <= n
  {
    assert 0.0 <= n as real * fraction <= n as real;
    (n as real * fraction).Floor
  }

  /** Mean of sorted[trim .. |sorted| - trim], or 0 when that window is empty. */
  function TrimmedMean(sorted: seq<real>, trim: nat): (mean: real)
    ensures SortedAscending(sorted) && 2 * trim < |sorted| ==> sorted[0] <= mean <= sorted[|sorted| - 1]
    ensures 2 * trim >= |sorted| ==> mean == 0.0
  {
    if 2 * trim < |sorted| then
      assert SortedAscending(sorted) ==>
               sorted[0] <= Sum(sorted[trim..|sorted| - trim]) / (|sorted| - 2 * trim) as real <= sorted[|sorted| - 1] by {
        if SortedAscending(sorted) {
          TrimmedMeanBounds(sorted, trim);
        }
      }
      Sum(sorted[trim..|sorted| - trim]) / (|sorted| - 2 * trim) as real
    else
      0.0
  }

  datatype Summary = Summary(min: real, max: real, average: real)

  /** What the report states for one metric. */
  function Summarize(data: seq<real>, fraction: real): (s: Summary)
    requires |data| > 0
    requires 0.0 <= fraction <= 1.0
    ensures s.min <= s.max
    ensures 2 * TrimCount(|data|, fraction) < |data| ==> s.min <= s.average <= s.max
  {
    SortAscendingSorts(data);
    var sorted := SortAscending(data);
    Summary(sorted[0], sorted[|sorted| - 1], TrimmedMean(sorted, TrimCount(|data|, fraction)))
  }

  /** Minimum and maximum come from the whole data: both occur in it and bound every value. */
  lemma SummaryBounds(data: seq<real>, fraction: real)
    requires |data| > 0
    requires 0.0 <= fraction <= 1.0
    ensures Summarize(data, fraction).min in data
    ensures Summarize(data, fraction).max in data
    ensures forall v :: v in data ==> Summarize(data, fraction).min <= v <= Summarize(data, fraction).max
  {
    var sorted := SortAscending(data);
    SortAscendingSorts(data);
    assert sorted[0] in multiset(data);
    assert sorted[|sorted| - 1] in multiset(data);
    forall v | v in data
      ensures sorted[0] <= v <= sorted[|sorted| - 1]
    {
      assert v in multiset(sorted);
    }
  }

  /** Every value of a sequence in [lo, hi] puts its sum in [|s| * lo, |s| * hi]. */
  lemma {:induction false} SumBounds(s: seq<real>, lo: real, hi: real)
    requires forall k :: 0 <= k < |s| ==> lo <= s[k] <= hi
    ensures |s| as real * lo <= Sum(s) <= |s| as real * hi
  {
    if s != [] {
      SumBounds(s[..|s| - 1], lo, hi);
    }
  }

  /** Removing the element at index k takes it out of the sum. */
  lemma {:induction false} SumRemove(s: seq<real>, k: nat)
    requires k < |s|
    ensures Sum(s) == Sum(s[..k] + s[k + 1..]) + s[k]
  {
    if k < |s| - 1 {
      var init := s[..|s| - 1];
      SumRemove(init, k);
      assert init[..k] + init[k + 1..] == (s[..k] + s[k + 1..])[..|s| - 2];
    } else {
      assert s[..k] + s[k + 1..] == s[..|s| - 1];
    }
  }

  /** The sum does not depend on the order of the values. */
  lemma {:induction false} SumPermutation(a: seq<real>, b: seq<real>)
    requires multiset(a) == multiset(b)
    ensures Sum(a) == Sum(b)
    decreases |a|
  {
    if a == [] {
      assert |b| == |multiset(b)| == 0;
    } else {
      var x := a[|a| - 1];
      assert a == a[..|a| - 1] + [x];
      assert x in multiset(b);
      var k :| 0 <= k < |b| && b[k] == x;
      assert b == b[..k] + [x] + b[k + 1..];
      assert multiset(a[..|a| - 1]) == multiset(a) - multiset{x};
      assert multiset(b[..k] + b[k + 1..]) == multiset(b) - multiset{x};
      SumPermutation(a[..|a| - 1], b[..k] + b[k + 1..]);
      SumRemove(b, k);
    }
  }

  /** A sum bounded by n * lo and n * hi has its mean in [lo, hi]. */
  lemma MeanBounds(sum: real, n: real, lo: real, hi: real)
    requires n > 0.0
    requires n * lo <= sum <= n * hi
    ensures lo <= sum / n <= hi
  {
    var avg := sum / n;
    assert (avg - lo) * n == sum - n * lo;
    assert (hi - avg) * n == n * hi - sum;
  }

  /** The mean of a non-empty window of an ascending sequence lies between its first and last values. */
  lemma TrimmedMeanBounds(sorted: seq<real>, trim: nat)
    requires SortedAscending(sorted)
    requires 2 * trim < |sorted|
    ensures sorted[0] <= Sum(sorted[trim..|sorted| - trim]) / (|sorted| - 2 * trim) as real <= sorted[|sorted| - 1]
  {
    var window := sorted[trim..|sorted| - trim];
    var lo, hi := sorted[0], sorted[|sorted| - 1];
    forall k | 0 <= k < |window|
      ensures lo <= window[k] <= hi
    {
      assert window[k] == sorted[trim + k];
    }
    SumBounds(window, lo, hi);
    MeanBounds(Sum(window), |window| as real, lo, hi);
  }

  /** With no trimming the window is the whole sequence. */
  lemma WholeWindowMean(sorted: seq<real>)
    requires |sorted| > 0
    ensures TrimmedMean(sorted, 0) == Sum(sorted) / |sorted| as real
  {
    assert sorted[0..|sorted| - 0] == sorted;
  }

  /** With nothing trimmed the average is the plain arithmetic mean of the data. */
  lemma NoTrimIsMean(data: seq<real>)
    requires |data| > 0
    ensures Summarize(data, 0.0).average == Sum(data) / |data| as real
  {
    var sorted := SortAscending(data);
    assert TrimCount(|data|, 0.0) == 0;
    assert Summarize(data, 0.0).average == TrimmedMean(sorted, 0);
    WholeWindowMean(sorted);
    SortAscendingSorts(data);
    SumPermutation(sorted, data);
  }

  /** Sum of the example's averaging window 2..9. */
  lemma WindowSumExample()
    ensures Sum([2.0, 3.0, 4.0, 5.0, 6.0, 7.0, 8.0, 9.0]) == 44.0
  {
    var w := [2.0, 3.0, 4.0, 5.0, 6.0, 7.0, 8.0, 9.0];
    assert Sum(w[..1]) == 2.0;
    assert Sum(w[..2]) == 5.0 by { assert w[..2][..1] == w[..1]; }
    assert Sum(w[..3]) == 9.0 by { assert w[..3][..2] == w[..2]; }
    assert Sum(w[..4]) == 14.0 by { assert w[..4][..3] == w[..3]; }
    assert Sum(w[..5]) == 20.0 by { assert w[..5][..4] == w[..4]; }
    assert Sum(w[..6]) == 27.0 by { assert w[..6][..5] == w[..5]; }
    assert Sum(w[..7]) == 35.0 by { assert w[..7][..6] == w[..6]; }
    assert w[..8] == w;
    assert w[..8][..7] == w[..7];
  }

  /** On data that is already ascending the summary reads straight off the data. */
  lemma SummarizeAscending(data: seq<real>, fraction: real)
    requires |data| > 0
    requires 0.0 <= fraction <= 1.0
    requires SortedAscending(data)
    ensures Summarize(data, fraction)
         == Summary(data[0], data[|data| - 1], TrimmedMean(data, TrimCount(|data|, fraction)))
  {
    SortAscendingSorts(data);
    SortedPermutationsEqual(SortAscending(data), data);
  }

  /** The example data 1..10 is already ascending. */
  lemma OneToTenAscending()
    ensures SortedAscending([1.0, 2.0, 3.0, 4.0, 5.0, 6.0, 7.0, 8.0, 9.0, 10.0])
  {
    var data := [1.0, 2.0, 3.0, 4.0, 5.0, 6.0, 7.0, 8.0, 9.0, 10.0];
    forall i, j | 0 <= i <= j < |data| ensures data[i] <= data[j] {
      assert data[i] == (i + 1) as real && data[j] == (j + 1) as real;
    }
  }

  /** The example's trimmed mean: one value off each end of 1..10 leaves 2..9. */
  lemma OneToTenTrimmedMean()
    ensures TrimmedMean([1.0, 2.0, 3.0, 4.0, 5.0, 6.0, 7.0, 8.0, 9.0, 10.0], 1) == 5.5
  {
    var data := [1.0, 2.0, 3.0, 4.0, 5.0, 6.0, 7.0, 8.0, 9.0, 10.0];
    assert data[1..9] == [2.0, 3.0, 4.0, 5.0, 6.0, 7.0, 8.0, 9.0];
    WindowSumExample();
  }

  /** The documented example: 1..10 with fraction 0.1 trims one value at each end. */
  lemma OneToTenExample()
    ensures Summarize([1.0, 2.0, 3.0, 4.0, 5.0, 6.0, 7.0, 8.0, 9.0, 10.0], 0.1)
         == Summary(1.0, 10.0, 5.5)
  {
    OneToTenAscending();
    OneToTenTrimmedMean();
    assert TrimCount(10, 0.1) == 1;
    SummarizeAscending([1.0, 2.0, 3.0, 4.0, 5.0, 6.0, 7.0, 8.0, 9.0, 10.0], 0.1);
  }
}
