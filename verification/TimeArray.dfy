/** Estimating each replica's iteration time from its measured compute latency.

    A replica within `threshold` times the median latency keeps the normal iteration time; a slower one
    is placed on the line through (lowest latency, normal time) and (highest latency, slow time).
    Arithmetic is exact. */
module TimeArray {
  import opened Wrappers
  import opened ReplicaMax
  import opened FiniteSets
  import opened RealSeqs

  // ----- Minimum, maximum and median -----

  function Min(xs: seq<real>): (m: real)
    requires xs != []
    ensures m in xs && forall i :: 0 <= i < |xs| ==> m <= xs[i]
  {
    if |xs| == 1 then xs[0] else
      var m := Min(xs[..|xs| - 1]); if xs[|xs| - 1] < m then xs[|xs| - 1] else m
  }

  function Max(xs: seq<real>): (m: real)
    requires xs != []
    ensures m in xs && forall i :: 0 <= i < |xs| ==> xs[i] <= m
  {
    if |xs| == 1 then xs[0] else
      var m := Max(xs[..|xs| - 1]); if xs[|xs| - 1] > m then xs[|xs| - 1] else m
  }

  ghost predicate Sorted(xs: seq<real>) {
    forall i, j :: 0 <= i < j < |xs| ==> xs[i] <= xs[j]
  }

  function Insert(x: real, xs: seq<real>): (r: seq<real>)
    requires Sorted(xs)
    ensures Sorted(r) && multiset(r) == multiset(xs) + multiset{x}
    ensures |r| == |xs| + 1 && forall i :: 0 <= i < |r| ==> r[i] == x || r[i] in xs
  {
    var n := |xs| - 1;
    if xs == [] || xs[n] <= x then xs + [x]
    else
      assert xs == xs[..n] + [xs[n]];
      Insert(x, xs[..n]) + [xs[n]]
  }

  function Sort(xs: seq<real>): (r: seq<real>)
    ensures Sorted(r) && multiset(r) == multiset(xs) && |r| == |xs|
  {
    if xs == [] then []
    else
      assert xs == xs[..|xs| - 1] + [xs[|xs| - 1]];
      Insert(xs[|xs| - 1], Sort(xs[..|xs| - 1]))
  }

  /** The middle of sorted values, or the mean of the two in the middle. */
  function Middle(s: seq<real>): real
    requires s != []
  {
    var n := |s|;
    if n % 2 == 1 then s[n / 2] else (s[n / 2 - 1] + s[n / 2]) / 2.0
  }

  function Median(xs: seq<real>): real
    requires xs != []
  {
    Middle(Sort(xs))
  }

  lemma MiddleBetween(s: seq<real>)
    requires s != [] && Sorted(s)
    ensures s[(|s| - 1) / 2] <= Middle(s) <= s[|s| / 2]
  {
    assert |s| % 2 == 0 ==> (|s| - 1) / 2 == |s| / 2 - 1;
    assert |s| % 2 == 1 ==> (|s| - 1) / 2 == |s| / 2;
  }

  lemma MiddleSplits(s: seq<real>, i: nat)
    requires i < |s| && Sorted(s)
    ensures i <= (|s| - 1) / 2 ==> s[i] <= Middle(s)
    ensures i >= |s| / 2 ==> s[i] >= Middle(s)
  {
    MiddleBetween(s);
  }

  /** Half of the sorted values lie at or below the median and half at or above it. */
  lemma MedianSplits(xs: seq<real>, i: nat)
    requires i < |xs|
    ensures i <= (|xs| - 1) / 2 ==> Sort(xs)[i] <= Median(xs)
    ensures i >= |xs| / 2 ==> Sort(xs)[i] >= Median(xs)
  {
    MiddleSplits(Sort(xs), i);
  }

  lemma SortedIn(xs: seq<real>, i: nat)
    requires i < |xs|
    ensures Sort(xs)[i] in xs
  {
    assert Sort(xs)[i] in multiset(Sort(xs));
  }

  datatype Stats = Stats(min: real, max: real, median: real)

  function StatsOf(xs: seq<real>): Stats
    requires xs != []
  {
    Stats(Min(xs), Max(xs), Median(xs))
  }

  lemma MedianInRange(xs: seq<real>)
    requires xs != []
    ensures StatsOf(xs).min <= StatsOf(xs).median <= StatsOf(xs).max
  {
    MedianSplits(xs, 0);
    MedianSplits(xs, |xs| - 1);
    SortedIn(xs, 0);
    SortedIn(xs, |xs| - 1);
  }

  lemma TwiceMiddle(s: seq<real>)
    requires s != []
    ensures 2.0 * Middle(s) == s[(|s| - 1) / 2] + s[|s| / 2]
  {
    assert |s| % 2 == 0 ==> (|s| - 1) / 2 == |s| / 2 - 1;
    assert |s| % 2 == 1 ==> (|s| - 1) / 2 == |s| / 2;
  }

  /** The lowest and the highest value, which are among the values, and the median: twice the median is the
      sum of the two values in the middle, which are one when their number is odd. */
  lemma StatsMeaning(xs: seq<real>, sorted: seq<real>)
    requires xs != [] && sorted == Sort(xs)
    ensures StatsOf(xs).min in xs && StatsOf(xs).max in xs && forall i :: 0 <= i < |xs| ==> StatsOf(xs).min <= xs[i] <= StatsOf(xs).max
    ensures |sorted| == |xs| && 2.0 * StatsOf(xs).median == sorted[(|xs| - 1) / 2] + sorted[|xs| / 2]
  {
    TwiceMiddle(sorted);
  }

  lemma StatsRange(xs: seq<real>, x: real)
    requires x in xs
    ensures StatsOf(xs).min <= x <= StatsOf(xs).max
  {
  }

  // ----- The estimate -----

  function Limit(threshold: real, median: real): real {
    threshold * median
  }

  predicate IsSlow(st: Stats, lat: real, threshold: real) {
    lat > Limit(threshold, st.median)
  }

  lemma ScaledMedian(threshold: real, median: real)
    requires median > 0.0
    ensures median > Limit(threshold, median) <==> threshold < 1.0
  {
    assert threshold * median - median == (threshold - 1.0) * median;
  }

  lemma SlowWhenEqual(st: Stats, lat: real, threshold: real)
    requires st.max == st.min == st.median == lat > 0.0
    ensures IsSlow(st, lat, threshold) <==> threshold < 1.0
  {
    ScaledMedian(threshold, lat);
  }

  ghost predicate DividesByZero(lats: seq<real>, threshold: real)
    requires lats != []
  {
    StatsOf(lats).max == StatsOf(lats).min && exists i :: 0 <= i < |lats| && IsSlow(StatsOf(lats), lats[i], threshold)
  }

  /** A slow replica at threshold one or more forces the highest latency above the lowest, so the slope
      divides by zero exactly when the threshold is below one and all latencies are equal. */
  lemma DividesByZeroIff(lats: seq<real>, threshold: real)
    requires lats != [] && Positive(lats)
    ensures DividesByZero(lats, threshold) <==> threshold < 1.0 && StatsOf(lats).max == StatsOf(lats).min
  {
    var st := StatsOf(lats);
    MedianInRange(lats);
    if st.max == st.min {
      forall i | 0 <= i < |lats| ensures IsSlow(st, lats[i], threshold) <==> threshold < 1.0 {
        StatsRange(lats, lats[i]);
        SlowWhenEqual(st, lats[i], threshold);
      }
      assert IsSlow(st, lats[0], threshold) <==> threshold < 1.0;
    }
  }

  function Slope(st: Stats, minIter: real, slowIter: real): real
    requires st.max > st.min
  {
    (slowIter - minIter) / (st.max - st.min)
  }

  function Estimate(st: Stats, lat: real, threshold: real, minIter: real, slowIter: real): real
    requires IsSlow(st, lat, threshold) ==> st.max > st.min
  {
    if !IsSlow(st, lat, threshold) then minIter
    else
      var slope := Slope(st, minIter, slowIter);
      var intercept := slowIter - slope * st.max;
      slope * lat + intercept
  }

  lemma Line(slope: real, x: real, top: real, bottom: real, slow: real, min: real)
    requires slope * (top - bottom) == slow - min
    ensures slope * x + (slow - slope * top) == slow - slope * (top - x) == min + slope * (x - bottom)
  {
  }

  lemma TimesNonNegative(x: real, y: real)
    requires x >= 0.0 && y >= 0.0
    ensures x * y >= 0.0
  {
  }

  lemma SlopeFacts(a: real, d: real)
    requires a >= 0.0 && d > 0.0
    ensures a / d >= 0.0 && a / d * d == a
  {
  }

  /** A slow replica lies on the line through (lowest latency, normal time) and (highest latency, slow time). */
  lemma SlowOnLine(st: Stats, lat: real, threshold: real, minIter: real, slowIter: real)
    requires st.max > st.min && slowIter >= minIter && IsSlow(st, lat, threshold)
    ensures Estimate(st, lat, threshold, minIter, slowIter) == minIter + Slope(st, minIter, slowIter) * (lat - st.min)
    ensures Estimate(st, lat, threshold, minIter, slowIter) == slowIter - Slope(st, minIter, slowIter) * (st.max - lat)
  {
    SlopeFacts(slowIter - minIter, st.max - st.min);
    Line(Slope(st, minIter, slowIter), lat, st.max, st.min, slowIter, minIter);
  }

  /** Every estimate lies between the normal and the slow iteration time, and the slowest replica, if it
      is slow at all, gets the slow time. */
  lemma EstimateInRange(st: Stats, lat: real, threshold: real, minIter: real, slowIter: real)
    requires st.min <= lat <= st.max && (IsSlow(st, lat, threshold) ==> st.max > st.min) && slowIter >= minIter
    ensures minIter <= Estimate(st, lat, threshold, minIter, slowIter) <= slowIter
    ensures lat == st.max && IsSlow(st, lat, threshold) ==> Estimate(st, lat, threshold, minIter, slowIter) == slowIter
  {
    if IsSlow(st, lat, threshold) {
      var slope := Slope(st, minIter, slowIter);
      SlowOnLine(st, lat, threshold, minIter, slowIter);
      SlopeFacts(slowIter - minIter, st.max - st.min);
      TimesNonNegative(slope, lat - st.min);
      TimesNonNegative(slope, st.max - lat);
    }
  }

  lemma ScaledGap(slope: real, x: real, y: real)
    requires slope >= 0.0 && x <= y
    ensures slope * x <= slope * y
  {
    TimesNonNegative(slope, y - x);
    assert slope * (y - x) == slope * y - slope * x;
  }

  /** A replica with a larger latency never gets a smaller estimate. */
  lemma EstimateMonotone(st: Stats, a: real, b: real, threshold: real, minIter: real, slowIter: real)
    requires st.min <= a <= b <= st.max && (IsSlow(st, b, threshold) ==> st.max > st.min) && slowIter >= minIter
    ensures Estimate(st, a, threshold, minIter, slowIter) <= Estimate(st, b, threshold, minIter, slowIter)
  {
    EstimateInRange(st, b, threshold, minIter, slowIter);
    if IsSlow(st, a, threshold) {
      SlowOnLine(st, a, threshold, minIter, slowIter);
      SlowOnLine(st, b, threshold, minIter, slowIter);
      SlopeFacts(slowIter - minIter, st.max - st.min);
      ScaledGap(Slope(st, minIter, slowIter), a - st.min, b - st.min);
    }
  }

  // ----- The array -----

  function Latencies(times: Results, order: seq<nat>): (r: seq<real>)
    requires forall i :: 0 <= i < |order| ==> order[i] in times
    ensures |r| == |order| && forall i :: 0 <= i < |r| ==> r[i] == times[order[i]].avgLat
  {
    seq(|order|, i requires 0 <= i < |order| => times[order[i]].avgLat)
  }

  ghost function Below(n: nat): (r: set<nat>)
    ensures |r| == n && forall i: nat :: i in r <==> i < n
  {
    if n == 0 then {} else Below(n - 1) + {n - 1}
  }

  /** Distinct ranks below their number are all the ranks below it. */
  lemma RanksFill(order: seq<nat>, r: nat)
    requires forall i, j :: 0 <= i < j < |order| ==> order[i] != order[j]
    requires forall i :: 0 <= i < |order| ==> order[i] < |order|
    requires r < |order|
    ensures r in order
  {
    DistinctSize(order);
    FullSubset(Elements(order), Below(|order|));
    assert r in Elements(order);
  }

  /** An entry of the array: the estimate, or not a number when a slow replica's slope divides by zero. */
  function Entry(st: Stats, lat: real, threshold: real, minIter: real, slowIter: real): Option<real> {
    if IsSlow(st, lat, threshold) && st.max <= st.min then None else Some(Estimate(st, lat, threshold, minIter, slowIter))
  }

  ghost predicate Filled(time: seq<Option<real>>, times: Results, order: seq<nat>, n: nat, st: Stats, threshold: real,
                         minIter: real, slowIter: real)
    requires n <= |order|
  {
    forall i :: 0 <= i < n ==>
      && order[i] < |time| && order[i] in times
      && time[order[i]] == Entry(st, times[order[i]].avgLat, threshold, minIter, slowIter)
  }

  lemma FilledOne(time: seq<Option<real>>, times: Results, order: seq<nat>, n: nat, st: Stats, threshold: real,
                  minIter: real, slowIter: real)
    requires n < |order| && Filled(time, times, order, n, st, threshold, minIter, slowIter)
    requires forall i, j :: 0 <= i < j < |order| ==> order[i] != order[j]
    requires order[n] < |time| && order[n] in times
    ensures Filled(time[order[n] := Entry(st, times[order[n]].avgLat, threshold, minIter, slowIter)],
                   times, order, n + 1, st, threshold, minIter, slowIter)
  {
  }

  lemma AllFilled(time: seq<Option<real>>, times: Results, order: seq<nat>, st: Stats, threshold: real,
                  minIter: real, slowIter: real, r: nat)
    requires Filled(time, times, order, |order|, st, threshold, minIter, slowIter)
    requires forall i, j :: 0 <= i < j < |order| ==> order[i] != order[j]
    requires |time| == |order| && r < |time|
    ensures r in times && time[r] == Entry(st, times[r].avgLat, threshold, minIter, slowIter)
  {
    RanksFill(order, r);
  }

  /** Some entry is not a number exactly when the slope divides by zero. */
  lemma EntryMissingIff(lats: seq<real>, threshold: real, minIter: real, slowIter: real)
    requires lats != []
    ensures (exists i :: 0 <= i < |lats| && Entry(StatsOf(lats), lats[i], threshold, minIter, slowIter).None?)
            <==> DividesByZero(lats, threshold)
  {
    MedianInRange(lats);
  }

  /** For positive latencies and a threshold of at least one, the entries of any two measured replicas
      are numbers between the normal and the slow time, ordered as the latencies are. */
  lemma TimesFollowLatencies(lats: seq<real>, i: nat, j: nat, threshold: real, minIter: real, slowIter: real)
    requires Positive(lats) && threshold >= 1.0 && slowIter >= minIter && i < |lats| && j < |lats|
    ensures var x, y := Entry(StatsOf(lats), lats[i], threshold, minIter, slowIter),
                        Entry(StatsOf(lats), lats[j], threshold, minIter, slowIter);
            && x.Some? && y.Some? && minIter <= x.value <= slowIter && (lats[i] <= lats[j] ==> x.value <= y.value)
  {
    DividesByZeroIff(lats, threshold);
    EntryMissingIff(lats, threshold, minIter, slowIter);
    StatsRange(lats, lats[i]);
    StatsRange(lats, lats[j]);
    EstimateInRange(StatsOf(lats), lats[i], threshold, minIter, slowIter);
    if lats[i] <= lats[j] {
      EstimateMonotone(StatsOf(lats), lats[i], lats[j], threshold, minIter, slowIter);
    }
  }

  lemma SlopePositive(a: real, d: real, x: real)
    requires a > 0.0 && d > 0.0 && x > 0.0
    ensures a / d * x > 0.0
  {
    SlopeFacts(a, d);
    assert a / d > 0.0;
  }

  lemma AboveMedian(threshold: real, median: real, lat: real)
    requires median > 0.0 && threshold >= 1.0 && lat > Limit(threshold, median)
    ensures lat > median
  {
    ScaledMedian(threshold, median);
  }

  /** A slow replica's estimate is above the normal time. */
  lemma SlowIsLater(st: Stats, lat: real, threshold: real, minIter: real, slowIter: real)
    requires 0.0 < st.min <= st.median && st.min < lat <= st.max && slowIter > minIter && IsSlow(st, lat, threshold)
    ensures st.max > st.min && Estimate(st, lat, threshold, minIter, slowIter) > minIter
  {
    SlowOnLine(st, lat, threshold, minIter, slowIter);
    SlopePositive(slowIter - minIter, st.max - st.min, lat - st.min);
  }

  lemma EntryIsNormalIff(st: Stats, lat: real, threshold: real, minIter: real, slowIter: real)
    requires 0.0 < st.min <= st.median && st.min <= lat <= st.max && threshold >= 1.0 && slowIter > minIter
    ensures Entry(st, lat, threshold, minIter, slowIter) == Some(minIter) <==> lat <= threshold * st.median
  {
    if IsSlow(st, lat, threshold) {
      AboveMedian(threshold, st.median, lat);
      SlowIsLater(st, lat, threshold, minIter, slowIter);
    }
  }

  lemma StatsPositive(lats: seq<real>, st: Stats)
    requires lats != [] && Positive(lats) && st == StatsOf(lats)
    ensures 0.0 < st.min <= st.median
  {
    MedianInRange(lats);
  }

  lemma MeasuredIsInRange(lats: seq<real>, st: Stats, lat: real)
    requires Positive(lats) && lat in lats && st == StatsOf(lats)
    ensures 0.0 < st.min <= st.median && st.min <= lat <= st.max
  {
    StatsRange(lats, lat);
    StatsPositive(lats, st);
  }

  /** The measured replicas that keep the normal time are exactly those within `threshold` times the median. */
  lemma NormalTimeIff(lats: seq<real>, st: Stats, lat: real, threshold: real, minIter: real, slowIter: real)
    requires Positive(lats) && lat in lats && st == StatsOf(lats) && threshold >= 1.0 && slowIter > minIter
    ensures Entry(st, lat, threshold, minIter, slowIter) == Some(minIter) <==> lat <= threshold * st.median
  {
    MeasuredIsInRange(lats, st, lat);
    EntryIsNormalIff(st, lat, threshold, minIter, slowIter);
  }

  /** `get_time_array`; it fails on an empty dictionary and on a rank outside the array. */
  method GetTimeArray(times: Results, order: seq<nat>, threshold: real, minIter: real, slowIter: real)
      returns (time: array<Option<real>>, ok: bool)
    requires forall r: nat :: r in times <==> r in order
    requires forall i, j :: 0 <= i < j < |order| ==> order[i] != order[j]
    ensures time.Length == |order|
    ensures ok <==> order != [] && forall i :: 0 <= i < |order| ==> order[i] < |order|
    ensures ok ==> forall r: nat :: r < time.Length ==>
      r in times && time[r] == Entry(StatsOf(Latencies(times, order)), times[r].avgLat, threshold, minIter, slowIter)
  {
    time := new Option<real>[|order|](_ => Some(0.0));
    if order == [] {
      return time, false;
    }
    var st := StatsOf(Latencies(times, order));
    for n := 0 to |order|
      invariant Filled(time[..], times, order, n, st, threshold, minIter, slowIter)
    {
      var rank := order[n];
      if rank >= time.Length {
        return time, false;
      }
      FilledOne(time[..], times, order, n, st, threshold, minIter, slowIter);
      time[rank] := Entry(st, times[rank].avgLat, threshold, minIter, slowIter);
    }
    forall r: nat | r < time.Length
      ensures r in times && time[r] == Entry(st, times[r].avgLat, threshold, minIter, slowIter)
    {
      AllFilled(time[..], times, order, st, threshold, minIter, slowIter, r);
    }
    return time, true;
  }
}
