/** The trend lines of the comparison chart: which finds the regression
    looks at, where the fitted line is anchored, when one user catches up
    with the other, and the clamped predictions drawn into the future.

    Dates are whole day numbers (`Timestamp.DayNumber`): the dates the
    chart uses are midnights, so `(a - b).days` is the difference of their
    day numbers. Counts are the running totals, slopes and intercepts are
    exact reals. */
module Trend {
  import opened Wrappers
  import opened Timestamp
  import opened Finds

  predicate NonDecreasing(s: seq<int>)
  {
    forall i, j :: 0 <= i <= j < |s| ==> s[i] <= s[j]
  }

  /** The indices `s, s + 1, ..., n - 1`. */
  function Suffix(n: nat, s: nat): (w: seq<nat>)
    requires s <= n
    ensures |w| == n - s
    ensures forall k :: 0 <= k < |w| ==> w[k] == s + k
    ensures forall i :: i in w <==> s <= i < n
    ensures forall k, l :: 0 <= k < l < |w| ==> w[k] < w[l]
  {
    var w := seq(n - s, k requires 0 <= k < n - s => s + k);
    RunMembers(n, s, w);
    w
  }

  lemma RunMembers(n: nat, s: nat, w: seq<nat>)
    requires s <= n && |w| == n - s && forall k :: 0 <= k < |w| ==> w[k] == s + k
    ensures forall i :: i in w <==> s <= i < n
  {
    forall i | s <= i < n ensures i in w {
      assert w[i - s] == i;
    }
  }

  /** `[i for i, d in enumerate(days[..n]) if d >= cutoff]`. */
  function IndicesFrom(days: seq<int>, cutoff: int, n: nat): (w: seq<nat>)
    requires n <= |days|
    ensures |w| <= n
    ensures forall k :: 0 <= k < |w| ==> w[k] < n && days[w[k]] >= cutoff
    ensures forall i :: 0 <= i < n && days[i] >= cutoff ==> i in w
    ensures forall k, l :: 0 <= k < l < |w| ==> w[k] < w[l]
  {
    if n == 0 then []
    else
      var prev := IndicesFrom(days, cutoff, n - 1);
      if days[n - 1] >= cutoff then prev + [n - 1] else prev
  }

  /** The first date of the window `recentDays` back from the last date. */
  function Cutoff(days: seq<int>, recentDays: int): int
    requires |days| > 0
  {
    days[|days| - 1] - recentDays
  }

  /** Lines 107-113 of the regression: the indices whose date is no earlier
      than the cutoff, or every index when fewer than two qualify. */
  function RecentWindow(days: seq<int>, recentDays: int): (w: seq<nat>)
    requires |days| > 0
    ensures forall i :: 0 <= i < |days| ==>
              (i in w <==> days[i] >= Cutoff(days, recentDays)
                           || |IndicesFrom(days, Cutoff(days, recentDays), |days|)| < 2)
    ensures forall k :: 0 <= k < |w| ==> w[k] < |days|
    ensures forall k, l :: 0 <= k < l < |w| ==> w[k] < w[l]
    ensures recentDays >= 0 ==> |days| - 1 in w
    ensures |days| >= 2 ==> |w| >= 2
  {
    var recent := IndicesFrom(days, Cutoff(days, recentDays), |days|);
    if |recent| < 2 then Suffix(|days|, 0)
    else
      recent
  }

  /** `w` is the last `|w|` indices below `n`, in order. */
  predicate EndsRun(w: seq<nat>, n: nat)
  {
    forall k :: 0 <= k < |w| ==> w[k] == n - |w| + k
  }

  /** Over sorted dates the qualifying indices are the last `|w|` indices
      considered, without a gap. */
  lemma {:induction false} SortedIndicesSuffix(days: seq<int>, cutoff: int, n: nat)
    requires n <= |days| && NonDecreasing(days)
    ensures EndsRun(IndicesFrom(days, cutoff, n), n)
  {
    if n > 0 {
      var prev := IndicesFrom(days, cutoff, n - 1);
      var w := IndicesFrom(days, cutoff, n);
      SortedIndicesSuffix(days, cutoff, n - 1);
      if days[n - 1] < cutoff {
        assert w == prev;
      } else {
        assert w == prev + [n - 1];
        forall k | 0 <= k < |w| ensures w[k] == n - |w| + k {
          if k < |prev| {
            assert w[k] == prev[k] == n - 1 - |prev| + k;
          } else {
            assert w[k] == n - 1;
          }
        }
      }
    }
  }

  /** Over sorted dates the window is a run of consecutive indices that
      ends with the last date. */
  lemma WindowIsSuffix(days: seq<int>, recentDays: int)
    requires |days| > 0 && NonDecreasing(days)
    ensures exists s :: 0 <= s < |days| && RecentWindow(days, recentDays) == Suffix(|days|, s)
  {
    var recent := IndicesFrom(days, Cutoff(days, recentDays), |days|);
    SortedIndicesSuffix(days, Cutoff(days, recentDays), |days|);
    if |recent| < 2 {
      assert RecentWindow(days, recentDays) == Suffix(|days|, 0);
    } else {
      var run := Suffix(|days|, |days| - |recent|);
      assert forall k :: 0 <= k < |recent| ==> recent[k] == run[k];
      assert RecentWindow(days, recentDays) == run;
    }
  }

  /** The x values handed to the fit: days since the window's first date. */
  function Offsets(days: seq<int>, window: seq<nat>): (xs: seq<int>)
    requires |window| > 0 && forall k :: 0 <= k < |window| ==> window[k] < |days|
    ensures |xs| == |window| && xs[0] == 0
  {
    seq(|window|, k requires 0 <= k < |window| => days[window[k]] - days[window[0]])
  }

  /** The y values handed to the fit: the totals inside the window. */
  function Picked(counts: seq<int>, window: seq<nat>): (ys: seq<int>)
    requires forall k :: 0 <= k < |window| ==> window[k] < |counts|
    ensures |ys| == |window|
    ensures forall k :: 0 <= k < |window| ==> ys[k] == counts[window[k]]
  {
    seq(|window|, k requires 0 <= k < |window| => counts[window[k]])
  }

  /** A fitted line `count = slope * (day - first day) + intercept`. */
  datatype Line = Line(slope: real, intercept: real)

  /** `linear_regression`: fewer than two dates give the flat line (0, 0);
      otherwise the slope is whatever the least-squares fit (a parameter,
      the library's `linregress`) makes of the window alone, and the
      intercept is moved so that the line meets the last known total, so
      that predicting the last date from the first gives that total back. */
  function LinearRegression(days: seq<int>, counts: seq<int>, recentDays: int,
                            linregress: (seq<int>, seq<int>) -> real): (t: Line)
    requires |counts| == |days|
    ensures |days| < 2 ==> t == Line(0.0, 0.0)
    ensures |days| >= 2 ==>
              t.slope * (days[|days| - 1] - days[0]) as real + t.intercept == counts[|counts| - 1] as real
    ensures |days| >= 2 && counts[|counts| - 1] >= 0 ==>
              Prediction(t.slope, t.intercept, days[|days| - 1] - days[0]) == counts[|counts| - 1] as real
  {
    if |days| < 2 then Line(0.0, 0.0)
    else Anchored(WindowSlope(days, counts, recentDays, linregress), days[|days| - 1] - days[0], counts[|counts| - 1])
  }

  /** The slope `linregress` fits to the window's day offsets and totals. */
  function WindowSlope(days: seq<int>, counts: seq<int>, recentDays: int,
                       linregress: (seq<int>, seq<int>) -> real): real
    requires |counts| == |days| > 0
  {
    var window := RecentWindow(days, recentDays);
    linregress(Offsets(days, window), Picked(counts, window))
  }

  /** The line of the given slope that reaches `total` after `span` days. */
  function Anchored(slope: real, span: int, total: int): (t: Line)
    ensures t.slope == slope && t.slope * span as real + t.intercept == total as real
  {
    Line(slope, total as real - slope * span as real)
  }

  /** The fit sees only the window: data outside it (older than the cutoff,
      while at least two dates qualify) cannot change the slope. */
  lemma SlopeFromWindow(days: seq<int>, counts: seq<int>, recentDays: int,
                        linregress: (seq<int>, seq<int>) -> real)
    requires |counts| == |days| >= 2 && recentDays >= 0
    ensures var w := RecentWindow(days, recentDays);
            LinearRegression(days, counts, recentDays, linregress).slope
              == linregress(Offsets(days, w), Picked(counts, w))
            && |w| >= 2 && w[|w| - 1] == |days| - 1
  {
    var w := RecentWindow(days, recentDays);
    var k :| 0 <= k < |w| && w[k] == |days| - 1;
    assert w[k] <= w[|w| - 1];
  }

  /** Over sorted dates the fit's x values are day offsets that start at
      zero and never decrease. */
  lemma OffsetsSorted(days: seq<int>, recentDays: int)
    requires |days| > 0 && NonDecreasing(days)
    ensures var xs := Offsets(days, RecentWindow(days, recentDays));
            xs[0] == 0 && NonDecreasing(xs)
  {
    var w := RecentWindow(days, recentDays);
    var xs := Offsets(days, w);
    forall i, j | 0 <= i <= j < |xs| ensures xs[i] <= xs[j] {
      if i < j {
        assert w[i] < w[j];
      }
    }
  }

  /** Over running totals that never fall, the fit's y values never fall
      either. */
  lemma PickedSorted(days: seq<int>, counts: seq<int>, recentDays: int)
    requires |days| > 0 && |counts| == |days| && NonDecreasing(counts)
    ensures NonDecreasing(Picked(counts, RecentWindow(days, recentDays)))
  {
    var w := RecentWindow(days, recentDays);
    var ys := Picked(counts, w);
    forall i, j | 0 <= i <= j < |ys| ensures ys[i] <= ys[j] {
      if i < j {
        assert w[i] < w[j];
      }
    }
  }

  /** What `predict_catch_date` gives: the `(None, False)` pair, a catch
      date, or the `OverflowError` that adding the days to catch up raises
      when the date would fall after the last day a `datetime` holds. */
  datatype CatchOutcome = NoCatch | CatchOn(day: real) | CatchDateOverflow

  /** The first instant after 9999-12-31, as a day number. */
  const END_OF_CALENDAR: real := (MAX_DAY_NUMBER + 1) as real

  /** `predict_catch_date`: the day on which the first user's trend, drawn
      from their last total, reaches the second user's trend drawn from
      theirs; `NoCatch` when the first user is not faster or is already
      level or ahead; an overflow when that day is past the calendar's end.
      The intercepts and the second user's dates are parameters the source
      does not use. */
  function PredictCatchDate(dates1: seq<int>, counts1: seq<int>, slope1: real, intercept1: real,
                            dates2: seq<int>, counts2: seq<int>, slope2: real, intercept2: real): (r: CatchOutcome)
    requires slope1 > slope2 ==> |counts1| > 0 && |counts2| > 0
    requires slope1 > slope2 && counts2[|counts2| - 1] > counts1[|counts1| - 1] ==> |dates1| > 0
    ensures !r.NoCatch? <==> slope1 > slope2 && counts2[|counts2| - 1] > counts1[|counts1| - 1]
    ensures r.CatchDateOverflow? <==>
              && slope1 > slope2 && counts2[|counts2| - 1] > counts1[|counts1| - 1]
              && dates1[|dates1| - 1] as real
                 + (counts2[|counts2| - 1] - counts1[|counts1| - 1]) as real / (slope1 - slope2) >= END_OF_CALENDAR
    ensures r.CatchOn? ==> dates1[|dates1| - 1] as real < r.day < END_OF_CALENDAR
    ensures r.CatchOn? ==>
              var t := r.day - dates1[|dates1| - 1] as real;
              counts1[|counts1| - 1] as real + slope1 * t == counts2[|counts2| - 1] as real + slope2 * t
  {
    if slope1 <= slope2 then NoCatch
    else
      var currentDiff := counts2[|counts2| - 1] - counts1[|counts1| - 1];
      if currentDiff <= 0 then NoCatch
      else
        var dailyGain := slope1 - slope2;
        var daysToCatch := currentDiff as real / dailyGain;
        if daysToCatch < 0.0 then NoCatch
        else if dates1[|dates1| - 1] as real + daysToCatch >= END_OF_CALENDAR then CatchDateOverflow
        else CatchOn(dates1[|dates1| - 1] as real + daysToCatch)
  }

  /** `max(0, slope * days + intercept)`: the trend value, floored at zero. */
  function Prediction(slope: real, intercept: real, days: int): (p: real)
    ensures p >= 0.0 && p >= slope * days as real + intercept
    ensures p == 0.0 || p == slope * days as real + intercept
  {
    var v := slope * days as real + intercept;
    if 0.0 >= v then 0.0 else v
  }

  /** `predict_counts`: one prediction per future date, measured from the
      base date. */
  method PredictCounts(dates: seq<int>, slope: real, intercept: real, baseDate: int, futureDates: seq<int>)
    returns (predictions: seq<real>)
    ensures |predictions| == |futureDates|
    ensures forall i :: 0 <= i < |futureDates| ==>
              predictions[i] == Prediction(slope, intercept, futureDates[i] - baseDate)
  {
    predictions := [];
    for i := 0 to |futureDates|
      invariant |predictions| == i
      invariant forall k :: 0 <= k < i ==> predictions[k] == Prediction(slope, intercept, futureDates[k] - baseDate)
    {
      var days := futureDates[i] - baseDate;
      predictions := predictions + [Prediction(slope, intercept, days)];
    }
  }

  /** A rising (or flat) trend never predicts fewer finds for a later
      date. */
  lemma PredictionMonotone(slope: real, intercept: real, d1: int, d2: int)
    requires slope >= 0.0 && d1 <= d2
    ensures Prediction(slope, intercept, d1) <= Prediction(slope, intercept, d2)
  {
    assert slope * d1 as real <= slope * d2 as real by {
      assert slope * (d2 - d1) as real >= 0.0;
    }
  }

  /** The future dates of the chart: every 30 days from the current date,
      for a year (`range(0, 365, 30)`). */
  function FutureDates(lastDate: int): (fs: seq<int>)
    ensures |fs| == 13 && fs[0] == lastDate
    ensures forall i, j :: 0 <= i < j < |fs| ==> fs[i] < fs[j]
    ensures forall i :: 0 <= i < |fs| ==> lastDate <= fs[i] < lastDate + 365
  {
    seq(13, i requires 0 <= i < 13 => lastDate + 30 * i)
  }

  /** With a rising trend the predicted curve over the future dates never
      falls. */
  lemma FuturePredictionsRise(slope: real, intercept: real, baseDate: int, lastDate: int)
    requires slope >= 0.0
    ensures var fs := FutureDates(lastDate);
            forall i, j :: 0 <= i <= j < |fs| ==>
              Prediction(slope, intercept, fs[i] - baseDate) <= Prediction(slope, intercept, fs[j] - baseDate)
  {
    var fs := FutureDates(lastDate);
    forall i, j | 0 <= i <= j < |fs|
      ensures Prediction(slope, intercept, fs[i] - baseDate) <= Prediction(slope, intercept, fs[j] - baseDate)
    {
      PredictionMonotone(slope, intercept, fs[i] - baseDate, fs[j] - baseDate);
    }
  }

  /** The day numbers of a series of plot dates. */
  function DaySeries(dates: seq<Date>): (days: seq<int>)
    requires forall i :: 0 <= i < |dates| ==> ValidDate(dates[i])
    ensures |days| == |dates|
    ensures forall i :: 0 <= i < |dates| ==> days[i] == DayNumber(dates[i])
    ensures (forall i, j :: 0 <= i < j < |dates| ==> Before(dates[i], dates[j]))
              ==> forall i, j :: 0 <= i < j < |days| ==> days[i] < days[j]
    ensures forall i :: 0 <= i < |days| ==> 1 <= days[i] <= MAX_DAY_NUMBER
  {
    var days := seq(|dates|, i requires 0 <= i < |dates| => DayNumber(dates[i]));
    DayNumbersInOrder(dates, days);
    days
  }

  lemma DayNumbersInOrder(dates: seq<Date>, days: seq<int>)
    requires forall i :: 0 <= i < |dates| ==> ValidDate(dates[i])
    requires |days| == |dates| && forall i :: 0 <= i < |dates| ==> days[i] == DayNumber(dates[i])
    ensures (forall i, j :: 0 <= i < j < |dates| ==> Before(dates[i], dates[j]))
              ==> forall i, j :: 0 <= i < j < |days| ==> days[i] < days[j]
    ensures forall i :: 0 <= i < |days| ==> 1 <= days[i] <= MAX_DAY_NUMBER
  {
    forall i | 0 <= i < |days| ensures days[i] <= MAX_DAY_NUMBER {
      LastDayNumber(dates[i]);
    }
    if forall i, j :: 0 <= i < j < |dates| ==> Before(dates[i], dates[j]) {
      forall i, j | 0 <= i < j < |days| ensures days[i] < days[j] {
        DayNumberIncreasing(dates[i], dates[j]);
      }
    }
  }

  /** On the dates that come out of `parse_finds_data` and
      `convert_to_plot_data`, the regression window is always a run of
      consecutive days ending with the latest one. */
  lemma FindsWindowIsSuffix(items: seq<Json>, rows: seq<DayTotal>, recentDays: int)
    requires Cumulative(rows, ValidKeys(items)) && |rows| > 0
    ensures ConvertToPlotData(rows).Ok?
    ensures var days := DaySeries(ConvertToPlotData(rows).value.dates);
            exists s :: 0 <= s < |days| && RecentWindow(days, recentDays) == Suffix(|days|, s)
  {
    PlotDataOfFinds(items, rows);
    var days := DaySeries(ConvertToPlotData(rows).value.dates);
    assert NonDecreasing(days);
    WindowIsSuffix(days, recentDays);
  }
}
