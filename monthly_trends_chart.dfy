/**
 * The monthly trend chart's headline: a halves-comparison trend with a
 * five-percent dead band, and the summary statistics under the chart.
 */
module MonthlyTrendsChart {
  import opened Common
  import opened Numeric
  import opened ApiTypes
  import opened Series

  /**
   * The percentage badge: the number 0 when there are fewer than two months,
   * otherwise the text of `Math.abs(percentageChange).toFixed(1)`.
   */
  datatype Badge = Zero | Text(shown: Shown)

  /** The direction uses the same up/down/stable labels as a forecast day. */
  datatype Trend = Trend(direction: Step, percentage: Badge)

  function FirstHalf(data: seq<MonthlyTrend>): seq<MonthlyTrend> { data[..|data| / 2] }
  function SecondHalf(data: seq<MonthlyTrend>): seq<MonthlyTrend> { data[|data| / 2..] }

  /** Arithmetic mean of the monthly counts. */
  function Mean(xs: seq<MonthlyTrend>): real
    requires |xs| > 0
  {
    SumOf(xs, CrimeCountOf) as real / |xs| as real
  }

  /** The halves split the series in order; the second is as long or one longer. */
  lemma HalvesPartition(data: seq<MonthlyTrend>)
    ensures FirstHalf(data) + SecondHalf(data) == data
    ensures |SecondHalf(data)| == |FirstHalf(data)| || |SecondHalf(data)| == |FirstHalf(data)| + 1
    ensures |data| >= 2 ==> |FirstHalf(data)| >= 1
  {
  }

  /**
   * `((secondAvg - firstAvg) / firstAvg) * 100` on doubles. The component
   * does not guard `firstAvg == 0`: the division then yields an infinity or NaN.
   */
  function PercentageChange(data: seq<MonthlyTrend>): JsNumber
    requires |data| >= 2
  {
    var firstAvg := Mean(FirstHalf(data));
    var secondAvg := Mean(SecondHalf(data));
    JsScale(JsDivide(secondAvg - firstAvg, firstAvg), 100.0)
  }

  /** The five-percent dead band applied to a percentage change. */
  function DirectionOf(change: JsNumber): Step
  {
    if JsGreater(change, 5.0) then Up else if JsLess(change, -5.0) then Down else Stable
  }

  /** `calculateTrend`. */
  function CalculateTrend(data: seq<MonthlyTrend>): Trend
  {
    if |data| < 2 then Trend(Stable, Zero)
    else
      var change := PercentageChange(data);
      Trend(DirectionOf(change), Text(ShowFixed1(JsAbs(change))))
  }

  /**
   * With a positive first-half mean the dead band is strict on both sides:
   * "up" exactly when the second-half mean exceeds the first by more than
   * 5 %, "down" exactly when it falls short by more than 5 %, and the badge
   * shows the absolute change rounded to one decimal.
   */
  lemma TrendClassification(data: seq<MonthlyTrend>)
    requires |data| >= 2 && Mean(FirstHalf(data)) > 0.0
    ensures var first, second := Mean(FirstHalf(data)), Mean(SecondHalf(data));
            var pct := (second - first) / first * 100.0;
            && (CalculateTrend(data).direction == Up <==> second > first * 1.05)
            && (CalculateTrend(data).direction == Down <==> second < first * 0.95)
            && (CalculateTrend(data).direction == Stable <==> first * 0.95 <= second <= first * 1.05)
            && CalculateTrend(data).percentage == Text(Decimal(ToFixed1(Abs(pct))))
  {
    DeadBand(Mean(FirstHalf(data)), Mean(SecondHalf(data)));
  }

  /** The dead band on two positive-based means, free of the data they come from. */
  lemma DeadBand(first: real, second: real)
    requires first > 0.0
    ensures var change := JsScale(JsDivide(second - first, first), 100.0);
            && change == Finite((second - first) / first * 100.0)
            && (DirectionOf(change) == Up <==> second > first * 1.05)
            && (DirectionOf(change) == Down <==> second < first * 0.95)
  {
    var q := (second - first) / first;
    assert q * first == second - first;
    if q > 0.05 {
      assert (q - 0.05) * first > 0.0;
    } else if q < -0.05 {
      assert (-0.05 - q) * first > 0.0;
    } else {
      assert (q - 0.05) * first <= 0.0;
      assert (q + 0.05) * first >= 0.0;
    }
  }

  /**
   * The unguarded zero mean: a rise from an all-zero first half reads as "up"
   * with an "Infinity" badge, and two all-zero halves read as "stable" with a
   * "NaN" badge.
   */
  lemma TrendFromZeroMean(data: seq<MonthlyTrend>)
    requires |data| >= 2 && Mean(FirstHalf(data)) == 0.0
    ensures Mean(SecondHalf(data)) > 0.0 ==> CalculateTrend(data) == Trend(Up, Text(Infinity(false)))
    ensures Mean(SecondHalf(data)) == 0.0 ==> CalculateTrend(data) == Trend(Stable, Text(NotANumber))
    ensures Mean(SecondHalf(data)) < 0.0 ==> CalculateTrend(data) == Trend(Down, Text(Infinity(false)))
  {
  }

  /** Fewer than two months give a flat "stable" with the number 0. */
  lemma ShortSeriesIsStable(data: seq<MonthlyTrend>)
    requires |data| < 2
    ensures CalculateTrend(data) == Trend(Stable, Zero)
  {
  }

  /** Two months at `n` crimes then two at `2n` read "up" with a badge of "100.0". */
  lemma DoublingExample(a: string, b: string, c: string, d: string, n: int)
    requires n > 0
    ensures CalculateTrend([MonthlyTrend(a, n), MonthlyTrend(b, n), MonthlyTrend(c, 2 * n), MonthlyTrend(d, 2 * n)])
            == Trend(Up, Text(Decimal(Fixed1(false, 1000))))
  {
    var data := [MonthlyTrend(a, n), MonthlyTrend(b, n), MonthlyTrend(c, 2 * n), MonthlyTrend(d, 2 * n)];
    assert FirstHalf(data) == [MonthlyTrend(a, n), MonthlyTrend(b, n)];
    assert SecondHalf(data) == [MonthlyTrend(c, 2 * n), MonthlyTrend(d, 2 * n)];
    PairMean(MonthlyTrend(a, n), MonthlyTrend(b, n));
    PairMean(MonthlyTrend(c, 2 * n), MonthlyTrend(d, 2 * n));
    var first := n as real;
    DeadBand(first, 2.0 * first);
    assert (2.0 * first - first) / first == 1.0;
    assert ToFixed1(100.0) == Fixed1(false, 1000);
  }

  /** Four months at the same positive count read "stable" with a badge of "0.0". */
  lemma FlatExample(a: string, b: string, c: string, d: string, n: int)
    requires n > 0
    ensures CalculateTrend([MonthlyTrend(a, n), MonthlyTrend(b, n), MonthlyTrend(c, n), MonthlyTrend(d, n)])
            == Trend(Stable, Text(Decimal(Fixed1(false, 0))))
  {
    var data := [MonthlyTrend(a, n), MonthlyTrend(b, n), MonthlyTrend(c, n), MonthlyTrend(d, n)];
    assert FirstHalf(data) == [MonthlyTrend(a, n), MonthlyTrend(b, n)];
    assert SecondHalf(data) == [MonthlyTrend(c, n), MonthlyTrend(d, n)];
    PairMean(MonthlyTrend(a, n), MonthlyTrend(b, n));
    PairMean(MonthlyTrend(c, n), MonthlyTrend(d, n));
    var first := n as real;
    assert Mean(FirstHalf(data)) == first && Mean(SecondHalf(data)) == first;
    TrendClassification(data);
    assert (first - first) / first * 100.0 == 0.0;
    assert ToFixed1(Abs(0.0)) == Fixed1(false, 0);
  }

  lemma PairMean(x: MonthlyTrend, y: MonthlyTrend)
    ensures Mean([x, y]) == (x.crimeCount + y.crimeCount) as real / 2.0
  {
    assert [x, y][..1] == [x];
    assert [x][..0] == [];
    assert SumOf([x], CrimeCountOf) == x.crimeCount;
    assert SumOf([x, y], CrimeCountOf) == x.crimeCount + y.crimeCount;
  }

  /** The statistics row under the chart. */
  datatype Stats = Stats(totalCrimes: int, avgPerMonth: int, maxMonth: MonthlyTrend, minMonth: MonthlyTrend)

  /**
   * `totalCrimes`, `avgPerMonth`, `maxMonth` and `minMonth`. The chart is
   * only drawn for a non-empty series, which the reductions seeded with
   * `data[0]` need. The busiest and quietest months are months of the data,
   * bound every count, and are the earliest such months.
   */
  function MonthlyStats(data: seq<MonthlyTrend>): (r: Stats)
    requires |data| > 0
    ensures r.totalCrimes == SumOf(data, CrimeCountOf)
    ensures r.totalCrimes as real / |data| as real - 0.5 < r.avgPerMonth as real <= r.totalCrimes as real / |data| as real + 0.5
    ensures forall i :: 0 <= i < |data| ==> r.minMonth.crimeCount <= data[i].crimeCount <= r.maxMonth.crimeCount
    ensures exists i :: 0 <= i < |data| && data[i] == r.maxMonth && forall j :: 0 <= j < i ==> data[j].crimeCount < r.maxMonth.crimeCount
    ensures exists i :: 0 <= i < |data| && data[i] == r.minMonth && forall j :: 0 <= j < i ==> data[j].crimeCount > r.minMonth.crimeCount
  {
    var total := SumOf(data, CrimeCountOf);
    var hi := FirstMaxIndex(data, CrimeCountOf);
    var lo := FirstMinIndex(data, CrimeCountOf);
    Stats(total, JsRound(total as real / |data| as real), data[hi], data[lo])
  }
}
