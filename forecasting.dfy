/**
 * The two forecasting routes of the server: the seven-day short-term
 * forecast and the 30-day risk assessment. The database queries are taken
 * as their result rows; the random day-to-day variation of the forecast is
 * taken as an input sequence of draws.
 */
module Forecasting {
  import opened Common
  import opened Numeric
  import opened ApiTypes
  import Analysis

  // ------------------------------------------------------------ calendar

  const DaysOfWeek: seq<string> := ["Mon", "Tue", "Wed", "Thu", "Fri", "Sat", "Sun"]

  /** The forecast always covers this many days after the latest recorded one. */
  const ForecastDays: nat := 7

  /**
   * Python's `date.weekday()` of a day given by its proleptic Gregorian
   * ordinal (`date.toordinal()`): ordinal 1, 1 January of year 1, is a
   * Monday (0), and Sunday is 6.
   */
  function Weekday(ordinal: int): (w: int)
    ensures 0 <= w < 7
    ensures (ordinal - 1 - w) % 7 == 0
  {
    (ordinal + 6) % 7
  }

  /** Saturday and Sunday: `weekday() in [5, 6]`. */
  predicate IsWeekend(ordinal: int)
  {
    Weekday(ordinal) >= 5
  }

  /** The weekdays of the seven days from `start` on. */
  function WeekFrom(start: int): (ws: seq<int>)
    ensures |ws| == 7
  {
    seq(7, i => Weekday(start + i))
  }

  /** Seven consecutive days carry each weekday, and so each label of `DaysOfWeek`, exactly once. */
  lemma WeekCoversEveryDay(start: int)
    ensures forall i, j :: 0 <= i < j < 7 ==> WeekFrom(start)[i] != WeekFrom(start)[j]
    ensures forall w :: 0 <= w < 7 ==> w in WeekFrom(start)
  {
    var ws := WeekFrom(start);
    var w0 := Weekday(start);
    forall i | 0 <= i < 7
      ensures ws[i] == if w0 + i < 7 then w0 + i else w0 + i - 7
    {
      WeekdayShift(start, i);
    }
    if w0 == 0 { assert ws == [0, 1, 2, 3, 4, 5, 6]; }
    else if w0 == 1 { assert ws == [1, 2, 3, 4, 5, 6, 0]; }
    else if w0 == 2 { assert ws == [2, 3, 4, 5, 6, 0, 1]; }
    else if w0 == 3 { assert ws == [3, 4, 5, 6, 0, 1, 2]; }
    else if w0 == 4 { assert ws == [4, 5, 6, 0, 1, 2, 3]; }
    else if w0 == 5 { assert ws == [5, 6, 0, 1, 2, 3, 4]; }
    else { assert ws == [6, 0, 1, 2, 3, 4, 5]; }
  }

  /** `i` days later the weekday has moved on by `i`, wrapping once at most. */
  lemma WeekdayShift(start: int, i: int)
    requires 0 <= i < 7
    ensures Weekday(start + i) == if Weekday(start) + i < 7 then Weekday(start) + i else Weekday(start) + i - 7
  {
    var q := (start + 6) / 7;
    assert start + 6 == 7 * q + Weekday(start);
    if Weekday(start) + i < 7 {
      assert start + i + 6 == 7 * q + (Weekday(start) + i);
    } else {
      assert start + i + 6 == 7 * (q + 1) + (Weekday(start) + i - 7);
    }
  }

  // ------------------------------------------------------ short-term forecast

  /**
   * The range of `np.random.uniform` for one day: weekends lean busier,
   * weekdays quieter. The upper end is open.
   */
  predicate InVariationRange(ordinal: int, v: real)
  {
    if IsWeekend(ordinal) then -0.1 <= v < 0.15 else -0.15 <= v < 0.1
  }

  /** `int(avg_crimes * (1 + variation))`. */
  function Predicted(avg: real, v: real): (p: int)
    ensures avg * (1.0 + v) >= 0.0 ==> 0 <= p && p as real <= avg * (1.0 + v) < p as real + 1.0
  {
    PyInt(avg * (1.0 + v))
  }

  /** A drawn variation keeps the prediction within 15 % of the mean, less the truncated fraction. */
  lemma PredictedNearAverage(avg: real, ordinal: int, v: real)
    requires avg >= 0.0 && InVariationRange(ordinal, v)
    ensures 0 <= Predicted(avg, v)
    ensures avg * 0.85 - 1.0 < Predicted(avg, v) as real <= avg * 1.15
  {
    var x := avg * (1.0 + v);
    assert x == avg + avg * v;
    NonNegativeProduct(avg, 0.15 - v);
    NonNegativeProduct(avg, v + 0.15);
    assert avg * (0.15 - v) == avg * 0.15 - avg * v;
    assert avg * (v + 0.15) == avg * v + avg * 0.15;
  }

  lemma NonNegativeProduct(a: real, b: real)
    requires a >= 0.0 && b >= 0.0
    ensures a * b >= 0.0
  {
    if a > 0.0 && b > 0.0 {
      assert a * b > 0.0 * b;
    }
  }

  /** `max(70, 90 - (i * 2))`. */
  function Confidence(i: int): (c: int)
    ensures 70 <= c
    ensures c == 70 || c == 90 - 2 * i
  {
    if 70 > 90 - i * 2 then 70 else 90 - i * 2
  }

  /**
   * Over the seven forecast days the confidence steps down by two from 90
   * to 78, so the floor of 70 is never reached.
   */
  lemma ConfidenceSchedule()
    ensures forall i :: 0 <= i < ForecastDays ==> Confidence(i) == 90 - 2 * i && 78 <= Confidence(i) <= 90
    ensures forall i, j :: 0 <= i <= j < ForecastDays ==> Confidence(i) >= Confidence(j)
  {
  }

  /**
   * The direction of a day after the first, against the day before: a rise
   * of more than 5 % is up, a fall of more than 5 % is down, anything in
   * between stable. The up test is made first.
   */
  function StepOf(prev: int, predicted: int): (s: Step)
    ensures s == Up <==> predicted as real > prev as real * 1.05
    ensures s == Down <==> !(predicted as real > prev as real * 1.05) && predicted as real < prev as real * 0.95
  {
    if predicted as real > prev as real * 1.05 then Up
    else if predicted as real < prev as real * 0.95 then Down
    else Stable
  }

  /** For a non-negative previous value the bands do not overlap, and an unchanged value is stable. */
  lemma StepBands(prev: int, predicted: int)
    requires prev >= 0
    ensures StepOf(prev, predicted) == Down <==> predicted as real < prev as real * 0.95
    ensures StepOf(prev, prev) == Stable
  {
  }

  /** The clamped `lower_bound`: `max(0, int(predicted - std))`. */
  function LowerBound(predicted: int, std: real): (b: int)
    ensures b >= 0
    ensures predicted as real - std >= 0.0 ==> b as real <= predicted as real - std < b as real + 1.0
    ensures predicted as real - std < 1.0 ==> b == 0
  {
    var b := PyInt(predicted as real - std);
    if b > 0 then b else 0
  }

  /** `upper_bound`: `int(predicted + std)`. */
  function UpperBound(predicted: int, std: real): (b: int)
    ensures predicted as real + std >= 0.0 ==> b as real <= predicted as real + std < b as real + 1.0
  {
    PyInt(predicted as real + std)
  }

  /** The interval around a non-negative prediction holds the prediction. */
  lemma BoundsBracket(predicted: int, std: real)
    requires predicted >= 0 && std >= 0.0
    ensures 0 <= LowerBound(predicted, std) <= predicted <= UpperBound(predicted, std)
  {
  }

  /**
   * Day `i` (0-based) of the forecast after the day with ordinal `latest`,
   * for the mean daily count `avg`, the drawn variations and the standard
   * deviation `std`.
   */
  function ForecastPointAt(latest: int, avg: real, variations: seq<real>, std: real, i: nat): (p: ForecastPoint)
    requires i < |variations|
    ensures p.date == latest + i + 1
    ensures Weekday(p.date) < 7 && p.day == DaysOfWeek[Weekday(p.date)]
    ensures p.predicted == Predicted(avg, variations[i])
    ensures p.lowerBound >= 0 && p.confidence >= 70
    ensures i == 0 ==> p.trend == Stable
    ensures i > 0 ==> p.trend == StepOf(Predicted(avg, variations[i - 1]), p.predicted)
  {
    var date := latest + i + 1;
    var predicted := Predicted(avg, variations[i]);
    ForecastPoint(
      date,
      DaysOfWeek[Weekday(date)],
      predicted,
      LowerBound(predicted, std),
      UpperBound(predicted, std),
      Confidence(i),
      if i == 0 then Stable else StepOf(Predicted(avg, variations[i - 1]), predicted))
  }

  /**
   * The forecast loop: one point per day, each step read against the
   * `predicted` of the point appended before it.
   */
  method ForecastWeek(latest: int, avg: real, variations: seq<real>, std: real) returns (forecast: seq<ForecastPoint>)
    requires |variations| == ForecastDays
    ensures |forecast| == ForecastDays
    ensures forall i :: 0 <= i < |forecast| ==> forecast[i] == ForecastPointAt(latest, avg, variations, std, i)
  {
    forecast := [];
    var i := 0;
    while i < ForecastDays
      invariant 0 <= i <= ForecastDays
      invariant |forecast| == i
      invariant forall j :: 0 <= j < i ==> forecast[j] == ForecastPointAt(latest, avg, variations, std, j)
    {
      var date := latest + i + 1;
      var day := DaysOfWeek[Weekday(date)];
      var predicted := PyInt(avg * (1.0 + variations[i]));
      var lower := PyInt(predicted as real - std);
      var upper := PyInt(predicted as real + std);
      var confidence := if 70 > 90 - i * 2 then 70 else 90 - i * 2;
      var trend;
      if i > 0 && |forecast| > 0 {
        var prev := forecast[|forecast| - 1].predicted;
        assert prev == Predicted(avg, variations[i - 1]);
        if predicted as real > prev as real * 1.05 {
          trend := Up;
        } else if predicted as real < prev as real * 0.95 {
          trend := Down;
        } else {
          trend := Stable;
        }
        assert trend == StepOf(prev, predicted);
      } else {
        trend := Stable;
      }
      assert predicted == Predicted(avg, variations[i]);
      assert (if lower > 0 then lower else 0) == LowerBound(predicted, std) && upper == UpperBound(predicted, std);
      assert confidence == Confidence(i);
      var point := ForecastPoint(date, day, predicted, if lower > 0 then lower else 0, upper, confidence, trend);
      assert point == ForecastPointAt(latest, avg, variations, std, i);
      forall j | 0 <= j < i + 1
        ensures (forecast + [point])[j] == ForecastPointAt(latest, avg, variations, std, j)
      {
        if j < i {
          assert (forecast + [point])[j] == forecast[j];
        }
      }
      forecast := forecast + [point];
      i := i + 1;
    }
  }

  /** The mean of the daily counts in the window. */
  function MeanOf(counts: seq<int>): (m: real)
    requires counts != []
    ensures (forall i :: 0 <= i < |counts| ==> counts[i] >= 0) ==> m >= 0.0
  {
    SumOfNonNegativeInts(counts);
    Sum(counts) as real / |counts| as real
  }

  lemma {:induction false} SumOfNonNegativeInts(xs: seq<int>)
    ensures (forall i :: 0 <= i < |xs| ==> xs[i] >= 0) ==> Sum(xs) >= 0
  {
    if xs != [] && forall i :: 0 <= i < |xs| ==> xs[i] >= 0 {
      SumOfNonNegativeInts(xs[..|xs| - 1]);
    }
  }

  /**
   * GET /short-term. `latest` is the ordinal of `MAX(date)` (`None` when
   * the database is missing or empty), `counts` the per-day counts of the
   * dates from `latest - 30` days to `latest`, 31 dates in all. An empty
   * window gives `[]`, and so does a window of one day: the sample
   * standard deviation of one value is NaN, `int(NaN)` raises, and the
   * handler answers `[]`. `std` is the window's sample
   * standard deviation, used when there are two days or more.
   */
  method ShortTermForecast(latest: Option<int>, counts: seq<int>, variations: seq<real>, std: real)
    returns (forecast: seq<ForecastPoint>)
    requires |variations| == ForecastDays
    ensures forecast == [] <==> latest.None? || |counts| < 2
    ensures forecast != [] ==>
      && |forecast| == ForecastDays
      && forall i :: 0 <= i < |forecast| ==>
           forecast[i] == ForecastPointAt(latest.value, MeanOf(counts), variations, std, i)
  {
    if latest.None? || counts == [] || |counts| == 1 {
      return [];
    }
    forecast := ForecastWeek(latest.value, MeanOf(counts), variations, std);
  }

  /**
   * What the client's forecast cards make of a generated week: the mean
   * confidence of 90, 88, ..., 78 is exactly 84, and the direction shown
   * is the last day's step.
   */
  lemma ForecastSummaryOfWeek(latest: int, avg: real, variations: seq<real>, std: real, forecast: seq<ForecastPoint>)
    requires |variations| == ForecastDays && |forecast| == ForecastDays
    requires forall i :: 0 <= i < |forecast| ==> forecast[i] == ForecastPointAt(latest, avg, variations, std, i)
    ensures Analysis.SummarizeForecast(forecast).Some?
    ensures Analysis.SummarizeForecast(forecast).value.avgConfidence == 84
    ensures Analysis.SummarizeForecast(forecast).value.trendDirection
            == StepOf(Predicted(avg, variations[5]), Predicted(avg, variations[6]))
  {
    ConfidenceSchedule();
    assert SumOf(forecast, Analysis.ConfidenceOf) == 588 by {
      ConfidenceSum(forecast, 7);
      assert forecast[..7] == forecast;
    }
    assert 588 as real / 7 as real == 84.0;
  }

  lemma {:induction false} ConfidenceSum(forecast: seq<ForecastPoint>, k: nat)
    requires k <= |forecast|
    requires forall i :: 0 <= i < k ==> forecast[i].confidence == 90 - 2 * i
    ensures SumOf(forecast[..k], Analysis.ConfidenceOf) == k * 90 - k * (k - 1)
  {
    if k > 0 {
      ConfidenceSum(forecast, k - 1);
      assert forecast[..k][..k - 1] == forecast[..k - 1];
    }
  }

  // ------------------------------------------------------------ risk bands

  /** The fixed band of an hour: evening and the small hours high, daytime medium, 03-05 low. */
  function HourRiskLevel(hour: int): (level: RiskLevel)
    ensures level == High <==> (18 <= hour <= 23 || 0 <= hour <= 2)
    ensures level == Medium <==> 6 <= hour <= 17
  {
    if 18 <= hour <= 23 || 0 <= hour <= 2 then High
    else if 6 <= hour <= 17 then Medium
    else Low
  }

  /** The 24 entries of `hourly_risk`, one per hour in order. */
  function HourlyRiskTable(): (t: seq<HourRisk>)
    ensures |t| == 24
    ensures forall h :: 0 <= h < 24 ==> t[h].hour == h
  {
    seq(24, h => HourRisk(h, HourRiskLevel(h)))
  }

  function LevelOf(r: HourRisk): RiskLevel { r.level }

  /** The number of entries at `level`. */
  function CountLevel(rs: seq<HourRisk>, level: RiskLevel): (n: nat)
    ensures n <= |rs|
  {
    if rs == [] then 0
    else CountLevel(rs[..|rs| - 1], level) + (if rs[|rs| - 1].level == level then 1 else 0)
  }

  /** How many of the first `k` hours are high: 0-2 and then 18 onwards. */
  function HighBefore(k: int): int
  {
    if k <= 3 then k else if k <= 18 then 3 else k - 15
  }

  lemma {:induction false} CountHighPrefix(k: nat)
    requires k <= 24
    ensures CountLevel(HourlyRiskTable()[..k], High) == HighBefore(k)
  {
    if k > 0 {
      CountHighPrefix(k - 1);
      assert HourlyRiskTable()[..k][..k - 1] == HourlyRiskTable()[..k - 1];
    }
  }

  /** Nine hours of the day are high-risk. */
  lemma NineHighRiskHours()
    ensures CountLevel(HourlyRiskTable(), High) == 9
  {
    CountHighPrefix(24);
    assert HourlyRiskTable()[..24] == HourlyRiskTable();
  }

  /** The `hourly_risk` loop and the count of its high entries. */
  method HourlyRisk() returns (hourlyRisk: seq<HourRisk>, highRiskHours: nat)
    ensures hourlyRisk == HourlyRiskTable()
    ensures highRiskHours == CountLevel(hourlyRisk, High) == 9
  {
    hourlyRisk := [];
    var hour := 0;
    while hour < 24
      invariant 0 <= hour <= 24
      invariant hourlyRisk == HourlyRiskTable()[..hour]
    {
      var level;
      if 18 <= hour <= 23 || 0 <= hour <= 2 {
        level := High;
      } else if 6 <= hour <= 17 {
        level := Medium;
      } else {
        level := Low;
      }
      hourlyRisk := hourlyRisk + [HourRisk(hour, level)];
      hour := hour + 1;
    }
    assert hourlyRisk == HourlyRiskTable();
    highRiskHours := 0;
    var k := 0;
    while k < |hourlyRisk|
      invariant 0 <= k <= |hourlyRisk|
      invariant highRiskHours == CountLevel(hourlyRisk[..k], High)
    {
      assert hourlyRisk[..k + 1][..k] == hourlyRisk[..k];
      if hourlyRisk[k].level == High {
        highRiskHours := highRiskHours + 1;
      }
      k := k + 1;
    }
    assert hourlyRisk[..k] == hourlyRisk;
    NineHighRiskHours();
  }

  // ------------------------------------------------------------ overall risk

  /** `overall_risk` from the 30-day total: the daily mean against 150 and 100, strictly. */
  function OverallRisk(total: nat): (level: string)
    ensures level == "HIGH" <==> total as real / 30.0 > 150.0
    ensures level == "MEDIUM" <==> 100.0 < total as real / 30.0 <= 150.0
    ensures level == "LOW" <==> total as real / 30.0 <= 100.0
  {
    var avg := total as real / 30.0;
    if avg > 150.0 then "HIGH" else if avg > 100.0 then "MEDIUM" else "LOW"
  }

  /** The thresholds in whole crimes: more than 4500 is high, more than 3000 medium. */
  lemma OverallRiskInCrimes(total: nat)
    ensures OverallRisk(total) == "HIGH" <==> total > 4500
    ensures OverallRisk(total) == "MEDIUM" <==> 3000 < total <= 4500
    ensures OverallRisk(total) == "LOW" <==> total <= 3000
  {
  }

  /** `round(total / 30, 1)` in tenths. A third of a whole number is never halfway between tenths. */
  function AvgDailyTenths(total: nat): (t: nat)
    ensures -0.5 < t as real - total as real / 3.0 < 0.5
  {
    (total + 1) / 3
  }

  // ---------------------------------------------------------- risk assessment

  /** One row of the per-district query: at most ten, busiest first. */
  datatype DistrictRow = DistrictRow(district: string, count: nat, lat: real, lng: real)

  /** The answer of every failure and empty path. */
  const UnknownRisk := RiskAssessment("unknown", [], 0, [], None, None)

  /** An entry of `high_risk_areas`. */
  function AreaOf(row: DistrictRow): (a: RiskArea)
    ensures a.area == "District " + row.district && a.count == row.count
  {
    RiskArea("District " + row.district, row.count, row.lat, row.lng)
  }

  /**
   * GET /risk-assessment. `latest` is the ordinal of `MAX(date)` (`None`
   * when the database is missing or empty); `rows` and `total` are the
   * two query results over the dates from `latest - 30` days to `latest`
   * (31 dates, although the average divides by 30).
   */
  method AssessRisk(latest: Option<int>, rows: seq<DistrictRow>, total: nat) returns (r: RiskAssessment)
    ensures latest.None? || rows == [] ==> r == UnknownRisk
    ensures latest.Some? && rows != [] ==>
      && |r.highRiskAreas| == |rows|
      && (forall i :: 0 <= i < |rows| ==> r.highRiskAreas[i] == AreaOf(rows[i]))
      && r.overallRisk == OverallRisk(total)
      && r.hourlyRisk == HourlyRiskTable()
      && r.highRiskHours == 9
      && r.totalCrimesAnalyzed == Some(total)
      && r.avgDailyTenths == Some(AvgDailyTenths(total))
  {
    if latest.None? || rows == [] {
      return UnknownRisk;
    }
    var areas: seq<RiskArea> := [];
    var i := 0;
    while i < |rows|
      invariant 0 <= i <= |rows|
      invariant |areas| == i
      invariant forall j :: 0 <= j < i ==> areas[j] == AreaOf(rows[j])
    {
      areas := areas + [RiskArea("District " + rows[i].district, rows[i].count, rows[i].lat, rows[i].lng)];
      i := i + 1;
    }
    var overall := OverallRisk(total);
    var hourly, highHours := HourlyRisk();
    r := RiskAssessment(overall, areas, highHours, hourly, Some(total), Some(AvgDailyTenths(total)));
  }
}
