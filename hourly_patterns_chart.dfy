/**
 * The hourly bar chart's statistics row: total, average per hour, busiest
 * and quietest hour, whether the busiest hour falls at night, and the peak
 * flag of the tooltip.
 */
module HourlyPatternsChart {
  import opened Common
  import opened Numeric
  import opened ApiTypes
  import opened Series

  datatype Period = Night | Day

  /** "Most Active": night from 18:00 up to 06:00. */
  function MostActive(hour: int): (p: Period)
    ensures p == Night <==> (hour >= 18 || hour < 6)
  {
    if hour >= 18 || hour < 6 then Night else Day
  }

  /** Within a day, the night hours are exactly twelve: 0-5 and 18-23. */
  lemma NightHasTwelveHours()
    ensures |set h | 0 <= h < 24 && MostActive(h) == Night| == 12
  {
    var night := set h | 0 <= h < 24 && MostActive(h) == Night;
    NightIsTwoRuns(night, 0, 6, 18, 24);
  }

  /** A set that is the union of two separate runs of hours has their lengths summed as its size. */
  lemma NightIsTwoRuns(night: set<int>, a: int, b: int, c: int, d: int)
    requires a <= b <= c <= d
    requires forall h :: h in night <==> a <= h < b || c <= h < d
    ensures |night| == (b - a) + (d - c)
  {
    var early, late := HoursBetween(a, b), HoursBetween(c, d);
    assert night == early + late;
    HoursBetweenSize(a, b);
    HoursBetweenSize(c, d);
  }

  /** The hours from `lo` up to, not including, `hi`. */
  function HoursBetween(lo: int, hi: int): (hs: set<int>)
    ensures forall h :: h in hs <==> lo <= h < hi
    decreases hi - lo
  {
    if lo >= hi then {} else HoursBetween(lo, hi - 1) + {hi - 1}
  }

  lemma {:induction false} HoursBetweenSize(lo: int, hi: int)
    requires lo <= hi
    ensures |HoursBetween(lo, hi)| == hi - lo
    decreases hi - lo
  {
    if lo < hi {
      HoursBetweenSize(lo, hi - 1);
      assert hi - 1 !in HoursBetween(lo, hi - 1);
    }
  }

  /** The tooltip's "Peak" badge: `peakHours.includes(hour)`. */
  predicate IsPeak(peakHours: seq<int>, hour: int)
  {
    hour in peakHours
  }

  datatype Stats = Stats(totalCrimes: int, avgPerHour: int, maxHour: HourCount, minHour: HourCount, mostActive: Period)

  /**
   * The statistics. The page mounts the chart when the heatmap has the
   * type's key, and the server sends 24 samples for every type, so the series
   * is non-empty, which the reductions seeded with `data[0]` need. The average always
   * divides by 24, however many samples there are.
   */
  function HourlyStats(data: seq<HourCount>): (r: Stats)
    requires |data| > 0
    ensures r.totalCrimes == SumOf(data, HourCountOf)
    ensures r.totalCrimes as real / 24.0 - 0.5 < r.avgPerHour as real <= r.totalCrimes as real / 24.0 + 0.5
    ensures forall i :: 0 <= i < |data| ==> r.minHour.count <= data[i].count <= r.maxHour.count
    ensures exists i :: 0 <= i < |data| && data[i] == r.maxHour && forall j :: 0 <= j < i ==> data[j].count < r.maxHour.count
    ensures exists i :: 0 <= i < |data| && data[i] == r.minHour && forall j :: 0 <= j < i ==> data[j].count > r.minHour.count
    ensures r.mostActive == Night <==> (r.maxHour.hour >= 18 || r.maxHour.hour < 6)
  {
    var total := SumOf(data, HourCountOf);
    var hi := FirstMaxIndex(data, HourCountOf);
    var lo := FirstMinIndex(data, HourCountOf);
    Stats(total, JsRound(total as real / 24.0), data[hi], data[lo], MostActive(data[hi].hour))
  }

  /**
   * For the 24 evenly weighted samples the server sends, a uniform day has
   * its first hour as both busiest and quietest, and the average equals the
   * per-hour count.
   */
  lemma UniformDay(c: int)
    ensures var data := seq(24, h => HourCount(h, c));
            var r := HourlyStats(data);
            r.maxHour == HourCount(0, c) && r.minHour == HourCount(0, c) && r.avgPerHour == c && r.mostActive == Night
  {
    var data := seq(24, h => HourCount(h, c));
    UniformSum(24, c);
    var hi, lo := FirstMaxIndex(data, HourCountOf), FirstMinIndex(data, HourCountOf);
    assert HourCountOf(data[0]) == c == HourCountOf(data[hi]) == HourCountOf(data[lo]);
    assert hi == 0 && lo == 0;
  }

  lemma {:induction false} UniformSum(n: nat, c: int)
    ensures SumOf(seq(n, h => HourCount(h, c)), HourCountOf) == n * c
  {
    if n > 0 {
      assert seq(n, h => HourCount(h, c))[..n - 1] == seq(n - 1, h => HourCount(h, c));
      UniformSum(n - 1, c);
    }
  }
}
