/**
 * The temporal routes of the server: the synthetic hourly distribution with
 * its peak hours, and the per-type daily trends with a seven-day moving
 * average and a least-squares slope. The query rows are taken as given.
 */
module TemporalAnalysis {
  import opened Common
  import opened Numeric
  import opened StableSort
  import opened ApiTypes

  /** One row of a daily query: a crime type, a day, and the number of crimes that day. */
  datatype DailyRow = DailyRow(crimeType: string, date: string, count: nat)

  function RowCountOf(r: DailyRow): int { r.count }

  /** The crime-type column. */
  function TypeColumn(rows: seq<DailyRow>): (col: seq<string>)
    ensures |col| == |rows|
  {
    seq(|rows|, i requires 0 <= i < |rows| => rows[i].crimeType)
  }

  /** `df["crime_type"].unique()`: each type once, in order of first appearance. */
  function TypesOf(rows: seq<DailyRow>): seq<string>
  {
    FirstSeen(TypeColumn(rows))
  }

  /** `df[df["crime_type"] == t]`: the rows of one type, in order. */
  function RowsOfType(rows: seq<DailyRow>, t: string): (r: seq<DailyRow>)
    ensures |r| <= |rows|
    ensures forall i :: 0 <= i < |r| ==> r[i].crimeType == t
    ensures forall x :: x in r ==> x in rows
    ensures forall i :: 0 <= i < |rows| && rows[i].crimeType == t ==> rows[i] in r
  {
    if rows == [] then []
    else
      var init := rows[..|rows| - 1];
      var last := rows[|rows| - 1];
      assert forall i :: 0 <= i < |init| ==> init[i] == rows[i];
      RowsOfType(init, t) + (if last.crimeType == t then [last] else [])
  }

  function OfType(t: string): DailyRow -> bool
  {
    (r: DailyRow) => r.crimeType == t
  }

  /** The rows of a type are exactly the boolean-mask selection, in the same order. */
  lemma {:induction false} RowsOfTypeIsFilter(rows: seq<DailyRow>, t: string)
    ensures RowsOfType(rows, t) == Filter(rows, OfType(t))
  {
    if rows != [] {
      RowsOfTypeIsFilter(rows[..|rows| - 1], t);
    }
  }

  /** `crime_df["daily_count"].sum()`. */
  function TypeTotal(rows: seq<DailyRow>, t: string): (n: nat)
  {
    SumOfNonNegative(RowsOfType(rows, t), RowCountOf);
    SumOf(RowsOfType(rows, t), RowCountOf)
  }

  // ------------------------------------------------------ hourly synthesis

  /** The share of a day's crimes given to each hour, in thousandths. */
  const HourWeights: seq<nat> := [15, 10, 8, 7, 8, 12, 20, 25, 30, 35, 40, 45,
                                   50, 52, 55, 57, 60, 62, 65, 63, 60, 55, 48, 38]

  const HoursPerDay := 24

  /** The weights cover every hour and add up to 0.92, so 8 % of each total is never assigned. */
  lemma WeightsSum()
    ensures |HourWeights| == HoursPerDay
    ensures Sum(HourWeights) == 920
  {
    var night, morning := [15, 10, 8, 7, 8, 12], [20, 25, 30, 35, 40, 45];
    var afternoon, evening := [50, 52, 55, 57, 60, 62], [65, 63, 60, 55, 48, 38];
    assert HourWeights == night + morning + afternoon + evening;
    SumAppend(night + morning + afternoon, evening);
    SumAppend(night + morning, afternoon);
    SumAppend(night, morning);
    SumOfSix(night);
    SumOfSix(morning);
    SumOfSix(afternoon);
    SumOfSix(evening);
  }

  lemma SumOfSix(xs: seq<int>)
    requires |xs| == 6
    ensures Sum(xs) == xs[0] + xs[1] + xs[2] + xs[3] + xs[4] + xs[5]
  {
    assert xs[..1][..0] == [];
    assert Sum(xs[..1]) == xs[0];
    assert xs[..2][..1] == xs[..1];
    assert Sum(xs[..2]) == xs[0] + xs[1];
    assert xs[..3][..2] == xs[..2];
    assert Sum(xs[..3]) == xs[0] + xs[1] + xs[2];
    assert xs[..4][..3] == xs[..3];
    assert Sum(xs[..4]) == xs[0] + xs[1] + xs[2] + xs[3];
    assert xs[..5][..4] == xs[..4];
    assert Sum(xs[..5]) == xs[0] + xs[1] + xs[2] + xs[3] + xs[4];
    assert xs[..5] == xs[..|xs| - 1];
  }

  /** `int(total_for_type * hour_weights[hour])`. */
  function HourlyCount(total: nat, hour: nat): nat
    requires hour < HoursPerDay
  {
    PyInt(total as real * (HourWeights[hour] as real / 1000.0))
  }

  /** The truncation is the integer quotient `total * w / 1000`. */
  lemma HourlyCountQuotient(total: nat, hour: nat)
    requires hour < HoursPerDay
    ensures HourlyCount(total, hour) == total * HourWeights[hour] / 1000
  {
    var w := HourWeights[hour];
    assert HourlyCount(total, hour) == PyInt(total as real * (w as real / 1000.0));
    TruncatedScale(total, w);
  }

  lemma TruncatedScale(t: nat, w: nat)
    ensures PyInt(t as real * (w as real / 1000.0)) == t * w / 1000
  {
    assert (t * w) as real == t as real * w as real;
    assert t as real * (w as real / 1000.0) == (t * w) as real / 1000.0;
    TruncatedThousandths(t * w);
  }

  /** Truncating `n / 1000.0` gives the integer quotient. */
  lemma TruncatedThousandths(n: nat)
    ensures PyInt(n as real / 1000.0) == n / 1000
  {
    var q, m := n / 1000, n % 1000;
    assert n == 1000 * q + m && 0 <= m < 1000;
    assert n as real / 1000.0 == q as real + m as real / 1000.0;
    var r := PyInt(n as real / 1000.0);
    assert r as real < q as real + 1.0 && q as real < r as real + 1.0;
  }

  /** Sum of the first `n` hourly counts of a type total. */
  function RowPrefixSum(total: nat, n: nat): int
    requires n <= HoursPerDay
  {
    if n == 0 then 0 else RowPrefixSum(total, n - 1) + HourlyCount(total, n - 1)
  }

  /** Sum of the first `n` weights. */
  lemma {:induction false} RowPrefixBound(total: nat, n: nat)
    requires n <= HoursPerDay
    ensures 0 <= 1000 * RowPrefixSum(total, n) <= total * Sum(HourWeights[..n])
  {
    if n > 0 {
      RowPrefixBound(total, n - 1);
      HourlyCountQuotient(total, n - 1);
      assert HourWeights[..n][..n - 1] == HourWeights[..n - 1];
      var w := HourWeights[n - 1];
      var before := Sum(HourWeights[..n - 1]);
      assert Sum(HourWeights[..n]) == before + w;
      QuotientTimes(total * w, 1000);
      Distribute(total, before, w);
    }
  }

  lemma QuotientTimes(x: int, d: int)
    requires x >= 0 && d > 0
    ensures 0 <= d * (x / d) <= x
  {
  }

  lemma Distribute(t: int, a: int, b: int)
    ensures t * (a + b) == t * a + t * b
  {
  }

  /** The 24 samples of one type: hour `h` carries its weighted share of the type's total. */
  function HourlyRow(total: nat): (row: seq<HourCount>)
    ensures |row| == HoursPerDay
  {
    HourlyRowPrefix(total, HoursPerDay)
  }

  function HourlyRowPrefix(total: nat, n: nat): (row: seq<HourCount>)
    requires n <= HoursPerDay
    ensures |row| == n
    ensures forall h :: 0 <= h < n ==> row[h] == HourCount(h, HourlyCount(total, h))
  {
    seq(n, h requires 0 <= h < n => HourCount(h, HourlyCount(total, h)))
  }

  /**
   * Every type's row has the hours 0 to 23 in order, no count above the
   * type's total, and a sum of at most 92 % of the total.
   */
  lemma HourlyRowShape(total: nat)
    ensures var row := HourlyRow(total);
            && (forall h :: 0 <= h < HoursPerDay ==> row[h].hour == h && 0 <= row[h].count <= total)
            && 1000 * SumOf(row, HourCountOf) <= 920 * total
  {
    var row := HourlyRow(total);
    forall h | 0 <= h < HoursPerDay ensures row[h].count <= total {
      HourlyCountQuotient(total, h);
      assert total * HourWeights[h] <= total * 1000;
    }
    RowSumIsPrefix(total, HoursPerDay);
    RowPrefixBound(total, HoursPerDay);
    WeightsSum();
    assert HourWeights[..HoursPerDay] == HourWeights;
  }

  lemma {:induction false} RowSumIsPrefix(total: nat, n: nat)
    requires n <= HoursPerDay
    ensures SumOf(HourlyRowPrefix(total, n), HourCountOf) == RowPrefixSum(total, n)
  {
    if n > 0 {
      RowSumIsPrefix(total, n - 1);
      assert HourlyRowPrefix(total, n)[..n - 1] == HourlyRowPrefix(total, n - 1);
    }
  }

  /** `hourly_totals[h]`: the hour-`h` counts summed over the types. */
  function HourColumn(totals: seq<nat>, hour: nat): int
    requires hour < HoursPerDay
  {
    if totals == [] then 0 else HourColumn(totals[..|totals| - 1], hour) + HourlyCount(totals[|totals| - 1], hour)
  }

  function HourlyTotals(totals: seq<nat>): (ht: seq<int>)
    ensures |ht| == HoursPerDay
  {
    seq(HoursPerDay, h requires 0 <= h < HoursPerDay => HourColumn(totals, h))
  }

  /** `total_crimes`: every emitted hourly count, summed. */
  function TotalEmitted(totals: seq<nat>): int
  {
    if totals == [] then 0 else TotalEmitted(totals[..|totals| - 1]) + RowPrefixSum(totals[|totals| - 1], HoursPerDay)
  }

  /** Sum of the first `n` hourly totals. */
  function ColumnPrefixSum(totals: seq<nat>, n: nat): int
    requires n <= HoursPerDay
  {
    if n == 0 then 0 else ColumnPrefixSum(totals, n - 1) + HourColumn(totals, n - 1)
  }

  lemma {:induction false} ColumnPrefixSnoc(totals: seq<nat>, t: nat, n: nat)
    requires n <= HoursPerDay
    ensures ColumnPrefixSum(totals + [t], n) == ColumnPrefixSum(totals, n) + RowPrefixSum(t, n)
  {
    if n > 0 {
      ColumnPrefixSnoc(totals, t, n - 1);
      assert (totals + [t])[..|totals|] == totals;
    }
  }

  /** The hourly totals add up to `total_crimes`: the same counts summed by hour or by type. */
  lemma {:induction false} HourlyTotalsAddUp(totals: seq<nat>)
    ensures ColumnPrefixSum(totals, HoursPerDay) == TotalEmitted(totals)
  {
    if totals == [] {
      ZeroColumns(HoursPerDay);
    } else {
      var init := totals[..|totals| - 1];
      assert totals == init + [totals[|totals| - 1]];
      HourlyTotalsAddUp(init);
      ColumnPrefixSnoc(init, totals[|totals| - 1], HoursPerDay);
    }
  }

  lemma {:induction false} ZeroColumns(n: nat)
    requires n <= HoursPerDay
    ensures ColumnPrefixSum([], n) == 0
  {
    if n > 0 {
      ZeroColumns(n - 1);
    }
  }

  lemma {:induction false} ColumnPrefixIsSum(totals: seq<nat>, n: nat)
    requires n <= HoursPerDay
    ensures Sum(HourlyTotals(totals)[..n]) == ColumnPrefixSum(totals, n)
  {
    if n > 0 {
      ColumnPrefixIsSum(totals, n - 1);
      assert HourlyTotals(totals)[..n][..n - 1] == HourlyTotals(totals)[..n - 1];
    }
  }

  /** The emitted crimes never exceed 92 % of the types' totals. */
  lemma {:induction false} TotalEmittedBound(totals: seq<nat>)
    ensures 0 <= 1000 * TotalEmitted(totals) <= 920 * Sum(totals)
  {
    if totals != [] {
      var t := totals[|totals| - 1];
      TotalEmittedBound(totals[..|totals| - 1]);
      RowPrefixBound(t, HoursPerDay);
      WeightsSum();
      assert HourWeights[..HoursPerDay] == HourWeights;
    }
  }

  // ------------------------------------------------------------ peak hours

  /** `hourly_totals.items()`: the (hour, total) pairs in hour order. */
  function HourPairs(hourlyTotals: seq<int>): (pairs: seq<HourCount>)
    requires |hourlyTotals| == HoursPerDay
    ensures |pairs| == HoursPerDay
    ensures forall h :: 0 <= h < HoursPerDay ==> pairs[h] == HourCount(h, hourlyTotals[h])
  {
    seq(HoursPerDay, h requires 0 <= h < HoursPerDay => HourCount(h, hourlyTotals[h]))
  }

  /** Places `x` before the first element not smaller than it. */
  function InsertAscending(x: int, s: seq<int>): (r: seq<int>)
    ensures |r| == |s| + 1
  {
    if s == [] || x <= s[0] then [x] + s else [s[0]] + InsertAscending(x, s[1..])
  }

  /** Python `sorted` on integers: ascending. */
  function SortAscending(xs: seq<int>): (r: seq<int>)
    ensures |r| == |xs|
  {
    if xs == [] then [] else InsertAscending(xs[0], SortAscending(xs[1..]))
  }

  /** The pairs stably sorted by total, descending. */
  function RankedHours(hourlyTotals: seq<int>): seq<HourCount>
    requires |hourlyTotals| == HoursPerDay
  {
    SortDescBy(HourPairs(hourlyTotals), HourCountOf)
  }

  /** `peak_hours`: the hours of the three largest totals, ascending. */
  function PeakHours(hourlyTotals: seq<int>): (peaks: seq<int>)
    requires |hourlyTotals| == HoursPerDay
    ensures |peaks| == 3
  {
    var top := RankedHours(hourlyTotals)[..3];
    SortAscending([top[0].hour, top[1].hour, top[2].hour])
  }

  /** The ranking is by total, descending, and by hour among equal totals. */
  lemma RankedHoursOrder(ht: seq<int>)
    requires |ht| == HoursPerDay
    ensures var r := RankedHours(ht);
            && LexSorted(r, HourCountOf, HourOf)
            && |r| == HoursPerDay
            && forall i :: 0 <= i < |r| ==> 0 <= r[i].hour < HoursPerDay && r[i] == HourPairs(ht)[r[i].hour]
  {
    var pairs := HourPairs(ht);
    SortIsStable(pairs, HourCountOf, HourOf);
    var r := RankedHours(ht);
    forall i | 0 <= i < |r| ensures 0 <= r[i].hour < HoursPerDay && r[i] == pairs[r[i].hour] {
      assert r[i] in multiset(pairs);
      var j :| 0 <= j < |pairs| && pairs[j] == r[i];
    }
  }

  /** Where each hour lands in the ranking. */
  lemma RankOfHour(ht: seq<int>, g: int) returns (j: nat)
    requires |ht| == HoursPerDay && 0 <= g < HoursPerDay
    ensures j < HoursPerDay && RankedHours(ht)[j] == HourPairs(ht)[g]
  {
    var pairs := HourPairs(ht);
    assert pairs[g] in multiset(RankedHours(ht));
    j :| 0 <= j < |RankedHours(ht)| && RankedHours(ht)[j] == pairs[g];
  }

  /**
   * `peak_hours` holds three distinct hours of the day in ascending order;
   * every chosen hour has a total at least that of every other hour, and
   * among equal totals the earlier hour is chosen.
   */
  lemma PeakHoursChosen(ht: seq<int>)
    requires |ht| == HoursPerDay
    ensures var p := PeakHours(ht);
            && (forall i :: 0 <= i < 3 ==> 0 <= p[i] < HoursPerDay)
            && p[0] < p[1] < p[2]
            && (forall h, g :: h in p && 0 <= g < HoursPerDay && g !in p ==> ht[h] >= ht[g])
            && (forall h, g :: h in p && 0 <= g < HoursPerDay && g !in p && ht[h] == ht[g] ==> h < g)
  {
    var r := RankedHours(ht);
    RankedHoursOrder(ht);
    var a := [r[0].hour, r[1].hour, r[2].hour];
    var p := PeakHours(ht);
    assert p == SortAscending(a);
    SortThreeDistinct(a);
    forall i | 0 <= i < 3 ensures 0 <= p[i] < HoursPerDay {
      assert p[i] in a;
    }
    forall h, g | h in p && 0 <= g < HoursPerDay && g !in p
      ensures ht[h] >= ht[g] && (ht[h] == ht[g] ==> h < g)
    {
      var i: nat :| i < 3 && a[i] == h;
      ChosenBeatsUnchosen(ht, i, g);
    }
  }

  /** Sorting three distinct numbers orders them strictly and keeps them. */
  lemma SortThreeDistinct(a: seq<int>)
    requires |a| == 3 && a[0] != a[1] && a[0] != a[2] && a[1] != a[2]
    ensures var p := SortAscending(a);
            p[0] < p[1] < p[2] && forall x :: x in p <==> x in a
  {
    var x, y, z := a[0], a[1], a[2];
    assert a[1..] == [y, z];
    SortTwo(y, z);
    var two := SortAscending([y, z]);
    InsertIntoTwo(x, two[0], two[1]);
    assert two == [two[0], two[1]];
  }

  lemma SortTwo(y: int, z: int)
    ensures SortAscending([y, z]) == if y <= z then [y, z] else [z, y]
  {
    assert [y, z][1..] == [z] && [z][1..] == [];
    assert SortAscending([z]) == [z];
    assert InsertAscending(y, []) == [y];
  }

  lemma InsertIntoTwo(x: int, u: int, v: int)
    ensures InsertAscending(x, [u, v]) == if x <= u then [x, u, v] else if x <= v then [u, x, v] else [u, v, x]
  {
    assert [u, v][1..] == [v] && [v][1..] == [];
    assert InsertAscending(x, []) == [x];
  }

  /** A top-three hour beats, or ties and precedes, an hour outside the top three. */
  lemma ChosenBeatsUnchosen(ht: seq<int>, i: nat, g: int)
    requires |ht| == HoursPerDay && i < 3 && 0 <= g < HoursPerDay
    requires forall k :: 0 <= k < 3 ==> RankedHours(ht)[k].hour != g
    requires 0 <= RankedHours(ht)[i].hour < HoursPerDay
    ensures var h := RankedHours(ht)[i].hour;
            ht[h] >= ht[g] && (ht[h] == ht[g] ==> h < g)
  {
    var r := RankedHours(ht);
    RankedHoursOrder(ht);
    var j := RankOfHour(ht, g);
    assert r[j].hour == g;
    assert j >= 3;
    assert HourCountOf(r[i]) > HourCountOf(r[j]) || (HourCountOf(r[i]) == HourCountOf(r[j]) && HourOf(r[i]) < HourOf(r[j]));
  }

  /** Ties favour lower hours: a day with the same total at every hour peaks at 0, 1 and 2. */
  lemma FlatDayPeaks(ht: seq<int>)
    requires |ht| == HoursPerDay
    requires forall h :: 0 <= h < HoursPerDay ==> ht[h] == ht[0]
    ensures PeakHours(ht) == [0, 1, 2]
  {
    var p := PeakHours(ht);
    PeakHoursChosen(ht);
    assert p[0] in p && p[1] in p && p[2] in p;
    assert ht[p[0]] == ht[0] && ht[p[1]] == ht[1] && ht[p[2]] == ht[2];
  }

  // ------------------------------------------------------- the hourly route

  /** Each type's total, in type order. */
  function TypeTotals(rows: seq<DailyRow>): (totals: seq<nat>)
    ensures |totals| == |TypesOf(rows)|
  {
    var types := TypesOf(rows);
    seq(|types|, j requires 0 <= j < |types| => TypeTotal(rows, types[j]))
  }

  /** The totals of the types in `types`, added in order. */
  function TotalOver(types: seq<string>, rows: seq<DailyRow>): int
  {
    if types == [] then 0 else TotalOver(types[..|types| - 1], rows) + TypeTotal(rows, types[|types| - 1])
  }

  lemma {:induction false} TotalsAreTotalOver(types: seq<string>, rows: seq<DailyRow>)
    ensures Sum(seq(|types|, j requires 0 <= j < |types| => TypeTotal(rows, types[j]))) == TotalOver(types, rows)
  {
    if types != [] {
      var init := types[..|types| - 1];
      TotalsAreTotalOver(init, rows);
      var all := seq(|types|, j requires 0 <= j < |types| => TypeTotal(rows, types[j]));
      assert all[..|all| - 1] == seq(|init|, j requires 0 <= j < |init| => TypeTotal(rows, init[j]));
    }
  }

  /** One more row adds its count to its own type's total and to no other. */
  lemma TypeTotalSnoc(rows: seq<DailyRow>, x: DailyRow, t: string)
    ensures TypeTotal(rows + [x], t) == TypeTotal(rows, t) + (if x.crimeType == t then x.count else 0)
  {
    assert (rows + [x])[..|rows|] == rows;
    var r := RowsOfType(rows, t);
    if x.crimeType == t {
      assert RowsOfType(rows + [x], t) == r + [x];
      SumOfAppend(r, [x], RowCountOf);
      assert [x][..0] == [];
    } else {
      assert RowsOfType(rows + [x], t) == r;
    }
  }

  lemma {:induction false} TotalOverSnoc(types: seq<string>, rows: seq<DailyRow>, x: DailyRow)
    requires Distinct(types)
    ensures TotalOver(types, rows + [x]) == TotalOver(types, rows) + (if x.crimeType in types then x.count else 0)
  {
    if types != [] {
      var init := types[..|types| - 1];
      var last := types[|types| - 1];
      assert types == init + [last];
      assert last !in init;
      TotalOverSnoc(init, rows, x);
      TypeTotalSnoc(rows, x, last);
    }
  }

  /** A type no row has totals 0. */
  lemma TypeTotalAbsent(rows: seq<DailyRow>, t: string)
    requires t !in TypesOf(rows)
    ensures TypeTotal(rows, t) == 0
  {
    TypeInColumn(rows, t);
    NoRowsOfType(rows, t);
  }

  lemma {:induction false} NoRowsOfType(rows: seq<DailyRow>, t: string)
    requires forall i :: 0 <= i < |rows| ==> rows[i].crimeType != t
    ensures RowsOfType(rows, t) == []
  {
    if rows != [] {
      var init := rows[..|rows| - 1];
      assert forall i :: 0 <= i < |init| ==> init[i] == rows[i];
      NoRowsOfType(init, t);
    }
  }

  /**
   * Every row is counted under exactly one type, so the types' totals add up
   * to the sum of the rows' counts.
   */
  lemma {:induction false} TypeTotalsPartition(rows: seq<DailyRow>)
    ensures Sum(TypeTotals(rows)) == SumOf(rows, RowCountOf)
  {
    TotalsAreTotalOver(TypesOf(rows), rows);
    TotalOverPartition(rows);
  }

  lemma {:induction false} TotalOverPartition(rows: seq<DailyRow>)
    ensures TotalOver(TypesOf(rows), rows) == SumOf(rows, RowCountOf)
  {
    if rows != [] {
      var init := rows[..|rows| - 1];
      var x := rows[|rows| - 1];
      assert rows == init + [x];
      TotalOverPartition(init);
      TypesOfSnoc(init, x);
      TotalOverNewRow(init, x);
    }
  }

  lemma TypesOfSnoc(rows: seq<DailyRow>, x: DailyRow)
    ensures TypesOf(rows + [x]) ==
            if x.crimeType in TypesOf(rows) then TypesOf(rows) else TypesOf(rows) + [x.crimeType]
  {
    assert TypeColumn(rows + [x]) == TypeColumn(rows) + [x.crimeType];
    FirstSeenSnoc(TypeColumn(rows), x.crimeType);
  }

  /** One more row raises the total over the types by its count, whether its type is new or not. */
  lemma TotalOverNewRow(rows: seq<DailyRow>, x: DailyRow)
    ensures var o := TypesOf(rows);
            var o' := if x.crimeType in o then o else o + [x.crimeType];
            TotalOver(o', rows + [x]) == TotalOver(o, rows) + x.count
  {
    var o := TypesOf(rows);
    TotalOverSnoc(o, rows, x);
    if x.crimeType !in o {
      var o' := o + [x.crimeType];
      assert o'[..|o'| - 1] == o;
      assert TotalOver(o', rows + [x]) == TotalOver(o, rows + [x]) + TypeTotal(rows + [x], x.crimeType);
      TypeTotalSnoc(rows, x, x.crimeType);
      TypeTotalAbsent(rows, x.crimeType);
    }
  }

  /**
   * The response's `total_crimes` is at most 92 % of the counts of all the
   * query rows.
   */
  lemma HourlyTotalCrimesBound(rows: seq<DailyRow>)
    ensures 0 <= 1000 * TotalEmitted(TypeTotals(rows)) <= 920 * SumOf(rows, RowCountOf)
  {
    TotalEmittedBound(TypeTotals(rows));
    TypeTotalsPartition(rows);
  }

  /** The `heatmap` object: one row of 24 samples per type, in type order. */
  function Heatmap(types: seq<string>, totals: seq<nat>): (rows: seq<TypeRow>)
    requires |types| == |totals|
    ensures |rows| == |types|
  {
    seq(|types|, j requires 0 <= j < |types| => TypeRow(types[j], HourlyRow(totals[j])))
  }

  /**
   * `get_hourly_distribution` after the query: for no rows the empty
   * response; otherwise, type by type, 24 samples are appended, each added to
   * its hour's total and to `total_crimes`, and the peak hours are chosen
   * from the hourly totals.
   */
  method HourlyDistribution(rows: seq<DailyRow>) returns (heatmap: seq<TypeRow>, peakHours: seq<int>, totalCrimes: int)
    ensures rows == [] ==> heatmap == [] && peakHours == [] && totalCrimes == 0
    ensures rows != [] ==>
              && heatmap == Heatmap(TypesOf(rows), TypeTotals(rows))
              && peakHours == PeakHours(HourlyTotals(TypeTotals(rows)))
              && totalCrimes == TotalEmitted(TypeTotals(rows))
    ensures 0 <= 1000 * totalCrimes <= 920 * SumOf(rows, RowCountOf)
  {
    if rows == [] {
      return [], [], 0;
    }
    var types := TypesOf(rows);
    ghost var totals := TypeTotals(rows);
    heatmap := [];
    var hourlyTotals := seq(HoursPerDay, h => 0);
    totalCrimes := 0;
    var i := 0;
    while i < |types|
      invariant 0 <= i <= |types|
      invariant heatmap == Heatmap(types, totals)[..i]
      invariant |hourlyTotals| == HoursPerDay
      invariant forall h :: 0 <= h < HoursPerDay ==> hourlyTotals[h] == HourColumn(totals[..i], h)
      invariant totalCrimes == TotalEmitted(totals[..i])
    {
      var totalForType := TypeTotal(rows, types[i]);
      ColumnsSnoc(totals, i);
      var hourlyData;
      hourlyData, hourlyTotals, totalCrimes := EmitHours(totalForType, hourlyTotals, totalCrimes);
      heatmap := heatmap + [TypeRow(types[i], hourlyData)];
      PrefixSnoc(Heatmap(types, totals), i);
      i := i + 1;
    }
    assert totals[..i] == totals;
    assert hourlyTotals == HourlyTotals(totals);
    peakHours := PeakHours(hourlyTotals);
    HourlyTotalCrimesBound(rows);
  }

  /** One more type adds its hourly counts to every column and its row sum to the total. */
  lemma ColumnsSnoc(totals: seq<nat>, i: nat)
    requires i < |totals|
    ensures forall h :: 0 <= h < HoursPerDay ==> HourColumn(totals[..i + 1], h) == HourColumn(totals[..i], h) + HourlyCount(totals[i], h)
    ensures TotalEmitted(totals[..i + 1]) == TotalEmitted(totals[..i]) + RowPrefixSum(totals[i], HoursPerDay)
  {
    assert totals[..i + 1][..i] == totals[..i];
  }

  /**
   * The inner loop for one type: for each hour 0 to 23 the weighted count is
   * appended to the type's samples and added to its hour's total and to the
   * running `total_crimes`.
   */
  method EmitHours(totalForType: nat, hourlyTotals: seq<int>, totalCrimes: int)
    returns (hourlyData: seq<HourCount>, hourlyTotals': seq<int>, totalCrimes': int)
    requires |hourlyTotals| == HoursPerDay
    ensures hourlyData == HourlyRow(totalForType)
    ensures |hourlyTotals'| == HoursPerDay
    ensures forall h :: 0 <= h < HoursPerDay ==> hourlyTotals'[h] == hourlyTotals[h] + HourlyCount(totalForType, h)
    ensures totalCrimes' == totalCrimes + RowPrefixSum(totalForType, HoursPerDay)
  {
    hourlyData := [];
    hourlyTotals' := hourlyTotals;
    totalCrimes' := totalCrimes;
    var hour := 0;
    while hour < HoursPerDay
      invariant 0 <= hour <= HoursPerDay
      invariant hourlyData == HourlyRowPrefix(totalForType, hour)
      invariant |hourlyTotals'| == HoursPerDay
      invariant forall h :: 0 <= h < hour ==> hourlyTotals'[h] == hourlyTotals[h] + HourlyCount(totalForType, h)
      invariant forall h :: hour <= h < HoursPerDay ==> hourlyTotals'[h] == hourlyTotals[h]
      invariant totalCrimes' == totalCrimes + RowPrefixSum(totalForType, hour)
    {
      var hourlyCount := HourlyCount(totalForType, hour);
      hourlyData := hourlyData + [HourCount(hour, hourlyCount)];
      hourlyTotals' := hourlyTotals'[hour := hourlyTotals'[hour] + hourlyCount];
      totalCrimes' := totalCrimes' + hourlyCount;
      hour := hour + 1;
    }
  }

  /**
   * The response's `total_crimes` is the sum of its hourly totals and at
   * most 92 % of all the crimes the types were given.
   */
  lemma HourlyResponseTotals(totals: seq<nat>)
    ensures Sum(HourlyTotals(totals)) == TotalEmitted(totals)
    ensures 0 <= 1000 * TotalEmitted(totals) <= 920 * Sum(totals)
  {
    ColumnPrefixIsSum(totals, HoursPerDay);
    assert HourlyTotals(totals)[..HoursPerDay] == HourlyTotals(totals);
    HourlyTotalsAddUp(totals);
    TotalEmittedBound(totals);
  }

  // ------------------------------------------------------- the trends route

  /** One record of a type's series: the day, its count and the moving average. */
  datatype TrendPoint = TrendPoint(date: string, count: nat, movingAvg: real)

  /** One entry of `trends`. */
  datatype CrimeTrend = CrimeTrend(crimeType: string, data: seq<TrendPoint>, trend: TrendLabel, slope: real)

  const Window := 7

  /** First index of the rolling window ending at `i`: `max(0, i - 6)`. */
  function WindowStart(i: nat): nat
  {
    if i >= Window - 1 then i - (Window - 1) else 0
  }

  function CountOfRow(r: DailyRow): int { r.count }

  /** Mean of the counts of a non-empty run of rows. */
  function MeanCount(rows: seq<DailyRow>): real
    requires rows != []
  {
    SumOf(rows, CountOfRow) as real / |rows| as real
  }

  /** `rolling(window=7, min_periods=1).mean()`: the mean of up to seven counts ending at each row. */
  function MovingAverage(rows: seq<DailyRow>): (avg: seq<real>)
    ensures |avg| == |rows|
  {
    seq(|rows|, i requires 0 <= i < |rows| => MeanCount(rows[WindowStart(i)..i + 1]))
  }

  /**
   * The window holds the last `min(i + 1, 7)` rows, so every average lies
   * between the smallest and the largest count of the series, and the first
   * average is the first count.
   */
  lemma MovingAverageBounds(rows: seq<DailyRow>, lo: int, hi: int)
    requires forall i :: 0 <= i < |rows| ==> lo <= rows[i].count <= hi
    ensures forall i :: 0 <= i < |rows| ==> |rows[WindowStart(i)..i + 1]| == (if i < Window then i + 1 else Window)
    ensures forall i :: 0 <= i < |rows| ==> lo as real <= MovingAverage(rows)[i] <= hi as real
    ensures rows != [] ==> MovingAverage(rows)[0] == rows[0].count as real
  {
    forall i | 0 <= i < |rows| ensures lo as real <= MovingAverage(rows)[i] <= hi as real {
      MeanCountBounds(rows[WindowStart(i)..i + 1], lo, hi);
    }
    if rows != [] {
      var w := rows[0..1];
      assert w[..0] == [];
      assert SumOf(w, CountOfRow) == rows[0].count;
    }
  }

  lemma MeanCountBounds(w: seq<DailyRow>, lo: int, hi: int)
    requires w != []
    requires forall i :: 0 <= i < |w| ==> lo <= w[i].count <= hi
    ensures lo as real <= MeanCount(w) <= hi as real
  {
    var total := SumOf(w, CountOfRow);
    SumOfBounds(w, CountOfRow, lo, hi);
    ScaledBoundsAsReal(total, |w|, lo, hi);
    QuotientBounds(total as real, |w| as real, lo as real, hi as real);
  }

  lemma ScaledBoundsAsReal(total: int, n: int, lo: int, hi: int)
    requires lo * n <= total <= hi * n
    ensures lo as real * n as real <= total as real <= hi as real * n as real
  {
    assert (lo * n) as real == lo as real * n as real;
    assert (hi * n) as real == hi as real * n as real;
  }

  /** Sum over the first `k` days of `(x - xMean) * (y - yMean)`. */
  function CoSum(ys: seq<int>, k: nat, xMean: real, yMean: real): real
    requires k <= |ys|
  {
    if k == 0 then 0.0 else CoSum(ys, k - 1, xMean, yMean) + ((k - 1) as real - xMean) * (ys[k - 1] as real - yMean)
  }

  /** Sum over the first `k` days of `(x - xMean)^2`. */
  function VarSum(k: nat, xMean: real): real
  {
    if k == 0 then 0.0 else VarSum(k - 1, xMean) + ((k - 1) as real - xMean) * ((k - 1) as real - xMean)
  }

  function MeanOf(ys: seq<int>): real
    requires ys != []
  {
    Sum(ys) as real / |ys| as real
  }

  /**
   * `np.polyfit(range(n), counts, 1)[0]`: the least-squares slope of the
   * counts against the day index.
   */
  function Slope(ys: seq<int>): real
    requires |ys| >= 2
  {
    var xMean := (|ys| - 1) as real / 2.0;
    VarSumPositive(|ys|, xMean);
    CoSum(ys, |ys|, xMean, MeanOf(ys)) / VarSum(|ys|, xMean)
  }

  /** With two or more days the mean day index is at least one half and the spread at least a quarter, so the slope is defined. */
  lemma {:induction false} VarSumPositive(k: nat, xMean: real)
    requires k >= 1 && xMean >= 0.5
    ensures VarSum(k, xMean) >= 0.25
  {
    VarSumAtLeastFirst(k, xMean);
  }

  lemma {:induction false} VarSumAtLeastFirst(k: nat, xMean: real)
    requires k >= 1
    ensures VarSum(k, xMean) >= xMean * xMean
  {
    var d := (k - 1) as real - xMean;
    if k > 1 {
      VarSumAtLeastFirst(k - 1, xMean);
      assert d * d >= 0.0 by {
        if d < 0.0 {
          assert (-d) * (-d) >= 0.0;
        }
      }
    } else {
      assert d * d == xMean * xMean;
    }
  }

  /** The trend and slope of one type's series: a single day is 'stable' with slope 0. */
  function TrendOf(ys: seq<int>): (r: (TrendLabel, real))
    ensures |ys| <= 1 ==> r == (Steady, 0.0)
    ensures |ys| > 1 ==> r.1 == Slope(ys) && (r.0 == Increasing <==> r.1 > 0.0) && r.0 != Steady
  {
    if |ys| > 1 then
      var slope := Slope(ys);
      (if slope > 0.0 then Increasing else Decreasing, slope)
    else
      (Steady, 0.0)
  }

  /** A flat series has slope 0 and is reported 'decreasing', not 'stable'. */
  lemma FlatSeriesReadsDecreasing(ys: seq<int>, c: int)
    requires |ys| >= 2 && forall i :: 0 <= i < |ys| ==> ys[i] == c
    ensures Slope(ys) == 0.0 && TrendOf(ys).0 == Decreasing
  {
    ConstantSum(ys, c);
    var n := |ys| as real;
    assert (|ys| * c) as real == n * c as real;
    assert MeanOf(ys) == c as real;
    var xMean := (|ys| - 1) as real / 2.0;
    ZeroCoSum(ys, |ys|, xMean, c);
    VarSumPositive(|ys|, xMean);
    assert Slope(ys) == CoSum(ys, |ys|, xMean, MeanOf(ys)) / VarSum(|ys|, xMean);
  }

  lemma {:induction false} ConstantSum(ys: seq<int>, c: int)
    requires forall i :: 0 <= i < |ys| ==> ys[i] == c
    ensures Sum(ys) == |ys| * c
  {
    if ys != [] {
      ConstantSum(ys[..|ys| - 1], c);
    }
  }

  lemma {:induction false} ZeroCoSum(ys: seq<int>, k: nat, xMean: real, c: int)
    requires k <= |ys| && forall i :: 0 <= i < |ys| ==> ys[i] == c
    ensures CoSum(ys, k, xMean, c as real) == 0.0
  {
    if k > 0 {
      ZeroCoSum(ys, k - 1, xMean, c);
      assert ys[k - 1] as real == c as real;
      assert CoSum(ys, k, xMean, c as real) == CoSum(ys, k - 1, xMean, c as real) + ((k - 1) as real - xMean) * 0.0;
    }
  }

  /** Over two days the trend is 'increasing' exactly when the second day is higher. */
  lemma TwoDayTrend(a: int, b: int)
    ensures TrendOf([a, b]).0 == Increasing <==> b > a
  {
    var ys := [a, b];
    assert ys[..1] == [a] && [a][..0] == [];
    assert Sum([a]) == a;
    assert Sum(ys) == a + b;
    var m := (a + b) as real / 2.0;
    assert MeanOf(ys) == m;
    assert CoSum(ys, 1, 0.5, m) == -0.5 * (a as real - m);
    assert CoSum(ys, 2, 0.5, m) == -0.5 * (a as real - m) + 0.5 * (b as real - m);
    assert CoSum(ys, 2, 0.5, m) == (b - a) as real / 2.0;
    assert VarSum(2, 0.5) == 0.5;
  }

  /** The series of one type: its rows' dates and counts with their moving averages. */
  function SeriesOf(rows: seq<DailyRow>): (points: seq<TrendPoint>)
    ensures |points| == |rows|
  {
    var avg := MovingAverage(rows);
    seq(|rows|, i requires 0 <= i < |rows| => TrendPoint(rows[i].date, rows[i].count, avg[i]))
  }

  function CountsOf(rows: seq<DailyRow>): (ys: seq<int>)
    ensures |ys| == |rows|
  {
    seq(|rows|, i requires 0 <= i < |rows| => rows[i].count)
  }

  /** The trend entry of one crime type. */
  function CrimeTrendOf(rows: seq<DailyRow>, t: string): CrimeTrend
  {
    var typeRows := RowsOfType(rows, t);
    var trend := TrendOf(CountsOf(typeRows));
    CrimeTrend(t, SeriesOf(typeRows), trend.0, trend.1)
  }

  /**
   * `get_temporal_trends` after the query: no rows give no trends; otherwise
   * one entry is appended per crime type, in order of first appearance.
   */
  method TemporalTrends(rows: seq<DailyRow>) returns (trends: seq<CrimeTrend>)
    ensures |trends| == |TypesOf(rows)|
    ensures rows == [] ==> trends == []
    ensures forall j :: 0 <= j < |trends| ==> trends[j] == CrimeTrendOf(rows, TypesOf(rows)[j])
  {
    if rows == [] {
      return [];
    }
    var types := TypesOf(rows);
    trends := [];
    var i := 0;
    while i < |types|
      invariant 0 <= i <= |types|
      invariant |trends| == i
      invariant forall j :: 0 <= j < i ==> trends[j] == CrimeTrendOf(rows, types[j])
    {
      var crimeRows := RowsOfType(rows, types[i]);
      var trend := TrendOf(CountsOf(crimeRows));
      trends := trends + [CrimeTrend(types[i], SeriesOf(crimeRows), trend.0, trend.1)];
      i := i + 1;
    }
  }

  /** Every type of the query gets an entry with at least one day, and the entries are distinct types. */
  lemma TrendsCoverTypes(rows: seq<DailyRow>)
    ensures forall t :: t in TypesOf(rows) <==> exists i :: 0 <= i < |rows| && rows[i].crimeType == t
    ensures forall t :: t in TypesOf(rows) ==> RowsOfType(rows, t) != []
    ensures Distinct(TypesOf(rows))
  {
    forall t
      ensures t in TypesOf(rows) <==> exists i :: 0 <= i < |rows| && rows[i].crimeType == t
      ensures t in TypesOf(rows) ==> RowsOfType(rows, t) != []
    {
      TypeInColumn(rows, t);
      if t in TypesOf(rows) {
        var i :| 0 <= i < |rows| && rows[i].crimeType == t;
        TypeRowKept(rows, t, i);
      }
    }
  }

  lemma TypeInColumn(rows: seq<DailyRow>, t: string)
    ensures t in TypesOf(rows) <==> exists i :: 0 <= i < |rows| && rows[i].crimeType == t
  {
    var col := TypeColumn(rows);
    assert t in TypesOf(rows) <==> t in col;
    if t in col {
      var i :| 0 <= i < |col| && col[i] == t;
      assert rows[i].crimeType == t;
    }
    if exists i :: 0 <= i < |rows| && rows[i].crimeType == t {
      var i :| 0 <= i < |rows| && rows[i].crimeType == t;
      assert col[i] == t;
    }
  }

  lemma {:induction false} TypeRowKept(rows: seq<DailyRow>, t: string, i: nat)
    requires i < |rows| && rows[i].crimeType == t
    ensures RowsOfType(rows, t) != []
  {
    if i < |rows| - 1 {
      TypeRowKept(rows[..|rows| - 1], t, i);
    }
  }
}
