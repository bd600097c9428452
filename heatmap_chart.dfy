/**
 * The hour-by-crime-type heatmap. The `heatmap` object of the temporal
 * summary arrives as rows in key order (a JavaScript object lists string keys
 * in insertion order); each row is drawn as 24 dense cells coloured by one of
 * four intensity tiers relative to the largest count on screen.
 */
module HeatmapChart {
  import opened Common
  import opened Numeric
  import opened ApiTypes

  const MaxRows := 10
  const HoursPerDay := 24

  /** `data[type] && data[type].length > 0`: a row is drawn when it has samples. */
  predicate HasSamples(row: TypeRow)
  {
    |row.hours| > 0
  }

  /** The rows among `rows` that have samples, in order. */
  function NonEmptyRows(rows: seq<TypeRow>): (r: seq<TypeRow>)
    ensures |r| <= |rows|
    ensures forall t :: t in r <==> t in rows && HasSamples(t)
  {
    if rows == [] then []
    else
      var init := NonEmptyRows(rows[..|rows| - 1]);
      assert rows == rows[..|rows| - 1] + [rows[|rows| - 1]];
      if HasSamples(rows[|rows| - 1]) then init + [rows[|rows| - 1]] else init
  }

  /**
   * `crimeTypes`: the first ten keys are taken and then filtered, so the
   * selection is at most ten rows, all with samples, all among the first ten.
   */
  function DisplayedRows(data: seq<TypeRow>): (r: seq<TypeRow>)
    ensures |r| <= MaxRows
    ensures forall t :: t in r <==> (t in data[..if |data| < MaxRows then |data| else MaxRows] && HasSamples(t))
  {
    NonEmptyRows(data[..if |data| < MaxRows then |data| else MaxRows])
  }

  /**
   * Because the cut comes before the filter, an empty row among the first ten
   * costs a slot even when an eleventh row has samples.
   */
  lemma CutBeforeFilter(empty: TypeRow, full: TypeRow)
    requires empty.hours == [] && full.hours != []
    ensures var data := [empty] + seq(MaxRows, _ => full);
            |DisplayedRows(data)| == MaxRows - 1 && HasSamples(data[MaxRows])
  {
    var data := [empty] + seq(MaxRows, _ => full);
    var head := data[..MaxRows];
    assert head == [empty] + seq(MaxRows - 1, _ => full);
    NonEmptyRowsCount([empty], seq(MaxRows - 1, _ => full));
    assert NonEmptyRows([empty]) == [] by {
      assert [empty][..0] == [];
    }
    AllNonEmpty(seq(MaxRows - 1, _ => full));
  }

  lemma {:induction false} NonEmptyRowsCount(a: seq<TypeRow>, b: seq<TypeRow>)
    ensures NonEmptyRows(a + b) == NonEmptyRows(a) + NonEmptyRows(b)
  {
    if b == [] {
      assert a + b == a;
    } else {
      assert (a + b)[..|a + b| - 1] == a + b[..|b| - 1];
      NonEmptyRowsCount(a, b[..|b| - 1]);
    }
  }

  lemma {:induction false} AllNonEmpty(rows: seq<TypeRow>)
    requires forall i :: 0 <= i < |rows| ==> HasSamples(rows[i])
    ensures NonEmptyRows(rows) == rows
  {
    if rows != [] {
      AllNonEmpty(rows[..|rows| - 1]);
      assert rows == rows[..|rows| - 1] + [rows[|rows| - 1]];
    }
  }

  /** The running maximum `if (item.count > max) max = item.count` over one row. */
  function FoldMax(acc: int, items: seq<HourCount>): int
  {
    if items == [] then acc
    else
      var m := FoldMax(acc, items[..|items| - 1]);
      if items[|items| - 1].count > m then items[|items| - 1].count else m
  }

  /** The same running maximum from 0 over the rows in order. */
  function TableMax(rows: seq<TypeRow>): int
  {
    if rows == [] then 0 else FoldMax(TableMax(rows[..|rows| - 1]), rows[|rows| - 1].hours)
  }

  /**
   * `maxCount`: the nested `forEach` that raises `max` whenever an item's
   * count exceeds it.
   */
  method MaxCount(rows: seq<TypeRow>) returns (max: int)
    ensures max == TableMax(rows)
  {
    max := 0;
    var i := 0;
    while i < |rows|
      invariant 0 <= i <= |rows|
      invariant max == TableMax(rows[..i])
    {
      var items := rows[i].hours;
      var j := 0;
      while j < |items|
        invariant 0 <= j <= |items|
        invariant max == FoldMax(TableMax(rows[..i]), items[..j])
      {
        assert items[..j + 1][..j] == items[..j];
        if items[j].count > max {
          max := items[j].count;
        }
        j := j + 1;
      }
      assert items[..j] == items;
      assert rows[..i + 1][..i] == rows[..i];
      i := i + 1;
    }
    assert rows[..i] == rows;
  }

  lemma {:induction false} FoldMaxBounds(acc: int, items: seq<HourCount>)
    ensures FoldMax(acc, items) >= acc
    ensures forall k :: 0 <= k < |items| ==> items[k].count <= FoldMax(acc, items)
    ensures FoldMax(acc, items) == acc || exists k :: 0 <= k < |items| && items[k].count == FoldMax(acc, items)
  {
    if items != [] {
      var init := items[..|items| - 1];
      FoldMaxBounds(acc, init);
      var m := FoldMax(acc, init);
      forall k | 0 <= k < |items| ensures items[k].count <= FoldMax(acc, items) {
        if k < |items| - 1 {
          assert items[k] == init[k];
        }
      }
      if FoldMax(acc, items) != acc && FoldMax(acc, items) == m {
        var k :| 0 <= k < |init| && init[k].count == m;
        assert items[k] == init[k];
      }
    }
  }

  /**
   * `maxCount` is non-negative, bounds every count of every drawn row, and is
   * either 0 or a count that occurs.
   */
  lemma {:induction false} TableMaxBounds(rows: seq<TypeRow>)
    ensures TableMax(rows) >= 0
    ensures forall i, k :: 0 <= i < |rows| && 0 <= k < |rows[i].hours| ==> rows[i].hours[k].count <= TableMax(rows)
    ensures TableMax(rows) == 0 ||
            exists i, k :: 0 <= i < |rows| && 0 <= k < |rows[i].hours| && rows[i].hours[k].count == TableMax(rows)
  {
    if rows != [] {
      var init := rows[..|rows| - 1];
      var last := rows[|rows| - 1];
      TableMaxBounds(init);
      FoldMaxBounds(TableMax(init), last.hours);
      forall i, k | 0 <= i < |rows| && 0 <= k < |rows[i].hours| ensures rows[i].hours[k].count <= TableMax(rows) {
        if i < |rows| - 1 {
          assert rows[i] == init[i];
        }
      }
      if TableMax(rows) != 0 {
        if TableMax(rows) == TableMax(init) {
          var i, k :| 0 <= i < |init| && 0 <= k < |init[i].hours| && init[i].hours[k].count == TableMax(init);
          assert rows[i] == init[i];
        } else {
          var k :| 0 <= k < |last.hours| && last.hours[k].count == TableMax(rows);
          assert rows[|rows| - 1].hours[k].count == TableMax(rows);
        }
      }
    }
  }

  /** The four teal shades and the no-data colour of `getColor`. */
  datatype Tier = NoData | Light | Medium | Dark | Darkest

  function TierRank(t: Tier): nat
  {
    match t
    case NoData => 0
    case Light => 1
    case Medium => 2
    case Dark => 3
    case Darkest => 4
  }

  /**
   * `getColor`: a zero count is never divided; otherwise the intensity
   * `count / maxCount` is compared with strict thresholds 0.75, 0.50, 0.25.
   */
  function ColorTier(count: int, maxCount: int): Tier
  {
    if count == 0 then NoData
    else
      var intensity := JsDivide(count as real, maxCount as real);
      if JsGreater(intensity, 0.75) then Darkest
      else if JsGreater(intensity, 0.50) then Dark
      else if JsGreater(intensity, 0.25) then Tier.Medium
      else Light
  }

  /** A zero count gets the no-data colour whatever `maxCount` is, even 0. */
  lemma ZeroIsNoData(maxCount: int)
    ensures ColorTier(0, maxCount) == NoData
  {
  }

  /**
   * With a positive maximum, the tiers are the quarters of `maxCount` in
   * integer terms, strict at each threshold.
   */
  lemma TierByQuarters(count: int, maxCount: int)
    requires 0 < count && 0 < maxCount
    ensures ColorTier(count, maxCount) == Darkest <==> 4 * count > 3 * maxCount
    ensures ColorTier(count, maxCount) == Dark <==> 2 * count > maxCount && 4 * count <= 3 * maxCount
    ensures ColorTier(count, maxCount) == Tier.Medium <==> 4 * count > maxCount && 2 * count <= maxCount
    ensures ColorTier(count, maxCount) == Light <==> 4 * count <= maxCount
  {
    var q := count as real / maxCount as real;
    assert q * maxCount as real == count as real;
    QuotientAbove(count as real, maxCount as real, 0.75);
    QuotientAbove(count as real, maxCount as real, 0.50);
    QuotientAbove(count as real, maxCount as real, 0.25);
  }

  lemma QuotientAbove(a: real, d: real, c: real)
    requires d > 0.0
    ensures a / d > c <==> a > c * d
  {
    var q := a / d;
    assert q * d == a;
    assert (q - c) * d == a - c * d;
    if q > c {
      assert (q - c) * d > 0.0;
    } else {
      assert (c - q) * d >= 0.0;
    }
  }

  /** A larger count is never drawn in a lighter tier. */
  lemma TierMonotone(c1: int, c2: int, maxCount: int)
    requires 0 <= c1 <= c2 && 0 < maxCount
    ensures TierRank(ColorTier(c1, maxCount)) <= TierRank(ColorTier(c2, maxCount))
  {
    if c1 > 0 {
      TierByQuarters(c1, maxCount);
      TierByQuarters(c2, maxCount);
    }
  }

  /** The largest count on screen is drawn in the darkest tier. */
  lemma MaxIsDarkest(maxCount: int)
    requires maxCount > 0
    ensures ColorTier(maxCount, maxCount) == Darkest
  {
    TierByQuarters(maxCount, maxCount);
  }

  /** `getCountForHour`: `find` the first sample for `hour`; its count, or 0. */
  function CountForHour(items: seq<HourCount>, hour: int): int
  {
    if items == [] then 0
    else if items[0].hour == hour then items[0].count
    else CountForHour(items[1..], hour)
  }

  /** The count shown is the first matching sample's, and 0 exactly when none matches. */
  lemma {:induction false} CountForHourFirstMatch(items: seq<HourCount>, hour: int)
    ensures (exists i :: 0 <= i < |items| && items[i].hour == hour) ==>
              exists i :: 0 <= i < |items| && items[i].hour == hour && CountForHour(items, hour) == items[i].count &&
                          forall j :: 0 <= j < i ==> items[j].hour != hour
    ensures (forall i :: 0 <= i < |items| ==> items[i].hour != hour) ==> CountForHour(items, hour) == 0
  {
    if items != [] && items[0].hour != hour {
      var rest := items[1..];
      CountForHourFirstMatch(rest, hour);
      if exists i :: 0 <= i < |items| && items[i].hour == hour {
        var i :| 0 <= i < |items| && items[i].hour == hour;
        assert rest[i - 1].hour == hour;
        var k :| 0 <= k < |rest| && rest[k].hour == hour && CountForHour(rest, hour) == rest[k].count &&
                 forall j :: 0 <= j < k ==> rest[j].hour != hour;
        forall j | 0 <= j < k + 1 ensures items[j].hour != hour {
          if j > 0 {
            assert items[j] == rest[j - 1];
          }
        }
        assert items[k + 1] == rest[k];
      } else {
        forall i | 0 <= i < |rest| ensures rest[i].hour != hour {
          assert rest[i] == items[i + 1];
        }
      }
    }
  }

  /** The 24 cells of a row: hour `h` shows `getCountForHour(type, h)`. */
  function DenseRow(items: seq<HourCount>): (cells: seq<int>)
    ensures |cells| == HoursPerDay
  {
    seq(HoursPerDay, h => CountForHour(items, h))
  }

  /** `totalForType`: the sum over the raw samples, not over the drawn cells. */
  function RowTotal(items: seq<HourCount>): int
  {
    SumOf(items, HourCountOf)
  }

  /**
   * When every sample names a distinct hour of the day, the row's label total
   * is the sum of its 24 cells.
   */
  lemma {:induction false} TotalMatchesCells(items: seq<HourCount>)
    requires forall i :: 0 <= i < |items| ==> 0 <= items[i].hour < HoursPerDay
    requires forall i, j :: 0 <= i < j < |items| ==> items[i].hour != items[j].hour
    ensures Sum(DenseRow(items)) == RowTotal(items)
  {
    if items == [] {
      ZeroRow(HoursPerDay);
      assert DenseRow(items) == seq(HoursPerDay, _ => 0);
    } else {
      var init := items[..|items| - 1];
      var x := items[|items| - 1];
      TotalMatchesCells(init);
      var spike := seq(HoursPerDay, h => if h == x.hour then x.count else 0);
      assert items == init + [x];
      forall i | 0 <= i < |init| ensures init[i].hour != x.hour {
        assert init[i] == items[i];
      }
      forall h | 0 <= h < HoursPerDay
        ensures DenseRow(items)[h] == DenseRow(init)[h] + spike[h]
      {
        CountForHourSnoc(init, x, h);
      }
      SumPointwise(DenseRow(init), spike, DenseRow(items));
      SumSpike(HoursPerDay, x.hour, x.count);
    }
  }

  lemma CountForHourSnoc(init: seq<HourCount>, x: HourCount, h: int)
    requires forall i :: 0 <= i < |init| ==> init[i].hour != x.hour
    ensures CountForHour(init + [x], h) == CountForHour(init, h) + (if h == x.hour then x.count else 0)
  {
    var items := init + [x];
    CountForHourFirstMatch(items, h);
    CountForHourFirstMatch(init, h);
    if exists i :: 0 <= i < |init| && init[i].hour == h {
      var i :| 0 <= i < |init| && init[i].hour == h;
      assert items[i].hour == h;
      var k :| 0 <= k < |items| && items[k].hour == h && CountForHour(items, h) == items[k].count &&
               forall j :: 0 <= j < k ==> items[j].hour != h;
      var k' :| 0 <= k' < |init| && init[k'].hour == h && CountForHour(init, h) == init[k'].count &&
                forall j :: 0 <= j < k' ==> init[j].hour != h;
      assert items[k'] == init[k'];
      assert k == k';
    } else if x.hour == h {
      assert items[|init|].hour == h;
      var k :| 0 <= k < |items| && items[k].hour == h && CountForHour(items, h) == items[k].count &&
               forall j :: 0 <= j < k ==> items[j].hour != h;
    } else {
      forall i | 0 <= i < |items| ensures items[i].hour != h {
        if i < |init| {
          assert items[i] == init[i];
        }
      }
    }
  }

  lemma {:induction false} ZeroRow(n: nat)
    ensures Sum(seq(n, _ => 0)) == 0
  {
    if n > 0 {
      assert seq(n, _ => 0)[..n - 1] == seq(n - 1, _ => 0);
      ZeroRow(n - 1);
    }
  }

  lemma {:induction false} SumPointwise(a: seq<int>, b: seq<int>, c: seq<int>)
    requires |a| == |b| == |c|
    requires forall i :: 0 <= i < |c| ==> c[i] == a[i] + b[i]
    ensures Sum(c) == Sum(a) + Sum(b)
  {
    if c != [] {
      var n := |c| - 1;
      SumPointwise(a[..n], b[..n], c[..n]);
    }
  }

  lemma {:induction false} SumSpike(n: nat, k: int, v: int)
    requires 0 <= k < n
    ensures Sum(seq(n, h => if h == k then v else 0)) == v
  {
    var s := seq(n, h => if h == k then v else 0);
    if n - 1 == k {
      assert s[..n - 1] == seq(n - 1, _ => 0);
      ZeroRow(n - 1);
    } else {
      assert s[..n - 1] == seq(n - 1, h => if h == k then v else 0);
      SumSpike(n - 1, k, v);
    }
  }

  /**
   * The label total and the cells can disagree: two samples for hour 0 are
   * both counted in the total but only the first is drawn, and a sample for
   * hour 24 is counted but never drawn.
   */
  lemma TotalCanDifferFromCells()
    ensures RowTotal([HourCount(0, 1), HourCount(0, 2)]) == 3
    ensures Sum(DenseRow([HourCount(0, 1), HourCount(0, 2)])) == 1
    ensures RowTotal([HourCount(24, 5)]) == 5
    ensures Sum(DenseRow([HourCount(24, 5)])) == 0
  {
    var dup := [HourCount(0, 1), HourCount(0, 2)];
    assert dup[..1] == [HourCount(0, 1)];
    assert [HourCount(0, 1)][..0] == [];
    forall h | 0 <= h < HoursPerDay ensures CountForHour(dup, h) == if h == 0 then 1 else 0 {
      assert dup[1..] == [HourCount(0, 2)];
      assert dup[1..][1..] == [];
      if h != 0 {
        assert CountForHour(dup, h) == CountForHour([HourCount(0, 2)], h);
        assert CountForHour([HourCount(0, 2)], h) == CountForHour([], h);
      }
    }
    assert DenseRow(dup) == seq(HoursPerDay, h => if h == 0 then 1 else 0);
    SumSpike(HoursPerDay, 0, 1);
    var late := [HourCount(24, 5)];
    assert late[..0] == [];
    forall h | 0 <= h < HoursPerDay ensures CountForHour(late, h) == 0 {
      assert late[1..] == [];
    }
    assert DenseRow(late) == seq(HoursPerDay, _ => 0);
    ZeroRow(HoursPerDay);
  }

  /** One drawn row: the label, its total and the 24 coloured cells. */
  datatype RowView = RowView(crimeType: string, total: int, cells: seq<int>, tiers: seq<Tier>)

  datatype HeatmapView = NoHeatmap | Grid(rows: seq<RowView>)

  /**
   * The component: the no-data card when no row is drawn; otherwise one row
   * per displayed type, with every cell coloured against the table maximum.
   */
  function Render(data: seq<TypeRow>): (v: HeatmapView)
    ensures v.NoHeatmap? <==> DisplayedRows(data) == []
    ensures v.Grid? ==> |v.rows| == |DisplayedRows(data)| <= MaxRows
    ensures v.Grid? ==> forall i :: 0 <= i < |v.rows| ==>
              |v.rows[i].cells| == HoursPerDay && |v.rows[i].tiers| == HoursPerDay
    ensures v.Grid? ==> forall i :: 0 <= i < |v.rows| ==>
              v.rows[i].crimeType == DisplayedRows(data)[i].crimeType &&
              v.rows[i].total == RowTotal(DisplayedRows(data)[i].hours)
    ensures v.Grid? ==> forall i, h :: 0 <= i < |v.rows| && 0 <= h < HoursPerDay ==>
              v.rows[i].cells[h] == CountForHour(DisplayedRows(data)[i].hours, h) &&
              v.rows[i].tiers[h] == ColorTier(v.rows[i].cells[h], TableMax(DisplayedRows(data)))
  {
    var shown := DisplayedRows(data);
    if shown == [] then NoHeatmap
    else
      var m := TableMax(shown);
      Grid(seq(|shown|, i requires 0 <= i < |shown| =>
        var cells := DenseRow(shown[i].hours);
        RowView(shown[i].crimeType, RowTotal(shown[i].hours), cells,
                seq(HoursPerDay, h requires 0 <= h < HoursPerDay => ColorTier(cells[h], m)))))
  }

  /**
   * No cell of the grid exceeds the table maximum, so no intensity is above
   * 1, and a cell equal to a positive maximum is drawn in the darkest tier.
   */
  lemma RenderCellsWithinMax(data: seq<TypeRow>)
    ensures var v := Render(data);
            var m := TableMax(DisplayedRows(data));
            v.Grid? ==> forall i, h :: 0 <= i < |v.rows| && 0 <= h < HoursPerDay ==>
              v.rows[i].cells[h] <= m && (v.rows[i].cells[h] == m > 0 ==> v.rows[i].tiers[h] == Darkest)
  {
    var v := Render(data);
    var shown := DisplayedRows(data);
    var m := TableMax(shown);
    TableMaxBounds(shown);
    if v.Grid? {
      forall i, h | 0 <= i < |v.rows| && 0 <= h < HoursPerDay
        ensures v.rows[i].cells[h] <= m && (v.rows[i].cells[h] == m > 0 ==> v.rows[i].tiers[h] == Darkest)
      {
        var items := shown[i].hours;
        CountForHourFirstMatch(items, h);
        if exists k :: 0 <= k < |items| && items[k].hour == h {
          var k :| 0 <= k < |items| && items[k].hour == h && CountForHour(items, h) == items[k].count;
          assert shown[i].hours[k].count <= m;
        }
        if m > 0 {
          MaxIsDarkest(m);
        }
      }
    }
  }
}
