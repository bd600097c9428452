/**
 * The dashboard's derived values: the month-over-month change badge, the
 * heat-layer points, the CSV export and the records-in-view bar.
 */
module Dashboard {
  import opened Common
  import opened Numeric
  import opened Text
  import opened ApiTypes

  // ---------------------------------------------------------- monthly change

  /**
   * The change badge: the literal text "0" when there are fewer than two
   * months, otherwise what `toFixed(1)` shows for the change in percent.
   */
  datatype ChangeText = NoComparison | Fixed(shown: Shown)

  /**
   * `monthlyChange`: the last month against the one before it. The division
   * by the earlier month's count is not guarded.
   */
  function MonthlyChange(trends: seq<MonthlyTrend>): (r: ChangeText)
    ensures r.NoComparison? <==> |trends| < 2
  {
    if |trends| < 2 then NoComparison
    else
      var latest := trends[|trends| - 1].crimeCount;
      var previous := trends[|trends| - 2].crimeCount;
      Fixed(ShowFixed1(JsScale(JsDivide((latest - previous) as real, previous as real), 100.0)))
  }

  /** Only the last two months matter; everything before them is ignored. */
  lemma MonthlyChangeUsesLastTwo(a: seq<MonthlyTrend>, b: seq<MonthlyTrend>, previous: MonthlyTrend, latest: MonthlyTrend)
    ensures MonthlyChange(a + [previous, latest]) == MonthlyChange(b + [previous, latest])
  {
    var s, t := a + [previous, latest], b + [previous, latest];
    assert s[|s| - 1] == latest == t[|t| - 1];
    assert s[|s| - 2] == previous == t[|t| - 2];
  }

  /**
   * With a positive earlier count the badge is the percentage change to one
   * decimal: within 0.05 of the exact value, and negative exactly when the
   * latest month is lower.
   */
  lemma MonthlyChangeOfPositive(trends: seq<MonthlyTrend>)
    requires |trends| >= 2 && trends[|trends| - 2].crimeCount > 0
    ensures var latest := trends[|trends| - 1].crimeCount as real;
            var previous := trends[|trends| - 2].crimeCount as real;
            var exact := (latest - previous) / previous * 100.0;
            && MonthlyChange(trends).shown.Decimal?
            && -0.05 <= ValueOf(MonthlyChange(trends).shown.f) - exact <= 0.05
            && (MonthlyChange(trends).shown.f.negative <==> latest < previous)
  {
    var latest := trends[|trends| - 1].crimeCount as real;
    var previous := trends[|trends| - 2].crimeCount as real;
    var q := (latest - previous) / previous;
    assert q * previous == latest - previous;
    assert q < 0.0 <==> latest < previous by {
      if q < 0.0 {
        assert q * previous < 0.0;
      } else {
        assert q * previous >= 0.0;
      }
    }
  }

  /**
   * An earlier month with no crimes: the badge reads "Infinity" after a rise,
   * "NaN" when both months are zero.
   */
  lemma MonthlyChangeAfterZero(trends: seq<MonthlyTrend>)
    requires |trends| >= 2 && trends[|trends| - 2].crimeCount == 0
    ensures trends[|trends| - 1].crimeCount > 0 ==> MonthlyChange(trends) == Fixed(Infinity(false))
    ensures trends[|trends| - 1].crimeCount == 0 ==> MonthlyChange(trends) == Fixed(NotANumber)
    ensures trends[|trends| - 1].crimeCount < 0 ==> MonthlyChange(trends) == Fixed(Infinity(true))
  {
  }

  // ------------------------------------------------------------- heat layer

  /** One heat-layer point `[lat, lng, intensity]`; `None` stands for `undefined`. */
  datatype HeatPoint = HeatPoint(lat: Option<real>, lng: Option<real>, intensity: real)

  const Intensity := 0.8

  /** A feature has a geometry with a coordinate array (any array is truthy). */
  predicate HasGeometry(f: Feature)
  {
    f.coordinates.Some?
  }

  /** The GeoJSON position `[lng, lat]` swapped into `[lat, lng, 0.8]`. */
  function HeatPointOf(f: Feature): (p: HeatPoint)
    ensures p.lat == Coordinate(f, 1) && p.lng == Coordinate(f, 0) && p.intensity == Intensity
  {
    HeatPoint(Coordinate(f, 1), Coordinate(f, 0), Intensity)
  }

  /** `heatData`: the features with a geometry, in order, each as a heat point. */
  function HeatData(features: seq<Feature>): (points: seq<HeatPoint>)
    ensures |points| <= |features|
  {
    if features == [] then []
    else
      var f := features[|features| - 1];
      HeatData(features[..|features| - 1]) + (if HasGeometry(f) then [HeatPointOf(f)] else [])
  }

  /** Number of features that have a geometry. */
  function WithGeometry(features: seq<Feature>): nat
  {
    if features == [] then 0
    else WithGeometry(features[..|features| - 1]) + (if HasGeometry(features[|features| - 1]) then 1 else 0)
  }

  /** The filter distributes over concatenation, so it keeps the features' order. */
  lemma {:induction false} HeatDataAppend(a: seq<Feature>, b: seq<Feature>)
    ensures HeatData(a + b) == HeatData(a) + HeatData(b)
  {
    if b == [] {
      assert a + b == a;
    } else {
      var b' := b[..|b| - 1];
      assert (a + b)[..|a + b| - 1] == a + b';
      assert (a + b)[|a + b| - 1] == b[|b| - 1];
      HeatDataAppend(a, b');
    }
  }

  /** One point per feature with a geometry, and none for the others. */
  lemma {:induction false} HeatDataLength(features: seq<Feature>)
    ensures |HeatData(features)| == WithGeometry(features)
  {
    if features != [] {
      HeatDataLength(features[..|features| - 1]);
    }
  }

  /** A single feature gives its swapped point exactly when it has a geometry. */
  lemma HeatDataOfOne(f: Feature)
    ensures HasGeometry(f) ==> HeatData([f]) == [HeatPoint(Coordinate(f, 1), Coordinate(f, 0), 0.8)]
    ensures !HasGeometry(f) ==> HeatData([f]) == []
  {
    assert [f][..0] == [];
  }

  /** When every feature has a geometry, the points are the features' swapped positions, index by index. */
  lemma {:induction false} HeatDataAllGeometry(features: seq<Feature>)
    requires forall i :: 0 <= i < |features| ==> HasGeometry(features[i])
    ensures |HeatData(features)| == |features|
    ensures forall i :: 0 <= i < |features| ==> HeatData(features)[i] == HeatPointOf(features[i])
  {
    if features != [] {
      HeatDataAllGeometry(features[..|features| - 1]);
    }
  }

  // ------------------------------------------------------------- CSV export

  const Header: seq<string> := ["ID", "Date", "Crime Type", "District", "Latitude", "Longitude"]

  /**
   * One data row. A missing coordinate array makes `coordinates[1]` throw,
   * which abandons the export (`None`); a short array yields `undefined`,
   * which `join` writes as the empty text. `show` is the number-to-text
   * conversion of the runtime.
   */
  function FeatureRow(f: Feature, show: real -> string): (row: Option<seq<string>>)
    ensures row.None? <==> !HasGeometry(f)
    ensures row.Some? ==> |row.value| == |Header|
  {
    if !HasGeometry(f) then None
    else
      var cell := (c: Option<real>) => match c case Some(x) => show(x) case None => "";
      Some([IntToString(f.properties.id), f.properties.date, f.properties.crimeType,
            JoinText(f.properties.district), cell(Coordinate(f, 1)), cell(Coordinate(f, 0))])
  }

  /** The header row followed by one row per feature, or `None` when any feature lacks a geometry. */
  function ExportRows(features: seq<Feature>, show: real -> string): (rows: Option<seq<seq<string>>>)
    ensures rows.None? <==> exists i :: 0 <= i < |features| && !HasGeometry(features[i])
    ensures rows.Some? ==> |rows.value| == |features| + 1 && rows.value[0] == Header
    ensures rows.Some? ==> forall i :: 0 <= i < |features| ==> Some(rows.value[i + 1]) == FeatureRow(features[i], show)
    ensures rows.Some? ==> forall i :: 0 <= i < |rows.value| ==> |rows.value[i]| == |Header|
  {
    if features == [] then Some([Header])
    else
      var last := features[|features| - 1];
      assert forall i :: 0 <= i < |features| - 1 ==> features[..|features| - 1][i] == features[i];
      match ExportRows(features[..|features| - 1], show)
      case None => None
      case Some(init) =>
        match FeatureRow(last, show)
        case None => None
        case Some(row) =>
          assert forall i :: 0 <= i < |init| ==> (init + [row])[i] == init[i];
          Some(init + [row])
  }

  /** `rows.map(row => row.join(',')).join('\n')`. */
  function CsvContent(rows: seq<seq<string>>): string
  {
    Join(seq(|rows|, i requires 0 <= i < |rows| => Join(rows[i], ',')), '\n')
  }

  /** Splitting at a character gives one piece more than there are such characters. */
  lemma {:induction false} SplitLength(s: string, sep: char)
    ensures |Split(s, sep)| == CountChar(s, sep) + 1
  {
    if s != [] {
      SplitLength(s[..|s| - 1], sep);
    }
  }

  /** A joined text holds a character other than the separator only where a part does. */
  lemma {:induction false} JoinAvoids(parts: seq<string>, sep: char, c: char)
    requires c != sep
    requires forall i :: 0 <= i < |parts| ==> c !in parts[i]
    ensures c !in Join(parts, sep)
  {
    if |parts| > 1 {
      JoinAvoids(parts[..|parts| - 1], sep, c);
    }
  }

  /**
   * No quoting is applied: reading the export back by commas gives six
   * fields plus one for every comma inside a field, so a value with a comma
   * shifts every later column of its line.
   */
  lemma FieldsReadBack(row: seq<string>)
    requires |row| == |Header|
    ensures |Split(Join(row, ','), ',')| == |Header| + SumCount(row, ',')
  {
    JoinCount(row, ',');
    SplitLength(Join(row, ','), ',');
  }

  /**
   * When no field holds a comma or a line break, splitting the export by
   * lines and each line by commas gives back exactly the rows.
   */
  lemma CsvRoundTrip(rows: seq<seq<string>>)
    requires rows != []
    requires forall i :: 0 <= i < |rows| ==> rows[i] != []
    requires forall i, j :: 0 <= i < |rows| && 0 <= j < |rows[i]| ==> ',' !in rows[i][j] && '\n' !in rows[i][j]
    ensures var lines := Split(CsvContent(rows), '\n');
            |lines| == |rows| && forall i :: 0 <= i < |rows| ==> Split(lines[i], ',') == rows[i]
  {
    var lines := seq(|rows|, i requires 0 <= i < |rows| => Join(rows[i], ','));
    forall i | 0 <= i < |rows| ensures '\n' !in lines[i] && Split(lines[i], ',') == rows[i] {
      JoinAvoids(rows[i], ',', '\n');
      SplitJoin(rows[i], ',');
    }
    SplitJoin(lines, '\n');
  }

  /**
   * So a single comma in any field of a row, a district such as
   * "Near North, Side" say, makes the line read back with more than six
   * fields.
   */
  lemma CommaBreaksColumns(row: seq<string>, j: nat)
    requires |row| == |Header| && j < |row| && ',' in row[j]
    ensures |Split(Join(row, ','), ',')| > |Header|
  {
    FieldsReadBack(row);
    CountCharPositive(row[j], ',');
    SumCountAtLeast(row, ',', j);
  }

  lemma {:induction false} CountCharPositive(s: string, c: char)
    requires c in s
    ensures CountChar(s, c) >= 1
  {
    if s[|s| - 1] != c {
      assert c in s[..|s| - 1] by {
        var k :| 0 <= k < |s| && s[k] == c;
        assert s[..|s| - 1][k] == c;
      }
      CountCharPositive(s[..|s| - 1], c);
    }
  }

  lemma {:induction false} SumCountAtLeast(parts: seq<string>, c: char, j: nat)
    requires j < |parts|
    ensures SumCount(parts, c) >= CountChar(parts[j], c)
  {
    if j < |parts| - 1 {
      SumCountAtLeast(parts[..|parts| - 1], c, j);
    }
  }

  // -------------------------------------------------------- records in view

  /** `crimeData?.metadata?.count || 0`. */
  function RecentCrimesCount(count: Option<int>): (n: int)
    ensures count.Some? ==> n == count.value
    ensures count.None? ==> n == 0
  {
    match count
    case Some(c) => if c != 0 then c else 0
    case None => 0
  }

  /** The "Records in View" bar width in percent: 0 when the total is 0. */
  function RecordsBarWidth(recent: int, total: int): (w: real)
    ensures total == 0 ==> w == 0.0
  {
    if total != 0 then recent as real / total as real * 100.0 else 0.0
  }

  /** Records within a positive total fill between none and all of the bar, all when they are the total. */
  lemma RecordsBarWithin(recent: int, total: int)
    requires 0 <= recent <= total && total > 0
    ensures 0.0 <= RecordsBarWidth(recent, total) <= 100.0
    ensures recent == total ==> RecordsBarWidth(recent, total) == 100.0
  {
    QuotientBounds(recent as real, total as real, 0.0, 1.0);
    assert total as real / total as real == 1.0;
  }
}
