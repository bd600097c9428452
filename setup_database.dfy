/**
 * The cleaning step of the database set-up script: rename two columns,
 * keep the schema's columns that exist, drop rows missing a coordinate,
 * date or type, keep the rows inside the city's (tighter) box whose date
 * parses, and format the date and year-month text and the filled columns
 * that the SQLite table stores.
 */
module SetupDatabase {
  import opened Common
  import opened Text

  // ------------------------------------------------------------------ cells

  /** One cell of the downloaded CSV: missing (NaN), text, or a number. */
  datatype Value = Null | Str(s: string) | Num(x: real)

  /** A data frame: column labels and, per row, one cell per label. */
  datatype Table = Table(columns: seq<string>, rows: seq<seq<Value>>)

  predicate Rectangular(t: Table)
  {
    forall i :: 0 <= i < |t.rows| ==> |t.rows[i]| == |t.columns|
  }

  /** A row after column selection, keyed by column label. */
  type Row = map<string, Value>

  // ------------------------------------------------------------ timestamps

  /** The years a pandas timestamp can hold. */
  type Year = y: int | 1677 <= y <= 2262 witness 2000
  type Month = m: int | 1 <= m <= 12 witness 1
  type Day = d: int | 1 <= d <= 31 witness 1

  /** The calendar date of a parsed timestamp (its time of day is never written out). */
  datatype Timestamp = Timestamp(year: Year, month: Month, day: Day)

  /** Calendar order of the dates. */
  predicate DateBefore(a: Timestamp, b: Timestamp)
  {
    a.year < b.year || (a.year == b.year && (a.month < b.month || (a.month == b.month && a.day < b.day)))
  }

  // ------------------------------------------------------------ date text

  /** Two decimal digits with a leading zero: `%m`, `%d`. */
  function Pad2(n: nat): (s: string)
    requires n < 100
    ensures |s| == 2 && '0' <= s[0] <= '9' && '0' <= s[1] <= '9'
  {
    [DigitChar(n / 10), DigitChar(n % 10)]
  }

  /** `%Y-%m`: the four-digit year, a dash and the two-digit month. */
  function YearMonthText(t: Timestamp): (s: string)
    ensures |s| == 7 && s[4] == '-'
  {
    Pad2(t.year / 100) + (Pad2(t.year % 100) + ("-" + Pad2(t.month)))
  }

  /** `%Y-%m-%d`: the year-month text, a dash and the two-digit day. */
  function DateText(t: Timestamp): (s: string)
    ensures |s| == 10 && s[4] == '-' && s[7] == '-'
  {
    Pad2(t.year / 100) + (Pad2(t.year % 100) + ("-" + (Pad2(t.month) + ("-" + Pad2(t.day)))))
  }

  /** `year_month` is the first seven characters of `date`: both come from the same timestamp. */
  lemma YearMonthIsDatePrefix(t: Timestamp)
    ensures YearMonthText(t) == DateText(t)[..7]
    ensures DateText(t) == YearMonthText(t) + "-" + Pad2(t.day)
  {
    var a, b, c, d := Pad2(t.year / 100), Pad2(t.year % 100), Pad2(t.month), Pad2(t.day);
    assert DateText(t) == (a + (b + ("-" + c))) + ("-" + d);
  }

  lemma DigitCharValue(d: nat)
    requires d < 10
    ensures DigitChar(d) as int == '0' as int + d
  {
  }

  /** Two-digit text orders and identifies numbers below one hundred. */
  lemma {:induction false} Pad2Order(m: nat, n: nat)
    requires m < 100 && n < 100
    ensures LexLess(Pad2(m), Pad2(n)) <==> m < n
    ensures Pad2(m) == Pad2(n) <==> m == n
  {
    DigitCharValue(m / 10);
    DigitCharValue(m % 10);
    DigitCharValue(n / 10);
    DigitCharValue(n % 10);
    LexLessConcat([DigitChar(m / 10)], [DigitChar(m % 10)], [DigitChar(n / 10)], [DigitChar(n % 10)]);
    assert Pad2(m) == [DigitChar(m / 10)] + [DigitChar(m % 10)];
    assert Pad2(n) == [DigitChar(n / 10)] + [DigitChar(n % 10)];
    assert LexLess([DigitChar(m % 10)], [DigitChar(n % 10)]) <==> m % 10 < n % 10;
    assert LexLess([DigitChar(m / 10)], [DigitChar(n / 10)]) <==> m / 10 < n / 10;
    assert Pad2(m) == Pad2(n) ==> Pad2(m)[0] == Pad2(n)[0] && Pad2(m)[1] == Pad2(n)[1];
  }

  /** A four-digit year splits into its century and its year in the century, in order. */
  lemma YearSplit(y: Year, z: Year)
    ensures y < z <==> y / 100 < z / 100 || (y / 100 == z / 100 && y % 100 < z % 100)
    ensures y == z <==> y / 100 == z / 100 && y % 100 == z % 100
  {
  }

  /**
   * The stored `date` text compares as text exactly as the dates compare in
   * time, and distinct dates have distinct text, so the API's `date >= ?`
   * filters, `ORDER BY date` and `MIN`/`MAX(date)` follow the calendar.
   */
  lemma DateTextOrder(a: Timestamp, b: Timestamp)
    ensures LexLess(DateText(a), DateText(b)) <==> DateBefore(a, b)
    ensures DateText(a) == DateText(b) <==> a == b
  {
    var a1, a2, a3, a4 := Pad2(a.year / 100), Pad2(a.year % 100), Pad2(a.month), Pad2(a.day);
    var b1, b2, b3, b4 := Pad2(b.year / 100), Pad2(b.year % 100), Pad2(b.month), Pad2(b.day);
    Pad2Order(a.year / 100, b.year / 100);
    Pad2Order(a.year % 100, b.year % 100);
    Pad2Order(a.month, b.month);
    Pad2Order(a.day, b.day);
    YearSplit(a.year, b.year);
    LexLessConcat("-", a4, "-", b4);
    LexLessConcat(a3, "-" + a4, b3, "-" + b4);
    LexLessConcat("-", a3 + ("-" + a4), "-", b3 + ("-" + b4));
    LexLessConcat(a2, "-" + (a3 + ("-" + a4)), b2, "-" + (b3 + ("-" + b4)));
    LexLessConcat(a1, a2 + ("-" + (a3 + ("-" + a4))), b1, b2 + ("-" + (b3 + ("-" + b4))));
    assert !LexLess("-", "-");
    SplitEquality(a1, a2 + ("-" + (a3 + ("-" + a4))), b1, b2 + ("-" + (b3 + ("-" + b4))));
    SplitEquality(a2, "-" + (a3 + ("-" + a4)), b2, "-" + (b3 + ("-" + b4)));
    SplitEquality("-", a3 + ("-" + a4), "-", b3 + ("-" + b4));
    SplitEquality(a3, "-" + a4, b3, "-" + b4);
    SplitEquality("-", a4, "-", b4);
  }

  /** The stored `year_month` text compares as the months compare. */
  lemma YearMonthTextOrder(a: Timestamp, b: Timestamp)
    ensures LexLess(YearMonthText(a), YearMonthText(b)) <==>
            a.year < b.year || (a.year == b.year && a.month < b.month)
    ensures YearMonthText(a) == YearMonthText(b) <==> a.year == b.year && a.month == b.month
  {
    var a1, a2, a3 := Pad2(a.year / 100), Pad2(a.year % 100), Pad2(a.month);
    var b1, b2, b3 := Pad2(b.year / 100), Pad2(b.year % 100), Pad2(b.month);
    Pad2Order(a.year / 100, b.year / 100);
    Pad2Order(a.year % 100, b.year % 100);
    Pad2Order(a.month, b.month);
    YearSplit(a.year, b.year);
    LexLessConcat("-", a3, "-", b3);
    LexLessConcat(a2, "-" + a3, b2, "-" + b3);
    LexLessConcat(a1, a2 + ("-" + a3), b1, b2 + ("-" + b3));
    assert !LexLess("-", "-");
    SplitEquality(a1, a2 + ("-" + a3), b1, b2 + ("-" + b3));
    SplitEquality(a2, "-" + a3, b2, "-" + b3);
    SplitEquality("-", a3, "-", b3);
  }

  lemma SplitEquality(a: string, b: string, c: string, d: string)
    requires |a| == |c|
    ensures a + b == c + d <==> a == c && b == d
  {
    if a + b == c + d {
      assert a == (a + b)[..|a|] && c == (c + d)[..|c|];
      assert b == (a + b)[|a|..] && d == (c + d)[|c|..];
    }
  }

  // --------------------------------------------------------------- columns

  const RenameMap: map<string, string> := map["primary_type" := "crime_type", "location_description" := "description"]

  /** `df.rename(columns=rename_map)`: labels in the map are replaced, the rest kept. */
  function Renamed(columns: seq<string>): (r: seq<string>)
    ensures |r| == |columns|
    ensures forall i :: 0 <= i < |columns| ==> r[i] == (if columns[i] in RenameMap then RenameMap[columns[i]] else columns[i])
  {
    seq(|columns|, i requires 0 <= i < |columns| => if columns[i] in RenameMap then RenameMap[columns[i]] else columns[i])
  }

  /** The schema's column under either of its names is found after renaming, and the old names are gone. */
  lemma RenameTargets(columns: seq<string>)
    ensures "crime_type" in Renamed(columns) <==> "primary_type" in columns || "crime_type" in columns
    ensures "description" in Renamed(columns) <==> "location_description" in columns || "description" in columns
    ensures "primary_type" !in Renamed(columns) && "location_description" !in Renamed(columns)
  {
    var r := Renamed(columns);
    if "primary_type" in columns {
      var i :| 0 <= i < |columns| && columns[i] == "primary_type";
      assert r[i] == "crime_type";
    }
    if "crime_type" in columns {
      var i :| 0 <= i < |columns| && columns[i] == "crime_type";
      assert r[i] == "crime_type";
    }
    if "location_description" in columns {
      var i :| 0 <= i < |columns| && columns[i] == "location_description";
      assert r[i] == "description";
    }
    if "description" in columns {
      var i :| 0 <= i < |columns| && columns[i] == "description";
      assert r[i] == "description";
    }
  }

  const KeepCols: seq<string> := ["case_number", "date", "crime_type", "description", "latitude", "longitude", "district", "ward", "beat"]

  /** The test `c in df.columns`. */
  function InColumns(columns: seq<string>): string -> bool
  {
    (c: string) => c in columns
  }

  /** `[c for c in keep_cols if c in df.columns]`. */
  function Available(columns: seq<string>): (a: seq<string>)
    ensures forall c :: c in a <==> c in KeepCols && c in columns
  {
    Filter(KeepCols, InColumns(columns))
  }

  /** Position in the schema's column list; labels outside it come last. */
  function Rank(c: string): int
  {
    if c == "case_number" then 0 else if c == "date" then 1 else if c == "crime_type" then 2
    else if c == "description" then 3 else if c == "latitude" then 4 else if c == "longitude" then 5
    else if c == "district" then 6 else if c == "ward" then 7 else if c == "beat" then 8
    else |KeepCols|
  }

  lemma KeepColsRanked()
    ensures forall i :: 0 <= i < |KeepCols| ==> Rank(KeepCols[i]) == i
  {
    forall i | 0 <= i < |KeepCols| ensures Rank(KeepCols[i]) == i {
      if i == 0 { assert Rank("case_number") == 0; }
      else if i == 1 { assert Rank("date") == 1; }
      else if i == 2 { assert Rank("crime_type") == 2; }
      else if i == 3 { assert Rank("description") == 3; }
      else if i == 4 { assert Rank("latitude") == 4; }
      else if i == 5 { assert Rank("longitude") == 5; }
      else if i == 6 { assert Rank("district") == 6; }
      else if i == 7 { assert Rank("ward") == 7; }
      else { assert Rank("beat") == 8; }
    }
  }

  /** The selected columns come in the schema's order, whatever the CSV's order. */
  lemma AvailableInSchemaOrder(columns: seq<string>)
    ensures forall i, j :: 0 <= i < j < |Available(columns)| ==> Rank(Available(columns)[i]) < Rank(Available(columns)[j])
  {
    KeepColsRanked();
    assert forall i, j :: 0 <= i < j < |KeepCols| ==> Rank(KeepCols[i]) < Rank(KeepCols[j]) by {
      forall i, j | 0 <= i < j < |KeepCols| ensures Rank(KeepCols[i]) < Rank(KeepCols[j]) {
        assert Rank(KeepCols[i]) == i && Rank(KeepCols[j]) == j;
      }
    }
    FilterKeepsOrder(KeepCols, InColumns(columns), Rank);
  }

  /** `df[available]`: a row keyed by the selected labels; a repeated label reads its first column. */
  function Select(columns: seq<string>, avail: seq<string>, row: seq<Value>): (r: Row)
    requires |row| == |columns|
    requires forall c :: c in avail ==> c in columns
    ensures forall c :: c in r <==> c in avail
    ensures forall c :: c in avail ==> r[c] == row[IndexOf(columns, c)]
  {
    map c | c in avail :: row[IndexOf(columns, c)]
  }

  function SelectAll(columns: seq<string>, avail: seq<string>, rows: seq<seq<Value>>): (out: seq<Row>)
    requires forall i :: 0 <= i < |rows| ==> |rows[i]| == |columns|
    requires forall c :: c in avail ==> c in columns
    ensures |out| == |rows|
    ensures forall i :: 0 <= i < |rows| ==> out[i] == Select(columns, avail, rows[i])
  {
    seq(|rows|, i requires 0 <= i < |rows| => Select(columns, avail, rows[i]))
  }

  // ------------------------------------------------------------------ rows

  const NotNullSubset: seq<string> := ["latitude", "longitude", "date", "crime_type"]

  /** `dropna(subset=["latitude", "longitude", "date", "crime_type"])` keeps the row. */
  predicate NoEssentialMissing(r: Row)
  {
    && "latitude" in r && r["latitude"] != Null && "longitude" in r && r["longitude"] != Null
    && "date" in r && r["date"] != Null && "crime_type" in r && r["crime_type"] != Null
  }

  /** Both coordinates are numbers, so the bounds can be compared. */
  predicate NumericCoordinates(r: Row)
  {
    "latitude" in r && "longitude" in r && r["latitude"].Num? && r["longitude"].Num?
  }

  const LatMin := 41.64
  const LatMax := 42.02
  const LonMin := -87.94
  const LonMax := -87.52

  /** The bounds mask, every bound inclusive. */
  predicate InBounds(r: Row)
  {
    && NumericCoordinates(r)
    && LatMin <= r["latitude"].x <= LatMax
    && LonMin <= r["longitude"].x <= LonMax
  }

  /** `pd.to_datetime(date, errors="coerce")` gave a timestamp rather than NaT. */
  predicate DateParses(r: Row, parse: Value -> Option<Timestamp>)
  {
    "date" in r && parse(r["date"]).Some?
  }

  /** The selected row reaches the database. */
  predicate Kept(r: Row, parse: Value -> Option<Timestamp>)
  {
    NoEssentialMissing(r) && InBounds(r) && DateParses(r, parse)
  }

  /** `astype(str)`: a missing value becomes the text "nan"; `numText` is Python's text for a number. */
  function AsText(v: Value, numText: real -> string): (s: string)
    ensures v == Null ==> s == "nan"
    ensures v.Str? ==> s == v.s
  {
    match v
    case Null => "nan"
    case Str(s) => s
    case Num(x) => numText(x)
  }

  /** `fillna(fill)` on one cell. */
  function FillNa(v: Value, fill: string): (w: Value)
    ensures w != Null
    ensures v != Null ==> w == v
  {
    if v == Null then Str(fill) else v
  }

  /** One table row as written: optional columns are `None` when the CSV lacked them. */
  datatype CleanRow = CleanRow(
    caseNumber: Option<Value>,
    date: string,
    crimeType: Value,
    description: Value,
    latitude: real,
    longitude: real,
    district: string,
    ward: Option<Value>,
    beat: Option<Value>,
    yearMonth: string)

  function Optional(r: Row, c: string): (v: Option<Value>)
    ensures v.Some? <==> c in r
  {
    if c in r then Some(r[c]) else None
  }

  predicate HasRequiredColumns(r: Row)
  {
    && "latitude" in r && "longitude" in r && "date" in r && "crime_type" in r
    && "district" in r && "description" in r
  }

  /** The formatted and filled row of a kept selected row. */
  function CleanRowOf(r: Row, parse: Value -> Option<Timestamp>, numText: real -> string): (c: CleanRow)
    requires HasRequiredColumns(r) && Kept(r, parse)
    ensures c.date == DateText(parse(r["date"]).value) && c.yearMonth == YearMonthText(parse(r["date"]).value)
    ensures c.crimeType == r["crime_type"] && c.latitude == r["latitude"].x && c.longitude == r["longitude"].x
    ensures c.district == AsText(r["district"], numText)
    ensures c.description == FillNa(r["description"], "")
    ensures c.caseNumber == Optional(r, "case_number") && c.ward == Optional(r, "ward") && c.beat == Optional(r, "beat")
  {
    var t := parse(r["date"]).value;
    CleanRow(
      Optional(r, "case_number"),
      DateText(t),
      FillNa(r["crime_type"], "UNKNOWN"),
      FillNa(r["description"], ""),
      r["latitude"].x,
      r["longitude"].x,
      FillNa(Str(AsText(r["district"], numText)), "0").s,
      Optional(r, "ward"),
      Optional(r, "beat"),
      YearMonthText(t))
  }

  // -------------------------------------------------------------- the step

  /** Why `clean_data` raises: a `KeyError` naming the missing columns, or a `TypeError` comparing text with a bound. */
  datatype Failure = MissingColumns(names: seq<string>) | NonNumericCoordinates

  datatype Outcome = Cleaned(columns: seq<string>, rows: seq<CleanRow>) | Failed(failure: Failure)

  /** The selected labels after renaming. */
  function SelectedColumns(t: Table): seq<string>
  {
    Available(Renamed(t.columns))
  }

  /** The rows after selection and `dropna`. */
  function PresentRows(t: Table): (present: seq<Row>)
    requires Rectangular(t)
    ensures forall r :: r in present ==> NoEssentialMissing(r) && forall c :: c in r <==> c in SelectedColumns(t)
    ensures HasRequiredLabels(SelectedColumns(t)) ==> forall r :: r in present ==> HasRequiredColumns(r)
  {
    var cols := Renamed(t.columns);
    var rows := SelectAll(cols, Available(cols), t.rows);
    Filter(rows, NoEssentialMissing)
  }

  /** The rows after selection and `dropna` that are inside the box and whose date parses. */
  function KeptRows(t: Table, parse: Value -> Option<Timestamp>): (kept: seq<Row>)
    requires Rectangular(t)
    ensures forall r :: r in kept <==> r in PresentRows(t) && InBounds(r) && DateParses(r, parse)
    ensures HasRequiredLabels(SelectedColumns(t)) ==> forall r :: r in kept ==> HasRequiredColumns(r) && Kept(r, parse)
  {
    Filter(PresentRows(t), (r: Row) => InBounds(r) && DateParses(r, parse))
  }

  /** Every row left by `dropna` has numbers for its coordinates, so the bounds compare without a `TypeError`. */
  predicate CoordinatesNumeric(t: Table)
    requires Rectangular(t)
  {
    forall r :: r in PresentRows(t) ==> NumericCoordinates(r)
  }

  /** The six columns `clean_data` reads, whose absence makes it raise a `KeyError`. */
  predicate HasRequiredLabels(columns: seq<string>)
  {
    && "latitude" in columns && "longitude" in columns && "date" in columns && "crime_type" in columns
    && "district" in columns && "description" in columns
  }

  /** The labels of the `dropna` subset that the frame lacks, which its `KeyError` names. */
  function MissingEssentials(avail: seq<string>): (missing: seq<string>)
    ensures forall c :: c in missing ==> c !in avail
  {
    Filter(NotNullSubset, (c: string) => c !in avail)
  }

  /** No label of the `dropna` subset is missing exactly when all four are present. */
  lemma NoneMissing(avail: seq<string>)
    ensures MissingEssentials(avail) == [] <==>
              "latitude" in avail && "longitude" in avail && "date" in avail && "crime_type" in avail
  {
    var missing := MissingEssentials(avail);
    if missing != [] {
      assert missing[0] in missing;
    } else {
      assert NotNullSubset[0] == "latitude" && NotNullSubset[1] == "longitude";
      assert NotNullSubset[2] == "date" && NotNullSubset[3] == "crime_type";
    }
  }

  /** `clean_data` on a downloaded frame; `parse` stands for `pd.to_datetime`. */
  function CleanData(t: Table, parse: Value -> Option<Timestamp>, numText: real -> string): (o: Outcome)
    requires Rectangular(t)
    ensures o.Cleaned? ==> HasRequiredLabels(SelectedColumns(t)) && o.columns == SelectedColumns(t) + ["year_month"]
    ensures o.Cleaned? ==> o.rows == CleanRows(KeptRows(t, parse), parse, numText)
  {
    var avail := SelectedColumns(t);
    var missing := MissingEssentials(avail);
    if missing != [] then Failed(MissingColumns(missing))
    else if !CoordinatesNumeric(t) then Failed(NonNumericCoordinates)
    else if "district" !in avail then Failed(MissingColumns(["district"]))
    else if "description" !in avail then Failed(MissingColumns(["description"]))
    else
      NoneMissing(avail);
      Cleaned(avail + ["year_month"], CleanRows(KeptRows(t, parse), parse, numText))
  }

  /**
   * `clean_data` returns a frame exactly when all six columns it reads exist
   * after renaming and no row left by `dropna` has a non-numeric coordinate;
   * a `KeyError` names only columns that are missing.
   */
  lemma CleanDataSucceeds(t: Table, parse: Value -> Option<Timestamp>, numText: real -> string)
    requires Rectangular(t)
    ensures CleanData(t, parse, numText).Cleaned? <==>
              HasRequiredLabels(SelectedColumns(t)) && CoordinatesNumeric(t)
    ensures var o := CleanData(t, parse, numText);
            o.Failed? && o.failure.MissingColumns? ==>
              o.failure.names != [] && (forall c :: c in o.failure.names ==> c !in SelectedColumns(t))
  {
    var avail := SelectedColumns(t);
    var o := CleanData(t, parse, numText);
    NoneMissing(avail);
    if MissingEssentials(avail) != [] {
      assert o == Failed(MissingColumns(MissingEssentials(avail)));
    } else if !CoordinatesNumeric(t) {
      assert o == Failed(NonNumericCoordinates);
    } else if "district" !in avail {
      assert o == Failed(MissingColumns(["district"]));
    } else if "description" !in avail {
      assert o == Failed(MissingColumns(["description"]));
    } else {
      assert o.Cleaned?;
    }
  }

  /** The kept rows, formatted and filled. */
  function CleanRows(kept: seq<Row>, parse: Value -> Option<Timestamp>, numText: real -> string): (out: seq<CleanRow>)
    requires forall r :: r in kept ==> HasRequiredColumns(r) && Kept(r, parse)
    ensures |out| == |kept|
    ensures forall i :: 0 <= i < |kept| ==> out[i] == CleanRowOf(kept[i], parse, numText)
  {
    seq(|kept|, i requires 0 <= i < |kept| => CleanRowOf(kept[i], parse, numText))
  }

  /**
   * Every written row lies inside the box, has a ten-character date whose
   * first seven characters are its year-month, and has a type and a description.
   */
  lemma CleanRowsWellFormed(t: Table, parse: Value -> Option<Timestamp>, numText: real -> string)
    requires Rectangular(t)
    requires CleanData(t, parse, numText).Cleaned?
    ensures forall c :: c in CleanData(t, parse, numText).rows ==>
              && LatMin <= c.latitude <= LatMax && LonMin <= c.longitude <= LonMax
              && |c.date| == 10 && c.yearMonth == c.date[..7] && c.crimeType != Null && c.description != Null
  {
    var kept := KeptRows(t, parse);
    var out := CleanData(t, parse, numText).rows;
    forall c | c in out
      ensures LatMin <= c.latitude <= LatMax && LonMin <= c.longitude <= LonMax
      ensures |c.date| == 10 && c.yearMonth == c.date[..7] && c.crimeType != Null && c.description != Null
    {
      var i :| 0 <= i < |out| && out[i] == c;
      assert kept[i] in kept;
      YearMonthIsDatePrefix(parse(kept[i]["date"]).value);
    }
  }

  /** A selected row with no missing essential field is written, formatted, when it is inside the box and its date parses. */
  lemma KeptRowsAreWritten(t: Table, parse: Value -> Option<Timestamp>, numText: real -> string)
    requires Rectangular(t)
    requires CleanData(t, parse, numText).Cleaned?
    ensures forall r :: r in PresentRows(t) && Kept(r, parse) ==> CleanRowOf(r, parse, numText) in CleanData(t, parse, numText).rows
  {
    var kept := KeptRows(t, parse);
    var out := CleanData(t, parse, numText).rows;
    assert out == CleanRows(kept, parse, numText);
    forall r | r in PresentRows(t) && Kept(r, parse)
      ensures CleanRowOf(r, parse, numText) in out
    {
      assert r in kept;
      var i :| 0 <= i < |kept| && kept[i] == r;
      assert out[i] == CleanRowOf(r, parse, numText);
    }
  }

  /** Every written row is the formatted form of a selected row that is inside the box and whose date parses. */
  lemma WrittenRowsAreKept(t: Table, parse: Value -> Option<Timestamp>, numText: real -> string)
    requires Rectangular(t)
    requires CleanData(t, parse, numText).Cleaned?
    ensures forall c :: c in CleanData(t, parse, numText).rows ==>
              exists r :: r in PresentRows(t) && Kept(r, parse) && c == CleanRowOf(r, parse, numText)
  {
    var kept := KeptRows(t, parse);
    var out := CleanData(t, parse, numText).rows;
    assert out == CleanRows(kept, parse, numText);
    forall c | c in out
      ensures exists r :: r in PresentRows(t) && Kept(r, parse) && c == CleanRowOf(r, parse, numText)
    {
      var i :| 0 <= i < |out| && out[i] == c;
      var r := kept[i];
      assert r in kept;
      assert r in PresentRows(t) && Kept(r, parse) && c == CleanRowOf(r, parse, numText);
    }
  }

  /**
   * The fills on `crime_type` and `district` never act: `dropna` has already
   * removed missing types, and `astype(str)` has turned a missing district
   * into the text "nan", never "0".
   */
  lemma DeadFills(r: Row, parse: Value -> Option<Timestamp>, numText: real -> string)
    requires HasRequiredColumns(r) && Kept(r, parse)
    ensures CleanRowOf(r, parse, numText).crimeType == r["crime_type"]
    ensures r["district"] == Null ==> CleanRowOf(r, parse, numText).district == "nan"
    ensures r["district"] == Null ==> CleanRowOf(r, parse, numText).district != "0"
  {
  }
}
