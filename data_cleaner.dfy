/**
 * The cleaning routine of the analysis pipeline: drop rows missing an
 * essential field, keep coordinates inside the city's box, add the crime
 * category, keep dates from 2008 up to now, and add the calendar columns.
 * A data frame is an object whose row list the in-place steps rewrite.
 */
module DataCleaner {
  import opened Common

  // ------------------------------------------------------------- timestamps

  type Month = m: int | 1 <= m <= 12 witness 1
  type Hour = h: int | 0 <= h < 24
  type WeekdayIndex = w: int | 0 <= w < 7

  /** A parsed timestamp's fields; `weekday` counts from Monday = 0. */
  datatype DateTime = DateTime(year: int, month: Month, day: int, hour: Hour, minute: int, second: int, weekday: WeekdayIndex)

  /** `pd.to_datetime(text, errors="coerce")`: a timestamp, or NaT for unparsable text. */
  datatype DateCell = NaT | Stamp(t: DateTime)

  /** Timestamp order, field by field down to the second. */
  predicate NotAfter(a: DateTime, b: DateTime)
  {
    if a.year != b.year then a.year < b.year
    else if a.month != b.month then a.month < b.month
    else if a.day != b.day then a.day < b.day
    else if a.hour != b.hour then a.hour < b.hour
    else if a.minute != b.minute then a.minute < b.minute
    else a.second <= b.second
  }

  /** `date >= "2008-01-01"`: midnight of 1 January 2008 or later, which is any time in 2008 or after. */
  predicate FromYear2008(t: DateTime)
  {
    t.year >= 2008
  }

  // ---------------------------------------------------------------- records

  /** The calendar columns of `add_derived_columns`. */
  datatype Derived = Derived(year: int, month: Month, dayName: string, hour: Hour, isWeekend: bool, season: Option<string>)

  /**
   * One row. `index` is the frame's index label, standing for the columns
   * the routine carries along untouched; `None` is a missing value, and
   * `category`/`derived` are `None` until their step has added them.
   */
  datatype Record = Record(
    index: int,
    latitude: Option<real>,
    longitude: Option<real>,
    primaryType: Option<string>,
    date: Option<DateCell>,
    category: Option<string>,
    derived: Option<Derived>)

  /** A data frame whose rows the in-place steps rewrite. */
  class Frame {
    var rows: seq<Record>

    constructor (rows: seq<Record>)
      ensures this.rows == rows
    {
      this.rows := rows;
    }
  }

  // ------------------------------------------------------------ row filters

  /** `dropna(subset=["latitude", "longitude", "primary_type", "date"])`. */
  predicate HasEssentials(r: Record)
  {
    r.latitude.Some? && r.longitude.Some? && r.primaryType.Some? && r.date.Some?
  }

  const LatMin := 41.6
  const LatMax := 42.1
  const LonMin := -87.9
  const LonMax := -87.5

  /** The coordinate mask: both bounds inclusive; a missing coordinate compares false. */
  predicate InChicago(r: Record)
  {
    && r.latitude.Some? && r.longitude.Some?
    && LatMin <= r.latitude.value <= LatMax
    && LonMin <= r.longitude.value <= LonMax
  }

  /** `validate_coordinates`: a copy of exactly the rows inside the box. */
  function ValidateCoordinates(rows: seq<Record>): (kept: seq<Record>)
    ensures forall r :: r in kept <==> r in rows && InChicago(r)
  {
    Filter(rows, InChicago)
  }

  /** A date that parsed and lies between 1 January 2008 and `now`. */
  predicate DateInRange(r: Record, now: DateTime)
  {
    r.date.Some? && r.date.value.Stamp? && FromYear2008(r.date.value.t) && NotAfter(r.date.value.t, now)
  }

  /** `clean_dates`: NaT rows dropped, then the rows dated from 2008 up to `now` kept. */
  function CleanDates(rows: seq<Record>, now: DateTime): (kept: seq<Record>)
    ensures forall r :: r in kept <==> r in rows && DateInRange(r, now)
    ensures forall i :: 0 <= i < |kept| ==> kept[i].date.Some? && kept[i].date.value.Stamp?
  {
    var parsed := Filter(rows, (r: Record) => r.date.Some? && r.date.value.Stamp?);
    var kept := Filter(parsed, (r: Record) => DateInRange(r, now));
    assert forall i :: 0 <= i < |kept| ==> kept[i] in kept && DateInRange(kept[i], now);
    kept
  }

  // ------------------------------------------------------------- categories

  const CrimeMapping: map<string, string> := map[
    "BATTERY" := "ASSAULT/BATTERY",
    "ASSAULT" := "ASSAULT/BATTERY",
    "THEFT" := "THEFT",
    "CRIMINAL DAMAGE" := "VANDALISM",
    "NARCOTICS" := "DRUG_RELATED",
    "BURGLARY" := "BURGLARY",
    "ROBBERY" := "ROBBERY",
    "MOTOR VEHICLE THEFT" := "VEHICLE_THEFT"]

  /** `primary_type.map(crime_mapping).fillna("OTHER")`. */
  function CrimeCategory(primaryType: Option<string>): (c: string)
    ensures primaryType.Some? && primaryType.value in CrimeMapping ==> c == CrimeMapping[primaryType.value]
    ensures primaryType.None? || primaryType.value !in CrimeMapping ==> c == "OTHER"
  {
    match primaryType
    case Some(t) => if t in CrimeMapping then CrimeMapping[t] else "OTHER"
    case None => "OTHER"
  }

  /** Assault and battery share a category, and every category is one of eight. */
  lemma CategoryFacts(primaryType: Option<string>)
    ensures CrimeCategory(Some("BATTERY")) == CrimeCategory(Some("ASSAULT")) == "ASSAULT/BATTERY"
    ensures CrimeCategory(primaryType) in {"ASSAULT/BATTERY", "THEFT", "VANDALISM", "DRUG_RELATED",
                                           "BURGLARY", "ROBBERY", "VEHICLE_THEFT", "OTHER"}
  {
  }

  /** The frame's rows with the `crime_category` column set. */
  function Standardized(rows: seq<Record>): (out: seq<Record>)
    ensures |out| == |rows|
    ensures forall i :: 0 <= i < |rows| ==> out[i] == rows[i].(category := Some(CrimeCategory(rows[i].primaryType)))
  {
    seq(|rows|, i requires 0 <= i < |rows| => rows[i].(category := Some(CrimeCategory(rows[i].primaryType))))
  }

  /** `standardize_crime_types`: adds the category column to the frame it is given. */
  method StandardizeCrimeTypes(df: Frame)
    modifies df
    ensures df.rows == Standardized(old(df.rows))
  {
    var rows := df.rows;
    df.rows := seq(|rows|, i requires 0 <= i < |rows| => rows[i].(category := Some(CrimeCategory(rows[i].primaryType))));
  }

  // ------------------------------------------------------- calendar columns

  const DayNames: seq<string> := ["Monday", "Tuesday", "Wednesday", "Thursday", "Friday", "Saturday", "Sunday"]

  /** The month-to-season map; months outside 1..12 map to NaN (`None`). */
  function Season(month: int): (s: Option<string>)
    ensures s.Some? <==> 1 <= month <= 12
    ensures s == Some("Winter") <==> month == 12 || month == 1 || month == 2
  {
    if month == 12 || month == 1 || month == 2 then Some("Winter")
    else if 3 <= month <= 5 then Some("Spring")
    else if 6 <= month <= 8 then Some("Summer")
    else if 9 <= month <= 11 then Some("Fall")
    else None
  }

  /** The months of one season. */
  function MonthsOf(season: string): set<int>
  {
    set m | 1 <= m <= 12 && Season(m) == Some(season)
  }

  /** Each of the four seasons has exactly three months, and they share none. */
  lemma SeasonsOfThreeMonths()
    ensures MonthsOf("Winter") == {12, 1, 2} && MonthsOf("Spring") == {3, 4, 5}
    ensures MonthsOf("Summer") == {6, 7, 8} && MonthsOf("Fall") == {9, 10, 11}
    ensures |MonthsOf("Winter")| == |MonthsOf("Spring")| == |MonthsOf("Summer")| == |MonthsOf("Fall")| == 3
  {
    forall m | m in MonthsOf("Spring") ensures m in {3, 4, 5} {
      assert 3 <= m <= 5;
    }
    forall m | m in MonthsOf("Summer") ensures m in {6, 7, 8} {
      assert 6 <= m <= 8;
    }
    forall m | m in MonthsOf("Fall") ensures m in {9, 10, 11} {
      assert 9 <= m <= 11;
    }
  }

  /** The calendar columns of one timestamp. */
  function DerivedOf(t: DateTime): (d: Derived)
    ensures d.year == t.year && d.month == t.month && d.hour == t.hour
    ensures d.dayName == DayNames[t.weekday]
    ensures d.isWeekend <==> t.weekday >= 5
    ensures d.season.Some?
  {
    Derived(t.year, t.month, DayNames[t.weekday], t.hour, t.weekday >= 5, Season(t.month))
  }

  /** The weekend flag holds exactly for Saturday and Sunday. */
  lemma WeekendIsSaturdayOrSunday(t: DateTime)
    ensures DerivedOf(t).isWeekend <==> DerivedOf(t).dayName in {"Saturday", "Sunday"}
  {
  }

  /** The frame's rows with the calendar columns set. */
  function WithDerived(rows: seq<Record>): (out: seq<Record>)
    requires forall i :: 0 <= i < |rows| ==> rows[i].date.Some? && rows[i].date.value.Stamp?
    ensures |out| == |rows|
    ensures forall i :: 0 <= i < |rows| ==> out[i] == rows[i].(derived := Some(DerivedOf(rows[i].date.value.t)))
  {
    seq(|rows|, i requires 0 <= i < |rows| => rows[i].(derived := Some(DerivedOf(rows[i].date.value.t))))
  }

  /** `add_derived_columns`: adds the calendar columns to the frame it is given. */
  method AddDerivedColumns(df: Frame)
    requires forall i :: 0 <= i < |df.rows| ==> df.rows[i].date.Some? && df.rows[i].date.value.Stamp?
    modifies df
    ensures df.rows == WithDerived(old(df.rows))
  {
    var rows := df.rows;
    df.rows := seq(|rows|, i requires 0 <= i < |rows| => rows[i].(derived := Some(DerivedOf(rows[i].date.value.t))));
  }

  // ----------------------------------------------------------- the pipeline

  /** A raw row survives cleaning exactly when all four filters pass. */
  predicate Survives(r: Record, now: DateTime)
  {
    HasEssentials(r) && InChicago(r) && DateInRange(r, now)
  }

  /** A surviving row as it leaves the routine: with category and calendar columns. */
  function Enriched(r: Record): (e: Record)
    requires r.date.Some? && r.date.value.Stamp?
    ensures e.index == r.index && e.latitude == r.latitude && e.longitude == r.longitude && e.date == r.date
  {
    r.(category := Some(CrimeCategory(r.primaryType)), derived := Some(DerivedOf(r.date.value.t)))
  }

  /** The rows `clean_dataset` returns, step by step. */
  function Cleaned(rows: seq<Record>, now: DateTime): seq<Record>
  {
    var essential := Filter(rows, HasEssentials);
    var located := ValidateCoordinates(essential);
    var dated := CleanDates(Standardized(located), now);
    WithDerived(dated)
  }

  /**
   * `clean_dataset`: the first step copies, so the frame passed in is left
   * as it was; the category and calendar steps then work in place on the
   * copies.
   */
  method CleanDataset(df: Frame, now: DateTime) returns (clean: Frame)
    ensures fresh(clean)
    ensures clean.rows == Cleaned(df.rows, now)
  {
    var essential := Filter(df.rows, HasEssentials);
    var located := ValidateCoordinates(essential);
    clean := new Frame(located);
    StandardizeCrimeTypes(clean);
    var dated := CleanDates(clean.rows, now);
    clean := new Frame(dated);
    AddDerivedColumns(clean);
  }

  /** Every row that comes out is a surviving input row with its new columns. */
  lemma CleanedRowsComeFromInput(rows: seq<Record>, now: DateTime)
    ensures forall c :: c in Cleaned(rows, now) ==> exists i :: 0 <= i < |rows| && Survives(rows[i], now) && c == Enriched(rows[i])
  {
    var essential := Filter(rows, HasEssentials);
    var located := ValidateCoordinates(essential);
    var std := Standardized(located);
    var dated := CleanDates(std, now);
    var out := WithDerived(dated);
    assert Cleaned(rows, now) == out;
    forall c | c in out
      ensures exists i :: 0 <= i < |rows| && Survives(rows[i], now) && c == Enriched(rows[i])
    {
      var k :| 0 <= k < |out| && c == out[k];
      var s := dated[k];
      assert s in std && DateInRange(s, now);
      var j :| 0 <= j < |std| && std[j] == s;
      var r := located[j];
      assert r in essential && InChicago(r);
      assert HasEssentials(r);
      var i :| 0 <= i < |rows| && rows[i] == r;
      assert c == Enriched(rows[i]);
    }
  }

  /** Every surviving input row comes out, with its new columns. */
  lemma SurvivorsAreKept(rows: seq<Record>, now: DateTime)
    ensures forall i :: 0 <= i < |rows| && Survives(rows[i], now) ==> Enriched(rows[i]) in Cleaned(rows, now)
  {
    var essential := Filter(rows, HasEssentials);
    var located := ValidateCoordinates(essential);
    var std := Standardized(located);
    var dated := CleanDates(std, now);
    var out := WithDerived(dated);
    assert Cleaned(rows, now) == out;
    forall i | 0 <= i < |rows| && Survives(rows[i], now)
      ensures Enriched(rows[i]) in out
    {
      var r := rows[i];
      assert r in essential;
      assert r in located;
      var j :| 0 <= j < |located| && located[j] == r;
      var s := std[j];
      assert s == r.(category := Some(CrimeCategory(r.primaryType)));
      assert DateInRange(s, now);
      assert s in dated;
      var k :| 0 <= k < |dated| && dated[k] == s;
      assert out[k] == Enriched(r);
    }
  }
}
