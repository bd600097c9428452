/**
 * The server's core endpoints: the district-name lookup, the filtered
 * GeoJSON crime list (its SQL text and parameters, and the conversion of
 * result rows to features) and the monthly statistics. The database is
 * represented by the result rows it returns.
 */
module ApiMain {
  import opened Common
  import opened Text
  import opened ApiTypes
  import Dashboard

  // ---------------------------------------------------------- district names

  /** The police districts with a name; 13, 21 and 23 have none. */
  const DistrictNames: map<string, string> := map[
    "1" := "Central", "2" := "Wentworth", "3" := "Grand Crossing", "4" := "South Chicago",
    "5" := "Calumet", "6" := "Gresham", "7" := "Englewood", "8" := "Chicago Lawn",
    "9" := "Deering", "10" := "Ogden", "11" := "Harrison", "12" := "Near West",
    "14" := "Shakespeare", "15" := "Austin", "16" := "Jefferson Park", "17" := "Albany Park",
    "18" := "Near North", "19" := "Town Hall", "20" := "Lincoln", "22" := "Morgan Park",
    "24" := "Rogers Park", "25" := "Grand Central"]

  /** `get_district_name`: the name of a named district, else "District " and the text itself. */
  function GetDistrictName(district: string): (name: string)
    ensures district in DistrictNames ==> name == DistrictNames[district]
    ensures district !in DistrictNames ==> name == "District " + district
    ensures name != ""
  {
    if district in DistrictNames then DistrictNames[district] else "District " + district
  }

  /** Of the districts 1 to 25, exactly 13, 21 and 23 have no name and fall back to "District n". */
  lemma UnnamedDistricts(n: nat)
    requires 1 <= n <= 25
    ensures NatToString(n) !in DistrictNames <==> n == 13 || n == 21 || n == 23
  {
    if n < 10 {
      SingleDigitNamed(n);
    } else if n < 20 {
      assert NatToString(n) == ['1', DigitChar(n - 10)];
      TeenNamed(n - 10);
    } else {
      assert NatToString(n) == ['2', DigitChar(n - 20)];
      TwentiesNamed(n - 20);
    }
  }

  lemma SingleDigitNamed(d: nat)
    requires 1 <= d <= 9
    ensures NatToString(d) in DistrictNames
  {
    assert NatToString(d) == [DigitChar(d)];
  }

  lemma TeenNamed(d: nat)
    requires d <= 9
    ensures ['1', DigitChar(d)] !in DistrictNames <==> d == 3
  {
  }

  lemma TwentiesNamed(d: nat)
    requires d <= 5
    ensures ['2', DigitChar(d)] !in DistrictNames <==> d == 1 || d == 3
  {
  }

  /** `str(v)` of the row's district: a missing value prints as "None". */
  function DistrictText(district: Option<string>): string
  {
    match district
    case None => "None"
    case Some(d) => d
  }

  // ------------------------------------------------------------ query text

  /** The query-string filters; `None` is an absent parameter. */
  datatype Filters = Filters(crimeType: Option<string>, startDate: Option<string>, endDate: Option<string>, limit: Option<int>)

  /** A filter is applied when it is truthy: present and not empty. */
  predicate IsSet(arg: Option<string>)
  {
    arg.Some? && arg.value != ""
  }

  /** `request.args.get("limit", 5000, type=int)`: `None` stands for absent or not an integer. */
  function LimitOf(f: Filters): int
  {
    f.limit.GetOr(5000)
  }

  datatype Param = SqlText(s: string) | SqlInt(n: int)

  /** A WHERE clause with its one placeholder, and the value bound to it. */
  datatype Condition = Condition(clause: string, value: string)

  const BaseQuery := "SELECT * FROM crimes WHERE 1=1"
  const CrimeTypeClause := " AND crime_type = ?"
  const StartDateClause := " AND date >= ?"
  const EndDateClause := " AND date <= ?"
  const OrderAndLimit := " ORDER BY date DESC LIMIT ?"

  /** The conditions switched on, in the order crime type, start date, end date. */
  function Conditions(f: Filters): (cs: seq<Condition>)
    ensures |cs| == (if IsSet(f.crimeType) then 1 else 0) + (if IsSet(f.startDate) then 1 else 0)
                    + (if IsSet(f.endDate) then 1 else 0)
    ensures forall i :: 0 <= i < |cs| ==> cs[i].clause in {CrimeTypeClause, StartDateClause, EndDateClause}
  {
    Optional(f.crimeType, CrimeTypeClause) + Optional(f.startDate, StartDateClause) + Optional(f.endDate, EndDateClause)
  }

  /** The condition of one filter, when it is set. */
  function Optional(arg: Option<string>, clause: string): seq<Condition>
  {
    if IsSet(arg) then [Condition(clause, arg.value)] else []
  }

  function ClauseText(cs: seq<Condition>): string
  {
    if cs == [] then "" else ClauseText(cs[..|cs| - 1]) + cs[|cs| - 1].clause
  }

  function Values(cs: seq<Condition>): (ps: seq<Param>)
    ensures |ps| == |cs|
    ensures forall i :: 0 <= i < |cs| ==> ps[i] == SqlText(cs[i].value)
  {
    if cs == [] then [] else Values(cs[..|cs| - 1]) + [SqlText(cs[|cs| - 1].value)]
  }

  /** The query and its parameters, built up clause by clause as in `get_all_crimes`. */
  method BuildQuery(f: Filters) returns (query: string, params: seq<Param>)
    ensures query == BaseQuery + ClauseText(Conditions(f)) + OrderAndLimit
    ensures params == Values(Conditions(f)) + [SqlInt(LimitOf(f))]
  {
    query := BaseQuery;
    params := [];
    ghost var cs: seq<Condition> := [];
    assert query == BaseQuery + ClauseText(cs) && params == Values(cs);
    if IsSet(f.crimeType) {
      AddCondition(cs, Condition(CrimeTypeClause, f.crimeType.value));
      query := query + CrimeTypeClause;
      params := params + [SqlText(f.crimeType.value)];
      cs := cs + [Condition(CrimeTypeClause, f.crimeType.value)];
    }
    assert query == BaseQuery + ClauseText(cs) && params == Values(cs);
    assert cs == [] + Optional(f.crimeType, CrimeTypeClause);
    if IsSet(f.startDate) {
      AddCondition(cs, Condition(StartDateClause, f.startDate.value));
      query := query + StartDateClause;
      params := params + [SqlText(f.startDate.value)];
      cs := cs + [Condition(StartDateClause, f.startDate.value)];
    }
    assert query == BaseQuery + ClauseText(cs) && params == Values(cs);
    assert cs == Optional(f.crimeType, CrimeTypeClause) + Optional(f.startDate, StartDateClause);
    if IsSet(f.endDate) {
      AddCondition(cs, Condition(EndDateClause, f.endDate.value));
      query := query + EndDateClause;
      params := params + [SqlText(f.endDate.value)];
      cs := cs + [Condition(EndDateClause, f.endDate.value)];
    }
    assert query == BaseQuery + ClauseText(cs) && params == Values(cs);
    assert cs == Conditions(f);
    query := query + OrderAndLimit;
    params := params + [SqlInt(LimitOf(f))];
  }

  /** One more condition appends its clause to the text and its value to the parameters. */
  lemma AddCondition(cs: seq<Condition>, c: Condition)
    ensures BaseQuery + ClauseText(cs + [c]) == BaseQuery + ClauseText(cs) + c.clause
    ensures Values(cs + [c]) == Values(cs) + [SqlText(c.value)]
  {
    assert (cs + [c])[..|cs|] == cs;
  }

  /** Each clause, and the tail, carries exactly one placeholder; the base query none. */
  lemma ClausePlaceholders()
    ensures CountChar(BaseQuery, '?') == 0
    ensures CountChar(CrimeTypeClause, '?') == 1
    ensures CountChar(StartDateClause, '?') == 1
    ensures CountChar(EndDateClause, '?') == 1
    ensures CountChar(OrderAndLimit, '?') == 1
  {
    BaseQueryPlain();
    CrimeTypePlaceholder();
    StartDatePlaceholder();
    EndDatePlaceholder();
    LimitPlaceholder();
  }

  lemma BaseQueryPlain()
    ensures CountChar(BaseQuery, '?') == 0
  {
    CountCharAbsent(BaseQuery, '?');
  }

  lemma CrimeTypePlaceholder()
    ensures CountChar(CrimeTypeClause, '?') == 1
  {
    EndsInPlaceholder(CrimeTypeClause, " AND crime_type = ");
  }

  lemma StartDatePlaceholder()
    ensures CountChar(StartDateClause, '?') == 1
  {
    EndsInPlaceholder(StartDateClause, " AND date >= ");
  }

  lemma EndDatePlaceholder()
    ensures CountChar(EndDateClause, '?') == 1
  {
    EndsInPlaceholder(EndDateClause, " AND date <= ");
  }

  lemma LimitPlaceholder()
    ensures CountChar(OrderAndLimit, '?') == 1
  {
    EndsInPlaceholder(OrderAndLimit, " ORDER BY date DESC LIMIT ");
  }

  lemma EndsInPlaceholder(clause: string, s: string)
    requires '?' !in s && clause == s + "?"
    ensures CountChar(clause, '?') == 1
  {
    OnePlaceholder(s);
  }

  lemma OnePlaceholder(s: string)
    requires '?' !in s
    ensures CountChar(s + "?", '?') == 1
  {
    CountCharAbsent(s, '?');
    CountCharAppend(s, "?", '?');
    assert "?"[..0] == [];
  }

  lemma {:induction false} ClauseTextPlaceholders(cs: seq<Condition>)
    requires forall i :: 0 <= i < |cs| ==> CountChar(cs[i].clause, '?') == 1
    ensures CountChar(ClauseText(cs), '?') == |cs|
  {
    if cs != [] {
      ClauseTextPlaceholders(cs[..|cs| - 1]);
      CountCharAppend(ClauseText(cs[..|cs| - 1]), cs[|cs| - 1].clause, '?');
    }
  }

  /**
   * The query has one placeholder per parameter, the i-th condition's value
   * is the i-th parameter, and the row limit is the last.
   */
  lemma PlaceholdersMatchParams(f: Filters)
    ensures var cs := Conditions(f);
            var query := BaseQuery + ClauseText(cs) + OrderAndLimit;
            var params := Values(cs) + [SqlInt(LimitOf(f))];
            && CountChar(query, '?') == |params|
            && params[|params| - 1] == SqlInt(LimitOf(f))
            && forall i :: 0 <= i < |cs| ==> params[i] == SqlText(cs[i].value)
  {
    var cs := Conditions(f);
    ClausePlaceholders();
    ClauseTextPlaceholders(cs);
    CountCharAppend(BaseQuery, ClauseText(cs), '?');
    CountCharAppend(BaseQuery + ClauseText(cs), OrderAndLimit, '?');
  }

  /** With every filter set, the values come in the order crime type, start, end, limit. */
  lemma AllFiltersOrder(ct: string, start: string, end: string, limit: int)
    requires ct != "" && start != "" && end != ""
    ensures var f := Filters(Some(ct), Some(start), Some(end), Some(limit));
            Values(Conditions(f)) + [SqlInt(LimitOf(f))] == [SqlText(ct), SqlText(start), SqlText(end), SqlInt(limit)]
  {
  }

  // ------------------------------------------------------------- features

  /** A row of `SELECT * FROM crimes`; `None` is SQL NULL. */
  datatype CrimeRecord = CrimeRecord(
    id: int,
    date: string,
    crimeType: string,
    description: string,
    district: Option<string>,
    caseNumber: string,
    latitude: Option<real>,
    longitude: Option<real>)

  /** `pd.notna(latitude) and pd.notna(longitude)`. */
  predicate HasLocation(r: CrimeRecord)
  {
    r.latitude.Some? && r.longitude.Some?
  }

  /** The feature of a located row: coordinates in [longitude, latitude] order (section 3.1.1 of RFC 7946). */
  function FeatureOf(r: CrimeRecord): (f: Feature)
    requires HasLocation(r)
    ensures Coordinate(f, 0) == r.longitude && Coordinate(f, 1) == r.latitude
    ensures f.properties.district == Str(GetDistrictName(DistrictText(r.district)))
    ensures f.properties.districtNum == DistrictText(r.district)
  {
    var props := Properties(r.id, r.date, r.crimeType, r.description,
      Str(GetDistrictName(DistrictText(r.district))), DistrictText(r.district), r.caseNumber, Undefined, Undefined);
    Feature(props, Some([r.longitude.value, r.latitude.value]))
  }

  /** The features of the located rows, in row order. */
  function FeaturesOf(rows: seq<CrimeRecord>): (fs: seq<Feature>)
    ensures |fs| <= |rows|
  {
    if rows == [] then []
    else
      var r := rows[|rows| - 1];
      FeaturesOf(rows[..|rows| - 1]) + (if HasLocation(r) then [FeatureOf(r)] else [])
  }

  /** Every located row gives a feature, and every feature comes from a located row. */
  lemma {:induction false} FeaturesOfRows(rows: seq<CrimeRecord>)
    ensures forall i :: 0 <= i < |rows| && HasLocation(rows[i]) ==> FeatureOf(rows[i]) in FeaturesOf(rows)
    ensures forall f :: f in FeaturesOf(rows) ==> exists i :: 0 <= i < |rows| && HasLocation(rows[i]) && f == FeatureOf(rows[i])
  {
    if rows != [] {
      var init := rows[..|rows| - 1];
      FeaturesOfRows(init);
      forall i | 0 <= i < |rows| - 1
        ensures rows[i] == init[i]
      {
      }
    }
  }

  /** The number of rows with a location: the metadata count. */
  function LocatedCount(rows: seq<CrimeRecord>): nat
  {
    if rows == [] then 0 else LocatedCount(rows[..|rows| - 1]) + (if HasLocation(rows[|rows| - 1]) then 1 else 0)
  }

  lemma {:induction false} FeaturesOfCount(rows: seq<CrimeRecord>)
    ensures |FeaturesOf(rows)| == LocatedCount(rows)
  {
    if rows != [] {
      FeaturesOfCount(rows[..|rows| - 1]);
    }
  }

  /** The crime-list response: the features, `metadata.count` and the echoed filters. */
  datatype CrimesResponse = CrimesResponse(features: seq<Feature>, count: nat, filters: Filters)

  /** The feature loop of `get_all_crimes` over the rows the query returned. */
  method CrimesToFeatures(rows: seq<CrimeRecord>, f: Filters) returns (resp: CrimesResponse)
    ensures resp.features == FeaturesOf(rows)
    ensures resp.count == |resp.features| == LocatedCount(rows)
    ensures resp.filters == f
  {
    var features: seq<Feature> := [];
    var i := 0;
    while i < |rows|
      invariant 0 <= i <= |rows|
      invariant features == FeaturesOf(rows[..i])
    {
      var row := rows[i];
      assert rows[..i + 1][..i] == rows[..i];
      if row.latitude.Some? && row.longitude.Some? {
        var name := GetDistrictName(DistrictText(row.district));
        var props := Properties(row.id, row.date, row.crimeType, row.description,
          Str(name), DistrictText(row.district), row.caseNumber, Undefined, Undefined);
        features := features + [Feature(props, Some([row.longitude.value, row.latitude.value]))];
      }
      i := i + 1;
    }
    assert rows[..i] == rows;
    FeaturesOfCount(rows);
    resp := CrimesResponse(features, |features|, f);
  }

  /** The heat point the dashboard should draw for a located row: back in [latitude, longitude] order. */
  function RowHeat(rows: seq<CrimeRecord>): seq<Dashboard.HeatPoint>
  {
    if rows == [] then []
    else
      var r := rows[|rows| - 1];
      RowHeat(rows[..|rows| - 1])
        + (if HasLocation(r) then [Dashboard.HeatPoint(r.latitude, r.longitude, Dashboard.Intensity)] else [])
  }

  /**
   * The server writes [longitude, latitude] and the dashboard's heat layer
   * reads it back as [latitude, longitude]: every served feature becomes a
   * heat point at its row's own position.
   */
  lemma {:induction false} HeatRoundTrip(rows: seq<CrimeRecord>)
    ensures Dashboard.HeatData(FeaturesOf(rows)) == RowHeat(rows)
  {
    if rows != [] {
      var init := rows[..|rows| - 1];
      var r := rows[|rows| - 1];
      HeatRoundTrip(init);
      var extra := if HasLocation(r) then [FeatureOf(r)] else [];
      Dashboard.HeatDataAppend(FeaturesOf(init), extra);
      if HasLocation(r) {
        assert Dashboard.HeatData(extra) == [Dashboard.HeatPointOf(FeatureOf(r))] by {
          assert extra[..0] == [];
        }
      }
    }
  }

  // ------------------------------------------------------------ monthly stats

  function Reverse<T>(s: seq<T>): (r: seq<T>)
    ensures |r| == |s|
    ensures forall i :: 0 <= i < |s| ==> r[i] == s[|s| - 1 - i]
  {
    if s == [] then [] else [s[|s| - 1]] + Reverse(s[..|s| - 1])
  }

  lemma ReverseReverse<T>(s: seq<T>)
    ensures Reverse(Reverse(s)) == s
  {
  }

  datatype MonthlyStats = MonthlyStats(trends: seq<MonthlyTrend>, totalMonths: nat, dateRange: Option<string>)

  /**
   * `get_monthly_stats` on the query's rows, which come latest month first:
   * the rows reversed, their number, and "first to last" when there are any.
   */
  function GetMonthlyStats(latestFirst: seq<MonthlyTrend>): (r: MonthlyStats)
    ensures r.trends == Reverse(latestFirst) && r.totalMonths == |latestFirst|
    ensures r.dateRange.None? <==> latestFirst == []
    ensures latestFirst != [] ==>
      r.dateRange == Some(latestFirst[|latestFirst| - 1].yearMonth + " to " + latestFirst[0].yearMonth)
  {
    var trends := Reverse(latestFirst);
    var range := if |trends| > 0 then Some(trends[0].yearMonth + " to " + trends[|trends| - 1].yearMonth) else None;
    MonthlyStats(trends, |trends|, range)
  }

  /** Rows in strictly descending month order come out in strictly ascending order. */
  lemma MonthlyStatsAscending(latestFirst: seq<MonthlyTrend>)
    requires forall i, j :: 0 <= i < j < |latestFirst| ==> LexLess(latestFirst[j].yearMonth, latestFirst[i].yearMonth)
    ensures var ts := GetMonthlyStats(latestFirst).trends;
            forall i, j :: 0 <= i < j < |ts| ==> LexLess(ts[i].yearMonth, ts[j].yearMonth)
  {
    var ts := GetMonthlyStats(latestFirst).trends;
    var n := |latestFirst|;
    forall i, j | 0 <= i < j < |ts|
      ensures LexLess(ts[i].yearMonth, ts[j].yearMonth)
    {
      assert ts[i] == latestFirst[n - 1 - i] && ts[j] == latestFirst[n - 1 - j];
    }
  }
}
