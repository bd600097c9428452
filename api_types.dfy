/**
 * The JSON shapes the server sends and the client reads: GeoJSON crime
 * features, crime-type counts, monthly counts, hourly counts and forecast
 * points. Fields the client reads with JavaScript truthiness carry a
 * `JsValue`, which keeps `undefined`, `null`, strings and numbers apart.
 */
module ApiTypes {
  import opened Common
  import Text

  /** A JSON property value as the client sees it. */
  datatype JsValue = Undefined | Null | Str(s: string) | Num(n: int)

  /** JavaScript truthiness: `undefined`, `null`, `''` and `0` are falsy. */
  predicate Truthy(v: JsValue)
  {
    match v
    case Undefined => false
    case Null => false
    case Str(s) => s != ""
    case Num(n) => n != 0
  }

  /** `String(v)`. */
  function JsString(v: JsValue): string
  {
    match v
    case Undefined => "undefined"
    case Null => "null"
    case Str(s) => s
    case Num(n) => Text.IntToString(n)
  }

  /** How `Array.prototype.join` renders an element: `undefined` and `null` as "". */
  function JoinText(v: JsValue): string
  {
    match v
    case Undefined => ""
    case Null => ""
    case Str(s) => s
    case Num(n) => Text.IntToString(n)
  }

  datatype Properties = Properties(
    id: int,
    date: string,
    crimeType: string,
    description: string,
    district: JsValue,
    districtNum: string,
    caseNumber: string,
    ward: JsValue,
    beat: JsValue)

  /**
   * A GeoJSON point feature; `coordinates` is `None` when the feature has no
   * geometry, and otherwise holds the position in [longitude, latitude] order.
   */
  datatype Feature = Feature(properties: Properties, coordinates: Option<seq<real>>)

  /** `feature.geometry?.coordinates[i]`: `None` stands for `undefined`. */
  function Coordinate(f: Feature, i: nat): Option<real>
  {
    match f.coordinates
    case None => None
    case Some(c) => if i < |c| then Some(c[i]) else None
  }

  /** One row of the crime-type summary. */
  datatype CategoryCount = CategoryCount(crimeType: string, count: int, percentage: real)

  function CountOf(c: CategoryCount): int { c.count }
  function PercentageOf(c: CategoryCount): real { c.percentage }

  /** One row of the monthly summary. */
  datatype MonthlyTrend = MonthlyTrend(yearMonth: string, crimeCount: int)

  function CrimeCountOf(m: MonthlyTrend): int { m.crimeCount }

  /** One `{hour, count}` sample of the hourly summary. */
  datatype HourCount = HourCount(hour: int, count: int)

  function HourOf(h: HourCount): int { h.hour }
  function HourCountOf(h: HourCount): int { h.count }

  /** One entry of the `heatmap` object: a crime type and its samples. */
  datatype TypeRow = TypeRow(crimeType: string, hours: seq<HourCount>)

  /** The `trend` label of one crime type's daily series: 'increasing', 'decreasing' or 'stable'. */
  datatype TrendLabel = Increasing | Decreasing | Steady

  /** The direction label of one forecast day. */
  datatype Step = Up | Down | Stable

  /**
   * One forecast day. `date` is the proleptic Gregorian ordinal of the day
   * (Python `date.toordinal()`), `day` its weekday label.
   */
  datatype ForecastPoint = ForecastPoint(
    date: int,
    day: string,
    predicted: int,
    lowerBound: int,
    upperBound: int,
    confidence: int,
    trend: Step)

  /** One entry of `high_risk_areas`. */
  datatype RiskArea = RiskArea(area: string, count: int, lat: real, lng: real)

  /**
   * The risk-assessment response, minus the constant `risk_period`. The
   * two trailing fields are absent (`None`) from the 'unknown' response;
   * `avgDailyTenths` is `avg_daily_crimes` as a whole number of tenths.
   */
  datatype RiskAssessment = RiskAssessment(
    overallRisk: string,
    highRiskAreas: seq<RiskArea>,
    highRiskHours: nat,
    hourlyRisk: seq<HourRisk>,
    totalCrimesAnalyzed: Option<nat>,
    avgDailyTenths: Option<nat>)

  datatype RiskLevel = High | Medium | Low

  datatype HourRisk = HourRisk(hour: int, level: RiskLevel)
}
