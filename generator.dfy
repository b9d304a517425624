/**
 * `generate_weather_data`: the bootstrap year of synthetic observations, one
 * row per day for 365 days from January 1. The random draws are inputs: each
 * day brings one raw draw per `randint` call, the truncated Gaussian noise and
 * one raw draw for the weighted choice of condition.
 */
module Generator {
  import opened Wrappers
  import opened Calendar
  import opened DateText
  import opened Tables
  import opened Queries

  /** The number of rows the loop produces (`range(365)`), leap year or not. */
  const DaysGenerated := 365

  /** The start year of streamlit_app.py, which takes no year argument. */
  const AppYear := 2025

  /** The bounds `(lo, hi)` passed to a `randint` call. */
  datatype Band = Band(lo: int, hi: int)

  /**
   * A value the `randint` call can return: `np.random.randint` excludes `hi`,
   * `random.randint` includes it.
   */
  predicate InBand(copy: Copy, v: int, b: Band)
  {
    match copy
    case StreamlitApp => b.lo <= v < b.hi
    case Utils => b.lo <= v <= b.hi
  }

  /** How many values the call can return. */
  function Width(copy: Copy, b: Band): (w: nat)
    requires b.lo < b.hi
    ensures w > 0
  {
    match copy
    case StreamlitApp => b.hi - b.lo
    case Utils => b.hi - b.lo + 1
  }

  /** The value a `randint(lo, hi)` call returns for raw draw `r`. */
  function Draw(copy: Copy, b: Band, r: nat): (v: int)
    requires b.lo < b.hi
    ensures InBand(copy, v, b)
  {
    b.lo + r % Width(copy, b)
  }

  /** Every value the call can return is the outcome of some raw draw. */
  lemma DrawCovers(copy: Copy, b: Band, v: int)
    requires b.lo < b.hi && InBand(copy, v, b)
    ensures Draw(copy, b, v - b.lo) == v
  {
  }

  /** The season band of the temperature draw, by month. */
  function TemperatureBand(month: int): Band
  {
    if month == 12 || month == 1 || month == 2 then Band(8, 20)
    else if month == 3 || month == 4 || month == 5 then Band(15, 26)
    else if month == 6 || month == 7 || month == 8 then Band(25, 40)
    else Band(18, 30)
  }

  /** The humidity band, by condition. */
  function HumidityBand(c: Condition): Band
  {
    match c
    case Rainy => Band(70, 95)
    case Stormy => Band(75, 98)
    case Foggy => Band(80, 95)
    case _ => Band(35, 80)
  }

  /** The wind band, the same for every condition. */
  const WindBand := Band(3, 30)

  /** The weight of each condition in the weighted choice (percent). */
  function Weight(c: Condition): nat
  {
    match c
    case Sunny => 40
    case Cloudy => 25
    case Rainy => 20
    case Stormy => 5
    case Windy => 6
    case Foggy => 4
  }

  /**
   * The weighted choice of condition: the raw draw taken modulo 100 falls in
   * one of six consecutive buckets, as wide as the weights, in list order.
   */
  function ConditionFromDraw(r: nat): Condition
  {
    Bucket(r % 100)
  }

  /** The condition whose bucket holds residue `k`. */
  function Bucket(k: int): Condition
  {
    if k < 40 then Sunny
    else if k < 65 then Cloudy
    else if k < 85 then Rainy
    else if k < 90 then Stormy
    else if k < 96 then Windy
    else Foggy
  }

  /** How many of the residues `lo .. hi - 1` choose condition `c`. */
  function Hits(c: Condition, lo: nat, hi: nat): nat
    requires lo <= hi
    decreases hi - lo
  {
    if lo == hi then 0
    else (if Bucket(lo) == c then 1 else 0) + Hits(c, lo + 1, hi)
  }

  /** The total weight of the conditions listed before `c`. */
  function Start(c: Condition): nat
  {
    match c
    case Sunny => 0
    case Cloudy => Weight(Sunny)
    case Rainy => Weight(Sunny) + Weight(Cloudy)
    case Stormy => Weight(Sunny) + Weight(Cloudy) + Weight(Rainy)
    case Windy => Weight(Sunny) + Weight(Cloudy) + Weight(Rainy) + Weight(Stormy)
    case Foggy => Weight(Sunny) + Weight(Cloudy) + Weight(Rainy) + Weight(Stormy) + Weight(Windy)
  }

  /** Each condition's bucket is the run of residues from its start, as long as its weight. */
  lemma BucketInterval(c: Condition)
    ensures Start(c) + Weight(c) <= 100
    ensures forall k :: 0 <= k < 100 ==> (Bucket(k) == c <==> Start(c) <= k < Start(c) + Weight(c))
  {
  }

  /** A run of residues all inside, or all outside, the bucket of `c`. */
  lemma {:induction false} HitsConst(c: Condition, lo: nat, hi: nat, inside: bool)
    requires lo <= hi
    requires forall k :: lo <= k < hi ==> (Bucket(k) == c) == inside
    ensures Hits(c, lo, hi) == if inside then hi - lo else 0
    decreases hi - lo
  {
    if lo < hi {
      HitsConst(c, lo + 1, hi, inside);
    }
  }

  lemma {:induction false} HitsSplit(c: Condition, lo: nat, mid: nat, hi: nat)
    requires lo <= mid <= hi
    ensures Hits(c, lo, hi) == Hits(c, lo, mid) + Hits(c, mid, hi)
    decreases mid - lo
  {
    if lo < mid {
      HitsSplit(c, lo + 1, mid, hi);
    }
  }

  /** Of the 100 residues, each condition is chosen by exactly as many as its weight. */
  lemma ConditionShare(c: Condition)
    ensures Hits(c, 0, 100) == Weight(c)
  {
    var first, last := Start(c), Start(c) + Weight(c);
    BucketInterval(c);
    HitsConst(c, 0, first, false);
    HitsConst(c, first, last, true);
    HitsConst(c, last, 100, false);
    HitsSplit(c, 0, first, 100);
    HitsSplit(c, first, last, 100);
  }

  /** One day's raw draws; `noise` is `int(gauss(0, 2))`, which has no bound. */
  datatype DayDraws = DayDraws(temperature: nat, noise: int, condition: nat, humidity: nat, wind: nat)

  /** The row of day index `i`: the date `i` days after January 1, values from that day's draws. */
  function GeneratedRow(copy: Copy, year: int, i: nat, d: DayDraws): (o: Observation)
    requires MinYear <= year <= MaxYear && i < DaysGenerated
    ensures o.date == AddDays(NewYear(year), i)
  {
    DayIndexDate(year, i);
    var date: CalendarDate := AddDays(NewYear(year), i);
    var condition := ConditionFromDraw(d.condition);
    Observation(
      date,
      Draw(copy, TemperatureBand(date.month), d.temperature) + d.noise,
      condition,
      Draw(copy, HumidityBand(condition), d.humidity),
      Draw(copy, WindBand, d.wind))
  }

  /** The whole generated table, row `i` from draws `i`. */
  function GeneratedTable(copy: Copy, year: int, draws: seq<DayDraws>): Table
    requires MinYear <= year <= MaxYear && |draws| == DaysGenerated
  {
    seq(DaysGenerated, i requires 0 <= i < DaysGenerated => GeneratedRow(copy, year, i, draws[i]))
  }

  /**
   * One pass of the generator loop: step the date, draw the temperature from
   * the month's band and add the noise, choose the condition, draw humidity
   * from the condition's band, and draw the wind.
   */
  method DayRow(copy: Copy, year: int, i: nat, d: DayDraws) returns (o: Observation)
    requires MinYear <= year <= MaxYear && i < DaysGenerated
    ensures o == GeneratedRow(copy, year, i, d)
  {
    DayIndexDate(year, i);
    var dt: CalendarDate := AddDays(NewYear(year), i);
    var month := dt.month;
    var temp;
    if month == 12 || month == 1 || month == 2 {
      temp := Draw(copy, Band(8, 20), d.temperature);
    } else if month == 3 || month == 4 || month == 5 {
      temp := Draw(copy, Band(15, 26), d.temperature);
    } else if month == 6 || month == 7 || month == 8 {
      temp := Draw(copy, Band(25, 40), d.temperature);
    } else {
      temp := Draw(copy, Band(18, 30), d.temperature);
    }
    temp := temp + d.noise;
    var cond := ConditionFromDraw(d.condition);
    var humidity;
    if cond == Rainy {
      humidity := Draw(copy, Band(70, 95), d.humidity);
    } else if cond == Stormy {
      humidity := Draw(copy, Band(75, 98), d.humidity);
    } else if cond == Foggy {
      humidity := Draw(copy, Band(80, 95), d.humidity);
    } else {
      humidity := Draw(copy, Band(35, 80), d.humidity);
    }
    var wind := Draw(copy, Band(3, 30), d.wind);
    o := Observation(dt, temp, cond, humidity, wind);
  }

  /** The generator loop: 365 passes, each appending that day's row. */
  method GenerateRows(copy: Copy, year: int, draws: seq<DayDraws>) returns (rows: Table)
    requires MinYear <= year <= MaxYear && |draws| == DaysGenerated
    ensures rows == GeneratedTable(copy, year, draws)
  {
    rows := [];
    var i := 0;
    while i < DaysGenerated
      invariant 0 <= i <= DaysGenerated
      invariant |rows| == i
      invariant forall k :: 0 <= k < i ==> rows[k] == GeneratedRow(copy, year, k, draws[k])
    {
      var row := DayRow(copy, year, i, draws[i]);
      rows := rows + [row];
      i := i + 1;
    }
  }

  /* ---------------- properties of the generated table ---------------- */

  /**
   * Row `i` is dated `i` days after January 1 of the year, in that year, so
   * the dates are consecutive and strictly increasing.
   */
  lemma GeneratedDates(copy: Copy, year: int, draws: seq<DayDraws>)
    requires MinYear <= year <= MaxYear && |draws| == DaysGenerated
    ensures var t := GeneratedTable(copy, year, draws);
      && t[0].date == NewYear(year)
      && (forall i :: 0 <= i < DaysGenerated ==> t[i].date.year == year)
      && (forall i :: 0 <= i < DaysGenerated ==> Ordinal(t[i].date) == Ordinal(NewYear(year)) + i)
      && (forall i, j :: 0 <= i < j < DaysGenerated ==> Ordinal(t[i].date) < Ordinal(t[j].date))
  {
    forall i | 0 <= i < DaysGenerated
      ensures GeneratedTable(copy, year, draws)[i].date.year == year
      ensures Ordinal(GeneratedTable(copy, year, draws)[i].date) == Ordinal(NewYear(year)) + i
    {
      DayIndexDate(year, i);
    }
  }

  /** The last row is December 31, or December 30 in a leap year, where the 365 days stop one short. */
  lemma GeneratedLastDate(copy: Copy, year: int, draws: seq<DayDraws>)
    requires MinYear <= year <= MaxYear && |draws| == DaysGenerated
    ensures GeneratedTable(copy, year, draws)[DaysGenerated - 1].date
         == if IsLeapYear(year) then Date(12, 30, year) else Date(12, 31, year)
  {
    var start := DaysBeforeMonth(12, year);
    MonthStart(year, 12);
    AddDaysSum(NewYear(year), start, DaysGenerated - 1 - start);
    AddDaysWithinMonth(12, 1, year, DaysGenerated - 1 - start);
  }

  /** February 29 is among the rows exactly in a leap year (as row 59). */
  lemma GeneratedLeapDay(copy: Copy, year: int, draws: seq<DayDraws>)
    requires MinYear <= year <= MaxYear && |draws| == DaysGenerated
    ensures (exists i :: 0 <= i < DaysGenerated && GeneratedTable(copy, year, draws)[i].date == Date(2, 29, year))
        <==> IsLeapYear(year)
  {
    var t := GeneratedTable(copy, year, draws);
    if IsLeapYear(year) {
      MonthStart(year, 2);
      AddDaysSum(NewYear(year), 31, 28);
      AddDaysWithinMonth(2, 1, year, 28);
      assert t[59].date == Date(2, 29, year);
    }
  }

  /** The streamlit_app.py table runs from 01-01-2025 to 12-31-2025. */
  lemma AppTableSpan(draws: seq<DayDraws>)
    requires |draws| == DaysGenerated
    ensures var t := GeneratedTable(StreamlitApp, AppYear, draws);
      Format(t[0].date) == "01-01-2025" && Format(t[DaysGenerated - 1].date) == "12-31-2025"
  {
    GeneratedLastDate(StreamlitApp, AppYear, draws);
    assert GeneratedTable(StreamlitApp, AppYear, draws)[0].date == Date(1, 1, 2025);
  }

  /**
   * Before the noise, each temperature lies in its month's band; humidity lies
   * in its condition's band and wind in the wind band, with the copy's bound
   * convention.
   */
  lemma GeneratedBands(copy: Copy, year: int, draws: seq<DayDraws>)
    requires MinYear <= year <= MaxYear && |draws| == DaysGenerated
    ensures var t := GeneratedTable(copy, year, draws);
      forall i :: 0 <= i < DaysGenerated ==>
        && InBand(copy, t[i].temperature - draws[i].noise, TemperatureBand(t[i].date.month))
        && InBand(copy, t[i].humidity, HumidityBand(t[i].condition))
        && InBand(copy, t[i].windSpeed, WindBand)
  {
  }

  /** The temperature bands follow the seasons of the season filter. */
  lemma TemperatureBandBySeason(month: int)
    requires 1 <= month <= 12
    ensures month in SeasonMonths("Winter") ==> TemperatureBand(month) == Band(8, 20)
    ensures month in SeasonMonths("Spring") ==> TemperatureBand(month) == Band(15, 26)
    ensures month in SeasonMonths("Summer") ==> TemperatureBand(month) == Band(25, 40)
    ensures month in SeasonMonths("Autumn") ==> TemperatureBand(month) == Band(18, 30)
  {
  }

  /** Writing a generated date and reading it back recovers the year it was generated for. */
  lemma GeneratedYearReadBack(copy: Copy, year: int, draws: seq<DayDraws>, i: nat)
    requires MinYear <= year <= MaxYear && |draws| == DaysGenerated && i < DaysGenerated
    ensures Parse(Format(GeneratedTable(copy, year, draws)[i].date)) == Some(GeneratedTable(copy, year, draws)[i].date)
    ensures Parse(Format(GeneratedTable(copy, year, draws)[i].date)).value.year == year
  {
    DayIndexDate(year, i);
    ParseFormat(GeneratedTable(copy, year, draws)[i].date);
  }
}
