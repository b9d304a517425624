/**
 * The read-only queries both copies run on a loaded table: statistics, exact
 * date search, month and season filters, record temperatures and the naive
 * forecast for tomorrow. Each is a selection or a fold over the rows in file
 * order; where the source raises on an empty table the result is `None`.
 */
module Queries {
  import opened Wrappers
  import opened Calendar
  import opened DateText
  import opened Tables
  import opened Counting

  /* ---------------- columns and folds ---------------- */

  /** `df["Temperature"]`. */
  function Temperatures(t: Table): (xs: seq<int>)
    ensures |xs| == |t| && forall i :: 0 <= i < |t| ==> xs[i] == t[i].temperature
  {
    seq(|t|, i requires 0 <= i < |t| => t[i].temperature)
  }

  /** `df["Condition"]`. */
  function Conditions(t: Table): seq<Condition>
  {
    seq(|t|, i requires 0 <= i < |t| => t[i].condition)
  }

  function Sum(xs: seq<int>): int
  {
    if xs == [] then 0 else Sum(xs[..|xs| - 1]) + xs[|xs| - 1]
  }

  /** `Series.mean()` on a non-empty integer column, without floating-point rounding. */
  function Mean(xs: seq<int>): real
    requires xs != []
  {
    Sum(xs) as real / |xs| as real
  }

  /** `argmax`: the first position holding the largest value. */
  function ArgMax(xs: seq<int>): (k: nat)
    requires xs != []
    ensures k < |xs|
    ensures forall i :: 0 <= i < |xs| ==> xs[i] <= xs[k]
    ensures forall i :: 0 <= i < k ==> xs[i] < xs[k]
  {
    if |xs| == 1 then 0
    else
      var best := ArgMax(xs[..|xs| - 1]);
      if xs[|xs| - 1] > xs[best] then |xs| - 1 else best
  }

  /** `argmin`: the first position holding the smallest value. */
  function ArgMin(xs: seq<int>): (k: nat)
    requires xs != []
    ensures k < |xs|
    ensures forall i :: 0 <= i < |xs| ==> xs[k] <= xs[i]
    ensures forall i :: 0 <= i < k ==> xs[k] < xs[i]
  {
    if |xs| == 1 then 0
    else
      var best := ArgMin(xs[..|xs| - 1]);
      if xs[|xs| - 1] < xs[best] then |xs| - 1 else best
  }

  function Maximum(xs: seq<int>): int
    requires xs != []
  {
    xs[ArgMax(xs)]
  }

  function Minimum(xs: seq<int>): int
    requires xs != []
  {
    xs[ArgMin(xs)]
  }

  /** A sum of `n` values lying in `[lo, hi]` lies in `[n*lo, n*hi]`. */
  lemma {:induction false} SumBounds(xs: seq<int>, lo: int, hi: int)
    requires forall i :: 0 <= i < |xs| ==> lo <= xs[i] <= hi
    ensures |xs| * lo <= Sum(xs) <= |xs| * hi
  {
    if xs != [] {
      SumBounds(xs[..|xs| - 1], lo, hi);
    }
  }

  lemma RealQuotientBounds(s: real, n: real, lo: real, hi: real)
    requires n > 0.0 && n * lo <= s <= n * hi
    ensures lo <= s / n <= hi
    ensures s / n * n == s
  {
    var q := s / n;
    assert q * n == s;
    assert (q - lo) * n == s - n * lo >= 0.0;
    assert (hi - q) * n == n * hi - s >= 0.0;
  }

  lemma {:induction false} ProductAsReal(a: nat, b: int)
    ensures (a * b) as real == a as real * b as real
  {
    if a > 0 {
      ProductAsReal(a - 1, b);
      assert a * b == (a - 1) * b + b;
    }
  }

  /** An integer total lying in `[n*lo, n*hi]`, divided by `n`, lies in `[lo, hi]`. */
  lemma QuotientBetween(s: int, n: nat, lo: int, hi: int)
    requires n > 0 && n * lo <= s <= n * hi
    ensures lo as real <= s as real / n as real <= hi as real
    ensures s as real / n as real * n as real == s as real
  {
    ProductAsReal(n, lo);
    ProductAsReal(n, hi);
    RealQuotientBounds(s as real, n as real, lo as real, hi as real);
  }

  /** The mean lies between the smallest and the largest value. */
  lemma MeanBounds(xs: seq<int>)
    requires xs != []
    ensures Minimum(xs) as real <= Mean(xs) <= Maximum(xs) as real
  {
    SumBetweenExtremes(xs);
    QuotientBetween(Sum(xs), |xs|, Minimum(xs), Maximum(xs));
  }

  lemma SumBetweenExtremes(xs: seq<int>)
    requires xs != []
    ensures |xs| * Minimum(xs) <= Sum(xs) <= |xs| * Maximum(xs)
  {
    SumBounds(xs, Minimum(xs), Maximum(xs));
  }

  /* ---------------- weather_statistics ---------------- */

  datatype Statistics = Statistics(mean: real, minimum: int, maximum: int, mostCommon: Condition)

  /**
   * `weather_statistics`: mean, minimum and maximum temperature and the most
   * common condition; `None` for an empty table, where `most_common(1)[0]`
   * raises IndexError.
   */
  function WeatherStatistics(t: Table): (r: Option<Statistics>)
    ensures r.Some? <==> t != []
  {
    if t == [] then None
    else
      var temps := Temperatures(t);
      Some(Statistics(Mean(temps), Minimum(temps), Maximum(temps), MostCommon(Conditions(t)).value))
  }

  /** The minimum and maximum are temperatures of the table, bounding all of them. */
  lemma StatisticsExtremes(t: Table)
    requires t != []
    ensures var s := WeatherStatistics(t).value;
      && (forall i :: 0 <= i < |t| ==> s.minimum <= t[i].temperature <= s.maximum)
      && (exists i :: 0 <= i < |t| && t[i].temperature == s.minimum)
      && (exists i :: 0 <= i < |t| && t[i].temperature == s.maximum)
  {
    var temps := Temperatures(t);
    assert t[ArgMin(temps)].temperature == Minimum(temps);
    assert t[ArgMax(temps)].temperature == Maximum(temps);
  }

  /** The mean temperature lies between the minimum and the maximum. */
  lemma StatisticsMean(t: Table)
    requires t != []
    ensures var s := WeatherStatistics(t).value;
      s.minimum as real <= s.mean <= s.maximum as real
  {
    MeanBounds(Temperatures(t));
  }

  /** The condition is the most frequent one, the first seen among equally frequent ones. */
  lemma StatisticsMode(t: Table)
    requires t != []
    ensures IsFirstMode(Conditions(t), WeatherStatistics(t).value.mostCommon)
  {
    MostCommonIsFirstMode(Conditions(t));
  }

  /* ---------------- search_by_date ---------------- */

  /** `df[df["Date"] == date]`: the stored `MM-DD-YYYY` text compared with the query text. */
  function SearchByDate(t: Table, query: string): Table
  {
    Filter(t, (o: Observation) => Format(o.date) == query)
  }

  /** Searching for a date's text finds exactly the rows of that date, in order. */
  lemma SearchByDateFindsDate(t: Table, d: CalendarDate)
    ensures SearchByDate(t, Format(d)) == Filter(t, (o: Observation) => o.date == d)
  {
    forall o: Observation | o in t
      ensures Format(o.date) == Format(d) <==> o.date == d
    {
      FormatInjective(o.date, d);
    }
    FilterSame(t, (o: Observation) => Format(o.date) == Format(d), (o: Observation) => o.date == d);
  }

  /** A query that is not a date (such as `13-01-2025`) matches nothing; the source raises no error. */
  lemma SearchByMalformedDate(t: Table, query: string)
    requires Parse(query).None?
    ensures SearchByDate(t, query) == []
  {
    forall o: Observation | o in t
      ensures Format(o.date) != query
    {
      ParseFormat(o.date);
    }
    FilterKeepsNone(t, (o: Observation) => Format(o.date) == query);
  }

  /* ---------------- filter_by_month ---------------- */

  /** `df[pd.to_datetime(df["Date"]).dt.month == month]`. */
  function FilterByMonth(t: Table, month: int): Table
  {
    Filter(t, (o: Observation) => o.date.month == month)
  }

  /** The month filters for months 1 to `k`, taken together. */
  ghost function MonthsUpTo(t: Table, k: nat): multiset<Observation>
  {
    if k == 0 then multiset{} else MonthsUpTo(t, k - 1) + multiset(FilterByMonth(t, k))
  }

  lemma {:induction false} MonthsUpToSelects(t: Table, k: nat)
    ensures MonthsUpTo(t, k) == multiset(Filter(t, (o: Observation) => o.date.month <= k))
  {
    if k == 0 {
      FilterKeepsNone(t, (o: Observation) => o.date.month <= 0);
    } else {
      MonthsUpToSelects(t, k - 1);
      FilterDisjointUnion(t,
        (o: Observation) => o.date.month <= k - 1,
        (o: Observation) => o.date.month == k,
        (o: Observation) => o.date.month <= k);
    }
  }

  /** The twelve month filters partition the table: every row is in exactly one of them. */
  lemma MonthsPartition(t: Table)
    ensures MonthsUpTo(t, 12) == multiset(t)
    ensures forall o, m :: o in t && 1 <= m <= 12 ==> (o in FilterByMonth(t, m) <==> m == o.date.month)
  {
    MonthsUpToSelects(t, 12);
    FilterKeepsAll(t, (o: Observation) => o.date.month <= 12);
  }

  /* ---------------- filter_by_season ---------------- */

  /** `month_map.get(season, [])`. */
  function SeasonMonths(season: string): (ms: seq<int>)
    ensures |ms| == 0 || |ms| == 3
    ensures |ms| == 3 <==> IsSeasonName(season)
  {
    if season == "Winter" then [12, 1, 2]
    else if season == "Spring" then [3, 4, 5]
    else if season == "Summer" then [6, 7, 8]
    else if season == "Autumn" then [9, 10, 11]
    else []
  }

  predicate IsSeasonName(s: string)
  {
    s == "Winter" || s == "Spring" || s == "Summer" || s == "Autumn"
  }

  function UpperChar(c: char): char
  {
    if 'a' <= c <= 'z' then (c as int - 32) as char else c
  }

  function LowerChar(c: char): char
  {
    if 'A' <= c <= 'Z' then (c as int + 32) as char else c
  }

  function Lower(s: string): (r: string)
    ensures |r| == |s| && forall i :: 0 <= i < |s| ==> r[i] == LowerChar(s[i])
  {
    seq(|s|, i requires 0 <= i < |s| => LowerChar(s[i]))
  }

  /** `str.capitalize()` on ASCII letters: first character upper case, the rest lower case. */
  function Capitalize(s: string): (r: string)
    ensures |r| == |s|
  {
    if s == [] then [] else [UpperChar(s[0])] + Lower(s[1..])
  }

  /** The lookup key: utils.py capitalises the name first, streamlit_app.py uses it as given. */
  function SeasonKey(copy: Copy, season: string): string
  {
    match copy
    case StreamlitApp => season
    case Utils => Capitalize(season)
  }

  /** `df[pd.to_datetime(df["Date"]).dt.month.isin(months)]`. */
  function FilterBySeason(copy: Copy, t: Table, season: string): Table
  {
    var months := SeasonMonths(SeasonKey(copy, season));
    Filter(t, (o: Observation) => o.date.month in months)
  }

  /**
   * A season's filter is its three month filters together; a name the map
   * does not know selects nothing (the source raises no error).
   */
  lemma SeasonIsItsMonths(copy: Copy, t: Table, season: string)
    ensures var ms := SeasonMonths(SeasonKey(copy, season));
      |ms| == 3 ==> multiset(FilterBySeason(copy, t, season))
                    == multiset(FilterByMonth(t, ms[0])) + multiset(FilterByMonth(t, ms[1]))
                       + multiset(FilterByMonth(t, ms[2]))
    ensures !IsSeasonName(SeasonKey(copy, season)) ==> FilterBySeason(copy, t, season) == []
  {
    var ms := SeasonMonths(SeasonKey(copy, season));
    if |ms| == 3 {
      var tail := (o: Observation) => o.date.month == ms[1] || o.date.month == ms[2];
      FilterDisjointUnion(t, (o: Observation) => o.date.month == ms[1], (o: Observation) => o.date.month == ms[2], tail);
      FilterDisjointUnion(t, (o: Observation) => o.date.month == ms[0], tail, (o: Observation) => o.date.month in ms);
    } else {
      FilterKeepsNone(t, (o: Observation) => o.date.month in ms);
    }
  }

  lemma SeasonNamesAreKeys(copy: Copy, name: string)
    requires IsSeasonName(name)
    ensures SeasonKey(copy, name) == name
  {
    assert Capitalize("Winter") == "Winter";
    assert Capitalize("Spring") == "Spring";
    assert Capitalize("Summer") == "Summer";
    assert Capitalize("Autumn") == "Autumn";
  }

  /** A season name's filter is the selection by its three months, in either copy. */
  lemma SeasonFilterByMonths(copy: Copy, t: Table, name: string, ms: seq<int>)
    requires IsSeasonName(name) && ms == SeasonMonths(name)
    ensures FilterBySeason(copy, t, name) == Filter(t, (o: Observation) => o.date.month in ms)
  {
    SeasonNamesAreKeys(copy, name);
  }

  /** A row's month lies in exactly one season. */
  lemma MonthInOneSeason(m: int)
    requires 1 <= m <= 12
    ensures m in SeasonMonths("Winter") || m in SeasonMonths("Spring") || m in SeasonMonths("Summer") || m in SeasonMonths("Autumn")
    ensures !(m in SeasonMonths("Winter") && m in SeasonMonths("Spring"))
    ensures !(m in SeasonMonths("Summer") && m in SeasonMonths("Autumn"))
    ensures !((m in SeasonMonths("Winter") || m in SeasonMonths("Spring")) && (m in SeasonMonths("Summer") || m in SeasonMonths("Autumn")))
  {
  }

  /** The four seasons partition the table: every row is in exactly one season's filter. */
  lemma SeasonsPartition(copy: Copy, t: Table)
    ensures multiset(FilterBySeason(copy, t, "Winter")) + multiset(FilterBySeason(copy, t, "Spring"))
          + multiset(FilterBySeason(copy, t, "Summer")) + multiset(FilterBySeason(copy, t, "Autumn"))
         == multiset(t)
  {
    var w, sp, su, au := SeasonMonths("Winter"), SeasonMonths("Spring"), SeasonMonths("Summer"), SeasonMonths("Autumn");
    SeasonFilterByMonths(copy, t, "Winter", w);
    SeasonFilterByMonths(copy, t, "Spring", sp);
    SeasonFilterByMonths(copy, t, "Summer", su);
    SeasonFilterByMonths(copy, t, "Autumn", au);
    var inW := (o: Observation) => o.date.month in w;
    var inSp := (o: Observation) => o.date.month in sp;
    var inSu := (o: Observation) => o.date.month in su;
    var inAu := (o: Observation) => o.date.month in au;
    var first := (o: Observation) => inW(o) || inSp(o);
    var second := (o: Observation) => inSu(o) || inAu(o);
    var any := (o: Observation) => first(o) || second(o);
    forall o: Observation
      ensures !(inW(o) && inSp(o)) && !(inSu(o) && inAu(o)) && !(first(o) && second(o)) && any(o)
    {
      MonthInOneSeason(o.date.month);
    }
    FilterDisjointUnion(t, inW, inSp, first);
    FilterDisjointUnion(t, inSu, inAu, second);
    FilterDisjointUnion(t, first, second, any);
    FilterKeepsAll(t, any);
    var mw, msp, msu, mau := multiset(Filter(t, inW)), multiset(Filter(t, inSp)), multiset(Filter(t, inSu)), multiset(Filter(t, inAu));
    assert multiset(t) == (mw + msp) + (msu + mau);
  }

  lemma LowerChars(s: string)
    ensures Lower(Lower(s)) == Lower(s)
    ensures s != [] ==> Lower(Capitalize(s)) == Lower(s)
  {
  }

  /**
   * In utils.py a season name matches whatever its letter case; in
   * streamlit_app.py only the exact name matches.
   */
  lemma {:induction false} SeasonNameCasing(s: string, name: string)
    requires IsSeasonName(name)
    ensures Capitalize(s) == name <==> Lower(s) == Lower(name)
  {
    assert 'A' <= name[0] <= 'Z' && Lower(name[1..]) == name[1..];
    if Lower(s) == Lower(name) {
      assert Lower(s)[1..] == Lower(s[1..]);
      assert UpperChar(s[0]) == UpperChar(LowerChar(s[0])) == name[0];
      assert Capitalize(s) == [name[0]] + name[1..] == name;
    }
    if Capitalize(s) == name {
      LowerChars(s);
    }
  }

  lemma SeasonFilterIgnoresCase(t: Table, s: string, name: string)
    requires IsSeasonName(name) && Lower(s) == Lower(name)
    ensures FilterBySeason(Utils, t, s) == FilterBySeason(StreamlitApp, t, name)
  {
    SeasonNameCasing(s, name);
  }

  /** Where the copies differ: a lower-case name selects the season in utils.py and nothing in streamlit_app.py. */
  lemma LowerCaseSeasonDiffers(t: Table)
    ensures FilterBySeason(StreamlitApp, t, "winter") == []
    ensures FilterBySeason(Utils, t, "winter") == FilterBySeason(StreamlitApp, t, "Winter")
  {
    SeasonIsItsMonths(StreamlitApp, t, "winter");
    SeasonFilterIgnoresCase(t, "winter", "Winter");
  }

  /* ---------------- record_temperatures ---------------- */

  /** `k` is the first row holding the highest temperature of the table. */
  ghost predicate FirstHottestAt(t: Table, k: int)
  {
    0 <= k < |t|
    && (forall i :: 0 <= i < |t| ==> t[i].temperature <= t[k].temperature)
    && (forall i :: 0 <= i < k ==> t[i].temperature < t[k].temperature)
  }

  /** `k` is the first row holding the lowest temperature of the table. */
  ghost predicate FirstColdestAt(t: Table, k: int)
  {
    0 <= k < |t|
    && (forall i :: 0 <= i < |t| ==> t[k].temperature <= t[i].temperature)
    && (forall i :: 0 <= i < k ==> t[k].temperature < t[i].temperature)
  }

  /**
   * `record_temperatures`: the rows at `idxmax` and `idxmin` of the temperature
   * column, the first row of the highest and the first of the lowest
   * temperature; `None` for an empty table, where `idxmax` raises ValueError.
   */
  function RecordTemperatures(t: Table): (r: Option<(Observation, Observation)>)
    ensures r.Some? <==> t != []
    ensures r.Some? ==> exists k :: FirstHottestAt(t, k) && t[k] == r.value.0
    ensures r.Some? ==> exists k :: FirstColdestAt(t, k) && t[k] == r.value.1
  {
    if t == [] then None
    else
      var temps := Temperatures(t);
      var hi, lo := ArgMax(temps), ArgMin(temps);
      assert FirstHottestAt(t, hi) && FirstColdestAt(t, lo);
      Some((t[hi], t[lo]))
  }

  /** The record rows carry the statistics' maximum and minimum. */
  lemma RecordsMatchStatistics(t: Table)
    requires t != []
    ensures RecordTemperatures(t).value.0.temperature == WeatherStatistics(t).value.maximum
    ensures RecordTemperatures(t).value.1.temperature == WeatherStatistics(t).value.minimum
  {
  }

  /* ---------------- predict_tomorrow ---------------- */

  /** `df_dates.max()` as a day ordinal. */
  function LatestOrdinal(t: Table): (n: int)
    requires t != []
    ensures forall i :: 0 <= i < |t| ==> Ordinal(t[i].date) <= n
    ensures exists i :: 0 <= i < |t| && Ordinal(t[i].date) == n
  {
    var ords := seq(|t|, i requires 0 <= i < |t| => Ordinal(t[i].date));
    var k := ArgMax(ords);
    assert forall i :: 0 <= i < |t| ==> ords[i] == Ordinal(t[i].date);
    ords[k]
  }

  /** `df[df_dates >= df_dates.max() - pd.Timedelta(days=7)]`: empty for an empty table (NaT compares false). */
  function LastWeek(t: Table): Table
  {
    if t == [] then []
    else
      var latest := LatestOrdinal(t);
      Filter(t, (o: Observation) => Ordinal(o.date) >= latest - 7)
  }

  /**
   * The window holds a latest-dated row, every row in it lies within the
   * eight calendar days ending on the latest date, and every row of the table
   * in that span is in it.
   */
  lemma LastWeekWindow(t: Table)
    requires t != []
    ensures LastWeek(t) != []
    ensures exists o :: o in LastWeek(t) && Ordinal(o.date) == LatestOrdinal(t)
    ensures forall o :: o in LastWeek(t) ==> LatestOrdinal(t) - 7 <= Ordinal(o.date) <= LatestOrdinal(t)
    ensures forall o :: o in t && Ordinal(o.date) >= LatestOrdinal(t) - 7 ==> o in LastWeek(t)
  {
    var i :| 0 <= i < |t| && Ordinal(t[i].date) == LatestOrdinal(t);
    assert t[i] in LastWeek(t);
  }

  datatype Prediction = Prediction(temperature: real, condition: Condition)

  /**
   * `predict_tomorrow`: the mean temperature and most common condition of the
   * last week's rows; `None` for an empty table, where `most_common(1)[0]`
   * raises IndexError.
   */
  function PredictTomorrow(t: Table): (r: Option<Prediction>)
    ensures r.Some? <==> t != []
  {
    if t == [] then None
    else
      var week := LastWeek(t);
      LastWeekWindow(t);
      Some(Prediction(Mean(Temperatures(week)), MostCommon(Conditions(week)).value))
  }

  /**
   * On a non-empty table the forecast temperature is the last week's mean,
   * so it lies between that week's lowest and highest temperature.
   */
  lemma PredictionTemperature(t: Table)
    requires t != []
    ensures LastWeek(t) != []
    ensures PredictTomorrow(t).value.temperature == Mean(Temperatures(LastWeek(t)))
    ensures var week := Temperatures(LastWeek(t));
      Minimum(week) as real <= PredictTomorrow(t).value.temperature <= Maximum(week) as real
  {
    LastWeekWindow(t);
    MeanBounds(Temperatures(LastWeek(t)));
  }

  /** The forecast condition is the last week's most frequent one, the first seen on ties. */
  lemma PredictionCondition(t: Table)
    requires t != []
    ensures LastWeek(t) != []
    ensures IsFirstMode(Conditions(LastWeek(t)), PredictTomorrow(t).value.condition)
  {
    LastWeekWindow(t);
    MostCommonIsFirstMode(Conditions(LastWeek(t)));
  }

  /* ---------------- a worked case ---------------- */

  /** A table of one row: its statistics are that row's values, and it is both record rows. */
  lemma SingleObservation(o: Observation)
    ensures WeatherStatistics([o]) == Some(Statistics(o.temperature as real, o.temperature, o.temperature, o.condition))
    ensures RecordTemperatures([o]) == Some((o, o))
    ensures PredictTomorrow([o]) == Some(Prediction(o.temperature as real, o.condition))
  {
    var t := [o];
    assert Temperatures(t) == [o.temperature];
    assert Sum([o.temperature]) == o.temperature by {
      assert [o.temperature][..0] == [];
    }
    assert Conditions(t) == [o.condition];
    assert LastWeek(t) == t;
  }
}
