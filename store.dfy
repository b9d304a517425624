/**
 * Where the tables live between calls. streamlit_app.py keeps one CSV file,
 * `weather_data.csv`; utils.py keeps one file per year, `data/weather_<year>.csv`.
 * A file's contents are the table last written to it, read back unchanged.
 */
module Store {
  import opened Wrappers
  import opened Calendar
  import opened DateText
  import opened Tables
  import opened Queries
  import opened Generator

  /** The row `record_observation` appends. */
  function NewRow(date: CalendarDate, temp: int, condition: Condition, humidity: int, wind: int): Observation
  {
    Observation(date, temp, condition, humidity, wind)
  }

  /** streamlit_app.py's single file: whether it exists and the table it holds. */
  class WeatherCsv {
    var present: bool
    var rows: Table

    constructor (present: bool, rows: Table)
      ensures this.present == present && this.rows == rows
    {
      this.present := present;
      this.rows := rows;
    }

    /** `generate_weather_data()`: the 2025 table from the draws, written over the file. */
    method GenerateWeatherData(draws: seq<DayDraws>) returns (df: Table)
      requires |draws| == DaysGenerated
      modifies this
      ensures df == GeneratedTable(StreamlitApp, AppYear, draws)
      ensures present && rows == df
    {
      df := GenerateRows(StreamlitApp, AppYear, draws);
      present := true;
      rows := df;
    }

    /** `load_weather_data()`: the file's table, or a freshly generated one when there is no file. */
    method LoadWeatherData(draws: seq<DayDraws>) returns (df: Table)
      requires present || |draws| == DaysGenerated
      modifies this
      ensures old(present) ==> df == old(rows) && present && rows == old(rows)
      ensures !old(present) ==> df == GeneratedTable(StreamlitApp, AppYear, draws) && present && rows == df
    {
      if present {
        df := rows;
      } else {
        df := GenerateWeatherData(draws);
      }
    }

    /**
     * `record_observation(date, temp, condition, humidity, wind)`: load, append
     * the one new row at the end, write the result back and return it.
     */
    method RecordObservation(date: CalendarDate, temp: int, condition: Condition, humidity: int, wind: int,
                             draws: seq<DayDraws>) returns (df: Table)
      requires present || |draws| == DaysGenerated
      modifies this
      ensures df == (if old(present) then old(rows) else GeneratedTable(StreamlitApp, AppYear, draws))
                    + [NewRow(date, temp, condition, humidity, wind)]
      ensures present && rows == df
    {
      df := LoadWeatherData(draws);
      df := df + [NewRow(date, temp, condition, humidity, wind)];
      rows := df;
    }
  }

  /** utils.py's data folder: the table held by each year's file. */
  class DataFolder {
    var files: map<int, Table>

    constructor (files: map<int, Table>)
      ensures this.files == files
    {
      this.files := files;
    }

    /**
     * `generate_weather_data(year)`: the table from the draws, written to that
     * year's file. A year `datetime` rejects raises before anything is
     * written: `None`.
     */
    method GenerateWeatherData(year: int, draws: seq<DayDraws>) returns (r: Option<Table>)
      requires |draws| == DaysGenerated
      modifies this
      ensures !(MinYear <= year <= MaxYear) ==> r.None? && files == old(files)
      ensures MinYear <= year <= MaxYear ==>
        r == Some(GeneratedTable(Utils, year, draws)) && files == old(files)[year := r.value]
    {
      if !(MinYear <= year <= MaxYear) {
        return None;
      }
      var df := GenerateRows(Utils, year, draws);
      files := files[year := df];
      r := Some(df);
    }

    /**
     * `load_weather_data(year)`: that year's file, or a freshly generated one
     * when it is missing (which raises for a year `datetime` rejects).
     */
    method LoadWeatherData(year: int, draws: seq<DayDraws>) returns (r: Option<Table>)
      requires year in files || |draws| == DaysGenerated
      modifies this
      ensures year in old(files) ==> r == Some(old(files)[year]) && files == old(files)
      ensures year !in old(files) && !(MinYear <= year <= MaxYear) ==> r.None? && files == old(files)
      ensures year !in old(files) && MinYear <= year <= MaxYear ==>
        r == Some(GeneratedTable(Utils, year, draws)) && files == old(files)[year := r.value]
    {
      if year in files {
        r := Some(files[year]);
      } else {
        r := GenerateWeatherData(year, draws);
      }
    }

    /**
     * `record_observation(df, date, …)`: the given table with the one new row
     * appended, written to the file of the year read from `date`. A date text
     * that `strptime` rejects raises before anything is written: `None`.
     */
    method RecordObservation(df: Table, date: string, temp: int, condition: Condition, humidity: int, wind: int)
      returns (r: Option<Table>)
      modifies this
      ensures Parse(date).None? ==> r.None? && files == old(files)
      ensures Parse(date).Some? ==>
        && r == Some(df + [NewRow(Parse(date).value, temp, condition, humidity, wind)])
        && files == old(files)[Parse(date).value.year := r.value]
      ensures r.Some? ==> Format(r.value[|df|].date) == date && date[6..10] == Pad4(Parse(date).value.year)
    {
      var parsed := Parse(date);
      if parsed.None? {
        return None;
      }
      var year := parsed.value.year;
      FormatParse(date);
      var t := df + [NewRow(parsed.value, temp, condition, humidity, wind)];
      files := files[year := t];
      r := Some(t);
    }
  }

  /* ---------------- queries after a record ---------------- */

  /**
   * After appending a row, a date search finds what it found before, then
   * the new row if its date text is the query.
   */
  lemma SearchAfterRecord(t: Table, o: Observation, query: string)
    ensures SearchByDate(t + [o], query) == SearchByDate(t, query) + (if Format(o.date) == query then [o] else [])
  {
    FilterAppend(t, [o], (x: Observation) => Format(x.date) == query);
    assert [o][1..] == [];
  }

  /** The recorded row is the last row found by searching for its own date. */
  lemma RecordedRowFound(t: Table, o: Observation)
    ensures var found := SearchByDate(t + [o], Format(o.date));
      found != [] && found[|found| - 1] == o
  {
    SearchAfterRecord(t, o, Format(o.date));
  }

  /** Appending a row moves the maximum and minimum temperature only as far as that row's. */
  lemma StatisticsAfterRecord(t: Table, o: Observation)
    requires t != []
    ensures var before, after := WeatherStatistics(t).value, WeatherStatistics(t + [o]).value;
      && after.maximum == (if o.temperature > before.maximum then o.temperature else before.maximum)
      && after.minimum == (if o.temperature < before.minimum then o.temperature else before.minimum)
  {
    var xs := Temperatures(t + [o]);
    assert xs[..|xs| - 1] == Temperatures(t);
  }
}
