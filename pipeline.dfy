/** The arrivals run: scrape the day's listing, look up the aircraft model of each
    distinct primary flight number, write the models into the frame, add the CO2
    column, and keep the rows dated on the run date. */
module Pipeline {
  import opened Wrappers
  import opened Listing
  import opened Emissions
  import opened RunDates
  import Frames
  import Scraper
  import Enrichment

  /** One row of the saved frame: the scraped columns, `Aircraft Info` (`None` for a
      missing value) and `CO2 Emission (kg)`. */
  datatype OutputRow = OutputRow(record: FlightRecord, aircraftInfo: Option<string>, co2: Co2Outcome)

  /** The `Primary Flight Number` column. */
  function PrimaryNumbers(df: seq<FlightRecord>): (ps: seq<string>)
    ensures |ps| == |df| && forall i :: 0 <= i < |df| ==> ps[i] == df[i].primaryFlightNumber
  {
    seq(|df|, i requires 0 <= i < |df| => df[i].primaryFlightNumber)
  }

  /** The CO2 outcome of an arrival row; it does not depend on the missing-models file. */
  function Co2Of(db: AirportDb, table: map<string, real>, location: string, model: Option<string>): Co2Outcome
  {
    CalculateCo2Emission(db, table, Arrival, location, model, []).0
  }

  /** `df.apply(calculate_co2_emission, axis=1)` over the rows of a frame that has some:
      the rows are estimated in order, each one possibly appending to the missing-models
      file; the first row that raises ends the run (`None`), with what was written so
      far kept. */
  function Co2Apply(db: AirportDb, table: map<string, real>, df: seq<FlightRecord>,
                    info: seq<Option<string>>, log: seq<string>): (Option<seq<Co2Outcome>>, seq<string>)
    requires |info| == |df|
    decreases |df|
  {
    if df == [] then (Some([]), log)
    else
      // the row's outcome does not depend on the file (Emissions.Co2OutcomeIgnoresLog)
      var outcome := Co2Of(db, table, df[0].location, info[0]);
      var logged := CalculateCo2Emission(db, table, Arrival, df[0].location, info[0], log).1;
      if outcome.Raised? then (None, logged)
      else
        var rest := Co2Apply(db, table, df[1..], info[1..], logged);
        if rest.0.None? then (None, rest.1)
        else (Some([outcome] + rest.0.value), rest.1)
  }

  /** The assignment `df['CO2 Emission (kg)'] = df.apply(...)`. On a frame without rows,
      pandas calls the function once on a row of missing values to infer the result's
      shape; that call raises (a missing Origin has no `split`), the exception is
      swallowed and `apply` returns a copy of the whole frame, which cannot be assigned
      to one column: the run ends, before any row is estimated. */
  function Co2Column(db: AirportDb, table: map<string, real>, df: seq<FlightRecord>,
                     info: seq<Option<string>>, log: seq<string>): (r: (Option<seq<Co2Outcome>>, seq<string>))
    requires |info| == |df|
    ensures df == [] ==> r == (None, log)
  {
    if df == [] then (None, log) else Co2Apply(db, table, df, info, log)
  }

  /** The estimates of the rows, when they all go through, are each row's own estimate. */
  lemma {:induction false} Co2ApplyValues(db: AirportDb, table: map<string, real>, df: seq<FlightRecord>,
                                          info: seq<Option<string>>, log: seq<string>)
    requires |info| == |df|
    ensures var r := Co2Apply(db, table, df, info, log);
      r.0.Some? ==> |r.0.value| == |df| && forall i :: 0 <= i < |df| ==> r.0.value[i] == Co2Of(db, table, df[i].location, info[i])
    decreases |df|
  {
    if df != [] {
      var logged := CalculateCo2Emission(db, table, Arrival, df[0].location, info[0], log).1;
      Co2ApplyValues(db, table, df[1..], info[1..], logged);
      assert forall i :: 1 <= i < |df| ==> df[1..][i - 1] == df[i] && info[1..][i - 1] == info[i];
    }
  }

  /** Estimating the rows stops exactly when some row raises. */
  lemma {:induction false} Co2ApplyRaises(db: AirportDb, table: map<string, real>, df: seq<FlightRecord>,
                                          info: seq<Option<string>>, log: seq<string>)
    requires |info| == |df|
    ensures Co2Apply(db, table, df, info, log).0.None? <==>
      exists i :: 0 <= i < |df| && Co2Of(db, table, df[i].location, info[i]).Raised?
    decreases |df|
  {
    if df != [] && !Co2Of(db, table, df[0].location, info[0]).Raised? {
      var logged := CalculateCo2Emission(db, table, Arrival, df[0].location, info[0], log).1;
      Co2ApplyRaises(db, table, df[1..], info[1..], logged);
      assert forall i :: 1 <= i < |df| ==> df[1..][i - 1] == df[i] && info[1..][i - 1] == info[i];
    }
  }

  /** The column holds each row's own estimate, none of them raising; the run ends
      exactly when the frame has no rows or some row raises. */
  lemma Co2ColumnOutcomes(db: AirportDb, table: map<string, real>, df: seq<FlightRecord>,
                          info: seq<Option<string>>, log: seq<string>)
    requires |info| == |df|
    ensures var r := Co2Column(db, table, df, info, log);
      && (r.0.Some? ==> (|r.0.value| == |df|
        && forall i :: 0 <= i < |df| ==> r.0.value[i] == Co2Of(db, table, df[i].location, info[i]) && !r.0.value[i].Raised?))
      && (r.0.None? <==> df == [] || exists i :: 0 <= i < |df| && Co2Of(db, table, df[i].location, info[i]).Raised?)
  {
    Co2ApplyValues(db, table, df, info, log);
    Co2ApplyRaises(db, table, df, info, log);
  }

  /** While the rows are estimated the missing-models file only grows, and only by
      models of these rows that the table misses. */
  lemma {:induction false} Co2ApplyLog(db: AirportDb, table: map<string, real>, df: seq<FlightRecord>,
                                       info: seq<Option<string>>, log: seq<string>)
    requires |info| == |df|
    ensures var r := Co2Apply(db, table, df, info, log);
      log <= r.1 && forall k :: |log| <= k < |r.1| ==> r.1[k] !in table && Some(r.1[k]) in info
    decreases |df|
  {
    if df != [] {
      var first := CalculateCo2Emission(db, table, Arrival, df[0].location, info[0], log);
      Co2LogStep(db, table, Arrival, df[0].location, info[0], log);
      Co2OutcomeIgnoresLog(db, table, Arrival, df[0].location, info[0], log, []);
      if !first.0.Raised? {
        Co2ApplyLog(db, table, df[1..], info[1..], first.1);
        var r := Co2Apply(db, table, df[1..], info[1..], first.1);
        assert Co2Apply(db, table, df, info, log).1 == r.1;
        forall k | |log| <= k < |r.1|
          ensures r.1[k] !in table && Some(r.1[k]) in info
        {
          if k >= |first.1| {
            assert Some(r.1[k]) in info[1..];
          } else {
            assert r.1[k] == first.1[k];
          }
        }
      }
    }
  }

  /** The missing-models file only grows, and only by models of these rows that the table misses. */
  lemma Co2ColumnLog(db: AirportDb, table: map<string, real>, df: seq<FlightRecord>,
                     info: seq<Option<string>>, log: seq<string>)
    requires |info| == |df|
    ensures var r := Co2Column(db, table, df, info, log);
      log <= r.1 && forall k :: |log| <= k < |r.1| ==> r.1[k] !in table && Some(r.1[k]) in info
  {
    if df != [] {
      Co2ApplyLog(db, table, df, info, log);
    }
  }

  /** `filter_by_date`: the rows whose date text starts with the run date in `DD Mon`
      form; `None` when the run date does not parse. */
  function FilterByDate(rows: seq<OutputRow>, dateText: string): (r: Option<seq<OutputRow>>)
    ensures r.None? <==> ParseIso(dateText).None?
    ensures r.Some? ==> forall row :: row in r.value <==>
      row in rows && DateKey(row.record.dateStatus) == TargetDate(ParseIso(dateText).value)
    ensures r.Some? ==> Frames.Distinct(rows) ==> Frames.Distinct(r.value)
  {
    match ParseIso(dateText)
    case None => None
    case Some(d) =>
      var target := TargetDate(d);
      var onDate := (row: OutputRow) => DateKey(row.record.dateStatus) == target;
      if Frames.Distinct(rows) then
        Frames.FilterDistinct(rows, onDate);
        Some(Frames.Filter(rows, onDate))
      else Some(Frames.Filter(rows, onDate))
  }

  /** The `Aircraft Info` column the lookup should give: each row's model, found through its primary number. */
  function ModelColumn(df: seq<FlightRecord>, pages: string -> Enrichment.DetailsPage): (info: seq<Option<string>>)
    ensures |info| == |df|
    ensures forall i :: 0 <= i < |df| ==>
      info[i] == Some(Enrichment.ModelOf(df[i].primaryFlightNumber, pages(df[i].primaryFlightNumber)))
  {
    seq(|df|, i requires 0 <= i < |df| =>
      Some(Enrichment.ModelOf(df[i].primaryFlightNumber, pages(df[i].primaryFlightNumber))))
  }

  function Rows(df: seq<FlightRecord>, info: seq<Option<string>>, co2: seq<Co2Outcome>): (rows: seq<OutputRow>)
    requires |info| == |df| && |co2| == |df|
    ensures |rows| == |df| && forall i :: 0 <= i < |df| ==> rows[i] == OutputRow(df[i], info[i], co2[i])
  {
    seq(|df|, i requires 0 <= i < |df| => OutputRow(df[i], info[i], co2[i]))
  }

  /** The saved frame of an arrivals run over the scraped frame `df`, and the
      missing-models file after it; `None` where the run raises. */
  function ArrivalsReport(df: seq<FlightRecord>, pages: string -> Enrichment.DetailsPage, db: AirportDb,
                          table: map<string, real>, log: seq<string>, dateText: string)
    : (Option<seq<OutputRow>>, seq<string>)
  {
    var info := ModelColumn(df, pages);
    var co2 := Co2Column(db, table, df, info, log);
    Co2ColumnOutcomes(db, table, df, info, log);
    if co2.0.None? then (None, co2.1)
    else (FilterByDate(Rows(df, info, co2.0.value), dateText), co2.1)
  }

  /** What an arrivals run over a duplicate-free scraped frame saves. */
  lemma ArrivalsReportSpec(df: seq<FlightRecord>, pages: string -> Enrichment.DetailsPage, db: AirportDb,
                           table: map<string, real>, log: seq<string>, dateText: string)
    requires Frames.Distinct(df)
    ensures var r := ArrivalsReport(df, pages, db, table, log, dateText);
      // the run saves exactly when the frame has rows, none of them raises and the run date parses
      && (r.0.Some? <==> (df != [] && ParseIso(dateText).Some?
        && forall i :: 0 <= i < |df| ==> !Co2Of(db, table, df[i].location, ModelColumn(df, pages)[i]).Raised?))
      && (r.0.Some? ==> Frames.Distinct(r.0.value))
      // each saved row is a scraped row of the run date, with its model and its estimate
      && (r.0.Some? ==> forall row :: row in r.0.value ==>
        && row.record in df
        && DateKey(row.record.dateStatus) == TargetDate(ParseIso(dateText).value)
        && row.aircraftInfo == Some(Enrichment.ModelOf(row.record.primaryFlightNumber, pages(row.record.primaryFlightNumber)))
        && row.co2 == Co2Of(db, table, row.record.location, row.aircraftInfo))
      // and every scraped row of the run date is saved
      && (r.0.Some? ==> forall rec :: rec in df && DateKey(rec.dateStatus) == TargetDate(ParseIso(dateText).value) ==>
        exists row :: row in r.0.value && row.record == rec)
  {
    var info := ModelColumn(df, pages);
    var co2 := Co2Column(db, table, df, info, log);
    Co2ColumnOutcomes(db, table, df, info, log);
    if co2.0.Some? {
      ReportRows(df, pages, db, table, co2.0.value);
    }
  }

  /** The rows before the date filter: one per scraped row, each with its model and
      its estimate, no two alike. */
  lemma ReportRows(df: seq<FlightRecord>, pages: string -> Enrichment.DetailsPage, db: AirportDb,
                   table: map<string, real>, co2: seq<Co2Outcome>)
    requires Frames.Distinct(df) && |co2| == |df|
    requires forall i :: 0 <= i < |df| ==> co2[i] == Co2Of(db, table, df[i].location, ModelColumn(df, pages)[i])
    ensures var rows := Rows(df, ModelColumn(df, pages), co2);
      && Frames.Distinct(rows)
      && (forall row :: row in rows ==>
        && row.record in df
        && row.aircraftInfo == Some(Enrichment.ModelOf(row.record.primaryFlightNumber, pages(row.record.primaryFlightNumber)))
        && row.co2 == Co2Of(db, table, row.record.location, row.aircraftInfo))
      && (forall rec :: rec in df ==> exists row :: row in rows && row.record == rec)
  {
    var info := ModelColumn(df, pages);
    var rows := Rows(df, info, co2);
    assert forall i, j :: 0 <= i < j < |rows| ==> rows[i].record != rows[j].record;
    forall row | row in rows
      ensures row.record in df
      ensures row.aircraftInfo == Some(Enrichment.ModelOf(row.record.primaryFlightNumber, pages(row.record.primaryFlightNumber)))
      ensures row.co2 == Co2Of(db, table, row.record.location, row.aircraftInfo)
    {
      var i :| 0 <= i < |rows| && rows[i] == row;
    }
    forall rec | rec in df
      ensures exists row :: row in rows && row.record == rec
    {
      var i :| 0 <= i < |df| && df[i] == rec;
      assert rows[i] in rows;
    }
  }

  /** An arrival whose Origin text has no '(' ends the run before anything is saved. */
  lemma ArrivalWithoutCodeAborts(df: seq<FlightRecord>, pages: string -> Enrichment.DetailsPage, db: AirportDb,
                                 table: map<string, real>, log: seq<string>, dateText: string, i: nat)
    requires i < |df| && '(' !in df[i].location
    ensures ArrivalsReport(df, pages, db, table, log, dateText).0.None?
  {
    assert Co2Of(db, table, df[i].location, ModelColumn(df, pages)[i]).Raised?;
    Co2ColumnOutcomes(db, table, df, ModelColumn(df, pages), log);
  }

  /** The lookup over the distinct primary numbers and the merge into the frame give
      every row the model of its own primary number. */
  method LookupModels(df: seq<FlightRecord>, pages: string -> Enrichment.DetailsPage, completion: seq<nat>)
    returns (info: seq<Option<string>>)
    requires Enrichment.IsOrderOf(completion, |Frames.DropDuplicates(PrimaryNumbers(df))|)
    ensures info == ModelColumn(df, pages)
  {
    var primaries := PrimaryNumbers(df);
    var flightNumbers := Frames.DropDuplicates(primaries);
    var results := Enrichment.ProcessFlightNumbersConcurrently(flightNumbers, pages, completion);
    info := Enrichment.MergeAircraftInfo(primaries, results);
    forall i | 0 <= i < |df|
      ensures info[i] == ModelColumn(df, pages)[i]
    {
      var p := primaries[i];
      assert p in flightNumbers;
      Enrichment.LastModelOfDistinct(results, p, Enrichment.ModelOf(p, pages(p)));
    }
  }

  /** The arrivals script: the scraped frame, the model lookup over its distinct
      primary numbers (`completion` is the order in which the pool's lookups finish),
      the merge, the CO2 column and the date filter. A browser crash while scraping
      ends the script before anything else happens. */
  method RunArrivals(dateText: string, outcomes: seq<Scraper.WindowOutcome>, pages: string -> Enrichment.DetailsPage,
                     completion: seq<nat>, db: AirportDb, table: map<string, real>, log: seq<string>)
    returns (output: Option<seq<OutputRow>>, newLog: seq<string>)
    requires |outcomes| == |Scraper.TimeIntervals|
    requires Enrichment.IsOrderOf(completion,
      |Frames.DropDuplicates(PrimaryNumbers(FinishFrame(Scraper.CollectWindows(outcomes))))|)
    ensures Scraper.FirstCrash(outcomes) < |outcomes| ==> output == None && newLog == log
    ensures Scraper.FirstCrash(outcomes) == |outcomes| ==>
      (output, newLog) == ArrivalsReport(FinishFrame(Scraper.CollectWindows(outcomes)), pages, db, table, log, dateText)
  {
    var scraped, urls, drivers := Scraper.ScrapeFlights(dateText, Arrival, outcomes);
    if scraped.None? {
      return None, log;
    }
    var df := scraped.value;
    var info := LookupModels(df, pages, completion);
    var co2 := Co2Column(db, table, df, info, log);
    Co2ColumnOutcomes(db, table, df, info, log);
    newLog := co2.1;
    if co2.0.None? {
      output := None;
    } else {
      output := FilterByDate(Rows(df, info, co2.0.value), dateText);
    }
  }

  /** A day on which no window shows a listing body saves nothing: the frame is empty. */
  lemma EmptyDaySavesNothing(outcomes: seq<Scraper.WindowOutcome>, pages: string -> Enrichment.DetailsPage,
                             db: AirportDb, table: map<string, real>, log: seq<string>, dateText: string)
    requires forall i :: 0 <= i < |outcomes| ==>
      !(outcomes[i].Loaded? && outcomes[i].table.Some? && outcomes[i].table.value.body.Some?)
    ensures ArrivalsReport(FinishFrame(Scraper.CollectWindows(outcomes)), pages, db, table, log, dateText) == (None, log)
  {
    Scraper.NoTablesNoRecords(outcomes);
    assert FinishFrame([]) == [];
  }
}
