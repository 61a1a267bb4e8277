# Anchorage airport CO2 tracker — verified model of the arrivals pipeline and the dashboard loader

The tracker scrapes the arrivals listing of Ted Stevens Anchorage International
Airport (PANC) from a flight-listing site, one two-hour window at a time. It looks up
each flight's aircraft model on a flight-data site and estimates each flight's CO2
emission from a per-kilometre factor table. It keeps the flights of the run date and
saves them per day. A Panel dashboard then loads the saved days of a date range, with
or without a row limit, and shows totals and a table whose length the user raises in
steps.

This project models that logic in Dafny and proves what it promises:

- **Arrivals.py, value logic** (`Emissions`, `FactorTable`, `Listing`, `RunDates`, `Frames`, `Strings`):
  - the IATA code cut out of the origin text;
  - the airport lookup;
  - the factor table as the dict its literal builds;
  - the manufacturer-family partition and the fallback factor choice;
  - the unknown and raising cases of the emission estimate;
  - the missing-models file;
  - row extraction with its "Unknown" defaults;
  - the status filter and `drop_duplicates`;
  - the `'%d %b'` date filter.
- **Arrivals.py, loops and state** (`Scraper`, `Enrichment`, `Pipeline`):
  - the twelve-window scraping loop, with each window's browser outcome given as an input;
  - the row loop of one listing table;
  - the lookup pool, with its pages and completion order given as inputs;
  - the `.loc` merge of models into the frame;
  - the `__main__` script.

  These are written as methods with loop invariants. Each is proved against a specification function.
- **Panel.py** (`Dashboard`):
  - `load_pickle_files_dask` as a method with its accumulator loop and early `break`;
  - `DashboardState`, a class holding the module's globals and widget values (row counter, button flag, SAF slider and input, date-range files, summary panel), with one method per callback.

Browser, network, files, clock and threads are parameters. Each window's page is a
`WindowOutcome`. Each lookup is a `DetailsPage` produced by a function from flight
numbers. The pool's completion order is a permutation. The airport database is a map.
The missing-models file is a sequence of writes, one `f.write(f"{model}\n")` per
entry. A date range is a sequence of
optional per-date frames.

Behaviour of the code that the model reproduces:

- An arrival whose Origin text has no `(` raises an `IndexError` at Arrivals.py:337. Only the departure branch guards against it. So the whole arrivals run ends (`Co2Outcome.Raised`, `Pipeline.ArrivalWithoutCodeAborts`).
- The IATA code keeps a closing `)` when the text has no `" / "` (`Emissions.IataKeepsClosingParen`).
- A full listing row without a flight link raises an `AttributeError` (Arrivals.py:477). The generic handler catches it and restarts the driver. The records of earlier rows of that window stay in `all_flights` (`Scraper.WindowKeepsRowsBeforeFailure`).
- A page whose table has no `<tbody>` also ends in that handler, with a restart (`Scraper.ProcessWindow`).
- Only a `TimeoutException` is caught around the wait for the results container (Arrivals.py:452-461), and nothing is caught around the tab check (Arrivals.py:509-511) or a driver restart that fails three times. Any other browser exception there ends the script before anything is saved (`Scraper.WindowOutcome.Crashed`, `Scraper.ScrapeFlights`, `Pipeline.RunArrivals`).
- A day whose windows give no records ends the script at the CO2 column (Arrivals.py:589). On a frame without rows, pandas' `apply` calls the function once on a row of missing values to infer the result's shape. That call raises, the exception is swallowed, and `apply` returns a copy of the whole frame, which cannot be assigned to the single column (`Pipeline.Co2Column`, `Pipeline.EmptyDaySavesNothing`). This rests on how pandas treats an empty frame.
- An unseen ICAO-style code such as `B752` falls back to the Boeing mean. A key of that form in the table is averaged into the other group (`Emissions.IcaoCodeFallsBackToBoeing`).
- With a row limit, a date's frame that would go past the limit is cut and loading stops. When the limit is reached exactly, the next existing frame contributes an empty slice. So the result is `None` only when no date has a file (`Dashboard.LoadPickleFilesDask`).

## Model

| member | source | states |
|---|---|---|
| Emissions.GetAirportCoords | Arrivals.py:50-54 | both coordinates are present exactly when the code is in the database, and then they are its entry |
| Emissions.ExtractIata | Arrivals.py:337 | the two splits fail (IndexError) exactly when the text has no `(` |
| Emissions.IataFromParts | Arrivals.py:337 | the code is the text after the first `(` up to the next `(`, cut just before the first `" / "`; it never contains `" / "` |
| Emissions.IataBeforeSlash | Arrivals.py:337 | for `pre (CODE / rest)` the code is exactly `CODE` |
| Emissions.IataOfSeattle | Arrivals.py:337 | `"Seattle (SEA / KSEA)"` gives `SEA` |
| Emissions.IataKeepsClosingParen | Arrivals.py:337 | without `" / "` the trailing `)` stays in the code |
| Emissions.NoParenNoIata | Arrivals.py:341-344 | a text without `(` has no code (the departure branch's `Unknown`, the arrival branch's crash) |
| FactorTable.DictOf | Arrivals.py:65-320 | the dict of a literal has exactly the keys written in it |
| FactorTable.DictOfLastWins | Arrivals.py:65-320 | a key repeated in the literal maps to the value on its last line |
| FactorTable.DictOfSize | Arrivals.py:65-320 | a literal that writes a key twice builds a dict with fewer keys than lines |
| FactorTable.DictOfAtMost | Arrivals.py:65-320 | the dict never has more keys than the literal has lines |
| FactorTable.UnknownEntry | Arrivals.py:319 | `'Unknown'` is in the table with factor 0.0 |
| Emissions.FamilyPartition | Arrivals.py:323-325 | the three groups cover the keys; the other group is exactly the keys naming neither Boeing nor Airbus and is disjoint from the other two |
| Emissions.GroupsOfDistinctKeys | Arrivals.py:323-325 | the groups are built over the dict's distinct keys, so keys duplicated in the literal collapse |
| Emissions.UnknownInOtherGroup | Arrivals.py:319-325 | `'Unknown'` is averaged into the other group |
| Emissions.IcaoKeyInOtherGroup | Arrivals.py:323-325 | a short ICAO-style key such as `B737` falls in the other group |
| Emissions.SelectFactor | Arrivals.py:356-379 | a table hit is always used; on a miss, Boeing name or leading `B`+digits gives the Boeing mean, else an Airbus name the Airbus mean, else the other mean (each as an if-and-only-if) |
| Emissions.BoeingCodeReadsTwoCharacters | Arrivals.py:374 | the `B\d+` match is anchored at the start and decided by the first two characters |
| Emissions.BoeingCodeExamples | Arrivals.py:374 | `B738` and `B77W` match; `Boeing 737-800`, a bare `B` and `A320` do not |
| Emissions.UnknownModelFactor | Arrivals.py:319 | the model `'Unknown'` gets the table's 0.0 |
| Emissions.FallbackMatchesGroup | Arrivals.py:323-379 | an unseen model that gets the other mean would join the other group; an unseen Airbus name gets the Airbus mean and would join the Airbus group |
| Emissions.IcaoCodeFallsBackToBoeing | Arrivals.py:323-379 | an unseen `B752` gets the Boeing mean while a key `B752` would be averaged into the other group |
| Emissions.FileLines | Arrivals.py:363-365 | iterating the file yields lines that hold no line break, cut at `\r\n`, `\r` or `\n` |
| Emissions.SingleLine | Arrivals.py:365-371 | a model written without line breaks reads back as that one line |
| Emissions.EntryModelsOfLine | Arrivals.py:365-371 | such a model then lists exactly its stripped text |
| Emissions.LineBreakNotListed | Arrivals.py:365-371 | a model with a line break reads back as other lines, so what it wrote never lists it |
| Emissions.LogMissingModel | Arrivals.py:361-371 | a missed model is written, followed by a line break, exactly when no stripped line of the file already lists it |
| Emissions.LogMissingModelOnce | Arrivals.py:361-371 | logging a stripped model without line breaks twice writes it once |
| Emissions.LineBreakModelLoggedAgain | Arrivals.py:365-371 | a model with a line break that is not listed is written again on every miss |
| Emissions.ExistingModelsAppend | Arrivals.py:363-371 | the listed models are the stripped lines of everything written, so a write adds the stripped lines of its own text |
| Emissions.CalculateCo2Emission | Arrivals.py:335-344 | a location text without `(`: an arrival raises, a departure gives Unknown, and the missing-models file is untouched |
| Emissions.Co2EmissionCases | Arrivals.py:335-381 | with a `(`: an endpoint missing from the database gives Unknown; a missing model raises; otherwise an estimate from both endpoints' coordinates and the selected factor; the file gains the model only on a table miss |
| Emissions.Co2OutcomeIgnoresLog | Arrivals.py:346-379 | a row's outcome does not depend on what the missing-models file already holds |
| Emissions.Co2LogStep | Arrivals.py:356-371 | one estimate only appends, at most one write, and that write is the row's own model, which the table misses |
| Emissions.EstimateIdempotent | Arrivals.py:335-381 | estimating the same row again, for a stripped model without line breaks, gives the same outcome and leaves the file unchanged |
| Strings.Split | Arrivals.py:337 | `str.split(sep)` gives at least one piece |
| Strings.SplitJoin | Arrivals.py:337 | joining the pieces of a split with its separator gives back the text |
| Strings.SplitPieces | Arrivals.py:337 | no piece contains the separator; there are two or more pieces exactly when the text contains it |
| Strings.SplitHead | Arrivals.py:337 | the first piece is the text before the leftmost separator, or all of it |
| Strings.ContainsIff | Arrivals.py:374-376 | `sub in s` holds exactly when `sub` occurs at some index |
| Strings.ContainsChar | Arrivals.py:337 | a one-character `in` is membership |
| Strings.FindFrom | Arrivals.py:337 | the leftmost occurrence at or after the start, or none at all |
| Strings.Words | Arrivals.py:388 | `str.split()` gives non-empty, whitespace-free words |
| Strings.WordsCons | Arrivals.py:388 | a word followed by a space splits off as the first word |
| Strings.WordsJoin | Arrivals.py:388 | splitting a space-joined list of words gives back the words |
| Strings.Strip | Arrivals.py:482-487 | `str.strip()` is a slice of the text that has no whitespace at either end, and only whitespace was cut |
| Strings.Lower | Arrivals.py:521 | `str.lower()` keeps the length, leaves no upper-case ASCII letter, and changes a character only to the lower case of its letter |
| Listing.FieldText | Arrivals.py:482-487 | a missing element gives `"Unknown"`, a found one its stripped text |
| Listing.FieldTextTrimmed | Arrivals.py:482-487 | a field never starts or ends with whitespace |
| Listing.ParseRow | Arrivals.py:471-496 | a row is skipped exactly when it has fewer than 4 cells, and fails exactly when it is full but has no flight link |
| Listing.ParseRowFields | Arrivals.py:474-496 | a full row with a link gives the six columns in order, each the element's stripped text or "Unknown", the flight number falling back to the primary number |
| Listing.MissingStatusIsUnknown | Arrivals.py:487 | a full row without a status badge gets the status "Unknown" |
| Listing.FirstFailure | Arrivals.py:470-477 | the index of the first failing row: every row before it does not fail |
| Listing.Step | Arrivals.py:471-496 | reading one more row adds at most one record |
| Listing.Collect | Arrivals.py:470-496 | reading the rows gives at most one record per row |
| Listing.CollectPrefixStep | Arrivals.py:470-496 | reading the first j+1 rows is reading the first j and then row j |
| Listing.CollectUpToFailure | Arrivals.py:470-496 | reading the rows yields exactly the records of the rows before the first failing row, and fails exactly when some row fails |
| Listing.ParseRowsUpToFailure | Arrivals.py:469-506 | a listing table gives the records of its rows up to the first full row without a link, and fails exactly when such a row exists |
| Listing.CollectSticky | Arrivals.py:470-506 | after a row fails, later rows change nothing |
| Listing.FinishFrame | Arrivals.py:521-522 | the finished frame has no duplicate rows and holds exactly the scraped records whose status is kept |
| Listing.StatusFilterDrops | Arrivals.py:521 | "Unknown", "Cancelled" and "CANCELLED" statuses are filtered out |
| Listing.FinishFrameOrder | Arrivals.py:521-522 | the saved rows are in the order in which they were first scraped |
| Frames.Filter | Arrivals.py:521 | `df[mask]` keeps exactly the rows the mask accepts, and no more rows than it had |
| Frames.FilterOrder | Arrivals.py:521 | selection keeps the relative order of the rows it keeps |
| Frames.FilterCount | Arrivals.py:521 | selection keeps every copy of a kept row and no copy of any other |
| Frames.FilterConcat | Arrivals.py:521 | selection distributes over appending |
| Frames.FilterDistinct | Arrivals.py:391 | selecting from a duplicate-free frame gives a duplicate-free frame |
| Frames.DropDuplicates | Arrivals.py:522 | the same rows and no duplicates |
| Frames.FirstIndex | Arrivals.py:522 | the first index holding a row |
| Frames.FirstIndexUnique | Arrivals.py:522 | the first occurrence is the only index with nothing equal before it |
| Frames.DropDuplicatesOrder | Arrivals.py:522 | kept rows are in the order of their first occurrences |
| Frames.DropDuplicatesOfDistinct | Arrivals.py:522 | a duplicate-free frame is left unchanged |
| Frames.DropDuplicatesIdempotent | Arrivals.py:522 | dropping duplicates twice is dropping them once |
| RunDates.TwoDigits | Arrivals.py:385 | `%d`/`%m` write two digits that read back as the number |
| RunDates.FourDigits | Arrivals.py:385 | `%Y` writes four digits |
| RunDates.TwoDigitsOf | Arrivals.py:385 | two digits read as a number are written back as the same digits |
| RunDates.FourDigitsOf | Arrivals.py:385 | four digits read as a number are written back as the same digits |
| RunDates.FourDigitsValue | Arrivals.py:385 | four written digits read back as the number |
| RunDates.MonthName | Arrivals.py:385 | `%b` writes a three-letter, space-free month abbreviation |
| RunDates.MonthOfLetters | Arrivals.py:385 | three letters name a month only when they are that month's abbreviation |
| RunDates.MonthNumber | Arrivals.py:385 | a recognised abbreviation names the month whose abbreviation it is |
| RunDates.MonthNumberOfName | Arrivals.py:385 | each month's abbreviation reads back as that month |
| RunDates.TargetDate | Arrivals.py:385 | `'%d %b'` is six characters with a space at index 2 |
| RunDates.ParseDayMonth | Arrivals.py:385 | a `DD Mon` text read back gives a month 1..12 and a two-digit day |
| RunDates.ParseTargetDate | Arrivals.py:385 | the `DD Mon` text of a date reads back as its day and month |
| RunDates.TargetDateSame | Arrivals.py:385 | two dates have the same `DD Mon` text exactly when they share day and month |
| RunDates.TargetDateExample | Arrivals.py:385 | 2024-06-21 gives `"21 Jun"` |
| RunDates.IsoText | Arrivals.py:385 | `'%Y-%m-%d'` is ten characters |
| RunDates.ParseIso | Arrivals.py:385 | `strptime('%Y-%m-%d')` accepts only a real calendar date |
| RunDates.ParseIsoText | Arrivals.py:385 | parsing the written form of a date gives the date |
| RunDates.IsoTextOfParse | Arrivals.py:385 | a text that parses is the written form of its date |
| RunDates.DateKeyOfListing | Arrivals.py:388 | a date text starting with `DD Mon` and a space has that date as its first two words |
| RunDates.DateKeyOfDateOnly | Arrivals.py:388 | a text that is only `DD Mon` is its own key |
| Pipeline.FilterByDate | Arrivals.py:383-396 | an unparsable run date raises; otherwise exactly the rows whose first two words equal the run date's `DD Mon`, duplicates not introduced |
| Scraper.WindowUrl | Arrivals.py:441 | the URL is the base, `%20`, the window, and `?` |
| Scraper.BaseUrlInjective | Arrivals.py:407 | different days or directions give different base URLs |
| Scraper.WindowUrls | Arrivals.py:435-441 | the URLs of the twelve windows, in order |
| Scraper.UrlsUpToIndex | Arrivals.py:435-441 | the first n URLs are those of the first n windows, in order |
| Scraper.ProcessWindow | Arrivals.py:447-511 | a load timeout, a wait timeout or an invalid session restarts the driver and adds no records; a page without a table adds nothing and keeps the driver; a table without `<tbody>` restarts; a crash adds nothing (the run ends at it) |
| Scraper.FirstCrash | Arrivals.py:452-511 | the first window whose browser raises outside every handler: no window before it does, and it does unless it is past the last window |
| Scraper.CrashStep | Arrivals.py:452-511 | before the first crash, a window crashes exactly when it is the first crash |
| Scraper.WindowKeepsRowsBeforeFailure | Arrivals.py:468-506 | a window keeps the records of its rows before the first failing row, and restarts exactly when a row fails |
| Scraper.RestartCount | Arrivals.py:440-506 | there are at most as many restarts as windows |
| Scraper.Restarts | Arrivals.py:440-506 | there are at most as many restarts as windows |
| Scraper.GatherConcat | Arrivals.py:440-496 | records are gathered window by window |
| Scraper.CollectWindowsConcat | Arrivals.py:440-496 | the records of two runs of windows are the first run's then the second's |
| Scraper.GatherFrom | Arrivals.py:440-496 | every gathered record comes from one window |
| Scraper.CollectFromRows | Arrivals.py:470-496 | every record read from a table is the reading of one of its rows |
| Scraper.RecordsComeFromRows | Arrivals.py:440-496 | every scraped record is the reading of a full, linked row of some window's table |
| Scraper.NoTablesNoRecords | Arrivals.py:440-496 | a day without a listing body gives no records |
| Scraper.WindowStep | Arrivals.py:440-506 | one more window appends its records and counts its restart |
| Scraper.ReadRows | Arrivals.py:469-496 | the row loop gives the records and the failure that reading the rows specifies |
| Scraper.ScrapeWindow | Arrivals.py:440-506 | one window's records and restart are those its outcome specifies |
| Scraper.VisitWindow | Arrivals.py:440-506 | one more window extends the gathered records and the driver count by what that window's outcome specifies |
| Scraper.ScrapeFlights | Arrivals.py:405-524 | a crash ends the run with no frame, after its own window's URL; otherwise the twelve URLs in order and the finished frame of the windows' records in window order; one driver plus one per restart before any crash |
| Enrichment.GetAircraftDetails | Arrivals.py:527-555 | the number is paired with the `title` of the `model` div when present, with "Unknown" when the request fails or the div or title is missing, and with nothing when the worker raises |
| Enrichment.WorkerResult | Arrivals.py:562-569 | a worker's pair, or the number with "Unknown" when the worker raised |
| Enrichment.FailuresGiveUnknown | Arrivals.py:539-569 | every failure of the lookup gives "Unknown" |
| Enrichment.ProcessFlightNumbersConcurrently | Arrivals.py:558-570 | one pair per submitted number in completion order; each number has its pair; distinct numbers give distinct keys |
| Enrichment.LastModel | Arrivals.py:585-586 | the model of the last pair for a number, or none when no pair has it |
| Enrichment.LastModelOfDistinct | Arrivals.py:585-586 | with distinct keys the model is that number's only pair's |
| Enrichment.MergeOrderIndependent | Arrivals.py:562-586 | the merged model does not depend on the completion order |
| Enrichment.MergeAircraftInfo | Arrivals.py:585-586 | each row gets the model of the last pair for its primary number, or stays missing |
| Pipeline.ModelColumn | Arrivals.py:579-586 | the column the lookup should give: every row has its primary number's model |
| Pipeline.Co2Column | Arrivals.py:589 | a frame without rows ends the run, with the missing-models file untouched |
| Pipeline.LookupModels | Arrivals.py:579-586 | looking up the unique primary numbers, with the lookups finishing in any order, and merging the results gives every row its own primary number's model |
| Pipeline.Co2ApplyValues | Arrivals.py:589 | estimating the rows, when none raises, gives one entry per row, each that row's own estimate |
| Pipeline.Co2ApplyRaises | Arrivals.py:589 | estimating the rows stops exactly when some row raises |
| Pipeline.Co2ApplyLog | Arrivals.py:589 | while the rows are estimated the file only grows, by models of these rows that the table misses |
| Pipeline.Co2ColumnOutcomes | Arrivals.py:589 | each row's entry is its own estimate and none raised; the run ends exactly when the frame has no rows or some row raises |
| Pipeline.Co2ColumnLog | Arrivals.py:589 | the missing-models file only grows, by models of these rows that the table misses |
| Pipeline.ReportRows | Arrivals.py:586-589 | before the date filter the rows are distinct, each a scraped row with its own model and estimate, and every scraped row has one |
| Pipeline.ArrivalsReportSpec | Arrivals.py:576-592 | rows are saved exactly when the frame has rows, no row raises and the run date parses; the saved rows are distinct, each a scraped row of the run date with its own model and estimate, and every scraped row of the run date is saved |
| Pipeline.ArrivalWithoutCodeAborts | Arrivals.py:337 | an arrival whose Origin has no `(` ends the run |
| Pipeline.RunArrivals | Arrivals.py:573-601 | a crash while scraping saves nothing and leaves the file untouched; otherwise the script's output and missing-models file are the report over the scraped frame, whatever order the lookups finish in |
| Pipeline.EmptyDaySavesNothing | Arrivals.py:440-589 | a day on which no window shows a listing body saves nothing |
| Dashboard.PiecesNoLimit | Panel.py:124-130 | without a limit every existing frame is loaded whole, in date order |
| Dashboard.PiecesWithLimit | Panel.py:116-132 | with a limit the loaded rows are the prefix of the existing frames' rows, up to the limit |
| Dashboard.PiecesEmpty | Panel.py:121-131 | nothing is collected exactly when no date has a file |
| Dashboard.LoadedPieces | Panel.py:116-132 | the collected frames are empty exactly when no file exists, and concatenated give all rows, or their prefix up to the limit |
| Dashboard.LoadPickleFilesDask | Panel.py:112-137 | `None` exactly when no file exists; otherwise all rows in date order (no limit) or their prefix of at most the limit, indexed 0..n-1 |
| Dashboard.ConcatFrames | Panel.py:132 | `pd.concat` puts the frames one after another |
| Dashboard.NextRowCount | Panel.py:173 | the counter becomes `min(counter + 5000, 20000)` and never decreases or passes 20000 |
| Dashboard.CountAfterPresses | Panel.py:149-176 | after n presses the counter is `min(10000 + 5000 n, 20000)`, reaching 20000 from the second press |
| Dashboard.ViewOf | Panel.py:190-241 | the panel says "not available" exactly when no file exists; otherwise it holds all rows and the row-limited display rows |
| Dashboard.DashboardState.constructor | Panel.py:149-156 | starts with 10000 rows, the button enabled, slider and input at 20, then loads the data |
| Dashboard.DashboardState.UpdateData | Panel.py:180-247 | the panel shown matches the range, counter and slider, and the button is disabled exactly when the counter is at least 20000 |
| Dashboard.DashboardState.IncreaseRows | Panel.py:171-176 | the counter moves to `min(counter + 5000, 20000)`, never down, and the state stays consistent |
| Dashboard.DashboardState.SyncSafSlider | Panel.py:161-162 | the input box takes the slider's value |
| Dashboard.DashboardState.SyncSafInput | Panel.py:164-165 | the slider takes the input box's value |
| Dashboard.DashboardState.SliderChanged | Panel.py:161-168 | after the slider moves, slider and input hold the new value |
| Dashboard.DashboardState.InputChanged | Panel.py:161-168 | after a value is typed, slider and input hold the new value |
| Dashboard.DashboardState.DateRangeChanged | Panel.py:250-253 | a new date range reloads the panel over its files |

## Left out

- Floating point: `haversine`, the `np.mean` family averages, `round(distance * co2_per_km)` and `calculate_saf_reduction`. An estimate is the pair of coordinates with the selected factor source, and the averages are opaque. `haversine` subtracts a longitude from a latitude (Arrivals.py:59), so no distance property is claimed.
- Emissions.CalculateCo2Emission: the returned number is not modelled, only its inputs (the two coordinates and the factor source). A `None` model stands for the NaN of a row no pair matched. The model raises there, because `"Boeing" in nan` is a `TypeError`.
- Dashboard totals, the median and the `value_counts` summaries are floating-point or pandas reductions. The panel keeps only the rows it summarises.
- Selenium: driver creation and its three retries, the 150 s page thread, `WebDriverWait`, window-handle closing, `driver.quit` and the `atexit` cleanup. Each window's effect is its `WindowOutcome`, and a driver start is counted, not performed.
- Scraper.ScrapeFlights: a restart that fails three times is part of its window's `Crashed` outcome. The first driver, started before the loop (Arrivals.py:430), is assumed to start; its failure would end the script with no page requested.
- HTTP and HTML: `requests`, `Retry`/backoff, the rate-limit sleep and BeautifulSoup. A listing row is a record of optional texts. `find_next` from the flight link is an abstract optional text. The details page is a `DetailsPage`, and a web page is a `ListingTable` with or without a body.
- Enrichment.ProcessFlightNumbersConcurrently: threads are not modelled. The completion order is a parameter of `Pipeline.LookupModels` and `Pipeline.RunArrivals`, and any order gives the same column (`Enrichment.MergeOrderIndependent`).
- File I/O and argv: pickle and CSV writes, `pickle.load`, `os.path.exists`, the GitHub download, `sys.argv` and the date directory. The missing-models file is a sequence of writes, one `f.write(f"{model}\n")` per entry, threaded through the run. A date range is its list of per-date frames, already loaded (`pd.date_range` is not modelled).
- Pipeline.FilterByDate: the temporary `'Extracted Date'` column that `filter_by_date` adds to its input frame is not modelled.
- Emissions.LogMissingModel: the file is taken to be empty or to end with a line break when the script starts, so each write begins a new line; a last line without one would be joined with the first model written. Each entry of the log is one `write`.
- RunDates.ParseIso: `strptime` also accepts fields that are not zero-padded (`2024-6-1`), a day padded with a space, and, since its `\d` is a Unicode pattern, any Unicode decimal digit in place of an ASCII one (full-width `２０２４-06-21` is 21 June 2024). All of these parse to `None` here, so the model ends such a run where the script goes on to save that day's rows.
- Strings.Lower: lower-cases ASCII letters only, not Unicode. (`IsSpace` is the whole set of characters `str.isspace` accepts, which `split()` and `strip()` use.)
- Emissions.SelectFactor: the `\d` of `re.match(r'B\d+', model)` matches any Unicode decimal digit. `StartsWithBoeingCode` accepts only `0`-`9`, so a model such as `B` followed by an Arabic-Indic digit gets the other mean here instead of the Boeing mean.
- Dashboard.LoadPickleFilesDask: the row limit is a `nat`. The dashboard passes only the counter (10000 to 20000), so negative limits are not modelled. The dask conversion and `sort_index` (a no-op after `reset_index`) are left out.
- Panel layout, CSS, HTML panes, the file-path input and the export buttons are left out. The widget bounds (0 to 100) are preconditions of the slider and input changes.
- `Collect_Data.py`, `StreamlitPush.py`, `Live Data Calculations.py`, `Kerosene Calculations PD.py`, `Tail Number Lookup.py` and `Merge Excel.py` are not part of this model: they orchestrate runs, serve the app or are separate spreadsheets of their own. The departures branch of `calculate_co2_emission` is modelled through `Direction`.
