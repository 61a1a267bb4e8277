/** The scraping loop over the day's two-hour windows: the URL of each window,
    what each way a window can go wrong does (driver restarted, nothing kept, or
    the rows read before the failure kept), and the frame built at the end. */
module Scraper {
  import opened Wrappers
  import opened Listing
  import Emissions
  import Frames

  /** The twelve two-hour windows of the day, in the order they are visited. */
  const TimeIntervals: seq<string> :=
    ["00_00", "02_00", "04_00", "06_00", "08_00", "10_00",
     "12_00", "14_00", "16_00", "18_00", "20_00", "22_00"]

  function FlightType(dir: Emissions.Direction): string
  {
    if dir == Emissions.Arrival then "arrival" else "departure"
  }

  function BaseUrl(date: string, dir: Emissions.Direction): string
  {
    "https://www.flightera.net/en/airport/Anchorage/PANC/" + FlightType(dir) + "/" + date
  }

  /** Different days or directions give different pages. */
  lemma BaseUrlInjective(date1: string, dir1: Emissions.Direction, date2: string, dir2: Emissions.Direction)
    requires BaseUrl(date1, dir1) == BaseUrl(date2, dir2)
    ensures date1 == date2 && dir1 == dir2
  {
    var prefix := "https://www.flightera.net/en/airport/Anchorage/PANC/";
    var u1 := BaseUrl(date1, dir1);
    var u2 := BaseUrl(date2, dir2);
    assert u1[|prefix|] == FlightType(dir1)[0] && u2[|prefix|] == FlightType(dir2)[0];
    var n := |prefix| + |FlightType(dir1)| + 1;
    assert u1[n..] == date1 && u2[n..] == date2;
  }

  /** The page of one window: the base URL, an encoded space, the window, and a bare query mark. */
  function WindowUrl(base: string, interval: string): (url: string)
    ensures |url| == |base| + 3 + |interval| + 1
    ensures url[..|base|] == base && url[|base|..|base| + 3] == "%20"
    ensures url[|base| + 3..] == interval + "?"
  {
    base + "%20" + interval + "?"
  }

  /** The pages of the first `n` windows, in order. */
  function UrlsUpTo(base: string, n: nat): seq<string>
    requires n <= |TimeIntervals|
  {
    if n == 0 then [] else UrlsUpTo(base, n - 1) + [WindowUrl(base, TimeIntervals[n - 1])]
  }

  lemma {:induction false} UrlsUpToIndex(base: string, n: nat)
    requires n <= |TimeIntervals|
    ensures |UrlsUpTo(base, n)| == n
    ensures forall i :: 0 <= i < n ==> UrlsUpTo(base, n)[i] == WindowUrl(base, TimeIntervals[i])
  {
    if n > 0 {
      UrlsUpToIndex(base, n - 1);
    }
  }

  /** The pages of the twelve windows, in order. */
  function WindowUrls(base: string): (urls: seq<string>)
    ensures |urls| == |TimeIntervals|
    ensures forall i :: 0 <= i < |urls| ==> urls[i] == WindowUrl(base, TimeIntervals[i])
  {
    UrlsUpToIndex(base, |TimeIntervals|);
    UrlsUpTo(base, |TimeIntervals|)
  }

  /** The listing table when the page has one: its `<tbody>` rows, or `None` when it has no `<tbody>`. */
  datatype ListingTable = ListingTable(body: Option<seq<HtmlRow>>)

  /** How loading one window's page goes: the load outlives its 150 s join, the
      results container does not appear within 30 s, the session id is rejected while
      reading the page, the page is read (with or without a listing table), or the
      browser raises where no handler catches it (the wait fails other than by timing
      out, the tab check after the window fails, or no new driver can be started). */
  datatype WindowOutcome =
    | LoadTimeout
    | WaitTimeout
    | SessionInvalid
    | Loaded(table: Option<ListingTable>)
    | Crashed

  /** What one window adds to the flights, and whether the driver is restarted after it. */
  datatype WindowResult = WindowResult(records: seq<FlightRecord>, restart: bool)

  /** A crash adds nothing and restarts nothing: the run ends at it (see `ScrapeFlights`). */
  function ProcessWindow(o: WindowOutcome): (w: WindowResult)
    // every handled failure restarts the driver; a page without a listing table does not
    ensures o.LoadTimeout? || o.WaitTimeout? || o.SessionInvalid? ==> w == WindowResult([], true)
    ensures o.Crashed? ==> w == WindowResult([], false)
    ensures o == Loaded(None) ==> w == WindowResult([], false)
    // the missing tbody is an AttributeError caught by the generic handler
    ensures o == Loaded(Some(ListingTable(None))) ==> w == WindowResult([], true)
  {
    match o
    case LoadTimeout => WindowResult([], true)
    case WaitTimeout => WindowResult([], true)
    case SessionInvalid => WindowResult([], true)
    case Crashed => WindowResult([], false)
    case Loaded(None) => WindowResult([], false)
    case Loaded(Some(ListingTable(None))) => WindowResult([], true)
    case Loaded(Some(ListingTable(Some(rows)))) =>
      var p := ParseRows(rows);
      WindowResult(p.records, p.failed)
  }

  /** A window whose table has rows keeps the records of the rows before the first
      failing one, and restarts the driver exactly when a row fails. */
  lemma WindowKeepsRowsBeforeFailure(rows: seq<HtmlRow>)
    ensures var w := ProcessWindow(Loaded(Some(ListingTable(Some(rows)))));
      var k := FirstFailure(Parses(rows));
      w.records == ParsedOf(Parses(rows[..k])) && (w.restart <==> k < |rows|)
  {
    ParseRowsUpToFailure(rows);
    CollectUpToFailure(Parses(rows));
  }

  /** The first window that crashes, or the number of windows when none does. */
  function FirstCrash(os: seq<WindowOutcome>): (k: nat)
    ensures k <= |os| && (forall j :: 0 <= j < k ==> !os[j].Crashed?) && (k < |os| ==> os[k].Crashed?)
  {
    if os == [] then 0
    else if os[0].Crashed? then 0
    else
      var k := FirstCrash(os[1..]);
      assert forall j :: 1 <= j < k + 1 ==> os[j] == os[1..][j - 1];
      k + 1
  }

  /** Before the first crash, a window crashes exactly when it is the first crash. */
  lemma CrashStep(os: seq<WindowOutcome>, i: nat)
    requires i < |os| && i <= FirstCrash(os)
    ensures os[i].Crashed? <==> i == FirstCrash(os)
  {
  }

  /** What each window on its own gives. */
  function WindowResults(os: seq<WindowOutcome>): (ws: seq<WindowResult>)
    ensures |ws| == |os| && forall i :: 0 <= i < |os| ==> ws[i] == ProcessWindow(os[i])
  {
    seq(|os|, i requires 0 <= i < |os| => ProcessWindow(os[i]))
  }

  /** The records of the windows visited so far, window by window. */
  function Gather(ws: seq<WindowResult>): seq<FlightRecord>
  {
    if ws == [] then [] else Gather(ws[..|ws| - 1]) + ws[|ws| - 1].records
  }

  /** How often the driver was restarted over the windows visited so far. */
  function RestartCount(ws: seq<WindowResult>): (n: nat)
    ensures n <= |ws|
  {
    if ws == [] then 0 else RestartCount(ws[..|ws| - 1]) + (if ws[|ws| - 1].restart then 1 else 0)
  }

  function CollectWindows(os: seq<WindowOutcome>): seq<FlightRecord>
  {
    Gather(WindowResults(os))
  }

  function Restarts(os: seq<WindowOutcome>): (n: nat)
    ensures n <= |os|
  {
    RestartCount(WindowResults(os))
  }

  lemma {:induction false} GatherConcat(a: seq<WindowResult>, b: seq<WindowResult>)
    ensures Gather(a + b) == Gather(a) + Gather(b)
    decreases |b|
  {
    if b == [] {
      assert a + b == a;
    } else {
      var b' := b[..|b| - 1];
      assert (a + b)[..|a + b| - 1] == a + b';
      assert (a + b)[|a + b| - 1] == b[|b| - 1];
      GatherConcat(a, b');
    }
  }

  /** The records come window by window, in the order the windows are visited. */
  lemma CollectWindowsConcat(a: seq<WindowOutcome>, b: seq<WindowOutcome>)
    ensures CollectWindows(a + b) == CollectWindows(a) + CollectWindows(b)
  {
    assert WindowResults(a + b) == WindowResults(a) + WindowResults(b);
    GatherConcat(WindowResults(a), WindowResults(b));
  }

  /** Every gathered record comes from one window. */
  lemma {:induction false} GatherFrom(ws: seq<WindowResult>, rec: FlightRecord)
    requires rec in Gather(ws)
    ensures exists i :: 0 <= i < |ws| && rec in ws[i].records
    decreases |ws|
  {
    var init := ws[..|ws| - 1];
    if rec in Gather(init) {
      GatherFrom(init, rec);
      var i :| 0 <= i < |init| && rec in init[i].records;
      assert ws[i] == init[i];
    } else {
      assert rec in ws[|ws| - 1].records;
    }
  }

  /** Every record collected from a sequence of row outcomes is one of them. */
  lemma {:induction false} CollectFromRows(ps: seq<RowParse>, rec: FlightRecord)
    requires rec in Collect(ps).records
    ensures exists j :: 0 <= j < |ps| && ps[j] == Parsed(rec)
    decreases |ps|
  {
    var init := ps[..|ps| - 1];
    var prev := Collect(init);
    if rec in prev.records {
      CollectFromRows(init, rec);
      var j :| 0 <= j < |init| && init[j] == Parsed(rec);
      assert ps[j] == init[j];
    } else {
      assert ps[|ps| - 1] == Parsed(rec);
    }
  }

  /** Every scraped record is the reading of a full row, with a flight link, of the
      listing table of some window. */
  lemma RecordsComeFromRows(os: seq<WindowOutcome>, rec: FlightRecord)
    requires rec in CollectWindows(os)
    ensures exists i, j :: (0 <= i < |os| && os[i].Loaded? && os[i].table.Some?
      && os[i].table.value.body.Some? && 0 <= j < |os[i].table.value.body.value|
      && ParseRow(os[i].table.value.body.value[j]) == Parsed(rec))
  {
    GatherFrom(WindowResults(os), rec);
    var i :| 0 <= i < |os| && rec in ProcessWindow(os[i]).records;
    var rows := os[i].table.value.body.value;
    CollectFromRows(Parses(rows), rec);
    var j :| 0 <= j < |rows| && Parses(rows)[j] == Parsed(rec);
  }

  /** A day on which no window shows a listing table with a body gives no records. */
  lemma NoTablesNoRecords(os: seq<WindowOutcome>)
    requires forall i :: 0 <= i < |os| ==> !(os[i].Loaded? && os[i].table.Some? && os[i].table.value.body.Some?)
    ensures CollectWindows(os) == []
  {
    if CollectWindows(os) != [] {
      RecordsComeFromRows(os, CollectWindows(os)[0]);
    }
  }

  /** One more window visited. */
  lemma WindowStep(os: seq<WindowOutcome>, i: nat)
    requires i < |os|
    ensures CollectWindows(os[..i + 1]) == CollectWindows(os[..i]) + ProcessWindow(os[i]).records
    ensures Restarts(os[..i + 1]) == Restarts(os[..i]) + (if ProcessWindow(os[i]).restart then 1 else 0)
  {
    var ws := WindowResults(os[..i + 1]);
    assert ws[..i] == WindowResults(os[..i]);
  }

  /** The row loop of one listing table: rows are read in order, a record appended per
      full row, until a full row without a flight link raises. */
  method ReadRows(rows: seq<HtmlRow>) returns (records: seq<FlightRecord>, failed: bool)
    ensures RowsParse(records, failed) == ParseRows(rows)
  {
    records := [];
    failed := false;
    var ps := Parses(rows);
    var j := 0;
    while j < |rows| && !failed
      invariant 0 <= j <= |rows|
      invariant RowsParse(records, failed) == Collect(ps[..j])
    {
      CollectPrefixStep(ps, j);
      match ParseRow(rows[j]) {
        case Skipped =>
        case RowFailed =>
          failed := true;
        case Parsed(rec) =>
          records := records + [rec];
      }
      j := j + 1;
    }
    if failed {
      CollectSticky(ps, j);
    } else {
      assert ps[..j] == ps;
    }
  }

  /** One window: what its page adds to the flights and whether the driver is restarted. */
  method ScrapeWindow(outcome: WindowOutcome) returns (added: seq<FlightRecord>, restart: bool)
    ensures WindowResult(added, restart) == ProcessWindow(outcome)
  {
    added := [];
    restart := false;
    match outcome {
      case LoadTimeout =>
        restart := true;
      case WaitTimeout =>
        restart := true;
      case SessionInvalid =>
        restart := true;
      case Crashed =>
      case Loaded(table) =>
        if table.Some? {
          match table.value.body {
            case None =>
              restart := true;
            case Some(rows) =>
              added, restart := ReadRows(rows);
          }
        }
    }
  }

  /** One pass of the scraping loop: the window's records are appended and, when the
      window fails, a new driver is started. */
  method VisitWindow(outcomes: seq<WindowOutcome>, i: nat, allFlights: seq<FlightRecord>, drivers: nat)
    returns (allFlights': seq<FlightRecord>, drivers': nat)
    requires i < |outcomes|
    requires allFlights == CollectWindows(outcomes[..i]) && drivers == 1 + Restarts(outcomes[..i])
    ensures allFlights' == CollectWindows(outcomes[..i + 1]) && drivers' == 1 + Restarts(outcomes[..i + 1])
  {
    var added, restart := ScrapeWindow(outcomes[i]);
    WindowStep(outcomes, i);
    allFlights' := allFlights + added;
    drivers' := drivers;
    if restart {
      drivers' := drivers + 1;
    }
  }

  /** The scraping loop. The browser is replaced by the outcome of each window's page,
      in window order; `urls` are the pages requested and `drivers` the number of
      drivers started (the first one and every restart). A crash ends the run with
      no frame, after its window's page was requested. */
  method ScrapeFlights(date: string, dir: Emissions.Direction, outcomes: seq<WindowOutcome>)
    returns (df: Option<seq<FlightRecord>>, urls: seq<string>, drivers: nat)
    requires |outcomes| == |TimeIntervals|
    ensures df.None? <==> FirstCrash(outcomes) < |outcomes|
    ensures df.Some? ==> urls == WindowUrls(BaseUrl(date, dir)) && df.value == FinishFrame(CollectWindows(outcomes))
    ensures df.None? ==> urls == UrlsUpTo(BaseUrl(date, dir), FirstCrash(outcomes) + 1)
    ensures drivers == 1 + Restarts(outcomes[..FirstCrash(outcomes)])
  {
    var base := BaseUrl(date, dir);
    var k := FirstCrash(outcomes);
    drivers := 1;
    var allFlights: seq<FlightRecord> := [];
    urls := [];
    var i := 0;
    var crashed := false;
    while i < |TimeIntervals| && !crashed
      invariant 0 <= i <= |TimeIntervals|
      invariant urls == UrlsUpTo(base, i)
      invariant crashed ==> i == k + 1 && drivers == 1 + Restarts(outcomes[..k])
      invariant !crashed ==> i <= k && allFlights == CollectWindows(outcomes[..i]) && drivers == 1 + Restarts(outcomes[..i])
    {
      urls := urls + [WindowUrl(base, TimeIntervals[i])];
      CrashStep(outcomes, i);
      if outcomes[i].Crashed? {
        crashed := true;
      } else {
        allFlights, drivers := VisitWindow(outcomes, i, allFlights, drivers);
      }
      i := i + 1;
    }
    if crashed {
      df := None;
    } else {
      assert outcomes[..i] == outcomes;
      df := Some(Frames.DropDuplicates(Frames.Filter(allFlights, Kept)));
    }
  }
}
