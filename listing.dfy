/** How one listing table of the flight-listing site becomes flight records:
    which `<td>` cells are read, the "Unknown" defaults, the row that makes the
    whole page fail, and the status filter applied to the finished frame. */
module Listing {
  import opened Wrappers
  import opened Strings
  import Frames

  /** One `<tr>` of the listing table, reduced to what is read from it: the number of
      `<td>` cells and the text of each element looked up (`None` when the lookup
      finds nothing). `secondaryFlight` is what the search onward from the flight
      link finds; it is evaluated only when the link exists. */
  datatype HtmlRow = HtmlRow(
    cellCount: nat,
    dateStatus: Option<string>,
    status: Option<string>,
    flightLink: Option<string>,
    secondaryFlight: Option<string>,
    location: Option<string>,
    airline: Option<string>)

  /** One scraped flight, with the six columns in the order the frame gets them. The
      `location` column is called Origin for arrivals and Destination for departures. */
  datatype FlightRecord = FlightRecord(
    dateStatus: string,
    primaryFlightNumber: string,
    flightNumber: string,
    airline: string,
    location: string,
    status: string)

  const UnknownText: string := "Unknown"

  /** The text of an element, stripped, or "Unknown" when the element is missing. */
  function FieldText(e: Option<string>): (r: string)
    ensures e.None? ==> r == UnknownText
    ensures e.Some? ==> r == Strip(e.value)
  {
    match e
    case None => UnknownText
    case Some(t) => Strip(t)
  }

  /** A stripped text never has whitespace at either end. */
  lemma FieldTextTrimmed(e: Option<string>)
    ensures FieldText(e) != [] ==> !IsSpace(FieldText(e)[0]) && !IsSpace(FieldText(e)[|FieldText(e)| - 1])
  {
  }

  /** What reading one row gives: nothing (too few cells), a record, or the
      `AttributeError` raised when a full row has no flight link, which ends the page. */
  datatype RowParse = Skipped | Parsed(record: FlightRecord) | RowFailed

  function ParseRow(row: HtmlRow): (r: RowParse)
    ensures r.Skipped? <==> row.cellCount < 4
    ensures r.RowFailed? <==> row.cellCount >= 4 && row.flightLink.None?
  {
    if row.cellCount < 4 then Skipped
    else match row.flightLink
      // the search for the secondary number is a method call on the missing link
      case None => RowFailed
      case Some(link) =>
        var primary := FieldText(row.flightLink);
        var flightNumber := if row.secondaryFlight.Some? then FieldText(row.secondaryFlight) else primary;
        Parsed(FlightRecord(FieldText(row.dateStatus), primary, flightNumber,
                            FieldText(row.airline), FieldText(row.location), FieldText(row.status)))
  }

  /** The six columns of a full row with a flight link: each element's stripped text or
      "Unknown", except that the flight number falls back to the primary number. */
  lemma ParseRowFields(row: HtmlRow)
    requires row.cellCount >= 4 && row.flightLink.Some?
    ensures ParseRow(row).Parsed?
    ensures var rec := ParseRow(row).record;
      && rec.dateStatus == FieldText(row.dateStatus)
      && rec.primaryFlightNumber == Strip(row.flightLink.value)
      // the flight number falls back to the primary number, never to "Unknown"
      && rec.flightNumber == (if row.secondaryFlight.Some? then Strip(row.secondaryFlight.value)
                              else rec.primaryFlightNumber)
      && rec.airline == FieldText(row.airline)
      && rec.location == FieldText(row.location)
      && rec.status == FieldText(row.status)
  {
  }

  /** A full row whose status badge is missing gets the status "Unknown". */
  lemma MissingStatusIsUnknown(row: HtmlRow)
    requires row.cellCount >= 4 && row.flightLink.Some? && row.status.None?
    ensures ParseRow(row).Parsed? && ParseRow(row).record.status == UnknownText
  {
  }

  /** The result of reading the rows of one table, in order: the records
      appended, and whether a row failed (after which nothing more is read). */
  datatype RowsParse = RowsParse(records: seq<FlightRecord>, failed: bool)

  /** What each row on its own gives. */
  function Parses(rows: seq<HtmlRow>): (ps: seq<RowParse>)
    ensures |ps| == |rows| && forall j :: 0 <= j < |rows| ==> ps[j] == ParseRow(rows[j])
  {
    seq(|rows|, j requires 0 <= j < |rows| => ParseRow(rows[j]))
  }

  /** Reading the rows one after another, stated on the rows read so far: a record
      is appended per parsed row until a row fails. */
  function Collect(ps: seq<RowParse>): (r: RowsParse)
    ensures |r.records| <= |ps|
  {
    if ps == [] then RowsParse([], false)
    else Step(Collect(ps[..|ps| - 1]), ps[|ps| - 1])
  }

  /** Reading one more row: nothing once a row has failed; otherwise the row is
      skipped, fails, or appends its record. */
  function Step(prev: RowsParse, p: RowParse): (r: RowsParse)
    ensures |r.records| <= |prev.records| + 1
  {
    if prev.failed then prev
    else match p
      case Skipped => prev
      case RowFailed => RowsParse(prev.records, true)
      case Parsed(rec) => RowsParse(prev.records + [rec], false)
  }

  /** One more row read. */
  lemma CollectPrefixStep(ps: seq<RowParse>, j: nat)
    requires j < |ps|
    ensures Collect(ps[..j + 1]) == Step(Collect(ps[..j]), ps[j])
  {
    assert ps[..j + 1][..j] == ps[..j];
  }

  /** What one listing table gives. */
  function ParseRows(rows: seq<HtmlRow>): RowsParse
  {
    Collect(Parses(rows))
  }

  /** The records of the rows that parse, in order, no failure considered. */
  function ParsedOf(ps: seq<RowParse>): seq<FlightRecord>
  {
    if ps == [] then []
    else (if ps[0].Parsed? then [ps[0].record] else []) + ParsedOf(ps[1..])
  }

  /** Index of the first failing row, or the number of rows. */
  function FirstFailure(ps: seq<RowParse>): (k: nat)
    ensures k <= |ps|
    ensures k < |ps| ==> ps[k].RowFailed?
    ensures forall j :: 0 <= j < k ==> !ps[j].RowFailed?
  {
    if ps == [] then 0
    else if ps[0].RowFailed? then 0
    else 1 + FirstFailure(ps[1..])
  }

  lemma ParsedOfSnoc(ps: seq<RowParse>, p: RowParse)
    ensures ParsedOf(ps + [p]) == ParsedOf(ps) + (if p.Parsed? then [p.record] else [])
  {
    if ps != [] {
      assert (ps + [p])[1..] == ps[1..] + [p];
      ParsedOfSnoc(ps[1..], p);
    } else {
      assert [p][1..] == [];
    }
  }

  lemma FirstFailureSnoc(ps: seq<RowParse>, p: RowParse)
    ensures FirstFailure(ps + [p]) ==
      if FirstFailure(ps) < |ps| || p.RowFailed? then FirstFailure(ps) else |ps| + 1
  {
    if ps != [] {
      assert (ps + [p])[1..] == ps[1..] + [p];
      FirstFailureSnoc(ps[1..], p);
    }
  }

  /** The rows yield exactly the records of the rows before the first failing row,
      and reading fails exactly when some row fails. */
  lemma {:induction false} CollectUpToFailure(ps: seq<RowParse>)
    ensures Collect(ps) == RowsParse(ParsedOf(ps[..FirstFailure(ps)]), FirstFailure(ps) < |ps|)
    decreases |ps|
  {
    if ps != [] {
      var init := ps[..|ps| - 1];
      var last := ps[|ps| - 1];
      assert ps == init + [last];
      CollectUpToFailure(init);
      var k' := FirstFailure(init);
      FirstFailureSnoc(init, last);
      if k' < |init| {
        assert ps[..k'] == init[..k'];
      } else {
        assert init[..k'] == init;
        ParsedOfSnoc(init, last);
        if last.RowFailed? {
          assert ps[..k'] == init;
        } else {
          assert ps[..k' + 1] == ps;
        }
      }
    }
  }

  /** The same, for a listing table: before the first full row without a flight link,
      every full row becomes one record, in order; no row after it is read. */
  lemma ParseRowsUpToFailure(rows: seq<HtmlRow>)
    ensures var k := FirstFailure(Parses(rows));
      && ParseRows(rows).records == ParsedOf(Parses(rows[..k]))
      && (ParseRows(rows).failed <==> exists j :: 0 <= j < |rows| && rows[j].cellCount >= 4 && rows[j].flightLink.None?)
  {
    var ps := Parses(rows);
    CollectUpToFailure(ps);
    var k := FirstFailure(ps);
    assert Parses(rows[..k]) == ps[..k];
    if k < |rows| {
      assert ps[k].RowFailed?;
    }
  }

  /** Once a row has failed, later rows change nothing. */
  lemma {:induction false} CollectSticky(ps: seq<RowParse>, k: nat)
    requires k <= |ps| && Collect(ps[..k]).failed
    ensures Collect(ps) == Collect(ps[..k])
    decreases |ps| - k
  {
    if k < |ps| {
      assert ps[..k + 1][..k] == ps[..k];
      CollectSticky(ps, k + 1);
    } else {
      assert ps[..k] == ps;
    }
  }

  /** The lower-cased statuses that are filtered out of the frame. */
  predicate DroppedStatus(status: string)
  {
    Lower(status) == "unknown" || Lower(status) == "cancelled"
  }

  predicate Kept(rec: FlightRecord)
  {
    !DroppedStatus(rec.status)
  }

  /** The frame scraped from all records: the rows whose status is not unknown or
      cancelled, then duplicate rows removed (first occurrence kept). */
  function FinishFrame(all: seq<FlightRecord>): (df: seq<FlightRecord>)
    ensures Frames.Distinct(df)
    ensures forall rec :: rec in df <==> rec in all && Kept(rec)
    ensures |df| <= |all|
  {
    Frames.DropDuplicates(Frames.Filter(all, Kept))
  }

  /** Neither the default status nor any casing of "Cancelled" survives the filter. */
  lemma StatusFilterDrops(rec: FlightRecord)
    requires rec.status == UnknownText || rec.status == "CANCELLED" || rec.status == "Cancelled"
    ensures !Kept(rec)
  {
    assert Lower(UnknownText) == "unknown";
    assert Lower("CANCELLED") == "cancelled";
    assert Lower("Cancelled") == "cancelled";
  }

  /** The finished frame lists rows in the order they were first scraped. */
  lemma FinishFrameOrder(all: seq<FlightRecord>)
    ensures var df := FinishFrame(all);
      forall i, j :: 0 <= i < j < |df| ==> Frames.FirstIndex(all, df[i]) < Frames.FirstIndex(all, df[j])
  {
    var kept := Frames.Filter(all, Kept);
    var df := FinishFrame(all);
    Frames.DropDuplicatesOrder(kept);
    forall i, j | 0 <= i < j < |df|
      ensures Frames.FirstIndex(all, df[i]) < Frames.FirstIndex(all, df[j])
    {
      Frames.FilterOrder(all, Kept, df[i], df[j]);
    }
  }
}
