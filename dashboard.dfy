/** The dashboard's bookkeeping: loading the combined frames of a date range, with or
    without a row limit, and the state behind its widgets (the row counter, the
    "increase rows" button, the SAF slider and its input box, the summary panel). */
module Dashboard {
  import opened Wrappers

  /** One row of a per-date combined frame; its columns are not looked at here. */
  datatype FrameRow = FrameRow(cells: seq<string>)

  /** A row of the loaded frame with its index. */
  datatype IndexedRow = IndexedRow(index: nat, row: FrameRow)

  /** The per-date combined frames of a date range, in date order: `None` where a date has no file. */
  type DateFiles = seq<Option<seq<FrameRow>>>

  function Concat(pieces: seq<seq<FrameRow>>): seq<FrameRow>
  {
    if pieces == [] then [] else pieces[0] + Concat(pieces[1..])
  }

  /** Every row of every existing file, in date order. */
  function AllRows(files: DateFiles): seq<FrameRow>
  {
    if files == [] then []
    else (if files[0].Some? then files[0].value else []) + AllRows(files[1..])
  }

  /** The frames the loader collects from `files` on, having collected `total` rows
      already: each existing frame whole, until one would take the total past the limit;
      of that one only the rows up to the limit, and then it stops. */
  function Pieces(files: DateFiles, limit: Option<nat>, total: nat): seq<seq<FrameRow>>
    requires limit.Some? ==> total <= limit.value
  {
    if files == [] then []
    else match files[0]
      case None => Pieces(files[1..], limit, total)
      case Some(df) =>
        if limit.Some? && total + |df| > limit.value then [df[..limit.value - total]]
        else [df] + Pieces(files[1..], limit, total + |df|)
  }

  function Min(a: int, b: int): int
  {
    if a < b then a else b
  }

  /** Concatenation of a prefix of `b` after `a`. */
  lemma PrefixOfConcat(a: seq<FrameRow>, b: seq<FrameRow>, n: nat)
    requires n <= |b|
    ensures a + b[..n] == (a + b)[..|a| + n]
  {
  }

  /** Concatenation after one more frame in front. */
  lemma ConcatCons(df: seq<FrameRow>, ps: seq<seq<FrameRow>>)
    ensures Concat([df] + ps) == df + Concat(ps)
  {
    assert ([df] + ps)[1..] == ps;
  }

  /** With no limit, the loader keeps every row of every existing file. */
  lemma {:induction false} PiecesNoLimit(files: DateFiles, total: nat)
    ensures Concat(Pieces(files, None, total)) == AllRows(files)
    decreases |files|
  {
    if files != [] {
      PiecesNoLimit(files[1..], total + (if files[0].Some? then |files[0].value| else 0));
      if files[0].Some? {
        var df := files[0].value;
        ConcatCons(df, Pieces(files[1..], None, total + |df|));
      }
    }
  }

  /** With a limit, the loader keeps the rows of the existing files, in date order, up to the limit. */
  lemma {:induction false} PiecesWithLimit(files: DateFiles, limit: nat, total: nat)
    requires total <= limit
    ensures Concat(Pieces(files, Some(limit), total)) == AllRows(files)[..Min(limit - total, |AllRows(files)|)]
    decreases |files|
  {
    if files != [] {
      var rest := files[1..];
      match files[0]
      case None =>
        PiecesWithLimit(rest, limit, total);
        assert Pieces(files, Some(limit), total) == Pieces(rest, Some(limit), total);
        assert AllRows(files) == AllRows(rest);
      case Some(df) =>
        assert AllRows(files) == df + AllRows(rest);
        if total + |df| > limit {
          assert Pieces(files, Some(limit), total) == [df[..limit - total]];
          assert Concat([df[..limit - total]]) == df[..limit - total];
          assert Min(limit - total, |AllRows(files)|) == limit - total;
          assert (df + AllRows(rest))[..limit - total] == df[..limit - total];
        } else {
          var ps := Pieces(rest, Some(limit), total + |df|);
          var n := Min(limit - total - |df|, |AllRows(rest)|);
          PiecesWithLimit(rest, limit, total + |df|);
          assert Pieces(files, Some(limit), total) == [df] + ps;
          ConcatCons(df, ps);
          PrefixOfConcat(df, AllRows(rest), n);
          assert Min(limit - total, |AllRows(files)|) == |df| + n;
        }
    }
  }

  /** Nothing is collected exactly when no file exists. */
  lemma {:induction false} PiecesEmpty(files: DateFiles, limit: Option<nat>, total: nat)
    requires limit.Some? ==> total <= limit.value
    ensures Pieces(files, limit, total) == [] <==> forall i :: 0 <= i < |files| ==> files[i].None?
    decreases |files|
  {
    if files != [] {
      var t := total + (if files[0].Some? then |files[0].value| else 0);
      if !(limit.Some? && files[0].Some? && t > limit.value) {
        PiecesEmpty(files[1..], limit, t);
      }
      if forall i :: 0 <= i < |files[1..]| ==> files[1..][i].None? {
        assert forall i :: 1 <= i < |files| ==> files[i] == files[1..][i - 1];
      }
    }
  }

  /** `reset_index(drop=True)`: the rows indexed 0 .. n-1. */
  function Indexed(rows: seq<FrameRow>): (r: seq<IndexedRow>)
    ensures |r| == |rows| && forall k :: 0 <= k < |r| ==> r[k] == IndexedRow(k, rows[k])
  {
    seq(|rows|, k requires 0 <= k < |rows| => IndexedRow(k, rows[k]))
  }

  /** The rows of an indexed frame. */
  function RowsOf(r: seq<IndexedRow>): (rows: seq<FrameRow>)
    ensures |rows| == |r| && forall k :: 0 <= k < |r| ==> rows[k] == r[k].row
  {
    seq(|r|, k requires 0 <= k < |r| => r[k].row)
  }

  /** `load_pickle_files_dask`: the existing frames of the dates, in date order, cut at
      the row limit when there is one; `None` when no date has a file. */
  method LoadPickleFilesDask(files: DateFiles, rowLimit: Option<nat>) returns (r: Option<seq<IndexedRow>>)
    ensures r.None? <==> forall i :: 0 <= i < |files| ==> files[i].None?
    ensures r.Some? && rowLimit.None? ==> RowsOf(r.value) == AllRows(files)
    ensures r.Some? && rowLimit.Some? ==>
      RowsOf(r.value) == AllRows(files)[..Min(rowLimit.value, |AllRows(files)|)] && |r.value| <= rowLimit.value
    ensures r.Some? ==> forall k :: 0 <= k < |r.value| ==> r.value[k].index == k
  {
    var dfList: seq<seq<FrameRow>> := [];
    var totalRows: nat := 0;
    var i := 0;
    var stopped := false;
    while i < |files| && !stopped
      invariant 0 <= i <= |files|
      invariant rowLimit.Some? ==> totalRows <= rowLimit.value
      invariant !stopped ==> dfList + Pieces(files[i..], rowLimit, totalRows) == Pieces(files, rowLimit, 0)
      invariant stopped ==> dfList == Pieces(files, rowLimit, 0)
    {
      assert files[i..][1..] == files[i + 1..];
      match files[i] {
        case None =>
        case Some(df) =>
          if rowLimit.Some? && totalRows + |df| > rowLimit.value {
            var remainingRows := rowLimit.value - totalRows;
            dfList := dfList + [df[..remainingRows]];
            stopped := true;
          } else {
            assert dfList + ([df] + Pieces(files[i + 1..], rowLimit, totalRows + |df|))
                == (dfList + [df]) + Pieces(files[i + 1..], rowLimit, totalRows + |df|);
            dfList := dfList + [df];
            totalRows := totalRows + |df|;
          }
      }
      i := i + 1;
    }
    if !stopped {
      assert files[i..] == [];
    }
    LoadedPieces(files, rowLimit, dfList);
    if dfList == [] {
      r := None;
    } else {
      var combined := ConcatFrames(dfList);
      r := Some(Indexed(combined));
      assert RowsOf(Indexed(combined)) == combined;
    }
  }

  /** What the collected pieces, once concatenated, hold. */
  lemma LoadedPieces(files: DateFiles, rowLimit: Option<nat>, dfList: seq<seq<FrameRow>>)
    requires dfList == Pieces(files, rowLimit, 0)
    ensures dfList == [] <==> forall i :: 0 <= i < |files| ==> files[i].None?
    ensures rowLimit.None? ==> Concat(dfList) == AllRows(files)
    ensures rowLimit.Some? ==> Concat(dfList) == AllRows(files)[..Min(rowLimit.value, |AllRows(files)|)]
  {
    PiecesEmpty(files, rowLimit, 0);
    if rowLimit.None? {
      PiecesNoLimit(files, 0);
    } else {
      PiecesWithLimit(files, rowLimit.value, 0);
    }
  }

  method ConcatFrames(pieces: seq<seq<FrameRow>>) returns (rows: seq<FrameRow>)
    ensures rows == Concat(pieces)
  {
    rows := [];
    var k := |pieces|;
    while k > 0
      invariant 0 <= k <= |pieces|
      invariant rows == Concat(pieces[k..])
    {
      k := k - 1;
      assert pieces[k..][1..] == pieces[k + 1..];
      rows := pieces[k] + rows;
    }
  }

  // ----- Row counter --------------------------------------------------------------

  const InitialRows: int := 10000
  const RowStep: int := 5000
  const MaxRows: int := 20000

  /** The counter after a press of "increase rows": 5000 more, clamped at 20000. */
  function NextRowCount(c: int): (n: int)
    ensures n == Min(c + RowStep, MaxRows)
    ensures c <= MaxRows ==> c <= n <= MaxRows
  {
    if c + RowStep < MaxRows then c + RowStep else MaxRows
  }

  /** The counter after `presses` presses from the initial 10000. */
  function CountAfter(presses: nat): int
  {
    if presses == 0 then InitialRows else NextRowCount(CountAfter(presses - 1))
  }

  /** After n presses the counter is 10000 + 5000 n, up to 20000, reached on the second press. */
  lemma {:induction false} CountAfterPresses(presses: nat)
    ensures CountAfter(presses) == Min(InitialRows + RowStep * presses, MaxRows)
    ensures CountAfter(presses) == MaxRows <==> presses >= 2
  {
    if presses > 0 {
      CountAfterPresses(presses - 1);
    }
  }

  // ----- Dashboard state ----------------------------------------------------------

  /** What the summary panel shows: the "not available" notice, or the totals over all
      rows of the range (not modelled: floating point) over `allRows`, and the table of
      the first `shown` rows at the SAF percentage `saf`. */
  datatype PanelView =
    | NotAvailable
    | Showing(allRows: seq<IndexedRow>, shown: Option<seq<IndexedRow>>, saf: int)

  /** The panel `update_data` builds from the files of the range, the counter and the slider. */
  function ViewOf(files: DateFiles, rowLimit: nat, saf: int): (v: PanelView)
    ensures v.NotAvailable? <==> forall i :: 0 <= i < |files| ==> files[i].None?
    ensures v.Showing? ==> (v.allRows == Indexed(AllRows(files)) && v.saf == saf
      && v.shown == Some(Indexed(AllRows(files)[..Min(rowLimit, |AllRows(files)|)])))
  {
    PiecesEmpty(files, None, 0);
    PiecesEmpty(files, Some(rowLimit), 0);
    var all := Pieces(files, None, 0);
    if all == [] then NotAvailable
    else
      PiecesNoLimit(files, 0);
      PiecesWithLimit(files, rowLimit, 0);
      var shown := Pieces(files, Some(rowLimit), 0);
      Showing(Indexed(Concat(all)), Some(Indexed(Concat(shown))), saf)
  }

  class DashboardState {
    var currentRowsDisplay: int
    var buttonDisabled: bool
    var safSlider: int
    var safInput: int
    /** The per-date files of the range the date pickers select. */
    var rangeFiles: DateFiles
    var panel: PanelView

    /** The counter is one of 10000, 15000, 20000; the button is disabled exactly at
        20000; slider and input agree within 0 .. 100; the panel matches the state. */
    predicate Valid()
      reads this
    {
      && (currentRowsDisplay == 10000 || currentRowsDisplay == 15000 || currentRowsDisplay == 20000)
      && buttonDisabled == (currentRowsDisplay >= MaxRows)
      && 0 <= safSlider <= 100 && safInput == safSlider
      && panel == ViewOf(rangeFiles, currentRowsDisplay, safSlider)
    }

    /** The module's start: widgets at their initial values, then the initial `update_data()`. */
    constructor (files: DateFiles)
      ensures Valid()
      ensures currentRowsDisplay == InitialRows && !buttonDisabled
      ensures safSlider == 20 && safInput == 20 && rangeFiles == files
    {
      currentRowsDisplay := InitialRows;
      buttonDisabled := false;
      safSlider := 20;
      safInput := 20;
      rangeFiles := files;
      panel := NotAvailable;
      new;
      UpdateData();
    }

    /** `update_data`: both loads over the range, the panel, and the button flag. */
    method UpdateData()
      requires currentRowsDisplay >= 0
      modifies this
      ensures currentRowsDisplay == old(currentRowsDisplay) && safSlider == old(safSlider)
      ensures panel == ViewOf(rangeFiles, currentRowsDisplay, safSlider)
      ensures buttonDisabled == (currentRowsDisplay >= MaxRows)
      ensures safInput == old(safInput) && rangeFiles == old(rangeFiles)
    {
      var all := LoadPickleFilesDask(rangeFiles, None);
      if all.Some? {
        var shown := LoadPickleFilesDask(rangeFiles, Some(currentRowsDisplay));
        assert all.value == Indexed(RowsOf(all.value));
        assert shown.value == Indexed(RowsOf(shown.value));
        panel := Showing(all.value, shown, safSlider);
      } else {
        panel := NotAvailable;
      }
      if currentRowsDisplay >= MaxRows {
        buttonDisabled := true;
      } else {
        buttonDisabled := false;
      }
    }

    /** `increase_rows`: the counter moves up one step, clamped, and the data is reloaded. */
    method IncreaseRows()
      requires Valid()
      modifies this
      ensures Valid()
      ensures currentRowsDisplay == NextRowCount(old(currentRowsDisplay))
      ensures old(currentRowsDisplay) <= currentRowsDisplay <= MaxRows
      ensures safSlider == old(safSlider) && rangeFiles == old(rangeFiles)
    {
      currentRowsDisplay := Min(currentRowsDisplay + RowStep, MaxRows);
      if currentRowsDisplay >= MaxRows {
        buttonDisabled := true;
      }
      UpdateData();
    }

    /** `sync_saf_slider`: the input box takes the slider's new value. */
    method SyncSafSlider(newValue: int)
      modifies this
      ensures safInput == newValue
      ensures safSlider == old(safSlider) && currentRowsDisplay == old(currentRowsDisplay)
      ensures buttonDisabled == old(buttonDisabled) && panel == old(panel) && rangeFiles == old(rangeFiles)
    {
      safInput := newValue;
    }

    /** `sync_saf_input`: the slider takes the input box's new value. */
    method SyncSafInput(newValue: int)
      modifies this
      ensures safSlider == newValue
      ensures safInput == old(safInput) && currentRowsDisplay == old(currentRowsDisplay)
      ensures buttonDisabled == old(buttonDisabled) && panel == old(panel) && rangeFiles == old(rangeFiles)
    {
      safSlider := newValue;
    }

    /** The slider is moved to a new value: its watchers copy it into the input box
        (whose own watcher then sets the slider to the value it already has, which
        fires nothing) and reload the data. */
    method SliderChanged(newValue: int)
      requires Valid() && 0 <= newValue <= 100
      modifies this
      ensures Valid()
      ensures safSlider == newValue && safInput == newValue
      ensures currentRowsDisplay == old(currentRowsDisplay) && rangeFiles == old(rangeFiles)
    {
      if newValue != safSlider {
        safSlider := newValue;
        SyncSafSlider(newValue);
        UpdateData();
      }
    }

    /** A new value is typed into the input box: its watcher sets the slider, whose
        watchers copy the value back (no change) and reload the data. */
    method InputChanged(newValue: int)
      requires Valid() && 0 <= newValue <= 100
      modifies this
      ensures Valid()
      ensures safSlider == newValue && safInput == newValue
      ensures currentRowsDisplay == old(currentRowsDisplay) && rangeFiles == old(rangeFiles)
    {
      if newValue != safInput {
        safInput := newValue;
        SyncSafInput(newValue);
        UpdateData();
      }
    }

    /** A date picker changes the range: the data is reloaded over the new range's files. */
    method DateRangeChanged(files: DateFiles)
      requires Valid()
      modifies this
      ensures Valid()
      ensures rangeFiles == files
      ensures currentRowsDisplay == old(currentRowsDisplay) && safSlider == old(safSlider)
    {
      rangeFiles := files;
      UpdateData();
    }
  }
}
