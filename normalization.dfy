/**
 * The "engineer data" step: a copy of the loaded table without the Video
 * and Video title columns, whose numeric cells are replaced by their
 * relative difference from the 12-month baseline median of their column.
 */
module Normalization {
  import opened Wrappers
  import opened Dates
  import opened Durations
  import opened Statistics
  import opened Videos
  import opened Windows

  /**
   * A row of `df_agg_diff`: the two date-like columns, kept as they are,
   * and the numeric cells in column order. None is a non-finite cell.
   */
  datatype DiffRow = DiffRow(published: CalendarDate, duration: TimeOfDay, values: seq<Option<real>>)

  /** Dropping columns 0 and 1 (Video, Video title); every other column is kept. */
  function DropIdentity(v: VideoRow): (d: DiffRow)
    ensures d.published == v.published && d.duration == v.duration
    ensures |d.values| == NumericCount
    ensures forall c :: 0 <= c < NumericCount ==> d.values[c] == Some(NumericValues(v)[c])
  {
    var xs := NumericValues(v);
    DiffRow(v.published, v.duration, seq(|xs|, c requires 0 <= c < |xs| => Some(xs[c])))
  }

  /**
   * `(x - m) / m` for one cell: a cell that was already non-finite stays so,
   * otherwise it is the relative difference from the median.
   */
  function NormalizeCell(x: Option<real>, m: real): (n: Option<real>)
    ensures n.Some? <==> x.Some? && m != 0.0
    ensures x.Some? ==> IsRelativeDifference(n, x.value, m)
  {
    match x
    case None => None
    case Some(v) => RelativeDifference(v, m)
  }

  /** One row normalised against the column medians; the date columns are untouched. */
  function NormalizeRow(r: DiffRow, med: seq<real>): (n: DiffRow)
    requires |r.values| == |med|
    ensures n.published == r.published && n.duration == r.duration
    ensures |n.values| == |med|
  {
    r.(values := seq(|med|, c requires 0 <= c < |med| => NormalizeCell(r.values[c], med[c])))
  }

  /** The engineered table: every loaded row, in the same order, normalised against the baseline. */
  function Normalized(t: seq<VideoRow>): (diff: seq<DiffRow>)
    ensures |diff| == |t|
  {
    match Baseline(t)
    case None => []
    case Some(med) => seq(|t|, i requires 0 <= i < |t| => NormalizeRow(DropIdentity(t[i]), med))
  }

  /** Normalises every row of the array in place against the same medians. */
  method NormalizeInPlace(a: array<DiffRow>, med: seq<real>)
    requires forall i :: 0 <= i < a.Length ==> |a[i].values| == |med|
    modifies a
    ensures forall i :: 0 <= i < a.Length ==> a[i] == NormalizeRow(old(a[i]), med)
  {
    var i := 0;
    while i < a.Length
      invariant 0 <= i <= a.Length
      invariant forall k :: 0 <= k < i ==> a[k] == NormalizeRow(old(a[k]), med)
      invariant forall k :: i <= k < a.Length ==> a[k] == old(a[k])
    {
      a[i] := NormalizeRow(a[i], med);
      i := i + 1;
    }
  }

  /** Copies the loaded table without its identity columns and normalises the copy. */
  method EngineerData(t: seq<VideoRow>) returns (diff: seq<DiffRow>)
    ensures diff == Normalized(t)
  {
    var baseline := Baseline(t);
    if baseline.None? {
      return [];
    }
    var med := baseline.value;
    var a := new DiffRow[|t|](i requires 0 <= i < |t| => DropIdentity(t[i]));
    NormalizeInPlace(a, med);
    diff := a[..];
  }

  /** The engineered table keeps the loaded table's rows, their order and their date columns. */
  lemma NormalizedKeepsRows(t: seq<VideoRow>, i: nat)
    requires i < |t|
    ensures Normalized(t)[i].published == t[i].published
    ensures Normalized(t)[i].duration == t[i].duration
    ensures |Normalized(t)[i].values| == NumericCount
  {
  }

  /**
   * Undoing the normalisation gives back the loaded cell, the cell is zero
   * exactly at the baseline, and it is non-finite exactly when the baseline is zero.
   */
  lemma NormalizedRoundTrip(t: seq<VideoRow>, i: nat, c: nat)
    requires i < |t| && c < NumericCount
    ensures IsRelativeDifference(Normalized(t)[i].values[c], NumericValues(t[i])[c], Baseline(t).value[c])
  {
    var med := Baseline(t).value;
    var d := DropIdentity(t[i]);
    assert Normalized(t)[i] == NormalizeRow(d, med);
    NormalizeRowCell(d, med, c);
  }

  /** Cell c of a normalised row, with what the normalisation promises about it. */
  lemma NormalizeRowCell(r: DiffRow, med: seq<real>, c: nat)
    requires |r.values| == |med| && c < |med|
    ensures NormalizeRow(r, med).values[c] == NormalizeCell(r.values[c], med[c])
  {
  }

  /** The Views column of a table's numeric cells. */
  lemma ViewsColumnOf(t: seq<VideoRow>)
    ensures Column(NumericTable(t), NumericCount, ViewsColumn) == seq(|t|, i requires 0 <= i < |t| => t[i].stats.views as real)
  {
  }

  /** Three rows published 2023-12-01, 2023-06-01 and 2023-01-01 all fall in their 12-month window. */
  lemma ExampleWindow(a: VideoRow, b: VideoRow, c: VideoRow)
    requires a.published == Date(2023, 12, 1) && b.published == Date(2023, 6, 1) && c.published == Date(2023, 1, 1)
    ensures Window([a, b, c], 12) == [a, b, c]
  {
    var t := [a, b, c];
    ExampleLatest(a, b, c);
    MonthsBackClampsDay();
    assert Threshold(t, 12) == Some(Date(2022, 12, 1));
    OnOrAfterKeepsAll(t, Date(2022, 12, 1));
  }

  /** The latest of those three dates is 2023-12-01. */
  lemma ExampleLatest(a: VideoRow, b: VideoRow, c: VideoRow)
    requires a.published == Date(2023, 12, 1) && b.published == Date(2023, 6, 1) && c.published == Date(2023, 1, 1)
    ensures Latest([a, b, c]) == Date(2023, 12, 1)
  {
    var t := [a, b, c];
    assert NewestFirst(t);
    LatestOfNewestFirst(t);
  }

  /** The Views column of three rows with 300, 200 and 100 views. */
  lemma ExampleViews(a: VideoRow, b: VideoRow, c: VideoRow)
    requires a.stats.views == 300 && b.stats.views == 200 && c.stats.views == 100
    ensures Column(NumericTable([a, b, c]), NumericCount, ViewsColumn) == [300.0, 200.0, 100.0]
  {
    var col := Column(NumericTable([a, b, c]), NumericCount, ViewsColumn);
    ViewsColumnOf([a, b, c]);
    assert col[0] == 300.0 && col[1] == 200.0 && col[2] == 100.0;
  }

  /**
   * Views of 300, 200 and 100 published 2023-12-01, 2023-06-01 and
   * 2023-01-01 all fall in the 12-month window and their median is 200.
   */
  lemma WorkedExampleBaseline(a: VideoRow, b: VideoRow, c: VideoRow)
    requires a.published == Date(2023, 12, 1) && b.published == Date(2023, 6, 1) && c.published == Date(2023, 1, 1)
    requires a.stats.views == 300 && b.stats.views == 200 && c.stats.views == 100
    ensures Baseline([a, b, c]).value[ViewsColumn] == 200.0
  {
    ExampleWindow(a, b, c);
    ExampleViews(a, b, c);
    MedianOfThree(100.0, 200.0, 300.0);
  }

  /** In the same table the 100-view video is normalised to -0.5. */
  lemma WorkedExample(a: VideoRow, b: VideoRow, c: VideoRow)
    requires a.published == Date(2023, 12, 1) && b.published == Date(2023, 6, 1) && c.published == Date(2023, 1, 1)
    requires a.stats.views == 300 && b.stats.views == 200 && c.stats.views == 100
    ensures Normalized([a, b, c])[2].values[ViewsColumn] == Some(-0.5)
  {
    WorkedExampleBaseline(a, b, c);
    NormalizedRoundTrip([a, b, c], 2, ViewsColumn);
    assert NumericValues(c)[ViewsColumn] == 100.0;
  }
}
