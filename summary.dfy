/**
 * The "Aggregate Metrics" page: the 6- and 12-month medians of ten
 * tracked metrics, their relative change, and the placement of one metric
 * tile per metric across five page columns, left to right and wrapping.
 */
module Summary {
  import opened Wrappers
  import opened Dates
  import opened Statistics
  import opened Videos
  import opened Windows

  /** The number of tracked metrics. */
  const MetricCount: nat := 10

  /** The number of page columns the tiles are spread over. */
  const PageColumns: nat := 5

  /** The tracked metrics, in the order their tiles are placed. */
  const MetricNames: seq<string> :=
    ["Views", "Likes", "Subscribers", "Shares", "Comments added",
     "RPM(USD)", "Average % viewed", "Avg_duration_sec",
     "Engagement_ratio", "Views / sub gained"]

  /** A row's tracked metrics, in the order of `MetricNames`. */
  function MetricValues(v: VideoRow): (xs: seq<real>)
    ensures |xs| == MetricCount
    ensures xs[0] == NumericValues(v)[ViewsColumn]
  {
    var s := v.stats;
    [s.views as real, s.likes as real, s.subscribers as real, s.shares as real,
     s.comments as real, s.rpm, s.avgPctViewed,
     v.durationSec as real, v.engagement, v.viewsPerSubGained]
  }

  /** The tracked metrics of a table, row by row. */
  function MetricTable(t: seq<VideoRow>): (m: seq<seq<real>>)
    ensures |m| == |t| && Rectangular(m, MetricCount)
    ensures forall i :: 0 <= i < |t| ==> m[i] == MetricValues(t[i])
  {
    seq(|t|, i requires 0 <= i < |t| => MetricValues(t[i]))
  }

  /**
   * `metric_medians<n>mo`: the median of each tracked metric over the rows
   * of the last `months` months; NaN (None) throughout for an empty table.
   */
  function MetricMedians(t: seq<VideoRow>, months: nat): (med: seq<Option<real>>)
    ensures |med| == MetricCount
    ensures forall k :: 0 <= k < MetricCount ==> (med[k].Some? <==> |t| > 0)
  {
    if |t| == 0 then seq(MetricCount, k => None)
    else
      WindowHoldsLatest(t, months);
      var m := ColumnMedians(MetricTable(Window(t, months)), MetricCount);
      seq(MetricCount, k requires 0 <= k < MetricCount => Some(m[k]))
  }

  /** Each median lies between the least and greatest value of its metric inside the window. */
  lemma MetricMediansWithinWindow(t: seq<VideoRow>, months: nat, k: nat)
    requires |t| > 0 && k < MetricCount
    ensures |Window(t, months)| > 0
    ensures var col := Column(MetricTable(Window(t, months)), MetricCount, k);
            Least(col) <= MetricMedians(t, months)[k].value <= Greatest(col)
  {
    WindowHoldsLatest(t, months);
  }

  /** The 6-month window is the 12-month window filtered once more, so every 6-month row is a 12-month row. */
  lemma SixMonthsInsideTwelve(t: seq<VideoRow>)
    requires |t| > 0
    ensures Window(t, 6) == OnOrAfter(Window(t, 12), MonthsBack(Latest(t), 6))
    ensures forall v :: v in Window(t, 6) ==> v in Window(t, 12)
  {
    WindowNested(t, 6, 12);
  }

  /** The 12-month Views median on this page is the baseline the engineered table is normalised by. */
  lemma TwelveMonthViewsIsBaseline(t: seq<VideoRow>)
    requires |t| > 0
    ensures MetricMedians(t, 12)[0] == Some(Baseline(t).value[ViewsColumn])
  {
    var w := Window(t, 12);
    WindowHoldsLatest(t, 12);
    var a := Column(MetricTable(w), MetricCount, 0);
    var b := Column(NumericTable(w), NumericCount, ViewsColumn);
    assert a == b;
  }

  /** `delta`: the change of the 6-month median relative to the 12-month one; NaN (None) when either is NaN. */
  function Delta(m6: Option<real>, m12: Option<real>): (d: Option<real>)
    ensures m6.Some? && m12.Some? ==> IsRelativeDifference(d, m6.value, m12.value)
    ensures m6.None? || m12.None? ==> d.None?
  {
    if m6.Some? && m12.Some? then RelativeDifference(m6.value, m12.value) else None
  }

  /** One `st.metric` tile: the metric's name, its 6-month median and the delta. */
  datatype Tile = Tile(name: string, value: Option<real>, delta: Option<real>)

  /**
   * The tile for metric k: its name, its 6-month median, and a delta that is
   * the relative difference from the 12-month median, or NaN (None) when
   * either median is NaN.
   */
  function TileFor(names: seq<string>, m6: seq<Option<real>>, m12: seq<Option<real>>, k: nat): (t: Tile)
    requires |names| == |m6| == |m12| && k < |names|
    ensures t.name == names[k] && t.value == m6[k]
    ensures m6[k].Some? && m12[k].Some? ==> IsRelativeDifference(t.delta, m6[k].value, m12[k].value)
    ensures m6[k].None? || m12[k].None? ==> t.delta.None?
  {
    Tile(names[k], m6[k], Delta(m6[k], m12[k]))
  }

  /** The number of tiles page column c holds after n tiles have been placed round-robin. */
  function TilesIn(n: nat, c: nat): nat
    requires c < PageColumns
  {
    (n + PageColumns - 1 - c) / PageColumns
  }

  /** Placing tile n: it goes to column n % 5, in position n / 5, and only that column grows. */
  lemma NextTile(n: nat, c: nat)
    requires c < PageColumns
    ensures n / PageColumns == TilesIn(n, n % PageColumns)
    ensures TilesIn(n + 1, c) == TilesIn(n, c) + (if c == n % PageColumns then 1 else 0)
    ensures (n + 1) % PageColumns == if n % PageColumns == PageColumns - 1 then 0 else n % PageColumns + 1
  {
    var q, r := n / 5, n % 5;
    assert n == 5 * q + r && 0 <= r < 5;
    assert TilesIn(n, c) == q + (if c < r then 1 else 0) by {
      assert n + 4 - c == 5 * q + (r + 4 - c);
      assert 0 <= r + 4 - c < 10;
    }
    assert TilesIn(n + 1, c) == q + (if c <= r then 1 else 0) by {
      assert n + 5 - c == 5 * q + (r + 5 - c);
      assert 0 < r + 5 - c < 10;
    }
    assert n + 1 == 5 * q + (r + 1);
  }

  /**
   * The tile loop: walks the metrics in order, shows each in page column
   * `count`, and advances `count`, going back to 0 after the fifth column.
   * Metric k ends up in column k mod 5 at position k div 5.
   */
  method PlaceTiles(names: seq<string>, m6: seq<Option<real>>, m12: seq<Option<real>>)
    returns (columns: seq<seq<Tile>>, count: nat)
    requires |names| == |m6| == |m12|
    ensures |columns| == PageColumns
    ensures count == |names| % PageColumns
    ensures forall c :: 0 <= c < PageColumns ==> |columns[c]| == TilesIn(|names|, c)
    ensures forall k :: 0 <= k < |names| ==>
              k / PageColumns < |columns[k % PageColumns]| &&
              columns[k % PageColumns][k / PageColumns] == TileFor(names, m6, m12, k)
  {
    columns := [[], [], [], [], []];
    count := 0;
    var i := 0;
    while i < |names|
      invariant 0 <= i <= |names|
      invariant 0 <= count < PageColumns && count == i % PageColumns
      invariant |columns| == PageColumns
      invariant forall c :: 0 <= c < PageColumns ==> |columns[c]| == TilesIn(i, c)
      invariant forall k :: 0 <= k < i ==>
                  k / PageColumns < |columns[k % PageColumns]| &&
                  columns[k % PageColumns][k / PageColumns] == TileFor(names, m6, m12, k)
    {
      forall c | 0 <= c < PageColumns
        ensures TilesIn(i + 1, c) == TilesIn(i, c) + (if c == count then 1 else 0)
      {
        NextTile(i, c);
      }
      NextTile(i, 0);
      columns := columns[count := columns[count] + [TileFor(names, m6, m12, i)]];
      count := count + 1;
      if count >= PageColumns {
        count := 0;
      }
      i := i + 1;
    }
  }

  /**
   * The whole page: the ten tracked metrics, two tiles in every page
   * column, with `count` back at 0 when the loop ends.
   */
  method AggregateMetrics(t: seq<VideoRow>) returns (columns: seq<seq<Tile>>, count: nat)
    ensures count == 0
    ensures |columns| == PageColumns
    ensures forall c :: 0 <= c < PageColumns ==> |columns[c]| == 2
    ensures forall k :: 0 <= k < MetricCount ==>
              columns[k % PageColumns][k / PageColumns] ==
              Tile(MetricNames[k], MetricMedians(t, 6)[k], Delta(MetricMedians(t, 6)[k], MetricMedians(t, 12)[k]))
  {
    columns, count := PlaceTiles(MetricNames, MetricMedians(t, 6), MetricMedians(t, 12));
  }
}
