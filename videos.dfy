/**
 * `load_data`: the per-video table read from the aggregated-metrics export,
 * with its first data row dropped, three derived columns added and the rows
 * sorted newest first.
 */
module Videos {
  import opened Wrappers
  import opened Dates
  import opened Durations

  /** The plain numeric columns of the export, in their column order. */
  datatype Stats = Stats(
    comments: int, shares: int, dislikes: int, likes: int,
    subsLost: int, subsGained: int,
    rpm: real, cpm: real, avgPctViewed: real,
    views: int, watchHours: real, subscribers: int,
    revenue: real, impressions: int, ctr: real)

  /**
   * One data row of the export: the publish time already read as a date,
   * the average view duration still the `H:M:S` text of the file.
   */
  datatype CsvRow = CsvRow(
    video: string, title: string, published: CalendarDate,
    stats: Stats, duration: string)

  /** A row of the loaded table, with the three derived columns. */
  datatype VideoRow = VideoRow(
    video: string, title: string, published: CalendarDate,
    stats: Stats, duration: TimeOfDay,
    durationSec: int, engagement: real, viewsPerSubGained: real)

  /** pandas raises on the first row (by index label) whose duration strptime refuses. */
  datatype LoadError = MalformedDuration(row: nat)

  /** The two derived ratios divide by views and by subscribers gained; the source never checks either. */
  predicate HasDenominators(s: Stats) {
    s.views != 0 && s.subsGained != 0
  }

  predicate AllHaveDenominators(rows: seq<CsvRow>) {
    forall i :: 0 <= i < |rows| ==> HasDenominators(rows[i].stats)
  }

  /** Dividing by a non-zero count and multiplying back gives the numerator. */
  lemma RatioTimesDenominator(n: int, d: int)
    requires d != 0
    ensures (n as real / d as real) * d as real == n as real
  {
  }

  /** Comments, shares, dislikes and likes together. */
  function Interactions(s: Stats): int {
    s.comments + s.shares + s.dislikes + s.likes
  }

  /** Engagement_ratio: the interactions per view. */
  function EngagementRatio(s: Stats): (e: real)
    requires s.views != 0
    ensures e * s.views as real == Interactions(s) as real
    ensures s.views > 0 && Interactions(s) >= 0 ==> e >= 0.0
  {
    RatioTimesDenominator(Interactions(s), s.views);
    Interactions(s) as real / s.views as real
  }

  /** Views / sub gained: the views per subscriber gained. */
  function ViewsPerSubGained(s: Stats): (r: real)
    requires s.subsGained != 0
    ensures r * s.subsGained as real == s.views as real
  {
    RatioTimesDenominator(s.views, s.subsGained);
    s.views as real / s.subsGained as real
  }

  /**
   * engagement and perSub are the two ratio columns of a row with stats s:
   * each times its denominator gives back its numerator.
   */
  predicate DerivedRatios(engagement: real, perSub: real, s: Stats) {
    && engagement * s.views as real == Interactions(s) as real
    && perSub * s.subsGained as real == s.views as real
  }

  /**
   * A row with its derived columns, given its parsed duration: the duration
   * in seconds, the engagement ratio and the views per subscriber gained;
   * the other cells unchanged.
   */
  function WithDerivedColumns(c: CsvRow, t: TimeOfDay): (v: VideoRow)
    requires ValidTime(t) && HasDenominators(c.stats)
    ensures v.video == c.video && v.title == c.title
    ensures v.published == c.published && v.stats == c.stats && v.duration == t
    ensures v.durationSec == ToSeconds(t)
    ensures DerivedRatios(v.engagement, v.viewsPerSubGained, c.stats)
  {
    var engagement := EngagementRatio(c.stats);
    var perSub := ViewsPerSubGained(c.stats);
    assert DerivedRatios(engagement, perSub, c.stats);
    VideoRow(c.video, c.title, c.published, c.stats, t, ToSeconds(t), engagement, perSub)
  }

  /**
   * `Series.apply(f)` with an f that may raise: every cell mapped, or the
   * label of the first cell f refuses (cells are labelled first, first + 1, ...).
   */
  function ApplyColumn<A, B>(cells: seq<A>, f: A -> Option<B>, first: nat): (r: Result<seq<B>, nat>)
    ensures r.Success? <==> forall i :: 0 <= i < |cells| ==> f(cells[i]).Some?
    ensures r.Success? ==>
      |r.value| == |cells| && forall i :: 0 <= i < |cells| ==> f(cells[i]) == Some(r.value[i])
    ensures r.Failure? ==>
      && first <= r.error < first + |cells|
      && f(cells[r.error - first]).None?
      && forall j :: 0 <= j < r.error - first ==> f(cells[j]).Some?
  {
    if cells == [] then Success([])
    else if f(cells[0]).None? then Failure(first)
    else
      var tail := cells[1..];
      var rest := ApplyColumn(tail, f, first + 1);
      if rest.Failure? then
        assert forall j :: 1 <= j < |cells| ==> cells[j] == tail[j - 1];
        rest
      else
        var r := [f(cells[0]).value] + rest.value;
        assert forall j :: 1 <= j < |cells| ==> cells[j] == tail[j - 1] && r[j] == rest.value[j - 1];
        Success(r)
  }

  /** The Average view duration column of a table. */
  function DurationTexts(rows: seq<CsvRow>): (texts: seq<string>)
    ensures |texts| == |rows|
    ensures forall i :: 0 <= i < |rows| ==> texts[i] == rows[i].duration
  {
    seq(|rows|, i requires 0 <= i < |rows| => rows[i].duration)
  }

  /**
   * Lines 17-20 of `load_data` over the rows kept by `iloc[1:]` (labelled
   * 1, 2, ...): the duration column parsed, raising at the first row
   * strptime refuses, then the three derived columns added.
   */
  function DeriveColumns(rows: seq<CsvRow>): (r: Result<seq<VideoRow>, LoadError>)
    requires AllHaveDenominators(rows)
    ensures r.Success? <==> forall i :: 0 <= i < |rows| ==> ParseDuration(rows[i].duration).Some?
    ensures r.Success? ==>
      && |r.value| == |rows|
      && forall i :: 0 <= i < |rows| ==>
           Some(r.value[i].duration) == ParseDuration(rows[i].duration)
           && r.value[i] == WithDerivedColumns(rows[i], r.value[i].duration)
    ensures r.Failure? ==>
      var k := r.error.row - 1;
      && 0 <= k < |rows|
      && ParseDuration(rows[k].duration).None?
      && forall j :: 0 <= j < k ==> ParseDuration(rows[j].duration).Some?
  {
    var texts := DurationTexts(rows);
    match ApplyColumn(texts, ParseDuration, 1)
    case Failure(at) => Failure(MalformedDuration(at))
    case Success(ts) =>
      Success(seq(|rows|, i requires 0 <= i < |rows| => WithDerivedColumns(rows[i], ts[i])))
  }

  /** `iloc[1:]`: the export's first data row is left out. */
  function DropFirst(csv: seq<CsvRow>): (rows: seq<CsvRow>)
    ensures |rows| == if csv == [] then 0 else |csv| - 1
    ensures forall i :: 0 <= i < |rows| ==> rows[i] == csv[i + 1]
  {
    if csv == [] then [] else csv[1..]
  }

  /** Rows in non-increasing publish-time order. */
  predicate NewestFirst(t: seq<VideoRow>) {
    forall i, j :: 0 <= i < j < |t| ==> Ordinal(t[j].published) <= Ordinal(t[i].published)
  }

  function Key(v: VideoRow): int {
    Ordinal(v.published)
  }

  /** Exchanges two neighbouring rows. */
  method SwapAdjacent(a: array<VideoRow>, i: nat)
    requires i + 1 < a.Length
    modifies a
    ensures a[..] == Swapped(old(a[..]), i)
  {
    a[i], a[i + 1] := a[i + 1], a[i];
  }

  /**
   * `sort_values('Video publish time', ascending = False, inplace = True)`.
   * pandas' default sort is not stable, so nothing is said about the order
   * of rows published on the same day.
   */
  method SortNewestFirst(a: array<VideoRow>)
    modifies a
    ensures NewestFirst(a[..])
    ensures multiset(a[..]) == multiset(old(a[..]))
  {
    var i := 0;
    while i < a.Length
      invariant 0 <= i <= a.Length
      invariant forall p, q :: 0 <= p < q < i ==> Key(a[q]) <= Key(a[p])
      invariant multiset(a[..]) == multiset(old(a[..]))
    {
      InsertNewest(a, i);
      i := i + 1;
    }
  }

  /** The two neighbours at k and k + 1 exchanged. */
  function Swapped(s: seq<VideoRow>, k: nat): (r: seq<VideoRow>)
    requires k + 1 < |s|
    ensures |r| == |s| && r[k] == s[k + 1] && r[k + 1] == s[k]
    ensures forall m :: 0 <= m < |s| && m != k && m != k + 1 ==> r[m] == s[m]
    ensures multiset(r) == multiset(s)
  {
    s[k := s[k + 1]][k + 1 := s[k]]
  }

  /**
   * Insertion of the row now at j into the newest-first prefix s[..i+1]:
   * without s[j] the prefix is in order, and s[j] is newer than every row
   * after it.
   */
  predicate InsertingAt(s: seq<VideoRow>, i: nat, j: nat)
    requires j <= i < |s|
  {
    && (forall p, q :: 0 <= p < q <= i && p != j && q != j ==> Key(s[q]) <= Key(s[p]))
    && (forall q :: j < q <= i ==> Key(s[q]) < Key(s[j]))
  }

  /** Moving the inserted row one place left, past an older row, keeps the insertion invariant. */
  lemma InsertingStep(s: seq<VideoRow>, i: nat, j: nat)
    requires 0 < j <= i < |s|
    requires InsertingAt(s, i, j) && Key(s[j - 1]) < Key(s[j])
    ensures InsertingAt(Swapped(s, j - 1), i, j - 1)
  {
  }

  /** Once the row before it is not older, the inserted row is in place and the prefix is in order. */
  lemma InsertingDone(s: seq<VideoRow>, i: nat, j: nat)
    requires j <= i < |s|
    requires InsertingAt(s, i, j) && (j == 0 || Key(s[j]) <= Key(s[j - 1]))
    ensures forall p, q :: 0 <= p < q <= i ==> Key(s[q]) <= Key(s[p])
  {
  }

  /** s rearranges only the prefix s0[..i+1]: the prefix keeps its rows and the rows after it stay put. */
  predicate RearrangesPrefix(s: seq<VideoRow>, s0: seq<VideoRow>, i: nat)
    requires i < |s0|
  {
    && |s| == |s0|
    && multiset(s[..i + 1]) == multiset(s0[..i + 1])
    && s[i + 1..] == s0[i + 1..]
  }

  /** Swapping two neighbours inside the prefix keeps it a rearrangement of the prefix. */
  lemma SwappedRearrangesPrefix(s: seq<VideoRow>, s0: seq<VideoRow>, i: nat, k: nat)
    requires i < |s0| && k < i
    requires RearrangesPrefix(s, s0, i)
    ensures RearrangesPrefix(Swapped(s, k), s0, i)
  {
    assert Swapped(s, k)[..i + 1] == Swapped(s[..i + 1], k);
    assert Swapped(s, k)[i + 1..] == s[i + 1..];
  }

  /** A rearrangement of the prefix leaves every later row in place and permutes the whole sequence. */
  lemma RearrangesPrefixFrame(s: seq<VideoRow>, s0: seq<VideoRow>, i: nat)
    requires i < |s0|
    requires RearrangesPrefix(s, s0, i)
    ensures forall k :: i < k < |s| ==> s[k] == s0[k]
    ensures multiset(s) == multiset(s0)
  {
    forall k | i < k < |s|
      ensures s[k] == s0[k]
    {
      assert s[k] == s[i + 1..][k - i - 1];
    }
    assert s == s[..i + 1] + s[i + 1..];
    assert s0 == s0[..i + 1] + s0[i + 1..];
  }

  /** Midway through inserting row i of start: the row now sits at j. */
  predicate Shifting(s: seq<VideoRow>, start: seq<VideoRow>, i: nat, j: nat)
    requires j <= i < |start|
  {
    |s| == |start| && InsertingAt(s, i, j) && RearrangesPrefix(s, start, i)
  }

  /** One swap moves the inserted row one place left and keeps the shifting invariant. */
  lemma ShiftingStep(s: seq<VideoRow>, start: seq<VideoRow>, i: nat, j: nat)
    requires 0 < j <= i < |start|
    requires Shifting(s, start, i, j) && Key(s[j - 1]) < Key(s[j])
    ensures Shifting(Swapped(s, j - 1), start, i, j - 1)
  {
    InsertingStep(s, i, j);
    SwappedRearrangesPrefix(s, start, i, j - 1);
  }

  /**
   * Moves the row at i left past the older rows before it, one swap at a
   * time; the row stops at the returned index j.
   */
  method ShiftNewer(a: array<VideoRow>, i: nat) returns (j: nat)
    requires i < a.Length
    requires InsertingAt(a[..], i, i)
    modifies a
    ensures j <= i
    ensures InsertingAt(a[..], i, j) && (j == 0 || Key(a[j]) <= Key(a[j - 1]))
    ensures RearrangesPrefix(a[..], old(a[..]), i)
  {
    ghost var start := a[..];
    j := i;
    while j > 0 && Key(a[j - 1]) < Key(a[j])
      invariant j <= i
      invariant Shifting(a[..], start, i, j)
    {
      ShiftingStep(a[..], start, i, j);
      SwapAdjacent(a, j - 1);
      j := j - 1;
    }
  }

  /**
   * One insertion step: row i moves left past every older row before it;
   * the prefix up to i keeps its rows and the rows after i stay put.
   */
  method InsertNewest(a: array<VideoRow>, i: nat)
    requires i < a.Length
    requires forall p, q :: 0 <= p < q < i ==> Key(a[q]) <= Key(a[p])
    modifies a
    ensures forall p, q :: 0 <= p < q <= i ==> Key(a[q]) <= Key(a[p])
    ensures multiset(a[..i + 1]) == multiset(old(a[..i + 1]))
    ensures forall k :: i < k < a.Length ==> a[k] == old(a[k])
    ensures multiset(a[..]) == multiset(old(a[..]))
  {
    ghost var start := a[..];
    var j := ShiftNewer(a, i);
    InsertingDone(a[..], i, j);
    RearrangesPrefixFrame(a[..], start, i);
  }

  /**
   * `load_data` on the export's data rows: drop the first, derive the
   * columns, sort newest first. The loaded table holds exactly the derived
   * rows, newest first.
   */
  method LoadData(csv: seq<CsvRow>) returns (r: Result<seq<VideoRow>, LoadError>)
    requires AllHaveDenominators(DropFirst(csv))
    ensures DeriveColumns(DropFirst(csv)).Failure? ==> r == DeriveColumns(DropFirst(csv))
    ensures DeriveColumns(DropFirst(csv)).Success? ==>
      && r.Success?
      && NewestFirst(r.value)
      && multiset(r.value) == multiset(DeriveColumns(DropFirst(csv)).value)
  {
    var derived := DeriveColumns(DropFirst(csv));
    if derived.Failure? {
      return derived;
    }
    var rows := derived.value;
    var a := new VideoRow[|rows|](i requires 0 <= i < |rows| => rows[i]);
    assert a[..] == rows;
    SortNewestFirst(a);
    r := Success(a[..]);
  }

  /** The number of numeric columns of the table once Video and Video title are dropped. */
  const NumericCount: nat := 18

  /** Position of Views among the numeric columns. */
  const ViewsColumn: nat := 9

  /**
   * The numeric cells of a row in column order: the export's numeric
   * columns, then Avg_duration_sec, Engagement_ratio and Views / sub gained.
   */
  function NumericValues(v: VideoRow): (xs: seq<real>)
    ensures |xs| == NumericCount
    ensures xs[ViewsColumn] == v.stats.views as real
  {
    var s := v.stats;
    [s.comments as real, s.shares as real, s.dislikes as real, s.likes as real,
     s.subsLost as real, s.subsGained as real,
     s.rpm, s.cpm, s.avgPctViewed,
     s.views as real, s.watchHours, s.subscribers as real,
     s.revenue, s.impressions as real, s.ctr,
     v.durationSec as real, v.engagement, v.viewsPerSubGained]
  }
}
