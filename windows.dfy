/**
 * Trailing windows of the loaded table: the rows published on or after the
 * latest publish date minus some months, and the column medians over them.
 */
module Windows {
  import opened Wrappers
  import opened Dates
  import opened Videos
  import opened Statistics

  /** `df['Video publish time'].max()`. */
  function Latest(t: seq<VideoRow>): (d: CalendarDate)
    requires |t| > 0
    ensures exists i :: 0 <= i < |t| && t[i].published == d
    ensures forall i :: 0 <= i < |t| ==> Ordinal(t[i].published) <= Ordinal(d)
  {
    if |t| == 1 then t[0].published
    else
      var rest := Latest(t[1..]);
      assert forall i :: 1 <= i < |t| ==> t[i] == t[1..][i - 1];
      if Ordinal(rest) <= Ordinal(t[0].published) then t[0].published else rest
  }

  /** In a newest-first table the latest date is the first row's. */
  lemma LatestOfNewestFirst(t: seq<VideoRow>)
    requires |t| > 0 && NewestFirst(t)
    ensures Latest(t) == t[0].published
  {
    var i :| 0 <= i < |t| && t[i].published == Latest(t);
    OrdinalOrder(t[0].published, Latest(t));
  }

  /**
   * `max() - pd.DateOffset(months = n)`: None (NaT) for an empty table,
   * otherwise a date no later than the latest one.
   */
  function Threshold(t: seq<VideoRow>, months: nat): (th: Option<CalendarDate>)
    ensures th.None? <==> |t| == 0
    ensures th.Some? ==> Ordinal(th.value) <= Ordinal(Latest(t))
  {
    if |t| == 0 then None
    else
      MonthsBackNotLater(Latest(t), months);
      Some(MonthsBack(Latest(t), months))
  }

  /** w holds every row of t on or after th exactly as often as t does, and no other row. */
  ghost predicate KeepsFrom(w: seq<VideoRow>, t: seq<VideoRow>, th: CalendarDate) {
    forall v :: multiset(w)[v] == if Ordinal(th) <= Ordinal(v.published) then multiset(t)[v] else 0
  }

  /**
   * The mask `t['Video publish time'] >= th`: the rows on or after th, in
   * table order, each as many times as the table holds it.
   */
  function OnOrAfter(t: seq<VideoRow>, th: CalendarDate): (w: seq<VideoRow>)
    ensures |w| <= |t|
    ensures KeepsFrom(w, t, th)
    ensures forall v :: v in w <==> v in t && Ordinal(th) <= Ordinal(v.published)
  {
    if t == [] then []
    else
      var rest := OnOrAfter(t[1..], th);
      var w := if Ordinal(th) <= Ordinal(t[0].published) then [t[0]] + rest else rest;
      KeepsStep(t, th, rest);
      KeepsMembers(w, t, th);
      w
  }

  /** Adding the first row back, when it is on or after th, extends what the rest keeps. */
  lemma KeepsStep(t: seq<VideoRow>, th: CalendarDate, rest: seq<VideoRow>)
    requires t != [] && KeepsFrom(rest, t[1..], th)
    ensures KeepsFrom(if Ordinal(th) <= Ordinal(t[0].published) then [t[0]] + rest else rest, t, th)
  {
    assert t == [t[0]] + t[1..];
    assert multiset(t) == multiset{t[0]} + multiset(t[1..]);
    assert multiset([t[0]] + rest) == multiset{t[0]} + multiset(rest);
  }

  /** Keeping rows with their multiplicity keeps exactly the members on or after th. */
  lemma KeepsMembers(w: seq<VideoRow>, t: seq<VideoRow>, th: CalendarDate)
    requires KeepsFrom(w, t, th)
    ensures forall v :: v in w <==> v in t && Ordinal(th) <= Ordinal(v.published)
  {
    forall v
      ensures v in w <==> v in t && Ordinal(th) <= Ordinal(v.published)
    {
      assert v in w <==> multiset(w)[v] > 0;
      assert v in t <==> multiset(t)[v] > 0;
    }
  }

  /**
   * The rows published in the last `months` months, boundary included:
   * each such row of t as often as t holds it, and nothing for an empty table.
   */
  function Window(t: seq<VideoRow>, months: nat): (w: seq<VideoRow>)
    ensures |w| <= |t|
    ensures t == [] ==> w == []
    ensures forall v :: v in w ==> v in t
    ensures t != [] ==> KeepsFrom(w, t, Threshold(t, months).value)
  {
    match Threshold(t, months)
    case None => []
    case Some(th) => OnOrAfter(t, th)
  }

  /** A row is in the window exactly when it is in the table and not before the threshold date. */
  lemma WindowMembership(t: seq<VideoRow>, months: nat, v: VideoRow)
    requires |t| > 0
    ensures v in Window(t, months) <==>
            v in t && OnOrBefore(MonthsBack(Latest(t), months), v.published)
  {
    OrdinalOrder(MonthsBack(Latest(t), months), v.published);
  }

  /** The newest row is always in the window, so the window of a non-empty table is non-empty. */
  lemma WindowHoldsLatest(t: seq<VideoRow>, months: nat)
    requires |t| > 0
    ensures exists v :: v in Window(t, months) && v.published == Latest(t)
    ensures |Window(t, months)| > 0
  {
    var i :| 0 <= i < |t| && t[i].published == Latest(t);
    assert t[i] in Window(t, months);
  }

  /** Filtering at a later date after an earlier one is filtering at the later date. */
  lemma {:induction false} OnOrAfterNested(t: seq<VideoRow>, early: CalendarDate, late: CalendarDate)
    requires Ordinal(early) <= Ordinal(late)
    ensures OnOrAfter(OnOrAfter(t, early), late) == OnOrAfter(t, late)
  {
    if t != [] {
      OnOrAfterNested(t[1..], early, late);
    }
  }

  /** The shorter window is the longer window filtered again: a sub-table, in the same order. */
  lemma WindowNested(t: seq<VideoRow>, near: nat, far: nat)
    requires |t| > 0 && near <= far
    ensures Window(t, near) == OnOrAfter(Window(t, far), MonthsBack(Latest(t), near))
    ensures forall v :: v in Window(t, near) ==> v in Window(t, far)
  {
    MonthsBackAntitone(Latest(t), near, far);
    OnOrAfterNested(t, MonthsBack(Latest(t), far), MonthsBack(Latest(t), near));
  }

  /** When no row is before the threshold the filter keeps the whole table. */
  lemma {:induction false} OnOrAfterKeepsAll(t: seq<VideoRow>, th: CalendarDate)
    requires forall i :: 0 <= i < |t| ==> Ordinal(th) <= Ordinal(t[i].published)
    ensures OnOrAfter(t, th) == t
  {
    if t != [] {
      OnOrAfterKeepsAll(t[1..], th);
    }
  }

  /** When every row is before the threshold the filter keeps nothing. */
  lemma {:induction false} OnOrAfterNone(t: seq<VideoRow>, th: CalendarDate)
    requires forall i :: 0 <= i < |t| ==> Ordinal(t[i].published) < Ordinal(th)
    ensures OnOrAfter(t, th) == []
  {
    if t != [] {
      OnOrAfterNone(t[1..], th);
    }
  }

  /** In a newest-first table a window is a prefix. */
  lemma {:induction false} OnOrAfterPrefix(t: seq<VideoRow>, th: CalendarDate)
    requires NewestFirst(t)
    ensures OnOrAfter(t, th) == t[..|OnOrAfter(t, th)|]
  {
    if t != [] {
      NewestFirstTail(t);
      OnOrAfterPrefix(t[1..], th);
      if Ordinal(t[0].published) < Ordinal(th) {
        OlderThanHead(t, th);
      } else {
        PrefixWithHead(t, OnOrAfter(t[1..], th));
      }
    }
  }

  /** The rows after the first of a newest-first table are newest first. */
  lemma NewestFirstTail(t: seq<VideoRow>)
    requires NewestFirst(t) && t != []
    ensures NewestFirst(t[1..])
  {
    var tail := t[1..];
    assert forall i :: 0 <= i < |tail| ==> tail[i] == t[i + 1];
  }

  /** The first row followed by a prefix of the rest is a prefix. */
  lemma PrefixWithHead(t: seq<VideoRow>, rest: seq<VideoRow>)
    requires t != [] && |rest| < |t| && rest == t[1..][..|rest|]
    ensures [t[0]] + rest == t[..|rest| + 1]
  {
    assert t[..|rest| + 1] == [t[0]] + t[1..][..|rest|];
  }

  /** In a newest-first table whose first row is before th, no later row reaches th. */
  lemma OlderThanHead(t: seq<VideoRow>, th: CalendarDate)
    requires NewestFirst(t) && t != [] && Ordinal(t[0].published) < Ordinal(th)
    ensures OnOrAfter(t[1..], th) == []
  {
    var tail := t[1..];
    assert forall i :: 0 <= i < |tail| ==> tail[i] == t[i + 1];
    OnOrAfterNone(tail, th);
  }

  /** The numeric cells of a table, row by row. */
  function NumericTable(t: seq<VideoRow>): (m: seq<seq<real>>)
    ensures |m| == |t| && Rectangular(m, NumericCount)
    ensures forall i :: 0 <= i < |t| ==> m[i] == NumericValues(t[i])
  {
    seq(|t|, i requires 0 <= i < |t| => NumericValues(t[i]))
  }

  /**
   * `median_agg`: the median of each numeric column over the 12-month
   * window; None (NaN) for an empty table.
   */
  function Baseline(t: seq<VideoRow>): (m: Option<seq<real>>)
    ensures m.Some? <==> |t| > 0
    ensures m.Some? ==> |m.value| == NumericCount
  {
    if |t| == 0 then None
    else
      WindowHoldsLatest(t, 12);
      Some(ColumnMedians(NumericTable(Window(t, 12)), NumericCount))
  }

  /** Each baseline median lies between its column's minimum and maximum inside the window. */
  lemma BaselineWithinWindow(t: seq<VideoRow>, c: nat)
    requires |t| > 0 && c < NumericCount
    ensures |Window(t, 12)| > 0
    ensures var col := Column(NumericTable(Window(t, 12)), NumericCount, c);
            Least(col) <= Baseline(t).value[c] <= Greatest(col)
  {
    WindowHoldsLatest(t, 12);
  }
}
