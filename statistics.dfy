/**
 * The column statistics the dashboard relies on: pandas' `median`, the
 * middle of the sorted values, or the mean of the two middle ones when the
 * count is even; and the relative difference from a median.
 */
module Statistics {
  import opened Wrappers

  predicate Ascending(s: seq<real>) {
    forall i, j :: 0 <= i < j < |s| ==> s[i] <= s[j]
  }

  /** Puts x into an ascending sequence at its place. */
  function Insert(x: real, s: seq<real>): (r: seq<real>)
    requires Ascending(s)
    ensures Ascending(r)
    ensures multiset(r) == multiset(s) + multiset{x}
    ensures |r| == |s| + 1
    ensures r[0] == if s != [] && s[0] < x then s[0] else x
  {
    if s == [] || x <= s[0] then
      PrependAscending(x, s);
      [x] + s
    else
      assert s == [s[0]] + s[1..];
      var tail := Insert(x, s[1..]);
      PrependAscending(s[0], tail);
      [s[0]] + tail
  }

  /** A value no larger than the head of an ascending sequence can go in front of it. */
  lemma PrependAscending(h: real, t: seq<real>)
    requires Ascending(t) && (t != [] ==> h <= t[0])
    ensures Ascending([h] + t)
  {
  }

  /** The values in ascending order. */
  function SortAscending(xs: seq<real>): (s: seq<real>)
    ensures Ascending(s)
    ensures multiset(s) == multiset(xs)
    ensures |s| == |xs|
  {
    if xs == [] then []
    else
      assert xs == [xs[0]] + xs[1..];
      Insert(xs[0], SortAscending(xs[1..]))
  }

  /** The smallest value. */
  function Least(xs: seq<real>): (m: real)
    requires |xs| > 0
    ensures m in xs
    ensures forall i :: 0 <= i < |xs| ==> m <= xs[i]
  {
    if |xs| == 1 then xs[0]
    else
      var rest := Least(xs[1..]);
      assert forall i :: 1 <= i < |xs| ==> xs[i] == xs[1..][i - 1];
      if xs[0] <= rest then xs[0] else rest
  }

  /** The largest value. */
  function Greatest(xs: seq<real>): (m: real)
    requires |xs| > 0
    ensures m in xs
    ensures forall i :: 0 <= i < |xs| ==> xs[i] <= m
  {
    if |xs| == 1 then xs[0]
    else
      var rest := Greatest(xs[1..]);
      assert forall i :: 1 <= i < |xs| ==> xs[i] == xs[1..][i - 1];
      if rest <= xs[0] then xs[0] else rest
  }

  /** The middle of an ascending sequence, or the mean of its two middle values. */
  function Middle(s: seq<real>): real
    requires |s| > 0
  {
    var n := |s|;
    if n % 2 == 1 then s[n / 2] else (s[n / 2 - 1] + s[n / 2]) / 2.0
  }

  /**
   * pandas' median of a column with no missing values: it lies between the
   * column's minimum and maximum, and for an odd count it is one of the values.
   */
  function Median(xs: seq<real>): (m: real)
    requires |xs| > 0
    ensures Least(xs) <= m <= Greatest(xs)
    ensures |xs| % 2 == 1 ==> m in xs
  {
    var s := SortAscending(xs);
    MiddleBetweenEnds(s);
    EndsWithinExtremes(xs, s);
    assert s[|s| / 2] in multiset(s);
    Middle(s)
  }

  /** The middle of an ascending sequence lies between its ends. */
  lemma MiddleBetweenEnds(s: seq<real>)
    requires |s| > 0 && Ascending(s)
    ensures s[0] <= Middle(s) <= s[|s| - 1]
  {
    var n := |s|;
    if n % 2 == 0 {
      assert s[0] <= s[n / 2 - 1] <= s[n / 2] <= s[n - 1];
    }
  }

  /** The ends of an ordering of xs are no further out than the extremes of xs. */
  lemma EndsWithinExtremes(xs: seq<real>, s: seq<real>)
    requires |xs| > 0 && |s| > 0 && multiset(s) == multiset(xs)
    ensures Least(xs) <= s[0] && s[|s| - 1] <= Greatest(xs)
  {
    assert s[0] in multiset(s) && s[|s| - 1] in multiset(s);
    assert s[0] in xs && s[|s| - 1] in xs;
  }

  /** Two ascending orderings of the same values are the same sequence. */
  lemma {:induction false} AscendingUnique(a: seq<real>, b: seq<real>)
    requires Ascending(a) && Ascending(b)
    requires multiset(a) == multiset(b)
    ensures a == b
  {
    if a != [] {
      SameHead(a, b);
      WithoutHead(a);
      WithoutHead(b);
      AscendingUnique(a[1..], b[1..]);
      assert a == [a[0]] + a[1..] && b == [b[0]] + b[1..];
    }
  }

  /** Two non-empty ascending orderings of the same values start with the same value. */
  lemma SameHead(a: seq<real>, b: seq<real>)
    requires Ascending(a) && Ascending(b)
    requires multiset(a) == multiset(b) && a != []
    ensures b != [] && a[0] == b[0]
  {
    assert a[0] in multiset(b);
    var i :| 0 <= i < |b| && b[i] == a[0];
    assert b[0] in multiset(a);
    var j :| 0 <= j < |a| && a[j] == b[0];
    assert b[0] <= b[i] && a[0] <= a[j];
  }

  /** The values after the head are the values less the head. */
  lemma WithoutHead(a: seq<real>)
    requires a != []
    ensures multiset(a[1..]) == multiset(a) - multiset{a[0]}
  {
    assert a == [a[0]] + a[1..];
    assert multiset(a) == multiset{a[0]} + multiset(a[1..]);
  }

  /** The median depends on the values only, not on the order of the rows. */
  lemma MedianOrderFree(xs: seq<real>, ys: seq<real>)
    requires |xs| > 0
    requires multiset(xs) == multiset(ys)
    ensures |ys| > 0 && Median(xs) == Median(ys)
  {
    assert |xs| == |ys| by {
      assert |multiset(xs)| == |multiset(ys)|;
    }
    AscendingUnique(SortAscending(xs), SortAscending(ys));
    assert SortAscending(xs) == SortAscending(ys);
  }

  /** Already in order: the median is read off directly. */
  lemma MedianOfAscending(xs: seq<real>)
    requires |xs| > 0 && Ascending(xs)
    ensures Median(xs) == Middle(xs)
  {
    AscendingUnique(SortAscending(xs), xs);
  }

  /** Three ascending values: the median is the middle one. */
  lemma MedianOfThreeAscending(a: real, b: real, c: real)
    requires a <= b <= c
    ensures Median([a, b, c]) == b
  {
    var s := [a, b, c];
    MedianOfAscending(s);
    MiddleOfThree(s);
  }

  /** The middle of three values is the second. */
  lemma MiddleOfThree(s: seq<real>)
    requires |s| == 3
    ensures Middle(s) == s[1]
  {
  }

  /** Reversing three values does not move the median. */
  lemma MedianOfThreeReversed(a: real, b: real, c: real)
    ensures Median([c, b, a]) == Median([a, b, c])
  {
    assert multiset([c, b, a]) == multiset([a, b, c]);
    MedianOrderFree([c, b, a], [a, b, c]);
  }

  /** Three values, the largest first, as a newest-first table lists them: the median is the middle one. */
  lemma MedianOfThree(a: real, b: real, c: real)
    requires a <= b <= c
    ensures Median([c, b, a]) == b
  {
    MedianOfThreeAscending(a, b, c);
    MedianOfThreeReversed(a, b, c);
  }

  /**
   * n is the relative difference of x from m: non-finite (None) exactly
   * when m is zero, otherwise it gives x back as `m + m * n`, and it is
   * zero exactly when x equals m.
   */
  predicate IsRelativeDifference(n: Option<real>, x: real, m: real) {
    && (n.None? <==> m == 0.0)
    && (n.Some? ==> m + m * n.value == x)
    && (n.Some? ==> (n.value == 0.0 <==> x == m))
  }

  /** `(x - m) / m`; floating-point division by a zero m gives inf or NaN, modelled as None. */
  function RelativeDifference(x: real, m: real): (n: Option<real>)
    ensures IsRelativeDifference(n, x, m)
  {
    if m == 0.0 then None else Some((x - m) / m)
  }

  /** Against a positive reference the difference is positive exactly when x is above it. */
  lemma RelativeDifferenceSign(x: real, m: real)
    requires m > 0.0
    ensures RelativeDifference(x, m).Some?
    ensures RelativeDifference(x, m).value > 0.0 <==> x > m
    ensures RelativeDifference(x, m).value < 0.0 <==> x < m
  {
    var n := RelativeDifference(x, m).value;
    assert m * n == x - m;
    if n > 0.0 { assert m * n > 0.0; }
    if n < 0.0 { assert m * n < 0.0; }
  }

  /** A table of numbers: every row has `width` cells. */
  predicate Rectangular(m: seq<seq<real>>, width: nat) {
    forall i :: 0 <= i < |m| ==> |m[i]| == width
  }

  /** Column c of a table. */
  function Column(m: seq<seq<real>>, width: nat, c: nat): (col: seq<real>)
    requires Rectangular(m, width) && c < width
    ensures |col| == |m|
    ensures forall i :: 0 <= i < |m| ==> col[i] == m[i][c]
  {
    seq(|m|, i requires 0 <= i < |m| => m[i][c])
  }

  /** `DataFrame.median()`: one median per column. */
  function ColumnMedians(m: seq<seq<real>>, width: nat): (med: seq<real>)
    requires |m| > 0 && Rectangular(m, width)
    ensures |med| == width
    ensures forall c :: 0 <= c < width ==> med[c] == Median(Column(m, width, c))
  {
    seq(width, c requires 0 <= c < width => Median(Column(m, width, c)))
  }
}
