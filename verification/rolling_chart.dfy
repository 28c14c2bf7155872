/**
 The rolling x window of the monitor's charts (`RollingChart.append`).

 A chart holds one point list per series and an x counter. Every append
 advances the counter by one, adds each present value as a point at the new
 x, and then trims every series to the points whose x is at least
 max(0, x - window). The trim finds its cut with a binary search; that search
 is the method `SearchCutoff`, and `FirstAtOrAbove` is its linear reference.
 */
module RollingChart {
  import opened Common

  datatype Point = Point(x: int, y: real)

  /** `pointWindow`, `xpos`, and the points of each series. */
  datatype Chart = Chart(window: int, xpos: int, series: seq<seq<Point>>)

  /** A fresh chart: `xpos` starts at `window - 1`, every series empty. */
  function Init(window: int, seriesCount: nat): (c: Chart)
    ensures c.xpos == window - 1 && |c.series| == seriesCount
    ensures forall i :: 0 <= i < seriesCount ==> c.series[i] == []
  {
    Chart(window, window - 1, seq(seriesCount, i => []))
  }

  predicate Increasing(ps: seq<Point>) {
    forall i, j :: 0 <= i < j < |ps| ==> ps[i].x < ps[j].x
  }

  /** A series whose x values increase strictly and do not pass `xpos`. */
  predicate SeriesOk(ps: seq<Point>, xpos: int) {
    Increasing(ps) && forall j :: 0 <= j < |ps| ==> ps[j].x <= xpos
  }

  predicate WellFormed(c: Chart) {
    forall i :: 0 <= i < |c.series| ==> SeriesOk(c.series[i], c.xpos)
  }

  /** `max(0, xpos - pointWindow)`. */
  function Cutoff(xpos: int, window: int): (m: int)
    ensures m >= 0 && m >= xpos - window
    ensures m == 0 || m == xpos - window
  {
    if xpos - window > 0 then xpos - window else 0
  }

  /** The `zip(self.series, values)` loop: series i gains the point
      (x, values[i]) when that value is present; a `None`, and every series
      past the end of `values`, gains nothing. */
  function AddPoints(series: seq<seq<Point>>, values: seq<Option<real>>, x: int): (r: seq<seq<Point>>)
    ensures |r| == |series|
    ensures forall i :: 0 <= i < |series| ==>
              r[i] == if i < |values| && values[i].Some? then series[i] + [Point(x, values[i].value)] else series[i]
  {
    seq(|series|, i requires 0 <= i < |series| =>
          if i < |values| && values[i].Some? then series[i] + [Point(x, values[i].value)] else series[i])
  }

  /** The first index whose x is at least `cutoff`, by a linear scan. */
  function FirstAtOrAbove(ps: seq<Point>, cutoff: int): (i: nat)
    ensures i <= |ps|
    ensures forall k :: 0 <= k < i ==> ps[k].x < cutoff
    ensures i < |ps| ==> ps[i].x >= cutoff
  {
    if |ps| == 0 || ps[0].x >= cutoff then 0 else 1 + FirstAtOrAbove(ps[1..], cutoff)
  }

  /** The binary search of lines 119-126: on a series sorted by x, it ends
      with every earlier point below the cut-off and every later point at or
      above it, which is the index the linear scan finds. */
  method SearchCutoff(ps: seq<Point>, cutoff: int) returns (lo: nat)
    requires Increasing(ps)
    ensures lo <= |ps|
    ensures forall k :: 0 <= k < lo ==> ps[k].x < cutoff
    ensures forall k :: lo <= k < |ps| ==> ps[k].x >= cutoff
    ensures lo == FirstAtOrAbove(ps, cutoff)
  {
    lo := 0;
    var hi := |ps|;
    while lo < hi
      invariant 0 <= lo <= hi <= |ps|
      invariant forall k :: 0 <= k < lo ==> ps[k].x < cutoff
      invariant forall k :: hi <= k < |ps| ==> ps[k].x >= cutoff
      decreases hi - lo
    {
      var mid := (lo + hi) / 2;
      if ps[mid].x < cutoff {
        lo := mid + 1;
      } else {
        hi := mid;
      }
    }
    FirstAtOrAboveUnique(ps, cutoff, lo);
  }

  /** The first index at or above the cut-off is the only index with every
      earlier point below it and itself, if any, at or above it. */
  lemma FirstAtOrAboveUnique(ps: seq<Point>, cutoff: int, i: nat)
    requires i <= |ps|
    requires forall k :: 0 <= k < i ==> ps[k].x < cutoff
    requires i < |ps| ==> ps[i].x >= cutoff
    ensures i == FirstAtOrAbove(ps, cutoff)
  {
  }

  /** The trim of one series: when its first point is below the cut-off, keep
      the points from the first one at or above it. */
  function Trim(ps: seq<Point>, cutoff: int): seq<Point> {
    if |ps| > 0 && ps[0].x < cutoff then ps[FirstAtOrAbove(ps, cutoff)..] else ps
  }

  /** The trim loop as written, with the binary search. */
  method TrimSeries(ps: seq<Point>, cutoff: int) returns (r: seq<Point>)
    requires Increasing(ps)
    ensures r == Trim(ps, cutoff)
    ensures forall k :: 0 <= k < |r| ==> r[k].x >= cutoff
  {
    r := ps;
    if |ps| > 0 && ps[0].x < cutoff {
      var lo := SearchCutoff(ps, cutoff);
      r := ps[lo..];
    }
  }

  /** `RollingChart.append`. */
  function Append(c: Chart, values: seq<Option<real>>): (r: Chart)
    ensures r.window == c.window && r.xpos == c.xpos + 1
    ensures |r.series| == |c.series|
  {
    var x := c.xpos + 1;
    var added := AddPoints(c.series, values, x);
    var cut := Cutoff(x, c.window);
    Chart(c.window, x, seq(|added|, i requires 0 <= i < |added| => Trim(added[i], cut)))
  }

  // ---------------------------------------------------------------------------
  // Properties
  // ---------------------------------------------------------------------------

  lemma TrimIsSuffix(ps: seq<Point>, cutoff: int)
    ensures var t := Trim(ps, cutoff);
            |t| <= |ps| && t == ps[|ps| - |t|..]
  {
  }

  /** Appending at a larger x keeps a series sorted and below the new x. */
  lemma AddPointKeepsSeriesOk(ps: seq<Point>, xpos: int, v: real)
    requires SeriesOk(ps, xpos)
    ensures SeriesOk(ps + [Point(xpos + 1, v)], xpos + 1)
  {
  }

  /** After an append, x still increases strictly along every series and no
      point lies beyond the new `xpos`; a new point sits at exactly `xpos`. */
  lemma AppendKeepsWellFormed(c: Chart, values: seq<Option<real>>)
    requires WellFormed(c)
    ensures WellFormed(Append(c, values))
  {
    var x := c.xpos + 1;
    var added := AddPoints(c.series, values, x);
    var cut := Cutoff(x, c.window);
    forall i | 0 <= i < |c.series| ensures SeriesOk(Append(c, values).series[i], x) {
      assert SeriesOk(added[i], x) by {
        AddedSeriesOk(c, values, i);
      }
      TrimKeepsSeriesOk(added[i], x, cut);
    }
  }

  /** Series `i` is still sorted and below the new `xpos` once the new
      values are added. */
  lemma AddedSeriesOk(c: Chart, values: seq<Option<real>>, i: int)
    requires WellFormed(c) && 0 <= i < |c.series|
    ensures SeriesOk(AddPoints(c.series, values, c.xpos + 1)[i], c.xpos + 1)
  {
    assert SeriesOk(c.series[i], c.xpos);
    if i < |values| && values[i].Some? {
      AddPointKeepsSeriesOk(c.series[i], c.xpos, values[i].value);
    }
  }

  /** Trimming keeps a series sorted and below `xpos`. */
  lemma TrimKeepsSeriesOk(ps: seq<Point>, xpos: int, cutoff: int)
    requires SeriesOk(ps, xpos)
    ensures SeriesOk(Trim(ps, cutoff), xpos)
  {
    TrimIsSuffix(ps, cutoff);
    SuffixOk(ps, xpos, |ps| - |Trim(ps, cutoff)|);
  }

  lemma SuffixOk(ps: seq<Point>, xpos: int, d: int)
    requires SeriesOk(ps, xpos) && 0 <= d <= |ps|
    ensures SeriesOk(ps[d..], xpos)
  {
    var t := ps[d..];
    forall a, b | 0 <= a < b < |t| ensures t[a].x < t[b].x {
      assert t[a] == ps[d + a] && t[b] == ps[d + b];
    }
    forall a | 0 <= a < |t| ensures t[a].x <= xpos {
      assert t[a] == ps[d + a];
    }
  }

  /** A value that is present lands at the new `xpos`, as the series' last
      point; a `None` adds nothing (no zero is plotted for it). */
  lemma NewPointAtXpos(c: Chart, values: seq<Option<real>>, i: nat)
    requires WellFormed(c) && c.window >= 0 && c.xpos + 1 >= 0
    requires i < |c.series| && i < |values|
    ensures var s := Append(c, values).series[i];
            values[i].Some? ==> |s| > 0 && s[|s| - 1] == Point(c.xpos + 1, values[i].value)
    ensures values[i].None? ==>
              Append(c, values).series[i] == Trim(c.series[i], Cutoff(c.xpos + 1, c.window))
  {
    var x := c.xpos + 1;
    var cut := Cutoff(x, c.window);
    if values[i].Some? {
      var ps := c.series[i] + [Point(x, values[i].value)];
      AddPointKeepsSeriesOk(c.series[i], c.xpos, values[i].value);
      assert ps[|ps| - 1].x >= cut;
      TrimIsSuffix(ps, cut);
    }
  }

  /** The trim of a sorted series keeps exactly the points at or above the
      cut-off: none below it survives and none at or above it is lost. */
  lemma TrimKeepsExactlyTheWindow(ps: seq<Point>, cutoff: int)
    requires Increasing(ps)
    ensures forall p :: p in Trim(ps, cutoff) <==> p in ps && p.x >= cutoff
  {
    var i := FirstAtOrAbove(ps, cutoff);
    forall k | i <= k < |ps| ensures ps[k].x >= cutoff {
      if k > i {
        assert ps[i].x < ps[k].x;
      }
    }
    forall p | p in ps && p.x >= cutoff ensures p in ps[i..] {
      var k :| 0 <= k < |ps| && ps[k] == p;
      assert k >= i;
      assert ps[i..][k - i] == p;
    }
  }

  /** Strictly increasing integers inside [lo, hi] number at most hi - lo + 1. */
  lemma {:induction false} IncreasingInRangeIsShort(ps: seq<Point>, lo: int, hi: int)
    requires Increasing(ps)
    requires forall k :: 0 <= k < |ps| ==> lo <= ps[k].x <= hi
    ensures |ps| <= if hi - lo + 1 > 0 then hi - lo + 1 else 0
    decreases |ps|
  {
    if |ps| > 0 {
      IncreasingInRangeIsShort(ps[1..], ps[0].x + 1, hi);
    }
  }

  /** After an append every series lies inside the window
      [max(0, xpos - window), xpos], every point of that window is kept, and
      so a series holds at most window + 1 points. */
  lemma AppendStaysInWindow(c: Chart, values: seq<Option<real>>, i: nat)
    requires WellFormed(c) && c.window >= 0 && i < |c.series|
    ensures var r := Append(c, values);
            var cut := Cutoff(r.xpos, r.window);
            (forall p :: p in r.series[i] <==> p in AddPoints(c.series, values, r.xpos)[i] && p.x >= cut) &&
            |r.series[i]| <= c.window + 1
  {
    var r := Append(c, values);
    var cut := Cutoff(r.xpos, r.window);
    var added := AddPoints(c.series, values, r.xpos);
    if i < |values| && values[i].Some? {
      AddPointKeepsSeriesOk(c.series[i], c.xpos, values[i].value);
    }
    AppendKeepsWellFormed(c, values);
    TrimKeepsExactlyTheWindow(added[i], cut);
    var s := r.series[i];
    assert forall k :: 0 <= k < |s| ==> s[k] in s;
    IncreasingInRangeIsShort(s, cut, r.xpos);
  }
}
