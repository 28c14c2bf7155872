/**
 Unit auto-scaling of the disk I/O chart: the `scaleValues` unit ladder, the
 axis ceiling `getBestFit`, and `RollingChartDynamic.append`.

 Samples are divided by the current unit's factor before they are plotted.
 A scaled sample above 1024 moves one unit up and divides every point by 1024;
 a tick whose largest point is below 1 moves one unit down and multiplies
 every point by 1024. Both rescale the points whether or not the unit index
 could actually move.
 */
module AutoScale {
  import opened Common
  import opened RollingChart

  /** One rung of `valueRange`: a unit name and its factor. */
  datatype Unit = Unit(name: string, factor: real)

  /** `scaleValues`: the ladder and the current position on it. */
  datatype Scale = Scale(index: nat, ladder: seq<Unit>)

  /** The ladder of the disk I/O chart. */
  const IO_LADDER: seq<Unit> :=
    [Unit("Bytes/s", 1.0), Unit("KiB/s", 1024.0), Unit("MiB/s", 1048576.0), Unit("GiB/s", 1073741824.0)]

  predicate ValidScale(s: Scale) {
    s.index < |s.ladder|
  }

  /** `scaleValues(range_y)`: the first unit. */
  function NewScale(ladder: seq<Unit>): (s: Scale)
    ensures |ladder| > 0 ==> ValidScale(s)
  {
    Scale(0, ladder)
  }

  /** `scale`: the current factor; `None` where indexing the ladder raises. */
  function Factor(s: Scale): Option<real> {
    if s.index < |s.ladder| then Some(s.ladder[s.index].factor) else None
  }

  /** `name`: the current unit name. */
  function Name(s: Scale): Option<string> {
    if s.index < |s.ladder| then Some(s.ladder[s.index].name) else None
  }

  /** `scaleValue(v)`: `v` in the current unit; `None` where the call raises
      (no unit, or a zero factor). */
  function ScaleValue(s: Scale, v: real): (r: Option<real>)
    ensures r.Some? ==> Factor(s).Some? && Factor(s).value != 0.0 && r.value * Factor(s).value == v
    ensures r.None? ==> Factor(s).None? || Factor(s).value == 0.0
  {
    match Factor(s)
    case None => None
    case Some(f) => if f == 0.0 then None else Some(v / f)
  }

  /** `nextScale`: one unit up, unless already at the top. */
  function NextScale(s: Scale): (r: Scale)
    ensures r.ladder == s.ladder
    ensures ValidScale(s) ==> ValidScale(r)
    ensures s.index + 1 < |s.ladder| ==> r.index == s.index + 1
    ensures s.index + 1 >= |s.ladder| ==> r == s
  {
    if s.index + 1 < |s.ladder| then s.(index := s.index + 1) else s
  }

  /** `prevScale`: one unit down, unless already at the bottom. */
  function PrevScale(s: Scale): (r: Scale)
    ensures r.ladder == s.ladder
    ensures ValidScale(s) ==> ValidScale(r)
    ensures s.index > 0 ==> r.index == s.index - 1
    ensures s.index == 0 ==> r == s
  {
    if s.index > 0 then s.(index := s.index - 1) else s
  }

  /** A step up followed by a step down, or the other way round, returns to
      the same unit whenever the first step could move. */
  lemma NextPrevInverse(s: Scale)
    ensures s.index + 1 < |s.ladder| ==> PrevScale(NextScale(s)) == s
    ensures ValidScale(s) && s.index > 0 ==> NextScale(PrevScale(s)) == s
  {
  }

  /** `scaleDown` and `scaleUp`: a fixed factor of 1024 either way, whatever
      the ladder's factors are. */
  function ScaleDown(v: real): real {
    v / 1024.0
  }

  function ScaleUp(v: real): real {
    v * 1024.0
  }

  lemma ScaleUpUndoesScaleDown(v: real)
    ensures ScaleUp(ScaleDown(v)) == v && ScaleDown(ScaleUp(v)) == v
  {
  }

  /** `scalePointsDown` / `scalePointsUp`: every y divided or multiplied by
      the current factor; `None` where the call raises. */
  function ScalePointsDown(s: Scale, ps: seq<Point>): (r: Option<seq<Point>>)
    ensures r.Some? <==> Factor(s).Some? && Factor(s).value != 0.0
    ensures r.Some? ==> |r.value| == |ps|
    ensures r.Some? ==>
              forall k :: 0 <= k < |ps| ==> r.value[k].x == ps[k].x && r.value[k].y * Factor(s).value == ps[k].y
  {
    match Factor(s)
    case None => None
    case Some(f) =>
      if f == 0.0 then None
      else Some(seq(|ps|, k requires 0 <= k < |ps| => Point(ps[k].x, ps[k].y / f)))
  }

  function ScalePointsUp(s: Scale, ps: seq<Point>): (r: Option<seq<Point>>)
    ensures r.Some? <==> Factor(s).Some?
    ensures r.Some? ==> |r.value| == |ps|
    ensures r.Some? ==>
              forall k :: 0 <= k < |ps| ==> r.value[k].x == ps[k].x && r.value[k].y == ps[k].y * Factor(s).value
  {
    match Factor(s)
    case None => None
    case Some(f) => Some(seq(|ps|, k requires 0 <= k < |ps| => Point(ps[k].x, ps[k].y * f)))
  }

  /** Scaling points down and back up restores them. */
  lemma ScalePointsRoundTrip(s: Scale, ps: seq<Point>)
    requires ScalePointsDown(s, ps).Some?
    ensures ScalePointsUp(s, ScalePointsDown(s, ps).value) == Some(ps)
  {
    var f := Factor(s).value;
    var down := ScalePointsDown(s, ps).value;
    var up := ScalePointsUp(s, down).value;
    forall k | 0 <= k < |ps| ensures up[k] == ps[k] {
      assert down[k].y * f == ps[k].y;
      assert up[k].y == down[k].y * f;
    }
    assert up == ps;
  }

  // ---------------------------------------------------------------------------
  // getBestFit
  // ---------------------------------------------------------------------------

  const FITS: seq<int> := [4, 8, 16, 32, 64, 128, 256, 512, 1024]

  /** The position of the first ceiling strictly above `v`, or `|fits|`. */
  function FitIndex(fits: seq<int>, v: real): (i: nat)
    ensures i <= |fits|
    ensures forall k :: 0 <= k < i ==> fits[k] as real <= v
    ensures i < |fits| ==> fits[i] as real > v
  {
    if |fits| == 0 || fits[0] as real > v then 0 else 1 + FitIndex(fits[1..], v)
  }

  /** `getBestFit(v)`: the first of 4, 8, ..., 1024 that exceeds `v`, or 4
      when none does. */
  function BestFit(v: real): (r: int)
    ensures r in FITS
  {
    var i := FitIndex(FITS, v);
    if i < |FITS| then FITS[i] else 4
  }

  lemma FitsAscend()
    ensures forall a, b :: 0 <= a < b < |FITS| ==> FITS[a] < FITS[b]
  {
  }

  /** Below 1024 the ceiling is the smallest listed value strictly above the
      sample; from 1024 on it falls back to the smallest, 4. */
  lemma BestFitIsLeastCeiling(v: real)
    ensures v < 1024.0 ==> BestFit(v) as real > v
    ensures v < 1024.0 ==> forall k :: 0 <= k < |FITS| && FITS[k] as real > v ==> BestFit(v) <= FITS[k]
    ensures v >= 1024.0 ==> BestFit(v) == 4
  {
    FitsAscend();
    var i := FitIndex(FITS, v);
    if v < 1024.0 {
      assert FITS[|FITS| - 1] as real > v;
      assert i < |FITS|;
    }
  }

  /** The intended ceiling: as `getBestFit` below 1024, and the largest
      ceiling, 1024, from there on. */
  function BestFitCapped(v: real): (r: int)
    ensures r in FITS
    ensures r as real > v || r == 1024
    ensures forall k :: 0 <= k < |FITS| && FITS[k] as real > v ==> r <= FITS[k]
  {
    FitsAscend();
    var i := FitIndex(FITS, v);
    if i < |FITS| then FITS[i] else 1024
  }

  /** A sample of exactly 1024 is not above 1024, so no unit change happens,
      and the axis is set to 4: the plotted point lies far above the axis. */
  lemma SampleOf1024GetsAxis4()
    ensures BestFit(1024.0) == 4 && BestFitCapped(1024.0) == 1024
  {
    BestFitIsLeastCeiling(1024.0);
  }

  // ---------------------------------------------------------------------------
  // RollingChartDynamic.append
  // ---------------------------------------------------------------------------

  /** The chart, its unit scale, and the upper bound of its y axis (512 at
      first). */
  datatype DynChart = DynChart(chart: Chart, scale: Scale, axisMax: real)

  function DynInit(window: int, seriesCount: nat, ladder: seq<Unit>): DynChart {
    DynChart(Init(window, seriesCount), NewScale(ladder), 512.0)
  }

  /** The present values in the current unit; a value whose scaling raises is
      skipped like a `None`. */
  function ScaledValues(s: Scale, values: seq<Option<real>>): (sv: seq<Option<real>>)
    ensures |sv| == |values|
    ensures forall i :: 0 <= i < |values| ==>
              sv[i] == if values[i].Some? then ScaleValue(s, values[i].value) else None
  {
    seq(|values|, i requires 0 <= i < |values| =>
          if values[i].Some? then ScaleValue(s, values[i].value) else None)
  }

  /** Some plotted value, among those paired with one of the `n` series, is
      above 1024 in the current unit. */
  predicate NeedsScaleUp(sv: seq<Option<real>>, n: nat) {
    exists i :: 0 <= i < |sv| && i < n && sv[i].Some? && sv[i].value > 1024.0
  }

  function DivideY(ps: seq<Point>): (r: seq<Point>)
    ensures |r| == |ps|
    ensures forall k :: 0 <= k < |ps| ==> r[k] == Point(ps[k].x, ScaleDown(ps[k].y))
  {
    seq(|ps|, k requires 0 <= k < |ps| => Point(ps[k].x, ScaleDown(ps[k].y)))
  }

  function MultiplyY(ps: seq<Point>): (r: seq<Point>)
    ensures |r| == |ps|
    ensures forall k :: 0 <= k < |ps| ==> r[k] == Point(ps[k].x, ScaleUp(ps[k].y))
  {
    seq(|ps|, k requires 0 <= k < |ps| => Point(ps[k].x, ScaleUp(ps[k].y)))
  }

  function Max(a: real, b: real): real {
    if a < b then b else a
  }

  /** `max(0, y of every point)`: the running `maxV` over one series. */
  function Peak(ps: seq<Point>): (m: real)
    ensures m >= 0.0
    ensures forall k :: 0 <= k < |ps| ==> ps[k].y <= m
    ensures m == 0.0 || exists k :: 0 <= k < |ps| && ps[k].y == m
  {
    if |ps| == 0 then 0.0
    else
      var rest := Peak(ps[1..]);
      assert forall k :: 1 <= k < |ps| ==> ps[k] == ps[1..][k - 1];
      Max(ps[0].y, rest)
  }

  /** `maxV` over every series. */
  function PeakAll(series: seq<seq<Point>>): (m: real)
    ensures m >= 0.0
    ensures forall i, k :: 0 <= i < |series| && 0 <= k < |series[i]| ==> series[i][k].y <= m
  {
    if |series| == 0 then 0.0
    else
      assert forall i :: 1 <= i < |series| ==> series[i] == series[1..][i - 1];
      Max(Peak(series[0]), PeakAll(series[1..]))
  }

  /** `drop`: the last index whose x is below the cut-off, 0 when there is
      none. */
  function LastBelow(ps: seq<Point>, cutoff: int): (drop: nat)
    ensures drop == 0 || drop < |ps|
    ensures drop < |ps| && (drop > 0 || ps[0].x < cutoff) ==> ps[drop].x < cutoff
    ensures forall k :: drop < k < |ps| ==> ps[k].x >= cutoff
  {
    if |ps| == 0 then 0
    else if ps[|ps| - 1].x < cutoff then |ps| - 1
    else LastBelow(ps[..|ps| - 1], cutoff)
  }

  // The stages of one tick, named so that the properties can refer to them.

  function Xnew(d: DynChart): int {
    d.chart.xpos + 1
  }

  function Scaled(d: DynChart, values: seq<Option<real>>): seq<Option<real>> {
    ScaledValues(d.scale, values)
  }

  predicate Up(d: DynChart, values: seq<Option<real>>) {
    NeedsScaleUp(Scaled(d, values), |d.chart.series|)
  }

  /** The series after the new points went in, divided by 1024 if the tick
      scales up. */
  function Divided(d: DynChart, values: seq<Option<real>>): (r: seq<seq<Point>>)
    ensures |r| == |d.chart.series|
  {
    var added := AddPoints(d.chart.series, Scaled(d, values), Xnew(d));
    seq(|added|, i requires 0 <= i < |added| => if Up(d, values) then DivideY(added[i]) else added[i])
  }

  function MaxV(d: DynChart, values: seq<Option<real>>): real {
    PeakAll(Divided(d, values))
  }

  function Kept(d: DynChart, values: seq<Option<real>>): (r: seq<seq<Point>>)
    ensures |r| == |d.chart.series|
  {
    var div := Divided(d, values);
    var cut := Cutoff(Xnew(d), d.chart.window);
    seq(|div|, i requires 0 <= i < |div| => div[i][LastBelow(div[i], cut)..])
  }

  /** `RollingChartDynamic.append`. */
  function DynAppend(d: DynChart, values: seq<Option<real>>): (r: DynChart)
    ensures r.chart.window == d.chart.window && r.chart.xpos == d.chart.xpos + 1
    ensures |r.chart.series| == |d.chart.series|
    ensures r.scale.ladder == d.scale.ladder
  {
    var scale1 := if Up(d, values) then NextScale(d.scale) else d.scale;
    var maxV := MaxV(d, values);
    var kept := Kept(d, values);
    var axis := if maxV > 1.0 then BestFit(maxV) as real else d.axisMax;
    if maxV < 1.0 then
      DynChart(Chart(d.chart.window, Xnew(d), seq(|kept|, i requires 0 <= i < |kept| => MultiplyY(kept[i]))),
               PrevScale(scale1), axis)
    else
      DynChart(Chart(d.chart.window, Xnew(d), kept), scale1, axis)
  }

  // ---------------------------------------------------------------------------
  // Properties of a tick
  // ---------------------------------------------------------------------------

  /** The unit index never leaves the ladder. */
  lemma DynAppendKeepsIndexInRange(d: DynChart, values: seq<Option<real>>)
    requires ValidScale(d.scale)
    ensures ValidScale(DynAppend(d, values).scale)
  {
  }

  /** The axis is refit exactly when the largest point exceeds 1, and then to
      `getBestFit` of it. */
  lemma AxisRefitOnlyAbove1(d: DynChart, values: seq<Option<real>>)
    ensures MaxV(d, values) > 1.0 ==> DynAppend(d, values).axisMax == BestFit(MaxV(d, values)) as real
    ensures MaxV(d, values) <= 1.0 ==> DynAppend(d, values).axisMax == d.axisMax
  {
  }

  /** A tick that scales up keeps a point above 1 after the division, so it
      never also scales down: the unit moves at most one step either way. */
  lemma UpAndDownExclusive(d: DynChart, values: seq<Option<real>>)
    requires Up(d, values)
    ensures MaxV(d, values) > 1.0
    ensures DynAppend(d, values).scale == NextScale(d.scale)
  {
    var sv: seq<Option<real>> := Scaled(d, values);
    var i: nat :| i < |sv| && i < |d.chart.series| && sv[i].Some? && sv[i].value > 1024.0;
    var added: seq<seq<Point>> := AddPoints(d.chart.series, sv, Xnew(d));
    var div: seq<seq<Point>> := Divided(d, values);
    var k := |added[i]| - 1;
    assert added[i][k].y == sv[i].value;
    assert div[i][k].y == ScaleDown(sv[i].value);
    assert div[i][k].y <= MaxV(d, values);
  }

  /** Scaling up at the top of the ladder leaves the unit as it is but still
      divides every kept point by 1024. */
  lemma ScaleUpAtTopStillDivides(d: DynChart, values: seq<Option<real>>, i: nat)
    requires Up(d, values) && d.scale.index + 1 >= |d.scale.ladder|
    requires i < |d.chart.series|
    ensures DynAppend(d, values).scale == d.scale
    ensures var added := AddPoints(d.chart.series, Scaled(d, values), Xnew(d));
            var cut := Cutoff(Xnew(d), d.chart.window);
            DynAppend(d, values).chart.series[i] == DivideY(added[i])[LastBelow(DivideY(added[i]), cut)..]
  {
    UpAndDownExclusive(d, values);
  }

  /** A tick whose points all stay below 1 multiplies every kept point by
      1024, even when the unit is already the lowest and does not change. */
  lemma ScaleDownAtBottomStillMultiplies(d: DynChart, values: seq<Option<real>>, i: nat)
    requires MaxV(d, values) < 1.0 && d.scale.index == 0
    requires i < |d.chart.series|
    ensures DynAppend(d, values).scale == d.scale
    ensures DynAppend(d, values).chart.series[i] == MultiplyY(Kept(d, values)[i])
  {
    if Up(d, values) {
      UpAndDownExclusive(d, values);
    }
  }

  /** What series `i` holds after any tick. The new value, in the current
      unit, is appended at the new `xpos` when present. The whole series is
      divided by 1024 on a scale-up, and the points before `drop` are cut.
      What remains is multiplied by 1024 when the largest point is below 1. */
  lemma DynAppendSeries(d: DynChart, values: seq<Option<real>>, i: nat)
    requires i < |d.chart.series|
    ensures var sv := ScaledValues(d.scale, values);
            var added := if i < |sv| && sv[i].Some? then d.chart.series[i] + [Point(d.chart.xpos + 1, sv[i].value)]
                         else d.chart.series[i];
            var div := if NeedsScaleUp(sv, |d.chart.series|) then DivideY(added) else added;
            var kept := div[LastBelow(div, Cutoff(d.chart.xpos + 1, d.chart.window))..];
            DynAppend(d, values).chart.series[i] == if MaxV(d, values) < 1.0 then MultiplyY(kept) else kept
  {
    DividedSeries(d, values, i);
    KeptSeries(d, values, i);
  }

  /** Series `i` after the new value went in and the optional division. */
  lemma DividedSeries(d: DynChart, values: seq<Option<real>>, i: nat)
    requires i < |d.chart.series|
    ensures var sv := ScaledValues(d.scale, values);
            var added := if i < |sv| && sv[i].Some? then d.chart.series[i] + [Point(d.chart.xpos + 1, sv[i].value)]
                         else d.chart.series[i];
            Divided(d, values)[i] == if NeedsScaleUp(sv, |d.chart.series|) then DivideY(added) else added
  {
    var sv := Scaled(d, values);
    var added := AddPoints(d.chart.series, sv, Xnew(d));
    assert added[i] == if i < |sv| && sv[i].Some? then d.chart.series[i] + [Point(Xnew(d), sv[i].value)]
                       else d.chart.series[i];
  }

  /** Series `i` at the end of the tick: the kept points, multiplied by 1024
      when the largest point is below 1. */
  lemma KeptSeries(d: DynChart, values: seq<Option<real>>, i: nat)
    requires i < |d.chart.series|
    ensures var div := Divided(d, values)[i];
            var kept := div[LastBelow(div, Cutoff(d.chart.xpos + 1, d.chart.window))..];
            DynAppend(d, values).chart.series[i] == if MaxV(d, values) < 1.0 then MultiplyY(kept) else kept
  {
    var kept := Kept(d, values);
    assert kept[i] == Divided(d, values)[i][LastBelow(Divided(d, values)[i], Cutoff(Xnew(d), d.chart.window))..];
  }

  /** A present value whose scaling does not raise becomes the last point of
      its series, at the new `xpos`: divided by 1024 on a scale-up, multiplied
      by 1024 when every point is below 1, as scaled otherwise. */
  lemma NewValueIsLastPoint(d: DynChart, values: seq<Option<real>>, i: nat)
    requires i < |d.chart.series| && i < |values| && values[i].Some?
    requires ScaleValue(d.scale, values[i].value).Some?
    ensures var v := ScaleValue(d.scale, values[i].value).value;
            var s := DynAppend(d, values).chart.series[i];
            |s| > 0 &&
            s[|s| - 1] == Point(d.chart.xpos + 1,
                                if Up(d, values) then ScaleDown(v)
                                else if MaxV(d, values) < 1.0 then ScaleUp(v)
                                else v)
  {
    var v := ScaleValue(d.scale, values[i].value).value;
    var x := d.chart.xpos + 1;
    var cutoff := Cutoff(x, d.chart.window);
    var added := d.chart.series[i] + [Point(x, v)];
    var div := Divided(d, values)[i];
    var s := DynAppend(d, values).chart.series[i];
    assert div == if Up(d, values) then DivideY(added) else added by {
      var sv := ScaledValues(d.scale, values);
      assert sv[i] == Some(v);
      DividedSeries(d, values, i);
    }
    assert s == if MaxV(d, values) < 1.0 then MultiplyY(div[LastBelow(div, cutoff)..]) else div[LastBelow(div, cutoff)..] by {
      KeptSeries(d, values, i);
    }
    if Up(d, values) {
      UpAndDownExclusive(d, values);
    }
    LastPointOfTick(d.chart.series[i], x, v, Up(d, values), MaxV(d, values) < 1.0, cutoff, div, s);
  }

  /** A point appended last is still last after the optional division, the
      trim and the optional multiplication, with its y scaled accordingly. */
  lemma LastPointOfTick(ps: seq<Point>, x: int, v: real, up: bool, small: bool, cutoff: int,
                        div: seq<Point>, s: seq<Point>)
    requires up ==> !small
    requires div == if up then DivideY(ps + [Point(x, v)]) else ps + [Point(x, v)]
    requires s == if small then MultiplyY(div[LastBelow(div, cutoff)..]) else div[LastBelow(div, cutoff)..]
    ensures |s| > 0 && s[|s| - 1] == Point(x, if up then ScaleDown(v) else if small then ScaleUp(v) else v)
  {
    assert div[|div| - 1] == Point(x, if up then ScaleDown(v) else v);
    var kept := div[LastBelow(div, cutoff)..];
    assert kept[|kept| - 1] == div[|div| - 1];
  }

  /** The trim keeps `points[drop:]`: when a series had points below the
      cut-off, exactly one of them, the last, survives at the front. */
  lemma OneStalePointRetained(ps: seq<Point>, cutoff: int)
    requires Increasing(ps)
    ensures var kept := ps[LastBelow(ps, cutoff)..];
            (exists k :: 0 <= k < |ps| && ps[k].x < cutoff) ==>
              (|kept| > 0 && kept[0].x < cutoff && forall k :: 1 <= k < |kept| ==> kept[k].x >= cutoff)
    ensures (forall k :: 0 <= k < |ps| ==> ps[k].x >= cutoff) ==> ps[LastBelow(ps, cutoff)..] == ps
  {
    var drop := LastBelow(ps, cutoff);
    if exists k :: 0 <= k < |ps| && ps[k].x < cutoff {
      var k :| 0 <= k < |ps| && ps[k].x < cutoff;
      assert ps[0].x <= ps[k].x;
    }
  }
}
