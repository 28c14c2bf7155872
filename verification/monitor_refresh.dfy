/**
 One timer tick of the monitor window (`MonitorWindow.refresh_metrics`).

 Each reading is taken inside its own handler. A reading that raises becomes
 `None`, and `None` values add no point, so one failed sensor never stops
 the tick or the other charts. The readings themselves are inputs: their
 producers are modelled in `SmartTemp`, `Sensors`, `BlockStats` and `CpuLoad`.
 */
module MonitorRefresh {
  import opened Common
  import opened OrderedMap
  import opened RollingChart
  import opened AutoScale

  /** What the five readings of one tick returned or raised. */
  datatype Readings = Readings(
    cpuTemp: Result<real, PyError>,              // float(sysdata.CPUTemperature)
    fanSpeed: Result<int, PyError>,              // sysdata.fanSpeed
    nvmeTemp: Result<real, PyError>,             // sysdata.driveTemp
    rw: Result<Dict<(int, int)>, PyError>,       // multiDrive.readWriteBytes()
    percentages: Result<Dict<real>, PyError>)    // cpuload.getPercentages()

  /** The four charts of the window. */
  datatype Window = Window(cpuChart: Chart, fanChart: Chart, ioChart: DynChart, useChart: Chart)

  function OrNone<T>(r: Result<T, PyError>): (o: Option<T>)
    ensures o.Some? <==> r.Ok?
    ensures o.Some? ==> o.value == r.value
  {
    if r.Ok? then Some(r.value) else None
  }

  /** `rwData`: read and write of every drive in dictionary order, or
      `[None, None]` when the reading raised. */
  function RwData(rw: Result<Dict<(int, int)>, PyError>): (v: seq<Option<real>>)
    ensures rw.Err? ==> v == [None, None]
    ensures rw.Ok? ==> |v| == 2 * |rw.value|
    ensures rw.Ok? ==> forall k :: 0 <= k < |rw.value| ==>
              v[2 * k] == Some(rw.value[k].1.0 as real) && v[2 * k + 1] == Some(rw.value[k].1.1 as real)
  {
    match rw
    case Err(_) => [None, None]
    case Ok(d) => Flatten(d)
  }

  function Flatten(d: Dict<(int, int)>): (v: seq<Option<real>>)
    ensures |v| == 2 * |d|
    ensures forall k :: 0 <= k < |d| ==> v[2 * k] == Some(d[k].1.0 as real) && v[2 * k + 1] == Some(d[k].1.1 as real)
  {
    if |d| == 0 then []
    else
      var rest := Flatten(d[1..]);
      assert forall k :: 1 <= k < |d| ==> d[k] == d[1..][k - 1];
      [Some(d[0].1.0 as real), Some(d[0].1.1 as real)] + rest
  }

  /** `values`: the figure of every name in `cpuNames`, or one `None` per
      name when `getPercentages` raised or a name has no figure. */
  function LoadValues(pct: Result<Dict<real>, PyError>, names: seq<string>): (v: seq<Option<real>>)
    ensures |v| == |names|
    ensures pct.Ok? && (forall i :: 0 <= i < |names| ==> HasKey(pct.value, names[i])) ==>
              forall i :: 0 <= i < |names| ==> v[i] == Some(Get(pct.value, names[i]))
    ensures (pct.Err? || exists i :: 0 <= i < |names| && !HasKey(pct.value, names[i])) ==>
              forall i :: 0 <= i < |names| ==> v[i] == None
  {
    if pct.Ok? && forall i :: 0 <= i < |names| ==> HasKey(pct.value, names[i]) then
      seq(|names|, i requires 0 <= i < |names| && HasKey(pct.value, names[i]) => Some(Get(pct.value, names[i])))
    else
      seq(|names|, i => None)
  }

  /** `refresh_metrics`: every chart gets exactly one append. */
  function Refresh(w: Window, r: Readings, cpuNames: seq<string>): (w2: Window)
    ensures w2.cpuChart.xpos == w.cpuChart.xpos + 1
    ensures w2.fanChart.xpos == w.fanChart.xpos + 1
    ensures w2.ioChart.chart.xpos == w.ioChart.chart.xpos + 1
    ensures w2.useChart.xpos == w.useChart.xpos + 1
  {
    var fan := if r.fanSpeed.Ok? then Some(r.fanSpeed.value as real) else None;
    Window(
      Append(w.cpuChart, [OrNone(r.cpuTemp), OrNone(r.nvmeTemp)]),
      Append(w.fanChart, [fan]),
      DynAppend(w.ioChart, RwData(r.rw)),
      Append(w.useChart, LoadValues(r.percentages, cpuNames)))
  }

  // ---------------------------------------------------------------------------
  // Properties
  // ---------------------------------------------------------------------------

  /** A sensor that raised leaves a gap in its series, never a zero: the
      series gains no point this tick. */
  lemma FailedTemperatureIsAGap(w: Window, r: Readings, cpuNames: seq<string>)
    requires r.cpuTemp.Err? && |w.cpuChart.series| > 0
    ensures Refresh(w, r, cpuNames).cpuChart.series[0] ==
              Trim(w.cpuChart.series[0], Cutoff(w.cpuChart.xpos + 1, w.cpuChart.window))
  {
  }

  /** A failed I/O reading plots nothing in any I/O series: the two `None`
      values scale to nothing and add no point. */
  lemma FailedIoAddsNoPoint(io: DynChart, rw: Result<Dict<(int, int)>, PyError>)
    requires rw.Err?
    ensures !Up(io, RwData(rw))
    ensures Divided(io, RwData(rw)) == io.chart.series
  {
    var sv := Scaled(io, RwData(rw));
    assert forall i :: 0 <= i < |sv| ==> sv[i] == None;
    var added := AddPoints(io.chart.series, sv, Xnew(io));
    assert added == io.chart.series;
  }

  /** Which append each chart of the window receives. */
  lemma RefreshCharts(w: Window, r: Readings, cpuNames: seq<string>)
    ensures Refresh(w, r, cpuNames).cpuChart == Append(w.cpuChart, [OrNone(r.cpuTemp), OrNone(r.nvmeTemp)])
    ensures Refresh(w, r, cpuNames).fanChart ==
              Append(w.fanChart, [if r.fanSpeed.Ok? then Some(r.fanSpeed.value as real) else None])
    ensures Refresh(w, r, cpuNames).ioChart == DynAppend(w.ioChart, RwData(r.rw))
  {
  }

  /** A temperature or fan reading that succeeded is the last point of its
      series, at the new x. */
  lemma ReadingsArePlotted(w: Window, r: Readings, cpuNames: seq<string>)
    requires WellFormed(w.cpuChart) && w.cpuChart.window >= 0 && w.cpuChart.xpos + 1 >= 0
    requires WellFormed(w.fanChart) && w.fanChart.window >= 0 && w.fanChart.xpos + 1 >= 0
    requires |w.cpuChart.series| >= 2 && |w.fanChart.series| >= 1
    ensures var s := Refresh(w, r, cpuNames).cpuChart.series[0];
            r.cpuTemp.Ok? ==> |s| > 0 && s[|s| - 1] == Point(w.cpuChart.xpos + 1, r.cpuTemp.value)
    ensures var s := Refresh(w, r, cpuNames).cpuChart.series[1];
            r.nvmeTemp.Ok? ==> |s| > 0 && s[|s| - 1] == Point(w.cpuChart.xpos + 1, r.nvmeTemp.value)
    ensures var s := Refresh(w, r, cpuNames).fanChart.series[0];
            r.fanSpeed.Ok? ==> |s| > 0 && s[|s| - 1] == Point(w.fanChart.xpos + 1, r.fanSpeed.value as real)
  {
    CpuTempIsPlotted(w, r, cpuNames);
    NvmeTempIsPlotted(w, r, cpuNames);
    FanSpeedIsPlotted(w, r, cpuNames);
  }

  lemma CpuTempIsPlotted(w: Window, r: Readings, cpuNames: seq<string>)
    requires WellFormed(w.cpuChart) && w.cpuChart.window >= 0 && w.cpuChart.xpos + 1 >= 0
    requires |w.cpuChart.series| >= 2
    ensures var s := Refresh(w, r, cpuNames).cpuChart.series[0];
            r.cpuTemp.Ok? ==> |s| > 0 && s[|s| - 1] == Point(w.cpuChart.xpos + 1, r.cpuTemp.value)
  {
    RefreshCharts(w, r, cpuNames);
    NewPointAtXpos(w.cpuChart, [OrNone(r.cpuTemp), OrNone(r.nvmeTemp)], 0);
  }

  lemma NvmeTempIsPlotted(w: Window, r: Readings, cpuNames: seq<string>)
    requires WellFormed(w.cpuChart) && w.cpuChart.window >= 0 && w.cpuChart.xpos + 1 >= 0
    requires |w.cpuChart.series| >= 2
    ensures var s := Refresh(w, r, cpuNames).cpuChart.series[1];
            r.nvmeTemp.Ok? ==> |s| > 0 && s[|s| - 1] == Point(w.cpuChart.xpos + 1, r.nvmeTemp.value)
  {
    RefreshCharts(w, r, cpuNames);
    NewPointAtXpos(w.cpuChart, [OrNone(r.cpuTemp), OrNone(r.nvmeTemp)], 1);
  }

  lemma FanSpeedIsPlotted(w: Window, r: Readings, cpuNames: seq<string>)
    requires WellFormed(w.fanChart) && w.fanChart.window >= 0 && w.fanChart.xpos + 1 >= 0
    requires |w.fanChart.series| >= 1
    ensures var s := Refresh(w, r, cpuNames).fanChart.series[0];
            r.fanSpeed.Ok? ==> |s| > 0 && s[|s| - 1] == Point(w.fanChart.xpos + 1, r.fanSpeed.value as real)
  {
    RefreshCharts(w, r, cpuNames);
    NewPointAtXpos(w.fanChart, [if r.fanSpeed.Ok? then Some(r.fanSpeed.value as real) else None], 0);
  }

  /** Drive `k`'s read figure is entry `2 * k` of `rwData`. */
  lemma ReadFigureAt(rw: Result<Dict<(int, int)>, PyError>, k: nat)
    requires rw.Ok? && k < |rw.value|
    ensures 2 * k < |RwData(rw)| && RwData(rw)[2 * k] == Some(rw.value[k].1.0 as real)
  {
  }

  /** The read figure of drive `k` lands in I/O series `2 * k` at the new x,
      in the current unit, and rescaled with the rest of the tick. */
  lemma IoReadingIsPlotted(w: Window, r: Readings, cpuNames: seq<string>, k: nat)
    requires r.rw.Ok? && k < |r.rw.value| && 2 * k < |w.ioChart.chart.series|
    requires ScaleValue(w.ioChart.scale, r.rw.value[k].1.0 as real).Some?
    ensures var v := ScaleValue(w.ioChart.scale, r.rw.value[k].1.0 as real).value;
            var vs := RwData(r.rw);
            var s := Refresh(w, r, cpuNames).ioChart.chart.series[2 * k];
            |s| > 0 &&
            s[|s| - 1] == Point(w.ioChart.chart.xpos + 1,
                                if Up(w.ioChart, vs) then ScaleDown(v)
                                else if MaxV(w.ioChart, vs) < 1.0 then ScaleUp(v)
                                else v)
  {
    ReadFigureAt(r.rw, k);
    RefreshCharts(w, r, cpuNames);
    NewValueIsLastPoint(w.ioChart, RwData(r.rw), 2 * k);
  }

  /** When every reading succeeds, each CPU series receives its own figure
      at the new x. */
  lemma LoadFiguresGoToTheirSeries(w: Window, r: Readings, cpuNames: seq<string>, i: nat)
    requires WellFormed(w.useChart) && w.useChart.window >= 0 && w.useChart.xpos + 1 >= 0
    requires r.percentages.Ok? && forall j :: 0 <= j < |cpuNames| ==> HasKey(r.percentages.value, cpuNames[j])
    requires i < |cpuNames| && i < |w.useChart.series|
    ensures var s := Refresh(w, r, cpuNames).useChart.series[i];
            |s| > 0 && s[|s| - 1] == Point(w.useChart.xpos + 1, Get(r.percentages.value, cpuNames[i]))
  {
    NewPointAtXpos(w.useChart, LoadValues(r.percentages, cpuNames), i);
  }
}
