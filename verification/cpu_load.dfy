/**
 Per-core CPU utilisation from `/proc/stat`: the `CPULoad` class, in its two
 variants (systemsupport.py zeroes the first baseline, cpuload.py keeps the
 real first reading).

 The lines of `/proc/stat` are an input. A row is kept when its first token is
 longer than three characters and starts with "cpu", so the aggregate "cpu"
 row is not. Percentages are exact reals: `round(x, 2)` is not modelled.
 */
module CpuLoad {
  import opened Common
  import opened Text
  import opened OrderedMap

  /** Cumulative (total, idle) jiffies of one core. */
  datatype Times = Times(total: int, idle: int)

  /** How the constructor sets the first baseline. */
  datatype Variant =
    | ZeroBaseline   // systemsupport.py: every core reset to (0, 0)
    | FirstReading   // cpuload.py: the snapshot read by the constructor

  /** `_previousData` and `_names`. */
  datatype Load = Load(previous: Dict<Times>, names: seq<string>)

  /** `line.replace('\t', ' ').strip().split()`. */
  function Tokens(line: string): seq<string> {
    Words(Strip(Replace(line, '\t', ' ')))
  }

  /** `len(cpu[0]) > 3 and cpu[0][:3] == "cpu"`. */
  predicate IsCoreName(name: string) {
    |name| > 3 && name[..3] == "cpu"
  }

  function Sum(v: seq<int>): int {
    if |v| == 0 then 0 else v[0] + Sum(v[1..])
  }

  lemma {:induction false} SumAppend(a: seq<int>, b: seq<int>)
    ensures Sum(a + b) == Sum(a) + Sum(b)
  {
    if |a| == 0 {
      assert a + b == b;
    } else {
      assert (a + b)[1..] == a[1..] + b;
      SumAppend(a[1..], b);
    }
  }

  lemma {:induction false} SumNonNegative(v: seq<int>)
    requires forall i :: 0 <= i < |v| ==> v[i] >= 0
    ensures Sum(v) >= 0
  {
    if |v| > 0 {
      SumNonNegative(v[1..]);
    }
  }

  /** The field at position `i` of a row, counting the name as position 0,
      and 0 when the row is shorter. */
  function FieldOr0(v: seq<int>, i: nat): int {
    if 1 <= i <= |v| then v[i - 1] else 0
  }

  /** The (total, idle) of one kept row: total sums every field after the name,
      idle is fields 4 and 5 (idle and iowait). A field that is not an integer
      raises ValueError. */
  function RowTimes(row: seq<string>): (r: Result<Times, PyError>)
    requires |row| > 0
    ensures r.Ok? <==> ParseAll(row[1..]).Some?
    ensures r.Err? ==> r.error == ValueError
    ensures r.Ok? ==> var v := ParseAll(row[1..]).value;
                      r.value == Times(Sum(v), FieldOr0(v, 4) + FieldOr0(v, 5))
  {
    match ParseAll(row[1..])
    case None => Err(ValueError)
    case Some(v) => Ok(Times(Sum(v), FieldOr0(v, 4) + FieldOr0(v, 5)))
  }

  /** With non-negative counters the idle part never exceeds the total. */
  lemma IdleAtMostTotal(v: seq<int>)
    requires forall i :: 0 <= i < |v| ==> v[i] >= 0
    ensures 0 <= FieldOr0(v, 4) + FieldOr0(v, 5) <= Sum(v)
  {
    if |v| >= 5 {
      assert FieldOr0(v, 4) + FieldOr0(v, 5) == v[3] + v[4];
      assert Sum([v[3], v[4]]) == v[3] + Sum([v[4]]);
      assert Sum([v[4]]) == v[4] + Sum([]);
      assert v == v[..3] + [v[3], v[4]] + v[5..];
      SumAppend(v[..3] + [v[3], v[4]], v[5..]);
      SumAppend(v[..3], [v[3], v[4]]);
      SumNonNegative(v[..3]);
      SumNonNegative(v[5..]);
    } else if |v| == 4 {
      assert FieldOr0(v, 4) + FieldOr0(v, 5) == v[3];
      assert Sum([v[3]]) == v[3] + Sum([]);
      assert v == v[..3] + [v[3]];
      SumAppend(v[..3], [v[3]]);
      SumNonNegative(v[..3]);
    } else {
      SumNonNegative(v);
    }
  }

  /** The token rows of `/proc/stat`, one per line. */
  function Rows(lines: seq<string>): (rows: seq<seq<string>>)
    ensures |rows| == |lines|
    ensures forall i :: 0 <= i < |lines| ==> rows[i] == Tokens(lines[i])
  {
    seq(|lines|, i requires 0 <= i < |lines| => Tokens(lines[i]))
  }

  /** A row that `_getRawData` gets through: it has a first token, and when
      that token names a core every later field is an integer. */
  predicate RowOk(row: seq<string>) {
    |row| > 0 && (IsCoreName(row[0]) ==> RowTimes(row).Ok?)
  }

  /** The core names of the rows, in order, repeats included: an independent
      description of which keys `_getRawData` produces. */
  function CoreNames(rows: seq<seq<string>>): (names: seq<string>)
    ensures forall k :: k in names ==> IsCoreName(k)
  {
    if |rows| == 0 then []
    else (if |rows[0]| > 0 && IsCoreName(rows[0][0]) then [rows[0][0]] else []) + CoreNames(rows[1..])
  }

  lemma PutKeys<V>(d: Dict<V>, k: string, v: V)
    requires DistinctKeys(d)
    ensures forall j :: HasKey(Put(d, k, v), j) <==> HasKey(d, j) || j == k
  {
    PutKeepsKeys(d, k, v);
    PutAddsOnly(d, k, v);
  }

  /** `_getRawData` over token rows, continuing from the dictionary built so far. */
  function RawDataFrom(rows: seq<seq<string>>, acc: Dict<Times>): (r: Result<Dict<Times>, PyError>)
    requires DistinctKeys(acc)
    ensures r.Ok? <==> forall i :: 0 <= i < |rows| ==> RowOk(rows[i])
    ensures r.Err? ==> r.error in {IndexError, ValueError}
    ensures r.Ok? ==> DistinctKeys(r.value)
    ensures r.Ok? ==> forall k :: HasKey(r.value, k) <==> HasKey(acc, k) || k in CoreNames(rows)
  {
    if |rows| == 0 then Ok(acc)
    else
      assert forall i :: 1 <= i < |rows| ==> rows[1..][i - 1] == rows[i];
      var t := rows[0];
      if |t| == 0 then Err(IndexError)  // cpu[0] of an empty token list
      else if !IsCoreName(t[0]) then RawDataFrom(rows[1..], acc)
      else
        match RowTimes(t)
        case Err(e) => Err(e)
        case Ok(times) =>
          PutKeys(acc, t[0], times);
          RawDataFrom(rows[1..], Put(acc, t[0], times))
  }

  /** Row `row` is a core row named `k`. */
  predicate NamesCore(row: seq<string>, k: string) {
    |row| > 0 && IsCoreName(row[0]) && row[0] == k
  }

  /** The position of the last core row named `k`, -1 when there is none. */
  function LastCoreRow(rows: seq<seq<string>>, k: string): (i: int)
    ensures -1 <= i < |rows|
    ensures i >= 0 ==> NamesCore(rows[i], k) && forall j :: i < j < |rows| ==> !NamesCore(rows[j], k)
    ensures i < 0 ==> forall j :: 0 <= j < |rows| ==> !NamesCore(rows[j], k)
  {
    if |rows| == 0 then -1
    else
      var j := LastCoreRow(rows[1..], k);
      assert forall m :: 1 <= m < |rows| ==> rows[1..][m - 1] == rows[m];
      if j >= 0 then j + 1
      else if NamesCore(rows[0], k) then 0
      else -1
  }

  /** A name is among the core names exactly when some core row carries it. */
  lemma {:induction false} CoreNamesHasLastRow(rows: seq<seq<string>>, k: string)
    ensures k in CoreNames(rows) <==> LastCoreRow(rows, k) >= 0
  {
    if |rows| > 0 {
      CoreNamesHasLastRow(rows[1..], k);
    }
  }

  /** `names` with its repeats dropped, each kept at its first occurrence,
      appended to `seen`: the order in which a `dict` first meets its keys. */
  function FirstOccurrences(seen: seq<string>, names: seq<string>): seq<string>
    decreases |names|
  {
    if |names| == 0 then seen
    else FirstOccurrences(if names[0] in seen then seen else seen + [names[0]], names[1..])
  }

  /** The entries `_getRawData` builds are listed in the order their names
      first occur among the core rows. */
  lemma {:induction false} RawDataFromOrder(rows: seq<seq<string>>, acc: Dict<Times>)
    requires DistinctKeys(acc) && RawDataFrom(rows, acc).Ok?
    ensures Keys(RawDataFrom(rows, acc).value) == FirstOccurrences(Keys(acc), CoreNames(rows))
  {
    if |rows| > 0 {
      var t := rows[0];
      var rest := CoreNames(rows[1..]);
      if IsCoreName(t[0]) {
        var times := RowTimes(t).value;
        var acc1 := Put(acc, t[0], times);
        KeysAreHasKey(acc);
        assert CoreNames(rows) == [t[0]] + rest;
        assert ([t[0]] + rest)[1..] == rest;
        RawDataFromOrder(rows[1..], acc1);
      } else {
        assert CoreNames(rows) == rest;
        RawDataFromOrder(rows[1..], acc);
      }
    }
  }

  /** Each entry `_getRawData` builds holds the times of the last core row
      with its name, or, for a name no row carries, the value it started with. */
  lemma {:induction false} RawDataFromValues(rows: seq<seq<string>>, acc: Dict<Times>, k: string)
    requires DistinctKeys(acc) && RawDataFrom(rows, acc).Ok?
    requires HasKey(RawDataFrom(rows, acc).value, k)
    ensures var i := LastCoreRow(rows, k);
            if i >= 0 then RowTimes(rows[i]) == Ok(Get(RawDataFrom(rows, acc).value, k))
            else HasKey(acc, k) && Get(RawDataFrom(rows, acc).value, k) == Get(acc, k)
  {
    CoreNamesHasLastRow(rows, k);
    if |rows| > 0 {
      var t := rows[0];
      assert forall m :: 1 <= m < |rows| ==> rows[1..][m - 1] == rows[m];
      if IsCoreName(t[0]) {
        var times := RowTimes(t).value;
        var acc1 := Put(acc, t[0], times);
        RawDataFromValues(rows[1..], acc1, k);
        if t[0] != k {
          PutKeepsOthers(acc, t[0], times, k);
        }
      } else {
        RawDataFromValues(rows[1..], acc, k);
      }
    }
  }

  /** `_getRawData`: one (total, idle) entry per core row, keyed by its name;
      a later row with the same name overwrites an earlier one. */
  function RawData(lines: seq<string>): (r: Result<Dict<Times>, PyError>)
    ensures r.Ok? <==> forall i :: 0 <= i < |lines| ==> RowOk(Rows(lines)[i])
    ensures r.Ok? ==> DistinctKeys(r.value)
    ensures r.Ok? ==> forall k :: HasKey(r.value, k) <==> k in CoreNames(Rows(lines))
  {
    RawDataFrom(Rows(lines), [])
  }

  /** The value `_getRawData` stores under a name is the (total, idle) of the
      last core row with that name: a later row overwrites an earlier one. */
  lemma RawDataValues(lines: seq<string>, k: string)
    requires RawData(lines).Ok? && HasKey(RawData(lines).value, k)
    ensures var rows := Rows(lines);
            var i := LastCoreRow(rows, k);
            0 <= i < |lines| && RowTimes(rows[i]) == Ok(Get(RawData(lines).value, k)) &&
            forall j :: i < j < |lines| ==> !NamesCore(rows[j], k)
  {
    RawDataFromValues(Rows(lines), [], k);
  }

  /** The entries are in the order their names first appear in the file. */
  lemma RawDataOrder(lines: seq<string>)
    requires RawData(lines).Ok?
    ensures Keys(RawData(lines).value) == FirstOccurrences([], CoreNames(Rows(lines)))
  {
    RawDataFromOrder(Rows(lines), []);
  }

  /** The aggregate "cpu" row never becomes an entry, nor does any row whose
      name is not a per-core name. */
  lemma AggregateRowExcluded(lines: seq<string>, k: string)
    requires RawData(lines).Ok? && HasKey(RawData(lines).value, k)
    ensures IsCoreName(k) && k != "cpu"
  {
  }

  // ---------------------------------------------------------------------------
  // The object
  // ---------------------------------------------------------------------------

  function Zeroed(d: Dict<Times>): (z: Dict<Times>)
    ensures Keys(z) == Keys(d)
    ensures forall i :: 0 <= i < |z| ==> z[i].1 == Times(0, 0)
  {
    seq(|d|, i requires 0 <= i < |d| => (d[i].0, Times(0, 0)))
  }

  /** `CPULoad()`: one reading; `cpuNames` lists its keys in insertion order. */
  function Init(lines: seq<string>, variant: Variant): (r: Result<Load, PyError>)
    ensures r.Ok? <==> RawData(lines).Ok?
    ensures r.Ok? ==> r.value.names == Keys(RawData(lines).value)
    ensures r.Ok? ==> Keys(r.value.previous) == r.value.names
    ensures r.Ok? && variant == FirstReading ==> r.value.previous == RawData(lines).value
    ensures r.Ok? && variant == ZeroBaseline ==>
              forall i :: 0 <= i < |r.value.previous| ==> r.value.previous[i].1 == Times(0, 0)
  {
    match RawData(lines)
    case Err(e) => Err(e)
    case Ok(d) => Ok(Load(if variant == ZeroBaseline then Zeroed(d) else d, Keys(d)))
  }

  /** `len(load)`: the number of per-core entries in the baseline. */
  function Len(l: Load): nat {
    |l.previous|
  }

  /** `((total - idle) / total) * 100` over the interval from `before` to `now`. */
  function Utilisation(before: Times, now: Times): real
    requires now.total != before.total
  {
    var total := now.total - before.total;
    var idle := now.idle - before.idle;
    ((total - idle) as real / total as real) * 100.0
  }

  /** The exception one core raises, if any: KeyError for a core missing from
      the baseline, ZeroDivisionError when its total did not move. */
  function ItemError(previous: Dict<Times>, k: string, now: Times): Option<PyError> {
    if !HasKey(previous, k) then Some(KeyError)
    else if now.total == Get(previous, k).total then Some(ZeroDivisionError)
    else None
  }

  /** The exception of the first failing core, in the order of `current`. */
  function FirstError(previous: Dict<Times>, current: Dict<Times>): (e: Option<PyError>)
    ensures e.None? <==> forall i :: 0 <= i < |current| ==> ItemError(previous, current[i].0, current[i].1).None?
    ensures e.Some? ==> e.value in {KeyError, ZeroDivisionError}
  {
    if |current| == 0 then None
    else
      assert forall i :: 1 <= i < |current| ==> current[1..][i - 1] == current[i];
      var e := ItemError(previous, current[0].0, current[0].1);
      if e.Some? then e else FirstError(previous, current[1..])
  }

  /** The loop of `getPercentages`: one utilisation per core of `current`,
      in its order, each measured against that core's baseline entry; the
      first core that fails raises. */
  function Percentages(previous: Dict<Times>, current: Dict<Times>): (r: Result<Dict<real>, PyError>)
    ensures r.Ok? <==> forall i :: 0 <= i < |current| ==> ItemError(previous, current[i].0, current[i].1).None?
    ensures r.Err? ==> r.error in {KeyError, ZeroDivisionError}
    ensures r.Ok? ==> Keys(r.value) == Keys(current)
    ensures r.Ok? ==> forall i :: 0 <= i < |current| ==>
              HasKey(previous, current[i].0) && current[i].1.total != Get(previous, current[i].0).total &&
              r.value[i].1 == Utilisation(Get(previous, current[i].0), current[i].1)
  {
    match FirstError(previous, current)
    case Some(e) => Err(e)
    case None =>
      assert forall i :: 0 <= i < |current| ==> ItemError(previous, current[i].0, current[i].1).None?;
      Ok(seq(|current|, i requires 0 <= i < |current| =>
               (current[i].0, Utilisation(Get(previous, current[i].0), current[i].1))))
  }

  /** `getPercentages`: a new reading, its figures against the baseline, and
      then the baseline becomes the new reading. An exception, in the reading
      or in the loop, leaves the baseline as it was. */
  function GetPercentages(l: Load, lines: seq<string>): (r: (Load, Result<Dict<real>, PyError>))
    ensures r.1.Err? ==> r.0 == l
    ensures r.1.Ok? <==> RawData(lines).Ok? && Percentages(l.previous, RawData(lines).value).Ok?
    ensures r.1.Ok? ==> r.0 == l.(previous := RawData(lines).value)
    ensures r.1.Ok? ==> r.1 == Percentages(l.previous, RawData(lines).value)
  {
    match RawData(lines)
    case Err(e) => (l, Err(e))
    case Ok(cur) =>
      match Percentages(l.previous, cur)
      case Err(e) => (l, Err(e))
      case Ok(pct) => (l.(previous := cur), Ok(pct))
  }

  // ---------------------------------------------------------------------------
  // Properties
  // ---------------------------------------------------------------------------

  /** When idle time advanced by no more than total time, and total time did
      advance, the utilisation is a percentage. */
  lemma UtilisationInRange(before: Times, now: Times)
    requires 0 <= now.idle - before.idle <= now.total - before.total
    requires now.total - before.total > 0
    ensures 0.0 <= Utilisation(before, now) <= 100.0
  {
    var total := (now.total - before.total) as real;
    var busy := (now.total - before.total - (now.idle - before.idle)) as real;
    assert 0.0 <= busy <= total;
    assert busy / total <= 1.0 by {
      assert busy / total * total == busy;
    }
  }

  /** An interval that was half idle reads as 50%. */
  lemma HalfIdleIsFifty(before: Times, now: Times)
    requires now.total - before.total == 2 * (now.idle - before.idle) > 0
    ensures Utilisation(before, now) == 50.0
  {
    var x := (now.idle - before.idle) as real;
    assert (now.total - before.total) as real == 2.0 * x;
    assert ((now.total - before.total) - (now.idle - before.idle)) as real == x;
    assert x / (2.0 * x) == 0.5;
  }

  /** Once the baseline has been zeroed, a core's figure is its cumulative
      busy share since boot. */
  lemma ZeroBaselineMeasuresSinceBoot(l: Load, k: string, now: Times)
    requires HasKey(l.previous, k) && Get(l.previous, k) == Times(0, 0) && now.total != 0
    ensures Utilisation(Get(l.previous, k), now) == ((now.total - now.idle) as real / now.total as real) * 100.0
  {
  }

  /** Two successful calls measure adjacent intervals: the second is taken
      against exactly the reading the first one returned figures for. */
  lemma ConsecutiveCallsAreAdjacent(l: Load, lines1: seq<string>, lines2: seq<string>)
    requires GetPercentages(l, lines1).1.Ok?
    ensures var l1 := GetPercentages(l, lines1).0;
            l1.previous == RawData(lines1).value &&
            (GetPercentages(l1, lines2).1.Ok? ==> GetPercentages(l1, lines2).0.previous == RawData(lines2).value)
    ensures GetPercentages(l, lines1).0.names == l.names
  {
  }

  /** A core that appears after construction makes the call raise KeyError
      when it is the first failing core; a zero-length interval raises
      ZeroDivisionError. There is no guard for either. */
  lemma MissingCoreRaises(previous: Dict<Times>, current: Dict<Times>)
    requires |current| > 0 && !HasKey(previous, current[0].0)
    ensures Percentages(previous, current) == Err(KeyError)
  {
  }

  lemma StalledCoreRaises(previous: Dict<Times>, current: Dict<Times>)
    requires |current| > 0 && HasKey(previous, current[0].0)
    requires Get(previous, current[0].0).total == current[0].1.total
    ensures Percentages(previous, current) == Err(ZeroDivisionError)
  {
  }

  /** `len()` counts the per-core rows of the constructor's reading. */
  lemma LenCountsCores(lines: seq<string>, variant: Variant)
    requires Init(lines, variant).Ok?
    ensures Len(Init(lines, variant).value) == |Init(lines, variant).value.names|
    ensures forall k :: k in Init(lines, variant).value.names <==> k in CoreNames(Rows(lines))
  {
    var d := RawData(lines).value;
    var l := Init(lines, variant).value;
    assert l.names == Keys(d);
    assert Keys(l.previous) == l.names;
    KeysAreHasKey(d);
  }

}
