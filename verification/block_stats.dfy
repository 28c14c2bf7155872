/**
 Block-device counter sampling: the `DriveStats` / `DriveStat` readers (three
 near-identical copies) and the `multiDriveStat` drive filter.

 A reader keeps the previous snapshot of `/sys/block/<dev>/stat` and hands out
 element-wise differences between consecutive snapshots. The file content is
 an input here: `Some(text)` when the open and read succeeded, `None` when
 they raised.
 */
module BlockStats {
  import opened Common
  import opened Text
  import opened OrderedMap

  // Field positions of the kernel's block/stat schema.
  const READ_IOS := 0
  const READ_MERGES := 1
  const READ_SECTORS := 2
  const READ_TICKS := 3
  const WRITE_IOS := 4
  const WRITE_MERGES := 5
  const WRITE_SECTORS := 6
  const WRITE_TICKS := 7
  const IN_FLIGHT := 8
  const IO_TICKS := 9
  const TIME_IN_QUEUE := 10
  const DISCARD_IOS := 11
  const DISCARD_MERGES := 12
  const DISCARD_SECTORS := 13
  const DISCARD_TICKS := 14
  const FLUSH_IOS := 15
  const FLUSH_TICKS := 16

  const SECTOR_BYTES := 512

  /** How a failed read of the stat file surfaces. */
  datatype Variant =
    | Swallowing  // systemsupport.py, oneUpSupport.py: printed and ignored
    | Raising     // monitor1up.py: the handler names an undefined variable, so NameError escapes

  /** `_last` and `_stats` of one reader. */
  datatype Reader = Reader(last: seq<int>, stats: seq<int>)

  /** A reader's state after a call together with what the call returned. */
  datatype Step<T> = Step(reader: Reader, result: Result<T, PyError>)

  /** `f.readline()`: the text up to and including the first newline. */
  function FirstLine(text: string): (line: string)
    ensures StartsWith(text, line)
    ensures forall k :: 0 <= k < |line| - 1 ==> line[k] != '\n'
    ensures '\n' in text ==> |line| > 0 && line[|line| - 1] == '\n'
    ensures '\n' !in text ==> line == text
  {
    var i := IndexOf(text, '\n');
    if i < |text| then text[..i + 1] else text
  }

  /** The fields of the stat file: its first line, stripped, split on single
      spaces, empty pieces dropped, each piece converted with `int()`. */
  function ParseStatText(text: string): Option<seq<int>> {
    ParseAll(NonEmpty(Split(Strip(FirstLine(text)), ' ')))
  }

  /** What one attempt to read the stat file produced: the parsed fields, or
      `None` when the open or read raised or a field was not an integer. */
  function Sample(content: Option<string>): Option<seq<int>> {
    if content.Some? then ParseStatText(content.value) else None
  }

  /** `_readStats`: `_last` takes the old snapshot first; `_stats` is replaced
      only when the whole line parsed. */
  function ReadStats(r: Reader, sample: Option<seq<int>>, variant: Variant): (s: Step<()>)
    ensures s.reader.last == r.stats
    ensures sample.Some? ==> s.reader.stats == sample.value && s.result.Ok?
    ensures sample.None? ==> s.reader.stats == r.stats
    ensures sample.None? ==> (s.result.Ok? <==> variant == Swallowing)
  {
    var r1 := r.(last := r.stats);
    match sample
    case Some(fields) => Step(r1.(stats := fields), Ok(()))
    // the handler prints and carries on, or (monitor1up.py) raises NameError
    case None => Step(r1, if variant == Swallowing then Ok(()) else Err(NameError))
  }

  /** The kernel's stat line reads back as its counters: after leading
      padding, decimal fields separated by runs of single spaces (the empty
      pieces between them), ending in a newline, parse to the fields. */
  lemma StatTextParses(pad: string, parts: seq<string>, ns: seq<nat>)
    requires AllSpace(pad) && '\n' !in pad
    requires |parts| > 0 && |parts[0]| > 0 && |parts[|parts| - 1]| > 0
    requires forall k :: 0 <= k < |parts| ==> AllDigits(parts[k])
    requires NonEmpty(parts) == NatTexts(ns)
    ensures ParseStatText(pad + Join(parts, ' ') + "\n") == Some(ns)
    ensures Sample(Some(pad + Join(parts, ' ') + "\n")) == Some(ns)
  {
    var j := Join(parts, ' ');
    var s := pad + j + "\n";
    forall k | 0 <= k < |parts| ensures ' ' !in parts[k] && '\n' !in parts[k] {
      DigitsLack(parts[k], ' ');
      DigitsLack(parts[k], '\n');
    }
    assert FirstLine(s) == s by {
      JoinLacks(parts, ' ', '\n');
      IndexOfAfter(pad + j, "", '\n');
      assert s == (pad + j) + ['\n'] + "";
    }
    assert Strip(s) == j by {
      JoinStart(parts, ' ');
      JoinEnd(parts, ' ');
      DigitIsNotSpace(j[0]);
      DigitIsNotSpace(j[|j| - 1]);
      StatLineStrips(pad, j);
    }
    SplitJoin(parts, ' ');
    ParseAllOfNatTexts(ns);
  }

  /** Padding and the final newline are what `strip()` removes. */
  lemma StatLineStrips(pad: string, j: string)
    requires AllSpace(pad) && |j| > 0 && !IsSpace(j[0]) && !IsSpace(j[|j| - 1])
    ensures Strip(pad + j + "\n") == j
  {
    var s := pad + j + "\n";
    assert s[|pad|..|pad| + |j|] == j;
    StripUnique(s, |pad|, |pad| + |j|);
  }

  /** A fresh reader: both snapshots empty, then one read. */
  function NewReader(sample: Option<seq<int>>, variant: Variant): Step<()> {
    ReadStats(Reader([], []), sample, variant)
  }

  /** `[d - last[i] for i, d in enumerate(stats)]`, when `last` is long enough. */
  function Delta(stats: seq<int>, last: seq<int>): (d: seq<int>)
    requires |stats| <= |last|
    ensures |d| == |stats|
    ensures forall i :: 0 <= i < |d| ==> d[i] + last[i] == stats[i]
  {
    seq(|stats|, i requires 0 <= i < |stats| => stats[i] - last[i])
  }

  /** `_getStats`: read, then a copy of the snapshot when there was no previous
      one, otherwise the unclamped element-wise difference. A previous snapshot
      shorter than the current one makes `last[i]` raise IndexError. */
  function GetStats(r: Reader, sample: Option<seq<int>>, variant: Variant): (s: Step<seq<int>>)
    ensures s.reader == ReadStats(r, sample, variant).reader
    ensures s.result.Ok? && r.stats == [] ==> s.result.value == s.reader.stats
    ensures s.result.Ok? && r.stats != [] ==>
              |s.result.value| == |s.reader.stats| <= |r.stats| &&
              forall i :: 0 <= i < |s.reader.stats| ==> s.result.value[i] == s.reader.stats[i] - r.stats[i]
    ensures s.result.Err? && ReadStats(r, sample, variant).result.Ok? ==>
              s.result.error == IndexError && r.stats != [] && |r.stats| < |s.reader.stats|
  {
    var read := ReadStats(r, sample, variant);
    var r1 := read.reader;
    if read.result.Err? then Step(r1, Err(read.result.error))
    else if r1.last == [] then Step(r1, Ok(r1.stats))
    else if |r1.last| < |r1.stats| then Step(r1, Err(IndexError))
    else Step(r1, Ok(Delta(r1.stats, r1.last)))
  }

  /** `readWriteSectors`: fields 2 and 6 of one delta. */
  function ReadWriteSectors(r: Reader, sample: Option<seq<int>>, variant: Variant): (s: Step<(int, int)>)
    ensures s.reader == GetStats(r, sample, variant).reader
    ensures var g := GetStats(r, sample, variant).result;
            s.result.Ok? <==> g.Ok? && |g.value| > WRITE_SECTORS
    ensures var g := GetStats(r, sample, variant).result;
            s.result.Ok? ==> s.result.value == (g.value[READ_SECTORS], g.value[WRITE_SECTORS])
  {
    var g := GetStats(r, sample, variant);
    match g.result
    case Err(e) => Step(g.reader, Err(e))
    case Ok(d) =>
      if |d| > WRITE_SECTORS then Step(g.reader, Ok((d[READ_SECTORS], d[WRITE_SECTORS])))
      else Step(g.reader, Err(IndexError))
  }

  /** `readWriteBytes` (systemsupport.py): the same two fields times 512. */
  function ReadWriteBytes(r: Reader, sample: Option<seq<int>>, variant: Variant): Step<(int, int)> {
    var g := GetStats(r, sample, variant);
    match g.result
    case Err(e) => Step(g.reader, Err(e))
    case Ok(d) =>
      if |d| > WRITE_SECTORS then
        Step(g.reader, Ok((d[READ_SECTORS] * SECTOR_BYTES, d[WRITE_SECTORS] * SECTOR_BYTES)))
      else Step(g.reader, Err(IndexError))
  }

  /** `systemData.driveStats` (oneUpSupport.py): sectors * 512 / (1024 * 1024). */
  function DriveStatsMiB(r: Reader, sample: Option<seq<int>>): Step<(real, real)> {
    var s := ReadWriteSectors(r, sample, Swallowing);
    match s.result
    case Err(e) => Step(s.reader, Err(e))
    case Ok(rw) =>
      Step(s.reader, Ok(((rw.0 as real * 512.0) / (1024.0 * 1024.0),
                         (rw.1 as real * 512.0) / (1024.0 * 1024.0))))
  }

  // ---------------------------------------------------------------------------
  // Properties of one reader
  // ---------------------------------------------------------------------------

  /** A read that fails after a successful one leaves `_stats` as it was and
      `_last` equal to it, so the next delta is all zeros. */
  lemma FailedReadGivesZeroDelta(r: Reader)
    requires r.stats != []
    ensures var s := GetStats(r, None, Swallowing);
            s.reader == Reader(r.stats, r.stats) &&
            s.result == Ok(seq(|r.stats|, i => 0))
  {
    var s := GetStats(r, None, Swallowing);
    assert s.result.Ok?;
    assert s.result.value == seq(|r.stats|, i => 0);
  }

  /** A stat line with a field that is not an integer is a failed read. */
  lemma BadFieldIsFailedRead(text: string, i: nat)
    requires var toks := NonEmpty(Split(Strip(FirstLine(text)), ' '));
             i < |toks| && ParseInt(toks[i]).None?
    ensures Sample(Some(text)).None?
  {
    ParseAllFailsOnBadToken(NonEmpty(Split(Strip(FirstLine(text)), ' ')), i);
  }

  /** The delta is not clamped: a counter that went backwards (a reset) shows
      up as a negative entry rather than as the new raw value. */
  lemma CounterResetIsNegative(r: Reader, s: seq<int>, variant: Variant, i: nat)
    requires r.stats != [] && |s| <= |r.stats| && i < |s| && s[i] < r.stats[i]
    ensures GetStats(r, Some(s), variant).result.Ok?
    ensures GetStats(r, Some(s), variant).result.value[i] == s[i] - r.stats[i] < 0
    ensures 0 <= s[i] ==> GetStats(r, Some(s), variant).result.value[i] != s[i]
  {
  }

  /** `readWriteBytes` is `readWriteSectors` scaled by the sector size. */
  lemma BytesAreSectorsTimes512(r: Reader, sample: Option<seq<int>>, variant: Variant)
    ensures var b := ReadWriteBytes(r, sample, variant);
            var s := ReadWriteSectors(r, sample, variant);
            b.reader == s.reader && b.result.Ok? == s.result.Ok? &&
            (s.result.Ok? ==> b.result.value == (s.result.value.0 * 512, s.result.value.1 * 512))
  {
  }

  /** The MiB figure of `driveStats` is the sector count over 2048. */
  lemma MiBIsSectorsOver2048(r: Reader, sample: Option<seq<int>>)
    ensures var m := DriveStatsMiB(r, sample);
            var s := ReadWriteSectors(r, sample, Swallowing);
            m.result.Ok? == s.result.Ok? &&
            (s.result.Ok? ==> m.result.value == (s.result.value.0 as real / 2048.0,
                                                 s.result.value.1 as real / 2048.0))
  {
  }

  /** In monitor1up.py a failed read is never silent. */
  lemma RaisingVariantReportsFailedRead(r: Reader)
    ensures GetStats(r, None, Raising).result == Err(NameError)
    ensures GetStats(r, None, Raising).reader.last == r.stats
  {
  }

  // ---------------------------------------------------------------------------
  // multiDriveStat
  // ---------------------------------------------------------------------------

  /** The drive list of `multiDriveStat.__init__`: the lines of the (already
      grep-filtered) `/sys/block` listing, in order, skipping empty lines and
      every name that equals an entry of the ignore list exactly. */
  function DriveList(listing: string, ignore: seq<string>): (drives: seq<string>)
    ensures forall d :: d in drives ==> d !in ignore && |d| > 0
  {
    FilterDrives(Split(listing, '\n'), ignore)
  }

  function FilterDrives(lines: seq<string>, ignore: seq<string>): (drives: seq<string>)
    ensures forall d :: d in drives ==> d !in ignore && |d| > 0
    ensures |drives| <= |lines|
  {
    if |lines| == 0 then []
    else
      var rest := FilterDrives(lines[1..], ignore);
      if |lines[0]| == 0 || lines[0] in ignore then rest else [lines[0]] + rest
  }

  /** A name is monitored exactly when it is a non-empty listed line that is
      not on the ignore list. */
  lemma {:induction false} FilterDrivesMembership(lines: seq<string>, ignore: seq<string>, d: string)
    ensures d in FilterDrives(lines, ignore) <==> d in lines && |d| > 0 && d !in ignore
  {
    if |lines| > 0 {
      FilterDrivesMembership(lines[1..], ignore, d);
      assert lines == [lines[0]] + lines[1..];
    }
  }

  /** The filter keeps listing order: filtering a listing made of two parts
      gives the filtered first part followed by the filtered second part. */
  lemma {:induction false} FilterDrivesKeepsOrder(a: seq<string>, b: seq<string>, ignore: seq<string>)
    ensures FilterDrives(a + b, ignore) == FilterDrives(a, ignore) + FilterDrives(b, ignore)
  {
    if |a| == 0 {
      assert a + b == b;
    } else {
      assert (a + b)[1..] == a[1..] + b;
      FilterDrivesKeepsOrder(a[1..], b, ignore);
    }
  }

  // ---------------------------------------------------------------------------
  // multiDriveStat.readWriteSectors / readWriteBytes
  // ---------------------------------------------------------------------------

  /** One monitored drive: its name and its reader. */
  datatype Drive = Drive(name: string, reader: Reader)

  /** What each drive gives on its own: `readWriteBytes` of its reader on
      its sample. A drive's reading depends on nothing but its own reader, so
      the loop below can take them as given. */
  function Readings(drives: seq<Drive>, samples: seq<Option<seq<int>>>, variant: Variant)
    : (rs: seq<Step<(int, int)>>)
    requires |samples| == |drives|
    ensures |rs| == |drives|
    ensures forall i :: 0 <= i < |drives| ==> rs[i] == ReadWriteBytes(drives[i].reader, samples[i], variant)
  {
    seq(|drives|, i requires 0 <= i < |drives| => ReadWriteBytes(drives[i].reader, samples[i], variant))
  }

  /** No later drive has the same name as drive `i`, so its entry is the
      one the dictionary keeps. */
  predicate LastNamed(drives: seq<Drive>, i: int) {
    0 <= i < |drives| && forall j :: i < j < |drives| ==> drives[j].name != drives[i].name
  }

  /** The position of the first reading that raised, or `|rs|` when none
      did. */
  function FirstFailure<T>(rs: seq<Step<T>>): (f: nat)
    ensures f <= |rs|
    ensures forall i :: 0 <= i < f ==> rs[i].result.Ok?
    ensures f < |rs| ==> rs[f].result.Err?
  {
    if |rs| == 0 then 0
    else if rs[0].result.Err? then 0
    else
      var f := FirstFailure(rs[1..]);
      assert forall i :: 1 <= i <= f ==> rs[i] == rs[1..][i - 1];
      1 + f
  }

  /** `multiDriveStat.readWriteBytes`: each drive in turn, its pair stored
      under its name; the first exception ends the call, after the drives
      before it have read. */
  function ReadWriteBytesAll(drives: seq<Drive>, samples: seq<Option<seq<int>>>, variant: Variant)
    : (r: (seq<Drive>, Result<Dict<(int, int)>, PyError>))
    requires |samples| == |drives|
    ensures var rs := Readings(drives, samples, variant);
            var f := FirstFailure(rs);
            && |r.0| == |drives|
            && (forall i :: 0 <= i < |drives| ==> r.0[i].name == drives[i].name)
            && (forall i :: 0 <= i <= f && i < |drives| ==>
                  r.0[i].reader == ReadWriteBytes(drives[i].reader, samples[i], variant).reader)
            && (forall i :: f < i < |drives| ==> r.0[i] == drives[i])
            && (r.1.Err? <==> f < |drives|)
            && (f < |drives| ==> r.1 == Err(ReadWriteBytes(drives[f].reader, samples[f], variant).result.error))
    ensures r.1.Ok? ==> forall k :: HasKey(r.1.value, k) <==> exists i :: 0 <= i < |drives| && drives[i].name == k
    ensures r.1.Ok? ==> forall i :: 0 <= i < |drives| && LastNamed(drives, i) ==>
              HasKey(r.1.value, drives[i].name) &&
              ReadWriteBytes(drives[i].reader, samples[i], variant).result == Ok(Get(r.1.value, drives[i].name))
  {
    var rs := Readings(drives, samples, variant);
    ReadWriteBytesReaders(drives, rs, []);
    ReadWriteBytesAddsOnlyNames(drives, rs, []);
    ReadWriteBytesValues(drives, rs, []);
    ReadWriteBytesFrom(drives, rs, [])
  }

  /** The loop over the drives, given each drive's reading `rs[i]`: drive
      `i` takes its reader's new state, its pair goes in under its name, and
      the first failed reading ends the loop with the drives after it
      untouched. */
  function ReadWriteBytesFrom(drives: seq<Drive>, rs: seq<Step<(int, int)>>, acc: Dict<(int, int)>)
    : (r: (seq<Drive>, Result<Dict<(int, int)>, PyError>))
    requires |rs| == |drives|
    requires DistinctKeys(acc)
    ensures |r.0| == |drives|
    ensures forall i :: 0 <= i < |drives| ==> r.0[i].name == drives[i].name
    ensures r.1.Ok? ==> DistinctKeys(r.1.value)
    ensures r.1.Ok? ==> forall i :: 0 <= i < |drives| ==> HasKey(r.1.value, drives[i].name)
    ensures r.1.Ok? ==> forall k :: HasKey(acc, k) ==> HasKey(r.1.value, k)
    decreases |drives|
  {
    if |drives| == 0 then ([], Ok(acc))
    else
      var d0 := Drive(drives[0].name, rs[0].reader);
      match rs[0].result
      case Err(e) =>
        ConsKeepsNames(d0, drives, drives[1..]);
        ([d0] + drives[1..], Err(e))
      case Ok(rw) =>
        var acc1 := Put(acc, drives[0].name, rw);
        PutKeepsKeys(acc, drives[0].name, rw);
        var rest := ReadWriteBytesFrom(drives[1..], rs[1..], acc1);
        ConsKeepsNames(d0, drives, rest.0);
        assert forall i :: 1 <= i < |drives| ==> drives[i] == drives[1..][i - 1];
        ([d0] + rest.0, rest.1)
  }

  /** A drive list rebuilt from a new first drive with the same name and a
      tail with the tail's names keeps every name in place. */
  lemma ConsKeepsNames(d0: Drive, drives: seq<Drive>, tail: seq<Drive>)
    requires |drives| > 0 && d0.name == drives[0].name && |tail| == |drives| - 1
    requires forall i :: 0 <= i < |drives| - 1 ==> tail[i].name == drives[1..][i].name
    ensures |[d0] + tail| == |drives|
    ensures forall i :: 0 <= i < |drives| ==> ([d0] + tail)[i].name == drives[i].name
  {
    forall i | 0 <= i < |drives| ensures ([d0] + tail)[i].name == drives[i].name {
      if i > 0 {
        assert ([d0] + tail)[i] == tail[i - 1];
        assert drives[1..][i - 1] == drives[i];
      }
    }
  }

  /** Which readers moved and what the call returns: every drive up to and
      including the first failing one has read, the rest are untouched, and
      the call fails exactly with that drive's error. */
  lemma ReadWriteBytesReaders(drives: seq<Drive>, rs: seq<Step<(int, int)>>, acc: Dict<(int, int)>)
    requires |rs| == |drives| && DistinctKeys(acc)
    ensures var r := ReadWriteBytesFrom(drives, rs, acc);
            var f := FirstFailure(rs);
            && (forall i :: 0 <= i <= f && i < |drives| ==> r.0[i].reader == rs[i].reader)
            && (forall i :: f < i < |drives| ==> r.0[i] == drives[i])
            && (r.1.Err? <==> f < |drives|)
            && (f < |drives| ==> r.1 == Err(rs[f].result.error))
  {
    ReadWriteBytesResult(drives, rs, acc);
    ReadWriteBytesMoved(drives, rs, acc);
    ReadWriteBytesUntouched(drives, rs, acc);
  }

  /** The call fails exactly when some reading raised, with the first such
      error. */
  lemma {:induction false} ReadWriteBytesResult(drives: seq<Drive>, rs: seq<Step<(int, int)>>, acc: Dict<(int, int)>)
    requires |rs| == |drives| && DistinctKeys(acc)
    ensures var r := ReadWriteBytesFrom(drives, rs, acc);
            var f := FirstFailure(rs);
            (r.1.Err? <==> f < |drives|) && (f < |drives| ==> r.1 == Err(rs[f].result.error))
    decreases |drives|
  {
    if |drives| > 0 && rs[0].result.Ok? {
      var acc1 := Put(acc, drives[0].name, rs[0].result.value);
      ReadWriteBytesResult(drives[1..], rs[1..], acc1);
      assert FirstFailure(rs) == 1 + FirstFailure(rs[1..]);
      assert FirstFailure(rs) < |drives| ==> rs[FirstFailure(rs)] == rs[1..][FirstFailure(rs[1..])];
    }
  }

  /** Every drive up to and including the first failing one takes its
      reader's new state. */
  lemma {:induction false} ReadWriteBytesMoved(drives: seq<Drive>, rs: seq<Step<(int, int)>>, acc: Dict<(int, int)>)
    requires |rs| == |drives| && DistinctKeys(acc)
    ensures var r := ReadWriteBytesFrom(drives, rs, acc);
            forall i :: 0 <= i <= FirstFailure(rs) && i < |drives| ==> r.0[i].reader == rs[i].reader
    decreases |drives|
  {
    if |drives| > 0 && rs[0].result.Ok? {
      var acc1 := Put(acc, drives[0].name, rs[0].result.value);
      var rest := ReadWriteBytesFrom(drives[1..], rs[1..], acc1);
      ReadWriteBytesMoved(drives[1..], rs[1..], acc1);
      assert FirstFailure(rs) == 1 + FirstFailure(rs[1..]);
      ShiftMoved(ReadWriteBytesFrom(drives, rs, acc).0, rest.0, rs, FirstFailure(rs[1..]));
    }
  }

  lemma ShiftMoved(out: seq<Drive>, rest: seq<Drive>, rs: seq<Step<(int, int)>>, f: nat)
    requires |out| == |rs| > 0 && |rest| == |rs| - 1 && out[1..] == rest && out[0].reader == rs[0].reader
    requires forall i :: 0 <= i <= f && i < |rest| ==> rest[i].reader == rs[1..][i].reader
    ensures forall i :: 0 <= i <= f + 1 && i < |out| ==> out[i].reader == rs[i].reader
  {
    forall i | 1 <= i <= f + 1 && i < |out| ensures out[i].reader == rs[i].reader {
      assert out[i] == rest[i - 1] && rs[i] == rs[1..][i - 1];
    }
  }

  /** The drives after the first failing one are left as they were. */
  lemma {:induction false} ReadWriteBytesUntouched(drives: seq<Drive>, rs: seq<Step<(int, int)>>, acc: Dict<(int, int)>)
    requires |rs| == |drives| && DistinctKeys(acc)
    ensures var r := ReadWriteBytesFrom(drives, rs, acc);
            forall i :: FirstFailure(rs) < i < |drives| ==> r.0[i] == drives[i]
    decreases |drives|
  {
    if |drives| > 0 {
      var out := ReadWriteBytesFrom(drives, rs, acc).0;
      if rs[0].result.Err? {
        assert out[1..] == drives[1..];
        assert forall i :: 0 < i < |drives| ==> out[i] == out[1..][i - 1] && drives[i] == drives[1..][i - 1];
      } else {
        var acc1 := Put(acc, drives[0].name, rs[0].result.value);
        var rest := ReadWriteBytesFrom(drives[1..], rs[1..], acc1);
        ReadWriteBytesUntouched(drives[1..], rs[1..], acc1);
        assert FirstFailure(rs) == 1 + FirstFailure(rs[1..]);
        assert out[1..] == rest.0;
        assert forall i :: 0 < i < |drives| ==> out[i] == rest.0[i - 1] && drives[i] == drives[1..][i - 1];
      }
    }
  }

  /** Some drive is called `k`. */
  predicate Named(drives: seq<Drive>, k: string) {
    exists i :: 0 <= i < |drives| && drives[i].name == k
  }

  lemma NamedCons(drives: seq<Drive>, k: string)
    requires |drives| > 0
    ensures Named(drives, k) <==> drives[0].name == k || Named(drives[1..], k)
  {
    if Named(drives[1..], k) {
      var i :| 0 <= i < |drives[1..]| && drives[1..][i].name == k;
      assert drives[i + 1].name == k;
    }
    if Named(drives, k) && drives[0].name != k {
      var i :| 0 <= i < |drives| && drives[i].name == k;
      assert drives[1..][i - 1].name == k;
    }
  }

  /** A successful call adds no key but the drives' names. */
  lemma {:induction false} ReadWriteBytesAddsOnlyNames(drives: seq<Drive>, rs: seq<Step<(int, int)>>,
                                                       acc: Dict<(int, int)>)
    requires |rs| == |drives| && DistinctKeys(acc)
    ensures var r := ReadWriteBytesFrom(drives, rs, acc);
            r.1.Ok? ==> forall k :: HasKey(r.1.value, k) ==> HasKey(acc, k) || Named(drives, k)
    decreases |drives|
  {
    if |drives| > 0 && rs[0].result.Ok? {
      var acc1 := Put(acc, drives[0].name, rs[0].result.value);
      ReadWriteBytesAddsOnlyNames(drives[1..], rs[1..], acc1);
      PutAddsOnly(acc, drives[0].name, rs[0].result.value);
      forall k ensures Named(drives, k) <==> drives[0].name == k || Named(drives[1..], k) {
        NamedCons(drives, k);
      }
    }
  }

  /** A key no drive names keeps the value it had before the call. */
  lemma {:induction false} ReadWriteBytesKeepsUnnamed(drives: seq<Drive>, rs: seq<Step<(int, int)>>,
                                                      acc: Dict<(int, int)>, k: string)
    requires |rs| == |drives| && DistinctKeys(acc) && HasKey(acc, k)
    requires forall i :: 0 <= i < |drives| ==> drives[i].name != k
    ensures var r := ReadWriteBytesFrom(drives, rs, acc);
            r.1.Ok? ==> HasKey(r.1.value, k) && Get(r.1.value, k) == Get(acc, k)
    decreases |drives|
  {
    if |drives| > 0 && rs[0].result.Ok? {
      var acc1 := Put(acc, drives[0].name, rs[0].result.value);
      PutKeepsOthers(acc, drives[0].name, rs[0].result.value, k);
      assert forall i :: 0 <= i < |drives| - 1 ==> drives[1..][i].name == drives[i + 1].name;
      ReadWriteBytesKeepsUnnamed(drives[1..], rs[1..], acc1, k);
    }
  }

  /** A successful call stores under each name the pair of the last drive
      of that name. */
  lemma {:induction false} ReadWriteBytesValues(drives: seq<Drive>, rs: seq<Step<(int, int)>>, acc: Dict<(int, int)>)
    requires |rs| == |drives| && DistinctKeys(acc)
    ensures var r := ReadWriteBytesFrom(drives, rs, acc);
            r.1.Ok? ==> forall i :: 0 <= i < |drives| && LastNamed(drives, i) ==>
                          HasKey(r.1.value, drives[i].name) && rs[i].result == Ok(Get(r.1.value, drives[i].name))
    decreases |drives|
  {
    if |drives| > 0 && rs[0].result.Ok? {
      var acc1 := Put(acc, drives[0].name, rs[0].result.value);
      ReadWriteBytesValues(drives[1..], rs[1..], acc1);
      if LastNamed(drives, 0) {
        assert forall i :: 0 <= i < |drives| - 1 ==> drives[1..][i].name != drives[0].name;
        ReadWriteBytesKeepsUnnamed(drives[1..], rs[1..], acc1, drives[0].name);
      }
      forall i | 1 <= i < |drives| && LastNamed(drives, i)
        ensures LastNamed(drives[1..], i - 1) && rs[i] == rs[1..][i - 1] && drives[i] == drives[1..][i - 1]
      {
      }
    }
  }
}
