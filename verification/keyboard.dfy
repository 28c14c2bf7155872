/**
 The decisions of the keyboard helper service (`argonkeyboard.py`).

 The service watches the keyboards for brightness, volume, mute and pause
 keys, debounces them with guard times, and adjusts the display brightness
 through `ddcutil` and the audio sink through `wpctl`. Everything the
 service reads from a device, a command or a file is an input here; the
 event loop, the device scan and the notifications are not modelled.
 Timestamps are whole seconds.
 */
module Keyboard {
  import opened Common
  import opened Text
  import opened OrderedMap

  // ---------------------------------------------------------------------------
  // keyboardevent_devicechanged
  // ---------------------------------------------------------------------------

  /** The device list changed unless every path of each list occurs in the
      other: order and repetitions do not count. */
  method DeviceChanged(curList: seq<string>, newList: seq<string>) returns (changed: bool)
    ensures !changed <==> (forall p :: p in curList ==> p in newList) && (forall p :: p in newList ==> p in curList)
  {
    var i := 0;
    while i < |curList|
      invariant 0 <= i <= |curList|
      invariant forall k :: 0 <= k < i ==> curList[k] in newList
    {
      if curList[i] !in newList {
        return true;
      }
      i := i + 1;
    }
    var j := 0;
    while j < |newList|
      invariant 0 <= j <= |newList|
      invariant forall k :: 0 <= k < j ==> newList[k] in curList
    {
      if newList[j] !in curList {
        return true;
      }
      j := j + 1;
    }
    return false;
  }

  // ---------------------------------------------------------------------------
  // battery_loadlogdata
  // ---------------------------------------------------------------------------

  /** One line of the status log: the attribute, which is the lower-cased
      first space-separated word before the first ':', and the stripped text
      after that ':'. A stripped line without ':' carries nothing. */
  function ParseLogLine(line: string): (r: Option<(string, string)>)
    ensures r.Some? <==> ':' in Strip(line)
    ensures r.Some? ==> ' ' !in r.value.0
    ensures r.Some? ==> var t := Strip(line);
                        var i := IndexOf(t, ':');
                        r.value.0 == Split(Lower(t[..i]), ' ')[0] && r.value.1 == Strip(t[i + 1..])
  {
    LogFields(Strip(line))
  }

  /** The fields of a log line that is already stripped. */
  function LogFields(t: string): (r: Option<(string, string)>)
    ensures r.Some? <==> ':' in t
    ensures r.Some? ==> ' ' !in r.value.0
    ensures r.Some? ==> var i := IndexOf(t, ':');
                        r.value.0 == Split(Lower(t[..i]), ' ')[0] && r.value.1 == Strip(t[i + 1..])
  {
    var curinfo := Split(t, ':');
    SplitHead(t, ':');
    if |curinfo| > 1 then
      var attrib := Split(Lower(curinfo[0]), ' ');
      assert |curinfo[0]| == IndexOf(t, ':');
      Some((attrib[0], Strip(t[|curinfo[0]| + 1..])))
    else None
  }

  /** The first piece of a split is the text before the first separator, and
      there is a second piece exactly when the separator occurs. */
  lemma SplitHead(s: string, c: char)
    ensures Split(s, c)[0] == s[..IndexOf(s, c)]
    ensures |Split(s, c)| > 1 <==> c in s
  {
  }

  /** The parsed lines of a log, in order. */
  function ParseLines(lines: seq<string>): (es: seq<Option<(string, string)>>)
    ensures |es| == |lines| && forall i :: 0 <= i < |lines| ==> es[i] == ParseLogLine(lines[i])
  {
    seq(|lines|, i requires 0 <= i < |lines| => ParseLogLine(lines[i]))
  }

  /** The dictionary built entry by entry; a later entry overwrites an
      earlier one with the same attribute. */
  function LoadEntries(es: seq<Option<(string, string)>>): (d: Dict<string>)
    ensures DistinctKeys(d)
    decreases |es|
  {
    if |es| == 0 then []
    else
      var d := LoadEntries(es[..|es| - 1]);
      match es[|es| - 1]
      case None => d
      case Some(kv) => Put(d, kv.0, kv.1)
  }

  /** The dictionary `battery_loadlogdata` builds from the lines of the log. */
  function LoadLines(lines: seq<string>): Dict<string> {
    LoadEntries(ParseLines(lines))
  }

  /** `battery_loadlogdata`: the file's text, or an empty dictionary when it
      cannot be read. */
  function LoadLogData(file: Option<string>): Dict<string> {
    if file.None? then [] else LoadLines(Split(file.value, '\n'))
  }

  /** Entry `e` sets attribute `k`. */
  predicate Sets(e: Option<(string, string)>, k: string) {
    e.Some? && e.value.0 == k
  }

  /** The position of the last entry that sets `k`, or -1 when none does. */
  function LastSetter(es: seq<Option<(string, string)>>, k: string): (i: int)
    ensures -1 <= i < |es|
    ensures i >= 0 ==> Sets(es[i], k) && forall j :: i < j < |es| ==> !Sets(es[j], k)
    ensures i < 0 ==> forall j :: 0 <= j < |es| ==> !Sets(es[j], k)
    decreases |es|
  {
    if |es| == 0 then -1
    else if Sets(es[|es| - 1], k) then |es| - 1
    else LastSetter(es[..|es| - 1], k)
  }

  /** An attribute is present exactly when some entry sets it, and its value
      is the one the last such entry gives. */
  lemma {:induction false} LastEntryWins(es: seq<Option<(string, string)>>, k: string)
    ensures HasKey(LoadEntries(es), k) <==> LastSetter(es, k) >= 0
    ensures LastSetter(es, k) >= 0 ==> Get(LoadEntries(es), k) == es[LastSetter(es, k)].value.1
    decreases |es|
  {
    if |es| > 0 {
      var n := |es| - 1;
      var init := es[..n];
      LastEntryWins(init, k);
      var d := LoadEntries(init);
      var p := es[n];
      if p.Some? && p.value.0 == k {
        assert LoadEntries(es) == Put(d, k, p.value.1);
      } else if p.Some? {
        assert LoadEntries(es) == Put(d, p.value.0, p.value.1);
        PutKeepsOthers(d, p.value.0, p.value.1, k);
        assert LastSetter(es, k) == LastSetter(init, k);
      } else {
        assert LoadEntries(es) == d;
        assert LastSetter(es, k) == LastSetter(init, k);
      }
    }
  }

  /** For the log: an attribute is present exactly when some line sets it,
      and its value is the text after the ':' of the last such line. */
  lemma LastLineWins(lines: seq<string>, k: string)
    ensures HasKey(LoadLines(lines), k) <==>
              exists i :: 0 <= i < |lines| && Sets(ParseLogLine(lines[i]), k)
    ensures var i := LastSetter(ParseLines(lines), k);
            HasKey(LoadLines(lines), k) ==>
              0 <= i < |lines| && Sets(ParseLogLine(lines[i]), k) &&
              Get(LoadLines(lines), k) == ParseLogLine(lines[i]).value.1 &&
              forall j :: i < j < |lines| ==> !Sets(ParseLogLine(lines[j]), k)
  {
    var es := ParseLines(lines);
    LastEntryWins(es, k);
    if exists i :: 0 <= i < |lines| && Sets(ParseLogLine(lines[i]), k) {
      var i :| 0 <= i < |lines| && Sets(ParseLogLine(lines[i]), k);
      assert Sets(es[i], k);
    }
  }

  /** A line without ':' leaves the dictionary as it was. */
  lemma LineWithoutColonIgnored(lines: seq<string>, line: string)
    requires ':' !in line
    ensures LoadLines(lines + [line]) == LoadLines(lines)
  {
    var es := ParseLines(lines + [line]);
    assert es[..|lines|] == ParseLines(lines);
    assert forall i :: 0 <= i < |Strip(line)| ==> Strip(line)[i] in line;
    assert es[|lines|] == None;
  }

  /** The pause key's notice: the `power` entry of the status log, unless it
      is missing or empty, in which case nothing is shown. */
  function BatteryNotice(file: Option<string>): (m: Option<string>)
    ensures m.Some? ==> |m.value| > 0
    ensures m.Some? <==> var d := LoadLogData(file);
                         HasKey(d, "power") && |Strip(Get(d, "power"))| > 0
    ensures m.Some? ==> m.value == Get(LoadLogData(file), "power")
  {
    var d := LoadLogData(file);
    if HasKey(d, "power") && |Strip(Get(d, "power"))| > 0 then Some(Get(d, "power")) else None
  }

  /** The notice is the text after the ':' of the last log line whose
      attribute is `power`. */
  lemma NoticeIsLastPowerLine(text: string)
    requires BatteryNotice(Some(text)).Some?
    ensures var lines := Split(text, '\n');
            var i := LastSetter(ParseLines(lines), "power");
            0 <= i < |lines| && BatteryNotice(Some(text)).value == ParseLogLine(lines[i]).value.1
  {
    LastLineWins(Split(text, '\n'), "power");
  }

  // ---------------------------------------------------------------------------
  // Running commands
  // ---------------------------------------------------------------------------

  /** How a command started with `subprocess.run(..., check=True)` ended. */
  datatype RunOutcome = Completed | NonZeroExit | NotFound | OtherFailure

  /** `runcmdlist`: failures are logged and swallowed, except a non-zero
      exit, whose handler reads `result`, a name the failed call never
      bound; that raises out of the helper. */
  function RunCmdList(o: RunOutcome): (r: Result<(), PyError>)
    ensures r.Err? <==> o == NonZeroExit
    ensures r.Err? ==> r.error == UnboundLocalError
  {
    if o == NonZeroExit then Err(UnboundLocalError) else Ok(())
  }

  // ---------------------------------------------------------------------------
  // Brightness
  // ---------------------------------------------------------------------------

  function Last(parts: seq<string>): string
    requires |parts| > 0
  {
    parts[|parts| - 1]
  }

  /** The text after the last '=' of the first comma-separated piece of the
      text after the last ':'. */
  function BrightnessField(text: string): string {
    Last(Split(Split(Last(Split(text, ':')), ',')[0], '='))
  }

  /** `keyboardevent_getbrigthnessinfo`: the number after the last '=' of the
      first comma-separated piece of the text after the last ':' of the
      `ddcutil getvcp 10` output, or the default when the command fails or
      that text is not an integer. */
  function BrightnessInfo(out: Command, defaultLevel: int): (level: int)
    ensures !out.Output? ==> level == defaultLevel
  {
    match out
    case Output(text) =>
      (match ParseInt(BrightnessField(text))
       case Some(v) => v
       case None => defaultLevel)
    case _ => defaultLevel
  }

  /** A reading `a:e= num,d` whose tail after the last ':' has no other
      ':' and whose first comma-separated piece ends in `= num` gives `num`. */
  lemma BrightnessOfFields(a: string, e: string, num: string, d: string, defaultLevel: int)
    requires |num| > 0 && AllDigits(num)
    requires ':' !in e && ',' !in e && ':' !in d
    ensures BrightnessInfo(Output(a + [':'] + e + ['='] + [' '] + num + [','] + d), defaultLevel) == DigitsValue(num)
  {
    FieldOfParts(a, e, num, d);
    ParseIntOfPadded(num);
  }

  /** The field that reading picks out is the padded number. */
  lemma FieldOfParts(a: string, e: string, num: string, d: string)
    requires AllDigits(num)
    requires ':' !in e && ',' !in e && ':' !in d
    ensures BrightnessField(a + [':'] + e + ['='] + [' '] + num + [','] + d) == [' '] + num
  {
    var f := [' '] + num;
    assert ':' !in f && ',' !in f && '=' !in f by {
      assert forall i :: 0 <= i < |f| ==> f[i] == ' ' || IsDigit(f[i]);
    }
    var first := e + ['='] + f;
    var after := first + [','] + d;
    Regroup(a, e, num, d);
    SplitLast(a, after, ':');
    SplitFirst(first, d, ',');
    SplitLast(e, f, '=');
  }

  lemma Regroup(a: string, e: string, num: string, d: string)
    ensures a + [':'] + e + ['='] + [' '] + num + [','] + d == a + [':'] + (e + ['='] + ([' '] + num) + [','] + d)
  {
  }

  /** The first piece of a split is the text before the first separator. */
  lemma SplitFirst(a: string, t: string, c: char)
    requires c !in a
    ensures Split(a + [c] + t, c)[0] == a
  {
    IndexOfAfter(a, t, c);
    assert (a + [c] + t)[..|a|] == a;
  }

  /** `int(" " + digits)` is the digits' value. */
  lemma ParseIntOfPadded(num: string)
    requires |num| > 0 && AllDigits(num)
    ensures ParseInt([' '] + num) == Some(DigitsValue(num))
  {
    var f := [' '] + num;
    assert f[1..] == num;
    DigitIsNotSpace(num[0]);
    DigitIsNotSpace(num[|num| - 1]);
    assert TrimLeft(f) == num;
    assert Strip(f) == num;
    ParseIntOfDigits(num);
  }

  /** The reading in the format `ddcutil` prints is the current value. */
  lemma BrightnessOfDdcutilLine(head: string, n: nat, defaultLevel: int)
    ensures BrightnessInfo(Output("VCP code x10(Brightness" + head + "): current value = " + NatToString(n) +
                                  ", max value = 100"), defaultLevel) == n
  {
    var a := "VCP code x10(Brightness" + head + ")";
    var e := " current value ";
    var d := " max value = 100";
    DdcutilLineShape(head, NatToString(n));
    assert ':' !in e && ',' !in e && ':' !in d;
    BrightnessOfFields(a, e, NatToString(n), d, defaultLevel);
    DigitsValueOfNatToString(n);
  }

  lemma DdcutilLineShape(head: string, num: string)
    ensures "VCP code x10(Brightness" + head + "): current value = " + num + ", max value = 100" ==
            ("VCP code x10(Brightness" + head + ")") + [':'] + " current value " + ['='] + [' '] + num + [','] +
            " max value = 100"
  {
  }

  /** The last piece of a split is the text after the last separator. */
  lemma {:induction false} SplitLast(a: string, t: string, c: char)
    requires c !in t
    ensures Last(Split(a + [c] + t, c)) == t
    decreases |a|
  {
    var s := a + [c] + t;
    assert s[|a|] == c;
    var i := IndexOf(s, c);
    assert Split(s, c) == [s[..i]] + Split(s[i + 1..], c);
    if i == |a| {
      assert s[i + 1..] == t;
      assert IndexOf(t, c) == |t|;
    } else {
      assert s[i + 1..] == a[i + 1..] + [c] + t;
      SplitLast(a[i + 1..], t, c);
    }
  }

  /** `keyboardevent_adjustbrigthness`: a step of 0 returns the base level;
      otherwise the level read from the display (the base when the read
      fails) moves by the step, held inside [10, 100]. If setting the new
      level raises, the level read is kept. */
  function AdjustBrightness(baseLevel: int, adjust: int, info: Command, setOutcome: RunOutcome): (level: int)
    ensures adjust == 0 ==> level == baseLevel
    ensures adjust != 0 && setOutcome != NonZeroExit ==>
              level == Clamp(BrightnessInfo(info, baseLevel) + adjust, 10, 100)
    ensures adjust != 0 && setOutcome == NonZeroExit ==> level == BrightnessInfo(info, baseLevel)
  {
    if adjust == 0 then baseLevel
    else
      var cur := BrightnessInfo(info, baseLevel);
      var level := Clamp(cur + adjust, 10, 100);
      if level != cur && RunCmdList(setOutcome).Err? then cur else level
  }

  /** A step from a level inside [10, 100] stays inside it, moves towards
      the step's sign, and moves by the whole step when there is room. */
  lemma BrightnessStepStaysInRange(cur: int, adjust: int, setOutcome: RunOutcome)
    requires 10 <= cur <= 100 && adjust != 0
    ensures var l := AdjustBrightness(cur, adjust, ReadFailed, setOutcome);
            10 <= l <= 100 && (adjust > 0 ==> l >= cur) && (adjust < 0 ==> l <= cur)
    ensures setOutcome != NonZeroExit && 10 <= cur + adjust <= 100 ==>
              AdjustBrightness(cur, adjust, ReadFailed, setOutcome) == cur + adjust
  {
  }

  // ---------------------------------------------------------------------------
  // Volume
  // ---------------------------------------------------------------------------

  datatype Volume = Volume(level: int, muted: int)

  /** What `keyboardevent_getvolumesinkid()` returns as the service calls it,
      with the default argument. */
  const DEFAULT_SINK: string := "@DEFAULT_SINK@"

  /** Python's `int(x)` on a float: truncation toward zero. */
  function Trunc(x: real): (n: int)
    ensures x >= 0.0 ==> n as real <= x < n as real + 1.0
    ensures x < 0.0 ==> n as real - 1.0 < x <= n as real
  {
    if x >= 0.0 then x.Floor else -((-x).Floor)
  }

  /** `str.isdigit()` on ASCII text. */
  predicate IsDigits(s: string) {
    |s| > 0 && AllDigits(s)
  }

  /** The level a word of `wpctl get-volume` output stands for: a percentage
      `55%`, a fraction `0.55` (digits and dots), or 0 for anything else.
      `parseFloat` is Python's `float()` on text; a text it rejects raises
      ValueError. */
  function ReadLevel(word: string, parseFloat: string -> Option<real>): (r: Result<int, PyError>)
    ensures r.Err? ==> r.error == ValueError
    ensures !EndsWith(word, "%") && !IsDigits(Remove(word, '.')) ==> r == Ok(0)
  {
    if EndsWith(word, "%") then
      match parseFloat(word[..|word| - 1])
      case Some(f) => Ok(Trunc(f))
      case None => Err(ValueError)
    else if IsDigits(Remove(word, '.')) then
      match parseFloat(word)
      case Some(f) => Ok(Trunc(f * 100.0))
      case None => Err(ValueError)
    else Ok(0)
  }

  /** A whole percentage written as `n%` reads back as `n`, for a `float()`
      that reads decimal digits correctly. */
  lemma ReadPercentRoundTrip(n: nat, parseFloat: string -> Option<real>)
    requires parseFloat(NatToString(n)) == Some(n as real)
    ensures ReadLevel(NatToString(n) + "%", parseFloat) == Ok(n)
  {
    var w := NatToString(n) + "%";
    assert w[..|w| - 1] == NatToString(n);
    assert w[|w| - 1..] == "%";
  }

  /** A fraction reads as its hundredths, truncated. */
  lemma ReadFraction(word: string, f: real, parseFloat: string -> Option<real>)
    requires |word| > 0 && AllDigits(Remove(word, '.')) && |Remove(word, '.')| > 0
    requires parseFloat(word) == Some(f)
    ensures ReadLevel(word, parseFloat) == Ok(Trunc(f * 100.0))
  {
    if EndsWith(word, "%") {
      assert word[|word| - 1] == '%';
      assert word[|word| - 1] in Remove(word, '.') by {
        RemoveKeeps(word, '.', |word| - 1);
      }
      assert false;
    }
  }

  /** `replace(c, "")` keeps every other character. */
  lemma {:induction false} RemoveKeeps(s: string, c: char, i: nat)
    requires i < |s| && s[i] != c
    ensures s[i] in Remove(s, c)
    decreases |s|
  {
    if i > 0 {
      RemoveKeeps(s[1..], c, i - 1);
      assert s[1..][i - 1] == s[i];
    }
  }

  /** The parse of `wpctl get-volume` output: the last word, or the one
      before it when the last says MUTE, read as a level. */
  function ParseVolume(text: string, parseFloat: string -> Option<real>): (r: Result<Volume, PyError>)
    ensures r.Ok? ==> r.value.muted == 0 || r.value.muted == 1
    ensures r.Err? ==> r.error == ValueError
  {
    var words := Words(text);
    if |words| == 0 then Ok(Volume(0, 0))
    else
      var last := words[|words| - 1];
      var muted := if Contains(last, "MUTE") then 1 else 0;
      var tmp := if muted == 1 && |words| > 1 then words[|words| - 2] else last;
      match ReadLevel(tmp, parseFloat)
      case Ok(level) => Ok(Volume(level, muted))
      case Err(e) => Err(e)
  }

  /** The unmuted output format of `wpctl get-volume`, `Volume: 0.55`: the
      level word is read and the flag is 0. */
  lemma ParseVolumeLine(tag: string, x: string, parseFloat: string -> Option<real>)
    requires |tag| > 0 && NoSpace(tag) && |x| > 0 && NoSpace(x) && !Contains(x, "MUTE")
    ensures ParseVolume(tag + " " + x, parseFloat) ==
            (match ReadLevel(x, parseFloat) case Ok(l) => Ok(Volume(l, 0)) case Err(e) => Err(e))
  {
    assert Words(tag + " " + x) == [tag, x] by {
      WordsCons(tag, x);
      WordsSingle(x);
    }
  }

  /** The muted output format, `Volume: 0.55 [MUTED]`: the word before the
      flag is read and the flag is 1. */
  lemma ParseMutedVolumeLine(tag: string, x: string, flag: string, parseFloat: string -> Option<real>)
    requires |tag| > 0 && NoSpace(tag) && |x| > 0 && NoSpace(x)
    requires |flag| > 0 && NoSpace(flag) && Contains(flag, "MUTE")
    ensures ParseVolume(tag + " " + x + " " + flag, parseFloat) ==
            (match ReadLevel(x, parseFloat) case Ok(l) => Ok(Volume(l, 1)) case Err(e) => Err(e))
  {
    assert Words(tag + " " + x + " " + flag) == [tag, x, flag] by {
      assert tag + " " + x + " " + flag == tag + " " + (x + " " + flag);
      WordsCons(tag, x + " " + flag);
      WordsCons(x, flag);
      WordsSingle(flag);
    }
  }

  /** `keyboardevent_getvolumeinfo`: the parsed volume, or, on every failure
      path, the two defaults in swapped places: the default mute flag as the
      level and the default level as the mute flag. */
  function GetVolumeInfo(deviceId: string, defaultLevel: int, defaultMuted: int, sinkId: string,
                         out: Command, parseFloat: string -> Option<real>): (v: Volume)
    ensures deviceId == "" && sinkId == "0" ==> v == Volume(defaultMuted, defaultLevel)
    ensures !out.Output? ==> v == Volume(defaultMuted, defaultLevel)
    ensures out.Output? && ParseVolume(out.text, parseFloat).Err? ==> v == Volume(defaultMuted, defaultLevel)
    ensures !(deviceId == "" && sinkId == "0") && out.Output? && ParseVolume(out.text, parseFloat).Ok? ==>
              v == ParseVolume(out.text, parseFloat).value
  {
    if deviceId == "" && sinkId == "0" then Volume(defaultMuted, defaultLevel)
    else
      match out
      case Output(text) =>
        (match ParseVolume(text, parseFloat)
         case Ok(v) => v
         case Err(_) => Volume(defaultMuted, defaultLevel))
      case _ => Volume(defaultMuted, defaultLevel)
  }

  /** `split()` of a word, a space and the rest: the word, then the words of
      the rest. */
  lemma WordsCons(w: string, rest: string)
    requires |w| > 0 && NoSpace(w)
    ensures Words(w + " " + rest) == [w] + Words(rest)
  {
    var s := w + " " + rest;
    assert TrimLeft(s) == s by {
      assert s[0] == w[0];
    }
    assert SpaceIndex(s) == |w| by {
      assert s[|w|] == ' ';
      assert forall k :: 0 <= k < |w| ==> s[k] == w[k];
    }
    assert s[..|w|] == w && s[|w|..] == " " + rest;
    WordsAfterSpace(rest);
  }

  lemma WordsAfterSpace(rest: string)
    ensures Words(" " + rest) == Words(rest)
  {
    assert (" " + rest)[1..] == rest;
    assert TrimLeft(" " + rest) == TrimLeft(rest);
  }

  /** `split()` of a single word. */
  lemma WordsSingle(w: string)
    requires |w| > 0 && NoSpace(w)
    ensures Words(w) == [w]
  {
    assert TrimLeft(w) == w;
    assert SpaceIndex(w) == |w|;
    assert w[..|w|] == w && w[|w|..] == "";
  }

  /** `keyboardevent_adjustvolume`. A sink id of "0" leaves level and mute as
      given. Otherwise the level read moves by the step inside [10, 100];
      any step or level change unmutes, and a step of 0 that leaves the
      level alone toggles the mute. A command that raises keeps what was read
      (for the level command) or the mute read (for the mute command). */
  function AdjustVolume(baseLevel: int, baseMuted: int, adjust: int, sinkId: string, info: Command,
                        parseFloat: string -> Option<real>, setVolume: RunOutcome, setMute: RunOutcome): (v: Volume)
    ensures sinkId == "0" ==> v == Volume(baseLevel, baseMuted)
  {
    if sinkId == "0" then Volume(baseLevel, baseMuted)
    else
      var cur := GetVolumeInfo(sinkId, baseLevel, baseMuted, sinkId, info, parseFloat);
      var toggled := if adjust == 0 then (if cur.muted == 0 then 1 else 0) else cur.muted;
      var level := Clamp(cur.level + adjust, 10, 100);
      if level != cur.level && RunCmdList(setVolume).Err? then cur
      else
        var muted := if level != cur.level || adjust != 0 then 0 else toggled;
        if muted != cur.muted && RunCmdList(setMute).Err? then Volume(level, cur.muted)
        else Volume(level, muted)
  }

  /** With both commands succeeding: the level is the read level moved by the
      step inside [10, 100]; a non-zero step always unmutes; a mute toggle on
      a level already inside [10, 100] flips the flag, while on a level
      outside it the toggle runs the level command and so unmutes. */
  lemma VolumeStep(baseLevel: int, baseMuted: int, adjust: int, sinkId: string, info: Command,
                   parseFloat: string -> Option<real>)
    requires sinkId != "0"
    ensures var cur := GetVolumeInfo(sinkId, baseLevel, baseMuted, sinkId, info, parseFloat);
            var v := AdjustVolume(baseLevel, baseMuted, adjust, sinkId, info, parseFloat, Completed, Completed);
            v.level == Clamp(cur.level + adjust, 10, 100) &&
            (adjust != 0 ==> v.muted == 0) &&
            (adjust == 0 && 10 <= cur.level <= 100 ==> v.muted == (if cur.muted == 0 then 1 else 0)) &&
            (adjust == 0 && !(10 <= cur.level <= 100) ==> v.muted == 0)
  {
  }

  /** A failed mute command returns the new level with the flag that was
      read, whichever change of the flag was asked for. */
  lemma MuteCommandFailureKeepsFlag(baseLevel: int, baseMuted: int, adjust: int, sinkId: string, info: Command,
                                    parseFloat: string -> Option<real>, setVolume: RunOutcome)
    requires sinkId != "0"
    requires var cur := GetVolumeInfo(sinkId, baseLevel, baseMuted, sinkId, info, parseFloat);
             setVolume != NonZeroExit || Clamp(cur.level + adjust, 10, 100) == cur.level
    ensures var cur := GetVolumeInfo(sinkId, baseLevel, baseMuted, sinkId, info, parseFloat);
            AdjustVolume(baseLevel, baseMuted, adjust, sinkId, info, parseFloat, setVolume, NonZeroExit) ==
              Volume(Clamp(cur.level + adjust, 10, 100), cur.muted)
  {
  }

  /** A failed level command returns the level and flag that were read. */
  lemma VolumeCommandFailureKeepsReading(baseLevel: int, baseMuted: int, adjust: int, info: Command,
                                         parseFloat: string -> Option<real>, setMute: RunOutcome)
    requires var cur := GetVolumeInfo(DEFAULT_SINK, baseLevel, baseMuted, DEFAULT_SINK, info, parseFloat);
             Clamp(cur.level + adjust, 10, 100) != cur.level
    ensures AdjustVolume(baseLevel, baseMuted, adjust, DEFAULT_SINK, info, parseFloat, NonZeroExit, setMute) ==
            GetVolumeInfo(DEFAULT_SINK, baseLevel, baseMuted, DEFAULT_SINK, info, parseFloat)
  {
  }

  /** The sink id the service passes is never "0", so the early return for a
      missing sink is not taken as the service calls it. */
  lemma DefaultSinkIsNeverZero()
    ensures DEFAULT_SINK != "0" && DEFAULT_SINK != ""
  {
    assert |DEFAULT_SINK| != |"0"|;
  }

  /** The swapped defaults are visible: when `wpctl get-volume` fails, a
      volume-up press reads the mute flag (0 or 1) as the level and sets the
      volume to 10%. */
  lemma FailedReadSetsVolumeToTen(baseLevel: int, baseMuted: int, out: Command,
                                  parseFloat: string -> Option<real>)
    requires !out.Output? && (baseMuted == 0 || baseMuted == 1)
    ensures AdjustVolume(baseLevel, baseMuted, 5, DEFAULT_SINK, out, parseFloat, Completed, Completed).level == 10
  {
    DefaultSinkIsNeverZero();
  }

  // ---------------------------------------------------------------------------
  // Key dispatch and guard times (keyboardevent_check)
  // ---------------------------------------------------------------------------

  const PRESS_WAIT: int := 2
  const HOLD_WAIT: int := 1

  const BRIGHTNESS_DOWN: string := "KEY_BRIGHTNESSDOWN"
  const BRIGHTNESS_UP: string := "KEY_BRIGHTNESSUP"
  const VOLUME_DOWN: string := "KEY_VOLUMEDOWN"
  const VOLUME_UP: string := "KEY_VOLUMEUP"
  const PAUSE: string := "KEY_PAUSE"
  const MUTE: string := "KEY_MUTE"

  /** The last accepted press and hold time of each key. */
  datatype KeyTimes = KeyTimes(pressed: map<string, int>, held: map<string, int>)

  /** What an accepted key event asks for. */
  datatype Action = Idle | Brightness(step: int) | VolumeChange(step: int) | ToggleMute | ShowBattery

  /** The four keys that act on both press (value 1) and hold (value 0). */
  predicate IsLevelKey(code: string) {
    code == BRIGHTNESS_DOWN || code == BRIGHTNESS_UP || code == VOLUME_DOWN || code == VOLUME_UP
  }

  /** The action of an accepted press. */
  function PressAction(code: string): (a: Action)
    ensures a != Idle <==> IsLevelKey(code) || code == PAUSE || code == MUTE
  {
    if code == BRIGHTNESS_DOWN then Brightness(-5)
    else if code == BRIGHTNESS_UP then Brightness(5)
    else if code == VOLUME_DOWN then VolumeChange(-5)
    else if code == VOLUME_UP then VolumeChange(5)
    else if code == PAUSE then ShowBattery
    else if code == MUTE then ToggleMute
    else Idle
  }

  /** The action of an accepted hold: the press step doubled. */
  function HoldAction(code: string): (a: Action)
    ensures IsLevelKey(code) ==> a == (match PressAction(code)
                                       case Brightness(s) => Brightness(2 * s)
                                       case VolumeChange(s) => VolumeChange(2 * s)
                                       case other => other)
    ensures !IsLevelKey(code) ==> a == Idle
  {
    if code == BRIGHTNESS_DOWN then Brightness(-10)
    else if code == BRIGHTNESS_UP then Brightness(10)
    else if code == VOLUME_DOWN then VolumeChange(-10)
    else if code == VOLUME_UP then VolumeChange(10)
    else Idle
  }

  /** One key name of one event at time `now`: the updated times and the
      action. Values other than 0 and 1 (auto-repeat) are ignored. A MUTE
      press within PRESS_WAIT of the last accepted one is ignored. A hold
      acts only PRESS_WAIT after the key's press and HOLD_WAIT after its
      last accepted hold; a hold with no recorded press counts as the press. */
  function Dispatch(t: KeyTimes, code: string, value: int, now: int): (r: (KeyTimes, Action))
    ensures r.1 == Idle ==> r.0 == t || (value == 1 && code != MUTE)
    ensures value != 0 && value != 1 ==> r == (t, Idle)
    ensures value == 1 && r.1 != Idle ==> r.0 == t.(pressed := t.pressed[code := now])
    ensures value == 0 && r.1 != Idle && code in t.pressed ==> r.0 == t.(held := t.held[code := now])
    ensures value == 0 && r.1 != Idle && code !in t.pressed ==> r.0 == t.(pressed := t.pressed[code := now])
  {
    if value != 0 && value != 1 then (t, Idle)
    else if !IsLevelKey(code) && (value == 0 || (code != PAUSE && code != MUTE)) then (t, Idle)
    else if value == 1 then
      if code == MUTE && code in t.pressed && now - t.pressed[code] < PRESS_WAIT then (t, Idle)
      else (t.(pressed := t.pressed[code := now]), PressAction(code))
    else if code in t.pressed then
      if now - t.pressed[code] >= PRESS_WAIT then
        if code in t.held && now - t.held[code] < HOLD_WAIT then (t, Idle)
        else (t.(held := t.held[code := now]), HoldAction(code))
      else (t, Idle)
    else (t.(pressed := t.pressed[code := now]), HoldAction(code))
  }

  /** The dispatch table: presses of the four level keys step by 5, holds by
      10; PAUSE and MUTE act on press only; every other key and value is
      ignored and leaves the times alone. */
  lemma DispatchTable(t: KeyTimes, code: string, value: int, now: int)
    ensures value == 1 && code != MUTE ==> Dispatch(t, code, value, now).1 == PressAction(code)
    ensures value == 0 && !IsLevelKey(code) ==> Dispatch(t, code, value, now) == (t, Idle)
    ensures value == 1 && !IsLevelKey(code) && code != PAUSE && code != MUTE ==> Dispatch(t, code, value, now) == (t, Idle)
    ensures value == 0 && IsLevelKey(code) && Dispatch(t, code, value, now).1 != Idle ==>
              Dispatch(t, code, value, now).1 == HoldAction(code)
  {
  }

  /** The MUTE guard: a press acts exactly when there was no accepted press
      before, or the last was at least PRESS_WAIT ago; an accepted press
      records its time. */
  lemma MuteGuard(t: KeyTimes, now: int)
    ensures var r := Dispatch(t, MUTE, 1, now);
            (r.1 == ToggleMute <==> MUTE !in t.pressed || now - t.pressed[MUTE] >= PRESS_WAIT) &&
            (r.1 == ToggleMute ==> r.0.pressed[MUTE] == now) &&
            (r.1 != ToggleMute ==> r == (t, Idle))
  {
  }

  /** Two MUTE presses less than PRESS_WAIT apart: the second is ignored. */
  lemma DoubleMuteIgnored(t: KeyTimes, t1: int, t2: int)
    requires Dispatch(t, MUTE, 1, t1).1 == ToggleMute && t1 <= t2 < t1 + PRESS_WAIT
    ensures Dispatch(Dispatch(t, MUTE, 1, t1).0, MUTE, 1, t2) == (Dispatch(t, MUTE, 1, t1).0, Idle)
  {
  }

  /** The hold guard: a hold of a level key acts exactly when its press is
      unrecorded, or it is at least PRESS_WAIT after the press and at least
      HOLD_WAIT after the last accepted hold. */
  lemma HoldGuard(t: KeyTimes, code: string, now: int)
    requires IsLevelKey(code)
    ensures Dispatch(t, code, 0, now).1 != Idle <==>
              code !in t.pressed ||
              (now - t.pressed[code] >= PRESS_WAIT && (code !in t.held || now - t.held[code] >= HOLD_WAIT))
  {
  }

  /** A hold less than PRESS_WAIT after the press of the same level key
      does nothing: the press recorded its time. */
  lemma PressThenEarlyHoldIgnored(t: KeyTimes, code: string, t1: int, t2: int)
    requires IsLevelKey(code) && t1 <= t2 < t1 + PRESS_WAIT
    ensures Dispatch(t, code, 1, t1).1 == PressAction(code) != Idle
    ensures Dispatch(Dispatch(t, code, 1, t1).0, code, 0, t2) == (Dispatch(t, code, 1, t1).0, Idle)
  {
  }

  /** Accepted holds of a key with a recorded press are at least HOLD_WAIT
      apart. */
  lemma HoldsAreSpaced(t: KeyTimes, code: string, t1: int, t2: int)
    requires IsLevelKey(code) && code in t.pressed
    requires Dispatch(t, code, 0, t1).1 != Idle && t1 <= t2 < t1 + HOLD_WAIT
    ensures Dispatch(Dispatch(t, code, 0, t1).0, code, 0, t2).1 == Idle
  {
  }

  // ---------------------------------------------------------------------------
  // Acting on a dispatched key
  // ---------------------------------------------------------------------------

  /** The service's current brightness, volume and mute flag. */
  datatype Levels = Levels(brightness: int, volume: int, muted: int)

  /** What the commands and files the action touches deliver. */
  datatype Env = Env(
    brightnessInfo: Command,
    setBrightness: RunOutcome,
    volumeInfo: Command,
    parseFloat: string -> Option<real>,
    setVolume: RunOutcome,
    setMute: RunOutcome,
    statusLog: Option<string>)

  /** The action runs only when the per-event lock file was absent
      (`lockHeld` false). Returns the new levels and the notice shown. */
  function Perform(l: Levels, a: Action, lockHeld: bool, env: Env): (r: (Levels, Option<string>))
    ensures lockHeld || a == Idle ==> r == (l, None)
    ensures r.1.Some? ==> a == ShowBattery
    ensures a.Brightness? && !lockHeld ==> r.0.volume == l.volume && r.0.muted == l.muted
    ensures (a.VolumeChange? || a == ToggleMute) && !lockHeld ==> r.0.brightness == l.brightness
    ensures a.Brightness? && !lockHeld ==>
              r == (l.(brightness := AdjustBrightness(l.brightness, a.step, env.brightnessInfo, env.setBrightness)), None)
    ensures (a.VolumeChange? || a == ToggleMute) && !lockHeld ==>
              var v := AdjustVolume(l.volume, l.muted, if a.VolumeChange? then a.step else 0, DEFAULT_SINK,
                                    env.volumeInfo, env.parseFloat, env.setVolume, env.setMute);
              r == (l.(volume := v.level, muted := v.muted), None)
    ensures a == ShowBattery && !lockHeld ==> r == (l, BatteryNotice(env.statusLog))
  {
    if lockHeld then (l, None)
    else
      match a
      case Idle => (l, None)
      case Brightness(step) =>
        (l.(brightness := AdjustBrightness(l.brightness, step, env.brightnessInfo, env.setBrightness)), None)
      case VolumeChange(step) =>
        var v := AdjustVolume(l.volume, l.muted, step, DEFAULT_SINK, env.volumeInfo, env.parseFloat,
                              env.setVolume, env.setMute);
        (l.(volume := v.level, muted := v.muted), None)
      case ToggleMute =>
        var v := AdjustVolume(l.volume, l.muted, 0, DEFAULT_SINK, env.volumeInfo, env.parseFloat,
                              env.setVolume, env.setMute);
        (l.(volume := v.level, muted := v.muted), None)
      case ShowBattery => (l, BatteryNotice(env.statusLog))
  }

  /** One key event: its key names (one, or several for a key that carries
      more than one name) are dispatched in order, each accepted one acting
      on the levels at once. Auto-repeat events (values other than 0 and 1)
      give no key names. `locks[i]` says whether the lock file was present
      for the `i`-th name. */
  function HandleEvent(t: KeyTimes, l: Levels, codes: seq<string>, value: int, now: int,
                       locks: seq<bool>, env: Env): (r: (KeyTimes, Levels, seq<string>))
    requires |locks| == |codes|
    ensures value != 0 && value != 1 ==> r == (t, l, [])
    ensures (forall i :: 0 <= i < |locks| ==> locks[i]) ==> r.1 == l && r.2 == []
    ensures |r.2| <= |codes|
    decreases |codes|
  {
    if (value != 0 && value != 1) || |codes| == 0 then (t, l, [])
    else
      var (t1, a) := Dispatch(t, codes[0], value, now);
      var (l1, notice) := Perform(l, a, locks[0], env);
      var (t2, l2, notices) := HandleEvent(t1, l1, codes[1..], value, now, locks[1..], env);
      (t2, l2, (if notice.Some? then [notice.value] else []) + notices)
  }
}
