/**
 The test power-supply driver (`test_power.c`): fixed battery figures, an
 AC flag, and module parameters written and read as words through small
 key/value tables.

 A table is modelled as the sequence of its entries before the `NULL`
 sentinel. A C string argument is modelled by its characters; a `'\0'`
 inside a Dafny string ends it, as `strscpy` would.
 */
module TestPower {
  import opened Common
  import opened Text
  import opened PowerSupply

  const TOTAL_LIFE_SECONDS: int := 3 * 60 * 60
  const TOTAL_CHARGE: int := 2000 * 1000          // micro-ampere hours
  const TOTAL_CHARGE_FULL_SECONDS: int := 60 * 60
  const MAX_KEYLENGTH: int := 256

  /** `struct battery_property_map`. */
  datatype Entry = Entry(value: int, key: string)

  const MAP_AC_ONLINE: seq<Entry> := [Entry(0, "off"), Entry(1, "on")]

  const MAP_HEALTH: seq<Entry> :=
    [Entry(HEALTH_GOOD, "good"), Entry(HEALTH_OVERHEAT, "overheat"), Entry(HEALTH_DEAD, "dead"),
     Entry(HEALTH_OVERVOLTAGE, "overvoltage"), Entry(HEALTH_UNSPEC_FAILURE, "failure")]

  const MAP_PRESENT: seq<Entry> := [Entry(0, "false"), Entry(1, "true")]

  // ---------------------------------------------------------------------------
  // map_get_value and map_get_key
  // ---------------------------------------------------------------------------

  /** The characters of a C string: everything before the first `'\0'`. */
  function CString(s: string): (r: string)
    ensures '\0' !in r && |r| <= |s|
    ensures r == s[..|r|]
    ensures |r| < |s| ==> s[|r|] == '\0'
  {
    if |s| == 0 || s[0] == '\0' then "" else [s[0]] + CString(s[1..])
  }

  /** `strscpy(buf, key, MAX_KEYLENGTH)`: at most 255 characters survive. */
  function KeyBuffer(key: string): (b: string)
    ensures |b| < MAX_KEYLENGTH && '\0' !in b
  {
    var c := CString(key);
    if |c| < MAX_KEYLENGTH then c else c[..MAX_KEYLENGTH - 1]
  }

  /** The buffer with one trailing newline removed. */
  function StripNewline(b: string): string {
    if |b| > 0 && b[|b| - 1] == '\n' then b[..|b| - 1] else b
  }

  /** `strncasecmp(a, b, MAX_KEYLENGTH) == 0` for a buffer `b` shorter than
      the limit: equal after ASCII case folding. */
  predicate KeyMatches(tableKey: string, b: string) {
    Lower(tableKey) == Lower(b)
  }

  /** The table walk: the value of the first entry whose key matches. */
  function FirstMatch(m: seq<Entry>, b: string): (r: Option<int>)
    ensures r.None? <==> forall i :: 0 <= i < |m| ==> !KeyMatches(m[i].key, b)
    ensures r.Some? ==> exists i :: 0 <= i < |m| && KeyMatches(m[i].key, b) && m[i].value == r.value &&
                                    forall j :: 0 <= j < i ==> !KeyMatches(m[j].key, b)
  {
    if |m| == 0 then None
    else if KeyMatches(m[0].key, b) then Some(m[0].value)
    else
      var r := FirstMatch(m[1..], b);
      FirstMatchStep(m, b, r);
      r
  }

  /** A miss on the head entry: the first match in the tail is the first
      match of the whole table. */
  lemma FirstMatchStep(m: seq<Entry>, b: string, r: Option<int>)
    requires |m| > 0 && !KeyMatches(m[0].key, b)
    requires r.None? <==> forall i :: 0 <= i < |m[1..]| ==> !KeyMatches(m[1..][i].key, b)
    requires r.Some? ==> exists i :: 0 <= i < |m[1..]| && KeyMatches(m[1..][i].key, b) && m[1..][i].value == r.value &&
                                     forall j :: 0 <= j < i ==> !KeyMatches(m[1..][j].key, b)
    ensures r.None? <==> forall i :: 0 <= i < |m| ==> !KeyMatches(m[i].key, b)
    ensures r.Some? ==> exists i :: 0 <= i < |m| && KeyMatches(m[i].key, b) && m[i].value == r.value &&
                                    forall j :: 0 <= j < i ==> !KeyMatches(m[j].key, b)
  {
    assert forall i :: 1 <= i < |m| ==> m[i] == m[1..][i - 1];
    if r.Some? {
      var i: int :| 0 <= i < |m[1..]| && KeyMatches(m[1..][i].key, b) && m[1..][i].value == r.value &&
                    forall j :: 0 <= j < i ==> !KeyMatches(m[1..][j].key, b);
      assert m[1..][i] == m[i + 1];
    }
  }

  /** Entry `i` of `m` matches the word `key` as the setters read it: the
      copied buffer is not empty and equals the entry's key, ignoring case,
      once one trailing newline is removed. */
  predicate WordNames(m: seq<Entry>, i: int, key: string) {
    0 <= i < |m| && KeyBuffer(key) != "" && KeyMatches(m[i].key, StripNewline(KeyBuffer(key)))
  }

  /** `map_get_value`: the default for an empty key; otherwise the value of
      the first entry matching the key without its trailing newline, or the
      default when none does. */
  function MapGetValue(m: seq<Entry>, key: string, defVal: int): (r: int)
    ensures KeyBuffer(key) == "" ==> r == defVal
    ensures KeyBuffer(key) != "" && FirstMatch(m, StripNewline(KeyBuffer(key))).None? ==> r == defVal
    ensures r != defVal ==> exists i :: 0 <= i < |m| && m[i].value == r
    ensures forall i :: WordNames(m, i, key) && (forall j :: 0 <= j < i ==> !WordNames(m, j, key)) ==> r == m[i].value
    ensures (forall i :: !WordNames(m, i, key)) ==> r == defVal
  {
    var b := KeyBuffer(key);
    FirstMatchIsFirstEntry(m, StripNewline(b));
    assert forall i :: WordNames(m, i, key) <==> 0 <= i < |m| && b != "" && KeyMatches(m[i].key, StripNewline(b));
    if |b| - 1 < 0 then defVal
    else
      match FirstMatch(m, StripNewline(b))
      case Some(v) => v
      case None => defVal
  }

  /** `map_get_key`: the key of the first entry holding `value`. */
  function MapGetKey(m: seq<Entry>, value: int, defKey: string): (k: string)
    ensures (forall i :: 0 <= i < |m| ==> m[i].value != value) ==> k == defKey
    ensures forall i :: 0 <= i < |m| && m[i].value == value && (forall j :: 0 <= j < i ==> m[j].value != value) ==>
              k == m[i].key
  {
    if |m| == 0 then defKey
    else if m[0].value == value then m[0].key
    else
      assert forall i :: 1 <= i < |m| ==> m[i] == m[1..][i - 1];
      MapGetKey(m[1..], value, defKey)
  }

  /** A table fit for the word round trip: keys short, non-empty, free of
      newlines and NULs, pairwise different after case folding, and values
      pairwise different. */
  predicate GoodTable(m: seq<Entry>) {
    (forall i :: 0 <= i < |m| ==> 0 < |m[i].key| < MAX_KEYLENGTH - 1 && '\n' !in m[i].key && '\0' !in m[i].key) &&
    (forall i, j :: 0 <= i < j < |m| ==> Lower(m[i].key) != Lower(m[j].key) && m[i].value != m[j].value)
  }

  /** The word the getter prints for a listed value, with the newline the
      getter appends, is read back by the setter as that value. */
  lemma RoundTrip(m: seq<Entry>, i: nat, defKey: string, defVal: int)
    requires GoodTable(m) && i < |m|
    ensures MapGetKey(m, m[i].value, defKey) == m[i].key
    ensures MapGetValue(m, m[i].key, defVal) == m[i].value
    ensures MapGetValue(m, m[i].key + "\n", defVal) == m[i].value
  {
    var k := m[i].key;
    PlainKeyBuffer(k);
    MatchAtOwnKey(m, i);
  }

  /** A short key without newline or NUL reaches the table walk unchanged,
      with or without the newline the getter appends. */
  lemma PlainKeyBuffer(k: string)
    requires 0 < |k| < MAX_KEYLENGTH - 1 && '\n' !in k && '\0' !in k
    ensures KeyBuffer(k) == k && StripNewline(k) == k
    ensures KeyBuffer(k + "\n") == k + "\n" && StripNewline(k + "\n") == k
  {
    CStringOfPlain(k);
    CStringOfPlain(k + "\n");
    assert (k + "\n")[..|k|] == k;
    assert k[|k| - 1] in k;
  }

  /** The walk answers with the first entry whose key matches. */
  lemma FirstMatchIsFirstEntry(m: seq<Entry>, b: string)
    ensures forall i :: 0 <= i < |m| && KeyMatches(m[i].key, b) && (forall j :: 0 <= j < i ==> !KeyMatches(m[j].key, b)) ==>
              FirstMatch(m, b) == Some(m[i].value)
  {
    forall i | 0 <= i < |m| && KeyMatches(m[i].key, b) && (forall j :: 0 <= j < i ==> !KeyMatches(m[j].key, b))
      ensures FirstMatch(m, b) == Some(m[i].value)
    {
      var r := FirstMatch(m, b);
      var k: int :| 0 <= k < |m| && KeyMatches(m[k].key, b) && m[k].value == r.value &&
                    forall j :: 0 <= j < k ==> !KeyMatches(m[j].key, b);
      assert k == i;
    }
  }

  /** In a well-formed table at most one key matches a word, so any match is
      the walk's answer. */
  lemma GoodTableMatch(m: seq<Entry>, b: string)
    requires GoodTable(m)
    ensures forall i :: 0 <= i < |m| && KeyMatches(m[i].key, b) ==> FirstMatch(m, b) == Some(m[i].value)
  {
    FirstMatchIsFirstEntry(m, b);
    forall i | 0 <= i < |m| && KeyMatches(m[i].key, b)
      ensures forall j :: 0 <= j < i ==> !KeyMatches(m[j].key, b)
    {
    }
  }

  /** In a well-formed table a key finds its own entry. */
  lemma MatchAtOwnKey(m: seq<Entry>, i: nat)
    requires GoodTable(m) && i < |m|
    ensures FirstMatch(m, m[i].key) == Some(m[i].value)
  {
    var k := m[i].key;
    var r := FirstMatch(m, k);
    assert KeyMatches(m[i].key, k);
    var j: int :| 0 <= j < |m| && KeyMatches(m[j].key, k) && m[j].value == r.value &&
                  forall l :: 0 <= l < j ==> !KeyMatches(m[l].key, k);
    assert j == i;
  }

  lemma {:induction false} CStringOfPlain(s: string)
    requires '\0' !in s
    ensures CString(s) == s
  {
    if |s| > 0 {
      CStringOfPlain(s[1..]);
    }
  }

  /** Folding a key that has no upper-case letter changes nothing. */
  lemma {:induction false} LowerOfLowercase(s: string)
    requires forall i :: 0 <= i < |s| ==> !('A' <= s[i] <= 'Z')
    ensures Lower(s) == s
  {
    if |s| > 0 {
      LowerOfLowercase(s[1..]);
    }
  }

  /** Keys of lower-case letters only, pairwise different, with pairwise
      different values, make a table fit for the round trip. */
  lemma GoodTableOfLowercase(m: seq<Entry>)
    requires forall i :: 0 <= i < |m| ==> 0 < |m[i].key| < MAX_KEYLENGTH - 1 && LowerLetters(m[i].key)
    requires forall i, j :: 0 <= i < j < |m| ==> m[i].key != m[j].key && m[i].value != m[j].value
    ensures GoodTable(m)
  {
    forall i | 0 <= i < |m| ensures Lower(m[i].key) == m[i].key {
      var k := m[i].key;
      assert forall n :: 0 <= n < |k| ==> k[n] in k;
      LowerOfLowercase(k);
    }
  }

  predicate LowerLetters(s: string) {
    forall c :: c in s ==> 'a' <= c <= 'z'
  }

  /** The three tables are fit for the round trip. */
  lemma AcTableIsGood()
    ensures GoodTable(MAP_AC_ONLINE)
  {
    GoodTableOfLowercase(MAP_AC_ONLINE);
  }

  lemma PresentTableIsGood()
    ensures GoodTable(MAP_PRESENT)
  {
    GoodTableOfLowercase(MAP_PRESENT);
  }

  lemma HealthTableIsGood()
    ensures GoodTable(MAP_HEALTH)
  {
    HealthKeysLower();
    HealthKeysDistinct();
    GoodTableOfLowercase(MAP_HEALTH);
  }

  lemma HealthKeysLower()
    ensures forall i :: 0 <= i < |MAP_HEALTH| ==>
              0 < |MAP_HEALTH[i].key| < MAX_KEYLENGTH - 1 && LowerLetters(MAP_HEALTH[i].key)
  {
    LowerByIndex("good");
    LowerByIndex("overheat");
    LowerByIndex("dead");
    LowerByIndex("overvoltage");
    LowerByIndex("failure");
  }

  lemma LowerByIndex(s: string)
    requires forall i :: 0 <= i < |s| ==> 'a' <= s[i] <= 'z'
    ensures LowerLetters(s)
  {
  }

  lemma HealthKeysDistinct()
    ensures forall i, j :: 0 <= i < j < |MAP_HEALTH| ==>
              MAP_HEALTH[i].key != MAP_HEALTH[j].key && MAP_HEALTH[i].value != MAP_HEALTH[j].value
  {
    assert "good"[0] != "dead"[0];
  }

  /** Matching ignores case and one trailing newline. */
  lemma UpperCaseWithNewlineMatches()
    ensures MapGetValue(MAP_AC_ONLINE, "ON\n", 7) == 1
  {
    CStringOfPlain("ON\n");
    assert KeyBuffer("ON\n") == "ON\n";
    assert StripNewline("ON\n") == "ON";
    LowerOfLowercase("off");
    LowerOfLowercase("on");
    assert Lower("ON") == "on";
    assert !KeyMatches("off", "ON");
  }

  /** Only one newline is removed: a doubled one matches nothing. */
  lemma SecondNewlineKept()
    ensures MapGetValue(MAP_PRESENT, "true\n\n", 7) == 7
  {
    CStringOfPlain("true\n\n");
    assert KeyBuffer("true\n\n") == "true\n\n";
    assert StripNewline("true\n\n") == "true\n";
    PresentTableIsGood();
    NewlineBlocksMatch(MAP_PRESENT, "true\n", 4);
  }

  /** A buffer that still holds a newline matches no key of a table whose
      keys have none: case folding leaves the newline in place. */
  lemma NewlineBlocksMatch(m: seq<Entry>, b: string, j: nat)
    requires j < |b| && b[j] == '\n'
    requires forall i :: 0 <= i < |m| ==> '\n' !in m[i].key
    ensures FirstMatch(m, b).None?
  {
    forall i | 0 <= i < |m| ensures !KeyMatches(m[i].key, b) {
      var k := m[i].key;
      if |k| == |b| {
        assert k[j] in k;
        assert Lower(k)[j] != Lower(b)[j];
      }
    }
  }

  // ---------------------------------------------------------------------------
  // Driver state and module parameters
  // ---------------------------------------------------------------------------

  /** The driver's globals. */
  datatype State = State(
    acOnline: int,
    status: int,
    level: int,
    health: int,
    present: int,
    technology: int,
    capacity: int,
    timeleft: int,
    temperature: int,
    voltage: int)

  const INITIAL: State :=
    State(1, STATUS_CHARGING, LEVEL_HIGH, HEALTH_GOOD, 1, TECHNOLOGY_LION, 80, TOTAL_LIFE_SECONDS, 30, 4200 * 1000)

  /** `param_set_ac_online`: an unknown word keeps the current value, which
      is passed as the default. */
  function ParamSetAcOnline(s: State, key: string): (r: State)
    ensures r == s.(acOnline := r.acOnline)
    ensures r.acOnline == s.acOnline || exists i :: 0 <= i < |MAP_AC_ONLINE| && MAP_AC_ONLINE[i].value == r.acOnline
    ensures forall i :: WordNames(MAP_AC_ONLINE, i, key) ==> r.acOnline == MAP_AC_ONLINE[i].value
    ensures (forall i :: !WordNames(MAP_AC_ONLINE, i, key)) ==> r == s
  {
    AcTableIsGood();
    GoodTableMatch(MAP_AC_ONLINE, StripNewline(KeyBuffer(key)));
    s.(acOnline := MapGetValue(MAP_AC_ONLINE, key, s.acOnline))
  }

  function ParamSetBatteryHealth(s: State, key: string): (r: State)
    ensures r == s.(health := r.health)
    ensures r.health == s.health || exists i :: 0 <= i < |MAP_HEALTH| && MAP_HEALTH[i].value == r.health
    ensures forall i :: WordNames(MAP_HEALTH, i, key) ==> r.health == MAP_HEALTH[i].value
    ensures (forall i :: !WordNames(MAP_HEALTH, i, key)) ==> r == s
  {
    HealthTableIsGood();
    GoodTableMatch(MAP_HEALTH, StripNewline(KeyBuffer(key)));
    s.(health := MapGetValue(MAP_HEALTH, key, s.health))
  }

  function ParamSetBatteryPresent(s: State, key: string): (r: State)
    ensures r == s.(present := r.present)
    ensures r.present == s.present || exists i :: 0 <= i < |MAP_PRESENT| && MAP_PRESENT[i].value == r.present
    ensures forall i :: WordNames(MAP_PRESENT, i, key) ==> r.present == MAP_PRESENT[i].value
    ensures (forall i :: !WordNames(MAP_PRESENT, i, key)) ==> r == s
  {
    PresentTableIsGood();
    GoodTableMatch(MAP_PRESENT, StripNewline(KeyBuffer(key)));
    s.(present := MapGetValue(MAP_PRESENT, key, s.present))
  }

  /** `param_get_ac_online`: the buffer text; its length is the return. */
  function ParamGetAcOnline(s: State): (t: string)
    ensures s.acOnline == 0 ==> t == "off\n"
    ensures s.acOnline == 1 ==> t == "on\n"
    ensures s.acOnline != 0 && s.acOnline != 1 ==> t == "unknown\n"
  {
    MapGetKey(MAP_AC_ONLINE, s.acOnline, "unknown") + "\n"
  }

  /** `param_get_battery_health` as written: it looks the health up in the
      AC table. */
  function ParamGetBatteryHealth(s: State): (t: string)
    ensures s.health == HEALTH_GOOD ==> t == "on\n"
    ensures s.health != 0 && s.health != 1 ==> t == "unknown\n"
  {
    MapGetKey(MAP_AC_ONLINE, s.health, "unknown") + "\n"
  }

  /** `param_get_battery_present` as written: the AC table again. */
  function ParamGetBatteryPresent(s: State): (t: string)
    ensures s.present == 1 ==> t == "on\n"
    ensures s.present == 0 ==> t == "off\n"
  {
    MapGetKey(MAP_AC_ONLINE, s.present, "unknown") + "\n"
  }

  /** The health getter with its own table. */
  function ParamGetBatteryHealthFixed(s: State): (t: string)
    ensures s.health == HEALTH_GOOD ==> t == "good\n"
  {
    MapGetKey(MAP_HEALTH, s.health, "unknown") + "\n"
  }

  /** The present getter with its own table. */
  function ParamGetBatteryPresentFixed(s: State): (t: string)
    ensures s.present == 1 ==> t == "true\n"
    ensures s.present == 0 ==> t == "false\n"
  {
    MapGetKey(MAP_PRESENT, s.present, "unknown") + "\n"
  }

  /** The AC parameter reads back what it was set to. */
  lemma AcOnlineRoundTrip(s: State, i: nat)
    requires i < |MAP_AC_ONLINE|
    requires s.acOnline == MAP_AC_ONLINE[i].value
    ensures ParamSetAcOnline(s, ParamGetAcOnline(s)) == s
    ensures ParamGetAcOnline(ParamSetAcOnline(s, MAP_AC_ONLINE[i].key)) == MAP_AC_ONLINE[i].key + "\n"
  {
    AcTableIsGood();
    RoundTrip(MAP_AC_ONLINE, i, "unknown", s.acOnline);
  }

  /** An unrecognised word leaves the AC flag as it was. */
  lemma UnknownWordKeepsAcOnline(s: State, key: string)
    requires forall i :: 0 <= i < |MAP_AC_ONLINE| ==> !KeyMatches(MAP_AC_ONLINE[i].key, StripNewline(KeyBuffer(key)))
    ensures ParamSetAcOnline(s, key) == s
  {
  }

  /** As written, the health getter prints "on" for a good battery, a word
      that is not a key of the health table: writing it to any battery is
      silently ignored, so a battery whose health is not good cannot be set
      back to good from the printed word. */
  lemma HealthGetterUsesAcTable(s: State, t: State)
    requires s.health == HEALTH_GOOD
    ensures ParamGetBatteryHealth(s) == "on\n"
    ensures FirstMatch(MAP_HEALTH, "on").None?
    ensures ParamSetBatteryHealth(t, ParamGetBatteryHealth(s)) == t
  {
    CStringOfPlain("on\n");
    assert KeyBuffer("on\n") == "on\n";
    assert StripNewline("on\n") == "on";
    assert forall i :: 0 <= i < |MAP_HEALTH| ==> !KeyMatches(MAP_HEALTH[i].key, "on");
  }

  /** As written, the present getter prints "on" for a present battery, a
      word that is not a key of the presence table: writing it is ignored,
      so an absent battery cannot be made present from the printed word. */
  lemma PresentGetterUsesAcTable(s: State, t: State)
    requires s.present == 1
    ensures ParamGetBatteryPresent(s) == "on\n"
    ensures FirstMatch(MAP_PRESENT, "on").None?
    ensures ParamSetBatteryPresent(t, ParamGetBatteryPresent(s)) == t
  {
    CStringOfPlain("on\n");
    assert KeyBuffer("on\n") == "on\n";
    assert StripNewline("on\n") == "on";
    assert forall i :: 0 <= i < |MAP_PRESENT| ==> !KeyMatches(MAP_PRESENT[i].key, "on");
  }

  /** With its own table, every health the setter can store reads back as
      the word that sets it. */
  lemma HealthFixedRoundTrip(s: State, i: nat)
    requires i < |MAP_HEALTH| && s.health == MAP_HEALTH[i].value
    ensures ParamSetBatteryHealth(s, ParamGetBatteryHealthFixed(s)) == s
    ensures ParamGetBatteryHealthFixed(s) == MAP_HEALTH[i].key + "\n"
  {
    HealthTableIsGood();
    RoundTrip(MAP_HEALTH, i, "unknown", s.health);
  }

  lemma PresentFixedRoundTrip(s: State, i: nat)
    requires i < |MAP_PRESENT| && s.present == MAP_PRESENT[i].value
    ensures ParamSetBatteryPresent(s, ParamGetBatteryPresentFixed(s)) == s
    ensures ParamGetBatteryPresentFixed(s) == MAP_PRESENT[i].key + "\n"
  {
    PresentTableIsGood();
    RoundTrip(MAP_PRESENT, i, "unknown", s.present);
  }

  // ---------------------------------------------------------------------------
  // Property callbacks
  // ---------------------------------------------------------------------------

  const BATTERY_PROPS: seq<Prop> :=
    [Status, ChargeType, Health, Present, Technology, ChargeEmpty, ChargeFullDesign, ChargeFull,
     ChargeNow, Capacity, CapacityLevel, TimeToEmptyAvg, TimeToFullNow, ModelName, Manufacturer,
     SerialNumber, Temp, VoltageNow]

  /** The four properties the battery does not advertise. */
  lemma Unadvertised(p: Prop)
    ensures p !in BATTERY_PROPS <==> p == Online || p == CurrentNow || p == Scope || p == OtherProp
  {
    if p == Online || p == CurrentNow || p == Scope || p == OtherProp {
      NotListed(p);
    } else {
      Listed(p);
    }
  }

  lemma NotListed(p: Prop)
    requires p == Online || p == CurrentNow || p == Scope || p == OtherProp
    ensures p !in BATTERY_PROPS
  {
  }

  lemma Listed(p: Prop)
    requires !(p == Online || p == CurrentNow || p == Scope || p == OtherProp)
    ensures p in BATTERY_PROPS
  {
  }

  /** `test_power_get_ac_property`. */
  function GetAcProperty(s: State, p: Prop): (r: Reply)
    ensures r.Errno? <==> p != Online
    ensures r.Errno? ==> r.code == -EINVAL
    ensures p == Online ==> r == IntVal(s.acOnline)
  {
    if p == Online then IntVal(s.acOnline) else Errno(-EINVAL)
  }

  /** `test_power_get_battery_property`; `release` is `UTS_RELEASE`. */
  function GetBatteryProperty(s: State, p: Prop, release: string): (r: Reply)
    ensures r.Errno? <==> p !in BATTERY_PROPS
    ensures r.Errno? ==> r.code == -EINVAL
    ensures r.StrVal? <==> p in {ModelName, Manufacturer, SerialNumber}
    ensures p == ModelName ==> r == StrVal("Test battery")
    ensures p == Manufacturer ==> r == StrVal("Linux")
    ensures p == SerialNumber ==> r == StrVal(release)
    ensures p == Status ==> r == IntVal(s.status)
    ensures p == ChargeType ==> r == IntVal(CHARGE_TYPE_FAST)
    ensures p == Health ==> r == IntVal(s.health)
    ensures p == Present ==> r == IntVal(s.present)
    ensures p == Technology ==> r == IntVal(s.technology)
    ensures p == CapacityLevel ==> r == IntVal(s.level)
    ensures p == Capacity ==> r == IntVal(s.capacity)
    ensures p == ChargeEmpty ==> r == IntVal(0)
    ensures p in {ChargeFull, ChargeFullDesign} ==> r == IntVal(TOTAL_CHARGE)
    ensures p == TimeToEmptyAvg ==> r == IntVal(s.timeleft)
    ensures p == Temp ==> r == IntVal(s.temperature)
    ensures p == VoltageNow ==> r == IntVal(s.voltage)
    ensures p == ChargeNow ==> r == IntVal(CDiv(s.capacity * TOTAL_CHARGE, 100))
    ensures p == TimeToFullNow ==> r == IntVal(CDiv((100 - s.capacity) * TOTAL_CHARGE_FULL_SECONDS, 100))
  {
    Unadvertised(p);
    match p
    case ModelName => StrVal("Test battery")
    case Manufacturer => StrVal("Linux")
    case SerialNumber => StrVal(release)
    case Status => IntVal(s.status)
    case ChargeType => IntVal(CHARGE_TYPE_FAST)
    case Health => IntVal(s.health)
    case Present => IntVal(s.present)
    case Technology => IntVal(s.technology)
    case CapacityLevel => IntVal(s.level)
    case Capacity => IntVal(s.capacity)
    case ChargeEmpty => IntVal(0)
    case ChargeNow => IntVal(CDiv(s.capacity * TOTAL_CHARGE, 100))
    case ChargeFullDesign => IntVal(TOTAL_CHARGE)
    case ChargeFull => IntVal(TOTAL_CHARGE)
    case TimeToEmptyAvg => IntVal(s.timeleft)
    case TimeToFullNow => IntVal(CDiv((100 - s.capacity) * TOTAL_CHARGE_FULL_SECONDS, 100))
    case Temp => IntVal(s.temperature)
    case VoltageNow => IntVal(s.voltage)
    case _ => Errno(-EINVAL)
  }

  /** The derived figures: the charge is the capacity's share of 2 000 000
      uAh and the time to full the missing share of an hour; at the fixed
      capacity of 80 they are 1 600 000 uAh and 720 s. */
  lemma DerivedFigures(s: State)
    requires 0 <= s.capacity <= 100
    ensures var c := GetBatteryProperty(s, ChargeNow, "");
            c.IntVal? && 0 <= c.i <= TOTAL_CHARGE && c.i == s.capacity * (TOTAL_CHARGE / 100)
    ensures var t := GetBatteryProperty(s, TimeToFullNow, "");
            t.IntVal? && 0 <= t.i <= TOTAL_CHARGE_FULL_SECONDS && t.i == (100 - s.capacity) * 36
    ensures s.capacity == 80 ==>
              GetBatteryProperty(s, ChargeNow, "") == IntVal(1600000) &&
              GetBatteryProperty(s, TimeToFullNow, "") == IntVal(720)
  {
    ChargeNowDerived(s);
    TimeToFullDerived(s);
  }

  lemma ChargeNowDerived(s: State)
    requires 0 <= s.capacity <= 100
    ensures var c := GetBatteryProperty(s, ChargeNow, "");
            c.IntVal? && 0 <= c.i <= TOTAL_CHARGE && c.i == s.capacity * (TOTAL_CHARGE / 100)
    ensures s.capacity == 80 ==> GetBatteryProperty(s, ChargeNow, "") == IntVal(1600000)
  {
    ChargeNowReading(s);
    ChargeNowFigure(s.capacity);
  }

  lemma TimeToFullDerived(s: State)
    requires 0 <= s.capacity <= 100
    ensures var t := GetBatteryProperty(s, TimeToFullNow, "");
            t.IntVal? && 0 <= t.i <= TOTAL_CHARGE_FULL_SECONDS && t.i == (100 - s.capacity) * 36
    ensures s.capacity == 80 ==> GetBatteryProperty(s, TimeToFullNow, "") == IntVal(720)
  {
    TimeToFullReading(s);
    TimeToFullFigure(s.capacity);
  }

  lemma ChargeNowReading(s: State)
    ensures GetBatteryProperty(s, ChargeNow, "") == IntVal(CDiv(s.capacity * TOTAL_CHARGE, 100))
  {
  }

  lemma TimeToFullReading(s: State)
    ensures GetBatteryProperty(s, TimeToFullNow, "") ==
              IntVal(CDiv((100 - s.capacity) * TOTAL_CHARGE_FULL_SECONDS, 100))
  {
  }

  lemma ChargeNowFigure(c: int)
    requires 0 <= c <= 100
    ensures CDiv(c * TOTAL_CHARGE, 100) == c * (TOTAL_CHARGE / 100)
    ensures 0 <= c * (TOTAL_CHARGE / 100) <= TOTAL_CHARGE
    ensures c == 80 ==> c * (TOTAL_CHARGE / 100) == 1600000
  {
    assert c * TOTAL_CHARGE == (c * (TOTAL_CHARGE / 100)) * 100;
  }

  lemma TimeToFullFigure(c: int)
    requires 0 <= c <= 100
    ensures CDiv((100 - c) * TOTAL_CHARGE_FULL_SECONDS, 100) == (100 - c) * 36
    ensures 0 <= (100 - c) * 36 <= TOTAL_CHARGE_FULL_SECONDS
    ensures c == 80 ==> (100 - c) * 36 == 720
  {
    assert (100 - c) * TOTAL_CHARGE_FULL_SECONDS == ((100 - c) * 36) * 100;
  }

  /** `test_power_exit`, before unregistering. */
  function Exit(s: State): (r: State)
    ensures GetAcProperty(r, Online) == IntVal(0)
    ensures GetBatteryProperty(r, Status, "") == IntVal(STATUS_DISCHARGING)
    ensures r.(acOnline := s.acOnline, status := s.status) == s
  {
    s.(acOnline := 0, status := STATUS_DISCHARGING)
  }

  /** A word written to a parameter is what the battery then reports: the
      setters and the property callback agree. */
  lemma WrittenHealthIsReported(s: State, i: nat, release: string)
    requires i < |MAP_HEALTH|
    ensures GetBatteryProperty(ParamSetBatteryHealth(s, MAP_HEALTH[i].key), Health, release) ==
              IntVal(MAP_HEALTH[i].value)
  {
    HealthTableIsGood();
    RoundTrip(MAP_HEALTH, i, "unknown", s.health);
  }

  lemma WrittenPresentIsReported(s: State, i: nat, release: string)
    requires i < |MAP_PRESENT|
    ensures GetBatteryProperty(ParamSetBatteryPresent(s, MAP_PRESENT[i].key), Present, release) ==
              IntVal(MAP_PRESENT[i].value)
  {
    PresentTableIsGood();
    RoundTrip(MAP_PRESENT, i, "unknown", s.present);
  }

  lemma WrittenAcOnlineIsReported(s: State, i: nat)
    requires i < |MAP_AC_ONLINE|
    ensures GetAcProperty(ParamSetAcOnline(s, MAP_AC_ONLINE[i].key), Online) == IntVal(MAP_AC_ONLINE[i].value)
  {
    AcTableIsGood();
    RoundTrip(MAP_AC_ONLINE, i, "unknown", s.acOnline);
  }
}
