/**
 The Argon40 1UP battery driver (`oneUpPower.c`) as a sequential state
 machine.

 The driver keeps one battery record and the AC flag. A monitor thread reads
 two I2C registers about once a second: bit 0x80 of the current-high
 register says the charger is unplugged, and the state-of-charge register
 gives the capacity. Either change re-derives the capacity level and the
 status from capacity and AC. The property callbacks read the record.
 Register reads are inputs: an `i2c_smbus_read_byte_data` result is a byte
 0..255 or a negative errno.
 */
module OneUpPower {
  import opened Common
  import opened PowerSupply

  const TOTAL_LIFE_SECONDS: int := 3 * 60 * 60
  const TOTAL_CHARGE: int := 4800 * 1000          // micro-ampere hours
  const TOTAL_CHARGE_FULL_SECONDS: int := 60 * 60

  /** `struct PowerStatus`. */
  datatype Battery = Battery(
    status: int,
    capacity: int,
    capacityLevel: int,
    health: int,
    present: int,
    technology: int,
    timeleft: int,
    temperature: int,
    voltage: int)

  /** The driver's globals: the battery record and `ac_online`. */
  datatype Driver = Driver(battery: Battery, acOnline: int)

  /** The static initialisers, before `oneup_power_init` runs. */
  const STATIC_STATE: Driver :=
    Driver(Battery(STATUS_DISCHARGING, 90, LEVEL_HIGH, HEALTH_GOOD, 1, TECHNOLOGY_LION,
                   TOTAL_LIFE_SECONDS, 30, 4200 * 1000), 1)

  // ---------------------------------------------------------------------------
  // set_power_states
  // ---------------------------------------------------------------------------

  /** The capacity level bands of `set_power_states`. */
  function Level(capacity: int): (l: int)
    ensures l == LEVEL_FULL <==> capacity > 95
    ensures l == LEVEL_HIGH <==> 85 < capacity <= 95
    ensures l == LEVEL_NORMAL <==> 40 < capacity <= 85
    ensures l == LEVEL_LOW <==> 30 < capacity <= 40
    ensures l == LEVEL_CRITICAL <==> capacity <= 30
  {
    if capacity > 95 then LEVEL_FULL
    else if capacity > 85 then LEVEL_HIGH
    else if capacity > 40 then LEVEL_NORMAL
    else if capacity > 30 then LEVEL_LOW
    else LEVEL_CRITICAL
  }

  /** The status `set_power_states` derives from the plug and the capacity. */
  function StatusFor(acOnline: int, capacity: int): (s: int)
    ensures s == STATUS_FULL <==> acOnline != 0 && capacity > 95
    ensures s == STATUS_CHARGING <==> acOnline != 0 && capacity <= 95
    ensures s == STATUS_DISCHARGING <==> acOnline == 0
  {
    if acOnline != 0 then (if capacity > 95 then STATUS_FULL else STATUS_CHARGING)
    else STATUS_DISCHARGING
  }

  /** `set_power_states`: level and status are re-derived; nothing else in
      the record or the AC flag changes. */
  function SetPowerStates(d: Driver): (r: Driver)
    ensures r.acOnline == d.acOnline
    ensures r.battery == d.battery.(capacityLevel := r.battery.capacityLevel, status := r.battery.status)
    ensures Consistent(r)
  {
    var b := d.battery;
    d.(battery := b.(capacityLevel := Level(b.capacity), status := StatusFor(d.acOnline, b.capacity)))
  }

  /** Level and status agree with capacity and AC, as `set_power_states`
      leaves them. */
  predicate Consistent(d: Driver) {
    d.battery.capacityLevel == Level(d.battery.capacity) &&
    d.battery.status == StatusFor(d.acOnline, d.battery.capacity)
  }

  /** The states the driver can be in once initialised. */
  predicate Valid(d: Driver) {
    Consistent(d) && 0 <= d.battery.capacity <= 100 && (d.acOnline == 0 || d.acOnline == 1)
  }

  /** The level never drops as the capacity rises. */
  lemma LevelMonotone(c1: int, c2: int)
    requires c1 <= c2
    ensures Level(c1) <= Level(c2)
  {
  }

  /** The derivation reads only capacity and AC, so a second call changes
      nothing further. */
  lemma SetPowerStatesIdempotent(d: Driver)
    ensures SetPowerStates(SetPowerStates(d)) == SetPowerStates(d)
  {
  }

  // ---------------------------------------------------------------------------
  // The monitor thread's two checks
  // ---------------------------------------------------------------------------

  /** `(v & 0x80) > 0` on a C `int`: bit 7 of the two's-complement value,
      which is bit 7 of its low byte. */
  predicate Bit7(v: int) {
    v % 256 >= 128
  }

  /** The plug state a current-high register value means. */
  function PluggedIn(reg: int): (p: int)
    ensures p == 0 <==> Bit7(reg)
    ensures p == 0 || p == 1
  {
    if Bit7(reg) then 0 else 1
  }

  /** `check_ac_power`. */
  function CheckAcPower(d: Driver, reg: int): (r: Driver)
    ensures r.acOnline == PluggedIn(reg)
    ensures r.battery.capacity == d.battery.capacity
    ensures d.acOnline == PluggedIn(reg) ==> r == d
    ensures d.acOnline != PluggedIn(reg) ==> Consistent(r)
  {
    var plugged := PluggedIn(reg);
    if d.acOnline != plugged then SetPowerStates(d.(acOnline := plugged)) else d
  }

  /** `check_battery_state`: the register value clamped into [0, 100]. */
  function CheckBatteryState(d: Driver, reg: int): (r: Driver)
    ensures r.battery.capacity == Clamp(reg, 0, 100)
    ensures r.acOnline == d.acOnline
    ensures d.battery.capacity == Clamp(reg, 0, 100) ==> r == d
    ensures d.battery.capacity != Clamp(reg, 0, 100) ==> Consistent(r)
  {
    var soc := if reg > 100 then 100 else if reg < 0 then 0 else reg;
    if d.battery.capacity != soc then SetPowerStates(d.(battery := d.battery.(capacity := soc))) else d
  }

  /** One pass of `system_monitor`'s loop. */
  function MonitorStep(d: Driver, currentHigh: int, soc: int): Driver {
    CheckBatteryState(CheckAcPower(d, currentHigh), soc)
  }

  /** `oneup_power_init`, once registration succeeded: the derived fields
      are normalised from the static record. */
  function Init(): (d: Driver)
    ensures Valid(d)
    ensures d.battery.capacity == 90 && d.acOnline == 1
  {
    SetPowerStates(STATIC_STATE)
  }

  /** A register that reads as a negative errno counts as an empty battery
      and, having bit 7 set in two's complement when it is -1 .. -128, as an
      unplugged charger. */
  lemma ErrnoReadings(d: Driver, e: int)
    requires 1 <= e <= 128
    ensures CheckBatteryState(d, -e).battery.capacity == 0
    ensures CheckAcPower(d, -e).acOnline == 0
  {
    assert (-e) % 256 == 256 - e;
  }

  /** Whatever the registers read, a pass of the monitor keeps the driver
      valid, and afterwards the state is the normalisation of the latest
      readings: nothing of the earlier plug or capacity survives. */
  lemma MonitorStepKeepsValid(d: Driver, currentHigh: int, soc: int)
    requires Valid(d)
    ensures var r := MonitorStep(d, currentHigh, soc);
            Valid(r) && r == SetPowerStates(d.(acOnline := PluggedIn(currentHigh),
                                               battery := d.battery.(capacity := Clamp(soc, 0, 100))))
  {
  }

  // ---------------------------------------------------------------------------
  // Property callbacks
  // ---------------------------------------------------------------------------

  /** `power_ac_props`. */
  const AC_PROPS: seq<Prop> := [Online]

  /** `power_battery_props`. */
  const BATTERY_PROPS: seq<Prop> :=
    [Status, ChargeType, Health, Present, Technology, ChargeEmpty, ChargeFullDesign, ChargeFull,
     ChargeNow, Capacity, CapacityLevel, TimeToEmptyAvg, TimeToFullNow, ModelName, Manufacturer,
     SerialNumber, Temp, VoltageNow]

  /** `get_ac_property`. */
  function GetAcProperty(d: Driver, p: Prop): (r: Reply)
    ensures r.Errno? <==> p !in AC_PROPS
    ensures r.Errno? ==> r.code == -EINVAL
    ensures p == Online ==> r == IntVal(d.acOnline)
  {
    if p == Online then IntVal(d.acOnline) else Errno(-EINVAL)
  }

  /** `get_battery_int_property`. */
  function GetBatteryIntProperty(d: Driver, p: Prop): (r: Reply)
    ensures r.Errno? ==> r.code == -EINVAL
    ensures !r.StrVal?
    ensures p == Status ==> r == IntVal(d.battery.status)
    ensures p == ChargeType ==> r == IntVal(CHARGE_TYPE_FAST)
    ensures p == Health ==> r == IntVal(d.battery.health)
    ensures p == Present ==> r == IntVal(d.battery.present)
    ensures p == Technology ==> r == IntVal(d.battery.technology)
    ensures p == CapacityLevel ==> r == IntVal(d.battery.capacityLevel)
    ensures p == Capacity ==> r == IntVal(d.battery.capacity)
    ensures p == ChargeEmpty ==> r == IntVal(0)
    ensures p in {ChargeFull, ChargeFullDesign} ==> r == IntVal(TOTAL_CHARGE)
    ensures p == TimeToEmptyAvg ==> r == IntVal(d.battery.timeleft)
    ensures p == Temp ==> r == IntVal(d.battery.temperature)
    ensures p == VoltageNow ==> r == IntVal(d.battery.voltage)
    ensures p == ChargeNow ==> r == IntVal(CDiv(d.battery.capacity * TOTAL_CHARGE, 100))
    ensures p == TimeToFullNow ==> r == IntVal(CDiv((100 - d.battery.capacity) * TOTAL_CHARGE_FULL_SECONDS, 100))
  {
    var b := d.battery;
    match p
    case Status => IntVal(b.status)
    case ChargeType => IntVal(CHARGE_TYPE_FAST)
    case Health => IntVal(b.health)
    case Present => IntVal(b.present)
    case Technology => IntVal(b.technology)
    case CapacityLevel => IntVal(b.capacityLevel)
    case Capacity => IntVal(b.capacity)
    case ChargeEmpty => IntVal(0)
    case ChargeNow => IntVal(CDiv(b.capacity * TOTAL_CHARGE, 100))
    case ChargeFullDesign => IntVal(TOTAL_CHARGE)
    case ChargeFull => IntVal(TOTAL_CHARGE)
    case TimeToEmptyAvg => IntVal(b.timeleft)
    case TimeToFullNow => IntVal(CDiv((100 - b.capacity) * TOTAL_CHARGE_FULL_SECONDS, 100))
    case Temp => IntVal(b.temperature)
    case VoltageNow => IntVal(b.voltage)
    case _ => Errno(-EINVAL)
  }

  /** `get_battery_property`: the three strings, else the integer getter.
      `release` is the kernel's `UTS_RELEASE`. */
  function GetBatteryProperty(d: Driver, p: Prop, release: string): (r: Reply)
    ensures r.Errno? ==> r.code == -EINVAL
    ensures r.StrVal? <==> p in {ModelName, Manufacturer, SerialNumber}
    ensures p == ModelName ==> r == StrVal("oneUp Battery")
    ensures p == Manufacturer ==> r == StrVal("Argon40")
    ensures p == SerialNumber ==> r == StrVal(release)
  {
    match p
    case ModelName => StrVal("oneUp Battery")
    case Manufacturer => StrVal("Argon40")
    case SerialNumber => StrVal(release)
    case _ => GetBatteryIntProperty(d, p)
  }

  /** In a valid driver the reported level and status are the ones the
      capacity and the AC flag call for. */
  lemma ReportedStateIsDerived(d: Driver, release: string)
    requires Valid(d)
    ensures GetBatteryProperty(d, CapacityLevel, release) == IntVal(Level(d.battery.capacity))
    ensures GetBatteryProperty(d, Status, release) == IntVal(StatusFor(d.acOnline, d.battery.capacity))
    ensures GetAcProperty(d, Online) == IntVal(d.acOnline)
  {
  }

  /** The battery answers exactly the properties it advertises in
      `power_battery_props`; every other one is -EINVAL. */
  lemma AnswersExactlyAdvertised(d: Driver, p: Prop, release: string)
    ensures GetBatteryProperty(d, p, release).Errno? <==> p !in BATTERY_PROPS
  {
    Unadvertised(p);
    if p == Online || p == CurrentNow || p == Scope || p == OtherProp {
      UnadvertisedIsRefused(d, p, release);
    } else {
      AdvertisedIsAnswered(d, p, release);
    }
  }

  lemma UnadvertisedIsRefused(d: Driver, p: Prop, release: string)
    requires p == Online || p == CurrentNow || p == Scope || p == OtherProp
    ensures GetBatteryProperty(d, p, release) == Errno(-EINVAL)
  {
  }

  lemma AdvertisedIsAnswered(d: Driver, p: Prop, release: string)
    requires !(p == Online || p == CurrentNow || p == Scope || p == OtherProp)
    ensures !GetBatteryProperty(d, p, release).Errno?
  {
  }

  /** The four properties the battery does not advertise. */
  lemma Unadvertised(p: Prop)
    ensures p !in BATTERY_PROPS <==> p == Online || p == CurrentNow || p == Scope || p == OtherProp
  {
    if p == Online || p == CurrentNow || p == Scope || p == OtherProp {
      NotListed(p);
    } else {
      Listed(p);
    }
  }

  lemma NotListed(p: Prop)
    requires p == Online || p == CurrentNow || p == Scope || p == OtherProp
    ensures p !in BATTERY_PROPS
  {
  }

  lemma Listed(p: Prop)
    requires !(p == Online || p == CurrentNow || p == Scope || p == OtherProp)
    ensures p in BATTERY_PROPS
  {
  }

  /** With a capacity in [0, 100] the charge lies in [0, TOTAL_CHARGE], the
      product before the division fits a 32-bit int, and the charge rises
      with the capacity. */
  lemma ChargeNowInRange(d: Driver)
    requires 0 <= d.battery.capacity <= 100
    ensures IsInt32(d.battery.capacity * TOTAL_CHARGE)
    ensures var r := GetBatteryProperty(d, ChargeNow, "");
            r.IntVal? && 0 <= r.i <= TOTAL_CHARGE
    ensures d.battery.capacity == 100 ==> GetBatteryProperty(d, ChargeNow, "") == IntVal(TOTAL_CHARGE)
  {
    var c := d.battery.capacity;
    ChargeNowReading(d, c);
    ChargeShareInRange(c);
  }

  lemma ChargeNowReading(d: Driver, c: int)
    requires c == d.battery.capacity
    ensures GetBatteryProperty(d, ChargeNow, "") == IntVal(CDiv(c * TOTAL_CHARGE, 100))
  {
  }

  lemma ChargeShareInRange(c: int)
    requires 0 <= c <= 100
    ensures IsInt32(c * TOTAL_CHARGE)
    ensures 0 <= CDiv(c * TOTAL_CHARGE, 100) <= TOTAL_CHARGE
    ensures c == 100 ==> CDiv(c * TOTAL_CHARGE, 100) == TOTAL_CHARGE
  {
    assert 0 <= c * TOTAL_CHARGE <= 100 * TOTAL_CHARGE;
  }

  lemma ChargeNowMonotone(d1: Driver, d2: Driver)
    requires 0 <= d1.battery.capacity <= d2.battery.capacity <= 100
    ensures GetBatteryProperty(d1, ChargeNow, "").i <= GetBatteryProperty(d2, ChargeNow, "").i
  {
    var c1 := d1.battery.capacity;
    var c2 := d2.battery.capacity;
    assert GetBatteryProperty(d1, ChargeNow, "") == IntVal(CDiv(c1 * TOTAL_CHARGE, 100));
    assert GetBatteryProperty(d2, ChargeNow, "") == IntVal(CDiv(c2 * TOTAL_CHARGE, 100));
    MulDivMonotone(c1, c2, TOTAL_CHARGE);
  }

  /** The time to full lies in [0, 3600] and falls as the capacity rises. */
  lemma TimeToFullInRange(d: Driver)
    requires 0 <= d.battery.capacity <= 100
    ensures var r := GetBatteryProperty(d, TimeToFullNow, "");
            r.IntVal? && 0 <= r.i <= TOTAL_CHARGE_FULL_SECONDS
    ensures d.battery.capacity == 100 ==> GetBatteryProperty(d, TimeToFullNow, "") == IntVal(0)
  {
  }

  lemma TimeToFullAntitone(d1: Driver, d2: Driver)
    requires 0 <= d1.battery.capacity <= d2.battery.capacity <= 100
    ensures GetBatteryProperty(d2, TimeToFullNow, "").i <= GetBatteryProperty(d1, TimeToFullNow, "").i
  {
    var m1 := 100 - d1.battery.capacity;
    var m2 := 100 - d2.battery.capacity;
    TimeToFullReading(d1, m1);
    TimeToFullReading(d2, m2);
    MulDivMonotone(m2, m1, TOTAL_CHARGE_FULL_SECONDS);
  }

  lemma TimeToFullReading(d: Driver, missing: int)
    requires missing == 100 - d.battery.capacity
    ensures GetBatteryProperty(d, TimeToFullNow, "") == IntVal(CDiv(missing * TOTAL_CHARGE_FULL_SECONDS, 100))
  {
  }

  /** a * k / 100 does not decrease as a grows, for non-negative a and k. */
  lemma MulDivMonotone(a1: int, a2: int, k: int)
    requires 0 <= a1 <= a2 && k >= 0
    ensures CDiv(a1 * k, 100) <= CDiv(a2 * k, 100)
  {
    assert a2 * k - a1 * k == (a2 - a1) * k;
    assert a1 * k <= a2 * k;
  }

  // ---------------------------------------------------------------------------
  // Unload
  // ---------------------------------------------------------------------------

  /** `oneup_power_exit`, before unregistering: AC reported off and the
      battery discharging. */
  function Exit(d: Driver): (r: Driver)
    ensures GetAcProperty(r, Online) == IntVal(0)
    ensures GetBatteryProperty(r, Status, "") == IntVal(STATUS_DISCHARGING)
    ensures r.battery.capacity == d.battery.capacity && r.battery.capacityLevel == d.battery.capacityLevel
    ensures r.battery.(status := d.battery.status) == d.battery
  {
    d.(acOnline := 0, battery := d.battery.(status := STATUS_DISCHARGING))
  }

  /** The reset is the state `set_power_states` would give an unplugged
      charger, so it leaves a valid driver valid. */
  lemma ExitKeepsValid(d: Driver)
    requires Valid(d)
    ensures Valid(Exit(d))
  {
  }
}
