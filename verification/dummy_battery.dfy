/**
 The simulated battery of `dummy_battery.c`.

 Probe sets the initial state from the module parameters. A once-a-second
 tick moves the capacity by the charge or discharge rate and rederives
 voltage and current. Three properties can be written through sysfs. The
 work-queue scheduling, the mutex and `power_supply_changed` are not
 modelled; the tick reports whether it would have signalled a change.
 */
module DummyBattery {
  import opened Common
  import opened PowerSupply

  const DFLT_VOLTAGE_UV: int := 4000000
  const DFLT_CURRENT_UA: int := 50000
  const DFLT_TEMP_DECIC: int := 300

  /** The module parameters. */
  datatype Params = Params(
    startCapacity: int,
    dischargeRate: int,
    chargeRate: int,
    startCharging: bool,
    startOnlineAc: bool)

  /** The simulated part of `struct dummy_batt`. */
  datatype Batt = Batt(
    capacity: int,
    voltageUv: int,
    currentUa: int,
    tempDeciC: int,
    onlineAc: bool,
    status: int)

  /** The module parameters' defaults. */
  const DEFAULT_PARAMS: Params := Params(75, 1, 2, false, false)

  /** The capacity lies in [0, 100]. */
  predicate InRange(b: Batt) {
    0 <= b.capacity <= 100
  }

  /** `dummy_probe`'s initial state. */
  function Probe(p: Params): (b: Batt)
    ensures InRange(b)
    ensures 0 <= p.startCapacity <= 100 ==> b.capacity == p.startCapacity
    ensures p.startCapacity < 0 ==> b.capacity == 0
    ensures p.startCapacity > 100 ==> b.capacity == 100
    ensures b.status == STATUS_CHARGING <==> p.startCharging
    ensures b.status == STATUS_DISCHARGING <==> !p.startCharging
    ensures b.voltageUv == DFLT_VOLTAGE_UV && b.currentUa == DFLT_CURRENT_UA && b.tempDeciC == DFLT_TEMP_DECIC
    ensures b.onlineAc == p.startOnlineAc
  {
    Batt(Clamp(p.startCapacity, 0, 100), DFLT_VOLTAGE_UV, DFLT_CURRENT_UA, DFLT_TEMP_DECIC,
         p.startOnlineAc, if p.startCharging then STATUS_CHARGING else STATUS_DISCHARGING)
  }

  // ---------------------------------------------------------------------------
  // The simulation tick
  // ---------------------------------------------------------------------------

  /** The voltage the linear model assigns to a capacity. */
  function VoltageFor(capacity: int): int {
    3500000 + capacity * 7000
  }

  /** The current whose sign tracks the status. */
  function CurrentFor(status: int): int {
    if status == STATUS_CHARGING then 80000
    else if status == STATUS_DISCHARGING then -50000
    else 0
  }

  /** `dummy_sim_work`: the new state and whether a change is signalled. */
  function Tick(b: Batt, chargeRate: int, dischargeRate: int): (r: (Batt, bool))
    ensures r.0.voltageUv == VoltageFor(r.0.capacity)
    ensures r.0.currentUa == CurrentFor(r.0.status)
    ensures r.0.onlineAc == b.onlineAc && r.0.tempDeciC == b.tempDeciC
    ensures r.1 <==> (b.status == STATUS_CHARGING && b.capacity < 100) ||
                     (b.status == STATUS_DISCHARGING && b.capacity > 0)
    ensures !r.1 ==> r.0.capacity == b.capacity && r.0.status == b.status
  {
    var (cap, status, changed) :=
      if b.status == STATUS_CHARGING && b.capacity < 100 then
        var c := b.capacity + chargeRate;
        if c >= 100 then (100, STATUS_FULL, true) else (c, b.status, true)
      else if b.status == STATUS_DISCHARGING && b.capacity > 0 then
        var c := b.capacity - dischargeRate;
        if c <= 0 then (0, STATUS_NOT_CHARGING, true) else (c, b.status, true)
      else (b.capacity, b.status, false);
    (b.(capacity := cap, status := status, voltageUv := VoltageFor(cap), currentUa := CurrentFor(status)), changed)
  }

  /** A charging tick below 100 adds the rate, stopping at 100 with the
      status FULL; a discharging tick above 0 subtracts it, stopping at 0
      with NOT_CHARGING. */
  lemma TickMovesCapacity(b: Batt, chargeRate: int, dischargeRate: int)
    ensures var r := Tick(b, chargeRate, dischargeRate).0;
            b.status == STATUS_CHARGING && b.capacity < 100 ==>
              r.capacity == (if b.capacity + chargeRate >= 100 then 100 else b.capacity + chargeRate) &&
              (r.status == STATUS_FULL <==> b.capacity + chargeRate >= 100)
    ensures var r := Tick(b, chargeRate, dischargeRate).0;
            b.status == STATUS_DISCHARGING && b.capacity > 0 ==>
              r.capacity == (if b.capacity - dischargeRate <= 0 then 0 else b.capacity - dischargeRate) &&
              (r.status == STATUS_NOT_CHARGING <==> b.capacity - dischargeRate <= 0)
  {
  }

  /** With non-negative rates the capacity never leaves [0, 100], and the
      voltage the tick sets lies between 3.5 V and 4.2 V. */
  lemma TickKeepsInRange(b: Batt, chargeRate: int, dischargeRate: int)
    requires InRange(b) && chargeRate >= 0 && dischargeRate >= 0
    ensures var r := Tick(b, chargeRate, dischargeRate).0;
            InRange(r) && 3500000 <= r.voltageUv <= 4200000
  {
  }

  /** A negative rate breaks the range: discharging at rate -10 from 95
      leaves 105. */
  lemma NegativeRateLeavesRange()
    ensures Tick(Batt(95, 0, 0, 0, false, STATUS_DISCHARGING), 2, -10).0.capacity == 105
  {
  }

  /** `n` ticks with fixed rates. */
  function Run(b: Batt, chargeRate: int, dischargeRate: int, n: nat): Batt
    decreases n
  {
    if n == 0 then b else Run(Tick(b, chargeRate, dischargeRate).0, chargeRate, dischargeRate, n - 1)
  }

  /** A state with no change pending is a fixed point of the tick, apart from
      the rederived voltage and current. */
  lemma {:induction false} RunFromFixedPoint(b: Batt, chargeRate: int, dischargeRate: int, n: nat)
    requires b.status == STATUS_FULL || b.status == STATUS_NOT_CHARGING
    requires n >= 1
    ensures var r := Run(b, chargeRate, dischargeRate, n);
            r.capacity == b.capacity && r.status == b.status
    decreases n
  {
    if n > 1 {
      RunFromFixedPoint(Tick(b, chargeRate, dischargeRate).0, chargeRate, dischargeRate, n - 1);
    }
  }

  /** Charging at a positive rate reaches FULL at 100 within 100 - capacity
      ticks, and stays there. */
  lemma {:induction false} ChargingReachesFull(b: Batt, chargeRate: int, dischargeRate: int, n: nat)
    requires InRange(b) && b.status == STATUS_CHARGING && b.capacity < 100
    requires chargeRate >= 1 && n >= 100 - b.capacity
    ensures var r := Run(b, chargeRate, dischargeRate, n);
            r.capacity == 100 && r.status == STATUS_FULL
    decreases n
  {
    var t := Tick(b, chargeRate, dischargeRate).0;
    if t.status == STATUS_FULL {
      if n > 1 {
        RunFromFixedPoint(t, chargeRate, dischargeRate, n - 1);
      }
    } else {
      ChargingReachesFull(t, chargeRate, dischargeRate, n - 1);
    }
  }

  /** Discharging at a positive rate reaches NOT_CHARGING at 0 within
      capacity ticks, and stays there. */
  lemma {:induction false} DischargingReachesEmpty(b: Batt, chargeRate: int, dischargeRate: int, n: nat)
    requires InRange(b) && b.status == STATUS_DISCHARGING && b.capacity > 0
    requires dischargeRate >= 1 && n >= b.capacity
    ensures var r := Run(b, chargeRate, dischargeRate, n);
            r.capacity == 0 && r.status == STATUS_NOT_CHARGING
    decreases n
  {
    var t := Tick(b, chargeRate, dischargeRate).0;
    if t.status == STATUS_NOT_CHARGING {
      if n > 1 {
        RunFromFixedPoint(t, chargeRate, dischargeRate, n - 1);
      }
    } else {
      DischargingReachesEmpty(t, chargeRate, dischargeRate, n - 1);
    }
  }

  // ---------------------------------------------------------------------------
  // Property callbacks
  // ---------------------------------------------------------------------------

  /** `dummy_props`. */
  const PROPS: seq<Prop> :=
    [Status, Present, Online, Capacity, VoltageNow, CurrentNow, Temp, Health, Technology, Scope]

  /** The ten properties the battery advertises. */
  lemma Advertised(p: Prop)
    ensures p in PROPS <==>
              || p == Status || p == Present || p == Online || p == Capacity || p == VoltageNow
              || p == CurrentNow || p == Temp || p == Health || p == Technology || p == Scope
  {
    if || p == Status || p == Present || p == Online || p == Capacity || p == VoltageNow
       || p == CurrentNow || p == Temp || p == Health || p == Technology || p == Scope
    {
      Listed(p);
    } else {
      NotListed(p);
    }
  }

  lemma Listed(p: Prop)
    requires || p == Status || p == Present || p == Online || p == Capacity || p == VoltageNow
             || p == CurrentNow || p == Temp || p == Health || p == Technology || p == Scope
    ensures p in PROPS
  {
  }

  lemma NotListed(p: Prop)
    requires !(|| p == Status || p == Present || p == Online || p == Capacity || p == VoltageNow
               || p == CurrentNow || p == Temp || p == Health || p == Technology || p == Scope)
    ensures p !in PROPS
  {
  }

  /** `dummy_get_property`. */
  function GetProperty(b: Batt, p: Prop): (r: Reply)
    ensures r.Errno? <==> p !in PROPS
    ensures r.Errno? ==> r.code == -EINVAL
    ensures !r.StrVal?
    ensures p == Online ==> r == IntVal(if b.onlineAc then 1 else 0)
    ensures p == Status ==> r == IntVal(b.status)
    ensures p == Present ==> r == IntVal(1)
    ensures p == Capacity ==> r == IntVal(b.capacity)
    ensures p == VoltageNow ==> r == IntVal(b.voltageUv)
    ensures p == CurrentNow ==> r == IntVal(b.currentUa)
    ensures p == Temp ==> r == IntVal(b.tempDeciC)
    ensures p == Health ==> r == IntVal(HEALTH_GOOD)
    ensures p == Technology ==> r == IntVal(TECHNOLOGY_LION)
    ensures p == Scope ==> r == IntVal(SCOPE_SYSTEM)
  {
    Advertised(p);
    match p
    case Status => IntVal(b.status)
    case Present => IntVal(1)
    case Online => IntVal(if b.onlineAc then 1 else 0)
    case Capacity => IntVal(b.capacity)
    case VoltageNow => IntVal(b.voltageUv)
    case CurrentNow => IntVal(b.currentUa)
    case Temp => IntVal(b.tempDeciC)
    case Health => IntVal(HEALTH_GOOD)
    case Technology => IntVal(TECHNOLOGY_LION)
    case Scope => IntVal(SCOPE_SYSTEM)
    case _ => Errno(-EINVAL)
  }

  /** `dummy_property_is_writeable`. */
  predicate IsWriteable(p: Prop) {
    p == Online || p == Status || p == Capacity
  }

  /** The statuses a STATUS write accepts. */
  predicate SettableStatus(v: int) {
    v == STATUS_CHARGING || v == STATUS_DISCHARGING || v == STATUS_NOT_CHARGING || v == STATUS_FULL
  }

  /** `dummy_set_property`: the new state and the return code. */
  function SetProperty(b: Batt, p: Prop, v: int): (r: (Batt, int))
    ensures r.1 == 0 || r.1 == -EINVAL || r.1 == -ERANGE
    ensures r.1 != 0 ==> r.0 == b
    ensures r.1 == 0 <==> (p == Online || (p == Status && SettableStatus(v)) || (p == Capacity && 0 <= v <= 100))
    ensures p == Capacity && (v < 0 || v > 100) ==> r.1 == -ERANGE
    ensures r.1 == 0 && p == Capacity ==> r.0 == b.(capacity := v)
    ensures r.1 == 0 && p == Status ==> r.0 == b.(status := v)
    ensures r.1 == 0 && p == Online ==>
              r.0 == b.(onlineAc := v != 0, status := if v != 0 then STATUS_CHARGING else STATUS_DISCHARGING)
  {
    match p
    case Online =>
      var on := v != 0;
      (b.(onlineAc := on, status := if on then STATUS_CHARGING else STATUS_DISCHARGING), 0)
    case Status =>
      if SettableStatus(v) then (b.(status := v), 0) else (b, -EINVAL)
    case Capacity =>
      if v < 0 || v > 100 then (b, -ERANGE) else (b.(capacity := v), 0)
    case _ => (b, -EINVAL)
  }

  /** The properties declared writeable are exactly those some write
      succeeds on. */
  lemma WriteableIffSomeWriteSucceeds(b: Batt, p: Prop)
    ensures IsWriteable(p) <==> exists v :: SetProperty(b, p, v).1 == 0
  {
    if IsWriteable(p) {
      var v := if p == Status then STATUS_FULL else 0;
      assert SetProperty(b, p, v).1 == 0;
    }
  }

  /** What a successful write stores is what the getter then reports; an
      ONLINE write also forces the status to match the plug. */
  lemma SetThenGet(b: Batt, p: Prop, v: int)
    requires SetProperty(b, p, v).1 == 0
    ensures var g := GetProperty(SetProperty(b, p, v).0, p);
            p == Online ==> g == IntVal(if v != 0 then 1 else 0)
    ensures p != Online ==> GetProperty(SetProperty(b, p, v).0, p) == IntVal(v)
    ensures p == Online ==>
              GetProperty(SetProperty(b, p, v).0, Status) == IntVal(if v != 0 then STATUS_CHARGING else STATUS_DISCHARGING)
  {
  }

  /** A write, accepted or rejected, keeps the capacity in [0, 100]. */
  lemma SetKeepsInRange(b: Batt, p: Prop, v: int)
    requires InRange(b)
    ensures InRange(SetProperty(b, p, v).0)
  {
  }

  /** Every state reachable from probe by ticks, writes and changes of the
      rates has its capacity in [0, 100], as long as no rate is negative. */
  lemma ReachableInRange(p: Params, ops: seq<Op>)
    requires p.chargeRate >= 0 && p.dischargeRate >= 0 && RatesNonNegative(ops)
    ensures InRange(Apply(Probe(p), p, ops))
  {
    ApplyKeepsInRange(Probe(p), p, ops);
  }

  /** A sysfs write, a tick, or a write to the `charge_rate` and
      `discharge_rate` module parameters, which are writeable at run time. */
  datatype Op = TickOp | Write(prop: Prop, value: int) | Rates(charge: int, discharge: int)

  predicate RatesNonNegative(ops: seq<Op>) {
    forall i :: 0 <= i < |ops| && ops[i].Rates? ==> ops[i].charge >= 0 && ops[i].discharge >= 0
  }

  /** The state after a sequence of operations; each tick uses the rates in
      force at that moment. */
  function Apply(b: Batt, p: Params, ops: seq<Op>): Batt
    decreases |ops|
  {
    if |ops| == 0 then b
    else
      match ops[0]
      case TickOp => Apply(Tick(b, p.chargeRate, p.dischargeRate).0, p, ops[1..])
      case Write(q, v) => Apply(SetProperty(b, q, v).0, p, ops[1..])
      case Rates(c, d) => Apply(b, p.(chargeRate := c, dischargeRate := d), ops[1..])
  }

  lemma {:induction false} ApplyKeepsInRange(b: Batt, p: Params, ops: seq<Op>)
    requires InRange(b) && p.chargeRate >= 0 && p.dischargeRate >= 0 && RatesNonNegative(ops)
    ensures InRange(Apply(b, p, ops))
    decreases |ops|
  {
    if |ops| > 0 {
      assert RatesNonNegative(ops[1..]) by {
        forall i | 0 <= i < |ops[1..]| && ops[1..][i].Rates?
          ensures ops[1..][i].charge >= 0 && ops[1..][i].discharge >= 0
        {
          assert ops[1..][i] == ops[i + 1];
        }
      }
      match ops[0] {
        case TickOp =>
          TickKeepsInRange(b, p.chargeRate, p.dischargeRate);
          ApplyKeepsInRange(Tick(b, p.chargeRate, p.dischargeRate).0, p, ops[1..]);
        case Write(q, v) =>
          SetKeepsInRange(b, q, v);
          ApplyKeepsInRange(SetProperty(b, q, v).0, p, ops[1..]);
        case Rates(c, d) =>
          assert ops[0].Rates?;
          ApplyKeepsInRange(b, p.(chargeRate := c, dischargeRate := d), ops[1..]);
      }
    }
  }

  /** A change of rate takes effect from the next tick: a negative discharge
      rate written at run time pushes the capacity past 100. */
  lemma NegativeRateWriteLeavesRange()
    ensures var p := Params(95, 1, 2, false, false);
            Apply(Probe(p), p, [Rates(2, -10), TickOp]).capacity == 105
  {
  }
}
