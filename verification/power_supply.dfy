/**
 The kernel power-supply vocabulary shared by the three battery drivers.

 The numbering follows the enums of `linux/power_supply.h` and the errno
 values of `linux/errno.h`; that header is not part of this model, only the
 numbers the drivers store and return are. A property getter either fills
 in an integer or a string and returns 0, or returns a negative errno.
 */
module PowerSupply {

  // POWER_SUPPLY_STATUS_*
  const STATUS_UNKNOWN: int := 0
  const STATUS_CHARGING: int := 1
  const STATUS_DISCHARGING: int := 2
  const STATUS_NOT_CHARGING: int := 3
  const STATUS_FULL: int := 4

  // POWER_SUPPLY_CAPACITY_LEVEL_*
  const LEVEL_UNKNOWN: int := 0
  const LEVEL_CRITICAL: int := 1
  const LEVEL_LOW: int := 2
  const LEVEL_NORMAL: int := 3
  const LEVEL_HIGH: int := 4
  const LEVEL_FULL: int := 5

  // POWER_SUPPLY_HEALTH_*
  const HEALTH_UNKNOWN: int := 0
  const HEALTH_GOOD: int := 1
  const HEALTH_OVERHEAT: int := 2
  const HEALTH_DEAD: int := 3
  const HEALTH_OVERVOLTAGE: int := 4
  const HEALTH_UNSPEC_FAILURE: int := 5

  const TECHNOLOGY_LION: int := 2
  const CHARGE_TYPE_FAST: int := 3
  const SCOPE_SYSTEM: int := 1

  const EINVAL: int := 22
  const ERANGE: int := 34

  const INT32_MIN: int := -0x8000_0000
  const INT32_MAX: int := 0x7fff_ffff

  predicate IsInt32(v: int) {
    INT32_MIN <= v <= INT32_MAX
  }

  /** The properties the drivers name; `OtherProp` stands for every other
      member of `enum power_supply_property`. */
  datatype Prop =
    | Status | ChargeType | Health | Present | Online | Technology
    | ChargeEmpty | ChargeFullDesign | ChargeFull | ChargeNow
    | Capacity | CapacityLevel | TimeToEmptyAvg | TimeToFullNow
    | ModelName | Manufacturer | SerialNumber
    | Temp | VoltageNow | CurrentNow | Scope
    | OtherProp

  /** What a `get_property` callback reports: the `intval` or `strval` it
      stored with a return of 0, or the negative errno it returned. */
  datatype Reply = IntVal(i: int) | StrVal(s: string) | Errno(code: int)

  /** C's `/` on `int`, which truncates toward zero. */
  function CDiv(a: int, b: int): (q: int)
    requires b > 0
    ensures a >= 0 ==> q * b <= a < q * b + b
    ensures a < 0 ==> q * b - b < a <= q * b
  {
    if a >= 0 then a / b else -((-a) / b)
  }
}
