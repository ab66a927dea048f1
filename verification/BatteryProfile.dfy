/** The battery profile: chemistry templates for 12 V and their scaling. */
module BatteryProfile {

  const LEAD_ACID := 0
  const AGM := 1
  const GEL := 2
  const LIFEPO4 := 3
  const LITHIUM_ION := 4
  const TYPE_COUNT := 6

  const CAPACITY_MIN := 1
  const CAPACITY_MAX := 10000
  const CAPACITY_DEFAULT := 200

  /** The fields of battery_profile_t that settings store or the clamp reads. */
  datatype Profile = Profile(
    profileId: int,
    nominalVoltage: int,
    capacityAh: real,
    cutoff: real,
    cutoffMin: real,
    highBattery: real,
    recharge: real,
    maxCharge: real,
    maxDischarge: real)

  datatype Template = Template(cutoff: real, cutoffMin: real, highBattery: real, recharge: real,
                               maxCharge: real, maxDischarge: real)

  /** The base profiles; an initialiser that omits high_battery_voltage_v leaves it zero. */
  function Base(batteryType: int): Template
    requires 0 <= batteryType < TYPE_COUNT
  {
    if batteryType == LEAD_ACID then Template(10.5, 10.0, 15.5, 11.5, 20.0, 100.0)
    else if batteryType == AGM then Template(10.8, 10.5, 0.0, 11.5, 30.0, 100.0)
    else if batteryType == GEL then Template(11.0, 10.5, 0.0, 11.8, 25.0, 80.0)
    else if batteryType == LIFEPO4 then Template(11.0, 10.0, 0.0, 12.4, 50.0, 100.0)
    else if batteryType == LITHIUM_ION then Template(9.0, 8.4, 0.0, 10.5, 50.0, 100.0)
    else Template(10.0, 9.0, 0.0, 12.0, 50.0, 200.0)
  }

  predicate ValidVoltage(v: int) { v == 12 || v == 24 || v == 48 }

  predicate ValidType(t: int) { 0 <= t < TYPE_COUNT }

  predicate ValidCapacity(c: real) { CAPACITY_MIN as real <= c <= CAPACITY_MAX as real }

  datatype Generated = NoProfile | Made(profile: Profile)

  /** battery_generate_profile. */
  function Generate(batteryType: int, voltage: int, capacity: int): Generated {
    if !ValidType(batteryType) || capacity < CAPACITY_MIN || capacity > CAPACITY_MAX || !ValidVoltage(voltage) then NoProfile
    else
      var base, volts, amps := Base(batteryType), voltage as real / 12.0, capacity as real / 100.0;
      Made(Profile(batteryType, voltage, capacity as real, base.cutoff * volts, base.cutoffMin * volts,
                   base.highBattery * volts, base.recharge * volts, base.maxCharge * amps, base.maxDischarge * amps))
  }

  /** lroundf. */
  function Nearest(x: real): int {
    if x >= 0.0 then (x + 0.5).Floor else -((0.5 - x).Floor)
  }

  lemma Proportion(x: real, n: real, d: real)
    requires d > 0.0
    ensures d * (x * (n / d)) == n * x
  {
    assert d * (n / d) == n;
    assert d * (x * (n / d)) == (d * (n / d)) * x;
  }

  /** Voltages scale with the system voltage, currents with the capacity. */
  lemma GeneratedScales(batteryType: int, voltage: int, capacity: int)
    requires Generate(batteryType, voltage, capacity).Made?
    ensures var p, q := Generate(batteryType, voltage, capacity).profile, Generate(batteryType, 12, 100).profile;
            && 12.0 * p.cutoff == voltage as real * q.cutoff && 12.0 * p.cutoffMin == voltage as real * q.cutoffMin
            && 12.0 * p.highBattery == voltage as real * q.highBattery && 12.0 * p.recharge == voltage as real * q.recharge
            && 100.0 * p.maxCharge == capacity as real * q.maxCharge && 100.0 * p.maxDischarge == capacity as real * q.maxDischarge
  {
    var base, v, c := Base(batteryType), voltage as real, capacity as real;
    Proportion(base.cutoff, v, 12.0);
    Proportion(base.cutoffMin, v, 12.0);
    Proportion(base.highBattery, v, 12.0);
    Proportion(base.recharge, v, 12.0);
    Proportion(base.maxCharge, c, 100.0);
    Proportion(base.maxDischarge, c, 100.0);
  }

  /** Every generated profile cuts off between its floor and its recharge voltage. */
  lemma GeneratedIsOrdered(batteryType: int, voltage: int, capacity: int)
    requires Generate(batteryType, voltage, capacity).Made?
    ensures var p := Generate(batteryType, voltage, capacity).profile;
            0.0 < p.cutoffMin <= p.cutoff <= p.recharge - 0.5 && 0.0 < p.maxCharge <= p.maxDischarge
  {
  }
}
