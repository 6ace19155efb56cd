/** The field catalog of the older snapshot (src/fields.rs): what each
    telemetry field is, where it sits in a captured packet, and how its raw
    value becomes a physical one. The constructors fix scale, bias and unit by
    field type; `Fields()` is the static table the packet decoder walks. */
module Fields {
  import opened Types

  /** The kinds of quantity a field can hold. The older snapshot's
      constructors use the first eight; the build-time generator also knows
      `Time` and `Unitless`. */
  datatype FieldType =
    | Charge | Current | Energy | Frequency | Power
    | StateOfCharge | Temperature | Time | Voltage | Unitless

  /** One telemetry field: a big-endian signed 16-bit word at byte `offset`
      of the packet, shown as `raw * scale + bias` in `unit`. */
  datatype Field = Field(
    fieldType: FieldType,
    offset: nat,
    group: string,
    name: string,
    id: string,
    scale: real,
    bias: real,
    unit: string)

  /** The default scale of a field type; `Current` and `Voltage` have none and
      must be given one explicitly. Every default is positive, and only the
      types whose registers are not kept in the display unit have a default
      other than one. */
  function DefaultScale(t: FieldType): (r: Option<real>)
    ensures r.None? <==> t.Current? || t.Voltage?
    ensures r.Some? ==> r.value > 0.0
    ensures r.Some? && r.value != 1.0 <==> t.Energy? || t.Temperature? || t.Frequency? || t.Time?
  {
    match t
    case Charge | Power | StateOfCharge | Unitless => Some(1.0)
    case Energy | Temperature => Some(0.1)
    case Frequency => Some(0.01)
    case Current | Voltage => None
    case Time => Some(60.0)
  }

  /** The bias of a field type: only temperatures are offset, downwards, by
      a hundred degrees. */
  function DefaultBias(t: FieldType): (r: real)
    ensures r != 0.0 <==> t.Temperature?
    ensures t.Temperature? ==> r == -100.0
  {
    if t.Temperature? then -100.0 else 0.0
  }

  /** The unit string of a field type: empty only for unitless fields, and
      never longer than three characters. */
  function UnitOf(t: FieldType): (r: string)
    ensures r == "" <==> t.Unitless?
    ensures |r| <= 3
  {
    match t
    case Charge => "Ah"
    case Current => "A"
    case Energy => "kWh"
    case Frequency => "Hz"
    case Power => "W"
    case StateOfCharge => "%"
    case Temperature => "\U{00B0}C"
    case Time => "s"
    case Voltage => "V"
    case Unitless => ""
  }

  /** A field whose bias and unit are those of its type, and whose scale is
      the type's default whenever the type has one. */
  predicate FollowsTypeDefaults(f: Field)
  {
    && f.bias == DefaultBias(f.fieldType)
    && f.unit == UnitOf(f.fieldType)
    && (DefaultScale(f.fieldType).Some? ==> f.scale == DefaultScale(f.fieldType).value)
  }

  /** The constructor copies position, group, name and id unchanged. */
  predicate Keeps(f: Field, offset: nat, group: string, name: string, id: string)
  {
    f.offset == offset && f.group == group && f.name == name && f.id == id
  }

  function PowerName(offset: nat, group: string, name: string, id: string): (r: Field)
    ensures r.fieldType == FieldType.Power && Keeps(r, offset, group, name, id)
    ensures FollowsTypeDefaults(r)
  {
    Field(FieldType.Power, offset, group, name, id, 1.0, 0.0, "W")
  }

  function Power(offset: nat, group: string, id: string): (r: Field)
    ensures r.fieldType == FieldType.Power && Keeps(r, offset, group, "Power", id)
    ensures FollowsTypeDefaults(r)
  {
    PowerName(offset, group, "Power", id)
  }

  function VoltageName(offset: nat, group: string, name: string, id: string, scale: real): (r: Field)
    ensures r.fieldType == FieldType.Voltage && Keeps(r, offset, group, name, id)
    ensures r.scale == scale && FollowsTypeDefaults(r)
  {
    Field(FieldType.Voltage, offset, group, name, id, scale, 0.0, "V")
  }

  function Voltage(offset: nat, group: string, id: string, scale: real): (r: Field)
    ensures r.fieldType == FieldType.Voltage && Keeps(r, offset, group, "Voltage", id)
    ensures r.scale == scale && FollowsTypeDefaults(r)
  {
    VoltageName(offset, group, "Voltage", id, scale)
  }

  function CurrentName(offset: nat, group: string, name: string, id: string, scale: real): (r: Field)
    ensures r.fieldType == FieldType.Current && Keeps(r, offset, group, name, id)
    ensures r.scale == scale && FollowsTypeDefaults(r)
  {
    Field(FieldType.Current, offset, group, name, id, scale, 0.0, "A")
  }

  function Current(offset: nat, group: string, id: string, scale: real): (r: Field)
    ensures r.fieldType == FieldType.Current && Keeps(r, offset, group, "Current", id)
    ensures r.scale == scale && FollowsTypeDefaults(r)
  {
    CurrentName(offset, group, "Current", id, scale)
  }

  function TemperatureName(offset: nat, group: string, name: string, id: string): (r: Field)
    ensures r.fieldType == FieldType.Temperature && Keeps(r, offset, group, name, id)
    ensures FollowsTypeDefaults(r)
  {
    Field(FieldType.Temperature, offset, group, name, id, 0.1, -100.0, "\U{00B0}C")
  }

  function Temperature(offset: nat, group: string, id: string): (r: Field)
    ensures r.fieldType == FieldType.Temperature && Keeps(r, offset, group, "Temperature", id)
    ensures FollowsTypeDefaults(r)
  {
    TemperatureName(offset, group, "Temperature", id)
  }

  function Frequency(offset: nat, group: string, id: string): (r: Field)
    ensures r.fieldType == FieldType.Frequency && Keeps(r, offset, group, "Frequency", id)
    ensures FollowsTypeDefaults(r)
  {
    Field(FieldType.Frequency, offset, group, "Frequency", id, 0.01, 0.0, "Hz")
  }

  function Energy(offset: nat, group: string, name: string, id: string): (r: Field)
    ensures r.fieldType == FieldType.Energy && Keeps(r, offset, group, name, id)
    ensures FollowsTypeDefaults(r)
  {
    Field(FieldType.Energy, offset, group, name, id, 0.1, 0.0, "kWh")
  }

  function Charge(offset: nat, group: string, name: string, id: string): (r: Field)
    ensures r.fieldType == FieldType.Charge && Keeps(r, offset, group, name, id)
    ensures FollowsTypeDefaults(r)
  {
    Field(FieldType.Charge, offset, group, name, id, 1.0, 0.0, "Ah")
  }

  function StateOfCharge(offset: nat, group: string, id: string): (r: Field)
    ensures r.fieldType == FieldType.StateOfCharge && Keeps(r, offset, group, "SOC", id)
    ensures FollowsTypeDefaults(r)
  {
    Field(FieldType.StateOfCharge, offset, group, "SOC", id, 1.0, 0.0, "%")
  }

  /** Length of the telemetry packet's payload. */
  const MagicLength: nat := 292
  /** First byte of every telemetry packet. */
  const MagicHeader: Byte := 0xA5
  /** The serial number occupies bytes `SerialStart .. SerialEnd` (end exclusive). */
  const SerialStart: nat := 11
  const SerialEnd: nat := 21
  /** First of the six bytes YY MM DD hh mm ss of the local date and time. */
  const DatetimeOffset: nat := 37

  /** The header ranges lie inside an accepted payload, so reading them never
      goes out of bounds. */
  lemma HeaderInBounds()
    ensures SerialStart <= SerialEnd <= MagicLength && SerialEnd - SerialStart == 10
    ensures 0 < DatetimeOffset && DatetimeOffset + 5 < MagicLength
  {
  }

  /** A field that can be decoded from an accepted payload and whose scale,
      bias and unit are those its type prescribes. */
  predicate WellFormedField(f: Field)
  {
    0 < f.offset && f.offset + 2 <= MagicLength && FollowsTypeDefaults(f)
  }

  /** The static field table, in packet order. Every field's two bytes lie
      inside a payload of `MagicLength` bytes, and every field has the scale,
      bias and unit its type prescribes. */
  function Fields(): (fs: seq<Field>)
    ensures |fs| == 35
    ensures forall i :: 0 <= i < |fs| ==> WellFormedField(fs[i])
  {
    FieldsPart1() + FieldsPart2() + FieldsPart3() + FieldsPart4() + FieldsPart5()
  }

  function FieldsPart1(): (fs: seq<Field>)
    ensures |fs| == 7 && forall i :: 0 <= i < |fs| ==> WellFormedField(fs[i])
  {
    [ Energy(70, "Battery", "Total charge", "battery_charge_total"),
      Energy(74, "Battery", "Total discharge", "battery_discharge_total"),
      Energy(82, "Grid", "Total import", "grid_import_total"),
      Frequency(84, "Grid", "grid_frequency"),
      Energy(88, "Grid", "Total export", "grid_export_total"),
      Energy(96, "Load", "Total consumption", "load_consumption_total"),
      TemperatureName(106, "Inverter", "DC Temperature", "inverter_temperature_dc")
    ]
  }

  function FieldsPart2(): (fs: seq<Field>)
    ensures |fs| == 7 && forall i :: 0 <= i < |fs| ==> WellFormedField(fs[i])
  {
    [ TemperatureName(108, "Inverter", "AC Temperature", "inverter_temperature_ac"),
      Energy(118, "PV", "Total production", "pv_production_total"),
      Charge(140, "Battery", "Capacity", "battery_capacity"),
      VoltageName(144, "PV", "Voltage 1", "pv_voltage 1", 0.1),
      CurrentName(146, "PV", "Current 1", "pv_current_1", 0.1),
      VoltageName(148, "PV", "Voltage 2", "pv_voltage_2", 0.1),
      CurrentName(150, "PV", "Current 2", "pv_current_2", 0.1)
    ]
  }

  function FieldsPart3(): (fs: seq<Field>)
    ensures |fs| == 7 && forall i :: 0 <= i < |fs| ==> WellFormedField(fs[i])
  {
    [ Voltage(176, "Grid", "grid_voltage", 0.1),
      Voltage(184, "Load", "load_voltage", 0.1),
      Current(196, "Grid", "grid_current", 0.01),
      Current(204, "Load", "load_current", 0.01),
      PowerName(210, "Grid", "Power L1", "grid_power_l1"),
      Power(216, "Grid", "grid_power"),
      Power(222, "Inverter", "inverter_power")
    ]
  }

  function FieldsPart4(): (fs: seq<Field>)
    ensures |fs| == 7 && forall i :: 0 <= i < |fs| ==> WellFormedField(fs[i])
  {
    [ Power(228, "Load", "load_power"),
      Temperature(240, "Battery", "battery_temperature"),
      Voltage(242, "Battery", "battery_voltage", 0.01),
      StateOfCharge(244, "Battery", "battery_soc"),
      Power(248, "PV", "pv_power"),
      Power(256, "Battery", "battery_power"),
      Current(258, "Battery", "battery_current", 0.01)
    ]
  }

  function FieldsPart5(): (fs: seq<Field>)
    ensures |fs| == 7 && forall i :: 0 <= i < |fs| ==> WellFormedField(fs[i])
  {
    [ Frequency(260, "Load", "load_frequency"),
      VoltageName(276, "BMS", "Charge Voltage", "bms_charge_voltage", 0.01),
      CurrentName(280, "BMS", "Charge Limit Current", "bms_charge_limit_current", 1.0),
      CurrentName(282, "BMS", "Discharge Limit Current", "bms_discharge_limit_current", 1.0),
      Voltage(286, "BMS", "bms_voltage", 0.01),
      Current(288, "BMS", "bms_current", 1.0),
      Temperature(290, "BMS", "bms_temperature")
    ]
  }
}
