/** The telemetry record every source produces and every sink consumes
    (src/receiver.rs). It is built once and then only read, so it is a value. */
module Receiver {
  import opened Types

  /** Rust `i64`. */
  type I64 = x: int | I64Min <= x <= I64Max

  /** One decoded snapshot of all fields of one inverter. `F` is the field
      descriptor type of the snapshot that produced it. */
  datatype Update<F> = Update(
    /** Nanoseconds since the UNIX epoch. */
    timestamp: I64,
    /** Inverter serial number. */
    serial: string,
    /** The fields contained in the update. */
    fields: seq<F>,
    /** One value per field, in the same order. */
    values: seq<real>)
  {
    /** The documented promise of the record: as many values as fields. */
    predicate Valid() { |values| == |fields| }
  }

  /** `Update::new`. The serial is converted to an owned string with the same
      characters; the other arguments are stored as given, unchecked: the
      record is valid exactly when the caller passed one value per field. */
  function New<F>(timestamp: I64, serial: string, fields: seq<F>, values: seq<real>): (u: Update<F>)
    ensures u.Valid() <==> |values| == |fields|
    ensures u.timestamp == timestamp && u.serial == serial
    ensures u.fields == fields && u.values == values
  {
    Update(timestamp, serial, fields, values)
  }
}
