/** The passive capture decoder (src/pcap.rs): a captured Ethernet frame is
    accepted as a telemetry packet only when its TCP payload has the fixed
    length and magic byte and carries a valid, unambiguous local timestamp;
    the record then holds the serial number and one value per catalog field.
    The Ethernet/IP/TCP slicing and the time-zone database are parameters. */
module Pcap {
  import opened Types
  import opened CivilTime
  import opened Fields
  import opened Receiver
  import Utf8

  /** A UTC offset in seconds east of UTC, as chrono's `FixedOffset` allows. */
  type UtcOffset = x: int | -86400 < x < 86400

  /** What a time zone says of a local date and time (chrono's `LocalResult`):
      one offset, two (a repeated hour) or none (a skipped hour). */
  datatype LocalResult = Single(offset: UtcOffset) | Ambiguous(earliest: UtcOffset, latest: UtcOffset) | NoSuchTime

  /** The configured time zone, as an oracle over local date-times. */
  type TimeZone = LocalDateTime -> LocalResult

  /** The Ethernet/IP/TCP slicer: the frame's TCP payload, or None for a frame
      it cannot parse. */
  type Slicer = seq<Byte> -> Option<seq<Byte>>

  const NanosPerSecond: int := 1_000_000_000

  /** The local date and time stored in the six header bytes, year relative to 2000. */
  function HeaderDateTime(payload: seq<Byte>): LocalDateTime
    requires DatetimeOffset + 5 < |payload|
  {
    LocalDateTime(payload[DatetimeOffset] as int + 2000, payload[DatetimeOffset + 1], payload[DatetimeOffset + 2],
                  payload[DatetimeOffset + 3], payload[DatetimeOffset + 4], payload[DatetimeOffset + 5])
  }

  /** A packet's local time in a year the header can hold fits an `i64` count
      of nanoseconds for every UTC offset. */
  lemma NanosFitI64(t: LocalDateTime, offset: UtcOffset)
    requires 2000 <= t.year <= 2255 && t.Valid()
    ensures IsI64((LocalSeconds(t) - offset) * NanosPerSecond)
  {
    DaysFromEpochBelow(t.year, t.month, t.day, 2256);
    assert DaysBeforeYear(2256) == 104459;
  }

  /** `parse_timestamp`: the header's local date and time, when it is a real
      date and time of day and the time zone gives it exactly one UTC offset,
      as nanoseconds since the UNIX epoch. */
  function ParseTimestamp(payload: seq<Byte>, tz: TimeZone): (r: Option<I64>)
    requires DatetimeOffset + 5 < |payload|
    ensures r.Some? <==> HeaderDateTime(payload).Valid() && tz(HeaderDateTime(payload)).Single?
    ensures r.Some? ==> r.value == (LocalSeconds(HeaderDateTime(payload)) - tz(HeaderDateTime(payload)).offset) * NanosPerSecond
  {
    var date := FromYmd(payload[DatetimeOffset] as int + 2000, payload[DatetimeOffset + 1], payload[DatetimeOffset + 2]);
    if date.None? then None
    else
      var dt := AndHms(date.value, payload[DatetimeOffset + 3], payload[DatetimeOffset + 4], payload[DatetimeOffset + 5]);
      if dt.None? then None
      else
        match tz(dt.value)
        case Single(offset) =>
          NanosFitI64(dt.value, offset);
          Some((LocalSeconds(dt.value) - offset) * NanosPerSecond)
        case _ => None
  }

  /** `i16::from_be_bytes`: the two's-complement value of the big-endian word. */
  function I16FromBeBytes(hi: Byte, lo: Byte): (v: int)
    ensures IsI16(v)
    ensures (v - (hi * 256 + lo)) % 0x1_0000 == 0
  {
    var w := hi * 256 + lo;
    if w >= 0x8000 then w - 0x1_0000 else w
  }

  /** `i16::to_be_bytes`, the inverse of `I16FromBeBytes`. */
  function I16ToBeBytes(v: int): (b: (Byte, Byte))
    requires IsI16(v)
  {
    var w := if v < 0 then v + 0x1_0000 else v;
    (w / 256, w % 256)
  }

  lemma I16BytesRoundTrip(v: int)
    requires IsI16(v)
    ensures I16FromBeBytes(I16ToBeBytes(v).0, I16ToBeBytes(v).1) == v
  {
  }

  lemma I16ValueRoundTrip(hi: Byte, lo: Byte)
    ensures I16ToBeBytes(I16FromBeBytes(hi, lo)) == (hi, lo)
  {
  }

  /** The raw value of a field: the signed word at its offset. */
  function RawValue(f: Field, payload: seq<Byte>): int
    requires f.offset + 2 <= |payload|
  {
    I16FromBeBytes(payload[f.offset], payload[f.offset + 1])
  }

  /** The physical value of a field, `raw * scale + bias`, over the reals. */
  function FieldValue(f: Field, payload: seq<Byte>): real
    requires f.offset + 2 <= |payload|
  {
    (RawValue(f, payload) as real) * f.scale + f.bias
  }

  /** The serial number: bytes 11..21 when they are UTF-8, else "unknown".
      A readable serial is exactly the text those bytes encode. */
  function SerialOf(payload: seq<Byte>): (s: string)
    requires SerialEnd <= |payload|
    ensures Utf8.WellFormed(payload[SerialStart..SerialEnd]) ==> Utf8.Encode(s) == payload[SerialStart..SerialEnd]
    ensures !Utf8.WellFormed(payload[SerialStart..SerialEnd]) ==> s == "unknown"
  {
    match Utf8.Decode(payload[SerialStart..SerialEnd])
    case Some(s) => Utf8.EncodeDecode(payload[SerialStart..SerialEnd]); s
    case None => "unknown"
  }

  /** The frames the decoder turns into a record. */
  predicate Accepts(frame: seq<Byte>, slice: Slicer, tz: TimeZone)
  {
    && slice(frame).Some?
    && |slice(frame).value| == MagicLength
    && slice(frame).value[0] == MagicHeader
    && ParseTimestamp(slice(frame).value, tz).Some?
  }

  /** `Codec::decode`: a record for an accepted frame and None for any other,
      never a partial record. The record's values follow the field table one
      for one and in order. */
  method Decode(frame: seq<Byte>, slice: Slicer, tz: TimeZone) returns (r: Option<Update<Field>>)
    ensures r.Some? <==> Accepts(frame, slice, tz)
    ensures r.Some? ==>
      var payload := slice(frame).value;
      && r.value.Valid()
      && r.value.timestamp == ParseTimestamp(payload, tz).value
      && r.value.serial == SerialOf(payload)
      && r.value.fields == Fields.Fields()
      && forall i :: 0 <= i < |Fields.Fields()| ==> r.value.values[i] == FieldValue(Fields.Fields()[i], payload)
  {
    var sliced := slice(frame);
    if sliced.Some? {
      var payload := sliced.value;
      if |payload| == MagicLength && payload[0] == MagicHeader {
        var dt := ParseTimestamp(payload, tz);
        if dt.None? {
          return None;
        }
        var serial := SerialOf(payload);
        var fields := Fields.Fields();
        var values := FieldValues(fields, payload);
        return Some(New(dt.value, serial, fields, values));
      }
    }
    return None;
  }

  /** The loop of `Codec::decode` that reads every field of the table in turn. */
  method FieldValues(fields: seq<Field>, payload: seq<Byte>) returns (values: seq<real>)
    requires forall i :: 0 <= i < |fields| ==> fields[i].offset + 2 <= |payload|
    ensures |values| == |fields|
    ensures forall i :: 0 <= i < |fields| ==> values[i] == FieldValue(fields[i], payload)
  {
    values := [];
    for i := 0 to |fields|
      invariant |values| == i
      invariant forall j :: 0 <= j < i ==> values[j] == FieldValue(fields[j], payload)
    {
      var field := fields[i];
      var bytes := payload[field.offset..field.offset + 2];
      var value := I16FromBeBytes(bytes[0], bytes[1]);
      values := values + [(value as real) * field.scale + field.bias];
    }
  }

  /** A frame whose payload has another length, or another first byte, gives no record. */
  lemma RejectsWrongShape(frame: seq<Byte>, slice: Slicer, tz: TimeZone)
    requires slice(frame).Some?
    requires |slice(frame).value| != MagicLength || (|slice(frame).value| > 0 && slice(frame).value[0] != MagicHeader)
    ensures !Accepts(frame, slice, tz)
  {
  }

  /** A local time the zone repeats or skips gives no record, and neither
      does a date or time of day that does not exist. */
  lemma RejectsUnclearTime(frame: seq<Byte>, slice: Slicer, tz: TimeZone)
    requires slice(frame).Some? && |slice(frame).value| == MagicLength
    requires !HeaderDateTime(slice(frame).value).Valid() || !tz(HeaderDateTime(slice(frame).value)).Single?
    ensures !Accepts(frame, slice, tz)
  {
  }

  /** The BPF filter: TCP, narrowed by the configured expression if any. The
      expression can always be read back from the filter. */
  function CaptureFilter(expr: Option<string>): (f: string)
    ensures expr.None? ==> f == "tcp"
    ensures FilterExpression(f) == expr
  {
    match expr
    case Some(e) =>
      var f := "(tcp) and (" + e + ")";
      assert f[..11] == "(tcp) and (" && f[11..|f| - 1] == e;
      f
    case None => "tcp"
  }

  /** Reads the configured expression back from a filter string. */
  function FilterExpression(f: string): Option<string>
  {
    if f == "tcp" then None
    else if |f| >= 12 && f[..11] == "(tcp) and (" && f[|f| - 1] == ')' then Some(f[11..|f| - 1])
    else None
  }

  /** Different configurations give different filters. */
  lemma CaptureFilterInjective(a: Option<string>, b: Option<string>)
    requires CaptureFilter(a) == CaptureFilter(b)
    ensures a == b
  {
    assert FilterExpression(CaptureFilter(a)) == a;
  }

  // Worked examples from a packet captured in Africa/Johannesburg (UTC+2, no DST).

  /** Local 2022-11-05 08:32:46 at UTC+2 is 1667629966 seconds after the epoch. */
  lemma TimestampExample(payload: seq<Byte>)
    requires |payload| == MagicLength
    requires payload[37..43] == [22, 11, 5, 8, 32, 46]
    ensures ParseTimestamp(payload, t => Single(7200)) == Some(1667629966000000000)
  {
    assert payload[37] == 22 && payload[38] == 11 && payload[39] == 5;
    assert payload[40] == 8 && payload[41] == 32 && payload[42] == 46;
    assert DaysFromEpoch(2022, 11, 5) == 19301;
  }

  /** Raw words 2333, 1210 and 54 decode to a grid voltage of 233.3 V, a
      battery temperature of 21.0 degrees and a state of charge of 54 %. */
  lemma ValuesExample(payload: seq<Byte>)
    requires |payload| == MagicLength
    requires payload[176..178] == [0x09, 0x1D] && payload[240..242] == [0x04, 0xBA] && payload[244..246] == [0x00, 0x36]
    ensures Fields.Fields()[14].id == "grid_voltage" && FieldValue(Fields.Fields()[14], payload) == 233.3
    ensures Fields.Fields()[22].id == "battery_temperature" && FieldValue(Fields.Fields()[22], payload) == 21.0
    ensures Fields.Fields()[24].id == "battery_soc" && FieldValue(Fields.Fields()[24], payload) == 54.0
  {
    assert payload[176] == 0x09 && payload[177] == 0x1D;
    assert payload[240] == 0x04 && payload[241] == 0xBA;
    assert payload[244] == 0x00 && payload[245] == 0x36;
  }

  /** Ten ASCII digits in the serial range are the serial. */
  lemma SerialExample(payload: seq<Byte>)
    requires |payload| == MagicLength
    requires payload[11..21] == [0x31, 0x32, 0x33, 0x35, 0x36, 0x38, 0x37, 0x31, 0x30, 0x38]
    ensures SerialOf(payload) == "1235687108"
  {
    DigitsDecode(payload[SerialStart..SerialEnd]);
  }

  lemma DigitsDecode(b: seq<Byte>)
    requires b == [0x31, 0x32, 0x33, 0x35, 0x36, 0x38, 0x37, 0x31, 0x30, 0x38]
    ensures Utf8.Decode(b) == Some("1235687108")
  {
    Utf8.AsciiWellFormed(b);
    var s := Utf8.Decode(b).value;
    forall i | 0 <= i < 10
      ensures s[i] == "1235687108"[i]
    {
      assert s[i] as int == b[i];
    }
    assert |s| == 10;
    assert s == "1235687108";
  }
}
