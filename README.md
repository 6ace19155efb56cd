# sunsniff, modelled in Dafny

sunsniff collects telemetry from a Deye/Sunsynk solar inverter. There are two sources:

- **Passive capture.** It sniffs the TCP packets the inverter's Wi-Fi logger sends to
  the cloud. A packet of 292 bytes starting with 0xA5 carries a local date and time,
  the inverter serial and one big-endian 16-bit value per field.
- **Modbus polling.** It asks the inverter for its holding registers, one register at a
  time, on a timer.

Either source produces an `Update`: a nanosecond timestamp, the serial, the field
catalog, and one value per field. A dispatcher hands every update to every sink, and
closes the sinks when the capture ends. The MQTT sink works with Home Assistant
discovery:

- It announces each sensor once, with a retained config message.
- It publishes every value on the sensor's state topic.
- It remembers a sensor only when the broker took its announcement.

The field catalogs are generated at build time from a CSV table. Each row has an
optional scale, and either a byte offset, a register, or both.

The model has one module per concern:

| module | file | concern |
|---|---|---|
| `Types` | `types.dfy` | bytes, words, `Option`/`Result`, the uniqueness of Euclidean division |
| `Fields` | `fields.dfy` | the field constructors of `src/fields.rs` and its static 35-field table |
| `Catalog` | `catalog.dfy` | the build-time generator (`build.rs`), producing its tables as data |
| `Receiver` | `receiver.dfy` | the `Update` record |
| `CivilTime` | `civil_time.dfy` | proleptic Gregorian dates and local seconds since the epoch |
| `Utf8` | `utf8.dfy` | UTF-8 as in section 4 of RFC 3629, the check behind `std::str::from_utf8` |
| `Pcap` | `pcap.dfy` | packet acceptance, the timestamp, the values, the serial and the capture filter |
| `Modbus` | `modbus.dfy` | the serial read at start-up, and `read_values` with its polling tick |
| `Dispatch` | `dispatch.dfy` | `run` in `src/main.rs` |
| `Mqtt` | `mqtt.dfy` | `DeviceField`, `CLASSES`, `register_field` and the receiver loop |

Pure code (the field constructors, timestamp parsing, value conversion, the topic
names) is written as functions. Loops that build tables or values are written as
methods whose loop invariants tie them to a specification function. Their
postconditions state the whole result:

- the generator's loops;
- the value loop of `decode`;
- `read_values` and its inner register loop;
- the serial unpacking;
- the dispatch loop;
- the MQTT loop.

Objects the source mutates are classes:

- the Modbus context;
- the `UnboundedSender` slice;
- the capture stream;
- the MQTT client;
- `MqttReceiver` with its `registered` set.

Things outside the program are scripted or passed in:

- the inverter's replies;
- the broker's acceptance of each publish;
- each channel's state;
- the time zone;
- the Ethernet slicer;
- the conversion `from_u16s`;
- the present time.

## Model

| member | source | states |
|---|---|---|
| Fields.DefaultScale | build.rs:62-68 | exactly currents and voltages have no default scale and need one in the CSV; every default is positive; energy, temperature, frequency and time are the types whose default is not one |
| Fields.DefaultBias | build.rs:69-72 | only temperatures have a bias, and it is -100 |
| Fields.UnitOf | build.rs:73-84 | only unitless fields have an empty unit; no unit is longer than three characters |
| Fields.PowerName | src/fields.rs:44-55 | a power field keeps offset, group, name and id; it has scale 1, bias 0 and unit "W", as its type prescribes |
| Fields.Power | src/fields.rs:57-59 | `power_name` with the name "Power" |
| Fields.VoltageName | src/fields.rs:61-72 | a voltage field keeps the given scale; its bias and unit are the type's |
| Fields.Voltage | src/fields.rs:74-76 | `voltage_name` with the name "Voltage" |
| Fields.CurrentName | src/fields.rs:78-89 | a current field keeps the given scale; its bias and unit are the type's |
| Fields.Current | src/fields.rs:91-93 | `current_name` with the name "Current" |
| Fields.TemperatureName | src/fields.rs:95-111 | a temperature field has scale 0.1, bias -100 and unit °C |
| Fields.Temperature | src/fields.rs:113-115 | `temperature_name` with the name "Temperature" |
| Fields.Frequency | src/fields.rs:117-128 | a frequency field named "Frequency" has scale 0.01 and unit Hz |
| Fields.Energy | src/fields.rs:130-143 | an energy field has scale 0.1 and unit kWh |
| Fields.Charge | src/fields.rs:145-156 | a charge field has scale 1 and unit Ah |
| Fields.StateOfCharge | src/fields.rs:158-169 | a state-of-charge field named "SOC" has scale 1 and unit % |
| Fields.HeaderInBounds | src/fields.rs:172-175 | the serial range has 10 bytes, and it and the six date/time bytes lie inside a 292-byte payload |
| Fields.Fields | src/fields.rs:176-212 | the table has 35 fields; every field's two bytes lie inside the payload, and every field has its type's scale, bias and unit |
| Catalog.Describe | build.rs:61-98 | a record fails exactly when it has no scale and its type has no default; otherwise the literal copies type, group, name and id, takes the explicit scale or else the default, and takes bias and unit from the type |
| Catalog.MissingScaleOnlyForCurrentAndVoltage | build.rs:62-68 | only current and voltage records without a scale make the generator fail |
| Catalog.UnitDeterminesType | build.rs:73-84 | different field types have different units |
| Catalog.Upper | build.rs:108 | upper-casing of an ASCII id keeps the length, maps a-z to A-Z and leaves every other character alone |
| Catalog.WriteFields | build.rs:54-115 | succeeds exactly when every record has a scale; the error names the first that has none; field `i` is record `i`'s literal, and index constant `i` is its upper-cased id with value `i` |
| Catalog.Partition | build.rs:128-149 | the capture records are exactly the records with an offset, in order, each with `[offset]` or `[offset, offset2]`; the polled records are exactly those with a register, each with `[]` for a negative register, else `[reg]` or `[reg, reg2]` |
| Catalog.OffsetsOf | build.rs:130-137 | one or two offsets, the second exactly when `offset2` is given |
| Catalog.RegsOf | build.rs:138-148 | no register when `reg` is negative; otherwise `reg`, followed by `reg2` exactly when given |
| Catalog.Build | build.rs:117-177 | the build succeeds exactly when every record that is captured or polled has a scale; a failure names the first such record, with the capture catalog written first; both catalogs, their offset and register tables and their index constants correspond position by position to the filtered records |
| Catalog.NoFailureInFilter | build.rs:151-170 | a missing scale among either catalog's records is a missing scale among the captured or polled records |
| Catalog.FilterMembers | build.rs:130-131 | a record lands in a catalog exactly when it is in the CSV and has the catalog's column |
| Catalog.PositionsPick | build.rs:104-111 | the `k`-th field of a catalog is the CSV row at position `Positions[k]` |
| Catalog.PositionsIncrease | build.rs:128-149 | catalog order is CSV order |
| Catalog.PositionsCover | build.rs:128-149 | every CSV row with the column appears in the catalog |
| Receiver.New | src/receiver.rs:46-58 | the record stores its arguments unchanged; it has one value per field exactly when the caller passed as many values as fields |
| CivilTime.FromYmd | src/pcap.rs:54-58 | a date exists exactly when the month is 1-12 and the day is within that month of that (Gregorian) year |
| CivilTime.AndHms | src/pcap.rs:59-63 | a time of day exists exactly when the hour is below 24 and the minute and second below 60 (no leap second) |
| CivilTime.DaysFromEpochCounts | src/pcap.rs:64 | the closed-form day number equals counting the days year by year and month by month from 1970-01-01 |
| CivilTime.LocalSecondsIncrease | src/pcap.rs:64 | a later local date and time has more seconds since the epoch |
| CivilTime.LocalSecondsInjective | src/pcap.rs:64 | different local date-times have different second counts |
| Utf8.Decode | src/pcap.rs:86-87 | a byte string decodes exactly when it is well-formed UTF-8 |
| Utf8.DecodeEncode | src/modbus.rs:83 | every string encodes to bytes that decode back to it |
| Utf8.EncodeDecode | src/modbus.rs:83 | decoding well-formed bytes and encoding again gives the same bytes |
| Pcap.ParseTimestamp | src/pcap.rs:53-69 | a timestamp exists exactly when the six header bytes form a valid date and time (year 2000 + byte) and the time zone gives it one offset; it is then the local seconds minus the offset, in nanoseconds |
| Pcap.NanosFitI64 | src/pcap.rs:100 | every header timestamp's nanosecond count fits in an `i64`, so `timestamp_nanos` never overflows |
| Pcap.I16FromBeBytes | src/pcap.rs:96 | the value is a signed 16-bit number congruent to `hi * 256 + lo` modulo 2^16 |
| Pcap.I16BytesRoundTrip | src/pcap.rs:96 | every `i16` survives conversion to big-endian bytes and back |
| Pcap.I16ValueRoundTrip | src/pcap.rs:96 | every byte pair survives conversion to `i16` and back |
| Pcap.SerialOf | src/pcap.rs:86-87 | the serial is the string whose UTF-8 encoding is bytes 11-20 when they are well formed, and "unknown" otherwise |
| Pcap.Decode | src/pcap.rs:75-105 | a record exists exactly when the frame slices to a 292-byte payload starting with 0xA5 whose timestamp parses; it then has the parsed timestamp, the serial, the full field table, one value per field, and value `i` equal to field `i`'s raw `i16` times scale plus bias |
| Pcap.FieldValues | src/pcap.rs:92-99 | one value per field, in order, each the field's scaled and biased raw value |
| Pcap.RejectsWrongShape | src/pcap.rs:77-79 | a payload of the wrong length or with the wrong first byte is never accepted |
| Pcap.RejectsUnclearTime | src/pcap.rs:80-85 | a payload whose local time is invalid, skipped or repeated is never accepted |
| Pcap.CaptureFilter | src/pcap.rs:111-115 | without a user expression the filter is "tcp"; the user's expression, or its absence, can be read back from the filter |
| Pcap.CaptureFilterInjective | src/main.rs:205-209 | different user expressions give different filters |
| Pcap.TimestampExample | src/pcap.rs:53-69 | header 22-11-05 08:32:46 at UTC+2 is 1667629966 s after the epoch |
| Pcap.ValuesExample | src/fields.rs:191-201 | example bytes decode to grid voltage 233.3 V, battery temperature 21.0 °C and state of charge 54 % |
| Pcap.SerialExample | src/pcap.rs:86-87 | ASCII digits in bytes 11-20 are the serial |
| Modbus.Reply | src/modbus.rs:59 | a read succeeds exactly when the device answers with as many words as were asked for |
| Modbus.Context.ReadHoldingRegisters | src/modbus.rs:59 | each call logs its request and consumes one scripted reply |
| Modbus.ReadField | src/modbus.rs:57-60 | reads a field's registers one at a time; stops at the first failed read and returns its error; otherwise the parts buffer holds the words read, in order |
| Modbus.FieldReadsMeaning | src/modbus.rs:57-60 | the reads of one field all succeed exactly when each scripted reply in turn is good; on failure the error is the first bad reply's, and just the reads up to it were sent |
| Modbus.ReadValues | src/modbus.rs:53-65 | the poll's result, requests and script position are those of the specification `Poll` over the zipped (field, registers) pairs |
| Modbus.PollMeaning | src/modbus.rs:53-65 | a poll succeeds exactly when every register read is answered with one word; value `f` is `from_u16s` of field `f`'s words; a failure returns the first bad reply's error after the reads up to it; each read asks for one register |
| Modbus.PollStaysFailed | src/modbus.rs:59 | once a read fails the rest of the poll is skipped |
| Modbus.UnpackSerial | src/modbus.rs:77-82 | the ten serial bytes are the five words, each split high byte first |
| Modbus.BeWordsBytes | src/modbus.rs:79-81 | splitting words into bytes and joining them again gives the words |
| Modbus.BeBytesWords | src/modbus.rs:79-81 | joining bytes into words and splitting them again gives the bytes |
| Modbus.Identify | src/modbus.rs:76-83 | one request for five registers from address 3; a failed read is an error; otherwise the serial exists exactly when the unpacked bytes are well-formed UTF-8, and it then encodes to those bytes |
| Modbus.Tick | src/modbus.rs:89-98 | a tick produces an update exactly when the poll succeeds; the update has the present time, the serial, the catalog and the polled values, one per field |
| Dispatch.Sinks.Send | src/main.rs:166 | a hand-over succeeds exactly when the channel is open and its receiver has not yet taken all the records it takes before dropping its half; only then is the record appended, and only to that channel |
| Dispatch.Sinks.Close | src/main.rs:177 | closing succeeds as the environment says and marks only that channel closed |
| Dispatch.Source.Next | src/main.rs:162 | yields the next item and advances, or reports the end of the stream |
| Dispatch.Broadcast | src/main.rs:165-167 | the record reaches the sinks in order up to the first refusing one, which is the error; the rest are untouched |
| Dispatch.CloseAll | src/main.rs:176-178 | the sinks are closed in order up to the first that fails, which is the error |
| Dispatch.Run | src/main.rs:157-180 | the verdict, the channels and the number of items taken are those of the specification `Dispatched` |
| Dispatch.DispatchedMeaning | src/main.rs:157-180 | a run ends at the first capture error, or at the first record some sink refuses (which may be any record, not only the first), whichever comes first; every earlier record goes to every sink, in order; the refused record goes to the sinks before the refusing one; packets decoding to nothing are skipped; at the end of the stream the sinks are closed up to the first failure |
| Dispatch.FirstStall | src/main.rs:164-168 | the position of the first refused record is within the stream and, when it is not the end, holds a record |
| Dispatch.FirstStallMeaning | src/main.rs:164-168 | no record before that position is refused once the records before it reached every sink; the record at that position is refused by some sink |
| Dispatch.RefusesAfter | src/main.rs:166 | after a batch of records reached every sink, some sink refuses the next exactly when one of them is closed or its receiver has taken all the records it takes |
| Dispatch.RefusalMidStream | src/main.rs:157-180 | a sink whose receiver goes away after one record takes the first record and refuses the second; the run then fails after two items |
| Dispatch.FirstError | src/main.rs:163 | the position of the first capture error, with every earlier item successful |
| Dispatch.FirstRefusing | src/main.rs:166 | the position of the first sink that refuses, with every earlier sink accepting |
| Dispatch.DeliveredAllKeepsClosable | src/main.rs:165-167 | handing records over does not change which sinks can be closed |
| Dispatch.DeliveredAllConcat | src/main.rs:161-175 | handing over records in two batches is the same as in one |
| Mqtt.ClassesByType | src/mqtt.rs:53-62 | every field type but Time and Unitless has a class; frequency and charge have no device class; only energy is "total_increasing", the rest "measurement" |
| Mqtt.NewDeviceField | src/mqtt.rs:93-104 | the unique id is `sunsniff_<serial>_<field id>`; the state and config topics are `homeassistant/sensor/<unique id>/state` and `/config`; the descriptor and serial are kept |
| Mqtt.StateTopicNamesId | src/mqtt.rs:94-95 | a state topic determines its unique id |
| Mqtt.StateNeverConfig | src/mqtt.rs:95-96 | no state topic equals any config topic |
| Mqtt.UniqueIdInjective | src/mqtt.rs:94 | for serials of one length, the unique id determines serial and field id |
| Mqtt.ConfigMessage | src/mqtt.rs:130-150 | the announcement is retained, at-least-once, on the config topic, and names the field's unique id |
| Mqtt.StateMessage | src/mqtt.rs:171-172 | a value message goes to the state topic, is not retained and carries the value |
| Mqtt.ConfigPointsAtState | src/mqtt.rs:141 | the announcement tells Home Assistant the topic the values arrive on |
| Mqtt.RegisterIdempotent | src/mqtt.rs:129-152 | once an announcement reached the broker, registering again sends nothing |
| Mqtt.RegisterRetries | src/mqtt.rs:151-152 | a refused announcement is not remembered, so the next attempt announces again |
| Mqtt.RegisterDeduplicates | src/mqtt.rs:125-155 | registering keeps every accepted announcement remembered and never repeats one; it forgets nothing |
| Mqtt.HandledDeduplicates | src/mqtt.rs:166-177 | handling an update keeps that invariant and forgets nothing |
| Mqtt.ServedDeduplicates | src/mqtt.rs:165-178 | so does a whole run of updates |
| Mqtt.Reports | src/mqtt.rs:166-177 | one value message per zipped pair, in order |
| Mqtt.HandledReports | src/mqtt.rs:166-177 | handling an update publishes exactly one value message per zipped pair, in zip order, whatever happens to the registrations |
| Mqtt.Client.Publish | src/mqtt.rs:151 | each publish is logged with the broker's scripted verdict |
| Mqtt.MqttReceiver.RegisterField | src/mqtt.rs:125-155 | the new state is the specification `Register`; the call fails exactly when the field was unknown and the broker refused the announcement |
| Mqtt.MqttReceiver.HandleUpdate | src/mqtt.rs:166-177 | the new state is the specification `Handled` over the zipped pairs |
| Mqtt.MqttReceiver.Run | src/mqtt.rs:160-178 | the new state is the specification `Served` over every update the channel delivered |

## Left out

- Networking and hardware are not modelled: libpcap, the serial port, the Modbus RTU
  framing, the MQTT connection and InfluxDB (`src/influxdb2.rs` is not part of this
  model). Replies, publish outcomes and channel states are scripted inputs instead. A
  receiver that drops its half of a channel is modelled by the number of records it
  takes before it does (`Dispatch.Channel.lifetime`).
- Asynchrony is not modelled. Every `await` is a plain call; the concurrently running
  receivers and `tokio::spawn` are not modelled; the tick interval and
  missed-tick policy are not modelled.
- Command-line, TOML and CSV parsing are not modelled, nor are
  `main`'s construction of receivers and channels, or logging. A CSV row that fails to
  parse is not modelled; the generator's input is a list of records.
- The generated Rust text and the file writes are not modelled. The generator produces
  its tables as data; `{:?}` formatting is not modelled.
- Values are `real`, not `f64`: `raw * scale + bias` is exact in the model and rounded
  in the program. The text formatting of a value in an MQTT payload is not modelled,
  nor is the JSON serialisation of the config record (modelled as the `Sensor` value).
- The time-zone database is a parameter: a function from local date-time to one, two
  or no offsets. Ethernet/IP/TCP slicing is a parameter too, and so is
  `Field::from_u16s` of the Modbus catalog. Its body is not part of this model.
- `Utc::now()` in the Modbus tick is the parameter `now`.
- The packet decoder in `src/main.rs` (`parse_timestamp` and `Codec::decode`, lines
  103-155) is not modelled. It reads its own 20-field table (lines 68-97), built with
  other `Field` constructor signatures and in another order. `Pcap.Decode` models the
  decoder of `src/pcap.rs` over the 35-field table of `src/fields.rs`. The capture
  filter of `src/main.rs` (lines 205-209) is the same expression as the one in
  `src/pcap.rs`, and `Pcap.CaptureFilter` models both.
- Catalog.Upper: maps only the letters a-z, so it agrees with Rust's `to_uppercase`
  only on ASCII ids (those of the field tables). Unicode case mapping is not modelled:
  `to_uppercase` changes other letters too, and some of them change length (`ß` becomes
  `SS`). For a non-ASCII id the constant names `Catalog.WriteFields` and `Catalog.Build`
  produce are not those of the program.
- Modbus.Tick: `sender.send(...).unwrap()` is not modelled. The tick returns the update
  it would send, or nothing when the poll failed (the error is only logged).
- Modbus.Tick: requires as many register lists as fields. The generator always makes the
  two tables the same length (`Catalog.Partition`); with unequal tables `read_values`
  would zip them while `Update::new` would keep the full catalog.
- Modbus.Reply: a reply with the wrong number of words is a `BadResponse`. The library
  would not return it; indexing `[0]` into an empty reply would panic instead.
- Modbus.ReadValues: the register addresses are words. The CSV's `reg2` column is an
  `i16` that the generator copies without a sign check, and its conversion to the
  generated `u16` table is not modelled.
- Mqtt.MqttReceiver.RegisterField: requires that the field's unit is in `CLASSES` when
  the field is not yet registered. The program's `unwrap` panics there, for the `Time`
  and `Unitless` units of generated catalogs.
- Mqtt.MqttReceiver.HandleUpdate: requires every zipped field's unit to be in `CLASSES`.
  This is stronger than the program needs: a field already registered would not be
  looked up.
- Mqtt.MqttReceiver.Run: the same requirement for every update; the connection warning
  is not modelled.
- Mqtt.UniqueIdInjective: proved only for serials of equal length. With serials of
  different lengths, `sunsniff_a_b_c` can arise in two ways.
- Extracting the update's serial from a `&str` to a `String` is identity on characters.
  Rust strings are UTF-8 bytes while Dafny strings are sequences of scalar values; the
  module `Utf8` relates the two.
