/** The MQTT receiver (src/mqtt.rs): for each field of each update it
    announces the sensor to Home Assistant once, with a retained config
    message, and then publishes the value on the sensor's state topic. The
    network client is a publisher whose successes and failures are scripted;
    JSON serialisation and the text formatting of values are not modelled. */
module Mqtt {
  import opened Types
  import opened Fields
  import opened Catalog
  import opened Receiver

  /** Home Assistant's classification of a unit. */
  datatype ClassInfo = ClassInfo(deviceClass: Option<string>, stateClass: string)

  /** The `CLASSES` table, keyed by unit. */
  const Classes: map<string, ClassInfo> := map[
    "\U{00B0}C" := ClassInfo(Some("temperature"), "measurement"),
    "W" := ClassInfo(Some("power"), "measurement"),
    "A" := ClassInfo(Some("current"), "measurement"),
    "V" := ClassInfo(Some("voltage"), "measurement"),
    "kWh" := ClassInfo(Some("energy"), "total_increasing"),
    "%" := ClassInfo(Some("battery"), "measurement"),
    "Hz" := ClassInfo(None, "measurement"),
    "Ah" := ClassInfo(None, "measurement")
  ]

  /** Which field types the table knows and how it classifies them: every
      type but `Time` and `Unitless` is known; frequencies and charges have
      no device class; energies grow monotonically and the rest are
      measurements. */
  lemma ClassesByType(t: FieldType)
    ensures UnitOf(t) in Classes <==> !(t.Time? || t.Unitless?)
    ensures UnitOf(t) in Classes ==>
      && (Classes[UnitOf(t)].deviceClass.None? <==> t.Frequency? || t.Charge?)
      && (Classes[UnitOf(t)].stateClass == "total_increasing" <==> t.Energy?)
      && (!t.Energy? ==> Classes[UnitOf(t)].stateClass == "measurement")
  {
    match t
    case Time =>
      assert "s" != "\U{00B0}C" && "s" != "W" && "s" != "A" && "s" != "V";
      assert "s" != "kWh" && "s" != "%" && "s" != "Hz" && "s" != "Ah";
    case Unitless =>
      assert "" != "\U{00B0}C" && "" != "W" && "" != "A" && "" != "V";
      assert "" != "kWh" && "" != "%" && "" != "Hz" && "" != "Ah";
    case _ =>
  }

  const TopicPrefix: string := "homeassistant/sensor/"
  const StateSuffix: string := "/state"
  const ConfigSuffix: string := "/config"

  /** A field of one particular inverter, with the names it goes by. */
  datatype DeviceField = DeviceField(
    field: Descriptor,
    serial: string,
    uniqueId: string,
    stateTopic: string,
    configTopic: string)

  /** `DeviceField::new`. */
  function NewDeviceField(field: Descriptor, serial: string): (d: DeviceField)
    ensures d.field == field && d.serial == serial
    ensures d.uniqueId == "sunsniff_" + serial + "_" + field.id
    ensures d.stateTopic == TopicPrefix + d.uniqueId + StateSuffix
    ensures d.configTopic == TopicPrefix + d.uniqueId + ConfigSuffix
  {
    var uniqueId := "sunsniff_" + serial + "_" + field.id;
    DeviceField(field, serial, uniqueId, TopicPrefix + uniqueId + StateSuffix, TopicPrefix + uniqueId + ConfigSuffix)
  }

  /** The unique id a state topic belongs to, if it is one. */
  function StateTopicId(topic: string): (r: Option<string>)
    ensures r.Some? ==> TopicPrefix + r.value + StateSuffix == topic
  {
    if |topic| >= |TopicPrefix| + |StateSuffix| && topic[..|TopicPrefix|] == TopicPrefix
       && topic[|topic| - |StateSuffix|..] == StateSuffix
    then
      var id := topic[|TopicPrefix|..|topic| - |StateSuffix|];
      assert topic == topic[..|TopicPrefix|] + id + topic[|topic| - |StateSuffix|..];
      Some(id)
    else None
  }

  /** The state topic names its unique id. */
  lemma StateTopicNamesId(field: Descriptor, serial: string)
    ensures StateTopicId(NewDeviceField(field, serial).stateTopic) == Some(NewDeviceField(field, serial).uniqueId)
  {
    var d := NewDeviceField(field, serial);
    var t := d.stateTopic;
    assert t[..|TopicPrefix|] == TopicPrefix;
    assert t[|t| - |StateSuffix|..] == StateSuffix;
    assert t[|TopicPrefix|..|t| - |StateSuffix|] == d.uniqueId;
  }

  /** No state topic is a config topic, of the same field or another. */
  lemma StateNeverConfig(a: DeviceField, b: DeviceField)
    requires a == NewDeviceField(a.field, a.serial) && b == NewDeviceField(b.field, b.serial)
    ensures a.stateTopic != b.configTopic
  {
    assert a.stateTopic[|a.stateTopic| - 1] == 'e';
    assert b.configTopic[|b.configTopic| - 1] == 'g';
  }

  /** Among serials of one length (those of one inverter model), different
      serials or ids give different unique ids. */
  lemma UniqueIdInjective(f: Descriptor, s: string, g: Descriptor, t: string)
    requires |s| == |t|
    requires NewDeviceField(f, s).uniqueId == NewDeviceField(g, t).uniqueId
    ensures s == t && f.id == g.id
  {
    var u := NewDeviceField(f, s).uniqueId;
    assert u == "sunsniff_" + s + "_" + f.id;
    assert u == "sunsniff_" + t + "_" + g.id;
    assert u[9..9 + |s|] == s;
    assert u[9..9 + |t|] == t;
    assert u[10 + |s|..] == f.id;
    assert u[10 + |t|..] == g.id;
  }

  // Messages.

  datatype QoS = AtMostOnce | AtLeastOnce

  /** The discovery record Home Assistant reads from a config topic. */
  datatype Sensor = Sensor(
    identifiers: string,
    deviceClass: Option<string>,
    expireAfter: int,
    name: string,
    objectId: string,
    stateClass: string,
    stateTopic: string,
    uniqueId: string,
    unit: string)

  datatype Payload = Config(sensor: Sensor) | State(value: real)

  datatype Message = Message(topic: string, payload: Payload, retain: bool, qos: QoS)

  /** One publish and whether the broker took it. */
  datatype Attempt = Attempt(message: Message, ok: bool)

  /** Seconds after which Home Assistant marks the sensor unavailable. */
  const ExpireAfter: int := 600

  /** The retained config message announcing a field. */
  function ConfigMessage(d: DeviceField): (m: Message)
    requires d.field.unit in Classes
    ensures m.topic == d.configTopic && m.retain && m.qos == AtLeastOnce
    ensures m.payload.Config? && m.payload.sensor.uniqueId == d.uniqueId
  {
    var info := Classes[d.field.unit];
    var sensor := Sensor(d.serial, info.deviceClass, ExpireAfter, d.field.group + " " + d.field.name,
                         d.uniqueId, info.stateClass, d.stateTopic, d.uniqueId, d.field.unit);
    Message(d.configTopic, Config(sensor), true, AtLeastOnce)
  }

  /** The message carrying one value. */
  function StateMessage(d: DeviceField, value: real): (m: Message)
    ensures m.topic == d.stateTopic && !m.retain && m.payload == State(value)
  {
    Message(d.stateTopic, State(value), false, AtMostOnce)
  }

  /** The config message tells Home Assistant where the values will arrive. */
  lemma ConfigPointsAtState(d: DeviceField, value: real)
    requires d.field.unit in Classes
    ensures ConfigMessage(d).payload.sensor.stateTopic == StateMessage(d, value).topic
    ensures ConfigMessage(d).topic != StateMessage(d, value).topic || d != NewDeviceField(d.field, d.serial)
  {
    if d == NewDeviceField(d.field, d.serial) {
      StateNeverConfig(d, d);
    }
  }

  // The reference semantics of the receiver.

  /** Whether the `j`-th publish succeeds; the broker takes everything once
      the script runs out. */
  function Succeeds(script: seq<bool>, j: nat): bool
  {
    j >= |script| || script[j]
  }

  /** What the receiver remembers and what it has sent. */
  datatype Session = Session(registered: set<string>, next: nat, log: seq<Attempt>)

  /** `register_field`: announce the field unless it is already registered;
      remember it only when the broker took the announcement. */
  function Register(script: seq<bool>, s: Session, d: DeviceField): Session
    requires d.uniqueId !in s.registered ==> d.field.unit in Classes
  {
    if d.uniqueId in s.registered then s
    else
      var ok := Succeeds(script, s.next);
      Session(if ok then s.registered + {d.uniqueId} else s.registered, s.next + 1,
              s.log + [Attempt(ConfigMessage(d), ok)])
  }

  /** One (field, value) pair: register, then publish the value whatever the
      registration did. */
  function Report(script: seq<bool>, s: Session, d: DeviceField, value: real): Session
    requires d.uniqueId !in s.registered ==> d.field.unit in Classes
  {
    var t := Register(script, s, d);
    Session(t.registered, t.next + 1, t.log + [Attempt(StateMessage(d, value), Succeeds(script, t.next))])
  }

  /** Every unit the loop over the first `n` pairs looks up is a key of `Classes`. */
  predicate KnownUnits(fields: seq<Descriptor>, n: nat)
    requires n <= |fields|
  {
    forall i :: 0 <= i < n ==> fields[i].unit in Classes
  }

  /** The first `n` (field, value) pairs of one update. */
  function Handled(script: seq<bool>, s: Session, fields: seq<Descriptor>, values: seq<real>, serial: string, n: nat): Session
    requires n <= |fields| && n <= |values| && KnownUnits(fields, n)
  {
    if n == 0 then s
    else Report(script, Handled(script, s, fields, values, serial, n - 1), NewDeviceField(fields[n - 1], serial), values[n - 1])
  }

  function Zipped(u: Update<Descriptor>): nat
  {
    if |u.fields| <= |u.values| then |u.fields| else |u.values|
  }

  predicate KnownUpdates(updates: seq<Update<Descriptor>>)
  {
    forall k :: 0 <= k < |updates| ==> KnownUnits(updates[k].fields, Zipped(updates[k]))
  }

  /** The first `n` updates. */
  function Served(script: seq<bool>, s: Session, updates: seq<Update<Descriptor>>, n: nat): Session
    requires n <= |updates| && KnownUpdates(updates)
  {
    if n == 0 then s
    else
      var u := updates[n - 1];
      Handled(script, Served(script, s, updates, n - 1), u.fields, u.values, u.serial, Zipped(u))
  }

  // What the receiver promises.

  /** Repeating a registration that reached the broker does nothing more. */
  lemma RegisterIdempotent(script: seq<bool>, s: Session, d: DeviceField)
    requires d.field.unit in Classes
    requires d.uniqueId in s.registered || Succeeds(script, s.next)
    ensures Register(script, Register(script, s, d), d) == Register(script, s, d)
  {
  }

  /** A refused announcement leaves the field unregistered, so the next
      update announces it again. */
  lemma RegisterRetries(script: seq<bool>, s: Session, d: DeviceField)
    requires d.field.unit in Classes
    requires d.uniqueId !in s.registered && !Succeeds(script, s.next)
    ensures Register(script, s, d).registered == s.registered
    ensures Register(script, Register(script, s, d), d).log
      == s.log + [Attempt(ConfigMessage(d), false), Attempt(ConfigMessage(d), Succeeds(script, s.next + 1))]
  {
  }

  predicate AnnouncedOk(a: Attempt) { a.ok && a.message.payload.Config? }

  function AnnouncedId(a: Attempt): string
    requires a.message.payload.Config?
  {
    a.message.payload.sensor.uniqueId
  }

  /** Every announcement the broker took is remembered, and no unique id was
      ever announced successfully twice. */
  predicate Deduplicated(s: Session)
  {
    && (forall i :: 0 <= i < |s.log| && AnnouncedOk(s.log[i]) ==> AnnouncedId(s.log[i]) in s.registered)
    && (forall i, j :: 0 <= i < j < |s.log| && AnnouncedOk(s.log[i]) && AnnouncedOk(s.log[j]) ==>
          AnnouncedId(s.log[i]) != AnnouncedId(s.log[j]))
  }

  lemma RegisterDeduplicates(script: seq<bool>, s: Session, d: DeviceField)
    requires d.uniqueId !in s.registered ==> d.field.unit in Classes
    requires Deduplicated(s)
    ensures Deduplicated(Register(script, s, d))
    ensures s.registered <= Register(script, s, d).registered
  {
    if d.uniqueId !in s.registered {
      var t := Register(script, s, d);
      assert t.log[..|s.log|] == s.log;
      assert forall i :: 0 <= i < |s.log| ==> t.log[i] == s.log[i];
    }
  }

  lemma ReportDeduplicates(script: seq<bool>, s: Session, d: DeviceField, value: real)
    requires d.uniqueId !in s.registered ==> d.field.unit in Classes
    requires Deduplicated(s)
    ensures Deduplicated(Report(script, s, d, value))
    ensures s.registered <= Report(script, s, d, value).registered
  {
    RegisterDeduplicates(script, s, d);
    var t := Register(script, s, d);
    var r := Report(script, s, d, value);
    assert forall i :: 0 <= i < |t.log| ==> r.log[i] == t.log[i];
  }

  /** Handling an update keeps the receiver deduplicated and forgets nothing. */
  lemma {:induction false} HandledDeduplicates(script: seq<bool>, s: Session, fields: seq<Descriptor>, values: seq<real>, serial: string, n: nat)
    requires n <= |fields| && n <= |values| && KnownUnits(fields, n)
    requires Deduplicated(s)
    ensures Deduplicated(Handled(script, s, fields, values, serial, n))
    ensures s.registered <= Handled(script, s, fields, values, serial, n).registered
  {
    if n > 0 {
      HandledDeduplicates(script, s, fields, values, serial, n - 1);
      ReportDeduplicates(script, Handled(script, s, fields, values, serial, n - 1), NewDeviceField(fields[n - 1], serial), values[n - 1]);
    }
  }

  lemma {:induction false} ServedDeduplicates(script: seq<bool>, s: Session, updates: seq<Update<Descriptor>>, n: nat)
    requires n <= |updates| && KnownUpdates(updates)
    requires Deduplicated(s)
    ensures Deduplicated(Served(script, s, updates, n))
    ensures s.registered <= Served(script, s, updates, n).registered
  {
    if n > 0 {
      ServedDeduplicates(script, s, updates, n - 1);
      var u := updates[n - 1];
      HandledDeduplicates(script, Served(script, s, updates, n - 1), u.fields, u.values, u.serial, Zipped(u));
    }
  }

  /** The value messages among a log, in order. */
  function StateMessages(log: seq<Attempt>): seq<Message>
  {
    if log == [] then []
    else
      var a := log[|log| - 1];
      StateMessages(log[..|log| - 1]) + (if a.message.payload.State? then [a.message] else [])
  }

  lemma StateMessagesAppend(log: seq<Attempt>, a: Attempt)
    ensures StateMessages(log + [a]) == StateMessages(log) + (if a.message.payload.State? then [a.message] else [])
  {
    assert (log + [a])[..|log|] == log;
  }

  /** The value messages of the first `n` pairs, one per pair in zip order. */
  function Reports(fields: seq<Descriptor>, values: seq<real>, serial: string, n: nat): (ms: seq<Message>)
    requires n <= |fields| && n <= |values|
    ensures |ms| == n
    ensures forall i :: 0 <= i < n ==> ms[i] == StateMessage(NewDeviceField(fields[i], serial), values[i])
  {
    if n == 0 then []
    else Reports(fields, values, serial, n - 1) + [StateMessage(NewDeviceField(fields[n - 1], serial), values[n - 1])]
  }

  /** One pair adds exactly its own value message. */
  lemma ReportStates(script: seq<bool>, s: Session, d: DeviceField, value: real)
    requires d.uniqueId !in s.registered ==> d.field.unit in Classes
    ensures StateMessages(Report(script, s, d, value).log) == StateMessages(s.log) + [StateMessage(d, value)]
  {
    var t := Register(script, s, d);
    if d.uniqueId !in s.registered {
      StateMessagesAppend(s.log, Attempt(ConfigMessage(d), Succeeds(script, s.next)));
    }
    assert StateMessages(t.log) == StateMessages(s.log);
    StateMessagesAppend(t.log, Attempt(StateMessage(d, value), Succeeds(script, t.next)));
  }

  /** Handling an update publishes exactly one value message per zipped
      pair, in order, whether or not the registration went through. */
  lemma {:induction false} HandledReports(script: seq<bool>, s: Session, fields: seq<Descriptor>, values: seq<real>, serial: string, n: nat)
    requires n <= |fields| && n <= |values| && KnownUnits(fields, n)
    ensures StateMessages(Handled(script, s, fields, values, serial, n).log) == StateMessages(s.log) + Reports(fields, values, serial, n)
  {
    if n == 0 {
      assert StateMessages(s.log) + [] == StateMessages(s.log);
    } else {
      HandledReports(script, s, fields, values, serial, n - 1);
      HandledStates(script, s, fields, values, serial, n);
      var before, earlier := StateMessages(s.log), Reports(fields, values, serial, n - 1);
      var m := StateMessage(NewDeviceField(fields[n - 1], serial), values[n - 1]);
      assert Reports(fields, values, serial, n) == earlier + [m];
      AppendAssociates(before, earlier, m);
    }
  }

  /** Appending after a concatenation; kept apart so that the step above is
      proved without the definitions of `Handled` in scope. */
  lemma AppendAssociates<T>(a: seq<T>, b: seq<T>, x: T)
    ensures a + b + [x] == a + (b + [x])
  {
  }

  /** The pair `n` adds its own value message to those of the pairs before it. */
  lemma HandledStates(script: seq<bool>, s: Session, fields: seq<Descriptor>, values: seq<real>, serial: string, n: nat)
    requires 0 < n <= |fields| && n <= |values| && KnownUnits(fields, n)
    ensures StateMessages(Handled(script, s, fields, values, serial, n).log)
      == StateMessages(Handled(script, s, fields, values, serial, n - 1).log) + [StateMessage(NewDeviceField(fields[n - 1], serial), values[n - 1])]
  {
    var h := Handled(script, s, fields, values, serial, n - 1);
    ReportStates(script, h, NewDeviceField(fields[n - 1], serial), values[n - 1]);
  }

  // The publisher and the receiver.

  /** The MQTT client: every publish is logged with the scripted outcome. */
  class Client {
    const script: seq<bool>
    var next: nat
    var log: seq<Attempt>

    constructor(script: seq<bool>)
      ensures this.script == script && next == 0 && log == []
    {
      this.script := script;
      next := 0;
      log := [];
    }

    method Publish(m: Message) returns (ok: bool)
      modifies this
      ensures ok == Succeeds(script, old(next))
      ensures next == old(next) + 1 && log == old(log) + [Attempt(m, ok)]
    {
      ok := next >= |script| || script[next];
      next := next + 1;
      log := log + [Attempt(m, ok)];
    }
  }

  class MqttReceiver {
    const client: Client
    var registered: set<string>

    constructor(script: seq<bool>)
      ensures fresh(client) && client.script == script
      ensures State() == Session({}, 0, [])
    {
      client := new Client(script);
      registered := {};
    }

    function State(): Session
      reads this, client
    {
      Session(registered, client.next, client.log)
    }

    /** `register_field`: fails only when the announcement was attempted and
        the broker refused it. */
    method RegisterField(d: DeviceField) returns (r: Result<(), ()>)
      requires d.uniqueId !in registered ==> d.field.unit in Classes
      modifies this, client
      ensures State() == Register(client.script, old(State()), d)
      ensures r.Err? <==> d.uniqueId !in old(registered) && !Succeeds(client.script, old(client.next))
    {
      if d.uniqueId !in registered {
        var ok := client.Publish(ConfigMessage(d));
        if !ok {
          return Err(());
        }
        registered := registered + {d.uniqueId};
      }
      return Ok(());
    }

    /** The body of `run`'s loop: every zipped (field, value) pair. */
    method HandleUpdate(u: Update<Descriptor>)
      requires KnownUnits(u.fields, Zipped(u))
      modifies this, client
      ensures State() == Handled(client.script, old(State()), u.fields, u.values, u.serial, Zipped(u))
    {
      ghost var s0 := State();
      var n := Zipped(u);
      for i := 0 to n
        invariant State() == Handled(client.script, s0, u.fields, u.values, u.serial, i)
      {
        var d := NewDeviceField(u.fields[i], u.serial);
        var _ := RegisterField(d);
        var _ := client.Publish(StateMessage(d, u.values[i]));
      }
    }

    /** `run`: every update the channel delivers, until it closes. */
    method Run(updates: seq<Update<Descriptor>>)
      requires KnownUpdates(updates)
      modifies this, client
      ensures State() == Served(client.script, old(State()), updates, |updates|)
    {
      ghost var s0 := State();
      for k := 0 to |updates|
        invariant State() == Served(client.script, s0, updates, k)
      {
        HandleUpdate(updates[k]);
      }
    }
  }
}
