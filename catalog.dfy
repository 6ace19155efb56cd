/** The build-time catalog generator (build.rs): CSV records become two
    separate catalogs, one for packet capture (with byte offsets) and one for
    register polling (with register addresses). Both use the same default
    scale, bias and unit of each field type and number their fields from 0.
    The CSV reader and the text of the generated Rust are not modelled: the
    generated tables are produced as data. */
module Catalog {
  import opened Types
  import opened Fields

  /** Rust `u32` and `i16`, the CSV column types. */
  type U32 = x: int | 0 <= x < 0x1_0000_0000
  type I16 = x: int | -0x8000 <= x < 0x8000

  /** One row of the field CSV. */
  datatype Record = Record(
    fieldType: FieldType,
    group: string,
    name: string,
    id: string,
    scale: Option<real>,
    offset: Option<U32>,
    offset2: Option<U32>,
    reg: Option<I16>,
    reg2: Option<I16>)

  /** A generated field literal. Unlike the older `Fields.Field` it carries no
      position: positions live in the separate offset and register tables. */
  datatype Descriptor = Descriptor(
    fieldType: FieldType,
    group: string,
    name: string,
    id: string,
    scale: real,
    bias: real,
    unit: string)

  /** Why the generator stops: `unwrap` on a missing scale panics. */
  datatype BuildError = MissingScale(id: string)

  /** A `field_idx` constant: the upper-cased id and the field's position. */
  datatype IndexConst = IndexConst(name: string, value: nat)

  /** The generated `FIELDS` and `field_idx` of one catalog. */
  datatype Generated = Generated(fields: seq<Descriptor>, indices: seq<IndexConst>)

  /** The four generated tables. */
  datatype Catalogs = Catalogs(
    capture: seq<Descriptor>, captureIndices: seq<IndexConst>, offsets: seq<seq<U32>>,
    polled: seq<Descriptor>, polledIndices: seq<IndexConst>, registers: seq<seq<I16>>)

  /** The field literal for one record: an explicit scale overrides the
      type's default, and a record with neither is an error. Group, name, id
      and type are copied; bias and unit come from the type. */
  function Describe(r: Record): (d: Result<Descriptor, BuildError>)
    ensures d.Err? <==> r.scale.None? && DefaultScale(r.fieldType).None?
    ensures d.Err? ==> d.error == MissingScale(r.id)
    ensures d.Ok? ==> d.value.fieldType == r.fieldType && d.value.group == r.group
                      && d.value.name == r.name && d.value.id == r.id
    ensures d.Ok? ==> d.value.bias == DefaultBias(r.fieldType) && d.value.unit == UnitOf(r.fieldType)
    ensures d.Ok? && r.scale.Some? ==> d.value.scale == r.scale.value
    ensures d.Ok? && r.scale.None? ==> d.value.scale == DefaultScale(r.fieldType).value
  {
    var scale := if r.scale.Some? then r.scale else DefaultScale(r.fieldType);
    if scale.None? then Err(MissingScale(r.id))
    else Ok(Descriptor(r.fieldType, r.group, r.name, r.id, scale.value,
                       DefaultBias(r.fieldType), UnitOf(r.fieldType)))
  }

  /** Only currents and voltages need an explicit scale in the CSV. */
  lemma MissingScaleOnlyForCurrentAndVoltage(r: Record)
    ensures Describe(r).Err? <==> r.scale.None? && (r.fieldType.Current? || r.fieldType.Voltage?)
  {
  }

  /** The unit is a one-to-one function of the type, so two fields with the
      same unit string have the same type. */
  lemma UnitDeterminesType(s: FieldType, t: FieldType)
    ensures UnitOf(s) == UnitOf(t) ==> s == t
  {
  }

  /** Upper-casing of the letters a-z; every other character is kept. This is
      `to_uppercase` on ASCII ids, not on the rest of Unicode. */
  function Upper(s: string): (u: string)
    ensures |u| == |s|
    ensures forall i :: 0 <= i < |s| ==>
      u[i] == (if 'a' <= s[i] <= 'z' then (s[i] as int - 32) as char else s[i])
  {
    if s == [] then []
    else [if 'a' <= s[0] <= 'z' then (s[0] as int - 32) as char else s[0]] + Upper(s[1..])
  }

  /** A record that names the first error of `records`. */
  predicate FirstFailure(records: seq<Record>, e: BuildError)
  {
    exists k :: 0 <= k < |records| && Describe(records[k]) == Err(e) &&
      forall j :: 0 <= j < k ==> Describe(records[j]).Ok?
  }

  /** `write_fields`: one field literal per record, in order, then the
      `field_idx` constants, the i-th of which is i. The first record without a
      scale stops the generator. */
  method WriteFields(records: seq<Record>) returns (r: Result<Generated, BuildError>)
    ensures r.Ok? <==> forall i :: 0 <= i < |records| ==> Describe(records[i]).Ok?
    ensures r.Err? ==> FirstFailure(records, r.error)
    ensures r.Ok? ==> |r.value.fields| == |records| && |r.value.indices| == |records|
    ensures r.Ok? ==> forall i :: 0 <= i < |records| ==> Describe(records[i]) == Ok(r.value.fields[i])
    ensures r.Ok? ==> forall i :: 0 <= i < |records| ==>
      r.value.indices[i] == IndexConst(Upper(records[i].id), i)
  {
    var fields: seq<Descriptor> := [];
    var i := 0;
    while i < |records|
      invariant 0 <= i <= |records| && |fields| == i
      invariant forall j :: 0 <= j < i ==> Describe(records[j]) == Ok(fields[j])
    {
      var d := Describe(records[i]);
      if d.Err? {
        return Err(d.error);
      }
      fields := fields + [d.value];
      i := i + 1;
    }
    var indices: seq<IndexConst> := [];
    i := 0;
    while i < |records|
      invariant 0 <= i <= |records| && |indices| == i
      invariant forall j :: 0 <= j < i ==> indices[j] == IndexConst(Upper(records[j].id), j)
    {
      indices := indices + [IndexConst(Upper(records[i].id), i)];
      i := i + 1;
    }
    return Ok(Generated(fields, indices));
  }

  /** The elements of `s` that satisfy `p`, in their original order. */
  function Filter<T>(s: seq<T>, p: T -> bool): (f: seq<T>)
    ensures |f| <= |s|
    ensures forall i :: 0 <= i < |f| ==> p(f[i])
  {
    if s == [] then [] else (if p(s[0]) then [s[0]] else []) + Filter(s[1..], p)
  }

  lemma {:induction false} FilterAppend<T>(s: seq<T>, x: T, p: T -> bool)
    ensures Filter(s + [x], p) == Filter(s, p) + (if p(x) then [x] else [])
  {
    if s != [] {
      assert (s + [x])[1..] == s[1..] + [x];
      FilterAppend(s[1..], x, p);
    }
  }

  /** What `Filter` keeps: exactly the elements that satisfy `p`. */
  lemma {:induction false} FilterMembers<T>(s: seq<T>, p: T -> bool, x: T)
    ensures x in Filter(s, p) <==> x in s && p(x)
  {
    if s != [] {
      FilterMembers(s[1..], p, x);
      assert s == [s[0]] + s[1..];
    }
  }

  function Shift(pos: seq<nat>): (r: seq<nat>)
    ensures |r| == |pos| && forall k :: 0 <= k < |r| ==> r[k] == pos[k] + 1
  {
    seq(|pos|, k requires 0 <= k < |pos| => pos[k] + 1)
  }

  /** The positions of `s` that `Filter` keeps, in increasing order. */
  function Positions<T>(s: seq<T>, p: T -> bool): (pos: seq<nat>)
    ensures |pos| == |Filter(s, p)|
  {
    if s == [] then []
    else if p(s[0]) then [0] + Shift(Positions(s[1..], p))
    else Shift(Positions(s[1..], p))
  }

  /** `Filter`'s k-th element is the element of `s` at the k-th kept position. */
  lemma {:induction false} PositionsPick<T>(s: seq<T>, p: T -> bool)
    ensures forall k :: 0 <= k < |Positions(s, p)| ==>
      Positions(s, p)[k] < |s| && s[Positions(s, p)[k]] == Filter(s, p)[k]
  {
    if s != [] {
      PositionsPick(s[1..], p);
      var rest := Positions(s[1..], p);
      forall k | 0 <= k < |rest|
        ensures Shift(rest)[k] < |s| && s[Shift(rest)[k]] == Filter(s[1..], p)[k]
      {
        assert s[1..][rest[k]] == s[rest[k] + 1];
      }
    }
  }

  /** The kept positions increase strictly: `Filter` keeps the original order. */
  lemma {:induction false} PositionsIncrease<T>(s: seq<T>, p: T -> bool)
    ensures forall k, l :: 0 <= k < l < |Positions(s, p)| ==> Positions(s, p)[k] < Positions(s, p)[l]
  {
    if s != [] {
      PositionsIncrease(s[1..], p);
    }
  }

  /** Every position whose element satisfies `p` is kept: `Filter` drops
      nothing it should keep. */
  lemma {:induction false} PositionsCover<T>(s: seq<T>, p: T -> bool, j: nat)
    requires j < |s| && p(s[j])
    ensures j in Positions(s, p)
  {
    if j > 0 {
      assert s[1..][j - 1] == s[j];
      PositionsCover(s[1..], p, j - 1);
      var rest := Positions(s[1..], p);
      var k :| 0 <= k < |rest| && rest[k] == j - 1;
      assert Shift(rest)[k] == j;
    }
  }

  predicate HasOffset(r: Record) { r.offset.Some? }
  predicate HasReg(r: Record) { r.reg.Some? }

  /** The byte offsets of a captured field: `offset2` follows `offset` when given. */
  function OffsetsOf(r: Record): (o: seq<U32>)
    requires HasOffset(r)
    ensures 1 <= |o| <= 2 && o[0] == r.offset.value
    ensures |o| == 2 <==> r.offset2.Some?
    ensures |o| == 2 ==> o[1] == r.offset2.value
  {
    [r.offset.value] + (if r.offset2.Some? then [r.offset2.value] else [])
  }

  /** The registers of a polled field: none when `reg` is negative (the field
      does not exist on this inverter), otherwise `reg` then `reg2` when given. */
  function RegsOf(r: Record): (g: seq<I16>)
    requires HasReg(r)
    ensures |g| <= 2
    ensures g == [] <==> r.reg.value < 0
    ensures g != [] ==> g[0] == r.reg.value && (|g| == 2 <==> r.reg2.Some?)
    ensures |g| == 2 ==> g[1] == r.reg2.value
  {
    if r.reg.value < 0 then []
    else [r.reg.value] + (if r.reg2.Some? then [r.reg2.value] else [])
  }

  /** The capture list and its offset table after the records `done`. */
  predicate CapturedFrom(done: seq<Record>, captured: seq<Record>, offsets: seq<seq<U32>>)
  {
    && captured == Filter(done, HasOffset)
    && |offsets| == |captured|
    && forall j :: 0 <= j < |captured| ==> HasOffset(captured[j]) && offsets[j] == OffsetsOf(captured[j])
  }

  /** The polling list and its register table after the records `done`. */
  predicate PolledFrom(done: seq<Record>, polled: seq<Record>, registers: seq<seq<I16>>)
  {
    && polled == Filter(done, HasReg)
    && |registers| == |polled|
    && forall j :: 0 <= j < |polled| ==> HasReg(polled[j]) && registers[j] == RegsOf(polled[j])
  }

  lemma CapturedStep(done: seq<Record>, record: Record, captured: seq<Record>, offsets: seq<seq<U32>>)
    requires CapturedFrom(done, captured, offsets)
    ensures HasOffset(record) ==> CapturedFrom(done + [record], captured + [record], offsets + [OffsetsOf(record)])
    ensures !HasOffset(record) ==> CapturedFrom(done + [record], captured, offsets)
  {
    FilterAppend(done, record, HasOffset);
  }

  lemma PolledStep(done: seq<Record>, record: Record, polled: seq<Record>, registers: seq<seq<I16>>)
    requires PolledFrom(done, polled, registers)
    ensures HasReg(record) ==> PolledFrom(done + [record], polled + [record], registers + [RegsOf(record)])
    ensures !HasReg(record) ==> PolledFrom(done + [record], polled, registers)
  {
    FilterAppend(done, record, HasReg);
  }

  /** The record loop of the generator: a record with an offset joins the
      capture list, one with a register joins the polling list (a record may
      join both or neither), and each list stays aligned with its position
      table and in CSV order. */
  method Partition(records: seq<Record>)
    returns (captured: seq<Record>, offsets: seq<seq<U32>>, polled: seq<Record>, registers: seq<seq<I16>>)
    ensures captured == Filter(records, HasOffset) && polled == Filter(records, HasReg)
    ensures |offsets| == |captured| && |registers| == |polled|
    ensures forall i :: 0 <= i < |captured| ==> HasOffset(captured[i]) && offsets[i] == OffsetsOf(captured[i])
    ensures forall i :: 0 <= i < |polled| ==> HasReg(polled[i]) && registers[i] == RegsOf(polled[i])
  {
    captured, offsets, polled, registers := [], [], [], [];
    var i := 0;
    while i < |records|
      invariant 0 <= i <= |records|
      invariant CapturedFrom(records[..i], captured, offsets)
      invariant PolledFrom(records[..i], polled, registers)
    {
      var record := records[i];
      assert records[..i + 1] == records[..i] + [record];
      CapturedStep(records[..i], record, captured, offsets);
      PolledStep(records[..i], record, polled, registers);
      if record.offset.Some? {
        captured := captured + [record];
        var os := [record.offset.value];
        if record.offset2.Some? {
          os := os + [record.offset2.value];
        }
        assert os == OffsetsOf(record);
        offsets := offsets + [os];
      }
      if record.reg.Some? {
        polled := polled + [record];
        var rs: seq<I16> := [];
        if record.reg.value >= 0 {
          rs := rs + [record.reg.value];
          if record.reg2.Some? {
            rs := rs + [record.reg2.value];
          }
        }
        assert rs == RegsOf(record);
        registers := registers + [rs];
      }
      i := i + 1;
    }
    assert records[..|records|] == records;
  }

  /** The generator's `main`: partition, then write the capture catalog, then
      the polling catalog. */
  method Build(records: seq<Record>) returns (r: Result<Catalogs, BuildError>)
    ensures r.Ok? <==> forall i :: 0 <= i < |records| && (HasOffset(records[i]) || HasReg(records[i]))
                                   ==> Describe(records[i]).Ok?
    ensures r.Err? ==>
      || FirstFailure(Filter(records, HasOffset), r.error)
      || ((forall i :: 0 <= i < |Filter(records, HasOffset)| ==> Describe(Filter(records, HasOffset)[i]).Ok?) &&
          FirstFailure(Filter(records, HasReg), r.error))
    ensures r.Ok? ==> && |r.value.capture| == |r.value.offsets| == |r.value.captureIndices|
                      && |r.value.capture| == |Filter(records, HasOffset)|
                      && |r.value.polled| == |r.value.registers| == |r.value.polledIndices|
                      && |r.value.polled| == |Filter(records, HasReg)|
    ensures r.Ok? ==> forall i :: 0 <= i < |r.value.registers| ==> |r.value.registers[i]| <= 2
    ensures r.Ok? ==> forall i :: 0 <= i < |r.value.capture| ==>
      Describe(Filter(records, HasOffset)[i]) == Ok(r.value.capture[i]) &&
      r.value.offsets[i] == OffsetsOf(Filter(records, HasOffset)[i]) &&
      r.value.captureIndices[i] == IndexConst(Upper(r.value.capture[i].id), i)
    ensures r.Ok? ==> forall i :: 0 <= i < |r.value.polled| ==>
      Describe(Filter(records, HasReg)[i]) == Ok(r.value.polled[i]) &&
      r.value.registers[i] == RegsOf(Filter(records, HasReg)[i]) &&
      r.value.polledIndices[i] == IndexConst(Upper(r.value.polled[i].id), i)
  {
    var captured, offsets, polled, registers := Partition(records);
    var capture := WriteFields(captured);
    if capture.Err? {
      NoFailureInFilter(records, HasOffset, captured);
      return Err(capture.error);
    }
    var polledFields := WriteFields(polled);
    if polledFields.Err? {
      NoFailureInFilter(records, HasReg, polled);
      return Err(polledFields.error);
    }
    forall i | 0 <= i < |records| && (HasOffset(records[i]) || HasReg(records[i]))
      ensures Describe(records[i]).Ok?
    {
      FilterMembers(records, HasOffset, records[i]);
      FilterMembers(records, HasReg, records[i]);
    }
    return Ok(Catalogs(capture.value.fields, capture.value.indices, offsets,
                       polledFields.value.fields, polledFields.value.indices, registers));
  }

  /** When some kept record fails, some record of the input that `p` keeps fails. */
  lemma NoFailureInFilter(records: seq<Record>, p: Record -> bool, kept: seq<Record>)
    requires forall x :: p(x) ==> HasOffset(x) || HasReg(x)
    requires kept == Filter(records, p)
    requires !forall i :: 0 <= i < |kept| ==> Describe(kept[i]).Ok?
    ensures !forall i :: 0 <= i < |records| && (HasOffset(records[i]) || HasReg(records[i])) ==> Describe(records[i]).Ok?
  {
    var k :| 0 <= k < |kept| && Describe(kept[k]).Err?;
    FilterMembers(records, p, kept[k]);
    var i :| 0 <= i < |records| && records[i] == kept[k];
  }
}
