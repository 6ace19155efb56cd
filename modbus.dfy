/** The Modbus poller (src/modbus.rs): at start-up the inverter's serial is
    read from five holding registers; then on every tick each polled field is
    read register by register and converted to a value, a failed read
    dropping the whole tick. The RTU transport is a scripted context. */
module Modbus {
  import opened Types
  import opened Catalog
  import opened Receiver
  import Utf8

  /** Why a register read failed. */
  datatype IoError = NoResponse | BadResponse | Exception(code: Byte)

  /** One `read_holding_registers(address, count)` call. */
  datatype Request = Request(address: Word, count: nat)

  /** The device's replies in order: the words it sends back, or a failure. */
  type Script = seq<Result<seq<Word>, IoError>>

  /** Outcome of the `j`-th read of `count` registers: the scripted reply when
      it has exactly `count` words, an error otherwise; a read past the end of
      the script gets no response. */
  function Reply(script: Script, j: nat, count: nat): (r: Result<seq<Word>, IoError>)
    ensures r.Ok? ==> |r.value| == count
    ensures r.Ok? <==> j < |script| && script[j].Ok? && |script[j].value| == count
  {
    if j >= |script| then Err(NoResponse)
    else match script[j]
      case Err(e) => Err(e)
      case Ok(w) => if |w| == count then Ok(w) else Err(BadResponse)
  }

  /** The Modbus client context: the link to one device. */
  class Context {
    /** Everything the device will answer, in order. */
    var script: Script
    /** How many replies have been consumed. */
    var next: nat
    /** Every request sent so far, in order. */
    var requests: seq<Request>

    constructor(script: Script)
      ensures this.script == script && next == 0 && requests == []
    {
      this.script := script;
      next := 0;
      requests := [];
    }

    /** `read_holding_registers`: one request, one reply. */
    method ReadHoldingRegisters(address: Word, count: nat) returns (r: Result<seq<Word>, IoError>)
      modifies this
      ensures r == Reply(script, old(next), count)
      ensures script == old(script) && next == old(next) + 1
      ensures requests == old(requests) + [Request(address, count)]
    {
      r := Reply(script, next, count);
      next := next + 1;
      requests := requests + [Request(address, count)];
    }
  }

  /** The registers of the first `f` polled fields, in reading order. */
  function Reads(registers: seq<seq<Word>>, f: nat): seq<Word>
    requires f <= |registers|
  {
    if f == 0 then [] else Reads(registers, f - 1) + registers[f - 1]
  }

  /** The requests of single-register reads of the first `n` of `addresses`. */
  function Singles(addresses: seq<Word>, n: nat): (rs: seq<Request>)
    requires n <= |addresses|
    ensures |rs| == n
    ensures forall j :: 0 <= j < n ==> rs[j] == Request(addresses[j], 1)
  {
    if n == 0 then [] else Singles(addresses, n - 1) + [Request(addresses[n - 1], 1)]
  }

  /** Whether the `j`-th reply answers a one-register read. */
  predicate GoodRead(script: Script, j: nat)
  {
    Reply(script, j, 1).Ok?
  }

  /** How many of `n` one-register reads starting at reply `start` succeed
      before the first failure. */
  function {:induction false} GoodPrefix(script: Script, start: nat, n: nat): (k: nat)
    ensures k <= n
    ensures forall j :: start <= j < start + k ==> GoodRead(script, j)
    ensures k < n ==> !GoodRead(script, start + k)
    decreases n
  {
    if n == 0 || !GoodRead(script, start) then 0
    else GoodPrefix(script, start + 1, n - 1) + 1
  }

  /** The good prefix is pinned down by where the first failure is. */
  lemma GoodPrefixIs(script: Script, start: nat, n: nat, k: nat)
    requires k <= n
    requires forall j :: start <= j < start + k ==> GoodRead(script, j)
    requires k < n ==> !GoodRead(script, start + k)
    ensures GoodPrefix(script, start, n) == k
  {
  }

  /** A run of good reads can be split at any point. */
  lemma GoodPrefixConcat(script: Script, start: nat, x: nat, y: nat, mid: nat, n: nat)
    requires GoodPrefix(script, start, x) == x
    requires mid == start + x && n == x + y
    ensures GoodPrefix(script, start, n) == x + GoodPrefix(script, mid, y)
  {
    var k := GoodPrefix(script, mid, y);
    GoodPrefixIs(script, start, n, x + k);
  }

  /** Reading further does not move the first failure. */
  lemma GoodPrefixLonger(script: Script, start: nat, x: nat, n: nat)
    requires GoodPrefix(script, start, x) < x <= n
    ensures GoodPrefix(script, start, n) == GoodPrefix(script, start, x)
  {
    GoodPrefixIs(script, start, n, GoodPrefix(script, start, x));
  }

  /** The word of the `j`-th reply to a one-register read (0 for a failed read). */
  function WordOf(script: Script, j: nat): Word
  {
    if GoodRead(script, j) then Reply(script, j, 1).value[0] else 0
  }

  /** The words read for one field: one word from each of `count` replies
      from `start` on. */
  function Words(script: Script, start: nat, count: nat): (w: seq<Word>)
    ensures |w| == count
    ensures forall j :: 0 <= j < count ==> w[j] == WordOf(script, start + j)
    decreases count
  {
    if count == 0 then [] else [WordOf(script, start)] + Words(script, start + 1, count - 1)
  }

  /** What reading the registers of one field does: the words read (or the
      first error), the next reply, and the requests sent. */
  datatype FieldRead = FieldRead(words: Result<seq<Word>, IoError>, next: nat, requests: seq<Request>)

  /** Reads of the first `i` of `regs`, one register at a time from reply
      `start` on, stopping at the first failure; defined register by
      register from the last. */
  function FieldReads(script: Script, start: nat, regs: seq<Word>, i: nat): FieldRead
    requires i <= |regs|
  {
    if i == 0 then FieldRead(Ok([]), start, [])
    else
      var before := FieldReads(script, start, regs, i - 1);
      if before.words.Err? then before
      else
        var request := Request(regs[i - 1], 1);
        match Reply(script, before.next, 1)
        case Err(e) => FieldRead(Err(e), before.next + 1, before.requests + [request])
        case Ok(w) => FieldRead(Ok(before.words.value + [w[0]]), before.next + 1, before.requests + [request])
  }

  /** What a pass over the first `f` polled fields does. */
  datatype Pass = Pass(values: Result<seq<real>, IoError>, next: nat, requests: seq<Request>)

  function Poll(script: Script, start: nat, fields: seq<Descriptor>, registers: seq<seq<Word>>,
                fromU16s: (Descriptor, seq<Word>) -> real, f: nat): Pass
    requires f <= |fields| && f <= |registers|
  {
    if f == 0 then Pass(Ok([]), start, [])
    else
      var before := Poll(script, start, fields, registers, fromU16s, f - 1);
      if before.values.Err? then before
      else
        var read := FieldReads(script, before.next, registers[f - 1], |registers[f - 1]|);
        match read.words
        case Err(e) => Pass(Err(e), read.next, before.requests + read.requests)
        case Ok(w) => Pass(Ok(before.values.value + [fromU16s(fields[f - 1], w)]), read.next, before.requests + read.requests)
  }

  /** The number of fields a pass covers: `FIELDS` and `REGISTERS` are zipped. */
  function Zipped(fields: seq<Descriptor>, registers: seq<seq<Word>>): (n: nat)
    ensures n <= |fields| && n <= |registers| && (n == |fields| || n == |registers|)
  {
    if |fields| < |registers| then |fields| else |registers|
  }

  /** `read_values`: one pass over the polled fields, as `Poll` describes. */
  method ReadValues(ctx: Context, fields: seq<Descriptor>, registers: seq<seq<Word>>,
                    fromU16s: (Descriptor, seq<Word>) -> real)
    returns (r: Result<seq<real>, IoError>)
    requires forall f :: 0 <= f < |registers| ==> |registers[f]| <= 2
    modifies ctx
    ensures
      var p := Poll(old(ctx.script), old(ctx.next), fields, registers, fromU16s, Zipped(fields, registers));
      && r == p.values
      && ctx.script == old(ctx.script)
      && ctx.next == p.next
      && ctx.requests == old(ctx.requests) + p.requests
  {
    var n := Zipped(fields, registers);
    ghost var start := ctx.next;
    ghost var log := ctx.requests;
    ghost var script := ctx.script;
    var values: seq<real> := [];
    var parts := new Word[2];
    for f := 0 to n
      invariant ctx.script == script
      invariant log <= ctx.requests
      invariant Poll(script, start, fields, registers, fromU16s, f) == Pass(Ok(values), ctx.next, ctx.requests[|log|..])
    {
      var field := fields[f];
      var regs := registers[f];
      ghost var sent := ctx.requests[|log|..];
      ghost var fr := FieldReads(script, ctx.next, regs, |regs|);
      var read := ReadField(ctx, regs, parts);
      assert ctx.requests == log + (sent + fr.requests);
      if read.Err? {
        PollStaysFailed(script, start, fields, registers, fromU16s, f + 1, n);
        return Err(read.error);
      }
      var value := fromU16s(field, parts[..|regs|]);
      values := values + [value];
      assert Poll(script, start, fields, registers, fromU16s, f + 1) == Pass(Ok(values), fr.next, sent + fr.requests);
    }
    return Ok(values);
  }

  /** After a failed field nothing more is read. */
  lemma {:induction false} PollStaysFailed(script: Script, start: nat, fields: seq<Descriptor>, registers: seq<seq<Word>>,
                                           fromU16s: (Descriptor, seq<Word>) -> real, f: nat, n: nat)
    requires f <= n <= |fields| && n <= |registers|
    requires Poll(script, start, fields, registers, fromU16s, f).values.Err?
    ensures Poll(script, start, fields, registers, fromU16s, n) == Poll(script, start, fields, registers, fromU16s, f)
    decreases n - f
  {
    if f < n {
      PollStaysFailed(script, start, fields, registers, fromU16s, f + 1, n);
    }
  }

  /** The inner loop of `read_values`: the registers of one field, each read
      with its own request into the reused buffer `parts`, as `FieldReads`
      describes. */
  method ReadField(ctx: Context, regs: seq<Word>, parts: array<Word>) returns (r: Result<(), IoError>)
    requires |regs| <= parts.Length
    modifies ctx, parts
    ensures
      var read := FieldReads(old(ctx.script), old(ctx.next), regs, |regs|);
      && ctx.script == old(ctx.script)
      && (r.Ok? <==> read.words.Ok?)
      && (r.Ok? ==> parts[..|regs|] == read.words.value)
      && (r.Err? ==> r.error == read.words.error)
      && ctx.next == read.next
      && ctx.requests == old(ctx.requests) + read.requests
  {
    ghost var start := ctx.next;
    ghost var log := ctx.requests;
    ghost var script := ctx.script;
    for i := 0 to |regs|
      invariant ctx.script == script
      invariant log <= ctx.requests
      invariant FieldReads(script, start, regs, i) == FieldRead(Ok(parts[..i]), ctx.next, ctx.requests[|log|..])
    {
      var reply := ctx.ReadHoldingRegisters(regs[i], 1);
      if reply.Err? {
        FieldReadsStayFailed(script, start, regs, i + 1, |regs|);
        return Err(reply.error);
      }
      parts[i] := reply.value[0];
      assert parts[..i + 1] == parts[..i] + [reply.value[0]];
    }
    return Ok(());
  }

  lemma {:induction false} FieldReadsStayFailed(script: Script, start: nat, regs: seq<Word>, i: nat, n: nat)
    requires i <= n <= |regs|
    requires FieldReads(script, start, regs, i).words.Err?
    ensures FieldReads(script, start, regs, n) == FieldReads(script, start, regs, i)
    decreases n - i
  {
    if i < n {
      FieldReadsStayFailed(script, start, regs, i + 1, n);
    }
  }

  // What a pass means: the reads it makes, where it stops, and which words
  // each value is made from.

  /** The requests for reading `a` and then part of `b`. */
  lemma {:induction false} SinglesAppend(a: seq<Word>, b: seq<Word>, k: nat, n: nat)
    requires k <= |b| && n == |a| + k
    ensures Singles(a + b, n) == Singles(a, |a|) + Singles(b, k)
    decreases k
  {
    if k == 0 {
      SinglesPrefix(a, b, |a|);
    } else {
      SinglesAppend(a, b, k - 1, n - 1);
      assert (a + b)[n - 1] == b[k - 1];
    }
  }

  lemma WordsSnoc(script: Script, start: nat, count: nat)
    ensures Words(script, start, count + 1) == Words(script, start, count) + [WordOf(script, start + count)]
  {
  }

  /** What reading the first `i` of a field's registers has done, in terms of
      the replies: the statement of `FieldReadsMeaning`. */
  predicate ReadMeans(script: Script, start: nat, regs: seq<Word>, i: nat, r: FieldRead)
    requires i <= |regs|
  {
    var k := GoodPrefix(script, start, i);
    && (r.words.Ok? <==> k == i)
    && (r.words.Ok? ==>
          r.words.value == Words(script, start, i) && r.next == start + i && r.requests == Singles(regs, i))
    && (r.words.Err? ==>
          && r.next == start + k + 1
          && r.requests == Singles(regs, k + 1)
          && r.words.error == Reply(script, start + k, 1).error)
  }

  /** Reading one field's registers: every read succeeds exactly when the
      first `|regs|` replies answer a single register each, and then the words
      are those replies' words, in order, with one request per register.
      Otherwise the reads stop right after the first failed one, whose error
      is returned. */
  lemma {:induction false} FieldReadsMeaning(script: Script, start: nat, regs: seq<Word>, i: nat)
    requires i <= |regs|
    ensures ReadMeans(script, start, regs, i, FieldReads(script, start, regs, i))
    decreases i
  {
    if i > 0 {
      FieldReadsMeaning(script, start, regs, i - 1);
      var before := FieldReads(script, start, regs, i - 1);
      if before.words.Err? {
        ReadStepAfterFailure(script, start, regs, i, before);
      } else if GoodRead(script, start + i - 1) {
        ReadStepGood(script, start, regs, i, before);
      } else {
        ReadStepBad(script, start, regs, i, before);
      }
    }
  }

  lemma ReadStepAfterFailure(script: Script, start: nat, regs: seq<Word>, i: nat, before: FieldRead)
    requires 0 < i <= |regs|
    requires before == FieldReads(script, start, regs, i - 1) && before.words.Err?
    requires GoodPrefix(script, start, i - 1) < i - 1
    requires before.next == start + GoodPrefix(script, start, i - 1) + 1
    requires before.requests == Singles(regs, GoodPrefix(script, start, i - 1) + 1)
    requires before.words.error == Reply(script, start + GoodPrefix(script, start, i - 1), 1).error
    ensures ReadMeans(script, start, regs, i, FieldReads(script, start, regs, i))
  {
    assert FieldReads(script, start, regs, i) == before;
    GoodPrefixLonger(script, start, i - 1, i);
  }

  lemma ReadStepGood(script: Script, start: nat, regs: seq<Word>, i: nat, before: FieldRead)
    requires 0 < i <= |regs|
    requires before == FieldReads(script, start, regs, i - 1) && before.words.Ok?
    requires GoodRead(script, start + i - 1)
    requires GoodPrefix(script, start, i - 1) == i - 1
    requires before.words.value == Words(script, start, i - 1)
    requires before.next == start + i - 1 && before.requests == Singles(regs, i - 1)
    ensures ReadMeans(script, start, regs, i, FieldReads(script, start, regs, i))
  {
    var w := Reply(script, start + i - 1, 1).value;
    assert FieldReads(script, start, regs, i)
      == FieldRead(Ok(before.words.value + [w[0]]), start + i, before.requests + [Request(regs[i - 1], 1)]);
    GoodPrefixConcat(script, start, i - 1, 1, start + i - 1, i);
    WordsSnoc(script, start, i - 1);
  }

  lemma ReadStepBad(script: Script, start: nat, regs: seq<Word>, i: nat, before: FieldRead)
    requires 0 < i <= |regs|
    requires before == FieldReads(script, start, regs, i - 1) && before.words.Ok?
    requires !GoodRead(script, start + i - 1)
    requires GoodPrefix(script, start, i - 1) == i - 1
    requires before.next == start + i - 1 && before.requests == Singles(regs, i - 1)
    ensures ReadMeans(script, start, regs, i, FieldReads(script, start, regs, i))
  {
    assert FieldReads(script, start, regs, i)
      == FieldRead(Err(Reply(script, start + i - 1, 1).error), start + i, before.requests + [Request(regs[i - 1], 1)]);
    GoodPrefixConcat(script, start, i - 1, 1, start + i - 1, i);
  }

  /** What a pass over `f` fields has done, in terms of the replies: the
      statement of `PollMeaning`. */
  predicate PassMeans(script: Script, start: nat, fields: seq<Descriptor>, registers: seq<seq<Word>>,
                      fromU16s: (Descriptor, seq<Word>) -> real, f: nat, p: Pass)
    requires f <= |fields| && f <= |registers|
  {
    var a := Reads(registers, f);
    var k := GoodPrefix(script, start, |a|);
    && (p.values.Ok? <==> k == |a|)
    && (p.values.Ok? ==>
          && p.next == start + |a|
          && p.requests == Singles(a, |a|)
          && |p.values.value| == f
          && forall g {:trigger p.values.value[g]} :: 0 <= g < f ==>
               p.values.value[g] == fromU16s(fields[g], Words(script, start + |Reads(registers, g)|, |registers[g]|)))
    && (p.values.Err? ==>
          && p.next == start + k + 1
          && p.requests == Singles(a, k + 1)
          && p.values.error == Reply(script, start + k, 1).error)
  }

  /** A pass over the first `f` polled fields reads their registers, in
      table order and within a field in register order, with one request
      per register. It succeeds exactly when all those reads do, and then
      holds one value per field, converted from exactly that field's words
      (never a word left over from an earlier field). Otherwise it stops
      right after the first failed read and returns its error. */
  lemma {:induction false} PollMeaning(script: Script, start: nat, fields: seq<Descriptor>, registers: seq<seq<Word>>,
                                       fromU16s: (Descriptor, seq<Word>) -> real, f: nat)
    requires f <= |fields| && f <= |registers|
    ensures PassMeans(script, start, fields, registers, fromU16s, f, Poll(script, start, fields, registers, fromU16s, f))
    decreases f
  {
    if f > 0 {
      PollMeaning(script, start, fields, registers, fromU16s, f - 1);
      var before := Poll(script, start, fields, registers, fromU16s, f - 1);
      if before.values.Err? {
        PollStepAfterFailure(script, start, fields, registers, fromU16s, f, before);
      } else {
        var read := FieldReads(script, before.next, registers[f - 1], |registers[f - 1]|);
        FieldReadsMeaning(script, before.next, registers[f - 1], |registers[f - 1]|);
        PollUnfold(script, start, fields, registers, fromU16s, f, before, read);
        PollStepRead(script, start, fields, registers, fromU16s, f, before, read, Poll(script, start, fields, registers, fromU16s, f));
      }
    }
  }

  lemma PollStepAfterFailure(script: Script, start: nat, fields: seq<Descriptor>, registers: seq<seq<Word>>,
                             fromU16s: (Descriptor, seq<Word>) -> real, f: nat, before: Pass)
    requires 0 < f <= |fields| && f <= |registers|
    requires before == Poll(script, start, fields, registers, fromU16s, f - 1) && before.values.Err?
    requires
      var a := Reads(registers, f - 1);
      var k := GoodPrefix(script, start, |a|);
      && k < |a|
      && before.next == start + k + 1
      && before.requests == Singles(a, k + 1)
      && before.values.error == Reply(script, start + k, 1).error
    ensures PassMeans(script, start, fields, registers, fromU16s, f, Poll(script, start, fields, registers, fromU16s, f))
  {
    var a' := Reads(registers, f - 1);
    var regs := registers[f - 1];
    var k' := GoodPrefix(script, start, |a'|);
    assert Poll(script, start, fields, registers, fromU16s, f) == before;
    assert Reads(registers, f) == a' + regs;
    GoodPrefixLonger(script, start, |a'|, |Reads(registers, f)|);
    SinglesPrefix(a', regs, k' + 1);
  }

  /** Appending more addresses leaves the requests for a prefix alone. */
  lemma {:induction false} SinglesPrefix(a: seq<Word>, b: seq<Word>, n: nat)
    requires n <= |a|
    ensures Singles(a + b, n) == Singles(a, n)
    decreases n
  {
    if n > 0 {
      SinglesPrefix(a, b, n - 1);
    }
  }

  /** The step of `PollMeaning` for a field read after a successful pass;
      `p` is the pass one step of `Poll` makes of `before` and `read`. */
  lemma PollStepRead(script: Script, start: nat, fields: seq<Descriptor>, registers: seq<seq<Word>>,
                     fromU16s: (Descriptor, seq<Word>) -> real, f: nat, before: Pass, read: FieldRead, p: Pass)
    requires 0 < f <= |fields| && f <= |registers| && before.values.Ok?
    requires PassMeans(script, start, fields, registers, fromU16s, f - 1, before)
    requires ReadMeans(script, before.next, registers[f - 1], |registers[f - 1]|, read)
    requires read.words.Ok? ==>
      p == Pass(Ok(before.values.value + [fromU16s(fields[f - 1], read.words.value)]), read.next, before.requests + read.requests)
    requires read.words.Err? ==> p == Pass(Err(read.words.error), read.next, before.requests + read.requests)
    ensures PassMeans(script, start, fields, registers, fromU16s, f, p)
  {
    var kk := GoodPrefix(script, before.next, |registers[f - 1]|);
    if read.words.Ok? {
      PollStepReadOk(script, start, fields, registers, fromU16s, f, before, read, p);
    } else {
      PollStepReadFailed(script, start, fields, registers, fromU16s, f, before, read, kk, p);
    }
  }

  /** One step of `Poll` after a successful pass. */
  lemma PollUnfold(script: Script, start: nat, fields: seq<Descriptor>, registers: seq<seq<Word>>,
                   fromU16s: (Descriptor, seq<Word>) -> real, f: nat, before: Pass, read: FieldRead)
    requires 0 < f <= |fields| && f <= |registers|
    requires before == Poll(script, start, fields, registers, fromU16s, f - 1) && before.values.Ok?
    requires read == FieldReads(script, before.next, registers[f - 1], |registers[f - 1]|)
    ensures read.words.Ok? ==>
      Poll(script, start, fields, registers, fromU16s, f)
      == Pass(Ok(before.values.value + [fromU16s(fields[f - 1], read.words.value)]), read.next, before.requests + read.requests)
    ensures read.words.Err? ==>
      Poll(script, start, fields, registers, fromU16s, f) == Pass(Err(read.words.error), read.next, before.requests + read.requests)
  {
  }

  /** The step of `PollMeaning` for a field whose reads all succeed. */
  lemma PollStepReadOk(script: Script, start: nat, fields: seq<Descriptor>, registers: seq<seq<Word>>,
                       fromU16s: (Descriptor, seq<Word>) -> real, f: nat, before: Pass, read: FieldRead, p: Pass)
    requires 0 < f <= |fields| && f <= |registers| && before.values.Ok?
    requires before.next == start + |Reads(registers, f - 1)|
    requires before.requests == Singles(Reads(registers, f - 1), |Reads(registers, f - 1)|)
    requires GoodPrefix(script, start, |Reads(registers, f - 1)|) == |Reads(registers, f - 1)|
    requires |before.values.value| == f - 1
    requires forall g {:trigger before.values.value[g]} :: 0 <= g < f - 1 ==>
      before.values.value[g] == fromU16s(fields[g], Words(script, start + |Reads(registers, g)|, |registers[g]|))
    requires read.words.Ok?
    requires GoodPrefix(script, before.next, |registers[f - 1]|) == |registers[f - 1]|
    requires read.words.value == Words(script, before.next, |registers[f - 1]|)
    requires read.next == before.next + |registers[f - 1]|
    requires read.requests == Singles(registers[f - 1], |registers[f - 1]|)
    requires p == Pass(Ok(before.values.value + [fromU16s(fields[f - 1], read.words.value)]), read.next, before.requests + read.requests)
    ensures PassMeans(script, start, fields, registers, fromU16s, f, p)
  {
    var a' := Reads(registers, f - 1);
    var regs := registers[f - 1];
    var a := Reads(registers, f);
    assert a == a' + regs;
    assert GoodPrefix(script, start, |a|) == |a| by {
      GoodPrefixConcat(script, start, |a'|, |regs|, before.next, |a|);
    }
    assert p.requests == Singles(a, |a|) by {
      SinglesAppend(a', regs, |regs|, |a|);
    }
    forall g | 0 <= g < f
      ensures p.values.value[g] == fromU16s(fields[g], Words(script, start + |Reads(registers, g)|, |registers[g]|))
    {
      if g < f - 1 {
        assert p.values.value[g] == before.values.value[g];
      }
    }
  }

  /** The step of `PollMeaning` for a field one of whose reads fails. */
  lemma PollStepReadFailed(script: Script, start: nat, fields: seq<Descriptor>, registers: seq<seq<Word>>,
                           fromU16s: (Descriptor, seq<Word>) -> real, f: nat, before: Pass, read: FieldRead, kk: nat, p: Pass)
    requires 0 < f <= |fields| && f <= |registers|
    requires before.next == start + |Reads(registers, f - 1)|
    requires before.requests == Singles(Reads(registers, f - 1), |Reads(registers, f - 1)|)
    requires GoodPrefix(script, start, |Reads(registers, f - 1)|) == |Reads(registers, f - 1)|
    requires read.words.Err?
    requires kk == GoodPrefix(script, before.next, |registers[f - 1]|) < |registers[f - 1]|
    requires read.next == before.next + kk + 1
    requires read.requests == Singles(registers[f - 1], kk + 1)
    requires read.words.error == Reply(script, before.next + kk, 1).error
    requires p == Pass(Err(read.words.error), read.next, before.requests + read.requests)
    ensures PassMeans(script, start, fields, registers, fromU16s, f, p)
  {
    var a' := Reads(registers, f - 1);
    var regs := registers[f - 1];
    var a := Reads(registers, f);
    assert a == a' + regs;
    var k := GoodPrefix(script, start, |a|);
    assert k == |a'| + kk by {
      GoodPrefixConcat(script, start, |a'|, |regs|, before.next, |a|);
    }
    assert p.requests == Singles(a, k + 1) by {
      SinglesAppend(a', regs, kk + 1, k + 1);
    }
    PassFailed(script, start, fields, registers, fromU16s, f, p, k, before.next + kk);
  }

  /** A failed pass means what `PassMeans` says once its facts hold; `j` is
      the failed reply. */
  lemma PassFailed(script: Script, start: nat, fields: seq<Descriptor>, registers: seq<seq<Word>>,
                   fromU16s: (Descriptor, seq<Word>) -> real, f: nat, p: Pass, k: nat, j: nat)
    requires f <= |fields| && f <= |registers| && p.values.Err?
    requires k == GoodPrefix(script, start, |Reads(registers, f)|) < |Reads(registers, f)|
    requires j == start + k
    requires p.next == j + 1
    requires p.requests == Singles(Reads(registers, f), k + 1)
    requires p.values.error == Reply(script, j, 1).error
    ensures PassMeans(script, start, fields, registers, fromU16s, f, p)
  {
  }

  // The serial number.

  /** The serial is read from five holding registers starting at address 3. */
  const SerialAddress: Word := 3
  const SerialWords: nat := 5

  /** Words as big-endian bytes, high byte first (`u16::to_be_bytes`). */
  function BeBytes(words: seq<Word>): (b: seq<Byte>)
    ensures |b| == 2 * |words|
  {
    if words == [] then []
    else
      var w := words[|words| - 1];
      BeBytes(words[..|words| - 1]) + [w / 256, w % 256]
  }

  /** Pairs of bytes as big-endian words, the inverse of `BeBytes`. */
  function BeWords(bytes: seq<Byte>): (w: seq<Word>)
    requires |bytes| % 2 == 0
    ensures |w| == |bytes| / 2
  {
    if bytes == [] then []
    else BeWords(bytes[..|bytes| - 2]) + [bytes[|bytes| - 2] as int * 256 + bytes[|bytes| - 1] as int]
  }

  lemma {:induction false} BeWordsBytes(words: seq<Word>)
    ensures BeWords(BeBytes(words)) == words
    decreases |words|
  {
    if words != [] {
      var init := words[..|words| - 1];
      var w := words[|words| - 1];
      var b := BeBytes(words);
      assert b == BeBytes(init) + [w / 256, w % 256];
      BeWordsBytes(init);
      assert b[..|b| - 2] == BeBytes(init);
      assert b[|b| - 2] as int * 256 + b[|b| - 1] as int == w;
      assert BeWords(b) == init + [w];
      assert init + [w] == words;
    }
  }

  lemma {:induction false} BeBytesWords(bytes: seq<Byte>)
    requires |bytes| % 2 == 0
    ensures BeBytes(BeWords(bytes)) == bytes
    decreases |bytes|
  {
    if bytes != [] {
      var init := bytes[..|bytes| - 2];
      BeBytesWords(init);
      var hi, lo := bytes[|bytes| - 2], bytes[|bytes| - 1];
      var w := BeWords(bytes);
      var v := hi as int * 256 + lo as int;
      assert w == BeWords(init) + [v];
      DivModUnique(v, 256, hi, lo);
      assert w[..|w| - 1] == BeWords(init);
      assert BeBytes(w) == BeBytes(BeWords(init)) + [hi, lo];
      assert init + [hi, lo] == bytes;
    }
  }

  /** The unpacking loop of `create_stream`: byte `2i` is the high byte and
      byte `2i+1` the low byte of word `i`, for the first five words. */
  method UnpackSerial(words: seq<Word>) returns (bytes: array<Byte>)
    requires |words| >= SerialWords
    ensures fresh(bytes)
    ensures bytes[..] == BeBytes(words[..SerialWords])
  {
    bytes := new Byte[2 * SerialWords];
    for i := 0 to SerialWords
      invariant bytes[..2 * i] == BeBytes(words[..i])
    {
      var hi, lo := words[i] / 256, words[i] % 256;
      bytes[2 * i] := hi;
      bytes[2 * i + 1] := lo;
      assert words[..i + 1][..i] == words[..i];
      assert bytes[..2 * (i + 1)] == bytes[..2 * i] + [hi, lo];
    }
    assert bytes[..] == bytes[..2 * SerialWords];
  }

  /** Why identifying the inverter failed. */
  datatype IdentifyError = ReadFailed(cause: IoError) | NotUtf8

  /** The start of `create_stream`: read the serial registers, unpack them
      and require the ten bytes to be UTF-8; there is no fallback. */
  method Identify(ctx: Context) returns (r: Result<string, IdentifyError>)
    modifies ctx
    ensures ctx.script == old(ctx.script) && ctx.next == old(ctx.next) + 1
    ensures ctx.requests == old(ctx.requests) + [Request(SerialAddress, SerialWords)]
    ensures
      var reply := Reply(old(ctx.script), old(ctx.next), SerialWords);
      && (reply.Err? ==> r == Err(ReadFailed(reply.error)))
      && (reply.Ok? ==>
            && (r.Ok? <==> Utf8.WellFormed(BeBytes(reply.value)))
            && (r.Ok? ==> Utf8.Encode(r.value) == BeBytes(reply.value))
            && (r.Err? ==> r.error == NotUtf8))
  {
    var reply := ctx.ReadHoldingRegisters(SerialAddress, SerialWords);
    if reply.Err? {
      return Err(ReadFailed(reply.error));
    }
    var bytes := UnpackSerial(reply.value);
    assert reply.value[..SerialWords] == reply.value;
    match Utf8.Decode(bytes[..])
    case None =>
      return Err(NotUtf8);
    case Some(serial) =>
      Utf8.EncodeDecode(bytes[..]);
      return Ok(serial);
  }

  /** One tick of the polling loop: a pass over the polled fields; a failed
      pass emits nothing, a good one emits one record stamped with the clock
      reading `now` and the identified serial. */
  method Tick(ctx: Context, fields: seq<Descriptor>, registers: seq<seq<Word>>,
              fromU16s: (Descriptor, seq<Word>) -> real, serial: string, now: I64)
    returns (u: Option<Update<Descriptor>>)
    requires |fields| == |registers|
    requires forall f :: 0 <= f < |registers| ==> |registers[f]| <= 2
    modifies ctx
    ensures
      var p := Poll(old(ctx.script), old(ctx.next), fields, registers, fromU16s, |fields|);
      && (u.Some? <==> p.values.Ok?)
      && (u.Some? ==> u.value.Valid() && u.value == Update(now, serial, fields, p.values.value))
      && ctx.script == old(ctx.script)
      && ctx.next == p.next
      && ctx.requests == old(ctx.requests) + p.requests
  {
    PollMeaning(ctx.script, ctx.next, fields, registers, fromU16s, |fields|);
    var values := ReadValues(ctx, fields, registers, fromU16s);
    match values
    case Err(_) =>
      return None;
    case Ok(v) =>
      return Some(New(now, serial, fields, v));
  }
}
