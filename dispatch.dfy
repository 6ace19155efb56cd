/** The dispatcher (`run` in src/main.rs): every decoded record is handed to
    every sink, in sink order, before the next packet is taken; packets that
    decode to nothing are skipped; a capture error or a failed hand-over ends
    the run at once; at the end of the capture every sink is closed in turn. */
module Dispatch {
  import opened Types

  /** One item of the capture stream: a capture error, or a packet that the
      decoder turned into a record or into nothing. */
  type Item<T, E> = Result<Option<T>, E>

  /** Why a run ended early. */
  datatype RunError<E> = CaptureFailed(error: E) | SendFailed(sink: nat) | CloseFailed(sink: nat)

  /** The state of the sending half of one receiver's channel. */
  datatype Channel<T> = Channel(
    /** Everything handed over so far, in order. */
    received: seq<T>,
    /** How many records the receiving task takes in all before it drops its
        half (the environment decides; a receiver that stays for the whole
        run has a lifetime beyond the run's length). */
    lifetime: nat,
    /** Whether `close` has completed. */
    closed: bool,
    /** Whether `close` will succeed (the environment decides). */
    closable: bool)
  {
    /** Whether a hand-over succeeds: the channel is open and its receiving
        half has not been dropped yet. */
    predicate Accepts() { !closed && |received| < lifetime }
  }

  /** The slice of senders `run` is given, one channel per receiver. */
  class Sinks<T> {
    var channels: seq<Channel<T>>

    constructor(channels: seq<Channel<T>>)
      ensures this.channels == channels
    {
      this.channels := channels;
    }

    /** `unbounded_send` on sink `i`: succeeds, and appends, exactly when
        the channel accepts; no other channel changes. */
    method Send(i: nat, x: T) returns (ok: bool)
      requires i < |channels|
      modifies this
      ensures ok == old(channels[i].Accepts())
      ensures channels == old(channels)[i := old(channels[i]).(received := old(channels[i].received) + (if ok then [x] else []))]
    {
      ok := channels[i].Accepts();
      if ok {
        channels := channels[i := channels[i].(received := channels[i].received + [x])];
      } else {
        assert channels[i].received + [] == channels[i].received;
        assert channels[i := channels[i]] == channels;
      }
    }

    /** `close` on sink `i`. */
    method Close(i: nat) returns (ok: bool)
      requires i < |channels|
      modifies this
      ensures ok == old(channels[i].closable)
      ensures channels == old(channels)[i := old(channels[i]).(closed := old(channels[i].closed) || ok)]
    {
      ok := channels[i].closable;
      if ok {
        channels := channels[i := channels[i].(closed := true)];
      }
    }
  }

  /** The capture stream: a fixed sequence of items read front to back. */
  class Source<T, E> {
    const items: seq<Item<T, E>>
    var position: nat

    constructor(items: seq<Item<T, E>>)
      ensures this.items == items && position == 0
      ensures position <= |this.items|
    {
      this.items := items;
      position := 0;
    }

    /** `stream.next()`: the next item, or None at the end of the capture. */
    method Next() returns (r: Option<Item<T, E>>)
      modifies this
      ensures old(position) < |items| ==> r == Some(items[old(position)]) && position == old(position) + 1
      ensures old(position) >= |items| ==> r == None && position == old(position)
      ensures old(position) <= |items| ==> position <= |items|
    {
      if position < |items| {
        r := Some(items[position]);
        position := position + 1;
      } else {
        r := None;
      }
    }
  }

  // Reference definitions.

  /** The records among `items`, in order. */
  function Records<T, E>(items: seq<Item<T, E>>): seq<T>
  {
    if items == [] then []
    else
      (match items[0] { case Ok(Some(u)) => [u] case _ => [] }) + Records(items[1..])
  }

  /** The position of the first capture error, or the length when there is none. */
  function {:induction false} FirstError<T, E>(items: seq<Item<T, E>>): (k: nat)
    ensures k <= |items|
    ensures forall j :: 0 <= j < k ==> items[j].Ok?
    ensures k < |items| ==> items[k].Err?
  {
    if items == [] || items[0].Err? then 0
    else
      var k := FirstError(items[1..]);
      assert forall j :: 0 < j <= k ==> items[j] == items[1..][j - 1];
      k + 1
  }

  /** The first channel that would refuse a hand-over, or the number of channels. */
  function {:induction false} FirstRefusing<T>(channels: seq<Channel<T>>): (k: nat)
    ensures k <= |channels|
    ensures forall j :: 0 <= j < k ==> channels[j].Accepts()
    ensures k < |channels| ==> !channels[k].Accepts()
  {
    if channels == [] || !channels[0].Accepts() then 0
    else
      var k := FirstRefusing(channels[1..]);
      assert forall j :: 0 < j <= k ==> channels[j] == channels[1..][j - 1];
      k + 1
  }

  /** The first channel whose `close` fails, or the number of channels. */
  function {:induction false} FirstUnclosable<T>(channels: seq<Channel<T>>): (k: nat)
    ensures k <= |channels|
    ensures forall j :: 0 <= j < k ==> channels[j].closable
    ensures k < |channels| ==> !channels[k].closable
  {
    if channels == [] || !channels[0].closable then 0
    else
      var k := FirstUnclosable(channels[1..]);
      assert forall j :: 0 < j <= k ==> channels[j] == channels[1..][j - 1];
      k + 1
  }

  /** The channels after `x` was handed to the first `n` of them. */
  function Delivered<T>(channels: seq<Channel<T>>, x: T, n: nat): (d: seq<Channel<T>>)
    ensures |d| == |channels|
    ensures forall j :: 0 <= j < |channels| ==>
      d[j] == channels[j].(received := channels[j].received + (if j < n then [x] else []))
  {
    seq(|channels|, j requires 0 <= j < |channels| =>
      channels[j].(received := channels[j].received + (if j < n then [x] else [])))
  }

  /** The channels after every one of them received `xs`. */
  function DeliveredAll<T>(channels: seq<Channel<T>>, xs: seq<T>): (d: seq<Channel<T>>)
    ensures |d| == |channels|
    ensures forall j :: 0 <= j < |channels| ==> d[j] == channels[j].(received := channels[j].received + xs)
  {
    seq(|channels|, j requires 0 <= j < |channels| => channels[j].(received := channels[j].received + xs))
  }

  /** The channels after the first `n` of them were closed. */
  function ClosedUpTo<T>(channels: seq<Channel<T>>, n: nat): (d: seq<Channel<T>>)
    ensures |d| == |channels|
    ensures forall j :: 0 <= j < |channels| ==> d[j] == channels[j].(closed := channels[j].closed || j < n)
  {
    seq(|channels|, j requires 0 <= j < |channels| => channels[j].(closed := channels[j].closed || j < n))
  }

  // Facts about the reference definitions.

  lemma FirstRefusingIs<T>(channels: seq<Channel<T>>, k: nat)
    requires k <= |channels|
    requires forall j :: 0 <= j < k ==> channels[j].Accepts()
    requires k < |channels| ==> !channels[k].Accepts()
    ensures FirstRefusing(channels) == k
  {
  }

  lemma FirstUnclosableIs<T>(channels: seq<Channel<T>>, k: nat)
    requires k <= |channels|
    requires forall j :: 0 <= j < k ==> channels[j].closable
    requires k < |channels| ==> !channels[k].closable
    ensures FirstUnclosable(channels) == k
  {
  }

  /** Handing over one record to all channels appends it to every one. */
  lemma DeliveredAllStep<T>(channels: seq<Channel<T>>, xs: seq<T>, x: T)
    ensures Delivered(DeliveredAll(channels, xs), x, |channels|) == DeliveredAll(channels, xs + [x])
  {
    assert forall j :: 0 <= j < |channels| ==> channels[j].received + xs + [x] == channels[j].received + (xs + [x]);
  }

  /** The inner loop of `run`: hand `x` to each sink in order, stopping at
      the first that refuses it. */
  method Broadcast<T>(sinks: Sinks<T>, x: T) returns (r: Result<(), nat>)
    modifies sinks
    ensures
      var q := FirstRefusing(old(sinks.channels));
      && (r.Ok? <==> q == |old(sinks.channels)|)
      && (r.Err? ==> r.error == q)
      && sinks.channels == Delivered(old(sinks.channels), x, q)
  {
    ghost var before := sinks.channels;
    forall j | 0 <= j < |before|
      ensures Delivered(before, x, 0)[j] == before[j]
    {
      assert before[j].received + [] == before[j].received;
    }
    assert Delivered(before, x, 0) == before;
    for i := 0 to |sinks.channels|
      invariant |sinks.channels| == |before|
      invariant forall j :: 0 <= j < i ==> before[j].Accepts()
      invariant sinks.channels == Delivered(before, x, i)
    {
      var ok := sinks.Send(i, x);
      if !ok {
        FirstRefusingIs(before, i);
        return Err(i);
      }
      assert sinks.channels == Delivered(before, x, i + 1);
    }
    FirstRefusingIs(before, |before|);
    return Ok(());
  }

  /** The closing loop of `run`: close each sink in order, stopping at the
      first failure. */
  method CloseAll<T>(sinks: Sinks<T>) returns (r: Result<(), nat>)
    modifies sinks
    ensures
      var c := FirstUnclosable(old(sinks.channels));
      && (r.Ok? <==> c == |old(sinks.channels)|)
      && (r.Err? ==> r.error == c)
      && sinks.channels == ClosedUpTo(old(sinks.channels), c)
  {
    ghost var before := sinks.channels;
    for i := 0 to |sinks.channels|
      invariant |sinks.channels| == |before|
      invariant forall j :: 0 <= j < i ==> before[j].closable
      invariant sinks.channels == ClosedUpTo(before, i)
    {
      var ok := sinks.Close(i);
      if !ok {
        FirstUnclosableIs(before, i);
        assert sinks.channels == ClosedUpTo(before, i);
        return Err(i);
      }
      assert sinks.channels == ClosedUpTo(before, i + 1);
    }
    FirstUnclosableIs(before, |before|);
    return Ok(());
  }

  /** What a run leaves behind: its verdict, the channels, and how many
      items it took from the stream. */
  datatype Outcome<T, E> = Outcome(result: Result<(), RunError<E>>, channels: seq<Channel<T>>, consumed: nat)

  /** The run, item by item: a capture error ends it; a record goes to every
      sink in order, and the first refusal ends it; at the end of the stream
      the sinks are closed in order, and the first failure ends it. */
  function Dispatched<T, E>(items: seq<Item<T, E>>, channels: seq<Channel<T>>): (o: Outcome<T, E>)
    ensures |o.channels| == |channels|
    ensures o.consumed <= |items|
    decreases |items|
  {
    if items == [] then
      var c := FirstUnclosable(channels);
      Outcome(if c == |channels| then Ok(()) else Err(CloseFailed(c)), ClosedUpTo(channels, c), 0)
    else
      match items[0]
      case Err(e) => Outcome(Err(CaptureFailed(e)), channels, 1)
      case Ok(None) =>
        var o := Dispatched(items[1..], channels);
        o.(consumed := o.consumed + 1)
      case Ok(Some(u)) =>
        var q := FirstRefusing(channels);
        if q < |channels| then Outcome(Err(SendFailed(q)), Delivered(channels, u, q), 1)
        else
          var o := Dispatched(items[1..], DeliveredAll(channels, [u]));
          o.(consumed := o.consumed + 1)
  }

  /** `run`: pull items until the stream ends or something fails. */
  method Run<T, E>(stream: Source<T, E>, sinks: Sinks<T>) returns (r: Result<(), RunError<E>>)
    requires stream.position <= |stream.items|
    modifies stream, sinks
    ensures
      var o := Dispatched(old(stream.items[stream.position..]), old(sinks.channels));
      && r == o.result
      && sinks.channels == o.channels
      && stream.position == old(stream.position) + o.consumed
  {
    ghost var pos0 := stream.position;
    ghost var o0 := Dispatched(stream.items[pos0..], sinks.channels);
    while true
      invariant pos0 <= stream.position <= |stream.items|
      invariant
        var o := Dispatched(stream.items[stream.position..], sinks.channels);
        o0 == o.(consumed := stream.position - pos0 + o.consumed)
      decreases |stream.items| - stream.position
    {
      ghost var p := stream.position;
      ghost var before := sinks.channels;
      var item := stream.Next();
      if item.None? {
        assert stream.items[p..] == [];
        break;
      }
      assert stream.items[p..][0] == item.value;
      assert stream.items[p..][1..] == stream.items[p + 1..];
      match item.value {
        case Err(e) =>
          return Err(CaptureFailed(e));
        case Ok(None) =>
        case Ok(Some(u)) =>
          var sent := Broadcast(sinks, u);
          if sent.Err? {
            return Err(SendFailed(sent.error));
          }
          DeliveredToEvery(before, u);
      }
    }
    var closed := CloseAll(sinks);
    if closed.Err? {
      return Err(CloseFailed(closed.error));
    }
    return Ok(());
  }

  // What a run does, stated through the first error, the first record, the
  // first refusing sink and the first sink that fails to close.

  lemma DeliveredAllNone<T>(channels: seq<Channel<T>>)
    ensures DeliveredAll(channels, []) == channels
  {
    forall j | 0 <= j < |channels|
      ensures DeliveredAll(channels, [])[j] == channels[j]
    {
      assert channels[j].received + [] == channels[j].received;
    }
  }

  lemma DeliveredAllConcat<T>(channels: seq<Channel<T>>, xs: seq<T>, ys: seq<T>)
    ensures DeliveredAll(DeliveredAll(channels, xs), ys) == DeliveredAll(channels, xs + ys)
  {
    forall j | 0 <= j < |channels|
      ensures DeliveredAll(DeliveredAll(channels, xs), ys)[j] == DeliveredAll(channels, xs + ys)[j]
    {
      assert channels[j].received + xs + ys == channels[j].received + (xs + ys);
    }
  }

  /** Handing a record to every sink is delivering it to all of them. */
  lemma DeliveredToEvery<T>(channels: seq<Channel<T>>, x: T)
    ensures Delivered(channels, x, |channels|) == DeliveredAll(channels, [x])
  {
  }

  /** Deliveries do not change which sinks can be closed. */
  lemma DeliveredAllKeepsClosable<T>(channels: seq<Channel<T>>, xs: seq<T>)
    ensures FirstUnclosable(DeliveredAll(channels, xs)) == FirstUnclosable(channels)
  {
    FirstUnclosableIs(DeliveredAll(channels, xs), FirstUnclosable(channels));
  }

  /** Once `xs` reached every sink, some sink refuses the next record exactly
      when one of them is closed or its receiver has already taken all the
      records it takes. */
  lemma RefusesAfter<T>(channels: seq<Channel<T>>, xs: seq<T>)
    ensures FirstRefusing(DeliveredAll(channels, xs)) < |channels| <==>
      exists j :: 0 <= j < |channels| && (channels[j].closed || channels[j].lifetime <= |channels[j].received| + |xs|)
  {
    var d := DeliveredAll(channels, xs);
    if FirstRefusing(d) < |channels| {
      var q := FirstRefusing(d);
      assert !d[q].Accepts();
      assert channels[q].closed || channels[q].lifetime <= |channels[q].received| + |xs|;
    }
    if exists j :: 0 <= j < |channels| && (channels[j].closed || channels[j].lifetime <= |channels[j].received| + |xs|) {
      var j :| 0 <= j < |channels| && (channels[j].closed || channels[j].lifetime <= |channels[j].received| + |xs|);
      assert !d[j].Accepts();
    }
  }

  /** Whether some sink refuses the record at position `i` once every record
      before it has reached every sink. */
  predicate Stalls<T, E>(items: seq<Item<T, E>>, channels: seq<Channel<T>>, i: nat)
    requires i < |items|
  {
    items[i].Ok? && items[i].value.Some? && FirstRefusing(DeliveredAll(channels, Records(items[..i]))) < |channels|
  }

  /** The position of the first record some sink refuses, or the length when
      every sink takes every record; `FirstStallMeaning` says what it is. */
  function {:induction false} FirstStall<T, E>(items: seq<Item<T, E>>, channels: seq<Channel<T>>): (k: nat)
    ensures k <= |items|
    ensures k < |items| ==> items[k].Ok? && items[k].value.Some?
    decreases |items|
  {
    if items == [] then 0
    else if items[0].Ok? && items[0].value.Some? then
      if FirstRefusing(channels) < |channels| then 0
      else
        var k := FirstStall(items[1..], DeliveredAll(channels, [items[0].value.value]));
        assert k < |items| - 1 ==> items[k + 1] == items[1..][k];
        k + 1
    else
      var k := FirstStall(items[1..], channels);
      assert k < |items| - 1 ==> items[k + 1] == items[1..][k];
      k + 1
  }

  /** The records before position `i + 1`: the first item's own, then those
      of the rest. */
  lemma RecordsPrefix<T, E>(items: seq<Item<T, E>>, i: nat)
    requires i < |items|
    ensures !(items[0].Ok? && items[0].value.Some?) ==> Records(items[..i + 1]) == Records(items[1..][..i])
    ensures items[0].Ok? && items[0].value.Some? ==>
      Records(items[..i + 1]) == [items[0].value.value] + Records(items[1..][..i])
  {
    assert items[..i + 1][0] == items[0];
    assert items[..i + 1][1..] == items[1..][..i];
  }

  /** Every record before the first stall is taken by every sink once the
      records before it have reached them all; the record at the stall is
      refused by some sink. */
  lemma {:induction false} FirstStallMeaning<T, E>(items: seq<Item<T, E>>, channels: seq<Channel<T>>)
    ensures forall j :: 0 <= j < FirstStall(items, channels) ==> !Stalls(items, channels, j)
    ensures FirstStall(items, channels) < |items| ==> Stalls(items, channels, FirstStall(items, channels))
    decreases |items|
  {
    if items != [] {
      assert items[..0] == [];
      DeliveredAllNone(channels);
      var record := items[0].Ok? && items[0].value.Some?;
      if !(record && FirstRefusing(channels) < |channels|) {
        var tail := items[1..];
        var d := if record then DeliveredAll(channels, [items[0].value.value]) else channels;
        FirstStallMeaning(tail, d);
        forall j | 1 <= j < |items|
          ensures Stalls(items, channels, j) == Stalls(tail, d, j - 1)
        {
          StallsShift(items, channels, j);
        }
      }
    }
  }

  /** Whether the item at `j` stalls, read from the rest of the stream and
      the sinks after the first item. */
  lemma StallsShift<T, E>(items: seq<Item<T, E>>, channels: seq<Channel<T>>, j: nat)
    requires 1 <= j < |items|
    ensures items[0].Ok? && items[0].value.Some? ==>
      Stalls(items, channels, j) == Stalls(items[1..], DeliveredAll(channels, [items[0].value.value]), j - 1)
    ensures !(items[0].Ok? && items[0].value.Some?) ==> Stalls(items, channels, j) == Stalls(items[1..], channels, j - 1)
  {
    RecordsPrefix(items, j - 1);
    if items[0].Ok? && items[0].value.Some? {
      DeliveredAllConcat(channels, [items[0].value.value], Records(items[1..][..j - 1]));
    }
    assert items[j] == items[1..][j - 1];
  }

  /** The outcome `DispatchedMeaning` promises. */
  function Expected<T, E>(items: seq<Item<T, E>>, channels: seq<Channel<T>>): Outcome<T, E>
  {
    var e, s := FirstError(items), FirstStall(items, channels);
    var c := FirstUnclosable(channels);
    if s < e then
      var before := DeliveredAll(channels, Records(items[..s]));
      var q := FirstRefusing(before);
      Outcome(Err(SendFailed(q)), Delivered(before, items[s].value.value, q), s + 1)
    else if e < |items| then
      Outcome(Err(CaptureFailed(items[e].error)), DeliveredAll(channels, Records(items[..e])), e + 1)
    else
      Outcome(if c == |channels| then Ok(()) else Err(CloseFailed(c)), ClosedUpTo(DeliveredAll(channels, Records(items)), c), |items|)
  }

  /** The three outcomes `Expected` chooses between. */
  function Refused<T, E>(items: seq<Item<T, E>>, channels: seq<Channel<T>>): Outcome<T, E>
    requires FirstStall(items, channels) < |items|
  {
    var s := FirstStall(items, channels);
    var before := DeliveredAll(channels, Records(items[..s]));
    var q := FirstRefusing(before);
    Outcome(Err(SendFailed(q)), Delivered(before, items[s].value.value, q), s + 1)
  }

  function Failed<T, E>(items: seq<Item<T, E>>, channels: seq<Channel<T>>): Outcome<T, E>
    requires FirstError(items) < |items|
  {
    var e := FirstError(items);
    Outcome(Err(CaptureFailed(items[e].error)), DeliveredAll(channels, Records(items[..e])), e + 1)
  }

  function Finished<T, E>(items: seq<Item<T, E>>, channels: seq<Channel<T>>): Outcome<T, E>
  {
    var c := FirstUnclosable(channels);
    Outcome(if c == |channels| then Ok(()) else Err(CloseFailed(c)), ClosedUpTo(DeliveredAll(channels, Records(items)), c), |items|)
  }

  /** Skipping an item that decodes to nothing changes only the count. */
  lemma SkipRefused<T, E>(items: seq<Item<T, E>>, channels: seq<Channel<T>>)
    requires items != [] && items[0] == Ok(None)
    requires FirstStall(items[1..], channels) < |items[1..]|
    ensures FirstStall(items, channels) < |items|
    ensures Refused(items, channels) == Refused(items[1..], channels).(consumed := Refused(items[1..], channels).consumed + 1)
  {
    var s := FirstStall(items, channels);
    assert s == FirstStall(items[1..], channels) + 1;
    RecordsPrefix(items, s - 1);
    assert items[s] == items[1..][s - 1];
  }

  lemma SkipFailed<T, E>(items: seq<Item<T, E>>, channels: seq<Channel<T>>)
    requires items != [] && items[0] == Ok(None)
    requires FirstError(items[1..]) < |items[1..]|
    ensures FirstError(items) < |items|
    ensures Failed(items, channels) == Failed(items[1..], channels).(consumed := Failed(items[1..], channels).consumed + 1)
  {
    var tail := items[1..];
    var e := FirstError(items);
    assert e == FirstError(tail) + 1;
    assert items[..e][0] == items[0];
    assert items[..e][1..] == tail[..e - 1];
    assert Records(items[..e]) == Records(tail[..e - 1]);
  }

  lemma SkipFinished<T, E>(items: seq<Item<T, E>>, channels: seq<Channel<T>>)
    requires items != [] && items[0] == Ok(None)
    ensures Finished(items, channels) == Finished(items[1..], channels).(consumed := Finished(items[1..], channels).consumed + 1)
  {
    assert Records(items) == Records(items[1..]);
  }

  /** `Expected` in terms of its three outcomes. */
  lemma ExpectedCases<T, E>(items: seq<Item<T, E>>, channels: seq<Channel<T>>)
    ensures FirstStall(items, channels) < FirstError(items) ==> Expected(items, channels) == Refused(items, channels)
    ensures FirstStall(items, channels) >= FirstError(items) && FirstError(items) < |items| ==>
      Expected(items, channels) == Failed(items, channels)
    ensures FirstStall(items, channels) >= FirstError(items) && FirstError(items) == |items| ==>
      Expected(items, channels) == Finished(items, channels)
  {
  }

  /** A run first skips what decodes to nothing. */
  lemma DispatchedSkip<T, E>(items: seq<Item<T, E>>, channels: seq<Channel<T>>)
    requires items != [] && items[0] == Ok(None)
    requires Dispatched(items[1..], channels) == Expected(items[1..], channels)
    ensures Dispatched(items, channels) == Expected(items, channels)
  {
    var tail := items[1..];
    assert FirstError(items) == FirstError(tail) + 1;
    assert FirstStall(items, channels) == FirstStall(tail, channels) + 1;
    ExpectedCases(items, channels);
    ExpectedCases(tail, channels);
    if FirstStall(tail, channels) < FirstError(tail) {
      SkipRefused(items, channels);
    } else if FirstError(tail) < |tail| {
      SkipFailed(items, channels);
    } else {
      SkipFinished(items, channels);
    }
  }

  /** A run that meets a capture error first stops there, delivering nothing. */
  lemma DispatchedError<T, E>(items: seq<Item<T, E>>, channels: seq<Channel<T>>)
    requires items != [] && items[0].Err?
    ensures Dispatched(items, channels) == Expected(items, channels)
  {
    assert FirstError(items) == 0;
    assert items[..0] == [];
    DeliveredAllNone(channels);
  }

  /** `Refused` given the refused position and the sinks it meets. */
  lemma RefusedAt<T, E>(items: seq<Item<T, E>>, channels: seq<Channel<T>>, s: nat, before: seq<Channel<T>>)
    requires FirstStall(items, channels) == s < |items|
    requires before == DeliveredAll(channels, Records(items[..s]))
    ensures Refused(items, channels)
      == Outcome(Err(SendFailed(FirstRefusing(before))), Delivered(before, items[s].value.value, FirstRefusing(before)), s + 1)
  {
  }

  /** Once a record reached every sink, the rest of the run sees the sinks
      with that record appended. */
  lemma DeliveredRefused<T, E>(items: seq<Item<T, E>>, channels: seq<Channel<T>>)
    requires items != [] && items[0].Ok? && items[0].value.Some?
    requires FirstRefusing(channels) == |channels|
    requires FirstStall(items[1..], DeliveredAll(channels, [items[0].value.value])) < |items[1..]|
    ensures FirstStall(items, channels) < |items|
    ensures
      var d := DeliveredAll(channels, [items[0].value.value]);
      Refused(items, channels) == Refused(items[1..], d).(consumed := Refused(items[1..], d).consumed + 1)
  {
    var x, tail := items[0].value.value, items[1..];
    var d := DeliveredAll(channels, [x]);
    var s := FirstStall(tail, d);
    assert FirstStall(items, channels) == s + 1;
    var before := DeliveredAll(d, Records(tail[..s]));
    DeliveredBefore(items, channels, s);
    RefusedAt(tail, d, s, before);
    RefusedAt(items, channels, s + 1, before);
  }

  /** The sinks met by the item at `i + 1`, read from the rest of the stream. */
  lemma DeliveredBefore<T, E>(items: seq<Item<T, E>>, channels: seq<Channel<T>>, i: nat)
    requires i < |items| - 1 && items[0].Ok? && items[0].value.Some?
    ensures items[i + 1] == items[1..][i]
    ensures DeliveredAll(channels, Records(items[..i + 1]))
      == DeliveredAll(DeliveredAll(channels, [items[0].value.value]), Records(items[1..][..i]))
  {
    RecordsPrefix(items, i);
    DeliveredAllConcat(channels, [items[0].value.value], Records(items[1..][..i]));
  }

  lemma DeliveredFailed<T, E>(items: seq<Item<T, E>>, channels: seq<Channel<T>>)
    requires items != [] && items[0].Ok? && items[0].value.Some?
    requires FirstError(items[1..]) < |items[1..]|
    ensures FirstError(items) < |items|
    ensures
      var d := DeliveredAll(channels, [items[0].value.value]);
      Failed(items, channels) == Failed(items[1..], d).(consumed := Failed(items[1..], d).consumed + 1)
  {
    var x := items[0].value.value;
    var tail := items[1..];
    var e := FirstError(items);
    assert e == FirstError(tail) + 1;
    RecordsPrefix(items, e - 1);
    DeliveredAllConcat(channels, [x], Records(tail[..e - 1]));
  }

  lemma DeliveredFinished<T, E>(items: seq<Item<T, E>>, channels: seq<Channel<T>>)
    requires items != [] && items[0].Ok? && items[0].value.Some?
    ensures
      var d := DeliveredAll(channels, [items[0].value.value]);
      Finished(items, channels) == Finished(items[1..], d).(consumed := Finished(items[1..], d).consumed + 1)
  {
    var x := items[0].value.value;
    assert Records(items) == [x] + Records(items[1..]);
    DeliveredAllConcat(channels, [x], Records(items[1..]));
    DeliveredAllKeepsClosable(channels, [x]);
  }

  /** A run that meets a record first either stops at the first sink that
      refuses it, or hands it to every sink and carries on. */
  lemma DispatchedRecord<T, E>(items: seq<Item<T, E>>, channels: seq<Channel<T>>)
    requires items != [] && items[0].Ok? && items[0].value.Some?
    requires
      var d := DeliveredAll(channels, [items[0].value.value]);
      Dispatched(items[1..], d) == Expected(items[1..], d)
    ensures Dispatched(items, channels) == Expected(items, channels)
  {
    var x := items[0].value.value;
    var tail := items[1..];
    assert FirstError(items) == FirstError(tail) + 1;
    ExpectedCases(items, channels);
    if FirstRefusing(channels) < |channels| {
      assert items[..0] == [];
      DeliveredAllNone(channels);
      assert FirstStall(items, channels) == 0;
    } else {
      var d := DeliveredAll(channels, [x]);
      assert FirstStall(items, channels) == FirstStall(tail, d) + 1;
      assert Dispatched(items, channels) == Dispatched(tail, d).(consumed := Dispatched(tail, d).consumed + 1);
      ExpectedCases(tail, d);
      if FirstStall(tail, d) < FirstError(tail) {
        DeliveredRefused(items, channels);
      } else if FirstError(tail) < |tail| {
        DeliveredFailed(items, channels);
      } else {
        DeliveredFinished(items, channels);
      }
    }
  }

  /** The run ends at the first capture error or at the first record some
      sink refuses, whichever comes first, or else at the end of the stream,
      where the sinks are closed in order up to the first failure. Every
      record before the end reaches every sink, and a refused record reaches
      the sinks before the refusing one. */
  lemma {:induction false} DispatchedMeaning<T, E>(items: seq<Item<T, E>>, channels: seq<Channel<T>>)
    ensures Dispatched(items, channels) == Expected(items, channels)
    decreases |items|
  {
    if items == [] {
      assert items[..0] == items;
      DeliveredAllNone(channels);
    } else {
      match items[0]
      case Err(_) => DispatchedError(items, channels);
      case Ok(None) =>
        DispatchedMeaning(items[1..], channels);
        DispatchedSkip(items, channels);
      case Ok(Some(x)) =>
        DispatchedMeaning(items[1..], DeliveredAll(channels, [x]));
        DispatchedRecord(items, channels);
    }
  }

  /** A receiver can go away in the middle of a run: the only sink takes the
      first record and refuses the second, so the run fails after two items
      with just the first record delivered. */
  lemma RefusalMidStream()
    ensures
      var items: seq<Item<int, bool>> := [Ok(Some(1)), Ok(Some(2))];
      Dispatched(items, [Channel([], 1, false, true)]) == Outcome(Err(SendFailed(0)), [Channel([1], 1, false, true)], 2)
  {
    var items: seq<Item<int, bool>> := [Ok(Some(1)), Ok(Some(2))];
    var c := [Channel([], 1, false, true)];
    var d := DeliveredAll(c, [1]);
    assert c[0].received + [1] == [1];
    assert d == [Channel([1], 1, false, true)];
    assert FirstRefusing(c) == 1;
    assert FirstRefusing(d) == 0;
    assert items[1..] == [Ok(Some(2))];
    assert d[0].received + [] == d[0].received;
    assert Delivered(d, 2, 0) == d;
  }
}
