/**
  An SPI bus and a clock driven by scripts.  Every bus operation the
  drivers perform takes the next scripted reply, which is either the bytes
  clocked in or a bus error, and is appended to a log of what went out on
  the wire.  Every `Instant::now()` takes the next scripted clock reading.

  A script that runs out, or a reply whose length does not match the
  operation, ends the run as `OffScript`: the script does not describe that
  run any further (on the device it is a transfer or a wait still pending).
 */
module ScriptedBus {
  import opened Wrappers
  import opened Bytes
  import opened Clock

  /** The HAL's SPI error; the drivers never look inside it. */
  datatype SpiError = SpiError

  /** One SPI operation as it appears on the wire. */
  datatype Op =
    | Write(out: seq<byte>)                   // `write_async`
    | Read(count: nat)                        // `read_async`: `count` bytes clocked in
    | Transfer(out: seq<byte>, count: nat)    // `transfer_async` / `transfer_in_place_async`

  function Incoming(op: Op): nat {
    match op
    case Write(_) => 0
    case Read(n) => n
    case Transfer(_, n) => n
  }

  datatype Bus = Bus(replies: seq<Result<seq<byte>, SpiError>>, clock: seq<Ticks>, log: seq<Op>)

  /** The outcome of a driver step: a value, a driver error, or the end of the script. */
  datatype Run<+T, +E> = Done(value: T, bus: Bus) | Failed(error: E, bus: Bus) | OffScript {
    predicate IsFailure() {
      !Done?
    }

    function PropagateFailure<U>(): Run<U, E>
      requires IsFailure()
    {
      if Failed? then Failed(error, bus) else OffScript
    }

    function Extract(): (T, Bus)
      requires Done?
    {
      (value, bus)
    }
  }

  /** `map_err`: the same run with its error wrapped. */
  function MapError<T, E, F>(r: Run<T, E>, wrap: E -> F): (s: Run<T, F>)
    ensures r.Done? <==> s.Done?
    ensures r.Done? ==> s.value == r.value && s.bus == r.bus
    ensures r.Failed? <==> s.Failed?
    ensures r.Failed? ==> s.error == wrap(r.error) && s.bus == r.bus
  {
    match r
    case Done(v, b) => Done(v, b)
    case Failed(e, b) => Failed(wrap(e), b)
    case OffScript => OffScript
  }

  /** Performs one operation: logs it and consumes one reply. */
  function Exchange(bus: Bus, op: Op): (r: Run<seq<byte>, SpiError>)
    ensures r.Done? || r.Failed? ==>
      (|bus.replies| > 0 && r.bus == Bus(bus.replies[1..], bus.clock, bus.log + [op]))
    ensures r.Done? <==> |bus.replies| > 0 && bus.replies[0].Success? && |bus.replies[0].value| == Incoming(op)
    ensures r.Done? ==> r.value == bus.replies[0].value
    ensures r.Failed? <==> |bus.replies| > 0 && bus.replies[0].Failure?
  {
    if |bus.replies| == 0 then OffScript
    else
      var next := Bus(bus.replies[1..], bus.clock, bus.log + [op]);
      match bus.replies[0]
      case Failure(e) => Failed(e, next)
      case Success(bytes) => if |bytes| == Incoming(op) then Done(bytes, next) else OffScript
  }

  /** `Instant::now()`: consumes one clock reading and nothing else. */
  function Now<E>(bus: Bus): (r: Run<Ticks, E>)
    ensures r.Done? <==> |bus.clock| > 0
    ensures r.Done? ==> r.value == bus.clock[0] && r.bus == bus.(clock := bus.clock[1..])
    ensures !r.Failed?
  {
    if |bus.clock| == 0 then OffScript else Done(bus.clock[0], bus.(clock := bus.clock[1..]))
  }

  /** `after` is `before` some steps later: replies and readings consumed from the front, operations appended to the log. */
  predicate Follows(before: Bus, after: Bus) {
    |after.replies| <= |before.replies| && after.replies == before.replies[|before.replies| - |after.replies|..]
    && |after.clock| <= |before.clock| && after.clock == before.clock[|before.clock| - |after.clock|..]
    && |before.log| <= |after.log| && before.log == after.log[..|before.log|]
  }

  lemma FollowsTransitive(a: Bus, b: Bus, c: Bus)
    requires Follows(a, b) && Follows(b, c)
    ensures Follows(a, c)
  {
    assert c.replies == a.replies[|a.replies| - |b.replies|..][|b.replies| - |c.replies|..];
    assert c.clock == a.clock[|a.clock| - |b.clock|..][|b.clock| - |c.clock|..];
  }

  /** Two exchanges in a row consume two replies and log both operations. */
  lemma TwoSteps(bus: Bus, mid: Bus, after: Bus, first: Op, second: Op)
    requires |bus.replies| > 0 && mid == Bus(bus.replies[1..], bus.clock, bus.log + [first])
    requires |mid.replies| > 0 && after == Bus(mid.replies[1..], mid.clock, mid.log + [second])
    ensures |bus.replies| >= 2 && after == Bus(bus.replies[2..], bus.clock, bus.log + [first, second])
  {
    assert mid.replies[1..] == bus.replies[2..];
    assert mid.log + [second] == bus.log + [first, second];
  }

  /** The last reply consumed between `before` and `after`. */
  function LastReply(before: Bus, after: Bus): Result<seq<byte>, SpiError>
    requires |after.replies| < |before.replies|
  {
    before.replies[|before.replies| - |after.replies| - 1]
  }

  /** Steps taken before `mid` do not change which reply was consumed last. */
  lemma LastReplyFollows(a: Bus, mid: Bus, c: Bus)
    requires Follows(a, mid) && Follows(mid, c) && |c.replies| < |mid.replies|
    ensures LastReply(a, c) == LastReply(mid, c)
  {
    assert mid.replies[|mid.replies| - |c.replies| - 1] == a.replies[|a.replies| - |mid.replies|..][|mid.replies| - |c.replies| - 1];
  }

  /** The last clock reading consumed between `before` and `after`. */
  function LastReading(before: Bus, after: Bus): Ticks
    requires |after.clock| < |before.clock|
  {
    before.clock[|before.clock| - |after.clock| - 1]
  }

  /** Steps taken before `mid` change neither which reply nor which reading was consumed last. */
  lemma FollowsChain(a: Bus, mid: Bus, c: Bus)
    requires Follows(a, mid) && Follows(mid, c)
    ensures Follows(a, c)
    ensures |c.replies| < |mid.replies| ==> LastReply(a, c) == LastReply(mid, c)
    ensures |c.clock| < |mid.clock| ==> LastReading(a, c) == LastReading(mid, c)
  {
    FollowsTransitive(a, mid, c);
    if |c.replies| < |mid.replies| {
      LastReplyFollows(a, mid, c);
    }
    if |c.clock| < |mid.clock| {
      assert mid.clock[|mid.clock| - |c.clock| - 1] == a.clock[|a.clock| - |mid.clock|..][|mid.clock| - |c.clock| - 1];
    }
  }

  /** Bus steps that did not end the script consumed at least one reply or reading. */
  predicate Consumed(before: Bus, after: Bus) {
    |after.replies| + |after.clock| < |before.replies| + |before.clock|
  }

  /** The register writes in a log: every two-byte `Write` as (register, value). */
  function ByteWrites(log: seq<Op>): seq<(byte, byte)> {
    if |log| == 0 then []
    else
      var here := if log[0].Write? && |log[0].out| == 2 then [(log[0].out[0], log[0].out[1])] else [];
      here + ByteWrites(log[1..])
  }

  lemma {:induction false} ByteWritesAppend(a: seq<Op>, b: seq<Op>)
    ensures ByteWrites(a + b) == ByteWrites(a) + ByteWrites(b)
    decreases |a|
  {
    if |a| == 0 {
      assert a + b == b;
    } else {
      assert (a + b)[1..] == a[1..] + b;
      ByteWritesAppend(a[1..], b);
    }
  }

  /** A logged two-byte write adds one register write. */
  lemma ByteWritesPush(log: seq<Op>, reg: byte, val: byte)
    ensures ByteWrites(log + [Write([reg, val])]) == ByteWrites(log) + [(reg, val)]
  {
    ByteWritesAppend(log, [Write([reg, val])]);
    assert [Write([reg, val])][1..] == [];
  }

  /** Any other logged operation adds none. */
  lemma ByteWritesSkip(log: seq<Op>, op: Op)
    requires !(op.Write? && |op.out| == 2)
    ensures ByteWrites(log + [op]) == ByteWrites(log)
  {
    ByteWritesAppend(log, [op]);
    assert [op][1..] == [];
  }

  /** The 16-bit register writes in a log: every three-byte `Write` as (register, little-endian value). */
  function WordWrites(log: seq<Op>): seq<(byte, bv16)> {
    if |log| == 0 then []
    else
      var here := if log[0].Write? && |log[0].out| == 3 then [(log[0].out[0], FromLe16(log[0].out[1], log[0].out[2]))] else [];
      here + WordWrites(log[1..])
  }

  lemma {:induction false} WordWritesAppend(a: seq<Op>, b: seq<Op>)
    ensures WordWrites(a + b) == WordWrites(a) + WordWrites(b)
    decreases |a|
  {
    if |a| == 0 {
      assert a + b == b;
    } else {
      assert (a + b)[1..] == a[1..] + b;
      WordWritesAppend(a[1..], b);
    }
  }

  /** A logged three-byte write adds one register write. */
  lemma WordWritesPush(log: seq<Op>, reg: byte, val: bv16)
    ensures WordWrites(log + [Write([reg] + ToLe16(val))]) == WordWrites(log) + [(reg, val)]
  {
    WordWritesAppend(log, [Write([reg] + ToLe16(val))]);
    assert [Write([reg] + ToLe16(val))][1..] == [];
    Le16RoundTrip(val);
  }

  /** Any other logged operation adds none. */
  lemma WordWritesSkip(log: seq<Op>, op: Op)
    requires !(op.Write? && |op.out| == 3)
    ensures WordWrites(log + [op]) == WordWrites(log)
  {
    WordWritesAppend(log, [op]);
    assert [op][1..] == [];
  }
}
