/**
  The LSM6DS3 reader task: each poll reads the FIFO status, reads the queued
  words into a 256-byte buffer, cuts `buf[..end]` into nine-word samples
  (gyroscope x, y, z, accelerometer x, y, z, three temperature words), sends
  each sample tagged `Ok` or `Lagged`, and copies `leftover_len` bytes,
  starting at `raw_samples_bytes`, to the front of the buffer.

  `Mode` selects between the code as written and its evident intent at the
  two places where they differ.  `AsWritten`: the transfer fills the buffer
  from index 0 and is `end` bytes long, so it overwrites the leftover bytes
  (lsm6ds3.rs:146); and `raw_samples_bytes` is the length of the samples
  flattened by one array level, which counts their words, so the tail is
  copied from word offset `9 * n` rather than from the end of the `n` whole
  samples (lsm6ds3.rs:187, 219).  `Corrected`: the transfer is `len` bytes
  long and lands at `start`, behind the leftover, and the tail is copied from
  byte `18 * n`.  Raw words stay bit patterns; the scaling to `f32` is not
  modelled.
 */
module Lsm6ds3Fifo {
  import opened Wrappers
  import opened Bytes
  import opened ScriptedBus
  import opened Lsm6ds3

  const BufferSize: nat := 256
  const BytesPerWord: nat := 2
  /** Words per sample: three entries (gyroscope, accelerometer, temperature) of three words. */
  const Patterns: nat := 9
  const BytesPerSample: nat := 18

  datatype Sample = Sample(gy: seq<bv16>, xl: seq<bv16>, temp: seq<bv16>)

  datatype SampleEvent = Ok(sample: Sample) | Lagged(sample: Sample)

  /** The reader task's state between polls: the buffer and how many bytes at its front are left over. */
  datatype Reader = Reader(buf: seq<byte>, leftoverLen: nat) {
    predicate Valid() {
      |buf| == BufferSize && leftoverLen < BytesPerSample && leftoverLen % BytesPerWord == 0
    }

    /** The bytes carried over into the next poll. */
    function Leftover(): seq<byte>
      requires Valid()
    {
      buf[..leftoverLen]
    }
  }

  function InitialReader(): (r: Reader)
    ensures r.Valid() && r.leftoverLen == 0
  {
    Reader(seq(BufferSize, _ => 0), 0)
  }

  datatype Mode = AsWritten | Corrected

  /** How a poll ends without sending anything: the status says there is nothing to read, or a transfer failed. */
  datatype Poll = Continue(events: seq<SampleEvent>, next: Reader) | Exit(kept: Reader)

  /** `assert!(pattern < PATTERNS)` failing. */
  datatype Deviation = ConfigurationDeviation

  // ---------------------------------------------------------------------
  // Sample layout
  // ---------------------------------------------------------------------

  /** One FIFO sample from its eighteen bytes, in the order gyroscope, accelerometer, temperature. */
  function DecodeSample(bs: seq<byte>): (s: Sample)
    requires |bs| == BytesPerSample
    ensures |s.gy| == 3 && |s.xl| == 3 && |s.temp| == 3
  {
    var w := Le16Words(bs);
    Sample(w[0..3], w[3..6], w[6..9])
  }

  predicate WellFormed(s: Sample) {
    |s.gy| == 3 && |s.xl| == 3 && |s.temp| == 3
  }

  /** The eighteen bytes the FIFO holds for a sample. */
  function EncodeSample(s: Sample): (bs: seq<byte>)
    requires WellFormed(s)
    ensures |bs| == BytesPerSample
  {
    Le16Bytes(s.gy + s.xl + s.temp)
  }

  lemma SampleRoundTrip(s: Sample)
    requires WellFormed(s)
    ensures DecodeSample(EncodeSample(s)) == s
  {
    var w := s.gy + s.xl + s.temp;
    Le16WordsRoundTrip(w);
    assert w[0..3] == s.gy && w[3..6] == s.xl && w[6..9] == s.temp;
  }

  lemma SampleBytesRoundTrip(bs: seq<byte>)
    requires |bs| == BytesPerSample
    ensures EncodeSample(DecodeSample(bs)) == bs
  {
    var w := Le16Words(bs);
    assert w[0..3] + w[3..6] + w[6..9] == w;
    Le16BytesRoundTrip(bs);
  }

  /** The samples of the whole eighteen-byte chunks of `bs`, in order. */
  function Samples(bs: seq<byte>): (ss: seq<Sample>)
    ensures |ss| == |bs| / BytesPerSample
    ensures forall i :: 0 <= i < |ss| ==>
      ss[i] == DecodeSample(bs[BytesPerSample * i..BytesPerSample * i + BytesPerSample])
  {
    seq(|bs| / BytesPerSample, i requires 0 <= i < |bs| / BytesPerSample =>
      DecodeSample(bs[BytesPerSample * i..BytesPerSample * i + BytesPerSample]))
  }

  // ---------------------------------------------------------------------
  // One poll
  // ---------------------------------------------------------------------

  /** `len`: the room behind `start` or the unread bytes, whichever is smaller. */
  function ReadLength(pattern: nat, unreadWords: nat): (len: nat)
    requires pattern < Patterns
    ensures len <= BufferSize - 2 * pattern && len <= 2 * unreadWords
    ensures len == BufferSize - 2 * pattern || len == 2 * unreadWords
  {
    var room := BufferSize - 2 * pattern;
    if room < 2 * unreadWords then room else 2 * unreadWords
  }

  /** The poll's `lag`: a skip count when the FIFO overran or the leftover does not match the pattern. */
  function Lag(overRun: bool, leftoverLen: nat, pattern: nat): (lag: Option<nat>)
    requires pattern < Patterns
    ensures lag.Some? <==> overRun || leftoverLen / 2 != pattern
    ensures lag.Some? ==> 0 < lag.value <= Patterns && lag.value + pattern == Patterns
  {
    if overRun || leftoverLen / 2 != pattern then Some(Patterns - pattern) else None
  }

  function Tagged(lag: Option<nat>, s: Sample): SampleEvent {
    if lag.Some? then Lagged(s) else Ok(s)
  }

  /** `end`: where the valid bytes of the buffer stop after the transfer. */
  function End(st: FifoStatus): nat
    requires st.pattern < Patterns
  {
    2 * st.pattern + ReadLength(st.pattern, st.unreadWords)
  }

  /** The length of the transfer: all of `..end` as written, only `start..end` when it lands behind the leftover. */
  function ReadCount(st: FifoStatus, mode: Mode): nat
    requires st.pattern < Patterns
  {
    match mode
    case AsWritten => End(st)
    case Corrected => ReadLength(st.pattern, st.unreadWords)
  }

  /** The buffer after the transfer. */
  function Filled(buf: seq<byte>, st: FifoStatus, bytes: seq<byte>, mode: Mode): (b: seq<byte>)
    requires |buf| == BufferSize && st.pattern < Patterns && |bytes| == ReadCount(st, mode)
    ensures |b| == BufferSize
  {
    match mode
    case AsWritten => bytes + buf[End(st)..]
    case Corrected => buf[..2 * st.pattern] + bytes + buf[End(st)..]
  }

  /**
    `raw_samples_bytes` for `n` whole samples: as written it is the length of
    the samples flattened by one array level, a count of two-byte words; the
    intended value is their length in bytes.
   */
  function CopyFrom(n: nat, mode: Mode): (from: nat)
    ensures from <= BytesPerSample * n
    ensures mode.Corrected? ==> from == BytesPerSample * n
    ensures mode.AsWritten? ==> 2 * from == BytesPerSample * n
  {
    match mode
    case AsWritten => Patterns * n
    case Corrected => BytesPerSample * n
  }

  /**
    Everything a poll does once the transfer succeeded: cut `buf[..end]` into
    samples, tag each one with the poll's lag, and copy the `end % 18` bytes
    starting at `raw_samples_bytes` to the front of the buffer.
   */
  function Advance(r: Reader, st: FifoStatus, bytes: seq<byte>, mode: Mode): (p: Poll)
    requires r.Valid() && st.pattern < Patterns && |bytes| == ReadCount(st, mode)
    ensures p.Continue?
    ensures |p.next.buf| == BufferSize && p.next.leftoverLen == End(st) % BytesPerSample
    ensures |p.events| == End(st) / BytesPerSample
    ensures forall i :: 0 <= i < |p.events| ==>
      p.events[i].sample == Samples(Filled(r.buf, st, bytes, mode)[..End(st)])[i]
    ensures var from := CopyFrom(|p.events|, mode);
      p.next.buf[..p.next.leftoverLen] == Filled(r.buf, st, bytes, mode)[from..from + p.next.leftoverLen]
  {
    var buf := Filled(r.buf, st, bytes, mode);
    var end := End(st);
    var lag := Lag(st.overRun, r.leftoverLen, st.pattern);
    var samples := Samples(buf[..end]);
    var from := CopyFrom(|samples|, mode);
    var tail := end - BytesPerSample * |samples|;
    Continue(seq(|samples|, i requires 0 <= i < |samples| => Tagged(lag, samples[i])),
             Reader(buf[from..from + tail] + buf[tail..], tail))
  }

  /**
    One iteration of the `while let` loop: read the status; stop when it cannot
    be read or nothing is unread; panic on a pattern outside the sample; read
    the FIFO and stop on a failed transfer; otherwise advance.
   */
  function PollStep(r: Reader, bus: Bus, mode: Mode): (p: Run<Poll, Deviation>)
    requires r.Valid()
    ensures p.Done? || p.Failed? ==> Follows(bus, p.bus) && |p.bus.replies| < |bus.replies|
    ensures p.Done? && p.value.Exit? ==> p.value.kept == r
    ensures p.Failed? <==>
      (|bus.replies| > 0 && bus.replies[0].Success? && |bus.replies[0].value| == 5
      && DecodeFifoStatus(bus.replies[0].value).unreadWords > 0
      && DecodeFifoStatus(bus.replies[0].value).pattern >= Patterns)
    ensures p.Done? && p.value.Continue? ==>
      (|bus.replies| >= 3 && bus.replies[0].Success? && |bus.replies[0].value| == 5
      && var st := DecodeFifoStatus(bus.replies[0].value);
      st.unreadWords > 0 && st.pattern < Patterns
      && bus.replies[2].Success? && |bus.replies[2].value| == ReadCount(st, mode)
      && p.value == Advance(r, st, bus.replies[2].value, mode))
  {
    match ReadFifoStatus(bus)
    case OffScript => OffScript
    case Failed(_, b) => Done(Exit(r), b)
    case Done(st, b) =>
      if st.unreadWords == 0 then Done(Exit(r), b)
      else if st.pattern >= Patterns then Failed(ConfigurationDeviation, b)
      else
        match ReadFifo(b, ReadCount(st, mode))
        case OffScript => OffScript
        case Failed(_, b2) => FollowsTransitive(bus, b, b2); Done(Exit(r), b2)
        case Done(bytes, b2) =>
          assert b.replies[1] == bus.replies[2];
          FollowsTransitive(bus, b, b2);
          Done(Advance(r, st, bytes, mode), b2)
  }

  /** The `while let` loop: polls until one exits, the script ends, or the pattern check panics. */
  function Drain(r: Reader, bus: Bus, mode: Mode): (d: Run<(seq<SampleEvent>, Reader), Deviation>)
    requires r.Valid()
    ensures d.Done? ==> d.value.1.Valid()
    ensures d.Done? || d.Failed? ==> Follows(bus, d.bus)
    ensures PollStep(r, bus, mode).Failed? ==> d.Failed?
    ensures PollStep(r, bus, mode).Done? && PollStep(r, bus, mode).value.Exit? ==>
      d == Done(([], r), PollStep(r, bus, mode).bus)
    ensures d.Done? ==>
      (PollStep(r, bus, mode).Done?
       && (PollStep(r, bus, mode).value.Continue? ==> PollStep(r, bus, mode).value.events <= d.value.0))
    decreases |bus.replies|
  {
    match PollStep(r, bus, mode)
    case OffScript => OffScript
    case Failed(e, b) => Failed(e, b)
    case Done(Exit(_), b) => Done(([], r), b)
    case Done(Continue(events, next), b) =>
      AdvanceKeepsValid(r, DecodeFifoStatus(bus.replies[0].value), bus.replies[2].value, mode);
      match Drain(next, b, mode)
      case OffScript => OffScript
      case Failed(e, b2) => FollowsTransitive(bus, b, b2); Failed(e, b2)
      case Done((more, last), b2) => FollowsTransitive(bus, b, b2); Done((events + more, last), b2)
  }

  // ---------------------------------------------------------------------
  // The loop as a replay of its transfers
  // ---------------------------------------------------------------------

  /** What one poll that sends something took in: the status it read and the bytes of its transfer. */
  datatype Fetch = Fetch(status: FifoStatus, bytes: seq<byte>)

  predicate Fits(fs: seq<Fetch>, mode: Mode) {
    forall k :: 0 <= k < |fs| ==> fs[k].status.pattern < Patterns && |fs[k].bytes| == ReadCount(fs[k].status, mode)
  }

  /** The status and the bytes read of every poll of the loop that sends something, in order. */
  function Transfers(r: Reader, bus: Bus, mode: Mode): (fs: seq<Fetch>)
    requires r.Valid()
    ensures Fits(fs, mode)
    decreases |bus.replies|
  {
    match PollStep(r, bus, mode)
    case Done(Continue(_, next), b) =>
      var f := Fetch(DecodeFifoStatus(bus.replies[0].value), bus.replies[2].value);
      AdvanceKeepsValid(r, f.status, f.bytes, mode);
      [f] + Transfers(next, b, mode)
    case _ => []
  }

  /** The reference for the loop: `Advance` applied to each transfer in turn, without a bus. */
  function Replay(r: Reader, fs: seq<Fetch>, mode: Mode): (out: (seq<SampleEvent>, Reader))
    requires r.Valid() && Fits(fs, mode)
    ensures out.1.Valid()
    decreases |fs|
  {
    if |fs| == 0 then ([], r)
    else
      var p := Advance(r, fs[0].status, fs[0].bytes, mode);
      AdvanceKeepsValid(r, fs[0].status, fs[0].bytes, mode);
      var more := Replay(p.next, fs[1..], mode);
      (p.events + more.0, more.1)
  }

  /** A loop that ends sends exactly what replaying its transfers sends, and keeps the same reader. */
  lemma {:induction false} DrainReplays(r: Reader, bus: Bus, mode: Mode)
    requires r.Valid()
    ensures Drain(r, bus, mode).Done? ==> Drain(r, bus, mode).value == Replay(r, Transfers(r, bus, mode), mode)
    decreases |bus.replies|
  {
    var p := PollStep(r, bus, mode);
    if p.Done? && p.value.Continue? {
      var f := Fetch(DecodeFifoStatus(bus.replies[0].value), bus.replies[2].value);
      AdvanceKeepsValid(r, f.status, f.bytes, mode);
      DrainReplays(p.value.next, p.bus, mode);
      var fs := Transfers(r, bus, mode);
      assert fs == [f] + Transfers(p.value.next, p.bus, mode);
      assert fs[1..] == Transfers(p.value.next, p.bus, mode);
    }
  }

  /** The bytes of a run of transfers, back to back. */
  function Concat(fs: seq<Fetch>): (bs: seq<byte>)
    decreases |fs|
  {
    if |fs| == 0 then [] else fs[0].bytes + Concat(fs[1..])
  }

  /** Every poll of the run finds the reader in step with the FIFO: `leftover_len / 2 == pattern`. */
  predicate InStep(r: Reader, fs: seq<Fetch>)
    requires r.Valid() && Fits(fs, Corrected)
    decreases |fs|
  {
    |fs| == 0
    || (r.leftoverLen / 2 == fs[0].status.pattern
        && (AdvanceKeepsValid(r, fs[0].status, fs[0].bytes, Corrected);
            InStep(Advance(r, fs[0].status, fs[0].bytes, Corrected).next, fs[1..])))
  }

  /**
    Over polls that all stay in step, with the transfer behind the leftover,
    the loop loses and repeats nothing: it sends the whole samples of the
    first leftover followed by every byte read, in order, and keeps what
    remains of them.
   */
  lemma {:induction false} ReplayConservesStream(r: Reader, fs: seq<Fetch>)
    requires r.Valid() && Fits(fs, Corrected) && InStep(r, fs)
    ensures var out := Replay(r, fs, Corrected);
      var stream := r.Leftover() + Concat(fs);
      |out.0| == |stream| / BytesPerSample
      && (forall i :: 0 <= i < |out.0| ==> out.0[i].sample == Samples(stream)[i])
      && out.1.Leftover() == stream[BytesPerSample * |out.0|..]
    decreases |fs|
  {
    if |fs| == 0 {
      assert r.Leftover() + Concat(fs) == r.Leftover();
    } else {
      var st, bytes := fs[0].status, fs[0].bytes;
      var p := Advance(r, st, bytes, Corrected);
      AdvanceKeepsValid(r, st, bytes, Corrected);
      InSyncConservesStream(r, st, bytes);
      ReplayConservesStream(p.next, fs[1..]);
      var more := Replay(p.next, fs[1..], Corrected);
      ConserveStep(r.Leftover() + bytes, Concat(fs[1..]), p.events, more.0, p.next.Leftover(), more.1.Leftover());
      ConcatAssociates(r.Leftover(), bytes, Concat(fs[1..]));
    }
  }

  lemma ConcatAssociates(a: seq<byte>, b: seq<byte>, c: seq<byte>)
    ensures a + (b + c) == (a + b) + c
  {
  }

  /**
    One poll followed by the rest of the run: the samples of `head` and then
    those of what it left, followed by `tail`, are the samples of
    `head + tail`.
   */
  lemma ConserveStep(head: seq<byte>, tail: seq<byte>, first: seq<SampleEvent>, more: seq<SampleEvent>,
                     left: seq<byte>, last: seq<byte>)
    requires |first| == |head| / BytesPerSample
    requires forall i :: 0 <= i < |first| ==> first[i].sample == Samples(head)[i]
    requires left == head[BytesPerSample * |first|..]
    requires |more| == |left + tail| / BytesPerSample
    requires forall i :: 0 <= i < |more| ==> more[i].sample == Samples(left + tail)[i]
    requires last == (left + tail)[BytesPerSample * |more|..]
    ensures var stream := head + tail;
      |first + more| == |stream| / BytesPerSample
      && (forall i :: 0 <= i < |first + more| ==> (first + more)[i].sample == Samples(stream)[i])
      && last == stream[BytesPerSample * |first + more|..]
  {
    var n := |first|;
    var stream := head + tail;
    var rest := left + tail;
    StreamSplit(head, tail, n);
    forall i | 0 <= i < |first + more|
      ensures (first + more)[i].sample == Samples(stream)[i]
    {
      if i < n {
        assert (first + more)[i] == first[i];
        HeadChunk(head, tail, i);
      } else {
        assert (first + more)[i] == more[i - n];
        RestChunk(head, tail, n, i - n);
      }
    }
  }

  /** Cutting a stream after `n` whole samples of its head. */
  lemma StreamSplit(head: seq<byte>, tail: seq<byte>, n: nat)
    requires n == |head| / BytesPerSample
    ensures BytesPerSample * n <= |head|
    ensures (head + tail)[BytesPerSample * n..] == head[BytesPerSample * n..] + tail
    ensures |head + tail| / BytesPerSample == n + |head[BytesPerSample * n..] + tail| / BytesPerSample
  {
  }

  /** A sample inside the head is cut from the head alone. */
  lemma HeadChunk(head: seq<byte>, tail: seq<byte>, i: nat)
    requires i < |head| / BytesPerSample
    ensures BytesPerSample * i + BytesPerSample <= |head|
    ensures Samples(head + tail)[i] == Samples(head)[i]
  {
    assert (head + tail)[BytesPerSample * i..BytesPerSample * i + BytesPerSample]
        == head[BytesPerSample * i..BytesPerSample * i + BytesPerSample];
  }

  /** A sample past the `n` whole samples of the head is cut from what the head left, followed by the tail. */
  lemma RestChunk(head: seq<byte>, tail: seq<byte>, n: nat, k: nat)
    requires n == |head| / BytesPerSample
    requires k < |head[BytesPerSample * n..] + tail| / BytesPerSample
    ensures n + k < |head + tail| / BytesPerSample
    ensures Samples(head + tail)[n + k] == Samples(head[BytesPerSample * n..] + tail)[k]
  {
    StreamSplit(head, tail, n);
    var rest := head[BytesPerSample * n..] + tail;
    var i := n + k;
    assert (head + tail)[BytesPerSample * i..BytesPerSample * i + BytesPerSample]
        == rest[BytesPerSample * k..BytesPerSample * k + BytesPerSample];
  }

  /** Over polls that all stay in step and see no overrun, every sample the loop sends is tagged `Ok`. */
  lemma {:induction false} ReplayInStepOk(r: Reader, fs: seq<Fetch>)
    requires r.Valid() && Fits(fs, Corrected) && InStep(r, fs)
    requires forall k :: 0 <= k < |fs| ==> !fs[k].status.overRun
    ensures forall i :: 0 <= i < |Replay(r, fs, Corrected).0| ==> Replay(r, fs, Corrected).0[i].Ok?
    decreases |fs|
  {
    if |fs| > 0 {
      var p := Advance(r, fs[0].status, fs[0].bytes, Corrected);
      AdvanceKeepsValid(r, fs[0].status, fs[0].bytes, Corrected);
      AdvanceTags(r, fs[0].status, fs[0].bytes, Corrected);
      ReplayInStepOk(p.next, fs[1..]);
    }
  }

  /**
    The loop with the transfer behind the leftover, over a bus whose every
    sending poll finds the reader in step: the samples sent are those of the
    first leftover followed by all the bytes read, and the reader keeps what
    remains of them.
   */
  lemma DrainConservesStream(r: Reader, bus: Bus)
    requires r.Valid() && InStep(r, Transfers(r, bus, Corrected))
    ensures var d := Drain(r, bus, Corrected);
      var stream := r.Leftover() + Concat(Transfers(r, bus, Corrected));
      d.Done? ==>
        |d.value.0| == |stream| / BytesPerSample
        && (forall i :: 0 <= i < |d.value.0| ==> d.value.0[i].sample == Samples(stream)[i])
        && d.value.1.Leftover() == stream[BytesPerSample * |d.value.0|..]
  {
    DrainReplays(r, bus, Corrected);
    ReplayConservesStream(r, Transfers(r, bus, Corrected));
  }

  // ---------------------------------------------------------------------
  // Properties of a poll
  // ---------------------------------------------------------------------

  /** The transfer always ends on a word boundary inside the buffer, so the word chunking leaves nothing over. */
  lemma EndIsWordAligned(st: FifoStatus)
    requires st.pattern < Patterns
    ensures End(st) <= BufferSize && End(st) % BytesPerWord == 0 && End(st) >= 2 * st.pattern
    ensures End(st) - 2 * st.pattern <= 2 * st.unreadWords
  {
  }

  /** A poll sends one sample per whole eighteen bytes up to `end` and keeps the rest, which is whole words. */
  lemma AdvanceKeepsValid(r: Reader, st: FifoStatus, bytes: seq<byte>, mode: Mode)
    requires r.Valid() && st.pattern < Patterns && |bytes| == ReadCount(st, mode)
    ensures var p := Advance(r, st, bytes, mode);
      p.next.Valid() && |p.events| == End(st) / BytesPerSample && p.next.leftoverLen == End(st) % BytesPerSample
  {
    EndIsWordAligned(st);
  }

  /** Every sample of a poll carries the same tag, and it is `Lagged` exactly when the FIFO overran or the leftover is out of step. */
  lemma AdvanceTags(r: Reader, st: FifoStatus, bytes: seq<byte>, mode: Mode)
    requires r.Valid() && st.pattern < Patterns && |bytes| == ReadCount(st, mode)
    ensures var p := Advance(r, st, bytes, mode);
      forall i :: 0 <= i < |p.events| ==>
        (p.events[i].Lagged? <==> st.overRun || r.leftoverLen / 2 != st.pattern)
  {
  }

  /**
    With the transfer landing behind the leftover and the reader in step with
    the FIFO (`leftover_len / 2 == pattern`), a poll loses and repeats nothing:
    the samples sent are the whole samples of the leftover followed by the
    bytes read, and the new leftover is what remains of them.
   */
  lemma InSyncConservesStream(r: Reader, st: FifoStatus, bytes: seq<byte>)
    requires r.Valid() && st.pattern < Patterns && |bytes| == ReadCount(st, Corrected)
    requires r.leftoverLen == 2 * st.pattern
    ensures var p := Advance(r, st, bytes, Corrected);
      var stream := r.Leftover() + bytes;
      |p.events| == |stream| / BytesPerSample
      && (forall i :: 0 <= i < |p.events| ==> p.events[i].sample == Samples(stream)[i])
      && p.next.Leftover() == stream[BytesPerSample * |p.events|..]
  {
    var buf := Filled(r.buf, st, bytes, Corrected);
    var end := End(st);
    var stream := r.Leftover() + bytes;
    assert buf[..end] == stream;
    AdvanceKeepsValid(r, st, bytes, Corrected);
  }

  /**
    In step and without an overrun, a poll tags nothing `Lagged`, and it stays
    in step: the FIFO's pattern after the poll (the words read so far, modulo
    the sample length) is again half the leftover.
   */
  lemma InSyncStaysInSync(r: Reader, st: FifoStatus, bytes: seq<byte>)
    requires r.Valid() && st.pattern < Patterns && |bytes| == ReadCount(st, Corrected)
    requires r.leftoverLen == 2 * st.pattern && !st.overRun
    ensures var p := Advance(r, st, bytes, Corrected);
      (forall i :: 0 <= i < |p.events| ==> p.events[i].Ok?)
      && p.next.leftoverLen / 2 == (st.pattern + |bytes| / 2) % Patterns
  {
    AdvanceKeepsValid(r, st, bytes, Corrected);
  }

  /**
    As written, the transfer fills the buffer from its first byte, so the
    samples sent are cut from the bytes read alone: the leftover of the
    previous poll never reaches a sample.
   */
  lemma IntoFrontDropsLeftover(r: Reader, st: FifoStatus, bytes: seq<byte>)
    requires r.Valid() && st.pattern < Patterns && |bytes| == ReadCount(st, AsWritten)
    ensures var p := Advance(r, st, bytes, AsWritten);
      |p.events| == |bytes| / BytesPerSample
      && forall i :: 0 <= i < |p.events| ==> p.events[i].sample == Samples(bytes)[i]
  {
    var buf := Filled(r.buf, st, bytes, AsWritten);
    assert buf[..End(st)] == bytes;
  }

  /** As written, the first sample of a poll starts with the first two bytes read. */
  lemma IntoFrontFirstWord(r: Reader, st: FifoStatus, bytes: seq<byte>)
    requires r.Valid() && st.pattern < Patterns && |bytes| == ReadCount(st, AsWritten) && |bytes| >= BytesPerSample
    ensures var p := Advance(r, st, bytes, AsWritten);
      |p.events| >= 1 && p.events[0].sample.gy[0] == FromLe16(bytes[0], bytes[1])
  {
    IntoFrontDropsLeftover(r, st, bytes);
    assert Samples(bytes)[0] == DecodeSample(bytes[0..18]);
    Le16WordsAt(bytes[0..18], 0);
  }

  /** Behind the leftover and in step, the first sample of a poll starts with the first leftover word. */
  lemma AfterLeftoverFirstWord(r: Reader, st: FifoStatus, bytes: seq<byte>)
    requires r.Valid() && st.pattern < Patterns && |bytes| == ReadCount(st, Corrected)
    requires r.leftoverLen == 2 * st.pattern && r.leftoverLen >= 2 && r.leftoverLen + |bytes| >= BytesPerSample
    ensures var p := Advance(r, st, bytes, Corrected);
      |p.events| >= 1 && p.events[0].sample.gy[0] == FromLe16(r.buf[0], r.buf[1])
  {
    InSyncConservesStream(r, st, bytes);
    var stream := r.Leftover() + bytes;
    assert Samples(stream)[0] == DecodeSample(stream[0..18]);
    Le16WordsAt(stream[0..18], 0);
    assert stream[0] == r.buf[0] && stream[1] == r.buf[1];
  }

  /**
    Corrected, a poll carries exactly the bytes of `buf[..end]` behind its
    whole samples to the front of the buffer, whether or not it is in step.
   */
  lemma CorrectedCarriesRemainder(r: Reader, st: FifoStatus, bytes: seq<byte>)
    requires r.Valid() && st.pattern < Patterns && |bytes| == ReadCount(st, Corrected)
    ensures var p := Advance(r, st, bytes, Corrected);
      p.next.Valid()
      && p.next.Leftover() == Filled(r.buf, st, bytes, Corrected)[..End(st)][BytesPerSample * |p.events|..]
  {
    AdvanceKeepsValid(r, st, bytes, Corrected);
  }

  /** Little-endian words `from`, `from + 1`, ... as the FIFO would deliver counting samples. */
  function CountingWords(from: nat, n: nat): (bs: seq<byte>)
    requires from + n <= 256
    ensures |bs| == 2 * n
  {
    seq(2 * n, i requires 0 <= i < 2 * n => if i % 2 == 0 then ((from + i / 2) % 256) as byte else 0)
  }

  /** A reader in step with the FIFO: word 0 of a sample left over. */
  function ExampleReader(): (r: Reader)
    ensures r.Valid() && r.leftoverLen == 2 && r.buf[0] == 0 && r.buf[1] == 0
  {
    Reader(CountingWords(0, 1) + seq(254, _ => 0), 2)
  }

  /** Pattern 1 (the next FIFO word is word 1 of the sample), seventeen words unread, no overrun. */
  const ExampleStatus: FifoStatus := FifoStatus(17, false, false, false, false, 1)

  /**
    As written, the in-step poll of `ExampleReader` reads 36 bytes starting at
    FIFO word 1 and sends two samples tagged `Ok` whose first gyroscope word
    is the FIFO's word 1: each is cut one word off the sample boundary.
   */
  lemma IntoFrontMisalignsSamples()
    ensures ExampleReader().leftoverLen / 2 == ExampleStatus.pattern && !ExampleStatus.overRun
    ensures var p := Advance(ExampleReader(), ExampleStatus, CountingWords(1, 18), AsWritten);
      |p.events| == 2 && p.events[0].Ok? && p.events[0].sample.gy[0] == 1
  {
    var sent := CountingWords(1, 18);
    assert End(ExampleStatus) == 36;
    AdvanceKeepsValid(ExampleReader(), ExampleStatus, sent, AsWritten);
    AdvanceTags(ExampleReader(), ExampleStatus, sent, AsWritten);
    IntoFrontFirstWord(ExampleReader(), ExampleStatus, sent);
    assert sent[0] == 1 && sent[1] == 0;
  }

  /** With the transfer behind the leftover, the same poll reads 34 bytes and its first sample starts with word 0. */
  lemma AfterLeftoverAlignsSamples()
    ensures var p := Advance(ExampleReader(), ExampleStatus, CountingWords(1, 17), Corrected);
      |p.events| == 2 && p.events[0].Ok? && p.events[0].sample.gy[0] == 0
  {
    var read := CountingWords(1, 17);
    assert End(ExampleStatus) == 36;
    AdvanceKeepsValid(ExampleReader(), ExampleStatus, read, Corrected);
    AdvanceTags(ExampleReader(), ExampleStatus, read, Corrected);
    AfterLeftoverFirstWord(ExampleReader(), ExampleStatus, read);
  }

  /** A fresh reader's first poll: pattern 0, eleven words unread, no overrun. */
  const OneSampleStatus: FifoStatus := FifoStatus(11, false, false, false, false, 0)

  /**
    As written, a poll that sends one sample and has two words over copies
    `buf[9..13]` to the front, the middle of the sample it just sent, and not
    the two words behind it, `buf[18..22]`.
   */
  lemma AsWrittenCarriesMidSample()
    ensures var bytes := CountingWords(0, 11);
      var p := Advance(InitialReader(), OneSampleStatus, bytes, AsWritten);
      |p.events| == 1 && p.next.Valid()
      && p.next.Leftover() == bytes[9..13] && p.next.Leftover() != bytes[18..22]
  {
    var bytes := CountingWords(0, 11);
    assert End(OneSampleStatus) == 22;
    AdvanceKeepsValid(InitialReader(), OneSampleStatus, bytes, AsWritten);
    var buf := Filled(InitialReader().buf, OneSampleStatus, bytes, AsWritten);
    assert buf[9..13] == bytes[9..13];
    assert bytes[9] == 0 && bytes[18] == 9;
  }
}
