/**
  The BMI323 FIFO reader task.  After a FIFO flush, every poll reads the
  status; while it reports unread words, the whole buffer is clocked in and
  every complete seven-word sample among the first `len` bytes is sent on.
  Nothing is carried over from one poll to the next.
 */
module Bmi323Fifo {
  import opened Wrappers
  import opened Bytes
  import opened ScriptedBus
  import opened Bmi323

  /** The read buffer holds 64 samples. */
  const BytesPerSample: nat := 14
  const BufferSize: nat := 14 * 64

  /** Raw sample words; the driver scales them to milli-g and degrees per second. */
  datatype Sample = Sample(gy: seq<bv16>, xl: seq<bv16>, time: bv16)

  predicate WellFormed(s: Sample) {
    |s.gy| == 3 && |s.xl| == 3
  }

  // ---------------------------------------------------------------------
  // Sample layout
  // ---------------------------------------------------------------------

  /** One sample from its fourteen bytes: accelerometer x, y, z, gyroscope x, y, z, time. */
  function DecodeSample(bs: seq<byte>): (s: Sample)
    requires |bs| == BytesPerSample
    ensures WellFormed(s)
  {
    var w := Le16Words(bs);
    Sample(w[3..6], w[0..3], w[6])
  }

  /** The fourteen bytes the FIFO holds for a sample. */
  function EncodeSample(s: Sample): (bs: seq<byte>)
    requires WellFormed(s)
    ensures |bs| == BytesPerSample
  {
    Le16Bytes(s.xl + s.gy + [s.time])
  }

  lemma SampleRoundTrip(s: Sample)
    requires WellFormed(s)
    ensures DecodeSample(EncodeSample(s)) == s
  {
    var w := s.xl + s.gy + [s.time];
    Le16WordsRoundTrip(w);
    assert w[3..6] == s.gy && w[0..3] == s.xl && w[6] == s.time;
  }

  lemma SampleBytesRoundTrip(bs: seq<byte>)
    requires |bs| == BytesPerSample
    ensures EncodeSample(DecodeSample(bs)) == bs
  {
    var w := Le16Words(bs);
    assert w[0..3] + w[3..6] + [w[6]] == w;
    Le16BytesRoundTrip(bs);
  }

  /** The samples of the whole fourteen-byte chunks of `bs`; a partial chunk at the end is dropped. */
  function Samples(bs: seq<byte>): (ss: seq<Sample>)
    ensures |ss| == |bs| / BytesPerSample
    decreases |bs|
  {
    if |bs| < BytesPerSample then [] else [DecodeSample(bs[..BytesPerSample])] + Samples(bs[BytesPerSample..])
  }

  lemma {:induction false} SamplesAt(bs: seq<byte>, i: nat)
    requires i < |bs| / BytesPerSample
    ensures Samples(bs)[i] == DecodeSample(bs[BytesPerSample * i..BytesPerSample * i + BytesPerSample])
    decreases i
  {
    if i > 0 {
      SamplesAt(bs[BytesPerSample..], i - 1);
      assert bs[BytesPerSample..][BytesPerSample * (i - 1)..BytesPerSample * (i - 1) + BytesPerSample]
          == bs[BytesPerSample * i..BytesPerSample * i + BytesPerSample];
    }
  }

  /** The bytes of a run of samples, back to back. */
  function EncodeStream(ss: seq<Sample>): (bs: seq<byte>)
    requires forall i :: 0 <= i < |ss| ==> WellFormed(ss[i])
    ensures |bs| == BytesPerSample * |ss|
  {
    if |ss| == 0 then [] else EncodeSample(ss[0]) + EncodeStream(ss[1..])
  }

  /** Chunking the bytes of a run of samples gives the run back. */
  lemma {:induction false} StreamRoundTrip(ss: seq<Sample>)
    requires forall i :: 0 <= i < |ss| ==> WellFormed(ss[i])
    ensures Samples(EncodeStream(ss)) == ss
  {
    if |ss| > 0 {
      var bs := EncodeStream(ss);
      assert bs[..BytesPerSample] == EncodeSample(ss[0]);
      assert bs[BytesPerSample..] == EncodeStream(ss[1..]);
      SampleRoundTrip(ss[0]);
      StreamRoundTrip(ss[1..]);
    }
  }

  /** Whatever follows the last whole sample does not change the samples. */
  lemma {:induction false} SamplesIgnoreTail(bs: seq<byte>, tail: seq<byte>)
    requires |bs| % BytesPerSample == 0 && |tail| < BytesPerSample
    ensures Samples(bs + tail) == Samples(bs)
    decreases |bs|
  {
    if |bs| == 0 {
      assert bs + tail == tail;
    } else {
      assert (bs + tail)[..BytesPerSample] == bs[..BytesPerSample];
      assert (bs + tail)[BytesPerSample..] == bs[BytesPerSample..] + tail;
      SamplesIgnoreTail(bs[BytesPerSample..], tail);
    }
  }

  // ---------------------------------------------------------------------
  // One poll
  // ---------------------------------------------------------------------

  /** `len`: the unread bytes, at most the buffer. */
  function ReadLength(unreadWords: bv16): (len: nat)
    ensures len <= BufferSize && len <= 2 * unreadWords as int
    ensures len == BufferSize || len == 2 * unreadWords as int
    ensures len % 2 == 0
  {
    if 2 * unreadWords as int < BufferSize then 2 * unreadWords as int else BufferSize
  }

  datatype Poll = Continue(samples: seq<Sample>) | Exit

  /**
    One turn of the `while let` loop.  A status error or an empty FIFO exits
    it, and so does a read error; otherwise the whole buffer is read and the
    samples of the first `len` bytes are sent.  The reader task has no error of its
    own, so no run of it fails.
   */
  function PollStep(bus: Bus): (p: Run<Poll, ()>)
    ensures !p.Failed?
    ensures p.Done? ==> Follows(bus, p.bus) && |p.bus.replies| < |bus.replies|
    ensures p.Done? && p.value.Continue? ==>
      (|bus.replies| >= 4 && bus.replies[1].Success? && |bus.replies[1].value| == 4
      && var unread := FromLe16(bus.replies[1].value[2], bus.replies[1].value[3]);
      unread > 0
      && bus.replies[3].Success? && |bus.replies[3].value| == BufferSize
      && p.value.samples == Samples(bus.replies[3].value[..ReadLength(unread)])
      && p.bus.log == bus.log + [Transfer(ReadFrame(INT_STATUS2), 4), Transfer(ReadFrame(FIFO_FILL_LEVEL), 4),
                                 Write([READ | FIFO_DATA, 0]), Read(BufferSize)])
  {
    match ReadFifoStatus(bus)
    case OffScript => OffScript
    case Failed(_, b) => Done(Exit, b)
    case Done(st, b) =>
      if st.unreadWords == 0 then Done(Exit, b)
      else
        match ReadFifo(b, BufferSize)
        case OffScript => OffScript
        case Failed(_, b2) => FollowsTransitive(bus, b, b2); Done(Exit, b2)
        case Done(bytes, b2) =>
          assert b.replies[1] == bus.replies[3];
          assert Follows(b, b2);
          FollowsTransitive(bus, b, b2);
          Done(Continue(Samples(bytes[..ReadLength(st.unreadWords)])), b2)
  }

  /** The `while let` loop: polls until one exits or the script ends. */
  function Drain(bus: Bus): (d: Run<seq<Sample>, ()>)
    ensures !d.Failed?
    ensures d.Done? ==> Follows(bus, d.bus)
    ensures d.Done? ==> forall i :: 0 <= i < |d.value| ==> WellFormed(d.value[i])
    ensures PollStep(bus).Done? && PollStep(bus).value.Exit? ==> d == Done([], PollStep(bus).bus)
    ensures d.Done? ==>
      (PollStep(bus).Done?
       && (PollStep(bus).value.Continue? ==> PollStep(bus).value.samples <= d.value))
    decreases |bus.replies|
  {
    match PollStep(bus)
    case OffScript => OffScript
    case Failed(_, _) => OffScript
    case Done(Exit, b) => Done([], b)
    case Done(Continue(samples), b) =>
      assert forall i :: 0 <= i < |samples| ==> WellFormed(samples[i]) by {
        forall i | 0 <= i < |samples| ensures WellFormed(samples[i]) {
          var bytes := bus.replies[3].value[..ReadLength(FromLe16(bus.replies[1].value[2], bus.replies[1].value[3]))];
          SamplesAt(bytes, i);
        }
      }
      match Drain(b)
      case Done(more, b2) => FollowsTransitive(bus, b, b2); Done(samples + more, b2)
      case _ => OffScript
  }

  /** What one poll that sends something took in: the unread count and the whole buffer read. */
  datatype Fetch = Fetch(unread: bv16, bytes: seq<byte>)

  /** The unread count and the buffer of every poll of the loop that sends something, in order. */
  function Transfers(bus: Bus): (fs: seq<Fetch>)
    ensures forall k :: 0 <= k < |fs| ==> |fs[k].bytes| == BufferSize
    decreases |bus.replies|
  {
    match PollStep(bus)
    case Done(Continue(_), b) =>
      [Fetch(FromLe16(bus.replies[1].value[2], bus.replies[1].value[3]), bus.replies[3].value)] + Transfers(b)
    case _ => []
  }

  /** The reference for the loop: the samples of the first `len` bytes of each buffer, one poll after another. */
  function SentBy(fs: seq<Fetch>): seq<Sample>
    requires forall k :: 0 <= k < |fs| ==> |fs[k].bytes| == BufferSize
    decreases |fs|
  {
    if |fs| == 0 then [] else Samples(fs[0].bytes[..ReadLength(fs[0].unread)]) + SentBy(fs[1..])
  }

  /** `len / 14` summed over the polls. */
  function SampleCount(fs: seq<Fetch>): nat
    decreases |fs|
  {
    if |fs| == 0 then 0 else ReadLength(fs[0].unread) / BytesPerSample + SampleCount(fs[1..])
  }

  /** A loop that ends sends exactly the samples of its polls' buffers, in order. */
  lemma {:induction false} DrainSends(bus: Bus)
    ensures Drain(bus).Done? ==> Drain(bus).value == SentBy(Transfers(bus))
    decreases |bus.replies|
  {
    var p := PollStep(bus);
    if p.Done? && p.value.Continue? {
      DrainSends(p.bus);
      var fs := Transfers(bus);
      assert fs[1..] == Transfers(p.bus);
    }
  }

  /** The loop sends `len / 14` samples per poll, summed over its polls. */
  lemma {:induction false} SentByCount(fs: seq<Fetch>)
    requires forall k :: 0 <= k < |fs| ==> |fs[k].bytes| == BufferSize
    ensures |SentBy(fs)| == SampleCount(fs)
    decreases |fs|
  {
    if |fs| > 0 {
      SentByCount(fs[1..]);
    }
  }

  /** The number of samples a loop that ends sends, counted over its polls. */
  lemma DrainCount(bus: Bus)
    ensures Drain(bus).Done? ==> |Drain(bus).value| == SampleCount(Transfers(bus))
  {
    DrainSends(bus);
    SentByCount(Transfers(bus));
  }

  /** The reader task's start: a FIFO flush whose outcome is ignored. */
  function Flush(bus: Bus): (r: Run<(), ()>)
    ensures !r.Failed?
    ensures r.Done? <==> (|bus.replies| > 0 && (bus.replies[0] == Success([]) || bus.replies[0].Failure?))
    ensures r.Done? ==> r.bus == Bus(bus.replies[1..], bus.clock, bus.log + [Write(WriteFrame(FIFO_CTRL, FIFO_FLUSH))])
  {
    match WriteRegister(bus, FIFO_CTRL, FIFO_FLUSH)
    case OffScript => OffScript
    case Failed(_, b) => Done((), b)
    case Done(_, b) => Done((), b)
  }

  // ---------------------------------------------------------------------
  // Properties of a poll
  // ---------------------------------------------------------------------

  /** A poll sends `len / 14` samples, each from its own fourteen bytes at the start of the buffer. */
  lemma PollSamples(bytes: seq<byte>, unread: bv16, i: nat)
    requires |bytes| == BufferSize && i < ReadLength(unread) / BytesPerSample
    ensures |Samples(bytes[..ReadLength(unread)])| == ReadLength(unread) / BytesPerSample
    ensures Samples(bytes[..ReadLength(unread)])[i] == DecodeSample(bytes[BytesPerSample * i..BytesPerSample * i + BytesPerSample])
  {
    var len := ReadLength(unread);
    SamplesAt(bytes[..len], i);
    assert bytes[..len][BytesPerSample * i..BytesPerSample * i + BytesPerSample]
        == bytes[BytesPerSample * i..BytesPerSample * i + BytesPerSample];
  }

  /** When the FIFO holds whole samples that fit the buffer, a poll sends every one of them. */
  lemma WholeSamplesAllSent(unread: bv16)
    requires unread as int % 7 == 0 && 2 * unread as int <= BufferSize
    ensures ReadLength(unread) / BytesPerSample == unread as int / 7
  {
  }

  /** Unread words past the last whole sample are consumed by the read but sent nowhere. */
  lemma PartialSampleDropped(unread: bv16)
    requires unread as int % 7 != 0 && 2 * unread as int <= BufferSize
    ensures 7 * (ReadLength(unread) / BytesPerSample) < unread as int
  {
    var u := unread as int;
    assert ReadLength(unread) == 2 * u;
    HalveQuotient(u);
  }

  lemma HalveQuotient(u: nat)
    ensures (2 * u) / 14 == u / 7 && 7 * (u / 7) <= u
  {
    var q, r := u / 7, u % 7;
    assert u == 7 * q + r && 2 * u == 14 * q + 2 * r && 2 * r < 14;
  }

  /** A FIFO holding more than the buffer is sent as one full buffer of 64 samples. */
  lemma FullBufferCap(unread: bv16)
    requires 2 * unread as int >= BufferSize
    ensures ReadLength(unread) / BytesPerSample == 64
  {
  }

  /** The FIFO read is the whole buffer however many words are unread. */
  lemma ReadsWholeBuffer(bus: Bus)
    requires PollStep(bus).Done? && PollStep(bus).value.Continue?
    ensures PollStep(bus).bus.log[|bus.log| + 3] == Read(BufferSize)
  {
  }

  /** A poll over a FIFO holding exactly the bytes of some samples sends those samples. */
  lemma PollRoundTrip(ss: seq<Sample>, unread: bv16, filler: seq<byte>)
    requires 0 < |ss| <= 64 && forall i :: 0 <= i < |ss| ==> WellFormed(ss[i])
    requires unread as int == 7 * |ss| && |filler| == BufferSize - BytesPerSample * |ss|
    ensures Samples((EncodeStream(ss) + filler)[..ReadLength(unread)]) == ss
  {
    assert ReadLength(unread) == BytesPerSample * |ss|;
    assert (EncodeStream(ss) + filler)[..ReadLength(unread)] == EncodeStream(ss);
    StreamRoundTrip(ss);
  }
}
