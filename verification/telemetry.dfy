/**
  The IMU telemetry records.  The LSM6DS3 firmware turns every sample event
  into a 45-byte record (a tag, a wrapping 64-bit sample counter and nine
  `f32` values) and logs it base64-encoded after the marker `B64:`; the
  host-side viewer picks those lines out of the serial log, decodes the
  records and plots them in bounded series.  The BMI323 firmware writes a
  shorter 26-byte record with neither tag nor counter.  Every `f32` is its
  32-bit pattern; base64 is a function parameter.
 */
module Telemetry {
  import opened Wrappers
  import opened Bytes

  /** A sample event as both ends see it: read in step, or after the FIFO lost its place. */
  datatype Tagged<T> = Ok(value: T) | Lagged(value: T)

  /** The scaled values of one LSM6DS3 sample: gyroscope, accelerometer and three temperature slots. */
  datatype Reading = Reading(gy: seq<bv32>, xl: seq<bv32>, temp: seq<bv32>)

  predicate WellFormed(r: Reading) {
    |r.gy| == 3 && |r.xl| == 3 && |r.temp| == 3
  }

  const OkTag: byte := 0x4F      // 'O'
  const LaggedTag: byte := 0x4C  // 'L'
  const RecordSize: nat := 45
  const BodySize: nat := 44

  // ---------------------------------------------------------------------
  // The 45-byte record
  // ---------------------------------------------------------------------

  function TagOf<T>(e: Tagged<T>): (tag: byte)
    ensures tag == OkTag <==> e.Ok?
    ensures tag == LaggedTag <==> e.Lagged?
  {
    if e.Ok? then OkTag else LaggedTag
  }

  /** The nine values in wire order. */
  function Values(r: Reading): (vs: seq<bv32>)
    requires WellFormed(r)
    ensures |vs| == 9
    ensures forall i :: 0 <= i < 3 ==> vs[i] == r.gy[i] && vs[3 + i] == r.xl[i] && vs[6 + i] == r.temp[i]
  {
    r.gy + r.xl + r.temp
  }

  /** The firmware's `u64` sample counter. */
  const Wrap: nat := 0x1_0000_0000_0000_0000
  type Counter = n: int | 0 <= n < Wrap

  /** `wrapping_add(1)`. */
  function WrappingIncrement(c: Counter): (d: Counter)
    ensures c + 1 < Wrap ==> d == c + 1
    ensures c + 1 == Wrap ==> d == 0
  {
    (c + 1) % Wrap
  }

  /** The counter after `k` increments. */
  function Later(c: Counter, k: nat): Counter
    decreases k
  {
    if k == 0 then c else Later(WrappingIncrement(c), k - 1)
  }

  /** `k` wrapping increments add `k` modulo 2^64. */
  lemma {:induction false} LaterIsModular(c: Counter, k: nat)
    ensures Later(c, k) == (c + k) % Wrap
    decreases k
  {
    if k > 0 {
      LaterIsModular(WrappingIncrement(c), k - 1);
      if c + 1 == Wrap {
        var q, r := (k - 1) / Wrap, (k - 1) % Wrap;
        assert Wrap + k - 1 == Wrap * (q + 1) + r;
        assert (c + k) % Wrap == (k - 1) % Wrap;
      } else {
        assert WrappingIncrement(c) == c + 1;
      }
    }
  }

  /** `u64::to_le_bytes` of the counter. */
  function CounterBytes(c: Counter): (bs: seq<byte>)
    ensures |bs| == 8
  {
    ToLe64(c as bv64)
  }

  /** The record the firmware builds for an event and the current value of its counter. */
  function EncodeRecord(e: Tagged<Reading>, count: Counter): (bs: seq<byte>)
    requires WellFormed(e.value)
    ensures |bs| == RecordSize
    ensures bs[0] == TagOf(e)
    ensures bs[1..9] == CounterBytes(count)
    ensures bs[9..] == Le32Bytes(Values(e.value))
  {
    [TagOf(e)] + CounterBytes(count) + Le32Bytes(Values(e.value))
  }

  /** What the host decodes from the 44 bytes behind the tag. */
  datatype Sample = Sample(idx: bv64, gy: seq<bv32>, xl: seq<bv32>, temp: seq<bv32>)

  predicate SampleWellFormed(s: Sample) {
    |s.gy| == 3 && |s.xl| == 3 && |s.temp| == 3
  }

  /** `Sample::from_bytes`: the counter, then three groups of three values. */
  function FromBytes(bs: seq<byte>): (s: Sample)
    requires |bs| == BodySize
    ensures SampleWellFormed(s)
    ensures s.idx == FromLe64(bs[..8])
  {
    var vs := Le32Words(bs[8..]);
    Sample(FromLe64(bs[..8]), vs[0..3], vs[3..6], vs[6..9])
  }

  /** The bytes `FromBytes` reads a sample from: the inverse layout. */
  function SampleBytes(s: Sample): (bs: seq<byte>)
    requires SampleWellFormed(s)
    ensures |bs| == BodySize
  {
    ToLe64(s.idx) + Le32Bytes(s.gy + s.xl + s.temp)
  }

  lemma SampleRoundTrip(s: Sample)
    requires SampleWellFormed(s)
    ensures FromBytes(SampleBytes(s)) == s
  {
    var bs := SampleBytes(s);
    var vs := s.gy + s.xl + s.temp;
    assert bs[..8] == ToLe64(s.idx) && bs[8..] == Le32Bytes(vs);
    Le64RoundTrip(s.idx);
    Le32WordsRoundTrip(vs);
    assert vs[0..3] == s.gy && vs[3..6] == s.xl && vs[6..9] == s.temp;
  }

  lemma SampleBytesRoundTrip(bs: seq<byte>)
    requires |bs| == BodySize
    ensures SampleBytes(FromBytes(bs)) == bs
  {
    var vs := Le32Words(bs[8..]);
    assert vs[0..3] + vs[3..6] + vs[6..9] == vs;
    Le64Inverse(bs[..8]);
    Le32BytesRoundTrip(bs[8..]);
    assert bs == bs[..8] + bs[8..];
  }

  /** The host reads back the counter and the values the firmware wrote, in the same slots. */
  lemma RecordRoundTrip(e: Tagged<Reading>, count: Counter)
    requires WellFormed(e.value)
    ensures FromBytes(EncodeRecord(e, count)[1..RecordSize])
         == Sample(count as bv64, e.value.gy, e.value.xl, e.value.temp)
  {
    var bs := EncodeRecord(e, count);
    var s := Sample(count as bv64, e.value.gy, e.value.xl, e.value.temp);
    assert bs[1..RecordSize] == SampleBytes(s);
    SampleRoundTrip(s);
  }

  // ---------------------------------------------------------------------
  // The firmware's consumer task
  // ---------------------------------------------------------------------

  /**
    `imu_consumer`: one record per received event, in order, the counter
    starting where it stands and going up by one per event with wrap-around.
   */
  function Consume(events: seq<Tagged<Reading>>, count: Counter): (r: (seq<seq<byte>>, Counter))
    requires forall i :: 0 <= i < |events| ==> WellFormed(events[i].value)
    ensures |r.0| == |events|
    ensures forall i :: 0 <= i < |r.0| ==> |r.0[i]| == RecordSize
  {
    if |events| == 0 then ([], count)
    else
      var (rest, last) := Consume(events[1..], WrappingIncrement(count));
      ([EncodeRecord(events[0], count)] + rest, last)
  }

  /**
    The `k`-th record is the `k`-th event under the counter `count + k`
    modulo 2^64, and the counter ends `|events|` further on.
   */
  lemma {:induction false} ConsumeRecords(events: seq<Tagged<Reading>>, count: Counter, k: nat)
    requires forall i :: 0 <= i < |events| ==> WellFormed(events[i].value)
    requires k < |events|
    ensures var r := Consume(events, count).0[k];
      r[0] == TagOf(events[k])
      && FromBytes(r[1..RecordSize]).idx == Later(count, k) as bv64
      && FromBytes(r[1..RecordSize]).gy == events[k].value.gy
      && FromBytes(r[1..RecordSize]).xl == events[k].value.xl
      && FromBytes(r[1..RecordSize]).temp == events[k].value.temp
  {
    ConsumeAt(events, count, k);
    RecordRoundTrip(events[k], Later(count, k));
  }

  /** The `k`-th record is the `k`-th event encoded under the counter `k` increments on. */
  lemma {:induction false} ConsumeAt(events: seq<Tagged<Reading>>, count: Counter, k: nat)
    requires forall i :: 0 <= i < |events| ==> WellFormed(events[i].value)
    requires k < |events|
    ensures Consume(events, count).0[k] == EncodeRecord(events[k], Later(count, k))
    decreases k
  {
    if k > 0 {
      var next := WrappingIncrement(count);
      assert Consume(events, count).0[k] == Consume(events[1..], next).0[k - 1];
      ConsumeAt(events[1..], next, k - 1);
    }
  }

  /** The counter after a run of events: `|events|` further on, modulo 2^64. */
  lemma {:induction false} ConsumeCounter(events: seq<Tagged<Reading>>, count: Counter)
    requires forall i :: 0 <= i < |events| ==> WellFormed(events[i].value)
    ensures Consume(events, count).1 == Later(count, |events|)
  {
    if |events| > 0 {
      ConsumeCounter(events[1..], WrappingIncrement(count));
    }
  }

  // ---------------------------------------------------------------------
  // The host's line filter
  // ---------------------------------------------------------------------

  const Marker: string := "B64:"
  const ColourReset: string := "\U{001B}[0m"

  predicate StartsAt(s: string, pat: string, j: nat) {
    j + |pat| <= |s| && s[j..j + |pat|] == pat
  }

  /** The first occurrence of `pat` in `s` at or after `i`. */
  function FindFrom(s: string, pat: string, i: nat): (r: Option<nat>)
    requires |pat| > 0
    ensures r.Some? ==> i <= r.value && StartsAt(s, pat, r.value)
    ensures r.Some? ==> forall k :: i <= k < r.value ==> !StartsAt(s, pat, k)
    ensures r.None? ==> forall k :: i <= k ==> !StartsAt(s, pat, k)
    decreases |s| - i
  {
    if i + |pat| > |s| then None
    else if s[i..i + |pat|] == pat then Some(i)
    else FindFrom(s, pat, i + 1)
  }

  /** `str::split_once`: the text before and after the first occurrence of `pat`. */
  function SplitOnce(s: string, pat: string): (r: Option<(string, string)>)
    requires |pat| > 0
    ensures r.Some? <==> exists j :: StartsAt(s, pat, j)
    ensures r.Some? ==> s == r.value.0 + pat + r.value.1
    ensures r.Some? ==> forall k :: 0 <= k < |r.value.0| ==> !StartsAt(s, pat, k)
  {
    match FindFrom(s, pat, 0)
    case None => None
    case Some(j) =>
      assert s == s[..j] + pat + s[j + |pat|..];
      Some((s[..j], s[j + |pat|..]))
  }

  /** `str::trim_suffix`: one trailing `suffix` removed, if there is one. */
  function TrimSuffix(s: string, suffix: string): (r: string)
    ensures (|suffix| <= |s| && s[|s| - |suffix|..] == suffix) ==> s == r + suffix
    ensures !(|suffix| <= |s| && s[|s| - |suffix|..] == suffix) ==> r == s
  {
    if |suffix| <= |s| && s[|s| - |suffix|..] == suffix then s[..|s| - |suffix|] else s
  }

  /** What a log line becomes on the host. `Unreachable` is the `unreachable!()` panic. */
  datatype LineOutcome = Skipped | Delivered(event: Tagged<Sample>) | Unreachable(tag: byte)

  /**
    The body of the `data_pump` loop for one line: the text after the first
    marker, less a trailing colour reset, must decode to exactly 45 bytes;
    the first byte is the tag and the other 44 the sample.
   */
  function AcceptLine(line: string, decode: string -> Option<seq<byte>>): (o: LineOutcome)
    ensures o != Skipped <==>
      (SplitOnce(line, Marker).Some?
       && var d := decode(TrimSuffix(SplitOnce(line, Marker).value.1, ColourReset));
       d.Some? && |d.value| == RecordSize)
    ensures o.Delivered? ==> SampleWellFormed(o.event.value)
    ensures o.Unreachable? ==> o.tag != OkTag && o.tag != LaggedTag
  {
    match SplitOnce(line, Marker)
    case None => Skipped
    case Some((_, text)) =>
      match decode(TrimSuffix(text, ColourReset))
      case None => Skipped
      case Some(bytes) =>
        if |bytes| != RecordSize then Skipped
        else
          var sample := FromBytes(bytes[1..RecordSize]);
          if bytes[0] == OkTag then Delivered(Ok(sample))
          else if bytes[0] == LaggedTag then Delivered(Lagged(sample))
          else Unreachable(bytes[0])
  }

  /** The host event for a record: the tag picks the variant, the body the sample. */
  function Received(e: Tagged<Reading>, count: Counter): (t: Tagged<Sample>) {
    var s := Sample(count as bv64, e.value.gy, e.value.xl, e.value.temp);
    if e.Ok? then Ok(s) else Lagged(s)
  }

  /** The marker is the first one of a line when the text before it holds no marker, not even across the join. */
  lemma MarkerFound(prefix: string, rest: string)
    requires forall k :: 0 <= k < |prefix| ==> !StartsAt(prefix + Marker, Marker, k)
    ensures SplitOnce(prefix + Marker + rest, Marker) == Some((prefix, rest))
  {
    var line := prefix + Marker + rest;
    assert StartsAt(line, Marker, |prefix|) by {
      assert line[|prefix|..|prefix| + 4] == Marker;
    }
    forall k | 0 <= k < |prefix|
      ensures !StartsAt(line, Marker, k)
    {
      assert !StartsAt(prefix + Marker, Marker, k);
      assert line[k..k + 4] == (prefix + Marker)[k..k + 4];
    }
    var j := FindFrom(line, Marker, 0);
    assert j.Some?;
    assert line[..|prefix|] == prefix && line[|prefix| + 4..] == rest;
  }

  /** Base64 text never ends in the colour reset, which starts with an escape character. */
  lemma TrimKeepsText(text: string, suffix: string)
    requires forall i :: 0 <= i < |text| ==> text[i] != '\U{001B}'
    requires suffix == "" || suffix == ColourReset
    ensures TrimSuffix(text + suffix, ColourReset) == text
  {
    var s := text + suffix;
    if suffix == "" {
      assert s == text;
      if |ColourReset| <= |s| {
        assert s[|s| - |ColourReset|..][0] != ColourReset[0];
      }
    } else {
      assert s[|s| - |ColourReset|..] == ColourReset;
      assert s[..|s| - |ColourReset|] == text;
    }
  }

  /**
    A line the firmware logs for a record reaches the host as the event it
    was made from: same tag, same counter, same values.  The base64 pair is
    assumed to round-trip and to use no escape character, the text in front
    of the marker to hold no marker, and the line to end in nothing or the
    colour reset.
   */
  lemma LineRoundTrip(e: Tagged<Reading>, count: Counter, prefix: string, text: string, suffix: string,
                      decode: string -> Option<seq<byte>>)
    requires WellFormed(e.value)
    requires decode(text) == Some(EncodeRecord(e, count))
    requires forall i :: 0 <= i < |text| ==> text[i] != '\U{001B}'
    requires forall k :: 0 <= k < |prefix| ==> !StartsAt(prefix + Marker, Marker, k)
    requires suffix == "" || suffix == ColourReset
    ensures AcceptLine(prefix + Marker + text + suffix, decode) == Delivered(Received(e, count))
  {
    assert prefix + Marker + text + suffix == prefix + Marker + (text + suffix);
    MarkerFound(prefix, text + suffix);
    TrimKeepsText(text, suffix);
    RecordRoundTrip(e, count);
  }

  /** The firmware only writes the two tags the host knows, so a decoded record never reaches `unreachable!()`. */
  lemma EncodedTagsKnown(e: Tagged<Reading>, count: Counter)
    requires WellFormed(e.value)
    ensures EncodeRecord(e, count)[0] == OkTag || EncodeRecord(e, count)[0] == LaggedTag
  {
  }

  // ---------------------------------------------------------------------
  // Bounded plot series
  // ---------------------------------------------------------------------

  /** The front is popped once a series holds more than this many points. */
  const MaxPoints: nat := 1600 * 10
  /** The longest a series ever gets: the pop happens before the push. */
  const Capacity: nat := MaxPoints + 1

  /** One `pop_front`-then-`push_back` step. */
  function Push<T>(series: seq<T>, x: T): (r: seq<T>)
    ensures |r| == (if |series| > MaxPoints then |series| else |series| + 1)
    ensures r[|r| - 1] == x
  {
    (if |series| > MaxPoints then series[1..] else series) + [x]
  }

  function PushAll<T>(series: seq<T>, xs: seq<T>): seq<T>
    decreases |xs|
  {
    if |xs| == 0 then series else PushAll(Push(series, xs[0]), xs[1..])
  }

  /** The latest `Capacity` points of `s`, or all of them. */
  function Window<T>(s: seq<T>): (w: seq<T>)
    ensures |w| == if |s| < Capacity then |s| else Capacity
  {
    if |s| <= Capacity then s else s[|s| - Capacity..]
  }

  lemma PushWindow<T>(series: seq<T>, x: T)
    requires |series| <= Capacity
    ensures Push(series, x) == Window(series + [x])
  {
    if |series| > MaxPoints {
      assert series[1..] + [x] == (series + [x])[1..];
    }
  }

  /** A window of a window, extended, is the window of the whole. */
  lemma WindowAppend<T>(a: seq<T>, b: seq<T>)
    ensures Window(Window(a) + b) == Window(a + b)
  {
    var w := Window(a);
    if |a| > Capacity {
      var n := |a| + |b|;
      var m := |w| + |b|;
      var lhs := Window(w + b);
      var rhs := Window(a + b);
      assert |lhs| == |rhs|;
      forall i | 0 <= i < |lhs|
        ensures lhs[i] == rhs[i]
      {
        assert lhs[i] == (w + b)[m - |lhs| + i];
        assert rhs[i] == (a + b)[n - |rhs| + i];
        if m - |lhs| + i < |w| {
          assert (w + b)[m - |lhs| + i] == a[|a| - Capacity + m - |lhs| + i];
        }
      }
    } else {
      assert w == a;
    }
  }

  /** Starting from any series within capacity, pushing a run keeps exactly the latest `Capacity` points. */
  lemma {:induction false} PushAllKeepsLatest<T>(series: seq<T>, xs: seq<T>)
    requires |series| <= Capacity
    ensures PushAll(series, xs) == Window(series + xs)
    decreases |xs|
  {
    if |xs| == 0 {
      assert series + xs == series;
    } else {
      var next := Push(series, xs[0]);
      PushWindow(series, xs[0]);
      PushAllKeepsLatest(next, xs[1..]);
      WindowAppend(series + [xs[0]], xs[1..]);
      assert series + [xs[0]] + xs[1..] == series + xs;
    }
  }

  /** A series that starts empty never holds more than `Capacity` points, and the newest is last. */
  lemma SeriesBounded<T>(xs: seq<T>)
    requires |xs| > 0
    ensures 0 < |PushAll([], xs)| <= Capacity
    ensures PushAll([], xs)[|PushAll([], xs)| - 1] == xs[|xs| - 1]
  {
    PushAllKeepsLatest([], xs);
    assert [] + xs == xs;
  }

  /** A plotted point: the sample counter on the x axis, a value on the y axis. */
  datatype Point = Point(idx: bv64, y: bv32)

  /** The viewer's series: three gyroscope axes, three accelerometer axes and one temperature slot. */
  datatype Vis = Vis(gy: seq<seq<Point>>, xl: seq<seq<Point>>, temp: seq<seq<Point>>) {
    predicate Valid() {
      |gy| == 3 && |xl| == 3 && |temp| == 1
    }
    predicate Bounded() {
      Valid()
      && (forall i :: 0 <= i < 3 ==> |gy[i]| <= Capacity && |xl[i]| <= Capacity)
      && |temp[0]| <= Capacity
    }
  }

  function Empty(): (v: Vis)
    ensures v.Bounded()
  {
    Vis([[], [], []], [[], [], []], [[]])
  }

  /** One received sample added to every series; Ok and Lagged are not told apart. */
  function Update(v: Vis, e: Tagged<Sample>): (w: Vis)
    requires v.Valid() && SampleWellFormed(e.value)
    ensures w.Valid()
    ensures forall i :: 0 <= i < 3 ==>
      w.gy[i] == Push(v.gy[i], Point(e.value.idx, e.value.gy[i]))
      && w.xl[i] == Push(v.xl[i], Point(e.value.idx, e.value.xl[i]))
    ensures w.temp[0] == Push(v.temp[0], Point(e.value.idx, e.value.temp[0]))
  {
    var s := e.value;
    Vis(seq(3, i requires 0 <= i < 3 => Push(v.gy[i], Point(s.idx, s.gy[i]))),
        seq(3, i requires 0 <= i < 3 => Push(v.xl[i], Point(s.idx, s.xl[i]))),
        [Push(v.temp[0], Point(s.idx, s.temp[0]))])
  }

  /** Every series stays within `Capacity` points. */
  lemma UpdateBounded(v: Vis, e: Tagged<Sample>)
    requires v.Bounded() && SampleWellFormed(e.value)
    ensures Update(v, e).Bounded()
  {
  }

  /** The tag makes no difference to what is plotted. */
  lemma UpdateIgnoresTag(v: Vis, s: Sample)
    requires v.Valid() && SampleWellFormed(s)
    ensures Update(v, Ok(s)) == Update(v, Lagged(s))
  {
  }

  // ---------------------------------------------------------------------
  // The 26-byte BMI323 record
  // ---------------------------------------------------------------------

  const CompactSize: nat := 26

  /** The scaled BMI323 sample: gyroscope and accelerometer values, and the sensor time. */
  datatype TimedReading = TimedReading(gy: seq<bv32>, xl: seq<bv32>, time: bv16)

  predicate TimedWellFormed(r: TimedReading) {
    |r.gy| == 3 && |r.xl| == 3
  }

  /** The BMI323 firmware's record: six values then the time, no tag and no counter. */
  function EncodeCompact(r: TimedReading): (bs: seq<byte>)
    requires TimedWellFormed(r)
    ensures |bs| == CompactSize
    ensures bs[..12] == Le32Bytes(r.gy) && bs[12..24] == Le32Bytes(r.xl)
    ensures FromLe16(bs[24], bs[25]) == r.time
  {
    Le32BytesAppend(r.gy, r.xl);
    Le16RoundTrip(r.time);
    Le32Bytes(r.gy + r.xl) + ToLe16(r.time)
  }

  /** A reader for the record, which the repository itself does not have. */
  function DecodeCompact(bs: seq<byte>): (r: TimedReading)
    requires |bs| == CompactSize
    ensures TimedWellFormed(r)
  {
    var vs := Le32Words(bs[..24]);
    TimedReading(vs[0..3], vs[3..6], FromLe16(bs[24], bs[25]))
  }

  lemma CompactRoundTrip(r: TimedReading)
    requires TimedWellFormed(r)
    ensures DecodeCompact(EncodeCompact(r)) == r
  {
    var bs := EncodeCompact(r);
    assert bs[..24] == Le32Bytes(r.gy + r.xl);
    Le32WordsRoundTrip(r.gy + r.xl);
    assert (r.gy + r.xl)[0..3] == r.gy && (r.gy + r.xl)[3..6] == r.xl;
  }

  lemma CompactBytesRoundTrip(bs: seq<byte>)
    requires |bs| == CompactSize
    ensures EncodeCompact(DecodeCompact(bs)) == bs
  {
    var vs := Le32Words(bs[..24]);
    assert vs[0..3] + vs[3..6] == vs;
    Le32BytesRoundTrip(bs[..24]);
    var w := FromLe16(bs[24], bs[25]);
    assert ToLe16(w) == bs[24..] by {
      Le16BytesRoundTrip(bs[24..]);
      assert Le16Words(bs[24..]) == [w];
      assert Le16Bytes([w]) == ToLe16(w);
    }
    assert bs == bs[..24] + bs[24..];
  }
}
