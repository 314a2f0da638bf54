/**
  ESC command encodings: the throttle-range transforms and the RMT pulse
  trains of the OneShot (analog pulse width) and DShot (digital frame)
  protocol families.  Throttles and pulse lengths are Rust `u16` values.
 */
module EscProtocol {
  import opened Wrappers

  /** Rust `u16`, kept as a bit-vector so that frame arithmetic is bit-exact. */
  type u16 = bv16

  datatype Level = Low | High

  /** An RMT pulse code: a (level, length) pair for each half, or the end marker. */
  datatype PulseCode = Pulse(level1: Level, length1: u16, level2: Level, length2: u16) | EndMarker

  /** The closed set of protocol variants, fixed when the motor driver is built. */
  datatype Protocol = OneShot125 | OneShot42 | DShot150 | DShot300 | DShot600 {
    predicate IsDShot() {
      DShot150? || DShot300? || DShot600?
    }

    /** RMT source clock in MHz (`RATE`). */
    function RateMHz(): nat {
      match this
      case OneShot125 => 8
      case OneShot42 => 24
      case _ => 48
    }

    /** RMT channel clock divider (`CLK_DIV`). */
    function ClockDivider(): nat {
      match this
      case DShot150 => 4
      case DShot300 => 2
      case _ => 1
    }
  }

  /** Tick counts of the high and low halves of a DShot 1 bit and 0 bit. */
  datatype BitTiming = BitTiming(oneHigh: u16, oneLow: u16, zeroHigh: u16, zeroLow: u16)

  /** All three DShot variants share one timing table; the clock divider sets the speed. */
  function Timing(p: Protocol): (t: BitTiming)
    requires p.IsDShot()
    ensures t.oneHigh + t.oneLow == 80 && t.zeroHigh + t.zeroLow == 80
    ensures t.oneHigh > t.zeroHigh && t.oneLow < t.zeroLow
  {
    BitTiming(60, 20, 30, 50)
  }

  // ---------------------------------------------------------------------
  // Throttle-range transforms (input range 0..=2000)
  // ---------------------------------------------------------------------

  /** `throttle.clamp(1, 1999) + 48`: lands inside the DShot throttle range 49..=2047. */
  function DShotTransform(throttle: u16): (r: u16)
    ensures 49 <= r <= 2047
    ensures 1 <= throttle <= 1999 ==> r - 48 == throttle
    ensures throttle == 0 ==> r == 49
    ensures throttle >= 1999 ==> r == 2047
  {
    (if throttle < 1 then 1 else if throttle > 1999 then 1999 else throttle) + 48
  }

  /** `(throttle / 2).min(1000) + 1000`: lands inside the OneShot pulse range 1000..=2000. */
  function OneShotTransform(throttle: u16): (r: u16)
    ensures 1000 <= r <= 2000
    ensures throttle == 0 ==> r == 1000
    ensures throttle >= 2000 ==> r == 2000
    ensures throttle < 2000 ==> 2 * (r - 1000) <= throttle < 2 * (r - 1000) + 2
  {
    var half := throttle / 2;
    (if half < 1000 then half else 1000) + 1000
  }

  lemma OneShotTransformMonotone(a: u16, b: u16)
    requires a <= b
    ensures OneShotTransform(a) <= OneShotTransform(b)
  {
    assert a / 2 <= b / 2;
  }

  lemma DShotTransformMonotone(a: u16, b: u16)
    requires a <= b
    ensures DShotTransform(a) <= DShotTransform(b)
  {
  }

  function ThrottleTransform(p: Protocol, throttle: u16): (t: u16)
    ensures p.IsDShot() ==> 49 <= t <= 2047
    ensures !p.IsDShot() ==> 1000 <= t <= 2000
  {
    if p.IsDShot() then DShotTransform(throttle) else OneShotTransform(throttle)
  }

  // ---------------------------------------------------------------------
  // OneShot: a single high pulse
  // ---------------------------------------------------------------------

  /** One high pulse of `value` ticks, a low half of length 0 (the line is multiplexed), then the end marker. */
  function OneShotPulse(value: u16): seq<PulseCode> {
    [Pulse(High, value, Low, 0), EndMarker]
  }

  /** Reads the pulse width back from a OneShot train; `None` for any other shape. */
  function DecodeOneShot(codes: seq<PulseCode>): Option<u16> {
    if |codes| == 2 && codes[1] == EndMarker && codes[0].Pulse?
       && codes[0].level1 == High && codes[0].level2 == Low && codes[0].length2 == 0
    then Some(codes[0].length1)
    else None
  }

  lemma OneShotRoundTrip(value: u16)
    ensures DecodeOneShot(OneShotPulse(value)) == Some(value)
  {
  }

  lemma OneShotDecodeCanonical(codes: seq<PulseCode>, value: u16)
    requires DecodeOneShot(codes) == Some(value)
    ensures codes == OneShotPulse(value)
  {
  }

  /** Width of the high pulse in nanoseconds at the variant's clock. */
  function OneShotWidthNanos(p: Protocol, value: u16): (ns: nat)
    requires !p.IsDShot()
  {
    (value as int) * 1000 * p.ClockDivider() / p.RateMHz()
  }

  /** OneShot125: transformed throttles give pulses between 125 and 250 microseconds. */
  lemma PulseRangeAsInt(v: u16)
    requires 1000 <= v <= 2000
    ensures 1000 <= v as int <= 2000
    ensures v == 1000 ==> v as int == 1000
    ensures v == 2000 ==> v as int == 2000
  {
  }

  lemma OneShot125Window(throttle: u16)
    ensures 125_000 <= OneShotWidthNanos(OneShot125, OneShotTransform(throttle)) <= 250_000
    ensures throttle == 0 ==> OneShotWidthNanos(OneShot125, OneShotTransform(throttle)) == 125_000
    ensures throttle >= 2000 ==> OneShotWidthNanos(OneShot125, OneShotTransform(throttle)) == 250_000
  {
    PulseRangeAsInt(OneShotTransform(throttle));
  }

  // ---------------------------------------------------------------------
  // DShot: 11-bit throttle, telemetry bit, 4-bit checksum
  // ---------------------------------------------------------------------

  /** XOR of the three nibbles of the 12-bit data word. */
  function Checksum(data: bv16): (crc: bv16)
    ensures crc < 16
  {
    (data ^ (data >> 4) ^ (data >> 8)) & 0xF
  }

  predicate Bit(x: bv16, i: bv16)
    requires i < 16
  {
    ((x >> i) & 1) == 1
  }

  /** The low nibble of a packet is the checksum of its upper 12 bits. */
  predicate ChecksumOk(packet: bv16) {
    (packet & 0xF) == Checksum(packet >> 4)
  }

  /** The 16-bit packet `(value << 1 | telemetry) << 4 | crc`. */
  function Packet(value: u16, telemetry: bool): (packet: bv16)
    requires value < 2048
    ensures packet >> 5 == value
    ensures Bit(packet, 4) == telemetry
    ensures ChecksumOk(packet)
  {
    var t: bv16 := if telemetry then 1 else 0;
    PacketFields(value, t);
    Assemble((value << 1) | t)
  }

  /** The data word shifted up by a nibble, with its checksum below. */
  function Assemble(data: bv16): bv16 {
    (data << 4) | Checksum(data)
  }

  /** An assembled packet keeps the value above the telemetry bit, and its checksum holds. */
  lemma PacketFields(value: u16, t: bv16)
    requires value < 2048 && t < 2
    ensures Assemble((value << 1) | t) >> 5 == value
    ensures Bit(Assemble((value << 1) | t), 4) == (t == 1)
    ensures ChecksumOk(Assemble((value << 1) | t))
  {
    DataFields(value, t);
    AssembleFields((value << 1) | t);
  }

  /** The same, for any 12-bit data word. */
  lemma AssembleFields(data: bv16)
    requires data < 4096
    ensures Assemble(data) >> 5 == data >> 1
    ensures Bit(Assemble(data), 4) == (data & 1 == 1)
    ensures ChecksumOk(Assemble(data))
  {
    NibbleBelow(data, Checksum(data));
  }

  /** The 12-bit data word keeps the value above the telemetry bit. */
  lemma DataFields(value: u16, t: bv16)
    requires value < 2048 && t < 2
    ensures ((value << 1) | t) < 4096
    ensures ((value << 1) | t) >> 1 == value
    ensures (((value << 1) | t) & 1) == t
  {
  }

  /** A nibble placed below a 12-bit word: both come back out, and the word's bits move up by four. */
  lemma NibbleBelow(data: bv16, crc: bv16)
    requires data < 4096 && crc < 16
    ensures ((data << 4) | crc) >> 5 == data >> 1
    ensures Bit((data << 4) | crc, 4) == (data & 1 == 1)
    ensures ChecksumOk((data << 4) | crc) == (crc == Checksum(data))
  {
  }

  /** A packet whose checksum is consistent is the packet of its own fields. */
  lemma PacketCanonical(packet: bv16)
    requires ChecksumOk(packet)
    ensures Packet(packet >> 5, Bit(packet, 4)) == packet
  {
  }

  /** Rust `u16::reverse_bits`, as the usual swap network of bits, pairs, nibbles and bytes. */
  function ReverseBits(x: bv16): (r: bv16)
    ensures forall i: bv16 | i < 16 :: Bit(r, i) == Bit(x, 15 - i)
  {
    var a := ((x >> 1) & 0x5555) | ((x & 0x5555) << 1);
    var b := ((a >> 2) & 0x3333) | ((a & 0x3333) << 2);
    var c := ((b >> 4) & 0x0F0F) | ((b & 0x0F0F) << 4);
    (c >> 8) | (c << 8)
  }

  function BitPulse(t: BitTiming, bit: bool): PulseCode {
    if bit then Pulse(High, t.oneHigh, Low, t.oneLow) else Pulse(High, t.zeroHigh, Low, t.zeroLow)
  }

  /**
    `encode_frame`: the bit-reversed packet read from bit 0 upwards, i.e. the
    packet sent most significant bit first, then the end marker.  A value of
    2048 or more trips the source's assertion, modelled as `None`.
   */
  function EncodeFrame(p: Protocol, value: u16, telemetry: bool): (r: Option<seq<PulseCode>>)
    requires p.IsDShot()
    ensures r.Some? <==> value < 2048
    ensures r.Some? ==> |r.value| == 17 && r.value[16] == EndMarker
    ensures r.Some? ==> forall i: bv16 | i < 16 ::
      CodeAt(r.value, i) == BitPulse(Timing(p), Bit(Packet(value, telemetry), 15 - i))
  {
    if value >= 2048 then None
    else
      var frame := ReverseBits(Packet(value, telemetry));
      Some(seq(16, i requires 0 <= i < 16 => BitPulse(Timing(p), Bit(frame, i as bv16))) + [EndMarker])
  }

  /** The code at a position given as a bit index. */
  function CodeAt(codes: seq<PulseCode>, i: bv16): PulseCode
    requires i as int < |codes|
  {
    codes[i as int]
  }

  function PulseBit(t: BitTiming, c: PulseCode): Option<bv16> {
    if c == BitPulse(t, true) then Some(1)
    else if c == BitPulse(t, false) then Some(0)
    else None
  }

  /** Reassembles bits sent most significant first. */
  function ReadBits(t: BitTiming, codes: seq<PulseCode>): Option<bv16>
    requires |codes| <= 16
  {
    if |codes| == 0 then Some(0)
    else
      var high :- ReadBits(t, codes[..|codes| - 1]);
      var low :- PulseBit(t, codes[|codes| - 1]);
      Some((high << 1) | low)
  }

  /** Receiver side of a DShot frame: shape, bit codes and checksum are all checked. */
  function DecodeFrame(p: Protocol, codes: seq<PulseCode>): Option<(u16, bool)>
    requires p.IsDShot()
  {
    if |codes| != 17 || codes[16] != EndMarker then None
    else
      var packet :- ReadBits(Timing(p), codes[..16]);
      if !ChecksumOk(packet) then None
      else Some((packet >> 5, Bit(packet, 4)))
  }

  /** Appending bit `15 - k` below the top `k` bits of `x` gives its top `k + 1` bits. */
  lemma ShiftStep(x: bv16, k: bv16)
    requires k < 16
    ensures ((x >> (16 - k)) << 1) | (if Bit(x, 15 - k) then 1 else 0) == x >> (15 - k)
  {
  }

  /** Reading the first `k` codes of a frame that sends `x` MSB first yields the top `k` bits of `x`. */
  lemma {:induction false} ReadSentBits(t: BitTiming, codes: seq<PulseCode>, x: bv16, k: bv16)
    requires t.oneHigh != t.zeroHigh
    requires k <= 16 && |codes| >= 16
    requires forall i: bv16 | i < 16 :: CodeAt(codes, i) == BitPulse(t, Bit(x, 15 - i))
    ensures ReadBits(t, codes[..k as int]) == Some(x >> (16 - k))
    decreases k as int
  {
    if k > 0 {
      var j: bv16 := k - 1;
      ReadSentBits(t, codes, x, j);
      ReadBitsStep(t, codes, k);
      var b := Bit(x, 15 - j);
      assert CodeAt(codes, j) == BitPulse(t, b);
      PulseBitOf(t, b);
      ShiftStep(x, j);
    }
  }

  /** A bit pulse reads back as its bit, given the two pulse shapes differ. */
  lemma PulseBitOf(t: BitTiming, b: bool)
    requires t.oneHigh != t.zeroHigh
    ensures PulseBit(t, BitPulse(t, b)) == Some(if b then 1 else 0)
  {
  }

  /** A 17-code train sending a checksum-consistent packet decodes to that packet's fields. */
  lemma DecodeSentPacket(p: Protocol, codes: seq<PulseCode>, packet: bv16)
    requires p.IsDShot() && |codes| == 17 && codes[16] == EndMarker
    requires forall i: bv16 | i < 16 :: CodeAt(codes, i) == BitPulse(Timing(p), Bit(packet, 15 - i))
    requires ChecksumOk(packet)
    ensures DecodeFrame(p, codes) == Some((packet >> 5, Bit(packet, 4)))
  {
    assert ReadBits(Timing(p), codes[..16]) == Some(packet) by {
      ReadSentBits(Timing(p), codes, packet, 16);
    }
  }

  /** Decoding an encoded frame recovers the throttle value and the telemetry flag. */
  lemma FrameRoundTrip(p: Protocol, value: u16, telemetry: bool)
    requires p.IsDShot() && value < 2048
    ensures DecodeFrame(p, EncodeFrame(p, value, telemetry).value) == Some((value, telemetry))
  {
    var packet := Packet(value, telemetry);
    var frame := EncodeFrame(p, value, telemetry).value;
    DecodeSentPacket(p, frame, packet);
  }

  /** `ReadBits` over a non-empty prefix is its shorter prefix shifted up, with the last code's bit below. */
  lemma ReadBitsLast(t: BitTiming, codes: seq<PulseCode>, k: bv16)
    requires 0 < k <= 16 && |codes| >= 16 && ReadBits(t, codes[..k as int]).Some?
    ensures ReadBits(t, codes[..(k - 1) as int]).Some? && PulseBit(t, CodeAt(codes, k - 1)).Some?
    ensures ReadBits(t, codes[..k as int]).value
            == (ReadBits(t, codes[..(k - 1) as int]).value << 1) | PulseBit(t, CodeAt(codes, k - 1)).value
  {
    ReadBitsStep(t, codes, k);
  }

  /** One unfolding of `ReadBits` over the first `k` codes, the last code given by its bit index. */
  lemma ReadBitsStep(t: BitTiming, codes: seq<PulseCode>, k: bv16)
    requires 0 < k <= 16 && |codes| >= 16
    ensures var high := ReadBits(t, codes[..(k - 1) as int]);
      var low := PulseBit(t, CodeAt(codes, k - 1));
      ReadBits(t, codes[..k as int])
        == if high.None? || low.None? then None else Some((high.value << 1) | low.value)
  {
    var n := k as int;
    assert (k - 1) as int == n - 1;
    var prefix := codes[..n];
    assert prefix[..n - 1] == codes[..n - 1];
    assert prefix[n - 1] == CodeAt(codes, k - 1);
  }

  /** Shifting `high` up and placing one bit below moves every bit of `high` up by one. */
  lemma ShiftInBit(high: bv16, low: bv16, k: bv16)
    requires 0 < k <= 16 && low <= 1
    requires k - 1 < 16 ==> high >> (k - 1) == 0
    ensures var y := (high << 1) | low;
      (k < 16 ==> y >> k == 0) && Bit(y, 0) == (low == 1)
      && forall i: bv16 | i < 15 :: Bit(y, i + 1) == Bit(high, i)
  {
  }

  /** Whatever `ReadBits` accepts over the first `k` codes is a train of bit pulses sending its result MSB first. */
  lemma {:induction false} ReadBitsShape(t: BitTiming, codes: seq<PulseCode>, k: bv16, y: bv16)
    requires k <= 16 && |codes| >= 16 && ReadBits(t, codes[..k as int]) == Some(y)
    ensures k < 16 ==> y >> k == 0
    ensures forall i: bv16 | i < k :: CodeAt(codes, i) == BitPulse(t, Bit(y, k - 1 - i))
    decreases k as int
  {
    if k > 0 {
      var j: bv16 := k - 1;
      ReadBitsLast(t, codes, k);
      var high := ReadBits(t, codes[..j as int]).value;
      var low := PulseBit(t, CodeAt(codes, j)).value;
      ReadBitsShape(t, codes, j, high);
      ShiftInBit(high, low, k);
      forall i: bv16 | i < k
        ensures CodeAt(codes, i) == BitPulse(t, Bit(y, k - 1 - i))
      {
        if i < j {
          assert Bit(y, (j - 1 - i) + 1) == Bit(high, j - 1 - i);
        } else {
          assert CodeAt(codes, j) == BitPulse(t, low == 1);
        }
      }
    }
  }

  /** Two frames that send the same packet are the same frame. */
  lemma SentFrameUnique(t: BitTiming, a: seq<PulseCode>, b: seq<PulseCode>, x: bv16)
    requires |a| == |b| == 17 && a[16] == b[16] == EndMarker
    requires forall i: bv16 | i < 16 :: CodeAt(a, i) == BitPulse(t, Bit(x, 15 - i))
    requires forall i: bv16 | i < 16 :: CodeAt(b, i) == BitPulse(t, Bit(x, 15 - i))
    ensures a == b
  {
    forall i | 0 <= i < 16
      ensures a[i] == b[i]
    {
      SmallIndex(i);
      assert CodeAt(a, i as bv16) == CodeAt(b, i as bv16);
    }
  }

  /** Converting a frame position to a bit index and back is the identity. */
  lemma SmallIndex(i: int)
    requires 0 <= i < 16
    ensures (i as bv16) < 16 && (i as bv16) as int == i
  {
  }

  /** Any frame the receiver accepts is exactly the encoding of what it decodes to. */
  lemma FrameDecodeCanonical(p: Protocol, codes: seq<PulseCode>, value: u16, telemetry: bool)
    requires p.IsDShot() && DecodeFrame(p, codes) == Some((value, telemetry))
    ensures value < 2048 && EncodeFrame(p, value, telemetry) == Some(codes)
  {
    var packet := ReadBits(Timing(p), codes[..16]).value;
    assert ChecksumOk(packet) && value == packet >> 5 && telemetry == Bit(packet, 4);
    assert Packet(value, telemetry) == packet by {
      PacketCanonical(packet);
    }
    assert forall i: bv16 | i < 16 :: CodeAt(codes, i) == BitPulse(Timing(p), Bit(packet, 15 - i)) by {
      ReadBitsShape(Timing(p), codes, 16, packet);
    }
    SentFrameUnique(Timing(p), EncodeFrame(p, value, telemetry).value, codes, packet);
  }

  // ---------------------------------------------------------------------
  // Protocol dispatch (`Protocol::encode_pulse`)
  // ---------------------------------------------------------------------

  /** DShot variants always send telemetry = false; `None` is the DShot range assertion. */
  function EncodePulse(p: Protocol, value: u16): (e: Option<seq<PulseCode>>)
    ensures e.Some? <==> !p.IsDShot() || value < 2048
  {
    if p.IsDShot() then EncodeFrame(p, value, false) else Some(OneShotPulse(value))
  }

  /** Whatever `EncodePulse` emits, the receiving ESC reads back as the same value. */
  lemma EncodePulseDecodes(p: Protocol, value: u16)
    requires EncodePulse(p, value).Some?
    ensures p.IsDShot() ==> DecodeFrame(p, EncodePulse(p, value).value) == Some((value, false))
    ensures !p.IsDShot() ==> DecodeOneShot(EncodePulse(p, value).value) == Some(value)
  {
    if p.IsDShot() {
      FrameRoundTrip(p, value, false);
    } else {
      OneShotRoundTrip(value);
    }
  }

  /** Transformed throttles never trip the DShot assertion, and DShot frames carry telemetry = false. */
  lemma TransformedThrottleEncodes(p: Protocol, throttle: u16)
    ensures EncodePulse(p, ThrottleTransform(p, throttle)).Some?
    ensures p.IsDShot() ==>
      DecodeFrame(p, EncodePulse(p, ThrottleTransform(p, throttle)).value) == Some((ThrottleTransform(p, throttle), false))
    ensures !p.IsDShot() ==>
      DecodeOneShot(EncodePulse(p, ThrottleTransform(p, throttle)).value) == Some(ThrottleTransform(p, throttle))
  {
    if p.IsDShot() {
      FrameRoundTrip(p, ThrottleTransform(p, throttle), false);
    }
  }
}
