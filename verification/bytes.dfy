/**
  Fixed-width integers as bit-vectors and their little-endian byte layouts
  (Rust's `to_le_bytes` / `from_le_bytes`, which are bit-exact).  An `f32`
  travels through the model as its 32-bit pattern.
 */
module Bytes {

  type byte = bv8

  /** Rust `u16::from_le_bytes([lo, hi])`. */
  function FromLe16(lo: byte, hi: byte): (w: bv16)
    ensures (w & 0xFF) == lo as bv16
    ensures (w >> 8) == hi as bv16
  {
    ((hi as bv16) << 8) | (lo as bv16)
  }

  function ToLe16(w: bv16): (bs: seq<byte>)
    ensures |bs| == 2
  {
    [(w & 0xFF) as byte, (w >> 8) as byte]
  }

  function ToLe32(x: bv32): (bs: seq<byte>)
    ensures |bs| == 4
  {
    [(x & 0xFF) as byte, ((x >> 8) & 0xFF) as byte, ((x >> 16) & 0xFF) as byte, (x >> 24) as byte]
  }

  function FromLe32(bs: seq<byte>): bv32
    requires |bs| == 4
  {
    ((bs[3] as bv32) << 24) | ((bs[2] as bv32) << 16) | ((bs[1] as bv32) << 8) | (bs[0] as bv32)
  }

  function ToLe64(x: bv64): (bs: seq<byte>)
    ensures |bs| == 8
  {
    [(x & 0xFF) as byte, ((x >> 8) & 0xFF) as byte, ((x >> 16) & 0xFF) as byte, ((x >> 24) & 0xFF) as byte,
     ((x >> 32) & 0xFF) as byte, ((x >> 40) & 0xFF) as byte, ((x >> 48) & 0xFF) as byte, (x >> 56) as byte]
  }

  function FromLe64(bs: seq<byte>): bv64
    requires |bs| == 8
  {
    ((bs[7] as bv64) << 56) | ((bs[6] as bv64) << 48) | ((bs[5] as bv64) << 40) | ((bs[4] as bv64) << 32) |
    ((bs[3] as bv64) << 24) | ((bs[2] as bv64) << 16) | ((bs[1] as bv64) << 8) | (bs[0] as bv64)
  }

  lemma Le16RoundTrip(w: bv16)
    ensures FromLe16(ToLe16(w)[0], ToLe16(w)[1]) == w
  {
  }

  lemma Le32RoundTrip(x: bv32)
    ensures FromLe32(ToLe32(x)) == x
  {
  }

  lemma Le32Inverse(bs: seq<byte>)
    requires |bs| == 4
    ensures ToLe32(FromLe32(bs)) == bs
  {
    var r := ToLe32(FromLe32(bs));
    assert r[0] == bs[0] && r[1] == bs[1] && r[2] == bs[2] && r[3] == bs[3];
  }

  lemma Le64RoundTrip(x: bv64)
    ensures FromLe64(ToLe64(x)) == x
  {
  }

  lemma Le64InverseLow(bs: seq<byte>)
    requires |bs| == 8
    ensures var r := ToLe64(FromLe64(bs)); r[0] == bs[0] && r[1] == bs[1] && r[2] == bs[2] && r[3] == bs[3]
  {
  }

  lemma Le64InverseHigh(bs: seq<byte>)
    requires |bs| == 8
    ensures var r := ToLe64(FromLe64(bs)); r[4] == bs[4] && r[5] == bs[5] && r[6] == bs[6] && r[7] == bs[7]
  {
  }

  lemma Le64Inverse(bs: seq<byte>)
    requires |bs| == 8
    ensures ToLe64(FromLe64(bs)) == bs
  {
    Le64InverseLow(bs);
    Le64InverseHigh(bs);
  }

  /** Little-endian 16-bit words of an even-length byte string, in order. */
  function Le16Words(bs: seq<byte>): (ws: seq<bv16>)
    requires |bs| % 2 == 0
    ensures |ws| == |bs| / 2
  {
    if |bs| == 0 then [] else [FromLe16(bs[0], bs[1])] + Le16Words(bs[2..])
  }

  /** The little-endian bytes of a sequence of 16-bit words. */
  function Le16Bytes(ws: seq<bv16>): (bs: seq<byte>)
    ensures |bs| == 2 * |ws|
  {
    if |ws| == 0 then [] else ToLe16(ws[0]) + Le16Bytes(ws[1..])
  }

  lemma {:induction false} Le16WordsAt(bs: seq<byte>, i: nat)
    requires |bs| % 2 == 0 && i < |bs| / 2
    ensures Le16Words(bs)[i] == FromLe16(bs[2 * i], bs[2 * i + 1])
  {
    if i > 0 {
      Le16WordsAt(bs[2..], i - 1);
    }
  }

  lemma {:induction false} Le16WordsRoundTrip(ws: seq<bv16>)
    ensures Le16Words(Le16Bytes(ws)) == ws
  {
    if |ws| > 0 {
      var bs := Le16Bytes(ws);
      assert bs[2..] == Le16Bytes(ws[1..]);
      Le16RoundTrip(ws[0]);
      Le16WordsRoundTrip(ws[1..]);
    }
  }

  lemma {:induction false} Le16BytesRoundTrip(bs: seq<byte>)
    requires |bs| % 2 == 0
    ensures Le16Bytes(Le16Words(bs)) == bs
  {
    if |bs| > 0 {
      var ws := Le16Words(bs);
      assert ws[1..] == Le16Words(bs[2..]);
      assert ToLe16(FromLe16(bs[0], bs[1])) == bs[..2];
      Le16BytesRoundTrip(bs[2..]);
      assert bs == bs[..2] + bs[2..];
    }
  }

  /** Little-endian 32-bit values of a byte string whose length is a multiple of four, in order. */
  function Le32Words(bs: seq<byte>): (xs: seq<bv32>)
    requires |bs| % 4 == 0
    ensures |xs| == |bs| / 4
  {
    if |bs| == 0 then [] else [FromLe32(bs[..4])] + Le32Words(bs[4..])
  }

  /** The little-endian bytes of a sequence of 32-bit values (`flat_map(f32::to_le_bytes)`). */
  function Le32Bytes(xs: seq<bv32>): (bs: seq<byte>)
    ensures |bs| == 4 * |xs|
  {
    if |xs| == 0 then [] else ToLe32(xs[0]) + Le32Bytes(xs[1..])
  }

  lemma {:induction false} Le32WordsRoundTrip(xs: seq<bv32>)
    ensures Le32Words(Le32Bytes(xs)) == xs
  {
    if |xs| > 0 {
      var bs := Le32Bytes(xs);
      assert bs[..4] == ToLe32(xs[0]);
      assert bs[4..] == Le32Bytes(xs[1..]);
      Le32RoundTrip(xs[0]);
      Le32WordsRoundTrip(xs[1..]);
    }
  }

  lemma {:induction false} Le32BytesRoundTrip(bs: seq<byte>)
    requires |bs| % 4 == 0
    ensures Le32Bytes(Le32Words(bs)) == bs
  {
    if |bs| > 0 {
      var xs := Le32Words(bs);
      assert xs[1..] == Le32Words(bs[4..]);
      Le32Inverse(bs[..4]);
      Le32BytesRoundTrip(bs[4..]);
      assert bs == bs[..4] + bs[4..];
    }
  }

  /** Splitting the bytes of a concatenation splits the values. */
  lemma {:induction false} Le32BytesAppend(xs: seq<bv32>, ys: seq<bv32>)
    ensures Le32Bytes(xs + ys) == Le32Bytes(xs) + Le32Bytes(ys)
  {
    if |xs| > 0 {
      assert (xs + ys)[1..] == xs[1..] + ys;
      Le32BytesAppend(xs[1..], ys);
    } else {
      assert xs + ys == ys;
    }
  }
}
