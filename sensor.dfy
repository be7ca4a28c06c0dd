/** Decoding of one accelerometer read: the six bytes starting at register
    ACCEL_XOUT_H are three big-endian 16-bit words, X then Y then Z. */
module Sensor {
  import opened CTypes

  /** One decoded sample (`accel_x`, `accel_y`, `accel_z`). */
  datatype Sample = Sample(x: int16, y: int16, z: int16)

  /** Number of bytes read from the sensor per sample. */
  const READ_LEN: nat := 6

  /** One axis, `accel = (hi << 8) | lo`: the bytes are promoted to `int`, the high
      byte shifted into bits 15..8 and or-ed with the low byte, and the `int` is
      stored into a `short`. */
  function DecodeAxis(hi: uint8, lo: uint8): (v: int16)
    ensures v % 0x1_0000 == hi * 256 + lo
  {
    assert Pow2(8) == 256;
    BitOrDisjoint(hi, lo, 8);
    WordRange(hi, lo);
    ToShortOfWord(hi * 256 + lo);
    ToShort(BitOr(ShiftLeft(hi, 8), lo))
  }

  /** The decoded axis is `256 * hi + lo` read as a two's-complement 16-bit value:
      non-negative exactly when the sign bit (bit 7 of the high byte) is clear. */
  lemma {:induction false} DecodeAxisValue(hi: uint8, lo: uint8)
    ensures DecodeAxis(hi, lo) == if hi < 0x80 then hi * 256 + lo else hi * 256 + lo - 0x1_0000
    ensures DecodeAxis(hi, lo) < 0 <==> hi >= 0x80
  {
    assert Pow2(8) == 256;
    BitOrDisjoint(hi, lo, 8);
    WordRange(hi, lo);
    ToShortOfWord(hi * 256 + lo);
  }

  lemma WordRange(hi: uint8, lo: uint8)
    ensures 0 <= hi * 256 + lo < 0x1_0000
    ensures hi * 256 + lo <= INT16_MAX <==> hi < 0x80
  {
  }

  lemma ToShortOfWord(n: int)
    requires 0 <= n < 0x1_0000
    ensures ToShort(n) == if n <= INT16_MAX then n else n - 0x1_0000
  {
    assert n % 0x1_0000 == n;
  }

  /** The extremes -32768 and 32767, and the all-ones and all-zeros patterns -1 and 0. */
  lemma DecodeAxisBounds()
    ensures DecodeAxis(0x80, 0x00) == INT16_MIN
    ensures DecodeAxis(0x7F, 0xFF) == INT16_MAX
    ensures DecodeAxis(0xFF, 0xFF) == -1
    ensures DecodeAxis(0x00, 0x00) == 0
  {
    DecodeAxisValue(0x80, 0x00);
    DecodeAxisValue(0x7F, 0xFF);
    DecodeAxisValue(0xFF, 0xFF);
    DecodeAxisValue(0x00, 0x00);
  }

  /** The sensor's big-endian encoding of a signed 16-bit value: the partner of DecodeAxis. */
  function EncodeAxis(v: int16): (bytes: (uint8, uint8))
  {
    var u: int := if v < 0 then v as int + 0x1_0000 else v as int;
    (u / 256, u % 256)
  }

  /** Every value a `short` can hold is decoded from exactly its own two bytes. */
  lemma {:induction false} DecodeEncodeAxis(v: int16)
    ensures DecodeAxis(EncodeAxis(v).0, EncodeAxis(v).1) == v
  {
    DecodeAxisValue(EncodeAxis(v).0, EncodeAxis(v).1);
  }

  lemma {:induction false} EncodeDecodeAxis(hi: uint8, lo: uint8)
    ensures EncodeAxis(DecodeAxis(hi, lo)) == (hi, lo)
  {
    DecodeAxisValue(hi, lo);
  }

  /** Lines 279-281: the three axes from the first six bytes of the read buffer. */
  function DecodeSample(data: seq<uint8>): Sample
    requires |data| >= READ_LEN
  {
    Sample(DecodeAxis(data[0], data[1]), DecodeAxis(data[2], data[3]), DecodeAxis(data[4], data[5]))
  }

  /** The six bytes the sensor sends for a sample. */
  function EncodeSample(s: Sample): (data: seq<uint8>)
    ensures |data| == READ_LEN
  {
    [EncodeAxis(s.x).0, EncodeAxis(s.x).1,
     EncodeAxis(s.y).0, EncodeAxis(s.y).1,
     EncodeAxis(s.z).0, EncodeAxis(s.z).1]
  }

  /** Every sample is the decoding of the six bytes the sensor would send for it. */
  lemma {:induction false} DecodeSampleRoundTrip(s: Sample)
    ensures DecodeSample(EncodeSample(s)) == s
  {
    DecodeEncodeAxis(s.x);
    DecodeEncodeAxis(s.y);
    DecodeEncodeAxis(s.z);
  }

  /** Distinct six-byte reads decode to distinct samples. */
  lemma {:induction false} EncodeSampleRoundTrip(data: seq<uint8>)
    requires |data| == READ_LEN
    ensures EncodeSample(DecodeSample(data)) == data
  {
    EncodeDecodeAxis(data[0], data[1]);
    EncodeDecodeAxis(data[2], data[3]);
    EncodeDecodeAxis(data[4], data[5]);
  }
}
