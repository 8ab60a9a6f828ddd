/**
 * The SDS011 data frame: ten bytes laid out as
 *
 *   0      header 0xAA
 *   1      commander number (passed through)
 *   2, 3   PM2.5 in tenths of a microgram per cubic metre, little-endian
 *   4, 5   PM10, same scaling
 *   6, 7   sensor id, little-endian
 *   8      checksum: the sum of bytes 2 to 7, modulo 256
 *   9      trailer 0xAB
 *
 * A frame is accepted only when header, checksum and trailer all match;
 * its fields are decoded whether or not it is accepted.
 */
module Frame {
  import opened Bytes

  const FRAME_LENGTH: nat := 10
  const HEADER: Byte := 0xAA
  const TRAILER: Byte := 0xAB

  /** The fields a frame carries, in the units of the wire format. */
  datatype Reading = Reading(commander: Byte, pm25Raw: U16, pm10Raw: U16, sensorId: U16)

  // ---------------------------------------------------------------------------
  // Field decoding

  /** A two-byte little-endian field: the low byte plus 256 times the high byte. */
  function UnpackShort(bs: seq<Byte>): (v: U16)
    requires |bs| == 2
    ensures v == bs[0] as int + 256 * bs[1] as int
  {
    assert bs[1..][1..] == [];
    assert FromBytesLE(bs[1..]) == bs[1];
    FromBytesLE(bs)
  }

  /** The two bytes that UnpackShort reads back as `v`. */
  function PackShort(v: U16): (bs: seq<Byte>)
    ensures |bs| == 2 && UnpackShort(bs) == v
  {
    FromToBytesLE(v, 2);
    ToBytesLE(v, 2)
  }

  /** PM2.5 in micrograms per cubic metre: the raw field divided by ten. */
  function Pm25(r: Reading): (c: real)
    ensures 0.0 <= c <= 6553.5
    ensures c * 10.0 == r.pm25Raw as real
  {
    r.pm25Raw as real / 10.0
  }

  /** PM10 in micrograms per cubic metre: the raw field divided by ten. */
  function Pm10(r: Reading): (c: real)
    ensures 0.0 <= c <= 6553.5
    ensures c * 10.0 == r.pm10Raw as real
  {
    r.pm10Raw as real / 10.0
  }

  // ---------------------------------------------------------------------------
  // Checksum

  /** The plain sum of a byte string. */
  function Sum(bs: seq<Byte>): nat
  {
    if bs == [] then 0 else Sum(bs[..|bs| - 1]) + bs[|bs| - 1]
  }

  /**
   * The checksum the datasheet defines: the sum of the data bytes, modulo 256,
   * that is, the one byte that differs from the sum by a multiple of 256.
   */
  function Checksum(payload: seq<Byte>): (c: Byte)
    ensures (Sum(payload) - c) % 256 == 0
  {
    Sum(payload) % 256
  }

  /**
   * Accumulates the data bytes with an 8-bit wrap after every addition, as the
   * reader does, and compares the result with the transmitted checksum.
   * Masking a non-negative integer with 0xFF is taking it modulo 256.
   */
  method CheckChecksum(data: seq<Byte>, checksum: Byte) returns (ok: bool)
    ensures ok <==> Sum(data) % 256 == checksum
  {
    var dataSum: Byte := 0;
    for i := 0 to |data|
      invariant dataSum == Sum(data[..i]) % 256
    {
      assert data[..i + 1][..i] == data[..i];
      dataSum := (dataSum + data[i]) % 256;
    }
    assert data[..|data|] == data;
    ok := dataSum == checksum;
  }

  /** Changing one byte of a payload changes its sum by the difference of the two bytes. */
  lemma {:induction false} SumUpdate(bs: seq<Byte>, k: nat, b: Byte)
    requires k < |bs|
    ensures Sum(bs[k := b]) == Sum(bs) - bs[k] + b
  {
    var n := |bs|;
    var cs := bs[k := b];
    assert cs[..n - 1] == if k == n - 1 then bs[..n - 1] else bs[..n - 1][k := b];
    if k < n - 1 {
      SumUpdate(bs[..n - 1], k, b);
    }
  }

  // ---------------------------------------------------------------------------
  // Validity

  /**
   * Header, checksum and trailer all as the datasheet requires; the checksum
   * matches exactly when the payload sum and the checksum byte agree modulo 256.
   */
  predicate IsGoodFrame(data: seq<Byte>)
    requires |data| == FRAME_LENGTH
    ensures IsGoodFrame(data) <==>
      data[0] == HEADER && data[9] == TRAILER && (Sum(data[2..8]) - data[8]) % 256 == 0
  {
    data[0] == HEADER && Checksum(data[2..8]) == data[8] && data[9] == TRAILER
  }

  /**
   * The fields of a frame, read at their fixed offsets: each 16-bit field is
   * the one value whose two little-endian bytes are the ones at its offset.
   */
  function Decode(data: seq<Byte>): (r: Reading)
    requires |data| == FRAME_LENGTH
    ensures r.commander == data[1]
    ensures PackShort(r.pm25Raw) == data[2..4]
    ensures PackShort(r.pm10Raw) == data[4..6]
    ensures PackShort(r.sensorId) == data[6..8]
  {
    PackShortUnique(data[2..4]);
    PackShortUnique(data[4..6]);
    PackShortUnique(data[6..8]);
    Reading(data[1], UnpackShort(data[2..4]), UnpackShort(data[4..6]), UnpackShort(data[6..8]))
  }

  /** The frame a sensor sends for the given fields; the reader accepts it. */
  function Encode(r: Reading): (data: seq<Byte>)
    ensures |data| == FRAME_LENGTH
    ensures IsGoodFrame(data) && data[1] == r.commander
  {
    var payload := PackShort(r.pm25Raw) + PackShort(r.pm10Raw) + PackShort(r.sensorId);
    var data := [HEADER, r.commander] + payload + [Checksum(payload), TRAILER];
    assert data[2..8] == payload;
    data
  }

  /**
   * One frame as the read loop handles it: every field is decoded, the three
   * checks are evaluated, and the frame is marked bad when any of them fails.
   */
  method ParseFrame(data: seq<Byte>) returns (reading: Reading, badPacket: bool)
    requires |data| == FRAME_LENGTH
    ensures badPacket <==> !(data[0] == HEADER && Checksum(data[2..8]) == data[8] && data[9] == TRAILER)
    ensures reading.commander == data[1]
    ensures reading.pm25Raw == data[2] as int + 256 * data[3] as int
    ensures reading.pm10Raw == data[4] as int + 256 * data[5] as int
    ensures reading.sensorId == data[6] as int + 256 * data[7] as int
  {
    var validHeader := data[0] == HEADER;
    reading := Decode(data);
    var validChecksum := CheckChecksum(data[2..8], data[8]);
    var validTrailer := data[9] == TRAILER;
    badPacket := !validHeader || !validChecksum || !validTrailer;
  }

  // ---------------------------------------------------------------------------
  // Properties

  /** Every reading survives encoding and decoding, and its frame is accepted. */
  lemma {:induction false} DecodeEncode(r: Reading)
    ensures IsGoodFrame(Encode(r))
    ensures Decode(Encode(r)) == r
  {
    var p1, p2, p3 := PackShort(r.pm25Raw), PackShort(r.pm10Raw), PackShort(r.sensorId);
    var payload := p1 + p2 + p3;
    var data := Encode(r);
    assert data[2..8] == payload;
    assert data[2..4] == p1;
    assert data[4..6] == p2;
    assert data[6..8] == p3;
  }

  /** An accepted frame is exactly the encoding of its own fields. */
  lemma {:induction false} EncodeDecode(data: seq<Byte>)
    requires |data| == FRAME_LENGTH
    requires IsGoodFrame(data)
    ensures Encode(Decode(data)) == data
  {
    var r := Decode(data);
    PackShortUnique(data[2..4]);
    PackShortUnique(data[4..6]);
    PackShortUnique(data[6..8]);
    var payload := PackShort(r.pm25Raw) + PackShort(r.pm10Raw) + PackShort(r.sensorId);
    assert payload == data[2..8];
    assert data == [data[0], data[1]] + data[2..8] + [data[8], data[9]];
  }

  /** Two bytes are the packing of their own unpacked value. */
  lemma PackShortUnique(bs: seq<Byte>)
    requires |bs| == 2
    ensures PackShort(UnpackShort(bs)) == bs
  {
    ToFromBytesLE(bs);
  }

  /**
   * Corrupting any single byte of an accepted frame gets the frame rejected,
   * except for the commander byte, which no check covers.
   */
  lemma SingleByteCorruption(data: seq<Byte>, k: nat, b: Byte)
    requires |data| == FRAME_LENGTH
    requires IsGoodFrame(data)
    requires k < FRAME_LENGTH && b != data[k]
    ensures IsGoodFrame(data[k := b]) <==> k == 1
  {
    var bad := data[k := b];
    if 2 <= k < 8 {
      assert bad[2..8] == data[2..8][k - 2 := b];
      SumUpdate(data[2..8], k - 2, b);
      var s := Sum(data[2..8]);
      assert Sum(bad[2..8]) == s - data[k] + b;
      assert -256 < b - data[k] < 256;
    } else {
      assert bad[2..8] == data[2..8];
    }
  }

  /**
   * The frame AA C0 3C 00 96 00 34 12 18 AB carries PM2.5 6.0, PM10 15.0 and
   * sensor id 0x1234; with F2 in place of the checksum 18 it is rejected,
   * because 3C + 00 + 96 + 00 + 34 + 12 is 0x118.
   */
  lemma ExampleFrame()
    ensures var good := [0xAA, 0xC0, 0x3C, 0x00, 0x96, 0x00, 0x34, 0x12, 0x18, 0xAB];
            IsGoodFrame(good) && Decode(good) == Reading(0xC0, 60, 150, 0x1234) &&
            Pm25(Decode(good)) == 6.0 && Pm10(Decode(good)) == 15.0
    ensures !IsGoodFrame([0xAA, 0xC0, 0x3C, 0x00, 0x96, 0x00, 0x34, 0x12, 0xF2, 0xAB])
  {
    var good: seq<Byte> := [0xAA, 0xC0, 0x3C, 0x00, 0x96, 0x00, 0x34, 0x12, 0x18, 0xAB];
    var payload: seq<Byte> := [0x3C, 0x00, 0x96, 0x00, 0x34, 0x12];
    assert good[2..8] == payload;
    forall k | 0 < k <= |payload| ensures payload[..k][..k - 1] == payload[..k - 1] { }
    assert Sum(payload[..1]) == 0x3C;
    assert Sum(payload[..2]) == 0x3C;
    assert Sum(payload[..3]) == 0xD2;
    assert Sum(payload[..4]) == 0xD2;
    assert Sum(payload[..5]) == 0x106;
    assert payload[..6] == payload;
    assert Sum(payload) == 0x118;
    assert good[2..4] == [0x3C, 0x00] && good[4..6] == [0x96, 0x00] && good[6..8] == [0x34, 0x12];
    var bad: seq<Byte> := [0xAA, 0xC0, 0x3C, 0x00, 0x96, 0x00, 0x34, 0x12, 0xF2, 0xAB];
    assert bad[2..8] == payload;
  }
}
