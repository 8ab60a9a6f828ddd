/**
 * Bytes as the serial link delivers them, and the little-endian integer
 * decoding that Python's `int.from_bytes(bs, byteorder='little')` performs.
 */
module Bytes {

  /** One octet read from the serial port. */
  type Byte = x: int | 0 <= x < 256

  /** An unsigned 16-bit quantity, the width of every multi-byte field of a frame. */
  type U16 = x: int | 0 <= x < 65536

  /** 256 raised to the n-th power: one more than the largest value n bytes can hold. */
  function Pow256(n: nat): (p: nat)
    ensures p > 0
  {
    if n == 0 then 1 else 256 * Pow256(n - 1)
  }

  /** The unsigned value of `bs`, least significant byte first. */
  function FromBytesLE(bs: seq<Byte>): (v: nat)
    ensures v < Pow256(|bs|)
  {
    if bs == [] then 0 else bs[0] + 256 * FromBytesLE(bs[1..])
  }

  /** The n least significant bytes of `v`, least significant first. */
  function ToBytesLE(v: nat, n: nat): (bs: seq<Byte>)
    ensures |bs| == n
  {
    if n == 0 then [] else [v % 256] + ToBytesLE(v / 256, n - 1)
  }

  /** Encoding a value that fits in n bytes and decoding it again gives the value back. */
  lemma {:induction false} FromToBytesLE(v: nat, n: nat)
    requires v < Pow256(n)
    ensures FromBytesLE(ToBytesLE(v, n)) == v
  {
    if n > 0 {
      var bs := ToBytesLE(v, n);
      assert bs[1..] == ToBytesLE(v / 256, n - 1);
      assert v / 256 < Pow256(n - 1);
      FromToBytesLE(v / 256, n - 1);
    }
  }

  /** Decoding a byte string and encoding it again at the same width gives the bytes back. */
  lemma {:induction false} ToFromBytesLE(bs: seq<Byte>)
    ensures ToBytesLE(FromBytesLE(bs), |bs|) == bs
  {
    if bs != [] {
      var v := FromBytesLE(bs);
      var rest := FromBytesLE(bs[1..]);
      assert v == bs[0] + 256 * rest;
      assert v % 256 == bs[0];
      assert v / 256 == rest;
      ToFromBytesLE(bs[1..]);
      assert bs == [bs[0]] + bs[1..];
    }
  }
}
