/** Fixed-width unsigned integers as little-endian byte strings: the `L` fields
    of the frame header. The header format `=6sLL` packs in the host's byte
    order; this model fixes that order to little-endian. */
module LittleEndian {

  type Byte = b: int | 0 <= b < 256

  /** An unsigned 32-bit value, the range of a `L` field packed with `=`. */
  type U32 = x: int | 0 <= x < 0x1_0000_0000

  function Pow256(n: nat): (p: nat)
    ensures p > 0
  {
    if n == 0 then 1 else 256 * Pow256(n - 1)
  }

  lemma Pow256Four()
    ensures Pow256(4) == 0x1_0000_0000
  {
    assert Pow256(1) == 256;
    assert Pow256(2) == 0x1_0000;
    assert Pow256(3) == 0x100_0000;
  }

  /** The n low-order bytes of x, least significant first. */
  function ToLE(x: nat, n: nat): (bs: seq<Byte>)
    ensures |bs| == n
  {
    if n == 0 then [] else [x % 256] + ToLE(x / 256, n - 1)
  }

  /** The value of a little-endian byte string. */
  function FromLE(bs: seq<Byte>): (x: nat)
    ensures x < Pow256(|bs|)
  {
    if bs == [] then 0 else bs[0] + 256 * FromLE(bs[1..])
  }

  /** Encoding a value that fits in n bytes and decoding it gives it back. */
  lemma {:induction false} FromToLE(x: nat, n: nat)
    requires x < Pow256(n)
    ensures FromLE(ToLE(x, n)) == x
  {
    if n > 0 {
      var bs := ToLE(x, n);
      assert bs[0] == x % 256 && bs[1..] == ToLE(x / 256, n - 1);
      FromToLE(x / 256, n - 1);
    }
  }

  /** Decoding n bytes and encoding the value in n bytes gives the bytes back. */
  lemma {:induction false} ToFromLE(bs: seq<Byte>)
    ensures ToLE(FromLE(bs), |bs|) == bs
  {
    if bs != [] {
      var x := FromLE(bs);
      assert x % 256 == bs[0] && x / 256 == FromLE(bs[1..]);
      ToFromLE(bs[1..]);
    }
  }

  /** The four-byte field of a 32-bit value. */
  function U32ToLE(x: U32): (bs: seq<Byte>)
    ensures |bs| == 4
  {
    ToLE(x, 4)
  }

  /** The value of a four-byte field. */
  function U32FromLE(bs: seq<Byte>): (x: U32)
    requires |bs| == 4
  {
    Pow256Four();
    FromLE(bs)
  }

  /** A 32-bit field round-trips in both directions: the four-byte encodings
      are exactly the 32-bit values. */
  lemma U32RoundTrip(x: U32, bs: seq<Byte>)
    requires |bs| == 4
    ensures U32FromLE(U32ToLE(x)) == x
    ensures U32ToLE(U32FromLE(bs)) == bs
    ensures U32FromLE(bs) == x <==> U32ToLE(x) == bs
  {
    Pow256Four();
    FromToLE(x, 4);
    ToFromLE(bs);
  }
}
