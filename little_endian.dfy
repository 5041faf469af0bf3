/** Bytes and the little-endian layout BitConverter uses on a little-endian host. */
module Bytes {

  type byte = b: int | 0 <= b < 256

  function Pow256(w: nat): (p: nat)
    ensures p >= 1
  {
    if w == 0 then 1 else 256 * Pow256(w - 1)
  }

  /** The `w` low-order bytes of `u`, least significant first. */
  function LE(u: nat, w: nat): (bs: seq<byte>)
    ensures |bs| == w
  {
    if w == 0 then [] else [u % 256] + LE(u / 256, w - 1)
  }

  /** The unsigned value of a little-endian byte sequence. */
  function FromLE(bs: seq<byte>): (u: nat)
  {
    if |bs| == 0 then 0 else bs[0] + 256 * FromLE(bs[1..])
  }

  lemma {:induction false} FromLEBound(bs: seq<byte>)
    ensures FromLE(bs) < Pow256(|bs|)
  {
    if |bs| > 0 {
      FromLEBound(bs[1..]);
    }
  }

  /** Reading back the bytes of a value that fits in `w` bytes gives the value. */
  lemma {:induction false} FromLEOfLE(u: nat, w: nat)
    requires u < Pow256(w)
    ensures FromLE(LE(u, w)) == u
  {
    if w > 0 {
      FromLEOfLE(u / 256, w - 1);
      assert LE(u, w)[1..] == LE(u / 256, w - 1);
    }
  }

  /** Every byte sequence is the encoding of the value it denotes. */
  lemma {:induction false} LEOfFromLE(bs: seq<byte>)
    ensures LE(FromLE(bs), |bs|) == bs
  {
    if |bs| > 0 {
      LEOfFromLE(bs[1..]);
      var u := FromLE(bs);
      assert u % 256 == bs[0] && u / 256 == FromLE(bs[1..]);
      assert [bs[0]] + bs[1..] == bs;
    }
  }

  /** Values of a signed or unsigned integer type of `w` bytes. */
  predicate InSignedRange(x: int, w: nat)
    requires w >= 1
  {
    -(Pow256(w) / 2) <= x < Pow256(w) / 2
  }

  predicate InUnsignedRange(x: int, w: nat)
  {
    0 <= x < Pow256(w)
  }

  /** The bit pattern of `x` in `w` bytes: two's complement for a negative signed value, the value
      itself otherwise. */
  function Wrap(x: int, w: nat): (u: nat)
    requires w >= 1 && -(Pow256(w) / 2) <= x < Pow256(w)
    ensures u < Pow256(w)
  {
    if x < 0 then x + Pow256(w) else x
  }

  /** Reinterpret `w` bytes' unsigned value as a signed two's-complement value. */
  function Signed(u: nat, w: nat): int
    requires w >= 1
  {
    if u >= Pow256(w) / 2 then u - Pow256(w) else u
  }

  /** Wrapping then reinterpreting as signed is the identity on the signed range. */
  lemma SignedOfWrap(x: int, w: nat)
    requires w >= 1 && InSignedRange(x, w)
    ensures Signed(Wrap(x, w), w) == x
  {
  }
}
