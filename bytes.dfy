/**
 * Bytes, Python slicing and the big-endian integer codec that `struct.pack`
 * and `struct.unpack` with the ">H" and ">L" formats perform.
 */
module Bytes {

  /** One octet of a Python `bytes` value. */
  type byte = b: int | 0 <= b < 256

  function Min(a: int, b: int): int { if a <= b then a else b }

  function Max(a: int, b: int): int { if a <= b then b else a }

  function Zeros(n: nat): (z: seq<byte>)
    ensures |z| == n && forall i :: 0 <= i < n ==> z[i] == 0
  {
    seq(n, _ => 0)
  }

  /** Python's `s[i:j]` for non-negative bounds: both ends are clamped to the length. */
  function Slice<T>(s: seq<T>, i: nat, j: nat): (r: seq<T>)
    ensures |r| == Max(0, Min(j, |s|) - Min(i, |s|))
  {
    var lo := Min(i, |s|);
    s[lo..Max(lo, Min(j, |s|))]
  }

  /** Python's `s[0:stop]`: a negative stop counts back from the end. */
  function SliceTo<T>(s: seq<T>, stop: int): (r: seq<T>)
    ensures r <= s
    ensures 0 <= stop ==> |r| == Min(stop, |s|)
    ensures stop < 0 ==> |r| == Max(|s| + stop, 0)
  {
    if 0 <= stop then s[..Min(stop, |s|)] else s[..Max(|s| + stop, 0)]
  }

  function Pow256(k: nat): (p: nat)
    ensures p >= 1
  {
    if k == 0 then 1 else 256 * Pow256(k - 1)
  }

  /** The unsigned integer a byte string spells, most significant byte first. */
  function FromBigEndian(bs: seq<byte>): (n: nat)
    ensures n < Pow256(|bs|)
  {
    if bs == [] then 0
    else
      var init := FromBigEndian(bs[..|bs| - 1]);
      assert init * 256 <= (Pow256(|bs| - 1) - 1) * 256;
      init * 256 + bs[|bs| - 1]
  }

  /** The `width`-byte big-endian encoding of `n` (what `struct.pack(">L", n)` gives for width 4). */
  function ToBigEndian(n: nat, width: nat): (bs: seq<byte>)
    requires n < Pow256(width)
    ensures |bs| == width
  {
    if width == 0 then []
    else ToBigEndian(n / 256, width - 1) + [n % 256]
  }

  /** Reading back an encoding gives the number encoded. */
  lemma {:induction false} FromToBigEndian(n: nat, width: nat)
    requires n < Pow256(width)
    ensures FromBigEndian(ToBigEndian(n, width)) == n
  {
    if width > 0 {
      var bs := ToBigEndian(n, width);
      assert bs[..width - 1] == ToBigEndian(n / 256, width - 1);
      FromToBigEndian(n / 256, width - 1);
    }
  }

  /** Encoding a decoded byte string at its own width gives the string back. */
  lemma {:induction false} ToFromBigEndian(bs: seq<byte>)
    ensures ToBigEndian(FromBigEndian(bs), |bs|) == bs
  {
    if bs != [] {
      var init := bs[..|bs| - 1];
      var n := FromBigEndian(bs);
      assert n / 256 == FromBigEndian(init) && n % 256 == bs[|bs| - 1];
      ToFromBigEndian(init);
      assert bs == init + [bs[|bs| - 1]];
    }
  }
}
