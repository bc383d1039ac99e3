/** Bytes and the two byte-level primitives the decoder and the serialiser share:
    Python's clamping slice and little-endian unsigned integers. */
module Bytes {

  newtype byte = x: int | 0 <= x < 256

  /** 32 raw bytes: a Solana public key or an X25519 encryption key. */
  type Bytes32 = s: seq<byte> | |s| == 32 witness seq(32, _ => 0 as byte)

  function Min(a: nat, b: nat): nat { if a <= b then a else b }

  /** Python's `data[lo:hi]`: both bounds are clamped to the length, so reading
      past the end yields fewer bytes instead of failing. */
  function Slice(data: seq<byte>, lo: nat, hi: nat): (s: seq<byte>)
    requires lo <= hi
    ensures |s| == Min(hi, |data|) - Min(lo, |data|)
    ensures hi <= |data| ==> s == data[lo..hi]
    ensures forall i :: 0 <= i < |s| ==> s[i] == data[lo + i]
  {
    data[Min(lo, |data|)..Min(hi, |data|)]
  }

  function Pow256(n: nat): (p: nat)
    ensures p >= 1
  {
    if n == 0 then 1 else 256 * Pow256(n - 1)
  }

  /** `int.from_bytes(s, "little")`: an unsigned number below 256 to the power of the
      number of bytes read. */
  function FromLE(s: seq<byte>): (n: nat)
    ensures n < Pow256(|s|)
  {
    if s == [] then 0 else s[0] as nat + 256 * FromLE(s[1..])
  }

  /** The `width`-byte little-endian encoding of `n`, as Borsh writes a `u32` (width 4). */
  function ToLE(n: nat, width: nat): (s: seq<byte>)
    ensures |s| == width
  {
    if width == 0 then [] else [(n % 256) as byte] + ToLE(n / 256, width - 1)
  }

  /** Decoding a little-endian encoding gives the number back whenever it fits the width. */
  lemma {:induction false} FromToLE(n: nat, width: nat)
    requires n < Pow256(width)
    ensures FromLE(ToLE(n, width)) == n
  {
    if width == 0 {
    } else {
      var s := ToLE(n, width);
      assert s[1..] == ToLE(n / 256, width - 1);
      assert n / 256 < Pow256(width - 1);
      FromToLE(n / 256, width - 1);
    }
  }

  /** A slice of a slice is a slice of the original. */
  lemma SliceOfSlice(s: seq<byte>, a: nat, b: nat, x: nat, y: nat)
    requires a <= b <= |s| && x <= y <= b - a
    ensures s[a..b][x..y] == s[a + x .. a + y]
  {
    forall j | 0 <= j < y - x ensures s[a..b][x..y][j] == s[a + x .. a + y][j] { }
  }
}
