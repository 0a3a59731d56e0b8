/** Little-endian 64-bit numbers in byte sequences, as `repr(C)` structures lay them out. */
module Bytes {

  type Byte = b: int | 0 <= b < 256

  const SLASH: Byte := 47

  const U64_LIMIT: nat := 0x1_0000_0000_0000_0000

  ghost function Pow256(k: nat): (p: nat)
    ensures p > 0
  {
    if k == 0 then 1 else 256 * Pow256(k - 1)
  }

  /** The low `k` bytes of `v`, least significant first. */
  function EncodeLE(v: nat, k: nat): (s: seq<Byte>)
    ensures |s| == k
  {
    if k == 0 then [] else [v % 256] + EncodeLE(v / 256, k - 1)
  }

  function DecodeLE(s: seq<Byte>): nat {
    if s == [] then 0 else s[0] + 256 * DecodeLE(s[1..])
  }

  lemma {:induction false} DecodeEncodeLE(v: nat, k: nat)
    requires v < Pow256(k)
    ensures DecodeLE(EncodeLE(v, k)) == v
  {
    if k > 0 {
      DecodeEncodeLE(v / 256, k - 1);
      assert EncodeLE(v, k)[1..] == EncodeLE(v / 256, k - 1);
    }
  }

  lemma Pow256Of8()
    ensures Pow256(8) == U64_LIMIT
  {
    assert Pow256(4) == 0x1_0000_0000;
    assert Pow256(8) == 256 * (256 * (256 * (256 * Pow256(4))));
  }

  function U64(v: nat): (s: seq<Byte>)
    ensures |s| == 8
  {
    EncodeLE(v, 8)
  }

  /** The 64-bit number at `off`. */
  function U64At(s: seq<Byte>, off: nat): nat
    requires off + 8 <= |s|
  {
    DecodeLE(s[off..off + 8])
  }

  lemma U64RoundTrip(v: nat)
    requires v < U64_LIMIT
    ensures DecodeLE(U64(v)) == v
  {
    Pow256Of8();
    DecodeEncodeLE(v, 8);
  }

  lemma {:induction false} DecodeBound(s: seq<Byte>)
    ensures DecodeLE(s) < Pow256(|s|)
  {
    if s != [] {
      DecodeBound(s[1..]);
    }
  }

  /** A slice of a slice. */
  lemma SliceSlice<T>(s: seq<T>, a: nat, b: nat, i: nat, j: nat)
    requires a <= b <= |s| && i <= j <= b - a
    ensures s[a..b][i..j] == s[a + i..a + j]
  {
    var x, y := s[a..b][i..j], s[a + i..a + j];
    forall k | 0 <= k < |x| ensures x[k] == y[k] {
      assert x[k] == s[a..b][i + k];
    }
  }
}
