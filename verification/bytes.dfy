/**
 * Fixed-width unsigned integers and their big-endian byte encodings
 * (Rust's `to_be_bytes` / `from_be_bytes`).
 */
module Bytes {

  type byte = b: int | 0 <= b < 0x100
  type u16 = n: int | 0 <= n < 0x1_0000
  type u32 = n: int | 0 <= n < 0x1_0000_0000
  type u64 = n: int | 0 <= n < 0x1_0000_0000_0000_0000

  const U32_MAX: u32 := 0xFFFF_FFFF
  const U64_MAX: u64 := 0xFFFF_FFFF_FFFF_FFFF

  /** 256 to the power `k`: the number of values `k` bytes can hold. */
  function Pow256(k: nat): (p: nat)
    ensures p > 0
  {
    if k == 0 then 1 else 256 * Pow256(k - 1)
  }

  /** The low-order `width` bytes of `n`, most significant first. */
  function ToBigEndian(n: nat, width: nat): (s: seq<byte>)
    ensures |s| == width
  {
    if width == 0 then [] else ToBigEndian(n / 256, width - 1) + [n % 256]
  }

  /** The number a big-endian byte string denotes. */
  function FromBigEndian(s: seq<byte>): (n: nat)
    ensures n < Pow256(|s|)
  {
    if s == [] then 0
    else
      var hi := FromBigEndian(s[..|s| - 1]);
      assert hi * 256 <= (Pow256(|s| - 1) - 1) * 256;
      hi * 256 + s[|s| - 1]
  }

  /** Decoding undoes encoding for every number that fits the width. */
  lemma {:induction false} ToFromBigEndian(n: nat, width: nat)
    requires n < Pow256(width)
    ensures FromBigEndian(ToBigEndian(n, width)) == n
  {
    if width > 0 {
      var s := ToBigEndian(n, width);
      assert s[..width - 1] == ToBigEndian(n / 256, width - 1);
      ToFromBigEndian(n / 256, width - 1);
    }
  }

  /** Encoding undoes decoding: a byte string is the encoding of its own value. */
  lemma {:induction false} FromToBigEndian(s: seq<byte>)
    ensures ToBigEndian(FromBigEndian(s), |s|) == s
  {
    if s != [] {
      var k := |s| - 1;
      var hi := FromBigEndian(s[..k]);
      var n := hi * 256 + s[k];
      assert n / 256 == hi && n % 256 == s[k];
      FromToBigEndian(s[..k]);
      assert s == s[..k] + [s[k]];
    }
  }

  /** Two numbers that fit the width have the same encoding only if they are equal. */
  lemma ToBigEndianInjective(m: nat, n: nat, width: nat)
    requires m < Pow256(width) && n < Pow256(width)
    requires ToBigEndian(m, width) == ToBigEndian(n, width)
    ensures m == n
  {
    ToFromBigEndian(m, width);
    ToFromBigEndian(n, width);
  }

  /** The two widths the core uses. */
  lemma Pow256Widths()
    ensures Pow256(2) == 0x1_0000
    ensures Pow256(8) == 0x1_0000_0000_0000_0000
  {
  }
}
