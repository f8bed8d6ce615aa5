/**
 * Constant-time byte comparison and key zeroisation. Bytes are `bv8` here,
 * not `Bytes.byte` as in the other modules, because the comparison works with
 * bitwise XOR and OR; a `bv8` holds the same 256 values as a `Bytes.byte`.
 */
module Security {

  /** The accumulator after `k` steps: the OR of the XORs of the first `k` byte pairs. */
  function XorAccumulator(a: seq<bv8>, b: seq<bv8>, k: nat): (acc: bv8)
    requires k <= |a| && k <= |b|
  {
    if k == 0 then 0 else XorAccumulator(a, b, k - 1) | (a[k - 1] ^ b[k - 1])
  }

  /** The accumulator is zero exactly when the first `k` bytes agree. */
  lemma {:induction false} XorAccumulatorZero(a: seq<bv8>, b: seq<bv8>, k: nat)
    requires k <= |a| && k <= |b|
    ensures XorAccumulator(a, b, k) == 0 <==> a[..k] == b[..k]
  {
    if k > 0 {
      XorAccumulatorZero(a, b, k - 1);
      assert a[..k] == a[..k - 1] + [a[k - 1]];
      assert b[..k] == b[..k - 1] + [b[k - 1]];
      if a[..k] == b[..k] {
        assert a[..k - 1] == a[..k][..k - 1] == b[..k][..k - 1] == b[..k - 1];
        assert a[k - 1] == a[..k][k - 1] == b[..k][k - 1] == b[k - 1];
      }
    }
  }

  /**
   * `constant_time_compare`: false for different lengths, otherwise every byte
   * pair is folded into the accumulator and the answer is whether it stayed zero.
   */
  method ConstantTimeCompare(a: seq<bv8>, b: seq<bv8>) returns (equal: bool)
    ensures equal <==> a == b
  {
    if |a| != |b| {
      return false;
    }
    var result: bv8 := 0;
    for i := 0 to |a|
      invariant result == XorAccumulator(a, b, i)
    {
      result := result | (a[i] ^ b[i]);
    }
    XorAccumulatorZero(a, b, |a|);
    assert a[..|a|] == a && b[..|b|] == b;
    equal := result == 0;
  }

  const KEY_LEN: nat := 32

  /** A key of all zero bytes. */
  const ZERO_KEY: seq<bv8> := seq(KEY_LEN, _ => 0)

  /** A 32-byte secret that is wiped in place. */
  class SecretData {
    const key: array<bv8>

    ghost predicate Valid()
      reads this
    {
      key.Length == KEY_LEN
    }

    constructor (bytes: seq<bv8>)
      requires |bytes| == KEY_LEN
      ensures Valid() && fresh(key) && key[..] == bytes
    {
      key := new bv8[KEY_LEN](i requires 0 <= i < KEY_LEN => bytes[i]);
    }

    /** `zeroize`: every byte of the key is overwritten with zero. */
    method Zeroize()
      requires Valid()
      modifies key
      ensures key[..] == ZERO_KEY
      ensures old(key[..]) == ZERO_KEY ==> key[..] == old(key[..])
    {
      for i := 0 to KEY_LEN
        invariant forall j :: 0 <= j < i ==> key[j] == 0
      {
        key[i] := 0;
      }
    }

    /** `drop`: the key is wiped on every destruction path. */
    method Drop()
      requires Valid()
      modifies key
      ensures key[..] == ZERO_KEY
    {
      Zeroize();
    }
  }
}
