/**
 * Per-hop AEAD state: nonce derivation and the two-counter `OnionCrypto`
 * object. AES-256-GCM itself and the random number generator are not modelled:
 * the cipher is a pair of functions supplied by the caller (`Aead`), the
 * generator's output a value (`RngDraw`).
 */
module Crypto {
  import opened Basics
  import opened Bytes

  /** An AES-256 key: 32 bytes. */
  type AeadKey = s: seq<byte> | |s| == 32 witness seq(32, _ => 0)

  /** A 96-bit AEAD nonce. */
  type Nonce = s: seq<byte> | |s| == 12 witness seq(12, _ => 0)

  /** Length of an AES-256-GCM tag. */
  const TAG_LEN: nat := 16

  type Tag = s: seq<byte> | |s| == TAG_LEN witness seq(16, _ => 0)

  /** `ring::error::Unspecified` carries no information; neither does its wrapper. */
  datatype CryptoError = RingError

  /**
   * AES-256-GCM with empty associated data, as two functions:
   * `seal` gives the buffer after `seal_in_place_separate_tag` and the tag;
   * `open` gives the plaintext slice `open_in_place` returns.
   * `None` is the primitive's failure.
   */
  datatype Aead = Aead(
    seal: (AeadKey, Nonce, seq<byte>) -> Option<(seq<byte>, Tag)>,
    open: (AeadKey, Nonce, seq<byte>) -> Option<seq<byte>>)

  /**
   * Both primitives work in place: sealing keeps the buffer's length, and a
   * successful open yields the leading part of the buffer, all of it but the tag.
   */
  ghost predicate InPlace(aead: Aead)
  {
    (forall k, n, buf :: aead.seal(k, n, buf).Some? ==> |aead.seal(k, n, buf).value.0| == |buf|) &&
    (forall k, n, buf :: aead.open(k, n, buf).Some? ==>
       |buf| >= TAG_LEN && |aead.open(k, n, buf).value| == |buf| - TAG_LEN)
  }

  /** What the system random number generator yields for the two keys; `None` is a failed `fill`. */
  datatype RngDraw = RngDraw(forward: Option<AeadKey>, backward: Option<AeadKey>)

  /** `generate_nonce`: four zero bytes, then the counter in big-endian order. */
  function GenerateNonce(counter: u64): (nonce: Nonce)
    ensures nonce[..4] == [0, 0, 0, 0]
    ensures FromBigEndian(nonce[4..]) == counter
  {
    Pow256Widths();
    ToFromBigEndian(counter, 8);
    var nonce := [0, 0, 0, 0] + ToBigEndian(counter, 8);
    assert nonce[4..] == ToBigEndian(counter, 8);
    nonce
  }

  /** Distinct counter values never give the same nonce. */
  lemma NonceInjective(m: u64, n: u64)
    requires m != n
    ensures GenerateNonce(m) != GenerateNonce(n)
  {
  }

  /** The nonces of the first `count` calls on one direction: counters 0 .. count-1 in order. */
  function NonceHistory(count: nat): (h: seq<Nonce>)
    requires count <= U64_MAX + 1
    ensures |h| == count
  {
    if count == 0 then [] else NonceHistory(count - 1) + [GenerateNonce(count - 1)]
  }

  /** The i-th nonce used is the nonce of counter i. */
  lemma {:induction false} NonceHistoryAt(count: nat, i: nat)
    requires count <= U64_MAX + 1 && i < count
    ensures NonceHistory(count)[i] == GenerateNonce(i)
  {
    if i < count - 1 {
      NonceHistoryAt(count - 1, i);
    }
  }

  /** No nonce appears twice in a history. */
  lemma NonceHistoryDistinct(count: nat, i: nat, j: nat)
    requires count <= U64_MAX + 1 && i < j < count
    ensures NonceHistory(count)[i] != NonceHistory(count)[j]
  {
    NonceHistoryAt(count, i);
    NonceHistoryAt(count, j);
    NonceInjective(i, j);
  }

  /** The nonce of the next call is not in the history so far. */
  lemma NextNonceFresh(count: u64)
    ensures GenerateNonce(count) !in NonceHistory(count)
  {
    forall i | 0 <= i < count
      ensures NonceHistory(count)[i] != GenerateNonce(count)
    {
      NonceHistoryAt(count, i);
    }
  }

  /** Onion encryption state for one hop. */
  class OnionCrypto {
    var forwardKey: AeadKey
    var backwardKey: AeadKey
    var forwardNonce: u64
    var backwardNonce: u64

    /** The forward nonces handed to the cipher so far, oldest first. */
    ghost var usedForwardNonces: seq<Nonce>

    ghost predicate Valid()
      reads this
    {
      usedForwardNonces == NonceHistory(forwardNonce)
    }

    /** Freshly keyed with the given key pair, both counters at 0. */
    ghost predicate IsInitial(forwardKey: AeadKey, backwardKey: AeadKey)
      reads this
    {
      Valid() && this.forwardKey == forwardKey && this.backwardKey == backwardKey &&
      forwardNonce == 0 && backwardNonce == 0 && usedForwardNonces == []
    }

    constructor (forwardKey: AeadKey, backwardKey: AeadKey)
      ensures IsInitial(forwardKey, backwardKey)
    {
      this.forwardKey := forwardKey;
      this.backwardKey := backwardKey;
      forwardNonce := 0;
      backwardNonce := 0;
      usedForwardNonces := [];
    }

    /**
     * `encrypt_forward`: takes the nonce of the current forward counter, advances
     * the counter, then seals a copy of the plaintext and appends the tag.
     */
    method EncryptForward(aead: Aead, plaintext: seq<byte>) returns (r: Result<seq<byte>, CryptoError>)
      requires Valid() && InPlace(aead)
      requires forwardNonce < U64_MAX
      modifies this
      ensures Valid()
      ensures forwardNonce == old(forwardNonce) + 1
      ensures usedForwardNonces == old(usedForwardNonces) + [GenerateNonce(old(forwardNonce))]
      ensures GenerateNonce(old(forwardNonce)) !in old(usedForwardNonces)
      ensures forwardKey == old(forwardKey) && backwardKey == old(backwardKey)
      ensures backwardNonce == old(backwardNonce)
      ensures var sealed := aead.seal(forwardKey, GenerateNonce(old(forwardNonce)), plaintext);
        (sealed.None? ==> r == Err(RingError)) &&
        (sealed.Some? ==> (r == Ok(sealed.value.0 + sealed.value.1) && |r.value| == |plaintext| + TAG_LEN))
    {
      var nonce := GenerateNonce(forwardNonce);
      NextNonceFresh(forwardNonce);
      forwardNonce := forwardNonce + 1;
      usedForwardNonces := usedForwardNonces + [nonce];

      var inOut := plaintext;
      var sealed := aead.seal(forwardKey, nonce, inOut);
      if sealed.None? {
        return Err(RingError);
      }
      inOut := sealed.value.0;
      var tag := sealed.value.1;
      inOut := inOut + tag;
      r := Ok(inOut);
    }

    /**
     * `decrypt_forward` as written: the counter is consumed before the open, so
     * it advances even when authentication fails; on success the whole buffer is
     * returned, the plaintext followed by the TAG_LEN bytes that held the tag.
     */
    method DecryptForwardAsWritten(aead: Aead, ciphertext: seq<byte>) returns (r: Result<seq<byte>, CryptoError>)
      requires Valid() && InPlace(aead)
      requires forwardNonce < U64_MAX
      modifies this
      ensures Valid()
      ensures forwardNonce == old(forwardNonce) + 1
      ensures usedForwardNonces == old(usedForwardNonces) + [GenerateNonce(old(forwardNonce))]
      ensures GenerateNonce(old(forwardNonce)) !in old(usedForwardNonces)
      ensures forwardKey == old(forwardKey) && backwardKey == old(backwardKey)
      ensures backwardNonce == old(backwardNonce)
      ensures var unsealed := aead.open(forwardKey, GenerateNonce(old(forwardNonce)), ciphertext);
        (unsealed.None? ==> r == Err(RingError)) &&
        (unsealed.Some? ==> (r == Ok(unsealed.value + ciphertext[|ciphertext| - TAG_LEN..]) && |r.value| == |ciphertext|))
    {
      var nonce := GenerateNonce(forwardNonce);
      NextNonceFresh(forwardNonce);
      forwardNonce := forwardNonce + 1;
      usedForwardNonces := usedForwardNonces + [nonce];

      var inOut := ciphertext;
      var unsealed := aead.open(forwardKey, nonce, inOut);
      if unsealed.None? {
        return Err(RingError);
      }
      inOut := unsealed.value + inOut[|unsealed.value|..];
      r := Ok(inOut);
    }

    /**
     * `decrypt_forward` returning only the plaintext slice the open yields, so
     * that a successful result is exactly TAG_LEN bytes shorter than its input.
     */
    method DecryptForward(aead: Aead, ciphertext: seq<byte>) returns (r: Result<seq<byte>, CryptoError>)
      requires Valid() && InPlace(aead)
      requires forwardNonce < U64_MAX
      modifies this
      ensures Valid()
      ensures forwardNonce == old(forwardNonce) + 1
      ensures usedForwardNonces == old(usedForwardNonces) + [GenerateNonce(old(forwardNonce))]
      ensures GenerateNonce(old(forwardNonce)) !in old(usedForwardNonces)
      ensures forwardKey == old(forwardKey) && backwardKey == old(backwardKey)
      ensures backwardNonce == old(backwardNonce)
      ensures var unsealed := aead.open(forwardKey, GenerateNonce(old(forwardNonce)), ciphertext);
        (unsealed.None? ==> r == Err(RingError)) &&
        (unsealed.Some? ==> (r == Ok(unsealed.value) && |r.value| == |ciphertext| - TAG_LEN))
    {
      var nonce := GenerateNonce(forwardNonce);
      NextNonceFresh(forwardNonce);
      forwardNonce := forwardNonce + 1;
      usedForwardNonces := usedForwardNonces + [nonce];

      var unsealed := aead.open(forwardKey, nonce, ciphertext);
      if unsealed.None? {
        return Err(RingError);
      }
      r := Ok(unsealed.value);
    }
  }

  /**
   * `OnionCrypto::new`: draws the forward key, then the backward key; either draw
   * failing fails the call. Both counters start at 0.
   */
  method NewOnionCrypto(draw: RngDraw) returns (r: Result<OnionCrypto, CryptoError>)
    ensures r.Ok? <==> draw.forward.Some? && draw.backward.Some?
    ensures r.Err? ==> r.error == RingError
    ensures r.Ok? ==> fresh(r.value) && r.value.IsInitial(draw.forward.value, draw.backward.value)
  {
    if draw.forward.None? {
      return Err(RingError);
    }
    var forwardKey := draw.forward.value;
    if draw.backward.None? {
      return Err(RingError);
    }
    var backwardKey := draw.backward.value;
    var crypto := new OnionCrypto(forwardKey, backwardKey);
    r := Ok(crypto);
  }

  /**
   * Decrypting as written hands back TAG_LEN more bytes than the plaintext
   * the cipher authenticated: for a ciphertext that is nothing but a tag, the
   * caller receives TAG_LEN bytes instead of an empty message.
   */
  lemma DecryptAsWrittenKeepsTag(aead: Aead, key: AeadKey, nonce: Nonce, ciphertext: seq<byte>)
    requires InPlace(aead) && aead.open(key, nonce, ciphertext).Some?
    ensures var plain := aead.open(key, nonce, ciphertext).value;
      plain + ciphertext[|ciphertext| - TAG_LEN..] != plain
  {
  }
}
