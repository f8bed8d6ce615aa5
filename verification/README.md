# A verified model of the ShadowCircuit onion-routing client core

This Dafny project models the parts of the ShadowCircuit client (a Tor-style
onion-routing client written in Rust) that the code actually implements. These
are byte-level codecs and small sequential state machines:

- **Cells** (`cells.dfy`): the cell command values of section 3 of tor-spec.txt
  (RELAY = 3, CREATE2 = 10, CREATED2 = 11). It also covers building and serialising
  the ntor CREATE2 body, and parsing the CREATED2 reply (HLEN = 64, then SERVER_PK
  and AUTH, sections 5.1 and 5.1.4 of tor-spec.txt).
- **Crypto** (`crypto.dfy`): the 96-bit nonce built from a 64-bit counter, and
  `OnionCrypto`, the per-hop object holding two keys and two counters. Every
  forward call uses up exactly one nonce.
- **Circuits** (`circuits.dfy`): the circuit manager. It covers id allocation,
  building hops one after another, the circuit table, and the Building → Ready
  step.
- **Directory** (`directory.dfy`): the directory client's consensus cache and
  per-hop relay selection.
- **Security** (`security.dfy`): constant-time comparison, and wiping a 32-byte
  key in place.
- **Socks5** (`socks5.dfy`): the SOCKS5 greeting and method selection of section 3
  of RFC 1928, as the proxy performs it.
- `basics.dfy` holds Option/Result and the clock and address values.
  `bytes.dfy` holds the fixed-width integers and their big-endian encodings, with
  both round trips proved.

Code that changes state becomes a class whose methods say exactly what the new
state is:

- `OnionCrypto`, `CircuitManager`, `DirectoryClient` and `SecretData` are classes.
- The SOCKS5 connection is a class too: the client's bytes, a read cursor and an
  output buffer.

Pure code becomes functions and lemmas.

The crate calls out to code the model cannot see, and leaves some helpers as
`todo!()`. These become values or functions that the caller passes in:

- AES-256-GCM seal/open (`Crypto.Aead`);
- the random key draws (`Crypto.RngDraw`);
- the directory helpers `is_consensus_fresh`, `fetch_from_authority`,
  `validate_consensus`, `is_relay_suitable` and `select_weighted_relay`
  (`Directory.DirectoryHelpers`, plus a freshness flag);
- relay selection, key generation and `perform_handshakes` inside
  `create_circuit`;
- the clocks.

The only thing the model assumes about the suitability test is the set of flags
that the relay-reachability integration test checks for each hop.

Notes on the code as it stands:

- `encrypt_forward` uses nonce n and the following `decrypt_forward` on the same
  object uses nonce n+1. So an encrypt-then-decrypt round trip on one object does
  not follow from the code, and the model does not state it.
- The unit test in `tests/unit/handshake_unit_tests.rs` builds a CREATED2 body
  without the HLEN prefix. `Cells.UnprefixedCreated2Rejected` shows that the
  parser always refuses such a body. The model follows the in-file test of
  `src/network/cells.rs` instead.
- Several things are not implemented anywhere in the code, so they are not
  modelled:
  - bandwidth-weighted sampling;
  - sticky guards;
  - hop distinctness and exit policies;
  - layered multi-hop encryption;
  - DESTROY handling and streams.

## Model

| member | source | states |
|---|---|---|
| Bytes.ToBigEndian | src/network/cells.rs:34-35 | The encoding of a number at a given width is exactly that many bytes. |
| Bytes.FromBigEndian | src/network/cells.rs:52 | The value a big-endian byte string denotes is below 256^length, so two bytes decode to a u16. |
| Bytes.ToFromBigEndian | src/network/cells.rs:88-92 | Decoding the big-endian encoding of any number that fits the width gives the number back. |
| Bytes.FromToBigEndian | src/network/cells.rs:52 | Encoding the decoded value of a byte string gives the same byte string back. Together with ToFromBigEndian, the two directions are a bijection. |
| Bytes.ToBigEndianInjective | src/crypto/mod.rs:25 | Two numbers that fit the width have the same encoding only if they are equal. |
| Cells.NewCreate2 | src/network/cells.rs:23-30 | A new CREATE2 body always has HTYPE 2 (ntor), and its handshake data is exactly the 32 key bytes. |
| Cells.Create2ToBytes | src/network/cells.rs:32-38 | The output is 4 + data-length bytes. Bytes 0..2 decode to HTYPE. Bytes 2..4 decode to the data length truncated to 16 bits. Bytes 4.. are the handshake data unchanged. |
| Cells.NewCreate2Bytes | src/network/cells.rs:79-96 | A serialised new CREATE2 body is 36 bytes, HTYPE decodes to 2, HLEN decodes to 32, and the rest is the client's public key. |
| Cells.Created2FromBytes | src/network/cells.rs:48-69 | A payload under 2 bytes fails with "too short". Any HLEN other than 64 fails with "invalid HLEN", even on payloads too short for the body. HLEN = 64 with fewer than 66 bytes fails with "too short". The parse succeeds iff HLEN = 64 and there are at least 66 bytes. On success the key is bytes 2..34 and AUTH is bytes 34..66. |
| Cells.Created2RoundTrip | src/network/cells.rs:99-117 | Parsing HLEN ‖ SERVER_PK ‖ AUTH (32-byte AUTH), followed by any trailing bytes, returns that key and that AUTH. |
| Cells.Created2Accepted | src/network/cells.rs:56-68 | Every accepted payload is HLEN ‖ SERVER_PK ‖ AUTH of the parsed cell, followed by ignored trailing bytes. This is the converse of the round trip. |
| Cells.UnprefixedCreated2Rejected | src/network/cells.rs:52-58 | A 64-byte SERVER_PK ‖ AUTH body without the HLEN prefix is always rejected. |
| Crypto.GenerateNonce | src/crypto/mod.rs:23-27 | The nonce is 12 bytes. Bytes 0..4 are zero, and bytes 4..12 decode (big-endian) to the counter. |
| Crypto.NonceInjective | src/crypto/mod.rs:23-27 | Distinct counter values give distinct nonces. |
| Crypto.NonceHistoryAt | src/crypto/mod.rs:56-57 | The i-th forward nonce an object uses is the nonce of counter i. |
| Crypto.NonceHistoryDistinct | src/crypto/mod.rs:72-73 | No two forward calls on one object use the same nonce. |
| Crypto.NextNonceFresh | src/crypto/mod.rs:56-57 | The nonce the next forward call takes was not used by any earlier forward call. |
| Crypto.OnionCrypto.constructor | src/crypto/mod.rs:46-51 | A new object holds the given keys, both counters are 0, and no nonce has been used yet. |
| Crypto.NewOnionCrypto | src/crypto/mod.rs:39-52 | `new` succeeds iff both key draws succeed. On success the object is fresh, keyed with the forward draw and then the backward draw, with both counters at 0. |
| Crypto.OnionCrypto.EncryptForward | src/crypto/mod.rs:55-68 | Seals with the nonce of the current forward counter, and always advances that counter by exactly 1. The nonce used is new to this object. Both keys and the backward counter are unchanged. The result is the sealed buffer (same length as the plaintext) followed by the 16-byte tag, or CryptoError when sealing fails. |
| Crypto.OnionCrypto.DecryptForwardAsWritten | src/crypto/mod.rs:71-83 | Opens with the nonce of the current forward counter. The counter advances by 1 even when authentication fails. On success the whole buffer comes back: the plaintext plus the 16 bytes after it, so the result is as long as the ciphertext. |
| Crypto.OnionCrypto.DecryptForward | src/crypto/mod.rs:71-83 | Has the same nonce discipline and leaves the same fields unchanged as the as-written version. On success it returns exactly the plaintext, 16 bytes shorter than the ciphertext. |
| Crypto.DecryptAsWrittenKeepsTag | src/crypto/mod.rs:76-82 | Whenever opening succeeds, the buffer the as-written method returns differs from the plaintext. |
| Circuits.FirstFailedHop | src/circuit/mod.rs:85-87 | Finds the first hop whose relay selection or key generation fails, or the hop count when none does. Every earlier hop succeeds. |
| Circuits.CircuitManager.constructor | src/circuit/mod.rs:62-67 | A new manager has no circuits, and its next circuit id is 1. |
| Circuits.CircuitManager.CreateCircuit | src/circuit/mod.rs:70-117 | The id is the old counter, which always goes up by one, so failed builds use up their id too. The id was never in the table before. If a hop fails to build, that hop's error comes back and the table is unchanged. Otherwise the table gains exactly this id and other entries are untouched. The circuit then has exactly num_hops hops, and hop i copies the id, address and keys of `select_relay(i)` and holds a fresh crypto object at counter 0. The circuit is Ready with Ok(id) if the handshake succeeds; otherwise it stays Building and the handshake's error is returned. |
| Directory.SuccessfulFetchesAppend | src/directory/mod.rs:106-113 | Collecting candidates over two lists of authorities in a row gives both lists' results, concatenated in authority order. |
| Directory.SuccessfulFetchesExact | src/directory/mod.rs:106-113 | Each candidate is some authority's successful answer. Each successful answer is a candidate. Failed authorities add nothing, so there are never more candidates than authorities. |
| Directory.SelectFrom | src/directory/mod.rs:129-139 | If no relay of the consensus passes the hop's suitability test, the result is NoSuitableRelays. Otherwise it is the weighted choice applied to exactly the relays that pass. |
| Directory.SelectedRelayFlags | tests/integration/relay_reachability_test.rs:161-194 | If suitability admits only the tested flags and the weighted choice picks one of its candidates, then a selected relay belongs to the consensus. Hop 0 then has Guard and Fast. Hop 1 has Fast and neither Guard nor Exit. Hop 2 has Exit and Fast. |
| Directory.DirectoryClient.constructor | src/directory/mod.rs:68-74 | A new client keeps its authorities, caches no consensus, has its last update at the epoch, and has contacted no authority. |
| Directory.DirectoryClient.FetchConsensus | src/directory/mod.rs:97-123 | When the cache is fresh and present, the cached consensus is returned without contacting any authority. Otherwise every authority is contacted once, in order, and validation receives the successful answers. A validation error comes back with the cache and last-update time untouched. On success the cache holds exactly the returned consensus and the last update is now. |
| Directory.DirectoryClient.SelectRelay | src/directory/mod.rs:126-140 | An error from fetching the consensus comes back unchanged. Otherwise the result is the selection from the fetched consensus for that hop. The authorities contacted, the cached consensus and the last-update time are those of the fetch: the cache and the time are rewritten (to the fetched consensus and `now`) only by a re-fetch that validates. |
| Security.XorAccumulatorZero | src/security.rs:10-13 | After k steps the accumulator is zero iff the first k bytes of both inputs agree. |
| Security.ConstantTimeCompare | src/security.rs:5-16 | Returns true iff the two byte sequences are equal. This means false for different lengths, true for `compare(a, a)`, and the same answer with the arguments swapped. |
| Security.SecretData.Zeroize | src/security.rs:26-28 | Afterwards all 32 key bytes are zero. A key that is already zero is left as it is, so zeroising twice is the same as zeroising once. |
| Security.SecretData.Drop | src/security.rs:32-34 | Dropping always leaves the key zeroed. |
| Socks5.Negotiate | src/proxy/socks5.rs:83-103 | Never consumes more than the client sent. Fewer than 2 bytes gives an Io error. A version other than 5 gives InvalidVersion(version) after exactly 2 bytes. Version 5 with fewer than 2 + NMETHODS bytes gives an Io error after consuming everything sent. Success consumes 2 + NMETHODS ≤ 257 bytes. The reply is [5, 0] iff the negotiation succeeded, and nothing is written on failure. |
| Socks5.GreetingAccepted | src/proxy/socks5.rs:96-100 | Any RFC 1928 greeting is accepted, whatever methods it offers. Exactly the greeting's bytes are consumed, and the reply is [5, 0]. |
| Socks5.AcceptedIsGreeting | src/proxy/socks5.rs:85-97 | The bytes consumed by a successful negotiation form a well-formed greeting: VER 5, NMETHODS, then that many method bytes. |
| Socks5.PerformHandshake | src/proxy/socks5.rs:83-103 | The result, the number of client bytes read and the bytes written are exactly those of `Negotiate` on the client's pending bytes. |

## Findings

| source | as written | input that shows it | evidently intended | confidence | as-written member | corrected member |
|---|---|---|---|---|---|---|
| src/crypto/mod.rs:78-82 | `decrypt_forward` returns the whole `in_out` vector after `open_in_place`. ring's `open_in_place` decrypts in place and returns the plaintext as a shorter sub-slice, so the vector still ends with the 16 tag bytes. | Any ciphertext that authenticates. For example, a 16-byte ciphertext that is only a tag returns 16 bytes instead of an empty plaintext. | Return only the plaintext slice, which is 16 bytes shorter than the ciphertext. | not executed; medium (rests on ring's documented `open_in_place` behaviour, which is outside this repository) | Crypto.OnionCrypto.DecryptForwardAsWritten | Crypto.OnionCrypto.DecryptForward |

## Left out

- Crypto.OnionCrypto.EncryptForward: requires the forward counter below 2^64 − 1. The `+= 1` on a u64 would overflow there: a panic in a debug build, a wrap to 0 (and nonce reuse) in a release build.
- Crypto.OnionCrypto.DecryptForward: the same counter bound as EncryptForward, for the same reason.
- Crypto.OnionCrypto.DecryptForwardAsWritten: the same counter bound as EncryptForward, for the same reason.
- Circuits.CircuitManager.CreateCircuit: requires the id counter below 2^32 − 1, because `*next_id += 1` on a u32 would overflow.
- Circuits.CircuitManager.CreateCircuit: `perform_handshakes` is `todo!()`. It is modelled as an outcome that does not touch the circuit table. `select_relay` and `OnionCrypto::new` are modelled as per-hop outcomes, so the directory's own state changes during a build are not part of this method.
- Crypto.NewOnionCrypto: only the random fills can fail. `UnboundKey::new` cannot fail for a 32-byte AES-256 key, so its `?` is not modelled.
- AES-256-GCM internals, x25519 key generation and `SystemRandom` are foreign library code. They are abstract functions and values, and AEAD correctness is not proved. The associated data is always empty and is folded into the abstract functions.
- Directory.SelectFrom: the suitable relays are collected from a `HashMap`, whose iteration order is unspecified. The model hands the weighted choice a set, so the order is not modelled, and two map entries with identical descriptors collapse into one.
- The directory's todo!() helpers (`is_consensus_fresh`, `fetch_from_authority`, `validate_consensus`, `is_relay_suitable`, `select_weighted_relay`) have no behaviour to model. They are parameters, and no weighted-sampling algorithm is invented.
- `parse_request` and `relay_traffic` are todo!() and are called only from `handle_client`, outside `perform_handshake`; they are not modelled.
- Socks5.PerformHandshake: write failures of `write_all` are not modelled (the reply is always delivered). The only read failure modelled is the end of the client's bytes. On that failure, `read_exact` is taken to consume what was left.
- The `log::warn!` call for a failed authority is not modelled.
- Async execution and the `RwLock`s become plain sequential fields. `SystemTime::now()` and `Instant::now()` become parameters.
- The accept loop and task spawning (`Socks5Proxy::run`, `handle_client`) are not modelled. Nor are process startup (`src/main.rs`), configuration (`src/lib.rs`) and the atomic metrics counters (`src/metrics.rs`), which are plumbing or concurrency.
- `ntor_handshake` is not part of this model: no source for it exists in the repository.
- `get_circuit_state`, used by an integration test, does not exist in the circuit manager.
- The `Cell` struct is kept as a datatype, but no operation uses it.
