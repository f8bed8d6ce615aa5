/**
 * The circuit manager: circuit-id allocation, per-hop relay selection and
 * keying, and the circuit table. Relay selection, key generation and the
 * (unimplemented) handshake are outcomes supplied by the caller.
 */
module Circuits {
  import opened Basics
  import opened Bytes
  import Dir = Directory
  import OC = Crypto

  datatype CircuitError =
    | Crypto(cryptoError: OC.CryptoError)
    | Directory(directoryError: Dir.DirectoryError)
    | Io(message: string)
    | NoSuitableRelays

  type CircuitId = u32

  datatype RelayHop = RelayHop(
    relayId: string,
    ip: SocketAddr,
    identityKey: seq<byte>,
    onionKey: seq<byte>,
    cryptoState: OC.OnionCrypto)

  datatype CircuitState = Building | Ready | Closed | Error(message: string)

  datatype Circuit = Circuit(id: CircuitId, hops: seq<RelayHop>, state: CircuitState, createdAt: Instant)

  /** A hop copies the identity, address and keys of the relay it was built from. */
  predicate HopFromRelay(hop: RelayHop, relay: Dir.RelayDescriptor)
  {
    hop.relayId == relay.id && hop.ip == relay.address &&
    hop.identityKey == relay.identityKey && hop.onionKey == relay.onionKey
  }

  /** How building hop `i` fails, if it does: relay selection first, then key generation. */
  function HopFailure(i: nat, selectRelay: nat -> Result<Dir.RelayDescriptor, Dir.DirectoryError>, keyDraws: nat -> OC.RngDraw)
    : (failure: Option<CircuitError>)
  {
    if selectRelay(i).Err? then Some(Directory(selectRelay(i).error))
    else if keyDraws(i).forward.None? || keyDraws(i).backward.None? then Some(Crypto(OC.RingError))
    else None
  }

  /** The first hop in `from .. numHops-1` whose building fails, or `numHops` when none does. */
  function FirstFailedHop(
    numHops: nat, from: nat,
    selectRelay: nat -> Result<Dir.RelayDescriptor, Dir.DirectoryError>, keyDraws: nat -> OC.RngDraw)
    : (k: nat)
    requires from <= numHops
    ensures from <= k <= numHops
    ensures forall i :: from <= i < k ==> HopFailure(i, selectRelay, keyDraws).None?
    ensures k < numHops ==> HopFailure(k, selectRelay, keyDraws).Some?
    decreases numHops - from
  {
    if from == numHops then numHops
    else if HopFailure(from, selectRelay, keyDraws).Some? then from
    else FirstFailedHop(numHops, from + 1, selectRelay, keyDraws)
  }

  /** The first failing hop is the hop that fails after all earlier hops succeed. */
  lemma FirstFailedHopIs(
    numHops: nat, k: nat,
    selectRelay: nat -> Result<Dir.RelayDescriptor, Dir.DirectoryError>, keyDraws: nat -> OC.RngDraw)
    requires k <= numHops
    requires forall i :: 0 <= i < k ==> HopFailure(i, selectRelay, keyDraws).None?
    requires k < numHops ==> HopFailure(k, selectRelay, keyDraws).Some?
    ensures FirstFailedHop(numHops, 0, selectRelay, keyDraws) == k
  {
    var failed := FirstFailedHop(numHops, 0, selectRelay, keyDraws);
    assert failed < numHops ==> HopFailure(failed, selectRelay, keyDraws).Some?;
    assert k < numHops ==> HopFailure(k, selectRelay, keyDraws).Some?;
  }

  class CircuitManager {
    var circuits: map<CircuitId, Circuit>
    var nextCircuitId: CircuitId

    /** Every stored circuit sits under its own id, and every id handed out is below the counter. */
    ghost predicate Valid()
      reads this
    {
      nextCircuitId >= 1 &&
      forall id :: id in circuits ==> 1 <= id < nextCircuitId && circuits[id].id == id
    }

    /** `CircuitManager::new`: no circuits, first id 1. */
    constructor ()
      ensures Valid()
      ensures circuits == map[] && nextCircuitId == 1
    {
      circuits := map[];
      nextCircuitId := 1;
    }

    /**
     * `create_circuit`. Hop `i` uses the relay `selectRelay(i)` and the key material
     * `keyDraws(i)`; `handshake` is the result of `perform_handshakes` and `now`
     * the creation instant.
     */
    method CreateCircuit(
      numHops: nat,
      selectRelay: nat -> Result<Dir.RelayDescriptor, Dir.DirectoryError>,
      keyDraws: nat -> OC.RngDraw,
      handshake: Result<(), CircuitError>,
      now: Instant)
      returns (r: Result<CircuitId, CircuitError>)
      requires Valid()
      requires nextCircuitId < U32_MAX
      modifies this
      ensures Valid()
      ensures nextCircuitId == old(nextCircuitId) + 1
      ensures old(nextCircuitId) !in old(circuits)
      ensures var failed := FirstFailedHop(numHops, 0, selectRelay, keyDraws);
        failed < numHops ==>
          r == Err(HopFailure(failed, selectRelay, keyDraws).value) && circuits == old(circuits)
      ensures FirstFailedHop(numHops, 0, selectRelay, keyDraws) == numHops ==>
        var id := old(nextCircuitId);
        circuits.Keys == old(circuits).Keys + {id} &&
        (forall other :: other in old(circuits) ==> circuits[other] == old(circuits)[other]) &&
        circuits[id].id == id && circuits[id].createdAt == now &&
        |circuits[id].hops| == numHops &&
        (forall i :: 0 <= i < numHops ==>
           HopFailure(i, selectRelay, keyDraws).None? && HopFromRelay(circuits[id].hops[i], selectRelay(i).value) &&
           fresh(circuits[id].hops[i].cryptoState) &&
           circuits[id].hops[i].cryptoState.IsInitial(keyDraws(i).forward.value, keyDraws(i).backward.value)) &&
        (handshake.Ok? ==> r == Ok(id) && circuits[id].state == Ready) &&
        (handshake.Err? ==> r == Err(handshake.error) && circuits[id].state == Building)
    {
      var circuitId := nextCircuitId;
      nextCircuitId := nextCircuitId + 1;

      var hops: seq<RelayHop> := [];
      for hopNum := 0 to numHops
        invariant |hops| == hopNum
        invariant forall i :: 0 <= i < hopNum ==>
          HopFailure(i, selectRelay, keyDraws).None? && HopFromRelay(hops[i], selectRelay(i).value) &&
          fresh(hops[i].cryptoState) &&
          hops[i].cryptoState.IsInitial(keyDraws(i).forward.value, keyDraws(i).backward.value)
        invariant circuits == old(circuits) && nextCircuitId == old(nextCircuitId) + 1
      {
        var relay := selectRelay(hopNum);
        if relay.Err? {
          FirstFailedHopIs(numHops, hopNum, selectRelay, keyDraws);
          return Err(Directory(relay.error));
        }
        var crypto := OC.NewOnionCrypto(keyDraws(hopNum));
        if crypto.Err? {
          FirstFailedHopIs(numHops, hopNum, selectRelay, keyDraws);
          return Err(Crypto(crypto.error));
        }
        var r := relay.value;
        hops := hops + [RelayHop(r.id, r.address, r.identityKey, r.onionKey, crypto.value)];
      }

      FirstFailedHopIs(numHops, numHops, selectRelay, keyDraws);
      var circuit := Circuit(circuitId, hops, Building, now);
      circuits := circuits[circuitId := circuit];

      if handshake.Err? {
        return Err(handshake.error);
      }

      if circuitId in circuits {
        circuits := circuits[circuitId := circuits[circuitId].(state := Ready)];
      }
      r := Ok(circuitId);
    }
  }
}
