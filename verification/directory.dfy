/**
 * The directory client: the cached network consensus and relay selection per
 * hop. The helpers the client leaves unimplemented (freshness test, fetching
 * from one authority, validation, the per-hop suitability test and the
 * bandwidth-weighted choice) are supplied by the caller as functions.
 */
module Directory {
  import opened Basics
  import opened Bytes

  datatype DirectoryError = NoSuitableRelays | RequestFailed | InvalidConsensus

  datatype RelayFlag = Exit | Guard | Fast | Stable

  datatype RelayDescriptor = RelayDescriptor(
    id: string,
    nickname: string,
    address: SocketAddr,
    identityKey: seq<byte>,
    onionKey: seq<byte>,
    bandwidth: u32,
    flags: seq<RelayFlag>)

  datatype ConsensusSignature = ConsensusSignature(algorithm: string, identity: string, signature: seq<byte>)

  datatype NetworkConsensus = NetworkConsensus(
    validAfter: SystemTime,
    validUntil: SystemTime,
    relays: map<string, RelayDescriptor>,
    signatures: seq<ConsensusSignature>)

  /** The unimplemented helpers of the client. */
  datatype DirectoryHelpers = DirectoryHelpers(
    fetchFromAuthority: string -> Result<NetworkConsensus, DirectoryError>,
    validateConsensus: seq<NetworkConsensus> -> Result<NetworkConsensus, DirectoryError>,
    isRelaySuitable: (RelayDescriptor, nat) -> bool,
    selectWeightedRelay: set<RelayDescriptor> -> Result<RelayDescriptor, DirectoryError>)

  /** The consensuses the authorities in `authorities` return, in authority order; failures are skipped. */
  function SuccessfulFetches(authorities: seq<string>, fetch: string -> Result<NetworkConsensus, DirectoryError>)
    : (fetched: seq<NetworkConsensus>)
  {
    if authorities == [] then []
    else
      var last := fetch(authorities[|authorities| - 1]);
      SuccessfulFetches(authorities[..|authorities| - 1], fetch) + (if last.Ok? then [last.value] else [])
  }

  /** Fetching from two lists of authorities one after the other keeps both results, in order. */
  lemma {:induction false} SuccessfulFetchesAppend(
    first: seq<string>, second: seq<string>, fetch: string -> Result<NetworkConsensus, DirectoryError>)
    ensures SuccessfulFetches(first + second, fetch) == SuccessfulFetches(first, fetch) + SuccessfulFetches(second, fetch)
  {
    if second == [] {
      assert first + second == first;
    } else {
      var k := |second| - 1;
      assert (first + second)[..|first + second| - 1] == first + second[..k];
      SuccessfulFetchesAppend(first, second[..k], fetch);
    }
  }

  /** Every candidate is some authority's successful answer, and every successful answer is a candidate. */
  lemma {:induction false} SuccessfulFetchesExact(
    authorities: seq<string>, fetch: string -> Result<NetworkConsensus, DirectoryError>)
    ensures |SuccessfulFetches(authorities, fetch)| <= |authorities|
    ensures forall c :: c in SuccessfulFetches(authorities, fetch) ==>
      exists a :: a in authorities && fetch(a) == Ok(c)
    ensures forall a :: a in authorities && fetch(a).Ok? ==> fetch(a).value in SuccessfulFetches(authorities, fetch)
  {
    if authorities != [] {
      var k := |authorities| - 1;
      SuccessfulFetchesExact(authorities[..k], fetch);
      assert authorities == authorities[..k] + [authorities[k]];
      forall a | a in authorities && fetch(a).Ok?
        ensures fetch(a).value in SuccessfulFetches(authorities, fetch)
      {
        if a != authorities[k] {
          assert a in authorities[..k];
        }
      }
    }
  }

  /** What `fetch_consensus` yields: the cache when fresh and present, otherwise the validated fetches. */
  function FetchOutcome(cached: Option<NetworkConsensus>, isFresh: bool, authorities: seq<string>, helpers: DirectoryHelpers)
    : (r: Result<NetworkConsensus, DirectoryError>)
  {
    if isFresh && cached.Some? then Ok(cached.value)
    else helpers.validateConsensus(SuccessfulFetches(authorities, helpers.fetchFromAuthority))
  }

  /** The relays of a consensus that pass the suitability test for one hop. */
  function SuitableRelays(consensus: NetworkConsensus, hopNumber: nat, isRelaySuitable: (RelayDescriptor, nat) -> bool)
    : (candidates: set<RelayDescriptor>)
  {
    set relay | relay in consensus.relays.Values && isRelaySuitable(relay, hopNumber)
  }

  /**
   * The selection `select_relay` makes once it holds a consensus: fail with
   * NoSuitableRelays when no relay passes the filter, otherwise delegate the
   * filtered candidates to the weighted choice.
   */
  function SelectFrom(consensus: NetworkConsensus, hopNumber: nat, helpers: DirectoryHelpers)
    : (r: Result<RelayDescriptor, DirectoryError>)
    ensures (forall relay :: relay in consensus.relays.Values ==> !helpers.isRelaySuitable(relay, hopNumber))
      ==> r == Err(NoSuitableRelays)
    ensures (exists relay :: relay in consensus.relays.Values && helpers.isRelaySuitable(relay, hopNumber))
      ==> exists candidates :: r == helpers.selectWeightedRelay(candidates) && candidates != {} &&
            (forall relay :: relay in candidates <==>
               relay in consensus.relays.Values && helpers.isRelaySuitable(relay, hopNumber))
  {
    var candidates := SuitableRelays(consensus, hopNumber, helpers.isRelaySuitable);
    if candidates == {} then
      assert forall relay :: relay in consensus.relays.Values ==>
        relay !in candidates && !helpers.isRelaySuitable(relay, hopNumber);
      Err(NoSuitableRelays)
    else helpers.selectWeightedRelay(candidates)
  }

  /** The flags the relay-reachability integration test expects for each hop position. */
  predicate HopFlags(relay: RelayDescriptor, hopNumber: nat)
  {
    match hopNumber
    case 0 => Guard in relay.flags && Fast in relay.flags
    case 1 => Fast in relay.flags && Guard !in relay.flags && Exit !in relay.flags
    case 2 => Exit in relay.flags && Fast in relay.flags
    case _ => true
  }

  /** The only thing known of the suitability test: it admits only relays with the tested flags. */
  ghost predicate SuitabilityAsTested(isRelaySuitable: (RelayDescriptor, nat) -> bool)
  {
    forall relay, hop :: isRelaySuitable(relay, hop) ==> HopFlags(relay, hop)
  }

  /** The weighted choice picks one of the relays it is given. */
  ghost predicate ChoosesACandidate(selectWeightedRelay: set<RelayDescriptor> -> Result<RelayDescriptor, DirectoryError>)
  {
    forall candidates :: selectWeightedRelay(candidates).Ok? ==> selectWeightedRelay(candidates).value in candidates
  }

  /** A selected relay is a relay of the consensus and has the flags of its hop position. */
  lemma SelectedRelayFlags(consensus: NetworkConsensus, hopNumber: nat, helpers: DirectoryHelpers)
    requires SuitabilityAsTested(helpers.isRelaySuitable)
    requires ChoosesACandidate(helpers.selectWeightedRelay)
    ensures var r := SelectFrom(consensus, hopNumber, helpers);
      r.Ok? ==> r.value in consensus.relays.Values && HopFlags(r.value, hopNumber)
  {
    var r := SelectFrom(consensus, hopNumber, helpers);
    if r.Ok? {
      var candidates := SuitableRelays(consensus, hopNumber, helpers.isRelaySuitable);
      assert r.value in candidates;
    }
  }

  class DirectoryClient {
    const authorities: seq<string>
    var consensus: Option<NetworkConsensus>
    var lastUpdate: SystemTime

    /** The authorities contacted so far, one entry per `fetch_from_authority` call. */
    ghost var requests: seq<string>

    /** `DirectoryClient::new`: nothing cached, last update at the epoch. */
    constructor (authorities: seq<string>)
      ensures this.authorities == authorities
      ensures consensus == None && lastUpdate == UNIX_EPOCH
      ensures requests == []
    {
      this.authorities := authorities;
      consensus := None;
      lastUpdate := UNIX_EPOCH;
      requests := [];
    }

    /**
     * `fetch_consensus`. `isFresh` is the answer of `is_consensus_fresh` and `now`
     * the clock reading taken when the cache is written.
     */
    method FetchConsensus(helpers: DirectoryHelpers, isFresh: bool, now: SystemTime)
      returns (r: Result<NetworkConsensus, DirectoryError>)
      modifies this
      ensures r == FetchOutcome(old(consensus), isFresh, authorities, helpers)
      ensures isFresh && old(consensus).Some? ==> requests == old(requests)
      ensures !(isFresh && old(consensus).Some?) ==> requests == old(requests) + authorities
      ensures r.Err? ==> consensus == old(consensus) && lastUpdate == old(lastUpdate)
      ensures r.Ok? && !(isFresh && old(consensus).Some?) ==> consensus == Some(r.value) && lastUpdate == now
      ensures isFresh && old(consensus).Some? ==> consensus == old(consensus) && lastUpdate == old(lastUpdate)
    {
      if isFresh && consensus.Some? {
        return Ok(consensus.value);
      }

      var candidates: seq<NetworkConsensus> := [];
      for i := 0 to |authorities|
        invariant candidates == SuccessfulFetches(authorities[..i], helpers.fetchFromAuthority)
        invariant requests == old(requests) + authorities[..i]
        invariant consensus == old(consensus) && lastUpdate == old(lastUpdate)
      {
        assert authorities[..i + 1][..i] == authorities[..i];
        requests := requests + [authorities[i]];
        var fetched := helpers.fetchFromAuthority(authorities[i]);
        match fetched {
          case Ok(c) => candidates := candidates + [c];
          case Err(_) =>
        }
      }
      assert authorities[..|authorities|] == authorities;

      var validated := helpers.validateConsensus(candidates);
      if validated.Err? {
        return Err(validated.error);
      }
      consensus := Some(validated.value);
      lastUpdate := now;
      r := Ok(validated.value);
    }

    /**
     * `select_relay`: obtain a consensus (an error passes through unchanged),
     * then select among the relays suitable for the hop.
     */
    method SelectRelay(helpers: DirectoryHelpers, isFresh: bool, now: SystemTime, hopNumber: nat)
      returns (r: Result<RelayDescriptor, DirectoryError>)
      modifies this
      ensures var fetched := FetchOutcome(old(consensus), isFresh, authorities, helpers);
        (fetched.Err? ==> r == Err(fetched.error)) &&
        (fetched.Ok? ==> r == SelectFrom(fetched.value, hopNumber, helpers))
      ensures isFresh && old(consensus).Some? ==> requests == old(requests)
      ensures !(isFresh && old(consensus).Some?) ==> requests == old(requests) + authorities
      ensures var fetched := FetchOutcome(old(consensus), isFresh, authorities, helpers);
        consensus == (if fetched.Ok? && !(isFresh && old(consensus).Some?) then Some(fetched.value) else old(consensus))
      ensures var fetched := FetchOutcome(old(consensus), isFresh, authorities, helpers);
        lastUpdate == (if fetched.Ok? && !(isFresh && old(consensus).Some?) then now else old(lastUpdate))
    {
      var fetched := FetchConsensus(helpers, isFresh, now);
      if fetched.Err? {
        return Err(fetched.error);
      }
      r := SelectFrom(fetched.value, hopNumber, helpers);
    }
  }
}
