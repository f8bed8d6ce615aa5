/**
 * CREATE2 / CREATED2 cell bodies for the ntor handshake (tor-spec.txt,
 * sections 3, 5.1 and 5.1.4): building and serialising the client's CREATE2
 * body, and parsing the relay's CREATED2 reply.
 */
module Cells {
  import opened Basics
  import opened Bytes

  /** Cell command values of section 3 of tor-spec.txt. */
  const CELL_COMMAND_CREATE2: byte := 10
  const CELL_COMMAND_CREATED2: byte := 11
  const CELL_COMMAND_RELAY: byte := 3

  /** HTYPE of the ntor handshake. */
  const HANDSHAKE_TYPE_NTOR: u16 := 2

  /** HLEN of an ntor CREATED2 reply: SERVER_PK (32 bytes) followed by AUTH (32 bytes). */
  const CREATED2_HLEN: nat := 64

  /** An x25519 public key: 32 bytes. */
  type PublicKey = s: seq<byte> | |s| == 32 witness seq(32, _ => 0)

  /** A cell on the wire (unused by the operations below, kept for the data model). */
  datatype Cell = Cell(circId: u32, command: byte, payload: seq<byte>)

  datatype Create2Cell = Create2Cell(handshakeType: u16, handshakeData: seq<byte>)

  datatype Created2Cell = Created2Cell(serverPublicKey: PublicKey, auth: seq<byte>)

  /** The two distinct messages `from_bytes` can fail with. */
  datatype CellError = PayloadTooShort | InvalidHlen

  /** `Create2Cell::new`: an ntor CREATE2 body carrying the client's public key. */
  function NewCreate2(clientPublicKey: PublicKey): (cell: Create2Cell)
    ensures cell.handshakeType == HANDSHAKE_TYPE_NTOR
    ensures cell.handshakeData == clientPublicKey
  {
    Create2Cell(HANDSHAKE_TYPE_NTOR, clientPublicKey)
  }

  /**
   * `Create2Cell::to_bytes`: HTYPE (2 bytes), HLEN (2 bytes, the data length cut
   * to 16 bits by `as u16`), then HDATA, appended one after the other.
   * The ensures read each field back with the decoder; FromToBigEndian shows that
   * this fixes every byte.
   */
  method Create2ToBytes(cell: Create2Cell) returns (bytes: seq<byte>)
    ensures |bytes| == 4 + |cell.handshakeData|
    ensures FromBigEndian(bytes[..2]) == cell.handshakeType
    ensures FromBigEndian(bytes[2..4]) == |cell.handshakeData| % 0x1_0000
    ensures bytes[4..] == cell.handshakeData
  {
    Pow256Widths();
    var htype := ToBigEndian(cell.handshakeType, 2);
    var hlen := ToBigEndian(|cell.handshakeData| % 0x1_0000, 2);
    bytes := [];
    bytes := bytes + htype;
    bytes := bytes + hlen;
    bytes := bytes + cell.handshakeData;
    assert bytes[..2] == htype && bytes[2..4] == hlen;
    ToFromBigEndian(cell.handshakeType, 2);
    ToFromBigEndian(|cell.handshakeData| % 0x1_0000, 2);
  }

  /** The serialisation of a freshly built CREATE2 body: 36 bytes, HTYPE 2, HLEN 32, then the key. */
  method NewCreate2Bytes(clientPublicKey: PublicKey) returns (bytes: seq<byte>)
    ensures |bytes| == 36
    ensures FromBigEndian(bytes[..2]) == 2
    ensures FromBigEndian(bytes[2..4]) == 32
    ensures bytes[4..] == clientPublicKey
  {
    var cell := NewCreate2(clientPublicKey);
    bytes := Create2ToBytes(cell);
  }

  /**
   * `Created2Cell::from_bytes`: HLEN must be 64 (checked before the length of the
   * rest), then SERVER_PK is bytes 2..34 and AUTH bytes 34..66; anything after
   * byte 66 is ignored.
   */
  function Created2FromBytes(payload: seq<byte>): (r: Result<Created2Cell, CellError>)
    ensures |payload| < 2 ==> r == Err(PayloadTooShort)
    ensures |payload| >= 2 && FromBigEndian(payload[..2]) != CREATED2_HLEN ==> r == Err(InvalidHlen)
    ensures |payload| >= 2 && FromBigEndian(payload[..2]) == CREATED2_HLEN && |payload| < 2 + CREATED2_HLEN ==>
      r == Err(PayloadTooShort)
    ensures r.Ok? <==> |payload| >= 2 + CREATED2_HLEN && FromBigEndian(payload[..2]) == CREATED2_HLEN
    ensures r.Ok? ==> r.value.serverPublicKey == payload[2..34] && r.value.auth == payload[34..66]
  {
    if |payload| < 2 then Err(PayloadTooShort)
    else if FromBigEndian(payload[0..2]) != CREATED2_HLEN then Err(InvalidHlen)
    else if |payload| < 2 + CREATED2_HLEN then Err(PayloadTooShort)
    else
      var hdata := payload[2..];
      Ok(Created2Cell(hdata[0..32], hdata[32..64]))
  }

  /** A CREATED2 body as a relay (and the in-file unit test) lays it out: HLEN, then SERVER_PK and AUTH. */
  function Created2Payload(serverPublicKey: PublicKey, auth: seq<byte>): (payload: seq<byte>)
  {
    ToBigEndian((|serverPublicKey| + |auth|) % 0x1_0000, 2) + serverPublicKey + auth
  }

  /** Parsing a well-formed reply, with any trailing bytes, gives back its key and AUTH. */
  lemma Created2RoundTrip(serverPublicKey: PublicKey, auth: seq<byte>, trailing: seq<byte>)
    requires |auth| == 32
    ensures Created2FromBytes(Created2Payload(serverPublicKey, auth) + trailing)
         == Ok(Created2Cell(serverPublicKey, auth))
  {
    var payload := Created2Payload(serverPublicKey, auth) + trailing;
    Pow256Widths();
    ToFromBigEndian(CREATED2_HLEN, 2);
    assert payload[..2] == ToBigEndian(CREATED2_HLEN, 2);
    assert payload[2..34] == serverPublicKey;
    assert payload[34..66] == auth;
  }

  /** Conversely, every accepted payload starts with exactly such a reply. */
  lemma Created2Accepted(payload: seq<byte>)
    requires Created2FromBytes(payload).Ok?
    ensures var cell := Created2FromBytes(payload).value;
      |cell.auth| == 32 && payload == Created2Payload(cell.serverPublicKey, cell.auth) + payload[66..]
  {
    var cell := Created2FromBytes(payload).value;
    Pow256Widths();
    FromToBigEndian(payload[..2]);
    assert payload == payload[..2] + payload[2..34] + payload[34..66] + payload[66..];
  }

  /** A body holding SERVER_PK and AUTH without the HLEN prefix is always refused. */
  lemma UnprefixedCreated2Rejected(serverPublicKey: PublicKey, auth: seq<byte>)
    requires |auth| == 32
    ensures Created2FromBytes(serverPublicKey + auth).Err?
  {
  }
}
