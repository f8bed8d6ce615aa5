/**
 * The SOCKS5 greeting and method selection (section 3 of RFC 1928) as the
 * proxy performs it: over a client connection modelled as the bytes the
 * client sends (read through a cursor) and the bytes written back.
 */
module Socks5 {
  import opened Basics
  import opened Bytes
  import Circuits

  const SOCKS_VERSION: byte := 0x05
  const NO_AUTHENTICATION: byte := 0x00

  /** The only I/O failure a read can meet here: the client's bytes run out. */
  datatype IoError = UnexpectedEof

  datatype ProxyError =
    | InvalidVersion(version: byte)
    | Io(ioError: IoError)
    | Circuit(circuitError: Circuits.CircuitError)

  /** A client connection: everything the client sends, how much was read, and what was written back. */
  class ClientStream {
    const input: seq<byte>
    var cursor: nat
    var output: seq<byte>

    ghost predicate Valid()
      reads this
    {
      cursor <= |input|
    }

    constructor (input: seq<byte>)
      ensures Valid() && this.input == input && cursor == 0 && output == []
    {
      this.input := input;
      cursor := 0;
      output := [];
    }

    /** `read_exact`: the next `n` bytes, or an end-of-stream error after consuming what was left. */
    method ReadExact(n: nat) returns (r: Result<seq<byte>, IoError>)
      requires Valid()
      modifies this`cursor
      ensures Valid()
      ensures old(cursor) + n <= |input| ==>
        r == Ok(input[old(cursor)..old(cursor) + n]) && cursor == old(cursor) + n
      ensures old(cursor) + n > |input| ==> r == Err(UnexpectedEof) && cursor == |input|
    {
      if cursor + n > |input| {
        cursor := |input|;
        return Err(UnexpectedEof);
      }
      r := Ok(input[cursor..cursor + n]);
      cursor := cursor + n;
    }

    /** `write_all`: the bytes are appended to what the client receives. */
    method WriteAll(bytes: seq<byte>)
      modifies this`output
      ensures output == old(output) + bytes
    {
      output := output + bytes;
    }
  }

  /** What a negotiation does with the client's pending bytes: its result, the bytes it consumes and its reply. */
  datatype Negotiation = Negotiation(result: Result<(), ProxyError>, consumed: nat, reply: seq<byte>)

  /**
   * The negotiation over the bytes `pending` the client has still to send:
   * VER and NMETHODS, then (for version 5 only) NMETHODS method bytes, then
   * the fixed reply selecting "no authentication".
   */
  function Negotiate(pending: seq<byte>): (n: Negotiation)
    ensures n.consumed <= |pending|
    ensures n.result.Ok? <==> n.reply == [SOCKS_VERSION, NO_AUTHENTICATION]
    ensures n.result.Err? ==> n.reply == []
    ensures n.result.Ok? ==>
      |pending| >= 2 && pending[0] == SOCKS_VERSION && n.consumed == 2 + pending[1] as int <= 257
    ensures |pending| >= 2 && pending[0] != SOCKS_VERSION ==>
      n.result == Err(InvalidVersion(pending[0])) && n.consumed == 2
    ensures |pending| < 2 ==> n.result == Err(Io(UnexpectedEof))
    ensures |pending| >= 2 && pending[0] == SOCKS_VERSION && |pending| < 2 + pending[1] as int ==>
      n.result == Err(Io(UnexpectedEof)) && n.consumed == |pending|
  {
    if |pending| < 2 then Negotiation(Err(Io(UnexpectedEof)), |pending|, [])
    else
      var version := pending[0];
      var nmethods := pending[1] as nat;
      if version != SOCKS_VERSION then Negotiation(Err(InvalidVersion(version)), 2, [])
      else if |pending| < 2 + nmethods then Negotiation(Err(Io(UnexpectedEof)), |pending|, [])
      else Negotiation(Ok(()), 2 + nmethods, [SOCKS_VERSION, NO_AUTHENTICATION])
  }

  /** A client greeting of RFC 1928: VER 5, NMETHODS, then the methods offered. */
  function ClientGreeting(methods: seq<byte>): (greeting: seq<byte>)
    requires |methods| <= 255
  {
    [SOCKS_VERSION, |methods|] + methods
  }

  /** Any greeting is accepted, exactly its bytes are consumed and the reply does not depend on the methods offered. */
  lemma GreetingAccepted(methods: seq<byte>, rest: seq<byte>)
    requires |methods| <= 255
    ensures Negotiate(ClientGreeting(methods) + rest)
         == Negotiation(Ok(()), |ClientGreeting(methods)|, [SOCKS_VERSION, NO_AUTHENTICATION])
  {
    var pending := ClientGreeting(methods) + rest;
    assert pending[0] == SOCKS_VERSION && pending[1] == |methods|;
  }

  /** A successful negotiation consumed a whole greeting: the bytes consumed are VER, NMETHODS and the methods. */
  lemma AcceptedIsGreeting(pending: seq<byte>)
    requires Negotiate(pending).result.Ok?
    ensures var consumed := Negotiate(pending).consumed;
      pending[..consumed] == ClientGreeting(pending[2..consumed])
  {
    var consumed := Negotiate(pending).consumed;
    assert pending[..consumed] == [pending[0], pending[1]] + pending[2..consumed];
  }

  /**
   * `perform_handshake`: read two bytes; refuse a version other than 5 without
   * reading further; read NMETHODS method bytes; reply [5, 0].
   */
  method PerformHandshake(stream: ClientStream) returns (r: Result<(), ProxyError>)
    requires stream.Valid()
    modifies stream
    ensures stream.Valid()
    ensures var n := Negotiate(old(stream.input[stream.cursor..]));
      r == n.result &&
      stream.cursor == old(stream.cursor) + n.consumed &&
      stream.output == old(stream.output) + n.reply
  {
    ghost var pending := stream.input[stream.cursor..];
    var buf := stream.ReadExact(2);
    if buf.Err? {
      return Err(Io(buf.error));
    }
    var version := buf.value[0];
    var nmethods := buf.value[1] as nat;
    assert version == pending[0] && nmethods == pending[1];

    if version != SOCKS_VERSION {
      return Err(InvalidVersion(version));
    }

    var methods := stream.ReadExact(nmethods);
    if methods.Err? {
      return Err(Io(methods.error));
    }

    stream.WriteAll([SOCKS_VERSION, NO_AUTHENTICATION]);
    r := Ok(());
  }
}
