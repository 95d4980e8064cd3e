/** The responder end: for each accepted QUIC stream the server reads the
    type byte, the 19-byte payload and the end byte, dials the announced
    IPv4 address and port, acknowledges and then pipes. */
module Server {
  import opened Wire
  import opened Transport
  import opened Utils

  /** How the fixed-length reads and the two tag checks turn out. */
  datatype Handshake =
    | TypeReadFailed
    | NotConnectType(found: byte)
    | PayloadReadFailed
    | EndReadFailed
    | NotEndMarker(found: byte)
    | Connect(to: Endpoint)

  /** The address in a 19-byte payload: the port is bytes 1-2 in big-endian
      order and the host is bytes 15-18. The length byte 0 and the mapped
      prefix in bytes 3-14 are not looked at. */
  function Decode(payload: seq<byte>): (e: Endpoint)
    requires |payload| == PayloadSize
    ensures e.port / 0x100 == payload[1] && e.port % 0x100 == payload[2]
    ensures e.host == payload[15..]
  {
    Endpoint(payload[15..], GetUint16(payload[1..3]))
  }

  /** The outcome of the handshake reads on a stream that delivers input
      before it ends: one type byte, then PayloadSize bytes, then one end
      byte, each read in full or not at all. */
  function ReadHandshake(input: seq<byte>): (h: Handshake)
    ensures h.Connect? <==> |input| >= 2 + PayloadSize && input[0] == ConnectType && input[1 + PayloadSize] == EndMarker
    ensures h.Connect? ==> h.to.host == input[16..20] && h.to.port == input[2] as int * 0x100 + input[3]
    ensures h == TypeReadFailed <==> |input| == 0
    ensures h.NotConnectType? <==> |input| >= 1 && input[0] != ConnectType
    ensures h.NotConnectType? ==> h.found == input[0]
    ensures h.NotEndMarker? ==> |input| >= 2 + PayloadSize && h.found == input[1 + PayloadSize]
  {
    if |input| < 1 then TypeReadFailed
    else if input[0] != ConnectType then NotConnectType(input[0])
    else if |input| < 1 + PayloadSize then PayloadReadFailed
    else if |input| < 2 + PayloadSize then EndReadFailed
    else if input[1 + PayloadSize] != EndMarker then NotEndMarker(input[1 + PayloadSize])
    else
      var payload := input[1..1 + PayloadSize];
      assert payload[15..] == input[16..20];
      Connect(Decode(payload))
  }

  /** Together with the contract of ReadHandshake, each failed read and the
      wrong end byte are characterised exactly by the input's length and tags. */
  lemma ReadHandshakeFailures(input: seq<byte>)
    ensures ReadHandshake(input) == PayloadReadFailed <==> 1 <= |input| < 1 + PayloadSize && input[0] == ConnectType
    ensures ReadHandshake(input) == EndReadFailed <==> |input| == 1 + PayloadSize && input[0] == ConnectType
    ensures ReadHandshake(input).NotEndMarker? <==>
              |input| >= 2 + PayloadSize && input[0] == ConnectType && input[1 + PayloadSize] != EndMarker
  {
  }

  /** How many bytes the handshake reads take from the stream: a failed read
      takes everything that was left. */
  function Consumed(input: seq<byte>): (n: nat)
    ensures n <= |input|
    ensures ReadHandshake(input).NotConnectType? ==> n == 1
    ensures ReadHandshake(input).Connect? || ReadHandshake(input).NotEndMarker? ==> n == 2 + PayloadSize
    ensures ReadHandshake(input) in {TypeReadFailed, PayloadReadFailed, EndReadFailed} ==> n == |input|
  {
    match ReadHandshake(input)
    case NotConnectType(_) => 1
    case NotEndMarker(_) => 2 + PayloadSize
    case Connect(_) => 2 + PayloadSize
    case _ => |input|
  }

  /** The exit a run of handleTCPTunneling takes. */
  datatype ServerExit =
    | Rejected(why: Handshake)
    | DialFailed(to: Endpoint)
    | AckWriteFailed(to: Endpoint)
    | Piped(to: Endpoint)

  /** The exit taken on a stream that delivers input, when the endpoints in
      reachable accept a connection and the stream accepts writesLeft writes. */
  function ExitFor(input: seq<byte>, reachable: set<Endpoint>, writesLeft: nat): (e: ServerExit)
    ensures e.Rejected? <==> !ReadHandshake(input).Connect?
    ensures e.Rejected? ==> e.why == ReadHandshake(input)
    ensures !e.Rejected? ==> e.to == ReadHandshake(input).to
    ensures e.DialFailed? <==> ReadHandshake(input).Connect? && ReadHandshake(input).to !in reachable
    ensures e.Piped? <==> ReadHandshake(input).Connect? && ReadHandshake(input).to in reachable && writesLeft > 0
  {
    match ReadHandshake(input)
    case Connect(to) =>
      if to !in reachable then DialFailed(to)
      else if writesLeft == 0 then AckWriteFailed(to)
      else Piped(to)
    case why => Rejected(why)
  }

  /** The endpoints an exit has tried to dial: none unless the handshake was accepted. */
  function Dialled(e: ServerExit): (r: seq<Endpoint>)
    ensures |r| <= 1
    ensures r == [] <==> e.Rejected?
  {
    if e.Rejected? then [] else [e.to]
  }

  /** Taking Consumed bytes and then the rest gives the input back. */
  function Remaining(input: seq<byte>): (r: seq<byte>)
    ensures input == input[..Consumed(input)] + r
  {
    input[Consumed(input)..]
  }

  /** A server (server.Server): the live-stream counter. */
  class Server {
    const streams: Counter

    constructor (streams: Counter)
      ensures this.streams == streams
    {
      this.streams := streams;
    }

    /** Server.handleTCPTunneling on a stream whose +1 handleConnection has
        already applied. The outcome depends only on the bytes the stream
        delivers, never on how they are split into fragments. Nothing is
        dialled unless both tags check out, the acknowledgement is the one
        write and happens only after a successful dial, every exit applies
        exactly one -1 and cancels the stream both ways, and a dialled
        connection is closed on every exit. */
    method HandleTcpTunneling(stream: Stream, dialer: Dialer) returns (exit: ServerExit, conn: TcpConn?)
      requires stream.readCancel.None? && stream.writeCancel.None?
      modifies stream, dialer, streams
      ensures exit == ExitFor(old(Flatten(stream.inbound)), dialer.reachable, old(stream.writesLeft))
      ensures Flatten(stream.inbound) == Remaining(old(Flatten(stream.inbound)))
      ensures stream.written == old(stream.written) + (if exit.Piped? then [Ack] else [])
      ensures dialer.attempts == old(dialer.attempts) + Dialled(exit)
      ensures streams.value == old(streams.value) - 1
      ensures streams.adds == old(streams.adds) + [-1]
      ensures stream.readCancel == Some(TcpConnectionReset) && stream.writeCancel == Some(TcpConnectionReset)
      ensures (conn != null) <==> (exit.AckWriteFailed? || exit.Piped?)
      ensures conn != null ==> fresh(conn) && conn.closed
    {
      ghost var input := Flatten(stream.inbound);
      conn := null;
      label tunnel: {
        var tlvTypeByte, ok := stream.ReadFull(1);
        if !ok {
          streams.Add(-1);
          exit := Rejected(TypeReadFailed);
          break tunnel;
        }
        if tlvTypeByte[0] != ConnectType {
          streams.Add(-1);
          exit := Rejected(NotConnectType(tlvTypeByte[0]));
          break tunnel;
        }
        var tcpConnectTLVData;
        tcpConnectTLVData, ok := stream.ReadFull(PayloadSize);
        if !ok {
          streams.Add(-1);
          exit := Rejected(PayloadReadFailed);
          break tunnel;
        }
        assert input[1..][PayloadSize..] == input[1 + PayloadSize..];
        tlvTypeByte, ok := stream.ReadFull(1);
        if !ok {
          streams.Add(-1);
          exit := Rejected(EndReadFailed);
          break tunnel;
        }
        assert input[1 + PayloadSize..][1..] == input[2 + PayloadSize..];
        if tlvTypeByte[0] != EndMarker {
          streams.Add(-1);
          exit := Rejected(NotEndMarker(tlvTypeByte[0]));
          break tunnel;
        }
        assert tcpConnectTLVData == input[1..1 + PayloadSize];
        var remote := Decode(tcpConnectTLVData);
        conn := dialer.Dial(remote);
        if conn == null {
          streams.Add(-1);
          exit := DialFailed(remote);
          break tunnel;
        }
        ok := stream.Write(Ack);
        if !ok {
          streams.Add(-1);
          conn.Close();
          exit := AckWriteFailed(remote);
          break tunnel;
        }
        exit := Piped(remote);
        Pipe(stream, conn, streams);
      }
      // the deferred cleanup
      stream.CancelRead(TcpConnectionReset);
      stream.CancelWrite(TcpConnectionReset);
    }

    /** Server.handleConnection over a finite run of AcceptStream results
        (null for a failed accept, which is skipped). Each accepted stream
        gets its +1 and is handled; a handler here runs to completion before
        the next accept. The counter ends where it started, having received
        one +1 and one -1 per accepted stream. */
    method HandleConnection(accepted: seq<Stream?>, dialer: Dialer) returns (exits: seq<ServerExit>)
      requires forall i, j :: 0 <= i < j < |accepted| && accepted[i] != null ==> accepted[i] != accepted[j]
      requires forall i :: 0 <= i < |accepted| && accepted[i] != null ==>
                 accepted[i].readCancel.None? && accepted[i].writeCancel.None?
      modifies set i | 0 <= i < |accepted| && accepted[i] != null :: accepted[i], dialer, streams
      ensures |exits| == Accepted(accepted)
      ensures streams.value == old(streams.value)
      ensures streams.adds == old(streams.adds) + OpenClosePairs(|exits|)
      ensures forall i :: 0 <= i < |accepted| && accepted[i] != null ==>
                accepted[i].readCancel == Some(TcpConnectionReset) && accepted[i].writeCancel == Some(TcpConnectionReset)
    {
      exits := [];
      var i := 0;
      while i < |accepted|
        invariant 0 <= i <= |accepted|
        invariant |exits| == Accepted(accepted[..i])
        invariant streams.value == old(streams.value)
        invariant streams.adds == old(streams.adds) + OpenClosePairs(|exits|)
        invariant forall j :: i <= j < |accepted| && accepted[j] != null ==>
                    accepted[j].readCancel.None? && accepted[j].writeCancel.None?
        invariant forall j :: 0 <= j < i && accepted[j] != null ==>
                    accepted[j].readCancel == Some(TcpConnectionReset) && accepted[j].writeCancel == Some(TcpConnectionReset)
      {
        var stream := accepted[i];
        assert accepted[..i + 1] == accepted[..i] + [stream];
        AcceptedAppend(accepted[..i], stream);
        if stream != null {
          streams.Add(1);
          var exit, _ := HandleTcpTunneling(stream, dialer);
          exits := exits + [exit];
        }
        i := i + 1;
      }
      assert accepted[..i] == accepted;
    }
  }

  /** How many accepts succeeded. */
  function Accepted(accepted: seq<Stream?>): nat
  {
    if |accepted| == 0 then 0
    else Accepted(accepted[..|accepted| - 1]) + (if accepted[|accepted| - 1] != null then 1 else 0)
  }

  lemma AcceptedAppend(accepted: seq<Stream?>, s: Stream?)
    ensures Accepted(accepted + [s]) == Accepted(accepted) + (if s != null then 1 else 0)
  {
  }

  /** The counter deltas of n tunnels handled one after the other. */
  function OpenClosePairs(n: nat): seq<int>
  {
    if n == 0 then [] else OpenClosePairs(n - 1) + [1, -1]
  }

  /** The handshake outcome is settled by the bytes the reads take: once
      they are present, whatever follows (the piped data) is irrelevant. */
  lemma OnlyReadBytesMatter(input: seq<byte>, rest: seq<byte>)
    requires ReadHandshake(input).NotConnectType? || ReadHandshake(input).NotEndMarker? || ReadHandshake(input).Connect?
    ensures ReadHandshake(input + rest) == ReadHandshake(input)
    ensures Consumed(input + rest) == Consumed(input)
  {
  }

  /** Only the type byte, the port bytes, the host bytes and the end byte
      are looked at: the length byte and the twelve prefix bytes can be
      anything. */
  lemma UncheckedBytes(a: seq<byte>, b: seq<byte>)
    requires |a| == |b| == 2 + PayloadSize
    requires a[0] == b[0] && a[2..4] == b[2..4] && a[16..] == b[16..]
    ensures ReadHandshake(a) == ReadHandshake(b)
  {
  }

  /** Fragments that arrive after the handshake bytes do not change the exit. */
  lemma LaterFragmentsIgnored(fs: seq<seq<byte>>, later: seq<seq<byte>>, reachable: set<Endpoint>, writesLeft: nat)
    requires |Flatten(fs)| >= 2 + PayloadSize
    ensures ExitFor(Flatten(fs + later), reachable, writesLeft) == ExitFor(Flatten(fs), reachable, writesLeft)
  {
    FlattenAppend(fs, later);
    var input := Flatten(fs);
    if input[0] == ConnectType {
      assert ReadHandshake(input).NotEndMarker? || ReadHandshake(input).Connect?;
    }
    OnlyReadBytesMatter(input, Flatten(later));
  }
}
