/** The initiator end: for each accepted local TCP connection the client opens
    a QUIC stream, announces the configured destination with a "TCP connect"
    record and an end marker, waits for a two-byte reply and then pipes. */
module Client {
  import opened Wire
  import opened Transport
  import opened Utils

  /** What net.ParseIP(host).To4() yields: an IPv4 address, or nil for
      anything else (an IPv6 literal, a host name, garbage). */
  datatype ParsedHost = V4(ip: IPv4) | NotV4

  /** The bytes To4 returns: four, or none at all. */
  function To4(h: ParsedHost): (r: seq<byte>)
    ensures |r| == 4 || |r| == 0
    ensures h.V4? <==> |r| == 4
  {
    match h
    case V4(ip) => ip
    case NotV4 => []
  }

  /** The configured TCPDestAddr as net.SplitHostPort and strconv.Atoi take
      it apart: either call can fail. */
  datatype Destination = BadHostPort | BadPort | HostPort(host: ParsedHost, port: int)

  /** The "TCP connect" record (tcpConnectTLVData): type, length, the port
      truncated to 16 bits in big-endian order, the IPv4-mapped prefix and
      whatever host bytes To4 gave. Non-IPv4 hosts are not rejected: their
      record simply has no host bytes. */
  function ConnectRecord(hostBytes: seq<byte>, port: int): (r: seq<byte>)
    ensures |r| == 16 + |hostBytes|
    ensures r[0] == ConnectType && r[1] == ConnectLength
    ensures GetUint16(r[2..4]) == Uint16(port)
    ensures r[4..16] == MappedPrefix
    ensures r[16..] == hostBytes
  {
    var header := [ConnectType, ConnectLength];
    var withPort := header + PutUint16(Uint16(port));
    var withPrefix := withPort + MappedPrefix;
    assert withPrefix[..4] == withPort;
    assert withPrefix[2..4] == withPort[2..4];
    withPrefix + hostBytes
  }

  /** The two writes of the handshake for a destination that parsed: the record, then the end marker. */
  function Announcement(host: ParsedHost, port: int): seq<seq<byte>>
  {
    [ConnectRecord(To4(host), port), [EndMarker]]
  }

  /** The exit a run of handleTCPTunneling takes. */
  datatype ClientExit =
    | OpenFailed
    | SplitFailed
    | AtoiFailed
    | RecordWriteFailed
    | EndWriteFailed
    | AckReadFailed
    | Piped(reply: seq<byte>)

  /** The exit taken when opening the stream succeeded iff streamOpen, the
      stream then accepts writesLeft writes and the peer delivers reply
      before the stream ends. */
  function ExitFor(streamOpen: bool, dest: Destination, writesLeft: nat, reply: seq<byte>): (e: ClientExit)
    ensures e.Piped? <==> streamOpen && dest.HostPort? && writesLeft >= 2 && |reply| >= 2
    ensures e.Piped? ==> e.reply == reply[..2]
    ensures e == OpenFailed <==> !streamOpen
    ensures e == RecordWriteFailed <==> streamOpen && dest.HostPort? && writesLeft == 0
    ensures e == EndWriteFailed <==> streamOpen && dest.HostPort? && writesLeft == 1
    ensures e == SplitFailed <==> streamOpen && dest.BadHostPort?
    ensures e == AtoiFailed <==> streamOpen && dest.BadPort?
    ensures e == AckReadFailed <==> streamOpen && dest.HostPort? && writesLeft >= 2 && |reply| < 2
  {
    if !streamOpen then OpenFailed
    else match dest
      case BadHostPort => SplitFailed
      case BadPort => AtoiFailed
      case HostPort(_, _) =>
        if writesLeft == 0 then RecordWriteFailed
        else if writesLeft == 1 then EndWriteFailed
        else if |reply| < 2 then AckReadFailed
        else Piped(reply[..2])
  }

  /** The payloads of the successful writes on an opened stream that accepts writesLeft writes. */
  function Sent(dest: Destination, writesLeft: nat): (r: seq<seq<byte>>)
    ensures |r| <= 2
    ensures dest.HostPort? ==> |r| == (if writesLeft < 2 then writesLeft else 2)
    ensures !dest.HostPort? ==> r == []
    ensures forall i :: 0 <= i < |r| ==> dest.HostPort? && r[i] == Announcement(dest.host, dest.port)[i]
  {
    if dest.HostPort? then Announcement(dest.host, dest.port)[..if writesLeft < 2 then writesLeft else 2]
    else []
  }

  /** A client (client.Client): the destination every tunnel announces and the live-stream counter. */
  class Client {
    const dest: Destination
    const streams: Counter

    constructor (dest: Destination, streams: Counter)
      ensures this.dest == dest && this.streams == streams
    {
      this.dest := dest;
      this.streams := streams;
    }

    /** Client.handleTCPTunneling. Every exit closes tcpConn; once the stream
        is open, the counter gets exactly one +1 and one -1 and the stream is
        cancelled in both directions with the reset code. The end marker is
        written only after the record was, and the pump is entered only after
        both writes and a full two-byte read, whatever the reply says. */
    method HandleTcpTunneling(quicConn: QuicConnection, tcpConn: TcpConn) returns (exit: ClientExit)
      requires quicConn.next != null ==> quicConn.next.readCancel.None? && quicConn.next.writeCancel.None?
      modifies quicConn.next, tcpConn, streams
      ensures tcpConn.closed
      ensures streams.value == old(streams.value)
      ensures quicConn.next == null ==> exit == OpenFailed && streams.adds == old(streams.adds)
      ensures quicConn.next != null ==>
        var s := quicConn.next;
        && exit == ExitFor(true, dest, old(s.writesLeft), old(Flatten(s.inbound)))
        && streams.adds == old(streams.adds) + [1, -1]
        && s.written == old(s.written) + Sent(dest, old(s.writesLeft))
        && (exit.Piped? || exit.AckReadFailed? ==> s.written == old(s.written) + Announcement(dest.host, dest.port))
        && (exit.Piped? ==> Flatten(s.inbound) == old(Flatten(s.inbound))[2..])
        && (exit.AckReadFailed? ==> s.inbound == [])
        && (!exit.Piped? && !exit.AckReadFailed? ==> s.inbound == old(s.inbound))
        && s.readCancel == Some(TcpConnectionReset)
        && s.writeCancel == Some(TcpConnectionReset)
    {
      var stream := quicConn.OpenStreamSync();
      if stream == null {
        tcpConn.Close();
        return OpenFailed;
      }
      streams.Add(1);
      label tunnel: {
        if dest.BadHostPort? {
          tcpConn.Close();
          streams.Add(-1);
          exit := SplitFailed;
          break tunnel;
        }
        if dest.BadPort? {
          tcpConn.Close();
          streams.Add(-1);
          exit := AtoiFailed;
          break tunnel;
        }
        var record := ConnectRecord(To4(dest.host), dest.port);
        var ok := stream.Write(record);
        if !ok {
          tcpConn.Close();
          streams.Add(-1);
          exit := RecordWriteFailed;
          break tunnel;
        }
        ok := stream.Write([EndMarker]);
        if !ok {
          tcpConn.Close();
          streams.Add(-1);
          exit := EndWriteFailed;
          break tunnel;
        }
        var resp;
        resp, ok := stream.ReadFull(2);
        if !ok {
          tcpConn.Close();
          streams.Add(-1);
          exit := AckReadFailed;
          break tunnel;
        }
        exit := Piped(resp);
        Pipe(stream, tcpConn, streams);
      }
      // the deferred cleanup
      stream.CancelRead(TcpConnectionReset);
      stream.CancelWrite(TcpConnectionReset);
      tcpConn.Close();
    }
  }
}
