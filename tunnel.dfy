/** Both ends together: what the initiator's writes make the responder do,
    and what the responder's acknowledgement makes the initiator do. */
module Tunnel {
  import opened Wire
  import opened Transport
  import Client
  import Server

  /** The bytes the initiator's two writes put on the stream. */
  lemma AnnouncementBytes(host: Client.ParsedHost, port: int)
    ensures Flatten(Client.Announcement(host, port)) == Client.ConnectRecord(Client.To4(host), port) + [EndMarker]
  {
    var a: seq<seq<byte>> := Client.Announcement(host, port);
    assert |a[1..][1..]| == 0;
    assert Flatten(a[1..]) == [EndMarker] + Flatten(a[1..][1..]);
  }

  /** Round trip: for an IPv4 host, the record plus the end marker is
      accepted by the responder and decodes to exactly that host and the
      port truncated to 16 bits, whatever follows on the stream. */
  lemma RoundTrip(ip: IPv4, port: int, rest: seq<byte>)
    ensures Server.ReadHandshake(Client.ConnectRecord(ip, port) + [EndMarker] + rest)
         == Server.Connect(Endpoint(ip, Uint16(port)))
    ensures Server.Consumed(Client.ConnectRecord(ip, port) + [EndMarker] + rest) == 2 + PayloadSize
  {
  }

  /** For a host that is not IPv4 the initiator sends only 17 bytes and then
      waits for the reply, so the responder cannot complete its 19-byte
      payload read: nothing is dialled and no acknowledgement is sent. In the
      running program both reads then block, and the responder's read fails
      only once the stream or the connection is torn down; here that is the
      stream ending after the 17 bytes. */
  lemma NonIPv4HostNeverDialled(port: int, reachable: set<Endpoint>, writesLeft: nat)
    ensures |Flatten(Client.Announcement(Client.NotV4, port))| == 17
    ensures Server.ReadHandshake(Flatten(Client.Announcement(Client.NotV4, port))) == Server.PayloadReadFailed
    ensures Server.ExitFor(Flatten(Client.Announcement(Client.NotV4, port)), reachable, writesLeft)
         == Server.Rejected(Server.PayloadReadFailed)
  {
    AnnouncementBytes(Client.NotV4, port);
  }

  /** A tunnel comes up end to end: when the initiator is configured with an
      IPv4 destination, both its writes go through, the destination is
      reachable and the acknowledgement write goes through, the responder
      dials exactly the configured host and truncated port, and the
      initiator, reading the acknowledgement, enters the pump. */
  lemma TunnelEstablished(ip: IPv4, port: int, clientWrites: nat, serverWrites: nat,
                          reachable: set<Endpoint>, later: seq<byte>, piped: seq<byte>)
    requires clientWrites >= 2 && serverWrites >= 1
    requires Endpoint(ip, Uint16(port)) in reachable
    ensures var dest := Client.HostPort(Client.V4(ip), port);
      && Server.ExitFor(Flatten(Client.Sent(dest, clientWrites)) + later, reachable, serverWrites)
         == Server.Piped(Endpoint(ip, Uint16(port)))
      && Client.ExitFor(true, dest, clientWrites, Flatten([Ack]) + piped) == Client.Piped(Ack)
  {
    var dest := Client.HostPort(Client.V4(ip), port);
    assert Client.Sent(dest, clientWrites) == Client.Announcement(dest.host, dest.port);
    AnnouncementBytes(dest.host, dest.port);
    RoundTrip(ip, port, later);
    assert Flatten([Ack]) == Ack + Flatten([Ack][1..]);
    assert (Ack + piped)[..2] == Ack;
  }

  /** The worked example: destination 93.184.216.34:80. */
  lemma ExampleDestination()
    ensures Client.ConnectRecord([93, 184, 216, 34], 80)
         == [0x00, 0x12, 0x00, 0x50, 0, 0, 0, 0, 0, 0, 0, 0, 0, 0, 0xFF, 0xFF, 93, 184, 216, 34]
    ensures Server.ReadHandshake(Client.ConnectRecord([93, 184, 216, 34], 80) + [EndMarker])
         == Server.Connect(Endpoint([93, 184, 216, 34], 80))
  {
  }
}
