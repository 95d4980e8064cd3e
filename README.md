# tcp-over-quic: the per-stream tunnel handshake

This Dafny project models the handshake that both ends of tcp-over-quic run
on every QUIC stream, and the live-stream counter that goes with it.

- **Initiator (client).** For each local TCP connection, the client opens a stream.
  It writes the fixed-layout "TCP connect" record, then a separate one-byte end
  marker `0xFF`. It then reads exactly two reply bytes and hands over to the pump.
- **Responder (server).** For each accepted stream, the server reads one type byte,
  then 19 payload bytes, then one end byte, each by an exact-length read. It checks
  the two tag bytes and decodes the port and the IPv4 host. It dials that address,
  writes the `[0x01, 0xFF]` acknowledgement, then pumps.
- **Counter.** Each side has a `streams` counter. It goes up by one when a stream is
  opened or accepted. It goes down by exactly one on whichever exit the handler takes.

Layout:

- `wire.dfy` (`Wire`): bytes, ports, the tag constants, Go's `uint16` truncation and
  the big-endian helpers.
- `transport.dfy` (`Transport`): the QUIC stream, TCP connection, dialer and QUIC
  connection as small classes. Their state fixes whether each open, dial, write or
  read succeeds. A stream's input is a sequence of fragments. `ReadFull` is a loop
  over those fragments, proved against their concatenation.
- `utils.dfy` (`Utils`): the reset code, the counter, the pump as one teardown step,
  and a lemma about the counter under any interleaving of concurrent tunnels.
- `client.dfy` (`Client`), `server.dfy` (`Server`): the two handlers. Each is an
  imperative method. Its `ensures` ties the exit it takes and the state it leaves to a
  pure function of what the environment offered.
- `tunnel.dfy` (`Tunnel`): lemmas that combine the two ends: the round trip, the
  non-IPv4 case, a tunnel coming up end to end, and the worked example
  `93.184.216.34:80`.

The model follows what the code does, including where it is lenient:

- The record only has room for an IPv4 host, yet the code does not reject other
  hosts. `To4()` yields nil and the record is sent without host bytes (16 bytes
  instead of 20). The responder then cannot complete its 19-byte payload read, so
  it never dials (`Tunnel.NonIPv4HostNeverDialled`).
- The initiator never looks at the reply's contents.
- The responder never checks the length byte or the 12-byte mapped prefix.

## Model

| member | source | states |
|---|---|---|
| `Wire.Uint16` | client/client.go:104 | the port conversion keeps the value modulo 65536 (negative values included) and leaves in-range ports unchanged |
| `Wire.PutUint16` | client/client.go:104 | the two bytes are the big-endian encoding: high byte times 256 plus low byte is the value |
| `Wire.GetUint16` | server/server.go:108 | the decoded value has the first byte as its high byte and the second as its low byte |
| `Wire.BigEndianRoundTrip` | client/client.go:104 | decoding an encoded port gives the port back |
| `Wire.BigEndianInverse` | server/server.go:108 | encoding a decoded byte pair gives the pair back |
| `Transport.FlattenAppend` | server/server.go:90 | bytes delivered in two runs of fragments are the two runs' bytes in order |
| `Transport.Stream.ReadFull` | server/server.go:77 | an exact-length read succeeds iff that many bytes are still to come; it returns exactly the next n bytes and leaves the rest queued, however they were fragmented; a failed read means the stream ran dry |
| `Transport.Stream.Write` | client/client.go:114-126 | a write succeeds iff the transport still accepts one; a successful write appends its payload as one more separate write |
| `Transport.Dialer.Dial` | server/server.go:111-116 | every dial attempt is recorded; it yields a fresh open connection iff the endpoint is reachable |
| `Utils.Counter.Add` | server/server.go:64 | the counter changes by exactly delta, and the delta is recorded |
| `Utils.Pipe` | utils/utils.go:44-50 | the pump's teardown cancels both stream directions with code 0x00, closes the connection and decrements the counter exactly once |
| `Utils.TotalIsLive` | utils/utils.go:50 | under any well-nested interleaving of tunnels' +1 and -1 operations, the counter's net change equals the number of tunnels still open |
| `Utils.NeverNegative` | server/server.go:64 | at no point of such an interleaving is the counter below its starting value |
| `Utils.Drained` | client/client.go:75 | once every tunnel has terminated, the counter is back at its starting value |
| `Client.To4` | client/client.go:95 | the host bytes are four for an IPv4 host and none otherwise |
| `Client.ConnectRecord` | client/client.go:83-110 | the record has 16 bytes plus the host bytes (20 for IPv4, 16 otherwise, with no error); it is type 0x00, length 18, the truncated port big-endian, ten 0x00 bytes and 0xFF 0xFF, then the host bytes |
| `Client.ExitFor` | client/client.go:68-139 | the pump is reached iff the stream opened, the destination parsed, both writes succeeded and two reply bytes arrived, whatever their value; every other exit (failed open, unparsable host:port, unparsable port, failed first write, failed second write, short reply) is characterised exactly by its condition |
| `Client.Sent` | client/client.go:114-126 | the successful writes are a prefix of record-then-end-marker; the end marker is written only if the record was; nothing is written when the destination does not parse |
| `Client.Client.HandleTcpTunneling` | client/client.go:68-140 | the exit taken is `Client.ExitFor` of what the environment offered; tcpConn is closed on every exit; a failed open leaves the counter untouched; otherwise the counter gets exactly one +1 and one -1, both stream directions are cancelled with 0x00, the writes are `Client.Sent`, and only the pump path consumes exactly the two reply bytes |
| `Server.Decode` | server/server.go:108-110 | the port is payload bytes 1-2 big-endian and the host is payload bytes 15-18 |
| `Server.ReadHandshake` | server/server.go:76-110 | the handshake is accepted iff at least 21 bytes arrive, the first is 0x00 and the 21st is 0xFF; the address then comes from bytes 2-3 and 16-19; a wrong type byte is reported iff the first byte is not 0x00; an empty stream fails the first read |
| `Server.ReadHandshakeFailures` | server/server.go:89-107 | the payload read fails iff the type byte is 0x00 and fewer than 19 bytes follow it; the end-byte read fails iff exactly 19 follow; a wrong end byte is reported iff 21 bytes arrive with 0x00 first and something other than 0xFF at index 20 |
| `Server.Consumed` | server/server.go:76-100 | a wrong type byte consumes one byte and no payload; a completed end-byte read consumes 21 bytes; a failed read consumes what was left |
| `Server.ExitFor` | server/server.go:70-126 | the responder dials iff the handshake was accepted; a dial failure is exactly an unreachable endpoint; the pump is reached iff the dial and the acknowledgement write succeed |
| `Server.Dialled` | server/server.go:111 | a rejected handshake dials nothing; any other exit dials exactly one endpoint |
| `Server.Server.HandleTcpTunneling` | server/server.go:70-126 | the exit is `Server.ExitFor` of the stream's concatenated bytes, so fragmentation cannot change it; exactly the read bytes are consumed; the only write is [0x01, 0xFF] and only on the pump path; the dial log grows only after both tag checks; the counter gets exactly one -1; both directions are cancelled with 0x00; a dialled connection is closed on every exit |
| `Server.Server.HandleConnection` | server/server.go:57-68 | each accepted stream gets one +1 and is handled, failed accepts are skipped, and the counter ends where it started after one +1 and one -1 per accepted stream; every accepted stream ends cancelled |
| `Server.OnlyReadBytesMatter` | server/server.go:76-107 | once the bytes the reads take are present, whatever follows on the stream does not change the outcome or the bytes consumed |
| `Server.UncheckedBytes` | server/server.go:108-110 | two 21-byte inputs that agree on the type byte, the port bytes, the host bytes and the end byte have the same outcome: the length byte and the mapped prefix are never checked |
| `Server.LaterFragmentsIgnored` | server/server.go:77-100 | fragments that arrive after the 21 handshake bytes do not change the responder's exit |
| `Tunnel.AnnouncementBytes` | client/client.go:114-121 | on the wire, the two writes are the record immediately followed by 0xFF |
| `Tunnel.RoundTrip` | client/client.go:83-121 | for an IPv4 host, the record plus 0xFF, followed by anything, is accepted by the responder's reads (server/server.go:76-110); it decodes to exactly that host and the port modulo 65536, consuming 21 bytes |
| `Tunnel.NonIPv4HostNeverDialled` | client/client.go:95-110 | for a non-IPv4 host the initiator sends 17 bytes, so the responder cannot complete its payload read and never dials or acknowledges; it fails only once the stream ends |
| `Tunnel.TunnelEstablished` | server/server.go:108-125 | with an IPv4 destination, successful writes on both ends and a reachable endpoint, the responder pipes to exactly the configured host and truncated port, and the initiator, reading the acknowledgement, pipes too |
| `Tunnel.ExampleDestination` | client/client.go:83-110 | destination 93.184.216.34:80 is encoded as 00 12 00 50, ten zero bytes, FF FF, 5D B8 D8 22, and decoded back to that host and port 80 |

## Left out

- The `Serve` loops, QUIC `DialAddr` / `ListenAddr` / `Accept`, and the TLS
  configuration. These are network set-up. What `OpenStreamSync` and `AcceptStream`
  return is an input: `QuicConnection.next`, and the `accepted` sequence of
  `HandleConnection`.
- `net.SplitHostPort`, `strconv.Atoi`, `net.ParseIP(...).To4()`, `net.IP.String` and
  `net.JoinHostPort` are library parsers and formatters.
  - The client's configured destination is given already taken apart (`Client.Destination`).
  - The dialled address is the endpoint's bytes and port, since formatting it is
    injective.
- Utils.Pipe: does not model the two concurrent `io.Copy` goroutines or the bytes
  they move. It is only the teardown after the first direction finishes, which
  happens once.
- Server.Server.HandleConnection: handlers run one after the other instead of as
  goroutines, over a finite run of accepts instead of an endless loop. The exits it
  returns are only counted, not tied to `Server.ExitFor` stream by stream. The effect
  of concurrency on the counter is covered separately by `Utils.TotalIsLive` and
  `Utils.NeverNegative`.
- Utils.Counter.Add: does not model int64 wrap-around, and atomicity is not modelled
  (the model is sequential).
- Transport.TcpConn.Close: the error from a second `Close` is ignored by every
  caller and is not modelled. The client closes `tcpConn` more than once on its
  error paths.
- Transport.Stream.ReadFull: a read that is waiting for more data blocks in the
  program until the peer sends it or the stream or connection is torn down (the
  idle timeout is 24 hours). Here a stream's inbound fragments are everything it
  will ever deliver, and a read that needs more fails at once. In particular, for a
  non-IPv4 destination both ends would block, each waiting for the other, and stay
  counted in `streams` until teardown. The model shows only that the responder
  never gets its full payload, not the wait.
- Transport.Stream.Write: a write either succeeds whole or fails. Partial writes
  are not modelled.
- `utils.WriteJSON`, the `/client` and `/server` HTTP status endpoints, `main.go`,
  and all `log` / `fmt.Println` output. These are I/O.
