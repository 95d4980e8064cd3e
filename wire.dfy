/** Byte-level vocabulary shared by both ends of the tunnel handshake:
    the byte type, the fixed tag values and Go's 16-bit big-endian helpers. */
module Wire {

  type byte = b: int | 0 <= b < 0x100

  /** A TCP port after Go's uint16 conversion. */
  type Port = p: int | 0 <= p < 0x1_0000

  /** The four bytes of an IPv4 address, as net.IP.To4 returns them. */
  type IPv4 = s: seq<byte> | |s| == 4 witness [0, 0, 0, 0]

  /** Type byte of the "TCP connect" record. */
  const ConnectType: byte := 0x00
  /** Value the initiator writes in the record's length byte. */
  const ConnectLength: byte := 18
  /** The end-of-handshake marker that follows the record and the acknowledgement status. */
  const EndMarker: byte := 0xFF
  /** Status byte of the responder's acknowledgement. */
  const AckType: byte := 0x01
  /** The acknowledgement the responder writes after a successful dial. */
  const Ack: seq<byte> := [AckType, EndMarker]
  /** The ten zero bytes and two 0xFF bytes of an IPv4-mapped IPv6 address. */
  const MappedPrefix: seq<byte> := [0, 0, 0, 0, 0, 0, 0, 0, 0, 0, 0xFF, 0xFF]
  /** Number of bytes the responder reads between the type byte and the end byte. */
  const PayloadSize: nat := 19

  /** Go's uint16(n) on an int: two's-complement truncation to the low 16 bits,
      which for negative n too is the Euclidean remainder. */
  function Uint16(n: int): (r: Port)
    ensures (n - r) % 0x1_0000 == 0
    ensures 0 <= n < 0x1_0000 ==> r == n
  {
    n % 0x1_0000
  }

  /** binary.BigEndian.PutUint16: high byte first. */
  function PutUint16(v: Port): (r: seq<byte>)
    ensures |r| == 2 && r[0] as int * 0x100 + r[1] == v
  {
    [v / 0x100, v % 0x100]
  }

  /** binary.BigEndian.Uint16 on a two-byte slice. */
  function GetUint16(b: seq<byte>): (r: Port)
    requires |b| == 2
    ensures r / 0x100 == b[0] && r % 0x100 == b[1]
  {
    b[0] as int * 0x100 + b[1]
  }

  /** Decoding an encoded port gives it back. */
  lemma BigEndianRoundTrip(v: Port)
    ensures GetUint16(PutUint16(v)) == v
  {
  }

  /** Encoding a decoded pair of bytes gives them back, so the two helpers are inverse bijections. */
  lemma BigEndianInverse(b: seq<byte>)
    requires |b| == 2
    ensures PutUint16(GetUint16(b)) == b
  {
  }
}
