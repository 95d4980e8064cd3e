/** The collaborators the tunnel handlers talk to: a QUIC stream, a TCP
    connection, the outbound dialer and the QUIC connection that opens
    streams. Each is reduced to the state the handlers observe; whether an
    open, a dial, a write or a read succeeds is fixed by that state, so every
    success and failure pattern is one choice of the environment. */
module Transport {
  import opened Wire

  datatype Option<T> = None | Some(value: T)

  /** The address a responder dials, net.JoinHostPort(net.IP(host).String(),
      strconv.Itoa(port)), kept as the bytes and number it is formatted from:
      the formatting is injective, so nothing is lost. */
  datatype Endpoint = Endpoint(host: IPv4, port: Port)

  /** The bytes of a sequence of fragments, in delivery order. */
  function Flatten(fs: seq<seq<byte>>): seq<byte>
  {
    if |fs| == 0 then [] else fs[0] + Flatten(fs[1..])
  }

  /** Delivering two runs of fragments one after the other delivers their bytes one after the other. */
  lemma {:induction false} FlattenAppend(a: seq<seq<byte>>, b: seq<seq<byte>>)
    ensures Flatten(a + b) == Flatten(a) + Flatten(b)
  {
    if |a| == 0 {
      assert a + b == b;
    } else {
      assert (a + b)[1..] == a[1..] + b;
      FlattenAppend(a[1..], b);
    }
  }

  /** The cancellation state after CancelRead or CancelWrite with code: the first code given sticks. */
  function AfterCancel(c: Option<nat>, code: nat): (r: Option<nat>)
    ensures r.Some?
    ensures c.None? ==> r == Some(code)
    ensures c.Some? ==> r == c
  {
    if c.None? then Some(code) else c
  }

  /** One bidirectional QUIC stream (quic.Stream). */
  class Stream {
    /** Fragments the peer has delivered and this end has not read yet; end of
        this list is end of stream (or a reset by the peer). */
    var inbound: seq<seq<byte>>
    /** How many further Write calls the transport accepts before failing. */
    var writesLeft: nat
    /** The payloads of the successful Write calls, one entry per call, in order. */
    var written: seq<seq<byte>>
    var readCancel: Option<nat>
    var writeCancel: Option<nat>

    constructor (inbound: seq<seq<byte>>, writesLeft: nat)
      ensures this.inbound == inbound && this.writesLeft == writesLeft
      ensures written == [] && readCancel == None && writeCancel == None
    {
      this.inbound := inbound;
      this.writesLeft := writesLeft;
      written := [];
      readCancel := None;
      writeCancel := None;
    }

    /** io.ReadFull(stream, buf) with len(buf) == n: reads fragment by
        fragment until n bytes have arrived; fails if the stream ends first,
        having used up what was left. Leftover bytes of the last fragment stay
        queued for the next read. */
    method ReadFull(n: nat) returns (buf: seq<byte>, ok: bool)
      modifies this`inbound
      ensures ok <==> n <= |Flatten(old(inbound))|
      ensures ok ==> buf == Flatten(old(inbound))[..n] && Flatten(inbound) == Flatten(old(inbound))[n..]
      ensures !ok ==> inbound == []
    {
      buf := [];
      while |buf| < n && inbound != []
        invariant |buf| <= n
        invariant buf + Flatten(inbound) == Flatten(old(inbound))
        decreases n - |buf|, |inbound|
      {
        var f := inbound[0];
        var take := if n - |buf| < |f| then n - |buf| else |f|;
        assert f == f[..take] + f[take..];
        if take < |f| {
          assert ([f[take..]] + inbound[1..])[1..] == inbound[1..];
          inbound := [f[take..]] + inbound[1..];
        } else {
          inbound := inbound[1..];
        }
        buf := buf + f[..take];
      }
      ok := |buf| == n;
    }

    /** stream.Write(data): succeeds while the transport still accepts writes. */
    method Write(data: seq<byte>) returns (ok: bool)
      modifies this`writesLeft, this`written
      ensures ok <==> old(writesLeft) > 0
      ensures written == if ok then old(written) + [data] else old(written)
      ensures writesLeft == if ok then old(writesLeft) - 1 else old(writesLeft)
    {
      ok := writesLeft > 0;
      if ok {
        written := written + [data];
        writesLeft := writesLeft - 1;
      }
    }

    /** stream.CancelRead(code). */
    method CancelRead(code: nat)
      modifies this`readCancel
      ensures readCancel == AfterCancel(old(readCancel), code)
    {
      readCancel := AfterCancel(readCancel, code);
    }

    /** stream.CancelWrite(code). */
    method CancelWrite(code: nat)
      modifies this`writeCancel
      ensures writeCancel == AfterCancel(old(writeCancel), code)
    {
      writeCancel := AfterCancel(writeCancel, code);
    }
  }

  /** A local TCP connection (net.Conn); only whether it has been closed matters here. */
  class TcpConn {
    var closed: bool

    constructor ()
      ensures !closed
    {
      closed := false;
    }

    /** conn.Close(); closing twice is harmless (its error is ignored by every caller). */
    method Close()
      modifies this
      ensures closed
    {
      closed := true;
    }
  }

  /** net.Dial("tcp", addr): the endpoints that accept a connection are fixed
      by the environment, and every attempt is recorded. */
  class Dialer {
    const reachable: set<Endpoint>
    var attempts: seq<Endpoint>

    constructor (reachable: set<Endpoint>)
      ensures this.reachable == reachable && attempts == []
    {
      this.reachable := reachable;
      attempts := [];
    }

    method Dial(to: Endpoint) returns (conn: TcpConn?)
      modifies this
      ensures attempts == old(attempts) + [to]
      ensures (conn != null) <==> (to in reachable)
      ensures conn != null ==> fresh(conn) && !conn.closed
    {
      attempts := attempts + [to];
      if to in reachable {
        conn := new TcpConn();
      } else {
        conn := null;
      }
    }
  }

  /** The initiator's QUIC connection; next is what OpenStreamSync returns
      (null when opening fails). */
  class QuicConnection {
    const next: Stream?

    constructor (next: Stream?)
      ensures this.next == next
    {
      this.next := next;
    }

    method OpenStreamSync() returns (s: Stream?)
      ensures s == next
    {
      s := next;
    }
  }
}
