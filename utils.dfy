/** The helpers both ends share: the reset code, the live-stream counter and
    the data pump, reduced to the single teardown step the handlers rely on. */
module Utils {
  import opened Transport

  /** TCP_CONNECTION_RESET: the one application error code used for every stream cancellation. */
  const TcpConnectionReset: nat := 0x00

  /** The int64 `streams` field of a client or server, changed only by
      atomic.AddInt64. adds records every delta applied, in order. */
  class Counter {
    var value: int
    ghost var adds: seq<int>

    constructor (initial: int)
      ensures value == initial && adds == []
    {
      value := initial;
      adds := [];
    }

    /** atomic.AddInt64(&streams, delta). */
    method Add(delta: int)
      modifies this
      ensures value == old(value) + delta
      ensures adds == old(adds) + [delta]
    {
      value := value + delta;
      adds := adds + [delta];
    }
  }

  /** utils.Pipe, as the terminal step of a tunnel: once the first copy
      direction finishes, both stream directions are cancelled with the reset
      code, the connection is closed and the counter is decremented once. The
      bytes copied in between are not modelled. */
  method Pipe(stream: Stream, conn: TcpConn, streams: Counter)
    modifies stream`readCancel, stream`writeCancel, conn, streams
    ensures stream.readCancel == AfterCancel(old(stream.readCancel), TcpConnectionReset)
    ensures stream.writeCancel == AfterCancel(old(stream.writeCancel), TcpConnectionReset)
    ensures conn.closed
    ensures streams.value == old(streams.value) - 1
    ensures streams.adds == old(streams.adds) + [-1]
  {
    stream.CancelRead(TcpConnectionReset);
    stream.CancelWrite(TcpConnectionReset);
    conn.Close();
    streams.Add(-1);
  }

  /** The counter operations of many concurrently running tunnels, in the
      order the atomic adds took effect: each tunnel opens once (its +1) and
      closes once (its single -1). */
  datatype CounterEvent = Opened(tunnel: nat) | Closed(tunnel: nat)

  /** The tunnels open after a history of counter events. */
  function Live(events: seq<CounterEvent>): set<nat>
  {
    if |events| == 0 then {}
    else
      var before := Live(events[..|events| - 1]);
      match events[|events| - 1]
      case Opened(t) => before + {t}
      case Closed(t) => before - {t}
  }

  /** Every tunnel is opened before it is closed, and opened or closed at most once at a time. */
  ghost predicate WellNested(events: seq<CounterEvent>)
  {
    |events| == 0 ||
    (var before := events[..|events| - 1];
     WellNested(before) &&
     match events[|events| - 1]
     case Opened(t) => t !in Live(before)
     case Closed(t) => t in Live(before))
  }

  /** The sum of the deltas a history applies to the counter. */
  function Total(events: seq<CounterEvent>): int
  {
    if |events| == 0 then 0
    else Total(events[..|events| - 1]) + (if events[|events| - 1].Opened? then 1 else -1)
  }

  /** Whatever the interleaving, the counter's net change is the number of tunnels still open. */
  lemma {:induction false} TotalIsLive(events: seq<CounterEvent>)
    requires WellNested(events)
    ensures Total(events) == |Live(events)|
  {
    if |events| > 0 {
      TotalIsLive(events[..|events| - 1]);
    }
  }

  /** The counter never drops below its starting value at any point of a well-nested history. */
  lemma {:induction false} NeverNegative(events: seq<CounterEvent>, k: nat)
    requires WellNested(events) && k <= |events|
    ensures Total(events[..k]) >= 0
  {
    if k < |events| {
      assert events[..|events| - 1][..k] == events[..k];
      NeverNegative(events[..|events| - 1], k);
    } else {
      assert events[..k] == events;
      TotalIsLive(events);
    }
  }

  /** Once every tunnel has terminated, the counter is back at its starting value. */
  lemma Drained(events: seq<CounterEvent>)
    requires WellNested(events) && Live(events) == {}
    ensures Total(events) == 0
  {
    TotalIsLive(events);
  }
}
