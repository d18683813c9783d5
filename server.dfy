/** The relay session as the code runs it: an object whose client address
    and two maps are updated in place by the forward loop and by the
    reverse forwarders. Socket and tunnel writes are recorded in a ghost log
    instead of being performed. HandleDatagram, ReadDatagram, ForwardRemote
    and HandleTunnelMessage are proved to do exactly what the matching step
    of module Relay does to the session's value, and to keep the session
    invariant; RouteDatagram is proved equal to Relay.Route, and Frame
    against the frame it must leave in the framing buffer. */
module Server {
  import opened Options
  import opened Socks5
  import opened UdpHeader
  import opened Relay

  /** A receive buffer as the runtime allocates it: all zero. */
  const ZeroBuffer: seq<byte> := seq(BufferSize, _ => 0)

  class UDPServer {
    /** The client's address, learned from the first datagram. */
    var clientAddr: Option<Endpoint>
    /** The header the client first used for each destination. */
    var dstAddrCache: map<Endpoint, seq<byte>>
    /** The open tunnel of each destination. */
    var wsConnCache: map<Endpoint, Tunnel>
    /** Every tunnel opened and every write to a tunnel or to the client. */
    ghost var log: seq<Event>

    /** The session's value. */
    ghost function State(): Session
      reads this
    {
      Session(clientAddr, dstAddrCache, wsConnCache, log)
    }

    ghost predicate Valid()
      reads this
    {
      Inv(State())
    }

    /** A server for a freshly bound socket: nothing learned yet. */
    constructor ()
      ensures Valid() && State() == Initial
    {
      clientAddr := None;
      dstAddrCache := map[];
      wsConnCache := map[];
      log := [];
    }

    /** One pass of the forward loop's body on n bytes read from src into
        buf. */
    method HandleDatagram(buf: array<byte>, n: nat, src: Endpoint,
                          resolve: seq<byte> -> Option<IP>, connect: Endpoint -> Option<Tunnel>)
      returns (outcome: Outcome, started: Option<DstAddr>)
      requires Valid() && n <= buf.Length
      modifies this
      ensures Valid()
      ensures (State(), outcome) == Forward(old(State()), buf[..], n, src, resolve, connect)
      ensures started == Started(old(State()), buf[..], n, src, resolve, connect)
    {
      ForwardKeepsInv(State(), buf[..], n, src, resolve, connect);
      started := None;
      if n == 0 {
        return Stop, None;
      }
      if clientAddr.None? {
        clientAddr := Some(src);
      }
      var d := Decode(buf[..], n, resolve);
      match d
      case OutOfRange =>
        outcome := Panic;
      case Dropped(_) =>
        outcome := Continue;
      case Decoded(header, _, dst, payload) =>
        var pooled := dst in wsConnCache;
        outcome := RouteDatagram(dst, header, payload, connect);
        if !pooled && outcome == Continue {
          // the reverse forwarder keeps the datagram's destination address
          started := Some(DstAddrOf(d));
        }
    }

    /** The rest of a pass once the datagram decoded to a request for dst. */
    method RouteDatagram(dst: Endpoint, header: seq<byte>, payload: seq<byte>,
                         connect: Endpoint -> Option<Tunnel>)
      returns (outcome: Outcome)
      modifies this
      ensures (State(), outcome) == Route(old(State()), dst, header, payload, connect)
    {
      if dst !in dstAddrCache {
        dstAddrCache := dstAddrCache[dst := header];
      }
      if dst in wsConnCache {
        log := log + [ToTunnel(wsConnCache[dst], payload)];
        outcome := Continue;
      } else {
        var conn := connect(dst);
        if conn.None? {
          return Stop;
        }
        var t := conn.value;
        wsConnCache := wsConnCache[dst := t];
        // the reverse forwarder is started, then the payload is written
        log := log + [Opened(dst, t), ToTunnel(t, payload)];
        outcome := Continue;
      }
    }

    /** The forward loop: one read per iteration into a buffer that lives as
        long as the loop, until a read fails or a step leaves the loop. */
    method ForwardRemote(received: seq<Read>, connect: Endpoint -> Option<Tunnel>)
      returns (outcome: Outcome)
      requires Valid()
      modifies this
      ensures Valid()
      ensures (State(), outcome) == RunForward(old(State()), ZeroBuffer, received, connect)
    {
      var buf := new byte[BufferSize](_ => 0);
      assert buf[..] == ZeroBuffer;
      var i := 0;
      outcome := Continue;
      while i < |received|
        invariant 0 <= i <= |received|
        invariant Valid() && buf.Length == BufferSize && outcome == Continue
        invariant RunForward(old(State()), ZeroBuffer, received, connect)
               == RunForward(State(), buf[..], received[i..], connect)
        decreases |received| - i
      {
        ghost var s0 := State();
        ghost var rest := received[i..];
        ghost var before := buf[..];
        assert rest[0] == received[i] && rest[1..] == received[i + 1..];
        match received[i]
        case ReadFailed =>
          assert RunForward(s0, before, rest, connect) == (s0, Stop);
          return Stop;
        case Received(data, src, resolve) =>
          outcome := ReadDatagram(buf, data, src, resolve, connect);
          assert RunForward(s0, before, rest, connect) ==
            if outcome == Continue then RunForward(State(), buf[..], received[i + 1..], connect) else (State(), outcome);
          if outcome != Continue {
            return;
          }
        i := i + 1;
      }
      assert received[i..] == [];
    }

    /** One iteration of the forward loop on a read that returned data from
        src: the datagram lands at the front of buf, then its pass runs. */
    method ReadDatagram(buf: array<byte>, data: seq<byte>, src: Endpoint,
                        resolve: seq<byte> -> Option<IP>, connect: Endpoint -> Option<Tunnel>)
      returns (outcome: Outcome)
      requires Valid()
      modifies this, buf
      ensures Valid()
      ensures buf[..] == Receive(old(buf[..]), data).0
      ensures (State(), outcome) ==
        Forward(old(State()), buf[..], Receive(old(buf[..]), data).1, src, resolve, connect)
    {
      ghost var r := Receive(buf[..], data);
      var n := if |data| <= buf.Length then |data| else buf.Length;
      forall k | 0 <= k < n {
        buf[k] := data[k];
      }
      assert buf[..] == r.0 by {
        assert buf[..][..n] == r.0[..n] && buf[..][n..] == r.0[n..];
      }
      var started;
      outcome, started := HandleDatagram(buf, n, src, resolve, connect);
    }

    /** One pass of a reverse forwarder's loop body: msg was read from the
        forwarder's tunnel; dstAddr is the address the forwarder was
        started with, recv the forward loop's receive buffer (which an
        IPv6 forwarder's address points into), and bufCopy the forwarder's
        framing buffer. */
    method HandleTunnelMessage(dstAddr: DstAddr, recv: array<byte>, msg: seq<byte>, bufCopy: array<byte>)
      returns (outcome: Outcome)
      requires Valid() && recv.Length == BufferSize && bufCopy.Length == BufferSize
      modifies this, bufCopy
      ensures Valid()
      ensures (State(), outcome) == Reply(old(State()), KeyNow(dstAddr, old(recv[..])), msg)
      ensures |log| == |old(log)| + 1 ==>
        var key := KeyNow(dstAddr, old(recv[..]));
        && bufCopy[..|dstAddrCache[key]| + |msg|] == dstAddrCache[key] + msg
        && bufCopy[|dstAddrCache[key]| + |msg|..] == old(bufCopy[|dstAddrCache[key]| + |msg|..])
    // an empty message or a cache miss leaves the framing buffer alone
    ensures |msg| == 0 || KeyNow(dstAddr, old(recv[..])) !in dstAddrCache ==> bufCopy[..] == old(bufCopy[..])
    {
      // the lookup key is built from the address as it reads now
      var key := match dstAddr
        case Owned(k) => k
        case InBuffer(port) => Endpoint(recv[4..19], port);
      assert key == KeyNow(dstAddr, recv[..]);
      ReplyKeepsInv(State(), key, msg);
      if |msg| == 0 {
        return Stop;
      }
      outcome := Continue;
      if key in dstAddrCache {
        var head := dstAddrCache[key];
        var fits := Frame(head, msg, bufCopy);
        if !fits {
          // the frame does not fit the buffer: slicing it panics
          return Panic;
        }
        var data := bufCopy[..|head| + |msg|];
        if clientAddr.Some? {
          log := log + [ToClient(clientAddr.value, data)];
        }
      }
    }

    /** Copies head and then as much of msg as fits to the front of
        bufCopy, and tells whether the whole frame fits. */
    method Frame(head: seq<byte>, msg: seq<byte>, bufCopy: array<byte>) returns (fits: bool)
      requires |head| <= bufCopy.Length
      modifies bufCopy
      ensures fits <==> |head| + |msg| <= bufCopy.Length
      ensures fits ==> bufCopy[..|head| + |msg|] == head + msg
      ensures fits ==> bufCopy[|head| + |msg|..] == old(bufCopy[|head| + |msg|..])
    {
      var h := |head|;
      var i := 0;
      while i < h
        invariant 0 <= i <= h
        invariant forall k :: 0 <= k < i ==> bufCopy[k] == head[k]
        invariant forall k :: i <= k < bufCopy.Length ==> bufCopy[k] == old(bufCopy[k])
      {
        bufCopy[i] := head[i];
        i := i + 1;
      }
      // the message is copied as far as the buffer reaches
      var m := if h + |msg| <= bufCopy.Length then |msg| else bufCopy.Length - h;
      var j := 0;
      while j < m
        invariant 0 <= j <= m
        invariant forall k :: 0 <= k < h ==> bufCopy[k] == head[k]
        invariant forall k :: h <= k < h + j ==> bufCopy[k] == msg[k - h]
        invariant forall k :: h + j <= k < bufCopy.Length ==> bufCopy[k] == old(bufCopy[k])
      {
        bufCopy[h + j] := msg[j];
        j := j + 1;
      }
      fits := h + |msg| <= bufCopy.Length;
      if fits {
        assert bufCopy[..h + |msg|] == head + msg by {
          forall k | 0 <= k < h + |msg|
            ensures bufCopy[k] == (head + msg)[k]
          {
          }
        }
        assert bufCopy[h + |msg|..] == old(bufCopy[h + |msg|..]) by {
          forall k | h + |msg| <= k < bufCopy.Length
            ensures bufCopy[k] == old(bufCopy[k])
          {
          }
        }
      }
    }
  }
}
