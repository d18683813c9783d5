/** The state of one UDP ASSOCIATE session and what one step of each of
    its tasks does to it, as values. Two kinds of task share the state:
    the forward loop, which decodes one datagram from the client per step,
    and one reverse forwarder per tunnel, which frames one tunnel message
    per step. The class in module Server runs these steps in place. */
module Relay {
  import opened Options
  import opened Socks5
  import opened UdpHeader

  /** An open tunnel to a per-destination relay. */
  datatype Tunnel = Tunnel(id: nat)

  /** What the session does to the outside world. */
  datatype Event =
      /** a tunnel was opened for key, and its reverse forwarder started */
    | Opened(key: Endpoint, tunnel: Tunnel)
      /** a payload was written to a tunnel */
    | ToTunnel(tunnel: Tunnel, data: seq<byte>)
      /** a framed reply was written to the client's address */
    | ToClient(addr: Endpoint, data: seq<byte>)

  /** How a step leaves its loop: go on, leave the loop (break), or crash the
      process (a Go panic). */
  datatype Outcome = Continue | Stop | Panic

  /** clientAddr: the learned client address; headers: the destination
      header cache; tunnels: the tunnel pool; log: everything sent so far. */
  datatype Session = Session(
    clientAddr: Option<Endpoint>,
    headers: map<Endpoint, seq<byte>>,
    tunnels: map<Endpoint, Tunnel>,
    log: seq<Event>)

  /** A fresh session: nothing learned, both maps empty, nothing sent. */
  const Initial: Session := Session(None, map[], map[], [])

  /** How many times a tunnel was opened for key. */
  function Opens(log: seq<Event>, key: Endpoint): nat {
    if log == [] then 0
    else Opens(log[..|log| - 1], key) + (if log[|log| - 1].Opened? && log[|log| - 1].key == key then 1 else 0)
  }

  /** The session invariant. Every pooled destination has a cached header
      (the header is stored before the tunnel is opened); a tunnel exists
      only once a client address is known; cached headers are request
      headers; and each destination has had exactly one tunnel opened if it
      is pooled, none otherwise. */
  ghost predicate Inv(s: Session) {
    && (forall k :: k in s.tunnels ==> k in s.headers)
    && (s.tunnels != map[] ==> s.clientAddr.Some?)
    && (forall k :: k in s.headers ==> |s.headers[k]| <= MaxHeaderLength)
    && (forall k :: Opens(s.log, k) == if k in s.tunnels then 1 else 0)
  }

  /** t is s grown: a learned client address is kept, a cached header is
      never replaced, a pooled tunnel is never replaced, and the log only
      grows at its end. */
  ghost predicate Extends(s: Session, t: Session) {
    && (s.clientAddr.Some? ==> t.clientAddr == s.clientAddr)
    && (forall k :: k in s.headers ==> k in t.headers && t.headers[k] == s.headers[k])
    && (forall k :: k in s.tunnels ==> k in t.tunnels && t.tunnels[k] == s.tunnels[k])
    && s.log <= t.log
  }

  /** The client address is learned from the first datagram read. */
  function Learn(s: Session, src: Endpoint): (r: Session)
    ensures r.clientAddr.Some?
    ensures s.clientAddr.Some? ==> r.clientAddr == s.clientAddr
    ensures s.clientAddr.None? ==> r.clientAddr == Some(src)
    ensures r.headers == s.headers && r.tunnels == s.tunnels && r.log == s.log
  {
    if s.clientAddr.None? then s.(clientAddr := Some(src)) else s
  }

  /** Once learned, the client address is not learned again: a later
      datagram from another source leaves it as it is. */
  lemma LearnOnce(s: Session, first: Endpoint, later: Endpoint)
    ensures Learn(Learn(s, first), later) == Learn(s, first)
  {
  }

  /** Insert if absent: the header already cached for key wins. */
  function LoadOrStore(headers: map<Endpoint, seq<byte>>, key: Endpoint, header: seq<byte>): (r: map<Endpoint, seq<byte>>)
    ensures r.Keys == headers.Keys + {key}
    ensures forall k :: k in headers ==> r[k] == headers[k]
    ensures key !in headers ==> r[key] == header
  {
    if key in headers then headers else headers[key := header]
  }

  /** A second store for the same key changes nothing. */
  lemma LoadOrStoreFirstWins(headers: map<Endpoint, seq<byte>>, key: Endpoint, first: seq<byte>, later: seq<byte>)
    ensures LoadOrStore(LoadOrStore(headers, key, first), key, later) == LoadOrStore(headers, key, first)
    ensures LoadOrStore(LoadOrStore(headers, key, first), key, later)[key] ==
      if key in headers then headers[key] else first
  {
  }

  /** One step of the forward loop on n bytes read from src into the
      receive buffer buf. resolve is the name lookup, connect the tunnel
      open (None when it fails). */
  function Forward(s: Session, buf: seq<byte>, n: nat, src: Endpoint,
                   resolve: seq<byte> -> Option<IP>, connect: Endpoint -> Option<Tunnel>): (r: (Session, Outcome))
    requires n <= |buf|
    ensures Extends(s, r.0)
    // an empty read ends the loop before anything is learned
    ensures n == 0 ==> r == (s, Stop)
    // any datagram read teaches the client address, once
    ensures 0 < n ==> r.0.clientAddr == if s.clientAddr.None? then Some(src) else s.clientAddr
    // a dropped or truncated datagram touches neither map and sends nothing
    ensures 0 < n && !Decode(buf, n, resolve).Decoded? ==>
      && r.0.headers == s.headers && r.0.tunnels == s.tunnels && r.0.log == s.log
      && r.1 == (if Decode(buf, n, resolve).OutOfRange? then Panic else Continue)
    // a decoded datagram: its header is cached unless one is cached already,
    // whether or not the tunnel then opens
    ensures 0 < n && Decode(buf, n, resolve).Decoded? ==>
      var d := Decode(buf, n, resolve);
      && d.dst in r.0.headers
      && r.0.headers[d.dst] == (if d.dst in s.headers then s.headers[d.dst] else d.header)
      && r.0.headers.Keys == s.headers.Keys + {d.dst}
    // a pooled destination reuses its tunnel and gets exactly the payload
    ensures 0 < n && Decode(buf, n, resolve).Decoded? && Decode(buf, n, resolve).dst in s.tunnels ==>
      var d := Decode(buf, n, resolve);
      r.1 == Continue && r.0.tunnels == s.tunnels && r.0.log == s.log + [ToTunnel(s.tunnels[d.dst], d.payload)]
    // a new destination opens one tunnel; failing to open ends the loop and
    // neither pools nor sends anything
    ensures 0 < n && Decode(buf, n, resolve).Decoded? && Decode(buf, n, resolve).dst !in s.tunnels ==>
      var d := Decode(buf, n, resolve);
      match connect(d.dst)
      case None => r.1 == Stop && r.0.tunnels == s.tunnels && r.0.log == s.log
      case Some(t) =>
        && r.1 == Continue
        && r.0.tunnels == s.tunnels[d.dst := t]
        && r.0.log == s.log + [Opened(d.dst, t), ToTunnel(t, d.payload)]
  {
    if n == 0 then (s, Stop)
    else
      var s1 := Learn(s, src);
      match Decode(buf, n, resolve)
      case OutOfRange => (s1, Panic)
      case Dropped(_) => (s1, Continue)
      case Decoded(header, _, dst, payload) => Route(s1, dst, header, payload, connect)
  }

  /** The part of a forward step after a datagram for dst decoded: cache
      its header, then write the payload to the pooled tunnel or to a newly
      opened one. */
  function Route(s: Session, dst: Endpoint, header: seq<byte>, payload: seq<byte>,
                 connect: Endpoint -> Option<Tunnel>): (r: (Session, Outcome))
    ensures Extends(s, r.0) && r.0.clientAddr == s.clientAddr
    // the header is cached unless one is cached already, whether or not the
    // tunnel then opens
    ensures r.0.headers.Keys == s.headers.Keys + {dst}
    ensures r.0.headers[dst] == if dst in s.headers then s.headers[dst] else header
    // a pooled destination reuses its tunnel and gets exactly the payload
    ensures dst in s.tunnels ==>
      r.1 == Continue && r.0.tunnels == s.tunnels && r.0.log == s.log + [ToTunnel(s.tunnels[dst], payload)]
    // a new destination opens one tunnel; failing to open ends the loop
    // and neither pools nor sends anything
    ensures dst !in s.tunnels ==>
      match connect(dst)
      case None => r.1 == Stop && r.0.tunnels == s.tunnels && r.0.log == s.log
      case Some(t) =>
        && r.1 == Continue
        && r.0.tunnels == s.tunnels[dst := t]
        && r.0.log == s.log + [Opened(dst, t), ToTunnel(t, payload)]
  {
    var s2 := s.(headers := LoadOrStore(s.headers, dst, header));
    if dst in s2.tunnels then
      (s2.(log := s2.log + [ToTunnel(s2.tunnels[dst], payload)]), Continue)
    else
      match connect(dst)
      case None => (s2, Stop)
      case Some(t) =>
        (s2.(tunnels := s2.tunnels[dst := t], log := s2.log + [Opened(dst, t), ToTunnel(t, payload)]), Continue)
  }

  /** The destination address a started reverse forwarder keeps, and from
      which it builds its lookup key again for every tunnel message. The
      IPv4 and domain branches build an address of their own; the IPv6
      branch's address value is a slice of the receive buffer itself, not
      a copy, so such a forwarder sees whatever bytes 4 to 18 of the buffer
      hold when it builds the key. */
  datatype DstAddr = Owned(key: Endpoint) | InBuffer(port: nat)

  /** The address kept by the forwarder started for a decoded datagram. */
  function DstAddrOf(d: DecodeResult): (a: DstAddr)
    requires d.Decoded?
    ensures a.InBuffer? <==> d.addr.Ipv6?
    ensures a.InBuffer? ==> a.port == d.dst.port
    ensures a.Owned? ==> a.key == d.dst
  {
    if d.addr.Ipv6? then InBuffer(d.dst.port) else Owned(d.dst)
  }

  /** The lookup key a forwarder with address a builds while the receive
      buffer holds buf. */
  function KeyNow(a: DstAddr, buf: seq<byte>): (r: Endpoint)
    requires 19 <= |buf|
    // an owned address does not depend on the buffer at all
    ensures a.Owned? ==> r == a.key
    // an address in the buffer reads the 15 bytes there now, and its port
    ensures a.InBuffer? ==> r.port == a.port && |r.ip| == 15 && r.ip == buf[4..19]
  {
    match a
    case Owned(key) => key
    case InBuffer(port) => Endpoint(buf[4..19], port)
  }

  /** The reverse forwarder a forward step starts: one exactly when the
      step opens a tunnel, and at that moment its key is the destination's
      key. */
  function Started(s: Session, buf: seq<byte>, n: nat, src: Endpoint,
                   resolve: seq<byte> -> Option<IP>, connect: Endpoint -> Option<Tunnel>): (a: Option<DstAddr>)
    requires n <= |buf|
    ensures a.Some? <==>
      0 < n && Decode(buf, n, resolve).Decoded? && Decode(buf, n, resolve).dst !in s.tunnels &&
      connect(Decode(buf, n, resolve).dst).Some?
    ensures a.Some? ==> 19 <= |buf| ==> KeyNow(a.value, buf) == Decode(buf, n, resolve).dst
  {
    if 0 < n && Decode(buf, n, resolve).Decoded? && Decode(buf, n, resolve).dst !in s.tunnels &&
       connect(Decode(buf, n, resolve).dst).Some?
    then Some(DstAddrOf(Decode(buf, n, resolve)))
    else None
  }

  /** One step of the reverse forwarder for destination key on a message
      msg read from its tunnel: frame it with the cached header and send it
      to the client. */
  function Reply(s: Session, key: Endpoint, msg: seq<byte>): (r: (Session, Outcome))
    ensures r.0.clientAddr == s.clientAddr && r.0.headers == s.headers && r.0.tunnels == s.tunnels
    ensures Extends(s, r.0)
    // an empty message ends the forwarder
    ensures r.1 == Stop <==> |msg| == 0
    // a frame longer than the framing buffer crashes
    ensures r.1 == Panic <==> 0 < |msg| && key in s.headers && |s.headers[key]| + |msg| > BufferSize
    // at most one send, and exactly when there is a header, a client and room
    ensures |r.0.log| == |s.log| + 1 <==>
      0 < |msg| && key in s.headers && |s.headers[key]| + |msg| <= BufferSize && s.clientAddr.Some?
    ensures |r.0.log| != |s.log| + 1 ==> r.0.log == s.log
    // what is sent: the header the client first used for key, then msg
    ensures |r.0.log| == |s.log| + 1 ==>
      r.0.log[|s.log|] == ToClient(s.clientAddr.value, s.headers[key] + msg)
  {
    if |msg| == 0 then (s, Stop)
    else if key !in s.headers then (s, Continue)
    else
      var frame := s.headers[key] + msg;
      if |frame| > BufferSize then (s, Panic)
      else if s.clientAddr.None? then (s, Continue)
      else (s.(log := s.log + [ToClient(s.clientAddr.value, frame)]), Continue)
  }

  lemma OpensAppend(log: seq<Event>, e: Event, key: Endpoint)
    ensures Opens(log + [e], key) == Opens(log, key) + (if e.Opened? && e.key == key then 1 else 0)
  {
    assert (log + [e])[..|log|] == log;
  }

  /** A forward step keeps the session invariant: in particular a
      destination never gets a second tunnel (nor a second reverse
      forwarder). */
  lemma ForwardKeepsInv(s: Session, buf: seq<byte>, n: nat, src: Endpoint,
                        resolve: seq<byte> -> Option<IP>, connect: Endpoint -> Option<Tunnel>)
    requires n <= |buf| && Inv(s)
    ensures Inv(Forward(s, buf, n, src, resolve, connect).0)
  {
    var t := Forward(s, buf, n, src, resolve, connect).0;
    if 0 < n && Decode(buf, n, resolve).Decoded? && Decode(buf, n, resolve).dst !in s.tunnels {
      var d := Decode(buf, n, resolve);
      if connect(d.dst).Some? {
        var tn := connect(d.dst).value;
        forall k ensures Opens(t.log, k) == if k in t.tunnels then 1 else 0 {
          OpensAppend(s.log, Opened(d.dst, tn), k);
          OpensAppend(s.log + [Opened(d.dst, tn)], ToTunnel(tn, d.payload), k);
          assert s.log + [Opened(d.dst, tn), ToTunnel(tn, d.payload)]
              == s.log + [Opened(d.dst, tn)] + [ToTunnel(tn, d.payload)];
        }
      }
    } else if 0 < n && Decode(buf, n, resolve).Decoded? {
      var d := Decode(buf, n, resolve);
      forall k ensures Opens(t.log, k) == Opens(s.log, k) {
        OpensAppend(s.log, ToTunnel(s.tunnels[d.dst], d.payload), k);
      }
    }
  }

  /** A reverse step keeps the session invariant. */
  lemma ReplyKeepsInv(s: Session, key: Endpoint, msg: seq<byte>)
    requires Inv(s)
    ensures Inv(Reply(s, key, msg).0)
  {
    var t := Reply(s, key, msg).0;
    if |t.log| == |s.log| + 1 {
      forall k ensures Opens(t.log, k) == Opens(s.log, k) {
        assert t.log == s.log + [t.log[|s.log|]];
        OpensAppend(s.log, t.log[|s.log|], k);
      }
    }
  }

  /** A tunnel message for a pooled destination that fits the framing
      buffer is sent to the client exactly once, framed with the cached
      header: the invariant rules out the cache miss and the unknown
      client. */
  lemma ReplyOnPooledTunnel(s: Session, key: Endpoint, msg: seq<byte>)
    requires Inv(s) && key in s.tunnels
    requires 0 < |msg| && |s.headers[key]| + |msg| <= BufferSize
    ensures Reply(s, key, msg) ==
      (s.(log := s.log + [ToClient(s.clientAddr.value, s.headers[key] + msg)]), Continue)
  {
  }

  /** What the reverse path sends for a destination: the first reply on
      the forwarder a new destination's datagram starts, before the next
      datagram is read, is framed with that datagram's own header, even if
      other datagrams for the same destination carry other headers later. */
  lemma ReplyUsesFirstHeader(s: Session, buf: seq<byte>, n: nat, src: Endpoint,
                             resolve: seq<byte> -> Option<IP>, connect: Endpoint -> Option<Tunnel>,
                             msg: seq<byte>)
    requires 0 < n <= |buf| && 19 <= |buf| && Inv(s)
    requires Decode(buf, n, resolve).Decoded? && Decode(buf, n, resolve).dst !in s.headers
    requires Forward(s, buf, n, src, resolve, connect).1 == Continue
    requires 0 < |msg| && |Decode(buf, n, resolve).header| + |msg| <= BufferSize
    ensures Started(s, buf, n, src, resolve, connect).Some?
    ensures var t := Forward(s, buf, n, src, resolve, connect).0;
      Reply(t, KeyNow(Started(s, buf, n, src, resolve, connect).value, buf), msg).0.log
        == t.log + [ToClient(t.clientAddr.value, buf[..|Decode(buf, n, resolve).header|] + msg)]
  {
    var d := Decode(buf, n, resolve);
    var t := Forward(s, buf, n, src, resolve, connect).0;
    ForwardKeepsInv(s, buf, n, src, resolve, connect);
    assert d.header == buf[..n][..|d.header|];
    ReplyOnPooledTunnel(t, d.dst, msg);
  }

  /** A later IPv6 datagram for any destination B redirects every started
      IPv6 forwarder with B's port: while the buffer holds that datagram,
      such a forwarder looks up B's key, and frames its replies with B's
      header, whichever destination its tunnel leads to. */
  lemma Ipv6ForwarderFollowsBuffer(buf: seq<byte>, n: nat, resolve: seq<byte> -> Option<IP>, port: nat)
    requires 0 < n <= |buf|
    requires Decode(buf, n, resolve).Decoded? && Decode(buf, n, resolve).addr.Ipv6?
    ensures 19 <= |buf| && KeyNow(InBuffer(port), buf) == Endpoint(Decode(buf, n, resolve).dst.ip, port)
  {
  }

  /** The IPv6 datagram of Ipv6ReplyLost: to 2001:db8::1 port 53, payload
      one byte. */
  const Ipv6Datagram: seq<byte> :=
    [0, 0, 0, Ipv6Address, 0x20, 0x01, 0x0d, 0xb8, 0, 0, 0, 0, 0, 0, 0, 0, 0, 0, 0, 1, 0, 53, 0x61]
  /** The IPv4 datagram of Ipv6ReplyLost: to 1.2.3.4 port 80, payload one
      byte. */
  const Ipv4Datagram: seq<byte> := [0, 0, 0, Ipv4Address, 1, 2, 3, 4, 0, 80, 0x62]

  /** The reply of an IPv6 tunnel is lost once the client sends to another
      destination. A fresh session reads an IPv6 datagram, which opens a
      tunnel for its key A, then an IPv4 datagram, which opens another.
      A's forwarder now builds its key from bytes the IPv4 datagram wrote,
      finds no cached header, and sends nothing, although A's tunnel is
      still pooled and a forwarder that kept its own copy of the address
      would send A's header followed by the message. */
  lemma Ipv6ReplyLost(buf: seq<byte>, src: Endpoint, resolve: seq<byte> -> Option<IP>,
                      connect: Endpoint -> Option<Tunnel>, msg: seq<byte>)
    requires |buf| == BufferSize
    requires connect(Endpoint(Ipv6Datagram[4..19], 53)).Some?
    requires connect(Endpoint([1, 2, 3, 4], 80)).Some?
    requires 0 < |msg| <= BufferSize - 22
    ensures var r1 := Receive(buf, Ipv6Datagram);
      var t := Forward(Initial, r1.0, r1.1, src, resolve, connect).0;
      var r2 := Receive(r1.0, Ipv4Datagram);
      var u := Forward(t, r2.0, r2.1, src, resolve, connect).0;
      var a := Started(Initial, r1.0, r1.1, src, resolve, connect);
      var key := Endpoint(Ipv6Datagram[4..19], 53);
      && a.Some? && key in u.tunnels
      // as written: the forwarder's lookup misses and nothing is sent
      && Reply(u, KeyNow(a.value, r2.0), msg) == (u, Continue)
      // as intended: the reply for A, framed with A's header
      && Reply(u, key, msg).0.log == u.log + [ToClient(src, Ipv6Datagram[..22] + msg)]
  {
    var key := Endpoint(Ipv6Datagram[4..19], 53);
    var r1 := Receive(buf, Ipv6Datagram);
    var t := Forward(Initial, r1.0, r1.1, src, resolve, connect).0;
    OpenIpv6(buf, src, resolve, connect);
    var r2 := Receive(r1.0, Ipv4Datagram);
    var u := Forward(t, r2.0, r2.1, src, resolve, connect).0;
    OpenIpv4(t, r1.0, src, resolve, connect);
    assert Started(Initial, r1.0, r1.1, src, resolve, connect).value == InBuffer(53);
  }

  /** The first step of Ipv6ReplyLost: the IPv6 datagram opens A's tunnel. */
  lemma OpenIpv6(buf: seq<byte>, src: Endpoint, resolve: seq<byte> -> Option<IP>,
                 connect: Endpoint -> Option<Tunnel>)
    requires |buf| == BufferSize
    requires connect(Endpoint(Ipv6Datagram[4..19], 53)).Some?
    ensures var r1 := Receive(buf, Ipv6Datagram);
      var t := Forward(Initial, r1.0, r1.1, src, resolve, connect).0;
      var key := Endpoint(Ipv6Datagram[4..19], 53);
      && |r1.0| == BufferSize && r1.0[11..19] == Ipv6Datagram[11..19]
      && t.clientAddr == Some(src)
      && t.headers == map[key := Ipv6Datagram[..22]] && key in t.tunnels
      && Started(Initial, r1.0, r1.1, src, resolve, connect) == Some(InBuffer(53))
  {
    var key := Endpoint(Ipv6Datagram[4..19], 53);
    var r1 := Receive(buf, Ipv6Datagram);
    assert r1.1 == 23 && r1.0[..23] == Ipv6Datagram;
    assert r1.0[..22] == Ipv6Datagram[..22] && r1.0[4..19] == Ipv6Datagram[4..19];
    assert r1.0[11..19] == Ipv6Datagram[11..19];
    assert r1.0[2] == Ipv6Datagram[2] && r1.0[3] == Ipv6Datagram[3];
    assert r1.0[20] == Ipv6Datagram[20] && r1.0[21] == Ipv6Datagram[21];
    Ipv6Layout(r1.0, 23, resolve);
    var d1 := Decode(r1.0, 23, resolve);
    assert d1.dst == key && d1.header == Ipv6Datagram[..22];
  }

  /** The second step of Ipv6ReplyLost: the IPv4 datagram opens its own
      tunnel and overwrites the bytes A's forwarder reads its key from. */
  lemma OpenIpv4(t: Session, b1: seq<byte>, src: Endpoint, resolve: seq<byte> -> Option<IP>,
                 connect: Endpoint -> Option<Tunnel>)
    requires |b1| == BufferSize && b1[11..19] == Ipv6Datagram[11..19]
    requires t.clientAddr == Some(src)
    requires t.headers == map[Endpoint(Ipv6Datagram[4..19], 53) := Ipv6Datagram[..22]]
    requires Endpoint(Ipv6Datagram[4..19], 53) in t.tunnels
    requires connect(Endpoint([1, 2, 3, 4], 80)).Some?
    ensures var r2 := Receive(b1, Ipv4Datagram);
      var u := Forward(t, r2.0, r2.1, src, resolve, connect).0;
      var key := Endpoint(Ipv6Datagram[4..19], 53);
      && |r2.0| == BufferSize
      && u.clientAddr == Some(src)
      && u.headers.Keys == {key, Endpoint([1, 2, 3, 4], 80)} && u.headers[key] == Ipv6Datagram[..22]
      && key in u.tunnels
      && KeyNow(InBuffer(53), r2.0) !in u.headers
  {
    var key := Endpoint(Ipv6Datagram[4..19], 53);
    var r2 := Receive(b1, Ipv4Datagram);
    ReadIpv4(b1, resolve);
    var e := Endpoint([1, 2, 3, 4], 80);
    var now := KeyNow(InBuffer(53), r2.0);
    assert now.ip[0] == 1 && |now.ip| == 15;
    assert key.ip[0] == Ipv6Datagram[4] == 0x20;
    assert now.ip != key.ip && now.ip != e.ip;
  }

  /** The IPv4 datagram of Ipv6ReplyLost as it lands in the buffer. */
  lemma ReadIpv4(b1: seq<byte>, resolve: seq<byte> -> Option<IP>)
    requires |b1| == BufferSize
    ensures var r2 := Receive(b1, Ipv4Datagram);
      && r2.1 == 11 && |r2.0| == BufferSize && r2.0[4] == 1
      && Decode(r2.0, 11, resolve).Decoded?
      && Decode(r2.0, 11, resolve).dst == Endpoint([1, 2, 3, 4], 80)
  {
    var r2 := Receive(b1, Ipv4Datagram);
    assert r2.1 == 11 && r2.0[..11] == Ipv4Datagram;
    assert r2.0[2] == Ipv4Datagram[2] && r2.0[3] == Ipv4Datagram[3] && r2.0[4] == Ipv4Datagram[4];
    assert r2.0[4..8] == Ipv4Datagram[4..8] == [1, 2, 3, 4];
    assert r2.0[8] == Ipv4Datagram[8] && r2.0[9] == Ipv4Datagram[9];
    Ipv4Layout(r2.0, 11, resolve);
  }

  /** The address as the forwarder evidently should keep it: a copy of the
      destination's key, whatever the datagram's address type. */
  function CopiedDstAddrOf(d: DecodeResult): (a: DstAddr)
    requires d.Decoded?
    ensures a.Owned? && a.key == d.dst
  {
    Owned(d.dst)
  }

  /** With a copied address, a forwarder's key stays its destination's key
      whatever the receive buffer holds later, so each fitting reply on its
      pooled tunnel is sent framed with the destination's cached header. */
  lemma CopiedForwarderReplies(s: Session, d: DecodeResult, buf: seq<byte>, msg: seq<byte>)
    requires d.Decoded? && 19 <= |buf|
    requires Inv(s) && d.dst in s.tunnels
    requires 0 < |msg| && |s.headers[d.dst]| + |msg| <= BufferSize
    ensures KeyNow(CopiedDstAddrOf(d), buf) == d.dst
    ensures Reply(s, KeyNow(CopiedDstAddrOf(d), buf), msg) ==
      (s.(log := s.log + [ToClient(s.clientAddr.value, s.headers[d.dst] + msg)]), Continue)
  {
    ReplyOnPooledTunnel(s, d.dst, msg);
  }

  /** The header cache is first-writer-wins: of two datagrams that decode
      to the same destination key, possibly through different address
      encodings, the first one's header stays cached, whether or not the
      first one's tunnel opened. */
  lemma FirstHeaderWins(s: Session, connect: Endpoint -> Option<Tunnel>,
                        buf1: seq<byte>, n1: nat, src1: Endpoint, resolve1: seq<byte> -> Option<IP>,
                        buf2: seq<byte>, n2: nat, src2: Endpoint, resolve2: seq<byte> -> Option<IP>)
    requires 0 < n1 <= |buf1| && 0 < n2 <= |buf2|
    requires Decode(buf1, n1, resolve1).Decoded? && Decode(buf2, n2, resolve2).Decoded?
    requires Decode(buf1, n1, resolve1).dst == Decode(buf2, n2, resolve2).dst
    requires Decode(buf1, n1, resolve1).dst !in s.headers
    ensures var t := Forward(s, buf1, n1, src1, resolve1, connect).0;
      var u := Forward(t, buf2, n2, src2, resolve2, connect).0;
      u.headers[Decode(buf1, n1, resolve1).dst] == Decode(buf1, n1, resolve1).header
  {
  }

  lemma ExtendsTransitive(s: Session, t: Session, u: Session)
    requires Extends(s, t) && Extends(t, u)
    ensures Extends(s, u)
  {
  }

  /** One task step in an interleaving of the session's tasks. A datagram
      step carries what the read returned, a tunnel step the address the
      reverse forwarder keeps and the message it read. */
  datatype Action =
    | Datagram(data: seq<byte>, src: Endpoint, resolve: seq<byte> -> Option<IP>)
    | TunnelMessage(forwarder: DstAddr, msg: seq<byte>)

  /** A read copies the datagram into the front of the receive buffer,
      truncated to the buffer's size; the rest of the buffer keeps what it
      held. */
  function Receive(buf: seq<byte>, data: seq<byte>): (r: (seq<byte>, nat))
    ensures |r.0| == |buf| && r.1 <= |buf|
    ensures r.1 == if |data| <= |buf| then |data| else |buf|
    ensures r.0[..r.1] == data[..r.1] && r.0[r.1..] == buf[r.1..]
  {
    var n := if |data| <= |buf| then |data| else |buf|;
    (data[..n] + buf[n..], n)
  }

  /** The session after the tasks take the steps in acts, in that order.
      Any order is allowed, even datagram steps after the forward loop has
      left, so what holds after every Run holds after every real run. */
  function Run(s: Session, buf: seq<byte>, acts: seq<Action>, connect: Endpoint -> Option<Tunnel>): (r: Session)
    requires 19 <= |buf|
    ensures acts == [] ==> r == s
    // whatever the order, the session only grows
    ensures Extends(s, r)
    decreases |acts|
  {
    if acts == [] then s
    else match acts[0]
      case Datagram(data, src, resolve) =>
        var (buf', n) := Receive(buf, data);
        Run(Forward(s, buf', n, src, resolve, connect).0, buf', acts[1..], connect)
      case TunnelMessage(forwarder, msg) =>
        Run(Reply(s, KeyNow(forwarder, buf), msg).0, buf, acts[1..], connect)
  }

  /** Under every interleaving of forward and reverse steps the invariant
      holds: at most one tunnel and one reverse forwarder per destination,
      never a tunnel without a cached header, and the header cache, the
      pool and the client address only ever grow. */
  lemma {:induction false} RunKeepsInv(s: Session, buf: seq<byte>, acts: seq<Action>,
                                       connect: Endpoint -> Option<Tunnel>)
    requires Inv(s) && 19 <= |buf|
    ensures Inv(Run(s, buf, acts, connect))
    ensures Extends(s, Run(s, buf, acts, connect))
    decreases |acts|
  {
    if acts != [] {
      match acts[0]
      case Datagram(data, src, resolve) =>
        var (buf', n) := Receive(buf, data);
        var t := Forward(s, buf', n, src, resolve, connect).0;
        ForwardKeepsInv(s, buf', n, src, resolve, connect);
        RunKeepsInv(t, buf', acts[1..], connect);
        ExtendsTransitive(s, t, Run(t, buf', acts[1..], connect));
      case TunnelMessage(forwarder, msg) =>
        var t := Reply(s, KeyNow(forwarder, buf), msg).0;
        ReplyKeepsInv(s, KeyNow(forwarder, buf), msg);
        RunKeepsInv(t, buf, acts[1..], connect);
        ExtendsTransitive(s, t, Run(t, buf, acts[1..], connect));
    }
  }

  /** What one read of the forward loop returns: a datagram, or a failure
      (an error or the idle deadline passing). */
  datatype Read =
    | Received(data: seq<byte>, src: Endpoint, resolve: seq<byte> -> Option<IP>)
    | ReadFailed

  /** The forward loop over the reads in received: it leaves at the first
      failed or empty read, failed tunnel open or panic, and is still
      running (Continue) when the reads run out. */
  function RunForward(s: Session, buf: seq<byte>, received: seq<Read>, connect: Endpoint -> Option<Tunnel>): (r: (Session, Outcome))
    ensures received == [] ==> r == (s, Continue)
    ensures received != [] && received[0].ReadFailed? ==> r == (s, Stop)
    // the loop is still running only if every read returned a datagram
    ensures r.1 == Continue ==> forall i :: 0 <= i < |received| ==> received[i].Received? && received[i].data != []
    decreases |received|
  {
    if received == [] then (s, Continue)
    else match received[0]
      case ReadFailed => (s, Stop)
      case Received(data, src, resolve) =>
        var r := Receive(buf, data);
        var f := Forward(s, r.0, r.1, src, resolve, connect);
        if f.1 == Continue then RunForward(f.0, r.0, received[1..], connect) else f
  }

  /** The forward loop on its own is one of the interleavings above, so it
      keeps the invariant, and the headers it caches are never replaced. */
  lemma {:induction false} RunForwardKeepsInv(s: Session, buf: seq<byte>, received: seq<Read>,
                                              connect: Endpoint -> Option<Tunnel>)
    requires Inv(s)
    ensures Inv(RunForward(s, buf, received, connect).0)
    ensures Extends(s, RunForward(s, buf, received, connect).0)
    decreases |received|
  {
    if received != [] && received[0].Received? {
      var r := Receive(buf, received[0].data);
      var f := Forward(s, r.0, r.1, received[0].src, received[0].resolve, connect);
      ForwardKeepsInv(s, r.0, r.1, received[0].src, received[0].resolve, connect);
      if f.1 == Continue {
        RunForwardKeepsInv(f.0, r.0, received[1..], connect);
        ExtendsTransitive(s, f.0, RunForward(f.0, r.0, received[1..], connect).0);
      }
    }
  }
}
