# opensocks UDP ASSOCIATE relay, modelled in Dafny

This is a model of the UDP relay in `proxy/udp.go` of opensocks, a SOCKS5
proxy that carries client traffic over websocket tunnels. Once a client has
asked for UDP ASSOCIATE, the relay does the following:

- It binds a UDP socket and sends the client the bind reply (section 6 of
  RFC 1928).
- It then runs a forward loop. Each datagram the client sends carries the
  UDP request header of section 7 of RFC 1928. The loop:
  - learns the client's address from the first datagram;
  - decodes the header;
  - caches the header bytes per destination, where the first header wins;
  - opens one tunnel per destination and writes the payload to it.
- One reverse forwarder runs per tunnel. It keeps the destination address
  it was started with. For every tunnel message, it builds the lookup key
  from that address, prefixes the message with the header cached under the
  key, and sends the result to the client. For an IPv6 destination the
  address points into the forward loop's receive buffer, so the key
  changes with every later datagram (see "## Findings").

Modules:

- `Socks5` (`socks5.dfy`): the protocol constants and the buffer size. An
  octet type is defined here too. `Options` holds the option type.
- `UdpHeader` (`udp_header.dfy`): the datagram decoder `Decode`, written as
  a pure function. Each address type has a layout lemma. A reference
  encoder gives a round trip for IPv4 and domain headers.
- `BindReply` (`bind_reply.dfy`): the bytes of the bind reply, held against
  a client-side parser.
- `Relay` (`relay.dfy`): the session state as a value:
  - the client address, the header cache, the tunnel pool, and a log of
    everything sent;
  - `Forward`, one step of the forward loop, and `Reply`, one step of a
    reverse forwarder;
  - the session invariant, holding for every interleaving of the two kinds
    of step.
- `Server` (`server.dfy`): the `UDPServer` object, whose fields its methods
  update in place. `HandleDatagram`, `ReadDatagram`, `ForwardRemote` and
  `HandleTunnelMessage` are proved to equal the matching `Relay` step and
  to keep the invariant. `RouteDatagram` is proved equal to `Relay.Route`.
  `Frame` is the framing copy, proved against the frame it must produce.

Where the code departs from RFC 1928, the model follows the code:

- The reserved bytes are never checked. Only FRAG is tested.
- The IPv6 address is taken as 15 bytes, buffer bytes 4 to 18. The 16th
  address byte (byte 19) is skipped. The header is still 22 bytes.
  `UdpHeader.Ipv6LastByteIgnored` and `UdpHeader.Ipv6HeaderNotRecovered`
  show what this causes.
- There are no length checks. An index at or past the read length is a
  run-time panic in Go. The model gives this the decode result
  `OutOfRange` and the step outcome `Panic`, and keeps it distinct from a
  silent drop.
- A sub-slice only has to end within the buffer's capacity. A domain name
  that reaches past the read length is therefore read from bytes an
  earlier datagram left in the buffer. For this reason `Decode` takes the
  whole receive buffer together with the read length.
- The bind reply always announces ATYP = 1 (IPv4). For a socket bound to
  an address that is not IPv4, no address bytes are written, so the reply
  is only 6 bytes long.
- If framing a reply would run past the framing buffer, the code panics.
  The model has this as the `Panic` outcome rather than a precondition.

Assumed values:

- The constants `Socks5Version`, `SuccessReply` and the three ATYP values
  are defined in a file that is not part of this model. They take their
  RFC 1928 values.
- `BufferSize` is defined in a file that is not part of this model. It is
  taken to be 64 KiB.

Left as parameters:

- Name resolution (`resolve`) and tunnel opening (`connect`) are
  parameters.
- A Go map key is the text form of a UDP address. The model keys by
  canonical address bytes and port instead (`UdpHeader.Endpoint`).
  `Canonical` folds IPv4-mapped 16-byte addresses to their 4-byte form,
  the way the text form does.

## Model

| member | source | states |
|---|---|---|
| UdpHeader.Decode | proxy/udp.go:66-113 | A decoded datagram splits exactly into its header and payload (`header + payload == buf[..n]`). The header is 7 to 262 bytes long and ends with the big-endian port. FRAG is 0 and ATYP is one of 1, 3 and 4. The key holds the address as written, or the canonical resolved address for a domain. A datagram of 1-2 bytes, of 3 bytes with FRAG 0, or of 4 bytes announcing a domain, panics. It is a `Fragmented` drop exactly when FRAG is non-zero, an `UnsupportedAddressType` drop exactly when ATYP is unknown, and an `UnresolvedDomain` drop exactly when the lookup fails. |
| UdpHeader.To4 | proxy/udp.go:36 | The 4-byte form of an address is empty or 4 bytes long. A 4-byte address is its own 4-byte form. A 16-byte address that starts with the IPv4-mapped prefix gives its last 4 bytes. A non-empty result is always the address itself or its last 4 bytes after that prefix. |
| UdpHeader.PortOf | proxy/udp.go:84 | A port read from two bytes, high byte first, is below 65536. Its high byte is `p / 256` and its low byte is `p % 256`. |
| UdpHeader.PortBytes | proxy/udp.go:37 | A port below 65536 is written as two bytes whose big-endian value is that port. |
| UdpHeader.PortBytesOf | proxy/udp.go:84 | Writing a port read from two bytes gives back those two bytes. |
| UdpHeader.Canonical | proxy/udp.go:86-108 | The key bytes of an address fold an IPv4-mapped 16-byte address to its 4 bytes. Every other address, including the 15-byte IPv6 value, stays as it is. |
| UdpHeader.CanonicalIdempotent | proxy/udp.go:86-108 | Folding twice is folding once. |
| UdpHeader.Ipv4Layout | proxy/udp.go:81-87 | An IPv4 request has header bytes 0-9, address bytes 4-7, a port of `b[8]*256+b[9]` and the rest as payload. Fewer than 10 bytes panic. |
| UdpHeader.FqdnLayout | proxy/udp.go:88-101 | With L = byte 4, a domain request has name bytes 5..5+L, a port from bytes 5+L and 6+L, and header bytes 0..7+L. The key uses the canonical resolved IP. A failed lookup drops the datagram. A resolved name in a datagram shorter than 7+L bytes panics. |
| UdpHeader.Ipv6Layout | proxy/udp.go:102-110 | An IPv6 request has header bytes 0-21 and a port of `b[20]*256+b[21]`. Its address value is bytes 4-18, 15 bytes as written. Fewer than 22 bytes panic. |
| UdpHeader.HeaderRoundTrip | proxy/udp.go:80-101 | For IPv4 and domain requests, re-encoding the decoded address and port with the RFC 1928 layout (and the unchecked RSV bytes) gives back exactly the cached header. |
| UdpHeader.Ipv6HeaderNotRecovered | proxy/udp.go:104-108 | For IPv6 the round trip fails: the 22-byte header re-encodes to 21 bytes. |
| UdpHeader.Ipv6LastByteIgnored | proxy/udp.go:104-108 | Two IPv6 datagrams that differ only in byte 19 get the same destination key but different headers. |
| BindReply.BindReply | proxy/udp.go:34-38 | For an IPv4 bind address the reply is 10 bytes: `05 00 00 01`, then the 4 address bytes, then the port truncated to 16 bits, big-endian. Otherwise the reply is 6 bytes. |
| BindReply.BindReplyRoundTrip | proxy/udp.go:34-38 | A client parsing the reply gets back the bound IPv4 address and port. |
| BindReply.BindReplyNonIpv4 | proxy/udp.go:36 | For an address `To4` rejects, the reply is 6 bytes long and does not parse. |
| Relay.Receive | proxy/udp.go:59 | A read puts `min(|data|, |buf|)` bytes of the datagram at the front of the buffer and returns that count. The rest of the buffer is kept, and its length does not change. |
| Relay.KeyNow | proxy/udp.go:140 | The lookup key a forwarder builds now. An owned address gives its own key, whatever the buffer holds. An address in the buffer gives the 15 buffer bytes 4 to 18 as they are now, with its own port. |
| Relay.Learn | proxy/udp.go:63-64 | After a datagram the client address is known. An address already learned is kept, and otherwise the datagram's source is taken. Nothing else changes. |
| Relay.LearnOnce | proxy/udp.go:63-64 | The address learned first is never replaced by a later datagram's source. |
| Relay.LoadOrStore | proxy/udp.go:86-108 | Insert if absent: the key set gains the key, every header already cached stays, and a new key gets the given header. |
| Relay.LoadOrStoreFirstWins | proxy/udp.go:86-108 | A second store for the same key changes nothing, so the first header stored stays. |
| Relay.Route | proxy/udp.go:86-125 | After a decoded datagram for dst: its header is cached unless one is already cached for dst, even when the open then fails. A pooled dst reuses its tunnel, which gets exactly the payload. A new dst opens one tunnel, pools it, then writes the payload to it. A failed open stops the loop with nothing pooled or sent. The session only grows. |
| Relay.Forward | proxy/udp.go:57-127 | Two effects on the old session: the session only grows, and an empty read stops the loop. Client address: every datagram read teaches it, and only the first one sets it. Drops and panics: neither map nor the log changes. Header cache: a decoded header is cached unless the key already has one, and this holds even when the tunnel open then fails. Pooled key: the stored tunnel gets exactly the payload. New key: one tunnel is opened and pooled, then the payload is written to it. A failed open stops the loop with nothing pooled or sent. |
| Relay.Reply | proxy/udp.go:137-148 | An empty message stops the forwarder. A frame longer than the buffer panics. Exactly one send happens exactly when a header is cached, the frame fits and the client address is known, and that send is `ToClient(clientAddr, cachedHeader + msg)`. Otherwise nothing is sent. |
| Relay.ForwardKeepsInv | proxy/udp.go:114-124 | A forward step keeps the session invariant: every pooled key has a cached header, a tunnel exists only once the client is known, and each key has had exactly one tunnel opened if pooled, none otherwise. |
| Relay.ReplyKeepsInv | proxy/udp.go:140-147 | A reverse step keeps the session invariant. |
| Relay.ReplyOnPooledTunnel | proxy/udp.go:140-147 | Under the invariant, take a key with a pooled tunnel and a non-empty message that fits the buffer together with the key's header. The message is sent to the client exactly once, framed with the header cached for that key. |
| Relay.DstAddrOf | proxy/udp.go:82-110 | A forwarder started for an IPv6 request keeps an address whose value lies in the receive buffer; it keeps the request's port. Every other forwarder keeps its own copy of the destination key. |
| Relay.Started | proxy/udp.go:117-124 | A forward step starts a reverse forwarder exactly when it opens a tunnel. While the buffer still holds that datagram, the forwarder's lookup key is the destination key. |
| Relay.ReplyUsesFirstHeader | proxy/udp.go:86-147 | Take a datagram that creates a destination. Its forwarder's first reply, sent before the next read, is framed with the first bytes of that very datagram. This holds for every non-empty message that fits with the header. |
| Relay.Ipv6ForwarderFollowsBuffer | proxy/udp.go:105-140 | Once the buffer holds an IPv6 datagram for B, every IPv6 forwarder with B's port looks up B's key, whatever its own destination. |
| Relay.Ipv6ReplyLost | proxy/udp.go:59-147 | Concretely: an IPv6 datagram opens a tunnel for A, then an IPv4 datagram is read. A's forwarder now finds no cached header and sends nothing, although A's tunnel is pooled. Looking up A's own key would send A's header followed by the message. |
| Relay.CopiedDstAddrOf | proxy/udp.go:104-123 | The corrected address a forwarder keeps: a copy of the destination key, for every address type. |
| Relay.CopiedForwarderReplies | proxy/udp.go:123-147 | A forwarder with a copied address keeps its destination's key whatever the buffer holds later. Every fitting reply on its pooled tunnel is sent framed with that destination's cached header. |
| Relay.FirstHeaderWins | proxy/udp.go:86-108 | Take two datagrams that decode to the same key, through any encodings. After both, the first one's header is cached, whether or not its tunnel opened. |
| Relay.Run | proxy/udp.go:57-149 | Running no steps leaves the session as it is. Any interleaving of forward steps and reverse steps only grows the session. |
| Relay.RunKeepsInv | proxy/udp.go:55-149 | Under any interleaving of forward steps and reverse steps, the invariant holds. Reverse steps take any forwarder address, with the key built from the buffer at that moment. Also, the client address, the cached headers and the pooled tunnels are never replaced, and the log only grows. |
| Relay.RunForward | proxy/udp.go:57-127 | With no reads the loop is still running. A failed first read stops it with nothing changed. A loop still running has consumed only non-empty datagrams. |
| Relay.RunForwardKeepsInv | proxy/udp.go:57-127 | The forward loop by itself keeps the invariant and only grows the session. |
| Server.UDPServer.constructor | proxy/udp.go:166 | A new server satisfies the invariant with nothing learned. |
| Server.UDPServer.HandleDatagram | proxy/udp.go:63-125 | Updating the fields in place has exactly the effect of `Relay.Forward` on the old state, and keeps the invariant. The forwarder it starts is the one `Relay.Started` names. |
| Server.UDPServer.ReadDatagram | proxy/udp.go:59-125 | The read lands at the front of the buffer and the rest of the buffer is kept. The pass then has exactly the effect of `Relay.Forward`, and keeps the invariant. |
| Server.UDPServer.RouteDatagram | proxy/udp.go:86-125 | The cache and pool updates for a decoded datagram equal `Relay.Route`. |
| Server.UDPServer.ForwardRemote | proxy/udp.go:55-129 | The loop over reads into one zero-initialised buffer equals `Relay.RunForward` on the old state, and keeps the invariant. |
| Server.UDPServer.HandleTunnelMessage | proxy/udp.go:136-148 | One reverse-forwarder pass has exactly the effect of `Relay.Reply`, under the key built from the forwarder's address and the receive buffer as they are now. It keeps the invariant. When it sends, the framing buffer starts with cachedHeader + msg, and the bytes after the frame are unchanged. When it does not send because the message is empty or no header is cached, the framing buffer is unchanged. |
| Server.UDPServer.Frame | proxy/udp.go:141-145 | Copies the header and then the message into the framing buffer. It reports whether the frame fits, and when it fits the buffer starts with header + msg and the bytes after the frame are unchanged. |

## Findings

| source | as written | input that shows it | evidently intended | confidence | as-written member | corrected member |
|---|---|---|---|---|---|---|
| proxy/udp.go:105 | The IPv6 address value is `net.IP(b[4:19])`, a slice of the reused receive buffer. The forwarder started at line 123 builds its lookup key from it again at line 140 for every message. Every later read changes that key. | Datagram `00 00 00 04 20 01 0d b8` + 11 zero bytes + `01 00 35 61`, then `00 00 00 01 01 02 03 04 00 50 62`. The first tunnel's replies are then dropped. | The forwarder keeps a copy of the address, and replies on its tunnel are framed with its own destination's header. | high; not executed | Relay.Ipv6ReplyLost | Relay.CopiedForwarderReplies |

`Relay.Run` and `Server.UDPServer.HandleTunnelMessage` keep the address as the code does (`Relay.DstAddrOf`), because they model the code. `Relay.CopiedDstAddrOf` is the corrected address.

## Left out

- `proxy/direct.go`: TCP CONNECT splicing is dial-and-copy I/O with no protocol state.
- Goroutines and the `done` channel: `keepUDPAlive` (proxy/udp.go:153-163) and the concurrent running of reverse forwarders are not modelled. Concurrency appears only as the arbitrary interleavings of `Relay.Run`, one whole step at a time.
- Socket creation, binding, read deadlines and the actual `ReadFromUDP`/`WriteToUDP`/websocket calls: reads are method inputs, and writes are entries in a ghost log.
- A reverse forwarder's read error or deadline: it is modelled as the empty message that ends the loop.
- `WriteToUDP` with a nil client address fails without sending. The model sends nothing in that case.
- `net.ResolveIPAddr` and `ConnectWS` are parameters. `connect` is a function of the key because it runs at most once per key in a session: success pools the key for good, and failure ends the loop.
- The text form of `net.UDPAddr` used as map keys: it is abstracted to `Endpoint`.
- Logging is left out.
- Closing a tunnel when its forwarder ends, and the pool entry that stays behind, are left out.
- Server.UDPServer.HandleTunnelMessage: on the panic path, the partial copy into the framing buffer is not stated, because a panic ends the process.
- `BufferSize` as an exact value: its definition is not part of this model.
