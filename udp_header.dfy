/** The UDP request header of section 7 of RFC 1928, as the forward loop of
    the relay reads it out of its receive buffer:

      RSV (2) | FRAG (1) | ATYP (1) | DST.ADDR (variable) | DST.PORT (2) | DATA

    The decoder follows the Go code, not the RFC, in three places: the
    reserved bytes are never checked, the IPv6 address is taken as 15 bytes
    (buffer bytes 4 to 18; byte 19 is skipped although it belongs to the
    address), and there are no length checks, so a short datagram makes the
    code index past the read length, which in Go is a panic. */
module UdpHeader {
  import opened Options
  import opened Socks5

  /** An IP address as its bytes. */
  type IP = seq<byte>

  /** A UDP address. The relay keys its two maps by the text form of the
      destination address; two destinations get the same text exactly when
      their canonical bytes (see Canonical) and ports agree, so the key is
      modelled as the pair. */
  datatype Endpoint = Endpoint(ip: IP, port: nat)

  /** The DST.ADDR field as the decoder takes it. */
  datatype Address =
    | Ipv4(bytes: seq<byte>)
    | Fqdn(name: seq<byte>)
    | Ipv6(bytes: seq<byte>)

  datatype DropReason = Fragmented | UnsupportedAddressType | UnresolvedDomain

  datatype DecodeResult =
      /** header: the exact header bytes, dst: the destination key,
          payload: the DATA field */
    | Decoded(header: seq<byte>, addr: Address, dst: Endpoint, payload: seq<byte>)
      /** dropped, and the loop goes on with the next datagram */
    | Dropped(reason: DropReason)
      /** an index at or past the read length: a run-time panic in Go */
    | OutOfRange

  /** The 12-byte prefix of an IPv4 address written in 16-byte form. */
  const V4InV6Prefix: seq<byte> := [0, 0, 0, 0, 0, 0, 0, 0, 0, 0, 0xff, 0xff]

  /** The 4-byte form of an IPv4 address, or empty when ip is no IPv4
      address (net.IP.To4 returning nil). */
  function To4(ip: IP): (r: IP)
    ensures r == [] || |r| == 4
    ensures |ip| == 4 ==> r == ip
    ensures |ip| == 16 && ip[..12] == V4InV6Prefix ==> r == ip[12..]
    ensures r != [] ==> ip == r || ip == V4InV6Prefix + r
  {
    if |ip| == 4 then ip
    else if |ip| == 16 && ip[..12] == V4InV6Prefix then ip[12..]
    else []
  }

  /** The bytes a destination key is compared by: IPv4 addresses in their
      4-byte form, every other length as it is. */
  function Canonical(ip: IP): (r: IP)
    ensures |ip| == 4 ==> r == ip
    ensures |ip| == 16 && ip[..12] == V4InV6Prefix ==> r == ip[12..]
    ensures To4(ip) == [] ==> r == ip
    ensures |r| == 4 || r == ip
  {
    if To4(ip) != [] then To4(ip) else ip
  }

  /** Folding is done once and for all: a canonical address is its own
      canonical form. */
  lemma CanonicalIdempotent(ip: IP)
    ensures Canonical(Canonical(ip)) == Canonical(ip)
  {
  }

  /** A big-endian 16-bit port from its two bytes (the code shifts the
      high byte left by eight bits and ors in the low one). */
  function PortOf(hi: byte, lo: byte): (p: nat)
    ensures p < 65536
    ensures p / 256 == hi as nat && p % 256 == lo as nat
  {
    hi as nat * 256 + lo as nat
  }

  /** What every decoded datagram satisfies: it splits exactly into header
      and payload, the header has a length a request header can have, and
      the port is the header's last two bytes, big-endian. */
  predicate Split(buf: seq<byte>, n: nat, r: DecodeResult)
    requires n <= |buf|
  {
    r.Decoded? ==>
      && r.header + r.payload == buf[..n]
      && 7 <= |r.header| <= MaxHeaderLength
      && r.dst.port < 65536
      && r.dst.port == r.header[|r.header| - 2] as nat * 256 + r.header[|r.header| - 1] as nat
  }

  /** The IPv4 branch: four address bytes, ten header bytes. */
  function DecodeIpv4(buf: seq<byte>, n: nat): (r: DecodeResult)
    requires 4 <= n <= |buf|
    ensures Split(buf, n, r)
    ensures r.Decoded? ==> r.addr == Ipv4(r.dst.ip) && |r.dst.ip| == 4
  {
    if n < 10 then OutOfRange
    else
      Decoded(buf[..10], Ipv4(buf[4..8]), Endpoint(buf[4..8], PortOf(buf[8], buf[9])), buf[10..n])
  }

  /** The domain branch: a length byte, the name, resolved before the port
      bytes are read. */
  function DecodeFqdn(buf: seq<byte>, n: nat, resolve: seq<byte> -> Option<IP>): (r: DecodeResult)
    requires 4 <= n <= |buf|
    ensures Split(buf, n, r)
    ensures r.Decoded? ==>
      r.addr.Fqdn? && resolve(r.addr.name).Some? && r.dst.ip == Canonical(resolve(r.addr.name).value)
    ensures r == Dropped(UnresolvedDomain) <==>
      (5 <= n && 5 + buf[4] as nat <= |buf| && resolve(buf[5..5 + buf[4] as nat]).None?)
  {
    if n < 5 then OutOfRange
    else
      var len := buf[4] as nat;
      if 5 + len > |buf| then OutOfRange
      else
        var name := buf[5..5 + len];
        var resolved := resolve(name);
        if resolved.None? then Dropped(UnresolvedDomain)
        else if n < 7 + len then OutOfRange
        else
          FqdnRequest(buf, n, len, resolved.value)
  }

  /** The domain request once the name has resolved to ip. */
  function FqdnRequest(buf: seq<byte>, n: nat, len: nat, ip: IP): (r: DecodeResult)
    requires len < 256 && 7 + len <= n <= |buf|
    ensures Split(buf, n, r)
    ensures r.Decoded? && r.header == buf[..7 + len] && r.addr == Fqdn(buf[5..5 + len])
    ensures r.dst.ip == Canonical(ip)
  {
    var h := buf[..7 + len];
    assert h[|h| - 2] == buf[5 + len] && h[|h| - 1] == buf[6 + len];
    assert h + buf[7 + len..n] == buf[..n];
    Decoded(h, Fqdn(buf[5..5 + len]), Endpoint(Canonical(ip), PortOf(buf[5 + len], buf[6 + len])), buf[7 + len..n])
  }

  /** The IPv6 branch: 22 header bytes, of which the address value takes
      bytes 4 to 18 only, as the code slices them. */
  function DecodeIpv6(buf: seq<byte>, n: nat): (r: DecodeResult)
    requires 4 <= n <= |buf|
    ensures Split(buf, n, r)
    ensures r.Decoded? ==> r.addr == Ipv6(r.dst.ip) && |r.dst.ip| == 15
  {
    if n < 22 then OutOfRange
    else
      Decoded(buf[..22], Ipv6(buf[4..19]), Endpoint(buf[4..19], PortOf(buf[20], buf[21])), buf[22..n])
  }

  /** Decodes the n bytes read into the receive buffer buf. Indexing a byte
      needs it to lie below n; a sub-slice only needs to end within the
      buffer, so a domain name reaching past n is read from bytes left over
      from earlier datagrams. resolve is the system's name lookup. */
  function Decode(buf: seq<byte>, n: nat, resolve: seq<byte> -> Option<IP>): (r: DecodeResult)
    requires 0 < n <= |buf|
    ensures Split(buf, n, r)
    ensures r.Decoded? ==> 4 <= n && buf[2] == 0x00 && buf[3] in {Ipv4Address, FqdnAddress, Ipv6Address}
    // the key holds the address as written, or the resolved one for a name
    ensures r.Decoded? ==>
      match r.addr
      case Ipv4(a) => r.dst.ip == a && |a| == 4
      case Ipv6(a) => r.dst.ip == a && |a| == 15
      case Fqdn(name) => resolve(name).Some? && r.dst.ip == Canonical(resolve(name).value)
    // no length guards: the shortest datagrams index past the read length
    ensures n < 3 || (n == 3 && buf[2] == 0x00) || (n == 4 && buf[2] == 0x00 && buf[3] == FqdnAddress) ==>
      r.OutOfRange?
    ensures r == Dropped(Fragmented) <==> 3 <= n && buf[2] != 0x00
    ensures r == Dropped(UnsupportedAddressType) <==>
      (4 <= n && buf[2] == 0x00 && buf[3] !in {Ipv4Address, FqdnAddress, Ipv6Address})
    ensures r == Dropped(UnresolvedDomain) <==>
      (5 <= n && buf[2] == 0x00 && buf[3] == FqdnAddress &&
       5 + buf[4] as nat <= |buf| && resolve(buf[5..5 + buf[4] as nat]).None?)
  {
    if n < 3 then OutOfRange
    else if buf[2] != 0x00 then Dropped(Fragmented)
    else if n < 4 then OutOfRange
    else if buf[3] == Ipv4Address then DecodeIpv4(buf, n)
    else if buf[3] == FqdnAddress then DecodeFqdn(buf, n, resolve)
    else if buf[3] == Ipv6Address then DecodeIpv6(buf, n)
    else Dropped(UnsupportedAddressType)
  }

  /** The two port bytes, big-endian. */
  function PortBytes(port: nat): (r: seq<byte>)
    requires port < 65536
    ensures |r| == 2 && r[0] as nat * 256 + r[1] as nat == port
  {
    [(port / 256) as byte, (port % 256) as byte]
  }

  /** The ATYP and DST.ADDR fields for an address. */
  function AddressField(addr: Address): seq<byte>
    requires addr.Fqdn? ==> |addr.name| < 256
  {
    match addr
    case Ipv4(a) => [Ipv4Address] + a
    case Fqdn(name) => [FqdnAddress, |name| as byte] + name
    case Ipv6(a) => [Ipv6Address] + a
  }

  /** RFC 1928's request header built from its fields: the reference the
      decoder is held against. */
  function EncodeHeader(rsv: seq<byte>, addr: Address, port: nat): seq<byte>
    requires addr.Fqdn? ==> |addr.name| < 256
    requires port < 65536
  {
    rsv + [0x00] + AddressField(addr) + PortBytes(port)
  }

  /** Encoding a port read from two bytes gives those two bytes back. */
  lemma PortBytesOf(hi: byte, lo: byte)
    ensures PortBytes(PortOf(hi, lo)) == [hi, lo]
  {
  }

  lemma Ipv4RoundTrip(buf: seq<byte>, port: nat)
    requires 10 <= |buf| && buf[2] == 0x00 && buf[3] == Ipv4Address
    requires port == PortOf(buf[8], buf[9])
    ensures port < 65536 && EncodeHeader(buf[..2], Ipv4(buf[4..8]), port) == buf[..10]
  {
    PortBytesOf(buf[8], buf[9]);
    assert buf[..10] == buf[..2] + [0x00] + ([Ipv4Address] + buf[4..8]) + [buf[8], buf[9]];
  }

  lemma FqdnHeaderShape(buf: seq<byte>, len: nat)
    requires 7 + len <= |buf| && buf[2] == 0x00 && buf[3] == FqdnAddress
    ensures buf[..7 + len] ==
      buf[..2] + [0x00] + ([FqdnAddress, buf[4]] + buf[5..5 + len]) + [buf[5 + len], buf[6 + len]]
  {
    assert buf[..7 + len] == buf[..5] + buf[5..5 + len] + buf[5 + len..7 + len];
    assert buf[..5] == buf[..2] + [0x00] + [FqdnAddress, buf[4]];
  }

  lemma FqdnRoundTrip(buf: seq<byte>, len: nat, port: nat)
    requires 5 <= |buf| && buf[2] == 0x00 && buf[3] == FqdnAddress
    requires len == buf[4] as nat && 7 + len <= |buf|
    requires port == PortOf(buf[5 + len], buf[6 + len])
    ensures port < 65536 && EncodeHeader(buf[..2], Fqdn(buf[5..5 + len]), port) == buf[..7 + len]
  {
    var name := buf[5..5 + len];
    assert AddressField(Fqdn(name)) == [FqdnAddress, buf[4]] + name;
    PortBytesOf(buf[5 + len], buf[6 + len]);
    FqdnHeaderShape(buf, len);
  }

  /** Re-deriving the header from the decoded fields (with the unchecked
      reserved bytes) gives back the header bytes exactly, for IPv4 and
      domain headers. */
  lemma HeaderRoundTrip(buf: seq<byte>, n: nat, resolve: seq<byte> -> Option<IP>)
    requires 0 < n <= |buf|
    requires Decode(buf, n, resolve).Decoded? && !Decode(buf, n, resolve).addr.Ipv6?
    ensures Decode(buf, n, resolve).addr.Fqdn? ==> |Decode(buf, n, resolve).addr.name| < 256
    ensures EncodeHeader(buf[..2], Decode(buf, n, resolve).addr, Decode(buf, n, resolve).dst.port)
            == Decode(buf, n, resolve).header
  {
    var r := Decode(buf, n, resolve);
    if buf[3] == Ipv4Address {
      Ipv4RoundTrip(buf, r.dst.port);
    } else {
      FqdnRoundTrip(buf, buf[4] as nat, r.dst.port);
    }
  }

  /** For IPv6 the round trip fails: the decoded 15-byte address re-encodes
      to a 21-byte header where the datagram carried 22 bytes. */
  lemma Ipv6HeaderNotRecovered(buf: seq<byte>, n: nat, resolve: seq<byte> -> Option<IP>)
    requires 0 < n <= |buf|
    requires Decode(buf, n, resolve).Decoded? && Decode(buf, n, resolve).addr.Ipv6?
    ensures |Decode(buf, n, resolve).header| == 22
    ensures |EncodeHeader(buf[..2], Decode(buf, n, resolve).addr, Decode(buf, n, resolve).dst.port)| == 21
  {
  }

  /** A consequence of the 15-byte slice: two IPv6 datagrams that differ only
      in the last address byte get different headers but the same
      destination key, so they share one cache entry and one tunnel. */
  lemma Ipv6LastByteIgnored(buf: seq<byte>, n: nat, resolve: seq<byte> -> Option<IP>, x: byte)
    requires 0 < n <= |buf|
    requires Decode(buf, n, resolve).Decoded? && Decode(buf, n, resolve).addr.Ipv6?
    requires x != buf[19]
    ensures Decode(buf[19 := x], n, resolve).Decoded?
    ensures Decode(buf[19 := x], n, resolve).dst == Decode(buf, n, resolve).dst
    ensures Decode(buf[19 := x], n, resolve).header != Decode(buf, n, resolve).header
  {
    var b := buf[19 := x];
    assert b[4..19] == buf[4..19];
    assert b[..22][19] != buf[..22][19];
  }

  /** IPv4 request: header = first 10 bytes, address = bytes 4 to 7,
      port = bytes 8 and 9, payload = the rest; fewer than 10 bytes panic. */
  lemma Ipv4Layout(buf: seq<byte>, n: nat, resolve: seq<byte> -> Option<IP>)
    requires 4 <= n <= |buf| && buf[2] == 0x00 && buf[3] == Ipv4Address
    ensures n < 10 ==> Decode(buf, n, resolve) == OutOfRange
    ensures 10 <= n ==>
      (Decode(buf, n, resolve) ==
       Decoded(buf[..10], Ipv4(buf[4..8]),
               Endpoint(buf[4..8], buf[8] as nat * 256 + buf[9] as nat), buf[10..n]))
  {
  }

  /** Domain request with L = byte 4: the name is bytes 5 to 4+L, the port
      bytes 5+L and 6+L, the header the first 7+L bytes; the key holds the
      resolved address; a failed lookup drops the datagram, and a
      successful one on a datagram shorter than 7+L bytes panics. */
  lemma FqdnLayout(buf: seq<byte>, n: nat, resolve: seq<byte> -> Option<IP>)
    requires 5 <= n <= |buf| && buf[2] == 0x00 && buf[3] == FqdnAddress
    requires 5 + buf[4] as nat <= |buf|
    ensures var len := buf[4] as nat;
      match resolve(buf[5..5 + len])
      case None => Decode(buf, n, resolve) == Dropped(UnresolvedDomain)
      case Some(ip) =>
        if n < 7 + len then Decode(buf, n, resolve) == OutOfRange
        else
          (Decode(buf, n, resolve) ==
           Decoded(buf[..7 + len], Fqdn(buf[5..5 + len]),
                   Endpoint(Canonical(ip), buf[5 + len] as nat * 256 + buf[6 + len] as nat),
                   buf[7 + len..n]))
  {
  }

  /** IPv6 request: header = first 22 bytes, address value = bytes 4 to 18
      (15 bytes, as written), port = bytes 20 and 21, payload = the rest. */
  lemma Ipv6Layout(buf: seq<byte>, n: nat, resolve: seq<byte> -> Option<IP>)
    requires 4 <= n <= |buf| && buf[2] == 0x00 && buf[3] == Ipv6Address
    ensures n < 22 ==> Decode(buf, n, resolve) == OutOfRange
    ensures 22 <= n ==>
      (Decode(buf, n, resolve) ==
       Decoded(buf[..22], Ipv6(buf[4..19]),
               Endpoint(buf[4..19], buf[20] as nat * 256 + buf[21] as nat), buf[22..n]))
  {
  }
}
