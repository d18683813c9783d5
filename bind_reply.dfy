/** The reply the relay writes on the TCP control connection once its UDP
    socket is bound: the reply format of section 6 of RFC 1928 with
    VER = 5, REP = 0 (succeeded), RSV = 0, ATYP = 1 (IPv4), then BND.ADDR
    and BND.PORT. The code writes the 4-byte form of the bound address,
    which is empty for an address that is not IPv4, and the port
    truncated to 16 bits, big-endian. */
module BindReply {
  import opened Options
  import opened Socks5
  import opened UdpHeader

  /** The reply bytes for a socket bound to (ip, port). */
  function BindReply(ip: IP, port: nat): (r: seq<byte>)
    ensures |To4(ip)| == 4 ==>
      && |r| == 10
      && r[..4] == [Socks5Version, SuccessReply, 0x00, Ipv4Address]
      && r[4..8] == To4(ip)
      && r[8] as nat * 256 + r[9] as nat == port % 65536
    ensures To4(ip) == [] ==> |r| == 6 && r[3] == Ipv4Address
  {
    [Socks5Version, SuccessReply, 0x00, Ipv4Address] + To4(ip) + PortBytes(port % 65536)
  }

  /** How a client reads a successful IPv4 reply (section 6 of RFC 1928):
      the reference the reply is held against. */
  function ParseReply(r: seq<byte>): Option<Endpoint> {
    if |r| == 10 && r[..4] == [Socks5Version, SuccessReply, 0x00, Ipv4Address]
    then Some(Endpoint(r[4..8], PortOf(r[8], r[9])))
    else None
  }

  /** A client reading the reply of a socket bound to an IPv4 address gets
      that address and port back. */
  lemma BindReplyRoundTrip(ip: IP, port: nat)
    requires |To4(ip)| == 4 && port < 65536
    ensures ParseReply(BindReply(ip, port)) == Some(Endpoint(To4(ip), port))
  {
    var r := BindReply(ip, port);
    assert r[4..8] == To4(ip);
  }

  /** For a socket bound to an IPv6 address the code still announces an
      IPv4 address but writes no address bytes: the reply is six bytes long
      and not a well-formed reply. */
  lemma BindReplyNonIpv4(ip: IP, port: nat)
    requires To4(ip) == []
    ensures |BindReply(ip, port)| == 6
    ensures ParseReply(BindReply(ip, port)) == None
  {
  }
}
