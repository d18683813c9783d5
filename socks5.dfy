/** Optional values, used for the results of name resolution, tunnel opening
    and for the not-yet-learned client address. */
module Options {
  datatype Option<+T> = None | Some(value: T)
}

/** Protocol constants from RFC 1928 and the relay's fixed configuration. */
module Socks5 {
  /** An octet. */
  newtype byte = x: int | 0 <= x < 256

  /** VER field of every SOCKS5 reply (section 6 of RFC 1928). */
  const Socks5Version: byte := 0x05
  /** REP value "succeeded" (section 6 of RFC 1928). */
  const SuccessReply: byte := 0x00

  /** ATYP values (section 5 of RFC 1928). */
  const Ipv4Address: byte := 0x01
  const FqdnAddress: byte := 0x03
  const Ipv6Address: byte := 0x04

  /** Size of the receive buffer of the forward loop and of the framing
      buffer of each reverse forwarder. */
  const BufferSize: nat := 64 * 1024

  /** The longest header the decoder can produce: a domain header with a
      255-byte name is 2 + 1 + 1 + 1 + 255 + 2 bytes. */
  const MaxHeaderLength: nat := 7 + 255
}
