/** The REP field of a SOCKS5 reply (section 6 of RFC 1928), as far as the proxy uses it. */
module ResponseCodes {
  import opened JavaTypes

  datatype ResponseCode = RequestGranted | HostUnreachable | CmdNotSupported

  /** `getValue()`: the byte the constant was declared with. */
  function Value(c: ResponseCode): byte
  {
    match c
    case RequestGranted => 0x00
    case HostUnreachable => 0x04
    case CmdNotSupported => 0x07
  }

  /** The three codes are those of section 6 of RFC 1928. */
  lemma ValuesMatchRfc1928()
    ensures Value(RequestGranted) == 0x00
    ensures Value(HostUnreachable) == 0x04
    ensures Value(CmdNotSupported) == 0x07
  {
  }

  /** No two codes share a byte. */
  lemma ValuesDistinct(c: ResponseCode, d: ResponseCode)
    ensures Value(c) == Value(d) ==> c == d
  {
  }
}
