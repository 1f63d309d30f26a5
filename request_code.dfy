/** The CMD field of a SOCKS5 request (section 4 of RFC 1928). */
module RequestCodes {
  import opened Wrappers
  import opened JavaTypes

  datatype RequestCode = EstablishStreamConnection | EstablishPortBinding | AssociateUdpPort

  /** `getValue()`: the byte the constant was declared with. */
  function Value(c: RequestCode): byte
  {
    match c
    case EstablishStreamConnection => 0x01
    case EstablishPortBinding => 0x02
    case AssociateUdpPort => 0x03
  }

  /**
   * `valuesToCommands`: every constant keyed by its byte. `toMap` would throw on a duplicate
   * key; `ValuesDistinct` shows there is none, so every constant is present.
   */
  const ValuesToCommands: map<byte, RequestCode> := map[
    Value(EstablishStreamConnection) := EstablishStreamConnection,
    Value(EstablishPortBinding) := EstablishPortBinding,
    Value(AssociateUdpPort) := AssociateUdpPort]

  /** `getByValue(value)`: a map lookup, so an unknown byte gives `null` rather than an exception. */
  function ByValue(b: byte): (r: Option<RequestCode>)
    ensures r.Some? ==> Value(r.value) == b
    ensures r.None? ==> forall c :: Value(c) != b
  {
    if b in ValuesToCommands then Some(ValuesToCommands[b]) else None
  }

  /** The commands are those of section 4 of RFC 1928. */
  lemma ValuesMatchRfc1928()
    ensures Value(EstablishStreamConnection) == 0x01
    ensures Value(EstablishPortBinding) == 0x02
    ensures Value(AssociateUdpPort) == 0x03
  {
  }

  /** No two commands share a byte, so `toMap` cannot meet a duplicate key. */
  lemma ValuesDistinct(c: RequestCode, d: RequestCode)
    ensures Value(c) == Value(d) ==> c == d
  {
  }

  /** Looking a command up by its own byte finds it again. */
  lemma ByValueOfValue(c: RequestCode)
    ensures ByValue(Value(c)) == Some(c)
  {
    assert Value(c) in ValuesToCommands;
  }

  /** Any byte other than 0x01, 0x02 and 0x03 looks up to `null`. */
  lemma ByValueOfOthers(b: byte)
    requires b != 0x01 && b != 0x02 && b != 0x03
    ensures ByValue(b) == None
  {
  }
}
