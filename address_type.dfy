/** The ATYP field of a SOCKS5 request or reply (section 5 of RFC 1928). */
module AddressTypes {
  import opened Wrappers
  import opened JavaTypes

  datatype AddressType = Ipv4Address | DomainName | Ipv6Address

  /** The constants in declaration order, as `values()` returns them. */
  const Values: seq<AddressType> := [Ipv4Address, DomainName, Ipv6Address]

  /** `getValue()`: the byte the constant was declared with. */
  function Value(t: AddressType): byte
  {
    match t
    case Ipv4Address => 0x01
    case DomainName => 0x03
    case Ipv6Address => 0x04
  }

  /**
   * `getSize(domain)`: the length of an address of this type; `domain` is `None` for Java's
   * `null`, and a domain name is as long as its text plus its length byte.
   */
  function Size(t: AddressType, domain: Option<seq<byte>>): Result<nat, JavaException>
  {
    match t
    case Ipv4Address => Success(4)
    case Ipv6Address => Success(16)
    case DomainName =>
      if domain.None? then Failure(IllegalArgument) else Success(|domain.value| + 1)
  }

  /**
   * The type a byte denotes: the constant declared with it, or `IllegalArgumentException`
   * when no constant was.
   */
  function ByValue(b: byte): (r: Result<AddressType, JavaException>)
    ensures r.Success? ==> Value(r.value) == b
    ensures r.Failure? ==> r.error == IllegalArgument && forall t :: Value(t) != b
  {
    if b == 0x01 then Success(Ipv4Address)
    else if b == 0x03 then Success(DomainName)
    else if b == 0x04 then Success(Ipv6Address)
    else Failure(IllegalArgument)
  }

  /** `getByValue(value)`: the linear search over `values()` that returns the first match. */
  method GetByValue(b: byte) returns (r: Result<AddressType, JavaException>)
    ensures r == ByValue(b)
  {
    var i := 0;
    while i < |Values|
      invariant 0 <= i <= |Values|
      invariant forall j :: 0 <= j < i ==> Value(Values[j]) != b
    {
      if Value(Values[i]) == b {
        return Success(Values[i]);
      }
      i := i + 1;
    }
    assert Value(Values[0]) != b && Value(Values[1]) != b && Value(Values[2]) != b;
    return Failure(IllegalArgument);
  }

  /** The three codes are those of section 5 of RFC 1928. */
  lemma ValuesMatchRfc1928()
    ensures Value(Ipv4Address) == 0x01 && Value(DomainName) == 0x03 && Value(Ipv6Address) == 0x04
  {
  }

  /** Looking a type up by its own byte finds it again. */
  lemma ByValueOfValue(t: AddressType)
    ensures ByValue(Value(t)) == Success(t)
  {
  }

  /** Every byte other than 0x01, 0x03 and 0x04 is rejected with `IllegalArgumentException`. */
  lemma ByValueRejectsOthers(b: byte)
    requires b != 0x01 && b != 0x03 && b != 0x04
    ensures ByValue(b) == Failure(IllegalArgument)
  {
  }

  /** IPv4 addresses are 4 bytes and IPv6 addresses 16, whatever domain is passed. */
  lemma SizeOfIpTypes(domain: Option<seq<byte>>)
    ensures Size(Ipv4Address, domain) == Success(4)
    ensures Size(Ipv6Address, domain) == Success(16)
  {
  }

  /** A domain name takes its length plus one byte; without a name the size is an error. */
  lemma SizeOfDomainName(name: seq<byte>)
    ensures Size(DomainName, Some(name)) == Success(|name| + 1)
    ensures Size(DomainName, None) == Failure(IllegalArgument)
  {
  }
}
