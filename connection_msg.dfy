/**
 * The SOCKS5 request `[VER][CMD][RSV][ATYP][DST.ADDR][DST.PORT]` and the reply
 * `[VER][REP][RSV][ATYP][BND.ADDR][BND.PORT]` (sections 4, 5 and 6 of RFC 1928).
 */
module ConnectionMessages {
  import opened Wrappers
  import opened JavaTypes
  import opened Buffers
  import AddressTypes
  import RequestCodes
  import ResponseCodes

  type AddressType = AddressTypes.AddressType
  type RequestCode = RequestCodes.RequestCode
  type ResponseCode = ResponseCodes.ResponseCode

  /** The byte the reply writes between the status and the address type. */
  const Reserved: byte := 0x00

  /**
   * A request or a reply. `address` holds the raw bytes of an `InetAddress` and `domain` the
   * bytes of a domain name; either may be null. The command is null for an unknown byte and
   * for every message built by the address constructor. `port` is an `int`, as parsed.
   */
  datatype ConnectionMsg = ConnectionMsg(
    socksVersion: byte,
    requestCommand: Option<RequestCode>,
    addressType: AddressType,
    address: Option<seq<byte>>,
    domain: Option<seq<byte>>,
    port: int)

  /** The constructor `ConnectionMsg(byte, AddressType, InetAddress, int)` used for replies. */
  function Reply(version: byte, t: AddressType, address: seq<byte>, port: int): (m: ConnectionMsg)
    ensures m.domain.None? && m.requestCommand.None?
  {
    ConnectionMsg(version, None, t, Some(address), None, port)
  }

  /** `getRequestCommand()`: a null command throws `UnsupportedOperationException`. */
  function GetRequestCommand(m: ConnectionMsg): (r: Result<RequestCode, JavaException>)
    ensures r.Success? <==> m.requestCommand.Some?
    ensures r.Success? ==> r.value == m.requestCommand.value
    ensures r.Failure? ==> r.error == UnsupportedOperation
  {
    if m.requestCommand.None? then Failure(UnsupportedOperation) else Success(m.requestCommand.value)
  }

  /**
   * `getResponseBytes(code)`: a buffer of `getSize(domain) + 6` bytes receives the version,
   * the status, the reserved byte, the type, the domain bytes (for a domain name) or the
   * address bytes, and the low 16 bits of the port; the whole backing array is returned, so
   * room left unused stays zero. `getSize` throws first for a domain name without a domain,
   * a missing address is a `NullPointerException`, and bytes that do not fit overflow.
   */
  function ResponseBytes(m: ConnectionMsg, code: ResponseCode): (r: Result<seq<byte>, JavaException>)
  {
    match AddressTypes.Size(m.addressType, m.domain)
    case Failure(e) => Failure(e)
    case Success(size) =>
      var body := if m.addressType == AddressTypes.DomainName then m.domain else m.address;
      if body.None? then Failure(NullPointer)
      else
        var written := [m.socksVersion, ResponseCodes.Value(code), Reserved, AddressTypes.Value(m.addressType)]
                       + body.value + ShortBytes(m.port);
        if |written| > size + 6 then Failure(BufferOverflow)
        else Success(written + Zeros(size + 6 - |written|))
  }

  /**
   * A reply whose address has the length its type announces is exactly
   * `[VER][REP][0x00][ATYP][address][port high][port low]`, `getSize + 6` bytes long.
   */
  lemma ReplyLayout(version: byte, t: AddressType, address: seq<byte>, port: int, code: ResponseCode)
    requires t != AddressTypes.DomainName
    requires AddressTypes.Size(t, None) == Success(|address|)
    ensures ResponseBytes(Reply(version, t, address, port), code)
            == Success([version, ResponseCodes.Value(code), 0x00, AddressTypes.Value(t)] + address + ShortBytes(port))
    ensures |ResponseBytes(Reply(version, t, address, port), code).value| == |address| + 6
  {
    var written := [version, ResponseCodes.Value(code), 0x00, AddressTypes.Value(t)] + address + ShortBytes(port);
    assert Zeros(0) == [];
    assert written + Zeros(0) == written;
  }

  /** An IPv4 reply is ten bytes, and its port is the port's low 16 bits, high byte first. */
  lemma Ipv4ReplyIsTenBytes(version: byte, address: seq<byte>, port: int, code: ResponseCode)
    requires |address| == 4
    ensures var r := ResponseBytes(Reply(version, AddressTypes.Ipv4Address, address, port), code);
            r.Success? && |r.value| == 10 && r.value[..4] == [version, ResponseCodes.Value(code), 0x00, 0x01]
            && r.value[4..8] == address && r.value[8] as int * 256 + r.value[9] as int == port % 65536
  {
    ReplyLayout(version, AddressTypes.Ipv4Address, address, port, code);
  }

  /** The address constructor leaves `domain` null, so a domain-name reply always throws. */
  lemma DomainNameReplyThrows(version: byte, address: seq<byte>, port: int, code: ResponseCode)
    ensures ResponseBytes(Reply(version, AddressTypes.DomainName, address, port), code) == Failure(IllegalArgument)
  {
  }

  /**
   * The buffer is sized by the type, not by the address: a longer address overflows it
   * (a 16-byte address under the IPv4 type) and a shorter one leaves zeros at the end.
   */
  lemma ReplyAddressLengthMismatch(version: byte, t: AddressType, address: seq<byte>, port: int, code: ResponseCode)
    requires t != AddressTypes.DomainName
    ensures var size := AddressTypes.Size(t, None).value;
            var r := ResponseBytes(Reply(version, t, address, port), code);
            (|address| > size ==> r == Failure(BufferOverflow))
            && (|address| < size ==> r.Success? && |r.value| == size + 6
                                     && r.value[|address| + 6..] == Zeros(size - |address|))
  {
  }

  /** A domain-name message carries a domain, any other an address: what a parse produces. */
  predicate HasTarget(m: ConnectionMsg)
  {
    if m.addressType == AddressTypes.DomainName then m.domain.Some? else m.address.Some?
  }

  /** The address length the parser reads for an IP type: `getSize(null)`. */
  function AddressLength(t: AddressType): (n: nat)
    requires t != AddressTypes.DomainName
    ensures AddressTypes.Size(t, None) == Success(n)
  {
    if t == AddressTypes.Ipv4Address then 4 else 16
  }

  /**
   * The fixed header: version (not checked), command (null when unknown), reserved byte
   * (non-zero throws `IllegalArgumentException`) and address type (unknown throws
   * `IllegalArgumentException`). Each `get()` past the end throws `BufferUnderflowException`.
   */
  function ParseHeader(s: seq<byte>): (r: Parse<(byte, Option<RequestCode>, AddressType)>)
    ensures r.consumed <= |s| && r.consumed <= 4
    ensures r.Parsed? ==> r.consumed == 4
  {
    if |s| < 1 then Failed(BufferUnderflow, 0)
    else if |s| < 2 then Failed(BufferUnderflow, 1)
    else if |s| < 3 then Failed(BufferUnderflow, 2)
    else if s[2] != Reserved then Failed(IllegalArgument, 3)
    else if |s| < 4 then Failed(BufferUnderflow, 3)
    else
      match AddressTypes.ByValue(s[3])
      case Failure(e) => Failed(e, 4)
      case Success(t) => Parsed((s[0], RequestCodes.ByValue(s[1]), t), 4)
  }

  /**
   * The address after the type byte, as (address, domain): a length byte and that many bytes
   * for a domain name, `getSize(null)` bytes otherwise. A length byte of 0x80 or more is
   * negative and `new byte[length]` throws; a bulk `get` that cannot be met consumes nothing.
   */
  function ParseAddress(t: AddressType, s: seq<byte>): (r: Parse<(Option<seq<byte>>, Option<seq<byte>>)>)
    ensures r.consumed <= |s|
  {
    if t == AddressTypes.DomainName then
      if |s| < 1 then Failed(BufferUnderflow, 0)
      else
        var n := Signed(s[0]);
        if n < 0 then Failed(NegativeArraySize, 1)
        else if |s| < 1 + n then Failed(BufferUnderflow, 1)
        else Parsed((None, Some(s[1..1 + n])), 1 + n)
    else
      var n := AddressLength(t);
      if |s| < n then Failed(BufferUnderflow, 0)
      else Parsed((Some(s[..n]), None), n)
  }

  /**
   * The parsing constructor on the bytes `s` exposed by `flip()`: the header, the address,
   * then the port as a signed big-endian short.
   */
  function ParseRequest(s: seq<byte>): (r: Parse<ConnectionMsg>)
    ensures r.consumed <= |s|
    ensures r.Parsed? ==> HasTarget(r.value)
  {
    match ParseHeader(s)
    case Failed(e, n) => Failed(e, n)
    case Parsed(header, _) =>
      match ParseTarget(header, s[4..])
      case Failed(e, n) => Failed(e, 4 + n)
      case Parsed(m, n) => Parsed(m, 4 + n)
  }

  /** The rest of a request after its header: the address, then the port. */
  function ParseTarget(header: (byte, Option<RequestCode>, AddressType), s: seq<byte>): (r: Parse<ConnectionMsg>)
    ensures r.consumed <= |s|
    ensures r.Parsed? ==> HasTarget(r.value)
  {
    var (version, command, t) := header;
    match ParseAddress(t, s)
    case Failed(e, n) => Failed(e, n)
    case Parsed(parts, n) =>
      if |s| < n + 2 then Failed(BufferUnderflow, n)
      else Parsed(ConnectionMsg(version, command, t, parts.0, parts.1, SignedShort(s[n], s[n + 1])), n + 2)
  }

  /**
   * What a successful parse read: the version as sent, the command looked up (null when
   * unknown), a zero reserved byte, the type its byte names, the address or the
   * length-prefixed domain, and the port from the last two bytes consumed, signed.
   */
  lemma RequestFields(s: seq<byte>)
    requires ParseRequest(s).Parsed?
    ensures var m := ParseRequest(s).value;
            var n := ParseRequest(s).consumed;
            n >= 7 && m.socksVersion == s[0] && m.requestCommand == RequestCodes.ByValue(s[1])
            && s[2] == 0x00 && AddressTypes.Value(m.addressType) == s[3]
            && m.port == SignedShort(s[n - 2], s[n - 1])
            && (m.addressType == AddressTypes.DomainName ==>
                  m.address.None? && s[4] < 0x80 && m.domain == Some(s[5..n - 2]))
            && (m.addressType != AddressTypes.DomainName ==>
                  m.domain.None? && m.address == Some(s[4..n - 2]) && n - 6 == AddressLength(m.addressType))
  {
    var n := ParseRequest(s).consumed;
    AddressSlices(s, n - 6);
  }

  /** How the address bytes sit inside the request once the four header bytes are dropped. */
  lemma AddressSlices(s: seq<byte>, k: nat)
    requires 4 + k + 2 <= |s|
    ensures s[4..][..k] == s[4..4 + k]
    ensures k >= 1 ==> s[4..][1..k] == s[5..4 + k]
  {
  }

  /** A reserved byte other than 0x00 is rejected with `IllegalArgumentException`. */
  lemma ReservedMustBeZero(s: seq<byte>)
    requires |s| >= 3 && s[2] != 0x00
    ensures ParseRequest(s) == Failed(IllegalArgument, 3)
  {
  }

  /** An unknown address type byte is rejected with `IllegalArgumentException`. */
  lemma UnknownAddressType(s: seq<byte>)
    requires |s| >= 4 && s[2] == 0x00 && s[3] !in {0x01, 0x03, 0x04}
    ensures ParseRequest(s) == Failed(IllegalArgument, 4)
  {
    AddressTypes.ByValueRejectsOthers(s[3]);
  }

  /**
   * An unknown command byte does not stop the parse; it is kept as null, and asking for the
   * command then throws `UnsupportedOperationException`.
   */
  lemma UnknownCommand(s: seq<byte>)
    requires ParseRequest(s).Parsed? && s[1] !in {0x01, 0x02, 0x03}
    ensures GetRequestCommand(ParseRequest(s).value) == Failure(UnsupportedOperation)
  {
    RequestCodes.ByValueOfOthers(s[1]);
  }

  /** A domain length byte of 0x80 or more is negative to Java, so the name cannot be read. */
  lemma NegativeDomainLength(s: seq<byte>)
    requires |s| >= 5 && s[2] == 0x00 && s[3] == 0x03 && s[4] >= 0x80
    ensures ParseRequest(s) == Failed(NegativeArraySize, 5)
  {
  }

  /** Every failure is one of the exceptions the constructor declares or one the JVM raises. */
  lemma RequestFailures(s: seq<byte>)
    ensures ParseRequest(s).Failed? ==> ParseRequest(s).error in {BufferUnderflow, IllegalArgument, NegativeArraySize}
  {
  }

  /** Bytes after a complete address change neither the address nor how much is consumed. */
  lemma AddressIgnoresTrailing(t: AddressType, s: seq<byte>, u: seq<byte>)
    requires ParseAddress(t, s).Parsed?
    ensures ParseAddress(t, s + u) == ParseAddress(t, s)
  {
    var k := ParseAddress(t, s).consumed;
    if t == AddressTypes.DomainName {
      assert (s + u)[0] == s[0];
      assert (s + u)[1..k] == s[1..k];
    } else {
      assert (s + u)[..k] == s[..k];
    }
  }

  /** Bytes after a complete request change neither the message nor how much is consumed. */
  lemma {:induction false} RequestIgnoresTrailing(s: seq<byte>, t: seq<byte>)
    requires ParseRequest(s).Parsed?
    ensures ParseRequest(s + t) == ParseRequest(s)
  {
    var u := s + t;
    var t0 := ParseHeader(s).value.2;
    assert u[..4] == s[..4];
    assert ParseHeader(u) == ParseHeader(s);
    assert u[4..] == s[4..] + t;
    AddressIgnoresTrailing(t0, s[4..], t);
    var k := ParseAddress(t0, s[4..]).consumed;
    assert u[4 + k] == s[4 + k] && u[4 + k + 1] == s[4 + k + 1];
  }

  /**
   * Re-parsing a reply whose address has its type's length gives back the version, the type
   * and the address; the port comes back as written below 32768 and less 65536 otherwise. The
   * status byte sits where a request has its command, and no status value is a command.
   */
  lemma {:induction false} ReplyReparses(version: byte, t: AddressType, address: seq<byte>, port: int, code: ResponseCode)
    requires t != AddressTypes.DomainName && |address| == AddressLength(t)
    requires 0 <= port < 65536
    ensures var p := ParseRequest(ResponseBytes(Reply(version, t, address, port), code).value);
            p == Parsed(ConnectionMsg(version, None, t, Some(address), None,
                                      if port < 32768 then port else port - 65536),
                        |address| + 6)
  {
    ReplyLayout(version, t, address, port, code);
    var head: seq<byte> := [version, ResponseCodes.Value(code), 0x00, AddressTypes.Value(t)];
    var s := head + address + ShortBytes(port);
    var n := |address|;
    AddressTypes.ByValueOfValue(t);
    RequestCodes.ByValueOfOthers(ResponseCodes.Value(code));
    assert s[4..][..n] == address;
    assert s[4 + n..] == ShortBytes(port);
    assert ParseAddress(t, s[4..]) == Parsed((Some(address), None), n);
    ShortRoundTrip(port);
  }

  /**
   * The constructor on a buffer in write mode: flip, parse what was stored, compact on
   * success; on an exception the buffer stays flipped where the parse stopped.
   */
  function RequestFromBuffer(b: BufferView): (r: (Result<ConnectionMsg, JavaException>, BufferView))
    requires b.Valid()
    ensures r.1.Valid() && |r.1.data| == |b.data|
    ensures r.0.Success? ==> HasTarget(r.0.value)
  {
    AfterParse(b, ParseRequest(b.Stored()))
  }

  /** A successful parse leaves exactly the bytes after the request stored at the front. */
  lemma RequestLeavesTrailingBytes(b: BufferView)
    requires b.Valid() && ParseRequest(b.Stored()).Parsed?
    ensures var after := RequestFromBuffer(b).1;
            after.Stored() == b.Stored()[ParseRequest(b.Stored()).consumed..] && after.limit == |b.data|
  {
  }

  /** The first four `get()`s of the parsing constructor. */
  method ReadHeader(buf: ByteBuffer) returns (r: Result<(byte, Option<RequestCode>, AddressType), JavaException>)
    requires buf.Valid()
    modifies buf
    ensures buf.Valid() && ReadAs(old(buf.View()), ParseHeader(old(buf.View()).Pending()), r, buf.View())
  {
    ghost var v := buf.View();
    ghost var s := v.Pending();
    var version := buf.Get();
    if version.Failure? {
      return Failure(version.error);
    }
    assert version.value == s[0] && buf.View() == v.Skipped(1);
    var command := buf.Get();
    if command.Failure? {
      return Failure(command.error);
    }
    assert command.value == s[1] && buf.View() == v.Skipped(2);
    var requestCommand := RequestCodes.ByValue(command.value);
    var reserved := buf.Get();
    if reserved.Failure? {
      return Failure(reserved.error);
    }
    assert reserved.value == s[2] && buf.View() == v.Skipped(3);
    if reserved.value != Reserved {
      return Failure(IllegalArgument);
    }
    var typeByte := buf.Get();
    if typeByte.Failure? {
      return Failure(typeByte.error);
    }
    var addressType := AddressTypes.GetByValue(typeByte.value);
    if addressType.Failure? {
      return Failure(addressType.error);
    }
    r := Success((version.value, requestCommand, addressType.value));
  }

  /** The address part of the parsing constructor, after the type byte. */
  method ReadAddress(buf: ByteBuffer, t: AddressType) returns (r: Result<(Option<seq<byte>>, Option<seq<byte>>), JavaException>)
    requires buf.Valid()
    modifies buf
    ensures buf.Valid() && ReadAs(old(buf.View()), ParseAddress(t, old(buf.View()).Pending()), r, buf.View())
  {
    if t == AddressTypes.DomainName {
      r := ReadDomainName(buf);
    } else {
      var raw := buf.GetBytes(AddressLength(t));
      if raw.Failure? {
        return Failure(raw.error);
      }
      r := Success((Some(raw.value), None));
    }
  }

  /** The domain-name branch of the address: a signed length byte, then that many bytes. */
  method ReadDomainName(buf: ByteBuffer) returns (r: Result<(Option<seq<byte>>, Option<seq<byte>>), JavaException>)
    requires buf.Valid()
    modifies buf
    ensures buf.Valid()
    ensures ReadAs(old(buf.View()), ParseAddress(AddressTypes.DomainName, old(buf.View()).Pending()), r, buf.View())
  {
    ghost var v := buf.View();
    ghost var s := v.Pending();
    var length := buf.Get();
    if length.Failure? {
      assert ParseAddress(AddressTypes.DomainName, s) == Failed(BufferUnderflow, 0) && buf.View() == v.Skipped(0);
      return Failure(length.error);
    }
    assert buf.View() == v.Skipped(1) && buf.View().Pending() == s[1..];
    var n := Signed(length.value);
    if n < 0 {
      assert ParseAddress(AddressTypes.DomainName, s) == Failed(NegativeArraySize, 1);
      return Failure(NegativeArraySize);
    }
    var name := buf.GetBytes(n);
    if name.Failure? {
      assert ParseAddress(AddressTypes.DomainName, s) == Failed(BufferUnderflow, 1);
      return Failure(name.error);
    }
    assert s[1..][..n] == s[1..1 + n];
    assert ParseAddress(AddressTypes.DomainName, s) == Parsed((None, Some(s[1..1 + n])), 1 + n);
    assert buf.View() == v.Skipped(1 + n);
    r := Success((None, Some(name.value)));
  }

  /** The reads of the parsing constructor `ConnectionMsg(ByteBuffer)`, on a flipped buffer. */
  method ReadConnectionFields(buf: ByteBuffer) returns (r: Result<ConnectionMsg, JavaException>)
    requires buf.Valid()
    modifies buf
    ensures buf.Valid() && ReadAs(old(buf.View()), ParseRequest(old(buf.View()).Pending()), r, buf.View())
  {
    ghost var v := buf.View();
    var header := ReadHeader(buf);
    if header.Failure? {
      return Failure(header.error);
    }
    assert buf.View() == v.Skipped(4) && buf.View().Pending() == v.Pending()[4..];
    r := ReadTarget(buf, header.value);
  }

  /** The address and the port, after the header. */
  method ReadTarget(buf: ByteBuffer, header: (byte, Option<RequestCode>, AddressType)) returns (r: Result<ConnectionMsg, JavaException>)
    requires buf.Valid()
    modifies buf
    ensures buf.Valid() && ReadAs(old(buf.View()), ParseTarget(header, old(buf.View()).Pending()), r, buf.View())
  {
    ghost var v := buf.View();
    ghost var s := v.Pending();
    var (version, requestCommand, addressType) := header;
    var parts := ReadAddress(buf, addressType);
    if parts.Failure? {
      return Failure(parts.error);
    }
    ghost var n := ParseAddress(addressType, s).consumed;
    assert ParseAddress(addressType, s) == Parsed(parts.value, n);
    assert buf.View() == v.Skipped(n) && buf.View().Pending() == s[n..];
    var port := buf.GetShort();
    if port.Failure? {
      return Failure(port.error);
    }
    assert s[n..][0] == s[n] && s[n..][1] == s[n + 1];
    r := Success(ConnectionMsg(version, requestCommand, addressType, parts.value.0, parts.value.1, port.value));
  }

  /** The parsing constructor `ConnectionMsg(ByteBuffer)`. */
  method ReadConnectionMsg(buf: ByteBuffer) returns (r: Result<ConnectionMsg, JavaException>)
    requires buf.Valid()
    modifies buf, buf.data
    ensures buf.Valid() && (r, buf.View()) == RequestFromBuffer(old(buf.View()))
  {
    buf.Flip();
    r := ReadConnectionFields(buf);
    if r.Success? {
      buf.Compact();
    }
  }

  /** Scenario: a CONNECT to 127.0.0.1:80 parses as such and is consumed whole. */
  lemma ConnectToLoopback()
    ensures ParseRequest([0x05, 0x01, 0x00, 0x01, 0x7F, 0x00, 0x00, 0x01, 0x00, 0x50])
            == Parsed(ConnectionMsg(0x05, Some(RequestCodes.EstablishStreamConnection), AddressTypes.Ipv4Address,
                                    Some([0x7F, 0x00, 0x00, 0x01]), None, 80), 10)
  {
    var s: seq<byte> := [0x05, 0x01, 0x00, 0x01, 0x7F, 0x00, 0x00, 0x01, 0x00, 0x50];
    AddressTypes.ByValueOfValue(AddressTypes.Ipv4Address);
    RequestCodes.ByValueOfValue(RequestCodes.EstablishStreamConnection);
    assert ParseHeader(s) == Parsed((0x05, Some(RequestCodes.EstablishStreamConnection), AddressTypes.Ipv4Address), 4);
    assert s[4..][..4] == [0x7F, 0x00, 0x00, 0x01];
    assert SignedShort(0x00, 0x50) == 80;
  }
}
