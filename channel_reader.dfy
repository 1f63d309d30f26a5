/**
 * `ChannelReader`: what the proxy does when a client or destination channel is readable.
 * Each handler is a step function on the session's (and, for a domain name, the resolver's)
 * observable state, and a method of the class that performs it on the objects.
 */
module ChannelReaders {
  import opened Wrappers
  import opened JavaTypes
  import opened Buffers
  import opened ChannelAttachments
  import opened SocksClients
  import opened DnsResolvers
  import opened GreetingMessages
  import opened ConnectionMessages
  import AddressTypes
  import RequestCodes
  import ResponseCodes

  /** What a `SocketChannel.read` does: end of stream, some bytes offered, or an `IOException`. */
  datatype ReadResult = Eof | Offered(bytes: seq<byte>) | ReadFailed

  /**
   * What the synchronous `Lookup.run()` inside `resolve` gives: records, the first of which is
   * the A record returned; an empty array; null (no answer), which `result.length` dereferences;
   * or a `TextParseException` for a name that does not parse.
   */
  datatype Lookup = Found(address: seq<byte>) | NoRecords | NoAnswer | Unparsable

  /**
   * What the platform calls made while handling a request return: `getLocalHost()` (none for
   * `UnknownHostException`), the synchronous lookup of a domain, and opening the destination
   * channel.
   */
  datatype Environment = Environment(localHost: Option<seq<byte>>, lookup: Lookup, open: OpenResult)

  /** The `catch (IllegalArgumentException)` around `greet` and `processConnectionRequest`. */
  function CatchIllegalArgument(s: SessionView, o: Outcome): (r: (SessionView, Outcome))
    ensures o == Escaped(IllegalArgument) ==> r == (s.CloseClient(), Completed)
    ensures o != Escaped(IllegalArgument) ==> r == (s, o)
  {
    if o == Escaped(IllegalArgument) then (s.CloseClient(), Completed) else (s, o)
  }

  /** The `catch (IOException ignored)` around the client and destination reads. */
  function IgnoreIo(o: Outcome): (r: Outcome)
    ensures r == if o == Escaped(IO) then Completed else o
  {
    if o == Escaped(IO) then Completed else o
  }

  /** `destToClient.put(bytes)`: queue bytes for the client, or `BufferOverflowException`. */
  function Queue(s: SessionView, bytes: seq<byte>): (r: (SessionView, Outcome))
    requires s.destToClient.Valid()
    ensures r.1 == Completed <==> |bytes| <= s.destToClient.Remaining()
    ensures r.1 == Completed ==> r.0 == s.(destToClient := r.0.destToClient)
                                 && r.0.destToClient.Valid()
                                 && r.0.destToClient.Stored() == s.destToClient.Stored() + bytes
    ensures r.1 != Completed ==> r == (s, Escaped(BufferOverflow))
  {
    match s.destToClient.Put(bytes)
    case Failure(e) => (s, Escaped(e))
    case Success(d) => (s.(destToClient := d), Completed)
  }

  /**
   * The body of `greet`: parse the greeting from `clientToDest`; a wrong version closes the
   * client; otherwise choose no-authentication when offered, else "no acceptable method"
   * with close-after-send, queue the two-byte reply, want only WRITE on the client and move
   * to SEND_GREETING_RESP.
   */
  function GreetBody(version: byte, s: SessionView): (r: (SessionView, Outcome))
    requires s.clientToDest.Valid() && s.destToClient.Valid()
    ensures r.0.clientToDest.Valid() && r.0.destToClient.Valid()
  {
    var (greeting, rest) := GreetingFromBuffer(s.clientToDest);
    var s1 := s.(clientToDest := rest);
    if greeting.Failure? then (s1, Escaped(greeting.error))
    else AnswerGreetingStep(version, s1, greeting.value)
  }

  /**
   * `greet` once a greeting is parsed: a wrong version closes the client; otherwise the reply
   * names NO AUTHENTICATION if the client offered it, else NO ACCEPTABLE METHODS and the
   * session closes once the reply is sent.
   */
  function AnswerGreetingStep(version: byte, s: SessionView, greeting: GreetingMessage): (r: (SessionView, Outcome))
    requires s.clientToDest.Valid() && s.destToClient.Valid()
    ensures r.0.clientToDest.Valid() && r.0.destToClient.Valid()
  {
    if greeting.socksVersion != version then (s.CloseClient(), Completed)
    else
      var offered := HasAuthMethod(greeting, NoAuthentication);
      var chosen := if offered then NoAuthentication else NoAcceptableMethod;
      var s2 := if offered then s else s.(closeUponSending := true);
      match ToByteResponse(SingleMethod(version, chosen))
      case Failure(e) => (s2, Escaped(e))
      case Success(reply) =>
        var (s3, o) := Queue(s2, reply);
        if o != Completed then (s3, o)
        else (s3.(clientInterest := {OpWrite}, state := SendGreetingResp), Completed)
  }

  /** `greet`. */
  function GreetStep(version: byte, s: SessionView): (r: (SessionView, Outcome))
    requires s.clientToDest.Valid() && s.destToClient.Valid()
    ensures r.0.clientToDest.Valid() && r.0.destToClient.Valid()
  {
    var (s1, o) := GreetBody(version, s);
    CatchIllegalArgument(s1, o)
  }

  /**
   * `sendResponse(response, code)`: close-after-send, want only WRITE on the client, move to
   * SEND_CONN_RESP, then queue the reply's bytes.
   */
  function SendResponseStep(s: SessionView, response: ConnectionMsg, code: ResponseCodes.ResponseCode): (r: (SessionView, Outcome))
    requires s.destToClient.Valid()
    ensures r.0.clientToDest == s.clientToDest && r.0.destToClient.Valid()
  {
    var s1 := s.(closeUponSending := true, clientInterest := {OpWrite}, state := SendConnResp);
    match ResponseBytes(response, code)
    case Failure(e) => (s1, Escaped(e))
    case Success(bytes) => Queue(s1, bytes)
  }

  /**
   * `new InetSocketAddress(address, port)` then `connect`: the socket address constructor
   * rejects a port outside 0..65535 with `IllegalArgumentException`.
   */
  function ConnectToStep(s: SessionView, address: seq<byte>, port: int, open: OpenResult): (r: (SessionView, Outcome))
    ensures r.0.clientToDest == s.clientToDest && r.0.destToClient == s.destToClient
  {
    if port < 0 || port > 65535 then (s, Escaped(IllegalArgument))
    else ConnectStep(s, SocketAddress(address, port), open)
  }

  /**
   * `createConnection`: a domain name is looked up synchronously. A lookup with no answer makes
   * `resolve` throw `NullPointerException`, which nothing on the way catches; an empty answer or
   * a name that does not parse makes `resolve` return null, and then a query is issued for the
   * client's key and nothing else happens. Otherwise (or for an IP address) the proxy connects
   * to the address and the requested port.
   */
  function CreateConnectionStep(s: SessionView, rv: ResolverView, encode: Encoder, request: ConnectionMsg,
                                clientKey: Key, env: Environment): (r: (SessionView, ResolverView, Outcome))
    requires s.destToClient.Valid()
    requires rv.output.Some? ==> rv.output.value.Valid()
    requires HasTarget(request)
    ensures r.0.clientToDest == s.clientToDest && r.0.destToClient.Valid()
    ensures r.1.output.Some? ==> r.1.output.value.Valid()
  {
    if request.addressType == AddressTypes.DomainName then
      match env.lookup
      case NoAnswer => (s, rv, Escaped(NullPointer))
      case NoRecords | Unparsable =>
        var (rv2, o) := MakeDnsRequestStep(rv, encode, request.domain.value, clientKey);
        (s, rv2, o)
      case Found(address) =>
        var (s2, o) := ConnectToStep(s, address, request.port, env.open);
        (s2, rv, o)
    else
      var (s2, o) := ConnectToStep(s, request.address.value, request.port, env.open);
      (s2, rv, o)
  }

  /**
   * The body of `processConnectionRequest`: parse the request from `clientToDest`; a wrong
   * version closes the client.
   */
  function ProcessConnectionRequestBody(version: byte, proxyPort: int, s: SessionView, rv: ResolverView,
                                        encode: Encoder, clientKey: Key, env: Environment): (r: (SessionView, ResolverView, Outcome))
    requires s.clientToDest.Valid() && s.destToClient.Valid()
    requires rv.output.Some? ==> rv.output.value.Valid()
    ensures r.0.clientToDest.Valid() && r.0.destToClient.Valid()
    ensures r.1.output.Some? ==> r.1.output.value.Valid()
  {
    var (parsed, rest) := RequestFromBuffer(s.clientToDest);
    RequestReadStep(version, proxyPort, s.(clientToDest := rest), rv, encode, parsed, clientKey, env)
  }

  /** `processConnectionRequest` once the request constructor returned `parsed`. */
  function RequestReadStep(version: byte, proxyPort: int, s: SessionView, rv: ResolverView, encode: Encoder,
                           parsed: Result<ConnectionMsg, JavaException>, clientKey: Key, env: Environment)
    : (r: (SessionView, ResolverView, Outcome))
    requires s.clientToDest.Valid() && s.destToClient.Valid()
    requires rv.output.Some? ==> rv.output.value.Valid()
    requires parsed.Success? ==> HasTarget(parsed.value)
    ensures r.0.clientToDest.Valid() && r.0.destToClient.Valid()
    ensures r.1.output.Some? ==> r.1.output.value.Valid()
  {
    if parsed.Failure? then (s, rv, Escaped(parsed.error))
    else if parsed.value.socksVersion != version then (s.CloseClient(), rv, Completed)
    else AnswerRequestStep(version, proxyPort, s, rv, encode, parsed.value, clientKey, env)
  }

  /**
   * A request of the proxy's version: CONNECT goes on to `createConnection`; any other known
   * command is answered CMD_NOT_SUPPORTED with the local host's address and the proxy's port;
   * an unknown command throws `UnsupportedOperationException`.
   */
  function AnswerRequestStep(version: byte, proxyPort: int, s: SessionView, rv: ResolverView, encode: Encoder,
                             request: ConnectionMsg, clientKey: Key, env: Environment): (r: (SessionView, ResolverView, Outcome))
    requires s.destToClient.Valid()
    requires rv.output.Some? ==> rv.output.value.Valid()
    requires HasTarget(request)
    ensures r.0.clientToDest == s.clientToDest && r.0.destToClient.Valid()
    ensures r.1.output.Some? ==> r.1.output.value.Valid()
  {
    match GetRequestCommand(request)
    case Failure(e) => (s, rv, Escaped(e))
    case Success(command) =>
      if command == RequestCodes.EstablishStreamConnection then
        CreateConnectionStep(s, rv, encode, request, clientKey, env)
      else if env.localHost.None? then (s, rv, Escaped(IO))
      else
        var reply := Reply(version, AddressTypes.Ipv4Address, env.localHost.value, proxyPort);
        var (s2, o) := SendResponseStep(s, reply, ResponseCodes.CmdNotSupported);
        (s2, rv, o)
  }

  /** `processConnectionRequest`. */
  function ProcessConnectionRequestStep(version: byte, proxyPort: int, s: SessionView, rv: ResolverView,
                                        encode: Encoder, clientKey: Key, env: Environment): (r: (SessionView, ResolverView, Outcome))
    requires s.clientToDest.Valid() && s.destToClient.Valid()
    requires rv.output.Some? ==> rv.output.value.Valid()
    ensures r.0.clientToDest.Valid() && r.0.destToClient.Valid()
    ensures r.1.output.Some? ==> r.1.output.value.Valid()
  {
    var (s1, rv1, o) := ProcessConnectionRequestBody(version, proxyPort, s, rv, encode, clientKey, env);
    var (s2, o2) := CatchIllegalArgument(s1, o);
    (s2, rv1, o2)
  }

  /**
   * `processReadState`: greet, handle the request, or relay. While relaying, a full
   * `clientToDest` stops the client's READ, and bytes read make the destination want WRITE.
   * The other states only keep what was read.
   */
  function ProcessReadStateStep(version: byte, proxyPort: int, read: bool, s: SessionView, rv: ResolverView,
                                encode: Encoder, clientKey: Key, env: Environment): (r: (SessionView, ResolverView, Outcome))
    requires s.clientToDest.Valid() && s.destToClient.Valid()
    requires rv.output.Some? ==> rv.output.value.Valid()
    ensures r.0.clientToDest.Valid() && r.0.destToClient.Valid()
    ensures r.1.output.Some? ==> r.1.output.value.Valid()
  {
    match s.state
    case RecvInitGreeting =>
      var (s1, o) := GreetStep(version, s);
      (s1, rv, o)
    case RecvConnReq => ProcessConnectionRequestStep(version, proxyPort, s, rv, encode, clientKey, env)
    case Active =>
      var (s1, o) := ActiveReadStep(s, read);
      (s1, rv, o)
    case _ => (s, rv, Completed)
  }

  /**
   * `processReadState` in ACTIVE: a full `clientToDest` stops the client's READ; bytes read
   * make the destination want WRITE.
   */
  function ActiveReadStep(s: SessionView, read: bool): (r: (SessionView, Outcome))
    requires s.clientToDest.Valid()
    ensures r.0.clientToDest == s.clientToDest && r.0.destToClient == s.destToClient
    ensures r.0.state == s.state && r.0.destInterest.Some? == s.destInterest.Some?
  {
    var s1 := if s.clientToDest.Remaining() == 0 then s.(clientInterest := s.clientInterest - {OpRead}) else s;
    if !read then (s1, Completed)
    else if s1.destInterest.None? then (s1, Escaped(NullPointer))
    else (s1.(destInterest := Some(s1.destInterest.value + {OpWrite})), Completed)
  }

  /**
   * `readFromClient`: in CLOSED only close the client side. Otherwise read into
   * `clientToDest`; at end of stream close the client side and stop the destination's READ;
   * after a read go on by state. An `IOException` is swallowed, after whatever it interrupted.
   */
  function ReadFromClientStep(version: byte, proxyPort: int, s: SessionView, rv: ResolverView, encode: Encoder,
                              clientKey: Key, input: ReadResult, env: Environment): (r: (SessionView, ResolverView, Outcome))
    requires s.clientToDest.Valid() && s.destToClient.Valid()
    requires rv.output.Some? ==> rv.output.value.Valid()
    ensures r.0.clientToDest.Valid() && r.0.destToClient.Valid()
    ensures r.1.output.Some? ==> r.1.output.value.Valid()
  {
    if s.state == Closed then (s.CloseClient(), rv, Completed)
    else
      match input
      case ReadFailed => (s, rv, Completed)
      case Eof => (s.CloseClient().ClearDest(OpRead), rv, Completed)
      case Offered(bytes) => ReadOfferedStep(version, proxyPort, s, rv, encode, clientKey, bytes, env)
  }

  /** The open-session branch of `readFromClient` where the channel offers `bytes`. */
  function ReadOfferedStep(version: byte, proxyPort: int, s: SessionView, rv: ResolverView, encode: Encoder,
                           clientKey: Key, bytes: seq<byte>, env: Environment): (r: (SessionView, ResolverView, Outcome))
    requires s.clientToDest.Valid() && s.destToClient.Valid()
    requires rv.output.Some? ==> rv.output.value.Valid()
    ensures r.0.clientToDest.Valid() && r.0.destToClient.Valid()
    ensures r.1.output.Some? ==> r.1.output.value.Valid()
  {
    var (n, filled) := ReadInto(s.clientToDest, bytes);
    var (s1, rv1, o) := ProcessReadStateStep(version, proxyPort, n > 0, s.(clientToDest := filled), rv, encode, clientKey, env);
    (s1, rv1, IgnoreIo(o))
  }

  /**
   * `readFromDestination`: in CLOSED only close the destination side. Otherwise read into
   * `destToClient`; at end of stream close the destination side and stop the client's READ; a
   * full buffer stops the destination's READ, and bytes read make the client want WRITE.
   */
  function ReadFromDestinationStep(s: SessionView, input: ReadResult): (r: SessionView)
    requires s.destToClient.Valid()
    ensures r.clientToDest == s.clientToDest && r.destToClient.Valid()
  {
    if s.state == Closed then s.CloseDest()
    else
      match input
      case ReadFailed => s
      case Eof => s.CloseDest().(clientInterest := s.clientInterest - {OpRead})
      case Offered(bytes) =>
        var (n, filled) := ReadInto(s.destToClient, bytes);
        var s1 := s.(destToClient := filled);
        var s2 := if filled.Remaining() == 0 then s1.ClearDest(OpRead) else s1;
        if n > 0 then s2.(clientInterest := s2.clientInterest + {OpWrite}) else s2
  }

  /** A client read in CLOSED only closes the client side: nothing is read. */
  lemma ClosedClientReadOnlyCloses(version: byte, proxyPort: int, s: SessionView, rv: ResolverView, encode: Encoder,
                                   key: Key, input: ReadResult, env: Environment)
    requires s.clientToDest.Valid() && s.destToClient.Valid()
    requires rv.output.Some? ==> rv.output.value.Valid()
    requires s.state == Closed
    ensures ReadFromClientStep(version, proxyPort, s, rv, encode, key, input, env) == (s.CloseClient(), rv, Completed)
  {
  }

  /**
   * End of stream from the client closes the client side and clears only READ on the
   * destination key, when there is one; buffers, state and the client's interest stay.
   */
  lemma ClientEndOfStream(version: byte, proxyPort: int, s: SessionView, rv: ResolverView, encode: Encoder,
                          key: Key, env: Environment)
    requires s.clientToDest.Valid() && s.destToClient.Valid()
    requires rv.output.Some? ==> rv.output.value.Valid()
    requires s.state != Closed
    ensures var (r, rv2, o) := ReadFromClientStep(version, proxyPort, s, rv, encode, key, Eof, env);
            o == Completed && rv2 == rv && r.clientCloses == s.clientCloses + 1
            && r == s.(clientCloses := r.clientCloses, destInterest := r.destInterest)
            && r.destInterest.Some? == s.destInterest.Some?
            && (s.destInterest.Some? ==> r.destInterest.value == s.destInterest.value - {OpRead})
  {
  }

  /**
   * A destination read: in CLOSED only the destination side is closed; at end of stream the
   * destination side is closed and the client stops reading; otherwise the bytes that fit
   * are appended to `destToClient`, a full buffer stops the destination's READ, and bytes
   * read make the client want WRITE. The state never changes.
   */
  lemma DestinationRead(s: SessionView, input: ReadResult)
    requires s.destToClient.Valid() && s.destInterest.Some?
    ensures var r := ReadFromDestinationStep(s, input);
            r.state == s.state && r.clientToDest == s.clientToDest && r.clientCloses == s.clientCloses
            && (s.state == Closed ==> r == s.CloseDest())
            && (s.state != Closed && input == Eof ==>
                  r == s.CloseDest().(clientInterest := s.clientInterest - {OpRead}))
            && (s.state != Closed && input.Offered? ==>
                  var n := Transferred(|input.bytes|, s.destToClient.Remaining());
                  r.destCloses == s.destCloses
                  && r.destToClient.Stored() == s.destToClient.Stored() + input.bytes[..n]
                  && r.destInterest.Some?
                  && (OpRead in r.destInterest.value <==> OpRead in s.destInterest.value && r.destToClient.Remaining() > 0)
                  && r.destInterest.value - {OpRead} == s.destInterest.value - {OpRead}
                  && r.clientInterest == if n > 0 then s.clientInterest + {OpWrite} else s.clientInterest)
  {
  }

  /**
   * A client read while relaying: the bytes that fit are appended to `clientToDest`, a full
   * buffer stops the client's READ (backpressure), bytes read make the destination want
   * WRITE, and the state stays ACTIVE.
   */
  lemma ActiveClientRead(version: byte, proxyPort: int, s: SessionView, rv: ResolverView, encode: Encoder,
                         key: Key, bytes: seq<byte>, env: Environment)
    requires s.clientToDest.Valid() && s.destToClient.Valid()
    requires rv.output.Some? ==> rv.output.value.Valid()
    requires s.state == Active && s.destInterest.Some?
    ensures var (r, rv2, o) := ReadFromClientStep(version, proxyPort, s, rv, encode, key, Offered(bytes), env);
            var n := Transferred(|bytes|, s.clientToDest.Remaining());
            o == Completed && rv2 == rv && r.state == Active
            && r.clientToDest.Stored() == s.clientToDest.Stored() + bytes[..n]
            && r.destToClient == s.destToClient
            && (OpRead in r.clientInterest <==> OpRead in s.clientInterest && r.clientToDest.Remaining() > 0)
            && r.clientInterest - {OpRead} == s.clientInterest - {OpRead}
            && r.destInterest == Some(if n > 0 then s.destInterest.value + {OpWrite} else s.destInterest.value)
  {
  }

  /**
   * While a reply is being sent or the destination is being connected, a client read only
   * appends to `clientToDest`: state, interests and the other buffer stay.
   */
  lemma WaitingStatesOnlyBuffer(version: byte, proxyPort: int, s: SessionView, rv: ResolverView, encode: Encoder,
                                key: Key, bytes: seq<byte>, env: Environment)
    requires s.clientToDest.Valid() && s.destToClient.Valid()
    requires rv.output.Some? ==> rv.output.value.Valid()
    requires s.state in {SendGreetingResp, ConnectingToDest, SendConnResp}
    ensures var (r, rv2, o) := ReadFromClientStep(version, proxyPort, s, rv, encode, key, Offered(bytes), env);
            o == Completed && rv2 == rv && r == s.(clientToDest := r.clientToDest)
            && r.clientToDest.Stored() == s.clientToDest.Stored() + bytes[..Transferred(|bytes|, s.clientToDest.Remaining())]
  {
  }

  /**
   * `greet` on a complete greeting: a wrong version closes the client and queues nothing.
   * Otherwise, when two bytes fit, the reply `[version, method]` is queued, the chosen method
   * being no-authentication exactly when it was offered, close-after-send is set exactly
   * when it was not, the client wants only WRITE and the state is SEND_GREETING_RESP.
   */
  lemma GreetReplies(version: byte, s: SessionView)
    requires s.clientToDest.Valid() && s.destToClient.Valid()
    requires GreetingFromBuffer(s.clientToDest).0.Success?
    ensures var (g, rest) := GreetingFromBuffer(s.clientToDest);
            var offered := HasAuthMethod(g.value, NoAuthentication);
            var (r, o) := GreetStep(version, s);
            r.clientToDest == rest && r.destInterest == s.destInterest && r.destCloses == s.destCloses
            && (g.value.socksVersion != version ==>
                  o == Completed && r == s.(clientToDest := rest).CloseClient())
            && (g.value.socksVersion == version && s.destToClient.Remaining() >= 2 ==>
                  o == Completed && r.state == SendGreetingResp && r.clientInterest == {OpWrite}
                  && r.clientCloses == s.clientCloses
                  && r.closeUponSending == (s.closeUponSending || !offered)
                  && r.destToClient.Stored() == s.destToClient.Stored() + [version, if offered then 0x00 else 0xFF])
            && (g.value.socksVersion == version && s.destToClient.Remaining() < 2 ==> o == Escaped(BufferOverflow))
  {
    var g := GreetingFromBuffer(s.clientToDest).0.value;
    SingleMethodResponse(version, if HasAuthMethod(g, NoAuthentication) then NoAuthentication else NoAcceptableMethod);
  }

  /**
   * An incomplete greeting, or one whose count byte is 0x80 or more, is not caught by
   * `greet`: the exception leaves the read handler with the bytes consumed so far skipped.
   */
  lemma GreetingFailureEscapes(version: byte, s: SessionView)
    requires s.clientToDest.Valid() && s.destToClient.Valid()
    requires GreetingFromBuffer(s.clientToDest).0.Failure?
    ensures var (r, o) := GreetStep(version, s);
            o.Escaped? && o.error in {BufferUnderflow, Runtime}
            && r == s.(clientToDest := GreetingFromBuffer(s.clientToDest).1)
  {
    GreetingFailures(s.clientToDest.Stored());
  }

  /** A complete request of another version closes the client side. */
  lemma WrongVersionRequestCloses(version: byte, proxyPort: int, s: SessionView, rv: ResolverView, encode: Encoder,
                                  key: Key, env: Environment)
    requires s.clientToDest.Valid() && s.destToClient.Valid()
    requires rv.output.Some? ==> rv.output.value.Valid()
    requires var p := RequestFromBuffer(s.clientToDest).0; p.Success? && p.value.socksVersion != version
    ensures ProcessConnectionRequestStep(version, proxyPort, s, rv, encode, key, env)
            == (s.(clientToDest := RequestFromBuffer(s.clientToDest).1).CloseClient(), rv, Completed)
  {
  }

  /**
   * BIND and UDP ASSOCIATE are answered CMD_NOT_SUPPORTED: with a four-byte local address and
   * room for the ten-byte reply, the reply carries the local address and the proxy's port,
   * close-after-send is set, the client wants only WRITE and the state is SEND_CONN_RESP.
   */
  lemma UnsupportedCommandReply(version: byte, proxyPort: int, s: SessionView, rv: ResolverView, encode: Encoder,
                                key: Key, env: Environment)
    requires s.clientToDest.Valid() && s.destToClient.Valid()
    requires rv.output.Some? ==> rv.output.value.Valid()
    requires var p := RequestFromBuffer(s.clientToDest).0;
             p.Success? && p.value.socksVersion == version && p.value.requestCommand.Some?
             && p.value.requestCommand.value != RequestCodes.EstablishStreamConnection
    requires env.localHost.Some? && |env.localHost.value| == 4 && s.destToClient.Remaining() >= 10
    ensures var (r, rv2, o) := ProcessConnectionRequestStep(version, proxyPort, s, rv, encode, key, env);
            o == Completed && rv2 == rv && r.closeUponSending && r.clientInterest == {OpWrite}
            && r.state == SendConnResp && r.destInterest == s.destInterest
            && r.destToClient.Stored()
               == s.destToClient.Stored() + [version, 0x07, 0x00, 0x01] + env.localHost.value + ShortBytes(proxyPort)
  {
    var (parsed, rest) := RequestFromBuffer(s.clientToDest);
    var reply := Reply(version, AddressTypes.Ipv4Address, env.localHost.value, proxyPort);
    ReplyLayout(version, AddressTypes.Ipv4Address, env.localHost.value, proxyPort, ResponseCodes.CmdNotSupported);
    var (s2, o) := SendResponseStep(s.(clientToDest := rest), reply, ResponseCodes.CmdNotSupported);
    assert AnswerRequestStep(version, proxyPort, s.(clientToDest := rest), rv, encode, parsed.value, key, env) == (s2, rv, o);
  }

  /**
   * A CONNECT to an IP address with a port below 32768 starts connecting: the client wants
   * nothing, the state is CONNECTING_TO_DEST, the target is recorded, and a destination key
   * wanting only CONNECT is registered.
   */
  lemma ConnectRequestOpensDestination(version: byte, proxyPort: int, s: SessionView, rv: ResolverView, encode: Encoder,
                                       key: Key, env: Environment)
    requires s.clientToDest.Valid() && s.destToClient.Valid()
    requires rv.output.Some? ==> rv.output.value.Valid()
    requires var p := RequestFromBuffer(s.clientToDest).0;
             p.Success? && p.value.socksVersion == version
             && p.value.requestCommand == Some(RequestCodes.EstablishStreamConnection)
             && p.value.addressType != AddressTypes.DomainName && p.value.port >= 0
    requires env.open == Opened
    ensures var p := RequestFromBuffer(s.clientToDest).0.value;
            var (r, rv2, o) := ProcessConnectionRequestStep(version, proxyPort, s, rv, encode, key, env);
            o == Completed && rv2 == rv && r.state == ConnectingToDest && r.clientInterest == {}
            && r.destInterest == Some({OpConnect}) && r.destAddress == Some(SocketAddress(p.address.value, p.port))
            && r.destToClient == s.destToClient
  {
  }

  /**
   * A CONNECT whose port field is 0x8000 or more reads as a negative port; the socket address
   * constructor rejects it and the request handler closes the client side.
   */
  lemma HighPortClosesClient(version: byte, proxyPort: int, s: SessionView, rv: ResolverView, encode: Encoder,
                             key: Key, env: Environment)
    requires s.clientToDest.Valid() && s.destToClient.Valid()
    requires rv.output.Some? ==> rv.output.value.Valid()
    requires var p := RequestFromBuffer(s.clientToDest).0;
             p.Success? && p.value.socksVersion == version
             && p.value.requestCommand == Some(RequestCodes.EstablishStreamConnection)
             && p.value.addressType != AddressTypes.DomainName && p.value.port < 0
    ensures ProcessConnectionRequestStep(version, proxyPort, s, rv, encode, key, env)
            == (s.(clientToDest := RequestFromBuffer(s.clientToDest).1).CloseClient(), rv, Completed)
  {
  }

  /**
   * A CONNECT to a domain the synchronous lookup cannot resolve only queues a query for the
   * client's key: the session keeps its state and interests.
   */
  lemma UnresolvedDomainQueries(version: byte, proxyPort: int, s: SessionView, rv: ResolverView, encode: Encoder,
                                key: Key, env: Environment)
    requires s.clientToDest.Valid() && s.destToClient.Valid()
    requires rv.output.Some? ==> rv.output.value.Valid()
    requires var p := RequestFromBuffer(s.clientToDest).0;
             p.Success? && p.value.socksVersion == version
             && p.value.requestCommand == Some(RequestCodes.EstablishStreamConnection)
             && p.value.addressType == AddressTypes.DomainName
    requires env.lookup.NoRecords? || env.lookup.Unparsable?
    requires encode(rv.messageId + 1, RequestFromBuffer(s.clientToDest).0.value.domain.value + [0x2E]).Success?
    ensures var (r, rv2, o) := ProcessConnectionRequestStep(version, proxyPort, s, rv, encode, key, env);
            o == Completed && r == s.(clientToDest := RequestFromBuffer(s.clientToDest).1)
            && rv2.messageId == rv.messageId + 1 && rv2.pending == rv.pending[rv.messageId + 1 := key]
            && rv2.dnsInterest == {OpRead, OpWrite}
  {
  }

  /**
   * A CONNECT to a domain whose synchronous lookup gets no answer at all: `resolve` dereferences
   * the missing records and the `NullPointerException` escapes request handling, the request
   * consumed and nothing else changed.
   */
  lemma UnansweredLookupEscapes(version: byte, proxyPort: int, s: SessionView, rv: ResolverView, encode: Encoder,
                                key: Key, env: Environment)
    requires s.clientToDest.Valid() && s.destToClient.Valid()
    requires rv.output.Some? ==> rv.output.value.Valid()
    requires var p := RequestFromBuffer(s.clientToDest).0;
             p.Success? && p.value.socksVersion == version
             && p.value.requestCommand == Some(RequestCodes.EstablishStreamConnection)
             && p.value.addressType == AddressTypes.DomainName
    requires env.lookup.NoAnswer?
    ensures ProcessConnectionRequestStep(version, proxyPort, s, rv, encode, key, env)
            == (s.(clientToDest := RequestFromBuffer(s.clientToDest).1), rv, Escaped(NullPointer))
  {
  }

  /** `greet` never touches the destination key. */
  lemma GreetKeepsDestination(version: byte, s: SessionView)
    requires s.clientToDest.Valid() && s.destToClient.Valid()
    ensures GreetStep(version, s).0.destInterest == s.destInterest
  {
  }

  /** Handling a request registers a destination key only together with CONNECTING_TO_DEST. */
  lemma RequestKeepsSettled(version: byte, proxyPort: int, s: SessionView, rv: ResolverView, encode: Encoder,
                            key: Key, env: Environment)
    requires s.clientToDest.Valid() && s.destToClient.Valid()
    requires rv.output.Some? ==> rv.output.value.Valid()
    requires s.destInterest.None?
    ensures Settled(ProcessConnectionRequestStep(version, proxyPort, s, rv, encode, key, env).0)
  {
    var (parsed, rest) := RequestFromBuffer(s.clientToDest);
    if parsed.Success? && parsed.value.socksVersion == version {
      AnswerKeepsSettled(version, proxyPort, s.(clientToDest := rest), rv, encode, parsed.value, key, env);
    }
  }

  /** Answering a request registers a destination key only together with CONNECTING_TO_DEST. */
  lemma AnswerKeepsSettled(version: byte, proxyPort: int, s: SessionView, rv: ResolverView, encode: Encoder,
                           request: ConnectionMsg, key: Key, env: Environment)
    requires s.destToClient.Valid()
    requires rv.output.Some? ==> rv.output.value.Valid()
    requires HasTarget(request) && s.destInterest.None?
    ensures var r := AnswerRequestStep(version, proxyPort, s, rv, encode, request, key, env).0;
            r.destInterest.Some? ==> r.state == ConnectingToDest
  {
  }

  /**
   * A client read keeps the protocol invariant: the only new destination key comes with
   * CONNECTING_TO_DEST, and the request states are left only while there is none.
   */
  lemma ClientReadKeepsSettled(version: byte, proxyPort: int, s: SessionView, rv: ResolverView, encode: Encoder,
                               key: Key, input: ReadResult, env: Environment)
    requires s.clientToDest.Valid() && s.destToClient.Valid()
    requires rv.output.Some? ==> rv.output.value.Valid()
    requires Settled(s)
    ensures Settled(ReadFromClientStep(version, proxyPort, s, rv, encode, key, input, env).0)
  {
    if s.state != Closed && input.Offered? {
      var (n, filled) := ReadInto(s.clientToDest, input.bytes);
      var s1 := s.(clientToDest := filled);
      if s.state == RecvInitGreeting {
        GreetKeepsDestination(version, s1);
      } else if s.state == RecvConnReq {
        RequestKeepsSettled(version, proxyPort, s1, rv, encode, key, env);
      }
    }
  }

  /** A destination read changes neither the state nor whether there is a destination key. */
  lemma DestinationReadKeepsSettled(s: SessionView, input: ReadResult)
    requires s.destToClient.Valid() && Settled(s)
    ensures Settled(ReadFromDestinationStep(s, input))
  {
  }

  /** The reader and the session and resolver it works on own disjoint objects. */
  ghost predicate Separate(s: Session, resolver: DnsResolver)
    reads s, resolver
  {
    s.Repr !! resolver.Repr
  }

  /**
   * A stream key as the proxy registers it, with the resolver's objects apart from its
   * session's.
   */
  ghost predicate AttachedApart(key: Key, resolver: DnsResolver)
    reads key, resolver, SessionOf(key), SessionFootprint(key)
  {
    Attached(key) && Separate(SessionOf(key), resolver)
  }

  class ChannelReader {
    const socksVersion: byte
    const proxyPort: int
    const dnsResolver: DnsResolver

    /** `new ChannelReader(...)`: the SOCKS version, the proxy port and the shared resolver. */
    constructor (socksVersion: byte, proxyPort: int, dnsResolver: DnsResolver)
      ensures this.socksVersion == socksVersion && this.proxyPort == proxyPort && this.dnsResolver == dnsResolver
    {
      this.socksVersion := socksVersion;
      this.proxyPort := proxyPort;
      this.dnsResolver := dnsResolver;
    }

    /** Queues bytes for the client. */
    method QueueForClient(s: Session, bytes: seq<byte>) returns (r: Outcome)
      requires s.Valid()
      modifies s.destToClient, s.destToClient.data
      ensures s.Valid() && (s.View(), r) == Queue(old(s.View()), bytes)
    {
      r := s.destToClient.Put(bytes);
    }

    /** `greet`: an `IllegalArgumentException` from the reply closes the client side. */
    method Greet(s: Session) returns (r: Outcome)
      requires s.Valid()
      modifies s.Repr
      ensures s.Valid() && s.Repr == old(s.Repr) && s.destKey == old(s.destKey)
      ensures (s.View(), r) == GreetStep(socksVersion, old(s.View()))
    {
      r := GreetOnce(s);
      if r == Escaped(IllegalArgument) {
        s.CloseClientSide();
        r := Completed;
      }
    }

    /** `greet` up to the handler that catches `IllegalArgumentException`. */
    method GreetOnce(s: Session) returns (r: Outcome)
      requires s.Valid()
      modifies s.Repr
      ensures s.Valid() && s.Repr == old(s.Repr) && s.destKey == old(s.destKey)
      ensures (s.View(), r) == GreetBody(socksVersion, old(s.View()))
    {
      var greeting := ReceiveGreeting(s);
      if greeting.Failure? {
        return Escaped(greeting.error);
      }
      r := AnswerGreeting(s, greeting.value);
    }

    /** The greeting read from the bytes the client has sent, and consumed when it parses. */
    method ReceiveGreeting(s: Session) returns (greeting: Result<GreetingMessage, JavaException>)
      requires s.Valid()
      modifies s.clientToDest, s.clientToDest.data
      ensures s.Valid() && s.Repr == old(s.Repr) && s.destKey == old(s.destKey)
      ensures (greeting, s.clientToDest.View()) == GreetingFromBuffer(old(s.clientToDest.View()))
      ensures s.View() == old(s.View()).(clientToDest := s.clientToDest.View())
    {
      greeting := ReadGreeting(s.clientToDest);
      s.ClientToDestChanged();
    }

    /** `greet` once a greeting is parsed. */
    method AnswerGreeting(s: Session, greeting: GreetingMessage) returns (r: Outcome)
      requires s.Valid()
      modifies s, s.clientKey, s.destToClient, s.destToClient.data
      ensures s.Valid() && s.Repr == old(s.Repr) && s.destKey == old(s.destKey)
      ensures (s.View(), r) == AnswerGreetingStep(socksVersion, old(s.View()), greeting)
    {
      if greeting.socksVersion != socksVersion {
        s.CloseClientSide();
        return Completed;
      }
      var chosen;
      if HasAuthMethod(greeting, NoAuthentication) {
        chosen := NoAuthentication;
      } else {
        chosen := NoAcceptableMethod;
        s.closeUponSending := true;
      }
      SingleMethodResponse(socksVersion, chosen);
      r := QueueForClient(s, [socksVersion, AuthValue(chosen)]);
      if r != Completed {
        return;
      }
      s.clientKey.interest := {OpWrite};
      s.state := SendGreetingResp;
    }

    /** `sendResponse`. */
    method SendResponse(s: Session, response: ConnectionMsg, code: ResponseCodes.ResponseCode) returns (r: Outcome)
      requires s.Valid()
      modifies s, s.clientKey, s.destToClient, s.destToClient.data
      ensures s.Valid() && s.Repr == old(s.Repr) && s.destKey == old(s.destKey)
      ensures (s.View(), r) == SendResponseStep(old(s.View()), response, code)
    {
      s.closeUponSending := true;
      s.clientKey.interest := {OpWrite};
      s.state := SendConnResp;
      var bytes := ResponseBytes(response, code);
      if bytes.Failure? {
        return Escaped(bytes.error);
      }
      r := QueueForClient(s, bytes.value);
    }

    /** The socket address constructor's port check, then `connect`. */
    method ConnectTo(s: Session, address: seq<byte>, port: int, open: OpenResult) returns (r: Outcome)
      requires s.Valid()
      modifies s, s.clientKey
      ensures s.Valid() && fresh(s.Repr - old(s.Repr))
      ensures (s.View(), r) == ConnectToStep(old(s.View()), address, port, open)
    {
      if port < 0 || port > 65535 {
        return Escaped(IllegalArgument);
      }
      r := s.Connect(SocketAddress(address, port), open);
    }

    /** `createConnection`. */
    method CreateConnection(s: Session, request: ConnectionMsg, env: Environment) returns (r: Outcome)
      requires s.Valid() && dnsResolver.Valid() && Separate(s, dnsResolver)
      requires HasTarget(request)
      modifies s, s.clientKey, dnsResolver.Repr
      ensures s.Valid() && dnsResolver.Valid() && Separate(s, dnsResolver)
      ensures fresh(s.Repr - old(s.Repr)) && fresh(dnsResolver.Repr - old(dnsResolver.Repr))
      ensures (s.View(), dnsResolver.View(), r)
              == CreateConnectionStep(old(s.View()), old(dnsResolver.View()), dnsResolver.encode, request, s.clientKey, env)
    {
      if request.addressType == AddressTypes.DomainName && env.lookup.NoAnswer? {
        r := Escaped(NullPointer);
        return;
      }
      if request.addressType == AddressTypes.DomainName && !env.lookup.Found? {
        r := dnsResolver.MakeDnsRequest(request.domain.value, s.clientKey);
        return;
      }
      var address := if request.addressType == AddressTypes.DomainName then env.lookup.address else request.address.value;
      r := ConnectTo(s, address, request.port, env.open);
    }

    /** The body of `processConnectionRequest`, before its `catch`. */
    method HandleConnectionRequest(s: Session, env: Environment) returns (r: Outcome)
      requires s.Valid() && dnsResolver.Valid() && Separate(s, dnsResolver)
      modifies s.Repr, dnsResolver.Repr
      ensures s.Valid() && dnsResolver.Valid() && Separate(s, dnsResolver)
      ensures fresh(s.Repr - old(s.Repr)) && fresh(dnsResolver.Repr - old(dnsResolver.Repr))
      ensures (s.View(), dnsResolver.View(), r)
              == ProcessConnectionRequestBody(socksVersion, proxyPort, old(s.View()), old(dnsResolver.View()),
                                              dnsResolver.encode, s.clientKey, env)
    {
      ghost var v := s.View();
      ghost var rv := dnsResolver.View();
      var request := ReadConnectionMsg(s.clientToDest);
      ghost var v1 := v.(clientToDest := s.clientToDest.View());
      assert RequestFromBuffer(v.clientToDest) == (request, v1.clientToDest);
      assert s.Valid() && s.View() == v1 && dnsResolver.View() == rv;
      r := RequestRead(s, request, env);
    }

    /** `processConnectionRequest` once the request constructor returned `request`. */
    method RequestRead(s: Session, request: Result<ConnectionMsg, JavaException>, env: Environment) returns (r: Outcome)
      requires s.Valid() && dnsResolver.Valid() && Separate(s, dnsResolver)
      requires request.Success? ==> HasTarget(request.value)
      modifies s, s.clientKey, s.destToClient, s.destToClient.data, dnsResolver.Repr
      ensures s.Valid() && dnsResolver.Valid() && Separate(s, dnsResolver)
      ensures fresh(s.Repr - old(s.Repr)) && fresh(dnsResolver.Repr - old(dnsResolver.Repr))
      ensures (s.View(), dnsResolver.View(), r)
              == RequestReadStep(socksVersion, proxyPort, old(s.View()), old(dnsResolver.View()),
                                 dnsResolver.encode, request, s.clientKey, env)
    {
      if request.Failure? {
        return Escaped(request.error);
      }
      if request.value.socksVersion != socksVersion {
        s.CloseClientSide();
        return Completed;
      }
      r := AnswerRequest(s, request.value, env);
    }

    /** The part of `processConnectionRequest` after a request of the right version. */
    method AnswerRequest(s: Session, request: ConnectionMsg, env: Environment) returns (r: Outcome)
      requires s.Valid() && dnsResolver.Valid() && Separate(s, dnsResolver)
      requires HasTarget(request)
      modifies s, s.clientKey, s.destToClient, s.destToClient.data, dnsResolver.Repr
      ensures s.Valid() && dnsResolver.Valid() && Separate(s, dnsResolver)
      ensures fresh(s.Repr - old(s.Repr)) && fresh(dnsResolver.Repr - old(dnsResolver.Repr))
      ensures (s.View(), dnsResolver.View(), r)
              == AnswerRequestStep(socksVersion, proxyPort, old(s.View()), old(dnsResolver.View()),
                                   dnsResolver.encode, request, s.clientKey, env)
    {
      var command := GetRequestCommand(request);
      if command.Failure? {
        return Escaped(command.error);
      }
      if command.value == RequestCodes.EstablishStreamConnection {
        r := CreateConnection(s, request, env);
        return;
      }
      if env.localHost.None? {
        return Escaped(IO);
      }
      r := SendResponse(s, Reply(socksVersion, AddressTypes.Ipv4Address, env.localHost.value, proxyPort),
                        ResponseCodes.CmdNotSupported);
    }

    /** `processConnectionRequest`. */
    method ProcessConnectionRequest(s: Session, env: Environment) returns (r: Outcome)
      requires s.Valid() && dnsResolver.Valid() && Separate(s, dnsResolver)
      modifies s.Repr, dnsResolver.Repr
      ensures s.Valid() && dnsResolver.Valid() && Separate(s, dnsResolver)
      ensures fresh(s.Repr - old(s.Repr)) && fresh(dnsResolver.Repr - old(dnsResolver.Repr))
      ensures (s.View(), dnsResolver.View(), r)
              == ProcessConnectionRequestStep(socksVersion, proxyPort, old(s.View()), old(dnsResolver.View()),
                                              dnsResolver.encode, s.clientKey, env)
    {
      r := HandleConnectionRequest(s, env);
      if r == Escaped(IllegalArgument) {
        s.CloseClientSide();
        r := Completed;
      }
    }

    /** `processReadState`. */
    method ProcessReadState(read: bool, s: Session, env: Environment) returns (r: Outcome)
      requires s.Valid() && dnsResolver.Valid() && Separate(s, dnsResolver)
      modifies s.Repr, dnsResolver.Repr
      ensures s.Valid() && dnsResolver.Valid() && Separate(s, dnsResolver)
      ensures old(s.state) != RecvConnReq ==> s.destKey == old(s.destKey)
      ensures fresh(s.Repr - old(s.Repr)) && fresh(dnsResolver.Repr - old(dnsResolver.Repr))
      ensures (s.View(), dnsResolver.View(), r)
              == ProcessReadStateStep(socksVersion, proxyPort, read, old(s.View()), old(dnsResolver.View()),
                                      dnsResolver.encode, s.clientKey, env)
    {
      match s.state
      case RecvInitGreeting =>
        r := Greet(s);
      case RecvConnReq =>
        r := ProcessConnectionRequest(s, env);
      case Active =>
        r := ActiveRead(s, read);
      case _ =>
        r := Completed;
    }

    /** `processReadState` in ACTIVE. */
    method ActiveRead(s: Session, read: bool) returns (r: Outcome)
      requires s.Valid()
      modifies s.clientKey, s.destKey
      ensures s.Valid() && (s.View(), r) == ActiveReadStep(old(s.View()), read)
    {
      if s.clientToDest.Remaining() == 0 {
        s.clientKey.interest := s.clientKey.interest - {OpRead};
      }
      if !read {
        return Completed;
      }
      if s.destKey == null {
        return Escaped(NullPointer);
      }
      s.destKey.interest := s.destKey.interest + {OpWrite};
      r := Completed;
    }

    /** `readFromClient`, the channel offering `input`. */
    method ReadFromClient(s: Session, input: ReadResult, env: Environment) returns (r: Outcome)
      requires s.Valid() && dnsResolver.Valid() && Separate(s, dnsResolver)
      modifies s.Repr, dnsResolver.Repr
      ensures s.Valid() && dnsResolver.Valid() && Separate(s, dnsResolver)
      ensures old(s.state) != RecvConnReq ==> s.destKey == old(s.destKey)
      ensures fresh(s.Repr - old(s.Repr)) && fresh(dnsResolver.Repr - old(dnsResolver.Repr))
      ensures (s.View(), dnsResolver.View(), r)
              == ReadFromClientStep(socksVersion, proxyPort, old(s.View()), old(dnsResolver.View()),
                                    dnsResolver.encode, s.clientKey, input, env)
    {
      if s.state == Closed {
        s.CloseClientSide();
        return Completed;
      }
      match input
      case ReadFailed =>
        r := Completed;
      case Eof =>
        s.CloseClientSide();
        if s.destKey != null {
          s.destKey.interest := s.destKey.interest - {OpRead};
        }
        r := Completed;
      case Offered(bytes) =>
        r := ReadOffered(s, bytes, env);
    }

    /** The branch of `readFromClient` that reads `bytes` and processes the state. */
    method ReadOffered(s: Session, bytes: seq<byte>, env: Environment) returns (r: Outcome)
      requires s.Valid() && dnsResolver.Valid() && Separate(s, dnsResolver)
      modifies s.Repr, dnsResolver.Repr
      ensures s.Valid() && dnsResolver.Valid() && Separate(s, dnsResolver)
      ensures old(s.state) != RecvConnReq ==> s.destKey == old(s.destKey)
      ensures fresh(s.Repr - old(s.Repr)) && fresh(dnsResolver.Repr - old(dnsResolver.Repr))
      ensures (s.View(), dnsResolver.View(), r)
              == ReadOfferedStep(socksVersion, proxyPort, old(s.View()), old(dnsResolver.View()),
                                 dnsResolver.encode, s.clientKey, bytes, env)
    {
      ghost var v := s.View();
      var n := s.clientToDest.ReceiveFrom(bytes);
      assert s.Valid() && dnsResolver.View() == old(dnsResolver.View());
      assert s.View() == v.(clientToDest := ReadInto(v.clientToDest, bytes).1);
      r := ProcessReadState(n > 0, s, env);
      r := IgnoreIo(r);
    }

    /** `readFromDestination`, the channel offering `input`. */
    method ReadFromDestination(s: Session, input: ReadResult)
      requires s.Valid()
      modifies s.Repr
      ensures s.Valid() && s.Repr == old(s.Repr) && s.destKey == old(s.destKey)
      ensures s.View() == ReadFromDestinationStep(old(s.View()), input)
    {
      if s.state == Closed {
        s.CloseDestSide();
        return;
      }
      match input
      case ReadFailed =>
      case Eof =>
        s.CloseDestSide();
        s.clientKey.interest := s.clientKey.interest - {OpRead};
      case Offered(bytes) =>
        var n := s.destToClient.ReceiveFrom(bytes);
        if s.destToClient.Remaining() == 0 && s.destKey != null {
          s.destKey.interest := s.destKey.interest - {OpRead};
        }
        if n > 0 {
          s.clientKey.interest := s.clientKey.interest + {OpWrite};
        }
    }

    /**
     * `read`: the key's channel is cast to `SocketChannel` before anything else, so the
     * resolver's datagram key never reaches `readDNSMessage`; a client key reads from the
     * client, a destination key from the destination.
     */
    method Read(key: Key, input: ReadResult, env: Environment) returns (r: Outcome)
      requires dnsResolver.Valid()
      requires key.channel == SocketChannel ==> AttachedApart(key, dnsResolver)
      modifies if key.channel == SocketChannel then SessionFootprint(key) + dnsResolver.Repr else {}
      ensures dnsResolver.Valid()
      ensures key.channel == SocketChannel ==> AttachedApart(key, dnsResolver) && SessionOf(key) == old(SessionOf(key))
      ensures fresh(SessionFootprint(key) - old(SessionFootprint(key))) && fresh(dnsResolver.Repr - old(dnsResolver.Repr))
      ensures key.channel == SocketChannel && old(SessionOf(key).state) != RecvConnReq ==>
                SessionOf(key).destKey == old(SessionOf(key).destKey)
      ensures key.channel != SocketChannel ==> r == Escaped(ClassCast) && dnsResolver.View() == old(dnsResolver.View())
      ensures key.channel == SocketChannel ==>
                var s := old(SessionOf(key));
                s.Valid() && Separate(s, dnsResolver)
                && if old(key.attachment.value.IsClient())
                   then (s.View(), dnsResolver.View(), r)
                        == ReadFromClientStep(socksVersion, proxyPort, old(s.View()), old(dnsResolver.View()),
                                              dnsResolver.encode, key, input, env)
                   else (s.View(), dnsResolver.View(), r)
                        == (ReadFromDestinationStep(old(s.View()), input), old(dnsResolver.View()), Completed)
    {
      if key.channel != SocketChannel {
        return Escaped(ClassCast);
      }
      var attachment := key.attachment.value;
      var s := attachment.GetSocksClient();
      if attachment.IsClient() {
        r := ReadFromClient(s, input, env);
      } else {
        assert attachment.IsDestination();
        ReadFromDestination(s, input);
        r := Completed;
      }
    }
  }
}
