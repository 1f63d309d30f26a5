/**
 * `Proxy`: the selector loop's dispatch of ready keys, accepting clients, and completing the
 * connection to a destination.
 */
module Proxies {
  import opened Wrappers
  import opened JavaTypes
  import opened Buffers
  import opened ChannelAttachments
  import opened SocksClients
  import opened DnsResolvers
  import opened ConnectionMessages
  import opened ChannelReaders
  import opened ChannelWriters
  import AddressTypes
  import ResponseCodes

  /** The SOCKS version the proxy speaks. */
  const SocksVersion: byte := 0x05

  /** The upstream DNS server the resolver queries: 8.8.8.8, port 53. */
  const DnsServer: SocketAddress := SocketAddress([8, 8, 8, 8], 53)

  /** What `finishConnect` does: connected, not yet (`false`), or an `IOException`. */
  datatype FinishConnect = Connected | NotYetConnected | ConnectFailed

  /**
   * `Proxy.connect` on a destination key. The reply is built first from the recorded
   * destination, typed IPv4 whatever the request's type (no destination throws
   * `NullPointerException`). When `finishConnect` is false a `RuntimeException` escapes, the
   * handler catching only `IOException`. On success the destination wants nothing, the client
   * only WRITE, the state is SEND_CONN_RESP, and then the REQUEST_GRANTED reply is queued. On an
   * `IOException` the HOST_UNREACHABLE reply is queued first, then close-after-send is set,
   * the client wants only WRITE and the state is SEND_CONN_RESP.
   */
  function FinishConnectStep(s: SessionView, result: FinishConnect): (r: (SessionView, Outcome))
    requires s.destToClient.Valid()
    ensures r.0.clientToDest == s.clientToDest && r.0.destToClient.Valid()
  {
    match s.destAddress
    case None => (s, Escaped(NullPointer))
    case Some(target) =>
      var reply := Reply(SocksVersion, AddressTypes.Ipv4Address, target.address, target.port);
      match result
      case NotYetConnected => (s, Escaped(Runtime))
      case Connected => GrantedStep(s, reply)
      case ConnectFailed => RefusedStep(s, reply)
  }

  /**
   * A completed connection: the destination key wants nothing, the client wants WRITE, the
   * session moves to SEND_CONN_RESP and the granted reply is queued.
   */
  function GrantedStep(s: SessionView, reply: ConnectionMsg): (r: (SessionView, Outcome))
    requires s.destToClient.Valid()
    ensures r.0.clientToDest == s.clientToDest && r.0.destToClient.Valid()
  {
    var s1 := s.(destInterest := Some({}), clientInterest := {OpWrite}, state := SendConnResp);
    match ResponseBytes(reply, ResponseCodes.RequestGranted)
    case Failure(e) => (s1, Escaped(e))
    case Success(bytes) => Queue(s1, bytes)
  }

  /**
   * A refused connection: the host-unreachable reply is queued, then the session closes once
   * it is sent, the client wants WRITE and the session moves to SEND_CONN_RESP.
   */
  function RefusedStep(s: SessionView, reply: ConnectionMsg): (r: (SessionView, Outcome))
    requires s.destToClient.Valid()
    ensures r.0.clientToDest == s.clientToDest && r.0.destToClient.Valid()
  {
    match ResponseBytes(reply, ResponseCodes.HostUnreachable)
    case Failure(e) => (s, Escaped(e))
    case Success(bytes) =>
      var (s1, o) := Queue(s, bytes);
      if o != Completed then (s1, o)
      else (s1.(closeUponSending := true, clientInterest := {OpWrite}, state := SendConnResp), Completed)
  }

  /** What the platform gives one selected key's handlers: one input per socket operation. */
  datatype KeyInputs = KeyInputs(pending: bool, finish: FinishConnect, read: ReadResult, env: Environment, write: WriteResult)

  /**
   * The handlers `processSelectedKeys` runs for a stream key ready for `ready`, in the order
   * connect, read, write, each only while nothing has escaped.
   */
  function StreamKeyStep(isClient: bool, ready: set<Interest>, s: SessionView, rv: ResolverView, encode: Encoder,
                         key: Key, proxyPort: int, inputs: KeyInputs): (r: (SessionView, ResolverView, Outcome))
    requires s.clientToDest.Valid() && s.destToClient.Valid()
    requires rv.output.Some? ==> rv.output.value.Valid()
  {
    var (s1, o1) := if OpConnect in ready then FinishConnectStep(s, inputs.finish) else (s, Completed);
    if o1.Escaped? then (s1, rv, o1)
    else
      var (s2, rv2, o2) := ReadStep(isClient, ready, s1, rv, encode, key, proxyPort, inputs);
      if o2.Escaped? then (s2, rv2, o2)
      else
        var (s3, o3) := WriteStep(isClient, ready, s2, inputs.write);
        (s3, rv2, o3)
  }

  /**
   * What a stream key's handlers start from when its turn comes in `processSelectedKeys`: the
   * role its attachment gives it, its session's view and the resolver's view.
   */
  datatype StreamStart = StreamStart(isClient: bool, session: SessionView, resolver: ResolverView)
  {
    predicate Valid()
    {
      session.clientToDest.Valid() && session.destToClient.Valid()
      && (resolver.output.Some? ==> resolver.output.value.Valid())
    }
  }

  /**
   * The outcome of one selected key's handlers, for the readiness `ready` when the key is
   * valid and none otherwise: ACCEPT on the server key throws `NullPointerException` when no
   * connection is pending; any readiness of the resolver's datagram key ends in the
   * `ClassCastException` of the read or write handler's cast; a stream key gives what
   * `StreamKeyStep` gives from `start`.
   */
  function KeyOutcome(key: Key, ready: set<Interest>, inputs: KeyInputs, start: Option<StreamStart>,
                      encode: Encoder, proxyPort: int): Outcome
    requires key.channel == SocketChannel ==> start.Some? && start.value.Valid()
  {
    var handled := if key.valid then ready else {};
    match key.channel
    case ServerSocketChannel => if OpAccept in handled && !inputs.pending then Escaped(NullPointer) else Completed
    case DatagramChannel => if handled == {} then Completed else Escaped(ClassCast)
    case SocketChannel =>
      var st := start.value;
      StreamKeyStep(st.isClient, handled, st.session, st.resolver, encode, key, proxyPort, inputs).2
  }

  /** The read handler of a stream key, when it is ready for READ. */
  function ReadStep(isClient: bool, ready: set<Interest>, s: SessionView, rv: ResolverView, encode: Encoder,
                    key: Key, proxyPort: int, inputs: KeyInputs): (r: (SessionView, ResolverView, Outcome))
    requires s.clientToDest.Valid() && s.destToClient.Valid()
    requires rv.output.Some? ==> rv.output.value.Valid()
    ensures r.0.clientToDest.Valid() && r.0.destToClient.Valid()
    ensures OpRead !in ready ==> r == (s, rv, Completed)
  {
    if OpRead !in ready then (s, rv, Completed)
    else if isClient then ReadFromClientStep(SocksVersion, proxyPort, s, rv, encode, key, inputs.read, inputs.env)
    else (ReadFromDestinationStep(s, inputs.read), rv, Completed)
  }

  /** The write handler of a stream key, when it is ready for WRITE. */
  function WriteStep(isClient: bool, ready: set<Interest>, s: SessionView, input: WriteResult): (r: (SessionView, Outcome))
    requires s.clientToDest.Valid() && s.destToClient.Valid()
    ensures OpWrite !in ready ==> r == (s, Completed)
  {
    if OpWrite !in ready then (s, Completed)
    else if isClient then WriteToClientStep(s, input)
    else WriteToDestinationStep(s, input)
  }

  /**
   * A completed connection to an IPv4 target: the destination key wants nothing, the client only
   * WRITE, the state is SEND_CONN_RESP, and the REQUEST_GRANTED reply naming the target is
   * queued; with less than ten bytes of room the changes are made and the put overflows.
   */
  lemma ConnectGranted(s: SessionView, t: SocketAddress)
    requires s.destToClient.Valid() && s.destAddress == Some(t) && |t.address| == 4
    ensures var (r, o) := FinishConnectStep(s, Connected);
            var s1 := s.(destInterest := Some({}), clientInterest := {OpWrite}, state := SendConnResp);
            (s.destToClient.Remaining() >= 10 ==>
               o == Completed && r == s1.(destToClient := r.destToClient)
               && r.destToClient.Stored() == s.destToClient.Stored() + [0x05, 0x00, 0x00, 0x01] + t.address + ShortBytes(t.port))
            && (s.destToClient.Remaining() < 10 ==> (r, o) == (s1, Escaped(BufferOverflow)))
  {
    ConnectReply(t, ResponseCodes.RequestGranted);
  }

  /**
   * A refused connection to an IPv4 target: the HOST_UNREACHABLE reply naming the target is
   * queued, close-after-send is set, the client wants only WRITE and the state is SEND_CONN_RESP;
   * the destination key is left alone. With less than ten bytes of room the put overflows
   * before anything changes.
   */
  lemma ConnectRefused(s: SessionView, t: SocketAddress)
    requires s.destToClient.Valid() && s.destAddress == Some(t) && |t.address| == 4
    ensures var (r, o) := FinishConnectStep(s, ConnectFailed);
            (s.destToClient.Remaining() >= 10 ==>
               o == Completed
               && r == s.(closeUponSending := true, clientInterest := {OpWrite}, state := SendConnResp,
                          destToClient := r.destToClient)
               && r.destToClient.Stored() == s.destToClient.Stored() + [0x05, 0x04, 0x00, 0x01] + t.address + ShortBytes(t.port))
            && (s.destToClient.Remaining() < 10 ==> (r, o) == (s, Escaped(BufferOverflow)))
  {
    ConnectReply(t, ResponseCodes.HostUnreachable);
  }

  /**
   * A connection not finished yet makes `connect` throw a `RuntimeException` that its
   * `catch (IOException)` does not take, with nothing changed; a session with no recorded
   * destination throws `NullPointerException` whatever `finishConnect` would do.
   */
  lemma ConnectNotYet(s: SessionView, result: FinishConnect)
    requires s.destToClient.Valid()
    ensures s.destAddress.Some? ==> FinishConnectStep(s, NotYetConnected) == (s, Escaped(Runtime))
    ensures s.destAddress.None? ==> FinishConnectStep(s, result) == (s, Escaped(NullPointer))
  {
  }

  /**
   * The reply is typed IPv4 whatever the target, so a 16-byte IPv6 target overflows the
   * reply's buffer: on success after the interests and the state have changed, on refusal
   * before anything has.
   */
  lemma ConnectIpv6Overflows(s: SessionView, t: SocketAddress)
    requires s.destToClient.Valid() && s.destAddress == Some(t) && |t.address| == 16
    ensures FinishConnectStep(s, Connected)
            == (s.(destInterest := Some({}), clientInterest := {OpWrite}, state := SendConnResp), Escaped(BufferOverflow))
    ensures FinishConnectStep(s, ConnectFailed) == (s, Escaped(BufferOverflow))
  {
    AddressTypes.SizeOfIpTypes(None);
    ReplyAddressLengthMismatch(SocksVersion, AddressTypes.Ipv4Address, t.address, t.port, ResponseCodes.RequestGranted);
    ReplyAddressLengthMismatch(SocksVersion, AddressTypes.Ipv4Address, t.address, t.port, ResponseCodes.HostUnreachable);
  }

  /** The reply `connect` builds for an IPv4 target, with status `code`, is ten bytes naming it. */
  lemma ConnectReply(t: SocketAddress, code: ResponseCodes.ResponseCode)
    requires |t.address| == 4
    ensures ResponseBytes(Reply(SocksVersion, AddressTypes.Ipv4Address, t.address, t.port), code)
            == Success([0x05, ResponseCodes.Value(code), 0x00, 0x01] + t.address + ShortBytes(t.port))
  {
    AddressTypes.SizeOfIpTypes(None);
    AddressTypes.ValuesMatchRfc1928();
    ReplyLayout(SocksVersion, AddressTypes.Ipv4Address, t.address, t.port, code);
  }

  /** Completing a connection moves to SEND_CONN_RESP or changes nothing. */
  lemma FinishConnectKeepsSettled(s: SessionView, result: FinishConnect)
    requires s.destToClient.Valid() && Settled(s)
    ensures Settled(FinishConnectStep(s, result).0)
  {
  }

  /** The read handler of a stream key keeps the protocol invariant. */
  lemma ReadStepKeepsSettled(isClient: bool, ready: set<Interest>, s: SessionView, rv: ResolverView, encode: Encoder,
                             key: Key, proxyPort: int, inputs: KeyInputs)
    requires s.clientToDest.Valid() && s.destToClient.Valid()
    requires rv.output.Some? ==> rv.output.value.Valid()
    requires Settled(s)
    ensures Settled(ReadStep(isClient, ready, s, rv, encode, key, proxyPort, inputs).0)
  {
    if OpRead in ready {
      if isClient {
        ClientReadKeepsSettled(SocksVersion, proxyPort, s, rv, encode, key, inputs.read, inputs.env);
      } else {
        DestinationReadKeepsSettled(s, inputs.read);
      }
    }
  }

  /** The write handler of a stream key keeps the protocol invariant. */
  lemma WriteStepKeepsSettled(isClient: bool, ready: set<Interest>, s: SessionView, input: WriteResult)
    requires s.clientToDest.Valid() && s.destToClient.Valid()
    requires Settled(s)
    ensures Settled(WriteStep(isClient, ready, s, input).0)
  {
    if OpWrite in ready {
      if isClient {
        ClientWriteKeepsSettled(s, input);
      } else {
        DestinationWriteKeepsSettled(s, input);
      }
    }
  }

  /** The handlers of one stream key together keep the protocol invariant. */
  lemma StreamKeyKeepsSettled(isClient: bool, ready: set<Interest>, s: SessionView, rv: ResolverView, encode: Encoder,
                              key: Key, proxyPort: int, inputs: KeyInputs)
    requires s.clientToDest.Valid() && s.destToClient.Valid()
    requires rv.output.Some? ==> rv.output.value.Valid()
    requires Settled(s)
    ensures Settled(StreamKeyStep(isClient, ready, s, rv, encode, key, proxyPort, inputs).0)
  {
    var connected := if OpConnect in ready then FinishConnectStep(s, inputs.finish) else (s, Completed);
    FinishConnectKeepsSettled(s, inputs.finish);
    assert Settled(connected.0);
    if connected.1.Completed? {
      var s1 := connected.0;
      ReadStepKeepsSettled(isClient, ready, s1, rv, encode, key, proxyPort, inputs);
      var read := ReadStep(isClient, ready, s1, rv, encode, key, proxyPort, inputs);
      if read.2.Completed? {
        WriteStepKeepsSettled(isClient, ready, read.0, inputs.write);
      }
    }
  }

  class Proxy {
    const proxyPort: int
    const bufferSize: nat
    const dnsResolver: DnsResolver
    const reader: ChannelReader
    const writer: ChannelWriter
    const serverKey: Key

    /**
     * The constructor and the set-up in `run`: a resolver for the upstream server, the reader
     * and writer sharing it, and the server key registered for ACCEPT.
     */
    constructor (proxyPort: int, bufferSize: nat, encode: Encoder)
      ensures this.proxyPort == proxyPort && this.bufferSize == bufferSize
      ensures Valid() && fresh(dnsResolver.Repr) && fresh(serverKey)
      ensures dnsResolver.View() == Initial() && dnsResolver.upstream == DnsServer
      ensures serverKey.channel == ServerSocketChannel && serverKey.interest == {OpAccept} && serverKey.valid
    {
      this.proxyPort := proxyPort;
      this.bufferSize := bufferSize;
      var resolver := new DnsResolver(DnsServer, encode);
      dnsResolver := resolver;
      reader := new ChannelReader(SocksVersion, proxyPort, resolver);
      writer := new ChannelWriter(resolver);
      serverKey := new Key.Register(ServerSocketChannel, {OpAccept});
    }

    /** The reader and writer share the proxy's resolver and version, and the resolver is valid. */
    ghost predicate Valid()
      reads this, reader, writer, dnsResolver, dnsResolver.Repr
    {
      reader.dnsResolver == dnsResolver && writer.dnsResolver == dnsResolver
      && reader.socksVersion == SocksVersion && reader.proxyPort == proxyPort
      && dnsResolver.Valid()
    }

    /** `connect` on the session of a destination key. */
    method FinishConnection(s: Session, result: FinishConnect) returns (r: Outcome)
      requires s.Valid() && s.destKey != null
      modifies s, s.clientKey, s.destKey, s.destToClient, s.destToClient.data
      ensures s.Valid() && s.Repr == old(s.Repr) && s.destKey == old(s.destKey)
      ensures (s.View(), r) == FinishConnectStep(old(s.View()), result)
    {
      if s.destAddress.None? {
        return Escaped(NullPointer);
      }
      var reply := Reply(SocksVersion, AddressTypes.Ipv4Address, s.destAddress.value.address, s.destAddress.value.port);
      if result == NotYetConnected {
        return Escaped(Runtime);
      }
      if result == Connected {
        r := ConnectionGranted(s, reply);
      } else {
        r := ConnectionRefused(s, reply);
      }
    }

    /** `connect` once `finishConnect` returned true. */
    method ConnectionGranted(s: Session, reply: ConnectionMsg) returns (r: Outcome)
      requires s.Valid() && s.destKey != null
      modifies s, s.clientKey, s.destKey, s.destToClient, s.destToClient.data
      ensures s.Valid() && s.Repr == old(s.Repr) && s.destKey == old(s.destKey)
      ensures (s.View(), r) == GrantedStep(old(s.View()), reply)
    {
      s.destKey.interest := {};
      s.clientKey.interest := {OpWrite};
      s.state := SendConnResp;
      var bytes := ResponseBytes(reply, ResponseCodes.RequestGranted);
      if bytes.Failure? {
        return Escaped(bytes.error);
      }
      r := reader.QueueForClient(s, bytes.value);
    }

    /** `connect` once `finishConnect` threw. */
    method ConnectionRefused(s: Session, reply: ConnectionMsg) returns (r: Outcome)
      requires s.Valid()
      modifies s, s.clientKey, s.destToClient, s.destToClient.data
      ensures s.Valid() && s.Repr == old(s.Repr) && s.destKey == old(s.destKey)
      ensures (s.View(), r) == RefusedStep(old(s.View()), reply)
    {
      var bytes := ResponseBytes(reply, ResponseCodes.HostUnreachable);
      if bytes.Failure? {
        return Escaped(bytes.error);
      }
      r := reader.QueueForClient(s, bytes.value);
      if r != Completed {
        return;
      }
      s.closeUponSending := true;
      s.clientKey.interest := {OpWrite};
      s.state := SendConnResp;
    }

    /**
     * `accept` on the server key: a pending connection gets a client key wanting only READ
     * and a fresh session attached to it as CLIENT; with none pending `accept()` gives null
     * and the next call on it throws `NullPointerException`.
     */
    method Accept(pending: bool) returns (r: Outcome, accepted: Session?)
      ensures pending <==> r == Completed
      ensures !pending ==> r == Escaped(NullPointer) && accepted == null
      ensures pending ==> accepted != null && fresh(accepted.Repr) && accepted.Valid() && accepted.destKey == null
                          && accepted.View() == SessionView(RecvInitGreeting, false, Allocated(bufferSize), Allocated(bufferSize),
                                                            {OpRead}, None, None, 0, 0)
                          && accepted.clientKey.valid && accepted.clientKey.channel == SocketChannel
    {
      if !pending {
        return Escaped(NullPointer), null;
      }
      var key := new Key.Register(SocketChannel, {OpRead});
      var s := new Session(key, bufferSize);
      key.attachment := Attachment(s, Client);
      r, accepted := Completed, s;
    }

    /** `connect` on a destination key: its session's connection is completed. */
    method Connect(key: Key, result: FinishConnect) returns (r: Outcome)
      requires Valid() && AttachedApart(key, dnsResolver) && key.attachment.value.IsDestination()
      modifies SessionFootprint(key)
      ensures Valid() && AttachedApart(key, dnsResolver) && SessionOf(key) == old(SessionOf(key))
      ensures dnsResolver.View() == old(dnsResolver.View()) && SessionFootprint(key) == old(SessionFootprint(key))
      ensures SessionOf(key).destKey == old(SessionOf(key).destKey)
      ensures var s := SessionOf(key); (s.View(), r) == FinishConnectStep(old(s.View()), result)
    {
      var s := key.attachment.value.GetSocksClient();
      r := FinishConnection(s, result);
    }

    /**
     * One selected key in `processSelectedKeys`: accept, connect, read and write, each when the
     * key is ready for it and still valid, stopping at the first exception that escapes. A
     * stream key goes through `StreamKeyStep`; any readiness of the resolver's datagram key
     * ends in the `ClassCastException` of the read or write handler's cast.
     */
    method ProcessKey(key: Key, ready: set<Interest>, inputs: KeyInputs) returns (r: Outcome, accepted: Session?)
      requires Valid()
      requires key.channel == ServerSocketChannel ==> ready <= {OpAccept}
      requires key.channel == DatagramChannel ==> ready <= {OpRead, OpWrite}
      requires key.channel == SocketChannel ==>
                 AttachedApart(key, dnsResolver) && OpAccept !in ready
                 && (OpConnect in ready ==> key.attachment.value.IsDestination())
                 && Settled(SessionOf(key).View())
      modifies if key.channel == SocketChannel then SessionFootprint(key) + dnsResolver.Repr else {}
      ensures Valid() && fresh(dnsResolver.Repr - old(dnsResolver.Repr))
      ensures key.channel == SocketChannel ==>
                AttachedApart(key, dnsResolver) && SessionOf(key) == old(SessionOf(key))
                && fresh(SessionFootprint(key) - old(SessionFootprint(key)))
                && Settled(SessionOf(key).View())
                && (old(SessionOf(key).destKey) != null ==> SessionOf(key).destKey == old(SessionOf(key).destKey))
      ensures var handled := if key.valid then ready else {};
              && (key.channel == ServerSocketChannel ==>
                    dnsResolver.View() == old(dnsResolver.View())
                    && if OpAccept in handled && inputs.pending
                       then r == Completed && accepted != null && fresh(accepted.Repr) && accepted.Valid()
                            && accepted.View() == SessionView(RecvInitGreeting, false, Allocated(bufferSize),
                                                              Allocated(bufferSize), {OpRead}, None, None, 0, 0)
                       else accepted == null && r == if OpAccept in handled then Escaped(NullPointer) else Completed)
              && (key.channel == DatagramChannel ==>
                    accepted == null && dnsResolver.View() == old(dnsResolver.View())
                    && r == if handled == {} then Completed else Escaped(ClassCast))
              && (key.channel == SocketChannel ==>
                    var s := old(SessionOf(key));
                    accepted == null && s.Valid() && Separate(s, dnsResolver)
                    && (s.View(), dnsResolver.View(), r)
                       == StreamKeyStep(old(key.attachment.value.IsClient()), handled, old(s.View()), old(dnsResolver.View()),
                                        dnsResolver.encode, key, proxyPort, inputs))
    {
      r, accepted := Completed, null;
      if key.channel == SocketChannel {
        r := ProcessStreamKey(key, if key.valid then ready else {}, inputs);
        return;
      }
      if key.valid && OpAccept in ready {
        r, accepted := Accept(inputs.pending);
        if r.Escaped? {
          return;
        }
      }
      if key.valid && OpRead in ready {
        r := reader.Read(key, inputs.read, inputs.env);
        if r.Escaped? {
          return;
        }
      }
      if key.valid && OpWrite in ready {
        r := writer.Write(key, inputs.write);
      }
    }

    /**
     * The handlers a valid stream key goes through, for the operations in `ready`: connect,
     * read and write in that order, stopping at the first exception that escapes.
     */
    method ProcessStreamKey(key: Key, ready: set<Interest>, inputs: KeyInputs) returns (r: Outcome)
      requires Valid() && key.channel == SocketChannel && AttachedApart(key, dnsResolver)
      requires (OpConnect in ready ==> key.attachment.value.IsDestination()) && Settled(SessionOf(key).View())
      modifies SessionFootprint(key) + dnsResolver.Repr
      ensures Valid() && fresh(dnsResolver.Repr - old(dnsResolver.Repr))
      ensures AttachedApart(key, dnsResolver) && SessionOf(key) == old(SessionOf(key))
      ensures fresh(SessionFootprint(key) - old(SessionFootprint(key)))
      ensures Settled(SessionOf(key).View())
      ensures old(SessionOf(key).destKey) != null ==> SessionOf(key).destKey == old(SessionOf(key).destKey)
      ensures var s := SessionOf(key);
              (s.View(), dnsResolver.View(), r)
              == StreamKeyStep(old(key.attachment.value.IsClient()), ready, old(s.View()), old(dnsResolver.View()),
                               dnsResolver.encode, key, proxyPort, inputs)
    {
      ghost var s := SessionOf(key);
      ghost var v0, rv0 := s.View(), dnsResolver.View();
      FinishConnectKeepsSettled(v0, inputs.finish);
      StreamKeyKeepsSettled(key.attachment.value.IsClient(), ready, v0, rv0, dnsResolver.encode, key, proxyPort, inputs);
      r := Completed;
      if OpConnect in ready {
        r := Connect(key, inputs.finish);
        if r.Escaped? {
          return;
        }
      }
      assert Settled(s.View()) && s.destKey == old(s.destKey);
      r := ReadIfReady(key, ready, inputs);
      if r.Escaped? {
        return;
      }
      r := WriteIfReady(key, ready, inputs.write);
    }

    /** The read handler of a stream key, when `ready` holds READ. */
    method ReadIfReady(key: Key, ready: set<Interest>, inputs: KeyInputs) returns (r: Outcome)
      requires Valid() && key.channel == SocketChannel && AttachedApart(key, dnsResolver) && Settled(SessionOf(key).View())
      modifies SessionFootprint(key) + dnsResolver.Repr
      ensures Valid() && fresh(dnsResolver.Repr - old(dnsResolver.Repr))
      ensures AttachedApart(key, dnsResolver) && SessionOf(key) == old(SessionOf(key))
      ensures fresh(SessionFootprint(key) - old(SessionFootprint(key)))
      ensures old(SessionOf(key).destKey) != null ==> SessionOf(key).destKey == old(SessionOf(key).destKey)
      ensures var s := SessionOf(key);
              (s.View(), dnsResolver.View(), r)
              == ReadStep(old(key.attachment.value.IsClient()), ready, old(s.View()), old(dnsResolver.View()),
                          dnsResolver.encode, key, proxyPort, inputs)
    {
      ghost var s := SessionOf(key);
      assert s.destKey != null ==> s.View().destInterest.Some? && s.state != RecvConnReq;
      r := Completed;
      if OpRead in ready {
        r := reader.Read(key, inputs.read, inputs.env);
      }
    }

    /** The write handler of a stream key, when `ready` holds WRITE. */
    method WriteIfReady(key: Key, ready: set<Interest>, input: WriteResult) returns (r: Outcome)
      requires Valid() && key.channel == SocketChannel && AttachedApart(key, dnsResolver)
      modifies SessionFootprint(key)
      ensures Valid() && AttachedApart(key, dnsResolver) && SessionOf(key) == old(SessionOf(key))
      ensures SessionFootprint(key) == old(SessionFootprint(key)) && dnsResolver.View() == old(dnsResolver.View())
      ensures SessionOf(key).destKey == old(SessionOf(key).destKey)
      ensures var s := SessionOf(key);
              (s.View(), r) == WriteStep(old(key.attachment.value.IsClient()), ready, old(s.View()), input)
    {
      r := Completed;
      if OpWrite in ready {
        r := writer.Write(key, input);
      }
    }

    /**
     * The `k`-th key of the selected keys goes through `ProcessKey`, with the outcome
     * `KeyOutcome` gives from `start`, where its handlers start, and the trace of the keys
     * handled so far grows by that start and outcome; every selected key keeps its session and
     * what `ProcessKey` needs of it, and the sessions stay apart.
     */
    method ProcessSelected(selected: seq<Key>, readies: seq<set<Interest>>, inputs: seq<KeyInputs>, k: nat,
                           ghost starts: seq<Option<StreamStart>>, ghost outcomes: seq<Outcome>)
      returns (r: Outcome, ghost start: Option<StreamStart>, ghost created: set<object>)
      requires Valid() && |readies| == |selected| && |inputs| == |selected| && k < |selected|
      requires forall i :: 0 <= i < |selected| ==> Handleable(selected[i], readies[i])
      requires forall i, j :: 0 <= i < |selected| && 0 <= j < |selected| ==> Unshared(selected[i], selected[j])
      requires Handleable(selected[k], readies[k])
      requires Traced(selected, readies, inputs, starts, outcomes, dnsResolver.encode, proxyPort) && |outcomes| == k
      modifies if selected[k].channel == SocketChannel then SessionFootprint(selected[k]) + dnsResolver.Repr else {}
      ensures Valid() && dnsResolver.Repr <= old(dnsResolver.Repr) + created
      ensures start == old(Start(selected[k]))
      ensures r == KeyOutcome(selected[k], readies[k], inputs[k], start, dnsResolver.encode, proxyPort)
      ensures Traced(selected, readies, inputs, starts + [start], outcomes + [r], dnsResolver.encode, proxyPort)
      ensures forall i :: 0 <= i < |selected| ==> Handleable(selected[i], readies[i])
      ensures forall i, j :: 0 <= i < |selected| && 0 <= j < |selected| ==> Unshared(selected[i], selected[j])
      ensures fresh(created)
      ensures forall i :: 0 <= i < |selected| && selected[i].channel == SocketChannel ==>
                SessionOf(selected[i]) == old(SessionOf(selected[i]))
                && SessionFootprint(selected[i]) <= old(SessionFootprint(selected[i])) + created
    {
      var key := selected[k];
      ghost var current := SessionOf(key);
      start := Start(key);
      r := HandleKey(key, readies[k], inputs[k]);
      created := (SessionFootprint(key) - old(SessionFootprint(key))) + (dnsResolver.Repr - old(dnsResolver.Repr));
      TracedStep(selected, readies, inputs, starts, outcomes, dnsResolver.encode, proxyPort, start, r);
      forall i | 0 <= i < |selected| && selected[i].channel == SocketChannel
        ensures SessionOf(selected[i]) == old(SessionOf(selected[i]))
        ensures Handleable(selected[i], readies[i])
        ensures SessionFootprint(selected[i]) <= old(SessionFootprint(selected[i])) + created
        ensures SessionOf(selected[i]) == current ==> fresh(SessionFootprint(selected[i]) - old(SessionFootprint(selected[i])))
        ensures SessionOf(selected[i]) != current ==> SessionFootprint(selected[i]) == old(SessionFootprint(selected[i]))
      {
        var other := selected[i];
        var t := old(SessionOf(other));
        assert old(Handleable(other, readies[i]));
        assert other in t.Repr;
        if key.channel == SocketChannel && t == current {
          assert other == t.clientKey || other == old(t.destKey);
        } else {
          if key.channel == SocketChannel {
            assert old(Unshared(other, key));
          }
          assert unchanged(t.Repr);
        }
      }
      forall i, j | 0 <= i < |selected| && 0 <= j < |selected|
        ensures Unshared(selected[i], selected[j])
      {
        assert old(Unshared(selected[i], selected[j]));
      }
    }

    /**
     * `ProcessKey`, keeping of its contract what the loop over the selected keys needs: the
     * outcome, and that the key's session stays attached and settled.
     */
    method HandleKey(key: Key, ready: set<Interest>, inputs: KeyInputs) returns (r: Outcome)
      requires Valid() && Handleable(key, ready)
      modifies if key.channel == SocketChannel then SessionFootprint(key) + dnsResolver.Repr else {}
      ensures Valid() && fresh(dnsResolver.Repr - old(dnsResolver.Repr))
      ensures r == KeyOutcome(key, ready, inputs, old(Start(key)), dnsResolver.encode, proxyPort)
      ensures key.channel == SocketChannel ==>
                AttachedApart(key, dnsResolver) && SessionOf(key) == old(SessionOf(key))
                && fresh(SessionFootprint(key) - old(SessionFootprint(key)))
                && Settled(SessionOf(key).View())
                && (old(SessionOf(key).destKey) != null ==> SessionOf(key).destKey == old(SessionOf(key).destKey))
    {
      var accepted;
      r, accepted := ProcessKey(key, ready, inputs);
    }

    /** Where a stream key's handlers start from; nothing for the other keys. */
    ghost function Start(key: Key): (start: Option<StreamStart>)
      reads this, reader, writer, dnsResolver, dnsResolver.Repr, key, SessionOf(key), SessionFootprint(key)
      requires Valid() && (key.channel == SocketChannel ==> AttachedApart(key, dnsResolver))
      ensures key.channel == SocketChannel <==> start.Some?
      ensures start.Some? ==> start.value.Valid()
    {
      if key.channel == SocketChannel then
        Some(StreamStart(key.attachment.value.IsClient(), SessionOf(key).View(), dnsResolver.View()))
      else None
    }

    /** What `ProcessKey` needs of a selected key with readiness `ready`. */
    ghost predicate Handleable(key: Key, ready: set<Interest>)
      reads this, dnsResolver, dnsResolver.Repr, key, SessionOf(key), SessionFootprint(key)
    {
      (key.channel == ServerSocketChannel ==> ready <= {OpAccept})
      && (key.channel == DatagramChannel ==> ready <= {OpRead, OpWrite})
      && (key.channel == SocketChannel ==>
            AttachedApart(key, dnsResolver) && OpAccept !in ready
            && (OpConnect in ready ==> key.attachment.value.IsDestination())
            && Settled(SessionOf(key).View()))
    }

    /**
     * `processSelectedKeys`: each selected key, in iteration order, goes through `ProcessKey`
     * and is then removed from the selected set; an exception escapes at once and leaves the
     * key it came from, and every key after it, selected. `outcomes[i]` is what handling
     * `selected[i]` gave, `KeyOutcome` from `starts[i]`, where a stream key's handlers
     * started: every key handled before the last completed, and an escaping exception is that
     * of the first key still selected. `sessions` holds the objects of every selected stream
     * key's session. Every session a selected key belongs to stays valid, attached and settled.
     */
    method ProcessSelectedKeys(selected: seq<Key>, readies: seq<set<Interest>>, inputs: seq<KeyInputs>,
                               ghost sessions: set<object>)
      returns (r: Outcome, remaining: seq<Key>, ghost outcomes: seq<Outcome>, ghost starts: seq<Option<StreamStart>>)
      requires Valid() && |readies| == |selected| && |inputs| == |selected|
      requires forall i :: 0 <= i < |selected| ==> Handleable(selected[i], readies[i])
      requires forall i, j :: 0 <= i < |selected| && 0 <= j < |selected| ==> Unshared(selected[i], selected[j])
      requires forall i :: 0 <= i < |selected| && selected[i].channel == SocketChannel ==>
                 SessionFootprint(selected[i]) <= sessions
      modifies sessions, dnsResolver.Repr
      ensures Valid()
      ensures r.Completed? <==> remaining == []
      ensures |remaining| <= |selected| && remaining == selected[|selected| - |remaining|..]
      ensures r.Completed? ==> |outcomes| == |selected| && forall i :: 0 <= i < |outcomes| ==> outcomes[i] == Completed
      ensures r.Escaped? ==> 1 <= |outcomes| <= |selected| && outcomes[|outcomes| - 1] == r
                             && remaining == selected[|outcomes| - 1..]
                             && forall i :: 0 <= i < |outcomes| - 1 ==> outcomes[i] == Completed
      ensures Traced(selected, readies, inputs, starts, outcomes, dnsResolver.encode, proxyPort)
      ensures forall i :: 0 <= i < |selected| ==> Handleable(selected[i], readies[i])
    {
      var k := 0;
      r := Completed;
      outcomes, starts := [], [];
      ghost var grown: set<object> := {};
      ghost var resolverRepr := dnsResolver.Repr;
      while k < |selected| && r.Completed?
        invariant 0 <= k <= |selected| && Valid()
        invariant r.Escaped? ==> k < |selected|
        invariant Recorded(outcomes, k, r)
        invariant Traced(selected, readies, inputs, starts, outcomes, dnsResolver.encode, proxyPort)
        invariant forall i :: 0 <= i < |selected| ==> Handleable(selected[i], readies[i])
        invariant forall i, j :: 0 <= i < |selected| && 0 <= j < |selected| ==> Unshared(selected[i], selected[j])
        invariant fresh(grown)
        invariant forall i :: 0 <= i < |selected| && selected[i].channel == SocketChannel ==>
                    SessionFootprint(selected[i]) <= sessions + grown
        invariant dnsResolver.Repr <= resolverRepr + grown
        decreases |selected| - k, if r.Completed? then 1 else 0
      {
        ghost var start, created;
        r, start, created := ProcessSelected(selected, readies, inputs, k, starts, outcomes);
        grown := grown + created;
        RecordedStep(outcomes, k, r);
        outcomes, starts := outcomes + [r], starts + [start];
        if r.Completed? {
          k := k + 1;
        }
      }
      remaining := if r.Completed? then [] else selected[k..];
      RecordedEnd(outcomes, k, r);
    }
  }

  /**
   * After `k` keys completed and the loop over the selected keys stopped with `r`: one outcome
   * per handled key, the first `k` completed, and an escape recorded for the key at `k`.
   */
  ghost predicate Recorded(outcomes: seq<Outcome>, k: nat, r: Outcome)
  {
    |outcomes| == (if r.Completed? then k else k + 1)
    && (forall i :: 0 <= i < k ==> outcomes[i] == Completed)
    && (r.Escaped? ==> outcomes[k] == r)
  }

  /** Handling the key at `k` with outcome `r` extends the record. */
  lemma RecordedStep(outcomes: seq<Outcome>, k: nat, r: Outcome)
    requires Recorded(outcomes, k, Completed)
    ensures Recorded(outcomes + [r], if r.Completed? then k + 1 else k, r)
  {
  }

  /** The record read back once the loop stops. */
  lemma RecordedEnd(outcomes: seq<Outcome>, k: nat, r: Outcome)
    requires Recorded(outcomes, k, r)
    ensures r.Completed? ==> |outcomes| == k && forall i :: 0 <= i < |outcomes| ==> outcomes[i] == Completed
    ensures r.Escaped? ==> |outcomes| == k + 1 && outcomes[|outcomes| - 1] == r
                           && forall i :: 0 <= i < |outcomes| - 1 ==> outcomes[i] == Completed
  {
  }

  /**
   * One start and one outcome per handled key: the `i`-th key's handlers started from
   * `starts[i]` and gave `outcomes[i]`.
   */
  ghost predicate Traced(selected: seq<Key>, readies: seq<set<Interest>>, inputs: seq<KeyInputs>,
                         starts: seq<Option<StreamStart>>, outcomes: seq<Outcome>, encode: Encoder, proxyPort: int)
  {
    |starts| == |outcomes| <= |selected| == |readies| == |inputs|
    && forall i {:trigger StartFits(selected[i], starts[i])}
                {:trigger KeyOutcome(selected[i], readies[i], inputs[i], starts[i], encode, proxyPort)} :: 0 <= i < |outcomes| ==>
         StartFits(selected[i], starts[i])
         && outcomes[i] == KeyOutcome(selected[i], readies[i], inputs[i], starts[i], encode, proxyPort)
  }

  /** A start is recorded exactly for a stream key, and it is then a valid one. */
  predicate StartFits(key: Key, start: Option<StreamStart>)
  {
    (key.channel == SocketChannel <==> start.Some?) && (start.Some? ==> start.value.Valid())
  }

  /** Handling the next key from `start`, with outcome `r`, extends the trace. */
  lemma TracedStep(selected: seq<Key>, readies: seq<set<Interest>>, inputs: seq<KeyInputs>,
                   starts: seq<Option<StreamStart>>, outcomes: seq<Outcome>, encode: Encoder, proxyPort: int,
                   start: Option<StreamStart>, r: Outcome)
    requires Traced(selected, readies, inputs, starts, outcomes, encode, proxyPort) && |outcomes| < |selected|
    requires StartFits(selected[|outcomes|], start)
    requires r == KeyOutcome(selected[|outcomes|], readies[|outcomes|], inputs[|outcomes|], start, encode, proxyPort)
    ensures Traced(selected, readies, inputs, starts + [start], outcomes + [r], encode, proxyPort)
  {
    var starts', outcomes' := starts + [start], outcomes + [r];
    forall i | 0 <= i < |outcomes'|
      ensures StartFits(selected[i], starts'[i])
              && outcomes'[i] == KeyOutcome(selected[i], readies[i], inputs[i], starts'[i], encode, proxyPort)
    {
      if i < |outcomes| {
        assert starts'[i] == starts[i] && outcomes'[i] == outcomes[i];
      }
    }
  }

  /** Stream keys of two different sessions share no object. */
  ghost predicate Unshared(a: Key, b: Key)
    reads a, b, SessionOf(a), SessionOf(b)
  {
    a.channel == SocketChannel && b.channel == SocketChannel
    && SessionOf(a) != null && SessionOf(b) != null && SessionOf(a) != SessionOf(b)
    ==> SessionOf(a).Repr !! SessionOf(b).Repr
  }
}
