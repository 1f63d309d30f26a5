/**
 * One client session (`SocksClient`): its protocol state, its two relay buffers, the
 * selection keys of its two channels and the destination it connects to. The class itself is
 * not part of this model's source; its fields are those its getters and setters expose, and
 * `closeClientSide`/`closeDestSide` are recorded, not modelled.
 */
module SocksClients {
  import opened Wrappers
  import opened JavaTypes
  import opened Buffers
  import opened ChannelAttachments

  /** `SocksClientState`, in declaration order. */
  datatype SocksClientState =
    | RecvInitGreeting
    | SendGreetingResp
    | RecvConnReq
    | ConnectingToDest
    | SendConnResp
    | Active
    | Closed

  /** The operations a selection key can be interested in or ready for. */
  datatype Interest = OpRead | OpWrite | OpConnect | OpAccept

  /** An `InetSocketAddress`: the raw address bytes and the port. */
  datatype SocketAddress = SocketAddress(address: seq<byte>, port: int)

  /** The class of the channel behind a key: the casts in the handlers depend on it. */
  datatype ChannelKind = SocketChannel | DatagramChannel | ServerSocketChannel

  /** What opening and connecting a non-blocking destination channel did. */
  datatype OpenResult = Opened | OpenFailed

  /** `attach(new ChannelAttachment(session, role))`: what a key then carries. */
  function Attachment(session: Session?, role: ChannelRole): Option<ChannelAttachment<Session?>>
  {
    Some(ChannelAttachment(session, role))
  }

  /**
   * A selection key: the kind of its channel, its interest set and its attachment (none for
   * the listening socket). Nothing in this model cancels a key, so `valid` stays true.
   */
  class Key {
    const channel: ChannelKind
    var interest: set<Interest>
    var attachment: Option<ChannelAttachment<Session?>>
    const valid: bool

    /** `register(selector, ops)`: a valid key with the given interest and no attachment yet. */
    constructor Register(channel: ChannelKind, ops: set<Interest>)
      ensures this.channel == channel && interest == ops && attachment == None && valid
    {
      this.channel := channel;
      interest := ops;
      attachment := None;
      valid := true;
    }
  }

  /**
   * The observable state of a session: protocol state, close-after-send flag, both buffers,
   * the client key's interest, the destination key's interest (none until one is registered),
   * the destination address, and how many times each side was closed.
   */
  datatype SessionView = SessionView(
    state: SocksClientState,
    closeUponSending: bool,
    clientToDest: BufferView,
    destToClient: BufferView,
    clientInterest: set<Interest>,
    destInterest: Option<set<Interest>>,
    destAddress: Option<SocketAddress>,
    clientCloses: nat,
    destCloses: nat)
  {
    /** `closeClientSide()`, recorded. */
    function CloseClient(): (s: SessionView)
      ensures s == this.(clientCloses := clientCloses + 1)
    {
      this.(clientCloses := clientCloses + 1)
    }

    /** `closeDestSide()`, recorded. */
    function CloseDest(): (s: SessionView)
      ensures s == this.(destCloses := destCloses + 1)
    {
      this.(destCloses := destCloses + 1)
    }

    /** `interestOps(interestOps() & ~op)` on the destination key, when there is one. */
    function ClearDest(op: Interest): (s: SessionView)
      ensures s == this.(destInterest := if destInterest.Some? then Some(destInterest.value - {op}) else None)
    {
      this.(destInterest := if destInterest.Some? then Some(destInterest.value - {op}) else None)
    }
  }

  /**
   * A destination key exists only once the session has left the greeting and request
   * states: the protocol invariant every handler keeps.
   */
  predicate Settled(s: SessionView)
  {
    s.destInterest.Some? ==> s.state in {ConnectingToDest, SendConnResp, Active, Closed}
  }

  /**
   * `ChannelReader.connect`: the client key loses all interest, the state becomes
   * CONNECTING_TO_DEST and the target is recorded; then a destination channel is opened and
   * registered for CONNECT. An `IOException` from opening it leaves the first three changes.
   */
  function ConnectStep(s: SessionView, target: SocketAddress, open: OpenResult): (r: (SessionView, Outcome))
    ensures r.0.clientToDest == s.clientToDest && r.0.destToClient == s.destToClient
  {
    var s1 := s.(clientInterest := {}, state := ConnectingToDest, destAddress := Some(target));
    if open == OpenFailed then (s1, Escaped(IO))
    else (s1.(destInterest := Some({OpConnect})), Completed)
  }

  /**
   * A successful `connect` leaves the client waiting on nothing, a destination key waiting
   * only on CONNECT, the state CONNECTING_TO_DEST and the target recorded; neither buffer,
   * the close flag nor either side's closes change.
   */
  lemma ConnectArmsDestination(s: SessionView, target: SocketAddress)
    ensures var (s2, o) := ConnectStep(s, target, Opened);
            o == Completed && s2.state == ConnectingToDest && s2.clientInterest == {}
            && s2.destInterest == Some({OpConnect}) && s2.destAddress == Some(target)
            && s2.clientToDest == s.clientToDest && s2.destToClient == s.destToClient
            && s2.closeUponSending == s.closeUponSending
            && s2.clientCloses == s.clientCloses && s2.destCloses == s.destCloses
  {
  }

  class Session {
    var state: SocksClientState
    var closeUponSending: bool
    const clientToDest: ByteBuffer
    const destToClient: ByteBuffer
    const clientKey: Key
    var destKey: Key?
    var destAddress: Option<SocketAddress>
    ghost var clientCloses: nat
    ghost var destCloses: nat
    ghost var Repr: set<object>

    /** The session's buffers, their arrays and its keys are in `Repr` and distinct. */
    ghost predicate Layout()
      reads this
    {
      this in Repr && clientKey in Repr
      && clientToDest in Repr && clientToDest.data in Repr
      && destToClient in Repr && destToClient.data in Repr
      && clientKey.channel == SocketChannel
      && (destKey != null ==> destKey in Repr && destKey != clientKey && destKey.channel == SocketChannel)
      && clientToDest != destToClient && clientToDest.data != destToClient.data
    }

    /** The session owns its buffers, their arrays and its keys, and both buffers are valid. */
    ghost predicate Owns()
      reads this, Repr
    {
      Layout() && clientToDest.Valid() && destToClient.Valid()
    }

    /** Each key the session owns is attached to it, in its role. */
    ghost predicate Valid()
      reads this, Repr
    {
      Owns()
      && clientKey.attachment == Attachment(this, Client)
      && (destKey != null ==> destKey.attachment == Attachment(this, Destination))
    }

    /** The session as a value. */
    ghost function View(): SessionView
      reads this, Repr
      requires Owns()
    {
      SessionView(state, closeUponSending, clientToDest.View(), destToClient.View(),
                  clientKey.interest, if destKey == null then None else Some(destKey.interest),
                  destAddress, clientCloses, destCloses)
    }

    /**
     * `new SocksClient(channel, key)`: a session awaiting the greeting, with two empty buffers
     * of `bufferSize` bytes, no destination and nothing closed.
     */
    constructor (key: Key, bufferSize: nat)
      requires key.channel == SocketChannel
      ensures Owns() && clientKey == key && destKey == null
      ensures fresh(Repr - {key})
      ensures View() == SessionView(RecvInitGreeting, false, Allocated(bufferSize), Allocated(bufferSize),
                                    key.interest, None, None, 0, 0)
    {
      state := RecvInitGreeting;
      closeUponSending := false;
      clientToDest := new ByteBuffer.Allocate(bufferSize);
      destToClient := new ByteBuffer.Allocate(bufferSize);
      clientKey := key;
      destKey := null;
      destAddress := None;
      clientCloses, destCloses := 0, 0;
      new;
      Repr := {this, key, clientToDest, clientToDest.data, destToClient, destToClient.data};
    }

    /** `closeClientSide`: counted, as closing is I/O. */
    method CloseClientSide()
      requires Owns()
      modifies this
      ensures Owns() && Repr == old(Repr) && destKey == old(destKey)
      ensures View() == old(View()).CloseClient()
    {
      clientCloses := clientCloses + 1;
    }

    /** `closeDestSide`: counted, as closing is I/O. */
    method CloseDestSide()
      requires Owns()
      modifies this
      ensures Owns() && Repr == old(Repr) && destKey == old(destKey)
      ensures View() == old(View()).CloseDest()
    {
      destCloses := destCloses + 1;
    }

    /** Drops `op` from the destination key's interest set, when there is a destination key. */
    method ClearDestInterest(op: Interest)
      requires Valid()
      modifies if destKey != null then {destKey} else {}
      ensures Valid() && Repr == old(Repr) && destKey == old(destKey)
      ensures View() == old(View()).ClearDest(op)
    {
      if destKey != null {
        destKey.interest := destKey.interest - {op};
      }
    }

    /** Adds `op` to the client key's interest set. */
    method AddClientInterest(op: Interest)
      requires Valid()
      modifies clientKey
      ensures Valid() && Repr == old(Repr) && destKey == old(destKey)
      ensures View() == old(View()).(clientInterest := old(View()).clientInterest + {op})
    {
      clientKey.interest := clientKey.interest + {op};
    }

    /** Compacts the client-to-destination buffer. */
    method CompactClientToDest()
      requires Valid()
      modifies clientToDest, clientToDest.data
      ensures Valid() && Repr == old(Repr) && destKey == old(destKey)
      ensures View() == old(View()).(clientToDest := old(View()).clientToDest.Compacted())
    {
      clientToDest.Compact();
    }

    /** A change confined to the client-to-destination buffer shows in the view as just that. */
    twostate lemma ClientToDestChanged()
      requires old(Valid()) && clientToDest.Valid()
      requires unchanged(this, clientKey, destToClient, destToClient.data)
      requires destKey != null ==> unchanged(destKey)
      ensures Valid() && View() == old(View()).(clientToDest := clientToDest.View())
    {
    }

    /** Compacts the destination-to-client buffer. */
    method CompactDestToClient()
      requires Valid()
      modifies destToClient, destToClient.data
      ensures Valid() && Repr == old(Repr) && destKey == old(destKey)
      ensures View() == old(View()).(destToClient := old(View()).destToClient.Compacted())
    {
      destToClient.Compact();
    }

    /** Flips the client-to-destination buffer for reading. */
    method FlipClientToDest()
      requires Valid()
      modifies clientToDest
      ensures Valid() && Repr == old(Repr) && destKey == old(destKey)
      ensures View() == old(View()).(clientToDest := old(View()).clientToDest.Flipped())
    {
      clientToDest.Flip();
    }

    /** Flips the destination-to-client buffer for reading. */
    method FlipDestToClient()
      requires Valid()
      modifies destToClient
      ensures Valid() && Repr == old(Repr) && destKey == old(destKey)
      ensures View() == old(View()).(destToClient := old(View()).destToClient.Flipped())
    {
      destToClient.Flip();
    }

    /** Writes the pending bytes of the client-to-destination buffer to a peer taking up to `k`. */
    method SendClientToDest(k: nat) returns (n: nat)
      requires Valid()
      modifies clientToDest
      ensures Valid() && Repr == old(Repr) && destKey == old(destKey)
      ensures (n, View().clientToDest) == WriteFrom(old(View()).clientToDest, k)
      ensures View() == old(View()).(clientToDest := View().clientToDest)
    {
      n := clientToDest.SendUpTo(k);
    }

    /** Writes the pending bytes of the destination-to-client buffer to a peer taking up to `k`. */
    method SendDestToClient(k: nat) returns (n: nat)
      requires Valid()
      modifies destToClient
      ensures Valid() && Repr == old(Repr) && destKey == old(destKey)
      ensures (n, View().destToClient) == WriteFrom(old(View()).destToClient, k)
      ensures View() == old(View()).(destToClient := View().destToClient)
    {
      n := destToClient.SendUpTo(k);
    }

    /** `ChannelReader.connect(socksClient, target)`. */
    method Connect(target: SocketAddress, open: OpenResult) returns (r: Outcome)
      requires Valid()
      modifies this, clientKey
      ensures Valid() && fresh(Repr - old(Repr))
      ensures (View(), r) == ConnectStep(old(View()), target, open)
    {
      clientKey.interest := {};
      state := ConnectingToDest;
      destAddress := Some(target);
      if open == OpenFailed {
        return Escaped(IO);
      }
      var key := new Key.Register(SocketChannel, {OpConnect});
      key.attachment := Attachment(this, Destination);
      destKey := key;
      Repr := Repr + {key};
      r := Completed;
    }
  }

  /** The session a key's attachment carries, if any. */
  function SessionOf(key: Key): (s: Session?)
    reads key
    ensures s != null ==> key.attachment.Some? && key.attachment.value.socksClient == s
  {
    if key.attachment.Some? then key.attachment.value.socksClient else null
  }

  /** The objects of the session a key's attachment carries. */
  ghost function SessionFootprint(key: Key): set<object>
    reads key, SessionOf(key)
  {
    if SessionOf(key) == null then {} else SessionOf(key).Repr
  }

  /**
   * A stream key as the proxy registers it: attached, as client or destination, to a valid
   * session whose key in that role it is.
   */
  ghost predicate Attached(key: Key)
    reads key, SessionOf(key), SessionFootprint(key)
  {
    var s := SessionOf(key);
    s != null && s.Valid()
    && (key.attachment.value.IsClient() ==> key == s.clientKey)
    && (key.attachment.value.IsDestination() ==> key == s.destKey)
    && !key.attachment.value.IsDns()
  }
}
