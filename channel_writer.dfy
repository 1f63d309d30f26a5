/**
 * `ChannelWriter`: what the proxy does when a client or destination channel is writable.
 * Each handler is a step function on the session's observable state, and a method of the
 * class that performs it on the objects.
 */
module ChannelWriters {
  import opened Wrappers
  import opened JavaTypes
  import opened Buffers
  import opened ChannelAttachments
  import opened SocksClients
  import opened DnsResolvers

  /** What a `SocketChannel.write` does: the peer takes up to `k` bytes, or an `IOException`. */
  datatype WriteResult = Accepts(k: nat) | WriteFailed

  /**
   * `processClientResponseState`, once the reply has been written out: SEND_CONN_RESP
   * becomes ACTIVE and the destination wants only READ (a missing destination key throws
   * `NullPointerException` after the state change); SEND_GREETING_RESP becomes RECV_CONN_REQ;
   * either way the client wants only READ. With bytes still unsent nothing changes.
   */
  function ResponseStateStep(s: SessionView): (r: (SessionView, Outcome))
    requires s.destToClient.Valid() && s.state in {SendGreetingResp, SendConnResp}
    ensures r.0.destToClient == s.destToClient && r.0.clientToDest == s.clientToDest
  {
    if s.destToClient.Remaining() != 0 then (s, Completed)
    else if s.state == SendConnResp then
      var s1 := s.(state := Active);
      if s1.destInterest.None? then (s1, Escaped(NullPointer))
      else (s1.(destInterest := Some({OpRead}), clientInterest := {OpRead}), Completed)
    else (s.(state := RecvConnReq, clientInterest := {OpRead}), Completed)
  }

  /**
   * `processClientActiveState`: once `destToClient` is drained the client stops wanting
   * WRITE (and, in CLOSED, the destination side is closed); bytes written make the
   * destination want READ.
   */
  function ActiveStateStep(s: SessionView, wrote: bool): (r: (SessionView, Outcome))
    requires s.destToClient.Valid()
    ensures r.0.destToClient == s.destToClient && r.0.clientToDest == s.clientToDest
  {
    var s1 := if s.destToClient.Remaining() == 0 then s.(clientInterest := s.clientInterest - {OpWrite}) else s;
    if s.destToClient.Remaining() == 0 && s.state == Closed then (s1.CloseDest(), Completed)
    else if !wrote then (s1, Completed)
    else if s1.destInterest.None? then (s1, Escaped(NullPointer))
    else (s1.(destInterest := Some(s1.destInterest.value + {OpRead})), Completed)
  }

  /** The state switch of `writeToClient`, on the buffer after the write. */
  function ClientStateStep(s: SessionView, wrote: bool): (r: (SessionView, Outcome))
    requires s.destToClient.Valid()
    ensures r.0.destToClient == s.destToClient && r.0.clientToDest == s.clientToDest
  {
    match s.state
    case SendGreetingResp =>
      if s.closeUponSending then (s.CloseClient(), Completed) else ResponseStateStep(s)
    case SendConnResp =>
      if s.closeUponSending then (s.CloseClient(), Completed) else ResponseStateStep(s)
    case Active => ActiveStateStep(s, wrote)
    case Closed => (if s.destToClient.Remaining() == 0 then s.CloseClient() else s, Completed)
    case _ => (s, Escaped(IllegalArgument))
  }

  /**
   * `writeToClient`: flip `destToClient`, write what the client takes, go on by state, then
   * compact. An exception leaves the buffer flipped.
   */
  function WriteToClientStep(s: SessionView, input: WriteResult): (r: (SessionView, Outcome))
    requires s.destToClient.Valid()
  {
    var flipped := s.destToClient.Flipped();
    match input
    case WriteFailed => (s.(destToClient := flipped), Escaped(IO))
    case Accepts(k) =>
      var (n, sent) := WriteFrom(flipped, k);
      var (s1, o) := ClientStateStep(s.(destToClient := sent), n > 0);
      if o.Escaped? then (s1, o) else (s1.(destToClient := s1.destToClient.Compacted()), Completed)
  }

  /**
   * `writeToDestination`: flip `clientToDest` and write what the destination takes. Once it
   * is drained the destination stops wanting WRITE, and in CLOSED the destination side is
   * closed and the handler returns without compacting. Bytes written make the client want
   * READ; then the buffer is compacted.
   */
  function WriteToDestinationStep(s: SessionView, input: WriteResult): (r: (SessionView, Outcome))
    requires s.clientToDest.Valid()
  {
    var flipped := s.clientToDest.Flipped();
    match input
    case WriteFailed => (s.(clientToDest := flipped), Escaped(IO))
    case Accepts(k) =>
      var (n, sent) := WriteFrom(flipped, k);
      (DestinationSentStep(s.(clientToDest := sent), n > 0), Completed)
  }

  /** The rest of `writeToDestination`, once the write has left `clientToDest` as it is in `s`. */
  function DestinationSentStep(s: SessionView, wrote: bool): (r: SessionView)
    requires s.clientToDest.Valid()
  {
    var drained := s.clientToDest.Remaining() == 0;
    var s1 := if drained then s.ClearDest(OpWrite) else s;
    if drained && s.state == Closed then s1.CloseDest()
    else
      var s2 := if wrote then s1.(clientInterest := s1.clientInterest + {OpRead}) else s1;
      s2.(clientToDest := s.clientToDest.Compacted())
  }

  /**
   * A write to the client that completes leaves exactly the unsent bytes in
   * `destToClient`, at the front and in their original order, with the whole capacity
   * writable again.
   */
  lemma ClientWriteKeepsUnsent(s: SessionView, k: nat)
    requires s.destToClient.Valid()
    requires WriteToClientStep(s, Accepts(k)).1 == Completed
    ensures var n := Transferred(k, |s.destToClient.Stored()|);
            var b := WriteToClientStep(s, Accepts(k)).0.destToClient;
            b.Stored() == s.destToClient.Stored()[n..] && b.limit == |b.data| == |s.destToClient.data|
  {
    var n := Transferred(k, |s.destToClient.Stored()|);
    var sent := s.destToClient.Flipped().Skipped(n);
    assert WriteToClientStep(s, Accepts(k)).0.destToClient == sent.Compacted();
    FlipSendCompact(s.destToClient, n);
  }

  /**
   * A write to the destination that compacts leaves exactly the unsent bytes in
   * `clientToDest`, at the front and in their original order.
   */
  lemma DestinationWriteKeepsUnsent(s: SessionView, k: nat)
    requires s.clientToDest.Valid()
    requires !(s.state == Closed && k >= |s.clientToDest.Stored()|)
    ensures var n := Transferred(k, |s.clientToDest.Stored()|);
            var b := WriteToDestinationStep(s, Accepts(k)).0.clientToDest;
            b.Stored() == s.clientToDest.Stored()[n..] && b.limit == |b.data| == |s.clientToDest.data|
  {
    var n := Transferred(k, |s.clientToDest.Stored()|);
    FlipSendCompact(s.clientToDest, n);
  }

  /**
   * With close-after-send set, a reply state closes the client side after this write,
   * whether or not bytes remain, and changes neither state nor interests.
   */
  lemma CloseUponSendingCloses(s: SessionView, k: nat)
    requires s.destToClient.Valid()
    requires s.state in {SendGreetingResp, SendConnResp} && s.closeUponSending
    ensures var (r, o) := WriteToClientStep(s, Accepts(k));
            o == Completed && r.clientCloses == s.clientCloses + 1 && r.state == s.state
            && r.clientInterest == s.clientInterest && r.destInterest == s.destInterest
  {
  }

  /**
   * A reply written out completely without close-after-send: SEND_CONN_RESP becomes ACTIVE
   * with the destination wanting only READ, SEND_GREETING_RESP becomes RECV_CONN_REQ, and the
   * client wants only READ.
   */
  lemma ResponseDrained(s: SessionView, k: nat)
    requires s.destToClient.Valid()
    requires s.state in {SendGreetingResp, SendConnResp} && !s.closeUponSending
    requires k >= |s.destToClient.Stored()|
    requires s.state == SendConnResp ==> s.destInterest.Some?
    ensures var (r, o) := WriteToClientStep(s, Accepts(k));
            o == Completed && r.clientInterest == {OpRead} && r.destToClient.Stored() == []
            && r.clientCloses == s.clientCloses && r.destCloses == s.destCloses
            && (s.state == SendConnResp ==> r.state == Active && r.destInterest == Some({OpRead}))
            && (s.state == SendGreetingResp ==> r.state == RecvConnReq && r.destInterest == s.destInterest)
  {
    FlipSendCompact(s.destToClient, |s.destToClient.Stored()|);
  }

  /** A reply with bytes still unsent changes neither state nor interests. */
  lemma ResponsePending(s: SessionView, k: nat)
    requires s.destToClient.Valid()
    requires s.state in {SendGreetingResp, SendConnResp} && !s.closeUponSending
    requires k < |s.destToClient.Stored()|
    ensures var (r, o) := WriteToClientStep(s, Accepts(k));
            o == Completed && r == s.(destToClient := r.destToClient)
            && r.destToClient.Stored() == s.destToClient.Stored()[k..]
  {
    FlipSendCompact(s.destToClient, k);
  }

  /**
   * A client write while relaying: draining `destToClient` stops the client's WRITE, bytes
   * written make the destination want READ, and the branch that closes the destination side
   * never fires because the state is still ACTIVE.
   */
  lemma ActiveClientWrite(s: SessionView, k: nat)
    requires s.destToClient.Valid() && s.state == Active && s.destInterest.Some?
    ensures var n := Transferred(k, |s.destToClient.Stored()|);
            var (r, o) := WriteToClientStep(s, Accepts(k));
            o == Completed && r.state == Active && r.destCloses == s.destCloses && r.clientCloses == s.clientCloses
            && r.clientInterest == (if n == |s.destToClient.Stored()| then s.clientInterest - {OpWrite} else s.clientInterest)
            && r.destInterest == Some(if n > 0 then s.destInterest.value + {OpRead} else s.destInterest.value)
  {
  }

  /**
   * In CLOSED the client side is closed once `destToClient` is empty; in the states that
   * expect input from the client a write throws `IllegalArgumentException` before `compact`.
   */
  lemma ClientWriteOutsideReplies(s: SessionView, k: nat)
    requires s.destToClient.Valid()
    requires s.state in {Closed, RecvInitGreeting, RecvConnReq, ConnectingToDest}
    ensures var n := Transferred(k, |s.destToClient.Stored()|);
            var (r, o) := WriteToClientStep(s, Accepts(k));
            (s.state == Closed ==>
               o == Completed && r.clientCloses == s.clientCloses + (if n == |s.destToClient.Stored()| then 1 else 0))
            && (s.state != Closed ==>
                  o == Escaped(IllegalArgument) && r == s.(destToClient := s.destToClient.Flipped().Skipped(n)))
  {
  }

  /**
   * A destination write: draining `clientToDest` stops the destination's WRITE, and then in
   * CLOSED closes the destination side and leaves the buffer flipped; otherwise bytes
   * written make the client want READ. The state never changes.
   */
  lemma DestinationWrite(s: SessionView, k: nat)
    requires s.clientToDest.Valid() && s.destInterest.Some?
    ensures var n := Transferred(k, |s.clientToDest.Stored()|);
            var drained := n == |s.clientToDest.Stored()|;
            var (r, o) := WriteToDestinationStep(s, Accepts(k));
            o == Completed && r.state == s.state && r.destToClient == s.destToClient
            && r.destInterest == Some(if drained then s.destInterest.value - {OpWrite} else s.destInterest.value)
            && (drained && s.state == Closed ==>
                  r.destCloses == s.destCloses + 1 && r.clientInterest == s.clientInterest
                  && r.clientToDest == s.clientToDest.Flipped().Skipped(n))
            && (!(drained && s.state == Closed) ==>
                  r.destCloses == s.destCloses
                  && r.clientInterest == if n > 0 then s.clientInterest + {OpRead} else s.clientInterest)
  {
  }

  /** Writes keep the protocol invariant: RECV_CONN_REQ is entered only without a destination. */
  lemma WritesKeepSettled(s: SessionView, input: WriteResult)
    requires s.clientToDest.Valid() && s.destToClient.Valid() && Settled(s)
    ensures Settled(WriteToClientStep(s, input).0) && Settled(WriteToDestinationStep(s, input).0)
  {
    ClientWriteKeepsSettled(s, input);
    DestinationWriteKeepsSettled(s, input);
  }

  /** A write to the client keeps the protocol invariant. */
  lemma ClientWriteKeepsSettled(s: SessionView, input: WriteResult)
    requires s.destToClient.Valid() && Settled(s)
    ensures Settled(WriteToClientStep(s, input).0)
  {
    if input.Accepts? {
      var (n, sent) := WriteFrom(s.destToClient.Flipped(), input.k);
      ClientStateKeepsSettled(s.(destToClient := sent), n > 0);
    }
  }

  /** A write to the destination keeps the protocol invariant: it never changes the state. */
  lemma DestinationWriteKeepsSettled(s: SessionView, input: WriteResult)
    requires s.clientToDest.Valid() && Settled(s)
    ensures Settled(WriteToDestinationStep(s, input).0)
  {
    if input.Accepts? {
      var (n, sent) := WriteFrom(s.clientToDest.Flipped(), input.k);
      var t := s.(clientToDest := sent);
      assert WriteToDestinationStep(s, input).0 == DestinationSentStep(t, n > 0);
      var r := DestinationSentStep(t, n > 0);
      assert r.state == s.state && (r.destInterest.Some? ==> s.destInterest.Some?);
    }
  }

  /** The state switch after a write to the client keeps the protocol invariant. */
  lemma ClientStateKeepsSettled(s: SessionView, wrote: bool)
    requires s.destToClient.Valid() && Settled(s)
    ensures Settled(ClientStateStep(s, wrote).0)
  {
    if s.state in {SendGreetingResp, SendConnResp} && !s.closeUponSending {
      assert ClientStateStep(s, wrote) == ResponseStateStep(s);
    }
  }

  class ChannelWriter {
    const dnsResolver: DnsResolver

    /** `new ChannelWriter(dnsResolver)`. */
    constructor (dnsResolver: DnsResolver)
      ensures this.dnsResolver == dnsResolver
    {
      this.dnsResolver := dnsResolver;
    }

    /** `processClientResponseState`. */
    method ProcessClientResponseState(s: Session) returns (r: Outcome)
      requires s.Valid() && s.state in {SendGreetingResp, SendConnResp}
      modifies s, s.clientKey, s.destKey
      ensures s.Valid() && s.Repr == old(s.Repr) && s.destKey == old(s.destKey)
      ensures (s.View(), r) == ResponseStateStep(old(s.View()))
    {
      if s.destToClient.Remaining() != 0 {
        return Completed;
      }
      if s.state == SendConnResp {
        s.state := Active;
        if s.destKey == null {
          return Escaped(NullPointer);
        }
        s.destKey.interest := {OpRead};
      } else {
        s.state := RecvConnReq;
      }
      s.clientKey.interest := {OpRead};
      r := Completed;
    }

    /** `processClientActiveState`. */
    method ProcessClientActiveState(wrote: bool, s: Session) returns (r: Outcome)
      requires s.Valid()
      modifies s, s.clientKey, s.destKey
      ensures s.Valid() && s.Repr == old(s.Repr) && s.destKey == old(s.destKey)
      ensures (s.View(), r) == ActiveStateStep(old(s.View()), wrote)
    {
      if s.destToClient.Remaining() == 0 {
        s.clientKey.interest := s.clientKey.interest - {OpWrite};
        if s.state == Closed {
          s.CloseDestSide();
          return Completed;
        }
      }
      if !wrote {
        return Completed;
      }
      if s.destKey == null {
        return Escaped(NullPointer);
      }
      s.destKey.interest := s.destKey.interest + {OpRead};
      r := Completed;
    }

    /** The state switch of `writeToClient`. */
    method ClientState(wrote: bool, s: Session) returns (r: Outcome)
      requires s.Valid()
      modifies s, s.clientKey, s.destKey
      ensures s.Valid() && s.Repr == old(s.Repr) && s.destKey == old(s.destKey)
      ensures (s.View(), r) == ClientStateStep(old(s.View()), wrote)
    {
      match s.state
      case SendGreetingResp =>
        if s.closeUponSending {
          s.CloseClientSide();
          r := Completed;
        } else {
          r := ProcessClientResponseState(s);
        }
      case SendConnResp =>
        if s.closeUponSending {
          s.CloseClientSide();
          r := Completed;
        } else {
          r := ProcessClientResponseState(s);
        }
      case Active =>
        r := ProcessClientActiveState(wrote, s);
      case Closed =>
        if s.destToClient.Remaining() == 0 {
          s.CloseClientSide();
        }
        r := Completed;
      case _ =>
        r := Escaped(IllegalArgument);
    }

    /** `writeToClient`, the client taking up to what `input` says. */
    method WriteToClient(s: Session, input: WriteResult) returns (r: Outcome)
      requires s.Valid()
      modifies s.Repr
      ensures s.Valid() && s.Repr == old(s.Repr) && s.destKey == old(s.destKey)
      ensures (s.View(), r) == WriteToClientStep(old(s.View()), input)
    {
      ghost var v := s.View();
      s.FlipDestToClient();
      if input == WriteFailed {
        return Escaped(IO);
      }
      var n := s.SendDestToClient(input.k);
      ghost var sent := s.destToClient.View();
      assert s.View() == v.(destToClient := sent);
      r := ClientState(n > 0, s);
      ghost var after := s.View();
      if r.Escaped? {
        return;
      }
      s.CompactDestToClient();
      assert s.View() == after.(destToClient := after.destToClient.Compacted());
    }

    /** `writeToDestination`, the destination taking up to what `input` says. */
    method WriteToDestination(s: Session, input: WriteResult) returns (r: Outcome)
      requires s.Valid()
      modifies s.Repr
      ensures s.Valid() && s.Repr == old(s.Repr) && s.destKey == old(s.destKey)
      ensures (s.View(), r) == WriteToDestinationStep(old(s.View()), input)
    {
      ghost var v := s.View();
      s.FlipClientToDest();
      if input == WriteFailed {
        return Escaped(IO);
      }
      var n := s.SendClientToDest(input.k);
      assert s.View() == v.(clientToDest := WriteFrom(v.clientToDest.Flipped(), input.k).1);
      DestinationSent(s, n > 0);
      r := Completed;
    }

    /** `writeToDestination` after the write itself. */
    method DestinationSent(s: Session, wrote: bool)
      requires s.Valid()
      modifies s.Repr
      ensures s.Valid() && s.Repr == old(s.Repr) && s.destKey == old(s.destKey)
      ensures s.View() == DestinationSentStep(old(s.View()), wrote)
    {
      ghost var v := s.View();
      if s.clientToDest.Remaining() == 0 {
        s.ClearDestInterest(OpWrite);
        if s.state == Closed {
          s.CloseDestSide();
          return;
        }
      }
      ghost var s1 := s.View();
      assert s1 == if v.clientToDest.Remaining() == 0 then v.ClearDest(OpWrite) else v;
      if wrote {
        s.AddClientInterest(OpRead);
      }
      ghost var s2 := s.View();
      assert s2 == if wrote then s1.(clientInterest := s1.clientInterest + {OpRead}) else s1;
      s.CompactClientToDest();
      assert s.View() == s2.(clientToDest := v.clientToDest.Compacted());
    }

    /**
     * `write`: the key's channel is cast to `SocketChannel` before anything else, so the
     * resolver's datagram key never reaches `sendDNSRequest`; a client key writes to the
     * client, a destination key to the destination.
     */
    method Write(key: Key, input: WriteResult) returns (r: Outcome)
      requires key.channel == SocketChannel ==> Attached(key)
      modifies if key.channel == SocketChannel then SessionFootprint(key) else {}
      ensures key.channel != SocketChannel ==> r == Escaped(ClassCast)
      ensures key.channel == SocketChannel ==> Attached(key) && SessionOf(key) == old(SessionOf(key))
      ensures SessionFootprint(key) == old(SessionFootprint(key))
      ensures key.channel == SocketChannel ==> SessionOf(key).destKey == old(SessionOf(key).destKey)
      ensures key.channel == SocketChannel ==>
                var s := old(SessionOf(key));
                s.Valid()
                && (s.View(), r) == if old(key.attachment.value.IsClient())
                                   then WriteToClientStep(old(s.View()), input)
                                   else WriteToDestinationStep(old(s.View()), input)
    {
      if key.channel != SocketChannel {
        return Escaped(ClassCast);
      }
      var attachment := key.attachment.value;
      var s := attachment.GetSocksClient();
      if attachment.IsClient() {
        r := WriteToClient(s, input);
      } else {
        assert attachment.IsDestination();
        r := WriteToDestination(s, input);
      }
    }
  }
}
