/**
 * `DnsResolver`: the transaction-id counter, the map from id to the waiting key, the output
 * buffer that queued queries share, the interest of the resolver's own datagram key, and the
 * handling of an answer. Encoding a query and decoding an answer (RFC 1035 section 4.1) are a
 * library's work and appear here only as an encoder parameter and a decoded answer.
 */
module DnsResolvers {
  import opened Wrappers
  import opened JavaTypes
  import opened Buffers
  import opened ChannelAttachments
  import opened SocksClients

  /** `MAX_MESSAGE_LENGTH`: the size of the buffer an answer is received into. */
  const MaxMessageLength: nat := 512

  /** The resource-record type of an IPv4 address (section 3.2.2 of RFC 1035). */
  const TypeA: int := 1

  /** `makeDNSMessage` as the library does it: an A query for a name under an id, or an exception. */
  type Encoder = (int, seq<byte>) -> Result<seq<byte>, JavaException>

  /** What a non-blocking `DatagramChannel.send` did: all pending bytes, none, or an `IOException`. */
  datatype SendResult = Sent | WouldBlock | SendFailed

  /** One decoded answer record: its type and, for an A record, its address. */
  datatype ResourceRecord = ResourceRecord(rtype: int, address: seq<byte>)

  /** What receiving and decoding one datagram gave: a message, or an `IOException`. */
  datatype Received = Answer(id: int, answers: seq<ResourceRecord>) | ReceiveFailed

  /** The observable state of the resolver. */
  datatype ResolverView = ResolverView(
    messageId: int,
    pending: map<int, Key>,
    output: Option<BufferView>,
    dnsInterest: set<Interest>)

  /**
   * What the class keeps true: the key wants WRITE exactly while queries are queued, always
   * wants READ, and every id handed out so far lies between 1 and the counter.
   */
  ghost predicate Consistent(r: ResolverView)
  {
    (r.output.Some? ==> r.output.value.Valid())
    && (OpWrite in r.dnsInterest <==> r.output.Some?)
    && OpRead in r.dnsInterest && r.dnsInterest <= {OpRead, OpWrite}
    && r.messageId >= 0
    && (forall id :: id in r.pending ==> 1 <= id <= r.messageId)
  }

  /** The state after construction: counter 0, nothing pending or queued, interest READ. */
  function Initial(): (r: ResolverView)
    ensures Consistent(r)
  {
    ResolverView(0, map[], None, {OpRead})
  }

  /**
   * Queuing an encoded query: with no buffer the query is wrapped; otherwise a buffer one
   * query larger is allocated and receives the old buffer's pending bytes, then the query.
   * The new buffer is returned as it was filled, not flipped.
   */
  function Enqueued(output: Option<BufferView>, message: seq<byte>): (b: BufferView)
    requires output.Some? ==> output.value.Valid()
    ensures b.Valid()
    ensures output.None? ==> b == Wrapped(message)
    ensures output.Some? ==> |b.data| == |output.value.data| + |message|
                             && b.Stored() == output.value.Pending() + message
                             && b.limit == |b.data|
  {
    if output.None? then Wrapped(message)
    else
      var queued := output.value;
      Allocated(|queued.data| + |message|).Filled(queued.Pending()).Filled(message)
  }

  /**
   * `makeDNSRequest(domain, key)`: the counter is pre-incremented, the query for `domain.` is
   * encoded under the new id, the id is mapped to the waiting key, the query is queued, and
   * the resolver's key wants READ and WRITE. An encoding exception leaves the counter bumped.
   */
  function MakeDnsRequestStep(r: ResolverView, encode: Encoder, domain: seq<byte>, key: Key): (res: (ResolverView, Outcome))
    requires r.output.Some? ==> r.output.value.Valid()
    ensures res.0.output.Some? ==> res.0.output.value.Valid()
  {
    var id := r.messageId + 1;
    match encode(id, domain + [0x2E])
    case Failure(e) => (r.(messageId := id), Escaped(e))
    case Success(message) =>
      (ResolverView(id, r.pending[id := key], Some(Enqueued(r.output, message)), {OpRead, OpWrite}), Completed)
  }

  /**
   * The buffer `makeDNSRequest` allocates has room for the queued bytes and then the query,
   * and the two puts fill it as `Enqueued` says.
   */
  lemma GrowthFits(queued: BufferView, message: seq<byte>)
    requires queued.Valid()
    ensures var empty := Allocated(|queued.data| + |message|);
            var p := empty.Put(queued.Pending());
            p.Success? && p.value.Put(message) == Success(Enqueued(Some(queued), message))
  {
  }

  /** The bytes a `send` of the output buffer transmits: its pending bytes. */
  function Datagram(r: ResolverView): seq<byte>
    requires r.output.Some? && r.output.value.Valid()
  {
    r.output.value.Pending()
  }

  /**
   * `sendDNSRequest(key)`: send the pending bytes as one datagram (or none), compact, and when
   * nothing is left stored drop the buffer and want only READ. A missing buffer is a
   * `NullPointerException`; a failed send is an `IOException` before the compact.
   */
  function SendDnsRequestStep(r: ResolverView, send: SendResult): (res: (ResolverView, Outcome))
    requires r.output.Some? ==> r.output.value.Valid()
  {
    match r.output
    case None => (r, Escaped(NullPointer))
    case Some(b) =>
      if send == SendFailed then (r, Escaped(IO))
      else
        var after := (if send == Sent then b.Skipped(b.Remaining()) else b).Compacted();
        if after.position == 0 then (r.(output := None, dnsInterest := {OpRead}), Completed)
        else (r.(output := Some(after)), Completed)
  }

  /**
   * The index of the first A record among the answers, if any: the loop in `readDNSMessage`
   * that stops at the first record of type A.
   */
  function FirstARecord(answers: seq<ResourceRecord>): (i: Option<nat>)
    ensures i.Some? ==> i.value < |answers| && answers[i.value].rtype == TypeA
                        && forall j :: 0 <= j < i.value ==> answers[j].rtype != TypeA
    ensures i.None? ==> forall j :: 0 <= j < |answers| ==> answers[j].rtype != TypeA
  {
    if answers == [] then None
    else if answers[0].rtype == TypeA then Some(0)
    else
      var rest := FirstARecord(answers[1..]);
      if rest.None? then None else Some(rest.value + 1)
  }

  /**
   * `readDNSMessage(key)`: receive and decode one answer, find its first A record and resume
   * `connect` with the session of the key's attachment and the resolver's own port. The
   * resolver's attachment holds no session, so resuming is a `NullPointerException`; with no A
   * record, reading the record's address is one too. A receive or decode failure is an
   * `IOException`. The decoded id is never looked up, and nothing pending is removed.
   */
  function ReadDnsMessageStep(received: Received, session: Option<Session>): (o: Outcome)
  {
    match received
    case ReceiveFailed => Escaped(IO)
    case Answer(_, answers) =>
      if FirstARecord(answers).None? || session.None? then Escaped(NullPointer) else Completed
  }

  /**
   * The target `readDNSMessage` would resume with: the first A record's address and the port
   * of the upstream resolver, not the port the client asked for.
   */
  function ResumeTarget(answers: seq<ResourceRecord>, upstream: SocketAddress): (t: Option<SocketAddress>)
    ensures t.Some? <==> FirstARecord(answers).Some?
    ensures t.Some? ==> t.value.port == upstream.port
                        && t.value.address == answers[FirstARecord(answers).value].address
  {
    var i := FirstARecord(answers);
    if i.None? then None else Some(SocketAddress(answers[i.value].address, upstream.port))
  }

  /** Each query gets the next id, that id is mapped to its key, and every other entry stays. */
  lemma MakeRequestBookkeeping(r: ResolverView, encode: Encoder, domain: seq<byte>, key: Key)
    requires Consistent(r)
    requires encode(r.messageId + 1, domain + [0x2E]).Success?
    ensures var (r2, o) := MakeDnsRequestStep(r, encode, domain, key);
            o == Completed && r2.messageId == r.messageId + 1
            && r2.pending == r.pending[r.messageId + 1 := key]
            && r.messageId + 1 !in r.pending
            && r2.dnsInterest == {OpRead, OpWrite}
  {
  }

  /** Every step keeps the resolver consistent. */
  lemma StepsKeepConsistent(r: ResolverView, encode: Encoder, domain: seq<byte>, key: Key, send: SendResult)
    requires Consistent(r)
    ensures Consistent(MakeDnsRequestStep(r, encode, domain, key).0)
    ensures Consistent(SendDnsRequestStep(r, send).0)
  {
  }

  /** No step ever removes or changes a pending entry. */
  lemma PendingOnlyGrows(r: ResolverView, encode: Encoder, domain: seq<byte>, key: Key, send: SendResult)
    requires Consistent(r)
    ensures var p := MakeDnsRequestStep(r, encode, domain, key).0.pending;
            forall id :: id in r.pending ==> id in p && p[id] == r.pending[id]
    ensures SendDnsRequestStep(r, send).0.pending == r.pending
  {
  }

  /** Issuing a run of requests, each to the key paired with its domain. */
  function MakeAll(r: ResolverView, encode: Encoder, requests: seq<(seq<byte>, Key)>): (r2: ResolverView)
    requires Consistent(r)
    ensures Consistent(r2)
    decreases requests
  {
    if requests == [] then r
    else
      StepsKeepConsistent(r, encode, requests[0].0, requests[0].1, Sent);
      MakeAll(MakeDnsRequestStep(r, encode, requests[0].0, requests[0].1).0, encode, requests[1..])
  }

  /**
   * From any consistent state, a run of requests advances the counter by one per request,
   * whether or not it encodes; from the initial state the first query is id 1.
   */
  lemma {:induction false} CounterAdvances(r: ResolverView, encode: Encoder, requests: seq<(seq<byte>, Key)>)
    requires Consistent(r)
    ensures MakeAll(r, encode, requests).messageId == r.messageId + |requests|
    decreases requests
  {
    if requests != [] {
      StepsKeepConsistent(r, encode, requests[0].0, requests[0].1, Sent);
      CounterAdvances(MakeDnsRequestStep(r, encode, requests[0].0, requests[0].1).0, encode, requests[1..]);
    }
  }

  /** When every query of a run encodes, the i-th request waits under id counter+i+1. */
  lemma {:induction false} IdsAreSequential(r: ResolverView, encode: Encoder, requests: seq<(seq<byte>, Key)>)
    requires Consistent(r)
    requires forall i :: 0 <= i < |requests| ==> encode(r.messageId + i + 1, requests[i].0 + [0x2E]).Success?
    ensures forall id :: r.messageId < id <= r.messageId + |requests| ==>
              id in MakeAll(r, encode, requests).pending
              && MakeAll(r, encode, requests).pending[id] == requests[id - r.messageId - 1].1
    decreases requests
  {
    if requests != [] {
      var (r1, _) := MakeDnsRequestStep(r, encode, requests[0].0, requests[0].1);
      StepsKeepConsistent(r, encode, requests[0].0, requests[0].1, Sent);
      var rest := requests[1..];
      assert encode(r.messageId + 1, requests[0].0 + [0x2E]).Success?;
      assert r1.messageId == r.messageId + 1;
      forall i | 0 <= i < |rest|
        ensures encode(r1.messageId + i + 1, rest[i].0 + [0x2E]).Success?
      {
        assert rest[i] == requests[i + 1];
      }
      IdsAreSequential(r1, encode, rest);
      var final := MakeAll(r, encode, requests);
      assert final == MakeAll(r1, encode, rest);
      forall id | r.messageId < id <= r.messageId + |requests|
        ensures id in final.pending && final.pending[id] == requests[id - r.messageId - 1].1
      {
        if id == r.messageId + 1 {
          PendingKept(r1, encode, rest, id);
        } else {
          assert rest[id - r1.messageId - 1] == requests[id - r.messageId - 1];
        }
      }
    }
  }

  /** An entry present before a run of requests is still there, unchanged, after it. */
  lemma {:induction false} PendingKept(r: ResolverView, encode: Encoder, requests: seq<(seq<byte>, Key)>, id: int)
    requires Consistent(r) && id in r.pending
    ensures id in MakeAll(r, encode, requests).pending
    ensures MakeAll(r, encode, requests).pending[id] == r.pending[id]
    decreases requests
  {
    if requests != [] {
      PendingOnlyGrows(r, encode, requests[0].0, requests[0].1, Sent);
      StepsKeepConsistent(r, encode, requests[0].0, requests[0].1, Sent);
      PendingKept(MakeDnsRequestStep(r, encode, requests[0].0, requests[0].1).0, encode, requests[1..], id);
    }
  }

  /**
   * Queuing onto a non-empty output buffer leaves the new buffer in write mode: what a send
   * then transmits is its unwritten tail, all zeros, and neither query is sent.
   */
  lemma CoalescedQueriesAreNotSent(r: ResolverView, encode: Encoder, domain: seq<byte>, key: Key)
    requires Consistent(r) && r.output.Some?
    requires encode(r.messageId + 1, domain + [0x2E]).Success?
    ensures var r2 := MakeDnsRequestStep(r, encode, domain, key).0;
            r2.output.Some? && r2.output.value.Valid()
            && Datagram(r2) == Zeros(|r.output.value.data| - r.output.value.Remaining())
  {
    EnqueuedLeavesZeros(r.output.value, encode(r.messageId + 1, domain + [0x2E]).value);
  }

  /** Past the copied bytes and the query, the grown buffer holds only the zeros it was allocated with. */
  lemma EnqueuedLeavesZeros(queued: BufferView, message: seq<byte>)
    requires queued.Valid()
    ensures var b := Enqueued(Some(queued), message);
            b.data[b.position..] == Zeros(|queued.data| - queued.Remaining())
  {
    var empty := Allocated(|queued.data| + |message|);
    var copied := empty.Filled(queued.Pending());
    var b := copied.Filled(message);
    var tail := b.data[b.position..];
    assert tail == empty.data[queued.Remaining() + |message|..];
  }

  /** A send that goes through always empties the queue and leaves only READ wanted. */
  lemma SentClearsQueue(r: ResolverView)
    requires Consistent(r) && r.output.Some?
    ensures SendDnsRequestStep(r, Sent) == (r.(output := None, dnsInterest := {OpRead}), Completed)
  {
  }

  /**
   * A freshly wrapped query that cannot be sent at once is compacted to the end of its
   * buffer, so the next send transmits nothing and the query is dropped.
   */
  lemma WouldBlockDropsQuery(r: ResolverView, message: seq<byte>)
    requires Consistent(r) && r.output == Some(Wrapped(message)) && message != []
    ensures var r2 := SendDnsRequestStep(r, WouldBlock).0;
            r2.output.Some? && Datagram(r2) == []
            && SendDnsRequestStep(r2, Sent).0.output.None?
  {
  }

  /** Whatever arrives, reading an answer never resumes a session: it always escapes. */
  lemma AnswersNeverResume(received: Received)
    ensures ReadDnsMessageStep(received, None).Escaped?
    ensures received.Answer? ==> ReadDnsMessageStep(received, None) == Escaped(NullPointer)
  {
  }

  class DnsResolver {
    var messageId: int
    var pending: map<int, Key>
    var output: ByteBuffer?
    const dnsKey: Key
    const upstream: SocketAddress
    const encode: Encoder
    ghost var Repr: set<object>

    /** The resolver owns its key and its output buffer with the buffer's array. */
    ghost predicate Owns()
      reads this, Repr
    {
      this in Repr && dnsKey in Repr
      && (output != null ==> output in Repr && output.data in Repr && output.Valid())
    }

    /** The resolver as a value. */
    ghost function View(): (v: ResolverView)
      reads this, Repr
      requires Owns()
      ensures v.output.Some? ==> v.output.value.Valid()
    {
      ResolverView(messageId, pending, if output == null then None else Some(output.View()), dnsKey.interest)
    }

    /** The resolver's key carries the DNS role and no session, and the state is consistent. */
    ghost predicate Valid()
      reads this, Repr
    {
      Owns() && dnsKey.attachment == Attachment(null, Dns) && Consistent(View())
    }

    /**
     * `new DnsResolver(selector, address)`: a datagram key registered for READ with a
     * session-less DNS attachment; counter 0, nothing pending or queued.
     */
    constructor (upstream: SocketAddress, encode: Encoder)
      ensures Valid() && fresh(Repr)
      ensures View() == Initial() && this.upstream == upstream && this.encode == encode
      ensures dnsKey.channel == DatagramChannel
    {
      var key := new Key.Register(DatagramChannel, {OpRead});
      key.attachment := Attachment(null, Dns);
      dnsKey := key;
      messageId := 0;
      pending := map[];
      output := null;
      this.upstream := upstream;
      this.encode := encode;
      new;
      Repr := {this, key};
    }

    /** `makeDNSRequest(domain, key)`. */
    method MakeDnsRequest(domain: seq<byte>, key: Key) returns (r: Outcome)
      requires Valid()
      modifies Repr
      ensures Valid() && fresh(Repr - old(Repr))
      ensures (View(), r) == MakeDnsRequestStep(old(View()), encode, domain, key)
    {
      ghost var v := View();
      StepsKeepConsistent(v, encode, domain, key, WouldBlock);
      messageId := messageId + 1;
      var message := encode(messageId, domain + [0x2E]);
      if message.Failure? {
        assert View() == MakeDnsRequestStep(v, encode, domain, key).0;
        return Escaped(message.error);
      }
      QueueQuery(key, message.value);
      assert View() == MakeDnsRequestStep(v, encode, domain, key).0;
      r := Completed;
    }

    /** The query under the current id: its session waits for the answer, the bytes are queued. */
    method QueueQuery(key: Key, message: seq<byte>)
      requires Owns()
      modifies Repr
      ensures Owns() && fresh(Repr - old(Repr))
      ensures dnsKey.attachment == old(dnsKey.attachment)
      ensures View() == ResolverView(old(messageId), old(pending)[old(messageId) := key],
                                     Some(Enqueued(old(View()).output, message)), {OpRead, OpWrite})
    {
      pending := pending[messageId := key];
      Enqueue(message);
      dnsKey.interest := {OpRead, OpWrite};
    }

    /** Queues an encoded query in a new output buffer, as `makeDNSRequest` does. */
    method Enqueue(message: seq<byte>)
      requires Owns()
      modifies Repr
      ensures Owns() && fresh(Repr - old(Repr)) && output != null
      ensures output.View() == Enqueued(if old(output) == null then None else Some(old(output.View())), message)
      ensures messageId == old(messageId) && pending == old(pending)
      ensures dnsKey.interest == old(dnsKey.interest) && dnsKey.attachment == old(dnsKey.attachment)
    {
      if output != null {
        var grown := Grow(output, message);
        output := grown;
        Repr := Repr + {grown, grown.data};
      } else {
        var wrapped := new ByteBuffer.Wrap(message);
        output := wrapped;
        Repr := Repr + {wrapped, wrapped.data};
      }
    }

    /**
     * A buffer one query larger than `queued`, holding its pending bytes and then `message`;
     * `queued` is drained by the copy.
     */
    static method Grow(queued: ByteBuffer, message: seq<byte>) returns (grown: ByteBuffer)
      requires queued.Valid()
      modifies queued
      ensures fresh(grown) && fresh(grown.data) && grown.Valid()
      ensures grown.View() == Enqueued(Some(old(queued.View())), message)
    {
      ghost var v := queued.View();
      GrowthFits(v, message);
      grown := new ByteBuffer.Allocate(queued.data.Length + |message|);
      var _ := grown.PutBuffer(queued);
      var _ := grown.Put(message);
    }

    /** `sendDNSRequest(key)`, with the outcome of `send` given. */
    method SendDnsRequest(key: Key, send: SendResult) returns (r: Outcome)
      requires Valid() && key == dnsKey
      modifies Repr
      ensures Valid() && Repr == old(Repr)
      ensures (View(), r) == SendDnsRequestStep(old(View()), send)
    {
      if output == null {
        return Escaped(NullPointer);
      }
      if send == SendFailed {
        return Escaped(IO);
      }
      ghost var v := View();
      FlushOutput(send);
      assert Owns() && View() == v.(output := Some(output.View()));
      if output.position == 0 {
        output := null;
        key.interest := {OpRead};
      }
      r := Completed;
    }

    /** `send` of the output buffer's pending bytes, all or none, then `compact()`. */
    method FlushOutput(send: SendResult)
      requires Owns() && output != null && send != SendFailed
      modifies output, output.data
      ensures Owns() && output == old(output)
      ensures var b := old(output.View());
              output.View() == (if send == Sent then b.Skipped(b.Remaining()) else b).Compacted()
    {
      if send == Sent {
        output.position := output.limit;
      }
      output.Compact();
    }

    /** The loop of `readDNSMessage` over the answer section. */
    method FindARecord(answers: seq<ResourceRecord>) returns (found: Option<nat>)
      ensures found == FirstARecord(answers)
    {
      var i := 0;
      while i < |answers|
        invariant 0 <= i <= |answers|
        invariant forall j :: 0 <= j < i ==> answers[j].rtype != TypeA
      {
        if answers[i].rtype == TypeA {
          FirstARecordIs(answers, i);
          return Some(i);
        }
        i := i + 1;
      }
      FirstARecordIs(answers, |answers|);
      found := None;
    }

    /** `readDNSMessage(key)`, with what `receive` delivered given. */
    method ReadDnsMessage(key: Key, received: Received) returns (r: Outcome)
      requires Valid() && key == dnsKey
      ensures r == ReadDnsMessageStep(received, None)
    {
      if received.ReceiveFailed? {
        return Escaped(IO);
      }
      var found := FindARecord(received.answers);
      if found.None? {
        return Escaped(NullPointer);
      }
      var session := key.attachment.value.GetSocksClient();
      assert session == null;
      r := Escaped(NullPointer);
    }
  }

  /** The first A record is at `i` when none comes before it and `i` is one or the end. */
  lemma {:induction false} FirstARecordIs(answers: seq<ResourceRecord>, i: nat)
    requires i <= |answers| && forall j :: 0 <= j < i ==> answers[j].rtype != TypeA
    requires i < |answers| ==> answers[i].rtype == TypeA
    ensures FirstARecord(answers) == if i < |answers| then Some(i) else None
  {
    if answers != [] && answers[0].rtype != TypeA {
      FirstARecordIs(answers[1..], i - 1);
    }
  }
}
