# A verified model of a non-blocking SOCKS5 proxy

This project models the core of a single-threaded SOCKS5 proxy (RFC 1928, CONNECT only). The
proxy is written in Java on `java.nio` selectors. The model covers three layers:

- **The wire codecs.** The address-type, command and reply-status enumerations; the client's
  method-selection greeting and the server's two-byte answer; the connection request parser
  and the reply serialiser. The parsers work as the Java constructors do, on a caller-owned
  `ByteBuffer`: `flip`, consume byte by byte, `compact` on success. They are methods on a
  `ByteBuffer` class. Each is proved equal to a pure parse function, and the codec's
  properties (layout, failure kinds, trailing bytes kept, reply re-parsing) are proved of
  those functions.
- **The per-session relay state machine.** The seven session states, the close-after-send
  flag, the two relay buffers and the interest sets of the client and destination keys. The
  handlers are `ChannelReader`, `ChannelWriter`, and `Proxy`'s `accept`, `connect` and
  `processSelectedKeys`. Each handler is a method on `Session`/`Key` objects whose new state
  is a step function of the old one. Lemmas about the step functions state what each branch
  does. `Settled` is the protocol invariant that every handler keeps: a destination key exists
  only once the session has left the greeting and request states.
- **The resolver's bookkeeping.** The transaction-id counter, the map from id to waiting key,
  the shared output buffer, the resolver key's interest, and the choice of the first A record.

The model takes the code as written wherever it departs from the protocol, and proves what
actually happens:

- A greeting count byte or a domain length byte of 0x80 or more is negative to Java.
- A port of 0x8000 or more parses negative, and `new InetSocketAddress` then rejects it.
- Replies are always typed IPv4.
- A query queued behind another is stored in a buffer that is never flipped, so the next
  send transmits zeros.
- The resolver's own key carries no session, so an answer can never resume a connection.
- `read` and `write` cast the key's channel to `SocketChannel` before looking at its role.
  The resolver's datagram key therefore ends in `ClassCastException`, and the DNS send and
  receive paths are not reachable from the dispatcher. They are modelled as operations of
  `DnsResolver` in their own right.

Platform behaviour enters as parameters:
- what each socket read, write, `finishConnect`, channel open and datagram send does;
- the synchronous lookup's result and `getLocalHost()`;
- the DNS encoder.

Java's exceptions are a datatype. A handler's result records whether an exception escaped it.

`SocksClient`, `AuthMethod` and `ChannelRole` are not part of this model. The session's fields
come from the getters and setters the handlers call. `getClientGreeting()` and
`getClientConnectionRequest()` are modelled as the greeting and request parsing constructors
applied to the client-to-destination buffer; this is an assumption, since their bodies are
not available. The two close operations are counted, not performed.

Files, one module each: `wrappers`, `java_types`, `byte_buffer`, `address_type`,
`request_code`, `response_code`, `greeting_message`, `connection_msg`, `channel_attachment`,
`socks_client`, `dns_resolver`, `channel_reader`, `channel_writer`, `proxy`.

## Model

| member | source | states |
|---|---|---|
| AddressTypes.ValuesMatchRfc1928 | src/main/java/ru/nsu/g/akononov/proxy/messages/connectionMessages/AddressType.java:4-6 | IPv4 is 0x01, domain name 0x03 and IPv6 0x04, the ATYP values of RFC 1928 section 5 |
| AddressTypes.ByValue | src/main/java/ru/nsu/g/akononov/proxy/messages/connectionMessages/AddressType.java:34-42 | a byte yields a type exactly when some type was declared with it, and then that type; otherwise `IllegalArgumentException` |
| AddressTypes.GetByValue | src/main/java/ru/nsu/g/akononov/proxy/messages/connectionMessages/AddressType.java:34-42 | the linear search over `values()` returns the first type declared with the byte, or throws `IllegalArgumentException` when none is, i.e. exactly `ByValue` |
| AddressTypes.ByValueOfValue | src/main/java/ru/nsu/g/akononov/proxy/messages/connectionMessages/AddressType.java:34-42 | looking a type up by its own byte gives the type back |
| AddressTypes.ByValueRejectsOthers | src/main/java/ru/nsu/g/akononov/proxy/messages/connectionMessages/AddressType.java:41 | every byte other than 0x01, 0x03 and 0x04 is rejected with `IllegalArgumentException` |
| AddressTypes.SizeOfIpTypes | src/main/java/ru/nsu/g/akononov/proxy/messages/connectionMessages/AddressType.java:20-23 | `getSize` is 4 for IPv4 and 16 for IPv6, whatever domain is passed |
| AddressTypes.SizeOfDomainName | src/main/java/ru/nsu/g/akononov/proxy/messages/connectionMessages/AddressType.java:24-28 | for a domain name `getSize(d)` is the length of `d` plus one, and `getSize(null)` throws `IllegalArgumentException` |
| RequestCodes.ValuesMatchRfc1928 | src/main/java/ru/nsu/g/akononov/proxy/messages/connectionMessages/RequestCode.java:9-11 | CONNECT is 0x01, BIND 0x02 and UDP ASSOCIATE 0x03, the CMD values of RFC 1928 section 4 |
| RequestCodes.ValuesDistinct | src/main/java/ru/nsu/g/akononov/proxy/messages/connectionMessages/RequestCode.java:15-16 | no two commands share a byte, so building the lookup map meets no duplicate key |
| RequestCodes.ByValue | src/main/java/ru/nsu/g/akononov/proxy/messages/connectionMessages/RequestCode.java:18-20 | a lookup finds a command exactly when one has that byte, and otherwise gives null instead of throwing |
| RequestCodes.ByValueOfValue | src/main/java/ru/nsu/g/akononov/proxy/messages/connectionMessages/RequestCode.java:15-20 | looking a command up by its own byte gives the command back |
| RequestCodes.ByValueOfOthers | src/main/java/ru/nsu/g/akononov/proxy/messages/connectionMessages/RequestCode.java:18-20 | any byte other than 0x01, 0x02 and 0x03 looks up to null |
| ResponseCodes.ValuesMatchRfc1928 | src/main/java/ru/nsu/g/akononov/proxy/messages/connectionMessages/ResponseCode.java:4-6 | granted is 0x00, host unreachable 0x04 and command not supported 0x07, the REP values of RFC 1928 section 6 |
| ResponseCodes.ValuesDistinct | src/main/java/ru/nsu/g/akononov/proxy/messages/connectionMessages/ResponseCode.java:4-16 | no two status codes share a byte |
| ChannelAttachments.ChannelAttachment.GetSocksClient | src/main/java/ru/nsu/g/akononov/proxy/channelAttacments/ChannelAttachment.java:9-16 | the session returned is the one the attachment was built with: rebuilding from it and the role gives the same attachment |
| ChannelAttachments.RolePredicates | src/main/java/ru/nsu/g/akononov/proxy/channelAttacments/ChannelAttachment.java:18-28 | each role predicate holds exactly for its role, and exactly one of the three holds for any attachment |
| JavaTypes.Signed | src/main/java/ru/nsu/g/akononov/proxy/messages/greetingMessage/GreetingMessage.java:22-24 | Java's reading of a byte lies in -128..127, agrees with the byte modulo 256, and is negative exactly for 0x80 and above |
| JavaTypes.ShortBytes | src/main/java/ru/nsu/g/akononov/proxy/messages/connectionMessages/ConnectionMsg.java:44 | `putShort((short) port)` writes two bytes whose big-endian value is the port modulo 65536 |
| JavaTypes.SignedShort | src/main/java/ru/nsu/g/akononov/proxy/messages/connectionMessages/ConnectionMsg.java:77 | `getShort()` gives a value in -32768..32767 that agrees with the two bytes read big-endian modulo 65536 |
| JavaTypes.ShortRoundTrip | src/main/java/ru/nsu/g/akononov/proxy/messages/connectionMessages/ConnectionMsg.java:44 | a port written by `putShort` reads back as itself below 32768 and as port - 65536 from 32768 on |
| Buffers.BufferView.Compacted | src/main/java/ru/nsu/g/akononov/proxy/messages/greetingMessage/GreetingMessage.java:34 | after `compact()` the stored bytes are exactly the previously pending ones, at the front, and the whole capacity is writable |
| Buffers.BufferView.Put | src/main/java/ru/nsu/g/akononov/proxy/channelReader/ChannelReader.java:135 | a bulk put succeeds exactly when the bytes fit, appending them to what is stored; otherwise `BufferOverflowException` and nothing changes |
| Buffers.BufferView.Get | src/main/java/ru/nsu/g/akononov/proxy/messages/greetingMessage/GreetingMessage.java:21 | `get()` yields the first pending byte and consumes it, or throws `BufferUnderflowException` having consumed nothing |
| Buffers.BufferView.GetBytes | src/main/java/ru/nsu/g/akononov/proxy/messages/connectionMessages/ConnectionMsg.java:61 | a bulk get of n bytes yields the next n pending bytes and consumes them, or underflows having consumed nothing |
| Buffers.BufferView.GetShort | src/main/java/ru/nsu/g/akononov/proxy/messages/connectionMessages/ConnectionMsg.java:77 | `getShort()` yields the next two pending bytes as a signed big-endian short and consumes them, or underflows having consumed nothing |
| Buffers.AfterParse | src/main/java/ru/nsu/g/akononov/proxy/messages/connectionMessages/ConnectionMsg.java:48-79 | a parsing constructor on a buffer in write mode: on success the bytes after the message are stored at the front of a buffer in write mode; on an exception the buffer stays flipped, positioned after what was consumed |
| Buffers.ReadInto | src/main/java/ru/nsu/g/akononov/proxy/channelReader/ChannelReader.java:86 | a channel read stores as many offered bytes as fit after what is stored and reports that count |
| Buffers.WriteFrom | src/main/java/ru/nsu/g/akononov/proxy/channelWriter/ChannelWriter.java:41 | a channel write consumes as many pending bytes as the peer takes and reports that count |
| Buffers.FlipSendCompact | src/main/java/ru/nsu/g/akononov/proxy/channelWriter/ChannelWriter.java:40-66 | flip, a write of k bytes, then compact leaves exactly the unsent bytes stored, at the front in their original order, with the whole capacity writable |
| Buffers.BufferView.Flipped | src/main/java/ru/nsu/g/akononov/proxy/messages/greetingMessage/GreetingMessage.java:19 | `flip()` exposes exactly the stored bytes as pending, over the same array |
| Buffers.BufferView.Skipped | src/main/java/ru/nsu/g/akononov/proxy/channelWriter/ChannelWriter.java:41 | consuming k pending bytes leaves the rest pending, over the same array and limit |
| Buffers.BufferView.Filled | src/main/java/ru/nsu/g/akononov/proxy/channelReader/ChannelReader.java:86 | writing bytes that fit appends them to what is stored and leaves the rest of the array alone |
| Buffers.Transferred | src/main/java/ru/nsu/g/akononov/proxy/channelReader/ChannelReader.java:86 | a transfer moves no more than is offered and no more than fits, and stops only when one of the two runs out |
| Buffers.Allocated | src/main/java/ru/nsu/g/akononov/proxy/dnsResolver/DnsResolver.java:59 | a freshly allocated buffer stores nothing and all of its n bytes are writable |
| Buffers.Wrapped | src/main/java/ru/nsu/g/akononov/proxy/dnsResolver/DnsResolver.java:61 | a wrapped array is pending in full, up to its end |
| Buffers.ByteBuffer.Allocate | src/main/java/ru/nsu/g/akononov/proxy/dnsResolver/DnsResolver.java:59 | `ByteBuffer.allocate(n)` is an empty buffer whose whole capacity n is writable |
| Buffers.ByteBuffer.Wrap | src/main/java/ru/nsu/g/akononov/proxy/dnsResolver/DnsResolver.java:61 | `ByteBuffer.wrap(bytes)` exposes exactly those bytes as pending |
| Buffers.ByteBuffer.Flip | src/main/java/ru/nsu/g/akononov/proxy/messages/greetingMessage/GreetingMessage.java:19 | `flip()` makes what was stored pending |
| Buffers.ByteBuffer.Compact | src/main/java/ru/nsu/g/akononov/proxy/messages/greetingMessage/GreetingMessage.java:34 | the copying loop of `compact()` moves the pending bytes to the front in order, as `Compacted` says |
| Buffers.ByteBuffer.Get | src/main/java/ru/nsu/g/akononov/proxy/messages/greetingMessage/GreetingMessage.java:21 | relative `get()` on the array behaves as `BufferView.Get` |
| Buffers.ByteBuffer.GetBytes | src/main/java/ru/nsu/g/akononov/proxy/messages/connectionMessages/ConnectionMsg.java:60-61 | relative bulk `get` on the array behaves as `BufferView.GetBytes` |
| Buffers.ByteBuffer.GetShort | src/main/java/ru/nsu/g/akononov/proxy/messages/connectionMessages/ConnectionMsg.java:77 | relative `getShort()` on the array behaves as `BufferView.GetShort` |
| Buffers.ByteBuffer.Put | src/main/java/ru/nsu/g/akononov/proxy/channelReader/ChannelReader.java:135 | bulk `put` on the array behaves as `BufferView.Put`: appended when it fits, overflow with nothing written otherwise |
| Buffers.ByteBuffer.PutBuffer | src/main/java/ru/nsu/g/akononov/proxy/dnsResolver/DnsResolver.java:59 | `put(src)` appends the pending bytes of `src` and drains `src`, or overflows with neither buffer changed |
| Buffers.ByteBuffer.ReceiveFrom | src/main/java/ru/nsu/g/akononov/proxy/channelReader/ChannelReader.java:86 | a channel read into the buffer behaves as `ReadInto` |
| Buffers.ByteBuffer.SendUpTo | src/main/java/ru/nsu/g/akononov/proxy/channelWriter/ChannelWriter.java:41 | a channel write from the buffer behaves as `WriteFrom` |
| GreetingMessages.AuthByValue | src/main/java/ru/nsu/g/akononov/proxy/messages/greetingMessage/GreetingMessage.java:28-32 | a method byte decodes to a method exactly when that method has this byte, and otherwise to null |
| GreetingMessages.AnyMethod | src/main/java/ru/nsu/g/akononov/proxy/messages/greetingMessage/GreetingMessage.java:40 | the method the answer names is one of the methods in the set |
| GreetingMessages.ToByteResponse | src/main/java/ru/nsu/g/akononov/proxy/messages/greetingMessage/GreetingMessage.java:37-43 | the answer is the version then the byte of one method in the set; an empty set throws on `toArray()[0]` |
| GreetingMessages.SingleMethodResponse | src/main/java/ru/nsu/g/akononov/proxy/messages/greetingMessage/GreetingMessage.java:12-43 | a message built from one method answers exactly `[version, method]` |
| GreetingMessages.DecodeMethodsMembers | src/main/java/ru/nsu/g/akononov/proxy/messages/greetingMessage/GreetingMessage.java:27-33 | a method is in the decoded set exactly when some listed byte decodes to it: unknown bytes are skipped and duplicates merge |
| GreetingMessages.ParseGreeting | src/main/java/ru/nsu/g/akononov/proxy/messages/greetingMessage/GreetingMessage.java:19-33 | the parse of the exposed bytes never consumes more than there are; its shape is stated by the lemmas below |
| GreetingMessages.GreetingHeader | src/main/java/ru/nsu/g/akononov/proxy/messages/greetingMessage/GreetingMessage.java:21-26 | the header parses to the version byte as sent and the count byte read as a non-negative signed value, after exactly two bytes |
| GreetingMessages.GreetingLayout | src/main/java/ru/nsu/g/akononov/proxy/messages/greetingMessage/GreetingMessage.java:19-33 | a greeting parses exactly when the count byte is below 0x80 and all announced methods are present; it then consumes the version, the count and those methods, and keeps the version unchecked |
| GreetingMessages.NegativeCountIsRuntime | src/main/java/ru/nsu/g/akononov/proxy/messages/greetingMessage/GreetingMessage.java:22-26 | a count byte of 0x80 or more raises `RuntimeException` after two bytes |
| GreetingMessages.GreetingFailures | src/main/java/ru/nsu/g/akononov/proxy/messages/greetingMessage/GreetingMessage.java:17-35 | a failure is `BufferUnderflowException` exactly when bytes are missing, and otherwise the negative-count `RuntimeException` |
| GreetingMessages.GreetingIgnoresTrailing | src/main/java/ru/nsu/g/akononov/proxy/messages/greetingMessage/GreetingMessage.java:19-33 | bytes after a complete greeting change neither the greeting nor how much is consumed |
| GreetingMessages.HasAuthMethodOfParsed | src/main/java/ru/nsu/g/akononov/proxy/messages/greetingMessage/GreetingMessage.java:49-51 | after a parse, `hasAuthMethod(m)` holds exactly when one of the announced method bytes decodes to m |
| GreetingMessages.GreetingFromBuffer | src/main/java/ru/nsu/g/akononov/proxy/messages/greetingMessage/GreetingMessage.java:17-35 | the constructor on a buffer keeps its capacity and leaves it valid |
| GreetingMessages.GreetingLeavesTrailingBytes | src/main/java/ru/nsu/g/akononov/proxy/messages/greetingMessage/GreetingMessage.java:17-35 | after a successful parse exactly the bytes that followed the greeting are stored, at the front of a buffer in write mode |
| GreetingMessages.ReadMethods | src/main/java/ru/nsu/g/akononov/proxy/messages/greetingMessage/GreetingMessage.java:27-33 | the loop reads n method bytes one `get()` at a time, yielding the decoded set; too few bytes throw after consuming everything pending |
| GreetingMessages.ReadGreetingHeader | src/main/java/ru/nsu/g/akononov/proxy/messages/greetingMessage/GreetingMessage.java:21-26 | the first two `get()`s and the sign check consume and yield what `GreetingHeader` says |
| GreetingMessages.ReadGreetingFields | src/main/java/ru/nsu/g/akononov/proxy/messages/greetingMessage/GreetingMessage.java:21-33 | the reads of the constructor consume and yield exactly what `ParseGreeting` says |
| GreetingMessages.ReadGreeting | src/main/java/ru/nsu/g/akononov/proxy/messages/greetingMessage/GreetingMessage.java:17-35 | the constructor on the caller's buffer (flip, reads, compact on success) yields the greeting and leaves the buffer as `GreetingFromBuffer` says |
| GreetingMessages.NoAuthGreeting | src/main/java/ru/nsu/g/akononov/proxy/messages/greetingMessage/GreetingMessage.java:17-35 | `05 01 00` offers exactly no-authentication and is consumed whole |
| ConnectionMessages.Reply | src/main/java/ru/nsu/g/akononov/proxy/messages/connectionMessages/ConnectionMsg.java:18-25 | the address constructor leaves the domain and the command null |
| ConnectionMessages.GetRequestCommand | src/main/java/ru/nsu/g/akononov/proxy/messages/connectionMessages/ConnectionMsg.java:89-94 | the command is returned when present; a null command throws `UnsupportedOperationException` |
| ConnectionMessages.ReplyLayout | src/main/java/ru/nsu/g/akononov/proxy/messages/connectionMessages/ConnectionMsg.java:27-46 | a reply whose address has its type's length is exactly `[VER][REP][0x00][ATYP][address][port high][port low]`, six bytes longer than the address |
| ConnectionMessages.Ipv4ReplyIsTenBytes | src/main/java/ru/nsu/g/akononov/proxy/messages/connectionMessages/ConnectionMsg.java:27-46 | an IPv4 reply is ten bytes: header, the four address bytes, the port's low 16 bits big-endian |
| ConnectionMessages.DomainNameReplyThrows | src/main/java/ru/nsu/g/akononov/proxy/messages/connectionMessages/ConnectionMsg.java:18-28 | a reply typed domain name always throws `IllegalArgumentException`, since the address constructor leaves the domain null |
| ConnectionMessages.ReplyAddressLengthMismatch | src/main/java/ru/nsu/g/akononov/proxy/messages/connectionMessages/ConnectionMsg.java:28-45 | the buffer is sized by the type: a longer address overflows it and a shorter one leaves zeros at the end |
| ConnectionMessages.AddressLength | src/main/java/ru/nsu/g/akononov/proxy/messages/connectionMessages/ConnectionMsg.java:66 | the length read for an IP address is `getSize(null)` of its type |
| ConnectionMessages.ParseHeader | src/main/java/ru/nsu/g/akononov/proxy/messages/connectionMessages/ConnectionMsg.java:50-56 | the header consumes at most four bytes, and exactly four when it parses |
| ConnectionMessages.ParseAddress | src/main/java/ru/nsu/g/akononov/proxy/messages/connectionMessages/ConnectionMsg.java:58-76 | the address never consumes more than the bytes exposed |
| ConnectionMessages.ParseRequest | src/main/java/ru/nsu/g/akononov/proxy/messages/connectionMessages/ConnectionMsg.java:48-79 | a parsed request carries its target: a domain for a domain name, an address otherwise |
| ConnectionMessages.ParseTarget | src/main/java/ru/nsu/g/akononov/proxy/messages/connectionMessages/ConnectionMsg.java:58-77 | the address and port part yields a message that carries its target |
| ConnectionMessages.RequestFields | src/main/java/ru/nsu/g/akononov/proxy/messages/connectionMessages/ConnectionMsg.java:48-79 | a parsed request holds the version as sent, the command looked up (null when unknown), a zero reserved byte, the type its byte names, the address or the length-prefixed domain, and the signed port from the last two bytes |
| ConnectionMessages.ReservedMustBeZero | src/main/java/ru/nsu/g/akononov/proxy/messages/connectionMessages/ConnectionMsg.java:53-55 | a reserved byte other than 0x00 is rejected with `IllegalArgumentException` |
| ConnectionMessages.UnknownAddressType | src/main/java/ru/nsu/g/akononov/proxy/messages/connectionMessages/ConnectionMsg.java:56 | an unknown address-type byte is rejected with `IllegalArgumentException` |
| ConnectionMessages.UnknownCommand | src/main/java/ru/nsu/g/akononov/proxy/messages/connectionMessages/ConnectionMsg.java:89-93 | an unknown command byte still parses, and asking for the command then throws `UnsupportedOperationException` |
| ConnectionMessages.NegativeDomainLength | src/main/java/ru/nsu/g/akononov/proxy/messages/connectionMessages/ConnectionMsg.java:58-61 | a domain length byte of 0x80 or more is negative, so the name cannot be read |
| ConnectionMessages.RequestFailures | src/main/java/ru/nsu/g/akononov/proxy/messages/connectionMessages/ConnectionMsg.java:48-79 | every parse failure is `BufferUnderflowException`, `IllegalArgumentException` or `NegativeArraySizeException` |
| ConnectionMessages.AddressIgnoresTrailing | src/main/java/ru/nsu/g/akononov/proxy/messages/connectionMessages/ConnectionMsg.java:58-76 | bytes after a complete address change neither it nor how much is consumed |
| ConnectionMessages.RequestIgnoresTrailing | src/main/java/ru/nsu/g/akononov/proxy/messages/connectionMessages/ConnectionMsg.java:48-79 | bytes after a complete request change neither the message nor how much is consumed |
| ConnectionMessages.ReplyReparses | src/main/java/ru/nsu/g/akononov/proxy/messages/connectionMessages/ConnectionMsg.java:44-77 | re-parsing a reply gives back its version, type and address, a null command, and the port as written below 32768 and less 65536 from there |
| ConnectionMessages.RequestFromBuffer | src/main/java/ru/nsu/g/akononov/proxy/messages/connectionMessages/ConnectionMsg.java:48-79 | the constructor on a buffer keeps its capacity, and a message it returns carries its target |
| ConnectionMessages.RequestLeavesTrailingBytes | src/main/java/ru/nsu/g/akononov/proxy/messages/connectionMessages/ConnectionMsg.java:48-79 | after a successful parse exactly the bytes that followed the request are stored at the front of a buffer in write mode |
| ConnectionMessages.ReadHeader | src/main/java/ru/nsu/g/akononov/proxy/messages/connectionMessages/ConnectionMsg.java:50-56 | the first four `get()`s consume and yield what `ParseHeader` says |
| ConnectionMessages.ReadAddress | src/main/java/ru/nsu/g/akononov/proxy/messages/connectionMessages/ConnectionMsg.java:58-76 | the address reads consume and yield what `ParseAddress` says |
| ConnectionMessages.ReadDomainName | src/main/java/ru/nsu/g/akononov/proxy/messages/connectionMessages/ConnectionMsg.java:58-64 | the domain-name reads consume and yield what `ParseAddress` says for that type |
| ConnectionMessages.ReadConnectionFields | src/main/java/ru/nsu/g/akononov/proxy/messages/connectionMessages/ConnectionMsg.java:50-77 | the reads of the constructor consume and yield exactly what `ParseRequest` says |
| ConnectionMessages.ReadTarget | src/main/java/ru/nsu/g/akononov/proxy/messages/connectionMessages/ConnectionMsg.java:58-77 | the address and port reads consume and yield what `ParseTarget` says |
| ConnectionMessages.ReadConnectionMsg | src/main/java/ru/nsu/g/akononov/proxy/messages/connectionMessages/ConnectionMsg.java:48-79 | the constructor on the caller's buffer (flip, reads, compact on success) yields the request and leaves the buffer as `RequestFromBuffer` says |
| ConnectionMessages.ConnectToLoopback | src/main/java/ru/nsu/g/akononov/proxy/messages/connectionMessages/ConnectionMsg.java:48-79 | a CONNECT to 127.0.0.1:80 parses as such and is consumed whole |
| SocksClients.Key.Register | src/main/java/ru/nsu/g/akononov/proxy/channelReader/ChannelReader.java:202 | a newly registered key has the given interest set, no attachment, and is valid |
| SocksClients.ConnectStep | src/main/java/ru/nsu/g/akononov/proxy/channelReader/ChannelReader.java:192-206 | `connect` changes neither relay buffer |
| SocksClients.ConnectArmsDestination | src/main/java/ru/nsu/g/akononov/proxy/channelReader/ChannelReader.java:192-206 | a successful `connect` leaves the client wanting nothing, a destination key wanting only CONNECT, the state CONNECTING_TO_DEST and the target recorded, and changes nothing else |
| SocksClients.Session.constructor | src/main/java/ru/nsu/g/akononov/proxy/server/Proxy.java:112 | a new session awaits the greeting, with two empty buffers of the configured size, the client key's interest, no destination and nothing closed |
| SocksClients.Session.CloseClientSide | src/main/java/ru/nsu/g/akononov/proxy/channelReader/ChannelReader.java:82 | closing the client side is recorded and changes nothing else |
| SocksClients.Session.CloseDestSide | src/main/java/ru/nsu/g/akononov/proxy/channelReader/ChannelReader.java:56 | closing the destination side is recorded and changes nothing else |
| SocksClients.Session.ClearDestInterest | src/main/java/ru/nsu/g/akononov/proxy/channelReader/ChannelReader.java:90 | removing an interest from the destination key, when there is one, changes nothing else |
| SocksClients.Session.AddClientInterest | src/main/java/ru/nsu/g/akononov/proxy/channelReader/ChannelReader.java:73-74 | adding an interest to the client key changes nothing else |
| SocksClients.Session.FlipDestToClient | src/main/java/ru/nsu/g/akononov/proxy/channelWriter/ChannelWriter.java:40 | flipping `destToClient` changes nothing else |
| SocksClients.Session.SendDestToClient | src/main/java/ru/nsu/g/akononov/proxy/channelWriter/ChannelWriter.java:41 | a write to the client drains `destToClient` as `WriteFrom` says and changes nothing else |
| SocksClients.Session.CompactDestToClient | src/main/java/ru/nsu/g/akononov/proxy/channelWriter/ChannelWriter.java:66 | compacting `destToClient` changes nothing else |
| SocksClients.Session.FlipClientToDest | src/main/java/ru/nsu/g/akononov/proxy/channelWriter/ChannelWriter.java:97 | flipping `clientToDest` changes nothing else |
| SocksClients.Session.SendClientToDest | src/main/java/ru/nsu/g/akononov/proxy/channelWriter/ChannelWriter.java:98 | a write to the destination drains `clientToDest` as `WriteFrom` says and changes nothing else |
| SocksClients.Session.CompactClientToDest | src/main/java/ru/nsu/g/akononov/proxy/channelWriter/ChannelWriter.java:112 | compacting `clientToDest` changes nothing else |
| SocksClients.Session.Connect | src/main/java/ru/nsu/g/akononov/proxy/channelReader/ChannelReader.java:192-209 | `connect` on the objects: the session becomes what `ConnectStep` says, and only fresh objects (the destination key) join its footprint |
| DnsResolvers.Initial | src/main/java/ru/nsu/g/akononov/proxy/dnsResolver/DnsResolver.java:23-30 | the state a new resolver starts in is consistent |
| DnsResolvers.Enqueued | src/main/java/ru/nsu/g/akononov/proxy/dnsResolver/DnsResolver.java:58-62 | with no buffer the query is wrapped; otherwise the new buffer is one query larger and stores the old pending bytes and then the query |
| DnsResolvers.MakeDnsRequestStep | src/main/java/ru/nsu/g/akononov/proxy/dnsResolver/DnsResolver.java:54-64 | a request keeps the output buffer valid |
| DnsResolvers.GrowthFits | src/main/java/ru/nsu/g/akononov/proxy/dnsResolver/DnsResolver.java:59 | the allocated buffer has room for the queued bytes and then the query, so neither put overflows |
| DnsResolvers.FirstARecord | src/main/java/ru/nsu/g/akononov/proxy/dnsResolver/DnsResolver.java:104-110 | the index found is that of an A record with none before it, and none is found only when no record is of type A |
| DnsResolvers.ResumeTarget | src/main/java/ru/nsu/g/akononov/proxy/dnsResolver/DnsResolver.java:113-114 | there is a target exactly when there is an A record; it is that record's address with the upstream resolver's port, not the requested one |
| DnsResolvers.MakeRequestBookkeeping | src/main/java/ru/nsu/g/akononov/proxy/dnsResolver/DnsResolver.java:46-63 | a request takes the next id, which was free, maps it to the waiting key, keeps every other entry, and leaves READ and WRITE wanted |
| DnsResolvers.StepsKeepConsistent | src/main/java/ru/nsu/g/akononov/proxy/dnsResolver/DnsResolver.java:54-91 | requests and sends keep the resolver consistent: WRITE wanted exactly while queries are queued, READ always, ids between 1 and the counter |
| DnsResolvers.PendingOnlyGrows | src/main/java/ru/nsu/g/akononov/proxy/dnsResolver/DnsResolver.java:54-91 | no step removes or changes a pending entry |
| DnsResolvers.MakeAll | src/main/java/ru/nsu/g/akononov/proxy/dnsResolver/DnsResolver.java:54-64 | a run of requests keeps the resolver consistent |
| DnsResolvers.CounterAdvances | src/main/java/ru/nsu/g/akononov/proxy/dnsResolver/DnsResolver.java:30-46 | a run of requests advances the counter by one per request, whether or not it encodes |
| DnsResolvers.IdsAreSequential | src/main/java/ru/nsu/g/akononov/proxy/dnsResolver/DnsResolver.java:46-56 | when every query of a run encodes, the i-th request waits under id counter + i + 1 |
| DnsResolvers.PendingKept | src/main/java/ru/nsu/g/akononov/proxy/dnsResolver/DnsResolver.java:54-91 | an entry present before a run of requests is still there, unchanged, after it |
| DnsResolvers.CoalescedQueriesAreNotSent | src/main/java/ru/nsu/g/akononov/proxy/dnsResolver/DnsResolver.java:58-59 | a query queued behind another leaves the buffer unflipped, so a send transmits only zeros |
| DnsResolvers.EnqueuedLeavesZeros | src/main/java/ru/nsu/g/akononov/proxy/dnsResolver/DnsResolver.java:59 | past the copied bytes and the query, the grown buffer holds only the zeros it was allocated with |
| DnsResolvers.SentClearsQueue | src/main/java/ru/nsu/g/akononov/proxy/dnsResolver/DnsResolver.java:83-90 | a send that goes through empties the queue and leaves only READ wanted |
| DnsResolvers.WouldBlockDropsQuery | src/main/java/ru/nsu/g/akononov/proxy/dnsResolver/DnsResolver.java:83-90 | a wrapped query that cannot be sent at once is compacted out of reach: the next send transmits nothing and the query is lost |
| DnsResolvers.AnswersNeverResume | src/main/java/ru/nsu/g/akononov/proxy/dnsResolver/DnsResolver.java:93-115 | reading an answer always escapes, with `NullPointerException` once a message is decoded, because the resolver's key carries no session |
| DnsResolvers.FirstARecordIs | src/main/java/ru/nsu/g/akononov/proxy/dnsResolver/DnsResolver.java:104-110 | the first A record is at i when no earlier record is one and i holds one; there is none when no record up to the end is one |
| DnsResolvers.DnsResolver.constructor | src/main/java/ru/nsu/g/akononov/proxy/dnsResolver/DnsResolver.java:34-43 | a new resolver is consistent and in its initial state, keeps the upstream address and the encoder, and owns a datagram key |
| DnsResolvers.DnsResolver.MakeDnsRequest | src/main/java/ru/nsu/g/akononov/proxy/dnsResolver/DnsResolver.java:54-64 | `makeDNSRequest` on the objects yields the state and outcome of `MakeDnsRequestStep` |
| DnsResolvers.DnsResolver.QueueQuery | src/main/java/ru/nsu/g/akononov/proxy/dnsResolver/DnsResolver.java:56-63 | the new id maps to the key, the query is queued, and the key wants READ and WRITE |
| DnsResolvers.DnsResolver.Enqueue | src/main/java/ru/nsu/g/akononov/proxy/dnsResolver/DnsResolver.java:58-62 | the output buffer becomes `Enqueued` of the old one and the query; the counter, the map and the key stay |
| DnsResolvers.DnsResolver.Grow | src/main/java/ru/nsu/g/akononov/proxy/dnsResolver/DnsResolver.java:59 | the grown buffer is fresh and is `Enqueued` of the old buffer and the query |
| DnsResolvers.DnsResolver.SendDnsRequest | src/main/java/ru/nsu/g/akononov/proxy/dnsResolver/DnsResolver.java:83-91 | `sendDNSRequest` on the objects yields the state and outcome of `SendDnsRequestStep` |
| DnsResolvers.DnsResolver.FlushOutput | src/main/java/ru/nsu/g/akononov/proxy/dnsResolver/DnsResolver.java:84-85 | send then compact: all pending bytes or none are consumed, then the rest moves to the front |
| DnsResolvers.DnsResolver.FindARecord | src/main/java/ru/nsu/g/akononov/proxy/dnsResolver/DnsResolver.java:104-110 | the loop over the answers stops at the first A record, as `FirstARecord` says |
| DnsResolvers.DnsResolver.ReadDnsMessage | src/main/java/ru/nsu/g/akononov/proxy/dnsResolver/DnsResolver.java:93-115 | `readDNSMessage` yields the outcome of `ReadDnsMessageStep` with no session |
| ChannelReaders.Queue | src/main/java/ru/nsu/g/akononov/proxy/channelReader/ChannelReader.java:135 | queuing for the client succeeds exactly when the bytes fit, appending them to `destToClient` and changing nothing else; otherwise it overflows with nothing changed |
| ChannelReaders.GreetBody | src/main/java/ru/nsu/g/akononov/proxy/channelReader/ChannelReader.java:119-137 | the greeting body keeps both buffers valid |
| ChannelReaders.AnswerGreetingStep | src/main/java/ru/nsu/g/akononov/proxy/channelReader/ChannelReader.java:121-137 | answering a greeting keeps both buffers valid |
| ChannelReaders.GreetStep | src/main/java/ru/nsu/g/akononov/proxy/channelReader/ChannelReader.java:117-142 | `greet` keeps both buffers valid |
| ChannelReaders.SendResponseStep | src/main/java/ru/nsu/g/akononov/proxy/channelReader/ChannelReader.java:211-216 | `sendResponse` leaves `clientToDest` alone and `destToClient` valid |
| ChannelReaders.ConnectToStep | src/main/java/ru/nsu/g/akononov/proxy/channelReader/ChannelReader.java:181-182 | the socket-address check and `connect` leave both buffers alone |
| ChannelReaders.CreateConnectionStep | src/main/java/ru/nsu/g/akononov/proxy/channelReader/ChannelReader.java:167-183 | `createConnection` leaves `clientToDest` alone and both the reply buffer and the resolver's buffer valid |
| ChannelReaders.ProcessConnectionRequestBody | src/main/java/ru/nsu/g/akononov/proxy/channelReader/ChannelReader.java:145-161 | the request body keeps the session's and the resolver's buffers valid |
| ChannelReaders.RequestReadStep | src/main/java/ru/nsu/g/akononov/proxy/channelReader/ChannelReader.java:146-161 | handling a parsed request keeps the session's and the resolver's buffers valid |
| ChannelReaders.AnswerRequestStep | src/main/java/ru/nsu/g/akononov/proxy/channelReader/ChannelReader.java:153-161 | answering a request leaves `clientToDest` alone and keeps the other buffers valid |
| ChannelReaders.ProcessConnectionRequestStep | src/main/java/ru/nsu/g/akononov/proxy/channelReader/ChannelReader.java:144-165 | `processConnectionRequest` keeps the session's and the resolver's buffers valid |
| ChannelReaders.ProcessReadStateStep | src/main/java/ru/nsu/g/akononov/proxy/channelReader/ChannelReader.java:100-115 | `processReadState` keeps the session's and the resolver's buffers valid |
| ChannelReaders.ActiveReadStep | src/main/java/ru/nsu/g/akononov/proxy/channelReader/ChannelReader.java:106-113 | a relaying read changes neither buffer nor the state nor whether there is a destination key |
| ChannelReaders.ReadFromClientStep | src/main/java/ru/nsu/g/akononov/proxy/channelReader/ChannelReader.java:80-98 | `readFromClient` keeps the session's and the resolver's buffers valid |
| ChannelReaders.ReadOfferedStep | src/main/java/ru/nsu/g/akononov/proxy/channelReader/ChannelReader.java:86-94 | a client read with bytes offered keeps the session's and the resolver's buffers valid |
| ChannelReaders.ReadFromDestinationStep | src/main/java/ru/nsu/g/akononov/proxy/channelReader/ChannelReader.java:54-78 | `readFromDestination` leaves `clientToDest` alone and `destToClient` valid |
| ChannelReaders.ClosedClientReadOnlyCloses | src/main/java/ru/nsu/g/akononov/proxy/channelReader/ChannelReader.java:81-84 | a client read in CLOSED only closes the client side: nothing is read |
| ChannelReaders.ClientEndOfStream | src/main/java/ru/nsu/g/akononov/proxy/channelReader/ChannelReader.java:87-93 | client end of stream closes the client side and clears only READ on the destination key, when there is one; nothing else changes |
| ChannelReaders.DestinationRead | src/main/java/ru/nsu/g/akononov/proxy/channelReader/ChannelReader.java:54-78 | a destination read never changes the state: in CLOSED it only closes the destination side; end of stream closes it and stops the client's READ; otherwise the bytes that fit are appended, a full buffer stops the destination's READ and bytes read make the client want WRITE |
| ChannelReaders.ActiveClientRead | src/main/java/ru/nsu/g/akononov/proxy/channelReader/ChannelReader.java:106-113 | a relaying client read appends the bytes that fit, stops the client's READ exactly when the buffer is full, makes the destination want WRITE when bytes were read, and stays ACTIVE |
| ChannelReaders.WaitingStatesOnlyBuffer | src/main/java/ru/nsu/g/akononov/proxy/channelReader/ChannelReader.java:100-115 | in SEND_GREETING_RESP, CONNECTING_TO_DEST and SEND_CONN_RESP a client read only appends to `clientToDest` |
| ChannelReaders.GreetReplies | src/main/java/ru/nsu/g/akononov/proxy/channelReader/ChannelReader.java:117-142 | a wrong version closes the client and queues nothing; otherwise `[version, method]` is queued, no-authentication chosen exactly when offered, close-after-send set exactly when not, the client wants only WRITE and the state is SEND_GREETING_RESP; no room overflows |
| ChannelReaders.GreetingFailureEscapes | src/main/java/ru/nsu/g/akononov/proxy/channelReader/ChannelReader.java:117-142 | an incomplete greeting or a negative count is not caught by `greet`: the exception escapes with the consumed bytes skipped |
| ChannelReaders.WrongVersionRequestCloses | src/main/java/ru/nsu/g/akononov/proxy/channelReader/ChannelReader.java:146-151 | a complete request of another version closes the client side |
| ChannelReaders.UnsupportedCommandReply | src/main/java/ru/nsu/g/akononov/proxy/channelReader/ChannelReader.java:153-161 | BIND and UDP ASSOCIATE are answered CMD_NOT_SUPPORTED with the local address and the proxy port, close-after-send, the client wanting only WRITE and state SEND_CONN_RESP |
| ChannelReaders.ConnectRequestOpensDestination | src/main/java/ru/nsu/g/akononov/proxy/channelReader/ChannelReader.java:167-206 | a CONNECT to an IP address starts connecting: the client wants nothing, the state is CONNECTING_TO_DEST, the target is recorded and a destination key wants only CONNECT |
| ChannelReaders.HighPortClosesClient | src/main/java/ru/nsu/g/akononov/proxy/channelReader/ChannelReader.java:144-183 | a CONNECT whose port reads negative is rejected by the socket-address constructor and the client side is closed |
| ChannelReaders.UnresolvedDomainQueries | src/main/java/ru/nsu/g/akononov/proxy/channelReader/ChannelReader.java:170-176 | a CONNECT to a domain whose synchronous lookup returns no records, or whose name does not parse, only queues a query for the client's key, under the next id; the session keeps its state and interests |
| ChannelReaders.UnansweredLookupEscapes | src/main/java/ru/nsu/g/akononov/proxy/dnsResolver/DnsResolver.java:70-71 | a CONNECT to a domain whose lookup gets no answer at all throws `NullPointerException` out of request handling, the request consumed and nothing else changed |
| ChannelReaders.GreetKeepsDestination | src/main/java/ru/nsu/g/akononov/proxy/channelReader/ChannelReader.java:117-142 | `greet` never touches the destination key |
| ChannelReaders.RequestKeepsSettled | src/main/java/ru/nsu/g/akononov/proxy/channelReader/ChannelReader.java:144-165 | handling a request keeps the protocol invariant |
| ChannelReaders.AnswerKeepsSettled | src/main/java/ru/nsu/g/akononov/proxy/channelReader/ChannelReader.java:153-161 | answering a request registers a destination key only together with CONNECTING_TO_DEST |
| ChannelReaders.ClientReadKeepsSettled | src/main/java/ru/nsu/g/akononov/proxy/channelReader/ChannelReader.java:80-98 | a client read keeps the protocol invariant |
| ChannelReaders.DestinationReadKeepsSettled | src/main/java/ru/nsu/g/akononov/proxy/channelReader/ChannelReader.java:54-78 | a destination read keeps the protocol invariant |
| ChannelReaders.ChannelReader.constructor | src/main/java/ru/nsu/g/akononov/proxy/channelReader/ChannelReader.java:34-38 | the reader keeps the version, the proxy port and the shared resolver |
| ChannelReaders.ChannelReader.QueueForClient | src/main/java/ru/nsu/g/akononov/proxy/channelReader/ChannelReader.java:135 | `put` into `destToClient` behaves as `Queue` |
| ChannelReaders.ChannelReader.Greet | src/main/java/ru/nsu/g/akononov/proxy/channelReader/ChannelReader.java:117-142 | `greet` on the objects yields the state and outcome of `GreetStep` |
| ChannelReaders.ChannelReader.GreetOnce | src/main/java/ru/nsu/g/akononov/proxy/channelReader/ChannelReader.java:119-137 | the body of `greet` yields the state and outcome of `GreetBody` |
| ChannelReaders.ChannelReader.ReceiveGreeting | src/main/java/ru/nsu/g/akononov/proxy/channelReader/ChannelReader.java:119 | reading the greeting changes only `clientToDest`, as `GreetingFromBuffer` says |
| ChannelReaders.ChannelReader.AnswerGreeting | src/main/java/ru/nsu/g/akononov/proxy/channelReader/ChannelReader.java:121-137 | answering a greeting yields the state and outcome of `AnswerGreetingStep` |
| ChannelReaders.ChannelReader.SendResponse | src/main/java/ru/nsu/g/akononov/proxy/channelReader/ChannelReader.java:211-216 | `sendResponse` yields the state and outcome of `SendResponseStep` |
| ChannelReaders.ChannelReader.ConnectTo | src/main/java/ru/nsu/g/akononov/proxy/channelReader/ChannelReader.java:181-182 | the socket-address check and `connect` yield what `ConnectToStep` says |
| ChannelReaders.ChannelReader.CreateConnection | src/main/java/ru/nsu/g/akononov/proxy/channelReader/ChannelReader.java:167-183 | `createConnection` yields the session, resolver and outcome of `CreateConnectionStep` |
| ChannelReaders.ChannelReader.HandleConnectionRequest | src/main/java/ru/nsu/g/akononov/proxy/channelReader/ChannelReader.java:146-161 | the request body yields what `ProcessConnectionRequestBody` says |
| ChannelReaders.ChannelReader.RequestRead | src/main/java/ru/nsu/g/akononov/proxy/channelReader/ChannelReader.java:146-161 | handling the parsed request yields what `RequestReadStep` says |
| ChannelReaders.ChannelReader.AnswerRequest | src/main/java/ru/nsu/g/akononov/proxy/channelReader/ChannelReader.java:153-161 | answering the request yields what `AnswerRequestStep` says |
| ChannelReaders.ChannelReader.ProcessConnectionRequest | src/main/java/ru/nsu/g/akononov/proxy/channelReader/ChannelReader.java:144-165 | `processConnectionRequest` yields what `ProcessConnectionRequestStep` says |
| ChannelReaders.ChannelReader.ProcessReadState | src/main/java/ru/nsu/g/akononov/proxy/channelReader/ChannelReader.java:100-115 | `processReadState` yields what `ProcessReadStateStep` says, and keeps the destination key outside RECV_CONN_REQ |
| ChannelReaders.ChannelReader.ActiveRead | src/main/java/ru/nsu/g/akononov/proxy/channelReader/ChannelReader.java:106-113 | the relaying branch yields what `ActiveReadStep` says |
| ChannelReaders.ChannelReader.ReadFromClient | src/main/java/ru/nsu/g/akononov/proxy/channelReader/ChannelReader.java:80-98 | `readFromClient` yields what `ReadFromClientStep` says |
| ChannelReaders.ChannelReader.ReadOffered | src/main/java/ru/nsu/g/akononov/proxy/channelReader/ChannelReader.java:86-94 | a read with bytes offered yields what `ReadOfferedStep` says |
| ChannelReaders.ChannelReader.ReadFromDestination | src/main/java/ru/nsu/g/akononov/proxy/channelReader/ChannelReader.java:54-78 | `readFromDestination` yields what `ReadFromDestinationStep` says |
| ChannelReaders.ChannelReader.Read | src/main/java/ru/nsu/g/akononov/proxy/channelReader/ChannelReader.java:40-52 | `read` throws `ClassCastException` for a non-socket channel; a client key reads from the client and a destination key from the destination |
| ChannelWriters.ResponseStateStep | src/main/java/ru/nsu/g/akononov/proxy/channelWriter/ChannelWriter.java:69-79 | the response-state handler leaves both buffers alone |
| ChannelWriters.ActiveStateStep | src/main/java/ru/nsu/g/akononov/proxy/channelWriter/ChannelWriter.java:81-94 | the active-state handler leaves both buffers alone |
| ChannelWriters.ClientStateStep | src/main/java/ru/nsu/g/akononov/proxy/channelWriter/ChannelWriter.java:43-64 | the state switch after a client write leaves both buffers alone |
| ChannelWriters.ClientWriteKeepsUnsent | src/main/java/ru/nsu/g/akononov/proxy/channelWriter/ChannelWriter.java:39-67 | a completed write to the client leaves exactly the unsent bytes in `destToClient`, at the front in order, the whole capacity writable |
| ChannelWriters.DestinationWriteKeepsUnsent | src/main/java/ru/nsu/g/akononov/proxy/channelWriter/ChannelWriter.java:96-113 | a write to the destination that compacts leaves exactly the unsent bytes in `clientToDest`, at the front in order |
| ChannelWriters.CloseUponSendingCloses | src/main/java/ru/nsu/g/akononov/proxy/channelWriter/ChannelWriter.java:45-50 | with close-after-send a reply state closes the client side after this write, even with bytes left, and changes neither state nor interests |
| ChannelWriters.ResponseDrained | src/main/java/ru/nsu/g/akononov/proxy/channelWriter/ChannelWriter.java:69-79 | a reply written out without close-after-send: SEND_CONN_RESP becomes ACTIVE with the destination wanting only READ, SEND_GREETING_RESP becomes RECV_CONN_REQ, and the client wants only READ |
| ChannelWriters.ResponsePending | src/main/java/ru/nsu/g/akononov/proxy/channelWriter/ChannelWriter.java:70 | a reply with bytes still unsent changes neither state nor interests |
| ChannelWriters.ActiveClientWrite | src/main/java/ru/nsu/g/akononov/proxy/channelWriter/ChannelWriter.java:81-94 | a relaying client write stops the client's WRITE exactly when drained and makes the destination want READ when bytes were written; nothing is closed and the state stays ACTIVE |
| ChannelWriters.ClientWriteOutsideReplies | src/main/java/ru/nsu/g/akononov/proxy/channelWriter/ChannelWriter.java:56-63 | in CLOSED the client side is closed once `destToClient` is empty; in the input states a write throws `IllegalArgumentException` before the compact |
| ChannelWriters.DestinationWrite | src/main/java/ru/nsu/g/akononov/proxy/channelWriter/ChannelWriter.java:96-113 | draining `clientToDest` stops the destination's WRITE, and in CLOSED closes the destination side without compacting; otherwise bytes written make the client want READ; the state never changes |
| ChannelWriters.WritesKeepSettled | src/main/java/ru/nsu/g/akononov/proxy/channelWriter/ChannelWriter.java:39-113 | both writes keep the protocol invariant |
| ChannelWriters.ClientWriteKeepsSettled | src/main/java/ru/nsu/g/akononov/proxy/channelWriter/ChannelWriter.java:39-67 | a write to the client keeps the protocol invariant |
| ChannelWriters.DestinationWriteKeepsSettled | src/main/java/ru/nsu/g/akononov/proxy/channelWriter/ChannelWriter.java:96-113 | a write to the destination keeps the protocol invariant |
| ChannelWriters.ClientStateKeepsSettled | src/main/java/ru/nsu/g/akononov/proxy/channelWriter/ChannelWriter.java:43-64 | the state switch after a client write keeps the protocol invariant |
| ChannelWriters.ChannelWriter.constructor | src/main/java/ru/nsu/g/akononov/proxy/channelWriter/ChannelWriter.java:19-21 | the writer keeps the shared resolver |
| ChannelWriters.ChannelWriter.ProcessClientResponseState | src/main/java/ru/nsu/g/akononov/proxy/channelWriter/ChannelWriter.java:69-79 | `processClientResponseState` yields what `ResponseStateStep` says |
| ChannelWriters.ChannelWriter.ProcessClientActiveState | src/main/java/ru/nsu/g/akononov/proxy/channelWriter/ChannelWriter.java:81-94 | `processClientActiveState` yields what `ActiveStateStep` says |
| ChannelWriters.ChannelWriter.ClientState | src/main/java/ru/nsu/g/akononov/proxy/channelWriter/ChannelWriter.java:43-64 | the switch yields what `ClientStateStep` says |
| ChannelWriters.ChannelWriter.WriteToClient | src/main/java/ru/nsu/g/akononov/proxy/channelWriter/ChannelWriter.java:39-67 | `writeToClient` yields what `WriteToClientStep` says |
| ChannelWriters.ChannelWriter.WriteToDestination | src/main/java/ru/nsu/g/akononov/proxy/channelWriter/ChannelWriter.java:96-113 | `writeToDestination` yields what `WriteToDestinationStep` says |
| ChannelWriters.ChannelWriter.DestinationSent | src/main/java/ru/nsu/g/akononov/proxy/channelWriter/ChannelWriter.java:100-112 | the part after the write yields what `DestinationSentStep` says |
| ChannelWriters.ChannelWriter.Write | src/main/java/ru/nsu/g/akononov/proxy/channelWriter/ChannelWriter.java:24-37 | `write` throws `ClassCastException` for a non-socket channel; a client key writes to the client and a destination key to the destination |
| Proxies.FinishConnectStep | src/main/java/ru/nsu/g/akononov/proxy/server/Proxy.java:118-150 | completing a connection leaves `clientToDest` alone and `destToClient` valid; its branches are stated by `ConnectGranted`, `ConnectRefused`, `ConnectNotYet` and `ConnectIpv6Overflows` |
| Proxies.GrantedStep | src/main/java/ru/nsu/g/akononov/proxy/server/Proxy.java:135-138 | the granted branch leaves `clientToDest` alone and `destToClient` valid; what it queues and sets is stated by `ConnectGranted` |
| Proxies.RefusedStep | src/main/java/ru/nsu/g/akononov/proxy/server/Proxy.java:142-146 | the refused branch leaves `clientToDest` alone and `destToClient` valid; what it queues and sets is stated by `ConnectRefused` |
| Proxies.ReadStep | src/main/java/ru/nsu/g/akononov/proxy/server/Proxy.java:95-97 | the read handler runs only for READ readiness, and keeps both buffers valid |
| Proxies.WriteStep | src/main/java/ru/nsu/g/akononov/proxy/server/Proxy.java:98-100 | the write handler runs only for WRITE readiness |
| Proxies.FinishConnectKeepsSettled | src/main/java/ru/nsu/g/akononov/proxy/server/Proxy.java:118-150 | completing a connection keeps the protocol invariant |
| Proxies.ConnectGranted | src/main/java/ru/nsu/g/akononov/proxy/server/Proxy.java:125-138 | a completed connection to an IPv4 target leaves the destination wanting nothing, the client only WRITE and the state SEND_CONN_RESP, and queues `05 00 00 01`, the target address and its port; with less than ten bytes of room those changes are made and the put overflows |
| Proxies.ConnectRefused | src/main/java/ru/nsu/g/akononov/proxy/server/Proxy.java:125-146 | a refused connection to an IPv4 target queues `05 04 00 01`, the target address and its port, then sets close-after-send, makes the client want only WRITE and the state SEND_CONN_RESP, leaving the destination key alone; with less than ten bytes of room the put overflows before anything changes |
| Proxies.ConnectNotYet | src/main/java/ru/nsu/g/akononov/proxy/server/Proxy.java:123-133 | a connection not yet finished throws a `RuntimeException` the handler does not catch, with nothing changed; a session with no recorded destination throws `NullPointerException` |
| Proxies.ConnectIpv6Overflows | src/main/java/ru/nsu/g/akononov/proxy/server/Proxy.java:125-146 | the reply is always typed IPv4, so a 16-byte target overflows it: on success after the interests and the state changed, on refusal before anything changed |
| Proxies.ConnectReply | src/main/java/ru/nsu/g/akononov/proxy/server/Proxy.java:125-128 | the reply built for an IPv4 target is the version, the status, 0x00, 0x01, the four address bytes and the port |
| Proxies.ReadStepKeepsSettled | src/main/java/ru/nsu/g/akononov/proxy/server/Proxy.java:95-97 | the read handler keeps the protocol invariant |
| Proxies.WriteStepKeepsSettled | src/main/java/ru/nsu/g/akononov/proxy/server/Proxy.java:98-100 | the write handler keeps the protocol invariant |
| Proxies.StreamKeyKeepsSettled | src/main/java/ru/nsu/g/akononov/proxy/server/Proxy.java:92-100 | connect, read and write on one key together keep the protocol invariant |
| Proxies.Proxy.constructor | src/main/java/ru/nsu/g/akononov/proxy/server/Proxy.java:45-71 | the resolver starts in its initial state pointed at 8.8.8.8:53, and the server key is a server socket wanting only ACCEPT |
| Proxies.Proxy.FinishConnection | src/main/java/ru/nsu/g/akononov/proxy/server/Proxy.java:118-150 | `connect` on a session yields what `FinishConnectStep` says, whose transitions the four `Connect` lemmas state |
| Proxies.Proxy.ConnectionGranted | src/main/java/ru/nsu/g/akononov/proxy/server/Proxy.java:135-138 | the granted branch yields what `GrantedStep` says, whose transitions `ConnectGranted` states |
| Proxies.Proxy.ConnectionRefused | src/main/java/ru/nsu/g/akononov/proxy/server/Proxy.java:142-146 | the refused branch yields what `RefusedStep` says, whose transitions `ConnectRefused` states |
| Proxies.Proxy.Accept | src/main/java/ru/nsu/g/akononov/proxy/server/Proxy.java:106-116 | a pending connection gets a fresh session awaiting the greeting, with a client key wanting only READ; none pending throws `NullPointerException` |
| Proxies.Proxy.Connect | src/main/java/ru/nsu/g/akononov/proxy/server/Proxy.java:118-121 | `connect` on a destination key completes its own session's connection and leaves the resolver alone |
| Proxies.Proxy.ProcessKey | src/main/java/ru/nsu/g/akononov/proxy/server/Proxy.java:87-101 | one selected key: a valid server key accepts (none pending throws `NullPointerException`), the datagram key ends in `ClassCastException` when ready, and a stream key yields what `StreamKeyStep` says; its session stays attached and settled |
| Proxies.Proxy.ProcessStreamKey | src/main/java/ru/nsu/g/akononov/proxy/server/Proxy.java:92-100 | connect, read and write on a stream key yield what `StreamKeyStep` says, and keep the protocol invariant |
| Proxies.Proxy.ReadIfReady | src/main/java/ru/nsu/g/akononov/proxy/server/Proxy.java:95-97 | the read step yields what `ReadStep` says |
| Proxies.Proxy.WriteIfReady | src/main/java/ru/nsu/g/akononov/proxy/server/Proxy.java:98-100 | the write step yields what `WriteStep` says |
| Proxies.Proxy.ProcessSelected | src/main/java/ru/nsu/g/akononov/proxy/server/Proxy.java:87-102 | handling the next selected key gives the outcome `KeyOutcome` assigns it from where its handlers start (ACCEPT with nothing pending throws `NullPointerException`, any readiness of the resolver's datagram key throws `ClassCastException`, a stream key gives what `StreamKeyStep` gives) and records it in the trace; every selected key stays handleable and the sessions apart |
| Proxies.Proxy.HandleKey | src/main/java/ru/nsu/g/akononov/proxy/server/Proxy.java:87-101 | handling one selected key gives the outcome `KeyOutcome` assigns it and keeps its session attached, settled and apart from the resolver |
| Proxies.Proxy.ProcessSelectedKeys | src/main/java/ru/nsu/g/akononov/proxy/server/Proxy.java:84-104 | keys are handled in order, and the outcome recorded for each handled key is what `KeyOutcome` gives for it: every key is removed exactly when no exception escapes; otherwise every key before the throwing one completed and was removed, and the throwing key, whose handlers did throw, is the first of those left selected; every selected key stays handleable |

## Left out

- Logging, `Main`, and the `select()` loop of `Proxy.run`: socket set-up and readiness arrive as inputs to `ProcessSelectedKeys`.
- The `SimpleResolver` built in `Proxy`'s constructor is never used, so it is not modelled. The `Resolver` field of `DnsResolver` is used only by the synchronous lookup.
- The synchronous `Lookup` in `resolve` is the `lookup` field of the environment. It gives the first record's address, an empty answer, no answer (null, which `resolve` dereferences), or a name that does not parse. The records themselves are not modelled: the first one is taken to be an A record, as the cast in `resolve` assumes.
- `getLocalHost()` is the `localHost` field of the environment. `getRemoteAddress()` only feeds log lines.
- The DNS wire format (dnsjava's `Message`, `Name`, `toWire` and parsing) is not modelled. Encoding a query is an `Encoder` parameter that may fail. A received datagram is a `Received` value: undecodable, or the answer records.
- `SocksClient`, `AuthMethod` and `ChannelRole` are not part of this model.
  - The session's fields come from the calls the handlers make on it.
  - The two close operations are counted rather than performed, so closing has no effect on channels or keys.
  - `AuthMethod` has the two values 0x00 (no authentication) and 0xFF (no acceptable method).
- Key cancellation is not modelled: every key stays valid, so `isValid()` is always true once a key is registered.
- GreetingMessages.ToByteResponse: the method picked from the `HashSet` is left open, so the contract states only that it is one of the set. This is weaker than Java, whose hash order always picks the same member of a given set.
- Java's `String` decoding of a domain name and its re-encoding before lookup are identity here: domain names stay bytes.
- `InetAddress.getByAddress` is identity on the address bytes. It cannot fail for the 4- and 16-byte lengths the parser reads. Its conversion of an IPv4-mapped IPv6 address to an IPv4 address is not modelled.
- DnsResolvers.DnsResolver.MakeDnsRequest: the transaction id is an unbounded integer. Java's `++messageID` would wrap after 2^31 queries, and dnsjava rejects ids above 0xFFFF. The second limit is left to the encoder, which may fail.
- `sendHostUnreachable` (`ChannelReader.java:185-190`) is never called, so it is not modelled.
- DnsResolvers.DnsResolver.ReadDnsMessage: the `assert answer != null` in the source is off by default in Java, so it is not modelled. The model stops at the `NullPointerException` on the resolver's session-less attachment, so the call to `connect` after it is not modelled.
- Proxies.Proxy.ProcessSelectedKeys requires what the proxy's registrations guarantee, stated as `Handleable` and `Unshared`:
  - every selected stream key's session is attached and settled;
  - only destination keys are ready to CONNECT, and only the server key to ACCEPT;
  - keys of different sessions share no objects.
- Proxies.Proxy.ProcessSelectedKeys: the outcome of a server key or of the resolver's datagram key is fixed by its readiness and inputs. A stream key's outcome is `StreamKeyStep` applied to the session and resolver views its handlers start from, and those views are recorded in `starts` rather than derived from the state on entry: earlier keys may have changed them, and stating that change would cost more proof than the loop can afford. For the same reason the contract does not restate what each key does to its session; `ProcessKey` states that key by key.
- Proxies.Proxy.HandleKey: states the outcome and the part of `ProcessKey`'s effect on the session that the loop needs, not the whole new session view.
- Proxies.Proxy.ProcessSelectedKeys takes the objects of the selected sessions as the ghost set `sessions`, which it may change; the selector's registrations are what the Java method reaches them through.
- Exceptions other than those the handled paths raise are not modelled (out-of-memory, interrupted selectors), and neither is the effect of an exception escaping `processSelectedKeys` on `run`.
