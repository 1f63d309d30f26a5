/**
 * The SOCKS5 method-selection exchange (section 3 of RFC 1928): the client's greeting
 * `[VER][NMETHODS][METHODS]` and the server's choice `[VER][METHOD]`.
 */
module GreetingMessages {
  import opened Wrappers
  import opened JavaTypes
  import opened Buffers

  /**
   * The authentication methods the proxy names. Their values follow section 3 of RFC 1928;
   * lookup of any other byte gives `null` (the greeting parser skips such bytes).
   */
  datatype AuthMethod = NoAuthentication | NoAcceptableMethod

  /** The byte that stands for a method on the wire. */
  function AuthValue(m: AuthMethod): byte
  {
    match m
    case NoAuthentication => 0x00
    case NoAcceptableMethod => 0xFF
  }

  /** `AuthMethod.getByValue`: the method a byte stands for, or none. */
  function AuthByValue(b: byte): (r: Option<AuthMethod>)
    ensures r.Some? ==> AuthValue(r.value) == b
    ensures r.None? ==> forall m :: AuthValue(m) != b
  {
    if b == 0x00 then Some(NoAuthentication)
    else if b == 0xFF then Some(NoAcceptableMethod)
    else None
  }

  /** A greeting: the version byte as sent and the set of recognised methods offered. */
  datatype GreetingMessage = GreetingMessage(socksVersion: byte, authMethods: set<AuthMethod>)

  /** The constructor `GreetingMessage(byte, AuthMethod)` used to build the server's reply. */
  function SingleMethod(version: byte, m: AuthMethod): GreetingMessage
  {
    GreetingMessage(version, {m})
  }

  /** `hasAuthMethod(m)`: whether the client offered `m`. */
  function HasAuthMethod(g: GreetingMessage, m: AuthMethod): bool
  {
    m in g.authMethods
  }

  /**
   * One element of a non-empty method set. The source takes element 0 of a `HashSet`'s
   * array, whose order Java leaves unspecified; callers may rely only on membership.
   */
  function AnyMethod(methods: set<AuthMethod>): (m: AuthMethod)
    requires methods != {}
    ensures m in methods
  {
    if NoAuthentication in methods then NoAuthentication
    else
      assert NoAcceptableMethod in methods by {
        var x :| x in methods;
        assert x == NoAcceptableMethod;
      }
      NoAcceptableMethod
  }

  /**
   * `toByteResponse()`: the version and one of the methods; an empty set makes
   * `toArray()[0]` throw.
   */
  function ToByteResponse(g: GreetingMessage): (r: Result<seq<byte>, JavaException>)
    ensures r.Failure? <==> g.authMethods == {}
    ensures r.Failure? ==> r.error == ArrayIndexOutOfBounds
    ensures r.Success? ==> |r.value| == 2 && r.value[0] == g.socksVersion
    ensures r.Success? ==> exists m :: m in g.authMethods && AuthValue(m) == r.value[1]
  {
    if g.authMethods == {} then Failure(ArrayIndexOutOfBounds)
    else Success([g.socksVersion, AuthValue(AnyMethod(g.authMethods))])
  }

  /** The reply built from one method is exactly two bytes: the version, then that method. */
  lemma SingleMethodResponse(version: byte, m: AuthMethod)
    ensures ToByteResponse(SingleMethod(version, m)) == Success([version, AuthValue(m)])
  {
  }

  /** The methods recognised among `bytes`, unknown bytes skipped and duplicates merged. */
  function DecodeMethods(bytes: seq<byte>): set<AuthMethod>
  {
    if bytes == [] then {}
    else
      var last := AuthByValue(bytes[|bytes| - 1]);
      DecodeMethods(bytes[..|bytes| - 1]) + (if last.Some? then {last.value} else {})
  }

  /** A method is offered exactly when some listed byte decodes to it. */
  lemma {:induction false} DecodeMethodsMembers(bytes: seq<byte>, m: AuthMethod)
    ensures m in DecodeMethods(bytes) <==> exists i :: 0 <= i < |bytes| && AuthByValue(bytes[i]) == Some(m)
  {
    if bytes != [] {
      var init := bytes[..|bytes| - 1];
      DecodeMethodsMembers(init, m);
      if m in DecodeMethods(init) {
        var i :| 0 <= i < |init| && AuthByValue(init[i]) == Some(m);
        assert bytes[i] == init[i];
      }
      if exists i :: 0 <= i < |bytes| && AuthByValue(bytes[i]) == Some(m) {
        var i :| 0 <= i < |bytes| && AuthByValue(bytes[i]) == Some(m);
        if i < |init| {
          assert init[i] == bytes[i];
        }
      }
    }
  }

  /**
   * The parsing constructor on the bytes `s` exposed by `flip()`: a version byte (not checked
   * here), a count byte that Java reads as signed, then that many method bytes read one by one.
   */
  function ParseGreeting(s: seq<byte>): (r: Parse<GreetingMessage>)
    ensures r.consumed <= |s|
  {
    if |s| < 1 then Failed(BufferUnderflow, 0)
    else if |s| < 2 then Failed(BufferUnderflow, 1)
    else
      var n := Signed(s[1]);
      if n < 0 then Failed(Runtime, 2)
      else if |s| < 2 + n then Failed(BufferUnderflow, |s|)
      else Parsed(GreetingMessage(s[0], DecodeMethods(s[2..2 + n])), 2 + n)
  }

  /** The version byte and the signed method count that open a greeting. */
  function GreetingHeader(s: seq<byte>): (r: Parse<(byte, nat)>)
    ensures r.consumed <= |s|
    ensures r.Parsed? ==> r.consumed == 2 && r.value.0 == s[0] && r.value.1 == Signed(s[1])
  {
    if |s| < 1 then Failed(BufferUnderflow, 0)
    else if |s| < 2 then Failed(BufferUnderflow, 1)
    else if Signed(s[1]) < 0 then Failed(Runtime, 2)
    else Parsed((s[0], Signed(s[1])), 2)
  }

  /**
   * A greeting parses exactly when the count byte is below 128 and all the methods it
   * announces are present; the parse then consumes the version, the count and those methods,
   * and keeps the version as sent.
   */
  lemma GreetingLayout(s: seq<byte>)
    ensures ParseGreeting(s).Parsed? <==> |s| >= 2 && s[1] < 0x80 && |s| >= 2 + s[1] as int
    ensures ParseGreeting(s).Parsed? ==>
              ParseGreeting(s).consumed == 2 + s[1] as int
              && ParseGreeting(s).value.socksVersion == s[0]
              && ParseGreeting(s).value.authMethods == DecodeMethods(s[2..2 + s[1] as int])
  {
  }

  /** A count byte of 0x80 or more is negative to Java and raises `RuntimeException`. */
  lemma NegativeCountIsRuntime(s: seq<byte>)
    requires |s| >= 2 && s[1] >= 0x80
    ensures ParseGreeting(s) == Failed(Runtime, 2)
  {
  }

  /** Too few bytes raise `BufferUnderflowException`; every other failure is the negative count. */
  lemma GreetingFailures(s: seq<byte>)
    ensures ParseGreeting(s).Failed? ==>
              (ParseGreeting(s).error == BufferUnderflow <==> |s| < 2 || (s[1] < 0x80 && |s| < 2 + s[1] as int))
    ensures ParseGreeting(s).Failed? ==> ParseGreeting(s).error in {BufferUnderflow, Runtime}
  {
  }

  /** Bytes after a complete greeting do not change what is parsed or how much is consumed. */
  lemma {:induction false} GreetingIgnoresTrailing(s: seq<byte>, t: seq<byte>)
    requires ParseGreeting(s).Parsed?
    ensures ParseGreeting(s + t) == ParseGreeting(s)
  {
    var n := ParseGreeting(s).consumed;
    assert (s + t)[2..n] == s[2..n];
  }

  /**
   * After a parse, `hasAuthMethod(m)` holds exactly when one of the announced method bytes
   * decodes to `m`.
   */
  lemma {:induction false} HasAuthMethodOfParsed(s: seq<byte>, m: AuthMethod)
    requires ParseGreeting(s).Parsed?
    ensures HasAuthMethod(ParseGreeting(s).value, m)
            <==> exists i :: 2 <= i < ParseGreeting(s).consumed && AuthByValue(s[i]) == Some(m)
  {
    var n := ParseGreeting(s).consumed;
    var listed := s[2..n];
    DecodeMethodsMembers(listed, m);
    if exists j :: 0 <= j < |listed| && AuthByValue(listed[j]) == Some(m) {
      var j :| 0 <= j < |listed| && AuthByValue(listed[j]) == Some(m);
      assert s[j + 2] == listed[j];
    }
    if exists i :: 2 <= i < n && AuthByValue(s[i]) == Some(m) {
      var i :| 2 <= i < n && AuthByValue(s[i]) == Some(m);
      assert listed[i - 2] == s[i];
    }
  }

  /**
   * The constructor on a buffer in write mode: it flips the buffer, parses what was stored
   * and, on success, compacts so that bytes after the greeting stay at the front. On an
   * exception the buffer is left flipped, positioned after what was consumed.
   */
  function GreetingFromBuffer(b: BufferView): (r: (Result<GreetingMessage, JavaException>, BufferView))
    requires b.Valid()
    ensures r.1.Valid() && |r.1.data| == |b.data|
  {
    AfterParse(b, ParseGreeting(b.Stored()))
  }

  /**
   * A successful parse leaves exactly the bytes after the greeting stored, at the front of a
   * buffer that is back in write mode.
   */
  lemma GreetingLeavesTrailingBytes(b: BufferView)
    requires b.Valid() && ParseGreeting(b.Stored()).Parsed?
    ensures var after := GreetingFromBuffer(b).1;
            after.Stored() == b.Stored()[ParseGreeting(b.Stored()).consumed..]
            && after.limit == |b.data|
  {
  }

  /**
   * The loop of the parsing constructor: `n` method bytes read one `get()` at a time, each
   * unknown one skipped. Running out of bytes throws after consuming everything pending.
   */
  method ReadMethods(buf: ByteBuffer, n: nat) returns (r: Result<set<AuthMethod>, JavaException>)
    requires buf.Valid()
    modifies buf
    ensures buf.Valid()
    ensures var v := old(buf.View());
            if n <= v.Remaining()
            then r == Success(DecodeMethods(v.Pending()[..n])) && buf.View() == v.Skipped(n)
            else r == Failure(BufferUnderflow) && buf.View() == v.Skipped(v.Remaining())
  {
    ghost var v := buf.View();
    var methods: set<AuthMethod> := {};
    var i := 0;
    while i < n
      invariant 0 <= i <= n && i <= v.Remaining()
      invariant buf.Valid() && buf.View() == v.Skipped(i)
      invariant methods == DecodeMethods(v.Pending()[..i])
    {
      var b := buf.Get();
      if b.Failure? {
        return Failure(b.error);
      }
      assert v.Pending()[..i + 1][..i] == v.Pending()[..i];
      var m := AuthByValue(b.value);
      if m.Some? {
        methods := methods + {m.value};
      }
      i := i + 1;
    }
    r := Success(methods);
  }

  /** The reads of the parsing constructor on a flipped buffer, before it compacts. */
  method ReadGreetingFields(buf: ByteBuffer) returns (r: Result<GreetingMessage, JavaException>)
    requires buf.Valid()
    modifies buf
    ensures buf.Valid() && ReadAs(old(buf.View()), ParseGreeting(old(buf.View()).Pending()), r, buf.View())
  {
    ghost var v := buf.View();
    ghost var s := v.Pending();
    var header := ReadGreetingHeader(buf);
    if header.Failure? {
      return Failure(header.error);
    }
    var (version, n) := header.value;
    assert buf.View() == v.Skipped(2) && buf.View().Pending() == s[2..];
    var methods := ReadMethods(buf, n);
    if methods.Failure? {
      assert buf.View() == v.Skipped(|s|);
      return Failure(methods.error);
    }
    assert 2 + n <= |s| && s[2..][..n] == s[2..2 + n];
    assert buf.View() == v.Skipped(2 + n);
    r := Success(GreetingMessage(version, methods.value));
  }

  /** The first two reads of the parsing constructor: the version and the method count. */
  method ReadGreetingHeader(buf: ByteBuffer) returns (r: Result<(byte, nat), JavaException>)
    requires buf.Valid()
    modifies buf
    ensures buf.Valid() && ReadAs(old(buf.View()), GreetingHeader(old(buf.View()).Pending()), r, buf.View())
  {
    ghost var v := buf.View();
    var version := buf.Get();
    if version.Failure? {
      assert buf.View() == v.Skipped(0);
      return Failure(version.error);
    }
    var count := buf.Get();
    if count.Failure? {
      return Failure(count.error);
    }
    var n := Signed(count.value);
    if n < 0 {
      return Failure(Runtime);
    }
    r := Success((version.value, n));
  }

  /** The parsing constructor `GreetingMessage(ByteBuffer)`, reading byte by byte. */
  method ReadGreeting(buf: ByteBuffer) returns (r: Result<GreetingMessage, JavaException>)
    requires buf.Valid()
    modifies buf, buf.data
    ensures buf.Valid() && (r, buf.View()) == GreetingFromBuffer(old(buf.View()))
  {
    buf.Flip();
    r := ReadGreetingFields(buf);
    if r.Success? {
      buf.Compact();
    }
  }

  /** Scenario: `05 01 00` offers exactly no-authentication and is consumed whole. */
  lemma NoAuthGreeting()
    ensures ParseGreeting([0x05, 0x01, 0x00]) == Parsed(GreetingMessage(0x05, {NoAuthentication}), 3)
  {
    var s: seq<byte> := [0x05, 0x01, 0x00];
    assert Signed(s[1]) == 1;
    assert s[2..3] == [0x00];
    assert DecodeMethods([]) == {};
    assert DecodeMethods([0x00]) == {NoAuthentication};
  }
}
