/**
 * The pieces of the Java platform that the proxy's logic depends on: the exceptions it raises
 * or lets escape, and the signed, fixed-width byte and short arithmetic of `java.nio.ByteBuffer`.
 */
module JavaTypes {

  /**
   * The exceptions the core raises or lets through. `IO` stands for every `IOException`
   * subclass (a failed socket operation, `UnknownHostException`, `TextParseException`).
   */
  datatype JavaException =
    | IllegalArgument
    | BufferUnderflow
    | BufferOverflow
    | Runtime
    | UnsupportedOperation
    | NegativeArraySize
    | ArrayIndexOutOfBounds
    | NullPointer
    | ClassCast
    | IO

  /** How one handler invocation ends: normally, or with an exception that escapes it. */
  datatype Outcome = Completed | Escaped(error: JavaException)

  /** An octet, as held in a Java `byte[]` or `ByteBuffer`; `Signed` gives Java's reading of it. */
  newtype byte = b: int | 0 <= b < 256

  /** `n` zero bytes: the contents of a freshly allocated Java byte array. */
  function Zeros(n: nat): (r: seq<byte>)
    ensures |r| == n
    ensures forall i :: 0 <= i < n ==> r[i] == 0
  {
    seq(n, _ => 0)
  }

  /** The value of a byte as Java reads it: two's complement, so 0x80..0xFF are negative. */
  function Signed(b: byte): (r: int)
    ensures -128 <= r < 128
    ensures r % 256 == b as int
    ensures r < 0 <==> b >= 0x80
  {
    if b < 0x80 then b as int else b as int - 256
  }

  /**
   * `putShort((short) v)`: the cast keeps the low 16 bits of `v` and `putShort` writes them
   * big-endian, high byte first.
   */
  function ShortBytes(v: int): (r: seq<byte>)
    ensures |r| == 2
    ensures r[0] as int * 256 + r[1] as int == v % 65536
  {
    var u := v % 65536;
    [(u / 256) as byte, (u % 256) as byte]
  }

  /** `getShort()`: two bytes read big-endian as a signed 16-bit value. */
  function SignedShort(hi: byte, lo: byte): (r: int)
    ensures -32768 <= r < 32768
    ensures r % 65536 == hi as int * 256 + lo as int
  {
    var u := hi as int * 256 + lo as int;
    if u < 32768 then u else u - 65536
  }

  /**
   * Writing a port with `putShort` and reading it back with `getShort` gives the port itself
   * below 32768 and the port minus 65536 from 32768 on.
   */
  lemma ShortRoundTrip(port: int)
    requires 0 <= port < 65536
    ensures var b := ShortBytes(port);
            SignedShort(b[0], b[1]) == if port < 32768 then port else port - 65536
  {
  }
}
