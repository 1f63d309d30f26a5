/**
 * `java.nio.ByteBuffer` as the proxy uses it: a fixed array with a position and a limit.
 * A buffer being filled is in "write mode" (position = bytes stored, limit = capacity);
 * `flip` turns it to "read mode" (limit = bytes stored, position = 0); `compact` moves the
 * unread bytes to the front and returns to write mode. The mark is not modelled.
 */
module Buffers {
  import opened Wrappers
  import opened JavaTypes

  /** The observable state of a buffer: its backing bytes (capacity = |data|), position and limit. */
  datatype BufferView = BufferView(data: seq<byte>, position: nat, limit: nat) {

    /** `0 <= position <= limit <= capacity`. */
    predicate Valid() {
      position <= limit <= |data|
    }

    /** `remaining()`: how many bytes lie between position and limit. */
    function Remaining(): nat
      requires Valid()
    {
      limit - position
    }

    /** The bytes from position to limit: what relative gets and a channel write consume. */
    function Pending(): seq<byte>
      requires Valid()
    {
      data[position..limit]
    }

    /** The bytes before the position: in write mode, what has been stored so far. */
    function Stored(): seq<byte>
      requires position <= |data|
    {
      data[..position]
    }

    /** `flip()`: what was stored becomes what is pending. */
    function Flipped(): (b: BufferView)
      requires Valid()
      ensures b.Valid() && b.Pending() == Stored() && b.data == data
    {
      BufferView(data, 0, position)
    }

    /** `position(position + k)`: the first `k` pending bytes are consumed. */
    function Skipped(k: nat): (b: BufferView)
      requires Valid() && k <= Remaining()
      ensures b.Valid() && b.Pending() == Pending()[k..] && b.data == data && b.limit == limit
    {
      BufferView(data, position + k, limit)
    }

    /**
     * `compact()`: the pending bytes are copied to the front, in order, and the buffer is back
     * in write mode with exactly those bytes stored; the rest of the array keeps its old bytes.
     */
    function Compacted(): (b: BufferView)
      requires Valid()
      ensures b.Valid() && |b.data| == |data|
      ensures b.Stored() == Pending() && b.limit == |data|
    {
      BufferView(data[position..limit] + data[limit - position..], limit - position, |data|)
    }

    /** Relative bulk put of bytes that fit: they are stored after the current position. */
    function Filled(bytes: seq<byte>): (b: BufferView)
      requires Valid() && |bytes| <= Remaining()
      ensures b.Valid() && |b.data| == |data| && b.limit == limit
      ensures b.Stored() == Stored() + bytes
      ensures b.position == position + |bytes| && b.data[b.position..] == data[position + |bytes|..]
    {
      BufferView(data[..position] + bytes + data[position + |bytes|..], position + |bytes|, limit)
    }

    /** `put(byte[])`: throws `BufferOverflowException`, writing nothing, when the bytes do not fit. */
    function Put(bytes: seq<byte>): (r: Result<BufferView, JavaException>)
      requires Valid()
      ensures r.Success? <==> |bytes| <= Remaining()
      ensures r.Success? ==> r.value.Valid() && r.value.Stored() == Stored() + bytes
                             && r.value.limit == limit && |r.value.data| == |data|
      ensures r.Failure? ==> r.error == BufferOverflow
    {
      if |bytes| <= Remaining() then Success(Filled(bytes)) else Failure(BufferOverflow)
    }

    /** `get()`: the next pending byte, or `BufferUnderflowException` with nothing consumed. */
    function Get(): (r: (Result<byte, JavaException>, BufferView))
      requires Valid()
      ensures r.1.Valid()
      ensures r.0.Success? <==> Remaining() > 0
      ensures r.0.Success? ==> r.0.value == Pending()[0] && r.1 == Skipped(1)
      ensures r.0.Failure? ==> r.0.error == BufferUnderflow && r.1 == this
    {
      if position < limit then (Success(data[position]), Skipped(1))
      else (Failure(BufferUnderflow), this)
    }

    /** `get(new byte[n])`: the next `n` bytes, or `BufferUnderflowException` with nothing consumed. */
    function GetBytes(n: nat): (r: (Result<seq<byte>, JavaException>, BufferView))
      requires Valid()
      ensures r.1.Valid()
      ensures r.0.Success? <==> n <= Remaining()
      ensures r.0.Success? ==> r.0.value == Pending()[..n] && r.1 == Skipped(n)
      ensures r.0.Failure? ==> r.0.error == BufferUnderflow && r.1 == this
    {
      if n <= Remaining() then
        assert data[position..position + n] == Pending()[..n];
        (Success(data[position..position + n]), Skipped(n))
      else (Failure(BufferUnderflow), this)
    }

    /** `getShort()`: two bytes big-endian and signed, or `BufferUnderflowException` with nothing consumed. */
    function GetShort(): (r: (Result<int, JavaException>, BufferView))
      requires Valid()
      ensures r.1.Valid()
      ensures r.0.Success? <==> 2 <= Remaining()
      ensures r.0.Success? ==> r.0.value == SignedShort(Pending()[0], Pending()[1]) && r.1 == Skipped(2)
      ensures r.0.Failure? ==> r.0.error == BufferUnderflow && r.1 == this
    {
      if 2 <= Remaining() then (Success(SignedShort(data[position], data[position + 1])), Skipped(2))
      else (Failure(BufferUnderflow), this)
    }
  }

  /**
   * What a parser produced from the bytes a buffer exposed: the value and the number of bytes
   * consumed, or the exception thrown and the number of bytes consumed before it.
   */
  datatype Parse<T> = Parsed(value: T, consumed: nat) | Failed(error: JavaException, consumed: nat)

  /**
   * A parsing constructor on a buffer in write mode: it flips the buffer and consumes what
   * `p` says. On success it compacts, so bytes after the message stay at the front; on an
   * exception the buffer is left flipped, positioned after what was consumed.
   */
  function AfterParse<T>(b: BufferView, p: Parse<T>): (r: (Result<T, JavaException>, BufferView))
    requires b.Valid() && p.consumed <= b.position
    ensures r.1.Valid() && |r.1.data| == |b.data|
    ensures p.Parsed? ==> r.0 == Success(p.value) && r.1.Stored() == b.Stored()[p.consumed..]
                          && r.1.limit == |b.data|
    ensures p.Failed? ==> r.0 == Failure(p.error) && r.1 == b.Flipped().Skipped(p.consumed)
  {
    match p
    case Parsed(v, n) => (Success(v), b.Flipped().Skipped(n).Compacted())
    case Failed(e, n) => (Failure(e), b.Flipped().Skipped(n))
  }

  /**
   * Reading relative gets from `v` until the parse `p` of its pending bytes ended: `r` is
   * what the reader returned and `after` is `v` with exactly the consumed bytes skipped.
   */
  predicate ReadAs<T(==)>(v: BufferView, p: Parse<T>, r: Result<T, JavaException>, after: BufferView)
    requires v.Valid()
  {
    p.consumed <= v.Remaining() && after == v.Skipped(p.consumed)
    && r == (if p.Parsed? then Success(p.value) else Failure(p.error))
  }

  /** The number of bytes a channel transfers when it offers or accepts `k` and `room` fit. */
  function Transferred(k: nat, room: nat): (n: nat)
    ensures n <= k && n <= room && (n == k || n == room)
  {
    if k <= room then k else room
  }

  /**
   * `channel.read(buffer)` when the peer has `offer` ready: as many of those bytes as fit are
   * stored after the position; returns how many.
   */
  function ReadInto(b: BufferView, offer: seq<byte>): (r: (nat, BufferView))
    requires b.Valid()
    ensures r.0 == Transferred(|offer|, b.Remaining())
    ensures r.1.Valid() && |r.1.data| == |b.data| && r.1.limit == b.limit
    ensures r.1.Stored() == b.Stored() + offer[..r.0]
  {
    var n := Transferred(|offer|, b.Remaining());
    (n, b.Filled(offer[..n]))
  }

  /**
   * `channel.write(buffer)` when the peer takes up to `k` bytes: that many pending bytes are
   * consumed; returns how many.
   */
  function WriteFrom(b: BufferView, k: nat): (r: (nat, BufferView))
    requires b.Valid()
    ensures r.0 == Transferred(k, b.Remaining())
    ensures r.1 == b.Skipped(r.0)
  {
    var n := Transferred(k, b.Remaining());
    (n, b.Skipped(n))
  }

  /** `ByteBuffer.allocate(n)`: `n` zero bytes, in write mode and empty. */
  function Allocated(n: nat): (b: BufferView)
    ensures b.Valid() && b.Stored() == [] && b.Remaining() == n == |b.data|
  {
    BufferView(Zeros(n), 0, n)
  }

  /** `ByteBuffer.wrap(bytes)`: the bytes themselves, all pending. */
  function Wrapped(bytes: seq<byte>): (b: BufferView)
    ensures b.Valid() && b.Pending() == bytes && b.limit == |b.data|
  {
    BufferView(bytes, 0, |bytes|)
  }

  /**
   * A channel write of `k` bytes between `flip` and `compact` leaves exactly the unsent bytes
   * stored, at the front and in their original order, with the whole capacity writable again.
   */
  lemma {:induction false} FlipSendCompact(b: BufferView, k: nat)
    requires b.Valid() && k <= b.position
    ensures var c := b.Flipped().Skipped(k).Compacted();
            c.Stored() == b.Stored()[k..] && c.position == b.position - k && c.limit == |b.data|
  {
    var f := b.Flipped();
    assert f.Pending() == b.Stored();
    assert f.Skipped(k).Pending() == b.Stored()[k..];
  }

  /**
   * A buffer in a Java program: the backing array is fixed for the buffer's lifetime, the
   * position and limit move.
   */
  class ByteBuffer {
    const data: array<byte>
    var position: nat
    var limit: nat

    /** Position and limit within the backing array. */
    ghost predicate Valid()
      reads this
    {
      position <= limit <= data.Length
    }

    /** The buffer as a value: its bytes, position and limit. */
    ghost function View(): (v: BufferView)
      reads this, data
      ensures v.Valid() <==> Valid()
    {
      BufferView(data[..], position, limit)
    }

    /** `remaining()`. */
    function Remaining(): (n: nat)
      reads this
      requires Valid()
    {
      limit - position
    }

    /** `ByteBuffer.allocate(capacity)`. */
    constructor Allocate(capacity: nat)
      ensures Valid() && fresh(data)
      ensures View() == Allocated(capacity)
    {
      data := new byte[capacity](_ => 0);
      position, limit := 0, capacity;
    }

    /** `ByteBuffer.wrap(bytes)`. */
    constructor Wrap(bytes: seq<byte>)
      ensures Valid() && fresh(data)
      ensures View() == Wrapped(bytes)
    {
      data := new byte[|bytes|](i requires 0 <= i < |bytes| => bytes[i]);
      position, limit := 0, |bytes|;
    }

    /** `flip()`. */
    method Flip()
      requires Valid()
      modifies this
      ensures Valid() && View() == old(View()).Flipped()
    {
      limit := position;
      position := 0;
    }

    /** Moves the pending bytes to the front one by one, as `System.arraycopy` does. */
    method Compact()
      requires Valid()
      modifies this, data
      ensures Valid() && View() == old(View()).Compacted()
    {
      var n := limit - position;
      var i := 0;
      while i < n
        modifies data
        invariant 0 <= i <= n
        invariant forall j :: 0 <= j < i ==> data[j] == old(data[position + j])
        invariant forall j :: i <= j < data.Length ==> data[j] == old(data[j])
      {
        data[i] := data[position + i];
        i := i + 1;
      }
      assert data[..] == old(data[position..limit]) + old(data[n..]);
      position, limit := n, data.Length;
    }

    /** Relative `get()`. */
    method Get() returns (r: Result<byte, JavaException>)
      requires Valid()
      modifies this
      ensures Valid() && (r, View()) == old(View()).Get()
    {
      if position < limit {
        r := Success(data[position]);
        position := position + 1;
      } else {
        r := Failure(BufferUnderflow);
      }
    }

    /** Relative bulk `get(byte[n])`. */
    method GetBytes(n: nat) returns (r: Result<seq<byte>, JavaException>)
      requires Valid()
      modifies this
      ensures Valid() && (r, View()) == old(View()).GetBytes(n)
    {
      if n <= limit - position {
        r := Success(data[position..position + n]);
        position := position + n;
      } else {
        r := Failure(BufferUnderflow);
      }
    }

    /** Relative `getShort()`, big-endian and signed. */
    method GetShort() returns (r: Result<int, JavaException>)
      requires Valid()
      modifies this
      ensures Valid() && (r, View()) == old(View()).GetShort()
    {
      if 2 <= limit - position {
        r := Success(SignedShort(data[position], data[position + 1]));
        position := position + 2;
      } else {
        r := Failure(BufferUnderflow);
      }
    }

    /** Relative bulk `put(bytes)`. */
    method Put(bytes: seq<byte>) returns (r: Outcome)
      requires Valid()
      modifies this, data
      ensures Valid()
      ensures var p := old(View()).Put(bytes);
              if p.Success? then r == Completed && View() == p.value
              else r == Escaped(p.error) && View() == old(View())
    {
      if |bytes| > limit - position {
        return Escaped(BufferOverflow);
      }
      forall i | 0 <= i < |bytes| {
        data[position + i] := bytes[i];
      }
      assert data[..] == old(data[..])[..position] + bytes + old(data[..])[position + |bytes|..];
      position := position + |bytes|;
      r := Completed;
    }

    /** A channel read into this buffer of the bytes the peer offers. */
    method ReceiveFrom(offer: seq<byte>) returns (n: nat)
      requires Valid()
      modifies this, data
      ensures Valid() && (n, View()) == ReadInto(old(View()), offer)
    {
      n := Transferred(|offer|, limit - position);
      var _ := Put(offer[..n]);
    }

    /** A channel write from this buffer of as many bytes as the peer takes, up to `k`. */
    method SendUpTo(k: nat) returns (n: nat)
      requires Valid()
      modifies this
      ensures Valid() && (n, View()) == WriteFrom(old(View()), k)
    {
      n := Transferred(k, limit - position);
      position := position + n;
    }

    /**
     * `put(src)`: the pending bytes of `src` are stored here and `src` is consumed up to its
     * limit, or `BufferOverflowException` with neither buffer changed.
     */
    method PutBuffer(src: ByteBuffer) returns (r: Outcome)
      requires Valid() && src.Valid() && src != this && src.data != data
      modifies this, data, src
      ensures Valid() && src.Valid()
      ensures var p := old(View()).Put(old(src.View()).Pending());
              if p.Success? then r == Completed && View() == p.value
                                 && src.View() == old(src.View()).Skipped(old(src.View()).Remaining())
              else r == Escaped(p.error) && View() == old(View()) && src.View() == old(src.View())
    {
      var bytes := src.data[src.position..src.limit];
      r := Put(bytes);
      if r == Completed {
        src.position := src.limit;
      }
    }
  }
}
