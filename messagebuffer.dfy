// The serial packed message buffers.
//
// SPSimpleSerialize copies the object representation of a trivial value
// into a raw byte buffer (`pack`) and back (`unpack`).  The write buffer
// grows its heap block on demand; the read buffer hands out values until
// its end.  Values are modelled by their object representations, a byte
// sequence whose length is `sizeof(T)`.  Whether the allocator can supply
// a block of n bytes is a parameter `fits`; fresh bytes from the allocator
// are indeterminate in C++ and are zero here.

module MessageBuffers {
  import opened Errors

  type Byte = b: int | 0 <= b < 256

  // ---------------------------------------------------------------------
  // SPSimpleSerialize
  // ---------------------------------------------------------------------

  /** The bytes of `buffer` after copying `value` to `position`. */
  function Packed(buffer: seq<Byte>, position: nat, value: seq<Byte>): (r: seq<Byte>)
    requires position + |value| <= |buffer|
    ensures |r| == |buffer|
    ensures r[position..position + |value|] == value
    ensures forall i :: 0 <= i < |r| && !(position <= i < position + |value|) ==> r[i] == buffer[i]
  {
    buffer[..position] + value + buffer[position + |value|..]
  }

  /** The `width` bytes of `buffer` starting at `position`. */
  function Unpacked(buffer: seq<Byte>, position: nat, width: nat): (r: seq<Byte>)
    requires position + width <= |buffer|
    ensures |r| == width
    ensures forall i :: 0 <= i < width ==> r[i] == buffer[position + i]
  {
    buffer[position..position + width]
  }

  /** Unpacking at the position a value was packed to recovers it. */
  lemma UnpackAfterPack(buffer: seq<Byte>, position: nat, value: seq<Byte>)
    requires position + |value| <= |buffer|
    ensures Unpacked(Packed(buffer, position, value), position, |value|) == value
  {
  }

  /** Packing leaves every value stored elsewhere readable as before. */
  lemma PackKeepsDisjoint(buffer: seq<Byte>, position: nat, value: seq<Byte>, other: nat, width: nat)
    requires position + |value| <= |buffer| && other + width <= |buffer|
    requires other + width <= position || position + |value| <= other
    ensures Unpacked(Packed(buffer, position, value), other, width) == Unpacked(buffer, other, width)
  {
    var after := Packed(buffer, position, value);
    forall i | 0 <= i < width
      ensures Unpacked(after, other, width)[i] == Unpacked(buffer, other, width)[i]
    {
      assert after[other + i] == buffer[other + i];
    }
  }

  /**
   * `pack`: the source asserts that the value fits below `capacity` (the
   * buffer's length), copies its bytes and returns the position after it.
   */
  method Pack(value: seq<Byte>, buffer: array<Byte>, position: nat, capacity: nat) returns (next: nat)
    requires buffer.Length == capacity && position + |value| <= capacity
    modifies buffer
    ensures next == position + |value|
    ensures buffer[..] == Packed(old(buffer[..]), position, value)
  {
    var k := 0;
    while k < |value|
      invariant 0 <= k <= |value|
      invariant buffer[..] == Packed(old(buffer[..]), position, value[..k])
    {
      buffer[position + k] := value[k];
      k := k + 1;
    }
    next := position + |value|;
  }

  /** `unpack`: the source asserts the value lies below `size`. */
  method Unpack(buffer: array<Byte>, position: nat, size: nat, width: nat) returns (value: seq<Byte>, next: nat)
    requires buffer.Length == size && position + width <= size
    ensures value == Unpacked(buffer[..], position, width)
    ensures next == position + width
  {
    value := buffer[position..position + width];
    next := position + width;
  }

  // ---------------------------------------------------------------------
  // SPBasicPackedMessageWriteBuffer with the serial serializer
  // ---------------------------------------------------------------------

  /**
   * The capacity `reserve(size)` ends with, or None when both allocation
   * attempts fail: nothing changes when `size` already fits, the first
   * attempt asks for max(size, 2*capacity) and the retry for capacity+size.
   */
  function GrownCapacity(capacity: nat, size: nat, fits: nat -> bool): (r: Option<nat>)
    ensures size <= capacity ==> r == Some(capacity)
    ensures r.Some? ==> r.value >= size && r.value >= capacity
    ensures r.None? <==> size > capacity && !fits(if size > 2 * capacity then size else 2 * capacity) && !fits(capacity + size)
  {
    if size <= capacity then Some(capacity)
    else
      var first := if size > 2 * capacity then size else 2 * capacity;
      if fits(first) then Some(first)
      else if fits(capacity + size) then Some(capacity + size)
      else None
  }

  /**
   * `realloc` to a larger block: a fresh block of `length` bytes that
   * starts with the old block's `filled` bytes.
   */
  method Realloc(current: array?<Byte>, filled: nat, length: nat) returns (block: array<Byte>)
    requires current != null ==> current.Length == filled
    requires filled <= length
    ensures fresh(block) && block.Length == length
    ensures current != null ==> block[..filled] == current[..]
  {
    block := new Byte[length];
    if current != null {
      var k := 0;
      while k < filled
        invariant 0 <= k <= filled
        invariant forall i :: 0 <= i < k ==> block[i] == current[i]
      {
        block[k] := current[k];
        k := k + 1;
      }
    }
  }

  class WriteBuffer {
    var buffer: array?<Byte>
    var position: nat
    var capacity: nat

    /** The block is null exactly when the capacity is 0, and holds what was written. */
    ghost predicate Valid()
      reads this
    {
      position <= capacity
      && (buffer == null <==> capacity == 0)
      && (buffer != null ==> buffer.Length == capacity)
    }

    /** The bytes written so far. */
    function Contents(): (c: seq<Byte>)
      requires Valid()
      reads this, buffer
      ensures |c| == position
    {
      if buffer == null then [] else buffer[..position]
    }

    /** `initialize()`: no block, position 0, capacity 0. */
    constructor ()
      ensures Valid() && buffer == null && position == 0 && capacity == 0
    {
      buffer, position, capacity := null, 0, 0;
    }

    /** The move constructor takes over the block and resets the source. */
    constructor Moved(other: WriteBuffer)
      requires other.Valid()
      modifies other
      ensures Valid() && other.Valid()
      ensures buffer == old(other.buffer) && position == old(other.position) && capacity == old(other.capacity)
      ensures other.buffer == null && other.position == 0 && other.capacity == 0
    {
      buffer, position, capacity := other.buffer, other.position, other.capacity;
      new;
      other.buffer, other.position, other.capacity := null, 0, 0;
    }

    /**
     * Move assignment: takes over the source's state, then re-initialises
     * the source.  Moving a buffer into itself therefore leaves it empty.
     */
    method MoveAssign(other: WriteBuffer)
      requires other.Valid()
      modifies this, other
      ensures Valid() && other.Valid()
      ensures other.buffer == null && other.position == 0 && other.capacity == 0
      ensures other != this ==> buffer == old(other.buffer) && position == old(other.position) && capacity == old(other.capacity)
    {
      var b, p, c := other.buffer, other.position, other.capacity;
      buffer, position, capacity := b, p, c;
      other.buffer, other.position, other.capacity := null, 0, 0;
    }

    /**
     * `reserve(size)`: grow the block (realloc keeps its bytes) to the
     * capacity GrownCapacity names; OutOfMemoryError when both attempts
     * fail, with the old block left in place.
     */
    method Reserve(size: nat, fits: nat -> bool) returns (status: Result<()>)
      requires Valid()
      modifies this
      ensures Valid() && position == old(position)
      ensures buffer == old(buffer) || fresh(buffer)
      ensures Contents() == old(Contents())
      ensures GrownCapacity(old(capacity), size, fits).None? ==> status == Err(OutOfMemoryError) && unchanged(this)
      ensures GrownCapacity(old(capacity), size, fits).Some? ==>
        status == Ok(()) && capacity == GrownCapacity(old(capacity), size, fits).value
      ensures size <= old(capacity) ==> unchanged(this)
    {
      if size <= capacity {
        return Ok(());
      }
      var grown := GrownCapacity(capacity, size, fits);
      if grown.None? {
        return Err(OutOfMemoryError);
      }
      var block := Realloc(buffer, capacity, grown.value);
      assert buffer != null ==> block[..position] == buffer[..position];
      buffer, capacity := block, grown.value;
      status := Ok(());
    }

    /**
     * `write(value)`: reserve room for the value after the current
     * position, then pack it there.  On success the contents grow by
     * exactly the value's bytes.  Every C++ object occupies at least one
     * byte.
     */
    method Write(value: seq<Byte>, fits: nat -> bool) returns (status: Result<()>)
      requires Valid() && |value| >= 1
      modifies this, buffer
      ensures Valid()
      ensures GrownCapacity(old(capacity), old(position) + |value|, fits).None? ==>
        status == Err(OutOfMemoryError) && position == old(position) && capacity == old(capacity) && Contents() == old(Contents())
      ensures GrownCapacity(old(capacity), old(position) + |value|, fits).Some? ==>
        status == Ok(()) && capacity == GrownCapacity(old(capacity), old(position) + |value|, fits).value
        && Contents() == old(Contents()) + value
    {
      status := Reserve(position + |value|, fits);
      if status.Err? {
        return;
      }
      ghost var before := Contents();
      var block: array<Byte> := buffer;
      var next := Pack(value, block, position, capacity);
      assert block[..next] == before + value by {
        assert block[..position] == before;
      }
      position := next;
    }

    /** The serial `send` does nothing. */
    method Send(rank: int, tag: int)
      ensures unchanged(this)
    {
    }

    /** The serial `wait` does nothing. */
    method Wait()
      ensures unchanged(this)
    {
    }
  }

  // ---------------------------------------------------------------------
  // SPBasicPackedMessageReadBuffer with the serial serializer
  // ---------------------------------------------------------------------

  class ReadBuffer {
    var buffer: array?<Byte>
    var position: nat
    var size: nat

    ghost predicate Valid()
      reads this
    {
      position <= size
      && (buffer == null <==> size == 0)
      && (buffer != null ==> buffer.Length == size)
    }

    constructor ()
      ensures Valid() && buffer == null && position == 0 && size == 0
    {
      buffer, position, size := null, 0, 0;
    }

    /** The move constructor takes over the block and resets the source. */
    constructor Moved(other: ReadBuffer)
      requires other.Valid()
      modifies other
      ensures Valid() && other.Valid()
      ensures buffer == old(other.buffer) && position == old(other.position) && size == old(other.size)
      ensures other.buffer == null && other.position == 0 && other.size == 0
    {
      buffer, position, size := other.buffer, other.position, other.size;
      new;
      other.buffer, other.position, other.size := null, 0, 0;
    }

    /** Move assignment; moving a buffer into itself leaves it empty. */
    method MoveAssign(other: ReadBuffer)
      requires other.Valid()
      modifies this, other
      ensures Valid() && other.Valid()
      ensures other.buffer == null && other.position == 0 && other.size == 0
      ensures other != this ==> buffer == old(other.buffer) && position == old(other.position) && size == old(other.size)
    {
      var b, p, s := other.buffer, other.position, other.size;
      buffer, position, size := b, p, s;
      other.buffer, other.position, other.size := null, 0, 0;
    }

    /**
     * `read`: IOError at or past the end; otherwise the next `width` bytes,
     * which the source asserts to lie within the buffer.
     */
    method Read(width: nat) returns (value: Result<seq<Byte>>)
      requires Valid() && (position < size ==> position + width <= size)
      modifies this
      ensures Valid() && buffer == old(buffer) && size == old(size)
      ensures old(position) >= size ==> value == Err(IOError) && position == old(position)
      ensures old(position) < size ==>
        value == Ok(Unpacked(buffer[..], old(position), width)) && position == old(position) + width
    {
      if position < size {
        var v, next := Unpack(buffer, position, size, width);
        position := next;
        value := Ok(v);
      } else {
        value := Err(IOError);
      }
    }

    /**
     * `reset(n)`: free the block and re-initialise, then allocate n bytes
     * when n > 0; a failed allocation throws OutOfMemoryError and leaves the
     * buffer empty.
     */
    method Reset(n: nat, fits: nat -> bool) returns (status: Result<()>)
      modifies this
      ensures Valid() && position == 0
      ensures n == 0 ==> status == Ok(()) && buffer == null && size == 0
      ensures n > 0 && !fits(n) ==> status == Err(OutOfMemoryError) && buffer == null && size == 0
      ensures n > 0 && fits(n) ==> status == Ok(()) && fresh(buffer) && size == n
    {
      buffer, position, size := null, 0, 0;
      if n == 0 {
        return Ok(());
      }
      if !fits(n) {
        return Err(OutOfMemoryError);
      }
      buffer := new Byte[n];
      size := n;
      status := Ok(());
    }

    /** A serial communication has nothing to receive: always IOError. */
    method Receive(rank: int, tag: int, count: nat) returns (status: Result<()>)
      ensures status == Err(IOError)
    {
      status := Err(IOError);
    }

    /** The serial rank is always 0. */
    method Rank() returns (r: int)
      ensures r == 0
    {
      r := 0;
    }

    /** The serial `wait` does nothing. */
    method Wait()
      ensures unchanged(this)
    {
    }
  }
}
