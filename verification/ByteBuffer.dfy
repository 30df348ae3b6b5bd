/** The part of java.nio.ByteBuffer that packet building uses: a fixed zero-filled array, a write
    position, relative puts, and absolute gets and puts of big-endian shorts. */
module ByteBuffer {
  import opened Bytes

  class Buffer {
    const data: array<Byte>
    var position: nat

    ghost predicate Valid()
      reads this
    {
      position <= data.Length
    }

    /** What has been put so far. */
    ghost function Written(): (s: Bytes)
      requires Valid()
      reads this, data
    {
      data[..position]
    }

    constructor Allocate(capacity: nat)
      ensures Valid() && Written() == [] && data.Length == capacity && fresh(data)
      ensures forall i :: 0 <= i < capacity ==> data[i] == 0
    {
      data := new Byte[capacity](_ => 0);
      position := 0;
    }

    method Put(b: Byte)
      requires Valid() && position < data.Length
      modifies this, data
      ensures Valid() && Written() == old(Written()) + [b] && position == old(position) + 1
    {
      data[position] := b;
      position := position + 1;
    }

    /** putShort(value.toShort()): the low sixteen bits. */
    method PutShort(value: int)
      requires Valid() && position + 2 <= data.Length
      modifies this, data
      ensures Valid() && Written() == old(Written()) + Be16(value) && position == old(position) + 2
    {
      Put(Be16(value)[0]);
      Put(Be16(value)[1]);
    }

    method PutInt(value: Int32)
      requires Valid() && position + 4 <= data.Length
      modifies this, data
      ensures Valid() && Written() == old(Written()) + Be32(value) && position == old(position) + 4
    {
      PutShort(value / TWO_16);
      PutShort(value);
    }

    method PutAll(bytes: Bytes)
      requires Valid() && position + |bytes| <= data.Length
      modifies this, data
      ensures Valid() && Written() == old(Written()) + bytes && position == old(position) + |bytes|
    {
      var i := 0;
      while i < |bytes|
        invariant 0 <= i <= |bytes| && position == old(position) + i && Valid()
        invariant Written() == old(Written()) + bytes[..i]
      {
        Put(bytes[i]);
        assert bytes[..i + 1] == bytes[..i] + [bytes[i]];
        i := i + 1;
      }
    }

    /** putShort(index, value.toShort()): the position does not move. */
    method PutShortAt(index: nat, value: int)
      requires Valid() && index + 2 <= position
      modifies data
      ensures Written() == old(Written())[..index] + Be16(value) + old(Written())[index + 2..]
    {
      data[index] := Be16(value)[0];
      data[index + 1] := Be16(value)[1];
    }

    /** getShort(index).toInt() and 0xFFFF */
    function ShortAt(index: nat): (n: nat)
      requires index + 2 <= data.Length
      reads data
      ensures n < TWO_16
    {
      FromBe16(data[index], data[index + 1])
    }
  }
}
