/** The two-cursor byte buffer behind every connection, as a first-in first-out byte queue. */
module Buffers {
  import opened Text

  const INITIAL_CAPACITY := 4096

  class Buffer {
    var data: array<char>
    var readPos: nat
    var writePos: nat

    ghost predicate Valid()
      reads this
    {
      readPos <= writePos <= data.Length
    }

    /** The bytes appended and not yet consumed, oldest first. */
    function Readable(): Bytes
      requires Valid()
      reads this, data
    {
      data[readPos..writePos]
    }

    function WritableBytes(): nat
      requires Valid()
      reads this
    {
      data.Length - writePos
    }

    constructor ()
      ensures Valid() && fresh(data) && Readable() == []
    {
      data := new char[0];
      readPos, writePos := 0, 0;
    }

    method AdvanceWrite(n: nat)
      requires Valid() && n <= WritableBytes()
      modifies this`writePos
      ensures Valid()
      ensures Readable() == old(Readable()) + old(data[writePos..writePos + n])
      ensures WritableBytes() == old(WritableBytes()) - n
    {
      writePos := writePos + n;
    }

    method Consume(n: nat)
      requires Valid() && n <= |Readable()|
      modifies this`readPos, this`writePos
      ensures Valid()
      ensures Readable() == old(Readable())[n..]
      ensures WritableBytes() >= old(WritableBytes())
    {
      readPos := readPos + n;
      if readPos == writePos {
        readPos, writePos := 0, 0;
      }
    }

    /** `memmove` of the readable bytes to the front. */
    method Compact()
      requires Valid()
      modifies this`readPos, this`writePos, data
      ensures Valid() && readPos == 0
      ensures Readable() == old(Readable())
    {
      var n := writePos - readPos;
      var i := 0;
      while i < n
        invariant 0 <= i <= n
        invariant readPos == old(readPos) && writePos == old(writePos)
        invariant forall j :: 0 <= j < i ==> data[j] == old(data[readPos + j])
        invariant forall j :: i <= j < data.Length ==> data[j] == old(data[j])
      {
        data[i] := data[readPos + i];
        i := i + 1;
      }
      readPos, writePos := 0, n;
    }

    /** Make room for `len` bytes: nothing, compact, or compact and grow by doubling. */
    method EnsureWritableBytes(len: nat)
      requires Valid()
      modifies this, data
      ensures Valid() && (data == old(data) || fresh(data))
      ensures Readable() == old(Readable())
      ensures WritableBytes() >= len
    {
      if WritableBytes() >= len {
        return;
      }
      var readable := writePos - readPos;
      if data.Length >= readable + len {
        Compact();
        return;
      }
      Compact();
      var needed := writePos + len;
      var newCap := if data.Length == 0 then INITIAL_CAPACITY else data.Length;
      while newCap < needed
        invariant newCap > 0 && newCap >= data.Length
      {
        newCap := newCap * 2;
      }
      var previous := data;
      data := new char[newCap](i requires 0 <= i < newCap reads previous =>
        if i < previous.Length then previous[i] else 0 as char);
    }

    method Append(bytes: Bytes)
      requires Valid()
      modifies this, data
      ensures Valid() && (data == old(data) || fresh(data))
      ensures Readable() == old(Readable()) + bytes
    {
      EnsureWritableBytes(|bytes|);
      Fill(bytes);
      AdvanceWrite(|bytes|);
    }

    /** `memcpy` (or `read`) into the writable space; nothing is readable until `AdvanceWrite`. */
    method Fill(bytes: Bytes)
      requires Valid() && |bytes| <= WritableBytes()
      modifies data
      ensures data[writePos..writePos + |bytes|] == bytes
      ensures Readable() == old(Readable())
    {
      forall i | 0 <= i < |bytes| {
        data[writePos + i] := bytes[i];
      }
    }
  }
}
