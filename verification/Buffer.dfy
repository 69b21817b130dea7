/** The read-index buffer both decoders sit on (core/buffer/Buffer.h), over a string whose
    capacity is tracked, and the way both decoders push received bytes into it. */
module Buffers {
  import opened Bytes

  const MAX_SIZE_ONCE_READ := 5 * 1024
  const MAX_BUFFER_SIZE := 500 * 1024

  class Buffer {
    var data: seq<byte>
    var capacity: nat
    var readIndex: nat
    // How often the string had to move to a larger block.
    var moves: nat

    ghost predicate Valid()
      reads this
    {
      readIndex <= |data| <= capacity
    }

    /** What is still to be read. */
    ghost function View(): seq<byte>
      requires Valid()
      reads this
    {
      data[readIndex..]
    }

    constructor (reserved: nat)
      ensures Valid() && View() == [] && capacity == reserved && moves == 0
    {
      data, capacity, readIndex, moves := [], reserved, 0, 0;
    }

    method AutoRemove()
      requires Valid()
      modifies this`data, this`readIndex
      ensures Valid() && View() == old(View())
      ensures readIndex == 0
    {
      data, readIndex := data[readIndex..], 0;
    }

    method Append(bytes: seq<byte>)
      requires Valid()
      modifies this`data, this`capacity, this`moves
      ensures Valid() && View() == old(View()) + bytes
      ensures |data| == |old(data)| + |bytes|
      ensures if |data| <= old(capacity) then capacity == old(capacity) && moves == old(moves)
              else capacity == Max(2 * old(capacity), |data|) && moves == old(moves) + 1
    {
      if |data| + |bytes| > capacity {
        capacity, moves := Max(2 * capacity, |data| + |bytes|), moves + 1;
      }
      data := data + bytes;
    }

    method Reserve(size: nat)
      requires Valid()
      modifies this`capacity, this`moves
      ensures Valid() && View() == old(View())
      ensures capacity == Max(old(capacity), size)
      ensures moves == old(moves) + if size > old(capacity) then 1 else 0
    {
      if size > capacity {
        capacity, moves := size, moves + 1;
      }
    }

    method ReadableBytes() returns (n: nat)
      requires Valid()
      ensures n == |data| - readIndex == |View()|
    {
      n := |data| - readIndex;
    }

    method Skip(n: nat)
      requires Valid() && readIndex + n <= |data|
      modifies this`readIndex
      ensures Valid() && readIndex == old(readIndex) + n
    {
      readIndex := readIndex + n;
    }

    /** Loads `width` bytes as the machine stores them, then moves past them. */
    method ReadInteger(width: nat) returns (v: nat)
      requires Valid() && readIndex + width <= |data|
      modifies this`readIndex
      ensures Valid() && readIndex == old(readIndex) + width
      ensures v == Host(data, old(readIndex), old(readIndex) + width)
    {
      v := Host(data, readIndex, readIndex + width);
      Skip(width);
    }

    method ReadInt8() returns (v: byte)
      requires Valid() && readIndex < |data|
      modifies this`readIndex
      ensures Valid() && readIndex == old(readIndex) + 1
      ensures v == data[old(readIndex)]
    {
      v := data[readIndex];
      Skip(1);
    }

    /** Reads a field in network byte order. */
    method ReadInt16() returns (v: nat)
      requires Valid() && readIndex + 2 <= |data|
      modifies this`readIndex
      ensures Valid() && readIndex == old(readIndex) + 2
      ensures v == Net(data, old(readIndex), old(readIndex) + 2)
    {
      Load16(data, readIndex);
      v := ReadInteger(2);
      v := NetworkToHost16(v);
    }

    method ReadInt32() returns (v: nat)
      requires Valid() && readIndex + 4 <= |data|
      modifies this`readIndex
      ensures Valid() && readIndex == old(readIndex) + 4
      ensures v == Net(data, old(readIndex), old(readIndex) + 4)
    {
      Load32(data, readIndex);
      v := ReadInteger(4);
      v := NetworkToHost32(v);
    }

    method ReadInt64() returns (v: nat)
      requires Valid() && readIndex + 8 <= |data|
      modifies this`readIndex
      ensures Valid() && readIndex == old(readIndex) + 8
      ensures v == Net(data, old(readIndex), old(readIndex) + 8)
    {
      Load64(data, readIndex);
      v := ReadInteger(8);
      v := NetworkToHost64(v);
    }

    method ReadBuffer(n: nat) returns (bytes: seq<byte>)
      requires Valid() && readIndex + n <= |data|
      modifies this`readIndex
      ensures Valid() && readIndex == old(readIndex) + n
      ensures bytes == data[old(readIndex)..readIndex]
    {
      bytes := data[readIndex..readIndex + n];
      Skip(n);
    }

    /** The push both decoders share: refuse, grow, compact or append. Whichever branch runs,
        the readable bytes gain exactly the new ones; a refusal changes nothing; and the
        string moves only when the readable bytes outgrow its block. */
    method Push(bytes: seq<byte>) returns (ok: bool)
      requires Valid()
      modifies this
      ensures Valid()
      ensures ok <==> |old(View())| + |bytes| <= MAX_BUFFER_SIZE
      ensures ok ==> View() == old(View()) + bytes
      ensures !ok ==> data == old(data) && readIndex == old(readIndex)
      ensures !ok || |old(View())| + |bytes| <= old(capacity) ==> capacity == old(capacity) && moves == old(moves)
      ensures ok && |old(View())| + |bytes| > old(capacity) ==> capacity > old(capacity) && moves > old(moves)
    {
      var readable := ReadableBytes();
      if |bytes| + readable > MAX_BUFFER_SIZE {
        return false;
      } else if |bytes| + readable > capacity {
        var grown := Min(capacity * 2, MAX_BUFFER_SIZE);
        AutoRemove();
        Reserve(grown);
        Append(bytes);
      } else if |bytes| > capacity - |data| {
        AutoRemove();
        Append(bytes);
      } else {
        Append(bytes);
      }
      return true;
    }
  }
}
