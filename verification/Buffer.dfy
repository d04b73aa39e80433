/**
 * The sliding-window byte buffer: one array split into a prepend zone, a readable zone and a
 * writable zone, with compaction or growth when the writable zone is too small.
 */
module Buffers {
  import opened Common
  import opened Sockets

  const CHEAP_PREPEND: nat := 8
  const INITIAL_SIZE: nat := 1024
  const STACK_BUF_SIZE: nat := 65536

  /** What `readv` reported: the bytes it delivered, or an errno. */
  datatype ReadOutcome = Delivered(data: Bytes) | ReadFailed(errno: int)

  class Buffer {
    var data: array<byte>
    var readIndex: nat
    var writeIndex: nat
    ghost const initialSize: nat
    ghost var peak: nat  // the largest readable length ever reached

    ghost predicate Valid()
      reads this
    {
      && CHEAP_PREPEND <= readIndex <= writeIndex <= data.Length
      && writeIndex - readIndex <= peak
      && data.Length <= Max(CHEAP_PREPEND + initialSize, 2 * peak + CHEAP_PREPEND - 1)
    }

    /** The abstract value: the queue of bytes written and not yet consumed. */
    ghost function Contents(): Bytes
      reads this, data
      requires Valid()
    {
      data[readIndex..writeIndex]
    }

    constructor (size: nat := INITIAL_SIZE)
      ensures Valid() && fresh(data) && Contents() == []
      ensures initialSize == size && peak == 0 && WritableBytes() == size
      ensures data.Length == 8 + size && readIndex == writeIndex == 8
    {
      data := new byte[CHEAP_PREPEND + size](_ => 0);
      readIndex, writeIndex := CHEAP_PREPEND, CHEAP_PREPEND;
      initialSize, peak := size, 0;
    }

    function ReadableBytes(): (n: nat)
      reads this, data
      requires Valid()
      ensures n == |Contents()|
    {
      writeIndex - readIndex
    }

    function WritableBytes(): nat
      reads this
      requires Valid()
    {
      data.Length - writeIndex
    }

    /** The two regions `readv` is offered: the writable zone and, when that is short, a stack block. */
    function ReadCapacity(): nat
      reads this
      requires Valid()
    {
      WritableBytes() + if WritableBytes() < STACK_BUF_SIZE then STACK_BUF_SIZE else 0
    }

    method MaintainAllIndex()
      requires Valid()
      modifies this`readIndex, this`writeIndex
      ensures Valid() && Contents() == [] && readIndex == writeIndex == 8
    {
      readIndex, writeIndex := CHEAP_PREPEND, CHEAP_PREPEND;
    }

    method MaintainReadIndex(len: nat)
      requires Valid()
      modifies this`readIndex, this`writeIndex
      ensures Valid()
      ensures Contents() == old(Contents())[Min(len, |old(Contents())|)..]
      ensures len >= |old(Contents())| ==> readIndex == writeIndex == 8
    {
      if len < ReadableBytes() {
        readIndex := readIndex + len;
        return;
      }
      MaintainAllIndex();
    }

    /** Consumes and returns at most `len` bytes; a longer request is truncated. */
    method ReadFromBuffer(len: nat) returns (str: Bytes)
      requires Valid()
      modifies this`readIndex, this`writeIndex
      ensures Valid()
      ensures str + Contents() == old(Contents()) && |str| == Min(len, |old(Contents())|)
    {
      var n := len;
      if n > ReadableBytes() {
        n := ReadableBytes();
      }
      str := data[readIndex..readIndex + n];
      MaintainReadIndex(n);
    }

    method ReadAll() returns (str: Bytes)
      requires Valid()
      modifies this`readIndex, this`writeIndex
      ensures Valid()
      ensures str == old(Contents()) && Contents() == []
    {
      str := ReadFromBuffer(ReadableBytes());
    }

    method AdvanceReadIndex(len: nat)
      requires Valid() && len <= ReadableBytes()
      modifies this`readIndex, this`writeIndex
      ensures Valid() && Contents() == old(Contents())[len..]
    {
      MaintainReadIndex(len);
    }

    /** Makes room for `len` bytes behind the readable zone, by compaction or else by growth. */
    method MakeSpace(len: nat)
      requires Valid() && WritableBytes() < len
      modifies this, data
      ensures CHEAP_PREPEND <= readIndex <= writeIndex <= writeIndex + len <= data.Length
      ensures peak == old(peak) && (data == old(data) || fresh(data))
      ensures data[readIndex..writeIndex] == old(Contents())
      ensures data.Length <= Max(old(data.Length), 2 * (|old(Contents())| + len) + CHEAP_PREPEND - 1)
      ensures data == old(data) <==> old(data.Length - writeIndex + readIndex) >= len + CHEAP_PREPEND
    {
      var available := WritableBytes() + readIndex;
      var needed := len + CHEAP_PREPEND;
      if available < needed {
        Resize(writeIndex + len);
        return;
      }
      var readableBytes := ReadableBytes();
      forall i | 0 <= i < readableBytes {
        data[CHEAP_PREPEND + i] := data[readIndex + i];
      }
      readIndex := CHEAP_PREPEND;
      writeIndex := readIndex + readableBytes;
    }

    /** `std::vector::resize` to a larger size: old elements kept, new ones zero. */
    method Resize(size: nat)
      requires data.Length < size
      modifies this`data
      ensures fresh(data) && data.Length == size
      ensures forall i :: 0 <= i < old(data.Length) ==> data[i] == old(data[i])
    {
      var grown := new byte[size](_ => 0);
      forall i | 0 <= i < data.Length {
        grown[i] := data[i];
      }
      data := grown;
    }

    method WriteToBuffer(bytes: Bytes)
      requires Valid()
      modifies this, data
      ensures Valid() && (data == old(data) || fresh(data))
      ensures Contents() == old(Contents()) + bytes
      ensures peak == Max(old(peak), |Contents()|)
    {
      var len := |bytes|;
      if len == 0 {
        return;
      }
      if WritableBytes() < len {
        MakeSpace(len);
      }
      CopyIn(bytes, old(Contents()));
      peak := Max(peak, writeIndex - readIndex);
    }

    /** `std::copy` behind the readable zone `queue`, which has room for it. */
    method CopyIn(bytes: Bytes, ghost queue: Bytes)
      requires readIndex <= writeIndex <= writeIndex + |bytes| <= data.Length && data[readIndex..writeIndex] == queue
      modifies this`writeIndex, data
      ensures writeIndex == old(writeIndex) + |bytes| && data[readIndex..writeIndex] == queue + bytes
    {
      forall i | 0 <= i < |bytes| {
        data[writeIndex + i] := bytes[i];
      }
      assert data[readIndex..writeIndex] == queue;
      assert data[writeIndex..writeIndex + |bytes|] == bytes;
      writeIndex := writeIndex + |bytes|;
    }

    /** Scatter read: what does not fit in the writable zone arrives in the stack block and is appended. */
    method ReadFromFd(outcome: ReadOutcome) returns (n: int, savedErrno: int)
      requires Valid()
      requires outcome.Delivered? ==> |outcome.data| <= ReadCapacity()
      modifies this, data
      ensures Valid() && (data == old(data) || fresh(data))
      ensures outcome.ReadFailed? ==> n == -1 && savedErrno == outcome.errno && Contents() == old(Contents())
      ensures outcome.Delivered? ==> n == |outcome.data| && Contents() == old(Contents()) + outcome.data
      ensures peak == Max(old(peak), |Contents()|)
    {
      n, savedErrno := -1, 0;
      var writableBytes := WritableBytes();
      match outcome {
        case ReadFailed(errno) =>
          savedErrno := errno;
        case Delivered(bytes) =>
          n := |bytes|;
          var direct := Min(n, writableBytes);
          CopyIn(bytes[..direct], Contents());
          peak := Max(peak, writeIndex - readIndex);
          if n > writableBytes {
            WriteToBuffer(bytes[writableBytes..]);
            assert bytes[..direct] + bytes[writableBytes..] == bytes;
            Assoc(old(Contents()), bytes[..direct], bytes[writableBytes..]);
          } else {
            assert bytes[..direct] == bytes;
          }
      }
    }

    /** Offers the whole readable zone to the socket and consumes what it took. */
    method WriteToFd(socket: Socket, outcome: IoOutcome) returns (result: IoResult)
      requires Valid()
      modifies this`readIndex, this`writeIndex, socket`wire
      ensures Valid()
      ensures socket.wire + Contents() == old(socket.wire + Contents())
      ensures result == socket.Result(outcome, |old(Contents())|)
      ensures |socket.wire| == |old(socket.wire)| + result.Moved()
    {
      var offered := data[readIndex..writeIndex];
      result := socket.Write(offered, outcome);
      if result.Moved? {
        MaintainReadIndex(result.n);
      }
    }
  }
}
