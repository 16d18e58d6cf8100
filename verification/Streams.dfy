/** Streams: a growable memory block shared by copies, and a pair of cursors each copy has of its own. */
module Streams {
  import opened Bytes
  import opened Chunks

  /** A block of malloc'ed memory; its capacity is |data|. */
  class StreamBuf {
    var data: seq<byte>

    constructor (size: nat)
      ensures |data| == if size == 0 then 0 else NextPow2(size)
    {
      var memory := new byte[if size == 0 then 0 else NextPow2(size)];
      data := memory[..];
    }

    /** realloc: a block of the new size that keeps what fits of the old bytes; what is behind them is arbitrary. */
    method Allocate(size: nat)
      modifies this
      ensures size == 0 ==> data == old(data)
      ensures size > 0 ==> |data| == NextPow2(size)
      ensures forall i :: 0 <= i < |data| && i < |old(data)| ==> data[i] == old(data[i])
    {
      if 0 < size {
        var capacity := NextPow2(size);
        if capacity <= |data| {
          data := data[..capacity];
        } else {
          var memory := new byte[capacity - |data|];
          data := data + memory[..];
        }
      }
    }
  }

  class Stream {
    const buf: StreamBuf
    var read: nat
    var written: nat
    ghost var chunk: Chunk  // the memory, cut at the cursors

    ghost predicate Valid()
      reads this, buf
    {
      && read == |chunk.past|
      && written == |chunk.past| + |chunk.readable|
      && buf.data == chunk.Memory()
    }

    constructor (size: nat)
      ensures Valid() && fresh(buf)
      ensures chunk == Chunk([], [], chunk.spare)
      ensures |chunk.spare| == if size == 0 then 0 else NextPow2(size)
    {
      buf := new StreamBuf(size);
      read, written := 0, 0;
      new;
      chunk := Chunk([], [], buf.data);
    }

    /** A copy shares the memory and starts with the same cursors. */
    constructor Copy(other: Stream)
      requires other.Valid()
      ensures Valid() && buf == other.buf && chunk == other.chunk
    {
      buf := other.buf;
      read, written, chunk := other.read, other.written, other.chunk;
    }

    /** Makes room for size more bytes without disturbing those already there. */
    method Verify(size: nat)
      requires Valid()
      modifies this`chunk, buf
      ensures Valid() && chunk == Chunk(old(chunk.past), old(chunk.readable), chunk.spare)
      ensures old(chunk.spare) <= chunk.spare && size <= |chunk.spare|
      ensures |buf.data| == Chunks.Verify(Growth(|old(buf.data)|, written, 0), size).capacity
    {
      if |buf.data| - written < size {
        NextPow2Least(written + size);
        buf.Allocate(written + size);
        chunk := Chunk(chunk.past, chunk.readable, buf.data[written..]);
        assert buf.data[..written] == chunk.past + chunk.readable;
      }
    }

    method Write(bytes: seq<byte>)
      requires Valid()
      modifies this`written, this`chunk, buf
      ensures Valid() && chunk == Chunk(old(chunk.past), old(chunk.readable) + bytes, chunk.spare)
    {
      Verify(|bytes|);
      buf.data := buf.data[..written] + bytes + buf.data[written + |bytes|..];
      written := written + |bytes|;
      chunk := Chunk(chunk.past, chunk.readable + bytes, chunk.spare[|bytes|..]);
    }

    /** Reserves size bytes whose contents are whatever memory holds. */
    method Reserve(size: nat)
      requires Valid()
      modifies this`written, this`chunk, buf
      ensures Valid() && chunk == Chunk(old(chunk.past), chunk.readable, chunk.spare)
      ensures old(chunk.readable) <= chunk.readable && |chunk.readable| == |old(chunk.readable)| + size
    {
      Verify(size);
      written := written + size;
      chunk := Committed(chunk, size);
    }

    method Commit(size: nat)
      requires Valid() && size <= |chunk.spare|
      modifies this`written, this`chunk
      ensures Valid() && chunk == Committed(old(chunk), size)
    {
      written := written + size;
      chunk := Committed(chunk, size);
    }

    method Consume(size: nat)
      requires Valid() && size <= |chunk.readable|
      modifies this`read, this`chunk
      ensures Valid() && chunk == Consumed(old(chunk), size)
    {
      read := read + size;
      chunk := Consumed(chunk, size);
    }

    method Reset()
      requires Valid()
      modifies this
      ensures Valid() && chunk == WasReset(old(chunk))
    {
      read, written := 0, 0;
      chunk := WasReset(chunk);
    }

    /** The first size readable bytes. */
    function Peek(size: nat): (bytes: seq<byte>)
      reads this, buf
      requires Valid() && size <= |chunk.readable|
      ensures bytes == chunk.readable[..size]
    {
      buf.data[read..read + size]
    }
  }
}
