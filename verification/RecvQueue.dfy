/** The receive queue: a deque of streams filled by scatter reads and drained from the front. */
module RecvQueues {
  import opened Bytes
  import C = Chunks
  import opened Streams

  /** One entry of what the queue hands to a socket: free bytes of one buffer. */
  datatype MutableBuffer = MutableBuffer(buf: StreamBuf, offset: nat, size: nat)

  /** Where a scatter read stands: the next stream to look at, and the data not yet written. */
  datatype Progress = Progress(next: nat, rest: seq<byte>)

  /** The free regions of streams ss that look like q, in order; full streams have none. */
  function FreeRegions(ss: seq<Stream>, q: seq<C.Chunk>): seq<MutableBuffer>
    requires |ss| == |q|
  {
    if q == [] then []
    else
      var n := |q| - 1;
      FreeRegions(ss[..n], q[..n]) + if q[n].spare == [] then [] else [FreeRegion(ss[n], q[n])]
  }

  function FreeRegion(s: Stream, c: C.Chunk): MutableBuffer {
    MutableBuffer(s.buf, |c.past| + |c.readable|, |c.spare|)
  }

  lemma FreeRegionsStep(ss: seq<Stream>, q: seq<C.Chunk>, i: nat)
    requires |ss| == |q| && i < |q|
    ensures FreeRegions(ss[..i + 1], q[..i + 1])
            == FreeRegions(ss[..i], q[..i]) + if q[i].spare == [] then [] else [FreeRegion(ss[i], q[i])]
  {
    assert ss[..i + 1][..i] == ss[..i] && q[..i + 1][..i] == q[..i];
  }

  /** buffers are the free regions of streams ss that look like q, in order; owner tells whose they are. */
  ghost predicate Describes(buffers: seq<MutableBuffer>, owner: seq<nat>, ss: seq<Stream>, q: seq<C.Chunk>) {
    && |owner| == |buffers| && |q| == |ss| && C.WithSpace(q, |q|, owner)
    && forall j :: 0 <= j < |owner| ==> buffers[j] == FreeRegion(ss[owner[j]], q[owner[j]])
  }

  /** Whose the free regions are. */
  lemma Owners(ss: seq<Stream>, q: seq<C.Chunk>) returns (owner: seq<nat>)
    requires |ss| == |q|
    ensures Describes(FreeRegions(ss, q), owner, ss, q)
  {
    owner := [];
    var regions: seq<MutableBuffer> := [];
    assert ss[..0] == [] && q[..0] == [];
    for i := 0 to |q|
      invariant regions == FreeRegions(ss[..i], q[..i]) && |owner| == |regions| && C.WithSpace(q, i, owner)
      invariant forall j :: 0 <= j < |owner| ==> regions[j] == FreeRegion(ss[owner[j]], q[owner[j]])
    {
      FreeRegionsStep(ss, q, i);
      C.WithSpaceStep(q, i, owner);
      if q[i].spare != [] {
        owner, regions := owner + [i], regions + [FreeRegion(ss[i], q[i])];
      }
    }
    assert ss[..|q|] == ss && q[..|q|] == q;
  }

  /** The first n chunks are those of r already, and the others are still those of q. */
  ghost predicate Halfway(chunks: seq<C.Chunk>, q: seq<C.Chunk>, r: seq<C.Chunk>, n: nat) {
    && n <= |q| == |r| == |chunks|
    && (forall k :: 0 <= k < n ==> chunks[k] == r[k])
    && forall k :: n <= k < |q| ==> chunks[k] == q[k]
  }

  lemma OneFurther(before: seq<C.Chunk>, chunks: seq<C.Chunk>, q: seq<C.Chunk>, r: seq<C.Chunk>, i: nat)
    requires Halfway(before, q, r, i) && i < |q| && chunks == before[i := r[i]]
    ensures Halfway(chunks, q, r, i + 1)
  {
  }

  lemma LastOne(chunks: seq<C.Chunk>, q: seq<C.Chunk>, r: seq<C.Chunk>, i: nat)
    requires Halfway(chunks, q, r, i) && forall k :: i <= k < |q| ==> q[k] == r[k]
    ensures chunks == r
  {
  }

  /** How far a scatter read from q to r has come: the next chunk, and the data that is left for it and those behind. */
  ghost predicate Received(chunks: seq<C.Chunk>, q: seq<C.Chunk>, r: seq<C.Chunk>, p: Progress) {
    && p.next <= |q| == |r| == |chunks|
    && C.Filling(q, r, p.next, p.rest)
    && Halfway(chunks, q, r, p.next)
  }

  /** The next region is that of the next chunk with free space: what it is to receive. */
  lemma NextRegion(buffers: seq<MutableBuffer>, owner: seq<nat>, ss: seq<Stream>, chunks: seq<C.Chunk>, q: seq<C.Chunk>,
                   r: seq<C.Chunk>, i: nat, j: nat, data: seq<byte>, n: nat)
    requires Describes(buffers, owner, ss, q) && j < |buffers| && i == if j == 0 then 0 else owner[j - 1] + 1
    requires Received(chunks, q, r, Progress(i, data)) && n == C.Min(|data|, buffers[j].size)
    ensures var o := owner[j];
            && i <= o < |q| && chunks[o] == q[o] && buffers[j] == FreeRegion(ss[o], q[o]) && n <= |q[o].spare|
            && (forall k :: i <= k < o ==> r[k] == q[k])
            && r[o] == (if n == 0 then q[o] else C.Filled(q[o], data[..n])) && C.Filling(q, r, o + 1, data[n..])
  {
    var o := owner[j];
    C.FullBetween(q, owner, j);
    C.SkipFull(q, r, i, o, data);
    assert data[..n][..n] == data[..n];
  }

  /** One more chunk with free space has received what fits; those in front of it had none. */
  lemma ReceivedOneMore(before: seq<C.Chunk>, chunks: seq<C.Chunk>, q: seq<C.Chunk>, r: seq<C.Chunk>, i: nat, o: nat,
                        data: seq<byte>, rest: seq<byte>)
    requires Received(before, q, r, Progress(i, data)) && i <= o < |q| && C.Filling(q, r, o + 1, rest)
    requires (forall k :: i <= k < o ==> r[k] == q[k]) && chunks == before[o := r[o]]
    ensures Received(chunks, q, r, Progress(o + 1, rest))
  {
  }

  class RecvQueue {
    var streams: seq<Stream>
    ghost var chunks: seq<C.Chunk>  // the streams as values

    /** The streams have memory of their own, and chunks tells what is in them. */
    ghost predicate Valid()
      reads this, streams, set s | s in streams :: s.buf
    {
      && |chunks| == |streams|
      && (forall i, j :: 0 <= i < j < |streams| ==> streams[i] != streams[j] && streams[i].buf != streams[j].buf)
      && (forall i :: 0 <= i < |streams| ==> streams[i].Valid() && streams[i].chunk == chunks[i])
    }

    constructor ()
      ensures Valid() && chunks == []
    {
      streams, chunks := [], [];
    }

    method Clear()
      modifies this
      ensures Valid() && chunks == []
    {
      streams, chunks := [], [];
    }

    /** Adds an empty buffer of the given size at the back. */
    method EmplaceBack(size: nat) returns (ghost memory: seq<byte>)
      requires Valid() && size > 0
      modifies this
      ensures Valid() && |memory| == C.NextPow2(size)
      ensures chunks == old(chunks) + [C.Chunk([], [], memory)]
      ensures |streams| == |old(streams)| + 1 && old(streams) == streams[..|old(streams)|]
      ensures var s := streams[|old(streams)|]; fresh(s) && fresh(s.buf)
    {
      var s := new Stream(size);
      memory := s.chunk.spare;
      chunks := chunks + [C.Chunk([], [], memory)];
      streams := streams + [s];
    }

    method Prepare(size: nat) returns (ghost memory: seq<byte>)
      requires Valid()
      modifies this
      ensures Valid()
      ensures |memory| == C.NextPow2(C.Max(size, C.DEFAULT_BUF_SIZE)) && chunks == C.Prepare(old(chunks), size, memory)
      ensures |memory| >= 4096 && |memory| >= size
      ensures forall s :: s in streams ==> s in old(streams) || (fresh(s) && fresh(s.buf))
    {
      C.NextPow2Least(C.Max(size, C.DEFAULT_BUF_SIZE));
      var writable := WritableSize();
      if streams == [] || writable < size {
        memory := EmplaceBack(C.Max(size, C.DEFAULT_BUF_SIZE));
      } else {
        memory := seq(C.NextPow2(C.Max(size, C.DEFAULT_BUF_SIZE)), _ => 0);
      }
    }

    method ReadableSize() returns (size: nat)
      requires Valid()
      ensures size == |C.Contents(chunks)|
    {
      size := 0;
      for i := 0 to |streams|
        invariant |C.Contents(chunks)| == size + |C.Contents(chunks[i..])|
      {
        assert chunks[i..][1..] == chunks[i + 1..];
        size := size + (streams[i].written - streams[i].read);
      }
    }

    method WritableSize() returns (size: nat)
      requires Valid()
      ensures size == |C.Spares(chunks)|
    {
      size := 0;
      for i := 0 to |streams|
        invariant |C.Spares(chunks)| == size + |C.Spares(chunks[i..])|
      {
        assert chunks[i..][1..] == chunks[i + 1..];
        size := size + (|streams[i].buf.data| - streams[i].written);
      }
    }

    /** The body of Commit's loop: stream i takes what fits of the bytes left to commit. */
    method CommitStream(i: nat, left: nat) returns (rest: nat, done: bool)
      requires Valid() && i < |streams|
      modifies this`chunks, streams[i]
      ensures Valid() && done == (|old(chunks)[i].spare| >= left)
      ensures done ==> chunks == old(chunks)[i := C.Committed(old(chunks)[i], left)]
      ensures !done ==> rest == left - |old(chunks)[i].spare|
                        && chunks == old(chunks)[i := C.Committed(old(chunks)[i], left - rest)]
    {
      var stream := streams[i];
      assert stream.Valid();
      var writable := |stream.buf.data| - stream.written;
      done := writable >= left;
      if done {
        stream.Commit(left);
        rest := 0;
      } else {
        rest := left - writable;
        stream.Commit(writable);
      }
      chunks := chunks[i := stream.chunk];
    }

    /** Moves size bytes, or all free bytes when there are fewer, from the free space to the contents. */
    method Commit(size: nat)
      requires Valid()
      modifies this`chunks, streams
      ensures Valid() && chunks == C.Commit(old(chunks), size)
    {
      C.CommitIsCommitting(chunks, size);
      CommitLoop(size, C.Commit(chunks, size));
    }

    method CommitLoop(size: nat, ghost r: seq<C.Chunk>)
      requires Valid() && |r| == |chunks| && C.Committing(chunks, r, 0, size)
      modifies this`chunks, streams
      ensures Valid() && chunks == r
    {
      ghost var q := chunks;
      var left: nat, i := size, 0;
      while i < |streams|
        invariant 0 <= i <= |streams| == |q| && Valid()
        invariant C.Committing(q, r, i, left) && Halfway(chunks, q, r, i)
      {
        ghost var before := chunks;
        assert chunks[i] == q[i];
        var rest, done := CommitStream(i, left);
        OneFurther(before, chunks, q, r, i);
        if done {
          LastOne(chunks, q, r, i + 1);
          return;
        }
        left := rest;
        i := i + 1;
      }
      LastOne(chunks, q, r, i);
    }

    method Buffers() returns (buffers: seq<MutableBuffer>)
      requires Valid()
      ensures buffers == FreeRegions(streams, chunks)
    {
      buffers := [];
      for i := 0 to |streams|
        invariant buffers == FreeRegions(streams[..i], chunks[..i])
      {
        var stream := streams[i];
        var writable := |stream.buf.data| - stream.written;
        assert stream.Valid() && writable == |chunks[i].spare|;
        FreeRegionsStep(streams, chunks, i);
        if writable > 0 {
          buffers := buffers + [MutableBuffer(stream.buf, stream.written, writable)];
        }
      }
      assert streams[..|streams|] == streams && chunks[..|chunks|] == chunks;
    }

    /** The write of a socket to one of its buffers. */
    method WriteBuffer(buffer: MutableBuffer, ghost i: nat, data: seq<byte>)
      requires Valid() && i < |streams| && data != [] && |data| <= |chunks[i].spare|
      requires buffer.buf == streams[i].buf && buffer.offset == |chunks[i].past| + |chunks[i].readable|
      modifies this`chunks, streams`chunk, buffer.buf
      ensures Valid() && chunks == old(chunks)[i := C.Filled(old(chunks[i]), data)]
    {
      ghost var stream: Stream, c: C.Chunk := streams[i], chunks[i];
      var b := buffer.buf;
      b.data := b.data[..buffer.offset] + data + b.data[buffer.offset + |data|..];
      stream.chunk := C.Filled(c, data);
      assert stream.Valid() by {
        assert data[..|data|] == data;
        assert b.data == c.past + c.readable + (data + c.spare[|data|..]);
      }
      chunks := chunks[i := stream.chunk];
    }

    method ReceiveStep(buffers: seq<MutableBuffer>, ghost owner: seq<nat>, j: nat, data: seq<byte>,
                       ghost q: seq<C.Chunk>, ghost r: seq<C.Chunk>, ghost i: nat)
      returns (rest: seq<byte>)
      requires Valid() && Describes(buffers, owner, streams, q) && j < |buffers|
      requires i == (if j == 0 then 0 else owner[j - 1] + 1) && Received(chunks, q, r, Progress(i, data))
      modifies this`chunks, streams`chunk, buffers[j].buf
      ensures Valid() && Received(chunks, q, r, Progress(owner[j] + 1, rest))
    {
      ghost var o, before := owner[j], chunks;
      var n := C.Min(|data|, buffers[j].size);
      NextRegion(buffers, owner, streams, chunks, q, r, i, j, data, n);
      rest := data[n..];
      if n > 0 {
        WriteBuffer(buffers[j], o, data[..n]);
      }
      ReceivedOneMore(before, chunks, q, r, i, o, data, rest);
    }

    /** A scatter read: a socket fills the buffers it was given in order, until its data runs out. */
    method ReceiveInto(buffers: seq<MutableBuffer>, data: seq<byte>)
      requires Valid() && buffers == FreeRegions(streams, chunks) && |data| <= |C.Spares(chunks)|
      modifies this`chunks, streams`chunk, set s | s in streams :: s.buf
      ensures Valid() && chunks == C.Fill(old(chunks), data)
    {
      ghost var q, r := chunks, C.Fill(chunks, data);
      C.FillIsFilling(q, data);
      ghost var owner := Owners(streams, chunks);
      ReceiveRest(buffers, owner, 0, data, q, r);
    }

    /** The same from buffer j on. */
    method ReceiveRest(buffers: seq<MutableBuffer>, ghost owner: seq<nat>, j: nat, data: seq<byte>,
                       ghost q: seq<C.Chunk>, ghost r: seq<C.Chunk>)
      requires Valid() && Describes(buffers, owner, streams, q) && j <= |buffers|
      requires Received(chunks, q, r, Progress(if j == 0 then 0 else owner[j - 1] + 1, data))
      modifies this`chunks, streams`chunk, set s | s in streams :: s.buf
      ensures Valid() && chunks == r
      decreases |buffers| - j
    {
      if j < |buffers| {
        var rest := ReceiveStep(buffers, owner, j, data, q, r, if j == 0 then 0 else owner[j - 1] + 1);
        ReceiveRest(buffers, owner, j + 1, rest, q, r);
      } else {
        C.FullBetween(q, owner, j);
        C.SkipFull(q, r, if j == 0 then 0 else owner[j - 1] + 1, |q|, data);
        LastOne(chunks, q, r, if j == 0 then 0 else owner[j - 1] + 1);
      }
    }

    /** Copies out the first size readable bytes. */
    method Peek(size: nat) returns (bytes: seq<byte>)
      requires Valid() && size <= |C.Contents(chunks)|
      ensures bytes == C.Contents(chunks)[..size]
    {
      assert chunks[0..] == chunks;
      C.PeekEffect(chunks, 0, size);
      bytes := [];
      var left: nat := size;
      for i := 0 to |streams|
        invariant C.AndPeek(bytes, chunks, i, left) == C.PeekFrom(chunks, 0, size)
      {
        C.PeekStep(bytes, chunks, i, left);
        var readable := streams[i].written - streams[i].read;
        assert streams[i].Valid() && readable == |chunks[i].readable|;
        if readable >= left {
          bytes := bytes + streams[i].Peek(left);
          return;
        } else {
          left := left - readable;
          bytes := bytes + streams[i].Peek(readable);
        }
      }
    }

    /**
     * The body of Pop's loop: consumes from the front stream, and drops or resets it when nothing readable is left.
     */
    method TakeFront(size: nat)
      requires Valid() && streams != [] && size <= |chunks[0].readable|
      modifies this, streams[0]
      ensures Valid() && chunks == C.TakeFront(old(chunks), size)
      ensures streams == old(streams) || streams == old(streams)[1..]
    {
      var stream := streams[0];
      stream.Consume(size);
      if stream.read == stream.written {
        if |streams| == 1 && |stream.buf.data| == C.DEFAULT_BUF_SIZE {
          stream.Reset();
          chunks := [stream.chunk];
        } else {
          streams, chunks := streams[1..], chunks[1..];
        }
      } else {
        chunks := [stream.chunk] + chunks[1..];
      }
    }

    /** The body of Pop's loop: takes what the front stream has of the left bytes. */
    method PopFront(left: nat) returns (taken: nat)
      requires Valid() && streams != [] && left <= |C.Contents(chunks)|
      modifies this, streams[0]
      ensures Valid() && taken == C.Min(|old(chunks)[0].readable|, left) && chunks == C.TakeFront(old(chunks), taken)
      ensures left - taken <= |C.Contents(chunks)| && (taken < left ==> |streams| < |old(streams)|)
      ensures streams == old(streams) || streams == old(streams)[1..]
    {
      var stream := streams[0];
      assert stream.Valid();
      taken := C.Min(stream.written - stream.read, left);
      C.TakeFrontEffect(chunks, taken);
      TakeFront(taken);
    }

    /** Removes the first size readable bytes, dropping or resetting every buffer that becomes empty on the way. */
    method Pop(size: nat)
      requires Valid() && size <= |C.Contents(chunks)|
      modifies this, streams
      ensures Valid() && chunks == C.Pop(old(chunks), size)
      ensures forall i :: 0 <= i < |streams| ==> streams[i] in old(streams)
    {
      ghost var all := C.Pop(chunks, size);
      var readSize: nat := 0;
      while streams != []
        invariant Valid() && readSize <= size
        invariant forall i :: 0 <= i < |streams| ==> streams[i] in old(streams)
        invariant C.PopLeaves(chunks, size - readSize, all)
        decreases |streams|
      {
        ghost var before := chunks;
        var taken := PopFront(size - readSize);
        C.PopStep(before, size - readSize, taken, all);
        readSize := readSize + taken;
        if readSize == size {
          return;
        }
      }
    }

    method Detachable(size: nat) returns (yes: bool)
      requires Valid() && streams != []
      ensures yes == (|chunks[0].readable| == size)
    {
      assert streams[0].Valid();
      yes := streams[0].written - streams[0].read == size;
    }

    method Detach() returns (stream: Stream)
      requires Valid() && streams != []
      modifies this
      ensures stream == old(streams[0]) && stream.Valid() && stream.chunk == old(chunks[0])
      ensures Valid() && streams == old(streams[1..]) && chunks == old(chunks)[1..]
      ensures forall s :: s in streams ==> s != stream && s.buf != stream.buf
    {
      stream := streams[0];
      assert stream.Valid();
      streams, chunks := streams[1..], chunks[1..];
    }
  }
}
