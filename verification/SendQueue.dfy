/** The send queue: streams waiting to be written to a socket, drained from the front in arbitrary portions. */
module SendQueues {
  import opened Bytes
  import C = Chunks
  import opened Streams

  /** What the assertions of consume demand: no empty stream is met before size bytes are consumed. */
  ghost predicate Drainable(q: seq<C.Chunk>, size: nat) {
    size == 0 ||
    (q != [] && q[0].readable != [] && (size <= |q[0].readable| || Drainable(q[1..], size - |q[0].readable|)))
  }

  /** The queue after size bytes have been consumed. */
  function Drain(q: seq<C.Chunk>, size: nat): seq<C.Chunk> {
    if size == 0 || q == [] then q
    else if size < |q[0].readable| then [C.Consumed(q[0], size)] + q[1..]
    else Drain(q[1..], size - |q[0].readable|)
  }

  ghost predicate NoneEmpty(q: seq<C.Chunk>) {
    forall c :: c in q ==> c.readable != []
  }

  /** Exactly when consume meets its assertions: enough bytes, and no empty stream in front of the last of them. */
  lemma {:induction false} DrainableIff(q: seq<C.Chunk>, size: nat)
    ensures Drainable(q, size) <==>
              size <= |C.Contents(q)| &&
              forall i :: 0 <= i < |q| && |C.Contents(q[..i])| < size ==> q[i].readable != []
  {
    if size > 0 && q != [] {
      assert q[..0] == [];
      forall i | 0 < i <= |q|
        ensures |C.Contents(q[..i])| == |q[0].readable| + |C.Contents(q[1..][..i - 1])|
      {
        assert q[..i] == [q[0]] + q[1..][..i - 1];
        C.Cons(q[0], q[1..][..i - 1]);
      }
      if q[0].readable != [] && size > |q[0].readable| {
        var rest := size - |q[0].readable|;
        DrainableIff(q[1..], rest);
        assert (forall i :: 0 <= i < |q| && |C.Contents(q[..i])| < size ==> q[i].readable != []) <==>
               (forall i :: 0 <= i < |q[1..]| && |C.Contents(q[1..][..i])| < rest ==> q[1..][i].readable != [])
        by {
          AllBehindFirst(q, size);
        }
      }
    }
  }

  lemma AllBehindFirst(q: seq<C.Chunk>, size: nat)
    requires q != [] && q[0].readable != [] && size > |q[0].readable|
    requires forall i :: 0 < i <= |q| ==> |C.Contents(q[..i])| == |q[0].readable| + |C.Contents(q[1..][..i - 1])|
    ensures var rest := size - |q[0].readable|;
            (forall i :: 0 <= i < |q| && |C.Contents(q[..i])| < size ==> q[i].readable != []) <==>
            (forall i :: 0 <= i < |q[1..]| && |C.Contents(q[1..][..i])| < rest ==> q[1..][i].readable != [])
  {
    var rest := size - |q[0].readable|;
    if forall i :: 0 <= i < |q| && |C.Contents(q[..i])| < size ==> q[i].readable != [] {
      forall i | 0 <= i < |q[1..]| && |C.Contents(q[1..][..i])| < rest
        ensures q[1..][i].readable != []
      {
        assert |C.Contents(q[..i + 1])| < size && q[1..][i] == q[i + 1];
      }
    }
    if forall i :: 0 <= i < |q[1..]| && |C.Contents(q[1..][..i])| < rest ==> q[1..][i].readable != [] {
      forall i | 0 <= i < |q| && |C.Contents(q[..i])| < size
        ensures q[i].readable != []
      {
        if i > 0 {
          assert |C.Contents(q[1..][..i - 1])| < rest && q[1..][i - 1] == q[i];
        }
      }
    }
  }

  lemma {:induction false} NoneEmptyIsDrainable(q: seq<C.Chunk>, size: nat)
    requires NoneEmpty(q) && size <= |C.Contents(q)|
    ensures Drainable(q, size)
  {
    if size > 0 && q != [] && size > |q[0].readable| {
      NoneEmptyIsDrainable(q[1..], size - |q[0].readable|);
    }
  }

  /** Consuming removes exactly the first size bytes, and leaves no empty stream behind. */
  lemma {:induction false} DrainEffect(q: seq<C.Chunk>, size: nat)
    requires size <= |C.Contents(q)|
    ensures C.Contents(Drain(q, size)) == C.Contents(q)[size..]
    ensures NoneEmpty(q) ==> NoneEmpty(Drain(q, size))
  {
    if size > 0 && q != [] {
      C.DropFront(q[0].readable, C.Contents(q[1..]), C.Min(size, |q[0].readable|));
      if size < |q[0].readable| {
        C.Cons(C.Consumed(q[0], size), q[1..]);
      } else {
        DrainEffect(q[1..], size - |q[0].readable|);
      }
    }
  }

  class SendQueue {
    var streams: seq<Stream>
    ghost var chunks: seq<C.Chunk>  // the streams as values

    /** The cursors are the queue's own; the memory under them may be shared with other streams. */
    ghost predicate Valid()
      reads this, streams, set s | s in streams :: s.buf
    {
      && |chunks| == |streams|
      && (forall i, j :: 0 <= i < j < |streams| ==> streams[i] != streams[j])
      && (forall i :: 0 <= i < |streams| ==> streams[i].Valid() && streams[i].chunk == chunks[i])
    }

    constructor ()
      ensures Valid() && chunks == []
    {
      streams, chunks := [], [];
    }

    method Clear()
      modifies this
      ensures Valid() && chunks == []
    {
      streams, chunks := [], [];
    }

    /** Copies data into a stream of its own. */
    method StreamOf(data: seq<byte>) returns (stream: Stream)
      ensures fresh(stream) && fresh(stream.buf) && stream.Valid() && stream.chunk.readable == data
    {
      stream := new Stream(|data|);
      stream.Write(data);
      assert stream.chunk.readable == data;
    }

    method PushBytes(data: seq<byte>)
      requires Valid()
      modifies this
      ensures Valid() && C.Contents(chunks) == C.Contents(old(chunks)) + data
      ensures data != [] && NoneEmpty(old(chunks)) ==> NoneEmpty(chunks)
    {
      var s := StreamOf(data);
      C.Append(chunks, s.chunk);
      streams, chunks := streams + [s], chunks + [s.chunk];
    }

    /** Pushes a copy with cursors of its own: the memory is shared, and stays as it is. */
    method PushStream(stream: Stream)
      requires Valid() && stream.Valid()
      modifies this
      ensures Valid() && chunks == old(chunks) + [stream.chunk]
      ensures C.Contents(chunks) == C.Contents(old(chunks)) + stream.chunk.readable
    {
      var s := new Stream.Copy(stream);
      C.Append(chunks, s.chunk);
      streams, chunks := streams + [s], chunks + [s.chunk];
    }

    /** The body of Consume's loop: takes what the front stream has of the left bytes, and drops it when empty. */
    method ConsumeFront(left: nat) returns (rest: nat)
      requires Valid() && streams != [] && chunks[0].readable != [] && left > 0
      modifies this, streams[0]
      ensures Valid() && (streams == old(streams) || streams == old(streams)[1..])
      ensures rest == left - C.Min(|old(chunks)[0].readable|, left)
      ensures chunks == if left < |old(chunks)[0].readable|
                        then [C.Consumed(old(chunks)[0], left)] + old(chunks)[1..] else old(chunks)[1..]
    {
      var front := streams[0];
      assert front.Valid();
      var readable := C.Min(front.written - front.read, left);
      front.Consume(readable);
      rest := left - readable;
      if front.read == front.written {
        streams, chunks := streams[1..], chunks[1..];
      } else {
        chunks := [front.chunk] + chunks[1..];
      }
    }

    /** Consumes size bytes from the front. No memory is written, so queues that share it do not notice. */
    method Consume(size: nat)
      requires Valid() && Drainable(chunks, size)
      modifies this, streams
      ensures Valid() && chunks == Drain(old(chunks), size)
      ensures forall s :: s in streams ==> s in old(streams)
    {
      var left := size;
      while 0 < left
        invariant Valid() && Drainable(chunks, left)
        invariant Drain(old(chunks), size) == Drain(chunks, left)
        invariant forall s :: s in streams ==> s in old(streams)
      {
        assert streams[0] in old(streams);
        left := ConsumeFront(left);
      }
    }
  }
}
