/** The encoder: turns messages into framed streams, and cuts frames off a receive queue. */
module Encoders {
  import opened Bytes
  import C = Chunks
  import opened Streams
  import opened Frames
  import opened RecvQueues

  /** What decode hands back: nothing yet, a stream with one message, or an exception. */
  datatype Decoded = NoFrame | Frame(stream: Stream) | Thrown

  /** What is known of the next frame from its size field. */
  datatype SizeCheck = TooFew | SizeRefused | Sized(size: nat)

  class Encoder {
    const codec: Codec

    constructor (codec: Codec)
      ensures this.codec == codec
    {
      this.codec := codec;
    }

    /** doEncode of the derived class: transforms everything behind the size field. */
    method DoEncode(stream: Stream)
      requires stream.Valid() && |stream.chunk.past| == 0 && |stream.chunk.readable| >= 4
      modifies stream, stream.buf
      ensures stream.Valid() && |stream.chunk.past| == 0
      ensures |stream.chunk.readable| == 4 + |codec.doEncode(old(stream.chunk.readable)[4..])|
      ensures stream.chunk.readable[4..] == codec.doEncode(old(stream.chunk.readable)[4..])
    {
      var plain := stream.Peek(stream.written);
      ghost var c := stream.chunk;
      assert plain == c.readable;
      stream.Reset();
      stream.Write(plain[..4] + codec.doEncode(plain[4..]));
      assert stream.chunk.readable == plain[..4] + codec.doEncode(plain[4..]);
    }

    /** doDecode of the derived class: transforms what is readable. */
    method DoDecode(stream: Stream)
      requires stream.Valid()
      modifies stream, stream.buf
      ensures stream.Valid() && stream.chunk.readable == codec.doDecode(old(stream.chunk.readable))
    {
      assert stream.written - stream.read == |stream.chunk.readable|;
      var body := stream.Peek(stream.written - stream.read);
      assert body == stream.chunk.readable;
      stream.Reset();
      stream.Write(codec.doDecode(body));
    }

    /** Writes the number of bytes behind the size field into it, as a 32-bit integer. */
    method SetSize(stream: Stream)
      requires stream.Valid() && |stream.chunk.past| == 0 && |stream.chunk.readable| >= 4
      modifies stream`chunk, stream.buf
      ensures stream.Valid() && |stream.chunk.past| == 0
      ensures var body := old(stream.chunk.readable)[4..];
              stream.chunk.readable == ToLE(|body|, 4) + body
    {
      ghost var c := stream.chunk;
      var field := ToLE(stream.written - 4, 4);
      stream.buf.data := field + stream.buf.data[4..];
      stream.chunk := C.Chunk(c.past, field + c.readable[4..], c.spare);
    }

    method Encode(m: Message, reserved: nat) returns (stream: Stream, ghost header: seq<byte>)
      ensures fresh(stream) && fresh(stream.buf) && stream.Valid()
      ensures |header| == codec.headerSize
      ensures stream.chunk.readable == Frames.Frame(codec, m, header)
      ensures IsFrameOf(codec, m, header, stream.chunk.readable)
    {
      stream := new Stream(reserved);
      stream.Reserve(4);
      stream.Reserve(codec.headerSize);
      header := stream.chunk.readable[4..];
      ghost var front := stream.chunk.readable;
      stream.Write(ToLE(m.no, 2));
      stream.Write(m.payload);
      assert stream.chunk.readable[4..] == header + m.Bytes() by {
        assert stream.chunk.readable == front + ToLE(m.no, 2) + m.payload;
        assert front == front[..4] + header;
      }
      DoEncode(stream);
      SetSize(stream);
      FrameIs(codec, m, header);
    }

    method ValidateSize(queue: RecvQueue) returns (check: SizeCheck)
      requires queue.Valid()
      ensures var s := C.Contents(queue.chunks);
              check == if |s| < 4 + codec.MinimumSize() then TooFew
                       else if !codec.limit(SizeField(s)) || SizeField(s) < codec.MinimumSize() then SizeRefused
                       else Sized(SizeField(s))
    {
      var readable := queue.ReadableSize();
      if readable < 4 + codec.MinimumSize() {
        return TooFew;
      }
      var field := queue.Peek(4);
      var size := FromLE(field);
      if !codec.limit(size) || size < codec.MinimumSize() {
        return SizeRefused;
      }
      return Sized(size);
    }

    /** Whether a whole frame has arrived; makes room for the rest of it when it has not. */
    method Enough(queue: RecvQueue, size: nat) returns (enough: bool, ghost memory: seq<byte>)
      requires queue.Valid()
      modifies queue
      ensures queue.Valid() && enough == (|C.Contents(old(queue.chunks))| >= size + 4)
      ensures forall s :: s in queue.streams ==> s in old(queue.streams) || (fresh(s) && fresh(s.buf))
      ensures var q := old(queue.chunks);
              var missing := size + 4 - |C.Contents(q)|;
              if enough || |C.Spares(q)| >= missing then queue.chunks == q && queue.streams == old(queue.streams)
              else queue.chunks == C.Prepare(q, missing, memory)
                   && |memory| == C.NextPow2(C.Max(missing, C.DEFAULT_BUF_SIZE))
    {
      var packetSize := size + 4;
      var readable := queue.ReadableSize();
      memory := [];
      enough := readable >= packetSize;
      if !enough {
        var writable := queue.WritableSize();
        if readable + writable < packetSize {
          memory := queue.Prepare(packetSize - readable);
        }
      }
    }

    /** Copies the next size bytes into a stream of their own. */
    method CopyBody(queue: RecvQueue, size: nat) returns (stream: Stream)
      requires queue.Valid() && 0 < size <= |C.Contents(queue.chunks)|
      ensures fresh(stream) && fresh(stream.buf) && stream.Valid()
      ensures stream.chunk.readable == C.Contents(queue.chunks)[..size]
      ensures queue.Valid()
    {
      stream := new Stream(size);
      var body := queue.Peek(size);
      stream.Write(body);
      assert stream.chunk.readable == body;
    }

    /** Takes a frame body of the given size off the queue: the front buffer itself when it holds just that. */
    method TakeBody(queue: RecvQueue, size: nat) returns (stream: Stream)
      requires queue.Valid() && queue.chunks != [] && 0 < size <= |C.Contents(queue.chunks)|
      modifies queue, queue.streams
      ensures stream.Valid() && stream.chunk.readable == C.Contents(old(queue.chunks))[..size]
      ensures (fresh(stream) && fresh(stream.buf)) || stream in old(queue.streams)
      ensures queue.Valid() && queue.chunks == Frames.TakeBody(old(queue.chunks), size)
      ensures forall s :: s in queue.streams ==> s in old(queue.streams) && s != stream && s.buf != stream.buf
    {
      FastPathIsSlowPath(queue.chunks, size);
      var detachable := queue.Detachable(size);
      if detachable {
        stream := queue.Detach();
      } else {
        stream := CopyBody(queue, size);
        queue.Pop(size);
      }
    }

    /** Takes a frame that has arrived off the queue. */
    method TakeFrame(queue: RecvQueue, size: nat) returns (stream: Stream)
      requires queue.Valid() && 0 < size && size + 4 <= |C.Contents(queue.chunks)|
      modifies queue, queue.streams
      ensures queue.Valid() && queue.chunks == TakeFrameOff(old(queue.chunks), size)
      ensures stream.Valid() && stream.chunk.readable == C.Contents(old(queue.chunks))[4..4 + size]
      ensures (fresh(stream) && fresh(stream.buf)) || stream in old(queue.streams)
      ensures forall s :: s in queue.streams ==> s != stream && s.buf != stream.buf
    {
      ghost var s := C.Contents(queue.chunks);
      C.PopEffect(queue.chunks, 4);
      queue.Pop(4);
      stream := TakeBody(queue, size);
      assert s[4..][..size] == s[4..4 + size];
    }

    /** Undoes the encoding of a frame body that no longer belongs to the queue, and drops its header. */
    method Undo(ghost queue: RecvQueue, stream: Stream)
      requires queue.Valid() && stream.Valid() && codec.Sound()
      requires |stream.chunk.readable| >= codec.MinimumSize()
      requires forall s :: s in queue.streams ==> s != stream && s.buf != stream.buf
      modifies stream, stream.buf
      ensures stream.Valid() && stream.chunk.readable == codec.Strip(codec.doDecode(old(stream.chunk.readable)))
      ensures queue.Valid()
    {
      DoDecode(stream);
      stream.Consume(codec.headerSize);
    }

    /** The rest of Decode, once the size field has been read and is valid. */
    method DecodeSized(queue: RecvQueue, size: nat) returns (result: Decoded, ghost memory: seq<byte>)
      requires queue.Valid() && codec.Sound()
      requires var s := C.Contents(queue.chunks);
               && |s| >= 4 + codec.MinimumSize() && size == SizeField(s) && codec.limit(size)
                 && size >= codec.MinimumSize()
      modifies queue, queue.streams, set s | s in queue.streams :: s.buf
      ensures queue.Valid() && BufferFor(codec, old(queue.chunks), memory)
      ensures queue.chunks == DecodeQueue(codec, old(queue.chunks), memory)
      ensures var s := C.Contents(old(queue.chunks));
              if |s| < size + 4 then result == NoFrame
              else result.Frame? && result.stream.Valid()
                   && result.stream.chunk.readable == codec.Strip(codec.doDecode(s[4..4 + size]))
                   && forall t :: t in queue.streams ==> t != result.stream && t.buf != result.stream.buf
    {
      var enough;
      enough, memory := Enough(queue, size);
      if enough {
        var stream := TakeFrame(queue, size);
        Undo(queue, stream);
        result := Decoded.Frame(stream);
      } else {
        result := NoFrame;
      }
    }

    method Decode(queue: RecvQueue) returns (result: Decoded, ghost memory: seq<byte>)
      requires queue.Valid() && codec.Sound()
      modifies queue, queue.streams, set s | s in queue.streams :: s.buf
      ensures queue.Valid()
      ensures BufferFor(codec, old(queue.chunks), memory)
      ensures queue.chunks == DecodeQueue(codec, old(queue.chunks), memory)
      ensures match Parse(codec, C.Contents(old(queue.chunks)))
              case NeedMore => result == NoFrame
              case Refused => result == Thrown
              case Got(bytes) => result.Frame? && result.stream.Valid() && result.stream.chunk.readable == bytes
                                 && forall t :: t in queue.streams ==> t != result.stream && t.buf != result.stream.buf
    {
      memory := [];
      var check := ValidateSize(queue);
      match check {
        case TooFew =>
          result := NoFrame;
        case SizeRefused =>
          result := Thrown;
        case Sized(size) =>
          result, memory := DecodeSized(queue, size);
      }
    }
  }
}
