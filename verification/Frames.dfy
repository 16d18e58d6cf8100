/** The frame format: what encode writes, and what decode reads off the front of a byte stream. */
module Frames {
  import opened Bytes
  import C = Chunks

  type u16 = n: int | 0 <= n < 0x1_0000

  /** A message as the encoder sees it: its number, and the bytes it serializes to. */
  datatype Message = Message(no: u16, payload: seq<byte>) {
    /** What the receiver of the message is handed. */
    function Bytes(): seq<byte> {
      ToLE(no, 2) + payload
    }
  }

  /** An encoder: the size of its header, its two transformations of a frame body, and its limit on sizes. */
  datatype Codec = Codec(headerSize: nat, doEncode: seq<byte> -> seq<byte>, doDecode: seq<byte> -> seq<byte>,
                         limit: nat -> bool)
  {
    function MinimumSize(): nat {
      2 + headerSize
    }

    /** A decoded body without its header. */
    function Strip(body: seq<byte>): seq<byte> {
      if headerSize == 0 then body
      else if |body| <= headerSize then []
      else body[headerSize..]
    }

    /** Decoding leaves room for the header that is dropped after it. */
    ghost predicate Sound() {
      forall body: seq<byte> :: |body| >= MinimumSize() ==> |doDecode(body)| >= headerSize
    }

    /** The two transformations fit together on this body, up to the header, which is the encoder's own. */
    predicate RoundTrips(body: seq<byte>) {
      |doEncode(body)| >= MinimumSize() && Strip(doDecode(doEncode(body))) == Strip(body)
    }

    /** The round-trip law between the two transformations. */
    ghost predicate Lawful() {
      forall body: seq<byte> :: |body| >= MinimumSize() ==> RoundTrips(body)
    }
  }

  /** The encoder that changes nothing. */
  function NullCodec(headerSize: nat): Codec {
    Codec(headerSize, body => body, body => body, size => true)
  }

  lemma NullCodecLawful(headerSize: nat)
    ensures NullCodec(headerSize).Lawful() && NullCodec(headerSize).Sound()
  {
  }

  /** The body of a frame after encoding; header is what the reserved header bytes happen to hold. */
  function EncodedBody(codec: Codec, m: Message, header: seq<byte>): seq<byte> {
    codec.doEncode(header + m.Bytes())
  }

  function Frame(codec: Codec, m: Message, header: seq<byte>): seq<byte> {
    var body := EncodedBody(codec, m, header);
    ToLE(|body|, 4) + body
  }

  /** The bytes are the number of the message in two bytes, least significant first, and its payload. */
  predicate Carries(bytes: seq<byte>, m: Message) {
    |bytes| >= 2 && FromLE(bytes[..2]) == m.no && bytes[2..] == m.payload
  }

  lemma BytesCarry(m: Message)
    ensures Carries(m.Bytes(), m)
  {
    LERoundTrip(m.no, 2);
    assert Pow256(2) == 256 * Pow256(1) && Pow256(1) == 256;
    assert m.Bytes()[..2] == ToLE(m.no, 2);
  }

  /**
   * The bytes are the encoded form of the header, of its full size, with number and payload of the message behind it,
   * and in front its size.
   */
  ghost predicate IsFrameOf(codec: Codec, m: Message, header: seq<byte>, f: seq<byte>) {
    exists plain ::
      && |plain| >= codec.headerSize && |header| == codec.headerSize
      && plain[..codec.headerSize] == header && Carries(plain[codec.headerSize..], m)
      && f == ToLE(|codec.doEncode(plain)|, 4) + codec.doEncode(plain)
  }

  lemma FrameIs(codec: Codec, m: Message, header: seq<byte>)
    requires |header| == codec.headerSize
    ensures IsFrameOf(codec, m, header, Frame(codec, m, header))
  {
    var plain := header + m.Bytes();
    BytesCarry(m);
    assert plain[codec.headerSize..] == m.Bytes();
  }

  /** In a frame that is not transformed: the size, the header, the number of the message and its payload. */
  lemma PlainFrame(headerSize: nat, m: Message, header: seq<byte>)
    requires |header| == headerSize
    ensures var f := Frame(NullCodec(headerSize), m, header);
            && |f| == 4 + headerSize + 2 + |m.payload|
            && FromLE(f[..4]) == (|f| - 4) % U32 && f[4..4 + headerSize] == header
            && FromLE(f[4 + headerSize..6 + headerSize]) == m.no && f[6 + headerSize..] == m.payload
  {
    var codec := NullCodec(headerSize);
    var f := Frame(codec, m, header);
    var plain := header + m.Bytes();
    BytesCarry(m);
    SizeFieldOfFrame(|plain|, plain, []);
    assert f == ToLE(|plain|, 4) + plain + [];
    assert f[4..] == plain;
    assert f[4 + headerSize..] == plain[headerSize..] == m.Bytes();
    assert f[4 + headerSize..6 + headerSize] == plain[headerSize..][..2];
  }

  /**
   * A message can be sent when the encoder can undo what it does to it, and its encoded body can be counted by
   * the 32-bit size field and passes the size limit.
   */
  predicate Sendable(codec: Codec, m: Message, header: seq<byte>) {
    var n := |EncodedBody(codec, m, header)|;
    |header| == codec.headerSize && codec.RoundTrips(header + m.Bytes()) && n < U32 && codec.limit(n)
  }

  lemma LawfulIsSendable(codec: Codec, m: Message, header: seq<byte>)
    requires codec.Lawful() && |header| == codec.headerSize
    ensures var n := |EncodedBody(codec, m, header)|;
            Sendable(codec, m, header) <==> n < U32 && codec.limit(n)
  {
    assert |header + m.Bytes()| >= codec.MinimumSize();
  }

  datatype Parsed = NeedMore | Refused | Got(bytes: seq<byte>)

  /** The size field at the front of s. */
  function SizeField(s: seq<byte>): nat
    requires |s| >= 4
  {
    FromLE(s[..4])
  }

  /** What decode makes of the bytes s received so far. */
  function Parse(codec: Codec, s: seq<byte>): Parsed
  {
    if |s| < 4 + codec.MinimumSize() then NeedMore
    else
      var size := SizeField(s);
      if !codec.limit(size) || size < codec.MinimumSize() then Refused
      else if |s| < size + 4 then NeedMore
      else Got(codec.Strip(codec.doDecode(s[4..4 + size])))
  }

  /** What decode leaves of them. */
  function Remainder(codec: Codec, s: seq<byte>): seq<byte>
  {
    if Parse(codec, s).Got? then s[4 + SizeField(s)..] else s
  }

  /** Where the pieces of a frame and of what follows it are. */
  lemma CutFrame(field: seq<byte>, body: seq<byte>, rest: seq<byte>)
    requires |field| == 4
    ensures var s := field + body + rest;
            s[..4] == field && s[4..4 + |body|] == body && s[4 + |body|..] == rest
  {
  }

  lemma SizeFieldOfFrame(n: nat, body: seq<byte>, rest: seq<byte>)
    ensures SizeField(ToLE(n, 4) + body + rest) == n % U32
  {
    CutFrame(ToLE(n, 4), body, rest);
    LERoundTrip(n, 4);
    assert Pow256(4) == U32 by {
      assert Pow256(1) == 256 && Pow256(2) == 256 * Pow256(1) && Pow256(3) == 256 * Pow256(2);
    }
  }

  lemma BodyDecodes(codec: Codec, m: Message, header: seq<byte>)
    requires Sendable(codec, m, header)
    ensures var body := EncodedBody(codec, m, header);
            && |body| >= codec.MinimumSize()
            && codec.Strip(codec.doDecode(body)) == m.Bytes()
  {
    var plain := header + m.Bytes();
    assert codec.Strip(plain) == m.Bytes();
  }

  /** Decoding the front of a stream gives back the message that was encoded there, and leaves what is behind it. */
  lemma ParseFrame(codec: Codec, m: Message, header: seq<byte>, rest: seq<byte>)
    requires Sendable(codec, m, header)
    ensures Parse(codec, Frame(codec, m, header) + rest) == Got(m.Bytes())
    ensures Remainder(codec, Frame(codec, m, header) + rest) == rest
  {
    var body := EncodedBody(codec, m, header);
    BodyDecodes(codec, m, header);
    SizeFieldOfFrame(|body|, body, rest);
    ParseWholeFrame(codec, ToLE(|body|, 4), body, rest);
  }

  lemma ParseWholeFrame(codec: Codec, field: seq<byte>, body: seq<byte>, rest: seq<byte>)
    requires codec.MinimumSize() <= |body| && codec.limit(|body|)
    requires |field| == 4 && SizeField(field + body + rest) == |body|
    ensures var s := field + body + rest;
            && Parse(codec, s) == Got(codec.Strip(codec.doDecode(body)))
            && Remainder(codec, s) == rest
  {
    CutFrame(field, body, rest);
    ParseSized(codec, field + body + rest, |body|);
  }

  /** What parsing makes of bytes that start with a legal size field. */
  lemma ParseSized(codec: Codec, s: seq<byte>, n: nat)
    requires n >= codec.MinimumSize() && codec.limit(n)
    requires |s| >= 4 ==> SizeField(s) == n
    ensures |s| < 4 + n ==> Parse(codec, s) == NeedMore
    ensures |s| >= 4 + n ==> Parse(codec, s) == Got(codec.Strip(codec.doDecode(s[4..4 + n])))
    ensures |s| >= 4 + n ==> Remainder(codec, s) == s[4 + n..]
  {
  }

  /** A proper prefix of a frame is never taken for one: decode asks for more, and nothing is refused. */
  lemma ParsePrefix(codec: Codec, m: Message, header: seq<byte>, s: seq<byte>)
    requires Sendable(codec, m, header)
    requires s < Frame(codec, m, header)
    ensures Parse(codec, s) == NeedMore
    ensures |s| >= 4 ==> SizeField(s) == |EncodedBody(codec, m, header)|
  {
    BodyDecodes(codec, m, header);
    ParseShort(codec, EncodedBody(codec, m, header), s);
  }

  lemma ParseShort(codec: Codec, body: seq<byte>, s: seq<byte>)
    requires codec.MinimumSize() <= |body| < U32 && codec.limit(|body|)
    requires |s| < 4 + |body| && s <= ToLE(|body|, 4) + body
    ensures Parse(codec, s) == NeedMore
    ensures |s| >= 4 ==> SizeField(s) == |body|
  {
    if |s| >= 4 {
      PrefixSizeField(body, s);
    }
    ParseSized(codec, s, |body|);
  }

  /**
   * On what has arrived so far of a stream that starts with a frame, decode gives the message if and only if the
   * whole frame has arrived, and refuses nothing.
   */
  lemma ParseExact(codec: Codec, m: Message, header: seq<byte>, rest: seq<byte>, s: seq<byte>)
    requires Sendable(codec, m, header) && s <= Frame(codec, m, header) + rest
    ensures Parse(codec, s) == if |s| >= |Frame(codec, m, header)| then Got(m.Bytes()) else NeedMore
  {
    var f := Frame(codec, m, header);
    if |s| >= |f| {
      assert s == f + s[|f|..];
      ParseFrame(codec, m, header, s[|f|..]);
    } else {
      assert s < f;
      ParsePrefix(codec, m, header, s);
    }
  }

  lemma PrefixSizeField(body: seq<byte>, s: seq<byte>)
    requires 4 <= |s| && s <= ToLE(|body|, 4) + body
    ensures SizeField(s) == |body| % U32
  {
    SizeFieldOfFrame(|body|, body, []);
    SamePrefix(s, ToLE(|body|, 4) + body + [], 4);
  }

  lemma SamePrefix(s: seq<byte>, t: seq<byte>, n: nat)
    requires n <= |s| && s <= t
    ensures s[..n] == t[..n]
  {
  }

  /**
   * The size field counts the body exactly when the body is shorter than 2^32 bytes.
   */
  lemma SizeFieldExact(codec: Codec, m: Message, header: seq<byte>)
    ensures var n := |EncodedBody(codec, m, header)|;
            SizeField(Frame(codec, m, header)) == n <==> n < U32
  {
    PrefixSizeField(EncodedBody(codec, m, header), Frame(codec, m, header));
  }

  /**
   * Exactly when the receiver throws out a frame that has arrived: the size that its field shows is above the limit, or
   * too small for header and message number.
   */
  lemma RefusedIff(codec: Codec, m: Message, header: seq<byte>)
    requires |EncodedBody(codec, m, header)| >= codec.headerSize + 2
    ensures var shown := |EncodedBody(codec, m, header)| % U32;
            Parse(codec, Frame(codec, m, header)) == Refused <==> !codec.limit(shown) || shown < codec.headerSize + 2
  {
    PrefixSizeField(EncodedBody(codec, m, header), Frame(codec, m, header));
  }

  /** A body of 2^32 bytes is refused by every encoder's receiver: its size field reads 0. */
  lemma OversizeIsRefused(codec: Codec, m: Message, header: seq<byte>)
    requires |EncodedBody(codec, m, header)| == U32 && codec.MinimumSize() <= U32
    ensures Parse(codec, Frame(codec, m, header)) == Refused
  {
    RefusedIff(codec, m, header);
  }

  // ---------------------------------------------------------------- on the queue of chunks

  /** The queue after the frame body of the given size has been taken off its front, with or without copying. */
  function TakeBody(q: seq<C.Chunk>, size: nat): seq<C.Chunk>
    requires size <= |C.Contents(q)| && q != []
  {
    if |q[0].readable| == size then q[1..] else C.Pop(q, size)
  }

  /** The zero-copy path takes the bytes the copying path takes, and leaves the contents the copying path leaves. */
  lemma FastPathIsSlowPath(q: seq<C.Chunk>, size: nat)
    requires size <= |C.Contents(q)| && q != []
    ensures |q[0].readable| == size ==> q[0].readable == C.Contents(q)[..size]
    ensures C.Contents(TakeBody(q, size)) == C.Contents(q)[size..]
    ensures C.Contents(TakeBody(q, size)) == C.Contents(C.Pop(q, size))
    ensures C.Ordered(q) ==> C.Ordered(TakeBody(q, size))
  {
    C.PopEffect(q, size);
    if |q[0].readable| == size {
      C.DropFront(q[0].readable, C.Contents(q[1..]), size);
      assert (q[0].readable + C.Contents(q[1..]))[..size] == q[0].readable;
    }
  }

  /** The queue after a whole frame, size field and body, has been taken off its front. */
  function TakeFrameOff(q: seq<C.Chunk>, size: nat): seq<C.Chunk>
    requires 0 < size && size + 4 <= |C.Contents(q)|
  {
    C.PopEffect(q, 4);
    TakeBody(C.Pop(q, 4), size)
  }

  /** The queue after decode; memory is what a new buffer holds in case one is needed. */
  function DecodeQueue(codec: Codec, q: seq<C.Chunk>, memory: seq<byte>): seq<C.Chunk>
  {
    var s := C.Contents(q);
    match Parse(codec, s)
    case Refused => q
    case Got(_) => TakeFrameOff(q, SizeField(s))
    case NeedMore =>
      if |s| < 4 + codec.MinimumSize() then q
      else
        var missing := SizeField(s) + 4 - |s|;
        if |C.Spares(q)| < missing then C.Prepare(q, missing, memory) else q
  }

  /** The buffer that decode may have to add for q. */
  predicate BufferFor(codec: Codec, q: seq<C.Chunk>, memory: seq<byte>)
  {
    var s := C.Contents(q);
    Parse(codec, s).NeedMore? && |s| >= 4 + codec.MinimumSize() && |C.Spares(q)| < SizeField(s) + 4 - |s| ==>
      |memory| == C.NextPow2(C.Max(SizeField(s) + 4 - |s|, C.DEFAULT_BUF_SIZE))
  }

  /** Decode takes exactly one frame or nothing, and keeps the order of the queue. */
  lemma DecodeEffect(codec: Codec, q: seq<C.Chunk>, memory: seq<byte>)
    requires BufferFor(codec, q, memory)
    ensures C.Contents(DecodeQueue(codec, q, memory)) == Remainder(codec, C.Contents(q))
    ensures C.Ordered(q) ==> C.Ordered(DecodeQueue(codec, q, memory))
  {
    var s := C.Contents(q);
    if Parse(codec, s).Got? {
      C.PopEffect(q, 4);
      FastPathIsSlowPath(C.Pop(q, 4), SizeField(s));
      assert s[4..][SizeField(s)..] == s[4 + SizeField(s)..];
    } else if Parse(codec, s).NeedMore? && |s| >= 4 + codec.MinimumSize() && |C.Spares(q)| < SizeField(s) + 4 - |s| {
      C.NextPow2Least(C.Max(SizeField(s) + 4 - |s|, C.DEFAULT_BUF_SIZE));
      C.PrepareEffect(q, SizeField(s) + 4 - |s|, memory);
    }
  }

  /** There is room for the whole frame of which q holds the front. */
  predicate Room(codec: Codec, q: seq<C.Chunk>) {
    var s := C.Contents(q);
    |s| >= 4 + codec.MinimumSize() ==> |s| + |C.Spares(q)| >= SizeField(s) + 4
  }

  /** When decode asks for more and knows the length, the queue has room for the rest of the frame. */
  lemma DecodeMakesRoom(codec: Codec, q: seq<C.Chunk>, memory: seq<byte>)
    requires BufferFor(codec, q, memory)
    requires Parse(codec, C.Contents(q)) == NeedMore
    ensures Room(codec, DecodeQueue(codec, q, memory))
  {
    var s := C.Contents(q);
    DecodeEffect(codec, q, memory);
    if |s| >= 4 + codec.MinimumSize() && |C.Spares(q)| < SizeField(s) + 4 - |s| {
      C.NextPow2Least(C.Max(SizeField(s) + 4 - |s|, C.DEFAULT_BUF_SIZE));
      C.PrepareEffect(q, SizeField(s) + 4 - |s|, memory);
    }
  }

  /** Receives one after another, each written into the free space and committed. */
  function ReceiveAll(q: seq<C.Chunk>, parts: seq<seq<byte>>): seq<C.Chunk>
    requires CanReceive(q, parts)
    decreases |parts|
  {
    if parts == [] then q else ReceiveAll(C.Commit(C.Fill(q, parts[0]), |parts[0]|), parts[1..])
  }

  /** Every part is nonempty and fits into the space that is free when it arrives. */
  predicate CanReceive(q: seq<C.Chunk>, parts: seq<seq<byte>>)
    decreases |parts|
  {
    parts == [] ||
    (0 < |parts[0]| <= |C.Spares(q)| && CanReceive(C.Commit(C.Fill(q, parts[0]), |parts[0]|), parts[1..]))
  }

  /**
   * No stall: once there is room for the frame, receives keep it, as long as the frame is incomplete another
   * nonempty receive is possible, and as many receives as bytes are missing complete it.
   */
  lemma {:induction false} NoStall(codec: Codec, q: seq<C.Chunk>, parts: seq<seq<byte>>)
    requires C.Ordered(q) && Room(codec, q) && |C.Contents(q)| >= 4 + codec.MinimumSize()
    requires CanReceive(q, parts)
    ensures var r := ReceiveAll(q, parts);
            && C.Ordered(r) && Room(codec, r)
            && C.Contents(q) <= C.Contents(r)
            && |C.Contents(r)| >= |C.Contents(q)| + |parts|
            && (|C.Contents(r)| < SizeField(C.Contents(q)) + 4 ==> |C.Spares(r)| > 0)
            && (|C.Contents(q)| + |parts| >= SizeField(C.Contents(q)) + 4 ==> Parse(codec, C.Contents(r)) != NeedMore)
    decreases |parts|
  {
    if parts != [] {
      var p := C.Commit(C.Fill(q, parts[0]), |parts[0]|);
      C.ScatterReceive(q, parts[0]);
      assert C.Contents(p)[..4] == C.Contents(q)[..4];
      NoStall(codec, p, parts[1..]);
    }
  }
}
