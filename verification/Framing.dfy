/** Sender, wire and receiver together: every run delivers the messages that were sent, in order. */
module Framing {
  import opened Bytes
  import C = Chunks
  import opened Frames
  import SendQueues

  /** A message that was sent, with what its reserved header bytes happened to hold. */
  datatype Sent = Sent(m: Message, header: seq<byte>)

  datatype State = State(
    sent: seq<Sent>,  // history: what the sender encoded
    sendQueue: seq<C.Chunk>,
    wire: seq<byte>,
    recvQueue: seq<C.Chunk>,
    delivered: seq<seq<byte>>  // history: what decode handed out
  )

  const START := State([], [], [], [], [])

  /** spare and memory are what freshly allocated memory happens to hold. */
  datatype Step =
    | Send(message: Sent, spare: seq<byte>)
    | Transmit(n: nat)
    | Prepare(size: nat, memory: seq<byte>)
    | Receive(n: nat)
    | Decode(memory: seq<byte>)

  predicate Enabled(codec: Codec, s: State, step: Step) {
    match step
    case Send(x, _) => Sendable(codec, x.m, x.header)
    case Transmit(n) => n <= |C.Contents(s.sendQueue)|
    case Prepare(size, memory) => |memory| == C.NextPow2(C.Max(size, C.DEFAULT_BUF_SIZE))
    case Receive(n) => n <= |s.wire| && n <= |C.Spares(s.recvQueue)|
    case Decode(memory) => BufferFor(codec, s.recvQueue, memory)
  }

  function Next(codec: Codec, s: State, step: Step): State
    requires Enabled(codec, s, step)
  {
    match step
    case Send(x, spare) =>
      s.(sent := s.sent + [x], sendQueue := s.sendQueue + [C.Chunk([], Frame(codec, x.m, x.header), spare)])
    case Transmit(n) =>
      s.(sendQueue := SendQueues.Drain(s.sendQueue, n), wire := s.wire + C.Contents(s.sendQueue)[..n])
    case Prepare(size, memory) =>
      s.(recvQueue := C.Prepare(s.recvQueue, size, memory))
    case Receive(n) =>
      s.(wire := s.wire[n..], recvQueue := C.Commit(C.Fill(s.recvQueue, s.wire[..n]), n))
    case Decode(memory) =>
      var p := Parse(codec, C.Contents(s.recvQueue));
      s.(recvQueue := DecodeQueue(codec, s.recvQueue, memory),
         delivered := if p.Got? then s.delivered + [p.bytes] else s.delivered)
  }

  predicate IsRun(codec: Codec, s: State, steps: seq<Step>)
    decreases |steps|
  {
    steps == [] || (Enabled(codec, s, steps[0]) && IsRun(codec, Next(codec, s, steps[0]), steps[1..]))
  }

  function Run(codec: Codec, s: State, steps: seq<Step>): State
    requires IsRun(codec, s, steps)
    decreases |steps|
  {
    if steps == [] then s else Run(codec, Next(codec, s, steps[0]), steps[1..])
  }

  /** The bytes of all frames in order. */
  function AllFrames(codec: Codec, sent: seq<Sent>): seq<byte> {
    if sent == [] then [] else Frame(codec, sent[0].m, sent[0].header) + AllFrames(codec, sent[1..])
  }

  /** What is under way: received but not decoded, on the wire, and still to be transmitted. */
  function UnderWay(s: State): seq<byte> {
    C.Contents(s.recvQueue) + s.wire + C.Contents(s.sendQueue)
  }

  /** What was delivered is the first of what was sent: of each message its number and its payload. */
  ghost predicate InOrder(s: State) {
    |s.delivered| <= |s.sent| && forall i :: 0 <= i < |s.delivered| ==> Carries(s.delivered[i], s.sent[i].m)
  }

  ghost predicate Inv(codec: Codec, s: State) {
    && (forall x :: x in s.sent ==> Sendable(codec, x.m, x.header))
    && InOrder(s)
    && UnderWay(s) == AllFrames(codec, s.sent[|s.delivered|..])
    && C.Ordered(s.recvQueue)
    && SendQueues.NoneEmpty(s.sendQueue)
  }

  lemma {:induction false} AllFramesAppend(codec: Codec, a: seq<Sent>, b: seq<Sent>)
    ensures AllFrames(codec, a + b) == AllFrames(codec, a) + AllFrames(codec, b)
  {
    if a == [] {
      assert a + b == b;
    } else {
      AllFramesAppend(codec, a[1..], b);
      assert (a + b)[1..] == a[1..] + b;
      C.Assoc(Frame(codec, a[0].m, a[0].header), AllFrames(codec, a[1..]), AllFrames(codec, b));
    }
  }

  lemma SendKeeps(codec: Codec, s: State, x: Sent, spare: seq<byte>)
    requires Inv(codec, s) && Enabled(codec, s, Send(x, spare))
    ensures Inv(codec, Next(codec, s, Send(x, spare)))
  {
    var f, t := Frame(codec, x.m, x.header), Next(codec, s, Send(x, spare));
    C.Append(s.sendQueue, C.Chunk([], f, spare));
    C.Assoc(C.Contents(s.recvQueue) + s.wire, C.Contents(s.sendQueue), f);
    var left := s.sent[|s.delivered|..];
    assert t.sent[|s.delivered|..] == left + [x];
    AllFramesAppend(codec, left, [x]);
    assert AllFrames(codec, [x]) == f + [];
  }

  lemma Recut(a: seq<byte>, w: seq<byte>, b: seq<byte>, n: nat)
    ensures n <= |b| ==> a + (w + b[..n]) + b[n..] == a + w + b
    ensures n <= |w| ==> (a + w[..n]) + w[n..] + b == a + w + b
  {
    if n <= |b| {
      assert b[..n] + b[n..] == b;
    }
    if n <= |w| {
      assert w[..n] + w[n..] == w;
    }
  }

  lemma TransmitKeeps(codec: Codec, s: State, n: nat)
    requires Inv(codec, s) && Enabled(codec, s, Transmit(n))
    ensures Inv(codec, Next(codec, s, Transmit(n)))
    ensures SendQueues.Drainable(s.sendQueue, n)
  {
    SendQueues.DrainEffect(s.sendQueue, n);
    SendQueues.NoneEmptyIsDrainable(s.sendQueue, n);
    Recut(C.Contents(s.recvQueue), s.wire, C.Contents(s.sendQueue), n);
  }

  lemma ReceiveKeeps(codec: Codec, s: State, n: nat)
    requires Inv(codec, s) && Enabled(codec, s, Receive(n))
    ensures Inv(codec, Next(codec, s, Receive(n)))
  {
    C.ScatterReceive(s.recvQueue, s.wire[..n]);
    Recut(C.Contents(s.recvQueue), s.wire, C.Contents(s.sendQueue), n);
  }

  /** When got + rest is f + others, got is a prefix of that, and either short of f or f and a tail. */
  lemma CutAt(f: seq<byte>, others: seq<byte>, got: seq<byte>, rest: seq<byte>) returns (tail: seq<byte>)
    requires got + rest == f + others
    ensures got <= f + others
    ensures |got| >= |f| ==> got == f + tail && tail + rest == others
  {
    tail := if |got| > |f| then got[|f|..] else [];
    assert got == (got + rest)[..|got|];
    if |got| >= |f| {
      assert got == f + tail;
      assert tail + rest == (got + rest)[|f|..] == others;
    }
  }

  /** What decode does to received bytes that start a stream of frames, and to what is under way. */
  lemma DecodeFront(codec: Codec, left: seq<Sent>, got: seq<byte>, rest: seq<byte>)
    requires got + rest == AllFrames(codec, left)
    requires forall x :: x in left ==> Sendable(codec, x.m, x.header)
    ensures var p := Parse(codec, got);
            && p != Refused
            && (p.Got? ==> left != [] && p.bytes == left[0].m.Bytes()
                           && Remainder(codec, got) + rest == AllFrames(codec, left[1..]))
            && (p.NeedMore? && rest == [] ==> left == [])
  {
    if left == [] {
      assert got == [];
    } else {
      var x := left[0];
      var f := Frame(codec, x.m, x.header);
      var others := AllFrames(codec, left[1..]);
      assert x in left;
      var tail := CutAt(f, others, got, rest);
      ParseExact(codec, x.m, x.header, others, got);
      if |got| >= |f| {
        ParseFrame(codec, x.m, x.header, tail);
      }
    }
  }

  /** What was delivered stays in order, and what is left of the queue is what is still to be delivered. */
  lemma DecodeKeeps(codec: Codec, s: State, memory: seq<byte>)
    requires Inv(codec, s) && Enabled(codec, s, Decode(memory))
    ensures Inv(codec, Next(codec, s, Decode(memory)))
    ensures Parse(codec, C.Contents(s.recvQueue)) != Refused
  {
    var t := Next(codec, s, Decode(memory));
    var left := s.sent[|s.delivered|..];
    var got, rest := C.Contents(s.recvQueue), s.wire + C.Contents(s.sendQueue);
    C.Assoc(got, s.wire, C.Contents(s.sendQueue));
    DecodeFront(codec, left, got, rest);
    DecodeEffect(codec, s.recvQueue, memory);
    C.Assoc(Remainder(codec, got), s.wire, C.Contents(s.sendQueue));
    DecodedInOrder(codec, s, t, left, got);
  }

  lemma DecodedInOrder(codec: Codec, s: State, t: State, left: seq<Sent>, got: seq<byte>)
    requires InOrder(s) && left == s.sent[|s.delivered|..] && t.sent == s.sent
    requires var p := Parse(codec, got);
             && t.delivered == (if p.Got? then s.delivered + [p.bytes] else s.delivered)
             && (p.Got? ==> left != [] && p.bytes == left[0].m.Bytes())
    ensures InOrder(t) && t.sent[|t.delivered|..] == if Parse(codec, got).Got? then left[1..] else left
  {
    if Parse(codec, got).Got? {
      assert left[1..] == t.sent[|t.delivered|..] && left[0] == s.sent[|s.delivered|];
      BytesCarry(left[0].m);
    }
  }

  lemma StepKeeps(codec: Codec, s: State, step: Step)
    requires Inv(codec, s) && Enabled(codec, s, step)
    ensures Inv(codec, Next(codec, s, step))
  {
    match step
    case Send(x, spare) => SendKeeps(codec, s, x, spare);
    case Transmit(n) => TransmitKeeps(codec, s, n);
    case Prepare(size, memory) =>
      C.NextPow2Least(C.Max(size, C.DEFAULT_BUF_SIZE));
      C.PrepareEffect(s.recvQueue, size, memory);
    case Receive(n) => ReceiveKeeps(codec, s, n);
    case Decode(memory) => DecodeKeeps(codec, s, memory);
  }

  lemma {:induction false} RunKeeps(codec: Codec, s: State, steps: seq<Step>)
    requires Inv(codec, s) && IsRun(codec, s, steps)
    ensures Inv(codec, Run(codec, s, steps))
    decreases |steps|
  {
    if steps != [] {
      StepKeeps(codec, s, steps[0]);
      RunKeeps(codec, Next(codec, s, steps[0]), steps[1..]);
    }
  }

  /**
   * End to end: after every run, what was delivered is a prefix of what was sent; the frames of what was sent are
   * the frames delivered, the receive queue, the wire and the send queue, byte for byte; decode would not refuse
   * what has arrived; and when nothing is on its way and decode asks for more, everything was delivered.
   */
  lemma EveryRunDelivers(codec: Codec, steps: seq<Step>)
    requires IsRun(codec, START, steps)
    ensures var s := Run(codec, START, steps);
            && InOrder(s)
            && AllFrames(codec, s.sent) == AllFrames(codec, s.sent[..|s.delivered|]) + UnderWay(s)
            && Parse(codec, C.Contents(s.recvQueue)) != Refused
            && (s.wire == [] && C.Contents(s.sendQueue) == [] && Parse(codec, C.Contents(s.recvQueue)) == NeedMore
                ==> |s.delivered| == |s.sent|)
  {
    RunKeeps(codec, START, steps);
    var s := Run(codec, START, steps);
    var k := |s.delivered|;
    assert s.sent[..k] + s.sent[k..] == s.sent;
    AllFramesAppend(codec, s.sent[..k], s.sent[k..]);
    C.Assoc(C.Contents(s.recvQueue), s.wire, C.Contents(s.sendQueue));
    DecodeFront(codec, s.sent[k..], C.Contents(s.recvQueue), s.wire + C.Contents(s.sendQueue));
  }

  lemma RunCons(codec: Codec, s: State, step: Step, rest: seq<Step>)
    requires Enabled(codec, s, step) && IsRun(codec, Next(codec, s, step), rest)
    ensures IsRun(codec, s, [step] + rest)
    ensures Run(codec, s, [step] + rest) == Run(codec, Next(codec, s, step), rest)
  {
    assert ([step] + rest)[1..] == rest;
  }

  /** Memory for any buffer decode may want. */
  function MemoryFor(codec: Codec, q: seq<C.Chunk>): (memory: seq<byte>)
    ensures BufferFor(codec, q, memory)
  {
    var s := C.Contents(q);
    if |s| >= 4 && SizeField(s) + 4 > |s|
    then seq(C.NextPow2(C.Max(SizeField(s) + 4 - |s|, C.DEFAULT_BUF_SIZE)), _ => 0)
    else []
  }

  /** One step towards delivery, if there is anything left to deliver once all is transmitted. */
  lemma NextDelivery(codec: Codec, s: State) returns (step: Step)
    requires Inv(codec, s) && s.sendQueue == [] && |s.delivered| < |s.sent|
    ensures Enabled(codec, s, step) && !step.Send? && !step.Transmit?
    ensures var t := Next(codec, s, step);
            || |t.wire| < |s.wire|
            || (t.wire == s.wire && |C.Contents(t.recvQueue)| < |C.Contents(s.recvQueue)|)
            || (t.wire == s.wire && t.wire != [] && C.Contents(t.recvQueue) == C.Contents(s.recvQueue)
                && C.Spares(s.recvQueue) == [] && C.Spares(t.recvQueue) != [])
  {
    var got := C.Contents(s.recvQueue);
    var left := s.sent[|s.delivered|..];
    assert got + s.wire + [] == got + s.wire;
    DecodeFront(codec, left, got, s.wire);
    if Parse(codec, got).Got? {
      step := Decode(MemoryFor(codec, s.recvQueue));
      DecodeEffect(codec, s.recvQueue, step.memory);
    } else {
      assert s.wire != [];
      if C.Spares(s.recvQueue) == [] {
        step := Prepare(1, seq(C.NextPow2(C.Max(1, C.DEFAULT_BUF_SIZE)), _ => 0));
        C.NextPow2Least(C.Max(1, C.DEFAULT_BUF_SIZE));
        C.PrepareEffect(s.recvQueue, 1, step.memory);
      } else {
        step := Receive(1);
      }
    }
  }

  /** No deadlock: from every reachable state the run can go on until everything that was sent is delivered. */
  lemma {:induction false} CanFinish(codec: Codec, s: State) returns (steps: seq<Step>)
    requires Inv(codec, s) && s.sendQueue == []
    ensures IsRun(codec, s, steps)
    ensures var t := Run(codec, s, steps); t.sent == s.sent && |t.delivered| == |t.sent| && InOrder(t)
    decreases |s.wire|, |C.Contents(s.recvQueue)|, if C.Spares(s.recvQueue) == [] then 1 else 0
  {
    if |s.delivered| == |s.sent| {
      steps := [];
    } else {
      var step := NextDelivery(codec, s);
      var t := Next(codec, s, step);
      StepKeeps(codec, s, step);
      var more := CanFinish(codec, t);
      steps := [step] + more;
      RunCons(codec, s, step, more);
    }
  }

  lemma {:induction false} DrainAll(q: seq<C.Chunk>)
    requires SendQueues.NoneEmpty(q)
    ensures SendQueues.Drain(q, |C.Contents(q)|) == []
  {
    if q != [] {
      assert q[0] in q;
      DrainAll(q[1..]);
    }
  }

  /** Every run can be continued to one that has delivered everything. */
  lemma EveryRunCanFinish(codec: Codec, steps: seq<Step>) returns (more: seq<Step>)
    requires IsRun(codec, START, steps)
    ensures var s := Run(codec, START, steps);
            && IsRun(codec, s, more)
            && var t := Run(codec, s, more); t.sent == s.sent && |t.delivered| == |t.sent| && InOrder(t)
  {
    RunKeeps(codec, START, steps);
    var s := Run(codec, START, steps);
    var flush := Transmit(|C.Contents(s.sendQueue)|);
    StepKeeps(codec, s, flush);
    DrainAll(s.sendQueue);
    var rest := CanFinish(codec, Next(codec, s, flush));
    more := [flush] + rest;
    RunCons(codec, s, flush, rest);
  }
}
