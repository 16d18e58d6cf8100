/** The receive queue as a value: a list of buffers with a read and a write cursor each. */
module Chunks {
  import opened Bytes

  /**
   * A stream as a value: its memory, cut at the read cursor and at the write cursor into the bytes
   * already consumed, those still readable, and the free space.
   */
  datatype Chunk = Chunk(past: seq<byte>, readable: seq<byte>, spare: seq<byte>) {
    function Memory(): seq<byte> {
      past + readable + spare
    }
  }

  const DEFAULT_BUF_SIZE: nat := 4096
  const MIN_ALLOC_SIZE: nat := 64

  /** The bytes a reader of the queue sees, over all chunks in order. */
  function Contents(q: seq<Chunk>): seq<byte> {
    if q == [] then [] else q[0].readable + Contents(q[1..])
  }

  /** The bytes under the free space of the queue, over all chunks in order. */
  function Spares(q: seq<Chunk>): seq<byte> {
    if q == [] then [] else q[0].spare + Spares(q[1..])
  }

  function Min(a: nat, b: nat): nat {
    if a <= b then a else b
  }

  function Max(a: nat, b: nat): nat {
    if a <= b then b else a
  }

  // ---------------------------------------------------------------- allocation sizes

  /** The least p * 2^k that is not below size. */
  function DoubleUpTo(p: nat, size: nat): (r: nat)
    requires p > 0
    ensures r >= size && r >= p
    decreases size - p
  {
    if p >= size then p else DoubleUpTo(2 * p, size)
  }

  function NextPow2(size: nat): nat {
    DoubleUpTo(1, Max(size, MIN_ALLOC_SIZE))
  }

  lemma {:induction false} DoubleUpToLeast(p: nat, size: nat, m: nat)
    requires IsPow2(p) && IsPow2(m) && m >= size && m >= p
    ensures IsPow2(DoubleUpTo(p, size)) && DoubleUpTo(p, size) <= m
    decreases size - p
  {
    if p < size {
      Pow2Gap(p, m);
      Pow2Double(p);
      DoubleUpToLeast(2 * p, size, m);
    }
  }

  lemma SomePow2(size: nat) returns (m: nat)
    ensures IsPow2(m) && m >= size && m >= 1
  {
    m := 1;
    while m < size
      invariant IsPow2(m)
      decreases size - m
    {
      m := 2 * m;
    }
  }

  /** nextPow2 is the least power of two that holds both the request and the minimum allocation. */
  lemma NextPow2Least(size: nat)
    ensures IsPow2(NextPow2(size))
    ensures NextPow2(size) >= size && NextPow2(size) >= 64
    ensures forall m: nat :: IsPow2(m) && m >= size && m >= 64 ==> NextPow2(size) <= m
  {
    var w := SomePow2(Max(size, MIN_ALLOC_SIZE));
    DoubleUpToLeast(1, Max(size, MIN_ALLOC_SIZE), w);
    forall m: nat | IsPow2(m) && m >= size && m >= 64
      ensures NextPow2(size) <= m
    {
      DoubleUpToLeast(1, Max(size, MIN_ALLOC_SIZE), m);
    }
  }

  // ---------------------------------------------------------------- the queue operations

  /** A chunk with free space has nothing readable behind it. */
  predicate Ordered(q: seq<Chunk>) {
    q == [] || ((q[0].spare != [] ==> Contents(q[1..]) == []) && Ordered(q[1..]))
  }

  function Prepare(q: seq<Chunk>, size: nat, memory: seq<byte>): seq<Chunk> {
    if q == [] || |Spares(q)| < size then q + [Chunk([], [], memory)] else q
  }

  /** What a socket does to the free space of a chunk when it has data to write. */
  function Filled(c: Chunk, data: seq<byte>): Chunk {
    var k := Min(|data|, |c.spare|);
    if k == 0 then c else c.(spare := data[..k] + c.spare[k..])
  }

  /** A socket writes data into the free space, front to back. */
  function Fill(q: seq<Chunk>, data: seq<byte>): (r: seq<Chunk>)
    requires |data| <= |Spares(q)|
    ensures |r| == |q|
  {
    if q == [] then []
    else [Filled(q[0], data)] + Fill(q[1..], data[Min(|data|, |q[0].spare|)..])
  }

  /** Moves the first n free bytes of a chunk to what is readable. */
  function Committed(c: Chunk, n: nat): Chunk
    requires n <= |c.spare|
  {
    if n == 0 then c else Chunk(c.past, c.readable + c.spare[..n], c.spare[n..])
  }

  /** Moves the first n readable bytes of a chunk to what is consumed. */
  function Consumed(c: Chunk, n: nat): Chunk
    requires n <= |c.readable|
  {
    if n == 0 then c else Chunk(c.past + c.readable[..n], c.readable[n..], c.spare)
  }

  /** Both cursors at the start: all memory is free again. */
  function WasReset(c: Chunk): Chunk {
    Chunk([], [], c.Memory())
  }

  function Commit(q: seq<Chunk>, size: nat): (r: seq<Chunk>)
    ensures |r| == |q|
  {
    if q == [] then []
    else if |q[0].spare| >= size then [Committed(q[0], size)] + q[1..]
    else [Committed(q[0], |q[0].spare|)] + Commit(q[1..], size - |q[0].spare|)
  }

  /** Consumes size readable bytes of the first chunk; an emptied chunk is dropped, or reset if it is the only one. */
  function TakeFront(q: seq<Chunk>, size: nat): seq<Chunk>
    requires q != [] && size <= |q[0].readable|
  {
    var c := q[0];
    if size < |c.readable| then [Consumed(c, size)] + q[1..]
    else if |q| == 1 && |c.Memory()| == DEFAULT_BUF_SIZE then [WasReset(Consumed(c, size))]
    else q[1..]
  }

  function Pop(q: seq<Chunk>, size: nat): (r: seq<Chunk>)
    requires size <= |Contents(q)|
    decreases |q|
  {
    if q == [] then []
    else
      var k := Min(|q[0].readable|, size);
      TakeFrontEffect(q, k);
      if k == size then TakeFront(q, k) else Pop(TakeFront(q, k), size - k)
  }

  /** From chunk i on, r is q with left bytes committed: what the commit loop has still to do. */
  ghost predicate Committing(q: seq<Chunk>, r: seq<Chunk>, i: nat, left: nat)
    requires i <= |q| == |r|
    decreases |q| - i
  {
    i < |q| ==>
      if |q[i].spare| >= left
      then r[i] == Committed(q[i], left) && forall j :: i < j < |q| ==> r[j] == q[j]
      else r[i] == Committed(q[i], |q[i].spare|) && Committing(q, r, i + 1, left - |q[i].spare|)
  }

  lemma CommitIsCommitting(q: seq<Chunk>, size: nat)
    ensures Committing(q, Commit(q, size), 0, size)
  {
    assert q[0..] == q && Commit(q, size)[0..] == Commit(q, size);
    CommitFrom(q, Commit(q, size), 0, size);
  }

  lemma {:induction false} CommitFrom(q: seq<Chunk>, r: seq<Chunk>, i: nat, left: nat)
    requires i <= |q| == |r| && r[i..] == Commit(q[i..], left)
    ensures Committing(q, r, i, left)
    decreases |q| - i
  {
    if i < |q| {
      assert q[i..][0] == q[i] && q[i..][1..] == q[i + 1..];
      assert r[i..][0] == r[i] && r[i..][1..] == r[i + 1..];
      if |q[i].spare| >= left {
        forall j | i < j < |q|
          ensures r[j] == q[j]
        {
          assert r[i + 1..][j - i - 1] == q[i + 1..][j - i - 1];
        }
      } else {
        CommitFrom(q, r, i + 1, left - |q[i].spare|);
      }
    }
  }

  /** From chunk i on, r is q with data written into the free space: what a scatter read has still to do. */
  ghost predicate Filling(q: seq<Chunk>, r: seq<Chunk>, i: nat, data: seq<byte>)
    requires i <= |q| == |r|
    decreases |q| - i
  {
    if i == |q| then data == []
    else r[i] == Filled(q[i], data) && Filling(q, r, i + 1, data[Min(|data|, |q[i].spare|)..])
  }

  lemma {:induction false} FillFrom(q: seq<Chunk>, r: seq<Chunk>, i: nat, data: seq<byte>)
    requires i <= |q| == |r| && |data| <= |Spares(q[i..])| && r[i..] == Fill(q[i..], data)
    ensures Filling(q, r, i, data)
    decreases |q| - i
  {
    if i < |q| {
      assert q[i..][0] == q[i] && q[i..][1..] == q[i + 1..];
      assert r[i..][0] == r[i] && r[i..][1..] == r[i + 1..];
      FillFrom(q, r, i + 1, data[Min(|data|, |q[i].spare|)..]);
    }
  }

  lemma FillIsFilling(q: seq<Chunk>, data: seq<byte>)
    requires |data| <= |Spares(q)|
    ensures Filling(q, Fill(q, data), 0, data)
  {
    assert q[0..] == q && Fill(q, data)[0..] == Fill(q, data);
    FillFrom(q, Fill(q, data), 0, data);
  }

  /** owner lists, in order, those of the first n chunks that have free space. */
  ghost predicate WithSpace(q: seq<Chunk>, n: nat, owner: seq<nat>) {
    && n <= |q|
    && (forall j :: 0 <= j < |owner| ==> owner[j] < n && q[owner[j]].spare != [])
    && (forall j, k :: 0 <= j < k < |owner| ==> owner[j] < owner[k])
    && (forall i :: 0 <= i < n && q[i].spare != [] ==> i in owner)
  }

  lemma WithSpaceStep(q: seq<Chunk>, n: nat, owner: seq<nat>)
    requires n < |q| && WithSpace(q, n, owner)
    ensures if q[n].spare == [] then WithSpace(q, n + 1, owner) else WithSpace(q, n + 1, owner + [n])
  {
  }

  /** The chunks between two neighbours in owner are full. */
  lemma FullBetween(q: seq<Chunk>, owner: seq<nat>, j: nat)
    requires WithSpace(q, |q|, owner) && j <= |owner|
    ensures forall k :: (if j == 0 then 0 else owner[j - 1] + 1) <= k < (if j == |owner| then |q| else owner[j])
              ==> q[k].spare == []
  {
  }

  /** Full chunks are passed over. */
  lemma {:induction false} SkipFull(q: seq<Chunk>, r: seq<Chunk>, i: nat, j: nat, data: seq<byte>)
    requires i <= j <= |q| == |r| && Filling(q, r, i, data)
    requires forall k :: i <= k < j ==> q[k].spare == []
    ensures Filling(q, r, j, data)
    ensures forall k :: i <= k < j ==> r[k] == q[k]
    decreases j - i
  {
    if i < j {
      assert data[0..] == data;
      SkipFull(q, r, i + 1, j, data);
    }
  }

  /** The first n bytes of what can be read from chunk i on. */
  function PeekFrom(q: seq<Chunk>, i: nat, n: nat): seq<byte>
    requires i <= |q|
    decreases |q| - i
  {
    if i == |q| then []
    else if |q[i].readable| >= n then q[i].readable[..n]
    else q[i].readable + PeekFrom(q, i + 1, n - |q[i].readable|)
  }

  function AndPeek(done: seq<byte>, q: seq<Chunk>, i: nat, n: nat): seq<byte>
    requires i <= |q|
  {
    done + PeekFrom(q, i, n)
  }

  lemma PeekStep(done: seq<byte>, q: seq<Chunk>, i: nat, n: nat)
    requires i < |q|
    ensures var a := q[i].readable;
            AndPeek(done, q, i, n) == if |a| >= n then done + a[..n] else AndPeek(done + a[..|a|], q, i + 1, n - |a|)
  {
    var a := q[i].readable;
    assert a[..|a|] == a;
  }

  lemma {:induction false} PeekEffect(q: seq<Chunk>, i: nat, n: nat)
    requires i <= |q| && n <= |Contents(q[i..])|
    ensures PeekFrom(q, i, n) == Contents(q[i..])[..n]
    decreases |q| - i
  {
    if i < |q| {
      var a, b := q[i].readable, Contents(q[i + 1..]);
      assert q[i..][0] == q[i] && q[i..][1..] == q[i + 1..];
      assert Contents(q[i..]) == a + b;
      if |a| < n {
        PeekEffect(q, i + 1, n - |a|);
        assert (a + b)[..n] == a + b[..n - |a|];
      }
    }
  }

  // ---------------------------------------------------------------- what they do

  lemma Cons(c: Chunk, rest: seq<Chunk>)
    ensures Contents([c] + rest) == c.readable + Contents(rest)
    ensures Spares([c] + rest) == c.spare + Spares(rest)
    ensures Ordered([c] + rest) == ((c.spare != [] ==> Contents(rest) == []) && Ordered(rest))
  {
    assert ([c] + rest)[1..] == rest;
  }

  lemma {:induction false} Append(q: seq<Chunk>, c: Chunk)
    ensures Contents(q + [c]) == Contents(q) + c.readable
    ensures Spares(q + [c]) == Spares(q) + c.spare
  {
    if q == [] {
      Cons(c, []);
    } else {
      Append(q[1..], c);
      assert q + [c] == [q[0]] + (q[1..] + [c]);
      Cons(q[0], q[1..] + [c]);
      Assoc(q[0].readable, Contents(q[1..]), c.readable);
      Assoc(q[0].spare, Spares(q[1..]), c.spare);
    }
  }

  lemma {:induction false} AppendOrdered(q: seq<Chunk>, c: Chunk)
    requires c.readable == [] && Ordered(q)
    ensures Ordered(q + [c])
  {
    if q == [] {
      Cons(c, []);
    } else {
      AppendOrdered(q[1..], c);
      Append(q[1..], c);
      assert q + [c] == [q[0]] + (q[1..] + [c]);
      Cons(q[0], q[1..] + [c]);
    }
  }

  lemma Assoc(a: seq<byte>, b: seq<byte>, c: seq<byte>)
    ensures (a + b) + c == a + (b + c)
  {
  }

  lemma {:induction false} FillEffect(q: seq<Chunk>, data: seq<byte>)
    requires |data| <= |Spares(q)|
    ensures Contents(Fill(q, data)) == Contents(q)
    ensures Spares(Fill(q, data)) == data + Spares(q)[|data|..]
    ensures Ordered(q) ==> Ordered(Fill(q, data))
  {
    if q != [] {
      var c, k := q[0], Min(|data|, |q[0].spare|);
      FillEffect(q[1..], data[k..]);
      FillOnto(c, q[1..], Fill(q[1..], data[k..]), data);
      assert q == [c] + q[1..];
    }
  }

  lemma FillOnto(c: Chunk, rest: seq<Chunk>, filled: seq<Chunk>, data: seq<byte>)
    requires |data| <= |c.spare| + |Spares(rest)|
    requires var k := Min(|data|, |c.spare|);
             Contents(filled) == Contents(rest) && Spares(filled) == data[k..] + Spares(rest)[|data| - k..]
    ensures var q, r := [c] + rest, [Filled(c, data)] + filled;
            && Contents(r) == Contents(q) && Spares(r) == data + Spares(q)[|data|..]
            && (Ordered(q) && (Ordered(rest) ==> Ordered(filled)) ==> Ordered(r))
  {
    var k := Min(|data|, |c.spare|);
    assert Filled(c, data).spare == data[..k] + c.spare[k..];
    Cons(c, rest);
    Cons(Filled(c, data), filled);
    SpliceFront(c.spare, Spares(rest), data);
  }

  /** Overwriting the front of s + t piece by piece is overwriting the front of s + t. */
  lemma SpliceFront(s: seq<byte>, t: seq<byte>, data: seq<byte>)
    requires |data| <= |s| + |t|
    ensures var k := Min(|data|, |s|);
            (data[..k] + s[k..]) + (data[k..] + t[|data| - k..]) == data + (s + t)[|data|..]
  {
  }

  /** p is q with size bytes, or all there are, moved from the free space to the contents. */
  ghost predicate Moved(q: seq<Chunk>, p: seq<Chunk>, size: nat) {
    && Contents(p) == Contents(q) + Spares(q)[..Min(size, |Spares(q)|)]
    && Spares(p) == Spares(q)[Min(size, |Spares(q)|)..]
    && Ordered(p)
  }

  /** Committing appends the front of the free space to what is readable, and nothing else. */
  lemma {:induction false} CommitEffect(q: seq<Chunk>, size: nat)
    requires Ordered(q)
    ensures Moved(q, Commit(q, size), size)
  {
    if q != [] {
      var c, rest, w := q[0], q[1..], |q[0].spare|;
      assert q == [c] + rest;
      if w >= size {
        CommitInto(c, rest, size);
      } else {
        var committed := Commit(rest, size - w);
        CommitEffect(rest, size - w);
        CommitOnto(c, rest, committed, size);
        assert Commit(q, size) == [Committed(c, w)] + committed;
      }
    }
  }

  lemma CommitInto(c: Chunk, rest: seq<Chunk>, size: nat)
    requires Ordered([c] + rest) && size <= |c.spare|
    ensures Moved([c] + rest, [Committed(c, size)] + rest, size)
  {
    CommittedParts(c, size);
    Cons(c, rest);
    Cons(Committed(c, size), rest);
    CommitHere(c.readable, c.spare, Contents(rest), Spares(rest), size);
  }

  lemma CommitOnto(c: Chunk, rest: seq<Chunk>, committed: seq<Chunk>, size: nat)
    requires Ordered([c] + rest) && size > |c.spare| && Moved(rest, committed, size - |c.spare|)
    ensures Moved([c] + rest, [Committed(c, |c.spare|)] + committed, size)
  {
    CommittedParts(c, |c.spare|);
    Cons(c, rest);
    Cons(Committed(c, |c.spare|), committed);
    CommitThrough(c.readable, c.spare, Contents(rest), Spares(rest), size);
  }

  lemma CommittedParts(c: Chunk, n: nat)
    requires n <= |c.spare|
    ensures Committed(c, n).readable == c.readable + c.spare[..n] && Committed(c, n).spare == c.spare[n..]
  {
  }

  lemma CommitHere(a: seq<byte>, s: seq<byte>, b: seq<byte>, t: seq<byte>, size: nat)
    requires size <= |s| && (s == [] || b == [])
    ensures (a + s[..size]) + b == (a + b) + (s + t)[..Min(size, |s + t|)]
    ensures s[size..] + t == (s + t)[Min(size, |s + t|)..]
  {
    assert (s + t)[..size] == s[..size];
    assert (s + t)[size..] == s[size..] + t;
  }

  lemma CommitThrough(a: seq<byte>, s: seq<byte>, b: seq<byte>, t: seq<byte>, size: nat)
    requires size > |s| && (s == [] || b == [])
    ensures (a + s[..|s|]) + (b + t[..Min(size - |s|, |t|)]) == (a + b) + (s + t)[..Min(size, |s + t|)]
    ensures s[|s|..] + t[Min(size - |s|, |t|)..] == (s + t)[Min(size, |s + t|)..]
  {
    assert s[..|s|] == s && s[|s|..] == [];
  }

  /** Scatter receive is append: what the socket wrote into the free space becomes the tail of the contents. */
  lemma ScatterReceive(q: seq<Chunk>, data: seq<byte>)
    requires Ordered(q) && |data| <= |Spares(q)|
    ensures var r := Commit(Fill(q, data), |data|);
            Contents(r) == Contents(q) + data && Spares(r) == Spares(q)[|data|..] && Ordered(r)
  {
    var f, rest := Fill(q, data), Spares(q)[|data|..];
    FillEffect(q, data);
    CommitEffect(f, |data|);
    assert Spares(f) == data + rest && Min(|data|, |Spares(f)|) == |data|;
    Halves(data, rest);
    assert Spares(f)[..|data|] == data && Spares(f)[|data|..] == rest;
  }

  lemma Halves(a: seq<byte>, b: seq<byte>)
    ensures (a + b)[..|a|] == a && (a + b)[|a|..] == b
  {
  }

  lemma TakeFrontEffect(q: seq<Chunk>, size: nat)
    requires q != [] && size <= |q[0].readable|
    ensures Contents(TakeFront(q, size)) == Contents(q)[size..]
    ensures size == |q[0].readable| && |Contents(q)| > size ==> TakeFront(q, size) == q[1..]
    ensures Ordered(q) ==> Ordered(TakeFront(q, size))
  {
    var c := q[0];
    DropFront(c.readable, Contents(q[1..]), size);
    assert size < |c.readable| ==> Consumed(c, size).readable == c.readable[size..];
    if size < |c.readable| {
      Cons(Consumed(c, size), q[1..]);
    } else if |q| == 1 {
      assert q[1..] == [];
      Cons(WasReset(Consumed(c, size)), []);
    }
  }

  /** The last chunk, when it is emptied, is kept exactly if it has the default size, with all its memory free. */
  lemma LastTaken(c: Chunk)
    ensures TakeFront([c], |c.readable|) == if |c.Memory()| == 4096 then [Chunk([], [], c.Memory())] else []
  {
    assert c.readable[..|c.readable|] == c.readable && c.readable[|c.readable|..] == [];
    assert Consumed(c, |c.readable|).Memory() == c.Memory();
  }

  /** Popping size bytes off q leaves p. */
  ghost predicate PopLeaves(q: seq<Chunk>, size: nat, p: seq<Chunk>) {
    if size <= |Contents(q)| then Pop(q, size) == p else false
  }

  lemma PopStep(q: seq<Chunk>, size: nat, k: nat, p: seq<Chunk>)
    requires PopLeaves(q, size, p) && q != [] && k == Min(|q[0].readable|, size)
    ensures if k == size then TakeFront(q, k) == p else PopLeaves(TakeFront(q, k), size - k, p)
  {
    TakeFrontEffect(q, k);
  }

  lemma DropFront(a: seq<byte>, b: seq<byte>, n: nat)
    requires n <= |a|
    ensures (a + b)[n..] == a[n..] + b
    ensures n == |a| ==> (a + b)[n..] == b
  {
  }

  /** Popping removes exactly the first size readable bytes. */
  lemma {:induction false} PopEffect(q: seq<Chunk>, size: nat)
    requires size <= |Contents(q)|
    ensures Contents(Pop(q, size)) == Contents(q)[size..]
    ensures Ordered(q) ==> Ordered(Pop(q, size))
    decreases |q|
  {
    if q != [] {
      var k := Min(|q[0].readable|, size);
      TakeFrontEffect(q, k);
      if k != size {
        PopEffect(TakeFront(q, k), size - k);
      }
    }
  }

  /** A fresh buffer adds room and no contents, and keeps the order. */
  lemma PrepareEffect(q: seq<Chunk>, size: nat, memory: seq<byte>)
    requires |memory| >= size
    ensures var r := Prepare(q, size, memory);
            && Contents(r) == Contents(q)
            && |Spares(r)| >= |Spares(q)| && |Spares(r)| >= size
            && (Ordered(q) ==> Ordered(r))
            && r == if q == [] || |Spares(q)| < size then q + [Chunk([], [], memory)] else q
  {
    Append(q, Chunk([], [], memory));
    if Ordered(q) {
      AppendOrdered(q, Chunk([], [], memory));
    }
  }

  // ---------------------------------------------------------------- growth of a written buffer

  /** A buffer being written: capacity, bytes written, and bytes that reallocations have moved so far. */
  datatype Growth = Growth(capacity: nat, written: nat, moved: nat)

  function Verify(g: Growth, size: nat): Growth {
    if g.capacity - g.written < size
    then Growth(NextPow2(g.written + size), g.written, g.moved + g.capacity)
    else g
  }

  function WriteAll(g: Growth, sizes: seq<nat>): Growth
    decreases |sizes|
  {
    if sizes == [] then g
    else
      var h := Verify(g, sizes[0]);
      WriteAll(h.(written := h.written + sizes[0]), sizes[1..])
  }

  predicate GrowthOk(g: Growth) {
    && g.written <= g.capacity
    && (g.capacity == 0 || IsPow2(g.capacity))
    && (g.moved == 0 || g.moved < g.capacity)
  }

  /** One growth step at least doubles the capacity. */
  lemma VerifyDoubles(g: Growth, size: nat)
    requires GrowthOk(g)
    ensures var h := Verify(g, size);
            && h.capacity - h.written >= size
            && (h.capacity != g.capacity ==> h.capacity >= 2 * g.capacity)
            && GrowthOk(h)
  {
    NextPow2Least(g.written + size);
    if g.capacity - g.written < size && g.capacity > 0 {
      Pow2Gap(g.capacity, NextPow2(g.written + size));
    }
  }

  /** Over any run of writes the bytes moved by reallocation stay below the final capacity. */
  lemma {:induction false} GrowthAmortised(g: Growth, sizes: seq<nat>)
    requires GrowthOk(g)
    ensures GrowthOk(WriteAll(g, sizes))
    decreases |sizes|
  {
    if sizes != [] {
      VerifyDoubles(g, sizes[0]);
      var h := Verify(g, sizes[0]);
      GrowthAmortised(h.(written := h.written + sizes[0]), sizes[1..]);
    }
  }
}
