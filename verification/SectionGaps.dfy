/** Filling the gaps between sections, and what an annotation covers in the end. */
module SectionGaps {
  import opened Bytes
  import opened Schema
  import opened Sections
  import opened WalkFacts
  import opened Gaps

  /** The section for bytes that nothing refers to: padding if they are all zero. */
  function MissingSection(b: seq<byte>, offset: nat, length: nat): Section
    requires offset + length <= |b|
  {
    if IsNonZero(b, offset, length) then
      Section(offset, UnknownSection,
              [Plain(offset, length, Unknown, if length >= 8 then WarnNoReferences else WarnCorruptedPadding)])
    else
      Section(offset, PaddingSection, [Plain(offset, length, Uint8, if length >= 8 then WarnPaddingLength else Ok)])
  }

  /** Filling a section keeps its regions behind its key, and leaves the last to end behind it. */
  lemma FillSectionOk(b: seq<byte>, s: Section)
    requires s.regions != [] && AllOk(b, s.key, s.regions)
    ensures var f := FillSection(b, s);
            f.regions != [] && f.key == s.key < End(f) && AllOk(b, f.key, f.regions)
  {
    FilledInRange(b, s.key, s.regions);
  }

  /** Sections in order, each starting in the binary and ending behind its start. */
  predicate Laid(b: seq<byte>, ss: seq<Section>) {
    && Ascending(ss) && NoneHollow(ss)
    && forall i :: 0 <= i < |ss| ==> ss[i].key < |b| && ss[i].key < End(ss[i])
  }

  /** Where the section behind the first n begins, or the binary ends. */
  function Next(b: seq<byte>, ss: seq<Section>, n: nat): nat {
    if n < |ss| then ss[n].key else |b|
  }

  /** There is a gap of two bytes or more behind section i. */
  predicate GapBehind(b: seq<byte>, ss: seq<Section>, i: nat)
    requires NoneHollow(ss) && i < |ss|
  {
    End(ss[i]) + 1 < Next(b, ss, i + 1)
  }

  function MissingBehind(b: seq<byte>, ss: seq<Section>, i: nat): seq<Section>
    requires Laid(b, ss) && i < |ss|
  {
    if GapBehind(b, ss, i) then [MissingSection(b, End(ss[i]), Next(b, ss, i + 1) - End(ss[i]))] else []
  }

  /** The sections that are missing behind the first n. */
  function Missing(b: seq<byte>, ss: seq<Section>, n: nat): seq<Section>
    requires Laid(b, ss) && n <= |ss|
  {
    if n == 0 then [] else Missing(b, ss, n - 1) + MissingBehind(b, ss, n - 1)
  }

  /** The offset behind the first n sections, and one. */
  function Behind(ss: seq<Section>, n: nat): nat
    requires NoneHollow(ss) && n <= |ss|
  {
    if n == 0 then 0 else End(ss[n - 1]) + 1
  }

  /** What is missing in front of the last of the first n sections. */
  function MissingBefore(b: seq<byte>, ss: seq<Section>, n: nat): seq<Section>
    requires Laid(b, ss) && n <= |ss|
  {
    if n == 0 then [] else Missing(b, ss, n - 1)
  }

  lemma MissingStep(b: seq<byte>, ss: seq<Section>, n: nat, offset: nat, next: nat)
    requires Laid(b, ss) && 0 < n <= |ss| && offset == End(ss[n - 1]) + 1 && next == Next(b, ss, n)
    ensures Missing(b, ss, n)
            == MissingBefore(b, ss, n)
               + if offset < next then [MissingSection(b, offset - 1, next - offset + 1)] else []
  {
    var end := End(ss[n - 1]);
    assert offset - 1 == end && next - offset + 1 == next - end;
    assert Missing(b, ss, n) == Missing(b, ss, n - 1) + MissingBehind(b, ss, n - 1);
  }

  /** The loop over the sections: one offset behind the end of the last is where it looks for a gap. */
  method FindMissing(b: seq<byte>, ss: seq<Section>) returns (missing: seq<Section>)
    requires Laid(b, ss) && ss != [] && ss[0].key == 0
    ensures missing == Missing(b, ss, |ss|)
  {
    missing := [];
    var offset: nat := 0;
    for i := 0 to |ss|
      invariant offset == Behind(ss, i) && missing == MissingBefore(b, ss, i)
    {
      if i > 0 {
        MissingStep(b, ss, i, offset, ss[i].key);
      }
      if offset < ss[i].key {
        missing := missing + [MissingSection(b, offset - 1, ss[i].key - offset + 1)];
      }
      offset := End(ss[i]) + 1;
    }
    MissingStep(b, ss, |ss|, offset, |b|);
    if offset < |b| {
      missing := missing + [MissingSection(b, offset - 1, |b| - offset + 1)];
    }
  }

  /** The first n sections, each with what is missing behind it. */
  function Chain(b: seq<byte>, ss: seq<Section>, n: nat): seq<Section>
    requires Laid(b, ss) && n <= |ss|
  {
    if n == 0 then [] else Chain(b, ss, n - 1) + [ss[n - 1]] + MissingBehind(b, ss, n - 1)
  }

  function AddAll(ss: seq<Section>, more: seq<Section>): seq<Section>
    decreases |more|
  {
    if more == [] then ss else AddAll(Add(ss, more[0]), more[1..])
  }

  lemma AddAllStep(ss: seq<Section>, more: seq<Section>, i: nat)
    requires i < |more|
    ensures AddAll(ss, more[i..]) == AddAll(Add(ss, more[i]), more[i + 1..])
  {
    assert more[i..][1..] == more[i + 1..];
  }

  function Following(ss: seq<Section>, i: nat, stop: nat): nat {
    if i + 1 < |ss| then ss[i + 1].key else stop
  }

  /** Behind each section the next one begins at once, or after one byte; likewise the end, at stop. */
  predicate Linked(ss: seq<Section>, stop: nat)
    requires NoneHollow(ss)
  {
    forall i :: 0 <= i < |ss| ==> Following(ss, i, stop) <= End(ss[i]) + 1
  }

  predicate AllBefore(ss: seq<Section>, stop: nat) {
    forall i :: 0 <= i < |ss| ==> ss[i].key < stop
  }

  /** One more section at the end, behind which the next one is to begin at stop. */
  lemma Append(b: seq<byte>, c: seq<Section>, s: Section, stop: nat)
    requires Laid(b, c) && AllBefore(c, s.key) && Linked(c, s.key)
    requires s.key < |b| && s.regions != [] && s.key < End(s) && s.key < stop <= End(s) + 1
    ensures Laid(b, c + [s]) && AllBefore(c + [s], stop) && Linked(c + [s], stop)
  {
    var d := c + [s];
    forall i | 0 <= i < |d|
      ensures Following(d, i, stop) <= End(d[i]) + 1
    {
      if i < |c| {
        assert d[i] == c[i] && Following(c, i, s.key) == Following(d, i, stop);
      }
    }
  }

  lemma ChainStep(b: seq<byte>, ss: seq<Section>, n: nat, c: seq<Section>)
    requires Laid(b, ss) && n < |ss| && Laid(b, c) && AllBefore(c, ss[n].key) && Linked(c, ss[n].key)
    ensures var d := c + [ss[n]] + MissingBehind(b, ss, n);
            Laid(b, d) && AllBefore(d, Next(b, ss, n + 1)) && Linked(d, Next(b, ss, n + 1))
  {
    var next := Next(b, ss, n + 1);
    assert next > ss[n].key;
    if GapBehind(b, ss, n) {
      var missing := MissingSection(b, End(ss[n]), next - End(ss[n]));
      Append(b, c, ss[n], End(ss[n]));
      Append(b, c + [ss[n]], missing, next);
      assert MissingBehind(b, ss, n) == [missing];
    } else {
      Append(b, c, ss[n], next);
      assert c + [ss[n]] + MissingBehind(b, ss, n) == c + [ss[n]];
    }
  }

  /** The filled sections are in order, and nothing but a single byte is left out between one and the next. */
  lemma {:induction false} ChainFacts(b: seq<byte>, ss: seq<Section>, n: nat)
    requires Laid(b, ss) && n <= |ss|
    ensures var c := Chain(b, ss, n);
            Laid(b, c) && AllBefore(c, Next(b, ss, n)) && Linked(c, Next(b, ss, n))
  {
    if n > 0 {
      ChainFacts(b, ss, n - 1);
      ChainStep(b, ss, n - 1, Chain(b, ss, n - 1));
    }
  }

  lemma {:induction false} ChainHead(b: seq<byte>, ss: seq<Section>, n: nat)
    requires Laid(b, ss) && 0 < n <= |ss|
    ensures Chain(b, ss, n) != [] && Chain(b, ss, n)[0] == ss[0]
  {
    if n > 1 {
      ChainHead(b, ss, n - 1);
    }
  }

  lemma {:induction false} ChainElements(b: seq<byte>, ss: seq<Section>, n: nat, s: Section)
    requires Laid(b, ss) && n <= |ss|
    ensures s in Chain(b, ss, n) <==> s in ss[..n] || s in Missing(b, ss, n)
  {
    if n > 0 {
      ChainElements(b, ss, n - 1, s);
      assert ss[..n] == ss[..n - 1] + [ss[n - 1]];
    }
  }

  /** Ascending sections are determined by which sections they are. */
  lemma {:induction false} AscendingUnique(s: seq<Section>, t: seq<Section>)
    requires Ascending(s) && Ascending(t) && forall x :: x in s <==> x in t
    ensures s == t
  {
    if t != [] {
      assert t[0] in t;
    }
    if s != [] {
      assert s[0] in s;
      var i :| 0 <= i < |t| && t[i] == s[0];
      var j :| 0 <= j < |s| && s[j] == t[0];
      assert i == 0 && j == 0;
      forall x
        ensures x in s[1..] <==> x in t[1..]
      {
        if x in s[1..] {
          var k :| 0 <= k < |s| - 1 && s[k + 1] == x;
          assert x in t && x != t[0];
        }
        if x in t[1..] {
          var k :| 0 <= k < |t| - 1 && t[k + 1] == x;
          assert x in s && x != s[0];
        }
      }
      AscendingUnique(s[1..], t[1..]);
    }
  }

  /** Adding a section that the ascending sections c have, to some of c. */
  lemma AddWithin(c: seq<Section>, ss: seq<Section>, m: Section)
    requires Ascending(c) && Ascending(ss) && Extends(ss, c) && m in c
    ensures Ascending(Add(ss, m)) && forall s :: s in Add(ss, m) <==> s in ss || s == m
  {
    AddEffect(ss, m);
    if HasKey(ss, m.key) {
      var s :| s in ss && s.key == m.key;
      assert s in c;
    }
  }

  lemma {:induction false} AddAllFacts(c: seq<Section>, ss: seq<Section>, more: seq<Section>)
    requires Ascending(c) && Ascending(ss) && Extends(ss, c) && Extends(more, c)
    ensures Ascending(AddAll(ss, more))
    ensures forall s :: s in AddAll(ss, more) <==> s in ss || s in more
    decreases |more|
  {
    if more != [] {
      AddWithin(c, ss, more[0]);
      AddAllFacts(c, Add(ss, more[0]), more[1..]);
    }
  }

  /** Adding the missing sections one by one puts each behind the section it is missing behind; none is dropped. */
  lemma AddingIsChaining(b: seq<byte>, ss: seq<Section>)
    requires Laid(b, ss)
    ensures var ms := Missing(b, ss, |ss|); AddAll(ss, ms) == Chain(b, ss, |ss|)
  {
    var ms, c := Missing(b, ss, |ss|), Chain(b, ss, |ss|);
    ChainFacts(b, ss, |ss|);
    assert ss[..|ss|] == ss;
    forall s
      ensures s in c <==> s in ss || s in ms
    {
      ChainElements(b, ss, |ss|, s);
    }
    AddAllFacts(c, ss, ms);
    AscendingUnique(AddAll(ss, ms), c);
  }

  /** s fills the gap behind section i, all of it, and that is two bytes or more. */
  predicate FillsGap(b: seq<byte>, ss: seq<Section>, i: nat, s: Section)
    requires Laid(b, ss)
  {
    i < |ss| && GapBehind(b, ss, i) && s == MissingSection(b, End(ss[i]), Next(b, ss, i + 1) - End(ss[i]))
  }

  /** The inserted sections are exactly those for the gaps of two bytes or more. */
  lemma {:induction false} MissingExact(b: seq<byte>, ss: seq<Section>, n: nat, s: Section)
    requires Laid(b, ss) && n <= |ss|
    ensures s in Missing(b, ss, n) <==> exists i :: 0 <= i < n && FillsGap(b, ss, i, s)
  {
    if n > 0 {
      MissingExact(b, ss, n - 1, s);
      assert s in MissingBehind(b, ss, n - 1) <==> FillsGap(b, ss, n - 1, s);
    }
  }

  predicate AllEndBy(ss: seq<Section>, stop: nat)
    requires NoneHollow(ss)
  {
    forall i :: 0 <= i < |ss| ==> End(ss[i]) <= stop
  }

  lemma DisjointAppend(c: seq<Section>, s: Section)
    requires NoneHollow(c) && Disjoint(c) && s.regions != [] && AllEndBy(c, s.key) && s.key <= End(s)
    ensures NoneHollow(c + [s]) && Disjoint(c + [s]) && AllEndBy(c + [s], End(s))
  {
  }

  /** Sections that do not overlap still do not after the missing ones are inserted. */
  lemma {:induction false} ChainDisjoint(b: seq<byte>, ss: seq<Section>, n: nat)
    requires Laid(b, ss) && Disjoint(ss) && n <= |ss|
    ensures var c := Chain(b, ss, n);
            NoneHollow(c) && Disjoint(c) && (n < |ss| ==> AllEndBy(c, ss[n].key))
  {
    if n > 0 {
      ChainDisjoint(b, ss, n - 1);
      var c, s := Chain(b, ss, n - 1), ss[n - 1];
      DisjointAppend(c, s);
      if GapBehind(b, ss, n - 1) {
        DisjointAppend(c + [s], MissingBehind(b, ss, n - 1)[0]);
      } else {
        assert c + [s] + MissingBehind(b, ss, n - 1) == c + [s];
      }
    }
  }

  /** Every byte is in the section that starts last before it, unless it is a single byte between two sections. */
  lemma ByteInSection(b: seq<byte>, c: seq<Section>, p: nat) returns (i: nat)
    requires Laid(b, c) && Linked(c, |b|) && c != [] && c[0].key == 0 && p < |b|
    ensures i < |c| && c[i].key <= p < Following(c, i, |b|)
    ensures p < End(c[i]) || (p == End(c[i]) && Following(c, i, |b|) == p + 1)
  {
    LowerBoundAscending(c, p + 1);
    i := LowerBound(c, p + 1) - 1;
    assert Following(c, i, |b|) <= End(c[i]) + 1;
  }
}
