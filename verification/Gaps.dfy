/** The two passes that follow the walk: gaps between regions are filled, and then gaps between sections. */
module Gaps {
  import opened Bytes
  import opened Schema
  import opened StableSorting
  import opened Walks
  import opened WalkFacts

  predicate IsNonZero(b: seq<byte>, offset: nat, length: nat)
    requires offset + length <= |b|
  {
    exists i :: offset <= i < offset + length && b[i] != 0
  }

  function ByOffset(r: Region): int {
    r.offset
  }

  // ---------------------------------------------------------------- gaps between regions

  predicate AllStartInside(b: seq<byte>, rs: seq<Region>) {
    forall i :: 0 <= i < |rs| ==> IsValidOffset(b, rs[i].offset)
  }

  function GapRegion(b: seq<byte>, offset: nat, length: nat): Region
    requires offset + length <= |b|
  {
    if IsNonZero(b, offset, length) then Plain(offset, length, Unknown, WarnNoReferences)
    else Plain(offset, length, Uint8, Ok)
  }

  /** The gaps before and between the regions rs, from offset on; regions outside the binary are passed over. */
  function GapsFrom(b: seq<byte>, offset: nat, rs: seq<Region>): seq<Region>
    decreases |rs|
  {
    if rs == [] then []
    else if !IsValidOffset(b, rs[0].offset) then GapsFrom(b, offset, rs[1..])
    else
      var rest := GapsFrom(b, EndOf(rs[0]), rs[1..]);
      if offset < rs[0].offset then [GapRegion(b, offset, rs[0].offset - offset)] + rest else rest
  }

  /** The regions of a section with the gaps between them sorted in; without gaps they stay as they are. */
  function Filled(b: seq<byte>, rs: seq<Region>): seq<Region>
    requires rs != []
  {
    var gaps := GapsFrom(b, EndOf(rs[0]), rs[1..]);
    if gaps == [] then rs else StableSort(rs + gaps, ByOffset)
  }

  function AndGaps(done: seq<Region>, b: seq<byte>, offset: nat, rs: seq<Region>, i: nat): seq<Region>
    requires i <= |rs|
  {
    done + GapsFrom(b, offset, rs[i..])
  }

  lemma GapsFromStep(done: seq<Region>, b: seq<byte>, offset: nat, rs: seq<Region>, i: nat)
    requires i < |rs|
    ensures AndGaps(done, b, offset, rs, i)
            == if !IsValidOffset(b, rs[i].offset) then AndGaps(done, b, offset, rs, i + 1)
               else AndGaps(if offset < rs[i].offset then done + [GapRegion(b, offset, rs[i].offset - offset)]
                            else done,
                            b, EndOf(rs[i]), rs, i + 1)
  {
    assert rs[i..][1..] == rs[i + 1..];
  }

  /** The loop over the regions of one section. */
  method FixRegions(b: seq<byte>, regions: seq<Region>) returns (fixed: seq<Region>)
    requires regions != []
    ensures fixed == Filled(b, regions)
  {
    var gaps: seq<Region> := [];
    var offset: nat := EndOf(regions[0]);
    ghost var all := GapsFrom(b, offset, regions[1..]);
    for i := 1 to |regions|
      invariant AndGaps(gaps, b, offset, regions, i) == all
    {
      var region := regions[i];
      GapsFromStep(gaps, b, offset, regions, i);
      if IsValidOffset(b, region.offset) {
        if offset < region.offset {
          gaps := gaps + [GapRegion(b, offset, region.offset - offset)];
        }
        offset := region.offset + region.length;
      }
    }
    assert gaps == all by {
      assert regions[|regions|..] == [];
    }
    fixed := if gaps == [] then regions else StableSort(regions + gaps, ByOffset);
  }

  function FillSection(b: seq<byte>, s: Section): Section {
    if s.regions == [] then s else s.(regions := Filled(b, s.regions))
  }

  function FillAll(b: seq<byte>, ss: seq<Section>): (fs: seq<Section>)
    ensures |fs| == |ss| && forall i :: 0 <= i < |ss| ==> fs[i] == FillSection(b, ss[i])
  {
    seq(|ss|, i requires 0 <= i < |ss| => FillSection(b, ss[i]))
  }

  /** A region that fills a gap: not empty, inside the binary, and flagged when its bytes are not all zero. */
  ghost predicate IsGap(b: seq<byte>, g: Region) {
    g.length > 0 && EndOf(g) <= |b| && g == GapRegion(b, g.offset, g.length)
  }

  lemma {:induction false} GapsOk(b: seq<byte>, key: nat, offset: nat, rs: seq<Region>)
    requires AllOk(b, key, rs) && key < offset
    ensures AllOk(b, key, GapsFrom(b, offset, rs))
    ensures forall g :: g in GapsFrom(b, offset, rs) ==> IsGap(b, g)
    decreases |rs|
  {
    if rs != [] {
      assert RegionOk(b, key, rs[0]);
      GapsOk(b, key, if IsValidOffset(b, rs[0].offset) then EndOf(rs[0]) else offset, rs[1..]);
    }
  }

  /** Whatever the regions are: filling keeps every one of them, adds only gaps, and stays inside the binary. */
  lemma FilledKeeps(b: seq<byte>, key: nat, rs: seq<Region>)
    requires rs != [] && AllOk(b, key, rs)
    ensures var gaps := GapsFrom(b, EndOf(rs[0]), rs[1..]);
            && multiset(Filled(b, rs)) == multiset(rs) + multiset(gaps)
            && forall g :: g in gaps ==> IsGap(b, g)
    ensures Filled(b, rs) != [] && AllOk(b, key, Filled(b, rs))
  {
    assert RegionOk(b, key, rs[0]);
    var gaps := GapsFrom(b, EndOf(rs[0]), rs[1..]);
    GapsOk(b, key, EndOf(rs[0]), rs[1..]);
    assert |multiset(Filled(b, rs))| == |Filled(b, rs)|;
    forall r | r in Filled(b, rs)
      ensures r in rs || r in gaps
    {
      assert r in multiset(Filled(b, rs));
    }
  }

  lemma FilledInRange(b: seq<byte>, key: nat, rs: seq<Region>)
    requires rs != [] && AllOk(b, key, rs)
    ensures Filled(b, rs) != [] && AllOk(b, key, Filled(b, rs))
    ensures key < EndOf(Filled(b, rs)[|Filled(b, rs)| - 1])
  {
    FilledKeeps(b, key, rs);
    var filled := Filled(b, rs);
    assert RegionOk(b, key, filled[|filled| - 1]);
  }

  /** t is s with all its regions, and with gaps filled in between. */
  ghost predicate Fills(b: seq<byte>, t: Section, s: Section) {
    && t.key == s.key && t.ty == s.ty
    && multiset(s.regions) <= multiset(t.regions)
    && (forall r :: r in s.regions ==> r in t.regions)
    && (forall r :: r in t.regions ==> r in s.regions || IsGap(b, r))
  }

  lemma FillSectionFills(b: seq<byte>, s: Section)
    requires s.regions != [] && AllOk(b, s.key, s.regions)
    ensures Fills(b, FillSection(b, s), s)
  {
    var rs, t := s.regions, FillSection(b, s).regions;
    FilledKeeps(b, s.key, rs);
    var gaps := GapsFrom(b, EndOf(rs[0]), rs[1..]);
    forall r
      ensures r in t <==> r in rs || r in gaps
    {
      assert r in t <==> r in multiset(t);
      assert r in rs <==> r in multiset(rs);
      assert r in gaps <==> r in multiset(gaps);
    }
  }

  predicate Within(r: Region, p: nat) {
    r.offset <= p < EndOf(r)
  }

  /** Some region that starts inside the binary ends behind the byte. */
  predicate Reaches(b: seq<byte>, rs: seq<Region>, p: nat) {
    exists r :: r in rs && IsValidOffset(b, r.offset) && p < EndOf(r)
  }

  predicate IsCovered(rs: seq<Region>, p: nat) {
    exists r :: r in rs && Within(r, p)
  }

  /**
   * Every byte from the place the walk has come to, up to the end of a region inside the binary, is in a region or in
   * a gap.
   */
  lemma {:induction false} GapsCover(b: seq<byte>, offset: nat, rs: seq<Region>, p: nat, r: Region) returns (g: Region)
    requires offset <= p && r in rs && IsValidOffset(b, r.offset) && p < EndOf(r)
    ensures Within(g, p) && (g in rs || g in GapsFrom(b, offset, rs))
    decreases |rs|
  {
    if Within(rs[0], p) {
      g := rs[0];
    } else if IsValidOffset(b, rs[0].offset) && p < rs[0].offset {
      g := GapsFrom(b, offset, rs)[0];
    } else {
      g := GapsCover(b, if IsValidOffset(b, rs[0].offset) then EndOf(rs[0]) else offset, rs[1..], p, r);
    }
  }

  lemma InFilled(b: seq<byte>, key: nat, rs: seq<Region>, r: Region)
    requires rs != [] && AllOk(b, key, rs)
    ensures r in Filled(b, rs) <==> r in rs || r in GapsFrom(b, EndOf(rs[0]), rs[1..])
  {
    var gaps := GapsFrom(b, EndOf(rs[0]), rs[1..]);
    FilledKeeps(b, key, rs);
    assert r in Filled(b, rs) <==> r in multiset(Filled(b, rs));
    assert r in rs <==> r in multiset(rs);
    assert r in gaps <==> r in multiset(gaps);
  }

  /**
   * Exactly which bytes a section's regions take in after filling, however they overlap: those from its first byte
   * on that some region inside the binary reaches over.
   */
  lemma FilledCoversIff(b: seq<byte>, rs: seq<Region>, p: nat)
    requires rs != [] && AllOk(b, rs[0].offset, rs) && p < |b|
    ensures IsCovered(Filled(b, rs), p) <==> rs[0].offset <= p && Reaches(b, rs, p)
  {
    if IsCovered(Filled(b, rs), p) {
      var g :| g in Filled(b, rs) && Within(g, p);
      FilledKeeps(b, rs[0].offset, rs);
      InFilled(b, rs[0].offset, rs, g);
      if g !in rs {
        var r := GapBefore(b, EndOf(rs[0]), rs[1..], g);
      }
    }
    if rs[0].offset <= p && Reaches(b, rs, p) {
      var r :| r in rs && IsValidOffset(b, r.offset) && p < EndOf(r);
      var g := rs[0];
      if !Within(g, p) {
        g := GapsCover(b, EndOf(rs[0]), rs[1..], p, r);
      }
      InFilled(b, rs[0].offset, rs, g);
    }
  }

  /** A region inside the binary that the filled section has reaches no further than one that was there before. */
  lemma FilledReach(b: seq<byte>, key: nat, rs: seq<Region>, g: Region, p: nat)
    requires rs != [] && AllOk(b, key, rs) && g in Filled(b, rs) && IsValidOffset(b, g.offset) && p < EndOf(g)
    ensures Reaches(b, rs, p)
  {
    InFilled(b, key, rs, g);
    if g !in rs {
      var r := GapBefore(b, EndOf(rs[0]), rs[1..], g);
      assert r in rs && p < EndOf(r);
    }
  }

  /** A gap ends where some region inside the binary begins. */
  lemma {:induction false} GapBefore(b: seq<byte>, offset: nat, rs: seq<Region>, g: Region) returns (r: Region)
    requires g in GapsFrom(b, offset, rs)
    ensures r in rs && IsValidOffset(b, r.offset) && EndOf(g) == r.offset
    decreases |rs|
  {
    if IsValidOffset(b, rs[0].offset) && offset < rs[0].offset && g == GapsFrom(b, offset, rs)[0] {
      r := rs[0];
    } else {
      r := GapBefore(b, if IsValidOffset(b, rs[0].offset) then EndOf(rs[0]) else offset, rs[1..], g);
    }
  }

  // ---------------------------------------------------------------- tilings

  /** Regions in the binary, in ascending order, none reaching into the next. Empty regions are allowed. */
  predicate Neat(b: seq<byte>, rs: seq<Region>) {
    && AllStartInside(b, rs)
    && forall i :: 0 < i < |rs| ==> EndOf(rs[i - 1]) <= rs[i].offset
  }

  /** The regions rs with the gaps put where they belong. */
  function Tiles(b: seq<byte>, offset: nat, rs: seq<Region>): seq<Region>
    requires AllStartInside(b, rs)
    decreases |rs|
  {
    if rs == [] then []
    else
      var rest := [rs[0]] + Tiles(b, EndOf(rs[0]), rs[1..]);
      if offset < rs[0].offset then [GapRegion(b, offset, rs[0].offset - offset)] + rest else rest
  }

  /** Region i of rs is at its place in t, right behind the region before it, or behind that and one gap. */
  ghost predicate Placed(b: seq<byte>, t: seq<Region>, rs: seq<Region>, f: seq<nat>, i: nat)
    requires |f| == |rs| && i < |rs|
  {
    && f[i] < |t| && t[f[i]] == rs[i]
    && var next := if i == 0 then 0 else f[i - 1] + 1;
       f[i] == next || (f[i] == next + 1 && IsGap(b, t[next]))
  }

  /** t is rs, in order, at the places f, with at most one region, which fills a gap, before each. */
  ghost predicate GapsBetween(b: seq<byte>, t: seq<Region>, rs: seq<Region>, f: seq<nat>) {
    && |f| == |rs|
    && (forall i :: 0 <= i < |rs| ==> Placed(b, t, rs, f, i))
    && |t| == if rs == [] then 0 else f[|rs| - 1] + 1
  }

  function OneOn(f: seq<nat>): (g: seq<nat>)
    ensures |g| == |f| && forall i :: 0 <= i < |f| ==> g[i] == f[i] + 1
  {
    seq(|f|, i requires 0 <= i < |f| => f[i] + 1)
  }

  lemma RegionInFront(b: seq<byte>, t: seq<Region>, rs: seq<Region>, f: seq<nat>, r: Region)
    requires GapsBetween(b, t, rs, f)
    ensures GapsBetween(b, [r] + t, [r] + rs, [0] + OneOn(f))
  {
    forall i | 0 <= i < |rs| + 1
      ensures Placed(b, [r] + t, [r] + rs, [0] + OneOn(f), i)
    {
      if i > 0 {
        assert Placed(b, t, rs, f, i - 1);
      }
    }
  }

  lemma GapInFront(b: seq<byte>, t: seq<Region>, rs: seq<Region>, f: seq<nat>, g: Region)
    requires GapsBetween(b, t, rs, f) && rs != [] && f[0] == 0 && IsGap(b, g)
    ensures GapsBetween(b, [g] + t, rs, OneOn(f))
  {
    forall i | 0 <= i < |rs|
      ensures Placed(b, [g] + t, rs, OneOn(f), i)
    {
      assert Placed(b, t, rs, f, i);
    }
  }

  lemma {:induction false} TilesFacts(b: seq<byte>, offset: nat, rs: seq<Region>) returns (f: seq<nat>)
    requires Neat(b, rs) && (rs != [] ==> offset <= rs[0].offset)
    ensures GapsBetween(b, Tiles(b, offset, rs), rs, f)
    decreases |rs|
  {
    if rs == [] {
      f := [];
    } else {
      f := TilesFacts(b, EndOf(rs[0]), rs[1..]);
      var rest := Tiles(b, EndOf(rs[0]), rs[1..]);
      RegionInFront(b, rest, rs[1..], f, rs[0]);
      assert rs == [rs[0]] + rs[1..];
      f := [0] + OneOn(f);
      if offset < rs[0].offset {
        var gap := GapRegion(b, offset, rs[0].offset - offset);
        GapInFront(b, [rs[0]] + rest, rs, f, gap);
        f := OneOn(f);
        assert Tiles(b, offset, rs) == [gap] + ([rs[0]] + rest);
      } else {
        assert Tiles(b, offset, rs) == [rs[0]] + rest;
      }
    }
  }

  lemma {:induction false} TilesContiguous(b: seq<byte>, offset: nat, rs: seq<Region>)
    requires Neat(b, rs) && (rs != [] ==> offset <= rs[0].offset)
    ensures Contiguous(Tiles(b, offset, rs), offset)
    decreases |rs|
  {
    if rs != [] {
      TilesContiguous(b, EndOf(rs[0]), rs[1..]);
    }
  }

  lemma {:induction false} NeatOrder(b: seq<byte>, rs: seq<Region>, offset: nat)
    requires Neat(b, rs) && (rs != [] ==> offset <= rs[0].offset)
    ensures forall r :: r in rs ==> offset <= r.offset
  {
    if rs != [] {
      NeatOrder(b, rs[1..], EndOf(rs[0]));
    }
  }

  lemma SortedInFront(r: Region, t: seq<Region>)
    requires Sorted(t, ByOffset) && forall u :: u in t ==> r.offset <= u.offset
    ensures Sorted([r] + t, ByOffset)
  {
    assert forall i :: 0 <= i < |t| ==> t[i] in t;
  }

  lemma {:induction false} TilesOrder(b: seq<byte>, rs: seq<Region>, offset: nat)
    requires Neat(b, rs) && (rs != [] ==> offset <= rs[0].offset)
    ensures Sorted(Tiles(b, offset, rs), ByOffset)
    ensures forall r :: r in Tiles(b, offset, rs) ==> offset <= r.offset
  {
    if rs != [] {
      var r, rest := rs[0], Tiles(b, EndOf(rs[0]), rs[1..]);
      TilesOrder(b, rs[1..], EndOf(r));
      SortedInFront(r, rest);
      if offset < r.offset {
        SortedInFront(GapRegion(b, offset, r.offset - offset), [r] + rest);
      }
    }
  }

  lemma {:induction false} WithKeyNone<T>(s: seq<T>, key: T -> int, k: int)
    requires forall x :: x in s ==> key(x) > k
    ensures WithKey(s, key, k) == []
  {
    if s != [] {
      WithKeyNone(s[1..], key, k);
    }
  }

  lemma {:induction false} WithKeyConcat<T>(s: seq<T>, t: seq<T>, key: T -> int, k: int)
    ensures WithKey(s + t, key, k) == WithKey(s, key, k) + WithKey(t, key, k)
  {
    if s == [] {
      assert s + t == t;
    } else {
      WithKeyConcat(s[1..], t, key, k);
      assert (s + t)[1..] == s[1..] + t;
    }
  }

  /** t has, for the key k, what rs has and then what gaps has. */
  ghost predicate SplitsAt<T>(t: seq<T>, rs: seq<T>, gaps: seq<T>, key: T -> int, k: int) {
    WithKey(t, key, k) == WithKey(rs, key, k) + WithKey(gaps, key, k)
  }

  lemma SplitsWithRegion<T>(x: T, t: seq<T>, rs: seq<T>, gaps: seq<T>, key: T -> int, k: int)
    requires SplitsAt(t, rs, gaps, key, k)
    ensures SplitsAt([x] + t, [x] + rs, gaps, key, k)
  {
    WithKeyCons(x, t, key, k);
    WithKeyCons(x, rs, key, k);
  }

  lemma SplitsWithGap<T>(g: T, t: seq<T>, rs: seq<T>, gaps: seq<T>, key: T -> int, k: int)
    requires SplitsAt(t, rs, gaps, key, k) && (key(g) == k ==> WithKey(rs, key, k) == [])
    ensures SplitsAt([g] + t, rs, [g] + gaps, key, k)
  {
    WithKeyCons(g, t, key, k);
    WithKeyCons(g, gaps, key, k);
  }

  /** A gap in front of the first region: nothing else is at its offset. */
  lemma TilesSplitGap(b: seq<byte>, offset: nat, rs: seq<Region>, k: int)
    requires Neat(b, rs) && rs != [] && offset < rs[0].offset
    requires SplitsAt(Tiles(b, rs[0].offset, rs), rs, GapsFrom(b, rs[0].offset, rs), ByOffset, k)
    ensures SplitsAt(Tiles(b, offset, rs), rs, GapsFrom(b, offset, rs), ByOffset, k)
  {
    var at := rs[0].offset;
    if k == offset {
      NeatOrder(b, rs, at);
      WithKeyNone(rs, ByOffset, k);
    }
    SplitsWithGap(GapRegion(b, offset, at - offset), Tiles(b, at, rs), rs, GapsFrom(b, at, rs), ByOffset, k);
  }

  /** Among the regions at one offset the gap comes last, behind the empty regions there: as appended, so tiled. */
  lemma {:induction false} TilesSplit(b: seq<byte>, offset: nat, rs: seq<Region>, k: int)
    requires Neat(b, rs) && (rs != [] ==> offset <= rs[0].offset)
    ensures SplitsAt(Tiles(b, offset, rs), rs, GapsFrom(b, offset, rs), ByOffset, k)
    decreases |rs|, offset < if rs == [] then 0 else rs[0].offset
  {
    if rs == [] {
    } else if offset < rs[0].offset {
      TilesSplit(b, rs[0].offset, rs, k);
      TilesSplitGap(b, offset, rs, k);
    } else {
      var r, rest, end := rs[0], rs[1..], EndOf(rs[0]);
      assert rs == [r] + rest;
      TilesSplit(b, end, rest, k);
      SplitsWithRegion(r, Tiles(b, end, rest), rest, GapsFrom(b, end, rest), ByOffset, k);
    }
  }

  lemma {:induction false} NoGapsNoTiles(b: seq<byte>, offset: nat, rs: seq<Region>)
    requires Neat(b, rs) && GapsFrom(b, offset, rs) == []
    ensures Tiles(b, offset, rs) == rs
    decreases |rs|
  {
    if rs != [] {
      assert Neat(b, rs[1..]);
      NoGapsNoTiles(b, EndOf(rs[0]), rs[1..]);
    }
  }

  /** For neat regions, appending the gaps and sorting stably by offset is putting each gap where it belongs. */
  lemma FilledIsTiled(b: seq<byte>, rs: seq<Region>)
    requires rs != [] && Neat(b, rs)
    ensures Filled(b, rs) == Tiles(b, rs[0].offset, rs)
  {
    var offset := rs[0].offset;
    var gaps := GapsFrom(b, offset, rs);
    assert gaps == GapsFrom(b, EndOf(rs[0]), rs[1..]);
    if gaps == [] {
      NoGapsNoTiles(b, offset, rs);
    } else {
      var sorted, tiles := StableSort(rs + gaps, ByOffset), Tiles(b, offset, rs);
      StableSortIsStable(rs + gaps, ByOffset);
      TilesOrder(b, rs, offset);
      forall k: int
        ensures WithKey(sorted, ByOffset, k) == WithKey(tiles, ByOffset, k)
      {
        TilesSplit(b, offset, rs, k);
        WithKeyConcat(rs, gaps, ByOffset, k);
      }
      StableSortUnique(sorted, tiles, ByOffset);
    }
  }

  /**
   * Neat regions become a contiguous tiling of the same extent: all of them are kept, in their order, with exactly
   * one region for each gap. Empty regions come out in front of the gap that begins where they are.
   */
  lemma FilledIsTiling(b: seq<byte>, rs: seq<Region>) returns (f: seq<nat>)
    requires rs != [] && Neat(b, rs)
    ensures var t := Filled(b, rs);
            && Contiguous(t, rs[0].offset) && GapsBetween(b, t, rs, f)
            && t != [] && t[0] == rs[0] && t[|t| - 1] == rs[|rs| - 1]
  {
    FilledIsTiled(b, rs);
    TilesContiguous(b, rs[0].offset, rs);
    f := TilesFacts(b, rs[0].offset, rs);
    assert Placed(b, Filled(b, rs), rs, f, |rs| - 1);
  }
}
