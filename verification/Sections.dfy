/** The section map: sections in ascending order of the offset they are stored under. */
module Sections {
  import opened Schema

  predicate Ascending(ss: seq<Section>) {
    forall i, j :: 0 <= i < j < |ss| ==> ss[i].key < ss[j].key
  }

  /** How many leading sections have a key below the given one. */
  function LowerBound(ss: seq<Section>, key: nat): (n: nat)
    ensures n <= |ss|
    ensures forall i :: 0 <= i < n ==> ss[i].key < key
    ensures n < |ss| ==> ss[n].key >= key
  {
    if ss == [] || ss[0].key >= key then 0 else 1 + LowerBound(ss[1..], key)
  }

  predicate HasKey(ss: seq<Section>, key: nat) {
    exists s :: s in ss && s.key == key
  }

  /** std::map::insert: a section that is already there stays. */
  function Add(ss: seq<Section>, s: Section): seq<Section> {
    var n := LowerBound(ss, s.key);
    if n < |ss| && ss[n].key == s.key then ss else ss[..n] + [s] + ss[n..]
  }

  /** Where the last region of a section ends. */
  function End(s: Section): nat
    requires s.regions != []
  {
    s.regions[|s.regions| - 1].offset + s.regions[|s.regions| - 1].length
  }

  predicate NoneHollow(ss: seq<Section>) {
    forall s :: s in ss ==> s.regions != []
  }

  /** The lookup through the index: the section at the offset, or the one before it. */
  predicate Contains(ss: seq<Section>, offset: nat)
    requires NoneHollow(ss)
  {
    var n := LowerBound(ss, offset);
    (n < |ss| && ss[n].key == offset) || (n > 0 && ss[n - 1].key <= offset < End(ss[n - 1]))
  }

  predicate Covers(s: Section, offset: nat)
    requires s.regions != []
  {
    s.key == offset || s.key <= offset < End(s)
  }

  /** The lookup by looking at every section. */
  predicate Scan(ss: seq<Section>, offset: nat)
    requires NoneHollow(ss)
  {
    exists s :: s in ss && Covers(s, offset)
  }

  ghost predicate Extends(before: seq<Section>, after: seq<Section>) {
    forall s :: s in before ==> s in after
  }

  lemma LowerBoundAscending(ss: seq<Section>, key: nat)
    requires Ascending(ss)
    ensures forall i :: LowerBound(ss, key) <= i < |ss| ==> ss[i].key >= key
  {
  }

  lemma AddEffect(ss: seq<Section>, s: Section)
    requires Ascending(ss)
    ensures Ascending(Add(ss, s)) && Extends(ss, Add(ss, s)) && HasKey(Add(ss, s), s.key)
    ensures forall t :: t in Add(ss, s) ==> t in ss || t == s
    ensures !HasKey(ss, s.key) ==> s in Add(ss, s)
  {
    var n := LowerBound(ss, s.key);
    LowerBoundAscending(ss, s.key);
    var r := Add(ss, s);
    if n < |ss| && ss[n].key == s.key {
      assert ss[n] in r;
    } else {
      assert r[n] == s;
      forall t | t in ss
        ensures t in r
      {
        var i :| 0 <= i < |ss| && ss[i] == t;
        assert r[if i < n then i else i + 1] == t;
      }
    }
  }

  /** The index never claims a section that is not there. */
  lemma ContainsIsSound(ss: seq<Section>, offset: nat)
    requires NoneHollow(ss)
    ensures Contains(ss, offset) ==> Scan(ss, offset)
  {
    var n := LowerBound(ss, offset);
    if n < |ss| && ss[n].key == offset {
      assert ss[n] in ss && Covers(ss[n], offset);
    } else if n > 0 && ss[n - 1].key <= offset < End(ss[n - 1]) {
      assert ss[n - 1] in ss && Covers(ss[n - 1], offset);
    }
  }

  /** Section j does not reach further, before the next key, than section i after it, of which i is the nearest. */
  predicate Shadowed(ss: seq<Section>, j: nat, i: nat)
    requires NoneHollow(ss) && j < i < |ss|
  {
    var reach := if i + 1 < |ss| && ss[i + 1].key < End(ss[j]) then ss[i + 1].key else End(ss[j]);
    reach <= End(ss[i]) || reach <= ss[i].key + 1
  }

  /** No earlier section sticks out between the end of a section and the next key. */
  predicate IndexExact(ss: seq<Section>)
    requires NoneHollow(ss)
  {
    forall j, i :: 0 <= j < i < |ss| ==> Shadowed(ss, j, i)
  }

  /** Exactly when the lookup through the index is the lookup by scanning. */
  lemma IndexIsScanIff(ss: seq<Section>)
    requires Ascending(ss) && NoneHollow(ss)
    ensures IndexExact(ss) <==> forall offset: nat :: Contains(ss, offset) == Scan(ss, offset)
  {
    if IndexExact(ss) {
      forall offset: nat
        ensures Contains(ss, offset) == Scan(ss, offset)
      {
        ContainsIsSound(ss, offset);
        if Scan(ss, offset) {
          var j := CoveringIndex(ss, offset);
          ScanIsContained(ss, offset, j);
        }
      }
    } else {
      var j, i :| 0 <= j < i < |ss| && !Shadowed(ss, j, i);
      var offset := MissedOffset(ss, j, i);
    }
  }

  lemma CoveringIndex(ss: seq<Section>, offset: nat) returns (j: nat)
    requires NoneHollow(ss) && Scan(ss, offset)
    ensures j < |ss| && Covers(ss[j], offset)
  {
    var s :| s in ss && Covers(s, offset);
    j :| 0 <= j < |ss| && ss[j] == s;
  }

  lemma ScanIsContained(ss: seq<Section>, offset: nat, j: nat)
    requires Ascending(ss) && NoneHollow(ss) && j < |ss| && Covers(ss[j], offset)
    requires j < LowerBound(ss, offset) - 1 ==> Shadowed(ss, j, LowerBound(ss, offset) - 1)
    ensures Contains(ss, offset)
  {
    LowerBoundAscending(ss, offset);
  }

  /** A section that sticks out is found by scanning, but not through the index. */
  lemma MissedOffset(ss: seq<Section>, j: nat, i: nat) returns (offset: nat)
    requires Ascending(ss) && NoneHollow(ss) && j < i < |ss| && !Shadowed(ss, j, i)
    ensures Scan(ss, offset) && !Contains(ss, offset)
  {
    offset := if End(ss[i]) > ss[i].key then End(ss[i]) else ss[i].key + 1;
    assert ss[j] in ss && Covers(ss[j], offset);
    var n := LowerBound(ss, offset);
    LowerBoundAscending(ss, offset);
    assert n == i + 1;
  }

  /** Sections whose extents are disjoint: each ends before the next begins. */
  predicate Disjoint(ss: seq<Section>)
    requires NoneHollow(ss)
  {
    forall i, j :: 0 <= i < j < |ss| ==> End(ss[i]) <= ss[j].key
  }

  lemma DisjointIsExact(ss: seq<Section>)
    requires Ascending(ss) && NoneHollow(ss) && Disjoint(ss)
    ensures IndexExact(ss)
    ensures forall offset: nat :: Contains(ss, offset) == Scan(ss, offset)
  {
    IndexIsScanIff(ss);
  }
}
