/** The orders in which the fields of a table are visited: by id, and by size when a table is built. */
module FieldOrder {

  // ---------------------------------------------------------------- by id

  /** Every field has an id of its own, below the number of fields. */
  predicate IsPermutation(ids: seq<nat>) {
    && (forall i :: 0 <= i < |ids| ==> ids[i] < |ids|)
    && (forall i, j :: 0 <= i < j < |ids| ==> ids[i] != ids[j])
  }

  /** The index of each field, under its id. */
  method FieldIdToIndex(ids: seq<nat>) returns (index: array<nat>)
    requires IsPermutation(ids)
    ensures fresh(index) && index.Length == |ids|
    ensures forall i :: 0 <= i < |ids| ==> index[ids[i]] == i
  {
    index := new nat[|ids|](i => 0);
    for i := 0 to |ids|
      invariant forall j :: 0 <= j < i ==> index[ids[j]] == j
    {
      index[ids[i]] := i;
    }
  }

  /** Calls back once for each field, in the order of ids or against it; visited is the fields called back for. */
  method ForAllFields(ids: seq<nat>, reverse: bool) returns (visited: seq<nat>)
    requires IsPermutation(ids)
    ensures |visited| == |ids|
    ensures forall k :: 0 <= k < |ids| ==> visited[k] < |ids| && ids[visited[k]] == if reverse then |ids| - 1 - k else k
  {
    var index := FieldIdToIndex(ids);
    visited := [];
    for i := 0 to index.Length
      invariant |visited| == i && forall j :: 0 <= j < |ids| ==> index[ids[j]] == j
      invariant forall k :: 0 <= k < i ==> visited[k] < |ids| && ids[visited[k]] == if reverse then |ids| - 1 - k else k
    {
      var id := if reverse then index.Length - (i + 1) else i;
      var j := WithId(ids, id);
      visited := visited + [index[id]];
    }
  }

  function Below(n: nat): (s: set<nat>)
    ensures |s| == n && forall k :: k in s <==> 0 <= k < n
  {
    if n == 0 then {} else Below(n - 1) + {n - 1}
  }

  ghost function Used(ids: seq<nat>, n: nat): (s: set<nat>)
    requires n <= |ids| && forall i, j :: 0 <= i < j < |ids| ==> ids[i] != ids[j]
    ensures |s| == n && forall x :: x in s <==> x in ids[..n]
  {
    if n == 0 then {}
    else
      assert ids[..n] == ids[..n - 1] + [ids[n - 1]];
      Used(ids, n - 1) + {ids[n - 1]}
  }

  /** As there are as many fields as ids, every id below their number is some field's. */
  lemma WithId(ids: seq<nat>, id: nat) returns (i: nat)
    requires IsPermutation(ids) && id < |ids|
    ensures i < |ids| && ids[i] == id
  {
    assert ids[..|ids|] == ids;
    SameSize(Used(ids, |ids|), Below(|ids|));
    assert id in Below(|ids|);
    i :| 0 <= i < |ids| && ids[i] == id;
  }

  /** A subset with as many elements is the whole set. */
  lemma {:induction false} SameSize(s: set<nat>, t: set<nat>)
    requires s <= t && |s| == |t|
    ensures s == t
  {
    if s != {} {
      var x :| x in s;
      SameSize(s - {x}, t - {x});
    }
  }

  /** Visiting in id order visits every field, and none twice. */
  lemma VisitsEachOnce(ids: seq<nat>, reverse: bool, visited: seq<nat>)
    requires IsPermutation(ids) && |visited| == |ids|
    requires forall k :: 0 <= k < |ids| ==>
               visited[k] < |ids| && ids[visited[k]] == if reverse then |ids| - 1 - k else k
    ensures forall i :: 0 <= i < |ids| ==> i in visited
    ensures forall j, k :: 0 <= j < k < |visited| ==> visited[j] != visited[k]
  {
    forall i | 0 <= i < |ids|
      ensures i in visited
    {
      var k := if reverse then |ids| - 1 - ids[i] else ids[i];
      assert ids[visited[k]] == ids[i];
      assert visited[k] == i;
    }
  }

  // ---------------------------------------------------------------- by size

  datatype TableField = TableField(deprecated: bool, size: nat)

  const LARGEST_SCALAR: nat := 8

  /**
   * The fields that a builder adds: not deprecated, and when they are sorted by size, of one of the sizes gone
   * through.
   */
  predicate IsAdded(fields: seq<TableField>, sortBySize: bool, i: nat) {
    i < |fields| && !fields[i].deprecated && (sortBySize ==> fields[i].size in {1, 2, 4, 8})
  }

  /** Larger fields come first, and of the same size, or when sizes do not matter, later ones. */
  predicate ComesFirst(fields: seq<TableField>, sortBySize: bool, i: nat, j: nat)
    requires i < |fields| && j < |fields|
  {
    if sortBySize && fields[i].size != fields[j].size then fields[i].size > fields[j].size else i > j
  }

  /** added is the fields that are added, each once, in the builder's order. */
  ghost predicate IsBuildOrder(added: seq<nat>, fields: seq<TableField>, sortBySize: bool) {
    && (forall i: nat :: i in added <==> IsAdded(fields, sortBySize, i))
    && (forall p :: 0 <= p < |added| ==> added[p] < |fields|)
    && (forall p, q :: 0 <= p < q < |added| ==> ComesFirst(fields, sortBySize, added[p], added[q]))
  }

  /** The fields of one size, or of any size, last declared first. */
  method AddFields(fields: seq<TableField>, sortBySize: bool, size: nat) returns (added: seq<nat>)
    ensures forall i: nat :: i in added <==>
              i < |fields| && !fields[i].deprecated && (sortBySize ==> fields[i].size == size)
    ensures forall p, q :: 0 <= p < q < |added| ==> added[p] > added[q]
  {
    added := [];
    var n: nat := |fields|;
    while n > 0
      invariant n <= |fields|
      invariant forall i: nat :: i in added <==>
                  n <= i < |fields| && !fields[i].deprecated && (sortBySize ==> fields[i].size == size)
      invariant forall p, q :: 0 <= p < q < |added| ==> added[p] > added[q]
    {
      n := n - 1;
      if !fields[n].deprecated && (!sortBySize || size == fields[n].size) {
        forall p | 0 <= p < |added|
          ensures added[p] > n
        {
          assert added[p] in added;
        }
        added := added + [n];
      }
    }
  }

  /** Goes through the sizes from the largest scalar down; or once, if the fields are not sorted by size. */
  method GenBuilder(fields: seq<TableField>, sortBySize: bool) returns (added: seq<nat>)
    ensures IsBuildOrder(added, fields, sortBySize)
  {
    added := [];
    var size: nat := if sortBySize then LARGEST_SCALAR else 1;
    while size > 0
      invariant if sortBySize then size in {0, 1, 2, 4, 8} else size in {0, 1}
      invariant forall p :: 0 <= p < |added| ==> added[p] < |fields|
      invariant sortBySize ==> forall i: nat :: i in added <==> IsAdded(fields, true, i) && fields[i].size > size
      invariant !sortBySize ==>
                  if size == 1 then added == [] else forall i: nat :: i in added <==> IsAdded(fields, false, i)
      invariant forall p, q :: 0 <= p < q < |added| ==> ComesFirst(fields, sortBySize, added[p], added[q])
    {
      var more := AddFields(fields, sortBySize, size);
      forall p | 0 <= p < |more|
        ensures more[p] < |fields| && (sortBySize ==> fields[more[p]].size == size)
      {
        assert more[p] in more;
      }
      forall p | 0 <= p < |added|
        ensures sortBySize ==> fields[added[p]].size > size
      {
        assert added[p] in added;
      }
      added := added + more;
      size := size / 2;
    }
  }

  /** There is only one such order. */
  lemma {:induction false} BuildOrderUnique(s: seq<nat>, t: seq<nat>, fields: seq<TableField>, sortBySize: bool)
    requires forall i: nat :: i in s <==> i in t
    requires forall p :: 0 <= p < |s| ==> s[p] < |fields|
    requires forall p :: 0 <= p < |t| ==> t[p] < |fields|
    requires forall p, q :: 0 <= p < q < |s| ==> ComesFirst(fields, sortBySize, s[p], s[q])
    requires forall p, q :: 0 <= p < q < |t| ==> ComesFirst(fields, sortBySize, t[p], t[q])
    ensures s == t
  {
    if t != [] {
      assert t[0] in t;
    }
    if s != [] {
      assert s[0] in s;
      var p :| 0 <= p < |t| && t[p] == s[0];
      var q :| 0 <= q < |s| && s[q] == t[0];
      assert p == 0 && q == 0;
      forall i: nat
        ensures i in s[1..] <==> i in t[1..]
      {
        TailElements(s, fields, sortBySize, i);
        TailElements(t, fields, sortBySize, i);
      }
      BuildOrderUnique(s[1..], t[1..], fields, sortBySize);
    }
  }

  lemma TailElements(s: seq<nat>, fields: seq<TableField>, sortBySize: bool, i: nat)
    requires s != [] && forall p :: 0 <= p < |s| ==> s[p] < |fields|
    requires forall p, q :: 0 <= p < q < |s| ==> ComesFirst(fields, sortBySize, s[p], s[q])
    ensures i in s[1..] <==> i in s && i != s[0]
  {
    if i in s[1..] {
      var p :| 0 <= p < |s| - 1 && s[1..][p] == i;
      assert s[p + 1] == i && ComesFirst(fields, sortBySize, s[0], s[p + 1]);
    }
  }
}
