/** The ids that the fields of a protobuf message get in the schema made from it. */
module ProtoIds {
  import opened Bytes
  import opened StableSorting

  /** The id attribute of a field: absent, present without a value, or a text that may be a 16-bit number. */
  datatype IdAttribute = NoId | EmptyId | Id(number: Option<nat>)

  datatype ProtoField = ProtoField(isUnion: bool, id: IdAttribute)

  datatype GapAction = NoOp | Warning | Error

  predicate HasFieldWithId(fields: seq<ProtoField>) {
    exists i :: 0 <= i < |fields| && fields[i].id.Id?
  }

  predicate HasNonPositiveFieldId(fields: seq<ProtoField>) {
    exists i :: 0 <= i < |fields| && fields[i].id == Id(None)
  }

  predicate HasFieldIdFromReservedIds(fields: seq<ProtoField>, reserved: seq<nat>) {
    exists i :: 0 <= i < |fields| && fields[i].id.Id?
      && (fields[i].id.number.None? || fields[i].id.number.value in reserved)
  }

  /** The ids that are numbers, in field order. */
  function ProtobufIds(fields: seq<ProtoField>): seq<nat> {
    if fields == [] then []
    else
      var rest := ProtobufIds(fields[..|fields| - 1]);
      match fields[|fields| - 1].id
      case Id(Some(v)) => rest + [v]
      case _ => rest
  }

  method ExtractProtobufIds(fields: seq<ProtoField>) returns (ids: seq<nat>)
    ensures ids == ProtobufIds(fields)
  {
    ids := [];
    for i := 0 to |fields|
      invariant ids == ProtobufIds(fields[..i])
    {
      assert fields[..i + 1][..i] == fields[..i];
      match fields[i].id {
        case Id(Some(v)) => ids := ids + [v];
        case _ =>
      }
    }
    assert fields[..|fields|] == fields;
  }

  function Itself(v: nat): int {
    v
  }

  method Sort(ids: seq<nat>) returns (sorted: seq<nat>)
    ensures multiset(sorted) == multiset(ids) && Sorted(sorted, Itself)
  {
    StableSortIsStable(ids, Itself);
    sorted := StableSort(ids, Itself);
  }

  /** Two of the ids are the same number. */
  predicate HasDuplicate(ids: seq<nat>) {
    exists i, j :: 0 <= i < j < |ids| && ids[i] == ids[j]
  }

  /** A number between two of the ids is not one of them. */
  ghost predicate HasHole(ids: seq<nat>) {
    exists a, v, c :: a in ids && c in ids && a < v < c && v !in ids
  }

  /** Neighbours in order are equal exactly if two ids are. */
  method HasTwiceUsedId(fields: seq<ProtoField>) returns (twice: bool)
    requires ProtobufIds(fields) != []
    ensures twice <==> HasDuplicate(ProtobufIds(fields))
  {
    var used := ExtractProtobufIds(fields);
    var sorted := Sort(used);
    SameDuplicates(used, sorted);
    for i := 1 to |sorted|
      invariant forall j :: 0 < j < i ==> sorted[j] != sorted[j - 1]
    {
      if sorted[i] == sorted[i - 1] {
        return true;
      }
    }
    StrictlyAscending(sorted);
    return false;
  }

  /** Neighbours in order differ by something else than one exactly if two ids are the same, or there is a hole. */
  method HasGapInProtoId(fields: seq<ProtoField>) returns (gap: bool)
    requires ProtobufIds(fields) != []
    ensures gap <==> HasDuplicate(ProtobufIds(fields)) || HasHole(ProtobufIds(fields))
  {
    var used := ExtractProtobufIds(fields);
    var sorted := Sort(used);
    SameDuplicates(used, sorted);
    SameElements(used, sorted);
    for i := 1 to |sorted|
      invariant forall j :: 0 < j < i ==> sorted[j] == sorted[j - 1] + 1
    {
      if sorted[i] != sorted[i - 1] + 1 {
        NeighboursGap(sorted, i);
        return true;
      }
    }
    Consecutive(sorted);
    return false;
  }

  lemma SameElements(s: seq<nat>, t: seq<nat>)
    requires multiset(s) == multiset(t)
    ensures forall x :: x in s <==> x in t
    ensures HasHole(s) <==> HasHole(t)
  {
    forall x
      ensures x in s <==> x in t
    {
      assert x in s <==> x in multiset(s);
      assert x in t <==> x in multiset(t);
    }
  }

  lemma {:induction false} DuplicateCount(s: seq<nat>, i: nat, j: nat)
    requires i < j < |s| && s[i] == s[j]
    ensures multiset(s)[s[i]] >= 2
  {
    assert s == s[..i] + [s[i]] + s[i + 1..j] + [s[j]] + s[j + 1..];
  }

  lemma {:induction false} CountDuplicate(s: seq<nat>, v: nat)
    requires multiset(s)[v] >= 2
    ensures HasDuplicate(s)
  {
    assert v in multiset(s);
    var i :| 0 <= i < |s| && s[i] == v;
    var rest := s[..i] + s[i + 1..];
    assert s == s[..i] + [s[i]] + s[i + 1..];
    assert multiset(s) == multiset(rest) + multiset{v};
    assert v in rest;
    var j :| 0 <= j < |rest| && rest[j] == v;
    if j < i {
      assert s[j] == v;
    } else {
      assert s[j + 1] == v;
    }
  }

  lemma SameDuplicates(s: seq<nat>, t: seq<nat>)
    requires multiset(s) == multiset(t)
    ensures HasDuplicate(s) <==> HasDuplicate(t)
  {
    if i, j :| 0 <= i < j < |s| && s[i] == s[j] {
      DuplicateCount(s, i, j);
      CountDuplicate(t, s[i]);
    }
    if i, j :| 0 <= i < j < |t| && t[i] == t[j] {
      DuplicateCount(t, i, j);
      CountDuplicate(s, t[i]);
    }
  }

  lemma StrictlyAscending(s: seq<nat>)
    requires Sorted(s, Itself) && forall j :: 0 < j < |s| ==> s[j] != s[j - 1]
    ensures !HasDuplicate(s)
  {
    forall i, j | 0 <= i < j < |s|
      ensures s[i] < s[j]
    {
      assert Itself(s[i]) <= Itself(s[j - 1]) <= Itself(s[j]) && s[j] != s[j - 1];
    }
  }

  lemma NeighboursGap(s: seq<nat>, i: nat)
    requires Sorted(s, Itself) && 0 < i < |s| && s[i] != s[i - 1] + 1
    ensures HasDuplicate(s) || HasHole(s)
  {
    assert Itself(s[i - 1]) <= Itself(s[i]);
    if s[i - 1] < s[i] {
      var v := s[i - 1] + 1;
      forall j | 0 <= j < |s|
        ensures s[j] != v
      {
        assert j <= i - 1 ==> Itself(s[j]) <= Itself(s[i - 1]);
        assert j >= i ==> Itself(s[i]) <= Itself(s[j]);
      }
      assert s[i - 1] in s && s[i] in s && v !in s;
    }
  }

  lemma Consecutive(s: seq<nat>)
    requires forall j :: 0 < j < |s| ==> s[j] == s[j - 1] + 1
    ensures !HasDuplicate(s) && !HasHole(s)
  {
    forall j | 0 <= j < |s|
      ensures s[j] == s[0] + j
    {
      ConsecutiveAt(s, j);
    }
    forall a, v, c | a in s && c in s && a < v < c
      ensures v in s
    {
      assert s[v - s[0]] == v;
    }
  }

  lemma {:induction false} ConsecutiveAt(s: seq<nat>, j: nat)
    requires j < |s| && forall k :: 0 < k < |s| ==> s[k] == s[k - 1] + 1
    ensures s[j] == s[0] + j
  {
    if j > 0 {
      ConsecutiveAt(s, j - 1);
    }
  }

  // ---------------------------------------------------------------- renumbering

  /** A union that keeps no flag of its own: its type field takes the id below it. */
  predicate IsUnion(f: ProtoField) {
    f.isUnion && f.id == EmptyId
  }

  /** What fields are sorted by: unions come first, and a field with an empty id counts as 0. */
  function Key(f: ProtoField): int {
    if IsUnion(f) then -1
    else match f.id
      case Id(Some(v)) => v
      case _ => 0
  }

  function ByKey(fields: seq<ProtoField>): nat -> int {
    (i: nat) => if i < |fields| then Key(fields[i]) else 0
  }

  /** A sorted order of the fields, as positions; which one, of fields with equal keys, is not specified. */
  ghost predicate IsOrder(order: seq<nat>, fields: seq<ProtoField>) {
    && |order| == |fields| && !HasDuplicate(order)
    && (forall k :: 0 <= k < |order| ==> order[k] < |fields|)
    && (forall i :: 0 <= i < |fields| ==> i in order)
    && Sorted(order, ByKey(fields))
  }

  method SortFields(fields: seq<ProtoField>) returns (order: seq<nat>)
    ensures IsOrder(order, fields)
  {
    var all: seq<nat> := seq(|fields|, i => i);
    order := StableSort(all, ByKey(fields));
    StableSortIsStable(all, ByKey(fields));
    SameDuplicates(all, order);
    SameElements(all, order);
    assert |order| == |multiset(order)| == |multiset(all)| == |all|;
    forall i: nat | i < |fields|
      ensures i in all
    {
      assert all[i] == i;
    }
    assert forall k :: 0 <= k < |order| ==> order[k] in order;
  }

  /** How many ids the first n fields of the order take: a union takes two. */
  function Before(fields: seq<ProtoField>, order: seq<nat>, n: nat): nat
    requires n <= |order| && forall k :: 0 <= k < |order| ==> order[k] < |fields|
  {
    if n == 0 then 0 else Before(fields, order, n - 1) + if IsUnion(fields[order[n - 1]]) then 2 else 1
  }

  /** The id of the field at place k of the order: behind all before it, and for a union one further. */
  function Place(fields: seq<ProtoField>, order: seq<nat>, k: nat): nat
    requires k < |order| && forall k :: 0 <= k < |order| ==> order[k] < |fields|
  {
    Before(fields, order, k) + if IsUnion(fields[order[k]]) then 1 else 0
  }

  /** The ids of the first n fields of the order: each has its place, in 16 bits. */
  function Ids(fields: seq<ProtoField>, order: seq<nat>, n: nat): map<nat, nat>
    requires n <= |order| && forall k :: 0 <= k < |order| ==> order[k] < |fields|
  {
    if n == 0 then map[] else Ids(fields, order, n - 1)[order[n - 1] := Place(fields, order, n - 1) % U16]
  }

  lemma NextId(a: nat)
    ensures (a % U16 + 1) % U16 == (a + 1) % U16
  {
  }

  /** Gives out the ids in order; id is a 16-bit number. */
  method AssignIds(fields: seq<ProtoField>, order: seq<nat>) returns (ids: map<nat, nat>)
    requires forall k :: 0 <= k < |order| ==> order[k] < |fields|
    ensures ids == Ids(fields, order, |order|)
  {
    ids := map[];
    var id: nat := 0;
    for k := 0 to |order|
      invariant id == Before(fields, order, k) % U16 && ids == Ids(fields, order, k)
    {
      if Key(fields[order[k]]) == -1 {
        NextId(Before(fields, order, k));
        id := (id + 1) % U16;
      }
      ids := ids[order[k] := id];
      NextId(Place(fields, order, k));
      id := (id + 1) % U16;
    }
  }

  /** The checks before renumbering. */
  method ProtobufIdSanityCheck(fields: seq<ProtoField>, reserved: seq<nat>, action: GapAction) returns (ok: bool)
    requires HasFieldWithId(fields)
    ensures ok <==> Sane(fields, reserved, action)
  {
    if HasNonPositiveFieldId(fields) {
      return false;
    }
    SomeIds(fields);
    var twice := HasTwiceUsedId(fields);
    if twice || HasFieldIdFromReservedIds(fields, reserved) {
      return false;
    }
    if action != NoOp {
      var gap := HasGapInProtoId(fields);
      if gap && action == Error {
        return false;
      }
    }
    return true;
  }

  ghost predicate Sane(fields: seq<ProtoField>, reserved: seq<nat>, action: GapAction) {
    && !HasNonPositiveFieldId(fields) && !HasFieldIdFromReservedIds(fields, reserved)
    && !HasDuplicate(ProtobufIds(fields))
    && (action == Error ==> !HasHole(ProtobufIds(fields)))
  }

  /** When every id is a number and there is one, the lists that the checks sort are not empty. */
  lemma {:induction false} SomeIds(fields: seq<ProtoField>)
    requires HasFieldWithId(fields) && !HasNonPositiveFieldId(fields)
    ensures ProtobufIds(fields) != []
  {
    var i :| 0 <= i < |fields| && fields[i].id.Id?;
    if i < |fields| - 1 {
      var rest := fields[..|fields| - 1];
      assert rest[i].id.Id?;
      forall j | 0 <= j < |rest|
        ensures rest[j].id != Id(None)
      {
        assert rest[j] == fields[j];
      }
      SomeIds(rest);
    }
  }

  // ---------------------------------------------------------------- how many ids are taken

  function Unions(fields: seq<ProtoField>): set<nat> {
    set i: nat | i < |fields| && IsUnion(fields[i])
  }

  /** One id for each field, and one more for each union. */
  function Slots(fields: seq<ProtoField>): nat {
    |fields| + |Unions(fields)|
  }

  predicate AmongFirst(order: seq<nat>, n: nat, i: nat)
    requires n <= |order|
  {
    exists k :: 0 <= k < n && order[k] == i
  }

  function UnionsBefore(fields: seq<ProtoField>, order: seq<nat>, n: nat): set<nat>
    requires n <= |order|
  {
    set i: nat | i < |fields| && IsUnion(fields[i]) && AmongFirst(order, n, i)
  }

  lemma AmongStep(order: seq<nat>, n: nat, i: nat)
    requires n < |order|
    ensures AmongFirst(order, n + 1, i) <==> AmongFirst(order, n, i) || i == order[n]
  {
    if i == order[n] {
      assert order[n] == i;
    }
  }

  lemma UnionBeforeStep(fields: seq<ProtoField>, order: seq<nat>, n: nat, i: nat)
    requires n < |order| && order[n] < |fields|
    ensures i in UnionsBefore(fields, order, n + 1)
            <==> i in UnionsBefore(fields, order, n) || (i == order[n] && IsUnion(fields[i]))
  {
    AmongStep(order, n, i);
  }

  lemma UnionsStep(fields: seq<ProtoField>, order: seq<nat>, n: nat)
    requires IsOrder(order, fields) && n < |order|
    ensures |UnionsBefore(fields, order, n + 1)|
            == |UnionsBefore(fields, order, n)| + if IsUnion(fields[order[n]]) then 1 else 0
  {
    var i, before, after := order[n], UnionsBefore(fields, order, n), UnionsBefore(fields, order, n + 1);
    assert !AmongFirst(order, n, i);
    forall j: nat
      ensures j in after <==> j in before || (j == i && IsUnion(fields[i]))
    {
      UnionBeforeStep(fields, order, n, j);
    }
    assert after == if IsUnion(fields[i]) then before + {i} else before;
  }

  lemma {:induction false} BeforeIs(fields: seq<ProtoField>, order: seq<nat>, n: nat)
    requires IsOrder(order, fields) && n <= |order|
    ensures Before(fields, order, n) == n + |UnionsBefore(fields, order, n)|
  {
    if n == 0 {
      assert UnionsBefore(fields, order, 0) == {};
    } else {
      BeforeIs(fields, order, n - 1);
      UnionsStep(fields, order, n - 1);
    }
  }

  /** The ids take as many places as there are fields, and unions once more. */
  lemma SlotsAre(fields: seq<ProtoField>, order: seq<nat>)
    requires IsOrder(order, fields)
    ensures Before(fields, order, |order|) == Slots(fields)
  {
    BeforeIs(fields, order, |order|);
    assert forall i: nat :: i < |fields| ==> (AmongFirst(order, |order|, i) <==> i in order);
    assert UnionsBefore(fields, order, |order|) == Unions(fields);
  }

  // ---------------------------------------------------------------- what the ids are good for

  lemma {:induction false} BeforeMonotone(fields: seq<ProtoField>, order: seq<nat>, j: nat, k: nat)
    requires j < k <= |order| && forall k :: 0 <= k < |order| ==> order[k] < |fields|
    ensures Place(fields, order, j) < Before(fields, order, k)
  {
    if j < k - 1 {
      BeforeMonotone(fields, order, j, k - 1);
    }
  }

  /** Each id below the number of ids taken is the place of a field, or the one below the place of a union. */
  lemma {:induction false} PlaceOf(fields: seq<ProtoField>, order: seq<nat>, n: nat, s: nat) returns (k: nat)
    requires n <= |order| && forall k :: 0 <= k < |order| ==> order[k] < |fields|
    requires s < Before(fields, order, n)
    ensures k < n && (s == Place(fields, order, k) || (IsUnion(fields[order[k]]) && s == Place(fields, order, k) - 1))
  {
    if s < Before(fields, order, n - 1) {
      k := PlaceOf(fields, order, n - 1, s);
    } else {
      k := n - 1;
    }
  }

  /** Only fields get an id, and each gets that of its place. */
  lemma {:induction false} IdsAt(fields: seq<ProtoField>, order: seq<nat>, n: nat, k: nat)
    requires IsOrder(order, fields) && k < n <= |order|
    ensures order[k] in Ids(fields, order, n) && Ids(fields, order, n)[order[k]] == Place(fields, order, k) % U16
    decreases n
  {
    if k < n - 1 {
      IdsAt(fields, order, n - 1, k);
      assert order[k] != order[n - 1];
    }
  }

  lemma PlacesApart(fields: seq<ProtoField>, order: seq<nat>, k: nat, l: nat)
    requires IsOrder(order, fields) && k < |order| && l < |order|
    ensures k < l ==> Place(fields, order, k) < Before(fields, order, l) <= Place(fields, order, l)
    ensures l < k ==> Place(fields, order, l) < Before(fields, order, k) <= Place(fields, order, k)
    ensures Key(fields[order[k]]) < Key(fields[order[l]]) ==> k < l
  {
    if k < l {
      BeforeMonotone(fields, order, k, l);
    } else if l < k {
      BeforeMonotone(fields, order, l, k);
      assert ByKey(fields)(order[l]) <= ByKey(fields)(order[k]);
    }
  }

  /** The place of field i, which is its id when the ids fit in 16 bits. */
  lemma PlaceOfField(fields: seq<ProtoField>, order: seq<nat>, i: nat) returns (k: nat)
    requires IsOrder(order, fields) && Slots(fields) <= U16 && i < |fields|
    ensures k < |order| && order[k] == i && i in Ids(fields, order, |order|)
    ensures Ids(fields, order, |order|)[i] == Place(fields, order, k) < Slots(fields)
  {
    SlotsAre(fields, order);
    assert i in order;
    k :| 0 <= k < |order| && order[k] == i;
    IdsAt(fields, order, |order|, k);
    BeforeMonotone(fields, order, k, |order|);
  }

  /**
   * The order that fields are to keep: that of their proto ids; unions without one come before all others, and other
   * fields without one before all with a positive one.
   */
  predicate ComesBefore(f: ProtoField, g: ProtoField) {
    match (f.id, g.id)
    case (Id(Some(v)), Id(Some(w))) => v < w
    case (EmptyId, EmptyId) => f.isUnion && !g.isUnion
    case (EmptyId, Id(Some(w))) => f.isUnion || w > 0
    case _ => false
  }

  lemma KeysInOrder(f: ProtoField, g: ProtoField)
    requires ComesBefore(f, g)
    ensures Key(f) < Key(g)
  {
  }

  /** Different fields have different ids, the one below a union is free, and fields keep their order. */
  predicate Apart(ids: map<nat, nat>, fields: seq<ProtoField>, i: nat, j: nat)
    requires i < |fields| && j < |fields| && i in ids && j in ids
  {
    && (i != j ==> ids[i] != ids[j])
    && (fields[i].isUnion && fields[i].id == EmptyId ==> ids[i] >= 1 && ids[j] != ids[i] - 1)
    && (ComesBefore(fields[i], fields[j]) ==> ids[i] < ids[j])
  }

  lemma PlacesAreIds(ids: map<nat, nat>, fields: seq<ProtoField>, order: seq<nat>, k: nat, l: nat)
    requires IsOrder(order, fields) && k < |order| && l < |order| && order[k] in ids && order[l] in ids
    requires ids[order[k]] == Place(fields, order, k) && ids[order[l]] == Place(fields, order, l)
    ensures Apart(ids, fields, order[k], order[l])
  {
    PlacesApart(fields, order, k, l);
    if ComesBefore(fields[order[k]], fields[order[l]]) {
      KeysInOrder(fields[order[k]], fields[order[l]]);
    }
  }

  /**
   * As long as the ids, with those below unions, fit in 16 bits: different fields have different ids, the id below a
   * union is free for its type, and fields keep the order of their proto ids.
   */
  lemma IdsApart(fields: seq<ProtoField>, order: seq<nat>, i: nat, j: nat)
    requires IsOrder(order, fields) && Slots(fields) <= U16 && i < |fields| && j < |fields|
    ensures i in Ids(fields, order, |order|) && j in Ids(fields, order, |order|)
    ensures Apart(Ids(fields, order, |order|), fields, i, j)
  {
    var k := PlaceOfField(fields, order, i);
    var l := PlaceOfField(fields, order, j);
    PlacesAreIds(Ids(fields, order, |order|), fields, order, k, l);
  }

  /** And together they fill up 0 to the last without a gap: each is the id of a field, or the one below a union. */
  lemma IdsFillUp(fields: seq<ProtoField>, order: seq<nat>, id: nat)
    requires IsOrder(order, fields) && Slots(fields) <= U16
    ensures var ids := Ids(fields, order, |order|);
            id < Slots(fields)
            <==> exists i :: 0 <= i < |fields| && i in ids && (ids[i] == id || (IsUnion(fields[i]) && ids[i] == id + 1))
  {
    var ids := Ids(fields, order, |order|);
    SlotsAre(fields, order);
    if id < Slots(fields) {
      var k := PlaceOf(fields, order, |order|, id);
      var l := PlaceOfField(fields, order, order[k]);
      PlacesApart(fields, order, k, l);
      assert ids[order[k]] == Place(fields, order, k);
    } else {
      forall i: nat | i < |fields|
        ensures i in ids && ids[i] < Slots(fields)
      {
        var k := PlaceOfField(fields, order, i);
      }
    }
  }

  /** All ids that are taken, in order: for a union first the one for its type. */
  function Taken(fields: seq<ProtoField>, order: seq<nat>, n: nat): seq<nat>
    requires n <= |order| && forall k :: 0 <= k < |order| ==> order[k] < |fields|
  {
    if n == 0 then []
    else
      var k := n - 1;
      Taken(fields, order, k)
      + (if IsUnion(fields[order[k]]) then [Before(fields, order, k) % U16] else [])
      + [Place(fields, order, k) % U16]
  }

  lemma {:induction false} TakenAt(fields: seq<ProtoField>, order: seq<nat>, n: nat)
    requires n <= |order| && forall k :: 0 <= k < |order| ==> order[k] < |fields|
    ensures var t := Taken(fields, order, n);
            |t| == Before(fields, order, n) && forall s :: 0 <= s < |t| ==> t[s] == s % U16
  {
    if n > 0 {
      TakenAt(fields, order, n - 1);
    }
  }

  lemma CountsUpIff(t: seq<nat>)
    requires forall s :: 0 <= s < |t| ==> t[s] == s % U16
    ensures !HasDuplicate(t) <==> |t| <= U16
  {
    if |t| > U16 {
      assert t[0] == t[U16];
    } else {
      assert forall s :: 0 <= s < |t| ==> t[s] == s;
    }
  }

  /** The ids are all different exactly if 16 bits can hold them. */
  lemma DistinctIff(fields: seq<ProtoField>, order: seq<nat>)
    requires IsOrder(order, fields)
    ensures !HasDuplicate(Taken(fields, order, |order|)) <==> Slots(fields) <= U16
  {
    TakenAt(fields, order, |order|);
    SlotsAre(fields, order);
    CountsUpIff(Taken(fields, order, |order|));
  }

  ghost predicate AllApart(ids: map<nat, nat>, fields: seq<ProtoField>) {
    forall i: nat, j: nat :: i < |fields| && j < |fields| ==> i in ids && j in ids && Apart(ids, fields, i, j)
  }

  lemma IdsAllApart(fields: seq<ProtoField>, order: seq<nat>)
    requires IsOrder(order, fields) && Slots(fields) <= U16
    ensures AllApart(Ids(fields, order, |order|), fields)
  {
    forall i: nat, j: nat | i < |fields| && j < |fields|
      ensures var ids := Ids(fields, order, |order|); i in ids && j in ids && Apart(ids, fields, i, j)
    {
      IdsApart(fields, order, i, j);
    }
  }

  /**
   * The ids for all fields; None if the checks fail, or a field has no id while another has one. If no field has one,
   * there is nothing to map.
   */
  method MapProtoIdsToFieldsId(fields: seq<ProtoField>, reserved: seq<nat>, action: GapAction)
    returns (result: Option<map<nat, nat>>, ghost order: seq<nat>)
    ensures !HasFieldWithId(fields) ==> result == Some(map[])
    ensures HasFieldWithId(fields) ==>
              (result.Some?
               <==> Sane(fields, reserved, action) && forall i :: 0 <= i < |fields| ==> fields[i].id != NoId)
    ensures HasFieldWithId(fields) && result.Some? ==>
              IsOrder(order, fields) && result.value == Ids(fields, order, |order|)
    ensures HasFieldWithId(fields) && result.Some? && Slots(fields) <= U16 ==> AllApart(result.value, fields)
  {
    order := [];
    if !HasFieldWithId(fields) {
      return Some(map[]), [];
    }
    var sane := ProtobufIdSanityCheck(fields, reserved, action);
    if !sane {
      return None, [];
    }
    for i := 0 to |fields|
      invariant forall j :: 0 <= j < i ==> fields[j].id != NoId
    {
      if fields[i].id == NoId {
        return None, [];
      }
    }
    var sorted := SortFields(fields);
    var ids := AssignIds(fields, sorted);
    if Slots(fields) <= U16 {
      IdsAllApart(fields, sorted);
    }
    return Some(ids), sorted;
  }
}
