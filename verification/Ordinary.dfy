/** Binaries in which what is reached does not overlap: they are annotated completely. */
module Ordinary {
  import opened Bytes
  import opened Schema
  import opened Sections
  import opened Walks
  import opened WalkFacts
  import opened References
  import opened Annotations
  import opened Effects
  import opened Gaps
  import opened SectionGaps
  import opened Finished
  import opened Shown

  predicate EndsBy(s: Section, offset: nat) {
    forall r :: r in s.regions ==> EndOf(r) <= offset
  }

  predicate IsTableType(ty: SectionType) {
    ty in {TableSection, RootTable}
  }

  /** The same section, but that a table can be the root, and that a vtable can have been read for another table. */
  predicate IsOwn(s: Section, p: Section) {
    && s.key == p.key && (s.ty == p.ty || (IsTableType(s.ty) && IsTableType(p.ty)))
    && (p.ty == VTableSection || s.regions == p.regions)
  }

  /** The first section ends before the second begins, or they begin at the same place and are the same. */
  predicate Apart(s: Section, t: Section) {
    (s.key < t.key ==> EndsBy(s, t.key)) && (s.key == t.key ==> IsOwn(s, t))
  }

  /** The sections that the binary prescribes for what is reached do not overlap, and all vtables can be read. */
  ghost predicate IsOrdinary(x: Input)
    requires InputOk(x)
  {
    match x case Input(_, b, _) =>
      && (forall s, t {:trigger SectionOk(x, s), SectionOk(x, t)} :: SectionOk(x, s) && SectionOk(x, t) ==> Apart(s, t))
      && forall s {:trigger SectionOk(x, s)} :: SectionOk(x, s) && s.ty == VTableSection ==> IsUsable(b, s.key)
  }

  ghost predicate HasOwn(ss: seq<Section>, p: Section) {
    exists s :: s in ss && IsOwn(s, p)
  }

  // ---------------------------------------------------------------- what is found has a section of its own

  lemma CoveringIsOwn(x: Input, s: Section, p: Section)
    requires InputOk(x) && IsOrdinary(x) && SectionOk(x, s) && SectionOk(x, p)
    requires s.regions != [] && Covers(s, p.key)
    ensures IsOwn(s, p)
  {
    assert Apart(s, p);
    assert s.regions[|s.regions| - 1] in s.regions;
  }

  lemma FoundIsOwn(x: Input, ss: seq<Section>, p: Section)
    requires InputOk(x) && IsOrdinary(x) && SectionsOk(x, ss) && SectionOk(x, p) && Found(ss, p.key)
    ensures HasOwn(ss, p)
  {
    var s :| s in ss && s.regions != [] && Covers(s, p.key);
    CoveringIsOwn(x, s, p);
  }

  /** What is found that is neither a table nor a vtable is in the annotation just as it is prescribed. */
  lemma FoundIsThere(x: Input, ss: seq<Section>, p: Section)
    requires InputOk(x) && IsOrdinary(x) && SectionsOk(x, ss) && SectionOk(x, p) && Found(ss, p.key)
    requires p.ty != VTableSection && !IsTableType(p.ty)
    ensures p in ss
  {
    FoundIsOwn(x, ss, p);
    var s :| s in ss && IsOwn(s, p);
    assert s == Section(s.key, s.ty, s.regions) == p;
  }

  /** No table loses its vtable. */
  lemma NothingBlocked(x: Input, ss: seq<Section>, offset: nat, t: nat, at: nat)
    requires InputOk(x) && IsOrdinary(x) && SectionsOk(x, ss) && TableReached(x, offset, t) && t < |x.schema.tables|
    requires VTableLocation(x.binary, offset) == Some(at) && IsValidOffset(x.binary, at)
    ensures IsUsable(x.binary, at) && !Blocked(x.binary, ss, at)
  {
    var p := VTableSectionAt(x, at, t, offset);
    VTableSectionOk(x, at, t, offset);
    forall s | s in ss && s.regions != [] && Covers(s, at)
      ensures IsVTableFor(x.binary, s, at)
    {
      CoveringIsOwn(x, s, p);
    }
  }

  /** A table that is reached has a section that is prescribed for it. */
  lemma TablePrescribed(x: Input, offset: nat, t: nat) returns (p: Section)
    requires InputOk(x) && IsOrdinary(x) && TableReached(x, offset, t) && t < |x.schema.tables|
    requires IsValidOffset(x.binary, offset)
    ensures SectionOk(x, p) && p.key == offset && p.ty == TableSection
  {
    var location := VTableLocation(x.binary, offset);
    if location.None? || !IsValidOffset(x.binary, location.value) {
      p := Section(offset, TableSection, [LoneTableRegion(x.binary, offset)]);
      LoneTableOk(x, offset, TableSection, t);
    } else {
      NothingBlocked(x, [], offset, t, location.value);
      var v := VTableAt(x.schema, x.binary, location.value, t, offset).vtable;
      ReadVTableOk(x, location.value, t, offset);
      TableIsAt(x, offset, location.value, v);
      p := TableSectionOf(x, offset, TableSection, v);
      TableSectionOk(x, offset, TableSection, v);
    }
  }

  lemma LeadsToTableOk(s: Schema, what: Referent, entries: map<nat, Entry>, t: nat)
    requires WellFormed(s) && KindOk(s, what, entries) && LeadsToTable(s, what, t)
    ensures t < |s.tables|
  {
    if what.ToUnion? {
      assert MemberOk(s, s.enums[what.enumIndex][what.value]);
    }
  }

  lemma LeadsOnOk(x: Input, parent: nat, v: VTable, offset: nat, t: nat)
    requires InputOk(x) && IsTable(x, parent, v) && LeadsOn(x, parent, v, offset, t)
    ensures t < |x.schema.tables|
  {
    var r :| Refers(x, parent, v, r) && r.target == offset && LeadsToTable(x.schema, r.refersTo, t);
    ReferencesLeadOn(x, parent, v, r);
    LeadsToTableOk(x.schema, r.refersTo, v.fields, t);
  }

  lemma ReachedTableOk(x: Input, offset: nat, t: nat)
    requires InputOk(x) && TableReached(x, offset, t)
    ensures t < |x.schema.tables|
  {
    var n: nat :| TableReachedIn(x, offset, t, n);
    forall parent: nat, v: VTable, referrer: nat | LeadsInOne(x, parent, v, referrer, offset, t)
      ensures t < |x.schema.tables|
    {
      LeadsOnOk(x, parent, v, offset, t);
    }
  }

  ghost predicate HasTable(ss: seq<Section>, offset: nat) {
    exists s :: s in ss && s.key == offset && IsTableType(s.ty)
  }

  lemma ResolvedTable(x: Input, ss: seq<Section>, offset: nat, t: nat)
    requires InputOk(x) && IsOrdinary(x) && SectionsOk(x, ss) && TableReached(x, offset, t) && t < |x.schema.tables|
    requires IsValidOffset(x.binary, offset) && TableResolved(x, ss, offset)
    ensures HasTable(ss, offset)
  {
    var p := TablePrescribed(x, offset, t);
    var location := VTableLocation(x.binary, offset);
    if !Found(ss, offset) {
      NothingBlocked(x, ss, offset, t, location.value);
    }
    FoundIsOwn(x, ss, p);
    var s :| s in ss && IsOwn(s, p);
  }

  // ---------------------------------------------------------------- one step from a table, or a vector

  lemma OwnTable(x: Input, ss: seq<Section>, offset: nat, v: VTable) returns (s: Section)
    requires InputOk(x) && IsOrdinary(x) && SectionsOk(x, ss) && TableAt(x, offset, v) && HasTable(ss, offset)
    ensures s in ss && s.key == offset && IsTableType(s.ty) && s.regions == TableRegions(x.schema, x.binary, offset, v)
  {
    TableSectionOk(x, offset, TableSection, v);
    s :| s in ss && s.key == offset && IsTableType(s.ty);
    assert SectionOk(x, s);
    assert Apart(s, TableSectionOf(x, offset, TableSection, v));
  }

  lemma OwnVector(x: Input, ss: seq<Section>, key: nat, id: nat, e: ElementType, is64: bool, parent: nat,
                  entries: map<nat, Entry>)
    requires InputOk(x) && IsOrdinary(x) && SectionsOk(x, ss) && Found(ss, key)
    requires VectorReached(x, key, id, e, is64, parent, entries)
    ensures VectorSectionOf(x, key, e, is64, id, parent, entries) in ss
  {
    var p := VectorSectionOf(x, key, e, is64, id, parent, entries);
    VectorSectionOk(x, key, id, e, is64, parent, entries);
    FoundIsThere(x, ss, p);
  }

  lemma InClosed(x: Input, ss: seq<Section>, s: Section, r: Region)
    requires Closed(x, ss) && s in ss && s.ty != Header && r in s.regions
    ensures Resolved(x, ss, r)
  {
    assert AllResolved(x, ss, s.regions);
  }

  /** What a table that is annotated refers to has been annotated, be it through a vector. */
  lemma RefersResolved(x: Input, ss: seq<Section>, parent: nat, v: VTable, r: Region)
    requires InputOk(x) && IsOrdinary(x) && SectionsOk(x, ss) && Closed(x, ss)
    requires TableAt(x, parent, v) && HasTable(ss, parent) && Refers(x, parent, v, r)
    ensures Resolved(x, ss, r)
  {
    var s := OwnTable(x, ss, parent, v);
    if r in TableRegions(x.schema, x.binary, parent, v) {
      InClosed(x, ss, s, r);
    } else {
      var q :| RefersThrough(x, parent, v, q, r);
      ThroughResolved(x, ss, s, parent, v, q, r);
    }
  }

  lemma ThroughResolved(x: Input, ss: seq<Section>, s: Section, parent: nat, v: VTable, q: Region, r: Region)
    requires InputOk(x) && IsOrdinary(x) && SectionsOk(x, ss) && Closed(x, ss) && TableAt(x, parent, v)
    requires s in ss && s.ty != Header && s.regions == TableRegions(x.schema, x.binary, parent, v)
    requires RefersThrough(x, parent, v, q, r)
    ensures Resolved(x, ss, r)
  {
    InClosed(x, ss, s, q);
    TableReaches(x, parent, v, q);
    var id, e, is64 := q.refersTo.id, q.refersTo.element, q.refersTo.is64;
    OwnVector(x, ss, q.target, id, e, is64, parent, v.fields);
    ElementResolved(x, ss, VectorSectionOf(x, q.target, e, is64, id, parent, v.fields), r);
  }

  lemma ElementResolved(x: Input, ss: seq<Section>, s: Section, r: Region)
    requires Closed(x, ss) && s in ss && s.ty in {VectorSection, Vector64Section} && r in s.regions
    ensures Resolved(x, ss, r)
  {
    InClosed(x, ss, s, r);
  }

  // ---------------------------------------------------------------- all that is reached

  lemma LedToResolved(x: Input, ss: seq<Section>, parent: nat, v: VTable, referrer: nat, offset: nat, t: nat, j: nat,
                      k: nat)
    requires InputOk(x) && IsOrdinary(x) && SectionsOk(x, ss) && Closed(x, ss) && HasTable(ss, parent)
    requires LeadsInOne(x, parent, v, referrer, offset, t)
    requires TableReachedIn(x, parent, v.table, j) && TableReachedIn(x, referrer, v.table, k)
    ensures TableResolved(x, ss, offset)
  {
    assert TableReached(x, parent, v.table) && TableReached(x, referrer, v.table);
    TableIsAt(x, parent, VTableLocation(x.binary, parent).value, v);
    var r :| Refers(x, parent, v, r) && r.target == offset && LeadsToTable(x.schema, r.refersTo, t);
    RefersResolved(x, ss, parent, v, r);
  }

  /** Every table that is reached is annotated. */
  lemma {:induction false} TablesThere(x: Input, ss: seq<Section>, offset: nat, t: nat, n: nat)
    requires InputOk(x) && IsOrdinary(x) && IsAnnotation(x, ss)
    requires TableReachedIn(x, offset, t, n) && IsValidOffset(x.binary, offset) && t < |x.schema.tables|
    ensures HasTable(ss, offset)
    decreases n
  {
    assert TableReached(x, offset, t);
    if t != x.schema.root || offset != RootLocation(x.binary, x.isSizePrefixed) {
      var parent: nat, v: VTable, referrer: nat, j: nat, k: nat :|
        && j < n && k < n && LeadsInOne(x, parent, v, referrer, offset, t)
        && TableReachedIn(x, parent, v.table, j) && TableReachedIn(x, referrer, v.table, k);
      TablesThere(x, ss, parent, v.table, j);
      LedToResolved(x, ss, parent, v, referrer, offset, t, j, k);
    }
    ResolvedTable(x, ss, offset, t);
  }

  lemma TableThere(x: Input, ss: seq<Section>, offset: nat, t: nat)
    requires InputOk(x) && IsOrdinary(x) && IsAnnotation(x, ss)
    requires TableReached(x, offset, t) && IsValidOffset(x.binary, offset)
    ensures HasTable(ss, offset)
  {
    ReachedTableOk(x, offset, t);
    var n: nat :| TableReachedIn(x, offset, t, n);
    TablesThere(x, ss, offset, t, n);
  }

  /** What is reached by a reference has been annotated, if the reference is one to follow. */
  lemma ReachedResolved(x: Input, ss: seq<Section>, target: int, what: Referent) returns (r: Region)
    requires InputOk(x) && IsOrdinary(x) && IsAnnotation(x, ss) && Reached(x, target, what)
    ensures r.target == target && r.refersTo == what && Resolved(x, ss, r)
  {
    var parent: nat, v: VTable;
    parent, v, r :| TableAt(x, parent, v) && Refers(x, parent, v, r) && r.target == target && r.refersTo == what;
    TableThere(x, ss, parent, v.table);
    RefersResolved(x, ss, parent, v, r);
  }

  lemma VectorFound(x: Input, ss: seq<Section>, p: Section)
    requires InputOk(x) && IsOrdinary(x) && IsAnnotation(x, ss)
    requires Explained(x, p) && p.ty in {VectorSection, Vector64Section}
    ensures Found(ss, p.key)
  {
    var id, e, is64, parent, entries :| VectorReached(x, p.key, id, e, is64, parent, entries);
    var v: VTable, r :|
      && v.fields == entries && TableAt(x, parent, v) && r in TableRegions(x.schema, x.binary, parent, v)
      && r.target == p.key && r.refersTo == ToVector(id, e, is64);
    assert Refers(x, parent, v, r);
    TableThere(x, ss, parent, v.table);
    RefersResolved(x, ss, parent, v, r);
  }

  lemma UnionFound(x: Input, ss: seq<Section>, p: Section)
    requires InputOk(x) && IsOrdinary(x) && IsAnnotation(x, ss) && Explained(x, p) && p.ty == UnionSection
    ensures Found(ss, p.key)
  {
    var e, v, def :| Reached(x, p.key, ToUnion(e, v)) && IsStructMember(x.schema, e, v, def);
    var r := ReachedResolved(x, ss, p.key, ToUnion(e, v));
  }

  lemma TableFound(x: Input, ss: seq<Section>, p: Section)
    requires InputOk(x) && IsOrdinary(x) && IsAnnotation(x, ss)
    requires Explained(x, p) && IsTableType(p.ty) && IsValidOffset(x.binary, p.key)
    ensures HasTable(ss, p.key)
  {
    var t := x.schema.root;
    if p.ty == RootTable {
      RootReached(x);
    } else {
      t :| TableReached(x, p.key, t) && TableExplained(x, p.key, t, p.regions);
    }
    TableThere(x, ss, p.key, t);
  }

  lemma VTableFound(x: Input, ss: seq<Section>, p: Section)
    requires InputOk(x) && IsOrdinary(x) && IsAnnotation(x, ss)
    requires Explained(x, p) && p.ty == VTableSection && IsValidOffset(x.binary, p.key)
    ensures HasVTable(ss, p.key)
  {
    var t, referrer :| VTableExplained(x, p.key, t, referrer, p.regions);
    TableThere(x, ss, referrer, t);
    var s :| s in ss && s.key == referrer && IsTableType(s.ty);
    assert VTableThere(x.binary, ss, s);
  }

  /** What the binary prescribes for something that is reached is found. */
  lemma PrescribedFound(x: Input, ss: seq<Section>, p: Section)
    requires InputOk(x) && IsOrdinary(x) && IsAnnotation(x, ss) && SectionOk(x, p)
    ensures Found(ss, p.key) || HasKey(ss, p.key)
  {
    match p.ty
    case Header => assert HeaderSection(x) in ss;
    case StringSection =>
      var r := ReachedResolved(x, ss, p.key, ToString);
    case VectorSection | Vector64Section => VectorFound(x, ss, p);
    case RootTable | TableSection => TableFound(x, ss, p);
    case VTableSection => VTableFound(x, ss, p);
    case UnionSection => UnionFound(x, ss, p);
    case _ =>
  }

  /**
   * An ordinary binary is annotated completely: every section that it prescribes for something that is reached is
   * there, at its own offset and with its own regions.
   */
  lemma EverythingReached(x: Input, ss: seq<Section>, p: Section)
    requires InputOk(x) && IsOrdinary(x) && IsAnnotation(x, ss) && SectionOk(x, p)
    ensures HasOwn(ss, p)
  {
    PrescribedFound(x, ss, p);
    if HasKey(ss, p.key) {
      KeyIsFound(x, ss, p.key);
    }
    FoundIsOwn(x, ss, p);
  }

  /** A table that is reached is annotated, as one of its type, and so is its vtable, which nothing blocks. */
  lemma TableAnnotated(x: Input, ss: seq<Section>, offset: nat, v: VTable)
    requires InputOk(x) && IsOrdinary(x) && IsAnnotation(x, ss) && TableAt(x, offset, v)
    ensures TableSectionOf(x, offset, TableSection, v) in ss || TableSectionOf(x, offset, RootTable, v) in ss
    ensures var at := VTableLocation(x.binary, offset).value;
            HasVTable(ss, at) && IsUsable(x.binary, at) && !Blocked(x.binary, ss, at)
  {
    TableThere(x, ss, offset, v.table);
    var s := OwnTable(x, ss, offset, v);
    assert s == TableSectionOf(x, offset, s.ty, v);
    assert VTableThere(x.binary, ss, s);
    NothingBlocked(x, ss, offset, v.table, VTableLocation(x.binary, offset).value);
  }

  /** The member of a union has a section of its own kind at the offset, unless it is nothing to follow. */
  ghost predicate MemberAnnotated(x: Input, ss: seq<Section>, offset: nat, member: UnionMember) {
    match member
    case TableMember(_) => HasTable(ss, offset)
    case StructMember(def) => Section(offset, UnionSection, StructWalk(x.binary, offset, def).regions) in ss
    case OtherMember => true
  }

  /** There is a section for what the table at parent refers to at the offset, of its own kind. */
  ghost predicate TargetAnnotated(x: Input, ss: seq<Section>, parent: nat, v: VTable, offset: nat, what: Referent)
    requires InputOk(x)
  {
    match what
    case Nothing => false
    case ToTable(t) => HasTable(ss, offset) && TableReached(x, offset, t)
    case ToString => Section(offset, StringSection, StringRegions(x.binary, offset)) in ss
    case ToVector(id, e, is64) => VectorSectionOf(x, offset, e, is64, id, parent, v.fields) in ss
    case ToUnion(e, value) =>
      IsValidUnionValue(x.schema, e, value) && MemberAnnotated(x, ss, offset, x.schema.enums[e][value])
  }

  /** Whatever a reached table refers to, be it through a vector, has a section of its own kind at its offset. */
  lemma ReferenceAnnotated(x: Input, ss: seq<Section>, parent: nat, v: VTable, r: Region)
    requires InputOk(x) && IsOrdinary(x) && IsAnnotation(x, ss) && TableAt(x, parent, v) && Refers(x, parent, v, r)
    ensures IsValidOffset(x.binary, r.target)
    ensures TargetAnnotated(x, ss, parent, v, r.target, r.refersTo)
  {
    ReferencesLeadOn(x, parent, v, r);
    assert Reached(x, r.target, r.refersTo);
    TableThere(x, ss, parent, v.table);
    RefersResolved(x, ss, parent, v, r);
    match r.refersTo
    case ToTable(t) => TableReachedThere(x, ss, r.target, r.refersTo, t);
    case ToString => StringThere(x, ss, r.target);
    case ToVector(id, e, is64) => VectorThere(x, ss, parent, v, r);
    case ToUnion(e, value) => UnionThere(x, ss, r.target, e, value);
  }

  /** Every field that leads somewhere, by the schema and the bytes, leads to a section of the kind that it is for. */
  lemma FieldAnnotated(x: Input, ss: seq<Section>, offset: nat, v: VTable, id: nat, target: nat, what: Referent)
    requires InputOk(x) && IsOrdinary(x) && IsAnnotation(x, ss) && TableAt(x, offset, v)
    requires FieldLeads(x.schema, x.binary, offset, v.fields, id, target, what) && what != Nothing
    ensures TargetAnnotated(x, ss, offset, v, target, what)
  {
    var r := FieldRefers(x, offset, v, id, target, what);
    assert Refers(x, offset, v, r);
    ReferenceAnnotated(x, ss, offset, v, r);
  }

  /** The vector that a field leads to. */
  lemma VectorOfField(x: Input, offset: nat, v: VTable, id: nat, key: nat, e: ElementType, is64: bool)
    returns (q: Region)
    requires InputOk(x) && TableAt(x, offset, v)
    requires FieldLeads(x.schema, x.binary, offset, v.fields, id, key, ToVector(id, e, is64))
    ensures q in TableRegions(x.schema, x.binary, offset, v) && q.target == key && q.refersTo == ToVector(id, e, is64)
    ensures IsLeaf(e) || offset < key
  {
    q := FieldRefers(x, offset, v, id, key, ToVector(id, e, is64));
    TableReaches(x, offset, v, q);
    VectorInOrder(x, key, id, e, is64, offset, v.fields);
  }

  lemma RefersThere(x: Input, offset: nat, v: VTable, id: nat, key: nat, e: ElementType, is64: bool, q: Region,
                    r: Region)
    requires InputOk(x) && IsTable(x, offset, v) && q in TableRegions(x.schema, x.binary, offset, v)
    requires q.target == key && q.refersTo == ToVector(id, e, is64)
    requires r in VectorRegions(x.schema, x.binary, key, e, is64, id, offset, v.fields)
    ensures RefersThrough(x, offset, v, q, r)
  {
  }

  lemma ElementRegion(x: Input, offset: nat, v: VTable, id: nat, key: nat, e: ElementType, is64: bool, i: nat, at: nat)
    returns (r: Region)
    requires |x.binary| >= MIN_BUFFER_SIZE && offset < key && (e.TableElement? || e.StringElement?)
    requires VectorStartAt(x.binary, key, e, is64).Elements? && i < VectorStartAt(x.binary, key, e, is64).n
    requires at == key + (if is64 then 8 else 4) + 4 * i
    requires Read(x.binary, at, 4).Some? && at + Read(x.binary, at, 4).value < |x.binary|
    ensures r in VectorRegions(x.schema, x.binary, key, e, is64, id, offset, v.fields)
    ensures r.target == at + Read(x.binary, at, 4).value
    ensures r.refersTo == if e.TableElement? then ToTable(e.table) else ToString
  {
    ElementShown(x.schema, x.binary, key, e, is64, id, offset, v.fields, VectorStartAt(x.binary, key, e, is64).n, i);
    r := VectorRegions(x.schema, x.binary, key, e, is64, id, offset, v.fields)[i + 1];
  }

  lemma UnionRegion(x: Input, offset: nat, v: VTable, id: nat, key: nat, u: nat, is64: bool, typeAt: nat, i: nat,
                    at: nat)
    returns (r: Region)
    requires TypesBehind(x.binary, offset, v.fields, id, u, typeAt)
    requires VectorStartAt(x.binary, key, UnionElement(u), is64).Elements?
    requires i < VectorStartAt(x.binary, key, UnionElement(u), is64).n
    requires at == key + (if is64 then 8 else 4) + 4 * i
    requires AllGood(x.schema, x.binary, key + (if is64 then 8 else 4), typeAt, u, i + 1)
    ensures UnionGood(x.schema, x.binary, at, typeAt + i, u)
    ensures r in VectorRegions(x.schema, x.binary, key, UnionElement(u), is64, id, offset, v.fields)
    ensures r.target == at + Read(x.binary, at, 4).value
    ensures r.refersTo == ToUnion(u, Read(x.binary, typeAt + i, 1).value)
  {
    UnionElementShown(x.schema, x.binary, key, u, is64, id, offset, v.fields,
                      VectorStartAt(x.binary, key, UnionElement(u), is64).n, typeAt, i);
    r := VectorRegions(x.schema, x.binary, key, UnionElement(u), is64, id, offset, v.fields)[i + 1];
  }

  /** Every element of a vector of tables, or of strings, leads to one, if its offset leads into the binary. */
  lemma ElementAnnotated(x: Input, ss: seq<Section>, offset: nat, v: VTable, id: nat, key: nat, e: ElementType,
                         is64: bool, i: nat, at: nat, target: nat, what: Referent)
    requires InputOk(x) && IsOrdinary(x) && IsAnnotation(x, ss) && TableAt(x, offset, v)
    requires FieldLeads(x.schema, x.binary, offset, v.fields, id, key, ToVector(id, e, is64))
    requires (e.TableElement? || e.StringElement?) && VectorStartAt(x.binary, key, e, is64).Elements?
    requires i < VectorStartAt(x.binary, key, e, is64).n && at == key + (if is64 then 8 else 4) + 4 * i
    requires Read(x.binary, at, 4).Some? && target == at + Read(x.binary, at, 4).value < |x.binary|
    requires what == if e.TableElement? then ToTable(e.table) else ToString
    ensures TargetAnnotated(x, ss, offset, v, target, what)
  {
    var q := VectorOfField(x, offset, v, id, key, e, is64);
    var r := ElementRegion(x, offset, v, id, key, e, is64, i, at);
    RefersThere(x, offset, v, id, key, e, is64, q, r);
    ThroughAnnotated(x, ss, offset, v, q, r, target, what);
  }

  lemma ThroughAnnotated(x: Input, ss: seq<Section>, offset: nat, v: VTable, q: Region, r: Region, target: nat,
                         what: Referent)
    requires InputOk(x) && IsOrdinary(x) && IsAnnotation(x, ss) && TableAt(x, offset, v)
    requires RefersThrough(x, offset, v, q, r) && r.target == target && r.refersTo == what && what != Nothing
    ensures TargetAnnotated(x, ss, offset, v, target, what)
  {
    assert Refers(x, offset, v, r);
    ReferenceAnnotated(x, ss, offset, v, r);
  }

  /** And every element of a vector of unions that can be followed, if those in front of it can be too. */
  lemma UnionAnnotated(x: Input, ss: seq<Section>, offset: nat, v: VTable, id: nat, key: nat, u: nat, is64: bool,
                       typeAt: nat, i: nat, at: nat, target: nat, what: Referent)
    requires InputOk(x) && IsOrdinary(x) && IsAnnotation(x, ss) && TableAt(x, offset, v)
    requires FieldLeads(x.schema, x.binary, offset, v.fields, id, key, ToVector(id, UnionElement(u), is64))
    requires TypesBehind(x.binary, offset, v.fields, id, u, typeAt)
    requires VectorStartAt(x.binary, key, UnionElement(u), is64).Elements?
    requires i < VectorStartAt(x.binary, key, UnionElement(u), is64).n
    requires at == key + (if is64 then 8 else 4) + 4 * i
    requires AllGood(x.schema, x.binary, key + (if is64 then 8 else 4), typeAt, u, i + 1)
    requires Read(x.binary, at, 4) == Some(target - at) && what.ToUnion? && what.enumIndex == u
    requires Read(x.binary, typeAt + i, 1) == Some(what.value)
    ensures TargetAnnotated(x, ss, offset, v, target, what)
  {
    var q := VectorOfField(x, offset, v, id, key, UnionElement(u), is64);
    var r := UnionRegion(x, offset, v, id, key, u, is64, typeAt, i, at);
    RefersThere(x, offset, v, id, key, UnionElement(u), is64, q, r);
    ThroughAnnotated(x, ss, offset, v, q, r, target, what);
  }

  lemma TableReachedThere(x: Input, ss: seq<Section>, target: nat, what: Referent, t: nat)
    requires InputOk(x) && IsOrdinary(x) && IsAnnotation(x, ss) && IsValidOffset(x.binary, target)
    requires Reached(x, target, what) && LeadsToTable(x.schema, what, t)
    ensures HasTable(ss, target) && TableReached(x, target, t)
  {
    ReachTable(x, target, what, t);
    TableThere(x, ss, target, t);
  }

  lemma StringThere(x: Input, ss: seq<Section>, offset: nat)
    requires InputOk(x) && IsOrdinary(x) && SectionsOk(x, ss) && IsValidOffset(x.binary, offset)
    requires Reached(x, offset, ToString) && Found(ss, offset)
    ensures Section(offset, StringSection, StringRegions(x.binary, offset)) in ss
  {
    var p := Section(offset, StringSection, StringRegions(x.binary, offset));
    StringSectionOk(x, offset);
    assert SectionOk(x, p);
    FoundIsThere(x, ss, p);
  }

  lemma VectorThere(x: Input, ss: seq<Section>, parent: nat, v: VTable, r: Region)
    requires InputOk(x) && IsOrdinary(x) && SectionsOk(x, ss) && TableAt(x, parent, v) && Refers(x, parent, v, r)
    requires r.refersTo.ToVector? && r.target >= 0 && Found(ss, r.target)
    ensures var ToVector(id, e, is64) := r.refersTo;
            VectorSectionOf(x, r.target, e, is64, id, parent, v.fields) in ss
  {
    if r !in TableRegions(x.schema, x.binary, parent, v) {
      var q :| RefersThrough(x, parent, v, q, r);
      ThroughReference(x, parent, v, q, r);
    }
    TableReaches(x, parent, v, r);
    OwnVector(x, ss, r.target, r.refersTo.id, r.refersTo.element, r.refersTo.is64, parent, v.fields);
  }

  lemma StructThere(x: Input, ss: seq<Section>, target: nat, e: nat, value: nat, def: StructDef)
    requires InputOk(x) && IsOrdinary(x) && SectionsOk(x, ss) && IsValidOffset(x.binary, target) && Found(ss, target)
    requires Reached(x, target, ToUnion(e, value)) && IsStructMember(x.schema, e, value, def)
    ensures Section(target, UnionSection, StructWalk(x.binary, target, def).regions) in ss
  {
    var p := Section(target, UnionSection, StructWalk(x.binary, target, def).regions);
    UnionSectionOk(x, target, e, value, def);
    assert SectionOk(x, p);
    FoundIsThere(x, ss, p);
  }

  lemma UnionThere(x: Input, ss: seq<Section>, target: nat, e: nat, value: nat)
    requires InputOk(x) && IsOrdinary(x) && IsAnnotation(x, ss) && IsValidOffset(x.binary, target)
    requires Reached(x, target, ToUnion(e, value)) && IsValidUnionValue(x.schema, e, value)
    requires x.schema.enums[e][value].StructMember? ==> Found(ss, target)
    ensures MemberAnnotated(x, ss, target, x.schema.enums[e][value])
  {
    match x.schema.enums[e][value]
    case TableMember(t) => TableReachedThere(x, ss, target, ToUnion(e, value), t);
    case StructMember(def) => StructThere(x, ss, target, e, value, def);
    case OtherMember =>
  }

  // ---------------------------------------------------------------- without overlaps in the end

  lemma FilledEndsBy(b: seq<byte>, key: nat, rs: seq<Region>, g: Region, offset: nat)
    requires rs != [] && AllOk(b, key, rs) && g in Filled(b, rs)
    requires forall r :: r in rs ==> EndOf(r) <= offset
    ensures EndOf(g) <= offset
  {
    InFilled(b, key, rs, g);
    if g !in rs {
      var r := GapBefore(b, EndOf(rs[0]), rs[1..], g);
      assert r in rs;
    }
  }

  lemma FilledApart(b: seq<byte>, s: Section, t: Section)
    requires IsSound(b, s) && s.key < t.key && Apart(s, t)
    ensures FillSection(b, s).regions != [] && End(s) <= t.key && End(FillSection(b, s)) <= t.key
  {
    var filled := Filled(b, s.regions);
    FilledInRange(b, s.key, s.regions);
    FilledEndsBy(b, s.key, s.regions, filled[|filled| - 1], t.key);
    assert s.regions[|s.regions| - 1] in s.regions;
  }

  /** The annotation of an ordinary binary has no overlaps, before gaps are filled and after; so no lookup misses. */
  lemma OrdinaryIsDisjoint(x: Input, ss: seq<Section>)
    requires InputOk(x) && IsOrdinary(x) && IsAnnotation(x, ss)
    ensures Sound(x.binary, ss) && NoneHollow(ss) && IndexExact(ss)
    ensures Laid(x.binary, Finish(x.binary, ss)) && Disjoint(Finish(x.binary, ss))
  {
    AnnotationIsSound(x, ss);
    var fs := FillAll(x.binary, ss);
    FilledLaid(x.binary, ss);
    forall i, j | 0 <= i < j < |ss|
      ensures End(ss[i]) <= ss[j].key && End(fs[i]) <= fs[j].key
    {
      assert SectionOk(x, ss[i]) && SectionOk(x, ss[j]);
      FilledApart(x.binary, ss[i], ss[j]);
    }
    DisjointIsExact(ss);
    FinishDisjoint(x.binary, ss);
  }
}
