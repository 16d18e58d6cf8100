/** What following a reference does to the annotator's state. */
module Effects {
  import opened Bytes
  import opened Schema
  import opened Sections
  import opened Walks
  import opened WalkFacts
  import opened References
  import opened Annotations

  function WithSection(st: State, sec: Section): State {
    st.(sections := Add(st.sections, sec))
  }

  /** The section of a table whose vtable is known. */
  function TableSectionOf(x: Input, offset: nat, ty: SectionType, v: VTable): Section
    requires VTableLocation(x.binary, offset).Some?
  {
    Section(offset, ty, TableRegions(x.schema, x.binary, offset, v))
  }

  function VectorSectionOf(x: Input, offset: nat, e: ElementType, is64: bool, id: nat, parent: nat,
                           entries: map<nat, Entry>): Section
  {
    Section(offset, VectorSectionType(VectorStartAt(x.binary, offset, e, is64), is64),
            VectorRegions(x.schema, x.binary, offset, e, is64, id, parent, entries))
  }

  /** The section is stored, unless something loose took its place, and what it refers to has been annotated. */
  ghost predicate StoredAndResolved(x: Input, ss: seq<Section>, sec: Section) {
    Stored(ss, sec, HasOffset64(x.schema)) && AllResolved(x, ss, sec.regions)
  }

  /** The table at the offset has been annotated, as one of its type, unless the offset was or its vtable is blocked. */
  ghost predicate TableBuilt(x: Input, st: State, after: State, offset: nat, ty: SectionType, table: nat)
    requires InputOk(x) && table < |x.schema.tables| && NoneHollow(st.sections)
  {
    if Contains(st.sections, offset) then after == st
    else
      match VTableLocation(x.binary, offset)
      case None => after == WithSection(st, Section(offset, ty, [LoneTableRegion(x.binary, offset)]))
      case Some(location) =>
        if !IsValidOffset(x.binary, location) then
          after == WithSection(st, Section(offset, ty, [LoneTableRegion(x.binary, offset)]))
        else TableBuiltAt(x, st, after, offset, location, ty, table)
  }

  /** The same once the location of the vtable is known: nothing but the step for the vtable, if it is blocked. */
  ghost predicate TableBuiltAt(x: Input, st: State, after: State, offset: nat, location: nat, ty: SectionType,
                               table: nat)
    requires InputOk(x) && table < |x.schema.tables| && NoneHollow(st.sections)
    requires VTableLocation(x.binary, offset) == Some(location)
  {
    match GetVTable(x, st, location, table, offset)
    case VTableStep(blocked, None) => after == blocked
    case VTableStep(found, Some(v)) =>
      Extends(found.sections, after.sections) && StoredAndResolved(x, after.sections, TableSectionOf(x, offset, ty, v))
  }

  ghost predicate StringBuilt(x: Input, st: State, after: State, offset: nat)
    requires NoneHollow(st.sections)
  {
    if Contains(st.sections, offset) then after == st
    else after == WithSection(st, Section(offset, StringSection, StringRegions(x.binary, offset)))
  }

  /** The vector has been annotated, with the elements of its own field, unless the offset was. */
  ghost predicate VectorBuilt(x: Input, st: State, after: State, offset: nat, e: ElementType, is64: bool, id: nat,
                              parent: nat, entries: map<nat, Entry>)
    requires NoneHollow(st.sections)
  {
    if Contains(st.sections, offset) then after == st
    else
      var sec := VectorSectionOf(x, offset, e, is64, id, parent, entries);
      if IsLeaf(e) then after == WithSection(st, sec) else StoredAndResolved(x, after.sections, sec)
  }

  ghost predicate UnionBuilt(x: Input, st: State, after: State, offset: nat, member: UnionMember)
    requires InputOk(x) && MemberOk(x.schema, member) && NoneHollow(st.sections)
  {
    if Contains(st.sections, offset) then after == st
    else
      match member
      case TableMember(t) => TableBuilt(x, st, after, offset, TableSection, t)
      case StructMember(def) =>
        after == WithSection(st, Section(offset, UnionSection, StructWalk(x.binary, offset, def).regions))
      case OtherMember => after == st
  }

  /** The reference has been followed, as the kind of reference it is. */
  ghost predicate Followed(x: Input, st: State, after: State, r: Region, parent: nat, entries: map<nat, Entry>)
    requires InputOk(x)
  {
    match r.refersTo
    case Nothing => after == st
    case ToTable(t) => FollowOk(x, st, r, entries) && TableBuilt(x, st, after, r.target, TableSection, t)
    case ToString => FollowOk(x, st, r, entries) && StringBuilt(x, st, after, r.target)
    case ToUnion(e, value) =>
      && FollowOk(x, st, r, entries) && MemberOk(x.schema, x.schema.enums[e][value])
      && UnionBuilt(x, st, after, r.target, x.schema.enums[e][value])
    case ToVector(id, e, is64) =>
      FollowOk(x, st, r, entries) && VectorBuilt(x, st, after, r.target, e, is64, id, parent, entries)
  }

  predicate FollowOk(x: Input, st: State, r: Region, entries: map<nat, Entry>) {
    NoneHollow(st.sections) && r.target >= 0 && KindOk(x.schema, r.refersTo, entries)
  }

  /** If the regions are one reference, it has been followed. */
  ghost predicate AnyFollowed(x: Input, st: State, after: State, rs: seq<Region>, parent: nat, entries: map<nat, Entry>)
    requires InputOk(x)
  {
    if |rs| == 1 && rs[0].refersTo != Nothing then Followed(x, st, after, rs[0], parent, entries) else after == st
  }

  // ---------------------------------------------------------------- a place for a section

  /** There is no section at the key, or only a loose one. */
  ghost predicate Free(ss: seq<Section>, key: nat, offset64: bool) {
    HasKey(ss, key) ==> HasLoose(ss, key, offset64)
  }

  lemma HasLooseExtends(before: seq<Section>, after: seq<Section>, key: nat, offset64: bool)
    requires Extends(before, after) && HasLoose(before, key, offset64)
    ensures HasLoose(after, key, offset64)
  {
    var s :| s in before && s.key == key && IsLoose(s, offset64);
    assert s in after;
  }

  /** What is annotated further behind, and what is loose, leave the place free. */
  lemma FreeGrows(before: seq<Section>, after: seq<Section>, key: nat, from: nat, offset64: bool)
    requires Free(before, key, offset64) && Grows(before, after, from, offset64) && key < from
    ensures Free(after, key, offset64)
  {
    if HasKey(after, key) {
      var s :| s in after && s.key == key;
      if s in before {
        HasLooseExtends(before, after, key, offset64);
      }
    }
  }

  /** A section whose place is free is stored, or something loose is there, and its references stay resolved. */
  lemma StoreKeeps(x: Input, ss: seq<Section>, sec: Section)
    requires Ascending(ss) && Free(ss, sec.key, HasOffset64(x.schema)) && AllResolved(x, ss, sec.regions)
    ensures StoredAndResolved(x, Add(ss, sec), sec)
  {
    AddEffect(ss, sec);
    if HasKey(ss, sec.key) {
      HasLooseExtends(ss, Add(ss, sec), sec.key, HasOffset64(x.schema));
    }
    AllResolvedExtends(x, ss, Add(ss, sec), sec.regions);
  }

  /**
   * The step for a table at the offset can annotate it: its vtable is nowhere in the binary, or is where the table is,
   * or can be read and, where none is cached, the lookup finds no section there.
   */
  predicate CanBuildTable(b: seq<byte>, st: State, offset: nat)
    requires NoneHollow(st.sections)
  {
    match VTableLocation(b, offset)
    case None => true
    case Some(at) =>
      IsValidOffset(b, at) && at != offset ==>
        IsUsable(b, at) && (CacheAt(st.vtables, at) != [] || !Contains(st.sections, at))
  }

  /** Exactly when a table that is come to for the first time gets a section at its offset. */
  lemma TableKeyIff(x: Input, st: State, after: State, offset: nat, ty: SectionType, table: nat)
    requires InputOk(x) && StateOk(x, st) && table < |x.schema.tables| && NoneHollow(st.sections)
    requires !Contains(st.sections, offset) && TableBuilt(x, st, after, offset, ty, table)
    ensures HasKey(after.sections, offset) <==> CanBuildTable(x.binary, st, offset)
  {
    ContainedIsFound(x, st, offset);
    var location := VTableLocation(x.binary, offset);
    if location.None? || !IsValidOffset(x.binary, location.value) {
      AddEffect(st.sections, Section(offset, ty, [LoneTableRegion(x.binary, offset)]));
    } else {
      VTableIff(x, st, location.value, table, offset);
      TableKeyAtIff(x, st, after, offset, location.value, ty, table);
    }
  }

  lemma TableKeyAtIff(x: Input, st: State, after: State, offset: nat, at: nat, ty: SectionType, table: nat)
    requires InputOk(x) && StateOk(x, st) && table < |x.schema.tables| && NoneHollow(st.sections)
    requires !HasKey(st.sections, offset) && VTableLocation(x.binary, offset) == Some(at)
    requires TableBuiltAt(x, st, after, offset, at, ty, table) && (at == offset ==> !Contains(st.sections, at))
    ensures HasKey(after.sections, offset) <==> at == offset || GetVTable(x, st, at, table, offset).vtable.Some?
  {
    AddEffect(st.sections, VTableSectionAt(x, at, table, offset));
    if CacheAt(st.vtables, at) != [] {
      CachedIsUsable(x, st, at);
    }
  }

  // ---------------------------------------------------------------- the sections that are added

  /** Only the root table gets a section of the type for it. */
  predicate TypeFits(x: Input, offset: nat, ty: SectionType, table: nat)
    requires InputOk(x)
  {
    ty == TableSection
    || (ty == RootTable && table == x.schema.root && offset == RootLocation(x.binary, x.isSizePrefixed))
  }

  lemma TableSectionOk(x: Input, offset: nat, ty: SectionType, v: VTable)
    requires InputOk(x) && TableAt(x, offset, v) && TypeFits(x, offset, ty, v.table)
    ensures SectionOk(x, TableSectionOf(x, offset, ty, v))
  {
    VTableEntries(x, VTableLocation(x.binary, offset).value, v);
    TableFacts(x.schema, x.binary, offset, v);
    assert TableExplained(x, offset, v.table, TableSectionOf(x, offset, ty, v).regions);
    assert Explained(x, TableSectionOf(x, offset, ty, v));
  }

  lemma LoneTableOk(x: Input, offset: nat, ty: SectionType, table: nat)
    requires InputOk(x) && IsValidOffset(x.binary, offset) && TableReached(x, offset, table)
    requires TypeFits(x, offset, ty, table)
    requires var v := VTableLocation(x.binary, offset); v.None? || !IsValidOffset(x.binary, v.value)
    ensures SectionOk(x, Section(offset, ty, [LoneTableRegion(x.binary, offset)]))
  {
    var sec := Section(offset, ty, [LoneTableRegion(x.binary, offset)]);
    assert TableExplained(x, offset, table, sec.regions);
    assert Explained(x, sec);
  }

  lemma StringSectionOk(x: Input, offset: nat)
    requires InputOk(x) && IsValidOffset(x.binary, offset) && Reached(x, offset, ToString)
    ensures SectionOk(x, Section(offset, StringSection, StringRegions(x.binary, offset)))
  {
    StringFacts(x.binary, offset);
    assert Explained(x, Section(offset, StringSection, StringRegions(x.binary, offset)));
  }

  lemma UnionExplained(x: Input, sec: Section, enumId: nat, value: nat, def: StructDef)
    requires InputOk(x) && Reached(x, sec.key, ToUnion(enumId, value)) && IsStructMember(x.schema, enumId, value, def)
    requires sec.ty == UnionSection && sec.regions == StructWalk(x.binary, sec.key, def).regions
    ensures Explained(x, sec)
  {
  }

  lemma StructSectionOk(b: seq<byte>, offset: nat, w: Walk)
    requires IsValidOffset(b, offset) && Safe(b, offset, w) && Moves(b, offset, w)
    ensures w.regions != [] && w.regions[0].offset == offset
    ensures AllOk(b, offset, w.regions) && AllAhead(b, offset, w.regions)
    ensures forall r :: r in w.regions ==> r.refersTo == Nothing
  {
  }

  lemma UnionSectionOk(x: Input, offset: nat, enumId: nat, value: nat, def: StructDef)
    requires InputOk(x) && IsValidOffset(x.binary, offset) && Reached(x, offset, ToUnion(enumId, value))
    requires IsStructMember(x.schema, enumId, value, def)
    ensures var sec := Section(offset, UnionSection, StructWalk(x.binary, offset, def).regions);
            SectionOk(x, sec) && forall r :: r in sec.regions ==> r.refersTo == Nothing
  {
    var sec := Section(offset, UnionSection, StructWalk(x.binary, offset, def).regions);
    assert MemberOk(x.schema, x.schema.enums[enumId][value]);
    StructFacts(x.binary, offset, def);
    StructSectionOk(x.binary, offset, StructWalk(x.binary, offset, def));
    UnionExplained(x, sec, enumId, value, def);
  }

  /** A vector that is reached is in the binary, and behind the table it is reached from unless it refers to nothing. */
  lemma VectorInOrder(x: Input, offset: int, id: nat, e: ElementType, is64: bool, parent: nat, entries: map<nat, Entry>)
    requires InputOk(x) && VectorReached(x, offset, id, e, is64, parent, entries)
    ensures IsValidOffset(x.binary, offset) && VectorOk(x.schema, e, id, entries) && (IsLeaf(e) || parent < offset)
  {
    var v: VTable, r :|
      && v.fields == entries && TableAt(x, parent, v) && r in TableRegions(x.schema, x.binary, parent, v)
      && r.target == offset && r.refersTo == ToVector(id, e, is64);
    TableReference(x, parent, v, r);
  }

  lemma VectorExplained(x: Input, sec: Section, id: nat, e: ElementType, is64: bool, parent: nat,
                        entries: map<nat, Entry>)
    requires InputOk(x) && VectorReached(x, sec.key, id, e, is64, parent, entries)
    requires sec.ty == VectorSectionType(VectorStartAt(x.binary, sec.key, e, is64), is64)
    requires sec.regions == VectorRegions(x.schema, x.binary, sec.key, e, is64, id, parent, entries)
    ensures Explained(x, sec)
  {
  }

  lemma VectorSectionOk(x: Input, offset: nat, id: nat, e: ElementType, is64: bool, parent: nat,
                        entries: map<nat, Entry>)
    requires InputOk(x) && VectorReached(x, offset, id, e, is64, parent, entries)
    ensures SectionOk(x, VectorSectionOf(x, offset, e, is64, id, parent, entries))
  {
    VectorInOrder(x, offset, id, e, is64, parent, entries);
    VectorFacts(x.schema, x.binary, offset, e, is64, id, parent, entries);
    VectorExplained(x, VectorSectionOf(x, offset, e, is64, id, parent, entries), id, e, is64, parent, entries);
  }

  // ---------------------------------------------------------------- what they reach

  lemma TableReaches(x: Input, parent: nat, v: VTable, r: Region)
    requires InputOk(x) && TableAt(x, parent, v) && r in TableRegions(x.schema, x.binary, parent, v)
    requires r.refersTo != Nothing
    ensures Reached(x, r.target, r.refersTo) && IsValidOffset(x.binary, r.target)
            && KindOk(x.schema, r.refersTo, v.fields)
    ensures match r.refersTo
            case ToVector(id, e, is64) => VectorReached(x, r.target, id, e, is64, parent, v.fields)
            case _ => true
  {
    TableReference(x, parent, v, r);
    assert Refers(x, parent, v, r);
  }

  /** A thing that refers to nothing itself. */
  predicate IsSelfContained(what: Referent) {
    what.ToString? || (what.ToVector? && IsLeaf(what.element))
  }

  lemma FieldReaches(x: Input, parent: nat, v: VTable, i: nat, r: Region)
    requires InputOk(x) && TableAt(x, parent, v) && i < |InTableOrder(v)|
    requires r in TableFieldRegions(x.schema, x.binary, parent, v, InTableOrder(v), i) && r.refersTo != Nothing
    ensures Reached(x, r.target, r.refersTo) && IsValidOffset(x.binary, r.target)
            && KindOk(x.schema, r.refersTo, v.fields)
    ensures match r.refersTo
            case ToVector(id, e, is64) => VectorReached(x, r.target, id, e, is64, parent, v.fields)
            case _ => true
    ensures parent < r.target || (HasOffset64(x.schema) && IsSelfContained(r.refersTo))
    ensures TableFieldRegions(x.schema, x.binary, parent, v, InTableOrder(v), i) == [r]
  {
    var order := InTableOrder(v);
    TableFieldsContain(x.schema, x.binary, parent, v, order, i, |order|, r);
    FieldsInTable(x.schema, x.binary, parent, v, r);
    TableReaches(x, parent, v, r);
    TableReference(x, parent, v, r);
    VTableEntries(x, VTableLocation(x.binary, parent).value, v);
    OrderEntriesOk(x, v);
    FieldReference(x, parent, v, order, i);
  }

  /** A field that does not refer to something with its only region refers to nothing at all. */
  lemma OneReference(x: Input, parent: nat, v: VTable, i: nat)
    requires InputOk(x) && TableAt(x, parent, v) && i < |InTableOrder(v)|
    ensures OneAtMost(TableFieldRegions(x.schema, x.binary, parent, v, InTableOrder(v), i))
  {
    VTableEntries(x, VTableLocation(x.binary, parent).value, v);
    OrderEntriesOk(x, v);
    FieldReference(x, parent, v, InTableOrder(v), i);
  }

  /** If one of the regions refers to something, it is the only one. */
  predicate OneAtMost(rs: seq<Region>) {
    forall r :: r in rs && r.refersTo != Nothing ==> rs == [r]
  }

  lemma OneResolved(x: Input, ss: seq<Section>, rs: seq<Region>)
    requires OneAtMost(rs) && (|rs| == 1 && rs[0].refersTo != Nothing ==> Resolved(x, ss, rs[0]))
    ensures AllResolved(x, ss, rs)
  {
  }

  /** What was resolved before stays so, and more regions are. */
  lemma AppendResolved(x: Input, before: seq<Section>, ss: seq<Section>, done: seq<Region>, rs: seq<Region>)
    requires Extends(before, ss) && AllResolved(x, before, done) && AllResolved(x, ss, rs)
    ensures AllResolved(x, ss, done + rs)
  {
    AllResolvedExtends(x, before, ss, done);
  }

  lemma PaddingResolved(x: Input, ss: seq<Section>, rs: seq<Region>, end: nat)
    requires rs != [] && AllResolved(x, ss, rs)
    ensures AllResolved(x, ss, rs + TablePadding(rs[|rs| - 1], end))
  {
  }

  lemma VectorReaches(x: Input, offset: nat, id: nat, e: ElementType, is64: bool, parent: nat, entries: map<nat, Entry>)
    requires InputOk(x) && VectorReached(x, offset, id, e, is64, parent, entries)
    ensures AllReached(x, VectorRegions(x.schema, x.binary, offset, e, is64, id, parent, entries))
  {
    var v: VTable, q :|
      && v.fields == entries && TableAt(x, parent, v) && q in TableRegions(x.schema, x.binary, parent, v)
      && q.target == offset && q.refersTo == ToVector(id, e, is64);
    forall r | r in VectorRegions(x.schema, x.binary, offset, e, is64, id, parent, entries) && r.refersTo != Nothing
      ensures Reached(x, r.target, r.refersTo)
    {
      assert RefersThrough(x, parent, v, q, r);
      assert Refers(x, parent, v, r);
    }
  }

  /** Whatever is reached is in the binary, and of a kind that there is in the schema. */
  lemma ReachedOk(x: Input, target: int, what: Referent)
    requires InputOk(x) && Reached(x, target, what)
    ensures IsValidOffset(x.binary, target)
    ensures match what
            case ToTable(t) => t < |x.schema.tables|
            case ToUnion(e, v) => IsValidUnionValue(x.schema, e, v)
            case _ => true
  {
    var parent: nat, v: VTable, r :|
      TableAt(x, parent, v) && Refers(x, parent, v, r) && r.target == target && r.refersTo == what;
    ReferencesLeadOn(x, parent, v, r);
  }

  lemma NothingInString(x: Input, ss: seq<Section>, offset: nat)
    ensures AllResolved(x, ss, StringRegions(x.binary, offset))
  {
  }

  /** A vector whose length cannot be used refers to nothing. */
  lemma VectorStandsAlone(x: Input, ss: seq<Section>, offset: nat, e: ElementType, is64: bool, id: nat, parent: nat,
                          entries: map<nat, Entry>)
    requires VectorStartAt(x.binary, offset, e, is64).BadVector?
    ensures var error := VectorStartAt(x.binary, offset, e, is64).error;
            && VectorRegions(x.schema, x.binary, offset, e, is64, id, parent, entries) == [error]
            && AllResolved(x, ss, [error])
  {
  }

  lemma VectorResolved(x: Input, ss: seq<Section>, offset: nat, e: ElementType, is64: bool, id: nat, parent: nat,
                       entries: map<nat, Entry>, length: Region, n: nat, rs: seq<Region>)
    requires VectorStartAt(x.binary, offset, e, is64) == Elements(length, n) && AllResolved(x, ss, rs)
    requires rs == ElementRegions(x.schema, x.binary, offset + length.length, n, e, id, parent, entries)
    ensures [length] + rs == VectorRegions(x.schema, x.binary, offset, e, is64, id, parent, entries)
    ensures AllResolved(x, ss, [length] + rs)
  {
  }

  lemma UnionStepFacts(x: Input, key: nat, at: nat, typeAt: nat, typeEnum: int, enumId: nat)
    requires InputOk(x) && key < at
    requires AllReached(x, UnionElementStep(x.schema, x.binary, at, typeAt, typeEnum, enumId).regions)
    ensures var step := UnionElementStep(x.schema, x.binary, at, typeAt, typeEnum, enumId);
            && step.next >= at && OneAtMost(step.regions)
            && forall r :: step.regions == [r] && r.refersTo != Nothing ==>
                 r.refersTo.ToUnion? && key < r.target && Reached(x, r.target, r.refersTo)
  {
  }

  lemma ElementsReached(x: Input, offset: nat, id: nat, e: ElementType, is64: bool, parent: nat,
                        entries: map<nat, Entry>, length: Region, n: nat)
    requires InputOk(x) && AllReached(x, VectorRegions(x.schema, x.binary, offset, e, is64, id, parent, entries))
    requires VectorStartAt(x.binary, offset, e, is64) == Elements(length, n)
    ensures AllReached(x, ElementRegions(x.schema, x.binary, offset + length.length, n, e, id, parent, entries))
  {
    var all := VectorRegions(x.schema, x.binary, offset, e, is64, id, parent, entries);
    VectorRegionsAre(x.schema, x.binary, offset, e, is64, id, parent, entries, length, n);
    TailReached(x, all, length, ElementRegions(x.schema, x.binary, offset + length.length, n, e, id, parent, entries));
  }

  lemma TailReached(x: Input, all: seq<Region>, first: Region, rest: seq<Region>)
    requires InputOk(x) && AllReached(x, all) && all == [first] + rest
    ensures AllReached(x, rest)
  {
    assert forall r :: r in rest ==> r in all;
  }

  lemma PartReached(x: Input, first: seq<Region>, rest: seq<Region>)
    requires InputOk(x) && AllReached(x, first + rest)
    ensures AllReached(x, first) && AllReached(x, rest)
  {
    assert forall r :: r in first || r in rest ==> r in first + rest;
  }

  /** The element that a loop has come to is reached, as all are. */
  lemma OffsetElementReached(x: Input, at: nat, n: nat, refersTo: Referent, parent: nat, done: seq<Region>,
                             all: seq<Region>)
    requires InputOk(x) && n > 0 && AllReached(x, all)
             && OffsetElementsLeft(done, x.binary, at, n, refersTo, parent, all)
    ensures AllReached(x, [OffsetElement(x.binary, at, refersTo, parent)])
  {
    var r := OffsetElement(x.binary, at, refersTo, parent);
    var rest := OffsetElements(x.binary, at, n, refersTo, parent);
    assert AreOffsetElements(rest, x.binary, at, n, refersTo, parent);
    PartReached(x, done, rest);
    assert r == rest[0];
  }

  lemma UnionElementReached(x: Input, at: nat, typeAt: nat, typeEnum: int, enumId: nat, n: nat, done: seq<Region>,
                            all: seq<Region>)
    requires InputOk(x) && n > 0 && AllReached(x, all)
    requires UnionElementsLeft(done, x.schema, x.binary, at, typeAt, typeEnum, enumId, n, all)
    ensures AllReached(x, UnionElementStep(x.schema, x.binary, at, typeAt, typeEnum, enumId).regions)
  {
    var step := UnionElementStep(x.schema, x.binary, at, typeAt, typeEnum, enumId);
    var rest := UnionElements(x.schema, x.binary, at, typeAt, typeEnum, enumId, n);
    assert AreUnionElements(rest, x.schema, x.binary, at, typeAt, typeEnum, enumId, n);
    PartReached(x, done, rest);
    if !step.stop {
      PartReached(x, step.regions, UnionElements(x.schema, x.binary, step.next, typeAt + 1, typeEnum, enumId, n - 1));
    }
  }

  /** A string, or a vector that refers to nothing, adds one section, which is loose if its offset can be anywhere. */
  lemma AddGrowsFrom(x: Input, ss: seq<Section>, sec: Section, from: nat)
    requires Ascending(ss) && (from <= sec.key || IsLoose(sec, HasOffset64(x.schema)))
    ensures Grows(ss, Add(ss, sec), from, HasOffset64(x.schema))
  {
    AddGrows(ss, sec);
  }
}
