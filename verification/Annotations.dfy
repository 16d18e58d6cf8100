/** What the sections built so far promise, and what adding one more keeps. */
module Annotations {
  import opened Bytes
  import opened Schema
  import opened Sections
  import opened Walks
  import opened WalkFacts
  import opened References

  // ---------------------------------------------------------------- sections

  /** The regions of a vtable section. */
  function VTableRegions(r: VTableResult): seq<Region> {
    match r
    case Bad(error) => [error]
    case Good(rs, _) => rs
  }

  function VectorSectionType(start: VectorStart, is64: bool): SectionType {
    if start.Elements? && is64 then Vector64Section else VectorSection
  }

  /** The regions of a table of type t at the key, with some vtable of it. */
  ghost predicate TableExplained(x: Input, key: nat, t: nat, rs: seq<Region>)
    requires InputOk(x)
  {
    var location := VTableLocation(x.binary, key);
    if location.None? || !IsValidOffset(x.binary, location.value) then rs == [LoneTableRegion(x.binary, key)]
    else exists v ::
      VTableReached(x, location.value, v) && v.table == t && rs == TableRegions(x.schema, x.binary, key, v)
  }

  /**
   * The section is there because something that is reached from the root refers to its offset, and its regions are
   * exactly those that the binary prescribes for a section of the kind that is referred to.
   */
  ghost predicate Explained(x: Input, sec: Section)
    requires InputOk(x)
  {
    var s, b, key, rs := x.schema, x.binary, sec.key, sec.regions;
    match sec.ty
    case Header => key == 0 && rs == HeaderRegions(s, b, x.isSizePrefixed)
    case StringSection => Reached(x, key, ToString) && rs == StringRegions(b, key)
    case VectorSection | Vector64Section =>
      exists id, e, is64, parent, entries ::
        && VectorReached(x, key, id, e, is64, parent, entries)
        && sec.ty == VectorSectionType(VectorStartAt(b, key, e, is64), is64)
        && rs == VectorRegions(s, b, key, e, is64, id, parent, entries)
    case RootTable => key == RootLocation(b, x.isSizePrefixed) && TableExplained(x, key, s.root, rs)
    case TableSection => exists t :: TableReached(x, key, t) && TableExplained(x, key, t, rs)
    case VTableSection => exists t, referrer :: VTableExplained(x, key, t, referrer, rs)
    case UnionSection =>
      exists e, v, def ::
        Reached(x, key, ToUnion(e, v)) && IsStructMember(s, e, v, def) && rs == StructWalk(b, key, def).regions
    case _ => false
  }

  /** The regions of the vtable of a table that is reached. */
  ghost predicate VTableExplained(x: Input, key: nat, t: nat, referrer: nat, rs: seq<Region>)
    requires InputOk(x)
  {
    && t < |x.schema.tables| && TableReached(x, referrer, t) && VTableLocation(x.binary, referrer) == Some(key)
    && rs == VTableRegions(VTableAt(x.schema, x.binary, key, t, referrer))
  }

  predicate IsStructMember(s: Schema, e: nat, v: nat, def: StructDef) {
    IsValidUnionValue(s, e, v) && s.enums[e][v] == StructMember(def)
  }

  ghost predicate SectionOk(x: Input, sec: Section)
    requires InputOk(x)
  {
    match sec case Section(key, ty, regions) =>
      && key < |x.binary|
      && regions != [] && regions[0].offset == key
      && AllOk(x.binary, key, regions)
      && (ty == Header || AllAhead(x.binary, key, regions))
      && Explained(x, sec)
  }

  // ---------------------------------------------------------------- resolved references

  /** Some section starts at the offset or covers it. */
  ghost predicate Found(ss: seq<Section>, offset: int) {
    offset >= 0 && exists s :: s in ss && s.regions != [] && Covers(s, offset)
  }

  /** The location of a vtable is inside a section that is not a vtable there that can be read. */
  ghost predicate Blocked(b: seq<byte>, ss: seq<Section>, location: int) {
    location >= 0 && exists s :: s in ss && s.regions != [] && Covers(s, location) && !IsVTableFor(b, s, location)
  }

  predicate IsVTableFor(b: seq<byte>, s: Section, location: nat) {
    s.key == location && s.ty == VTableSection && IsUsable(b, location)
  }

  /** There is a section for the table at the offset, or its vtable is blocked. */
  ghost predicate TableResolved(x: Input, ss: seq<Section>, offset: int) {
    Found(ss, offset) ||
    (offset >= 0 && VTableLocation(x.binary, offset).Some?
      && IsValidOffset(x.binary, VTableLocation(x.binary, offset).value)
      && Blocked(x.binary, ss, VTableLocation(x.binary, offset).value))
  }

  /** What the region refers to has been annotated. */
  ghost predicate Resolved(x: Input, ss: seq<Section>, r: Region) {
    match r.refersTo
    case Nothing => true
    case ToString | ToVector(_, _, _) => Found(ss, r.target)
    case ToTable(_) => TableResolved(x, ss, r.target)
    case ToUnion(e, v) =>
      IsValidUnionValue(x.schema, e, v) ==>
        match x.schema.enums[e][v]
        case TableMember(_) => TableResolved(x, ss, r.target)
        case StructMember(_) => Found(ss, r.target)
        case OtherMember => true
  }

  ghost predicate AllResolved(x: Input, ss: seq<Section>, rs: seq<Region>) {
    forall r {:trigger Resolved(x, ss, r)} :: r in rs ==> Resolved(x, ss, r)
  }

  lemma FoundExtends(before: seq<Section>, after: seq<Section>, offset: int)
    requires Extends(before, after) && Found(before, offset)
    ensures Found(after, offset)
  {
    var s :| s in before && s.regions != [] && Covers(s, offset);
    assert s in after;
  }

  lemma BlockedExtends(b: seq<byte>, before: seq<Section>, after: seq<Section>, location: int)
    requires Extends(before, after) && Blocked(b, before, location)
    ensures Blocked(b, after, location)
  {
    var s :| s in before && s.regions != [] && Covers(s, location) && !IsVTableFor(b, s, location);
    assert s in after;
  }

  lemma ResolvedExtends(x: Input, before: seq<Section>, after: seq<Section>, r: Region)
    requires Extends(before, after) && Resolved(x, before, r)
    ensures Resolved(x, after, r)
  {
    if Found(before, r.target) {
      FoundExtends(before, after, r.target);
    } else if r.target >= 0 && VTableLocation(x.binary, r.target).Some? {
      var location := VTableLocation(x.binary, r.target).value;
      if Blocked(x.binary, before, location) {
        BlockedExtends(x.binary, before, after, location);
      }
    }
  }

  lemma AllResolvedExtends(x: Input, before: seq<Section>, after: seq<Section>, rs: seq<Region>)
    requires Extends(before, after) && AllResolved(x, before, rs)
    ensures AllResolved(x, after, rs)
  {
    forall r | r in rs
      ensures Resolved(x, after, r)
    {
      ResolvedExtends(x, before, after, r);
    }
  }

  // ---------------------------------------------------------------- the annotator's state

  /** The annotator's fields. */
  datatype State = State(sections: seq<Section>, vtables: map<nat, seq<VTable>>)

  function CacheAt(vtables: map<nat, seq<VTable>>, offset: nat): seq<VTable> {
    if offset in vtables then vtables[offset] else []
  }

  ghost predicate SectionsOk(x: Input, ss: seq<Section>)
    requires InputOk(x)
  {
    forall s {:trigger SectionOk(x, s)} :: s in ss ==> SectionOk(x, s)
  }

  /** All references resolved, but those of the header. */
  ghost predicate Closed(x: Input, ss: seq<Section>) {
    forall s {:trigger AllResolved(x, ss, s.regions)} :: s in ss && s.ty != Header ==> AllResolved(x, ss, s.regions)
  }

  ghost predicate HasVTable(ss: seq<Section>, offset: nat) {
    exists s :: s in ss && s.key == offset && s.ty == VTableSection
  }

  /** The vtable that the offset of a table leads to has a section. */
  ghost predicate VTableThere(b: seq<byte>, ss: seq<Section>, s: Section) {
    s.ty in {TableSection, RootTable} ==>
      match VTableLocation(b, s.key)
      case None => true
      case Some(location) => IsValidOffset(b, location) ==> HasVTable(ss, location)
  }

  ghost predicate VTablesThere(b: seq<byte>, ss: seq<Section>) {
    forall s {:trigger VTableThere(b, ss, s)} :: s in ss ==> VTableThere(b, ss, s)
  }

  ghost predicate CachedOk(x: Input, vtables: map<nat, seq<VTable>>)
    requires InputOk(x)
  {
    forall o, v {:trigger VTableReached(x, o, v)} :: o in vtables && v in vtables[o] ==> VTableReached(x, o, v)
  }

  /**
   * Where vtables are cached there is a vtable section; and where a vtable that can be read has a section, there is one
   * in the cache.
   */
  ghost predicate CacheFits(b: seq<byte>, ss: seq<Section>, vtables: map<nat, seq<VTable>>) {
    && (forall o :: o in vtables && vtables[o] != [] ==> HasVTable(ss, o))
    && forall s {:trigger IsVTableFor(b, s, s.key)} ::
         s in ss && IsVTableFor(b, s, s.key) ==> CacheAt(vtables, s.key) != []
  }

  /**
   * What every step keeps: sections are what the binary prescribes, in range, and, the header aside, refer only to
   * what has been annotated; and the cache agrees with them.
   */
  ghost predicate StateOk(x: Input, st: State)
    requires InputOk(x)
  {
    match st case State(ss, vtables) =>
      && Ascending(ss) && SectionsOk(x, ss) && Closed(x, ss) && VTablesThere(x.binary, ss)
      && CachedOk(x, vtables) && CacheFits(x.binary, ss, vtables)
  }

  /** A vtable, or, when there are offsets that can wrap around, a thing that they can lead to: it can be anywhere. */
  predicate IsLoose(s: Section, offset64: bool) {
    s.ty == VTableSection || (offset64 && s.ty in {StringSection, VectorSection, Vector64Section})
  }

  /** Nothing is lost or changed, and whatever is new is loose or lies from the offset on. */
  ghost predicate Grows(before: seq<Section>, after: seq<Section>, from: nat, offset64: bool) {
    && Extends(before, after)
    && forall s {:trigger IsLoose(s, offset64)} :: s in after && s !in before ==> IsLoose(s, offset64) || s.key >= from
  }

  lemma GrowsOn(a: seq<Section>, b: seq<Section>, c: seq<Section>, m: nat, n: nat, from: nat, offset64: bool)
    requires Grows(a, b, m, offset64) && Grows(b, c, n, offset64) && from <= m && from <= n
    ensures Grows(a, c, from, offset64)
  {
  }

  lemma GrowsFrom(a: seq<Section>, b: seq<Section>, m: nat, from: nat, offset64: bool)
    requires Grows(a, b, m, offset64) && from <= m
    ensures Grows(a, b, from, offset64)
  {
  }

  /** The section is there, unless something loose took its place. */
  ghost predicate Stored(ss: seq<Section>, sec: Section, offset64: bool) {
    sec in ss || HasLoose(ss, sec.key, offset64)
  }

  ghost predicate HasLoose(ss: seq<Section>, key: nat, offset64: bool) {
    exists s :: s in ss && s.key == key && IsLoose(s, offset64)
  }

  lemma SectionsNoneHollow(x: Input, ss: seq<Section>)
    requires InputOk(x) && SectionsOk(x, ss)
    ensures NoneHollow(ss)
  {
    forall s | s in ss
      ensures s.regions != []
    {
      assert SectionOk(x, s);
    }
  }

  lemma StateNoneHollow(x: Input, st: State)
    requires InputOk(x) && StateOk(x, st)
    ensures NoneHollow(st.sections)
  {
    SectionsNoneHollow(x, st.sections);
  }

  lemma KeyIsFound(x: Input, ss: seq<Section>, key: nat)
    requires InputOk(x) && HasKey(ss, key) && SectionsOk(x, ss)
    ensures Found(ss, key)
  {
    var s :| s in ss && s.key == key;
    assert SectionOk(x, s) && Covers(s, key);
  }

  lemma ContainedIsFound(x: Input, st: State, offset: nat)
    requires InputOk(x) && StateOk(x, st)
    ensures NoneHollow(st.sections)
    ensures Contains(st.sections, offset) ==> Found(st.sections, offset)
    ensures !Contains(st.sections, offset) ==> !HasKey(st.sections, offset)
  {
    StateNoneHollow(x, st);
    if Contains(st.sections, offset) {
      ContainsIsSound(st.sections, offset);
      var s :| s in st.sections && Covers(s, offset);
    } else {
      LowerBoundAscending(st.sections, offset);
    }
  }

  lemma ClosedAdd(x: Input, ss: seq<Section>, sec: Section)
    requires Ascending(ss) && Closed(x, ss) && (sec.ty == Header || AllResolved(x, ss, sec.regions))
    ensures Closed(x, Add(ss, sec))
  {
    AddEffect(ss, sec);
    forall s | s in Add(ss, sec) && s.ty != Header
      ensures AllResolved(x, Add(ss, sec), s.regions)
    {
      AllResolvedExtends(x, ss, Add(ss, sec), s.regions);
    }
  }

  lemma SectionsAdd(x: Input, ss: seq<Section>, sec: Section)
    requires InputOk(x) && Ascending(ss) && SectionsOk(x, ss) && SectionOk(x, sec)
    ensures SectionsOk(x, Add(ss, sec)) && Found(Add(ss, sec), sec.key)
  {
    AddEffect(ss, sec);
    KeyIsFound(x, Add(ss, sec), sec.key);
  }

  lemma HasVTableExtends(before: seq<Section>, after: seq<Section>, offset: nat)
    requires Extends(before, after) && HasVTable(before, offset)
    ensures HasVTable(after, offset)
  {
    var s :| s in before && s.key == offset && s.ty == VTableSection;
    assert s in after;
  }

  lemma VTablesThereAdd(b: seq<byte>, ss: seq<Section>, sec: Section)
    requires Ascending(ss) && VTablesThere(b, ss) && VTableThere(b, ss, sec)
    ensures VTablesThere(b, Add(ss, sec))
  {
    AddEffect(ss, sec);
    forall s | s in Add(ss, sec)
      ensures VTableThere(b, Add(ss, sec), s)
    {
      VTableThereExtends(b, ss, Add(ss, sec), s);
    }
  }

  lemma VTableThereExtends(b: seq<byte>, before: seq<Section>, after: seq<Section>, s: Section)
    requires Extends(before, after) && (s in before ==> VTablesThere(b, before))
    requires s !in before ==> VTableThere(b, before, s)
    ensures VTableThere(b, after, s)
  {
    assert VTableThere(b, before, s);
    if VTableLocation(b, s.key).Some? && IsValidOffset(b, VTableLocation(b, s.key).value) {
      if HasVTable(before, VTableLocation(b, s.key).value) {
        HasVTableExtends(before, after, VTableLocation(b, s.key).value);
      }
    }
  }

  lemma CacheFitsAdd(b: seq<byte>, ss: seq<Section>, vtables: map<nat, seq<VTable>>, sec: Section)
    requires Ascending(ss) && CacheFits(b, ss, vtables) && !IsVTableFor(b, sec, sec.key)
    ensures CacheFits(b, Add(ss, sec), vtables)
  {
    AddEffect(ss, sec);
    forall o | o in vtables && vtables[o] != []
      ensures HasVTable(Add(ss, sec), o)
    {
      HasVTableExtends(ss, Add(ss, sec), o);
    }
  }

  lemma AddVTable(ss: seq<Section>, sec: Section)
    requires Ascending(ss) && sec.ty == VTableSection && (HasKey(ss, sec.key) ==> HasVTable(ss, sec.key))
    ensures HasVTable(Add(ss, sec), sec.key)
  {
    AddEffect(ss, sec);
    if HasKey(ss, sec.key) {
      HasVTableExtends(ss, Add(ss, sec), sec.key);
    }
  }

  lemma CacheFitsVTable(b: seq<byte>, ss: seq<Section>, vtables: map<nat, seq<VTable>>, sec: Section, v: VTable)
    requires Ascending(ss) && CacheFits(b, ss, vtables)
    requires sec.ty == VTableSection && (HasKey(ss, sec.key) ==> HasVTable(ss, sec.key))
    ensures CacheFits(b, Add(ss, sec), vtables[sec.key := CacheAt(vtables, sec.key) + [v]])
  {
    AddEffect(ss, sec);
    AddVTable(ss, sec);
    var cached := vtables[sec.key := CacheAt(vtables, sec.key) + [v]];
    forall o | o in cached && cached[o] != []
      ensures HasVTable(Add(ss, sec), o)
    {
      if o != sec.key {
        HasVTableExtends(ss, Add(ss, sec), o);
      }
    }
  }

  /** What adding a section does to the section map. */
  lemma AddGrows(ss: seq<Section>, sec: Section)
    requires Ascending(ss)
    ensures Ascending(Add(ss, sec)) && HasKey(Add(ss, sec), sec.key)
    ensures forall from: nat, offset64 ::
              from <= sec.key || IsLoose(sec, offset64) ==> Grows(ss, Add(ss, sec), from, offset64)
    ensures !HasKey(ss, sec.key) ==> sec in Add(ss, sec)
  {
    AddEffect(ss, sec);
  }

  /** Adding a section whose references are resolved keeps the state in order. */
  lemma AddKeeps(x: Input, st: State, sec: Section)
    requires InputOk(x) && StateOk(x, st) && SectionOk(x, sec) && !IsVTableFor(x.binary, sec, sec.key)
    requires sec.ty == Header || AllResolved(x, st.sections, sec.regions)
    requires VTableThere(x.binary, st.sections, sec)
    ensures StateOk(x, State(Add(st.sections, sec), st.vtables)) && Found(Add(st.sections, sec), sec.key)
  {
    AddGrows(st.sections, sec);
    ClosedAdd(x, st.sections, sec);
    SectionsAdd(x, st.sections, sec);
    VTablesThereAdd(x.binary, st.sections, sec);
    CacheFitsAdd(x.binary, st.sections, st.vtables, sec);
  }

  // ---------------------------------------------------------------- the step for a vtable

  /** The first vtable for the table type. */
  function Find(vtables: seq<VTable>, table: nat): (v: Option<VTable>)
    ensures v.None? <==> forall i :: 0 <= i < |vtables| ==> vtables[i].table != table
    ensures v.Some? ==> v.value in vtables && v.value.table == table
  {
    if vtables == [] then None else if vtables[0].table == table then Some(vtables[0]) else Find(vtables[1..], table)
  }

  datatype VTableStep = VTableStep(st: State, vtable: Option<VTable>)

  /** The section of a vtable is recorded, unless there is one, and if it can be read it is cached. */
  function WithVTable(st: State, offset: nat, built: VTableResult): State {
    var ss := Add(st.sections, Section(offset, VTableSection, VTableRegions(built)));
    match built
    case Bad(_) => State(ss, st.vtables)
    case Good(_, v) => State(ss, st.vtables[offset := CacheAt(st.vtables, offset) + [v]])
  }

  function VTableSectionAt(x: Input, offset: nat, table: nat, referrer: nat): Section
    requires |x.binary| >= MIN_BUFFER_SIZE && table < |x.schema.tables|
  {
    Section(offset, VTableSection, VTableRegions(VTableAt(x.schema, x.binary, offset, table, referrer)))
  }

  /**
   * The vtable for the table type at the offset: the cached one; else none if the offset is annotated, but not as a
   * vtable; else the one read there, which is recorded and, if it can be read, cached.
   */
  function GetVTable(x: Input, st: State, offset: nat, table: nat, referrer: nat): VTableStep
    requires |x.binary| >= MIN_BUFFER_SIZE && table < |x.schema.tables| && NoneHollow(st.sections)
  {
    var cached := CacheAt(st.vtables, offset);
    if Find(cached, table).Some? then VTableStep(st, Find(cached, table))
    else if cached == [] && Contains(st.sections, offset) then VTableStep(st, None)
    else
      var built := VTableAt(x.schema, x.binary, offset, table, referrer);
      VTableStep(WithVTable(st, offset, built), if built.Good? then Some(built.vtable) else None)
  }

  lemma VTableSectionOk(x: Input, offset: nat, table: nat, referrer: nat)
    requires InputOk(x) && IsValidOffset(x.binary, offset) && table < |x.schema.tables|
    requires TableReached(x, referrer, table) && VTableLocation(x.binary, referrer) == Some(offset)
    ensures SectionOk(x, VTableSectionAt(x, offset, table, referrer))
  {
    var sec := VTableSectionAt(x, offset, table, referrer);
    VTableRegionsOk(x, [], offset, table, referrer);
    assert VTableExplained(x, offset, table, referrer, sec.regions);
    assert Explained(x, sec);
  }

  /** The regions of a vtable are in range, and refer to nothing. */
  lemma VTableRegionsOk(x: Input, ss: seq<Section>, offset: nat, table: nat, referrer: nat)
    requires InputOk(x) && IsValidOffset(x.binary, offset) && table < |x.schema.tables|
    ensures var rs := VTableSectionAt(x, offset, table, referrer).regions;
            && rs != [] && rs[0].offset == offset && AllOk(x.binary, offset, rs) && AllAhead(x.binary, offset, rs)
            && AllResolved(x, ss, rs)
  {
    VTableFacts(x.schema, x.binary, offset, table, referrer);
  }

  /** No vtable where there is a section but no cached vtable: that section blocks it. */
  lemma ContainedIsBlocked(x: Input, st: State, offset: nat)
    requires InputOk(x) && StateOk(x, st) && NoneHollow(st.sections)
    requires CacheAt(st.vtables, offset) == [] && Contains(st.sections, offset)
    ensures Blocked(x.binary, st.sections, offset)
  {
    ContainsIsSound(st.sections, offset);
    var s :| s in st.sections && Covers(s, offset);
    assert !IsVTableFor(x.binary, s, offset);
  }

  lemma UnusableIsBlocked(x: Input, ss: seq<Section>, sec: Section)
    requires InputOk(x) && SectionOk(x, sec) && sec in ss && !IsUsable(x.binary, sec.key)
    ensures Blocked(x.binary, ss, sec.key)
  {
    assert Covers(sec, sec.key) && !IsVTableFor(x.binary, sec, sec.key);
  }

  lemma ReadVTableOk(x: Input, offset: nat, table: nat, referrer: nat)
    requires InputOk(x) && table < |x.schema.tables| && VTableLocation(x.binary, referrer) == Some(offset)
    requires IsUsable(x.binary, offset) && TableReached(x, referrer, table)
    ensures VTableReached(x, offset, VTableAt(x.schema, x.binary, offset, table, referrer).vtable)
  {
    assert ReadFor(x, offset, VTableAt(x.schema, x.binary, offset, table, referrer).vtable, referrer);
  }

  lemma CachedOkWith(x: Input, vtables: map<nat, seq<VTable>>, offset: nat, v: VTable)
    requires InputOk(x) && CachedOk(x, vtables) && VTableReached(x, offset, v)
    ensures CachedOk(x, vtables[offset := CacheAt(vtables, offset) + [v]])
  {
  }

  /** Recording a vtable at an offset that has no section, or whose vtables are cached, keeps the state in order. */
  lemma RecordKeeps(x: Input, st: State, sec: Section, v: VTable)
    requires InputOk(x) && StateOk(x, st) && SectionOk(x, sec) && sec.ty == VTableSection
    requires VTableReached(x, sec.key, v)
    requires AllResolved(x, st.sections, sec.regions)
    requires HasKey(st.sections, sec.key) ==> HasVTable(st.sections, sec.key)
    ensures StateOk(x, State(Add(st.sections, sec), st.vtables[sec.key := CacheAt(st.vtables, sec.key) + [v]]))
  {
    AddGrows(st.sections, sec);
    ClosedAdd(x, st.sections, sec);
    SectionsAdd(x, st.sections, sec);
    VTablesThereAdd(x.binary, st.sections, sec);
    CachedOkWith(x, st.vtables, sec.key, v);
    CacheFitsVTable(x.binary, st.sections, st.vtables, sec, v);
  }

  /** A vtable that cannot be read gets a section that reports it, and blocks it. */
  lemma ErrorKeeps(x: Input, st: State, offset: nat, table: nat, referrer: nat)
    requires InputOk(x) && StateOk(x, st) && IsValidOffset(x.binary, offset) && table < |x.schema.tables|
    requires TableReached(x, referrer, table) && VTableLocation(x.binary, referrer) == Some(offset)
    requires !HasKey(st.sections, offset) && !IsUsable(x.binary, offset)
    ensures var ss := Add(st.sections, VTableSectionAt(x, offset, table, referrer));
            StateOk(x, State(ss, st.vtables)) && Blocked(x.binary, ss, offset)
  {
    var sec := VTableSectionAt(x, offset, table, referrer);
    VTableSectionOk(x, offset, table, referrer);
    VTableRegionsOk(x, st.sections, offset, table, referrer);
    AddKeeps(x, st, sec);
    AddGrows(st.sections, sec);
    UnusableIsBlocked(x, Add(st.sections, sec), sec);
  }

  /** Where a vtable is cached, what is there can be read as one. */
  lemma CachedIsUsable(x: Input, st: State, offset: nat)
    requires InputOk(x) && StateOk(x, st) && CacheAt(st.vtables, offset) != []
    ensures IsUsable(x.binary, offset) && HasVTable(st.sections, offset)
  {
    assert VTableReached(x, offset, st.vtables[offset][0]);
  }

  lemma ReadKeeps(x: Input, st: State, offset: nat, table: nat, referrer: nat)
    requires InputOk(x) && StateOk(x, st) && IsValidOffset(x.binary, offset) && table < |x.schema.tables|
    requires TableReached(x, referrer, table) && VTableLocation(x.binary, referrer) == Some(offset)
    requires HasKey(st.sections, offset) ==> HasVTable(st.sections, offset) && IsUsable(x.binary, offset)
    ensures var ss := Add(st.sections, VTableSectionAt(x, offset, table, referrer));
            match VTableAt(x.schema, x.binary, offset, table, referrer)
            case Bad(_) => StateOk(x, State(ss, st.vtables)) && Blocked(x.binary, ss, offset)
            case Good(_, v) =>
              && VTableReached(x, offset, v) && HasVTable(ss, offset)
              && StateOk(x, State(ss, st.vtables[offset := CacheAt(st.vtables, offset) + [v]]))
  {
    if IsUsable(x.binary, offset) {
      VTableSectionOk(x, offset, table, referrer);
      VTableRegionsOk(x, st.sections, offset, table, referrer);
      ReadVTableOk(x, offset, table, referrer);
      AddVTable(st.sections, VTableSectionAt(x, offset, table, referrer));
      RecordKeeps(x, st, VTableSectionAt(x, offset, table, referrer),
                  VTableAt(x.schema, x.binary, offset, table, referrer).vtable);
    } else {
      ErrorKeeps(x, st, offset, table, referrer);
    }
  }

  /** The step for a vtable keeps the state in order; without a vtable, it is blocked. */
  lemma GetVTableKeeps(x: Input, st: State, offset: nat, table: nat, referrer: nat)
    requires InputOk(x) && StateOk(x, st) && IsValidOffset(x.binary, offset) && table < |x.schema.tables|
    requires TableReached(x, referrer, table) && VTableLocation(x.binary, referrer) == Some(offset)
    ensures NoneHollow(st.sections)
    ensures var step := GetVTable(x, st, offset, table, referrer);
            && StateOk(x, step.st) && (forall o64 :: Grows(st.sections, step.st.sections, |x.binary|, o64))
            && (step.vtable.Some? ==>
                  && step.vtable.value.table == table && VTableReached(x, offset, step.vtable.value)
                  && HasVTable(step.st.sections, offset))
            && (step.vtable.None? ==> Blocked(x.binary, step.st.sections, offset))
  {
    ContainedIsFound(x, st, offset);
    var cached := CacheAt(st.vtables, offset);
    if Find(cached, table).Some? {
    } else if cached == [] && Contains(st.sections, offset) {
      ContainedIsBlocked(x, st, offset);
    } else {
      if cached != [] {
        CachedIsUsable(x, st, offset);
      }
      AddGrows(st.sections, VTableSectionAt(x, offset, table, referrer));
      ReadKeeps(x, st, offset, table, referrer);
    }
  }

  /** Exactly when the step yields a vtable: it can be read, and where none is cached the lookup finds no section. */
  lemma VTableIff(x: Input, st: State, offset: nat, table: nat, referrer: nat)
    requires InputOk(x) && StateOk(x, st) && IsValidOffset(x.binary, offset) && table < |x.schema.tables|
    ensures NoneHollow(st.sections)
    ensures GetVTable(x, st, offset, table, referrer).vtable.Some?
            <==> IsUsable(x.binary, offset) && (CacheAt(st.vtables, offset) != [] || !Contains(st.sections, offset))
  {
    StateNoneHollow(x, st);
    if CacheAt(st.vtables, offset) != [] {
      CachedIsUsable(x, st, offset);
    }
  }
}
