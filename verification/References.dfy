/** What a binary refers to: the tables, vectors, unions and strings that are reached from its root. */
module References {
  import opened Bytes
  import opened Schema
  import opened Walks
  import opened WalkFacts

  datatype Input = Input(schema: Schema, binary: seq<byte>, isSizePrefixed: bool)

  ghost predicate InputOk(x: Input) {
    WellFormed(x.schema) && |x.binary| >= MIN_BUFFER_SIZE
  }

  // ---------------------------------------------------------------- what is referred to, from the root on

  /** The vtable v was read at the offset, on behalf of a table at some place. */
  ghost predicate VTableOk(x: Input, offset: nat, v: VTable)
    requires InputOk(x)
  {
    v.table < |x.schema.tables| &&
    exists referrer: nat :: ReadFor(x, offset, v, referrer)
  }

  ghost predicate IsVTableAt(x: Input, offset: nat, v: VTable, referrer: nat)
    requires InputOk(x) && v.table < |x.schema.tables|
  {
    var r := VTableAt(x.schema, x.binary, offset, v.table, referrer);
    r.Good? && r.vtable == v
  }

  /** There is a table at the offset as far as its vtable goes, which is v. */
  ghost predicate IsTable(x: Input, offset: nat, v: VTable)
    requires InputOk(x)
  {
    && IsValidOffset(x.binary, offset)
    && VTableLocation(x.binary, offset).Some? && IsValidOffset(x.binary, VTableLocation(x.binary, offset).value)
    && VTableOk(x, VTableLocation(x.binary, offset).value, v)
  }

  /** r is a reference of the table at parent: one of its own, or one in a vector that it refers to. */
  ghost predicate Refers(x: Input, parent: nat, v: VTable, r: Region)
    requires InputOk(x) && IsTable(x, parent, v)
  {
    r.refersTo != Nothing &&
    (r in TableRegions(x.schema, x.binary, parent, v) || exists q :: RefersThrough(x, parent, v, q, r))
  }

  ghost predicate RefersThrough(x: Input, parent: nat, v: VTable, q: Region, r: Region)
    requires InputOk(x) && IsTable(x, parent, v)
  {
    match q.refersTo
    case ToVector(id, e, is64) =>
      && q in TableRegions(x.schema, x.binary, parent, v) && q.target >= 0
      && r in VectorRegions(x.schema, x.binary, q.target, e, is64, id, parent, v.fields)
    case _ => false
  }

  /** The reference is to a table of type t, be it as the member of a union. */
  predicate LeadsToTable(s: Schema, what: Referent, t: nat) {
    match what
    case ToTable(u) => u == t
    case ToUnion(e, v) => IsValidUnionValue(s, e, v) && s.enums[e][v] == TableMember(t)
    case _ => false
  }

  /** A table of type t is at the offset, as the table at parent says, whose vtable v was read on behalf of referrer. */
  ghost predicate LeadsInOne(x: Input, parent: nat, v: VTable, referrer: nat, offset: nat, t: nat)
    requires InputOk(x)
  {
    && IsTable(x, parent, v) && LeadsOn(x, parent, v, offset, t)
    && ReadFor(x, VTableLocation(x.binary, parent).value, v, referrer)
  }

  /**
   * A table of type t is reached at the offset in up to n steps: it is the root table, or a table leads there that is
   * reached before, with a vtable that was read on behalf of a table reached before.
   */
  ghost predicate TableReachedIn(x: Input, offset: nat, t: nat, n: nat)
    requires InputOk(x)
    decreases n
  {
    || (t == x.schema.root && offset == RootLocation(x.binary, x.isSizePrefixed))
    || exists parent: nat, v: VTable, referrer: nat, j: nat, k: nat ::
         && j < n && k < n && LeadsInOne(x, parent, v, referrer, offset, t)
         && TableReachedIn(x, parent, v.table, j) && TableReachedIn(x, referrer, v.table, k)
  }

  ghost predicate ReadFor(x: Input, location: nat, v: VTable, referrer: nat)
    requires InputOk(x) && v.table < |x.schema.tables|
  {
    VTableLocation(x.binary, referrer) == Some(location) && IsVTableAt(x, location, v, referrer)
  }

  ghost predicate TableReached(x: Input, offset: nat, t: nat)
    requires InputOk(x)
  {
    exists n: nat :: TableReachedIn(x, offset, t, n)
  }

  /** The vtable v was read at the location, on behalf of a table of its type that is reached. */
  ghost predicate VTableReached(x: Input, location: nat, v: VTable)
    requires InputOk(x)
  {
    v.table < |x.schema.tables| &&
    exists referrer: nat :: ReadFor(x, location, v, referrer) && TableReached(x, referrer, v.table)
  }

  ghost predicate LeadsOn(x: Input, parent: nat, v: VTable, offset: nat, t: nat)
    requires InputOk(x) && IsTable(x, parent, v)
  {
    exists r :: Refers(x, parent, v, r) && r.target == offset && LeadsToTable(x.schema, r.refersTo, t)
  }

  /** A table that is reached, with its vtable. */
  ghost predicate TableAt(x: Input, offset: nat, v: VTable)
    requires InputOk(x)
  {
    && IsTable(x, offset, v) && TableReached(x, offset, v.table)
    && VTableReached(x, VTableLocation(x.binary, offset).value, v)
  }

  /** Some reached table refers to the target, as to a thing of that kind. */
  ghost predicate Reached(x: Input, target: int, what: Referent)
    requires InputOk(x)
  {
    exists parent: nat, v: VTable, r ::
      TableAt(x, parent, v) && Refers(x, parent, v, r) && r.target == target && r.refersTo == what
  }

  /** A vector that the reached table at parent, whose entries these are, refers to at the key. */
  ghost predicate VectorReached(x: Input, key: int, id: nat, e: ElementType, is64: bool, parent: nat,
                                entries: map<nat, Entry>)
    requires InputOk(x)
  {
    exists v: VTable, r ::
      && v.fields == entries && TableAt(x, parent, v) && r in TableRegions(x.schema, x.binary, parent, v)
      && r.target == key && r.refersTo == ToVector(id, e, is64)
  }

  ghost predicate AllReached(x: Input, rs: seq<Region>)
    requires InputOk(x)
  {
    forall r {:trigger Reached(x, r.target, r.refersTo)} ::
      r in rs && r.refersTo != Nothing ==> Reached(x, r.target, r.refersTo)
  }

  // ---------------------------------------------------------------- references are of their field's kind

  lemma VTableEntries(x: Input, offset: nat, v: VTable)
    requires InputOk(x) && VTableOk(x, offset, v) && IsValidOffset(x.binary, offset)
    ensures EntriesOk(x.schema.tables[v.table], v.fields)
  {
    var referrer: nat :| ReadFor(x, offset, v, referrer);
    VTableFacts(x.schema, x.binary, offset, v.table, referrer);
  }

  /** The types that go with a vector of unions, when the table has them, are of the same enum. */
  predicate TypesMatch(id: nat, entries: map<nat, Entry>, enumId: nat) {
    var typeId := (id + U16 - 1) % U16;
    typeId in entries ==> EnumOf(entries[typeId].field) == enumId || EnumOf(entries[typeId].field) < 0
  }

  predicate VectorOk(s: Schema, e: ElementType, id: nat, entries: map<nat, Entry>) {
    ElementOk(s, e) && (e.UnionElement? ==> TypesMatch(id, entries, e.enumId))
  }

  /** A reference of field e of the table at offset is of the field's own kind; a union's value is its type field's. */
  ghost predicate ReferenceOk(x: Input, offset: nat, v: VTable, e: Entry, r: Region) {
    r.refersTo != Nothing ==>
      && e.field.Some?
      && (r.ty == UOffset64 ==> HasOffset64(x.schema))
      && match e.field.value.ty
         case Table(t) => t < |x.schema.tables| && r.refersTo == ToTable(t)
         case Str => r.refersTo == ToString
         case Union(u) =>
           && r.refersTo.ToUnion? && r.refersTo.enumIndex == u && IsValidUnionValue(x.schema, u, r.refersTo.value)
           && e.id > 0 && e.id - 1 in v.fields
           && Read(x.binary, offset + v.fields[e.id - 1].offset, 1) == Some(r.refersTo.value)
         case Vector(element, is64) =>
           r.refersTo == ToVector(e.id, element, is64) && VectorOk(x.schema, element, e.id, v.fields)
         case _ => false
  }

  /** A field that refers to something has that one region. */
  lemma FieldReference(x: Input, offset: nat, v: VTable, order: seq<Entry>, i: nat)
    requires InputOk(x) && v.table < |x.schema.tables| && EntriesOk(x.schema.tables[v.table], v.fields)
    requires i < |order| && EntryOk(x.schema.tables[v.table], order[i].id, order[i])
    ensures var rs := TableFieldRegions(x.schema, x.binary, offset, v, order, i);
            forall r :: r in rs && r.refersTo != Nothing ==> rs == [r] && ReferenceOk(x, offset, v, order[i], r)
  {
    var e := order[i];
    var at := offset + e.offset;
    if e.field.Some? {
      var fields, f := x.schema.tables[v.table], e.field.value;
      assert FieldOk(x.schema, f) && TypeFieldOk(fields, e.id);
      match f.ty
      case Struct(def) => StructFacts(x.binary, at, def);
      case Vector(UnionElement(u), _) => UnionTypesMatch(x, v, e.id, u);
      case Union(_) => assert (e.id + U16 - 1) % U16 == e.id - 1;
      case _ =>
    }
  }

  lemma UnionTypesMatch(x: Input, v: VTable, id: nat, enumId: nat)
    requires InputOk(x) && v.table < |x.schema.tables| && EntriesOk(x.schema.tables[v.table], v.fields)
    requires var fields := x.schema.tables[v.table];
             id < |fields| && fields[id].ty.Vector? && fields[id].ty.element == UnionElement(enumId)
    ensures TypesMatch(id, v.fields, enumId)
  {
    var fields := x.schema.tables[v.table];
    assert TypeFieldOk(fields, id);
    var typeId := (id + U16 - 1) % U16;
    assert typeId == id - 1;
    if typeId in v.fields {
      assert EntryOk(fields, typeId, v.fields[typeId]);
    }
  }

  /** Every entry of a vtable, in table order, is one of the schema's or unknown. */
  lemma OrderEntriesOk(x: Input, v: VTable)
    requires InputOk(x) && v.table < |x.schema.tables| && EntriesOk(x.schema.tables[v.table], v.fields)
    ensures var order := InTableOrder(v);
            forall i :: 0 <= i < |order| ==> EntryOk(x.schema.tables[v.table], order[i].id, order[i])
  {
    TableOrderFacts(v);
    var order := InTableOrder(v);
    forall i | 0 <= i < |order|
      ensures EntryOk(x.schema.tables[v.table], order[i].id, order[i])
    {
      assert order[i] in order;
      var id :| id in v.fields && v.fields[id] == order[i];
      assert EntryOk(x.schema.tables[v.table], id, v.fields[id]);
    }
  }

  /** A reference to something that there is in the schema. */
  predicate KindOk(s: Schema, what: Referent, entries: map<nat, Entry>) {
    match what
    case Nothing | ToString => true
    case ToTable(t) => t < |s.tables|
    case ToUnion(u, value) => IsValidUnionValue(s, u, value)
    case ToVector(id, e, _) => VectorOk(s, e, id, entries)
  }

  lemma FieldKind(x: Input, offset: nat, v: VTable, order: seq<Entry>, i: nat, r: Region)
    requires InputOk(x) && v.table < |x.schema.tables| && EntriesOk(x.schema.tables[v.table], v.fields)
    requires i < |order| && EntryOk(x.schema.tables[v.table], order[i].id, order[i])
    requires r in TableFieldRegions(x.schema, x.binary, offset, v, order, i)
    ensures KindOk(x.schema, r.refersTo, v.fields)
    ensures r.refersTo != Nothing && r.ty == UOffset64 ==> HasOffset64(x.schema)
  {
    FieldReference(x, offset, v, order, i);
  }

  lemma {:induction false} FieldsReference(x: Input, offset: nat, v: VTable, order: seq<Entry>, n: nat, r: Region)
    requires InputOk(x) && v.table < |x.schema.tables| && EntriesOk(x.schema.tables[v.table], v.fields)
    requires forall i :: 0 <= i < |order| ==> EntryOk(x.schema.tables[v.table], order[i].id, order[i])
    requires n <= |order| && r in TableFieldsRegions(x.schema, x.binary, offset, v, order, n)
    ensures KindOk(x.schema, r.refersTo, v.fields)
    ensures r.refersTo != Nothing && r.ty == UOffset64 ==> HasOffset64(x.schema)
  {
    if r in TableFieldRegions(x.schema, x.binary, offset, v, order, n - 1) {
      FieldKind(x, offset, v, order, n - 1, r);
    } else {
      FieldsReference(x, offset, v, order, n - 1, r);
    }
  }

  lemma TableReference(x: Input, parent: nat, v: VTable, r: Region)
    requires InputOk(x) && IsTable(x, parent, v) && r in TableRegions(x.schema, x.binary, parent, v)
    ensures KindOk(x.schema, r.refersTo, v.fields) && Ahead(x.binary, parent, r)
    ensures r.refersTo != Nothing && r.ty == UOffset64 ==> HasOffset64(x.schema)
  {
    VTableEntries(x, VTableLocation(x.binary, parent).value, v);
    TableFacts(x.schema, x.binary, parent, v);
    OrderEntriesOk(x, v);
    var order := InTableOrder(v);
    if r in TableFieldsRegions(x.schema, x.binary, parent, v, order, |order|) {
      FieldsReference(x, parent, v, order, |order|, r);
    }
  }

  lemma VectorReference(x: Input, key: nat, e: ElementType, is64: bool, id: nat, parent: nat, entries: map<nat, Entry>,
                        r: Region)
    requires InputOk(x) && IsValidOffset(x.binary, key) && VectorOk(x.schema, e, id, entries)
    requires IsLeaf(e) || parent < key
    requires r in VectorRegions(x.schema, x.binary, key, e, is64, id, parent, entries)
    ensures KindOk(x.schema, r.refersTo, entries) && !r.refersTo.ToVector?
    ensures r.refersTo != Nothing ==> !IsLeaf(e) && key < r.target < |x.binary|
  {
    VectorFacts(x.schema, x.binary, key, e, is64, id, parent, entries);
    VectorRefers(x.schema, x.binary, key, e, is64, id, parent, entries, r);
  }

  lemma ThroughReference(x: Input, parent: nat, v: VTable, q: Region, r: Region)
    requires InputOk(x) && IsTable(x, parent, v) && RefersThrough(x, parent, v, q, r)
    ensures KindOk(x.schema, r.refersTo, v.fields) && !r.refersTo.ToVector?
    ensures r.refersTo != Nothing ==> 0 <= parent < r.target < |x.binary|
  {
    TableReference(x, parent, v, q);
    var ToVector(id, e, is64) := q.refersTo;
    VectorReference(x, q.target, e, is64, id, parent, v.fields, r);
  }

  /**
   * Whatever is reached is in the binary, and what is reached as a table or a union lies behind the table it is
   * reached from.
   */
  lemma ReferencesLeadOn(x: Input, parent: nat, v: VTable, r: Region)
    requires InputOk(x) && IsTable(x, parent, v) && Refers(x, parent, v, r)
    ensures 0 <= r.target < |x.binary| && KindOk(x.schema, r.refersTo, v.fields)
    ensures r.refersTo.ToTable? || r.refersTo.ToUnion? ==> parent < r.target
  {
    if r in TableRegions(x.schema, x.binary, parent, v) {
      TableReference(x, parent, v, r);
    } else {
      var q :| RefersThrough(x, parent, v, q, r);
      ThroughReference(x, parent, v, q, r);
    }
  }

  lemma RootReached(x: Input)
    requires InputOk(x)
    ensures TableReached(x, RootLocation(x.binary, x.isSizePrefixed), x.schema.root)
  {
    assert TableReachedIn(x, RootLocation(x.binary, x.isSizePrefixed), x.schema.root, 0);
  }

  lemma TableIsAt(x: Input, offset: nat, location: nat, v: VTable)
    requires InputOk(x) && IsValidOffset(x.binary, offset) && IsValidOffset(x.binary, location)
    requires VTableLocation(x.binary, offset) == Some(location)
    requires TableReached(x, offset, v.table) && VTableReached(x, location, v)
    ensures TableAt(x, offset, v)
  {
    var referrer: nat :| ReadFor(x, location, v, referrer) && TableReached(x, referrer, v.table);
    assert VTableOk(x, location, v);
  }

  /** What a table that is reached leads to is reached in one more step. */
  lemma OneMoreStep(x: Input, parent: nat, v: VTable, offset: nat, t: nat)
    requires InputOk(x) && TableAt(x, parent, v) && LeadsOn(x, parent, v, offset, t)
    ensures TableReached(x, offset, t)
  {
    var location: nat := VTableLocation(x.binary, parent).value;
    var referrer: nat :| ReadFor(x, location, v, referrer) && TableReached(x, referrer, v.table);
    var j: nat :| TableReachedIn(x, parent, v.table, j);
    var k: nat :| TableReachedIn(x, referrer, v.table, k);
    assert LeadsInOne(x, parent, v, referrer, offset, t);
    assert TableReachedIn(x, offset, t, j + k + 1);
  }

  /** A reference to a table makes it reached. */
  lemma ReachTable(x: Input, target: nat, what: Referent, t: nat)
    requires InputOk(x) && Reached(x, target, what) && LeadsToTable(x.schema, what, t)
    ensures TableReached(x, target, t) && t < |x.schema.tables|
  {
    var parent: nat, v, r :| TableAt(x, parent, v) && Refers(x, parent, v, r) && r.target == target
      && r.refersTo == what;
    ReferencesLeadOn(x, parent, v, r);
    assert LeadsOn(x, parent, v, target, t);
    OneMoreStep(x, parent, v, target, t);
    if what.ToUnion? {
      assert MemberOk(x.schema, x.schema.enums[what.enumIndex][what.value]);
    }
  }
}
