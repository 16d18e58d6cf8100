/** What holds of every region list, whatever the binary: it stays inside, and it only refers forward. */
module WalkFacts {
  import opened Bytes
  import opened Schema
  import opened StableSorting
  import opened Walks

  /** A region that is not empty lies inside the binary. */
  predicate InBinary(b: seq<byte>, r: Region) {
    r.length > 0 ==> r.offset + r.length <= |b|
  }

  /** A region of a section at key: inside the binary, not before the key, ending behind it, and no cycle. */
  predicate RegionOk(b: seq<byte>, key: nat, r: Region) {
    InBinary(b, r) && key <= r.offset && key < r.offset + r.length && r.status != CycleDetected
  }

  /**
   * What the region refers to is in the binary, as far off as the region's bytes say, and strictly behind the key; only
   * a 64-bit offset that wraps around can lead elsewhere, and then to something that refers to nothing itself.
   */
  predicate Ahead(b: seq<byte>, key: nat, r: Region) {
    r.refersTo != Nothing ==>
      && 0 <= r.target < |b|
      && match Read(b, r.offset, r.length)
         case None => false
         case Some(v) =>
           if r.ty == UOffset64 then
             && r.target == (r.offset + v) % U64 && (r.offset + v < U64 ==> key < r.target)
             && (r.refersTo.ToString? || (r.refersTo.ToVector? && IsLeaf(r.refersTo.element)))
           else r.target == r.offset + v && key < r.target
  }

  ghost predicate AllOk(b: seq<byte>, key: nat, rs: seq<Region>) {
    forall r :: r in rs ==> RegionOk(b, key, r)
  }

  ghost predicate AllAhead(b: seq<byte>, key: nat, rs: seq<Region>) {
    forall r :: r in rs ==> Ahead(b, key, r)
  }

  lemma Pow8()
    ensures Pow256(8) == U64
  {
    assert Pow256(4) == 0x1_0000_0000;
    assert Pow256(6) == 0x1_0000_0000_0000;
  }

  /** A 64-bit reference leads back in front of its own place exactly if its offset wraps around. */
  lemma ForwardIff(b: seq<byte>, key: nat, r: Region, v: nat)
    requires |b| <= U64 && Ahead(b, key, r) && r.refersTo != Nothing && r.ty == UOffset64 && r.length == 8
    requires Read(b, r.offset, 8) == Some(v)
    ensures r.target >= r.offset <==> r.offset + v < U64
  {
    FromLEBound(b[r.offset..r.offset + 8]);
    Pow8();
    var wraps := if r.offset + v < U64 then 0 else 1;
    DivModUnique(r.offset + v, U64, wraps, r.offset + v - U64 * wraps);
  }

  function EndOf(r: Region): nat {
    r.offset + r.length
  }

  /** The regions t lie end to end, from offset on. */
  predicate Contiguous(t: seq<Region>, offset: nat) {
    forall i :: 0 <= i < |t| ==> t[i].offset == if i == 0 then offset else EndOf(t[i - 1])
  }

  // ---------------------------------------------------------------- structs

  /** A walk from offset stays behind it and inside the binary, and refers to nothing. */
  ghost predicate Safe(b: seq<byte>, offset: nat, w: Walk) {
    w.end >= offset && forall r :: r in w.regions ==>
      InBinary(b, r) && r.offset >= offset && r.status != CycleDetected && r.refersTo == Nothing
  }

  /** A walk that starts inside the binary makes progress from its first region on. */
  ghost predicate Moves(b: seq<byte>, offset: nat, w: Walk) {
    offset < |b| ==>
      && w.end > offset && w.regions != [] && w.regions[0].offset == offset
      && forall r :: r in w.regions ==> r.offset + r.length > offset
  }

  lemma Then(b: seq<byte>, offset: nat, w: Walk, v: Walk)
    requires Safe(b, offset, w) && Safe(b, w.end, v)
    ensures Safe(b, offset, Walk(w.regions + v.regions, v.end))
    ensures Moves(b, offset, w) ==> Moves(b, offset, Walk(w.regions + v.regions, v.end))
  {
  }

  lemma {:induction false} StructFacts(b: seq<byte>, offset: nat, def: StructDef)
    requires StructOk(def)
    ensures Safe(b, offset, StructWalk(b, offset, def)) && Moves(b, offset, StructWalk(b, offset, def))
    decreases def, 0
  {
    FieldsFacts(b, offset, def.fields);
  }

  lemma {:induction false} FieldsFacts(b: seq<byte>, offset: nat, fields: seq<StructField>)
    requires forall f :: f in fields ==> FieldTypeOk(f.ty)
    ensures Safe(b, offset, FieldsWalk(b, offset, fields))
    ensures fields != [] ==> Moves(b, offset, FieldsWalk(b, offset, fields))
    decreases fields, 0
  {
    if fields != [] {
      var f := fields[0];
      assert f.ty < f;
      var w := FieldWalk(b, offset, f.ty);
      var p := PaddingWalk(b, w.end, f.padding);
      FieldFacts(b, offset, f.ty);
      FieldsFacts(b, p.end, fields[1..]);
      Then(b, offset, w, p);
      Then(b, offset, Walk(w.regions + p.regions, p.end), FieldsWalk(b, p.end, fields[1..]));
    }
  }

  lemma {:induction false} FieldFacts(b: seq<byte>, offset: nat, ty: StructFieldType)
    requires FieldTypeOk(ty)
    ensures Safe(b, offset, FieldWalk(b, offset, ty)) && Moves(b, offset, FieldWalk(b, offset, ty))
    decreases ty, 0
  {
    match ty
    case ScalarField(base) =>
    case NestedField(def) => StructFacts(b, offset, def);
    case ScalarArray(base, n) => ScalarArrayFacts(b, offset, base, n);
    case StructArray(def, n) => StructArrayFacts(b, offset, def, n);
  }

  lemma {:induction false} ScalarArrayFacts(b: seq<byte>, offset: nat, base: BaseType, n: nat)
    ensures Safe(b, offset, ScalarArrayWalk(b, offset, base, n))
    ensures n > 0 ==> Moves(b, offset, ScalarArrayWalk(b, offset, base, n))
    decreases n
  {
    if n > 0 && IsValidRead(b, offset, TypeSize(base)) {
      var w := ScalarWalk(b, offset, base);
      ScalarArrayFacts(b, w.end, base, n - 1);
      Then(b, offset, w, ScalarArrayWalk(b, w.end, base, n - 1));
    }
  }

  lemma {:induction false} StructArrayFacts(b: seq<byte>, offset: nat, def: StructDef, n: nat)
    requires StructOk(def)
    ensures Safe(b, offset, StructArrayWalk(b, offset, def, n))
    ensures n > 0 ==> Moves(b, offset, StructArrayWalk(b, offset, def, n))
    decreases def, n
  {
    if n > 0 {
      var w := StructWalk(b, offset, def);
      StructFacts(b, offset, def);
      StructArrayFacts(b, w.end, def, n - 1);
      Then(b, offset, w, StructArrayWalk(b, w.end, def, n - 1));
    }
  }

  // ---------------------------------------------------------------- headers, strings and vtables

  lemma HeaderFacts(s: Schema, b: seq<byte>, isSizePrefixed: bool)
    requires |b| >= MIN_BUFFER_SIZE
    ensures var rs := HeaderRegions(s, b, isSizePrefixed); rs != [] && rs[0].offset == 0 && AllOk(b, 0, rs)
  {
  }

  lemma StringFacts(b: seq<byte>, offset: nat)
    requires IsValidOffset(b, offset)
    ensures var rs := StringRegions(b, offset);
            rs != [] && rs[0].offset == offset && AllOk(b, offset, rs) && AllAhead(b, offset, rs)
  {
  }

  /** The scan of vtable entries: regions behind the fixed part, and entries that carry the schema's own fields. */
  ghost predicate ScanOk(b: seq<byte>, offset: nat, fields: seq<Field>, scan: EntryScan) {
    && AllOk(b, offset, scan.regions)
    && (forall r :: r in scan.regions ==> r.refersTo == Nothing)
    && EntriesOk(fields, scan.fields)
  }

  ghost predicate EntriesOk(fields: seq<Field>, entries: map<nat, Entry>) {
    forall id :: id in entries ==> EntryOk(fields, id, entries[id])
  }

  predicate EntryOk(fields: seq<Field>, id: nat, e: Entry) {
    e.id == id && (e.field.Some? ==> id < |fields| && e.field.value == fields[id])
  }

  lemma {:induction false} KnownFacts(b: seq<byte>, offset: nat, size: nat, referrer: nat, fields: seq<Field>, n: nat)
    requires n <= |fields|
    ensures ScanOk(b, offset, fields, KnownEntries(b, offset, size, referrer, fields, n))
  {
    if n > 0 {
      KnownFacts(b, offset, size, referrer, fields, n - 1);
    }
  }

  lemma {:induction false} UnknownFacts(b: seq<byte>, offset: nat, lo: nat, hi: nat, fields: seq<Field>,
                                        scan: EntryScan)
    requires ScanOk(b, offset, fields, scan)
    ensures ScanOk(b, offset, fields, UnknownEntries(b, offset, lo, hi, scan))
    decreases hi
  {
    if lo < hi {
      UnknownFacts(b, offset, lo, hi - 1, fields, scan);
    }
  }

  lemma VTableFacts(s: Schema, b: seq<byte>, offset: nat, table: nat, referrer: nat)
    requires |b| >= MIN_BUFFER_SIZE && table < |s.tables| && IsValidOffset(b, offset)
    ensures match VTableAt(s, b, offset, table, referrer)
            case Bad(error) => error.offset == offset && RegionOk(b, offset, error) && error.refersTo == Nothing
            case Good(rs, v) =>
              && rs != [] && rs[0].offset == offset && AllOk(b, offset, rs)
              && (forall r :: r in rs ==> r.refersTo == Nothing)
              && v.table == table && EntriesOk(s.tables[table], v.fields)
  {
    if VTableAt(s, b, offset, table, referrer).Good? {
      var fields, size := s.tables[table], Read(b, offset, 2).value;
      var known := KnownEntries(b, offset, size, referrer, fields, |fields|);
      KnownFacts(b, offset, size, referrer, fields, |fields|);
      UnknownFacts(b, offset, known.processed, EntryCount(size, known.processed), fields, known);
    }
  }

  /** Every entry holds what the vtable has at the place for its id. */
  ghost predicate EntriesStored(b: seq<byte>, offset: nat, entries: map<nat, Entry>) {
    forall id :: id in entries ==> Read(b, offset + 4 + 2 * id, 2) == Some(entries[id].offset)
  }

  /** The vtable has a place for the field id, and the offset there is inside the binary as seen from the table. */
  predicate Listed(b: seq<byte>, offset: nat, size: nat, referrer: nat, id: nat) {
    var at := offset + 4 + 2 * id;
    at < offset + size && Read(b, at, 2).Some? && IsValidOffset(b, referrer + Read(b, at, 2).value - 1)
  }

  lemma {:induction false} KnownStored(b: seq<byte>, offset: nat, size: nat, referrer: nat, fields: seq<Field>, n: nat)
    requires n <= |fields|
    ensures EntriesStored(b, offset, KnownEntries(b, offset, size, referrer, fields, n).fields)
  {
    if n > 0 {
      KnownStored(b, offset, size, referrer, fields, n - 1);
    }
  }

  lemma {:induction false} KnownListed(b: seq<byte>, offset: nat, size: nat, referrer: nat, fields: seq<Field>,
                                       n: nat, id: nat)
    requires n <= |fields|
    ensures var known := KnownEntries(b, offset, size, referrer, fields, n).fields;
            && (id in known <==> id < n && Listed(b, offset, size, referrer, id))
            && (id in known ==> known[id].field == Some(fields[id]))
  {
    if n > 0 {
      KnownListed(b, offset, size, referrer, fields, n - 1, id);
    }
  }

  lemma {:induction false} UnknownStored(b: seq<byte>, offset: nat, lo: nat, hi: nat, scan: EntryScan)
    requires EntriesStored(b, offset, scan.fields)
    ensures var all := UnknownEntries(b, offset, lo, hi, scan).fields;
            EntriesStored(b, offset, all) && forall id :: id in scan.fields ==> id in all && all[id] == scan.fields[id]
    decreases hi
  {
    if lo < hi {
      UnknownStored(b, offset, lo, hi - 1, scan);
    }
  }

  /**
   * The entries of a vtable are read where they belong; and a field of the schema that the vtable lists, with an offset
   * inside the binary, has one.
   */
  lemma VTableEntriesStored(s: Schema, b: seq<byte>, offset: nat, table: nat, referrer: nat)
    requires |b| >= MIN_BUFFER_SIZE && table < |s.tables| && VTableAt(s, b, offset, table, referrer).Good?
    ensures var entries := VTableAt(s, b, offset, table, referrer).vtable.fields;
            && EntriesStored(b, offset, entries)
            && forall id :: 0 <= id < |s.tables[table]| && Listed(b, offset, Read(b, offset, 2).value, referrer, id) ==>
                 id in entries && entries[id].field == Some(s.tables[table][id])
  {
    var fields, size := s.tables[table], Read(b, offset, 2).value;
    var known := KnownEntries(b, offset, size, referrer, fields, |fields|);
    KnownStored(b, offset, size, referrer, fields, |fields|);
    UnknownStored(b, offset, known.processed, EntryCount(size, known.processed), known);
    forall id | 0 <= id < |fields| && Listed(b, offset, size, referrer, id)
      ensures id in known.fields && known.fields[id].field == Some(fields[id])
    {
      KnownListed(b, offset, size, referrer, fields, |fields|, id);
    }
  }

  /** As seen from two tables the vtable lists the same of its first n fields. */
  predicate ListsSame(b: seq<byte>, offset: nat, size: nat, r: nat, q: nat, n: nat) {
    forall id :: 0 <= id < n ==> (Listed(b, offset, size, r, id) <==> Listed(b, offset, size, q, id))
  }

  lemma {:induction false} KnownSame(b: seq<byte>, offset: nat, size: nat, r: nat, q: nat, fields: seq<Field>, n: nat)
    requires n <= |fields| && ListsSame(b, offset, size, r, q, n)
    ensures KnownEntries(b, offset, size, r, fields, n) == KnownEntries(b, offset, size, q, fields, n)
  {
    if n > 0 {
      KnownSame(b, offset, size, r, q, fields, n - 1);
      assert Listed(b, offset, size, r, n - 1) <==> Listed(b, offset, size, q, n - 1);
    }
  }

  lemma {:induction false} UnknownAdds(b: seq<byte>, offset: nat, lo: nat, hi: nat, scan: EntryScan, id: nat)
    requires id !in scan.fields
    ensures var all := UnknownEntries(b, offset, lo, hi, scan).fields; id in all ==> all[id].field == None
    decreases hi
  {
    if lo < hi {
      UnknownAdds(b, offset, lo, hi - 1, scan, id);
    }
  }

  /** A field of the schema has an entry that carries it exactly if the vtable lists it. */
  lemma FieldEntryIff(s: Schema, b: seq<byte>, offset: nat, table: nat, referrer: nat, id: nat)
    requires |b| >= MIN_BUFFER_SIZE && table < |s.tables| && VTableAt(s, b, offset, table, referrer).Good?
    requires id < |s.tables[table]|
    ensures var entries := VTableAt(s, b, offset, table, referrer).vtable.fields;
            id in entries && entries[id].field == Some(s.tables[table][id])
            <==> Listed(b, offset, Read(b, offset, 2).value, referrer, id)
  {
    var fields, size := s.tables[table], Read(b, offset, 2).value;
    var known := KnownEntries(b, offset, size, referrer, fields, |fields|);
    KnownListed(b, offset, size, referrer, fields, |fields|, id);
    if id in known.fields {
      VTableEntriesStored(s, b, offset, table, referrer);
    } else {
      UnknownAdds(b, offset, known.processed, EntryCount(size, known.processed), known, id);
    }
  }

  /** Exactly when a vtable reads the same for two tables, so that sharing it changes nothing. */
  lemma SharedIff(s: Schema, b: seq<byte>, offset: nat, table: nat, r: nat, q: nat)
    requires |b| >= MIN_BUFFER_SIZE && table < |s.tables| && IsUsable(b, offset)
    ensures VTableAt(s, b, offset, table, r).vtable == VTableAt(s, b, offset, table, q).vtable
            <==> ListsSame(b, offset, Read(b, offset, 2).value, r, q, |s.tables[table]|)
  {
    var fields, size := s.tables[table], Read(b, offset, 2).value;
    if ListsSame(b, offset, size, r, q, |fields|) {
      KnownSame(b, offset, size, r, q, fields, |fields|);
    }
    if VTableAt(s, b, offset, table, r).vtable == VTableAt(s, b, offset, table, q).vtable {
      forall id | 0 <= id < |fields|
        ensures Listed(b, offset, size, r, id) <==> Listed(b, offset, size, q, id)
      {
        FieldEntryIff(s, b, offset, table, r, id);
        FieldEntryIff(s, b, offset, table, q, id);
      }
    }
  }

  // ---------------------------------------------------------------- tables

  lemma {:induction false} ListingFacts(fields: map<nat, Entry>, below: nat)
    ensures forall e :: e in Listing(fields, below) ==> exists id :: id in fields && fields[id] == e
    ensures forall id :: id in fields && id < below ==> fields[id] in Listing(fields, below)
  {
    if below > 0 {
      ListingFacts(fields, below - 1);
    }
  }

  /** The entries in table order are those of the vtable with 16-bit ids, by ascending offset. */
  lemma TableOrderFacts(vtable: VTable)
    ensures var order := InTableOrder(vtable);
            && Sorted(order, (e: Entry) => e.offset)
            && (forall e :: e in order ==> exists id :: id in vtable.fields && vtable.fields[id] == e)
            && (forall id :: id in vtable.fields && id < U16 ==> vtable.fields[id] in order)
  {
    var key := (e: Entry) => e.offset;
    var listing := Listing(vtable.fields, U16);
    ListingFacts(vtable.fields, U16);
    StableSortIsStable(listing, key);
    forall e
      ensures e in StableSort(listing, key) <==> e in listing
    {
      assert e in StableSort(listing, key) <==> e in multiset(StableSort(listing, key));
      assert e in listing <==> e in multiset(listing);
    }
  }

  /** Offset fields lead ahead of the field itself, and so of the table, unless a 64-bit offset wraps around. */
  lemma OffsetFieldFacts(s: Schema, b: seq<byte>, table: nat, at: nat, id: nat, f: Field, entries: map<nat, Entry>)
    requires |b| >= MIN_BUFFER_SIZE && IsValidOffset(b, table) && table < at && IsValidOffset(b, at)
    requires !f.ty.Scalar? && !f.ty.Struct? && Offset64Ok(f)
    ensures var rs := OffsetFieldRegions(s, b, table, at, id, f, entries);
            AllOk(b, table, rs) && AllAhead(b, table, rs)
  {
  }

  lemma TableFieldFacts(s: Schema, b: seq<byte>, offset: nat, vtable: VTable, order: seq<Entry>, i: nat)
    requires |b| >= MIN_BUFFER_SIZE && IsValidOffset(b, offset) && i < |order|
    requires order[i].field.Some? ==> FieldOk(s, order[i].field.value)
    ensures var rs := TableFieldRegions(s, b, offset, vtable, order, i);
            AllOk(b, offset, rs) && AllAhead(b, offset, rs)
  {
    var e := order[i];
    var at := offset + e.offset;
    if e.offset != 0 && IsValidOffset(b, at) {
      match e.field
      case None =>
      case Some(f) =>
        match f.ty
        case Scalar(_, _) =>
        case Struct(def) => StructFacts(b, at, def);
        case _ => OffsetFieldFacts(s, b, offset, at, e.id, f, vtable.fields);
    }
  }

  lemma {:induction false} TableFieldsFacts(s: Schema, b: seq<byte>, offset: nat, vtable: VTable, order: seq<Entry>,
                                            n: nat)
    requires |b| >= MIN_BUFFER_SIZE && IsValidOffset(b, offset) && n <= |order|
    requires forall i :: 0 <= i < |order| && order[i].field.Some? ==> FieldOk(s, order[i].field.value)
    ensures var rs := TableFieldsRegions(s, b, offset, vtable, order, n);
            AllOk(b, offset, rs) && AllAhead(b, offset, rs)
  {
    if n > 0 {
      TableFieldsFacts(s, b, offset, vtable, order, n - 1);
      TableFieldFacts(s, b, offset, vtable, order, n - 1);
    }
  }

  lemma OrderFieldsOk(s: Schema, vtable: VTable)
    requires WellFormed(s) && vtable.table < |s.tables| && EntriesOk(s.tables[vtable.table], vtable.fields)
    ensures var order := InTableOrder(vtable);
            forall i :: 0 <= i < |order| && order[i].field.Some? ==> FieldOk(s, order[i].field.value)
  {
    TableOrderFacts(vtable);
    var order := InTableOrder(vtable);
    forall i | 0 <= i < |order| && order[i].field.Some?
      ensures FieldOk(s, order[i].field.value)
    {
      assert order[i] in order;
      var id :| id in vtable.fields && vtable.fields[id] == order[i];
      assert EntryOk(s.tables[vtable.table], id, vtable.fields[id]);
    }
  }

  lemma TableFacts(s: Schema, b: seq<byte>, offset: nat, vtable: VTable)
    requires |b| >= MIN_BUFFER_SIZE && IsValidOffset(b, offset) && VTableLocation(b, offset).Some?
    requires WellFormed(s) && vtable.table < |s.tables| && EntriesOk(s.tables[vtable.table], vtable.fields)
    ensures var rs := TableRegions(s, b, offset, vtable);
            rs != [] && rs[0].offset == offset && AllOk(b, offset, rs) && AllAhead(b, offset, rs)
  {
    var order := InTableOrder(vtable);
    OrderFieldsOk(s, vtable);
    TableFieldsFacts(s, b, offset, vtable, order, |order|);
    var first := Region(offset, 4, SOffset, Ok, VTableLocation(b, offset).value, Nothing);
    PaddedFacts(b, first, TableFieldsRegions(s, b, offset, vtable, order, |order|),
                TableEnd(b, offset, vtable.tableSize));
  }

  lemma PaddedFacts(b: seq<byte>, first: Region, fields: seq<Region>, end: nat)
    requires first.length > 0 && InBinary(b, first) && first.status == Ok && first.refersTo == Nothing
    requires AllOk(b, first.offset, fields) && AllAhead(b, first.offset, fields) && end <= |b|
    ensures var rs := [first] + fields;
            var all := rs + TablePadding(rs[|rs| - 1], end);
            AllOk(b, first.offset, all) && AllAhead(b, first.offset, all)
  {
    var rs := [first] + fields;
    assert rs[|rs| - 1] in rs;
  }

  /** The offsets of a vtable's entries that the table lists are all of them: ids are 16-bit numbers. */
  lemma {:induction false} KnownIds(b: seq<byte>, offset: nat, size: nat, referrer: nat, fields: seq<Field>, n: nat)
    requires n <= |fields|
    ensures forall id :: id in KnownEntries(b, offset, size, referrer, fields, n).fields ==> id < n
  {
    if n > 0 {
      KnownIds(b, offset, size, referrer, fields, n - 1);
    }
  }

  lemma {:induction false} UnknownIds(b: seq<byte>, offset: nat, lo: nat, hi: nat, scan: EntryScan, bound: nat)
    requires hi <= bound && forall id :: id in scan.fields ==> id < bound
    ensures forall id :: id in UnknownEntries(b, offset, lo, hi, scan).fields ==> id < bound
    decreases hi
  {
    if lo < hi {
      UnknownIds(b, offset, lo, hi - 1, scan, bound);
    }
  }

  lemma VTableIds(s: Schema, b: seq<byte>, offset: nat, table: nat, referrer: nat)
    requires |b| >= MIN_BUFFER_SIZE && WellFormed(s) && table < |s.tables|
    requires VTableAt(s, b, offset, table, referrer).Good?
    ensures forall id :: id in VTableAt(s, b, offset, table, referrer).vtable.fields ==> id < U16
  {
    var fields, size := s.tables[table], Read(b, offset, 2).value;
    var known := KnownEntries(b, offset, size, referrer, fields, |fields|);
    KnownIds(b, offset, size, referrer, fields, |fields|);
    UnknownIds(b, offset, known.processed, EntryCount(size, known.processed), known, U16);
  }

  /**
   * A union field gets a region at its place: its offset is unusable, which is reported, or its type can be read and
   * is valid.
   */
  predicate UnionFieldShown(s: Schema, b: seq<byte>, table: nat, at: nat, id: nat, enumId: nat,
                            entries: map<nat, Entry>)
  {
    var offset := match Read(b, at, 4) case Some(v) => v case None => 0;
    var typeId := (id + U16 - 1) % U16;
    || offset == 0 || !IsValidOffset(b, at + offset)
    || (typeId in entries && Read(b, table + entries[typeId].offset, 1).Some?
        && IsValidUnionValue(s, enumId, Read(b, table + entries[typeId].offset, 1).value))
  }

  lemma UnionFieldIff(s: Schema, b: seq<byte>, table: nat, at: nat, id: nat, f: Field, entries: map<nat, Entry>)
    requires |b| >= MIN_BUFFER_SIZE && IsValidOffset(b, at) && f.ty.Union? && Offset64Ok(f)
    ensures (exists r :: r in OffsetFieldRegions(s, b, table, at, id, f, entries) && r.offset == at)
            <==> UnionFieldShown(s, b, table, at, id, f.ty.enumId, entries)
  {
    var rs := OffsetFieldRegions(s, b, table, at, id, f, entries);
    if UnionFieldShown(s, b, table, at, id, f.ty.enumId, entries) {
      assert rs[0] in rs && rs[0].offset == at;
    }
  }

  /**
   * The entry is for a field of the schema that is present, and that gets a region: all do but unions that are not
   * shown.
   */
  predicate IsShown(s: Schema, b: seq<byte>, offset: nat, e: Entry, entries: map<nat, Entry>) {
    && e.offset != 0 && IsValidOffset(b, offset + e.offset) && e.field.Some?
    && (e.field.value.ty.Union? ==>
          UnionFieldShown(s, b, offset, offset + e.offset, e.id, e.field.value.ty.enumId, entries))
  }

  /**
   * No field that is present is passed over: every entry for a field of the schema whose offset lies in the binary
   * has a region there, if it is a union only when that is shown.
   */
  lemma TableCoversFields(s: Schema, b: seq<byte>, offset: nat, vtable: VTable, id: nat)
    requires |b| >= MIN_BUFFER_SIZE && WellFormed(s) && vtable.table < |s.tables|
    requires EntriesOk(s.tables[vtable.table], vtable.fields)
    requires VTableLocation(b, offset).Some? && id < U16 && id in vtable.fields
    requires IsShown(s, b, offset, vtable.fields[id], vtable.fields)
    ensures exists r :: r in TableRegions(s, b, offset, vtable) && r.offset == offset + vtable.fields[id].offset
  {
    var e, order := vtable.fields[id], InTableOrder(vtable);
    TableOrderFacts(vtable);
    var i :| 0 <= i < |order| && order[i] == e;
    assert EntryOk(s.tables[vtable.table], id, e);
    var r := FieldHasRegion(s, b, offset, vtable, order, i);
    TableFieldsContain(s, b, offset, vtable, order, i, |order|, r);
    FieldsInTable(s, b, offset, vtable, r);
  }

  lemma FieldHasRegion(s: Schema, b: seq<byte>, offset: nat, vtable: VTable, order: seq<Entry>, i: nat)
    returns (r: Region)
    requires |b| >= MIN_BUFFER_SIZE && i < |order| && IsShown(s, b, offset, order[i], vtable.fields)
    requires FieldOk(s, order[i].field.value)
    ensures r in TableFieldRegions(s, b, offset, vtable, order, i) && r.offset == offset + order[i].offset
  {
    var at, f := offset + order[i].offset, order[i].field.value;
    if f.ty.Union? {
      UnionFieldIff(s, b, offset, at, order[i].id, f, vtable.fields);
      r :| r in OffsetFieldRegions(s, b, offset, at, order[i].id, f, vtable.fields) && r.offset == at;
    } else {
      if f.ty.Struct? {
        StructFacts(b, at, f.ty.def);
      }
      r := TableFieldRegions(s, b, offset, vtable, order, i)[0];
    }
  }

  lemma FieldsInTable(s: Schema, b: seq<byte>, offset: nat, vtable: VTable, r: Region)
    requires VTableLocation(b, offset).Some?
    requires r in TableFieldsRegions(s, b, offset, vtable, InTableOrder(vtable), |InTableOrder(vtable)|)
    ensures r in TableRegions(s, b, offset, vtable)
  {
  }

  lemma {:induction false} TableFieldsContain(s: Schema, b: seq<byte>, offset: nat, vtable: VTable, order: seq<Entry>,
                                              i: nat, n: nat, r: Region)
    requires i < n <= |order| && r in TableFieldRegions(s, b, offset, vtable, order, i)
    ensures r in TableFieldsRegions(s, b, offset, vtable, order, n)
    decreases n
  {
    if i < n - 1 {
      TableFieldsContain(s, b, offset, vtable, order, i, n - 1, r);
    }
  }

  // ---------------------------------------------------------------- vectors

  lemma {:induction false} OffsetElementsFacts(b: seq<byte>, key: nat, at: nat, n: nat, refersTo: Referent, parent: nat)
    requires parent < key < at
    ensures var rs := OffsetElements(b, at, n, refersTo, parent); AllOk(b, key, rs) && AllAhead(b, key, rs)
    decreases n
  {
    if n > 0 && Read(b, at, 4) != None {
      OffsetElementsFacts(b, key, at + 4, n - 1, refersTo, parent);
    }
  }

  lemma {:induction false} StructElementsFacts(b: seq<byte>, key: nat, at: nat, def: StructDef, n: nat)
    requires key < at && StructOk(def)
    ensures var rs := StructElements(b, at, def, n); AllOk(b, key, rs) && AllAhead(b, key, rs)
    decreases n
  {
    if n > 0 {
      var w := StructWalk(b, at, def);
      StructFacts(b, at, def);
      if w.end != at {
        StructElementsFacts(b, key, w.end, def, n - 1);
      }
    }
  }

  lemma {:induction false} ScalarElementsFacts(s: Schema, b: seq<byte>, key: nat, at: nat, base: BaseType,
                                               enumIndex: int, n: nat)
    requires key < at
    ensures var rs := ScalarElements(s, b, at, base, enumIndex, n); AllOk(b, key, rs) && AllAhead(b, key, rs)
    decreases n
  {
    if n > 0 && IsValidRead(b, at, TypeSize(base)) {
      ScalarElementsFacts(s, b, key, at + TypeSize(base), base, enumIndex, n - 1);
    }
  }

  lemma {:induction false} UnionElementsFacts(s: Schema, b: seq<byte>, key: nat, at: nat, typeAt: nat, typeEnum: int,
                                              enumId: nat, n: nat)
    requires key < at
    ensures var rs := UnionElements(s, b, at, typeAt, typeEnum, enumId, n); AllOk(b, key, rs) && AllAhead(b, key, rs)
    decreases n
  {
    if n > 0 {
      var step := UnionElementStep(s, b, at, typeAt, typeEnum, enumId);
      if !step.stop {
        UnionElementsFacts(s, b, key, step.next, typeAt + 1, typeEnum, enumId, n - 1);
      }
    }
  }

  lemma ElementFacts(s: Schema, b: seq<byte>, key: nat, at: nat, n: nat, e: ElementType,
                     id: nat, parent: nat, entries: map<nat, Entry>)
    requires key < at && ElementOk(s, e) && (IsLeaf(e) || parent < key)
    ensures var rs := ElementRegions(s, b, at, n, e, id, parent, entries); AllOk(b, key, rs) && AllAhead(b, key, rs)
  {
    match e
    case ScalarElement(base, enumIndex) => ScalarElementsFacts(s, b, key, at, base, enumIndex, n);
    case StructElement(def) => StructElementsFacts(b, key, at, def, n);
    case TableElement(t) => OffsetElementsFacts(b, key, at, n, ToTable(t), parent);
    case StringElement => OffsetElementsFacts(b, key, at, n, ToString, parent);
    case UnionElement(enumId) =>
      match UnionTypesOf(b, id, parent, entries)
      case TypesAt(typeAt, typeEnum) => UnionElementsFacts(s, b, key, at, typeAt, typeEnum, enumId, n);
      case _ =>
  }

  lemma VectorFacts(s: Schema, b: seq<byte>, offset: nat, e: ElementType, is64: bool,
                    id: nat, parent: nat, entries: map<nat, Entry>)
    requires IsValidOffset(b, offset) && ElementOk(s, e) && (IsLeaf(e) || parent < offset)
    ensures var rs := VectorRegions(s, b, offset, e, is64, id, parent, entries);
            rs != [] && rs[0].offset == offset && AllOk(b, offset, rs) && AllAhead(b, offset, rs)
  {
    match VectorStartAt(b, offset, e, is64)
    case BadVector(_) =>
    case Elements(length, n) =>
      ElementFacts(s, b, offset, offset + length.length, n, e, id, parent, entries);
      VectorRegionsAre(s, b, offset, e, is64, id, parent, entries, length, n);
      LengthInFront(b, offset, length, ElementRegions(s, b, offset + length.length, n, e, id, parent, entries));
  }

  lemma LengthInFront(b: seq<byte>, offset: nat, length: Region, rs: seq<Region>)
    requires RegionOk(b, offset, length) && length.refersTo == Nothing && AllOk(b, offset, rs)
             && AllAhead(b, offset, rs)
    ensures AllOk(b, offset, [length] + rs) && AllAhead(b, offset, [length] + rs)
  {
  }

  /**
   * What an element of a vector refers to is of the vector's own kind; a union's value is valid for the types' enum.
   */
  ghost predicate ElementRefersTo(s: Schema, e: ElementType, types: UnionTypes, r: Region) {
    r.refersTo != Nothing ==>
      && r.ty == UOffset
      && match e
         case TableElement(t) => r.refersTo == ToTable(t)
         case StringElement => r.refersTo == ToString
         case UnionElement(u) =>
           && r.refersTo.ToUnion? && r.refersTo.enumIndex == u
           && types.TypesAt? && IsValidUnionValue(s, types.typeEnum, r.refersTo.value)
         case _ => false
  }

  lemma {:induction false} OffsetElementsRefer(b: seq<byte>, at: nat, n: nat, refersTo: Referent, parent: nat)
    ensures forall r :: r in OffsetElements(b, at, n, refersTo, parent) && r.refersTo != Nothing ==>
              r.refersTo == refersTo && r.ty == UOffset
    decreases n
  {
    if n > 0 {
      OffsetElementsRefer(b, at + 4, n - 1, refersTo, parent);
    }
  }

  lemma {:induction false} UnionElementsRefer(s: Schema, b: seq<byte>, at: nat, typeAt: nat, typeEnum: int,
                                              enumId: nat, n: nat)
    ensures forall r :: r in UnionElements(s, b, at, typeAt, typeEnum, enumId, n) && r.refersTo != Nothing ==>
              && r.refersTo.ToUnion? && r.refersTo.enumIndex == enumId && r.ty == UOffset
              && IsValidUnionValue(s, typeEnum, r.refersTo.value)
    decreases n
  {
    if n > 0 {
      UnionElementsRefer(s, b, UnionElementStep(s, b, at, typeAt, typeEnum, enumId).next, typeAt + 1, typeEnum,
                         enumId, n - 1);
    }
  }

  lemma {:induction false} InlineElementsRefer(s: Schema, b: seq<byte>, at: nat, base: BaseType, enumIndex: int, n: nat)
    ensures forall r :: r in ScalarElements(s, b, at, base, enumIndex, n) ==> r.refersTo == Nothing
    decreases n
  {
    if n > 0 {
      InlineElementsRefer(s, b, at + TypeSize(base), base, enumIndex, n - 1);
    }
  }

  lemma {:induction false} StructElementsRefer(b: seq<byte>, at: nat, def: StructDef, n: nat)
    requires StructOk(def)
    ensures forall r :: r in StructElements(b, at, def, n) ==> r.refersTo == Nothing
    decreases n
  {
    if n > 0 {
      StructFacts(b, at, def);
      StructElementsRefer(b, StructWalk(b, at, def).end, def, n - 1);
    }
  }

  /** Every reference in a vector is of the kind that the schema says. */
  lemma VectorRefers(s: Schema, b: seq<byte>, offset: nat, e: ElementType, is64: bool,
                     id: nat, parent: nat, entries: map<nat, Entry>, r: Region)
    requires ElementOk(s, e) && r in VectorRegions(s, b, offset, e, is64, id, parent, entries)
    ensures ElementRefersTo(s, e, UnionTypesOf(b, id, parent, entries), r)
  {
    var start := VectorStartAt(b, offset, e, is64);
    if start.Elements? {
      var at := offset + start.length.length;
      match e
      case ScalarElement(base, enumIndex) => InlineElementsRefer(s, b, at, base, enumIndex, start.n);
      case StructElement(def) => StructElementsRefer(b, at, def, start.n);
      case TableElement(t) => OffsetElementsRefer(b, at, start.n, ToTable(t), parent);
      case StringElement => OffsetElementsRefer(b, at, start.n, ToString, parent);
      case UnionElement(enumId) =>
        match UnionTypesOf(b, id, parent, entries)
        case TypesAt(typeAt, typeEnum) => UnionElementsRefer(s, b, at, typeAt, typeEnum, enumId, start.n);
        case _ =>
    }
  }

  /** An element takes size bytes at its place. */
  predicate ElementsAt(rs: seq<Region>, at: nat, size: nat) {
    forall i :: 0 <= i < |rs| ==> rs[i].offset == at + i * size && rs[i].length == size
  }

  lemma ElementsCons(r: Region, rs: seq<Region>, at: nat, size: nat)
    requires r.offset == at && r.length == size && ElementsAt(rs, at + size, size)
    ensures ElementsAt([r] + rs, at, size)
  {
    forall i | 0 <= i < |rs| + 1
      ensures ([r] + rs)[i].offset == at + i * size && ([r] + rs)[i].length == size
    {
      if i > 0 {
        assert rs[i - 1].offset == at + size + (i - 1) * size;
      }
    }
  }

  lemma {:induction false} ScalarElementsComplete(s: Schema, b: seq<byte>, at: nat, base: BaseType, enumIndex: int,
                                                  n: nat)
    requires |b| >= MIN_BUFFER_SIZE && at + n * TypeSize(base) <= |b|
    ensures var rs := ScalarElements(s, b, at, base, enumIndex, n); |rs| == n && ElementsAt(rs, at, TypeSize(base))
    decreases n
  {
    if n > 0 {
      var size := TypeSize(base);
      assert at + size + (n - 1) * size == at + n * size;
      MulNonNegative(n - 1, size);
      ScalarElementsComplete(s, b, at + size, base, enumIndex, n - 1);
      ElementsCons(ScalarElementRegion(s, b, at, base, enumIndex),
                   ScalarElements(s, b, at + size, base, enumIndex, n - 1), at, size);
    }
  }

  lemma MulNonNegative(n: nat, size: nat)
    ensures n * size >= 0
  {
  }

  lemma {:induction false} OffsetElementsComplete(b: seq<byte>, at: nat, n: nat, refersTo: Referent, parent: nat)
    requires |b| >= MIN_BUFFER_SIZE && at + 4 * n <= |b|
    ensures var rs := OffsetElements(b, at, n, refersTo, parent); |rs| == n && ElementsAt(rs, at, 4)
    decreases n
  {
    if n > 0 {
      OffsetElementsComplete(b, at + 4, n - 1, refersTo, parent);
      ElementsCons(OffsetElement(b, at, refersTo, parent), OffsetElements(b, at + 4, n - 1, refersTo, parent), at, 4);
    }
  }

  lemma VectorRegionsAre(s: Schema, b: seq<byte>, offset: nat, e: ElementType, is64: bool,
                         id: nat, parent: nat, entries: map<nat, Entry>, length: Region, n: nat)
    requires VectorStartAt(b, offset, e, is64) == Elements(length, n)
    ensures VectorRegions(s, b, offset, e, is64, id, parent, entries)
            == [length] + ElementRegions(s, b, offset + length.length, n, e, id, parent, entries)
  {
  }

  /** Where the elements of a vector end, as its length says. */
  function ElementsEnd(b: seq<byte>, offset: nat, e: ElementType, is64: bool): nat
    requires Read(b, offset, if is64 then 8 else 4).Some?
  {
    var size := if is64 then 8 else 4;
    offset + size + Read(b, offset, size).value * ElementSize(e)
  }

  /**
   * Exactly when a length is accepted: all elements lie in the binary, or where they end wraps around 64 bits to a
   * place inside it.
   */
  lemma AcceptedIff(b: seq<byte>, offset: nat, e: ElementType, is64: bool)
    requires |b| < U64 && Read(b, offset, if is64 then 8 else 4).Some?
    ensures var end := ElementsEnd(b, offset, e, is64);
            VectorStartAt(b, offset, e, is64).Elements? <==> end <= |b| || (end >= U64 && 1 <= end % U64 <= |b|)
  {
    var size := if is64 then 8 else 4;
    var end := ElementsEnd(b, offset, e, is64);
    MulNonNegative(Read(b, offset, size).value, ElementSize(e));
    if end < U64 {
      DivModUnique(end, U64, 0, end);
    }
  }

  /**
   * A vector whose elements lie in the binary gets one region for each, all end to end behind its length: scalars, and
   * offsets to tables and strings.
   */
  lemma VectorComplete(s: Schema, b: seq<byte>, offset: nat, e: ElementType, is64: bool,
                       id: nat, parent: nat, entries: map<nat, Entry>)
    requires MIN_BUFFER_SIZE <= |b| && !e.StructElement? && !e.UnionElement?
    requires var start := VectorStartAt(b, offset, e, is64);
             start.Elements? && EndOf(start.length) + start.n * ElementSize(e) <= |b|
    ensures var start := VectorStartAt(b, offset, e, is64);
            var rs := VectorRegions(s, b, offset, e, is64, id, parent, entries);
            && |rs| == start.n + 1 && rs[0] == start.length && rs[0].offset == offset
            && ElementsAt(rs[1..], EndOf(rs[0]), ElementSize(e))
  {
    var start := VectorStartAt(b, offset, e, is64);
    var at := offset + start.length.length;
    match e
    case ScalarElement(base, enumIndex) => ScalarElementsComplete(s, b, at, base, enumIndex, start.n);
    case TableElement(t) => OffsetElementsComplete(b, at, start.n, ToTable(t), parent);
    case StringElement => OffsetElementsComplete(b, at, start.n, ToString, parent);
  }

  /** A union element that can be followed: its offset leads into the binary, and its type is valid. */
  predicate UnionGood(s: Schema, b: seq<byte>, at: nat, typeAt: nat, typeEnum: int) {
    && Read(b, at, 4).Some? && IsValidOffset(b, at + Read(b, at, 4).value)
    && Read(b, typeAt, 1).Some? && IsValidUnionValue(s, typeEnum, Read(b, typeAt, 1).value)
  }

  /** A union element whose offset leads out of the binary. */
  predicate UnionOut(b: seq<byte>, at: nat) {
    Read(b, at, 4).Some? && !IsValidOffset(b, at + Read(b, at, 4).value)
  }

  /**
   * An offset that leads out of the binary is not stepped over: it is reported again for every element that is left.
   */
  lemma {:induction false} BadOffsetRepeats(s: Schema, b: seq<byte>, at: nat, typeAt: nat, typeEnum: int,
                                            enumId: nat, n: nat)
    requires UnionOut(b, at)
    ensures var rs := UnionElements(s, b, at, typeAt, typeEnum, enumId, n);
            var r := Region(at, 4, UOffset, OffsetOutOfBinary, at + Read(b, at, 4).value, Nothing);
            |rs| == n && forall i :: 0 <= i < n ==> rs[i] == r
    decreases n
  {
    if n > 0 {
      BadOffsetRepeats(s, b, at, typeAt + 1, typeEnum, enumId, n - 1);
    }
  }

  lemma {:induction false} AtMostOneEach(s: Schema, b: seq<byte>, at: nat, typeAt: nat, typeEnum: int, enumId: nat,
                                         n: nat)
    ensures |UnionElements(s, b, at, typeAt, typeEnum, enumId, n)| <= n
    decreases n
  {
    if n > 0 {
      var next := UnionElementStep(s, b, at, typeAt, typeEnum, enumId).next;
      AtMostOneEach(s, b, next, typeAt + 1, typeEnum, enumId, n - 1);
    }
  }

  /** Every element can be followed; of the last it is enough that its offset leads out of the binary. */
  predicate UnionsShown(s: Schema, b: seq<byte>, at: nat, typeAt: nat, typeEnum: int, n: nat)
    decreases n
  {
    n == 0 || (n == 1 && UnionOut(b, at))
    || (UnionGood(s, b, at, typeAt, typeEnum) && UnionsShown(s, b, at + 4, typeAt + 1, typeEnum, n - 1))
  }

  lemma ElementsTail(r: Region, rs: seq<Region>, at: nat, size: nat)
    requires ElementsAt([r] + rs, at, size)
    ensures r.offset == at && r.length == size && ElementsAt(rs, at + size, size)
  {
    assert ([r] + rs)[0] == r && 0 * size == 0;
    forall i | 0 <= i < |rs|
      ensures rs[i].offset == at + size + i * size && rs[i].length == size
    {
      assert ([r] + rs)[i + 1] == rs[i] && (i + 1) * size == size + i * size;
    }
  }

  /** n regions of size bytes, end to end. */
  predicate OneEach(rs: seq<Region>, n: nat, at: nat, size: nat) {
    |rs| == n && ElementsAt(rs, at, size)
  }

  lemma OneEachCons(r: Region, rest: seq<Region>, n: nat, at: nat, size: nat)
    requires n > 0 && r.offset == at && r.length == size
    ensures OneEach([r] + rest, n, at, size) <==> OneEach(rest, n - 1, at + size, size)
  {
    if OneEach([r] + rest, n, at, size) {
      ElementsTail(r, rest, at, size);
    }
    if OneEach(rest, n - 1, at + size, size) {
      ElementsCons(r, rest, at, size);
    }
  }

  lemma OneEachFirst(rs: seq<Region>, n: nat, at: nat, size: nat)
    requires n > 0 && OneEach(rs, n, at, size)
    ensures rs[0].offset == at && rs[0].length == size && (n > 1 ==> rs[1].offset == at + size)
  {
    assert rs[0].offset == at + 0 * size;
    if n > 1 {
      assert rs[1].offset == at + 1 * size;
    }
  }

  lemma UnionNotShown(s: Schema, b: seq<byte>, at: nat, typeAt: nat, typeEnum: int, enumId: nat, n: nat)
    requires |b| >= MIN_BUFFER_SIZE && n > 0 && !UnionGood(s, b, at, typeAt, typeEnum) && !(n == 1 && UnionOut(b, at))
    ensures !OneEach(UnionElements(s, b, at, typeAt, typeEnum, enumId, n), n, at, 4)
  {
    var step := UnionElementStep(s, b, at, typeAt, typeEnum, enumId);
    var rs := UnionElements(s, b, at, typeAt, typeEnum, enumId, n);
    AtMostOneEach(s, b, step.next, typeAt + 1, typeEnum, enumId, n - 1);
    if UnionOut(b, at) {
      BadOffsetRepeats(s, b, at, typeAt, typeEnum, enumId, n);
    }
    if OneEach(rs, n, at, 4) {
      OneEachFirst(rs, n, at, 4);
    }
  }

  /** A vector of unions gets one region for each element, end to end, exactly if all its elements are shown. */
  lemma {:induction false} UnionElementsComplete(s: Schema, b: seq<byte>, at: nat, typeAt: nat, typeEnum: int,
                                                 enumId: nat,
                                                 n: nat)
    requires |b| >= MIN_BUFFER_SIZE
    ensures OneEach(UnionElements(s, b, at, typeAt, typeEnum, enumId, n), n, at, 4)
            <==> UnionsShown(s, b, at, typeAt, typeEnum, n)
    decreases n
  {
    if n == 0 {
    } else if UnionGood(s, b, at, typeAt, typeEnum) {
      var r := UnionElementStep(s, b, at, typeAt, typeEnum, enumId).regions[0];
      UnionElementsComplete(s, b, at + 4, typeAt + 1, typeEnum, enumId, n - 1);
      OneEachCons(r, UnionElements(s, b, at + 4, typeAt + 1, typeEnum, enumId, n - 1), n, at, 4);
    } else if n == 1 && UnionOut(b, at) {
      BadOffsetRepeats(s, b, at, typeAt, typeEnum, enumId, n);
    } else {
      UnionNotShown(s, b, at, typeAt, typeEnum, enumId, n);
    }
  }

  // ---------------------------------------------------------------- one round of a loop over elements

  predicate AreOffsetElements(rs: seq<Region>, b: seq<byte>, at: nat, n: nat, refersTo: Referent, parent: nat) {
    rs == OffsetElements(b, at, n, refersTo, parent)
  }

  /** The elements done and those that are still to come are all. */
  ghost predicate OffsetElementsLeft(done: seq<Region>, b: seq<byte>, at: nat, n: nat, refersTo: Referent, parent: nat,
                                     all: seq<Region>)
  {
    forall rest {:trigger AreOffsetElements(rest, b, at, n, refersTo, parent)} ::
      AreOffsetElements(rest, b, at, n, refersTo, parent) ==> all == done + rest
  }

  lemma OffsetElementsStart(b: seq<byte>, at: nat, n: nat, refersTo: Referent, parent: nat)
    ensures OffsetElementsLeft([], b, at, n, refersTo, parent, OffsetElements(b, at, n, refersTo, parent))
  {
  }

  lemma OffsetElementsStep(done: seq<Region>, b: seq<byte>, at: nat, n: nat, refersTo: Referent, parent: nat,
                           all: seq<Region>)
    requires OffsetElementsLeft(done, b, at, n, refersTo, parent, all)
    ensures n == 0 ==> done == all
    ensures var now := done + [OffsetElement(b, at, refersTo, parent)];
            n > 0 ==> if Read(b, at, 4) == None then now == all
                      else OffsetElementsLeft(now, b, at + 4, n - 1, refersTo, parent, all)
  {
    assert AreOffsetElements(OffsetElements(b, at, n, refersTo, parent), b, at, n, refersTo, parent);
  }

  predicate AreUnionElements(rs: seq<Region>, s: Schema, b: seq<byte>, at: nat, typeAt: nat, typeEnum: int, enumId: nat,
                             n: nat)
  {
    rs == UnionElements(s, b, at, typeAt, typeEnum, enumId, n)
  }

  ghost predicate UnionElementsLeft(done: seq<Region>, s: Schema, b: seq<byte>, at: nat, typeAt: nat, typeEnum: int,
                                    enumId: nat, n: nat, all: seq<Region>)
  {
    forall rest {:trigger AreUnionElements(rest, s, b, at, typeAt, typeEnum, enumId, n)} ::
      AreUnionElements(rest, s, b, at, typeAt, typeEnum, enumId, n) ==> all == done + rest
  }

  lemma UnionElementsStart(s: Schema, b: seq<byte>, at: nat, typeAt: nat, typeEnum: int, enumId: nat, n: nat)
    ensures UnionElementsLeft([], s, b, at, typeAt, typeEnum, enumId, n,
                              UnionElements(s, b, at, typeAt, typeEnum, enumId, n))
  {
  }

  lemma UnionElementsStep(done: seq<Region>, s: Schema, b: seq<byte>, at: nat, typeAt: nat, typeEnum: int,
                          enumId: nat, n: nat,
                          all: seq<Region>)
    requires UnionElementsLeft(done, s, b, at, typeAt, typeEnum, enumId, n, all)
    ensures n == 0 ==> done == all
    ensures var step := UnionElementStep(s, b, at, typeAt, typeEnum, enumId);
            var now := done + step.regions;
            n > 0 ==> if step.stop then now == all
                      else UnionElementsLeft(now, s, b, step.next, typeAt + 1, typeEnum, enumId, n - 1, all)
  {
    assert AreUnionElements(UnionElements(s, b, at, typeAt, typeEnum, enumId, n), s, b, at, typeAt, typeEnum,
                            enumId, n);
  }

  predicate AreScalarElements(rs: seq<Region>, s: Schema, b: seq<byte>, at: nat, base: BaseType, enumIndex: int,
                              n: nat)
  {
    rs == ScalarElements(s, b, at, base, enumIndex, n)
  }

  ghost predicate ScalarElementsLeft(done: seq<Region>, s: Schema, b: seq<byte>, at: nat, base: BaseType,
                                     enumIndex: int, n: nat, all: seq<Region>)
  {
    forall rest {:trigger AreScalarElements(rest, s, b, at, base, enumIndex, n)} ::
      AreScalarElements(rest, s, b, at, base, enumIndex, n) ==> all == done + rest
  }

  lemma ScalarElementsStart(s: Schema, b: seq<byte>, at: nat, base: BaseType, enumIndex: int, n: nat)
    ensures ScalarElementsLeft([], s, b, at, base, enumIndex, n, ScalarElements(s, b, at, base, enumIndex, n))
  {
  }

  lemma ScalarElementsStep(done: seq<Region>, s: Schema, b: seq<byte>, at: nat, base: BaseType, enumIndex: int, n: nat,
                           all: seq<Region>)
    requires ScalarElementsLeft(done, s, b, at, base, enumIndex, n, all)
    ensures n == 0 ==> done == all
    ensures var now := done + [ScalarElementRegion(s, b, at, base, enumIndex)];
            n > 0 ==> if !IsValidRead(b, at, TypeSize(base)) then now == all
                      else ScalarElementsLeft(now, s, b, at + TypeSize(base), base, enumIndex, n - 1, all)
  {
    assert AreScalarElements(ScalarElements(s, b, at, base, enumIndex, n), s, b, at, base, enumIndex, n);
  }

  lemma TableFieldsStep(s: Schema, b: seq<byte>, offset: nat, vtable: VTable, order: seq<Entry>, i: nat, first: Region)
    requires i < |order|
    ensures [first] + TableFieldsRegions(s, b, offset, vtable, order, i)
            + TableFieldRegions(s, b, offset, vtable, order, i)
            == [first] + TableFieldsRegions(s, b, offset, vtable, order, i + 1)
  {
  }
}
