/** The annotator: walks an arbitrary binary by its offsets and records what it finds as sections. */
module Annotators {
  import opened Bytes
  import opened Schema
  import opened Sections
  import opened Walks
  import opened WalkFacts
  import opened References
  import opened Annotations
  import opened Effects
  import opened Gaps
  import opened SectionGaps
  import opened Finished

  class BinaryAnnotator {
    const x: Input
    var sections: seq<Section>
    var vtables: map<nat, seq<VTable>>

    ghost function St(): State
      reads this
    {
      State(sections, vtables)
    }

    ghost predicate Inv()
      reads this
    {
      InputOk(x) && StateOk(x, St())
    }

    /** Everything annotated before is still there, and what is new is loose or lies from the offset on. */
    twostate predicate Grown(from: nat)
      reads this
    {
      Grows(old(sections), sections, from, HasOffset64(x.schema))
    }

    constructor (x: Input)
      ensures this.x == x && sections == [] && vtables == map[]
    {
      this.x := x;
      sections, vtables := [], map[];
    }

    method ContainsSection(offset: nat) returns (yes: bool)
      requires Inv()
      ensures NoneHollow(sections) && yes == Contains(sections, offset)
      ensures yes ==> Found(sections, offset)
      ensures !yes ==> !HasKey(sections, offset)
    {
      ContainedIsFound(x, St(), offset);
      yes := Contains(sections, offset);
    }

    /** Adds a section that is not a vtable that can be read; those go into the cache too. */
    method AddSection(sec: Section)
      requires Inv() && SectionOk(x, sec) && sec.ty != VTableSection
      requires sec.ty == Header || AllResolved(x, sections, sec.regions)
      requires VTableThere(x.binary, sections, sec)
      modifies this`sections
      ensures Inv() && Grown(sec.key) && St() == WithSection(old(St()), sec) && Found(sections, sec.key)
    {
      AddKeeps(x, St(), sec);
      AddGrowsFrom(x, sections, sec, sec.key);
      sections := Add(sections, sec);
    }

    method ReadHeader() returns (root: nat, regions: seq<Region>)
      requires |x.binary| >= MIN_BUFFER_SIZE
      ensures root == RootLocation(x.binary, x.isSizePrefixed)
      ensures regions == HeaderRegions(x.schema, x.binary, x.isSizePrefixed)
    {
      var b := x.binary;
      var offset: nat := 0;
      regions := [];
      if x.isSizePrefixed {
        if FromLE(b[..8]) <= |b| {
          regions := [Plain(offset, 8, Uint64, Ok)];
          offset := 8;
        } else if FromLE(b[..4]) <= |b| {
          regions := [Plain(offset, 4, Uint32, Ok)];
          offset := 4;
        }
      }
      assert regions == PrefixRegions(b, x.isSizePrefixed);
      root := offset + FromLE(b[offset..offset + 4]);
      var status := if IsValidOffset(b, root) then Ok else OffsetOutOfBinary;
      regions := regions + [Region(offset, 4, UOffset, status, root, ToTable(x.schema.root))];
      offset := offset + 4;
      if IsValidRead(b, offset, 4) && IsPrintable(b, offset, 4) {
        regions := regions + [Plain(offset, 4, CharRegion, Ok)];
      }
    }

    method BuildHeader() returns (root: nat)
      requires Inv() && sections == []
      modifies this`sections
      ensures Inv() && root == RootLocation(x.binary, x.isSizePrefixed)
      ensures St() == State([Section(0, Header, HeaderRegions(x.schema, x.binary, x.isSizePrefixed))], old(vtables))
    {
      var regions;
      root, regions := ReadHeader();
      HeaderFacts(x.schema, x.binary, x.isSizePrefixed);
      AddSection(Section(0, Header, regions));
    }

    // ---------------------------------------------------------------- strings and structs

    method ReadString(offset: nat) returns (regions: seq<Region>)
      ensures regions == StringRegions(x.binary, offset)
    {
      var length := Read(x.binary, offset, 4);
      if length == None {
        return [Incomplete(x.binary, offset)];
      }
      var size := length.value;
      var end := offset + 4 + size + 1;
      if !IsValidOffset(x.binary, end - 1) {
        return [Plain(offset, 4, Uint32, LengthTooLong)];
      }
      regions := [Plain(offset, 4, Uint32, Ok)];
      regions := regions + [Plain(offset + 4, size, CharRegion, Ok)];
      regions := regions + [Plain(offset + 4 + size, 1, CharRegion, Ok)];
    }

    method BuildString(offset: nat, ghost from: nat)
      requires Inv() && IsValidOffset(x.binary, offset) && Reached(x, offset, ToString)
      requires from <= offset || HasOffset64(x.schema)
      modifies this`sections
      ensures Inv() && Grown(from) && Found(sections, offset)
      ensures NoneHollow(old(sections)) && StringBuilt(x, old(St()), St(), offset)
    {
      var known := ContainsSection(offset);
      if known {
        return;
      }
      var regions := ReadString(offset);
      StringSectionOk(x, offset);
      NothingInString(x, sections, offset);
      AddGrowsFrom(x, sections, Section(offset, StringSection, regions), from);
      AddSection(Section(offset, StringSection, regions));
    }

    /** Appends the regions of a struct, field after field, and returns the offset behind it. */
    method BuildStruct(offset: nat, regions: seq<Region>, def: StructDef) returns (end: nat, out: seq<Region>)
      ensures out == regions + StructWalk(x.binary, offset, def).regions
      ensures end == StructWalk(x.binary, offset, def).end
      decreases def, 0
    {
      end, out := offset, regions;
      ghost var all := FieldsWalk(x.binary, offset, def.fields);
      assert def.fields[0..] == def.fields;
      for i := 0 to |def.fields|
        invariant out + FieldsWalk(x.binary, end, def.fields[i..]).regions == regions + all.regions
        invariant FieldsWalk(x.binary, end, def.fields[i..]).end == all.end
      {
        var f := def.fields[i];
        assert f in def.fields && f.ty < f;
        assert def.fields[i..][1..] == def.fields[i + 1..];
        end, out := BuildStructField(end, out, f.ty);
        var p := PaddingWalk(x.binary, end, f.padding);
        end, out := p.end, out + p.regions;
      }
    }

    method BuildStructField(offset: nat, regions: seq<Region>, ty: StructFieldType) returns (end: nat, out: seq<Region>)
      ensures out == regions + FieldWalk(x.binary, offset, ty).regions
      ensures end == FieldWalk(x.binary, offset, ty).end
      decreases ty, 0
    {
      match ty {
        case ScalarField(base) =>
          var w := ScalarWalk(x.binary, offset, base);
          end, out := w.end, regions + w.regions;
        case NestedField(def) =>
          end, out := BuildStruct(offset, regions, def);
        case ScalarArray(base, n) =>
          end, out := BuildScalarArray(offset, regions, base, n);
        case StructArray(def, n) =>
          end, out := BuildStructArray(offset, regions, def, n);
      }
    }

    method BuildScalarArray(offset: nat, regions: seq<Region>, base: BaseType, n: nat)
      returns (end: nat, out: seq<Region>)
      ensures out == regions + ScalarArrayWalk(x.binary, offset, base, n).regions
      ensures end == ScalarArrayWalk(x.binary, offset, base, n).end
    {
      end, out := offset, regions;
      ghost var all := ScalarArrayWalk(x.binary, offset, base, n);
      var i := 0;
      while i < n
        invariant i <= n
        invariant out + ScalarArrayWalk(x.binary, end, base, n - i).regions == regions + all.regions
        invariant ScalarArrayWalk(x.binary, end, base, n - i).end == all.end
      {
        var w := ScalarWalk(x.binary, end, base);
        var readable := IsValidRead(x.binary, end, TypeSize(base));
        end, out := w.end, out + w.regions;
        if !readable {
          return;
        }
        i := i + 1;
      }
    }

    method BuildStructArray(offset: nat, regions: seq<Region>, def: StructDef, n: nat)
      returns (end: nat, out: seq<Region>)
      ensures out == regions + StructArrayWalk(x.binary, offset, def, n).regions
      ensures end == StructArrayWalk(x.binary, offset, def, n).end
      decreases def, 1
    {
      end, out := offset, regions;
      ghost var all := StructArrayWalk(x.binary, offset, def, n);
      for i := 0 to n
        invariant out + StructArrayWalk(x.binary, end, def, n - i).regions == regions + all.regions
        invariant StructArrayWalk(x.binary, end, def, n - i).end == all.end
      {
        end, out := BuildStruct(end, out, def);
      }
    }

    // ---------------------------------------------------------------- vtables

    /** Scans the entries for the schema's fields, in id order. */
    method ScanKnown(offset: nat, size: nat, referrer: nat, fields: seq<Field>) returns (scan: EntryScan)
      ensures scan == KnownEntries(x.binary, offset, size, referrer, fields, |fields|)
    {
      scan := EntryScan([], map[], 0);
      for id := 0 to |fields|
        invariant scan == KnownEntries(x.binary, offset, size, referrer, fields, id)
      {
        scan := KnownEntry(x.binary, offset, size, referrer, fields[id], id, scan);
      }
    }

    /** Scans the entries that are left, up to count, for fields the schema does not know. */
    method ScanUnknown(offset: nat, count: nat, known: EntryScan) returns (scan: EntryScan)
      ensures scan == UnknownEntries(x.binary, offset, known.processed, count, known)
    {
      scan := known;
      var id := known.processed;
      while id < count
        invariant known.processed <= id && (id <= count || id == known.processed)
        invariant scan == UnknownEntries(x.binary, offset, known.processed, id, known)
      {
        scan := UnknownEntry(x.binary, offset, id, scan);
        id := id + 1;
      }
    }

    method BuildVTable(offset: nat, table: nat, referrer: nat) returns (result: VTableResult)
      requires InputOk(x) && table < |x.schema.tables|
      ensures result == VTableAt(x.schema, x.binary, offset, table, referrer)
    {
      var b := x.binary;
      var length := Read(b, offset, 2);
      if length == None {
        return Bad(Incomplete(b, offset));
      }
      var size := length.value;
      if !IsValidOffset(b, offset + size - 1) {
        return Bad(Plain(offset, 2, Uint16, LengthTooLong));
      } else if size < 4 {
        return Bad(Plain(offset, 2, Uint16, LengthTooShort));
      }
      var tableSize := Read(b, offset + 2, 2).value;
      var known := ScanKnown(offset, size, referrer, x.schema.tables[table]);
      var scan := ScanUnknown(offset, EntryCount(size, known.processed), known);
      result := Good([Plain(offset, 2, Uint16, Ok),
                      Plain(offset + 2, 2, Uint16, TableSizeStatus(b, referrer, tableSize))]
                     + scan.regions,
                     VTable(table, scan.fields, tableSize));
    }

    /** The vtable cached at the offset for the table type, if there is one. */
    method CachedVTable(offset: nat, table: nat) returns (result: Option<VTable>)
      ensures result == Find(CacheAt(vtables, offset), table)
    {
      result := None;
      var cached := CacheAt(vtables, offset);
      assert cached[0..] == cached;
      for i := 0 to |cached|
        invariant Find(cached, table) == Find(cached[i..], table)
      {
        assert cached[i..][1..] == cached[i + 1..];
        if cached[i].table == table {
          return Some(cached[i]);
        }
      }
    }

    /** Records the section of a vtable, if there is none, and if the vtable can be read caches it. */
    method RecordVTable(offset: nat, built: VTableResult)
      modifies this
      ensures St() == WithVTable(old(St()), offset, built)
    {
      sections := Add(sections, Section(offset, VTableSection, VTableRegions(built)));
      if built.Good? {
        vtables := vtables[offset := CacheAt(vtables, offset) + [built.vtable]];
      }
    }

    /** The vtable that is cached for the table type at the offset, or the one read there; None if it is blocked. */
    method GetOrBuildVTable(offset: nat, table: nat, referrer: nat) returns (result: Option<VTable>)
      requires Inv() && IsValidOffset(x.binary, offset) && table < |x.schema.tables|
      requires TableReached(x, referrer, table) && VTableLocation(x.binary, referrer) == Some(offset)
      modifies this
      ensures NoneHollow(old(sections)) && Inv() && Grown(|x.binary|)
      ensures VTableStep(St(), result) == GetVTable(x, old(St()), offset, table, referrer)
      ensures result.Some? ==>
                result.value.table == table && VTableReached(x, offset, result.value) && HasVTable(sections, offset)
      ensures result.None? ==> Blocked(x.binary, sections, offset)
    {
      GetVTableKeeps(x, St(), offset, table, referrer);
      result := CachedVTable(offset, table);
      if result.Some? {
        return;
      }
      if CacheAt(vtables, offset) == [] {
        var known := ContainsSection(offset);
        if known {
          return;
        }
      }
      var built := BuildVTable(offset, table, referrer);
      RecordVTable(offset, built);
      result := if built.Good? then Some(built.vtable) else None;
    }

    // ---------------------------------------------------------------- tables, vectors and unions

    /** A field the schema does not know reaches to the next field, or to the end of the table. */
    method ReadUnknownField(at: nat, end: nat) returns (rs: seq<Region>)
      ensures rs == UnknownFieldRegions(x.binary, at, end)
    {
      var length := end - at;
      if length == 0 {
        return [];
      }
      if !IsValidRead(x.binary, at, length) {
        return [Incomplete(x.binary, at)];
      }
      return [Plain(at, length, Unknown, Ok)];
    }

    method ReadScalarField(at: nat, base: BaseType, enumIndex: int) returns (rs: seq<Region>)
      ensures rs == ScalarFieldRegions(x.schema, x.binary, at, base, enumIndex)
    {
      if !IsValidRead(x.binary, at, TypeSize(base)) {
        return [Incomplete(x.binary, at)];
      }
      if base == UType && enumIndex >= 0 {
        var value := Read(x.binary, at, 1).value;
        if !IsValidUnionValue(x.schema, enumIndex, value) {
          return [Plain(at, TypeSize(base), RegionTypeOf(base), InvalidUnionType)];
        }
      }
      return [Plain(at, TypeSize(base), RegionTypeOf(base), Ok)];
    }

    /** A field that holds an offset; of a union, the type is read from the field before it. */
    method ReadOffsetField(table: nat, at: nat, id: nat, f: Field, entries: map<nat, Entry>) returns (rs: seq<Region>)
      requires !f.ty.Scalar? && !f.ty.Struct?
      ensures rs == OffsetFieldRegions(x.schema, x.binary, table, at, id, f, entries)
    {
      var length, ty := 4, UOffset;
      if f.offset64 {
        length, ty := 8, UOffset64;
      }
      var read := Read(x.binary, at, length);
      var offset: nat := if read.Some? then read.value else 0;
      if offset == 0 {
        return [Incomplete(x.binary, at)];
      }
      var next: nat := at + offset;
      if f.offset64 {
        next := next % U64;
      }
      if !IsValidOffset(x.binary, next) {
        return [Region(at, length, ty, OffsetOutOfBinary, next, Nothing)];
      }
      match f.ty {
        case Table(t) => rs := [Region(at, length, ty, Ok, next, ToTable(t))];
        case Str => rs := [Region(at, length, ty, Ok, next, ToString)];
        case Vector(e, is64) => rs := [Region(at, length, ty, Ok, next, ToVector(id, e, is64))];
        case Union(e) =>
          var typeId := (id + U16 - 1) % U16;
          if typeId !in entries {
            return [];
          }
          var typeAt := table + entries[typeId].offset;
          var value := Read(x.binary, typeAt, 1);
          if value == None {
            return [Incomplete(x.binary, typeAt)];
          }
          if !IsValidUnionValue(x.schema, e, value.value) {
            return [];
          }
          rs := [Region(at, length, ty, Ok, next, ToUnion(e, value.value))];
      }
    }

    /** The regions of field i in the order of a table's fields. */
    method ReadField(offset: nat, vtable: VTable, order: seq<Entry>, i: nat) returns (rs: seq<Region>)
      requires i < |order|
      ensures rs == TableFieldRegions(x.schema, x.binary, offset, vtable, order, i)
    {
      var e := order[i];
      if e.offset == 0 {
        return [];
      }
      var at := offset + e.offset;
      if !IsValidOffset(x.binary, at) {
        return [];
      }
      if e.field == None {
        var end := TableEnd(x.binary, offset, vtable.tableSize);
        if i + 1 < |order| {
          end := offset + order[i + 1].offset;
        }
        rs := ReadUnknownField(at, end);
        return;
      }
      var f := e.field.value;
      match f.ty {
        case Scalar(base, enumIndex) =>
          rs := ReadScalarField(at, base, enumIndex);
        case Struct(def) =>
          var end;
          end, rs := BuildStruct(at, [], def);
        case _ =>
          rs := ReadOffsetField(offset, at, e.id, f, vtable.fields);
      }
    }

    method BuildTable(offset: nat, ty: SectionType, table: nat)
      requires Inv() && IsValidOffset(x.binary, offset) && table < |x.schema.tables|
      requires TableReached(x, offset, table) && TypeFits(x, offset, ty, table)
      modifies this
      ensures Inv() && Grown(offset) && TableResolved(x, sections, offset)
      ensures NoneHollow(old(sections)) && TableBuilt(x, old(St()), St(), offset, ty, table)
      decreases |x.binary| - offset, 2
    {
      var known := ContainsSection(offset);
      if known {
        assert TableBuilt(x, old(St()), St(), offset, ty, table);
        return;
      }
      var location := VTableLocation(x.binary, offset);
      if location.None? || !IsValidOffset(x.binary, location.value) {
        LoneTableOk(x, offset, ty, table);
        AddSection(Section(offset, ty, [LoneTableRegion(x.binary, offset)]));
        return;
      }
      BuildTableAt(offset, location.value, ty, table);
    }

    /** The rest of BuildTable, once the location of the vtable is known. */
    method BuildTableAt(offset: nat, location: nat, ty: SectionType, table: nat)
      requires Inv() && IsValidOffset(x.binary, offset) && table < |x.schema.tables| && !HasKey(sections, offset)
      requires TableReached(x, offset, table) && TypeFits(x, offset, ty, table)
      requires VTableLocation(x.binary, offset) == Some(location) && IsValidOffset(x.binary, location)
      modifies this
      ensures Inv() && Grown(offset) && TableResolved(x, sections, offset)
      ensures NoneHollow(old(sections)) && TableBuiltAt(x, old(St()), St(), offset, location, ty, table)
      decreases |x.binary| - offset, 1, 1
    {
      var vtable := GetOrBuildVTable(location, table, offset);
      FreeGrows(old(sections), sections, offset, |x.binary|, HasOffset64(x.schema));
      GrowsFrom(old(sections), sections, |x.binary|, offset, HasOffset64(x.schema));
      if vtable.None? {
        return;
      }
      ghost var before := sections;
      TableIsAt(x, offset, location, vtable.value);
      BuildTableFields(offset, ty, vtable.value);
      GrowsOn(old(sections), before, sections, offset, offset, offset, HasOffset64(x.schema));
    }

    /** The rest of BuildTable, once the vtable is known: all fields by their offset, and the padding behind them. */
    method BuildTableFields(offset: nat, ty: SectionType, vtable: VTable)
      requires Inv() && TableAt(x, offset, vtable) && TypeFits(x, offset, ty, vtable.table)
      requires Free(sections, offset, HasOffset64(x.schema))
      requires HasVTable(sections, VTableLocation(x.binary, offset).value)
      modifies this
      ensures Inv() && Grown(offset) && Found(sections, offset) && Extends(old(sections), sections)
      ensures StoredAndResolved(x, sections, TableSectionOf(x, offset, ty, vtable))
      decreases |x.binary| - offset, 1, 0, 2
    {
      var first := Region(offset, 4, SOffset, Ok, VTableLocation(x.binary, offset).value, Nothing);
      var regions := BuildFieldRegions(offset, vtable, first);
      FreeGrows(old(sections), sections, offset, offset + 1, HasOffset64(x.schema));
      var end := TableEnd(x.binary, offset, vtable.tableSize);
      PaddingResolved(x, sections, regions, end);
      regions := regions + TablePadding(regions[|regions| - 1], end);
      assert regions == TableRegions(x.schema, x.binary, offset, vtable);
      TableSectionOk(x, offset, ty, vtable);
      HasVTableExtends(old(sections), sections, VTableLocation(x.binary, offset).value);
      StoreKeeps(x, sections, Section(offset, ty, regions));
      ghost var before := sections;
      AddSection(Section(offset, ty, regions));
      GrowsOn(old(sections), before, sections, offset + 1, offset, offset, HasOffset64(x.schema));
    }

    method BuildFieldRegions(offset: nat, vtable: VTable, first: Region) returns (regions: seq<Region>)
      requires Inv() && TableAt(x, offset, vtable) && first.refersTo == Nothing
      modifies this
      ensures Inv() && Grown(offset + 1) && AllResolved(x, sections, regions)
      ensures var order := InTableOrder(vtable);
              regions == [first] + TableFieldsRegions(x.schema, x.binary, offset, vtable, order, |order|)
      decreases |x.binary| - offset, 1, 0, 1
    {
      var order := InTableOrder(vtable);
      regions := [first];
      for i := 0 to |order|
        invariant Inv() && Grown(offset + 1) && AllResolved(x, sections, regions)
        invariant regions == [first] + TableFieldsRegions(x.schema, x.binary, offset, vtable, order, i)
      {
        TableFieldsStep(x.schema, x.binary, offset, vtable, order, i, first);
        ghost var before := sections;
        regions := BuildTableField(offset, vtable, order, i, regions);
        GrowsOn(old(sections), before, sections, offset + 1, offset + 1, offset + 1, HasOffset64(x.schema));
      }
    }

    /** Appends the regions of field i of a table, after what they refer to has been built. */
    method BuildTableField(offset: nat, vtable: VTable, order: seq<Entry>, i: nat, regions: seq<Region>)
      returns (out: seq<Region>)
      requires Inv() && TableAt(x, offset, vtable) && order == InTableOrder(vtable) && i < |order|
      requires AllResolved(x, sections, regions)
      modifies this
      ensures Inv() && Grown(offset + 1) && AllResolved(x, sections, out)
      ensures var rs := TableFieldRegions(x.schema, x.binary, offset, vtable, order, i);
              out == regions + rs && AnyFollowed(x, old(St()), St(), rs, offset, vtable.fields)
      decreases |x.binary| - offset, 1, 0, 0
    {
      var rs := ReadField(offset, vtable, order, i);
      OneReference(x, offset, vtable, i);
      if |rs| == 1 && rs[0].refersTo != Nothing {
        FollowField(offset, vtable, i, rs[0]);
      }
      OneResolved(x, sections, rs);
      AppendResolved(x, old(sections), sections, regions, rs);
      out := regions + rs;
    }

    /** Follows the reference in field i of a table. */
    method FollowField(offset: nat, vtable: VTable, ghost i: nat, r: Region)
      requires Inv() && TableAt(x, offset, vtable) && i < |InTableOrder(vtable)| && r.refersTo != Nothing
      requires r in TableFieldRegions(x.schema, x.binary, offset, vtable, InTableOrder(vtable), i)
      modifies this
      ensures Inv() && Grown(offset + 1) && Resolved(x, sections, r)
      ensures Followed(x, old(St()), St(), r, offset, vtable.fields)
      decreases |x.binary| - offset, 0
    {
      FieldReaches(x, offset, vtable, i, r);
      match r.refersTo {
        case ToString => BuildString(r.target, offset + 1);
        case ToVector(id, e, is64) => BuildVector(r.target, e, is64, id, offset, vtable.fields, offset + 1);
        case ToTable(_) => FollowTable(offset, r, offset, vtable.fields);
        case ToUnion(_, _) => FollowTable(offset, r, offset, vtable.fields);
      }
    }

    /** Follows a reference to a table, or to a union. */
    method FollowTable(offset: nat, r: Region, ghost parent: nat, ghost entries: map<nat, Entry>)
      requires Inv() && Reached(x, r.target, r.refersTo) && (r.refersTo.ToTable? || r.refersTo.ToUnion?)
      requires offset < r.target
      modifies this
      ensures Inv() && Grown(offset + 1) && Resolved(x, sections, r)
      ensures Followed(x, old(St()), St(), r, parent, entries)
      decreases |x.binary| - offset, 0, 0, 0
    {
      ReachedOk(x, r.target, r.refersTo);
      match r.refersTo {
        case ToTable(t) =>
          ReachTable(x, r.target, r.refersTo, t);
          BuildTable(r.target, TableSection, t);
        case ToUnion(u, value) =>
          BuildUnion(r.target, u, value);
        case _ =>
      }
      GrowsFrom(old(sections), sections, r.target, offset + 1, HasOffset64(x.schema));
    }

    method BuildUnion(offset: nat, enumId: nat, value: nat)
      requires Inv() && IsValidOffset(x.binary, offset) && IsValidUnionValue(x.schema, enumId, value)
      requires Reached(x, offset, ToUnion(enumId, value))
      modifies this
      ensures Inv() && Grown(offset) && NoneHollow(old(sections)) && MemberOk(x.schema, x.schema.enums[enumId][value])
      ensures UnionBuilt(x, old(St()), St(), offset, x.schema.enums[enumId][value])
      ensures match x.schema.enums[enumId][value]
              case TableMember(_) => TableResolved(x, sections, offset)
              case StructMember(_) => Found(sections, offset)
              case OtherMember => true
      decreases |x.binary| - offset, 3
    {
      assert MemberOk(x.schema, x.schema.enums[enumId][value]);
      var known := ContainsSection(offset);
      if known {
        return;
      }
      match x.schema.enums[enumId][value] {
        case TableMember(t) =>
          ReachTable(x, offset, ToUnion(enumId, value), t);
          BuildTable(offset, TableSection, t);
        case StructMember(def) =>
          var end, regions := BuildStruct(offset, [], def);
          assert regions == StructWalk(x.binary, offset, def).regions;
          UnionSectionOk(x, offset, enumId, value, def);
          AddSection(Section(offset, UnionSection, regions));
        case OtherMember =>
      }
    }

    /** Behind a vector of scalars or structs there is nothing to follow. */
    ghost function LeftBehind(offset: nat, e: ElementType): int {
      if IsLeaf(e) then 0 else |x.binary| - offset
    }

    method BuildVector(offset: nat, e: ElementType, is64: bool, id: nat, parent: nat, entries: map<nat, Entry>,
                       ghost from: nat)
      requires Inv() && IsValidOffset(x.binary, offset) && VectorReached(x, offset, id, e, is64, parent, entries)
      requires from <= offset || (IsLeaf(e) && HasOffset64(x.schema))
      modifies this
      ensures Inv() && Grown(from) && Found(sections, offset)
      ensures NoneHollow(old(sections)) && VectorBuilt(x, old(St()), St(), offset, e, is64, id, parent, entries)
      decreases LeftBehind(offset, e), 1
    {
      var known := ContainsSection(offset);
      if known {
        return;
      }
      VectorInOrder(x, offset, id, e, is64, parent, entries);
      VectorReaches(x, offset, id, e, is64, parent, entries);
      var start := VectorStartAt(x.binary, offset, e, is64);
      var regions := BuildVectorRegions(offset, start, e, is64, id, parent, entries);
      VectorSectionOk(x, offset, id, e, is64, parent, entries);
      FreeGrows(old(sections), sections, offset, offset + 1, HasOffset64(x.schema));
      ghost var before := sections;
      StoreVector(Section(offset, VectorSectionType(start, is64), regions), from);
      if !IsLeaf(e) {
        GrowsOn(old(sections), before, sections, offset + 1, from, from, HasOffset64(x.schema));
      }
    }

    /** The regions of a vector: its length, or what is wrong with it, and its elements. */
    method BuildVectorRegions(offset: nat, start: VectorStart, e: ElementType, is64: bool, id: nat, parent: nat,
                              entries: map<nat, Entry>) returns (regions: seq<Region>)
      requires Inv() && IsValidOffset(x.binary, offset) && VectorOk(x.schema, e, id, entries)
      requires IsLeaf(e) || parent < offset
      requires start == VectorStartAt(x.binary, offset, e, is64)
      requires AllReached(x, VectorRegions(x.schema, x.binary, offset, e, is64, id, parent, entries))
      modifies this
      ensures Inv() && Grown(offset + 1) && AllResolved(x, sections, regions)
      ensures regions == VectorRegions(x.schema, x.binary, offset, e, is64, id, parent, entries)
      ensures IsLeaf(e) ==> St() == old(St())
      decreases LeftBehind(offset, e), 0, 2
    {
      match start {
        case BadVector(error) =>
          VectorStandsAlone(x, sections, offset, e, is64, id, parent, entries);
          regions := [error];
        case Elements(length, n) =>
          ElementsReached(x, offset, id, e, is64, parent, entries, length, n);
          var rs := BuildElements(offset, offset + length.length, n, e, id, parent, entries);
          VectorResolved(x, sections, offset, e, is64, id, parent, entries, length, n, rs);
          regions := [length] + rs;
      }
    }

    /** Adds the section of a vector whose place is free and whose references are resolved. */
    method StoreVector(sec: Section, ghost from: nat)
      requires Inv() && SectionOk(x, sec) && sec.ty in {VectorSection, Vector64Section}
      requires from <= sec.key || HasOffset64(x.schema)
      requires AllResolved(x, sections, sec.regions) && Free(sections, sec.key, HasOffset64(x.schema))
      modifies this`sections
      ensures Inv() && Grown(from) && Found(sections, sec.key)
      ensures St() == WithSection(old(St()), sec) && StoredAndResolved(x, sections, sec)
    {
      StoreKeeps(x, sections, sec);
      AddGrowsFrom(x, sections, sec, from);
      AddSection(sec);
    }

    /** The elements of the vector at offset, after what they refer to has been built. */
    method BuildElements(offset: nat, at: nat, n: nat, e: ElementType, id: nat, parent: nat, entries: map<nat, Entry>)
      returns (rs: seq<Region>)
      requires Inv() && IsValidOffset(x.binary, offset) && offset < at && VectorOk(x.schema, e, id, entries)
      requires AllReached(x, ElementRegions(x.schema, x.binary, at, n, e, id, parent, entries))
      requires IsLeaf(e) || parent < offset
      modifies this
      ensures Inv() && Grown(offset + 1) && AllResolved(x, sections, rs)
      ensures rs == ElementRegions(x.schema, x.binary, at, n, e, id, parent, entries)
      ensures IsLeaf(e) ==> St() == old(St())
      decreases LeftBehind(offset, e), 0, 1
    {
      match e {
        case ScalarElement(base, enumIndex) => rs := BuildScalarElements(at, base, enumIndex, n);
        case StructElement(def) => rs := BuildStructElements(at, def, n);
        case TableElement(t) => rs := BuildOffsetElements(offset, at, n, ToTable(t), parent);
        case StringElement => rs := BuildOffsetElements(offset, at, n, ToString, parent);
        case UnionElement(enumId) =>
          match UnionTypesOf(x.binary, id, parent, entries) {
            case NoTypes => rs := [];
            case UnreadableTypes => rs := [Incomplete(x.binary, at)];
            case TypesAt(typeAt, typeEnum) => rs := BuildUnionElements(offset, at, typeAt, typeEnum, enumId, n);
          }
      }
    }

    method BuildScalarElements(at: nat, base: BaseType, enumIndex: int, n: nat) returns (rs: seq<Region>)
      ensures rs == ScalarElements(x.schema, x.binary, at, base, enumIndex, n)
      ensures forall r :: r in rs ==> r.refersTo == Nothing
    {
      rs := [];
      ghost var all := ScalarElements(x.schema, x.binary, at, base, enumIndex, n);
      ScalarElementsStart(x.schema, x.binary, at, base, enumIndex, n);
      InlineElementsRefer(x.schema, x.binary, at, base, enumIndex, n);
      var offset: nat := at;
      for i := 0 to n
        invariant ScalarElementsLeft(rs, x.schema, x.binary, offset, base, enumIndex, n - i, all)
      {
        ScalarElementsStep(rs, x.schema, x.binary, offset, base, enumIndex, n - i, all);
        rs := rs + [ScalarElementRegion(x.schema, x.binary, offset, base, enumIndex)];
        if !IsValidRead(x.binary, offset, TypeSize(base)) {
          return;
        }
        offset := offset + TypeSize(base);
      }
      ScalarElementsStep(rs, x.schema, x.binary, offset, base, enumIndex, 0, all);
    }

    method BuildStructElements(at: nat, def: StructDef, n: nat) returns (rs: seq<Region>)
      requires StructOk(def)
      ensures rs == StructElements(x.binary, at, def, n)
      ensures forall r :: r in rs ==> r.refersTo == Nothing
    {
      rs := [];
      ghost var all := StructElements(x.binary, at, def, n);
      var offset := at;
      for i := 0 to n
        invariant rs + StructElements(x.binary, offset, def, n - i) == all
        invariant forall r :: r in rs ==> r.refersTo == Nothing
      {
        StructFacts(x.binary, offset, def);
        var next;
        next, rs := BuildStruct(offset, rs, def);
        if next == offset {
          return;
        }
        offset := next;
      }
    }

    /** Elements that are offsets to tables, or to strings. */
    method BuildOffsetElements(offset: nat, at: nat, n: nat, refersTo: Referent, parent: nat) returns (rs: seq<Region>)
      requires Inv() && IsValidOffset(x.binary, offset) && parent < offset < at
               && (refersTo.ToString? || refersTo.ToTable?)
      requires AllReached(x, OffsetElements(x.binary, at, n, refersTo, parent))
      modifies this
      ensures Inv() && Grown(offset + 1) && AllResolved(x, sections, rs)
      ensures rs == OffsetElements(x.binary, at, n, refersTo, parent)
      decreases |x.binary| - offset, 0, 0, 3
    {
      rs := [];
      ghost var all := OffsetElements(x.binary, at, n, refersTo, parent);
      OffsetElementsStart(x.binary, at, n, refersTo, parent);
      var element := at;
      for i := 0 to n
        invariant Inv() && Grown(offset + 1) && AllResolved(x, sections, rs) && element >= at
        invariant OffsetElementsLeft(rs, x.binary, element, n - i, refersTo, parent, all)
      {
        OffsetElementsStep(rs, x.binary, element, n - i, refersTo, parent, all);
        OffsetElementReached(x, element, n - i, refersTo, parent, rs, all);
        ghost var before := sections;
        rs := BuildOffsetElement(offset, element, refersTo, parent, rs);
        GrowsOn(old(sections), before, sections, offset + 1, offset + 1, offset + 1, HasOffset64(x.schema));
        if Read(x.binary, element, 4) == None {
          return;
        }
        element := element + 4;
      }
      OffsetElementsStep(rs, x.binary, element, 0, refersTo, parent, all);
    }

    method BuildOffsetElement(offset: nat, at: nat, refersTo: Referent, parent: nat, regions: seq<Region>)
      returns (out: seq<Region>)
      requires Inv() && IsValidOffset(x.binary, offset) && parent < offset < at
      requires refersTo.ToString? || refersTo.ToTable?
      requires AllReached(x, [OffsetElement(x.binary, at, refersTo, parent)])
      requires AllResolved(x, sections, regions)
      modifies this
      ensures Inv() && Grown(offset + 1) && AllResolved(x, sections, out)
      ensures out == regions + [OffsetElement(x.binary, at, refersTo, parent)]
      decreases |x.binary| - offset, 0, 0, 2
    {
      var r := OffsetElement(x.binary, at, refersTo, parent);
      assert r in [r];
      if r.refersTo != Nothing {
        FollowElement(offset, r, parent);
      }
      OneResolved(x, sections, [r]);
      AppendResolved(x, old(sections), sections, regions, [r]);
      out := regions + [r];
    }

    /** Follows the reference in an element of the vector at offset. */
    method FollowElement(offset: nat, r: Region, ghost parent: nat)
      requires Inv() && Reached(x, r.target, r.refersTo) && offset < r.target
      requires r.refersTo.ToString? || r.refersTo.ToTable? || r.refersTo.ToUnion?
      modifies this
      ensures Inv() && Grown(offset + 1) && Resolved(x, sections, r)
      ensures Followed(x, old(St()), St(), r, parent, map[])
      decreases |x.binary| - offset, 0, 0, 1
    {
      ReachedOk(x, r.target, r.refersTo);
      match r.refersTo {
        case ToString => BuildString(r.target, offset + 1);
        case ToTable(_) => FollowTable(offset, r, parent, map[]);
        case ToUnion(_, _) => FollowTable(offset, r, parent, map[]);
      }
    }

    method BuildUnionElements(offset: nat, at: nat, typeAt: nat, typeEnum: int, enumId: nat, n: nat)
      returns (rs: seq<Region>)
      requires Inv() && IsValidOffset(x.binary, offset) && offset < at
      requires AllReached(x, UnionElements(x.schema, x.binary, at, typeAt, typeEnum, enumId, n))
      modifies this
      ensures Inv() && Grown(offset + 1) && AllResolved(x, sections, rs)
      ensures rs == UnionElements(x.schema, x.binary, at, typeAt, typeEnum, enumId, n)
      decreases |x.binary| - offset, 0, 0, 3
    {
      rs := [];
      ghost var all := UnionElements(x.schema, x.binary, at, typeAt, typeEnum, enumId, n);
      UnionElementsStart(x.schema, x.binary, at, typeAt, typeEnum, enumId, n);
      var element := at;
      for i := 0 to n
        invariant Inv() && Grown(offset + 1) && AllResolved(x, sections, rs) && element >= at
        invariant UnionElementsLeft(rs, x.schema, x.binary, element, typeAt + i, typeEnum, enumId, n - i, all)
      {
        UnionElementsStep(rs, x.schema, x.binary, element, typeAt + i, typeEnum, enumId, n - i, all);
        UnionElementReached(x, element, typeAt + i, typeEnum, enumId, n - i, rs, all);
        var next, stop;
        rs, next, stop := BuildUnionElement(offset, element, typeAt + i, typeEnum, enumId, rs, old(sections));
        if stop {
          return;
        }
        element := next;
      }
      UnionElementsStep(rs, x.schema, x.binary, element, typeAt + n, typeEnum, enumId, 0, all);
    }

    method BuildUnionElement(offset: nat, at: nat, typeAt: nat, typeEnum: int, enumId: nat, regions: seq<Region>,
                             ghost before: seq<Section>)
      returns (out: seq<Region>, next: nat, stop: bool)
      requires Inv() && IsValidOffset(x.binary, offset) && offset < at
      requires AllReached(x, UnionElementStep(x.schema, x.binary, at, typeAt, typeEnum, enumId).regions)
      requires AllResolved(x, sections, regions) && Grows(before, sections, offset + 1, HasOffset64(x.schema))
      modifies this
      ensures Inv() && Grows(before, sections, offset + 1, HasOffset64(x.schema)) && AllResolved(x, sections, out)
      ensures var step := UnionElementStep(x.schema, x.binary, at, typeAt, typeEnum, enumId);
              && out == regions + step.regions && next == step.next && stop == step.stop
      ensures next >= at
      decreases |x.binary| - offset, 0, 0, 2
    {
      var step := UnionElementStep(x.schema, x.binary, at, typeAt, typeEnum, enumId);
      var rs := step.regions;
      UnionStepFacts(x, offset, at, typeAt, typeEnum, enumId);
      if |rs| == 1 && rs[0].refersTo != Nothing {
        assert rs == [rs[0]];
        FollowElement(offset, rs[0], at);
        GrowsOn(before, old(sections), sections, offset + 1, offset + 1, offset + 1, HasOffset64(x.schema));
      }
      OneResolved(x, sections, rs);
      AppendResolved(x, old(sections), sections, regions, rs);
      out, next, stop := regions + rs, step.next, step.stop;
    }

    // ---------------------------------------------------------------- the whole annotation

    method FixMissingRegions()
      modifies this`sections
      ensures sections == FillAll(x.binary, old(sections))
    {
      for i := 0 to |sections|
        invariant |sections| == |old(sections)|
        invariant forall j :: 0 <= j < i ==> sections[j] == FillSection(x.binary, old(sections)[j])
        invariant forall j :: i <= j < |sections| ==> sections[j] == old(sections)[j]
      {
        var s := sections[i];
        if s.regions != [] {
          var regions := FixRegions(x.binary, s.regions);
          sections := sections[i := s.(regions := regions)];
        }
      }
    }

    /** Inserts what is missing between sections: it is never taken for a section that is there already. */
    method FixMissingSections()
      requires Laid(x.binary, sections) && sections != [] && sections[0].key == 0
      modifies this`sections
      ensures sections == Chain(x.binary, old(sections), |old(sections)|)
    {
      var missing := FindMissing(x.binary, sections);
      AddingIsChaining(x.binary, sections);
      AddSections(missing);
    }

    method AddSections(more: seq<Section>)
      modifies this`sections
      ensures sections == AddAll(old(sections), more)
    {
      for i := 0 to |more|
        invariant AddAll(sections, more[i..]) == AddAll(old(sections), more)
      {
        AddAllStep(sections, more, i);
        sections := Add(sections, more[i]);
      }
    }

    /** The walk: the header, and from the root table on all that is referred to. */
    method BuildAll()
      requires Inv() && sections == [] && vtables == map[]
      modifies this
      ensures Inv() && IsAnnotation(x, sections)
    {
      var root := BuildHeader();
      ghost var header := St();
      assert HeaderSection(x) in sections;
      if IsValidOffset(x.binary, root) {
        RootReached(x);
        BuildTable(root, RootTable, x.schema.root);
      }
      StateIsAnnotation(x, header, St());
    }

    /** The sections of the binary. What the walk found, before any gaps were filled, is built. */
    method Annotate() returns (result: seq<Section>, ghost built: seq<Section>)
      requires WellFormed(x.schema)
      modifies this
      ensures |x.binary| < 12 ==> result == [] && unchanged(this)
      ensures |x.binary| >= 12 ==>
                IsAnnotation(x, built) && Sound(x.binary, built) && result == Finish(x.binary, built)
    {
      built := [];
      if |x.binary| < MIN_BUFFER_SIZE {
        return [], [];
      }
      sections, vtables := [], map[];
      BuildAll();
      built := sections;
      AnnotationIsSound(x, built);
      FilledLaid(x.binary, built);
      FixMissingRegions();
      FixMissingSections();
      result := sections;
    }
  }
}
