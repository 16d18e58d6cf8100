/**
 * The regions that each kind of section consists of, as functions of the binary alone. The binary is arbitrary:
 * every read is checked, and what cannot be read becomes an error region.
 */
module Walks {
  import opened Bytes
  import opened Schema
  import opened StableSorting

  const MIN_BUFFER_SIZE: nat := 12

  predicate IsValidOffset(b: seq<byte>, offset: int) {
    0 <= offset < |b|
  }

  predicate IsValidRead(b: seq<byte>, offset: nat, length: int) {
    0 <= length < |b| && IsValidOffset(b, offset + length - 1)
  }

  function Remaining(b: seq<byte>, offset: nat): nat {
    if IsValidOffset(b, offset) then |b| - offset else 0
  }

  function Read(b: seq<byte>, offset: nat, size: nat): (v: Option<nat>)
    ensures v.Some? <==> IsValidRead(b, offset, size)
  {
    if IsValidRead(b, offset, size) then
      assert 0 <= offset <= offset + size <= |b|;
      Some(FromLE(b[offset..offset + size]))
    else None
  }

  function AsInt32(v: nat): int {
    if v < 0x8000_0000 then v else v - U32
  }

  function Incomplete(b: seq<byte>, offset: nat): Region {
    Plain(offset, Remaining(b, offset), Unknown, IncompleteBinary)
  }

  predicate IsValidUnionValue(s: Schema, enumIndex: int, value: nat) {
    0 <= enumIndex < |s.enums| && value < |s.enums[enumIndex]|
  }

  // ---------------------------------------------------------------- header

  predicate IsPrintable(b: seq<byte>, offset: nat, length: nat)
    requires offset + length <= |b|
  {
    forall i :: offset <= i < offset + length ==> 0x20 <= b[i] < 0x7F
  }

  /** The size prefix, if there is one: 64 bits if that is a possible size, else 32 bits, else none. */
  function PrefixRegions(b: seq<byte>, isSizePrefixed: bool): (rs: seq<Region>)
    requires |b| >= MIN_BUFFER_SIZE
  {
    if !isSizePrefixed then []
    else if FromLE(b[..8]) <= |b| then [Plain(0, 8, Uint64, Ok)]
    else if FromLE(b[..4]) <= |b| then [Plain(0, 4, Uint32, Ok)]
    else []
  }

  /** The header: prefix, offset of the root table, and a file identifier if four printable bytes follow. */
  function HeaderRegions(s: Schema, b: seq<byte>, isSizePrefixed: bool): seq<Region>
    requires |b| >= MIN_BUFFER_SIZE
  {
    var prefix := PrefixRegions(b, isSizePrefixed);
    var offset := if prefix == [] then 0 else prefix[0].length;
    var root := RootLocation(b, isSizePrefixed);
    prefix
    + [Region(offset, 4, UOffset, if IsValidOffset(b, root) then Ok else OffsetOutOfBinary, root, ToTable(s.root))]
    + if IsValidRead(b, offset + 4, 4) && IsPrintable(b, offset + 4, 4) then [Plain(offset + 4, 4, CharRegion, Ok)]
      else []
  }

  function RootLocation(b: seq<byte>, isSizePrefixed: bool): nat
    requires |b| >= MIN_BUFFER_SIZE
  {
    var prefix := PrefixRegions(b, isSizePrefixed);
    var offset := if prefix == [] then 0 else prefix[0].length;
    offset + FromLE(b[offset..offset + 4])
  }

  // ---------------------------------------------------------------- structs

  /** Regions read in order, and the offset behind them. */
  datatype Walk = Walk(regions: seq<Region>, end: nat)

  function ScalarWalk(b: seq<byte>, offset: nat, base: BaseType): Walk {
    if IsValidRead(b, offset, TypeSize(base))
    then Walk([Plain(offset, TypeSize(base), RegionTypeOf(base), Ok)], offset + TypeSize(base))
    else Walk([Incomplete(b, offset)], offset + Remaining(b, offset))
  }

  function PaddingWalk(b: seq<byte>, offset: nat, padding: nat): Walk {
    if padding > 0 && IsValidOffset(b, offset + padding)
    then Walk([Plain(offset, padding, Uint8, Ok)], offset + padding)
    else Walk([], offset)
  }

  function StructWalk(b: seq<byte>, offset: nat, def: StructDef): Walk
    decreases def, 0
  {
    FieldsWalk(b, offset, def.fields)
  }

  function FieldsWalk(b: seq<byte>, offset: nat, fields: seq<StructField>): Walk
    decreases fields, 0
  {
    if fields == [] then Walk([], offset)
    else
      var f := fields[0];
      assert f.ty < f;
      var w := FieldWalk(b, offset, f.ty);
      var p := PaddingWalk(b, w.end, f.padding);
      var rest := FieldsWalk(b, p.end, fields[1..]);
      Walk(w.regions + p.regions + rest.regions, rest.end)
  }

  function FieldWalk(b: seq<byte>, offset: nat, ty: StructFieldType): Walk
    decreases ty, 0
  {
    match ty
    case ScalarField(base) => ScalarWalk(b, offset, base)
    case NestedField(def) => StructWalk(b, offset, def)
    case ScalarArray(base, n) => ScalarArrayWalk(b, offset, base, n)
    case StructArray(def, n) => StructArrayWalk(b, offset, def, n)
  }

  /** An array of scalars ends at the first element that cannot be read. */
  function ScalarArrayWalk(b: seq<byte>, offset: nat, base: BaseType, n: nat): Walk
    decreases n
  {
    if n == 0 then Walk([], offset)
    else
      var w := ScalarWalk(b, offset, base);
      if !IsValidRead(b, offset, TypeSize(base)) then w
      else
        var rest := ScalarArrayWalk(b, w.end, base, n - 1);
        Walk(w.regions + rest.regions, rest.end)
  }

  function StructArrayWalk(b: seq<byte>, offset: nat, def: StructDef, n: nat): Walk
    decreases def, n
  {
    if n == 0 then Walk([], offset)
    else
      var w := StructWalk(b, offset, def);
      var rest := StructArrayWalk(b, w.end, def, n - 1);
      Walk(w.regions + rest.regions, rest.end)
  }

  // ---------------------------------------------------------------- strings

  function StringRegions(b: seq<byte>, offset: nat): seq<Region> {
    match Read(b, offset, 4)
    case None => [Incomplete(b, offset)]
    case Some(n) =>
      if !IsValidOffset(b, offset + 4 + n + 1 - 1) then [Plain(offset, 4, Uint32, LengthTooLong)]
      else [Plain(offset, 4, Uint32, Ok), Plain(offset + 4, n, CharRegion, Ok),
            Plain(offset + 4 + n, 1, CharRegion, Ok)]
  }

  // ---------------------------------------------------------------- vtables

  /** What a vtable says about one field: the field, unless the schema does not know it, and its offset in the table. */
  datatype Entry = Entry(id: nat, field: Option<Field>, offset: nat)

  datatype VTable = VTable(table: nat, fields: map<nat, Entry>, tableSize: nat)

  /** A vtable that could not be built leaves one error region. */
  datatype VTableResult = Bad(error: Region) | Good(regions: seq<Region>, vtable: VTable)

  /** State of the loops over the entries of a vtable. */
  datatype EntryScan = EntryScan(regions: seq<Region>, fields: map<nat, Entry>, processed: nat)

  /** Entry id of the vtable at offset, for a field that the schema knows. */
  function KnownEntry(b: seq<byte>, offset: nat, size: nat, referrer: nat, field: Field, id: nat,
                      scan: EntryScan): EntryScan {
    var at := offset + 4 + 2 * id;
    if at >= offset + size then scan
    else match Read(b, at, 2)
      case None => scan.(regions := scan.regions + [Incomplete(b, at)])
      case Some(v) =>
        if !IsValidOffset(b, referrer + v - 1) then
          scan.(regions := scan.regions + [Plain(at, 2, VOffset, OffsetOutOfBinary)])
        else
          var fields := if id in scan.fields then scan.fields else scan.fields[id := Entry(id, Some(field), v)];
          if v == 0 && field.required then
            EntryScan(scan.regions + [Plain(at, 2, VOffset, RequiredFieldNotPresent)], fields, scan.processed)
          else
            EntryScan(scan.regions + [Plain(at, 2, VOffset, Ok)], fields, scan.processed + 1)
  }

  function KnownEntries(b: seq<byte>, offset: nat, size: nat, referrer: nat, fields: seq<Field>, n: nat): EntryScan
    requires n <= |fields|
  {
    if n == 0 then EntryScan([], map[], 0)
    else KnownEntry(b, offset, size, referrer, fields[n - 1], n - 1,
                    KnownEntries(b, offset, size, referrer, fields, n - 1))
  }

  /** Entry id, for a field that the schema does not know. */
  function UnknownEntry(b: seq<byte>, offset: nat, id: nat, scan: EntryScan): EntryScan {
    var at := offset + 4 + 2 * id;
    match Read(b, at, 2)
    case None => scan.(regions := scan.regions + [Incomplete(b, at)])
    case Some(v) =>
      scan.(fields := if id in scan.fields then scan.fields else scan.fields[id := Entry(id, None, v)],
            regions := scan.regions + [Plain(at, 2, VOffset, Ok)])
  }

  function UnknownEntries(b: seq<byte>, offset: nat, lo: nat, hi: nat, scan: EntryScan): EntryScan
    decreases hi
  {
    if lo >= hi then scan else UnknownEntry(b, offset, hi - 1, UnknownEntries(b, offset, lo, hi - 1, scan))
  }

  /** How many entries are annotated in all: those the size allows, but at most three times those processed. */
  function EntryCount(size: nat, processed: nat): nat
    requires size >= 4
  {
    var allowed, cap := (size - 4) / 2, (processed * 3) % U16;
    if cap < allowed then cap else allowed
  }

  function TableSizeStatus(b: seq<byte>, referrer: nat, tableSize: nat): Status {
    if !IsValidOffset(b, referrer + tableSize - 1) then LengthTooLong
    else if tableSize < 4 then LengthTooShort
    else Ok
  }

  /** A vtable can be read at the offset: it has room for its two sizes, and ends in the binary. */
  predicate IsUsable(b: seq<byte>, offset: nat) {
    match Read(b, offset, 2)
    case None => false
    case Some(size) => IsValidOffset(b, offset + size - 1) && size >= 4
  }

  /** The vtable at offset, for a table at referrer. */
  function VTableAt(s: Schema, b: seq<byte>, offset: nat, table: nat, referrer: nat): (r: VTableResult)
    requires |b| >= MIN_BUFFER_SIZE && table < |s.tables|
    ensures r.Good? <==> IsUsable(b, offset)
    ensures r.Good? ==> r.vtable.table == table
  {
    match Read(b, offset, 2)
    case None => Bad(Incomplete(b, offset))
    case Some(size) =>
      if !IsValidOffset(b, offset + size - 1) then Bad(Plain(offset, 2, Uint16, LengthTooLong))
      else if size < 4 then Bad(Plain(offset, 2, Uint16, LengthTooShort))
      else
        // The size is at least 4 and within the binary, so the size of the table can be read.
        var tableSize := Read(b, offset + 2, 2).value;
        var known := KnownEntries(b, offset, size, referrer, s.tables[table], |s.tables[table]|);
        var all := UnknownEntries(b, offset, known.processed, EntryCount(size, known.processed), known);
        Good([Plain(offset, 2, Uint16, Ok), Plain(offset + 2, 2, Uint16, TableSizeStatus(b, referrer, tableSize))]
             + all.regions,
             VTable(table, all.fields, tableSize))
  }

  // ---------------------------------------------------------------- tables

  /** The entries of a map in ascending order of id. */
  function Listing(fields: map<nat, Entry>, below: nat): seq<Entry> {
    if below == 0 then []
    else Listing(fields, below - 1) + if below - 1 in fields then [fields[below - 1]] else []
  }

  /** The entries of a vtable in the order of their fields in the table. */
  function InTableOrder(vtable: VTable): seq<Entry> {
    StableSort(Listing(vtable.fields, U16), (e: Entry) => e.offset)
  }

  function TableEnd(b: seq<byte>, offset: nat, tableSize: nat): nat {
    if IsValidOffset(b, offset + tableSize - 1) then offset + tableSize else |b|
  }

  /** A field the schema does not know reaches to the next field, or to the end of the table. */
  function UnknownFieldRegions(b: seq<byte>, at: nat, end: nat): seq<Region> {
    var length := end - at;
    if length == 0 then []
    else if !IsValidRead(b, at, length) then [Incomplete(b, at)]
    else [Plain(at, length, Unknown, Ok)]
  }

  function ScalarFieldRegions(s: Schema, b: seq<byte>, at: nat, base: BaseType, enumIndex: int): seq<Region> {
    if !IsValidRead(b, at, TypeSize(base)) then [Incomplete(b, at)]
    else if base == UType && enumIndex >= 0 && !IsValidUnionValue(s, enumIndex, Read(b, at, 1).value) then
      [Plain(at, TypeSize(base), RegionTypeOf(base), InvalidUnionType)]
    else [Plain(at, TypeSize(base), RegionTypeOf(base), Ok)]
  }

  /** A field that holds an offset: what it refers to, if that is decided without following it. */
  function OffsetFieldRegions(s: Schema, b: seq<byte>, table: nat, at: nat, id: nat, f: Field,
                              entries: map<nat, Entry>): seq<Region>
    requires !f.ty.Scalar? && !f.ty.Struct?
  {
    var size := if f.offset64 then 8 else 4;
    var ty := if f.offset64 then UOffset64 else UOffset;
    var offset := match Read(b, at, size) case Some(v) => v case None => 0;
    var target := if f.offset64 then (at + offset) % U64 else at + offset;
    if offset == 0 then [Incomplete(b, at)]
    else if !IsValidOffset(b, target) then [Region(at, size, ty, OffsetOutOfBinary, target, Nothing)]
    else match f.ty
      case Table(t) => [Region(at, size, ty, Ok, target, ToTable(t))]
      case Str => [Region(at, size, ty, Ok, target, ToString)]
      case Vector(e, is64) => [Region(at, size, ty, Ok, target, ToVector(id, e, is64))]
      case Union(e) =>
        var typeId := (id + U16 - 1) % U16;
        if typeId !in entries then []
        else
          var typeAt := table + entries[typeId].offset;
          match Read(b, typeAt, 1)
          case None => [Incomplete(b, typeAt)]
          case Some(v) =>
            if IsValidUnionValue(s, e, v) then [Region(at, size, ty, Ok, target, ToUnion(e, v))] else []
  }

  /** The regions of field i of the table at offset, in table order. */
  function TableFieldRegions(s: Schema, b: seq<byte>, offset: nat, vtable: VTable, order: seq<Entry>,
                             i: nat): seq<Region>
    requires i < |order|
  {
    var e := order[i];
    var at := offset + e.offset;
    if e.offset == 0 || !IsValidOffset(b, at) then []
    else match e.field
      case None =>
        UnknownFieldRegions(b, at, if i + 1 < |order| then offset + order[i + 1].offset
                                   else TableEnd(b, offset, vtable.tableSize))
      case Some(f) =>
        match f.ty
        case Scalar(base, enumIndex) => ScalarFieldRegions(s, b, at, base, enumIndex)
        case Struct(def) => StructWalk(b, at, def).regions
        case _ => OffsetFieldRegions(s, b, offset, at, e.id, f, vtable.fields)
  }

  function TableFieldsRegions(s: Schema, b: seq<byte>, offset: nat, vtable: VTable, order: seq<Entry>,
                              n: nat): seq<Region>
    requires n <= |order|
  {
    if n == 0 then []
    else TableFieldsRegions(s, b, offset, vtable, order, n - 1) + TableFieldRegions(s, b, offset, vtable, order, n - 1)
  }

  /** Padding from the last region to the end of the table; a single byte is left out. */
  function TablePadding(last: Region, end: nat): seq<Region> {
    var i := last.offset + last.length + 1;
    if i < end then [Plain(i - 1, end - i + 1, Uint8, Ok)] else []
  }

  /** Where the vtable of the table at offset is, if that can be read. */
  function VTableLocation(b: seq<byte>, offset: nat): Option<int> {
    match Read(b, offset, 4)
    case None => None
    case Some(v) => Some(offset - AsInt32(v))
  }

  /** The section of a table without a usable vtable offset. */
  function LoneTableRegion(b: seq<byte>, offset: nat): Region {
    match VTableLocation(b, offset)
    case None => Incomplete(b, offset)
    case Some(v) => Region(offset, 4, SOffset, OffsetOutOfBinary, v, Nothing)
  }

  function TableRegions(s: Schema, b: seq<byte>, offset: nat, vtable: VTable): seq<Region>
    requires VTableLocation(b, offset).Some?
  {
    var order := InTableOrder(vtable);
    var first := Region(offset, 4, SOffset, Ok, VTableLocation(b, offset).value, Nothing);
    var rs := [first] + TableFieldsRegions(s, b, offset, vtable, order, |order|);
    rs + TablePadding(rs[|rs| - 1], TableEnd(b, offset, vtable.tableSize))
  }

  // ---------------------------------------------------------------- vectors

  function ElementSize(e: ElementType): nat {
    match e
    case ScalarElement(base, _) => TypeSize(base)
    case StructElement(def) => def.bytesize
    case _ => 4
  }

  /** An element that holds an offset: a table that refers to the table the vector is in is a cycle. */
  function OffsetElement(b: seq<byte>, at: nat, refersTo: Referent, parent: nat): Region {
    match Read(b, at, 4)
    case None => Incomplete(b, at)
    case Some(v) =>
      if !IsValidOffset(b, at + v) then Region(at, 4, UOffset, OffsetOutOfBinary, at + v, Nothing)
      else if refersTo.ToTable? && at + v == parent then Region(at, 4, UOffset, CycleDetected, at + v, Nothing)
      else Region(at, 4, UOffset, Ok, at + v, refersTo)
  }

  /** Elements that hold offsets to tables, or to strings, up to the first that cannot be read. */
  function OffsetElements(b: seq<byte>, at: nat, n: nat, refersTo: Referent, parent: nat): seq<Region>
    decreases n
  {
    if n == 0 then []
    else
      var r := OffsetElement(b, at, refersTo, parent);
      if Read(b, at, 4) == None then [r] else [r] + OffsetElements(b, at + 4, n - 1, refersTo, parent)
  }

  /** Structs, up to the first that has no extent. */
  function StructElements(b: seq<byte>, at: nat, def: StructDef, n: nat): seq<Region>
    decreases n
  {
    if n == 0 then []
    else
      var w := StructWalk(b, at, def);
      if w.end == at then w.regions else w.regions + StructElements(b, w.end, def, n - 1)
  }

  function ScalarElementRegion(s: Schema, b: seq<byte>, at: nat, base: BaseType, enumIndex: int): Region {
    if !IsValidRead(b, at, TypeSize(base)) then Incomplete(b, at)
    else if base == UType && !IsValidUnionValue(s, enumIndex, Read(b, at, 1).value) then
      Plain(at, TypeSize(base), RegionTypeOf(base), InvalidUnionType)
    else Plain(at, TypeSize(base), RegionTypeOf(base), Ok)
  }

  function ScalarElements(s: Schema, b: seq<byte>, at: nat, base: BaseType, enumIndex: int, n: nat): seq<Region>
    decreases n
  {
    if n == 0 then []
    else
      var r := ScalarElementRegion(s, b, at, base, enumIndex);
      if !IsValidRead(b, at, TypeSize(base)) then [r]
      else [r] + ScalarElements(s, b, at + TypeSize(base), base, enumIndex, n - 1)
  }

  /** The enum a field's type goes with, negative if none. */
  function EnumOf(field: Option<Field>): int {
    match field
    case Some(Field(Scalar(_, e), _, _)) => e
    case Some(Field(Vector(ScalarElement(_, e), _), _, _)) => e
    case _ => -1
  }

  /** A union element: its region, if it gets one, and how far the walk goes on. */
  datatype UnionStep = UnionStep(regions: seq<Region>, next: nat, stop: bool)

  function UnionElementStep(s: Schema, b: seq<byte>, at: nat, typeAt: nat, typeEnum: int, enumId: nat): UnionStep {
    match Read(b, at, 4)
    case None => UnionStep([Incomplete(b, at)], at, true)
    case Some(v) =>
      if !IsValidOffset(b, at + v) then
        UnionStep([Region(at, 4, UOffset, OffsetOutOfBinary, at + v, Nothing)], at, false)
      else match Read(b, typeAt, 1)
        case None => UnionStep([Plain(at, 0, Unknown, IncompleteBinary)], at, false)
        case Some(value) =>
          if !IsValidUnionValue(s, typeEnum, value) then UnionStep([], at + 4, false)
          else UnionStep([Region(at, 4, UOffset, Ok, at + v, ToUnion(enumId, value))], at + 4, false)
  }

  function UnionElements(s: Schema, b: seq<byte>, at: nat, typeAt: nat, typeEnum: int, enumId: nat, n: nat): seq<Region>
    decreases n
  {
    if n == 0 then []
    else
      var step := UnionElementStep(s, b, at, typeAt, typeEnum, enumId);
      if step.stop then step.regions
      else step.regions + UnionElements(s, b, step.next, typeAt + 1, typeEnum, enumId, n - 1)
  }

  /** Where the types of a vector of unions are read from: None if the table has no such field. */
  datatype UnionTypes = NoTypes | UnreadableTypes | TypesAt(at: nat, typeEnum: int)

  function UnionTypesOf(b: seq<byte>, id: nat, parent: nat, entries: map<nat, Entry>): UnionTypes {
    var typeId := (id + U16 - 1) % U16;
    if typeId !in entries then NoTypes
    else
      var fieldAt := parent + entries[typeId].offset;
      match Read(b, fieldAt, 2)
      case None => UnreadableTypes
      case Some(v) => TypesAt(fieldAt + v + 4, EnumOf(entries[typeId].field))
  }

  /** What a vector section starts with: an error alone, or the length and the elements behind it. */
  datatype VectorStart = BadVector(error: Region) | Elements(length: Region, n: nat)

  function VectorStartAt(b: seq<byte>, offset: nat, e: ElementType, is64: bool): VectorStart {
    var size := if is64 then 8 else 4;
    var ty := if is64 then Uint64 else Uint32;
    match Read(b, offset, size)
    case None => BadVector(Incomplete(b, offset))
    case Some(n) =>
      if !IsValidOffset(b, (offset + size + n * ElementSize(e)) % U64 - 1) then
        BadVector(Plain(offset, size, ty, LengthTooLong))
      else Elements(Plain(offset, size, ty, Ok), n)
  }

  function ElementRegions(s: Schema, b: seq<byte>, at: nat, n: nat, e: ElementType,
                          id: nat, parent: nat, entries: map<nat, Entry>): seq<Region>
  {
    match e
    case ScalarElement(base, enumIndex) => ScalarElements(s, b, at, base, enumIndex, n)
    case StructElement(def) => StructElements(b, at, def, n)
    case TableElement(t) => OffsetElements(b, at, n, ToTable(t), parent)
    case StringElement => OffsetElements(b, at, n, ToString, parent)
    case UnionElement(enumId) =>
      match UnionTypesOf(b, id, parent, entries)
      case NoTypes => []
      case UnreadableTypes => [Incomplete(b, at)]
      case TypesAt(typeAt, typeEnum) => UnionElements(s, b, at, typeAt, typeEnum, enumId, n)
  }

  /** The vector at offset, of field id of the table at parent. */
  function VectorRegions(s: Schema, b: seq<byte>, offset: nat, e: ElementType, is64: bool,
                         id: nat, parent: nat, entries: map<nat, Entry>): seq<Region>
  {
    match VectorStartAt(b, offset, e, is64)
    case BadVector(error) => [error]
    case Elements(length, n) =>
      [length] + ElementRegions(s, b, offset + length.length, n, e, id, parent, entries)
  }
}
