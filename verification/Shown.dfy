/** What each thing is shown as, told from the schema and the bytes. */
module Shown {
  import opened Bytes
  import opened Schema
  import opened Sections
  import opened Walks
  import opened WalkFacts
  import opened References
  import opened Annotations
  import opened Gaps
  import opened SectionGaps

  // ---------------------------------------------------------------- numbers

  /** A number can be read if it ends in the binary and is not all of it; it is what the bytes there say. */
  lemma ReadIff(b: seq<byte>, offset: nat, size: nat)
    ensures Read(b, offset, size).Some? <==> size < |b| && 0 < offset + size <= |b|
    ensures Read(b, offset, size).Some? ==> Read(b, offset, size) == Some(FromLE(b[offset..offset + size]))
  {
  }

  /** Four bytes as a signed number: the one in the signed range that is the same modulo 2^32. */
  lemma SignedIff(v: nat, n: int)
    requires v < U32
    ensures n == AsInt32(v) <==> -0x8000_0000 <= n < 0x8000_0000 && n % U32 == v
  {
    if -0x8000_0000 <= n < 0x8000_0000 {
      DivModUnique(n, U32, if n < 0 then -1 else 0, if n < 0 then n + U32 else n);
    }
  }

  /** How many bytes a region of the type holds, if it holds one number. */
  function Width(ty: RegionType): nat {
    match ty
    case Uint8 | UTypeRegion => 1
    case VOffset | Uint16 | Int16 => 2
    case UOffset | SOffset | Uint32 | FloatRegion => 4
    case UOffset64 | Uint64 | Int64 | DoubleRegion => 8
    case Unknown | CharRegion => 0
  }

  predicate IsOffsetType(ty: RegionType) {
    ty in {UOffset, SOffset, VOffset, UOffset64}
  }

  /**
   * The region type for a scalar is the one of its width that is floating point, or a union's type, exactly if the
   * scalar is; integers of two and of eight bytes are signed exactly if the scalar is, and others never.
   */
  lemma RegionTypeIff(base: BaseType, ty: RegionType)
    ensures ty == RegionTypeOf(base)
            <==> && Width(ty) == (if base in {UType, Bool, Byte, UByte} then 1 else if base in {Short, UShort} then 2
                                  else if base in {Int, UInt, Float} then 4 else 8)
                 && !IsOffsetType(ty)
                 && (ty in {FloatRegion, DoubleRegion} <==> base in {Float, Double})
                 && (ty == UTypeRegion <==> base == UType)
                 && (ty in {Int16, Int64} <==> base in {Short, Long})
    ensures TypeSize(base) == Width(RegionTypeOf(base))
  {
  }

  // ---------------------------------------------------------------- the header

  /** How many bytes the size prefix has: eight if they are a possible size, else four if those are, else none. */
  function PrefixLength(x: Input): nat
    requires |x.binary| >= MIN_BUFFER_SIZE
  {
    if x.isSizePrefixed && FromLE(x.binary[..8]) <= |x.binary| then 8
    else if x.isSizePrefixed && FromLE(x.binary[..4]) <= |x.binary| then 4
    else 0
  }

  /** The root is as far behind the prefix as the four bytes there say. */
  lemma RootIs(x: Input)
    requires |x.binary| >= MIN_BUFFER_SIZE
    ensures var n := PrefixLength(x);
            RootLocation(x.binary, x.isSizePrefixed) == n + FromLE(x.binary[n..n + 4])
  {
  }

  predicate Printable(b: seq<byte>, from: nat, to: nat)
    requires to <= |b|
  {
    forall i :: from <= i < to ==> 32 <= b[i] <= 126
  }

  /**
   * The header has a region for the prefix, if there is one, one for the root offset behind it, and one for a file
   * identifier exactly if there are four more bytes and all can be printed.
   */
  lemma HeaderShown(x: Input)
    requires |x.binary| >= MIN_BUFFER_SIZE
    ensures var rs, n := HeaderRegions(x.schema, x.binary, x.isSizePrefixed), PrefixLength(x);
            var root, k := RootLocation(x.binary, x.isSizePrefixed), if n == 0 then 0 else 1;
            && n + 4 <= |x.binary| && Contiguous(rs, 0)
            && (n > 0 ==> rs[0] == Plain(0, n, if n == 8 then Uint64 else Uint32, Ok))
            && k < |rs| && rs[k].offset == n && rs[k].length == 4 && rs[k].ty == UOffset && rs[k].target == root
            && rs[k].refersTo == ToTable(x.schema.root)
            && rs[k].status == (if root < |x.binary| then Ok else OffsetOutOfBinary)
            && |rs| == k + (if n + 8 <= |x.binary| && Printable(x.binary, n + 4, n + 8) then 2 else 1)
            && (|rs| == k + 2 ==> rs[k + 1] == Plain(n + 4, 4, CharRegion, Ok))
  {
  }

  // ---------------------------------------------------------------- strings

  /** Length, characters and terminator end to end, exactly if all lie in the binary; else the length is in error. */
  lemma StringShown(b: seq<byte>, offset: nat, n: nat)
    requires Read(b, offset, 4) == Some(n)
    ensures var rs := StringRegions(b, offset);
            && rs[0].offset == offset && rs[0].length == 4 && rs[0].ty == Uint32
            && (forall r :: r in rs ==> r.refersTo == Nothing)
            && (rs[0].status == Ok <==> offset + 4 + n < |b|) && (rs[0].status == LengthTooLong <==> |rs| == 1)
            && (offset + 4 + n < |b| ==>
                  && |rs| == 3 && Contiguous(rs, offset) && rs[1].length == n && rs[2].length == 1
                  && EndOf(rs[2]) == offset + n + 5
                  && rs[1].ty == rs[2].ty == CharRegion && rs[1].status == rs[2].status == Ok)
            && (|rs| == 1 <==> offset + 4 + n >= |b|)
  {
  }

  /** What cannot be read is one region up to the end of the binary that says so. */
  predicate CutShort(b: seq<byte>, offset: nat, rs: seq<Region>) {
    |rs| == 1 && rs[0].offset == offset && rs[0].status == IncompleteBinary && rs[0].ty == Unknown
    && rs[0].refersTo == Nothing && EndOf(rs[0]) == if offset < |b| then |b| else offset
  }

  lemma StringCutShort(b: seq<byte>, offset: nat)
    ensures CutShort(b, offset, StringRegions(b, offset)) <==> Read(b, offset, 4) == None
  {
  }

  // ---------------------------------------------------------------- scalars

  /** A number in a struct, exactly if it can be read. */
  lemma ScalarShown(b: seq<byte>, offset: nat, base: BaseType)
    ensures var w := ScalarWalk(b, offset, base);
            && (w.regions == [Plain(offset, Width(RegionTypeOf(base)), RegionTypeOf(base), Ok)]
                <==> Read(b, offset, TypeSize(base)).Some?)
            && (CutShort(b, offset, w.regions) <==> Read(b, offset, TypeSize(base)) == None)
            && w.end == EndOf(w.regions[0])
  {
  }

  /** A number in a table, in error exactly if it is the type of a union that has no such type. */
  lemma ScalarFieldShown(s: Schema, b: seq<byte>, at: nat, base: BaseType, e: int)
    ensures var rs := ScalarFieldRegions(s, b, at, base, e);
            match Read(b, at, TypeSize(base))
            case None => CutShort(b, at, rs)
            case Some(v) =>
              && |rs| == 1 && rs[0].offset == at && rs[0].length == TypeSize(base) && rs[0].ty == RegionTypeOf(base)
              && rs[0].refersTo == Nothing && rs[0].status in {Ok, InvalidUnionType}
              && (rs[0].status == InvalidUnionType
                  <==> base == UType && e >= 0 && (e >= |s.enums| || v >= |s.enums[e]|))
  {
  }

  lemma {:induction false} ScalarElementAt(s: Schema, b: seq<byte>, at: nat, base: BaseType, e: int, n: nat, i: nat)
    requires |b| >= MIN_BUFFER_SIZE && i < n && at + (i + 1) * TypeSize(base) <= |b|
    ensures i < |ScalarElements(s, b, at, base, e, n)| && at + i * TypeSize(base) >= at
    ensures ScalarElements(s, b, at, base, e, n)[i] == ScalarElementRegion(s, b, at + i * TypeSize(base), base, e)
    decreases n
  {
    var size := TypeSize(base);
    MulNonNegative(i, size);
    assert (i + 1) * size == i * size + size;
    if i > 0 {
      MulNonNegative(i - 1, size);
      assert i * size == (i - 1) * size + size;
      ScalarElementAt(s, b, at + size, base, e, n - 1, i - 1);
    }
  }

  /** Element i of a vector of numbers that lies in the binary, at the place here. */
  lemma ScalarElementShown(s: Schema, b: seq<byte>, at: nat, base: BaseType, e: int, n: nat, i: nat, here: nat)
    requires |b| >= MIN_BUFFER_SIZE && i < n && here == at + i * TypeSize(base) && here + TypeSize(base) <= |b|
    ensures var rs := ScalarElements(s, b, at, base, e, n);
            && Read(b, here, TypeSize(base)).Some? && i < |rs|
            && rs[i] == Plain(here, TypeSize(base), RegionTypeOf(base), rs[i].status)
            && rs[i].status in {Ok, InvalidUnionType}
            && (rs[i].status == InvalidUnionType
                <==> base == UType && !(0 <= e < |s.enums| && Read(b, here, 1).value < |s.enums[e]|))
  {
    assert (i + 1) * TypeSize(base) == i * TypeSize(base) + TypeSize(base);
    ScalarElementAt(s, b, at, base, e, n, i);
  }

  /**
   * What the schema does not know reaches to the next field, or the table's end; nothing if that is at its own place.
   */
  lemma UnknownFieldShown(b: seq<byte>, at: nat, end: nat)
    requires IsValidOffset(b, at) && at <= end
    ensures var rs := UnknownFieldRegions(b, at, end);
            && (rs == [] <==> at == end)
            && (rs == [Plain(at, end - at, Unknown, Ok)] <==> at < end <= |b| && end - at < |b|)
            && (CutShort(b, at, rs) <==> at < end && !(end <= |b| && end - at < |b|))
  {
  }

  // ---------------------------------------------------------------- gaps

  predicate AllZero(b: seq<byte>, from: nat, to: nat)
    requires to <= |b|
  {
    forall i :: from <= i < to ==> b[i] == 0
  }

  /** A gap in a section is shown as bytes if they are all zero; else as unknown, with a warning. */
  lemma GapIff(b: seq<byte>, g: Region)
    ensures IsGap(b, g)
            <==> && g.length > 0 && EndOf(g) <= |b| && g.target == 0 && g.refersTo == Nothing
                 && (AllZero(b, g.offset, EndOf(g)) ==> g.ty == Uint8 && g.status == Ok)
                 && (!AllZero(b, g.offset, EndOf(g)) ==> g.ty == Unknown && g.status == WarnNoReferences)
  {
  }

  /** What kind of section fills a gap between sections, and what it warns of: from eight bytes on, that it is long. */
  lemma GapSectionIff(b: seq<byte>, ss: seq<Section>, i: nat, s: Section)
    requires Laid(b, ss) && i < |ss|
    ensures FillsGap(b, ss, i, s)
            <==> var from, to := End(ss[i]), if i + 1 < |ss| then ss[i + 1].key else |b|;
                 && from + 2 <= to && s.key == from && |s.regions| == 1
                 && var r := s.regions[0];
                    && r.offset == from && EndOf(r) == to && r.target == 0 && r.refersTo == Nothing
                    && (AllZero(b, from, to) ==>
                          && s.ty == PaddingSection && r.ty == Uint8
                          && r.status == if to - from >= 8 then WarnPaddingLength else Ok)
                    && (!AllZero(b, from, to) ==>
                          && s.ty == UnknownSection && r.ty == Unknown
                          && r.status == if to - from >= 8 then WarnNoReferences else WarnCorruptedPadding)
  {
    var from, to := End(ss[i]), if i + 1 < |ss| then ss[i + 1].key else |b|;
    if from + 2 <= to {
      var m := MissingSection(b, from, to - from);
      assert m.regions == [m.regions[0]];
    }
  }

  // ---------------------------------------------------------------- vtables

  /** A vtable that cannot be read: its size is not there, or too large for the binary, or too small for a vtable. */
  lemma BadVTableShown(s: Schema, b: seq<byte>, offset: nat, table: nat, referrer: nat)
    requires |b| >= MIN_BUFFER_SIZE && table < |s.tables|
    ensures match VTableAt(s, b, offset, table, referrer)
            case Good(_, _) =>
              Read(b, offset, 2).Some? && 4 <= Read(b, offset, 2).value <= |b| - offset
            case Bad(r) =>
              && r.offset == offset && r.refersTo == Nothing
              && (r.status == IncompleteBinary ==> CutShort(b, offset, [r]))
              && (r.status == IncompleteBinary <==> Read(b, offset, 2) == None)
              && (r.status != IncompleteBinary ==> r.length == 2 && r.ty == Uint16)
              && (r.status == LengthTooLong
                  <==> Read(b, offset, 2).Some? && !(1 <= offset + Read(b, offset, 2).value <= |b|))
              && (r.status == LengthTooShort
                  <==> && Read(b, offset, 2).Some? && 1 <= offset + Read(b, offset, 2).value <= |b|
                       && Read(b, offset, 2).value < 4)
  {
  }

  /** The two sizes in front, the second in error exactly if the table would not end in the binary, or is too short. */
  lemma VTableSizesShown(s: Schema, b: seq<byte>, offset: nat, table: nat, referrer: nat)
    requires |b| >= MIN_BUFFER_SIZE && table < |s.tables| && VTableAt(s, b, offset, table, referrer).Good?
    ensures var Good(rs, v) := VTableAt(s, b, offset, table, referrer);
            && |rs| >= 2 && rs[0] == Plain(offset, 2, Uint16, Ok)
            && Read(b, offset + 2, 2) == Some(v.tableSize) && rs[1] == Plain(offset + 2, 2, Uint16, rs[1].status)
            && rs[1].status in {Ok, LengthTooLong, LengthTooShort}
            && (rs[1].status == LengthTooLong <==> !(1 <= referrer + v.tableSize <= |b|))
            && (rs[1].status == LengthTooShort <==> 1 <= referrer + v.tableSize <= |b| && v.tableSize < 4)
  {
  }

  /** The status of the entry that holds v for a field. */
  predicate EntryStatus(b: seq<byte>, referrer: nat, v: nat, required: bool, status: Status) {
    && status in {Ok, OffsetOutOfBinary, RequiredFieldNotPresent}
    && (status == OffsetOutOfBinary <==> !(1 <= referrer + v <= |b|))
    && (status == RequiredFieldNotPresent <==> 1 <= referrer + v <= |b| && v == 0 && required)
  }

  lemma {:induction false} KnownRegion(b: seq<byte>, offset: nat, size: nat, referrer: nat, fields: seq<Field>, n: nat,
                                       id: nat) returns (r: Region)
    requires id < n <= |fields| && 4 + 2 * id < size
    ensures r in KnownEntries(b, offset, size, referrer, fields, n).regions && r.offset == offset + 4 + 2 * id
    ensures match Read(b, offset + 4 + 2 * id, 2)
            case None => CutShort(b, r.offset, [r])
            case Some(v) =>
              r == Plain(r.offset, 2, VOffset, r.status) && EntryStatus(b, referrer, v, fields[id].required, r.status)
  {
    var scan := KnownEntries(b, offset, size, referrer, fields, n);
    if id < n - 1 {
      r := KnownRegion(b, offset, size, referrer, fields, n - 1, id);
    } else {
      r := scan.regions[|scan.regions| - 1];
    }
  }

  lemma {:induction false} UnknownKeeps(b: seq<byte>, offset: nat, lo: nat, hi: nat, scan: EntryScan, r: Region)
    requires r in scan.regions
    ensures r in UnknownEntries(b, offset, lo, hi, scan).regions
    decreases hi
  {
    if lo < hi {
      UnknownKeeps(b, offset, lo, hi - 1, scan, r);
    }
  }

  /** Every entry for a field of the schema has a region, with what is wrong with it. */
  lemma EntryShown(s: Schema, b: seq<byte>, offset: nat, table: nat, referrer: nat, id: nat) returns (r: Region)
    requires |b| >= MIN_BUFFER_SIZE && table < |s.tables| && VTableAt(s, b, offset, table, referrer).Good?
    requires id < |s.tables[table]| && 4 + 2 * id < Read(b, offset, 2).value
    ensures r in VTableAt(s, b, offset, table, referrer).regions && r.offset == offset + 4 + 2 * id
    ensures match Read(b, offset + 4 + 2 * id, 2)
            case None => CutShort(b, r.offset, [r])
            case Some(v) =>
              && r == Plain(r.offset, 2, VOffset, r.status)
              && EntryStatus(b, referrer, v, s.tables[table][id].required, r.status)
  {
    var fields, size := s.tables[table], Read(b, offset, 2).value;
    var known := KnownEntries(b, offset, size, referrer, fields, |fields|);
    r := KnownRegion(b, offset, size, referrer, fields, |fields|, id);
    UnknownKeeps(b, offset, known.processed, EntryCount(size, known.processed), known, r);
  }

  /** The field is listed, and is not a required one that is missing: it counts as one the schema and binary share. */
  predicate IsShared(b: seq<byte>, offset: nat, size: nat, referrer: nat, fields: seq<Field>, id: nat)
    requires id < |fields|
  {
    Listed(b, offset, size, referrer, id) && !(Read(b, offset + 4 + 2 * id, 2).value == 0 && fields[id].required)
  }

  function SharedIds(b: seq<byte>, offset: nat, size: nat, referrer: nat, fields: seq<Field>, n: nat): set<nat>
    requires n <= |fields|
  {
    set id: nat | id < n && IsShared(b, offset, size, referrer, fields, id)
  }

  lemma SharedStep(b: seq<byte>, offset: nat, size: nat, referrer: nat, fields: seq<Field>, n: nat)
    requires n < |fields|
    ensures |SharedIds(b, offset, size, referrer, fields, n + 1)|
            == |SharedIds(b, offset, size, referrer, fields, n)|
               + if IsShared(b, offset, size, referrer, fields, n) then 1 else 0
  {
    var before := SharedIds(b, offset, size, referrer, fields, n);
    var all := SharedIds(b, offset, size, referrer, fields, n + 1);
    assert all == if IsShared(b, offset, size, referrer, fields, n) then before + {n} else before;
  }

  lemma ProcessedStep(b: seq<byte>, offset: nat, size: nat, referrer: nat, fields: seq<Field>, id: nat, scan: EntryScan)
    requires id < |fields|
    ensures KnownEntry(b, offset, size, referrer, fields[id], id, scan).processed
            == scan.processed + if IsShared(b, offset, size, referrer, fields, id) then 1 else 0
  {
  }

  lemma {:induction false} ProcessedAre(b: seq<byte>, offset: nat, size: nat, referrer: nat, fields: seq<Field>, n: nat)
    requires n <= |fields|
    ensures KnownEntries(b, offset, size, referrer, fields, n).processed
            == |SharedIds(b, offset, size, referrer, fields, n)|
  {
    if n == 0 {
      assert SharedIds(b, offset, size, referrer, fields, 0) == {};
    } else {
      ProcessedAre(b, offset, size, referrer, fields, n - 1);
      SharedStep(b, offset, size, referrer, fields, n - 1);
      ProcessedStep(b, offset, size, referrer, fields, n - 1,
                    KnownEntries(b, offset, size, referrer, fields, n - 1));
    }
  }

  lemma {:induction false} UnknownIff(b: seq<byte>, offset: nat, lo: nat, hi: nat, scan: EntryScan, id: nat)
    ensures id in UnknownEntries(b, offset, lo, hi, scan).fields
            <==> id in scan.fields || (lo <= id < hi && Read(b, offset + 4 + 2 * id, 2).Some?)
    decreases hi
  {
    if lo < hi {
      UnknownIff(b, offset, lo, hi - 1, scan, id);
    }
  }

  /**
   * Exactly which ids have an entry: those of fields that the vtable lists, and from the number of shared fields on as
   * many more as there is room for, but not more than three times that number, counted in 16 bits.
   */
  lemma EntryIff(s: Schema, b: seq<byte>, offset: nat, table: nat, referrer: nat, id: nat)
    requires |b| >= MIN_BUFFER_SIZE && table < |s.tables| && VTableAt(s, b, offset, table, referrer).Good?
    ensures var fields, size := s.tables[table], Read(b, offset, 2).value;
            var shared := |SharedIds(b, offset, size, referrer, fields, |fields|)|;
            id in VTableAt(s, b, offset, table, referrer).vtable.fields
            <==> || (id < |fields| && Listed(b, offset, size, referrer, id))
                 || (shared <= id < (3 * shared) % U16 && 4 + 2 * id + 2 <= size)
  {
    var fields, size := s.tables[table], Read(b, offset, 2).value;
    var known := KnownEntries(b, offset, size, referrer, fields, |fields|);
    KnownListed(b, offset, size, referrer, fields, |fields|, id);
    ProcessedAre(b, offset, size, referrer, fields, |fields|);
    UnknownIff(b, offset, known.processed, EntryCount(size, known.processed), known, id);
  }

  lemma {:induction false} UnknownRegion(b: seq<byte>, offset: nat, lo: nat, hi: nat, scan: EntryScan, id: nat)
    returns (r: Region)
    requires lo <= id < hi
    ensures r in UnknownEntries(b, offset, lo, hi, scan).regions && r.offset == offset + 4 + 2 * id
    ensures if Read(b, r.offset, 2).Some? then r == Plain(r.offset, 2, VOffset, Ok) else CutShort(b, r.offset, [r])
    decreases hi
  {
    var all := UnknownEntries(b, offset, lo, hi, scan);
    if id < hi - 1 {
      r := UnknownRegion(b, offset, lo, hi - 1, scan, id);
    } else {
      r := all.regions[|all.regions| - 1];
    }
  }

  lemma {:induction false} KnownCount(b: seq<byte>, offset: nat, size: nat, referrer: nat, fields: seq<Field>, n: nat)
    requires n <= |fields| && size >= 4
    ensures |KnownEntries(b, offset, size, referrer, fields, n).regions|
            == if n <= (size - 3) / 2 then n else (size - 3) / 2
  {
    if n > 0 {
      KnownCount(b, offset, size, referrer, fields, n - 1);
    }
  }

  lemma {:induction false} UnknownCount(b: seq<byte>, offset: nat, lo: nat, hi: nat, scan: EntryScan)
    ensures |UnknownEntries(b, offset, lo, hi, scan).regions| == |scan.regions| + if lo < hi then hi - lo else 0
    decreases hi
  {
    if lo < hi {
      UnknownCount(b, offset, lo, hi - 1, scan);
    }
  }

  /** Up to which id there are entries that the schema need not know. */
  function UnknownEnd(size: nat, shared: nat): nat
    requires size >= 4
  {
    var allowed, cap := (size - 4) / 2, (3 * shared) % U16;
    if cap < allowed then cap else allowed
  }

  /** The entries that the schema does not know are shown too. */
  lemma UnknownEntryShown(s: Schema, b: seq<byte>, offset: nat, table: nat, referrer: nat, id: nat)
    requires |b| >= MIN_BUFFER_SIZE && table < |s.tables| && VTableAt(s, b, offset, table, referrer).Good?
    requires var fields, size := s.tables[table], Read(b, offset, 2).value;
             var shared := |SharedIds(b, offset, size, referrer, fields, |fields|)|;
             shared <= id < UnknownEnd(size, shared)
    ensures Plain(offset + 4 + 2 * id, 2, VOffset, Ok) in VTableAt(s, b, offset, table, referrer).regions
  {
    var fields, size := s.tables[table], Read(b, offset, 2).value;
    var known := KnownEntries(b, offset, size, referrer, fields, |fields|);
    ProcessedAre(b, offset, size, referrer, fields, |fields|);
    var r := UnknownRegion(b, offset, known.processed, EntryCount(size, known.processed), known, id);
  }

  /** And there are no other regions than the two sizes and one for each entry. */
  lemma EntriesCounted(s: Schema, b: seq<byte>, offset: nat, table: nat, referrer: nat)
    requires |b| >= MIN_BUFFER_SIZE && table < |s.tables| && VTableAt(s, b, offset, table, referrer).Good?
    ensures var fields, size := s.tables[table], Read(b, offset, 2).value;
            var shared := |SharedIds(b, offset, size, referrer, fields, |fields|)|;
            var end := UnknownEnd(size, shared);
            |VTableAt(s, b, offset, table, referrer).regions|
            == 2 + (if |fields| <= (size - 3) / 2 then |fields| else (size - 3) / 2)
                 + (if shared < end then end - shared else 0)
  {
    var fields, size := s.tables[table], Read(b, offset, 2).value;
    var known := KnownEntries(b, offset, size, referrer, fields, |fields|);
    ProcessedAre(b, offset, size, referrer, fields, |fields|);
    KnownCount(b, offset, size, referrer, fields, |fields|);
    UnknownCount(b, offset, known.processed, EntryCount(size, known.processed), known);
  }

  // ---------------------------------------------------------------- references of tables

  /** The number of that many bytes at the place leads to the target, which is in the binary. */
  predicate PointsTo(b: seq<byte>, at: nat, size: nat, target: nat) {
    match Read(b, at, size)
    case None => false
    case Some(n) => n > 0 && target < |b| && target == if size == 8 then (at + n) % U64 else at + n
  }

  /**
   * What a field of the table refers to, as its type says; a union, as the type says that is stored in the field in
   * front of it.
   */
  predicate AsTyped(s: Schema, b: seq<byte>, table: nat, entries: map<nat, Entry>, id: nat, ty: FieldType,
                    what: Referent)
  {
    match ty
    case Table(t) => what == ToTable(t)
    case Str => what == ToString
    case Vector(e, is64) => what == ToVector(id, e, is64)
    case Union(u) =>
      && what.ToUnion? && what.enumIndex == u && u < |s.enums| && what.value < |s.enums[u]|
      && id > 0 && id - 1 in entries && Read(b, table + entries[id - 1].offset, 1) == Some(what.value)
    case Scalar(_, _) | Struct(_) => false
  }

  /** The field with the id is present and leads to the target, as to a thing of that kind. */
  predicate FieldLeads(s: Schema, b: seq<byte>, table: nat, entries: map<nat, Entry>, id: nat, target: nat,
                       what: Referent)
  {
    && id in entries && entries[id].offset > 0 && table + entries[id].offset < |b|
    && match entries[id].field
       case None => false
       case Some(f) =>
         && PointsTo(b, table + entries[id].offset, if f.offset64 then 8 else 4, target)
         && AsTyped(s, b, table, entries, id, f.ty, what)
  }

  lemma OffsetFieldShown(s: Schema, b: seq<byte>, table: nat, id: nat, f: Field, entries: map<nat, Entry>, target: nat,
                         what: Referent)
    requires id in entries && entries[id].field == Some(f) && FieldLeads(s, b, table, entries, id, target, what)
    requires id < U16
    ensures OffsetFieldRegions(s, b, table, table + entries[id].offset, id, f, entries)
            == [Region(table + entries[id].offset, if f.offset64 then 8 else 4,
                       if f.offset64 then UOffset64 else UOffset, Ok, target, what)]
  {
    if id > 0 {
      assert (id + U16 - 1) % U16 == id - 1;
    }
  }

  /**
   * An offset that leads nowhere: one that is zero or cannot be read, and one that leads out of the binary; and a union
   * that leads into it, whose type is not listed, or cannot be read, or is not one of the union's.
   */
  lemma OffsetFieldErrorShown(s: Schema, b: seq<byte>, table: nat, at: nat, id: nat, f: Field, entries: map<nat, Entry>)
    requires !f.ty.Scalar? && !f.ty.Struct? && 0 < id < U16
    ensures var rs, size := OffsetFieldRegions(s, b, table, at, id, f, entries), if f.offset64 then 8 else 4;
            match Read(b, at, size)
            case None => CutShort(b, at, rs)
            case Some(n) =>
              var target := if f.offset64 then (at + n) % U64 else at + n;
              && (n == 0 ==> CutShort(b, at, rs))
              && (n > 0 && target >= |b| ==>
                    var ty := if f.offset64 then UOffset64 else UOffset;
                    rs == [Region(at, size, ty, OffsetOutOfBinary, target, Nothing)])
              && (n > 0 && target < |b| && f.ty.Union? ==>
                    UnionTypeErrorShown(s, b, table, id, f.ty.enumId, entries, rs))
  {
    assert (id + U16 - 1) % U16 == id - 1;
  }

  predicate UnionTypeErrorShown(s: Schema, b: seq<byte>, table: nat, id: nat, enumId: nat, entries: map<nat, Entry>,
                                rs: seq<Region>)
    requires id > 0
  {
    if id - 1 !in entries then rs == []
    else match Read(b, table + entries[id - 1].offset, 1)
      case None => CutShort(b, table + entries[id - 1].offset, rs)
      case Some(v) => enumId >= |s.enums| || v >= |s.enums[enumId]| ==> rs == []
  }

  /** Where the entry is in the order of the table's fields. */
  lemma EntryPlace(x: Input, offset: nat, v: VTable, id: nat) returns (i: nat)
    requires InputOk(x) && IsTable(x, offset, v) && id in v.fields
    ensures id < U16 && i < |InTableOrder(v)| && InTableOrder(v)[i] == v.fields[id]
    ensures EntryOk(x.schema.tables[v.table], id, v.fields[id])
  {
    var location := VTableLocation(x.binary, offset).value;
    var referrer: nat :| ReadFor(x, location, v, referrer);
    VTableEntries(x, location, v);
    VTableIds(x.schema, x.binary, location, v.table, referrer);
    TableOrderFacts(v);
    i :| 0 <= i < |InTableOrder(v)| && InTableOrder(v)[i] == v.fields[id];
  }

  lemma FieldRegionIs(s: Schema, b: seq<byte>, offset: nat, v: VTable, order: seq<Entry>, i: nat, id: nat, target: nat,
                      what: Referent)
    requires i < |order| && id in v.fields && order[i] == v.fields[id] && id < U16 && order[i].id == id
    requires FieldLeads(s, b, offset, v.fields, id, target, what)
    ensures var f := v.fields[id].field.value;
            TableFieldRegions(s, b, offset, v, order, i)
            == [Region(offset + v.fields[id].offset, if f.offset64 then 8 else 4,
                       if f.offset64 then UOffset64 else UOffset, Ok, target, what)]
  {
    OffsetFieldShown(s, b, offset, id, v.fields[id].field.value, v.fields, target, what);
  }

  lemma InTable(s: Schema, b: seq<byte>, offset: nat, v: VTable, i: nat, r: Region)
    requires VTableLocation(b, offset).Some? && i < |InTableOrder(v)|
    requires r in TableFieldRegions(s, b, offset, v, InTableOrder(v), i)
    ensures r in TableRegions(s, b, offset, v)
  {
    TableFieldsContain(s, b, offset, v, InTableOrder(v), i, |InTableOrder(v)|, r);
    FieldsInTable(s, b, offset, v, r);
  }

  /** A field that leads somewhere has a region at its place that refers there. */
  lemma FieldRefers(x: Input, offset: nat, v: VTable, id: nat, target: nat, what: Referent) returns (r: Region)
    requires InputOk(x) && IsTable(x, offset, v) && FieldLeads(x.schema, x.binary, offset, v.fields, id, target, what)
    ensures r in TableRegions(x.schema, x.binary, offset, v)
    ensures r.offset == offset + v.fields[id].offset && r.target == target && r.refersTo == what && r.status == Ok
  {
    var i := EntryPlace(x, offset, v, id);
    FieldRegionIs(x.schema, x.binary, offset, v, InTableOrder(v), i, id, target, what);
    var f := v.fields[id].field.value;
    r := Region(offset + v.fields[id].offset, if f.offset64 then 8 else 4, if f.offset64 then UOffset64 else UOffset,
                Ok, target, what);
    InTable(x.schema, x.binary, offset, v, i, r);
  }

  lemma {:induction false} FromField(s: Schema, b: seq<byte>, offset: nat, v: VTable, order: seq<Entry>, n: nat,
                                     r: Region)
    returns (i: nat)
    requires n <= |order| && r in TableFieldsRegions(s, b, offset, v, order, n)
    ensures i < n && r in TableFieldRegions(s, b, offset, v, order, i)
  {
    if r in TableFieldRegions(s, b, offset, v, order, n - 1) {
      i := n - 1;
    } else {
      i := FromField(s, b, offset, v, order, n - 1, r);
    }
  }

  lemma OffsetFieldFrom(s: Schema, b: seq<byte>, table: nat, id: nat, f: Field, entries: map<nat, Entry>, r: Region)
    requires id in entries && entries[id].field == Some(f) && !f.ty.Scalar? && !f.ty.Struct?
    requires entries[id].offset > 0 && table + entries[id].offset < |b| && (f.ty.Union? ==> id > 0) && id < U16
    requires r in OffsetFieldRegions(s, b, table, table + entries[id].offset, id, f, entries) && r.refersTo != Nothing
    ensures FieldLeads(s, b, table, entries, id, r.target, r.refersTo) && r.offset == table + entries[id].offset
  {
    if id > 0 {
      assert (id + U16 - 1) % U16 == id - 1;
    }
  }

  /** The place in the order of the table's fields that a reference is from. */
  lemma PlaceFrom(x: Input, offset: nat, v: VTable, r: Region) returns (i: nat)
    requires InputOk(x) && IsTable(x, offset, v) && r in TableRegions(x.schema, x.binary, offset, v)
    requires r.refersTo != Nothing
    ensures i < |InTableOrder(v)| && r in TableFieldRegions(x.schema, x.binary, offset, v, InTableOrder(v), i)
  {
    i := FromField(x.schema, x.binary, offset, v, InTableOrder(v), |InTableOrder(v)|, r);
  }

  lemma EntryOfPlace(x: Input, offset: nat, v: VTable, i: nat) returns (id: nat)
    requires InputOk(x) && IsTable(x, offset, v) && i < |InTableOrder(v)|
    ensures id in v.fields && v.fields[id] == InTableOrder(v)[i] && v.fields[id].id == id
    ensures EntriesOk(x.schema.tables[v.table], v.fields) && EntryOk(x.schema.tables[v.table], id, v.fields[id])
  {
    VTableEntries(x, VTableLocation(x.binary, offset).value, v);
    TableOrderFacts(v);
    assert InTableOrder(v)[i] in InTableOrder(v);
    id :| id in v.fields && v.fields[id] == InTableOrder(v)[i];
    assert EntryOk(x.schema.tables[v.table], id, v.fields[id]);
  }

  lemma FieldRegionFrom(x: Input, offset: nat, v: VTable, order: seq<Entry>, i: nat, id: nat, r: Region)
    requires InputOk(x) && v.table < |x.schema.tables| && EntriesOk(x.schema.tables[v.table], v.fields)
    requires i < |order| && id in v.fields && order[i] == v.fields[id] && v.fields[id].id == id
    requires EntryOk(x.schema.tables[v.table], id, v.fields[id])
    requires r in TableFieldRegions(x.schema, x.binary, offset, v, order, i) && r.refersTo != Nothing && r.target >= 0
    ensures FieldLeads(x.schema, x.binary, offset, v.fields, id, r.target, r.refersTo)
    ensures r.offset == offset + v.fields[id].offset
  {
    InlineRefersNot(x, offset, v, order, i, r);
    FieldTypeOfEntry(x, v, id);
    OffsetFieldFrom(x.schema, x.binary, offset, id, order[i].field.value, v.fields, r);
  }

  /** Every reference of a table is that of a field that leads there. */
  lemma RefersFrom(x: Input, offset: nat, v: VTable, r: Region) returns (id: nat)
    requires InputOk(x) && IsTable(x, offset, v) && r in TableRegions(x.schema, x.binary, offset, v)
    requires r.refersTo != Nothing && r.target >= 0
    ensures FieldLeads(x.schema, x.binary, offset, v.fields, id, r.target, r.refersTo)
    ensures r.offset == offset + v.fields[id].offset
  {
    var i := PlaceFrom(x, offset, v, r);
    id := EntryOfPlace(x, offset, v, i);
    FieldRegionFrom(x, offset, v, InTableOrder(v), i, id, r);
  }

  lemma FieldTypeOfEntry(x: Input, v: VTable, id: nat)
    requires InputOk(x) && v.table < |x.schema.tables| && EntriesOk(x.schema.tables[v.table], v.fields)
    requires id in v.fields && v.fields[id].field.Some?
    ensures id < U16 && (v.fields[id].field.value.ty.Union? ==> id > 0)
  {
    assert EntryOk(x.schema.tables[v.table], id, v.fields[id]);
    assert TypeFieldOk(x.schema.tables[v.table], id);
  }

  /** A field that refers to something is one that holds an offset. */
  lemma InlineRefersNot(x: Input, offset: nat, v: VTable, order: seq<Entry>, i: nat, r: Region)
    requires InputOk(x) && v.table < |x.schema.tables| && i < |order|
    requires EntryOk(x.schema.tables[v.table], order[i].id, order[i])
    requires r in TableFieldRegions(x.schema, x.binary, offset, v, order, i) && r.refersTo != Nothing
    ensures order[i].offset > 0 && offset + order[i].offset < |x.binary| && order[i].field.Some?
    ensures !order[i].field.value.ty.Scalar? && !order[i].field.value.ty.Struct?
  {
    if order[i].field.Some? && order[i].field.value.ty.Struct? {
      assert FieldOk(x.schema, order[i].field.value);
      StructFacts(x.binary, offset + order[i].offset, order[i].field.value.ty.def);
    }
  }

  /** Exactly what a table refers to: the things that its fields lead to. */
  lemma TableRefersIff(x: Input, offset: nat, v: VTable, target: nat, what: Referent)
    requires InputOk(x) && IsTable(x, offset, v) && what != Nothing
    ensures (exists r :: r in TableRegions(x.schema, x.binary, offset, v) && r.target == target && r.refersTo == what)
            <==> exists id :: FieldLeads(x.schema, x.binary, offset, v.fields, id, target, what)
  {
    if r :| r in TableRegions(x.schema, x.binary, offset, v) && r.target == target && r.refersTo == what {
      var id := RefersFrom(x, offset, v, r);
    }
    if id :| FieldLeads(x.schema, x.binary, offset, v.fields, id, target, what) {
      var r := FieldRefers(x, offset, v, id, target, what);
    }
  }

  // ---------------------------------------------------------------- what is in a table itself

  /** The regions rs are what is shown of the i-th field in order, which is present and holds no offset. */
  predicate IsInline(s: Schema, b: seq<byte>, offset: nat, v: VTable, order: seq<Entry>, i: nat, rs: seq<Region>)
    requires i < |order|
  {
    var at := offset + order[i].offset;
    var end := if 1 <= offset + v.tableSize <= |b| then offset + v.tableSize else |b|;
    && order[i].offset > 0 && at < |b|
    && match order[i].field
       case None => rs == UnknownFieldRegions(b, at, if i + 1 < |order| then offset + order[i + 1].offset else end)
       case Some(f) =>
         match f.ty
         case Scalar(base, enumIndex) => rs == ScalarFieldRegions(s, b, at, base, enumIndex)
         case Struct(def) => rs == StructWalk(b, at, def).regions
         case _ => false
  }

  /** What such a field is shown as, its number, its struct, or what is not known, is in the table, all of it. */
  lemma InlineFieldShown(s: Schema, b: seq<byte>, offset: nat, v: VTable, order: seq<Entry>, i: nat, rs: seq<Region>,
                         r: Region)
    requires VTableLocation(b, offset).Some? && order == InTableOrder(v) && i < |order|
    requires IsInline(s, b, offset, v, order, i, rs) && r in rs
    ensures r in TableRegions(s, b, offset, v)
  {
    InlineIs(s, b, offset, v, order, i, rs);
    InTable(s, b, offset, v, i, r);
  }

  lemma InlineIs(s: Schema, b: seq<byte>, offset: nat, v: VTable, order: seq<Entry>, i: nat, rs: seq<Region>)
    requires i < |order| && IsInline(s, b, offset, v, order, i, rs)
    ensures rs == TableFieldRegions(s, b, offset, v, order, i)
  {
  }

  // ---------------------------------------------------------------- references of vectors

  lemma {:induction false} OffsetElementAt(b: seq<byte>, at: nat, n: nat, refersTo: Referent, parent: nat, i: nat)
    requires |b| >= MIN_BUFFER_SIZE && i < n && at + 4 * i + 4 <= |b|
    ensures var rs := OffsetElements(b, at, n, refersTo, parent);
            i < |rs| && rs[i] == OffsetElement(b, at + 4 * i, refersTo, parent)
    decreases n
  {
    if i > 0 {
      OffsetElementAt(b, at + 4, n - 1, refersTo, parent, i - 1);
    }
  }

  /** Every element of a vector of tables, or of strings, that lies in the binary refers to what its offset leads to. */
  lemma ElementShown(s: Schema, b: seq<byte>, offset: nat, e: ElementType, is64: bool, id: nat, parent: nat,
                     entries: map<nat, Entry>, n: nat, i: nat)
    requires |b| >= MIN_BUFFER_SIZE && parent < offset && (e.TableElement? || e.StringElement?)
    requires VectorStartAt(b, offset, e, is64).Elements? && VectorStartAt(b, offset, e, is64).n == n && i < n
    requires offset + (if is64 then 8 else 4) + 4 * i + 4 <= |b|
    ensures var rs := VectorRegions(s, b, offset, e, is64, id, parent, entries);
            var at := offset + (if is64 then 8 else 4) + 4 * i;
            && Read(b, at, 4).Some? && i + 1 < |rs| && rs[i + 1].offset == at
            && var r, target := rs[i + 1], at + Read(b, at, 4).value;
               && r.length == 4 && r.ty == UOffset && r.target == target
               && (target < |b| ==>
                     r.status == Ok && r.refersTo == if e.TableElement? then ToTable(e.table) else ToString)
               && (target >= |b| ==> r.status == OffsetOutOfBinary && r.refersTo == Nothing)
  {
    var start := VectorStartAt(b, offset, e, is64);
    var at := offset + start.length.length;
    VectorRegionsAre(s, b, offset, e, is64, id, parent, entries, start.length, n);
    OffsetElementAt(b, at, n, if e.TableElement? then ToTable(e.table) else ToString, parent, i);
  }

  /** The first k unions of a vector can all be followed. */
  predicate AllGood(s: Schema, b: seq<byte>, at: nat, typeAt: nat, typeEnum: int, k: nat) {
    forall j :: 0 <= j < k ==> UnionGood(s, b, at + 4 * j, typeAt + j, typeEnum)
  }

  lemma AllGoodRest(s: Schema, b: seq<byte>, at: nat, typeAt: nat, typeEnum: int, k: nat)
    requires AllGood(s, b, at, typeAt, typeEnum, k + 1)
    ensures UnionGood(s, b, at, typeAt, typeEnum) && AllGood(s, b, at + 4, typeAt + 1, typeEnum, k)
  {
    assert UnionGood(s, b, at + 4 * 0, typeAt + 0, typeEnum);
    forall j | 0 <= j < k
      ensures UnionGood(s, b, at + 4 + 4 * j, typeAt + 1 + j, typeEnum)
    {
      assert UnionGood(s, b, at + 4 * (j + 1), typeAt + (j + 1), typeEnum);
    }
  }

  lemma UnionGoodStep(s: Schema, b: seq<byte>, at: nat, typeAt: nat, typeEnum: int, enumId: nat, n: nat)
    requires n > 0 && UnionGood(s, b, at, typeAt, typeEnum)
    ensures UnionElements(s, b, at, typeAt, typeEnum, enumId, n)
            == [Region(at, 4, UOffset, Ok, at + Read(b, at, 4).value, ToUnion(enumId, Read(b, typeAt, 1).value))]
               + UnionElements(s, b, at + 4, typeAt + 1, typeEnum, enumId, n - 1)
  {
  }

  /**
   * The region is that of a union at the place, which can be followed: to its own type, at what its offset leads to.
   */
  predicate IsUnionRegion(s: Schema, b: seq<byte>, at: nat, typeAt: nat, typeEnum: int, enumId: nat, r: Region) {
    && UnionGood(s, b, at, typeAt, typeEnum)
    && r == Region(at, 4, UOffset, Ok, at + Read(b, at, 4).value, ToUnion(enumId, Read(b, typeAt, 1).value))
  }

  /** A union that can be followed, and those in front of it too, is shown so. */
  lemma {:induction false} UnionElementAt(s: Schema, b: seq<byte>, at: nat, typeAt: nat, typeEnum: int, enumId: nat,
                                          n: nat, i: nat)
    requires i < n && AllGood(s, b, at, typeAt, typeEnum, i + 1)
    ensures var rs := UnionElements(s, b, at, typeAt, typeEnum, enumId, n);
            i < |rs| && IsUnionRegion(s, b, at + 4 * i, typeAt + i, typeEnum, enumId, rs[i])
    decreases n
  {
    AllGoodRest(s, b, at, typeAt, typeEnum, i);
    UnionGoodStep(s, b, at, typeAt, typeEnum, enumId, n);
    if i > 0 {
      UnionElementAt(s, b, at + 4, typeAt + 1, typeEnum, enumId, n - 1, i - 1);
    }
  }

  /**
   * The types of a vector of unions are in the vector that the field in front of it leads to, which is one of the types
   * of that union, behind the length of that; the offset to it is read as a number of two bytes.
   */
  predicate TypesBehind(b: seq<byte>, parent: nat, entries: map<nat, Entry>, id: nat, enumId: nat, typeAt: nat) {
    && 0 < id < U16 && id - 1 in entries
    && (match entries[id - 1].field
        case Some(Field(Vector(ScalarElement(UType, e), _), _, _)) => e == enumId
        case _ => false)
    && match Read(b, parent + entries[id - 1].offset, 2)
       case None => false
       case Some(w) => typeAt == parent + entries[id - 1].offset + w + 4
  }

  lemma LowHalf(s: seq<byte>)
    requires |s| == 4
    ensures FromLE(s[..2]) == FromLE(s) % U16
  {
    var t := s[..2];
    assert t[1..] == [s[1]] && [s[1]][1..] == [] && s[1..][1..] == s[2..] && s[1..][0] == s[1];
    assert FromLE(t) == s[0] as nat + 256 * FromLE(t[1..]) && FromLE(t[1..]) == s[1];
    assert FromLE(s) == s[0] as nat + 256 * FromLE(s[1..]) && FromLE(s[1..]) == s[1] as nat + 256 * FromLE(s[2..]);
    DivModUnique(FromLE(s), U16, FromLE(s[2..]), FromLE(t));
  }

  /** The types are read where the field's own offset, of four bytes, leads exactly if that is below 2^16. */
  lemma TypesFoundIff(b: seq<byte>, place: nat, n: nat)
    requires |b| >= MIN_BUFFER_SIZE && Read(b, place, 4) == Some(n)
    ensures Read(b, place, 2) == Some(n % U16)
    ensures place + n % U16 + 4 == place + n + 4 <==> n < U16
  {
    var s := b[place..place + 4];
    assert s[..2] == b[place..place + 2];
    LowHalf(s);
  }

  lemma UnionVectorIs(s: Schema, b: seq<byte>, at: nat, n: nat, enumId: nat, id: nat, parent: nat,
                      entries: map<nat, Entry>, typeAt: nat)
    requires TypesBehind(b, parent, entries, id, enumId, typeAt)
    ensures ElementRegions(s, b, at, n, UnionElement(enumId), id, parent, entries)
            == UnionElements(s, b, at, typeAt, enumId, enumId, n)
  {
    assert (id + U16 - 1) % U16 == id - 1;
  }

  /** The elements of a vector of unions, up to the first that cannot be followed. */
  lemma UnionElementShown(s: Schema, b: seq<byte>, offset: nat, enumId: nat, is64: bool, id: nat, parent: nat,
                          entries: map<nat, Entry>, n: nat, typeAt: nat, i: nat)
    requires TypesBehind(b, parent, entries, id, enumId, typeAt)
    requires var start := VectorStartAt(b, offset, UnionElement(enumId), is64); start.Elements? && start.n == n && i < n
    requires AllGood(s, b, offset + (if is64 then 8 else 4), typeAt, enumId, i + 1)
    ensures var rs := VectorRegions(s, b, offset, UnionElement(enumId), is64, id, parent, entries);
            i + 1 < |rs|
            && IsUnionRegion(s, b, offset + (if is64 then 8 else 4) + 4 * i, typeAt + i, enumId, enumId, rs[i + 1])
  {
    var start := VectorStartAt(b, offset, UnionElement(enumId), is64);
    var at := offset + start.length.length;
    UnionVectorIs(s, b, at, n, enumId, id, parent, entries, typeAt);
    VectorRegionsAre(s, b, offset, UnionElement(enumId), is64, id, parent, entries, start.length, n);
    UnionElementAt(s, b, at, typeAt, enumId, enumId, n, i);
  }

  /**
   * One element of a vector of unions, and how far it goes on: over what cannot be followed only if that is its type.
   */
  lemma UnionStepShown(s: Schema, b: seq<byte>, at: nat, typeAt: nat, typeEnum: int, enumId: nat)
    ensures var step := UnionElementStep(s, b, at, typeAt, typeEnum, enumId);
            match Read(b, at, 4)
            case None => CutShort(b, at, step.regions) && step.stop && step.next == at
            case Some(v) =>
              && !step.stop
              && (at + v >= |b| ==>
                    step.next == at && step.regions == [Region(at, 4, UOffset, OffsetOutOfBinary, at + v, Nothing)])
              && (at + v < |b| && Read(b, typeAt, 1) == None ==>
                    step.next == at && step.regions == [Plain(at, 0, Unknown, IncompleteBinary)])
              && (at + v < |b| && Read(b, typeAt, 1).Some? && !UnionGood(s, b, at, typeAt, typeEnum) ==>
                    step.next == at + 4 && step.regions == [])
              && (UnionGood(s, b, at, typeAt, typeEnum) ==> step.next == at + 4 && |step.regions| == 1)
  {
  }

  /** A vector of unions whose types are not listed has no elements; when they cannot be found, that is said once. */
  lemma NoTypesShown(s: Schema, b: seq<byte>, at: nat, n: nat, enumId: nat, id: nat, parent: nat,
                     entries: map<nat, Entry>)
    requires 0 < id < U16
    ensures var rs := ElementRegions(s, b, at, n, UnionElement(enumId), id, parent, entries);
            && (id - 1 !in entries ==> rs == [])
            && (id - 1 in entries && Read(b, parent + entries[id - 1].offset, 2) == None ==> CutShort(b, at, rs))
  {
    assert (id + U16 - 1) % U16 == id - 1;
  }

  /** What a vector starts with: its length, in error exactly if it cannot be, or nothing that can be read. */
  lemma LengthShown(s: Schema, b: seq<byte>, offset: nat, e: ElementType, is64: bool, id: nat, parent: nat,
                    entries: map<nat, Entry>)
    requires |b| < U64
    ensures var rs, size := VectorRegions(s, b, offset, e, is64, id, parent, entries), if is64 then 8 else 4;
            match Read(b, offset, size)
            case None => CutShort(b, offset, rs)
            case Some(n) =>
              && |rs| >= 1 && rs[0] == Plain(offset, size, if is64 then Uint64 else Uint32, rs[0].status)
              && (rs[0].status == Ok
                  <==> var end := ElementsEnd(b, offset, e, is64); end <= |b| || (end >= U64 && 1 <= end % U64 <= |b|))
              && (rs[0].status != Ok ==> rs[0].status == LengthTooLong && |rs| == 1)
    ensures var start, size := VectorStartAt(b, offset, e, is64), if is64 then 8 else 4;
            VectorSectionType(start, is64)
            == if is64 && Read(b, offset, 8).Some? && start.Elements? then Vector64Section else VectorSection
  {
    if Read(b, offset, if is64 then 8 else 4).Some? {
      AcceptedIff(b, offset, e, is64);
    }
  }

  /** How large an element is taken to be. */
  lemma ElementSizeIs(e: ElementType)
    ensures ElementSize(e) == match e
                              case ScalarElement(base, _) => Width(RegionTypeOf(base))
                              case StructElement(def) => def.bytesize
                              case TableElement(_) | StringElement | UnionElement(_) => 4
  {
  }

  // ---------------------------------------------------------------- what is left of a table

  /** A table that has no vtable in the binary: its offset is out of it, or cannot be read. */
  lemma LoneTableShown(b: seq<byte>, offset: nat)
    ensures var r := LoneTableRegion(b, offset);
            match Read(b, offset, 4)
            case None => CutShort(b, offset, [r])
            case Some(v) =>
              r == Region(offset, 4, SOffset, OffsetOutOfBinary, offset - AsInt32(v), Nothing)
  {
  }

  lemma PaddingIs(first: Region, fields: seq<Region>, rs: seq<Region>, end: nat, last: nat)
    requires rs == [first] + fields && last == if fields == [] then EndOf(first) else EndOf(fields[|fields| - 1])
    ensures TablePadding(rs[|rs| - 1], end) == if last + 2 <= end then [Plain(last, end - last, Uint8, Ok)] else []
  {
  }

  lemma TableRegionsAre(s: Schema, b: seq<byte>, offset: nat, v: VTable, first: Region, fields: seq<Region>,
                        rs: seq<Region>, end: nat)
    requires VTableLocation(b, offset).Some? && rs == [first] + fields && end == TableEnd(b, offset, v.tableSize)
    requires first == Region(offset, 4, SOffset, Ok, VTableLocation(b, offset).value, Nothing)
    requires fields == TableFieldsRegions(s, b, offset, v, InTableOrder(v), |InTableOrder(v)|)
    ensures TableRegions(s, b, offset, v) == rs + TablePadding(rs[|rs| - 1], end)
  {
  }

  /** Behind its last region, a table is padded to its end, or that of the binary if it would not end in it. */
  lemma TablePaddingShown(s: Schema, b: seq<byte>, offset: nat, v: VTable, first: Region, fields: seq<Region>,
                          rs: seq<Region>, end: nat, last: nat)
    requires Read(b, offset, 4).Some? && rs == [first] + fields
    requires first == Region(offset, 4, SOffset, Ok, offset - AsInt32(Read(b, offset, 4).value), Nothing)
    requires fields == TableFieldsRegions(s, b, offset, v, InTableOrder(v), |InTableOrder(v)|)
    requires end == if 1 <= offset + v.tableSize <= |b| then offset + v.tableSize else |b|
    requires last == if fields == [] then offset + 4 else EndOf(fields[|fields| - 1])
    ensures TableRegions(s, b, offset, v) == rs + if last + 2 <= end then [Plain(last, end - last, Uint8, Ok)] else []
  {
    PaddingIs(first, fields, rs, end, last);
    TableRegionsAre(s, b, offset, v, first, fields, rs, end);
  }
}
