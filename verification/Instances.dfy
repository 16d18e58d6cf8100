/**
 * Small binaries that show where an annotation falls short: bytes that are lost, and a section that the lookup misses.
 */
module Instances {
  import opened Bytes
  import opened Schema
  import opened StableSorting
  import opened Sections
  import opened Walks
  import opened WalkFacts
  import opened References
  import opened Annotations
  import opened Effects
  import opened Gaps
  import opened SectionGaps
  import opened Finished
  import opened Annotators
  import opened Ordinary
  import opened Shortfalls

  // ---------------------------------------------------------------- schemas whose tables refer to nothing

  /** Tables hold scalars, structs and unions only, and no union has members to follow. */
  ghost predicate IsFlat(s: Schema) {
    && (forall t, i :: 0 <= t < |s.tables| && 0 <= i < |s.tables[t]| ==> IsFlatField(s.tables[t][i]))
    && forall e, v :: 0 <= e < |s.enums| && 0 <= v < |s.enums[e]| ==> s.enums[e][v] == OtherMember
  }

  predicate IsFlatField(f: Field) {
    (f.ty.Scalar? || f.ty.Struct? || f.ty.Union?) && !f.offset64
  }

  lemma {:induction false} FlatFields(x: Input, offset: nat, v: VTable, order: seq<Entry>, n: nat, r: Region)
    requires InputOk(x) && IsFlat(x.schema) && v.table < |x.schema.tables|
    requires EntriesOk(x.schema.tables[v.table], v.fields)
    requires forall i :: 0 <= i < |order| ==> EntryOk(x.schema.tables[v.table], order[i].id, order[i])
    requires n <= |order| && r in TableFieldsRegions(x.schema, x.binary, offset, v, order, n)
    ensures r.refersTo.Nothing? || r.refersTo.ToUnion?
  {
    if r in TableFieldRegions(x.schema, x.binary, offset, v, order, n - 1) {
      FieldReference(x, offset, v, order, n - 1);
      assert EntryOk(x.schema.tables[v.table], order[n - 1].id, order[n - 1]);
      assert order[n - 1].field.Some? ==> IsFlatField(order[n - 1].field.value);
    } else {
      FlatFields(x, offset, v, order, n - 1, r);
    }
  }

  lemma FlatTable(x: Input, parent: nat, v: VTable, r: Region)
    requires InputOk(x) && IsFlat(x.schema) && IsTable(x, parent, v) && r in TableRegions(x.schema, x.binary, parent, v)
    ensures r.refersTo.Nothing? || r.refersTo.ToUnion?
  {
    VTableEntries(x, VTableLocation(x.binary, parent).value, v);
    OrderEntriesOk(x, v);
    var order := InTableOrder(v);
    if r in TableFieldsRegions(x.schema, x.binary, parent, v, order, |order|) {
      FlatFields(x, parent, v, order, |order|, r);
    }
  }

  /** Nothing is referred to but unions, which lead nowhere. */
  lemma FlatRefers(x: Input, parent: nat, v: VTable, r: Region)
    requires InputOk(x) && IsFlat(x.schema) && IsTable(x, parent, v) && Refers(x, parent, v, r)
    ensures r.refersTo.ToUnion?
  {
    if r in TableRegions(x.schema, x.binary, parent, v) {
      FlatTable(x, parent, v, r);
    } else {
      var q :| RefersThrough(x, parent, v, q, r);
      FlatTable(x, parent, v, q);
    }
  }

  lemma FlatReached(x: Input, target: int, what: Referent)
    requires InputOk(x) && IsFlat(x.schema) && Reached(x, target, what)
    ensures what.ToUnion?
  {
    var parent: nat, v, r :| TableAt(x, parent, v) && Refers(x, parent, v, r) && r.target == target
      && r.refersTo == what;
    FlatRefers(x, parent, v, r);
  }

  lemma FlatVector(x: Input, key: int, id: nat, e: ElementType, is64: bool, parent: nat, entries: map<nat, Entry>)
    requires InputOk(x) && IsFlat(x.schema)
    ensures !VectorReached(x, key, id, e, is64, parent, entries)
  {
    if VectorReached(x, key, id, e, is64, parent, entries) {
      var v: VTable, r :|
        && v.fields == entries && TableAt(x, parent, v) && r in TableRegions(x.schema, x.binary, parent, v)
        && r.target == key && r.refersTo == ToVector(id, e, is64);
      FlatTable(x, parent, v, r);
    }
  }

  lemma NoneLeadsOn(x: Input, parent: nat, v: VTable, offset: nat, t: nat)
    requires InputOk(x) && IsFlat(x.schema) && IsTable(x, parent, v)
    ensures !LeadsOn(x, parent, v, offset, t)
  {
    forall r | Refers(x, parent, v, r)
      ensures !LeadsToTable(x.schema, r.refersTo, t)
    {
      FlatRefers(x, parent, v, r);
    }
  }

  /** The root table is the only one. */
  lemma OnlyRoot(x: Input, offset: nat, t: nat)
    requires InputOk(x) && IsFlat(x.schema) && TableReached(x, offset, t)
    ensures t == x.schema.root && offset == RootLocation(x.binary, x.isSizePrefixed)
  {
    var n: nat :| TableReachedIn(x, offset, t, n);
    forall parent: nat, v: VTable, referrer: nat
      ensures !LeadsInOne(x, parent, v, referrer, offset, t)
    {
      if IsTable(x, parent, v) {
        NoneLeadsOn(x, parent, v, offset, t);
      }
    }
  }

  /** A section is the header, or is for the root table, or for its vtable. */
  lemma FlatSection(x: Input, s: Section)
    requires InputOk(x) && IsFlat(x.schema) && Explained(x, s)
    ensures var root := RootLocation(x.binary, x.isSizePrefixed);
            || s == HeaderSection(x)
            || (s.ty in {RootTable, TableSection} && s.key == root)
            || (VTableLocation(x.binary, root) == Some(s.key) && s == VTableSectionAt(x, s.key, x.schema.root, root))
  {
    match s.ty
    case StringSection => FlatReached(x, s.key, ToString);
    case VectorSection | Vector64Section =>
      forall id, e, is64, parent, entries
        ensures !VectorReached(x, s.key, id, e, is64, parent, entries)
      {
        FlatVector(x, s.key, id, e, is64, parent, entries);
      }
    case UnionSection =>
    case TableSection =>
      var t :| TableReached(x, s.key, t) && TableExplained(x, s.key, t, s.regions);
      OnlyRoot(x, s.key, t);
    case VTableSection =>
      var t, referrer :| VTableExplained(x, s.key, t, referrer, s.regions);
      OnlyRoot(x, referrer, t);
    case _ =>
  }

  /** With a flat schema only the root table is prescribed a table section, with the vtable its own offset leads to. */
  lemma FlatTableIs(x: Input, s: Section, root: nat, at: nat)
    requires InputOk(x) && IsFlat(x.schema) && Explained(x, s) && IsTableType(s.ty) && s.key == root
    requires root == RootLocation(x.binary, x.isSizePrefixed)
    requires VTableLocation(x.binary, root) == Some(at) && IsValidOffset(x.binary, at)
    ensures IsUsable(x.binary, at)
    ensures var v := VTableAt(x.schema, x.binary, at, x.schema.root, root).vtable;
            s.regions == TableRegions(x.schema, x.binary, root, v)
  {
    var t := x.schema.root;
    if s.ty == TableSection {
      t :| TableReached(x, root, t) && TableExplained(x, root, t, s.regions);
      OnlyRoot(x, root, t);
    }
    var v :| VTableReached(x, at, v) && v.table == t && s.regions == TableRegions(x.schema, x.binary, root, v);
    var referrer: nat :| ReadFor(x, at, v, referrer) && TableReached(x, referrer, v.table);
    OnlyRoot(x, referrer, v.table);
  }

  /** With a flat schema, a root table behind the header whose vtable can be read is annotated, and nothing else is. */
  lemma FlatAnnotation(x: Input, ss: seq<Section>, at: nat) returns (v: VTable)
    requires InputOk(x) && IsFlat(x.schema) && IsAnnotation(x, ss) && HasRootTable(x)
    requires var root := RootLocation(x.binary, x.isSizePrefixed);
             VTableLocation(x.binary, root) == Some(at) && at != root
    ensures var root := RootLocation(x.binary, x.isSizePrefixed);
            && v == VTableAt(x.schema, x.binary, at, x.schema.root, root).vtable
            && forall s :: s in ss <==>
                 s in [HeaderSection(x), VTableSectionAt(x, at, x.schema.root, root),
                       TableSectionOf(x, root, RootTable, v)]
  {
    var root := RootLocation(x.binary, x.isSizePrefixed);
    v := RootTableStored(x, ss);
    var table := TableSectionOf(x, root, RootTable, v);
    RootIsThere(x, ss, root, table);
    forall s | s in ss
      ensures s in [HeaderSection(x), VTableSectionAt(x, at, x.schema.root, root), table]
    {
      OneOfThree(x, ss, root, at, table, s);
    }
  }

  lemma OneOfThree(x: Input, ss: seq<Section>, root: nat, at: nat, table: Section, s: Section)
    requires InputOk(x) && IsFlat(x.schema) && Ascending(ss) && SectionsOk(x, ss) && s in ss
    requires root == RootLocation(x.binary, x.isSizePrefixed) && VTableLocation(x.binary, root) == Some(at)
    requires table in ss && table.key == root
    ensures s in [HeaderSection(x), VTableSectionAt(x, at, x.schema.root, root), table]
  {
    assert SectionOk(x, s);
    FlatSection(x, s);
  }

  lemma SameThree(ss: seq<Section>, a: Section, b: Section, c: Section, ts: seq<Section>)
    requires Ascending(ss) && Ascending(ts) && forall s :: s in ss <==> s in [a, b, c]
    requires |ts| == 3 && ts[0] == a && ((ts[1] == b && ts[2] == c) || (ts[1] == c && ts[2] == b))
    ensures ss == ts
  {
    assert ts == [ts[0], ts[1], ts[2]];
    AscendingUnique(ss, ts);
  }

  /** An annotation with a flat schema is determined by the three sections that it has. */
  lemma FlatAnnotationIs(x: Input, ss: seq<Section>, root: nat, at: nat, header: Section, vtable: Section,
                         table: Section,
                         ts: seq<Section>)
    requires InputOk(x) && IsFlat(x.schema) && IsAnnotation(x, ss) && root == RootLocation(x.binary, x.isSizePrefixed)
    requires header == HeaderSection(x) && header.regions != [] && End(header) <= root < |x.binary| && at != root
    requires VTableLocation(x.binary, root) == Some(at) && End(header) <= at < |x.binary| && IsUsable(x.binary, at)
    requires vtable == VTableSectionAt(x, at, x.schema.root, root)
    requires table == TableSectionOf(x, root, RootTable, VTableAt(x.schema, x.binary, at, x.schema.root, root).vtable)
    requires Ascending(ts) && |ts| == 3 && ts[0] == header
    requires (ts[1] == vtable && ts[2] == table) || (ts[1] == table && ts[2] == vtable)
    ensures ss == ts
  {
    assert HasRootTable(x);
    var v := FlatAnnotation(x, ss, at);
    SameThree(ss, header, vtable, table, ts);
  }

  lemma RootIsThere(x: Input, ss: seq<Section>, root: nat, table: Section)
    requires InputOk(x) && IsFlat(x.schema) && SectionsOk(x, ss) && root == RootLocation(x.binary, x.isSizePrefixed)
    requires VTableLocation(x.binary, root) != Some(root) && table.key == root
    requires Stored(ss, table, HasOffset64(x.schema))
    ensures table in ss
  {
    if table !in ss {
      var s :| s in ss && s.key == root && IsLoose(s, HasOffset64(x.schema));
      assert SectionOk(x, s);
      FlatSection(x, s);
    }
  }

  // ---------------------------------------------------------------- tables without fields

  lemma {:induction false} NothingListed(n: nat)
    ensures Listing(map[], n) == []
  {
    if n > 0 {
      NothingListed(n - 1);
    }
  }

  /** The vtable of a table without fields: its two sizes. */
  lemma EmptyVTable(x: Input, at: nat, referrer: nat)
    requires |x.binary| >= MIN_BUFFER_SIZE && x.schema == EMPTY_TABLE && at + 4 <= |x.binary| && Two(x.binary, at) == 4
    ensures IsUsable(x.binary, at)
    ensures var size := Two(x.binary, at + 2);
            && VTableAt(x.schema, x.binary, at, 0, referrer).vtable == VTable(0, map[], size)
            && VTableSectionAt(x, at, 0, referrer) == Section(at, VTableSection,
                 [Plain(at, 2, Uint16, Ok), Plain(at + 2, 2, Uint16, TableSizeStatus(x.binary, referrer, size))])
  {
    ReadsTwo(x.binary, at);
    ReadsTwo(x.binary, at + 2);
  }

  lemma EmptyTable(s: Schema, b: seq<byte>, offset: nat, v: VTable)
    requires VTableLocation(b, offset).Some? && v.fields == map[]
    ensures var first := Region(offset, 4, SOffset, Ok, VTableLocation(b, offset).value, Nothing);
            TableRegions(s, b, offset, v) == [first] + TablePadding(first, TableEnd(b, offset, v.tableSize))
  {
    NothingListed(U16);
  }

  const EMPTY_TABLE := Schema([[]], [], 0)

  lemma EmptyIsFlat(s: Schema)
    requires s == EMPTY_TABLE
    ensures IsFlat(s)
  {
  }

  // ---------------------------------------------------------------- a single byte between two sections

  /** The root offset, the vtable, a single byte, and the root table. */
  predicate IsLone(x: Input) {
    var b := x.binary;
    && x.schema == EMPTY_TABLE && !x.isSizePrefixed && |b| == 13
    && Four(b, 0) == 9 && Two(b, 4) == 4 && Two(b, 6) == 4 && Four(b, 9) == 5
  }

  const LONE_SECTIONS := [
    Section(0, Header, [Region(0, 4, UOffset, Ok, 9, ToTable(0))]),
    Section(4, VTableSection, [Plain(4, 2, Uint16, Ok), Plain(6, 2, Uint16, Ok)]),
    Section(9, RootTable, [Region(9, 4, SOffset, Ok, 4, Nothing)])
  ]

  lemma LoneHeader(x: Input)
    requires IsLone(x)
    ensures InputOk(x) && RootLocation(x.binary, false) == 9 && HeaderSection(x) == LONE_SECTIONS[0]
  {
    ReadsFour(x.binary, 0);
    assert x.binary[4] == 4;
  }

  lemma LoneVTable(x: Input)
    requires IsLone(x)
    ensures IsUsable(x.binary, 4) && VTableSectionAt(x, 4, 0, 9) == LONE_SECTIONS[1]
    ensures VTableAt(x.schema, x.binary, 4, 0, 9).vtable == VTable(0, map[], 4)
  {
    EmptyVTable(x, 4, 9);
  }

  lemma LoneTable(x: Input)
    requires IsLone(x)
    ensures VTableLocation(x.binary, 9) == Some(4) && IsUsable(x.binary, 4)
    ensures TableSectionOf(x, 9, RootTable, VTableAt(x.schema, x.binary, 4, 0, 9).vtable) == LONE_SECTIONS[2]
  {
    LoneVTable(x);
    ReadsFour(x.binary, 9);
    EmptyTable(x.schema, x.binary, 9, VTableAt(x.schema, x.binary, 4, 0, 9).vtable);
  }

  lemma LoneInOrder()
    ensures |LONE_SECTIONS| == 3 && Ascending(LONE_SECTIONS) && LONE_SECTIONS[0].regions != []
            && End(LONE_SECTIONS[0]) == 4
  {
  }

  lemma LoneSections(x: Input, ss: seq<Section>)
    requires IsLone(x) && InputOk(x) && IsAnnotation(x, ss)
    ensures ss == LONE_SECTIONS
  {
    LoneInOrder();
    LoneHeader(x);
    LoneVTable(x);
    LoneTable(x);
    EmptyIsFlat(x.schema);
    FlatAnnotationIs(x, ss, 9, 4, LONE_SECTIONS[0], LONE_SECTIONS[1], LONE_SECTIONS[2], LONE_SECTIONS);
  }

  /** No gap within a section, so that filling leaves it as it is. */
  lemma NothingToFill(b: seq<byte>, s: Section)
    requires 1 <= |s.regions| <= 2
    requires |s.regions| == 2 && IsValidOffset(b, s.regions[1].offset) ==> s.regions[1].offset <= EndOf(s.regions[0])
    ensures FillSection(b, s) == s
  {
    var rest := s.regions[1..];
    if |s.regions| == 2 {
      assert rest[0] == s.regions[1] && rest[1..] == [];
      assert GapsFrom(b, EndOf(rest[0]), rest[1..]) == [];
    }
    assert GapsFrom(b, EndOf(s.regions[0]), rest) == [];
  }

  lemma LoneFilled(b: seq<byte>)
    requires |b| == 13
    ensures FillAll(b, LONE_SECTIONS) == LONE_SECTIONS
  {
    NothingToFill(b, LONE_SECTIONS[0]);
    NothingToFill(b, LONE_SECTIONS[1]);
    NothingToFill(b, LONE_SECTIONS[2]);
  }

  lemma LoneByteUnreached(b: seq<byte>)
    requires |b| == 13 && Laid(b, LONE_SECTIONS)
    ensures !IsReached(b, LONE_SECTIONS, 8) && !InGap(b, LONE_SECTIONS, 8)
  {
  }

  /** One of the three, or the root table as a table like any other. */
  predicate IsLoneSection(s: Section) {
    s in LONE_SECTIONS || s == Section(9, TableSection, LONE_SECTIONS[2].regions)
  }

  lemma LoneApart(s: Section, t: Section)
    requires IsLoneSection(s) && IsLoneSection(t)
    ensures Apart(s, t) && (s.ty == VTableSection ==> s.key == 4)
  {
  }

  /** No other sections are prescribed. */
  lemma LonePrescribed(x: Input, s: Section)
    requires IsLone(x) && InputOk(x) && SectionOk(x, s)
    ensures IsLoneSection(s)
  {
    LoneInOrder();
    LoneHeader(x);
    LoneVTable(x);
    LoneTable(x);
    EmptyIsFlat(x.schema);
    FlatSection(x, s);
    if IsTableType(s.ty) {
      FlatTableIs(x, s, 9, 4);
      assert s == Section(9, s.ty, LONE_SECTIONS[2].regions);
    }
  }

  /** What is reached does not overlap. */
  lemma LoneIsOrdinary(x: Input)
    requires IsLone(x)
    ensures InputOk(x) && IsOrdinary(x)
  {
    LoneHeader(x);
    LoneVTable(x);
    forall s, t | SectionOk(x, s) && SectionOk(x, t)
      ensures Apart(s, t) && (s.ty == VTableSection ==> IsUsable(x.binary, s.key))
    {
      LonePrescribed(x, s);
      LonePrescribed(x, t);
      LoneApart(s, t);
    }
  }

  /** The byte between the vtable and the root table is in no region, whatever it is. */
  lemma LoneByteIsLeftOut(x: Input, ss: seq<Section>)
    requires IsLone(x) && InputOk(x) && IsAnnotation(x, ss)
    ensures Sound(x.binary, ss) && !IsAnnotated(Finish(x.binary, ss), 8)
  {
    AnnotationIsSound(x, ss);
    LoneSections(x, ss);
    LoneFilled(x.binary);
    ByteAnnotatedIff(x.binary, ss, 8);
    LoneByteUnreached(x.binary);
  }

  function LoneBytes(): seq<byte> {
    [9, 0, 0, 0, 4, 0, 4, 0, 1, 5, 0, 0, 0]
  }

  lemma SomethingIsLone()
    ensures IsLone(Input(EMPTY_TABLE, LoneBytes(), false))
  {
    var b := LoneBytes();
    assert Two(b, 0) == 9 && Two(b, 2) == 0 && Two(b, 4) == 4 && Two(b, 6) == 4 && Two(b, 9) == 5 && Two(b, 11) == 0;
  }

  /** There is such a binary, and the annotator leaves the byte out. */
  method AnnotateLone() returns (result: seq<Section>)
    ensures |LoneBytes()| == 13 && !IsAnnotated(result, 8)
  {
    var x := Input(EMPTY_TABLE, LoneBytes(), false);
    SomethingIsLone();
    LoneHeader(x);
    var annotator := new BinaryAnnotator(x);
    ghost var built;
    result, built := annotator.Annotate();
    LoneByteIsLeftOut(x, built);
  }

  // ---------------------------------------------------------------- a size in front

  /** The size of what follows, the root offset, the vtable, a single byte, and the root table. */
  predicate IsPrefixed(x: Input) {
    var b := x.binary;
    && x.schema == EMPTY_TABLE && x.isSizePrefixed && |b| == 17 && Four(b, 0) == 13
    && Four(b, 4) == 9 && Two(b, 8) == 4 && Two(b, 10) == 4 && Four(b, 13) == 5
  }

  const PREFIXED_SECTIONS := [
    Section(0, Header, [Plain(0, 4, Uint32, Ok), Region(4, 4, UOffset, Ok, 13, ToTable(0))]),
    Section(8, VTableSection, [Plain(8, 2, Uint16, Ok), Plain(10, 2, Uint16, Ok)]),
    Section(13, RootTable, [Region(13, 4, SOffset, Ok, 8, Nothing)])
  ]

  lemma FirstFour(b: seq<byte>)
    requires |b| > 8
    ensures FromLE(b[..4]) == Four(b, 0) && FromLE(b[..8]) == Four(b, 0) + U32 * Four(b, 4)
  {
    ReadsFour(b, 0);
    ReadsEight(b, 0);
    assert b[0..4] == b[..4] && b[0..8] == b[..8];
  }

  lemma PrefixedHeader(x: Input)
    requires IsPrefixed(x)
    ensures InputOk(x) && RootLocation(x.binary, true) == 13 && HeaderSection(x) == PREFIXED_SECTIONS[0]
  {
    FirstFour(x.binary);
    ReadsFour(x.binary, 4);
    assert x.binary[8] == 4;
  }

  lemma PrefixedTable(x: Input)
    requires IsPrefixed(x)
    ensures VTableLocation(x.binary, 13) == Some(8) && IsUsable(x.binary, 8)
    ensures VTableSectionAt(x, 8, 0, 13) == PREFIXED_SECTIONS[1]
    ensures TableSectionOf(x, 13, RootTable, VTableAt(x.schema, x.binary, 8, 0, 13).vtable) == PREFIXED_SECTIONS[2]
  {
    EmptyVTable(x, 8, 13);
    ReadsFour(x.binary, 13);
    EmptyTable(x.schema, x.binary, 13, VTableAt(x.schema, x.binary, 8, 0, 13).vtable);
  }

  lemma PrefixedInOrder()
    ensures |PREFIXED_SECTIONS| == 3 && Ascending(PREFIXED_SECTIONS) && PREFIXED_SECTIONS[0].regions != []
            && End(PREFIXED_SECTIONS[0]) == 8
  {
  }

  /** The root offset counts from behind the size. */
  lemma PrefixedSections(x: Input, ss: seq<Section>)
    requires IsPrefixed(x) && InputOk(x) && IsAnnotation(x, ss)
    ensures ss == PREFIXED_SECTIONS
  {
    PrefixedInOrder();
    PrefixedHeader(x);
    PrefixedTable(x);
    EmptyIsFlat(x.schema);
    FlatAnnotationIs(x, ss, 13, 8, PREFIXED_SECTIONS[0], PREFIXED_SECTIONS[1], PREFIXED_SECTIONS[2], PREFIXED_SECTIONS);
  }

  function PrefixedBytes(): seq<byte> {
    [13, 0, 0, 0, 9, 0, 0, 0, 4, 0, 4, 0, 1, 5, 0, 0, 0]
  }

  lemma SomethingIsPrefixed()
    ensures IsPrefixed(Input(EMPTY_TABLE, PrefixedBytes(), true))
  {
    var b := PrefixedBytes();
    assert Two(b, 0) == 13 && Two(b, 2) == 0 && Two(b, 4) == 9 && Two(b, 6) == 0 && Two(b, 8) == 4 && Two(b, 10) == 4;
    assert Two(b, 13) == 5 && Two(b, 15) == 0;
  }

  /** There is such a binary, and the annotator finds its root table. */
  method AnnotatePrefixed() returns (result: seq<Section>)
    ensures HasKey(result, 0) && HasKey(result, 8) && HasKey(result, 13)
  {
    var x := Input(EMPTY_TABLE, PrefixedBytes(), true);
    SomethingIsPrefixed();
    PrefixedHeader(x);
    var annotator := new BinaryAnnotator(x);
    ghost var built;
    result, built := annotator.Annotate();
    PrefixedSections(x, built);
    ghost var s := FilledFrom(x.binary, built, built[0]);
    ghost var t := FilledFrom(x.binary, built, built[1]);
    ghost var u := FilledFrom(x.binary, built, built[2]);
  }

  // ---------------------------------------------------------------- a table that is lost to the header

  /** The root table's vtable is where the header is. */
  predicate IsHidden(x: Input) {
    var b := x.binary;
    x.schema == EMPTY_TABLE && !x.isSizePrefixed && |b| == 16 && Four(b, 0) == 8 && Two(b, 4) == 0 && Four(b, 8) == 6
  }

  lemma HiddenHeader(x: Input)
    requires IsHidden(x)
    ensures InputOk(x) && HeaderSection(x) == Section(0, Header, [Region(0, 4, UOffset, Ok, 8, ToTable(0))])
    ensures RootLocation(x.binary, false) == 8 && VTableLocation(x.binary, 8) == Some(2)
  {
    ReadsFour(x.binary, 0);
    ReadsFour(x.binary, 8);
    assert x.binary[4] == 0;
  }

  /** The header is the only section: none is at the root offset, nor covers it. */
  lemma RootTableIsLost(x: Input, ss: seq<Section>)
    requires IsHidden(x) && InputOk(x) && IsAnnotation(x, ss)
    ensures ss == [HeaderSection(x)] && !Found(ss, RootLocation(x.binary, false))
    ensures Sound(x.binary, ss) && !HasKey(Finish(x.binary, ss), RootLocation(x.binary, false))
  {
    HiddenHeader(x);
    OnlyHeader(x, ss);
    AnnotationIsSound(x, ss);
    NothingToFill(x.binary, ss[0]);
    forall s | s in Finish(x.binary, ss)
      ensures s.key in {0, 4}
    {
      var i := Origin(x.binary, ss, s);
    }
  }

  function HiddenBytes(): seq<byte> {
    [8, 0, 0, 0, 0, 0, 0, 0, 6, 0, 0, 0, 1, 2, 3, 4]
  }

  lemma SomethingIsHidden()
    ensures IsHidden(Input(EMPTY_TABLE, HiddenBytes(), false))
  {
    var b := HiddenBytes();
    assert Two(b, 0) == 8 && Two(b, 2) == 0 && Two(b, 4) == 0 && Two(b, 8) == 6 && Two(b, 10) == 0;
  }

  /** There is such a binary, and the annotator loses its root table. */
  method AnnotateHidden() returns (result: seq<Section>)
    ensures !HasKey(result, 8)
  {
    var x := Input(EMPTY_TABLE, HiddenBytes(), false);
    SomethingIsHidden();
    HiddenHeader(x);
    var annotator := new BinaryAnnotator(x);
    ghost var built;
    result, built := annotator.Annotate();
    RootTableIsLost(x, built);
  }

  // ---------------------------------------------------------------- a table that reaches over its own vtable

  /** The root offset, the root table, which claims to be twenty bytes long, and in the middle of these its vtable. */
  predicate IsSticking(x: Input) {
    var b := x.binary;
    && x.schema == EMPTY_TABLE && !x.isSizePrefixed && |b| == 28
    && Four(b, 0) == 8 && Two(b, 4) == 0 && Four(b, 8) == 0xFFFF_FFF8 && Two(b, 16) == 4 && Two(b, 18) == 20
  }

  const STICKING_SECTIONS := [
    Section(0, Header, [Region(0, 4, UOffset, Ok, 8, ToTable(0))]),
    Section(8, RootTable, [Region(8, 4, SOffset, Ok, 16, Nothing), Plain(12, 16, Uint8, Ok)]),
    Section(16, VTableSection, [Plain(16, 2, Uint16, Ok), Plain(18, 2, Uint16, Ok)])
  ]

  lemma StickingHeader(x: Input)
    requires IsSticking(x)
    ensures InputOk(x) && RootLocation(x.binary, false) == 8 && HeaderSection(x) == STICKING_SECTIONS[0]
  {
    ReadsFour(x.binary, 0);
    assert x.binary[4] == 0;
  }

  lemma StickingVTable(x: Input)
    requires IsSticking(x)
    ensures IsUsable(x.binary, 16) && VTableSectionAt(x, 16, 0, 8) == STICKING_SECTIONS[2]
    ensures VTableAt(x.schema, x.binary, 16, 0, 8).vtable == VTable(0, map[], 20)
  {
    EmptyVTable(x, 16, 8);
  }

  lemma StickingTable(x: Input)
    requires IsSticking(x)
    ensures VTableLocation(x.binary, 8) == Some(16) && IsUsable(x.binary, 16)
    ensures TableSectionOf(x, 8, RootTable, VTableAt(x.schema, x.binary, 16, 0, 8).vtable) == STICKING_SECTIONS[1]
  {
    StickingVTable(x);
    ReadsFour(x.binary, 8);
    EmptyTable(x.schema, x.binary, 8, VTableAt(x.schema, x.binary, 16, 0, 8).vtable);
  }

  lemma StickingInOrder()
    ensures |STICKING_SECTIONS| == 3 && Ascending(STICKING_SECTIONS) && STICKING_SECTIONS[0].regions != []
            && End(STICKING_SECTIONS[0]) == 4
  {
  }

  lemma StickingSections(x: Input, ss: seq<Section>)
    requires IsSticking(x) && InputOk(x) && IsAnnotation(x, ss)
    ensures ss == STICKING_SECTIONS
  {
    StickingInOrder();
    StickingHeader(x);
    StickingVTable(x);
    StickingTable(x);
    EmptyIsFlat(x.schema);
    FlatAnnotationIs(x, ss, 8, 16, STICKING_SECTIONS[0], STICKING_SECTIONS[2], STICKING_SECTIONS[1], STICKING_SECTIONS);
  }

  /** Behind its vtable the table is found by looking at every section, but not through the index. */
  lemma TableSticksOut(x: Input, ss: seq<Section>)
    requires IsSticking(x) && InputOk(x) && IsAnnotation(x, ss)
    ensures NoneHollow(ss) && Scan(ss, 22) && !Contains(ss, 22) && !IndexExact(ss)
  {
    StickingSections(x, ss);
    assert Covers(ss[1], 22);
    assert ss[LowerBound(ss, 22) - 1].key == 16 by {
      LowerBoundAscending(ss, 22);
      assert ss[2].key == 16;
    }
    IndexIsScanIff(ss);
  }

  function StickingBytes(): seq<byte> {
    [8, 0, 0, 0, 0, 0, 0, 0, 248, 255, 255, 255, 0, 0, 0, 0, 4, 0, 20, 0, 0, 0, 0, 0, 0, 0, 0, 0]
  }

  lemma SomethingSticks()
    ensures IsSticking(Input(EMPTY_TABLE, StickingBytes(), false))
  {
    var b := StickingBytes();
    assert Two(b, 0) == 8 && Two(b, 2) == 0 && Two(b, 4) == 0 && Two(b, 16) == 4 && Two(b, 18) == 20;
    assert Two(b, 8) == 0xFFF8 && Two(b, 10) == 0xFFFF;
  }

  /** There is such a binary, and the annotator walks it. */
  method AnnotateSticking() returns (result: seq<Section>, ghost built: seq<Section>)
    ensures Sound(StickingBytes(), built) && result == Finish(StickingBytes(), built) && !IndexExact(built)
  {
    var x := Input(EMPTY_TABLE, StickingBytes(), false);
    SomethingSticks();
    StickingHeader(x);
    var annotator := new BinaryAnnotator(x);
    result, built := annotator.Annotate();
    TableSticksOut(x, built);
  }

  // ---------------------------------------------------------------- bytes lost to a region behind the binary

  lemma UnionIsFlat(s: Schema)
    requires s == UNION_TABLE
    ensures IsFlat(s)
  {
  }

  /** The root table has a union, whose type is listed at the offset just behind the binary. */
  predicate IsStray(x: Input) {
    var b := x.binary;
    && x.schema == UNION_TABLE && !x.isSizePrefixed && |b| == 24
    && Four(b, 0) == 12 && Two(b, 4) == 8 && Two(b, 6) == 12 && Two(b, 8) == 12 && Two(b, 10) == 4
    && Four(b, 12) == 8 && Four(b, 16) == 4
  }

  const STRAY_SECTIONS := [
    Section(0, Header, [Region(0, 4, UOffset, Ok, 12, ToTable(0))]),
    Section(4, VTableSection,
            [Plain(4, 2, Uint16, Ok), Plain(6, 2, Uint16, Ok), Plain(8, 2, VOffset, Ok), Plain(10, 2, VOffset, Ok)]),
    Section(12, RootTable, [Region(12, 4, SOffset, Ok, 4, Nothing), Plain(24, 0, Unknown, IncompleteBinary)])
  ]

  lemma StrayHeader(x: Input)
    requires IsStray(x)
    ensures InputOk(x) && RootLocation(x.binary, false) == 12 && HeaderSection(x) == STRAY_SECTIONS[0]
  {
    ReadsFour(x.binary, 0);
    assert x.binary[4] == 8;
  }

  /** The vtable lists the type and the union. */
  predicate IsStrayVTable(s: Schema, v: VTable) {
    && s == UNION_TABLE && v.table == 0 && v.tableSize == 12 && v.fields.Keys == {0, 1}
    && v.fields[0] == Entry(0, Some(s.tables[0][0]), 12) && v.fields[1] == Entry(1, Some(s.tables[0][1]), 4)
  }

  lemma StrayVTable(x: Input)
    requires IsStray(x)
    ensures IsUsable(x.binary, 4) && VTableSectionAt(x, 4, 0, 12) == STRAY_SECTIONS[1]
    ensures IsStrayVTable(x.schema, VTableAt(x.schema, x.binary, 4, 0, 12).vtable)
  {
    var b, fields := x.binary, x.schema.tables[0];
    ReadsTwo(b, 4);
    ReadsTwo(b, 6);
    StrayEntries(b, fields);
  }

  lemma StrayEntries(b: seq<byte>, fields: seq<Field>)
    requires |b| == 24 && |fields| == 2 && Two(b, 8) == 12 && Two(b, 10) == 4 && forall f :: f in fields ==> !f.required
    ensures KnownEntries(b, 4, 8, 12, fields, 2)
            == EntryScan([Plain(8, 2, VOffset, Ok), Plain(10, 2, VOffset, Ok)],
                         map[0 := Entry(0, Some(fields[0]), 12), 1 := Entry(1, Some(fields[1]), 4)], 2)
  {
    ReadsTwo(b, 8);
    ReadsTwo(b, 10);
    var one := KnownEntries(b, 4, 8, 12, fields, 1);
    assert one == KnownEntry(b, 4, 8, 12, fields[0], 0, KnownEntries(b, 4, 8, 12, fields, 0));
    assert one == EntryScan([Plain(8, 2, VOffset, Ok)], map[0 := Entry(0, Some(fields[0]), 12)], 1);
    assert KnownEntries(b, 4, 8, 12, fields, 2) == KnownEntry(b, 4, 8, 12, fields[1], 1, one);
  }

  /** Ids that are not there list nothing. */
  lemma {:induction false} ListedUpTo(fields: map<nat, Entry>, k: nat, n: nat)
    requires k <= n && forall id :: id in fields ==> id < k
    ensures Listing(fields, n) == Listing(fields, k)
    decreases n
  {
    if k < n {
      ListedUpTo(fields, k, n - 1);
    }
  }

  lemma TwoListed(fields: map<nat, Entry>)
    requires fields.Keys == {0, 1}
    ensures Listing(fields, U16) == [fields[0], fields[1]]
  {
    ListedUpTo(fields, 2, U16);
    assert Listing(fields, 1) == [fields[0]];
  }

  /** Two elements in the wrong order change places. */
  lemma TwoSorted<T>(s: seq<T>, key: T -> int)
    requires |s| == 2 && key(s[1]) < key(s[0])
    ensures StableSort(s, key) == [s[1], s[0]]
  {
    var x, y := s[0], s[1];
    assert s[1..] == [y] && [y][1..] == [];
    assert StableSort([y], key) == Insert(y, StableSort([y][1..], key), key);
    assert Insert(x, [y], key) == [y] + Insert(x, [y][1..], key);
  }

  lemma TwoInOrder(v: VTable)
    requires v.fields.Keys == {0, 1} && v.fields[1].offset < v.fields[0].offset
    ensures InTableOrder(v) == [v.fields[1], v.fields[0]]
  {
    TwoListed(v.fields);
    TwoSorted([v.fields[0], v.fields[1]], (e: Entry) => e.offset);
  }

  /** The field of the union only gets a region that says its type cannot be read. */
  lemma StrayFields(x: Input, v: VTable, order: seq<Entry>)
    requires IsStray(x) && IsStrayVTable(x.schema, v) && order == [v.fields[1], v.fields[0]]
    ensures TableFieldsRegions(x.schema, x.binary, 12, v, order, 2) == [Plain(24, 0, Unknown, IncompleteBinary)]
  {
    var s, b := x.schema, x.binary;
    ReadsFour(b, 16);
    assert TableFieldRegions(s, b, 12, v, order, 0) == [Plain(24, 0, Unknown, IncompleteBinary)];
    assert TableFieldRegions(s, b, 12, v, order, 1) == [];
    assert TableFieldsRegions(s, b, 12, v, order, 1) == TableFieldRegions(s, b, 12, v, order, 0);
  }

  lemma StrayTable(x: Input)
    requires IsStray(x)
    ensures VTableLocation(x.binary, 12) == Some(4) && IsUsable(x.binary, 4)
    ensures TableSectionOf(x, 12, RootTable, VTableAt(x.schema, x.binary, 4, 0, 12).vtable) == STRAY_SECTIONS[2]
  {
    StrayVTable(x);
    var v := VTableAt(x.schema, x.binary, 4, 0, 12).vtable;
    ReadsFour(x.binary, 12);
    TwoInOrder(v);
    StrayFields(x, v, InTableOrder(v));
  }

  lemma StrayInOrder()
    ensures |STRAY_SECTIONS| == 3 && Ascending(STRAY_SECTIONS) && STRAY_SECTIONS[0].regions != []
            && End(STRAY_SECTIONS[0]) == 4
  {
  }

  lemma StraySections(x: Input, ss: seq<Section>)
    requires IsStray(x) && InputOk(x) && IsAnnotation(x, ss)
    ensures ss == STRAY_SECTIONS
  {
    StrayInOrder();
    StrayHeader(x);
    StrayVTable(x);
    StrayTable(x);
    UnionIsFlat(x.schema);
    FlatAnnotationIs(x, ss, 12, 4, STRAY_SECTIONS[0], STRAY_SECTIONS[1], STRAY_SECTIONS[2], STRAY_SECTIONS);
  }

  lemma StrayFilled(b: seq<byte>)
    requires |b| == 24
    ensures FillAll(b, STRAY_SECTIONS) == STRAY_SECTIONS
  {
    NothingToFill(b, STRAY_SECTIONS[0]);
    NothingToFill(b, STRAY_SECTIONS[2]);
    FourInARow(b, STRAY_SECTIONS[1]);
  }

  lemma FourInARow(b: seq<byte>, s: Section)
    requires |s.regions| == 4 && Contiguous(s.regions, s.key) && EndOf(s.regions[3]) <= |b|
    requires forall r :: r in s.regions ==> r.length > 0
    ensures FillSection(b, s) == s
  {
    var rs := s.regions;
    assert rs[1..][1..] == rs[2..] && rs[2..][1..] == rs[3..] && rs[3..][1..] == [];
    assert rs[1].offset == EndOf(rs[0]) && rs[2].offset == EndOf(rs[1]) && rs[3].offset == EndOf(rs[2]);
    assert GapsFrom(b, EndOf(rs[2]), rs[3..]) == [];
    assert GapsFrom(b, EndOf(rs[1]), rs[2..]) == [];
    assert GapsFrom(b, EndOf(rs[0]), rs[1..]) == [];
  }

  lemma StrayBytesUnreached(b: seq<byte>, p: nat)
    requires |b| == 24 && Laid(b, STRAY_SECTIONS) && 16 <= p < 24
    ensures !IsReached(b, STRAY_SECTIONS, p) && !InGap(b, STRAY_SECTIONS, p)
  {
  }

  /**
   * All bytes of the table but its first four are lost: an empty region behind the binary makes them look
   * accounted for.
   */
  lemma StrayBytesAreLost(x: Input, ss: seq<Section>, p: nat)
    requires IsStray(x) && InputOk(x) && IsAnnotation(x, ss) && 16 <= p < 24
    ensures Sound(x.binary, ss) && !IsAnnotated(Finish(x.binary, ss), p)
  {
    AnnotationIsSound(x, ss);
    StraySections(x, ss);
    StrayFilled(x.binary);
    ByteAnnotatedIff(x.binary, ss, p);
    StrayBytesUnreached(x.binary, p);
  }

  function StrayBytes(): seq<byte> {
    [12, 0, 0, 0, 8, 0, 12, 0, 12, 0, 4, 0, 8, 0, 0, 0, 4, 0, 0, 0, 1, 2, 3, 4]
  }

  lemma SomethingStrays()
    ensures IsStray(Input(UNION_TABLE, StrayBytes(), false))
  {
    var b := StrayBytes();
    assert Four(b, 0) == 12;
    assert Four(b, 12) == 8;
    assert Four(b, 16) == 4;
  }

  /** There is such a binary, and the annotator loses the bytes. */
  method AnnotateStray() returns (result: seq<Section>)
    ensures |StrayBytes()| == 24 && forall p :: 16 <= p < 24 ==> !IsAnnotated(result, p)
  {
    var x := Input(UNION_TABLE, StrayBytes(), false);
    SomethingStrays();
    StrayHeader(x);
    var annotator := new BinaryAnnotator(x);
    ghost var built;
    result, built := annotator.Annotate();
    forall p | 16 <= p < 24
      ensures !IsAnnotated(result, p)
    {
      StrayBytesAreLost(x, built, p);
    }
  }
}
